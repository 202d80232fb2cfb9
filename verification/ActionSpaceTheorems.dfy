/** What the built action space means in terms of the bindings it was built from. */
module ActionSpaceTheorems {
  import opened ExecutionContracts
  import opened Lexicographic
  import opened Grouping
  import opened Sequences
  import opened ActionSpaceContracts
  import opened ActionSpaces

  // ---- the conflict table ----

  /** Comparing the pair withholds route `r` from `k`. */
  ghost predicate Touches(p: Pair, k: GroupKey, r: string) {
    r in Disputed(p) && (k == p.left || k == p.right)
  }

  ghost predicate Touched(pairs: seq<Pair>, k: GroupKey, r: string) {
    exists p :: p in pairs && Touches(p, k, r)
  }

  lemma TouchedStep(pairs: seq<Pair>, k: GroupKey, r: string)
    requires pairs != []
    ensures Touched(pairs, k, r) <==> Touched(pairs[..|pairs| - 1], k, r) || Touches(pairs[|pairs| - 1], k, r)
  {
    var front, last := pairs[..|pairs| - 1], pairs[|pairs| - 1];
    assert pairs == front + [last];
  }

  lemma {:induction false} TableTouches(pairs: seq<Pair>, k: GroupKey, r: string)
    ensures r in Entry(RouteTable(pairs), k) <==> Touched(pairs, k, r)
  {
    if pairs == [] {
    } else {
      TableTouches(pairs[..|pairs| - 1], k, r);
      TouchedStep(pairs, k, r);
    }
  }

  lemma {:induction false} PairsAgainstAre(left: GroupKey, rights: seq<GroupKey>)
    ensures forall p :: p in PairsAgainst(left, rights) <==> p.left == left && p.right in rights
  {
    if rights == [] {
    } else {
      PairsAgainstAre(left, rights[..|rights| - 1]);
      assert rights == rights[..|rights| - 1] + [rights[|rights| - 1]];
    }
  }

  ghost predicate At(keys: seq<GroupKey>, i: int, j: int, p: Pair) {
    0 <= i < j < |keys| && p == Pair(keys[i], keys[j])
  }

  ghost predicate Below(keys: seq<GroupKey>, n: nat, p: Pair) {
    exists i, j :: i < n && At(keys, i, j, p)
  }

  lemma BelowStep(keys: seq<GroupKey>, n: nat, p: Pair)
    requires n < |keys|
    ensures Below(keys, n + 1, p) <==> Below(keys, n, p) || (p.left == keys[n] && p.right in keys[n + 1..])
  {
    if p.left == keys[n] && p.right in keys[n + 1..] {
      var j :| 0 <= j < |keys[n + 1..]| && keys[n + 1..][j] == p.right;
      assert At(keys, n, n + 1 + j, p);
    }
    if i, j :| i < n + 1 && At(keys, i, j, p) && i == n {
      assert keys[n + 1..][j - n - 1] == p.right;
    }
  }

  lemma {:induction false} PairsWithinAre(keys: seq<GroupKey>, n: nat, p: Pair)
    requires n <= |keys|
    ensures p in PairsWithin(keys, n) <==> Below(keys, n, p)
  {
    if n == 0 {
    } else {
      PairsWithinAre(keys, n - 1, p);
      BelowStep(keys, n - 1, p);
      PairsAgainstAre(keys[n - 1], keys[n..]);
    }
  }

  ghost predicate PairedIn(selectors: seq<Bucket<Selector, GroupKey>>, m: int, p: Pair) {
    0 <= m < |selectors| && p in PairsWithin(selectors[m].items, |selectors[m].items|)
  }

  ghost predicate Paired(selectors: seq<Bucket<Selector, GroupKey>>, p: Pair) {
    exists m :: PairedIn(selectors, m, p)
  }

  lemma PairedStep(selectors: seq<Bucket<Selector, GroupKey>>, p: Pair)
    requires selectors != []
    ensures Paired(selectors, p) <==>
              Paired(selectors[..|selectors| - 1], p) || PairedIn(selectors, |selectors| - 1, p)
  {
    var front, last := selectors[..|selectors| - 1], |selectors| - 1;
    if m :| PairedIn(selectors, m, p) && m != last {
      assert PairedIn(front, m, p);
    }
    if m :| PairedIn(front, m, p) {
      assert PairedIn(selectors, m, p);
    }
  }

  lemma {:induction false} PairsOfAre(selectors: seq<Bucket<Selector, GroupKey>>, p: Pair)
    ensures p in PairsOf(selectors) <==> Paired(selectors, p)
  {
    if selectors == [] {
    } else {
      PairsOfAre(selectors[..|selectors| - 1], p);
      PairedStep(selectors, p);
    }
  }

  lemma OnlyBucketsArePaired(selectors: seq<Bucket<Selector, GroupKey>>, p: Pair) returns (m: nat)
    requires p in PairsOf(selectors)
    ensures m < |selectors| && p.left in selectors[m].items && p.right in selectors[m].items
  {
    PairsOfAre(selectors, p);
    m :| PairedIn(selectors, m, p);
    PairsWithinAre(selectors[m].items, |selectors[m].items|, p);
  }

  /** Only groups of one selector are compared. */
  lemma OnlyRivalsAreCompared(keys: seq<GroupKey>, p: Pair)
    requires p in PairsOf(GroupBy(SelectorOf, keys))
    ensures p.left in keys && p.right in keys && SelectorOf(p.left) == SelectorOf(p.right)
  {
    var m := OnlyBucketsArePaired(GroupBy(SelectorOf, keys), p);
    ItemOf(SelectorOf, keys, m, p.left);
    ItemOf(SelectorOf, keys, m, p.right);
  }

  lemma PairedWithin(items: seq<GroupKey>, a: GroupKey, b: GroupKey)
    requires a in items && b in items && a != b
    ensures Pair(a, b) in PairsWithin(items, |items|) || Pair(b, a) in PairsWithin(items, |items|)
  {
    var i :| 0 <= i < |items| && items[i] == a;
    var j :| 0 <= j < |items| && items[j] == b;
    PairsWithinAre(items, |items|, Pair(a, b));
    PairsWithinAre(items, |items|, Pair(b, a));
    assert At(items, i, j, Pair(a, b)) || At(items, j, i, Pair(b, a));
  }

  /** Any two different groups of one selector are compared. */
  lemma EveryRivalryIsCompared(keys: seq<GroupKey>, a: GroupKey, b: GroupKey)
    requires a in keys && b in keys && SelectorOf(a) == SelectorOf(b) && a != b
    ensures Pair(a, b) in PairsOf(GroupBy(SelectorOf, keys)) || Pair(b, a) in PairsOf(GroupBy(SelectorOf, keys))
  {
    var selectors := GroupBy(SelectorOf, keys);
    var m := BucketOf(SelectorOf, keys, a);
    var n := BucketOf(SelectorOf, keys, b);
    assert m == n by {
      GroupMembers(SelectorOf, keys);
    }
    PairedWithin(selectors[m].items, a, b);
    PairsOfAre(selectors, Pair(a, b));
    PairsOfAre(selectors, Pair(b, a));
    assert PairedIn(selectors, m, Pair(a, b)) || PairedIn(selectors, m, Pair(b, a));
  }

  /** Another group of the selector carries the route under another contract. */
  ghost predicate Rivals(keys: seq<GroupKey>, g: GroupKey, d: string) {
    exists other :: other in keys && SelectorOf(other) == SelectorOf(g) && d in Disputed(Pair(g, other))
  }

  /** A group loses exactly the routes another group of its selector carries under another contract. */
  lemma TableIs(keys: seq<GroupKey>, k: GroupKey, r: string)
    requires k in keys
    ensures r in Entry(RouteTable(PairsOf(GroupBy(SelectorOf, keys))), k)
       <==> Rivals(keys, k, r)
  {
    var pairs := PairsOf(GroupBy(SelectorOf, keys));
    TableTouches(pairs, k, r);
    if Touched(pairs, k, r) {
      var p :| p in pairs && Touches(p, k, r);
      OnlyRivalsAreCompared(keys, p);
      assert r in Disputed(Pair(k, if k == p.left then p.right else p.left));
    }
    if other :| other in keys && SelectorOf(other) == SelectorOf(k) && r in Disputed(Pair(k, other)) {
      EveryRivalryIsCompared(keys, k, other);
      assert Touches(Pair(k, other), k, r) && Touches(Pair(other, k), k, r);
    }
  }

  // ---- the same, said of bindings ----

  /** A binding serves route `d` of an action on a target. */
  ghost predicate Carries(b: Binding, s: Selector, d: string) {
    b.target == s.target && b.action == s.action && d in Routes(b.destinations)
  }

  /** All bindings that carry the route promise the same. */
  ghost predicate Agreed(digests: Digests, eligible: seq<Binding>, s: Selector, d: string) {
    forall b, c | b in eligible && c in eligible && Carries(b, s, d) && Carries(c, s, d) ::
      ContractOf(digests, b) == ContractOf(digests, c)
  }

  ghost predicate Carried(eligible: seq<Binding>, s: Selector, d: string) {
    exists b :: b in eligible && Carries(b, s, d)
  }

  /** Some eligible binding carries the route of `b` under another contract. */
  ghost predicate Withheld(digests: Digests, eligible: seq<Binding>, b: Binding, d: string) {
    exists c :: c in eligible && Carries(c, Selector(b.target, b.action), d)
      && ContractOf(digests, c) != ContractOf(digests, b)
  }

  ghost predicate Open(digests: Digests, eligible: seq<Binding>, b: Binding, d: string) {
    d in b.destinations && !Withheld(digests, eligible, b, d)
  }

  ghost predicate Survives(digests: Digests, eligible: seq<Binding>, b: Binding) {
    && !(b.destinations == [] && Withheld(digests, eligible, b, ""))
    && (b.terms.required ==> exists d :: Open(digests, eligible, b, d))
  }

  lemma RivalsAreBindings(digests: Digests, eligible: seq<Binding>, b: Binding, d: string)
    requires d in Routes(b.destinations)
    ensures Rivals(KeysOf(GroupBy(GroupKeyOf(digests), eligible)), GroupKeyOf(digests)(b), d)
       <==> Withheld(digests, eligible, b, d)
  {
    var keyOf := GroupKeyOf(digests);
    var keys := KeysOf(GroupBy(keyOf, eligible));
    var g := keyOf(b);
    if Rivals(keys, g, d) {
      var other :| other in keys && SelectorOf(other) == SelectorOf(g) && d in Disputed(Pair(g, other));
      var c := KeyIsUsed(digests, eligible, other);
      assert Carries(c, Selector(b.target, b.action), d);
    }
    if Withheld(digests, eligible, b, d) {
      var c :| c in eligible && Carries(c, Selector(b.target, b.action), d)
        && ContractOf(digests, c) != ContractOf(digests, b);
      KeysAreUsed(digests, eligible, c);
      assert d in Disputed(Pair(g, keyOf(c)));
    }
  }

  lemma KeyIsUsed(digests: Digests, eligible: seq<Binding>, k: GroupKey) returns (b: Binding)
    requires k in KeysOf(GroupBy(GroupKeyOf(digests), eligible))
    ensures b in eligible && GroupKeyOf(digests)(b) == k
  {
    var groups := GroupBy(GroupKeyOf(digests), eligible);
    var n :| 0 <= n < |groups| && groups[n].key == k;
    b := SomeItem(GroupKeyOf(digests), eligible, n);
  }

  lemma WithheldFromGroup(digests: Digests, eligible: seq<Binding>, b: Binding, d: string)
    requires b in eligible && d in Routes(b.destinations)
    ensures d in Entry(RouteTable(ComparedPairs(digests, eligible)), GroupKeyOf(digests)(b))
       <==> Withheld(digests, eligible, b, d)
  {
    KeysAreUsed(digests, eligible, b);
    TableIs(KeysOf(GroupBy(GroupKeyOf(digests), eligible)), GroupKeyOf(digests)(b), d);
    RivalsAreBindings(digests, eligible, b, d);
  }

  lemma KeysAreUsed(digests: Digests, eligible: seq<Binding>, b: Binding)
    requires b in eligible
    ensures GroupKeyOf(digests)(b) in KeysOf(GroupBy(GroupKeyOf(digests), eligible))
  {
    var groups := GroupBy(GroupKeyOf(digests), eligible);
    var n := BucketOf(GroupKeyOf(digests), eligible, b);
    assert KeysOf(groups)[n] == GroupKeyOf(digests)(b);
  }

  lemma {:induction false} KeepIs(destinations: seq<string>, withheld: set<string>)
    ensures forall d :: d in Keep(destinations, withheld) <==> d in destinations && d !in withheld
  {
    if destinations == [] {
    } else {
      KeepIs(destinations[..|destinations| - 1], withheld);
      assert destinations == destinations[..|destinations| - 1] + [destinations[|destinations| - 1]];
    }
  }

  /** A group is published exactly when its bindings survive, and keeps exactly their open destinations. */
  lemma GroupSurvives(digests: Digests, eligible: seq<Binding>, b: Binding)
    requires b in eligible
    ensures var g := GroupKeyOf(digests)(b);
            var routes := RouteTable(ComparedPairs(digests, eligible));
            && (Publishable(g, Entry(routes, g)) <==> Survives(digests, eligible, b))
            && (forall d :: d in Keep(g.destinations, Entry(routes, g)) <==> Open(digests, eligible, b, d))
  {
    var g := GroupKeyOf(digests)(b);
    var routes := RouteTable(ComparedPairs(digests, eligible));
    KeepIs(g.destinations, Entry(routes, g));
    forall d
      ensures d in Keep(g.destinations, Entry(routes, g)) <==> Open(digests, eligible, b, d)
    {
      if d in b.destinations {
        WithheldFromGroup(digests, eligible, b, d);
      }
    }
    if b.destinations == [] {
      WithheldFromGroup(digests, eligible, b, "");
    }
    if Keep(g.destinations, Entry(routes, g)) != [] {
      assert Keep(g.destinations, Entry(routes, g))[0] in Keep(g.destinations, Entry(routes, g));
      assert Open(digests, eligible, b, Keep(g.destinations, Entry(routes, g))[0]);
    }
  }

  // ---- publishing ----

  ghost predicate DistinctContracts(entries: seq<Published>) {
    forall i, j | 0 <= i < j < |entries| :: entries[i].key != entries[j].key
  }

  ghost predicate Gives(g: Bucket<GroupKey, Binding>, routes: map<GroupKey, set<string>>, key: ContractKey) {
    g.key.key == key && Publishable(g.key, Entry(routes, g.key))
  }

  ghost predicate BindingGiven(groups: seq<Bucket<GroupKey, Binding>>, routes: map<GroupKey, set<string>>,
                               key: ContractKey, b: Binding)
  {
    exists n :: 0 <= n < |groups| && Gives(groups[n], routes, key) && b in groups[n].items
  }

  ghost predicate DestinationGiven(groups: seq<Bucket<GroupKey, Binding>>, routes: map<GroupKey, set<string>>,
                                   key: ContractKey, d: string)
  {
    exists n :: 0 <= n < |groups| && Gives(groups[n], routes, key)
      && d in Keep(groups[n].key.destinations, Entry(routes, groups[n].key))
  }

  lemma BindingStep(groups: seq<Bucket<GroupKey, Binding>>, routes: map<GroupKey, set<string>>, key: ContractKey,
                    b: Binding)
    requires groups != []
    ensures var front, g := groups[..|groups| - 1], groups[|groups| - 1];
            BindingGiven(groups, routes, key, b) <==>
              || BindingGiven(front, routes, key, b)
              || (Gives(g, routes, key) && b in g.items)
  {
    var front, last := groups[..|groups| - 1], |groups| - 1;
    forall n | 0 <= n < last ensures front[n] == groups[n] {
    }
  }

  lemma DestinationStep(groups: seq<Bucket<GroupKey, Binding>>, routes: map<GroupKey, set<string>>, key: ContractKey,
                        d: string)
    requires groups != []
    ensures var front, g := groups[..|groups| - 1], groups[|groups| - 1];
            DestinationGiven(groups, routes, key, d) <==>
              || DestinationGiven(front, routes, key, d)
              || (Gives(g, routes, key) && d in Keep(g.key.destinations, Entry(routes, g.key)))
  {
    var front, last := groups[..|groups| - 1], |groups| - 1;
    forall n | 0 <= n < last ensures front[n] == groups[n] {
    }
  }

  /** The entry of a contract holds the bindings and the remaining destinations of its groups, and nothing else. */
  ghost predicate EntryIs(p: Published, groups: seq<Bucket<GroupKey, Binding>>, routes: map<GroupKey, set<string>>) {
    && (forall b :: b in p.bindings <==> BindingGiven(groups, routes, p.key, b))
    && (forall d :: d in p.destinations <==> DestinationGiven(groups, routes, p.key, d))
  }

  ghost predicate EveryGroupEntered(entries: seq<Published>, groups: seq<Bucket<GroupKey, Binding>>,
                                    routes: map<GroupKey, set<string>>)
  {
    forall n | 0 <= n < |groups| && Gives(groups[n], routes, groups[n].key.key) ::
      PublishedIndex(entries, groups[n].key.key) < |entries|
  }

  lemma UnpublishedGivesNothing(entries: seq<Published>, groups: seq<Bucket<GroupKey, Binding>>,
                                                    routes: map<GroupKey, set<string>>, key: ContractKey)
    requires EveryGroupEntered(entries, groups, routes) && PublishedIndex(entries, key) == |entries|
    ensures forall n | 0 <= n < |groups| :: !Gives(groups[n], routes, key)
  {
  }

  lemma {:induction false} PublishAllIs(groups: seq<Bucket<GroupKey, Binding>>, routes: map<GroupKey, set<string>>)
    ensures DistinctContracts(PublishAll(groups, routes))
    ensures EveryGroupEntered(PublishAll(groups, routes), groups, routes)
    ensures forall i | 0 <= i < |PublishAll(groups, routes)| :: EntryIs(PublishAll(groups, routes)[i], groups, routes)
  {
    if groups == [] {
    } else {
      var front, g := groups[..|groups| - 1], groups[|groups| - 1];
      PublishAllIs(front, routes);
      var before, after := PublishAll(front, routes), PublishAll(groups, routes);
      var at := PublishedIndex(before, g.key.key);
      StringsAreOrdered();
      forall n | 0 <= n < |groups| && Gives(groups[n], routes, groups[n].key.key)
        ensures PublishedIndex(after, groups[n].key.key) < |after|
      {
        StillPublished(front, g, routes, groups[n].key.key);
        if n < |front| {
          assert front[n] == groups[n];
        }
      }
      forall i | 0 <= i < |after|
        ensures EntryIs(after[i], groups, routes)
      {
        EntryStep(groups, routes, i);
      }
    }
  }

  lemma StillPublished(front: seq<Bucket<GroupKey, Binding>>, g: Bucket<GroupKey, Binding>,
                       routes: map<GroupKey, set<string>>, key: ContractKey)
    requires PublishedIndex(PublishAll(front, routes), key) < |PublishAll(front, routes)| || Gives(g, routes, key)
    ensures PublishedIndex(PublishAll(front + [g], routes), key) < |PublishAll(front + [g], routes)|
  {
    var groups := front + [g];
    assert groups[..|groups| - 1] == front;
    var before, after := PublishAll(front, routes), PublishAll(groups, routes);
    var n := PublishedIndex(before, key);
    assert after[n].key == key;
  }

  /** What publishing the last group did to the entry at `i`. */
  lemma LastPublished(groups: seq<Bucket<GroupKey, Binding>>, routes: map<GroupKey, set<string>>, i: nat)
    requires groups != [] && i < |PublishAll(groups, routes)|
    requires DistinctContracts(PublishAll(groups[..|groups| - 1], routes))
    ensures var g := groups[|groups| - 1];
            var before, p := PublishAll(groups[..|groups| - 1], routes), PublishAll(groups, routes)[i];
            var at, kept := PublishedIndex(before, p.key), Keep(g.key.destinations, Entry(routes, g.key));
            if !Gives(g, routes, p.key) then i < |before| && p == before[i]
            else if at < |before| then
              p == Published(p.key, SortedSet(StringLess, before[at].destinations + kept),
                             before[at].bindings + g.items)
            else p == Published(p.key, kept, g.items)
  {
  }

  ghost predicate EntriesAre(entries: seq<Published>, groups: seq<Bucket<GroupKey, Binding>>,
                             routes: map<GroupKey, set<string>>)
  {
    && DistinctContracts(entries)
    && EveryGroupEntered(entries, groups, routes)
    && forall i | 0 <= i < |entries| :: EntryIs(entries[i], groups, routes)
  }

  lemma EntryStep(groups: seq<Bucket<GroupKey, Binding>>, routes: map<GroupKey, set<string>>, i: nat)
    requires groups != [] && i < |PublishAll(groups, routes)|
    requires EntriesAre(PublishAll(groups[..|groups| - 1], routes), groups[..|groups| - 1], routes)
    ensures EntryIs(PublishAll(groups, routes)[i], groups, routes)
  {
    var p := PublishAll(groups, routes)[i];
    var before := PublishAll(groups[..|groups| - 1], routes);
    if !Gives(groups[|groups| - 1], routes, p.key) {
      KeptStep(groups, routes, i);
    } else if PublishedIndex(before, p.key) < |before| {
      MergedStep(groups, routes, i);
    } else {
      AddedStep(groups, routes, i);
    }
  }

  lemma KeptStep(groups: seq<Bucket<GroupKey, Binding>>, routes: map<GroupKey, set<string>>, i: nat)
    requires groups != [] && i < |PublishAll(groups, routes)|
    requires EntriesAre(PublishAll(groups[..|groups| - 1], routes), groups[..|groups| - 1], routes)
    requires !Gives(groups[|groups| - 1], routes, PublishAll(groups, routes)[i].key)
    ensures EntryIs(PublishAll(groups, routes)[i], groups, routes)
  {
    LastPublished(groups, routes, i);
    KeptEntry(PublishAll(groups, routes)[i], groups, routes);
  }

  lemma MergedStep(groups: seq<Bucket<GroupKey, Binding>>, routes: map<GroupKey, set<string>>, i: nat)
    requires groups != [] && i < |PublishAll(groups, routes)|
    requires EntriesAre(PublishAll(groups[..|groups| - 1], routes), groups[..|groups| - 1], routes)
    requires Gives(groups[|groups| - 1], routes, PublishAll(groups, routes)[i].key)
    requires var before := PublishAll(groups[..|groups| - 1], routes);
             PublishedIndex(before, PublishAll(groups, routes)[i].key) < |before|
    ensures EntryIs(PublishAll(groups, routes)[i], groups, routes)
  {
    var before, p := PublishAll(groups[..|groups| - 1], routes), PublishAll(groups, routes)[i];
    LastPublished(groups, routes, i);
    MergedEntry(before[PublishedIndex(before, p.key)], p, groups, routes);
  }

  lemma AddedStep(groups: seq<Bucket<GroupKey, Binding>>, routes: map<GroupKey, set<string>>, i: nat)
    requires groups != [] && i < |PublishAll(groups, routes)|
    requires EntriesAre(PublishAll(groups[..|groups| - 1], routes), groups[..|groups| - 1], routes)
    requires Gives(groups[|groups| - 1], routes, PublishAll(groups, routes)[i].key)
    requires var before := PublishAll(groups[..|groups| - 1], routes);
             PublishedIndex(before, PublishAll(groups, routes)[i].key) == |before|
    ensures EntryIs(PublishAll(groups, routes)[i], groups, routes)
  {
    LastPublished(groups, routes, i);
    FirstEntry(PublishAll(groups[..|groups| - 1], routes), PublishAll(groups, routes)[i], groups, routes);
  }

  /** The first group of a contract makes its entry alone. */
  lemma FirstEntry(before: seq<Published>, p: Published, groups: seq<Bucket<GroupKey, Binding>>,
                   routes: map<GroupKey, set<string>>)
    requires groups != [] && EveryGroupEntered(before, groups[..|groups| - 1], routes)
    requires PublishedIndex(before, p.key) == |before| && Gives(groups[|groups| - 1], routes, p.key)
    requires var g := groups[|groups| - 1];
             p.bindings == g.items && p.destinations == Keep(g.key.destinations, Entry(routes, g.key))
    ensures EntryIs(p, groups, routes)
  {
    var front := groups[..|groups| - 1];
    UnpublishedGivesNothing(before, front, routes, p.key);
    forall n | 0 <= n < |groups| - 1 ensures !Gives(groups[n], routes, p.key) {
      assert front[n] == groups[n];
    }
    AddedEntry(p, groups, routes);
  }

  lemma KeptEntry(p: Published, groups: seq<Bucket<GroupKey, Binding>>, routes: map<GroupKey, set<string>>)
    requires groups != [] && EntryIs(p, groups[..|groups| - 1], routes) && !Gives(groups[|groups| - 1], routes, p.key)
    ensures EntryIs(p, groups, routes)
  {
    forall b ensures b in p.bindings <==> BindingGiven(groups, routes, p.key, b) {
      BindingStep(groups, routes, p.key, b);
    }
    forall d ensures d in p.destinations <==> DestinationGiven(groups, routes, p.key, d) {
      DestinationStep(groups, routes, p.key, d);
    }
  }

  lemma AddedEntry(p: Published, groups: seq<Bucket<GroupKey, Binding>>, routes: map<GroupKey, set<string>>)
    requires groups != [] && Gives(groups[|groups| - 1], routes, p.key)
    requires forall n | 0 <= n < |groups| - 1 :: !Gives(groups[n], routes, p.key)
    requires var g := groups[|groups| - 1];
             p.bindings == g.items && p.destinations == Keep(g.key.destinations, Entry(routes, g.key))
    ensures EntryIs(p, groups, routes)
  {
  }

  lemma MergedBindings(was: Published, p: Published, groups: seq<Bucket<GroupKey, Binding>>,
                       routes: map<GroupKey, set<string>>)
    requires groups != [] && Gives(groups[|groups| - 1], routes, p.key)
    requires EntryIs(was, groups[..|groups| - 1], routes) && was.key == p.key
    requires p.bindings == was.bindings + groups[|groups| - 1].items
    ensures forall b :: b in p.bindings <==> BindingGiven(groups, routes, p.key, b)
  {
    forall b ensures b in p.bindings <==> BindingGiven(groups, routes, p.key, b) {
      BindingStep(groups, routes, p.key, b);
    }
  }

  lemma MergedDestinations(was: Published, p: Published, groups: seq<Bucket<GroupKey, Binding>>,
                           routes: map<GroupKey, set<string>>)
    requires groups != [] && Gives(groups[|groups| - 1], routes, p.key)
    requires EntryIs(was, groups[..|groups| - 1], routes) && was.key == p.key
    requires var g := groups[|groups| - 1];
             forall d :: d in p.destinations
               <==> d in was.destinations || d in Keep(g.key.destinations, Entry(routes, g.key))
    ensures forall d :: d in p.destinations <==> DestinationGiven(groups, routes, p.key, d)
  {
    forall d ensures d in p.destinations <==> DestinationGiven(groups, routes, p.key, d) {
      DestinationStep(groups, routes, p.key, d);
    }
  }

  lemma MergedEntry(was: Published, p: Published, groups: seq<Bucket<GroupKey, Binding>>,
                    routes: map<GroupKey, set<string>>)
    requires groups != [] && Gives(groups[|groups| - 1], routes, p.key)
    requires EntryIs(was, groups[..|groups| - 1], routes) && was.key == p.key
    requires var g := groups[|groups| - 1];
             && p.bindings == was.bindings + g.items
             && p.destinations
                == SortedSet(StringLess, was.destinations + Keep(g.key.destinations, Entry(routes, g.key)))
    ensures EntryIs(p, groups, routes)
  {
    var g := groups[|groups| - 1];
    StringsAreOrdered();
    SortedSetSorts(StringLess, was.destinations + Keep(g.key.destinations, Entry(routes, g.key)));
    MergedBindings(was, p, groups, routes);
    MergedDestinations(was, p, groups, routes);
  }

  // ---- the meaning of build ----

  /** A published entry in terms of the eligible bindings: who survives, and which destinations are open. */
  ghost predicate EntryMeans(digests: Digests, eligible: seq<Binding>, p: Published) {
    && (forall b :: b in p.bindings <==> b in eligible && KeyOf(digests, b) == p.key && Survives(digests, eligible, b))
    && (forall d :: d in p.destinations <==> Offering(digests, eligible, p.key, d))
  }

  lemma GivenMeans(digests: Digests, eligible: seq<Binding>, key: ContractKey, b: Binding)
    ensures BindingGiven(GroupBy(GroupKeyOf(digests), eligible), RouteTable(ComparedPairs(digests, eligible)), key, b)
       <==> b in eligible && KeyOf(digests, b) == key && Survives(digests, eligible, b)
  {
    var groups, routes := GroupBy(GroupKeyOf(digests), eligible), RouteTable(ComparedPairs(digests, eligible));
    if BindingGiven(groups, routes, key, b) {
      var n :| 0 <= n < |groups| && Gives(groups[n], routes, key) && b in groups[n].items;
      ItemOf(GroupKeyOf(digests), eligible, n, b);
      GroupSurvives(digests, eligible, b);
    }
    if b in eligible && KeyOf(digests, b) == key && Survives(digests, eligible, b) {
      GroupSurvives(digests, eligible, b);
      var n := BucketOf(GroupKeyOf(digests), eligible, b);
      assert Gives(groups[n], routes, key);
    }
  }

  /** A surviving binding of the contract keeps the destination open. */
  ghost predicate Offering(digests: Digests, eligible: seq<Binding>, key: ContractKey, d: string) {
    exists b :: b in eligible && KeyOf(digests, b) == key && Survives(digests, eligible, b)
      && Open(digests, eligible, b, d)
  }

  lemma DestinationMeans(digests: Digests, eligible: seq<Binding>, key: ContractKey, d: string)
    ensures DestinationGiven(GroupBy(GroupKeyOf(digests), eligible), RouteTable(ComparedPairs(digests, eligible)), key,
                             d)
       <==> Offering(digests, eligible, key, d)
  {
    var groups, routes := GroupBy(GroupKeyOf(digests), eligible), RouteTable(ComparedPairs(digests, eligible));
    if DestinationGiven(groups, routes, key, d) {
      var n :| 0 <= n < |groups| && Gives(groups[n], routes, key)
        && d in Keep(groups[n].key.destinations, Entry(routes, groups[n].key));
      var b := SomeItem(GroupKeyOf(digests), eligible, n);
      GroupSurvives(digests, eligible, b);
    }
    if Offering(digests, eligible, key, d) {
      var b :| b in eligible && KeyOf(digests, b) == key && Survives(digests, eligible, b)
        && Open(digests, eligible, b, d);
      GroupSurvives(digests, eligible, b);
      var n := BucketOf(GroupKeyOf(digests), eligible, b);
      assert Gives(groups[n], routes, key);
    }
  }

  lemma EntriesMean(digests: Digests, task: Task, o: Observation)
    ensures DistinctContracts(PublishedOf(digests, task, o))
    ensures forall i | 0 <= i < |PublishedOf(digests, task, o)| ::
              EntryMeans(digests, EligibleOf(task, o, o.bindings), PublishedOf(digests, task, o)[i])
  {
    var eligible := EligibleOf(task, o, o.bindings);
    var groups, routes := GroupBy(GroupKeyOf(digests), eligible), RouteTable(ComparedPairs(digests, eligible));
    PublishAllIs(groups, routes);
    forall i | 0 <= i < |PublishAll(groups, routes)|
      ensures EntryMeans(digests, eligible, PublishAll(groups, routes)[i])
    {
      EntryMeansFrom(digests, eligible, PublishAll(groups, routes)[i]);
    }
  }

  lemma EntryMeansFrom(digests: Digests, eligible: seq<Binding>, p: Published)
    requires EntryIs(p, GroupBy(GroupKeyOf(digests), eligible), RouteTable(ComparedPairs(digests, eligible)))
    ensures EntryMeans(digests, eligible, p)
  {
    forall b
      ensures b in p.bindings <==> b in eligible && KeyOf(digests, b) == p.key && Survives(digests, eligible, b)
    {
      GivenMeans(digests, eligible, p.key, b);
    }
    forall d
      ensures d in p.destinations <==> Offering(digests, eligible, p.key, d)
    {
      DestinationMeans(digests, eligible, p.key, d);
    }
  }

  /** Every surviving binding is published, once. */
  lemma SurvivorsArePublished(digests: Digests, task: Task, o: Observation, b: Binding) returns (i: nat)
    requires b in EligibleOf(task, o, o.bindings) && Survives(digests, EligibleOf(task, o, o.bindings), b)
    ensures i < |PublishedOf(digests, task, o)| && PublishedOf(digests, task, o)[i].key == KeyOf(digests, b)
  {
    var eligible := EligibleOf(task, o, o.bindings);
    var groups, routes := GroupBy(GroupKeyOf(digests), eligible), RouteTable(ComparedPairs(digests, eligible));
    GivenMeans(digests, eligible, KeyOf(digests, b), b);
    PublishAllIs(groups, routes);
    var n :| 0 <= n < |groups| && Gives(groups[n], routes, KeyOf(digests, b)) && b in groups[n].items;
    i := PublishedIndex(PublishAll(groups, routes), KeyOf(digests, b));
  }

  // ---- options ----

  lemma {:induction false} OptionsAlign(digests: Digests, observation: string, entries: seq<Published>, i: nat)
    requires NoneEmpty(entries) && i < |entries|
    ensures |OptionsOf(digests, observation, entries)| == |entries|
    ensures OptionsOf(digests, observation, entries)[i] == OptionOf(digests, observation, entries[i])
  {
    if |entries| > 1 {
      OptionsAlign(digests, observation, entries[..|entries| - 1], if i < |entries| - 1 then i else 0);
    }
  }

  lemma OptionCount(digests: Digests, task: Task, o: Observation)
    ensures |Built(digests, task, o).options| == |PublishedOf(digests, task, o)|
  {
    if PublishedOf(digests, task, o) != [] {
      OptionsAlign(digests, o.id, PublishedOf(digests, task, o), 0);
    }
  }

  lemma {:induction false} HighestRiskIs(bindings: seq<Binding>)
    requires bindings != []
    ensures forall b | b in bindings :: RiskRank(b.risk) <= RiskRank(HighestRisk(bindings))
    ensures exists b :: b in bindings && b.risk == HighestRisk(bindings)
  {
    var front, last := bindings[..|bindings| - 1], bindings[|bindings| - 1];
    assert bindings == front + [last];
    if front == [] {
      assert last in bindings && last.risk == HighestRisk(bindings);
    } else {
      HighestRiskIs(front);
    }
  }

  /** The bindings an option stands for. */
  ghost predicate Backs(digests: Digests, eligible: seq<Binding>, b: Binding, option: ActionOption) {
    && b in eligible && Survives(digests, eligible, b)
    && b.target == option.target && b.action == option.action && b.terms == option.terms
    && digests.text(b.schema) == digests.text(option.schema)
  }

  /** An option in terms of the eligible bindings. */
  ghost predicate OptionMeans(digests: Digests, o: Observation, eligible: seq<Binding>, option: ActionOption) {
    && option.observation == o.id
    && option.schemaDigest == digests.ofText(digests.text(option.schema))
    && (exists b :: Backs(digests, eligible, b, option) && b.schema == option.schema)
    && (forall id :: id in option.bindingIds <==> exists b :: Backs(digests, eligible, b, option) && b.id == id)
    && (forall d :: d in option.destinations <==>
          exists b :: Backs(digests, eligible, b, option) && Open(digests, eligible, b, d))
    && (forall b | Backs(digests, eligible, b, option) :: RiskRank(b.risk) <= RiskRank(option.risk))
    && (exists b :: Backs(digests, eligible, b, option) && b.risk == option.risk)
  }

  lemma BackersAre(digests: Digests, o: Observation, eligible: seq<Binding>, p: Published, b: Binding)
    requires p.bindings != [] && EntryMeans(digests, eligible, p)
    ensures b in p.bindings <==> Backs(digests, eligible, b, OptionOf(digests, o.id, p))
  {
    assert p.bindings[0] in p.bindings;
  }

  lemma IdsAre(p: Published, id: string)
    ensures id in Sorted(StringLess, Map((b: Binding) => b.id, p.bindings))
            <==> exists b :: b in p.bindings && b.id == id
  {
    var ids := Map((b: Binding) => b.id, p.bindings);
    SortedPermutes(StringLess, ids);
    assert id in Sorted(StringLess, ids) <==> id in multiset(ids);
    if b :| b in p.bindings && b.id == id {
      var k :| 0 <= k < |p.bindings| && p.bindings[k] == b;
      assert ids[k] == id;
    }
    if id in ids {
      var k :| 0 <= k < |ids| && ids[k] == id;
      assert p.bindings[k] in p.bindings;
    }
  }

  lemma OptionMeansFrom(digests: Digests, o: Observation, eligible: seq<Binding>, p: Published)
    requires p.bindings != [] && EntryMeans(digests, eligible, p)
    ensures OptionMeans(digests, o, eligible, OptionOf(digests, o.id, p))
  {
    var option := OptionOf(digests, o.id, p);
    forall b ensures b in p.bindings <==> Backs(digests, eligible, b, option) {
      BackersAre(digests, o, eligible, p, b);
    }
    forall id ensures id in option.bindingIds <==> exists b :: Backs(digests, eligible, b, option) && b.id == id {
      IdsAre(p, id);
    }
    assert p.bindings[0] in p.bindings;
    HighestRiskIs(p.bindings);
    forall d
      ensures d in option.destinations
              <==> exists b :: Backs(digests, eligible, b, option) && Open(digests, eligible, b, d)
    {
      assert d in p.destinations <==> Offering(digests, eligible, p.key, d);
    }
  }

  /** Every option of the built space is described by the bindings that back it. */
  lemma OptionsMean(digests: Digests, task: Task, o: Observation, i: nat)
    requires i < |Built(digests, task, o).options|
    ensures OptionMeans(digests, o, EligibleOf(task, o, o.bindings), Built(digests, task, o).options[i])
  {
    OptionCount(digests, task, o);
    OptionsAlign(digests, o.id, PublishedOf(digests, task, o), i);
    EntriesMean(digests, task, o);
    OptionMeansFrom(digests, o, EligibleOf(task, o, o.bindings), PublishedOf(digests, task, o)[i]);
  }

  /** A binding backs an option exactly when it is eligible and survives; it never backs two. */
  lemma BackedOnce(digests: Digests, task: Task, o: Observation, b: Binding)
    ensures b in EligibleOf(task, o, o.bindings) && Survives(digests, EligibleOf(task, o, o.bindings), b) <==>
              exists i :: 0 <= i < |Built(digests, task, o).options|
                          && Backs(digests, EligibleOf(task, o, o.bindings), b, Built(digests, task, o).options[i])
    ensures forall i, j | 0 <= i < |Built(digests, task, o).options| && 0 <= j < |Built(digests, task, o).options|
                          && Backs(digests, EligibleOf(task, o, o.bindings), b, Built(digests, task, o).options[i])
                          && Backs(digests, EligibleOf(task, o, o.bindings), b, Built(digests, task, o).options[j]) ::
                               i == j
  {
    var eligible, entries, options := EligibleOf(task, o, o.bindings), PublishedOf(digests, task, o),
        Built(digests, task, o).options;
    OptionCount(digests, task, o);
    EntriesMean(digests, task, o);
    forall i | 0 <= i < |options|
      ensures b in entries[i].bindings <==> Backs(digests, eligible, b, options[i])
    {
      OptionsAlign(digests, o.id, entries, i);
      BackersAre(digests, o, eligible, entries[i], b);
    }
    if b in eligible && Survives(digests, eligible, b) {
      var i := SurvivorsArePublished(digests, task, o, b);
      assert b in entries[i].bindings;
    }
  }
}
