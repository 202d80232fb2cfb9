/** The semantic targets the parts of a group become. */
module GeometryTargets {
  import opened Lexicographic
  import opened Grouping
  import opened Sequences
  import opened GeometryPartition

  /** The affordance an item comes from, or the item itself where none is named. */
  ghost predicate IsIdentityOf(name: string, c: Candidate) {
    (c.affordance == "" && name == c.id) || (c.affordance != "" && name == c.affordance)
  }

  /** Every identity of the part, and no other, in order of text. */
  ghost predicate NamesPart(names: seq<string>, part: Part) {
    && |names| == |part|
    && (forall i, j | 0 <= i < j < |names| :: !Before(names[j], names[i]))
    && (forall n | n in names :: exists d :: d in part && IsIdentityOf(n, d.candidate))
    && (forall d | d in part :: exists n :: n in names && IsIdentityOf(n, d.candidate))
  }

  /** A target has the candidates of its part, each pointed at it, in order of their ids. */
  ghost predicate ComesFrom(u: Unified, part: Part) {
    && |u.candidates| == |part|
    && (forall i, j | 0 <= i < j < |u.candidates| :: !Before(u.candidates[j].id, u.candidates[i].id))
    && (forall c | c in u.candidates :: exists d :: d in part && c == d.candidate.(target := u.target))
    && (forall d | d in part :: d.candidate.(target := u.target) in u.candidates)
  }

  lemma IdentitiesNamePart(part: Part)
    ensures NamesPart(Identities(part), part)
  {
    var names := Map((d: Descriptor) => Identity(d.candidate), part);
    StringsAreOrdered();
    SortedIs(StringLess, names);
    forall i, j | 0 <= i < j < |names| ensures !Before(Identities(part)[j], Identities(part)[i]) {
      StringLessIsBefore(Identities(part)[j], Identities(part)[i]);
    }
    forall n | n in Identities(part) ensures exists d :: d in part && IsIdentityOf(n, d.candidate) {
      var k :| 0 <= k < |names| && names[k] == n;
      assert IsIdentityOf(n, part[k].candidate);
    }
    forall d | d in part ensures exists n :: n in Identities(part) && IsIdentityOf(n, d.candidate) {
      var k :| 0 <= k < |part| && part[k] == d;
      assert names[k] in Identities(part);
    }
  }

  /** Sorting keeps what there is, and puts nothing before anything smaller. */
  lemma SortedIs<T(!new)>(less: (T, T) -> bool, s: seq<T>)
    requires StrictWeakOrder(less)
    ensures |Sorted(less, s)| == |s| && Ordered(less, Sorted(less, s))
    ensures forall x :: x in Sorted(less, s) <==> x in s
  {
    SortedPermutes(less, s);
    SortedOrders(less, s);
    assert |multiset(s)| == |s| && |multiset(Sorted(less, s))| == |Sorted(less, s)|;
    forall x ensures x in Sorted(less, s) <==> x in s {
      assert x in multiset(s) <==> x in s;
      assert x in multiset(Sorted(less, s)) <==> x in Sorted(less, s);
    }
  }

  lemma PartResolves(naming: Naming, key: Key, alone: bool, part: Part)
    ensures ComesFrom(ResolvePart(naming, key, alone, part), part)
  {
    var target := ResolvePart(naming, key, alone, part).target;
    var aimed := Map((d: Descriptor) => d.candidate.(target := target), part);
    StringsAreOrdered();
    SortedIs(IdLess, aimed);
    var sorted := SortedCandidates(part, target);
    forall i, j | 0 <= i < j < |sorted| ensures !Before(sorted[j].id, sorted[i].id) {
      StringLessIsBefore(sorted[j].id, sorted[i].id);
    }
    forall c | c in sorted ensures exists d :: d in part && c == d.candidate.(target := target) {
      var k :| 0 <= k < |aimed| && aimed[k] == c;
      assert part[k] in part;
    }
    forall d | d in part ensures d.candidate.(target := target) in sorted {
      var k :| 0 <= k < |part| && part[k] == d;
      assert aimed[k] in sorted;
    }
  }

  /** The target of one part: named after the group where it is the only part, and otherwise after what it holds. */
  ghost predicate TargetOf(naming: Naming, key: Key, alone: bool, part: Part, u: Unified) {
    && ComesFrom(u, part)
    && if alone then u.target == naming.ofGroup(key)
       else exists names :: NamesPart(names, part) && u.target == naming.ofPart(key, names)
  }

  lemma PartIsTarget(naming: Naming, key: Key, alone: bool, part: Part)
    ensures TargetOf(naming, key, alone, part, ResolvePart(naming, key, alone, part))
  {
    PartResolves(naming, key, alone, part);
    IdentitiesNamePart(part);
  }

  ghost predicate TargetsOf(naming: Naming, key: Key, alone: bool, parts: seq<Part>, us: seq<Unified>) {
    |us| == |parts| && forall i | 0 <= i < |parts| :: TargetOf(naming, key, alone, parts[i], us[i])
  }

  lemma MoreTargets(naming: Naming, key: Key, alone: bool, parts: seq<Part>, us: seq<Unified>, part: Part, u: Unified)
    requires TargetsOf(naming, key, alone, parts, us) && TargetOf(naming, key, alone, part, u)
    ensures TargetsOf(naming, key, alone, parts + [part], us + [u])
  {
    forall i | 0 <= i < |parts| + 1 ensures TargetOf(naming, key, alone, (parts + [part])[i], (us + [u])[i]) {
    }
  }

  lemma OnePartMore(naming: Naming, key: Key, alone: bool, front: seq<Part>, part: Part)
    requires TargetsOf(naming, key, alone, front, ResolveParts(naming, key, alone, front))
    ensures TargetsOf(naming, key, alone, front + [part], ResolveParts(naming, key, alone, front + [part]))
  {
    assert (front + [part])[..|front|] == front;
    PartIsTarget(naming, key, alone, part);
    MoreTargets(naming, key, alone, front, ResolveParts(naming, key, alone, front), part,
                ResolvePart(naming, key, alone, part));
  }

  /** Every part becomes one target, in order. */
  lemma {:induction false} PartsResolve(naming: Naming, key: Key, alone: bool, parts: seq<Part>)
    ensures TargetsOf(naming, key, alone, parts, ResolveParts(naming, key, alone, parts))
  {
    if parts == [] {
    } else {
      var front, part := parts[..|parts| - 1], parts[|parts| - 1];
      PartsResolve(naming, key, alone, front);
      OnePartMore(naming, key, alone, front, part);
      assert parts == front + [part];
    }
  }

  /** The target is that of one part of the group. */
  ghost predicate FromGroup(naming: Naming, g: Bucket<Key, Descriptor>, u: Unified) {
    exists part :: part in Partitions(g.items) && TargetOf(naming, g.key, |Partitions(g.items)| == 1, part, u)
  }

  /** Resolving gives every part of every group one target, and nothing else. */
  lemma {:induction false} GroupsResolve(naming: Naming, groups: seq<Bucket<Key, Descriptor>>)
    ensures forall u | u in ResolveGroups(naming, groups) :: exists g :: g in groups && FromGroup(naming, g, u)
    ensures |ResolveGroups(naming, groups)| == CountParts(groups)
  {
    if groups == [] {
    } else {
      var front, g := groups[..|groups| - 1], groups[|groups| - 1];
      GroupsResolve(naming, front);
      var parts := Partitions(g.items);
      var us := ResolveParts(naming, g.key, |parts| == 1, parts);
      PartsResolve(naming, g.key, |parts| == 1, parts);
      forall u | u in us ensures FromGroup(naming, g, u) {
        var i :| 0 <= i < |us| && us[i] == u;
        assert parts[i] in parts && TargetOf(naming, g.key, |parts| == 1, parts[i], us[i]);
      }
    }
  }

  function CountParts(groups: seq<Bucket<Key, Descriptor>>): nat {
    if groups == [] then 0
    else CountParts(groups[..|groups| - 1]) + |Partitions(groups[|groups| - 1].items)|
  }
}
