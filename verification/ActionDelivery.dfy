/** Ranking the built action space for delivery, and the way of a route from its bindings to a page and back. */
module ActionDelivery {
  import opened Wrappers
  import opened Json
  import opened Lexicographic
  import opened Sequences
  import opened ActionSpaceContracts
  import opened ActionSpaces
  import opened ActionSpaceTheorems
  import opened ActionSpaceMeaning
  import opened Admission
  import opened RouteSelector
  import opened Paging
  import opened PagingTheorems
  import opened ActionRecall

  /** How an objective classifies an option: the position of its relevance role, and its score. */
  datatype Relevance = Relevance(role: nat, score: real)

  datatype Ranked = Ranked(index: nat, option: ActionOption, relevance: Relevance)

  /** What besides the options decides the order of delivery. */
  datatype Request = Request(
    allowed: Option<set<string>>,
    query: string,
    classify: Option<ActionOption -> Relevance>)

  predicate Allowed(r: Request, option: ActionOption) {
    r.allowed.None? || option.id in r.allowed.value
  }

  function Classified(r: Request, options: seq<ActionOption>): seq<Ranked> {
    seq(|options|, i requires 0 <= i < |options| =>
      Ranked(i, options[i], if r.classify.Some? then r.classify.value(options[i]) else Relevance(0, 0.0)))
  }

  function AllowedItems(r: Request, options: seq<ActionOption>): seq<Ranked> {
    Filter((x: Ranked) => Allowed(r, x.option), Classified(r, options))
  }

  /** Order by (role, -score, index). */
  predicate RankLess(a: Ranked, b: Ranked) {
    if a.relevance.role != b.relevance.role then a.relevance.role < b.relevance.role
    else if a.relevance.score != b.relevance.score then a.relevance.score > b.relevance.score
    else a.index < b.index
  }

  function OptionRanked(x: Ranked): ActionOption {
    x.option
  }

  /**
   The query is normalised and then partitioned by, which normalises it again; unique action ids make the lookup
   of the prioritised ids return the prioritised options.
   */
  function RankedOptions(t: Texts, scene: Scene, r: Request, options: seq<ActionOption>): Result<seq<ActionOption>> {
    var items := AllowedItems(r, options);
    var query := t.normalize(r.query);
    if |r.query| > PUBLIC_ACTION_LABEL_MAX_CHARS then Raised
    else if query != [] then
      var p := PartitionOf(t, scene, Map(OptionRanked, items), query);
      if p.Ok? then Ok(p.value.prioritized) else Raised
    else Ok(Map(OptionRanked, if r.classify.Some? then Sorted(RankLess, items) else items))
  }

  // ---- what may be delivered ----

  lemma SubsetIsDeliverable(a: seq<ActionOption>, b: seq<ActionOption>)
    requires Deliverable(b) && multiset(a) <= multiset(b)
    ensures Deliverable(a)
  {
    forall i | 0 <= i < |a| ensures CleanDestinations(a[i]) {
      assert a[i] in multiset(a);
      assert a[i] in multiset(b);
      var k :| 0 <= k < |b| && b[k] == a[i];
    }
    forall i, j | 0 <= i < j < |a| ensures a[i].id != a[j].id {
      assert a[i] in multiset(a) && a[j] in multiset(a);
      var k :| 0 <= k < |b| && b[k] == a[i];
      var m :| 0 <= m < |b| && b[m] == a[j];
      if a[i] == a[j] {
        TwiceIn(a, i, j);
        OnceIn(b, k);
      }
    }
  }

  lemma TwiceIn<A>(s: seq<A>, i: nat, j: nat)
    requires i < j < |s| && s[i] == s[j]
    ensures multiset(s)[s[i]] >= 2
  {
    assert s == s[..j] + s[j..];
    assert s[..j][i] in multiset(s[..j]) && s[j..][0] in multiset(s[j..]);
  }

  lemma OnceIn(s: seq<ActionOption>, k: nat)
    requires k < |s| && forall i, j | 0 <= i < j < |s| :: s[i].id != s[j].id
    ensures multiset(s)[s[k]] == 1
  {
    MultisetWithout(s, k);
    var rest := s[..k] + s[k + 1..];
    forall i | 0 <= i < |rest| ensures rest[i] != s[k] {
      assert rest[i] == if i < k then s[i] else s[i + 1];
    }
    assert s[k] !in multiset(rest);
  }

  lemma AllowedAreOptions(r: Request, options: seq<ActionOption>)
    ensures Map(OptionRanked, AllowedItems(r, options)) == Filter((x: ActionOption) => Allowed(r, x), options)
  {
    FilterMaps((x: Ranked) => Allowed(r, x.option), (x: ActionOption) => Allowed(r, x), Classified(r, options));
    assert Map(OptionRanked, Classified(r, options)) == options;
  }

  lemma {:induction false} FilterMaps(p: Ranked -> bool, q: ActionOption -> bool, items: seq<Ranked>)
    requires forall x: Ranked :: p(x) == q(x.option)
    ensures Map(OptionRanked, Filter(p, items)) == Filter(q, Map(OptionRanked, items))
  {
    if items == [] {
    } else {
      var front, last := items[..|items| - 1], items[|items| - 1];
      FilterMaps(p, q, front);
      assert items == front + [last];
      assert Map(OptionRanked, items)[..|items| - 1] == Map(OptionRanked, front);
      MapConcat(OptionRanked, Filter(p, front), if p(last) then [last] else []);
    }
  }

  lemma FilterIsPart<A(!new)>(p: A -> bool, s: seq<A>)
    ensures multiset(Filter(p, s)) <= multiset(s)
  {
    forall x ensures multiset(Filter(p, s))[x] <= multiset(s)[x] {
      FilterCounts(p, s, x);
    }
  }

  /** Without a query the ranking is a permutation of the allowed options; with one it is part of them. */
  lemma RankingIsOfAllowed(t: Texts, scene: Scene, r: Request, options: seq<ActionOption>)
    requires RankedOptions(t, scene, r, options).Ok?
    ensures var ranked := RankedOptions(t, scene, r, options).value;
            var allowed := Filter((x: ActionOption) => Allowed(r, x), options);
            && multiset(ranked) <= multiset(allowed) <= multiset(options)
            && (t.normalize(r.query) == [] ==> multiset(ranked) == multiset(allowed))
  {
    var items := AllowedItems(r, options);
    AllowedAreOptions(r, options);
    FilterIsPart((x: ActionOption) => Allowed(r, x), options);
    var query := t.normalize(r.query);
    if query != [] {
      if t.normalize(query) != [] {
        PartitionIsExact(t, scene, Map(OptionRanked, items), query);
      }
    } else if r.classify.Some? {
      SortedPermutes(RankLess, items);
      MapPermutes(OptionRanked, Sorted(RankLess, items), items);
    }
  }

  /** An objective delivers the allowed options by role, then by falling score, then in the order of the space. */
  lemma RankingIsOrdered(t: Texts, scene: Scene, r: Request, options: seq<ActionOption>) returns (items: seq<Ranked>)
    requires RankedOptions(t, scene, r, options).Ok? && t.normalize(r.query) == [] && r.classify.Some?
    ensures RankedOptions(t, scene, r, options) == Ok(Map(OptionRanked, items))
    ensures multiset(items) == multiset(AllowedItems(r, options)) && Ordered(RankLess, items)
  {
    items := Sorted(RankLess, AllowedItems(r, options));
    assert StrictWeakOrder(RankLess);
    SortedOrders(RankLess, AllowedItems(r, options));
    SortedPermutes(RankLess, AllowedItems(r, options));
  }

  // ---- the ranking in plain terms ----

  predicate MayBeDelivered(r: Request, option: ActionOption) {
    match r.allowed
    case None => true
    case Some(ids) => option.id in ids
  }

  /** The option at `i` of the space comes before the one at `j`: by role, then by higher score, then by position. */
  ghost predicate Outranks(classify: ActionOption -> Relevance, options: seq<ActionOption>, i: nat, j: nat)
    requires i < |options| && j < |options|
  {
    var a, b := classify(options[i]), classify(options[j]);
    a.role < b.role || (a.role == b.role && (a.score > b.score || (a.score == b.score && i < j)))
  }

  /** The positions of the ranked options: all those that may be delivered. */
  ghost predicate Delivers(r: Request, options: seq<ActionOption>, ranked: seq<ActionOption>, order: seq<nat>) {
    && |order| == |ranked|
    && (forall k | 0 <= k < |order| :: order[k] < |options| && ranked[k] == options[order[k]])
    && forall n: nat :: n in order <==> n < |options| && MayBeDelivered(r, options[n])
  }

  function IndexRanked(x: Ranked): nat {
    x.index
  }

  /** An item is the one made of its position. */
  ghost predicate OwnRank(r: Request, options: seq<ActionOption>, x: Ranked) {
    && x.index < |options| && x.option == options[x.index] && MayBeDelivered(r, x.option)
    && (r.classify.Some? ==> x.relevance == r.classify.value(x.option))
  }

  lemma AllowedAreOwn(r: Request, options: seq<ActionOption>)
    ensures forall x | x in AllowedItems(r, options) :: OwnRank(r, options, x)
    ensures forall n: nat | n < |options| && MayBeDelivered(r, options[n]) ::
              exists x :: x in AllowedItems(r, options) && x.index == n
    ensures forall i, j | 0 <= i < j < |AllowedItems(r, options)| ::
              AllowedItems(r, options)[i].index < AllowedItems(r, options)[j].index
  {
    var all := Classified(r, options);
    FilterIs((x: Ranked) => Allowed(r, x.option), all);
    forall n: nat | n < |options| && MayBeDelivered(r, options[n])
      ensures exists x :: x in AllowedItems(r, options) && x.index == n
    {
      assert all[n] in all && all[n] in AllowedItems(r, options);
    }
    FilteredRises((x: Ranked) => Allowed(r, x.option), all);
  }

  lemma {:induction false} FilteredRises(p: Ranked -> bool, items: seq<Ranked>)
    requires forall i, j | 0 <= i < j < |items| :: items[i].index < items[j].index
    ensures forall i, j | 0 <= i < j < |Filter(p, items)| :: Filter(p, items)[i].index < Filter(p, items)[j].index
  {
    if items == [] {
    } else {
      var front := items[..|items| - 1];
      FilteredRises(p, front);
      FilterIs(p, front);
      forall i | 0 <= i < |Filter(p, front)| ensures Filter(p, front)[i].index < items[|items| - 1].index {
        assert Filter(p, front)[i] in front;
      }
    }
  }

  lemma ItemsDeliver(r: Request, options: seq<ActionOption>, items: seq<Ranked>)
    requires multiset(items) == multiset(AllowedItems(r, options))
    ensures Delivers(r, options, Map(OptionRanked, items), Map(IndexRanked, items))
    ensures forall k | 0 <= k < |items| :: OwnRank(r, options, items[k])
  {
    AllowedAreOwn(r, options);
    SameMembers(items, AllowedItems(r, options));
    forall k | 0 <= k < |items| ensures OwnRank(r, options, items[k]) {
      assert items[k] in items;
    }
    forall n: nat ensures n in Map(IndexRanked, items) <==> n < |options| && MayBeDelivered(r, options[n]) {
      if n < |options| && MayBeDelivered(r, options[n]) {
        var x :| x in AllowedItems(r, options) && x.index == n;
        var k :| 0 <= k < |items| && items[k] == x;
        assert Map(IndexRanked, items)[k] == n;
      }
    }
  }

  /** Without a query: the deliverable options, in the order of the objective or, without one, of the space. */
  lemma RankingIs(t: Texts, scene: Scene, r: Request, options: seq<ActionOption>) returns (order: seq<nat>)
    requires |r.query| <= 240 && t.normalize(r.query) == []
    ensures RankedOptions(t, scene, r, options).Ok?
    ensures Delivers(r, options, RankedOptions(t, scene, r, options).value, order)
    ensures forall i, j | 0 <= i < j < |order| ::
              if r.classify.Some? then Outranks(r.classify.value, options, order[i], order[j]) else order[i] < order[j]
  {
    var all := AllowedItems(r, options);
    AllowedAreOwn(r, options);
    if r.classify.Some? {
      var items := RankingIsOrdered(t, scene, r, options);
      ItemsDeliver(r, options, items);
      order := Map(IndexRanked, items);
      DistinctIndexes(all, items);
      forall i, j | 0 <= i < j < |items| ensures Outranks(r.classify.value, options, order[i], order[j]) {
        assert OwnRank(r, options, items[i]) && OwnRank(r, options, items[j]);
        assert order[i] != order[j];
      }
    } else {
      ItemsDeliver(r, options, all);
      order := Map(IndexRanked, all);
    }
  }

  lemma DistinctIndexes(all: seq<Ranked>, items: seq<Ranked>)
    requires multiset(items) == multiset(all)
    requires forall i, j | 0 <= i < j < |all| :: all[i].index < all[j].index
    ensures Distinct(Map(IndexRanked, items))
  {
    MapPermutes(IndexRanked, items, all);
    SameMembers(Map(IndexRanked, items), Map(IndexRanked, all));
    SizesTellRepetition(Map(IndexRanked, items));
    SizesTellRepetition(Map(IndexRanked, all));
    assert Members(Map(IndexRanked, items)) == Members(Map(IndexRanked, all));
    assert |multiset(items)| == |items| && |multiset(all)| == |all|;
  }

  /** With a query: what the query recalls of the deliverable options, and an error for an overlong one. */
  lemma QueryRanks(t: Texts, scene: Scene, r: Request, options: seq<ActionOption>)
    requires t.normalize(r.query) != []
    ensures var deliverable := Filter((x: ActionOption) => MayBeDelivered(r, x), options);
            var p := PartitionOf(t, scene, deliverable, t.normalize(r.query));
            RankedOptions(t, scene, r, options) ==
              if |r.query| > 240 || p.Raised? then Raised else Ok(p.value.prioritized)
  {
    AllowedAreOptions(r, options);
    FiltersAgree((x: ActionOption) => Allowed(r, x), (x: ActionOption) => MayBeDelivered(r, x), options);
  }

  /** What the builder produces can be paged, and so can every ranking of it. */
  lemma BuiltIsDeliverable(privacy: Privacy, digests: Digests, task: Task, o: Observation)
    requires Injective(digests) && AllConstructed(privacy, o.bindings)
    ensures Deliverable(Built(digests, task, o).options)
  {
    var options := Built(digests, task, o).options;
    forall i | 0 <= i < |options| ensures CleanDestinations(options[i]) {
      OptionDestinationsAreCanonical(privacy, digests, task, o, i);
      SortedIsDistinct(options[i].destinations);
    }
    forall i, j | 0 <= i < j < |options| ensures options[i].id != options[j].id {
      if options[i].id == options[j].id {
        ActionIdsAreUnique(digests, task, o, i, j);
      }
    }
  }

  lemma SortedIsDistinct(s: seq<string>)
    requires StrictlySorted(StringLess, s)
    ensures Distinct(s)
  {
    StringsAreOrdered();
  }

  // ---- from a route to a page and back to a binding ----

  lemma {:induction false} VisibleSomewhere(pages: seq<Page>, id: string, d: string) returns (n: nat)
    requires d in AllVisible(pages, id)
    ensures n < |pages| && d in VisibleDestinations(pages[n], id)
  {
    if d in VisibleDestinations(pages[0], id) {
      n := 0;
    } else {
      n := VisibleSomewhere(pages[1..], id, d);
      n := n + 1;
    }
  }

  lemma {:induction false} ShownSomewhere(pages: seq<Page>, id: string) returns (n: nat)
    requires PagesWith(pages, id) > 0
    ensures n < |pages| && id in pages[n].ids
  {
    if id in pages[0].ids {
      n := 0;
    } else {
      n := ShownSomewhere(pages[1..], id);
      n := n + 1;
    }
  }

  lemma VisibleIsShown(p: Page, id: string, d: string)
    requires ValidPage(p) && d in VisibleDestinations(p, id)
    ensures id in p.ids
  {
    var i := ListedIndex(p.destinations, id);
    assert p.ids[i] == Map((l: Listed) => l.id, p.destinations)[i] == id;
  }

  /** Some page of the walk lets the route be selected. */
  ghost predicate SelectableSomewhere(pages: seq<Page>, id: string, d: string) {
    exists n :: 0 <= n < |pages| && Selectable(pages[n], id, d)
  }

  lemma RankedRouteIsShown(codec: Codec, ranked: seq<ActionOption>, limit: nat, fingerprint: string, k: nat, d: string)
    requires Deliverable(ranked) && Inverts(codec) && limit > 0 && k < |ranked|
    requires if d == "" then !ranked[k].terms.required else d in ranked[k].destinations
    ensures PageOf(codec, ranked, limit, fingerprint, "").Ok?
    ensures SelectableSomewhere(Walk(codec, ranked, limit, fingerprint, ""), ranked[k].id, d)
  {
    CursorWalk(codec, ranked, limit, fingerprint);
    var pages := Walk(codec, ranked, limit, fingerprint, "");
    if d == "" {
      var n := ShownSomewhere(pages, ranked[k].id);
      assert Selectable(pages[n], ranked[k].id, d);
    } else {
      var n := VisibleSomewhere(pages, ranked[k].id, d);
      VisibleIsShown(pages[n], ranked[k].id, d);
      assert Selectable(pages[n], ranked[k].id, d);
    }
  }

  /**
   The whole way: a route that some eligible binding carries and all of them agree on belongs to exactly one option of
   the built space; following the cursors of an unfiltered delivery reaches a page that lets it be selected; it is
   admitted with exactly the parameters that raise no issue; and then selecting it finds an eligible binding that
   carries the route on the admitted terms.
   */
  lemma AgreedRouteIsReachable(privacy: Privacy, digests: Digests, task: Task, o: Observation, s: Selector, d: string,
                               t: Texts, scene: Scene, r: Request, codec: Codec, limit: nat, fingerprint: string)
    returns (i: nat, ranked: seq<ActionOption>)
    requires Injective(digests) && AllConstructed(privacy, o.bindings) && IdsAreUnique(o.bindings)
    requires Carried(EligibleOf(task, o, o.bindings), s, d) && Agreed(digests, EligibleOf(task, o, o.bindings), s, d)
    requires r.allowed.None? && r.query == "" && t.normalize("") == "" && Inverts(codec) && limit > 0
    ensures i < |Built(digests, task, o).options| && Offers(Built(digests, task, o).options[i], s, d)
    ensures RankedOptions(t, scene, r, Built(digests, task, o).options) == Ok(ranked)
    ensures Deliverable(ranked) && PageOf(codec, ranked, limit, fingerprint, "").Ok?
    ensures SelectableSomewhere(Walk(codec, ranked, limit, fingerprint, ""), Built(digests, task, o).options[i].id, d)
    ensures var option := Built(digests, task, o).options[i];
            forall parameters :: TryAdmit(privacy, option, parameters, d).Admitted?
              <==> !ParameterIssue(privacy, option, parameters)
    ensures forall parameters ::
              AdmittedIsRouted(privacy, digests, o, Built(digests, task, o).options[i], parameters, s, d)
  {
    var options := Built(digests, task, o).options;
    RouteOffered(privacy, digests, task, o, s, d);
    ConstructedAreRegistered(privacy, task, o);
    i :| 0 <= i < |options| && Offers(options[i], s, d);
    OfferedNeeds(privacy, digests, task, o, i, s, d);
    BuiltIsDeliverable(privacy, digests, task, o);
    ranked := EveryRouteIsShown(options, i, d, t, scene, r, codec, limit, fingerprint);
    forall parameters ensures AdmittedIsRouted(privacy, digests, o, options[i], parameters, s, d) {
      if TryAdmit(privacy, options[i], parameters, d).Admitted? {
        AdmissionImpliesRoute(privacy, digests, task, o, i, parameters, d, {});
      }
    }
  }

  /** Once admitted for the route, parameters select a binding that carries it on the option's terms. */
  ghost predicate AdmittedIsRouted(privacy: Privacy, digests: Digests, o: Observation, option: ActionOption,
                                   parameters: seq<Field>, s: Selector, d: string)
  {
    var outcome := TryAdmit(privacy, option, parameters, d);
    outcome.Admitted? ==>
      var route := Select(digests, outcome.selection, o, {});
      route.Selected? && Carries(route.binding, s, d) && route.binding.terms == option.terms
  }

  lemma UnfilteredRanking(options: seq<ActionOption>, t: Texts, scene: Scene, r: Request)
    returns (ranked: seq<ActionOption>)
    requires Deliverable(options) && r.allowed.None? && r.query == "" && t.normalize("") == ""
    ensures RankedOptions(t, scene, r, options) == Ok(ranked)
    ensures Deliverable(ranked) && multiset(ranked) == multiset(options)
  {
    ranked := RankedOptions(t, scene, r, options).value;
    RankingIsOfAllowed(t, scene, r, options);
    AllAllowed(r, options);
    SubsetIsDeliverable(ranked, options);
  }

  /** An unfiltered delivery of deliverable options shows every route of each. */
  lemma EveryRouteIsShown(options: seq<ActionOption>, i: nat, d: string, t: Texts, scene: Scene, r: Request,
                          codec: Codec, limit: nat, fingerprint: string)
    returns (ranked: seq<ActionOption>)
    requires Deliverable(options) && i < |options|
    requires if d == "" then !options[i].terms.required else d in options[i].destinations
    requires r.allowed.None? && r.query == "" && t.normalize("") == "" && Inverts(codec) && limit > 0
    ensures RankedOptions(t, scene, r, options) == Ok(ranked)
    ensures Deliverable(ranked) && PageOf(codec, ranked, limit, fingerprint, "").Ok?
    ensures SelectableSomewhere(Walk(codec, ranked, limit, fingerprint, ""), options[i].id, d)
  {
    ranked := UnfilteredRanking(options, t, scene, r);
    assert options[i] in multiset(options);
    var k :| 0 <= k < |ranked| && ranked[k] == options[i];
    RankedRouteIsShown(codec, ranked, limit, fingerprint, k, d);
  }

  lemma AllAllowed(r: Request, options: seq<ActionOption>)
    requires r.allowed.None?
    ensures Filter((x: ActionOption) => Allowed(r, x), options) == options
  {
    FilterAll((x: ActionOption) => Allowed(r, x), options);
  }

  lemma {:induction false} FilterAll<A(!new)>(p: A -> bool, s: seq<A>)
    requires forall x :: p(x)
    ensures Filter(p, s) == s
  {
    if s == [] {
    } else {
      FilterAll(p, s[..|s| - 1]);
      assert s == s[..|s| - 1] + [s[|s| - 1]];
    }
  }

  /** An offered route is asked for in the form its option takes: a destination exactly when one is required. */
  lemma OfferedNeeds(privacy: Privacy, digests: Digests, task: Task, o: Observation, i: nat, s: Selector, d: string)
    requires AllConstructed(privacy, o.bindings)
    requires i < |Built(digests, task, o).options| && Offers(Built(digests, task, o).options[i], s, d)
    ensures if d == "" then !Built(digests, task, o).options[i].terms.required
            else d in Built(digests, task, o).options[i].destinations
    ensures !DestinationRaises(privacy, Built(digests, task, o).options[i], d)
  {
    ConstructedAreRegistered(privacy, task, o);
    OptionDestinationsAreCanonical(privacy, digests, task, o, i);
    RequiredWithDestinations(digests, task, o, i);
    OfferedIsAccepted(privacy, Built(digests, task, o).options[i], s, d);
  }

  lemma RequiredWithDestinations(digests: Digests, task: Task, o: Observation, i: nat)
    requires AllRegistered(EligibleOf(task, o, o.bindings)) && i < |Built(digests, task, o).options|
    ensures var option := Built(digests, task, o).options[i]; option.terms.required <==> option.destinations != []
  {
    var eligible, option := EligibleOf(task, o, o.bindings), Built(digests, task, o).options[i];
    OptionsMean(digests, task, o, i);
    if option.destinations == [] {
      var b :| Backs(digests, eligible, b, option);
      PlainBacker(digests, o, eligible, option, b);
    } else {
      var b := OfferedDestination(digests, task, o, i, option.destinations[0]);
    }
  }

  lemma OfferedIsAccepted(privacy: Privacy, option: ActionOption, s: Selector, d: string)
    requires Canonical(privacy, option.destinations) && Offers(option, s, d)
    requires option.terms.required <==> option.destinations != []
    ensures if d == "" then !option.terms.required else d in option.destinations
    ensures !DestinationRaises(privacy, option, d)
  {
  }
}
