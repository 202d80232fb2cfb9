/** Resolving an admitted selection to one private binding, and why an admitted selection always resolves. */
module RouteSelector {
  import opened Json
  import opened ExecutionContracts
  import opened Lexicographic
  import opened Sequences
  import opened ActionSpaceContracts
  import opened ActionSpaces
  import opened ActionSpaceTheorems
  import opened ActionSpaceMeaning
  import opened OfferedBindings
  import opened Admission

  datatype Route = Selected(binding: Binding) | NoCurrentRoute | RouteConflict

  /** `_equivalent_current`: resource, reversibility and verification family are not compared. */
  predicate EquivalentCurrent(digests: Digests, sel: Selection, o: Observation, b: Binding) {
    && b.id in sel.bindingIds
    && b.target == sel.target
    && b.action == sel.action
    && b.terms.category == sel.terms.category
    && b.terms.effects == sel.terms.effects
    && digests.ofText(digests.text(b.schema)) == sel.schemaDigest
    && RiskRank(b.risk) <= RiskRank(sel.risk)
    && b.terms.barrier == sel.terms.barrier
    && b.terms.required == sel.terms.required
    && (if sel.destination != "" then sel.destination in b.destinations else b.destinations == sel.destinations)
    && b.terms.verification == sel.terms.verification
    && StillCurrent(b, o)
  }

  /** `_binding_current`: the selector checks again what the builder has checked. */
  predicate StillCurrent(b: Binding, o: Observation) {
    if b.world != o.id || b.fingerprint == "" then false
    else if o.sources == [] then b.source == o.id
    else
      var k := FirstAt(Map((s: Source) => s.observation, o.sources), b.source);
      k < |o.sources| && b.surface == o.sources[k].surface && b.revision == o.sources[k].revision
  }

  function CandidateFor(digests: Digests, sel: Selection, o: Observation, excluded: set<string>): Binding -> bool {
    (b: Binding) => b.id !in excluded && EquivalentCurrent(digests, sel, o, b)
  }

  function Candidates(digests: Digests, sel: Selection, o: Observation, excluded: set<string>): seq<Binding> {
    Filter(CandidateFor(digests, sel, o, excluded), o.bindings)
  }

  function IdOf(b: Binding): string {
    b.id
  }

  /** Order by (-confidence, cost, binding id). */
  predicate Better(a: Binding, b: Binding) {
    if a.confidence != b.confidence then a.confidence > b.confidence
    else if a.cost != b.cost then a.cost < b.cost
    else StringLess(a.id, b.id)
  }

  /** `min`: the first of the best. */
  function Best(candidates: seq<Binding>): Binding
    requires candidates != []
  {
    var last := candidates[|candidates| - 1];
    if |candidates| == 1 then last
    else
      var rest := Best(candidates[..|candidates| - 1]);
      if Better(last, rest) then last else rest
  }

  function Select(digests: Digests, sel: Selection, o: Observation, excluded: set<string>): Route {
    var candidates := Candidates(digests, sel, o, excluded);
    var ids := Map(IdOf, candidates);
    if |ids| != |Members(ids)| then RouteConflict
    else if candidates == [] then NoCurrentRoute
    else Selected(Best(candidates))
  }

  /** The selector's check of currentness agrees with the builder's. */
  lemma StillCurrentIsFresh(b: Binding, o: Observation)
    ensures StillCurrent(b, o) <==> Fresh(b, o)
    ensures StillCurrent(b, o) <==> IsCurrent(b, o)
  {
    CurrentIsFresh(b, o);
    var ids := Map((s: Source) => s.observation, o.sources);
    var k := FirstAt(ids, b.source);
    if k < |o.sources| {
      assert forall j | 0 <= j < k :: ids[j] == o.sources[j].observation;
      assert FirstSource(o.sources, b.source, k);
    }
    if j :| FirstSource(o.sources, b.source, j) {
      assert ids[j] == b.source && j >= k;
      assert ids[k] == o.sources[k].observation;
    }
  }

  // ---- the choice ----

  lemma BetterIsAnOrder()
    ensures StrictWeakOrder(Better)
    ensures forall a: Binding, b: Binding :: a.id == b.id || Better(a, b) || Better(b, a)
  {
    StringsAreOrdered();
  }

  lemma {:induction false} BestIs(candidates: seq<Binding>)
    requires candidates != []
    ensures Best(candidates) in candidates
    ensures forall b | b in candidates :: !Better(b, Best(candidates))
  {
    BetterIsAnOrder();
    var front, last := candidates[..|candidates| - 1], candidates[|candidates| - 1];
    assert candidates == front + [last];
    if front == [] {
    } else {
      BestIs(front);
    }
  }

  lemma CandidatesAre(digests: Digests, sel: Selection, o: Observation, excluded: set<string>, b: Binding)
    ensures b in Candidates(digests, sel, o, excluded) <==>
              b in o.bindings && b.id !in excluded && EquivalentCurrent(digests, sel, o, b)
  {
    FilterIs(CandidateFor(digests, sel, o, excluded), o.bindings);
  }

  lemma SameIdSameCandidate(candidates: seq<Binding>, b: Binding, c: Binding)
    requires |Members(Map(IdOf, candidates))| == |candidates|
    requires b in candidates && c in candidates && b.id == c.id
    ensures b == c
  {
    SizesTellRepetition(Map(IdOf, candidates));
    var i :| 0 <= i < |candidates| && candidates[i] == b;
    var j :| 0 <= j < |candidates| && candidates[j] == c;
    assert Map(IdOf, candidates)[i] == Map(IdOf, candidates)[j];
  }

  /** What is selected is the one best candidate. */
  lemma SelectedIsBest(digests: Digests, sel: Selection, o: Observation, excluded: set<string>, b: Binding)
    ensures Select(digests, sel, o, excluded) == Selected(b) <==>
              && |Members(Map(IdOf, Candidates(digests, sel, o, excluded)))| == |Candidates(digests, sel, o, excluded)|
              && b in Candidates(digests, sel, o, excluded)
              && forall c | c in Candidates(digests, sel, o, excluded) && c != b :: Better(b, c)
  {
    var candidates := Candidates(digests, sel, o, excluded);
    BetterIsAnOrder();
    if candidates != [] && |Members(Map(IdOf, candidates))| == |candidates| {
      BestIs(candidates);
      forall c, e | c in candidates && e in candidates && c.id == e.id ensures c == e {
        SameIdSameCandidate(candidates, c, e);
      }
    }
  }

  // ---- the choice in plain terms ----

  /** Low is below medium, medium below high, high below irreversible. */
  predicate NoRiskier(a: Risk, b: Risk) {
    match b
    case IrreversibleRisk => true
    case HighRisk => a != IrreversibleRisk
    case MediumRisk => a == LowRisk || a == MediumRisk
    case LowRisk => a == LowRisk
  }

  /** The binding is as captured, is not excluded, and does what was admitted. */
  ghost predicate Suits(digests: Digests, sel: Selection, o: Observation, excluded: set<string>, b: Binding) {
    && b in o.bindings && Fresh(b, o)
    && b.id in sel.bindingIds && b.id !in excluded
    && b.target == sel.target && b.action == sel.action
    && b.terms == sel.terms.(family := b.terms.family, resource := b.terms.resource,
                             reversibility := b.terms.reversibility)
    && digests.ofText(digests.text(b.schema)) == sel.schemaDigest
    && NoRiskier(b.risk, sel.risk)
    && if sel.destination == "" then b.destinations == sel.destinations else sel.destination in b.destinations
  }

  /** More confident, or as confident and cheaper, or equal in both with the earlier id. */
  ghost predicate Preferred(a: Binding, b: Binding) {
    || a.confidence > b.confidence
    || (a.confidence == b.confidence && a.cost < b.cost)
    || (a.confidence == b.confidence && a.cost == b.cost && Before(a.id, b.id))
  }

  lemma CandidateSuits(digests: Digests, sel: Selection, o: Observation, excluded: set<string>, b: Binding)
    ensures b in Candidates(digests, sel, o, excluded) <==> Suits(digests, sel, o, excluded, b)
  {
    CandidatesAre(digests, sel, o, excluded, b);
    StillCurrentIsFresh(b, o);
  }

  lemma BetterIsPreferred(a: Binding, b: Binding)
    ensures Better(a, b) <==> Preferred(a, b)
  {
    StringLessIsBefore(a.id, b.id);
  }

  /** Whatever the ids: what is selected suits, and is preferred to everything else that suits. */
  lemma SelectedIsPreferred(digests: Digests, sel: Selection, o: Observation, excluded: set<string>)
    ensures var route := Select(digests, sel, o, excluded);
            && (route.NoCurrentRoute? <==> forall b :: !Suits(digests, sel, o, excluded, b))
            && (route.Selected? ==>
                  && Suits(digests, sel, o, excluded, route.binding)
                  && forall c | Suits(digests, sel, o, excluded, c) && c != route.binding ::
                       c.id != route.binding.id && Preferred(route.binding, c))
  {
    var candidates := Candidates(digests, sel, o, excluded);
    forall b ensures b in candidates <==> Suits(digests, sel, o, excluded, b) {
      CandidateSuits(digests, sel, o, excluded, b);
    }
    HasMember(candidates);
    if Select(digests, sel, o, excluded).Selected? {
      var b := Select(digests, sel, o, excluded).binding;
      SelectedIsBest(digests, sel, o, excluded, b);
      forall c | c in candidates && c != b ensures c.id != b.id && Preferred(b, c) {
        BetterIsPreferred(b, c);
        StringsAreOrdered();
        if c.id == b.id {
          SameIdSameCandidate(candidates, b, c);
        }
      }
    }
  }

  /** A conflict is reported exactly when two of the observation's bindings that suit share an id. */
  lemma ConflictIsSharedId(digests: Digests, sel: Selection, o: Observation, excluded: set<string>)
    ensures Select(digests, sel, o, excluded).RouteConflict? <==>
              !Distinct(Map(IdOf, Candidates(digests, sel, o, excluded)))
  {
    SizesTellRepetition(Map(IdOf, Candidates(digests, sel, o, excluded)));
  }

  /** The choice does not depend on the order of the observation's bindings. */
  lemma SelectIgnoresOrder(digests: Digests, sel: Selection, o: Observation, excluded: set<string>,
                           shuffled: seq<Binding>)
    requires multiset(shuffled) == multiset(o.bindings)
    ensures Select(digests, sel, o.(bindings := shuffled), excluded) == Select(digests, sel, o, excluded)
  {
    var p := o.(bindings := shuffled);
    var mine, other := Candidates(digests, sel, o, excluded), Candidates(digests, sel, p, excluded);
    PermutedCandidates(digests, sel, o, excluded, shuffled);
    MapPermutes(IdOf, mine, other);
    SameMembers(Map(IdOf, mine), Map(IdOf, other));
    assert |multiset(mine)| == |mine| && |multiset(other)| == |other|;
    if Select(digests, sel, o, excluded).Selected? {
      var b := Select(digests, sel, o, excluded).binding;
      SelectedIsBest(digests, sel, o, excluded, b);
      SameMembers(mine, other);
      SelectedIsBest(digests, sel, p, excluded, b);
    }
  }

  lemma SameMembers<A>(a: seq<A>, b: seq<A>)
    requires multiset(a) == multiset(b)
    ensures Members(a) == Members(b)
    ensures forall x :: x in a <==> x in b
  {
    assert forall x :: x in a <==> x in multiset(a);
    assert forall x :: x in b <==> x in multiset(b);
  }

  lemma {:induction false} FiltersAgree<A>(p: A -> bool, q: A -> bool, s: seq<A>)
    requires forall x :: p(x) == q(x)
    ensures Filter(p, s) == Filter(q, s)
  {
    if s == [] {
    } else {
      FiltersAgree(p, q, s[..|s| - 1]);
    }
  }

  lemma PermutedCandidates(digests: Digests, sel: Selection, o: Observation, excluded: set<string>,
                           shuffled: seq<Binding>)
    requires multiset(shuffled) == multiset(o.bindings)
    ensures multiset(Candidates(digests, sel, o, excluded))
         == multiset(Candidates(digests, sel, o.(bindings := shuffled), excluded))
  {
    var p, q := CandidateFor(digests, sel, o, excluded), CandidateFor(digests, sel, o.(bindings := shuffled), excluded);
    FilterPermutes(p, o.bindings, shuffled);
    FiltersAgree(p, q, shuffled);
  }

  // ---- an admitted selection has a route ----

  ghost predicate IdsAreUnique(bindings: seq<Binding>) {
    forall i, j | 0 <= i < j < |bindings| :: bindings[i].id != bindings[j].id
  }

  lemma {:induction false} FilterKeepsUnique(p: Binding -> bool, bindings: seq<Binding>)
    requires IdsAreUnique(bindings)
    ensures IdsAreUnique(Filter(p, bindings))
  {
    if bindings == [] {
    } else {
      var front := bindings[..|bindings| - 1];
      FilterKeepsUnique(p, front);
      FilterIs(p, front);
      forall i | 0 <= i < |Filter(p, front)| ensures Filter(p, front)[i].id != bindings[|bindings| - 1].id {
        assert Filter(p, front)[i] in front;
      }
    }
  }

  lemma NoConflict(digests: Digests, sel: Selection, o: Observation, excluded: set<string>)
    requires IdsAreUnique(o.bindings)
    ensures |Members(Map(IdOf, Candidates(digests, sel, o, excluded)))| == |Candidates(digests, sel, o, excluded)|
  {
    FilterKeepsUnique(CandidateFor(digests, sel, o, excluded), o.bindings);
    SizesTellRepetition(Map(IdOf, Candidates(digests, sel, o, excluded)));
  }

  /** The comparisons the bound request makes between its selection and its binding. */
  predicate Binds(digests: Digests, sel: Selection, b: Binding) {
    && sel.observation == b.world
    && b.id in sel.bindingIds
    && sel.action == b.action && sel.target == b.target
    && sel.terms.category == b.terms.category && sel.terms.effects == b.terms.effects
    && sel.schemaDigest == digests.ofText(digests.text(b.schema))
    && RiskRank(b.risk) <= RiskRank(sel.risk)
    && b.terms.barrier == sel.terms.barrier && b.terms.required == sel.terms.required
    && (if sel.destination != "" then sel.destination in b.destinations else b.destinations == sel.destinations)
    && b.terms.family == sel.terms.family && b.terms.verification == sel.terms.verification
    && b.terms.resource == sel.terms.resource && b.terms.reversibility == sel.terms.reversibility
    && (sel.destination != "" ==> sel.destination in sel.destinations)
    && (sel.terms.required ==> sel.destination != "")
  }

  /** The bound request is refused unless the binding agrees in every term, also those the selector never compares. */
  lemma BindsExactly(digests: Digests, sel: Selection, b: Binding)
    ensures Binds(digests, sel, b) <==>
              && b.terms == sel.terms && b.target == sel.target && b.action == sel.action
              && b.world == sel.observation && b.id in sel.bindingIds
              && digests.ofText(digests.text(b.schema)) == sel.schemaDigest && NoRiskier(b.risk, sel.risk)
              && if sel.destination == "" then !b.terms.required && b.destinations == sel.destinations
                 else sel.destination in b.destinations && sel.destination in sel.destinations
  {
  }

  /** Every candidate is behind the option the selection was admitted from. */
  lemma CandidateBacks(digests: Digests, task: Task, o: Observation, i: nat, sel: Selection, excluded: set<string>,
                       b: Binding)
    requires UniqueIds(o.bindings)
    requires i < |Built(digests, task, o).options|
    requires sel == SelectionOf(Built(digests, task, o).options[i], sel.parameters, sel.destination)
    requires b in Candidates(digests, sel, o, excluded)
    ensures Backs(digests, EligibleOf(task, o, o.bindings), b, Built(digests, task, o).options[i])
  {
    CandidatesAre(digests, sel, o, excluded, b);
    var c := BindingOf(digests, task, o, i, b.id);
    assert b == c;
  }

  /** What an option says of a binding behind it is what the selector compares. */
  lemma BackerIsEquivalent(digests: Digests, task: Task, o: Observation, i: nat, sel: Selection, b: Binding)
    requires i < |Built(digests, task, o).options|
    requires sel == SelectionOf(Built(digests, task, o).options[i], sel.parameters, sel.destination)
    requires Backs(digests, EligibleOf(task, o, o.bindings), b, Built(digests, task, o).options[i])
    ensures b in o.bindings
    ensures EquivalentCurrent(digests, sel, o, b) <==>
              if sel.destination != "" then sel.destination in b.destinations else b.destinations == sel.destinations
  {
    EligibleAre(task, o, o.bindings);
    StillCurrentIsFresh(b, o);
    OptionsMean(digests, task, o, i);
  }

  lemma BackerIsCandidate(digests: Digests, task: Task, o: Observation, i: nat, sel: Selection, excluded: set<string>,
                          b: Binding)
    requires i < |Built(digests, task, o).options|
    requires sel == SelectionOf(Built(digests, task, o).options[i], sel.parameters, sel.destination)
    requires Backs(digests, EligibleOf(task, o, o.bindings), b, Built(digests, task, o).options[i])
    ensures b in Candidates(digests, sel, o, excluded) <==>
              && b.id !in excluded
              && (if sel.destination != "" then sel.destination in b.destinations
                 else b.destinations == sel.destinations)
  {
    CandidatesAre(digests, sel, o, excluded, b);
    BackerIsEquivalent(digests, task, o, i, sel, b);
  }

  /** Under unique ids the candidates are the bindings behind the option that carry the chosen destination. */
  lemma CandidatesBack(digests: Digests, task: Task, o: Observation, i: nat, sel: Selection, excluded: set<string>,
                       b: Binding)
    requires UniqueIds(o.bindings)
    requires sel.destination != "" || AllRegistered(EligibleOf(task, o, o.bindings))
    requires i < |Built(digests, task, o).options|
    requires sel == SelectionOf(Built(digests, task, o).options[i], sel.parameters, sel.destination)
    requires sel.terms.required ==> sel.destination != ""
    ensures b in Candidates(digests, sel, o, excluded) <==>
              && b.id !in excluded
              && Backs(digests, EligibleOf(task, o, o.bindings), b, Built(digests, task, o).options[i])
              && Carries(b, Selector(sel.target, sel.action), sel.destination)
  {
    var eligible, option := EligibleOf(task, o, o.bindings), Built(digests, task, o).options[i];
    if b in Candidates(digests, sel, o, excluded) {
      CandidateBacks(digests, task, o, i, sel, excluded, b);
    }
    if Backs(digests, eligible, b, option) {
      BackerIsCandidate(digests, task, o, i, sel, excluded, b);
      if sel.destination == "" {
        OptionsMean(digests, task, o, i);
        PlainOption(digests, o, eligible, option);
        PlainBacker(digests, o, eligible, option, b);
      }
    }
  }

  lemma PlainOption(digests: Digests, o: Observation, eligible: seq<Binding>, option: ActionOption)
    requires AllRegistered(eligible) && OptionMeans(digests, o, eligible, option) && !option.terms.required
    ensures option.destinations == []
  {
    forall d ensures d !in option.destinations {
      forall b | Backs(digests, eligible, b, option) ensures !Open(digests, eligible, b, d) {
        assert RegisteredMode(b);
      }
    }
    HasMember(option.destinations);
  }

  /** An admitted selection always has a backing binding for its destination. */
  lemma SomeBacker(digests: Digests, task: Task, o: Observation, i: nat, destination: string) returns (b: Binding)
    requires destination != "" || AllRegistered(EligibleOf(task, o, o.bindings))
    requires i < |Built(digests, task, o).options|
    requires if destination == "" then !Built(digests, task, o).options[i].terms.required
             else destination in Built(digests, task, o).options[i].destinations
    ensures var option := Built(digests, task, o).options[i];
            Backs(digests, EligibleOf(task, o, o.bindings), b, option)
              && Carries(b, Selector(option.target, option.action), destination)
  {
    var eligible, option := EligibleOf(task, o, o.bindings), Built(digests, task, o).options[i];
    OptionsMean(digests, task, o, i);
    if destination == "" {
      PlainOption(digests, o, eligible, option);
      b :| Backs(digests, eligible, b, option);
      PlainBacker(digests, o, eligible, option, b);
    } else {
      b := OfferedDestination(digests, task, o, i, destination);
    }
  }

  /**
   Selecting for an admitted selection never reports a conflict. It finds a route exactly when some binding behind
   the option that carries the destination is not excluded, and with no exclusions there always is one. What it finds
   is such a binding; it agrees with the admitted terms on every field, also those the selector does not compare.
   */
  lemma AdmissionImpliesRoute(privacy: Privacy, digests: Digests, task: Task, o: Observation, i: nat,
                              parameters: seq<Field>, destination: string, excluded: set<string>)
    requires IdsAreUnique(o.bindings)
    requires destination != "" || AllRegistered(EligibleOf(task, o, o.bindings))
    requires i < |Built(digests, task, o).options|
    requires TryAdmit(privacy, Built(digests, task, o).options[i], parameters, destination).Admitted?
    ensures var option := Built(digests, task, o).options[i];
            var sel := TryAdmit(privacy, option, parameters, destination).selection;
            var route := Select(digests, sel, o, excluded);
            var s := Selector(option.target, option.action);
            && !route.RouteConflict?
            && (route.Selected? <==> exists b :: Backs(digests, EligibleOf(task, o, o.bindings), b, option)
                                                 && Carries(b, s, destination) && b.id !in excluded)
            && (excluded == {} ==> route.Selected?)
            && (route.Selected? ==>
                  && Backs(digests, EligibleOf(task, o, o.bindings), route.binding, option)
                  && Carries(route.binding, s, destination)
                  && route.binding.terms == sel.terms
                  && Binds(digests, sel, route.binding))
  {
    var option := Built(digests, task, o).options[i];
    var sel := TryAdmit(privacy, option, parameters, destination).selection;
    var candidates := Candidates(digests, sel, o, excluded);
    NoConflict(digests, sel, o, excluded);
    forall b
      ensures b in candidates <==>
                && b.id !in excluded
                && Backs(digests, EligibleOf(task, o, o.bindings), b, option)
                && Carries(b, Selector(sel.target, sel.action), sel.destination)
    {
      CandidatesBack(digests, task, o, i, sel, excluded, b);
    }
    var backer := SomeBacker(digests, task, o, i, destination);
    assert excluded == {} ==> backer in candidates;
    if candidates != [] {
      BestIs(candidates);
      assert candidates[0] in candidates;
      CandidateBinds(digests, task, o, i, sel, excluded, Best(candidates));
    }
  }

  lemma CandidateBinds(digests: Digests, task: Task, o: Observation, i: nat, sel: Selection, excluded: set<string>,
                       b: Binding)
    requires i < |Built(digests, task, o).options|
    requires sel == SelectionOf(Built(digests, task, o).options[i], sel.parameters, sel.destination)
    requires if sel.destination == "" then !sel.terms.required else sel.destination in sel.destinations
    requires b in Candidates(digests, sel, o, excluded)
    requires Backs(digests, EligibleOf(task, o, o.bindings), b, Built(digests, task, o).options[i])
    ensures b.terms == sel.terms && Binds(digests, sel, b)
  {
    CandidatesAre(digests, sel, o, excluded, b);
    OptionsMean(digests, task, o, i);
  }
}
