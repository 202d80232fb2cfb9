/** The meaning of `build`: which routes are offered, by how many options, and which are reported as disputed. */
module ActionSpaceMeaning {
  import opened SchemaContract
  import opened ExecutionContracts
  import opened Lexicographic
  import opened Grouping
  import opened Sequences
  import opened ActionSpaceContracts
  import opened ActionSpaces
  import opened ActionSpaceTheorems

  lemma EligibleAre(task: Task, o: Observation, bindings: seq<Binding>)
    ensures forall b :: b in EligibleOf(task, o, bindings) <==> b in bindings && Eligible(task, o, b)
  {
    FilterIs(EligibleFor(task, o), bindings);
  }

  /** The option serves route `d` of an action on a target. */
  ghost predicate Offers(option: ActionOption, s: Selector, d: string) {
    option.target == s.target && option.action == s.action && d in Routes(option.destinations)
  }

  ghost predicate Offered(space: ActionSpace, s: Selector, d: string) {
    exists i :: 0 <= i < |space.options| && Offers(space.options[i], s, d)
  }

  /** Every eligible binding has a destination mode of the registry. */
  ghost predicate AllRegistered(eligible: seq<Binding>) {
    forall b | b in eligible :: RegisteredMode(b)
  }

  ghost predicate NoBlanks(bindings: seq<Binding>) {
    forall b | b in bindings :: NoBlank(b.destinations)
  }

  /** The binding constructor admits no other modes. */
  lemma ConstructedAreRegistered(privacy: Privacy, task: Task, o: Observation)
    requires AllConstructed(privacy, o.bindings)
    ensures AllRegistered(EligibleOf(task, o, o.bindings)) && NoBlanks(o.bindings)
  {
    EligibleAre(task, o, o.bindings);
    forall b | b in o.bindings ensures RegisteredMode(b) && NoBlank(b.destinations) {
      ConstructedIsRegistered(privacy, b);
    }
  }

  // ---- routes with a destination ----

  lemma OfferedDestination(digests: Digests, task: Task, o: Observation, i: nat, d: string) returns (b: Binding)
    requires i < |Built(digests, task, o).options| && d in Built(digests, task, o).options[i].destinations
    ensures var eligible := EligibleOf(task, o, o.bindings);
            Backs(digests, eligible, b, Built(digests, task, o).options[i]) && Open(digests, eligible, b, d)
  {
    OptionsMean(digests, task, o, i);
    b :| Backs(digests, EligibleOf(task, o, o.bindings), b, Built(digests, task, o).options[i])
         && Open(digests, EligibleOf(task, o, o.bindings), b, d);
  }

  lemma OpenIsAgreed(digests: Digests, eligible: seq<Binding>, b: Binding, d: string)
    requires b in eligible && d in Routes(b.destinations)
    ensures !Withheld(digests, eligible, b, d) <==> Agreed(digests, eligible, Selector(b.target, b.action), d)
  {
    var s := Selector(b.target, b.action);
    assert Carries(b, s, d);
    if !Withheld(digests, eligible, b, d) {
      forall x, y | x in eligible && y in eligible && Carries(x, s, d) && Carries(y, s, d)
        ensures ContractOf(digests, x) == ContractOf(digests, y)
      {
        assert ContractOf(digests, x) == ContractOf(digests, b) == ContractOf(digests, y);
      }
    }
  }

  lemma BackedOption(digests: Digests, task: Task, o: Observation, b: Binding) returns (i: nat)
    requires b in EligibleOf(task, o, o.bindings) && Survives(digests, EligibleOf(task, o, o.bindings), b)
    ensures i < |Built(digests, task, o).options|
    ensures Backs(digests, EligibleOf(task, o, o.bindings), b, Built(digests, task, o).options[i])
  {
    BackedOnce(digests, task, o, b);
    i :| 0 <= i < |Built(digests, task, o).options|
         && Backs(digests, EligibleOf(task, o, o.bindings), b, Built(digests, task, o).options[i]);
  }

  lemma OfferedIsAgreed(digests: Digests, task: Task, o: Observation, i: nat, s: Selector, d: string)
    requires i < |Built(digests, task, o).options| && Offers(Built(digests, task, o).options[i], s, d) && d != ""
    ensures Carried(EligibleOf(task, o, o.bindings), s, d) && Agreed(digests, EligibleOf(task, o, o.bindings), s, d)
  {
    var b := OfferedDestination(digests, task, o, i, d);
    OpenIsAgreed(digests, EligibleOf(task, o, o.bindings), b, d);
    assert Carries(b, s, d);
  }

  lemma AgreedIsOffered(digests: Digests, task: Task, o: Observation, b: Binding, s: Selector, d: string)
    requires b in EligibleOf(task, o, o.bindings) && Carries(b, s, d) && d != ""
    requires Agreed(digests, EligibleOf(task, o, o.bindings), s, d)
    ensures Offered(Built(digests, task, o), s, d)
  {
    OpenIsAgreed(digests, EligibleOf(task, o, o.bindings), b, d);
    assert Open(digests, EligibleOf(task, o, o.bindings), b, d);
    var i := BackedOption(digests, task, o, b);
    OptionsMean(digests, task, o, i);
    assert Offers(Built(digests, task, o).options[i], s, d);
  }

  /** A destination is offered exactly when some eligible binding carries it and all that do promise the same. */
  lemma DestinationOffered(digests: Digests, task: Task, o: Observation, s: Selector, d: string)
    requires d != ""
    ensures Offered(Built(digests, task, o), s, d) <==>
              && Carried(EligibleOf(task, o, o.bindings), s, d)
              && Agreed(digests, EligibleOf(task, o, o.bindings), s, d)
  {
    if Offered(Built(digests, task, o), s, d) {
      var i :| 0 <= i < |Built(digests, task, o).options| && Offers(Built(digests, task, o).options[i], s, d);
      OfferedIsAgreed(digests, task, o, i, s, d);
    }
    if Carried(EligibleOf(task, o, o.bindings), s, d) && Agreed(digests, EligibleOf(task, o, o.bindings), s, d) {
      var b :| b in EligibleOf(task, o, o.bindings) && Carries(b, s, d);
      AgreedIsOffered(digests, task, o, b, s, d);
    }
  }

  // ---- the route without a destination ----

  /** A binding survives its disputes, but neither it nor any other binding of its contract keeps a destination. */
  ghost predicate LeftWithoutDestination(digests: Digests, eligible: seq<Binding>, b: Binding) {
    && b in eligible && Survives(digests, eligible, b)
    && forall c, d | c in eligible && KeyOf(digests, c) == KeyOf(digests, b) && Survives(digests, eligible, c) ::
         !Open(digests, eligible, c, d)
  }

  lemma PlainOptionIsLeft(digests: Digests, task: Task, o: Observation, i: nat) returns (b: Binding)
    requires i < |Built(digests, task, o).options| && Built(digests, task, o).options[i].destinations == []
    ensures LeftWithoutDestination(digests, EligibleOf(task, o, o.bindings), b)
    ensures Backs(digests, EligibleOf(task, o, o.bindings), b, Built(digests, task, o).options[i])
  {
    var eligible, option := EligibleOf(task, o, o.bindings), Built(digests, task, o).options[i];
    OptionsMean(digests, task, o, i);
    b :| Backs(digests, eligible, b, option);
    forall c, d | c in eligible && KeyOf(digests, c) == KeyOf(digests, b) && Survives(digests, eligible, c)
      ensures !Open(digests, eligible, c, d)
    {
      assert Backs(digests, eligible, c, option);
      assert d !in option.destinations;
    }
  }

  lemma LeftIsOffered(digests: Digests, task: Task, o: Observation, b: Binding) returns (i: nat)
    requires LeftWithoutDestination(digests, EligibleOf(task, o, o.bindings), b)
    ensures i < |Built(digests, task, o).options|
    ensures Offers(Built(digests, task, o).options[i], Selector(b.target, b.action), "")
    ensures Backs(digests, EligibleOf(task, o, o.bindings), b, Built(digests, task, o).options[i])
  {
    var eligible := EligibleOf(task, o, o.bindings);
    i := BackedOption(digests, task, o, b);
    var option := Built(digests, task, o).options[i];
    OptionsMean(digests, task, o, i);
    forall d ensures d !in option.destinations {
      forall c | Backs(digests, eligible, c, option) ensures !Open(digests, eligible, c, d) {
        assert KeyOf(digests, c) == KeyOf(digests, b);
      }
    }
    HasMember(option.destinations);
  }

  /** In every mode: when an option without destinations is offered. */
  lemma PlainRouteOffered(digests: Digests, task: Task, o: Observation, s: Selector)
    requires NoBlanks(o.bindings)
    ensures Offered(Built(digests, task, o), s, "") <==>
              exists b :: LeftWithoutDestination(digests, EligibleOf(task, o, o.bindings), b)
                          && b.target == s.target && b.action == s.action
  {
    if Offered(Built(digests, task, o), s, "") {
      var i :| 0 <= i < |Built(digests, task, o).options| && Offers(Built(digests, task, o).options[i], s, "");
      NoBlankDestination(digests, task, o, i);
      var b := PlainOptionIsLeft(digests, task, o, i);
    }
    if b: Binding :| b.target == s.target && b.action == s.action
                     && LeftWithoutDestination(digests, EligibleOf(task, o, o.bindings), b) {
      var i := LeftIsOffered(digests, task, o, b);
    }
  }

  ghost predicate OfferedTwice(space: ActionSpace, s: Selector, d: string) {
    exists i, j :: 0 <= i < |space.options| && 0 <= j < |space.options| && i != j
                   && Offers(space.options[i], s, d) && Offers(space.options[j], s, d)
  }

  /** Two bindings of the selector are left without a destination under different contracts. */
  ghost predicate LeftApart(digests: Digests, eligible: seq<Binding>, s: Selector, b: Binding, c: Binding) {
    && LeftWithoutDestination(digests, eligible, b) && LeftWithoutDestination(digests, eligible, c)
    && b.target == s.target && b.action == s.action && c.target == s.target && c.action == s.action
    && ContractOf(digests, b) != ContractOf(digests, c)
  }

  /** In every mode: when two options are offered without a destination. */
  lemma PlainRouteOfferedTwice(digests: Digests, task: Task, o: Observation, s: Selector)
    requires NoBlanks(o.bindings)
    ensures OfferedTwice(Built(digests, task, o), s, "") <==>
              exists b, c :: LeftApart(digests, EligibleOf(task, o, o.bindings), s, b, c)
  {
    var eligible, options := EligibleOf(task, o, o.bindings), Built(digests, task, o).options;
    if OfferedTwice(Built(digests, task, o), s, "") {
      var i, j :| 0 <= i < |options| && 0 <= j < |options| && i != j && Offers(options[i], s, "")
        && Offers(options[j], s, "");
      NoBlankDestination(digests, task, o, i);
      NoBlankDestination(digests, task, o, j);
      var b := PlainOptionIsLeft(digests, task, o, i);
      var c := PlainOptionIsLeft(digests, task, o, j);
      BackedOnce(digests, task, o, b);
      assert !Backs(digests, eligible, b, options[j]);
      assert LeftApart(digests, eligible, s, b, c);
    }
    if b, c :| LeftApart(digests, eligible, s, b, c) {
      var i := LeftIsOffered(digests, task, o, b);
      var j := LeftIsOffered(digests, task, o, c);
      assert i != j;
    }
  }

  lemma NoBlankDestination(digests: Digests, task: Task, o: Observation, i: nat)
    requires NoBlanks(o.bindings) && i < |Built(digests, task, o).options|
    ensures "" !in Built(digests, task, o).options[i].destinations
  {
    if "" in Built(digests, task, o).options[i].destinations {
      var b := OfferedDestination(digests, task, o, i, "");
      EligibleAre(task, o, o.bindings);
    }
  }

  lemma PlainBindingIsLeft(digests: Digests, eligible: seq<Binding>, b: Binding)
    requires AllRegistered(eligible) && b in eligible
    ensures LeftWithoutDestination(digests, eligible, b)
            <==> b.destinations == [] && !Withheld(digests, eligible, b, "")
  {
  }

  /** Every route, with a destination or without, follows one rule. */
  lemma RouteOffered(privacy: Privacy, digests: Digests, task: Task, o: Observation, s: Selector, d: string)
    requires AllConstructed(privacy, o.bindings)
    ensures Offered(Built(digests, task, o), s, d) <==>
              && Carried(EligibleOf(task, o, o.bindings), s, d)
              && Agreed(digests, EligibleOf(task, o, o.bindings), s, d)
  {
    var eligible := EligibleOf(task, o, o.bindings);
    if d != "" {
      DestinationOffered(digests, task, o, s, d);
    } else {
      EligibleAre(task, o, o.bindings);
      ConstructedAreRegistered(privacy, task, o);
      PlainRouteOffered(digests, task, o, s);
      forall b | b in eligible && b.target == s.target && b.action == s.action
        ensures Carries(b, s, "") <==> b.destinations == []
        ensures LeftWithoutDestination(digests, eligible, b) <==> Carries(b, s, "") && Agreed(digests, eligible, s, "")
      {
        PlainBindingIsLeft(digests, eligible, b);
        if b.destinations == [] {
          OpenIsAgreed(digests, eligible, b, "");
        }
      }
    }
  }

  // ---- the task's limits ----

  /** No forbidden effect is offered; a read-only task is offered nothing but harmless reading and activating. */
  lemma OffersStayAllowed(digests: Digests, task: Task, o: Observation, i: nat)
    requires i < |Built(digests, task, o).options|
    ensures var option := Built(digests, task, o).options[i];
            && (forall e | e in option.terms.effects :: e !in task.forbidden)
            && (option.terms.effects != []
               ==> !task.readOnly && forall e | e in option.terms.effects :: e in task.allowed)
            && (option.terms.effects == [] ==> option.risk == LowRisk && option.action in {"read", "activate"})
            && (option.action == "read" ==> option.terms.category == "observation" && option.terms.effects == [])
            && option.target !in o.conflictSubjects
  {
    OptionsMean(digests, task, o, i);
    EligibleAre(task, o, o.bindings);
    var option := Built(digests, task, o).options[i];
    var b :| Backs(digests, EligibleOf(task, o, o.bindings), b, option) && b.risk == option.risk;
    assert Eligible(task, o, b);
  }

  // ---- at most one option per route ----

  /** Under the registry's modes, whatever backs an option without destinations takes none itself. */
  lemma PlainBacker(digests: Digests, o: Observation, eligible: seq<Binding>, option: ActionOption, b: Binding)
    requires AllRegistered(eligible) && OptionMeans(digests, o, eligible, option)
    requires option.destinations == [] && Backs(digests, eligible, b, option)
    ensures b.destinations == [] && !Withheld(digests, eligible, b, "")
  {
    forall e ensures !Open(digests, eligible, b, e) {
      assert e !in option.destinations;
    }
  }

  lemma BackerOf(digests: Digests, task: Task, o: Observation, i: nat, s: Selector, d: string) returns (b: Binding)
    requires d != "" || AllRegistered(EligibleOf(task, o, o.bindings))
    requires i < |Built(digests, task, o).options| && Offers(Built(digests, task, o).options[i], s, d)
    ensures Backs(digests, EligibleOf(task, o, o.bindings), b, Built(digests, task, o).options[i])
    ensures Carries(b, s, d) && !Withheld(digests, EligibleOf(task, o, o.bindings), b, d)
  {
    var eligible, option := EligibleOf(task, o, o.bindings), Built(digests, task, o).options[i];
    if d in option.destinations {
      b := OfferedDestination(digests, task, o, i, d);
    } else {
      OptionsMean(digests, task, o, i);
      b :| Backs(digests, eligible, b, option);
      PlainBacker(digests, o, eligible, option, b);
    }
  }

  /** No route is offered by two options. */
  lemma OneOptionPerRoute(digests: Digests, task: Task, o: Observation, s: Selector, d: string, i: nat, j: nat)
    requires d != "" || AllRegistered(EligibleOf(task, o, o.bindings))
    requires i < |Built(digests, task, o).options| && Offers(Built(digests, task, o).options[i], s, d)
    requires j < |Built(digests, task, o).options| && Offers(Built(digests, task, o).options[j], s, d)
    ensures i == j
  {
    var b := BackerOf(digests, task, o, i, s, d);
    var c := BackerOf(digests, task, o, j, s, d);
    assert ContractOf(digests, b) == ContractOf(digests, c);
    assert Backs(digests, EligibleOf(task, o, o.bindings), b, Built(digests, task, o).options[j]);
    BackedOnce(digests, task, o, b);
  }

  ghost predicate UniqueIds(bindings: seq<Binding>) {
    forall b, c | b in bindings && c in bindings && b.id == c.id :: b == c
  }

  /** With unique binding ids, no binding id is listed by two options. */
  lemma OneOptionPerBinding(digests: Digests, task: Task, o: Observation, id: string, i: nat, j: nat)
    requires UniqueIds(o.bindings)
    requires i < |Built(digests, task, o).options| && id in Built(digests, task, o).options[i].bindingIds
    requires j < |Built(digests, task, o).options| && id in Built(digests, task, o).options[j].bindingIds
    ensures i == j
  {
    var b := BindingOf(digests, task, o, i, id);
    var c := BindingOf(digests, task, o, j, id);
    BackedOnce(digests, task, o, b);
  }

  lemma BindingOf(digests: Digests, task: Task, o: Observation, i: nat, id: string) returns (b: Binding)
    requires i < |Built(digests, task, o).options| && id in Built(digests, task, o).options[i].bindingIds
    ensures Backs(digests, EligibleOf(task, o, o.bindings), b, Built(digests, task, o).options[i])
    ensures b.id == id && b in o.bindings && Eligible(task, o, b)
  {
    OptionsMean(digests, task, o, i);
    EligibleAre(task, o, o.bindings);
    b :| Backs(digests, EligibleOf(task, o, o.bindings), b, Built(digests, task, o).options[i]) && b.id == id;
  }

  /** The uniqueness check of the action-space constructor never fails on a built space. */
  lemma ActionIdsAreUnique(digests: Digests, task: Task, o: Observation, i: nat, j: nat)
    requires Injective(digests)
    requires i < |Built(digests, task, o).options| && j < |Built(digests, task, o).options|
    requires Built(digests, task, o).options[i].id == Built(digests, task, o).options[j].id
    ensures i == j
  {
    var entries := PublishedOf(digests, task, o);
    OptionCount(digests, task, o);
    OptionsAlign(digests, o.id, entries, i);
    OptionsAlign(digests, o.id, entries, j);
    EntriesMean(digests, task, o);
    assert entries[i].bindings[0] in entries[i].bindings && entries[j].bindings[0] in entries[j].bindings;
    assert entries[i].key == entries[j].key;
  }

  // ---- destinations stay canonical ----

  lemma {:induction false} KeepStaysSorted(destinations: seq<string>, withheld: set<string>)
    requires StrictlySorted(StringLess, destinations)
    ensures StrictlySorted(StringLess, Keep(destinations, withheld))
  {
    if destinations == [] {
    } else {
      var front := destinations[..|destinations| - 1];
      KeepStaysSorted(front, withheld);
      KeepIs(front, withheld);
      forall i | 0 <= i < |Keep(front, withheld)|
        ensures StringLess(Keep(front, withheld)[i], destinations[|destinations| - 1])
      {
        assert Keep(front, withheld)[i] in front;
      }
    }
  }

  lemma {:induction false} PublishedStaySorted(groups: seq<Bucket<GroupKey, Binding>>,
                                               routes: map<GroupKey, set<string>>)
    requires forall n | 0 <= n < |groups| :: StrictlySorted(StringLess, groups[n].key.destinations)
    ensures forall i | 0 <= i < |PublishAll(groups, routes)| ::
              StrictlySorted(StringLess, PublishAll(groups, routes)[i].destinations)
  {
    if groups == [] {
    } else {
      var front, g := groups[..|groups| - 1], groups[|groups| - 1];
      var before, kept := PublishAll(front, routes), Keep(g.key.destinations, Entry(routes, g.key));
      PublishedStaySorted(front, routes);
      KeepStaysSorted(g.key.destinations, Entry(routes, g.key));
      StringsAreOrdered();
      var at := PublishedIndex(before, g.key.key);
      if at < |before| {
        SortedSetSorts(StringLess, before[at].destinations + kept);
      }
    }
  }

  /** The destinations of every option are sorted, distinct, not blank and not private, as its constructor demands. */
  lemma OptionDestinationsAreCanonical(privacy: Privacy, digests: Digests, task: Task, o: Observation, i: nat)
    requires AllConstructed(privacy, o.bindings) && i < |Built(digests, task, o).options|
    ensures Canonical(privacy, Built(digests, task, o).options[i].destinations)
  {
    var eligible := EligibleOf(task, o, o.bindings);
    var groups := GroupBy(GroupKeyOf(digests), eligible);
    EligibleAre(task, o, o.bindings);
    forall n | 0 <= n < |groups|
      ensures StrictlySorted(StringLess, groups[n].key.destinations)
    {
      var b := SomeItem(GroupKeyOf(digests), eligible, n);
      assert Constructed(privacy, b);
    }
    PublishedStaySorted(groups, RouteTable(ComparedPairs(digests, eligible)));
    OptionCount(digests, task, o);
    OptionsAlign(digests, o.id, PublishedOf(digests, task, o), i);
    ConstructedAreRegistered(privacy, task, o);
    NoBlankDestination(digests, task, o, i);
    forall d | d in Built(digests, task, o).options[i].destinations ensures !privacy.privateDestination(d) {
      var b := OfferedDestination(digests, task, o, i, d);
      assert Constructed(privacy, b);
    }
  }

  // ---- why the constructor refuses optional destinations ----

  function AnySchema(): Schema {
    NotAMapping
  }

  function OptionalBinding(id: string, resource: string): Binding {
    Binding(id, "o", "o", "r", "f", "t", "s", "drag_to",
      Terms("external", ["e"], true, false, "v", "c", resource, Reversible), AnySchema(), ["d"], LowRisk, 1.0, 0.0)
  }

  function OptionalObservation(): Observation {
    Observation("o", [OptionalBinding("1", "left"), OptionalBinding("2", "right")], [], {})
  }

  function OptionalTask(): Task {
    Task({}, {"e"}, false)
  }

  lemma OptionalEligible()
    ensures forall b :: b in EligibleOf(OptionalTask(), OptionalObservation(), OptionalObservation().bindings) <==>
              b == OptionalBinding("1", "left") || b == OptionalBinding("2", "right")
    ensures forall b | b in OptionalObservation().bindings :: ModeOf(b) == OptionalMode && NoBlank(b.destinations)
  {
    var task, o := OptionalTask(), OptionalObservation();
    var b, c := OptionalBinding("1", "left"), OptionalBinding("2", "right");
    EligibleAre(task, o, o.bindings);
    assert o.bindings[0] == b && o.bindings[1] == c;
    assert Eligible(task, o, b) && Eligible(task, o, c);
  }

  /** Whoever carries a disputed optional destination is published without it. */
  lemma OptionalDispute(digests: Digests, eligible: seq<Binding>, b: Binding, c: Binding)
    requires forall x :: x in eligible <==> x == b || x == c
    requires b.destinations == c.destinations == ["d"] && !b.terms.required && !c.terms.required
    requires b.target == c.target && b.action == c.action && b.terms != c.terms
    ensures Survives(digests, eligible, b) && Survives(digests, eligible, c)
    ensures forall x, d | x in eligible :: !Open(digests, eligible, x, d)
    ensures !Carried(eligible, Selector(b.target, b.action), "")
  {
    var s := Selector(b.target, b.action);
    assert Carries(b, s, "d") && Carries(c, s, "d");
  }

  /**
   Were a destination optional, which the binding constructor refuses for every registered action: two bindings that
   dispute their only destination are both offered without one, which neither carries.
   */
  lemma OptionalModeBreaksBoth(digests: Digests)
    ensures forall b | b in OptionalObservation().bindings :: ModeOf(b) == OptionalMode && NoBlank(b.destinations)
    ensures forall privacy: Privacy :: !AllConstructed(privacy, OptionalObservation().bindings)
    ensures Offered(Built(digests, OptionalTask(), OptionalObservation()), Selector("t", "drag_to"), "")
    ensures !Carried(EligibleOf(OptionalTask(), OptionalObservation(), OptionalObservation().bindings),
                     Selector("t", "drag_to"), "")
    ensures exists i, j :: 0 <= i < |Built(digests, OptionalTask(), OptionalObservation()).options|
                           && 0 <= j < |Built(digests, OptionalTask(), OptionalObservation()).options| && i != j
                           && Offers(Built(digests, OptionalTask(), OptionalObservation()).options[i],
                                     Selector("t", "drag_to"), "")
                           && Offers(Built(digests, OptionalTask(), OptionalObservation()).options[j],
                                     Selector("t", "drag_to"), "")
  {
    var b, c := OptionalBinding("1", "left"), OptionalBinding("2", "right");
    assert b.terms.resource == "left" && c.terms.resource == "right" && "left"[0] != "right"[0];
    OptionalEligible();
    forall privacy: Privacy ensures !AllConstructed(privacy, OptionalObservation().bindings) {
      assert OptionalObservation().bindings[0] == b && b in OptionalObservation().bindings;
      assert !Constructed(privacy, b) by {
        assert ModeOf(b) == OptionalMode;
      }
    }
    OptionalOffersBoth(digests, OptionalTask(), OptionalObservation(), b, c);
  }

  lemma OptionalOffersBoth(digests: Digests, task: Task, o: Observation, b: Binding, c: Binding)
    requires forall x :: x in EligibleOf(task, o, o.bindings) <==> x == b || x == c
    requires b.destinations == c.destinations == ["d"] && !b.terms.required && !c.terms.required
    requires b.target == c.target && b.action == c.action && b.terms != c.terms
    ensures Offered(Built(digests, task, o), Selector(b.target, b.action), "")
    ensures !Carried(EligibleOf(task, o, o.bindings), Selector(b.target, b.action), "")
    ensures exists i, j ::
              0 <= i < |Built(digests, task, o).options| && 0 <= j < |Built(digests, task, o).options| && i != j
                           && Offers(Built(digests, task, o).options[i], Selector(b.target, b.action), "")
                           && Offers(Built(digests, task, o).options[j], Selector(b.target, b.action), "")
  {
    OptionalDispute(digests, EligibleOf(task, o, o.bindings), b, c);
    var i := BackedOption(digests, task, o, b);
    var j := BackedOption(digests, task, o, c);
    OptionalOffersPlain(digests, task, o, i, b);
    OptionalOffersPlain(digests, task, o, j, c);
    assert Offers(Built(digests, task, o).options[i], Selector(b.target, b.action), "");
    assert Offers(Built(digests, task, o).options[j], Selector(b.target, b.action), "");
  }

  lemma OptionalOffersPlain(digests: Digests, task: Task, o: Observation, i: nat, b: Binding)
    requires i < |Built(digests, task, o).options|
    requires Backs(digests, EligibleOf(task, o, o.bindings), b, Built(digests, task, o).options[i])
    requires forall c, d ::
               !Open(digests, EligibleOf(task, o, o.bindings), c, d) || c !in EligibleOf(task, o, o.bindings)
    ensures Built(digests, task, o).options[i].destinations == []
  {
    if Built(digests, task, o).options[i].destinations != [] {
      var d := Built(digests, task, o).options[i].destinations[0];
      assert d in Built(digests, task, o).options[i].destinations;
      var c := OfferedDestination(digests, task, o, i, d);
    }
  }

  // ---- what is reported ----

  ghost predicate Reports(p: Pair, key: IssueKey, f: ContractField) {
    Disputed(p) != {} && IssueKeyOf(p) == key && f in ConflictingFields(p.left.key.contract, p.right.key.contract)
  }

  ghost predicate Reported(pairs: seq<Pair>, key: IssueKey, f: ContractField) {
    exists p :: p in pairs && Reports(p, key, f)
  }

  lemma ReportedStep(pairs: seq<Pair>, key: IssueKey, f: ContractField)
    requires pairs != []
    ensures Reported(pairs, key, f) <==> Reported(pairs[..|pairs| - 1], key, f) || Reports(pairs[|pairs| - 1], key, f)
  {
    assert pairs == pairs[..|pairs| - 1] + [pairs[|pairs| - 1]];
  }

  lemma {:induction false} IssuesReport(pairs: seq<Pair>, key: IssueKey, f: ContractField)
    ensures f in Entry(IssueTable(pairs), key) <==> Reported(pairs, key, f)
  {
    if pairs == [] {
    } else {
      IssuesReport(pairs[..|pairs| - 1], key, f);
      ReportedStep(pairs, key, f);
    }
  }

  lemma FieldsAreMutual(a: Contract, b: Contract)
    ensures ConflictingFields(a, b) == ConflictingFields(b, a)
  {
  }

  /** Two eligible bindings carry the same routes of a selector, and differ in the field. */
  ghost predicate Dispute(digests: Digests, b: Binding, c: Binding, key: IssueKey, f: ContractField) {
    && Selector(b.target, b.action) == key.selector == Selector(c.target, c.action)
    && Routes(b.destinations) * Routes(c.destinations) != {}
    && Routes(b.destinations) * Routes(c.destinations) - {""} == key.destinations
    && f in ConflictingFields(ContractOf(digests, b), ContractOf(digests, c))
  }

  lemma DisputeIsReport(digests: Digests, b: Binding, c: Binding, key: IssueKey, f: ContractField)
    ensures Dispute(digests, b, c, key, f) <==>
              Selector(c.target, c.action) == key.selector
              && Reports(Pair(GroupKeyOf(digests)(b), GroupKeyOf(digests)(c)), key, f)
  {
    FieldsTellContractsApart(ContractOf(digests, b), ContractOf(digests, c));
  }

  /** The issues list exactly the fields on which two eligible bindings of a shared route differ. */
  lemma IssuesAreDisputes(digests: Digests, task: Task, o: Observation, key: IssueKey, f: ContractField)
    ensures f in Entry(Built(digests, task, o).issues, key) <==>
              exists b, c :: b in EligibleOf(task, o, o.bindings) && c in EligibleOf(task, o, o.bindings)
                && Dispute(digests, b, c, key, f)
  {
    var eligible := EligibleOf(task, o, o.bindings);
    var keys, pairs := KeysOf(GroupBy(GroupKeyOf(digests), eligible)), ComparedPairs(digests, eligible);
    IssuesReport(pairs, key, f);
    if Reported(pairs, key, f) {
      var p :| p in pairs && Reports(p, key, f);
      OnlyRivalsAreCompared(keys, p);
      var b := KeyIsUsed(digests, eligible, p.left);
      var c := KeyIsUsed(digests, eligible, p.right);
      DisputeIsReport(digests, b, c, key, f);
    }
    if b, c :| b in eligible && c in eligible && Dispute(digests, b, c, key, f) {
      DisputeIsCompared(digests, eligible, b, c, key, f);
    }
  }

  lemma DisputeIsCompared(digests: Digests, eligible: seq<Binding>, b: Binding, c: Binding, key: IssueKey,
                          f: ContractField)
    requires b in eligible && c in eligible && Dispute(digests, b, c, key, f)
    ensures Reported(ComparedPairs(digests, eligible), key, f)
  {
    var keys := KeysOf(GroupBy(GroupKeyOf(digests), eligible));
    var left, right := GroupKeyOf(digests)(b), GroupKeyOf(digests)(c);
    KeysAreUsed(digests, eligible, b);
    KeysAreUsed(digests, eligible, c);
    DisputeIsReport(digests, b, c, key, f);
    FieldsAreMutual(ContractOf(digests, b), ContractOf(digests, c));
    DisputeIsReport(digests, c, b, key, f);
    FieldsTellContractsApart(ContractOf(digests, b), ContractOf(digests, c));
    EveryRivalryIsCompared(keys, left, right);
  }
}
