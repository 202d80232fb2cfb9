/** The records of the action space: bindings of one observation, offered options, admitted selections. */
module ActionSpaceContracts {
  import opened Wrappers
  import opened SchemaContract
  import opened ExecutionContracts
  import opened Lexicographic

  datatype Risk = LowRisk | MediumRisk | HighRisk | IrreversibleRisk

  function RiskRank(risk: Risk): nat {
    match risk
    case LowRisk => 0
    case MediumRisk => 1
    case HighRisk => 2
    case IrreversibleRisk => 3
  }

  /** The eight fields that, with the parameter schema, make up what a route promises. */
  datatype Terms = Terms(
    category: string,
    effects: seq<string>,
    barrier: bool,
    required: bool,
    family: string,
    verification: string,
    resource: string,
    reversibility: Reversibility)

  /** The nine fields by which routes are compared; a schema counts as its canonical JSON text. */
  datatype Contract = Contract(terms: Terms, schemaText: string)

  datatype Binding = Binding(
    id: string,
    world: string,
    source: string,
    revision: string,
    fingerprint: string,
    target: string,
    surface: string,
    action: string,
    terms: Terms,
    schema: Schema,
    destinations: seq<string>,
    risk: Risk,
    confidence: real,
    cost: real)

  datatype Source = Source(observation: string, surface: string, revision: string)

  datatype Observation = Observation(
    id: string,
    bindings: seq<Binding>,
    sources: seq<Source>,
    conflictSubjects: set<string>)

  datatype Task = Task(forbidden: set<string>, allowed: set<string>, readOnly: bool)

  /** Everything hashed into an action id. */
  datatype OptionIdentity = OptionIdentity(
    observation: string,
    target: string,
    action: string,
    terms: Terms,
    schemaDigest: string,
    bindingIds: seq<string>,
    destinations: seq<string>)

  /** Canonical JSON of a schema and the digests taken from it and from an option's identity. */
  datatype Digests = Digests(
    text: Schema -> string,
    ofText: string -> string,
    ofOption: OptionIdentity -> string)

  /** What SHA-256 is relied on for: different inputs, different digests. */
  ghost predicate Injective(digests: Digests) {
    && (forall a, b :: digests.ofText(a) == digests.ofText(b) ==> a == b)
    && (forall a, b :: digests.ofOption(a) == digests.ofOption(b) ==> a == b)
  }

  datatype ActionOption = ActionOption(
    id: string,
    observation: string,
    target: string,
    action: string,
    terms: Terms,
    schema: Schema,
    schemaDigest: string,
    bindingIds: seq<string>,
    risk: Risk,
    destinations: seq<string>)

  function ContractOf(digests: Digests, b: Binding): Contract {
    Contract(b.terms, digests.text(b.schema))
  }

  /** A route is one destination, or the empty name where no destination is taken. */
  function Routes(destinations: seq<string>): set<string> {
    if destinations == [] then {""} else set d | d in destinations
  }

  /** Which names the runtime treats as private: in parameters through the lexicon, in destinations here. */
  datatype Privacy = Privacy(lex: Lexicon, privateDestination: string -> bool)

  /** What `canonical_destination_ids` leaves: sorted, distinct, never blank and never private. */
  ghost predicate Canonical(privacy: Privacy, destinations: seq<string>) {
    && StrictlySorted(StringLess, destinations)
    && NoBlank(destinations)
    && forall d | d in destinations :: !privacy.privateDestination(d)
  }

  predicate NoBlank(destinations: seq<string>) {
    "" !in destinations
  }

  datatype DestinationMode = ForbiddenMode | OptionalMode | RequiredMode

  /** The mode a binding declares. */
  function ModeOf(b: Binding): DestinationMode {
    if b.terms.required then RequiredMode else if b.destinations != [] then OptionalMode else ForbiddenMode
  }

  const PLAIN_ACTIONS: set<string> := {
    "activate", "type_text", "select_option", "read", "scroll", "press_key", "hotkey", "set_value",
    "goto", "go_back", "go_forward", "new_tab", "tab_focus", "tab_close"
  }

  /** The mode the registry gives an action; only dragging takes a destination. */
  function RegistryMode(action: string): Option<DestinationMode> {
    if action == "drag_to" then Some(RequiredMode) else if action in PLAIN_ACTIONS then Some(ForbiddenMode) else None
  }

  /** The checks of the binding constructor that the action space relies on. */
  ghost predicate Constructed(privacy: Privacy, b: Binding) {
    && Canonical(privacy, b.destinations)
    && (b.terms.required ==> b.destinations != [])
    && RegistryMode(b.action) == Some(ModeOf(b))
  }

  ghost predicate AllConstructed(privacy: Privacy, bindings: seq<Binding>) {
    forall b | b in bindings :: Constructed(privacy, b)
  }

  /** Destinations are required or there are none: no registered action takes them optionally. */
  predicate RegisteredMode(b: Binding) {
    b.terms.required <==> b.destinations != []
  }

  /** What can be constructed: a drag with its destinations, or any other registered action without. */
  lemma ConstructedIs(privacy: Privacy, b: Binding)
    ensures Constructed(privacy, b) <==>
              && Canonical(privacy, b.destinations)
              && ((b.action == "drag_to" && b.terms.required && b.destinations != [])
                  || (b.action in PLAIN_ACTIONS && !b.terms.required && b.destinations == []))
  {
  }

  lemma ConstructedIsRegistered(privacy: Privacy, b: Binding)
    requires Constructed(privacy, b)
    ensures RegisteredMode(b) && NoBlank(b.destinations)
  {
  }
}

/** Building the offered action space out of the bindings of one observation. */
module ActionSpaces {
  import opened SchemaContract
  import opened ExecutionContracts
  import opened Lexicographic
  import opened Grouping
  import opened Sequences
  import opened ActionSpaceContracts

  // ---- which bindings take part ----

  predicate IsCurrent(b: Binding, o: Observation) {
    && b.world == o.id
    && b.fingerprint != ""
    && if o.sources == [] then b.source == o.id else MatchesSource(b, o.sources)
  }

  /** The first source with the binding's source id decides. */
  predicate MatchesSource(b: Binding, sources: seq<Source>) {
    && sources != []
    && if sources[0].observation == b.source then b.surface == sources[0].surface && b.revision == sources[0].revision
       else MatchesSource(b, sources[1..])
  }

  predicate Harmless(b: Binding, category: string, action: string) {
    b.terms.category == category && b.action == action && b.terms.effects == [] && b.risk == LowRisk
  }

  predicate EffectsAllowed(task: Task, b: Binding) {
    var observing := Harmless(b, "observation", "read");
    var interacting := Harmless(b, "interaction", "activate");
    && (forall e | e in b.terms.effects :: e !in task.forbidden)
    && (b.action == "read" ==> observing)
    && (observing || interacting
        || (!task.readOnly && b.terms.effects != [] && forall e | e in b.terms.effects :: e in task.allowed))
  }

  predicate Eligible(task: Task, o: Observation, b: Binding) {
    b.target !in o.conflictSubjects && IsCurrent(b, o) && EffectsAllowed(task, b)
  }

  function EligibleFor(task: Task, o: Observation): Binding -> bool {
    (b: Binding) => Eligible(task, o, b)
  }

  function EligibleOf(task: Task, o: Observation, bindings: seq<Binding>): seq<Binding> {
    Filter(EligibleFor(task, o), bindings)
  }

  // ---- groups and selectors ----

  datatype Selector = Selector(target: string, action: string)

  datatype ContractKey = ContractKey(selector: Selector, contract: Contract)

  datatype GroupKey = GroupKey(key: ContractKey, destinations: seq<string>)

  function KeyOf(digests: Digests, b: Binding): ContractKey {
    ContractKey(Selector(b.target, b.action), ContractOf(digests, b))
  }

  function GroupKeyOf(digests: Digests): Binding -> GroupKey {
    (b: Binding) => GroupKey(KeyOf(digests, b), b.destinations)
  }

  function SelectorOf(g: GroupKey): Selector {
    g.key.selector
  }

  function KeysOf(groups: seq<Bucket<GroupKey, Binding>>): seq<GroupKey> {
    Map((g: Bucket<GroupKey, Binding>) => g.key, groups)
  }

  // ---- conflicting routes ----

  datatype ContractField =
    | EffectCategory | SemanticEffects | ParameterSchema | ObservationBarrier | DestinationRequired
    | VerificationFamily | VerificationContract | ResourceRef | ReversibilityField

  function ConflictingFields(a: Contract, b: Contract): set<ContractField> {
    (if a.terms.category != b.terms.category then {EffectCategory} else {})
    + (if a.terms.effects != b.terms.effects then {SemanticEffects} else {})
    + (if a.schemaText != b.schemaText then {ParameterSchema} else {})
    + (if a.terms.barrier != b.terms.barrier then {ObservationBarrier} else {})
    + (if a.terms.required != b.terms.required then {DestinationRequired} else {})
    + (if a.terms.family != b.terms.family then {VerificationFamily} else {})
    + (if a.terms.verification != b.terms.verification then {VerificationContract} else {})
    + (if a.terms.resource != b.terms.resource then {ResourceRef} else {})
    + (if a.terms.reversibility != b.terms.reversibility then {ReversibilityField} else {})
  }

  /** The key of one conflict issue; no destinations when the clash is on the route without one. */
  datatype IssueKey = IssueKey(selector: Selector, destinations: set<string>)

  datatype Conflicts = Conflicts(routes: map<GroupKey, set<string>>, issues: map<IssueKey, set<ContractField>>)

  function Entry<K, V>(m: map<K, set<V>>, key: K): set<V> {
    if key in m then m[key] else {}
  }

  /** `m.setdefault(key, set()).update(more)`. */
  function Extend<K, V>(m: map<K, set<V>>, key: K, more: set<V>): map<K, set<V>> {
    m[key := Entry(m, key) + more]
  }

  /** Two groups of one selector, the earlier first. */
  datatype Pair = Pair(left: GroupKey, right: GroupKey)

  /** What the two groups dispute. */
  function Disputed(p: Pair): set<string> {
    if p.left.key.contract == p.right.key.contract then {}
      else Routes(p.left.destinations) * Routes(p.right.destinations)
  }

  function PairsAgainst(left: GroupKey, rights: seq<GroupKey>): seq<Pair> {
    if rights == [] then [] else PairsAgainst(left, rights[..|rights| - 1]) + [Pair(left, rights[|rights| - 1])]
  }

  function PairsWithin(keys: seq<GroupKey>, n: nat): seq<Pair>
    requires n <= |keys|
  {
    if n == 0 then [] else PairsWithin(keys, n - 1) + PairsAgainst(keys[n - 1], keys[n..])
  }

  /** All pairs in the order they are compared. */
  function PairsOf(selectors: seq<Bucket<Selector, GroupKey>>): seq<Pair> {
    if selectors == [] then []
    else
      var s := selectors[|selectors| - 1];
      PairsOf(selectors[..|selectors| - 1]) + PairsWithin(s.items, |s.items|)
  }

  /** Which routes each group loses. */
  function RouteTable(pairs: seq<Pair>): map<GroupKey, set<string>> {
    if pairs == [] then map[]
    else
      var rest, p := RouteTable(pairs[..|pairs| - 1]), pairs[|pairs| - 1];
      if Disputed(p) == {} then rest else Extend(Extend(rest, p.left, Disputed(p)), p.right, Disputed(p))
  }

  function IssueKeyOf(p: Pair): IssueKey {
    IssueKey(SelectorOf(p.left), Disputed(p) - {""})
  }

  /** Which fields are reported for each disputed set of routes. */
  function IssueTable(pairs: seq<Pair>): map<IssueKey, set<ContractField>> {
    if pairs == [] then map[]
    else
      var rest, p := IssueTable(pairs[..|pairs| - 1]), pairs[|pairs| - 1];
      if Disputed(p) == {} then rest
      else Extend(rest, IssueKeyOf(p), ConflictingFields(p.left.key.contract, p.right.key.contract))
  }

  function Recorded(pairs: seq<Pair>): Conflicts {
    Conflicts(RouteTable(pairs), IssueTable(pairs))
  }

  lemma FieldsTellContractsApart(a: Contract, b: Contract)
    ensures ConflictingFields(a, b) == {} <==> a == b
  {
    if a != b {
      assert || EffectCategory in ConflictingFields(a, b) || SemanticEffects in ConflictingFields(a, b)
             || ParameterSchema in ConflictingFields(a, b) || ObservationBarrier in ConflictingFields(a, b)
             || DestinationRequired in ConflictingFields(a, b) || VerificationFamily in ConflictingFields(a, b)
             || VerificationContract in ConflictingFields(a, b) || ResourceRef in ConflictingFields(a, b)
             || ReversibilityField in ConflictingFields(a, b);
    }
  }

  lemma RecordedStep(pairs: seq<Pair>, p: Pair)
    ensures RouteTable(pairs + [p]) ==
              if Disputed(p) == {} then RouteTable(pairs)
              else Extend(Extend(RouteTable(pairs), p.left, Disputed(p)), p.right, Disputed(p))
    ensures IssueTable(pairs + [p]) ==
              if Disputed(p) == {} then IssueTable(pairs)
              else Extend(IssueTable(pairs), IssueKeyOf(p),
                          ConflictingFields(p.left.key.contract, p.right.key.contract))
  {
    assert (pairs + [p])[..|pairs|] == pairs;
  }

  method ComparePair(before: Conflicts, left: GroupKey, right: GroupKey, ghost pairs: seq<Pair>) returns (st: Conflicts)
    requires before == Recorded(pairs)
    ensures st == Recorded(pairs + [Pair(left, right)])
  {
    RecordedStep(pairs, Pair(left, right));
    FieldsTellContractsApart(left.key.contract, right.key.contract);
    var overlapping := Routes(left.destinations) * Routes(right.destinations);
    if overlapping == {} {
      return before;
    }
    var fields := ConflictingFields(left.key.contract, right.key.contract);
    if fields == {} {
      return before;
    }
    st := Conflicts(
      Extend(Extend(before.routes, left, overlapping), right, overlapping),
      Extend(before.issues, IssueKey(SelectorOf(left), overlapping - {""}), fields));
  }

  lemma AgainstStep(left: GroupKey, rights: seq<GroupKey>, j: nat)
    requires j < |rights|
    ensures PairsAgainst(left, rights[..j + 1]) == PairsAgainst(left, rights[..j]) + [Pair(left, rights[j])]
  {
    assert rights[..j + 1][..j] == rights[..j];
  }

  method CompareAgainst(before: Conflicts, left: GroupKey, rights: seq<GroupKey>, ghost pairs: seq<Pair>)
    returns (st: Conflicts)
    requires before == Recorded(pairs)
    ensures st == Recorded(pairs + PairsAgainst(left, rights))
  {
    st := before;
    ghost var done := pairs;
    for j := 0 to |rights|
      invariant done == pairs + PairsAgainst(left, rights[..j])
      invariant st == Recorded(done)
    {
      AgainstStep(left, rights, j);
      st := ComparePair(st, left, rights[j], done);
      done := done + [Pair(left, rights[j])];
    }
    assert rights[..|rights|] == rights;
  }

  lemma WithinStep(keys: seq<GroupKey>, i: nat)
    requires i < |keys|
    ensures PairsWithin(keys, i + 1) == PairsWithin(keys, i) + PairsAgainst(keys[i], keys[i + 1..])
  {
  }

  lemma Associate<A>(a: seq<A>, b: seq<A>, c: seq<A>)
    ensures (a + b) + c == a + (b + c)
  {
  }

  method CompareWithin(before: Conflicts, keys: seq<GroupKey>, ghost pairs: seq<Pair>) returns (st: Conflicts)
    requires before == Recorded(pairs)
    ensures st == Recorded(pairs + PairsWithin(keys, |keys|))
  {
    st := before;
    ghost var done := pairs;
    for i := 0 to |keys|
      invariant done == pairs + PairsWithin(keys, i)
      invariant st == Recorded(done)
    {
      WithinStep(keys, i);
      Associate(pairs, PairsWithin(keys, i), PairsAgainst(keys[i], keys[i + 1..]));
      st := CompareAgainst(st, keys[i], keys[i + 1..], done);
      done := done + PairsAgainst(keys[i], keys[i + 1..]);
    }
  }

  lemma PairsOfStep(selectors: seq<Bucket<Selector, GroupKey>>, m: nat)
    requires m < |selectors|
    ensures PairsOf(selectors[..m + 1])
            == PairsOf(selectors[..m]) + PairsWithin(selectors[m].items, |selectors[m].items|)
  {
    assert selectors[..m + 1][..m] == selectors[..m];
  }

  method FindConflicts(keys: seq<GroupKey>) returns (st: Conflicts)
    ensures st == Recorded(PairsOf(GroupBy(SelectorOf, keys)))
  {
    var selectors := Group(SelectorOf, keys);
    st := Conflicts(map[], map[]);
    for m := 0 to |selectors|
      invariant st == Recorded(PairsOf(selectors[..m]))
    {
      PairsOfStep(selectors, m);
      st := CompareWithin(st, selectors[m].items, PairsOf(selectors[..m]));
    }
    assert selectors[..|selectors|] == selectors;
  }

  // ---- publishing what is left ----

  function Keep(destinations: seq<string>, withheld: set<string>): seq<string> {
    if destinations == [] then []
    else
      var d := destinations[|destinations| - 1];
      Keep(destinations[..|destinations| - 1], withheld) + (if d in withheld then [] else [d])
  }

  predicate Publishable(g: GroupKey, withheld: set<string>) {
    && !(g.destinations == [] && "" in withheld)
    && !(g.key.contract.terms.required && Keep(g.destinations, withheld) == [])
  }

  datatype Published = Published(key: ContractKey, destinations: seq<string>, bindings: seq<Binding>)

  function PublishedIndex(entries: seq<Published>, key: ContractKey): (i: nat)
    ensures i <= |entries|
    ensures i < |entries| ==> entries[i].key == key
    ensures i == |entries| ==> forall k | 0 <= k < |entries| :: entries[k].key != key
  {
    FirstAt(Map((p: Published) => p.key, entries), key)
  }

  /** A new contract is added; a known one takes the union of the destinations and all the bindings. */
  function Publish(entries: seq<Published>, key: ContractKey, destinations: seq<string>, bindings: seq<Binding>)
    : seq<Published>
  {
    var i := PublishedIndex(entries, key);
    if i < |entries| then
      entries[i := Published(key, SortedSet(StringLess, entries[i].destinations + destinations),
                             entries[i].bindings + bindings)]
    else entries + [Published(key, destinations, bindings)]
  }

  function PublishAll(groups: seq<Bucket<GroupKey, Binding>>, routes: map<GroupKey, set<string>>): seq<Published> {
    if groups == [] then []
    else
      var g := groups[|groups| - 1];
      var rest := PublishAll(groups[..|groups| - 1], routes);
      var withheld := Entry(routes, g.key);
      if Publishable(g.key, withheld) then Publish(rest, g.key.key, Keep(g.key.destinations, withheld), g.items)
        else rest
  }

  function HighestRisk(bindings: seq<Binding>): Risk
    requires bindings != []
  {
    var last := bindings[|bindings| - 1].risk;
    if |bindings| == 1 then last
    else
      var rest := HighestRisk(bindings[..|bindings| - 1]);
      if RiskRank(rest) < RiskRank(last) then last else rest
  }

  function OptionOf(digests: Digests, observation: string, p: Published): ActionOption
    requires p.bindings != []
  {
    var schema := p.bindings[0].schema;
    var schemaDigest := digests.ofText(digests.text(schema));
    var ids := Sorted(StringLess, Map((b: Binding) => b.id, p.bindings));
    var identity := OptionIdentity(observation, p.key.selector.target, p.key.selector.action, p.key.contract.terms,
                                   schemaDigest, ids, p.destinations);
    ActionOption(digests.ofOption(identity), observation, p.key.selector.target, p.key.selector.action,
                 p.key.contract.terms, schema, schemaDigest, ids, HighestRisk(p.bindings), p.destinations)
  }

  ghost predicate NoneEmpty(entries: seq<Published>) {
    forall i | 0 <= i < |entries| :: entries[i].bindings != []
  }

  lemma {:induction false} PublishedHoldBindings(groups: seq<Bucket<GroupKey, Binding>>,
                                                 routes: map<GroupKey, set<string>>)
    requires forall i | 0 <= i < |groups| :: groups[i].items != []
    ensures NoneEmpty(PublishAll(groups, routes))
  {
    if groups == [] {
    } else {
      PublishedHoldBindings(groups[..|groups| - 1], routes);
    }
  }

  function OptionsOf(digests: Digests, observation: string, entries: seq<Published>): seq<ActionOption>
    requires NoneEmpty(entries)
  {
    if entries == [] then []
    else
      OptionsOf(digests, observation, entries[..|entries| - 1])
      + [OptionOf(digests, observation, entries[|entries| - 1])]
  }

  datatype ActionSpace = ActionSpace(
    observation: string,
    options: seq<ActionOption>,
    issues: map<IssueKey, set<ContractField>>)

  function Groups(digests: Digests, task: Task, o: Observation): seq<Bucket<GroupKey, Binding>> {
    GroupBy(GroupKeyOf(digests), EligibleOf(task, o, o.bindings))
  }

  function ComparedPairs(digests: Digests, eligible: seq<Binding>): seq<Pair> {
    PairsOf(GroupBy(SelectorOf, KeysOf(GroupBy(GroupKeyOf(digests), eligible))))
  }

  function ConflictsOf(digests: Digests, task: Task, o: Observation): Conflicts {
    Recorded(ComparedPairs(digests, EligibleOf(task, o, o.bindings)))
  }

  function PublishedOf(digests: Digests, task: Task, o: Observation): (entries: seq<Published>)
    ensures NoneEmpty(entries)
  {
    GroupMembers(GroupKeyOf(digests), EligibleOf(task, o, o.bindings));
    PublishedHoldBindings(Groups(digests, task, o), ConflictsOf(digests, task, o).routes);
    PublishAll(Groups(digests, task, o), ConflictsOf(digests, task, o).routes)
  }

  /** The action space of a task over an observation, options in the order their contracts were first published. */
  function Built(digests: Digests, task: Task, o: Observation): ActionSpace {
    ActionSpace(o.id, OptionsOf(digests, o.id, PublishedOf(digests, task, o)), ConflictsOf(digests, task, o).issues)
  }

  method PublishGroups(groups: seq<Bucket<GroupKey, Binding>>, routes: map<GroupKey, set<string>>)
    returns (entries: seq<Published>)
    ensures entries == PublishAll(groups, routes)
  {
    entries := [];
    for n := 0 to |groups|
      invariant entries == PublishAll(groups[..n], routes)
    {
      assert groups[..n + 1][..n] == groups[..n];
      var g := groups[n].key;
      var withheld := Entry(routes, g);
      if g.destinations == [] && "" in withheld {
        continue;
      }
      var destinations := Keep(g.destinations, withheld);
      if g.key.contract.terms.required && destinations == [] {
        continue;
      }
      var i := PublishedIndex(entries, g.key);
      if i == |entries| {
        entries := entries + [Published(g.key, destinations, groups[n].items)];
      } else {
        var merged := SortedSet(StringLess, entries[i].destinations + destinations);
        entries := entries[i := Published(g.key, merged, entries[i].bindings + groups[n].items)];
      }
    }
    assert groups[..|groups|] == groups;
  }

  method FilterEligible(task: Task, o: Observation) returns (eligible: seq<Binding>)
    ensures eligible == EligibleOf(task, o, o.bindings)
  {
    eligible := [];
    for n := 0 to |o.bindings|
      invariant eligible == EligibleOf(task, o, o.bindings[..n])
    {
      FilterStep(EligibleFor(task, o), o.bindings, n);
      if o.bindings[n].target in o.conflictSubjects {
        continue;
      }
      if !IsCurrent(o.bindings[n], o) || !EffectsAllowed(task, o.bindings[n]) {
        continue;
      }
      eligible := eligible + [o.bindings[n]];
    }
    assert o.bindings[..|o.bindings|] == o.bindings;
  }

  method MakeOptions(digests: Digests, observation: string, entries: seq<Published>)
    returns (options: seq<ActionOption>)
    requires NoneEmpty(entries)
    ensures options == OptionsOf(digests, observation, entries)
  {
    options := [];
    for n := 0 to |entries|
      invariant NoneEmpty(entries[..n])
      invariant options == OptionsOf(digests, observation, entries[..n])
    {
      assert entries[..n + 1][..n] == entries[..n];
      options := options + [OptionOf(digests, observation, entries[n])];
    }
    assert entries[..|entries|] == entries;
  }

  /** `ActionSpaceBuilder.build`. */
  method Build(digests: Digests, task: Task, o: Observation) returns (space: ActionSpace)
    ensures space == Built(digests, task, o)
  {
    var eligible := FilterEligible(task, o);
    var groups := Group(GroupKeyOf(digests), eligible);
    var conflicts := FindConflicts(KeysOf(groups));
    var entries := PublishGroups(groups, conflicts.routes);
    assert entries == PublishedOf(digests, task, o);
    var options := MakeOptions(digests, o.id, entries);
    space := ActionSpace(o.id, options, conflicts.issues);
  }
}
