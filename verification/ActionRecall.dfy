/** Splitting the options of an action space by a literal query, and ranking what is delivered. */
module ActionRecall {
  import opened Wrappers
  import opened Lexicographic
  import opened Sequences
  import opened PhraseMatch
  import opened ActionSpaceContracts

  const PUBLIC_ACTION_LABEL_MAX_CHARS := 240

  /** Text normalisation, the literal words of a text in order, joining with blanks, and character classes. */
  datatype Texts = Texts(
    normalize: string -> string,
    words: string -> seq<string>,
    join: seq<string> -> string,
    isAlnum: char -> bool,
    schemaText: ActionOption -> string)

  /** The public facts by target id, and which targets have focus or are in view. */
  datatype Scene = Scene(
    labels: map<string, string>,
    roles: map<string, string>,
    paths: map<string, seq<string>>,
    focused: set<string>,
    viewport: set<string>)

  function Text(m: map<string, string>, target: string): string {
    if target in m then m[target] else ""
  }

  function Label(t: Texts, scene: Scene, option: ActionOption): string {
    t.normalize(Text(scene.labels, option.target))
  }

  function Role(t: Texts, scene: Scene, option: ActionOption): string {
    t.normalize(Text(scene.roles, option.target))
  }

  function Path(t: Texts, scene: Scene, option: ActionOption): seq<string> {
    Map(t.normalize, if option.target in scene.paths then scene.paths[option.target] else [])
  }

  function Tokens(t: Texts, text: string): set<string> {
    Members(t.words(text))
  }

  function PathTokens(t: Texts, scene: Scene, option: ActionOption): set<string> {
    Tokens(t, t.join(Path(t, scene, option)))
  }

  // ---- the facets of one query ----

  /** The options whose path counts as page ancestry. */
  predicate OnPage(t: Texts, scene: Scene, option: ActionOption) {
    Role(t, scene, option) != "browser_context" && PathTokens(t, scene, option) != {}
  }

  function PagePaths(t: Texts, scene: Scene, options: seq<ActionOption>): seq<set<string>> {
    Map((x: ActionOption) => PathTokens(t, scene, x), Filter((x: ActionOption) => OnPage(t, scene, x), options))
  }

  /** `frozenset.intersection` of at least one set. */
  function Intersection(sets: seq<set<string>>): set<string>
    requires sets != []
  {
    if |sets| == 1 then sets[0] else Intersection(sets[..|sets| - 1]) * sets[|sets| - 1]
  }

  function CommonPathTokens(t: Texts, scene: Scene, options: seq<ActionOption>): set<string> {
    var paths := PagePaths(t, scene, options);
    if |paths| > 1 then Intersection(paths) else {}
  }

  function RoleVocabulary(t: Texts, scene: Scene, options: seq<ActionOption>): set<string> {
    set x, token | x in options && token in Tokens(t, Text(scene.roles, x.target)) :: token
  }

  function OperationVocabulary(t: Texts, options: seq<ActionOption>): set<string> {
    set x, token | x in options && token in Tokens(t, x.action) :: token
  }

  /** What is computed once for a query: its tokens, the role and operation facets, and the tokens no path can claim. */
  datatype Facets = Facets(query: string, tokens: set<string>, roles: set<string>, operations: set<string>,
                           common: set<string>)

  function FacetsOf(t: Texts, scene: Scene, options: seq<ActionOption>, query: string): Facets {
    var tokens := Tokens(t, query);
    Facets(query, tokens, tokens * RoleVocabulary(t, scene, options), tokens * OperationVocabulary(t, options),
           CommonPathTokens(t, scene, options))
  }

  // ---- one option against the query ----

  predicate Exact(t: Texts, scene: Scene, f: Facets, option: ActionOption) {
    Label(t, scene, option) != [] && f.query != [] && Matches(t.isAlnum, Label(t, scene, option), f.query)
  }

  /** The terms an exact label claims for itself. */
  function LabelTerms(t: Texts, scene: Scene, f: Facets, option: ActionOption, exact: bool): set<string> {
    if exact then f.tokens * Tokens(t, Label(t, scene, option)) else {}
  }

  function TargetTokens(t: Texts, scene: Scene, f: Facets, option: ActionOption): set<string> {
    Tokens(t, Label(t, scene, option)) + (PathTokens(t, scene, option) - f.common)
  }

  /** The role, operation and target terms the query has for one option. */
  datatype QueryTerms = QueryTerms(roles: set<string>, operations: set<string>, targets: set<string>,
                                   overlap: set<string>)

  function TermsFor(t: Texts, scene: Scene, f: Facets, option: ActionOption, exact: bool): QueryTerms {
    var claimed := LabelTerms(t, scene, f, option, exact);
    var targets := (f.tokens - f.roles - f.operations) + claimed;
    QueryTerms(f.roles - claimed, f.operations - claimed, targets, targets * TargetTokens(t, scene, f, option))
  }

  /** The facets bind, and some target term is found; without target terms a facet or an exact label is enough. */
  predicate Hits(t: Texts, scene: Scene, option: ActionOption, exact: bool, q: QueryTerms) {
    && q.roles <= Tokens(t, Role(t, scene, option))
    && q.operations <= Tokens(t, t.normalize(option.action))
    && (if q.targets != {} then q.overlap != {} else q.roles != {} || q.operations != {} || exact)
  }

  /** A prioritised option with its sort key; coverage is the exact fraction of target terms found. */
  datatype Item = Item(coverage: real, exact: nat, overlap: nat, facets: nat, structural: nat, order: seq<seq<string>>,
                       option: ActionOption)

  function Structural(scene: Scene, option: ActionOption): nat {
    if option.target in scene.focused then 0 else if option.target in scene.viewport then 1 else 2
  }

  function PublicOrder(t: Texts, scene: Scene, option: ActionOption): seq<seq<string>> {
    [Path(t, scene, option), [Label(t, scene, option)], [Role(t, scene, option)], [t.normalize(option.action)],
     [t.schemaText(option)]]
  }

  function Coverage(q: QueryTerms): real {
    if q.targets != {} then (|q.overlap| as real) / (|q.targets| as real) else 1.0
  }

  function ItemOf(t: Texts, scene: Scene, option: ActionOption, exact: bool, q: QueryTerms, coverage: real): Item {
    Item(coverage, if exact then 1 else 0, |q.overlap|, |q.roles| + |q.operations|, Structural(scene, option),
         PublicOrder(t, scene, option), option)
  }

  function MatchedBy(q: QueryTerms): set<string> {
    q.overlap + q.roles + q.operations
  }

  /** An option misses, or hits with its key and the query tokens it accounts for. */
  datatype Verdict = Miss | Hit(item: Item, matched: set<string>)

  function VerdictOn(t: Texts, scene: Scene, f: Facets, option: ActionOption): Verdict {
    var exact := Exact(t, scene, f, option);
    var q := TermsFor(t, scene, f, option, exact);
    if Hits(t, scene, option, exact, q) then Hit(ItemOf(t, scene, option, exact, q, Coverage(q)), MatchedBy(q))
      else Miss
  }

  // ---- the loop ----

  datatype Split = Split(prioritized: seq<Item>, remainder: seq<ActionOption>, matched: set<string>)

  function SplitBy(judge: ActionOption -> Verdict, options: seq<ActionOption>): Split {
    if options == [] then Split([], [], {})
    else
      var s, option := SplitBy(judge, options[..|options| - 1]), options[|options| - 1];
      match judge(option)
      case Miss => Split(s.prioritized, s.remainder + [option], s.matched)
      case Hit(item, matched) => Split(s.prioritized + [item], s.remainder, s.matched + matched)
  }

  function Judge(t: Texts, scene: Scene, f: Facets): ActionOption -> Verdict {
    (option: ActionOption) => VerdictOn(t, scene, f, option)
  }

  function SplitOf(t: Texts, scene: Scene, options: seq<ActionOption>, query: string): Split {
    SplitBy(Judge(t, scene, FacetsOf(t, scene, options, query)), options)
  }

  predicate KeyLess(a: Item, b: Item) {
    if a.coverage != b.coverage then a.coverage > b.coverage
    else if a.exact != b.exact then a.exact > b.exact
    else if a.overlap != b.overlap then a.overlap > b.overlap
    else if a.facets != b.facets then a.facets > b.facets
    else if a.structural != b.structural then a.structural < b.structural
    else TextsLess(a.order, b.order)
  }

  predicate StringsLess(a: seq<string>, b: seq<string>) {
    Precedes(StringLess, a, b)
  }

  predicate TextsLess(a: seq<seq<string>>, b: seq<seq<string>>) {
    Precedes(StringsLess, a, b)
  }

  function OptionOfItem(item: Item): ActionOption {
    item.option
  }

  datatype Partition = Partition(prioritized: seq<ActionOption>, remainder: seq<ActionOption>, unmatched: seq<string>)

  function Unmatched(t: Texts, query: string, matched: set<string>): seq<string> {
    Filter((token: string) => token !in matched, Unique(t.words(query)))
  }

  /** The partition of the options by a query; a query that normalises to nothing takes them all as they are. */
  function PartitionOf(t: Texts, scene: Scene, options: seq<ActionOption>, rawQuery: string): Result<Partition> {
    if |rawQuery| > PUBLIC_ACTION_LABEL_MAX_CHARS then Raised
    else
      var query := t.normalize(rawQuery);
      if query == [] then Ok(Partition(options, [], []))
      else
        var s := SplitOf(t, scene, options, query);
        Ok(Partition(Map(OptionOfItem, Sorted(KeyLess, s.prioritized)), s.remainder, Unmatched(t, query, s.matched)))
  }

  method SplitOptions(t: Texts, scene: Scene, f: Facets, options: seq<ActionOption>) returns (s: Split)
    requires f.query != []
    ensures s == SplitBy(Judge(t, scene, f), options)
  {
    var prioritized, remainder, matched := [], [], {};
    for n := 0 to |options|
      invariant Split(prioritized, remainder, matched) == SplitBy(Judge(t, scene, f), options[..n])
    {
      assert options[..n + 1][..n] == options[..n];
      var verdict := JudgeOption(t, scene, f, options[n]);
      if verdict.Miss? {
        remainder := remainder + [options[n]];
        continue;
      }
      matched := matched + verdict.matched;
      prioritized := prioritized + [verdict.item];
    }
    assert options[..|options|] == options;
    s := Split(prioritized, remainder, matched);
  }

  /**
   The branches of the loop body that decide on one option: its coverage, or nothing when it goes to the
   remainder.
   */
  method CoverageIfHit(t: Texts, scene: Scene, option: ActionOption, exact: bool, q: QueryTerms)
    returns (c: Option<real>)
    ensures c == if Hits(t, scene, option, exact, q) then Some(Coverage(q)) else None
  {
    if !(q.roles <= Tokens(t, Role(t, scene, option))) || !(q.operations <= Tokens(t, t.normalize(option.action))) {
      return None;
    }
    if q.targets != {} {
      if q.overlap == {} {
        return None;
      }
      return Some((|q.overlap| as real) / (|q.targets| as real));
    }
    if q.roles != {} || q.operations != {} || exact {
      return Some(1.0);
    }
    return None;
  }

  method ExactLabel(t: Texts, scene: Scene, f: Facets, option: ActionOption) returns (exact: bool)
    requires f.query != []
    ensures exact == Exact(t, scene, f, option)
  {
    var name := Label(t, scene, option);
    if name == [] {
      return false;
    }
    exact := BoundedPhraseMatch(t.isAlnum, name, f.query);
  }

  method JudgeOption(t: Texts, scene: Scene, f: Facets, option: ActionOption) returns (v: Verdict)
    requires f.query != []
    ensures v == VerdictOn(t, scene, f, option)
  {
    var exact := ExactLabel(t, scene, f, option);
    var q := TermsFor(t, scene, f, option, exact);
    var coverage := CoverageIfHit(t, scene, option, exact, q);
    if coverage.None? {
      return Miss;
    }
    return Hit(ItemOf(t, scene, option, exact, q, coverage.value), MatchedBy(q));
  }

  /** `ActionRecallSet.partition`. */
  method PartitionOptions(t: Texts, scene: Scene, options: seq<ActionOption>, rawQuery: string)
    returns (p: Result<Partition>)
    ensures p == PartitionOf(t, scene, options, rawQuery)
  {
    if |rawQuery| > PUBLIC_ACTION_LABEL_MAX_CHARS {
      return Raised;
    }
    var query := t.normalize(rawQuery);
    if query == [] {
      return Ok(Partition(options, [], []));
    }
    var s := SplitOptions(t, scene, FacetsOf(t, scene, options, query), options);
    return Ok(Partition(Map(OptionOfItem, Sorted(KeyLess, s.prioritized)), s.remainder,
                        Unmatched(t, query, s.matched)));
  }

  // ---- what the partition is ----

  /** A verdict is about the option it was asked for. */
  ghost predicate OwnItem(judge: ActionOption -> Verdict, option: ActionOption) {
    judge(option).Hit? ==> judge(option).item.option == option
  }

  lemma {:induction false} SplitKeepsAll(judge: ActionOption -> Verdict, options: seq<ActionOption>)
    requires forall x :: OwnItem(judge, x)
    ensures multiset(Map(OptionOfItem, SplitBy(judge, options).prioritized))
            + multiset(SplitBy(judge, options).remainder)
         == multiset(options)
  {
    if options == [] {
    } else {
      var front, last := options[..|options| - 1], options[|options| - 1];
      SplitKeepsAll(judge, front);
      assert options == front + [last];
      assert OwnItem(judge, last);
      if judge(last).Hit? {
        MapConcat(OptionOfItem, SplitBy(judge, front).prioritized, [judge(last).item]);
        assert Map(OptionOfItem, [judge(last).item]) == [last];
      }
    }
  }

  lemma KeyIsAnOrder()
    ensures StrictWeakOrder(KeyLess)
  {
    StringsAreOrdered();
    SequencesAreOrdered(StringLess, StringsLess);
    SequencesAreOrdered(StringsLess, TextsLess);
  }

  /** Everything about an option that a query token can match. */
  ghost function Evidence(t: Texts, scene: Scene, common: set<string>, option: ActionOption): set<string> {
    Tokens(t, Label(t, scene, option)) + (PathTokens(t, scene, option) - common)
    + Tokens(t, Role(t, scene, option)) + Tokens(t, t.normalize(option.action))
  }

  /** The item is the verdict on its option. */
  ghost predicate Judged(judge: ActionOption -> Verdict, item: Item) {
    judge(item.option).Hit? && judge(item.option).item == item
  }

  /** Prioritised are exactly the options that hit, each with its own key; the rest missed. */
  lemma {:induction false} SplitIsJudged(judge: ActionOption -> Verdict, options: seq<ActionOption>)
    requires forall x :: OwnItem(judge, x)
    ensures forall item | item in SplitBy(judge, options).prioritized :: Judged(judge, item)
    ensures forall x | x in SplitBy(judge, options).remainder :: judge(x).Miss?
  {
    if options == [] {
    } else {
      SplitIsJudged(judge, options[..|options| - 1]);
      assert OwnItem(judge, options[|options| - 1]);
    }
  }

  /** Every matched token was accounted for by a prioritised option. */
  lemma {:induction false} MatchedHasSource(judge: ActionOption -> Verdict, options: seq<ActionOption>, token: string)
    requires forall x :: OwnItem(judge, x)
    ensures token in SplitBy(judge, options).matched <==>
              exists item :: item in SplitBy(judge, options).prioritized && Judged(judge, item)
                && token in judge(item.option).matched
  {
    if options == [] {
    } else {
      var front, last := options[..|options| - 1], options[|options| - 1];
      MatchedHasSource(judge, front, token);
      assert OwnItem(judge, last);
    }
  }

  lemma SourceOf(judge: ActionOption -> Verdict, options: seq<ActionOption>, token: string) returns (k: nat)
    requires forall x :: OwnItem(judge, x)
    requires token in SplitBy(judge, options).matched
    ensures k < |SplitBy(judge, options).prioritized| && Judged(judge, SplitBy(judge, options).prioritized[k])
    ensures token in judge(SplitBy(judge, options).prioritized[k].option).matched
  {
    MatchedHasSource(judge, options, token);
    var items := SplitBy(judge, options).prioritized;
    var item :| item in items && Judged(judge, item) && token in judge(item.option).matched;
    k :| 0 <= k < |items| && items[k] == item;
  }

  lemma JudgeOwns(t: Texts, scene: Scene, f: Facets)
    ensures forall x :: OwnItem(Judge(t, scene, f), x)
  {
  }

  ghost predicate FacetsHold(f: Facets) {
    f.roles <= f.tokens && f.operations <= f.tokens
  }

  /** What an option accounts for are query tokens found on it. */
  lemma MatchedIsEvidence(t: Texts, scene: Scene, f: Facets, option: ActionOption)
    requires FacetsHold(f) && VerdictOn(t, scene, f, option).Hit?
    ensures VerdictOn(t, scene, f, option).matched <= f.tokens * Evidence(t, scene, f.common, option)
    ensures VerdictOn(t, scene, f, option).matched == {} ==> Exact(t, scene, f, option)
  {
    var q := TermsFor(t, scene, f, option, Exact(t, scene, f, option));
    EvidenceCovers(t, scene, f, option, Exact(t, scene, f, option));
  }

  lemma EvidenceCovers(t: Texts, scene: Scene, f: Facets, option: ActionOption, exact: bool)
    requires FacetsHold(f) && Hits(t, scene, option, exact, TermsFor(t, scene, f, option, exact))
    ensures MatchedBy(TermsFor(t, scene, f, option, exact)) <= f.tokens * Evidence(t, scene, f.common, option)
    ensures MatchedBy(TermsFor(t, scene, f, option, exact)) == {} ==> exact
  {
    var q := TermsFor(t, scene, f, option, exact);
    assert q.overlap <= f.tokens * TargetTokens(t, scene, f, option);
    assert q.roles <= f.tokens * Tokens(t, Role(t, scene, option));
    assert q.operations <= f.tokens * Tokens(t, t.normalize(option.action));
    assert q.overlap <= MatchedBy(q) && q.roles <= MatchedBy(q) && q.operations <= MatchedBy(q);
  }

  /** Coverage is a proper fraction, and it is complete exactly when every target term was found. */
  lemma CoverageIs(t: Texts, scene: Scene, f: Facets, option: ActionOption, exact: bool)
    ensures var q := TermsFor(t, scene, f, option, exact);
            0.0 <= Coverage(q) <= 1.0 && (Coverage(q) == 1.0 <==> q.targets <= TargetTokens(t, scene, f, option))
  {
    var q := TermsFor(t, scene, f, option, exact);
    SubsetSize(q.overlap, q.targets);
    if q.targets != {} {
      FractionIs(|q.overlap|, |q.targets|);
    }
  }

  lemma SubsetSize(a: set<string>, b: set<string>)
    requires a <= b
    ensures |a| <= |b| && (|a| == |b| <==> a == b)
  {
    assert b == a + (b - a);
    assert |b| == |a| + |b - a|;
  }

  lemma FractionIs(a: nat, b: nat)
    requires a <= b && b > 0
    ensures 0.0 <= (a as real) / (b as real) <= 1.0 && ((a as real) / (b as real) == 1.0 <==> a == b)
  {
    var r := (a as real) / (b as real);
    assert r * (b as real) == a as real;
  }

  /** The terms left over: exactly the query tokens nothing matched, each once, in query order. */
  lemma UnmatchedAreTheRest(t: Texts, query: string, matched: set<string>)
    ensures forall token :: token in Unmatched(t, query, matched) <==> token in t.words(query) && token !in matched
    ensures InOrderOf(Unmatched(t, query, matched), t.words(query))
  {
    var keep := (token: string) => token !in matched;
    UniqueIs(t.words(query));
    FilterIs(keep, Unique(t.words(query)));
    FilteredUniqueKeepsOrder(keep, t.words(query));
  }

  ghost predicate Witnessed(t: Texts, scene: Scene, common: set<string>, options: seq<ActionOption>, token: string) {
    exists x :: x in options && token in Evidence(t, scene, common, x)
  }

  lemma HitIsEvidence(t: Texts, scene: Scene, f: Facets, item: Item, token: string)
    requires FacetsHold(f) && Judged(Judge(t, scene, f), item) && token in Judge(t, scene, f)(item.option).matched
    ensures token in Evidence(t, scene, f.common, item.option)
  {
    MatchedIsEvidence(t, scene, f, item.option);
  }

  lemma MatchesAreWitnessed(t: Texts, scene: Scene, options: seq<ActionOption>, query: string, token: string)
    requires token in SplitOf(t, scene, options, query).matched
    ensures Witnessed(t, scene, CommonPathTokens(t, scene, options),
                      Map(OptionOfItem, SplitOf(t, scene, options, query).prioritized), token)
  {
    var f := FacetsOf(t, scene, options, query);
    JudgeOwns(t, scene, f);
    var k := SourceOf(Judge(t, scene, f), options, token);
    var items := SplitOf(t, scene, options, query).prioritized;
    HitIsEvidence(t, scene, f, items[k], token);
    assert Map(OptionOfItem, items)[k] == items[k].option;
  }

  /** The options are split exactly, and the prioritised ones are in key order. */
  lemma PartitionSplits(t: Texts, scene: Scene, options: seq<ActionOption>, query: string)
    ensures var s := SplitOf(t, scene, options, query);
            && multiset(Map(OptionOfItem, Sorted(KeyLess, s.prioritized))) + multiset(s.remainder) == multiset(options)
            && Ordered(KeyLess, Sorted(KeyLess, s.prioritized))
            && forall item | item in Sorted(KeyLess, s.prioritized) ::
                 Judged(Judge(t, scene, FacetsOf(t, scene, options, query)), item)
  {
    var judge := Judge(t, scene, FacetsOf(t, scene, options, query));
    var items := SplitOf(t, scene, options, query).prioritized;
    JudgeOwns(t, scene, FacetsOf(t, scene, options, query));
    SplitKeepsAll(judge, options);
    SplitIsJudged(judge, options);
    KeyIsAnOrder();
    SortedOrders(KeyLess, items);
    SortedPermutes(KeyLess, items);
    MapPermutes(OptionOfItem, Sorted(KeyLess, items), items);
    forall item | item in Sorted(KeyLess, items) ensures Judged(judge, item) {
      assert item in multiset(Sorted(KeyLess, items));
    }
  }

  /**
   A query splits the options exactly. Every query token is witnessed by a prioritised option or reported as unmatched;
   a reported one was matched by none, and the reported ones keep the order of the query.
   */
  lemma PartitionIsExact(t: Texts, scene: Scene, options: seq<ActionOption>, rawQuery: string)
    requires PartitionOf(t, scene, options, rawQuery).Ok? && t.normalize(rawQuery) != []
    ensures var query := t.normalize(rawQuery);
            var p := PartitionOf(t, scene, options, rawQuery).value;
            && multiset(p.prioritized) + multiset(p.remainder) == multiset(options)
            && (forall token | token in t.words(query) ::
                  token in p.unmatched
                    || Witnessed(t, scene, CommonPathTokens(t, scene, options), p.prioritized, token))
            && (forall token | token in p.unmatched ::
                  token in t.words(query) && token !in SplitOf(t, scene, options, query).matched)
            && InOrderOf(p.unmatched, t.words(query))
  {
    var query := t.normalize(rawQuery);
    var p := PartitionOf(t, scene, options, rawQuery).value;
    var s := SplitOf(t, scene, options, query);
    PartitionSplits(t, scene, options, query);
    UnmatchedAreTheRest(t, query, s.matched);
    SortedPermutes(KeyLess, s.prioritized);
    MapPermutes(OptionOfItem, Sorted(KeyLess, s.prioritized), s.prioritized);
    forall token | token in t.words(query) && token !in p.unmatched
      ensures Witnessed(t, scene, CommonPathTokens(t, scene, options), p.prioritized, token)
    {
      MatchesAreWitnessed(t, scene, options, query, token);
      SameWitness(t, scene, CommonPathTokens(t, scene, options), Map(OptionOfItem, s.prioritized), p.prioritized,
                  token);
    }
  }

  lemma SameWitness(t: Texts, scene: Scene, common: set<string>, a: seq<ActionOption>, b: seq<ActionOption>,
                    token: string)
    requires multiset(a) == multiset(b) && Witnessed(t, scene, common, a, token)
    ensures Witnessed(t, scene, common, b, token)
  {
    var x :| x in a && token in Evidence(t, scene, common, x);
    assert x in multiset(a);
  }
}
