/** Which options a query recalls and in which order, word by word, without the facets the loop computes. */
module RecallMeaning {
  import opened Wrappers
  import opened Lexicographic
  import opened Sequences
  import opened PhraseMatch
  import opened ActionSpaceContracts
  import opened ActionRecall

  /** The inventory a query is put to. */
  datatype Inventory = Inventory(t: Texts, scene: Scene, options: seq<ActionOption>, query: string)

  // ---- words ----

  ghost predicate Asked(v: Inventory, word: string) {
    word in v.t.words(v.query)
  }

  ghost predicate OnLabel(v: Inventory, x: ActionOption, word: string) {
    word in v.t.words(Label(v.t, v.scene, x))
  }

  ghost predicate OnPath(v: Inventory, x: ActionOption, word: string) {
    word in v.t.words(v.t.join(Path(v.t, v.scene, x)))
  }

  /** An option of the page itself, as opposed to one of the browser around it, that says where it is. */
  ghost predicate HasPagePath(v: Inventory, x: ActionOption) {
    Role(v.t, v.scene, x) != "browser_context" && exists word :: OnPath(v, x, word)
  }

  ghost predicate SeveralPages(v: Inventory) {
    exists i, j :: 0 <= i < j < |v.options| && HasPagePath(v, v.options[i]) && HasPagePath(v, v.options[j])
  }

  /** The word is on the path of every page option, of which there are several: it tells none of them apart. */
  ghost predicate PageAncestry(v: Inventory, word: string) {
    SeveralPages(v) && forall x | x in v.options && HasPagePath(v, x) :: OnPath(v, x, word)
  }

  /** The query word occurs on the option where a target can be recognised. */
  ghost predicate Found(v: Inventory, x: ActionOption, word: string) {
    OnLabel(v, x, word) || (OnPath(v, x, word) && !PageAncestry(v, word))
  }

  // ---- what each query word asks for ----

  /** The label is the query, or one of them occurs in the other as whole words. */
  ghost predicate NamesExactly(v: Inventory, x: ActionOption) {
    Label(v.t, v.scene, x) != [] && v.query != [] && Matches(v.t.isAlnum, Label(v.t, v.scene, x), v.query)
  }

  /** A word of an exact label belongs to the option that has the label. */
  ghost predicate Owned(v: Inventory, x: ActionOption, word: string) {
    NamesExactly(v, x) && OnLabel(v, x, word)
  }

  ghost predicate SomeRole(v: Inventory, word: string) {
    exists y :: y in v.options && word in v.t.words(Text(v.scene.roles, y.target))
  }

  ghost predicate SomeOperation(v: Inventory, word: string) {
    exists y :: y in v.options && word in v.t.words(y.action)
  }

  ghost predicate AsksForRole(v: Inventory, x: ActionOption, word: string) {
    Asked(v, word) && SomeRole(v, word) && !Owned(v, x, word)
  }

  ghost predicate AsksForOperation(v: Inventory, x: ActionOption, word: string) {
    Asked(v, word) && SomeOperation(v, word) && !Owned(v, x, word)
  }

  ghost predicate AsksForTarget(v: Inventory, x: ActionOption, word: string) {
    Asked(v, word) && (Owned(v, x, word) || (!SomeRole(v, word) && !SomeOperation(v, word)))
  }

  /** The option has every role and operation asked for, and some word of the target if any is asked for. */
  ghost predicate Recalled(v: Inventory, x: ActionOption) {
    && (forall word | AsksForRole(v, x, word) :: word in v.t.words(Role(v.t, v.scene, x)))
    && (forall word | AsksForOperation(v, x, word) :: word in v.t.words(v.t.normalize(x.action)))
    && if exists word :: AsksForTarget(v, x, word) then exists word :: AsksForTarget(v, x, word) && Found(v, x, word)
       else || (exists word :: AsksForRole(v, x, word) || AsksForOperation(v, x, word))
            || NamesExactly(v, x)
  }

  // ---- the order ----

  ghost function TargetWords(v: Inventory, x: ActionOption): set<string> {
    set word | word in v.t.words(v.query) && AsksForTarget(v, x, word)
  }

  ghost function FoundWords(v: Inventory, x: ActionOption): set<string> {
    set word | word in v.t.words(v.query) && AsksForTarget(v, x, word) && Found(v, x, word)
  }

  ghost function RoleWords(v: Inventory, x: ActionOption): set<string> {
    set word | word in v.t.words(v.query) && AsksForRole(v, x, word)
  }

  ghost function OperationWords(v: Inventory, x: ActionOption): set<string> {
    set word | word in v.t.words(v.query) && AsksForOperation(v, x, word)
  }

  /** The part of the target words that is found; all of it where none is asked for. */
  ghost function FoundPart(v: Inventory, x: ActionOption): real {
    if TargetWords(v, x) == {} then 1.0 else (|FoundWords(v, x)| as real) / (|TargetWords(v, x)| as real)
  }

  ghost function FacetCount(v: Inventory, x: ActionOption): nat {
    |RoleWords(v, x)| + |OperationWords(v, x)|
  }

  /** Focused before in view before the rest. */
  ghost function Place(v: Inventory, x: ActionOption): nat {
    if x.target in v.scene.focused then 0 else if x.target in v.scene.viewport then 1 else 2
  }

  /** What an option is ordered by. */
  ghost function KeyOf(v: Inventory, x: ActionOption): Item {
    Item(FoundPart(v, x), if NamesExactly(v, x) then 1 else 0, |FoundWords(v, x)|, FacetCount(v, x), Place(v, x),
         PublicOrder(v.t, v.scene, x), x)
  }

  /**
   What comes first: more of the target, an exact label, more words found, more facets, the nearer place, and at last
   the public texts, from their first difference on.
   */
  ghost predicate Ahead(a: Item, b: Item) {
    || a.coverage > b.coverage
    || (a.coverage == b.coverage && a.exact > b.exact)
    || (a.coverage == b.coverage && a.exact == b.exact && a.overlap > b.overlap)
    || (a.coverage == b.coverage && a.exact == b.exact && a.overlap == b.overlap && AheadInPlace(a, b))
  }

  ghost predicate AheadInPlace(a: Item, b: Item) {
    || a.facets > b.facets
    || (a.facets == b.facets && a.structural < b.structural)
    || (a.facets == b.facets && a.structural == b.structural && FirstDifference(StringsLess, a.order, b.order))
  }

  lemma AheadIsKeyLess(a: Item, b: Item)
    ensures KeyLess(a, b) <==> Ahead(a, b)
  {
    PrecedesAtFirstDifference(StringsLess, a.order, b.order);
  }

  /** The public facts of a target, blank where there are none. */
  lemma FactsAre(t: Texts, scene: Scene, x: ActionOption)
    ensures Label(t, scene, x) == t.normalize(if x.target in scene.labels.Keys then scene.labels[x.target] else "")
    ensures Role(t, scene, x) == t.normalize(if x.target in scene.roles.Keys then scene.roles[x.target] else "")
    ensures x.target !in scene.paths ==> Path(t, scene, x) == []
    ensures x.target in scene.paths ==>
              var path := scene.paths[x.target];
              && |Path(t, scene, x)| == |path|
              && forall k | 0 <= k < |path| :: Path(t, scene, x)[k] == t.normalize(path[k])
    ensures PublicOrder(t, scene, x)
         == [Path(t, scene, x)] + [[Label(t, scene, x)]] + [[Role(t, scene, x)]] + [[t.normalize(x.action)]]
            + [[t.schemaText(x)]]
  {
  }

  // ---- the facets of the loop are these words ----

  lemma {:induction false} IntersectionIs(sets: seq<set<string>>, word: string)
    requires sets != []
    ensures word in Intersection(sets) <==> forall k | 0 <= k < |sets| :: word in sets[k]
  {
    if |sets| > 1 {
      IntersectionIs(sets[..|sets| - 1], word);
    }
  }

  lemma OnPageIs(v: Inventory, x: ActionOption)
    ensures OnPage(v.t, v.scene, x) <==> HasPagePath(v, x)
    ensures forall word :: word in PathTokens(v.t, v.scene, x) <==> OnPath(v, x, word)
  {
    var tokens := PathTokens(v.t, v.scene, x);
    if tokens != {} {
      var word :| word in tokens;
      assert OnPath(v, x, word);
    }
    if word :| OnPath(v, x, word) {
      assert word in tokens;
    }
  }

  lemma {:induction false} SeveralFiltered(p: ActionOption -> bool, s: seq<ActionOption>)
    ensures |Filter(p, s)| == 0 <==> forall i | 0 <= i < |s| :: !p(s[i])
    ensures |Filter(p, s)| > 1 <==> exists i, j :: 0 <= i < j < |s| && p(s[i]) && p(s[j])
  {
    if s == [] {
    } else {
      var front, last := s[..|s| - 1], |s| - 1;
      SeveralFiltered(p, front);
      if i, j :| 0 <= i < j < |front| && p(front[i]) && p(front[j]) {
        assert p(s[i]) && p(s[j]);
      }
      if i, j :| 0 <= i < j < |s| && p(s[i]) && p(s[j]) {
        if j < last {
          assert p(front[i]) && p(front[j]);
        } else {
          assert p(front[i]);
        }
      }
      if p(s[last]) && |Filter(p, front)| > 0 {
        var i :| 0 <= i < |front| && p(front[i]);
        assert p(s[i]) && p(s[last]);
      }
    }
  }

  lemma PagesAre(v: Inventory, pages: seq<ActionOption>)
    requires pages == Filter((x: ActionOption) => OnPage(v.t, v.scene, x), v.options)
    ensures |pages| > 1 <==> SeveralPages(v)
    ensures forall x :: x in pages <==> x in v.options && HasPagePath(v, x)
  {
    var p := (x: ActionOption) => OnPage(v.t, v.scene, x);
    forall x ensures p(x) <==> HasPagePath(v, x) {
      OnPageIs(v, x);
    }
    SeveralFiltered(p, v.options);
    FilterIs(p, v.options);
  }

  lemma AncestryIs(v: Inventory, word: string)
    ensures word in CommonPathTokens(v.t, v.scene, v.options) <==> PageAncestry(v, word)
  {
    var pages := Filter((x: ActionOption) => OnPage(v.t, v.scene, x), v.options);
    var paths := PagePaths(v.t, v.scene, v.options);
    PagesAre(v, pages);
    assert |paths| == |pages|;
    if |pages| > 1 {
      AncestryOfPages(v, pages, word);
      IntersectionIs(paths, word);
      forall k | 0 <= k < |pages| ensures word in paths[k] <==> OnPath(v, pages[k], word) {
        OnPageIs(v, pages[k]);
      }
    }
  }

  lemma AncestryOfPages(v: Inventory, pages: seq<ActionOption>, word: string)
    requires forall x :: x in pages <==> x in v.options && HasPagePath(v, x)
    ensures (forall k | 0 <= k < |pages| :: OnPath(v, pages[k], word)) <==>
              forall x | x in v.options && HasPagePath(v, x) :: OnPath(v, x, word)
  {
    forall k | 0 <= k < |pages| ensures pages[k] in pages {
    }
  }

  lemma VocabulariesAre(v: Inventory, word: string)
    ensures word in RoleVocabulary(v.t, v.scene, v.options) <==> SomeRole(v, word)
    ensures word in OperationVocabulary(v.t, v.options) <==> SomeOperation(v, word)
  {
    if y :| y in v.options && word in v.t.words(Text(v.scene.roles, y.target)) {
      assert word in Tokens(v.t, Text(v.scene.roles, y.target));
    }
    if y :| y in v.options && word in v.t.words(y.action) {
      assert word in Tokens(v.t, y.action);
    }
  }

  ghost function FacetsFor(v: Inventory): Facets {
    FacetsOf(v.t, v.scene, v.options, v.query)
  }

  lemma FacetsAre(v: Inventory, word: string)
    ensures var f := FacetsFor(v);
            && (word in f.tokens <==> Asked(v, word))
            && (word in f.roles <==> Asked(v, word) && SomeRole(v, word))
            && (word in f.operations <==> Asked(v, word) && SomeOperation(v, word))
            && (word in f.common <==> PageAncestry(v, word))
  {
    AncestryIs(v, word);
    VocabulariesAre(v, word);
  }

  ghost function TermsOf(v: Inventory, x: ActionOption): QueryTerms {
    TermsFor(v.t, v.scene, FacetsFor(v), x, Exact(v.t, v.scene, FacetsFor(v), x))
  }

  lemma ExactIs(v: Inventory, x: ActionOption)
    ensures Exact(v.t, v.scene, FacetsFor(v), x) <==> NamesExactly(v, x)
  {
  }

  lemma WordIs(v: Inventory, x: ActionOption, word: string)
    ensures var q := TermsOf(v, x);
            && (word in q.roles <==> AsksForRole(v, x, word))
            && (word in q.operations <==> AsksForOperation(v, x, word))
            && (word in q.targets <==> AsksForTarget(v, x, word))
            && (word in q.overlap <==> AsksForTarget(v, x, word) && Found(v, x, word))
  {
    FacetsAre(v, word);
    ExactIs(v, x);
    OnPageIs(v, x);
  }

  lemma TermsAre(v: Inventory, x: ActionOption)
    ensures var q := TermsOf(v, x);
            && q.roles == RoleWords(v, x) && q.operations == OperationWords(v, x)
            && q.targets == TargetWords(v, x) && q.overlap == FoundWords(v, x)
  {
    forall word ensures var q := TermsOf(v, x);
                        && (word in q.roles <==> word in RoleWords(v, x))
                        && (word in q.operations <==> word in OperationWords(v, x))
                        && (word in q.targets <==> word in TargetWords(v, x))
                        && (word in q.overlap <==> word in FoundWords(v, x))
    {
      WordIs(v, x, word);
    }
  }

  ghost function JudgeOf(v: Inventory): ActionOption -> Verdict {
    Judge(v.t, v.scene, FacetsFor(v))
  }

  /** The loop's test, on the words of the query. */
  lemma HitIsRecalled(v: Inventory, x: ActionOption)
    ensures Hits(v.t, v.scene, x, NamesExactly(v, x),
                 QueryTerms(RoleWords(v, x), OperationWords(v, x), TargetWords(v, x), FoundWords(v, x)))
       <==> Recalled(v, x)
  {
    assert forall word :: word in RoleWords(v, x) <==> AsksForRole(v, x, word);
    assert forall word :: word in OperationWords(v, x) <==> AsksForOperation(v, x, word);
    assert forall word :: word in TargetWords(v, x) <==> AsksForTarget(v, x, word);
    assert forall word :: word in FoundWords(v, x) <==> AsksForTarget(v, x, word) && Found(v, x, word);
  }

  /** The query's terms for an option, as the words they are. */
  ghost function WordsOf(v: Inventory, x: ActionOption): QueryTerms {
    QueryTerms(RoleWords(v, x), OperationWords(v, x), TargetWords(v, x), FoundWords(v, x))
  }

  lemma KeyIs(v: Inventory, x: ActionOption)
    ensures ItemOf(v.t, v.scene, x, NamesExactly(v, x), WordsOf(v, x), Coverage(WordsOf(v, x))) == KeyOf(v, x)
  {
  }

  lemma VerdictUnfolds(t: Texts, scene: Scene, f: Facets, x: ActionOption, exact: bool, q: QueryTerms)
    requires exact == Exact(t, scene, f, x) && q == TermsFor(t, scene, f, x, exact)
    ensures Judge(t, scene, f)(x) == if Hits(t, scene, x, exact, q)
                                     then Hit(ItemOf(t, scene, x, exact, q, Coverage(q)), MatchedBy(q))
                                     else Miss
  {
  }

  /** One option is recalled by the rule above, and its sort key is made of its words. */
  lemma VerdictIs(v: Inventory, x: ActionOption)
    ensures JudgeOf(v)(x) == if Recalled(v, x) then Hit(KeyOf(v, x), MatchedBy(WordsOf(v, x))) else Miss
  {
    ExactIs(v, x);
    TermsAre(v, x);
    HitIsRecalled(v, x);
    KeyIs(v, x);
    VerdictUnfolds(v.t, v.scene, FacetsFor(v), x, NamesExactly(v, x), WordsOf(v, x));
  }

  // ---- the partition ----

  lemma {:induction false} SplitFilters(judge: ActionOption -> Verdict, options: seq<ActionOption>)
    requires forall x :: OwnItem(judge, x)
    ensures SplitBy(judge, options).remainder == Filter((x: ActionOption) => judge(x).Miss?, options)
    ensures Map(OptionOfItem, SplitBy(judge, options).prioritized)
         == Filter((x: ActionOption) => judge(x).Hit?, options)
  {
    if options == [] {
    } else {
      var front, last := options[..|options| - 1], options[|options| - 1];
      SplitFilters(judge, front);
      assert OwnItem(judge, last);
      if judge(last).Hit? {
        MapConcat(OptionOfItem, SplitBy(judge, front).prioritized, [judge(last).item]);
      }
    }
  }

  /** The query words nothing recalled accounts for. */
  ghost predicate AccountsFor(v: Inventory, x: ActionOption, word: string) {
    || AsksForRole(v, x, word) || AsksForOperation(v, x, word)
    || (AsksForTarget(v, x, word) && Found(v, x, word))
  }

  lemma SameMembers<A>(a: seq<A>, b: seq<A>)
    requires multiset(a) == multiset(b)
    ensures forall x :: x in a <==> x in b
  {
    assert forall x :: x in a <==> x in multiset(a);
    assert forall x :: x in b <==> x in multiset(b);
  }

  lemma PrioritizedAre(v: Inventory, s: Split)
    requires s == SplitOf(v.t, v.scene, v.options, v.query)
    ensures var items := Sorted(KeyLess, s.prioritized);
            && (forall x :: x in Map(OptionOfItem, items) <==> x in v.options && JudgeOf(v)(x).Hit?)
            && (forall item | item in items :: Judged(JudgeOf(v), item))
            && Ordered(KeyLess, items)
  {
    PartitionSplits(v.t, v.scene, v.options, v.query);
    JudgeOwns(v.t, v.scene, FacetsFor(v));
    SplitMembers(JudgeOf(v), v.options);
    SortedPermutes(KeyLess, s.prioritized);
    MapPermutes(OptionOfItem, Sorted(KeyLess, s.prioritized), s.prioritized);
    SameMembers(Map(OptionOfItem, Sorted(KeyLess, s.prioritized)), Map(OptionOfItem, s.prioritized));
  }

  lemma SplitMembers(judge: ActionOption -> Verdict, options: seq<ActionOption>)
    requires forall x :: OwnItem(judge, x)
    ensures forall x :: x in Map(OptionOfItem, SplitBy(judge, options).prioritized) <==> x in options && judge(x).Hit?
  {
    SplitFilters(judge, options);
    FilterIs((x: ActionOption) => judge(x).Hit?, options);
  }

  lemma PrioritizedInOrder(v: Inventory, items: seq<Item>)
    requires Ordered(KeyLess, items)
    requires forall item | item in items :: Judged(JudgeOf(v), item)
    ensures forall i, j | 0 <= i < j < |items| :: !Ahead(KeyOf(v, items[j].option), KeyOf(v, items[i].option))
  {
    forall i, j | 0 <= i < j < |items| ensures !Ahead(KeyOf(v, items[j].option), KeyOf(v, items[i].option)) {
      assert items[i] in items && items[j] in items;
      VerdictIs(v, items[i].option);
      VerdictIs(v, items[j].option);
      AheadIsKeyLess(items[j], items[i]);
    }
  }

  lemma WordsAccountFor(v: Inventory, x: ActionOption, word: string)
    ensures word in MatchedBy(WordsOf(v, x)) <==> AccountsFor(v, x, word)
  {
  }

  lemma MatchedIs(v: Inventory, x: ActionOption, word: string)
    requires Recalled(v, x)
    ensures JudgeOf(v)(x).Hit? && (word in JudgeOf(v)(x).matched <==> AccountsFor(v, x, word))
  {
    VerdictIs(v, x);
    WordsAccountFor(v, x, word);
  }

  lemma RecalledItem(v: Inventory, x: ActionOption) returns (item: Item)
    requires x in v.options && Recalled(v, x)
    ensures item in SplitOf(v.t, v.scene, v.options, v.query).prioritized && item.option == x
    ensures Judged(JudgeOf(v), item)
  {
    var judge, items := JudgeOf(v), SplitOf(v.t, v.scene, v.options, v.query).prioritized;
    JudgeOwns(v.t, v.scene, FacetsFor(v));
    SplitMembers(judge, v.options);
    VerdictIs(v, x);
    assert x in Map(OptionOfItem, items);
    var k :| 0 <= k < |items| && items[k].option == x;
    item := items[k];
    SplitIsJudged(judge, v.options);
  }

  lemma ItemIsRecalled(v: Inventory, item: Item)
    requires item in SplitOf(v.t, v.scene, v.options, v.query).prioritized
    ensures item.option in v.options && Recalled(v, item.option)
  {
    var judge, items := JudgeOf(v), SplitOf(v.t, v.scene, v.options, v.query).prioritized;
    JudgeOwns(v.t, v.scene, FacetsFor(v));
    SplitMembers(judge, v.options);
    var k :| 0 <= k < |items| && items[k] == item;
    assert Map(OptionOfItem, items)[k] == item.option;
    VerdictIs(v, item.option);
  }

  /** The words a recalled option accounts for are those its verdict reports as matched. */
  lemma MatchedWord(v: Inventory, word: string)
    ensures word in SplitOf(v.t, v.scene, v.options, v.query).matched <==>
              exists x :: x in v.options && Recalled(v, x) && AccountsFor(v, x, word)
  {
    var judge, s := JudgeOf(v), SplitOf(v.t, v.scene, v.options, v.query);
    JudgeOwns(v.t, v.scene, FacetsFor(v));
    MatchedHasSource(judge, v.options, word);
    if x :| x in v.options && Recalled(v, x) && AccountsFor(v, x, word) {
      var item := RecalledItem(v, x);
      MatchedIs(v, x, word);
    }
    if item :| item in s.prioritized && Judged(judge, item) && word in judge(item.option).matched {
      ItemIsRecalled(v, item);
      MatchedIs(v, item.option, word);
    }
  }

  /** A query of more than 240 characters is an error, and a blank one leaves the options as they are. */
  lemma QueriesAre(v: Inventory, raw: string)
    ensures PartitionOf(v.t, v.scene, v.options, raw) == Raised <==> |raw| >= 241
    ensures |raw| <= 240 && v.t.normalize(raw) == "" ==>
              PartitionOf(v.t, v.scene, v.options, raw) == Ok(Partition(v.options, [], []))
  {
  }

  /**
   A query recalls exactly the options that meet it, none before one that is ahead of it; leaves the others in the order
   they had; and reports exactly the query words that no recalled option accounts for.
   */
  lemma RecallIs(v: Inventory, raw: string)
    requires PartitionOf(v.t, v.scene, v.options, raw).Ok? && v.query == v.t.normalize(raw) != []
    ensures var p := PartitionOf(v.t, v.scene, v.options, raw).value;
            && (forall x :: x in p.prioritized <==> x in v.options && Recalled(v, x))
            && (forall i, j | 0 <= i < j < |p.prioritized| ::
                  !Ahead(KeyOf(v, p.prioritized[j]), KeyOf(v, p.prioritized[i])))
            && p.remainder == Filter((x: ActionOption) => JudgeOf(v)(x).Miss?, v.options)
            && (forall x :: JudgeOf(v)(x).Miss? <==> !Recalled(v, x))
            && (forall word :: word in p.unmatched <==>
                  Asked(v, word) && forall x | x in v.options && Recalled(v, x) :: !AccountsFor(v, x, word))
  {
    var judge, s := JudgeOf(v), SplitOf(v.t, v.scene, v.options, v.query);
    var p := PartitionOf(v.t, v.scene, v.options, raw).value;
    forall x ensures judge(x).Hit? <==> Recalled(v, x) {
      VerdictIs(v, x);
    }
    JudgeOwns(v.t, v.scene, FacetsFor(v));
    SplitFilters(judge, v.options);
    PrioritizedAre(v, s);
    PrioritizedInOrder(v, Sorted(KeyLess, s.prioritized));
    UnmatchedAreTheRest(v.t, v.query, s.matched);
    forall word ensures word in p.unmatched <==>
        Asked(v, word) && forall x | x in v.options && Recalled(v, x) :: !AccountsFor(v, x, word)
    {
      MatchedWord(v, word);
    }
  }
}
