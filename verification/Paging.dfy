/** Delivering a ranked action space page by page. */
module Paging {
  import opened Wrappers
  import opened Sequences
  import opened ActionSpaceContracts

  /** One deliverable route: an option, with the destination it would take when it needs one. */
  datatype Row = Row(option: ActionOption, destination: string)

  /** An option on a page with the destinations of its rows there. */
  datatype Shown = Shown(option: ActionOption, chosen: seq<string>)

  datatype Listed = Listed(id: string, destinations: seq<string>)

  datatype Page = Page(
    ids: seq<string>,
    destinations: seq<Listed>,
    total: nat,
    routeCount: nat,
    hasMore: bool,
    cursor: string,
    nextCursor: string,
    offset: nat)

  /** The text form of an offset, bound to the fingerprint of the paging arguments. */
  datatype Codec = Codec(encode: (nat, string) -> string, decode: (string, string) -> Option<nat>)

  /** Decoding with the same fingerprint inverts encoding, and no cursor is blank. */
  ghost predicate Inverts(codec: Codec) {
    forall n: nat, f: string ::
      codec.encode(n, f) != "" && codec.decode(codec.encode(n, f), f) == Some(n)
  }

  // ---- _route_rows ----

  function RowsOf(option: ActionOption): seq<Row> {
    if option.terms.required then Map((d: string) => Row(option, d), option.destinations) else [Row(option, "")]
  }

  function RouteRows(ranked: seq<ActionOption>): seq<Row> {
    if ranked == [] then [] else RouteRows(ranked[..|ranked| - 1]) + RowsOf(ranked[|ranked| - 1])
  }

  method CollectRows(ranked: seq<ActionOption>) returns (rows: seq<Row>)
    ensures rows == RouteRows(ranked)
  {
    rows := [];
    for n := 0 to |ranked|
      invariant rows == RouteRows(ranked[..n])
    {
      assert ranked[..n + 1][..n] == ranked[..n];
      rows := rows + RowsOf(ranked[n]);
    }
    assert ranked[..|ranked|] == ranked;
  }

  // ---- one page ----

  function ShownIndex(shown: seq<Shown>, id: string): (i: nat)
    ensures i <= |shown|
    ensures i < |shown| ==> shown[i].option.id == id
    ensures i == |shown| ==> forall k | 0 <= k < |shown| :: shown[k].option.id != id
  {
    FirstAt(Map(IdShown, shown), id)
  }

  function ChosenBy(row: Row): seq<string> {
    if row.destination != "" then [row.destination] else []
  }

  function AddRow(shown: seq<Shown>, row: Row): seq<Shown> {
    var i := ShownIndex(shown, row.option.id);
    if i < |shown| then shown[i := Shown(shown[i].option, shown[i].chosen + ChosenBy(row))]
    else shown + [Shown(row.option, ChosenBy(row))]
  }

  function ShownOf(rows: seq<Row>): seq<Shown> {
    if rows == [] then [] else AddRow(ShownOf(rows[..|rows| - 1]), rows[|rows| - 1])
  }

  method CollectShown(rows: seq<Row>) returns (shown: seq<Shown>)
    ensures shown == ShownOf(rows)
  {
    shown := [];
    for n := 0 to |rows|
      invariant shown == ShownOf(rows[..n])
    {
      assert rows[..n + 1][..n] == rows[..n];
      ghost var before := shown;
      var i := ShownIndex(shown, rows[n].option.id);
      if i == |shown| {
        shown := shown + [Shown(rows[n].option, [])];
      }
      if rows[n].destination != "" {
        shown := shown[i := Shown(shown[i].option, shown[i].chosen + [rows[n].destination])];
      }
      assert shown[i] == AddRow(before, rows[n])[i];
      assert shown == AddRow(before, rows[n]);
    }
    assert rows[..|rows|] == rows;
  }

  function IdShown(s: Shown): string {
    s.option.id
  }

  /** An option that needs a destination lists those of its rows; any other lists all it may take. */
  function ListedOf(s: Shown): Listed {
    Listed(s.option.id, if s.option.terms.required then s.chosen else s.option.destinations)
  }

  function End(offset: nat, limit: nat, total: nat): (end: nat)
    requires offset <= total
    ensures offset <= end <= total
    ensures limit > 0 && offset < total ==> offset < end
  {
    if offset + limit <= total then offset + limit else total
  }

  function PageFrom(codec: Codec, rows: seq<Row>, limit: nat, fingerprint: string, cursor: string, offset: nat): Page
    requires offset <= |rows|
  {
    var end := End(offset, limit, |rows|);
    var shown := ShownOf(rows[offset..end]);
    Page(Map(IdShown, shown), Map(ListedOf, shown), |rows|, end - offset, end < |rows|, cursor,
         if end < |rows| then codec.encode(end, fingerprint) else "", offset)
  }

  function OffsetOf(codec: Codec, fingerprint: string, cursor: string): Option<nat> {
    if cursor == "" then Some(0) else codec.decode(cursor, fingerprint)
  }

  /** The page at a cursor; an unreadable cursor, one past the end, or a limit that is not positive raises. */
  function PageOf(codec: Codec, ranked: seq<ActionOption>, limit: int, fingerprint: string, cursor: string)
    : Result<Page>
  {
    var offset := OffsetOf(codec, fingerprint, cursor);
    if limit <= 0 || offset.None? || offset.value > |RouteRows(ranked)| then Raised
    else Ok(PageFrom(codec, RouteRows(ranked), limit, fingerprint, cursor, offset.value))
  }

  /** `ActionPager.page` once the options are ranked. */
  method PageAt(codec: Codec, ranked: seq<ActionOption>, limit: int, fingerprint: string, cursor: string)
    returns (page: Result<Page>)
    ensures page == PageOf(codec, ranked, limit, fingerprint, cursor)
  {
    if limit <= 0 {
      return Raised;
    }
    var offset := OffsetOf(codec, fingerprint, cursor);
    if offset.None? {
      return Raised;
    }
    var rows := CollectRows(ranked);
    if offset.value > |rows| {
      return Raised;
    }
    var visible := rows[offset.value..End(offset.value, limit, |rows|)];
    var shown := CollectShown(visible);
    var next := offset.value + |visible|;
    var hasMore := next < |rows|;
    assert hasMore ==> visible != [];
    var nextCursor := if hasMore then codec.encode(next, fingerprint) else "";
    return Ok(Page(Map(IdShown, shown), Map(ListedOf, shown), |rows|, |visible|, hasMore, cursor, nextCursor,
                   offset.value));
  }

  /** The consistency checks of the page constructor. */
  ghost predicate ValidPage(p: Page) {
    && p.routeCount >= |p.ids|
    && p.total >= p.offset + p.routeCount
    && (p.hasMore <==> p.total > p.offset + p.routeCount)
    && (p.hasMore <==> p.nextCursor != "")
    && (forall i, j | 0 <= i < j < |p.ids| :: p.ids[i] != p.ids[j])
    && p.ids == Map((l: Listed) => l.id, p.destinations)
    && (forall i, j, k | 0 <= i < |p.destinations| && 0 <= j < k < |p.destinations[i].destinations| ::
          p.destinations[i].destinations[j] != p.destinations[i].destinations[k])
  }

  function ListedIndex(listed: seq<Listed>, id: string): (i: nat)
    ensures i <= |listed|
    ensures i < |listed| ==> listed[i].id == id
    ensures i == |listed| ==> forall k | 0 <= k < |listed| :: listed[k].id != id
  {
    FirstAt(Map((l: Listed) => l.id, listed), id)
  }

  /** `visible_destination_ids`. */
  function VisibleDestinations(p: Page, id: string): seq<string> {
    var i := ListedIndex(p.destinations, id);
    if i < |p.destinations| then p.destinations[i].destinations else []
  }

  /** `selection_issue` finds nothing. */
  predicate Selectable(p: Page, id: string, destination: string) {
    id in p.ids && (destination != "" ==> destination in VisibleDestinations(p, id))
  }
}

/** Following the cursors delivers everything once. */
module PagingTheorems {
  import opened Wrappers
  import opened Lexicographic
  import opened Sequences
  import opened ActionSpaceContracts
  import opened Paging

  ghost predicate CleanDestinations(option: ActionOption) {
    Distinct(option.destinations) && "" !in option.destinations
  }

  /** What the builder guarantees of the options it ranks. */
  ghost predicate Deliverable(ranked: seq<ActionOption>) {
    && (forall i, j | 0 <= i < j < |ranked| :: ranked[i].id != ranked[j].id)
    && (forall i | 0 <= i < |ranked| :: CleanDestinations(ranked[i]))
  }

  lemma FrontIsDeliverable(ranked: seq<ActionOption>)
    requires ranked != [] && Deliverable(ranked)
    ensures Deliverable(ranked[..|ranked| - 1])
  {
    var front := ranked[..|ranked| - 1];
    forall i | 0 <= i < |front| ensures CleanDestinations(front[i]) {
      assert front[i] == ranked[i];
    }
  }

  // ---- what is shown of some rows ----

  /** The destinations the rows give to one action, in order. */
  function Chosen(rows: seq<Row>, id: string): seq<string> {
    if rows == [] then []
    else
      Chosen(rows[..|rows| - 1], id)
      + (if rows[|rows| - 1].option.id == id then ChosenBy(rows[|rows| - 1]) else [])
  }

  function CountRows(rows: seq<Row>, id: string): nat {
    if rows == [] then 0
    else CountRows(rows[..|rows| - 1], id) + (if rows[|rows| - 1].option.id == id then 1 else 0)
  }

  lemma {:induction false} ChosenConcat(a: seq<Row>, b: seq<Row>, id: string)
    ensures Chosen(a + b, id) == Chosen(a, id) + Chosen(b, id)
    ensures CountRows(a + b, id) == CountRows(a, id) + CountRows(b, id)
  {
    if b == [] {
      assert a + b == a;
    } else {
      ChosenConcat(a, b[..|b| - 1], id);
      assert (a + b)[..|a + b| - 1] == a + b[..|b| - 1];
    }
  }

  ghost predicate ShownIs(s: Shown, rows: seq<Row>) {
    && s.chosen == Chosen(rows, s.option.id)
    && exists k :: 0 <= k < |rows| && rows[k].option == s.option
  }

  /** Each id of the rows is shown once, with the option of one of its rows and the destinations of all. */
  lemma {:induction false} ShownAre(rows: seq<Row>)
    ensures |ShownOf(rows)| <= |rows|
    ensures Distinct(Map(IdShown, ShownOf(rows)))
    ensures forall i | 0 <= i < |ShownOf(rows)| :: ShownIs(ShownOf(rows)[i], rows)
    ensures forall id :: ShownIndex(ShownOf(rows), id) < |ShownOf(rows)| <==> CountRows(rows, id) > 0
  {
    if rows == [] {
    } else {
      var front, row := rows[..|rows| - 1], rows[|rows| - 1];
      ShownAre(front);
      var before, after := ShownOf(front), ShownOf(rows);
      var at := ShownIndex(before, row.option.id);
      forall i | 0 <= i < |after| ensures ShownIs(after[i], rows) {
        ShownStep(rows, i);
      }
      forall i, j | 0 <= i < j < |after| ensures Map(IdShown, after)[i] != Map(IdShown, after)[j] {
        assert forall k | 0 <= k < |before| :: Map(IdShown, before)[k] == after[k].option.id;
      }
      forall id ensures ShownIndex(after, id) < |after| <==> CountRows(rows, id) > 0 {
        IndexStep(before, row, id);
      }
    }
  }

  lemma IndexStep(before: seq<Shown>, row: Row, id: string)
    ensures ShownIndex(AddRow(before, row), id) < |AddRow(before, row)| <==>
              ShownIndex(before, id) < |before| || row.option.id == id
  {
    var after := AddRow(before, row);
    var at, i := ShownIndex(before, row.option.id), ShownIndex(before, id);
    assert after[at].option.id == row.option.id;
    assert i < |before| ==> after[i].option.id == id;
  }

  lemma ShownStep(rows: seq<Row>, i: nat)
    requires rows != [] && i < |ShownOf(rows)|
    requires var front := rows[..|rows| - 1];
             && (forall k | 0 <= k < |ShownOf(front)| :: ShownIs(ShownOf(front)[k], front))
             && Distinct(Map(IdShown, ShownOf(front)))
             && forall id :: ShownIndex(ShownOf(front), id) < |ShownOf(front)| <==> CountRows(front, id) > 0
    ensures ShownIs(ShownOf(rows)[i], rows)
  {
    var front, row := rows[..|rows| - 1], rows[|rows| - 1];
    var before, s := ShownOf(front), ShownOf(rows)[i];
    if i < |before| {
      assert ShownIs(before[i], front);
      var k :| 0 <= k < |front| && front[k].option == before[i].option;
      assert rows[k].option == s.option;
      assert Map(IdShown, before)[i] == before[i].option.id;
      var at := ShownIndex(before, row.option.id);
      assert at < |before| ==> Map(IdShown, before)[at] == row.option.id;
    } else {
      NoRowsNoChoice(front, row.option.id);
      assert rows[|rows| - 1].option == s.option;
    }
  }

  lemma {:induction false} NoRowsNoChoice(rows: seq<Row>, id: string)
    requires CountRows(rows, id) == 0
    ensures Chosen(rows, id) == []
  {
    if rows == [] {
    } else {
      NoRowsNoChoice(rows[..|rows| - 1], id);
    }
  }

  // ---- what the rows of a ranking are ----

  ghost predicate OptionsFrom(rows: seq<Row>, ranked: seq<ActionOption>) {
    forall k | 0 <= k < |rows| :: rows[k].option in ranked
  }

  lemma {:induction false} RowsComeFrom(ranked: seq<ActionOption>)
    ensures OptionsFrom(RouteRows(ranked), ranked)
  {
    if ranked == [] {
    } else {
      RowsComeFrom(ranked[..|ranked| - 1]);
      assert ranked == ranked[..|ranked| - 1] + [ranked[|ranked| - 1]];
    }
  }

  function DestinationRows(option: ActionOption, destinations: seq<string>): seq<Row> {
    Map((d: string) => Row(option, d), destinations)
  }

  lemma {:induction false} ChosenOfDestinations(option: ActionOption, destinations: seq<string>, id: string)
    requires "" !in destinations
    ensures Chosen(DestinationRows(option, destinations), id) == if id == option.id then destinations else []
    ensures id != option.id ==> CountRows(DestinationRows(option, destinations), id) == 0
  {
    if destinations == [] {
    } else {
      var front, last := destinations[..|destinations| - 1], destinations[|destinations| - 1];
      assert destinations == front + [last];
      ChosenOfDestinations(option, front, id);
      var rows := DestinationRows(option, destinations);
      assert rows[..|rows| - 1] == DestinationRows(option, front);
    }
  }

  /** What the rows of one option choose for an id, and how many of them have it. */
  lemma ChosenOfOption(option: ActionOption, id: string)
    requires CleanDestinations(option)
    ensures Chosen(RowsOf(option), id) == if id == option.id && option.terms.required then option.destinations else []
    ensures id != option.id ==> CountRows(RowsOf(option), id) == 0
    ensures !option.terms.required && id == option.id ==> CountRows(RowsOf(option), id) == 1
  {
    if option.terms.required {
      ChosenOfDestinations(option, option.destinations, id);
      assert RowsOf(option) == DestinationRows(option, option.destinations);
    } else {
      assert [Row(option, "")][..0] == [];
      assert Chosen([Row(option, "")], id) == Chosen([], id) + [];
    }
  }

  lemma {:induction false} AbsentFromRows(ranked: seq<ActionOption>, id: string)
    requires forall i | 0 <= i < |ranked| :: ranked[i].id != id && CleanDestinations(ranked[i])
    ensures Chosen(RouteRows(ranked), id) == [] && CountRows(RouteRows(ranked), id) == 0
  {
    if ranked == [] {
    } else {
      var front, last := ranked[..|ranked| - 1], ranked[|ranked| - 1];
      AbsentFromRows(front, id);
      ChosenOfOption(last, id);
      LastOptionRows(ranked, id);
    }
  }

  lemma LastOptionRows(ranked: seq<ActionOption>, id: string)
    requires ranked != []
    ensures var front, last := ranked[..|ranked| - 1], ranked[|ranked| - 1];
            && Chosen(RouteRows(ranked), id) == Chosen(RouteRows(front), id) + Chosen(RowsOf(last), id)
            && CountRows(RouteRows(ranked), id) == CountRows(RouteRows(front), id) + CountRows(RowsOf(last), id)
  {
    ChosenConcat(RouteRows(ranked[..|ranked| - 1]), RowsOf(ranked[|ranked| - 1]), id);
  }

  /** What the rows give to the id of option `x`. */
  ghost predicate RowsGive(rows: seq<Row>, x: ActionOption) {
    && Chosen(rows, x.id) == (if x.terms.required then x.destinations else [])
    && (!x.terms.required ==> CountRows(rows, x.id) == 1)
  }

  lemma LastOptionGives(ranked: seq<ActionOption>, x: ActionOption)
    requires ranked != [] && CleanDestinations(ranked[|ranked| - 1])
    requires if x == ranked[|ranked| - 1] then
               Chosen(RouteRows(ranked[..|ranked| - 1]), x.id) == []
                 && CountRows(RouteRows(ranked[..|ranked| - 1]), x.id) == 0
             else x.id != ranked[|ranked| - 1].id && RowsGive(RouteRows(ranked[..|ranked| - 1]), x)
    ensures RowsGive(RouteRows(ranked), x)
  {
    LastOptionRows(ranked, x.id);
    ChosenOfOption(ranked[|ranked| - 1], x.id);
  }

  /**
   All rows together choose, for an option that needs a destination, exactly its destinations; any other has one
   row.
   */
  lemma {:induction false} RowsOfRanking(ranked: seq<ActionOption>, k: nat)
    requires Deliverable(ranked) && k < |ranked|
    ensures RowsGive(RouteRows(ranked), ranked[k])
  {
    var last := |ranked| - 1;
    FrontIsDeliverable(ranked);
    if k < last {
      RowsOfRanking(ranked[..last], k);
    } else {
      AbsentFromRows(ranked[..last], ranked[k].id);
    }
    LastOptionGives(ranked, ranked[k]);
  }

  // ---- pages ----

  lemma Segments(rows: seq<Row>, offset: nat, end: nat, id: string)
    requires offset <= end <= |rows|
    ensures Chosen(rows[offset..], id) == Chosen(rows[offset..end], id) + Chosen(rows[end..], id)
    ensures CountRows(rows[offset..], id) == CountRows(rows[offset..end], id) + CountRows(rows[end..], id)
    ensures Chosen(rows, id) == Chosen(rows[..offset], id) + Chosen(rows[offset..], id)
    ensures CountRows(rows, id) == CountRows(rows[..offset], id) + CountRows(rows[offset..], id)
  {
    assert rows[offset..] == rows[offset..end] + rows[end..];
    assert rows == rows[..offset] + rows[offset..];
    ChosenConcat(rows[offset..end], rows[end..], id);
    ChosenConcat(rows[..offset], rows[offset..], id);
  }

  lemma DistinctMiddle<A>(a: seq<A>, b: seq<A>, c: seq<A>)
    requires Distinct(a + (b + c))
    ensures Distinct(b)
  {
    forall i, j | 0 <= i < j < |b| ensures b[i] != b[j] {
      assert (a + (b + c))[|a| + i] == b[i] && (a + (b + c))[|a| + j] == b[j];
    }
  }

  ghost predicate PageRange(rows: seq<Row>, limit: nat, offset: nat) {
    offset <= |rows| && limit > 0
  }

  /** An option of a page lists exactly what the rows of the page chose for it, or all it may take. */
  lemma ListedAre(codec: Codec, ranked: seq<ActionOption>, limit: nat, fingerprint: string, cursor: string, offset: nat,
                  i: nat)
    returns (k: nat)
    requires PageRange(RouteRows(ranked), limit, offset)
    requires i < |PageFrom(codec, RouteRows(ranked), limit, fingerprint, cursor, offset).destinations|
    ensures var listed := PageFrom(codec, RouteRows(ranked), limit, fingerprint, cursor, offset).destinations[i];
            k < |ranked| && ranked[k].id == listed.id
            && listed.destinations ==
                 if ranked[k].terms.required then
                   Chosen(RouteRows(ranked)[offset..End(offset, limit, |RouteRows(ranked)|)], ranked[k].id)
                 else ranked[k].destinations
  {
    var rows := RouteRows(ranked);
    var segment := rows[offset..End(offset, limit, |rows|)];
    ShownAre(segment);
    RowsComeFrom(ranked);
    var s := ShownOf(segment)[i];
    assert ShownIs(s, segment);
    var r :| 0 <= r < |segment| && segment[r].option == s.option;
    assert rows[offset + r].option in ranked;
    k :| 0 <= k < |ranked| && ranked[k] == s.option;
  }

  /** No listed destination repeats. */
  lemma ListedAreDistinct(codec: Codec, ranked: seq<ActionOption>, limit: nat, fingerprint: string, cursor: string,
                          offset: nat, i: nat)
    requires Deliverable(ranked) && PageRange(RouteRows(ranked), limit, offset)
    requires i < |PageFrom(codec, RouteRows(ranked), limit, fingerprint, cursor, offset).destinations|
    ensures Distinct(PageFrom(codec, RouteRows(ranked), limit, fingerprint, cursor,
                              offset).destinations[i].destinations)
  {
    var rows := RouteRows(ranked);
    var end := End(offset, limit, |rows|);
    var k := ListedAre(codec, ranked, limit, fingerprint, cursor, offset, i);
    var listed := PageFrom(codec, rows, limit, fingerprint, cursor, offset).destinations[i];
    if ranked[k].terms.required {
      RowsOfRanking(ranked, k);
      Segments(rows, offset, end, ranked[k].id);
      DistinctMiddle(Chosen(rows[..offset], ranked[k].id), listed.destinations, Chosen(rows[end..], ranked[k].id));
    }
  }

  /** Every page that is returned passes the page constructor. */
  lemma PagesAreValid(codec: Codec, ranked: seq<ActionOption>, limit: int, fingerprint: string, cursor: string)
    requires Deliverable(ranked) && Inverts(codec)
    requires PageOf(codec, ranked, limit, fingerprint, cursor).Ok?
    ensures ValidPage(PageOf(codec, ranked, limit, fingerprint, cursor).value)
  {
    var rows, offset := RouteRows(ranked), OffsetOf(codec, fingerprint, cursor).value;
    var end := End(offset, limit, |rows|);
    var p := PageFrom(codec, rows, limit, fingerprint, cursor, offset);
    ShownAre(rows[offset..end]);
    forall i, j, k | 0 <= i < |p.destinations| && 0 <= j < k < |p.destinations[i].destinations|
      ensures p.destinations[i].destinations[j] != p.destinations[i].destinations[k]
    {
      ListedAreDistinct(codec, ranked, limit, fingerprint, cursor, offset, i);
    }
    assert Distinct(p.ids);
    assert codec.encode(end, fingerprint) != ""
      && codec.decode(codec.encode(end, fingerprint), fingerprint) == Some(end);
  }

  /** A page shows an action exactly when it has rows of it. */
  lemma PageIds(codec: Codec, rows: seq<Row>, limit: nat, fingerprint: string, cursor: string, offset: nat, id: string)
    requires PageRange(rows, limit, offset)
    ensures var p := PageFrom(codec, rows, limit, fingerprint, cursor, offset);
            && (id in p.ids <==> CountRows(rows[offset..End(offset, limit, |rows|)], id) > 0)
            && (id in p.ids <==> ListedIndex(p.destinations, id) < |p.destinations|)
  {
    var p := PageFrom(codec, rows, limit, fingerprint, cursor, offset);
    var shown := ShownOf(rows[offset..End(offset, limit, |rows|)]);
    ShownAre(rows[offset..End(offset, limit, |rows|)]);
    var at, i := ShownIndex(shown, id), ListedIndex(p.destinations, id);
    assert at < |shown| ==> p.ids[at] == id && p.destinations[at].id == id;
    assert i < |p.destinations| ==> shown[i].option.id == id && p.ids[i] == id;
    if id in p.ids {
      var m :| 0 <= m < |p.ids| && p.ids[m] == id;
      assert shown[m].option.id == id;
    }
  }

  /** What a page shows of one ranked option. */
  lemma PageShows(codec: Codec, ranked: seq<ActionOption>, limit: nat, fingerprint: string, cursor: string, offset: nat,
                  k: nat)
    requires Deliverable(ranked) && PageRange(RouteRows(ranked), limit, offset) && k < |ranked|
    ensures var p := PageFrom(codec, RouteRows(ranked), limit, fingerprint, cursor, offset);
            var segment := RouteRows(ranked)[offset..End(offset, limit, |RouteRows(ranked)|)];
            VisibleDestinations(p, ranked[k].id) ==
              if ranked[k].terms.required then Chosen(segment, ranked[k].id)
              else if CountRows(segment, ranked[k].id) > 0 then ranked[k].destinations
              else []
  {
    var p := PageFrom(codec, RouteRows(ranked), limit, fingerprint, cursor, offset);
    var id := ranked[k].id;
    PageIds(codec, RouteRows(ranked), limit, fingerprint, cursor, offset, id);
    var i := ListedIndex(p.destinations, id);
    if i < |p.destinations| {
      var found := ListedAre(codec, ranked, limit, fingerprint, cursor, offset, i);
      assert found == k;
    } else {
      NoRowsNoChoice(RouteRows(ranked)[offset..End(offset, limit, |RouteRows(ranked)|)], id);
    }
  }

  // ---- the walk ----

  /** The pages a caller gets by following the cursors with unchanged arguments. */
  ghost function Walk(codec: Codec, ranked: seq<ActionOption>, limit: nat, fingerprint: string, cursor: string)
    : seq<Page>
    requires Inverts(codec) && limit > 0
    requires PageOf(codec, ranked, limit, fingerprint, cursor).Ok?
    decreases |RouteRows(ranked)| - OffsetOf(codec, fingerprint, cursor).value
  {
    var p := PageOf(codec, ranked, limit, fingerprint, cursor).value;
    assert p.hasMore ==> OffsetOf(codec, fingerprint, p.nextCursor) == Some(p.offset + p.routeCount);
    if p.hasMore then [p] + Walk(codec, ranked, limit, fingerprint, p.nextCursor) else [p]
  }

  /** The rows the pages stand for, page by page. */
  ghost function RowsShown(rows: seq<Row>, pages: seq<Page>): seq<Row> {
    if pages == [] then []
    else if pages[0].offset + pages[0].routeCount > |rows| then []
    else rows[pages[0].offset..pages[0].offset + pages[0].routeCount] + RowsShown(rows, pages[1..])
  }

  function AllVisible(pages: seq<Page>, id: string): seq<string> {
    if pages == [] then [] else VisibleDestinations(pages[0], id) + AllVisible(pages[1..], id)
  }

  function PagesWith(pages: seq<Page>, id: string): nat {
    if pages == [] then 0 else (if id in pages[0].ids then 1 else 0) + PagesWith(pages[1..], id)
  }

  ghost predicate GoodPages(pages: seq<Page>, total: nat) {
    forall i | 0 <= i < |pages| :: ValidPage(pages[i]) && pages[i].total == total
  }

  /** One step of the walk. */
  lemma WalkStep(codec: Codec, ranked: seq<ActionOption>, limit: nat, fingerprint: string, cursor: string)
    requires Inverts(codec) && limit > 0 && PageOf(codec, ranked, limit, fingerprint, cursor).Ok?
    ensures var p := PageOf(codec, ranked, limit, fingerprint, cursor).value;
            var pages, rows := Walk(codec, ranked, limit, fingerprint, cursor), RouteRows(ranked);
            && OffsetOf(codec, fingerprint, cursor) == Some(p.offset)
            && p.offset + p.routeCount == End(p.offset, limit, |rows|)
            && (p.hasMore <==> End(p.offset, limit, |rows|) < |rows|)
            && pages != [] && pages[0] == p
            && (p.hasMore ==>
                  && OffsetOf(codec, fingerprint, p.nextCursor) == Some(End(p.offset, limit, |rows|))
                  && PageOf(codec, ranked, limit, fingerprint, p.nextCursor).Ok?
                  && pages[1..] == Walk(codec, ranked, limit, fingerprint, p.nextCursor))
            && (!p.hasMore ==> pages[1..] == [])
  {
    var p := PageOf(codec, ranked, limit, fingerprint, cursor).value;
    if p.hasMore {
      assert OffsetOf(codec, fingerprint, p.nextCursor) == Some(p.offset + p.routeCount);
    }
  }

  /** From any cursor on the pages are valid. */
  lemma {:induction false} WalkIsGood(codec: Codec, ranked: seq<ActionOption>, limit: nat, fingerprint: string,
                                      cursor: string)
    requires Deliverable(ranked) && Inverts(codec) && limit > 0
    requires PageOf(codec, ranked, limit, fingerprint, cursor).Ok?
    ensures GoodPages(Walk(codec, ranked, limit, fingerprint, cursor), |RouteRows(ranked)|)
    decreases |RouteRows(ranked)| - OffsetOf(codec, fingerprint, cursor).value
  {
    var p := PageOf(codec, ranked, limit, fingerprint, cursor).value;
    PagesAreValid(codec, ranked, limit, fingerprint, cursor);
    WalkStep(codec, ranked, limit, fingerprint, cursor);
    if p.hasMore {
      WalkIsGood(codec, ranked, limit, fingerprint, p.nextCursor);
    }
    GoodFirst(Walk(codec, ranked, limit, fingerprint, cursor), |RouteRows(ranked)|);
  }

  lemma GoodFirst(pages: seq<Page>, total: nat)
    requires pages != [] && ValidPage(pages[0]) && pages[0].total == total && GoodPages(pages[1..], total)
    ensures GoodPages(pages, total)
  {
    forall i | 0 <= i < |pages| ensures ValidPage(pages[i]) && pages[i].total == total {
      assert i > 0 ==> pages[i] == pages[1..][i - 1];
    }
  }

  lemma SplitRest<A>(s: seq<A>, i: nat, j: nat)
    requires i <= j <= |s|
    ensures s[i..] == s[i..j] + s[j..]
  {
  }

  /** Together they stand for the remaining rows, each once and in order. */
  lemma {:induction false} WalkShowsTheRest(codec: Codec, ranked: seq<ActionOption>, limit: nat, fingerprint: string,
                                            cursor: string)
    requires Inverts(codec) && limit > 0 && PageOf(codec, ranked, limit, fingerprint, cursor).Ok?
    ensures RowsShown(RouteRows(ranked), Walk(codec, ranked, limit, fingerprint, cursor))
         == RouteRows(ranked)[OffsetOf(codec, fingerprint, cursor).value..]
    decreases |RouteRows(ranked)| - OffsetOf(codec, fingerprint, cursor).value
  {
    var rows := RouteRows(ranked);
    var p := PageOf(codec, ranked, limit, fingerprint, cursor).value;
    WalkStep(codec, ranked, limit, fingerprint, cursor);
    if p.hasMore {
      WalkShowsTheRest(codec, ranked, limit, fingerprint, p.nextCursor);
    } else {
      assert rows[End(p.offset, limit, |rows|)..] == [];
    }
    ShowStep(rows, Walk(codec, ranked, limit, fingerprint, cursor), End(p.offset, limit, |rows|));
  }

  lemma ShowStep(rows: seq<Row>, pages: seq<Page>, end: nat)
    requires pages != [] && pages[0].offset + pages[0].routeCount == end <= |rows|
    requires RowsShown(rows, pages[1..]) == rows[end..]
    ensures RowsShown(rows, pages) == rows[pages[0].offset..]
  {
    assert RowsShown(rows, pages) == rows[pages[0].offset..end] + RowsShown(rows, pages[1..]);
    SplitRest(rows, pages[0].offset, end);
  }

  lemma {:induction false} RequiredIsDelivered(codec: Codec, ranked: seq<ActionOption>, limit: nat, fingerprint: string,
                                               cursor: string, k: nat)
    requires Deliverable(ranked) && Inverts(codec) && limit > 0 && k < |ranked| && ranked[k].terms.required
    requires PageOf(codec, ranked, limit, fingerprint, cursor).Ok?
    ensures AllVisible(Walk(codec, ranked, limit, fingerprint, cursor), ranked[k].id)
         == Chosen(RouteRows(ranked)[OffsetOf(codec, fingerprint, cursor).value..], ranked[k].id)
    decreases |RouteRows(ranked)| - OffsetOf(codec, fingerprint, cursor).value
  {
    var rows := RouteRows(ranked);
    var p := PageOf(codec, ranked, limit, fingerprint, cursor).value;
    WalkStep(codec, ranked, limit, fingerprint, cursor);
    PageShows(codec, ranked, limit, fingerprint, cursor, p.offset, k);
    Segments(rows, p.offset, End(p.offset, limit, |rows|), ranked[k].id);
    if p.hasMore {
      RequiredIsDelivered(codec, ranked, limit, fingerprint, p.nextCursor, k);
    }
  }

  lemma {:induction false} PlainIsOnOnePage(codec: Codec, ranked: seq<ActionOption>, limit: nat, fingerprint: string,
                                            cursor: string, id: string)
    requires Inverts(codec) && limit > 0 && PageOf(codec, ranked, limit, fingerprint, cursor).Ok?
    requires CountRows(RouteRows(ranked)[OffsetOf(codec, fingerprint, cursor).value..], id) <= 1
    ensures PagesWith(Walk(codec, ranked, limit, fingerprint, cursor), id)
         == CountRows(RouteRows(ranked)[OffsetOf(codec, fingerprint, cursor).value..], id)
    decreases |RouteRows(ranked)| - OffsetOf(codec, fingerprint, cursor).value
  {
    var rows := RouteRows(ranked);
    var p := PageOf(codec, ranked, limit, fingerprint, cursor).value;
    WalkStep(codec, ranked, limit, fingerprint, cursor);
    PageIds(codec, rows, limit, fingerprint, cursor, p.offset, id);
    Segments(rows, p.offset, End(p.offset, limit, |rows|), id);
    if p.hasMore {
      PlainIsOnOnePage(codec, ranked, limit, fingerprint, p.nextCursor, id);
    }
  }

  lemma {:induction false} PlainIsDelivered(codec: Codec, ranked: seq<ActionOption>, limit: nat, fingerprint: string,
                                            cursor: string, k: nat)
    requires Deliverable(ranked) && Inverts(codec) && limit > 0 && k < |ranked| && !ranked[k].terms.required
    requires PageOf(codec, ranked, limit, fingerprint, cursor).Ok?
    requires CountRows(RouteRows(ranked)[OffsetOf(codec, fingerprint, cursor).value..], ranked[k].id) <= 1
    ensures AllVisible(Walk(codec, ranked, limit, fingerprint, cursor), ranked[k].id) ==
              if CountRows(RouteRows(ranked)[OffsetOf(codec, fingerprint, cursor).value..], ranked[k].id) == 1
              then ranked[k].destinations else []
    decreases |RouteRows(ranked)| - OffsetOf(codec, fingerprint, cursor).value
  {
    var rows := RouteRows(ranked);
    var p := PageOf(codec, ranked, limit, fingerprint, cursor).value;
    WalkStep(codec, ranked, limit, fingerprint, cursor);
    var pages := Walk(codec, ranked, limit, fingerprint, cursor);
    assert AllVisible(pages, ranked[k].id)
      == VisibleDestinations(p, ranked[k].id) + AllVisible(pages[1..], ranked[k].id);
    PageShows(codec, ranked, limit, fingerprint, cursor, p.offset, k);
    Segments(rows, p.offset, End(p.offset, limit, |rows|), ranked[k].id);
    if p.hasMore {
      PlainIsDelivered(codec, ranked, limit, fingerprint, p.nextCursor, k);
    } else {
      assert rows[End(p.offset, limit, |rows|)..] == [];
    }
  }

  /**
   Starting without a cursor: the walk ends, its pages are valid, and their rows are exactly the rows of the ranking.
   Every option that needs a destination is shown with exactly its destinations, spread over the pages in order;
   every other option is on exactly one page, with all its destinations.
   */
  lemma CursorWalk(codec: Codec, ranked: seq<ActionOption>, limit: nat, fingerprint: string)
    requires Deliverable(ranked) && Inverts(codec) && limit > 0
    ensures PageOf(codec, ranked, limit, fingerprint, "").Ok?
    ensures GoodPages(Walk(codec, ranked, limit, fingerprint, ""), |RouteRows(ranked)|)
    ensures RowsShown(RouteRows(ranked), Walk(codec, ranked, limit, fingerprint, "")) == RouteRows(ranked)
    ensures forall k | 0 <= k < |ranked| ::
              AllVisible(Walk(codec, ranked, limit, fingerprint, ""), ranked[k].id) == ranked[k].destinations
    ensures forall k | 0 <= k < |ranked| && !ranked[k].terms.required ::
              PagesWith(Walk(codec, ranked, limit, fingerprint, ""), ranked[k].id) == 1
  {
    var rows := RouteRows(ranked);
    WalkIsGood(codec, ranked, limit, fingerprint, "");
    WalkShowsTheRest(codec, ranked, limit, fingerprint, "");
    assert rows[0..] == rows;
    forall k | 0 <= k < |ranked|
      ensures AllVisible(Walk(codec, ranked, limit, fingerprint, ""), ranked[k].id) == ranked[k].destinations
      ensures !ranked[k].terms.required ==> PagesWith(Walk(codec, ranked, limit, fingerprint, ""), ranked[k].id) == 1
    {
      RowsOfRanking(ranked, k);
      if ranked[k].terms.required {
        RequiredIsDelivered(codec, ranked, limit, fingerprint, "", k);
      } else {
        PlainIsOnOnePage(codec, ranked, limit, fingerprint, "", ranked[k].id);
        PlainIsDelivered(codec, ranked, limit, fingerprint, "", k);
      }
    }
  }

  // ---- how large the pages are ----

  /** A page has `limit` rows, or fewer when it is the last one. */
  ghost predicate Full(p: Page, limit: nat, offset: nat, total: nat) {
    && p.offset == offset && p.total == total
    && (p.hasMore <==> offset + limit < total)
    && p.routeCount == if offset + limit <= total then limit else total - offset
  }

  /** Every page starts where `limit` rows on each page before it leave off, and is asked for by the cursor it gave. */
  ghost predicate EvenPages(pages: seq<Page>, limit: nat, offset: nat, total: nat)
    requires offset <= total
    decreases |pages|
  {
    && pages != [] && Full(pages[0], limit, offset, total)
    && if offset + limit < total then
         && |pages| > 1 && pages[1].cursor == pages[0].nextCursor
         && EvenPages(pages[1..], limit, offset + limit, total)
       else |pages| == 1
  }

  lemma PageIsFull(codec: Codec, ranked: seq<ActionOption>, limit: nat, fingerprint: string, cursor: string)
    requires limit > 0 && PageOf(codec, ranked, limit, fingerprint, cursor).Ok?
    ensures var p := PageOf(codec, ranked, limit, fingerprint, cursor).value;
            p.cursor == cursor && p.offset <= p.total == |RouteRows(ranked)| && Full(p, limit, p.offset, p.total)
  {
  }

  lemma EvenFirst(pages: seq<Page>, limit: nat, offset: nat, total: nat)
    requires offset <= total && pages != [] && Full(pages[0], limit, offset, total)
    requires offset + limit >= total ==> pages[1..] == []
    requires offset + limit < total ==>
               EvenPages(pages[1..], limit, offset + limit, total) && pages[1..][0].cursor == pages[0].nextCursor
    ensures EvenPages(pages, limit, offset, total)
  {
  }

  lemma {:induction false} WalkIsEven(codec: Codec, ranked: seq<ActionOption>, limit: nat, fingerprint: string,
                                      cursor: string)
    requires Inverts(codec) && limit > 0 && PageOf(codec, ranked, limit, fingerprint, cursor).Ok?
    ensures var pages := Walk(codec, ranked, limit, fingerprint, cursor);
            && EvenPages(pages, limit, OffsetOf(codec, fingerprint, cursor).value, |RouteRows(ranked)|)
            && pages[0].cursor == cursor
    decreases |RouteRows(ranked)| - OffsetOf(codec, fingerprint, cursor).value
  {
    var p := PageOf(codec, ranked, limit, fingerprint, cursor).value;
    WalkStep(codec, ranked, limit, fingerprint, cursor);
    PageIsFull(codec, ranked, limit, fingerprint, cursor);
    if p.hasMore {
      WalkIsEven(codec, ranked, limit, fingerprint, p.nextCursor);
    }
    EvenFirst(Walk(codec, ranked, limit, fingerprint, cursor), limit, p.offset, p.total);
  }

  lemma {:induction false} EvenPageAt(pages: seq<Page>, limit: nat, offset: nat, total: nat, i: nat)
    requires offset <= total && EvenPages(pages, limit, offset, total) && i < |pages|
    ensures Full(pages[i], limit, offset + i * limit, total)
    ensures i + 1 < |pages| ==> offset + (i + 1) * limit < total
    ensures i + 1 == |pages| ==> offset + (i + 1) * limit >= total
  {
    if i == 0 {
    } else {
      EvenPageAt(pages[1..], limit, offset + limit, total, i - 1);
      assert offset + limit + (i - 1) * limit == offset + i * limit;
      assert offset + limit + i * limit == offset + (i + 1) * limit;
    }
  }

  /** Page `i` of the walk holds the rows from `i * limit`: `limit` of them, and on the last page what is left. */
  lemma PageSizes(codec: Codec, ranked: seq<ActionOption>, limit: nat, fingerprint: string, i: nat)
    requires Inverts(codec) && limit > 0 && i < |Walk(codec, ranked, limit, fingerprint, "")|
    ensures var pages, total := Walk(codec, ranked, limit, fingerprint, ""), |RouteRows(ranked)|;
            && pages[i].offset == i * limit
            && pages[i].routeCount == (if i + 1 < |pages| then limit else total - i * limit)
            && pages[i].routeCount <= limit
            && (pages[i].hasMore <==> i + 1 < |pages|)
  {
    WalkIsEven(codec, ranked, limit, fingerprint, "");
    EvenPageAt(Walk(codec, ranked, limit, fingerprint, ""), limit, 0, |RouteRows(ranked)|, i);
  }

  // ---- what is refused, and what can be chosen ----

  /** No page for a limit that is not positive, a cursor that cannot be read, or one past the last row. */
  lemma PageIsRefused(codec: Codec, ranked: seq<ActionOption>, limit: int, fingerprint: string, cursor: string)
    ensures PageOf(codec, ranked, limit, fingerprint, cursor) == Raised <==>
              || limit < 1
              || (cursor != "" && match codec.decode(cursor, fingerprint)
                                  case None => true
                                  case Some(n) => n > |RouteRows(ranked)|)
  {
  }

  /** The page has a row of the option, for the destination where the option needs one. */
  ghost predicate HasRow(segment: seq<Row>, option: ActionOption, destination: string) {
    exists row :: row in segment && row.option.id == option.id
                  && (option.terms.required ==> row.destination == destination)
  }

  lemma {:induction false} CountTellsRows(rows: seq<Row>, id: string)
    ensures CountRows(rows, id) > 0 <==> exists row :: row in rows && row.option.id == id
  {
    if rows == [] {
    } else {
      CountTellsRows(rows[..|rows| - 1], id);
      assert rows == rows[..|rows| - 1] + [rows[|rows| - 1]];
    }
  }

  lemma {:induction false} ChosenAre(rows: seq<Row>, id: string, destination: string)
    ensures destination in Chosen(rows, id) <==>
              destination != "" && exists row :: row in rows && row.option.id == id && row.destination == destination
  {
    if rows == [] {
    } else {
      ChosenAre(rows[..|rows| - 1], id, destination);
      assert rows == rows[..|rows| - 1] + [rows[|rows| - 1]];
    }
  }

  /** What can be chosen on a page is what it has a row for; where no destination is required, any that is offered. */
  lemma SelectableIs(codec: Codec, ranked: seq<ActionOption>, limit: nat, fingerprint: string, cursor: string,
                     offset: nat, k: nat, destination: string)
    requires Deliverable(ranked) && PageRange(RouteRows(ranked), limit, offset) && k < |ranked|
    requires destination != "" || !ranked[k].terms.required
    ensures var p := PageFrom(codec, RouteRows(ranked), limit, fingerprint, cursor, offset);
            var segment := RouteRows(ranked)[offset..End(offset, limit, |RouteRows(ranked)|)];
            Selectable(p, ranked[k].id, destination) <==>
              && HasRow(segment, ranked[k], destination)
              && (destination != "" && !ranked[k].terms.required ==> destination in ranked[k].destinations)
  {
    var segment := RouteRows(ranked)[offset..End(offset, limit, |RouteRows(ranked)|)];
    PageShows(codec, ranked, limit, fingerprint, cursor, offset, k);
    PageIds(codec, RouteRows(ranked), limit, fingerprint, cursor, offset, ranked[k].id);
    CountTellsRows(segment, ranked[k].id);
    ChosenAre(segment, ranked[k].id, destination);
  }
}
