/** Grouping grounding candidates into semantic targets by name, then splitting a group by geometry. */
module GeometryPartition {
  import opened Wrappers
  import opened Lexicographic
  import opened Grouping
  import opened Sequences

  datatype Box = Box(x: real, y: real, width: real, height: real)

  /** A grounding candidate; its box is the payload's bounding box, or a unit box at its point, if it has either. */
  datatype Candidate = Candidate(id: string, source: string, box: Option<Box>, affordance: string, target: string)

  /** Normalised role, label, semantic action and container context. */
  datatype Key = Key(role: string, text: string, action: string, context: string)

  datatype Descriptor = Descriptor(key: Key, candidate: Candidate)

  datatype Unified = Unified(target: string, candidates: seq<Candidate>)

  /** The semantic target id of a group, or of one part of it with the identities that name the part. */
  datatype Naming = Naming(ofGroup: Key -> string, ofPart: (Key, seq<string>) -> string)

  type Part = seq<Descriptor>

  // ---- compatibility ----

  function Least(a: real, b: real): real {
    if a <= b then a else b
  }

  function Greatest(a: real, b: real): real {
    if a >= b then a else b
  }

  /** `_geometry_compatible`: unknown geometry never contradicts. */
  predicate Compatible(a: Candidate, b: Candidate) {
    a.box.None? || b.box.None? ||
    var p, q := a.box.value, b.box.value;
    && Least(p.x + p.width, q.x + q.width) - Greatest(p.x, q.x) > 0.0
    && Least(p.y + p.height, q.y + q.height) - Greatest(p.y, q.y) > 0.0
  }

  ghost predicate Interior(b: Box, x: real, y: real) {
    b.x < x < b.x + b.width && b.y < y < b.y + b.height
  }

  /** Two boxes share a point of their interiors. */
  ghost predicate Overlap(p: Box, q: Box) {
    exists x: real, y: real :: Interior(p, x, y) && Interior(q, x, y)
  }

  predicate Fits(part: Part, item: Descriptor) {
    forall k | 0 <= k < |part| ::
      part[k].candidate.source != item.candidate.source && Compatible(part[k].candidate, item.candidate)
  }

  // ---- _geometry_partitions ----

  function CountSource(items: seq<Descriptor>, source: string): nat {
    if items == [] then 0
    else CountSource(items[..|items| - 1], source) + (if items[|items| - 1].candidate.source == source then 1 else 0)
  }

  predicate SourcesOccurOnce(items: seq<Descriptor>) {
    forall k | 0 <= k < |items| :: CountSource(items, items[k].candidate.source) == 1
  }

  /** How many of the first `n` parts would take the item, and the last that would. */
  function FittingCount(parts: seq<Part>, item: Descriptor, n: nat): nat
    requires n <= |parts|
  {
    if n == 0 then 0 else FittingCount(parts, item, n - 1) + (if Fits(parts[n - 1], item) then 1 else 0)
  }

  function LastFitting(parts: seq<Part>, item: Descriptor, n: nat): (i: nat)
    requires n <= |parts| && FittingCount(parts, item, n) > 0
    ensures i < n && Fits(parts[i], item)
  {
    if Fits(parts[n - 1], item) then n - 1 else LastFitting(parts, item, n - 1)
  }

  /** The item joins the one part it fits; with none or several it starts its own. */
  function Place(parts: seq<Part>, item: Descriptor): seq<Part> {
    if FittingCount(parts, item, |parts|) == 1 then
      var i := LastFitting(parts, item, |parts|);
      parts[i := parts[i] + [item]]
    else parts + [[item]]
  }

  function PlaceAll(items: seq<Descriptor>): seq<Part> {
    if items == [] then [] else Place(PlaceAll(items[..|items| - 1]), items[|items| - 1])
  }

  function Partitions(items: seq<Descriptor>): seq<Part> {
    if SourcesOccurOnce(items) then [items] else PlaceAll(items)
  }

  method GeometryPartitions(items: seq<Descriptor>) returns (parts: seq<Part>)
    ensures parts == Partitions(items)
  {
    if SourcesOccurOnce(items) {
      return [items];
    }
    parts := [];
    for n := 0 to |items|
      invariant parts == PlaceAll(items[..n])
    {
      assert items[..n + 1][..n] == items[..n];
      var count, at := 0, 0;
      for k := 0 to |parts|
        invariant count == FittingCount(parts, items[n], k)
        invariant count > 0 ==> at == LastFitting(parts, items[n], k)
      {
        if Fits(parts[k], items[n]) {
          count, at := count + 1, k;
        }
      }
      if count == 1 {
        parts := parts[at := parts[at] + [items[n]]];
      } else {
        parts := parts + [[items[n]]];
      }
    }
    assert items[..|items|] == items;
  }

  // ---- resolve ----

  function KeyOf(d: Descriptor): Key {
    d.key
  }

  function Identity(c: Candidate): string {
    if c.affordance != "" then c.affordance else c.id
  }

  predicate IdLess(a: Candidate, b: Candidate) {
    StringLess(a.id, b.id)
  }

  /** `sorted(items, key=candidate_id)`, each candidate pointed at its semantic target. */
  function SortedCandidates(part: Part, target: string): seq<Candidate> {
    Sorted(IdLess, Map((d: Descriptor) => d.candidate.(target := target), part))
  }

  /** What names a part: its affordance ids, or candidate ids where there is none, in order. */
  function Identities(part: Part): seq<string> {
    Sorted(StringLess, Map((d: Descriptor) => Identity(d.candidate), part))
  }

  function ResolvePart(naming: Naming, key: Key, alone: bool, part: Part): Unified {
    var target := if alone then naming.ofGroup(key) else naming.ofPart(key, Identities(part));
    Unified(target, SortedCandidates(part, target))
  }

  function ResolveParts(naming: Naming, key: Key, alone: bool, parts: seq<Part>): seq<Unified> {
    if parts == [] then []
    else ResolveParts(naming, key, alone, parts[..|parts| - 1]) + [ResolvePart(naming, key, alone, parts[|parts| - 1])]
  }

  function ResolveGroups(naming: Naming, groups: seq<Bucket<Key, Descriptor>>): seq<Unified> {
    if groups == [] then []
    else
      var g := groups[|groups| - 1];
      var parts := Partitions(g.items);
      ResolveGroups(naming, groups[..|groups| - 1]) + ResolveParts(naming, g.key, |parts| == 1, parts)
  }

  /** `SemanticEntityResolver.resolve`. */
  method Resolve(naming: Naming, descriptors: seq<Descriptor>) returns (unified: seq<Unified>)
    ensures unified == ResolveGroups(naming, GroupBy(KeyOf, descriptors))
  {
    var groups := Group(KeyOf, descriptors);
    unified := [];
    for n := 0 to |groups|
      invariant unified == ResolveGroups(naming, groups[..n])
    {
      ResolveStep(naming, groups, n);
      var parts := GeometryPartitions(groups[n].items);
      var resolved := ResolveEach(naming, groups[n].key, parts);
      unified := unified + resolved;
    }
    assert groups[..|groups|] == groups;
  }

  lemma ResolveStep(naming: Naming, groups: seq<Bucket<Key, Descriptor>>, n: nat)
    requires n < |groups|
    ensures var parts := Partitions(groups[n].items);
            ResolveGroups(naming, groups[..n + 1])
              == ResolveGroups(naming, groups[..n]) + ResolveParts(naming, groups[n].key, |parts| == 1, parts)
  {
    assert groups[..n + 1][..n] == groups[..n];
  }

  method ResolveEach(naming: Naming, key: Key, parts: seq<Part>) returns (unified: seq<Unified>)
    ensures unified == ResolveParts(naming, key, |parts| == 1, parts)
  {
    unified := [];
    for k := 0 to |parts|
      invariant unified == ResolveParts(naming, key, |parts| == 1, parts[..k])
    {
      assert parts[..k + 1][..k] == parts[..k];
      unified := unified + [ResolvePart(naming, key, |parts| == 1, parts[k])];
    }
    assert parts[..|parts|] == parts;
  }

  // ---- what a partition is ----

  function Flatten(parts: seq<Part>): seq<Descriptor> {
    if parts == [] then [] else Flatten(parts[..|parts| - 1]) + parts[|parts| - 1]
  }

  lemma {:induction false} FlattenUpdate(parts: seq<Part>, i: nat, item: Descriptor)
    requires i < |parts|
    ensures multiset(Flatten(parts[i := parts[i] + [item]])) == multiset(Flatten(parts)) + multiset{item}
  {
    var last := |parts| - 1;
    var updated := parts[i := parts[i] + [item]];
    if i == last {
      assert updated[..last] == parts[..last];
    } else {
      FlattenUpdate(parts[..last], i, item);
      assert updated[..last] == parts[..last][i := parts[..last][i] + [item]];
    }
  }

  /** Every part is nonempty, holds one candidate per source, and its known boxes overlap pairwise. */
  ghost predicate Coherent(part: Part) {
    && part != []
    && forall j, k | 0 <= j < k < |part| ::
         part[j].candidate.source != part[k].candidate.source && Compatible(part[j].candidate, part[k].candidate)
  }

  ghost predicate AllCoherent(parts: seq<Part>) {
    forall i | 0 <= i < |parts| :: Coherent(parts[i])
  }

  lemma GrownPartIsCoherent(part: Part, item: Descriptor)
    requires Coherent(part) && Fits(part, item)
    ensures Coherent(part + [item])
  {
  }

  lemma PlaceKeepsCoherence(parts: seq<Part>, item: Descriptor)
    requires AllCoherent(parts)
    ensures AllCoherent(Place(parts, item))
  {
    if FittingCount(parts, item, |parts|) == 1 {
      GrownPartIsCoherent(parts[LastFitting(parts, item, |parts|)], item);
    }
  }

  lemma PlaceKeepsItems(parts: seq<Part>, item: Descriptor)
    ensures multiset(Flatten(Place(parts, item))) == multiset(Flatten(parts)) + multiset{item}
  {
    if FittingCount(parts, item, |parts|) == 1 {
      FlattenUpdate(parts, LastFitting(parts, item, |parts|), item);
    } else {
      assert (parts + [[item]])[..|parts|] == parts;
    }
  }

  lemma {:induction false} PlaceAllPartitions(items: seq<Descriptor>)
    ensures multiset(Flatten(PlaceAll(items))) == multiset(items)
    ensures AllCoherent(PlaceAll(items))
  {
    if items == [] {
    } else {
      var front, item := items[..|items| - 1], items[|items| - 1];
      PlaceAllPartitions(front);
      PlacedStep(items, front, item);
    }
  }

  lemma PlacedStep(items: seq<Descriptor>, front: seq<Descriptor>, item: Descriptor)
    requires items == front + [item]
    requires AllCoherent(PlaceAll(front)) && multiset(Flatten(PlaceAll(front))) == multiset(front)
    ensures AllCoherent(PlaceAll(items)) && multiset(Flatten(PlaceAll(items))) == multiset(items)
  {
    assert items[..|items| - 1] == front;
    PlaceKeepsItems(PlaceAll(front), item);
    PlaceKeepsCoherence(PlaceAll(front), item);
  }

  /** The result is always a partition; as soon as a source repeats, every part is coherent. */
  lemma PartitionsPartition(items: seq<Descriptor>)
    ensures multiset(Flatten(Partitions(items))) == multiset(items)
    ensures !SourcesOccurOnce(items) ==> AllCoherent(Partitions(items))
  {
    if SourcesOccurOnce(items) {
      assert [items][..0] == [];
      assert Flatten([items]) == [] + items;
    } else {
      PlaceAllPartitions(items);
    }
  }

  lemma {:induction false} CountTwo(items: seq<Descriptor>, j: nat, k: nat)
    requires j < k < |items| && items[j].candidate.source == items[k].candidate.source
    ensures CountSource(items, items[j].candidate.source) >= 2
  {
    var last := |items| - 1;
    if k < last {
      CountTwo(items[..last], j, k);
    } else {
      CountOne(items[..last], j);
    }
  }

  lemma {:induction false} CountOne(items: seq<Descriptor>, j: nat)
    requires j < |items|
    ensures CountSource(items, items[j].candidate.source) >= 1
  {
    var last := |items| - 1;
    if j < last {
      CountOne(items[..last], j);
    }
  }

  /** In either case no part holds two candidates of one source. */
  lemma PartsHaveDistinctSources(items: seq<Descriptor>, i: nat, j: nat, k: nat)
    requires i < |Partitions(items)| && j < k < |Partitions(items)[i]|
    ensures Partitions(items)[i][j].candidate.source != Partitions(items)[i][k].candidate.source
  {
    PartitionsPartition(items);
    if SourcesOccurOnce(items) && items[j].candidate.source == items[k].candidate.source {
      CountTwo(items, j, k);
    }
  }

  /** For boxes of positive size, compatibility is overlap of interiors. */
  lemma CompatibleIsOverlap(a: Candidate, b: Candidate)
    requires a.box.Some? && b.box.Some?
    requires a.box.value.width > 0.0 && a.box.value.height > 0.0 && b.box.value.width > 0.0 && b.box.value.height > 0.0
    ensures Compatible(a, b) <==> Overlap(a.box.value, b.box.value)
  {
    var p, q := a.box.value, b.box.value;
    if Compatible(a, b) {
      var x := (Least(p.x + p.width, q.x + q.width) + Greatest(p.x, q.x)) / 2.0;
      var y := (Least(p.y + p.height, q.y + q.height) + Greatest(p.y, q.y)) / 2.0;
      assert Interior(p, x, y) && Interior(q, x, y);
    }
  }

  // ---- where an item is placed ----

  /** Both boxes are known and share no area. */
  predicate Contradicts(a: Candidate, b: Candidate) {
    && a.box.Some? && b.box.Some?
    && var p, q := a.box.value, b.box.value;
       || p.x + p.width <= q.x || q.x + q.width <= p.x || p.width <= 0.0 || q.width <= 0.0
       || p.y + p.height <= q.y || q.y + q.height <= p.y || p.height <= 0.0 || q.height <= 0.0
  }

  /** No item of the part is of the new item's source or contradicts its box. */
  ghost predicate Welcomes(part: Part, item: Descriptor) {
    forall d | d in part ::
      d.candidate.source != item.candidate.source && !Contradicts(d.candidate, item.candidate)
  }

  ghost predicate OnlyWelcome(parts: seq<Part>, item: Descriptor, i: int) {
    && 0 <= i < |parts| && Welcomes(parts[i], item)
    && forall k | 0 <= k < |parts| && k != i :: !Welcomes(parts[k], item)
  }

  lemma FitsIsWelcome(part: Part, item: Descriptor)
    ensures Fits(part, item) <==> Welcomes(part, item)
  {
    forall k | 0 <= k < |part| ensures part[k] in part {
    }
  }

  lemma {:induction false} CountTellsWelcome(parts: seq<Part>, item: Descriptor, n: nat)
    requires n <= |parts|
    ensures FittingCount(parts, item, n) == 0 <==> forall k | 0 <= k < n :: !Welcomes(parts[k], item)
    ensures FittingCount(parts, item, n) == 1 <==> exists i :: OnlyWelcome(parts[..n], item, i)
  {
    if n == 0 {
    } else {
      CountTellsWelcome(parts, item, n - 1);
      FitsIsWelcome(parts[n - 1], item);
      var front, all := parts[..n - 1], parts[..n];
      assert forall k | 0 <= k < n - 1 :: front[k] == all[k];
      if i :| OnlyWelcome(front, item, i) && !Welcomes(parts[n - 1], item) {
        assert OnlyWelcome(all, item, i);
      }
      if i :| OnlyWelcome(all, item, i) {
        if i < n - 1 {
          assert OnlyWelcome(front, item, i);
        } else {
          assert forall k | 0 <= k < n - 1 :: !Welcomes(all[k], item);
        }
      }
      if Welcomes(parts[n - 1], item) && FittingCount(parts, item, n - 1) == 0 {
        assert OnlyWelcome(all, item, n - 1);
      }
    }
  }

  /**
   One more item: it joins a part exactly when that part alone welcomes it. With none, and with several, which would
   be a guess, it starts a part of its own.
   */
  lemma PlacementLaw(items: seq<Descriptor>, item: Descriptor)
    ensures var before, after := PlaceAll(items), PlaceAll(items + [item]);
            && ((exists i :: OnlyWelcome(before, item, i)) <==> |after| == |before|)
            && (forall i | OnlyWelcome(before, item, i) :: after == before[i := before[i] + [item]])
            && ((forall i :: !OnlyWelcome(before, item, i)) ==> after == before + [[item]])
  {
    var before := PlaceAll(items);
    assert (items + [item])[..|items|] == items;
    assert before[..|before|] == before;
    CountTellsWelcome(before, item, |before|);
    if FittingCount(before, item, |before|) == 1 {
      FitsIsWelcome(before[LastFitting(before, item, |before|)], item);
    }
  }

  /** The one part of a group in which no source repeats; otherwise the parts are built item by item. */
  lemma PartitionsSplitRepeats(items: seq<Descriptor>)
    ensures Partitions(items) ==
              if forall i, j | 0 <= i < j < |items| :: items[i].candidate.source != items[j].candidate.source
              then [items]
              else PlaceAll(items)
  {
    if i, j :| 0 <= i < j < |items| && items[i].candidate.source == items[j].candidate.source {
      CountTwo(items, i, j);
    } else {
      forall k | 0 <= k < |items| ensures CountSource(items, items[k].candidate.source) == 1 {
        CountSingle(items, k);
      }
    }
  }

  lemma {:induction false} CountSingle(items: seq<Descriptor>, k: nat)
    requires k < |items|
    requires forall i, j | 0 <= i < j < |items| :: items[i].candidate.source != items[j].candidate.source
    ensures CountSource(items, items[k].candidate.source) == 1
  {
    var front, last := items[..|items| - 1], |items| - 1;
    if k < last {
      CountSingle(front, k);
    } else {
      CountNone(front, items[k].candidate.source);
    }
  }

  lemma {:induction false} CountNone(items: seq<Descriptor>, source: string)
    requires forall k | 0 <= k < |items| :: items[k].candidate.source != source
    ensures CountSource(items, source) == 0
  {
    if items == [] {
    } else {
      CountNone(items[..|items| - 1], source);
    }
  }

  // ---- conservation through resolve ----

  /** A candidate up to its target id. */
  function Erased(c: Candidate): Candidate {
    c.(target := "")
  }

  function EraseItem(d: Descriptor): Candidate {
    Erased(d.candidate)
  }

  function ErasedItems(items: seq<Descriptor>): multiset<Candidate> {
    multiset(Map(EraseItem, items))
  }

  function ErasedCandidates(cs: seq<Candidate>): multiset<Candidate> {
    multiset(Map(Erased, cs))
  }

  function ErasedUnified(us: seq<Unified>): multiset<Candidate> {
    if us == [] then multiset{} else ErasedUnified(us[..|us| - 1]) + ErasedCandidates(us[|us| - 1].candidates)
  }

  lemma SortedKeeps(part: Part, target: string)
    ensures ErasedCandidates(SortedCandidates(part, target)) == ErasedItems(part)
  {
    var aimed := Map((d: Descriptor) => d.candidate.(target := target), part);
    SortedPermutes(IdLess, aimed);
    MapPermutes(Erased, Sorted(IdLess, aimed), aimed);
    assert Map(Erased, aimed) == Map(EraseItem, part);
  }

  lemma {:induction false} UnifiedConcat(a: seq<Unified>, b: seq<Unified>)
    ensures ErasedUnified(a + b) == ErasedUnified(a) + ErasedUnified(b)
  {
    if b == [] {
      assert a + b == a;
    } else {
      var front, last := b[..|b| - 1], b[|b| - 1];
      UnifiedConcat(a, front);
      assert (a + b)[..|a + b| - 1] == a + front && (a + b)[|a + b| - 1] == last;
      assert ErasedUnified(a + b) == ErasedUnified(a + front) + ErasedCandidates(last.candidates);
    }
  }

  lemma {:induction false} PartsKeep(naming: Naming, key: Key, alone: bool, parts: seq<Part>)
    ensures ErasedUnified(ResolveParts(naming, key, alone, parts)) == ErasedItems(Flatten(parts))
  {
    if parts == [] {
    } else {
      var front, part := parts[..|parts| - 1], parts[|parts| - 1];
      PartsKeep(naming, key, alone, front);
      var u := ResolvePart(naming, key, alone, part);
      SortedKeeps(part, u.target);
      var before := ResolveParts(naming, key, alone, front);
      assert (before + [u])[..|before|] == before;
      MapConcat(EraseItem, Flatten(front), part);
    }
  }

  lemma {:induction false} GroupsKeep(naming: Naming, groups: seq<Bucket<Key, Descriptor>>)
    ensures ErasedUnified(ResolveGroups(naming, groups)) == ErasedItems(Flat(groups))
  {
    if groups == [] {
    } else {
      var front, g := groups[..|groups| - 1], groups[|groups| - 1];
      GroupsKeep(naming, front);
      var parts := Partitions(g.items);
      PartsKeep(naming, g.key, |parts| == 1, parts);
      PartitionsPartition(g.items);
      MapPermutes(EraseItem, Flatten(parts), g.items);
      MapConcat(EraseItem, Flat(front), g.items);
      UnifiedConcat(ResolveGroups(naming, front), ResolveParts(naming, g.key, |parts| == 1, parts));
    }
  }

  /** Resolving outputs every input candidate exactly once, changed at most in its target id. */
  lemma ResolveConserves(naming: Naming, descriptors: seq<Descriptor>)
    ensures ErasedUnified(ResolveGroups(naming, GroupBy(KeyOf, descriptors))) == ErasedItems(descriptors)
  {
    GroupsKeep(naming, GroupBy(KeyOf, descriptors));
    GroupByConserves(KeyOf, descriptors);
    MapPermutes(EraseItem, Flat(GroupBy(KeyOf, descriptors)), descriptors);
  }
}
