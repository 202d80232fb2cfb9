/** The ref-free structural identity of a target: where its nodes sit in each source's structure tree. */
module StructurePaths {
  import opened Sequences
  import opened Wrappers
  import opened Lexicographic

  const MAX_PATH := 8

  /** What of a node is public: its folded role, stripped label and JSON state. */
  datatype Face = Face(role: string, text: string, state: string)

  datatype Node = Node(id: string, target: string, parent: string, face: Face)

  datatype Source = Source(observationId: string, targets: seq<string>, structure: seq<Node>)

  datatype Link = Link(observationId: string, sourceTarget: string, canonicalTarget: string)

  datatype World = World(sources: seq<Source>, links: seq<Link>)

  datatype Entry = Entry(face: Face, ordinal: nat)

  type Path = seq<Entry>

  // ---- _source_target_endpoints ----

  predicate Linked(links: seq<Link>, target: string, observationId: string, sourceTarget: string) {
    exists i | 0 <= i < |links| :: links[i] == Link(observationId, sourceTarget, target)
  }

  predicate Holds(s: Source, target: string) {
    exists k | 0 <= k < |s.targets| :: s.targets[k] == target
  }

  predicate Observed(sources: seq<Source>, target: string, observationId: string) {
    exists i | 0 <= i < |sources| :: sources[i].observationId == observationId && Holds(sources[i], target)
  }

  /** The source node stands for the target: through an entity link, or by carrying the target's own id. */
  predicate Endpoint(w: World, target: string, observationId: string, sourceTarget: string) {
    Linked(w.links, target, observationId, sourceTarget)
      || (sourceTarget == target && Observed(w.sources, target, observationId))
  }

  // ---- one structure tree ----

  /** Where `nodes.get(id)` and `order[id]` point: the last node with the id, or the length when there is none. */
  function Position(structure: seq<Node>, id: string): (p: nat)
    ensures p <= |structure|
  {
    if structure == [] then 0
    else
      var last := |structure| - 1;
      if structure[last].id == id then last
      else
        var p := Position(structure[..last], id);
        if p == last then |structure| else p
  }

  lemma {:induction false} PositionIs(structure: seq<Node>, id: string)
    ensures var p := Position(structure, id);
            && (p < |structure| ==> structure[p].id == id && forall k | p < k < |structure| :: structure[k].id != id)
            && (p == |structure| ==> forall k | 0 <= k < |structure| :: structure[k].id != id)
  {
    if structure == [] {
    } else {
      PositionIs(structure[..|structure| - 1], id);
    }
  }

  predicate Indistinguishable(a: Node, b: Node) {
    a.parent == b.parent && a.face == b.face
  }

  /** How many of the first `n` nodes are siblings like `current` that come before it. */
  function EarlierSiblings(structure: seq<Node>, current: nat, n: nat): nat
    requires current < |structure| && n <= |structure|
  {
    if n == 0 then 0
    else
      EarlierSiblings(structure, current, n - 1) +
      (if && Indistinguishable(structure[n - 1], structure[current])
          && Position(structure, structure[n - 1].id) < Position(structure, structure[current].id) then 1 else 0)
  }

  function EntryOf(structure: seq<Node>, current: nat): Entry
    requires current < |structure|
  {
    Entry(structure[current].face, EarlierSiblings(structure, current, |structure|))
  }

  /** The node's entry below those of its ancestors, until an id repeats, the root is passed, or there is no room. */
  function Above(structure: seq<Node>, current: nat, seen: set<string>, room: nat): Path
    requires current < |structure|
    decreases room
  {
    if structure[current].id in seen || room == 0 then []
    else
      var p := Position(structure, structure[current].parent);
      (if p == |structure| then [] else Above(structure, p, seen + {structure[current].id}, room - 1))
        + [EntryOf(structure, current)]
  }

  function PathOf(structure: seq<Node>, current: nat): Path
    requires current < |structure|
  {
    Above(structure, current, {}, MAX_PATH)
  }

  function Reversed<T>(s: seq<T>): seq<T> {
    if s == [] then [] else Reversed(s[1..]) + [s[0]]
  }

  lemma {:induction false} ReversedAppend<T>(s: seq<T>, x: T)
    ensures Reversed(s + [x]) == [x] + Reversed(s)
  {
    if s == [] {
    } else {
      assert (s + [x])[1..] == s[1..] + [x];
      ReversedAppend(s[1..], x);
    }
  }

  /** `whole` is the rest of the walk from `current`, followed by what the walk has gathered, latest first. */
  ghost predicate Remaining(structure: seq<Node>, whole: Path, current: nat, seen: set<string>, room: nat,
                            up: seq<Entry>)
    requires current < |structure|
  {
    whole == Above(structure, current, seen, room) + Reversed(up)
  }

  lemma ClimbOne(structure: seq<Node>, whole: Path, current: nat, seen: set<string>, room: nat, up: seq<Entry>)
    requires current < |structure| && structure[current].id !in seen && room > 0
    requires Remaining(structure, whole, current, seen, room, up)
    ensures var parent, up' := Position(structure, structure[current].parent), up + [EntryOf(structure, current)];
            if parent == |structure| then whole == Reversed(up')
            else Remaining(structure, whole, parent, seen + {structure[current].id}, room - 1, up')
  {
    var e := EntryOf(structure, current);
    ReversedAppend(up, e);
    var p := Position(structure, structure[current].parent);
    if p < |structure| {
      var rest := Above(structure, p, seen + {structure[current].id}, room - 1);
      assert (rest + [e]) + Reversed(up) == rest + ([e] + Reversed(up));
    }
  }

  /** Where the walk stops, what it has gathered is the whole path. */
  lemma NothingRemains(structure: seq<Node>, whole: Path, current: nat, seen: set<string>, room: nat, up: seq<Entry>)
    requires current < |structure| && Remaining(structure, whole, current, seen, room, up)
    requires structure[current].id in seen || room == 0
    ensures whole == Reversed(up)
  {
  }

  /** The ancestor walk as a loop; parent links may form a cycle. */
  method WalkUp(structure: seq<Node>, start: nat) returns (path: Path)
    requires start < |structure|
    ensures path == PathOf(structure, start)
  {
    var up: seq<Entry> := [];
    var current: nat, seen: set<string> := start, {};
    ghost var whole, room: nat := PathOf(structure, start), MAX_PATH;
    assert Remaining(structure, whole, start, {}, MAX_PATH, []);
    while structure[current].id !in seen && |up| < MAX_PATH
      invariant current < |structure| && |up| + room == MAX_PATH
      invariant Remaining(structure, whole, current, seen, room, up)
      decreases MAX_PATH - |up|
    {
      ClimbOne(structure, whole, current, seen, room, up);
      room := room - 1;
      var parent := Position(structure, structure[current].parent);
      seen := seen + {structure[current].id};
      up := up + [EntryOf(structure, current)];
      if parent == |structure| {
        return Reversed(up);
      }
      current := parent;
    }
    NothingRemains(structure, whole, current, seen, room, up);
    return Reversed(up);
  }

  // ---- the paths of a target ----

  function PathsInSource(w: World, target: string, s: Source, n: nat): seq<Path>
    requires n <= |s.structure|
  {
    if n == 0 then []
    else
      PathsInSource(w, target, s, n - 1) +
      (if Endpoint(w, target, s.observationId, s.structure[n - 1].target) then [PathOf(s.structure, n - 1)] else [])
  }

  function PathsInSources(w: World, target: string, sources: seq<Source>): seq<Path> {
    if sources == [] then []
    else PathsInSource(w, target, sources[0], |sources[0].structure|) + PathsInSources(w, target, sources[1..])
  }

  /** The paths in encounter order; the source then sorts them by their JSON text. */
  function Paths(w: World, target: string): seq<Path> {
    PathsInSources(w, target, w.sources)
  }

  // ---- renaming ----

  datatype Renaming = Renaming(observation: string -> string, target: string -> string, structure: string -> string)

  ghost predicate Injective(f: string -> string) {
    forall a, b :: f(a) == f(b) ==> a == b
  }

  ghost predicate Faithful(r: Renaming) {
    Injective(r.observation) && Injective(r.target) && Injective(r.structure)
  }

  function RenameNode(r: Renaming, n: Node): Node {
    Node(r.structure(n.id), r.target(n.target), r.structure(n.parent), n.face)
  }

  function RenameNodes(r: Renaming, nodes: seq<Node>): (renamed: seq<Node>) {
    seq(|nodes|, i requires 0 <= i < |nodes| => RenameNode(r, nodes[i]))
  }

  function RenameSource(r: Renaming, s: Source): Source {
    Source(r.observation(s.observationId), seq(|s.targets|, i requires 0 <= i < |s.targets| => r.target(s.targets[i])),
           RenameNodes(r, s.structure))
  }

  function RenameLink(r: Renaming, l: Link): Link {
    Link(r.observation(l.observationId), r.target(l.sourceTarget), r.target(l.canonicalTarget))
  }

  function RenameSources(r: Renaming, sources: seq<Source>): seq<Source> {
    seq(|sources|, i requires 0 <= i < |sources| => RenameSource(r, sources[i]))
  }

  function RenameWorld(r: Renaming, w: World): World {
    World(RenameSources(r, w.sources), seq(|w.links|, i requires 0 <= i < |w.links| => RenameLink(r, w.links[i])))
  }

  lemma PositionIsRenamed(r: Renaming, nodes: seq<Node>, id: string)
    requires Faithful(r)
    ensures Position(RenameNodes(r, nodes), r.structure(id)) == Position(nodes, id)
  {
    var renamed := RenameNodes(r, nodes);
    assert forall k | 0 <= k < |nodes| :: renamed[k].id == r.structure(nodes[k].id);
    PositionIs(nodes, id);
    PositionIs(renamed, r.structure(id));
    var p, q := Position(nodes, id), Position(renamed, r.structure(id));
    if p < |nodes| {
      assert renamed[p].id == r.structure(id);
    }
  }

  /** Two structures place their `i`-th nodes alike, and find them alike to the `current` one. */
  ghost predicate AlikeAt(a: seq<Node>, b: seq<Node>, current: nat, i: nat)
    requires current < |a| == |b| && i < |a|
  {
    && Position(a, a[i].id) == Position(b, b[i].id)
    && (Indistinguishable(a[i], a[current]) <==> Indistinguishable(b[i], b[current]))
  }

  lemma {:induction false} SiblingsAgree(a: seq<Node>, b: seq<Node>, current: nat, n: nat)
    requires current < |a| == |b| && n <= |a|
    requires forall i: nat | i < |a| :: AlikeAt(a, b, current, i)
    ensures EarlierSiblings(a, current, n) == EarlierSiblings(b, current, n)
  {
    if n == 0 {
    } else {
      SiblingsAgree(a, b, current, n - 1);
      assert AlikeAt(a, b, current, n - 1) && AlikeAt(a, b, current, current);
    }
  }

  lemma NodeIsRenamed(r: Renaming, nodes: seq<Node>, current: nat, i: nat)
    requires Faithful(r) && current < |nodes| && i < |nodes|
    ensures AlikeAt(RenameNodes(r, nodes), nodes, current, i)
  {
    PositionIsRenamed(r, nodes, nodes[i].id);
    assert RenameNodes(r, nodes)[i] == RenameNode(r, nodes[i]);
    assert RenameNodes(r, nodes)[current] == RenameNode(r, nodes[current]);
  }

  lemma SiblingsAreRenamed(r: Renaming, nodes: seq<Node>, current: nat, n: nat)
    requires Faithful(r) && current < |nodes| && n <= |nodes|
    ensures EarlierSiblings(RenameNodes(r, nodes), current, n) == EarlierSiblings(nodes, current, n)
  {
    forall i: nat | i < |nodes| ensures AlikeAt(RenameNodes(r, nodes), nodes, current, i) {
      NodeIsRenamed(r, nodes, current, i);
    }
    SiblingsAgree(RenameNodes(r, nodes), nodes, current, n);
  }

  function RenameIds(r: Renaming, ids: set<string>): set<string> {
    set id | id in ids :: r.structure(id)
  }

  lemma {:induction false} AboveIsRenamed(r: Renaming, nodes: seq<Node>, current: nat, seen: set<string>, room: nat)
    requires Faithful(r) && current < |nodes|
    ensures Above(RenameNodes(r, nodes), current, RenameIds(r, seen), room) == Above(nodes, current, seen, room)
    decreases room
  {
    var node := nodes[current];
    assert RenameNodes(r, nodes)[current] == RenameNode(r, node);
    if node.id !in seen && room != 0 {
      SiblingsAreRenamed(r, nodes, current, |nodes|);
      PositionIsRenamed(r, nodes, node.parent);
      assert RenameIds(r, seen + {node.id}) == RenameIds(r, seen) + {r.structure(node.id)};
      var p := Position(nodes, node.parent);
      if p < |nodes| {
        AboveIsRenamed(r, nodes, p, seen + {node.id}, room - 1);
      }
    }
  }

  lemma PathIsRenamed(r: Renaming, nodes: seq<Node>, current: nat)
    requires Faithful(r) && current < |nodes|
    ensures PathOf(RenameNodes(r, nodes), current) == PathOf(nodes, current)
  {
    assert RenameIds(r, {}) == {};
    AboveIsRenamed(r, nodes, current, {}, MAX_PATH);
  }

  lemma LinkedIsRenamed(r: Renaming, w: World, target: string, observationId: string, sourceTarget: string)
    requires Faithful(r)
    ensures Linked(RenameWorld(r, w).links, r.target(target), r.observation(observationId), r.target(sourceTarget))
       <==> Linked(w.links, target, observationId, sourceTarget)
  {
    var renamed := RenameWorld(r, w).links;
    assert forall i | 0 <= i < |w.links| :: renamed[i] == RenameLink(r, w.links[i]);
    if i :| 0 <= i < |w.links| && w.links[i] == Link(observationId, sourceTarget, target) {
      assert renamed[i] == Link(r.observation(observationId), r.target(sourceTarget), r.target(target));
    }
  }

  lemma HoldsIsRenamed(r: Renaming, s: Source, target: string)
    requires Faithful(r)
    ensures Holds(RenameSource(r, s), r.target(target)) <==> Holds(s, target)
  {
    assert forall k | 0 <= k < |s.targets| :: RenameSource(r, s).targets[k] == r.target(s.targets[k]);
    if k :| 0 <= k < |s.targets| && s.targets[k] == target {
      assert RenameSource(r, s).targets[k] == r.target(target);
    }
  }

  lemma ObservedIsRenamed(r: Renaming, sources: seq<Source>, target: string, observationId: string)
    requires Faithful(r)
    ensures Observed(RenameSources(r, sources), r.target(target), r.observation(observationId))
       <==> Observed(sources, target, observationId)
  {
    var renamed := RenameSources(r, sources);
    forall i | 0 <= i < |sources|
      ensures renamed[i].observationId == r.observation(sources[i].observationId)
      ensures Holds(renamed[i], r.target(target)) <==> Holds(sources[i], target)
    {
      HoldsIsRenamed(r, sources[i], target);
    }
    if i :| 0 <= i < |sources| && sources[i].observationId == observationId && Holds(sources[i], target) {
      assert renamed[i].observationId == r.observation(observationId);
    }
  }

  lemma EndpointIsRenamed(r: Renaming, w: World, target: string, observationId: string, sourceTarget: string)
    requires Faithful(r)
    ensures Endpoint(RenameWorld(r, w), r.target(target), r.observation(observationId), r.target(sourceTarget))
       <==> Endpoint(w, target, observationId, sourceTarget)
  {
    LinkedIsRenamed(r, w, target, observationId, sourceTarget);
    ObservedIsRenamed(r, w.sources, target, observationId);
  }

  lemma {:induction false} SourcePathsAreRenamed(r: Renaming, w: World, target: string, s: Source, n: nat)
    requires Faithful(r) && n <= |s.structure|
    ensures PathsInSource(RenameWorld(r, w), r.target(target), RenameSource(r, s), n) == PathsInSource(w, target, s, n)
  {
    if n == 0 {
    } else {
      SourcePathsAreRenamed(r, w, target, s, n - 1);
      SourceNodeIsRenamed(r, w, target, s, n - 1);
      SourcePathsStep(RenameWorld(r, w), r.target(target), RenameSource(r, s), w, target, s, n);
    }
  }

  lemma SourceNodeIsRenamed(r: Renaming, w: World, target: string, s: Source, k: nat)
    requires Faithful(r) && k < |s.structure|
    ensures var renamed := RenameSource(r, s);
            && |renamed.structure| == |s.structure|
            && PathOf(renamed.structure, k) == PathOf(s.structure, k)
            && (Endpoint(RenameWorld(r, w), r.target(target), renamed.observationId, renamed.structure[k].target)
                <==> Endpoint(w, target, s.observationId, s.structure[k].target))
  {
    assert RenameNodes(r, s.structure)[k] == RenameNode(r, s.structure[k]);
    EndpointIsRenamed(r, w, target, s.observationId, s.structure[k].target);
    PathIsRenamed(r, s.structure, k);
  }

  lemma SourcePathsStep(v: World, there: string, renamed: Source, w: World, target: string, s: Source, n: nat)
    requires 0 < n <= |s.structure| == |renamed.structure|
    requires PathsInSource(v, there, renamed, n - 1) == PathsInSource(w, target, s, n - 1)
    requires Endpoint(v, there, renamed.observationId, renamed.structure[n - 1].target)
        <==> Endpoint(w, target, s.observationId, s.structure[n - 1].target)
    requires PathOf(renamed.structure, n - 1) == PathOf(s.structure, n - 1)
    ensures PathsInSource(v, there, renamed, n) == PathsInSource(w, target, s, n)
  {
  }

  lemma {:induction false} SourcesPathsAreRenamed(r: Renaming, w: World, target: string, sources: seq<Source>)
    requires Faithful(r)
    ensures PathsInSources(RenameWorld(r, w), r.target(target), RenameSources(r, sources))
            == PathsInSources(w, target, sources)
  {
    if sources == [] {
    } else {
      SourcePathsAreRenamed(r, w, target, sources[0], |sources[0].structure|);
      SourcesPathsAreRenamed(r, w, target, sources[1..]);
      assert RenameSources(r, sources)[1..] == RenameSources(r, sources[1..]);
      assert RenameSources(r, sources)[0] == RenameSource(r, sources[0]);
    }
  }

  /** No observation, target or structure id leaves a trace in the paths. */
  lemma PathsAreRefFree(r: Renaming, w: World, target: string)
    requires Faithful(r)
    ensures Paths(RenameWorld(r, w), r.target(target)) == Paths(w, target)
  {
    SourcesPathsAreRenamed(r, w, target, w.sources);
  }

  // ---- reordering sources ----

  lemma SameEndpoints(v: World, w: World, target: string, observationId: string, sourceTarget: string)
    requires v.links == w.links && multiset(v.sources) == multiset(w.sources)
    ensures Endpoint(v, target, observationId, sourceTarget) <==> Endpoint(w, target, observationId, sourceTarget)
  {
    if Observed(v.sources, target, observationId) {
      SameObserved(v.sources, w.sources, target, observationId);
    }
    if Observed(w.sources, target, observationId) {
      SameObserved(w.sources, v.sources, target, observationId);
    }
  }

  lemma SameObserved(a: seq<Source>, b: seq<Source>, target: string, observationId: string)
    requires multiset(a) == multiset(b) && Observed(a, target, observationId)
    ensures Observed(b, target, observationId)
  {
    var i :| 0 <= i < |a| && a[i].observationId == observationId && Holds(a[i], target);
    assert a[i] in multiset(b);
    var k :| 0 <= k < |b| && b[k] == a[i];
  }

  lemma {:induction false} SamePathsInSource(v: World, w: World, target: string, s: Source, n: nat)
    requires v.links == w.links && multiset(v.sources) == multiset(w.sources) && n <= |s.structure|
    ensures PathsInSource(v, target, s, n) == PathsInSource(w, target, s, n)
  {
    if n == 0 {
    } else {
      SamePathsInSource(v, w, target, s, n - 1);
      SameEndpoints(v, w, target, s.observationId, s.structure[n - 1].target);
    }
  }

  lemma {:induction false} SamePathsInSources(v: World, w: World, target: string, sources: seq<Source>)
    requires v.links == w.links && multiset(v.sources) == multiset(w.sources)
    ensures PathsInSources(v, target, sources) == PathsInSources(w, target, sources)
  {
    if sources == [] {
    } else {
      SamePathsInSource(v, w, target, sources[0], |sources[0].structure|);
      SamePathsInSources(v, w, target, sources[1..]);
    }
  }

  lemma {:induction false} PathsSplit(w: World, target: string, a: seq<Source>, b: seq<Source>)
    ensures PathsInSources(w, target, a + b) == PathsInSources(w, target, a) + PathsInSources(w, target, b)
  {
    if a == [] {
      assert a + b == b;
    } else {
      PathsSplit(w, target, a[1..], b);
      assert (a + b)[1..] == a[1..] + b;
    }
  }

  /** The paths are those of one chosen source and those of the others. */
  lemma PathsWithout(w: World, target: string, b: seq<Source>, k: nat)
    requires k < |b|
    ensures multiset(PathsInSources(w, target, b)) ==
              multiset(PathsInSource(w, target, b[k], |b[k].structure|))
                + multiset(PathsInSources(w, target, b[..k] + b[k + 1..]))
  {
    var left, right := b[..k], b[k + 1..];
    assert b == left + ([b[k]] + right);
    PathsSplit(w, target, left, [b[k]] + right);
    PathsSplit(w, target, left, right);
    assert ([b[k]] + right)[1..] == right;
  }

  lemma {:induction false} ReorderedPaths(w: World, target: string, a: seq<Source>, b: seq<Source>)
    requires multiset(a) == multiset(b)
    ensures multiset(PathsInSources(w, target, a)) == multiset(PathsInSources(w, target, b))
    decreases |a|
  {
    if a == [] {
      assert |multiset(b)| == 0;
    } else {
      var k := RemoveOne(a, b);
      ReorderedPaths(w, target, a[1..], b[..k] + b[k + 1..]);
      PathsWithout(w, target, b, k);
    }
  }

  /** Listing the sources in another order gives the same collection of paths. */
  lemma PathsIgnoreSourceOrder(v: World, w: World, target: string)
    requires v.links == w.links && multiset(v.sources) == multiset(w.sources)
    ensures multiset(Paths(v, target)) == multiset(Paths(w, target))
  {
    SamePathsInSources(v, w, target, v.sources);
    ReorderedPaths(w, target, v.sources, w.sources);
  }

  /** The order by JSON text. */
  function ByText(text: Path -> string): (Path, Path) -> bool {
    (p: Path, q: Path) => StringLess(text(p), text(q))
  }

  /** `_structure_paths`: the paths sorted by their JSON text. */
  function SortedPaths(text: Path -> string, w: World, target: string): seq<Path> {
    Sorted(ByText(text), Paths(w, target))
  }

  lemma TextsOrderPaths(text: Path -> string)
    requires forall p, q :: text(p) == text(q) ==> p == q
    ensures StrictTotalOrder(ByText(text))
  {
    StringsAreOrdered();
  }

  /** Neither renaming the ids nor reordering the sources changes the sorted paths. */
  lemma SortedPathsAreIdentity(text: Path -> string, r: Renaming, v: World, w: World, target: string)
    requires forall p, q :: text(p) == text(q) ==> p == q
    requires Faithful(r) && v.links == w.links && multiset(v.sources) == multiset(w.sources)
    ensures SortedPaths(text, RenameWorld(r, v), r.target(target)) == SortedPaths(text, w, target)
  {
    PathsAreRefFree(r, v, target);
    PathsIgnoreSourceOrder(v, w, target);
    TextsOrderPaths(text);
    SortingForgetsOrder(ByText(text), Paths(v, target), Paths(w, target));
  }

  // ---- which nodes have a path ----

  /** The node stands for the target: a link says so, or it has the target's id and a source of its id observed it. */
  ghost predicate StandsFor(w: World, target: string, s: Source, n: int) {
    && 0 <= n < |s.structure|
    && (|| (exists l :: l in w.links && l.canonicalTarget == target
                        && l.observationId == s.observationId && l.sourceTarget == s.structure[n].target)
        || (s.structure[n].target == target
            && exists o :: o in w.sources && o.observationId == s.observationId && target in o.targets))
  }

  lemma EndpointStandsFor(w: World, target: string, s: Source, n: nat)
    requires n < |s.structure|
    ensures Endpoint(w, target, s.observationId, s.structure[n].target) <==> StandsFor(w, target, s, n)
  {
    var there := s.structure[n].target;
    if i :| 0 <= i < |w.links| && w.links[i] == Link(s.observationId, there, target) {
      assert w.links[i] in w.links;
    }
    if l :| l in w.links && l.canonicalTarget == target
            && l.observationId == s.observationId && l.sourceTarget == there {
      assert l == Link(s.observationId, there, target);
    }
    if i :| 0 <= i < |w.sources| && w.sources[i].observationId == s.observationId && Holds(w.sources[i], target) {
      assert w.sources[i] in w.sources;
    }
    if o :| o in w.sources && o.observationId == s.observationId && target in o.targets {
      var i :| 0 <= i < |w.sources| && w.sources[i] == o;
      assert Holds(w.sources[i], target);
    }
  }

  /** The nodes before `n` that stand for the target, in order. */
  ghost predicate NodesFor(w: World, target: string, s: Source, n: nat, nodes: seq<nat>) {
    && (forall i, j | 0 <= i < j < |nodes| :: nodes[i] < nodes[j])
    && forall m: nat :: m in nodes <==> m < n && StandsFor(w, target, s, m)
  }

  ghost predicate PathsOfNodes(s: Source, paths: seq<Path>, nodes: seq<nat>) {
    && |paths| == |nodes|
    && forall k | 0 <= k < |nodes| :: nodes[k] < |s.structure| && paths[k] == PathOf(s.structure, nodes[k])
  }

  lemma MoreNodes(w: World, target: string, s: Source, n: nat, nodes: seq<nat>)
    requires NodesFor(w, target, s, n, nodes)
    ensures NodesFor(w, target, s, n + 1, if StandsFor(w, target, s, n) then nodes + [n] else nodes)
  {
    forall k | 0 <= k < |nodes| ensures nodes[k] < n {
      assert nodes[k] in nodes;
    }
  }

  lemma {:induction false} SourceNodes(w: World, target: string, s: Source, n: nat) returns (nodes: seq<nat>)
    requires n <= |s.structure|
    ensures PathsOfNodes(s, PathsInSource(w, target, s, n), nodes) && NodesFor(w, target, s, n, nodes)
  {
    nodes := [];
    if n == 0 {
    } else {
      nodes := SourceNodes(w, target, s, n - 1);
      EndpointStandsFor(w, target, s, n - 1);
      MoreNodes(w, target, s, n - 1, nodes);
      if StandsFor(w, target, s, n - 1) {
        MorePaths(s, PathsInSource(w, target, s, n - 1), nodes, n - 1);
        nodes := nodes + [n - 1];
      }
    }
  }

  lemma MorePaths(s: Source, paths: seq<Path>, nodes: seq<nat>, n: nat)
    requires PathsOfNodes(s, paths, nodes) && n < |s.structure|
    ensures PathsOfNodes(s, paths + [PathOf(s.structure, n)], nodes + [n])
  {
  }

  /** In each source exactly the nodes that stand for the target have a path, one each, in order. */
  lemma PathsInSourceAre(w: World, target: string, s: Source) returns (nodes: seq<nat>)
    ensures PathsOfNodes(s, PathsInSource(w, target, s, |s.structure|), nodes)
    ensures NodesFor(w, target, s, |s.structure|, nodes)
  {
    nodes := SourceNodes(w, target, s, |s.structure|);
  }

  /** A target's paths are those of its sources, one source after another. */
  lemma {:induction false} PathsAreOfSources(w: World, target: string, sources: seq<Source>)
    ensures forall p :: p in PathsInSources(w, target, sources) <==>
              exists s, n :: s in sources && StandsFor(w, target, s, n) && p == PathOf(s.structure, n)
  {
    if sources == [] {
    } else {
      var s := sources[0];
      PathsAreOfSources(w, target, sources[1..]);
      var nodes := PathsInSourceAre(w, target, s);
      forall p ensures p in PathsInSource(w, target, s, |s.structure|) <==>
                         exists n :: StandsFor(w, target, s, n) && p == PathOf(s.structure, n)
      {
        if n :| StandsFor(w, target, s, n) && p == PathOf(s.structure, n) {
          var m: nat := n;
          assert m in nodes;
          var k :| 0 <= k < |nodes| && nodes[k] == m;
        }
        if k :| 0 <= k < |nodes| && p == PathsInSource(w, target, s, |s.structure|)[k] {
          assert nodes[k] in nodes;
        }
      }
      assert forall x :: x in sources <==> x == s || x in sources[1..];
    }
  }

  // ---- what one path says ----

  ghost predicate UniqueIds(structure: seq<Node>) {
    forall i, j | 0 <= i < j < |structure| :: structure[i].id != structure[j].id
  }

  ghost function SiblingsBefore(structure: seq<Node>, current: nat, n: nat): set<nat>
    requires current < |structure| && n <= |structure|
  {
    set j: nat | j < n && j < current && Indistinguishable(structure[j], structure[current])
  }

  lemma PositionOfOwnId(structure: seq<Node>, i: nat)
    requires UniqueIds(structure) && i < |structure|
    ensures Position(structure, structure[i].id) == i
  {
    PositionIs(structure, structure[i].id);
  }

  lemma OneMoreSibling(structure: seq<Node>, current: nat, n: nat)
    requires current < |structure| && n < |structure|
    ensures SiblingsBefore(structure, current, n + 1) ==
              if n < current && Indistinguishable(structure[n], structure[current])
                then SiblingsBefore(structure, current, n) + {n}
              else SiblingsBefore(structure, current, n)
    ensures n !in SiblingsBefore(structure, current, n)
  {
  }

  ghost predicate OwnPositions(structure: seq<Node>) {
    forall i | 0 <= i < |structure| :: Position(structure, structure[i].id) == i
  }

  lemma {:induction false} CountsEarlier(structure: seq<Node>, current: nat, n: nat)
    requires OwnPositions(structure) && current < |structure| && n <= |structure|
    ensures EarlierSiblings(structure, current, n) == |SiblingsBefore(structure, current, n)|
  {
    if n == 0 {
      assert SiblingsBefore(structure, current, n) == {};
    } else {
      CountsEarlier(structure, current, n - 1);
      OneMoreSibling(structure, current, n - 1);
      assert Position(structure, structure[n - 1].id) == n - 1;
      assert Position(structure, structure[current].id) == current;
    }
  }

  /** An ordinal counts the earlier siblings no public fact tells apart. */
  lemma OrdinalCountsEarlierSiblings(structure: seq<Node>, current: nat)
    requires UniqueIds(structure) && current < |structure|
    ensures EntryOf(structure, current)
            == Entry(structure[current].face, |SiblingsBefore(structure, current, |structure|)|)
  {
    forall i | 0 <= i < |structure| ensures Position(structure, structure[i].id) == i {
      PositionOfOwnId(structure, i);
    }
    CountsEarlier(structure, current, |structure|);
  }

  /** So two nodes under one parent never share an entry. */
  lemma SiblingsHaveDistinctEntries(structure: seq<Node>, i: nat, j: nat)
    requires UniqueIds(structure) && i < j < |structure| && structure[i].parent == structure[j].parent
    ensures EntryOf(structure, i) != EntryOf(structure, j)
  {
    if structure[i].face == structure[j].face {
      OrdinalCountsEarlierSiblings(structure, i);
      OrdinalCountsEarlierSiblings(structure, j);
      var before, after := SiblingsBefore(structure, i, |structure|), SiblingsBefore(structure, j, |structure|);
      assert before + {i} <= after;
      SubsetIsNoLarger(before + {i}, after);
    }
  }

  lemma {:induction false} SubsetIsNoLarger(a: set<nat>, b: set<nat>)
    requires a <= b
    ensures |a| <= |b|
  {
    if a != {} {
      var x :| x in a;
      SubsetIsNoLarger(a - {x}, b - {x});
    }
  }

  /** The nodes a path is made of, the node itself first. */
  ghost function Chain(structure: seq<Node>, current: nat, seen: set<string>, room: nat): seq<nat>
    requires current < |structure|
    decreases room
  {
    if structure[current].id in seen || room == 0 then []
    else
      var p := Position(structure, structure[current].parent);
      [current] + if p == |structure| then [] else Chain(structure, p, seen + {structure[current].id}, room - 1)
  }

  /** The chain climbs parent links, never revisits an id, and is no longer than its room. */
  lemma {:induction false} ChainClimbs(structure: seq<Node>, current: nat, seen: set<string>, room: nat)
    requires current < |structure|
    ensures var chain := Chain(structure, current, seen, room);
            && |chain| <= room
            && (forall k | 0 <= k < |chain| :: chain[k] < |structure| && structure[chain[k]].id !in seen)
            && (structure[current].id !in seen && room > 0 ==> |chain| > 0 && chain[0] == current)
            && (forall k | 0 <= k < |chain| - 1 :: chain[k + 1] == Position(structure, structure[chain[k]].parent))
            && (forall i, j | 0 <= i < j < |chain| :: structure[chain[i]].id != structure[chain[j]].id)
    decreases room
  {
    if structure[current].id !in seen && room != 0 {
      var p := Position(structure, structure[current].parent);
      if p < |structure| {
        ChainClimbs(structure, p, seen + {structure[current].id}, room - 1);
        var rest := Chain(structure, p, seen + {structure[current].id}, room - 1);
        assert Chain(structure, current, seen, room) == [current] + rest;
      }
    }
  }

  /** There is no node to go on to: the parent is missing, or has an id that was passed before. */
  ghost predicate EndsAt(structure: seq<Node>, last: nat, seen: set<string>)
    requires last < |structure|
  {
    var parent := structure[last].parent;
    parent in seen || parent == structure[last].id || forall i | 0 <= i < |structure| :: structure[i].id != parent
  }

  ghost function IdsOf(structure: seq<Node>, chain: seq<nat>): set<string>
    requires forall k | 0 <= k < |chain| :: chain[k] < |structure|
  {
    set k | 0 <= k < |chain| :: structure[chain[k]].id
  }

  /** The chain goes on for as long as there is room. */
  lemma {:induction false} ChainGoesOn(structure: seq<Node>, current: nat, seen: set<string>, room: nat)
    requires current < |structure| && structure[current].id !in seen && room > 0
    ensures var chain := Chain(structure, current, seen, room);
            && chain != [] && (forall k | 0 <= k < |chain| :: chain[k] < |structure|)
            && (|chain| == room || EndsAt(structure, chain[|chain| - 1], seen + IdsOf(structure, chain)))
    decreases room
  {
    ChainClimbs(structure, current, seen, room);
    PositionIs(structure, structure[current].parent);
    var chain, p := Chain(structure, current, seen, room), Position(structure, structure[current].parent);
    var grown := seen + {structure[current].id};
    if p == |structure| || structure[p].id in grown || room == 1 {
      assert chain == [current];
    } else {
      ChainGoesOn(structure, p, grown, room - 1);
      var rest := Chain(structure, p, grown, room - 1);
      assert chain == [current] + rest;
      assert grown + IdsOf(structure, rest) == seen + IdsOf(structure, chain) by {
        IdsOfMore(structure, current, rest);
      }
    }
  }

  lemma IdsOfMore(structure: seq<Node>, current: nat, rest: seq<nat>)
    requires current < |structure| && forall k | 0 <= k < |rest| :: rest[k] < |structure|
    ensures IdsOf(structure, [current] + rest) == {structure[current].id} + IdsOf(structure, rest)
  {
    var chain := [current] + rest;
    forall k | 0 <= k < |rest| ensures structure[rest[k]].id in IdsOf(structure, chain) {
      assert chain[k + 1] == rest[k];
    }
    assert chain[0] == current;
  }

  ghost predicate Describes(structure: seq<Node>, path: Path, chain: seq<nat>) {
    && |path| == |chain|
    && forall k | 0 <= k < |chain| :: chain[k] < |structure| && path[|chain| - 1 - k] == EntryOf(structure, chain[k])
  }

  lemma {:induction false} AboveDescribesChain(structure: seq<Node>, current: nat, seen: set<string>, room: nat)
    requires current < |structure|
    ensures Describes(structure, Above(structure, current, seen, room), Chain(structure, current, seen, room))
    decreases room
  {
    if structure[current].id !in seen && room != 0 {
      var p := Position(structure, structure[current].parent);
      if p < |structure| {
        AboveDescribesChain(structure, p, seen + {structure[current].id}, room - 1);
        var rest := Chain(structure, p, seen + {structure[current].id}, room - 1);
        assert Chain(structure, current, seen, room) == [current] + rest;
      }
    }
  }

  /** The chain starts at the node and climbs to distinct successive parents. */
  ghost predicate Climbs(structure: seq<Node>, current: nat, chain: seq<nat>) {
    && chain != [] && chain[0] == current
    && (forall k | 0 <= k < |chain| :: chain[k] < |structure|)
    && (forall k | 0 < k < |chain| :: structure[chain[k]].id == structure[chain[k - 1]].parent)
    && forall i, j | 0 <= i < j < |chain| :: structure[chain[i]].id != structure[chain[j]].id
  }

  lemma ChainIsClimb(structure: seq<Node>, current: nat)
    requires current < |structure|
    ensures Climbs(structure, current, Chain(structure, current, {}, MAX_PATH))
  {
    var chain := Chain(structure, current, {}, MAX_PATH);
    ChainClimbs(structure, current, {}, MAX_PATH);
    forall k | 0 < k < |chain| ensures structure[chain[k]].id == structure[chain[k - 1]].parent {
      assert chain[k - 1 + 1] == Position(structure, structure[chain[k - 1]].parent);
      PositionIs(structure, structure[chain[k - 1]].parent);
    }
  }

  /**
   Cyclic parent links included, a path has one to eight entries, root first: those of the node and of distinct
   successive ancestors, each numbered among the siblings no public fact tells apart. It stops short of eight only where
   the parent is missing or was passed before.
   */
  lemma PathsFollowAncestors(structure: seq<Node>, current: nat) returns (chain: seq<nat>)
    requires UniqueIds(structure) && current < |structure|
    ensures 1 <= |chain| == |PathOf(structure, current)| <= 8
    ensures Climbs(structure, current, chain)
    ensures |chain| < 8 ==> EndsAt(structure, chain[|chain| - 1], IdsOf(structure, chain))
    ensures forall k | 0 <= k < |chain| :: PathOf(structure, current)[|chain| - 1 - k] ==
              Entry(structure[chain[k]].face, |SiblingsBefore(structure, chain[k], |structure|)|)
  {
    chain := Chain(structure, current, {}, MAX_PATH);
    ChainIsClimb(structure, current);
    ChainClimbs(structure, current, {}, MAX_PATH);
    ChainGoesOn(structure, current, {}, MAX_PATH);
    AboveDescribesChain(structure, current, {}, MAX_PATH);
    assert {} + IdsOf(structure, chain) == IdsOf(structure, chain);
    forall k | 0 <= k < |chain|
      ensures EntryOf(structure, chain[k])
              == Entry(structure[chain[k]].face, |SiblingsBefore(structure, chain[k], |structure|)|)
    {
      OrdinalCountsEarlierSiblings(structure, chain[k]);
    }
  }
}
