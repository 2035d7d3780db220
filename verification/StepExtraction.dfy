/** Cutting one OSRM leg into steps with edge lists (`extract_steps_with_edges`). */
module StepExtraction {
  import opened EdgeIds

  type Edge = string

  /** What the extraction reads of an OSRM step: `coordinates` is the length of its geometry. */
  datatype OsrmStep = OsrmStep(name: string, distance: real, coordinates: nat)

  datatype NamedStep = NamedStep(name: string, edges: seq<Edge>)

  function NumEdges(step: OsrmStep): nat {
    if step.coordinates == 0 then 0 else step.coordinates - 1
  }

  /** The edges of the whole path, each under the name of its two nodes. */
  function PathEdges(nodes: seq<int>): seq<Edge> {
    Along(nodes, EdgeId)
  }

  function Along<T>(nodes: seq<int>, name: (int, int) -> T): (path: seq<T>)
    ensures |path| == if |nodes| < 2 then 0 else |nodes| - 1
    ensures forall i {:trigger path[i]} :: 0 <= i < |path| ==> path[i] == name(nodes[i], nodes[i + 1])
  {
    if |nodes| < 2 then []
    else seq(|nodes| - 1, i requires 0 <= i < |nodes| - 1 => name(nodes[i], nodes[i + 1]))
  }

  /** Where the cursor stands before step `k`. */
  function Cursor(steps: seq<OsrmStep>, k: nat): nat
    requires k <= |steps|
  {
    if k == 0 then 0 else Cursor(steps, k - 1) + NumEdges(steps[k - 1])
  }

  function Clip(path: seq<Edge>, lo: nat, hi: nat): seq<Edge>
    requires lo <= hi
  {
    if lo >= |path| then [] else if hi >= |path| then path[lo..] else path[lo..hi]
  }

  /** The edges of step `k`: the path between its cursors, clipped to the path. */
  function StepSlice(path: seq<Edge>, steps: seq<OsrmStep>, k: nat): seq<Edge>
    requires k < |steps|
  {
    Clip(path, Cursor(steps, k), Cursor(steps, k + 1))
  }

  predicate Kept(path: seq<Edge>, steps: seq<OsrmStep>, k: nat)
    requires k < |steps|
  {
    steps[k].distance > 0.0 && StepSlice(path, steps, k) != []
  }

  function NameOf(step: OsrmStep): string {
    if step.name == "" then "unnamed" else step.name
  }

  /** The first `k` steps, extracted: each kept step with its slice, in order. */
  function Extracted(path: seq<Edge>, steps: seq<OsrmStep>, k: nat): seq<NamedStep>
    requires k <= |steps|
  {
    if k == 0 then []
    else
      Extracted(path, steps, k - 1) +
      if Kept(path, steps, k - 1) then [NamedStep(NameOf(steps[k - 1]), StepSlice(path, steps, k - 1))] else []
  }

  // ----- the same, told on the nodes

  /** Step `k` begins at the node with index `starts[k]`, at which the step before it ended: `n` coordinates make `n - 1` edges. */
  ghost predicate Chained(steps: seq<OsrmStep>, starts: seq<nat>) {
    && |starts| == |steps| + 1 && starts[0] == 0
    && forall k :: 0 <= k < |steps| ==>
         starts[k + 1] == if steps[k].coordinates == 0 then starts[k] else starts[k] + steps[k].coordinates - 1
  }

  /** The nodes a step passes: as many as it has coordinates, as far as there are any. */
  function StepNodes(nodes: seq<int>, start: nat, coordinates: nat): seq<int> {
    if start + coordinates <= |nodes| then nodes[start..start + coordinates]
    else if start <= |nodes| then nodes[start..]
    else []
  }

  /** The first `k` steps, each of positive length with the edges between its own nodes. */
  function Driven(nodes: seq<int>, steps: seq<OsrmStep>, starts: seq<nat>, k: nat): seq<NamedStep>
    requires k <= |steps| <= |starts|
  {
    if k == 0 then []
    else
      var edges := PathEdges(StepNodes(nodes, starts[k - 1], steps[k - 1].coordinates));
      Driven(nodes, steps, starts, k - 1) +
      if steps[k - 1].distance > 0.0 && edges != []
      then [NamedStep(if steps[k - 1].name == "" then "unnamed" else steps[k - 1].name, edges)] else []
  }

  /** There is exactly one such chain. */
  lemma OneChain(steps: seq<OsrmStep>)
    ensures exists starts :: Chained(steps, starts)
    ensures forall a, b :: Chained(steps, a) && Chained(steps, b) ==> a == b
  {
    var starts := ChainOf(steps, |steps|);
    assert steps[..|steps|] == steps && Chained(steps, starts);
    forall a, b | Chained(steps, a) && Chained(steps, b) ensures a == b {
      forall k | 0 <= k <= |steps| ensures a[k] == b[k] {
        CursorIsStart(steps, a, k);
        CursorIsStart(steps, b, k);
      }
    }
  }

  lemma {:induction false} ChainOf(steps: seq<OsrmStep>, k: nat) returns (starts: seq<nat>)
    requires k <= |steps|
    ensures Chained(steps[..k], starts)
  {
    if k == 0 {
      starts := [0];
    } else {
      starts := ChainOf(steps, k - 1);
      var next := if steps[k - 1].coordinates == 0 then starts[k - 1] else starts[k - 1] + steps[k - 1].coordinates - 1;
      starts := starts + [next];
    }
  }

  lemma {:induction false} CursorIsStart(steps: seq<OsrmStep>, starts: seq<nat>, k: nat)
    requires Chained(steps, starts) && k <= |steps|
    ensures Cursor(steps, k) == starts[k]
  {
    if k > 0 {
      CursorIsStart(steps, starts, k - 1);
    }
  }

  lemma AlongSlice<T>(nodes: seq<int>, name: (int, int) -> T, lo: nat, hi: nat)
    requires lo + 2 <= hi <= |nodes|
    ensures Along(nodes[lo..hi], name) == Along(nodes, name)[lo..hi - 1]
  {
    assert forall i :: 0 <= i < hi - 1 - lo ==> Along(nodes[lo..hi], name)[i] == Along(nodes, name)[lo + i];
  }

  /** The slice of the path between two cursors runs along the step's own nodes. */
  lemma SliceIsAlongNodes(nodes: seq<int>, start: nat, coordinates: nat)
    ensures Clip(PathEdges(nodes), start, if coordinates == 0 then start else start + coordinates - 1)
         == PathEdges(StepNodes(nodes, start, coordinates))
  {
    var end := if start + coordinates <= |nodes| then start + coordinates else |nodes|;
    if start + 2 <= end {
      assert StepNodes(nodes, start, coordinates) == nodes[start..end];
      AlongSlice(nodes, EdgeId, start, end);
    }
  }

  /** What is extracted is what is driven: wherever the steps begin, each kept one has the edges along its own nodes. */
  lemma {:induction false} ExtractedIsDriven(nodes: seq<int>, steps: seq<OsrmStep>, starts: seq<nat>, k: nat)
    requires Chained(steps, starts) && k <= |steps|
    ensures Extracted(PathEdges(nodes), steps, k) == Driven(nodes, steps, starts, k)
  {
    if k > 0 {
      ExtractedIsDriven(nodes, steps, starts, k - 1);
      SliceIsOwnEdges(nodes, steps, starts, k - 1);
    }
  }

  /**
   * A step that fits on the path has one edge fewer than coordinates, the stretch of the path from its first node to its
   * last, which is where the next step begins.
   */
  lemma StepHasItsEdges(nodes: seq<int>, steps: seq<OsrmStep>, starts: seq<nat>, k: nat)
    requires Chained(steps, starts) && k < |steps|
    requires steps[k].coordinates >= 2 && starts[k] + steps[k].coordinates <= |nodes|
    ensures
      var own := StepNodes(nodes, starts[k], steps[k].coordinates);
      && |own| == steps[k].coordinates && own[0] == nodes[starts[k]] && own[|own| - 1] == nodes[starts[k + 1]]
      && |PathEdges(own)| == steps[k].coordinates - 1
      && PathEdges(own) == PathEdges(nodes)[starts[k]..starts[k + 1]]
  {
    AlongSlice(nodes, EdgeId, starts[k], starts[k] + steps[k].coordinates);
  }

  method ExtractStepsWithEdges(nodes: seq<int>, steps: seq<OsrmStep>) returns (result: seq<NamedStep>)
    ensures result == Extracted(PathEdges(nodes), steps, |steps|)
    ensures forall starts :: Chained(steps, starts) ==> result == Driven(nodes, steps, starts, |steps|)
  {
    forall starts | Chained(steps, starts)
      ensures Extracted(PathEdges(nodes), steps, |steps|) == Driven(nodes, steps, starts, |steps|)
    {
      ExtractedIsDriven(nodes, steps, starts, |steps|);
    }
    ghost var path := PathEdges(nodes);
    if |nodes| < 2 {
      NothingExtracted(steps, |steps|);
      return [];
    }
    var nodeIndex := 0;
    result := [];
    for k := 0 to |steps|
      invariant nodeIndex == Cursor(steps, k)
      invariant result == Extracted(path, steps, k)
    {
      var step := steps[k];
      var numEdges := if step.coordinates > 1 then step.coordinates - 1 else 0;
      if step.distance > 0.0 && numEdges > 0 {
        var edgeIds := EdgesBetween(nodes, nodeIndex, nodeIndex + numEdges);
        if edgeIds != [] {
          result := result + [NamedStep(NameOf(step), edgeIds)];
        }
      }
      if step.coordinates > 1 {
        nodeIndex := nodeIndex + numEdges;
      }
    }
  }

  /** The inner loop: edges past the end of the path are skipped. */
  method EdgesBetween(nodes: seq<int>, from: nat, to: nat) returns (edgeIds: seq<Edge>)
    requires from <= to && |nodes| >= 2
    ensures edgeIds == Clip(PathEdges(nodes), from, to)
  {
    edgeIds := [];
    for i := from to to
      invariant edgeIds == Clip(PathEdges(nodes), from, i)
    {
      PathOneMore(nodes, from, i);
      if i < |nodes| - 1 {
        edgeIds := edgeIds + [EdgeId(nodes[i], nodes[i + 1])];
      }
    }
  }

  lemma PathAt(nodes: seq<int>, i: nat)
    requires i < |nodes| - 1
    ensures PathEdges(nodes)[i] == EdgeId(nodes[i], nodes[i + 1])
  {
  }

  lemma PathOneMore(nodes: seq<int>, lo: nat, i: nat)
    requires lo <= i && |nodes| >= 2
    ensures Clip(PathEdges(nodes), lo, i + 1)
         == if i < |nodes| - 1 then Clip(PathEdges(nodes), lo, i) + [EdgeId(nodes[i], nodes[i + 1])] else Clip(PathEdges(nodes), lo, i)
  {
    var path := PathEdges(nodes);
    ClipOneMore(path, lo, i);
    assert |path| == |nodes| - 1;
    if i < |nodes| - 1 {
      PathAt(nodes, i);
    }
  }

  lemma ClipOneMore(path: seq<Edge>, lo: nat, i: nat)
    requires lo <= i
    ensures Clip(path, lo, i + 1) == if i < |path| then Clip(path, lo, i) + [path[i]] else Clip(path, lo, i)
  {
  }

  lemma {:induction false} NothingExtracted(steps: seq<OsrmStep>, k: nat)
    requires k <= |steps|
    ensures Extracted([], steps, k) == []
  {
    if k > 0 {
      NothingExtracted(steps, k - 1);
    }
  }

  function Concatenated(steps: seq<NamedStep>): seq<Edge> {
    if steps == [] then [] else Concatenated(steps[..|steps| - 1]) + steps[|steps| - 1].edges
  }

  /** No step among the first `k` loses edges: each has positive distance or none to lose. */
  ghost predicate NothingDropped(path: seq<Edge>, steps: seq<OsrmStep>, k: nat)
    requires k <= |steps|
  {
    forall i :: 0 <= i < k ==> steps[i].distance > 0.0 || StepSlice(path, steps, i) == []
  }

  /** `tiles` is the whole of `path`, or shorter if something was dropped. */
  predicate Tiles(tiles: seq<Edge>, path: seq<Edge>, whole: bool) {
    if whole then tiles == path else |tiles| < |path|
  }

  /** What is kept of the first `k` steps is the path up to the cursor if none of them loses edges, and shorter if one does. */
  ghost predicate TilesTo(path: seq<Edge>, steps: seq<OsrmStep>, k: nat)
    requires k <= |steps|
  {
    Tiles(Concatenated(Extracted(path, steps, k)), Clip(path, 0, Cursor(steps, k)), NothingDropped(path, steps, k))
  }

  lemma SlicesTilePrefix(path: seq<Edge>, steps: seq<OsrmStep>, k: nat)
    requires k <= |steps|
    ensures TilesTo(path, steps, k)
  {
    TilesNothing(path, steps);
    for i := 0 to k
      invariant TilesTo(path, steps, i)
    {
      TilesOneStep(path, steps, i);
    }
  }

  lemma TilesNothing(path: seq<Edge>, steps: seq<OsrmStep>)
    ensures TilesTo(path, steps, 0)
  {
  }

  lemma TilesOneStep(path: seq<Edge>, steps: seq<OsrmStep>, k: nat)
    requires k < |steps| && TilesTo(path, steps, k)
    ensures TilesTo(path, steps, k + 1)
  {
    var before, clip := Concatenated(Extracted(path, steps, k)), Clip(path, 0, Cursor(steps, k));
    SliceJoins(path, steps, k);
    ClipJoins(path, Cursor(steps, k), Cursor(steps, k + 1));
    DroppedOneMore(path, steps, k);
    TileOneMore(before, StepSlice(path, steps, k), clip, steps[k].distance > 0.0, NothingDropped(path, steps, k));
  }

  lemma DroppedOneMore(path: seq<Edge>, steps: seq<OsrmStep>, k: nat)
    requires k < |steps|
    ensures NothingDropped(path, steps, k + 1) <==>
      NothingDropped(path, steps, k) && (steps[k].distance > 0.0 || StepSlice(path, steps, k) == [])
  {
  }

  lemma TileOneMore(before: seq<Edge>, slice: seq<Edge>, path: seq<Edge>, keep: bool, whole: bool)
    requires Tiles(before, path, whole)
    ensures Tiles(before + if keep then slice else [], path + slice, whole && (keep || slice == []))
  {
  }

  lemma SliceJoins(path: seq<Edge>, steps: seq<OsrmStep>, k: nat)
    requires k < |steps|
    ensures Concatenated(Extracted(path, steps, k + 1))
         == Concatenated(Extracted(path, steps, k)) + if steps[k].distance > 0.0 then StepSlice(path, steps, k) else []
  {
    var before, slice := Extracted(path, steps, k), StepSlice(path, steps, k);
    var step := NamedStep(NameOf(steps[k]), slice);
    ConcatenatedAppend(before, step);
    if Kept(path, steps, k) {
      assert Extracted(path, steps, k + 1) == before + [step];
    } else {
      assert Extracted(path, steps, k + 1) == before + [] == before;
      assert Concatenated(before) + [] == Concatenated(before);
    }
  }

  lemma ConcatenatedAppend(steps: seq<NamedStep>, step: NamedStep)
    ensures Concatenated(steps + [step]) == Concatenated(steps) + step.edges
  {
    assert (steps + [step])[..|steps|] == steps;
  }

  lemma ClipJoins(path: seq<Edge>, m: nat, n: nat)
    requires m <= n
    ensures Clip(path, 0, n) == Clip(path, 0, m) + Clip(path, m, n)
  {
  }

  /** No step of no length has edges between its own nodes. */
  ghost predicate NothingSkipped(nodes: seq<int>, steps: seq<OsrmStep>, starts: seq<nat>)
    requires |steps| <= |starts|
  {
    forall k :: 0 <= k < |steps| && steps[k].distance <= 0.0 ==>
      PathEdges(StepNodes(nodes, starts[k], steps[k].coordinates)) == []
  }

  lemma SliceIsOwnEdges(nodes: seq<int>, steps: seq<OsrmStep>, starts: seq<nat>, k: nat)
    requires Chained(steps, starts) && k < |steps|
    ensures StepSlice(PathEdges(nodes), steps, k) == PathEdges(StepNodes(nodes, starts[k], steps[k].coordinates))
  {
    CursorIsStart(steps, starts, k);
    CursorIsStart(steps, starts, k + 1);
    SliceIsAlongNodes(nodes, starts[k], steps[k].coordinates);
  }

  lemma DroppedIsSkipped(nodes: seq<int>, steps: seq<OsrmStep>, starts: seq<nat>)
    requires Chained(steps, starts)
    ensures NothingDropped(PathEdges(nodes), steps, |steps|) <==> NothingSkipped(nodes, steps, starts)
  {
    forall k | 0 <= k < |steps|
      ensures StepSlice(PathEdges(nodes), steps, k) == PathEdges(StepNodes(nodes, starts[k], steps[k].coordinates))
    {
      SliceIsOwnEdges(nodes, steps, starts, k);
    }
  }

  /** The steps put together are the whole path exactly when they reach its last node and no step of no length has edges. */
  lemma StepsTilePath(nodes: seq<int>, steps: seq<OsrmStep>, starts: seq<nat>)
    requires Chained(steps, starts)
    ensures Concatenated(Driven(nodes, steps, starts, |steps|)) == PathEdges(nodes)
       <==> starts[|steps|] >= |nodes| - 1 && NothingSkipped(nodes, steps, starts)
  {
    var path, reach := PathEdges(nodes), starts[|steps|];
    ExtractedIsDriven(nodes, steps, starts, |steps|);
    CursorIsStart(steps, starts, |steps|);
    SlicesTilePrefix(path, steps, |steps|);
    DroppedIsSkipped(nodes, steps, starts);
    ClipWhole(path, reach);
    assert reach >= |path| <==> reach >= |nodes| - 1;
  }

  lemma ClipWhole(path: seq<Edge>, n: nat)
    ensures |Clip(path, 0, n)| <= |path|
    ensures Clip(path, 0, n) == path <==> n >= |path|
  {
  }

  function Reversed<T>(xs: seq<T>): seq<T> {
    seq(|xs|, i requires 0 <= i < |xs| => xs[|xs| - 1 - i])
  }

  lemma IsReversed<T>(xs: seq<T>, ys: seq<T>)
    requires |xs| == |ys| && forall i :: 0 <= i < |xs| ==> xs[i] == ys[|ys| - 1 - i]
    ensures xs == Reversed(ys)
  {
  }

  lemma EdgeIdSymmetric(a: int, b: int)
    ensures EdgeId(a, b) == EdgeId(b, a)
  {
  }

  lemma ReversedAt<T>(xs: seq<T>, i: nat)
    requires i < |xs|
    ensures Reversed(xs)[i] == xs[|xs| - 1 - i]
  {
  }

  lemma AlongAt<T>(nodes: seq<int>, name: (int, int) -> T, i: nat)
    requires i + 1 < |nodes|
    ensures Along(nodes, name)[i] == name(nodes[i], nodes[i + 1])
  {
  }

  lemma AlongTheWayBackAt<T>(nodes: seq<int>, name: (int, int) -> T, i: nat)
    requires i + 1 < |nodes|
    ensures Along(Reversed(nodes), name)[i] == name(nodes[|nodes| - 1 - i], nodes[|nodes| - 2 - i])
    ensures Along(nodes, name)[|nodes| - 2 - i] == name(nodes[|nodes| - 2 - i], nodes[|nodes| - 1 - i])
  {
    ReversedAt(nodes, i);
    ReversedAt(nodes, i + 1);
    AlongAt(Reversed(nodes), name, i);
    AlongAt(nodes, name, |nodes| - 2 - i);
  }

  lemma AlongTheWayBack<T>(nodes: seq<int>, name: (int, int) -> T)
    requires forall a, b :: name(a, b) == name(b, a)
    ensures Along(Reversed(nodes), name) == Reversed(Along(nodes, name))
  {
    var back, forth := Along(Reversed(nodes), name), Along(nodes, name);
    forall i | 0 <= i < |back| ensures back[i] == forth[|forth| - 1 - i] {
      AlongTheWayBackAt(nodes, name, i);
      var a, b := nodes[|nodes| - 2 - i], nodes[|nodes| - 1 - i];
      assert name(a, b) == name(b, a);
    }
    IsReversed(back, forth);
  }

  /** The way back drives over the same edges in the opposite order. */
  lemma WayBack(nodes: seq<int>)
    ensures PathEdges(Reversed(nodes)) == Reversed(PathEdges(nodes))
  {
    forall a, b ensures EdgeId(a, b) == EdgeId(b, a) {
      EdgeIdSymmetric(a, b);
    }
    AlongTheWayBack(nodes, EdgeId);
  }
}
