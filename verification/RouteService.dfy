/** The routes service: segment and route repositories, `_create_segments` and `CreateRouteUseCase.execute`. */
module RouteService {
  import opened Domain
  import opened Segmentation

  datatype RouteRow = RouteRow(id: RouteId, origin: string, destination: string, segmentIds: seq<SegmentId>, duration: int)

  /** One alternative of an OSRM answer, its steps already reduced to edges. */
  datatype OsrmResult = OsrmResult(steps: seq<DrivenStep>, duration: Option<int>)

  ghost predicate Keyed(table: seq<Segment>) {
    forall i, j :: 0 <= i < j < |table| ==> table[i].id != table[j].id
  }

  /** The rows sharing an edge with `edges`, in creation order. */
  function RowsTouching(table: seq<Segment>, edges: set<Edge>): seq<Segment> {
    if table == [] then []
    else
      var last := table[|table| - 1];
      RowsTouching(table[..|table| - 1], edges) + if last.edges * edges != {} then [last] else []
  }

  /** `ids` followed by the ids of `found` not listed before. */
  function ListIds(ids: seq<SegmentId>, found: seq<Segment>): seq<SegmentId> {
    if found == [] then ids
    else
      var front := ListIds(ids, found[..|found| - 1]);
      var id := found[|found| - 1].id;
      if id in front then front else front + [id]
  }

  /** The route's ids read off a table that already owns every step edge, scanning in creation order. */
  function IdsInOrder(table: seq<Segment>, steps: seq<DrivenStep>): seq<SegmentId> {
    if steps == [] then []
    else ListIds(IdsInOrder(table, steps[..|steps| - 1]), RowsTouching(table, Elements(steps[|steps| - 1])))
  }

  function Between(rows: seq<RouteRow>, origin: string, destination: string): set<RouteRow> {
    set r | r in rows && r.origin == origin && r.destination == destination
  }

  lemma {:induction false} RowsTouchingMembers(table: seq<Segment>, edges: set<Edge>)
    ensures forall s :: s in RowsTouching(table, edges) <==> s in table && s.edges * edges != {}
    ensures Keyed(table) ==> Keyed(RowsTouching(table, edges))
  {
    if table != [] {
      var front, last := table[..|table| - 1], table[|table| - 1];
      RowsTouchingMembers(front, edges);
      assert table == front + [last];
      if Keyed(table) {
        assert forall s :: s in front ==> s.id != last.id;
      }
    }
  }

  lemma {:induction false} ListIdsMembers(ids: seq<SegmentId>, found: seq<Segment>)
    ensures Elements(ListIds(ids, found)) == Elements(ids) + Ids(found)
    ensures Distinct(ids) ==> Distinct(ListIds(ids, found))
  {
    if found != [] {
      var front, last := found[..|found| - 1], found[|found| - 1];
      ListIdsMembers(ids, front);
      assert found == front + [last];
      assert Ids(found) == Ids(front) + {last.id};
      var listed := ListIds(ids, front);
      assert Elements(listed + [last.id]) == Elements(listed) + {last.id};
      assert last.id in listed <==> last.id in Elements(listed);
    }
  }

  /** A row off the steps' edges does not change what the steps list. */
  lemma {:induction false} IdsInOrderStable(table: seq<Segment>, row: Segment, steps: seq<DrivenStep>)
    requires row.edges !! StepEdges(steps)
    ensures IdsInOrder(table + [row], steps) == IdsInOrder(table, steps)
  {
    if steps != [] {
      var front, last := steps[..|steps| - 1], steps[|steps| - 1];
      assert steps == front + [last];
      assert Elements(last) <= StepEdges(steps) && StepEdges(front) <= StepEdges(steps);
      IdsInOrderStable(table, row, front);
      assert (table + [row])[..|table|] == table;
      assert row.edges * Elements(last) == {};
      assert RowsTouching(table + [row], Elements(last)) == RowsTouching(table, Elements(last));
    }
  }

  /** Road segments as one session of the routes service sees them. */
  class SegmentRepository {
    var rows: seq<Segment>

    /** Whether the server's unordered scan happens to list rows in creation order. */
    const scansInOrder: bool

    constructor (scansInOrder: bool)
      ensures rows == [] && this.scansInOrder == scansInOrder
    {
      rows := [];
      this.scansInOrder := scansInOrder;
    }

    /** The overlapping rows, each once; in an order of the server's choosing. */
    method FindAllOverlapping(edges: set<Edge>) returns (found: seq<Segment>)
      requires Keyed(rows)
      ensures Elements(found) == set s | s in rows && s.edges * edges != {}
      ensures Keyed(found)
      ensures scansInOrder ==> found == RowsTouching(rows, edges)
    {
      found := RowsTouching(rows, edges);
      RowsTouchingMembers(rows, edges);
    }

    method Create(capacity: nat, edges: set<Edge>) returns (segment: Segment)
      modifies this
      ensures segment.id !in Ids(old(rows)) && segment.capacity == Some(capacity) && segment.edges == edges
      ensures rows == old(rows) + [segment]
    {
      FreshIdExists(Ids(rows));
      var id: SegmentId :| id !in Ids(rows);
      segment := Segment(id, Some(capacity), edges);
      rows := rows + [segment];
    }
  }

  class RouteRepository {
    var rows: seq<RouteRow>

    constructor ()
      ensures rows == []
    {
      rows := [];
    }

    method FindByOriginDestination(origin: string, destination: string) returns (found: seq<RouteRow>)
      ensures Elements(found) == Between(rows, origin, destination)
    {
      found := [];
      for i := 0 to |rows|
        invariant Elements(found) == Between(rows[..i], origin, destination)
      {
        assert rows[..i + 1] == rows[..i] + [rows[i]];
        if rows[i].origin == origin && rows[i].destination == destination {
          assert Elements(found + [rows[i]]) == Elements(found) + {rows[i]};
          found := found + [rows[i]];
        }
      }
      assert rows[..|rows|] == rows;
    }

    method Create(origin: string, destination: string, segmentIds: seq<SegmentId>, duration: int) returns (route: RouteRow)
      modifies this
      ensures route.id !in (set r | r in old(rows) :: r.id)
      ensures route == RouteRow(route.id, origin, destination, segmentIds, duration)
      ensures rows == old(rows) + [route]
    {
      FreshIdExists(set r | r in rows :: r.id);
      var id: RouteId :| id !in (set r | r in rows :: r.id);
      route := RouteRow(id, origin, destination, segmentIds, duration);
      rows := rows + [route];
    }
  }

  // ----- one step of `_create_segments`

  /** What one step does: it appends the step's unowned edges as a row, if there are any. */
  ghost predicate StepGrows(table: seq<Segment>, step: DrivenStep, table': seq<Segment>) {
    var unowned := Elements(step) - Owned(table);
    if unowned == {} then table' == table
    else
      && |table'| == |table| + 1
      && table' == table + [table'[|table|]]
      && table'[|table|].edges == unowned
      && table'[|table|].id !in Ids(table)
      && table'[|table|].capacity == Some(DEFAULT_CAPACITY)
  }

  lemma AppendRow(table: seq<Segment>, row: Segment)
    ensures Ids(table + [row]) == Ids(table) + {row.id}
    ensures Owned(table + [row]) == Owned(table) + row.edges
    ensures forall edges :: Touching(table + [row], edges) == Touching(table, edges) + if row.edges * edges != {} then {row.id} else {}
    ensures Keyed(table) && row.id !in Ids(table) ==> Keyed(table + [row])
  {
    assert forall s :: s in table + [row] <==> s in table || s == row;
    forall edges
      ensures Touching(table + [row], edges) == Touching(table, edges) + if row.edges * edges != {} then {row.id} else {}
    {
      assert Touching([row], edges) == if row.edges * edges != {} then {row.id} else {};
    }
  }

  lemma ListOneMore(ids: seq<SegmentId>, found: seq<Segment>, i: nat)
    requires i < |found|
    ensures ListIds(ids, found[..i + 1]) ==
            if found[i].id in ListIds(ids, found[..i]) then ListIds(ids, found[..i]) else ListIds(ids, found[..i]) + [found[i].id]
    ensures Owned(found[..i + 1]) == Owned(found[..i]) + found[i].edges
  {
    assert found[..i + 1] == found[..i] + [found[i]];
    assert found[..i + 1][..i] == found[..i];
    AppendRow(found[..i], found[i]);
  }

  lemma CreatedRowListed(table: seq<Segment>, step: DrivenStep, row: Segment, ids: seq<SegmentId>, listed: seq<SegmentId>)
    requires row.id !in Ids(table)
    requires row.edges == Elements(step) - Owned(table) != {}
    requires Elements(listed) == Elements(ids) + Touching(table, Elements(step)) <= Ids(table) && Distinct(listed)
    ensures Distinct(listed + [row.id]) && Elements(listed + [row.id]) == Elements(listed) + {row.id}
    ensures Elements(listed + [row.id]) == Elements(ids) + Touching(table + [row], Elements(step))
    ensures listed == ListIds(ids, RowsTouching(table, Elements(step)))
            ==> listed + [row.id] == ListIds(ids, RowsTouching(table + [row], Elements(step)))
    ensures Keyed(table) ==> Keyed(table + [row])
  {
    AppendRow(table, row);
    assert row.edges * Elements(step) == row.edges;
    assert forall id :: id in listed <==> id in Elements(listed);
    assert (table + [row])[..|table|] == table;
    var touching := RowsTouching(table, Elements(step));
    assert (touching + [row])[..|touching|] == touching;
  }

  class RouteUseCases {
    const segments: SegmentRepository
    const routes: RouteRepository

    constructor (segments: SegmentRepository, routes: RouteRepository)
      ensures this.segments == segments && this.routes == routes
    {
      this.segments := segments;
      this.routes := routes;
    }

    /** The body of the loop over steps: reuse every overlapping segment, then create one for the rest. */
    method SegmentStep(step: DrivenStep, segmentIds: seq<SegmentId>, seen: set<SegmentId>)
        returns (segmentIds': seq<SegmentId>, seen': set<SegmentId>)
      requires Keyed(segments.rows)
      requires Distinct(segmentIds) && seen == Elements(segmentIds) <= Ids(segments.rows)
      modifies segments
      ensures StepGrows(old(segments.rows), step, segments.rows)
      ensures Keyed(segments.rows)
      ensures Distinct(segmentIds') && seen' == Elements(segmentIds')
      ensures seen' == seen + Touching(segments.rows, Elements(step))
      ensures segmentIds <= segmentIds'
      ensures segments.scansInOrder ==> segmentIds' == ListIds(segmentIds, RowsTouching(segments.rows, Elements(step)))
    {
      segmentIds', seen' := segmentIds, seen;
      var stepEdges := Elements(step);
      var overlapping := segments.FindAllOverlapping(stepEdges);
      ghost var table := segments.rows;
      for i := 0 to |overlapping|
        invariant segmentIds' == ListIds(segmentIds, overlapping[..i]) && segmentIds <= segmentIds'
        invariant seen' == Elements(segmentIds') && Distinct(segmentIds')
        invariant segments.rows == table
        invariant stepEdges == Elements(step) - Owned(overlapping[..i])
      {
        var seg := overlapping[i];
        ListOneMore(segmentIds, overlapping, i);
        if seg.id !in seen' {
          segmentIds' := segmentIds' + [seg.id];
          seen' := seen' + {seg.id};
        }
        stepEdges := stepEdges - seg.edges;
      }
      assert overlapping[..|overlapping|] == overlapping;
      ListIdsMembers(segmentIds, overlapping);
      OverlapOwnsAll(table, step, overlapping);
      assert stepEdges == Elements(step) - Owned(table);
      assert seen' == seen + Touching(table, Elements(step)) <= Ids(table);
      if stepEdges != {} {
        var segment := segments.Create(DEFAULT_CAPACITY, stepEdges);
        CreatedRowListed(table, step, segment, segmentIds, segmentIds');
        segmentIds' := segmentIds' + [segment.id];
        seen' := seen' + {segment.id};
      }
    }

    /** `_create_segments` */
    method CreateSegments(steps: seq<DrivenStep>) returns (segmentIds: seq<SegmentId>)
      requires Keyed(segments.rows)
      modifies segments
      ensures Segmented(old(segments.rows), steps, segments.rows, segmentIds)
      ensures Keyed(segments.rows)
      // in whatever order a scan lists its rows, segments are listed in the order in which they are first driven over
      ensures InDrivingOrder(segments.rows, steps, segmentIds)
      ensures segments.scansInOrder ==> segmentIds == IdsInOrder(segments.rows, steps)
    {
      segmentIds := [];
      var seen: set<SegmentId> := {};
      ghost var table := segments.rows;
      for k := 0 to |steps|
        invariant Grown(table, steps, k, segments.rows)
        invariant Keyed(segments.rows)
        invariant Distinct(segmentIds) && seen == Elements(segmentIds) == Touching(segments.rows, StepEdges(steps[..k]))
        invariant InDrivingOrder(segments.rows, steps[..k], segmentIds)
        invariant segments.scansInOrder ==> segmentIds == IdsInOrder(segments.rows, steps[..k])
      {
        ghost var before, listed := segments.rows, segmentIds;
        TouchingIsKnown(before, StepEdges(steps[..k]));
        segmentIds, seen := SegmentStep(steps[k], segmentIds, seen);
        GrownStep(table, steps, k, before, segments.rows);
        EarlierStepsUntouched(before, steps, k, segments.rows);
        DrivenOneMore(before, steps, k, segments.rows, listed, segmentIds);
      }
      assert steps[..|steps|] == steps;
      assert Leftovers(Owned(segments.rows), steps[|steps|..]) == [];
    }

    /** `CreateRouteUseCase.execute`, with OSRM's answer as an argument. */
    method CreateRoutes(origin: string, destination: string, osrmResults: seq<OsrmResult>) returns (found: seq<RouteRow>)
      requires Partition(segments.rows)
      modifies segments, routes
      ensures Partition(segments.rows)
      ensures old(segments.rows) <= segments.rows && old(routes.rows) <= routes.rows
      // a repeated lookup of a pair that has routes answers with them and changes nothing
      ensures Between(old(routes.rows), origin, destination) != {} ==>
        && segments.rows == old(segments.rows) && routes.rows == old(routes.rows)
        && Elements(found) == Between(old(routes.rows), origin, destination)
      // a first lookup records one route per alternative
      ensures Between(old(routes.rows), origin, destination) == {} ==>
        && |found| == |osrmResults| && routes.rows == old(routes.rows) + found
        && forall i :: 0 <= i < |found| ==> RecordsAlternative(found[i], origin, destination, osrmResults[i], segments.rows)
      // new segments own only edges some alternative drives over, and start with the default capacity
      ensures forall i :: |old(segments.rows)| <= i < |segments.rows| ==> NewSegment(segments.rows[i], osrmResults)
      ensures Elements(found) == Between(routes.rows, origin, destination)
    {
      var existing := routes.FindByOriginDestination(origin, destination);
      if existing != [] {
        assert existing[0] in Elements(existing);
        return existing;
      }
      assert Between(routes.rows, origin, destination) == {};
      found := [];
      ghost var table, known := segments.rows, routes.rows;
      for i := 0 to |osrmResults|
        invariant Partition(segments.rows) && table <= segments.rows
        invariant |found| == i && routes.rows == known + found
        invariant forall k :: |table| <= k < |segments.rows| ==> NewSegment(segments.rows[k], osrmResults)
        invariant forall k :: 0 <= k < i ==> RecordsAlternative(found[k], origin, destination, osrmResults[k], segments.rows)
      {
        ghost var before := segments.rows;
        var segmentIds := CreateSegments(osrmResults[i].steps);
        SegmentedKeepsPartition(before, osrmResults[i].steps, segments.rows, segmentIds);
        SegmentedCovers(before, osrmResults[i].steps, segments.rows, segmentIds);
        AddedRows(before, osrmResults[i].steps, segments.rows, segmentIds);
        forall k | 0 <= k < i ensures RecordsAlternative(found[k], origin, destination, osrmResults[k], segments.rows) {
          RecordStable(found[k], origin, destination, osrmResults[k], before, segments.rows);
        }
        var route := routes.Create(origin, destination, segmentIds, osrmResults[i].duration.GetOr(0));
        found := found + [route];
      }
      FoundIsBetween(known, found, origin, destination);
    }
  }

  /** `route` is the row made for `result`: its ids are distinct and exactly the owners of the driven edges, in driving order. */
  ghost predicate RecordsAlternative(route: RouteRow, origin: string, destination: string, result: OsrmResult, table: seq<Segment>) {
    && route == RouteRow(route.id, origin, destination, route.segmentIds, result.duration.GetOr(0))
    && Distinct(route.segmentIds)
    && Elements(route.segmentIds) == Touching(table, StepEdges(result.steps))
    && StepEdges(result.steps) <= Owned(table)
    && InDrivingOrder(table, result.steps, route.segmentIds)
  }

  ghost predicate NewSegment(s: Segment, osrmResults: seq<OsrmResult>) {
    && s.capacity == Some(5) && s.edges != {}
    && exists i :: 0 <= i < |osrmResults| && s.edges <= StepEdges(osrmResults[i].steps)
  }

  // ----- proof steps

  // ----- the order of the list

  /** The segments each step drives over. */
  function TouchedBy(table: seq<Segment>, steps: seq<DrivenStep>): seq<set<SegmentId>> {
    seq(|steps|, j requires 0 <= j < |steps| => Touching(table, Elements(steps[j])))
  }

  /** One of the first `k + 1` steps drives over the segment. */
  predicate Reached(touched: seq<set<SegmentId>>, k: nat, id: SegmentId)
    requires k < |touched|
  {
    exists j :: 0 <= j <= k && id in touched[j]
  }

  /** By the time a step drives over a listed segment, every segment listed before it has been driven over. */
  predicate FirstComesFirst(touched: seq<set<SegmentId>>, ids: seq<SegmentId>) {
    forall p, q, k :: 0 <= p < q < |ids| && 0 <= k < |touched| && ids[q] in touched[k] ==> Reached(touched, k, ids[p])
  }

  ghost predicate InDrivingOrder(table: seq<Segment>, steps: seq<DrivenStep>, ids: seq<SegmentId>) {
    FirstComesFirst(TouchedBy(table, steps), ids)
  }

  /** What is listed for a further step is new, so no earlier step drives over it. */
  lemma OrderOneMore(touched: seq<set<SegmentId>>, listed: seq<SegmentId>, more: set<SegmentId>, ids: seq<SegmentId>)
    requires FirstComesFirst(touched, listed) && listed <= ids && Distinct(ids)
    requires forall id :: id in listed <==> exists j :: 0 <= j < |touched| && id in touched[j]
    requires forall id :: id in ids <==> id in listed || id in more
    ensures FirstComesFirst(touched + [more], ids)
  {
    var all := touched + [more];
    forall p, q, k | 0 <= p < q < |ids| && 0 <= k < |all| && ids[q] in all[k] ensures Reached(all, k, ids[p]) {
      if k < |touched| {
        assert ids[q] in touched[k] && ids[q] in listed;
        NewAreLast(listed, ids, q);
        assert Reached(touched, k, listed[p]);
        var j :| 0 <= j <= k && listed[p] in touched[j];
        assert ids[p] in all[j];
      } else {
        assert ids[p] in ids;
        if ids[p] in listed {
          var j :| 0 <= j < |touched| && ids[p] in touched[j];
          assert ids[p] in all[j];
        } else {
          assert ids[p] in all[k];
        }
      }
    }
  }

  lemma NewAreLast(listed: seq<SegmentId>, ids: seq<SegmentId>, q: nat)
    requires listed <= ids && Distinct(ids) && q < |ids| && ids[q] in listed
    ensures q < |listed|
  {
    var i :| 0 <= i < |listed| && listed[i] == ids[q];
    assert ids[i] == ids[q];
  }

  lemma TouchedByStep(table: seq<Segment>, steps: seq<DrivenStep>, id: SegmentId)
    ensures id in Touching(table, StepEdges(steps)) <==> exists j :: 0 <= j < |steps| && id in TouchedBy(table, steps)[j]
  {
    if id in Touching(table, StepEdges(steps)) {
      var s :| s in table && s.id == id && s.edges * StepEdges(steps) != {};
      var e :| e in s.edges * StepEdges(steps);
      var step :| step in steps && e in step;
      var j :| 0 <= j < |steps| && steps[j] == step;
      assert e in s.edges * Elements(steps[j]);
      assert id in TouchedBy(table, steps)[j];
    }
    if j :| 0 <= j < |steps| && id in TouchedBy(table, steps)[j] {
      var s :| s in table && s.id == id && s.edges * Elements(steps[j]) != {};
      var e :| e in s.edges * Elements(steps[j]);
      assert e in s.edges * StepEdges(steps);
    }
  }

  lemma DrivenOneMore(now: seq<Segment>, steps: seq<DrivenStep>, k: nat, next: seq<Segment>, listed: seq<SegmentId>, ids: seq<SegmentId>)
    requires k < |steps| && StepGrows(now, steps[k], next) && StepEdges(steps[..k]) <= Owned(now)
    requires InDrivingOrder(now, steps[..k], listed) && Elements(listed) == Touching(now, StepEdges(steps[..k]))
    requires listed <= ids && Distinct(ids) && Elements(ids) == Elements(listed) + Touching(next, Elements(steps[k]))
    ensures InDrivingOrder(next, steps[..k + 1], ids)
  {
    var touched, more := TouchedBy(now, steps[..k]), Touching(next, Elements(steps[k]));
    forall id ensures id in listed <==> exists j :: 0 <= j < |touched| && id in touched[j] {
      TouchedByStep(now, steps[..k], id);
      assert id in listed <==> id in Elements(listed);
    }
    assert forall id :: id in ids <==> id in Elements(ids);
    OrderOneMore(touched, listed, more, ids);
    forall j | 0 <= j < k ensures Touching(next, Elements(steps[j])) == Touching(now, Elements(steps[j])) {
      EarlierStepUntouched(now, steps, k, next, j);
    }
    assert TouchedBy(next, steps[..k + 1]) == touched + [more];
  }

  lemma EarlierStepUntouched(now: seq<Segment>, steps: seq<DrivenStep>, k: nat, next: seq<Segment>, j: nat)
    requires j < k < |steps| && StepGrows(now, steps[k], next) && StepEdges(steps[..k]) <= Owned(now)
    ensures Touching(next, Elements(steps[j])) == Touching(now, Elements(steps[j]))
  {
    if next != now {
      var row := next[|now|];
      AppendRow(now, row);
      assert steps[..k][j] == steps[j] && steps[j] in steps[..k];
      assert Elements(steps[j]) <= StepEdges(steps[..k]);
      assert row.edges * Elements(steps[j]) == {};
    }
  }

  lemma OverlapOwnsAll(table: seq<Segment>, step: DrivenStep, overlapping: seq<Segment>)
    requires Elements(overlapping) == set s | s in table && s.edges * Elements(step) != {}
    ensures Elements(step) - Owned(overlapping) == Elements(step) - Owned(table)
    ensures Ids(overlapping) == Touching(table, Elements(step)) <= Ids(table)
  {
    assert forall s :: s in overlapping <==> s in Elements(overlapping);
    forall e | e in Elements(step) ensures e in Owned(overlapping) <==> e in Owned(table) {
      if e in Owned(table) {
        var s :| s in table && e in s.edges;
        assert e in s.edges * Elements(step);
      }
    }
  }

  lemma TouchingIsKnown(table: seq<Segment>, edges: set<Edge>)
    ensures Touching(table, edges) <= Ids(table)
  {
  }

  lemma TouchingUnion(table: seq<Segment>, a: set<Edge>, b: set<Edge>)
    ensures Touching(table, a + b) == Touching(table, a) + Touching(table, b)
  {
    assert forall s: Segment :: s.edges * (a + b) == s.edges * a + s.edges * b;
  }

  /** The table after the first `k` steps. */
  ghost predicate Grown(table: seq<Segment>, steps: seq<DrivenStep>, k: nat, now: seq<Segment>)
    requires k <= |steps|
  {
    && table <= now
    && EdgeSets(now[|table|..]) + Leftovers(Owned(now), steps[k..]) == Leftovers(Owned(table), steps)
    && FreshRows(table, now[|table|..])
    && StepEdges(steps[..k]) <= Owned(now)
  }

  lemma GrownStep(table: seq<Segment>, steps: seq<DrivenStep>, k: nat, now: seq<Segment>, next: seq<Segment>)
    requires k < |steps| && Grown(table, steps, k, now) && StepGrows(now, steps[k], next)
    ensures Grown(table, steps, k + 1, next)
  {
    StepEdgesSnoc(steps, k);
    assert steps[k..][1..] == steps[k + 1..];
    if next == now {
      assert Owned(now) + (Elements(steps[k]) - Owned(now)) == Owned(now);
    } else {
      var row, added := next[|now|], now[|table|..];
      AppendRow(now, row);
      assert next[|table|..] == added + [row];
      assert FreshRows(table, next[|table|..]) by {
        FreshRowsAppend(table, now, row);
      }
      assert EdgeSets(added + [row]) == EdgeSets(added) + [row.edges];
      assert EdgeSets(next[|table|..]) + Leftovers(Owned(next), steps[k + 1..])
          == EdgeSets(added) + ([row.edges] + Leftovers(Owned(next), steps[k + 1..]));
    }
  }

  /** The row a step adds lies off all earlier steps, so what they list and touch stays as it was. */
  lemma EarlierStepsUntouched(now: seq<Segment>, steps: seq<DrivenStep>, k: nat, next: seq<Segment>)
    requires k < |steps| && StepGrows(now, steps[k], next) && StepEdges(steps[..k]) <= Owned(now)
    ensures Touching(next, StepEdges(steps[..k + 1])) == Touching(now, StepEdges(steps[..k])) + Touching(next, Elements(steps[k]))
    ensures IdsInOrder(next, steps[..k + 1])
         == ListIds(IdsInOrder(now, steps[..k]), RowsTouching(next, Elements(steps[k])))
  {
    StepEdgesSnoc(steps, k);
    TouchingUnion(next, StepEdges(steps[..k]), Elements(steps[k]));
    assert steps[..k + 1][..k] == steps[..k];
    if next != now {
      var row := next[|now|];
      AppendRow(now, row);
      assert row.edges * StepEdges(steps[..k]) == {};
      IdsInOrderStable(now, row, steps[..k]);
    }
  }

  lemma FreshRowsAppend(table: seq<Segment>, now: seq<Segment>, row: Segment)
    requires table <= now && FreshRows(table, now[|table|..])
    requires row.id !in Ids(now) && row.capacity == Some(DEFAULT_CAPACITY)
    ensures FreshRows(table, now[|table|..] + [row])
  {
    var added := now[|table|..];
    assert now == table + added;
    assert Ids(table) <= Ids(now) && Ids(added) <= Ids(now);
    assert forall i :: 0 <= i < |added| ==> added[i].id in Ids(added);
  }

  lemma StepEdgesSnoc(steps: seq<DrivenStep>, k: nat)
    requires k < |steps|
    ensures StepEdges(steps[..k + 1]) == StepEdges(steps[..k]) + Elements(steps[k])
  {
    assert steps[..k + 1] == steps[..k] + [steps[k]];
    assert forall s :: s in steps[..k + 1] <==> s in steps[..k] || s == steps[k];
  }

  lemma RecordStable(route: RouteRow, origin: string, destination: string, result: OsrmResult, table: seq<Segment>, later: seq<Segment>)
    requires RecordsAlternative(route, origin, destination, result, table)
    requires table <= later && Partition(later)
    ensures RecordsAlternative(route, origin, destination, result, later)
  {
    OwnersStay(table, later, StepEdges(result.steps));
    forall j | 0 <= j < |result.steps|
      ensures Touching(later, Elements(result.steps[j])) == Touching(table, Elements(result.steps[j]))
    {
      assert Elements(result.steps[j]) <= StepEdges(result.steps);
      OwnersStay(table, later, Elements(result.steps[j]));
    }
    assert TouchedBy(later, result.steps) == TouchedBy(table, result.steps);
  }

  lemma FoundIsBetween(known: seq<RouteRow>, found: seq<RouteRow>, origin: string, destination: string)
    requires Between(known, origin, destination) == {}
    requires forall r :: r in found ==> r.origin == origin && r.destination == destination
    ensures Elements(found) == Between(known + found, origin, destination)
  {
    forall r ensures r in Between(known + found, origin, destination) <==> r in Elements(found) {
      assert r !in Between(known, origin, destination);
    }
  }

  /** Rows added for other routes never change a route's list: repeating a call gives the same list in creation order. */
  lemma {:induction false} IdsInOrderLater(table: seq<Segment>, later: seq<Segment>, steps: seq<DrivenStep>)
    requires table <= later && Partition(later) && StepEdges(steps) <= Owned(table)
    ensures IdsInOrder(later, steps) == IdsInOrder(table, steps)
    decreases |later|
  {
    if |later| == |table| {
      assert later == table;
    } else {
      var front, row := later[..|later| - 1], later[|later| - 1];
      assert later == front + [row];
      IdsInOrderLater(table, front, steps);
      forall e | e in StepEdges(steps) ensures e !in row.edges {
        var s :| s in table && e in s.edges;
        var i :| 0 <= i < |table| && table[i] == s;
        assert later[i].edges !! later[|later| - 1].edges;
      }
      IdsInOrderStable(front, row, steps);
    }
  }

  // ----- reading a route back

  /** `GetRouteSegmentsUseCase.execute` on a route that exists. */
  function RouteSegments(table: seq<Segment>, ids: seq<SegmentId>): seq<Segment> {
    if ids == [] then []
    else
      var rest := RouteSegments(table, ids[1..]);
      if exists s :: s in table && s.id == ids[0] then [ById(table, ids[0])] + rest else rest
  }

  /** The dictionary lookup: the last row with that key wins. */
  function ById(table: seq<Segment>, id: SegmentId): (s: Segment)
    requires exists s :: s in table && s.id == id
    ensures s in table && s.id == id
  {
    if table[|table| - 1].id == id then table[|table| - 1]
    else
      assert table == table[..|table| - 1] + [table[|table| - 1]];
      ById(table[..|table| - 1], id)
  }

  /** A recorded route reads back as its full segment list, in route order. */
  lemma {:induction false} RouteReadsBack(table: seq<Segment>, ids: seq<SegmentId>)
    requires Elements(ids) <= Ids(table)
    ensures |RouteSegments(table, ids)| == |ids|
    ensures forall i :: 0 <= i < |ids| ==> RouteSegments(table, ids)[i] in table && RouteSegments(table, ids)[i].id == ids[i]
  {
    if ids != [] {
      assert ids == [ids[0]] + ids[1..];
      assert ids[0] in Elements(ids);
      assert Elements(ids[1..]) <= Elements(ids);
      RouteReadsBack(table, ids[1..]);
    }
  }

  /** Ids without a row are passed over one by one, wherever they stand. */
  lemma {:induction false} UnknownIdsAreSkipped(table: seq<Segment>, ids: seq<SegmentId>, more: seq<SegmentId>)
    ensures RouteSegments(table, ids + more) == RouteSegments(table, ids) + RouteSegments(table, more)
    ensures |ids| == 1 && ids[0] !in Ids(table) ==> RouteSegments(table, ids) == []
    decreases ids
  {
    if ids == [] {
      assert ids + more == more;
    } else {
      assert ids + more == [ids[0]] + (ids[1..] + more);
      assert (ids + more)[1..] == ids[1..] + more;
      UnknownIdsAreSkipped(table, ids[1..], more);
      assert RouteSegments(table, []) == [];
    }
  }
}
