/** How the routes service cuts OSRM steps into road segments (`_create_segments`). */
module Segmentation {
  import opened Domain

  type Edge = string

  /** A step of an OSRM route, reduced to the edges it drives over. */
  type DrivenStep = seq<Edge>

  /** One row of road_segments; a null `edge_ids` column is the empty set. */
  datatype Segment = Segment(id: SegmentId, capacity: Option<nat>, edges: set<Edge>)

  const DEFAULT_CAPACITY: nat := 5

  function Owned(table: seq<Segment>): set<Edge> {
    set s, e | s in table && e in s.edges :: e
  }

  function StepEdges(steps: seq<DrivenStep>): set<Edge> {
    set step, e | step in steps && e in step :: e
  }

  function Ids(table: seq<Segment>): set<SegmentId> {
    set s | s in table :: s.id
  }

  /** The ids of the rows owning at least one of `edges`. */
  function Touching(table: seq<Segment>, edges: set<Edge>): set<SegmentId> {
    set s | s in table && s.edges * edges != {} :: s.id
  }

  /** The edge sets of the segments the steps add to a table already owning `owned`, in creation order. */
  function Leftovers(owned: set<Edge>, steps: seq<DrivenStep>): seq<set<Edge>>
    decreases steps
  {
    if steps == [] then []
    else
      var unowned := Elements(steps[0]) - owned;
      (if unowned == {} then [] else [unowned]) + Leftovers(owned + unowned, steps[1..])
  }

  function EdgeSets(table: seq<Segment>): seq<set<Edge>> {
    seq(|table|, i requires 0 <= i < |table| => table[i].edges)
  }

  /** No edge has two owners and no id names two rows. */
  ghost predicate Partition(table: seq<Segment>) {
    forall i, j :: 0 <= i < j < |table| ==> table[i].id != table[j].id && table[i].edges !! table[j].edges
  }

  /** `added` are rows a call may append to `table`: fresh distinct ids and the default capacity. */
  ghost predicate FreshRows(table: seq<Segment>, added: seq<Segment>) {
    && (forall s :: s in added ==> s.id !in Ids(table) && s.capacity == Some(DEFAULT_CAPACITY))
    && (forall i, j :: 0 <= i < j < |added| ==> added[i].id != added[j].id)
  }

  /** The outcome of `_create_segments` on `table`: the grown table and the route's segment ids. */
  ghost predicate Segmented(table: seq<Segment>, steps: seq<DrivenStep>, table': seq<Segment>, ids: seq<SegmentId>) {
    && table <= table'
    && EdgeSets(table'[|table|..]) == Leftovers(Owned(table), steps)
    && FreshRows(table, table'[|table|..])
    && Distinct(ids)
    && Elements(ids) == Touching(table', StepEdges(steps))
  }

  /** `capacity or 0` per row. */
  function Capacities(segments: seq<Segment>): map<SegmentId, nat> {
    if segments == [] then map[]
    else
      var last := segments[|segments| - 1];
      Capacities(segments[..|segments| - 1])[last.id := last.capacity.GetOr(0)]
  }

  /** With unique ids every row is found with its own capacity; a null one leaves no place at all. */
  lemma {:induction false} CapacityOfRow(table: seq<Segment>)
    requires forall i, j :: 0 <= i < j < |table| ==> table[i].id != table[j].id
    ensures Capacities(table).Keys == Ids(table)
    ensures forall s :: s in table ==> Capacities(table)[s.id] == if s.capacity.None? then 0 else s.capacity.value
  {
    if table != [] {
      var front, last := table[..|table| - 1], table[|table| - 1];
      CapacityOfRow(front);
      assert table == front + [last];
      assert Ids(table) == Ids(front) + {last.id};
    }
  }

  // ----- the leftover edge sets

  lemma StepEdgesCons(steps: seq<DrivenStep>)
    requires steps != []
    ensures StepEdges(steps) == Elements(steps[0]) + StepEdges(steps[1..])
  {
    assert steps == [steps[0]] + steps[1..];
    forall e ensures e in StepEdges(steps) <==> e in Elements(steps[0]) + StepEdges(steps[1..]) {
      if e in StepEdges(steps) {
        var step :| step in steps && e in step;
        assert step == steps[0] || step in steps[1..];
      }
      if e in StepEdges(steps[1..]) {
        var step :| step in steps[1..] && e in step;
        assert step in steps;
      }
    }
  }

  /** The added edge sets are non-empty, disjoint from each other and from `owned`, and cover the unowned step edges. */
  lemma {:induction false} LeftoversPartition(owned: set<Edge>, steps: seq<DrivenStep>)
    ensures forall i :: 0 <= i < |Leftovers(owned, steps)| ==>
      && Leftovers(owned, steps)[i] != {}
      && Leftovers(owned, steps)[i] !! owned
      && Leftovers(owned, steps)[i] <= StepEdges(steps)
    ensures forall i, j :: 0 <= i < j < |Leftovers(owned, steps)| ==> Leftovers(owned, steps)[i] !! Leftovers(owned, steps)[j]
    ensures forall e :: e in StepEdges(steps) - owned ==> exists i :: 0 <= i < |Leftovers(owned, steps)| && e in Leftovers(owned, steps)[i]
    decreases steps
  {
    var all := Leftovers(owned, steps);
    if steps == [] {
      assert StepEdges(steps) == {};
    } else {
      StepEdgesCons(steps);
      var unowned := Elements(steps[0]) - owned;
      var rest := Leftovers(owned + unowned, steps[1..]);
      var k := if unowned == {} then 0 else 1;
      LeftoversPartition(owned + unowned, steps[1..]);
      assert |all| == k + |rest|;
      assert forall i :: k <= i < |all| ==> all[i] == rest[i - k];
      forall e | e in StepEdges(steps) - owned ensures exists i :: 0 <= i < |all| && e in all[i] {
        if e in unowned {
          assert e in all[0];
        } else {
          assert e in StepEdges(steps[1..]) - (owned + unowned);
          var i :| 0 <= i < |rest| && e in rest[i];
          assert e in all[i + k];
        }
      }
    }
  }

  lemma {:induction false} NothingLeftOver(owned: set<Edge>, steps: seq<DrivenStep>)
    requires StepEdges(steps) <= owned
    ensures Leftovers(owned, steps) == []
    decreases steps
  {
    if steps != [] {
      StepEdgesCons(steps);
      assert Elements(steps[0]) - owned == {};
      NothingLeftOver(owned + {}, steps[1..]);
    }
  }

  // ----- what one call does to the table

  lemma OwnedGrows(table: seq<Segment>, table': seq<Segment>)
    requires table <= table'
    ensures Owned(table) <= Owned(table')
  {
    forall s | s in table ensures s in table' {
      var i :| 0 <= i < |table| && table[i] == s;
      assert table'[i] == s;
    }
  }

  /** The added rows' edge sets, row by row. */
  lemma AddedRows(table: seq<Segment>, steps: seq<DrivenStep>, table': seq<Segment>, ids: seq<SegmentId>)
    requires Segmented(table, steps, table', ids)
    ensures |table'| == |table| + |Leftovers(Owned(table), steps)|
    ensures forall i :: 0 <= i < |table| ==> table'[i] == table[i]
    ensures forall i :: |table| <= i < |table'| ==>
      && table'[i].edges == Leftovers(Owned(table), steps)[i - |table|]
      && table'[i].id !in Ids(table)
      && table'[i].capacity == Some(DEFAULT_CAPACITY)
    ensures forall i, j :: |table| <= i < j < |table'| ==> table'[i].id != table'[j].id
  {
    var added := table'[|table|..];
    assert |added| == |EdgeSets(added)|;
    assert forall i :: |table| <= i < |table'| ==> table'[i] == added[i - |table|];
    assert forall k :: 0 <= k < |added| ==> added[k].edges == EdgeSets(added)[k] && added[k] in added;
  }

  /** Segment edge sets stay pairwise disjoint and existing rows are untouched. */
  lemma SegmentedKeepsPartition(table: seq<Segment>, steps: seq<DrivenStep>, table': seq<Segment>, ids: seq<SegmentId>)
    requires Segmented(table, steps, table', ids)
    requires Partition(table)
    ensures Partition(table')
    ensures forall i :: 0 <= i < |table| ==> table'[i] == table[i]
  {
    LeftoversPartition(Owned(table), steps);
    AddedRows(table, steps, table', ids);
    forall i, j | 0 <= i < j < |table'| ensures table'[i].id != table'[j].id && table'[i].edges !! table'[j].edges {
      if i < |table| <= j {
        assert table'[i] in table;
        assert table'[i].edges <= Owned(table);
      }
    }
  }

  /** New rows own only unowned step edges, at least one each, and afterwards every step edge is owned. */
  lemma SegmentedCovers(table: seq<Segment>, steps: seq<DrivenStep>, table': seq<Segment>, ids: seq<SegmentId>)
    requires Segmented(table, steps, table', ids)
    ensures forall i :: |table| <= i < |table'| ==>
      table'[i].edges != {} && table'[i].edges <= StepEdges(steps) - Owned(table)
    ensures StepEdges(steps) <= Owned(table')
  {
    LeftoversPartition(Owned(table), steps);
    AddedRows(table, steps, table', ids);
    forall e | e in StepEdges(steps) ensures e in Owned(table') {
      if e in Owned(table) {
        var s :| s in table && e in s.edges;
        assert s in table';
      } else {
        assert e in StepEdges(steps) - Owned(table);
        var i :| 0 <= i < |Leftovers(Owned(table), steps)| && e in Leftovers(Owned(table), steps)[i];
        assert table'[|table| + i] in table';
      }
    }
  }

  /** `segment` is the one row of `table` owning `edge`. */
  ghost predicate SoleOwner(table: seq<Segment>, segment: Segment, edge: Edge) {
    && segment in table
    && edge in segment.edges
    && forall s :: s in table && edge in s.edges ==> s == segment
  }

  lemma OwnerIsSole(table: seq<Segment>, segment: Segment, edge: Edge)
    requires Partition(table)
    requires segment in table && edge in segment.edges
    ensures SoleOwner(table, segment, edge)
  {
    var i :| 0 <= i < |table| && table[i] == segment;
    forall s | s in table && edge in s.edges ensures s == segment {
      var j :| 0 <= j < |table| && table[j] == s;
      assert !(table[i].edges !! table[j].edges);
    }
  }

  /** A table that only grows keeps the owners of the edges it already owned. */
  lemma OwnersStay(table: seq<Segment>, later: seq<Segment>, edges: set<Edge>)
    requires table <= later && Partition(later) && edges <= Owned(table)
    ensures Touching(later, edges) == Touching(table, edges) && edges <= Owned(later)
  {
    OwnedGrows(table, later);
    forall s | s in table ensures s in later {
      var i :| 0 <= i < |table| && table[i] == s;
      assert later[i] == s;
    }
    forall id | id in Touching(later, edges) ensures id in Touching(table, edges) {
      var s :| s in later && s.edges * edges != {} && s.id == id;
      var e :| e in s.edges * edges;
      var o :| o in table && e in o.edges;
      OwnerIsSole(later, s, e);
      assert o == s;
    }
  }

  /** Every step edge has exactly one owner, whose id the call returns; every returned id owns a step edge. */
  lemma EveryEdgeOwnedOnce(table: seq<Segment>, steps: seq<DrivenStep>, table': seq<Segment>, ids: seq<SegmentId>)
    requires Segmented(table, steps, table', ids)
    requires Partition(table)
    ensures forall e :: e in StepEdges(steps) ==> exists s :: SoleOwner(table', s, e) && s.id in ids
    ensures forall id :: id in ids ==> exists s :: s in table' && s.id == id && s.edges * StepEdges(steps) != {}
  {
    SegmentedKeepsPartition(table, steps, table', ids);
    SegmentedCovers(table, steps, table', ids);
    forall e | e in StepEdges(steps) ensures exists s :: SoleOwner(table', s, e) && s.id in ids {
      assert e in Owned(table');
      var s :| s in table' && e in s.edges;
      OwnerIsSole(table', s, e);
      assert e in s.edges * StepEdges(steps);
      assert s.id in Elements(ids);
    }
    forall id | id in ids ensures exists s :: s in table' && s.id == id && s.edges * StepEdges(steps) != {} {
      assert id in Elements(ids);
    }
  }

  /**
   * Two routes that share an edge share a segment, however far apart in the history of the table
   * they were created: `earlier'` is the table after the first, `later` any extension of it.
   */
  lemma SharedEdgeSharesSegment(
      earlier: seq<Segment>, steps: seq<DrivenStep>, earlier': seq<Segment>, ids: seq<SegmentId>,
      later: seq<Segment>, steps': seq<DrivenStep>, later': seq<Segment>, ids': seq<SegmentId>, edge: Edge)
    requires Partition(earlier) && Segmented(earlier, steps, earlier', ids)
    requires Partition(later) && earlier' <= later && Segmented(later, steps', later', ids')
    requires edge in StepEdges(steps) && edge in StepEdges(steps')
    ensures exists id :: id in ids && id in ids'
  {
    EveryEdgeOwnedOnce(earlier, steps, earlier', ids);
    EveryEdgeOwnedOnce(later, steps', later', ids');
    var s :| SoleOwner(earlier', s, edge) && s.id in ids;
    var s' :| SoleOwner(later', s', edge) && s'.id in ids';
    var i :| 0 <= i < |earlier'| && earlier'[i] == s;
    assert later'[i] == s;
    assert s == s';
  }

  /** Re-running the call on the same steps, at any later time, adds no row and returns the same ids. */
  lemma SegmentedAgain(table: seq<Segment>, steps: seq<DrivenStep>, table': seq<Segment>, ids: seq<SegmentId>,
                       later: seq<Segment>, later': seq<Segment>, ids': seq<SegmentId>)
    requires Partition(table) && Segmented(table, steps, table', ids)
    requires table' <= later && Partition(later) && Segmented(later, steps, later', ids')
    ensures later' == later
    ensures Elements(ids') == Elements(ids) && |ids'| == |ids|
  {
    SegmentedCovers(table, steps, table', ids);
    OwnedGrows(table', later);
    NothingLeftOver(Owned(later), steps);
    AddedRows(later, steps, later', ids');
    OwnersStay(table', later, StepEdges(steps));
    DistinctByCount(ids);
    DistinctByCount(ids');
  }
}
