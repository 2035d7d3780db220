/** What an assessment decides and writes, as functions of the tables it reads. */
module Assessment {
  import opened Domain
  import opened Reservations

  /** The window of the segment at position `index`: 300 s later per position, as long as the whole trip. */
  function Window(booking: BookingId, segment: SegmentId, departure: Instant, index: nat, duration: int): Reservation {
    var start := departure + SEGMENT_OFFSET_SECONDS * index * MICROS_PER_SECOND;
    Reservation(booking, segment, start, start + duration * MICROS_PER_SECOND)
  }

  function Windows(booking: BookingId, departure: Instant, route: Route): (rows: seq<Reservation>)
    ensures |rows| == |route.segmentIds|
  {
    seq(|route.segmentIds|, i requires 0 <= i < |route.segmentIds| =>
      Window(booking, route.segmentIds[i], departure, i, route.duration))
  }

  /** The dictionary `get_capacities` builds for `ids`. */
  function Found(capacities: map<SegmentId, nat>, ids: seq<SegmentId>): map<SegmentId, nat> {
    map id | id in capacities && id in ids :: capacities[id]
  }

  /** The check at one position: strictly fewer overlapping windows than places. */
  predicate Fits(rows: seq<Reservation>, capacities: map<SegmentId, nat>, w: Reservation) {
    w.segment in capacities && CountOverlapping(rows, w.segment, w.start, w.end) < capacities[w.segment]
  }

  /** Every segment is known and has room for its window. */
  ghost predicate AllFit(rows: seq<Reservation>, capacities: map<SegmentId, nat>, departure: Instant, route: Route) {
    forall i :: 0 <= i < |route.segmentIds| ==> Fits(rows, capacities, Windows(0, departure, route)[i])
  }

  /** The decision of `assess_and_reserve`: known route, no repeated segment, and room everywhere. */
  ghost predicate Approves(rows: seq<Reservation>, capacities: map<SegmentId, nat>, departure: Instant, route: Option<Route>) {
    && route.Some?
    && Distinct(route.value.segmentIds)
    && AllFit(rows, capacities, departure, route.value)
  }

  /** The rows an assessment adds: one window per segment, or nothing. */
  function Reserved(approved: bool, booking: BookingId, departure: Instant, route: Option<Route>): seq<Reservation> {
    if approved && route.Some? then Windows(booking, departure, route.value) else []
  }

  /** The size test of the code: as many capacities as segments means all known and none repeated. */
  lemma CapacitiesComplete(capacities: map<SegmentId, nat>, ids: seq<SegmentId>)
    ensures Found(capacities, ids).Keys <= Elements(ids)
    ensures |Found(capacities, ids)| == |ids| <==> Distinct(ids) && Elements(ids) <= capacities.Keys
    ensures |Found(capacities, ids)| == |Elements(ids)| <==> Elements(ids) <= capacities.Keys
  {
    var keys := Found(capacities, ids).Keys;
    assert |keys| == |Found(capacities, ids)|;
    assert keys == Elements(ids) * capacities.Keys;
    DistinctByCount(ids);
    SubsetSize(keys, Elements(ids));
    assert keys == Elements(ids) <==> Elements(ids) <= capacities.Keys;
  }

  /** Whose windows they are does not matter to the check. */
  lemma FitsAnyBooking(rows: seq<Reservation>, capacities: map<SegmentId, nat>, departure: Instant, route: Route, booking: BookingId)
    ensures AllFit(rows, capacities, departure, route) <==>
      forall r :: r in Windows(booking, departure, route) ==> Fits(rows, capacities, r)
  {
    var ws, ws0 := Windows(booking, departure, route), Windows(0, departure, route);
    assert forall i :: 0 <= i < |ws| ==> (Fits(rows, capacities, ws[i]) <==> Fits(rows, capacities, ws0[i]));
    if forall r :: r in ws ==> Fits(rows, capacities, r) {
      assert forall i :: 0 <= i < |ws| ==> ws[i] in ws;
    }
  }

  // ----- what the decision means on the rows

  /** The positions of the rows that occupy `segment` at some time during [start, end). */
  function Taken(rows: seq<Reservation>, segment: SegmentId, start: Instant, end: Instant): set<nat> {
    set k | 0 <= k < |rows| && rows[k].segment == segment && rows[k].start < end && start < rows[k].end
  }

  /** `CountOverlapping` is how many they are. */
  lemma OverlapIsTaken(rows: seq<Reservation>, segment: SegmentId, start: Instant, end: Instant)
    ensures CountOverlapping(rows, segment, start, end) == |Taken(rows, segment, start, end)|
  {
    var test := Overlapping(segment, start, end);
    CountIsSize(rows, test);
    assert Taken(rows, segment, start, end) == set k | 0 <= k < |rows| && test(rows[k]);
  }

  /** The trip reaches its `i`-th segment five minutes per segment after departure, and there as many rows as places are in its way. */
  predicate Crowded(rows: seq<Reservation>, capacities: map<SegmentId, nat>, departure: Instant, route: Route, i: nat)
    requires i < |route.segmentIds| && route.segmentIds[i] in capacities
  {
    var start := departure + 5 * 60_000_000 * i;
    |Taken(rows, route.segmentIds[i], start, start + 1_000_000 * route.duration)| >= capacities[route.segmentIds[i]]
  }

  /** Every segment is known and none is crowded when the trip gets there. */
  predicate HasRoom(rows: seq<Reservation>, capacities: map<SegmentId, nat>, departure: Instant, route: Route) {
    forall i :: 0 <= i < |route.segmentIds| ==>
      route.segmentIds[i] in capacities && !Crowded(rows, capacities, departure, route, i)
  }

  /** The checks answer exactly that. */
  lemma FitMeansRoom(rows: seq<Reservation>, capacities: map<SegmentId, nat>, departure: Instant, route: Route)
    ensures AllFit(rows, capacities, departure, route) <==> HasRoom(rows, capacities, departure, route)
  {
    forall i | 0 <= i < |route.segmentIds|
      ensures Fits(rows, capacities, Windows(0, departure, route)[i]) <==>
        route.segmentIds[i] in capacities && !Crowded(rows, capacities, departure, route, i)
    {
      var w := Windows(0, departure, route)[i];
      OverlapIsTaken(rows, w.segment, w.start, w.end);
    }
  }

  /** A route without repeats on which every known segment has fewer rows than places, whenever they are, is approved. */
  lemma RoomIsApproved(rows: seq<Reservation>, capacities: map<SegmentId, nat>, departure: Instant, route: Route)
    requires forall i, j :: 0 <= i < j < |route.segmentIds| ==> route.segmentIds[i] != route.segmentIds[j]
    requires forall id :: id in route.segmentIds ==>
      id in capacities && |set k | 0 <= k < |rows| && rows[k].segment == id| < capacities[id]
    ensures Approves(rows, capacities, departure, Some(route))
  {
    FitMeansRoom(rows, capacities, departure, route);
    forall i | 0 <= i < |route.segmentIds| ensures !Crowded(rows, capacities, departure, route, i) {
      var id, start := route.segmentIds[i], departure + 5 * 60_000_000 * i;
      SubsetSize(
        Taken(rows, id, start, start + 1_000_000 * route.duration),
        set k | 0 <= k < |rows| && rows[k].segment == id);
    }
  }

  /**
   * A refusal of a route of known segments without repeats is never idle: some segment has at least as many rows in
   * the way as places, and where the rows are at least as long as the trip, some instant of it is half full there.
   */
  lemma RefusalIsHalfFull(rows: seq<Reservation>, capacities: map<SegmentId, nat>, departure: Instant, route: Route)
      returns (i: nat, t: Instant)
    requires Distinct(route.segmentIds) && forall id :: id in route.segmentIds ==> id in capacities
    requires !Approves(rows, capacities, departure, Some(route))
    requires route.duration > 0
    requires forall r :: r in rows && r.segment in route.segmentIds ==> r.end - r.start >= 1_000_000 * route.duration
    ensures i < |route.segmentIds| && Crowded(rows, capacities, departure, route, i)
    ensures 0 <= t - (departure + 5 * 60_000_000 * i) < 1_000_000 * route.duration
    ensures 2 * Load(rows, route.segmentIds[i], t) >= capacities[route.segmentIds[i]]
  {
    FitMeansRoom(rows, capacities, departure, route);
    i :| 0 <= i < |route.segmentIds| && Crowded(rows, capacities, departure, route, i);
    var id, start := route.segmentIds[i], departure + 5 * 60_000_000 * i;
    var end := start + 1_000_000 * route.duration;
    OverlapIsTaken(rows, id, start, end);
    RejectionIsHalfFull(rows, id, start, end, capacities[id]);
    t :| start <= t < end && 2 * Load(rows, id, t) >= capacities[id];
  }

  /** An approval keeps every segment within capacity at every instant. */
  lemma ApprovalKeepsCapacity(rows: seq<Reservation>, capacities: map<SegmentId, nat>, departure: Instant, route: Option<Route>, booking: BookingId)
    requires WithinCapacity(rows, capacities)
    requires Approves(rows, capacities, departure, route)
    ensures WithinCapacity(rows + Reserved(true, booking, departure, route), capacities)
  {
    FitsAnyBooking(rows, capacities, departure, route.value, booking);
    InsertKeepsCapacity(rows, Windows(booking, departure, route.value), capacities);
  }

  /** An approved booking holds exactly one window on each segment of its route and none elsewhere. */
  lemma OneWindowPerSegment(booking: BookingId, departure: Instant, route: Route, segment: SegmentId)
    requires Distinct(route.segmentIds)
    ensures Count(Windows(booking, departure, route), (r: Reservation) => r.segment == segment)
         == if segment in route.segmentIds then 1 else 0
  {
    var ws := Windows(booking, departure, route);
    var on := (r: Reservation) => r.segment == segment;
    CountAtMostOne(ws, segment, on);
    CountPositive(ws, on);
    if segment in route.segmentIds {
      var i :| 0 <= i < |ws| && route.segmentIds[i] == segment;
      assert ws[i] in ws && on(ws[i]);
    }
  }

  // ----- availability preview

  datatype Candidate = Candidate(routeId: RouteId, route: Route)

  /** Where preview and decision part: a repeated segment passes the preview's checks, the decision refuses it. */
  lemma PreviewOverlooksRepeats()
    ensures
      var route := Route([7, 7], 60);
      AllFit([], map[7 := 5], 0, route) && !Approves([], map[7 := 5], 0, Some(route))
  {
    var route := Route([7, 7], 60);
    assert route.segmentIds[0] == route.segmentIds[1];
  }
}
