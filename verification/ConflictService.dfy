/** The conflict detection service: its three repositories and `ConflictService`. */
module ConflictDetection {
  import opened Domain
  import opened Reservations
  import opened Assessment
  import opened Segmentation

  /** A row of routes as stored: both columns are nullable. */
  datatype RouteRow = RouteRow(segmentIds: Option<seq<SegmentId>>, estimatedDuration: Option<int>)

  const DEFAULT_DURATION := 3600

  /** Python's `value or default` on a nullable integer column. */
  function OrElse(value: Option<int>, default: int): int {
    if value.None? || value.value == 0 then default else value.value
  }

  function ToRoute(row: RouteRow): Route {
    Route(row.segmentIds.GetOr([]), OrElse(row.estimatedDuration, DEFAULT_DURATION))
  }

  /** The route an assessment works with, if the id is known. */
  function Lookup(rows: map<RouteId, RouteRow>, id: RouteId): Option<Route> {
    if id in rows then Some(ToRoute(rows[id])) else None
  }

  /** Every route row with its defaults applied. */
  function Routes(rows: map<RouteId, RouteRow>): map<RouteId, Route> {
    map id | id in rows :: ToRoute(rows[id])
  }

  class RouteRepository {
    var rows: map<RouteId, RouteRow>

    method GetById(id: RouteId) returns (route: Option<Route>)
      ensures route == Lookup(rows, id)
      ensures route.Some? <==> id in rows
      // an unknown list is empty; an unknown or zero duration is an hour
      ensures route.Some? && rows[id].segmentIds.Some? ==> route.value.segmentIds == rows[id].segmentIds.value
      ensures route.Some? && rows[id].segmentIds.None? ==> route.value.segmentIds == []
      ensures route.Some? ==>
        route.value.duration ==
          if rows[id].estimatedDuration.None? || rows[id].estimatedDuration == Some(0) then 60 * 60 else rows[id].estimatedDuration.value
    {
      route := if id in rows then Some(ToRoute(rows[id])) else None;
    }
  }

  class SegmentRepository {
    var rows: seq<Segment>

    /** Row locks taken by this transaction, in the order taken. */
    var locks: seq<SegmentId>

    /** One locking statement: the rows found are locked in ascending id order, and read into a dictionary. */
    method GetCapacities(ids: seq<SegmentId>) returns (found: map<SegmentId, nat>)
      modifies this`locks
      ensures found == Found(Capacities(rows), ids)
      ensures exists order :: locks == old(locks) + order && Ascending(order) && Elements(order) == found.Keys
      // ids being unique, each known id has its row's capacity, and none at all if that is null
      ensures Partition(rows) ==>
        forall s :: s in rows && s.id in ids ==>
          s.id in found && found[s.id] == if s.capacity.None? then 0 else s.capacity.value
    {
      if Partition(rows) {
        CapacityOfRow(rows);
      }
      found := map[];
      for i := 0 to |rows|
        invariant found == Found(Capacities(rows[..i]), ids)
      {
        assert rows[..i + 1][..i] == rows[..i];
        if rows[i].id in ids {
          found := found[rows[i].id := rows[i].capacity.GetOr(0)];
        }
      }
      assert rows[..|rows|] == rows;
      var order := InOrder(found.Keys);
      locks := locks + order;
    }
  }

  /** ORDER BY segment_id */
  method InOrder(ids: set<SegmentId>) returns (order: seq<SegmentId>)
    ensures Ascending(order) && Elements(order) == ids
  {
    var remaining := ids;
    order := [];
    while remaining != {}
      invariant remaining <= ids && Elements(order) == ids - remaining
      invariant Ascending(order)
      invariant forall i, y :: 0 <= i < |order| && y in remaining ==> order[i] < y
      decreases remaining
    {
      ghost var first := LeastExists(remaining);
      assert IsLeast(remaining, first);
      var least :| least in remaining && IsLeast(remaining, least);
      assert IsLeast(remaining, least);
      assert Elements(order + [least]) == Elements(order) + {least};
      order := order + [least];
      remaining := remaining - {least};
    }
  }

  predicate IsLeast(ids: set<nat>, least: nat) {
    least in ids && forall x :: x in ids ==> least <= x
  }

  lemma {:induction false} LeastExists(ids: set<nat>) returns (least: nat)
    requires ids != {}
    ensures IsLeast(ids, least)
    decreases ids
  {
    least :| least in ids;
    if ids != {least} {
      var other := LeastExists(ids - {least});
      var first := least;
      least := if other <= first then other else first;
      forall x | x in ids ensures least <= x {
        assert x == first || x in ids - {first};
      }
    }
  }

  class ReservationRepository {
    var rows: seq<Reservation>

    method CountOverlap(segment: SegmentId, start: Instant, end: Instant) returns (n: nat)
      ensures n == CountOverlapping(rows, segment, start, end) == |Taken(rows, segment, start, end)|
    {
      OverlapIsTaken(rows, segment, start, end);
      n := CountOverlapping(rows, segment, start, end);
    }

    method Create(booking: BookingId, segment: SegmentId, start: Instant, end: Instant)
      modifies this
      ensures rows == old(rows) + [Reservation(booking, segment, start, end)]
    {
      rows := rows + [Reservation(booking, segment, start, end)];
    }

    method DeleteByBooking(booking: BookingId) returns (deleted: nat)
      modifies this
      ensures RowsOf(rows, booking) == []
      ensures forall other :: other != booking ==> RowsOf(rows, other) == RowsOf(old(rows), other)
      ensures deleted == |RowsOf(old(rows), booking)| && |rows| + deleted == |old(rows)|
      ensures rows == Without(old(rows), booking)
    {
      DeletionSplits(rows, booking);
      deleted := |RowsOf(rows, booking)|;
      rows := Without(rows, booking);
    }

    /** `get_utilization`: zero for every id asked for, then the group counts that are not zero. */
    method GetUtilization(ids: seq<SegmentId>, start: Instant, end: Instant) returns (result: map<SegmentId, nat>)
      ensures result == map id | id in ids :: CountOverlapping(rows, id, start, end)
    {
      result := map id | id in ids :: 0;
      var groups := set id | id in ids && CountOverlapping(rows, id, start, end) > 0;
      var remaining := groups;
      while remaining != {}
        invariant remaining <= groups
        invariant result == map id | id in ids :: if id in remaining then 0 else CountOverlapping(rows, id, start, end)
        decreases remaining
      {
        var id :| id in remaining;
        result := result[id := CountOverlapping(rows, id, start, end)];
        remaining := remaining - {id};
      }
    }
  }

  /** Deleting a booking's rows takes exactly those rows, whatever else is in the table. */
  lemma {:induction false} DeletionSplits(rows: seq<Reservation>, booking: BookingId)
    ensures
      var left := Without(rows, booking);
      && RowsOf(left, booking) == []
      && (forall other :: other != booking ==> RowsOf(left, other) == RowsOf(rows, other))
      && |left| + |RowsOf(rows, booking)| == |rows|
  {
    if rows != [] {
      var front, last := rows[..|rows| - 1], rows[|rows| - 1];
      DeletionSplits(front, booking);
      var kept := if last.booking != booking then [last] else [];
      forall b ensures RowsOf(Without(rows, booking), b) == RowsOf(Without(front, booking), b) + RowsOf(kept, b) {
        FilterAppend(Without(front, booking), kept, OfBooking(b));
      }
    }
  }

  datatype AssessmentResult = AssessmentResult(booking: BookingId, routeId: RouteId, segmentsAvailable: bool)

  /** No later candidate has the same route id. */
  predicate LastOfItsId(candidates: seq<Candidate>, k: nat)
    requires k < |candidates|
  {
    forall j :: k < j < |candidates| ==> candidates[j].routeId != candidates[k].routeId
  }

  /** The answers so far: for each route id, whether its last candidate fits. */
  ghost predicate Answers(results: map<RouteId, bool>, rows: seq<Reservation>, capacities: map<SegmentId, nat>,
      departure: Instant, candidates: seq<Candidate>)
  {
    && results.Keys == (set c | c in candidates :: c.routeId)
    && forall k :: 0 <= k < |candidates| && LastOfItsId(candidates, k) ==>
         (results[candidates[k].routeId] <==> AllFit(rows, capacities, departure, candidates[k].route))
  }

  lemma AnswersOneMore(results: map<RouteId, bool>, rows: seq<Reservation>, capacities: map<SegmentId, nat>,
      departure: Instant, candidates: seq<Candidate>, next: Candidate, available: bool)
    requires Answers(results, rows, capacities, departure, candidates)
    requires available <==> AllFit(rows, capacities, departure, next.route)
    ensures Answers(results[next.routeId := available], rows, capacities, departure, candidates + [next])
  {
    var more := candidates + [next];
    forall k | 0 <= k < |candidates| && LastOfItsId(more, k)
      ensures LastOfItsId(candidates, k) && candidates[k].routeId != next.routeId
    {
      assert forall j :: k < j < |candidates| ==> candidates[j] == more[j];
      assert more[|candidates|].routeId != more[k].routeId;
    }
  }

  /**
   * Each route id's last candidate is available exactly if it has room, which is what AssessAndReserve would answer now
   * for a list without repeats.
   */
  ghost predicate Previewed(results: map<RouteId, bool>, rows: seq<Reservation>, capacities: map<SegmentId, nat>,
      departure: Instant, candidates: seq<Candidate>)
  {
    && results.Keys == (set c | c in candidates :: c.routeId)
    && forall k :: 0 <= k < |candidates| && LastOfItsId(candidates, k) ==>
         && (results[candidates[k].routeId] <==> HasRoom(rows, capacities, departure, candidates[k].route))
         && (Distinct(candidates[k].route.segmentIds) ==>
               (results[candidates[k].routeId] <==> Approves(rows, capacities, departure, Some(candidates[k].route))))
  }

  lemma AnswersMeanRoom(results: map<RouteId, bool>, rows: seq<Reservation>, capacities: map<SegmentId, nat>,
      departure: Instant, candidates: seq<Candidate>)
    requires Answers(results, rows, capacities, departure, candidates)
    ensures Previewed(results, rows, capacities, departure, candidates)
  {
    forall k | 0 <= k < |candidates|
      ensures AllFit(rows, capacities, departure, candidates[k].route) <==> HasRoom(rows, capacities, departure, candidates[k].route)
    {
      FitMeansRoom(rows, capacities, departure, candidates[k].route);
    }
  }

  datatype UtilizationRequest = UtilizationRequest(segment: SegmentId, start: Instant, end: Instant)

  class ConflictService {
    const routes: RouteRepository
    const segments: SegmentRepository
    const reservations: ReservationRepository

    constructor (routes: RouteRepository, segments: SegmentRepository, reservations: ReservationRepository)
      ensures this.routes == routes && this.segments == segments && this.reservations == reservations
    {
      this.routes := routes;
      this.segments := segments;
      this.reservations := reservations;
    }

    method AssessAndReserve(booking: BookingId, routeId: RouteId, departure: Instant) returns (result: AssessmentResult)
      modifies segments`locks, reservations
      ensures result.booking == booking && result.routeId == routeId
      ensures result.segmentsAvailable <==>
        Approves(old(reservations.rows), Capacities(segments.rows), departure, Lookup(routes.rows, routeId))
      // yes to a known route without repeats, unless a segment is unknown or crowded when the trip gets there
      ensures result.segmentsAvailable <==>
        && routeId in routes.rows
        && var route := ToRoute(routes.rows[routeId]);
           Distinct(route.segmentIds) && HasRoom(old(reservations.rows), Capacities(segments.rows), departure, route)
      ensures reservations.rows == old(reservations.rows)
        + Reserved(result.segmentsAvailable, booking, departure, Lookup(routes.rows, routeId))
    {
      var known := routes.GetById(routeId);
      if known.None? {
        return AssessmentResult(booking, routeId, false);
      }
      var route := known.value;
      var ids := route.segmentIds;
      FitMeansRoom(reservations.rows, Capacities(segments.rows), departure, route);
      if ids == [] {
        return AssessmentResult(booking, routeId, true);
      }
      var capacities := segments.GetCapacities(ids);
      CapacitiesComplete(Capacities(segments.rows), ids);
      if |capacities| != |ids| {
        NotAllKnown(reservations.rows, Capacities(segments.rows), departure, route);
        return AssessmentResult(booking, routeId, false);
      }
      var room := AllHaveRoom(capacities, departure, route);
      if !room {
        return AssessmentResult(booking, routeId, false);
      }
      ReserveAll(booking, departure, route);
      result := AssessmentResult(booking, routeId, true);
    }

    /** The counting loop, which assessment and preview share: it stops at the first full segment. */
    method AllHaveRoom(capacities: map<SegmentId, nat>, departure: Instant, route: Route) returns (room: bool)
      requires capacities == Found(Capacities(segments.rows), route.segmentIds)
      requires Elements(route.segmentIds) <= capacities.Keys
      ensures room <==> AllFit(reservations.rows, Capacities(segments.rows), departure, route)
      ensures room <==> HasRoom(reservations.rows, Capacities(segments.rows), departure, route)
    {
      FitMeansRoom(reservations.rows, Capacities(segments.rows), departure, route);
      ghost var ws := Windows(0, departure, route);
      for index := 0 to |route.segmentIds|
        invariant forall i :: 0 <= i < index ==> Fits(reservations.rows, Capacities(segments.rows), ws[i])
      {
        var segment := route.segmentIds[index];
        var start := departure + SEGMENT_OFFSET_SECONDS * index * MICROS_PER_SECOND;
        var end := start + route.duration * MICROS_PER_SECOND;
        var overlap := reservations.CountOverlap(segment, start, end);
        assert segment in Elements(route.segmentIds);
        assert ws[index] == Reservation(0, segment, start, end);
        if overlap >= capacities[segment] {
          assert !Fits(reservations.rows, Capacities(segments.rows), ws[index]);
          return false;
        }
      }
      return true;
    }

    /** The inserting loop. */
    method ReserveAll(booking: BookingId, departure: Instant, route: Route)
      modifies reservations
      ensures reservations.rows == old(reservations.rows) + Windows(booking, departure, route)
    {
      ghost var rows, ws := reservations.rows, Windows(booking, departure, route);
      for index := 0 to |route.segmentIds|
        invariant reservations.rows == rows + ws[..index]
      {
        var start := departure + SEGMENT_OFFSET_SECONDS * index * MICROS_PER_SECOND;
        var end := start + route.duration * MICROS_PER_SECOND;
        reservations.Create(booking, route.segmentIds[index], start, end);
        assert ws[..index + 1] == ws[..index] + [ws[index]];
      }
      assert ws[..|ws|] == ws;
    }

    method ReleaseReservations(booking: BookingId) returns (deleted: nat)
      modifies reservations
      ensures RowsOf(reservations.rows, booking) == []
      ensures forall other :: other != booking ==> RowsOf(reservations.rows, other) == RowsOf(old(reservations.rows), other)
      ensures reservations.rows == Without(old(reservations.rows), booking)
      ensures deleted == |RowsOf(old(reservations.rows), booking)|
    {
      deleted := reservations.DeleteByBooking(booking);
    }

    /** Counts per requested window; a segment asked for twice keeps its last window's count. */
    method GetSegmentUtilization(requests: seq<UtilizationRequest>) returns (result: map<SegmentId, nat>)
      ensures result.Keys == set q | q in requests :: q.segment
      ensures forall k :: 0 <= k < |requests| && (forall j :: k < j < |requests| ==> requests[j].segment != requests[k].segment) ==>
        result[requests[k].segment] == CountOverlapping(reservations.rows, requests[k].segment, requests[k].start, requests[k].end)
    {
      result := map[];
      for k := 0 to |requests|
        invariant result.Keys == set q | q in requests[..k] :: q.segment
        invariant forall i :: 0 <= i < k && (forall j :: i < j < k ==> requests[j].segment != requests[i].segment) ==>
          result[requests[i].segment] == CountOverlapping(reservations.rows, requests[i].segment, requests[i].start, requests[i].end)
      {
        var count := reservations.CountOverlap(requests[k].segment, requests[k].start, requests[k].end);
        assert requests[..k + 1] == requests[..k] + [requests[k]];
        result := result[requests[k].segment := count];
      }
      assert requests[..|requests|] == requests;
    }

    /** Later candidates with the same route id overwrite earlier ones; distinct ids do not interfere. */
    method CheckRoutesAvailability(candidates: seq<Candidate>, departure: Instant) returns (results: map<RouteId, bool>)
      modifies segments`locks
      ensures Previewed(results, reservations.rows, Capacities(segments.rows), departure, candidates)
    {
      results := map[];
      for k := 0 to |candidates|
        invariant Answers(results, reservations.rows, Capacities(segments.rows), departure, candidates[..k])
      {
        var candidate := candidates[k];
        var available := CheckCandidate(candidate.route, departure);
        AnswersOneMore(results, reservations.rows, Capacities(segments.rows), departure, candidates[..k], candidate, available);
        assert candidates[..k + 1] == candidates[..k] + [candidate];
        results := results[candidate.routeId := available];
      }
      assert candidates[..|candidates|] == candidates;
      AnswersMeanRoom(results, reservations.rows, Capacities(segments.rows), departure, candidates);
    }

    /** The body of the loop over candidates. */
    method CheckCandidate(route: Route, departure: Instant) returns (available: bool)
      modifies segments`locks
      ensures available <==> AllFit(reservations.rows, Capacities(segments.rows), departure, route)
      ensures available <==> HasRoom(reservations.rows, Capacities(segments.rows), departure, route)
    {
      FitMeansRoom(reservations.rows, Capacities(segments.rows), departure, route);
      var ids := route.segmentIds;
      if ids == [] {
        return true;
      }
      var capacities := segments.GetCapacities(ids);
      CapacitiesComplete(Capacities(segments.rows), ids);
      if |capacities| != |Elements(ids)| {
        NotAllKnown(reservations.rows, Capacities(segments.rows), departure, route);
        return false;
      }
      available := AllHaveRoom(capacities, departure, route);
    }
  }

  lemma NotAllKnown(rows: seq<Reservation>, capacities: map<SegmentId, nat>, departure: Instant, route: Route)
    requires !(Elements(route.segmentIds) <= capacities.Keys) || !Distinct(route.segmentIds)
    ensures !Approves(rows, capacities, departure, Some(route))
    ensures !(Elements(route.segmentIds) <= capacities.Keys) ==> !AllFit(rows, capacities, departure, route)
  {
    if !(Elements(route.segmentIds) <= capacities.Keys) {
      var id :| id in route.segmentIds && id !in capacities;
      var i :| 0 <= i < |route.segmentIds| && route.segmentIds[i] == id;
      assert !Fits(rows, capacities, Windows(0, departure, route)[i]);
    }
  }
}
