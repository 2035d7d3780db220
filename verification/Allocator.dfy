/**
 * Conflict detection under concurrency. Any number of assessment transactions interleave, each taking
 * row locks in ascending segment id, counting segment by segment, and committing; releases delete rows
 * without locks, from a snapshot taken when the DELETE ran; routes and bookings keep arriving.
 */
module Allocator {
  import opened Domain
  import opened Reservations
  import opened Assessment
  import opened Segmentation

  /** A consumer's name, which contains its hostname and is half of its processed-event key. */
  type ConsumerName = string

  /** What a booking.created event asks for. */
  datatype Order = Order(routeId: RouteId, departure: Instant)

  /** A row of routes; `edges` are the driven edges when the routes service made the row. */
  datatype CatalogRoute = CatalogRoute(route: Route, edges: Option<set<Edge>>)

  /** An assessment transaction, with the rows its locking statement found. */
  datatype Tx = Tx(
    booking: BookingId,
    consumer: ConsumerName,
    departure: Instant,
    route: Option<Route>,
    found: map<SegmentId, nat>,
    toLock: seq<SegmentId>,
    locked: nat,
    counted: nat,
    verdict: Option<bool>,
    open: bool)

  /** A release transaction between its DELETE and its commit. */
  datatype Release = Release(booking: BookingId, doomed: set<nat>)

  /** Committed tables, the row ids used so far, then the transactions in flight. */
  datatype State = State(
    segments: seq<Segment>,
    routes: map<RouteId, CatalogRoute>,
    orders: map<BookingId, Order>,
    rows: seq<Row>,
    used: set<nat>,
    processed: set<(BookingId, ConsumerName)>,
    txs: seq<Tx>,
    releases: map<nat, Release>)

  datatype Step =
    | MakeRoute(id: RouteId, steps: seq<DrivenStep>, table: seq<Segment>, ids: seq<SegmentId>, duration: int)
    | LoadRoute(id: RouteId, route: Route)
    | PlaceOrder(booking: BookingId, order: Order)
    | Begin(booking: BookingId, consumer: ConsumerName, toLock: seq<SegmentId>)
    | LockRow(t: nat)
    | Check(t: nat)
    | Commit(t: nat, id: nat)
    | Abort(t: nat)
    | Delete(r: nat, booking: BookingId)
    | CommitRelease(r: nat)
    | AbortRelease(r: nat)

  /** The committed windows. */
  function Table(s: State): seq<Reservation> {
    Content(s.rows)
  }

  function RouteOf(s: State, booking: BookingId): Option<Route>
    requires booking in s.orders
  {
    var id := s.orders[booking].routeId;
    if id in s.routes then Some(s.routes[id].route) else None
  }

  function Segments(tx: Tx): seq<SegmentId> {
    if tx.route.Some? then tx.route.value.segmentIds else []
  }

  function Held(tx: Tx): set<SegmentId> {
    if tx.open && tx.locked <= |tx.toLock| then Elements(tx.toLock[..tx.locked]) else {}
  }

  predicate Free(s: State, t: nat, segment: SegmentId) {
    forall u :: 0 <= u < |s.txs| && u != t ==> segment !in Held(s.txs[u])
  }

  /** The transaction right after its locking statement has found its rows. */
  function Started(s: State, booking: BookingId, consumer: ConsumerName, toLock: seq<SegmentId>): Tx
    requires booking in s.orders
  {
    var route := RouteOf(s, booking);
    var departure := s.orders[booking].departure;
    match route
    case None => Tx(booking, consumer, departure, None, map[], [], 0, 0, Some(false), true)
    case Some(r) =>
      if r.segmentIds == [] then Tx(booking, consumer, departure, route, map[], [], 0, 0, Some(true), true)
      else Tx(booking, consumer, departure, route, Found(Capacities(s.segments), r.segmentIds), toLock, 0, 0, None, true)
  }

  /** One turn of the assessment once every lock is held: the size test, then one overlap count. */
  function Checked(rows: seq<Reservation>, tx: Tx): Tx
    requires tx.route.Some? && tx.counted < |tx.route.value.segmentIds|
  {
    var w := Windows(tx.booking, tx.departure, tx.route.value)[tx.counted];
    if |tx.found| != |Segments(tx)| then tx.(verdict := Some(false))
    else if !Fits(rows, tx.found, w) then tx.(verdict := Some(false))
    else
      tx.(counted := tx.counted + 1,
          verdict := if tx.counted + 1 == |Segments(tx)| then Some(true) else None)
  }

  ghost predicate Enabled(s: State, step: Step) {
    match step
    case MakeRoute(id, steps, table, ids, duration) => id !in s.routes && Segmented(s.segments, steps, table, ids)
    case LoadRoute(id, route) => id !in s.routes
    case PlaceOrder(b, order) => b !in s.orders && WholeSeconds(order.departure) == order.departure
    case Begin(b, c, toLock) =>
      && b in s.orders
      && Ascending(toLock)
      && Elements(toLock) == Started(s, b, c, toLock).found.Keys
    case LockRow(t) =>
      && t < |s.txs| && s.txs[t].open && s.txs[t].locked < |s.txs[t].toLock|
      && Free(s, t, s.txs[t].toLock[s.txs[t].locked])
    case Check(t) =>
      && t < |s.txs| && s.txs[t].open && s.txs[t].locked == |s.txs[t].toLock| && s.txs[t].verdict.None?
      && s.txs[t].counted < |Segments(s.txs[t])|
    case Commit(t, id) => t < |s.txs| && s.txs[t].open && s.txs[t].verdict.Some? && id !in s.used
    case Abort(t) => t < |s.txs| && s.txs[t].open
    case Delete(r, b) => r !in s.releases
    case CommitRelease(r) => r in s.releases
    case AbortRelease(r) => r in s.releases
  }

  /** Committing inserts the processed-event key; if it is already there the whole transaction rolls back. */
  function Committed(s: State, t: nat, id: nat): State
    requires t < |s.txs| && s.txs[t].verdict.Some?
  {
    var tx := s.txs[t];
    var closed := s.(txs := s.txs[t := tx.(open := false)]);
    if (tx.booking, tx.consumer) in s.processed then closed
    else closed.(
        processed := s.processed + {(tx.booking, tx.consumer)},
        rows := s.rows + Tagged(id, Reserved(tx.verdict.value, tx.booking, tx.departure, tx.route)),
        used := s.used + {id})
  }

  function Next(s: State, step: Step): State
    requires Enabled(s, step)
  {
    match step
    case MakeRoute(id, steps, table, ids, duration) =>
      s.(segments := table, routes := s.routes[id := CatalogRoute(Route(ids, duration), Some(StepEdges(steps)))])
    case LoadRoute(id, route) => s.(routes := s.routes[id := CatalogRoute(route, None)])
    case PlaceOrder(b, order) => s.(orders := s.orders[b := order])
    case Begin(b, c, toLock) => s.(txs := s.txs + [Started(s, b, c, toLock)])
    case LockRow(t) => s.(txs := s.txs[t := s.txs[t].(locked := s.txs[t].locked + 1)])
    case Check(t) => s.(txs := s.txs[t := Checked(Table(s), s.txs[t])])
    case Commit(t, id) => Committed(s, t, id)
    case Abort(t) => s.(txs := s.txs[t := s.txs[t].(open := false)])
    case Delete(r, b) => s.(releases := s.releases[r := Release(b, IdsOf(s.rows, b))])
    case CommitRelease(r) => s.(rows := Left(s.rows, s.releases[r].doomed), releases := s.releases - {r})
    case AbortRelease(r) => s.(releases := s.releases - {r})
  }

  /** Nothing reserved and nothing in flight; the catalogue may already hold rows. */
  ghost predicate Init(s: State) {
    && Partition(s.segments)
    && s.routes == map[] && s.orders == map[]
    && s.rows == [] && s.used == {} && s.processed == {}
    && s.txs == [] && s.releases == map[]
  }

  /** Step `i` of the run is possible and leads to the next state. */
  ghost predicate Takes(states: seq<State>, steps: seq<Step>, i: nat)
    requires i < |steps| && |states| == |steps| + 1
  {
    Enabled(states[i], steps[i]) && states[i + 1] == Next(states[i], steps[i])
  }

  ghost predicate IsRun(states: seq<State>, steps: seq<Step>) {
    && |states| == |steps| + 1
    && Init(states[0])
    && forall i {:trigger Takes(states, steps, i)} :: 0 <= i < |steps| ==> Takes(states, steps, i)
  }

  // ----- the invariant

  /** A route made by the routes service lists, once each, exactly the segments that own its edges. */
  ghost predicate RouteOk(segments: seq<Segment>, r: CatalogRoute) {
    r.edges.Some? ==>
      && Distinct(r.route.segmentIds)
      && Elements(r.route.segmentIds) == Touching(segments, r.edges.value)
      && r.edges.value <= Owned(segments)
  }

  ghost predicate CatalogOk(s: State) {
    && Partition(s.segments)
    && forall id :: id in s.routes ==> RouteOk(s.segments, s.routes[id])
  }

  ghost predicate TxOk(s: State, tx: Tx) {
    && tx.booking in s.orders && tx.departure == s.orders[tx.booking].departure
    && (tx.route.Some? ==> RouteOf(s, tx.booking) == tx.route)
    && Ascending(tx.toLock) && Elements(tx.toLock) == tx.found.Keys <= Elements(Segments(tx))
    && tx.locked <= |tx.toLock| && tx.counted <= |Segments(tx)|
    && (forall id :: id in tx.found ==> id in Capacities(s.segments) && Capacities(s.segments)[id] == tx.found[id])
    && (tx.counted > 0 || tx.verdict == Some(true) ==> tx.locked == |tx.toLock| && |tx.found| == |Segments(tx)|)
    && (tx.verdict == Some(true) ==> tx.route.Some? && tx.counted == |Segments(tx)|)
    && (tx.verdict.None? ==> tx.counted < |Segments(tx)|)
    && (tx.verdict.Some? ==> tx.locked == |tx.toLock|)
  }

  /** Every count a transaction has passed would still pass now. */
  ghost predicate Passed(rows: seq<Reservation>, tx: Tx) {
    tx.verdict != Some(false) && tx.route.Some? ==>
      forall i :: 0 <= i < tx.counted && i < |Segments(tx)| ==>
        Fits(rows, tx.found, Windows(tx.booking, tx.departure, tx.route.value)[i])
  }

  /** No row lock has two holders. */
  ghost predicate Exclusive(txs: seq<Tx>) {
    forall t, u :: 0 <= t < u < |txs| ==> Held(txs[t]) !! Held(txs[u])
  }

  /** Some consumer has assessed the booking's creation. */
  ghost predicate Processed(s: State, b: BookingId) {
    exists k :: k in s.processed && k.0 == b
  }

  /** The step does not commit an assessment of a creation that was assessed before under another name. */
  ghost predicate Once(s: State, step: Step) {
    step.Commit? && step.t < |s.txs| && (s.txs[step.t].booking, s.txs[step.t].consumer) !in s.processed ==>
      !Processed(s, s.txs[step.t].booking)
  }

  /** A booking holds its whole route or nothing, and anything only once processed. */
  ghost predicate BookingOk(s: State, b: BookingId) {
    RowsOf(Table(s), b) != [] ==>
      && Processed(s, b) && b in s.orders && RouteOf(s, b).Some?
      && Distinct(RouteOf(s, b).value.segmentIds)
      && RowsOf(Table(s), b) == Windows(b, s.orders[b].departure, RouteOf(s, b).value)
  }

  /** A pending DELETE covers all of its booking's rows or none, and no other row. */
  ghost predicate ReleaseOk(s: State, rel: Release) {
    && (forall r :: r in s.rows && r.id in rel.doomed ==> r.window.booking == rel.booking)
    && (rel.doomed != {} ==>
          && Processed(s, rel.booking) && rel.doomed <= s.used
          && forall r :: r in s.rows && r.window.booking == rel.booking ==> r.id in rel.doomed)
  }

  ghost predicate Inv(s: State) {
    && CatalogOk(s)
    && WithinCapacity(Table(s), Capacities(s.segments))
    && (forall t :: 0 <= t < |s.txs| && s.txs[t].open ==> TxOk(s, s.txs[t]) && Passed(Table(s), s.txs[t]))
    && Exclusive(s.txs)
  }

  /** An id names rows of one booking, and has been used. */
  ghost predicate IdsOk(s: State) {
    && (forall r :: r in s.rows ==> r.id in s.used)
    && (forall r, r' :: r in s.rows && r' in s.rows && r.id == r'.id ==> r.window.booking == r'.window.booking)
  }

  /** What holds as long as no creation is assessed twice. */
  ghost predicate Holdings(s: State) {
    && IdsOk(s)
    && (forall b :: BookingOk(s, b))
    && (forall r :: r in s.releases ==> ReleaseOk(s, s.releases[r]))
  }
}
