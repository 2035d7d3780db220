/**
 * The booking saga as one step machine: the bookings table and its outbox log, the conflict-detection
 * and messaging consumers, and the booking service's own consumer, cancel requests and expiry loop.
 * An event may be consumed any time after it is logged, in any order; where it waits does not matter.
 */
module Saga {
  import opened Domain
  import opened Reservations
  import opened Assessment
  import opened Bookings

  /** A consumer's name, which contains its hostname and is half of its processed-event key. */
  type ConsumerName = string

  type Key = (nat, ConsumerName)

  /** Some consumer has the event's key. */
  predicate Seen(keys: set<Key>, e: nat) {
    exists k :: k in keys && k.0 == e
  }

  /** A code path between two of its transactions. */
  datatype Thread =
    /** checked not to be marked processed; `written` once its status update has committed */
    | Handling(event: nat, written: bool)
    /** passed the CanTransition check */
    | Cancelling(booking: BookingId)
    /** the rest of an expiry pass */
    | Expiring(queue: seq<BookingId>)
    /** ran its DELETE, not yet committed */
    | Releasing(event: nat, consumer: ConsumerName, doomed: set<nat>)
    | Finished

  datatype Message = Message(driver: DriverId, booking: BookingId, text: string)

  datatype State = State(
    bookings: map<BookingId, Booking>,
    log: seq<Event>,
    rows: seq<Row>,
    capacities: map<SegmentId, nat>,
    routes: map<RouteId, Route>,
    assessed: set<Key>,
    released: set<Key>,
    marked: set<nat>,
    notified: seq<Key>,
    inbox: seq<Message>,
    now: Instant,
    threads: seq<Thread>,
    /** ghost: the assessments whose status update has committed at least once */
    applied: set<nat>,
    /** ghost: for each row id used so far, the assessment that inserted under it */
    grants: map<nat, nat>)

  datatype Step =
    | Publish(capacities: map<SegmentId, nat>, routes: map<RouteId, Route>)
    | Tick(now: Instant)
    | Create(booking: BookingId, driver: DriverId, routeId: RouteId, departure: Instant)
    | Assess(event: nat, consumer: ConsumerName, verdict: bool, id: nat)
    | StartHandling(event: nat)
    | WriteStatus(thread: nat)
    | Mark(thread: nat)
    | AskCancel(booking: BookingId, driver: DriverId)
    | WriteCancel(thread: nat)
    | ScanExpired(queue: seq<BookingId>)
    | WriteExpired(thread: nat)
    | SkipExpired(thread: nat)
    | EndExpiry(thread: nat)
    | StartRelease(event: nat, consumer: ConsumerName)
    | CommitRelease(thread: nat)
    | PassUpdate(event: nat, consumer: ConsumerName)
    | Notify(event: nat, consumer: ConsumerName)
    | Crash(thread: nat)

  /** The statuses on which the conflict consumer releases. */
  predicate Releases(status: Status) {
    status == Cancelled || status == Expired
  }

  function StatusText(status: Status): string {
    match status
    case Approved => "Your booking has been approved. Have a safe journey!"
    case Rejected =>
      "Your booking has been rejected due to road capacity constraints. Please try a different departure time or route."
    case Cancelled => "Your booking has been cancelled."
    case Expired => "Your booking has expired as the departure time has passed."
    case Pending => "Your booking status has been updated to PENDING."
  }

  function MessageFor(e: Event): Message
    requires e.Updated?
  {
    Message(e.driver, e.booking, StatusText(e.status))
  }

  /** The committed windows. */
  function Table(s: State): seq<Reservation> {
    Content(s.rows)
  }

  function RouteOf(s: State, id: RouteId): Option<Route> {
    if id in s.routes then Some(s.routes[id]) else None
  }

  /** An unguarded status update and its event, in one transaction. */
  function WithStatus(s: State, b: BookingId, status: Status): State
    requires b in s.bookings
  {
    s.(bookings := s.bookings[b := s.bookings[b].(status := status)],
       log := s.log + [Updated(b, s.bookings[b].driver, status)])
  }

  ghost predicate Enabled(s: State, step: Step) {
    match step
    case Publish(capacities, routes) => forall id :: id in s.routes ==> id in routes && routes[id] == s.routes[id]
    case Tick(now) => s.now <= now
    case Create(b, _, _, _) => b !in s.bookings
    case Assess(e, c, verdict, id) =>
      && e < |s.log| && s.log[e].Created? && (e, c) !in s.assessed && id !in s.grants
      && (verdict ==> Approves(Table(s), s.capacities, s.log[e].departure, RouteOf(s, s.log[e].routeId)))
    case StartHandling(e) => e < |s.log| && s.log[e].Assessed? && e !in s.marked
    case WriteStatus(t) => t < |s.threads| && s.threads[t].Handling? && !s.threads[t].written
      && s.threads[t].event < |s.log| && s.log[s.threads[t].event].Assessed? && s.log[s.threads[t].event].booking in s.bookings
    case Mark(t) => t < |s.threads| && s.threads[t].Handling? && s.threads[t].written
    case AskCancel(b, driver) =>
      b in s.bookings && s.bookings[b].driver == driver && CanTransition(s.bookings[b].status, Cancelled)
    case WriteCancel(t) => t < |s.threads| && s.threads[t].Cancelling? && s.threads[t].booking in s.bookings
    case ScanExpired(queue) =>
      Distinct(queue) && Elements(queue) == set b | b in s.bookings && Expirable(s.bookings[b], s.now)
    case WriteExpired(t) => t < |s.threads| && s.threads[t].Expiring? && s.threads[t].queue != []
      && s.threads[t].queue[0] in s.bookings
    case SkipExpired(t) => t < |s.threads| && s.threads[t].Expiring? && s.threads[t].queue != []
    case EndExpiry(t) => t < |s.threads| && s.threads[t].Expiring? && s.threads[t].queue == []
    case StartRelease(e, _) => e < |s.log| && s.log[e].Updated? && Releases(s.log[e].status)
    case CommitRelease(t) => t < |s.threads| && s.threads[t].Releasing?
    case PassUpdate(e, c) => e < |s.log| && s.log[e].Updated? && !Releases(s.log[e].status) && (e, c) !in s.released
    case Notify(e, c) => e < |s.log| && s.log[e].Updated? && (e, c) !in s.notified
    case Crash(t) => t < |s.threads|
  }

  function Next(s: State, step: Step): State
    requires Enabled(s, step)
  {
    match step
    case Publish(capacities, routes) => s.(capacities := capacities, routes := routes)
    case Tick(now) => s.(now := now)
    case Create(b, driver, routeId, departure) =>
      s.(bookings := s.bookings[b := Booking(driver, routeId, departure, Pending)],
         log := s.log + [Created(b, driver, routeId, WholeSeconds(departure))])
    case Assess(e, c, verdict, id) =>
      var order := s.log[e];
      s.(rows := s.rows + Tagged(id, Reserved(verdict, order.booking, order.departure, RouteOf(s, order.routeId))),
         grants := s.grants[id := |s.log|],
         assessed := s.assessed + {(e, c)},
         log := s.log + [Assessed(order.booking, verdict)])
    case StartHandling(e) => s.(threads := s.threads + [Handling(e, false)])
    case WriteStatus(t) =>
      var e := s.threads[t].event;
      WithStatus(s, s.log[e].booking, Verdict(s.log[e].available))
        .(threads := s.threads[t := Handling(e, true)], applied := s.applied + {e})
    case Mark(t) => s.(marked := s.marked + {s.threads[t].event}, threads := s.threads[t := Finished])
    case AskCancel(b, _) => s.(threads := s.threads + [Cancelling(b)])
    case WriteCancel(t) => WithStatus(s, s.threads[t].booking, Cancelled).(threads := s.threads[t := Finished])
    case ScanExpired(queue) => s.(threads := s.threads + [Expiring(queue)])
    case WriteExpired(t) =>
      WithStatus(s, s.threads[t].queue[0], Expired).(threads := s.threads[t := Expiring(s.threads[t].queue[1..])])
    case SkipExpired(t) => s.(threads := s.threads[t := Expiring(s.threads[t].queue[1..])])
    case EndExpiry(t) => s.(threads := s.threads[t := Finished])
    case StartRelease(e, c) => s.(threads := s.threads + [Releasing(e, c, IdsOf(s.rows, s.log[e].booking))])
    case CommitRelease(t) =>
      var Releasing(e, c, doomed) := s.threads[t];
      var closed := s.(threads := s.threads[t := Finished]);
      if (e, c) in s.released then closed
      else closed.(rows := Left(s.rows, doomed), released := s.released + {(e, c)})
    case PassUpdate(e, c) => s.(released := s.released + {(e, c)})
    case Notify(e, c) => s.(notified := s.notified + [(e, c)], inbox := s.inbox + [MessageFor(s.log[e])])
    case Crash(t) => s.(threads := s.threads[t := Finished])
  }

  ghost predicate Init(s: State) {
    && s.bookings == map[] && s.log == [] && s.rows == []
    && s.assessed == {} && s.released == {} && s.marked == {} && s.applied == {}
    && s.notified == [] && s.inbox == [] && s.threads == [] && s.grants == map[]
  }

  /** Step `i` of the run is possible and leads to the next state. */
  ghost predicate Takes(states: seq<State>, steps: seq<Step>, i: nat)
    requires i < |steps| && |states| == |steps| + 1
  {
    Enabled(states[i], steps[i]) && states[i + 1] == Next(states[i], steps[i])
  }

  ghost predicate IsRun(states: seq<State>, steps: seq<Step>) {
    && |states| == |steps| + 1
    && Init(states[0])
    && forall i {:trigger Takes(states, steps, i)} :: 0 <= i < |steps| ==> Takes(states, steps, i)
  }

  /** The step does not assess an event that was assessed before, under whatever name. */
  predicate Once(s: State, step: Step) {
    step.Assess? ==> !Seen(s.assessed, step.event)
  }

  /** The step does not contradict an earlier assessment of the same booking. */
  predicate Agrees(s: State, step: Step) {
    step.Assess? && step.event < |s.log| && s.log[step.event].Created? ==>
      forall f :: 0 <= f < |s.log| && s.log[f].Assessed? && s.log[f].booking == s.log[step.event].booking ==>
        s.log[f].available == step.verdict
  }

  /** `steps` lead from `s` to `s'`. */
  ghost predicate Leads(s: State, steps: seq<Step>, s': State)
    decreases steps
  {
    if steps == [] then s' == s
    else Enabled(s, steps[0]) && Leads(Next(s, steps[0]), steps[1..], s')
  }

  // ----- what every run keeps

  /** One creation per booking, of which the table knows; assessments stem from creations and are applied before marked. */
  ghost predicate LogOk(s: State) {
    && (forall e, f :: 0 <= e < f < |s.log| && s.log[e].Created? && s.log[f].Created? ==> s.log[e].booking != s.log[f].booking)
    && (forall e :: 0 <= e < |s.log| && s.log[e].Created? ==>
          && s.log[e].booking in s.bookings
          && s.bookings[s.log[e].booking].routeId == s.log[e].routeId
          && WholeSeconds(s.bookings[s.log[e].booking].departure) == s.log[e].departure)
    && (forall f :: 0 <= f < |s.log| && s.log[f].Assessed? ==> WasAssessed(s, s.log[f].booking))
    && (forall e :: e in s.applied ==> e < |s.log|)
    && s.marked <= s.applied
    && KeysOk(s)
  }

  /** The booking's creation is in the log and has been assessed. */
  ghost predicate WasAssessed(s: State, b: BookingId) {
    exists e :: 0 <= e < |s.log| && s.log[e].Created? && s.log[e].booking == b && Seen(s.assessed, e)
  }

  /** Keys belong to events of the consumed kind. */
  ghost predicate KeysOk(s: State) {
    && (forall k :: k in s.assessed ==> k.0 < |s.log| && s.log[k.0].Created?)
    && (forall k :: k in s.released ==> k.0 < |s.log| && s.log[k.0].Updated?)
  }

  /** `f` is a positive assessment of `b`. */
  ghost predicate Granted(s: State, b: BookingId, f: nat) {
    f < |s.log| && s.log[f] == Assessed(b, true)
  }

  /** Every row was inserted by a positive assessment of its booking. */
  ghost predicate RowsOk(s: State) {
    && (forall id :: id in s.grants ==> s.grants[id] < |s.log|)
    && (forall r :: r in s.rows ==> r.id in s.grants && Granted(s, r.window.booking, s.grants[r.id]))
  }

  /** What a thread in flight relies on. */
  ghost predicate ThreadOk(s: State, thread: Thread) {
    match thread
    case Handling(e, written) =>
      e < |s.log| && s.log[e].Assessed? && s.log[e].booking in s.bookings && (written ==> e in s.applied)
    case Cancelling(b) => b in s.bookings
    case Expiring(queue) => forall b :: b in queue ==> b in s.bookings
    case Releasing(e, _, doomed) =>
      && e < |s.log| && s.log[e].Updated? && Releases(s.log[e].status)
      && (forall id :: id in doomed ==> id in s.grants)
      && (forall r :: r in s.rows && r.id in doomed ==> r.window.booking == s.log[e].booking)
      // its snapshot has every row granted before its event
      && (forall r :: r in s.rows && r.window.booking == s.log[e].booking && r.id in s.grants && s.grants[r.id] < e ==> r.id in doomed)
    case Finished => true
  }

  ghost predicate Sound(s: State) {
    && LogOk(s)
    && RowsOk(s)
    && (forall t :: 0 <= t < |s.threads| ==> ThreadOk(s, s.threads[t]))
  }

  ghost predicate InboxOk(s: State) {
    && Distinct(s.notified)
    && |s.inbox| == |s.notified|
    && forall i :: 0 <= i < |s.inbox| ==>
         s.notified[i].0 < |s.log| && s.log[s.notified[i].0].Updated? && s.inbox[i] == MessageFor(s.log[s.notified[i].0])
  }

  /** The log explains the table, and each update has at most one message per consumer name, with the text of its status. */
  ghost predicate TablesOk(s: State) {
    Replay(s.log) == Statuses(s.bookings) && InboxOk(s)
  }

  // ----- what runs with agreeing assessments keep

  ghost predicate Reserving(s: State, b: BookingId) {
    exists r :: r in s.rows && r.window.booking == b
  }

  /** An update that will release `b`, logged after `f` and not yet applied. */
  ghost predicate ReleaseDue(s: State, b: BookingId, f: nat, c: nat) {
    f < c < |s.log| && s.log[c].Updated? && s.log[c].booking == b && Releases(s.log[c].status) && !Seen(s.released, c)
  }

  /** Why `b` may be holding rows granted by `f`. */
  ghost predicate Explained(s: State, b: BookingId, f: nat) {
    && Granted(s, b, f)
    && b in s.bookings
    && (f !in s.applied || s.bookings[b].status == Approved || exists c :: ReleaseDue(s, b, f, c))
  }

  ghost predicate NoOrphan(s: State, b: BookingId) {
    Reserving(s, b) ==> exists f :: Explained(s, b, f)
  }

  /** Assessments of one booking agree. */
  ghost predicate AgreeLog(s: State) {
    forall e, f :: 0 <= e < f < |s.log| && s.log[e].Assessed? && s.log[f].Assessed? && s.log[e].booking == s.log[f].booking ==>
      s.log[e].available == s.log[f].available
  }

  ghost predicate RowExplained(s: State, r: Row) {
    r.id in s.grants && Explained(s, r.window.booking, s.grants[r.id])
  }

  ghost predicate Inv(s: State) {
    && Sound(s)
    && AgreeLog(s)
    && (forall r :: r in s.rows ==> RowExplained(s, r))
  }
}
