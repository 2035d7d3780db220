/**
 * What the three Python handlers are for, as functions of the tables they work on: conflict detection's
 * (reservations, outbox), messaging's (messages), and the processed_events they both insert into.
 */
module Handlers {
  import opened Domain
  import opened Reservations
  import opened Assessment
  import opened Bookings
  import Saga

  /** One call of a handler: the event's id, the consumer's name, and the payload. */
  datatype Job =
    | AssessJob(event: nat, name: string, order: Event)
    | ReleaseJob(event: nat, name: string, update: Event)
    | NotifyJob(event: nat, name: string, update: Event)

  predicate WellFormed(job: Job) {
    if job.AssessJob? then job.order.Created? else job.update.Updated?
  }

  /**
   * `routes` and `capacities` are only read. `keys` and `told` are the rows of processed_events inserted by conflict
   * detection's consumers and by messaging's, whose names start differently.
   */
  datatype Tables = Tables(
    rows: seq<Reservation>,
    routes: map<RouteId, Route>,
    capacities: map<SegmentId, nat>,
    keys: set<(nat, string)>,
    outbox: seq<Event>,
    messages: seq<Saga.Message>,
    told: set<(nat, string)>)

  /** The row of processed_events a job inserts, which at most one transaction can. */
  datatype Key = Key(messaging: bool, event: nat, name: string)

  function KeyOf(job: Job): Key {
    Key(job.NotifyJob?, job.event, job.name)
  }

  predicate HasKey(t: Tables, key: Key) {
    (key.event, key.name) in if key.messaging then t.told else t.keys
  }

  function RouteIn(routes: map<RouteId, Route>, id: RouteId): Option<Route> {
    if id in routes then Some(routes[id]) else None
  }

  /** What the job's transaction leaves when it commits. */
  ghost function Effect(t: Tables, job: Job): Tables
    requires WellFormed(job)
  {
    match job
    case AssessJob(event, name, order) =>
      var route := RouteIn(t.routes, order.routeId);
      var approved := Approves(t.rows, t.capacities, order.departure, route);
      t.(rows := t.rows + Reserved(approved, order.booking, order.departure, route),
         keys := t.keys + {(event, name)},
         outbox := t.outbox + [Assessed(order.booking, approved)])
    case ReleaseJob(event, name, update) =>
      t.(rows := if Saga.Releases(update.status) then Without(t.rows, update.booking) else t.rows,
         keys := t.keys + {(event, name)})
    case NotifyJob(event, name, update) =>
      t.(messages := t.messages + [Saga.MessageFor(update)], told := t.told + {(event, name)})
  }

  /** An effect brings its own key and no other. */
  lemma EffectKeys(t: Tables, job: Job, key: Key)
    requires WellFormed(job)
    ensures HasKey(Effect(t, job), key) <==> HasKey(t, key) || key == KeyOf(job)
  {
  }
}
