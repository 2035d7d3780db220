/**
 * Why the saga may treat an assessment as one step: every run of the interleaved allocator is matched by a run of
 * the saga with the same reservations and the same verdicts.
 */
module AllocatorSaga {
  import opened Domain
  import opened Reservations
  import opened Bookings
  import opened Segmentation
  import A = Allocator
  import AllocatorProofs
  import Saga
  import opened SagaProofs
  import opened BookingRefinement

  // ----- the tables

  /** The saga state shows the allocator's committed tables; an order is a logged creation. */
  ghost predicate Matches(a: A.State, s: Saga.State) {
    && s.rows == a.rows && s.grants.Keys == a.used
    && s.capacities == Capacities(a.segments)
    && s.routes.Keys == a.routes.Keys && (forall id :: id in a.routes ==> s.routes[id] == a.routes[id].route)
    && a.orders.Keys == s.bookings.Keys && (forall k :: k in a.processed ==> k.0 in a.orders)
    && (forall e :: 0 <= e < |s.log| && s.log[e].Created? ==>
          && s.log[e].booking in a.orders && CreatedAs(s, e, s.log[e].booking, a.orders[s.log[e].booking])
          && (forall c :: (e, c) in s.assessed <==> (s.log[e].booking, c) in a.processed))
  }

  /** Event `e` created booking `b` for that route and departure. */
  ghost predicate CreatedAs(s: Saga.State, e: nat, b: BookingId, order: A.Order) {
    && e < |s.log| && s.log[e].Created?
    && s.log[e].booking == b && s.log[e].routeId == order.routeId && s.log[e].departure == order.departure
  }

  /** A commit that is not a duplicate. */
  predicate Decides(a: A.State, step: A.Step) {
    step.Commit? && step.t < |a.txs| && a.txs[step.t].verdict.Some?
    && (a.txs[step.t].booking, a.txs[step.t].consumer) !in a.processed
  }

  /** The saga's step for it. */
  function AssessFor(a: A.State, step: A.Step, e: nat): Saga.Step
    requires Decides(a, step)
  {
    Saga.Assess(e, a.txs[step.t].consumer, a.txs[step.t].verdict.value, step.id)
  }

  /** Such a commit is the saga's assessment of that creation, verdict event included. */
  lemma CommitIsAssess(a: A.State, step: A.Step, s: Saga.State, e: nat)
    requires A.Inv(a) && A.Enabled(a, step) && Decides(a, step)
    requires Matches(a, s) && Saga.Sound(s)
    requires e < |s.log| && s.log[e].Created? && s.log[e].booking == a.txs[step.t].booking
    ensures Saga.Enabled(s, AssessFor(a, step, e)) && (A.Once(a, step) ==> Saga.Once(s, AssessFor(a, step, e)))
    ensures Matches(A.Next(a, step), Saga.Next(s, AssessFor(a, step, e)))
    ensures Saga.Next(s, AssessFor(a, step, e)).log == s.log + [Assessed(a.txs[step.t].booking, a.txs[step.t].verdict.value)]
  {
    CommitCanAssess(a, step, s, e);
    CommitGains(a, step);
    AssessGains(s, AssessFor(a, step, e));
    AssessMatches(a, s, e, a.txs[step.t].consumer, A.Next(a, step), Saga.Next(s, AssessFor(a, step, e)));
  }

  lemma CommitGains(a: A.State, step: A.Step)
    requires A.Enabled(a, step) && Decides(a, step)
    ensures
      var a', tx := A.Next(a, step), a.txs[step.t];
      && a'.used == a.used + {step.id} && a'.processed == a.processed + {(tx.booking, tx.consumer)}
      && a'.segments == a.segments && a'.routes == a.routes && a'.orders == a.orders
  {
  }

  lemma AssessGains(s: Saga.State, step: Saga.Step)
    requires Saga.Enabled(s, step) && step.Assess?
    ensures
      var s' := Saga.Next(s, step);
      && s'.log == s.log + [Assessed(s.log[step.event].booking, step.verdict)]
      && s'.grants.Keys == s.grants.Keys + {step.id} && s'.assessed == s.assessed + {(step.event, step.consumer)}
      && s'.capacities == s.capacities && s'.routes == s.routes && s'.bookings == s.bookings
  {
  }

  lemma CommitCanAssess(a: A.State, step: A.Step, s: Saga.State, e: nat)
    requires A.Inv(a) && A.Enabled(a, step) && Decides(a, step)
    requires Matches(a, s) && Saga.Sound(s)
    requires e < |s.log| && s.log[e].Created? && s.log[e].booking == a.txs[step.t].booking
    ensures Saga.Enabled(s, AssessFor(a, step, e)) && (A.Once(a, step) ==> Saga.Once(s, AssessFor(a, step, e)))
    ensures A.Next(a, step).rows == Saga.Next(s, AssessFor(a, step, e)).rows
  {
    var tx := a.txs[step.t];
    assert A.TxOk(a, tx) && CreatedAs(s, e, tx.booking, a.orders[tx.booking]);
    assert (e, tx.consumer) !in s.assessed;
    if Saga.Seen(s.assessed, e) {
      var k :| k in s.assessed && k.0 == e;
      assert (tx.booking, k.1) in a.processed;
    }
    assert Saga.RouteOf(s, s.log[e].routeId) == A.RouteOf(a, tx.booking);
    if tx.verdict.value {
      AllocatorProofs.ApprovalStillHolds(a, step.t);
    }
  }

  lemma AssessMatches(a: A.State, s: Saga.State, e: nat, consumer: Saga.ConsumerName, a': A.State, s': Saga.State)
    requires Matches(a, s) && Saga.LogOk(s) && e < |s.log| && s.log[e].Created?
    requires a'.rows == s'.rows && s'.grants.Keys == a'.used && a'.processed == a.processed + {(s.log[e].booking, consumer)}
    requires a'.segments == a.segments && a'.routes == a.routes && a'.orders == a.orders
    requires s.log <= s'.log && (forall d :: |s.log| <= d < |s'.log| ==> !s'.log[d].Created?)
    requires s'.assessed == s.assessed + {(e, consumer)}
    requires s'.capacities == s.capacities && s'.routes == s.routes && s'.bookings == s.bookings
    ensures Matches(a', s')
  {
    forall d | 0 <= d < |s'.log| && s'.log[d].Created?
      ensures s'.log[d].booking in a'.orders && CreatedAs(s', d, s'.log[d].booking, a'.orders[s'.log[d].booking])
      ensures forall c :: (d, c) in s'.assessed <==> (s'.log[d].booking, c) in a'.processed
    {
      assert s'.log[d] == s.log[d];
    }
  }

  /** Tables that differ in nothing but rows, and a log with further updates. */
  lemma SameTablesMatch(a: A.State, s: Saga.State, a': A.State, s': Saga.State)
    requires Matches(a, s) && a'.rows == s'.rows && a'.used == a.used && s'.grants == s.grants
    requires a'.segments == a.segments && a'.routes == a.routes && a'.orders == a.orders && a'.processed == a.processed
    requires s'.assessed == s.assessed && s'.capacities == s.capacities && s'.routes == s.routes
    requires s'.bookings.Keys == s.bookings.Keys
    requires s.log <= s'.log && forall d :: |s.log| <= d < |s'.log| ==> !s'.log[d].Created?
    ensures Matches(a', s')
  {
    forall d | 0 <= d < |s'.log| && s'.log[d].Created?
      ensures s'.log[d].booking in a'.orders && CreatedAs(s', d, s'.log[d].booking, a'.orders[s'.log[d].booking])
      ensures forall c :: (d, c) in s'.assessed <==> (s'.log[d].booking, c) in a'.processed
    {
      assert s'.log[d] == s.log[d];
    }
  }

  // ----- the releases in flight

  /** Release `r` of the allocator is thread `t` of the saga: the same snapshot, under a key not yet inserted. */
  ghost predicate Paired(a: A.State, s: Saga.State, r: nat, t: nat) {
    && r in a.releases && t < |s.threads| && s.threads[t].Releasing?
    && s.threads[t].doomed == a.releases[r].doomed
    && forall k :: k in s.released ==> k.1 != s.threads[t].consumer
  }

  /** Every release with a snapshot has a thread of its own name; one without needs none. */
  ghost predicate Pairing(a: A.State, s: Saga.State, th: map<nat, nat>) {
    && (forall r :: r in a.releases && a.releases[r].doomed != {} ==> r in th)
    && (forall r :: r in th ==> Paired(a, s, r, th[r]))
    && (forall r, r' :: r in th && r' in th && r != r' ==> s.threads[th[r]].consumer != s.threads[th[r']].consumer)
  }

  /** A releasing update of the booking is in the log. */
  ghost predicate HasRelease(s: Saga.State, b: BookingId) {
    exists e :: 0 <= e < |s.log| && s.log[e].Updated? && s.log[e].booking == b && Saga.Releases(s.log[e].status)
  }

  /** Bookings are pending, or a releasing update of them is in the log. */
  ghost predicate Cancellable(s: Saga.State) {
    forall b :: b in s.bookings ==> s.bookings[b].status == Pending || HasRelease(s, b)
  }

  ghost predicate Simulates(a: A.State, s: Saga.State, th: map<nat, nat>) {
    Matches(a, s) && Pairing(a, s, th) && Cancellable(s)
  }

  lemma CancellableStays(s: Saga.State, s': Saga.State)
    requires Cancellable(s) && s.log <= s'.log
    requires forall b :: b in s'.bookings ==>
      (b in s.bookings && s'.bookings[b] == s.bookings[b]) || s'.bookings[b].status == Pending || HasRelease(s', b)
    ensures Cancellable(s')
  {
    forall b | b in s'.bookings ensures s'.bookings[b].status == Pending || HasRelease(s', b) {
      if b in s.bookings && s'.bookings[b] == s.bookings[b] && HasRelease(s, b) {
        var e :| 0 <= e < |s.log| && s.log[e].Updated? && s.log[e].booking == b && Saga.Releases(s.log[e].status);
        assert s'.log[e] == s.log[e];
      }
    }
  }

  /** More threads and an unchanged set of release keys leave the pairing. */
  lemma PairingStays(a: A.State, s: Saga.State, a': A.State, s': Saga.State, th: map<nat, nat>)
    requires Pairing(a, s, th) && a'.releases == a.releases
    requires s.threads <= s'.threads && s'.released == s.released
    ensures Pairing(a', s', th)
  {
    forall r | r in th ensures Paired(a', s', r, th[r]) {
      assert Paired(a, s, r, th[r]);
    }
  }

  // ----- step by step

  /** Locking, counting, giving up and duplicate commits leave no trace. */
  lemma QuietStep(a: A.State, step: A.Step, s: Saga.State, th: map<nat, nat>)
    requires Simulates(a, s, th) && A.Enabled(a, step)
    requires step.Begin? || step.LockRow? || step.Check? || step.Abort? || (step.Commit? && !Decides(a, step))
    ensures Simulates(A.Next(a, step), s, th)
  {
    SameTablesMatch(a, s, A.Next(a, step), s);
    PairingStays(a, s, A.Next(a, step), s, th);
  }

  lemma CommitStep(a: A.State, step: A.Step, s: Saga.State, th: map<nat, nat>, e: nat) returns (s': Saga.State)
    requires A.Inv(a) && Saga.Sound(s) && Simulates(a, s, th) && A.Enabled(a, step) && Decides(a, step)
    requires e < |s.log| && s.log[e].Created? && s.log[e].booking == a.txs[step.t].booking
    ensures Saga.Leads(s, [AssessFor(a, step, e)], s') && Simulates(A.Next(a, step), s', th)
    ensures s'.log == s.log + [Assessed(a.txs[step.t].booking, a.txs[step.t].verdict.value)]
  {
    CommitIsAssess(a, step, s, e);
    s' := Saga.Next(s, AssessFor(a, step, e));
    OneLeads(s, AssessFor(a, step, e));
    PairingStays(a, s, A.Next(a, step), s', th);
    CancellableStays(s, s');
  }

  /** A route or segment arriving is a publication. */
  lemma CatalogueStep(a: A.State, step: A.Step, s: Saga.State, th: map<nat, nat>) returns (steps: seq<Saga.Step>, s': Saga.State)
    requires Simulates(a, s, th) && A.Enabled(a, step) && (step.MakeRoute? || step.LoadRoute?)
    ensures Saga.Leads(s, steps, s') && Simulates(A.Next(a, step), s', th) && s'.log == s.log
  {
    var a' := A.Next(a, step);
    CatalogueGrows(a, step);
    steps, s' := PublishAll(a, a', s);
    PairingStays(a, s, a', s', th);
    CancellableStays(s, s');
  }

  lemma CatalogueGrows(a: A.State, step: A.Step)
    requires A.Enabled(a, step) && (step.MakeRoute? || step.LoadRoute?)
    ensures
      var a' := A.Next(a, step);
      && a'.rows == a.rows && a'.used == a.used && a'.orders == a.orders && a'.processed == a.processed && a'.releases == a.releases
      && forall id :: id in a.routes ==> id in a'.routes && a'.routes[id] == a.routes[id]
  {
  }

  lemma PublishAll(a: A.State, a': A.State, s: Saga.State) returns (steps: seq<Saga.Step>, s': Saga.State)
    requires Matches(a, s)
    requires a'.rows == a.rows && a'.used == a.used && a'.orders == a.orders && a'.processed == a.processed
    requires forall id :: id in a.routes ==> id in a'.routes && a'.routes[id] == a.routes[id]
    ensures Saga.Leads(s, steps, s') && Matches(a', s')
    ensures s' == s.(capacities := s'.capacities, routes := s'.routes)
  {
    var publish := Saga.Publish(Capacities(a'.segments), map id | id in a'.routes :: a'.routes[id].route);
    s', steps := Saga.Next(s, publish), [publish];
    OneLeads(s, publish);
  }

  /** An order is a booking created. */
  lemma OrderStep(a: A.State, step: A.Step, s: Saga.State, th: map<nat, nat>) returns (steps: seq<Saga.Step>, s': Saga.State)
    requires Simulates(a, s, th) && Saga.Sound(s) && A.Enabled(a, step) && step.PlaceOrder?
    ensures Saga.Leads(s, steps, s') && Simulates(A.Next(a, step), s', th)
    ensures s'.log == s.log + [Created(step.booking, 0, step.order.routeId, step.order.departure)]
  {
    var create := Saga.Create(step.booking, 0, step.order.routeId, step.order.departure);
    s', steps := Saga.Next(s, create), [create];
    OneLeads(s, create);
    CreateMatches(a, step, s);
    PairingStays(a, s, A.Next(a, step), s', th);
    CancellableStays(s, s');
  }

  lemma CreateMatches(a: A.State, step: A.Step, s: Saga.State)
    requires Matches(a, s) && Saga.LogOk(s) && A.Enabled(a, step) && step.PlaceOrder?
    ensures Saga.Enabled(s, Saga.Create(step.booking, 0, step.order.routeId, step.order.departure))
    ensures Matches(A.Next(a, step), Saga.Next(s, Saga.Create(step.booking, 0, step.order.routeId, step.order.departure)))
  {
    var b, order := step.booking, step.order;
    var a', s' := A.Next(a, step), Saga.Next(s, Saga.Create(b, 0, order.routeId, order.departure));
    assert CreatedAs(s', |s.log|, b, order);
    assert forall c :: (|s.log|, c) !in s'.assessed && (b, c) !in a.processed;
    forall d | 0 <= d < |s'.log| && s'.log[d].Created?
      ensures s'.log[d].booking in a'.orders && CreatedAs(s', d, s'.log[d].booking, a'.orders[s'.log[d].booking])
      ensures forall c :: (d, c) in s'.assessed <==> (s'.log[d].booking, c) in a'.processed
    {
      if d < |s.log| {
        assert s'.log[d] == s.log[d];
      }
    }
  }

  /** A releasing update of the booking, cancelling it first if there is none yet. */
  lemma FindRelease(a: A.State, s: Saga.State, th: map<nat, nat>, b: BookingId)
      returns (steps: seq<Saga.Step>, s': Saga.State, e: nat)
    requires Simulates(a, s, th) && b in s.bookings
    ensures Saga.Leads(s, steps, s') && Simulates(a, s', th)
    ensures e < |s'.log| && s'.log[e].Updated? && s'.log[e].booking == b && Saga.Releases(s'.log[e].status)
    ensures s'.rows == s.rows && s.threads <= s'.threads && Verdicts(s'.log) == Verdicts(s.log)
  {
    if HasRelease(s, b) {
      steps, s' := [], s;
      e :| 0 <= e < |s.log| && s.log[e].Updated? && s.log[e].booking == b && Saga.Releases(s.log[e].status);
    } else {
      steps, s' := CancelIsSagaSteps(s, b);
      e := |s.log|;
      VerdictAppend(s.log, Updated(b, s.bookings[b].driver, Cancelled));
      CancelledMatches(a, s, th, b, s');
    }
  }

  lemma CancelledMatches(a: A.State, s: Saga.State, th: map<nat, nat>, b: BookingId, s': Saga.State)
    requires Simulates(a, s, th) && b in s.bookings
    requires s' == s.(
      bookings := s.bookings[b := s.bookings[b].(status := Cancelled)],
      log := s.log + [Updated(b, s.bookings[b].driver, Cancelled)],
      threads := s.threads + [Saga.Finished])
    ensures Simulates(a, s', th)
  {
    assert s'.log[|s.log|] == Updated(b, s.bookings[b].driver, Cancelled);
    assert HasRelease(s', b);
    assert s'.bookings.Keys == s.bookings.Keys;
    SameTablesMatch(a, s, a, s');
    PairingStays(a, s, a, s', th);
    CancellableStays(s, s');
  }

  /** A DELETE without rows needs nothing of the saga; any other starts a release, under a name of its own. */
  lemma DeleteStep(a: A.State, step: A.Step, s: Saga.State, th: map<nat, nat>)
      returns (steps: seq<Saga.Step>, s': Saga.State, th': map<nat, nat>)
    requires Saga.Sound(s) && Simulates(a, s, th) && A.Enabled(a, step) && step.Delete?
    ensures Saga.Leads(s, steps, s') && Simulates(A.Next(a, step), s', th') && Verdicts(s'.log) == Verdicts(s.log)
  {
    if IdsOf(a.rows, step.booking) == {} {
      steps, s', th' := [], s, th;
      SameTablesMatch(a, s, A.Next(a, step), s);
      UnpairedDelete(a, step, s, th);
    } else {
      var r :| r in s.rows && r.window.booking == step.booking;
      assert Saga.Granted(s, step.booking, s.grants[r.id]) && Saga.WasAssessed(s, step.booking);
      var before, ready, e := FindRelease(a, s, th, step.booking);
      var c := NewName(ready, th);
      var start := Saga.StartRelease(e, c);
      s', th' := Saga.Next(ready, start), th[step.r := |ready.threads|];
      LeadsOneMore(s, before, ready, start);
      steps := before + [start];
      SameTablesMatch(a, ready, A.Next(a, step), s');
      PairedDelete(a, step, ready, th, start);
      CancellableStays(ready, s');
    }
  }

  lemma UnpairedDelete(a: A.State, step: A.Step, s: Saga.State, th: map<nat, nat>)
    requires Pairing(a, s, th) && A.Enabled(a, step) && step.Delete? && IdsOf(a.rows, step.booking) == {}
    ensures Pairing(A.Next(a, step), s, th)
  {
    forall r | r in th ensures Paired(A.Next(a, step), s, r, th[r]) {
      assert Paired(a, s, r, th[r]);
    }
  }

  lemma PairedDelete(a: A.State, step: A.Step, s: Saga.State, th: map<nat, nat>, start: Saga.Step)
    requires Pairing(a, s, th) && A.Enabled(a, step) && step.Delete? && s.rows == a.rows
    requires start.StartRelease? && Saga.Enabled(s, start) && s.log[start.event].booking == step.booking
    requires IsNewName(s, th, start.consumer)
    ensures Pairing(A.Next(a, step), Saga.Next(s, start), th[step.r := |s.threads|])
  {
    var a', s', th' := A.Next(a, step), Saga.Next(s, start), th[step.r := |s.threads|];
    forall r | r in th' ensures Paired(a', s', r, th'[r]) {
      if r != step.r {
        assert Paired(a, s, r, th[r]);
      }
    }
    forall r | r in th && r != step.r ensures s'.threads[th'[r]].consumer != start.consumer {
      assert Paired(a, s, r, th[r]);
    }
  }

  /** No key and no paired thread carries the name. */
  ghost predicate IsNewName(s: Saga.State, th: map<nat, nat>, c: Saga.ConsumerName) {
    && (forall k :: k in s.released ==> k.1 != c)
    && (forall r :: r in th && th[r] < |s.threads| && s.threads[th[r]].Releasing? ==> s.threads[th[r]].consumer != c)
  }

  lemma NewName(s: Saga.State, th: map<nat, nat>) returns (c: Saga.ConsumerName)
    ensures IsNewName(s, th, c)
  {
    var pending := set r | r in th && th[r] < |s.threads| && s.threads[th[r]].Releasing? :: (th[r], s.threads[th[r]].consumer);
    c := UnusedName(s.released + pending, 0);
    forall r | r in th && th[r] < |s.threads| && s.threads[th[r]].Releasing? ensures s.threads[th[r]].consumer != c {
      assert (th[r], s.threads[th[r]].consumer) in s.released + pending;
    }
    forall k | k in s.released ensures k.1 != c {
      assert k in s.released + pending;
    }
  }

  /** A release's commit removes the same rows in both; giving it up changes nothing. */
  lemma ReleaseStep(a: A.State, step: A.Step, s: Saga.State, th: map<nat, nat>)
      returns (steps: seq<Saga.Step>, s': Saga.State, th': map<nat, nat>)
    requires Simulates(a, s, th) && A.Enabled(a, step) && (step.CommitRelease? || step.AbortRelease?)
    ensures Saga.Leads(s, steps, s') && Simulates(A.Next(a, step), s', th') && s'.log == s.log
  {
    th' := th - {step.r};
    if step.CommitRelease? && a.releases[step.r].doomed != {} {
      assert Paired(a, s, step.r, th[step.r]);
      var commit := Saga.CommitRelease(th[step.r]);
      s', steps := Saga.Next(s, commit), [commit];
      OneLeads(s, commit);
      SameTablesMatch(a, s, A.Next(a, step), s');
      PairingLoses(a, step, s, th, s');
      CancellableStays(s, s');
    } else {
      s', steps := s, [];
      LeftNothing(a.rows);
      SameTablesMatch(a, s, A.Next(a, step), s);
      PairingLoses(a, step, s, th, s);
    }
  }

  lemma PairingLoses(a: A.State, step: A.Step, s: Saga.State, th: map<nat, nat>, s': Saga.State)
    requires Pairing(a, s, th) && A.Enabled(a, step) && (step.CommitRelease? || step.AbortRelease?)
    requires s' == s || (step.r in th && s'.threads == s.threads[th[step.r] := Saga.Finished]
                         && forall k :: k in s'.released ==> k in s.released || k.1 == s.threads[th[step.r]].consumer)
    ensures Pairing(A.Next(a, step), s', th - {step.r})
  {
    forall r | r in th && r != step.r ensures Paired(A.Next(a, step), s', r, th[r]) {
      assert Paired(a, s, r, th[r]);
      assert step.r in th ==> Paired(a, s, step.r, th[step.r]);
    }
  }

  // ----- whole runs

  /** The verdicts committed in the first `n` steps, in order. */
  function Committed(states: seq<A.State>, steps: seq<A.Step>, n: nat): seq<Event>
    requires n <= |steps| <= |states|
  {
    if n == 0 then []
    else
      var a, step := states[n - 1], steps[n - 1];
      Committed(states, steps, n - 1) +
      if Decides(a, step) then [Assessed(a.txs[step.t].booking, a.txs[step.t].verdict.value)] else []
  }

  /** One step of the allocator, as a stretch of the saga; `e` is the creation a commit assesses. */
  lemma SimulateStep(a: A.State, step: A.Step, s: Saga.State, th: map<nat, nat>, e: nat)
      returns (steps: seq<Saga.Step>, s': Saga.State, th': map<nat, nat>)
    requires A.Inv(a) && Saga.Sound(s) && Simulates(a, s, th) && A.Enabled(a, step)
    requires Decides(a, step) ==> e < |s.log| && s.log[e].Created? && s.log[e].booking == a.txs[step.t].booking
    ensures Saga.Leads(s, steps, s') && Simulates(A.Next(a, step), s', th')
    ensures Verdicts(s'.log) ==
      Verdicts(s.log) + if Decides(a, step) then [Assessed(a.txs[step.t].booking, a.txs[step.t].verdict.value)] else []
  {
    th' := th;
    if Decides(a, step) {
      s' := CommitStep(a, step, s, th, e);
      steps := [AssessFor(a, step, e)];
      VerdictAppend(s.log, Assessed(a.txs[step.t].booking, a.txs[step.t].verdict.value));
    } else if step.MakeRoute? || step.LoadRoute? {
      steps, s' := CatalogueStep(a, step, s, th);
    } else if step.PlaceOrder? {
      steps, s' := OrderStep(a, step, s, th);
      VerdictAppend(s.log, Created(step.booking, 0, step.order.routeId, step.order.departure));
    } else if step.Delete? {
      steps, s', th' := DeleteStep(a, step, s, th);
    } else if step.CommitRelease? || step.AbortRelease? {
      steps, s', th' := ReleaseStep(a, step, s, th);
    } else {
      steps, s' := [], s;
      QuietStep(a, step, s, th);
    }
  }

  /** The creation a commit assesses is in the saga's log. */
  lemma CreationFor(a: A.State, step: A.Step, ss: seq<Saga.State>, st: seq<Saga.Step>) returns (e: nat)
    requires A.Inv(a) && A.Enabled(a, step) && Saga.IsRun(ss, st) && Matches(a, Last(ss))
    ensures Decides(a, step) ==>
      e < |Last(ss).log| && Last(ss).log[e].Created? && Last(ss).log[e].booking == a.txs[step.t].booking
  {
    e := 0;
    if Decides(a, step) {
      var b := a.txs[step.t].booking;
      assert A.TxOk(a, a.txs[step.t]);
      RunKeepsLogged(ss, st, |ss| - 1, b);
      e :| 0 <= e < |Last(ss).log| && Last(ss).log[e].Created? && Last(ss).log[e].booking == b;
    }
  }

  lemma Start(a: A.State) returns (s: Saga.State)
    requires A.Init(a)
    ensures Saga.IsRun([s], []) && Simulates(a, s, map[]) && s.log == []
  {
    s := Saga.State(map[], [], [], Capacities(a.segments), map[], {}, {}, {}, [], [], 0, [], {}, map[]);
  }

  /**
   * Every run of the interleaved allocator is matched by a run of the saga: after any number of steps the committed
   * rows are the same, and so are the verdicts, in the order they were committed.
   */
  lemma {:induction false} EveryRunIsASagaRun(states: seq<A.State>, steps: seq<A.Step>, n: nat)
      returns (ss: seq<Saga.State>, st: seq<Saga.Step>, th: map<nat, nat>)
    requires A.IsRun(states, steps) && n < |states|
    ensures Saga.IsRun(ss, st) && Simulates(states[n], Last(ss), th)
    ensures Last(ss).rows == states[n].rows
    ensures Verdicts(Last(ss).log) == Committed(states, steps, n)
  {
    if n == 0 {
      var s := Start(states[0]);
      ss, st, th := [s], [], map[];
    } else {
      ss, st, th := EveryRunIsASagaRun(states, steps, n - 1);
      AllocatorProofs.RunKeepsInv(states, steps, n - 1);
      assert A.Takes(states, steps, n - 1);
      RunKeepsSound(ss, st, |ss| - 1);
      var e := CreationFor(states[n - 1], steps[n - 1], ss, st);
      var more, s', th' := SimulateStep(states[n - 1], steps[n - 1], Last(ss), th, e);
      ss, st := ExtendAll(ss, st, more, s');
      th := th';
    }
  }
}
