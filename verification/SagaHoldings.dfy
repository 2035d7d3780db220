/** The converse of the no-orphan property: what a granted booking holds, and until when. */
module SagaHoldings {
  import opened Domain
  import opened Reservations
  import opened Assessment
  import opened Bookings
  import opened Saga
  import opened SagaProofs

  /** Some CANCELLED or EXPIRED update of `b` has been applied by conflict detection. */
  ghost predicate ReleaseApplied(s: State, b: BookingId) {
    exists c: nat :: Seen(s.released, c) && c < |s.log| && s.log[c].Updated? && s.log[c].booking == b && Releases(s.log[c].status)
  }

  /** The windows of a booking's route, from its departure to the second. */
  function WindowsOf(s: State, b: BookingId): seq<Reservation>
    requires b in s.bookings && s.bookings[b].routeId in s.routes
  {
    Windows(b, WholeSeconds(s.bookings[b].departure), s.routes[s.bookings[b].routeId])
  }

  /** A granted booking holds its whole route until a release of it is applied. */
  ghost predicate HoldsGrant(s: State, b: BookingId) {
    forall f: nat :: Granted(s, b, f) && !ReleaseApplied(s, b) ==>
      && b in s.bookings && s.bookings[b].routeId in s.routes
      && RowsOf(Table(s), b) == WindowsOf(s, b)
  }

  /** Steps that keep rows, grants and releases keep what is held. */
  lemma HoldingCarries(s: State, s': State, b: BookingId)
    requires Sound(s) && HoldsGrant(s, b)
    requires s.log <= s'.log && s.released <= s'.released && RowsOf(Table(s'), b) == RowsOf(Table(s), b)
    requires forall f: nat :: Granted(s', b, f) ==> f < |s.log|
    requires forall id :: id in s.routes ==> id in s'.routes && s'.routes[id] == s.routes[id]
    requires b in s.bookings ==>
      && b in s'.bookings
      && s'.bookings[b].routeId == s.bookings[b].routeId && s'.bookings[b].departure == s.bookings[b].departure
    ensures HoldsGrant(s', b)
  {
    forall f: nat | Granted(s', b, f) && !ReleaseApplied(s', b)
      ensures b in s'.bookings && s'.bookings[b].routeId in s'.routes && RowsOf(Table(s'), b) == WindowsOf(s', b)
    {
      assert Granted(s, b, f);
      ReleaseStays(s, s', b);
    }
  }

  lemma ReleaseStays(s: State, s': State, b: BookingId)
    requires s.log <= s'.log && s.released <= s'.released
    ensures ReleaseApplied(s, b) ==> ReleaseApplied(s', b)
  {
    if ReleaseApplied(s, b) {
      var c: nat :| Seen(s.released, c) && c < |s.log| && s.log[c].Updated? && s.log[c].booking == b && Releases(s.log[c].status);
      assert s'.log[c] == s.log[c];
    }
  }

  lemma AssessHolds(s: State, step: Step, b: BookingId)
    requires Sound(s) && HoldsGrant(s, b) && Enabled(s, step) && step.Assess? && Once(s, step)
    ensures HoldsGrant(Next(s, step), b)
  {
    var s', order := Next(s, step), s.log[step.event];
    var added := Added(s, step);
    AssessedRows(s, step);
    RowsOfAppend(Table(s), order.booking, added, b);
    if b != order.booking {
      HoldingCarries(s, s', b);
    } else {
      UnassessedHoldsNothing(s, step.event);
      assert [] + added == added;
      forall f: nat | Granted(s', b, f) && !ReleaseApplied(s', b)
        ensures s'.bookings[b].routeId in s'.routes && RowsOf(Table(s'), b) == WindowsOf(s', b)
      {
        if f < |s.log| {
          FirstAssessment(s, step.event, f);
        }
        assert f == |s.log| && step.verdict;
      }
    }
  }

  lemma ReleaseHolds(s: State, step: Step, b: BookingId)
    requires Sound(s) && HoldsGrant(s, b) && Enabled(s, step) && step.CommitRelease?
    ensures HoldsGrant(Next(s, step), b)
  {
    var s' := Next(s, step);
    var Releasing(e, c, doomed) := s.threads[step.thread];
    assert ThreadOk(s, s.threads[step.thread]);
    if (e, c) in s.released || b != s.log[e].booking {
      if (e, c) !in s.released {
        LeftAllOrNone(s.rows, doomed, b);
      }
      assert forall f: nat :: Granted(s', b, f) ==> Granted(s, b, f);
      HoldingCarries(s, s', b);
    } else {
      assert (e, c) in s'.released && Seen(s'.released, e);
      assert ReleaseApplied(s', b);
    }
  }

  lemma StepHolds(s: State, step: Step, b: BookingId)
    requires Sound(s) && HoldsGrant(s, b) && Enabled(s, step) && Once(s, step)
    ensures HoldsGrant(Next(s, step), b)
  {
    if step.Assess? {
      AssessHolds(s, step, b);
    } else if step.CommitRelease? {
      ReleaseHolds(s, step, b);
    } else {
      var s' := Next(s, step);
      assert s'.rows == s.rows;
      forall f: nat | Granted(s', b, f) ensures f < |s.log| {
        LogAdds(s, step);
      }
      BookingKeeps(s, step, b);
      HoldingCarries(s, s', b);
    }
  }

  /** Only an assessment logs an assessment. */
  lemma LogAdds(s: State, step: Step)
    requires Enabled(s, step) && !step.Assess?
    ensures s.log <= Next(s, step).log
    ensures forall i :: |s.log| <= i < |Next(s, step).log| ==> !Next(s, step).log[i].Assessed?
  {
  }

  /** No step changes a booking's route or departure, or a route. */
  lemma BookingKeeps(s: State, step: Step, b: BookingId)
    requires Enabled(s, step)
    ensures s.log <= Next(s, step).log && s.released <= Next(s, step).released
    ensures b in s.bookings ==>
      && b in Next(s, step).bookings
      && Next(s, step).bookings[b].routeId == s.bookings[b].routeId
      && Next(s, step).bookings[b].departure == s.bookings[b].departure
    ensures forall id :: id in s.routes ==> id in Next(s, step).routes && Next(s, step).routes[id] == s.routes[id]
  {
  }

  lemma {:induction false} RunHolds(states: seq<State>, steps: seq<Step>, n: nat, b: BookingId)
    requires IsRun(states, steps) && n < |states|
    requires forall i :: 0 <= i < n ==> Once(states[i], steps[i])
    ensures HoldsGrant(states[n], b)
  {
    if n > 0 {
      RunHolds(states, steps, n - 1, b);
      RunKeepsSound(states, steps, n - 1);
      assert Takes(states, steps, n - 1);
      StepHolds(states[n - 1], steps[n - 1], b);
    }
  }

  /**
   * In every state of every run that assesses no creation twice, a booking granted its route holds exactly one window
   * per segment of it, unless a CANCELLED or EXPIRED update of it has been applied.
   */
  lemma GrantHeldUntilReleased(states: seq<State>, steps: seq<Step>, n: nat, b: BookingId, f: nat)
    requires IsRun(states, steps) && n < |states|
    requires forall i :: 0 <= i < n ==> Once(states[i], steps[i])
    requires Granted(states[n], b, f) && !ReleaseApplied(states[n], b)
    ensures b in states[n].bookings && states[n].bookings[b].routeId in states[n].routes
    ensures RowsOf(Table(states[n]), b) ==
      Windows(b, WholeSeconds(states[n].bookings[b].departure), states[n].routes[states[n].bookings[b].routeId])
  {
    RunHolds(states, steps, n, b);
  }
}
