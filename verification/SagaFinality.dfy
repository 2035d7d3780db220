/** Exactly when a terminal booking status stays for the rest of every run. */
module SagaFinality {
  import opened Domain
  import opened Assessment
  import opened Bookings
  import opened Saga
  import opened SagaProofs

  predicate Terminal(status: Status) {
    status == Rejected || status == Cancelled || status == Expired
  }

  /** `steps` lead from `s` to `s'` and assess no creation a second time. */
  ghost predicate Continues(s: State, steps: seq<Step>, s': State)
    decreases steps
  {
    if steps == [] then s' == s
    else Enabled(s, steps[0]) && Once(s, steps[0]) && Continues(Next(s, steps[0]), steps[1..], s')
  }

  /** The status of `b` is the same in every continuation. */
  ghost predicate Final(s: State, b: BookingId)
    requires b in s.bookings
  {
    forall steps, s' {:trigger Continues(s, steps, s')} :: Continues(s, steps, s') ==>
      b in s'.bookings && s'.bookings[b].status == s.bookings[b].status
  }

  /** The code path will not write any other status to `b` than `status`. */
  predicate WritesNoOther(s: State, thread: Thread, b: BookingId, status: Status) {
    match thread
    case Handling(e, written) =>
      !written && e < |s.log| && s.log[e].Assessed? && s.log[e].booking == b ==> Verdict(s.log[e].available) == status
    case Cancelling(c) => c == b ==> status == Cancelled
    case Expiring(queue) => b in queue ==> status == Expired
    case _ => true
  }

  /**
   * Nothing is left that could write another status: the booking's creation has been assessed, its assessment is marked
   * or agrees with the status, and so does every code path in flight.
   */
  ghost predicate Frozen(s: State, b: BookingId)
    requires b in s.bookings
  {
    var status := s.bookings[b].status;
    && (forall e :: 0 <= e < |s.log| && s.log[e].Created? && s.log[e].booking == b ==> Seen(s.assessed, e))
    && (forall f :: 0 <= f < |s.log| && s.log[f].Assessed? && s.log[f].booking == b ==>
          f in s.marked || Verdict(s.log[f].available) == status)
    && (forall t :: 0 <= t < |s.threads| ==> WritesNoOther(s, s.threads[t], b, status))
  }

  // ----- frozen is final

  lemma FrozenStays(s: State, step: Step, b: BookingId)
    requires Sound(s) && Enabled(s, step) && Once(s, step)
    requires b in s.bookings && Terminal(s.bookings[b].status) && Frozen(s, b)
    ensures
      var s' := Next(s, step);
      b in s'.bookings && s'.bookings[b].status == s.bookings[b].status && Frozen(s', b)
  {
    var s', status := Next(s, step), s.bookings[b].status;
    StatusStays(s, step, b);
    StepExtends(s, step);
    LogsOne(s, step);
    forall e | 0 <= e < |s'.log| && s'.log[e].Created? && s'.log[e].booking == b ensures Seen(s'.assessed, e) {
      SeenStays(s.assessed, s'.assessed, e);
    }
    forall t | 0 <= t < |s'.threads| ensures WritesNoOther(s', s'.threads[t], b, status) {
      ThreadStays(s, step, b, t);
    }
  }

  lemma StatusStays(s: State, step: Step, b: BookingId)
    requires Sound(s) && Enabled(s, step)
    requires b in s.bookings && Terminal(s.bookings[b].status) && Frozen(s, b)
    ensures b in Next(s, step).bookings && Next(s, step).bookings[b].status == s.bookings[b].status
  {
    if Write(s, step).Some? {
      WriteEffect(s, step);
      assert WritesNoOther(s, s.threads[step.thread], b, s.bookings[b].status);
    }
  }

  lemma ThreadStays(s: State, step: Step, b: BookingId, t: nat)
    requires Sound(s) && Enabled(s, step) && t < |Next(s, step).threads|
    requires b in s.bookings && Terminal(s.bookings[b].status) && Frozen(s, b)
    ensures WritesNoOther(Next(s, step), Next(s, step).threads[t], b, s.bookings[b].status)
  {
    if t >= |s.threads| {
      NewThreadWritesNoOther(s, step, b, t);
    } else if Next(s, step).threads[t] == s.threads[t] {
      OldThreadWritesNoOther(s, step, b, t);
    } else {
      RunThreadWritesNoOther(s, step, b, t);
    }
  }

  /** A code path left alone has the same in mind. */
  lemma OldThreadWritesNoOther(s: State, step: Step, b: BookingId, t: nat)
    requires Sound(s) && Enabled(s, step) && t < |s.threads| && Next(s, step).threads[t] == s.threads[t]
    requires b in s.bookings && Frozen(s, b)
    ensures WritesNoOther(Next(s, step), s.threads[t], b, s.bookings[b].status)
  {
    LogOnlyAppends(s, step);
    assert ThreadOk(s, s.threads[t]) && WritesNoOther(s, s.threads[t], b, s.bookings[b].status);
  }

  /** A code path that moves on has less in mind. */
  lemma RunThreadWritesNoOther(s: State, step: Step, b: BookingId, t: nat)
    requires Sound(s) && Enabled(s, step) && t < |s.threads| && Next(s, step).threads[t] != s.threads[t]
    requires b in s.bookings && Frozen(s, b)
    ensures WritesNoOther(Next(s, step), Next(s, step).threads[t], b, s.bookings[b].status)
  {
    assert WritesNoOther(s, s.threads[t], b, s.bookings[b].status);
  }

  /** No new code path takes up a booking in a terminal state with another status in mind. */
  lemma NewThreadWritesNoOther(s: State, step: Step, b: BookingId, t: nat)
    requires Enabled(s, step) && |s.threads| <= t < |Next(s, step).threads|
    requires b in s.bookings && Terminal(s.bookings[b].status) && Frozen(s, b)
    ensures WritesNoOther(Next(s, step), Next(s, step).threads[t], b, s.bookings[b].status)
  {
    if step.ScanExpired? {
      assert b in step.queue ==> b in Elements(step.queue);
    }
  }

  lemma {:induction false} FrozenIsFinal(s: State, steps: seq<Step>, s': State, b: BookingId)
    requires Sound(s) && b in s.bookings && Terminal(s.bookings[b].status) && Frozen(s, b)
    requires Continues(s, steps, s')
    ensures b in s'.bookings && s'.bookings[b].status == s.bookings[b].status
    decreases steps
  {
    if steps != [] {
      FrozenStays(s, steps[0], b);
      StepKeepsSound(s, steps[0]);
      FrozenIsFinal(Next(s, steps[0]), steps[1..], s', b);
    }
  }

  // ----- final is frozen

  /** A negative status has a negative assessment behind it. */
  ghost predicate RejectedOk(s: State) {
    forall b :: b in s.bookings && s.bookings[b].status == Rejected ==>
      exists f :: 0 <= f < |s.log| && s.log[f] == Assessed(b, false)
  }

  lemma StepKeepsRejected(s: State, step: Step)
    requires RejectedOk(s) && Enabled(s, step)
    ensures RejectedOk(Next(s, step))
  {
    var s' := Next(s, step);
    LogOnlyAppends(s, step);
    forall b | b in s'.bookings && s'.bookings[b].status == Rejected
      ensures exists f :: 0 <= f < |s'.log| && s'.log[f] == Assessed(b, false)
    {
      if b in s.bookings && s.bookings[b].status == Rejected {
        var f :| 0 <= f < |s.log| && s.log[f] == Assessed(b, false);
        assert s'.log[f] == s.log[f];
      } else {
        assert step.WriteStatus?;
        var e := s.threads[step.thread].event;
        assert s'.log[e] == s.log[e] == Assessed(b, false);
      }
    }
  }

  lemma {:induction false} RunKeepsRejected(states: seq<State>, steps: seq<Step>, n: nat)
    requires IsRun(states, steps) && n < |states|
    ensures RejectedOk(states[n])
  {
    if n > 0 {
      RunKeepsRejected(states, steps, n - 1);
      assert Takes(states, steps, n - 1);
      StepKeepsRejected(states[n - 1], steps[n - 1]);
    }
  }

  /** Some steps, as long as `once` allows only first assessments of creations, change the status of `b`. */
  ghost predicate CanChange(s: State, b: BookingId, once: bool)
    requires b in s.bookings
  {
    exists steps, s' {:trigger Leads(s, steps, s')} ::
      Leads(s, steps, s') && (once ==> Continues(s, steps, s')) && b in s'.bookings && s'.bookings[b].status != s.bookings[b].status
  }

  /** A first step that leaves the status alone may come before the change. */
  lemma ChangeLater(s: State, step: Step, b: BookingId, once: bool)
    requires Enabled(s, step) && (once ==> Once(s, step)) && b in s.bookings
    requires b in Next(s, step).bookings && Next(s, step).bookings[b].status == s.bookings[b].status
    requires CanChange(Next(s, step), b, once)
    ensures CanChange(s, b, once)
  {
    var next := Next(s, step);
    var rest, s' :| Leads(next, rest, s') && (once ==> Continues(next, rest, s'))
                    && b in s'.bookings && s'.bookings[b].status != s.bookings[b].status;
    var steps := [step] + rest;
    assert steps[0] == step && steps[1..] == rest;
    assert Leads(s, steps, s');
  }

  lemma ChangeNow(s: State, step: Step, b: BookingId, once: bool)
    requires Enabled(s, step) && (once ==> Once(s, step)) && b in s.bookings
    requires b in Next(s, step).bookings && Next(s, step).bookings[b].status != s.bookings[b].status
    ensures CanChange(s, b, once)
  {
    var steps := [step];
    assert steps[1..] == [] && Leads(Next(s, step), [], Next(s, step)) && Continues(Next(s, step), [], Next(s, step));
    assert Leads(s, steps, Next(s, step));
  }

  /** An assessment that is not marked can be handled, again if need be, and its verdict written. */
  lemma AssessmentCanWrite(s: State, f: nat, b: BookingId, once: bool)
    requires f < |s.log| && s.log[f].Assessed? && s.log[f].booking == b && f !in s.marked
    requires b in s.bookings && Verdict(s.log[f].available) != s.bookings[b].status
    ensures CanChange(s, b, once)
  {
    var started := Next(s, StartHandling(f));
    ChangeNow(started, WriteStatus(|s.threads|), b, once);
    ChangeLater(s, StartHandling(f), b, once);
  }

  /** The step in which a consumer assesses creation `e`, with the verdict the code would give. */
  ghost function Assessing(s: State, e: nat, c: ConsumerName, id: nat): Step
    requires e < |s.log| && s.log[e].Created?
  {
    Assess(e, c, Approves(Table(s), s.capacities, s.log[e].departure, RouteOf(s, s.log[e].routeId)), id)
  }

  /** A creation a consumer has not assessed can be assessed, and the verdict, whichever it is, overwrites CANCELLED or EXPIRED. */
  lemma CreationCanWrite(s: State, e: nat, c: ConsumerName, b: BookingId, once: bool)
    requires Sound(s) && e < |s.log| && s.log[e].Created? && s.log[e].booking == b
    requires (e, c) !in s.assessed && (once ==> !Seen(s.assessed, e))
    requires b in s.bookings && (s.bookings[b].status == Cancelled || s.bookings[b].status == Expired)
    ensures CanChange(s, b, once)
  {
    FreshIdExists(s.grants.Keys);
    var id: nat :| id !in s.grants.Keys;
    var assess := Assessing(s, e, c, id);
    AssessmentCanWrite(Next(s, assess), |s.log|, b, once);
    ChangeLater(s, assess, b, once);
  }

  /** An expiry pass gets to every booking of its queue. */
  lemma {:induction false} ExpiryCanWrite(s: State, t: nat, b: BookingId, once: bool)
    requires t < |s.threads| && s.threads[t].Expiring? && b in s.threads[t].queue
    requires b in s.bookings && s.bookings[b].status != Expired
    ensures CanChange(s, b, once)
    decreases if t < |s.threads| && s.threads[t].Expiring? then |s.threads[t].queue| else 0
  {
    var queue := s.threads[t].queue;
    if queue[0] == b {
      ChangeNow(s, WriteExpired(t), b, once);
    } else {
      assert queue == [queue[0]] + queue[1..];
      ExpiryCanWrite(Next(s, SkipExpired(t)), t, b, once);
      ChangeLater(s, SkipExpired(t), b, once);
    }
  }

  lemma ThreadCanWrite(s: State, t: nat, b: BookingId)
    requires b in s.bookings && t < |s.threads| && !WritesNoOther(s, s.threads[t], b, s.bookings[b].status)
    ensures CanChange(s, b, true)
  {
    match s.threads[t] {
      case Handling(e, _) => ChangeNow(s, WriteStatus(t), b, true);
      case Cancelling(_) => ChangeNow(s, WriteCancel(t), b, true);
      case Expiring(_) => ExpiryCanWrite(s, t, b, true);
    }
  }

  lemma UnfrozenCanChange(s: State, b: BookingId)
    requires Sound(s) && RejectedOk(s) && b in s.bookings && Terminal(s.bookings[b].status) && !Frozen(s, b)
    ensures CanChange(s, b, true)
  {
    if t :| 0 <= t < |s.threads| && !WritesNoOther(s, s.threads[t], b, s.bookings[b].status) {
      ThreadCanWrite(s, t, b);
    } else if f :| 0 <= f < |s.log| && s.log[f].Assessed? && s.log[f].booking == b && f !in s.marked
                   && Verdict(s.log[f].available) != s.bookings[b].status {
      AssessmentCanWrite(s, f, b, true);
    } else {
      var e :| 0 <= e < |s.log| && s.log[e].Created? && s.log[e].booking == b && !Seen(s.assessed, e);
      if s.bookings[b].status == Rejected {
        RejectedWasAssessed(s, e, b);
      } else {
        UnseenKey(s.assessed, e, "anyone");
        CreationCanWrite(s, e, "anyone", b, true);
      }
    }
  }

  lemma UnseenKey(keys: set<Key>, e: nat, c: ConsumerName)
    requires !Seen(keys, e)
    ensures (e, c) !in keys
  {
  }

  lemma RejectedWasAssessed(s: State, e: nat, b: BookingId)
    requires LogOk(s) && RejectedOk(s) && b in s.bookings && s.bookings[b].status == Rejected
    requires e < |s.log| && s.log[e].Created? && s.log[e].booking == b
    ensures Seen(s.assessed, e)
  {
    var f :| 0 <= f < |s.log| && s.log[f] == Assessed(b, false);
    var d :| 0 <= d < |s.log| && s.log[d].Created? && s.log[d].booking == b && Seen(s.assessed, d);
    assert d == e;
  }

  /**
   * Terminal states are final exactly when nothing is left to overwrite them, as long as no creation is assessed a
   * second time from then on: in every reachable state, a terminal status survives every such continuation if and
   * only if the booking is frozen.
   */
  lemma FinalExactlyWhenFrozen(states: seq<State>, steps: seq<Step>, n: nat, b: BookingId)
    requires IsRun(states, steps) && n < |states|
    requires b in states[n].bookings && Terminal(states[n].bookings[b].status)
    ensures Final(states[n], b) <==> Frozen(states[n], b)
  {
    var s := states[n];
    RunKeepsSound(states, steps, n);
    RunKeepsRejected(states, steps, n);
    if Frozen(s, b) {
      forall steps', s' | Continues(s, steps', s') ensures b in s'.bookings && s'.bookings[b].status == s.bookings[b].status {
        FrozenIsFinal(s, steps', s', b);
      }
    } else {
      UnfrozenCanChange(s, b);
    }
  }

  // ----- with further consumer names nothing is final

  /**
   * A creation delivered again to a consumer under a further name is assessed again, and whatever the verdict, it
   * overwrites the status: in every reachable state, no CANCELLED or EXPIRED status is final, frozen or not.
   */
  lemma FurtherNameOverwrites(states: seq<State>, steps: seq<Step>, n: nat, b: BookingId)
    requires IsRun(states, steps) && n < |states|
    requires b in states[n].bookings && (states[n].bookings[b].status == Cancelled || states[n].bookings[b].status == Expired)
    ensures CanChange(states[n], b, false)
  {
    var s := states[n];
    RunKeepsSound(states, steps, n);
    RunKeepsLogged(states, steps, n, b);
    var e :| 0 <= e < |s.log| && s.log[e].Created? && s.log[e].booking == b;
    var c := UnusedName(s.assessed, e);
    CreationCanWrite(s, e, c, b, false);
  }
}
