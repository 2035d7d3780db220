/** What every step of the saga keeps: soundness always, the no-orphan invariant while assessments agree. */
module SagaProofs {
  import opened Domain
  import opened Reservations
  import opened Assessment
  import opened Bookings
  import opened Saga

  // ----- how a step changes the tables

  /** The tables only gained: events, keys, bookings, and rows under new ids of new assessments. */
  ghost predicate Extends(s: State, s': State) {
    && s.log <= s'.log
    && s.assessed <= s'.assessed && s.released <= s'.released && s.applied <= s'.applied && s.marked <= s'.marked
    && (forall b :: b in s.bookings ==>
          && b in s'.bookings
          && s'.bookings[b].routeId == s.bookings[b].routeId && s'.bookings[b].departure == s.bookings[b].departure)
    && (forall id :: id in s.grants ==> id in s'.grants && s'.grants[id] == s.grants[id])
    && (forall r :: r in s'.rows ==> r in s.rows || NewRow(s, s', r))
  }

  /** A row inserted since, by a later assessment than any in `s`. */
  ghost predicate NewRow(s: State, s': State, r: Row) {
    r.id !in s.grants && r.id in s'.grants && s'.grants[r.id] >= |s.log|
  }

  lemma StepExtends(s: State, step: Step)
    requires Enabled(s, step)
    ensures Extends(s, Next(s, step))
  {
    if step.Assess? {
      AssessedRows(s, step);
    } else if step.CommitRelease? {
      forall r: Row ensures r in Next(s, step).rows ==> r in s.rows {
        LeftMember(s.rows, s.threads[step.thread].doomed, r);
      }
    }
  }

  /** The rows an assessment adds. */
  function Added(s: State, step: Step): seq<Reservation>
    requires step.Assess? && step.event < |s.log| && s.log[step.event].Created?
  {
    var order := s.log[step.event];
    Reserved(step.verdict, order.booking, order.departure, RouteOf(s, order.routeId))
  }

  lemma AssessedRows(s: State, step: Step)
    requires Enabled(s, step) && step.Assess?
    ensures Table(Next(s, step)) == Table(s) + Added(s, step)
    ensures forall r :: r in Next(s, step).rows <==> r in s.rows || (r.id == step.id && r.window in Added(s, step))
    ensures forall w :: w in Added(s, step) ==> step.verdict && w.booking == s.log[step.event].booking
  {
    ContentInsert(s.rows, step.id, Added(s, step));
  }

  lemma SeenStays(keys: set<Key>, keys': set<Key>, e: nat)
    requires keys <= keys'
    ensures Seen(keys, e) ==> Seen(keys', e)
  {
    if Seen(keys, e) {
      var k :| k in keys && k.0 == e;
      assert k in keys';
    }
  }

  lemma WasAssessedStays(s: State, s': State, b: BookingId)
    requires Extends(s, s') && WasAssessed(s, b)
    ensures WasAssessed(s', b)
  {
    var e :| 0 <= e < |s.log| && s.log[e].Created? && s.log[e].booking == b && Seen(s.assessed, e);
    SeenStays(s.assessed, s'.assessed, e);
    assert s'.log[e] == s.log[e];
  }

  // ----- soundness, in every run

  lemma ThreadCarries(s: State, s': State, thread: Thread)
    requires RowsOk(s) && Extends(s, s') && ThreadOk(s, thread)
    ensures ThreadOk(s', thread)
  {
    if thread.Releasing? {
      forall r | r in s'.rows && r.id in thread.doomed ensures r.window.booking == s'.log[thread.event].booking {
        assert r in s.rows;
      }
    }
  }

  /** The one event a step may log. */
  lemma LogsOne(s: State, step: Step)
    requires Enabled(s, step)
    ensures
      var s' := Next(s, step);
      && s.log <= s'.log && |s'.log| <= |s.log| + 1
      && (|s'.log| > |s.log| && s'.log[|s.log|].Created? ==> step.Create?)
      && (|s'.log| > |s.log| && s'.log[|s.log|].Assessed? ==> step.Assess?)
  {
  }

  /** The keys a step inserts. */
  lemma KeysGain(s: State, step: Step)
    requires Sound(s) && Enabled(s, step)
    ensures forall k :: k in Next(s, step).assessed ==> k in s.assessed || (k.0 < |s.log| && s.log[k.0].Created?)
    ensures forall k :: k in Next(s, step).released ==> k in s.released || (k.0 < |s.log| && s.log[k.0].Updated?)
  {
    if step.CommitRelease? {
      assert ThreadOk(s, s.threads[step.thread]);
    }
  }

  lemma StepKeepsKeys(s: State, step: Step)
    requires Sound(s) && Enabled(s, step)
    ensures KeysOk(Next(s, step))
  {
    KeysGain(s, step);
    LogsOne(s, step);
  }

  lemma StepKeepsMarks(s: State, step: Step)
    requires Sound(s) && Enabled(s, step)
    ensures forall e :: e in Next(s, step).applied ==> e < |Next(s, step).log|
    ensures Next(s, step).marked <= Next(s, step).applied
  {
    if step.Mark? {
      assert ThreadOk(s, s.threads[step.thread]);
    }
  }

  lemma StepKeepsCreations(s: State, step: Step)
    requires LogOk(s) && Enabled(s, step)
    ensures
      var s' := Next(s, step);
      && (forall e, f :: 0 <= e < f < |s'.log| && s'.log[e].Created? && s'.log[f].Created? ==> s'.log[e].booking != s'.log[f].booking)
      && (forall e :: 0 <= e < |s'.log| && s'.log[e].Created? ==>
            && s'.log[e].booking in s'.bookings
            && s'.bookings[s'.log[e].booking].routeId == s'.log[e].routeId
            && WholeSeconds(s'.bookings[s'.log[e].booking].departure) == s'.log[e].departure)
  {
    LogsOne(s, step);
    StepExtends(s, step);
  }

  lemma StepKeepsAssessed(s: State, step: Step)
    requires LogOk(s) && Enabled(s, step)
    ensures
      var s' := Next(s, step);
      forall f :: 0 <= f < |s'.log| && s'.log[f].Assessed? ==> WasAssessed(s', s'.log[f].booking)
  {
    var s' := Next(s, step);
    LogsOne(s, step);
    StepExtends(s, step);
    forall f | 0 <= f < |s'.log| && s'.log[f].Assessed? ensures WasAssessed(s', s'.log[f].booking) {
      if f < |s.log| {
        WasAssessedStays(s, s', s.log[f].booking);
      } else {
        assert (step.event, step.consumer) in s'.assessed && s'.log[step.event] == s.log[step.event];
      }
    }
  }

  lemma StepKeepsRows(s: State, step: Step)
    requires Sound(s) && Enabled(s, step)
    ensures RowsOk(Next(s, step))
  {
    var s' := Next(s, step);
    LogsOne(s, step);
    if step.Assess? {
      AssessedRows(s, step);
    } else if step.CommitRelease? {
      StepExtends(s, step);
    }
  }

  /** Threads already in flight stay in order, whatever the step. */
  lemma StepKeepsThreads(s: State, step: Step)
    requires Sound(s) && Enabled(s, step)
    ensures forall t :: 0 <= t < |Next(s, step).threads| ==> ThreadOk(Next(s, step), Next(s, step).threads[t])
  {
    var s' := Next(s, step);
    StepExtends(s, step);
    forall t | 0 <= t < |s'.threads| ensures ThreadOk(s', s'.threads[t]) {
      if t < |s.threads| {
        assert ThreadOk(s, s.threads[t]);
        if s'.threads[t] == s.threads[t] {
          ThreadCarries(s, s', s.threads[t]);
        } else {
          ThreadTurnsInto(s, step, t);
          ThreadStillOk(s, s', s.threads[t], s'.threads[t]);
        }
      } else {
        NewThreadOk(s, step);
      }
    }
  }

  /** What a code path can turn into: its status written, a shorter queue, or its end. */
  lemma ThreadTurnsInto(s: State, step: Step, t: nat)
    requires Enabled(s, step) && t < |s.threads| && Next(s, step).threads[t] != s.threads[t]
    ensures
      var before, after := s.threads[t], Next(s, step).threads[t];
      || after.Finished?
      || (before.Handling? && after == Handling(before.event, true) && before.event in Next(s, step).applied)
      || (before.Expiring? && after.Expiring? && forall b :: b in after.queue ==> b in before.queue)
  {
  }

  lemma ThreadStillOk(s: State, s': State, before: Thread, after: Thread)
    requires ThreadOk(s, before) && Extends(s, s')
    requires after.Finished?
      || (before.Handling? && after == Handling(before.event, true) && before.event in s'.applied)
      || (before.Expiring? && after.Expiring? && forall b :: b in after.queue ==> b in before.queue)
    ensures ThreadOk(s', after)
  {
  }

  /** The thread a step starts. */
  lemma NewThreadOk(s: State, step: Step)
    requires Sound(s) && Enabled(s, step) && |Next(s, step).threads| > |s.threads|
    ensures ThreadOk(Next(s, step), Next(s, step).threads[|s.threads|])
  {
    if step.ScanExpired? {
      assert forall b :: b in step.queue ==> b in Elements(step.queue);
    } else if step.StartHandling? {
      assert WasAssessed(s, s.log[step.event].booking);
    } else if step.StartRelease? {
      StartedRelease(s, step);
    }
  }

  lemma StartedRelease(s: State, step: Step)
    requires Sound(s) && Enabled(s, step) && step.StartRelease?
    ensures ThreadOk(Next(s, step), Next(s, step).threads[|s.threads|])
  {
    var b := s.log[step.event].booking;
    forall r | r in s.rows && r.id in IdsOf(s.rows, b) ensures r.window.booking == b {
      var r' :| r' in s.rows && r'.window.booking == b && r'.id == r.id;
      assert Granted(s, r.window.booking, s.grants[r.id]) && Granted(s, b, s.grants[r.id]);
    }
  }

  lemma StepKeepsSound(s: State, step: Step)
    requires Sound(s) && Enabled(s, step)
    ensures Sound(Next(s, step))
  {
    StepKeepsCreations(s, step);
    StepKeepsAssessed(s, step);
    StepKeepsMarks(s, step);
    StepKeepsKeys(s, step);
    StepKeepsRows(s, step);
    StepKeepsThreads(s, step);
  }

  lemma {:induction false} RunKeepsSound(states: seq<State>, steps: seq<Step>, n: nat)
    requires IsRun(states, steps) && n < |states|
    ensures Sound(states[n])
  {
    if n > 0 {
      RunKeepsSound(states, steps, n - 1);
      assert Takes(states, steps, n - 1);
      StepKeepsSound(states[n - 1], steps[n - 1]);
    }
  }

  /** A creation no one has assessed has no assessment in the log. */
  lemma FirstAssessment(s: State, e: nat, f: nat)
    requires LogOk(s) && e < |s.log| && s.log[e].Created? && !Seen(s.assessed, e)
    requires f < |s.log| && s.log[f].Assessed?
    ensures s.log[f].booking != s.log[e].booking
  {
    var d :| 0 <= d < |s.log| && s.log[d].Created? && s.log[d].booking == s.log[f].booking && Seen(s.assessed, d);
    assert d != e;
  }

  /** So its booking holds nothing. */
  lemma UnassessedHoldsNothing(s: State, e: nat)
    requires Sound(s) && e < |s.log| && s.log[e].Created? && !Seen(s.assessed, e)
    ensures !Reserving(s, s.log[e].booking)
    ensures RowsOf(Table(s), s.log[e].booking) == []
  {
    var b := s.log[e].booking;
    forall r | r in s.rows ensures r.window.booking != b {
      assert Granted(s, r.window.booking, s.grants[r.id]);
      FirstAssessment(s, e, s.grants[r.id]);
    }
    HoldsSomeRow(s.rows, b);
  }

  /** Assessing a creation for the first time contradicts nothing. */
  lemma OnceAgrees(s: State, step: Step)
    requires LogOk(s) && Enabled(s, step) && Once(s, step)
    ensures Agrees(s, step)
  {
    if step.Assess? {
      forall f | 0 <= f < |s.log| && s.log[f].Assessed? ensures s.log[f].booking != s.log[step.event].booking {
        FirstAssessment(s, step.event, f);
      }
    }
  }

  // ----- why rows are held, as long as assessments agree

  /** An explanation survives as long as the booking's status and the assessment are left alone and no due release is spent. */
  lemma StillExplained(s: State, s': State, r: Row)
    requires Extends(s, s') && RowExplained(s, r)
    requires var b := r.window.booking;
      && s'.bookings[b].status == s.bookings[b].status
      && (s.grants[r.id] in s'.applied ==> s.grants[r.id] in s.applied)
      && forall c :: ReleaseDue(s, b, s.grants[r.id], c) ==> !Seen(s'.released, c)
    ensures RowExplained(s', r)
  {
    var b, f := r.window.booking, s.grants[r.id];
    assert Granted(s', b, f);
    if c :| ReleaseDue(s, b, f, c) {
      assert ReleaseDue(s', b, f, c);
    }
  }

  /** Steps that write no status and spend no release. */
  lemma QuietExplained(s: State, step: Step, r: Row)
    requires Inv(s) && Enabled(s, step) && r in s.rows
    requires !step.WriteStatus? && !step.WriteCancel? && !step.WriteExpired? && !step.CommitRelease? && !step.PassUpdate?
    ensures RowExplained(Next(s, step), r)
  {
    StepExtends(s, step);
    assert RowExplained(s, r);
    StillExplained(s, Next(s, step), r);
  }

  /** New rows are explained by the assessment just logged, which no one has applied. */
  lemma AssessExplained(s: State, step: Step, r: Row)
    requires Inv(s) && Enabled(s, step) && step.Assess? && r in Next(s, step).rows && r !in s.rows
    ensures RowExplained(Next(s, step), r)
  {
    AssessedRows(s, step);
    var s' := Next(s, step);
    assert s'.grants[r.id] == |s.log| && Granted(s', r.window.booking, |s.log|);
    assert s.log[step.event].booking in s.bookings;
  }

  /** The booking and status a step writes, if it writes one. */
  function Write(s: State, step: Step): Option<(BookingId, Status)> {
    match step
    case WriteStatus(t) =>
      if t < |s.threads| && s.threads[t].Handling? && s.threads[t].event < |s.log| && s.log[s.threads[t].event].Assessed?
      then Some((s.log[s.threads[t].event].booking, Verdict(s.log[s.threads[t].event].available)))
      else None
    case WriteCancel(t) => if t < |s.threads| && s.threads[t].Cancelling? then Some((s.threads[t].booking, Cancelled)) else None
    case WriteExpired(t) =>
      if t < |s.threads| && s.threads[t].Expiring? && s.threads[t].queue != [] then Some((s.threads[t].queue[0], Expired)) else None
    case _ => None
  }

  lemma WriteEffect(s: State, step: Step)
    requires Enabled(s, step) && Write(s, step).Some?
    ensures
      var (b, status) := Write(s, step).value;
      var s' := Next(s, step);
      && b in s.bookings && s'.bookings == s.bookings[b := s.bookings[b].(status := status)]
      && s'.log == s.log + [Updated(b, s.bookings[b].driver, status)]
      && s'.rows == s.rows && s'.released == s.released && s'.grants == s.grants
      && s'.applied == (if step.WriteStatus? then s.applied + {s.threads[step.thread].event} else s.applied)
  {
  }

  /** An approval, cancel or expiry explains a booking's rows anew; a rejection finds none. */
  lemma StatusWritten(s: State, step: Step, r: Row)
    requires Inv(s) && Enabled(s, step) && Write(s, step).Some? && r in s.rows
    ensures RowExplained(Next(s, step), r)
  {
    var s' := Next(s, step);
    var (b, status) := Write(s, step).value;
    WriteEffect(s, step);
    StepExtends(s, step);
    assert RowExplained(s, r) && Granted(s, r.window.booking, s.grants[r.id]);
    assert Granted(s', r.window.booking, s.grants[r.id]);
    if r.window.booking != b {
      AppliedElsewhere(s, step, r);
      StillExplained(s, s', r);
    } else if step.WriteStatus? {
      AgreedVerdict(s, s.grants[r.id], s.threads[step.thread].event);
    } else {
      assert !Seen(s.released, |s.log|);
      assert ReleaseDue(s', b, s.grants[r.id], |s.log|);
    }
  }

  lemma AppliedElsewhere(s: State, step: Step, r: Row)
    requires Inv(s) && Enabled(s, step) && Write(s, step).Some? && r in s.rows && r.window.booking != Write(s, step).value.0
    ensures s.grants[r.id] in Next(s, step).applied ==> s.grants[r.id] in s.applied
  {
    WriteEffect(s, step);
    assert Granted(s, r.window.booking, s.grants[r.id]);
  }

  lemma AgreedVerdict(s: State, f: nat, g: nat)
    requires AgreeLog(s) && f < |s.log| && g < |s.log| && s.log[f].Assessed? && s.log[g].Assessed?
    requires s.log[f].booking == s.log[g].booking
    ensures s.log[f].available == s.log[g].available
  {
    if f < g {
      assert s.log[f].available == s.log[g].available;
    } else if g < f {
      assert s.log[g].available == s.log[f].available;
    }
  }

  /** A row that survives a release was not waiting for it. */
  lemma ReleaseExplained(s: State, step: Step, r: Row)
    requires Inv(s) && Enabled(s, step) && step.CommitRelease? && r in Next(s, step).rows
    ensures RowExplained(Next(s, step), r)
  {
    var s', thread := Next(s, step), s.threads[step.thread];
    StepExtends(s, step);
    LeftMember(s.rows, thread.doomed, r);
    assert ThreadOk(s, thread) && RowExplained(s, r);
    forall c | ReleaseDue(s, r.window.booking, s.grants[r.id], c) ensures !Seen(s'.released, c) {
      if (thread.event, thread.consumer) !in s.released {
        assert c != thread.event;
      }
    }
    StillExplained(s, s', r);
  }

  lemma PassExplained(s: State, step: Step, r: Row)
    requires Inv(s) && Enabled(s, step) && step.PassUpdate? && r in s.rows
    ensures RowExplained(Next(s, step), r)
  {
    StepExtends(s, step);
    assert RowExplained(s, r);
    StillExplained(s, Next(s, step), r);
  }

  lemma StepExplains(s: State, step: Step, r: Row)
    requires Inv(s) && Enabled(s, step) && r in Next(s, step).rows
    ensures RowExplained(Next(s, step), r)
  {
    if step.CommitRelease? {
      ReleaseExplained(s, step, r);
    } else if step.Assess? && r !in s.rows {
      AssessExplained(s, step, r);
    } else if step.PassUpdate? {
      PassExplained(s, step, r);
    } else if step.WriteStatus? || step.WriteCancel? || step.WriteExpired? {
      StatusWritten(s, step, r);
    } else {
      QuietExplained(s, step, r);
    }
  }

  lemma StepKeepsAgreement(s: State, step: Step)
    requires AgreeLog(s) && Enabled(s, step) && Agrees(s, step)
    ensures AgreeLog(Next(s, step))
  {
    LogsOne(s, step);
  }

  lemma StepKeepsInv(s: State, step: Step)
    requires Inv(s) && Enabled(s, step) && Agrees(s, step)
    ensures Inv(Next(s, step))
  {
    StepKeepsSound(s, step);
    StepKeepsAgreement(s, step);
    forall r | r in Next(s, step).rows ensures RowExplained(Next(s, step), r) {
      StepExplains(s, step, r);
    }
  }

  lemma {:induction false} RunKeepsInv(states: seq<State>, steps: seq<Step>, n: nat)
    requires IsRun(states, steps) && n < |states|
    requires forall i :: 0 <= i < n ==> Agrees(states[i], steps[i])
    ensures Inv(states[n])
  {
    if n > 0 {
      RunKeepsInv(states, steps, n - 1);
      assert Takes(states, steps, n - 1);
      StepKeepsInv(states[n - 1], steps[n - 1]);
    }
  }

  lemma InvNoOrphan(s: State, b: BookingId)
    requires Inv(s)
    ensures NoOrphan(s, b)
  {
    if Reserving(s, b) {
      var r :| r in s.rows && r.window.booking == b;
      assert RowExplained(s, r);
    }
  }

  // ----- the log, the table and the inbox, under any consumer names

  /** Steps that log neither a creation nor an update change no status. */
  lemma StatusesStay(s: State, step: Step)
    requires Enabled(s, step) && Write(s, step).None? && !step.Create?
    ensures Statuses(Next(s, step).bookings) == Statuses(s.bookings)
    ensures !step.Assess? ==> Next(s, step).log == s.log
  {
  }

  lemma StepKeepsReplay(s: State, step: Step)
    requires Replay(s.log) == Statuses(s.bookings) && Enabled(s, step)
    ensures Replay(Next(s, step).log) == Statuses(Next(s, step).bookings)
  {
    if step.Create? {
      ReplayAppend(s.log, Created(step.booking, step.driver, step.routeId, WholeSeconds(step.departure)));
    } else if Write(s, step).Some? {
      var (b, status) := Write(s, step).value;
      WriteEffect(s, step);
      UpdateKeepsReplay(s.bookings, s.log, b, status);
    } else {
      StatusesStay(s, step);
      if step.Assess? {
        ReplayAppend(s.log, Assessed(s.log[step.event].booking, step.verdict));
      }
    }
  }

  /** A message stays right as the log grows, and only Notify adds one. */
  lemma StepKeepsInbox(s: State, step: Step)
    requires InboxOk(s) && Enabled(s, step)
    ensures InboxOk(Next(s, step))
  {
    LogOnlyAppends(s, step);
  }

  lemma LogOnlyAppends(s: State, step: Step)
    requires Enabled(s, step)
    ensures s.log <= Next(s, step).log
    ensures !step.Notify? ==> Next(s, step).notified == s.notified && Next(s, step).inbox == s.inbox
  {
  }

  lemma StepKeepsTables(s: State, step: Step)
    requires TablesOk(s) && Enabled(s, step)
    ensures TablesOk(Next(s, step))
  {
    StepKeepsReplay(s, step);
    StepKeepsInbox(s, step);
  }

  lemma {:induction false} RunKeepsTables(states: seq<State>, steps: seq<Step>, n: nat)
    requires IsRun(states, steps) && n < |states|
    ensures TablesOk(states[n])
  {
    if n > 0 {
      RunKeepsTables(states, steps, n - 1);
      assert Takes(states, steps, n - 1);
      StepKeepsTables(states[n - 1], steps[n - 1]);
    }
  }

  // ----- stretches of steps

  lemma {:induction false} LeadsOn(s: State, steps: seq<Step>, s': State, more: seq<Step>, s'': State)
    requires Leads(s, steps, s') && Leads(s', more, s'')
    ensures Leads(s, steps + more, s'')
    decreases steps
  {
    if steps == [] {
      assert steps + more == more;
    } else {
      LeadsOn(Next(s, steps[0]), steps[1..], s', more, s'');
      assert (steps + more)[0] == steps[0] && (steps + more)[1..] == steps[1..] + more;
    }
  }

  lemma LeadsOneMore(s: State, steps: seq<Step>, s': State, step: Step)
    requires Leads(s, steps, s') && Enabled(s', step)
    ensures Leads(s, steps + [step], Next(s', step))
  {
    assert Leads(s', [step], Next(s', step)) by {
      assert [step][1..] == [];
    }
    LeadsOn(s, steps, s', [step], Next(s', step));
  }

  // ----- runs that go on

  function Last(states: seq<State>): State
    requires states != []
  {
    states[|states| - 1]
  }

  lemma Extend(states: seq<State>, steps: seq<Step>, step: Step) returns (states': seq<State>, steps': seq<Step>)
    requires IsRun(states, steps) && Enabled(Last(states), step)
    ensures IsRun(states', steps') && Last(states') == Next(Last(states), step)
    ensures states <= states' && steps' == steps + [step]
  {
    states', steps' := states + [Next(Last(states), step)], steps + [step];
    forall i | 0 <= i < |steps'| ensures Takes(states', steps', i) {
      if i < |steps| {
        assert Takes(states, steps, i);
      }
    }
  }

  lemma {:induction false} ExtendAll(states: seq<State>, steps: seq<Step>, more: seq<Step>, s': State)
      returns (states': seq<State>, steps': seq<Step>)
    requires IsRun(states, steps) && Leads(Last(states), more, s')
    ensures IsRun(states', steps') && Last(states') == s' && steps' == steps + more
    decreases more
  {
    if more == [] {
      states', steps' := states, steps;
    } else {
      states', steps' := Extend(states, steps, more[0]);
      states', steps' := ExtendAll(states', steps', more[1..], s');
      assert steps + [more[0]] + more[1..] == steps + more;
    }
  }

  /** Every booking has a creation in the log. */
  ghost predicate Logged(s: State, b: BookingId) {
    exists e :: 0 <= e < |s.log| && s.log[e].Created? && s.log[e].booking == b
  }

  lemma {:induction false} RunKeepsLogged(states: seq<State>, steps: seq<Step>, n: nat, b: BookingId)
    requires IsRun(states, steps) && n < |states| && b in states[n].bookings
    ensures Logged(states[n], b)
  {
    if n > 0 {
      assert Takes(states, steps, n - 1);
      if b in states[n - 1].bookings {
        RunKeepsLogged(states, steps, n - 1, b);
        LogOnlyAppends(states[n - 1], steps[n - 1]);
        var e :| 0 <= e < |states[n - 1].log| && states[n - 1].log[e].Created? && states[n - 1].log[e].booking == b;
        assert states[n].log[e] == states[n - 1].log[e];
      } else {
        NewBookingLogged(states[n - 1], steps[n - 1], b);
      }
    }
  }

  lemma NewBookingLogged(s: State, step: Step, b: BookingId)
    requires Enabled(s, step) && b !in s.bookings && b in Next(s, step).bookings
    ensures Logged(Next(s, step), b)
  {
    assert step.Create? && Next(s, step).log[|s.log|].booking == b;
  }

  /** There is always a name no consumer has used. */
  lemma {:induction false} UnusedName(keys: set<Key>, e: nat) returns (c: ConsumerName)
    ensures forall k :: k in keys ==> |k.1| < |c|
    ensures (e, c) !in keys
    decreases keys
  {
    if keys == {} {
      c := "x";
    } else {
      var k :| k in keys;
      var rest := UnusedName(keys - {k}, e);
      c := rest + k.1 + "x";
      forall k' | k' in keys ensures |k'.1| < |c| {
        assert k' == k || k' in keys - {k};
      }
    }
  }

  /** The verdicts in the log, which are conflict detection's own part of it. */
  function Verdicts(log: seq<Event>): seq<Event> {
    if log == [] then []
    else Verdicts(log[..|log| - 1]) + if log[|log| - 1].Assessed? then [log[|log| - 1]] else []
  }

  lemma VerdictAppend(log: seq<Event>, e: Event)
    ensures Verdicts(log + [e]) == Verdicts(log) + if e.Assessed? then [e] else []
  {
    assert (log + [e])[..|log|] == log;
  }
}
