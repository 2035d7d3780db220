/** What every run of the saga guarantees, and where it stops short of its documentation. */
module SagaTheorems {
  import opened Domain
  import opened Reservations
  import opened Assessment
  import opened Bookings
  import opened Saga
  import opened SagaProofs

  // ----- safety over whole runs

  /**
   * No orphans: in every state of every run in which repeated assessments of a creation, by however many
   * consumers, agree with one another, a booking that holds reservations has a positive assessment that is still to
   * be applied, or is APPROVED, or has a CANCELLED/EXPIRED update, logged after that assessment, that is still to be
   * applied.
   */
  lemma NoOrphans(states: seq<State>, steps: seq<Step>, n: nat, b: BookingId)
    requires IsRun(states, steps) && n < |states|
    requires forall i :: 0 <= i < n ==> Agrees(states[i], steps[i])
    ensures RowsOf(Table(states[n]), b) != [] ==> exists f :: Explained(states[n], b, f)
  {
    RunKeepsInv(states, steps, n);
    InvNoOrphan(states[n], b);
    HoldsSomeRow(states[n].rows, b);
  }

  /** Replaying the log rebuilds every status, in every state of every run. */
  lemma LogExplainsTable(states: seq<State>, steps: seq<Step>, n: nat)
    requires IsRun(states, steps) && n < |states|
    ensures Replay(states[n].log) == Statuses(states[n].bookings)
  {
    RunKeepsTables(states, steps, n);
  }

  /** The replayed status is that of the booking's last update. */
  lemma {:induction false} ReplayIsLastUpdate(log: seq<Event>, b: BookingId, i: nat)
    requires i < |log| && log[i].Updated? && log[i].booking == b
    requires forall j :: i < j < |log| ==> log[j].booking != b || log[j].Assessed?
    ensures b in Replay(log) && Replay(log)[b] == log[i].status
  {
    if i < |log| - 1 {
      ReplayIsLastUpdate(log[..|log| - 1], b, i);
    }
  }

  /** Without an update the replayed status is PENDING. */
  lemma {:induction false} ReplayIsPending(log: seq<Event>, b: BookingId)
    requires forall j :: 0 <= j < |log| && log[j].booking == b ==> !log[j].Updated?
    ensures b in Replay(log) <==> exists j :: 0 <= j < |log| && log[j].booking == b && log[j].Created?
    ensures b in Replay(log) ==> Replay(log)[b] == Pending
  {
    if log != [] {
      var front := log[..|log| - 1];
      ReplayIsPending(front, b);
      assert forall j :: 0 <= j < |front| ==> front[j] == log[j];
    }
  }

  /** Each update has at most one inbox message per consumer name, addressed to its driver with the text of its status. */
  lemma OneMessagePerUpdate(states: seq<State>, steps: seq<Step>, n: nat)
    requires IsRun(states, steps) && n < |states|
    ensures |states[n].inbox| == |states[n].notified| && Distinct(states[n].notified)
    ensures forall i :: 0 <= i < |states[n].inbox| ==>
      var e := states[n].notified[i].0;
      e < |states[n].log| && states[n].log[e].Updated?
      && states[n].inbox[i] == Message(states[n].log[e].driver, states[n].log[e].booking, StatusText(states[n].log[e].status))
  {
    RunKeepsTables(states, steps, n);
  }

  // ----- termination of event handling

  /** Some consumer name, when it does not matter which. */
  const ANYONE: ConsumerName := "anyone"

  predicate Told(s: State, e: nat) {
    Seen(Elements(s.notified), e)
  }

  predicate Handled(s: State, e: nat) {
    exists t :: 0 <= t < |s.threads| && s.threads[t].Handling? && s.threads[t].event == e
  }

  predicate BeingReleased(s: State, e: nat) {
    exists t :: 0 <= t < |s.threads| && s.threads[t].Releasing? && s.threads[t].event == e
  }

  /** Event handling with no new requests and no failures: one worker per event, nothing crashes. */
  ghost predicate Orderly(s: State, step: Step) {
    match step
    case Assess(e, _, verdict, _) => !Seen(s.assessed, e) && e < |s.log| && s.log[e].Created?
      && (verdict <==> Approves(Table(s), s.capacities, s.log[e].departure, RouteOf(s, s.log[e].routeId)))
    case StartHandling(e) => !Handled(s, e)
    case StartRelease(e, _) => !Seen(s.released, e) && !BeingReleased(s, e)
    case WriteStatus(_) => true
    case Mark(_) => true
    case WriteCancel(_) => true
    case WriteExpired(_) => true
    case EndExpiry(_) => true
    case CommitRelease(_) => true
    case PassUpdate(e, _) => !Seen(s.released, e)
    case Notify(e, _) => !Told(s, e)
    case _ => false
  }

  /** A creation outweighs the assessment it causes, which outweighs the update that causes. */
  function EventWeight(s: State, e: nat): nat
    requires e < |s.log|
  {
    match s.log[e]
    case Created(_, _, _, _) => if Seen(s.assessed, e) then 0 else 7
    case Assessed(_, _) => if e in s.marked || Handled(s, e) then 0 else 6
    case Updated(_, _, _) =>
      (if Seen(s.released, e) || BeingReleased(s, e) then 0 else 2) + if Told(s, e) then 0 else 1
  }

  function ThreadWeight(thread: Thread): nat {
    match thread
    case Handling(_, written) => if written then 1 else 5
    case Cancelling(_) => 4
    case Expiring(queue) => 4 * |queue| + 1
    case Releasing(_, _, _) => 1
    case Finished => 0
  }

  function EventWeights(s: State): seq<nat> {
    seq(|s.log|, e requires 0 <= e < |s.log| => EventWeight(s, e))
  }

  function ThreadWeights(s: State): seq<nat> {
    seq(|s.threads|, t requires 0 <= t < |s.threads| => ThreadWeight(s.threads[t]))
  }

  function Sum(xs: seq<nat>): nat {
    if xs == [] then 0 else Sum(xs[..|xs| - 1]) + xs[|xs| - 1]
  }

  function Weight(s: State): nat {
    Sum(EventWeights(s)) + Sum(ThreadWeights(s))
  }

  /** Pointwise smaller, by `drop` at position `k`, then `more` at the end. */
  lemma {:induction false} SumShrinks(xs: seq<nat>, ys: seq<nat>, k: nat, drop: nat)
    requires |ys| == |xs| && k < |xs| && ys[k] + drop <= xs[k]
    requires forall i :: 0 <= i < |xs| ==> ys[i] <= xs[i]
    ensures Sum(ys) + drop <= Sum(xs)
  {
    var n := |xs| - 1;
    if k == n {
      SumMonotone(xs[..n], ys[..n]);
    } else {
      SumShrinks(xs[..n], ys[..n], k, drop);
    }
  }

  lemma {:induction false} SumMonotone(xs: seq<nat>, ys: seq<nat>)
    requires |ys| == |xs| && forall i :: 0 <= i < |xs| ==> ys[i] <= xs[i]
    ensures Sum(ys) <= Sum(xs)
  {
    if xs != [] {
      SumMonotone(xs[..|xs| - 1], ys[..|xs| - 1]);
    }
  }

  lemma SumAppend(xs: seq<nat>, x: nat)
    ensures Sum(xs + [x]) == Sum(xs) + x
  {
    assert (xs + [x])[..|xs|] == xs;
  }

  /** No event gets heavier; event `k` (if any) loses `drop`. */
  ghost predicate EventsLighter(s: State, s': State, k: Option<nat>, drop: nat) {
    && s.log <= s'.log
    && (forall e :: 0 <= e < |s.log| ==> EventWeight(s', e) <= EventWeight(s, e))
    && (k.Some? ==> k.value < |s.log| && EventWeight(s', k.value) + drop <= EventWeight(s, k.value))
    && (k.None? ==> drop == 0)
  }

  /** The sum over events after a step that may log one more event of weight at most `more`. */
  lemma EventSum(s: State, s': State, k: Option<nat>, drop: nat, more: nat)
    requires EventsLighter(s, s', k, drop)
    requires if |s'.log| == |s.log| then more == 0 else |s'.log| == |s.log| + 1 && EventWeight(s', |s.log|) <= more
    ensures Sum(EventWeights(s')) + drop <= Sum(EventWeights(s)) + more
  {
    var xs, ys := EventWeights(s), EventWeights(s')[..|s.log|];
    if k.Some? {
      SumShrinks(xs, ys, k.value, drop);
    } else {
      SumMonotone(xs, ys);
    }
    if |s'.log| == |s.log| + 1 {
      assert EventWeights(s') == ys + [EventWeights(s')[|s.log|]];
      SumAppend(ys, EventWeights(s')[|s.log|]);
    } else {
      assert EventWeights(s') == ys;
    }
  }

  lemma ThreadSum(s: State, s': State, t: nat)
    requires t < |s.threads| && |s'.threads| == |s.threads| && s'.threads == s.threads[t := s'.threads[t]]
    requires ThreadWeight(s'.threads[t]) <= ThreadWeight(s.threads[t])
    ensures Sum(ThreadWeights(s')) + (ThreadWeight(s.threads[t]) - ThreadWeight(s'.threads[t])) <= Sum(ThreadWeights(s))
  {
    SumShrinks(ThreadWeights(s), ThreadWeights(s'), t, ThreadWeight(s.threads[t]) - ThreadWeight(s'.threads[t]));
  }

  lemma ThreadAdded(s: State, s': State, thread: Thread)
    requires s'.threads == s.threads + [thread]
    ensures Sum(ThreadWeights(s')) == Sum(ThreadWeights(s)) + ThreadWeight(thread)
  {
    assert ThreadWeights(s') == ThreadWeights(s) + [ThreadWeight(thread)];
    SumAppend(ThreadWeights(s), ThreadWeight(thread));
  }

  /** Replacing a thread leaves other events' workers in place. */
  lemma WorkersStay(s: State, s': State, t: nat, e: nat)
    requires t < |s.threads| && |s'.threads| == |s.threads|
    requires forall u :: 0 <= u < |s.threads| && u != t ==> s'.threads[u] == s.threads[u]
    ensures Handled(s, e) && !(s.threads[t].Handling? && s.threads[t].event == e) ==> Handled(s', e)
    ensures BeingReleased(s, e) && !(s.threads[t].Releasing? && s.threads[t].event == e) ==> BeingReleased(s', e)
  {
    if Handled(s, e) && !(s.threads[t].Handling? && s.threads[t].event == e) {
      var u :| 0 <= u < |s.threads| && s.threads[u].Handling? && s.threads[u].event == e;
      assert s'.threads[u] == s.threads[u];
    }
    if BeingReleased(s, e) && !(s.threads[t].Releasing? && s.threads[t].event == e) {
      var u :| 0 <= u < |s.threads| && s.threads[u].Releasing? && s.threads[u].event == e;
      assert s'.threads[u] == s.threads[u];
    }
  }

  lemma WorkersGrow(s: State, s': State, e: nat)
    requires s.threads <= s'.threads
    ensures Handled(s, e) ==> Handled(s', e)
    ensures BeingReleased(s, e) ==> BeingReleased(s', e)
  {
    assert forall t :: 0 <= t < |s.threads| ==> s'.threads[t] == s.threads[t];
  }

  /** Only a releasing update has a release in flight. */
  lemma NotBeingReleased(s: State, e: nat)
    requires Sound(s) && e < |s.log| && s.log[e].Updated? && !Releases(s.log[e].status)
    ensures !BeingReleased(s, e)
  {
    forall t | 0 <= t < |s.threads| && s.threads[t].Releasing? ensures s.threads[t].event != e {
      assert ThreadOk(s, s.threads[t]);
    }
  }

  /** The workers are the same after a consumer's step. */
  lemma SameWorkers(s: State, s': State)
    requires s'.threads == s.threads
    ensures forall f :: Handled(s', f) == Handled(s, f) && BeingReleased(s', f) == BeingReleased(s, f)
    ensures ThreadWeights(s') == ThreadWeights(s)
  {
  }

  lemma AssessLowers(s: State, step: Step)
    requires Sound(s) && Enabled(s, step) && Orderly(s, step) && step.Assess?
    ensures Weight(Next(s, step)) < Weight(s)
  {
    var s' := Next(s, step);
    SameWorkers(s, s');
    EventSum(s, s', Some(step.event), 7, 6);
  }

  lemma PassLowers(s: State, step: Step)
    requires Sound(s) && Enabled(s, step) && Orderly(s, step) && step.PassUpdate?
    ensures Weight(Next(s, step)) < Weight(s)
  {
    var s' := Next(s, step);
    SameWorkers(s, s');
    NotBeingReleased(s, step.event);
    EventSum(s, s', Some(step.event), 2, 0);
  }

  lemma NotifyLowers(s: State, step: Step)
    requires Sound(s) && Enabled(s, step) && Orderly(s, step) && step.Notify?
    ensures Weight(Next(s, step)) < Weight(s)
  {
    var s' := Next(s, step);
    SameWorkers(s, s');
    EventSum(s, s', Some(step.event), 1, 0);
  }

  lemma StartLowers(s: State, step: Step)
    requires Sound(s) && Enabled(s, step) && Orderly(s, step)
    requires step.StartHandling? || step.StartRelease?
    ensures Weight(Next(s, step)) < Weight(s)
  {
    var s', e := Next(s, step), step.event;
    var thread := s'.threads[|s.threads|];
    ThreadAdded(s, s', thread);
    StartLightens(s, step);
    EventSum(s, s', Some(e), if step.StartHandling? then 6 else 2, 0);
  }

  /** A worker takes over its event's weight; the other events keep theirs or lose some. */
  lemma StartLightens(s: State, step: Step)
    requires Sound(s) && Enabled(s, step) && Orderly(s, step)
    requires step.StartHandling? || step.StartRelease?
    ensures EventsLighter(s, Next(s, step), Some(step.event), if step.StartHandling? then 6 else 2)
  {
    var s', e := Next(s, step), step.event;
    assert s'.threads[|s.threads|].event == e;
    assert if step.StartHandling? then Handled(s', e) else BeingReleased(s', e);
    forall f | 0 <= f < |s.log| ensures EventWeight(s', f) <= EventWeight(s, f) {
      WorkersGrow(s, s', f);
    }
    WorkersGrow(s, s', e);
  }

  lemma WriteLowers(s: State, step: Step)
    requires Sound(s) && Enabled(s, step) && Orderly(s, step)
    requires step.WriteStatus? || step.WriteCancel? || step.WriteExpired?
    ensures Weight(Next(s, step)) < Weight(s)
  {
    var s', t := Next(s, step), step.thread;
    forall f | 0 <= f < |s.log| ensures EventWeight(s', f) <= EventWeight(s, f) {
      WorkersStay(s, s', t, f);
      if step.WriteStatus? && s.threads[t].event == f {
        assert s'.threads[t].Handling? && s'.threads[t].event == f;
        assert Handled(s', f);
      }
    }
    EventSum(s, s', None, 0, 3);
    ThreadSum(s, s', t);
  }

  /** The steps that end a code path, and what they leave done. */
  lemma EndDone(s: State, step: Step)
    requires Sound(s) && Enabled(s, step)
    requires step.Mark? || step.EndExpiry? || step.CommitRelease?
    ensures
      var s', thread := Next(s, step), s.threads[step.thread];
      && s'.log == s.log && s'.threads == s.threads[step.thread := Finished]
      && s'.assessed == s.assessed && s'.notified == s.notified
      && s.marked <= s'.marked && s.released <= s'.released
      && (thread.Handling? ==> thread.event in s'.marked)
      && (thread.Releasing? ==> (thread.event, thread.consumer) in s'.released && s.log[thread.event].Updated?)
  {
    assert ThreadOk(s, s.threads[step.thread]);
  }

  /** A thread that ends has left its event done, so no event gets its weight back. */
  lemma EndKeepsEvents(s: State, step: Step, f: nat)
    requires Sound(s) && Enabled(s, step)
    requires step.Mark? || step.EndExpiry? || step.CommitRelease?
    requires f < |s.log|
    ensures EventWeight(Next(s, step), f) <= EventWeight(s, f)
  {
    var s' := Next(s, step);
    EndDone(s, step);
    WorkersStay(s, s', step.thread, f);
    SeenStays(s.released, s'.released, f);
  }

  lemma EndLowers(s: State, step: Step)
    requires Sound(s) && Enabled(s, step)
    requires step.Mark? || step.EndExpiry? || step.CommitRelease?
    ensures Weight(Next(s, step)) < Weight(s)
  {
    var s', t := Next(s, step), step.thread;
    assert s'.log == s.log && s'.threads == s.threads[t := Finished];
    forall f | 0 <= f < |s.log| ensures EventWeight(s', f) <= EventWeight(s, f) {
      EndKeepsEvents(s, step, f);
    }
    SumMonotone(EventWeights(s), EventWeights(s'));
    ThreadSum(s, s', t);
  }

  lemma OrderlyLowers(s: State, step: Step)
    requires Sound(s) && Enabled(s, step) && Orderly(s, step)
    ensures Weight(Next(s, step)) < Weight(s)
  {
    match step
    case Assess(_, _, _, _) => AssessLowers(s, step);
    case PassUpdate(_, _) => PassLowers(s, step);
    case Notify(_, _) => NotifyLowers(s, step);
    case StartHandling(_) => StartLowers(s, step);
    case StartRelease(_, _) => StartLowers(s, step);
    case WriteStatus(_) => WriteLowers(s, step);
    case WriteCancel(_) => WriteLowers(s, step);
    case WriteExpired(_) => WriteLowers(s, step);
    case _ => EndLowers(s, step);
  }

  lemma RunLowers(states: seq<State>, steps: seq<Step>, m: nat)
    requires IsRun(states, steps) && m < |steps| && Orderly(states[m], steps[m])
    ensures Weight(states[m + 1]) < Weight(states[m])
  {
    RunKeepsSound(states, steps, m);
    assert Takes(states, steps, m);
    OrderlyLowers(states[m], steps[m]);
  }

  /** Event handling terminates, whatever the run before: `n - i` orderly steps cost at least that much weight. */
  lemma {:induction false} HandlingTerminates(states: seq<State>, steps: seq<Step>, i: nat, n: nat)
    requires IsRun(states, steps) && i <= n < |states|
    requires forall m :: i <= m < n ==> Orderly(states[m], steps[m])
    ensures (n - i) + Weight(states[n]) <= Weight(states[i])
  {
    if i < n {
      HandlingTerminates(states, steps, i, n - 1);
      RunLowers(states, steps, n - 1);
    }
  }

  // ----- quiescence

  /** Every event has been applied by every consumer and nothing is in flight. */
  ghost predicate Settled(s: State) {
    && (forall t :: 0 <= t < |s.threads| ==> s.threads[t].Finished?)
    && forall e :: 0 <= e < |s.log| ==>
         match s.log[e]
         case Created(_, _, _, _) => Seen(s.assessed, e)
         case Assessed(_, _) => e in s.marked
         case Updated(_, _, _) => Seen(s.released, e) && Told(s, e)
  }

  lemma ThreadCanGoOn(s: State, t: nat) returns (step: Step)
    requires Sound(s) && t < |s.threads| && !s.threads[t].Finished?
    ensures Enabled(s, step) && Orderly(s, step)
  {
    assert ThreadOk(s, s.threads[t]);
    match s.threads[t] {
      case Handling(_, written) => step := if written then Mark(t) else WriteStatus(t);
      case Cancelling(_) => step := WriteCancel(t);
      case Expiring(queue) => step := if queue == [] then EndExpiry(t) else WriteExpired(t);
      case Releasing(_, _, _) => step := CommitRelease(t);
    }
  }

  lemma NoKeyUnseen(keys: set<Key>, e: nat, c: ConsumerName)
    ensures !Seen(keys, e) ==> (e, c) !in keys
  {
  }

  /** Until everything is settled, some orderly step is possible. */
  lemma UnsettledCanGoOn(s: State) returns (step: Step)
    requires Sound(s) && !Settled(s)
    ensures Enabled(s, step) && Orderly(s, step)
  {
    if exists t :: 0 <= t < |s.threads| && !s.threads[t].Finished? {
      var t :| 0 <= t < |s.threads| && !s.threads[t].Finished?;
      step := ThreadCanGoOn(s, t);
    } else {
      var e :| 0 <= e < |s.log| &&
        match s.log[e]
        case Created(_, _, _, _) => !Seen(s.assessed, e)
        case Assessed(_, _) => e !in s.marked
        case Updated(_, _, _) => !Seen(s.released, e) || !Told(s, e);
      assert !Handled(s, e) && !BeingReleased(s, e);
      match s.log[e] {
        case Created(_, _, routeId, departure) =>
          FreshIdExists(s.grants.Keys);
          var id: nat :| id !in s.grants.Keys;
          NoKeyUnseen(s.assessed, e, ANYONE);
          step := Assess(e, ANYONE, Approves(Table(s), s.capacities, departure, RouteOf(s, routeId)), id);
        case Assessed(_, _) => step := StartHandling(e);
        case Updated(_, _, status) =>
          NoKeyUnseen(Elements(s.notified), e, ANYONE);
          NoKeyUnseen(s.released, e, ANYONE);
          step := if !Told(s, e) then Notify(e, ANYONE) else if Releases(status) then StartRelease(e, ANYONE) else PassUpdate(e, ANYONE);
      }
    }
  }

  /** Once everything is settled, in a run whose assessments agree, only APPROVED bookings hold reservations. */
  lemma SettledHoldersAreApproved(states: seq<State>, steps: seq<Step>, n: nat, b: BookingId)
    requires IsRun(states, steps) && n < |states|
    requires forall i :: 0 <= i < n ==> Agrees(states[i], steps[i])
    requires Settled(states[n]) && Reserving(states[n], b)
    ensures b in states[n].bookings && states[n].bookings[b].status == Approved
  {
    RunKeepsInv(states, steps, n);
    SettledApproved(states[n], b);
  }

  lemma SettledApproved(s: State, b: BookingId)
    requires Inv(s) && Settled(s) && Reserving(s, b)
    ensures b in s.bookings && s.bookings[b].status == Approved
  {
    InvNoOrphan(s, b);
    var f: nat :| Explained(s, b, f);
    assert f in s.marked && f in s.applied;
    forall c: nat ensures !ReleaseDue(s, b, f, c) {
      assert f < c < |s.log| && s.log[c].Updated? ==> Seen(s.released, c);
    }
  }

  // ----- an expiry pass

  /** Assessments are over, and every booking to expire is in the queue of a running pass. */
  ghost predicate ExpiryPhase(s: State) {
    && (forall e :: 0 <= e < |s.log| && s.log[e].Created? ==> Seen(s.assessed, e))
    && (forall e :: 0 <= e < |s.log| && s.log[e].Assessed? ==> e in s.marked)
    && (forall t :: 0 <= t < |s.threads| ==> s.threads[t].Finished? || s.threads[t].Expiring? || s.threads[t].Releasing?)
    && forall b :: b in s.bookings && Expirable(s.bookings[b], s.now) ==> Queued(s, b)
  }

  ghost predicate Queued(s: State, b: BookingId) {
    exists t :: 0 <= t < |s.threads| && s.threads[t].Expiring? && b in s.threads[t].queue
  }

  lemma ScanStartsPhase(s: State, step: Step)
    requires Enabled(s, step) && step.ScanExpired? && Settled(s)
    ensures ExpiryPhase(Next(s, step))
  {
    var s' := Next(s, step);
    forall b | b in s'.bookings && Expirable(s'.bookings[b], s'.now) ensures Queued(s', b) {
      assert b in Elements(step.queue);
      assert s'.threads[|s.threads|].Expiring? && b in s'.threads[|s.threads|].queue;
    }
  }

  lemma OrderlyKeepsPhase(s: State, step: Step)
    requires ExpiryPhase(s) && Enabled(s, step) && Orderly(s, step)
    ensures ExpiryPhase(Next(s, step))
  {
    var s' := Next(s, step);
    forall b | b in s'.bookings && Expirable(s'.bookings[b], s'.now) ensures Queued(s', b) {
      OrderlyKeepsQueued(s, step, b);
    }
  }

  /** Only the booking that a pass expires leaves its queue. */
  lemma OrderlyKeepsQueued(s: State, step: Step, b: BookingId)
    requires ExpiryPhase(s) && Enabled(s, step) && Orderly(s, step)
    requires b in Next(s, step).bookings && Expirable(Next(s, step).bookings[b], Next(s, step).now)
    ensures Queued(Next(s, step), b)
  {
    assert b in s.bookings && Expirable(s.bookings[b], s.now);
    var t :| 0 <= t < |s.threads| && s.threads[t].Expiring? && b in s.threads[t].queue;
    var s' := Next(s, step);
    assert s'.threads[t].Expiring? && b in s'.threads[t].queue;
  }

  lemma RunStartsPhase(states: seq<State>, steps: seq<Step>, m: nat)
    requires IsRun(states, steps) && m < |steps| && steps[m].ScanExpired? && Settled(states[m])
    ensures ExpiryPhase(states[m + 1])
  {
    assert Takes(states, steps, m);
    ScanStartsPhase(states[m], steps[m]);
  }

  lemma RunKeepsPhase(states: seq<State>, steps: seq<Step>, m: nat)
    requires IsRun(states, steps) && m < |steps| && Orderly(states[m], steps[m]) && ExpiryPhase(states[m])
    ensures ExpiryPhase(states[m + 1])
  {
    assert Takes(states, steps, m);
    OrderlyKeepsPhase(states[m], steps[m]);
  }

  lemma {:induction false} PhaseLasts(states: seq<State>, steps: seq<Step>, i: nat, n: nat)
    requires IsRun(states, steps) && i < n < |states|
    requires Settled(states[i]) && steps[i].ScanExpired?
    requires forall m :: i < m < n ==> Orderly(states[m], steps[m])
    ensures ExpiryPhase(states[n])
  {
    if n == i + 1 {
      RunStartsPhase(states, steps, i);
    } else {
      PhaseLasts(states, steps, i, n - 1);
      RunKeepsPhase(states, steps, n - 1);
    }
  }

  /**
   * From a settled state, an expiry pass and the event handling it causes leave, once settled again,
   * no booking past its departure holding a reservation.
   */
  lemma ExpiryPassReleasesDeparted(states: seq<State>, steps: seq<Step>, i: nat, n: nat, b: BookingId)
    requires IsRun(states, steps) && i < n < |states|
    requires forall m :: 0 <= m < n ==> Agrees(states[m], steps[m])
    requires Settled(states[i]) && steps[i].ScanExpired?
    requires forall m :: i < m < n ==> Orderly(states[m], steps[m])
    requires Settled(states[n]) && Reserving(states[n], b)
    ensures b in states[n].bookings && states[n].bookings[b].departure >= states[n].now
  {
    RunKeepsInv(states, steps, n);
    PhaseLasts(states, steps, i, n);
    SettledApproved(states[n], b);
    assert !Queued(states[n], b);
  }
}
