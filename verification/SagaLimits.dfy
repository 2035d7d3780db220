/** Where the saga falls short: a creation assessed with both verdicts, and terminal states that are not final. */
module SagaLimits {
  import opened Domain
  import opened Reservations
  import opened Assessment
  import opened Bookings
  import opened Saga
  import opened SagaProofs
  import opened SagaTheorems

  const ONE_PLACE: map<SegmentId, nat> := map[7 := 1]
  const SHORT_ROUTE := Route([7], 60)

  /** Booking 0 created and granted the one place of segment 7. */
  function Granted0(): State {
    State(map[0 := Booking(9, 3, 0, Pending)],
          [Created(0, 9, 3, 0), Assessed(0, true)],
          [Row(0, Window(0, 7, 0, 0, 60))],
          ONE_PLACE, map[3 := SHORT_ROUTE], {(0, "a")}, {}, {}, [], [], 0, [], {}, map[0 := 1])
  }

  lemma GrantBooking0() returns (states: seq<State>, steps: seq<Step>)
    ensures IsRun(states, steps) && Last(states) == Granted0()
    ensures steps == [Create(0, 9, 3, 0), Assess(0, "a", true, 0)]
    ensures forall i :: 0 <= i < |steps| ==> Once(states[i], steps[i])
  {
    var s0 := State(map[], [], [], ONE_PLACE, map[3 := SHORT_ROUTE], {}, {}, {}, [], [], 0, [], {}, map[]);
    states, steps := Extend([s0], [], Create(0, 9, 3, 0));
    var s1 := Last(states);
    assert Table(s1) == [] && Fits([], ONE_PLACE, Windows(0, 0, SHORT_ROUTE)[0]);
    states, steps := Extend(states, steps, Assess(0, "a", true, 0));
    assert Windows(0, 0, SHORT_ROUTE) == [Window(0, 7, 0, 0, 60)];
    assert Tagged(0, [Window(0, 7, 0, 0, 60)]) == [Row(0, Window(0, 7, 0, 0, 60))];
    assert Last(states) == Granted0();
  }

  // ----- a creation assessed with both verdicts

  /** Orderly steps lead from `s` to `s'`. */
  ghost predicate LeadsOrderly(s: State, steps: seq<Step>, s': State) {
    if steps == [] then s' == s
    else exists m {:trigger LeadsOrderly(s, steps[..|steps| - 1], m)} ::
           LeadsOrderly(s, steps[..|steps| - 1], m) && OrderlyTakes(m, steps[|steps| - 1], s')
  }

  ghost predicate OrderlyTakes(s: State, step: Step, s': State) {
    Enabled(s, step) && Orderly(s, step) && s' == Next(s, step)
  }

  lemma OneMoreOrderly(s: State, steps: seq<Step>, m: State, step: Step, s': State)
    requires LeadsOrderly(s, steps, m) && OrderlyTakes(m, step, s')
    ensures LeadsOrderly(s, steps + [step], s')
  {
    assert (steps + [step])[..|steps|] == steps;
  }

  lemma OneMoreLeads(s: State, steps: seq<Step>, m: State, step: Step, s': State)
    requires Leads(s, steps, m) && OrderlyTakes(m, step, s')
    ensures Leads(s, steps + [step], s')
  {
    LeadsOneMore(s, steps, m, step);
  }

  lemma {:induction false} OrderlyIsLeads(s: State, steps: seq<Step>, s': State)
    requires LeadsOrderly(s, steps, s')
    ensures Leads(s, steps, s')
  {
    if steps != [] {
      var before, step := steps[..|steps| - 1], steps[|steps| - 1];
      var m :| LeadsOrderly(s, before, m) && OrderlyTakes(m, step, s');
      OrderlyIsLeads(s, before, m);
      OneMoreLeads(s, before, m, step, s');
      assert steps == before + [step];
    }
  }

  predicate Idle(s: State) {
    forall t :: 0 <= t < |s.threads| ==> s.threads[t].Finished?
  }

  /** The booking service consumes assessment `e` start to finish. */
  function Consumed(s: State, e: nat): State
    requires e < |s.log| && s.log[e].Assessed? && s.log[e].booking in s.bookings
  {
    WithStatus(s, s.log[e].booking, Verdict(s.log[e].available))
      .(applied := s.applied + {e}, marked := s.marked + {e}, threads := s.threads + [Finished])
  }

  lemma ConsumeNow(s0: State, before: seq<Step>, s: State, e: nat) returns (steps: seq<Step>)
    requires LeadsOrderly(s0, before, s)
    requires e < |s.log| && s.log[e].Assessed? && e !in s.marked && s.log[e].booking in s.bookings && Idle(s)
    ensures LeadsOrderly(s0, steps, Consumed(s, e))
  {
    var t := |s.threads|;
    var s1 := Next(s, StartHandling(e));
    OneMoreOrderly(s0, before, s, StartHandling(e), s1);
    var s2 := Next(s1, WriteStatus(t));
    OneMoreOrderly(s0, before + [StartHandling(e)], s1, WriteStatus(t), s2);
    assert s2.threads[t := Finished] == s.threads + [Finished];
    assert Next(s2, Mark(t)) == Consumed(s, e);
    steps := before + [StartHandling(e)] + [WriteStatus(t)] + [Mark(t)];
    OneMoreOrderly(s0, before + [StartHandling(e)] + [WriteStatus(t)], s2, Mark(t), Consumed(s, e));
  }

  /** From `s`, the positive assessments of `b` before `n` have been consumed and nothing else has happened. */
  ghost predicate GrantsConsumed(s: State, s': State, b: BookingId, n: nat) {
    && s.log <= s'.log
    && (forall i :: |s.log| <= i < |s'.log| ==> s'.log[i].Updated? && s'.log[i].status == Approved)
    && s'.rows == s.rows && s'.released == s.released && Idle(s') && b in s'.bookings
    && s'.marked <= s'.applied
    && (forall f :: f in s'.marked && f !in s.marked ==> f < |s.log| && s.log[f] == Assessed(b, true))
    && (forall f :: 0 <= f < n && Granted(s, b, f) ==> f in s'.marked)
  }

  lemma {:induction false} ConsumeGrants(s: State, b: BookingId, n: nat) returns (steps: seq<Step>, s': State)
    requires n <= |s.log| && b in s.bookings && Idle(s) && s.marked <= s.applied
    ensures LeadsOrderly(s, steps, s') && GrantsConsumed(s, s', b, n)
  {
    if n == 0 {
      steps, s' := [], s;
    } else {
      steps, s' := ConsumeGrants(s, b, n - 1);
      if Granted(s, b, n - 1) && n - 1 !in s'.marked {
        steps := ConsumeNow(s, steps, s', n - 1);
        OneMoreConsumed(s, s', b, n - 1);
        s' := Consumed(s', n - 1);
      }
    }
  }

  lemma OneMoreConsumed(s: State, s': State, b: BookingId, f: nat)
    requires GrantsConsumed(s, s', b, f) && Granted(s, b, f)
    ensures GrantsConsumed(s, Consumed(s', f), b, f + 1)
  {
    var s'' := Consumed(s', f);
    assert s''.log == s'.log + [Updated(b, s'.bookings[b].driver, Approved)];
    assert s''.marked == s'.marked + {f} && s''.applied == s'.applied + {f};
    assert s''.threads == s'.threads + [Finished];
  }

  /** The booking holds rows, is assessed negatively besides, and nothing that could free it is pending. */
  ghost predicate Doomed(s: State, b: BookingId, f: nat) {
    && b in s.bookings && Reserving(s, b) && s.marked <= s.applied && Idle(s)
    && f < |s.log| && s.log[f] == Assessed(b, false) && f !in s.marked
    && (forall c :: 0 <= c < |s.log| && s.log[c].Updated? && s.log[c].booking == b && Releases(s.log[c].status) ==> Seen(s.released, c))
  }

  /**
   * Assessing a creation again with the opposite verdict is what breaks the no-orphan property: in every state, a
   * booking that holds rows and has an unconsumed negative assessment beside its positive ones, with no release
   * due and nothing in flight, is driven by orderly steps to REJECTED, still holding its rows, with nothing left
   * that explains them.
   */
  lemma SecondAssessmentOrphans(s: State, b: BookingId, f: nat) returns (steps: seq<Step>, s': State)
    requires Doomed(s, b, f)
    ensures LeadsOrderly(s, steps, s')
    ensures s'.rows == s.rows && b in s'.bookings && s'.bookings[b].status == Rejected
    ensures !NoOrphan(s', b)
  {
    steps, s' := ConsumeGrants(s, b, |s.log|);
    steps := ConsumeNow(s, steps, s', f);
    s' := Consumed(s', f);
    forall g: nat ensures !Explained(s', b, g) {
      if Granted(s', b, g) {
        assert g < |s.log| && Granted(s, b, g);
      }
      forall c: nat ensures !ReleaseDue(s', b, g, c) {
        assert c < |s.log| && s'.log[c].Updated? ==> s'.log[c] == s.log[c];
      }
    }
  }

  lemma SecondCheckFails()
    ensures !Approves(Table(Granted0()), ONE_PLACE, 0, Some(SHORT_ROUTE))
  {
    var w, table := Windows(0, 0, SHORT_ROUTE)[0], Table(Granted0());
    assert table[0] == w && w in table && Overlapping(7, w.start, w.end)(w);
    CountPositive(table, Overlapping(7, w.start, w.end));
    assert !Fits(table, ONE_PLACE, w);
  }

  /** Booking 0's creation consumed once under each of two names. */
  lemma AssessedTwice() returns (states: seq<State>, steps: seq<Step>)
    ensures IsRun(states, steps) && steps == [Create(0, 9, 3, 0), Assess(0, "a", true, 0), Assess(0, "b", false, 1)]
    ensures Doomed(Last(states), 0, 2)
  {
    states, steps := GrantBooking0();
    assert Reserved(false, 0, 0, Some(SHORT_ROUTE)) == [] && Granted0().rows + Tagged(1, []) == Granted0().rows;
    states, steps := Extend(states, steps, Assess(0, "b", false, 1));
    TwiceIsDoomed(Last(states));
  }

  lemma TwiceIsDoomed(s: State)
    requires s == Granted0().(log := Granted0().log + [Assessed(0, false)], assessed := {(0, "a"), (0, "b")}, grants := map[0 := 1, 1 := 2])
    ensures Doomed(s, 0, 2)
  {
    assert s.rows[0] in s.rows && s.rows[0].window.booking == 0;
    assert s.log == [Created(0, 9, 3, 0), Assessed(0, true), Assessed(0, false)];
  }

  /**
   * And it does happen when booking.created is consumed once under each of two names: the second
   * assessment counts the first one's window and rightly refuses.
   */
  lemma SecondNameLeavesOrphan() returns (states: seq<State>, steps: seq<Step>)
    ensures IsRun(states, steps) && Assess(0, "a", true, 0) in steps && Assess(0, "b", false, 1) in steps
    ensures !NoOrphan(Last(states), 0) && 0 in Last(states).bookings && Last(states).bookings[0].status == Rejected
    // the second check fails on the first one's window
    ensures !Approves(Table(Granted0()), ONE_PLACE, 0, Some(SHORT_ROUTE))
  {
    SecondCheckFails();
    states, steps := AssessedTwice();
    assert steps[1] == Assess(0, "a", true, 0) && steps[2] == Assess(0, "b", false, 1);
    ghost var before := steps;
    var more, s' := SecondAssessmentOrphans(Last(states), 0, 2);
    OrderlyIsLeads(Last(states), more, s');
    states, steps := ExtendAll(states, steps, more, s');
    assert before <= steps;
  }

  // ----- terminal states

  /** The documentation calls terminal states final; a late assessment revives a cancelled booking. */
  lemma LateAssessmentRevives() returns (states: seq<State>, steps: seq<Step>, i: nat)
    ensures IsRun(states, steps) && i < |states| && forall k :: 0 <= k < |steps| ==> Once(states[k], steps[k])
    ensures 0 in states[i].bookings && states[i].bookings[0].status == Cancelled
    ensures 0 in Last(states).bookings && Last(states).bookings[0].status == Approved
  {
    states, steps := GrantBooking0();
    states, steps := Extend(states, steps, AskCancel(0, 9));
    states, steps := Extend(states, steps, WriteCancel(0));
    i := |states| - 1;
    ghost var cancelled := states[i];
    states, steps := Extend(states, steps, StartHandling(1));
    states, steps := Extend(states, steps, WriteStatus(1));
    assert states[i] == cancelled;
  }
}
