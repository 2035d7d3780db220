/**
 * The Go consumer's retry loop is a stretch of saga steps: whatever its three attempts do to the tables,
 * the saga machine can do too, so the saga's invariants hold around it.
 */
module GoRefinement {
  import opened Bookings
  import GoConsumer
  import Saga
  import SagaProofs

  /** The booking service's own part of the log. */
  function OwnEvents(log: seq<Event>): seq<Event> {
    if log == [] then []
    else OwnEvents(log[..|log| - 1]) + if log[|log| - 1].Assessed? then [] else [log[|log| - 1]]
  }

  function Marks(events: set<nat>): set<(nat, string)> {
    set e | e in events :: (e, GoConsumer.NAME)
  }

  /** The booking service's database in a saga state. */
  function Tables(s: Saga.State): GoConsumer.Store {
    GoConsumer.Store(s.bookings, OwnEvents(s.log), Marks(s.marked))
  }

  function MessageOf(s: Saga.State, e: nat): GoConsumer.Message
    requires e < |s.log| && s.log[e].Assessed?
  {
    GoConsumer.Message(e, s.log[e].booking, s.log[e].available)
  }

  predicate GoStep(step: Saga.Step) {
    step.StartHandling? || step.WriteStatus? || step.Mark? || step.Crash?
  }

  /** Go steps keep the saga's invariant and its log. */
  lemma {:induction false} GoStepsKeep(s: Saga.State, steps: seq<Saga.Step>, s': Saga.State)
    requires Saga.Leads(s, steps, s') && forall step :: step in steps ==> GoStep(step)
    ensures s.log <= s'.log
    ensures Saga.Sound(s) ==> Saga.Sound(s')
    ensures Saga.Inv(s) ==> Saga.Inv(s')
    decreases steps
  {
    if steps != [] {
      assert steps == [steps[0]] + steps[1..];
      assert GoStep(steps[0]) && s.log <= Saga.Next(s, steps[0]).log;
      if Saga.Sound(s) {
        SagaProofs.StepKeepsSound(s, steps[0]);
      }
      if Saga.Inv(s) {
        SagaProofs.StepKeepsInv(s, steps[0]);
      }
      GoStepsKeep(Saga.Next(s, steps[0]), steps[1..], s');
    }
  }

  lemma MarksAt(events: set<nat>, e: nat)
    ensures (e, GoConsumer.NAME) in Marks(events) <==> e in events
    ensures Marks(events + {e}) == Marks(events) + {(e, GoConsumer.NAME)}
  {
  }

  lemma OwnAppend(log: seq<Event>, e: Event)
    requires !e.Assessed?
    ensures OwnEvents(log + [e]) == OwnEvents(log) + [e]
  {
    assert (log + [e])[..|log|] == log;
  }

  /** The saga state in which a new code path has written event `e`'s status. */
  lemma StatusSteps(s: Saga.State, e: nat) returns (written: Saga.State)
    requires e < |s.log| && s.log[e].Assessed? && e !in s.marked && s.log[e].booking in s.bookings
    ensures Saga.Leads(s, [Saga.StartHandling(e), Saga.WriteStatus(|s.threads|)], written)
    ensures written.threads == s.threads + [Saga.Handling(e, true)] && written.marked == s.marked
    ensures
      var m, t := MessageOf(s, e), Tables(s);
      Tables(written) == t.(
        bookings := t.bookings[m.booking := t.bookings[m.booking].(status := Verdict(m.available))],
        outbox := t.outbox + [GoConsumer.UpdateFor(t, m)])
  {
    var started := Saga.Next(s, Saga.StartHandling(e));
    var write := Saga.WriteStatus(|s.threads|);
    written := Saga.Next(started, write);
    assert Saga.Leads(s, [], s) && [] + [Saga.StartHandling(e)] == [Saga.StartHandling(e)];
    SagaProofs.LeadsOneMore(s, [], s, Saga.StartHandling(e));
    SagaProofs.LeadsOneMore(s, [Saga.StartHandling(e)], started, write);
    assert [Saga.StartHandling(e)] + [write] == [Saga.StartHandling(e), write];
    OwnAppend(s.log, GoConsumer.UpdateFor(Tables(s), MessageOf(s, e)));
  }

  /** One attempt of `handleMessage`, with whatever faults, is a stretch of saga steps. */
  lemma AttemptIsSagaSteps(s: Saga.State, e: nat, f: GoConsumer.Faults) returns (s': Saga.State, steps: seq<Saga.Step>)
    requires e < |s.log| && s.log[e].Assessed?
    ensures Saga.Leads(s, steps, s') && forall step :: step in steps ==> GoStep(step)
    ensures Tables(s') == GoConsumer.Handle(Tables(s), MessageOf(s, e), f).0
  {
    s', steps := s, [];
    MarksAt(s.marked, e);
    if GoConsumer.Writes(f) && e !in s.marked && s.log[e].booking in s.bookings {
      var t := |s.threads|;
      var written := StatusSteps(s, e);
      steps := [Saga.StartHandling(e), Saga.WriteStatus(t)];
      var last := if GoConsumer.Marks(f) then Saga.Mark(t) else Saga.Crash(t);
      s' := Saga.Next(written, last);
      SagaProofs.LeadsOneMore(s, steps, written, last);
      steps := steps + [last];
    }
  }

  /**
   * The whole retry loop refines the saga: the tables it leaves are those some stretch of Go saga steps
   * leaves, and the saga's invariants survive it.
   */
  lemma {:induction false} RetryIsSagaSteps(s: Saga.State, e: nat, faults: seq<GoConsumer.Faults>)
      returns (s': Saga.State, steps: seq<Saga.Step>)
    requires e < |s.log| && s.log[e].Assessed?
    ensures Saga.Leads(s, steps, s') && forall step :: step in steps ==> GoStep(step)
    ensures Tables(s') == GoConsumer.Retry(Tables(s), MessageOf(s, e), faults).0
    ensures (Saga.Sound(s) ==> Saga.Sound(s')) && (Saga.Inv(s) ==> Saga.Inv(s'))
    decreases faults
  {
    if faults == [] {
      s', steps := s, [];
    } else {
      var m := MessageOf(s, e);
      var after, first := AttemptIsSagaSteps(s, e, faults[0]);
      GoStepsKeep(s, first, after);
      if GoConsumer.Handle(Tables(s), m, faults[0]).1 {
        s', steps := after, first;
      } else {
        assert MessageOf(after, e) == m;
        var rest;
        s', rest := RetryIsSagaSteps(after, e, faults[1..]);
        SagaProofs.LeadsOn(s, first, after, rest, s');
        steps := first + rest;
      }
    }
  }
}
