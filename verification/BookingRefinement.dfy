/** The booking service's own requests, as its methods carry them out, are stretches of saga steps. */
module BookingRefinement {
  import opened Domain
  import opened Bookings
  import opened SagaProofs
  import Saga

  lemma OneLeads(s: Saga.State, step: Saga.Step)
    requires Saga.Enabled(s, step)
    ensures Saga.Leads(s, [step], Saga.Next(s, step))
  {
    assert [step][1..] == [] && Saga.Leads(Saga.Next(s, step), [], Saga.Next(s, step));
  }

  /** What `CancelBooking` does for the driver of a live booking: the check, then row and event. */
  lemma CancelIsSagaSteps(s: Saga.State, b: BookingId) returns (steps: seq<Saga.Step>, s': Saga.State)
    requires b in s.bookings && (s.bookings[b].status == Pending || s.bookings[b].status == Approved)
    ensures Saga.Leads(s, steps, s')
    ensures s' == s.(
      bookings := s.bookings[b := s.bookings[b].(status := Cancelled)],
      log := s.log + [Updated(b, s.bookings[b].driver, Cancelled)],
      threads := s.threads + [Saga.Finished])
  {
    var ask, cancel := Saga.AskCancel(b, s.bookings[b].driver), Saga.WriteCancel(|s.threads|);
    var asked := Saga.Next(s, ask);
    s' := Saga.Next(asked, cancel);
    OneLeads(s, ask);
    LeadsOneMore(s, [ask], asked, cancel);
    steps := [ask] + [cancel];
    assert s'.threads == s.threads + [Saga.Finished];
  }

  // ----- an expiry pass

  /** The saga with a pass over `queue` that has got past the first `i` bookings. */
  function Expired(s: Saga.State, queue: seq<BookingId>, failing: set<BookingId>, i: nat): Saga.State
    requires i <= |queue|
  {
    s.(bookings := AfterExpiry(s.bookings, queue[..i], failing),
       log := s.log + ExpiryEvents(s.bookings, queue[..i], failing),
       threads := s.threads + [Saga.Expiring(queue[i..])])
  }

  /** The next booking is written or, if that fails, passed over. */
  lemma ExpiredOneMore(s: Saga.State, queue: seq<BookingId>, failing: set<BookingId>, i: nat) returns (step: Saga.Step)
    requires i < |queue| && Distinct(queue) && queue[i] in s.bookings
    ensures Saga.Enabled(Expired(s, queue, failing, i), step)
    ensures Saga.Next(Expired(s, queue, failing, i), step) == Expired(s, queue, failing, i + 1)
  {
    var now, t := Expired(s, queue, failing, i), |s.threads|;
    AfterOneMore(s.bookings, queue, failing, i);
    EventsOneMore(s.bookings, queue, failing, i);
    assert queue[i..][0] == queue[i] && queue[i..][1..] == queue[i + 1..];
    assert now.threads[t := Saga.Expiring(queue[i + 1..])] == s.threads + [Saga.Expiring(queue[i + 1..])];
    if queue[i] in failing {
      step := Saga.SkipExpired(t);
      assert s.log + (ExpiryEvents(s.bookings, queue[..i], failing) + []) == now.log;
    } else {
      step := Saga.WriteExpired(t);
      assert now.log + [Updated(queue[i], s.bookings[queue[i]].driver, Bookings.Expired)]
          == s.log + (ExpiryEvents(s.bookings, queue[..i], failing) + [Updated(queue[i], s.bookings[queue[i]].driver, Bookings.Expired)]);
    }
  }

  lemma {:induction false} ExpiredUpTo(s: Saga.State, queue: seq<BookingId>, failing: set<BookingId>, i: nat)
      returns (steps: seq<Saga.Step>)
    requires i <= |queue| && Distinct(queue) && Saga.Enabled(s, Saga.ScanExpired(queue))
    ensures Saga.Leads(s, steps, Expired(s, queue, failing, i))
  {
    if i == 0 {
      OneLeads(s, Saga.ScanExpired(queue));
      NothingYet(s, queue, failing);
      steps := [Saga.ScanExpired(queue)];
    } else {
      var before := ExpiredUpTo(s, queue, failing, i - 1);
      assert queue[i - 1] in Elements(queue);
      var step := ExpiredOneMore(s, queue, failing, i - 1);
      LeadsOneMore(s, before, Expired(s, queue, failing, i - 1), step);
      steps := before + [step];
    }
  }

  lemma NothingYet(s: Saga.State, queue: seq<BookingId>, failing: set<BookingId>)
    requires Saga.Enabled(s, Saga.ScanExpired(queue))
    ensures Saga.Next(s, Saga.ScanExpired(queue)) == Expired(s, queue, failing, 0)
  {
    assert queue[..0] == [] && queue[0..] == queue;
    assert AfterExpiry(s.bookings, [], failing) == s.bookings;
    assert s.log + [] == s.log;
  }

  /**
   * What `ExpireBookings` does with the live bookings past departure, in whatever order they are found and whichever
   * writes fail: the table and the events are those of a saga pass.
   */
  lemma ExpiryIsSagaSteps(s: Saga.State, queue: seq<BookingId>, failing: set<BookingId>)
      returns (steps: seq<Saga.Step>, s': Saga.State)
    requires Distinct(queue)
    requires forall b :: b in queue <==>
      && b in s.bookings && s.bookings[b].departure < s.now
      && (s.bookings[b].status == Pending || s.bookings[b].status == Approved)
    ensures Saga.Leads(s, steps, s')
    ensures s' == s.(
      bookings := AfterExpiry(s.bookings, queue, failing),
      log := s.log + ExpiryEvents(s.bookings, queue, failing),
      threads := s.threads + [Saga.Finished])
  {
    var before := ExpiredUpTo(s, queue, failing, |queue|);
    var done, finish := Expired(s, queue, failing, |queue|), Saga.EndExpiry(|s.threads|);
    assert queue[..|queue|] == queue && queue[|queue|..] == [];
    LeadsOneMore(s, before, done, finish);
    steps, s' := before + [finish], Saga.Next(done, finish);
    assert s'.threads == s.threads + [Saga.Finished];
  }
}
