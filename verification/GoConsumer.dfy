/**
 * The booking service's own consumer of route.assessed. Unlike the Python consumers it checks, handles and
 * marks an event in three separate transactions, and acknowledges even when the dead-letter write failed.
 */
module GoConsumer {
  import opened Domain
  import opened Bookings

  type EventId = nat

  const NAME := "booking-service"
  const MAX_ATTEMPTS := 3

  /** A route.assessed message. */
  datatype Message = Message(event: EventId, booking: BookingId, available: bool)

  /** How an attempt's three transactions fare. */
  datatype Faults = Faults(lookup: bool, write: Outcome, mark: Outcome)

  datatype Store = Store(bookings: map<BookingId, Booking>, outbox: seq<Event>, processed: set<(nat, string)>)

  /** The update event that handling `m` logs. */
  function UpdateFor(s: Store, m: Message): Event
    requires m.booking in s.bookings
  {
    Updated(m.booking, s.bookings[m.booking].driver, Verdict(m.available))
  }

  function Written(s: Store, m: Message): Store
    requires m.booking in s.bookings
  {
    s.(bookings := s.bookings[m.booking := s.bookings[m.booking].(status := Verdict(m.available))],
       outbox := s.outbox + [UpdateFor(s, m)])
  }

  function Marked(s: Store, m: Message): Store {
    s.(processed := s.processed + {(m.event, NAME)})
  }

  /** `handleMessage`: the status is written before the event is marked. */
  function Handle(s: Store, m: Message, f: Faults): (Store, bool) {
    if f.lookup then (s, false)
    else if (m.event, NAME) in s.processed then (s, true)
    else if f.write == Failed || m.booking !in s.bookings then (s, false)
    else if f.write == Lost || f.mark == Failed then (Written(s, m), false)
    else (Marked(Written(s, m), m), f.mark == Done)
  }

  function Retry(s: Store, m: Message, faults: seq<Faults>): (Store, bool)
    decreases faults
  {
    if faults == [] then (s, false)
    else
      var (after, ok) := Handle(s, m, faults[0]);
      if ok then (after, true) else Retry(after, m, faults[1..])
  }

  function Repeat(e: Event, k: nat): seq<Event> {
    if k == 0 then [] else [e] + Repeat(e, k - 1)
  }

  /** The attempt's status update commits, whatever it reports. */
  predicate Writes(f: Faults) {
    !f.lookup && f.write != Failed
  }

  /** The attempt gets as far as a mark that commits, whatever that reports. */
  predicate Marks(f: Faults) {
    !f.lookup && f.write == Done && f.mark != Failed
  }

  /** How often the status is written before the event is marked. */
  function CountWrites(faults: seq<Faults>): nat {
    if faults == [] then 0
    else (if Writes(faults[0]) then 1 else 0) + if Marks(faults[0]) then 0 else CountWrites(faults[1..])
  }

  predicate SomeMark(faults: seq<Faults>) {
    exists f :: f in faults && Marks(f)
  }

  predicate SomeLookup(faults: seq<Faults>) {
    exists f :: f in faults && !f.lookup
  }

  /** The loop returns normally: some attempt's mark reports success, or a later attempt finds the mark it left. */
  predicate Returns(faults: seq<Faults>) {
    exists i :: 0 <= i < |faults| && Marks(faults[i]) &&
      (faults[i].mark == Done || exists j :: i < j < |faults| && !faults[j].lookup)
  }

  lemma LookupAt(faults: seq<Faults>, i: nat)
    requires i <= |faults|
    ensures SomeLookup(faults[i..]) <==> exists j :: i <= j < |faults| && !faults[j].lookup
  {
    if SomeLookup(faults[i..]) {
      var f :| f in faults[i..] && !f.lookup;
      var k :| 0 <= k < |faults[i..]| && faults[i..][k] == f;
      assert !faults[i + k].lookup;
    }
    if j :| i <= j < |faults| && !faults[j].lookup {
      assert faults[i..][j - i] == faults[j] && faults[j] in faults[i..];
    }
  }

  /** Attempt by attempt: the first mark that commits decides. */
  lemma ReturnsFirst(faults: seq<Faults>)
    requires faults != []
    ensures Returns(faults) <==>
      if Marks(faults[0]) then faults[0].mark == Done || SomeLookup(faults[1..]) else Returns(faults[1..])
  {
    var rest := faults[1..];
    LookupAt(faults, 1);
    assert forall i :: 0 <= i < |rest| ==> rest[i] == faults[i + 1];
    assert forall i :: 1 <= i < |faults| ==> faults[i] == rest[i - 1];
    if Returns(rest) {
      var i :| 0 <= i < |rest| && Marks(rest[i]) &&
        (rest[i].mark == Done || exists j :: i < j < |rest| && !rest[j].lookup);
      if j :| i < j < |rest| && !rest[j].lookup {
        assert !faults[j + 1].lookup;
      }
      assert Marks(faults[i + 1]);
    }
  }

  /** An event already marked is not handled again, whatever fails, and the loop returns once a lookup works. */
  lemma {:induction false} MarkedEventIsSkipped(s: Store, m: Message, faults: seq<Faults>)
    requires (m.event, NAME) in s.processed
    ensures Retry(s, m, faults) == (s, SomeLookup(faults))
    decreases faults
  {
    if faults != [] {
      MarkedEventIsSkipped(s, m, faults[1..]);
      assert faults == [faults[0]] + faults[1..];
      assert faults[0] in faults;
    }
  }

  /**
   * Retrying an unmarked event for a known booking writes the same status and logs the same update once per
   * attempt whose write committed before the event was marked: repeats duplicate the event but cannot
   * change the outcome. The mark is there exactly if some attempt's mark committed.
   */
  lemma {:induction false} RetryRepeatsOneUpdate(s: Store, m: Message, faults: seq<Faults>)
    requires m.booking in s.bookings && (m.event, NAME) !in s.processed
    ensures
      var (after, ok) := Retry(s, m, faults);
      && after.outbox == s.outbox + Repeat(UpdateFor(s, m), CountWrites(faults))
      && after.bookings ==
           (if CountWrites(faults) == 0 then s.bookings
            else s.bookings[m.booking := s.bookings[m.booking].(status := Verdict(m.available))])
      && after.processed == (if SomeMark(faults) then s.processed + {(m.event, NAME)} else s.processed)
      && (ok <==> Returns(faults))
    decreases faults
  {
    if faults == [] {
      assert s.outbox + [] == s.outbox;
    } else {
      var f, rest := faults[0], faults[1..];
      assert faults == [f] + rest && f in faults;
      assert SomeMark(faults) <==> Marks(f) || SomeMark(rest);
      ReturnsFirst(faults);
      var (after, ok) := Handle(s, m, f);
      var e := UpdateFor(s, m);
      if Marks(f) {
        assert Repeat(e, 1) == [e];
        MarkedEventIsSkipped(after, m, rest);
      } else {
        RetryRepeatsOneUpdate(after, m, rest);
        assert UpdateFor(after, m) == e;
        if Writes(f) {
          assert s.outbox + ([e] + Repeat(e, CountWrites(rest))) == s.outbox + [e] + Repeat(e, CountWrites(rest));
        }
      }
    }
  }

  /** An unknown booking is retried and then given up on. */
  lemma {:induction false} UnknownBookingGivenUp(s: Store, m: Message, faults: seq<Faults>)
    requires m.booking !in s.bookings && (m.event, NAME) !in s.processed
    ensures Retry(s, m, faults) == (s, false)
    decreases faults
  {
    if faults != [] {
      UnknownBookingGivenUp(s, m, faults[1..]);
    }
  }

  /** The loop returns only once the mark is there. */
  lemma ReturnsMarked(faults: seq<Faults>)
    requires Returns(faults)
    ensures SomeMark(faults)
  {
    var i :| 0 <= i < |faults| && Marks(faults[i]);
    assert faults[i] in faults;
  }

  // ----- acknowledging

  datatype State = State(store: Store, dlq: seq<Message>, acked: seq<Message>)

  /**
   * One message of the loop in `run`: a failed dead-letter write is only logged, the acknowledgement follows anyway,
   * and an error of the acknowledgement itself is ignored.
   */
  function Consume(s: State, m: Message, faults: seq<Faults>, dlqUp: bool, ackUp: bool): State {
    var (store, ok) := Retry(s.store, m, faults);
    State(store, if !ok && dlqUp then s.dlq + [m] else s.dlq, if ackUp then s.acked + [m] else s.acked)
  }

  /** The message is dealt with: a lookup finds it marked before, or its booking is known and the attempts get it marked. */
  predicate DealtWith(s: Store, m: Message, faults: seq<Faults>) {
    if (m.event, NAME) in s.processed then SomeLookup(faults) else m.booking in s.bookings && Returns(faults)
  }

  /**
   * The dead-letter stream gets exactly the messages that could not be dealt with, one copy each and only while it is up;
   * one that was dealt with leaves it alone.
   */
  lemma DeadLettersAreFailures(s: State, m: Message, faults: seq<Faults>, dlqUp: bool, ackUp: bool)
    ensures Consume(s, m, faults, dlqUp, ackUp).dlq ==
      if DealtWith(s.store, m, faults) || !dlqUp then s.dlq else s.dlq + [m]
    ensures Consume(s, m, faults, dlqUp, ackUp).acked == if ackUp then s.acked + [m] else s.acked
  {
    if (m.event, NAME) in s.store.processed {
      MarkedEventIsSkipped(s.store, m, faults);
    } else if m.booking in s.store.bookings {
      RetryRepeatsOneUpdate(s.store, m, faults);
    } else {
      UnknownBookingGivenUp(s.store, m, faults);
    }
  }

  /** The message left a mark of having been handled, or a copy to look at. */
  predicate Traced(s: State, m: Message) {
    (m.event, NAME) in s.store.processed || m in s.dlq
  }

  /**
   * Whether the message is acknowledged has nothing to do with how it fared; it leaves a trace exactly if the dead-letter
   * stream is up, or the booking is known and some attempt's mark committed, even one reported as failed.
   */
  lemma AckedWithoutTrace(s: State, m: Message, faults: seq<Faults>, dlqUp: bool, ackUp: bool)
    requires !Traced(s, m)
    ensures m in Consume(s, m, faults, dlqUp, ackUp).acked <==> ackUp || m in s.acked
    ensures Traced(Consume(s, m, faults, dlqUp, ackUp), m) <==> dlqUp || (m.booking in s.store.bookings && SomeMark(faults))
  {
    if m.booking in s.store.bookings {
      RetryRepeatsOneUpdate(s.store, m, faults);
      if Returns(faults) {
        ReturnsMarked(faults);
      }
    } else {
      UnknownBookingGivenUp(s.store, m, faults);
    }
  }

  /** It does happen: three failed writes and a dead-letter stream that is down lose an acknowledged message. */
  lemma LostMessage(s: State, m: Message)
    requires !Traced(s, m)
    ensures
      var failed := Faults(false, Failed, Failed);
      var s' := Consume(s, m, [failed, failed, failed], false, true);
      m in s'.acked && !Traced(s', m)
  {
    var failed := Faults(false, Failed, Failed);
    AckedWithoutTrace(s, m, [failed, failed, failed], false, true);
  }

  class Consumer {
    const service: BookingService
    var dlq: seq<Message>
    var acked: seq<Message>

    constructor (service: BookingService)
      ensures this.service == service && dlq == [] && acked == []
    {
      this.service := service;
      dlq, acked := [], [];
    }

    function Tables(): Store
      reads service.repository
    {
      Store(service.repository.bookings, service.repository.outbox, service.repository.processed)
    }

    method HandleMessage(m: Message, f: Faults) returns (ok: bool)
      requires service.repository.Valid()
      modifies service.repository
      ensures service.repository.Valid()
      ensures (Tables(), ok) == Handle(old(Tables()), m, f)
    {
      if f.lookup {
        return false;
      }
      var already := service.repository.IsEventProcessed(m.event, NAME);
      if already {
        return true;
      }
      ghost var before := Tables();
      ok := service.HandleRouteAssessed(m.booking, m.available, f.write);
      assert Tables() == if f.write != Failed && m.booking in before.bookings then Written(before, m) else before;
      if !ok {
        return;
      }
      if f.mark == Failed {
        return false;
      }
      var inserted := service.repository.MarkEventProcessed(m.event, NAME);
      assert Tables() == Marked(Written(before, m), m);
      ok := f.mark == Done;
    }

    method HandleMessageWithRetry(m: Message, faults: seq<Faults>) returns (ok: bool)
      requires service.repository.Valid() && |faults| == 3
      modifies service.repository
      ensures service.repository.Valid()
      ensures (Tables(), ok) == Retry(old(Tables()), m, faults)
      ensures ok <==> DealtWith(old(Tables()), m, faults)
    {
      DeadLettersAreFailures(State(Tables(), [], []), m, faults, true, true);
      ghost var before := Tables();
      for attempt := 0 to MAX_ATTEMPTS
        invariant service.repository.Valid()
        invariant Retry(before, m, faults) == Retry(Tables(), m, faults[attempt..])
      {
        assert faults[attempt..][1..] == faults[attempt + 1..];
        ok := HandleMessage(m, faults[attempt]);
        if ok {
          return;
        }
      }
      return false;
    }

    /** The body of the loop over messages. */
    method ConsumeMessage(m: Message, faults: seq<Faults>, dlqUp: bool, ackUp: bool)
      requires service.repository.Valid() && |faults| == 3
      modifies this, service.repository
      ensures service.repository.Valid()
      ensures State(Tables(), dlq, acked) == Consume(old(State(Tables(), dlq, acked)), m, faults, dlqUp, ackUp)
      ensures dlq == if DealtWith(old(Tables()), m, faults) || !dlqUp then old(dlq) else old(dlq) + [m]
      ensures acked == if ackUp then old(acked) + [m] else old(acked)
    {
      DeadLettersAreFailures(State(Tables(), dlq, acked), m, faults, dlqUp, ackUp);
      var ok := HandleMessageWithRetry(m, faults);
      if !ok && dlqUp {
        dlq := dlq + [m];
      }
      if ackUp {
        acked := acked + [m];
      }
    }
  }
}
