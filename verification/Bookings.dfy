/** Bookings, the events about them, and the Go booking service that writes both in one transaction. */
module Bookings {
  import opened Domain

  datatype Status = Pending | Approved | Rejected | Cancelled | Expired

  datatype Booking = Booking(driver: DriverId, routeId: RouteId, departure: Instant, status: Status)

  /** The payload of an outbox row; its constructor is its stream. Departures are formatted to the second. */
  datatype Event =
    | Created(booking: BookingId, driver: DriverId, routeId: RouteId, departure: Instant)
    | Assessed(booking: BookingId, available: bool)
    | Updated(booking: BookingId, driver: DriverId, status: Status)

  /** `Booking.CanTransition` */
  predicate CanTransition(from: Status, to: Status) {
    match from
    case Pending => to == Approved || to == Cancelled || to == Expired || to == Rejected
    case Approved => to == Cancelled || to == Expired
    case _ => false
  }

  /** Cancelling and expiring are for pending and approved bookings, an assessment for pending ones; nothing leads back. */
  lemma LiveBookingsMove(status: Status)
    ensures CanTransition(status, Cancelled) <==> status == Pending || status == Approved
    ensures CanTransition(status, Expired) <==> status == Pending || status == Approved
    ensures forall available :: CanTransition(status, Verdict(available)) <==> status == Pending
    ensures !CanTransition(status, Pending)
  {
  }

  /** The filter of `FindExpired`. */
  predicate Expirable(b: Booking, now: Instant) {
    b.departure < now && (b.status == Pending || b.status == Approved)
  }

  function Statuses(bookings: map<BookingId, Booking>): map<BookingId, Status> {
    map b | b in bookings :: bookings[b].status
  }

  /** Statuses rebuilt from the outbox log alone. */
  function Replay(log: seq<Event>): map<BookingId, Status> {
    if log == [] then map[]
    else
      var before := Replay(log[..|log| - 1]);
      match log[|log| - 1]
      case Created(b, _, _, _) => before[b := Pending]
      case Updated(b, _, status) => before[b := status]
      case Assessed(_, _) => before
  }

  /** The status written by an assessment. */
  function Verdict(available: bool): Status {
    if available then Approved else Rejected
  }

  lemma ReplayAppend(log: seq<Event>, e: Event)
    ensures Replay(log + [e]) ==
      match e
      case Created(b, _, _, _) => Replay(log)[b := Pending]
      case Updated(b, _, status) => Replay(log)[b := status]
      case Assessed(_, _) => Replay(log)
  {
    assert (log + [e])[..|log|] == log;
  }

  /** Setting a status and logging it keep table and log in step. */
  lemma UpdateKeepsReplay(bookings: map<BookingId, Booking>, log: seq<Event>, b: BookingId, status: Status)
    requires Replay(log) == Statuses(bookings) && b in bookings
    ensures Replay(log + [Updated(b, bookings[b].driver, status)]) == Statuses(bookings[b := bookings[b].(status := status)])
  {
    ReplayAppend(log, Updated(b, bookings[b].driver, status));
  }

  datatype Result<+T> = Ok(value: T) | NotFound | InvalidTransition | DatabaseError

  class BookingRepository {
    var bookings: map<BookingId, Booking>
    var outbox: seq<Event>
    var processed: set<(nat, string)>

    /** The log explains the table. */
    ghost predicate Valid()
      reads this
    {
      Replay(outbox) == Statuses(bookings)
    }

    constructor ()
      ensures Valid() && bookings == map[] && outbox == [] && processed == {}
    {
      bookings, outbox, processed := map[], [], {};
    }

    /**
     * Row and event commit together or, if the id is taken, not at all. The event says nothing of the status, so the log
     * goes on explaining the table exactly for a PENDING booking.
     */
    method Create(id: BookingId, booking: Booking, outcome: Outcome) returns (ok: bool)
      requires Valid()
      modifies this`bookings, this`outbox
      ensures ok <==> outcome == Done && id !in old(bookings)
      ensures
        if outcome != Failed && id !in old(bookings) then
          && bookings == old(bookings)[id := booking]
          && outbox == old(outbox) + [Created(id, booking.driver, booking.routeId, WholeSeconds(booking.departure))]
          && (Valid() <==> booking.status == Pending)
        else bookings == old(bookings) && outbox == old(outbox) && Valid()
    {
      if outcome == Failed || id in bookings {
        return false;
      }
      var event := Created(id, booking.driver, booking.routeId, WholeSeconds(booking.departure));
      ReplayAppend(outbox, event);
      bookings := bookings[id := booking];
      outbox := outbox + [event];
      assert Statuses(bookings)[id] == booking.status && Replay(outbox)[id] == Pending;
      return outcome == Done;
    }

    /** No guard on the current status: whatever it was, it becomes `status`. */
    method UpdateStatus(id: BookingId, status: Status, outcome: Outcome) returns (result: Result<Booking>)
      requires Valid()
      modifies this`bookings, this`outbox
      ensures Valid()
      ensures result ==
        if outcome == Failed then DatabaseError
        else if id !in old(bookings) then NotFound
        else if outcome == Lost then DatabaseError
        else Ok(old(bookings)[id].(status := status))
      ensures
        if outcome != Failed && id in old(bookings) then
          && bookings == old(bookings)[id := old(bookings)[id].(status := status)]
          && outbox == old(outbox) + [Updated(id, old(bookings)[id].driver, status)]
        else bookings == old(bookings) && outbox == old(outbox)
    {
      if outcome == Failed {
        return DatabaseError;
      }
      if id !in bookings {
        return NotFound;
      }
      UpdateKeepsReplay(bookings, outbox, id, status);
      var booking := bookings[id].(status := status);
      bookings := bookings[id := booking];
      outbox := outbox + [Updated(id, booking.driver, status)];
      return if outcome == Lost then DatabaseError else Ok(booking);
    }

    method GetById(id: BookingId, driver: DriverId) returns (found: Option<Booking>)
      ensures found == if id in bookings && bookings[id].driver == driver then Some(bookings[id]) else None
    {
      found := if id in bookings && bookings[id].driver == driver then Some(bookings[id]) else None;
    }

    /** Unguarded like UpdateStatus, except that the driver must match. */
    method Cancel(id: BookingId, driver: DriverId, outcome: Outcome) returns (result: Result<Booking>)
      requires Valid()
      modifies this`bookings, this`outbox
      ensures Valid()
      ensures result.Ok? <==> outcome == Done && id in old(bookings) && old(bookings)[id].driver == driver
      ensures result.Ok? ==> result.value == old(bookings)[id].(status := Cancelled)
      ensures
        if outcome != Failed && id in old(bookings) && old(bookings)[id].driver == driver then
          && bookings == old(bookings)[id := old(bookings)[id].(status := Cancelled)]
          && outbox == old(outbox) + [Updated(id, driver, Cancelled)]
        else bookings == old(bookings) && outbox == old(outbox)
    {
      var found := GetById(id, driver);
      if found.None? {
        return NotFound;
      }
      result := UpdateStatus(id, Cancelled, outcome);
    }

    method FindExpired(now: Instant) returns (found: seq<BookingId>)
      ensures Distinct(found)
      ensures forall b :: b in found <==>
        && b in bookings && bookings[b].departure < now
        && (bookings[b].status == Pending || bookings[b].status == Approved)
      ensures Elements(found) == set b | b in bookings && Expirable(bookings[b], now)
    {
      found := [];
      var remaining := set b | b in bookings && Expirable(bookings[b], now);
      ghost var all := remaining;
      while remaining != {}
        invariant remaining <= all && Elements(found) == all - remaining
        invariant Distinct(found)
        decreases remaining
      {
        var b :| b in remaining;
        assert Elements(found + [b]) == Elements(found) + {b};
        assert forall i :: 0 <= i < |found| ==> found[i] in Elements(found);
        found := found + [b];
        remaining := remaining - {b};
      }
      assert forall b :: b in found <==> b in Elements(found);
    }

    method IsEventProcessed(event: nat, consumer: string) returns (marked: bool)
      ensures marked <==> (event, consumer) in processed
    {
      marked := (event, consumer) in processed;
    }

    /** ON CONFLICT DO NOTHING */
    method MarkEventProcessed(event: nat, consumer: string) returns (inserted: bool)
      modifies this`processed
      ensures processed == old(processed) + {(event, consumer)}
      ensures inserted <==> (event, consumer) !in old(processed)
    {
      inserted := (event, consumer) !in processed;
      processed := processed + {(event, consumer)};
    }
  }

  /** The events an expiry pass emits: one EXPIRED update per booking it could write. */
  function ExpiryEvents(bookings: map<BookingId, Booking>, queue: seq<BookingId>, failing: set<BookingId>): seq<Event> {
    if queue == [] then []
    else
      var b := queue[|queue| - 1];
      ExpiryEvents(bookings, queue[..|queue| - 1], failing) +
      if b in bookings && b !in failing then [Updated(b, bookings[b].driver, Expired)] else []
  }

  /** The table after a pass over `queue`. */
  function AfterExpiry(bookings: map<BookingId, Booking>, queue: seq<BookingId>, failing: set<BookingId>): map<BookingId, Booking> {
    map b | b in bookings :: if b in queue && b !in failing then bookings[b].(status := Expired) else bookings[b]
  }

  /** The events are EXPIRED updates of the bookings in `expired`, one each. */
  ghost predicate OneEventEach(bookings: map<BookingId, Booking>, events: seq<Event>, expired: set<BookingId>) {
    && |events| == |expired|
    && (forall b :: b in expired ==> b in bookings && Updated(b, bookings[b].driver, Expired) in events)
    && (forall e :: e in events ==> e.Updated? && e.booking in expired)
  }

  /** The bookings of `queue` that a pass can write. */
  function Writable(bookings: map<BookingId, Booking>, queue: seq<BookingId>, failing: set<BookingId>): set<BookingId> {
    set b | b in queue && b in bookings && b !in failing
  }

  lemma {:induction false} ExpiryEventsOneEach(bookings: map<BookingId, Booking>, queue: seq<BookingId>, failing: set<BookingId>)
    requires Distinct(queue)
    ensures OneEventEach(bookings, ExpiryEvents(bookings, queue, failing), Writable(bookings, queue, failing))
  {
    if queue != [] {
      var front, last := queue[..|queue| - 1], queue[|queue| - 1];
      assert queue == front + [last] && last !in front;
      ExpiryEventsOneEach(bookings, front, failing);
      var before, all := Writable(bookings, front, failing), Writable(bookings, queue, failing);
      if last in bookings && last !in failing {
        assert all == before + {last};
        OneMoreEvent(bookings, ExpiryEvents(bookings, front, failing), before, last);
      } else {
        assert all == before;
        assert ExpiryEvents(bookings, queue, failing) == ExpiryEvents(bookings, front, failing);
      }
    }
  }

  lemma OneMoreEvent(bookings: map<BookingId, Booking>, events: seq<Event>, expired: set<BookingId>, b: BookingId)
    requires OneEventEach(bookings, events, expired) && b in bookings && b !in expired
    ensures OneEventEach(bookings, events + [Updated(b, bookings[b].driver, Expired)], expired + {b})
  {
  }

  /** Where the pass stands after the first `i` bookings of the queue. */
  ghost predicate ExpiredUpTo(before: map<BookingId, Booking>, log: seq<Event>, queue: seq<BookingId>, failing: set<BookingId>,
      i: nat, bookings: map<BookingId, Booking>, outbox: seq<Event>)
    requires i <= |queue|
  {
    && bookings == AfterExpiry(before, queue[..i], failing)
    && outbox == log + ExpiryEvents(before, queue[..i], failing)
  }

  lemma AfterOneMore(before: map<BookingId, Booking>, queue: seq<BookingId>, failing: set<BookingId>, i: nat)
    requires i < |queue| && Distinct(queue) && queue[i] in before
    ensures
      var b, now := queue[i], AfterExpiry(before, queue[..i], failing);
      && now[b] == before[b]
      && AfterExpiry(before, queue[..i + 1], failing) == if b in failing then now else now[b := before[b].(status := Expired)]
  {
    assert queue[..i + 1] == queue[..i] + [queue[i]];
    assert forall j :: 0 <= j < i ==> queue[j] != queue[i];
  }

  lemma EventsOneMore(before: map<BookingId, Booking>, queue: seq<BookingId>, failing: set<BookingId>, i: nat)
    requires i < |queue| && queue[i] in before
    ensures ExpiryEvents(before, queue[..i + 1], failing)
         == ExpiryEvents(before, queue[..i], failing) +
            if queue[i] in failing then [] else [Updated(queue[i], before[queue[i]].driver, Expired)]
  {
    assert queue[..i + 1][..i] == queue[..i];
  }

  lemma ExpireOneMore(before: map<BookingId, Booking>, log: seq<Event>, queue: seq<BookingId>, failing: set<BookingId>,
      i: nat, bookings: map<BookingId, Booking>, outbox: seq<Event>)
    requires i < |queue| && Distinct(queue) && queue[i] in before
    requires ExpiredUpTo(before, log, queue, failing, i, bookings, outbox)
    ensures queue[i] in bookings
    ensures
      var b := queue[i];
      if b in failing then ExpiredUpTo(before, log, queue, failing, i + 1, bookings, outbox)
      else ExpiredUpTo(before, log, queue, failing, i + 1,
        bookings[b := bookings[b].(status := Expired)], outbox + [Updated(b, bookings[b].driver, Expired)])
  {
    AfterOneMore(before, queue, failing, i);
    EventsOneMore(before, queue, failing, i);
    assert log + (ExpiryEvents(before, queue[..i], failing) + [Updated(queue[i], before[queue[i]].driver, Expired)])
        == outbox + [Updated(queue[i], before[queue[i]].driver, Expired)];
  }

  class BookingService {
    const repository: BookingRepository

    constructor (repository: BookingRepository)
      ensures this.repository == repository
    {
      this.repository := repository;
    }

    /** The id is a fresh uuid; the rest of the booking is the caller's. */
    method CreateBooking(booking: Booking, outcome: Outcome) returns (id: BookingId, ok: bool)
      requires repository.Valid()
      modifies repository`bookings, repository`outbox
      ensures id !in old(repository.bookings) && (ok <==> outcome == Done)
      ensures
        if outcome != Failed then
          && repository.bookings == old(repository.bookings)[id := booking]
          && repository.outbox == old(repository.outbox) + [Created(id, booking.driver, booking.routeId, WholeSeconds(booking.departure))]
          && (repository.Valid() <==> booking.status == Pending)
        else repository.bookings == old(repository.bookings) && repository.outbox == old(repository.outbox) && repository.Valid()
    {
      FreshIdExists(repository.bookings.Keys);
      id :| id !in repository.bookings.Keys;
      ok := repository.Create(id, booking, outcome);
    }

    /** An unknown booking is an error, so the consumer will retry the event. */
    method HandleRouteAssessed(id: BookingId, available: bool, outcome: Outcome) returns (ok: bool)
      requires repository.Valid()
      modifies repository`bookings, repository`outbox
      ensures repository.Valid()
      ensures ok <==> outcome == Done && id in old(repository.bookings)
      ensures
        if outcome != Failed && id in old(repository.bookings) then
          && repository.bookings == old(repository.bookings)[id := old(repository.bookings)[id].(status := Verdict(available))]
          && repository.outbox == old(repository.outbox) + [Updated(id, old(repository.bookings)[id].driver, Verdict(available))]
        else repository.bookings == old(repository.bookings) && repository.outbox == old(repository.outbox)
    {
      var status := Rejected;
      if available {
        status := Approved;
      }
      var result := repository.UpdateStatus(id, status, outcome);
      ok := result.Ok?;
    }

    /** With nothing in between, a cancel goes through exactly for the driver's own live bookings. */
    method CancelBooking(id: BookingId, driver: DriverId, outcome: Outcome) returns (result: Result<Booking>)
      requires repository.Valid()
      modifies repository`bookings, repository`outbox
      ensures repository.Valid()
      ensures
        var own := id in old(repository.bookings) && old(repository.bookings)[id].driver == driver;
        var allowed := own && (old(repository.bookings)[id].status == Pending || old(repository.bookings)[id].status == Approved);
        && (result == NotFound <==> !own)
        && (result == InvalidTransition <==> own && !allowed)
        && (result.Ok? <==> allowed && outcome == Done)
        && (if allowed && outcome != Failed then
              && repository.bookings == old(repository.bookings)[id := old(repository.bookings)[id].(status := Cancelled)]
              && repository.outbox == old(repository.outbox) + [Updated(id, driver, Cancelled)]
            else repository.bookings == old(repository.bookings) && repository.outbox == old(repository.outbox))
    {
      var booking := repository.GetById(id, driver);
      if booking.None? {
        return NotFound;
      }
      if !CanTransition(booking.value.status, Cancelled) {
        return InvalidTransition;
      }
      result := repository.Cancel(id, driver, outcome);
      if !result.Ok? {
        result := DatabaseError;
      }
    }

    /** One pass: every expirable booking that can be written expires, each with its event, and nothing else changes. */
    method ExpireBookings(now: Instant, failing: set<BookingId>, lost: set<BookingId>) returns (queue: seq<BookingId>)
      requires repository.Valid()
      modifies repository`bookings, repository`outbox
      ensures repository.Valid()
      ensures Elements(queue) == set b | b in old(repository.bookings) && Expirable(old(repository.bookings)[b], now)
      ensures repository.bookings == AfterExpiry(old(repository.bookings), queue, failing)
      ensures repository.outbox == old(repository.outbox) + ExpiryEvents(old(repository.bookings), queue, failing)
      // a live booking past departure has expired, unless its write failed, and every other booking is as it was
      ensures repository.bookings == map b | b in old(repository.bookings) ::
        var was := old(repository.bookings)[b];
        if was.departure < now && (was.status == Pending || was.status == Approved) && b !in failing
        then was.(status := Expired) else was
      // one event for each of those, and no other
      ensures OneEventEach(old(repository.bookings), repository.outbox[|old(repository.outbox)|..],
        set b | b in old(repository.bookings) && repository.bookings[b] != old(repository.bookings)[b])
      // so a second pass at the same time finds only what the first could not write
      ensures forall b :: b in repository.bookings && Expirable(repository.bookings[b], now) ==> b in failing
    {
      queue := repository.FindExpired(now);
      NothingLeftToExpire(repository.bookings, now, queue, failing);
      WhatExpires(repository.bookings, now, queue, failing);
      ghost var log, events := repository.outbox, ExpiryEvents(repository.bookings, queue, failing);
      ExpireAll(queue, failing, lost);
      assert (log + events)[|log|..] == events;
    }

    /** The loop over the bookings found: `failing` ones roll back, `lost` ones commit but report an error, and both are skipped over. */
    method ExpireAll(queue: seq<BookingId>, failing: set<BookingId>, lost: set<BookingId>)
      requires repository.Valid()
      requires Distinct(queue) && forall b :: b in queue ==> b in repository.bookings
      modifies repository`bookings, repository`outbox
      ensures repository.Valid()
      ensures repository.bookings == AfterExpiry(old(repository.bookings), queue, failing)
      ensures repository.outbox == old(repository.outbox) + ExpiryEvents(old(repository.bookings), queue, failing)
    {
      ghost var before, log := repository.bookings, repository.outbox;
      for i := 0 to |queue|
        invariant repository.Valid()
        invariant ExpiredUpTo(before, log, queue, failing, i, repository.bookings, repository.outbox)
      {
        ExpireOneMore(before, log, queue, failing, i, repository.bookings, repository.outbox);
        var outcome := if queue[i] in failing then Failed else if queue[i] in lost then Lost else Done;
        var updated := repository.UpdateStatus(queue[i], Expired, outcome);
      }
      assert queue[..|queue|] == queue;
    }
  }

  /** What a pass over the queue found changes, and the events for it. */
  lemma WhatExpires(bookings: map<BookingId, Booking>, now: Instant, queue: seq<BookingId>, failing: set<BookingId>)
    requires Distinct(queue)
    requires Elements(queue) == set b | b in bookings && Expirable(bookings[b], now)
    ensures
      var after := AfterExpiry(bookings, queue, failing);
      && after == (map b | b in bookings ::
           var was := bookings[b];
           if was.departure < now && (was.status == Pending || was.status == Approved) && b !in failing
           then was.(status := Expired) else was)
      && OneEventEach(bookings, ExpiryEvents(bookings, queue, failing), set b | b in bookings && after[b] != bookings[b])
  {
    assert forall b :: b in queue <==> b in Elements(queue);
    ExpiryEventsOneEach(bookings, queue, failing);
    var after := AfterExpiry(bookings, queue, failing);
    assert Writable(bookings, queue, failing) == set b | b in bookings && after[b] != bookings[b];
  }

  lemma NothingLeftToExpire(bookings: map<BookingId, Booking>, now: Instant, queue: seq<BookingId>, failing: set<BookingId>)
    requires Elements(queue) == set b | b in bookings && Expirable(bookings[b], now)
    ensures forall b :: b in queue ==> b in bookings
    ensures forall b :: b in bookings && Expirable(AfterExpiry(bookings, queue, failing)[b], now) ==> b in failing
  {
    assert forall b :: b in queue <==> b in Elements(queue);
  }
}
