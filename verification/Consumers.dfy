/**
 * The Python consumers in full: the effect, the processed-event key and (for assessments) the outbox event
 * are one transaction, inside a retry loop, inside the loop over the entries of a batch.
 */
module Consumers {
  import opened Bookings
  import opened Handlers
  import opened Delivery
  import opened Segmentation
  import ConflictDetection
  import Saga

  /** What a transaction ends with; it commits unless `RollsBack`. */
  function Ending(present: bool, attempt: Attempt): Raised {
    if attempt == FailsBeforeCommit then OtherError
    else if present then IntegrityError
    else if attempt == Succeeds then Nothing
    else OtherError
  }

  predicate RollsBack(present: bool, attempt: Attempt) {
    present || !Commits(attempt)
  }

  class ConflictConsumer {
    const service: ConflictDetection.ConflictService
    var processed: set<(nat, string)>
    var outbox: seq<Event>

    constructor (service: ConflictDetection.ConflictService)
      ensures this.service == service && processed == {} && outbox == []
    {
      this.service := service;
      processed, outbox := {}, [];
    }

    /** Conflict detection's half of the tables. */
    function Now(): Tables
      reads this, service.reservations, service.routes, service.segments
    {
      Tables(
        service.reservations.rows, ConflictDetection.Routes(service.routes.rows),
        Capacities(service.segments.rows), processed, outbox, [], {})
    }

    /** `handle_booking_created`: assess, mark, enqueue the verdict, commit; ending the transaction frees its locks. */
    method HandleBookingCreated(job: Job, attempt: Attempt) returns (raised: Raised)
      requires job.AssessJob? && WellFormed(job)
      modifies this, service.segments`locks, service.reservations
      ensures (Now(), raised) == Handle(old(Now()), job, attempt)
      ensures service.segments.locks == []
    {
      var committed := service.reservations.rows;
      var order := job.order;
      var result := service.AssessAndReserve(order.booking, order.routeId, order.departure);
      var present := (job.event, job.name) in processed;
      if RollsBack(present, attempt) {
        service.reservations.rows := committed;
      } else {
        processed := processed + {(job.event, job.name)};
        outbox := outbox + [Assessed(result.booking, result.segmentsAvailable)];
      }
      service.segments.locks := [];
      return Ending(present, attempt);
    }

    /** `handle_booking_updated`: only CANCELLED and EXPIRED release; every update is marked. */
    method HandleBookingUpdated(job: Job, attempt: Attempt) returns (raised: Raised)
      requires job.ReleaseJob? && WellFormed(job)
      modifies this`processed, service.reservations
      ensures (Now(), raised) == Handle(old(Now()), job, attempt)
    {
      var committed := service.reservations.rows;
      if job.update.status == Cancelled || job.update.status == Expired {
        var deleted := service.ReleaseReservations(job.update.booking);
      }
      var present := (job.event, job.name) in processed;
      if RollsBack(present, attempt) {
        service.reservations.rows := committed;
      } else {
        processed := processed + {(job.event, job.name)};
      }
      return Ending(present, attempt);
    }
  }

  const REJECTED_TEXT :=
    "Your booking has been rejected due to road capacity constraints. Please try a different departure time or route."

  /** The message goes to the booking's driver and tells the update's status in the service's words. */
  predicate TellsStatus(message: Saga.Message, update: Event)
    requires update.Updated?
  {
    && message.driver == update.driver && message.booking == update.booking
    && (update.status == Approved ==> message.text == "Your booking has been approved. Have a safe journey!")
    && (update.status == Rejected ==> message.text == REJECTED_TEXT)
    && (update.status == Cancelled ==> message.text == "Your booking has been cancelled.")
    && (update.status == Expired ==> message.text == "Your booking has expired as the departure time has passed.")
  }

  class MessagingConsumer {
    var messages: seq<Saga.Message>
    var processed: set<(nat, string)>

    constructor ()
      ensures messages == [] && processed == {}
    {
      messages, processed := [], {};
    }

    method HandleBookingUpdated(job: Job, attempt: Attempt) returns (raised: Raised)
      requires job.NotifyJob? && WellFormed(job)
      modifies this
      ensures raised == Ending((job.event, job.name) in old(processed), attempt)
      ensures
        if RollsBack((job.event, job.name) in old(processed), attempt) then messages == old(messages) && processed == old(processed)
        else
          && messages == old(messages) + [Saga.MessageFor(job.update)]
          && processed == old(processed) + {(job.event, job.name)}
          && TellsStatus(messages[|messages| - 1], job.update)
    {
      var present := (job.event, job.name) in processed;
      if !RollsBack(present, attempt) {
        messages := messages + [Saga.Message(job.update.driver, job.update.booking, Saga.StatusText(job.update.status))];
        processed := processed + {(job.event, job.name)};
      }
      return Ending(present, attempt);
    }
  }

  /** The retry loop and the loop over entries, which the three consumers share. */
  class Runner {
    const conflict: ConflictConsumer
    const messaging: MessagingConsumer
    var dlq: seq<Delivery>
    var acked: seq<Delivery>

    constructor (conflict: ConflictConsumer, messaging: MessagingConsumer)
      ensures this.conflict == conflict && this.messaging == messaging && dlq == [] && acked == []
    {
      this.conflict, this.messaging := conflict, messaging;
      dlq, acked := [], [];
    }

    function Now(): Tables
      reads conflict, conflict.service.reservations, conflict.service.routes, conflict.service.segments, messaging
    {
      conflict.Now().(messages := messaging.messages, told := messaging.processed)
    }

    method RunHandler(job: Job, attempt: Attempt) returns (raised: Raised)
      requires WellFormed(job)
      modifies conflict, conflict.service.segments`locks, conflict.service.reservations, messaging
      ensures (Now(), raised) == Handle(old(Now()), job, attempt)
    {
      match job {
        case AssessJob(_, _, _) => raised := conflict.HandleBookingCreated(job, attempt);
        case ReleaseJob(_, _, _) => raised := conflict.HandleBookingUpdated(job, attempt);
        case NotifyJob(_, _, _) => raised := messaging.HandleBookingUpdated(job, attempt);
      }
    }

    /** A normal return means the job's effect is there. */
    method ProcessWithRetry(job: Job, attempts: seq<Attempt>) returns (ok: bool)
      requires WellFormed(job) && |attempts| == 3
      modifies conflict, conflict.service.segments`locks, conflict.service.reservations, messaging
      ensures (Now(), ok) == Retry(old(Now()), job, attempts)
      ensures ok ==> HasKey(Now(), KeyOf(job))
      ensures ok <==> DealtWith(old(Now()), job, attempts)
    {
      ReturnsWhenDealtWith(Now(), job, attempts);
      ghost var before := Now();
      RetryAppliesOnce(before, job, attempts);
      for attempt := 0 to MAX_ATTEMPTS
        invariant Retry(before, job, attempts) == Retry(Now(), job, attempts[attempt..])
      {
        assert attempts[attempt..][1..] == attempts[attempt + 1..];
        var raised := RunHandler(job, attempts[attempt]);
        if raised != OtherError {
          return true;
        }
      }
      return false;
    }

    /**
     * Entries are consumed in order; the first error outside the retry (the dead-letter write or the ack)
     * abandons the rest of the batch, which nobody reads again.
     */
    method ConsumeBatch(batch: seq<Delivery>) returns (done: nat)
      requires AllWellFormed(batch) && forall d :: d in batch ==> |d.attempts| == 3
      requires AckedOk(Progress(Now(), dlq, acked))
      modifies this, conflict, conflict.service.segments`locks, conflict.service.reservations, messaging
      ensures done <= |batch|
      ensures Progress(Now(), dlq, acked) == DeliverAll(old(Progress(Now(), dlq, acked)), batch[..done])
      ensures done < |batch| ==> done > 0 && !(batch[done - 1].dlqUp && batch[done - 1].ackUp)
      // everything acknowledged has been applied or dead-lettered
      ensures AckedOk(Progress(Now(), dlq, acked))
    {
      done := 0;
      ghost var start := Progress(Now(), dlq, acked);
      while done < |batch|
        invariant done <= |batch|
        invariant Progress(Now(), dlq, acked) == DeliverAll(start, batch[..done])
      {
        var d := batch[done];
        assert batch[..done + 1][..done] == batch[..done];
        var ok := ProcessWithRetry(d.job, d.attempts);
        done := done + 1;
        if !ok {
          if !d.dlqUp {
            break;
          }
          dlq := dlq + [d];
        }
        if !d.ackUp {
          break;
        }
        acked := acked + [d];
      }
      AckedIsAppliedOrDead(start, batch[..done]);
    }
  }
}
