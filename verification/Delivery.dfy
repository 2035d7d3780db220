/**
 * At-least-once delivery to the Python consumers (conflict detection on its two streams, messaging on
 * one): a handler writes its effect and its processed-event key in one transaction, with up to three
 * attempts per delivery, a dead-letter stream, and an acknowledgement.
 */
module Delivery {
  import opened Handlers

  type EntryId = nat

  const MAX_ATTEMPTS := 3

  /** How one attempt fares: before its commit, or at it, where a commit may also succeed and still raise. */
  datatype Attempt = Succeeds | FailsBeforeCommit | CommitFails | CommitLost

  datatype Raised = Nothing | IntegrityError | OtherError

  /** One run of a handler. The key is unique, so a second insert makes the transaction fail as a whole. */
  ghost function Handle(t: Tables, job: Job, attempt: Attempt): (Tables, Raised)
    requires WellFormed(job)
  {
    if attempt == FailsBeforeCommit then (t, OtherError)
    else if HasKey(t, KeyOf(job)) then (t, IntegrityError)
    else if attempt == CommitFails then (t, OtherError)
    else (Effect(t, job), if attempt == CommitLost then OtherError else Nothing)
  }

  /** `process_with_retry`: the attempts end at the first success or duplicate; `false` re-raises the last error. */
  ghost function Retry(t: Tables, job: Job, attempts: seq<Attempt>): (Tables, bool)
    requires WellFormed(job)
    decreases attempts
  {
    if attempts == [] then (t, false)
    else
      var (after, raised) := Handle(t, job, attempts[0]);
      if raised != OtherError then (after, true) else Retry(after, job, attempts[1..])
  }

  predicate Commits(attempt: Attempt) {
    attempt == Succeeds || attempt == CommitLost
  }

  /** Some attempt's commit goes through, whatever it reports. */
  predicate SomeCommit(attempts: seq<Attempt>) {
    exists a :: a in attempts && Commits(a)
  }

  /** Some attempt gets as far as the insert of its key. */
  predicate SomeInsert(attempts: seq<Attempt>) {
    exists a :: a in attempts && a != FailsBeforeCommit
  }

  /** Some attempt commits and says so, or a later attempt runs into the key that a lost commit left. */
  predicate SomeReturn(attempts: seq<Attempt>) {
    exists i :: 0 <= i < |attempts| &&
      (attempts[i] == Succeeds ||
       (attempts[i] == CommitLost && exists j :: i < j < |attempts| && attempts[j] != FailsBeforeCommit))
  }

  /** The job is dealt with: a repeated insert finds its key there before, or the attempts get it committed and known. */
  ghost predicate DealtWith(t: Tables, job: Job, attempts: seq<Attempt>) {
    if HasKey(t, KeyOf(job)) then SomeInsert(attempts) else SomeReturn(attempts)
  }

  lemma InsertAt(attempts: seq<Attempt>, i: nat)
    requires i <= |attempts|
    ensures SomeInsert(attempts[i..]) <==> exists j :: i <= j < |attempts| && attempts[j] != FailsBeforeCommit
  {
    if SomeInsert(attempts[i..]) {
      var a :| a in attempts[i..] && a != FailsBeforeCommit;
      var k :| 0 <= k < |attempts[i..]| && attempts[i..][k] == a;
      assert attempts[i + k] != FailsBeforeCommit;
    }
    if j :| i <= j < |attempts| && attempts[j] != FailsBeforeCommit {
      assert attempts[i..][j - i] == attempts[j] && attempts[j] in attempts[i..];
    }
  }

  /** Attempt by attempt: the first commit that goes through decides. */
  lemma ReturnFirst(attempts: seq<Attempt>)
    requires attempts != []
    ensures SomeReturn(attempts) <==>
      if attempts[0] == Succeeds then true
      else if attempts[0] == CommitLost then SomeInsert(attempts[1..])
      else SomeReturn(attempts[1..])
  {
    var rest := attempts[1..];
    InsertAt(attempts, 1);
    assert forall i :: 0 <= i < |rest| ==> rest[i] == attempts[i + 1];
    assert forall i :: 1 <= i < |attempts| ==> attempts[i] == rest[i - 1];
    if SomeReturn(rest) {
      var i :| 0 <= i < |rest| && (rest[i] == Succeeds ||
        (rest[i] == CommitLost && exists j :: i < j < |rest| && rest[j] != FailsBeforeCommit));
      if j :| i < j < |rest| && rest[j] != FailsBeforeCommit {
        assert attempts[j + 1] != FailsBeforeCommit;
      }
      assert attempts[i + 1] == rest[i];
    }
  }

  lemma FirstOrLater(attempts: seq<Attempt>)
    requires attempts != []
    ensures SomeInsert(attempts) <==> attempts[0] != FailsBeforeCommit || SomeInsert(attempts[1..])
    ensures SomeCommit(attempts) <==> Commits(attempts[0]) || SomeCommit(attempts[1..])
  {
    var first, rest := attempts[0], attempts[1..];
    assert attempts == [first] + rest;
    if a :| a in attempts && a != FailsBeforeCommit {
      assert a == first || a in rest;
    }
    if a :| a in attempts && Commits(a) {
      assert a == first || a in rest;
    }
    assert first in attempts && forall a :: a in rest ==> a in attempts;
  }

  /** Once the key is in, nothing changes, and only failures before the commit keep the loop raising. */
  lemma {:induction false} KeyEndsIt(t: Tables, job: Job, attempts: seq<Attempt>)
    requires WellFormed(job) && HasKey(t, KeyOf(job))
    ensures Retry(t, job, attempts).0 == t
    ensures Retry(t, job, attempts).1 <==> SomeInsert(attempts)
    decreases attempts
  {
    if attempts != [] {
      FirstOrLater(attempts);
      KeyEndsIt(t, job, attempts[1..]);
    }
  }

  /**
   * Whatever the attempts do, they leave the job's effect applied exactly once if it was missing and some attempt's
   * commit went through, and nothing changed otherwise; a normal return means the effect is there.
   */
  lemma {:induction false} RetryAppliesOnce(t: Tables, job: Job, attempts: seq<Attempt>)
    requires WellFormed(job)
    ensures
      var (after, ok) := Retry(t, job, attempts);
      && after == (if !HasKey(t, KeyOf(job)) && SomeCommit(attempts) then Effect(t, job) else t)
      && (ok ==> HasKey(after, KeyOf(job)))
    decreases attempts
  {
    EffectKeys(t, job, KeyOf(job));
    if attempts != [] {
      FirstOrLater(attempts);
      if attempts[0] == CommitLost && !HasKey(t, KeyOf(job)) {
        KeyEndsIt(Effect(t, job), job, attempts[1..]);
      } else {
        RetryAppliesOnce(t, job, attempts[1..]);
      }
    }
  }

  /** The loop returns normally exactly if the job is dealt with, and raises otherwise. */
  lemma {:induction false} ReturnsWhenDealtWith(t: Tables, job: Job, attempts: seq<Attempt>)
    requires WellFormed(job)
    ensures Retry(t, job, attempts).1 <==> DealtWith(t, job, attempts)
    decreases attempts
  {
    if HasKey(t, KeyOf(job)) {
      KeyEndsIt(t, job, attempts);
    } else if attempts != [] {
      ReturnFirst(attempts);
      EffectKeys(t, job, KeyOf(job));
      if attempts[0] == CommitLost {
        KeyEndsIt(Effect(t, job), job, attempts[1..]);
      } else {
        ReturnsWhenDealtWith(t, job, attempts[1..]);
      }
    }
  }

  /** An effect applied by a call that still raised came from a commit that succeeded and reported failure. */
  lemma {:induction false} RaisedEffectIsLostCommit(t: Tables, job: Job, attempts: seq<Attempt>)
    requires WellFormed(job) && !HasKey(t, KeyOf(job))
    requires !Retry(t, job, attempts).1 && HasKey(Retry(t, job, attempts).0, KeyOf(job))
    ensures CommitLost in attempts && Succeeds !in attempts
    decreases attempts
  {
    assert attempts == [attempts[0]] + attempts[1..];
    if attempts[0] == CommitLost {
      EffectKeys(t, job, KeyOf(job));
      KeyEndsIt(Effect(t, job), job, attempts[1..]);
    } else {
      RaisedEffectIsLostCommit(t, job, attempts[1..]);
    }
  }

  // ----- consumers over many deliveries

  /** A delivery of stream entry `entry`; the dead-letter write and the ack may each raise. */
  datatype Delivery = Delivery(entry: EntryId, job: Job, attempts: seq<Attempt>, dlqUp: bool, ackUp: bool)

  datatype Progress = Progress(tables: Tables, dlq: seq<Delivery>, acked: seq<Delivery>)

  ghost predicate AllWellFormed(ds: seq<Delivery>) {
    forall d :: d in ds ==> WellFormed(d.job)
  }

  /** One turn of the loop over entries. An error outside the retry leaves the entry unacknowledged. */
  ghost function Deliver(s: Progress, d: Delivery): Progress
    requires WellFormed(d.job)
  {
    var (tables, ok) := Retry(s.tables, d.job, d.attempts);
    if !ok && !d.dlqUp then s.(tables := tables)
    else
      s.(tables := tables,
         dlq := if ok then s.dlq else s.dlq + [d],
         acked := if d.ackUp then s.acked + [d] else s.acked)
  }

  ghost function DeliverAll(s: Progress, ds: seq<Delivery>): Progress
    requires AllWellFormed(ds)
  {
    if ds == [] then s else Deliver(DeliverAll(s, ds[..|ds| - 1]), ds[|ds| - 1])
  }

  /** Some delivery of the key's event to the key's consumer commits. */
  predicate Delivered(ds: seq<Delivery>, key: Key) {
    exists d :: d in ds && KeyOf(d.job) == key && SomeCommit(d.attempts)
  }

  predicate KeyIn(jobs: seq<Job>, key: Key) {
    exists job :: job in jobs && KeyOf(job) == key
  }

  /** The tables after each of the jobs has taken effect once, in this order. */
  ghost function ApplyAll(t: Tables, jobs: seq<Job>): Tables
    requires forall job :: job in jobs ==> WellFormed(job)
  {
    if jobs == [] then t else Effect(ApplyAll(t, jobs[..|jobs| - 1]), jobs[|jobs| - 1])
  }

  lemma {:induction false} ApplyAllKeys(t: Tables, jobs: seq<Job>, key: Key)
    requires forall job :: job in jobs ==> WellFormed(job)
    ensures HasKey(ApplyAll(t, jobs), key) <==> HasKey(t, key) || KeyIn(jobs, key)
  {
    if jobs != [] {
      var front, last := jobs[..|jobs| - 1], jobs[|jobs| - 1];
      assert jobs == front + [last];
      ApplyAllKeys(t, front, key);
      EffectKeys(ApplyAll(t, front), last, key);
      assert KeyIn(jobs, key) <==> KeyIn(front, key) || KeyOf(last) == key by {
        if KeyIn(front, key) {
          var job :| job in front && KeyOf(job) == key;
          assert job in jobs;
        }
        assert last in jobs;
      }
    }
  }

  /** `jobs` are the jobs the deliveries got committed that `t` did not have, each key once. */
  ghost predicate FirstCommits(t: Tables, ds: seq<Delivery>, jobs: seq<Job>) {
    && (forall job :: job in jobs ==> WellFormed(job) && Delivered(ds, KeyOf(job)) && !HasKey(t, KeyOf(job)))
    && (forall i, j :: 0 <= i < j < |jobs| ==> KeyOf(jobs[i]) != KeyOf(jobs[j]))
    && (forall d :: d in ds && SomeCommit(d.attempts) ==> HasKey(t, KeyOf(d.job)) || KeyIn(jobs, KeyOf(d.job)))
  }

  lemma DeliveredStays(ds: seq<Delivery>, d: Delivery, key: Key)
    ensures Delivered(ds, key) ==> Delivered(ds + [d], key)
    ensures SomeCommit(d.attempts) ==> Delivered(ds + [d], KeyOf(d.job))
  {
    if Delivered(ds, key) {
      var e :| e in ds && KeyOf(e.job) == key && SomeCommit(e.attempts);
      assert e in ds + [d];
    }
    assert d in ds + [d];
  }

  lemma KeyStaysIn(jobs: seq<Job>, job: Job, key: Key)
    ensures KeyIn(jobs + [job], key) <==> KeyIn(jobs, key) || key == KeyOf(job)
  {
    if KeyIn(jobs, key) {
      var j :| j in jobs && KeyOf(j) == key;
      assert j in jobs + [job];
    }
    assert job in jobs + [job];
  }

  /** One more delivery, whose job commits for the first time or not at all. */
  lemma OneMoreCommit(t: Tables, ds: seq<Delivery>, jobs: seq<Job>, d: Delivery)
    requires FirstCommits(t, ds, jobs) && WellFormed(d.job)
    ensures
      var isFirst := SomeCommit(d.attempts) && !HasKey(t, KeyOf(d.job)) && !KeyIn(jobs, KeyOf(d.job));
      FirstCommits(t, ds + [d], if isFirst then jobs + [d.job] else jobs)
  {
    var isFirst := SomeCommit(d.attempts) && !HasKey(t, KeyOf(d.job)) && !KeyIn(jobs, KeyOf(d.job));
    var more := if isFirst then jobs + [d.job] else jobs;
    forall job | job in more ensures WellFormed(job) && Delivered(ds + [d], KeyOf(job)) && !HasKey(t, KeyOf(job)) {
      DeliveredStays(ds, d, KeyOf(job));
      assert job in jobs || job == d.job;
    }
    forall e | e in ds + [d] && SomeCommit(e.attempts) ensures HasKey(t, KeyOf(e.job)) || KeyIn(more, KeyOf(e.job)) {
      KeyStaysIn(jobs, d.job, KeyOf(e.job));
    }
    forall i, j | 0 <= i < j < |more| ensures KeyOf(more[i]) != KeyOf(more[j]) {
      if j == |jobs| {
        assert more[i] in jobs;
      }
    }
  }

  /**
   * Exactly-once effects from at-least-once delivery: however entries are delivered and redelivered and whatever
   * each attempt does, the tables end up as if the jobs that ever committed had each taken effect once, in some order.
   */
  lemma {:induction false} EffectsExactlyOnce(s: Progress, ds: seq<Delivery>) returns (jobs: seq<Job>)
    requires AllWellFormed(ds)
    ensures FirstCommits(s.tables, ds, jobs)
    ensures DeliverAll(s, ds).tables == ApplyAll(s.tables, jobs)
  {
    if ds == [] {
      jobs := [];
    } else {
      var front, last := ds[..|ds| - 1], ds[|ds| - 1];
      assert ds == front + [last];
      jobs := EffectsExactlyOnce(s, front);
      RetryAppliesOnce(DeliverAll(s, front).tables, last.job, last.attempts);
      ApplyAllKeys(s.tables, jobs, KeyOf(last.job));
      OneMoreCommit(s.tables, front, jobs, last);
      if SomeCommit(last.attempts) && !HasKey(s.tables, KeyOf(last.job)) && !KeyIn(jobs, KeyOf(last.job)) {
        assert (jobs + [last.job])[..|jobs|] == jobs;
        jobs := jobs + [last.job];
      }
    }
  }

  /** So a key is present exactly if it was before or one of its deliveries committed. */
  lemma KeysAreDelivered(s: Progress, ds: seq<Delivery>, key: Key)
    requires AllWellFormed(ds)
    ensures HasKey(DeliverAll(s, ds).tables, key) <==> HasKey(s.tables, key) || Delivered(ds, key)
  {
    var jobs := EffectsExactlyOnce(s, ds);
    ApplyAllKeys(s.tables, jobs, key);
  }

  /**
   * The dead-letter stream gets exactly the deliveries that could not be dealt with, one copy each and only while it is
   * up; an entry is acknowledged unless a needed dead-letter copy, or the acknowledgement itself, fails.
   */
  lemma DeadLettersAreFailures(s: Progress, d: Delivery)
    requires WellFormed(d.job)
    ensures Deliver(s, d).dlq == if DealtWith(s.tables, d.job, d.attempts) || !d.dlqUp then s.dlq else s.dlq + [d]
    ensures Deliver(s, d).acked ==
      if d.ackUp && (DealtWith(s.tables, d.job, d.attempts) || d.dlqUp) then s.acked + [d] else s.acked
  {
    ReturnsWhenDealtWith(s.tables, d.job, d.attempts);
  }

  /** What is acknowledged has been applied or stands in the dead-letter stream. */
  ghost predicate AckedOk(s: Progress) {
    forall d :: d in s.acked ==> HasKey(s.tables, KeyOf(d.job)) || d in s.dlq
  }

  lemma DeliverKeepsAcked(s: Progress, d: Delivery)
    requires WellFormed(d.job) && AckedOk(s)
    ensures AckedOk(Deliver(s, d))
  {
    RetryAppliesOnce(s.tables, d.job, d.attempts);
    forall key | HasKey(s.tables, key) ensures HasKey(Deliver(s, d).tables, key) {
      EffectKeys(s.tables, d.job, key);
    }
  }

  lemma {:induction false} AckedIsAppliedOrDead(s: Progress, ds: seq<Delivery>)
    requires AllWellFormed(ds) && AckedOk(s)
    ensures AckedOk(DeliverAll(s, ds))
  {
    if ds != [] {
      AckedIsAppliedOrDead(s, ds[..|ds| - 1]);
      DeliverKeepsAcked(DeliverAll(s, ds[..|ds| - 1]), ds[|ds| - 1]);
    }
  }
}
