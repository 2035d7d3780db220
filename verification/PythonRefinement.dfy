/**
 * The Python consumers' loops are stretches of saga steps: whatever their attempts and redeliveries leave
 * in the tables, the saga machine can leave too, so what holds of its runs holds of them.
 */
module PythonRefinement {
  import opened Domain
  import opened Reservations
  import opened Bookings
  import opened Handlers
  import opened Delivery
  import Saga
  import SagaProofs

  /** The Python services' tables in a saga state. */
  function View(s: Saga.State): Tables {
    Tables(Saga.Table(s), s.routes, s.capacities, s.assessed + s.released, SagaProofs.Verdicts(s.log), s.inbox, Elements(s.notified))
  }

  /** The job hands a logged event to the handler for its kind. */
  predicate JobOf(s: Saga.State, job: Job) {
    && job.event < |s.log|
    && WellFormed(job)
    && s.log[job.event] == if job.AssessJob? then job.order else job.update
  }

  /** Keys in the view are keys of the right handler. */
  lemma ViewKey(s: Saga.State, job: Job)
    requires Saga.KeysOk(s) && JobOf(s, job)
    ensures HasKey(View(s), KeyOf(job)) <==>
      match job
      case AssessJob(e, c, _) => (e, c) in s.assessed
      case ReleaseJob(e, c, _) => (e, c) in s.released
      case NotifyJob(e, c, _) => (e, c) in s.notified
  {
  }

  /** What is kept by a stretch of steps: soundness and the tables always, the no-orphan invariant if assessments agree. */
  ghost predicate Carries(s: Saga.State, s': Saga.State, agree: bool) {
    && Saga.Sound(s') && s.log <= s'.log
    && (Saga.TablesOk(s) ==> Saga.TablesOk(s'))
    && (agree && Saga.Inv(s) ==> Saga.Inv(s'))
  }

  /** One saga step, as a stretch. */
  lemma OneStep(s: Saga.State, step: Saga.Step)
    requires Saga.Enabled(s, step) && Saga.Sound(s)
    ensures Saga.Leads(s, [step], Saga.Next(s, step))
    ensures Carries(s, Saga.Next(s, step), Saga.Agrees(s, step))
  {
    assert Saga.Leads(s, [], s) && [] + [step] == [step];
    SagaProofs.LeadsOneMore(s, [], s, step);
    SagaProofs.StepKeepsSound(s, step);
    SagaProofs.StepExtends(s, step);
    if Saga.TablesOk(s) {
      SagaProofs.StepKeepsTables(s, step);
    }
    if Saga.Inv(s) && Saga.Agrees(s, step) {
      SagaProofs.StepKeepsInv(s, step);
    }
  }

  /** The job assesses nothing, or a creation no other consumer has assessed. */
  predicate FirstOfItsKind(s: Saga.State, job: Job) {
    job.AssessJob? ==> !Saga.Seen(s.assessed, job.event)
  }

  lemma AssessIsSaga(s: Saga.State, job: Job) returns (steps: seq<Saga.Step>, s': Saga.State)
    requires Saga.Sound(s) && JobOf(s, job) && job.AssessJob? && !HasKey(View(s), KeyOf(job))
    ensures Saga.Leads(s, steps, s') && Carries(s, s', FirstOfItsKind(s, job)) && View(s') == Effect(View(s), job)
    ensures s'.assessed == s.assessed + {(job.event, job.name)}
  {
    ViewKey(s, job);
    FreshIdExists(s.grants.Keys);
    var id: nat :| id !in s.grants.Keys;
    var t' := Effect(View(s), job);
    var verdict := t'.outbox[|t'.outbox| - 1].available;
    var step := Saga.Assess(job.event, job.name, verdict, id);
    steps, s' := [step], Saga.Next(s, step);
    OneStep(s, step);
    if FirstOfItsKind(s, job) {
      SagaProofs.OnceAgrees(s, step);
    }
    SagaProofs.AssessedRows(s, step);
    SagaProofs.VerdictAppend(s.log, Assessed(job.order.booking, verdict));
    assert s'.assessed + s'.released == (s.assessed + s.released) + {(job.event, job.name)};
  }

  lemma NotifyIsSaga(s: Saga.State, job: Job) returns (steps: seq<Saga.Step>, s': Saga.State)
    requires Saga.Sound(s) && JobOf(s, job) && job.NotifyJob? && !HasKey(View(s), KeyOf(job))
    ensures Saga.Leads(s, steps, s') && Carries(s, s', true) && View(s') == Effect(View(s), job) && s'.assessed == s.assessed
  {
    ViewKey(s, job);
    var step := Saga.Notify(job.event, job.name);
    steps, s' := [step], Saga.Next(s, step);
    OneStep(s, step);
    assert Elements(s'.notified) == Elements(s.notified) + {(job.event, job.name)};
  }

  lemma PassIsSaga(s: Saga.State, job: Job) returns (steps: seq<Saga.Step>, s': Saga.State)
    requires Saga.Sound(s) && JobOf(s, job) && job.ReleaseJob? && !HasKey(View(s), KeyOf(job))
    requires !Saga.Releases(job.update.status)
    ensures Saga.Leads(s, steps, s') && Carries(s, s', true) && View(s') == Effect(View(s), job) && s'.assessed == s.assessed
  {
    ViewKey(s, job);
    var step := Saga.PassUpdate(job.event, job.name);
    steps, s' := [step], Saga.Next(s, step);
    OneStep(s, step);
    assert s'.assessed + s'.released == (s.assessed + s.released) + {(job.event, job.name)};
  }

  lemma ReleaseIsSaga(s: Saga.State, job: Job) returns (steps: seq<Saga.Step>, s': Saga.State)
    requires Saga.Sound(s) && JobOf(s, job) && job.ReleaseJob? && !HasKey(View(s), KeyOf(job))
    requires Saga.Releases(job.update.status)
    ensures Saga.Leads(s, steps, s') && Carries(s, s', true) && View(s') == Effect(View(s), job) && s'.assessed == s.assessed
  {
    ViewKey(s, job);
    steps, s' := ReleaseSteps(s, job.event, job.name);
    WholeRelease(s, job.update.booking);
    assert s'.assessed + s'.released == (s.assessed + s.released) + {(job.event, job.name)};
  }

  /** DELETE and commit with nothing in between. */
  lemma ReleaseSteps(s: Saga.State, e: nat, c: Saga.ConsumerName) returns (steps: seq<Saga.Step>, s': Saga.State)
    requires Saga.Sound(s) && Saga.Enabled(s, Saga.StartRelease(e, c)) && (e, c) !in s.released
    ensures Saga.Leads(s, steps, s') && Carries(s, s', true)
    ensures s' == s.(rows := Left(s.rows, IdsOf(s.rows, s.log[e].booking)), released := s.released + {(e, c)}, threads := s'.threads)
  {
    var start, commit := Saga.StartRelease(e, c), Saga.CommitRelease(|s.threads|);
    var started := Saga.Next(s, start);
    s' := Saga.Next(started, commit);
    OneStep(s, start);
    OneStep(started, commit);
    SagaProofs.LeadsOneMore(s, [start], started, commit);
    steps := [start] + [commit];
  }

  /** A release with nothing in between takes all of its booking's rows and no other. */
  lemma WholeRelease(s: Saga.State, b: BookingId)
    requires Saga.RowsOk(s)
    ensures Content(Left(s.rows, IdsOf(s.rows, b))) == Without(Saga.Table(s), b)
  {
    forall r | r in s.rows && r.id in IdsOf(s.rows, b) ensures r.window.booking == b {
      var r' :| r' in s.rows && r'.window.booking == b && r'.id == r.id;
      assert Saga.Granted(s, r.window.booking, s.grants[r.id]) && Saga.Granted(s, b, s.grants[r.id]);
    }
    LeftIsWithout(s.rows, IdsOf(s.rows, b), b);
  }

  /** A job's transaction is a stretch of saga steps. */
  lemma EffectIsSagaSteps(s: Saga.State, job: Job) returns (steps: seq<Saga.Step>, s': Saga.State)
    requires Saga.Sound(s) && JobOf(s, job) && !HasKey(View(s), KeyOf(job))
    ensures Saga.Leads(s, steps, s') && Carries(s, s', FirstOfItsKind(s, job)) && View(s') == Effect(View(s), job)
    ensures s'.assessed == s.assessed + if job.AssessJob? then {(job.event, job.name)} else {}
  {
    match job {
      case AssessJob(_, _, _) => steps, s' := AssessIsSaga(s, job);
      case NotifyJob(_, _, _) => steps, s' := NotifyIsSaga(s, job);
      case ReleaseJob(_, _, update) =>
        if Saga.Releases(update.status) {
          steps, s' := ReleaseIsSaga(s, job);
        } else {
          steps, s' := PassIsSaga(s, job);
        }
    }
  }

  /** No consumer under another name than the job's has assessed its creation. */
  predicate NoOtherName(s: Saga.State, job: Job) {
    job.AssessJob? ==> forall k :: k in s.assessed && k.0 == job.event ==> k.1 == job.name
  }

  /** The whole retry loop refines the saga, and keeps its invariants unless it assesses a creation under a second name. */
  lemma RetryIsSagaSteps(s: Saga.State, job: Job, attempts: seq<Attempt>) returns (steps: seq<Saga.Step>, s': Saga.State)
    requires Saga.Sound(s) && JobOf(s, job)
    ensures Saga.Leads(s, steps, s') && Carries(s, s', NoOtherName(s, job)) && View(s') == Retry(View(s), job, attempts).0
    ensures s'.assessed <= s.assessed + if job.AssessJob? then {(job.event, job.name)} else {}
  {
    RetryAppliesOnce(View(s), job, attempts);
    ViewKey(s, job);
    if !HasKey(View(s), KeyOf(job)) && SomeCommit(attempts) {
      steps, s' := EffectIsSagaSteps(s, job);
    } else {
      steps, s' := [], s;
    }
  }

  ghost predicate AllLogged(s: Saga.State, ds: seq<Delivery>) {
    forall d :: d in ds ==> JobOf(s, d.job)
  }

  /** The deliveries assess no creation under a second name, neither among themselves nor beside `s`. */
  ghost predicate OneNameEach(s: Saga.State, ds: seq<Delivery>) {
    && (forall d :: d in ds ==> NoOtherName(s, d.job))
    && (forall d, d' :: d in ds && d' in ds && d.job.AssessJob? && d'.job.AssessJob? && d.job.event == d'.job.event ==> d.job.name == d'.job.name)
  }

  /** The assessments known afterwards are those known before and those delivered. */
  ghost predicate AssessedBy(s: Saga.State, s': Saga.State, ds: seq<Delivery>) {
    forall k :: k in s'.assessed ==> k in s.assessed || exists d :: d in ds && d.job.AssessJob? && k == (d.job.event, d.job.name)
  }

  lemma StillOneName(s: Saga.State, mid: Saga.State, ds: seq<Delivery>, job: Job)
    requires AssessedBy(s, mid, ds) && (forall d :: d in ds ==> d.job.AssessJob? && job.AssessJob? && d.job.event == job.event ==> d.job.name == job.name)
    requires NoOtherName(s, job)
    ensures NoOtherName(mid, job)
  {
  }

  /**
   * Any deliveries and redeliveries, to any of the three consumers under any names and with any faults, leave the
   * tables as some stretch of saga steps does. Soundness survives them; so does the no-orphan invariant, if no
   * creation is assessed under a second name.
   */
  lemma {:induction false} DeliveriesAreSagaSteps(s: Saga.State, at: Progress, ds: seq<Delivery>)
      returns (steps: seq<Saga.Step>, s': Saga.State)
    requires Saga.Sound(s) && AllLogged(s, ds) && AllWellFormed(ds) && at.tables == View(s)
    ensures Saga.Leads(s, steps, s') && Carries(s, s', OneNameEach(s, ds)) && View(s') == DeliverAll(at, ds).tables
    ensures AssessedBy(s, s', ds)
  {
    if ds == [] {
      steps, s' := [], s;
    } else {
      var front, last := ds[..|ds| - 1], ds[|ds| - 1];
      assert ds == front + [last];
      var first, mid := DeliveriesAreSagaSteps(s, at, front);
      assert JobOf(mid, last.job);
      var more;
      more, s' := RetryIsSagaSteps(mid, last.job, last.attempts);
      SagaProofs.LeadsOn(s, first, mid, more, s');
      steps := first + more;
      assert OneNameEach(s, ds) ==> OneNameEach(s, front);
      if OneNameEach(s, ds) {
        StillOneName(s, mid, front, last.job);
      }
      AssessedByMore(s, mid, s', front, last);
    }
  }

  lemma AssessedByMore(s: Saga.State, mid: Saga.State, s': Saga.State, ds: seq<Delivery>, d: Delivery)
    requires AssessedBy(s, mid, ds)
    requires s'.assessed <= mid.assessed + if d.job.AssessJob? then {(d.job.event, d.job.name)} else {}
    ensures AssessedBy(s, s', ds + [d])
  {
    forall k | k in s'.assessed && k !in s.assessed
      ensures exists e :: e in ds + [d] && e.job.AssessJob? && k == (e.job.event, e.job.name)
    {
      if k in mid.assessed {
        var e :| e in ds && e.job.AssessJob? && k == (e.job.event, e.job.name);
        assert e in ds + [d];
      } else {
        assert d in ds + [d];
      }
    }
  }

  // ----- the inbox

  /** `told` lists the keys of the messages, in order: each once, each with the message for its update. */
  ghost predicate InboxFor(log: seq<Event>, t: Tables, told: seq<Saga.Key>) {
    && Distinct(told) && Elements(told) == t.told && |told| == |t.messages|
    && forall i :: 0 <= i < |told| ==>
         told[i].0 < |log| && log[told[i].0].Updated? && t.messages[i] == Saga.MessageFor(log[told[i].0])
  }

  /**
   * One message per applied update: after any deliveries from any reachable state, the inbox holds for each
   * update applied under a consumer name exactly one message, the one for that update; and an update is applied
   * exactly if it was before or one of its deliveries committed.
   */
  lemma OneMessagePerAppliedUpdate(states: seq<Saga.State>, steps: seq<Saga.Step>, n: nat, at: Progress, ds: seq<Delivery>)
      returns (told: seq<Saga.Key>)
    requires Saga.IsRun(states, steps) && n < |states|
    requires AllLogged(states[n], ds) && AllWellFormed(ds) && at.tables == View(states[n])
    ensures InboxFor(states[n].log, DeliverAll(at, ds).tables, told)
    ensures forall e: nat, c :: (e, c) in told <==>
      (e, c) in states[n].notified || Delivered(ds, Key(true, e, c))
  {
    var s := states[n];
    SagaProofs.RunKeepsTables(states, steps, n);
    SagaProofs.RunKeepsSound(states, steps, n);
    var more, s' := DeliveriesAreSagaSteps(s, at, ds);
    told := s'.notified;
    forall i | 0 <= i < |told|
      ensures told[i].0 < |s.log| && s.log[told[i].0].Updated? && s'.inbox[i] == Saga.MessageFor(s.log[told[i].0])
    {
      ToldWasLogged(s, s', at, ds, told[i]);
    }
    forall e: nat, c ensures (e, c) in told <==> (e, c) in s.notified || Delivered(ds, Key(true, e, c)) {
      KeysAreDelivered(at, ds, Key(true, e, c));
      assert (e, c) in told <==> HasKey(View(s'), Key(true, e, c));
      assert (e, c) in s.notified <==> HasKey(View(s), Key(true, e, c));
    }
  }

  /** Deliveries of logged events add keys of logged events only. */
  lemma ToldWasLogged(s: Saga.State, s': Saga.State, at: Progress, ds: seq<Delivery>, key: Saga.Key)
    requires AllLogged(s, ds) && AllWellFormed(ds) && at.tables == View(s) && Saga.TablesOk(s)
    requires View(s') == DeliverAll(at, ds).tables && key in s'.notified
    ensures key.0 < |s.log|
  {
    KeysAreDelivered(at, ds, Key(true, key.0, key.1));
    assert HasKey(View(s'), Key(true, key.0, key.1));
    if !HasKey(View(s), Key(true, key.0, key.1)) {
      var d :| d in ds && KeyOf(d.job) == Key(true, key.0, key.1) && SomeCommit(d.attempts);
      assert JobOf(s, d.job);
    } else {
      assert key in s.notified;
      var i :| 0 <= i < |s.notified| && s.notified[i] == key;
    }
  }
}
