/**
 * The transactional outbox with any number of Go and Python relays polling the same table. A relay locks
 * a batch of unpublished rows (SKIP LOCKED), copies rows to their streams one XADD at a time, and commits.
 */
module Outbox {
  import opened Domain

  type RowId = nat
  type Stream = string

  /** The mutable part of an outbox row. */
  datatype Row = Row(published: bool, created: Instant)

  datatype Copy = Copy(stream: Stream, id: RowId)

  datatype Language = Go | Python

  /** A publishing transaction: the rows it has locked and how many of them it has copied. */
  datatype Relay =
    | Idle
    | Publishing(batch: seq<RowId>, sent: nat, stopped: bool)

  /** `log` names the stream of every row ever committed, by id; `aborted` is a ghost tally. */
  datatype State = State(
    log: seq<Stream>,
    rows: map<RowId, Row>,
    sent: seq<Copy>,
    languages: seq<Language>,
    relays: seq<Relay>,
    aborted: seq<nat>)

  datatype Step =
    | Insert(stream: Stream, created: Instant)
    | Fetch(r: nat, batch: seq<RowId>)
    | XAdd(r: nat)
    | XAddFails(r: nat)
    | Commit(r: nat)
    | Abort(r: nat)
    | Cleanup(cutoff: Instant)

  function Held(relay: Relay): set<RowId> {
    if relay.Publishing? then Elements(relay.batch) else {}
  }

  /** The rows the relay has copied but not yet committed as published. */
  function InFlight(relay: Relay): set<RowId> {
    if relay.Publishing? && relay.sent <= |relay.batch| then Elements(relay.batch[..relay.sent]) else {}
  }

  predicate Available(s: State, id: RowId) {
    id in s.rows && !s.rows[id].published && forall r :: 0 <= r < |s.relays| ==> id !in Held(s.relays[r])
  }

  /** ORDER BY id LIMIT 50 over the available rows. */
  predicate IsBatch(s: State, batch: seq<RowId>) {
    && 0 < |batch| <= OUTBOX_BATCH_SIZE
    && Ascending(batch)
    && (forall id :: id in batch ==> Available(s, id))
    && forall id :: id in s.rows && Available(s, id) && id !in batch ==>
         |batch| == OUTBOX_BATCH_SIZE && forall other :: other in batch ==> other < id
  }

  predicate Active(s: State, r: nat) {
    r < |s.relays| && r < |s.languages| && s.relays[r].Publishing?
  }

  predicate Enabled(s: State, step: Step) {
    match step
    case Insert(_, _) => true
    case Fetch(r, batch) => r < |s.relays| && s.relays[r].Idle? && IsBatch(s, batch)
    case XAdd(r) => Active(s, r) && !s.relays[r].stopped && s.relays[r].sent < |s.relays[r].batch|
    case XAddFails(r) => Active(s, r) && !s.relays[r].stopped && s.relays[r].sent < |s.relays[r].batch|
    case Commit(r) => Active(s, r) && (s.relays[r].stopped || s.relays[r].sent == |s.relays[r].batch|)
    case Abort(r) => Active(s, r)
    case Cleanup(_) => true
  }

  /** Rolling back: nothing is flagged, and every copy already sent is tallied as stray. */
  function RolledBack(s: State, r: nat): State
    requires r < |s.relays|
  {
    var stray := InFlight(s.relays[r]);
    s.(relays := s.relays[r := Idle],
       aborted := seq(|s.aborted|, id requires 0 <= id < |s.aborted| => s.aborted[id] + if id in stray then 1 else 0))
  }

  function Next(s: State, step: Step): State
    requires Enabled(s, step)
  {
    match step
    case Insert(stream, created) =>
      s.(log := s.log + [stream], rows := s.rows[|s.log| := Row(false, created)], aborted := s.aborted + [0])
    case Fetch(r, batch) => s.(relays := s.relays[r := Publishing(batch, 0, false)])
    case XAdd(r) =>
      var relay := s.relays[r];
      var id := relay.batch[relay.sent];
      s.(sent := s.sent + [Copy(if id < |s.log| then s.log[id] else "", id)],
         relays := s.relays[r := relay.(sent := relay.sent + 1)])
    case XAddFails(r) =>
      // Go stops there and commits what it copied; Python lets the exception roll everything back
      if s.languages[r] == Go then s.(relays := s.relays[r := s.relays[r].(stopped := true)])
      else RolledBack(s, r)
    case Commit(r) =>
      var done := InFlight(s.relays[r]);
      s.(rows := map id | id in s.rows :: if id in done then s.rows[id].(published := true) else s.rows[id],
         relays := s.relays[r := Idle])
    case Abort(r) => RolledBack(s, r)
    case Cleanup(cutoff) =>
      s.(rows := map id | id in s.rows && !(s.rows[id].published && s.rows[id].created < cutoff) :: s.rows[id])
  }

  ghost predicate Init(s: State) {
    && s.log == [] && s.rows == map[] && s.sent == [] && s.aborted == []
    && |s.relays| == |s.languages|
    && forall r :: 0 <= r < |s.relays| ==> s.relays[r].Idle?
  }

  /** Step `i` of the run is possible and leads to the next state. */
  ghost predicate Takes(states: seq<State>, steps: seq<Step>, i: nat)
    requires i < |steps| && |states| == |steps| + 1
  {
    Enabled(states[i], steps[i]) && states[i + 1] == Next(states[i], steps[i])
  }

  ghost predicate IsRun(states: seq<State>, steps: seq<Step>) {
    && |states| == |steps| + 1
    && Init(states[0])
    && forall i {:trigger Takes(states, steps, i)} :: 0 <= i < |steps| ==> Takes(states, steps, i)
  }

  /** Copies of a row, all in the stream it names. */
  function Copies(sent: seq<Copy>, copy: Copy): nat {
    if sent == [] then 0 else Copies(sent[..|sent| - 1], copy) + if sent[|sent| - 1] == copy then 1 else 0
  }

  predicate Unpublished(s: State, id: RowId) {
    id in s.rows && !s.rows[id].published
  }

  predicate Flying(s: State, id: RowId) {
    exists r :: 0 <= r < |s.relays| && id in InFlight(s.relays[r])
  }

  // ----- the invariant

  ghost predicate RelayOk(s: State, relay: Relay) {
    relay.Publishing? ==>
      && relay.sent <= |relay.batch|
      && Ascending(relay.batch)
      && forall id :: id in relay.batch ==> Unpublished(s, id)
  }

  /** The books balance: one copy for being published or in flight, one for each aborted attempt. */
  ghost predicate Balanced(s: State, id: RowId)
    requires id < |s.log| == |s.aborted|
  {
    Copies(s.sent, Copy(s.log[id], id)) ==
      s.aborted[id] + (if Unpublished(s, id) then 0 else 1) + if Flying(s, id) then 1 else 0
  }

  ghost predicate Inv(s: State) {
    && |s.aborted| == |s.log|
    && (forall id :: id in s.rows ==> id < |s.log|)
    && (forall r :: 0 <= r < |s.relays| ==> RelayOk(s, s.relays[r]))
    && (forall q, r :: 0 <= q < r < |s.relays| ==> Held(s.relays[q]) !! Held(s.relays[r]))
    && (forall id :: 0 <= id < |s.log| ==> Balanced(s, id))
    && (forall c :: c in s.sent ==> c.id < |s.log| && c.stream == s.log[c.id])
  }

  // ----- preservation

  lemma {:induction false} CopiesNone(sent: seq<Copy>, copy: Copy)
    requires copy !in sent
    ensures Copies(sent, copy) == 0
  {
    if sent != [] {
      CopiesNone(sent[..|sent| - 1], copy);
    }
  }

  lemma InFlightIsHeld(relay: Relay)
    ensures InFlight(relay) <= Held(relay)
  {
  }

  lemma InvInsert(s: State, step: Step)
    requires Inv(s) && step.Insert?
    ensures Inv(Next(s, step))
  {
    var s', n := Next(s, step), |s.log|;
    forall r | 0 <= r < |s.relays| ensures RelayOk(s', s'.relays[r]) && n !in Held(s.relays[r]) {
      assert RelayOk(s, s.relays[r]);
    }
    CopiesNone(s'.sent, Copy(step.stream, n));
    forall id | 0 <= id < |s'.log| ensures Balanced(s', id) {
      if id < n {
        assert Balanced(s, id);
        assert Flying(s', id) == Flying(s, id) by {
          assert s'.relays == s.relays;
        }
      } else {
        forall r | 0 <= r < |s.relays| ensures n !in InFlight(s.relays[r]) {
          InFlightIsHeld(s.relays[r]);
        }
      }
    }
  }

  lemma InvFetch(s: State, step: Step)
    requires Inv(s) && Enabled(s, step) && step.Fetch?
    ensures Inv(Next(s, step))
  {
    var s', r := Next(s, step), step.r;
    assert forall id :: id in step.batch ==> Available(s, id);
    assert InFlight(s'.relays[r]) == {} == InFlight(s.relays[r]);
    forall q | 0 <= q < |s.relays| ensures RelayOk(s', s'.relays[q]) {
      assert RelayOk(s, s.relays[q]);
    }
    forall id | 0 <= id < |s'.log| ensures Balanced(s', id) {
      assert Balanced(s, id);
      FlyingSame(s, s', r, id);
    }
  }

  /** When one relay changes, only its own copies can enter or leave flight. */
  lemma FlyingSame(s: State, s': State, r: nat, id: RowId)
    requires r < |s.relays| && |s'.relays| == |s.relays|
    requires forall q :: 0 <= q < |s.relays| && q != r ==> s'.relays[q] == s.relays[q]
    ensures (id in InFlight(s'.relays[r]) <==> id in InFlight(s.relays[r])) ==> Flying(s', id) == Flying(s, id)
    ensures id in InFlight(s'.relays[r]) ==> Flying(s', id)
    ensures id in InFlight(s.relays[r]) ==> Flying(s, id)
  {
    if Flying(s, id) {
      var q :| 0 <= q < |s.relays| && id in InFlight(s.relays[q]);
      assert q != r ==> id in InFlight(s'.relays[q]);
    }
    if Flying(s', id) {
      var q :| 0 <= q < |s'.relays| && id in InFlight(s'.relays[q]);
      assert q != r ==> id in InFlight(s.relays[q]);
    }
  }

  /** A row the relay holds is not in flight elsewhere. */
  lemma FlyingHere(s: State, r: nat, id: RowId)
    requires Inv(s) && r < |s.relays| && id in Held(s.relays[r])
    ensures Flying(s, id) <==> id in InFlight(s.relays[r])
  {
    if Flying(s, id) {
      var q :| 0 <= q < |s.relays| && id in InFlight(s.relays[q]);
      InFlightIsHeld(s.relays[q]);
    }
  }

  lemma InvXAdd(s: State, step: Step)
    requires Inv(s) && Enabled(s, step) && step.XAdd?
    ensures Inv(Next(s, step))
  {
    var s', r := Next(s, step), step.r;
    var relay := s.relays[r];
    var sentNow := relay.batch[relay.sent];
    assert RelayOk(s, relay) && sentNow in relay.batch && Unpublished(s, sentNow);
    assert relay.batch[..relay.sent + 1] == relay.batch[..relay.sent] + [sentNow];
    assert InFlight(s'.relays[r]) == InFlight(relay) + {sentNow};
    assert sentNow !in InFlight(relay);
    assert Held(s'.relays[r]) == Held(relay);
    forall q | 0 <= q < |s.relays| ensures RelayOk(s', s'.relays[q]) {
      assert RelayOk(s, s.relays[q]);
    }
    FlyingHere(s, r, sentNow);
    assert s'.sent[..|s.sent|] == s.sent;
    forall id | 0 <= id < |s'.log| ensures Balanced(s', id) {
      assert Balanced(s, id);
      FlyingSame(s, s', r, id);
    }
  }

  lemma InvStop(s: State, step: Step)
    requires Inv(s) && Enabled(s, step) && step.XAddFails? && s.languages[step.r] == Go
    ensures Inv(Next(s, step))
  {
    var s', r := Next(s, step), step.r;
    assert InFlight(s'.relays[r]) == InFlight(s.relays[r]) && Held(s'.relays[r]) == Held(s.relays[r]);
    forall q | 0 <= q < |s.relays| ensures RelayOk(s', s'.relays[q]) {
      assert RelayOk(s, s.relays[q]);
    }
    forall id | 0 <= id < |s'.log| ensures Balanced(s', id) {
      assert Balanced(s, id);
      FlyingSame(s, s', r, id);
    }
  }

  lemma InvRollback(s: State, r: nat)
    requires Inv(s) && r < |s.relays| && s.relays[r].Publishing?
    ensures Inv(RolledBack(s, r))
  {
    var s', relay := RolledBack(s, r), s.relays[r];
    assert InFlight(s'.relays[r]) == {};
    forall q | 0 <= q < |s.relays| ensures RelayOk(s', s'.relays[q]) {
      assert RelayOk(s, s.relays[q]);
    }
    forall id | 0 <= id < |s'.log| ensures Balanced(s', id) {
      assert Balanced(s, id);
      FlyingSame(s, s', r, id);
      if id in InFlight(relay) {
        InFlightIsHeld(relay);
        LandsHere(s, s', r, id);
      }
    }
  }

  /** Once its relay lets go, a row is no longer in flight. */
  lemma LandsHere(s: State, s': State, r: nat, id: RowId)
    requires Inv(s) && r < |s.relays| && id in Held(s.relays[r])
    requires s'.relays == s.relays[r := Idle]
    ensures !Flying(s', id)
  {
    forall q | 0 <= q < |s'.relays| ensures id !in InFlight(s'.relays[q]) {
      if q != r {
        InFlightIsHeld(s.relays[q]);
        assert if q < r then Held(s.relays[q]) !! Held(s.relays[r]) else Held(s.relays[r]) !! Held(s.relays[q]);
      }
    }
  }

  lemma InvCommit(s: State, step: Step)
    requires Inv(s) && Enabled(s, step) && step.Commit?
    ensures Inv(Next(s, step))
  {
    var s', r := Next(s, step), step.r;
    var relay := s.relays[r];
    assert RelayOk(s, relay);
    InFlightIsHeld(relay);
    forall q | 0 <= q < |s.relays| ensures RelayOk(s', s'.relays[q]) {
      assert RelayOk(s, s.relays[q]);
      if q != r {
        assert if q < r then Held(s.relays[q]) !! Held(s.relays[r]) else Held(s.relays[r]) !! Held(s.relays[q]);
      }
    }
    forall id | 0 <= id < |s'.log| ensures Balanced(s', id) {
      assert Balanced(s, id);
      FlyingSame(s, s', r, id);
      if id in InFlight(relay) {
        LandsHere(s, s', r, id);
      }
    }
  }

  lemma InvCleanup(s: State, step: Step)
    requires Inv(s) && step.Cleanup?
    ensures Inv(Next(s, step))
  {
    var s' := Next(s, step);
    forall q | 0 <= q < |s.relays| ensures RelayOk(s', s'.relays[q]) {
      assert RelayOk(s, s.relays[q]);
    }
    forall id | 0 <= id < |s'.log| ensures Balanced(s', id) {
      assert Balanced(s, id);
      assert Flying(s', id) == Flying(s, id) by {
        assert s'.relays == s.relays;
      }
    }
  }

  lemma StepKeepsInv(s: State, step: Step)
    requires Inv(s) && Enabled(s, step)
    ensures Inv(Next(s, step))
  {
    match step
    case Insert(_, _) => InvInsert(s, step);
    case Fetch(_, _) => InvFetch(s, step);
    case XAdd(_) => InvXAdd(s, step);
    case XAddFails(r) => if s.languages[r] == Go { InvStop(s, step); } else { InvRollback(s, r); }
    case Commit(_) => InvCommit(s, step);
    case Abort(r) => InvRollback(s, r);
    case Cleanup(_) => InvCleanup(s, step);
  }

  lemma {:induction false} RunKeepsInv(states: seq<State>, steps: seq<Step>, n: nat)
    requires IsRun(states, steps) && n < |states|
    ensures Inv(states[n])
  {
    if n > 0 {
      RunKeepsInv(states, steps, n - 1);
      assert Takes(states, steps, n - 1);
      StepKeepsInv(states[n - 1], steps[n - 1]);
    }
  }

  // ----- what every run guarantees

  /**
   * Conservation, in every state of every run: a committed event is still unpublished in the table or has
   * a copy in its stream, and its copies are at most one more than its aborted publishing transactions.
   */
  lemma NothingLost(states: seq<State>, steps: seq<Step>, n: nat, id: RowId)
    requires IsRun(states, steps) && n < |states| && id < |states[n].log|
    ensures |states[n].aborted| == |states[n].log|
    ensures Unpublished(states[n], id) || Copy(states[n].log[id], id) in states[n].sent
    ensures states[n].aborted[id] <= Copies(states[n].sent, Copy(states[n].log[id], id)) <= states[n].aborted[id] + 1
  {
    var s := states[n];
    RunKeepsInv(states, steps, n);
    assert Balanced(s, id);
    if Copy(s.log[id], id) !in s.sent {
      CopiesNone(s.sent, Copy(s.log[id], id));
    }
    if Flying(s, id) {
      var r :| 0 <= r < |s.relays| && id in InFlight(s.relays[r]);
      InFlightIsHeld(s.relays[r]);
      assert RelayOk(s, s.relays[r]);
    }
  }

  /** SKIP LOCKED keeps the relays apart: no row is ever held by two of them. */
  lemma NoRowHeldTwice(states: seq<State>, steps: seq<Step>, n: nat, q: nat, r: nat, id: RowId)
    requires IsRun(states, steps) && n < |states| && q < |states[n].relays| && r < |states[n].relays|
    requires id in Held(states[n].relays[q]) && id in Held(states[n].relays[r])
    ensures q == r
  {
    RunKeepsInv(states, steps, n);
  }

  /** Cleanup deletes only rows with a copy in their stream. */
  lemma CleanupDeletesOnlyCopied(states: seq<State>, steps: seq<Step>, n: nat, id: RowId)
    requires IsRun(states, steps) && n < |steps| && steps[n].Cleanup?
    requires id in states[n].rows && id !in states[n + 1].rows
    ensures id < |states[n].log| && Copy(states[n].log[id], id) in states[n].sent
  {
    RunKeepsInv(states, steps, n);
    assert Takes(states, steps, n);
    NothingLost(states, steps, n, id);
  }
}
