/** The relays' publishing passes, as code, are stretches of steps of the outbox machine. */
module OutboxRefinement {
  import opened Domain
  import opened OutboxRelays
  import Machine = Outbox

  /** The state some steps lead to, if each is possible in its turn. */
  function After(s: Machine.State, steps: seq<Machine.Step>): Option<Machine.State> {
    if steps == [] then Some(s)
    else
      var before, last := After(s, steps[..|steps| - 1]), steps[|steps| - 1];
      if before.Some? && Machine.Enabled(before.value, last) then Some(Machine.Next(before.value, last)) else None
  }

  lemma AfterOneMore(s: Machine.State, steps: seq<Machine.Step>, step: Machine.Step)
    requires After(s, steps).Some? && Machine.Enabled(After(s, steps).value, step)
    ensures After(s, steps + [step]) == Some(Machine.Next(After(s, steps).value, step))
  {
    assert (steps + [step])[..|steps|] == steps;
  }

  lemma {:induction false} AfterKeepsInv(s: Machine.State, steps: seq<Machine.Step>)
    requires Machine.Inv(s) && After(s, steps).Some?
    ensures Machine.Inv(After(s, steps).value)
  {
    if steps != [] {
      AfterKeepsInv(s, steps[..|steps| - 1]);
      Machine.StepKeepsInv(After(s, steps[..|steps| - 1]).value, steps[|steps| - 1]);
    }
  }

  function CopiesOf(rows: seq<OutboxRow>): seq<Machine.Copy> {
    seq(|rows|, i requires 0 <= i < |rows| => Machine.Copy(rows[i].stream, rows[i].id))
  }

  function IdList(rows: seq<OutboxRow>): seq<RowId> {
    seq(|rows|, i requires 0 <= i < |rows| => rows[i].id)
  }

  /** The machine's tables hold these rows, and its streams these copies. */
  ghost predicate Shows(s: Machine.State, rows: seq<OutboxRow>, sent: seq<OutboxRow>) {
    && ById(rows)
    && s.rows.Keys == IdsOf(rows)
    && (forall r :: r in rows ==>
          && r.id in s.rows && s.rows[r.id] == Machine.Row(r.published, r.created)
          && r.id < |s.log| && s.log[r.id] == r.stream)
    && s.sent == CopiesOf(sent)
  }

  /** Relay `r` is about to poll; what the others are doing does not matter. */
  predicate Ready(s: Machine.State, r: nat) {
    |s.relays| == |s.languages| && r < |s.relays| && s.relays[r].Idle?
  }

  /** The rows some relay has locked. */
  function LockedBy(s: Machine.State): set<RowId> {
    set q, id | 0 <= q < |s.relays| && id in Machine.Held(s.relays[q]) :: id
  }

  /** Pending, but for the rows the relays have locked, means available. */
  lemma PendingIsAvailable(s: Machine.State, rows: seq<OutboxRow>, sent: seq<OutboxRow>, i: nat)
    requires Shows(s, rows, sent) && i < |Pending(rows, LockedBy(s))|
    ensures Machine.Available(s, Pending(rows, LockedBy(s))[i].id)
  {
    PendingMembers(rows, LockedBy(s));
    assert Pending(rows, LockedBy(s))[i] in Pending(rows, LockedBy(s));
  }

  /** And the available rows are pending. */
  lemma AvailableIsPending(s: Machine.State, rows: seq<OutboxRow>, sent: seq<OutboxRow>, id: RowId) returns (i: nat)
    requires Shows(s, rows, sent) && Machine.Available(s, id)
    ensures i < |Pending(rows, LockedBy(s))| && Pending(rows, LockedBy(s))[i].id == id
  {
    PendingMembers(rows, LockedBy(s));
    var r :| r in rows && r.id == id;
    assert r in Pending(rows, LockedBy(s));
    i :| 0 <= i < |Pending(rows, LockedBy(s))| && Pending(rows, LockedBy(s))[i] == r;
  }

  /** Ids missing from a prefix of an ordered list come after it. */
  lemma PrefixIsLeast(pending: seq<OutboxRow>, n: nat, j: nat)
    requires ById(pending) && n <= |pending| && j < |pending|
    requires pending[j].id !in IdList(pending[..n])
    ensures n <= j && forall other :: other in IdList(pending[..n]) ==> other < pending[j].id
  {
    var ids := IdList(pending[..n]);
    assert forall i :: 0 <= i < n ==> ids[i] == pending[i].id && ids[i] in ids;
  }

  lemma PrefixIsAvailable(s: Machine.State, rows: seq<OutboxRow>, sent: seq<OutboxRow>, n: nat, id: RowId)
    requires Shows(s, rows, sent) && n <= |Pending(rows, LockedBy(s))| && id in IdList(Pending(rows, LockedBy(s))[..n])
    ensures Machine.Available(s, id)
  {
    var ids := IdList(Pending(rows, LockedBy(s))[..n]);
    var i :| 0 <= i < |ids| && ids[i] == id;
    assert ids[i] == Pending(rows, LockedBy(s))[i].id;
    PendingIsAvailable(s, rows, sent, i);
  }

  /** What a pass fetches is what the locking query returns. */
  lemma FetchedIsBatch(s: Machine.State, rows: seq<OutboxRow>, sent: seq<OutboxRow>)
    requires Shows(s, rows, sent) && Batch(rows, LockedBy(s)) != []
    ensures Machine.IsBatch(s, IdList(Batch(rows, LockedBy(s))))
  {
    var pending, n := Pending(rows, LockedBy(s)), |Batch(rows, LockedBy(s))|;
    assert Batch(rows, LockedBy(s)) == pending[..n] && (n < OUTBOX_BATCH_SIZE ==> n == |pending|);
    PendingIsOrdered(rows, LockedBy(s));
    PrefixIsBatch(s, rows, sent, n);
  }

  lemma PrefixIsBatch(s: Machine.State, rows: seq<OutboxRow>, sent: seq<OutboxRow>, n: nat)
    requires Shows(s, rows, sent) && ById(Pending(rows, LockedBy(s)))
    requires 0 < n <= |Pending(rows, LockedBy(s))| && n <= OUTBOX_BATCH_SIZE && (n < OUTBOX_BATCH_SIZE ==> n == |Pending(rows, LockedBy(s))|)
    ensures Machine.IsBatch(s, IdList(Pending(rows, LockedBy(s))[..n]))
  {
    var ids := IdList(Pending(rows, LockedBy(s))[..n]);
    forall id | id in ids ensures Machine.Available(s, id) {
      PrefixIsAvailable(s, rows, sent, n, id);
    }
    forall id | id in s.rows && Machine.Available(s, id) && id !in ids
      ensures |ids| == OUTBOX_BATCH_SIZE && forall other :: other in ids ==> other < id
    {
      var j := AvailableIsPending(s, rows, sent, id);
      PrefixIsLeast(Pending(rows, LockedBy(s)), n, j);
    }
  }

  lemma PendingIsOrdered(rows: seq<OutboxRow>, locked: set<RowId>)
    requires ById(rows)
    ensures ById(Pending(rows, locked))
  {
    PendingById(rows, locked);
  }

  /** The machine after fetching `batch` and `k` XADDs. */
  function Copying(s: Machine.State, r: nat, batch: seq<OutboxRow>, k: nat): Machine.State
    requires r < |s.relays| && k <= |batch|
  {
    s.(sent := s.sent + CopiesOf(batch[..k]), relays := s.relays[r := Machine.Publishing(IdList(batch), k, false)])
  }

  lemma CopyStep(s: Machine.State, r: nat, batch: seq<OutboxRow>, k: nat)
    requires Ready(s, r) && k < |batch|
    requires batch[k].id < |s.log| && s.log[batch[k].id] == batch[k].stream
    ensures Machine.Enabled(Copying(s, r, batch, k), Machine.XAdd(r))
    ensures Machine.Next(Copying(s, r, batch, k), Machine.XAdd(r)) == Copying(s, r, batch, k + 1)
  {
    assert CopiesOf(batch[..k + 1]) == CopiesOf(batch[..k]) + [Machine.Copy(batch[k].stream, batch[k].id)];
    var copying, next := Copying(s, r, batch, k), Copying(s, r, batch, k + 1);
    assert next.relays == copying.relays[r := next.relays[r]];
    assert next.sent == copying.sent + [Machine.Copy(batch[k].stream, batch[k].id)];
  }

  lemma {:induction false} CopySteps(s: Machine.State, r: nat, rows: seq<OutboxRow>, sent: seq<OutboxRow>, k: nat)
      returns (steps: seq<Machine.Step>)
    requires Shows(s, rows, sent) && Ready(s, r) && 0 < |Batch(rows, LockedBy(s))| && k <= |Batch(rows, LockedBy(s))|
    ensures After(s, steps) == Some(Copying(s, r, Batch(rows, LockedBy(s)), k))
  {
    var batch := Batch(rows, LockedBy(s));
    if k == 0 {
      FetchedIsBatch(s, rows, sent);
      assert After(s, []) == Some(s);
      AfterOneMore(s, [], Machine.Fetch(r, IdList(batch)));
      steps := [] + [Machine.Fetch(r, IdList(batch))];
      assert s.sent + CopiesOf(batch[..0]) == s.sent;
    } else {
      steps := CopySteps(s, r, rows, sent, k - 1);
      PendingMembers(rows, LockedBy(s));
      assert batch[k - 1] == Pending(rows, LockedBy(s))[k - 1] && batch[k - 1] in Pending(rows, LockedBy(s));
      CopyStep(s, r, batch, k - 1);
      AfterOneMore(s, steps, Machine.XAdd(r));
      steps := steps + [Machine.XAdd(r)];
    }
  }

  /** Whether the pass flags what it copied, or rolls back. */
  predicate Keeps(language: Machine.Language, batch: seq<OutboxRow>, fault: Fault) {
    Flags(fault.ending) && (language == Machine.Go || !Stops(batch, fault))
  }

  /** How the pass ends, from its last XADD on. */
  lemma EndSteps(s: Machine.State, r: nat, batch: seq<OutboxRow>, fault: Fault, before: seq<Machine.Step>)
      returns (steps: seq<Machine.Step>)
    requires Ready(s, r) && |Copied(batch, fault)| <= |batch|
    requires After(s, before) == Some(Copying(s, r, batch, |Copied(batch, fault)|))
    ensures After(s, steps).Some?
    ensures Ended(s, After(s, steps).value, Copied(batch, fault), Keeps(s.languages[r], batch, fault))
  {
    var copied := Copied(batch, fault);
    var now := Copying(s, r, batch, |copied|);
    steps := before;
    assert batch[..|copied|] == copied;
    if Stops(batch, fault) {
      AfterOneMore(s, steps, Machine.XAddFails(r));
      steps := steps + [Machine.XAddFails(r)];
      now := Machine.Next(now, Machine.XAddFails(r));
    }
    if now.relays[r].Publishing? {
      if Flags(fault.ending) {
        AfterOneMore(s, steps, Machine.Commit(r));
        steps := steps + [Machine.Commit(r)];
        IdsOfPrefix(batch, |copied|);
      } else {
        AfterOneMore(s, steps, Machine.Abort(r));
        steps := steps + [Machine.Abort(r)];
      }
    }
  }

  /** From `s`, the copies are in the streams, flagged if kept, and the relays are as they were. */
  ghost predicate Ended(s: Machine.State, s': Machine.State, copied: seq<OutboxRow>, kept: bool) {
    && s'.log == s.log && s'.languages == s.languages && s'.relays == s.relays
    && s'.sent == s.sent + CopiesOf(copied)
    && s'.rows == if kept then
                    map id | id in s.rows :: if id in IdsOf(copied) then s.rows[id].(published := true) else s.rows[id]
                  else s.rows
  }

  /** A flagged row is the row it was, published if named. */
  lemma FlaggedRow(rows: seq<OutboxRow>, ids: set<RowId>, r: OutboxRow)
    requires r in Flagged(rows, ids)
    ensures exists before :: before in rows && r == if before.id in ids then before.(published := true) else before
  {
    var i :| 0 <= i < |rows| && Flagged(rows, ids)[i] == r;
    assert rows[i] in rows;
  }

  lemma FlaggedIds(rows: seq<OutboxRow>, ids: set<RowId>)
    ensures IdsOf(Flagged(rows, ids)) == IdsOf(rows)
    ensures ById(rows) ==> ById(Flagged(rows, ids))
  {
    var flagged := Flagged(rows, ids);
    forall id | id in IdsOf(rows) ensures id in IdsOf(flagged) {
      var i :| 0 <= i < |rows| && rows[i].id == id;
      assert flagged[i] in flagged;
    }
    forall r | r in flagged ensures r.id in IdsOf(rows) {
      FlaggedRow(rows, ids, r);
    }
  }

  lemma IdsOfPrefix(batch: seq<OutboxRow>, k: nat)
    requires k <= |batch|
    ensures Elements(IdList(batch)[..k]) == IdsOf(batch[..k])
  {
    forall id ensures id in IdList(batch)[..k] <==> id in IdsOf(batch[..k]) {
      if id in IdList(batch)[..k] {
        var i :| 0 <= i < k && IdList(batch)[i] == id;
        assert batch[..k][i].id == id;
      }
      if id in IdsOf(batch[..k]) {
        var i :| 0 <= i < k && batch[i].id == id;
        assert IdList(batch)[..k][i] == id;
      }
    }
  }

  lemma CopiesAppend(a: seq<OutboxRow>, b: seq<OutboxRow>)
    ensures CopiesOf(a + b) == CopiesOf(a) + CopiesOf(b)
  {
  }

  lemma EndedShows(s: Machine.State, s': Machine.State, rows: seq<OutboxRow>, sent: seq<OutboxRow>, copied: seq<OutboxRow>, kept: bool)
    requires Shows(s, rows, sent) && Ended(s, s', copied, kept)
    ensures Shows(s', if kept then Flagged(rows, IdsOf(copied)) else rows, sent + copied)
  {
    CopiesAppend(sent, copied);
    if kept {
      FlaggedIds(rows, IdsOf(copied));
      forall r | r in Flagged(rows, IdsOf(copied))
        ensures r.id in s'.rows && s'.rows[r.id] == Machine.Row(r.published, r.created)
        ensures r.id < |s'.log| && s'.log[r.id] == r.stream
      {
        FlaggedShown(s, s', rows, sent, copied, r);
      }
    }
  }

  lemma FlaggedShown(s: Machine.State, s': Machine.State, rows: seq<OutboxRow>, sent: seq<OutboxRow>, copied: seq<OutboxRow>, r: OutboxRow)
    requires Shows(s, rows, sent) && Ended(s, s', copied, true) && r in Flagged(rows, IdsOf(copied))
    ensures r.id in s'.rows && s'.rows[r.id] == Machine.Row(r.published, r.created)
    ensures r.id < |s'.log| && s'.log[r.id] == r.stream
  {
    FlaggedRow(rows, IdsOf(copied), r);
  }

  /** The table a pass leaves. */
  function LeftBy(language: Machine.Language, rows: seq<OutboxRow>, batch: seq<OutboxRow>, fault: Fault): seq<OutboxRow> {
    if Keeps(language, batch, fault) then Flagged(rows, IdsOf(Copied(batch, fault))) else rows
  }

  /**
   * A publishing pass refines the machine, whatever the other relays are holding: what `PublishBatchGo` and
   * `PublishBatchPython` leave in the table and in the streams, under any combination of faults, is what some steps of
   * relay `r` leave, and the other relays stay as they were. So the machine's conservation holds around them.
   */
  lemma PassIsMachineSteps(s: Machine.State, r: nat, rows: seq<OutboxRow>, sent: seq<OutboxRow>, fault: Fault)
      returns (steps: seq<Machine.Step>)
    requires Shows(s, rows, sent) && Ready(s, r)
    ensures After(s, steps).Some? && After(s, steps).value.relays == s.relays
    ensures
      var batch := Fetched(rows, LockedBy(s), fault);
      Shows(After(s, steps).value, LeftBy(s.languages[r], rows, batch, fault), sent + Copied(batch, fault))
    ensures Machine.Inv(s) ==> Machine.Inv(After(s, steps).value)
  {
    steps := [];
    var batch := Fetched(rows, LockedBy(s), fault);
    var copied := Copied(batch, fault);
    if batch != [] {
      steps := CopySteps(s, r, rows, sent, |copied|);
      steps := EndSteps(s, r, batch, fault, steps);
      EndedShows(s, After(s, steps).value, rows, sent, copied, Keeps(s.languages[r], batch, fault));
    } else {
      FlaggingCopied(rows, LockedBy(s), fault);
      assert sent + copied == sent;
    }
    if Machine.Inv(s) {
      AfterKeepsInv(s, steps);
    }
  }

  /** The cleanup pass, as code, is the machine's cleanup. */
  lemma CleanupIsMachineStep(s: Machine.State, rows: seq<OutboxRow>, sent: seq<OutboxRow>, cutoff: Instant)
    requires Shows(s, rows, sent)
    ensures Machine.Enabled(s, Machine.Cleanup(cutoff))
    ensures Shows(Machine.Next(s, Machine.Cleanup(cutoff)), Kept(rows, cutoff), sent)
  {
    KeptStaysById(rows, cutoff);
    KeptLosesOnlyPublished(rows, cutoff);
    var s', kept := Machine.Next(s, Machine.Cleanup(cutoff)), Kept(rows, cutoff);
    forall id ensures id in s'.rows.Keys <==> id in IdsOf(kept) {
      if id in s'.rows {
        var r :| r in rows && r.id == id;
        assert r in kept;
      }
      if r :| r in kept && r.id == id {
        assert r in rows;
      }
    }
  }
}
