/** The two relays' publishing passes over one outbox table, and the drain loop of the Go relay. */
module OutboxRelays {
  import opened Domain

  type RowId = nat

  datatype OutboxRow = OutboxRow(id: RowId, stream: string, created: Instant, published: bool)

  /** The unpublished rows no other session has locked, in table order. */
  function Pending(rows: seq<OutboxRow>, locked: set<RowId>): seq<OutboxRow> {
    if rows == [] then []
    else
      var last := rows[|rows| - 1];
      Pending(rows[..|rows| - 1], locked) + if last.published || last.id in locked then [] else [last]
  }

  function IdsOf(rows: seq<OutboxRow>): set<RowId> {
    set r | r in rows :: r.id
  }

  /** The table with the named rows flagged as published. */
  function Flagged(rows: seq<OutboxRow>, ids: set<RowId>): seq<OutboxRow> {
    seq(|rows|, i requires 0 <= i < |rows| => if rows[i].id in ids then rows[i].(published := true) else rows[i])
  }

  /** Rows in id order, as ORDER BY id lists them. */
  ghost predicate ById(rows: seq<OutboxRow>) {
    forall i, j :: 0 <= i < j < |rows| ==> rows[i].id < rows[j].id
  }

  lemma {:induction false} PendingMembers(rows: seq<OutboxRow>, locked: set<RowId>)
    ensures forall r :: r in Pending(rows, locked) <==> r in rows && !r.published && r.id !in locked
  {
    if rows != [] {
      var front, last := rows[..|rows| - 1], rows[|rows| - 1];
      PendingMembers(front, locked);
      assert rows == front + [last];
    }
  }

  lemma {:induction false} PendingById(rows: seq<OutboxRow>, locked: set<RowId>)
    requires ById(rows)
    ensures ById(Pending(rows, locked))
  {
    if rows != [] {
      var front, last := rows[..|rows| - 1], rows[|rows| - 1];
      PendingById(front, locked);
      PendingMembers(front, locked);
      forall i | 0 <= i < |Pending(front, locked)| ensures Pending(front, locked)[i].id < last.id {
        assert Pending(front, locked)[i] in front;
      }
    }
  }

  /** Flagging the first `k` pending rows leaves the others pending. */
  lemma {:induction false} FlaggingFirst(rows: seq<OutboxRow>, locked: set<RowId>, k: nat)
    requires ById(rows) && k <= |Pending(rows, locked)|
    ensures Pending(Flagged(rows, IdsOf(Pending(rows, locked)[..k])), locked) == Pending(rows, locked)[k..]
    ensures ById(Flagged(rows, IdsOf(Pending(rows, locked)[..k])))
  {
    var pending := Pending(rows, locked);
    var ids := IdsOf(pending[..k]);
    PendingById(rows, locked);
    forall i | 0 <= i < |pending| ensures pending[i].id in ids <==> i < k {
      if i < k {
        assert pending[..k][i] == pending[i];
      }
    }
    FlaggedPending(rows, locked, ids, pending, k);
  }

  lemma {:induction false} FlaggedPending(rows: seq<OutboxRow>, locked: set<RowId>, ids: set<RowId>, all: seq<OutboxRow>, k: nat)
    requires Pending(rows, locked) <= all && k <= |all|
    requires forall i :: 0 <= i < |all| ==> (all[i].id in ids <==> i < k)
    ensures Pending(Flagged(rows, ids), locked) == if |Pending(rows, locked)| <= k then [] else Pending(rows, locked)[k..]
  {
    if rows != [] {
      var front, last := rows[..|rows| - 1], rows[|rows| - 1];
      FlaggedPending(front, locked, ids, all, k);
      assert Flagged(rows, ids)[..|rows| - 1] == Flagged(front, ids);
      if !last.published && last.id !in locked {
        assert all[|Pending(front, locked)|] == last;
      }
    }
  }

  /** What one poll fetches. */
  function Batch(rows: seq<OutboxRow>, locked: set<RowId>): seq<OutboxRow> {
    var pending := Pending(rows, locked);
    if |pending| < OUTBOX_BATCH_SIZE then pending else pending[..OUTBOX_BATCH_SIZE]
  }

  /** An undisturbed pass copies the first rows of all there are, up to fifty. */
  lemma UndisturbedCopies(rows: seq<OutboxRow>, locked: set<RowId>)
    ensures
      var copied := Copied(Fetched(rows, locked, NO_FAULT), NO_FAULT);
      copied <= Pending(rows, locked) && |copied| == if |Pending(rows, locked)| < 50 then |Pending(rows, locked)| else 50
  {
  }

  /** The rows cleanup leaves. */
  function Kept(rows: seq<OutboxRow>, cutoff: Instant): seq<OutboxRow> {
    if rows == [] then []
    else
      var last := rows[|rows| - 1];
      Kept(rows[..|rows| - 1], cutoff) + if last.published && last.created < cutoff then [] else [last]
  }

  lemma {:induction false} KeptLosesOnlyPublished(rows: seq<OutboxRow>, cutoff: Instant)
    ensures forall r :: r in Kept(rows, cutoff) <==> r in rows && !(r.published && r.created < cutoff)
    ensures |Kept(rows, cutoff)| <= |rows|
  {
    if rows != [] {
      var front, last := rows[..|rows| - 1], rows[|rows| - 1];
      KeptLosesOnlyPublished(front, cutoff);
      assert rows == front + [last];
    }
  }

  lemma {:induction false} KeptKeepsPending(rows: seq<OutboxRow>, cutoff: Instant, locked: set<RowId>)
    ensures Pending(Kept(rows, cutoff), locked) == Pending(rows, locked)
  {
    if rows != [] {
      var kept, last := Kept(rows[..|rows| - 1], cutoff), rows[|rows| - 1];
      KeptKeepsPending(rows[..|rows| - 1], cutoff, locked);
      if last.published && last.created < cutoff {
        assert kept + [] == kept;
        assert Pending(kept, locked) + [] == Pending(kept, locked);
      } else {
        assert (kept + [last])[..|kept|] == kept;
      }
    }
  }

  lemma {:induction false} KeptStaysById(rows: seq<OutboxRow>, cutoff: Instant)
    requires ById(rows)
    ensures ById(Kept(rows, cutoff))
  {
    if rows != [] {
      KeptStaysById(rows[..|rows| - 1], cutoff);
      KeptLosesOnlyPublished(rows[..|rows| - 1], cutoff);
    }
  }

  /** How the flagging and the commit of a pass fare; a lost commit takes effect but reports failure. */
  datatype Ending = Commits | MarkFails | CommitFails | CommitLost

  /** What goes wrong in a pass: the query, an XADD, and the ending, in any combination. */
  datatype Fault = Fault(fetch: bool, xadd: Option<nat>, ending: Ending)

  const NO_FAULT := Fault(false, None, Commits)

  predicate Stops(batch: seq<OutboxRow>, fault: Fault) {
    fault.xadd.Some? && fault.xadd.value < |batch|
  }

  /** The part of a batch that reaches the streams. */
  function Copied(batch: seq<OutboxRow>, fault: Fault): seq<OutboxRow> {
    if Stops(batch, fault) then batch[..fault.xadd.value] else batch
  }

  /** What a pass fetches. */
  function Fetched(rows: seq<OutboxRow>, locked: set<RowId>, fault: Fault): seq<OutboxRow> {
    if fault.fetch then [] else Batch(rows, locked)
  }

  predicate Flags(ending: Ending) {
    ending == Commits || ending == CommitLost
  }

  class Outbox {
    var rows: seq<OutboxRow>

    /** Every XADD so far: the copied row's stream and id. */
    var sent: seq<OutboxRow>

    ghost predicate Valid()
      reads this
    {
      ById(rows)
    }

    constructor ()
      ensures Valid() && rows == [] && sent == []
    {
      rows, sent := [], [];
    }

    /** FOR UPDATE SKIP LOCKED: rows in `locked` are passed over. */
    method FetchUnpublished(limit: nat, locked: set<RowId>) returns (batch: seq<OutboxRow>)
      ensures batch <= Pending(rows, locked)
      ensures |batch| == if |Pending(rows, locked)| < limit then |Pending(rows, locked)| else limit
      ensures limit == OUTBOX_BATCH_SIZE ==> batch == Batch(rows, locked)
      // only rows to publish that nobody holds, and all of them if they are fewer than the limit
      ensures forall r :: r in batch ==> r in rows && !r.published && r.id !in locked
      ensures |batch| < limit ==> forall r :: r in rows && !r.published && r.id !in locked ==> r in batch
    {
      PendingMembers(rows, locked);
      batch := [];
      var i := 0;
      while i < |rows| && |batch| < limit
        invariant 0 <= i <= |rows|
        invariant batch == Pending(rows[..i], locked) && |batch| <= limit
      {
        assert rows[..i + 1][..i] == rows[..i];
        if !rows[i].published && rows[i].id !in locked {
          batch := batch + [rows[i]];
        }
        i := i + 1;
      }
      PendingPrefix(rows, locked, i);
      assert rows[..|rows|] == rows;
    }

    method DeleteOldPublished(cutoff: Instant) returns (deleted: nat)
      requires Valid()
      modifies this`rows
      ensures Valid() && forall locked :: Pending(rows, locked) == Pending(old(rows), locked)
      ensures forall r :: r in rows <==> r in old(rows) && !(r.published && r.created < cutoff)
      ensures |rows| + deleted == |old(rows)|
    {
      KeptLosesOnlyPublished(rows, cutoff);
      forall locked ensures Pending(Kept(rows, cutoff), locked) == Pending(rows, locked) {
        KeptKeepsPending(rows, cutoff, locked);
      }
      KeptStaysById(rows, cutoff);
      deleted := |rows| - |Kept(rows, cutoff)|;
      rows := Kept(rows, cutoff);
    }

    /** Go: a failing XADD ends the batch early, and what was copied is still flagged, unless that or the commit fails too. */
    method PublishBatchGo(locked: set<RowId>, fault: Fault) returns (published: nat, ok: bool)
      requires Valid()
      modifies this
      ensures Valid()
      ensures
        var batch := Fetched(old(rows), locked, fault);
        var copied := Copied(batch, fault);
        && sent == old(sent) + copied
        && (ok <==> !fault.fetch && (batch == [] || fault.ending == Commits || (fault.ending == MarkFails && copied == [])))
        && published == (if ok then |copied| else 0)
        && rows == (if Flags(fault.ending) then Flagged(old(rows), IdsOf(copied)) else old(rows))
        && (Flags(fault.ending) ==> Pending(rows, locked) == Pending(old(rows), locked)[|copied|..])
    {
      FlaggingCopied(rows, locked, fault);
      if fault.fetch {
        return 0, false;
      }
      var batch := FetchUnpublished(OUTBOX_BATCH_SIZE, locked);
      if |batch| == 0 {
        return 0, true;
      }
      var copied := CopyRows(batch, fault);
      var flagged := rows;
      if |copied| > 0 {
        if fault.ending == MarkFails {
          return 0, false;
        }
        flagged := Flagged(rows, IdsOf(copied));
      }
      if fault.ending == CommitFails {
        return 0, false;
      }
      rows := flagged;
      if fault.ending == CommitLost {
        return 0, false;
      }
      return |copied|, true;
    }

    /** The XADD loop, which stops at the first failure. */
    method CopyRows(batch: seq<OutboxRow>, fault: Fault) returns (copied: seq<OutboxRow>)
      modifies this`sent
      ensures copied == Copied(batch, fault) && sent == old(sent) + copied
      ensures copied <= batch
      ensures if fault.xadd.Some? && fault.xadd.value < |batch| then |copied| == fault.xadd.value else copied == batch
    {
      copied := [];
      var i := 0;
      while i < |batch|
        invariant 0 <= i <= |batch| && copied == batch[..i]
        invariant fault.xadd.Some? ==> i <= fault.xadd.value
        invariant sent == old(sent) + copied
      {
        if fault.xadd == Some(i) {
          break;
        }
        sent := sent + [batch[i]];
        copied := copied + [batch[i]];
        i := i + 1;
      }
    }

    /** Python: any exception rolls the whole batch back, though earlier copies are already in the streams. */
    method PublishBatchPython(locked: set<RowId>, fault: Fault) returns (ok: bool)
      requires Valid()
      modifies this
      ensures Valid()
      ensures
        var batch := Fetched(old(rows), locked, fault);
        && sent == old(sent) + Copied(batch, fault)
        && (ok <==> !fault.fetch && (batch == [] || (fault.ending == Commits && !Stops(batch, fault))))
        && rows == (if Flags(fault.ending) && !Stops(batch, fault) then Flagged(old(rows), IdsOf(batch)) else old(rows))
        && (ok ==> Pending(rows, locked) == Pending(old(rows), locked)[|batch|..])
    {
      FlaggingBatch(rows, locked);
      FlaggingNone(rows);
      if fault.fetch {
        return false;
      }
      var batch := FetchUnpublished(OUTBOX_BATCH_SIZE, locked);
      if |batch| == 0 {
        return true;
      }
      var copied := CopyRows(batch, fault);
      assert if Stops(batch, fault) then |copied| < |batch| else copied == batch;
      if |copied| < |batch| || fault.ending == MarkFails || fault.ending == CommitFails {
        return false;
      }
      rows := Flagged(rows, IdsOf(batch));
      return fault.ending == Commits;
    }

    /**
     * The Go loop polls again at once while batches come back full; without faults that empties the outbox, but for
     * rows another session keeps locked.
     */
    method Drain(locked: set<RowId>)
      requires Valid()
      modifies this
      ensures Valid() && Pending(rows, locked) == []
      // every pending event copied exactly once, in id order
      ensures sent == old(sent) + Pending(old(rows), locked)
    {
      var published := OUTBOX_BATCH_SIZE;
      ghost var all, before, done := Pending(rows, locked), sent, 0;
      while published >= OUTBOX_BATCH_SIZE
        invariant Valid() && DrainedTo(Pending(rows, locked), sent, all, before, done)
        invariant published < OUTBOX_BATCH_SIZE ==> done == |all|
        decreases |all| - done, if published >= OUTBOX_BATCH_SIZE then 1 else 0
      {
        BatchAdvances(rows, locked, sent, all, before, done);
        var ok;
        published, ok := PublishBatchGo(locked, NO_FAULT);
        done := done + published;
      }
    }
  }

  /** The first `done` of the rows in `all` have been copied, the rest are pending. */
  ghost predicate DrainedTo(pending: seq<OutboxRow>, sent: seq<OutboxRow>, all: seq<OutboxRow>, before: seq<OutboxRow>, done: nat) {
    done <= |all| && pending == all[done..] && sent == before + all[..done]
  }

  lemma BatchAdvances(rows: seq<OutboxRow>, locked: set<RowId>, sent: seq<OutboxRow>, all: seq<OutboxRow>, before: seq<OutboxRow>, done: nat)
    requires DrainedTo(Pending(rows, locked), sent, all, before, done)
    ensures
      var batch := Batch(rows, locked);
      && DrainedTo(Pending(rows, locked)[|batch|..], sent + batch, all, before, done + |batch|)
      && (|batch| < OUTBOX_BATCH_SIZE ==> done + |batch| == |all|)
  {
    var n := |Batch(rows, locked)|;
    assert Batch(rows, locked) == Pending(rows, locked)[..n];
    TakeMore(all, done, n);
    assert before + (all[..done] + all[done..][..n]) == sent + all[done..][..n];
  }

  lemma TakeMore(all: seq<OutboxRow>, done: nat, n: nat)
    requires done + n <= |all|
    ensures all[done..][n..] == all[done + n..]
    ensures all[..done] + all[done..][..n] == all[..done + n]
  {
  }

  /** Publishing whatever part of the batch was copied leaves the rest pending; publishing none leaves the table alone. */
  lemma FlaggingCopied(rows: seq<OutboxRow>, locked: set<RowId>, fault: Fault)
    requires ById(rows)
    ensures
      var copied := Copied(Fetched(rows, locked, fault), fault);
      var table := Flagged(rows, IdsOf(copied));
      && |copied| <= |Pending(rows, locked)|
      && ById(table) && Pending(table, locked) == Pending(rows, locked)[|copied|..]
      && (copied == [] ==> table == rows)
  {
    var copied := Copied(Fetched(rows, locked, fault), fault);
    assert copied == Pending(rows, locked)[..|copied|];
    FlaggingFirst(rows, locked, |copied|);
  }

  lemma FlaggingBatch(rows: seq<OutboxRow>, locked: set<RowId>)
    requires ById(rows)
    ensures
      var batch := Batch(rows, locked);
      var table := Flagged(rows, IdsOf(batch));
      ById(table) && Pending(table, locked) == Pending(rows, locked)[|batch|..]
  {
    FlaggingCopied(rows, locked, NO_FAULT);
  }

  lemma FlaggingNone(rows: seq<OutboxRow>)
    ensures Flagged(rows, IdsOf([])) == rows
  {
  }

  lemma {:induction false} PendingPrefix(rows: seq<OutboxRow>, locked: set<RowId>, i: nat)
    requires i <= |rows|
    ensures Pending(rows[..i], locked) <= Pending(rows, locked)
    decreases |rows|
  {
    if i == |rows| {
      assert rows[..i] == rows;
    } else {
      PendingPrefix(rows[..|rows| - 1], locked, i);
      assert rows[..|rows| - 1][..i] == rows[..i];
    }
  }
}
