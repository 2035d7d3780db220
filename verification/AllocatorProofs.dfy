/** Every step of the allocator keeps its invariant. */
module AllocatorProofs {
  import opened Domain
  import opened Reservations
  import opened Assessment
  import opened Segmentation
  import opened Allocator

  /** A growing catalogue never changes a capacity. */
  lemma CapacitiesGrow(table: seq<Segment>, later: seq<Segment>, id: SegmentId)
    requires Partition(table) && Partition(later) && table <= later && id in Capacities(table)
    ensures id in Capacities(later) && Capacities(later)[id] == Capacities(table)[id]
  {
    CapacityOfRow(table);
    var s :| s in table && s.id == id;
    var i :| 0 <= i < |table| && table[i] == s;
    assert later[i] == s;
    CapacityOfRow(later);
  }

  /** The committed tables only gained rows between `s` and `s'`; the reservations are the same. */
  ghost predicate Grew(s: State, s': State) {
    && Partition(s.segments) && Partition(s'.segments) && s.segments <= s'.segments
    && (forall id :: id in s.routes ==> id in s'.routes && s'.routes[id] == s.routes[id])
    && (forall b :: b in s.orders ==> b in s'.orders && s'.orders[b] == s.orders[b])
    && s.processed <= s'.processed
    && s'.rows == s.rows && s'.used == s.used
  }

  lemma TxCarries(s: State, s': State, tx: Tx)
    requires Grew(s, s') && TxOk(s, tx)
    ensures TxOk(s', tx)
  {
    forall id | id in tx.found ensures id in Capacities(s'.segments) && Capacities(s'.segments)[id] == tx.found[id] {
      CapacitiesGrow(s.segments, s'.segments, id);
    }
  }

  lemma TablesCarry(s: State, s': State)
    requires Grew(s, s')
    ensures WithinCapacity(Table(s), Capacities(s.segments)) ==> WithinCapacity(Table(s'), Capacities(s'.segments))
  {
    var before, after := Capacities(s.segments), Capacities(s'.segments);
    forall id | id in before ensures id in after && after[id] == before[id] {
      CapacitiesGrow(s.segments, s'.segments, id);
    }
    if WithinCapacity(Table(s), before) {
      forall segment, t | segment in after ensures Load(Table(s), segment, t) <= after[segment] {
        if segment !in before {
          CountPositive(Table(s), Covering(segment, t));
        } else {
          assert Load(Table(s), segment, t) <= before[segment];
        }
      }
    }
  }

  lemma InvMakeRoute(s: State, step: Step)
    requires Inv(s) && Enabled(s, step) && step.MakeRoute?
    ensures Inv(Next(s, step))
  {
    var s' := Next(s, step);
    SegmentedKeepsPartition(s.segments, step.steps, step.table, step.ids);
    SegmentedCovers(s.segments, step.steps, step.table, step.ids);
    assert Grew(s, s');
    TablesCarry(s, s');
    forall t | 0 <= t < |s.txs| && s.txs[t].open ensures TxOk(s', s.txs[t]) {
      TxCarries(s, s', s.txs[t]);
    }
    forall id | id in s'.routes ensures RouteOk(s'.segments, s'.routes[id]) {
      if id != step.id && s.routes[id].edges.Some? {
        assert RouteOk(s.segments, s.routes[id]);
        OwnersStay(s.segments, s'.segments, s.routes[id].edges.value);
      }
    }
  }

  lemma InvArrivals(s: State, step: Step)
    requires Inv(s) && Enabled(s, step) && (step.LoadRoute? || step.PlaceOrder?)
    ensures Inv(Next(s, step))
  {
    var s' := Next(s, step);
    assert Grew(s, s');
    TablesCarry(s, s');
    forall t | 0 <= t < |s.txs| && s.txs[t].open ensures TxOk(s', s.txs[t]) {
      TxCarries(s, s', s.txs[t]);
    }
  }

  /** Steps that touch only the transaction list and leave the locks exclusive. */
  lemma InvOneTx(s: State, s': State, t: nat)
    requires Inv(s)
    requires s' == s.(txs := s'.txs) && t < |s'.txs|
    requires |s'.txs| >= |s.txs| && forall u :: 0 <= u < |s'.txs| && u != t ==> u < |s.txs| && s'.txs[u] == s.txs[u]
    requires s'.txs[t].open ==> TxOk(s, s'.txs[t]) && Passed(Table(s), s'.txs[t])
    requires forall u :: 0 <= u < |s'.txs| && u != t ==> Held(s'.txs[u]) !! Held(s'.txs[t])
    ensures Inv(s')
  {
    assert Grew(s, s');
    TablesCarry(s, s');
    forall u | 0 <= u < |s'.txs| && s'.txs[u].open ensures TxOk(s', s'.txs[u]) && Passed(Table(s'), s'.txs[u]) {
      if u != t {
        assert TxOk(s, s.txs[u]) && Passed(Table(s), s.txs[u]);
        TxCarries(s, s', s.txs[u]);
      } else {
        TxCarries(s, s', s'.txs[t]);
      }
    }
  }

  lemma InvBegin(s: State, step: Step)
    requires Inv(s) && Enabled(s, step) && step.Begin?
    ensures Inv(Next(s, step))
  {
    var s' := Next(s, step);
    var tx := Started(s, step.booking, step.consumer, step.toLock);
    assert tx.found.Keys <= Elements(Segments(tx));
    assert Held(tx) == {};
    InvOneTx(s, s', |s.txs|);
  }

  lemma InvLockRow(s: State, step: Step)
    requires Inv(s) && Enabled(s, step) && step.LockRow?
    ensures Inv(Next(s, step))
  {
    var s', t := Next(s, step), step.t;
    var tx, tx' := s.txs[t], s'.txs[t];
    assert TxOk(s, tx) && Passed(Table(s), tx);
    assert tx.toLock[..tx.locked + 1] == tx.toLock[..tx.locked] + [tx.toLock[tx.locked]];
    assert Held(tx') == Held(tx) + {tx.toLock[tx.locked]};
    assert tx.counted == 0 && tx.verdict.None?;
    InvOneTx(s, s', t);
  }

  lemma InvCheck(s: State, step: Step)
    requires Inv(s) && Enabled(s, step) && step.Check?
    ensures Inv(Next(s, step))
  {
    var s', t := Next(s, step), step.t;
    var tx, tx' := s.txs[t], s'.txs[t];
    assert TxOk(s, tx) && Passed(Table(s), tx);
    assert tx.route.Some?;
    assert Windows(tx.booking, tx.departure, tx.route.value) == Windows(tx'.booking, tx'.departure, tx'.route.value);
    assert Held(tx') == Held(tx);
    InvOneTx(s, s', t);
  }

  lemma InvAbort(s: State, step: Step)
    requires Inv(s) && Enabled(s, step) && step.Abort?
    ensures Inv(Next(s, step))
  {
    InvOneTx(s, Next(s, step), step.t);
  }

  // ----- commit

  /** An approved transaction's counts, still good at commit, are a full atomic approval. */
  lemma ApprovalStillHolds(s: State, t: nat)
    requires Inv(s) && t < |s.txs| && s.txs[t].open && s.txs[t].verdict == Some(true)
    ensures Approves(Table(s), Capacities(s.segments), s.txs[t].departure, s.txs[t].route)
    ensures Elements(Segments(s.txs[t])) == Held(s.txs[t])
  {
    var tx := s.txs[t];
    assert TxOk(s, tx) && Passed(Table(s), tx);
    var route := tx.route.value;
    assert Found(tx.found, route.segmentIds) == tx.found;
    CapacitiesComplete(tx.found, route.segmentIds);
    assert tx.toLock[..tx.locked] == tx.toLock;
    var ws, ws0 := Windows(tx.booking, tx.departure, route), Windows(0, tx.departure, route);
    forall i | 0 <= i < |route.segmentIds| ensures Fits(Table(s), Capacities(s.segments), ws0[i]) {
      assert Fits(Table(s), tx.found, ws[i]);
      assert ws[i].segment == ws0[i].segment && ws[i].start == ws0[i].start && ws[i].end == ws0[i].end;
    }
  }

  /** Windows on rows another transaction has locked leave this transaction's passed counts alone. */
  lemma PassedSurvivesInsert(s: State, u: nat, added: seq<Reservation>)
    requires Inv(s) && u < |s.txs| && s.txs[u].open
    requires forall r :: r in added ==> r.segment !in Held(s.txs[u])
    ensures Passed(Table(s) + added, s.txs[u])
  {
    var tx := s.txs[u];
    assert TxOk(s, tx) && Passed(Table(s), tx);
    if tx.verdict != Some(false) && tx.route.Some? && tx.counted > 0 {
      var ids, ws := tx.route.value.segmentIds, Windows(tx.booking, tx.departure, tx.route.value);
      assert Found(tx.found, ids) == tx.found;
      CapacitiesComplete(tx.found, ids);
      assert tx.toLock[..tx.locked] == tx.toLock;
      forall i | 0 <= i < tx.counted && i < |ids| ensures Fits(Table(s) + added, tx.found, ws[i]) {
        assert Fits(Table(s), tx.found, ws[i]);
        assert ids[i] in Elements(ids);
        OtherSegmentsKeepOverlap(Table(s), added, ws[i].segment, ws[i].start, ws[i].end);
      }
    }
  }

  lemma InvCommit(s: State, step: Step)
    requires Inv(s) && Enabled(s, step) && step.Commit?
    ensures Inv(Next(s, step))
  {
    var s', t := Next(s, step), step.t;
    var tx := s.txs[t];
    var closed := s.(txs := s'.txs);
    assert Held(s'.txs[t]) == {};
    InvOneTx(s, closed, t);
    if (tx.booking, tx.consumer) !in s.processed {
      var added := Reserved(tx.verdict.value, tx.booking, tx.departure, tx.route);
      ContentInsert(s.rows, step.id, added);
      assert Table(s') == Table(closed) + added;
      if tx.verdict.value {
        ApprovalStillHolds(s, t);
        ApprovalKeepsCapacity(Table(s), Capacities(s.segments), tx.departure, tx.route, tx.booking);
      } else {
        assert Table(s) + added == Table(s);
      }
      forall u | 0 <= u < |s'.txs| && s'.txs[u].open ensures TxOk(s', s'.txs[u]) && Passed(Table(s'), s'.txs[u]) {
        assert TxOk(closed, closed.txs[u]);
        assert Held(s.txs[u]) !! Held(s.txs[t]);
        forall r | r in added ensures r.segment !in Held(closed.txs[u]) {
          assert r.segment in Elements(Segments(tx));
        }
        PassedSurvivesInsert(closed, u, added);
      }
    }
  }

  // ----- releases

  /** Starting or giving up a release touches no committed table. */
  lemma InvReleases(s: State, step: Step)
    requires Inv(s) && Enabled(s, step) && (step.Delete? || step.AbortRelease?)
    ensures Inv(Next(s, step))
  {
    var s' := Next(s, step);
    assert Grew(s, s');
    TablesCarry(s, s');
    forall t | 0 <= t < |s.txs| && s.txs[t].open ensures TxOk(s', s.txs[t]) {
      TxCarries(s, s', s.txs[t]);
    }
  }

  /** What a pending DELETE leaves of each booking: the whole of it, or nothing of its own. */
  lemma RowsAfterRemoval(s: State, rel: Release, b: BookingId)
    requires ReleaseOk(s, rel)
    ensures RowsOf(Content(Left(s.rows, rel.doomed)), b)
         == if b == rel.booking && rel.doomed != {} then [] else RowsOf(Table(s), b)
  {
    LeftAllOrNone(s.rows, rel.doomed, b);
  }

  lemma InvCommitRelease(s: State, step: Step)
    requires Inv(s) && Enabled(s, step) && step.CommitRelease?
    ensures Inv(Next(s, step))
  {
    var s', rel := Next(s, step), s.releases[step.r];
    RemoveKeepsCapacity(s.rows, rel.doomed, Capacities(s.segments));
    forall t | 0 <= t < |s.txs| && s.txs[t].open ensures TxOk(s', s.txs[t]) && Passed(Table(s'), s.txs[t]) {
      PassedSurvivesRemoval(s, t, rel.doomed);
    }
  }

  /** Unlocked deletes cannot spoil a count that has passed. */
  lemma PassedSurvivesRemoval(s: State, t: nat, doomed: set<nat>)
    requires Inv(s) && t < |s.txs| && s.txs[t].open
    ensures Passed(Content(Left(s.rows, doomed)), s.txs[t])
  {
    var tx := s.txs[t];
    assert Passed(Table(s), tx);
    if tx.verdict != Some(false) && tx.route.Some? {
      var ws := Windows(tx.booking, tx.departure, tx.route.value);
      forall i | 0 <= i < tx.counted && i < |Segments(tx)| ensures Fits(Content(Left(s.rows, doomed)), tx.found, ws[i]) {
        assert Fits(Table(s), tx.found, ws[i]);
        RemoveLowersOverlap(s.rows, doomed, ws[i].segment, ws[i].start, ws[i].end);
      }
    }
  }

  // ----- all steps, all runs

  lemma StepKeepsInv(s: State, step: Step)
    requires Inv(s) && Enabled(s, step)
    ensures Inv(Next(s, step))
  {
    match step
    case MakeRoute(_, _, _, _, _) => InvMakeRoute(s, step);
    case LoadRoute(_, _) => InvArrivals(s, step);
    case PlaceOrder(_, _) => InvArrivals(s, step);
    case Begin(_, _, _) => InvBegin(s, step);
    case LockRow(_) => InvLockRow(s, step);
    case Check(_) => InvCheck(s, step);
    case Commit(_, _) => InvCommit(s, step);
    case Abort(_) => InvAbort(s, step);
    case Delete(_, _) => InvReleases(s, step);
    case CommitRelease(_) => InvCommitRelease(s, step);
    case AbortRelease(_) => InvReleases(s, step);
  }

  lemma {:induction false} RunKeepsInv(states: seq<State>, steps: seq<Step>, n: nat)
    requires IsRun(states, steps) && n < |states|
    ensures Inv(states[n])
  {
    if n == 0 {
      assert Table(states[0]) == [];
      assert forall segment, t :: Load([], segment, t) == 0;
    } else {
      RunKeepsInv(states, steps, n - 1);
      assert Takes(states, steps, n - 1);
      StepKeepsInv(states[n - 1], steps[n - 1]);
    }
  }

  // ----- whole routes, as long as no creation is assessed twice

  lemma ProcessedStays(s: State, s': State, b: BookingId)
    requires s.processed <= s'.processed
    ensures Processed(s, b) ==> Processed(s', b)
  {
    if Processed(s, b) {
      var k :| k in s.processed && k.0 == b;
      assert k in s'.processed;
    }
  }

  lemma HoldingsCarry(s: State, s': State)
    requires Grew(s, s') && Holdings(s)
    requires forall r :: r in s'.releases ==> r in s.releases && s'.releases[r] == s.releases[r]
    ensures Holdings(s')
  {
    forall b ensures BookingOk(s', b) {
      assert BookingOk(s, b);
      ProcessedStays(s, s', b);
    }
    forall r | r in s'.releases ensures ReleaseOk(s', s'.releases[r]) {
      assert ReleaseOk(s, s.releases[r]);
      ProcessedStays(s, s', s.releases[r].booking);
    }
  }

  /** Before its creation is assessed a booking holds nothing, so afterwards it holds what the commit added. */
  lemma CommittedRows(s: State, tx: Tx, added: seq<Reservation>, b: BookingId)
    requires Holdings(s) && tx.verdict.Some? && !Processed(s, tx.booking)
    requires added == Reserved(tx.verdict.value, tx.booking, tx.departure, tx.route)
    ensures RowsOf(Table(s) + added, b) == if b == tx.booking then added else RowsOf(Table(s), b)
  {
    RowsOfAppend(Table(s), tx.booking, added, b);
    assert BookingOk(s, tx.booking);
    assert [] + added == added;
  }

  /** A commit that is not a duplicate, on a booking not assessed before. */
  ghost predicate FreshCommit(s: State, step: Step) {
    && Inv(s) && Holdings(s) && Enabled(s, step) && step.Commit?
    && (s.txs[step.t].booking, s.txs[step.t].consumer) !in s.processed
    && !Processed(s, s.txs[step.t].booking)
  }

  function Added(tx: Tx): seq<Reservation>
    requires tx.verdict.Some?
  {
    Reserved(tx.verdict.value, tx.booking, tx.departure, tx.route)
  }

  lemma CommitBookings(s: State, step: Step)
    requires FreshCommit(s, step)
    ensures Processed(Next(s, step), s.txs[step.t].booking)
    ensures forall b :: BookingOk(Next(s, step), b)
  {
    var s', tx := Next(s, step), s.txs[step.t];
    assert TxOk(s, tx);
    assert (tx.booking, tx.consumer) in s'.processed;
    ContentInsert(s.rows, step.id, Added(tx));
    if tx.verdict.value {
      ApprovalStillHolds(s, step.t);
    }
    forall b ensures BookingOk(s', b) {
      CommittedRows(s, tx, Added(tx), b);
      assert BookingOk(s, b);
      ProcessedStays(s, s', b);
    }
  }

  /** New rows carry a new id, so no release in flight is about them. */
  lemma CommitReleases(s: State, step: Step, r: nat)
    requires FreshCommit(s, step) && r in s.releases
    ensures ReleaseOk(Next(s, step), s.releases[r])
  {
    var s', tx, rel := Next(s, step), s.txs[step.t], s.releases[r];
    assert ReleaseOk(s, rel);
    ContentInsert(s.rows, step.id, Added(tx));
    ProcessedStays(s, s', rel.booking);
    if rel.doomed == {} {
    } else {
      assert forall w :: w in Added(tx) ==> w.booking == tx.booking != rel.booking;
    }
  }

  lemma CommitIds(s: State, step: Step)
    requires FreshCommit(s, step)
    ensures IdsOk(Next(s, step))
  {
    ContentInsert(s.rows, step.id, Added(s.txs[step.t]));
  }

  lemma HoldingsCommit(s: State, step: Step)
    requires Inv(s) && Holdings(s) && Enabled(s, step) && step.Commit? && Once(s, step)
    ensures Holdings(Next(s, step))
  {
    var s', tx := Next(s, step), s.txs[step.t];
    if (tx.booking, tx.consumer) in s.processed {
      assert Grew(s, s');
      HoldingsCarry(s, s');
    } else {
      CommitBookings(s, step);
      CommitIds(s, step);
      forall r | r in s'.releases ensures ReleaseOk(s', s'.releases[r]) {
        CommitReleases(s, step, r);
      }
    }
  }

  lemma HoldingsDelete(s: State, step: Step)
    requires Holdings(s) && Enabled(s, step) && step.Delete?
    ensures Holdings(Next(s, step))
  {
    var s' := Next(s, step);
    forall b ensures BookingOk(s', b) {
      assert BookingOk(s, b);
      ProcessedStays(s, s', b);
    }
    forall r | r in s'.releases ensures ReleaseOk(s', s'.releases[r]) {
      if r == step.r {
        HoldsSomeRow(s.rows, step.booking);
        assert BookingOk(s, step.booking);
        ProcessedStays(s, s', step.booking);
      } else {
        assert ReleaseOk(s, s.releases[r]);
        ProcessedStays(s, s', s.releases[r].booking);
      }
    }
  }

  lemma HoldingsRelease(s: State, step: Step)
    requires Holdings(s) && Enabled(s, step) && step.CommitRelease?
    ensures Holdings(Next(s, step))
  {
    var s', rel := Next(s, step), s.releases[step.r];
    assert ReleaseOk(s, rel);
    forall row: Row ensures row in s'.rows ==> row in s.rows {
      LeftMember(s.rows, rel.doomed, row);
    }
    forall b ensures BookingOk(s', b) {
      assert BookingOk(s, b);
      RowsAfterRemoval(s, rel, b);
      ProcessedStays(s, s', b);
    }
    forall r | r in s'.releases ensures ReleaseOk(s', s'.releases[r]) {
      assert ReleaseOk(s, s.releases[r]);
      ProcessedStays(s, s', s.releases[r].booking);
    }
  }

  lemma StepKeepsHoldings(s: State, step: Step)
    requires Inv(s) && Holdings(s) && Enabled(s, step) && Once(s, step)
    ensures Holdings(Next(s, step))
  {
    match step
    case Commit(_, _) => HoldingsCommit(s, step);
    case Delete(_, _) => HoldingsDelete(s, step);
    case CommitRelease(_) => HoldingsRelease(s, step);
    case _ =>
      StepGrows(s, step);
      HoldingsCarry(s, Next(s, step));
  }

  /** Steps other than a commit or a delete leave the reservations alone, and of releases add none. */
  lemma StepGrows(s: State, step: Step)
    requires Inv(s) && Enabled(s, step) && !step.Commit? && !step.Delete? && !step.CommitRelease?
    ensures Grew(s, Next(s, step))
    ensures forall r :: r in Next(s, step).releases ==> r in s.releases && Next(s, step).releases[r] == s.releases[r]
  {
    if step.MakeRoute? {
      SegmentedKeepsPartition(s.segments, step.steps, step.table, step.ids);
    }
  }

  lemma {:induction false} RunKeepsHoldings(states: seq<State>, steps: seq<Step>, n: nat)
    requires IsRun(states, steps) && n < |states|
    requires forall i :: 0 <= i < n ==> Once(states[i], steps[i])
    ensures Holdings(states[n])
  {
    if n == 0 {
      assert Table(states[0]) == [];
      assert forall b :: RowsOf([], b) == [];
    } else {
      RunKeepsHoldings(states, steps, n - 1);
      RunKeepsInv(states, steps, n - 1);
      assert Takes(states, steps, n - 1);
      StepKeepsHoldings(states[n - 1], steps[n - 1]);
    }
  }
}
