/** What every run of the allocator guarantees. */
module AllocatorTheorems {
  import opened Domain
  import opened Reservations
  import opened Assessment
  import opened Segmentation
  import opened Allocator
  import opened AllocatorProofs

  // ----- capacity

  /** In every state of every run, no segment is over capacity at any instant. */
  lemma CapacityNeverExceeded(states: seq<State>, steps: seq<Step>, n: nat, segment: Segment, t: Instant)
    requires IsRun(states, steps) && n < |states| && segment in states[n].segments
    ensures Load(Table(states[n]), segment.id, t) <= segment.capacity.GetOr(0)
  {
    RunKeepsInv(states, steps, n);
    CapacityOfRow(states[n].segments);
  }

  /**
   * In every state of every run in which no creation is assessed twice, a booking holds its whole route or nothing,
   * and nothing on a route with repeats.
   */
  lemma WholeRouteOrNothing(states: seq<State>, steps: seq<Step>, n: nat, b: BookingId)
    requires IsRun(states, steps) && n < |states|
    requires forall i :: 0 <= i < n ==> Once(states[i], steps[i])
    ensures RowsOf(Table(states[n]), b) == [] || (
              && b in states[n].orders && RouteOf(states[n], b).Some?
              && Distinct(RouteOf(states[n], b).value.segmentIds)
              && RowsOf(Table(states[n]), b) == Windows(b, states[n].orders[b].departure, RouteOf(states[n], b).value))
  {
    RunKeepsHoldings(states, steps, n);
    assert BookingOk(states[n], b);
  }

  // ----- linearizability

  /** What a step can do to a transaction already begun: only its own check can give it a verdict. */
  lemma TxPersists(s: State, step: Step, t: nat)
    requires Enabled(s, step) && t < |s.txs|
    ensures
      var tx, txs' := s.txs[t], Next(s, step).txs;
      && t < |txs'|
      && txs'[t].booking == tx.booking && txs'[t].consumer == tx.consumer && txs'[t].departure == tx.departure
      && txs'[t].route == tx.route && txs'[t].found == tx.found
      && (if step == Check(t) then txs'[t].verdict == Checked(Table(s), tx).verdict else txs'[t].verdict == tx.verdict)
  {
    match step
    case Check(u) =>
    case Commit(u, _) =>
    case LockRow(u) =>
    case _ =>
  }

  /** A step that makes transaction `t` appear begins it. */
  lemma TxAppears(s: State, step: Step, t: nat)
    requires Enabled(s, step) && |s.txs| <= t < |Next(s, step).txs|
    ensures step.Begin? && Next(s, step).txs[t] == Started(s, step.booking, step.consumer, step.toLock)
  {
  }

  lemma RunStep(states: seq<State>, steps: seq<Step>, m: nat)
    requires IsRun(states, steps) && m < |steps|
    ensures Enabled(states[m], steps[m]) && states[m + 1] == Next(states[m], steps[m])
    ensures Inv(states[m])
  {
    RunKeepsInv(states, steps, m);
    assert Takes(states, steps, m);
  }

  lemma StartedFound(s: State, booking: BookingId, consumer: ConsumerName, toLock: seq<SegmentId>)
    requires booking in s.orders
    ensures BegunAs(s, Started(s, booking, consumer, toLock))
  {
    assert Found(Capacities(s.segments), []) == map[];
  }

  /** `tx` is about the order and the route that `s` knew for its booking, and found the rows `s` had for that route. */
  ghost predicate BegunAs(s: State, tx: Tx) {
    && tx.booking in s.orders
    && tx.departure == s.orders[tx.booking].departure
    && tx.route == RouteOf(s, tx.booking)
    && tx.found == Found(Capacities(s.segments), Segments(tx))
  }

  /**
   * A transaction works with the order, the route and the segment rows of the state in which it itself began:
   * step `j` is the Begin that made it number `t`.
   */
  lemma {:induction false} FoundWhenBegun(states: seq<State>, steps: seq<Step>, n: nat, t: nat) returns (j: nat)
    requires IsRun(states, steps) && n < |states| && t < |states[n].txs|
    ensures j < n && steps[j].Begin? && steps[j].booking == states[n].txs[t].booking && |states[j].txs| == t
    ensures BegunAs(states[j], states[n].txs[t])
  {
    if n == 0 {
      assert false;
    } else {
      RunStep(states, steps, n - 1);
      if t < |states[n - 1].txs| {
        TxPersists(states[n - 1], steps[n - 1], t);
        j := FoundWhenBegun(states, steps, n - 1, t);
      } else {
        TxAppears(states[n - 1], steps[n - 1], t);
        j := n - 1;
        StartedFound(states[n - 1], steps[n - 1].booking, steps[n - 1].consumer, steps[n - 1].toLock);
      }
    }
  }

  /** One turn of `Checked` decides exactly when the atomic test on the same rows is decided. */
  lemma CheckedDecides(s: State, t: nat)
    requires Inv(s) && Enabled(s, Check(t))
    requires Checked(Table(s), s.txs[t]).verdict.Some?
    ensures Checked(Table(s), s.txs[t]).verdict.value <==> Approves(Table(s), s.txs[t].found, s.txs[t].departure, s.txs[t].route)
  {
    var tx := s.txs[t];
    assert TxOk(s, tx) && Passed(Table(s), tx);
    assert Found(tx.found, Segments(tx)) == tx.found;
    if |tx.found| != |Segments(tx)| {
      SizeTestDecides(Table(s), tx.found, tx.departure, tx.route.value);
    } else {
      CountsDecide(Table(s), tx);
    }
  }

  /** Too few rows found means a repeated or an unknown segment, which the atomic test refuses too. */
  lemma SizeTestDecides(rows: seq<Reservation>, found: map<SegmentId, nat>, departure: Instant, route: Route)
    requires Found(found, route.segmentIds) == found && |found| != |route.segmentIds|
    ensures !Approves(rows, found, departure, Some(route))
  {
    CapacitiesComplete(found, route.segmentIds);
    if Distinct(route.segmentIds) {
      var id :| id in Elements(route.segmentIds) && id !in found;
      var i :| 0 <= i < |route.segmentIds| && route.segmentIds[i] == id;
      assert !Fits(rows, found, Windows(0, departure, route)[i]);
    }
  }

  /** With all rows found, the turn that decides has seen every window fit or one that does not. */
  lemma CountsDecide(rows: seq<Reservation>, tx: Tx)
    requires tx.route.Some? && tx.verdict.None? && Passed(rows, tx)
    requires tx.counted < |Segments(tx)| == |tx.found| && Found(tx.found, Segments(tx)) == tx.found
    requires Checked(rows, tx).verdict.Some?
    ensures Checked(rows, tx).verdict.value <==> Approves(rows, tx.found, tx.departure, tx.route)
  {
    var route := tx.route.value;
    var ws, ws0 := Windows(tx.booking, tx.departure, route), Windows(0, tx.departure, route);
    CapacitiesComplete(tx.found, route.segmentIds);
    forall i | 0 <= i < |ws| ensures Fits(rows, tx.found, ws[i]) <==> Fits(rows, tx.found, ws0[i]) {
      assert ws[i].segment == ws0[i].segment && ws[i].start == ws0[i].start && ws[i].end == ws0[i].end;
    }
  }

  /** The step that gives a transaction its verdict is its own, and gives it the atomic one. */
  lemma DecidedNow(s: State, step: Step, t: nat)
    requires Inv(s) && Enabled(s, step) && t < |Next(s, step).txs|
    requires t < |s.txs| ==> s.txs[t].verdict.None?
    requires Next(s, step).txs[t].verdict.Some?
    ensures DecidesIn(s, step, t)
    ensures
      var tx := Next(s, step).txs[t];
      tx.verdict.value <==> Approves(Table(s), tx.found, tx.departure, tx.route)
  {
    if t < |s.txs| {
      TxPersists(s, step, t);
      CheckedDecides(s, t);
    } else {
      TxAppears(s, step, t);
    }
  }

  /** Transaction `t` decides in step `step`: with its last count, or at once when there is nothing to count. */
  ghost predicate DecidesIn(s: State, step: Step, t: nat) {
    step == Check(t) || (step.Begin? && |s.txs| == t)
  }

  /** A verdict was given by one step of the transaction, and it is the atomic answer on that step's state. */
  lemma {:induction false} DecidedOnce(states: seq<State>, steps: seq<Step>, n: nat, t: nat) returns (k: nat)
    requires IsRun(states, steps) && n < |states| && t < |states[n].txs| && states[n].txs[t].verdict.Some?
    ensures k < n && DecidesIn(states[k], steps[k], t)
    ensures
      var tx := states[n].txs[t];
      tx.verdict.value <==> Approves(Table(states[k]), tx.found, tx.departure, tx.route)
  {
    RunStep(states, steps, n - 1);
    if t < |states[n - 1].txs| && states[n - 1].txs[t].verdict.Some? {
      k := DecidedOnce(states, steps, n - 1, t);
      VerdictStays(states[n - 1], steps[n - 1], t);
    } else {
      k := n - 1;
      DecidedNow(states[n - 1], steps[n - 1], t);
    }
  }

  /** A verdict once given is never given again. */
  lemma VerdictStays(s: State, step: Step, t: nat)
    requires Enabled(s, step) && t < |s.txs| && s.txs[t].verdict.Some?
    ensures
      var tx, tx' := s.txs[t], Next(s, step).txs[t];
      t < |Next(s, step).txs|
      && tx'.verdict == tx.verdict && tx'.found == tx.found && tx'.departure == tx.departure && tx'.route == tx.route
  {
    TxPersists(s, step, t);
  }

  /**
   * Linearizable verdicts: the verdict of transaction `t`, begun in step `j`, is what one atomic assessment
   * of its booking's order would have answered on the reservations committed when `t` made its last
   * count, in step `k` (or when it began, if there was nothing to count), with the segment rows and the
   * route of its own beginning.
   */
  lemma VerdictIsAtomic(states: seq<State>, steps: seq<Step>, n: nat, t: nat) returns (j: nat, k: nat)
    requires IsRun(states, steps) && n < |states| && t < |states[n].txs| && states[n].txs[t].verdict.Some?
    ensures j <= k < n && |states[j].txs| == t && DecidesIn(states[k], steps[k], t)
    ensures
      var b := states[n].txs[t].booking;
      && steps[j].Begin? && steps[j].booking == b && b in states[j].orders
      && (states[n].txs[t].verdict.value <==>
            Approves(Table(states[k]), Found(Capacities(states[j].segments), Segments(states[n].txs[t])),
                     states[j].orders[b].departure, RouteOf(states[j], b)))
  {
    j := FoundWhenBegun(states, steps, n, t);
    k := DecidedOnce(states, steps, n, t);
    if k < j {
      assert Takes(states, steps, k);
      TxsGrow(states, steps, k + 1, j);
    }
  }

  lemma {:induction false} TxsGrow(states: seq<State>, steps: seq<Step>, m: nat, n: nat)
    requires IsRun(states, steps) && m <= n < |states|
    ensures |states[m].txs| <= |states[n].txs|
  {
    if m < n {
      TxsGrow(states, steps, m, n - 1);
      assert Takes(states, steps, n - 1);
    }
  }

  /** When the locking statement found every segment, the atomic assessment may read today's catalogue instead. */
  lemma FoundIsCurrent(table: seq<Segment>, later: seq<Segment>, ids: seq<SegmentId>)
    requires Partition(table) && Partition(later) && table <= later
    requires Elements(ids) <= Ids(table)
    ensures Found(Capacities(table), ids) == Found(Capacities(later), ids)
  {
    CapacityOfRow(table);
    CapacityOfRow(later);
    forall id | id in ids ensures id in Capacities(later) && Capacities(later)[id] == Capacities(table)[id] {
      assert id in Elements(ids);
      CapacitiesGrow(table, later, id);
    }
  }

  /**
   * What a commit leaves the booking with: the whole route if it was approved, nothing if it was rejected;
   * a redelivered event changes nothing.
   */
  lemma CommitEffect(s: State, step: Step, b: BookingId)
    requires Inv(s) && Holdings(s) && Enabled(s, step) && step.Commit? && Once(s, step)
    ensures
      var tx, s' := s.txs[step.t], Next(s, step);
      RowsOf(Table(s'), b) ==
        if b != tx.booking || (b, tx.consumer) in s.processed then RowsOf(Table(s), b)
        else if tx.verdict.value then Windows(b, s.orders[b].departure, RouteOf(s, b).value)
        else []
  {
    var tx := s.txs[step.t];
    assert TxOk(s, tx);
    if (tx.booking, tx.consumer) !in s.processed {
      ContentInsert(s.rows, step.id, Added(tx));
      CommittedRows(s, tx, Added(tx), b);
    }
  }

  // ----- the interleaved machine refines a serial one

  /** A serial allocator's move on the reservation table: nothing, one atomic approval, or one whole release. */
  datatype SerialMove = Stay | ApproveNow(booking: BookingId) | ReleaseNow(booking: BookingId)

  ghost predicate Moves(s: State, move: SerialMove, table': seq<Reservation>) {
    match move
    case Stay => table' == Table(s)
    case ApproveNow(b) =>
      && b in s.orders && !Processed(s, b)
      && Approves(Table(s), Capacities(s.segments), s.orders[b].departure, RouteOf(s, b))
      && table' == Table(s) + Windows(b, s.orders[b].departure, RouteOf(s, b).value)
    case ReleaseNow(b) => table' == Without(Table(s), b)
  }

  /** Every step, seen on the committed reservations, is a serial move: locks and snapshots leave no trace. */
  lemma StepIsSerial(s: State, step: Step) returns (move: SerialMove)
    requires Inv(s) && Holdings(s) && Enabled(s, step) && Once(s, step)
    ensures Moves(s, move, Table(Next(s, step)))
  {
    move := Stay;
    if step.Commit? {
      move := CommitIsSerial(s, step);
    } else if step.CommitRelease? {
      var rel := s.releases[step.r];
      assert ReleaseOk(s, rel);
      if rel.doomed == {} {
        LeftNothing(s.rows);
      } else {
        move := ReleaseNow(rel.booking);
        LeftIsWithout(s.rows, rel.doomed, rel.booking);
      }
    }
  }

  lemma CommitIsSerial(s: State, step: Step) returns (move: SerialMove)
    requires Inv(s) && Holdings(s) && Enabled(s, step) && Once(s, step) && step.Commit?
    ensures Moves(s, move, Table(Next(s, step)))
  {
    var tx := s.txs[step.t];
    assert TxOk(s, tx);
    ContentInsert(s.rows, step.id, Added(tx));
    var duplicate := (tx.booking, tx.consumer) in s.processed;
    if !duplicate && tx.verdict.value {
      ApprovalStillHolds(s, step.t);
      move := ApproveNow(tx.booking);
    } else {
      move := Stay;
      assert Table(s) + [] == Table(s);
    }
  }

  // ----- deadlock freedom and termination of the transactions

  predicate Wants(tx: Tx) {
    tx.open && tx.locked < |tx.toLock|
  }

  /** Some transaction waits for the greatest segment id any transaction waits for. */
  lemma {:induction false} GreatestWant(txs: seq<Tx>) returns (t: nat)
    requires exists u :: 0 <= u < |txs| && Wants(txs[u])
    ensures t < |txs| && Wants(txs[t])
    ensures forall u :: 0 <= u < |txs| && Wants(txs[u]) ==> txs[u].toLock[txs[u].locked] <= txs[t].toLock[txs[t].locked]
  {
    var front, last := txs[..|txs| - 1], txs[|txs| - 1];
    if exists u :: 0 <= u < |front| && Wants(front[u]) {
      t := GreatestWant(front);
      assert forall u :: 0 <= u < |front| ==> front[u] == txs[u];
      if Wants(last) && last.toLock[last.locked] > txs[t].toLock[txs[t].locked] {
        t := |txs| - 1;
      }
    } else {
      t := |txs| - 1;
      assert forall u :: 0 <= u < |txs| - 1 ==> txs[u] == front[u];
    }
  }

  /** Progress of a transaction other than giving up. */
  predicate Progress(step: Step) {
    step.LockRow? || step.Check? || step.Commit?
  }

  /** While any transaction is open, some transaction can lock, count or commit: no deadlock. */
  lemma DeadlockFree(s: State) returns (step: Step)
    requires Inv(s) && exists t :: 0 <= t < |s.txs| && s.txs[t].open
    ensures Progress(step) && Enabled(s, step)
  {
    if exists t :: 0 <= t < |s.txs| && s.txs[t].open && s.txs[t].locked == |s.txs[t].toLock| {
      var t :| 0 <= t < |s.txs| && s.txs[t].open && s.txs[t].locked == |s.txs[t].toLock|;
      assert TxOk(s, s.txs[t]);
      FreshIdExists(s.used);
      var id: nat :| id !in s.used;
      step := if s.txs[t].verdict.Some? then Commit(t, id) else Check(t);
    } else {
      var t0 :| 0 <= t0 < |s.txs| && s.txs[t0].open;
      assert TxOk(s, s.txs[t0]) && Wants(s.txs[t0]);
      var t := GreatestWant(s.txs);
      step := LockRow(t);
      var wanted := s.txs[t].toLock[s.txs[t].locked];
      forall u | 0 <= u < |s.txs| && u != t ensures wanted !in Held(s.txs[u]) {
        var tx := s.txs[u];
        if tx.open {
          assert TxOk(s, tx) && Wants(tx);
          assert tx.toLock[tx.locked] <= wanted;
          assert forall i :: 0 <= i < tx.locked ==> tx.toLock[..tx.locked][i] < tx.toLock[tx.locked];
        }
      }
    }
  }

  /** Steps a transaction still has to make. */
  function Todo(tx: Tx): nat {
    if !tx.open || tx.locked > |tx.toLock| || tx.counted > |Segments(tx)| then 0
    else 1 + (|tx.toLock| - tx.locked) + if tx.verdict.None? then 1 + |Segments(tx)| - tx.counted else 0
  }

  function Work(txs: seq<Tx>): nat {
    if txs == [] then 0 else Work(txs[..|txs| - 1]) + Todo(txs[|txs| - 1])
  }

  lemma {:induction false} WorkUpdate(txs: seq<Tx>, t: nat, tx: Tx)
    requires t < |txs|
    ensures Work(txs[t := tx]) == Work(txs) - Todo(txs[t]) + Todo(tx)
  {
    var n := |txs| - 1;
    if t == n {
      assert txs[t := tx][..n] == txs[..n];
    } else {
      WorkUpdate(txs[..n], t, tx);
      assert txs[t := tx][..n] == txs[..n][t := tx];
    }
  }

  predicate OfTransaction(step: Step) {
    Progress(step) || step.Abort?
  }

  lemma StepLowersWork(s: State, step: Step)
    requires Inv(s) && Enabled(s, step) && !step.Begin?
    ensures Work(Next(s, step).txs) <= Work(s.txs)
    ensures OfTransaction(step) ==> Work(Next(s, step).txs) < Work(s.txs)
  {
    if OfTransaction(step) {
      assert TxOk(s, s.txs[step.t]);
      WorkUpdate(s.txs, step.t, Next(s, step).txs[step.t]);
      assert Next(s, step).txs == s.txs[step.t := Next(s, step).txs[step.t]];
    }
  }

  lemma RunLowersWork(states: seq<State>, steps: seq<Step>, m: nat)
    requires IsRun(states, steps) && m < |steps| && !steps[m].Begin?
    ensures Work(states[m + 1].txs) + (if OfTransaction(steps[m]) then 1 else 0) <= Work(states[m].txs)
  {
    RunKeepsInv(states, steps, m);
    assert Takes(states, steps, m);
    StepLowersWork(states[m], steps[m]);
  }

  function TransactionSteps(steps: seq<Step>): nat {
    if steps == [] then 0
    else TransactionSteps(steps[..|steps| - 1]) + if OfTransaction(steps[|steps| - 1]) then 1 else 0
  }

  /**
   * All transactions eventually finish: from state `i` on, as long as no transaction begins, the
   * transactions can make at most the work left at `i`, whatever else happens in between.
   */
  lemma {:induction false} TransactionsFinish(states: seq<State>, steps: seq<Step>, i: nat, n: nat)
    requires IsRun(states, steps) && i <= n < |states|
    requires forall m :: i <= m < n ==> !steps[m].Begin?
    ensures TransactionSteps(steps[i..n]) + Work(states[n].txs) <= Work(states[i].txs)
  {
    if i < n {
      TransactionsFinish(states, steps, i, n - 1);
      RunLowersWork(states, steps, n - 1);
      assert steps[i..n][..n - i - 1] == steps[i..n - 1] && steps[i..n][n - i - 1] == steps[n - 1];
    }
  }

  // ----- edges, end to end

  /** The bookings driving over the segment `owner` at instant `t`. */
  function Active(rows: seq<Reservation>, owner: SegmentId, t: Instant): set<BookingId> {
    set r | r in rows && r.segment == owner && r.start <= t < r.end :: r.booking
  }

  lemma {:induction false} ActiveWithinLoad(rows: seq<Reservation>, owner: SegmentId, t: Instant)
    ensures |Active(rows, owner, t)| <= Load(rows, owner, t)
  {
    if rows == [] {
      assert Active(rows, owner, t) == {};
    } else {
      var front, last := rows[..|rows| - 1], rows[|rows| - 1];
      ActiveWithinLoad(front, owner, t);
      assert rows == front + [last];
      if Covering(owner, t)(last) {
        assert Active(rows, owner, t) == Active(front, owner, t) + {last.booking};
      } else {
        assert Active(rows, owner, t) == Active(front, owner, t);
      }
    }
  }

  /** At every instant at most a segment's capacity of bookings are active on it. */
  lemma ActiveWithinCapacity(states: seq<State>, steps: seq<Step>, n: nat, owner: Segment, t: Instant)
    requires IsRun(states, steps) && n < |states| && owner in states[n].segments
    ensures |Active(Table(states[n]), owner.id, t)| <= owner.capacity.GetOr(0)
  {
    CapacityNeverExceeded(states, steps, n, owner, t);
    ActiveWithinLoad(Table(states[n]), owner.id, t);
  }

  /**
   * Edge capacity end to end: when `b` holds windows on a route over edge `e`, the edge has one owning
   * segment, `b` holds exactly one window on it, and at every instant at most that segment's capacity
   * of bookings are active on it.
   */
  lemma EdgeCapacity(states: seq<State>, steps: seq<Step>, n: nat, b: BookingId, e: Edge) returns (owner: Segment)
    requires IsRun(states, steps) && n < |states|
    requires forall i :: 0 <= i < n ==> Once(states[i], steps[i])
    requires RowsOf(Table(states[n]), b) != []
    requires b in states[n].orders && states[n].orders[b].routeId in states[n].routes
    requires
      var made := states[n].routes[states[n].orders[b].routeId];
      made.edges.Some? && e in made.edges.value
    ensures SoleOwner(states[n].segments, owner, e)
    ensures Count(RowsOf(Table(states[n]), b), (r: Reservation) => r.segment == owner.id) == 1
    ensures forall t :: |Active(Table(states[n]), owner.id, t)| <= owner.capacity.GetOr(0)
  {
    var s := states[n];
    RunKeepsInv(states, steps, n);
    RunKeepsHoldings(states, steps, n);
    var made := s.routes[s.orders[b].routeId];
    assert RouteOk(s.segments, made) && BookingOk(s, b);
    assert e in Owned(s.segments);
    owner :| owner in s.segments && e in owner.edges;
    OwnerIsSole(s.segments, owner, e);
    assert e in owner.edges * made.edges.value;
    assert owner.id in Elements(made.route.segmentIds);
    OneWindowPerSegment(b, s.orders[b].departure, made.route, owner.id);
    forall t ensures |Active(Table(s), owner.id, t)| <= owner.capacity.GetOr(0) {
      ActiveWithinCapacity(states, steps, n, owner, t);
    }
  }
}
