/** Interval reasoning over the reservation table: overlap counts against point-in-time load. */
module Reservations {
  import opened Domain

  type Test = Reservation -> bool

  /** The filter of `count_overlapping`. */
  function Overlapping(segment: SegmentId, start: Instant, end: Instant): Test {
    (r: Reservation) => r.segment == segment && r.start < end && r.end > start
  }

  /** The rows that occupy `segment` at instant `t`. */
  function Covering(segment: SegmentId, t: Instant): Test {
    (r: Reservation) => r.segment == segment && r.start <= t < r.end
  }

  function OfBooking(booking: BookingId): Test {
    (r: Reservation) => r.booking == booking
  }

  function Count(rows: seq<Reservation>, test: Test): nat {
    if rows == [] then 0
    else Count(rows[..|rows| - 1], test) + if test(rows[|rows| - 1]) then 1 else 0
  }

  function Filter(rows: seq<Reservation>, test: Test): seq<Reservation> {
    if rows == [] then []
    else Filter(rows[..|rows| - 1], test) + if test(rows[|rows| - 1]) then [rows[|rows| - 1]] else []
  }

  function CountOverlapping(rows: seq<Reservation>, segment: SegmentId, start: Instant, end: Instant): nat {
    Count(rows, Overlapping(segment, start, end))
  }

  function Load(rows: seq<Reservation>, segment: SegmentId, t: Instant): nat {
    Count(rows, Covering(segment, t))
  }

  function RowsOf(rows: seq<Reservation>, booking: BookingId): seq<Reservation> {
    Filter(rows, OfBooking(booking))
  }

  function NotOf(booking: BookingId): Test {
    (r: Reservation) => r.booking != booking
  }

  /** The windows a DELETE by booking leaves. */
  function Without(rows: seq<Reservation>, booking: BookingId): seq<Reservation> {
    Filter(rows, NotOf(booking))
  }

  // ----- rows with identity

  /** A stored row. The rows one assessment inserts are told from equal rows of another by `id`, which stands for their keys. */
  datatype Row = Row(id: nat, window: Reservation)

  function Content(rows: seq<Row>): (windows: seq<Reservation>)
    ensures |windows| == |rows|
  {
    seq(|rows|, i requires 0 <= i < |rows| => rows[i].window)
  }

  function Tagged(id: nat, windows: seq<Reservation>): (rows: seq<Row>)
    ensures |rows| == |windows|
  {
    seq(|windows|, i requires 0 <= i < |windows| => Row(id, windows[i]))
  }

  /** What a DELETE leaves once it commits: every row outside the statement's snapshot. */
  function Left(rows: seq<Row>, doomed: set<nat>): seq<Row> {
    if rows == [] then []
    else
      var last := rows[|rows| - 1];
      Left(rows[..|rows| - 1], doomed) + if last.id in doomed then [] else [last]
  }

  /** The snapshot of a DELETE by booking. */
  function IdsOf(rows: seq<Row>, booking: BookingId): set<nat> {
    set r | r in rows && r.window.booking == booking :: r.id
  }

  /** Every row names a known segment, and no segment is ever over its capacity at any instant. */
  ghost predicate WithinCapacity(rows: seq<Reservation>, capacities: map<SegmentId, nat>) {
    && (forall r :: r in rows ==> r.segment in capacities)
    && (forall segment, t {:trigger Load(rows, segment, t)} ::
          segment in capacities ==> Load(rows, segment, t) <= capacities[segment])
  }

  // ----- counting

  lemma {:induction false} CountAppend(a: seq<Reservation>, b: seq<Reservation>, test: Test)
    ensures Count(a + b, test) == Count(a, test) + Count(b, test)
  {
    if b == [] {
      assert a + b == a;
    } else {
      CountAppend(a, b[..|b| - 1], test);
      assert (a + b)[..|a + b| - 1] == a + b[..|b| - 1];
    }
  }

  lemma {:induction false} CountImplies(rows: seq<Reservation>, p: Test, q: Test)
    requires forall r :: r in rows && p(r) ==> q(r)
    ensures Count(rows, p) <= Count(rows, q)
  {
    if rows != [] {
      CountImplies(rows[..|rows| - 1], p, q);
    }
  }

  lemma {:induction false} CountCover(rows: seq<Reservation>, p: Test, q: Test, q': Test)
    requires forall r :: r in rows && p(r) ==> q(r) || q'(r)
    ensures Count(rows, p) <= Count(rows, q) + Count(rows, q')
  {
    if rows != [] {
      CountCover(rows[..|rows| - 1], p, q, q');
    }
  }

  /** A count is the number of positions that pass the test. */
  lemma {:induction false} CountIsSize(rows: seq<Reservation>, test: Test)
    ensures Count(rows, test) == |set k | 0 <= k < |rows| && test(rows[k])|
  {
    var positions := set k | 0 <= k < |rows| && test(rows[k]);
    if rows == [] {
      assert positions == {};
    } else {
      var front, n := rows[..|rows| - 1], |rows| - 1;
      CountIsSize(front, test);
      var before := set k | 0 <= k < |front| && test(front[k]);
      assert positions == if test(rows[n]) then before + {n} else before;
    }
  }

  lemma {:induction false} CountPositive(rows: seq<Reservation>, test: Test)
    ensures Count(rows, test) > 0 <==> exists r :: r in rows && test(r)
  {
    if rows != [] {
      var front, last := rows[..|rows| - 1], rows[|rows| - 1];
      CountPositive(front, test);
      assert rows == front + [last];
      if test(last) {
        assert last in rows;
      }
    }
  }

  /** Rows with pairwise distinct segments put at most one window on any one segment. */
  lemma {:induction false} CountAtMostOne(rows: seq<Reservation>, segment: SegmentId, test: Test)
    requires forall i, j :: 0 <= i < j < |rows| ==> rows[i].segment != rows[j].segment
    requires forall r :: r in rows && test(r) ==> r.segment == segment
    ensures Count(rows, test) <= 1
  {
    if rows != [] {
      var front, last := rows[..|rows| - 1], rows[|rows| - 1];
      CountAtMostOne(front, segment, test);
      CountPositive(front, test);
    }
  }

  // ----- filtering

  lemma {:induction false} FilterMember(rows: seq<Reservation>, test: Test, r: Reservation)
    ensures r in Filter(rows, test) <==> r in rows && test(r)
  {
    if rows != [] {
      var front, last := rows[..|rows| - 1], rows[|rows| - 1];
      FilterMember(front, test, r);
      assert rows == front + [last];
    }
  }

  lemma {:induction false} FilterAppend(a: seq<Reservation>, b: seq<Reservation>, test: Test)
    ensures Filter(a + b, test) == Filter(a, test) + Filter(b, test)
  {
    if b == [] {
      assert a + b == a;
    } else {
      FilterAppend(a, b[..|b| - 1], test);
      assert (a + b)[..|a + b| - 1] == a + b[..|b| - 1];
    }
  }

  lemma {:induction false} FilterAllOrNone(rows: seq<Reservation>, test: Test)
    ensures (forall r :: r in rows ==> test(r)) ==> Filter(rows, test) == rows
    ensures (forall r :: r in rows ==> !test(r)) ==> Filter(rows, test) == []
  {
    if rows != [] {
      var front, last := rows[..|rows| - 1], rows[|rows| - 1];
      FilterAllOrNone(front, test);
      assert rows == front + [last];
    }
  }

  /** Rows of one booking appended to the table show up in that booking's rows only. */
  lemma RowsOfAppend(rows: seq<Reservation>, booking: BookingId, added: seq<Reservation>, b: BookingId)
    requires forall r :: r in added ==> r.booking == booking
    ensures RowsOf(rows + added, b) == if b == booking then RowsOf(rows, b) + added else RowsOf(rows, b)
  {
    FilterAppend(rows, added, OfBooking(b));
    FilterAllOrNone(added, OfBooking(b));
  }

  // ----- the table and its content

  lemma ContentAppend(a: seq<Row>, b: seq<Row>)
    ensures Content(a + b) == Content(a) + Content(b)
  {
  }

  lemma ContentTagged(id: nat, windows: seq<Reservation>)
    ensures Content(Tagged(id, windows)) == windows
  {
  }

  /** Inserting windows under one id. */
  lemma ContentInsert(rows: seq<Row>, id: nat, windows: seq<Reservation>)
    ensures Content(rows + Tagged(id, windows)) == Content(rows) + windows
    ensures forall r :: r in rows + Tagged(id, windows) <==> r in rows || (r.id == id && r.window in windows)
  {
    ContentAppend(rows, Tagged(id, windows));
    ContentTagged(id, windows);
    forall r: Row | r.id == id && r.window in windows ensures r in Tagged(id, windows) {
      var i :| 0 <= i < |windows| && windows[i] == r.window;
      assert Tagged(id, windows)[i] == r;
    }
  }

  lemma ContentMember(rows: seq<Row>, w: Reservation)
    ensures w in Content(rows) <==> exists r :: r in rows && r.window == w
  {
    if r :| r in rows && r.window == w {
      var i :| 0 <= i < |rows| && rows[i] == r;
      assert Content(rows)[i] == w;
    }
  }

  /** A booking's windows are there exactly if a row of it is. */
  lemma HoldsSomeRow(rows: seq<Row>, booking: BookingId)
    ensures RowsOf(Content(rows), booking) != [] <==> exists r :: r in rows && r.window.booking == booking
  {
    var own := RowsOf(Content(rows), booking);
    if own != [] {
      FilterMember(Content(rows), OfBooking(booking), own[0]);
      ContentMember(rows, own[0]);
    }
    if r :| r in rows && r.window.booking == booking {
      ContentMember(rows, r.window);
      FilterMember(Content(rows), OfBooking(booking), r.window);
    }
  }

  lemma {:induction false} LeftMember(rows: seq<Row>, doomed: set<nat>, r: Row)
    ensures r in Left(rows, doomed) <==> r in rows && r.id !in doomed
  {
    if rows != [] {
      var front, last := rows[..|rows| - 1], rows[|rows| - 1];
      LeftMember(front, doomed, r);
      assert rows == front + [last];
    }
  }

  /** The content of a table is that of its front and its last row. */
  lemma ContentLast(rows: seq<Row>)
    requires rows != []
    ensures Content(rows)[..|rows| - 1] == Content(rows[..|rows| - 1])
    ensures Content(rows)[|rows| - 1] == rows[|rows| - 1].window
  {
  }

  lemma {:induction false} LeftLowersCount(rows: seq<Row>, doomed: set<nat>, test: Test)
    ensures Count(Content(Left(rows, doomed)), test) <= Count(Content(rows), test)
  {
    if rows != [] {
      var front, last := rows[..|rows| - 1], rows[|rows| - 1];
      LeftLowersCount(front, doomed, test);
      ContentLast(rows);
      if last.id !in doomed {
        ContentAppend(Left(front, doomed), [last]);
        CountAppend(Content(Left(front, doomed)), Content([last]), test);
        assert Content([last]) == [last.window];
        assert Count([last.window], test) == if test(last.window) then 1 else 0;
      } else {
        assert Left(rows, doomed) == Left(front, doomed);
      }
    }
  }

  /** One more row, kept or deleted. */
  lemma LeftOneMore(rows: seq<Row>, doomed: set<nat>, booking: BookingId)
    requires rows != []
    ensures
      var front, last := rows[..|rows| - 1], rows[|rows| - 1];
      && RowsOf(Content(Left(rows, doomed)), booking) ==
           RowsOf(Content(Left(front, doomed)), booking) +
           (if last.id !in doomed && last.window.booking == booking then [last.window] else [])
      && RowsOf(Content(rows), booking) ==
           RowsOf(Content(front), booking) + (if last.window.booking == booking then [last.window] else [])
  {
    var front, last := rows[..|rows| - 1], rows[|rows| - 1];
    ContentLast(rows);
    if last.id !in doomed {
      ContentLast(Left(front, doomed) + [last]);
      assert (Left(front, doomed) + [last])[..|Left(front, doomed)|] == Left(front, doomed);
    } else {
      assert Left(rows, doomed) == Left(front, doomed);
    }
  }

  /** A snapshot with all or none of a booking's rows leaves none or all of its windows. */
  lemma {:induction false} LeftAllOrNone(rows: seq<Row>, doomed: set<nat>, booking: BookingId)
    ensures (forall r :: r in rows && r.window.booking == booking ==> r.id in doomed) ==> RowsOf(Content(Left(rows, doomed)), booking) == []
    ensures (forall r :: r in rows && r.window.booking == booking ==> r.id !in doomed) ==>
      RowsOf(Content(Left(rows, doomed)), booking) == RowsOf(Content(rows), booking)
  {
    if rows != [] {
      var front, last := rows[..|rows| - 1], rows[|rows| - 1];
      LeftAllOrNone(front, doomed, booking);
      LeftOneMore(rows, doomed, booking);
      assert rows == front + [last];
    }
  }

  /** A snapshot of exactly a booking's rows leaves the table without it. */
  lemma {:induction false} LeftIsWithout(rows: seq<Row>, doomed: set<nat>, booking: BookingId)
    requires forall r :: r in rows ==> (r.id in doomed <==> r.window.booking == booking)
    ensures Content(Left(rows, doomed)) == Without(Content(rows), booking)
  {
    if rows != [] {
      var front, last := rows[..|rows| - 1], rows[|rows| - 1];
      assert rows == front + [last];
      LeftIsWithout(front, doomed, booking);
      ContentLast(rows);
      if last.id !in doomed {
        ContentAppend(Left(front, doomed), [last]);
        assert Content([last]) == [last.window];
      } else {
        assert Left(rows, doomed) == Left(front, doomed);
      }
    }
  }

  lemma {:induction false} LeftNothing(rows: seq<Row>)
    ensures Left(rows, {}) == rows
  {
    if rows != [] {
      LeftNothing(rows[..|rows| - 1]);
      assert rows == rows[..|rows| - 1] + [rows[|rows| - 1]];
    }
  }

  // ----- capacity

  /** An overlap count over a window bounds the load at each of its instants. */
  lemma LoadWithinOverlap(rows: seq<Reservation>, segment: SegmentId, start: Instant, end: Instant, t: Instant)
    requires start <= t < end
    ensures Load(rows, segment, t) <= CountOverlapping(rows, segment, start, end)
  {
    CountImplies(rows, Covering(segment, t), Overlapping(segment, start, end));
  }

  /** Adding windows on distinct segments, each found below capacity, keeps every instant within capacity. */
  lemma InsertKeepsCapacity(rows: seq<Reservation>, added: seq<Reservation>, capacities: map<SegmentId, nat>)
    requires WithinCapacity(rows, capacities)
    requires forall i, j :: 0 <= i < j < |added| ==> added[i].segment != added[j].segment
    requires forall r :: r in added ==>
      && r.segment in capacities
      && CountOverlapping(rows, r.segment, r.start, r.end) < capacities[r.segment]
    ensures WithinCapacity(rows + added, capacities)
  {
    forall segment, t | segment in capacities
      ensures Load(rows + added, segment, t) <= capacities[segment]
    {
      CountAppend(rows, added, Covering(segment, t));
      CountAtMostOne(added, segment, Covering(segment, t));
      CountPositive(added, Covering(segment, t));
      if Load(added, segment, t) > 0 {
        var r :| r in added && Covering(segment, t)(r);
        LoadWithinOverlap(rows, segment, r.start, r.end, t);
      }
      assert Load(rows, segment, t) <= capacities[segment];
    }
  }

  /** Deleting any rows at any moment keeps every instant within capacity. */
  lemma RemoveKeepsCapacity(rows: seq<Row>, doomed: set<nat>, capacities: map<SegmentId, nat>)
    requires WithinCapacity(Content(rows), capacities)
    ensures WithinCapacity(Content(Left(rows, doomed)), capacities)
  {
    forall w | w in Content(Left(rows, doomed)) ensures w.segment in capacities {
      ContentMember(Left(rows, doomed), w);
      var r :| r in Left(rows, doomed) && r.window == w;
      LeftMember(rows, doomed, r);
      ContentMember(rows, w);
    }
    forall segment, t | segment in capacities
      ensures Load(Content(Left(rows, doomed)), segment, t) <= capacities[segment]
    {
      LeftLowersCount(rows, doomed, Covering(segment, t));
      assert Load(Content(rows), segment, t) <= capacities[segment];
    }
  }

  /** Deleting rows only lowers an overlap count, so a check once passed stays passed. */
  lemma RemoveLowersOverlap(rows: seq<Row>, doomed: set<nat>, segment: SegmentId, start: Instant, end: Instant)
    ensures CountOverlapping(Content(Left(rows, doomed)), segment, start, end) <= CountOverlapping(Content(rows), segment, start, end)
  {
    LeftLowersCount(rows, doomed, Overlapping(segment, start, end));
  }

  /** Rows on other segments do not move an overlap count. */
  lemma OtherSegmentsKeepOverlap(rows: seq<Reservation>, added: seq<Reservation>, segment: SegmentId, start: Instant, end: Instant)
    requires forall r :: r in added ==> r.segment != segment
    ensures CountOverlapping(rows + added, segment, start, end) == CountOverlapping(rows, segment, start, end)
  {
    CountAppend(rows, added, Overlapping(segment, start, end));
    CountPositive(added, Overlapping(segment, start, end));
  }

  // ----- how conservative a rejection can be

  /**
   * When the windows already there are at least as long as the new one, a failed check means that the
   * first or the last instant of the new window is already half full.
   */
  lemma RejectionIsHalfFull(rows: seq<Reservation>, segment: SegmentId, start: Instant, end: Instant, capacity: nat)
    requires start < end
    requires forall r :: r in rows && r.segment == segment ==> r.end - r.start >= end - start
    requires CountOverlapping(rows, segment, start, end) >= capacity
    ensures exists t :: start <= t < end && 2 * Load(rows, segment, t) >= capacity
  {
    CountCover(rows, Overlapping(segment, start, end), Covering(segment, start), Covering(segment, end - 1));
    assert Load(rows, segment, start) + Load(rows, segment, end - 1) >= capacity;
    if 2 * Load(rows, segment, start) < capacity {
      assert 2 * Load(rows, segment, end - 1) >= capacity;
    }
  }

  /** `n` trips of ten, back to back in turn: the odd ones during [0, 10), the even ones during [10, 20). */
  function BackToBack(segment: SegmentId, n: nat): seq<Reservation> {
    if n == 0 then []
    else
      var start := if n % 2 == 1 then 0 else 10;
      BackToBack(segment, n - 1) + [Reservation(n, segment, start, start + 10)]
  }

  lemma {:induction false} BackToBackLoad(segment: SegmentId, n: nat, t: Instant)
    ensures Load(BackToBack(segment, n), segment, t) == if 0 <= t < 10 then (n + 1) / 2 else if 10 <= t < 20 then n / 2 else 0
  {
    if n > 0 {
      BackToBackLoad(segment, n - 1, t);
      var rows := BackToBack(segment, n);
      assert rows[..|rows| - 1] == BackToBack(segment, n - 1);
    }
  }

  /**
   * Half is the best possible bound, for every capacity: `n` trips as long as the new one fill a segment of `n` places for it,
   * though no instant is ever loaded with more than half of them, rounded up.
   */
  lemma {:induction false} HalfFullIsTight(segment: SegmentId, n: nat)
    ensures CountOverlapping(BackToBack(segment, n), segment, 5, 15) == n
    ensures forall r :: r in BackToBack(segment, n) ==> r.segment == segment && r.end - r.start == 15 - 5
    ensures forall t :: Load(BackToBack(segment, n), segment, t) <= (n + 1) / 2
  {
    if n > 0 {
      HalfFullIsTight(segment, n - 1);
      var rows := BackToBack(segment, n);
      assert rows[..|rows| - 1] == BackToBack(segment, n - 1);
    }
    forall t ensures Load(BackToBack(segment, n), segment, t) <= (n + 1) / 2 {
      BackToBackLoad(segment, n, t);
    }
  }

  /** With a single place the check is exact: it fails exactly when the new window meets an occupied instant. */
  lemma SinglePlaceCheckIsExact(rows: seq<Reservation>, segment: SegmentId, start: Instant, end: Instant)
    requires start < end
    requires forall r :: r in rows && r.segment == segment ==> r.start < r.end
    ensures CountOverlapping(rows, segment, start, end) >= 1 <==>
            exists t :: start <= t < end && Load(rows, segment, t) >= 1
  {
    CountPositive(rows, Overlapping(segment, start, end));
    if CountOverlapping(rows, segment, start, end) >= 1 {
      var r :| r in rows && Overlapping(segment, start, end)(r);
      var t := if r.start < start then start else r.start;
      assert Covering(segment, t)(r);
      CountPositive(rows, Covering(segment, t));
      assert start <= t < end && Load(rows, segment, t) >= 1;
    }
    if exists t :: start <= t < end && Load(rows, segment, t) >= 1 {
      var t :| start <= t < end && Load(rows, segment, t) >= 1;
      LoadWithinOverlap(rows, segment, start, end, t);
    }
  }
}
