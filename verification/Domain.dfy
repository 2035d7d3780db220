/** The entities the services share: identifiers, instants and reservation rows. */
module Domain {
  type BookingId = nat
  type DriverId = nat
  type RouteId = nat
  type SegmentId = nat

  /** An instant, in microseconds since the epoch. */
  type Instant = int

  const MICROS_PER_SECOND := 1_000_000
  const SEGMENT_OFFSET_SECONDS := 300

  /** Rows a relay takes per poll of the outbox. */
  const OUTBOX_BATCH_SIZE := 50

  datatype Option<+T> = None | Some(value: T) {
    function GetOr(default: T): T {
      if Some? then value else default
    }
  }

  /** One row of segment_reservations: `booking` occupies `segment` during [start, end). */
  datatype Reservation = Reservation(booking: BookingId, segment: SegmentId, start: Instant, end: Instant)

  /** What conflict detection reads of a route row, with the 3600 s default already applied. */
  datatype Route = Route(segmentIds: seq<SegmentId>, duration: int)

  /** Events carry an instant without its fraction of a second. */
  function WholeSeconds(t: Instant): (seconds: Instant)
    ensures seconds <= t < seconds + MICROS_PER_SECOND && seconds % MICROS_PER_SECOND == 0
  {
    t - t % MICROS_PER_SECOND
  }

  /** How a transaction ends: committed, rolled back, or committed while the caller is told it failed. */
  datatype Outcome = Done | Failed | Lost

  predicate Distinct<T(==)>(xs: seq<T>) {
    forall i, j :: 0 <= i < j < |xs| ==> xs[i] != xs[j]
  }

  predicate Ascending(ids: seq<nat>) {
    forall i, j :: 0 <= i < j < |ids| ==> ids[i] < ids[j]
  }

  function Elements<T>(xs: seq<T>): set<T> {
    set x | x in xs
  }

  /** A list has at most as many elements as positions, and as many exactly when nothing repeats. */
  lemma {:induction false} DistinctByCount<T>(xs: seq<T>)
    ensures |Elements(xs)| <= |xs|
    ensures |Elements(xs)| == |xs| <==> Distinct(xs)
  {
    if xs != [] {
      var front, last := xs[..|xs| - 1], xs[|xs| - 1];
      DistinctByCount(front);
      assert xs == front + [last];
      if last in front {
        assert Elements(xs) == Elements(front);
        var i :| 0 <= i < |front| && front[i] == last;
        assert xs[i] == xs[|xs| - 1];
      } else {
        assert Elements(xs) == Elements(front) + {last};
        if Distinct(front) {
          assert forall i, j :: 0 <= i < j < |xs| ==> xs[i] != xs[j];
        } else {
          var i, j :| 0 <= i < j < |front| && front[i] == front[j];
          assert xs[i] == xs[j];
        }
      }
    }
  }

  lemma {:induction false} SubsetSize<T>(a: set<T>, b: set<T>)
    requires a <= b
    ensures |a| <= |b|
    ensures |a| == |b| ==> a == b
  {
    if a != {} {
      var x :| x in a;
      SubsetSize(a - {x}, b - {x});
    }
  }

  lemma {:induction false} FreshIdExists(ids: set<nat>)
    ensures exists id: nat :: id !in ids
  {
    var bound := UpperBound(ids);
    assert bound !in ids;
  }

  lemma {:induction false} UpperBound(ids: set<nat>) returns (bound: nat)
    ensures forall id :: id in ids ==> id < bound
    decreases ids
  {
    if ids == {} {
      bound := 0;
    } else {
      var id :| id in ids;
      var rest := UpperBound(ids - {id});
      bound := rest + id + 1;
      forall x | x in ids ensures x < bound {
        assert x == id || x in ids - {id};
      }
    }
  }
}
