/** Splitting a route's polyline into one piece per segment, by integer proportion. */
module Polyline {
  /** Index of the first coordinate of piece `i` of `n` over `edges` edges. */
  function Start(edges: nat, n: nat, i: nat): nat
    requires n > 0
  {
    i * edges / n
  }

  /** Index of the last coordinate of piece `i`: at least one edge further, at most the end of the line. */
  function End(edges: nat, n: nat, i: nat): nat
    requires i < n
  {
    var next := if i == n - 1 then edges else Start(edges, n, i + 1);
    var start := Start(edges, n, i);
    if next > start then next else if start + 1 < edges then start + 1 else edges
  }

  /** `splitRouteIntoSegmentGeometries`, on the coordinates of the line. */
  function Split<T>(coords: seq<T>, n: int): seq<seq<T>> {
    if n <= 0 || |coords| < 2 then []
    else seq(n, i requires 0 <= i < n => PieceOf(coords, n, i))
  }

  function PieceOf<T>(coords: seq<T>, n: nat, i: nat): seq<T>
    requires i < n && |coords| >= 2
  {
    Bounds(|coords| - 1, n, i);
    coords[Start(|coords| - 1, n, i)..End(|coords| - 1, n, i) + 1]
  }

  lemma MulOrder(a: int, b: int, n: nat)
    requires a <= b
    ensures a * n <= b * n
  {
  }

  /** Multiples of `n` around `x` bracket its quotient. */
  lemma FloorBetween(x: nat, n: nat, lo: nat, hi: nat)
    requires n > 0 && lo * n <= x < hi * n
    ensures lo <= x / n < hi
  {
    var p := x / n;
    assert x == p * n + x % n;
    assert (p + 1) * n == p * n + n;
    if p < lo { MulOrder(p + 1, lo, n); }
    if p >= hi { MulOrder(hi, p, n); }
  }

  /** Every piece has at least one edge and lies on the line. */
  lemma Bounds(edges: nat, n: nat, i: nat)
    requires edges >= 1 && i < n
    ensures Start(edges, n, i) < End(edges, n, i) <= edges
  {
    MulOrder(i + 1, n, edges);
    assert (i + 1) * edges == i * edges + edges;
    assert (edges + 1) * n == edges * n + n;
    FloorBetween(i * edges, n, 0, edges);
    FloorBetween((i + 1) * edges, n, 0, edges + 1);
  }

  /** A piece starts at the last coordinate not beyond its share of the line: `i / n` of the edges, rounded down. */
  lemma StartIsFloor(edges: nat, n: nat, i: nat, k: nat)
    requires n > 0
    ensures k <= Start(edges, n, i) <==> k * n <= i * edges
  {
    var start := Start(edges, n, i);
    assert i * edges == start * n + i * edges % n;
    assert (start + 1) * n == start * n + n;
    if k <= start {
      MulOrder(k, start, n);
    } else {
      MulOrder(start + 1, k, n);
    }
  }

  /** Adding `y` moves a quotient by the rounded-down or rounded-up quotient of `y`. */
  lemma QuotientOfSum(x: nat, y: nat, n: nat)
    requires n > 0
    ensures y / n <= (x + y) / n - x / n <= y / n + if y % n == 0 then 0 else 1
  {
    var s, t, q, r := x / n, x % n, y / n, y % n;
    assert x == s * n + t && y == q * n + r;
    SumBrackets(s, q, t + r, n);
    FloorBetween(x + y, n, s + q, if r == 0 then s + q + 1 else s + q + 2);
  }

  lemma SumBrackets(s: nat, q: nat, rest: nat, n: nat)
    requires rest < n + n
    ensures (s + q) * n <= s * n + q * n + rest < (s + q + 2) * n
    ensures rest < n ==> s * n + q * n + rest < (s + q + 1) * n
  {
    assert (s + q) * n == s * n + q * n;
    assert (s + q + 1) * n == s * n + q * n + n;
    assert (s + q + 2) * n == s * n + q * n + n + n;
  }

  /** How far apart neighbouring starts are: the rounded-down or rounded-up share. */
  lemma Gap(edges: nat, n: nat, i: nat)
    requires n > 0
    ensures edges / n <= Start(edges, n, i + 1) - Start(edges, n, i) <= (edges + n - 1) / n
  {
    assert (i + 1) * edges == i * edges + edges;
    QuotientOfSum(i * edges, edges, n);
    Ceiling(edges, n);
  }

  lemma Ceiling(edges: nat, n: nat)
    requires n > 0
    ensures (edges + n - 1) / n == edges / n + if edges % n == 0 then 0 else 1
  {
    var q, r := edges / n, edges % n;
    assert edges == q * n + r;
    assert (q + 1) * n == q * n + n && (q + 2) * n == q * n + n + n;
    if r == 0 {
      FloorBetween(edges + n - 1, n, q, q + 1);
    } else {
      FloorBetween(edges + n - 1, n, q + 1, q + 2);
    }
  }

  /** With at least as many edges as pieces, the pieces tile the line, sharing endpoints, in fair shares. */
  lemma PiecesTile(edges: nat, n: nat, i: nat)
    requires n <= edges && i < n
    ensures Start(edges, n, 0) == 0 && End(edges, n, n - 1) == edges
    ensures i < n - 1 ==> End(edges, n, i) == Start(edges, n, i + 1)
    ensures edges / n <= End(edges, n, i) - Start(edges, n, i) <= (edges + n - 1) / n
  {
    Gap(edges, n, i);
    Bounds(edges, n, n - 1);
    StartEnds(edges, n);
    AtLeastOneEach(edges, n);
  }

  /** The start after the last piece would be the end of the line. */
  lemma StartEnds(edges: nat, n: nat)
    requires n > 0
    ensures Start(edges, n, 0) == 0 && Start(edges, n, n) == edges
  {
    assert 0 * edges == 0 && n * edges == edges * n;
    assert (edges + 1) * n == edges * n + n;
    FloorBetween(0, n, 0, 1);
    FloorBetween(n * edges, n, edges, edges + 1);
  }

  lemma AtLeastOneEach(edges: nat, n: nat)
    requires 0 < n <= edges
    ensures edges / n >= 1
  {
    assert 1 * n == n;
    MulOrder(1, edges + 1, n);
    assert (edges + 1) * n == edges * n + n;
    MulOrder(1, n, edges);
    FloorBetween(edges, n, 1, edges + 1);
  }

  /** With fewer edges than pieces, every piece is exactly one edge. */
  lemma PiecesAreSingleEdges(edges: nat, n: nat, i: nat)
    requires 1 <= edges < n && i < n
    ensures End(edges, n, i) == Start(edges, n, i) + 1
  {
    Gap(edges, n, i);
    Bounds(edges, n, i);
    StartEnds(edges, n);
    assert 1 * n == n && 2 * n == n + n;
    FloorBetween(edges + n - 1, n, 1, 2);
  }

  /** Every edge of the line is in some piece. */
  lemma {:induction false} EveryEdgeDrawn(edges: nat, n: nat, k: nat, i: nat) returns (piece: nat)
    requires k < edges && i < n && Start(edges, n, i) <= k
    ensures piece < n && Start(edges, n, piece) <= k < End(edges, n, piece)
    decreases n - i
  {
    Bounds(edges, n, i);
    if i == n - 1 || k < Start(edges, n, i + 1) {
      piece := i;
    } else {
      piece := EveryEdgeDrawn(edges, n, k, i + 1);
    }
  }

  lemma AllEdgesDrawn(edges: nat, n: nat, k: nat)
    requires k < edges && n >= 1
    ensures exists piece :: 0 <= piece < n && Start(edges, n, piece) <= k < End(edges, n, piece)
  {
    StartEnds(edges, n);
    var piece := EveryEdgeDrawn(edges, n, k, 0);
  }

  /** On the coordinates: with enough of them, neighbouring pieces meet in a shared point. */
  lemma PiecesMeet<T>(coords: seq<T>, n: nat, i: nat) returns (piece: seq<T>, next: seq<T>)
    requires |coords| >= 2 && i + 1 < n < |coords|
    ensures |Split(coords, n)| == n && piece == Split(coords, n)[i] && next == Split(coords, n)[i + 1]
    ensures |piece| >= 2 && |next| >= 2 && piece[|piece| - 1] == next[0]
  {
    PieceEnds(coords, n, i);
    PieceEnds(coords, n, i + 1);
    EndMeetsStart(|coords| - 1, n, i);
    piece, next := Split(coords, n)[i], Split(coords, n)[i + 1];
  }

  lemma EndMeetsStart(edges: nat, n: nat, i: nat)
    requires i + 1 < n <= edges
    ensures End(edges, n, i) == Start(edges, n, i + 1)
  {
    PiecesTile(edges, n, i);
  }

  /** Every piece is drawable and spans its index range. */
  lemma PieceEnds<T>(coords: seq<T>, n: nat, i: nat)
    requires |coords| >= 2 && i < n
    ensures |Split(coords, n)| == n && |Split(coords, n)[i]| >= 2
    ensures
      var piece := Split(coords, n)[i];
      && Start(|coords| - 1, n, i) < End(|coords| - 1, n, i) < |coords|
      && piece[0] == coords[Start(|coords| - 1, n, i)]
      && piece[|piece| - 1] == coords[End(|coords| - 1, n, i)]
  {
    Bounds(|coords| - 1, n, i);
  }
}
