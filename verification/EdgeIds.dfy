/** The string ids of road edges: the two node numbers in decimal, smaller first, joined by a dash. */
module EdgeIds {
  function Digit(d: nat): char
    requires d < 10
  {
    ('0' as int + d) as char
  }

  function Digits(n: nat): (s: string)
    ensures |s| > 0
  {
    if n < 10 then [Digit(n)] else Digits(n / 10) + [Digit(n % 10)]
  }

  function Decimal(n: int): string {
    if n < 0 then "-" + Digits(-n) else Digits(n)
  }

  function EdgeId(a: int, b: int): string {
    if a <= b then Decimal(a) + "-" + Decimal(b) else Decimal(b) + "-" + Decimal(a)
  }

  // ----- reading an id

  /** The positional value of a string of digits. */
  function Value(s: string): int {
    if s == "" then 0 else 10 * Value(s[..|s| - 1]) + (s[|s| - 1] as int - '0' as int)
  }

  function ReadInt(s: string): int {
    if s != "" && s[0] == '-' then -Value(s[1..]) else Value(s)
  }

  /** The first dash from position `i` on. */
  function DashFrom(s: string, i: nat): (dash: nat)
    requires i <= |s|
    ensures i <= dash <= |s|
    decreases |s| - i
  {
    if i == |s| || s[i] == '-' then i else DashFrom(s, i + 1)
  }

  /** The two numbers around the first dash past the start. */
  function ReadEdge(id: string): (int, int) {
    if id == "" then (0, 0)
    else
      var dash := DashFrom(id, 1);
      (ReadInt(id[..dash]), if dash < |id| then ReadInt(id[dash + 1..]) else 0)
  }

  /** Digits read back, and none of them is a dash. */
  lemma {:induction false} DigitsReadBack(n: nat)
    ensures Value(Digits(n)) == n
    ensures forall i :: 0 <= i < |Digits(n)| ==> Digits(n)[i] != '-'
  {
    var s := Digits(n);
    assert s[|s| - 1] == Digit(n % 10);
    if n >= 10 {
      DigitsReadBack(n / 10);
      assert s[..|s| - 1] == Digits(n / 10);
    } else {
      assert s[..|s| - 1] == "";
    }
  }

  /** So does a number; only its sign can be a dash. */
  lemma DecimalReadsBack(n: int)
    ensures ReadInt(Decimal(n)) == n && Decimal(n) != ""
    ensures forall i :: 1 <= i < |Decimal(n)| ==> Decimal(n)[i] != '-'
  {
    DigitsReadBack(if n < 0 then -n else n);
    if n < 0 {
      assert Decimal(n)[1..] == Digits(-n);
    }
  }

  lemma {:induction false} DashAfter(s: string, t: string, i: nat)
    requires i <= |s| && forall k :: i <= k < |s| ==> s[k] != '-'
    ensures DashFrom(s + "-" + t, i) == |s|
    decreases |s| - i
  {
    if i < |s| {
      DashAfter(s, t, i + 1);
    }
  }

  /** An edge id reads back as its two nodes, smaller first. */
  lemma EdgeIdReadsBack(a: int, b: int)
    ensures ReadEdge(EdgeId(a, b)) == if a <= b then (a, b) else (b, a)
  {
    var lo, hi := if a <= b then a else b, if a <= b then b else a;
    var s, t := Decimal(lo), Decimal(hi);
    DecimalReadsBack(lo);
    DecimalReadsBack(hi);
    DashAfter(s, t, 1);
    assert (s + "-" + t)[..|s|] == s && (s + "-" + t)[|s| + 1..] == t;
  }

  /** Two edge ids are the same string exactly when they name the same unordered pair of nodes. */
  lemma EdgeIdsNamePairs(a: int, b: int, c: int, d: int)
    ensures EdgeId(a, b) == EdgeId(c, d) <==> {a, b} == {c, d}
  {
    EdgeIdReadsBack(a, b);
    EdgeIdReadsBack(c, d);
    if {a, b} == {c, d} {
      assert a in {c, d} && b in {c, d} && c in {a, b} && d in {a, b};
    }
  }
}
