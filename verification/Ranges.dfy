/** Cutting a file into one range for each stream, in 64-bit arithmetic (pkg/transfer, splitRanges). */
module Ranges {
  import opened Bytes

  datatype Range = Range(lo: int, hi: int)

  /** The 64-bit two's complement value of a product. */
  function Wrap(x: int): int { (x + INT64) % UINT64 - INT64 }

  /** Integer division that truncates toward zero. */
  function Quot(a: int, b: int): int
    requires b > 0
  {
    if a >= 0 then a / b else -(-a / b)
  }

  function Bound(total: int, n: nat, i: nat): int
    requires n > 0
  {
    Quot(Wrap(i * total), n)
  }

  function RangeOf(total: int, n: nat, i: nat): Range
    requires i < n
  {
    Range(Bound(total, n, i), if i == n - 1 then total else Bound(total, n, i + 1))
  }

  function RangeList(total: int, n: nat): seq<Range>
  {
    seq(n, i requires 0 <= i < n => RangeOf(total, n, i))
  }

  method SplitRanges(total: int, n: nat) returns (out: array<Range>)
    requires n > 0
    ensures fresh(out) && out[..] == RangeList(total, n)
  {
    out := new Range[n](_ => Range(0, 0));
    for i := 0 to n
      invariant forall j :: 0 <= j < i ==> out[j] == RangeOf(total, n, j)
    {
      var lo := Quot(Wrap(i * total), n);
      var hi := Quot(Wrap((i + 1) * total), n);
      if i == n - 1 {
        hi := total;
      }
      out[i] := Range(lo, hi);
    }
  }

  /** Contiguous ordered ranges that cover [0, total), with lengths differing by at most one. */
  ghost predicate Partition(rs: seq<Range>, total: int)
  {
    && rs != [] && rs[0].lo == 0 && rs[|rs| - 1].hi == total
    && (forall i :: 0 <= i < |rs| ==> rs[i].lo <= rs[i].hi)
    && (forall i :: 0 <= i < |rs| - 1 ==> rs[i].hi == rs[i + 1].lo)
    && (forall i, j :: 0 <= i < |rs| && 0 <= j < |rs| ==> (rs[i].hi - rs[i].lo) - (rs[j].hi - rs[j].lo) <= 1)
  }

  lemma QuotientStep(x: int, t: int, n: int, a: int, b: int, q: int)
    requires n > 0 && a * n <= x < a * n + n && b * n <= x + t < b * n + n && q * n <= t < q * n + n
    ensures q <= b - a <= q + 1
  {
    if b - a < q {
      MulMono(1, q - (b - a), n);
    }
    if b - a > q + 1 {
      MulMono(2, b - a - q, n);
    }
  }

  lemma DivBounds(x: int, n: int)
    requires n > 0
    ensures (x / n) * n <= x < (x / n) * n + n
  {
  }

  /** Division by `n` moves by `t / n` or one more when the dividend moves by `t`. */
  lemma StepLength(x: int, t: int, n: int)
    requires x >= 0 && t >= 0 && n > 0
    ensures t / n <= (x + t) / n - x / n <= t / n + 1
  {
    DivBounds(x, n);
    DivBounds(x + t, n);
    DivBounds(t, n);
    QuotientStep(x, t, n, x / n, (x + t) / n, t / n);
  }

  lemma BoundExact(total: int, n: nat, i: nat)
    requires n > 0 && total >= 0 && i < n && (n - 1) * total < INT64
    ensures Bound(total, n, i) == i * total / n
  {
    MulMono(i, n - 1, total);
  }

  lemma RangeExact(total: int, n: nat, i: nat)
    requires total >= 0 && i < n && (n - 1) * total < INT64
    ensures RangeOf(total, n, i) == Range(i * total / n, (i + 1) * total / n)
  {
    BoundExact(total, n, i);
    if i < n - 1 {
      BoundExact(total, n, i + 1);
    } else {
      assert n * total / n == total by { DivExact(total, n); }
    }
  }

  lemma DivExact(t: int, n: int)
    requires n > 0
    ensures n * t / n == t
  {
    var x := n * t;
    QuotUnique(x, n, t, x / n);
  }

  lemma QuotUnique(x: int, n: int, p: int, q: int)
    requires n > 0 && n * p <= x < n * p + n && n * q <= x < n * q + n
    ensures p == q
  {
    if p < q {
      MulMono(0, q - p - 1, n);
    }
    if q < p {
      MulMono(0, p - q - 1, n);
    }
  }

  lemma RangeLength(total: int, n: nat, i: nat)
    requires total >= 0 && i < n && (n - 1) * total < INT64
    ensures var r := RangeOf(total, n, i); total / n <= r.hi - r.lo <= total / n + 1
  {
    RangeExact(total, n, i);
    MulMono(0, i, total);
    assert (i + 1) * total == i * total + total;
    StepLength(i * total, total, n);
  }

  lemma NoOverflowPartitions(total: int, n: nat)
    requires n > 0 && total >= 0 && (n - 1) * total < INT64
    ensures Partition(RangeList(total, n), total)
  {
    var rs := RangeList(total, n);
    assert 0 <= total / n;
    forall i | 0 <= i < n ensures total / n <= rs[i].hi - rs[i].lo <= total / n + 1 {
      RangeLength(total, n, i);
    }
    assert rs[0].lo == 0;
  }

  /** The first multiple of `total` that does not fit. */
  lemma FirstOverflow(total: int, n: nat) returns (i: nat)
    requires n > 0 && 0 <= total < INT64 && (n - 1) * total >= INT64
    ensures 2 <= i <= n - 1 && i * total >= INT64 && (i - 1) * total < INT64
  {
    i := 0;
    while i * total < INT64
      invariant 0 <= i <= n - 1
      invariant i > 0 ==> (i - 1) * total < INT64
      decreases n - i
    {
      i := i + 1;
    }
  }

  /** The product before the first overflow is large, and the first one past it wraps below zero. */
  lemma WrapsBelowZero(total: int, i: nat)
    requires 2 <= i && 0 <= total < INT64 && i * total >= INT64 && (i - 1) * total < INT64
    ensures Wrap(i * total) < 0 && Wrap((i - 1) * total) == (i - 1) * total >= INT64 / 2
  {
    var x := (i - 1) * total;
    assert i * total == x + total;
    MulMono(1, i - 1, total);
  }

  lemma QuotSign(a: int, b: int)
    requires b > 0
    ensures a < 0 ==> Quot(a, b) <= 0
    ensures a >= b ==> Quot(a, b) >= 1
  {
  }

  lemma BrokenRange(total: int, n: nat, i: nat)
    requires 2 <= i < n <= 0x7FFF_FFFF && 0 <= total < INT64 && i * total >= INT64 && (i - 1) * total < INT64
    ensures RangeOf(total, n, i - 1).lo >= 1 && RangeOf(total, n, i - 1).hi <= 0
  {
    var x, y := Wrap((i - 1) * total), Wrap(i * total);
    WrapsBelowZero(total, i);
    QuotSign(x, n);
    QuotSign(y, n);
  }

  lemma OverflowBreaks(total: int, n: nat)
    requires 0 < n <= 0x7FFF_FFFF && 0 <= total < INT64 && (n - 1) * total >= INT64
    ensures !Partition(RangeList(total, n), total)
  {
    var i := FirstOverflow(total, n);
    BrokenRange(total, n, i);
    assert RangeList(total, n)[i - 1] == RangeOf(total, n, i - 1);
  }

  /**
   * splitRanges gives a balanced partition of the file exactly when (n-1)*total fits a signed
   * 64-bit integer; past that a product wraps and some range ends before it starts.
   */
  lemma PartitionIff(total: int, n: nat)
    requires 0 < n <= 0x7FFF_FFFF && 0 <= total < INT64
    ensures Partition(RangeList(total, n), total) <==> (n - 1) * total < INT64
  {
    if (n - 1) * total < INT64 {
      NoOverflowPartitions(total, n);
    } else {
      OverflowBreaks(total, n);
    }
  }

  /** Every byte position lies in one of the ranges. */
  lemma RangeHolding(rs: seq<Range>, total: int, j: int) returns (i: nat)
    requires Partition(rs, total) && 0 <= j < total
    ensures i < |rs| && rs[i].lo <= j < rs[i].hi
  {
    i := 0;
    while rs[i].hi <= j
      invariant 0 <= i < |rs| && rs[i].lo <= j
      decreases |rs| - i
    {
      i := i + 1;
    }
  }

  lemma {:induction false} RangeInside(rs: seq<Range>, total: int, i: nat)
    requires Partition(rs, total) && i < |rs|
    ensures 0 <= rs[i].lo <= rs[i].hi <= total
  {
    LowAtLeast(rs, total, i);
    HighAtMost(rs, total, i);
  }

  lemma {:induction false} LowAtLeast(rs: seq<Range>, total: int, i: nat)
    requires Partition(rs, total) && i < |rs|
    ensures 0 <= rs[i].lo
  {
    if i > 0 {
      LowAtLeast(rs, total, i - 1);
      assert rs[i - 1].hi == rs[i - 1 + 1].lo;
    }
  }

  lemma {:induction false} HighAtMost(rs: seq<Range>, total: int, i: nat)
    requires Partition(rs, total) && i < |rs|
    ensures rs[i].hi <= total
    decreases |rs| - i
  {
    if i < |rs| - 1 {
      HighAtMost(rs, total, i + 1);
      assert rs[i].hi == rs[i + 1].lo;
    }
  }
}
