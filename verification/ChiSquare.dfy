/** The chi-square test for encrypted devices: a byte histogram of the first block and the
    distance of the histogram from the uniform distribution, in floating point. */
module ChiSquare {

  const BLOCK: nat := 512
  const SYMBOLS: nat := 256
  const LOWER: int := 136
  const UPPER: int := 426

  type Symbol = b: int | 0 <= b < SYMBOLS

  // ---------------------------------------------------------------- the histogram

  function Histogram(buf: seq<Symbol>): (h: seq<nat>)
    ensures |h| == SYMBOLS
  {
    if buf == [] then seq(SYMBOLS, _ => 0) else
      var h := Histogram(buf[..|buf| - 1]);
      var b := buf[|buf| - 1];
      h[b := h[b] + 1]
  }

  function Sum(h: seq<nat>): nat {
    if h == [] then 0 else Sum(h[..|h| - 1]) + h[|h| - 1]
  }

  function SumOfSquares(h: seq<nat>): nat {
    if h == [] then 0 else SumOfSquares(h[..|h| - 1]) + h[|h| - 1] * h[|h| - 1]
  }

  function Squared(d: int): int { d * d }

  /** The sum the second loop accumulates. */
  function Distance(h: seq<nat>): int {
    if h == [] then 0 else Distance(h[..|h| - 1]) + Squared(h[|h| - 1] as int - 2)
  }

  lemma {:induction false} SumUpdate(h: seq<nat>, i: nat)
    requires i < |h|
    ensures Sum(h[i := h[i] + 1]) == Sum(h) + 1
  {
    var g, n := h[i := h[i] + 1], |h| - 1;
    if i == n {
      assert g[..n] == h[..n];
    } else {
      SumUpdate(h[..n], i);
      assert g[..n] == h[..n][i := h[..n][i] + 1];
    }
  }

  lemma {:induction false} SumOfZeros(n: nat)
    ensures Sum(seq(n, _ => 0)) == 0
  {
    if n > 0 {
      SumOfZeros(n - 1);
      assert seq(n, _ => 0)[..n - 1] == seq(n - 1, _ => 0);
    }
  }

  /** Every byte is counted once. */
  lemma {:induction false} HistogramTotal(buf: seq<Symbol>)
    ensures Sum(Histogram(buf)) == |buf|
  {
    if buf == [] {
      SumOfZeros(SYMBOLS);
    } else {
      var n := |buf| - 1;
      HistogramTotal(buf[..n]);
      SumUpdate(Histogram(buf[..n]), buf[n]);
    }
  }

  lemma {:induction false} HistogramCounts(buf: seq<Symbol>, v: Symbol)
    ensures Histogram(buf)[v] == multiset(buf)[v]
  {
    if buf != [] {
      var n := |buf| - 1;
      HistogramCounts(buf[..n], v);
      assert buf == buf[..n] + [buf[n]];
    }
  }

  // ---------------------------------------------------------------- exact arithmetic

  lemma {:induction false} DistanceIs(h: seq<nat>)
    ensures Distance(h) == SumOfSquares(h) - 4 * Sum(h) + 4 * |h|
  {
    if h != [] {
      var n := |h| - 1;
      DistanceIs(h[..n]);
      var c: int := h[n];
      assert (c - 2) * (c - 2) == c * c - 4 * c + 4;
    }
  }

  lemma {:induction false} SquaresBound(h: seq<nat>)
    ensures SumOfSquares(h) <= Sum(h) * Sum(h)
  {
    if h != [] {
      var n := |h| - 1;
      SquaresBound(h[..n]);
      var s, c := Sum(h[..n]), h[n];
      assert (s + c) * (s + c) == s * s + 2 * (s * c) + c * c;
      assert s * c >= 0;
    }
  }

  /** The number of pairs among `c` equal bytes. */
  function Pairs(c: nat): nat { if c == 0 then 0 else Pairs(c - 1) + (c - 1) }

  lemma {:induction false} SquareIs(c: nat)
    ensures c * c == c + 2 * Pairs(c)
  {
    if c > 0 {
      SquareIs(c - 1);
      assert c * c == (c - 1) * (c - 1) + 2 * (c - 1) + 1;
    }
  }

  function AllPairs(h: seq<nat>): nat {
    if h == [] then 0 else AllPairs(h[..|h| - 1]) + Pairs(h[|h| - 1])
  }

  /** The sum of squares has the parity of the sum. */
  lemma {:induction false} SquaresParity(h: seq<nat>)
    ensures SumOfSquares(h) == Sum(h) + 2 * AllPairs(h)
  {
    if h != [] {
      SquaresParity(h[..|h| - 1]);
      SquareIs(h[|h| - 1]);
    }
  }

  lemma {:induction false} SumPrefix(h: seq<nat>, i: nat)
    requires i <= |h|
    ensures Sum(h[..i]) <= Sum(h)
    decreases |h|
  {
    if i < |h| {
      var n := |h| - 1;
      SumPrefix(h[..n], i);
      assert h[..n][..i] == h[..i];
    } else {
      assert h[..i] == h;
    }
  }

  const EXACT: int := 0x100_0000

  /** Every partial sum is far below the integers a float holds exactly. */
  lemma DistanceBound(h: seq<nat>, i: nat)
    requires |h| == SYMBOLS && Sum(h) == BLOCK && i <= |h|
    ensures 0 <= Distance(h[..i]) < EXACT
    ensures i < |h| ==> h[i] <= BLOCK
  {
    DistanceIs(h[..i]);
    SquaresBound(h[..i]);
    SumPrefix(h, i);
    var s := Sum(h[..i]);
    assert s * s <= BLOCK * BLOCK by { SquareMono(s, BLOCK); }
    DistanceNonNegative(h[..i]);
    if i < |h| {
      SumPrefix(h, i + 1);
      assert h[..i + 1][..i] == h[..i];
    }
  }

  lemma SquareMono(a: nat, b: nat)
    requires a <= b
    ensures a * a <= b * b
  {
    assert (b - a) * (b + a) >= 0;
    assert (b - a) * (b + a) == b * b - a * a;
  }

  lemma {:induction false} DistanceNonNegative(h: seq<nat>)
    ensures Distance(h) >= 0
  {
    if h != [] {
      DistanceNonNegative(h[..|h| - 1]);
      var c: int := h[|h| - 1];
      assert Squared(c - 2) >= 0;
    }
  }

  /** The chi-square value of a block: half the sum of squares, minus the block size. */
  function ChiSquareOf(buf: seq<Symbol>): int {
    SumOfSquares(Histogram(buf)) / 2 - BLOCK
  }

  lemma DistanceOfBlock(buf: seq<Symbol>)
    requires |buf| == BLOCK
    ensures Distance(Histogram(buf)) == 2 * ChiSquareOf(buf)
  {
    var h := Histogram(buf);
    HistogramTotal(buf);
    DistanceIs(h);
    SquaresParity(h);
  }

  // ---------------------------------------------------------------- the code, in floating point

  /** Rounding to single precision leaves the integers up to 2^24 alone.  Nothing else is
      assumed about it. */
  ghost predicate Rounding(fl: real -> real) {
    forall n: int {:trigger fl(n as real)} | -EXACT <= n <= EXACT :: fl(n as real) == n as real
  }

  /** bd_crypto_device_seems_encrypted, from the block on. */
  method SeemsEncrypted(buf: seq<Symbol>, fl: real -> real) returns (r: bool)
    requires |buf| == BLOCK && Rounding(fl)
    ensures r <==> LOWER < ChiSquareOf(buf) < UPPER
  {
    BlockIsExact(fl, buf);
    var symbols := CountSymbols(buf);
    var chi := Accumulate(symbols, fl);
    chi := fl(chi / 2.0);
    r := LOWER as real < chi < UPPER as real;
  }

  function RealSquare(x: real): real { x * x }

  /** One round of the second loop. */
  function Round(fl: real -> real, chi: real, count: nat): real {
    var x := fl(count as real - 2.0);
    fl(chi + fl(RealSquare(x)))
  }

  /** The second loop. */
  method Accumulate(symbols: array<nat>, fl: real -> real) returns (chi: real)
    requires symbols.Length == SYMBOLS && Sum(symbols[..]) == BLOCK && Rounding(fl)
    ensures chi == Distance(symbols[..]) as real
  {
    ghost var h := symbols[..];
    chi := 0.0;
    for i := 0 to SYMBOLS
      invariant chi == Distance(h[..i]) as real
    {
      RoundIsExact(fl, h, i);
      assert symbols[i] == h[i];
      chi := Round(fl, chi, symbols[i]);
    }
    assert h[..SYMBOLS] == h;
  }

  lemma RoundIsExact(fl: real -> real, h: seq<nat>, i: nat)
    requires Rounding(fl) && |h| == SYMBOLS && Sum(h) == BLOCK && i < SYMBOLS
    ensures Round(fl, Distance(h[..i]) as real, h[i]) == Distance(h[..i + 1]) as real
  {
    DistanceBound(h, i);
    DistanceBound(h, i + 1);
    DistanceStep(h, i);
    StepIsExact(fl, Distance(h[..i]), h[i]);
  }

  lemma DistanceStep(h: seq<nat>, i: nat)
    requires i < |h|
    ensures Distance(h[..i + 1]) == Distance(h[..i]) + Squared(h[i] as int - 2)
  {
    assert h[..i + 1][..i] == h[..i];
  }

  /** One round of the second loop rounds nothing away. */
  lemma StepIsExact(fl: real -> real, dist: int, c: nat)
    requires Rounding(fl) && 0 <= dist && c <= BLOCK
    requires 0 <= Squared(c as int - 2) && dist + Squared(c as int - 2) < EXACT
    ensures Round(fl, dist as real, c) == (dist + Squared(c as int - 2)) as real
  {
    var d: int := c as int - 2;
    DifferenceIsExact(fl, c);
    SquareIsExact(fl, d);
    SumIsExact(fl, dist, Squared(d));
  }

  lemma DifferenceIsExact(fl: real -> real, c: nat)
    requires Rounding(fl) && c <= BLOCK
    ensures fl(c as real - 2.0) == (c as int - 2) as real
  {
    var d: int := c as int - 2;
    assert c as real - 2.0 == d as real;
    assert fl(d as real) == d as real;
  }

  lemma SquareIsExact(fl: real -> real, d: int)
    requires Rounding(fl) && Squared(d) < EXACT
    ensures fl(RealSquare(d as real)) == Squared(d) as real
  {
    var q := Squared(d);
    assert fl(q as real) == q as real;
  }

  lemma SumIsExact(fl: real -> real, a: int, b: int)
    requires Rounding(fl) && 0 <= a && 0 <= b && a + b < EXACT
    ensures fl(a as real + b as real) == (a + b) as real
  {
    var t := a + b;
    assert a as real + b as real == t as real;
    assert fl(t as real) == t as real;
  }

  /** The total of a block, and the division that ends the computation. */
  lemma BlockIsExact(fl: real -> real, buf: seq<Symbol>)
    requires |buf| == BLOCK && Rounding(fl)
    ensures Sum(Histogram(buf)) == BLOCK
    ensures fl(Distance(Histogram(buf)) as real / 2.0) == ChiSquareOf(buf) as real
  {
    assert Sum(Histogram(buf)) == BLOCK by { HistogramTotal(buf); }
    assert 0 <= 2 * ChiSquareOf(buf) < EXACT by { BlockBound(buf); }
    assert Distance(Histogram(buf)) == 2 * ChiSquareOf(buf) by { DistanceOfBlock(buf); }
    HalfIsExact(fl, ChiSquareOf(buf));
  }

  lemma BlockBound(buf: seq<Symbol>)
    requires |buf| == BLOCK
    ensures 0 <= 2 * ChiSquareOf(buf) < EXACT
  {
    var h := Histogram(buf);
    HistogramTotal(buf);
    DistanceOfBlock(buf);
    DistanceBound(h, SYMBOLS);
    assert h[..SYMBOLS] == h;
  }

  lemma HalfIsExact(fl: real -> real, k: int)
    requires Rounding(fl) && 0 <= 2 * k < EXACT
    ensures fl((2 * k) as real / 2.0) == k as real
  {
    assert (2 * k) as real / 2.0 == k as real;
    assert fl(k as real) == k as real;
  }

  /** The first loop. */
  method CountSymbols(buf: seq<Symbol>) returns (symbols: array<nat>)
    ensures fresh(symbols) && symbols[..] == Histogram(buf)
  {
    symbols := new nat[SYMBOLS](_ => 0);
    for i := 0 to |buf|
      invariant symbols.Length == SYMBOLS
      invariant symbols[..] == Histogram(buf[..i])
    {
      assert buf[..i + 1][..i] == buf[..i];
      symbols[buf[i]] := symbols[buf[i]] + 1;
    }
    assert buf[..|buf|] == buf;
  }

  /** The verdict depends only on how often each byte occurs. */
  lemma VerdictIgnoresOrder(a: seq<Symbol>, b: seq<Symbol>)
    requires multiset(a) == multiset(b)
    ensures ChiSquareOf(a) == ChiSquareOf(b)
  {
    forall v: Symbol ensures Histogram(a)[v] == Histogram(b)[v] {
      HistogramCounts(a, v);
      HistogramCounts(b, v);
    }
    assert Histogram(a) == Histogram(b);
  }
}
