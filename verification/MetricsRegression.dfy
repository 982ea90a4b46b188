/** Batch plan of the metrics calls and their regression through the origin. */
module MetricsRegression {

  const METRICS_BATCH_MAX := 512

  datatype Result<+T> = Ok(value: T) | Err(error: string)

  // ---------------------------------------------------------------- batch plan

  ghost predicate Increasing(s: seq<int>) {
    forall i, j | 0 <= i < j < |s| :: s[i] < s[j]
  }

  function InsertDistinct(x: int, s: seq<int>): seq<int> {
    if s == [] || x < s[0] then [x] + s
    else if x == s[0] then s
    else [s[0]] + InsertDistinct(x, s[1..])
  }

  /** The distinct code points in increasing order. */
  function SortedDistinct(s: seq<int>): seq<int> {
    if s == [] then [] else InsertDistinct(s[0], SortedDistinct(s[1..]))
  }

  lemma {:induction false} InsertAdds(x: int, s: seq<int>, y: int)
    ensures y in InsertDistinct(x, s) <==> y == x || y in s
  {
    if s != [] {
      assert s == [s[0]] + s[1..];
      if x > s[0] { InsertAdds(x, s[1..], y); }
    }
  }

  lemma {:induction false} InsertKeepsOrder(x: int, s: seq<int>)
    requires Increasing(s)
    ensures Increasing(InsertDistinct(x, s))
  {
    if s != [] && x > s[0] {
      InsertKeepsOrder(x, s[1..]);
      var t := InsertDistinct(x, s[1..]);
      forall j | 0 <= j < |t|
        ensures s[0] < t[j]
      {
        InsertAdds(x, s[1..], t[j]);
      }
    }
  }

  lemma {:induction false} SortedDistinctIsSet(s: seq<int>)
    ensures Increasing(SortedDistinct(s)) && forall y :: y in SortedDistinct(s) <==> y in s
  {
    if s != [] {
      assert s == [s[0]] + s[1..];
      SortedDistinctIsSet(s[1..]);
      InsertKeepsOrder(s[0], SortedDistinct(s[1..]));
      forall y
        ensures y in SortedDistinct(s) <==> y in s
      {
        InsertAdds(s[0], SortedDistinct(s[1..]), y);
      }
    }
  }

  function Min(a: int, b: int): int { if a <= b then a else b }

  /** Consecutive slices of at most m elements. */
  function Chunks(s: seq<int>, m: nat): seq<seq<int>>
    requires m > 0
  {
    if s == [] then [] else [s[..Min(m, |s|)]] + Chunks(s[Min(m, |s|)..], m)
  }

  function Joined(chunks: seq<seq<int>>): seq<int> {
    if chunks == [] then [] else chunks[0] + Joined(chunks[1..])
  }

  function CallsPerSize(n: nat, m: nat): nat
    requires m > 0
  {
    (n + m - 1) / m
  }

  lemma OneMoreCall(n: nat, m: nat)
    requires m > 0 && n > 0
    ensures CallsPerSize(n, m) == 1 + CallsPerSize(n - Min(m, n), m)
  {
    if n <= m {
      assert m <= n + m - 1 < 2 * m;
      DivBetween(n + m - 1, m, 1);
      DivBetween(m - 1, m, 0);
    } else {
      var q := (n - 1) / m;
      assert n + m - 1 == (n - 1) + m;
      DivShift(n - 1, m);
    }
  }

  lemma DivBetween(a: nat, m: nat, q: nat)
    requires m > 0 && q * m <= a < (q + 1) * m
    ensures a / m == q
  {
    var d := a / m;
    assert d * m <= a < (d + 1) * m;
    assert (d - q) * m < m && (q - d) * m < m;
    NotAWhole(d - q, m);
    NotAWhole(q - d, m);
  }

  lemma NotAWhole(x: int, m: nat)
    requires m > 0 && x * m < m
    ensures x <= 0
  {
    if x >= 1 { AtLeastOnce(x, m); }
  }

  lemma AtLeastOnce(x: int, m: nat)
    requires x >= 1
    ensures x * m >= m
  {
    assert x * m == m + (x - 1) * m;
  }

  lemma DivShift(a: nat, m: nat)
    requires m > 0
    ensures (a + m) / m == a / m + 1
  {
    var q := a / m;
    assert q * m <= a < (q + 1) * m;
    assert (q + 1) * m == q * m + m && (q + 2) * m == (q + 1) * m + m;
    DivBetween(a + m, m, q + 1);
  }

  lemma NoCalls(m: nat)
    requires m > 0
    ensures CallsPerSize(0, m) == 0
  {
    DivBetween(m - 1, m, 0);
  }

  /** The slices join to the whole and their number is the formula. */
  lemma {:induction false} ChunksAreExact(s: seq<int>, m: nat)
    requires m > 0
    ensures Joined(Chunks(s, m)) == s
    ensures |Chunks(s, m)| == CallsPerSize(|s|, m)
  {
    NoCalls(m);
    hide CallsPerSize;
    if s != [] {
      var k := Min(m, |s|);
      ChunksAreExact(s[k..], m);
      OneMoreCall(|s|, m);
      assert Chunks(s, m)[1..] == Chunks(s[k..], m);
      assert s == s[..k] + s[k..];
    }
  }

  /** No slice is empty or too long. */
  lemma {:induction false} ChunksAreBounded(s: seq<int>, m: nat, c: seq<int>)
    requires m > 0 && c in Chunks(s, m)
    ensures 1 <= |c| <= m
  {
    var k := Min(m, |s|);
    if c != s[..k] { ChunksAreBounded(s[k..], m, c); }
  }

  function Labelled(size: int, chunks: seq<seq<int>>): seq<(int, seq<int>)> {
    seq(|chunks|, i requires 0 <= i < |chunks| => (size, chunks[i]))
  }

  function Batches(ordered: seq<int>, sizes: seq<int>, m: nat): seq<(int, seq<int>)>
    requires m > 0
  {
    if sizes == [] then []
    else Batches(ordered, sizes[..|sizes| - 1], m) + Labelled(sizes[|sizes| - 1], Chunks(ordered, m))
  }

  method CallsOfSize(size: int, ordered: seq<int>, maxBatch: nat) returns (calls: seq<(int, seq<int>)>)
    requires maxBatch > 0
    ensures calls == Labelled(size, Chunks(ordered, maxBatch))
  {
    hide Chunks;
    calls := [];
    var i := 0;
    ghost var done: seq<seq<int>> := [];
    assert ordered[0..] == ordered;
    while i < |ordered|
      invariant 0 <= i <= |ordered|
      invariant done + Chunks(ordered[i..], maxBatch) == Chunks(ordered, maxBatch)
      invariant calls == Labelled(size, done)
      decreases |ordered| - i
    {
      var j := Min(i + maxBatch, |ordered|);
      FirstChunk(ordered, i, maxBatch);
      calls := calls + [(size, ordered[i..j])];
      done := done + [ordered[i..j]];
      i := j;
    }
    FirstChunk([], 0, maxBatch);
    assert ordered[i..] == [];
    assert done == Chunks(ordered, maxBatch);
  }

  lemma FirstChunk(s: seq<int>, i: nat, m: nat)
    requires m > 0 && i <= |s|
    ensures Chunks([], m) == []
    ensures i < |s| ==> var j := Min(i + m, |s|); Chunks(s[i..], m) == [s[i..j]] + Chunks(s[j..], m)
  {
    if i < |s| {
      var j := Min(i + m, |s|);
      assert s[i..][..j - i] == s[i..j] && s[i..][j - i..] == s[j..];
    }
  }

  method BuildMetricsBatches(codePoints: seq<int>, sizes: seq<int>, maxBatch: int)
    returns (r: Result<seq<(int, seq<int>)>>)
    ensures maxBatch <= 0 ==> r == Err("METRICS_BATCH_MAX_INVALID")
    ensures maxBatch > 0 ==> r == Ok(Batches(SortedDistinct(codePoints), sizes, maxBatch))
  {
    hide Chunks, Labelled;
    if maxBatch <= 0 { return Err("METRICS_BATCH_MAX_INVALID"); }
    var ordered := SortedDistinct(codePoints);
    var batches := [];
    for k := 0 to |sizes|
      invariant batches == Batches(ordered, sizes[..k], maxBatch)
    {
      assert sizes[..k + 1][..k] == sizes[..k];
      var calls := CallsOfSize(sizes[k], ordered, maxBatch);
      batches := batches + calls;
    }
    assert sizes[..|sizes|] == sizes;
    return Ok(batches);
  }

  function JsCallCount(glyphCount: int, sizes: seq<int>): int {
    if glyphCount <= 0 then 0 else CallsPerSize(glyphCount, METRICS_BATCH_MAX) * |sizes|
  }

  lemma {:induction false} BatchCount(ordered: seq<int>, sizes: seq<int>, m: nat)
    requires m > 0
    ensures |Batches(ordered, sizes, m)| == |Chunks(ordered, m)| * |sizes|
  {
    hide Chunks;
    if sizes != [] {
      var n := |sizes| - 1;
      BatchCount(ordered, sizes[..n], m);
      var c := |Chunks(ordered, m)|;
      assert c * |sizes| == c * n + c;
    }
  }

  /** The recorded call count is the number of batches of the plan. */
  lemma CallCountIsExact(ordered: seq<int>, sizes: seq<int>)
    ensures |Batches(ordered, sizes, 512)| == JsCallCount(|ordered|, sizes)
  {
    hide Chunks, Batches;
    NoCalls(METRICS_BATCH_MAX);
    ChunksAreExact(ordered, METRICS_BATCH_MAX);
    BatchCount(ordered, sizes, METRICS_BATCH_MAX);
  }

  // ---------------------------------------------------------------- slope through the origin

  function Dot(a: seq<real>, b: seq<real>): real
    requires |a| == |b|
  {
    if a == [] then 0.0 else Dot(a[..|a| - 1], b[..|b| - 1]) + Times(a[|a| - 1], b[|b| - 1])
  }

  function Times(a: real, b: real): real { a * b }

  /** Sum of squared errors of the line of slope k. */
  function SquaredError(sizes: seq<real>, values: seq<real>, k: real): real
    requires |sizes| == |values|
  {
    if sizes == [] then 0.0
    else SquaredError(sizes[..|sizes| - 1], values[..|values| - 1], k)
         + Miss(sizes[|sizes| - 1], values[|values| - 1], k)
  }

  function Miss(s: real, v: real, k: real): real { Square(v - k * s) }

  function Square(v: real): real { v * v }

  /** Squared relative residuals; sizes that are not positive are passed over. */
  function Residual(sizes: seq<real>, values: seq<real>, k: real): real
    requires |sizes| == |values|
  {
    if sizes == [] then 0.0 else
    var (s, v) := (sizes[|sizes| - 1], values[|values| - 1]);
    Residual(sizes[..|sizes| - 1], values[..|values| - 1], k) + RelativeError(s, v, k)
  }

  function RelativeError(s: real, v: real, k: real): real {
    if s <= 0.0 then 0.0 else Square((v - k * s) / s)
  }

  /** The square root. */
  ghost predicate IsRoot(root: real -> real) {
    forall v: real | v >= 0.0 :: root(v) >= 0.0 && Square(root(v)) == v
  }

  lemma {:induction false} ResidualNotNegative(sizes: seq<real>, values: seq<real>, k: real)
    requires |sizes| == |values|
    ensures Residual(sizes, values, k) >= 0.0
  {
    hide RelativeError;
    if sizes != [] {
      var n := |sizes| - 1;
      ResidualNotNegative(sizes[..n], values[..n], k);
      RelativeNotNegative(sizes[n], values[n], k);
    }
  }

  lemma RelativeNotNegative(s: real, v: real, k: real)
    ensures RelativeError(s, v, k) >= 0.0
  {
    if s > 0.0 { SquareIsPositive((v - k * s) / s); }
  }

  /** The residual of one size is its miss divided by the size, squared. */
  lemma RelativeScales(s: real, v: real, k: real)
    ensures s > 0.0 ==> RelativeError(s, v, k) * (s * s) == (v - k * s) * (v - k * s)
    ensures s <= 0.0 ==> RelativeError(s, v, k) == 0.0
  {
    if s > 0.0 {
      var q := (v - k * s) / s;
      assert q * s == v - k * s;
      assert (q * q) * (s * s) == (q * s) * (q * s);
    }
  }

  lemma RootOfMean(root: real -> real, sum: real, n: real)
    requires IsRoot(root) && sum >= 0.0 && n > 0.0
    ensures var r := root(sum / n);
            r >= 0.0 && Square(r) * n == sum && (r == 0.0 <==> sum == 0.0)
  {
    hide Square;
    var m := sum / n;
    assert m >= 0.0 && m * n == sum;
    var r := root(m);
    SquareIsPositive(r);
  }

  /** Slope, and root mean square of the relative residuals. */
  method SlopeThroughOrigin(root: real -> real, sizes: seq<real>, values: seq<real>)
    returns (r: Result<(real, real)>)
    requires |sizes| == |values| && IsRoot(root)
    ensures Dot(sizes, sizes) <= 0.0 ==> r == Err("METRICS_REGRESSION_NO_SIZES")
    ensures Dot(sizes, sizes) > 0.0 ==>
              && r.Ok? && sizes != []
              && r.value.0 * Dot(sizes, sizes) == Dot(sizes, values)
              && r.value.1 >= 0.0
              && Square(r.value.1) * |sizes| as real == Residual(sizes, values, r.value.0)
              && (r.value.1 == 0.0 <==> Residual(sizes, values, r.value.0) == 0.0)
  {
    hide Square, RelativeError, IsRoot, Residual, Dot;
    var denom := Dot(sizes, sizes);
    if denom <= 0.0 { return Err("METRICS_REGRESSION_NO_SIZES"); }
    var k := Dot(sizes, values) / denom;
    QuotientTimes(Dot(sizes, values), denom);
    NothingSummed(sizes, values, k);
    var residSq := 0.0;
    for i := 0 to |sizes|
      invariant residSq == Residual(sizes[..i], values[..i], k)
    {
      ResidualNext(sizes, values, k, i);
      residSq := residSq + RelativeError(sizes[i], values[i], k);
    }
    assert sizes[..|sizes|] == sizes && values[..|values|] == values;
    ResidualNotNegative(sizes, values, k);
    RootOfMean(root, residSq, |sizes| as real);
    return Ok((k, root(residSq / |sizes| as real)));
  }

  lemma QuotientTimes(a: real, b: real)
    requires b != 0.0
    ensures (a / b) * b == a
  {}

  lemma NothingSummed(sizes: seq<real>, values: seq<real>, k: real)
    requires |sizes| == |values|
    ensures Residual(sizes[..0], values[..0], k) == 0.0
    ensures Dot(sizes, sizes) > 0.0 ==> |sizes| > 0
  {}

  lemma ResidualNext(sizes: seq<real>, values: seq<real>, k: real, i: nat)
    requires |sizes| == |values| && i < |sizes|
    ensures Residual(sizes[..i + 1], values[..i + 1], k)
         == Residual(sizes[..i], values[..i], k) + RelativeError(sizes[i], values[i], k)
  {
    hide RelativeError;
    assert sizes[..i + 1][..i] == sizes[..i] && values[..i + 1][..i] == values[..i];
  }

  /** Growth of the squared error when the slope k moves away by d. */
  function Growth(k: real, d: real, energy: real, correlation: real): real {
    d * d * energy - 2.0 * d * (correlation - k * energy)
  }

  lemma GrowthAdds(k: real, d: real, a: real, b: real, p: real, q: real)
    ensures Growth(k, d, a + p, b + q) == Growth(k, d, a, b) + Growth(k, d, p, q)
  {
    assert d * d * (a + p) == d * d * a + d * d * p;
    assert k * (a + p) == k * a + k * p;
    assert 2.0 * d * ((b - k * a) + (q - k * p)) == 2.0 * d * (b - k * a) + 2.0 * d * (q - k * p);
  }

  lemma {:induction false} ErrorShifts(sizes: seq<real>, values: seq<real>, k: real, d: real)
    requires |sizes| == |values|
    ensures SquaredError(sizes, values, k + d)
         == SquaredError(sizes, values, k) + Growth(k, d, Dot(sizes, sizes), Dot(sizes, values))
  {
    hide Growth, Miss, Times;
    if sizes != [] {
      var n := |sizes| - 1;
      ErrorShifts(sizes[..n], values[..n], k, d);
      TermShifts(sizes[n], values[n], k, d);
      var (a, b) := (Dot(sizes[..n], sizes[..n]), Dot(sizes[..n], values[..n]));
      var (p, q) := (Times(sizes[n], sizes[n]), Times(sizes[n], values[n]));
      GrowthAdds(k, d, a, b, p, q);
      assert Dot(sizes, sizes) == a + p && Dot(sizes, values) == b + q;
      ErrorUnfolds(sizes, values, k);
      ErrorUnfolds(sizes, values, k + d);
      assert SquaredError(sizes, values, k + d)
          == SquaredError(sizes[..n], values[..n], k) + Growth(k, d, a, b)
             + Miss(sizes[n], values[n], k) + Growth(k, d, p, q);
      assert Growth(k, d, a + p, b + q) == Growth(k, d, Dot(sizes, sizes), Dot(sizes, values));
    } else {
      NoGrowth(k, d);
    }
  }

  lemma ErrorUnfolds(sizes: seq<real>, values: seq<real>, k: real)
    requires |sizes| == |values| && sizes != []
    ensures var n := |sizes| - 1;
            SquaredError(sizes, values, k) == SquaredError(sizes[..n], values[..n], k) + Miss(sizes[n], values[n], k)
  {
    hide Miss;
  }

  lemma NoGrowth(k: real, d: real)
    ensures Growth(k, d, 0.0, 0.0) == 0.0
  {}

  lemma TermShifts(s: real, v: real, k: real, d: real)
    ensures Miss(s, v, k + d) == Miss(s, v, k) + Growth(k, d, Times(s, s), Times(s, v))
  {
    var e := v - k * s;
    assert v - (k + d) * s == e - d * s;
    assert (e - d * s) * (e - d * s) == e * e - 2.0 * (d * s) * e + (d * s) * (d * s);
    assert (d * s) * (d * s) == d * d * (s * s);
    assert (d * s) * e == d * (s * v - k * (s * s)) by {
      assert (d * s) * e == d * (s * e);
      assert s * e == s * v - k * (s * s);
    }
  }

  /** The regression slope minimises the squared error over all slopes, and only it does. */
  lemma SlopeIsLeastSquares(sizes: seq<real>, values: seq<real>, k: real, other: real)
    requires |sizes| == |values| && Dot(sizes, sizes) > 0.0
    requires k * Dot(sizes, sizes) == Dot(sizes, values)
    ensures SquaredError(sizes, values, k) <= SquaredError(sizes, values, other)
    ensures SquaredError(sizes, values, k) == SquaredError(sizes, values, other) <==> other == k
  {
    hide SquaredError, Dot, Growth;
    var d := other - k;
    ErrorShifts(sizes, values, k, d);
    assert k + d == other;
    GrowthAtSlope(k, d, Dot(sizes, sizes), Dot(sizes, values));
    PositiveEnergy(d, Dot(sizes, sizes));
  }

  lemma GrowthAtSlope(k: real, d: real, energy: real, correlation: real)
    requires k * energy == correlation
    ensures Growth(k, d, energy, correlation) == d * d * energy
  {
    assert correlation - k * energy == 0.0;
  }

  lemma PositiveEnergy(d: real, a: real)
    requires a > 0.0
    ensures d * d * a >= 0.0 && (d * d * a == 0.0 <==> d == 0.0)
  {
    SquareIsPositive(d);
    if d != 0.0 { ProductIsPositive(Square(d), a); }
  }

  lemma ProductIsPositive(x: real, y: real)
    requires x > 0.0 && y > 0.0
    ensures Times(x, y) > 0.0 && (x == y ==> Square(x) > 0.0)
  {}

  ghost predicate Proportional(sizes: seq<real>, values: seq<real>, k: real)
    requires |sizes| == |values|
  {
    forall i | 0 <= i < |sizes| :: values[i] == k * sizes[i]
  }

  lemma RelativeIsZero(s: real, v: real, k: real)
    requires s > 0.0
    ensures RelativeError(s, v, k) >= 0.0
    ensures RelativeError(s, v, k) == 0.0 <==> v == k * s
  {
    var q := (v - k * s) / s;
    assert q * s == v - k * s;
    SquareIsPositive(q);
  }

  lemma SquareIsPositive(q: real)
    ensures Square(q) >= 0.0 && (Square(q) == 0.0 <==> q == 0.0)
  {
    if q > 0.0 {
      ProductIsPositive(q, q);
    } else if q < 0.0 {
      ProductIsPositive(-q, -q);
      assert Square(-q) == Square(q);
    }
  }

  lemma {:induction false} ResidualIsZero(sizes: seq<real>, values: seq<real>, k: real)
    requires |sizes| == |values| && forall i | 0 <= i < |sizes| :: sizes[i] > 0.0
    ensures Residual(sizes, values, k) >= 0.0
    ensures Residual(sizes, values, k) == 0.0 <==> Proportional(sizes, values, k)
  {
    hide RelativeError;
    if sizes != [] {
      var n := |sizes| - 1;
      ResidualIsZero(sizes[..n], values[..n], k);
      RelativeIsZero(sizes[n], values[n], k);
    }
  }

  lemma MissIsZero(s: real, v: real, k: real)
    ensures Miss(s, v, k) >= 0.0 && (Miss(s, v, k) == 0.0 <==> v == k * s)
  {
    SquareIsPositive(v - k * s);
  }

  /** The squared error vanishes exactly for data on the line. */
  lemma {:induction false} ErrorZeroExactly(sizes: seq<real>, values: seq<real>, k: real)
    requires |sizes| == |values|
    ensures SquaredError(sizes, values, k) >= 0.0
    ensures SquaredError(sizes, values, k) == 0.0 <==> Proportional(sizes, values, k)
  {
    hide Miss;
    if sizes != [] {
      var n := |sizes| - 1;
      ErrorZeroExactly(sizes[..n], values[..n], k);
      MissIsZero(sizes[n], values[n], k);
    }
  }

  /** Proportional data have exactly their factor as regression slope. */
  lemma {:induction false} ProportionalDot(sizes: seq<real>, values: seq<real>, c: real)
    requires |sizes| == |values| && Proportional(sizes, values, c)
    ensures Dot(sizes, values) == c * Dot(sizes, sizes)
  {
    hide Times;
    if sizes != [] {
      var n := |sizes| - 1;
      ProportionalDot(sizes[..n], values[..n], c);
      var a := Dot(sizes[..n], sizes[..n]);
      assert Dot(sizes, sizes) == a + Times(sizes[n], sizes[n]);
      assert Dot(sizes, values) == Dot(sizes[..n], values[..n]) + Times(sizes[n], values[n]);
      ScaledTimes(a, sizes[n], c, values[n]);
    }
  }

  lemma ScaledTimes(a: real, s: real, c: real, v: real)
    requires v == c * s
    ensures c * (a + Times(s, s)) == c * a + Times(s, v)
  {}

  /** With positive sizes the residual vanishes exactly when the data are proportional to size. */
  lemma ResidualZeroExactly(sizes: seq<real>, values: seq<real>, k: real)
    requires |sizes| == |values| && Dot(sizes, sizes) > 0.0
    requires forall i | 0 <= i < |sizes| :: sizes[i] > 0.0
    requires k * Dot(sizes, sizes) == Dot(sizes, values)
    ensures Residual(sizes, values, k) == 0.0 <==> exists c :: Proportional(sizes, values, c)
  {
    ResidualIsZero(sizes, values, k);
    forall c | Proportional(sizes, values, c)
      ensures c == k
    {
      ProportionalDot(sizes, values, c);
      var a := Dot(sizes, sizes);
      assert (c - k) * a == 0.0;
    }
  }

  // ---------------------------------------------------------------- one glyph

  /** Slopes of one glyph's metrics across the sizes. */
  datatype Slopes = Slopes(advance: real, left: real, right: real, ascent: real, descent: real)

  datatype GlyphMetrics = GlyphMetrics(
    advance: real, lsb: real, rsb: real, ascent: real, descent: real, x0: real, y0: real, x1: real, y1: real)

  function Abs(v: real): real { if v < 0.0 then -v else v }

  function Regressed(k: Slopes): GlyphMetrics {
    var (advance, lsb, ascent) := (k.advance * 1000.0, k.left * 1000.0, k.ascent * 1000.0);
    var bboxW := (k.left + k.right) * 1000.0;
    var bboxH := (k.ascent + k.descent) * 1000.0;
    GlyphMetrics(advance, lsb, advance - lsb - bboxW, ascent, -Abs(k.descent * 1000.0),
                 lsb, ascent - bboxH, lsb + bboxW, ascent)
  }

  /** The ink box in thousandths of the em: as wide as its two extents about the pen and as high as
      the two about the baseline, which it reaches from the left bearing and from the ascent. */
  lemma BoxIsScaled(k: Slopes)
    ensures var g := Regressed(k);
            && g.advance == 1000.0 * k.advance && g.lsb == 1000.0 * k.left && g.ascent == 1000.0 * k.ascent
            && g.x0 == g.lsb && g.x1 - g.x0 == 1000.0 * (k.left + k.right)
            && g.y1 == g.ascent && g.y1 - g.y0 == 1000.0 * (k.ascent + k.descent)
            && (g.descent == 1000.0 * k.descent || g.descent == -1000.0 * k.descent)
  {}

  /** Left bearing, box width and right bearing add up to the advance, and the descent is never
      above the baseline. */
  lemma BearingsAddUp(k: Slopes)
    ensures var g := Regressed(k);
            g.lsb + (g.x1 - g.x0) + g.rsb == g.advance && g.descent <= 0.0
            && (g.descent == g.y0 <==> k.descent >= 0.0)
  {
    var g := Regressed(k);
    assert g.y0 == -k.descent * 1000.0;
  }
}
