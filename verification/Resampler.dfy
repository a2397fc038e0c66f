/**
 The streaming linear resampler of the desktop client (audio/resample.py), on PCM16
 samples.  Whatever the chunking of its input, it yields the batch interpolation.
 */
module Resampler {
  import BitArithmetic

  const MIN_SAMPLE := -32768
  const MAX_SAMPLE := 32767

  predicate InRange(x: int) {
    MIN_SAMPLE <= x <= MAX_SAMPLE
  }

  ghost predicate Pcm16(s: seq<int>) {
    forall i :: 0 <= i < |s| ==> InRange(s[i])
  }

  // ---- Rounding ------------------------------------------------------------------------------

  /** Python's `round(num / den)`: to nearest, ties to even. */
  function RoundHalfEven(num: int, den: int): int
    requires den > 0
  {
    var q, r := num / den, num % den;
    if 2 * r < den || (2 * r == den && q % 2 == 0) then q else q + 1
  }

  /** Rounding is characterised by distance at most one half, and evenness in a tie. */
  lemma RoundIff(num: int, den: int, v: int)
    requires den > 0
    ensures RoundHalfEven(num, den) == v <==>
            -den <= 2 * (v * den - num) <= den && (2 * (v * den - num) == den || 2 * (v * den - num) == -den ==> v % 2 == 0)
  {
    var q, r := num / den, num % den;
    var p := (v - q) * den;
    assert num == q * den + r;
    Distribute(v, q, den);
    if v == q {
      assert p == 0;
    } else if v == q + 1 {
      assert p == den;
    } else if v < q {
      ScaleLe(v - q, -1, den);
    } else {
      ScaleLe(2, v - q, den);
    }
    RoundCases(q, r, den, v, p);
    assert v * den - num == p - r;
  }

  lemma Distribute(v: int, q: int, den: int)
    ensures v * den == q * den + (v - q) * den
  {
  }

  /** Rounding down or up, by where the candidate v lies relative to the quotient q. */
  lemma RoundCases(q: int, r: int, den: int, v: int, p: int)
    requires 0 <= r < den
    requires v == q ==> p == 0
    requires v == q + 1 ==> p == den
    requires v < q ==> p <= -den
    requires v > q + 1 ==> p >= 2 * den
    ensures (if 2 * r < den || (2 * r == den && q % 2 == 0) then q else q + 1) == v <==>
            -den <= 2 * (p - r) <= den && (2 * (p - r) == den || 2 * (p - r) == -den ==> v % 2 == 0)
  {
  }

  lemma ScaleLe(a: int, b: int, m: int)
    requires a <= b && m >= 0
    ensures a * m <= b * m
  {
  }

  // ---- Rounding a floating-point quotient ----------------------------------------------------

  /** `round` of a floating-point number: to nearest, ties to even. */
  function RoundReal(v: real): int {
    var f := v.Floor;
    var d := v - f as real;
    if d < 0.5 || (d == 0.5 && f % 2 == 0) then f else f + 1
  }

  lemma RoundRealNear(v: real, n: int)
    requires -0.5 <= v - n as real <= 0.5 && (v - n as real == 0.5 || v - n as real == -0.5 ==> n % 2 == 0)
    ensures RoundReal(v) == n
  {
  }

  lemma BelowHalf(x: real, den: real, y: real)
    requires den > 0.0 && y == x * den && -den < 2.0 * y < den
    ensures -0.5 < x < 0.5
  {
    if x >= 0.5 {
      ScaleReal(0.5, x, den);
    } else if x <= -0.5 {
      ScaleReal(x, -0.5, den);
    }
  }

  lemma ScaleReal(a: real, b: real, m: real)
    requires a <= b && m > 0.0
    ensures a * m <= b * m
  {
  }

  /** A product that is half the factor comes from one half. */
  lemma ExactHalf(x: real, den: real, y: real)
    requires den > 0.0 && y == x * den && (2.0 * y == den || 2.0 * y == -den)
    ensures x == 0.5 || x == -0.5
  {
    if 2.0 * y == den {
      assert (x - 0.5) * den == 0.0;
    } else {
      assert (x + 0.5) * den == 0.0;
    }
  }

  /**
   Floating point rounds like exact arithmetic: v stands for num / den computed with any
   error below 1 / (2 * den), and exactly where the quotient is a whole or half number.
   */
  lemma FloatRoundsAlike(num: int, den: int, v: real)
    requires den > 0
    requires -1.0 < 2.0 * (v * den as real - num as real) < 1.0
    requires 2 * num % den == 0 ==> v * den as real == num as real
    ensures RoundReal(v) == RoundHalfEven(num, den)
  {
    var n := RoundHalfEven(num, den);
    RoundIff(num, den, n);
    var e := 2 * (n * den - num);
    if e == den || e == -den {
      HalfDivides(num, den, n, e);
    }
    CastProduct(n, den);
    DistributeReal(v, n as real, den as real);
    FloatNear(v - n as real, den, num, n * den, v * den as real);
    RoundRealNear(v, n);
  }

  lemma CastProduct(n: int, den: int)
    ensures (n * den) as real == n as real * den as real
  {
  }

  lemma DistributeReal(v: real, n: real, den: real)
    ensures (v - n) * den == v * den - n * den
  {
  }

  /** Distances measured in parts of den: x from the candidate, 2 * (nd - num) the exact one. */
  lemma FloatNear(x: real, den: int, num: int, nd: int, p: real)
    requires den > 0 && x * den as real == p - nd as real
    requires -den <= 2 * (nd - num) <= den
    requires -1.0 < 2.0 * (p - num as real) < 1.0
    requires 2 * (nd - num) == den || 2 * (nd - num) == -den ==> p == num as real
    ensures -0.5 <= x <= 0.5
    ensures x == 0.5 || x == -0.5 ==> 2 * (nd - num) == den || 2 * (nd - num) == -den
  {
    var e, y := 2 * (nd - num), p - nd as real;
    assert e as real == 2.0 * (nd as real - num as real);
    assert 2.0 * y == 2.0 * (p - num as real) - e as real;
    if e == den || e == -den {
      ExactHalf(x, den as real, y);
    } else {
      assert -(den as real) + 1.0 <= e as real <= den as real - 1.0;
      BelowHalf(x, den as real, y);
    }
  }

  lemma HalfDivides(num: int, den: int, n: int, e: int)
    requires den > 0 && e == 2 * (n * den - num) && (e == den || e == -den)
    ensures 2 * num % den == 0
  {
    var k := if e == den then 2 * n - 1 else 2 * n + 1;
    assert 2 * num == k * den;
    MultipleIsWhole(k, den);
  }

  lemma MultipleIsWhole(k: int, den: int)
    requires den > 0
    ensures k * den % den == 0
  {
    var q, r := k * den / den, k * den % den;
    assert k * den == q * den + r;
    Distribute(k, q, den);
    if k > q {
      ScaleLe(1, k - q, den);
    } else if k < q {
      ScaleLe(k - q, -1, den);
    }
  }

  /** Rounding stays between integer bounds of the quotient. */
  lemma RoundBounded(num: int, den: int, lo: int, hi: int)
    requires den > 0 && lo * den <= num <= hi * den
    ensures lo <= RoundHalfEven(num, den) <= hi
  {
    var v := RoundHalfEven(num, den);
    RoundIff(num, den, v);
    assert (v + 1) * den == v * den + den && (v - 1) * den == v * den - den;
    if v < lo {
      ScaleLe(v + 1, lo, den);
    } else if v > hi {
      ScaleLe(hi, v - 1, den);
    }
  }

  // ---- Downmix -------------------------------------------------------------------------------

  function Sum(s: seq<int>): int {
    if s == [] then 0 else Sum(s[..|s| - 1]) + s[|s| - 1]
  }

  lemma {:induction false} SumBounded(s: seq<int>)
    requires Pcm16(s)
    ensures MIN_SAMPLE * |s| <= Sum(s) <= MAX_SAMPLE * |s|
  {
    if s != [] {
      SumBounded(s[..|s| - 1]);
    }
  }

  /** Interleaved frames averaged to mono. */
  function Mono(raw: seq<int>, channels: nat): (r: seq<int>)
    requires channels > 0
    decreases |raw|
  {
    if |raw| < channels then []
    else [RoundHalfEven(Sum(raw[..channels]), channels)] + Mono(raw[channels..], channels)
  }

  /** The sum of the channels is the total: nothing for none, itself for one, and additive. */
  lemma SumOfNone()
    ensures Sum([]) == 0
  {
  }

  lemma SumOfOne(x: int)
    ensures Sum([x]) == x
  {
    assert [x][..0] == [];
  }

  lemma {:induction false} SumJoins(a: seq<int>, b: seq<int>)
    ensures Sum(a + b) == Sum(a) + Sum(b)
    decreases |b|
  {
    if b == [] {
      assert a + b == a;
    } else {
      var n := |b| - 1;
      assert (a + b)[..|a| + n] == a + b[..n];
      SumJoins(a, b[..n]);
    }
  }

  /** v is the nearest integer to total / count, the even one of two. */
  predicate IsRounded(v: int, total: int, count: int) {
    && -count <= 2 * (v * count - total) <= count
    && (2 * (v * count - total) == count || 2 * (v * count - total) == -count ==> v % 2 == 0)
  }

  /** Output j is the mean of the j-th group of channels, which starts at j * c, rounded. */
  lemma MonoAt(raw: seq<int>, c: nat, j: nat)
    requires c > 0 && (j + 1) * c <= |raw|
    ensures 0 <= j * c && j * c + c <= |raw| && j < |Mono(raw, c)|
    ensures IsRounded(Mono(raw, c)[j], Sum(raw[j * c..j * c + c]), c)
  {
    assert j * c + c == (j + 1) * c && j * c >= 0;
    MonoFrom(raw, c, j, j * c);
  }

  lemma {:induction false} MonoFrom(raw: seq<int>, c: nat, j: nat, at: nat)
    requires c > 0 && at == j * c && at + c <= |raw|
    ensures j < |Mono(raw, c)| && IsRounded(Mono(raw, c)[j], Sum(raw[at..at + c]), c)
    decreases j
  {
    if j == 0 {
      assert raw[at..at + c] == raw[..c];
      RoundIff(Sum(raw[..c]), c, Mono(raw, c)[0]);
    } else {
      GroupBefore(j, c, at);
      MonoFrom(raw[c..], c, j - 1, at - c);
      assert raw[c..][at - c..at - c + c] == raw[at..at + c];
    }
  }

  lemma GroupBefore(j: nat, c: nat, at: nat)
    requires j > 0 && at == j * c
    ensures at >= c && at - c == (j - 1) * c
  {
  }

  /** Whole frames give one output each. */
  lemma {:induction false} MonoSize(raw: seq<int>, c: nat)
    requires c > 0 && |raw| % c == 0
    ensures |Mono(raw, c)| * c == |raw|
    decreases |raw|
  {
    if |raw| >= c {
      DropWhole(|raw|, c);
      MonoSize(raw[c..], c);
      assert (|Mono(raw[c..], c)| + 1) * c == |Mono(raw[c..], c)| * c + c;
    }
  }

  /** Stereo is mixed to the rounded mean of left and right. */
  lemma MonoOfStereo(raw: seq<int>, j: nat)
    requires 2 * j + 2 <= |raw|
    ensures j < |Mono(raw, 2)| && IsRounded(Mono(raw, 2)[j], raw[2 * j] + raw[2 * j + 1], 2)
  {
    MonoAt(raw, 2, j);
    var frame := raw[j * 2..j * 2 + 2];
    assert frame == [raw[2 * j]] + [raw[2 * j + 1]];
    SumJoins([raw[2 * j]], [raw[2 * j + 1]]);
    SumOfOne(raw[2 * j]);
    SumOfOne(raw[2 * j + 1]);
  }

  lemma {:induction false} MonoPcm16(raw: seq<int>, channels: nat)
    requires channels > 0 && Pcm16(raw)
    ensures Pcm16(Mono(raw, channels))
    decreases |raw|
  {
    if |raw| >= channels {
      SumBounded(raw[..channels]);
      RoundBounded(Sum(raw[..channels]), channels, MIN_SAMPLE, MAX_SAMPLE);
      MonoPcm16(raw[channels..], channels);
    }
  }

  lemma {:induction false} MonoOfOneChannel(raw: seq<int>)
    ensures Mono(raw, 1) == raw
  {
    if raw != [] {
      assert raw[..1] == [raw[0]] && raw[..1][..0] == [];
      assert Sum(raw[..1]) == Sum(raw[..1][..0]) + raw[0] == raw[0];
      RoundBounded(raw[0], 1, raw[0], raw[0]);
      MonoOfOneChannel(raw[1..]);
    }
  }

  lemma {:induction false} MonoAppend(raw: seq<int>, frame: seq<int>, channels: nat)
    requires channels > 0 && |raw| % channels == 0 && |frame| == channels
    ensures Mono(raw + frame, channels) == Mono(raw, channels) + [RoundHalfEven(Sum(frame), channels)]
    decreases |raw|
  {
    if raw == [] {
      assert raw + frame == frame;
      assert frame[..channels] == frame && frame[channels..] == [];
    } else {
      assert |raw| >= channels;
      assert (raw + frame)[..channels] == raw[..channels];
      assert (raw + frame)[channels..] == raw[channels..] + frame;
      DropWhole(|raw|, channels);
      MonoAppend(raw[channels..], frame, channels);
    }
  }

  lemma DropWhole(n: nat, c: nat)
    requires c > 0 && n >= c && n % c == 0
    ensures (n - c) % c == 0
  {
    var q := n / c;
    assert n == c * q;
    assert q > 0;
    assert c * (q - 1) == c * q - c;
    BitArithmetic.QuotientUnique(n - c, c, q - 1, 0);
  }

  // ---- The batch definition ------------------------------------------------------------------

  /** Index of the input sample at or before output k, and how far past it (in units of 1/outRate). */
  function IndexOf(k: nat, inRate: nat, outRate: nat): nat
    requires outRate > 0
  {
    k * inRate / outRate
  }

  function PastOf(k: nat, inRate: nat, outRate: nat): nat
    requires outRate > 0
  {
    k * inRate % outRate
  }

  /** Linear interpolation of the whole input at position k * inRate / outRate; the last sample repeats. */
  function Value(x: seq<int>, k: nat, inRate: nat, outRate: nat): int
    requires outRate > 0 && IndexOf(k, inRate, outRate) < |x|
  {
    var i := IndexOf(k, inRate, outRate);
    var following := if i + 1 < |x| then x[i + 1] else x[i];
    RoundHalfEven(x[i] * outRate + (following - x[i]) * PastOf(k, inRate, outRate), outRate)
  }

  /** ceil(n * outRate / inRate): positions that lie before the end of n samples. */
  function Total(n: nat, inRate: nat, outRate: nat): nat
    requires inRate > 0
  {
    (n * outRate + inRate - 1) / inRate
  }

  /** Positions at or before the last of n samples: those that need no later sample. */
  function Ready(n: nat, inRate: nat, outRate: nat): nat
    requires inRate > 0
  {
    if n == 0 then 0 else (n - 1) * outRate / inRate + 1
  }

  lemma DivLe(m: nat, d: nat, k: nat)
    requires d > 0
    ensures k * d <= m <==> k <= m / d
  {
    assert m == d * (m / d) + m % d;
    if k <= m / d {
      ScaleLe(k, m / d, d);
    } else {
      ScaleLe(m / d + 1, k, d);
      assert (m / d + 1) * d == d * (m / d) + d;
    }
  }

  lemma ReadyIff(n: nat, k: nat, inRate: nat, outRate: nat)
    requires inRate > 0
    ensures k < Ready(n, inRate, outRate) <==> n > 0 && k * inRate <= (n - 1) * outRate
  {
    if n > 0 {
      DivLe((n - 1) * outRate, inRate, k);
    }
  }

  lemma TotalIff(n: nat, k: nat, inRate: nat, outRate: nat)
    requires inRate > 0
    ensures k < Total(n, inRate, outRate) <==> k * inRate < n * outRate
  {
    DivLe(n * outRate + inRate - 1, inRate, k + 1);
    assert (k + 1) * inRate == k * inRate + inRate;
  }

  /** Where position k lies relative to the end of n samples, in terms of its index. */
  lemma IndexPosition(n: nat, k: nat, inRate: nat, outRate: nat)
    requires outRate > 0
    ensures k * inRate < n * outRate <==> IndexOf(k, inRate, outRate) < n
    ensures n > 0 ==> (k * inRate <= (n - 1) * outRate <==>
                       IndexOf(k, inRate, outRate) < n - 1 || (IndexOf(k, inRate, outRate) == n - 1 && PastOf(k, inRate, outRate) == 0))
  {
    var i, r := IndexOf(k, inRate, outRate), PastOf(k, inRate, outRate);
    assert k * inRate == i * outRate + r;
    if i < n {
      ScaleLe(i + 1, n, outRate);
      assert (i + 1) * outRate == i * outRate + outRate;
      if i < n - 1 {
        ScaleLe(i + 1, n - 1, outRate);
      }
    } else {
      ScaleLe(n, i, outRate);
    }
    if n > 0 && i > n - 1 {
      ScaleLe(n, i, outRate);
      assert n * outRate == (n - 1) * outRate + outRate;
    }
  }

  /** Outputs a .. b of the batch definition. */
  function Values(x: seq<int>, a: nat, b: nat, inRate: nat, outRate: nat): (r: seq<int>)
    requires inRate > 0 && outRate > 0 && a <= b <= Total(|x|, inRate, outRate)
    ensures |r| == b - a
    decreases b - a
  {
    if a == b then []
    else
      TotalIff(|x|, b - 1, inRate, outRate);
      IndexPosition(|x|, b - 1, inRate, outRate);
      Values(x, a, b - 1, inRate, outRate) + [Value(x, b - 1, inRate, outRate)]
  }

  lemma {:induction false} ValuesAt(x: seq<int>, a: nat, b: nat, i: nat, inRate: nat, outRate: nat)
    requires inRate > 0 && outRate > 0 && a + i < b <= Total(|x|, inRate, outRate)
    ensures IndexOf(a + i, inRate, outRate) < |x|
    ensures Values(x, a, b, inRate, outRate)[i] == Value(x, a + i, inRate, outRate)
    decreases b
  {
    TotalIff(|x|, a + i, inRate, outRate);
    IndexPosition(|x|, a + i, inRate, outRate);
    if a + i < b - 1 {
      ValuesAt(x, a, b - 1, i, inRate, outRate);
    }
  }

  /** Every output is a PCM16 sample. */
  lemma ValuesPcm16(x: seq<int>, a: nat, b: nat, inRate: nat, outRate: nat)
    requires inRate > 0 && outRate > 0 && a <= b <= Total(|x|, inRate, outRate) && Pcm16(x)
    ensures Pcm16(Values(x, a, b, inRate, outRate))
  {
    forall i | 0 <= i < b - a
      ensures InRange(Values(x, a, b, inRate, outRate)[i])
    {
      ValuesAt(x, a, b, i, inRate, outRate);
      ValueMeaning(x, a + i, inRate, outRate);
    }
  }

  /** The whole output for the whole input. */
  function Batch(x: seq<int>, inRate: nat, outRate: nat): seq<int>
    requires inRate > 0 && outRate > 0
  {
    Values(x, 0, Total(|x|, inRate, outRate), inRate, outRate)
  }

  /** v is an integer nearest to the point on the line from a to b, r parts of m along. */
  predicate NearestOnLine(v: int, a: int, b: int, r: int, m: int) {
    -m <= 2 * (v * m - (a * (m - r) + b * r)) <= m
  }

  /** The point on the line from a to b, r parts of m along, rounds to a PCM16 sample at most half away. */
  lemma PointRounded(a: int, b: int, r: nat, m: nat)
    requires InRange(a) && InRange(b) && r < m
    ensures var v := RoundHalfEven(a * m + (b - a) * r, m);
            InRange(v) && NearestOnLine(v, a, b, r, m) && (r == 0 ==> v == a)
  {
    var num := a * m + (b - a) * r;
    Weighted(a, b, r, m);
    RoundBounded(num, m, MIN_SAMPLE, MAX_SAMPLE);
    RoundIff(num, m, RoundHalfEven(num, m));
    if r == 0 {
      assert (b - a) * r == 0;
      RoundBounded(num, m, a, a);
    }
  }

  /** The interpolated value is the nearest integer to the point on the line, and it is a PCM16 sample. */
  lemma ValueMeaning(x: seq<int>, k: nat, inRate: nat, outRate: nat)
    requires outRate > 0 && IndexOf(k, inRate, outRate) < |x| && Pcm16(x)
    ensures var i, r := IndexOf(k, inRate, outRate), PastOf(k, inRate, outRate);
            var following := if i + 1 < |x| then x[i + 1] else x[i];
            var v := Value(x, k, inRate, outRate);
            && InRange(v)
            && NearestOnLine(v, x[i], following, r, outRate)
            && (r == 0 ==> v == x[i])
  {
    var i, r := IndexOf(k, inRate, outRate), PastOf(k, inRate, outRate);
    var following := if i + 1 < |x| then x[i + 1] else x[i];
    PointRounded(x[i], following, r, outRate);
  }

  /**
   The interpolation computed in floating point: a result v within 1 / (2 * outRate) of the
   point on the line, and exact where that is a whole or half number, rounds to the same sample.
   */
  lemma FloatValue(x: seq<int>, k: nat, inRate: nat, outRate: nat, v: real)
    requires outRate > 0 && IndexOf(k, inRate, outRate) < |x|
    requires var i := IndexOf(k, inRate, outRate);
             var following := if i + 1 < |x| then x[i + 1] else x[i];
             var num := x[i] * outRate + (following - x[i]) * PastOf(k, inRate, outRate);
             && -1.0 < 2.0 * (v * outRate as real - num as real) < 1.0
             && (2 * num % outRate == 0 ==> v * outRate as real == num as real)
    ensures RoundReal(v) == Value(x, k, inRate, outRate)
  {
    var i := IndexOf(k, inRate, outRate);
    var following := if i + 1 < |x| then x[i + 1] else x[i];
    FloatRoundsAlike(x[i] * outRate + (following - x[i]) * PastOf(k, inRate, outRate), outRate, v);
  }

  lemma Weighted(a: int, b: int, r: nat, m: nat)
    requires InRange(a) && InRange(b) && r < m
    ensures a * m + (b - a) * r == a * (m - r) + b * r
    ensures MIN_SAMPLE * m <= a * m + (b - a) * r <= MAX_SAMPLE * m
  {
    ScaleLe(MIN_SAMPLE, a, m - r);
    ScaleLe(a, MAX_SAMPLE, m - r);
    ScaleLe(MIN_SAMPLE, b, r);
    ScaleLe(b, MAX_SAMPLE, r);
  }

  lemma ReadyWithinTotal(n: nat, inRate: nat, outRate: nat)
    requires inRate > 0 && outRate > 0
    ensures Ready(n, inRate, outRate) <= Total(n, inRate, outRate)
  {
    if n > 0 {
      var last := Ready(n, inRate, outRate) - 1;
      ReadyIff(n, last, inRate, outRate);
      assert n * outRate == (n - 1) * outRate + outRate;
      TotalIff(n, last, inRate, outRate);
    }
  }

  lemma ReadyMonotone(n: nat, m: nat, inRate: nat, outRate: nat)
    requires inRate > 0 && n <= m
    ensures Ready(n, inRate, outRate) <= Ready(m, inRate, outRate)
  {
    if n > 0 {
      var last := Ready(n, inRate, outRate) - 1;
      ReadyIff(n, last, inRate, outRate);
      ScaleLe(n - 1, m - 1, outRate);
      ReadyIff(m, last, inRate, outRate);
    }
  }

  /** A value that needs no later sample does not change when samples are appended. */
  lemma ReadyValueStable(x: seq<int>, more: seq<int>, k: nat, inRate: nat, outRate: nat)
    requires inRate > 0 && outRate > 0 && k < Ready(|x|, inRate, outRate)
    ensures IndexOf(k, inRate, outRate) < |x|
    ensures Value(x + more, k, inRate, outRate) == Value(x, k, inRate, outRate)
  {
    ReadyIff(|x|, k, inRate, outRate);
    IndexPosition(|x|, k, inRate, outRate);
    var i := IndexOf(k, inRate, outRate);
    if i == |x| - 1 {
      assert PastOf(k, inRate, outRate) == 0;
      assert forall d: int :: d * 0 == 0;
    }
  }

  lemma {:induction false} ReadyValuesStable(x: seq<int>, more: seq<int>, a: nat, b: nat, inRate: nat, outRate: nat)
    requires inRate > 0 && outRate > 0 && a <= b <= Ready(|x|, inRate, outRate)
    ensures b <= Total(|x|, inRate, outRate) && b <= Total(|x + more|, inRate, outRate)
    ensures Values(x + more, a, b, inRate, outRate) == Values(x, a, b, inRate, outRate)
    decreases b
  {
    ReadyWithinTotal(|x|, inRate, outRate);
    ReadyWithinTotal(|x + more|, inRate, outRate);
    ReadyMonotone(|x|, |x + more|, inRate, outRate);
    if a < b {
      ReadyValueStable(x, more, b - 1, inRate, outRate);
      ReadyValuesStable(x, more, a, b - 1, inRate, outRate);
    }
  }

  lemma {:induction false} ValuesJoin(x: seq<int>, a: nat, b: nat, c: nat, inRate: nat, outRate: nat)
    requires inRate > 0 && outRate > 0 && a <= b <= c <= Total(|x|, inRate, outRate)
    ensures Values(x, a, b, inRate, outRate) + Values(x, b, c, inRate, outRate) == Values(x, a, c, inRate, outRate)
    decreases c - b
  {
    if b < c {
      ValuesJoin(x, a, b, c - 1, inRate, outRate);
    }
  }

  // ---- Chunking ------------------------------------------------------------------------------

  function Flatten(chunks: seq<seq<int>>): seq<int> {
    if chunks == [] then [] else Flatten(chunks[..|chunks| - 1]) + chunks[|chunks| - 1]
  }

  /** What a push yields once `before` was consumed and `chunk` arrives: the positions that became ready. */
  function Yield(before: seq<int>, chunk: seq<int>, inRate: nat, outRate: nat): seq<int>
    requires inRate > 0 && outRate > 0
  {
    var x := before + chunk;
    ReadyMonotone(|before|, |x|, inRate, outRate);
    ReadyWithinTotal(|x|, inRate, outRate);
    Values(x, Ready(|before|, inRate, outRate), Ready(|x|, inRate, outRate), inRate, outRate)
  }

  /** What flushing yields: the positions after the last sample. */
  function Tail(x: seq<int>, inRate: nat, outRate: nat): seq<int>
    requires inRate > 0 && outRate > 0
  {
    ReadyWithinTotal(|x|, inRate, outRate);
    Values(x, Ready(|x|, inRate, outRate), Total(|x|, inRate, outRate), inRate, outRate)
  }

  /** Concatenated outputs of pushing the chunks one after the other. */
  function Streamed(chunks: seq<seq<int>>, inRate: nat, outRate: nat): seq<int>
    requires inRate > 0 && outRate > 0
  {
    if chunks == [] then []
    else
      var n := |chunks| - 1;
      Streamed(chunks[..n], inRate, outRate) + Yield(Flatten(chunks[..n]), chunks[n], inRate, outRate)
  }

  lemma {:induction false} StreamedIsReady(chunks: seq<seq<int>>, inRate: nat, outRate: nat)
    requires inRate > 0 && outRate > 0
    ensures var x := Flatten(chunks);
            && Ready(|x|, inRate, outRate) <= Total(|x|, inRate, outRate)
            && Streamed(chunks, inRate, outRate) == Values(x, 0, Ready(|x|, inRate, outRate), inRate, outRate)
    decreases |chunks|
  {
    var x := Flatten(chunks);
    ReadyWithinTotal(|x|, inRate, outRate);
    if chunks != [] {
      var n := |chunks| - 1;
      var before := Flatten(chunks[..n]);
      StreamedIsReady(chunks[..n], inRate, outRate);
      ReadyMonotone(|before|, |x|, inRate, outRate);
      ReadyValuesStable(before, chunks[n], 0, Ready(|before|, inRate, outRate), inRate, outRate);
      ValuesJoin(x, 0, Ready(|before|, inRate, outRate), Ready(|x|, inRate, outRate), inRate, outRate);
    }
  }

  /** For every split of the input into chunks, pushing them and flushing gives exactly the batch output. */
  lemma ChunkingIsInvisible(chunks: seq<seq<int>>, inRate: nat, outRate: nat)
    requires inRate > 0 && outRate > 0
    ensures Streamed(chunks, inRate, outRate) + Tail(Flatten(chunks), inRate, outRate) == Batch(Flatten(chunks), inRate, outRate)
  {
    var x := Flatten(chunks);
    StreamedIsReady(chunks, inRate, outRate);
    ValuesJoin(x, 0, Ready(|x|, inRate, outRate), Total(|x|, inRate, outRate), inRate, outRate);
  }

  // ---- The resampler object --------------------------------------------------------------------

  datatype Outcome = Produced(samples: seq<int>) | PushedAfterFlush | Misaligned | FellBehind

  class Pcm16MonoResampler {
    const inRate: nat
    const channels: nat
    const outRate: nat
    var samples: seq<int>
    var baseIndex: nat
    var nextNumerator: nat
    var flushed: bool
    /** All mono samples pushed so far, and how many outputs were produced from them. */
    ghost var consumed: seq<int>
    ghost var produced: nat

    ghost predicate Configured() {
      inRate > 0 && channels > 0 && outRate > 0
    }

    /** The retained samples are the end of the input, and the next position is not before them. */
    ghost predicate Positioned()
      reads this
    {
      && Configured() && Pcm16(consumed)
      && baseIndex + |samples| == |consumed| && samples == consumed[baseIndex..]
      && nextNumerator == produced * inRate
      && baseIndex <= nextNumerator / outRate
    }

    ghost predicate Valid()
      reads this
    {
      && Configured() && Pcm16(consumed)
      && (flushed ==> samples == [])
      && (!flushed ==> Positioned() && produced == Ready(|consumed|, inRate, outRate) && |samples| <= 1)
    }

    constructor (inputSampleRate: nat, inputChannels: nat, outputSampleRate: nat)
      requires inputSampleRate > 0 && inputChannels > 0 && outputSampleRate > 0
      ensures Valid() && !flushed && consumed == []
      ensures inRate == inputSampleRate && channels == inputChannels && outRate == outputSampleRate
    {
      inRate, channels, outRate := inputSampleRate, inputChannels, outputSampleRate;
      samples, baseIndex, nextNumerator, flushed := [], 0, 0, false;
      consumed, produced := [], 0;
    }

    method Downmix(raw: seq<int>) returns (mono: seq<int>)
      requires Configured() && |raw| % channels == 0
      ensures mono == Mono(raw, channels)
    {
      if channels == 1 {
        MonoOfOneChannel(raw);
        return raw;
      }
      mono := [];
      var offset := 0;
      while offset < |raw|
        invariant 0 <= offset <= |raw| && offset % channels == 0
        invariant mono == Mono(raw[..offset], channels)
        decreases |raw| - offset
      {
        WholeFrame(offset, |raw|, channels);
        var frame := raw[offset..offset + channels];
        MonoAppend(raw[..offset], frame, channels);
        assert raw[..offset + channels] == raw[..offset] + frame;
        mono := mono + [RoundHalfEven(Sum(frame), channels)];
        offset := offset + channels;
      }
      assert raw[..offset] == raw;
    }

    /** The number of outputs that can be given: all of them when the last sample may be repeated. */
    ghost function Goal(repeatLast: bool): nat
      requires Configured()
      reads this
    {
      if repeatLast then Total(|consumed|, inRate, outRate) else Ready(|consumed|, inRate, outRate)
    }

    /** The output at the next position, unless it lies past the retained samples. */
    method NextSample(repeatLast: bool) returns (stop: bool, behind: bool, value: int)
      requires Positioned() && samples != []
      ensures !behind && stop == (produced >= Goal(repeatLast))
      ensures !stop ==> IndexOf(produced, inRate, outRate) < |consumed| && value == Value(consumed, produced, inRate, outRate)
    {
      var lastIndex := baseIndex + |samples| - 1;
      var index, remainder := nextNumerator / outRate, nextNumerator % outRate;
      WhereNext();
      stop, behind, value := false, false, 0;
      if index > lastIndex {
        return true, false, 0;
      }
      var relative := index - baseIndex;
      if relative < 0 {
        return true, true, 0;
      }
      if remainder != 0 && index == lastIndex && !repeatLast {
        return true, false, 0;
      }
      value := Interpolate(index, remainder);
    }

    /** Whether the next position can be given is decided by its index and remainder. */
    lemma WhereNext()
      requires Positioned()
      ensures IndexOf(produced, inRate, outRate) == nextNumerator / outRate && PastOf(produced, inRate, outRate) == nextNumerator % outRate
      ensures produced >= Goal(true) <==> nextNumerator / outRate >= |consumed|
      ensures produced >= Goal(false) <==>
                nextNumerator / outRate >= |consumed| || (nextNumerator / outRate == |consumed| - 1 && nextNumerator % outRate != 0)
    {
      IndexPosition(|consumed|, produced, inRate, outRate);
      ReadyIff(|consumed|, produced, inRate, outRate);
      TotalIff(|consumed|, produced, inRate, outRate);
    }

    method Interpolate(index: nat, remainder: nat) returns (value: int)
      requires Positioned() && baseIndex <= index < |consumed|
      requires index == IndexOf(produced, inRate, outRate) && remainder == PastOf(produced, inRate, outRate)
      ensures value == Value(consumed, produced, inRate, outRate)
    {
      var relative := index - baseIndex;
      assert samples[relative] == consumed[index];
      ValueMeaning(consumed, produced, inRate, outRate);
      if remainder == 0 {
        return samples[relative];
      }
      var current := samples[relative];
      var following := current;
      if relative + 1 < |samples| {
        following := samples[relative + 1];
        assert following == consumed[index + 1];
      }
      value := RoundHalfEven(current * outRate + (following - current) * remainder, outRate);
    }

    method Produce(repeatLast: bool) returns (output: seq<int>, behind: bool)
      requires Positioned() && produced <= Goal(repeatLast)
      modifies this
      ensures !behind && Positioned() && consumed == old(consumed) && flushed == old(flushed)
      ensures old(produced) <= produced <= Total(|consumed|, inRate, outRate)
      ensures output == Values(consumed, old(produced), produced, inRate, outRate)
      ensures produced == if old(samples) == [] then old(produced) else Goal(repeatLast)
      ensures samples == if nextNumerator / outRate >= |consumed| then [] else consumed[nextNumerator / outRate..]
    {
      ReadyWithinTotal(|consumed|, inRate, outRate);
      output, behind := [], false;
      if samples == [] {
        return;
      }
      while true
        invariant Positioned() && consumed == old(consumed) && flushed == old(flushed)
        invariant samples == old(samples)
        invariant old(produced) <= produced <= Goal(repeatLast)
        invariant output == Values(consumed, old(produced), produced, inRate, outRate)
        decreases Goal(repeatLast) - produced
      {
        var stop, fell, value := NextSample(repeatLast);
        if fell {
          return output, true;
        }
        if stop {
          break;
        }
        ValueMeaning(consumed, produced, inRate, outRate);
        output := output + [if value < MIN_SAMPLE then MIN_SAMPLE else if value > MAX_SAMPLE then MAX_SAMPLE else value];
        MoveOn();
      }
      TrimConsumed();
    }

    /** Go to the next position. */
    method MoveOn()
      requires Positioned()
      modifies this`nextNumerator, this`produced
      ensures Positioned() && produced == old(produced) + 1
    {
      NextPosition(produced);
      nextNumerator := nextNumerator + inRate;
      produced := produced + 1;
    }

    /** Drop the samples before the next position. */
    method TrimConsumed()
      requires Positioned()
      modifies this`samples, this`baseIndex
      ensures Positioned()
      ensures samples == if nextNumerator / outRate >= |consumed| then [] else consumed[nextNumerator / outRate..]
    {
      var nextIndex := nextNumerator / outRate;
      var removable := if |samples| < nextIndex - baseIndex then |samples| else nextIndex - baseIndex;
      if removable > 0 {
        samples := samples[removable..];
        baseIndex := baseIndex + removable;
      }
    }

    lemma NextPosition(k: nat)
      requires Configured()
      ensures (k + 1) * inRate == k * inRate + inRate
      ensures k * inRate / outRate <= (k + 1) * inRate / outRate
    {
      var a, b := k * inRate, (k + 1) * inRate;
      DivLe(b, outRate, a / outRate);
    }

    /** Nothing but possibly the last sample is retained once every ready position was produced. */
    lemma RetainedAfterPush()
      requires Positioned() && produced >= Ready(|consumed|, inRate, outRate)
      ensures nextNumerator / outRate + 1 >= |consumed|
    {
      IndexPosition(|consumed|, produced, inRate, outRate);
      ReadyIff(|consumed|, produced, inRate, outRate);
    }

    /** With no sample retained every position before the end was already produced. */
    lemma NothingLeft()
      requires Positioned() && samples == []
      ensures produced >= Total(|consumed|, inRate, outRate)
    {
      IndexPosition(|consumed|, produced, inRate, outRate);
      TotalIff(|consumed|, produced, inRate, outRate);
    }

    method Push(raw: seq<int>) returns (r: Outcome)
      requires Valid() && Pcm16(raw)
      modifies this
      ensures Valid() && !r.FellBehind?
      ensures r.PushedAfterFlush? <==> old(flushed)
      ensures r.Misaligned? <==> !old(flushed) && |raw| % channels != 0
      ensures !r.Produced? ==> consumed == old(consumed) && samples == old(samples) && flushed == old(flushed)
      ensures r.Produced? ==>
                && !flushed && |samples| <= 1
                && consumed == old(consumed) + Mono(raw, channels)
                && r.samples == Yield(old(consumed), Mono(raw, channels), inRate, outRate)
    {
      if flushed {
        return PushedAfterFlush;
      }
      if |raw| % channels != 0 {
        return Misaligned;
      }
      var mono := Downmix(raw);
      MonoPcm16(raw, channels);
      samples := samples + mono;
      consumed := consumed + mono;
      ReadyMonotone(|old(consumed)|, |consumed|, inRate, outRate);
      var output, behind := Produce(false);
      RetainedAfterPush();
      if behind {
        return FellBehind;
      }
      r := Produced(output);
    }

    method Flush() returns (output: seq<int>)
      requires Valid()
      modifies this
      ensures Valid() && flushed && consumed == old(consumed) && samples == []
      ensures output == if old(flushed) then [] else Tail(consumed, inRate, outRate)
    {
      if flushed {
        return [];
      }
      flushed := true;
      ReadyWithinTotal(|consumed|, inRate, outRate);
      if samples == [] {
        NothingLeft();
      }
      var behind;
      output, behind := Produce(true);
      samples := [];
    }
  }

  /** Every chunk downmixed. */
  function MonoChunks(chunks: seq<seq<int>>, channels: nat): (r: seq<seq<int>>)
    requires channels > 0
    ensures |r| == |chunks|
  {
    if chunks == [] then [] else MonoChunks(chunks[..|chunks| - 1], channels) + [Mono(chunks[|chunks| - 1], channels)]
  }

  lemma OneMoreChunk(chunks: seq<seq<int>>, chunk: seq<int>, channels: nat, inRate: nat, outRate: nat)
    requires channels > 0 && inRate > 0 && outRate > 0
    ensures var done, all := MonoChunks(chunks, channels), MonoChunks(chunks + [chunk], channels);
            && Flatten(all) == Flatten(done) + Mono(chunk, channels)
            && Streamed(all, inRate, outRate) == Streamed(done, inRate, outRate) + Yield(Flatten(done), Mono(chunk, channels), inRate, outRate)
  {
    var done, all := MonoChunks(chunks, channels), MonoChunks(chunks + [chunk], channels);
    assert (chunks + [chunk])[..|chunks|] == chunks;
    assert all == done + [Mono(chunk, channels)] && all[..|chunks|] == done;
  }

  /** Whole frames of PCM16 samples in every chunk. */
  ghost predicate Aligned(chunks: seq<seq<int>>, channels: nat)
    requires channels > 0
  {
    forall i :: 0 <= i < |chunks| ==> Pcm16(chunks[i]) && |chunks[i]| % channels == 0
  }

  /** One more chunk, after the chunks pushed before. */
  method PushChunk(r: Pcm16MonoResampler, ghost before: seq<seq<int>>, chunk: seq<int>) returns (samples: seq<int>)
    requires r.Valid() && !r.flushed && Pcm16(chunk) && |chunk| % r.channels == 0
    requires r.consumed == Flatten(MonoChunks(before, r.channels))
    modifies r
    ensures r.Valid() && !r.flushed && r.consumed == Flatten(MonoChunks(before + [chunk], r.channels))
    ensures Streamed(MonoChunks(before + [chunk], r.channels), r.inRate, r.outRate) ==
            Streamed(MonoChunks(before, r.channels), r.inRate, r.outRate) + samples
  {
    OneMoreChunk(before, chunk, r.channels, r.inRate, r.outRate);
    var o := r.Push(chunk);
    samples := o.samples;
  }

  /** Pushing any channel-aligned chunks into a fresh resampler and flushing gives the batch output of their mono sum. */
  method ResampleChunks(r: Pcm16MonoResampler, chunks: seq<seq<int>>) returns (output: seq<int>)
    requires r.Valid() && !r.flushed && r.consumed == []
    requires Aligned(chunks, r.channels)
    modifies r
    ensures output == Batch(Flatten(MonoChunks(chunks, r.channels)), r.inRate, r.outRate)
  {
    output := PushChunks(r, chunks);
    var tail := r.Flush();
    ChunkingIsInvisible(MonoChunks(chunks, r.channels), r.inRate, r.outRate);
    output := output + tail;
  }

  method PushChunks(r: Pcm16MonoResampler, chunks: seq<seq<int>>) returns (output: seq<int>)
    requires r.Valid() && !r.flushed && r.consumed == []
    requires Aligned(chunks, r.channels)
    modifies r
    ensures r.Valid() && !r.flushed && r.consumed == Flatten(MonoChunks(chunks, r.channels))
    ensures output == Streamed(MonoChunks(chunks, r.channels), r.inRate, r.outRate)
  {
    output := [];
    ghost var done := [];
    var i := 0;
    while i < |chunks|
      invariant 0 <= i <= |chunks| && done == chunks[..i] && r.Valid() && !r.flushed
      invariant r.consumed == Flatten(MonoChunks(done, r.channels))
      invariant output == Streamed(MonoChunks(done, r.channels), r.inRate, r.outRate)
    {
      var more := PushChunk(r, done, chunks[i]);
      done := done + [chunks[i]];
      output := output + more;
      i := i + 1;
    }
    assert done == chunks;
  }

  lemma WholeFrame(offset: nat, n: nat, c: nat)
    requires c > 0 && offset % c == 0 && n % c == 0 && offset < n
    ensures offset + c <= n && (offset + c) % c == 0
  {
    var p, q := offset / c, n / c;
    assert offset == c * p && n == c * q;
    if p >= q {
      ScaleLe(q, p, c);
    }
    ScaleLe(p + 1, q, c);
    assert c * (p + 1) == c * p + c && (p + 1) * c == c * (p + 1) && q * c == c * q;
    BitArithmetic.QuotientUnique(offset + c, c, p + 1, 0);
  }
}
