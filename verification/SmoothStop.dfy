/** The time to stop, from a line fitted to the velocity history. */
module SmoothStop {
  import opened Sums
  import opened Reals

  datatype Outcome = NotSet | NoTime | StopsIn(time: real)

  /** One entry of the history: a stamp and the velocity then, both in seconds and metres per second. */
  datatype Velocity = Velocity(stamp: real, v: real)

  function TimeOf(h: seq<Velocity>, now: real, i: int): real {
    if 0 <= i < |h| then h[i].stamp - now else 0.0
  }

  function SpeedOf(h: seq<Velocity>, i: int): real {
    if 0 <= i < |h| then h[i].v else 0.0
  }

  /** How far the line v = a t + b misses entry i. */
  function Residual(h: seq<Velocity>, now: real, a: real, b: real, i: int): real {
    SpeedOf(h, i) - (a * TimeOf(h, now, i) + b)
  }

  ghost function Times(h: seq<Velocity>, now: real): int -> real { i => TimeOf(h, now, i) }

  ghost function Speeds(h: seq<Velocity>): int -> real { i => SpeedOf(h, i) }

  ghost function TimesSpeeds(h: seq<Velocity>, now: real): int -> real { i => TimeOf(h, now, i) * SpeedOf(h, i) }

  ghost function TimesSquared(h: seq<Velocity>, now: real): int -> real { i => TimeOf(h, now, i) * TimeOf(h, now, i) }

  ghost function Residuals(h: seq<Velocity>, now: real, a: real, b: real): int -> real {
    i => Residual(h, now, a, b, i)
  }

  ghost function TimesResiduals(h: seq<Velocity>, now: real, a: real, b: real): int -> real {
    i => TimeOf(h, now, i) * Residual(h, now, a, b, i)
  }

  ghost function SquaredResiduals(h: seq<Velocity>, now: real, a: real, b: real): int -> real {
    i => Square(Residual(h, now, a, b, i))
  }

  /** The squared distances between two lines at the entries, by the differences da and db of their coefficients. */
  ghost function SquaredGaps(h: seq<Velocity>, now: real, da: real, db: real): int -> real {
    i => Square(Gap(h, now, da, db, i))
  }

  function Gap(h: seq<Velocity>, now: real, da: real, db: real, i: int): real { da * TimeOf(h, now, i) + db }

  ghost function SquaredError(h: seq<Velocity>, now: real, a: real, b: real): real {
    Sum(SquaredResiduals(h, now, a, b), |h|)
  }

  /** The line's residuals vanish in the sum and against the times. */
  ghost predicate Normal(h: seq<Velocity>, now: real, a: real, b: real) {
    && Sum(Speeds(h), |h|) == a * Sum(Times(h, now), |h|) + b * |h| as real
    && Sum(TimesSpeeds(h, now), |h|) == a * Sum(TimesSquared(h, now), |h|) + b * Sum(Times(h, now), |h|)
  }

  // ---- the normal equations are the least squares -----------------------------------------------

  lemma {:induction false} ResidualSum(h: seq<Velocity>, now: real, a: real, b: real, n: nat)
    ensures Sum(Residuals(h, now, a, b), n) == Sum(Speeds(h), n) - (a * Sum(Times(h, now), n) + b * n as real)
  {
    if n > 0 {
      ResidualSum(h, now, a, b, n - 1);
      assert n as real == (n - 1) as real + 1.0;
    }
  }

  lemma {:induction false} TimesResidualSum(h: seq<Velocity>, now: real, a: real, b: real, n: nat)
    ensures Sum(TimesResiduals(h, now, a, b), n)
         == Sum(TimesSpeeds(h, now), n) - (a * Sum(TimesSquared(h, now), n) + b * Sum(Times(h, now), n))
  {
    hide TimesResiduals, TimesSpeeds, TimesSquared, Times;
    if n > 0 {
      TimesResidualSum(h, now, a, b, n - 1);
      TimesResidual(h, now, a, b, n - 1);
      Distribute(a, b, Sum(TimesSquared(h, now), n - 1), TimesSquared(h, now)(n - 1), Sum(Times(h, now), n - 1),
          Times(h, now)(n - 1));
    }
  }

  lemma Distribute(a: real, b: real, p: real, q: real, r: real, s: real)
    ensures a * (p + q) + b * (r + s) == (a * p + b * r) + (a * q + b * s)
  {
  }

  lemma TimesResidual(h: seq<Velocity>, now: real, a: real, b: real, i: int)
    ensures TimesResiduals(h, now, a, b)(i)
            == TimesSpeeds(h, now)(i) - (a * TimesSquared(h, now)(i) + b * Times(h, now)(i))
  {
    hide TimeOf, SpeedOf;
    var t, v := TimeOf(h, now, i), SpeedOf(h, i);
    assert t * (v - (a * t + b)) == t * v - (a * (t * t) + b * t);
  }

  lemma ExcessTerm(h: seq<Velocity>, now: real, a: real, b: real, da: real, db: real, i: int)
    ensures SquaredResiduals(h, now, a + da, b + db)(i)
         == SquaredResiduals(h, now, a, b)(i) + SquaredGaps(h, now, da, db)(i)
          - 2.0 * (da * TimesResiduals(h, now, a, b)(i) + db * Residuals(h, now, a, b)(i))
  {
    var t, r := TimeOf(h, now, i), Residual(h, now, a, b, i);
    var d := da * t + db;
    assert Residual(h, now, a + da, b + db, i) == r - d;
    assert (r - d) * (r - d) == r * r + d * d - 2.0 * (d * r);
    assert d * r == da * (t * r) + db * r;
  }

  lemma {:induction false} ExcessSum(h: seq<Velocity>, now: real, a: real, b: real, da: real, db: real, n: nat)
    ensures Sum(SquaredResiduals(h, now, a + da, b + db), n)
         == Sum(SquaredResiduals(h, now, a, b), n) + Sum(SquaredGaps(h, now, da, db), n)
          - 2.0 * (da * Sum(TimesResiduals(h, now, a, b), n) + db * Sum(Residuals(h, now, a, b), n))
  {
    hide SquaredResiduals, SquaredGaps, TimesResiduals, Residuals;
    if n > 0 {
      ExcessSum(h, now, a, b, da, db, n - 1);
      ExcessTerm(h, now, a, b, da, db, n - 1);
    }
  }

  /** The extra error of another line is the squared distance between the lines at the entries. */
  lemma ExcessIs(h: seq<Velocity>, now: real, a: real, b: real, da: real, db: real)
    requires Normal(h, now, a, b)
    ensures SquaredError(h, now, a + da, b + db) == SquaredError(h, now, a, b) + Sum(SquaredGaps(h, now, da, db), |h|)
  {
    hide SquaredResiduals, SquaredGaps, TimesResiduals, Residuals, Times, Speeds, TimesSpeeds, TimesSquared;
    ResidualSum(h, now, a, b, |h|);
    TimesResidualSum(h, now, a, b, |h|);
    ExcessSum(h, now, a, b, da, db, |h|);
  }

  /** No line fits better. */
  lemma NormalIsLeast(h: seq<Velocity>, now: real, a: real, b: real, a': real, b': real)
    requires Normal(h, now, a, b)
    ensures SquaredError(h, now, a, b) <= SquaredError(h, now, a', b')
  {
    hide SquaredError, SquaredGaps, Normal;
    var da, db := a' - a, b' - b;
    ExcessIs(h, now, a, b, da, db);
    GapsNonNegative(h, now, da, db);
  }

  lemma GapsNonNegative(h: seq<Velocity>, now: real, da: real, db: real)
    ensures Sum(SquaredGaps(h, now, da, db), |h|) >= 0.0
  {
    forall i: int ensures SquaredGaps(h, now, da, db)(i) >= 0.0 {
      SquareNonNegative(Gap(h, now, da, db, i));
    }
    SumNonNegative(SquaredGaps(h, now, da, db), |h|);
  }

  // ---- the fit ----------------------------------------------------------------------------------

  /** The coefficients from the means and sums solve the normal equations. */
  lemma FitIsNormal(h: seq<Velocity>, now: real, meanT: real, meanV: real, sumTV: real, sumTT: real, a: real, b: real)
    requires |h| > 0
    requires |h| as real * meanT == Sum(Times(h, now), |h|) && |h| as real * meanV == Sum(Speeds(h), |h|)
    requires sumTV == Sum(TimesSpeeds(h, now), |h|) && sumTT == Sum(TimesSquared(h, now), |h|)
    requires a * (|h| as real * meanT * meanT - sumTT) == |h| as real * meanT * meanV - sumTV && b == meanV - a * meanT
    ensures Normal(h, now, a, b)
  {
    hide Times, Speeds, TimesSpeeds, TimesSquared;
    var n := |h| as real;
    assert a * (n * meanT) + b * n == n * meanV;
    assert a * sumTT + b * (n * meanT) == a * sumTT + (n * meanT * meanV - a * (n * meanT * meanT));
    assert a * (n * meanT * meanT - sumTT) == a * (n * meanT * meanT) - a * sumTT;
  }

  /** The spread of the times about their mean, with the code's sign: zero or less. */
  ghost function Spread(h: seq<Velocity>, now: real): real
    requires |h| > 0
  {
    Sum(Times(h, now), |h|) * Sum(Times(h, now), |h|) / |h| as real - Sum(TimesSquared(h, now), |h|)
  }

  lemma MeanProduct(n: real, p: real, q: real, x: real, y: real)
    requires n > 0.0 && n * p == x && n * q == y
    ensures n * p * q == x * y / n
  {
    assert (n * p * q) * n == x * y;
    Quotient(x * y, n, n * p * q);
  }

  /** Where the times spread at all, the least line is unique. */
  lemma NormalUnique(h: seq<Velocity>, now: real, a: real, b: real, a': real, b': real)
    requires |h| > 0 && Spread(h, now) != 0.0 && Normal(h, now, a, b) && Normal(h, now, a', b')
    ensures a == a' && b == b'
  {
    hide Times, Speeds, TimesSpeeds, TimesSquared, Normal;
    var n, t, tt := |h| as real, Sum(Times(h, now), |h|), Sum(TimesSquared(h, now), |h|);
    NormalGap(h, now, a, b, a', b', t, tt);
    Singular(n, t, tt, a - a', b - b');
  }

  lemma NormalGap(h: seq<Velocity>, now: real, a: real, b: real, a': real, b': real, t: real, tt: real)
    requires Normal(h, now, a, b) && Normal(h, now, a', b')
    requires t == Sum(Times(h, now), |h|) && tt == Sum(TimesSquared(h, now), |h|)
    ensures (a - a') * t + (b - b') * |h| as real == 0.0 && (a - a') * tt + (b - b') * t == 0.0
  {
  }

  lemma Singular(n: real, t: real, tt: real, da: real, db: real)
    requires n > 0.0 && t * t / n - tt != 0.0 && da * t + db * n == 0.0 && da * tt + db * t == 0.0
    ensures da == 0.0 && db == 0.0
  {
    var q := t * t / n;
    assert q * n == t * t;
    assert db * n * t == -(da * t * t) == -(da * q * n);
    assert (da * tt + db * t) * n == (da * (tt - q)) * n;
    assert da * (tt - q) == 0.0;
  }

  lemma SpreadIs(h: seq<Velocity>, now: real, meanT: real, sumTT: real)
    requires |h| > 0 && |h| as real * meanT == Sum(Times(h, now), |h|) && sumTT == Sum(TimesSquared(h, now), |h|)
    ensures |h| as real * meanT * meanT - sumTT == Spread(h, now)
  {
    MeanProduct(|h| as real, meanT, meanT, Sum(Times(h, now), |h|), Sum(Times(h, now), |h|));
  }

  /** The error of a line is the sum of the squared misses of its entries. */
  lemma ErrorExact(h: seq<Velocity>, now: real, a: real, b: real, misses: int -> real, squares: int -> real)
    requires forall i :: 0 <= i < |h| ==> h[i].v == a * (h[i].stamp - now) + b + misses(i)
    requires forall i :: 0 <= i < |h| ==> squares(i) == misses(i) * misses(i)
    ensures SquaredError(h, now, a, b) == Sum(squares, |h|)
  {
    forall i | 0 <= i < |h| ensures SquaredResiduals(h, now, a, b)(i) == squares(i) {
      assert Residual(h, now, a, b, i) == misses(i);
      assert SquaredResiduals(h, now, a, b)(i) == Square(misses(i));
    }
    SumEq(SquaredResiduals(h, now, a, b), squares, |h|);
  }

  lemma SpreadExact(h: seq<Velocity>, now: real, times: int -> real, squares: int -> real)
    requires |h| > 0
    requires forall i :: 0 <= i < |h| ==> times(i) == h[i].stamp - now && squares(i) == times(i) * times(i)
    ensures Spread(h, now) == Sum(times, |h|) * Sum(times, |h|) / |h| as real - Sum(squares, |h|)
  {
    SumEq(Times(h, now), times, |h|);
    forall i | 0 <= i < |h| ensures TimesSquared(h, now)(i) == squares(i) { assert TimeOf(h, now, i) == times(i); }
    SumEq(TimesSquared(h, now), squares, |h|);
  }

  /** The code's four running sums. */
  method RunningSums(h: seq<Velocity>, now: real) returns (meanT: real, meanV: real, sumTV: real, sumTT: real)
    requires |h| > 0
    ensures |h| as real * meanT == Sum(Times(h, now), |h|) && |h| as real * meanV == Sum(Speeds(h), |h|)
    ensures sumTV == Sum(TimesSpeeds(h, now), |h|) && sumTT == Sum(TimesSquared(h, now), |h|)
  {
    hide Times, Speeds, TimesSpeeds, TimesSquared;
    var size := |h| as real;
    meanT, meanV, sumTV, sumTT := 0.0, 0.0, 0.0, 0.0;
    for i := 0 to |h|
      invariant size * meanT == Sum(Times(h, now), i) && size * meanV == Sum(Speeds(h), i)
      invariant sumTV == Sum(TimesSpeeds(h, now), i) && sumTT == Sum(TimesSquared(h, now), i)
    {
      var t, v := h[i].stamp - now, h[i].v;
      Accumulate(h, now, i, size, meanT, meanV, t, v);
      meanT := meanT + t / size;
      meanV := meanV + v / size;
      sumTV := sumTV + t * v;
      sumTT := sumTT + t * t;
    }
  }

  class SmoothStop {
    var isSetParams: bool

    constructor ()
      ensures !isSetParams
    {
      isSetParams := false;
    }

    method SetParams()
      modifies this
      ensures isSetParams
    {
      isSetParams := true;
    }

    /**
     * When the fitted line reaches zero velocity after the clock reading `now`. The fit is least among all lines.
     */
    method CalcTimeToStop(h: seq<Velocity>, now: real) returns (r: Outcome, ghost a: real, ghost b: real)
      ensures r.NotSet? <==> !isSetParams
      ensures isSetParams && |h| > 0 && Abs(Spread(h, now)) >= EPSILON ==> Normal(h, now, a, b)
      ensures r.StopsIn? <==>
              isSetParams && |h| > 0 && Abs(Spread(h, now)) >= EPSILON && Abs(a) >= EPSILON && a * b < 0.0
      ensures r.StopsIn? ==> r.time > 0.0 && a * r.time + b == 0.0
    {
      hide Times, Speeds, TimesSpeeds, TimesSquared, Normal, TimeOf, SpeedOf, Spread;
      a, b := 0.0, 0.0;
      if !isSetParams { return NotSet, a, b; }
      if |h| == 0 { return NoTime, a, b; }
      var meanT, meanV, sumTV, sumTT := RunningSums(h, now);
      var size := |h| as real;
      var spread, coSpread := size * meanT * meanT - sumTT, size * meanT * meanV - sumTV;
      SpreadIs(h, now, meanT, sumTT);
      if Abs(spread) < EPSILON { return NoTime, a, b; }
      var slope := coSpread / spread;
      var offset := meanV - slope * meanT;
      a, b := slope, offset;
      assert slope * spread == coSpread;
      FitIsNormal(h, now, meanT, meanV, sumTV, sumTT, a, b);
      if Abs(slope) < EPSILON { return NoTime, a, b; }
      var timeToStop := -offset / slope;
      RootSign(slope, offset, timeToStop);
      if timeToStop > 0.0 { return StopsIn(timeToStop), a, b; }
      return NoTime, a, b;
    }
  }

  lemma RootSign(a: real, b: real, t: real)
    requires a != 0.0 && t == -b / a
    ensures a * t + b == 0.0 && (t > 0.0 <==> a * b < 0.0)
  {
    assert t * a == -b;
    assert a * b == -(t * (a * a));
    assert a * a > 0.0;
    if t > 0.0 { MulStrict(a * a, 0.0, t); }
    if t <= 0.0 { MulMono(a * a, t, 0.0); }
  }

  /** One more entry in each of the four running sums. */
  lemma Accumulate(h: seq<Velocity>, now: real, i: nat, size: real, meanT: real, meanV: real, t: real, v: real)
    requires i < |h| && size > 0.0 && t == h[i].stamp - now && v == h[i].v
    ensures size * (meanT + t / size) == size * meanT + t && size * (meanV + v / size) == size * meanV + v
    ensures Sum(Times(h, now), i + 1) == Sum(Times(h, now), i) + t && Sum(Speeds(h), i + 1) == Sum(Speeds(h), i) + v
    ensures Sum(TimesSpeeds(h, now), i + 1) == Sum(TimesSpeeds(h, now), i) + t * v
    ensures Sum(TimesSquared(h, now), i + 1) == Sum(TimesSquared(h, now), i) + t * t
  {
    var p, q := t / size, v / size;
    assert p * size == t && q * size == v;
  }
}
