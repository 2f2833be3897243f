/** The second-order Butterworth filter, sample by sample and over a whole signal. */
module LowpassFilter {
  import opened Reals

  const SQRT2 := 1.4142135623730951

  datatype Coefficients = Coefficients(a0: real, a1: real, a2: real, b0: real, b1: real, b2: real)

  /** The last two outputs and the last two inputs. */
  datatype State = State(y1: real, y2: real, u1: real, u2: real)

  const ZERO := State(0.0, 0.0, 0.0, 0.0)

  /** The bilinear transform of the filter with corner frequency wc, at n = 2 / dt. */
  function Butterworth(n: real, wc: real): Coefficients {
    Coefficients(n * n + SQRT2 * (wc * n) + wc * wc, 2.0 * (wc * wc) - 2.0 * (n * n),
        n * n - SQRT2 * (wc * n) + wc * wc, wc * wc, 2.0 * (wc * wc), wc * wc)
  }

  /** A filter that can be stepped and passes a constant unchanged. */
  predicate UnitGain(c: Coefficients) {
    c.a0 > 0.0 && c.b0 + c.b1 + c.b2 == c.a0 + c.a1 + c.a2
  }

  /** Jury's conditions: both poles of a0 z^2 + a1 z + a2 lie inside the unit circle. */
  predicate Stable(c: Coefficients) {
    c.a0 > 0.0 && Abs(c.a2) < c.a0 && Abs(c.a1) < c.a0 + c.a2
  }

  lemma ButterworthGains(n: real, wc: real)
    requires n > 0.0 && wc > 0.0
    ensures var c := Butterworth(n, wc); UnitGain(c) && Stable(c) && c.b0 - c.b1 + c.b2 == 0.0
  {
    MulStrict(n, 0.0, n);
    MulStrict(wc, 0.0, wc);
    MulStrict(wc, 0.0, n);
    GainsOf(n * n, wc * n, wc * wc, Butterworth(n, wc));
  }

  /** The gains depend on the three products alone. */
  lemma GainsOf(nn: real, wn: real, ww: real, c: Coefficients)
    requires nn > 0.0 && wn > 0.0 && ww > 0.0
    requires c == Coefficients(nn + SQRT2 * wn + ww, 2.0 * ww - 2.0 * nn, nn - SQRT2 * wn + ww, ww, 2.0 * ww, ww)
    ensures UnitGain(c) && Stable(c) && c.b0 - c.b1 + c.b2 == 0.0
  {
  }

  /** x + iy is a root of a0 z^2 + a1 z + a2: real and imaginary part vanish. */
  predicate Pole(c: Coefficients, x: real, y: real) {
    c.a0 * (Square(x) - Square(y)) + c.a1 * x + c.a2 == 0.0 && y * (2.0 * (c.a0 * x) + c.a1) == 0.0
  }

  /** Jury's conditions put both poles, real or complex, inside the unit circle. */
  lemma PolesInside(c: Coefficients, x: real, y: real)
    requires Stable(c) && Pole(c, x, y)
    ensures Square(x) + Square(y) < 1.0
  {
    if y == 0.0 {
      RealPole(c, x);
      SquareBelowOne(x);
    } else {
      ComplexPole(c, x, y);
    }
  }

  lemma SquareBelowOne(x: real)
    requires -1.0 < x < 1.0
    ensures Square(x) < 1.0
  {
    if x > 0.0 { MulStrict(x, x, 1.0); } else if x < 0.0 { MulStrict(-x, -x, 1.0); }
  }

  lemma ZeroFactor(y: real, k: real)
    requires y != 0.0 && y * k == 0.0
    ensures k == 0.0
  {
  }

  /** A pair of complex poles has the squared modulus a2 / a0. */
  lemma ComplexPole(c: Coefficients, x: real, y: real)
    requires Stable(c) && Pole(c, x, y) && y != 0.0
    ensures c.a0 * (Square(x) + Square(y)) == c.a2 && Square(x) + Square(y) < 1.0
  {
    ZeroFactor(y, 2.0 * (c.a0 * x) + c.a1);
    Modulus(c.a0, c.a1, c.a2, x, Square(x), Square(y));
    ModulusBelowOne(c.a0, c.a2, Square(x) + Square(y));
  }

  lemma Modulus(a0: real, a1: real, a2: real, x: real, xx: real, yy: real)
    requires xx == x * x && 2.0 * (a0 * x) + a1 == 0.0 && a0 * (xx - yy) + a1 * x + a2 == 0.0
    ensures a0 * (xx + yy) == a2
  {
    assert a1 * x == -2.0 * (a0 * x * x) && a0 * x * x == a0 * xx;
  }

  lemma ModulusBelowOne(a0: real, a2: real, m: real)
    requires a0 > 0.0 && a2 < a0 && a0 * m == a2
    ensures m < 1.0
  {
    if m >= 1.0 { MulMono(a0, 1.0, m); }
  }

  lemma RealPole(c: Coefficients, x: real)
    requires Stable(c) && c.a0 * Square(x) + c.a1 * x + c.a2 == 0.0
    ensures -1.0 < x < 1.0
  {
    RealPoleBelow(c, x, x * x, c.a1 * x);
    assert (-c.a1) * (-x) == c.a1 * x && (-x) * (-x) == x * x;
    RealPoleBelow(c.(a1 := -c.a1), -x, x * x, c.a1 * x);
  }

  /** At 1 and beyond the polynomial is positive. */
  lemma RealPoleBelow(c: Coefficients, x: real, xx: real, bx: real)
    requires Stable(c) && xx == x * x && bx == c.a1 * x && c.a0 * xx + bx + c.a2 == 0.0
    ensures x < 1.0
  {
    if x >= 1.0 {
      MulStrict(x, -(c.a0 + c.a2), c.a1);
      MulMono(c.a0, 1.0, x);
      MulMono(x - 1.0, 0.0, c.a0 * x - c.a2);
      Factored(c.a0, c.a2, x);
    }
  }

  lemma Factored(a0: real, a2: real, x: real)
    ensures (x - 1.0) * (a0 * x - a2) == a0 * (x * x) + x * (-(a0 + a2)) + a2
  {
  }

  /** So do the coefficients of every positive period and cutoff. */
  lemma ButterworthPoles(n: real, wc: real, x: real, y: real)
    requires n > 0.0 && wc > 0.0 && Pole(Butterworth(n, wc), x, y)
    ensures Square(x) + Square(y) < 1.0
  {
    ButterworthGains(n, wc);
    PolesInside(Butterworth(n, wc), x, y);
  }

  /** The polynomials of the transfer function: s = n (z - 1) / (z + 1) put into wc^2 / (s^2 + sqrt(2) wc s + wc^2). */
  lemma BilinearExact(n: real, wc: real, z: real)
    ensures var c := Butterworth(n, wc);
      && c.a0 * (z * z) + c.a1 * z + c.a2 == (n * n) * ((z - 1.0) * (z - 1.0))
         + 1.4142135623730951 * (wc * n) * ((z - 1.0) * (z + 1.0)) + (wc * wc) * ((z + 1.0) * (z + 1.0))
      && c.b0 * (z * z) + c.b1 * z + c.b2 == (wc * wc) * ((z + 1.0) * (z + 1.0))
  {
    Expands(n * n, wc * n, wc * wc, z);
  }

  lemma Expands(nn: real, wn: real, ww: real, z: real)
    ensures (nn + SQRT2 * wn + ww) * (z * z) + (2.0 * ww - 2.0 * nn) * z + (nn - SQRT2 * wn + ww)
            == nn * ((z - 1.0) * (z - 1.0)) + SQRT2 * wn * ((z - 1.0) * (z + 1.0)) + ww * ((z + 1.0) * (z + 1.0))
    ensures ww * (z * z) + (2.0 * ww) * z + ww == ww * ((z + 1.0) * (z + 1.0))
  {
    assert (z - 1.0) * (z - 1.0) == z * z - 2.0 * z + 1.0;
    assert (z + 1.0) * (z + 1.0) == z * z + 2.0 * z + 1.0;
    assert (z - 1.0) * (z + 1.0) == z * z - 1.0;
  }

  /** z = x + iy is at the cutoff frequency: n (z - 1) = i wc (z + 1), by real and imaginary part. */
  predicate AtCutoff(n: real, wc: real, x: real, y: real) {
    n * (x - 1.0) == -(wc * y) && n * y == wc * (x + 1.0)
  }

  function Times(x: real, y: real): real { x * y }

  /** The real and imaginary parts of (x + iy)^2, and of (x + iy)(v + iw). */
  function SquareRe(x: real, y: real): real { x * x - y * y }

  function SquareIm(x: real, y: real): real { 2.0 * (x * y) }

  function ProductRe(x: real, y: real, v: real, w: real): real { x * v - y * w }

  function ProductIm(x: real, y: real, v: real, w: real): real { x * w + y * v }

  /**
   * At the cutoff frequency the denominator is sqrt(2) i times the numerator: the gain is 1 / sqrt(2) and the output
   * lags by a quarter turn.
   */
  lemma CutoffGain(n: real, wc: real, c: Coefficients, x: real, y: real, re: real, im: real)
    requires c == Butterworth(n, wc) && AtCutoff(n, wc, x, y) && re == SquareRe(x, y) && im == SquareIm(x, y)
    ensures c.a0 * re + c.a1 * x + c.a2 == -1.4142135623730951 * (c.b0 * im + c.b1 * y)
    ensures c.a0 * im + c.a1 * y == 1.4142135623730951 * (c.b0 * re + c.b1 * x + c.b2)
  {
    hide Butterworth, AtCutoff, SquareRe, SquareIm, ProductRe, ProductIm, Times;
    ButterworthIs(n, wc);
    CutoffSquares(n, wc, x, y);
    CutoffOf(Times(n, n), Times(wc, n), Times(wc, wc), x, y, re, im, c);
  }

  lemma ButterworthIs(n: real, wc: real)
    ensures var nn, wn, ww := Times(n, n), Times(wc, n), Times(wc, wc);
      Butterworth(n, wc) == Coefficients(nn + SQRT2 * wn + ww, 2.0 * ww - 2.0 * nn, nn - SQRT2 * wn + ww, ww,
                                         2.0 * ww, ww)
  {
  }

  lemma Scaled(n: real, w: real, a: real, b: real)
    ensures (n * a) * (w * b) == Times(w, n) * (a * b)
  {
  }

  lemma SquareBelow(n: real, x: real, y: real)
    ensures SquareRe(n * (x - 1.0), n * y) == Times(n, n) * (SquareRe(x, y) - 2.0 * x + 1.0)
    ensures SquareIm(n * (x - 1.0), n * y) == Times(n, n) * (SquareIm(x, y) - 2.0 * y)
  {
    hide Times;
    Scaled(n, n, x - 1.0, x - 1.0);
    Scaled(n, n, y, y);
    Scaled(n, n, x - 1.0, y);
    assert (x - 1.0) * (x - 1.0) == x * x - 2.0 * x + 1.0 && (x - 1.0) * y == x * y - y;
  }

  lemma SquareAbove(w: real, x: real, y: real)
    ensures SquareRe(w * (x + 1.0), w * y) == Times(w, w) * (SquareRe(x, y) + 2.0 * x + 1.0)
    ensures SquareIm(w * (x + 1.0), w * y) == Times(w, w) * (SquareIm(x, y) + 2.0 * y)
  {
    hide Times;
    Scaled(w, w, x + 1.0, x + 1.0);
    Scaled(w, w, y, y);
    Scaled(w, w, x + 1.0, y);
    assert (x + 1.0) * (x + 1.0) == x * x + 2.0 * x + 1.0 && (x + 1.0) * y == x * y + y;
  }

  lemma ProductAcross(n: real, w: real, x: real, y: real)
    ensures ProductRe(n * (x - 1.0), n * y, w * (x + 1.0), w * y) == Times(w, n) * (SquareRe(x, y) - 1.0)
    ensures ProductIm(n * (x - 1.0), n * y, w * (x + 1.0), w * y) == Times(w, n) * SquareIm(x, y)
  {
    ProductAcrossRe(n, w, x, y, x - 1.0, x + 1.0);
    ProductAcrossIm(n, w, x, y, x - 1.0, x + 1.0);
  }

  lemma ProductAcrossRe(n: real, w: real, x: real, y: real, below: real, above: real)
    requires below == x - 1.0 && above == x + 1.0
    ensures ProductRe(n * below, n * y, w * above, w * y) == Times(w, n) * (SquareRe(x, y) - 1.0)
  {
    hide Times;
    Scaled(n, w, below, above);
    Scaled(n, w, y, y);
    assert below * above - y * y == SquareRe(x, y) - 1.0;
  }

  lemma ProductAcrossIm(n: real, w: real, x: real, y: real, below: real, above: real)
    requires below == x - 1.0 && above == x + 1.0
    ensures ProductIm(n * below, n * y, w * above, w * y) == Times(w, n) * SquareIm(x, y)
  {
    hide Times;
    Scaled(n, w, below, y);
    Scaled(n, w, y, above);
    assert below * y + y * above == SquareIm(x, y);
  }

  /** Of i (s + ir). */
  lemma QuarterTurn(s: real, r: real)
    ensures SquareRe(-r, s) == -SquareRe(s, r) && SquareIm(-r, s) == -SquareIm(s, r)
    ensures ProductRe(-r, s, s, r) == -SquareIm(s, r) && ProductIm(-r, s, s, r) == SquareRe(s, r)
  {
  }

  lemma CutoffSquares(n: real, wc: real, x: real, y: real)
    requires AtCutoff(n, wc, x, y)
    ensures var nn, wn, ww, re, im := Times(n, n), Times(wc, n), Times(wc, wc), SquareRe(x, y), SquareIm(x, y);
      && nn * (re - 2.0 * x + 1.0) == -(ww * (re + 2.0 * x + 1.0)) && nn * (im - 2.0 * y) == -(ww * (im + 2.0 * y))
      && wn * (re - 1.0) == -(ww * (im + 2.0 * y)) && wn * im == ww * (re + 2.0 * x + 1.0)
  {
    hide SquareRe, SquareIm, ProductRe, ProductIm, Times;
    SquareBelow(n, x, y);
    SquareAbove(wc, x, y);
    ProductAcross(n, wc, x, y);
    QuarterTurn(wc * (x + 1.0), wc * y);
  }

  lemma CutoffOf(nn: real, wn: real, ww: real, x: real, y: real, re: real, im: real, c: Coefficients)
    requires c == Coefficients(nn + SQRT2 * wn + ww, 2.0 * ww - 2.0 * nn, nn - SQRT2 * wn + ww, ww, 2.0 * ww, ww)
    requires nn * (re - 2.0 * x + 1.0) == -(ww * (re + 2.0 * x + 1.0))
    requires nn * (im - 2.0 * y) == -(ww * (im + 2.0 * y))
    requires wn * (re - 1.0) == -(ww * (im + 2.0 * y)) && wn * im == ww * (re + 2.0 * x + 1.0)
    ensures c.a0 * re + c.a1 * x + c.a2 == -SQRT2 * (c.b0 * im + c.b1 * y)
    ensures c.a0 * im + c.a1 * y == SQRT2 * (c.b0 * re + c.b1 * x + c.b2)
  {
    assert c.a0 * re + c.a1 * x + c.a2
      == nn * (re - 2.0 * x + 1.0) + SQRT2 * (wn * (re - 1.0)) + ww * (re + 2.0 * x + 1.0);
    assert c.a0 * im + c.a1 * y == nn * (im - 2.0 * y) + SQRT2 * (wn * im) + ww * (im + 2.0 * y);
  }

  /** What the output is a quotient of. */
  function Numerator(c: Coefficients, s: State, u0: real): real {
    c.b2 * s.u2 + c.b1 * s.u1 + c.b0 * u0 - c.a2 * s.y2 - c.a1 * s.y1
  }

  function Output(c: Coefficients, s: State, u0: real): real
    requires c.a0 != 0.0
  {
    Numerator(c, s, u0) / c.a0
  }

  function Advance(c: Coefficients, s: State, u0: real): State
    requires c.a0 != 0.0
  {
    State(Output(c, s, u0), s.y1, u0, s.u1)
  }

  /** The state after the first i inputs. */
  function StateAfter(c: Coefficients, s: State, inputs: seq<real>, i: nat): State
    requires c.a0 != 0.0 && i <= |inputs|
  {
    if i == 0 then s else Advance(c, StateAfter(c, s, inputs, i - 1), inputs[i - 1])
  }

  /** The i-th output of the filter fed `inputs` from the state s. */
  function Streamed(c: Coefficients, s: State, inputs: seq<real>, i: nat): real
    requires c.a0 != 0.0 && i < |inputs|
  {
    Output(c, StateAfter(c, s, inputs, i), inputs[i])
  }

  /** The difference equation of one step, and the shift of the delay variables. */
  lemma StepExact(c: Coefficients, s: State, u0: real)
    requires c.a0 != 0.0
    ensures var y0 := Output(c, s, u0);
      && c.a0 * y0 + c.a1 * s.y1 + c.a2 * s.y2 == c.b0 * u0 + c.b1 * s.u1 + c.b2 * s.u2
      && Advance(c, s, u0) == State(y0, s.y1, u0, s.u1)
  {
    var y0 := Output(c, s, u0);
    assert y0 * c.a0 == Numerator(c, s, u0);
  }

  function Relative(t: seq<real>): (r: seq<real>)
    requires |t| > 0
    ensures |r| == |t|
  {
    seq(|t|, i requires 0 <= i < |t| => t[i] - t[0])
  }

  function Lift(s: State, offset: real): State {
    State(s.y1 + offset, s.y2 + offset, s.u1 + offset, s.u2 + offset)
  }

  // ---- batch and streaming agree up to an offset ------------------------------------------------

  lemma Lifted(b: real, u: real, offset: real)
    ensures b * (u + offset) == b * u + b * offset
  {
  }

  lemma NumeratorLifted(c: Coefficients, s: State, u0: real, offset: real)
    ensures Numerator(c, Lift(s, offset), u0 + offset)
         == Numerator(c, s, u0) + (c.b2 * offset + c.b1 * offset + c.b0 * offset - c.a2 * offset - c.a1 * offset)
  {
    Lifted(c.b2, s.u2, offset);
    Lifted(c.b1, s.u1, offset);
    Lifted(c.b0, u0, offset);
    Lifted(c.a2, s.y2, offset);
    Lifted(c.a1, s.y1, offset);
  }

  lemma GainTimes(c: Coefficients, offset: real)
    requires UnitGain(c)
    ensures c.b2 * offset + c.b1 * offset + c.b0 * offset - c.a2 * offset - c.a1 * offset == c.a0 * offset
  {
    var a0, a1, a2, b0, b1, b2 := c.a0, c.a1, c.a2, c.b0, c.b1, c.b2;
    assert a0 == b2 + b1 + b0 - a2 - a1;
    assert b2 * offset + b1 * offset + b0 * offset - a2 * offset - a1 * offset == (b2 + b1 + b0 - a2 - a1) * offset;
  }

  lemma QuotientPlus(n: real, d: real, x: real)
    requires d != 0.0
    ensures (n + d * x) / d == n / d + x
  {
    var q := n / d;
    assert q * d == n;
    Quotient(n + d * x, d, q + x);
  }

  /** A filter of unit gain carries an offset through. */
  lemma OutputLifted(c: Coefficients, s: State, u0: real, offset: real)
    requires UnitGain(c)
    ensures Output(c, Lift(s, offset), u0 + offset) == Output(c, s, u0) + offset
  {
    hide Numerator;
    NumeratorLifted(c, s, u0, offset);
    GainTimes(c, offset);
    QuotientPlus(Numerator(c, s, u0), c.a0, offset);
  }

  lemma {:induction false} StatesLifted(c: Coefficients, t: seq<real>, i: nat)
    requires UnitGain(c) && |t| > 0 && i <= |t|
    ensures StateAfter(c, Lift(ZERO, t[0]), t, i) == Lift(StateAfter(c, ZERO, Relative(t), i), t[0])
  {
    if i > 0 {
      StatesLifted(c, t, i - 1);
      OutputLifted(c, StateAfter(c, ZERO, Relative(t), i - 1), Relative(t)[i - 1], t[0]);
    }
  }

  /** A signal that never moves leaves the filter at rest. */
  lemma {:induction false} RestStays(c: Coefficients, inputs: seq<real>, i: nat)
    requires c.a0 != 0.0 && i <= |inputs| && forall k :: 0 <= k < |inputs| ==> inputs[k] == 0.0
    ensures StateAfter(c, ZERO, inputs, i) == ZERO
  {
    if i > 0 { RestStays(c, inputs, i - 1); }
  }

  class Butterworth2dFilter {
    var coefficients: Coefficients
    var state: State

    ghost predicate Valid()
      reads this
    {
      UnitGain(coefficients) && Stable(coefficients)
    }

    constructor (dt: real, cutoffHz: real)
      requires dt > 0.0 && cutoffHz > 0.0
      ensures Valid() && state == ZERO
    {
      coefficients := Butterworth(2.0 / dt, 2.0 * PI * cutoffHz);
      state := ZERO;
      new;
      Initialize(dt, cutoffHz);
    }

    /** Clears the state and computes the coefficients. */
    method Initialize(dt: real, cutoffHz: real)
      requires dt > 0.0 && cutoffHz > 0.0
      modifies this
      ensures Valid() && state == ZERO
      ensures coefficients == Butterworth(2.0 / dt, 2.0 * PI * cutoffHz)
    {
      var wc := 2.0 * PI * cutoffHz;
      var n := 2.0 / dt;
      PositiveRate(dt);
      ButterworthGains(n, wc);
      state := ZERO;
      coefficients := Butterworth(n, wc);
    }

    /** One sample. */
    method Filter(u0: real) returns (y0: real)
      requires Valid()
      modifies this`state
      ensures y0 == Output(coefficients, old(state), u0) && state == Advance(coefficients, old(state), u0)
    {
      hide Output;
      var c := coefficients;
      y0 := Output(c, state, u0);
      state := state.(y2 := state.y1);
      state := state.(y1 := y0);
      state := state.(u2 := state.u1);
      state := state.(u1 := u0);
    }

    /**
     * A whole signal at once, from a state as if the signal had always been at its first value; an empty signal
     * is refused. Sample i is the first value plus what the streaming filter makes of the deviations from it.
     */
    method FiltVector(t: seq<real>) returns (ok: bool, u: array<real>)
      requires Valid()
      ensures fresh(u) && (ok <==> |t| > 0)
      ensures ok ==> u.Length == |t| && forall i :: 0 <= i < |t| ==>
        u[i] == t[0] + Streamed(coefficients, ZERO, Relative(t), i)
    {
      hide Output, Stable, UnitGain;
      u := new real[|t|](i => 0.0);
      if |t| == 0 { return false, u; }
      assert coefficients.a0 > 0.0 by { GainPositive(coefficients); }
      var c := coefficients;
      ghost var start := Lift(ZERO, t[0]);
      var y1, y2, u2, u1 := t[0], t[0], t[0], t[0];
      for i := 0 to |t|
        invariant State(y1, y2, u1, u2) == StateAfter(c, start, t, i)
        invariant forall k :: 0 <= k < i ==> u[k] == t[0] + Streamed(c, ZERO, Relative(t), k)
        modifies u
      {
        var u0 := t[i];
        var y0 := Output(c, State(y1, y2, u1, u2), u0);
        SampleLifted(c, t, i);
        y2 := y1;
        y1 := y0;
        u2 := u1;
        u1 := u0;
        u[i] := y0;
      }
      ok := true;
    }
  }

  lemma PositiveRate(dt: real)
    requires dt > 0.0
    ensures 2.0 / dt > 0.0
  {
  }

  lemma GainPositive(c: Coefficients)
    requires UnitGain(c)
    ensures c.a0 > 0.0
  {
  }

  /** The batch filter's i-th output is the streaming one's, lifted by the first value. */
  lemma SampleLifted(c: Coefficients, t: seq<real>, i: nat)
    requires UnitGain(c) && i < |t|
    ensures Output(c, StateAfter(c, Lift(ZERO, t[0]), t, i), t[i]) == t[0] + Streamed(c, ZERO, Relative(t), i)
  {
    hide Output;
    StatesLifted(c, t, i);
    OutputLifted(c, StateAfter(c, ZERO, Relative(t), i), Relative(t)[i], t[0]);
  }

  /** A constant signal passes unchanged at every length. */
  lemma ConstantPasses(c: Coefficients, t: seq<real>, i: nat)
    requires UnitGain(c) && i < |t| && forall k :: 0 <= k < |t| ==> t[k] == t[0]
    ensures t[0] + Streamed(c, ZERO, Relative(t), i) == t[i]
  {
    RestStays(c, Relative(t), i);
    Quotient(0.0, c.a0, 0.0);
  }
}
