/** The Newton root finder (Iterate.cc): one step `root_iterate` and the
    budgeted loop `root`. */
module Iterate {
  import opened Machine
  import opened ComplexNumbers

  /** A guess of the root finder. Under IEEE-754 a zero Newton denominator
      turns the next guess into NaN components, and NaN then survives every
      later step and never compares `equal`; `NotFinite` stands for such a
      value. */
  datatype Estimate = Finite(z: Complex) | NotFinite

  // ---------------------------------------------------------------------
  // The two weighted sums of `root_iterate`, with degree d = |cs| - 1.

  /** Numerator term x: guess^(d-x) * c_x * (d-x-1). */
  function NumerTerm(cs: seq<Complex>, g: Complex, x: nat): Complex
    requires x < |cs|
  {
    var d := |cs| - 1;
    Scale(Mul(Power(g, d - x), cs[x]), (d - x - 1) as real)
  }

  /** Denominator term x: guess^(d-x-1) * c_x * (d-x). At x = d the power
      read is `guess_powers[-1]`, but its weight d-x is 0, so the term is
      zero whatever that read yields (see `StrayTermVanishes`). */
  function DenomTerm(cs: seq<Complex>, g: Complex, x: nat): Complex
    requires x < |cs|
  {
    var d := |cs| - 1;
    if x < d then Scale(Mul(Power(g, d - x - 1), cs[x]), (d - x) as real) else Zero
  }

  /** The numerator accumulated over the first n coefficients, left to right. */
  function NumerSum(cs: seq<Complex>, g: Complex, n: nat): Complex
    requires n <= |cs|
  {
    if n == 0 then Zero else Add(NumerSum(cs, g, n - 1), NumerTerm(cs, g, n - 1))
  }

  /** The denominator accumulated over the first n coefficients, left to right. */
  function DenomSum(cs: seq<Complex>, g: Complex, n: nat): Complex
    requires n <= |cs|
  {
    if n == 0 then Zero else Add(DenomSum(cs, g, n - 1), DenomTerm(cs, g, n - 1))
  }

  /** One Newton step as `root_iterate` computes it: numer / denom. A NaN
      guess stays NaN, and so does the quotient by a zero denominator. */
  function NewtonStep(cs: seq<Complex>, e: Estimate): Estimate
    requires |cs| >= 1
  {
    match e
    case NotFinite => NotFinite
    case Finite(g) =>
      var denom := DenomSum(cs, g, |cs|);
      if denom == Zero then NotFinite else Finite(Div(NumerSum(cs, g, |cs|), denom))
  }

  // ---------------------------------------------------------------------
  // Reference definitions: the polynomial with coefficients listed from the
  // highest power down, and its formal derivative.

  /** c_x * g^(d-x), term x of the polynomial. */
  function PolyTerm(cs: seq<Complex>, g: Complex, x: nat): Complex
    requires x < |cs|
  {
    Mul(Power(g, |cs| - 1 - x), cs[x])
  }

  /** The sum of the first n polynomial terms. */
  function PolySum(cs: seq<Complex>, g: Complex, n: nat): Complex
    requires n <= |cs|
  {
    if n == 0 then Zero else Add(PolySum(cs, g, n - 1), PolyTerm(cs, g, n - 1))
  }

  /** The polynomial c_0 g^d + c_1 g^(d-1) + ... + c_d. */
  function Polynomial(cs: seq<Complex>, g: Complex): Complex
  {
    PolySum(cs, g, |cs|)
  }

  /** The coefficients of the derivative: c_x * (d-x) for x < d. */
  function Derivative(cs: seq<Complex>): (ds: seq<Complex>)
    ensures |ds| == if |cs| == 0 then 0 else |cs| - 1
    ensures forall x :: 0 <= x < |ds| ==> ds[x] == Scale(cs[x], (|cs| - 1 - x) as real)
  {
    if |cs| == 0 then [] else seq(|cs| - 1, x requires 0 <= x < |cs| - 1 => Scale(cs[x], (|cs| - 1 - x) as real))
  }

  /** The weight-0 term at x = d is zero whatever value stands in for the
      out-of-range power. */
  lemma StrayTermVanishes(w: Complex, c: Complex)
    ensures Scale(Mul(w, c), 0.0) == Zero
  {
  }

  /** Denominator term x is term x of the derivative polynomial. */
  lemma DenomTermIsDerivative(cs: seq<Complex>, g: Complex, x: nat)
    requires x < |cs| - 1
    ensures DenomTerm(cs, g, x) == PolyTerm(Derivative(cs), g, x)
  {
    var d := |cs| - 1;
    MulScale(Power(g, d - x - 1), cs[x], (d - x) as real);
  }

  /** The denominator of `root_iterate` is the derivative P'(g). */
  lemma {:induction false} DenomIsDerivative(cs: seq<Complex>, g: Complex, n: nat)
    requires 1 <= |cs| && n <= |cs| - 1
    ensures DenomSum(cs, g, n) == PolySum(Derivative(cs), g, n)
  {
    if n > 0 {
      DenomIsDerivative(cs, g, n - 1);
      DenomTermIsDerivative(cs, g, n - 1);
    }
  }

  /** The denominator of `root_iterate` is the derivative P'(g); the last
      term adds nothing. */
  lemma DenomIsDerivativeValue(cs: seq<Complex>, g: Complex)
    requires 1 <= |cs|
    ensures DenomSum(cs, g, |cs|) == Polynomial(Derivative(cs), g)
  {
    DenomIsDerivative(cs, g, |cs| - 1);
    assert DenomSum(cs, g, |cs|) == Add(DenomSum(cs, g, |cs| - 1), Zero);
  }

  /** Numerator term x is g times denominator term x minus polynomial term x. */
  lemma NumerTermIsNewton(cs: seq<Complex>, g: Complex, x: nat)
    requires x < |cs|
    ensures NumerTerm(cs, g, x) == Sub(Mul(g, DenomTerm(cs, g, x)), PolyTerm(cs, g, x))
  {
    var d := |cs| - 1;
    if x < d {
      var k := d - x;
      var p := Power(g, k - 1);
      PowerSucc(g, k - 1);
      MulScale(g, Mul(p, cs[x]), k as real);
      MulAssociative(g, p, cs[x]);
      var w := Mul(Power(g, k), cs[x]);
      assert Mul(g, DenomTerm(cs, g, x)) == Scale(w, k as real);
      assert Sub(Scale(w, k as real), w) == Scale(w, (k - 1) as real);
    } else {
      MulCommutesAndUnit(cs[x], One);
    }
  }

  /** The numerator of `root_iterate` is g * P'(g) - P(g). */
  lemma {:induction false} NumerIsNewton(cs: seq<Complex>, g: Complex, n: nat)
    requires n <= |cs|
    ensures NumerSum(cs, g, n) == Sub(Mul(g, DenomSum(cs, g, n)), PolySum(cs, g, n))
  {
    if n > 0 {
      NumerIsNewton(cs, g, n - 1);
      NumerTermIsNewton(cs, g, n - 1);
      MulDistributes(g, DenomSum(cs, g, n - 1), DenomTerm(cs, g, n - 1));
    }
  }

  /** `root_iterate` is the Newton step g - P(g)/P'(g), and it yields NaN
      exactly when P'(g) is zero. */
  lemma NewtonStepIsNewton(cs: seq<Complex>, g: Complex)
    requires |cs| >= 1
    ensures var dp := Polynomial(Derivative(cs), g);
      NewtonStep(cs, Finite(g)) ==
        if dp == Zero then NotFinite else Finite(Sub(g, Div(Polynomial(cs, g), dp)))
  {
    var dp := Polynomial(Derivative(cs), g);
    DenomIsDerivativeValue(cs, g);
    NumerIsNewton(cs, g, |cs|);
    if dp != Zero {
      DivLinear(Mul(g, dp), Polynomial(cs, g), dp);
      DivMulCancel(g, dp);
    }
  }

  /** Where P'(g) is not zero, g is a fixed point of the step exactly when
      it is a root of the polynomial. */
  lemma FixedPointIffRoot(cs: seq<Complex>, g: Complex)
    requires |cs| >= 1
    requires Polynomial(Derivative(cs), g) != Zero
    ensures NewtonStep(cs, Finite(g)) == Finite(g) <==> Polynomial(cs, g) == Zero
  {
    var dp := Polynomial(Derivative(cs), g);
    NewtonStepIsNewton(cs, g);
    DivZeroIff(Polynomial(cs, g), dp);
    SubZeroIff(g, Sub(g, Div(Polynomial(cs, g), dp)));
  }

  /** `root_iterate`: fills the power table guess^0 .. guess^d by repeated
      multiplication, then accumulates numer and denom in one pass. */
  method RootIterate(cs: seq<Complex>, guess: Estimate) returns (r: Estimate)
    requires |cs| >= 1
    ensures r == NewtonStep(cs, guess)
  {
    if guess.NotFinite? {
      return NotFinite;
    }
    var powers := PowerTable(guess.z, |cs|);
    var numer, denom := NewtonSums(cs, guess.z, powers);
    if denom == Zero {
      r := NotFinite;
    } else {
      r := Finite(Div(numer, denom));
    }
  }

  /** The first loop of `root_iterate`: `guess_powers[x] = guess^x` for
      x < n, each power the previous one times the guess. */
  method PowerTable(g: Complex, n: nat) returns (powers: array<Complex>)
    requires n >= 1
    ensures fresh(powers) && powers.Length == n
    ensures forall k :: 0 <= k < n ==> powers[k] == Power(g, k)
  {
    powers := new Complex[n];
    powers[0] := One;
    var x := 1;
    while x < n
      invariant 1 <= x <= n
      invariant forall k :: 0 <= k < x ==> powers[k] == Power(g, k)
    {
      powers[x] := Mul(powers[x - 1], g);
      x := x + 1;
    }
  }

  /** The second loop of `root_iterate`: numer and denom accumulated over
      the coefficients from the power table. */
  method NewtonSums(cs: seq<Complex>, g: Complex, powers: array<Complex>) returns (numer: Complex, denom: Complex)
    requires |cs| >= 1 && powers.Length == |cs|
    requires forall k :: 0 <= k < |cs| ==> powers[k] == Power(g, k)
    ensures numer == NumerSum(cs, g, |cs|) && denom == DenomSum(cs, g, |cs|)
  {
    var n := |cs|;
    var degree := n - 1;
    numer, denom := Zero, Zero;
    var i := 0;
    while i < n
      invariant 0 <= i <= n
      invariant numer == NumerSum(cs, g, i)
      invariant denom == DenomSum(cs, g, i)
    {
      numer := Add(numer, Scale(Mul(powers[degree - i], cs[i]), (degree - i - 1) as real));
      // At i = degree the source reads guess_powers[-1]; any value will do.
      var below: Complex :| i < degree ==> below == powers[degree - i - 1];
      StrayTermVanishes(below, cs[i]);
      denom := Add(denom, Scale(Mul(below, cs[i]), (degree - i) as real));
      i := i + 1;
    }
  }

  // ---------------------------------------------------------------------
  // The budgeted loop `root`.

  /** The do/while stops once the last input and output are `equal`. A NaN
      value is never `equal` to anything. */
  predicate Converged(last: Estimate, cur: Estimate, precision: real)
  {
    last.Finite? && cur.Finite? && Equal(last.z, cur.z, precision)
  }

  /** The number of steps the budget `*max` allows: a budget of 0 wraps to
      2^64 - 1 on the first decrement, which leaves 2^64 steps in all. */
  function Budget(max: Size): (left: nat)
    ensures 1 <= left <= SIZE_LIMIT
    ensures left < SIZE_LIMIT ==> left == max
    ensures left == SIZE_LIMIT <==> max == 0
  {
    if max == 0 then SIZE_LIMIT else max
  }

  /** The map `root` iterates: one `root_iterate` step for the polynomial
      with coefficients cs. The budgeted loop below is stated for any step
      map, so that its properties do not depend on the arithmetic. */
  function NewtonMap(cs: seq<Complex>): Estimate -> Estimate
    requires |cs| >= 1
  {
    e => NewtonStep(cs, e)
  }

  /** The estimate after k steps of `step` from e. */
  function Iterates(step: Estimate -> Estimate, e: Estimate, k: nat): Estimate
    decreases k
  {
    if k == 0 then e else Iterates(step, step(e), k - 1)
  }

  /** The do/while from estimate e with `left` steps allowed: the final
      estimate and the number of steps still allowed. */
  function Run(step: Estimate -> Estimate, e: Estimate, precision: real, left: nat): (r: (Estimate, nat))
    requires left >= 1
    ensures r.1 < left
    ensures r.1 != 0 ==> r.0.Finite?
    decreases left
  {
    var next := step(e);
    if Converged(e, next, precision) || left == 1 then (next, left - 1)
    else Run(step, next, precision, left - 1)
  }

  /** The budgeted loop of `root` over any step map: the final estimate
      when budget remains, the zero sentinel otherwise, and what is left
      in `*max`. */
  function Budgeted(step: Estimate -> Estimate, guess: Complex, precision: real, max: Size): (Complex, Size)
  {
    var (e, rest) := Run(step, Finite(guess), precision, Budget(max));
    (if rest != 0 then e.z else Zero, rest)
  }

  /** What `root` returns and leaves in `*max`. */
  function RootResult(cs: seq<Complex>, guess: Complex, precision: real, max: Size): (Complex, Size)
    requires |cs| >= 1
  {
    Budgeted(NewtonMap(cs), guess, precision, max)
  }

  /** The loop stops at the first step whose input and output are `equal`,
      or when the steps allowed run out, whichever comes first. */
  lemma {:induction false} RunStopsAtFirstConvergence(step: Estimate -> Estimate, e: Estimate, precision: real, left: nat)
    requires left >= 1
    ensures var (r, rest) := Run(step, e, precision, left);
      var steps := left - rest;
      && 1 <= steps <= left
      && r == Iterates(step, e, steps)
      && (forall k :: 1 <= k < steps ==> !Converged(Iterates(step, e, k - 1), Iterates(step, e, k), precision))
      && (rest != 0 ==> Converged(Iterates(step, e, steps - 1), r, precision))
    decreases left
  {
    var next := step(e);
    if Converged(e, next, precision) || left == 1 {
      assert Iterates(step, e, 1) == Iterates(step, next, 0);
    } else {
      RunStopsAtFirstConvergence(step, next, precision, left - 1);
      var (r, rest) := Run(step, next, precision, left - 1);
      var steps := left - 1 - rest;
      assert Iterates(step, e, steps + 1) == Iterates(step, next, steps);
      forall k | 1 <= k < steps + 1
        ensures !Converged(Iterates(step, e, k - 1), Iterates(step, e, k), precision)
      {
        if k > 1 {
          assert Iterates(step, e, k - 1) == Iterates(step, next, k - 2);
          assert Iterates(step, e, k) == Iterates(step, next, k - 1);
        }
      }
      assert Iterates(step, e, steps) == Iterates(step, next, steps - 1);
    }
  }

  /** What `root` promises its caller, for any step map and so for
      `NewtonMap(cs)`: the sentinel whenever the budget is used up (even if
      that last step converged); otherwise a converged value, and
      `max_depth - remaining` (in `size_t`) is the number of steps taken,
      which lies between 1 and the budget. */
  lemma BudgetedMeaning(step: Estimate -> Estimate, guess: Complex, precision: real, max: Size)
    ensures var (value, rest) := Budgeted(step, guess, precision, max);
      var e := Finite(guess);
      && (rest == 0 ==>
            && value == Zero
            && forall k :: 1 <= k < Budget(max) ==> !Converged(Iterates(step, e, k - 1), Iterates(step, e, k), precision))
      && (rest != 0 ==>
            var steps := SizeSub(max, rest);
            && 1 <= steps < Budget(max)
            && Iterates(step, e, steps) == Finite(value)
            && Converged(Iterates(step, e, steps - 1), Finite(value), precision)
            && forall k :: 1 <= k < steps ==> !Converged(Iterates(step, e, k - 1), Iterates(step, e, k), precision))
  {
    var left := Budget(max);
    RunStopsAtFirstConvergence(step, Finite(guess), precision, left);
    var (r, rest) := Run(step, Finite(guess), precision, left);
    assert Budgeted(step, guess, precision, max) == (if rest != 0 then r.z else Zero, rest);
    if rest != 0 {
      StepsTaken(max, rest);
    }
  }

  /** With budget left over, `max_depth - remaining` in `size_t` is the
      number of steps taken, even for the wrapped budget of 0. */
  lemma StepsTaken(max: Size, rest: nat)
    requires 0 < rest < Budget(max)
    ensures SizeSub(max, rest) == Budget(max) - rest
  {
  }

  /** One pass of the do/while body: Run unfolds by one step. */
  lemma RunStep(step: Estimate -> Estimate, e: Estimate, next: Estimate, precision: real, left: nat)
    requires step(e) == next
    ensures Run(step, e, precision, left + 1) ==
      if Converged(e, next, precision) || left == 0 then (next, left) else Run(step, next, precision, left)
  {
  }

  /** The step map applied is one `root_iterate` step. */
  lemma NewtonMapIsStep(cs: seq<Complex>, e: Estimate)
    requires |cs| >= 1
    ensures NewtonMap(cs)(e) == NewtonStep(cs, e)
  {
  }

  /** `root`: a do/while that takes one step, decrements `*max` (in `size_t`,
      so 0 wraps), and repeats until the step converged or the budget is 0. */
  method Root(cs: seq<Complex>, guess: Complex, precision: real, max: Size) returns (value: Complex, remaining: Size)
    requires |cs| >= 1
    ensures (value, remaining) == RootResult(cs, guess, precision, max)
  {
    ghost var step := NewtonMap(cs);
    var thisGuess := Finite(guess);
    var last := thisGuess;
    remaining := max;
    ghost var left: nat := Budget(max);
    while true
      invariant 1 <= left <= SIZE_LIMIT
      invariant if left == SIZE_LIMIT then remaining == 0 else remaining == left
      invariant Run(step, Finite(guess), precision, Budget(max)) == Run(step, thisGuess, precision, left)
      decreases left
    {
      last := thisGuess;
      thisGuess := RootIterate(cs, thisGuess);
      NewtonMapIsStep(cs, last);
      remaining := if remaining == 0 then SIZE_LIMIT - 1 else remaining - 1;
      left := left - 1;
      RunStep(step, last, thisGuess, precision, left);
      if Converged(last, thisGuess, precision) || remaining == 0 {
        break;
      }
    }
    value := if remaining != 0 then thisGuess.z else Zero;
  }
}
