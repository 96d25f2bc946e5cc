/** The `complex` value type (Complex.hh, Complex.cc).
    The source's `double` components are exact reals here, so every property
    below is a property of the exact arithmetic, not of IEEE-754 rounding. */
module ComplexNumbers {
  import opened Machine

  /** A complex number with real part `re` and imaginary part `im`;
      `complex(double, double)` stores both arguments unchanged. */
  datatype Complex = Complex(re: real, im: real)

  /** `complex()`: the default constructor delegates to `complex(0.0, 0.0)`. */
  const Zero: Complex := Complex(0.0, 0.0)

  /** The multiplicative unit, the first entry of the Newton step's power table. */
  const One: Complex := Complex(1.0, 0.0)

  function Abs(x: real): (r: real)
    ensures r >= 0.0 && (r == x || r == -x)
  {
    if x < 0.0 then -x else x
  }

  /** `operator==`: both components compare equal. */
  predicate Same(a: Complex, b: Complex)
  {
    a.re == b.re && a.im == b.im
  }

  /** `operator!=`: some component differs. */
  predicate Differs(a: Complex, b: Complex)
  {
    a.re != b.re || a.im != b.im
  }

  /** `==` is value equality of the pair and `!=` is its negation. */
  lemma SameIsEquality(a: Complex, b: Complex)
    ensures Same(a, b) <==> a == b
    ensures Differs(a, b) <==> !Same(a, b)
  {
  }

  /** `operator+(const complex&)`. */
  function Add(a: Complex, b: Complex): Complex
  {
    Complex(a.re + b.re, a.im + b.im)
  }

  /** `operator-(const complex&)`. */
  function Sub(a: Complex, b: Complex): Complex
  {
    Complex(a.re - b.re, a.im - b.im)
  }

  /** `operator*(const complex&)`: (ac - bd, bc + ad). */
  function Mul(a: Complex, b: Complex): Complex
  {
    Complex(a.re * b.re - a.im * b.im, a.im * b.re + a.re * b.im)
  }

  /** The square of one component. */
  function Square(v: real): real
  {
    v * v
  }

  /** `abs2()`: the squared magnitude. */
  function Abs2(a: Complex): real
  {
    Square(a.re) + Square(a.im)
  }

  /** `operator/(const complex&)`: multiply by the conjugate and divide by |b|^2.
      A zero divisor (NaN/Inf in IEEE-754) is excluded over the reals. */
  function Div(a: Complex, b: Complex): Complex
    requires b != Zero
  {
    Abs2Positive(b);
    var d := Abs2(b);
    Complex((a.re * b.re + a.im * b.im) / d, (a.im * b.re - a.re * b.im) / d)
  }

  /** `operator*(double)`: both components scaled. */
  function Scale(a: Complex, k: real): Complex
  {
    Complex(a.re * k, a.im * k)
  }

  /** `operator/(double)`: both components divided. */
  function DivScalar(a: Complex, k: real): Complex
    requires k != 0.0
  {
    Complex(a.re / k, a.im / k)
  }

  /** `equal(b, precision)`: both component distances strictly below `precision`. */
  predicate Equal(a: Complex, b: Complex, precision: real)
  {
    Abs(a.re - b.re) < precision && Abs(a.im - b.im) < precision
  }

  /** `z^n` by repeated multiplication starting from 1, as the power table of
      the Newton step builds it (each entry is the previous one times `z`). */
  function Power(z: Complex, n: nat): Complex
  {
    if n == 0 then One else Mul(Power(z, n - 1), z)
  }

  /** The number of times the loop of `pow(p)` runs: its `size_t` counter is
      compared with `p` converted to `size_t`, so a negative `p` wraps. */
  function PowLoopCount(p: Int32): (r: Size)
    ensures 0 <= p ==> r == p
    ensures p < 0 ==> r == SIZE_LIMIT + p
  {
    IntToSize(p)
  }

  /** `pow(p)`: starts from the value itself and multiplies by it `p` more
      times, so it returns z^(p+1), not z^p. */
  method Pow(z: Complex, p: Int32) returns (res: Complex)
    ensures res == Power(z, PowLoopCount(p) + 1)
    ensures p == 0 ==> res == z
  {
    var count := PowLoopCount(p);
    res := z;
    PowerOne(z);
    var x: nat := 0;
    while x < count
      invariant 0 <= x <= count
      invariant res == Power(z, x + 1)
    {
      res := Mul(res, z);
      x := x + 1;
    }
  }

  // ---------------------------------------------------------------------
  // Algebraic facts over the exact reals.

  /** A square is never negative, and it is positive away from zero. */
  lemma SquarePositive(v: real)
    ensures Square(v) >= 0.0
    ensures v != 0.0 ==> Square(v) > 0.0
  {
    if v > 0.0 {
      calc {
        Square(v);
        v * v;
      > { assert v * v > 0.0 * v; }
        0.0;
      }
    } else if v < 0.0 {
      var w := -v;
      calc {
        Square(v);
        w * w;
      > { assert w * w > 0.0 * w; }
        0.0;
      }
    }
  }

  /** `abs2` is never negative, and it is zero exactly at the origin. */
  lemma Abs2Positive(a: Complex)
    ensures Abs2(a) >= 0.0
    ensures Abs2(a) == 0.0 <==> a == Zero
  {
    SquarePositive(a.re);
    SquarePositive(a.im);
  }

  /** The difference of two values is the origin exactly when they are equal. */
  lemma SubZeroIff(a: Complex, b: Complex)
    ensures Sub(a, b) == Zero <==> a == b
  {
  }

  /** The distance `align_roots` sorts by: `(a - b).abs2()` is zero exactly
      when the two values are equal. */
  lemma DistanceZeroIff(a: Complex, b: Complex)
    ensures Abs2(Sub(a, b)) >= 0.0
    ensures Abs2(Sub(a, b)) == 0.0 <==> a == b
  {
    Abs2Positive(Sub(a, b));
    SubZeroIff(a, b);
  }

  /** `a - a` is the origin. */
  lemma SubSelf(a: Complex)
    ensures Sub(a, a) == Zero
  {
  }

  /** Multiplication is commutative and (1,0) is its unit. */
  lemma MulCommutesAndUnit(a: Complex, b: Complex)
    ensures Mul(a, b) == Mul(b, a)
    ensures Mul(a, One) == a && Mul(One, a) == a
  {
  }

  /** Multiplication is associative. */
  lemma MulAssociative(a: Complex, b: Complex, c: Complex)
    ensures Mul(Mul(a, b), c) == Mul(a, Mul(b, c))
  {
    AssociativeReal(a.re, a.im, b.re, b.im, c.re, c.im);
    AssociativeImaginary(a.re, a.im, b.re, b.im, c.re, c.im);
  }

  /** The real part of (a*b)*c and of a*(b*c), both expanded. */
  lemma AssociativeReal(ar: real, ai: real, br: real, bi: real, cr: real, ci: real)
    ensures (ar * br - ai * bi) * cr - (ai * br + ar * bi) * ci == ar * (br * cr - bi * ci) - ai * (bi * cr + br * ci)
  {
    assert (ar * br - ai * bi) * cr == ar * br * cr - ai * bi * cr;
    assert (ai * br + ar * bi) * ci == ai * br * ci + ar * bi * ci;
    assert ar * (br * cr - bi * ci) == ar * br * cr - ar * bi * ci;
    assert ai * (bi * cr + br * ci) == ai * bi * cr + ai * br * ci;
  }

  /** The imaginary part of (a*b)*c and of a*(b*c), both expanded. */
  lemma AssociativeImaginary(ar: real, ai: real, br: real, bi: real, cr: real, ci: real)
    ensures (ai * br + ar * bi) * cr + (ar * br - ai * bi) * ci == ai * (br * cr - bi * ci) + ar * (bi * cr + br * ci)
  {
    assert (ai * br + ar * bi) * cr == ai * br * cr + ar * bi * cr;
    assert (ar * br - ai * bi) * ci == ar * br * ci - ai * bi * ci;
    assert ai * (br * cr - bi * ci) == ai * br * cr - ai * bi * ci;
    assert ar * (bi * cr + br * ci) == ar * bi * cr + ar * br * ci;
  }

  /** Complex division undoes multiplication: (a/b)*b = a for b != 0. */
  lemma DivThenMul(a: Complex, b: Complex)
    requires b != Zero
    ensures Mul(Div(a, b), b) == a
  {
    Abs2Positive(b);
    var d := Abs2(b);
    var nr, ni := a.re * b.re + a.im * b.im, a.im * b.re - a.re * b.im;
    assert Div(a, b) == Complex(nr / d, ni / d);
    ConjugateProduct(a.re, a.im, b.re, b.im);
    ScaleBack(nr, ni, b.re, b.im, d, a.re, a.im);
  }

  /** Multiplying the conjugate numerator back by the divisor gives the
      dividend times |b|^2. */
  lemma ConjugateProduct(ar: real, ai: real, br: real, bi: real)
    ensures (ar * br + ai * bi) * br - (ai * br - ar * bi) * bi == ar * (br * br + bi * bi)
    ensures (ai * br - ar * bi) * br + (ar * br + ai * bi) * bi == ai * (br * br + bi * bi)
  {
  }

  /** Dividing both numerator components by a nonzero `d` divides the product by `d`. */
  lemma ScaleBack(nr: real, ni: real, br: real, bi: real, d: real, ar: real, ai: real)
    requires d != 0.0
    requires nr * br - ni * bi == ar * d
    requires ni * br + nr * bi == ai * d
    ensures (nr / d) * br - (ni / d) * bi == ar
    ensures (ni / d) * br + (nr / d) * bi == ai
  {
    var x, y := nr / d, ni / d;
    assert x * d == nr && y * d == ni;
    assert (x * br - y * bi) * d == ar * d;
    assert (y * br + x * bi) * d == ai * d;
  }

  /** Multiplication distributes over addition. */
  lemma MulDistributes(a: Complex, b: Complex, c: Complex)
    ensures Mul(a, Add(b, c)) == Add(Mul(a, b), Mul(a, c))
  {
  }

  /** A real factor can be moved out of a product. */
  lemma MulScale(a: Complex, b: Complex, k: real)
    ensures Mul(a, Scale(b, k)) == Scale(Mul(a, b), k)
  {
    assert a.re * (b.re * k) - a.im * (b.im * k) == (a.re * b.re - a.im * b.im) * k;
    assert a.im * (b.re * k) + a.re * (b.im * k) == (a.im * b.re + a.re * b.im) * k;
  }

  /** Division by a nonzero value is linear in the dividend. */
  lemma DivLinear(a: Complex, b: Complex, d: Complex)
    requires d != Zero
    ensures Div(Sub(a, b), d) == Sub(Div(a, d), Div(b, d))
  {
    Abs2Positive(d);
    var n := Abs2(d);
    RealDivSub(a.re * d.re + a.im * d.im, b.re * d.re + b.im * d.im, n);
    RealDivSub(a.im * d.re - a.re * d.im, b.im * d.re - b.re * d.im, n);
    assert (a.re - b.re) * d.re + (a.im - b.im) * d.im == (a.re * d.re + a.im * d.im) - (b.re * d.re + b.im * d.im);
    assert (a.im - b.im) * d.re - (a.re - b.re) * d.im == (a.im * d.re - a.re * d.im) - (b.im * d.re - b.re * d.im);
  }

  /** Real division distributes over a difference. */
  lemma RealDivSub(x: real, y: real, n: real)
    requires n != 0.0
    ensures (x - y) / n == x / n - y / n
  {
    assert (x / n) * n == x && (y / n) * n == y;
    assert (x / n - y / n) * n == x - y;
  }

  /** Dividing a product by one of its nonzero factors gives the other one back. */
  lemma DivMulCancel(g: Complex, d: Complex)
    requires d != Zero
    ensures Div(Mul(g, d), d) == g
  {
    Abs2Positive(d);
    var n := Abs2(d);
    var m := Mul(g, d);
    assert n == d.re * d.re + d.im * d.im;
    assert m.re * d.re + m.im * d.im == g.re * n;
    assert m.im * d.re - m.re * d.im == g.im * n;
    assert (g.re * n) / n == g.re && (g.im * n) / n == g.im;
  }

  /** A quotient by a nonzero value is zero exactly when the dividend is. */
  lemma DivZeroIff(a: Complex, d: Complex)
    requires d != Zero
    ensures Div(a, d) == Zero <==> a == Zero
  {
    DivThenMul(a, d);
    if a == Zero {
      Abs2Positive(d);
    }
  }

  /** Each power is the previous one times `z`, and also `z` times the previous one. */
  lemma PowerSucc(z: Complex, n: nat)
    ensures Power(z, n + 1) == Mul(Power(z, n), z) == Mul(z, Power(z, n))
  {
    MulCommutesAndUnit(Power(z, n), z);
  }

  /** z^1 = z: multiplying the unit by z gives z back. */
  lemma PowerOne(z: Complex)
    ensures Power(z, 1) == z
  {
    assert Power(z, 1) == Mul(One, z);
  }

  /** `equal` does not depend on the order of its two complex arguments. */
  lemma EqualSymmetric(a: Complex, b: Complex, precision: real)
    ensures Equal(a, b, precision) <==> Equal(b, a, precision)
  {
  }

  /** Because the comparison is strict, a value is `equal` to itself exactly
      when the precision is positive. */
  lemma EqualReflexiveIff(a: Complex, precision: real)
    ensures Equal(a, a, precision) <==> precision > 0.0
  {
  }

  /** A looser precision never turns `equal` false. */
  lemma EqualMonotone(a: Complex, b: Complex, p: real, q: real)
    requires p <= q
    requires Equal(a, b, p)
    ensures Equal(a, b, q)
  {
  }

  // ---------------------------------------------------------------------
  // The compound-assignment operators, which update the receiver in place.

  /** A `complex` lvalue whose fields the compound operators overwrite. */
  class ComplexVar {
    var realPart: real
    var imagPart: real

    function Value(): Complex
      reads this
    {
      Complex(realPart, imagPart)
    }

    constructor (z: Complex)
      ensures Value() == z
    {
      realPart, imagPart := z.re, z.im;
    }

    /** `operator+=(const complex&)`. */
    method AddAssign(b: Complex) returns (r: Complex)
      modifies this
      ensures Value() == Add(old(Value()), b) && r == Value()
    {
      realPart := realPart + b.re;
      imagPart := imagPart + b.im;
      r := Value();
    }

    /** `operator-=(const complex&)`. */
    method SubAssign(b: Complex) returns (r: Complex)
      modifies this
      ensures Value() == Sub(old(Value()), b) && r == Value()
    {
      realPart := realPart - b.re;
      imagPart := imagPart - b.im;
      r := Value();
    }

    /** `operator*=(const complex&)`: the new real part is kept in a temporary
        so that the imaginary part is computed from the old real part. */
    method MulAssign(b: Complex) returns (r: Complex)
      modifies this
      ensures Value() == Mul(old(Value()), b) && r == Value()
    {
      var newReal := realPart * b.re - imagPart * b.im;
      imagPart := imagPart * b.re + realPart * b.im;
      realPart := newReal;
      r := Value();
    }

    /** `operator/=(const complex&)`, with the same temporary as `*=`. */
    method DivAssign(b: Complex) returns (r: Complex)
      requires b != Zero
      modifies this
      ensures Value() == Div(old(Value()), b) && r == Value()
    {
      Abs2Positive(b);
      var denom := b.re * b.re + b.im * b.im;
      var newReal := (realPart * b.re + imagPart * b.im) / denom;
      imagPart := (imagPart * b.re - realPart * b.im) / denom;
      realPart := newReal;
      r := Value();
    }

    /** `operator*=(double)`. */
    method ScaleAssign(k: real) returns (r: Complex)
      modifies this
      ensures Value() == Scale(old(Value()), k) && r == Value()
    {
      realPart := realPart * k;
      imagPart := imagPart * k;
      r := Value();
    }

    /** `operator/=(double)`. */
    method DivScalarAssign(k: real) returns (r: Complex)
      requires k != 0.0
      modifies this
      ensures Value() == DivScalar(old(Value()), k) && r == Value()
    {
      realPart := realPart / k;
      imagPart := imagPart / k;
      r := Value();
    }
  }
}
