/** Fractions in lowest terms: equal exactly when they have the same value. */
module Rational {

  /** Euclid's algorithm. */
  function Gcd(a: nat, b: nat): (g: nat)
    requires a > 0 || b > 0
    ensures g > 0
    decreases b
  {
    if b == 0 then a else Gcd(b, a % b)
  }

  /** One step of the algorithm, with the division written out. */
  lemma GcdStep(a: nat, b: nat) returns (g: nat, k: nat, r: nat)
    requires a > 0 || b > 0
    ensures g == Gcd(a, b)
    ensures b == 0 ==> g == a
    ensures b > 0 ==> r < b && a == b * k + r && g == Gcd(b, r)
  {
    g := Gcd(a, b);
    if b == 0 {
      k, r := 0, 0;
    } else {
      k, r := a / b, a % b;
    }
  }

  /** The greatest common divisor divides both numbers and is a combination of them. */
  lemma {:induction false} GcdCombines(a: nat, b: nat) returns (p: nat, q: nat, x: int, y: int)
    requires a > 0 || b > 0
    ensures var g := Gcd(a, b); a == g * p && b == g * q && a * x + b * y == g
    decreases b
  {
    hide Gcd;
    var g, k, r := GcdStep(a, b);
    if b == 0 {
      p, q, x, y := 1, 0, 1, 0;
    } else {
      var p', q', x', y' := GcdCombines(b, r);
      p, q, x, y := k * p' + q', p', y', x' - k * y';
      Recombine(a, b, k, r, g, p', q', x', y');
    }
  }

  lemma Recombine(a: nat, b: nat, k: nat, r: nat, g: nat, p: nat, q: nat, x: int, y: int)
    requires a == b * k + r && b == g * p && r == g * q && b * x + r * y == g
    ensures a == g * (k * p + q) && a * y + b * (x - k * y) == g
  {
    calc {
      a * y + b * (x - k * y);
      (b * k + r) * y + b * (x - k * y);
      b * k * y + r * y + b * x - b * (k * y);
      b * x + r * y;
    }
    calc {
      g * (k * p + q);
      g * (k * p) + g * q;
      g * p * k + r;
    }
  }

  /** A fraction: a numerator over a positive denominator. */
  datatype Fraction = Fraction(num: nat, den: nat)

  predicate SameValue(a: Fraction, b: Fraction)
  {
    a.num * b.den == b.num * a.den
  }

  /** big.Rat keeps every value in lowest terms. */
  function Reduced(a: Fraction): (r: Fraction)
    requires a.den > 0
  {
    var g := Gcd(a.num, a.den);
    Fraction(a.num / g, a.den / g)
  }

  lemma DivideExactly(n: nat, g: nat, p: nat)
    requires g > 0 && n == g * p
    ensures n / g == p
  {
    var q, r := n / g, n % g;
    assert n == g * q + r;
    assert g * (p - q) == r by {
      assert g * (p - q) == g * p - g * q;
    }
    Multiple(g, p - q);
  }

  /** A multiple of a positive number is zero or at least as far from zero. */
  lemma Multiple(g: int, k: int)
    requires g > 0
    ensures k == 0 ==> g * k == 0
    ensures k > 0 ==> g * k >= g && g * k >= k
    ensures k < 0 ==> g * k <= -g && g * k <= k
  {
    if k > 0 {
      Product(g - 1, k - 1);
      assert (g - 1) * (k - 1) == g * k - g - k + 1;
    } else if k < 0 {
      Product(g - 1, -k - 1);
      assert (g - 1) * (-k - 1) == -(g * k) - g + k + 1;
    }
  }

  lemma Product(a: nat, b: nat)
    ensures a * b >= 0
  {
  }

  /** Reducing takes out a common factor and leaves numbers with none. */
  lemma ReducedParts(a: Fraction) returns (g: nat, x: int, y: int)
    requires a.den > 0
    ensures var r := Reduced(a);
      g > 0 && a.num == g * r.num && a.den == g * r.den && r.den > 0 && r.num * x + r.den * y == 1
  {
    g := Gcd(a.num, a.den);
    var p, q, u, v := GcdCombines(a.num, a.den);
    DivideExactly(a.num, g, p);
    DivideExactly(a.den, g, q);
    x, y := u, v;
    calc {
      g * (p * u + q * v);
      g * p * u + g * q * v;
      a.num * u + a.den * v;
      g;
    }
    CancelFactor(g, p * u + q * v, 1);
    Multiple(g, q);
  }

  lemma CancelFactor(g: int, a: int, b: int)
    requires g > 0 && g * a == g * b
    ensures a == b
  {
    assert g * (a - b) == 0;
    Multiple(g, a - b);
  }

  /** One denominator divides the other. */
  lemma DenominatorDivides(a: Fraction, b: Fraction, x: int, y: int)
    requires SameValue(a, b) && a.num * x + a.den * y == 1
    ensures b.den == a.den * (b.num * x + b.den * y)
  {
    calc {
      b.den;
      b.den * (a.num * x + a.den * y);
      a.num * b.den * x + a.den * (b.den * y);
      b.num * a.den * x + a.den * (b.den * y);
      a.den * (b.num * x) + a.den * (b.den * y);
      a.den * (b.num * x + b.den * y);
    }
  }

  lemma DivideEachOther(a: nat, b: nat, k: int, l: int)
    requires a > 0 && b > 0 && b == a * k && a == b * l
    ensures a == b
  {
    Multiple(a, k);
    Multiple(b, l);
  }

  /** Two fractions reduce to the same one if and only if they have the same value. */
  lemma ReducedIsCanonical(a: Fraction, b: Fraction)
    requires a.den > 0 && b.den > 0
    ensures Reduced(a) == Reduced(b) <==> SameValue(a, b)
  {
    var g, x, y := ReducedParts(a);
    var h, u, v := ReducedParts(b);
    var p, q := Reduced(a), Reduced(b);
    Factored(p, q, g, h, a, b);
    if SameValue(p, q) {
      DenominatorDivides(p, q, x, y);
      DenominatorDivides(q, p, u, v);
      DivideEachOther(p.den, q.den, q.num * x + q.den * y, p.num * u + p.den * v);
      CancelFactor(p.den, p.num, q.num);
    }
  }

  lemma Factored(p: Fraction, q: Fraction, g: nat, h: nat, a: Fraction, b: Fraction)
    requires g > 0 && h > 0 && a == Fraction(g * p.num, g * p.den) && b == Fraction(h * q.num, h * q.den)
    ensures SameValue(a, b) <==> SameValue(p, q)
  {
    assert a.num * b.den == g * h * (p.num * q.den) by {
      calc {
        g * p.num * (h * q.den);
        g * h * (p.num * q.den);
      }
    }
    assert b.num * a.den == g * h * (q.num * p.den) by {
      calc {
        h * q.num * (g * p.den);
        g * h * (q.num * p.den);
      }
    }
    assert g * h > 0;
    if a.num * b.den == b.num * a.den {
      CancelFactor(g * h, p.num * q.den, q.num * p.den);
    }
  }
}
