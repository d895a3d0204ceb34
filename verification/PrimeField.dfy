/** Arithmetic modulo a prime: inverses by Bezout, and products that never vanish. */
module PrimeField {
  predicate Factors(d: nat, k: nat, q: nat) { d * k == q }

  ghost predicate IsPrime(q: nat) {
    2 <= q && forall d: nat, k: nat :: Factors(d, k, q) ==> d == 1 || d == q
  }

  function MulMod(a: nat, b: nat, q: nat): (r: nat)
    requires q > 0
    ensures r < q
  {
    (a * b) % q
  }

  lemma DivisionIsUnique(n: int, q: nat, c: int, r: int)
    requires q > 0 && 0 <= r < q && n == q * c + r
    ensures n % q == r
  {
    var d := n / q;
    assert q * (c - d) == n % q - r;
    MultipleBounds(q, c - d);
  }

  lemma MultipleBounds(q: nat, x: int)
    ensures x >= 1 ==> q * x >= q
    ensures x <= -1 ==> q * x <= -(q as int)
  {
    if x >= 1 {
      assert q * x == q + q * (x - 1);
    } else if x <= -1 {
      assert q * x == -(q as int) + q * (x + 1);
    }
  }

  lemma ModMulRight(a: int, b: int, q: nat)
    requires q > 0
    ensures (a * (b % q)) % q == (a * b) % q
  {
    var c := (a * (b % q)) / q;
    var r := (a * (b % q)) % q;
    assert b == q * (b / q) + b % q;
    calc {
      a * b;
      a * (q * (b / q) + b % q);
      a * (q * (b / q)) + a * (b % q);
      q * (a * (b / q)) + (q * c + r);
      q * (a * (b / q) + c) + r;
    }
    DivisionIsUnique(a * b, q, a * (b / q) + c, r);
  }

  lemma MulModCommutes(a: nat, b: nat, q: nat)
    requires q > 0
    ensures MulMod(a, b, q) == MulMod(b, a, q)
  {
  }

  lemma MulModAssociates(a: nat, b: nat, c: nat, q: nat)
    requires q > 0
    ensures MulMod(a, MulMod(b, c, q), q) == MulMod(MulMod(a, b, q), c, q)
  {
    ModMulRight(a, b * c, q);
    ModMulRight(c, a * b, q);
    assert a * (b * c) == c * (a * b);
    assert MulMod(MulMod(a, b, q), c, q) == (c * ((a * b) % q)) % q;
  }

  /** a*x + b*y == g, a == g*m and b == g*n. */
  datatype Bezout = Bezout(g: nat, x: int, y: int, m: nat, n: nat) {
    predicate Holds(a: nat, b: nat) { a * x + b * y == g && a == g * m && b == g * n }

    /** From the coefficients of (b, a % b) to those of (a, b). */
    function Up(k: nat): Bezout { Bezout(g, y, x - k * y, m * k + n, m) }
  }

  lemma BezoutUp(a: nat, b: nat, r: Bezout)
    requires b > 0 && r.Holds(b, a % b)
    ensures r.Up(a / b).Holds(a, b)
  {
    EuclidStep(a, b, r.g, r.x, r.y, r.m, r.n);
  }

  lemma BezoutBase(a: nat)
    ensures Bezout(a, 1, 0, 1, 0).Holds(a, 0)
  {
  }

  function ExtendedGcd(a: nat, b: nat): Bezout
    decreases b
  {
    if b == 0 then Bezout(a, 1, 0, 1, 0) else ExtendedGcd(b, a % b).Up(a / b)
  }

  lemma {:induction false} ExtendedGcdHolds(a: nat, b: nat)
    ensures ExtendedGcd(a, b).Holds(a, b)
    decreases b
  {
    if b == 0 {
      BezoutBase(a);
    } else {
      ExtendedGcdHolds(b, a % b);
      BezoutUp(a, b, ExtendedGcd(b, a % b));
    }
  }

  lemma EuclidStep(a: nat, b: nat, g: nat, x: int, y: int, m: nat, n: nat)
    requires b > 0
    requires b * x + (a % b) * y == g && b == g * m && a % b == g * n
    ensures a * y + b * (x - (a / b) * y) == g
    ensures a == g * (m * (a / b) + n)
  {
    var k := a / b;
    assert a == b * k + a % b;
    calc {
      a * y + b * (x - k * y);
      (b * k + a % b) * y + b * x - b * (k * y);
      b * k * y + (a % b) * y + b * x - b * k * y;
      g;
    }
    calc {
      g * (m * k + n);
      g * m * k + g * n;
      a;
    }
  }

  /** The inverse of `a` modulo `q`; zero for zero, as scalar inversion by exponentiation gives. */
  function Inverse(a: nat, q: nat): (r: nat)
    requires a < q
    ensures r < q
  {
    if a == 0 then 0 else ExtendedGcd(a, q).x % q
  }

  lemma InverseCorrect(a: nat, q: nat)
    requires IsPrime(q) && 0 < a < q
    ensures MulMod(Inverse(a, q), a, q) == 1
    ensures 0 < Inverse(a, q)
  {
    ExtendedGcdHolds(a, q);
    var Bezout(g, x, y, m, n) := ExtendedGcd(a, q);
    assert Factors(g, n, q);
    MultipleBounds(q, m);
    assert a * x + q * y == 1;
    assert a * x == q * (-y) + 1;
    DivisionIsUnique(a * x, q, -y, 1);
    ModMulRight(a, x, q);
    MulModCommutes(a, Inverse(a, q), q);
  }

  lemma OneIsNeutral(a: nat, q: nat)
    requires a < q
    ensures MulMod(1, a, q) == a
  {
  }

  lemma ZeroAbsorbs(a: nat, q: nat)
    requires q > 0
    ensures MulMod(a, 0, q) == 0
  {
  }

  /** In a prime field a product of non-zero factors is non-zero. */
  lemma NoZeroDivisors(a: nat, b: nat, q: nat)
    requires IsPrime(q) && 0 < a < q && 0 < b < q
    ensures 0 < MulMod(a, b, q) < q
  {
    var i := Inverse(a, q);
    InverseCorrect(a, q);
    MulModAssociates(i, a, b, q);
    OneIsNeutral(b, q);
    assert MulMod(i, MulMod(a, b, q), q) == b;
    ZeroAbsorbs(i, q);
  }

  /** Removing a blind: r^-1 * (k * (r * h)) == k * h. */
  lemma Unblind(r: nat, k: nat, h: nat, q: nat)
    requires IsPrime(q) && 0 < r < q && k < q && h < q
    ensures MulMod(Inverse(r, q), MulMod(k, MulMod(r, h, q), q), q) == MulMod(k, h, q)
  {
    var i := Inverse(r, q);
    InverseCorrect(r, q);
    MulModAssociates(k, r, h, q);
    MulModCommutes(k, r, q);
    MulModAssociates(r, k, h, q);
    assert MulMod(k, MulMod(r, h, q), q) == MulMod(r, MulMod(k, h, q), q);
    MulModAssociates(i, r, MulMod(k, h, q), q);
    OneIsNeutral(MulMod(k, h, q), q);
  }
}
