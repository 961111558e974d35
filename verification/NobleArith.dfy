/** frontend/noble-ed25519.js: modular inversion and the fixed exponentiation by (p - 5) / 8. */
module NobleArith {

  /** The field prime 2^255 - 19. */
  const P: int := 0x7fffffffffffffffffffffffffffffffffffffffffffffffffffffffffffffed

  datatype Outcome = Ok(value: int) | NoInverse

  /** JavaScript's BigInt remainder takes the sign of the dividend. */
  function JsRem(a: int, b: int): int
    requires b > 0
  {
    if a >= 0 then a % b else -((-a) % b)
  }

  /** `M`: the remainder brought into 0..b-1. */
  function M(a: int, b: int): (r: int)
    requires b > 0
    ensures r == a % b
  {
    var r := JsRem(a, b);
    assert a < 0 ==> a % b == if (-a) % b == 0 then 0 else b - (-a) % b by {
      if a < 0 { NegativeRemainder(a, b); }
    }
    if r >= 0 then r else b + r
  }

  lemma NegativeRemainder(a: int, b: int)
    requires b > 0 && a < 0
    ensures a % b == if (-a) % b == 0 then 0 else b - (-a) % b
  {
    var q, r := (-a) / b, (-a) % b;
    assert -a == q * b + r;
    if r == 0 {
      RemainderIs(a, b, -q, 0);
    } else {
      assert (-q - 1) * b == -q * b - b;
      RemainderIs(a, b, -q - 1, b - r);
    }
  }

  lemma RemainderIs(x: int, b: int, q: int, r: int)
    requires b > 0 && 0 <= r < b && x == q * b + r
    ensures x % b == r
  {
    var p, s := x / b, x % b;
    assert x == p * b + s;
    if p < q {
      LaterQuotient(p, s, q, r, b);
    } else if q < p {
      LaterQuotient(q, r, p, s, b);
    }
  }

  lemma LaterQuotient(p: int, s: int, q: int, r: int, b: int)
    requires b > 0 && 0 <= s < b && 0 <= r < b && p < q
    ensures p * b + s < q * b + r
  {
    assert (q - p - 1) * b >= 0;
    assert q * b == p * b + (q - p - 1) * b + b;
  }

  // ---- inversion -------------------------------------------------------------------------

  ghost predicate Divides(d: int, n: int) {
    exists k: int :: n == k * d
  }

  ghost predicate DividesBoth(d: int, a: int, b: int) {
    Divides(d, a) && Divides(d, b)
  }

  /** x is an inverse of num modulo md. */
  predicate IsInverse(num: int, md: int, x: int)
    requires md > 0
  {
    (num * x) % md == 1 % md
  }

  lemma DivisorOfDividend(d: int, a: int, q: int, r: int)
    requires Divides(d, a) && Divides(d, r)
    ensures Divides(d, q * a + r)
  {
    var k :| a == k * d;
    var l :| r == l * d;
    assert q * a + r == (q * k + l) * d;
  }

  /** The first factor of a product may be reduced first. */
  lemma LeftResidue(num: int, md: int, x: int)
    requires md > 0
    ensures (num * x) % md == ((num % md) * x) % md
  {
    var q, r := num / md, num % md;
    SplitLeft(q, md, r, x);
    assert num == q * md + r;
    ShiftResidue(r * x, md, q * x);
  }

  lemma SplitLeft(q: int, md: int, r: int, x: int)
    ensures (q * md + r) * x == r * x + md * (q * x)
  {
    assert q * md * x == md * (q * x);
  }

  lemma SameResidue(num: int, md: int, x: int)
    requires md > 0
    ensures (num * x) % md == ((num % md) * x) % md
    ensures (num * x) % md == (num * (x % md)) % md
  {
    LeftResidue(num, md, x);
    LeftResidue(x, md, num);
    assert num * x == x * num && num * (x % md) == x % md * num;
  }

  lemma ShiftResidue(a: int, md: int, k: int)
    requires md > 0
    ensures (a + md * k) % md == a % md
  {
    assert a == a / md * md + a % md;
    assert a + md * k == (a / md + k) * md + a % md;
    RemainderIs(a + md * k, md, a / md + k, a % md);
  }

  lemma InverseQuotient(num: int, md: int, x: int) returns (q: int)
    requires md > 1 && IsInverse(num, md, x)
    ensures num % md * x == q * md + 1
  {
    SameResidue(num, md, x);
    RemainderIs(1, md, 0, 1);
    q := QuotientOf(num % md * x, md);
  }

  lemma QuotientOf(x: int, md: int) returns (q: int)
    requires md > 0
    ensures x == q * md + x % md
  {
    q := x / md;
  }

  /** A common divisor of num and md that is not 1 rules an inverse out. */
  lemma CommonDivisorBlocks(num: int, md: int, g: int, x: int)
    requires md > 0 && g > 1 && DividesBoth(g, num % md, md)
    ensures !IsInverse(num, md, x)
  {
    var k :| num % md == k * g;
    var l :| md == l * g;
    DivisorAtMost(l, g);
    if IsInverse(num, md, x) {
      var q := InverseQuotient(num, md, x);
      FactorOut(k, l, g, x, q);
      NotOne(k * x - q * l, g);
    }
  }

  lemma FactorOut(k: int, l: int, g: int, x: int, q: int)
    ensures k * g * x - q * (l * g) == (k * x - q * l) * g
  {
  }

  lemma DivisorAtMost(k: int, g: int)
    requires g > 0
    ensures k * g > 0 ==> k * g >= g
  {
  }

  lemma NotOne(k: int, g: int)
    requires g > 1
    ensures k * g != 1
  {
  }

  /** The loop of `invert`: the extended Euclidean algorithm. */
  method Euclid(a0: int, md: int) returns (b: int, x: int)
    requires 0 <= a0 < md
    ensures b > 0 && DividesBoth(b, a0, md)
    ensures (x * a0) % md == b % md
  {
    var a, y, u, v := a0, 1, 1, 0;
    b, x := md, 0;
    while a != 0
      invariant 0 <= a < b
      invariant b == x * a0 + y * md && a == u * a0 + v * md
      invariant forall d {:trigger DividesBoth(d, a, b)} :: DividesBoth(d, a, b) ==> DividesBoth(d, a0, md)
      decreases a
    {
      var q, r := b / a, b % a;
      var m, n := x - u * q, y - v * q;
      EuclidStep(a, b, q, r, x, y, u, v, a0, md);
      b, a, x, y, u, v := a, r, u, v, m, n;
    }
    assert b == 1 * b && 0 == 0 * b;
    assert DividesBoth(b, a, b);
    assert x * a0 + md * y == b;
    ShiftResidue(x * a0, md, y);
  }

  lemma EuclidStep(a: int, b: int, q: int, r: int, x: int, y: int, u: int, v: int, a0: int, md: int)
    requires 0 < a < b && q == b / a && r == b % a
    requires b == x * a0 + y * md && a == u * a0 + v * md
    ensures 0 <= r < a && r == (x - u * q) * a0 + (y - v * q) * md
    ensures forall d {:trigger DividesBoth(d, r, a)} :: DividesBoth(d, r, a) ==> DividesBoth(d, a, b)
  {
    assert b == q * a + r;
    assert q * a == u * q * a0 + v * q * md;
    forall d | DividesBoth(d, r, a) ensures DividesBoth(d, a, b) {
      DivisorOfDividend(d, a, q, r);
    }
  }

  /** `invert`: the inverse in 0..md-1, or the error exactly when the arguments are rejected or no inverse exists. */
  method Invert(num: int, md: int) returns (r: Outcome)
    ensures r.Ok? ==> num != 0 && md > 0 && 0 <= r.value < md && IsInverse(num, md, r.value)
    ensures r.NoInverse? ==> num == 0 || md <= 0 || forall x :: !IsInverse(num, md, x)
  {
    if num == 0 || md <= 0 {
      return NoInverse;
    }
    var a := M(num, md);
    var b, x := Euclid(a, md);
    if b == 1 {
      SameResidue(num, md, x);
      SameResidue(num, md, x % md);
      assert num * x % md == a * x % md;
      return Ok(M(x, md));
    }
    forall z ensures !IsInverse(num, md, z) {
      CommonDivisorBlocks(num, md, b, z);
    }
    return NoInverse;
  }

  // ---- powers ------------------------------------------------------------------------------

  function Pow(x: int, e: nat): int {
    if e == 0 then 1 else x * Pow(x, e - 1)
  }

  function Pow2(k: nat): nat {
    if k == 0 then 1 else 2 * Pow2(k - 1)
  }

  lemma {:induction false} Pow2Adds(k: nat, m: nat)
    ensures Pow2(k + m) == Pow2(k) * Pow2(m)
  {
    if k > 0 {
      Pow2Adds(k - 1, m);
      assert Pow2(k + m) == 2 * Pow2(k - 1 + m);
      Regroup(2, Pow2(k - 1), Pow2(m));
    }
  }

  lemma Regroup(x: int, y: int, z: int)
    ensures x * (y * z) == (x * y) * z
  {
  }

  lemma {:induction false} PowAdds(x: int, i: nat, j: nat)
    ensures Pow(x, i + j) == Pow(x, i) * Pow(x, j)
  {
    if i > 0 {
      PowAdds(x, i - 1, j);
      assert Pow(x, i + j) == x * Pow(x, i - 1 + j);
      assert x * (Pow(x, i - 1) * Pow(x, j)) == x * Pow(x, i - 1) * Pow(x, j);
    }
  }

  /** r is x to the e modulo P, with the sign of that power. */
  predicate IsPower(r: int, x: int, e: nat) {
    JsRem(r, P) == JsRem(Pow(x, e), P)
  }

  lemma ProductResidue(a: int, b: int)
    ensures (a * b) % P == ((a % P) * (b % P)) % P
  {
    SameResidue(a, P, b);
    SameResidue(a % P, P, b);
  }

  lemma JsNegate(a: int)
    ensures JsRem(-a, P) == -JsRem(a, P)
  {
  }

  lemma ProductSign(a: int, b: int)
    ensures -a * b == -(a * b) && a * -b == -(a * b)
    ensures a >= 0 && b >= 0 ==> a * b >= 0
  {
  }

  lemma PositiveProduct(a: int, b: int)
    requires a >= 0 && b >= 0
    ensures JsRem(a * b, P) == JsRem(JsRem(a, P) * JsRem(b, P), P)
  {
    ProductResidue(a, b);
    ProductSign(a, b);
    ProductSign(a % P, b % P);
  }

  /** JavaScript's remainder of a product is that of the product of remainders, signs included. */
  lemma {:induction false} JsProduct(a: int, b: int)
    ensures JsRem(a * b, P) == JsRem(JsRem(a, P) * JsRem(b, P), P)
    decreases a < 0, b < 0
  {
    hide JsRem;
    var x, y := JsRem(a, P), JsRem(b, P);
    ProductSign(a, b);
    ProductSign(x, y);
    JsNegate(a * b);
    JsNegate(x * y);
    if a < 0 {
      JsProduct(-a, b);
      JsNegate(a);
    } else if b < 0 {
      JsProduct(a, -b);
      JsNegate(b);
    } else {
      PositiveProduct(a, b);
    }
  }

  lemma MultiplyPowers(x: int, a: int, i: nat, b: int, j: nat)
    requires IsPower(a, x, i) && IsPower(b, x, j)
    ensures IsPower(JsRem(a * b, P), x, i + j) && JsRem(a * b, P) == JsRem(Pow(x, i + j), P)
  {
    PowAdds(x, i, j);
    JsProduct(a, b);
    JsProduct(Pow(x, i), Pow(x, j));
    Reduced(a * b);
  }

  lemma Reduced(a: int)
    ensures JsRem(JsRem(a, P), P) == JsRem(a, P)
  {
  }

  /** `pow2`: squares `power` times. */
  method PowOf2(x: int, power: nat, ghost base: int, ghost e: nat) returns (r: int)
    requires IsPower(x, base, e)
    ensures IsPower(r, base, e * Pow2(power))
  {
    hide IsPower;
    r := x;
    ghost var done := 0;
    var left := power;
    assert e * Pow2(0) == e;
    while left > 0
      invariant done + left == power && left >= 0 && done >= 0
      invariant IsPower(r, base, e * Pow2(done))
    {
      ghost var k := e * Pow2(done);
      MultiplyPowers(base, r, k, r, k);
      Doubled(e, done);
      r := r * r;
      r := JsRem(r, P);
      left := left - 1;
      done := done + 1;
    }
  }

  lemma Doubled(e: nat, k: nat)
    ensures e * Pow2(k) + e * Pow2(k) == e * Pow2(k + 1)
  {
  }

  /** The exponent 2^k - 1, written in binary as k ones. */
  function Ones(k: nat): nat {
    Pow2PositiveFact(k);
    Pow2(k) - 1
  }

  lemma {:induction false} Pow2PositiveFact(k: nat)
    ensures Pow2(k) >= 1
  {
    if k > 0 {
      Pow2PositiveFact(k - 1);
    }
  }

  /** k ones shifted left by m, plus m ones, are k + m ones. */
  lemma JoinOnes(k: nat, m: nat)
    ensures Ones(k) * Pow2(m) + Ones(m) == Ones(k + m)
  {
    Pow2Adds(k, m);
    assert Ones(k) * Pow2(m) == Pow2(k) * Pow2(m) - Pow2(m);
  }

  /** One line of the addition chain: from k ones and m ones to k + m ones. */
  method ChainStep(x: int, long: int, k: nat, short: int, m: nat) returns (r: int)
    requires IsPower(long, x, Ones(k)) && IsPower(short, x, Ones(m))
    ensures IsPower(r, x, Ones(k + m))
  {
    hide IsPower;
    var shifted := PowOf2(long, m, x, Ones(k));
    JoinOnes(k, m);
    MultiplyPowers(x, shifted, Ones(k) * Pow2(m), short, Ones(m));
    r := JsRem(shifted * short, P);
  }

  lemma FirstPower(x: int)
    ensures IsPower(x, x, 1)
  {
    assert Pow(x, 1) == x * Pow(x, 0) == x;
  }

  /** The last line: two more squarings and one more factor x. */
  method LastStep(x: int, b250: int) returns (r: int)
    requires IsPower(b250, x, Ones(250)) && IsPower(x, x, Ones(1))
    ensures r == JsRem(Pow(x, RootExponent()), P)
  {
    hide Pow, Pow2, IsPower;
    var shifted := PowOf2(b250, 2, x, Ones(250));
    OneIsOne();
    MultiplyPowers(x, shifted, Ones(250) * Pow2(2), x, 1);
    r := JsRem(shifted * x, P);
  }

  lemma OneIsOne()
    ensures Ones(1) == 1 && Ones(2) == 3
  {
  }

  /** `pow_2_252_3`: x^(2^252 - 3) modulo P; for a negative x it keeps the sign of that odd power. */
  method PowP58(x: int) returns (powP58: int, b2: int)
    ensures powP58 == JsRem(Pow(x, RootExponent()), P)
    ensures b2 == JsRem(Pow(x, 3), P)
  {
    hide Pow, Ones, IsPower, RootExponent;
    OneIsOne();
    FirstPower(x);
    MultiplyPowers(x, x, 1, x, 1);
    var x2 := JsRem(x * x, P);
    MultiplyPowers(x, x2, 2, x, 1);
    b2 := JsRem(x2 * x, P);
    var b4 := ChainStep(x, b2, 2, b2, 2);
    var b5 := ChainStep(x, b4, 4, x, 1);
    var b10 := ChainStep(x, b5, 5, b5, 5);
    var b20 := ChainStep(x, b10, 10, b10, 10);
    var b40 := ChainStep(x, b20, 20, b20, 20);
    var b80 := ChainStep(x, b40, 40, b40, 40);
    var b160 := ChainStep(x, b80, 80, b80, 80);
    var b240 := ChainStep(x, b160, 160, b80, 80);
    var b250 := ChainStep(x, b240, 240, b10, 10);
    powP58 := LastStep(x, b250);
  }

  /** The exponent of `pow_2_252_3`. */
  function RootExponent(): (e: nat)
    ensures e == Pow2(252) - 3 && e == Ones(250) * Pow2(2) + 1
  {
    JoinOnes(250, 2);
    assert Ones(2) == 3 && Pow2(2) == 4;
    Pow2PositiveFact(250);
    Pow2(252) - 3
  }

  lemma Pow2Of4()
    ensures Pow2(4) == 16
  {
  }

  /** That exponent is (p - 5) / 8, the one section 5.1.3 of RFC 8032 takes square roots with. */
  lemma ExponentIsPMinus5Over8()
    ensures RootExponent() == (P - 5) / 8
  {
    hide Pow2;
    Pow2Of4();
    Pow2Adds(4, 4);
    Pow2Adds(8, 8);
    Pow2Adds(16, 16);
    Pow2Adds(32, 32);
    Pow2Adds(64, 64);
    Pow2Adds(128, 64);
    Pow2Adds(192, 32);
    Pow2Adds(224, 16);
    Pow2Adds(240, 8);
    Pow2Adds(248, 4);
  }
}
