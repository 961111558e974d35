/** Positional numerals: digit strings, the numbers they write, and changing the base while keeping leading zeros. */
module Digits {

  type Base = b: nat | b >= 2 witness 2

  predicate ValidDigits(b: Base, ds: seq<nat>) {
    forall i | 0 <= i < |ds| :: ds[i] < b
  }

  /** The number a big-endian digit string writes. */
  function FromDigits(b: Base, ds: seq<nat>): nat {
    if ds == [] then 0 else FromDigits(b, ds[..|ds| - 1]) * b + ds[|ds| - 1]
  }

  lemma Divide(b: Base, x: nat)
    ensures x / b * b + x % b == x && x % b < b
    ensures x > 0 ==> x / b < x
  {
  }

  /** The shortest big-endian digit string writing x; that of 0 is empty. */
  function ToDigits(b: Base, x: nat): seq<nat> {
    if x == 0 then [] else Divide(b, x); ToDigits(b, x / b) + [x % b]
  }

  function LeadingZeros(ds: seq<nat>): (n: nat)
    ensures n <= |ds|
    ensures forall i | 0 <= i < n :: ds[i] == 0
    ensures n < |ds| ==> ds[n] != 0
  {
    if ds == [] || ds[0] != 0 then 0 else 1 + LeadingZeros(ds[1..])
  }

  function Zeros(n: nat): (r: seq<nat>)
    ensures |r| == n && forall i | 0 <= i < n :: r[i] == 0
  {
    seq(n, _ => 0)
  }

  /** Rewrites ds from base b to base c, carrying its leading zeros over one for one. */
  function Recode(b: Base, c: Base, ds: seq<nat>): seq<nat> {
    Zeros(LeadingZeros(ds)) + ToDigits(c, FromDigits(b, ds))
  }

  lemma {:induction false} ToDigitsShape(b: Base, x: nat)
    ensures ValidDigits(b, ToDigits(b, x))
    ensures x > 0 ==> ToDigits(b, x) != [] && ToDigits(b, x)[0] != 0
  {
    if x > 0 {
      Divide(b, x);
      ToDigitsShape(b, x / b);
      if x / b == 0 {
        assert x % b == x;
      }
    }
  }

  lemma {:induction false} FromToDigits(b: Base, x: nat)
    ensures FromDigits(b, ToDigits(b, x)) == x
  {
    if x > 0 {
      Divide(b, x);
      FromToDigits(b, x / b);
      var ds := ToDigits(b, x);
      assert ds[..|ds| - 1] == ToDigits(b, x / b);
    }
  }

  lemma AppendDigit(b: Base, q: nat, d: nat)
    requires d < b
    ensures (q * b + d) / b == q && (q * b + d) % b == d
  {
    var x := q * b + d;
    Divide(b, x);
    if x / b < q {
      QuotientsDiffer(b, x / b, x % b, q, d);
    } else if q < x / b {
      QuotientsDiffer(b, q, d, x / b, x % b);
    }
  }

  lemma QuotientsDiffer(b: Base, q: nat, d: nat, p: nat, e: nat)
    requires d < b && e < b && q < p
    ensures q * b + d < p * b + e
  {
    assert p * b == q * b + b + (p - q - 1) * b;
    assert (p - q - 1) * b >= 0;
  }

  lemma AppendPositive(b: Base, q: nat, d: nat)
    requires q > 0 || d > 0
    ensures q * b + d > 0
  {
  }

  lemma {:induction false} ToFromDigits(b: Base, ds: seq<nat>)
    requires ValidDigits(b, ds) && (ds != [] ==> ds[0] != 0)
    ensures ToDigits(b, FromDigits(b, ds)) == ds
    ensures ds != [] ==> FromDigits(b, ds) > 0
    decreases |ds|
  {
    if ds != [] {
      var n := |ds| - 1;
      var q := FromDigits(b, ds[..n]);
      ToFromDigits(b, ds[..n]);
      AppendDigit(b, q, ds[n]);
      AppendPositive(b, q, ds[n]);
      var x := q * b + ds[n];
      assert FromDigits(b, ds) == x;
      assert ToDigits(b, x) == ToDigits(b, x / b) + [x % b];
    }
  }

  lemma {:induction false} LeadingZerosWriteNothing(b: Base, n: nat, ds: seq<nat>)
    ensures FromDigits(b, Zeros(n) + ds) == FromDigits(b, ds)
    decreases |ds|, n
  {
    var all := Zeros(n) + ds;
    if ds != [] {
      assert all[..|all| - 1] == Zeros(n) + ds[..|ds| - 1];
      LeadingZerosWriteNothing(b, n, ds[..|ds| - 1]);
    } else if n > 0 {
      assert all[..|all| - 1] == Zeros(n - 1) + [];
      LeadingZerosWriteNothing(b, n - 1, []);
    }
  }

  lemma {:induction false} CountZeros(n: nat, ds: seq<nat>)
    requires ds != [] ==> ds[0] != 0
    ensures LeadingZeros(Zeros(n) + ds) == n
  {
    var all := Zeros(n) + ds;
    if n > 0 {
      assert all[1..] == Zeros(n - 1) + ds;
      CountZeros(n - 1, ds);
    }
  }

  lemma RecodeValid(b: Base, c: Base, ds: seq<nat>)
    ensures ValidDigits(c, Recode(b, c, ds))
  {
    ToDigitsShape(c, FromDigits(b, ds));
  }

  /** Changing the base there and back is the identity, on every digit string, leading zeros included. */
  lemma RecodeRoundTrip(b: Base, c: Base, ds: seq<nat>)
    requires ValidDigits(b, ds)
    ensures Recode(c, b, Recode(b, c, ds)) == ds
  {
    var n := LeadingZeros(ds);
    var x := FromDigits(b, ds);
    var there := ToDigits(c, x);
    ToDigitsShape(c, x);
    CountZeros(n, there);
    LeadingZerosWriteNothing(c, n, there);
    FromToDigits(c, x);
    assert ds == Zeros(n) + ds[n..];
    LeadingZerosWriteNothing(b, n, ds[n..]);
    ToFromDigits(b, ds[n..]);
  }
}
