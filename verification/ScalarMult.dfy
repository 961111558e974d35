/**
 * frontend/noble-ed25519.js: scalar multiplication. The routines only add, double and negate, so they
 * are modelled over any abelian group; `base` plays the base point G.
 */
module ScalarMult {

  /** The order N of the base point. */
  const ORDER: nat := 0x1000000000000000000000000000000014def9dea2f79cd65812631a5cf5d3ed
  /** The windows of 8 bits in 256, and one more for the last carry. */
  const WINDOWS := 33
  const WINDOW_SIZE := 128

  datatype Group<!T> = Group(add: (T, T) -> T, negate: T -> T, zero: T)
  datatype Outcome<+T> = Ok(value: T) | OutOfRange

  ghost predicate Abelian<T(!new)>(g: Group<T>) {
    && (forall a, b, c :: g.add(g.add(a, b), c) == g.add(a, g.add(b, c)))
    && (forall a, b :: g.add(a, b) == g.add(b, a))
    && (forall a :: g.add(a, g.zero) == a)
    && (forall a :: g.add(a, g.negate(a)) == g.zero)
  }

  function Add<T>(g: Group<T>, a: T, b: T): T { g.add(a, b) }

  function Negate<T>(g: Group<T>, a: T): T { g.negate(a) }

  lemma Laws<T(!new)>(g: Group<T>, a: T, b: T, c: T)
    requires Abelian(g)
    ensures Add(g, Add(g, a, b), c) == Add(g, a, Add(g, b, c))
    ensures Add(g, a, b) == Add(g, b, a)
    ensures Add(g, a, g.zero) == a && Add(g, a, Negate(g, a)) == g.zero
  {
  }

  /** n times p, for n of either sign. */
  function Times<T>(g: Group<T>, n: int, p: T): T
    decreases n < 0, if n < 0 then -n else n
  {
    if n == 0 then g.zero
    else if n > 0 then Add(g, Times(g, n - 1, p), p)
    else Negate(g, Times(g, -n, p))
  }

  lemma OneTime<T(!new)>(g: Group<T>, p: T)
    requires Abelian(g)
    ensures Times(g, 1, p) == p
  {
  }

  lemma {:induction false} TimesAdds<T(!new)>(g: Group<T>, m: nat, n: nat, p: T)
    requires Abelian(g)
    ensures Times(g, m + n, p) == Add(g, Times(g, m, p), Times(g, n, p))
    decreases n
  {
    hide Abelian;
    Laws(g, Times(g, m, p), p, p);
    if n > 0 {
      TimesAdds(g, m, n - 1, p);
      Laws(g, Times(g, m, p), Times(g, n - 1, p), p);
      assert Times(g, m + n, p) == Add(g, Times(g, m + n - 1, p), p);
    }
  }

  /** Moving d copies over: (m - d) p + d p. */
  lemma TimesSubtracts<T(!new)>(g: Group<T>, m: nat, d: nat, p: T)
    requires Abelian(g) && d <= m
    ensures Add(g, Times(g, m, p), Negate(g, Times(g, d, p))) == Times(g, m - d, p)
  {
    hide Abelian;
    TimesAdds(g, m - d, d, p);
    var dp := Times(g, d, p);
    Laws(g, Times(g, m - d, p), dp, Negate(g, dp));
    Laws(g, dp, dp, dp);
  }

  lemma {:induction false} TimesTimes<T(!new)>(g: Group<T>, m: nat, n: nat, p: T)
    requires Abelian(g)
    ensures Times(g, m, Times(g, n, p)) == Times(g, m * n, p)
    decreases m
  {
    hide Abelian;
    if m > 0 {
      TimesTimes(g, m - 1, n, p);
      TimesAdds(g, (m - 1) * n, n, p);
      assert (m - 1) * n + n == m * n;
    }
  }

  lemma {:induction false} TimesZero<T(!new)>(g: Group<T>, n: nat)
    requires Abelian(g)
    ensures Times(g, n, g.zero) == g.zero
  {
    if n > 0 {
      TimesZero(g, n - 1);
      Laws(g, g.zero, g.zero, g.zero);
    }
  }

  function Pow256(k: nat): (r: nat)
    ensures r > 0
  {
    if k == 0 then 1 else 256 * Pow256(k - 1)
  }

  // ---- the table -------------------------------------------------------------------------

  /** Entry i of window w is (i + 1) * 256^w times the base point. */
  ghost predicate TableOk<T>(g: Group<T>, base: T, table: seq<T>, windows: nat) {
    && |table| == windows * WINDOW_SIZE
    && forall w: nat, i: nat | w < windows && i < WINDOW_SIZE :: EntryOk(g, base, table, w, i)
  }

  ghost predicate EntryOk<T>(g: Group<T>, base: T, table: seq<T>, w: nat, i: nat) {
    && 0 <= w * WINDOW_SIZE + i < |table|
    && table[w * WINDOW_SIZE + i] == Times(g, (i + 1) * Pow256(w), base)
  }

  /** One window of `precompute`: the first 128 multiples of p; `last` is the 128th. */
  method Window<T(!new)>(g: Group<T>, p: T) returns (row: seq<T>, last: T)
    requires Abelian(g)
    ensures |row| == WINDOW_SIZE && last == row[WINDOW_SIZE - 1]
    ensures forall i | 0 <= i < WINDOW_SIZE :: row[i] == Times(g, i + 1, p)
  {
    hide Abelian;
    last := p;
    row := [last];
    OneTime(g, p);
    for i := 1 to WINDOW_SIZE
      invariant |row| == i && last == row[i - 1]
      invariant forall j | 0 <= j < i :: row[j] == Times(g, j + 1, p)
    {
      last := Add(g, last, p);
      row := row + [last];
    }
  }

  lemma EntriesOfWindow<T(!new)>(g: Group<T>, base: T, table: seq<T>, row: seq<T>, w: nat)
    requires Abelian(g) && TableOk(g, base, table, w) && |row| == WINDOW_SIZE
    requires forall i | 0 <= i < WINDOW_SIZE :: row[i] == Times(g, i + 1, Times(g, Pow256(w), base))
    ensures TableOk(g, base, table + row, w + 1)
  {
    hide Abelian;
    var longer := table + row;
    assert (w + 1) * WINDOW_SIZE == w * WINDOW_SIZE + WINDOW_SIZE;
    forall v: nat, i: nat | v < w + 1 && i < WINDOW_SIZE ensures EntryOk(g, base, longer, v, i) {
      if v < w {
        assert EntryOk(g, base, table, v, i);
      } else {
        TimesTimes(g, i + 1, Pow256(w), base);
        assert longer[w * WINDOW_SIZE + i] == row[i];
      }
    }
  }

  /** `precompute`: 33 windows, each starting from twice the last point of the one before. */
  method Precompute<T(!new)>(g: Group<T>, base: T) returns (points: seq<T>)
    requires Abelian(g)
    ensures TableOk(g, base, points, WINDOWS)
  {
    hide Abelian, TableOk;
    points := [];
    var p := base;
    OneTime(g, base);
    EmptyTable(g, base);
    for w := 0 to WINDOWS
      invariant TableOk(g, base, points, w)
      invariant p == Times(g, Pow256(w), base)
    {
      var row, b := Window(g, p);
      EntriesOfWindow(g, base, points, row, w);
      points := points + row;
      p := Add(g, b, b);
      NextWindow(g, base, w);
    }
  }

  lemma EmptyTable<T>(g: Group<T>, base: T)
    ensures TableOk(g, base, [], 0) && Pow256(0) == 1
  {
  }

  lemma NextWindow<T(!new)>(g: Group<T>, base: T, w: nat)
    requires Abelian(g)
    ensures
      var p := Times(g, Pow256(w), base);
      Add(g, Times(g, 128, p), Times(g, 128, p)) == Times(g, Pow256(w + 1), base)
  {
    hide Abelian;
    var p := Times(g, Pow256(w), base);
    TimesAdds(g, 128, 128, p);
    TimesTimes(g, 256, Pow256(w), base);
  }

  // ---- signed windows ----------------------------------------------------------------------

  /** The signed digit of one window, in -127..128, and what carries over to the next. */
  function Digit(n: nat): (r: (int, nat))
    ensures n == r.0 + 256 * r.1 && -127 <= r.0 <= 128
  {
    if n % 256 > WINDOW_SIZE then (n % 256 - 256, n / 256 + 1) else (n % 256, n / 256)
  }

  /** The recoded number shrinks to nothing: what is left after w windows is at most 256^(32 - w). */
  lemma DigitShrinks(n: nat, k: nat)
    requires n <= Pow256(k)
    ensures k > 0 ==> Digit(n).1 <= Pow256(k - 1)
    ensures k == 0 ==> Digit(n).1 == 0
  {
  }

  lemma SplitWindow(n: nat, unit: nat)
    ensures var d := Digit(n); n * unit == d.0 * unit + d.1 * (256 * unit)
  {
  }

  /** p plus what is left of the scalar makes the whole multiple. */
  ghost predicate Accounts<T>(g: Group<T>, base: T, whole: nat, p: T, n: nat, w: nat) {
    Add(g, p, Times(g, n * Pow256(w), base)) == Times(g, whole, base)
  }

  lemma AddPositive<T(!new)>(g: Group<T>, base: T, whole: nat, p: T, n: nat, w: nat)
    requires Abelian(g) && Accounts(g, base, whole, p, n, w) && Digit(n).0 >= 0
    ensures Accounts(g, base, whole, Add(g, p, Times(g, Digit(n).0 * Pow256(w), base)), Digit(n).1, w + 1)
  {
    hide Abelian;
    var d, unit := Digit(n), Pow256(w);
    SplitWindow(n, unit);
    TimesAdds(g, d.0 * unit, d.1 * Pow256(w + 1), base);
    Laws(g, p, Times(g, d.0 * unit, base), Times(g, d.1 * Pow256(w + 1), base));
  }

  lemma AddNegative<T(!new)>(g: Group<T>, base: T, whole: nat, p: T, n: nat, w: nat)
    requires Abelian(g) && Accounts(g, base, whole, p, n, w) && Digit(n).0 < 0
    ensures Accounts(g, base, whole, Add(g, p, Negate(g, Times(g, -Digit(n).0 * Pow256(w), base))), Digit(n).1, w + 1)
  {
    hide Abelian;
    var d, unit := Digit(n), Pow256(w);
    var taken, rest := -d.0 * unit, d.1 * Pow256(w + 1);
    SplitWindow(n, unit);
    assert n * unit == rest - taken && n * unit >= 0;
    TimesSubtracts(g, rest, taken, base);
    var np := Negate(g, Times(g, taken, base));
    Laws(g, p, np, Times(g, rest, base));
    Laws(g, np, Times(g, rest, base), p);
  }

  /** One turn of the `wNAF` loop: takes the signed digit of window w off the scalar. */
  method AddWindow<T(!new)>(g: Group<T>, base: T, comp: seq<T>, ghost whole: nat, p0: T, f0: T, n0: nat, w: nat)
    returns (p: T, f: T, n: nat)
    requires Abelian(g) && TableOk(g, base, comp, WINDOWS) && w < WINDOWS
    requires Accounts(g, base, whole, p0, n0, w)
    ensures Accounts(g, base, whole, p, n, w + 1) && n == Digit(n0).1
  {
    hide Abelian, TableOk, Digit, Times, Accounts, Pow256;
    DigitIs(n0);
    p, f := p0, f0;
    var wbits := n0 % 256;
    n := n0 / 256;
    if wbits > WINDOW_SIZE {
      wbits := wbits - 256;
      n := n + 1;
    }
    if wbits == 0 {
      var filler := Entry(g, base, comp, w, 0);
      f := Add(g, f, if w % 2 != 0 then Negate(g, filler) else filler);
      AddPositive(g, base, whole, p, n0, w);
      NothingAdded(g, base, p, w);
    } else if wbits < 0 {
      var point := Entry(g, base, comp, w, -wbits - 1);
      AddNegative(g, base, whole, p, n0, w);
      p := Add(g, p, Negate(g, point));
    } else {
      var point := Entry(g, base, comp, w, wbits - 1);
      AddPositive(g, base, whole, p, n0, w);
      p := Add(g, p, point);
    }
  }

  /** `wNAF`: signed 8-bit windows with carry over the table; `f` only keeps the timing even. */
  method WNaf<T(!new)>(g: Group<T>, base: T, scalar: nat) returns (p: T, f: T)
    requires Abelian(g) && scalar <= Pow256(32)
    ensures p == Times(g, scalar, base)
  {
    hide Abelian, TableOk, Digit, Times, Accounts, Pow256;
    var comp := Precompute(g, base);
    p, f := g.zero, base;
    var n := scalar;
    StartAccounts(g, base, scalar);
    for w := 0 to WINDOWS
      invariant n >= 0 && Accounts(g, base, scalar, p, n, w)
      invariant w <= 32 ==> n <= Pow256(32 - w)
      invariant w == 33 ==> n == 0
    {
      DigitShrinks(n, 32 - w);
      p, f, n := AddWindow(g, base, comp, scalar, p, f, n, w);
    }
    EndAccounts(g, base, scalar, p);
  }

  lemma DigitIs(n: nat)
    ensures Digit(n) == if n % 256 > WINDOW_SIZE then (n % 256 - 256, n / 256 + 1) else (n % 256, n / 256)
  {
  }

  function Entry<T>(g: Group<T>, base: T, table: seq<T>, w: nat, i: nat): (r: T)
    requires TableOk(g, base, table, WINDOWS) && w < WINDOWS && i < WINDOW_SIZE
    ensures r == Times(g, (i + 1) * Pow256(w), base)
  {
    assert EntryOk(g, base, table, w, i);
    table[w * WINDOW_SIZE + i]
  }

  lemma StartAccounts<T(!new)>(g: Group<T>, base: T, scalar: nat)
    requires Abelian(g)
    ensures Accounts(g, base, scalar, g.zero, scalar, 0)
  {
    hide Abelian, Times;
    assert scalar * Pow256(0) == scalar;
    Laws(g, g.zero, Times(g, scalar, base), base);
    Laws(g, Times(g, scalar, base), base, base);
  }

  lemma NothingAdded<T(!new)>(g: Group<T>, base: T, p: T, w: nat)
    requires Abelian(g)
    ensures Add(g, p, Times(g, 0 * Pow256(w), base)) == p
  {
  }

  lemma EndAccounts<T(!new)>(g: Group<T>, base: T, scalar: nat, p: T)
    requires Abelian(g) && Accounts(g, base, scalar, p, 0, 33)
    ensures p == Times(g, scalar, base)
  {
  }

  // ---- multiply -------------------------------------------------------------------------------

  lemma OrderFits()
    ensures ORDER <= Pow256(32)
  {
    hide Pow256;
    Pow256Of4();
    Pow256Adds(4, 4);
    Pow256Adds(8, 8);
    Pow256Adds(16, 16);
  }

  lemma Pow256Of4()
    ensures Pow256(4) == 0x1_0000_0000
  {
  }

  lemma {:induction false} Pow256Adds(k: nat, m: nat)
    ensures Pow256(k + m) == Pow256(k) * Pow256(m)
  {
    if k > 0 {
      Pow256Adds(k - 1, m);
      assert Pow256(k + m) == 256 * Pow256(k - 1 + m);
      assert 256 * (Pow256(k - 1) * Pow256(m)) == 256 * Pow256(k - 1) * Pow256(m);
    }
  }

  /** The double-and-add loop: p plus n more copies of d is the whole multiple. */
  method DoubleAndAdd<T(!new)>(g: Group<T>, base: T, point: T, scalar: nat, safe: bool) returns (p: T)
    requires Abelian(g)
    ensures p == Times(g, scalar, point)
  {
    hide Abelian;
    p := g.zero;
    var f, d, n := base, point, scalar;
    Laws(g, g.zero, Times(g, scalar, point), point);
    Laws(g, Times(g, scalar, point), point, point);
    while n > 0
      invariant n >= 0 && Add(g, p, Times(g, n, d)) == Times(g, scalar, point)
      decreases n
    {
      HalveScalar(g, p, n, d);
      if n % 2 == 1 {
        p := Add(g, p, d);
      } else if safe {
        f := Add(g, f, d);
      }
      d := Add(g, d, d);
      n := n / 2;
    }
    Laws(g, p, p, p);
  }

  lemma HalveScalar<T(!new)>(g: Group<T>, p: T, n: nat, d: T)
    requires Abelian(g) && n > 0
    ensures
      var rest := Times(g, n / 2, Add(g, d, d));
      Add(g, p, Times(g, n, d)) == if n % 2 == 1 then Add(g, Add(g, p, d), rest) else Add(g, p, rest)
  {
    hide Abelian;
    OneTime(g, d);
    TimesAdds(g, 1, 1, d);
    TimesTimes(g, n / 2, 2, d);
    assert n / 2 * 2 + n % 2 == n;
    if n % 2 == 1 {
      TimesAdds(g, n / 2 * 2, 1, d);
      MoveOne(g, p, Times(g, n / 2 * 2, d), d);
    }
  }

  lemma MoveOne<T(!new)>(g: Group<T>, p: T, rest: T, d: T)
    requires Abelian(g)
    ensures Add(g, p, Add(g, rest, d)) == Add(g, Add(g, p, d), rest)
  {
    Laws(g, rest, d, d);
    Laws(g, p, d, rest);
    hide Abelian, Add;
  }

  /** `multiply`: n times the point for every n the range check admits; the error otherwise. */
  method Multiply<T(!new, ==)>(g: Group<T>, base: T, point: T, n: int, safe: bool) returns (r: Outcome<T>)
    requires Abelian(g)
    ensures !safe && (n == 0 || point == g.zero) ==> r == Ok(g.zero)
    ensures safe || (n != 0 && point != g.zero) ==>
      r == if 1 <= n < ORDER then Ok(Times(g, n, point)) else OutOfRange
    ensures r.Ok? && n >= 0 ==> r.value == Times(g, n, point)
  {
    hide Abelian, Times;
    NoTimes(g, point);
    if !safe && (n == 0 || point == g.zero) {
      if n >= 0 {
        TimesZero(g, n);
      }
      return Ok(g.zero);
    }
    if !(1 <= n < ORDER) {
      return OutOfRange;
    }
    OneTime(g, point);
    if n == 1 {
      return Ok(point);
    }
    if point == base {
      OrderFits();
      var p, f := WNaf(g, base, n);
      return Ok(p);
    }
    var p := DoubleAndAdd(g, base, point, n, safe);
    return Ok(p);
  }

  lemma NoTimes<T>(g: Group<T>, p: T)
    ensures Times(g, 0, p) == g.zero
  {
  }
}
