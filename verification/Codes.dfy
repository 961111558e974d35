/** Character codes of which none begins another: their concatenations can be taken apart in one way only. */
module Codes {

  function Encode<T>(code: char -> seq<T>, s: string): seq<T> {
    if s == "" then [] else code(s[0]) + Encode(code, s[1..])
  }

  ghost predicate PrefixFree<T(!new)>(code: char -> seq<T>) {
    && (forall c :: code(c) != [])
    && forall c, d :: code(c) <= code(d) ==> c == d
  }

  /** No code word can be read off the front of x. */
  ghost predicate Halts<T(!new)>(code: char -> seq<T>, x: seq<T>) {
    forall c :: !(code(c) <= x)
  }

  lemma OneOfTwoIsPrefix<T>(a: seq<T>, x: seq<T>, b: seq<T>, y: seq<T>)
    requires a + x == b + y
    ensures a <= b || b <= a
    ensures a == b ==> x == y
  {
    if |a| <= |b| {
      assert a == (a + x)[..|a|] == (b + y)[..|a|] == b[..|a|];
    } else {
      assert b == (b + y)[..|b|] == (a + x)[..|b|] == a[..|b|];
    }
    assert x == (a + x)[|a|..] && y == (b + y)[|b|..];
  }

  lemma WordAhead<T(!new)>(code: char -> seq<T>, s: string, x: seq<T>)
    requires s != ""
    ensures !Halts(code, Encode(code, s) + x)
  {
  }

  /** Reading stops at the same place and has read the same characters. */
  lemma {:induction false} ReadUniquely<T(!new)>(code: char -> seq<T>, s: string, t: string, x: seq<T>, y: seq<T>)
    requires PrefixFree(code) && Halts(code, x) && Halts(code, y)
    requires Encode(code, s) + x == Encode(code, t) + y
    ensures s == t && x == y
    decreases |s|
  {
    if s == "" || t == "" {
      assert s == "" ==> Encode(code, s) + x == x;
      assert t == "" ==> Encode(code, t) + y == y;
      if s != "" {
        WordAhead(code, s, x);
      }
      if t != "" {
        WordAhead(code, t, y);
      }
    } else {
      var a, b := code(s[0]), code(t[0]);
      var x', y' := Encode(code, s[1..]) + x, Encode(code, t[1..]) + y;
      assert Encode(code, s) + x == a + x' && Encode(code, t) + y == b + y';
      OneOfTwoIsPrefix(a, x', b, y');
      ReadUniquely(code, s[1..], t[1..], x, y);
      assert s == [s[0]] + s[1..] && t == [t[0]] + t[1..];
    }
  }

  lemma EncodeInjective<T(!new)>(code: char -> seq<T>, s: string, t: string)
    requires PrefixFree(code) && Encode(code, s) == Encode(code, t)
    ensures s == t
  {
    assert Encode(code, s) + [] == Encode(code, t) + [];
    ReadUniquely(code, s, t, [], []);
  }

  lemma SameChar(c: char, d: char)
    requires c as int == d as int
    ensures c == d
  {
  }

  // ---- UTF-16, as the key order of RFC 8785 needs it --------------------------------------

  function Utf16Char(): char -> seq<nat> {
    c =>
      var n := c as int;
      if n < 0x10000 then [n] else [0xD800 + (n - 0x10000) / 0x400, 0xDC00 + (n - 0x10000) % 0x400]
  }

  /** The 16-bit code units of a string; a character is a Unicode scalar value, never a surrogate. */
  function Utf16(s: string): seq<nat> {
    Encode(Utf16Char(), s)
  }

  lemma Utf16PrefixFree()
    ensures PrefixFree(Utf16Char())
  {
    forall c, d | Utf16Char()(c) <= Utf16Char()(d) ensures c == d {
      var m, n := c as int, d as int;
      SurrogatePair(m, n);
      var a, b := Utf16Char()(c), Utf16Char()(d);
      assert a[0] == b[0];
      assert m >= 0x10000 ==> n >= 0x10000 && a[1] == b[1];
      assert m == n;
      SameChar(c, d);
    }
  }

  lemma SurrogatePair(m: int, n: int)
    requires 0 <= m < 0x110000 && !(0xD800 <= m < 0xE000) && 0 <= n < 0x110000 && !(0xD800 <= n < 0xE000)
    ensures m < 0x10000 <= n ==> m != 0xD800 + (n - 0x10000) / 0x400
    ensures (m - 0x10000) / 0x400 == (n - 0x10000) / 0x400 && (m - 0x10000) % 0x400 == (n - 0x10000) % 0x400 ==> m == n
    ensures 0x10000 <= n ==> (n - 0x10000) / 0x400 < 0x400
  {
  }

  // ---- UTF-8, the bytes that are signed ------------------------------------------------------

  function Utf8Char(): char -> seq<nat> {
    c =>
      var n := c as int;
      if n < 0x80 then [n]
      else if n < 0x800 then [0xC0 + n / 0x40, 0x80 + n % 0x40]
      else if n < 0x10000 then [0xE0 + n / 0x1000, 0x80 + n / 0x40 % 0x40, 0x80 + n % 0x40]
      else [0xF0 + n / 0x40000, 0x80 + n / 0x1000 % 0x40, 0x80 + n / 0x40 % 0x40, 0x80 + n % 0x40]
  }

  function Utf8(s: string): seq<nat> {
    Encode(Utf8Char(), s)
  }

  lemma Utf8Number(n: int)
    requires 0 <= n < 0x110000
    ensures n == n / 0x40 * 0x40 + n % 0x40
    ensures n / 0x40 == n / 0x1000 * 0x40 + n / 0x40 % 0x40
    ensures n / 0x1000 == n / 0x40000 * 0x40 + n / 0x1000 % 0x40
    ensures n < 0x800 ==> n / 0x40 < 0x20
    ensures n < 0x10000 ==> n / 0x1000 < 0x10
  {
  }

  lemma Utf8PrefixFree()
    ensures PrefixFree(Utf8Char())
  {
    forall c, d | Utf8Char()(c) <= Utf8Char()(d) ensures c == d {
      var m, n := c as int, d as int;
      Utf8Number(m);
      Utf8Number(n);
      var a, b := Utf8Char()(c), Utf8Char()(d);
      assert a[0] == b[0];
      assert |a| == |b|;
      assert |a| > 1 ==> a[1] == b[1];
      assert |a| > 2 ==> a[2] == b[2];
      assert |a| > 3 ==> a[3] == b[3];
      assert m == n;
      SameChar(c, d);
    }
  }
}
