/** frontend/did.js: base58btc on byte buffers, by long division and by multiply-and-add, digit by digit. */
module Base58Js {
  import opened Digits
  import opened Base58

  // ---- long division --------------------------------------------------------------------

  /** Bringing one more byte into a division by 58. */
  lemma DivisionStep(q: nat, remainder: nat, byte: nat)
    requires remainder < 58 && byte < 256
    ensures
      var acc := remainder * 256 + byte;
      acc / 58 < 256 && acc % 58 < 58
      && 58 * (q * 256 + acc / 58) + acc % 58 == (58 * q + remainder) * 256 + byte
  {
  }

  /** After i bytes: the quotient digits so far and the remainder account for the number read so far. */
  ghost predicate Dividing(before: seq<nat>, i: nat, done: seq<nat>, remainder: nat) {
    && i <= |before| && |done| == i && ValidDigits(256, done) && remainder < 58
    && 58 * FromDigits(256, done) + remainder == FromDigits(256, before[..i])
  }

  lemma DividingNext(before: seq<nat>, i: nat, done: seq<nat>, remainder: nat)
    requires Dividing(before, i, done, remainder) && i < |before| && before[i] < 256
    ensures
      var acc := remainder * 256 + before[i];
      Dividing(before, i + 1, done + [acc / 58], acc % 58)
  {
    var acc := remainder * 256 + before[i];
    DivisionStep(FromDigits(256, done), remainder, before[i]);
    ReadOne(256, before, i);
    assert (done + [acc / 58])[..i] == done;
  }

  /** The inner loop of `b58encode`: divides buf[start..] by 58 in place and returns the remainder. */
  method DivideBy58(buf: array<nat>, start: nat) returns (remainder: nat)
    requires start <= buf.Length && ValidDigits(256, buf[..])
    modifies buf
    ensures forall j | 0 <= j < start :: buf[j] == old(buf[j])
    ensures ValidDigits(256, buf[..]) && remainder < 58
    ensures 58 * FromDigits(256, buf[start..]) + remainder == FromDigits(256, old(buf[start..]))
  {
    hide FromDigits;
    ghost var before, done: seq<nat> := buf[start..], [];
    remainder := 0;
    StartDividing(before);
    for i := start to buf.Length
      invariant Dividing(before, i - start, done, remainder)
      invariant forall j | 0 <= j < start :: buf[j] == old(buf[j])
      invariant forall j | start <= j < i :: buf[j] == done[j - start]
      invariant forall j | i <= j < buf.Length :: buf[j] == before[j - start]
      invariant forall j | 0 <= j < buf.Length :: buf[j] < 256
    {
      DividingNext(before, i - start, done, remainder);
      var acc := remainder * 256 + buf[i];
      done := done + [acc / 58];
      buf[i] := acc / 58;
      remainder := acc % 58;
    }
    assert buf[start..] == done;
    assert before[..|before|] == before;
  }

  lemma StartDividing(before: seq<nat>)
    ensures Dividing(before, 0, [], 0)
  {
  }

  function Reversed<T>(xs: seq<T>): (r: seq<T>)
    ensures |r| == |xs|
    ensures forall i | 0 <= i < |xs| :: r[i] == xs[|xs| - 1 - i]
  {
    seq(|xs|, i requires 0 <= i < |xs| => xs[|xs| - 1 - i])
  }

  /** Leading zeros of a buffer suffix weigh nothing. */
  lemma {:induction false} SkipZeros(ds: seq<nat>, n: nat)
    requires n <= |ds| && forall i | 0 <= i < n :: ds[i] == 0
    ensures FromDigits(256, ds) == FromDigits(256, ds[n..])
  {
    assert ds == Zeros(n) + ds[n..];
    LeadingZerosWriteNothing(256, n, ds[n..]);
  }

  /** Peeling one base-58 digit off the buffer's number moves it to the digits already collected. */
  lemma PeelDigit(value: nat, quotient: nat, remainder: nat, digits: seq<nat>)
    requires value > 0 && remainder < 58 && 58 * quotient + remainder == value
    ensures quotient < value
    ensures ToDigits(58, quotient) + Reversed(digits + [remainder]) == ToDigits(58, value) + Reversed(digits)
  {
  }

  lemma ValueOfRest(buf: seq<nat>, turn: nat, start: nat)
    requires turn <= start <= |buf| && forall i | turn <= i < start :: buf[i] == 0
    ensures FromDigits(256, buf[turn..]) == FromDigits(256, buf[start..])
  {
    SkipZeros(buf[turn..], start - turn);
    assert buf[turn..][start - turn..] == buf[start..];
  }

  lemma NonZeroRest(buf: seq<nat>, start: nat)
    requires start < |buf| && ValidDigits(256, buf) && buf[start] != 0
    ensures FromDigits(256, buf[start..]) > 0
  {
    ToFromDigits(256, buf[start..]);
  }

  /** `b58encode`: the same text as the big-integer encoder, for every byte string. */
  method B58Encode(bytes: Bytes) returns (text: string)
    requires AreBytes(bytes)
    ensures text == Encoded(bytes)
  {
    hide FromDigits, ToDigits, Encoded, Chars;
    var zeros := LeadingZeros(bytes);
    var buf := new nat[|bytes| - zeros](i requires 0 <= i < |bytes| - zeros => bytes[zeros + i]);
    assert buf[..] == bytes[zeros..] == buf[0..];
    SkipZeros(bytes, zeros);
    ghost var whole := FromDigits(256, bytes);
    var digits: seq<nat> := [];
    var start := 0;
    assert ToDigits(58, whole) + Reversed(digits) == ToDigits(58, whole);
    while start < buf.Length
      invariant start <= buf.Length && ValidDigits(256, buf[..]) && ValidDigits(58, digits)
      invariant start < buf.Length ==> buf[start] != 0
      invariant ToDigits(58, FromDigits(256, buf[start..])) + Reversed(digits) == ToDigits(58, whole)
      decreases FromDigits(256, buf[start..])
    {
      digits, start := NextDigit(buf, start, digits, whole);
    }
    assert buf[start..] == [];
    NothingLeft();
    assert Reversed(digits) == ToDigits(58, whole);
    EncodedFrom(bytes, Reversed(digits));
    text := seq(zeros, _ => '1') + Chars(Reversed(digits));
  }

  /** One turn of the outer loop: one more digit, and past the zeros it leaves in front. */
  method NextDigit(buf: array<nat>, start: nat, digits: seq<nat>, ghost whole: nat) returns (more: seq<nat>, next: nat)
    requires start < buf.Length && ValidDigits(256, buf[..]) && ValidDigits(58, digits) && buf[start] != 0
    requires ToDigits(58, FromDigits(256, buf[start..])) + Reversed(digits) == ToDigits(58, whole)
    modifies buf
    ensures start <= next <= buf.Length && ValidDigits(256, buf[..]) && ValidDigits(58, more)
    ensures next < buf.Length ==> buf[next] != 0
    ensures ToDigits(58, FromDigits(256, buf[next..])) + Reversed(more) == ToDigits(58, whole)
    ensures FromDigits(256, buf[next..]) < FromDigits(256, old(buf[start..]))
  {
    hide FromDigits, ToDigits;
    ghost var value := FromDigits(256, buf[start..]);
    assert buf[start..] == buf[..][start..];
    NonZeroRest(buf[..], start);
    var remainder := DivideBy58(buf, start);
    PeelDigit(value, FromDigits(256, buf[start..]), remainder, digits);
    more := digits + [remainder];
    next := NextNonZero(buf, start);
    assert buf[start..] == buf[..][start..] && buf[next..] == buf[..][next..];
    ValueOfRest(buf[..], start, next);
  }

  lemma NothingLeft()
    ensures FromDigits(256, []) == 0 && ToDigits(58, 0) == []
  {
  }

  method NextNonZero(buf: array<nat>, from: nat) returns (start: nat)
    requires from <= buf.Length
    ensures from <= start <= buf.Length
    ensures forall i | from <= i < start :: buf[i] == 0
    ensures start < buf.Length ==> buf[start] != 0
  {
    start := from;
    while start < buf.Length && buf[start] == 0
      invariant from <= start <= buf.Length && forall i | from <= i < start :: buf[i] == 0
    {
      start := start + 1;
    }
  }

  // ---- multiply and add -------------------------------------------------------------------

  /** The number a little-endian byte list writes. */
  function FromLittle(bytes: seq<nat>): nat {
    if bytes == [] then 0 else bytes[0] + 256 * FromLittle(bytes[1..])
  }

  /** The list holds bytes and its most significant one is not zero. */
  predicate Compact(bytes: seq<nat>) {
    AreBytes(bytes) && (bytes != [] ==> bytes[|bytes| - 1] != 0)
  }

  /** Compact little-endian bytes, reversed, are the shortest form of their number. */
  lemma CompactIsShortest(bytes: seq<nat>)
    requires Compact(bytes)
    ensures Reversed(bytes) == ToDigits(256, FromLittle(bytes))
  {
  }

  /** What multiplying by 58 and adding a carry makes of a little-endian list: the new bytes and the carry out. */
  function MultiplyAdd(bytes: seq<nat>, carry: nat): (r: (seq<nat>, nat))
    ensures |r.0| == |bytes|
    decreases |bytes|
  {
    if bytes == [] then ([], carry)
    else
      var acc := bytes[0] * 58 + carry;
      var tail := MultiplyAdd(bytes[1..], acc / 256);
      ([acc % 256] + tail.0, tail.1)
  }

  function Pow256(n: nat): nat {
    if n == 0 then 1 else 256 * Pow256(n - 1)
  }

  lemma {:induction false} MultiplyAddValue(bytes: seq<nat>, carry: nat)
    requires AreBytes(bytes) && carry < 58
    ensures
      var r := MultiplyAdd(bytes, carry);
      && AreBytes(r.0) && r.1 < 58
      && FromLittle(r.0) + r.1 * Pow256(|bytes|) == FromLittle(bytes) * 58 + carry
    decreases |bytes|
  {
    if bytes != [] {
      var acc := bytes[0] * 58 + carry;
      MultiplyAddValue(bytes[1..], acc / 256);
      var tail := MultiplyAdd(bytes[1..], acc / 256);
      var r := MultiplyAdd(bytes, carry);
      assert r.0[1..] == tail.0;
      assert FromLittle(tail.0) + tail.1 * Pow256(|bytes| - 1) == FromLittle(bytes[1..]) * 58 + acc / 256;
      Scale256(FromLittle(tail.0), tail.1, Pow256(|bytes| - 1), FromLittle(bytes[1..]), acc / 256);
    }
  }

  lemma Scale256(low: nat, out: nat, p: nat, high: nat, carry: nat)
    requires low + out * p == high * 58 + carry
    ensures 256 * low + out * (256 * p) == (256 * high) * 58 + 256 * carry
  {
  }

  /** The last byte stays non-zero unless something is carried out. */
  lemma {:induction false} MultiplyAddCompact(bytes: seq<nat>, carry: nat)
    requires Compact(bytes) && bytes != []
    ensures var r := MultiplyAdd(bytes, carry); r.1 > 0 || r.0[|r.0| - 1] != 0
    decreases |bytes|
  {
    if |bytes| > 1 {
      MultiplyAddCompact(bytes[1..], (bytes[0] * 58 + carry) / 256);
    } else {
      assert bytes[1..] == [];
    }
  }

  lemma {:induction false} PushValue(bytes: seq<nat>, top: nat)
    ensures FromLittle(bytes + [top]) == FromLittle(bytes) + top * Pow256(|bytes|)
    decreases |bytes|
  {
    if bytes == [] {
      assert (bytes + [top])[1..] == [];
    } else {
      PushValue(bytes[1..], top);
      assert (bytes + [top])[1..] == bytes[1..] + [top];
      assert top * Pow256(|bytes|) == 256 * (top * Pow256(|bytes| - 1));
    }
  }

  lemma CarryOn(bytes: seq<nat>, done: seq<nat>, j: nat, value: nat)
    requires j < |bytes|
    ensures
      var acc := bytes[j] * 58 + value;
      var here, there := MultiplyAdd(bytes[j..], value), MultiplyAdd(bytes[j + 1..], acc / 256);
      done + here.0 == done + [acc % 256] + there.0 && here.1 == there.1
  {
  }

  /** The inner loop of `b58decode`: times 58 plus the carry, in place. */
  method MultiplyInPlace(bytes: seq<nat>, digit: nat) returns (next: seq<nat>, value: nat)
    ensures (next, value) == MultiplyAdd(bytes, digit)
  {
    hide MultiplyAdd;
    next, value := bytes, digit;
    ghost var all, done: seq<nat> := MultiplyAdd(bytes, digit), [];
    assert bytes[0..] == bytes && done + all.0 == all.0;
    for j := 0 to |next|
      invariant |next| == |bytes| && |done| == j && next == done + bytes[j..]
      invariant done + MultiplyAdd(bytes[j..], value).0 == all.0
      invariant MultiplyAdd(bytes[j..], value).1 == all.1
    {
      CarryOn(bytes, done, j, value);
      var acc := next[j] * 58 + value;
      next := next[j := acc % 256];
      value := acc / 256;
      done := done + [acc % 256];
    }
    NothingToMultiply(value);
    assert bytes[|bytes|..] == [];
  }

  lemma NothingToMultiply(value: nat)
    ensures MultiplyAdd([], value) == ([], value)
  {
  }

  /** One character of `b58decode`: the byte list times 58 plus the digit, then the carry pushed. */
  method PutDigit(bytes: seq<nat>, digit: nat) returns (next: seq<nat>)
    requires Compact(bytes) && digit < 58 && (bytes == [] ==> digit > 0)
    ensures Compact(next) && next != []
    ensures FromLittle(next) == FromLittle(bytes) * 58 + digit
  {
    MultiplyAddValue(bytes, digit);
    if bytes != [] {
      MultiplyAddCompact(bytes, digit);
    }
    var value: nat;
    next, value := MultiplyInPlace(bytes, digit);
    while value > 0
      invariant value < 58 && AreBytes(next)
      invariant value > 0 ==> FromLittle(next) + value * Pow256(|next|) == FromLittle(bytes) * 58 + digit
      invariant value == 0 ==> Compact(next) && next != [] && FromLittle(next) == FromLittle(bytes) * 58 + digit
    {
      PushValue(next, value);
      next := next + [value % 256];
      value := value / 256;
    }
  }

  lemma NothingRead()
    ensures Compact([]) && FromLittle([]) == 0
  {
  }

  /** `b58decode`: the same bytes, or the same stray character, as the big-integer decoder. */
  method B58Decode(text: string) returns (r: Result<Bytes>)
    ensures r == Decoded(text)
  {
    var ds := CharDigits(text);
    var zeros := LeadingOnes(text);
    OnesBefore(text);
    hide Decoded, FromLittle, FromDigits, LeadingOnes;
    NothingRead();
    var bytes: seq<nat> := [];
    for i := zeros to |text|
      invariant ValidDigits(58, ds[..i])
      invariant Compact(bytes) && FromLittle(bytes) == FromDigits(58, ds[..i])
      invariant bytes == [] ==> i == zeros
    {
      var value := DigitOf(text[i]);
      if value == 58 {
        StrayFound(text, ds, i);
        return Err(InvalidCharacter(text[i]));
      }
      ReadOne(58, ds, i);
      assert ds[..i + 1] == ds[..i] + [ds[i]];
      bytes := PutDigit(bytes, value);
    }
    assert ds[..|text|] == ds;
    DecodedIs(text, bytes);
    r := Ok(Zeros(zeros) + Reversed(bytes));
  }

  lemma DecodedIs(text: string, bytes: seq<nat>)
    requires ValidDigits(58, CharDigits(text))
    requires Compact(bytes) && FromLittle(bytes) == FromDigits(58, CharDigits(text))
    ensures Decoded(text) == Ok(Zeros(LeadingOnes(text)) + Reversed(bytes))
  {
    CompactIsShortest(bytes);
    OnesAreZeros(text);
    NoStray(text);
  }

  /** The leading ones are zero digits, and the character after them is not one. */
  lemma {:induction false} OnesBefore(text: string)
    ensures
      var n, ds := LeadingOnes(text), CharDigits(text);
      && ValidDigits(58, ds[..n]) && FromDigits(58, ds[..n]) == 0
      && (n < |text| ==> ds[n] != 0)
    decreases |text|
  {
    var n, ds := LeadingOnes(text), CharDigits(text);
    OnesAreOnes(text);
    DigitOfChar(0);
    assert ALPHABET[0] == '1';
    assert ds[..n] == Zeros(n) + [];
    LeadingZerosWriteNothing(58, n, []);
  }

  lemma {:induction false} OnesAreOnes(text: string)
    ensures forall i | 0 <= i < LeadingOnes(text) :: text[i] == '1'
    ensures LeadingOnes(text) < |text| ==> text[LeadingOnes(text)] != '1'
    decreases |text|
  {
    if text != "" && text[0] == '1' {
      OnesAreOnes(text[1..]);
      assert forall i | 1 <= i < |text| :: text[i] == text[1..][i - 1];
    }
  }
}
