/** crypto/did.py: base58btc by big integers, and the did:key identifiers built on it. */
module Base58 {
  import opened Digits

  /** The Bitcoin alphabet, whose characters ascend. */
  const ALPHABET := "123456789" + "ABCDEFGH" + "JKLMN" + "PQRSTUVWXYZ" + "abcdefghijk" + "mnopqrstuvwxyz"

  datatype Error = InvalidCharacter(c: char) | NotDidKey | NotBase58btc | NotEd25519 | WrongLength(n: nat)
  datatype Result<+T> = Ok(value: T) | Err(error: Error)

  /** Bytes are numbers below 256. */
  type Bytes = seq<nat>

  predicate AreBytes(data: Bytes) {
    ValidDigits(256, data)
  }

  // ---- characters and digits ------------------------------------------------------------

  function RunOf(i: nat): char
    requires i < 58
  {
    if i < 9 then "123456789"[i]
    else if i < 17 then "ABCDEFGH"[i - 9]
    else if i < 22 then "JKLMN"[i - 17]
    else if i < 33 then "PQRSTUVWXYZ"[i - 22]
    else if i < 44 then "abcdefghijk"[i - 33]
    else "mnopqrstuvwxyz"[i - 44]
  }

  lemma AlphabetRuns(i: nat)
    requires i < 58
    ensures ALPHABET[i] == RunOf(i)
  {
  }

  lemma RunAscends(i: nat)
    requires i + 1 < 58
    ensures RunOf(i) < RunOf(i + 1)
  {
  }

  lemma AlphabetAscends(i: nat)
    requires i + 1 < 58
    ensures ALPHABET[i] < ALPHABET[i + 1]
  {
    AlphabetRuns(i);
    AlphabetRuns(i + 1);
    RunAscends(i);
  }

  lemma {:induction false} AlphabetStrictlyAscends(i: nat, j: nat)
    requires i < j < 58
    ensures ALPHABET[i] < ALPHABET[j]
    decreases j
  {
    AlphabetAscends(j - 1);
    if i < j - 1 {
      AlphabetStrictlyAscends(i, j - 1);
    }
  }

  /** It is the digits and letters without 0, I, O and l. */
  lemma AlphabetExactly(c: char)
    ensures c in ALPHABET
       <==> && (('0' <= c <= '9') || ('A' <= c <= 'Z') || ('a' <= c <= 'z'))
            && c != '0' && c != 'I' && c != 'O' && c != 'l'
  {
  }

  /** The position of c in the alphabet at or after `start`, or 58. */
  function Find(c: char, start: nat): (d: nat)
    requires start <= 58
    ensures start <= d <= 58
    ensures d < 58 ==> ALPHABET[d] == c
    ensures d == 58 ==> forall i | start <= i < 58 :: ALPHABET[i] != c
    decreases 58 - start
  {
    if start == 58 then 58 else if ALPHABET[start] == c then start else Find(c, start + 1)
  }

  /** The digit a character stands for; 58 for a stray character. */
  function DigitOf(c: char): nat {
    Find(c, 0)
  }

  lemma DigitOfChar(d: nat)
    requires d < 58
    ensures DigitOf(ALPHABET[d]) == d
  {
    var e := DigitOf(ALPHABET[d]);
    if e < d {
      AlphabetStrictlyAscends(e, d);
    } else if d < e < 58 {
      AlphabetStrictlyAscends(d, e);
    }
  }

  function Chars(ds: seq<nat>): string
    requires ValidDigits(58, ds)
  {
    seq(|ds|, i requires 0 <= i < |ds| => ALPHABET[ds[i]])
  }

  function CharDigits(text: string): seq<nat> {
    seq(|text|, i requires 0 <= i < |text| => DigitOf(text[i]))
  }

  /** Only characters of the alphabet. */
  predicate IsBase58(text: string) {
    ValidDigits(58, CharDigits(text))
  }

  lemma DigitsOfChars(ds: seq<nat>)
    requires ValidDigits(58, ds)
    ensures CharDigits(Chars(ds)) == ds
  {
    forall i | 0 <= i < |ds| ensures CharDigits(Chars(ds))[i] == ds[i] {
      DigitOfChar(ds[i]);
    }
  }

  lemma CharsOfDigits(text: string)
    requires IsBase58(text)
    ensures Chars(CharDigits(text)) == text
  {
  }

  // ---- what encoding and decoding mean ---------------------------------------------------

  /** base58btc of a byte string: its number in base 58, its leading zero bytes as leading zero digits. */
  function Encoded(data: Bytes): string {
    RecodeValid(256, 58, data);
    Chars(Recode(256, 58, data))
  }

  /** The position of the first stray character at or after `start`, or the end of the text. */
  function StrayAt(text: string, start: nat): (k: nat)
    requires start <= |text|
    ensures start <= k <= |text|
    ensures k < |text| ==> DigitOf(text[k]) == 58
    ensures forall j | start <= j < k :: DigitOf(text[j]) < 58
    decreases |text| - start
  {
    if start == |text| || DigitOf(text[start]) == 58 then start else StrayAt(text, start + 1)
  }

  /** The byte string a base58btc text stands for, or its first stray character. */
  function Decoded(text: string): Result<Bytes> {
    var k := StrayAt(text, 0);
    if k == |text| then Ok(Recode(58, 256, CharDigits(text))) else Err(InvalidCharacter(text[k]))
  }

  /** Every byte string survives encoding and decoding. */
  lemma DecodeEncode(data: Bytes)
    requires AreBytes(data)
    ensures Decoded(Encoded(data)) == Ok(data)
  {
    var ds := Recode(256, 58, data);
    RecodeValid(256, 58, data);
    DigitsOfChars(ds);
    NoStray(Encoded(data));
    RecodeRoundTrip(256, 58, data);
  }

  /** Every text over the alphabet is the encoding of what it decodes to; all others are refused. */
  lemma EncodeDecode(text: string)
    ensures Decoded(text).Ok? <==> IsBase58(text)
    ensures Decoded(text).Ok? ==> AreBytes(Decoded(text).value) && Encoded(Decoded(text).value) == text
  {
    NoStray(text);
    if IsBase58(text) {
      RecodeValid(58, 256, CharDigits(text));
      RecodeRoundTrip(58, 256, CharDigits(text));
      CharsOfDigits(text);
    }
  }

  // ---- the big-integer procedures ----------------------------------------------------------

  lemma ReadOne(b: Base, ds: seq<nat>, i: nat)
    requires i < |ds|
    ensures FromDigits(b, ds[..i + 1]) == FromDigits(b, ds[..i]) * b + ds[i]
  {
    assert ds[..i + 1][..i] == ds[..i];
  }

  lemma ReadAll(b: Base, ds: seq<nat>)
    ensures FromDigits(b, ds[..|ds|]) == FromDigits(b, ds)
  {
    assert ds[..|ds|] == ds;
  }

  /** `_b58encode`. `int.from_bytes` is reading the bytes as base-256 digits. */
  method B58Encode(data: Bytes) returns (text: string)
    ensures text == Encoded(data)
  {
    hide FromDigits, Encoded;
    var leadingZeros := LeadingZeros(data);
    var number := FromDigits(256, data);
    ghost var whole := number;
    var digits: string := "";
    ghost var ds: seq<nat> := [];
    while number > 0
      invariant ValidDigits(58, ds) && digits == Chars(ds)
      invariant ToDigits(58, number) + ds == ToDigits(58, whole)
      decreases number
    {
      Divide(58, number);
      var remainder := number % 58;
      ds := [remainder] + ds;
      number := number / 58;
      digits := [ALPHABET[remainder]] + digits;
    }
    EncodedFrom(data, ds);
    text := seq(leadingZeros, _ => '1') + digits;
  }

  lemma EncodedFrom(data: Bytes, ds: seq<nat>)
    requires ds == ToDigits(58, FromDigits(256, data))
    ensures ValidDigits(58, ds) && Encoded(data) == seq(LeadingZeros(data), _ => '1') + Chars(ds)
  {
    RecodeValid(256, 58, data);
    ToDigitsShape(58, FromDigits(256, data));
    ZeroChars(LeadingZeros(data), ds);
  }

  lemma ZeroChars(n: nat, ds: seq<nat>)
    requires ValidDigits(58, ds)
    ensures Chars(Zeros(n) + ds) == seq(n, _ => '1') + Chars(ds)
  {
  }

  function BitLength(n: nat): nat {
    if n == 0 then 0 else 1 + BitLength(n / 2)
  }

  lemma EightBits(n: nat)
    requires n >= 256
    ensures BitLength(n) == 8 + BitLength(n / 256)
  {
    FourBits(n);
    FourBits(n / 16);
    assert n / 16 / 16 == n / 256;
  }

  lemma FourBits(n: nat)
    requires n >= 16
    ensures BitLength(n) == 4 + BitLength(n / 16)
  {
    assert BitLength(n) == 1 + BitLength(n / 2);
    assert BitLength(n / 2) == 1 + BitLength(n / 4);
    assert BitLength(n / 4) == 1 + BitLength(n / 8);
    assert BitLength(n / 8) == 1 + BitLength(n / 16);
  }

  lemma FewBits(n: nat)
    requires n < 16
    ensures BitLength(n) <= 4 && (n > 0 ==> BitLength(n) >= 1)
  {
    assert BitLength(n) <= 1 + BitLength(n / 2);
    assert BitLength(n / 2) <= 1 + BitLength(n / 4);
    assert BitLength(n / 4) <= 1 + BitLength(n / 8);
    assert BitLength(n / 8) <= 1;
  }

  lemma OneByteBits(n: nat)
    requires 0 < n < 256
    ensures 1 <= BitLength(n) <= 8
  {
    if n >= 16 {
      FourBits(n);
      FewBits(n / 16);
    } else {
      FewBits(n);
    }
  }

  /** `(bit_length + 7) // 8` is the number of bytes of the shortest form. */
  lemma {:induction false} ByteLength(n: nat)
    ensures |ToDigits(256, n)| == (BitLength(n) + 7) / 8
  {
    if n >= 256 {
      EightBits(n);
      ByteLength(n / 256);
    } else if n > 0 {
      OneByteBits(n);
      assert ToDigits(256, n / 256) == [];
    }
  }

  /** `int.to_bytes(length, "big")`. */
  function ToBytes(n: nat, length: nat): Bytes {
    if length == 0 then [] else ToBytes(n / 256, length - 1) + [n % 256]
  }

  lemma {:induction false} ShortestBytes(n: nat, length: nat)
    requires length == |ToDigits(256, n)|
    ensures ToBytes(n, length) == ToDigits(256, n)
  {
    if n > 0 {
      ShortestBytes(n / 256, length - 1);
    }
  }

  /** `_b58decode`. */
  method B58Decode(text: string) returns (r: Result<Bytes>)
    ensures r == Decoded(text)
  {
    var ds := CharDigits(text);
    var number := 0;
    for i := 0 to |text|
      invariant ValidDigits(58, ds[..i])
      invariant number == FromDigits(58, ds[..i])
    {
      var value := DigitOf(text[i]);
      if value == 58 {
        StrayFound(text, ds, i);
        return Err(InvalidCharacter(text[i]));
      }
      ReadOne(58, ds, i);
      assert ds[..i + 1] == ds[..i] + [ds[i]];
      number := number * 58 + value;
    }
    ReadAll(58, ds);
    assert ds[..|text|] == ds;
    var leadingZeros := LeadingOnes(text);
    var body: Bytes := [];
    if number > 0 {
      ByteLength(number);
      ShortestBytes(number, (BitLength(number) + 7) / 8);
      body := ToBytes(number, (BitLength(number) + 7) / 8);
    }
    OnesAreZeros(text);
    NoStray(text);
    r := Ok(Zeros(leadingZeros) + body);
  }

  function LeadingOnes(text: string): (n: nat)
    ensures n <= |text|
  {
    if text == "" || text[0] != '1' then 0 else 1 + LeadingOnes(text[1..])
  }

  lemma {:induction false} OnesAreZeros(text: string)
    requires IsBase58(text)
    ensures LeadingOnes(text) == LeadingZeros(CharDigits(text))
    decreases |text|
  {
    if text != "" {
      DigitOfChar(0);
      assert ALPHABET[0] == '1';
      assert CharDigits(text)[0] == DigitOf(text[0]);
      assert CharDigits(text)[1..] == CharDigits(text[1..]);
      OnesAreZeros(text[1..]);
    }
  }

  lemma NoStray(text: string)
    ensures StrayAt(text, 0) == |text| <==> IsBase58(text)
  {
    hide DigitOf;
    var k, ds := StrayAt(text, 0), CharDigits(text);
    forall j | 0 <= j < |text| ensures ds[j] == DigitOf(text[j]) {}
  }

  lemma StrayFound(text: string, ds: seq<nat>, i: nat)
    requires ds == CharDigits(text)
    requires i < |text| && ValidDigits(58, ds[..i]) && DigitOf(text[i]) == 58
    ensures Decoded(text) == Err(InvalidCharacter(text[i]))
  {
    assert forall j | 0 <= j < i :: ds[..i][j] == DigitOf(text[j]);
  }
}
