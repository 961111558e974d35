/**
 * A reader of JSON texts without insignificant whitespace, written from the grammar (RFC 8259), and of the Unicode
 * encodings (RFC 3629, RFC 2781). What canonical JSON writes they read back as the value that was meant.
 */
module JsonReader {
  import opened Codes
  import opened Digits
  import opened Jcs
  import opened JcsCanonical

  datatype Option<T> = None | Some(value: T)

  datatype Read<T> = Got(value: T, rest: string) | Bad

  // ---- strings and numbers -----------------------------------------------------------------------

  function HexValue(c: char): int {
    var n := c as int;
    if 48 <= n <= 57 then n - 48
    else if 97 <= n <= 102 then n - 87
    else if 65 <= n <= 70 then n - 55
    else -1
  }

  /** The number of four hexadecimal digits, or -1. */
  function HexNumber(x: string): int
    requires |x| == 4
  {
    var a, b, c, d := HexValue(x[0]), HexValue(x[1]), HexValue(x[2]), HexValue(x[3]);
    if a < 0 || b < 0 || c < 0 || d < 0 then -1 else ((a * 16 + b) * 16 + c) * 16 + d
  }

  /** The character a backslash sequence stands for, and what follows it; halves of surrogate pairs are refused. */
  function ReadEscape(x: string): (r: Read<char>)
    ensures r.Got? ==> |r.rest| < |x|
  {
    if x == "" then Bad
    else if x[0] == '"' || x[0] == '\\' || x[0] == '/' then Got(x[0], x[1..])
    else if x[0] == 'b' then Got(8 as char, x[1..])
    else if x[0] == 'f' then Got(12 as char, x[1..])
    else if x[0] == 'n' then Got(10 as char, x[1..])
    else if x[0] == 'r' then Got(13 as char, x[1..])
    else if x[0] == 't' then Got(9 as char, x[1..])
    else if x[0] == 'u' && |x| >= 5 then
      var n := HexNumber(x[1..5]);
      if n < 0 || 0xD800 <= n < 0xE000 || n >= 0x10000 then Bad else Got(n as char, x[5..])
    else Bad
  }

  /** The characters up to the closing quote. */
  function ReadChars(x: string): (r: Read<string>)
    ensures r.Got? ==> |r.rest| < |x|
    decreases |x|
  {
    if x == "" || x[0] as int < 0x20 then Bad
    else if x[0] == '"' then Got("", x[1..])
    else if x[0] == '\\' then
      var first := ReadEscape(x[1..]);
      if first.Bad? then Bad
      else
        var more := ReadChars(first.rest);
        if more.Bad? then Bad else Got([first.value] + more.value, more.rest)
    else
      var more := ReadChars(x[1..]);
      if more.Bad? then Bad else Got([x[0]] + more.value, more.rest)
  }

  function DigitValue(c: char): nat
    requires IsDigit(c)
  {
    var n := c as int;
    n - 48
  }

  /** The number written by a run of digits that follows a number already read. */
  function ReadDigits(x: string, sofar: nat): (r: (nat, string))
    ensures |r.1| <= |x|
    decreases |x|
  {
    if x == "" || !IsDigit(x[0]) then (sofar, x) else ReadDigits(x[1..], 10 * sofar + DigitValue(x[0]))
  }

  /** A zero, or digits of which the first is not zero; a fraction or an exponent is no integer. */
  function ReadNat(x: string): (r: Read<nat>)
    ensures r.Got? ==> |r.rest| < |x|
  {
    if x == "" || !IsDigit(x[0]) then Bad
    else
      var first := DigitValue(x[0]);
      var run: (nat, string) := if first == 0 then (first, x[1..]) else ReadDigits(x[1..], first);
      var rest := run.1;
      if rest != "" && (rest[0] == '.' || rest[0] == 'e' || rest[0] == 'E' || IsDigit(rest[0])) then Bad
      else Got(run.0, rest)
  }

  function Negated(n: int): int {
    -n
  }

  function ReadInt(x: string): (r: Read<int>)
    ensures r.Got? ==> |r.rest| < |x|
  {
    if x != "" && x[0] == '-' then
      var r := ReadNat(x[1..]);
      if r.Bad? then Bad else Got(Negated(r.value), r.rest)
    else
      var r := ReadNat(x);
      if r.Bad? then Bad else Got(r.value, r.rest)
  }

  // ---- values ------------------------------------------------------------------------------------------

  function ReadJson(x: string): (r: Read<Value>)
    ensures r.Got? ==> |r.rest| < |x|
    decreases |x|, 0
  {
    if x == "" then Bad
    else if "null" <= x then Got(NullValue, x[4..])
    else if "true" <= x then Got(BoolValue(true), x[4..])
    else if "false" <= x then Got(BoolValue(false), x[5..])
    else if x[0] == '"' then
      var r := ReadChars(x[1..]);
      if r.Bad? then Bad else Got(StrValue(r.value), r.rest)
    else if x[0] == '[' then
      if |x| > 1 && x[1] == ']' then Got(ArrValue([]), x[2..])
      else
        var r := ReadItems(x[1..]);
        if r.Bad? then Bad else Got(ArrValue(r.value), r.rest)
    else if x[0] == '{' then
      if |x| > 1 && x[1] == '}' then Got(ObjValue(map[]), x[2..])
      else
        var r := ReadMembers(x[1..]);
        if r.Bad? then Bad else Got(ObjValue(r.value), r.rest)
    else
      var r := ReadInt(x);
      if r.Bad? then Bad else Got(IntValue(r.value), r.rest)
  }

  /** Values separated by commas, up to the closing bracket. */
  function ReadItems(x: string): (r: Read<seq<Value>>)
    ensures r.Got? ==> |r.rest| < |x|
    decreases |x|, 1
  {
    var first := ReadJson(x);
    if first.Bad? || first.rest == "" then Bad
    else if first.rest[0] == ']' then Got([first.value], first.rest[1..])
    else if first.rest[0] == ',' then
      var more := ReadItems(first.rest[1..]);
      if more.Bad? then Bad else Got([first.value] + more.value, more.rest)
    else Bad
  }

  /** Quoted names with values, separated by commas, up to the closing brace; of one name the last value counts. */
  function ReadMembers(x: string): (r: Read<map<string, Value>>)
    ensures r.Got? ==> |r.rest| < |x|
    decreases |x|, 1
  {
    if x == "" || x[0] != '"' then Bad
    else
      var name := ReadChars(x[1..]);
      if name.Bad? || name.rest == "" || name.rest[0] != ':' then Bad
      else
        var first := ReadJson(name.rest[1..]);
        if first.Bad? || first.rest == "" then Bad
        else if first.rest[0] == '}' then Got(map[name.value := first.value], first.rest[1..])
        else if first.rest[0] == ',' then
          var more := ReadMembers(first.rest[1..]);
          if more.Bad? then Bad else Got(map[name.value := first.value] + more.value, more.rest)
        else Bad
  }

  // ---- what the printer writes is read back: strings ----------------------------------------------------

  lemma HexReads(n: nat)
    requires n < 16
    ensures HexValue(HEX[n]) == n
  {
  }

  /** What reading a string comes to once one more character is in front. */
  function InFront(c: char, r: Read<string>): Read<string> {
    if r.Bad? then Bad else Got([c] + r.value, r.rest)
  }

  lemma LiteralReads(c: char, x: string)
    requires JcsCanonical.Plain(c)
    ensures ReadChars([c] + x) == InFront(c, ReadChars(x))
  {
    assert ([c] + x)[1..] == x;
  }

  lemma ShortReads(c: char, e: char, x: string)
    requires ReadEscape([e] + x) == Got(c, x)
    ensures ReadChars(['\\', e] + x) == InFront(c, ReadChars(x))
  {
    hide ReadEscape;
    var t := ['\\', e] + x;
    assert t[0] == '\\' && t[1..] == [e] + x;
  }

  lemma ControlReads(n: nat, x: string)
    requires n < 0x20
    ensures ReadChars("\\u00" + [HEX[n / 16], HEX[n % 16]] + x) == InFront(n as char, ReadChars(x))
  {
    HexReads(n / 16);
    HexReads(n % 16);
    var t := "\\u00" + [HEX[n / 16], HEX[n % 16]] + x;
    var y := t[1..];
    assert y[0] == 'u' && y[1..5] == ['0', '0', HEX[n / 16], HEX[n % 16]] && y[5..] == x;
    assert HexNumber(y[1..5]) == n;
    assert ReadEscape(y) == Got(n as char, x);
  }

  lemma EscapeReads(c: char, x: string)
    ensures ReadChars(EscapeChar()(c) + x) == InFront(c, ReadChars(x))
  {
    var e := EscapeChar()(c);
    if JcsCanonical.Plain(c) {
      assert e == [c];
      LiteralReads(c, x);
    } else if |e| == 2 {
      assert e == ['\\', e[1]] && ([e[1]] + x)[1..] == x;
      hide ReadChars;
      assert ReadEscape([e[1]] + x) == Got(c, x);
      ShortReads(c, e[1], x);
    } else {
      assert e == "\\u00" + [HEX[c as int / 16], HEX[c as int % 16]];
      hide ReadChars;
      ControlReads(c as int, x);
      SameChar(c, c as int as char);
    }
  }

  lemma {:induction false} CharsRead(s: string, x: string)
    ensures ReadChars(Encode(EscapeChar(), s) + ("\"" + x)) == Got(s, x)
  {
    if s == "" {
      assert Encode(EscapeChar(), s) + ("\"" + x) == "\"" + x && ("\"" + x)[1..] == x;
    } else {
      CharsRead(s[1..], x);
      var e, tail := EscapeChar()(s[0]), Encode(EscapeChar(), s[1..]) + ("\"" + x);
      assert Encode(EscapeChar(), s) + ("\"" + x) == e + tail;
      EscapeReads(s[0], tail);
      assert [s[0]] + s[1..] == s;
    }
  }

  lemma QuoteReads(s: string, x: string)
    ensures Quote(s) + x != "" && (Quote(s) + x)[0] == '"' && ReadChars((Quote(s) + x)[1..]) == Got(s, x)
  {
    QuoteText(s, x);
    CharsRead(s, x);
    var t := Encode(EscapeChar(), s) + ("\"" + x);
    assert ("\"" + t)[1..] == t;
  }

  /**
   * Of the ways to write a character the canonical one is taken (section 3.2.2.2 of RFC 8785): itself unless that
   * is forbidden, else the short form if there is one, else four digits in lower case.
   */
  lemma EscapesAreCanonical(c: char)
    ensures
      var e, n := EscapeChar()(c), c as int;
      if c == '"' then e == "\\\"" else if c == '\\' then e == "\\\\"
      else if n >= 0x20 then e == [c]
      else if n == 8 then e == "\\b" else if n == 9 then e == "\\t" else if n == 10 then e == "\\n"
      else if n == 12 then e == "\\f" else if n == 13 then e == "\\r"
      else |e| == 6 && e[..4] == "\\u00" && HexNumber(e[2..]) == n && forall i | 2 <= i < 6 :: !('A' <= e[i] <= 'F')
  {
    if c as int < 0x20 {
      var n: nat := c as int;
      HexReads(n / 16);
      HexReads(n % 16);
      LowerCase(n / 16);
      LowerCase(n % 16);
    }
  }

  lemma LowerCase(n: nat)
    requires n < 16
    ensures !('A' <= HEX[n] <= 'F')
  {
  }

  // ---- numbers ---------------------------------------------------------------------------------------------

  /** The number that digits write after a number already read. */
  function Fold(ds: seq<nat>, sofar: nat): nat {
    if ds == [] then sofar else Fold(ds[1..], 10 * sofar + ds[0])
  }

  lemma {:induction false} FoldLast(ds: seq<nat>, d: nat, sofar: nat)
    ensures Fold(ds + [d], sofar) == 10 * Fold(ds, sofar) + d
  {
    if ds == [] {
      assert [d][1..] == [];
    } else {
      assert (ds + [d])[0] == ds[0] && (ds + [d])[1..] == ds[1..] + [d];
      FoldLast(ds[1..], d, 10 * sofar + ds[0]);
    }
  }

  lemma {:induction false} FoldIsNumeral(ds: seq<nat>)
    ensures Fold(ds, 0) == FromDigits(10, ds)
    decreases |ds|
  {
    if ds != [] {
      var n := |ds| - 1;
      FoldIsNumeral(ds[..n]);
      FoldLast(ds[..n], ds[n], 0);
      assert ds == ds[..n] + [ds[n]];
    }
  }

  lemma {:induction false} DigitsRead(ds: seq<nat>, x: string, sofar: nat)
    requires ValidDigits(10, ds) && (x == "" || !IsDigit(x[0]))
    ensures ReadDigits(DecimalChars(ds) + x, sofar) == (Fold(ds, sofar), x)
  {
    var t := DecimalChars(ds) + x;
    if ds == [] {
      assert t == x;
    } else {
      FirstDigit(ds, x);
      DigitsRead(ds[1..], x, 10 * sofar + ds[0]);
    }
  }

  lemma DigitChar(d: nat)
    requires d < 10
    ensures IsDigit((d + 48) as char) && DigitValue((d + 48) as char) == d
  {
    assert ((d + 48) as char) as int == d + 48;
  }

  lemma FirstDigit(ds: seq<nat>, x: string)
    requires ValidDigits(10, ds) && ds != []
    ensures
      var t := DecimalChars(ds) + x;
      t != "" && IsDigit(t[0]) && DigitValue(t[0]) == ds[0] && t[1..] == DecimalChars(ds[1..]) + x
  {
    DigitChar(ds[0]);
  }

  /** A run of digits that does not start with a zero. */
  lemma RunReads(ds: seq<nat>, x: string)
    requires ValidDigits(10, ds) && ds != [] && ds[0] != 0 && Stops(x)
    ensures ReadNat(DecimalChars(ds) + x) == Got(FromDigits(10, ds), x)
  {
    FoldIsNumeral(ds);
    FirstDigit(ds, x);
    DigitsRead(ds[1..], x, ds[0]);
    assert Fold(ds, 0) == Fold(ds[1..], ds[0]);
    hide FromDigits, ReadDigits, Fold, DecimalChars;
  }

  lemma NatReads(n: nat, x: string)
    requires Stops(x)
    ensures Decimal(n) + x != "" && (Decimal(n) + x)[0] != '-' && ReadNat(Decimal(n) + x) == Got(n, x)
  {
    DecimalDigits(n);
    assert (Decimal(n) + x)[0] == Decimal(n)[0] && IsDigit(Decimal(n)[0]);
    if n == 0 {
      assert ("0" + x)[1..] == x && IsDigit('0');
    } else {
      ToDigitsShape(10, n);
      FromToDigits(10, n);
      hide ToDigits, FromDigits, ReadNat;
      RunReads(ToDigits(10, n), x);
    }
  }

  lemma IntReads(n: int, x: string)
    requires Stops(x)
    ensures ReadInt(IntText(n) + x) == Got(n, x)
  {
    IntTextParts(n, x);
    NatReads(Magnitude(n), x);
    if n < 0 {
      var t := Decimal(Magnitude(n)) + x;
      assert ("-" + t)[1..] == t;
    }
  }

  // ---- values ----------------------------------------------------------------------------------------------

  lemma Opened(c: string, t: string)
    requires |c| == 1
    ensures (c + t)[0] == c[0] && (c + t)[1..] == t
  {
  }

  /** The leading character sends the reader the right way. */
  lemma LeadReads(t: string, c: char)
    requires t != "" && t[0] == c
    ensures c != 'n' ==> !("null" <= t)
    ensures c != 't' ==> !("true" <= t)
    ensures c != 'f' ==> !("false" <= t)
  {
  }

  /** What is printed is read back as what it denotes, and what follows is left. */
  lemma {:induction false} ValueReads(v: Json, x: string)
    requires Good(v) && Stops(x)
    ensures ReadJson(Canon(v) + x) == Got(Denote(v), x)
    decreases v, 1, 0
  {
    var t := Canon(v) + x;
    Lead(v);
    LeadReads(t, t[0]);
    match v
    case Null => assert t[..4] == "null" && t[4..] == x;
    case Bool(b) => assert if b then t[..4] == "true" && t[4..] == x else t[..5] == "false" && t[5..] == x;
    case Int(n) => IntReads(n, x);
    case Str(s) => QuoteReads(s, x);
    case Arr(items) => ArrayReads(v, x);
    case Obj(fields) => ObjectReads(v, x);
  }

  lemma {:induction false} ArrayReads(v: Json, x: string)
    requires v.Arr? && Good(v)
    ensures ReadJson(Canon(v) + x) == Got(Denote(v), x)
    decreases v, 0, |v.items| + 1
  {
    var body := ItemsText(v, v.items) + "]" + x;
    assert Canon(v) == "[" + ItemsText(v, v.items) + "]";
    AfterOpen("[", ItemsText(v, v.items), "]", x);
    Opened("[", body);
    LeadReads("[" + body, '[');
    ItemAhead(v, v.items, x);
    if v.items == [] {
      assert ("[" + body)[2..] == x;
    } else {
      hide ItemsText, Canon, ReadItems;
      ItemsRead(v, v.items, x);
    }
    assert Denote(v) == ArrValue(DenoteAll(v.items));
  }

  function DenoteAll(items: seq<Json>): seq<Value> {
    seq(|items|, i requires 0 <= i < |items| => Denote(items[i]))
  }

  lemma LastItem(x: string, first: Value, rest: string)
    requires ReadJson(x) == Got(first, "]" + rest)
    ensures ReadItems(x) == Got([first], rest)
  {
    Opened("]", rest);
  }

  lemma MoreItems(x: string, first: Value, rest: string, more: seq<Value>, end: string)
    requires ReadJson(x) == Got(first, "," + rest) && ReadItems(rest) == Got(more, end)
    ensures ReadItems(x) == Got([first] + more, end)
  {
    Opened(",", rest);
    hide ReadJson;
  }

  lemma DenoteFirst(items: seq<Json>)
    requires items != []
    ensures DenoteAll(items) == [Denote(items[0])] + DenoteAll(items[1..])
    ensures items[1..] == [] ==> DenoteAll(items[1..]) == []
  {
    hide Denote;
  }

  lemma {:induction false} ItemsRead(v: Json, items: seq<Json>, x: string)
    requires items != [] && forall i | i in items :: i < v && Good(i)
    ensures ReadItems(ItemsText(v, items) + "]" + x) == Got(DenoteAll(items), x)
    decreases v, 0, |items|
  {
    hide ItemsText, ItemsTail, Canon, Denote, DenoteAll, ReadJson, ReadItems, Stops;
    assert items[0] in items && forall i | i in items[1..] :: i in items;
    ItemAhead(v, items, x);
    ItemsTailAhead(v, items[1..], x);
    DenoteFirst(items);
    hide Good;
    var t := ItemsText(v, items) + "]" + x;
    ValueReads(items[0], ItemsTail(v, items[1..]) + "]" + x);
    if items[1..] == [] {
      LastItem(t, Denote(items[0]), x);
      assert [Denote(items[0])] + [] == [Denote(items[0])];
    } else {
      ItemsRead(v, items[1..], x);
      MoreItems(t, Denote(items[0]), ItemsText(v, items[1..]) + "]" + x, DenoteAll(items[1..]), x);
    }
  }

  lemma {:induction false} ObjectReads(v: Json, x: string)
    requires v.Obj? && Good(v)
    ensures ReadJson(Canon(v) + x) == Got(Denote(v), x)
    decreases v, 0, |v.fields| + 1
  {
    var fields := SortFields(v.fields);
    SortedAreGood(v);
    SortingDenotesSame(v);
    var body := FieldsText(v, fields) + "}" + x;
    assert Canon(v) == "{" + FieldsText(v, fields) + "}";
    AfterOpen("{", FieldsText(v, fields), "}", x);
    FieldAhead(v, fields, x);
    if fields == [] {
      assert DenoteFields(v, fields) == map[];
      NoMembers(x);
    } else {
      hide FieldsText, Canon, ReadMembers, ReadJson;
      MembersRead(v, fields, x);
      SomeMembers(body, DenoteFields(v, fields), x);
    }
  }

  lemma NoMembers(x: string)
    ensures ReadJson("{" + ("}" + x)) == Got(ObjValue(map[]), x)
  {
    var t := "{" + ("}" + x);
    LeadReads(t, '{');
    assert t[1] == '}' && t[2..] == x;
  }

  lemma SomeMembers(body: string, m: map<string, Value>, x: string)
    requires body != "" && body[0] != '}' && ReadMembers(body) == Got(m, x)
    ensures ReadJson("{" + body) == Got(ObjValue(m), x)
  {
    Opened("{", body);
    LeadReads("{" + body, '{');
    assert ("{" + body)[1] == body[0];
    hide ReadMembers;
  }

  lemma LastMember(x: string, k: string, text: string, first: Value, rest: string)
    requires x != "" && x[0] == '"' && ReadChars(x[1..]) == Got(k, ":" + text)
    requires ReadJson(text) == Got(first, "}" + rest)
    ensures ReadMembers(x) == Got(map[k := first], rest)
  {
    Opened(":", text);
    Opened("}", rest);
    hide ReadJson, ReadChars;
  }

  lemma MoreMembers(x: string, k: string, text: string, first: Value, rest: string, more: map<string, Value>,
                    end: string)
    requires x != "" && x[0] == '"' && ReadChars(x[1..]) == Got(k, ":" + text)
    requires ReadJson(text) == Got(first, "," + rest)
    requires ReadMembers(rest) == Got(more, end)
    ensures ReadMembers(x) == Got(map[k := first] + more, end)
  {
    Opened(":", text);
    Opened(",", rest);
    hide ReadJson, ReadChars;
  }

  lemma {:induction false} MembersRead(v: Json, fields: seq<Field>, x: string)
    requires fields != [] && forall f | f in fields :: f.value < v && Good(f.value)
    ensures ReadMembers(FieldsText(v, fields) + "}" + x) == Got(DenoteFields(v, fields), x)
    decreases v, 0, |fields|
  {
    var f, more := fields[0], fields[1..];
    assert f in fields && forall g | g in more :: g in fields;
    FieldAhead(v, fields, x);
    FieldsTailAhead(v, more, x);
    FirstField(v, fields);
    assert more == [] ==> DenoteFields(v, more) == map[];
    hide FieldsText, FieldsTail, FieldText, Quote, Canon, Denote, DenoteFields, ReadJson, ReadChars, ReadMembers, Good,
         Stops;
    var t, tail := FieldsText(v, fields) + "}" + x, FieldsTail(v, more) + "}" + x;
    FieldTextParts(f, tail);
    QuoteReads(f.key, ":" + (Canon(f.value) + tail));
    ValueReads(f.value, tail);
    if more == [] {
      LastMember(t, f.key, Canon(f.value) + tail, Denote(f.value), x);
    } else {
      MembersRead(v, more, x);
      MoreMembers(t, f.key, Canon(f.value) + tail, Denote(f.value), FieldsText(v, more) + "}" + x,
                  DenoteFields(v, more), x);
    }
  }

  /** The fields of an object, taken from the front. */
  lemma {:induction false} FirstField(v: Json, fields: seq<Field>)
    requires fields != [] && forall f | f in fields :: f.value < v
    ensures forall f | f in fields[1..] :: f.value < v
    ensures DenoteFields(v, fields) == map[fields[0].key := Denote(fields[0].value)] + DenoteFields(v, fields[1..])
    decreases |fields|
  {
    var n, more := |fields| - 1, fields[1..];
    forall f | f in more ensures f.value < v {
      assert f in fields;
    }
    if n == 0 {
      assert fields[..0] == [];
    } else {
      var first := fields[..n];
      FirstField(v, first);
      assert first[1..] == more[..n - 1] && more[n - 1] == fields[n] && first[0] == fields[0];
      LastField(v, fields);
      LastField(v, more);
      hide DenoteFields, Denote;
      UpdateLater(map[fields[0].key := Denote(fields[0].value)], DenoteFields(v, first[1..]), fields[n].key,
                  Denote(fields[n].value));
    }
  }

  lemma LastField(v: Json, fields: seq<Field>)
    requires fields != [] && forall f | f in fields :: f.value < v
    ensures (forall f | f in fields[..|fields| - 1] :: f.value < v)
    ensures DenoteFields(v, fields)
         == DenoteFields(v, fields[..|fields| - 1])[fields[|fields| - 1].key := Denote(fields[|fields| - 1].value)]
  {
  }

  lemma UpdateLater(a: map<string, Value>, b: map<string, Value>, k: string, x: Value)
    ensures (a + b)[k := x] == a + b[k := x]
  {
  }

  // ---- bytes -------------------------------------------------------------------------------------------------

  /** The bits that a continuation byte adds. */
  function More(sofar: int, byte: nat): int {
    sofar * 0x40 + (byte - 0x80)
  }

  /** One character off the front of UTF-8 bytes, and how many bytes it took. */
  function ReadUtf8(x: seq<nat>): (r: (int, nat))
    ensures r.1 <= |x|
  {
    if x == [] then (-1, 0)
    else
      var lead: int := x[0];
      if lead < 0x80 then (lead, 1)
      else if 0xC0 <= lead < 0xE0 && |x| >= 2 then (More(lead - 0xC0, x[1]), 2)
      else if 0xE0 <= lead < 0xF0 && |x| >= 3 then (More(More(lead - 0xE0, x[1]), x[2]), 3)
      else if 0xF0 <= lead < 0xF8 && |x| >= 4 then (More(More(More(lead - 0xF0, x[1]), x[2]), x[3]), 4)
      else (-1, 0)
  }

  function FromUtf8(x: seq<nat>): Option<string>
    decreases |x|
  {
    if x == [] then Some("")
    else
      var (n, used) := ReadUtf8(x);
      if used == 0 || !(0 <= n < 0xD800 || 0xE000 <= n < 0x110000) then None
      else
        var more := FromUtf8(x[used..]);
        if more.None? then None else Some([n as char] + more.value)
  }

  lemma CharReads(c: char, x: seq<nat>)
    ensures ReadUtf8(Utf8Char()(c) + x) == (c as int, |Utf8Char()(c)|) && |Utf8Char()(c)| > 0
  {
    Utf8Number(c as int);
    var e := Utf8Char()(c);
    assert forall i | 0 <= i < |e| :: (e + x)[i] == e[i];
  }

  lemma {:induction false} Utf8Reads(s: string)
    ensures FromUtf8(Utf8(s)) == Some(s)
  {
    if s != "" {
      var e, tail := Utf8Char()(s[0]), Utf8(s[1..]);
      Utf8Reads(s[1..]);
      CharReads(s[0], tail);
      assert Utf8(s) == e + tail && (e + tail)[|e|..] == tail;
      SameChar(s[0], s[0] as int as char);
      assert [s[0]] + s[1..] == s;
    }
  }

  /** Whatever has a canonical form is read back from its bytes as the value that was meant. */
  lemma CanonicalReads(v: Json)
    requires WellFormed(v) && FloatFree(v)
    ensures
      var text := FromUtf8(Canonicalize(v).bytes);
      text.Some? && ReadJson(text.value) == Got(Denote(v), "")
  {
    Utf8Reads(Canon(v));
    ValueReads(v, "");
    assert Canon(v) + "" == Canon(v);
  }

  // ---- the order of keys ---------------------------------------------------------------------------------------

  /** The characters behind UTF-16 code units. */
  function FromUtf16(x: seq<nat>): Option<string>
    decreases |x|
  {
    if x == [] then Some("")
    else if x[0] < 0xD800 || 0xE000 <= x[0] < 0x10000 then
      var more := FromUtf16(x[1..]);
      if more.None? then None else Some([x[0] as char] + more.value)
    else if |x| >= 2 && 0xD800 <= x[0] < 0xDC00 && 0xDC00 <= x[1] < 0xE000 then
      var more := FromUtf16(x[2..]);
      if more.None? then None
      else Some([(0x10000 + (x[0] - 0xD800) * 0x400 + (x[1] - 0xDC00)) as char] + more.value)
    else None
  }

  /** The keys of the sorting example in section 3.2.3 of RFC 8785, in the order it gives. */
  lemma SortingExample()
    ensures
      var keys := ["\r", "1", "\U{0080}", "\U{00f6}", "\U{20ac}", "\U{1f600}", "\U{fb33}"];
      forall i | 0 <= i < 6 :: KeyBefore(keys[i], keys[i + 1])
  {
    OneKey('\r', '1');
    OneKey('1', '\U{0080}');
    OneKey('\U{0080}', '\U{00f6}');
    OneKey('\U{00f6}', '\U{20ac}');
    OneKey('\U{20ac}', '\U{1f600}');
    OneKey('\U{1f600}', '\U{fb33}');
  }

  lemma OneKey(c: char, d: char)
    ensures KeyBefore([c], [d]) <==> Before(Utf16Char()(c), Utf16Char()(d))
  {
    OneChar(c);
    OneChar(d);
  }

  lemma OneChar(c: char)
    ensures Utf16([c]) == Utf16Char()(c)
  {
    var none: string := [c][1..];
    assert none == "" && Encode(Utf16Char(), none) == [];
    assert Utf16Char()(c) + [] == Utf16Char()(c);
  }

  lemma {:induction false} Utf16Reads(s: string)
    ensures FromUtf16(Utf16(s)) == Some(s)
  {
    if s != "" {
      var e, tail := Utf16Char()(s[0]), Utf16(s[1..]);
      Utf16Reads(s[1..]);
      assert Utf16(s) == e + tail && (e + tail)[|e|..] == tail && forall i | 0 <= i < |e| :: (e + tail)[i] == e[i];
      SameChar(s[0], s[0] as int as char);
      assert [s[0]] + s[1..] == s;
    }
  }
}
