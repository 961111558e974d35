/** Canonical JSON is canonical: equal bytes exactly for values that denote the same. */
module JcsCanonical {
  import opened Codes
  import opened Digits
  import opened Jcs

  // ---- strings -----------------------------------------------------------------------------

  lemma ControlCodes(c: char, d: char)
    requires c as int < 0x20 && d as int < 0x20
    requires HEX[c as int / 16] == HEX[d as int / 16] && HEX[c as int % 16] == HEX[d as int % 16]
    ensures c == d
  {
  }

  /** Whether a character is written as itself. */
  predicate Plain(c: char) {
    c != '"' && c != '\\' && c as int >= 0x20
  }

  /** An escaped character is a backslash and a letter, or a backslash, a u and four digits. */
  lemma EscapeShape(c: char)
    ensures var e := EscapeChar()(c);
      && e != [] && (Plain(c) ==> e == [c])
      && (!Plain(c) ==> |e| >= 2 && e[0] == '\\' && (|e| == 2 <==> e[1] != 'u') && (|e| != 2 ==> |e| == 6))
      && (|e| == 6 ==> c as int < 0x20 && e[4] == HEX[c as int / 16] && e[5] == HEX[c as int % 16])
  {
  }

  lemma ShortEscapes(c: char, d: char)
    requires !Plain(c) && !Plain(d)
    requires |EscapeChar()(c)| == 2 && EscapeChar()(c) == EscapeChar()(d)
    ensures c == d
  {
  }

  lemma EscapePrefixFree()
    ensures PrefixFree(EscapeChar())
  {
    forall c ensures EscapeChar()(c) != [] { EscapeShape(c); }
    forall c, d | EscapeChar()(c) <= EscapeChar()(d) ensures c == d {
      EscapeShape(c);
      EscapeShape(d);
      var a, b := EscapeChar()(c), EscapeChar()(d);
      assert a[0] == b[0];
      if !Plain(c) {
        assert a[1] == b[1];
        if |a| == 2 {
          assert a == b;
          ShortEscapes(c, d);
        } else {
          assert a[4] == b[4] && a[5] == b[5];
          ControlCodes(c, d);
        }
      }
    }
  }

  lemma QuoteHalts(z: string)
    ensures Halts(EscapeChar(), "\"" + z)
  {
    forall c ensures !(EscapeChar()(c) <= "\"" + z) {
      EscapeShape(c);
      assert ("\"" + z)[0] == '"';
    }
  }

  lemma QuoteText(s: string, x: string)
    ensures Quote(s) + x == "\"" + (Encode(EscapeChar(), s) + ("\"" + x))
  {
  }

  lemma ReadQuoted(s: string, t: string, x: string, y: string)
    requires Quote(s) + x == Quote(t) + y
    ensures s == t && x == y
  {
    hide EscapeChar;
    EscapePrefixFree();
    QuoteHalts(x);
    QuoteHalts(y);
    QuoteText(s, x);
    QuoteText(t, y);
    var a, b := Encode(EscapeChar(), s) + ("\"" + x), Encode(EscapeChar(), t) + ("\"" + y);
    OneOfTwoIsPrefix("\"", a, "\"", b);
    ReadUniquely(EscapeChar(), s, t, "\"" + x, "\"" + y);
    OneOfTwoIsPrefix("\"", x, "\"", y);
  }

  // ---- integers ----------------------------------------------------------------------------

  predicate IsDigit(c: char) {
    48 <= c as int <= 57
  }

  /** What may follow a value inside a canonical text. */
  predicate Stops(x: string) {
    x == "" || x[0] == ',' || x[0] == ']' || x[0] == '}'
  }

  lemma DecimalDigits(n: nat)
    ensures Decimal(n) != "" && forall i | 0 <= i < |Decimal(n)| :: IsDigit(Decimal(n)[i])
  {
    ToDigitsShape(10, n);
  }

  lemma CharsInjective(a: seq<nat>, b: seq<nat>)
    requires ValidDigits(10, a) && ValidDigits(10, b) && DecimalChars(a) == DecimalChars(b)
    ensures a == b
  {
    assert |a| == |DecimalChars(a)| == |DecimalChars(b)| == |b|;
    forall i | 0 <= i < |a| ensures a[i] == b[i] {
      assert DecimalChars(a)[i] == DecimalChars(b)[i];
      assert ((a[i] + 48) as char) as int == a[i] + 48 && ((b[i] + 48) as char) as int == b[i] + 48;
    }
  }

  lemma DecimalInjective(m: nat, n: nat)
    requires Decimal(m) == Decimal(n)
    ensures m == n
  {
    ToDigitsShape(10, m);
    ToDigitsShape(10, n);
    if m > 0 && n > 0 {
      CharsInjective(ToDigits(10, m), ToDigits(10, n));
      FromToDigits(10, m);
      FromToDigits(10, n);
    } else if m > 0 {
      ZeroText(m);
    } else if n > 0 {
      ZeroText(n);
    }
  }

  lemma ZeroText(n: nat)
    requires n > 0
    ensures Decimal(n) != "0"
  {
    ToDigitsShape(10, n);
    var d := ToDigits(10, n)[0];
    assert Decimal(n)[0] as int == d + 48;
  }

  lemma DigitAhead(a: string, x: string, b: string, y: string)
    requires forall i | 0 <= i < |b| :: IsDigit(b[i])
    requires |a| < |b| && a + x == b + y
    ensures !Stops(x)
  {
    assert |a + x| == |b + y|;
    assert x[0] == (a + x)[|a|] == (b + y)[|a|] == b[|a|];
  }

  lemma ReadDigits(a: string, x: string, b: string, y: string)
    requires forall i | 0 <= i < |a| :: IsDigit(a[i])
    requires forall i | 0 <= i < |b| :: IsDigit(b[i])
    requires Stops(x) && Stops(y) && a + x == b + y
    ensures a == b && x == y
  {
    if |a| < |b| {
      DigitAhead(a, x, b, y);
    } else if |b| < |a| {
      DigitAhead(b, y, a, x);
    } else {
      OneOfTwoIsPrefix(a, x, b, y);
    }
  }

  function Magnitude(n: int): nat {
    if n < 0 then -n else n
  }

  /** The digits of an integer and what follows, once the sign is gone. */
  lemma IntTextParts(n: int, x: string)
    ensures n < 0 ==> IntText(n) + x == "-" + (Decimal(Magnitude(n)) + x)
    ensures IntText(n) != "" && (IntText(n) + x)[0] == IntText(n)[0]
    ensures n < 0 <==> IntText(n)[0] == '-'
  {
    DecimalDigits(Magnitude(n));
    hide Decimal;
    if n < 0 {
      assert IntText(n) == "-" + Decimal(Magnitude(n));
    } else {
      assert IntText(n) == Decimal(Magnitude(n));
    }
  }

  lemma ReadInt(m: int, n: int, x: string, y: string)
    requires Stops(x) && Stops(y) && IntText(m) + x == IntText(n) + y
    ensures m == n && x == y
  {
    hide Decimal;
    var a, b := Magnitude(m), Magnitude(n);
    DecimalDigits(a);
    DecimalDigits(b);
    IntTextParts(m, x);
    IntTextParts(n, y);
    if m < 0 {
      OneOfTwoIsPrefix("-", Decimal(a) + x, "-", Decimal(b) + y);
    }
    ReadDigits(Decimal(a), x, Decimal(b), y);
    DecimalInjective(a, b);
  }

  // ---- reading a canonical text back -----------------------------------------------------------

  /** The first character tells the kind of the value. */
  predicate LeadOk(v: Json, c: char) {
    match v
    case Null => c == 'n'
    case Bool(b) => c == if b then 't' else 'f'
    case Int(_) => c == '-' || IsDigit(c)
    case Float(_) => false
    case Str(_) => c == '"'
    case Arr(_) => c == '['
    case Obj(_) => c == '{'
  }

  lemma Lead(v: Json)
    requires FloatFree(v)
    ensures Canon(v) != "" && LeadOk(v, Canon(v)[0])
  {
    match v
    case Int(n) =>
      DecimalDigits(if n < 0 then -n else n);
    case _ =>
  }

  /** Two texts that agree start with values of one kind. */
  lemma SameLead(v: Json, w: Json, x: string, y: string)
    requires FloatFree(v) && FloatFree(w) && Canon(v) + x == Canon(w) + y
    ensures LeadOk(w, Canon(v)[0]) && LeadOk(v, Canon(v)[0])
  {
    Lead(v);
    Lead(w);
    assert (Canon(v) + x)[0] == Canon(v)[0] && (Canon(w) + y)[0] == Canon(w)[0];
  }

  ghost predicate Good(v: Json) {
    FloatFree(v) && WellFormed(v)
  }

  ghost predicate SameItems(a: seq<Json>, b: seq<Json>) {
    |a| == |b| && forall i | 0 <= i < |a| :: Denote(a[i]) == Denote(b[i])
  }

  ghost predicate SameFields(a: seq<Field>, b: seq<Field>) {
    |a| == |b| && forall i | 0 <= i < |a| :: a[i].key == b[i].key && Denote(a[i].value) == Denote(b[i].value)
  }

  /** Equal texts were printed from values that denote the same, and end at the same place. */
  lemma {:induction false} ReadValue(v: Json, w: Json, x: string, y: string)
    requires Good(v) && Good(w) && Stops(x) && Stops(y)
    requires Canon(v) + x == Canon(w) + y
    ensures Denote(v) == Denote(w) && x == y
    decreases v, 1, 0
  {
    SameLead(v, w, x, y);
    match v
    case Null => OneOfTwoIsPrefix("null", x, "null", y);
    case Bool(b) => OneOfTwoIsPrefix(Canon(v), x, Canon(w), y);
    case Int(n) => ReadInt(n, w.n, x, y);
    case Str(s) => ReadQuoted(s, w.s, x, y);
    case Arr(items) => ReadArray(v, w, x, y);
    case Obj(fields) => ReadObject(v, w, x, y);
  }

  lemma Regroup(t: string, r: string, close: string, x: string)
    ensures t + r + close + x == t + (r + close + x)
  {
  }

  lemma AfterOpen(open: string, t: string, close: string, x: string)
    ensures open + t + close + x == open + (t + close + x)
  {
  }

  lemma {:induction false} ReadArray(v: Json, w: Json, x: string, y: string)
    requires v.Arr? && w.Arr? && Good(v) && Good(w)
    requires Canon(v) + x == Canon(w) + y
    ensures Denote(v) == Denote(w) && x == y
    decreases v, 0, |v.items| + 1
  {
    var a, b := v.items, w.items;
    assert Canon(v) == "[" + ItemsText(v, a) + "]" && Canon(w) == "[" + ItemsText(w, b) + "]";
    SameArray(v, w);
    assert (forall i | i in a :: i < v && Good(i)) && forall i | i in b :: i < w && Good(i);
    hide *;
    AfterOpen("[", ItemsText(v, a), "]", x);
    AfterOpen("[", ItemsText(w, b), "]", y);
    OneOfTwoIsPrefix("[", ItemsText(v, a) + "]" + x, "[", ItemsText(w, b) + "]" + y);
    ReadItems(v, a, w, b, x, y);
  }

  lemma SameArray(v: Json, w: Json)
    requires v.Arr? && w.Arr?
    ensures SameItems(v.items, w.items) ==> Denote(v) == Denote(w)
  {
  }

  /** What a reader sees at the first item, and after it. */
  lemma ItemAhead(v: Json, items: seq<Json>, x: string)
    requires forall i | i in items :: i < v && FloatFree(i)
    ensures items == [] ==> ItemsText(v, items) + "]" + x == "]" + x
    ensures items != [] ==>
      && (forall i | i in items[1..] :: i < v)
      && (ItemsText(v, items) + "]" + x)[0] != ']'
      && ItemsText(v, items) + "]" + x == Canon(items[0]) + (ItemsTail(v, items[1..]) + "]" + x)
  {
    if items != [] {
      assert items[0] in items && forall i | i in items[1..] :: i in items;
      Lead(items[0]);
      var t, r := Canon(items[0]), ItemsTail(v, items[1..]);
      assert t != "" && t[0] != ']';
      assert ItemsText(v, items) == t + r;
      hide *;
      Regroup(t, r, "]", x);
    }
  }

  lemma ItemsTailAhead(v: Json, items: seq<Json>, x: string)
    requires forall i | i in items :: i < v
    ensures Stops(ItemsTail(v, items) + "]" + x)
    ensures items == [] ==> ItemsTail(v, items) + "]" + x == "]" + x
    ensures items != [] ==> ItemsTail(v, items) + "]" + x == "," + (ItemsText(v, items) + "]" + x)
  {
    var t := ItemsText(v, items);
    assert ItemsTail(v, items) == if items == [] then "" else "," + t;
    hide ItemsText, ItemsTail;
    Regroup(",", t, "]", x);
  }

  /** Past the comma both lists go on, or both have ended. */
  lemma SkipComma(v: Json, a: seq<Json>, w: Json, b: seq<Json>, x: string, y: string)
    requires (forall i | i in a :: i < v) && forall i | i in b :: i < w
    requires ItemsTail(v, a) + "]" + x == ItemsTail(w, b) + "]" + y
    ensures ItemsText(v, a) + "]" + x == ItemsText(w, b) + "]" + y
  {
    ItemsTailAhead(v, a, x);
    ItemsTailAhead(w, b, y);
    if a != [] && b != [] {
      hide *;
      OneOfTwoIsPrefix(",", ItemsText(v, a) + "]" + x, ",", ItemsText(w, b) + "]" + y);
    }
  }

  lemma {:induction false} ReadItems(v: Json, a: seq<Json>, w: Json, b: seq<Json>, x: string, y: string)
    requires (forall i | i in a :: i < v && Good(i)) && (forall i | i in b :: i < w && Good(i))
    requires ItemsText(v, a) + "]" + x == ItemsText(w, b) + "]" + y
    ensures SameItems(a, b) && x == y
    decreases v, 0, |a|
  {
    ItemAhead(v, a, x);
    ItemAhead(w, b, y);
    if a != [] {
      assert a[0] in a && (forall i | i in a[1..] :: i in a);
      assert b[0] in b && (forall i | i in b[1..] :: i in b);
      ItemsTailAhead(v, a[1..], x);
      ItemsTailAhead(w, b[1..], y);
      hide *;
      ReadValue(a[0], b[0], ItemsTail(v, a[1..]) + "]" + x, ItemsTail(w, b[1..]) + "]" + y);
      SkipComma(v, a[1..], w, b[1..], x, y);
      ReadItems(v, a[1..], w, b[1..], x, y);
      SameItemsFrom(a, b);
    } else {
      OneOfTwoIsPrefix("]", x, "]", y);
    }
  }

  lemma SameItemsFrom(a: seq<Json>, b: seq<Json>)
    requires a != [] && b != [] && SameItems(a[1..], b[1..]) && Denote(a[0]) == Denote(b[0])
    ensures SameItems(a, b)
  {
  }

  lemma FieldTextParts(f: Field, x: string)
    ensures FieldText(f) + x == Quote(f.key) + (":" + (Canon(f.value) + x))
  {
  }

  lemma {:induction false} ReadField(f: Field, g: Field, x: string, y: string, v: Json)
    requires f.value < v && Good(f.value) && Good(g.value) && Stops(x) && Stops(y)
    requires FieldText(f) + x == FieldText(g) + y
    ensures f.key == g.key && Denote(f.value) == Denote(g.value) && x == y
    decreases v, 0, 0
  {
    hide *;
    FieldTextParts(f, x);
    FieldTextParts(g, y);
    ReadQuoted(f.key, g.key, ":" + (Canon(f.value) + x), ":" + (Canon(g.value) + y));
    OneOfTwoIsPrefix(":", Canon(f.value) + x, ":", Canon(g.value) + y);
    ReadValue(f.value, g.value, x, y);
  }

  lemma {:induction false} ReadObject(v: Json, w: Json, x: string, y: string)
    requires v.Obj? && w.Obj? && Good(v) && Good(w)
    requires Canon(v) + x == Canon(w) + y
    ensures Denote(v) == Denote(w) && x == y
    decreases v, 0, |v.fields| + 1
  {
    var a, b := SortFields(v.fields), SortFields(w.fields);
    SortedAreGood(v);
    SortedAreGood(w);
    assert Canon(v) == "{" + FieldsText(v, a) + "}" && Canon(w) == "{" + FieldsText(w, b) + "}";
    hide *;
    AfterOpen("{", FieldsText(v, a), "}", x);
    AfterOpen("{", FieldsText(w, b), "}", y);
    OneOfTwoIsPrefix("{", FieldsText(v, a) + "}" + x, "{", FieldsText(w, b) + "}" + y);
    ReadFields(v, a, w, b, x, y);
    SameObject(v, w);
  }

  /** What a reader sees at the first field, and after it. */
  lemma FieldAhead(v: Json, fields: seq<Field>, x: string)
    requires forall f | f in fields :: f.value < v
    ensures fields == [] ==> FieldsText(v, fields) + "}" + x == "}" + x
    ensures fields != [] ==>
      && (forall f | f in fields[1..] :: f.value < v)
      && (FieldsText(v, fields) + "}" + x)[0] == '"'
      && FieldsText(v, fields) + "}" + x == FieldText(fields[0]) + (FieldsTail(v, fields[1..]) + "}" + x)
  {
    if fields != [] {
      assert fields[0] in fields && forall f | f in fields[1..] :: f in fields;
      var t, r := FieldText(fields[0]), FieldsTail(v, fields[1..]);
      QuoteText(fields[0].key, ":" + Canon(fields[0].value));
      assert t[0] == '"';
      assert FieldsText(v, fields) == t + r;
      hide *;
      Regroup(t, r, "}", x);
    }
  }

  lemma FieldsTailAhead(v: Json, fields: seq<Field>, x: string)
    requires forall f | f in fields :: f.value < v
    ensures Stops(FieldsTail(v, fields) + "}" + x)
    ensures fields == [] ==> FieldsTail(v, fields) + "}" + x == "}" + x
    ensures fields != [] ==> FieldsTail(v, fields) + "}" + x == "," + (FieldsText(v, fields) + "}" + x)
  {
    var t := FieldsText(v, fields);
    assert FieldsTail(v, fields) == if fields == [] then "" else "," + t;
    hide FieldsText, FieldsTail;
    Regroup(",", t, "}", x);
  }

  lemma SkipFieldComma(v: Json, a: seq<Field>, w: Json, b: seq<Field>, x: string, y: string)
    requires (forall f | f in a :: f.value < v) && forall f | f in b :: f.value < w
    requires FieldsTail(v, a) + "}" + x == FieldsTail(w, b) + "}" + y
    ensures FieldsText(v, a) + "}" + x == FieldsText(w, b) + "}" + y
  {
    FieldsTailAhead(v, a, x);
    FieldsTailAhead(w, b, y);
    if a != [] && b != [] {
      hide *;
      OneOfTwoIsPrefix(",", FieldsText(v, a) + "}" + x, ",", FieldsText(w, b) + "}" + y);
    }
  }

  lemma {:induction false} ReadFields(v: Json, a: seq<Field>, w: Json, b: seq<Field>, x: string, y: string)
    requires (forall f | f in a :: f.value < v && Good(f.value)) && (forall f | f in b :: f.value < w && Good(f.value))
    requires FieldsText(v, a) + "}" + x == FieldsText(w, b) + "}" + y
    ensures SameFields(a, b) && x == y
    decreases v, 0, |a|
  {
    FieldAhead(v, a, x);
    FieldAhead(w, b, y);
    if a != [] {
      assert a[0] in a && (forall f | f in a[1..] :: f in a);
      assert b[0] in b && (forall f | f in b[1..] :: f in b);
      FieldsTailAhead(v, a[1..], x);
      FieldsTailAhead(w, b[1..], y);
      hide *;
      ReadField(a[0], b[0], FieldsTail(v, a[1..]) + "}" + x, FieldsTail(w, b[1..]) + "}" + y, v);
      SkipFieldComma(v, a[1..], w, b[1..], x, y);
      ReadFields(v, a[1..], w, b[1..], x, y);
      SameFieldsFrom(a, b);
    } else {
      OneOfTwoIsPrefix("}", x, "}", y);
    }
  }

  lemma SameFieldsFrom(a: seq<Field>, b: seq<Field>)
    requires a != [] && b != [] && SameFields(a[1..], b[1..])
    requires a[0].key == b[0].key && Denote(a[0].value) == Denote(b[0].value)
    ensures SameFields(a, b)
  {
  }

  // ---- sorting does not change what an object denotes ---------------------------------------------

  lemma SortedAreGood(v: Json)
    requires v.Obj? && Good(v)
    ensures forall f | f in SortFields(v.fields) :: f.value < v && Good(f.value)
  {
  }

  lemma AscendingDistinct(fs: seq<Field>)
    requires KeysAscend(fs)
    ensures DistinctKeys(fs)
  {
    forall i, j | 0 <= i < j < |fs| ensures fs[i].key != fs[j].key {
      KeyOrder(fs[i].key, fs[j].key);
    }
  }

  lemma SortingDenotesSame(v: Json)
    requires v.Obj? && Good(v)
    ensures
      (forall f | f in SortFields(v.fields) :: f.value < v)
      && DenoteFields(v, SortFields(v.fields)) == DenoteFields(v, v.fields)
  {
    SortedAreGood(v);
    SortedAscends(v.fields);
    AscendingDistinct(SortFields(v.fields));
    SameEntriesSameMap(v, SortFields(v.fields), v.fields);
  }

  /** The order of the fields does not matter to the map. */
  lemma SameEntriesSameMap(v: Json, a: seq<Field>, b: seq<Field>)
    requires (forall f | f in a :: f.value < v) && (forall f | f in b :: f.value < v)
    requires DistinctKeys(a) && DistinctKeys(b) && forall f :: f in a <==> f in b
    ensures DenoteFields(v, a) == DenoteFields(v, b)
  {
    FieldsAreMap(v, a);
    FieldsAreMap(v, b);
    hide DenoteFields, Denote, DistinctKeys;
    var m, n := DenoteFields(v, a), DenoteFields(v, b);
    forall k | k in m ensures k in n && m[k] == n[k] {
      var f :| f in a && f.key == k;
      assert f in b;
    }
    forall k | k in n ensures k in m {
      var f :| f in b && f.key == k;
      assert f in a;
    }
  }

  lemma {:induction false} SameFieldsSameMap(v: Json, a: seq<Field>, w: Json, b: seq<Field>)
    requires (forall f | f in a :: f.value < v) && (forall f | f in b :: f.value < w)
    requires SameFields(a, b)
    ensures DenoteFields(v, a) == DenoteFields(w, b)
    decreases |a|
  {
    if a != [] {
      SameFieldsSameMap(v, a[..|a| - 1], w, b[..|b| - 1]);
    }
  }

  lemma SameObject(v: Json, w: Json)
    requires v.Obj? && w.Obj? && Good(v) && Good(w)
    requires SameFields(SortFields(v.fields), SortFields(w.fields))
    ensures Denote(v) == Denote(w)
  {
    SortingDenotesSame(v);
    SortingDenotesSame(w);
    SameFieldsSameMap(v, SortFields(v.fields), w, SortFields(w.fields));
  }

  // ---- equal denotations print alike ------------------------------------------------------------------

  ghost function Keys(a: seq<Field>): set<string> {
    set f | f in a :: f.key
  }

  /** The first key of an ascending list is no later than any other of its keys. */
  lemma FirstKeyLeast(a: seq<Field>, k: string)
    requires KeysAscend(a) && k in Keys(a)
    ensures a != [] && (k == a[0].key || KeyBefore(a[0].key, k))
  {
  }

  lemma FirstKey(a: seq<Field>)
    requires a != []
    ensures a[0].key in Keys(a)
  {
  }

  lemma HeadIsLeast(a: seq<Field>, b: seq<Field>)
    requires KeysAscend(a) && KeysAscend(b) && a != [] && b != [] && Keys(a) == Keys(b)
    ensures a[0].key == b[0].key
  {
    FirstKey(a);
    FirstKey(b);
    FirstKeyLeast(a, b[0].key);
    FirstKeyLeast(b, a[0].key);
    KeyOrder(a[0].key, b[0].key);
  }

  lemma TailKeys(a: seq<Field>)
    requires KeysAscend(a) && a != []
    ensures Keys(a[1..]) == Keys(a) - {a[0].key} && KeysAscend(a[1..])
  {
    AscendingDistinct(a);
    forall k ensures k in Keys(a[1..]) <==> k in Keys(a) - {a[0].key} {
      if k in Keys(a[1..]) {
        var i :| 0 <= i < |a[1..]| && a[1..][i].key == k;
        assert a[i + 1] in a && a[i + 1].key == k && a[i + 1].key != a[0].key;
      }
      if k in Keys(a) - {a[0].key} {
        var i :| 0 <= i < |a| && a[i].key == k;
        assert a[1..][i - 1] in a[1..];
      }
    }
  }

  lemma {:induction false} SameKeyList(a: seq<Field>, b: seq<Field>)
    requires KeysAscend(a) && KeysAscend(b) && Keys(a) == Keys(b)
    ensures |a| == |b| && forall i | 0 <= i < |a| :: a[i].key == b[i].key
    decreases |a|
  {
    if a != [] && b != [] {
      HeadIsLeast(a, b);
      TailKeys(a);
      TailKeys(b);
      hide KeysAscend, Keys;
      SameKeyList(a[1..], b[1..]);
      assert forall i | 0 < i < |a| :: a[i].key == a[1..][i - 1].key == b[1..][i - 1].key == b[i].key;
    } else if a != [] {
      FirstKey(a);
    } else if b != [] {
      FirstKey(b);
    }
  }

  lemma KeysAreDomain(v: Json, fields: seq<Field>)
    requires (forall f | f in fields :: f.value < v) && DistinctKeys(fields)
    ensures Keys(fields) == DenoteFields(v, fields).Keys
  {
  }

  lemma SortedFieldsMatch(v: Json, w: Json)
    requires v.Obj? && w.Obj? && Good(v) && Good(w) && Denote(v) == Denote(w)
    ensures SameFields(SortFields(v.fields), SortFields(w.fields))
  {
    var a, b := SortFields(v.fields), SortFields(w.fields);
    SortedAreGood(v);
    SortedAreGood(w);
    SortedAscends(v.fields);
    SortedAscends(w.fields);
    AscendingDistinct(a);
    AscendingDistinct(b);
    SortingDenotesSame(v);
    SortingDenotesSame(w);
    FieldsAreMap(v, a);
    FieldsAreMap(w, b);
    KeysAreDomain(v, a);
    KeysAreDomain(w, b);
    SameKeyList(a, b);
    forall i | 0 <= i < |a| ensures Denote(a[i].value) == Denote(b[i].value) {
      assert a[i] in a && b[i] in b;
    }
  }

  /** Values that denote the same print the same text, whatever order their fields came in. */
  lemma {:induction false} SameText(v: Json, w: Json)
    requires Good(v) && Good(w) && Denote(v) == Denote(w)
    ensures Canon(v) == Canon(w)
    decreases v, 1, 0
  {
    match v
    case Arr(_) => SameArrayText(v, w);
    case Obj(_) => SameObjectText(v, w);
    case _ =>
  }

  lemma {:induction false} SameArrayText(v: Json, w: Json)
    requires v.Arr? && w.Arr? && Good(v) && Good(w) && Denote(v) == Denote(w)
    ensures Canon(v) == Canon(w)
    decreases v, 0, |v.items| + 1
  {
    var a, b := v.items, w.items;
    assert |Denote(v).items| == |a| && |Denote(w).items| == |b|;
    forall i | 0 <= i < |a| ensures Denote(a[i]) == Denote(b[i]) {
      assert Denote(v).items[i] == Denote(w).items[i];
    }
    assert (forall i | i in a :: i < v && Good(i)) && forall i | i in b :: i < w && Good(i);
    SameItemsText(v, a, w, b);
  }

  lemma {:induction false} SameObjectText(v: Json, w: Json)
    requires v.Obj? && w.Obj? && Good(v) && Good(w) && Denote(v) == Denote(w)
    ensures Canon(v) == Canon(w)
    decreases v, 0, |v.fields| + 1
  {
    var a, b := SortFields(v.fields), SortFields(w.fields);
    SortedFieldsMatch(v, w);
    SortedAreGood(v);
    SortedAreGood(w);
    SameFieldsText(v, a, w, b);
    hide Denote, SortFields, FieldsText, Good;
  }

  lemma {:induction false} SameItemsText(v: Json, a: seq<Json>, w: Json, b: seq<Json>)
    requires (forall i | i in a :: i < v && Good(i)) && (forall i | i in b :: i < w && Good(i))
    requires SameItems(a, b)
    ensures ItemsText(v, a) == ItemsText(w, b)
    decreases v, 0, |a|
  {
    if a != [] {
      assert a[0] in a && (forall i | i in a[1..] :: i in a);
      assert b[0] in b && (forall i | i in b[1..] :: i in b);
      SameText(a[0], b[0]);
      SameItemsText(v, a[1..], w, b[1..]);
      hide Canon, Denote, Good;
    }
  }

  ghost predicate FieldsOf(v: Json, fields: seq<Field>) {
    forall f | f in fields :: f.value < v && Good(f.value)
  }

  lemma TailFieldsOf(v: Json, fields: seq<Field>)
    requires FieldsOf(v, fields) && fields != []
    ensures fields[0].value < v && Good(fields[0].value) && FieldsOf(v, fields[1..])
  {
  }

  lemma TailSameFields(a: seq<Field>, b: seq<Field>)
    requires SameFields(a, b) && a != []
    ensures b != [] && a[0].key == b[0].key && Denote(a[0].value) == Denote(b[0].value)
    ensures SameFields(a[1..], b[1..])
  {
  }

  lemma {:induction false} SameFieldsText(v: Json, a: seq<Field>, w: Json, b: seq<Field>)
    requires FieldsOf(v, a) && FieldsOf(w, b) && SameFields(a, b)
    ensures FieldsText(v, a) == FieldsText(w, b)
    decreases v, 0, |a|
  {
    if a != [] {
      TailSameFields(a, b);
      TailFieldsOf(v, a);
      TailFieldsOf(w, b);
      FieldsTextStep(v, a);
      FieldsTextStep(w, b);
      hide Canon, Quote, FieldText, FieldsText, Denote, Good, SameFields;
      SameText(a[0].value, b[0].value);
      SameFieldsText(v, a[1..], w, b[1..]);
      SameFieldText(a[0], b[0]);
    }
  }

  lemma SameFieldText(f: Field, g: Field)
    requires f.key == g.key && Canon(f.value) == Canon(g.value)
    ensures FieldText(f) == FieldText(g)
  {
  }

  lemma FieldsTextStep(v: Json, fields: seq<Field>)
    requires (forall f | f in fields :: f.value < v) && fields != []
    ensures forall f | f in fields[1..] :: f.value < v
    ensures FieldsText(v, fields)
         == FieldText(fields[0]) + if fields[1..] == [] then "" else "," + FieldsText(v, fields[1..])
  {
  }

  /** Canonical bytes are equal iff the values denote the same; floats are refused. */
  lemma CanonicalIffSame(v: Json, w: Json)
    requires WellFormed(v) && WellFormed(w)
    ensures Canonicalize(v).TypeError? <==> !FloatFree(v)
    ensures FloatFree(v) && FloatFree(w) ==> (Canonicalize(v) == Canonicalize(w) <==> Denote(v) == Denote(w))
  {
    if FloatFree(v) && FloatFree(w) {
      if Canonicalize(v) == Canonicalize(w) {
        Utf8PrefixFree();
        EncodeInjective(Utf8Char(), Canon(v), Canon(w));
        assert Canon(v) + "" == Canon(w) + "";
        ReadValue(v, w, "", "");
      }
      if Denote(v) == Denote(w) {
        SameText(v, w);
      }
    }
  }
}
