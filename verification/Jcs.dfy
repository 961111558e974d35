/** credentials/jcs.py: canonical JSON (RFC 8785 without floats). */
module Jcs {
  import opened Codes
  import opened Digits

  datatype Field = Field(key: string, value: Json)

  /** A JSON value as Python holds it: an object lists its fields in insertion order. */
  datatype Json =
    | Null
    | Bool(b: bool)
    | Int(n: int)
    | Float(bits: int)
    | Str(s: string)
    | Arr(items: seq<Json>)
    | Obj(fields: seq<Field>)

  /** What a JSON value denotes: objects are maps. */
  datatype Value =
    | NullValue
    | BoolValue(b: bool)
    | IntValue(n: int)
    | StrValue(s: string)
    | ArrValue(items: seq<Value>)
    | ObjValue(fields: map<string, Value>)

  // ---- key order (section 3.2.3 of RFC 8785) ---------------------------------------------

  /** Lexicographic order. */
  predicate Before(a: seq<nat>, b: seq<nat>) {
    b != [] && (a == [] || a[0] < b[0] || (a[0] == b[0] && Before(a[1..], b[1..])))
  }

  lemma {:induction false} BeforeTotal(a: seq<nat>, b: seq<nat>)
    ensures Before(a, b) || Before(b, a) || a == b
    ensures !(Before(a, b) && Before(b, a)) && !Before(a, a)
    decreases |a| + |b|
  {
    if a != [] && b != [] {
      BeforeTotal(a[1..], b[1..]);
      assert a == [a[0]] + a[1..] && b == [b[0]] + b[1..];
    }
    if a != [] {
      BeforeTotal(a[1..], []);
      IrreflexiveBefore(a);
    }
  }

  lemma {:induction false} IrreflexiveBefore(a: seq<nat>)
    ensures !Before(a, a)
  {
    if a != [] {
      IrreflexiveBefore(a[1..]);
    }
  }

  lemma {:induction false} BeforeTransitive(a: seq<nat>, b: seq<nat>, c: seq<nat>)
    requires Before(a, b) && Before(b, c)
    ensures Before(a, c)
    decreases |a|
  {
    if a != [] && a[0] == b[0] == c[0] {
      BeforeTransitive(a[1..], b[1..], c[1..]);
    }
  }

  /** `_sort_key` order of keys: by UTF-16 code units. */
  predicate KeyBefore(a: string, b: string) {
    Before(Utf16(a), Utf16(b))
  }

  lemma KeyOrder(a: string, b: string)
    ensures a != b ==> KeyBefore(a, b) || KeyBefore(b, a)
    ensures !(KeyBefore(a, b) && KeyBefore(b, a)) && !KeyBefore(a, a)
  {
    BeforeTotal(Utf16(a), Utf16(b));
    IrreflexiveBefore(Utf16(a));
    if Utf16(a) == Utf16(b) {
      Utf16PrefixFree();
      EncodeInjective(Utf16Char(), a, b);
    }
  }

  // ---- sorting fields --------------------------------------------------------------------

  function InsertField(f: Field, fs: seq<Field>): seq<Field> {
    if fs == [] || !KeyBefore(fs[0].key, f.key) then [f] + fs else [fs[0]] + InsertField(f, fs[1..])
  }

  function SortFields(fs: seq<Field>): (r: seq<Field>)
    ensures |r| == |fs| && forall f :: f in r <==> f in fs
  {
    if fs == [] then []
    else
      InsertKeeps(fs[0], SortFields(fs[1..]));
      InsertField(fs[0], SortFields(fs[1..]))
  }

  lemma {:induction false} InsertKeeps(f: Field, fs: seq<Field>)
    ensures |InsertField(f, fs)| == |fs| + 1
    ensures forall g :: g in InsertField(f, fs) <==> g == f || g in fs
  {
    if fs != [] && KeyBefore(fs[0].key, f.key) {
      InsertKeeps(f, fs[1..]);
    }
  }

  /** A dictionary never holds a key twice. */
  ghost predicate DistinctKeys(fs: seq<Field>) {
    forall i, j | 0 <= i < j < |fs| :: fs[i].key != fs[j].key
  }

  ghost predicate KeysAscend(fs: seq<Field>) {
    forall i, j | 0 <= i < j < |fs| :: KeyBefore(fs[i].key, fs[j].key)
  }

  lemma {:induction false} InsertAscends(f: Field, fs: seq<Field>)
    requires KeysAscend(fs) && forall g | g in fs :: g.key != f.key
    ensures KeysAscend(InsertField(f, fs))
    decreases |fs|
  {
    var r := InsertField(f, fs);
    if fs == [] {
    } else if KeyBefore(fs[0].key, f.key) {
      InsertAscends(f, fs[1..]);
      InsertKeeps(f, fs[1..]);
      forall j | 1 <= j < |r| ensures KeyBefore(r[0].key, r[j].key) {
        assert r[j] == r[1..][j - 1] && r[j] in InsertField(f, fs[1..]);
      }
      assert forall i, j | 1 <= i < j < |r| :: r[i] == r[1..][i - 1] && r[j] == r[1..][j - 1];
    } else {
      assert fs[0] in fs;
      KeyOrder(f.key, fs[0].key);
      forall j | 1 <= j < |r| ensures KeyBefore(f.key, r[j].key) {
        if j > 1 {
          BeforeTransitive(Utf16(f.key), Utf16(fs[0].key), Utf16(fs[j - 1].key));
        }
      }
    }
  }

  /** The fields come out in code-unit order of their keys. */
  lemma {:induction false} SortedAscends(fs: seq<Field>)
    requires DistinctKeys(fs)
    ensures KeysAscend(SortFields(fs))
  {
    if fs != [] {
      SortedAscends(fs[1..]);
      forall g | g in SortFields(fs[1..]) ensures g.key != fs[0].key {
        var i :| 0 <= i < |fs[1..]| && fs[1..][i] == g;
        assert fs[i + 1] == g;
      }
      InsertAscends(fs[0], SortFields(fs[1..]));
    }
  }

  // ---- the printer -----------------------------------------------------------------------

  const HEX := "0123456789abcdef"

  /** One character inside a JSON string, as `json.dumps(..., ensure_ascii=False)` writes it. */
  function EscapeChar(): char -> string {
    c =>
      if c == '"' then "\\\"" else if c == '\\' then "\\\\"
      else if c == '\n' then "\\n" else if c == '\r' then "\\r" else if c == '\t' then "\\t"
      else if c as int == 8 then "\\b" else if c as int == 12 then "\\f"
      else if c as int < 0x20 then "\\u00" + [HEX[c as int / 16], HEX[c as int % 16]]
      else [c]
  }

  function Quote(s: string): string {
    "\"" + Encode(EscapeChar(), s) + "\""
  }

  function DecimalChars(ds: seq<nat>): string
    requires ValidDigits(10, ds)
  {
    seq(|ds|, i requires 0 <= i < |ds| => (ds[i] + 48) as char)
  }

  function Decimal(n: nat): string {
    ToDigitsShape(10, n);
    if n == 0 then "0" else DecimalChars(ToDigits(10, n))
  }

  function IntText(n: int): string {
    if n < 0 then "-" + Decimal(-n) else Decimal(n)
  }

  /** `_canonicalize` where it does not raise; a float prints as nothing here and is refused by Canonicalize. */
  function Canon(v: Json): string
    decreases v, 1, 0
  {
    match v
    case Null => "null"
    case Bool(b) => if b then "true" else "false"
    case Int(n) => IntText(n)
    case Float(_) => ""
    case Str(s) => Quote(s)
    case Arr(items) => "[" + ItemsText(v, items) + "]"
    case Obj(fields) =>
      var sorted := SortFields(fields);
      assert forall f | f in sorted :: f in fields && f.value < v;
      "{" + FieldsText(v, sorted) + "}"
  }

  /** The items of the array v from some item on, joined by commas. */
  function ItemsText(v: Json, items: seq<Json>): string
    requires forall x | x in items :: x < v
    decreases v, 0, 2 * |items|
  {
    if items == [] then "" else
      assert items[0] in items && forall x | x in items[1..] :: x in items;
      Canon(items[0]) + ItemsTail(v, items[1..])
  }

  function ItemsTail(v: Json, items: seq<Json>): string
    requires forall x | x in items :: x < v
    decreases v, 0, 2 * |items| + 1
  {
    if items == [] then "" else "," + ItemsText(v, items)
  }

  function FieldText(f: Field): string
    decreases f.value, 2, 0
  {
    Quote(f.key) + (":" + Canon(f.value))
  }

  /** The fields of the object v from some field on, joined by commas. */
  function FieldsText(v: Json, fields: seq<Field>): string
    requires forall f | f in fields :: f.value < v
    decreases v, 0, 2 * |fields|
  {
    if fields == [] then "" else
      assert fields[0] in fields && forall f | f in fields[1..] :: f in fields;
      FieldText(fields[0]) + FieldsTail(v, fields[1..])
  }

  function FieldsTail(v: Json, fields: seq<Field>): string
    requires forall f | f in fields :: f.value < v
    decreases v, 0, 2 * |fields| + 1
  {
    if fields == [] then "" else "," + FieldsText(v, fields)
  }

  /** No float anywhere. */
  predicate FloatFree(v: Json)
    decreases v
  {
    match v
    case Float(_) => false
    case Arr(items) => forall i | 0 <= i < |items| :: FloatFree(items[i])
    case Obj(fields) => forall i | 0 <= i < |fields| :: FloatFree(fields[i].value)
    case _ => true
  }

  /** Objects everywhere have distinct keys, as Python dictionaries do. */
  ghost predicate WellFormed(v: Json)
    decreases v
  {
    match v
    case Arr(items) => forall i | 0 <= i < |items| :: WellFormed(items[i])
    case Obj(fields) => DistinctKeys(fields) && forall i | 0 <= i < |fields| :: WellFormed(fields[i].value)
    case _ => true
  }

  datatype Printed = Ok(bytes: seq<nat>) | TypeError

  /** `canonicalize`: the UTF-8 bytes of the canonical text, or the error if there is a float. */
  function Canonicalize(v: Json): Printed {
    if FloatFree(v) then Printed.Ok(Utf8(Canon(v))) else TypeError
  }

  // ---- denotation ------------------------------------------------------------------------

  function Denote(v: Json): Value
    decreases v, 1, 0
  {
    match v
    case Null => NullValue
    case Bool(b) => BoolValue(b)
    case Int(n) => IntValue(n)
    case Float(_) => NullValue
    case Str(s) => StrValue(s)
    case Arr(items) => ArrValue(seq(|items|, i requires 0 <= i < |items| => Denote(items[i])))
    case Obj(fields) => ObjValue(DenoteFields(v, fields))
  }

  function DenoteFields(v: Json, fields: seq<Field>): map<string, Value>
    requires forall f | f in fields :: f.value < v
    decreases v, 0, |fields|
  {
    if fields == [] then map[]
    else
      assert fields[|fields| - 1] in fields;
      DenoteFields(v, fields[..|fields| - 1])[fields[|fields| - 1].key := Denote(fields[|fields| - 1].value)]
  }

  /** With distinct keys the map holds exactly the listed fields. */
  lemma {:induction false} FieldsAreMap(v: Json, fields: seq<Field>)
    requires forall f | f in fields :: f.value < v
    requires DistinctKeys(fields)
    ensures forall f | f in fields ::
              f.key in DenoteFields(v, fields) && DenoteFields(v, fields)[f.key] == Denote(f.value)
    ensures forall k | k in DenoteFields(v, fields) :: exists f :: f in fields && f.key == k
    decreases |fields|
  {
    if fields != [] {
      var n := |fields| - 1;
      FieldsAreMap(v, fields[..n]);
      var whole, part := DenoteFields(v, fields), DenoteFields(v, fields[..n]);
      forall f | f in fields ensures f.key in whole && whole[f.key] == Denote(f.value) {
        var i :| 0 <= i < |fields| && fields[i] == f;
        if i < n {
          assert f in fields[..n] && f.key != fields[n].key;
        }
      }
      forall k | k in whole ensures exists f :: f in fields && f.key == k {
        if k == fields[n].key {
          assert fields[n] in fields;
        } else {
          var f :| f in fields[..n] && f.key == k;
          assert f in fields;
        }
      }
    }
  }
}
