/**
 * Collision-free configurations exist: every content, header and pair is numbered, each by its own number.
 * The results that ask for collision-free hashes are therefore about something.
 */
module Codebook {
  import opened Types
  import opened Sets

  // ---- numbering numbers, pairs and lists ------------------------------------------------------

  function Natural(x: int): nat {
    if x >= 0 then 2 * x else -2 * x - 1
  }

  /** 2^a * (2b + 1). */
  function Pair(a: nat, b: nat): (r: nat)
    ensures r > 0
  {
    if a == 0 then 2 * b + 1 else 2 * Pair(a - 1, b)
  }

  lemma {:induction false} PairInjective(a: nat, b: nat, c: nat, d: nat)
    requires Pair(a, b) == Pair(c, d)
    ensures a == c && b == d
    decreases a
  {
    if a > 0 && c > 0 {
      PairInjective(a - 1, b, c - 1, d);
    }
  }

  function List(xs: seq<nat>): nat {
    if xs == [] then 0 else Pair(xs[0], List(xs[1..]))
  }

  lemma {:induction false} ListInjective(xs: seq<nat>, ys: seq<nat>)
    requires List(xs) == List(ys)
    ensures xs == ys
    decreases |xs|
  {
    if xs != [] && ys != [] {
      PairInjective(xs[0], List(xs[1..]), ys[0], List(ys[1..]));
      ListInjective(xs[1..], ys[1..]);
      assert xs == [xs[0]] + xs[1..] && ys == [ys[0]] + ys[1..];
    }
  }

  function Ints(xs: seq<int>): nat {
    List(seq(|xs|, i requires 0 <= i < |xs| => Natural(xs[i])))
  }

  lemma IntsInjective(xs: seq<int>, ys: seq<int>)
    requires Ints(xs) == Ints(ys)
    ensures xs == ys
  {
    var a := seq(|xs|, i requires 0 <= i < |xs| => Natural(xs[i]));
    var b := seq(|ys|, i requires 0 <= i < |ys| => Natural(ys[i]));
    ListInjective(a, b);
    assert |xs| == |a| == |b| == |ys|;
    assert forall i | 0 <= i < |xs| :: a[i] == Natural(xs[i]) && b[i] == Natural(ys[i]);
  }

  function Text(s: string): nat {
    Ints(seq(|s|, i requires 0 <= i < |s| => s[i] as int))
  }

  lemma TextInjective(s: string, t: string)
    requires Text(s) == Text(t)
    ensures s == t
  {
    var a := seq(|s|, i requires 0 <= i < |s| => s[i] as int);
    var b := seq(|t|, i requires 0 <= i < |t| => t[i] as int);
    IntsInjective(a, b);
    assert |s| == |a| == |b| == |t|;
    forall i | 0 <= i < |s| ensures s[i] == t[i] {
      assert a[i] == s[i] as int && b[i] == t[i] as int;
      assert (s[i] as int) as char == (t[i] as int) as char;
    }
  }

  /** The entries of a table in the order of its keys. */
  function Entries(m: map<Key, Signature>): (r: seq<int>)
    ensures |r| == 2 * |m.Keys|
  {
    var ks := SortedNats(m.Keys);
    seq(2 * |ks|, i requires 0 <= i < 2 * |ks| =>
      assert ks[i / 2] in ks;
      if i % 2 == 0 then ks[i / 2] else m[ks[i / 2]])
  }

  function Table(m: map<Key, Signature>): nat {
    Ints(Entries(m))
  }

  lemma EntryAt(m: map<Key, Signature>, i: nat)
    requires i < |SortedNats(m.Keys)|
    ensures
      var k := SortedNats(m.Keys)[i];
      k in m && Entries(m)[2 * i] == k && Entries(m)[2 * i + 1] == m[k]
  {
    var ks := SortedNats(m.Keys);
    assert ks[i] in ks;
    hide SortedNats;
    assert 2 * i / 2 == i && (2 * i + 1) / 2 == i && 2 * i % 2 == 0 && (2 * i + 1) % 2 == 1;
  }

  lemma KeyAt(m: map<Key, Signature>, k: Key) returns (i: nat)
    requires k in m
    ensures i < |SortedNats(m.Keys)| && SortedNats(m.Keys)[i] == k
  {
    assert k in SortedNats(m.Keys);
    i :| 0 <= i < |SortedNats(m.Keys)| && SortedNats(m.Keys)[i] == k;
  }

  /** The table is read off its entries. */
  lemma SameEntries(m: map<Key, Signature>, n: map<Key, Signature>, k: Key)
    requires Entries(m) == Entries(n) && k in m
    ensures k in n && n[k] == m[k]
  {
    hide Entries;
    var i := KeyAt(m, k);
    EntryAt(m, i);
    EntryAt(n, i);
  }

  lemma TableInjective(m: map<Key, Signature>, n: map<Key, Signature>)
    requires Table(m) == Table(n)
    ensures m == n
  {
    IntsInjective(Entries(m), Entries(n));
    hide Entries, Table;
    forall k | k in m ensures k in n && n[k] == m[k] { SameEntries(m, n, k); }
    forall k | k in n ensures k in m { SameEntries(n, m, k); }
  }

  // ---- numbering contents and headers ------------------------------------------------------------

  function ScopeCode(s: Scope): nat {
    Ints([s.subject, s.rubric, Text(s.domain), s.submission])
  }

  lemma ScopeInjective(s: Scope, t: Scope)
    requires ScopeCode(s) == ScopeCode(t)
    ensures s == t
  {
    var a := [s.subject, s.rubric, Text(s.domain), s.submission];
    var b := [t.subject, t.rubric, Text(t.domain), t.submission];
    IntsInjective(a, b);
    assert a[0] == b[0] && a[1] == b[1] && a[2] == b[2] && a[3] == b[3];
    TextInjective(s.domain, t.domain);
  }

  function Fields(p: Payload): seq<int> {
    match p
    case Attestation(scope, item, verdict, stake) =>
      [0, ScopeCode(scope), item, match verdict case Yes => 0 case No => 1 case Abstain => 2, stake]
    case Submission(subject, domain, rubric, artifact) => [1, subject, Text(domain), rubric, artifact]
    case Certificate(certified, grantedBy, requiredItems) =>
      [2, ScopeCode(certified), Ints(grantedBy), Ints(requiredItems)]
    case Promotion(candidate, competence, approvals) => [3, candidate, Text(competence), Table(approvals)]
    case Slash(offender, penalised, amount, evidence, endorsements) =>
      [4, offender, Text(penalised), amount, Ints(evidence), Table(endorsements)]
    case Unknown(data) => [5, data]
  }

  lemma FieldsInjective(p: Payload, q: Payload)
    requires Fields(p) == Fields(q)
    ensures p == q
  {
    var a, b := Fields(p), Fields(q);
    assert a[0] == b[0] && a[1] == b[1];
    hide Text, Ints, Table, ScopeCode;
    match p
    case Attestation(s, _, _, _) =>
      assert a[2] == b[2] && a[3] == b[3] && a[4] == b[4];
      ScopeInjective(s, q.scope);
    case Submission(_, d, _, _) =>
      assert a[2] == b[2] && a[3] == b[3] && a[4] == b[4];
      TextInjective(d, q.domain);
    case Certificate(s, g, r) =>
      assert a[2] == b[2] && a[3] == b[3];
      ScopeInjective(s, q.certified);
      IntsInjective(g, q.grantedBy);
      IntsInjective(r, q.requiredItems);
    case Promotion(_, c, m) =>
      assert a[2] == b[2] && a[3] == b[3];
      TextInjective(c, q.competence);
      TableInjective(m, q.approvals);
    case Slash(_, d, _, e, m) =>
      assert a[2] == b[2] && a[3] == b[3] && a[4] == b[4] && a[5] == b[5];
      TextInjective(d, q.penalised);
      IntsInjective(e, q.evidence);
      TableInjective(m, q.endorsements);
    case Unknown(_) =>
  }

  function ContentCode(c: Content): nat {
    Ints([c.sender, c.timestamp, Ints(Fields(c.payload))])
  }

  lemma ContentInjective(c: Content, d: Content)
    requires ContentCode(c) == ContentCode(d)
    ensures c == d
  {
    var a, b := [c.sender, c.timestamp, Ints(Fields(c.payload))], [d.sender, d.timestamp, Ints(Fields(d.payload))];
    IntsInjective(a, b);
    assert a[0] == b[0] && a[1] == b[1] && a[2] == b[2];
    IntsInjective(Fields(c.payload), Fields(d.payload));
    FieldsInjective(c.payload, d.payload);
  }

  function HeaderCode(h: Header): nat {
    Ints([h.index, h.previousHash, h.merkleRoot, h.timestamp, h.view, h.producer])
  }

  lemma HeaderInjective(g: Header, h: Header)
    requires HeaderCode(g) == HeaderCode(h)
    ensures g == h
  {
    var a := [g.index, g.previousHash, g.merkleRoot, g.timestamp, g.view, g.producer];
    var b := [h.index, h.previousHash, h.merkleRoot, h.timestamp, h.view, h.producer];
    IntsInjective(a, b);
    assert a[0] == b[0] && a[1] == b[1] && a[2] == b[2] && a[3] == b[3] && a[4] == b[4] && a[5] == b[5];
  }

  // ---- the configuration ---------------------------------------------------------------------------

  /** Contents get the numbers 3n + 1, pairs the numbers 3n + 2, and the empty root is 0. */
  function Numbered(genesis: map<Key, map<string, int>>, endowments: map<Key, int>,
                    verify: (Key, Message, Signature) -> bool): Config {
    Config(genesis, endowments, verify,
           (c: Content) => 3 * ContentCode(c) + 1,
           (h: Header) => HeaderCode(h),
           (x: Hash, y: Hash) => 3 * Pair(Natural(x), Natural(y)) + 2,
           0)
  }

  /** Whatever the anchors and the signature check, there is a collision-free configuration with them. */
  lemma CollisionFreeExists(genesis: map<Key, map<string, int>>, endowments: map<Key, int>,
                            verify: (Key, Message, Signature) -> bool)
    ensures CollisionFree(Numbered(genesis, endowments, verify))
  {
    var cfg := Numbered(genesis, endowments, verify);
    hide ContentCode, HeaderCode, Pair;
    forall a, b | cfg.hashHeader(a) == cfg.hashHeader(b) ensures a == b { HeaderInjective(a, b); }
    forall a, b | cfg.hashContent(a) == cfg.hashContent(b) ensures a == b { ContentInjective(a, b); }
    forall a, b, c, d | cfg.hashPair(a, b) == cfg.hashPair(c, d) ensures a == c && b == d {
      PairInjective(Natural(a), Natural(b), Natural(c), Natural(d));
    }
    forall x | IsTxHash(cfg, x) ensures x % 3 == 1 {
      var c :| cfg.hashContent(c) == x;
    }
    assert forall a, b :: cfg.hashPair(a, b) % 3 == 2;
  }
}
