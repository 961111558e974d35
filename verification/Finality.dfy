/**
 * Accountable finality: two final blocks at one height expose more than a third of the validators
 * as having signed both. Rests on quorum overlap and on derived state being a function of what the
 * block hashes commit to.
 */
module Finality {
  import Merkle
  import opened Types
  import opened Quorum
  import opened Registry
  import opened Slashing
  import opened Aggregator
  import opened Derive
  import opened Consensus
  import opened ForkChoice
  import opened Runs

  // ---- accepted transactions are signed ----------------------------------------------------

  lemma {:induction false} EachTxOk(cfg: Config, c: Context, s: Scan, txs: seq<Transaction>, j: nat)
    requires TxsOk(cfg, c, s, txs) && j < |txs|
    ensures TxOk(cfg, c, ScanAfter(c, s, txs[..j]), txs[j])
    decreases |txs|
  {
    hide TxOk;
    var n := |txs| - 1;
    if j < n {
      EachTxOk(cfg, c, s, txs[..n], j);
      assert txs[..n][..j] == txs[..j];
    }
  }

  lemma {:induction false} PrefixTxsOk(cfg: Config, c: Context, s: Scan, txs: seq<Transaction>, j: nat)
    requires TxsOk(cfg, c, s, txs) && j <= |txs|
    ensures TxsOk(cfg, c, s, txs[..j])
    decreases |txs|
  {
    hide TxOk;
    if j < |txs| {
      PrefixTxsOk(cfg, c, s, txs[..|txs| - 1], j);
      assert txs[..|txs| - 1][..j] == txs[..j];
    } else {
      assert txs[..j] == txs;
    }
  }

  lemma AcceptedBlock(cfg: Config, blocks: seq<Block>, i: nat)
    requires CollisionFree(cfg) && ValidChain(cfg, blocks) && i < |blocks| && blocks[i].transactions != []
    ensures i > 0 && TxsOk(cfg, ContextOf(cfg, Bodies(blocks[..i])), ScanAt(cfg, Bodies(blocks[..i])),
                           blocks[i].transactions)
  {
    hide TxsOk, SealOk;
    GenesisIsEmpty(cfg, blocks[0]);
    assert BlockOkAt(cfg, blocks, i);
  }

  /** Each transaction of a valid chain passed its check against the state before its block. */
  lemma AcceptedTx(cfg: Config, blocks: seq<Block>, i: nat, j: nat)
    requires CollisionFree(cfg) && ValidChain(cfg, blocks)
    requires i < |blocks| && j < |blocks[i].transactions|
    ensures i > 0
    ensures
      var prefix, txs := Bodies(blocks[..i]), blocks[i].transactions;
      var c := ContextOf(cfg, prefix);
      TxOk(cfg, c, ScanAfter(c, ScanAt(cfg, prefix), txs[..j]), txs[j])
  {
    hide TxOk, SealOk;
    GenesisIsEmpty(cfg, blocks[0]);
    assert BlockOkAt(cfg, blocks, i);
    var prefix := Bodies(blocks[..i]);
    EachTxOk(cfg, ContextOf(cfg, prefix), ScanAt(cfg, prefix), blocks[i].transactions, j);
  }

  /** Every attestation on the history carries its author's signature. */
  ghost predicate AllSigned(cfg: Config, history: History) {
    forall i, j | 0 <= i < |history| && 0 <= j < |history[i]| :: SignedAt(cfg, history, i, j)
  }

  predicate SignedAt(cfg: Config, history: History, i: nat, j: nat)
    requires i < |history| && j < |history[i]|
  {
    IsAttestation(history[i][j]) ==> SignatureOk(cfg, history[i][j])
  }

  lemma ValidIsSigned(cfg: Config, blocks: seq<Block>)
    requires CollisionFree(cfg) && ValidChain(cfg, blocks)
    ensures AllSigned(cfg, Bodies(blocks))
  {
    hide ValidChain, ValidCertificate, ValidSlash, PromotionOk, ScanAfter;
    forall i, j | 0 <= i < |blocks| && 0 <= j < |Bodies(blocks)[i]| ensures SignedAt(cfg, Bodies(blocks), i, j) {
      AcceptedTx(cfg, blocks, i, j);
    }
  }

  // ---- derived state depends only on hashed content -------------------------------------------

  /** Moves neither reputation nor the promoted cohort. */
  predicate Inert(tx: Transaction) {
    !tx.Payload().Certificate? && !tx.Payload().Promotion? && !tx.Payload().Slash?
  }

  ghost predicate Repeats(xs: seq<Transaction>, tx: Transaction) {
    exists i :: 0 <= i < |xs| && xs[i].content == tx.content
  }

  /** ys has the contents of xs and then only inert repeats of them. */
  ghost predicate Padded(xs: seq<Transaction>, ys: seq<Transaction>) {
    && |xs| <= |ys| && SameContents(xs, ys[..|xs|])
    && forall j | |xs| <= j < |ys| :: Inert(ys[j]) && Repeats(xs, ys[j])
  }

  ghost predicate SameBody(xs: seq<Transaction>, ys: seq<Transaction>) {
    Padded(xs, ys) || Padded(ys, xs)
  }

  ghost predicate SameHistory(a: History, b: History) {
    |a| == |b| && forall i | 0 <= i < |a| :: SameBody(a[i], b[i])
  }

  ghost predicate SameFinding(x: Option<Transaction>, y: Option<Transaction>) {
    x.Some? == y.Some? && (x.Some? ==> x.value.content == y.value.content)
  }

  lemma {:induction false} SameFindIn(cfg: Config, xs: seq<Transaction>, ys: seq<Transaction>, hash: Hash)
    requires SameContents(xs, ys)
    ensures SameFinding(FindIn(cfg, xs, hash), FindIn(cfg, ys, hash))
    decreases |xs|
  {
    if xs != [] {
      SameFindIn(cfg, xs[1..], ys[1..], hash);
    }
  }

  lemma {:induction false} FindInFront(cfg: Config, txs: seq<Transaction>, n: nat, hash: Hash)
    requires n <= |txs|
    ensures FindIn(cfg, txs[..n], hash).Some? ==> FindIn(cfg, txs, hash) == FindIn(cfg, txs[..n], hash)
    ensures FindIn(cfg, txs[..n], hash).None? ==> FindIn(cfg, txs, hash) == FindIn(cfg, txs[n..], hash)
    decreases n
  {
    if n > 0 {
      FindInFront(cfg, txs[1..], n - 1, hash);
      assert txs[..n][1..] == txs[1..][..n - 1] && txs[1..][n - 1..] == txs[n..];
    } else {
      assert txs[0..] == txs;
    }
  }

  lemma {:induction false} FindInComplete(cfg: Config, txs: seq<Transaction>, i: nat)
    requires i < |txs|
    ensures FindIn(cfg, txs, TxHash(cfg, txs[i])).Some?
    decreases i
  {
    if i > 0 {
      FindInComplete(cfg, txs[1..], i - 1);
    }
  }

  /** Repeats at the end hide nothing and add nothing to find. */
  lemma PaddedFindIn(cfg: Config, xs: seq<Transaction>, ys: seq<Transaction>, hash: Hash)
    requires Padded(xs, ys)
    ensures SameFinding(FindIn(cfg, xs, hash), FindIn(cfg, ys, hash))
  {
    var n := |xs|;
    SameFindIn(cfg, xs, ys[..n], hash);
    FindInFront(cfg, ys, n, hash);
    FindInSound(cfg, ys[n..], hash);
    var late := FindIn(cfg, ys[n..], hash);
    if late.Some? {
      var j :| 0 <= j < |ys[n..]| && ys[n..][j] == late.value;
      assert Repeats(xs, ys[n + j]);
      var i :| 0 <= i < |xs| && xs[i].content == ys[n + j].content;
      FindInComplete(cfg, xs, i);
    }
  }

  lemma {:induction false} SameFindTx(cfg: Config, a: History, b: History, hash: Hash)
    requires SameHistory(a, b)
    ensures SameFinding(FindTx(cfg, a, hash), FindTx(cfg, b, hash))
    decreases |a|
  {
    hide Padded;
    if a != [] {
      assert SameBody(a[0], b[0]);
      if Padded(a[0], b[0]) {
        PaddedFindIn(cfg, a[0], b[0], hash);
      } else {
        PaddedFindIn(cfg, b[0], a[0], hash);
      }
      SameFindTx(cfg, a[1..], b[1..], hash);
    }
  }

  lemma FoundIsSigned(cfg: Config, h: History, hash: Hash)
    requires AllSigned(cfg, h) && FindTx(cfg, h, hash).Some?
    ensures IsAttestation(FindTx(cfg, h, hash).value) ==> SignatureOk(cfg, FindTx(cfg, h, hash).value)
  {
    FindTxSound(cfg, h, hash);
    var tx := FindTx(cfg, h, hash).value;
    var i :| 0 <= i < |h| && tx in h[i];
    var j :| 0 <= j < |h[i]| && h[i][j] == tx;
    assert SignedAt(cfg, h, i, j);
  }

  lemma SameEvidence(cfg: Config, a: History, b: History, hash: Hash)
    requires SameHistory(a, b) && AllSigned(cfg, a) && AllSigned(cfg, b)
    ensures FindTx(cfg, a, hash).Some? == FindTx(cfg, b, hash).Some?
    ensures FindTx(cfg, a, hash).Some? ==>
      var x, y := FindTx(cfg, a, hash).value, FindTx(cfg, b, hash).value;
      x.content == y.content && (IsAttestation(x) ==> SignatureOk(cfg, x) && SignatureOk(cfg, y))
  {
    SameFindTx(cfg, a, b, hash);
    if FindTx(cfg, a, hash).Some? {
      FoundIsSigned(cfg, a, hash);
      FoundIsSigned(cfg, b, hash);
    }
  }

  lemma SameSlash(cfg: Config, p: Payload, a: History, b: History, validators: set<Key>)
    requires SameHistory(a, b) && AllSigned(cfg, a) && AllSigned(cfg, b)
    ensures ValidSlash(cfg, p, a, validators) == ValidSlash(cfg, p, b, validators)
  {
    if IsSlash(p) {
      SameEvidence(cfg, a, b, p.evidence[0]);
      SameEvidence(cfg, a, b, p.evidence[1]);
    }
  }

  lemma {:induction false} SameApply(cfg: Config, w: Weights, xs: seq<Transaction>, ys: seq<Transaction>,
                                     a: History, b: History, validators: set<Key>)
    requires SameContents(xs, ys) && SameHistory(a, b) && AllSigned(cfg, a) && AllSigned(cfg, b)
    ensures ApplyTxs(cfg, w, xs, a, validators) == ApplyTxs(cfg, w, ys, b, validators)
    decreases |xs|
  {
    if xs != [] {
      var n := |xs| - 1;
      SameApply(cfg, w, xs[..n], ys[..n], a, b, validators);
      SameSlash(cfg, xs[n].Payload(), a, b, validators);
    }
  }

  lemma {:induction false} InertTail(cfg: Config, w: Weights, c: Cohort, h: nat, txs: seq<Transaction>, n: nat,
                                     prefix: History, validators: set<Key>)
    requires n <= |txs| && forall j | n <= j < |txs| :: Inert(txs[j])
    ensures ApplyTxs(cfg, w, txs, prefix, validators) == ApplyTxs(cfg, w, txs[..n], prefix, validators)
    ensures ReplayPromotions(cfg, c, w, h, txs) == ReplayPromotions(cfg, c, w, h, txs[..n])
    decreases |txs|
  {
    if n == |txs| {
      assert txs[..n] == txs;
    } else {
      var m := |txs| - 1;
      InertTail(cfg, w, c, h, txs[..m], n, prefix, validators);
      assert txs[..m][..n] == txs[..n] && Inert(txs[m]);
      hide ValidSlash, ConsensusAuthorities, Credited, Debited;
    }
  }

  lemma PaddedApply(cfg: Config, w: Weights, c: Cohort, h: nat, xs: seq<Transaction>, ys: seq<Transaction>,
                    a: History, b: History, validators: set<Key>)
    requires Padded(xs, ys) && SameHistory(a, b) && AllSigned(cfg, a) && AllSigned(cfg, b)
    ensures ApplyTxs(cfg, w, xs, a, validators) == ApplyTxs(cfg, w, ys, b, validators)
    ensures ReplayPromotions(cfg, c, w, h, xs) == ReplayPromotions(cfg, c, w, h, ys)
  {
    hide ApplyTxs, ReplayPromotions;
    InertTail(cfg, w, c, h, ys, |xs|, b, validators);
    SameApply(cfg, w, xs, ys[..|xs|], a, b, validators);
    SamePromotions(cfg, c, w, h, xs, ys[..|xs|]);
  }

  lemma FlipHistory(a: History, b: History)
    requires SameHistory(a, b)
    ensures SameHistory(b, a)
  {
    forall i | 0 <= i < |a| ensures SameBody(b[i], a[i]) {
      assert SameBody(a[i], b[i]);
    }
  }

  /** Bodies of one content have one effect, judged against prefixes of one content. */
  lemma SameBodySameEffect(cfg: Config, w: Weights, c: Cohort, h: nat, xs: seq<Transaction>, ys: seq<Transaction>,
                           a: History, b: History, validators: set<Key>)
    requires SameBody(xs, ys) && SameHistory(a, b) && AllSigned(cfg, a) && AllSigned(cfg, b)
    ensures ApplyTxs(cfg, w, xs, a, validators) == ApplyTxs(cfg, w, ys, b, validators)
    ensures ReplayPromotions(cfg, c, w, h, xs) == ReplayPromotions(cfg, c, w, h, ys)
  {
    hide Padded, SameHistory, ApplyTxs, ReplayPromotions;
    if Padded(xs, ys) {
      PaddedApply(cfg, w, c, h, xs, ys, a, b, validators);
    } else {
      FlipHistory(a, b);
      PaddedApply(cfg, w, c, h, ys, xs, b, a, validators);
    }
  }

  lemma SignedPrefix(cfg: Config, h: History, n: nat)
    requires AllSigned(cfg, h) && n <= |h|
    ensures AllSigned(cfg, h[..n])
  {
    forall i, j | 0 <= i < n && 0 <= j < |h[..n][i]| ensures SignedAt(cfg, h[..n], i, j) {
      assert SignedAt(cfg, h, i, j);
    }
  }

  lemma {:induction false} SamePromotions(cfg: Config, c: Cohort, w: Weights, i: nat, xs: seq<Transaction>,
                                          ys: seq<Transaction>)
    requires SameContents(xs, ys)
    ensures ReplayPromotions(cfg, c, w, i, xs) == ReplayPromotions(cfg, c, w, i, ys)
    decreases |xs|
  {
    if xs != [] {
      SamePromotions(cfg, c, w, i, xs[..|xs| - 1], ys[..|xs| - 1]);
    }
  }

  lemma {:induction false} SameDerivedState(cfg: Config, a: History, b: History)
    requires SameHistory(a, b) && AllSigned(cfg, a) && AllSigned(cfg, b)
    ensures RegistryAt(cfg, a) == RegistryAt(cfg, b)
    ensures CohortAt(cfg, a) == CohortAt(cfg, b)
    decreases |a|
  {
    hide SameBody, AllSigned, ApplyTxs, ReplayPromotions;
    if a != [] {
      var n := |a| - 1;
      SignedPrefix(cfg, a, n);
      SignedPrefix(cfg, b, n);
      SameDerivedState(cfg, a[..n], b[..n]);
      SameBodySameEffect(cfg, RegistryAt(cfg, a[..n]), CohortAt(cfg, a[..n]), n, a[n], b[n], a[..n], b[..n],
                         AuthoritiesAt(cfg, a[..n]));
    }
  }

  /** Histories of equal hashed content, every attestation signed, yield the same validators. */
  lemma SameValidators(cfg: Config, a: History, b: History)
    requires SameHistory(a, b) && AllSigned(cfg, a) && AllSigned(cfg, b)
    ensures RegistryAt(cfg, a) == RegistryAt(cfg, b)
    ensures ValidatorSet(cfg, a) == ValidatorSet(cfg, b)
  {
    SameDerivedState(cfg, a, b);
  }

  // ---- what an accepted block may list twice ------------------------------------------------------

  lemma {:induction false} PromotedIsCarried(c: Context, s: Scan, txs: seq<Transaction>, i: nat)
    requires i < |txs| && txs[i].Payload().Promotion?
    ensures txs[i].Payload().candidate in ScanAfter(c, s, txs).cohort.promoted
    decreases |txs|
  {
    var n := |txs| - 1;
    if i < n {
      assert txs[..n][i] == txs[i];
      PromotedIsCarried(c, s, txs[..n], i);
    }
  }

  /** Certificates and promotions are rejected the second time; what an accepted block repeats is inert, or a slash. */
  lemma RepeatIsInert(cfg: Config, blocks: seq<Block>, k: nat, i: nat, j: nat)
    requires CollisionFree(cfg) && ValidChain(cfg, blocks) && k < |blocks|
    requires i < j < |blocks[k].transactions|
    requires blocks[k].transactions[i].content == blocks[k].transactions[j].content
    ensures Inert(blocks[k].transactions[j]) || blocks[k].transactions[j].Payload().Slash?
  {
    hide ValidChain, ValidCertificate, ValidSlash, SignatureOk;
    var prefix, txs := Bodies(blocks[..k]), blocks[k].transactions;
    var c, s := ContextOf(cfg, prefix), ScanAt(cfg, prefix);
    AcceptedTx(cfg, blocks, k, j);
    assert txs[..j][i] == txs[i] && txs[i] in txs[..j];
    if txs[j].Payload().Certificate? {
      ScannedScopes(c, s, txs[..j]);
    } else if txs[j].Payload().Promotion? {
      PromotedIsCarried(c, s, txs[..j], i);
    }
  }

  lemma HashNamesContent(cfg: Config, x: Transaction, y: Transaction)
    requires InjectiveContents(cfg) && TxHash(cfg, x) == TxHash(cfg, y)
    ensures x.content == y.content
  {
  }

  function SlashCount(txs: seq<Transaction>): nat {
    if txs == [] then 0
    else
      var n := |txs| - 1;
      SlashCount(txs[..n]) + if txs[n].Payload().Slash? then 1 else 0
  }

  /** A list and a prefix of it count alike exactly when no slash comes after the prefix. */
  lemma {:induction false} CountTail(txs: seq<Transaction>, n: nat)
    requires n <= |txs|
    ensures SlashCount(txs) >= SlashCount(txs[..n])
    ensures SlashCount(txs) == SlashCount(txs[..n]) <==> forall j | n <= j < |txs| :: !txs[j].Payload().Slash?
    decreases |txs|
  {
    if n == |txs| {
      assert txs[..n] == txs;
    } else {
      var m := |txs| - 1;
      CountTail(txs[..m], n);
      assert txs[..m][..n] == txs[..n];
      assert forall j | n <= j < m :: txs[..m][j] == txs[j];
    }
  }

  lemma {:induction false} CountSame(xs: seq<Transaction>, ys: seq<Transaction>)
    requires SameContents(xs, ys)
    ensures SlashCount(xs) == SlashCount(ys)
    decreases |xs|
  {
    if xs != [] {
      CountSame(xs[..|xs| - 1], ys[..|ys| - 1]);
    }
  }

  /** Where one list of hashes is the other with repeats, the contents match up to there. */
  lemma PaddingContents(cfg: Config, xs: seq<Transaction>, ys: seq<Transaction>)
    requires CollisionFree(cfg) && Merkle.Pads(TxHashes(cfg, xs), TxHashes(cfg, ys))
    ensures |xs| <= |ys| && SameContents(xs, ys[..|xs|])
    ensures forall j | |xs| <= j < |ys| :: Repeats(xs, ys[j])
  {
    var n := |xs|;
    var p, q := TxHashes(cfg, xs), TxHashes(cfg, ys);
    forall i | 0 <= i < n ensures xs[i].content == ys[i].content {
      assert q[..n][i] == p[i] == TxHash(cfg, xs[i]) && q[i] == TxHash(cfg, ys[i]);
      HashNamesContent(cfg, xs[i], ys[i]);
    }
    forall j | n <= j < |ys| ensures Repeats(xs, ys[j]) {
      var i :| 0 <= i < n && p[i] == q[j];
      HashNamesContent(cfg, xs[i], ys[j]);
    }
  }

  /** What an accepted block repeats at its end is inert exactly when the repeats bring no further slash. */
  lemma AcceptedPadding(cfg: Config, xs: seq<Transaction>, blocks: seq<Block>, k: nat)
    requires CollisionFree(cfg) && ValidChain(cfg, blocks) && k < |blocks|
    requires Merkle.Pads(TxHashes(cfg, xs), TxHashes(cfg, blocks[k].transactions))
    ensures Padded(xs, blocks[k].transactions) <==> SlashCount(xs) == SlashCount(blocks[k].transactions)
  {
    hide ValidChain, CollisionFree;
    var n, ys := |xs|, blocks[k].transactions;
    PaddingContents(cfg, xs, ys);
    CountSame(xs, ys[..n]);
    CountTail(ys, n);
    if SlashCount(xs) == SlashCount(ys) {
      forall j | n <= j < |ys| ensures Inert(ys[j]) {
        assert Repeats(xs, ys[j]);
        var i :| 0 <= i < n && xs[i].content == ys[j].content;
        assert xs[i].content == ys[i].content;
        RepeatIsInert(cfg, blocks, k, i, j);
      }
    }
  }

  // ---- two final blocks at one height -------------------------------------------------------------

  /** Block by block the two chains list as many slashes. */
  predicate SameSlashCounts(a: seq<Block>, b: seq<Block>, h: nat)
    requires h <= |a| && h <= |b|
  {
    forall k | 0 <= k < h :: SlashCount(a[k].transactions) == SlashCount(b[k].transactions)
  }

  lemma SameRootSameBody(cfg: Config, a: seq<Block>, b: seq<Block>, k: nat)
    requires CollisionFree(cfg) && ValidChain(cfg, a) && ValidChain(cfg, b) && k < |a| && k < |b|
    requires BlockHash(cfg, a[k]) == BlockHash(cfg, b[k])
    ensures SameBody(a[k].transactions, b[k].transactions)
       <==> SlashCount(a[k].transactions) == SlashCount(b[k].transactions)
  {
    var xs, ys := a[k].transactions, b[k].transactions;
    assert HeaderOf(cfg, a[k]) == HeaderOf(cfg, b[k]);
    hide ValidChain, Padded;
    SameRootSameHashes(cfg, xs, ys);
    if Merkle.Pads(TxHashes(cfg, xs), TxHashes(cfg, ys)) {
      AcceptedPadding(cfg, xs, b, k);
    } else {
      AcceptedPadding(cfg, ys, a, k);
    }
    if SameBody(xs, ys) {
      SameBodySameCount(xs, ys);
    }
  }

  lemma SameBodySameCount(xs: seq<Transaction>, ys: seq<Transaction>)
    requires SameBody(xs, ys)
    ensures SlashCount(xs) == SlashCount(ys)
  {
    var few, many := if Padded(xs, ys) then xs else ys, if Padded(xs, ys) then ys else xs;
    CountSame(few, many[..|few|]);
    CountTail(many, |few|);
  }

  /** Valid chains that meet in one block hash have the same contents up to there iff they list as many slashes. */
  lemma SharedHashSharedContents(cfg: Config, a: seq<Block>, b: seq<Block>, h: nat)
    requires CollisionFree(cfg) && ValidChain(cfg, a) && ValidChain(cfg, b)
    requires 1 <= h <= |a| && h <= |b| && BlockHash(cfg, a[h - 1]) == BlockHash(cfg, b[h - 1])
    ensures SameHistory(Bodies(a[..h]), Bodies(b[..h])) <==> SameSlashCounts(a, b, h)
  {
    assert InjectiveHeaders(cfg);
    hide ValidChain, SameBody, CollisionFree;
    ValidIsLinked(cfg, a);
    ValidIsLinked(cfg, b);
    LinksForceHistory(cfg, a, b, h - 1);
    forall k | 0 <= k < h
      ensures SameBody(Bodies(a[..h])[k], Bodies(b[..h])[k])
         <==> SlashCount(a[k].transactions) == SlashCount(b[k].transactions)
    {
      SameRootSameBody(cfg, a, b, k);
    }
  }

  /** No slash occurs twice in the list. */
  predicate NoSlashTwice(txs: seq<Transaction>) {
    forall i, j | 0 <= i < j < |txs| && txs[i].content == txs[j].content :: !txs[i].Payload().Slash?
  }

  predicate NoSlashTwiceBelow(blocks: seq<Block>, h: nat)
    requires h <= |blocks|
  {
    forall k | 0 <= k < h :: NoSlashTwice(blocks[k].transactions)
  }

  lemma RepeatsNoSlash(cfg: Config, xs: seq<Transaction>, ys: seq<Transaction>)
    requires CollisionFree(cfg) && Merkle.Pads(TxHashes(cfg, xs), TxHashes(cfg, ys)) && NoSlashTwice(ys)
    ensures SlashCount(xs) == SlashCount(ys)
  {
    hide CollisionFree;
    PaddingContents(cfg, xs, ys);
    CountSame(xs, ys[..|xs|]);
    CountTail(ys, |xs|);
    forall j | |xs| <= j < |ys| ensures !ys[j].Payload().Slash? {
      assert Repeats(xs, ys[j]);
      var i :| 0 <= i < |xs| && xs[i].content == ys[j].content;
      assert xs[i].content == ys[i].content;
    }
  }

  /** In particular they list as many where no block lists a slash twice. */
  lemma NoSlashTwiceSuffices(cfg: Config, a: seq<Block>, b: seq<Block>, h: nat)
    requires CollisionFree(cfg) && ValidChain(cfg, a) && ValidChain(cfg, b)
    requires 1 <= h <= |a| && h <= |b| && BlockHash(cfg, a[h - 1]) == BlockHash(cfg, b[h - 1])
    requires NoSlashTwiceBelow(a, h) && NoSlashTwiceBelow(b, h)
    ensures SameSlashCounts(a, b, h)
  {
    assert InjectiveHeaders(cfg);
    hide ValidChain, NoSlashTwice, CollisionFree;
    ValidIsLinked(cfg, a);
    ValidIsLinked(cfg, b);
    LinksForceHistory(cfg, a, b, h - 1);
    forall k | 0 <= k < h ensures SlashCount(a[k].transactions) == SlashCount(b[k].transactions) {
      var xs, ys := a[k].transactions, b[k].transactions;
      assert HeaderOf(cfg, a[k]) == HeaderOf(cfg, b[k]);
      SameRootSameHashes(cfg, xs, ys);
      if Merkle.Pads(TxHashes(cfg, xs), TxHashes(cfg, ys)) {
        RepeatsNoSlash(cfg, xs, ys);
      } else {
        RepeatsNoSlash(cfg, ys, xs);
      }
    }
  }

  function Twin(b: Block): Block
    requires b.transactions != []
  {
    b.(transactions := b.transactions + [b.transactions[|b.transactions| - 1]])
  }

  /** The seal sees the transactions through the header alone. */
  lemma TwinIsSealed(cfg: Config, last: Block, height: nat, validators: set<Key>, b: Block)
    requires |b.transactions| > 1 && |b.transactions| % 2 == 1
    requires SealOk(cfg, last, height, validators, b)
    ensures SealOk(cfg, last, height, validators, Twin(b))
    ensures BlockHash(cfg, Twin(b)) == BlockHash(cfg, b)
  {
    RepeatedTransactionKeepsHash(cfg, b);
    TwinHasHeader(cfg, b);
    hide MerkleRoot, ScheduledProposer, QuorumSize, BlockHash;
    assert CommitSigners(cfg, Twin(b)) == CommitSigners(cfg, b);
    assert ViewChangeSigners(cfg, Twin(b)) == ViewChangeSigners(cfg, b);
  }

  lemma TwinHasHeader(cfg: Config, b: Block)
    requires |b.transactions| > 1 && |b.transactions| % 2 == 1
    ensures HeaderOf(cfg, Twin(b)) == HeaderOf(cfg, b)
  {
    var txs := b.transactions;
    var last := txs[|txs| - 1];
    Merkle.OddDuplicationCollides(cfg.hashPair, TxHashes(cfg, txs));
    assert TxHashes(cfg, txs + [last]) == TxHashes(cfg, txs) + [TxHash(cfg, last)];
  }

  /** The last transaction is a slash that still takes something when applied once more. */
  ghost predicate EndsInSlash(cfg: Config, chain: seq<Block>, b: Block) {
    && b.transactions != []
    && var p := b.transactions[|b.transactions| - 1].Payload();
    && p.Slash? && p.amount > 0
    && Weight(RegistryAt(cfg, Bodies(chain) + [b.transactions]), p.offender, p.penalised) > 0
  }

  /**
   * Why the counts must agree: an acceptable block of an odd number of transactions ending in
   * a slash and the block that lists that slash twice have one hash and may both follow the chain, yet
   * the second debits the offender twice.
   */
  lemma RepeatedSlashSplitsState(cfg: Config, chain: seq<Block>, b: Block)
    requires ValidChain(cfg, chain) && BlockOk(cfg, chain, b)
    requires |b.transactions| > 1 && |b.transactions| % 2 == 1 && EndsInSlash(cfg, chain, b)
    ensures ValidChain(cfg, chain + [b]) && ValidChain(cfg, chain + [Twin(b)])
    ensures BlockHash(cfg, Twin(b)) == BlockHash(cfg, b)
    ensures RegistryAt(cfg, Bodies(chain + [Twin(b)])) != RegistryAt(cfg, Bodies(chain + [b]))
  {
    var prefix, txs := Bodies(chain), b.transactions;
    hide TxOk, SealOk, ValidSlash, ApplyTxs;
    TwinIsSealed(cfg, chain[|chain| - 1], |chain|, ValidatorSet(cfg, prefix), b);
    SlashOkAgain(cfg, ContextOf(cfg, prefix), ScanAt(cfg, prefix), txs);
    OneMoreBlock(cfg, chain, b);
    OneMoreBlock(cfg, chain, Twin(b));
    DebitedAgain(cfg, prefix, txs, txs[|txs| - 1]);
    assert Bodies(chain + [b]) == prefix + [txs];
    assert Bodies(chain + [Twin(b)]) == prefix + [txs + [txs[|txs| - 1]]];
  }

  lemma SlashOkAgain(cfg: Config, c: Context, s: Scan, txs: seq<Transaction>)
    requires txs != [] && txs[|txs| - 1].Payload().Slash? && TxsOk(cfg, c, s, txs)
    ensures TxsOk(cfg, c, s, txs + [txs[|txs| - 1]])
    ensures ValidSlash(cfg, txs[|txs| - 1].Payload(), c.prefix, ConsensusAuthorities(c.weights))
  {
    hide ValidSlash;
    assert (txs + [txs[|txs| - 1]])[..|txs|] == txs;
  }

  lemma DebitedAgain(cfg: Config, prefix: History, txs: seq<Transaction>, slash: Transaction)
    requires slash.Payload().Slash? && slash.Payload().amount > 0
    requires ValidSlash(cfg, slash.Payload(), prefix, AuthoritiesAt(cfg, prefix))
    requires Weight(RegistryAt(cfg, prefix + [txs]), slash.Payload().offender, slash.Payload().penalised) > 0
    ensures RegistryAt(cfg, prefix + [txs + [slash]]) != RegistryAt(cfg, prefix + [txs])
  {
  }

  /** Both chains judge height h against the same validators. */
  lemma SharedHashSharedValidators(cfg: Config, a: seq<Block>, b: seq<Block>, h: nat)
    requires CollisionFree(cfg) && ValidChain(cfg, a) && ValidChain(cfg, b)
    requires 1 <= h <= |a| && h <= |b| && BlockHash(cfg, a[h - 1]) == BlockHash(cfg, b[h - 1])
    requires SameSlashCounts(a, b, h)
    ensures ValidatorSet(cfg, Bodies(a[..h])) == ValidatorSet(cfg, Bodies(b[..h]))
  {
    SharedHashSharedContents(cfg, a, b, h);
    PrefixValid(cfg, a, h);
    PrefixValid(cfg, b, h);
    ValidIsSigned(cfg, a[..h]);
    ValidIsSigned(cfg, b[..h]);
    SameValidators(cfg, Bodies(a[..h]), Bodies(b[..h]));
  }

  /**
   * Accountable finality. Two valid chains share the block below height h, list as many slashes block by block
   * below it, and carry different final blocks at h: then more than a third of the height's validators validly
   * signed both headers.
   */
  lemma AccountableFinality(cfg: Config, a: seq<Block>, b: seq<Block>, h: nat)
    requires CollisionFree(cfg) && ValidChain(cfg, a) && ValidChain(cfg, b)
    requires 1 <= h < |a| && h < |b| && BlockHash(cfg, a[h - 1]) == BlockHash(cfg, b[h - 1])
    requires SameSlashCounts(a, b, h)
    requires IsFinal(cfg, a, h) && IsFinal(cfg, b, h)
    requires BlockHash(cfg, a[h]) != BlockHash(cfg, b[h])
    ensures
      var validators := ValidatorSet(cfg, Bodies(a[..h]));
      var culprits := CommitSigners(cfg, a[h]) * CommitSigners(cfg, b[h]) * validators;
      && HeaderOf(cfg, a[h]) != HeaderOf(cfg, b[h])
      && |culprits| >= (|validators| - 1) / 3 + 1
      && forall k | k in culprits :: SignedBoth(cfg, k, a[h], b[h])
  {
    SharedHashSharedValidators(cfg, a, b, h);
    var validators := ValidatorSet(cfg, Bodies(a[..h]));
    var x, y := CommitSigners(cfg, a[h]) * validators, CommitSigners(cfg, b[h]) * validators;
    QuorumsOverlap(x, y, validators);
    assert x * y == CommitSigners(cfg, a[h]) * CommitSigners(cfg, b[h]) * validators;
  }

  /** The key's commit signatures on the two blocks verify over the two headers. */
  predicate SignedBoth(cfg: Config, k: Key, a: Block, b: Block) {
    && k in a.commits && Verifies(cfg, k, HeaderMessage(HeaderOf(cfg, a)), a.commits[k])
    && k in b.commits && Verifies(cfg, k, HeaderMessage(HeaderOf(cfg, b)), b.commits[k])
  }
}
