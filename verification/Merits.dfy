/**
 * reputation/derive.py: where every point of reputation comes from. A weight is the genesis weight, one reward
 * for each certified scope, and what slashes took; contesting a certificate withdraws no credit.
 */
module Merits {
  import opened Types
  import opened Registry
  import opened Slashing
  import opened Tally
  import opened Aggregator
  import opened Derive
  import opened Consensus
  import opened Certificates
  import opened Admission

  // ---- the books of one key in one domain ---------------------------------------------------------

  predicate Credits(tx: Transaction, k: Key, d: string) {
    tx.Payload().Certificate? && tx.Payload().certified.subject == k && tx.Payload().certified.domain == d
  }

  function CreditsIn(txs: seq<Transaction>, k: Key, d: string): nat {
    if txs == [] then 0
    else CreditsIn(txs[..|txs| - 1], k, d) + if Credits(txs[|txs| - 1], k, d) then 1 else 0
  }

  function CreditsOn(history: History, k: Key, d: string): nat {
    if history == [] then 0 else CreditsOn(history[..|history| - 1], k, d) + CreditsIn(history[|history| - 1], k, d)
  }

  /**
   * What one transaction takes: the debit of a valid slash of that key in that domain, as far as there is weight to
   * take.
   */
  function LostTx(cfg: Config, w: Weights, tx: Transaction, prefix: History, validators: set<Key>, k: Key,
                  d: string): int {
    var p := tx.Payload();
    if p.Slash? && p.offender == k && p.penalised == d && ValidSlash(cfg, p, prefix, validators)
    then Weight(w, k, d) - Max(0, Weight(w, k, d) - Min(p.amount, MAX_SLASH))
    else 0
  }

  function LostIn(cfg: Config, w: Weights, txs: seq<Transaction>, prefix: History, validators: set<Key>, k: Key,
                  d: string): int {
    if txs == [] then 0
    else
      var n := |txs| - 1;
      LostIn(cfg, w, txs[..n], prefix, validators, k, d)
      + LostTx(cfg, ApplyTxs(cfg, w, txs[..n], prefix, validators), txs[n], prefix, validators, k, d)
  }

  function LostOn(cfg: Config, history: History, k: Key, d: string): int {
    if history == [] then 0
    else
      var n := |history| - 1;
      LostOn(cfg, history[..n], k, d)
      + LostIn(cfg, RegistryAt(cfg, history[..n]), history[n], history[..n], AuthoritiesAt(cfg, history[..n]), k, d)
  }

  lemma TxBalances(cfg: Config, w: Weights, tx: Transaction, prefix: History, validators: set<Key>, k: Key, d: string)
    ensures Weight(ApplyTx(cfg, w, tx, prefix, validators), k, d)
         == Weight(w, k, d) + (if Credits(tx, k, d) then CERTIFICATE_REWARD else 0)
            - LostTx(cfg, w, tx, prefix, validators, k, d)
    ensures Weight(w, k, d) >= 0 ==> 0 <= LostTx(cfg, w, tx, prefix, validators, k, d) <= MAX_SLASH
    ensures Weight(w, k, d) >= 0 ==> Weight(ApplyTx(cfg, w, tx, prefix, validators), k, d) >= 0
    ensures !Equivocates(cfg, prefix, k) ==> LostTx(cfg, w, tx, prefix, validators, k, d) == 0
  {
    var p := tx.Payload();
    if p.Slash? && ValidSlash(cfg, p, prefix, validators) {
      SlashNeedsEquivocation(cfg, p, prefix, validators);
    }
    hide Equivocates;
  }

  /**
   * A certificate adds 10 to its subject in its domain, a slash that is in order takes up to 100 from its offender
   * in the penalised domain, as far as there is weight to take; nothing else moves a weight.
   */
  lemma WeightMoves(cfg: Config, w: Weights, tx: Transaction, prefix: History, validators: set<Key>, k: Key, d: string)
    ensures
      var p, before := tx.content.payload, Weight(w, k, d);
      var after := Weight(ApplyTx(cfg, w, tx, prefix, validators), k, d);
      if p.Certificate? && p.certified.subject == k && p.certified.domain == d then after == before + 10
      else if p.Slash? && p.offender == k && p.penalised == d && SlashInOrder(cfg, p, prefix, validators) then
        var due := if p.amount < 100 then p.amount else 100;
        after == if before < due then 0 else before - due
      else after == before
  {
    var p := tx.content.payload;
    SlashExactly(cfg, p, prefix, validators);
    hide ValidSlash, SlashInOrder;
  }

  /** A weight starts as the anchor has it, and 0 where it has none. */
  lemma WeightStarts(cfg: Config, k: Key, d: string)
    ensures Weight(RegistryAt(cfg, []), k, d)
         == if k in cfg.genesis && d in cfg.genesis[k] then cfg.genesis[k][d] else 0
  {
  }

  lemma {:induction false} TxsBalance(cfg: Config, w: Weights, txs: seq<Transaction>, prefix: History,
                                      validators: set<Key>, k: Key, d: string)
    ensures Weight(ApplyTxs(cfg, w, txs, prefix, validators), k, d)
         == Weight(w, k, d) + CERTIFICATE_REWARD * CreditsIn(txs, k, d) - LostIn(cfg, w, txs, prefix, validators, k, d)
    ensures Weight(w, k, d) >= 0 ==>
      && 0 <= LostIn(cfg, w, txs, prefix, validators, k, d)
      && Weight(ApplyTxs(cfg, w, txs, prefix, validators), k, d) >= 0
    ensures !Equivocates(cfg, prefix, k) ==> LostIn(cfg, w, txs, prefix, validators, k, d) == 0
    decreases |txs|
  {
    hide Equivocates, ApplyTx, LostTx, Credits;
    if txs != [] {
      var n := |txs| - 1;
      TxsBalance(cfg, w, txs[..n], prefix, validators, k, d);
      TxBalances(cfg, ApplyTxs(cfg, w, txs[..n], prefix, validators), txs[n], prefix, validators, k, d);
    }
  }

  /** The books balance on every history, whatever it contains; nothing is ever lost below zero. */
  lemma {:induction false} WeightBalances(cfg: Config, history: History, k: Key, d: string)
    ensures Weight(RegistryAt(cfg, history), k, d)
         == Weight(cfg.genesis, k, d) + CERTIFICATE_REWARD * CreditsOn(history, k, d) - LostOn(cfg, history, k, d)
    ensures Weight(cfg.genesis, k, d) >= 0 ==>
      0 <= LostOn(cfg, history, k, d) && Weight(RegistryAt(cfg, history), k, d) >= 0
    decreases |history|
  {
    hide ApplyTxs, LostIn, CreditsIn;
    if history != [] {
      var n := |history| - 1;
      WeightBalances(cfg, history[..n], k, d);
      TxsBalance(cfg, RegistryAt(cfg, history[..n]), history[n], history[..n], AuthoritiesAt(cfg, history[..n]), k, d);
    }
  }

  lemma {:induction false} HonestLoseNothing(cfg: Config, history: History, k: Key, d: string)
    requires !Equivocates(cfg, history, k)
    ensures LostOn(cfg, history, k, d) == 0
    decreases |history|
  {
    hide Equivocates, ApplyTxs, LostIn;
    if history != [] {
      var n := |history| - 1;
      if Equivocates(cfg, history[..n], k) {
        EquivocationSpreads(cfg, history, n, k);
      }
      HonestLoseNothing(cfg, history[..n], k, d);
      TxsBalance(cfg, RegistryAt(cfg, history[..n]), history[n], history[..n], AuthoritiesAt(cfg, history[..n]), k, d);
    }
  }

  /** A key that never equivocates has its genesis weight and one reward for each of its certificates. */
  lemma HonestWeight(cfg: Config, history: History, k: Key, d: string)
    requires !Equivocates(cfg, history, k)
    ensures Weight(RegistryAt(cfg, history), k, d)
         == Weight(cfg.genesis, k, d) + CERTIFICATE_REWARD * CreditsOn(history, k, d)
  {
    WeightBalances(cfg, history, k, d);
    HonestLoseNothing(cfg, history, k, d);
  }

  // ---- one credit per certified scope -----------------------------------------------------------------

  function ScopesFor(scopes: set<Scope>, k: Key, d: string): set<Scope> {
    set s | s in scopes && s.subject == k && s.domain == d
  }

  /** Every certificate an accepted block holds is of a scope not seen before. */
  lemma {:induction false} BlockCreditsScopes(cfg: Config, c: Context, s: Scan, txs: seq<Transaction>, k: Key,
                                              d: string)
    requires TxsOk(cfg, c, s, txs)
    ensures |ScopesFor(ScanAfter(c, s, txs).seen, k, d)| == |ScopesFor(s.seen, k, d)| + CreditsIn(txs, k, d)
    decreases |txs|
  {
    if txs != [] {
      var n := |txs| - 1;
      var before := ScanAfter(c, s, txs[..n]);
      BlockCreditsScopes(cfg, c, s, txs[..n], k, d);
      TxCreditsScope(cfg, c, before, txs[n], k, d);
      hide TxOk, Advance, ScopesFor;
    }
  }

  lemma TxCreditsScope(cfg: Config, c: Context, s: Scan, tx: Transaction, k: Key, d: string)
    requires TxOk(cfg, c, s, tx)
    ensures |ScopesFor(Advance(c, s, tx).seen, k, d)| == |ScopesFor(s.seen, k, d)| + if Credits(tx, k, d) then 1 else 0
  {
    hide ValidCertificate, PromotionOk, ValidSlash, SignatureOk, ScopesFor;
    if tx.Payload().Certificate? {
      OneMoreScope(s.seen, tx.Payload().certified, k, d);
    }
  }

  lemma OneMoreScope(scopes: set<Scope>, x: Scope, k: Key, d: string)
    requires x !in scopes
    ensures |ScopesFor(scopes + {x}, k, d)|
         == |ScopesFor(scopes, k, d)| + if x.subject == k && x.domain == d then 1 else 0
  {
    var more := ScopesFor(scopes, k, d) + if x.subject == k && x.domain == d then {x} else {};
    assert ScopesFor(scopes + {x}, k, d) == more;
    assert x !in ScopesFor(scopes, k, d);
  }

  lemma NextBlockCredits(cfg: Config, blocks: seq<Block>, i: nat, k: Key, d: string)
    requires 1 <= i < |blocks| && BlockOkAt(cfg, blocks, i)
    ensures |ScopesFor(CertifiedScopes(Bodies(blocks[..i + 1])), k, d)|
         == |ScopesFor(CertifiedScopes(Bodies(blocks[..i])), k, d)| + CreditsIn(blocks[i].transactions, k, d)
    ensures CreditsOn(Bodies(blocks[..i + 1]), k, d)
         == CreditsOn(Bodies(blocks[..i]), k, d) + CreditsIn(blocks[i].transactions, k, d)
  {
    hide TxsOk, SealOk, CertifiedScopes, CohortAt, CreditsIn, ScopesFor;
    var prefix := Bodies(blocks[..i]);
    BlockCreditsScopes(cfg, ContextOf(cfg, prefix), ScanAt(cfg, prefix), blocks[i].transactions, k, d);
    CarriedIsRecomputed(cfg, blocks, i, ContextOf(cfg, prefix), ScanAt(cfg, prefix));
    NextBody(blocks, i);
  }

  lemma {:induction false} CreditsAreScopes(cfg: Config, blocks: seq<Block>, n: nat, k: Key, d: string)
    requires CollisionFree(cfg) && ValidChain(cfg, blocks) && 0 < n <= |blocks|
    ensures CreditsOn(Bodies(blocks[..n]), k, d) == |ScopesFor(CertifiedScopes(Bodies(blocks[..n])), k, d)|
    decreases n
  {
    hide BlockOkAt;
    if n == 1 {
      StartsEmpty(cfg, blocks);
      GenesisIsEmpty(cfg, blocks[0]);
      assert Bodies(blocks[..1]) == [[]];
      assert ScopesFor({}, k, d) == {};
    } else {
      CreditsAreScopes(cfg, blocks, n - 1, k, d);
      NextBlockCredits(cfg, blocks, n - 1, k, d);
    }
  }

  /** On a valid chain each scope credits its subject exactly once, and slashes alone ever take anything away. */
  lemma OneCreditPerScope(cfg: Config, blocks: seq<Block>, k: Key, d: string)
    requires CollisionFree(cfg) && ValidChain(cfg, blocks)
    ensures
      var history := Bodies(blocks);
      Weight(RegistryAt(cfg, history), k, d)
      == Weight(cfg.genesis, k, d) + CERTIFICATE_REWARD * |ScopesFor(CertifiedScopes(history), k, d)|
          - LostOn(cfg, history, k, d)
  {
    hide ValidChain, CertifiedScopes, ScopesFor, LostOn, CreditsOn, RegistryAt;
    assert blocks[..|blocks|] == blocks;
    assert blocks != [] by { ValidNotEmpty(cfg, blocks); }
    CreditsAreScopes(cfg, blocks, |blocks|, k, d);
    WeightBalances(cfg, Bodies(blocks), k, d);
  }

  lemma ValidNotEmpty(cfg: Config, blocks: seq<Block>)
    requires ValidChain(cfg, blocks)
    ensures blocks != []
  {
  }

  // ---- contested or not, the credit stays -----------------------------------------------------------------

  lemma MoreScopes(history: History, n: nat, k: Key, d: string)
    requires n <= |history|
    ensures ScopesFor(CertifiedScopes(history[..n]), k, d) <= ScopesFor(CertifiedScopes(history), k, d)
  {
    forall t | t in AllTxs(history[..n]) ensures t in AllTxs(history) {
      var i :| 0 <= i < n && t in history[..n][i];
      assert t in history[i];
    }
  }

  /**
   * However the chain grows, and whether a certificate is contested or not, its scope stays among those its
   * subject is credited for.
   */
  lemma CreditStays(cfg: Config, blocks: seq<Block>, n: nat, i: nat, j: nat)
    requires CollisionFree(cfg) && ValidChain(cfg, blocks) && i < n <= |blocks|
    requires j < |blocks[i].transactions| && blocks[i].transactions[j].Payload().Certificate?
    ensures
      var s := blocks[i].transactions[j].Payload().certified;
      var early, late := Bodies(blocks[..n]), Bodies(blocks);
      && s in ScopesFor(CertifiedScopes(early), s.subject, s.domain)
      && ScopesFor(CertifiedScopes(early), s.subject, s.domain) <= ScopesFor(CertifiedScopes(late), s.subject, s.domain)
      && Weight(RegistryAt(cfg, late), s.subject, s.domain)
         == Weight(cfg.genesis, s.subject, s.domain)
            + CERTIFICATE_REWARD * |ScopesFor(CertifiedScopes(late), s.subject, s.domain)|
            - LostOn(cfg, late, s.subject, s.domain)
  {
    var t := blocks[i].transactions[j];
    var s := t.Payload().certified;
    BodiesPrefix(blocks, n);
    assert t in Bodies(blocks[..n])[i];
    assert t in AllTxs(Bodies(blocks[..n]));
    MoreScopes(Bodies(blocks), n, s.subject, s.domain);
    hide ValidChain, LostOn, RegistryAt;
    OneCreditPerScope(cfg, blocks, s.subject, s.domain);
  }

  /**
   * The slash that contests a certificate falls on an attester it names. It leaves the subject's weight in the
   * certified domain as it was exactly when it punishes another key or another domain, or finds nothing to take.
   */
  lemma ContestSparesSubject(cfg: Config, history: History, i: nat, cert: Payload, j: nat, m: nat)
    requires cert.Certificate? && j < |history| && m < |history[j]|
    requires Contests(cfg, history, i, cert, j, history[j][m].Payload())
    ensures
      var s, slash := cert.certified, history[j][m].Payload();
      var before := Weight(WeightsBefore(cfg, history, j, m), s.subject, s.domain);
      var after := Weight(WeightsBefore(cfg, history, j, m + 1), s.subject, s.domain);
      && slash.offender in cert.grantedBy
      && (after == before
          <==> || slash.offender != s.subject || slash.penalised != s.domain
               || before == 0 || (before > 0 && slash.amount == 0))
  {
    hide ValidSlash, EvidenceSubmissions, AuthoritiesAt, RegistryAt, ConsensusAuthorities;
    var txs := history[j];
    assert txs[..m + 1][..m] == txs[..m];
    SlashShape(cfg, txs[m].Payload(), history[..j], AuthoritiesAt(cfg, history[..j]));
  }

  lemma SlashShape(cfg: Config, p: Payload, prefix: History, validators: set<Key>)
    requires ValidSlash(cfg, p, prefix, validators)
    ensures p.Slash? && p.amount >= 0
  {
  }
}
