/** blockchain/blockchain.py: validator sets, promotions and the validity of a chain. */
module Consensus {
  import Merkle
  import opened Types
  import opened Quorum
  import opened Registry
  import opened Balances
  import opened Slashing
  import opened Tally
  import opened Aggregator
  import opened Derive

  const PROMOTION_THRESHOLD := 100
  const MAX_NEW_VALIDATORS_PER_WINDOW := 2
  const PROMOTION_WINDOW := 5

  // ---- promotions and the validator set -----------------------------------------------

  /** The promoted keys, and the block index at which each promotion took effect. */
  datatype Cohort = Cohort(promoted: set<Key>, effects: seq<nat>)

  /** How many promotions took effect in the trailing window of block i. */
  function Fresh(effects: seq<nat>, i: nat): nat {
    if effects == [] then 0
    else
      var n := |effects| - 1;
      Fresh(effects[..n], i) + if effects[n] > i - PROMOTION_WINDOW then 1 else 0
  }

  /** `_promotion_ok`: competence, a quorum of the current validators, the rate cap and the fraction cap. */
  predicate PromotionOk(cfg: Config, p: Payload, validators: set<Key>, w: Weights, recent: nat) {
    && p.Promotion?
    && p.candidate !in validators
    && Weight(w, p.candidate, p.competence) >= PROMOTION_THRESHOLD
    && |Approvers(cfg, p.approvals, PromotionMessage(p.candidate, p.competence), validators)|
       >= QuorumSize(|validators|)
    && recent + 1 <= MAX_NEW_VALIDATORS_PER_WINDOW
    && 3 * (recent + 1) <= |validators| + 1
  }

  function Promote(c: Cohort, candidate: Key, i: nat): Cohort {
    Cohort(c.promoted + {candidate}, c.effects + [i])
  }

  /** Best effort: a promotion that fails its gates is skipped. */
  function ReplayPromotion(cfg: Config, c: Cohort, w: Weights, i: nat, tx: Transaction): Cohort {
    var p := tx.Payload();
    if PromotionOk(cfg, p, ConsensusAuthorities(w) + c.promoted, w, Fresh(c.effects, i))
    then Promote(c, p.candidate, i) else c
  }

  function ReplayPromotions(cfg: Config, c: Cohort, w: Weights, i: nat, txs: seq<Transaction>): Cohort {
    if txs == [] then c
    else
      var n := |txs| - 1;
      ReplayPromotion(cfg, ReplayPromotions(cfg, c, w, i, txs[..n]), w, i, txs[n])
  }

  /** Promotions in effect after a history; block 0 is never searched for any. */
  function CohortAt(cfg: Config, history: History): Cohort {
    if |history| <= 1 then Cohort({}, [])
    else
      var n := |history| - 1;
      ReplayPromotions(cfg, CohortAt(cfg, history[..n]), RegistryAt(cfg, history[..n]), n, history[n])
  }

  /** The validators governing the block that follows a history. */
  function ValidatorSet(cfg: Config, history: History): set<Key> {
    AuthoritiesAt(cfg, history) + CohortAt(cfg, history).promoted
  }

  // ---- one block's transactions -------------------------------------------------------

  /** What a block is judged against: its height and the state derived from the blocks before it. */
  datatype Context = Context(height: nat, prefix: History, weights: Weights, ledger: Ledger)

  ghost function ContextOf(cfg: Config, prefix: History): Context {
    Context(|prefix|, prefix, RegistryAt(cfg, prefix), BankAt(cfg, prefix).ledger)
  }

  /** What validation carries from transaction to transaction. */
  datatype Scan = Scan(seen: set<Scope>, cohort: Cohort, posted: map<Key, int>)
  {
    function Posted(k: Key): int {
      if k in posted then posted[k] else 0
    }
  }

  function BlockValidators(c: Context, s: Scan): set<Key> {
    ConsensusAuthorities(c.weights) + s.cohort.promoted
  }

  /** Fail-closed: every transaction is of a known kind and passes that kind's rule. */
  ghost predicate TxOk(cfg: Config, c: Context, s: Scan, tx: Transaction) {
    var p := tx.Payload();
    if p.Certificate? then p.certified !in s.seen && ValidCertificate(p, c.prefix, c.weights)
    else if p.Promotion? then PromotionOk(cfg, p, BlockValidators(c, s), c.weights, Fresh(s.cohort.effects, c.height))
    else if IsSlash(p) then ValidSlash(cfg, p, c.prefix, ConsensusAuthorities(c.weights))
    else if IsAttestation(tx) then SignatureOk(cfg, tx) && c.ledger.Free(tx.Sender()) - s.Posted(tx.Sender()) >= p.stake
    else RequiresSignature(tx) && SignatureOk(cfg, tx)
  }

  /** The carried state after an accepted transaction. */
  function Advance(c: Context, s: Scan, tx: Transaction): Scan {
    var p := tx.Payload();
    if p.Certificate? then s.(seen := s.seen + {p.certified})
    else if p.Promotion? then s.(cohort := Promote(s.cohort, p.candidate, c.height))
    else if IsAttestation(tx) then s.(posted := s.posted[tx.Sender() := s.Posted(tx.Sender()) + p.stake])
    else s
  }

  function ScanAfter(c: Context, s: Scan, txs: seq<Transaction>): Scan {
    if txs == [] then s
    else
      var n := |txs| - 1;
      Advance(c, ScanAfter(c, s, txs[..n]), txs[n])
  }

  ghost predicate TxsOk(cfg: Config, c: Context, s: Scan, txs: seq<Transaction>) {
    txs == [] ||
    var n := |txs| - 1;
    TxsOk(cfg, c, s, txs[..n]) && TxOk(cfg, c, ScanAfter(c, s, txs[..n]), txs[n])
  }

  // ---- validity of a chain, every judgement recomputed from the prefix -------------------

  ghost function CertifiedScopes(history: History): set<Scope> {
    set t | t in AllTxs(history) && t.Payload().Certificate? :: t.Payload().certified
  }

  /** The carried state a block starts from, recomputed from the blocks before it. */
  ghost function ScanAt(cfg: Config, prefix: History): Scan {
    Scan(CertifiedScopes(prefix), CohortAt(cfg, prefix), map[])
  }

  /** Position, link, producer, schedule, view-change justification and commits of one block. */
  predicate SealOk(cfg: Config, last: Block, height: nat, validators: set<Key>, b: Block) {
    && b.index == height
    && b.previousHash == BlockHash(cfg, last)
    && ProducerSignatureOk(cfg, b)
    && b.view >= 0
    && Some(b.producer) == ScheduledProposer(validators, height, b.view)
    && (b.view > 0 ==> |ViewChangeSigners(cfg, b) * validators| >= QuorumSize(|validators|))
    && b.commits.Keys <= CommitSigners(cfg, b)
    && b.commits.Keys <= validators
  }

  /** Whether b may follow the chain. */
  ghost predicate BlockOk(cfg: Config, chain: seq<Block>, b: Block)
    requires chain != []
  {
    var prefix := Bodies(chain);
    && SealOk(cfg, chain[|chain| - 1], |chain|, ValidatorSet(cfg, prefix), b)
    && TxsOk(cfg, ContextOf(cfg, prefix), ScanAt(cfg, prefix), b.transactions)
  }

  /** Whether block i may follow the blocks before it. */
  ghost predicate BlockOkAt(cfg: Config, blocks: seq<Block>, i: nat)
    requires 1 <= i < |blocks|
  {
    BlockOk(cfg, blocks[..i], blocks[i])
  }

  ghost predicate ValidChain(cfg: Config, blocks: seq<Block>) {
    && blocks != []
    && BlockHash(cfg, blocks[0]) == BlockHash(cfg, GenesisBlock())
    && AllOkBelow(cfg, blocks, |blocks|)
  }

  ghost predicate AllOkBelow(cfg: Config, blocks: seq<Block>, n: nat)
    requires n <= |blocks|
  {
    forall i | 1 <= i < n :: BlockOkAt(cfg, blocks, i)
  }

  /** A block with the genesis hash is at index 0 and carries nothing. */
  lemma GenesisIsEmpty(cfg: Config, b: Block)
    requires CollisionFree(cfg) && BlockHash(cfg, b) == BlockHash(cfg, GenesisBlock())
    ensures b.index == 0 && b.transactions == []
  {
    assert HeaderOf(cfg, b) == HeaderOf(cfg, GenesisBlock());
    assert MerkleRoot(cfg, b.transactions) == cfg.emptyRoot;
    if b.transactions != [] {
      Merkle.PeakNotEmptyRoot(cfg.hashPair, cfg.emptyRoot, x => IsTxHash(cfg, x), TxHashes(cfg, b.transactions));
    }
  }

  lemma IndicesAreHeights(cfg: Config, blocks: seq<Block>)
    requires CollisionFree(cfg) && ValidChain(cfg, blocks)
    ensures forall k | 0 <= k < |blocks| :: blocks[k].index == k
  {
    GenesisIsEmpty(cfg, blocks[0]);
    forall k | 0 <= k < |blocks| ensures blocks[k].index == k {
      if k > 0 {
        assert BlockOkAt(cfg, blocks, k);
      }
    }
  }

  lemma BlockOkIsLocal(cfg: Config, a: seq<Block>, b: seq<Block>, i: nat)
    requires 1 <= i < |a| && i < |b| && a[..i] == b[..i] && a[i] == b[i]
    ensures BlockOkAt(cfg, a, i) == BlockOkAt(cfg, b, i)
  {
  }

  /** Validity is prefix-closed. */
  lemma PrefixValid(cfg: Config, blocks: seq<Block>, n: nat)
    requires ValidChain(cfg, blocks) && 0 < n <= |blocks|
    ensures ValidChain(cfg, blocks[..n])
  {
    var shorter := blocks[..n];
    forall i | 1 <= i < n ensures BlockOkAt(cfg, shorter, i) {
      assert shorter[..i] == blocks[..i];
      BlockOkIsLocal(cfg, blocks, shorter, i);
    }
  }

  /** A chain and one more block are valid iff the chain is and the block passes against the chain's derived state. */
  lemma OneMoreBlock(cfg: Config, blocks: seq<Block>, b: Block)
    requires blocks != []
    ensures ValidChain(cfg, blocks + [b]) <==> ValidChain(cfg, blocks) && BlockOk(cfg, blocks, b)
  {
    var longer, n := blocks + [b], |blocks|;
    assert longer[..n] == blocks;
    assert BlockOkAt(cfg, longer, n) == BlockOk(cfg, blocks, b);
    forall i | 1 <= i < n ensures BlockOkAt(cfg, longer, i) == BlockOkAt(cfg, blocks, i) {
      assert longer[..i] == blocks[..i];
      BlockOkIsLocal(cfg, longer, blocks, i);
    }
    assert AllOkBelow(cfg, longer, |longer|) <==> AllOkBelow(cfg, longer, n) && BlockOkAt(cfg, longer, n);
  }

  // ---- strict validation carries exactly what the best-effort replay recomputes ---------------

  /** In a block that passes, every promotion is one the replay applies, and nothing else changes the cohort. */
  lemma {:induction false} AcceptedPromotionsReplay(cfg: Config, c: Context, s: Scan, txs: seq<Transaction>)
    requires TxsOk(cfg, c, s, txs)
    ensures ScanAfter(c, s, txs).cohort == ReplayPromotions(cfg, s.cohort, c.weights, c.height, txs)
    decreases |txs|
  {
    if txs != [] {
      AcceptedPromotionsReplay(cfg, c, s, txs[..|txs| - 1]);
    }
  }

  lemma {:induction false} ScannedScopes(c: Context, s: Scan, txs: seq<Transaction>)
    ensures ScanAfter(c, s, txs).seen
         == s.seen + set t | t in txs && t.Payload().Certificate? :: t.Payload().certified
    decreases |txs|
  {
    if txs != [] {
      var n := |txs| - 1;
      ScannedScopes(c, s, txs[..n]);
      assert txs == txs[..n] + [txs[n]];
    }
  }

  lemma ScopesOfNextBlock(blocks: seq<Block>, i: nat)
    requires 1 <= i < |blocks|
    ensures CertifiedScopes(Bodies(blocks[..i + 1]))
         == CertifiedScopes(Bodies(blocks[..i]))
            + set t | t in blocks[i].transactions && t.Payload().Certificate? :: t.Payload().certified
  {
  }

  lemma CohortOfNextBlock(cfg: Config, blocks: seq<Block>, i: nat)
    requires 1 <= i < |blocks|
    ensures CohortAt(cfg, Bodies(blocks[..i + 1]))
         == ReplayPromotions(cfg, CohortAt(cfg, Bodies(blocks[..i])), RegistryAt(cfg, Bodies(blocks[..i])), i,
                             blocks[i].transactions)
  {
    hide ReplayPromotions, RegistryAt;
    NextBody(blocks, i);
  }

  /** What the validation loop carries past an accepted block is what is recomputed from the longer prefix. */
  lemma CarriedIsRecomputed(cfg: Config, blocks: seq<Block>, i: nat, c: Context, s: Scan)
    requires 1 <= i < |blocks|
    requires c == ContextOf(cfg, Bodies(blocks[..i])) && s == ScanAt(cfg, Bodies(blocks[..i]))
    requires TxsOk(cfg, c, s, blocks[i].transactions)
    ensures ScanAfter(c, s, blocks[i].transactions).(posted := map[]) == ScanAt(cfg, Bodies(blocks[..i + 1]))
  {
    AcceptedPromotionsReplay(cfg, c, s, blocks[i].transactions);
    ScannedScopes(c, s, blocks[i].transactions);
    CohortOfNextBlock(cfg, blocks, i);
    ScopesOfNextBlock(blocks, i);
  }

  // ---- the procedures -------------------------------------------------------------------

  /** One turn of the transaction loop of `is_valid_chain`. */
  method CheckTransaction(cfg: Config, c: Context, s: Scan, tx: Transaction) returns (ok: bool, next: Scan)
    ensures ok <==> TxOk(cfg, c, s, tx)
    ensures next == Advance(c, s, tx)
  {
    var p := tx.Payload();
    ok, next := false, s;
    if p.Certificate? {
      if p.certified !in s.seen {
        ok := ValidateCertificate(p, c.prefix, c.weights);
      }
      next := s.(seen := s.seen + {p.certified});
    } else if p.Promotion? {
      var recent := Fresh(s.cohort.effects, c.height);
      ok := PromotionOk(cfg, p, BlockValidators(c, s), c.weights, recent);
      next := s.(cohort := Promote(s.cohort, p.candidate, c.height));
    } else if IsSlash(p) {
      ok := ValidateSlash(cfg, p, c.prefix, ConsensusAuthorities(c.weights));
    } else if IsAttestation(tx) {
      var already := s.Posted(tx.Sender());
      ok := SignatureOk(cfg, tx) && c.ledger.Free(tx.Sender()) - already >= p.stake;
      next := s.(posted := s.posted[tx.Sender() := already + p.stake]);
    } else {
      ok := RequiresSignature(tx) && SignatureOk(cfg, tx);
    }
  }

  /** The transaction loop of `is_valid_chain` for one block. */
  method CheckTransactions(cfg: Config, c: Context, start: Scan, txs: seq<Transaction>) returns (ok: bool, s: Scan)
    ensures ok <==> TxsOk(cfg, c, start, txs)
    ensures ok ==> s == ScanAfter(c, start, txs)
  {
    hide TxOk;
    s := start;
    for j := 0 to |txs|
      invariant TxsOk(cfg, c, start, txs[..j]) && s == ScanAfter(c, start, txs[..j])
    {
      assert txs[..j + 1][..j] == txs[..j];
      ok, s := CheckTransaction(cfg, c, s, txs[j]);
      if !ok {
        RejectedForGood(cfg, c, start, txs, j);
        return false, s;
      }
    }
    assert txs[..|txs|] == txs;
    ok := true;
  }

  lemma {:induction false} RejectedForGood(cfg: Config, c: Context, s: Scan, txs: seq<Transaction>, j: nat)
    requires j < |txs| && !TxOk(cfg, c, ScanAfter(c, s, txs[..j]), txs[j])
    ensures !TxsOk(cfg, c, s, txs)
    decreases |txs|
  {
    hide TxOk;
    var n := |txs| - 1;
    if j < n {
      assert txs[..n][..j] == txs[..j];
      RejectedForGood(cfg, c, s, txs[..n], j);
    }
  }

  /** The transaction loop of `_replay_promotions` for block i. */
  method PromoteBlock(cfg: Config, start: Cohort, w: Weights, i: nat, txs: seq<Transaction>) returns (cohort: Cohort)
    ensures cohort == ReplayPromotions(cfg, start, w, i, txs)
  {
    cohort := start;
    var current := ConsensusAuthorities(w) + cohort.promoted;
    for j := 0 to |txs|
      invariant cohort == ReplayPromotions(cfg, start, w, i, txs[..j])
      invariant current == ConsensusAuthorities(w) + cohort.promoted
    {
      assert txs[..j + 1][..j] == txs[..j];
      var p := txs[j].Payload();
      if p.Promotion? && PromotionOk(cfg, p, current, w, Fresh(cohort.effects, i)) {
        cohort := Cohort(cohort.promoted + {p.candidate}, cohort.effects + [i]);
        current := current + {p.candidate};
      }
    }
    assert txs[..|txs|] == txs;
  }

  /** The cohort that promotions in blocks 1..n-1 of any list lead to. */
  function ReplayedCohort(cfg: Config, blocks: seq<Block>, n: nat): Cohort
    requires n <= |blocks| || n <= 1
  {
    if n <= 1 then Cohort({}, [])
    else
      ReplayPromotions(cfg, ReplayedCohort(cfg, blocks, n - 1), ReplayedWeights(cfg, blocks, Span(blocks, n - 1)),
                       n - 1, blocks[n - 1].transactions)
  }

  lemma {:induction false} ReplayedCohortIsDerived(cfg: Config, blocks: seq<Block>, upto: nat, n: nat)
    requires IndicesChecked(blocks, upto) && n <= upto
    ensures ReplayedCohort(cfg, blocks, n) == CohortAt(cfg, Bodies(blocks[..n]))
  {
    hide ReplayPromotions, ReplayedWeights, RegistryAt;
    if n > 1 {
      ReplayedCohortIsDerived(cfg, blocks, upto, n - 1);
      ReplayedIsDerived(cfg, blocks, upto, n - 1);
      SpanIsPosition(blocks, upto, n - 1);
      CohortOfNextBlock(cfg, blocks, n - 1);
    }
  }

  /** `_replay_promotions`: reads the blocks by position, and so raises when asked beyond the end. */
  method PromotedBefore(cfg: Config, blocks: seq<Block>, upto: int) returns (cohort: Outcome<Cohort>)
    ensures cohort.Raised? <==> upto > |blocks| && upto > 1
    ensures cohort.Returned? ==> cohort.value == ReplayedCohort(cfg, blocks, Max(0, upto))
  {
    hide ReplayPromotions, ReplayedWeights;
    var promoted := Cohort({}, []);
    var i := 1;
    while i < upto
      invariant 1 <= i && (i <= upto || i == 1) && (i <= |blocks| || i == 1)
      invariant promoted == ReplayedCohort(cfg, blocks, i)
    {
      if i >= |blocks| {
        return Raised;
      }
      var registry := DeriveRegistry(cfg, blocks, i);
      promoted := PromoteBlock(cfg, promoted, registry.weights, i, blocks[i].transactions);
      i := i + 1;
    }
    return Returned(promoted);
  }

  /** `validator_set` for any list and any bound. */
  function ReplayedValidators(cfg: Config, blocks: seq<Block>, upto: int): set<Key>
    requires upto <= |blocks| || upto <= 1
  {
    AuthoritiesBelow(cfg, blocks, upto) + ReplayedCohort(cfg, blocks, Max(0, upto)).promoted
  }

  lemma ReplayedValidatorsAreDerived(cfg: Config, blocks: seq<Block>, upto: nat)
    requires IndicesChecked(blocks, upto)
    ensures ReplayedValidators(cfg, blocks, upto) == ValidatorSet(cfg, Bodies(blocks[..upto]))
  {
    hide AuthoritiesBelow, ReplayedCohort, CohortAt;
    ReplayedIsDerived(cfg, blocks, upto, upto);
    ReplayedCohortIsDerived(cfg, blocks, upto, upto);
  }

  /** `validator_set`. */
  method ValidatorsBefore(cfg: Config, blocks: seq<Block>, upto: int) returns (validators: Outcome<set<Key>>)
    ensures validators.Raised? <==> upto > |blocks| && upto > 1
    ensures validators.Returned? ==> validators.value == ReplayedValidators(cfg, blocks, upto)
  {
    var registry := DeriveRegistry(cfg, blocks, upto);
    var cohort := PromotedBefore(cfg, blocks, upto);
    if cohort.Raised? {
      return Raised;
    }
    return Returned(ConsensusAuthorities(registry.weights) + cohort.value.promoted);
  }

  /** What validation carries to block i of any list; block 0 is never scanned. */
  ghost function CarriedAt(cfg: Config, blocks: seq<Block>, i: nat): Scan
    requires 1 <= i <= |blocks|
  {
    Scan(CertifiedScopes(Bodies(blocks[1..i])), ReplayedCohort(cfg, blocks, i), map[])
  }

  /** What block i of any list is judged against: the replays bounded by its height, and the blocks before it. */
  ghost function ReplayedContext(cfg: Config, blocks: seq<Block>, i: nat): Context
    requires i <= |blocks|
  {
    var n := Span(blocks, i);
    Context(i, Bodies(blocks[..i]), ReplayedWeights(cfg, blocks, n), ReplayedBank(cfg, blocks, n).ledger)
  }

  /** Block i of any list passes on carried state. */
  ghost predicate Passes(cfg: Config, blocks: seq<Block>, i: nat)
    requires 1 <= i < |blocks|
  {
    var c, s := ReplayedContext(cfg, blocks, i), CarriedAt(cfg, blocks, i);
    SealOk(cfg, blocks[i - 1], i, BlockValidators(c, s), blocks[i]) && TxsOk(cfg, c, s, blocks[i].transactions)
  }

  /** What `is_valid_chain` accepts, whatever the hashes. */
  ghost predicate Accepted(cfg: Config, blocks: seq<Block>) {
    && blocks != []
    && BlockHash(cfg, blocks[0]) == BlockHash(cfg, GenesisBlock())
    && forall i | 1 <= i < |blocks| :: Passes(cfg, blocks, i)
  }

  /** What is carried past a block that passes. */
  lemma CarriedOn(cfg: Config, blocks: seq<Block>, i: nat)
    requires 1 <= i < |blocks|
    requires TxsOk(cfg, ReplayedContext(cfg, blocks, i), CarriedAt(cfg, blocks, i), blocks[i].transactions)
    ensures ScanAfter(ReplayedContext(cfg, blocks, i), CarriedAt(cfg, blocks, i), blocks[i].transactions)
            .(posted := map[]) == CarriedAt(cfg, blocks, i + 1)
  {
    var c, s, txs := ReplayedContext(cfg, blocks, i), CarriedAt(cfg, blocks, i), blocks[i].transactions;
    AcceptedPromotionsReplay(cfg, c, s, txs);
    ScannedScopes(c, s, txs);
    ScopesBelow(blocks, i);
    hide TxsOk, ReplayPromotions, ReplayedWeights, ReplayedBank, CertifiedScopes;
  }

  lemma ScopesBelow(blocks: seq<Block>, i: nat)
    requires 1 <= i < |blocks|
    ensures CertifiedScopes(Bodies(blocks[1..i + 1]))
         == CertifiedScopes(Bodies(blocks[1..i]))
            + set t | t in blocks[i].transactions && t.Payload().Certificate? :: t.Payload().certified
  {
    var h, longer := Bodies(blocks[1..i]), Bodies(blocks[1..i + 1]);
    assert longer == h + [blocks[i].transactions];
    assert AllTxs(longer) == AllTxs(h) + set t | t in blocks[i].transactions :: t by {
      assert longer[i - 1] == blocks[i].transactions;
      forall t | t in AllTxs(h) ensures t in AllTxs(longer) {
        var j :| 0 <= j < |h| && t in h[j];
        assert longer[j] == h[j];
      }
    }
    hide AllTxs;
  }

  lemma PassesParts(cfg: Config, blocks: seq<Block>, i: nat)
    requires 1 <= i < |blocks|
    ensures
      var n, s := Span(blocks, i), CarriedAt(cfg, blocks, i);
      var w := ReplayedWeights(cfg, blocks, n);
      var c := Context(i, Bodies(blocks[..i]), w, ReplayedBank(cfg, blocks, n).ledger);
      && ReplayedContext(cfg, blocks, i) == c
      && (Passes(cfg, blocks, i)
          <==> SealOk(cfg, blocks[i - 1], i, ConsensusAuthorities(w) + s.cohort.promoted, blocks[i])
               && TxsOk(cfg, c, s, blocks[i].transactions))
    ensures Passes(cfg, blocks, i) ==> blocks[i].index == i
  {
    hide CarriedAt, TxsOk, ReplayedWeights, ReplayedBank, ConsensusAuthorities, Span;
  }

  /** The checks `is_valid_chain` makes on block i, from the carried state of the blocks before it. */
  method CheckBlock(cfg: Config, blocks: seq<Block>, i: nat, carried: Scan) returns (ok: bool, next: Scan)
    requires 1 <= i < |blocks| && carried == CarriedAt(cfg, blocks, i)
    ensures ok <==> Passes(cfg, blocks, i)
    ensures ok ==> next == CarriedAt(cfg, blocks, i + 1)
  {
    hide Passes, ReplayedContext, CarriedAt, SealOk, TxsOk, ReplayedWeights, ReplayedBank, ConsensusAuthorities, Span;
    next := carried;
    var b := blocks[i];
    PassesParts(cfg, blocks, i);
    if b.index != i {
      return false, next;
    }
    var registry := DeriveRegistry(cfg, blocks, i);
    var validators := ConsensusAuthorities(registry.weights) + carried.cohort.promoted;
    if !SealOk(cfg, blocks[i - 1], i, validators, b) {
      return false, next;
    }
    var replay := DeriveBalances(cfg, blocks, i);
    var context := Context(i, Bodies(blocks[..i]), registry.weights, Ledger(replay.ledger.totals, replay.ledger.locks));
    ok, next := CheckTransactions(cfg, context, carried, b.transactions);
    if ok {
      CarriedOn(cfg, blocks, i);
      next := next.(posted := map[]);
    }
  }

  lemma BlockParts(cfg: Config, blocks: seq<Block>, j: nat)
    requires 1 <= j < |blocks|
    ensures
      var prefix := Bodies(blocks[..j]);
      BlockOkAt(cfg, blocks, j)
      <==> SealOk(cfg, blocks[j - 1], j, ValidatorSet(cfg, prefix), blocks[j])
           && TxsOk(cfg, ContextOf(cfg, prefix), ScanAt(cfg, prefix), blocks[j].transactions)
    ensures BlockOkAt(cfg, blocks, j) ==> blocks[j].index == j
  {
    hide TxsOk, ValidatorSet, ContextOf, ScanAt;
    assert blocks[..j][|blocks[..j]| - 1] == blocks[j - 1];
  }

  /** On any list that starts like genesis the carried state is the one recomputed from the prefix. */
  lemma PassesIsOk(cfg: Config, blocks: seq<Block>, i: nat)
    requires 1 <= i < |blocks| && IndicesChecked(blocks, i) && blocks[0].transactions == []
    ensures ReplayedContext(cfg, blocks, i) == ContextOf(cfg, Bodies(blocks[..i]))
    ensures CarriedAt(cfg, blocks, i) == ScanAt(cfg, Bodies(blocks[..i]))
    ensures Passes(cfg, blocks, i) <==> BlockOkAt(cfg, blocks, i)
  {
    hide ReplayedWeights, ReplayedBank, RegistryAt, BankAt, CohortAt, CertifiedScopes, ConsensusAuthorities, SealOk,
         TxsOk, ReplayedCohort;
    SpanIsPosition(blocks, i, i);
    ReplayedIsDerived(cfg, blocks, i, i);
    ReplayedBankIsDerived(cfg, blocks, i, i);
    ReplayedCohortIsDerived(cfg, blocks, i, i);
    RootAddsNoScope(blocks, i);
    BlockParts(cfg, blocks, i);
  }

  lemma RootAddsNoScope(blocks: seq<Block>, i: nat)
    requires 1 <= i <= |blocks| && blocks[0].transactions == []
    ensures CertifiedScopes(Bodies(blocks[1..i])) == CertifiedScopes(Bodies(blocks[..i]))
  {
    var h, rest := Bodies(blocks[..i]), Bodies(blocks[1..i]);
    assert h == [[]] + rest;
  }

  /**
   * What the incremental loop accepts is what recomputing everything from each prefix accepts, as soon as block 0
   * sits at index 0 and is empty. With collision-free hashes its hash says so.
   */
  lemma AcceptedIsValid(cfg: Config, blocks: seq<Block>)
    requires blocks != [] ==> blocks[0].index == 0 && blocks[0].transactions == []
    ensures Accepted(cfg, blocks) <==> ValidChain(cfg, blocks)
  {
    hide BlockOkAt, Passes;
    if Accepted(cfg, blocks) || ValidChain(cfg, blocks) {
      forall k | 1 <= k < |blocks| ensures blocks[k].index == k {
        PassingIndex(cfg, blocks, k);
      }
      forall i | 1 <= i < |blocks| ensures Passes(cfg, blocks, i) == BlockOkAt(cfg, blocks, i) {
        PassesIsOk(cfg, blocks, i);
      }
    }
  }

  lemma PassingIndex(cfg: Config, blocks: seq<Block>, k: nat)
    requires 1 <= k < |blocks| && (Passes(cfg, blocks, k) || BlockOkAt(cfg, blocks, k))
    ensures blocks[k].index == k
  {
    hide TxsOk, ReplayedContext, CarriedAt, ContextOf, ScanAt, ValidatorSet;
  }

  /**
   * `is_valid_chain`. The loop carries the certified scopes, the promoted keys and the promotion
   * indices incrementally. The source reads block 0 first, so an empty list raises.
   */
  method IsValidChain(cfg: Config, blocks: seq<Block>) returns (verdict: Outcome<bool>)
    ensures verdict.Raised? <==> blocks == []
    ensures verdict == Returned(true) <==> Accepted(cfg, blocks)
    ensures CollisionFree(cfg) ==> (verdict == Returned(true) <==> ValidChain(cfg, blocks))
  {
    hide Passes, CarriedAt, ValidChain;
    if CollisionFree(cfg) {
      AcceptedIffValid(cfg, blocks);
    }
    if blocks == [] {
      return Raised;
    }
    if BlockHash(cfg, blocks[0]) != BlockHash(cfg, GenesisBlock()) {
      return Returned(false);
    }
    var carried := Scan({}, Cohort({}, []), map[]);
    CarriedFromRoot(cfg, blocks);
    for i := 1 to |blocks|
      invariant forall k | 1 <= k < i :: Passes(cfg, blocks, k)
      invariant carried == CarriedAt(cfg, blocks, i)
    {
      var ok;
      ok, carried := CheckBlock(cfg, blocks, i, carried);
      if !ok {
        return Returned(false);
      }
    }
    return Returned(true);
  }

  lemma AcceptedIffValid(cfg: Config, blocks: seq<Block>)
    requires CollisionFree(cfg)
    ensures Accepted(cfg, blocks) <==> ValidChain(cfg, blocks)
  {
    hide Passes, AllOkBelow;
    if blocks != [] && BlockHash(cfg, blocks[0]) == BlockHash(cfg, GenesisBlock()) {
      GenesisIsEmpty(cfg, blocks[0]);
      AcceptedIsValid(cfg, blocks);
    }
  }

  lemma CarriedFromRoot(cfg: Config, blocks: seq<Block>)
    requires blocks != []
    ensures CarriedAt(cfg, blocks, 1) == Scan({}, Cohort({}, []), map[])
  {
    assert Bodies(blocks[1..1]) == [];
    assert AllTxs([]) == {};
  }

  lemma StartsEmpty(cfg: Config, blocks: seq<Block>)
    requires CollisionFree(cfg) && blocks != [] && BlockHash(cfg, blocks[0]) == BlockHash(cfg, GenesisBlock())
    ensures blocks[0].index == 0
    ensures ScanAt(cfg, Bodies(blocks[..1])) == Scan({}, Cohort({}, []), map[])
  {
    GenesisIsEmpty(cfg, blocks[0]);
    var h := Bodies(blocks[..1]);
    assert h == [[]];
    assert AllTxs(h) == {};
  }
}
