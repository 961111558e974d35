/**
 * blockchain/blockchain.py: when a chain is valid, said of its blocks alone. Who may propose, who has signed, which
 * transactions may stand where; of derived state only weights, tokens and locks before each block.
 */
module Rulebook {
  import opened Types
  import opened Plain
  import opened Quorum
  import opened Registry
  import opened Balances
  import opened Slashing
  import opened Tally
  import opened Aggregator
  import opened Derive
  import opened Consensus
  import opened Promotions
  import opened Deserved

  // ---- transactions ------------------------------------------------------------------------------------

  /** What k stakes in a list of transactions. */
  function StakedBy(txs: seq<Transaction>, k: Key): int {
    if txs == [] then 0
    else
      var n := |txs| - 1;
      StakedBy(txs[..n], k)
      + if IsVerdict(txs[n]) && txs[n].content.sender == k then txs[n].content.payload.stake else 0
  }

  predicate CertifiesAt(history: History, i: int, j: int, s: Scope) {
    && 0 <= i < |history| && 0 <= j < |history[i]|
    && history[i][j].content.payload.Certificate? && history[i][j].content.payload.certified == s
  }

  ghost predicate Undecided(history: History, i: int, j: int, s: Scope) {
    forall i', j' | CertifiesAt(history, i', j', s) :: !Earlier(i', j', i, j)
  }

  /** Whether the transaction at (i, j) may stand there. */
  ghost predicate Lawful(cfg: Config, history: History, i: nat, j: nat)
    requires i < |history| && j < |history[i]|
  {
    var tx, prefix := history[i][j], history[..i];
    match tx.content.payload
    case Certificate(s, _, _) => Undecided(history, i, j, s) && Due(prefix, RegistryAt(cfg, prefix), tx.content.payload)
    case Promotion(_, _, _) => Terms(cfg, history, i, j)
    case Slash(_, _, _, _, _) => SlashInOrder(cfg, tx.content.payload, prefix, Weighty(RegistryAt(cfg, prefix)))
    case Attestation(_, _, _, stake) =>
      && AuthorSigned(cfg, tx)
      && (IsVerdict(tx) ==>
            var ledger, k := BankAt(cfg, prefix).ledger, tx.content.sender;
            ledger.Total(k) - ledger.Locked(k) - StakedBy(history[i][..j], k) >= stake)
    case Submission(_, _, _, _) => AuthorSigned(cfg, tx)
    case Unknown(_) => false
  }

  // ---- what validation carries to (i, j) -------------------------------------------------------------------

  ghost predicate Carries(history: History, i: int, j: int, s: Scan)
    requires 0 <= i < |history| && 0 <= j <= |history[i]|
  {
    && Counts(history, i, j, s.cohort)
    && (forall x :: x in s.seen <==> !Undecided(history, i, j, x))
    && forall k :: s.Posted(k) == StakedBy(history[i][..j], k)
  }

  lemma CarriesStep(c: Context, s: Scan, history: History, i: nat, j: nat)
    requires i < |history| && j < |history[i]| && Carries(history, i, j, s) && c.height == i
    ensures Carries(history, i, j + 1, Advance(c, s, history[i][j]))
  {
    var tx, next := history[i][j], Advance(c, s, history[i][j]);
    CountsStep(history, i, j, s.cohort);
    assert history[i][..j + 1][..j] == history[i][..j];
    forall x ensures x in next.seen <==> !Undecided(history, i, j + 1, x) {
      UndecidedStep(history, i, j, x);
    }
    hide Counts, Undecided;
    assert IsAttestation(tx) <==> IsVerdict(tx);
    forall k ensures next.Posted(k) == StakedBy(history[i][..j + 1], k) {
      assert s.Posted(k) == StakedBy(history[i][..j], k);
    }
  }

  lemma UndecidedStep(history: History, i: nat, j: nat, x: Scope)
    requires i < |history| && j < |history[i]|
    ensures Undecided(history, i, j + 1, x) <==> Undecided(history, i, j, x) && !CertifiesAt(history, i, j, x)
  {
    if CertifiesAt(history, i, j, x) {
      assert Earlier(i, j, i, j + 1);
    }
    if Undecided(history, i, j, x) && !CertifiesAt(history, i, j, x) {
      forall i', j' | CertifiesAt(history, i', j', x) ensures !Earlier(i', j', i, j + 1) {
        assert !Earlier(i', j', i, j);
      }
    }
    if Undecided(history, i, j + 1, x) {
      forall i', j' | CertifiesAt(history, i', j', x) ensures !Earlier(i', j', i, j) {
        assert !Earlier(i', j', i, j + 1);
      }
    }
  }

  lemma {:induction false} CarriesInBlock(c: Context, s: Scan, history: History, i: nat, j: nat)
    requires i < |history| && j <= |history[i]| && c.height == i && Carries(history, i, 0, s)
    ensures Carries(history, i, j, ScanAfter(c, s, history[i][..j]))
  {
    hide Carries;
    var txs := history[i];
    if j > 0 {
      CarriesInBlock(c, s, history, i, j - 1);
      assert txs[..j][..j - 1] == txs[..j - 1];
      CarriesStep(c, ScanAfter(c, s, txs[..j - 1]), history, i, j - 1);
    } else {
      assert txs[..0] == [];
    }
  }

  lemma SeenIsDecided(history: History, i: nat, x: Scope)
    requires i <= |history|
    ensures x in CertifiedScopes(history[..i]) <==> !Undecided(history, i, 0, x)
  {
    if x in CertifiedScopes(history[..i]) {
      var t :| t in AllTxs(history[..i]) && t.Payload().Certificate? && t.Payload().certified == x;
      var i' :| 0 <= i' < i && t in history[..i][i'];
      var j' :| 0 <= j' < |history[i']| && history[i'][j'] == t;
      assert CertifiesAt(history, i', j', x) && Earlier(i', j', i, 0);
    }
    if i', j' :| CertifiesAt(history, i', j', x) && Earlier(i', j', i, 0) {
      var prefix, t := history[..i], history[i'][j'];
      assert t in prefix[i'];
      assert t in AllTxs(prefix);
    }
  }

  /** What a block starts from. */
  lemma CarriesAtStart(cfg: Config, blocks: seq<Block>, history: History)
    requires CollisionFree(cfg) && ValidChain(cfg, blocks)
    requires |history| > |blocks| && history[..|blocks|] == Bodies(blocks)
    ensures Carries(history, |blocks|, 0, ScanAt(cfg, Bodies(blocks)))
  {
    var n := |blocks|;
    ValidIsSome(cfg, blocks);
    assert blocks[..n] == blocks;
    hide ValidChain, CollisionFree, Counts, CohortAt, Undecided, CertifiedScopes;
    CohortCounts(cfg, blocks, history, n);
    forall x ensures x in CertifiedScopes(Bodies(blocks)) <==> !Undecided(history, n, 0, x) {
      SeenIsDecided(history, n, x);
    }
    assert history[n][..0] == [];
  }

  // ---- one transaction -----------------------------------------------------------------------------------------

  lemma TxLawful(cfg: Config, c: Context, s: Scan, history: History, i: nat, j: nat)
    requires i < |history| && j < |history[i]| && Carries(history, i, j, s) && c == ContextOf(cfg, history[..i])
    ensures TxOk(cfg, c, s, history[i][j]) <==> Lawful(cfg, history, i, j)
  {
    var tx, prefix, w := history[i][j], history[..i], RegistryAt(cfg, history[..i]);
    var p := tx.content.payload;
    ContextHeight(cfg, prefix);
    assert c.ledger == BankAt(cfg, prefix).ledger;
    match p
    case Certificate(x, _, _) => DueExactly(p, prefix, w);
    case Promotion(_, _, _) => TestIsTerms(cfg, c, s, history, i, j);
    case Slash(_, _, _, _, _) =>
      SlashExactly(cfg, p, prefix, Weighty(w));
      WeightyIsAuthority(w);
    case _ => assert IsAttestation(tx) <==> IsVerdict(tx);
    hide Due, ValidCertificate, ValidSlash, SlashInOrder, Terms, Counts, RegistryAt, BankAt, Undecided, StakedBy,
         PromotionOk, ConsensusAuthorities, Weighty;
  }

  lemma {:induction false} TxsLawful(cfg: Config, c: Context, s: Scan, history: History, i: nat, j: nat)
    requires i < |history| && j <= |history[i]| && Carries(history, i, 0, s) && c == ContextOf(cfg, history[..i])
    ensures TxsOk(cfg, c, s, history[i][..j]) <==> forall j': nat | j' < j :: Lawful(cfg, history, i, j')
  {
    hide Carries, Lawful, TxOk;
    var txs := history[i];
    if j > 0 {
      TxsLawful(cfg, c, s, history, i, j - 1);
      assert txs[..j][..j - 1] == txs[..j - 1];
      ContextHeight(cfg, history[..i]);
      CarriesInBlock(c, s, history, i, j - 1);
      TxLawful(cfg, c, ScanAfter(c, s, txs[..j - 1]), history, i, j - 1);
    } else {
      assert txs[..0] == [];
    }
  }

  // ---- the seal of a block -----------------------------------------------------------------------------------

  /**
   * At its height, linked, signed by its producer, whose turn it is; a later view is backed by two thirds of the
   * validators; and it carries no commit but verifying ones of validators.
   */
  ghost predicate Sealed(cfg: Config, last: Block, height: nat, validators: set<Key>, b: Block) {
    var header := HeaderMessage(HeaderOf(cfg, b));
    && b.index == height && b.previousHash == cfg.hashHeader(HeaderOf(cfg, last))
    && b.producerSignature.Some? && cfg.verify(b.producer, header, b.producerSignature.value)
    && b.view >= 0
    && b.producer in validators && |Lesser(validators, b.producer)| == (height + b.view) % |validators|
    && (b.view > 0 ==> TwoThirdsSign(cfg, b.viewVotes, ViewChangeMessage(height, b.view), validators))
    && forall k | k in b.commits :: k in validators && cfg.verify(k, header, b.commits[k])
  }

  lemma SealExactly(cfg: Config, last: Block, height: nat, validators: set<Key>, b: Block)
    ensures SealOk(cfg, last, height, validators, b) <==> Sealed(cfg, last, height, validators, b)
  {
    hide HeaderOf, ScheduledProposer, Lesser, TwoThirdsSign, QuorumSize, ViewChangeSigners, CommitSigners;
    CommitsSealed(cfg, validators, b);
    if b.view >= 0 {
      ProposerExactly(validators, height, b.view, b.producer);
      if b.index == height {
        ViewSealed(cfg, validators, b);
      }
    }
  }

  lemma CommitsSealed(cfg: Config, validators: set<Key>, b: Block)
    ensures b.commits.Keys <= CommitSigners(cfg, b) && b.commits.Keys <= validators
       <==> forall k | k in b.commits ::
              k in validators && cfg.verify(k, HeaderMessage(HeaderOf(cfg, b)), b.commits[k])
  {
    hide HeaderOf;
    if b.commits.Keys <= CommitSigners(cfg, b) && b.commits.Keys <= validators {
      forall k | k in b.commits ensures k in validators && k in CommitSigners(cfg, b) {
        assert k in b.commits.Keys;
      }
    }
  }

  lemma ViewSealed(cfg: Config, validators: set<Key>, b: Block)
    ensures |ViewChangeSigners(cfg, b) * validators| >= QuorumSize(|validators|)
       <==> TwoThirdsSign(cfg, b.viewVotes, ViewChangeMessage(b.index, b.view), validators)
  {
    QuorumSigns(cfg, b.viewVotes, ViewChangeMessage(b.index, b.view), validators);
    ViewSigners(cfg, b, validators);
    hide TwoThirdsSign, QuorumSize, ViewChangeSigners, Approvers;
  }

  lemma ViewSigners(cfg: Config, b: Block, validators: set<Key>)
    ensures ViewChangeSigners(cfg, b) * validators
         == Approvers(cfg, b.viewVotes, ViewChangeMessage(b.index, b.view), validators)
  {
  }

  // ---- chains ---------------------------------------------------------------------------------------------------

  ghost predicate LawfulBlock(cfg: Config, blocks: seq<Block>, i: nat)
    requires 1 <= i < |blocks|
  {
    var history := Bodies(blocks);
    && Sealed(cfg, blocks[i - 1], i, InForce(cfg, history, i, 0), blocks[i])
    && forall j: nat | j < |history[i]| :: Lawful(cfg, history, i, j)
  }

  /** A chain from genesis whose every block and transaction is lawful where it stands. */
  ghost predicate LawfulChain(cfg: Config, blocks: seq<Block>) {
    && blocks != []
    && cfg.hashHeader(HeaderOf(cfg, blocks[0])) == cfg.hashHeader(Header(0, 0, cfg.emptyRoot, 0, 0, 0))
    && forall i | 1 <= i < |blocks| :: LawfulBlock(cfg, blocks, i)
  }

  lemma NextBlock(cfg: Config, blocks: seq<Block>, i: nat)
    requires CollisionFree(cfg) && 1 <= i < |blocks| && ValidChain(cfg, blocks[..i])
    ensures BlockOkAt(cfg, blocks, i) <==> LawfulBlock(cfg, blocks, i)
  {
    hide ValidChain, CollisionFree, BlockOkAt, Carries, Sealed, SealOk, Lawful, TxsOk, ScanAt, ContextOf, ValidatorSet,
         InForce;
    var history, prefix, n := Bodies(blocks), Bodies(blocks[..i]), |blocks[i].transactions|;
    BodiesPrefix(blocks, i);
    BlockParts(cfg, blocks, i);
    CarriesAtStart(cfg, blocks[..i], history);
    InForceAtStart(cfg, blocks, i);
    SealExactly(cfg, blocks[i - 1], i, ValidatorSet(cfg, prefix), blocks[i]);
    TxsLawful(cfg, ContextOf(cfg, prefix), ScanAt(cfg, prefix), history, i, n);
    assert history[i][..n] == blocks[i].transactions;
  }

  lemma InForceAtStart(cfg: Config, blocks: seq<Block>, i: nat)
    requires CollisionFree(cfg) && 1 <= i < |blocks| && ValidChain(cfg, blocks[..i])
    ensures InForce(cfg, Bodies(blocks), i, 0) == ValidatorSet(cfg, Bodies(blocks[..i]))
  {
    BodiesPrefix(blocks, i);
    assert blocks[..i][..i] == blocks[..i];
    hide ValidChain, CollisionFree, RegistryAt, CohortAt, Admitted, Places;
    CohortCounts(cfg, blocks[..i], Bodies(blocks), i);
    WeightyIsAuthority(RegistryAt(cfg, Bodies(blocks[..i])));
  }

  lemma {:induction false} PrefixLawful(cfg: Config, blocks: seq<Block>, n: nat)
    requires CollisionFree(cfg) && 1 <= n <= |blocks|
    requires BlockHash(cfg, blocks[0]) == BlockHash(cfg, GenesisBlock())
    ensures ValidChain(cfg, blocks[..n]) <==> forall i | 1 <= i < n :: LawfulBlock(cfg, blocks, i)
    decreases n
  {
    hide CollisionFree, LawfulBlock, BlockOk, BlockOkAt, BlockHash;
    var shorter := blocks[..n];
    if n > 1 {
      PrefixLawful(cfg, blocks, n - 1);
      assert shorter == blocks[..n - 1] + [blocks[n - 1]];
      OneMoreBlock(cfg, blocks[..n - 1], blocks[n - 1]);
      if ValidChain(cfg, blocks[..n - 1]) {
        NextBlock(cfg, blocks, n - 1);
        BlockOkHere(cfg, blocks, n - 1);
      }
    }
  }

  lemma BlockOkHere(cfg: Config, blocks: seq<Block>, i: nat)
    requires 1 <= i < |blocks|
    ensures BlockOkAt(cfg, blocks, i) <==> BlockOk(cfg, blocks[..i], blocks[i])
  {
  }

  lemma GenesisHeader(cfg: Config)
    ensures HeaderOf(cfg, GenesisBlock()) == Header(0, 0, cfg.emptyRoot, 0, 0, 0)
  {
  }

  /** `is_valid_chain` accepts exactly the lawful chains. */
  lemma ValidIsLawful(cfg: Config, blocks: seq<Block>)
    requires CollisionFree(cfg)
    ensures ValidChain(cfg, blocks) <==> LawfulChain(cfg, blocks)
  {
    GenesisHeader(cfg);
    hide CollisionFree, LawfulBlock, AllOkBelow, HeaderOf;
    if blocks != [] && BlockHash(cfg, blocks[0]) == BlockHash(cfg, GenesisBlock()) {
      PrefixLawful(cfg, blocks, |blocks|);
      assert blocks[..|blocks|] == blocks;
    }
  }
}
