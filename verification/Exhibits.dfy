/**
 * Small chains on which a promise of the code fails: three validators, one of whom contradicts itself in
 * block 1, and a block 2 that is either idle or slashes it. Everybody signs for itself, under any signature check
 * that these own signatures pass; module Codebook supplies the hashes.
 */
module Exhibits {
  import opened Types
  import opened Sets
  import opened Quorum
  import opened Registry
  import opened Slashing
  import opened Derive
  import opened Consensus
  import opened ForkChoice
  import opened Runs
  import opened Finality
  import opened Protocol
  import opened Node
  import Codebook

  /** Keys 1 and 2 hold consensus weight 100; key 3 holds w. */
  function Anchor(w: int): Weights {
    map[1 := map[CONSENSUS_DOMAIN := 100], 2 := map[CONSENSUS_DOMAIN := 100], 3 := map[CONSENSUS_DOMAIN := w]]
  }

  /** How each key signs. */
  type Hand = (Key, Message) -> Signature

  /** Keys 1, 2, 3 and 9 are the only ones that act here. Their own signatures verify; of others nothing is asked. */
  ghost predicate SignersVerify(verify: (Key, Message, Signature) -> bool, sign: Hand) {
    forall k, m | k in {1, 2, 3, 9} :: verify(k, m, sign(k, m))
  }

  ghost predicate Stage(cfg: Config, sign: Hand, w: int) {
    && CollisionFree(cfg) && cfg.genesis == Anchor(w) && cfg.endowments == map[] && w >= AUTHORITY_THRESHOLD
    && SignersVerify(cfg.verify, sign)
  }

  lemma SignedByOne(cfg: Config, sign: Hand, w: int, k: Key, m: Message)
    requires Stage(cfg, sign, w) && k in {1, 2, 3, 9}
    ensures Verifies(cfg, k, m, sign(k, m))
  {
  }

  /** Any signature check that the four pass will do, in particular one that lets nobody sign for another. */
  lemma StageExists(verify: (Key, Message, Signature) -> bool, sign: Hand, w: int)
    requires SignersVerify(verify, sign) && w >= AUTHORITY_THRESHOLD
    ensures exists cfg: Config :: Stage(cfg, sign, w) && cfg.verify == verify
  {
    var cfg := Codebook.Numbered(Anchor(w), map[], verify);
    Codebook.CollisionFreeExists(Anchor(w), map[], verify);
    assert Stage(cfg, sign, w) && cfg.verify == verify;
  }

  // ---- the blocks --------------------------------------------------------------------------------

  function Signed(sign: Hand, content: Content): Transaction {
    Transaction(content, Some(sign(content.sender, TransactionMessage(content))))
  }

  /** Key 3's verdict on one claim. */
  function Claim(sign: Hand, v: Verdict): Transaction {
    Signed(sign, Content(3, Attestation(Scope(9, 0, CONSENSUS_DOMAIN, 0), 0, v, 0), 0))
  }

  function Work(sign: Hand, n: int): Transaction {
    Signed(sign, Content(9, Submission(9, "work", 0, n), 0))
  }

  /** The slash for the two verdicts, endorsed by everybody. */
  function Penalty(cfg: Config, sign: Hand): Transaction {
    var evidence := [TxHash(cfg, Claim(sign, Yes)), TxHash(cfg, Claim(sign, No))];
    var statement := SlashMessage(3, CONSENSUS_DOMAIN, 100, multiset(evidence));
    Transaction(Content(1, Slash(3, CONSENSUS_DOMAIN, 100, evidence,
                                 map k | k in {1, 2, 3} :: sign(k, statement)), 0), None)
  }

  function Produced(cfg: Config, sign: Hand, last: Block, height: int, producer: Key, txs: seq<Transaction>,
                    voters: set<Key>): Block {
    var header := HeaderMessage(Header(height, BlockHash(cfg, last), MerkleRoot(cfg, txs), 0, 0, producer));
    Block(height, BlockHash(cfg, last), txs, 0, 0, producer, Some(sign(producer, header)),
          map k | k in voters :: sign(k, header), map[])
  }

  function Trunk(cfg: Config, sign: Hand): seq<Block> {
    [GenesisBlock(), Produced(cfg, sign, GenesisBlock(), 1, 2, [Claim(sign, Yes), Claim(sign, No)], {})]
  }

  function IdleBlock(cfg: Config, sign: Hand): Block {
    Produced(cfg, sign, Trunk(cfg, sign)[1], 2, 3, [], {})
  }

  /** One validator has already committed to this block. */
  function SlashBlock(cfg: Config, sign: Hand): Block {
    Produced(cfg, sign, Trunk(cfg, sign)[1], 2, 3, [Work(sign, 0), Work(sign, 1), Penalty(cfg, sign)], {1})
  }

  // ---- whose turn it is, and who is an authority --------------------------------------------------

  lemma Sizes()
    ensures |{1, 2, 3}| == 3 && |{1, 2}| == 2 && QuorumSize(3) == 3 && QuorumSize(2) == 2
  {
  }

  lemma Turns()
    ensures SortedNats({1, 2, 3}) == [1, 2, 3] && SortedNats({1, 2}) == [1, 2]
  {
    Sizes();
    var three, two := SortedNats({1, 2, 3}), SortedNats({1, 2});
    assert three[0] in three && three[1] in three && three[2] in three && two[0] in two && two[1] in two;
    assert three[0] < three[1] < three[2] && two[0] < two[1];
  }

  lemma Authorities(w: int)
    ensures ConsensusAuthorities(Anchor(w)) == if w >= AUTHORITY_THRESHOLD then {1, 2, 3} else {1, 2}
  {
  }

  // ---- derived state ------------------------------------------------------------------------------

  lemma NothingAt(cfg: Config)
    ensures RegistryAt(cfg, [[]]) == cfg.genesis && BankAt(cfg, [[]]) == EmptyBank(cfg)
    ensures CohortAt(cfg, [[]]) == Cohort({}, [])
  {
    var h: History := [[]];
    assert h[..0] == [];
  }

  function TrunkBodies(sign: Hand): History {
    [[], [Claim(sign, Yes), Claim(sign, No)]]
  }

  lemma ClaimsMoveNothing(cfg: Config, sign: Hand, w: Weights, c: Cohort, prefix: History, validators: set<Key>)
    ensures ApplyTxs(cfg, w, [Claim(sign, Yes), Claim(sign, No)], prefix, validators) == w
    ensures ReplayPromotions(cfg, c, w, 1, [Claim(sign, Yes), Claim(sign, No)]) == c
  {
    InertTail(cfg, w, c, 1, [Claim(sign, Yes), Claim(sign, No)], 0, prefix, validators);
  }

  lemma AtTrunk(cfg: Config, sign: Hand)
    ensures RegistryAt(cfg, TrunkBodies(sign)) == cfg.genesis && CohortAt(cfg, TrunkBodies(sign)) == Cohort({}, [])
    ensures ValidatorSet(cfg, TrunkBodies(sign)) == ConsensusAuthorities(cfg.genesis)
  {
    var h := TrunkBodies(sign);
    assert h[..1] == [[]];
    NothingAt(cfg);
    ClaimsMoveNothing(cfg, sign, cfg.genesis, Cohort({}, []), [[]], AuthoritiesAt(cfg, [[]]));
    hide ApplyTxs, ReplayPromotions;
  }

  // ---- block 1 ------------------------------------------------------------------------------------

  lemma ClaimsAccepted(cfg: Config, sign: Hand, w: int)
    requires Stage(cfg, sign, w)
    ensures TxsOk(cfg, ContextOf(cfg, [[]]), ScanAt(cfg, [[]]), [Claim(sign, Yes), Claim(sign, No)])
  {
    NothingAt(cfg);
    var c, s := ContextOf(cfg, [[]]), ScanAt(cfg, [[]]);
    var txs := [Claim(sign, Yes), Claim(sign, No)];
    assert s.Posted(3) == 0 && c.ledger == EmptyBank(cfg).ledger;
    hide ScanAt, RegistryAt, BankAt, ContextOf;
    ClaimAccepted(cfg, sign, w, c, s, Yes);
    ClaimAccepted(cfg, sign, w, c, Advance(c, s, Claim(sign, Yes)), No);
    assert txs[..1] == [Claim(sign, Yes)] && [Claim(sign, Yes)][..0] == [];
    assert TxsOk(cfg, c, s, [Claim(sign, Yes)]);
  }

  lemma ClaimAccepted(cfg: Config, sign: Hand, w: int, c: Context, s: Scan, v: Verdict)
    requires Stage(cfg, sign, w) && c.ledger == EmptyBank(cfg).ledger && s.Posted(3) == 0
    ensures TxOk(cfg, c, s, Claim(sign, v)) && Advance(c, s, Claim(sign, v)).Posted(3) == 0
  {
    SignedByOne(cfg, sign, w, 3, TransactionMessage(Claim(sign, v).content));
  }

  lemma SealAccepted(cfg: Config, sign: Hand, w: int, last: Block, height: nat, b: Block)
    requires Stage(cfg, sign, w) && b.index == height && b.previousHash == BlockHash(cfg, last)
    requires b.view == 0 && b.viewVotes == map[] && b.commits.Keys <= {1} && b.producer in {2, 3}
    requires b.producerSignature == Some(sign(b.producer, HeaderMessage(HeaderOf(cfg, b))))
    requires forall k | k in b.commits :: b.commits[k] == sign(k, HeaderMessage(HeaderOf(cfg, b)))
    requires Some(b.producer) == ScheduledProposer({1, 2, 3}, height, 0)
    ensures SealOk(cfg, last, height, {1, 2, 3}, b)
  {
    hide BlockHash, ScheduledProposer, HeaderOf, CollisionFree;
    SignedByOne(cfg, sign, w, b.producer, HeaderMessage(HeaderOf(cfg, b)));
    forall k | k in b.commits ensures Verifies(cfg, k, HeaderMessage(HeaderOf(cfg, b)), b.commits[k]) {
      SignedByOne(cfg, sign, w, k, HeaderMessage(HeaderOf(cfg, b)));
    }
  }

  lemma RootValid(cfg: Config, sign: Hand, w: int)
    requires Stage(cfg, sign, w)
    ensures ValidChain(cfg, [GenesisBlock()]) && Bodies([GenesisBlock()]) == [[]]
    ensures ValidatorSet(cfg, [[]]) == {1, 2, 3}
  {
    NothingAt(cfg);
    Authorities(w);
  }

  lemma Schedule()
    ensures ScheduledProposer({1, 2, 3}, 1, 0) == Some(2) && ScheduledProposer({1, 2, 3}, 2, 0) == Some(3)
    ensures ScheduledProposer({1, 2, 3}, 3, 1) == Some(2) && ScheduledProposer({1, 2}, 3, 1) == Some(1)
  {
    Turns();
    Sizes();
  }

  lemma MayFollow(cfg: Config, chain: seq<Block>, h: History, b: Block)
    requires ValidChain(cfg, chain) && Bodies(chain) == h && ValidatorSet(cfg, h) == {1, 2, 3}
    requires SealOk(cfg, chain[|chain| - 1], |chain|, {1, 2, 3}, b)
    requires TxsOk(cfg, ContextOf(cfg, h), ScanAt(cfg, h), b.transactions)
    ensures BlockOk(cfg, chain, b) && ValidChain(cfg, chain + [b])
  {
    hide TxsOk, SealOk, ContextOf, ScanAt, ValidatorSet;
    OneMoreBlock(cfg, chain, b);
  }

  lemma TrunkValid(cfg: Config, sign: Hand, w: int)
    requires Stage(cfg, sign, w)
    ensures ValidChain(cfg, Trunk(cfg, sign)) && Bodies(Trunk(cfg, sign)) == TrunkBodies(sign)
  {
    var g := [GenesisBlock()];
    var b := Trunk(cfg, sign)[1];
    TrunkShape(cfg, sign);
    hide ValidChain, TxsOk, ContextOf, ScanAt, RegistryAt, ValidatorSet, SealOk, ScheduledProposer, BlockHash,
         CollisionFree, Stage, Trunk, Produced, GenesisBlock, Claim;
    RootValid(cfg, sign, w);
    ClaimsAccepted(cfg, sign, w);
    Schedule();
    SealAccepted(cfg, sign, w, GenesisBlock(), 1, b);
    MayFollow(cfg, g, [[]], b);
  }

  lemma TrunkShape(cfg: Config, sign: Hand)
    ensures
      var b := Trunk(cfg, sign)[1];
      && Trunk(cfg, sign) == [GenesisBlock()] + [b] && Bodies(Trunk(cfg, sign)) == TrunkBodies(sign)
      && b.index == 1 && b.previousHash == BlockHash(cfg, GenesisBlock()) && b.producer == 2
      && b.producerSignature == Some(sign(2, HeaderMessage(HeaderOf(cfg, b))))
      && b.view == 0 && b.viewVotes == map[] && b.commits == map[]
      && b.transactions == [Claim(sign, Yes), Claim(sign, No)]
  {
    hide BlockHash;
  }

  // ---- block 2 -------------------------------------------------------------------------------------

  /** Both verdicts are on the trunk, and everybody endorsed the slash. */
  lemma PenaltyIsDue(cfg: Config, sign: Hand, w: int)
    requires Stage(cfg, sign, w)
    ensures ValidSlash(cfg, Penalty(cfg, sign).Payload(), TrunkBodies(sign), {1, 2, 3})
  {
    var yes, no, p := Claim(sign, Yes), Claim(sign, No), Penalty(cfg, sign).Payload();
    Evidence(cfg, sign, w);
    SignedByOne(cfg, sign, w, 3, TransactionMessage(yes.content));
    SignedByOne(cfg, sign, w, 3, TransactionMessage(no.content));
    forall k | k in {1, 2, 3} ensures Verifies(cfg, k, SlashStatement(p), p.endorsements[k]) {
      SignedByOne(cfg, sign, w, k, SlashStatement(p));
    }
    hide FindTx, TxHash, QuorumSize, SlashStatement;
    assert Approvers(cfg, p.endorsements, SlashStatement(p), {1, 2, 3}) == {1, 2, 3};
    Sizes();
  }

  lemma Evidence(cfg: Config, sign: Hand, w: int)
    requires Stage(cfg, sign, w)
    ensures FindTx(cfg, TrunkBodies(sign), TxHash(cfg, Claim(sign, Yes))) == Some(Claim(sign, Yes))
    ensures FindTx(cfg, TrunkBodies(sign), TxHash(cfg, Claim(sign, No))) == Some(Claim(sign, No))
    ensures TxHash(cfg, Claim(sign, Yes)) != TxHash(cfg, Claim(sign, No))
  {
    var yes, no := Claim(sign, Yes), Claim(sign, No);
    assert yes.content != no.content;
    if TxHash(cfg, yes) == TxHash(cfg, no) {
      HashNamesContent(cfg, yes, no);
    }
    var txs := [yes, no];
    assert TrunkBodies(sign)[1..] == [txs] && txs[1..] == [no];
    assert FindIn(cfg, [no], TxHash(cfg, no)) == Some(no);
    hide TxHash;
    assert FindTx(cfg, [txs], TxHash(cfg, no)) == Some(no) && FindTx(cfg, [txs], TxHash(cfg, yes)) == Some(yes);
  }

  lemma WorkAccepted(cfg: Config, sign: Hand, w: int, c: Context, s: Scan, n: int)
    requires Stage(cfg, sign, w)
    ensures TxOk(cfg, c, s, Work(sign, n))
  {
    SignedByOne(cfg, sign, w, 9, TransactionMessage(Work(sign, n).content));
  }

  lemma PenaltyAccepted(cfg: Config, sign: Hand, w: int, c: Context, s: Scan)
    requires Stage(cfg, sign, w) && c.prefix == TrunkBodies(sign) && ConsensusAuthorities(c.weights) == {1, 2, 3}
    ensures TxOk(cfg, c, s, Penalty(cfg, sign))
  {
    PenaltyIsDue(cfg, sign, w);
    Evidence(cfg, sign, w);
    hide ValidSlash, TrunkBodies, ConsensusAuthorities, TxHash;
  }

  lemma SlashBodyAccepted(cfg: Config, sign: Hand, w: int)
    requires Stage(cfg, sign, w)
    ensures
      var h := TrunkBodies(sign);
      TxsOk(cfg, ContextOf(cfg, h), ScanAt(cfg, h), [Work(sign, 0), Work(sign, 1), Penalty(cfg, sign)])
  {
    var h := TrunkBodies(sign);
    AtTrunk(cfg, sign);
    Authorities(w);
    var c, s := ContextOf(cfg, h), ScanAt(cfg, h);
    assert c.prefix == h && ConsensusAuthorities(c.weights) == {1, 2, 3};
    hide ValidSlash, ContextOf, ScanAt, RegistryAt, BankAt, CohortAt;
    var txs := [Work(sign, 0), Work(sign, 1), Penalty(cfg, sign)];
    forall n, s' ensures TxOk(cfg, c, s', Work(sign, n)) {
      WorkAccepted(cfg, sign, w, c, s', n);
    }
    forall s' ensures TxOk(cfg, c, s', Penalty(cfg, sign)) {
      PenaltyAccepted(cfg, sign, w, c, s');
    }
    hide TxOk, Penalty, Work, Stage, TrunkBodies, ConsensusAuthorities, Advance;
    assert txs[..2] == [Work(sign, 0), Work(sign, 1)];
    assert [Work(sign, 0), Work(sign, 1)][..1] == [Work(sign, 0)] && [Work(sign, 0)][..0] == [];
    assert TxsOk(cfg, c, s, [Work(sign, 0)]);
    assert TxsOk(cfg, c, s, [Work(sign, 0), Work(sign, 1)]);
  }

  lemma SecondBlockAccepted(cfg: Config, sign: Hand, w: int, b: Block)
    requires Stage(cfg, sign, w) && (b == IdleBlock(cfg, sign) || b == SlashBlock(cfg, sign))
    ensures BlockOk(cfg, Trunk(cfg, sign), b) && ValidChain(cfg, Trunk(cfg, sign) + [b])
  {
    TrunkValid(cfg, sign, w);
    AtTrunk(cfg, sign);
    Authorities(w);
    SlashBodyAccepted(cfg, sign, w);
    Schedule();
    hide ContextOf, ScanAt, RegistryAt, CohortAt, ScheduledProposer, SealOk, ValidChain, BlockHash, ValidatorSet, TxOk;
    assert Trunk(cfg, sign)[|Trunk(cfg, sign)| - 1] == Trunk(cfg, sign)[1];
    SealAccepted(cfg, sign, w, Trunk(cfg, sign)[1], 2, b);
    OneMoreBlock(cfg, Trunk(cfg, sign), b);
  }

  lemma WorkMovesNothing(cfg: Config, sign: Hand, w: Weights, prefix: History, validators: set<Key>)
    ensures ApplyTxs(cfg, w, [Work(sign, 0), Work(sign, 1)], prefix, validators) == w
  {
    InertTail(cfg, w, Cohort({}, []), 2, [Work(sign, 0), Work(sign, 1)], 0, prefix, validators);
  }

  lemma Debits(w: int)
    ensures Debited(Anchor(w), 3, CONSENSUS_DOMAIN, 100) == Anchor(Max(0, w - 100))
  {
    assert map[CONSENSUS_DOMAIN := w][CONSENSUS_DOMAIN := Max(0, w - 100)] == map[CONSENSUS_DOMAIN := Max(0, w - 100)];
  }

  lemma SlashDebits(cfg: Config, sign: Hand, w: int, now: int)
    requires Stage(cfg, sign, w)
    ensures ApplyTx(cfg, Anchor(now), Penalty(cfg, sign), TrunkBodies(sign), {1, 2, 3}) == Anchor(Max(0, now - 100))
  {
    PenaltyIsDue(cfg, sign, w);
    Debits(now);
    hide ValidSlash, Anchor, TrunkBodies;
  }

  /** Each slash in block 2 takes a hundred from key 3. */
  lemma SlashesDebit(cfg: Config, sign: Hand, w: int)
    requires Stage(cfg, sign, w)
    ensures
      var h, txs := TrunkBodies(sign), SlashBlock(cfg, sign).transactions;
      && ApplyTxs(cfg, Anchor(w), txs, h, {1, 2, 3}) == Anchor(Max(0, w - 100))
      && ApplyTxs(cfg, Anchor(w), txs + [Penalty(cfg, sign)], h, {1, 2, 3}) == Anchor(Max(0, Max(0, w - 100) - 100))
  {
    var h, txs, slash := TrunkBodies(sign), SlashBlock(cfg, sign).transactions, Penalty(cfg, sign);
    WorkMovesNothing(cfg, sign, Anchor(w), h, {1, 2, 3});
    SlashDebits(cfg, sign, w, w);
    SlashDebits(cfg, sign, w, Max(0, w - 100));
    assert txs == [Work(sign, 0), Work(sign, 1), slash];
    assert txs[..2] == [Work(sign, 0), Work(sign, 1)] && (txs + [slash])[..3] == txs;
    hide Anchor, ApplyTx, TrunkBodies, SlashBlock, Penalty, Work, Stage;
  }

  lemma AfterSlash(cfg: Config, sign: Hand, w: int)
    requires Stage(cfg, sign, w)
    ensures RegistryAt(cfg, TrunkBodies(sign) + [SlashBlock(cfg, sign).transactions]) == Anchor(Max(0, w - 100))
    ensures RegistryAt(cfg, TrunkBodies(sign) + [Twin(SlashBlock(cfg, sign)).transactions])
        == Anchor(Max(0, Max(0, w - 100) - 100))
  {
    var h, txs, slash := TrunkBodies(sign), SlashBlock(cfg, sign).transactions, Penalty(cfg, sign);
    AtTrunk(cfg, sign);
    Authorities(w);
    SlashesDebit(cfg, sign, w);
    assert |h| == 2 && Twin(SlashBlock(cfg, sign)).transactions == txs + [slash];
    assert (h + [txs])[..2] == h && (h + [txs + [slash]])[..2] == h;
    hide Anchor, ApplyTxs, TrunkBodies, SlashBlock, Twin, Penalty, Work, ConsensusAuthorities, CohortAt;
  }

  lemma NobodyPromoted(cfg: Config, sign: Hand, txs: seq<Transaction>)
    requires forall i | 0 <= i < |txs| :: !txs[i].Payload().Promotion?
    ensures CohortAt(cfg, TrunkBodies(sign) + [txs]) == Cohort({}, [])
  {
    var h := TrunkBodies(sign);
    AtTrunk(cfg, sign);
    assert (h + [txs])[..2] == h;
    NoPromotions(cfg, Cohort({}, []), RegistryAt(cfg, h), 2, txs);
  }

  lemma {:induction false} NoPromotions(cfg: Config, c: Cohort, w: Weights, i: nat, txs: seq<Transaction>)
    requires forall j | 0 <= j < |txs| :: !txs[j].Payload().Promotion?
    ensures ReplayPromotions(cfg, c, w, i, txs) == c
    decreases |txs|
  {
    if txs != [] {
      NoPromotions(cfg, c, w, i, txs[..|txs| - 1]);
    }
  }

  // ---- a slash listed twice splits the validator set -------------------------------------------------

  lemma SplitChains(cfg: Config, sign: Hand)
    requires Stage(cfg, sign, 160)
    ensures
      var t, x := Trunk(cfg, sign), SlashBlock(cfg, sign);
      && ValidChain(cfg, t + [x]) && ValidChain(cfg, t + [Twin(x)]) && BlockHash(cfg, x) == BlockHash(cfg, Twin(x))
      && Bodies(t + [x]) == TrunkBodies(sign) + [x.transactions]
      && Bodies(t + [Twin(x)]) == TrunkBodies(sign) + [Twin(x).transactions]
  {
    var t, x := Trunk(cfg, sign), SlashBlock(cfg, sign);
    assert |t| == 2;
    hide Trunk, SlashBlock, Stage, EndsInSlash, Twin, BlockHash, ValidChain, BlockOk, RegistryAt;
    SecondBlockAccepted(cfg, sign, 160, x);
    TrunkValid(cfg, sign, 160);
    SlashHurts(cfg, sign, 160);
    RepeatedSlashSplitsState(cfg, t, x);
    OneMoreBody(t, x);
    OneMoreBody(t, Twin(x));
  }

  lemma OneMoreBody(blocks: seq<Block>, b: Block)
    ensures Bodies(blocks + [b]) == Bodies(blocks) + [b.transactions]
  {
  }

  lemma SplitValidators(cfg: Config, sign: Hand)
    requires Stage(cfg, sign, 160)
    ensures ValidatorSet(cfg, TrunkBodies(sign) + [SlashBlock(cfg, sign).transactions]) == {1, 2, 3}
    ensures ValidatorSet(cfg, TrunkBodies(sign) + [Twin(SlashBlock(cfg, sign)).transactions]) == {1, 2}
  {
    var x := SlashBlock(cfg, sign);
    assert forall i | 0 <= i < |Twin(x).transactions| :: !Twin(x).transactions[i].Payload().Promotion?;
    AfterSlash(cfg, sign, 160);
    hide RegistryAt, CohortAt, Anchor, Stage, ValidatorSet, TrunkBodies, SlashBlock, Twin;
    NobodyPromoted(cfg, sign, x.transactions);
    NobodyPromoted(cfg, sign, Twin(x).transactions);
    ValidatorsFrom(cfg, TrunkBodies(sign) + [x.transactions], 60);
    ValidatorsFrom(cfg, TrunkBodies(sign) + [Twin(x).transactions], 0);
  }

  /** Two chains, both valid and equal in every block hash, that judge their next block by different validators. */
  ghost predicate SameHashesOtherValidators(cfg: Config, a: seq<Block>, b: seq<Block>) {
    && CollisionFree(cfg) && ValidChain(cfg, a) && ValidChain(cfg, b) && |a| == |b|
    && (forall i | 0 <= i < |a| :: BlockHash(cfg, a[i]) == BlockHash(cfg, b[i]))
    && ValidatorSet(cfg, Bodies(a)) != ValidatorSet(cfg, Bodies(b))
  }

  /** Nobody need forge anything: it happens under any signature check that the signers of the two chains pass. */
  lemma RepeatedSlashSplitsValidators(verify: (Key, Message, Signature) -> bool, sign: Hand)
    requires SignersVerify(verify, sign)
    ensures exists cfg: Config, a, b :: cfg.verify == verify && SameHashesOtherValidators(cfg, a, b)
  {
    StageExists(verify, sign, 160);
    hide *;
    var cfg: Config :| Stage(cfg, sign, 160) && cfg.verify == verify;
    SplitAt(cfg, sign);
  }

  lemma SplitAt(cfg: Config, sign: Hand)
    requires Stage(cfg, sign, 160)
    ensures SameHashesOtherValidators(cfg, Trunk(cfg, sign) + [SlashBlock(cfg, sign)],
                                      Trunk(cfg, sign) + [Twin(SlashBlock(cfg, sign))])
  {
    assert CollisionFree(cfg);
    hide *;
    SplitChains(cfg, sign);
    SplitValidators(cfg, sign);
    SplitPair(cfg, Trunk(cfg, sign), SlashBlock(cfg, sign), Twin(SlashBlock(cfg, sign)));
  }

  lemma SplitPair(cfg: Config, t: seq<Block>, x: Block, y: Block)
    requires CollisionFree(cfg) && ValidChain(cfg, t + [x]) && ValidChain(cfg, t + [y])
        && BlockHash(cfg, x) == BlockHash(cfg, y)
    requires ValidatorSet(cfg, Bodies(t + [x])) == {1, 2, 3} && ValidatorSet(cfg, Bodies(t + [y])) == {1, 2}
    ensures SameHashesOtherValidators(cfg, t + [x], t + [y])
  {
    hide ValidChain, BlockHash, ValidatorSet, CollisionFree;
    assert 3 in ValidatorSet(cfg, Bodies(t + [x])) && 3 !in ValidatorSet(cfg, Bodies(t + [y]));
  }

  lemma SlashHurts(cfg: Config, sign: Hand, w: int)
    requires Stage(cfg, sign, w) && w > 100
    ensures EndsInSlash(cfg, Trunk(cfg, sign), SlashBlock(cfg, sign)) && |SlashBlock(cfg, sign).transactions| == 3
  {
    TrunkValid(cfg, sign, w);
    AfterSlash(cfg, sign, w);
    hide RegistryAt, ValidChain;
  }

  // ---- a stale vote completes a quorum ------------------------------------------------------------------

  function IdleChain(cfg: Config, sign: Hand): seq<Block> {
    Trunk(cfg, sign) + [IdleBlock(cfg, sign)]
  }

  function SlashChain(cfg: Config, sign: Hand): seq<Block> {
    Trunk(cfg, sign) + [SlashBlock(cfg, sign)]
  }

  /** Too few commits: only the genesis block is final. */
  lemma OnlyGenesisFinal(cfg: Config, sign: Hand, w: int, i: nat)
    requires Stage(cfg, sign, w) && 0 < i < 3
    ensures !IsFinal(cfg, IdleChain(cfg, sign), i) && !IsFinal(cfg, SlashChain(cfg, sign), i)
  {
    AtTrunk(cfg, sign);
    Authorities(w);
    TrunkValid(cfg, sign, w);
    Sizes();
    var a, b := IdleChain(cfg, sign), SlashChain(cfg, sign);
    assert a[..2] == Trunk(cfg, sign) && b[..2] == Trunk(cfg, sign);
    hide ValidatorSet, ValidChain, BlockHash;
    assert CommitSigners(cfg, a[i]) == {};
    assert CommitSigners(cfg, b[i]) <= {1};
    SubsetSize(CommitSigners(cfg, b[i]) * ValidatorSet(cfg, Bodies(b[..i])), {1});
    if i == 1 {
      assert CommitSigners(cfg, b[1]) == {};
    }
  }

  lemma Ranks(cfg: Config, sign: Hand, w: int)
    requires Stage(cfg, sign, w)
    ensures ForkChoiceRank(cfg, [GenesisBlock()]) == Rank(0, 1, 0)
    ensures ForkChoiceRank(cfg, IdleChain(cfg, sign)) == Rank(0, 3, 0)
    ensures ForkChoiceRank(cfg, SlashChain(cfg, sign)) == Rank(0, 3, 1)
  {
    OnlyGenesisFinal(cfg, sign, w, 1);
    OnlyGenesisFinal(cfg, sign, w, 2);
    TipWeights(cfg, sign, w);
    hide IsFinal, TipWeight, Stage;
    NoneFinal(cfg, IdleChain(cfg, sign));
    NoneFinal(cfg, SlashChain(cfg, sign));
  }

  lemma NoneFinal(cfg: Config, blocks: seq<Block>)
    requires |blocks| == 3 && !IsFinal(cfg, blocks, 1) && !IsFinal(cfg, blocks, 2)
    ensures FinalizedHeight(cfg, blocks) == 0
  {
    hide IsFinal;
    assert FinalBelow(cfg, blocks, 2) == 0;
  }

  lemma TipWeights(cfg: Config, sign: Hand, w: int)
    requires Stage(cfg, sign, w)
    ensures TipWeight(cfg, IdleChain(cfg, sign)) == 0 && TipWeight(cfg, SlashChain(cfg, sign)) == 1
  {
    AtTrunk(cfg, sign);
    Authorities(w);
    TrunkValid(cfg, sign, w);
    assert IdleChain(cfg, sign)[..2] == Trunk(cfg, sign) && SlashChain(cfg, sign)[..2] == Trunk(cfg, sign);
    OneSigner(cfg, sign, w);
    hide ValidatorSet, ValidChain, CommitSigners;
    assert {1} * {1, 2, 3} == {1};
  }

  lemma OneSigner(cfg: Config, sign: Hand, w: int)
    requires Stage(cfg, sign, w)
    ensures CommitSigners(cfg, IdleBlock(cfg, sign)) == {} && CommitSigners(cfg, SlashBlock(cfg, sign)) == {1}
  {
    var b := SlashBlock(cfg, sign);
    SignedByOne(cfg, sign, w, 1, HeaderMessage(HeaderOf(cfg, b)));
    assert b.commits == map[1 := sign(1, HeaderMessage(HeaderOf(cfg, b)))];
    hide HeaderOf, Stage;
  }

  /** A valid chain from the same root that ranks higher is adopted when only the root is final. */
  lemma HigherIsAdopted(cfg: Config, a: seq<Block>, b: seq<Block>)
    requires a != [] && ValidChain(cfg, b) && b != [] && BlockHash(cfg, a[0]) == BlockHash(cfg, b[0])
    requires forall i | 0 < i < |a| :: !IsFinal(cfg, a, i)
    requires RankLess(ForkChoiceRank(cfg, a), ForkChoiceRank(cfg, b))
    ensures Adopts(cfg, a, b)
  {
    hide ValidChain, ForkChoiceRank, BlockHash, IsFinal;
    forall i | 0 <= i < |a| ensures !Rewrites(cfg, a, b, i) {}
  }

  lemma ChainsAccepted(cfg: Config, sign: Hand, w: int)
    requires Stage(cfg, sign, w)
    ensures
      forall c | c == IdleChain(cfg, sign) || c == SlashChain(cfg, sign) ::
        ValidChain(cfg, c) && |c| == 3 && c[0] == GenesisBlock()
  {
    hide ValidChain, IdleBlock, SlashBlock, Produced, Stage;
    SecondBlockAccepted(cfg, sign, w, IdleBlock(cfg, sign));
    SecondBlockAccepted(cfg, sign, w, SlashBlock(cfg, sign));
  }

  lemma Adoptions(cfg: Config, sign: Hand, w: int)
    requires Stage(cfg, sign, w)
    ensures Adopts(cfg, [GenesisBlock()], IdleChain(cfg, sign))
        && Adopts(cfg, IdleChain(cfg, sign), SlashChain(cfg, sign))
  {
    hide *;
    ChainsAccepted(cfg, sign, w);
    Ranks(cfg, sign, w);
    OnlyGenesisFinal(cfg, sign, w, 1);
    OnlyGenesisFinal(cfg, sign, w, 2);
    var a, b := IdleChain(cfg, sign), SlashChain(cfg, sign);
    HigherIsAdopted(cfg, [GenesisBlock()], a) by {
      assert RankLess(Rank(0, 1, 0), Rank(0, 3, 0)) by { RankSteps(); }
    }
    HigherIsAdopted(cfg, a, b) by {
      assert RankLess(Rank(0, 3, 0), Rank(0, 3, 1)) by { RankSteps(); }
    }
  }

  lemma RankSteps()
    ensures RankLess(Rank(0, 1, 0), Rank(0, 3, 0)) && RankLess(Rank(0, 3, 0), Rank(0, 3, 1))
  {
  }

  lemma AfterIdle(cfg: Config, sign: Hand)
    ensures RegistryAt(cfg, TrunkBodies(sign) + [[]]) == cfg.genesis
  {
    AtTrunk(cfg, sign);
    assert (TrunkBodies(sign) + [[]])[..2] == TrunkBodies(sign);
  }

  lemma ValidatorsFrom(cfg: Config, h: History, w: int)
    requires RegistryAt(cfg, h) == Anchor(w) && CohortAt(cfg, h) == Cohort({}, [])
    ensures ValidatorSet(cfg, h) == if w >= AUTHORITY_THRESHOLD then {1, 2, 3} else {1, 2}
  {
    Authorities(w);
    hide Anchor, RegistryAt, CohortAt;
  }

  lemma ThirdShape(cfg: Config, sign: Hand)
    requires Stage(cfg, sign, 140)
    ensures cfg.genesis == Anchor(140) && Max(0, 140 - 100) == 40 < AUTHORITY_THRESHOLD <= 140
    ensures IdleBlock(cfg, sign).transactions == []
    ensures |IdleChain(cfg, sign)| == |SlashChain(cfg, sign)| == 3
    ensures
      forall i | 0 <= i < |SlashBlock(cfg, sign).transactions| ::
        !SlashBlock(cfg, sign).transactions[i].Payload().Promotion?
    ensures Bodies(IdleChain(cfg, sign)) == TrunkBodies(sign) + [[]]
    ensures Bodies(SlashChain(cfg, sign)) == TrunkBodies(sign) + [SlashBlock(cfg, sign).transactions]
  {
    TrunkValid(cfg, sign, 140);
    OneMoreBody(Trunk(cfg, sign), IdleBlock(cfg, sign));
    OneMoreBody(Trunk(cfg, sign), SlashBlock(cfg, sign));
    hide Bodies, TrunkBodies, ValidChain, HeaderOf;
  }

  lemma ThirdHeight(cfg: Config, sign: Hand)
    requires Stage(cfg, sign, 140)
    ensures |IdleChain(cfg, sign)| == |SlashChain(cfg, sign)| == 3
    ensures ValidatorSet(cfg, Bodies(IdleChain(cfg, sign))) == {1, 2, 3}
    ensures ValidatorSet(cfg, Bodies(SlashChain(cfg, sign))) == {1, 2}
  {
    hide *;
    ThirdShape(cfg, sign);
    AfterSlash(cfg, sign, 140);
    AfterIdle(cfg, sign);
    NobodyPromoted(cfg, sign, []);
    NobodyPromoted(cfg, sign, SlashBlock(cfg, sign).transactions);
    ValidatorsFrom(cfg, TrunkBodies(sign) + [[]], 140);
    ValidatorsFrom(cfg, TrunkBodies(sign) + [SlashBlock(cfg, sign).transactions], 40);
  }

  lemma AtThree(cfg: Config, blocks: seq<Block>)
    requires |blocks| == 3
    ensures ValidatorsAt(cfg, blocks, 3) == ValidatorSet(cfg, Bodies(blocks))
  {
    assert blocks[..3] == blocks;
    hide ValidatorSet;
  }

  lemma VotedTable(s: NodeState, k: Key, signature: Signature)
    ensures VotesIn(WithVote(s, 3, 1, k, signature).votes, (3, 1)) == VotesIn(s.votes, (3, 1))[k := signature]
  {
  }

  function OwnView(sign: Hand, k: Key): Signature {
    sign(k, ViewChangeMessage(3, 1))
  }

  function OneVote(sign: Hand): map<Key, Signature> {
    map[3 := OwnView(sign, 3)]
  }

  function BothVotes(sign: Hand): map<Key, Signature> {
    map[3 := OwnView(sign, 3), 2 := OwnView(sign, 2)]
  }

  lemma TwoVotes(sign: Hand)
    ensures |BothVotes(sign)| == 2 && BothVotes(sign).Keys == {3, 2} && {3, 2} * {1, 2} == {2}
    ensures |OneVote(sign)| == 1 && OneVote(sign)[2 := OwnView(sign, 2)] == BothVotes(sign)
  {
    var votes := BothVotes(sign);
    assert votes.Keys == {3, 2} && |votes| == |votes.Keys| && |{3, 2}| == 2;
  }

  /** The vote of key 3 counts while it is a validator, and alone is no quorum of three. */
  lemma FirstVote(cfg: Config, sign: Hand, me: Signer, s: NodeState)
    requires Stage(cfg, sign, 140) && s.blocks == IdleChain(cfg, sign) && s.votes == map[]
    ensures Records(cfg, s, 3, 1, 3, OwnView(sign, 3))
    ensures VotesIn(WithVote(s, 3, 1, 3, OwnView(sign, 3)).votes, (3, 1)) == OneVote(sign)
    ensures !Ready(cfg, WithVote(s, 3, 1, 3, OwnView(sign, 3)), me, 3, 1)
  {
    SignedByOne(cfg, sign, 140, 3, ViewChangeMessage(3, 1));
    ThirdHeight(cfg, sign);
    AtThree(cfg, s.blocks);
    Sizes();
    VotedTable(s, 3, OwnView(sign, 3));
    TwoVotes(sign);
    hide ValidatorsAt, ScheduledProposer, IdleChain, Stage, QuorumSize, Verifies, ValidatorSet;
    assert VotesIn(s.votes, (3, 1)) == map[];
  }

  /** Together with the vote of key 2 it makes two, a quorum of the two validators that are left. */
  lemma SecondVote(cfg: Config, sign: Hand, me: Signer, s: NodeState)
    requires Stage(cfg, sign, 140) && me.key == 1 && s.blocks == SlashChain(cfg, sign) && s.advanced == {}
    requires VotesIn(s.votes, (3, 1)) == OneVote(sign)
    ensures Records(cfg, s, 3, 1, 2, OwnView(sign, 2))
    ensures VotesIn(WithVote(s, 3, 1, 2, OwnView(sign, 2)).votes, (3, 1)) == BothVotes(sign)
    ensures Ready(cfg, WithVote(s, 3, 1, 2, OwnView(sign, 2)), me, 3, 1)
  {
    SignedByOne(cfg, sign, 140, 2, ViewChangeMessage(3, 1));
    ThirdHeight(cfg, sign);
    AtThree(cfg, s.blocks);
    Schedule();
    Sizes();
    VotedTable(s, 2, OwnView(sign, 2));
    TwoVotes(sign);
    hide ValidatorsAt, ScheduledProposer, SlashChain, Stage, QuorumSize, Verifies, ValidatorSet, VotesIn;
  }

  lemma StaleSealFails(cfg: Config, sign: Hand, me: Signer, s: NodeState, timestamp: int)
    requires Stage(cfg, sign, 140) && me.key == 1 && SignsProperly(cfg, me)
    requires s.blocks == SlashChain(cfg, sign) && GenuineVotes(cfg, s.votes)
    requires VotesIn(s.votes, (3, 1)) == BothVotes(sign)
    ensures
      var b := ProposedBlock(cfg, s.blocks, s.pool, me, 1, VotesIn(s.votes, (3, 1)), timestamp);
      && |s.blocks| == 3 && ValidatorSet(cfg, Bodies(s.blocks)) == {1, 2}
      && !SealOk(cfg, s.blocks[2], 3, {1, 2}, b)
      && !ValidChain(cfg, s.blocks + [b])
  {
    ThirdHeight(cfg, sign);
    Schedule();
    Sizes();
    TwoVotes(sign);
    hide ValidatorSet, SealOk, ProposedBlock, ScheduledProposer, SignsProperly, GenuineVotes, Stage, SlashChain,
         ValidChain, QuorumSize, VotesIn;
    ProposalJustified(cfg, s.blocks, s.pool, me, 1, s.votes, timestamp);
    SealIsNeeded(cfg, s.blocks, ProposedBlock(cfg, s.blocks, s.pool, me, 1, VotesIn(s.votes, (3, 1)), timestamp));
  }

  lemma SealIsNeeded(cfg: Config, blocks: seq<Block>, b: Block)
    requires blocks != [] && !SealOk(cfg, blocks[|blocks| - 1], |blocks|, ValidatorSet(cfg, Bodies(blocks)), b)
    ensures !ValidChain(cfg, blocks + [b])
  {
    hide SealOk, ValidatorSet, TxsOk, ContextOf, ScanAt, ValidChain;
    OneMoreBlock(cfg, blocks, b);
  }

  /** The two handler calls, on states. */
  lemma VoteRecorded(cfg: Config, s: NodeState, me: Signer, k: Key, signature: Signature, timestamp: int)
    requires s.blocks != [] && Records(cfg, s, 3, 1, k, signature)
    ensures
      var voted, after := WithVote(s, 3, 1, k, signature), AfterVote(cfg, s, me, 3, 1, k, signature, timestamp);
      && after.votes == voted.votes
      && (!Ready(cfg, voted, me, 3, 1) ==> after.blocks == s.blocks && after.advanced == s.advanced)
      && (Ready(cfg, voted, me, 3, 1) ==>
            after.blocks
            == s.blocks + [ProposedBlock(cfg, s.blocks, s.pool, me, 1, VotesIn(voted.votes, (3, 1)), timestamp)])
  {
    hide ProposedBlock, ProposalMessages, ValidatorsAt, Records;
  }

  lemma ProposedFields(cfg: Config, blocks: seq<Block>, pool: seq<Transaction>, me: Signer, votes: map<Key, Signature>,
                       timestamp: int)
    requires blocks != []
    ensures
      var b := ProposedBlock(cfg, blocks, pool, me, 1, votes, timestamp);
      b.producer == me.key && b.view == 1 && b.viewVotes == votes
  {
    hide ValidatorSet, HeaderOf;
  }

  /** Node 1 hears the vote of validator 3 for view 1 of height 3, then adopts the chain on which 3 is slashed. */
  method HearThenAdopt(cfg: Config, sign: Hand, timestamp: int) returns (node: AttestationNode)
    requires Stage(cfg, sign, 140)
    ensures fresh(node) && fresh(node.chain) && node.Valid() && node.chain.cfg == cfg
    ensures node.signer.key == 1 && SignsProperly(cfg, node.signer)
    ensures node.chain.blocks == SlashChain(cfg, sign) && node.viewAdvanced == {}
    ensures VotesIn(node.viewVotes, (3, 1)) == OneVote(sign)
  {
    var me := Signer(1, (m: Message) => sign(1, m));
    forall m ensures Verifies(cfg, 1, m, me.sign(m)) {
      SignedByOne(cfg, sign, 140, 1, m);
    }
    assert SignsProperly(cfg, me) && CollisionFree(cfg);
    Adoptions(cfg, sign, 140);
    hide Stage, Records, Ready, ValidChain, WithVote, VotesIn, NodeStep, Adopts, Linked, IdleChain, SlashChain,
         CollisionFree, SignsProperly, AfterVote, GenesisBlock, Uncommitted, GenuineVotes;
    var chain := new Blockchain(cfg);
    var first := chain.ReplaceChain(IdleChain(cfg, sign));
    node := new AttestationNode(me, chain);
    ghost var s := node.State();
    FirstVote(cfg, sign, me, s);
    VoteRecorded(cfg, s, me, 3, OwnView(sign, 3), timestamp);
    var none := node.OnViewChange(3, 1, 3, OwnView(sign, 3), timestamp);
    var second := node.OnChainResponse(SlashChain(cfg, sign));
  }

  /**
   * Then it hears the vote of validator 2. It proposes, on two votes for two validators, and every node rejects
   * the block: only one of the voters is a validator.
   */
  method StaleVoteStartsRejectedProposal(cfg: Config, sign: Hand, timestamp: int)
    returns (node: AttestationNode, block: Block)
    requires Stage(cfg, sign, 140)
    ensures node.chain.cfg == cfg && node.chain.blocks == SlashChain(cfg, sign) + [block]
    ensures ValidChain(cfg, SlashChain(cfg, sign)) && ValidatorSet(cfg, Bodies(SlashChain(cfg, sign))) == {1, 2}
    ensures |SlashChain(cfg, sign)| == 3 && block.producer == 1 && block.view == 1 && block.viewVotes.Keys == {3, 2}
    ensures !SealOk(cfg, SlashChain(cfg, sign)[2], 3, {1, 2}, block) && !ValidChain(cfg, node.chain.blocks)
  {
    node := HearThenAdopt(cfg, sign, timestamp);
    ghost var s, me := node.State(), node.signer;
    SecondBlockAccepted(cfg, sign, 140, SlashBlock(cfg, sign));
    assert ValidChain(cfg, SlashChain(cfg, sign));
    TwoVotes(sign);
    SecondVote(cfg, sign, me, s);
    hide Stage, Records, Ready, ValidChain, SealOk, ValidatorSet, ProposedBlock, WithVote, VotesIn, NodeStep,
         Linked, SlashChain, CollisionFree, SignsProperly, AfterVote;
    VoteRecorded(cfg, s, me, 2, OwnView(sign, 2), timestamp);
    var some := node.OnViewChange(3, 1, 2, OwnView(sign, 2), timestamp);
    StaleSealFails(cfg, sign, me, s.(votes := node.viewVotes), timestamp);
    ProposedFields(cfg, s.blocks, s.pool, me, BothVotes(sign), timestamp);
    block := node.chain.blocks[|node.chain.blocks| - 1];
  }
}
