/**
 * Every bond on a valid chain is covered: the ledger replayed from it balances exactly, for every
 * key and after every transaction, and no clamp at zero ever bites.
 */
module Bonds {
  import opened Types
  import opened Sets
  import opened Registry
  import opened Balances
  import opened Slashing
  import opened Derive
  import opened Consensus
  import opened Finality
  import opened Aggregator

  // ---- the books of one key ------------------------------------------------------------

  function StakeFor(open: map<Hash, Bond>, k: Key): Hash -> int {
    h => if h in open && open[h].reviewer == k then open[h].stake else 0
  }

  /** What k has at stake in bonds that are still live. */
  ghost function OpenStake(open: map<Hash, Bond>, k: Key): int {
    Sum(open.Keys, StakeFor(open, k))
  }

  /** How often k is paid a review reward by one certificate. */
  ghost function RewardsIn(bank: Bank, granted: seq<Key>, s: Scope, k: Key): nat {
    if granted == [] then 0
    else
      var n := |granted| - 1;
      RewardsIn(bank, granted[..n], s, k)
      + if granted[n] == k && Contributing(ReleaseAll(bank, granted[..n], s).open, k, s) != {} then 1 else 0
  }

  /** What one slash burns of k's bonds. */
  ghost function BurnedIn(bank: Bank, evidence: seq<Hash>, offender: Key, k: Key): int {
    if evidence == [] || offender != k then 0
    else
      var n := |evidence| - 1;
      BurnedIn(bank, evidence[..n], offender, k) + StakeFor(BurnAll(bank, evidence[..n], offender).open, k)(evidence[n])
  }

  /**
   * The replay together with k's books: review rewards paid, stakes burned, and stakes stranded, which
   * are those of live bonds that were overwritten because a transaction of the same hash was committed again.
   */
  datatype Books = Books(bank: Bank, rewards: nat, burned: int, stranded: int)

  ghost function BooksTx(cfg: Config, k: Key, a: Books, tx: Transaction, prefix: History, validators: set<Key>): Books {
    var p := tx.Payload();
    var bank := BankTx(cfg, a.bank, tx, prefix, validators);
    if IsAttestation(tx) then
      if p.verdict == Abstain then a
      else a.(bank := bank, stranded := a.stranded + StakeFor(a.bank.open, k)(TxHash(cfg, tx)))
    else if p.Certificate? then a.(bank := bank, rewards := a.rewards + RewardsIn(a.bank, p.grantedBy, p.certified, k))
    else if p.Slash? && ValidSlash(cfg, p, prefix, validators) then
      a.(bank := bank, burned := a.burned + BurnedIn(a.bank, p.evidence, p.offender, k))
    else a
  }

  ghost function BooksTxs(cfg: Config, k: Key, a: Books, txs: seq<Transaction>, prefix: History,
                          validators: set<Key>): Books {
    if txs == [] then a
    else
      var n := |txs| - 1;
      BooksTx(cfg, k, BooksTxs(cfg, k, a, txs[..n], prefix, validators), txs[n], prefix, validators)
  }

  ghost function BooksAt(cfg: Config, k: Key, history: History): Books {
    if history == [] then Books(EmptyBank(cfg), 0, 0, 0)
    else
      var n := |history| - 1;
      BooksTxs(cfg, k, BooksAt(cfg, k, history[..n]), history[n], history[..n], AuthoritiesAt(cfg, history[..n]))
  }

  lemma {:induction false} BooksTrackBankTxs(cfg: Config, k: Key, a: Books, txs: seq<Transaction>, prefix: History,
                                             validators: set<Key>)
    ensures BooksTxs(cfg, k, a, txs, prefix, validators).bank == BankTxs(cfg, a.bank, txs, prefix, validators)
    decreases |txs|
  {
    if txs != [] {
      BooksTrackBankTxs(cfg, k, a, txs[..|txs| - 1], prefix, validators);
    }
  }

  lemma {:induction false} BooksTrackBank(cfg: Config, k: Key, history: History)
    ensures BooksAt(cfg, k, history).bank == BankAt(cfg, history)
    decreases |history|
  {
    if history != [] {
      var n := |history| - 1;
      BooksTrackBank(cfg, k, history[..n]);
      BooksTrackBankTxs(cfg, k, BooksAt(cfg, k, history[..n]), history[n], history[..n],
                        AuthoritiesAt(cfg, history[..n]));
    }
  }

  /** The books balance: what k owns and what it has locked are exactly accounted for, and covered. */
  ghost predicate Balanced(cfg: Config, k: Key, a: Books) {
    var ledger := a.bank.ledger;
    && StakesNonNegative(a.bank.open)
    && a.stranded >= 0
    && ledger.Total(k) == EmptyBank(cfg).ledger.Total(k) + REVIEW_REWARD * a.rewards - a.burned
    && ledger.Locked(k) == OpenStake(a.bank.open, k) + a.stranded
    && 0 <= ledger.Locked(k) <= ledger.Total(k)
  }

  // ---- live stake under posting and resolving ----------------------------------------------

  lemma OpenStakeNonNegative(open: map<Hash, Bond>, k: Key)
    requires StakesNonNegative(open)
    ensures OpenStake(open, k) >= 0
  {
    forall h | h in open.Keys ensures StakeFor(open, k)(h) >= 0 {}
    SumNonNegative(open.Keys, StakeFor(open, k));
  }

  lemma PostedStake(open: map<Hash, Bond>, h: Hash, bond: Bond, k: Key)
    ensures OpenStake(open[h := bond], k)
         == OpenStake(open, k) - StakeFor(open, k)(h) + if bond.reviewer == k then bond.stake else 0
  {
    var after := open[h := bond];
    var others := open.Keys - {h};
    SumSame(others, StakeFor(open, k), StakeFor(after, k));
    assert after.Keys == others + {h};
    SumAdd(others, StakeFor(after, k), h);
    if h in open {
      SumRemove(open.Keys, StakeFor(open, k), h);
    } else {
      assert others == open.Keys;
    }
  }

  lemma ResolvedStake(open: map<Hash, Bond>, bonds: set<Hash>, k: Key)
    requires bonds <= open.Keys && StakesNonNegative(open)
    ensures OpenStake(open - bonds, k) == OpenStake(open, k) - Sum(bonds, StakeFor(open, k))
    ensures StakesNonNegative(open - bonds)
    ensures 0 <= Sum(bonds, StakeFor(open, k)) <= OpenStake(open, k)
  {
    var after, f, g := open - bonds, StakeFor(open, k), StakeFor(open - bonds, k);
    assert after.Keys == open.Keys - bonds;
    SumSplit(open.Keys, bonds, f);
    forall h | h in after.Keys ensures f(h) == g(h) {}
    SumSame(after.Keys, f, g);
    OpenStakeNonNegative(after, k);
    forall h | h in bonds ensures f(h) >= 0 {}
    SumNonNegative(bonds, f);
  }

  lemma StakeOfOne(open: map<Hash, Bond>, bonds: set<Hash>, reviewer: Key, k: Key)
    requires forall h | h in bonds :: h in open && open[h].reviewer == reviewer
    ensures Sum(bonds, StakeFor(open, k)) == if reviewer == k then Sum(bonds, StakeIn(open)) else 0
  {
    var f, g := StakeFor(open, k), StakeIn(open);
    if reviewer == k {
      forall h | h in bonds ensures f(h) == g(h) {}
      SumSame(bonds, f, g);
    } else {
      forall h | h in bonds ensures f(h) == 0 {}
      SumAtMost(bonds, f, 0);
      SumNonNegative(bonds, f);
    }
  }

  // ---- each event keeps the books balanced ----------------------------------------------------

  lemma PostBalanced(cfg: Config, k: Key, a: Books, tx: Transaction)
    requires Balanced(cfg, k, a) && IsAttestation(tx)
    requires tx.Sender() == k ==> a.bank.ledger.Free(k) >= tx.Payload().stake
    ensures Balanced(cfg, k, a.(bank := Post(cfg, a.bank, tx),
                                stranded := a.stranded + StakeFor(a.bank.open, k)(TxHash(cfg, tx))))
    ensures Post(cfg, a.bank, tx).ledger.Free(k)
         == a.bank.ledger.Free(k) - if tx.Sender() == k then tx.Payload().stake else 0
  {
    var p := tx.Payload();
    PostedStake(a.bank.open, TxHash(cfg, tx), Bond(tx.Sender(), p.stake, p.scope, p.verdict), k);
  }

  lemma ReleaseOneBalanced(cfg: Config, k: Key, a: Books, attester: Key, s: Scope)
    requires Balanced(cfg, k, a)
    ensures
      var paid := if attester == k && Contributing(a.bank.open, k, s) != {} then 1 else 0;
      var after := a.(bank := ReleaseOne(a.bank, attester, s), rewards := a.rewards + paid);
      Balanced(cfg, k, after) && after.bank.ledger.Free(k) >= a.bank.ledger.Free(k)
  {
    var bonds := Contributing(a.bank.open, attester, s);
    ResolvedStake(a.bank.open, bonds, k);
    StakeOfOne(a.bank.open, bonds, attester, k);
  }

  lemma {:induction false} ReleaseAllBalanced(cfg: Config, k: Key, a: Books, granted: seq<Key>, s: Scope)
    requires Balanced(cfg, k, a)
    ensures
      var after := a.(bank := ReleaseAll(a.bank, granted, s), rewards := a.rewards + RewardsIn(a.bank, granted, s, k));
      Balanced(cfg, k, after) && after.bank.ledger.Free(k) >= a.bank.ledger.Free(k)
    decreases |granted|
  {
    hide Balanced;
    if granted != [] {
      var n := |granted| - 1;
      ReleaseAllBalanced(cfg, k, a, granted[..n], s);
      var before := a.(bank := ReleaseAll(a.bank, granted[..n], s),
                       rewards := a.rewards + RewardsIn(a.bank, granted[..n], s, k));
      ReleaseOneBalanced(cfg, k, before, granted[n], s);
    }
  }

  lemma BurnOneBalanced(cfg: Config, k: Key, a: Books, hash: Hash, offender: Key)
    requires Balanced(cfg, k, a)
    ensures
      var lost := if offender == k then StakeFor(a.bank.open, k)(hash) else 0;
      var after := a.(bank := BurnOne(a.bank, hash, offender), burned := a.burned + lost);
      Balanced(cfg, k, after) && after.bank.ledger.Free(k) == a.bank.ledger.Free(k)
  {
    if hash in a.bank.open && a.bank.open[hash].reviewer == offender {
      ResolvedStake(a.bank.open, {hash}, k);
      SumRemove({hash}, StakeFor(a.bank.open, k), hash);
      assert {hash} - {hash} == {};
    }
  }

  lemma {:induction false} BurnAllBalanced(cfg: Config, k: Key, a: Books, evidence: seq<Hash>, offender: Key)
    requires Balanced(cfg, k, a)
    ensures
      var after := a.(bank := BurnAll(a.bank, evidence, offender),
                      burned := a.burned + BurnedIn(a.bank, evidence, offender, k));
      Balanced(cfg, k, after) && after.bank.ledger.Free(k) == a.bank.ledger.Free(k)
    decreases |evidence|
  {
    hide Balanced;
    if evidence != [] {
      var n := |evidence| - 1;
      BurnAllBalanced(cfg, k, a, evidence[..n], offender);
      var before := a.(bank := BurnAll(a.bank, evidence[..n], offender),
                       burned := a.burned + BurnedIn(a.bank, evidence[..n], offender, k));
      BurnOneBalanced(cfg, k, before, evidence[n], offender);
    }
  }

  // ---- along an accepted block --------------------------------------------------------------------

  /** The free balance never falls below what validation still counts on. */
  ghost predicate Funded(cfg: Config, k: Key, c: Context, s: Scan, a: Books) {
    Balanced(cfg, k, a) && a.bank.ledger.Free(k) >= c.ledger.Free(k) - s.Posted(k)
  }

  lemma TxFunded(cfg: Config, k: Key, c: Context, s: Scan, a: Books, tx: Transaction)
    requires Funded(cfg, k, c, s, a) && TxOk(cfg, c, s, tx)
    ensures Funded(cfg, k, c, Advance(c, s, tx), BooksTx(cfg, k, a, tx, c.prefix, ConsensusAuthorities(c.weights)))
  {
    hide Balanced, PromotionOk, ValidCertificate, ValidSlash, SignatureOk, Post, ReleaseAll, BurnAll, RewardsIn,
         BurnedIn;
    var p := tx.Payload();
    if IsAttestation(tx) {
      if p.verdict != Abstain {
        PostBalanced(cfg, k, a, tx);
      }
    } else if p.Certificate? {
      ReleaseAllBalanced(cfg, k, a, p.grantedBy, p.certified);
    } else if p.Slash? {
      BurnAllBalanced(cfg, k, a, p.evidence, p.offender);
    }
  }

  lemma {:induction false} TxsFunded(cfg: Config, k: Key, c: Context, s: Scan, a: Books, txs: seq<Transaction>)
    requires Funded(cfg, k, c, s, a) && TxsOk(cfg, c, s, txs)
    ensures Funded(cfg, k, c, ScanAfter(c, s, txs), BooksTxs(cfg, k, a, txs, c.prefix, ConsensusAuthorities(c.weights)))
    decreases |txs|
  {
    hide Funded, TxOk;
    if txs != [] {
      var n := |txs| - 1;
      TxsFunded(cfg, k, c, s, a, txs[..n]);
      TxFunded(cfg, k, c, ScanAfter(c, s, txs[..n]),
               BooksTxs(cfg, k, a, txs[..n], c.prefix, ConsensusAuthorities(c.weights)), txs[n]);
    }
  }

  // ---- along a valid chain ---------------------------------------------------------------------------

  ghost predicate EndowmentsNonNegative(cfg: Config) {
    forall k | k in cfg.endowments :: cfg.endowments[k] >= 0
  }

  lemma StartBalanced(cfg: Config, k: Key)
    requires EndowmentsNonNegative(cfg)
    ensures Balanced(cfg, k, Books(EmptyBank(cfg), 0, 0, 0))
  {
  }

  lemma BlockFunded(cfg: Config, k: Key, blocks: seq<Block>, i: nat, j: nat)
    requires 1 <= i < |blocks| && BlockOkAt(cfg, blocks, i) && j <= |blocks[i].transactions|
    requires Balanced(cfg, k, BooksAt(cfg, k, Bodies(blocks[..i])))
    ensures Balanced(cfg, k, BooksTxs(cfg, k, BooksAt(cfg, k, Bodies(blocks[..i])), blocks[i].transactions[..j],
                                      Bodies(blocks[..i]), AuthoritiesAt(cfg, Bodies(blocks[..i]))))
  {
    hide Balanced, TxOk, SealOk;
    var prefix := Bodies(blocks[..i]);
    var c, s, a := ContextOf(cfg, prefix), ScanAt(cfg, prefix), BooksAt(cfg, k, prefix);
    BooksTrackBank(cfg, k, prefix);
    PrefixTxsOk(cfg, c, s, blocks[i].transactions, j);
    TxsFunded(cfg, k, c, s, a, blocks[i].transactions[..j]);
  }

  lemma {:induction false} ChainBalanced(cfg: Config, k: Key, blocks: seq<Block>, n: nat)
    requires CollisionFree(cfg) && EndowmentsNonNegative(cfg) && ValidChain(cfg, blocks) && n <= |blocks|
    ensures Balanced(cfg, k, BooksAt(cfg, k, Bodies(blocks[..n])))
    decreases n
  {
    hide Balanced, BlockOkAt;
    StartBalanced(cfg, k);
    if n == 0 {
      assert Bodies(blocks[..0]) == [];
    } else {
      ChainBalanced(cfg, k, blocks, n - 1);
      NextBody(blocks, n - 1);
      var txs := blocks[n - 1].transactions;
      if n == 1 {
        GenesisIsEmpty(cfg, blocks[0]);
      } else {
        BlockFunded(cfg, k, blocks, n - 1, |txs|);
        assert txs[..|txs|] == txs;
      }
    }
  }

  /**
   * After any number j of transactions of any block i of a valid chain: the ledger balances for every key k.
   * The unclamped sums on the right say that no clamp at zero ever took effect.
   */
  lemma EveryBondCovered(cfg: Config, blocks: seq<Block>, i: nat, j: nat, k: Key)
    requires CollisionFree(cfg) && EndowmentsNonNegative(cfg) && ValidChain(cfg, blocks)
    requires 1 <= i < |blocks| && j <= |blocks[i].transactions|
    ensures
      var prefix := Bodies(blocks[..i]);
      var validators := AuthoritiesAt(cfg, prefix);
      var txs := blocks[i].transactions[..j];
      var bank := BankTxs(cfg, BankAt(cfg, prefix), txs, prefix, validators);
      var books := BooksTxs(cfg, k, BooksAt(cfg, k, prefix), txs, prefix, validators);
      && bank == books.bank
      && bank.ledger.Total(k) == EmptyBank(cfg).ledger.Total(k) + REVIEW_REWARD * books.rewards - books.burned
      && bank.ledger.Locked(k) == OpenStake(bank.open, k) + books.stranded
      && books.stranded >= 0
      && 0 <= bank.ledger.Locked(k) <= bank.ledger.Total(k)
  {
    hide BlockOkAt;
    var prefix := Bodies(blocks[..i]);
    ChainBalanced(cfg, k, blocks, i);
    BlockFunded(cfg, k, blocks, i, j);
    BooksTrackBank(cfg, k, prefix);
    BooksTrackBankTxs(cfg, k, BooksAt(cfg, k, prefix), blocks[i].transactions[..j], prefix, AuthoritiesAt(cfg, prefix));
  }

  // ---- when nothing is stranded -------------------------------------------------------------------------

  ghost predicate AttestationAt(history: History, i: int, j: int) {
    0 <= i < |history| && 0 <= j < |history[i]| && IsAttestation(history[i][j])
  }

  /** No attestation hash is committed twice. */
  ghost predicate DistinctAttestations(cfg: Config, history: History) {
    forall i, j, i', j' | AttestationAt(history, i, j) && AttestationAt(history, i', j')
                          && TxHash(cfg, history[i][j]) == TxHash(cfg, history[i'][j'])
      :: i == i' && j == j'
  }

  ghost function PostedIn(cfg: Config, txs: seq<Transaction>): set<Hash> {
    set t | t in txs && IsAttestation(t) :: TxHash(cfg, t)
  }

  ghost function PostedOn(cfg: Config, history: History): set<Hash> {
    if history == [] then {} else PostedOn(cfg, history[..|history| - 1]) + PostedIn(cfg, history[|history| - 1])
  }

  /** The attestations in txs are new: neither among the hashes posted before nor repeated in txs. */
  ghost predicate NewIn(cfg: Config, posted: set<Hash>, txs: seq<Transaction>) {
    forall j | 0 <= j < |txs| && IsAttestation(txs[j]) :: TxHash(cfg, txs[j]) !in posted + PostedIn(cfg, txs[..j])
  }

  lemma {:induction false} PostedSomewhere(cfg: Config, history: History, h: Hash)
    requires h in PostedOn(cfg, history)
    ensures exists i, j :: AttestationAt(history, i, j) && TxHash(cfg, history[i][j]) == h
  {
    var n := |history| - 1;
    if h in PostedOn(cfg, history[..n]) {
      PostedSomewhere(cfg, history[..n], h);
      var i, j :| AttestationAt(history[..n], i, j) && TxHash(cfg, history[..n][i][j]) == h;
      assert AttestationAt(history, i, j);
    } else {
      var t :| t in history[n] && IsAttestation(t) && TxHash(cfg, t) == h;
      var j :| 0 <= j < |history[n]| && history[n][j] == t;
      assert AttestationAt(history, n, j);
    }
  }

  lemma LastBlockIsNew(cfg: Config, history: History)
    requires history != [] && DistinctAttestations(cfg, history)
    ensures DistinctAttestations(cfg, history[..|history| - 1])
    ensures NewIn(cfg, PostedOn(cfg, history[..|history| - 1]), history[|history| - 1])
  {
    var n, txs := |history| - 1, history[|history| - 1];
    forall i, j, i', j' | AttestationAt(history[..n], i, j) && AttestationAt(history[..n], i', j')
      && TxHash(cfg, history[..n][i][j]) == TxHash(cfg, history[..n][i'][j']) ensures i == i' && j == j' {
      assert AttestationAt(history, i, j) && AttestationAt(history, i', j');
    }
    forall j | 0 <= j < |txs| && IsAttestation(txs[j])
      ensures TxHash(cfg, txs[j]) !in PostedOn(cfg, history[..n]) + PostedIn(cfg, txs[..j])
    {
      var h := TxHash(cfg, txs[j]);
      assert AttestationAt(history, n, j);
      if h in PostedOn(cfg, history[..n]) + PostedIn(cfg, txs[..j]) {
        PostedBefore(cfg, history, j, h);
      }
    }
  }

  lemma PostedBefore(cfg: Config, history: History, j: nat, h: Hash)
    requires history != [] && j <= |history[|history| - 1]|
    requires h in PostedOn(cfg, history[..|history| - 1]) + PostedIn(cfg, history[|history| - 1][..j])
    ensures exists i', j' :: AttestationAt(history, i', j') && TxHash(cfg, history[i'][j']) == h
                             && (i' < |history| - 1 || j' < j)
  {
    var n, txs := |history| - 1, history[|history| - 1];
    if h in PostedOn(cfg, history[..n]) {
      PostedSomewhere(cfg, history[..n], h);
      var i', j' :| AttestationAt(history[..n], i', j') && TxHash(cfg, history[..n][i'][j']) == h;
      assert AttestationAt(history, i', j');
    } else {
      var t :| t in txs[..j] && IsAttestation(t) && TxHash(cfg, t) == h;
      var j' :| 0 <= j' < j && txs[..j][j'] == t;
      assert AttestationAt(history, n, j');
    }
  }

  lemma {:induction false} ReleaseShrinks(bank: Bank, granted: seq<Key>, s: Scope)
    ensures ReleaseAll(bank, granted, s).open.Keys <= bank.open.Keys
    decreases |granted|
  {
    if granted != [] {
      ReleaseShrinks(bank, granted[..|granted| - 1], s);
    }
  }

  lemma {:induction false} BurnShrinks(bank: Bank, evidence: seq<Hash>, offender: Key)
    ensures BurnAll(bank, evidence, offender).open.Keys <= bank.open.Keys
    decreases |evidence|
  {
    if evidence != [] {
      BurnShrinks(bank, evidence[..|evidence| - 1], offender);
    }
  }

  lemma BooksTxStrands(cfg: Config, k: Key, a: Books, tx: Transaction, prefix: History, validators: set<Key>)
    ensures
      var after := BooksTx(cfg, k, a, tx, prefix, validators);
      && after.bank.open.Keys <= a.bank.open.Keys + (if IsAttestation(tx) then {TxHash(cfg, tx)} else {})
      && (after.stranded != a.stranded ==> IsAttestation(tx) && TxHash(cfg, tx) in a.bank.open)
  {
    hide ValidSlash, RewardsIn, BurnedIn;
    var p := tx.Payload();
    if p.Certificate? {
      ReleaseShrinks(a.bank, p.grantedBy, p.certified);
    } else if p.Slash? {
      BurnShrinks(a.bank, p.evidence, p.offender);
    }
  }

  lemma {:induction false} NewTxsStrandNothing(cfg: Config, k: Key, a: Books, txs: seq<Transaction>, prefix: History,
                                               validators: set<Key>, posted: set<Hash>)
    requires a.bank.open.Keys <= posted && NewIn(cfg, posted, txs)
    ensures BooksTxs(cfg, k, a, txs, prefix, validators).stranded == a.stranded
    ensures BooksTxs(cfg, k, a, txs, prefix, validators).bank.open.Keys <= posted + PostedIn(cfg, txs)
    decreases |txs|
  {
    hide BooksTx, IsAttestation, TxHash;
    if txs != [] {
      var n := |txs| - 1;
      forall j | 0 <= j < n && IsAttestation(txs[..n][j])
        ensures TxHash(cfg, txs[..n][j]) !in posted + PostedIn(cfg, txs[..n][..j]) {
        assert txs[..n][..j] == txs[..j];
      }
      NewTxsStrandNothing(cfg, k, a, txs[..n], prefix, validators, posted);
      BooksTxStrands(cfg, k, BooksTxs(cfg, k, a, txs[..n], prefix, validators), txs[n], prefix, validators);
      PostedGrows(cfg, txs, n);
    }
  }

  lemma PostedGrows(cfg: Config, txs: seq<Transaction>, n: nat)
    requires txs != [] && n == |txs| - 1
    ensures PostedIn(cfg, txs) == PostedIn(cfg, txs[..n]) + if IsAttestation(txs[n]) then {TxHash(cfg, txs[n])} else {}
  {
  }

  lemma {:induction false} DistinctStrandsNothing(cfg: Config, k: Key, history: History)
    requires DistinctAttestations(cfg, history)
    ensures BooksAt(cfg, k, history).stranded == 0
    ensures BooksAt(cfg, k, history).bank.open.Keys <= PostedOn(cfg, history)
    decreases |history|
  {
    hide BooksTxs, NewIn, DistinctAttestations;
    if history != [] {
      var n := |history| - 1;
      LastBlockIsNew(cfg, history);
      DistinctStrandsNothing(cfg, k, history[..n]);
      NewTxsStrandNothing(cfg, k, BooksAt(cfg, k, history[..n]), history[n], history[..n],
                          AuthoritiesAt(cfg, history[..n]), PostedOn(cfg, history[..n]));
    }
  }

  /** When no attestation is committed twice, what a key has locked is exactly its stake in live bonds. */
  lemma DistinctBondsExact(cfg: Config, blocks: seq<Block>, k: Key)
    requires CollisionFree(cfg) && EndowmentsNonNegative(cfg) && ValidChain(cfg, blocks)
    requires DistinctAttestations(cfg, Bodies(blocks))
    ensures
      var bank := BankAt(cfg, Bodies(blocks));
      bank.ledger.Locked(k) == OpenStake(bank.open, k)
  {
    hide ValidChain, DistinctAttestations;
    ChainBalanced(cfg, k, blocks, |blocks|);
    assert blocks[..|blocks|] == blocks;
    BooksTrackBank(cfg, k, Bodies(blocks));
    DistinctStrandsNothing(cfg, k, Bodies(blocks));
  }

  // ---- exactly when something is stranded -----------------------------------------------------------------

  /** The guard a caller can test: a bond of k with a stake is still live under this attestation's hash. */
  predicate Restakes(cfg: Config, k: Key, bank: Bank, tx: Transaction) {
    && IsAttestation(tx) && tx.Payload().verdict != Abstain
    && TxHash(cfg, tx) in bank.open && bank.open[TxHash(cfg, tx)].reviewer == k && bank.open[TxHash(cfg, tx)].stake > 0
  }

  /** Some attestation in txs restakes against the bank it meets. */
  ghost predicate RestakesIn(cfg: Config, k: Key, bank: Bank, txs: seq<Transaction>, prefix: History,
                             validators: set<Key>) {
    txs != [] &&
    var n := |txs| - 1;
    RestakesIn(cfg, k, bank, txs[..n], prefix, validators)
    || Restakes(cfg, k, BankTxs(cfg, bank, txs[..n], prefix, validators), txs[n])
  }

  ghost predicate RestakesOn(cfg: Config, k: Key, history: History) {
    history != [] &&
    var n := |history| - 1;
    RestakesOn(cfg, k, history[..n])
    || RestakesIn(cfg, k, BankAt(cfg, history[..n]), history[n], history[..n], AuthoritiesAt(cfg, history[..n]))
  }

  lemma {:induction false} ReleaseKeepsStakes(bank: Bank, granted: seq<Key>, s: Scope)
    requires StakesNonNegative(bank.open)
    ensures StakesNonNegative(ReleaseAll(bank, granted, s).open)
    decreases |granted|
  {
    if granted != [] {
      ReleaseKeepsStakes(bank, granted[..|granted| - 1], s);
    }
  }

  lemma {:induction false} BurnKeepsStakes(bank: Bank, evidence: seq<Hash>, offender: Key)
    requires StakesNonNegative(bank.open)
    ensures StakesNonNegative(BurnAll(bank, evidence, offender).open)
    decreases |evidence|
  {
    if evidence != [] {
      BurnKeepsStakes(bank, evidence[..|evidence| - 1], offender);
    }
  }

  lemma TxStrands(cfg: Config, k: Key, a: Books, tx: Transaction, prefix: History, validators: set<Key>)
    requires StakesNonNegative(a.bank.open)
    ensures
      var after := BooksTx(cfg, k, a, tx, prefix, validators);
      && StakesNonNegative(after.bank.open)
      && after.stranded >= a.stranded
      && (after.stranded > a.stranded <==> Restakes(cfg, k, a.bank, tx))
  {
    hide ValidSlash, RewardsIn, BurnedIn, ReleaseAll, BurnAll;
    var p := tx.Payload();
    if p.Certificate? {
      ReleaseKeepsStakes(a.bank, p.grantedBy, p.certified);
    } else if p.Slash? {
      BurnKeepsStakes(a.bank, p.evidence, p.offender);
    }
  }

  lemma {:induction false} TxsStrand(cfg: Config, k: Key, a: Books, txs: seq<Transaction>, prefix: History,
                                     validators: set<Key>)
    requires StakesNonNegative(a.bank.open)
    ensures
      var after := BooksTxs(cfg, k, a, txs, prefix, validators);
      && StakesNonNegative(after.bank.open)
      && after.stranded >= a.stranded
      && (after.stranded > a.stranded <==> RestakesIn(cfg, k, a.bank, txs, prefix, validators))
    decreases |txs|
  {
    hide BooksTx, BankTx, Restakes, StakesNonNegative;
    if txs != [] {
      var n := |txs| - 1;
      TxsStrand(cfg, k, a, txs[..n], prefix, validators);
      BooksTrackBankTxs(cfg, k, a, txs[..n], prefix, validators);
      TxStrands(cfg, k, BooksTxs(cfg, k, a, txs[..n], prefix, validators), txs[n], prefix, validators);
    }
  }

  /** On any history something of k is stranded iff some attestation restaked a live bond of k. */
  lemma {:induction false} StrandedIffRestaked(cfg: Config, k: Key, history: History)
    ensures StakesNonNegative(BooksAt(cfg, k, history).bank.open)
    ensures BooksAt(cfg, k, history).stranded >= 0
    ensures BooksAt(cfg, k, history).stranded > 0 <==> RestakesOn(cfg, k, history)
    decreases |history|
  {
    hide BooksTxs, RestakesIn;
    if history != [] {
      var n := |history| - 1;
      StrandedIffRestaked(cfg, k, history[..n]);
      BooksTrackBank(cfg, k, history[..n]);
      TxsStrand(cfg, k, BooksAt(cfg, k, history[..n]), history[n], history[..n], AuthoritiesAt(cfg, history[..n]));
    }
  }

  /**
   * On a valid chain a key has locked exactly its stake in live bonds iff none of them was ever staked again while
   * live.
   */
  lemma LockedIffNeverRestaked(cfg: Config, blocks: seq<Block>, k: Key)
    requires CollisionFree(cfg) && EndowmentsNonNegative(cfg) && ValidChain(cfg, blocks)
    ensures
      var bank := BankAt(cfg, Bodies(blocks));
      bank.ledger.Locked(k) == OpenStake(bank.open, k) <==> !RestakesOn(cfg, k, Bodies(blocks))
  {
    hide ValidChain, RestakesOn;
    ChainBalanced(cfg, k, blocks, |blocks|);
    assert blocks[..|blocks|] == blocks;
    BooksTrackBank(cfg, k, Bodies(blocks));
    StrandedIffRestaked(cfg, k, Bodies(blocks));
  }

  /**
   * Validation does not forbid it: a signed attestation whose own bond is still live passes as soon as the free
   * balance covers its stake once more, locks that stake again, and strands the first lock.
   */
  lemma RepostStrands(cfg: Config, k: Key, c: Context, s: Scan, a: Books, tx: Transaction)
    requires Funded(cfg, k, c, s, a) && IsAttestation(tx) && SignatureOk(cfg, tx)
    requires tx.Sender() == k && c.ledger.Free(k) - s.Posted(k) >= tx.Payload().stake > 0
    requires TxHash(cfg, tx) in a.bank.open
    requires a.bank.open[TxHash(cfg, tx)] == Bond(k, tx.Payload().stake, tx.Payload().scope, tx.Payload().verdict)
    ensures TxOk(cfg, c, s, tx) && Restakes(cfg, k, a.bank, tx)
    ensures
      var after := BooksTx(cfg, k, a, tx, c.prefix, ConsensusAuthorities(c.weights));
      && after.bank.open == a.bank.open
      && after.bank.ledger.Locked(k) == a.bank.ledger.Locked(k) + tx.Payload().stake
      && after.bank.ledger.Locked(k) > OpenStake(after.bank.open, k)
  {
    assert TxOk(cfg, c, s, tx);
    TxFunded(cfg, k, c, s, a, tx);
  }
}
