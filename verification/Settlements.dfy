/**
 * reputation/derive.py: which bonds a transaction touches, bond by bond, and what that does to whose tokens.
 */
module Settlements {
  import opened Types
  import opened Sets
  import opened Plain
  import opened Balances
  import opened Slashing
  import opened Derive
  import opened Consensus
  import opened Finality
  import opened Bonds

  // ---- certificates ----------------------------------------------------------------------------------

  /** The bonds under positive verdicts of k on the scope. */
  ghost function BackingOf(open: map<Hash, Bond>, k: Key, s: Scope): set<Hash> {
    set h | h in open && open[h].reviewer == k && open[h].verdict == Yes && open[h].scope == s
  }

  /** Bonds that back the scope for somebody named go; all others stay as they are. */
  ghost predicate Returned(before: map<Hash, Bond>, after: map<Hash, Bond>, granted: seq<Key>, s: Scope) {
    && (forall h :: h in after <==> h in before && !(before[h].reviewer in granted && before[h].verdict == Yes
                                                     && before[h].scope == s))
    && forall h | h in after :: after[h] == before[h]
  }

  /** k gets 5 tokens and those bonds' stakes back, if it has such a bond at all. */
  ghost predicate Paid(before: Bank, after: Bank, k: Key, s: Scope) {
    var backing := BackingOf(before.open, k, s);
    if backing == {} then
      after.ledger.Total(k) == before.ledger.Total(k) && after.ledger.Locked(k) == before.ledger.Locked(k)
    else
      && after.ledger.Total(k) == before.ledger.Total(k) + 5
      && after.ledger.Locked(k) == AtLeastZero(before.ledger.Locked(k) - Sum(backing, StakeIn(before.open)))
  }

  ghost predicate Untouched(before: Bank, after: Bank, k: Key) {
    after.ledger.Total(k) == before.ledger.Total(k) && after.ledger.Locked(k) == before.ledger.Locked(k)
  }

  ghost predicate SettledFor(before: Bank, after: Bank, granted: seq<Key>, s: Scope, k: Key) {
    if k in granted then Paid(before, after, k, s) else Untouched(before, after, k)
  }

  function AtLeastZero(x: int): int {
    if x < 0 then 0 else x
  }

  lemma OneSettles(bank: Bank, k: Key, s: Scope)
    ensures
      var after := ReleaseOne(bank, k, s);
      && Returned(bank.open, after.open, [k], s) && Paid(bank, after, k, s)
      && forall other | other != k :: Untouched(bank, after, other)
  {
    var backing := BackingOf(bank.open, k, s);
    assert Contributing(bank.open, k, s) == backing;
    var after := ReleaseOne(bank, k, s);
    assert after.open.Keys == bank.open.Keys - backing;
    hide Sum, StakeIn;
  }

  /** A second mention of a key finds nothing; a first finds what there was. */
  lemma BackingAfter(before: map<Hash, Bond>, mid: map<Hash, Bond>, granted: seq<Key>, k: Key, s: Scope)
    requires Returned(before, mid, granted, s)
    ensures BackingOf(mid, k, s) == if k in granted then {} else BackingOf(before, k, s)
    ensures k !in granted ==>
      Sum(BackingOf(mid, k, s), StakeIn(mid)) == Sum(BackingOf(before, k, s), StakeIn(before))
  {
    forall h ensures h in BackingOf(mid, k, s) <==> k !in granted && h in BackingOf(before, k, s) {
      assert h in mid ==> mid[h] == before[h];
    }
    if k in granted {
      assert BackingOf(mid, k, s) == {};
    } else {
      assert BackingOf(mid, k, s) == BackingOf(before, k, s);
      forall h | h in BackingOf(before, k, s) ensures StakeIn(before)(h) == StakeIn(mid)(h) {
        assert h in BackingOf(mid, k, s);
      }
      SumSame(BackingOf(before, k, s), StakeIn(before), StakeIn(mid));
    }
  }

  /**
   * A certificate returns exactly the live bonds that back its scope for a key it names. Such a key is paid 5 and
   * unlocks exactly those stakes; whoever has no such bond, or is not named, is left as it was.
   */
  lemma {:induction false} CertificateSettles(bank: Bank, granted: seq<Key>, s: Scope)
    ensures
      var after := ReleaseAll(bank, granted, s);
      && Returned(bank.open, after.open, granted, s)
      && forall k :: SettledFor(bank, after, granted, s, k)
    decreases |granted|
  {
    hide ReleaseOne, Sum, StakeIn, BackingOf;
    if granted != [] {
      var n, k := |granted| - 1, granted[|granted| - 1];
      assert granted == granted[..n] + [k];
      CertificateSettles(bank, granted[..n], s);
      var mid := ReleaseAll(bank, granted[..n], s);
      BackingAfter(bank.open, mid.open, granted[..n], k, s);
      OneSettles(mid, k, s);
      var after := ReleaseOne(mid, k, s);
      ReturnedThen(bank.open, mid.open, after.open, granted, s);
      forall x ensures SettledFor(bank, after, granted, s, x) {
        assert SettledFor(bank, mid, granted[..n], s, x);
        assert x in granted <==> x in granted[..n] || x == k;
        if x != k {
          assert Untouched(mid, after, x);
        } else if k in granted[..n] {
          assert Paid(mid, after, k, s) && BackingOf(mid.open, k, s) == {};
          assert Untouched(mid, after, k);
        } else {
          assert Untouched(bank, mid, k) && Paid(mid, after, k, s);
        }
      }
    }
  }

  lemma ReturnedThen(before: map<Hash, Bond>, mid: map<Hash, Bond>, after: map<Hash, Bond>, granted: seq<Key>, s: Scope)
    requires granted != []
    requires Returned(before, mid, granted[..|granted| - 1], s) && Returned(mid, after, [granted[|granted| - 1]], s)
    ensures Returned(before, after, granted, s)
  {
    assert granted == granted[..|granted| - 1] + [granted[|granted| - 1]];
  }

  // ---- slashes -----------------------------------------------------------------------------------------

  /** The offender's live bonds among those the evidence names. */
  ghost function Forfeited(open: map<Hash, Bond>, evidence: seq<Hash>, k: Key): set<Hash> {
    set h | h in open && h in evidence && open[h].reviewer == k
  }

  /** Those bonds go, and the offender loses their stakes, locked and owned alike. */
  ghost predicate Burned(before: Bank, after: Bank, evidence: seq<Hash>, k: Key) {
    var gone := Forfeited(before.open, evidence, k);
    && (forall h :: h in after.open <==> h in before.open && !(h in evidence && before.open[h].reviewer == k))
    && (forall h | h in after.open :: after.open[h] == before.open[h])
    && if gone == {} then Untouched(before, after, k)
       else
         && after.ledger.Total(k) == AtLeastZero(before.ledger.Total(k) - Sum(gone, StakeIn(before.open)))
         && after.ledger.Locked(k) == AtLeastZero(before.ledger.Locked(k) - Sum(gone, StakeIn(before.open)))
  }

  lemma ForfeitedNext(open: map<Hash, Bond>, evidence: seq<Hash>, n: nat, k: Key, mid: map<Hash, Bond>)
    requires n == |evidence| - 1
    requires forall h :: h in mid <==> h in open && !(h in evidence[..n] && open[h].reviewer == k)
    requires forall h | h in mid :: mid[h] == open[h]
    ensures
      var h, gone := evidence[n], Forfeited(open, evidence[..n], k);
      if h in mid && mid[h].reviewer == k then
        && h !in gone && Forfeited(open, evidence, k) == gone + {h}
        && Sum(Forfeited(open, evidence, k), StakeIn(open)) == Sum(gone, StakeIn(open)) + mid[h].stake
      else Forfeited(open, evidence, k) == gone
  {
    var h, gone := evidence[n], Forfeited(open, evidence[..n], k);
    assert evidence == evidence[..n] + [h];
    if h in mid && mid[h].reviewer == k {
      assert Forfeited(open, evidence, k) == gone + {h};
      SumAdd(gone, StakeIn(open), h);
    } else {
      assert Forfeited(open, evidence, k) == gone;
    }
  }

  /** One more piece of evidence burns one more bond, or none. */
  lemma BurnsNext(bank: Bank, mid: Bank, evidence: seq<Hash>, k: Key)
    requires evidence != [] && StakesNonNegative(bank.open) && Burned(bank, mid, evidence[..|evidence| - 1], k)
    ensures Burned(bank, BurnOne(mid, evidence[|evidence| - 1], k), evidence, k)
  {
    var n, h := |evidence| - 1, evidence[|evidence| - 1];
    assert evidence == evidence[..n] + [h];
    ForfeitedNext(bank.open, evidence, n, k, mid.open);
    ForfeitedStake(bank.open, evidence[..n], k);
    hide Sum, StakeIn, Forfeited;
  }

  lemma ForfeitedStake(open: map<Hash, Bond>, evidence: seq<Hash>, k: Key)
    requires StakesNonNegative(open)
    ensures Sum(Forfeited(open, evidence, k), StakeIn(open)) >= 0
  {
    forall h | h in Forfeited(open, evidence, k) ensures StakeIn(open)(h) >= 0 {}
    SumNonNegative(Forfeited(open, evidence, k), StakeIn(open));
  }

  /** A slash destroys exactly the offender's live bonds that its evidence names, and touches nobody else. */
  lemma {:induction false} SlashSettles(bank: Bank, evidence: seq<Hash>, k: Key)
    requires StakesNonNegative(bank.open)
    ensures
      var after := BurnAll(bank, evidence, k);
      Burned(bank, after, evidence, k) && forall other | other != k :: Untouched(bank, after, other)
    decreases |evidence|
  {
    hide Burned;
    if evidence == [] {
      NothingBurns(bank, k);
    } else {
      SlashSettles(bank, evidence[..|evidence| - 1], k);
      var mid, after := BurnAll(bank, evidence[..|evidence| - 1], k), BurnAll(bank, evidence, k);
      BurnsNext(bank, mid, evidence, k);
      forall other | other != k ensures Untouched(bank, after, other) {
        assert Untouched(bank, mid, other);
      }
    }
  }

  lemma NothingBurns(bank: Bank, k: Key)
    ensures Burned(bank, bank, [], k)
  {
    var none: seq<Hash> := [];
    assert forall h :: h !in none;
    assert Forfeited(bank.open, none, k) == {};
  }

  // ---- on a valid chain no clamp bites -----------------------------------------------------------------

  lemma BackingIsLocked(cfg: Config, k: Key, a: Books, s: Scope)
    requires Balanced(cfg, k, a)
    ensures 0 <= Sum(BackingOf(a.bank.open, k, s), StakeIn(a.bank.open)) <= a.bank.ledger.Locked(k)
  {
    var backing := BackingOf(a.bank.open, k, s);
    ResolvedStake(a.bank.open, backing, k);
    StakeOfOne(a.bank.open, backing, k, k);
    hide Sum, StakeIn, StakeFor;
  }

  /** The state of tokens and bonds that transaction j of block i meets. */
  ghost function BankBefore(cfg: Config, blocks: seq<Block>, i: nat, j: nat): Bank
    requires i < |blocks| && j <= |blocks[i].transactions|
  {
    var prefix := Bodies(blocks[..i]);
    BankTxs(cfg, BankAt(cfg, prefix), blocks[i].transactions[..j], prefix, AuthoritiesAt(cfg, prefix))
  }

  /** On a valid chain a certificate unlocks for each key it names exactly the stakes behind its scope. */
  lemma CertificateUnlocks(cfg: Config, blocks: seq<Block>, i: nat, j: nat, k: Key)
    requires CollisionFree(cfg) && EndowmentsNonNegative(cfg) && ValidChain(cfg, blocks)
    requires i < |blocks| && j < |blocks[i].transactions| && blocks[i].transactions[j].content.payload.Certificate?
    requires k in blocks[i].transactions[j].content.payload.grantedBy
    ensures
      var p := blocks[i].transactions[j].content.payload;
      var before, after := BankBefore(cfg, blocks, i, j), BankBefore(cfg, blocks, i, j + 1);
      var backing := BackingOf(before.open, k, p.certified);
      && after.ledger.Locked(k) == before.ledger.Locked(k) - Sum(backing, StakeIn(before.open))
      && after.ledger.Total(k) == before.ledger.Total(k) + if backing == {} then 0 else 5
  {
    hide ValidChain, BlockOkAt, CollisionFree, BankAt, RegistryAt, Balanced, ReleaseAll, BackingOf, TxsOk;
    var prefix, txs := Bodies(blocks[..i]), blocks[i].transactions;
    var p, before := txs[j].content.payload, BankBefore(cfg, blocks, i, j);
    var a := BooksTxs(cfg, k, BooksAt(cfg, k, prefix), txs[..j], prefix, AuthoritiesAt(cfg, prefix));
    AcceptedBlock(cfg, blocks, i);
    ChainBalanced(cfg, k, blocks, i);
    AcceptedAt(cfg, blocks, i);
    BlockFunded(cfg, k, blocks, i, j);
    BooksTrackBank(cfg, k, prefix);
    BooksTrackBankTxs(cfg, k, BooksAt(cfg, k, prefix), txs[..j], prefix, AuthoritiesAt(cfg, prefix));
    BackingIsLocked(cfg, k, a, p.certified);
    CertificateSettles(before, p.grantedBy, p.certified);
    assert txs[..j + 1][..j] == txs[..j];
    assert SettledFor(before, ReleaseAll(before, p.grantedBy, p.certified), p.grantedBy, p.certified, k);
    NoStakeInNothing(before.open);
  }

  lemma AcceptedAt(cfg: Config, blocks: seq<Block>, i: nat)
    requires ValidChain(cfg, blocks) && 1 <= i < |blocks|
    ensures BlockOkAt(cfg, blocks, i)
  {
  }

  lemma NoStakeInNothing(open: map<Hash, Bond>)
    ensures Sum({}, StakeIn(open)) == 0
  {
  }

  // ---- attestations and everything else -----------------------------------------------------------------

  /**
   * A well-formed attestation that is no abstention locks its stake and leaves a bond with its fields under its
   * hash; every other bond, every total and every other key's lock stays. An abstention changes nothing.
   */
  lemma AttestationSettles(cfg: Config, bank: Bank, tx: Transaction, prefix: History, validators: set<Key>, k: Key,
                           s: Scope, item: int, v: Verdict, stake: int)
    requires Finds(tx, k, s, item, v, stake)
    ensures
      var after, hash := BankTx(cfg, bank, tx, prefix, validators), cfg.hashContent(tx.content);
      if v == Abstain then after == bank
      else
        && hash in after.open && after.open[hash] == Bond(k, stake, s, v)
        && (forall h | h != hash :: h in after.open <==> h in bank.open)
        && (forall h | h != hash && h in after.open :: after.open[h] == bank.open[h])
        && after.ledger.Locked(k) == bank.ledger.Locked(k) + stake
        && after.ledger.Total(k) == bank.ledger.Total(k)
        && forall other | other != k :: Untouched(bank, after, other)
  {
  }

  /** A certificate and a valid slash do what the laws above say; nothing else moves a token or a bond. */
  lemma OtherwiseSettles(cfg: Config, bank: Bank, tx: Transaction, prefix: History, validators: set<Key>)
    requires forall k, s, item, v, stake :: !Finds(tx, k, s, item, v, stake)
    ensures
      var p, after := tx.content.payload, BankTx(cfg, bank, tx, prefix, validators);
      && (p.Certificate? ==> after == ReleaseAll(bank, p.grantedBy, p.certified))
      && (p.Slash? && ValidSlash(cfg, p, prefix, validators) ==> after == BurnAll(bank, p.evidence, p.offender))
      && (!p.Certificate? && !(p.Slash? && ValidSlash(cfg, p, prefix, validators)) ==> after == bank)
  {
    var p := tx.content.payload;
    if IsAttestation(tx) {
      assert Finds(tx, tx.content.sender, p.scope, p.item, p.verdict, p.stake);
      assert false;
    }
  }

  /** Everybody starts with its endowment, or 1000, with nothing locked. */
  lemma StartSettles(cfg: Config, k: Key)
    ensures
      var start := BankAt(cfg, []);
      && start.open == map[] && start.ledger.Locked(k) == 0
      && start.ledger.Total(k) == if k in cfg.endowments then cfg.endowments[k] else 1000
  {
  }
}
