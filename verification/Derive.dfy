/** reputation/derive.py: reputation and balances as replays of the chain. */
module Derive {
  import opened Types
  import opened Sets
  import opened Registry
  import opened Balances
  import opened Slashing

  const CERTIFICATE_REWARD := 10
  const REVIEW_REWARD := 5

  // ---- reputation --------------------------------------------------------------------

  /** One transaction's effect on reputation; `prefix` and `validators` are those of the block carrying it. */
  function ApplyTx(cfg: Config, w: Weights, tx: Transaction, prefix: History, validators: set<Key>): Weights {
    var p := tx.Payload();
    if p.Certificate? then Credited(w, p.certified.subject, p.certified.domain, CERTIFICATE_REWARD)
    else if p.Slash? && ValidSlash(cfg, p, prefix, validators) then
      Debited(w, p.offender, p.penalised, Min(p.amount, MAX_SLASH))
    else w
  }

  function ApplyTxs(cfg: Config, w: Weights, txs: seq<Transaction>, prefix: History, validators: set<Key>): Weights {
    if txs == [] then w
    else
      var n := |txs| - 1;
      ApplyTx(cfg, ApplyTxs(cfg, w, txs[..n], prefix, validators), txs[n], prefix, validators)
  }

  /** The weight table implied by a history. */
  function RegistryAt(cfg: Config, history: History): Weights {
    if history == [] then cfg.genesis
    else
      var n := |history| - 1;
      var before := RegistryAt(cfg, history[..n]);
      ApplyTxs(cfg, before, history[n], history[..n], ConsensusAuthorities(before))
  }

  /** The consensus authorities after a history: the approvers a slash in the next block needs. */
  function AuthoritiesAt(cfg: Config, history: History): set<Key> {
    ConsensusAuthorities(RegistryAt(cfg, history))
  }

  // ---- replays bounded by block indices ------------------------------------------------------------

  /** The slice `blocks[:n]`: a negative bound counts from the end, a bound beyond the end takes everything. */
  function Front(blocks: seq<Block>, n: int): seq<Block> {
    if n > |blocks| then blocks
    else if n >= 0 then blocks[..n]
    else if |blocks| + n > 0 then blocks[..|blocks| + n] else []
  }

  /**
   * As many blocks off the front as there are, or as are asked for; a negative bound leaves that many out at the
   * end.
   */
  lemma FrontExactly(blocks: seq<Block>, n: int)
    ensures Front(blocks, n) <= blocks
    ensures n >= 0 ==> |Front(blocks, n)| == Min(n, |blocks|)
    ensures n < 0 ==> |Front(blocks, n)| == Max(0, |blocks| + n)
  {
  }

  /** How many blocks a replay covers: it stops at the first block whose index reaches the limit. */
  function Span(blocks: seq<Block>, limit: int): (n: nat)
    ensures n <= |blocks| && (forall k | 0 <= k < n :: blocks[k].index < limit)
    ensures n < |blocks| ==> blocks[n].index >= limit
  {
    SpanFrom(blocks, limit, 0)
  }

  function SpanFrom(blocks: seq<Block>, limit: int, i: nat): (n: nat)
    requires i <= |blocks|
    ensures i <= n <= |blocks| && (forall k | i <= k < n :: blocks[k].index < limit)
    ensures n < |blocks| ==> blocks[n].index >= limit
    decreases |blocks| - i
  {
    if i == |blocks| || blocks[i].index >= limit then i else SpanFrom(blocks, limit, i + 1)
  }

  /** Reputation after the first n blocks of any list, each judged against the prefix its own index names. */
  function ReplayedWeights(cfg: Config, blocks: seq<Block>, n: nat): Weights
    requires n <= |blocks|
  {
    if n == 0 then cfg.genesis
    else
      var before, b := ReplayedWeights(cfg, blocks, n - 1), blocks[n - 1];
      ApplyTxs(cfg, before, b.transactions, Bodies(Front(blocks, b.index)), ConsensusAuthorities(before))
  }

  /** The authorities derived from the blocks of the list below an index. */
  function AuthoritiesBelow(cfg: Config, blocks: seq<Block>, index: int): set<Key> {
    ConsensusAuthorities(ReplayedWeights(cfg, blocks, Span(blocks, index)))
  }

  /** Blocks 0..upto-1 and, if there is one, block upto carry their position as index. */
  predicate IndicesChecked(blocks: seq<Block>, upto: nat) {
    upto <= |blocks| && forall k | 0 <= k < |blocks| && k <= upto :: blocks[k].index == k
  }

  lemma SpanIsPosition(blocks: seq<Block>, upto: nat, i: nat)
    requires IndicesChecked(blocks, upto) && i <= upto
    ensures Span(blocks, i) == i
  {
    assert forall k | 0 <= k < i :: blocks[k].index == k;
    assert i < |blocks| ==> blocks[i].index == i;
  }

  /** Where indices are positions, replaying the list is deriving from its bodies. */
  lemma {:induction false} ReplayedIsDerived(cfg: Config, blocks: seq<Block>, upto: nat, n: nat)
    requires IndicesChecked(blocks, upto) && n <= upto
    ensures ReplayedWeights(cfg, blocks, n) == RegistryAt(cfg, Bodies(blocks[..n]))
    ensures AuthoritiesBelow(cfg, blocks, n) == AuthoritiesAt(cfg, Bodies(blocks[..n]))
  {
    hide ApplyTxs;
    SpanIsPosition(blocks, upto, n);
    if n > 0 {
      ReplayedIsDerived(cfg, blocks, upto, n - 1);
      NextBody(blocks, n - 1);
      assert Front(blocks, n - 1) == blocks[..n - 1];
    } else {
      assert Bodies(blocks[..0]) == [];
    }
  }

  method ApplyTransaction(cfg: Config, registry: ReputationRegistry, tx: Transaction, prefix: History,
                          validators: set<Key>)
    modifies registry
    ensures registry.weights == ApplyTx(cfg, old(registry.weights), tx, prefix, validators)
  {
    var p := tx.Payload();
    if p.Certificate? {
      registry.Credit(p.certified.subject, p.certified.domain, CERTIFICATE_REWARD);
    } else if p.Slash? {
      var ok := ValidateSlash(cfg, p, prefix, validators);
      if ok {
        registry.Debit(p.offender, p.penalised, Min(p.amount, MAX_SLASH));
      }
    }
  }

  /** The replay loop over one block. */
  method ApplyBlock(cfg: Config, registry: ReputationRegistry, txs: seq<Transaction>, prefix: History,
                    validators: set<Key>)
    modifies registry
    ensures registry.weights == ApplyTxs(cfg, old(registry.weights), txs, prefix, validators)
  {
    hide ApplyTx;
    ghost var before := registry.weights;
    for j := 0 to |txs|
      invariant registry.weights == ApplyTxs(cfg, before, txs[..j], prefix, validators)
    {
      ApplyTransaction(cfg, registry, txs[j], prefix, validators);
      assert txs[..j + 1][..j] == txs[..j];
    }
    assert txs[..|txs|] == txs;
  }

  /** `derive_registry`: replays blocks until one whose index reaches the limit. */
  method DeriveRegistry(cfg: Config, blocks: seq<Block>, limit: int) returns (registry: ReputationRegistry)
    ensures fresh(registry)
    ensures registry.weights == ReplayedWeights(cfg, blocks, Span(blocks, limit))
  {
    hide Span, ApplyTxs, ConsensusAuthorities, Bodies;
    registry := new ReputationRegistry(cfg.genesis);
    var i := 0;
    SpanStarts(blocks, limit);
    while i < |blocks| && blocks[i].index < limit
      invariant 0 <= i <= |blocks| && fresh(registry) && SpanFrom(blocks, limit, i) == Span(blocks, limit)
      invariant registry.weights == ReplayedWeights(cfg, blocks, i)
      decreases |blocks| - i
    {
      var txs := blocks[i].transactions;
      var prefix := Bodies(Front(blocks, blocks[i].index));
      var validators := ConsensusAuthorities(registry.weights);
      ApplyBlock(cfg, registry, txs, prefix, validators);
      i := i + 1;
    }
  }

  lemma SpanStarts(blocks: seq<Block>, limit: int)
    ensures SpanFrom(blocks, limit, 0) == Span(blocks, limit)
  {
  }

  lemma NextBody(blocks: seq<Block>, i: nat)
    requires i < |blocks|
    ensures Bodies(blocks[..i + 1])[..i] == Bodies(blocks[..i])
    ensures Bodies(blocks[..i + 1])[i] == blocks[i].transactions
  {
  }

  // ---- balances ------------------------------------------------------------------------

  /** A posted stake that no certificate or slash has resolved yet. */
  datatype Bond = Bond(reviewer: Key, stake: int, scope: Scope, verdict: Verdict)

  datatype Bank = Bank(ledger: Ledger, open: map<Hash, Bond>)

  function StakeIn(open: map<Hash, Bond>): Hash -> int {
    h => if h in open then open[h].stake else 0
  }

  /** The live bonds of an attester's positive attestations of a scope. */
  function Contributing(open: map<Hash, Bond>, attester: Key, s: Scope): set<Hash> {
    set h | h in open && open[h].reviewer == attester && open[h].verdict == Yes && open[h].scope == s
  }

  /** Returns every contributing bond of one attester and pays one review reward, if there is any. */
  ghost function ReleaseOne(bank: Bank, attester: Key, s: Scope): Bank {
    var bonds := Contributing(bank.open, attester, s);
    if bonds == {} then bank
    else
      Bank(bank.ledger.Reward(attester, REVIEW_REWARD).Release(attester, Sum(bonds, StakeIn(bank.open))),
           bank.open - bonds)
  }

  ghost function ReleaseAll(bank: Bank, granted: seq<Key>, s: Scope): Bank {
    if granted == [] then bank
    else
      var n := |granted| - 1;
      ReleaseOne(ReleaseAll(bank, granted[..n], s), granted[n], s)
  }

  /** Destroys one referenced bond if it is still live and the offender's. */
  function BurnOne(bank: Bank, hash: Hash, offender: Key): Bank {
    if hash in bank.open && bank.open[hash].reviewer == offender
    then Bank(bank.ledger.Burn(offender, bank.open[hash].stake), bank.open - {hash})
    else bank
  }

  function BurnAll(bank: Bank, evidence: seq<Hash>, offender: Key): Bank {
    if evidence == [] then bank
    else
      var n := |evidence| - 1;
      BurnOne(BurnAll(bank, evidence[..n], offender), evidence[n], offender)
  }

  function Post(cfg: Config, bank: Bank, tx: Transaction): Bank
    requires IsAttestation(tx)
  {
    var p := tx.Payload();
    Bank(bank.ledger.Lock(tx.Sender(), p.stake),
         bank.open[TxHash(cfg, tx) := Bond(tx.Sender(), p.stake, p.scope, p.verdict)])
  }

  /** One transaction's effect on balances and live bonds. */
  ghost function BankTx(cfg: Config, bank: Bank, tx: Transaction, prefix: History, validators: set<Key>): Bank {
    var p := tx.Payload();
    if IsAttestation(tx) then
      if p.verdict == Abstain then bank else Post(cfg, bank, tx)
    else if p.Certificate? then ReleaseAll(bank, p.grantedBy, p.certified)
    else if p.Slash? && ValidSlash(cfg, p, prefix, validators) then BurnAll(bank, p.evidence, p.offender)
    else bank
  }

  ghost function BankTxs(cfg: Config, bank: Bank, txs: seq<Transaction>, prefix: History, validators: set<Key>): Bank {
    if txs == [] then bank
    else
      var n := |txs| - 1;
      BankTx(cfg, BankTxs(cfg, bank, txs[..n], prefix, validators), txs[n], prefix, validators)
  }

  function EmptyBank(cfg: Config): Bank {
    Bank(Ledger(cfg.endowments, map[]), map[])
  }

  /** Balances and live bonds implied by a history. */
  ghost function BankAt(cfg: Config, history: History): Bank {
    if history == [] then EmptyBank(cfg)
    else
      var n := |history| - 1;
      BankTxs(cfg, BankAt(cfg, history[..n]), history[n], history[..n], AuthoritiesAt(cfg, history[..n]))
  }

  /** Balances after the first n blocks of any list. */
  ghost function ReplayedBank(cfg: Config, blocks: seq<Block>, n: nat): Bank
    requires n <= |blocks|
  {
    if n == 0 then EmptyBank(cfg)
    else
      var b := blocks[n - 1];
      BankTxs(cfg, ReplayedBank(cfg, blocks, n - 1), b.transactions, Bodies(Front(blocks, b.index)),
              AuthoritiesBelow(cfg, blocks, b.index))
  }

  lemma {:induction false} ReplayedBankIsDerived(cfg: Config, blocks: seq<Block>, upto: nat, n: nat)
    requires IndicesChecked(blocks, upto) && n <= upto
    ensures ReplayedBank(cfg, blocks, n) == BankAt(cfg, Bodies(blocks[..n]))
  {
    hide BankTxs, AuthoritiesBelow;
    if n > 0 {
      ReplayedBankIsDerived(cfg, blocks, upto, n - 1);
      ReplayedIsDerived(cfg, blocks, upto, n - 1);
      NextBody(blocks, n - 1);
      assert Front(blocks, n - 1) == blocks[..n - 1];
    } else {
      assert Bodies(blocks[..0]) == [];
    }
  }

  ghost predicate StakesNonNegative(open: map<Hash, Bond>) {
    forall h | h in open :: open[h].stake >= 0
  }

  /** The ledger and the `locked` dictionary that `derive_balances` mutates as it replays. */
  class Replay {
    const ledger: BalanceLedger
    var open: map<Hash, Bond>

    ghost function View(): Bank
      reads this, ledger
    {
      Bank(ledger.View(), open)
    }

    constructor (cfg: Config)
      ensures fresh(ledger) && View() == EmptyBank(cfg)
    {
      ledger := new BalanceLedger(cfg.endowments);
      open := map[];
    }

    /** The inner loop of `_release_for_certificate`: pops the bonds one by one, clamping each time. */
    method PopBonds(attester: Key, bonds: set<Hash>)
      requires bonds <= open.Keys && bonds != {} && StakesNonNegative(open)
      requires forall h | h in bonds :: open[h].reviewer == attester
      modifies this, ledger
      ensures View() == Bank(old(ledger.View()).Release(attester, Sum(bonds, StakeIn(old(open)))), old(open) - bonds)
    {
      ghost var before, bonded := ledger.View(), open;
      var todo := bonds;
      while todo != {}
        invariant todo <= bonds && open == bonded - (bonds - todo)
        invariant todo == bonds ==> ledger.View() == before
        invariant todo != bonds ==> ledger.View() == before.Release(attester, Sum(bonds - todo, StakeIn(bonded)))
        decreases todo
      {
        Inhabited(todo);
        var h :| h in todo;
        var bond := open[h];
        PopOne(before, bonds, todo, h, attester, bonded);
        open := open - {h};
        todo := todo - {h};
        ledger.Release(bond.reviewer, bond.stake);
      }
      assert bonds - todo == bonds;
    }

    /** `_release_for_certificate`. */
    method ReleaseForCertificate(granted: seq<Key>, s: Scope)
      requires StakesNonNegative(open)
      modifies this, ledger
      ensures View() == ReleaseAll(old(View()), granted, s) && StakesNonNegative(open)
    {
      ghost var before := View();
      for i := 0 to |granted|
        invariant View() == ReleaseAll(before, granted[..i], s) && StakesNonNegative(open)
      {
        var attester := granted[i];
        assert granted[..i + 1][..i] == granted[..i];
        var contributing := Contributing(open, attester, s);
        if contributing != {} {
          ledger.Reward(attester, REVIEW_REWARD);
          PopBonds(attester, contributing);
        }
      }
      assert granted[..|granted|] == granted;
    }

    /** `_burn_for_slash`. */
    method BurnForSlash(evidence: seq<Hash>, offender: Key)
      requires StakesNonNegative(open)
      modifies this, ledger
      ensures View() == BurnAll(old(View()), evidence, offender) && StakesNonNegative(open)
    {
      ghost var before := View();
      for i := 0 to |evidence|
        invariant View() == BurnAll(before, evidence[..i], offender) && StakesNonNegative(open)
      {
        assert evidence[..i + 1][..i] == evidence[..i];
        if evidence[i] in open && open[evidence[i]].reviewer == offender {
          var bond := open[evidence[i]];
          open := open - {evidence[i]};
          ledger.Burn(bond.reviewer, bond.stake);
        }
      }
      assert evidence[..|evidence|] == evidence;
    }

    /** The body of the replay loop for one transaction. */
    method Step(cfg: Config, tx: Transaction, prefix: History, validators: set<Key>)
      requires StakesNonNegative(open)
      modifies this, ledger
      ensures View() == BankTx(cfg, old(View()), tx, prefix, validators) && StakesNonNegative(open)
    {
      var p := tx.Payload();
      if IsAttestation(tx) {
        if p.verdict == Abstain {
          return;
        }
        ledger.Lock(tx.Sender(), p.stake);
        open := open[TxHash(cfg, tx) := Bond(tx.Sender(), p.stake, p.scope, p.verdict)];
      } else if p.Certificate? {
        ReleaseForCertificate(p.grantedBy, p.certified);
      } else if p.Slash? {
        var ok := ValidateSlash(cfg, p, prefix, validators);
        if ok {
          BurnForSlash(p.evidence, p.offender);
        }
      }
    }

    /** The replay loop over one block. */
    method Run(cfg: Config, txs: seq<Transaction>, prefix: History, validators: set<Key>)
      requires StakesNonNegative(open)
      modifies this, ledger
      ensures View() == BankTxs(cfg, old(View()), txs, prefix, validators) && StakesNonNegative(open)
    {
      hide BankTx;
      ghost var before := View();
      for j := 0 to |txs|
        invariant StakesNonNegative(open) && View() == BankTxs(cfg, before, txs[..j], prefix, validators)
      {
        Step(cfg, txs[j], prefix, validators);
        assert txs[..j + 1][..j] == txs[..j];
      }
      assert txs[..|txs|] == txs;
    }
  }

  lemma PopOne(before: Ledger, bonds: set<Hash>, todo: set<Hash>, h: Hash, attester: Key, bonded: map<Hash, Bond>)
    requires h in todo && todo <= bonds && bonds <= bonded.Keys && StakesNonNegative(bonded)
    ensures
      var stakes := StakeIn(bonded);
      && before.Release(attester, Sum(bonds - todo, stakes)).Release(attester, bonded[h].stake)
         == before.Release(attester, Sum(bonds - (todo - {h}), stakes))
      && (todo == bonds ==> before.Release(attester, bonded[h].stake)
                            == before.Release(attester, Sum(bonds - (todo - {h}), stakes)))
    ensures bonds - (todo - {h}) == (bonds - todo) + {h}
  {
    var stakes := StakeIn(bonded);
    assert bonds - (todo - {h}) == (bonds - todo) + {h};
    SumAdd(bonds - todo, stakes, h);
    assert stakes(h) == bonded[h].stake >= 0;
    ReleaseTwice(before, attester, Sum(bonds - todo, stakes), bonded[h].stake);
    if todo == bonds {
      assert bonds - todo == {};
    }
  }

  lemma ReleaseTwice(l: Ledger, k: Key, x: int, y: int)
    requires y >= 0
    ensures l.Release(k, x).Release(k, y) == l.Release(k, x + y)
  {
  }

  /** `derive_balances`. */
  method DeriveBalances(cfg: Config, blocks: seq<Block>, limit: int) returns (replay: Replay)
    ensures fresh(replay) && fresh(replay.ledger)
    ensures replay.View() == ReplayedBank(cfg, blocks, Span(blocks, limit))
  {
    hide BankTxs, ConsensusAuthorities, ReplayedWeights, Span;
    replay := new Replay(cfg);
    var i := 0;
    SpanStarts(blocks, limit);
    while i < |blocks| && blocks[i].index < limit
      invariant 0 <= i <= |blocks| && fresh(replay) && fresh(replay.ledger)
      invariant SpanFrom(blocks, limit, i) == Span(blocks, limit)
      invariant StakesNonNegative(replay.open)
      invariant replay.View() == ReplayedBank(cfg, blocks, i)
      decreases |blocks| - i
    {
      var registry := DeriveRegistry(cfg, blocks, blocks[i].index);
      var prefix := Bodies(Front(blocks, blocks[i].index));
      replay.Run(cfg, blocks[i].transactions, prefix, ConsensusAuthorities(registry.weights));
      i := i + 1;
    }
  }
}
