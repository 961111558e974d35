/** Who can be slashed, who cannot, and that every replay judges a slash alike. */
module Penalties {
  import opened Types
  import opened Registry
  import opened Balances
  import opened Slashing
  import opened Derive
  import opened Consensus
  import opened ForkChoice
  import opened Finality
  import opened Bonds

  /** One transaction lowers a weight by at most MAX_SLASH, and only an equivocator's. */
  lemma TxPenalty(cfg: Config, w: Weights, tx: Transaction, prefix: History, validators: set<Key>, k: Key, d: string)
    ensures Weight(ApplyTx(cfg, w, tx, prefix, validators), k, d) >= Weight(w, k, d) - MAX_SLASH
    ensures !Equivocates(cfg, prefix, k) ==> Weight(ApplyTx(cfg, w, tx, prefix, validators), k, d) >= Weight(w, k, d)
  {
    var p := tx.Payload();
    if p.Slash? && ValidSlash(cfg, p, prefix, validators) {
      SlashNeedsEquivocation(cfg, p, prefix, validators);
    }
  }

  lemma {:induction false} TxsSpare(cfg: Config, w: Weights, txs: seq<Transaction>, prefix: History,
                                    validators: set<Key>, k: Key, d: string)
    requires !Equivocates(cfg, prefix, k)
    ensures Weight(ApplyTxs(cfg, w, txs, prefix, validators), k, d) >= Weight(w, k, d)
    decreases |txs|
  {
    hide Equivocates, ApplyTx;
    if txs != [] {
      var n := |txs| - 1;
      TxsSpare(cfg, w, txs[..n], prefix, validators, k, d);
      TxPenalty(cfg, ApplyTxs(cfg, w, txs[..n], prefix, validators), txs[n], prefix, validators, k, d);
    }
  }

  /** A key that never equivocates never loses weight, in any domain, as the chain grows. */
  lemma {:induction false} HonestWeightNeverDrops(cfg: Config, history: History, n: nat, m: nat, k: Key, d: string)
    requires n <= m <= |history| && !Equivocates(cfg, history, k)
    ensures Weight(RegistryAt(cfg, history[..n]), k, d) <= Weight(RegistryAt(cfg, history[..m]), k, d)
    decreases m
  {
    hide Equivocates, ApplyTxs;
    if n < m {
      var prefix := history[..m - 1];
      HonestWeightNeverDrops(cfg, history, n, m - 1, k, d);
      if Equivocates(cfg, prefix, k) {
        EquivocationSpreads(cfg, history, m - 1, k);
      }
      assert history[..m][..m - 1] == prefix;
      TxsSpare(cfg, RegistryAt(cfg, prefix), history[m - 1], prefix, AuthoritiesAt(cfg, prefix), k, d);
    }
  }

  lemma {:induction false} TxsBurnNothing(cfg: Config, a: Books, txs: seq<Transaction>, prefix: History,
                                          validators: set<Key>, k: Key)
    requires !Equivocates(cfg, prefix, k)
    ensures BooksTxs(cfg, k, a, txs, prefix, validators).burned == a.burned
    decreases |txs|
  {
    hide Equivocates, ValidSlash, BankTx, RewardsIn;
    if txs != [] {
      var n := |txs| - 1;
      TxsBurnNothing(cfg, a, txs[..n], prefix, validators, k);
      var p := txs[n].Payload();
      if p.Slash? && ValidSlash(cfg, p, prefix, validators) {
        SlashNeedsEquivocation(cfg, p, prefix, validators);
      }
    }
  }

  /** A key that never equivocates never has a bond burned. */
  lemma {:induction false} HonestBondsNeverBurn(cfg: Config, history: History, k: Key)
    requires !Equivocates(cfg, history, k)
    ensures BooksAt(cfg, k, history).burned == 0
    decreases |history|
  {
    hide Equivocates, BooksTxs;
    if history != [] {
      var n := |history| - 1;
      if Equivocates(cfg, history[..n], k) {
        EquivocationSpreads(cfg, history, n, k);
      }
      HonestBondsNeverBurn(cfg, history[..n], k);
      TxsBurnNothing(cfg, BooksAt(cfg, k, history[..n]), history[n], history[..n], AuthoritiesAt(cfg, history[..n]), k);
    }
  }

  /** On a valid chain an honest reviewer's tokens only ever grow beyond the endowment, by its review rewards. */
  lemma HonestTotal(cfg: Config, blocks: seq<Block>, k: Key)
    requires CollisionFree(cfg) && EndowmentsNonNegative(cfg) && ValidChain(cfg, blocks)
    requires !Equivocates(cfg, Bodies(blocks), k)
    ensures BankAt(cfg, Bodies(blocks)).ledger.Total(k)
         == EmptyBank(cfg).ledger.Total(k) + REVIEW_REWARD * BooksAt(cfg, k, Bodies(blocks)).rewards
  {
    ChainBalanced(cfg, k, blocks, |blocks|);
    assert blocks[..|blocks|] == blocks;
    BooksTrackBank(cfg, k, Bodies(blocks));
    HonestBondsNeverBurn(cfg, Bodies(blocks), k);
  }

  /** Every slash present on a valid chain is one that each replay of that chain applies. */
  lemma SlashAcceptedEverywhere(cfg: Config, blocks: seq<Block>, i: nat, j: nat)
    requires CollisionFree(cfg) && ValidChain(cfg, blocks)
    requires i < |blocks| && j < |blocks[i].transactions| && blocks[i].transactions[j].Payload().Slash?
    ensures ValidSlash(cfg, blocks[i].transactions[j].Payload(), Bodies(blocks)[..i],
                       AuthoritiesAt(cfg, Bodies(blocks)[..i]))
  {
    hide ValidChain, ValidSlash, ScanAfter;
    BodiesPrefix(blocks, i);
    AcceptedTx(cfg, blocks, i, j);
  }
}
