/**
 * Who can become a validator. The documentation says that only genesis and promotion grant consensus
 * authority; the code also lets a certificate in the consensus domain do so, and nothing else.
 */
module Admission {
  import opened Types
  import opened Registry
  import opened Tally
  import opened Derive
  import opened Consensus

  /** The certificate that lifts k over the authority threshold. */
  predicate OpensDoor(w: Weights, tx: Transaction, k: Key) {
    var p := tx.Payload();
    && p.Certificate?
    && p.certified.subject == k
    && p.certified.domain == CONSENSUS_DOMAIN
    && Weight(w, k, CONSENSUS_DOMAIN) + CERTIFICATE_REWARD >= AUTHORITY_THRESHOLD
  }

  /** A key that is no authority becomes one by a transaction exactly when that is such a certificate. */
  lemma OneWayIn(cfg: Config, w: Weights, tx: Transaction, prefix: History, validators: set<Key>, k: Key)
    requires k !in ConsensusAuthorities(w)
    ensures k in ConsensusAuthorities(ApplyTx(cfg, w, tx, prefix, validators)) <==> OpensDoor(w, tx, k)
  {
  }

  /** The weights that transaction j of block i meets. */
  function WeightsBefore(cfg: Config, history: History, i: nat, j: nat): Weights
    requires i < |history| && j <= |history[i]|
  {
    ApplyTxs(cfg, RegistryAt(cfg, history[..i]), history[i][..j], history[..i], AuthoritiesAt(cfg, history[..i]))
  }

  ghost predicate DoorAt(cfg: Config, history: History, i: int, j: int, k: Key) {
    && 0 <= i < |history| && 0 <= j < |history[i]|
    && OpensDoor(WeightsBefore(cfg, history, i, j), history[i][j], k)
  }

  lemma {:induction false} DoorInBlock(cfg: Config, w: Weights, txs: seq<Transaction>, prefix: History,
                                       validators: set<Key>, k: Key)
    requires k !in ConsensusAuthorities(w) && k in ConsensusAuthorities(ApplyTxs(cfg, w, txs, prefix, validators))
    ensures exists j :: 0 <= j < |txs| && OpensDoor(ApplyTxs(cfg, w, txs[..j], prefix, validators), txs[j], k)
    decreases |txs|
  {
    hide ApplyTx, ConsensusAuthorities, OpensDoor;
    var n := |txs| - 1;
    var before := ApplyTxs(cfg, w, txs[..n], prefix, validators);
    if k in ConsensusAuthorities(before) {
      DoorInBlock(cfg, w, txs[..n], prefix, validators, k);
      var j :| 0 <= j < n && OpensDoor(ApplyTxs(cfg, w, txs[..n][..j], prefix, validators), txs[..n][j], k);
      assert txs[..n][..j] == txs[..j];
    } else {
      OneWayIn(cfg, before, txs[n], prefix, validators, k);
    }
  }

  /** Every consensus authority that is not one of the anchor's was let in by such a certificate, for it alone. */
  lemma {:induction false} AuthorityHasDoor(cfg: Config, history: History, k: Key)
    requires k in AuthoritiesAt(cfg, history) && k !in ConsensusAuthorities(cfg.genesis)
    ensures exists i, j :: DoorAt(cfg, history, i, j, k)
    decreases |history|
  {
    hide ApplyTxs, ConsensusAuthorities, OpensDoor;
    var n := |history| - 1;
    if k in AuthoritiesAt(cfg, history[..n]) {
      AuthorityHasDoor(cfg, history[..n], k);
      var i, j :| DoorAt(cfg, history[..n], i, j, k);
      assert history[..n][..i] == history[..i];
      assert DoorAt(cfg, history, i, j, k);
    } else {
      var w, validators := RegistryAt(cfg, history[..n]), AuthoritiesAt(cfg, history[..n]);
      DoorInBlock(cfg, w, history[n], history[..n], validators, k);
      var j :| 0 <= j < |history[n]| && OpensDoor(ApplyTxs(cfg, w, history[n][..j], history[..n], validators),
                                                  history[n][j], k);
      assert DoorAt(cfg, history, n, j, k);
    }
  }

  /**
   * So a validator is an authority of the anchor, was promoted, or was let in by a consensus-domain certificate of
   * its own.
   */
  lemma ThreeWaysIn(cfg: Config, history: History, k: Key)
    requires k in ValidatorSet(cfg, history)
    ensures
      || k in ConsensusAuthorities(cfg.genesis)
      || k in CohortAt(cfg, history).promoted
      || exists i, j :: DoorAt(cfg, history, i, j, k)
  {
    hide ConsensusAuthorities, DoorAt;
    if k in AuthoritiesAt(cfg, history) && k !in ConsensusAuthorities(cfg.genesis) {
      AuthorityHasDoor(cfg, history, k);
    }
  }

  /** The history holds no certificate in the consensus domain. */
  ghost predicate NoConsensusCertificates(history: History) {
    forall t | t in AllTxs(history) && t.Payload().Certificate? :: t.Payload().certified.domain != CONSENSUS_DOMAIN
  }

  lemma NoDoor(cfg: Config, history: History, k: Key)
    requires NoConsensusCertificates(history)
    ensures forall i, j :: !DoorAt(cfg, history, i, j, k)
  {
    hide WeightsBefore;
    forall i, j | 0 <= i < |history| && 0 <= j < |history[i]| ensures history[i][j] in AllTxs(history) {
      assert history[i][j] in history[i];
    }
  }

  /** Without such certificates a validator is a genesis authority or was promoted. */
  lemma OnlyGenesisAndPromoted(cfg: Config, history: History)
    requires NoConsensusCertificates(history)
    ensures ValidatorSet(cfg, history) <= ConsensusAuthorities(cfg.genesis) + CohortAt(cfg, history).promoted
  {
    hide ValidatorSet, ConsensusAuthorities, CohortAt, WeightsBefore;
    forall k | k in ValidatorSet(cfg, history)
      ensures k in ConsensusAuthorities(cfg.genesis) + CohortAt(cfg, history).promoted
    {
      ThreeWaysIn(cfg, history, k);
      NoDoor(cfg, history, k);
    }
  }
}
