/** attestation/aggregator.py: when a certificate is contested, read off the slashes and attestations on the chain. */
module Contested {
  import opened Types
  import opened Plain
  import opened Registry
  import opened Slashing
  import opened Derive
  import opened Consensus
  import opened Promotions
  import opened Certificates

  /** The evidence of a slash names a verdict about the submission. */
  ghost predicate EvidenceAbout(cfg: Config, history: History, evidence: seq<Hash>, submission: Hash) {
    exists e, tx ::
      && e in evidence && FirstNamed(cfg, history, e, tx)
      && IsVerdict(tx) && tx.content.payload.scope.submission == submission
  }

  /** A slash in a later block, in order there, of a key the certificate names, over a verdict about its submission. */
  ghost predicate StruckAt(cfg: Config, history: History, i: nat, cert: Payload, j: int, m: int, tx: Transaction)
    requires cert.Certificate?
  {
    && i < j && Placed(history, j, m, tx) && tx.content.payload.Slash?
    && var p, prefix := tx.content.payload, history[..j];
    && SlashInOrder(cfg, p, prefix, Weighty(RegistryAt(cfg, prefix)))
    && p.offender in cert.grantedBy
    && EvidenceAbout(cfg, history, p.evidence, cert.certified.submission)
  }

  lemma EvidenceIs(cfg: Config, history: History, p: Payload, submission: Hash)
    requires p.Slash?
    ensures submission in EvidenceSubmissions(cfg, history, p) <==> EvidenceAbout(cfg, history, p.evidence, submission)
  {
    forall e, tx ensures FindTx(cfg, history, e) == Some(tx) <==> FirstNamed(cfg, history, e, tx) {
      FindsFirst(cfg, history, e, tx);
    }
    hide FirstNamed, FindTx;
    if submission in EvidenceSubmissions(cfg, history, p) {
      var e :| e in p.evidence && FindTx(cfg, history, e).Some? && IsAttestation(FindTx(cfg, history, e).value)
               && FindTx(cfg, history, e).value.Payload().scope.submission == submission;
      assert FirstNamed(cfg, history, e, FindTx(cfg, history, e).value);
    }
    if e, tx :| e in p.evidence && FirstNamed(cfg, history, e, tx) && IsVerdict(tx)
                && tx.content.payload.scope.submission == submission {
      assert FindTx(cfg, history, e) == Some(tx) && IsAttestation(tx);
    }
  }

  lemma StruckIsContests(cfg: Config, history: History, i: nat, cert: Payload, j: nat, tx: Transaction)
    requires cert.Certificate? && j < |history|
    ensures (tx in history[j] && Contests(cfg, history, i, cert, j, tx.Payload()))
       <==> exists m :: StruckAt(cfg, history, i, cert, j, m, tx)
  {
    var p, prefix := tx.content.payload, history[..j];
    WeightyIsAuthority(RegistryAt(cfg, prefix));
    if p.Slash? {
      EvidenceIs(cfg, history, p, cert.certified.submission);
      SlashExactly(cfg, p, prefix, Weighty(RegistryAt(cfg, prefix)));
    }
    hide ValidSlash, SlashInOrder, EvidenceSubmissions, EvidenceAbout, RegistryAt, Weighty, ConsensusAuthorities;
    if tx in history[j] && Contests(cfg, history, i, cert, j, p) {
      var m :| 0 <= m < |history[j]| && history[j][m] == tx;
      assert StruckAt(cfg, history, i, cert, j, m, tx);
    }
  }

  /** Exactly those certificates are contested. */
  lemma ContestedExactly(cfg: Config, history: History, i: nat, cert: Payload)
    requires cert.Certificate?
    ensures IsContested(cfg, history, i, cert) <==> exists j, m, tx :: StruckAt(cfg, history, i, cert, j, m, tx)
  {
    if IsContested(cfg, history, i, cert) {
      var j, tx :| 0 <= j < |history| && tx in history[j] && Contests(cfg, history, i, cert, j, tx.Payload());
      StruckIsContests(cfg, history, i, cert, j, tx);
    }
    if j, m, tx :| StruckAt(cfg, history, i, cert, j, m, tx) {
      StruckIsContests(cfg, history, i, cert, j, tx);
      assert 0 <= j < |history|;
    }
  }
}
