/** Certificates over a whole chain: issued once per scope, rewarded once, and contested for good. */
module Certificates {
  import Merkle
  import opened Types
  import opened Registry
  import opened Slashing
  import opened Tally
  import opened Aggregator
  import opened Derive
  import opened Consensus
  import opened Finality
  import opened Bonds

  // ---- once per scope --------------------------------------------------------------------

  /** On a valid chain no two certificates, wherever they stand, decide the same scope. */
  lemma OneCertificatePerScope(cfg: Config, blocks: seq<Block>, i: nat, j: nat, i': nat, j': nat)
    requires CollisionFree(cfg) && ValidChain(cfg, blocks)
    requires i < |blocks| && j < |blocks[i].transactions| && blocks[i].transactions[j].Payload().Certificate?
    requires i' < |blocks| && j' < |blocks[i'].transactions| && blocks[i'].transactions[j'].Payload().Certificate?
    requires blocks[i].transactions[j].Payload().certified == blocks[i'].transactions[j'].Payload().certified
    ensures i == i' && j == j'
  {
    if i < i' || (i == i' && j < j') {
      LaterCopyRejected(cfg, blocks, i, j, i', j');
    } else if i' < i || j' < j {
      LaterCopyRejected(cfg, blocks, i', j', i, j);
    }
  }

  lemma LaterCopyRejected(cfg: Config, blocks: seq<Block>, i: nat, j: nat, i': nat, j': nat)
    requires CollisionFree(cfg) && ValidChain(cfg, blocks)
    requires i < |blocks| && j < |blocks[i].transactions| && blocks[i].transactions[j].Payload().Certificate?
    requires i' < |blocks| && j' < |blocks[i'].transactions| && blocks[i'].transactions[j'].Payload().Certificate?
    requires i < i' || (i == i' && j < j')
    ensures blocks[i].transactions[j].Payload().certified != blocks[i'].transactions[j'].Payload().certified
  {
    hide ValidChain, ValidCertificate;
    var prefix, txs := Bodies(blocks[..i']), blocks[i'].transactions;
    var c, s := ContextOf(cfg, prefix), ScanAt(cfg, prefix);
    AcceptedTx(cfg, blocks, i', j');
    ScannedScopes(c, s, txs[..j']);
    var first := blocks[i].transactions[j];
    if i < i' {
      assert first in prefix[i];
      assert first in AllTxs(prefix);
      assert first.Payload().certified in CertifiedScopes(prefix);
    } else {
      assert first == txs[..j'][j];
    }
  }

  // ---- one reward per reviewer and certificate --------------------------------------------

  /** A reviewer is paid at most once by a certificate that names each attester once. */
  lemma {:induction false} RewardedAtMostOnce(bank: Bank, granted: seq<Key>, s: Scope, k: Key)
    requires Merkle.Distinct(granted)
    ensures RewardsIn(bank, granted, s, k) <= if k in granted then 1 else 0
    decreases |granted|
  {
    if granted != [] {
      var n := |granted| - 1;
      RewardedAtMostOnce(bank, granted[..n], s, k);
      assert granted[n] !in granted[..n];
      assert granted == granted[..n] + [granted[n]];
    }
  }

  /** Every certificate on a valid chain pays a reviewer at most one reward, and only one it credits. */
  lemma OneRewardPerScope(cfg: Config, blocks: seq<Block>, i: nat, j: nat, bank: Bank, k: Key)
    requires CollisionFree(cfg) && ValidChain(cfg, blocks)
    requires i < |blocks| && j < |blocks[i].transactions| && blocks[i].transactions[j].Payload().Certificate?
    ensures
      var p := blocks[i].transactions[j].Payload();
      && RewardsIn(bank, p.grantedBy, p.certified, k) <= 1
      && (RewardsIn(bank, p.grantedBy, p.certified, k) == 1
          ==> k in CreditedAttesters(Bodies(blocks[..i]), RegistryAt(cfg, Bodies(blocks[..i])), p.certified))
  {
    hide ValidChain, Earned;
    var prefix, p := Bodies(blocks[..i]), blocks[i].transactions[j].Payload();
    AcceptedTx(cfg, blocks, i, j);
    AcceptedCreditExactly(p, prefix, RegistryAt(cfg, prefix));
    RewardedAtMostOnce(bank, p.grantedBy, p.certified, k);
  }

  // ---- contested certificates ----------------------------------------------------------------

  datatype Status = Valid | Contested

  /** `_evidence_submissions`: the submissions a slash's evidence reviewed. */
  function EvidenceSubmissions(cfg: Config, history: History, p: Payload): set<Hash>
    requires p.Slash?
  {
    set h | h in p.evidence && FindTx(cfg, history, h).Some? && IsAttestation(FindTx(cfg, history, h).value)
      :: FindTx(cfg, history, h).value.Payload().scope.submission
  }

  /**
   * A valid slash in block j, after the certificate's block i, of a credited attester over the certified
   * submission.
   */
  ghost predicate Contests(cfg: Config, history: History, i: nat, cert: Payload, j: nat, slash: Payload)
    requires cert.Certificate? && j < |history|
  {
    && i < j
    && slash.Slash?
    && ValidSlash(cfg, slash, history[..j], AuthoritiesAt(cfg, history[..j]))
    && slash.offender in cert.grantedBy
    && cert.certified.submission in EvidenceSubmissions(cfg, history, slash)
  }

  ghost predicate IsContested(cfg: Config, history: History, i: nat, cert: Payload)
    requires cert.Certificate?
  {
    exists j, t :: 0 <= j < |history| && t in history[j] && Contests(cfg, history, i, cert, j, t.Payload())
  }

  ghost function StatusOf(cfg: Config, history: History, i: nat, cert: Payload): Status
    requires cert.Certificate?
  {
    if IsContested(cfg, history, i, cert) then Contested else Valid
  }

  // ---- the procedure -----------------------------------------------------------------------------

  /** A genuine slash: its block, its offender, and the submissions its evidence reviewed. */
  datatype Penalty = Penalty(at: int, offender: Key, submissions: set<Hash>)

  /** A slash in block j of any list, valid for the prefix that the block's index names. */
  ghost predicate Genuine(cfg: Config, blocks: seq<Block>, j: nat, t: Transaction)
    requires j < |blocks|
  {
    && t.Payload().Slash?
    && ValidSlash(cfg, t.Payload(), Bodies(Front(blocks, blocks[j].index)),
                  AuthoritiesBelow(cfg, blocks, blocks[j].index))
  }

  function PenaltyOf(cfg: Config, blocks: seq<Block>, j: nat, t: Transaction): Penalty
    requires j < |blocks| && t.Payload().Slash?
  {
    Penalty(blocks[j].index, t.Payload().offender, EvidenceSubmissions(cfg, Bodies(blocks), t.Payload()))
  }

  ghost function PenaltiesIn(cfg: Config, blocks: seq<Block>, j: nat, txs: seq<Transaction>): set<Penalty>
    requires j < |blocks|
  {
    set t | t in txs && Genuine(cfg, blocks, j, t) :: PenaltyOf(cfg, blocks, j, t)
  }

  ghost function PenaltiesBelow(cfg: Config, blocks: seq<Block>, n: nat): set<Penalty>
    requires n <= |blocks|
  {
    if n == 0 then {}
    else PenaltiesBelow(cfg, blocks, n - 1) + PenaltiesIn(cfg, blocks, n - 1, blocks[n - 1].transactions)
  }

  lemma {:induction false} PenaltiesListed(cfg: Config, blocks: seq<Block>, n: nat, x: Penalty)
    requires n <= |blocks|
    ensures x in PenaltiesBelow(cfg, blocks, n)
       <==> exists j: nat, t :: j < n && t in blocks[j].transactions && Genuine(cfg, blocks, j, t)
                                && x == PenaltyOf(cfg, blocks, j, t)
  {
    hide Genuine, PenaltyOf;
    if n > 0 {
      PenaltiesListed(cfg, blocks, n - 1, x);
    }
  }

  lemma OneMorePenalty(cfg: Config, blocks: seq<Block>, j: nat, txs: seq<Transaction>, m: nat)
    requires j < |blocks| && m < |txs|
    ensures PenaltiesIn(cfg, blocks, j, txs[..m + 1])
         == PenaltiesIn(cfg, blocks, j, txs[..m])
            + if Genuine(cfg, blocks, j, txs[m]) then {PenaltyOf(cfg, blocks, j, txs[m])} else {}
  {
    hide Genuine, PenaltyOf;
    assert txs[..m + 1] == txs[..m] + [txs[m]];
  }

  /** The first pass: every genuine slash, judged against its own prefix. */
  method CollectSlashes(cfg: Config, blocks: seq<Block>) returns (slashes: set<Penalty>)
    ensures slashes == PenaltiesBelow(cfg, blocks, |blocks|)
  {
    hide Genuine, ValidSlash, EvidenceSubmissions;
    slashes := {};
    for i := 0 to |blocks|
      invariant slashes == PenaltiesBelow(cfg, blocks, i)
    {
      ghost var before := slashes;
      var txs := blocks[i].transactions;
      for j := 0 to |txs|
        invariant slashes == before + PenaltiesIn(cfg, blocks, i, txs[..j])
      {
        OneMorePenalty(cfg, blocks, i, txs, j);
        var genuine := IsGenuine(cfg, blocks, i, txs[j]);
        if genuine {
          slashes := slashes + {PenaltyOf(cfg, blocks, i, txs[j])};
        }
      }
      assert txs[..|txs|] == txs;
    }
  }

  method IsGenuine(cfg: Config, blocks: seq<Block>, i: nat, tx: Transaction) returns (genuine: bool)
    requires i < |blocks|
    ensures genuine <==> Genuine(cfg, blocks, i, tx)
    ensures genuine ==> tx.Payload().Slash?
  {
    if !tx.Payload().Slash? {
      return false;
    }
    var registry := DeriveRegistry(cfg, blocks, blocks[i].index);
    genuine := ValidateSlash(cfg, tx.Payload(), Bodies(Front(blocks, blocks[i].index)),
                             ConsensusAuthorities(registry.weights));
  }

  predicate Strikes(x: Penalty, index: int, cert: Payload)
    requires cert.Certificate?
  {
    x.at > index && x.offender in cert.grantedBy && cert.certified.submission in x.submissions
  }

  ghost predicate Struck(cfg: Config, blocks: seq<Block>, index: int, cert: Payload)
    requires cert.Certificate?
  {
    exists x :: x in PenaltiesBelow(cfg, blocks, |blocks|) && Strikes(x, index, cert)
  }

  lemma GenuineOnChain(cfg: Config, blocks: seq<Block>, j: nat, t: Transaction)
    requires (forall k | 0 <= k < |blocks| :: blocks[k].index == k) && j < |blocks|
    ensures Genuine(cfg, blocks, j, t)
       <==> t.Payload().Slash? && ValidSlash(cfg, t.Payload(), Bodies(blocks)[..j],
                                             AuthoritiesAt(cfg, Bodies(blocks)[..j]))
  {
    hide ValidSlash, AuthoritiesBelow;
    assert IndicesChecked(blocks, j);
    ReplayedIsDerived(cfg, blocks, j, j);
    BodiesPrefix(blocks, j);
    assert Front(blocks, j) == blocks[..j];
  }

  /** Where indices are positions, the search over collected slashes finds what contests a certificate. */
  lemma StruckIsContested(cfg: Config, blocks: seq<Block>, i: nat, cert: Payload)
    requires cert.Certificate? && forall k | 0 <= k < |blocks| :: blocks[k].index == k
    ensures Struck(cfg, blocks, i, cert) <==> IsContested(cfg, Bodies(blocks), i, cert)
  {
    hide ValidSlash, EvidenceSubmissions, PenaltiesBelow, AuthoritiesBelow, Front;
    var history, all := Bodies(blocks), PenaltiesBelow(cfg, blocks, |blocks|);
    if IsContested(cfg, history, i, cert) {
      var j: nat, t: Transaction :| 0 <= j < |history| && t in history[j]
          && Contests(cfg, history, i, cert, j, t.Payload());
      var x := PenaltyOf(cfg, blocks, j, t);
      GenuineOnChain(cfg, blocks, j, t);
      PenaltiesListed(cfg, blocks, |blocks|, x);
      assert x in all && Strikes(x, i, cert);
    }
    if Struck(cfg, blocks, i, cert) {
      var x :| x in all && Strikes(x, i, cert);
      PenaltiesListed(cfg, blocks, |blocks|, x);
      var j: nat, t :| j < |blocks| && t in blocks[j].transactions && Genuine(cfg, blocks, j, t)
                       && x == PenaltyOf(cfg, blocks, j, t);
      GenuineOnChain(cfg, blocks, j, t);
      assert t in history[j] && Contests(cfg, history, i, cert, j, t.Payload());
    }
  }

  ghost predicate CertAt(history: History, i: int, j: int) {
    0 <= i < |history| && 0 <= j < |history[i]| && history[i][j].Payload().Certificate?
  }

  /** No two certificates on the history share a hash, so none overwrites another's entry. */
  ghost predicate HashesTellApart(cfg: Config, history: History) {
    forall i, j, i', j' | CertAt(history, i, j) && CertAt(history, i', j')
                          && TxHash(cfg, history[i][j]) == TxHash(cfg, history[i'][j'])
      :: i == i' && j == j'
  }

  ghost predicate Before(i: int, j: int, n: int, m: int) {
    i < n || (i == n && j < m)
  }

  ghost function TableStatus(cfg: Config, blocks: seq<Block>, index: int, cert: Payload): Status
    requires cert.Certificate?
  {
    if Struck(cfg, blocks, index, cert) then Contested else Valid
  }

  /**
   * The entries for the certificates at positions before (n, m) are in the table, and are right if hashes tell them
   * apart.
   */
  ghost predicate Recorded(cfg: Config, blocks: seq<Block>, statuses: map<Hash, Status>, n: int, m: int) {
    var history := Bodies(blocks);
    forall i, j | CertAt(history, i, j) && Before(i, j, n, m) ::
      && TxHash(cfg, history[i][j]) in statuses
      && (HashesTellApart(cfg, history)
          ==> statuses[TxHash(cfg, history[i][j])] == TableStatus(cfg, blocks, blocks[i].index,
                                                                  history[i][j].Payload()))
  }

  lemma RecordOne(cfg: Config, blocks: seq<Block>, statuses: map<Hash, Status>, i: nat, j: nat, status: Status)
    requires Recorded(cfg, blocks, statuses, i, j) && CertAt(Bodies(blocks), i, j)
    requires status == TableStatus(cfg, blocks, blocks[i].index, blocks[i].transactions[j].Payload())
    ensures Recorded(cfg, blocks, statuses[TxHash(cfg, blocks[i].transactions[j]) := status], i, j + 1)
  {
    hide TableStatus;
  }

  lemma RecordNone(cfg: Config, blocks: seq<Block>, statuses: map<Hash, Status>, i: nat, j: nat)
    requires Recorded(cfg, blocks, statuses, i, j) && !CertAt(Bodies(blocks), i, j)
    ensures Recorded(cfg, blocks, statuses, i, j + 1)
  {
    hide TableStatus;
  }

  lemma RecordRow(cfg: Config, blocks: seq<Block>, statuses: map<Hash, Status>, i: nat)
    requires i < |blocks| && Recorded(cfg, blocks, statuses, i, |blocks[i].transactions|)
    ensures Recorded(cfg, blocks, statuses, i + 1, 0)
  {
    hide TableStatus;
  }

  /** `certificate_statuses`. */
  method CertificateStatuses(cfg: Config, blocks: seq<Block>) returns (statuses: map<Hash, Status>)
    ensures Recorded(cfg, blocks, statuses, |blocks|, 0)
  {
    hide Strikes, PenaltiesBelow;
    var slashes := CollectSlashes(cfg, blocks);
    statuses := map[];
    assert Recorded(cfg, blocks, statuses, 0, 0);
    hide Recorded;
    for i := 0 to |blocks|
      invariant Recorded(cfg, blocks, statuses, i, 0)
    {
      var txs := blocks[i].transactions;
      for j := 0 to |txs|
        invariant Recorded(cfg, blocks, statuses, i, j)
      {
        var cert := txs[j].Payload();
        if cert.Certificate? {
          var contested := exists x | x in slashes :: Strikes(x, blocks[i].index, cert);
          assert contested == Struck(cfg, blocks, blocks[i].index, cert);
          RecordOne(cfg, blocks, statuses, i, j, if contested then Contested else Valid);
          statuses := statuses[TxHash(cfg, txs[j]) := if contested then Contested else Valid];
        } else {
          RecordNone(cfg, blocks, statuses, i, j);
        }
      }
      RecordRow(cfg, blocks, statuses, i);
    }
  }

  /** On a valid chain the table gives every certificate its status. */
  lemma TableIsRight(cfg: Config, blocks: seq<Block>, statuses: map<Hash, Status>, i: nat, j: nat)
    requires CollisionFree(cfg) && ValidChain(cfg, blocks) && Recorded(cfg, blocks, statuses, |blocks|, 0)
    requires i < |blocks| && j < |blocks[i].transactions| && blocks[i].transactions[j].Payload().Certificate?
    ensures
      var t := blocks[i].transactions[j];
      TxHash(cfg, t) in statuses && statuses[TxHash(cfg, t)] == StatusOf(cfg, Bodies(blocks), i, t.Payload())
  {
    hide ValidChain, Struck, IsContested;
    IndicesAreHeights(cfg, blocks);
    HashesDoTellApart(cfg, blocks);
    StruckIsContested(cfg, blocks, i, blocks[i].transactions[j].Payload());
    assert CertAt(Bodies(blocks), i, j) && Before(i, j, |blocks|, 0);
  }

  /** On a valid chain certificates never share a hash, so the table is right for every one of them. */
  lemma HashesDoTellApart(cfg: Config, blocks: seq<Block>)
    requires CollisionFree(cfg) && ValidChain(cfg, blocks)
    ensures HashesTellApart(cfg, Bodies(blocks))
  {
    hide ValidChain;
    var history := Bodies(blocks);
    forall i, j, i', j' | CertAt(history, i, j) && CertAt(history, i', j')
      && TxHash(cfg, history[i][j]) == TxHash(cfg, history[i'][j'])
      ensures i == i' && j == j'
    {
      assert history[i][j].content == history[i'][j'].content;
      OneCertificatePerScope(cfg, blocks, i, j, i', j');
    }
  }

  // ---- standing over time ------------------------------------------------------------------------

  lemma EvidenceStable(cfg: Config, prefix: History, history: History, longer: History, p: Payload,
                       validators: set<Key>)
    requires ValidSlash(cfg, p, prefix, validators)
    requires |prefix| <= |history| && history[..|prefix|] == prefix
    requires |history| <= |longer| && longer[..|history|] == history
    ensures EvidenceSubmissions(cfg, history, p) == EvidenceSubmissions(cfg, longer, p)
  {
    var a, b := p.evidence[0], p.evidence[1];
    assert history == prefix + history[|prefix|..];
    assert longer == prefix + longer[|prefix|..] by {
      assert longer[..|prefix|] == longer[..|history|][..|prefix|];
    }
    FindTxStable(cfg, prefix, history[|prefix|..], a);
    FindTxStable(cfg, prefix, history[|prefix|..], b);
    FindTxStable(cfg, prefix, longer[|prefix|..], a);
    FindTxStable(cfg, prefix, longer[|prefix|..], b);
    assert forall h | h in p.evidence :: h == a || h == b;
  }

  /** Growing the chain never makes a contested certificate valid again. */
  lemma ContestedForever(cfg: Config, history: History, longer: History, i: nat, cert: Payload)
    requires cert.Certificate? && |history| <= |longer| && longer[..|history|] == history
    requires IsContested(cfg, history, i, cert)
    ensures IsContested(cfg, longer, i, cert)
  {
    hide ValidSlash, EvidenceSubmissions;
    var j, t :| 0 <= j < |history| && t in history[j] && Contests(cfg, history, i, cert, j, t.Payload());
    assert longer[..j] == history[..j] by {
      assert longer[..|history|][..j] == longer[..j];
    }
    assert longer[j] == longer[..|history|][j];
    EvidenceStable(cfg, history[..j], history, longer, t.Payload(), AuthoritiesAt(cfg, history[..j]));
    assert Contests(cfg, longer, i, cert, j, t.Payload());
  }

  /** A certificate none of whose credited attesters ever equivocates stays valid. */
  lemma UntouchedStaysValid(cfg: Config, history: History, i: nat, cert: Payload)
    requires cert.Certificate?
    requires forall a | a in cert.grantedBy :: !Equivocates(cfg, history, a)
    ensures !IsContested(cfg, history, i, cert)
  {
    forall j, t | 0 <= j < |history| && t in history[j] ensures !Contests(cfg, history, i, cert, j, t.Payload()) {
      if Contests(cfg, history, i, cert, j, t.Payload()) {
        SlashNeedsEquivocation(cfg, t.Payload(), history[..j], AuthoritiesAt(cfg, history[..j]));
        EquivocationSpreads(cfg, history, j, t.Payload().offender);
      }
    }
  }
}
