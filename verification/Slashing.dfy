/** reputation/slashing.py: slashes are valid only on two signed, opposite verdicts and a validator quorum. */
module Slashing {
  import opened Types
  import opened Quorum
  import opened Plain
  import opened Sets

  const MAX_SLASH := 100

  /** `is_slash`: the shape of a slash payload. */
  predicate IsSlash(p: Payload) {
    && p.Slash?
    && p.offender != NO_KEY
    && p.penalised != ""
    && p.amount >= 0
    && |p.evidence| == 2
    && p.evidence[0] != p.evidence[1]
  }

  function FindIn(cfg: Config, txs: seq<Transaction>, hash: Hash): Option<Transaction> {
    if txs == [] then None
    else if TxHash(cfg, txs[0]) == hash then Some(txs[0])
    else FindIn(cfg, txs[1..], hash)
  }

  /** The first transaction with that hash, in block order. */
  function FindTx(cfg: Config, history: History, hash: Hash): Option<Transaction> {
    if history == [] then None
    else
      var found := FindIn(cfg, history[0], hash);
      if found.Some? then found else FindTx(cfg, history[1..], hash)
  }

  method SearchTx(cfg: Config, history: History, hash: Hash) returns (r: Option<Transaction>)
    ensures r == FindTx(cfg, history, hash)
  {
    for i := 0 to |history|
      invariant FindTx(cfg, history, hash) == FindTx(cfg, history[i..], hash)
    {
      var txs := history[i];
      for j := 0 to |txs|
        invariant FindIn(cfg, txs, hash) == FindIn(cfg, txs[j..], hash)
      {
        if TxHash(cfg, txs[j]) == hash {
          return Some(txs[j]);
        }
        assert txs[j..][1..] == txs[j + 1..];
      }
      assert history[i..][1..] == history[i + 1..];
    }
    return None;
  }

  /** `_conflicting_attestations`: both signed by the offender, opposite verdicts on one claim in the slashed domain. */
  predicate Conflicting(cfg: Config, a: Transaction, b: Transaction, offender: Key, domain: string) {
    && IsAttestation(a) && IsAttestation(b)
    && a.Sender() == offender && b.Sender() == offender
    && SignatureOk(cfg, a) && SignatureOk(cfg, b)
    && var p, q := a.Payload(), b.Payload();
    && p.scope.domain == domain && q.scope.domain == domain
    && p.verdict != Abstain && q.verdict != Abstain
    && p.scope.subject == q.scope.subject
    && p.scope.rubric == q.scope.rubric
    && p.item == q.item
    && p.verdict != q.verdict
  }

  function SlashStatement(p: Payload): Message
    requires p.Slash?
  {
    SlashMessage(p.offender, p.penalised, p.amount, multiset(p.evidence))
  }

  function Approvers(cfg: Config, approvals: map<Key, Signature>, message: Message, validators: set<Key>): set<Key> {
    set k | k in approvals && k in validators && Verifies(cfg, k, message, approvals[k])
  }

  /** A quorum of approvers is more than two thirds of the validators signing, and the other way round. */
  lemma QuorumSigns(cfg: Config, approvals: map<Key, Signature>, m: Message, validators: set<Key>)
    ensures |Approvers(cfg, approvals, m, validators)| >= QuorumSize(|validators|)
       <==> TwoThirdsSign(cfg, approvals, m, validators)
  {
    var approvers := Approvers(cfg, approvals, m, validators);
    QuorumIsTwoThirds(|validators|, |approvers|);
    if 3 * |approvers| > 2 * |validators| {
      assert AllSign(cfg, approvers, approvals, m) && approvers <= validators;
    }
    if TwoThirdsSign(cfg, approvals, m, validators) {
      var signers: set<Key> :|
        AllSign(cfg, signers, approvals, m) && signers <= validators && 3 * |signers| > 2 * |validators|;
      assert forall k | k in signers :: Verifies(cfg, k, m, approvals[k]);
      SubsetSize(signers, approvers);
    }
  }

  /** `validate_slash`, judged against a chain prefix and the consensus authorities derived from it. */
  predicate ValidSlash(cfg: Config, p: Payload, prefix: History, validators: set<Key>) {
    && IsSlash(p)
    && var a := FindTx(cfg, prefix, p.evidence[0]);
    && var b := FindTx(cfg, prefix, p.evidence[1]);
    && a.Some? && b.Some?
    && Conflicting(cfg, a.value, b.value, p.offender, p.penalised)
    && validators != {}
    && |Approvers(cfg, p.endorsements, SlashStatement(p), validators)| >= QuorumSize(|validators|)
  }

  method ValidateSlash(cfg: Config, p: Payload, prefix: History, validators: set<Key>) returns (ok: bool)
    ensures ok == ValidSlash(cfg, p, prefix, validators)
  {
    if !IsSlash(p) {
      return false;
    }
    var a := SearchTx(cfg, prefix, p.evidence[0]);
    var b := SearchTx(cfg, prefix, p.evidence[1]);
    if a.None? || b.None? {
      return false;
    }
    if !Conflicting(cfg, a.value, b.value, p.offender, p.penalised) {
      return false;
    }
    if validators == {} {
      return false;
    }
    return |Approvers(cfg, p.endorsements, SlashStatement(p), validators)| >= QuorumSize(|validators|);
  }

  // ---- transactions on a history ---------------------------------------------------

  ghost predicate OnHistory(history: History, tx: Transaction) {
    exists i :: 0 <= i < |history| && tx in history[i]
  }

  lemma {:induction false} FindInSound(cfg: Config, txs: seq<Transaction>, hash: Hash)
    ensures FindIn(cfg, txs, hash).Some? ==>
      FindIn(cfg, txs, hash).value in txs && TxHash(cfg, FindIn(cfg, txs, hash).value) == hash
  {
    if txs != [] {
      FindInSound(cfg, txs[1..], hash);
    }
  }

  lemma {:induction false} FindTxSound(cfg: Config, history: History, hash: Hash)
    ensures FindTx(cfg, history, hash).Some? ==>
      OnHistory(history, FindTx(cfg, history, hash).value) && TxHash(cfg, FindTx(cfg, history, hash).value) == hash
  {
    if history != [] {
      FindInSound(cfg, history[0], hash);
      FindTxSound(cfg, history[1..], hash);
      var found := FindTx(cfg, history[1..], hash);
      if found.Some? {
        var i :| 0 <= i < |history[1..]| && found.value in history[1..][i];
        assert history[1..][i] == history[i + 1];
      }
    }
  }

  /** What a prefix finds, every extension finds. */
  lemma {:induction false} FindTxStable(cfg: Config, prefix: History, more: History, hash: Hash)
    requires FindTx(cfg, prefix, hash).Some?
    ensures FindTx(cfg, prefix + more, hash) == FindTx(cfg, prefix, hash)
  {
    assert (prefix + more)[0] == prefix[0];
    assert (prefix + more)[1..] == prefix[1..] + more;
    if FindIn(cfg, prefix[0], hash).None? {
      FindTxStable(cfg, prefix[1..], more, hash);
    }
  }

  /** A key equivocates on a history when it signed Yes once and No once on one claim. */
  ghost predicate Equivocates(cfg: Config, history: History, key: Key) {
    exists a, b, d :: OnHistory(history, a) && OnHistory(history, b) && Contradict(cfg, a, b, key, d)
  }

  /** Two attestations are evidence exactly when they contradict each other. */
  lemma ConflictIsContradiction(cfg: Config, a: Transaction, b: Transaction, k: Key, d: string)
    ensures Conflicting(cfg, a, b, k, d) <==> Contradict(cfg, a, b, k, d)
  {
    if Conflicting(cfg, a, b, k, d) {
      var p, q := a.content.payload, b.content.payload;
      var s, t := p.scope, q.scope;
      assert Finds(a, k, Scope(s.subject, s.rubric, d, s.submission), p.item, p.verdict, p.stake);
      assert Finds(b, k, Scope(s.subject, s.rubric, d, t.submission), p.item, q.verdict, q.stake);
      assert Claims(cfg, a, k, s.subject, s.rubric, d, p.item, p.verdict);
      assert Claims(cfg, b, k, s.subject, s.rubric, d, p.item, q.verdict);
    }
  }

  /** A valid slash always rests on an equivocation of its offender inside the prefix. */
  lemma SlashNeedsEquivocation(cfg: Config, p: Payload, prefix: History, validators: set<Key>)
    requires ValidSlash(cfg, p, prefix, validators)
    ensures Equivocates(cfg, prefix, p.offender)
  {
    var a, b := FindTx(cfg, prefix, p.evidence[0]).value, FindTx(cfg, prefix, p.evidence[1]).value;
    FindTxSound(cfg, prefix, p.evidence[0]);
    FindTxSound(cfg, prefix, p.evidence[1]);
    ConflictIsContradiction(cfg, a, b, p.offender, p.penalised);
    hide Conflicting, Contradict, FindTx, OnHistory, QuorumSize, Approvers;
  }

  // ---- the exact terms of a slash ----------------------------------------------------------------

  ghost predicate FirstInList(cfg: Config, txs: seq<Transaction>, hash: Hash, j: nat) {
    && j < |txs| && cfg.hashContent(txs[j].content) == hash
    && forall i: nat | i < j :: cfg.hashContent(txs[i].content) != hash
  }

  /** The scan of a list finds the first transaction of that hash, or there is none. */
  lemma {:induction false} FindInPlace(cfg: Config, txs: seq<Transaction>, hash: Hash)
    ensures FindIn(cfg, txs, hash).None? ==> forall t | t in txs :: cfg.hashContent(t.content) != hash
    ensures FindIn(cfg, txs, hash).Some? ==>
              exists j: nat :: FirstInList(cfg, txs, hash, j) && txs[j] == FindIn(cfg, txs, hash).value
  {
    if txs != [] {
      if TxHash(cfg, txs[0]) == hash {
        assert FirstInList(cfg, txs, hash, 0);
      } else {
        FindInPlace(cfg, txs[1..], hash);
        if FindIn(cfg, txs, hash).Some? {
          var j: nat :| FirstInList(cfg, txs[1..], hash, j) && txs[1..][j] == FindIn(cfg, txs, hash).value;
          forall i: nat | i < j + 1 ensures cfg.hashContent(txs[i].content) != hash {
            assert i > 0 ==> txs[i] == txs[1..][i - 1];
          }
          assert FirstInList(cfg, txs, hash, j + 1);
        }
      }
    }
  }

  lemma {:induction false} FindTxPlace(cfg: Config, history: History, hash: Hash)
    ensures FindTx(cfg, history, hash).None? ==>
              forall i, j, t | Placed(history, i, j, t) :: cfg.hashContent(t.content) != hash
    ensures FindTx(cfg, history, hash).Some? ==> FirstNamed(cfg, history, hash, FindTx(cfg, history, hash).value)
  {
    if history != [] {
      FindInPlace(cfg, history[0], hash);
      if FindIn(cfg, history[0], hash).Some? {
        var j: nat :| FirstInList(cfg, history[0], hash, j) && history[0][j] == FindTx(cfg, history, hash).value;
        assert Placed(history, 0, j, FindTx(cfg, history, hash).value);
      } else {
        FindTxPlace(cfg, history[1..], hash);
        forall i, j, t | Placed(history, i, j, t)
          ensures i > 0 ==> Placed(history[1..], i - 1, j, t)
          ensures i == 0 ==> cfg.hashContent(t.content) != hash
        {
          assert i == 0 ==> t in history[0];
        }
        var found := FindTx(cfg, history[1..], hash);
        if found.Some? {
          FirstLater(cfg, history, hash, found.value);
        }
      }
    }
  }

  lemma FirstLater(cfg: Config, history: History, hash: Hash, tx: Transaction)
    requires history != [] && FirstNamed(cfg, history[1..], hash, tx)
    requires forall t | t in history[0] :: cfg.hashContent(t.content) != hash
    ensures FirstNamed(cfg, history, hash, tx)
  {
    var i, j :| Placed(history[1..], i, j, tx) && cfg.hashContent(tx.content) == hash
      && forall i', j', other | Placed(history[1..], i', j', other) && (i' < i || (i' == i && j' < j)) ::
           cfg.hashContent(other.content) != hash;
    assert Placed(history, i + 1, j, tx);
    forall i', j', other | Placed(history, i', j', other) && (i' < i + 1 || (i' == i + 1 && j' < j))
      ensures cfg.hashContent(other.content) != hash
    {
      if i' > 0 {
        assert Placed(history[1..], i' - 1, j', other);
      } else {
        assert other in history[0];
      }
    }
  }

  /** What the search finds is what the hash names: its first occurrence. */
  lemma FindsFirst(cfg: Config, history: History, hash: Hash, tx: Transaction)
    ensures FindTx(cfg, history, hash) == Some(tx) <==> FirstNamed(cfg, history, hash, tx)
  {
    FindTxPlace(cfg, history, hash);
    if FirstNamed(cfg, history, hash, tx) {
      var i, j :| Placed(history, i, j, tx) && cfg.hashContent(tx.content) == hash
        && forall i', j', other | Placed(history, i', j', other) && (i' < i || (i' == i && j' < j)) ::
             cfg.hashContent(other.content) != hash;
      var found := FindTx(cfg, history, hash).value;
      var k, l :| Placed(history, k, l, found) && cfg.hashContent(found.content) == hash
        && forall i', j', other | Placed(history, i', j', other) && (i' < k || (i' == k && j' < l)) ::
             cfg.hashContent(other.content) != hash;
      assert i == k && j == l;
    }
  }

  /**
   * A slash is in order when it is well formed, the two transactions its hashes name contradict each other on a
   * claim in the penalised domain, both signed by the offender, and more than two thirds of the validators sign
   * its statement.
   */
  ghost predicate SlashInOrder(cfg: Config, p: Payload, prefix: History, validators: set<Key>) {
    && p.Slash? && p.offender != 0 && p.penalised != "" && p.amount >= 0
    && |p.evidence| == 2 && p.evidence[0] != p.evidence[1]
    && (exists a, b ::
          && FirstNamed(cfg, prefix, p.evidence[0], a) && FirstNamed(cfg, prefix, p.evidence[1], b)
          && Contradict(cfg, a, b, p.offender, p.penalised))
    && validators != {}
    && TwoThirdsSign(cfg, p.endorsements, SlashMessage(p.offender, p.penalised, p.amount, multiset(p.evidence)),
                     validators)
  }

  /** Exactly those are valid. */
  lemma SlashExactly(cfg: Config, p: Payload, prefix: History, validators: set<Key>)
    ensures ValidSlash(cfg, p, prefix, validators) <==> SlashInOrder(cfg, p, prefix, validators)
  {
    if IsSlash(p) {
      QuorumSigns(cfg, p.endorsements, SlashStatement(p), validators);
      forall tx ensures FindTx(cfg, prefix, p.evidence[0]) == Some(tx) <==> FirstNamed(cfg, prefix, p.evidence[0], tx) {
        FindsFirst(cfg, prefix, p.evidence[0], tx);
      }
      forall tx ensures FindTx(cfg, prefix, p.evidence[1]) == Some(tx) <==> FirstNamed(cfg, prefix, p.evidence[1], tx) {
        FindsFirst(cfg, prefix, p.evidence[1], tx);
      }
      forall a, b ensures Conflicting(cfg, a, b, p.offender, p.penalised)
                     <==> Contradict(cfg, a, b, p.offender, p.penalised) {
        ConflictIsContradiction(cfg, a, b, p.offender, p.penalised);
      }
    }
    hide Conflicting, Contradict, FindTx, FirstNamed, QuorumSize, Approvers, TwoThirdsSign;
  }

  lemma EquivocationSpreads(cfg: Config, history: History, n: nat, k: Key)
    requires n <= |history| && Equivocates(cfg, history[..n], k)
    ensures Equivocates(cfg, history, k)
  {
  }
}
