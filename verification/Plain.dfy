/**
 * What a chain records, read off its fields alone. The rules of the other modules are accounted for in these
 * terms: who signed what, who judged which claim how, and which transaction a hash names.
 */
module Plain {
  import opened Types

  // ---- signatures --------------------------------------------------------------------------------

  ghost predicate AllSign(cfg: Config, signers: set<Key>, signatures: map<Key, Signature>, m: Message) {
    forall k | k in signers :: k in signatures && cfg.verify(k, m, signatures[k])
  }

  /** More than two thirds of the validators put their signature to the message. */
  ghost predicate TwoThirdsSign(cfg: Config, signatures: map<Key, Signature>, m: Message, validators: set<Key>) {
    exists signers: set<Key> ::
      AllSign(cfg, signers, signatures, m) && signers <= validators && 3 * |signers| > 2 * |validators|
  }

  predicate AuthorSigned(cfg: Config, tx: Transaction) {
    && tx.signature.Some?
    && cfg.verify(tx.content.sender, TransactionMessage(tx.content), tx.signature.value)
  }

  // ---- verdicts ------------------------------------------------------------------------------------

  /** k's verdict on one item of a scope, with its stake; an abstention stakes nothing. */
  predicate Finds(tx: Transaction, k: Key, s: Scope, item: int, v: Verdict, stake: int) {
    && tx.content.sender == k
    && tx.content.payload == Attestation(s, item, v, stake)
    && s.domain != "" && stake >= 0
    && (v == Abstain ==> stake == 0)
  }

  /** Somebody's well-formed verdict. */
  predicate IsVerdict(tx: Transaction) {
    var p := tx.content.payload;
    && p.Attestation? && p.scope.domain != "" && p.stake >= 0
    && (p.verdict == Abstain ==> p.stake == 0)
  }

  /** k's signed verdict on one claim: an item of a rubric, about a subject, in a domain. */
  ghost predicate Claims(cfg: Config, tx: Transaction, k: Key, subject: Key, rubric: Hash, domain: string, item: int,
                         v: Verdict) {
    && AuthorSigned(cfg, tx)
    && exists submission, stake :: Finds(tx, k, Scope(subject, rubric, domain, submission), item, v, stake)
  }

  /** On one claim in the domain k signed Yes once and No once. */
  ghost predicate Contradict(cfg: Config, a: Transaction, b: Transaction, k: Key, domain: string) {
    exists subject, rubric, item, v, w ::
      && Claims(cfg, a, k, subject, rubric, domain, item, v) && Claims(cfg, b, k, subject, rubric, domain, item, w)
      && ((v == Yes && w == No) || (v == No && w == Yes))
  }

  // ---- places ----------------------------------------------------------------------------------------

  predicate Placed(history: History, i: int, j: int, tx: Transaction) {
    0 <= i < |history| && 0 <= j < |history[i]| && history[i][j] == tx
  }

  /** tx is the first transaction of that hash, in block order. */
  ghost predicate FirstNamed(cfg: Config, history: History, hash: Hash, tx: Transaction) {
    exists i, j ::
      && Placed(history, i, j, tx) && cfg.hashContent(tx.content) == hash
      && forall i', j', other | Placed(history, i', j', other) && (i' < i || (i' == i && j' < j)) ::
           cfg.hashContent(other.content) != hash
  }
}
