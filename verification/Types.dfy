/**
 * What travels on the chain: transactions, blocks, and the configuration every node shares.
 *
 * Cryptography is a parameter: `Config` carries the signature check and the hash functions as
 * unconstrained functions, so every result holds for all of them; where a result needs hashes that
 * do not collide it says so with `CollisionFree`.
 */
module Types {
  import Merkle

  /** A public key. Only equality and the total order of keys are ever used. */
  type Key = nat
  /** A digest; fixed-width hexadecimal digests are ordered as the numbers they write. */
  type Hash = int
  type Signature = int

  datatype Option<+T> = None | Some(value: T)

  /** A call that returns, or raises an exception. */
  datatype Outcome<+T> = Returned(value: T) | Raised

  /** The empty string where a key is expected: the producer of an unproduced block. */
  const NO_KEY: Key := 0
  const GENESIS_PREVIOUS_HASH: Hash := 0
  const CONSENSUS_DOMAIN := "consensus"
  const AUTHORITY_THRESHOLD := 50

  datatype Verdict = Yes | No | Abstain

  /** One piece of work judged against one rubric in one domain: what a certificate decides. */
  datatype Scope = Scope(subject: Key, rubric: Hash, domain: string, submission: Hash)

  datatype Payload =
    | Attestation(scope: Scope, item: int, verdict: Verdict, stake: int)
    | Submission(subject: Key, domain: string, rubric: Hash, artifact: Hash)
    | Certificate(certified: Scope, grantedBy: seq<Key>, requiredItems: seq<int>)
    | Promotion(candidate: Key, competence: string, approvals: map<Key, Signature>)
    | Slash(offender: Key, penalised: string, amount: int, evidence: seq<Hash>, endorsements: map<Key, Signature>)
    | Unknown(data: int)

  /** The content a transaction's hash and signature both commit to. */
  datatype Content = Content(sender: Key, payload: Payload, timestamp: int)
  datatype Transaction = Transaction(content: Content, signature: Option<Signature>)
  {
    function Sender(): Key { content.sender }
    function Payload(): Payload { content.payload }
  }

  datatype Header = Header(index: int, previousHash: Hash, merkleRoot: Hash, timestamp: int, view: int, producer: Key)

  datatype Block = Block(index: int, previousHash: Hash, transactions: seq<Transaction>, timestamp: int, view: int,
                         producer: Key, producerSignature: Option<Signature>,
                         commits: map<Key, Signature>, viewVotes: map<Key, Signature>)

  /** Every statement somebody signs. The canonical encodings of different statements differ. */
  datatype Message =
    | TransactionMessage(content: Content)
    | HeaderMessage(header: Header)
    | ViewChangeMessage(height: int, view: int)
    | PromotionMessage(candidate: Key, domain: string)
    | SlashMessage(offender: Key, domain: string, amount: int, evidence: multiset<Hash>)

  datatype Config = Config(
    genesis: map<Key, map<string, int>>,
    endowments: map<Key, int>,
    verify: (Key, Message, Signature) -> bool,
    hashContent: Content -> Hash,
    hashHeader: Header -> Hash,
    hashPair: (Hash, Hash) -> Hash,
    emptyRoot: Hash)

  /** The transactions of blocks 0, 1, 2, ... of a chain. */
  type History = seq<seq<Transaction>>

  // ---- transactions (blockchain/transaction.py, attestation/attestation.py) -------

  predicate Verifies(cfg: Config, signer: Key, message: Message, signature: Signature) {
    cfg.verify(signer, message, signature)
  }

  function TxHash(cfg: Config, tx: Transaction): Hash {
    cfg.hashContent(tx.content)
  }

  predicate SignatureOk(cfg: Config, tx: Transaction) {
    tx.signature.Some? && Verifies(cfg, tx.Sender(), TransactionMessage(tx.content), tx.signature.value)
  }

  /** A well-formed attestation: a named domain, a bond that is not negative, and none for an abstention. */
  predicate IsAttestation(tx: Transaction) {
    var p := tx.Payload();
    && p.Attestation?
    && p.scope.domain != ""
    && p.stake >= 0
    && (p.verdict == Abstain ==> p.stake == 0)
  }

  predicate IsPositive(tx: Transaction) {
    IsAttestation(tx) && tx.Payload().verdict == Yes
  }

  predicate RequiresSignature(tx: Transaction) {
    tx.Payload().Attestation? || tx.Payload().Submission?
  }

  // ---- blocks (blockchain/block.py) ------------------------------------------------

  function TxHashes(cfg: Config, txs: seq<Transaction>): (r: seq<Hash>)
    ensures |r| == |txs| && forall i | 0 <= i < |txs| :: r[i] == TxHash(cfg, txs[i])
  {
    seq(|txs|, i requires 0 <= i < |txs| => TxHash(cfg, txs[i]))
  }

  function MerkleRoot(cfg: Config, txs: seq<Transaction>): Hash {
    Merkle.Root(cfg.hashPair, cfg.emptyRoot, TxHashes(cfg, txs))
  }

  function HeaderOf(cfg: Config, b: Block): Header {
    Header(b.index, b.previousHash, MerkleRoot(cfg, b.transactions), b.timestamp, b.view, b.producer)
  }

  function BlockHash(cfg: Config, b: Block): Hash {
    cfg.hashHeader(HeaderOf(cfg, b))
  }

  predicate ProducerSignatureOk(cfg: Config, b: Block) {
    b.producerSignature.Some? && Verifies(cfg, b.producer, HeaderMessage(HeaderOf(cfg, b)), b.producerSignature.value)
  }

  function CommitSigners(cfg: Config, b: Block): set<Key> {
    set k | k in b.commits && Verifies(cfg, k, HeaderMessage(HeaderOf(cfg, b)), b.commits[k])
  }

  function ViewChangeSigners(cfg: Config, b: Block): set<Key> {
    set k | k in b.viewVotes && Verifies(cfg, k, ViewChangeMessage(b.index, b.view), b.viewVotes[k])
  }

  function GenesisBlock(): Block {
    Block(0, GENESIS_PREVIOUS_HASH, [], 0, 0, NO_KEY, None, map[], map[])
  }

  function Bodies(blocks: seq<Block>): (r: History)
    ensures |r| == |blocks| && forall i | 0 <= i < |blocks| :: r[i] == blocks[i].transactions
  {
    seq(|blocks|, i requires 0 <= i < |blocks| => blocks[i].transactions)
  }

  lemma BodiesPrefix(blocks: seq<Block>, n: nat)
    requires n <= |blocks|
    ensures Bodies(blocks[..n]) == Bodies(blocks)[..n]
  {
  }

  // ---- what "the hashes do not collide" means ----------------------------------------

  ghost predicate InjectiveHeaders(cfg: Config) {
    forall a, b :: cfg.hashHeader(a) == cfg.hashHeader(b) ==> a == b
  }

  ghost predicate InjectiveContents(cfg: Config) {
    forall a, b :: cfg.hashContent(a) == cfg.hashContent(b) ==> a == b
  }

  ghost predicate IsTxHash(cfg: Config, x: Hash) {
    exists c :: cfg.hashContent(c) == x
  }

  /** SHA-256 without collisions: distinct inputs, also of different formats, have distinct digests. */
  ghost predicate CollisionFree(cfg: Config) {
    && InjectiveHeaders(cfg)
    && InjectiveContents(cfg)
    && Merkle.InjectivePair(cfg.hashPair)
    && Merkle.Separated(cfg.hashPair, cfg.emptyRoot, x => IsTxHash(cfg, x))
  }

  /** No transaction occurs twice in the list. */
  ghost predicate NoRepeats(txs: seq<Transaction>) {
    forall i, j | 0 <= i < j < |txs| :: txs[i].content != txs[j].content
  }

  ghost predicate SameContents(xs: seq<Transaction>, ys: seq<Transaction>) {
    |xs| == |ys| && forall i | 0 <= i < |xs| :: xs[i].content == ys[i].content
  }

  /** Lists of one Merkle root have the same hashes, but for repeats at the end of the longer one. */
  lemma SameRootSameHashes(cfg: Config, xs: seq<Transaction>, ys: seq<Transaction>)
    requires CollisionFree(cfg) && MerkleRoot(cfg, xs) == MerkleRoot(cfg, ys)
    ensures Merkle.Pads(TxHashes(cfg, xs), TxHashes(cfg, ys)) || Merkle.Pads(TxHashes(cfg, ys), TxHashes(cfg, xs))
  {
    Merkle.SameRoots(cfg.hashPair, cfg.emptyRoot, x => IsTxHash(cfg, x), TxHashes(cfg, xs), TxHashes(cfg, ys));
  }

  /** The Merkle root of a block without repeated transactions determines their contents. */
  lemma RootDeterminesContents(cfg: Config, xs: seq<Transaction>, ys: seq<Transaction>)
    requires CollisionFree(cfg) && NoRepeats(xs) && NoRepeats(ys)
    requires MerkleRoot(cfg, xs) == MerkleRoot(cfg, ys)
    ensures SameContents(xs, ys)
  {
    var a, b := TxHashes(cfg, xs), TxHashes(cfg, ys);
    Merkle.DistinctRoots(cfg.hashPair, cfg.emptyRoot, x => IsTxHash(cfg, x), a, b);
    assert forall i | 0 <= i < |xs| :: a[i] == TxHash(cfg, xs[i]) && b[i] == TxHash(cfg, ys[i]);
  }

  /**
   * With repeats it does not: a block of an odd number of transactions and the block that repeats its last one
   * share a root.
   */
  lemma RepeatedTransactionKeepsHash(cfg: Config, b: Block)
    requires |b.transactions| > 1 && |b.transactions| % 2 == 1
    ensures
      var twin := b.(transactions := b.transactions + [b.transactions[|b.transactions| - 1]]);
      twin.transactions != b.transactions && BlockHash(cfg, twin) == BlockHash(cfg, b)
  {
    var txs := b.transactions;
    var last := txs[|txs| - 1];
    Merkle.OddDuplicationCollides(cfg.hashPair, TxHashes(cfg, txs));
    assert TxHashes(cfg, txs + [last]) == TxHashes(cfg, txs) + [TxHash(cfg, last)];
  }
}
