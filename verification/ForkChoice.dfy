/** blockchain/blockchain.py: finality, the fork-choice rank, and the chain object itself. */
module ForkChoice {
  import opened Types
  import opened Quorum
  import opened Registry
  import opened Derive
  import opened Consensus

  // ---- finality and rank --------------------------------------------------------------

  /** `is_final` for the block at height i. */
  predicate IsFinal(cfg: Config, blocks: seq<Block>, i: nat)
    requires i < |blocks|
  {
    i == 0 ||
    var validators := ValidatorSet(cfg, Bodies(blocks[..i]));
    validators != {} && |CommitSigners(cfg, blocks[i]) * validators| >= QuorumSize(|validators|)
  }

  /** The greatest finalized height below n. */
  function FinalBelow(cfg: Config, blocks: seq<Block>, n: nat): nat
    requires n <= |blocks|
  {
    if n <= 1 then 0 else if IsFinal(cfg, blocks, n - 1) then n - 1 else FinalBelow(cfg, blocks, n - 1)
  }

  function FinalizedHeight(cfg: Config, blocks: seq<Block>): nat {
    FinalBelow(cfg, blocks, |blocks|)
  }

  function TipWeight(cfg: Config, blocks: seq<Block>): nat
    requires blocks != []
  {
    var n := |blocks| - 1;
    if n == 0 then 0 else |CommitSigners(cfg, blocks[n]) * ValidatorSet(cfg, Bodies(blocks[..n]))|
  }

  datatype Rank = Rank(finalized: nat, length: nat, tipWeight: nat)

  function ForkChoiceRank(cfg: Config, blocks: seq<Block>): Rank
    requires blocks != []
  {
    Rank(FinalizedHeight(cfg, blocks), |blocks|, TipWeight(cfg, blocks))
  }

  predicate RankLess(a: Rank, b: Rank) {
    || a.finalized < b.finalized
    || (a.finalized == b.finalized && a.length < b.length)
    || (a.finalized == b.finalized && a.length == b.length && a.tipWeight < b.tipWeight)
  }

  function TipHash(cfg: Config, blocks: seq<Block>): Hash
    requires blocks != []
  {
    BlockHash(cfg, blocks[|blocks| - 1])
  }

  /** `_reverts_our_finality`: the candidate drops or rewrites a block this chain has finalized. */
  predicate Reverts(cfg: Config, ours: seq<Block>, candidate: seq<Block>) {
    exists i | 0 <= i < |ours| :: Rewrites(cfg, ours, candidate, i)
  }

  predicate Rewrites(cfg: Config, ours: seq<Block>, candidate: seq<Block>, i: nat)
    requires i < |ours|
  {
    IsFinal(cfg, ours, i) && (i >= |candidate| || BlockHash(cfg, candidate[i]) != BlockHash(cfg, ours[i]))
  }

  /** The candidate out-ranks ours, or ties and has the lower tip hash. */
  predicate Prefers(cfg: Config, ours: seq<Block>, candidate: seq<Block>)
    requires ours != [] && candidate != []
  {
    var a, b := ForkChoiceRank(cfg, ours), ForkChoiceRank(cfg, candidate);
    RankLess(a, b) || (a == b && TipHash(cfg, candidate) < TipHash(cfg, ours))
  }

  /** When `replace_chain` adopts the candidate. */
  ghost predicate Adopts(cfg: Config, ours: seq<Block>, candidate: seq<Block>)
    requires ours != []
  {
    && candidate != []
    && ValidChain(cfg, candidate)
    && !Reverts(cfg, ours, candidate)
    && Prefers(cfg, ours, candidate)
  }

  // ---- the mempool -------------------------------------------------------------------

  function CommittedHashes(cfg: Config, blocks: seq<Block>): set<Hash> {
    set i, j | 0 <= i < |blocks| && 0 <= j < |blocks[i].transactions| :: TxHash(cfg, blocks[i].transactions[j])
  }

  /** The pooled transactions whose hash is not among those committed, in their order. */
  function Uncommitted(cfg: Config, pool: seq<Transaction>, committed: set<Hash>): seq<Transaction> {
    if pool == [] then []
    else
      var n := |pool| - 1;
      Uncommitted(cfg, pool[..n], committed) + if TxHash(cfg, pool[n]) in committed then [] else [pool[n]]
  }

  /** Exactly the uncommitted ones are kept: none that is committed, and none other lost. */
  lemma {:induction false} UncommittedKeeps(cfg: Config, pool: seq<Transaction>, committed: set<Hash>)
    ensures forall t :: t in Uncommitted(cfg, pool, committed) <==> t in pool && TxHash(cfg, t) !in committed
    decreases |pool|
  {
    if pool != [] {
      var n := |pool| - 1;
      UncommittedKeeps(cfg, pool[..n], committed);
      assert pool == pool[..n] + [pool[n]];
    }
  }

  // ---- the chain object ----------------------------------------------------------------

  /** A validator's identity and its signing function. */
  datatype Signer = Signer(key: Key, sign: Message -> Signature)

  /** The key signs so that its signatures verify. */
  ghost predicate SignsProperly(cfg: Config, s: Signer) {
    forall m :: Verifies(cfg, s.key, m, s.sign(m))
  }

  /** Indices are positions, each block links to the one before it, and the first is the genesis block. */
  ghost predicate Linked(cfg: Config, blocks: seq<Block>) {
    && blocks != []
    && BlockHash(cfg, blocks[0]) == BlockHash(cfg, GenesisBlock())
    && (forall i | 0 <= i < |blocks| :: blocks[i].index == i)
    && (forall i | 1 <= i < |blocks| :: LinkedAt(cfg, blocks, i))
  }

  predicate LinkedAt(cfg: Config, blocks: seq<Block>, i: nat)
    requires 1 <= i < |blocks|
  {
    blocks[i].previousHash == BlockHash(cfg, blocks[i - 1])
  }

  lemma ValidIsLinked(cfg: Config, blocks: seq<Block>)
    requires CollisionFree(cfg) && ValidChain(cfg, blocks)
    ensures Linked(cfg, blocks)
  {
    hide TxsOk, ScheduledProposer, CollisionFree;
    IndicesAreHeights(cfg, blocks);
    forall i | 1 <= i < |blocks| ensures LinkedAt(cfg, blocks, i) {
      assert BlockOkAt(cfg, blocks, i);
      assert blocks[..i][|blocks[..i]| - 1] == blocks[i - 1];
    }
  }

  function UnsignedBlock(cfg: Config, blocks: seq<Block>, pool: seq<Transaction>, view: int, votes: map<Key, Signature>,
                         timestamp: int): Block
    requires blocks != []
  {
    Block(|blocks|, BlockHash(cfg, blocks[|blocks| - 1]), pool, timestamp, view, NO_KEY, None, map[], votes)
  }

  /** The block with its producer named first and the header that names it then signed. */
  function SignedBlock(cfg: Config, b: Block, s: Signer): Block {
    var named := b.(producer := s.key);
    named.(producerSignature := Some(s.sign(HeaderMessage(HeaderOf(cfg, named)))))
  }

  /** `validator_set(height)`, defined up to the next height; below zero no block is replayed. */
  function ValidatorsAt(cfg: Config, blocks: seq<Block>, height: int): set<Key>
    requires height <= |blocks|
  {
    ValidatorSet(cfg, Bodies(blocks[..Max(0, height)]))
  }

  class Blockchain {
    const cfg: Config
    var blocks: seq<Block>
    var mempool: seq<Transaction>

    ghost predicate Valid()
      reads this
    {
      CollisionFree(cfg) && Linked(cfg, blocks)
    }

    constructor (cfg: Config)
      requires CollisionFree(cfg)
      ensures Valid() && this.cfg == cfg && blocks == [GenesisBlock()] && mempool == []
    {
      this.cfg := cfg;
      blocks, mempool := [GenesisBlock()], [];
    }

    /** `validator_set`, for any bound; below zero no block is replayed, and beyond the next height it raises. */
    method ValidatorSetAt(upto: int) returns (validators: Outcome<set<Key>>)
      requires Valid()
      ensures validators.Raised? <==> upto > |blocks|
      ensures validators.Returned? ==> validators.value == ValidatorsAt(cfg, blocks, upto)
    {
      validators := ValidatorsBefore(cfg, blocks, upto);
      if upto <= |blocks| {
        BelowZeroIsZero(cfg, blocks, upto);
        ReplayedValidatorsAreDerived(cfg, blocks, Max(0, upto));
      }
    }

    method AddTransaction(tx: Transaction)
      requires Valid()
      modifies this`mempool
      ensures mempool == old(mempool) + [tx]
    {
      mempool := mempool + [tx];
    }

    /** `add_block`: packs the pool into a linked block; a given producer signs the header that names it. */
    method AddBlock(producer: Option<Signer>, view: int, votes: map<Key, Signature>, timestamp: int) returns (b: Block)
      requires Valid()
      modifies this`blocks, this`mempool
      ensures Valid() && blocks == old(blocks) + [b] && mempool == []
      ensures
        var unsigned := UnsignedBlock(cfg, old(blocks), old(mempool), view, votes, timestamp);
        b == if producer.Some? then SignedBlock(cfg, unsigned, producer.value) else unsigned
      ensures producer.Some? && SignsProperly(cfg, producer.value) ==> ProducerSignatureOk(cfg, b)
    {
      b := UnsignedBlock(cfg, blocks, mempool, view, votes, timestamp);
      if producer.Some? {
        b := b.(producer := producer.value.key);
        b := b.(producerSignature := Some(producer.value.sign(HeaderMessage(HeaderOf(cfg, b)))));
        assert HeaderOf(cfg, b) == HeaderOf(cfg, b.(producerSignature := None));
      }
      AppendLinks(cfg, blocks, b);
      blocks := blocks + [b];
      mempool := [];
    }

    /** `replace_chain`. */
    method ReplaceChain(candidate: seq<Block>) returns (adopted: Outcome<bool>)
      requires Valid()
      modifies this
      ensures Valid()
      ensures adopted.Raised? <==> candidate == []
      ensures adopted == Returned(true) <==> Adopts(cfg, old(blocks), candidate)
      ensures adopted != Returned(true) ==> blocks == old(blocks) && mempool == old(mempool)
      ensures adopted == Returned(true) ==>
        && blocks == candidate
        && mempool == Uncommitted(cfg, old(mempool), CommittedHashes(cfg, candidate))
        && forall t | t in mempool :: TxHash(cfg, t) !in CommittedHashes(cfg, blocks)
    {
      var verdict := IsValidChain(cfg, candidate);
      if verdict.Raised? {
        return Raised;
      }
      if !verdict.value {
        return Returned(false);
      }
      ValidIsLinked(cfg, candidate);
      if Reverts(cfg, blocks, candidate) {
        return Returned(false);
      }
      var ours, theirs := ForkChoiceRank(cfg, blocks), ForkChoiceRank(cfg, candidate);
      if RankLess(theirs, ours) {
        return Returned(false);
      }
      if theirs == ours && TipHash(cfg, candidate) >= TipHash(cfg, blocks) {
        return Returned(false);
      }
      UncommittedKeeps(cfg, mempool, CommittedHashes(cfg, candidate));
      blocks := candidate;
      mempool := Uncommitted(cfg, mempool, CommittedHashes(cfg, blocks));
      return Returned(true);
    }
  }

  lemma BelowZeroIsZero(cfg: Config, blocks: seq<Block>, upto: int)
    requires Linked(cfg, blocks) && upto <= |blocks|
    ensures ReplayedValidators(cfg, blocks, upto) == ReplayedValidators(cfg, blocks, Max(0, upto))
  {
    assert blocks[0].index == 0;
    assert upto <= 0 ==> Span(blocks, upto) == 0 == Span(blocks, 0);
  }

  lemma AppendLinks(cfg: Config, blocks: seq<Block>, b: Block)
    requires Linked(cfg, blocks)
    requires b.index == |blocks| && b.previousHash == BlockHash(cfg, blocks[|blocks| - 1])
    ensures Linked(cfg, blocks + [b])
  {
    var longer := blocks + [b];
    forall i | 1 <= i < |longer| ensures LinkedAt(cfg, longer, i) {
      if i < |blocks| {
        assert LinkedAt(cfg, blocks, i);
      }
    }
  }

  // ---- fork choice is an order -------------------------------------------------------------

  /** Two valid chains with different tips, neither rewriting what the other finalized: exactly one node switches. */
  lemma ExactlyOneAdopts(cfg: Config, a: seq<Block>, b: seq<Block>)
    requires ValidChain(cfg, a) && ValidChain(cfg, b)
    requires !Reverts(cfg, a, b) && !Reverts(cfg, b, a)
    requires TipHash(cfg, a) != TipHash(cfg, b)
    ensures Adopts(cfg, a, b) <==> !Adopts(cfg, b, a)
  {
  }

  lemma PreferenceTransitive(cfg: Config, a: seq<Block>, b: seq<Block>, c: seq<Block>)
    requires a != [] && b != [] && c != []
    requires Prefers(cfg, a, b) && Prefers(cfg, b, c)
    ensures Prefers(cfg, a, c)
  {
  }

  /** A node that keeps adopting never comes back to a chain it left. */
  lemma {:induction false} NoAdoptionCycle(cfg: Config, chains: seq<seq<Block>>)
    requires |chains| >= 2 && forall i | 0 <= i < |chains| :: chains[i] != []
    requires forall i | 0 <= i < |chains| - 1 :: Adopts(cfg, chains[i], chains[i + 1])
    ensures Prefers(cfg, chains[0], chains[|chains| - 1])
    ensures chains[|chains| - 1] != chains[0]
    decreases |chains|
  {
    hide ValidChain, Reverts, ForkChoiceRank, TipHash;
    var n := |chains| - 1;
    assert Adopts(cfg, chains[n - 1], chains[n - 1 + 1]);
    if n >= 2 {
      var shorter := chains[..n];
      forall i | 0 <= i < |shorter| - 1 ensures Adopts(cfg, shorter[i], shorter[i + 1]) {
        assert Adopts(cfg, chains[i], chains[i + 1]);
      }
      NoAdoptionCycle(cfg, shorter);
      PreferenceTransitive(cfg, chains[0], chains[n - 1], chains[n]);
    }
  }

  /** Two chains either of whose nodes may switch to the other. */
  ghost predicate Rivals(cfg: Config, a: seq<Block>, b: seq<Block>) {
    && ValidChain(cfg, a) && ValidChain(cfg, b)
    && !Reverts(cfg, a, b) && !Reverts(cfg, b, a)
    && TipHash(cfg, a) != TipHash(cfg, b)
  }

  /** Every other node adopts chain m once it hears it, and the node on m adopts none of theirs. */
  ghost predicate Wins(cfg: Config, chains: seq<seq<Block>>, m: nat)
    requires m < |chains| && forall i | 0 <= i < |chains| :: chains[i] != []
  {
    forall i | 0 <= i < |chains| && i != m :: Adopts(cfg, chains[i], chains[m]) && !Adopts(cfg, chains[m], chains[i])
  }

  lemma RivalsChoose(cfg: Config, a: seq<Block>, b: seq<Block>)
    requires Rivals(cfg, a, b)
    ensures Adopts(cfg, a, b) <==> Prefers(cfg, a, b)
    ensures Adopts(cfg, b, a) <==> Prefers(cfg, b, a)
    ensures Prefers(cfg, a, b) <==> !Prefers(cfg, b, a)
  {
  }

  /**
   * The network converges: among any number of pairwise rival chains exactly one is the chain everybody else
   * adopts.
   */
  lemma {:induction false} OneChainWins(cfg: Config, chains: seq<seq<Block>>)
    requires chains != [] && forall i | 0 <= i < |chains| :: chains[i] != []
    requires forall i, j | 0 <= i < j < |chains| :: Rivals(cfg, chains[i], chains[j])
    ensures exists m: nat :: m < |chains| && Wins(cfg, chains, m)
    decreases |chains|
  {
    hide Rivals, Adopts, Prefers;
    var n := |chains| - 1;
    if n == 0 {
      assert Wins(cfg, chains, 0);
    } else {
      var shorter := chains[..n];
      OneChainWins(cfg, shorter);
      var m: nat :| m < n && Wins(cfg, shorter, m);
      LastChallenger(cfg, chains, m);
    }
  }

  /** The last chain either beats the winner among the others, and then all of them, or loses to it. */
  lemma LastChallenger(cfg: Config, chains: seq<seq<Block>>, m: nat)
    requires |chains| >= 2 && forall i | 0 <= i < |chains| :: chains[i] != []
    requires forall i, j | 0 <= i < j < |chains| :: Rivals(cfg, chains[i], chains[j])
    requires m < |chains| - 1 && Wins(cfg, chains[..|chains| - 1], m)
    ensures Wins(cfg, chains, m) || Wins(cfg, chains, |chains| - 1)
  {
    hide Rivals, Adopts, Prefers;
    var n := |chains| - 1;
    var shorter := chains[..n];
    RivalsChoose(cfg, chains[m], chains[n]);
    assert forall i | 0 <= i < n :: shorter[i] == chains[i];
    if Prefers(cfg, chains[m], chains[n]) {
      forall i | 0 <= i < n ensures Adopts(cfg, chains[i], chains[n]) && !Adopts(cfg, chains[n], chains[i]) {
        RivalsChoose(cfg, chains[i], chains[n]);
        if i != m {
          Pairwise(cfg, chains, i, m);
          assert Adopts(cfg, shorter[i], shorter[m]);
          PreferenceTransitive(cfg, chains[i], chains[m], chains[n]);
        }
      }
      assert Wins(cfg, chains, n);
    } else {
      forall i | 0 <= i < |chains| && i != m
        ensures Adopts(cfg, chains[i], chains[m]) && !Adopts(cfg, chains[m], chains[i])
      {
        if i < n {
          assert Adopts(cfg, shorter[i], shorter[m]) && !Adopts(cfg, shorter[m], shorter[i]);
        }
      }
      assert Wins(cfg, chains, m);
    }
  }

  lemma Pairwise(cfg: Config, chains: seq<seq<Block>>, i: nat, j: nat)
    requires i < |chains| && j < |chains| && i != j
    requires forall i, j | 0 <= i < j < |chains| :: Rivals(cfg, chains[i], chains[j])
    ensures chains[i] != [] && chains[j] != []
    ensures Adopts(cfg, chains[i], chains[j]) <==> Prefers(cfg, chains[i], chains[j])
  {
    hide Adopts, Prefers;
    if i < j {
      RivalsChoose(cfg, chains[i], chains[j]);
    } else {
      RivalsChoose(cfg, chains[j], chains[i]);
    }
  }
}
