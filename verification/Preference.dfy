/**
 * blockchain/blockchain.py: which of two chains a node keeps, read off their blocks: who validly signed which block,
 * and how many they are.
 */
module Preference {
  import opened Types
  import opened Plain
  import opened Quorum
  import opened Derive
  import opened Consensus
  import opened ForkChoice

  // ---- votes and finality ------------------------------------------------------------------------------

  /** The validators of block i whose commit on it verifies. */
  function Voters(cfg: Config, blocks: seq<Block>, i: nat): set<Key>
    requires i < |blocks|
  {
    set k | k in ValidatorSet(cfg, Bodies(blocks[..i])) && k in blocks[i].commits
            && cfg.verify(k, HeaderMessage(HeaderOf(cfg, blocks[i])), blocks[i].commits[k])
  }

  /** Genesis, or a block that more than two thirds of its validators signed. */
  predicate Agreed(cfg: Config, blocks: seq<Block>, i: nat)
    requires i < |blocks|
  {
    i > 0 ==>
      var n := |ValidatorSet(cfg, Bodies(blocks[..i]))|;
      n > 0 && 3 * |Voters(cfg, blocks, i)| > 2 * n
  }

  lemma FinalExactly(cfg: Config, blocks: seq<Block>, i: nat)
    requires i < |blocks|
    ensures IsFinal(cfg, blocks, i) <==> Agreed(cfg, blocks, i)
  {
    if i > 0 {
      var validators := ValidatorSet(cfg, Bodies(blocks[..i]));
      VotersAreSigners(cfg, blocks, i);
      QuorumIsTwoThirds(|validators|, |Voters(cfg, blocks, i)|);
      hide ValidatorSet, Voters, QuorumSize, CommitSigners;
      assert validators == {} <==> |validators| == 0;
    }
  }

  lemma VotersAreSigners(cfg: Config, blocks: seq<Block>, i: nat)
    requires i < |blocks|
    ensures CommitSigners(cfg, blocks[i]) * ValidatorSet(cfg, Bodies(blocks[..i])) == Voters(cfg, blocks, i)
  {
    hide ValidatorSet, HeaderOf;
  }

  /** Block f is agreed and none above it is. */
  ghost predicate LastAgreed(cfg: Config, blocks: seq<Block>, f: nat) {
    && f < |blocks| && Agreed(cfg, blocks, f)
    && forall i | f < i < |blocks| :: !Agreed(cfg, blocks, i)
  }

  lemma {:induction false} HeightExactly(cfg: Config, blocks: seq<Block>, n: nat)
    requires 0 < n <= |blocks|
    ensures FinalBelow(cfg, blocks, n) < n && Agreed(cfg, blocks, FinalBelow(cfg, blocks, n))
    ensures forall i | FinalBelow(cfg, blocks, n) < i < n :: !Agreed(cfg, blocks, i)
    decreases n
  {
    hide Agreed, IsFinal;
    if n == 1 {
      assert Agreed(cfg, blocks, 0) by { GenesisAgreed(cfg, blocks); }
    } else {
      FinalExactly(cfg, blocks, n - 1);
      if !IsFinal(cfg, blocks, n - 1) {
        HeightExactly(cfg, blocks, n - 1);
      }
    }
  }

  lemma GenesisAgreed(cfg: Config, blocks: seq<Block>)
    requires blocks != []
    ensures Agreed(cfg, blocks, 0)
  {
  }

  /** The finalized height is that of the last agreed block. */
  lemma FinalizedExactly(cfg: Config, blocks: seq<Block>, f: nat)
    requires blocks != []
    ensures FinalizedHeight(cfg, blocks) == f <==> LastAgreed(cfg, blocks, f)
  {
    HeightExactly(cfg, blocks, |blocks|);
    hide Agreed, FinalBelow;
  }

  // ---- the choice ---------------------------------------------------------------------------------------

  /** How many validators of the tip signed it; nobody signs genesis. */
  function TipVotes(cfg: Config, blocks: seq<Block>): nat
    requires blocks != []
  {
    if |blocks| == 1 then 0 else |Voters(cfg, blocks, |blocks| - 1)|
  }

  /** The candidate has every agreed block of ours. */
  ghost predicate Respects(cfg: Config, ours: seq<Block>, candidate: seq<Block>) {
    forall i | 0 <= i < |ours| && Agreed(cfg, ours, i) ::
      i < |candidate| && BlockHash(cfg, candidate[i]) == BlockHash(cfg, ours[i])
  }

  lemma RespectsExactly(cfg: Config, ours: seq<Block>, candidate: seq<Block>)
    ensures Respects(cfg, ours, candidate) <==> !Reverts(cfg, ours, candidate)
  {
    hide Agreed, IsFinal, BlockHash;
    forall i | 0 <= i < |ours| ensures IsFinal(cfg, ours, i) <==> Agreed(cfg, ours, i) {
      FinalExactly(cfg, ours, i);
    }
    if Respects(cfg, ours, candidate) {
      assert forall i | 0 <= i < |ours| :: !Rewrites(cfg, ours, candidate, i);
    } else {
      var i :| 0 <= i < |ours| && Agreed(cfg, ours, i)
               && !(i < |candidate| && BlockHash(cfg, candidate[i]) == BlockHash(cfg, ours[i]));
      assert Rewrites(cfg, ours, candidate, i);
    }
  }

  /**
   * A node adopts exactly the valid chains that have all it has agreed on and are better: agreed to a greater
   * height, else longer, else with more validators' votes on the tip, else of lower tip hash.
   */
  lemma ChoiceExactly(cfg: Config, ours: seq<Block>, candidate: seq<Block>, f: nat, g: nat)
    requires LastAgreed(cfg, ours, f) && LastAgreed(cfg, candidate, g)
    ensures Adopts(cfg, ours, candidate)
       <==> && ValidChain(cfg, candidate) && Respects(cfg, ours, candidate)
            && (|| g > f
                || (g == f && |candidate| > |ours|)
                || (g == f && |candidate| == |ours| && TipVotes(cfg, candidate) > TipVotes(cfg, ours))
                || (g == f && |candidate| == |ours| && TipVotes(cfg, candidate) == TipVotes(cfg, ours)
                    && BlockHash(cfg, candidate[|candidate| - 1]) < BlockHash(cfg, ours[|ours| - 1])))
  {
    RespectsExactly(cfg, ours, candidate);
    FinalizedExactly(cfg, ours, f);
    FinalizedExactly(cfg, candidate, g);
    WeightIsVotes(cfg, ours);
    WeightIsVotes(cfg, candidate);
    hide ValidChain, Reverts, Respects, Agreed, FinalizedHeight, TipWeight, TipVotes, BlockHash;
  }

  lemma WeightIsVotes(cfg: Config, blocks: seq<Block>)
    requires blocks != []
    ensures TipWeight(cfg, blocks) == TipVotes(cfg, blocks)
  {
    VotersAreSigners(cfg, blocks, |blocks| - 1);
    hide ValidatorSet, CommitSigners, Voters;
  }

  /** Two valid chains, each with all the other has agreed on. */
  ghost predicate Compatible(cfg: Config, a: seq<Block>, b: seq<Block>) {
    && ValidChain(cfg, a) && ValidChain(cfg, b) && Respects(cfg, a, b) && Respects(cfg, b, a)
  }

  /** Between chains equally final and equally long more validators' commits on the tip decide, whatever the hashes. */
  lemma MoreVotesWin(cfg: Config, a: seq<Block>, b: seq<Block>, f: nat)
    requires Compatible(cfg, a, b) && LastAgreed(cfg, a, f) && LastAgreed(cfg, b, f) && |a| == |b| > 1
    requires |Voters(cfg, b, |b| - 1)| > |Voters(cfg, a, |a| - 1)|
    ensures Adopts(cfg, a, b) && !Adopts(cfg, b, a)
  {
    ChoiceExactly(cfg, a, b, f, f);
    ChoiceExactly(cfg, b, a, f, f);
    hide Adopts, ValidChain, Respects, Voters, LastAgreed;
  }

  /** Length decides between chains equally final, whatever the votes. */
  lemma LongerWins(cfg: Config, a: seq<Block>, b: seq<Block>, f: nat)
    requires Compatible(cfg, a, b) && LastAgreed(cfg, a, f) && LastAgreed(cfg, b, f) && |b| > |a|
    ensures Adopts(cfg, a, b) && !Adopts(cfg, b, a)
  {
    ChoiceExactly(cfg, a, b, f, f);
    ChoiceExactly(cfg, b, a, f, f);
    hide Adopts, ValidChain, Respects, LastAgreed, TipVotes;
  }

  /** Finality decides first, whatever the length. */
  lemma MoreFinalWins(cfg: Config, a: seq<Block>, b: seq<Block>, f: nat, g: nat)
    requires Compatible(cfg, a, b) && LastAgreed(cfg, a, f) && LastAgreed(cfg, b, g) && g > f
    ensures Adopts(cfg, a, b) && !Adopts(cfg, b, a)
  {
    ChoiceExactly(cfg, a, b, f, g);
    ChoiceExactly(cfg, b, a, g, f);
    hide Adopts, ValidChain, Respects, LastAgreed, TipVotes;
  }

  // ---- the pool after a chain is adopted -----------------------------------------------------------------

  /** Some block of the chain holds a transaction of that content hash. */
  ghost predicate Holds(cfg: Config, blocks: seq<Block>, hash: Hash) {
    exists i, j, tx :: Placed(Bodies(blocks), i, j, tx) && cfg.hashContent(tx.content) == hash
  }

  lemma CommittedExactly(cfg: Config, blocks: seq<Block>, hash: Hash)
    ensures hash in CommittedHashes(cfg, blocks) <==> Holds(cfg, blocks, hash)
  {
    if hash in CommittedHashes(cfg, blocks) {
      var i, j :| 0 <= i < |blocks| && 0 <= j < |blocks[i].transactions|
                  && TxHash(cfg, blocks[i].transactions[j]) == hash;
      assert Placed(Bodies(blocks), i, j, blocks[i].transactions[j]);
    }
    if i, j, tx :| Placed(Bodies(blocks), i, j, tx) && cfg.hashContent(tx.content) == hash {
      assert blocks[i].transactions[j] == tx;
    }
  }

  /** The pool keeps exactly what no block of the chain holds. */
  lemma PoolExactly(cfg: Config, pool: seq<Transaction>, blocks: seq<Block>, tx: Transaction)
    ensures tx in Uncommitted(cfg, pool, CommittedHashes(cfg, blocks))
       <==> tx in pool && !Holds(cfg, blocks, cfg.hashContent(tx.content))
  {
    UncommittedKeeps(cfg, pool, CommittedHashes(cfg, blocks));
    CommittedExactly(cfg, blocks, cfg.hashContent(tx.content));
  }

  /** And it keeps its order: each transaction stays or goes by itself. */
  lemma {:induction false} PoolKeepsOrder(cfg: Config, first: seq<Transaction>, second: seq<Transaction>,
                                          committed: set<Hash>)
    ensures Uncommitted(cfg, first + second, committed)
         == Uncommitted(cfg, first, committed) + Uncommitted(cfg, second, committed)
    decreases |second|
  {
    if second == [] {
      assert first + second == first;
    } else {
      var n := |second| - 1;
      PoolKeepsOrder(cfg, first, second[..n], committed);
      var both := first + second;
      assert both[..|both| - 1] == first + second[..n] && both[|both| - 1] == second[n];
    }
  }
}
