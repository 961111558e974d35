/**
 * network/community.py: what a node does with what reaches it, said of the blocks it holds, the votes it has and
 * the messages it sends.
 */
module Conduct {
  import opened Types
  import opened Quorum
  import opened Derive
  import opened Consensus
  import opened ForkChoice
  import opened Protocol
  import opened Preference

  // ---- commits ---------------------------------------------------------------------------------------

  /** Block i, and no block before it, has that hash. */
  ghost predicate FirstOfHash(cfg: Config, blocks: seq<Block>, i: nat, hash: Hash) {
    && i < |blocks| && cfg.hashHeader(HeaderOf(cfg, blocks[i])) == hash
    && forall j | 0 <= j < i :: cfg.hashHeader(HeaderOf(cfg, blocks[j])) != hash
  }

  lemma {:induction false} FindsBlock(cfg: Config, blocks: seq<Block>, hash: Hash, i: nat)
    ensures FindBlock(cfg, blocks, hash) == Some(i) <==> FirstOfHash(cfg, blocks, i, hash)
    decreases |blocks|
  {
    hide HeaderOf;
    if blocks != [] && BlockHash(cfg, blocks[0]) != hash && i > 0 {
      FindsBlock(cfg, blocks[1..], hash, i - 1);
      assert i < |blocks| ==> blocks[1..][i - 1] == blocks[i];
      if FirstOfHash(cfg, blocks[1..], i - 1, hash) {
        forall j | 0 <= j < i ensures cfg.hashHeader(HeaderOf(cfg, blocks[j])) != hash {
          assert j > 0 ==> blocks[1..][j - 1] == blocks[j];
        }
      }
      if FirstOfHash(cfg, blocks, i, hash) {
        forall j | 0 <= j < i - 1 ensures cfg.hashHeader(HeaderOf(cfg, blocks[1..][j])) != hash {
          assert blocks[1..][j] == blocks[j + 1];
        }
      }
    }
  }

  /** A commit that a validator of the block signed and that is not on it yet. */
  ghost predicate Welcome(cfg: Config, blocks: seq<Block>, i: nat, k: Key, signature: Signature)
    requires i < |blocks|
  {
    && k !in blocks[i].commits && k in ValidatorSet(cfg, Bodies(blocks[..i]))
    && cfg.verify(k, HeaderMessage(HeaderOf(cfg, blocks[i])), signature)
  }

  /** The same blocks, but for one more commit on block i. */
  ghost predicate OneCommitMore(before: seq<Block>, after: seq<Block>, i: nat, k: Key, signature: Signature) {
    && |after| == |before| && i < |before|
    && (forall j | 0 <= j < |before| && j != i :: after[j] == before[j])
    && after[i] == before[i].(commits := before[i].commits[k := signature])
  }

  /** `on_commit`: a welcome commit on a block the node holds is put on it and passed on. */
  lemma CommitTaken(cfg: Config, s: NodeState, hash: Hash, k: Key, signature: Signature, i: nat)
    requires FirstOfHash(cfg, s.blocks, i, hash) && Welcome(cfg, s.blocks, i, k, signature)
    ensures
      var after := AfterCommit(cfg, s, hash, k, signature);
      && OneCommitMore(s.blocks, after.blocks, i, k, signature)
      && after.outbox == s.outbox + [CommitMessage(hash, k, signature)]
      && after.pool == s.pool && after.votes == s.votes && after.advanced == s.advanced
  {
    FindsBlock(cfg, s.blocks, hash, i);
    hide HeaderOf, ValidatorSet, FindBlock;
  }

  /** Any other changes nothing. */
  lemma CommitIgnored(cfg: Config, s: NodeState, hash: Hash, k: Key, signature: Signature)
    requires forall i: nat | FirstOfHash(cfg, s.blocks, i, hash) :: !Welcome(cfg, s.blocks, i, k, signature)
    ensures AfterCommit(cfg, s, hash, k, signature) == s
  {
    var at := FindBlock(cfg, s.blocks, hash);
    if at.Some? {
      FindsBlock(cfg, s.blocks, hash, at.value);
      assert !Welcome(cfg, s.blocks, at.value, k, signature);
    }
    hide HeaderOf, ValidatorSet, FindBlock, FirstOfHash;
  }

  /** `_commit_if_validator`: on a block above genesis, once, by a validator of it, and told to everybody. */
  lemma OwnCommitConduct(cfg: Config, s: NodeState, me: Signer, i: nat)
    requires i < |s.blocks|
    ensures
      var after, header := AfterOwnCommit(cfg, s, me, i), HeaderOf(cfg, s.blocks[i]);
      if i == 0 || me.key in s.blocks[i].commits || me.key !in ValidatorSet(cfg, Bodies(s.blocks[..i])) then after == s
      else
        var signature := me.sign(HeaderMessage(header));
        && OneCommitMore(s.blocks, after.blocks, i, me.key, signature)
        && after.outbox == s.outbox + [CommitMessage(cfg.hashHeader(header), me.key, signature)]
        && after.pool == s.pool && after.votes == s.votes && after.advanced == s.advanced
  {
    hide HeaderOf, ValidatorSet;
  }

  // ---- blocks and chains --------------------------------------------------------------------------------

  /**
   * `on_block`: a block that keeps the chain valid goes on top, with this node's commit if that is due; its
   * transactions leave the pool; and a block of a later view settles its height.
   */
  lemma BlockTaken(cfg: Config, s: NodeState, me: Signer, b: Block)
    requires s.blocks != [] && ValidChain(cfg, s.blocks + [b])
    ensures
      var after, n := AfterBlock(cfg, s, me, b), |s.blocks|;
      var mine := me.key !in b.commits && me.key in ValidatorSet(cfg, Bodies(s.blocks));
      var signature := me.sign(HeaderMessage(HeaderOf(cfg, b)));
      && |after.blocks| == n + 1 && after.blocks[..n] == s.blocks
      && after.blocks[n] == (if mine then b.(commits := b.commits[me.key := signature]) else b)
      && after.outbox
         == s.outbox + (if mine then [CommitMessage(cfg.hashHeader(HeaderOf(cfg, b)), me.key, signature)] else [])
      && (forall h :: h in after.advanced <==> h in s.advanced || (h == n && b.view != 0 && b.view > 0))
      && (forall tx :: tx in after.pool <==> tx in s.pool && !Holds(cfg, [b], cfg.hashContent(tx.content)))
      && after.votes == s.votes
  {
    var longer := s.blocks + [b];
    assert longer[..|s.blocks|] == s.blocks;
    forall tx ensures tx in Uncommitted(cfg, s.pool, CommittedHashes(cfg, [b]))
                  <==> tx in s.pool && !Holds(cfg, [b], cfg.hashContent(tx.content)) {
      PoolExactly(cfg, s.pool, [b], tx);
    }
    hide ValidChain, ValidatorSet, HeaderOf, Uncommitted, CommittedHashes, Holds;
  }

  /** Any other makes it ask the sender for its chain. */
  lemma BlockRefused(cfg: Config, s: NodeState, me: Signer, b: Block)
    requires !ValidChain(cfg, s.blocks + [b])
    ensures AfterBlock(cfg, s, me, b) == s.(outbox := s.outbox + [ChainRequest])
  {
    hide ValidChain, AfterOwnCommit;
  }

  /** `on_chain_response`: the better chain replaces the node's own, and what it holds leaves the pool. */
  lemma ChainConduct(cfg: Config, s: NodeState, candidate: seq<Block>, f: nat, g: nat)
    requires LastAgreed(cfg, s.blocks, f) && LastAgreed(cfg, candidate, g)
    ensures
      var ours, after := s.blocks, AfterChain(cfg, s, candidate);
      if && ValidChain(cfg, candidate) && Respects(cfg, ours, candidate)
         && (|| g > f
             || (g == f && |candidate| > |ours|)
             || (g == f && |candidate| == |ours| && TipVotes(cfg, candidate) > TipVotes(cfg, ours))
             || (g == f && |candidate| == |ours| && TipVotes(cfg, candidate) == TipVotes(cfg, ours)
                 && cfg.hashHeader(HeaderOf(cfg, candidate[|candidate| - 1]))
                    < cfg.hashHeader(HeaderOf(cfg, ours[|ours| - 1]))))
      then
        && after.blocks == candidate && after.votes == s.votes && after.advanced == s.advanced
        && after.outbox == s.outbox
        && forall tx :: tx in after.pool <==> tx in s.pool && !Holds(cfg, candidate, cfg.hashContent(tx.content))
      else after == s
  {
    ChoiceExactly(cfg, s.blocks, candidate, f, g);
    forall tx ensures tx in Uncommitted(cfg, s.pool, CommittedHashes(cfg, candidate))
                  <==> tx in s.pool && !Holds(cfg, candidate, cfg.hashContent(tx.content)) {
      PoolExactly(cfg, s.pool, candidate, tx);
    }
    hide Adopts, ValidChain, Respects, HeaderOf, Uncommitted, CommittedHashes, Holds, TipVotes;
  }

  // ---- view changes --------------------------------------------------------------------------------------

  /** The votes recorded for one slot. */
  ghost predicate Recorded(table: VoteTable, height: int, view: int, k: Key, signature: Signature) {
    (height, view) in table && k in table[(height, view)] && table[(height, view)][k] == signature
  }

  /** A validator's vote for a positive view of a height up to the next one, signed, and its first for that view. */
  ghost predicate Timely(cfg: Config, s: NodeState, height: int, view: int, k: Key, signature: Signature) {
    && height <= |s.blocks| && view > 0
    && k in ValidatorSet(cfg, Bodies(s.blocks[..if height < 0 then 0 else height]))
    && cfg.verify(k, ViewChangeMessage(height, view), signature)
    && forall other :: !Recorded(s.votes, height, view, k, other)
  }

  lemma TimelyExactly(cfg: Config, s: NodeState, height: int, view: int, k: Key, signature: Signature)
    ensures Records(cfg, s, height, view, k, signature) <==> Timely(cfg, s, height, view, k, signature)
  {
    hide ValidatorSet;
    var votes := VotesIn(s.votes, (height, view));
    if k in votes {
      assert Recorded(s.votes, height, view, k, votes[k]);
    }
  }

  /** More than two thirds voted, the height is the next and still open, and it is this node's turn. */
  ghost predicate Due(cfg: Config, s: NodeState, me: Signer, height: int, view: int, votes: map<Key, Signature>) {
    && height == |s.blocks| && height !in s.advanced && view > 0
    && var validators := ValidatorSet(cfg, Bodies(s.blocks));
    && 3 * |votes| > 2 * |validators|
    && me.key in validators && |Lesser(validators, me.key)| == (height + view) % |validators|
  }

  lemma DueExactly(cfg: Config, s: NodeState, me: Signer, height: int, view: int)
    ensures Ready(cfg, s, me, height, view) <==> Due(cfg, s, me, height, view, VotesIn(s.votes, (height, view)))
  {
    hide ValidatorSet, QuorumSize, ScheduledProposer, Lesser;
    if height == |s.blocks| && view > 0 {
      var validators := ValidatorSet(cfg, Bodies(s.blocks));
      assert s.blocks[..height] == s.blocks;
      QuorumIsTwoThirds(|validators|, |VotesIn(s.votes, (height, view))|);
      ProposerExactly(validators, height, view, me.key);
    }
  }

  /** The block a node proposes: the pool on top of its chain, signed, with its own commit if it is a validator. */
  ghost predicate Proposes(cfg: Config, s: NodeState, me: Signer, view: int, votes: map<Key, Signature>, timestamp: int,
                           b: Block)
    requires s.blocks != []
  {
    var n, own := |s.blocks|, me.sign(HeaderMessage(HeaderOf(cfg, b)));
    && b.index == n && b.previousHash == cfg.hashHeader(HeaderOf(cfg, s.blocks[n - 1]))
    && b.transactions == s.pool && b.timestamp == timestamp && b.view == view && b.viewVotes == votes
    && b.producer == me.key && b.producerSignature == Some(own)
    && b.commits == if me.key in ValidatorSet(cfg, Bodies(s.blocks)) then map[me.key := own] else map[]
  }

  /** `mine_and_broadcast_block`: the block is added, the pool emptied, and the commit sent before the block. */
  lemma ProposalConduct(cfg: Config, s: NodeState, me: Signer, view: int, votes: map<Key, Signature>, timestamp: int)
    requires s.blocks != []
    ensures
      var after, n := AfterProposal(cfg, s, me, view, votes, timestamp), |s.blocks|;
      && |after.blocks| == n + 1 && after.blocks[..n] == s.blocks
      && var b := after.blocks[n];
      && Proposes(cfg, s, me, view, votes, timestamp, b)
      && after.outbox
         == s.outbox
            + (if me.key in ValidatorSet(cfg, Bodies(s.blocks))
               then [CommitMessage(cfg.hashHeader(HeaderOf(cfg, b)), me.key, me.sign(HeaderMessage(HeaderOf(cfg, b))))]
               else [])
            + [BlockMessage(b)]
      && after.pool == [] && after.votes == s.votes && after.advanced == s.advanced
  {
    hide ValidatorSet, MerkleRoot;
  }

  /** `on_view_change`: a timely vote is recorded and passed on, and starts a proposal when one is due. */
  lemma VoteConduct(cfg: Config, s: NodeState, me: Signer, height: int, view: int, k: Key, signature: Signature,
                    timestamp: int)
    requires s.blocks != []
    ensures
      var after := AfterVote(cfg, s, me, height, view, k, signature, timestamp);
      if !Timely(cfg, s, height, view, k, signature) then after == s
      else
        var votes := VotesIn(s.votes, (height, view))[k := signature];
        var voted := s.(votes := s.votes[(height, view) := votes],
                        outbox := s.outbox + [ViewChangeVote(height, view, k, signature)]);
        after == if Due(cfg, s, me, height, view, votes)
                 then AfterProposal(cfg, voted.(advanced := s.advanced + {height}), me, view, votes, timestamp)
                 else voted
  {
    TimelyExactly(cfg, s, height, view, k, signature);
    hide Records, Timely, AfterProposal, Ready, Due;
    if Timely(cfg, s, height, view, k, signature) {
      var votes := VotesIn(s.votes, (height, view))[k := signature];
      var voted := s.(votes := s.votes[(height, view) := votes],
                      outbox := s.outbox + [ViewChangeVote(height, view, k, signature)]);
      DueExactly(cfg, voted, me, height, view);
      DueBefore(cfg, s, voted, me, height, view, votes);
    }
  }

  lemma DueBefore(cfg: Config, s: NodeState, t: NodeState, me: Signer, height: int, view: int, votes: map<Key,
                  Signature>)
    requires t.blocks == s.blocks && t.advanced == s.advanced
    ensures Due(cfg, t, me, height, view, votes) <==> Due(cfg, s, me, height, view, votes)
  {
    hide ValidatorSet, Lesser;
  }

  /** A vote whose height the chain does not reach makes the replay run off its end, if it gets that far. */
  lemma OffTheEnd(cfg: Config, s: NodeState, height: int, view: int, k: Key, signature: Signature)
    ensures Raises(cfg, s, height, view, k, signature)
       <==> height > |s.blocks| && view > 0 && cfg.verify(k, ViewChangeMessage(height, view), signature)
    ensures Raises(cfg, s, height, view, k, signature) ==> !Timely(cfg, s, height, view, k, signature)
  {
  }
}
