/** network/community.py: the handlers of a node, over its mutable chain, vote table and outbox. */
module Node {
  import opened Types
  import opened Quorum
  import opened Consensus
  import opened ForkChoice
  import opened Runs
  import opened Protocol

  class AttestationNode {
    const signer: Signer
    const chain: Blockchain
    var viewVotes: VoteTable
    var viewAdvanced: set<int>
    var outbox: seq<Gossip>

    ghost predicate Valid()
      reads this, chain
    {
      chain.Valid() && GenuineVotes(chain.cfg, viewVotes)
    }

    ghost function State(): NodeState
      reads this, chain
    {
      NodeState(chain.blocks, chain.mempool, viewVotes, viewAdvanced, outbox)
    }

    constructor (signer: Signer, chain: Blockchain)
      requires chain.Valid()
      ensures Valid() && this.signer == signer && this.chain == chain
      ensures State() == NodeState(chain.blocks, chain.mempool, map[], {}, [])
    {
      this.signer, this.chain := signer, chain;
      viewVotes, viewAdvanced, outbox := map[], {}, [];
    }

    // ---- commit round ------------------------------------------------------------------------

    /** `_apply_commit`. */
    method ApplyCommit(blockHash: Hash, key: Key, signature: Signature) returns (attached: bool)
      requires Valid()
      modifies chain`blocks
      ensures Valid()
      ensures
        var at := FindBlock(chain.cfg, old(chain.blocks), blockHash);
        && (attached <==> at.Some? && CommitCounts(chain.cfg, old(chain.blocks), at.value, key, signature))
        && (attached ==> chain.blocks == WithCommit(old(chain.blocks), at.value, key, signature))
      ensures !attached ==> chain.blocks == old(chain.blocks)
      ensures NodeStep(chain.cfg, old(chain.blocks), chain.blocks)
      ensures ValidChain(chain.cfg, old(chain.blocks)) ==> ValidChain(chain.cfg, chain.blocks)
    {
      hide ValidChain, IsFinal;
      var found := FindBlock(chain.cfg, chain.blocks, blockHash);
      if found.None? {
        return false;
      }
      var i := found.value;
      var b := chain.blocks[i];
      if key in b.commits || !Verifies(chain.cfg, key, HeaderMessage(HeaderOf(chain.cfg, b)), signature) {
        return false;
      }
      var validators := chain.ValidatorSetAt(i);
      if key !in validators.value {
        return false;
      }
      Attach(i, key, signature);
      return true;
    }

    method Attach(i: nat, key: Key, signature: Signature)
      requires Valid() && i < |chain.blocks| && CommitCounts(chain.cfg, chain.blocks, i, key, signature)
      modifies chain`blocks
      ensures Valid()
      ensures chain.blocks == WithCommit(old(chain.blocks), i, key, signature)
      ensures NodeStep(chain.cfg, old(chain.blocks), chain.blocks)
      ensures ValidChain(chain.cfg, old(chain.blocks)) ==> ValidChain(chain.cfg, chain.blocks)
    {
      hide ValidChain, IsFinal;
      ghost var before := chain.blocks;
      CommitSafe(chain.cfg, before, i, key, signature);
      if ValidChain(chain.cfg, before) {
        CommitKeepsValid(chain.cfg, before, i, key, signature);
      }
      chain.blocks := chain.blocks[i := chain.blocks[i].(commits := chain.blocks[i].commits[key := signature])];
      assert AddsCommit(before, chain.blocks);
    }

    /** `on_commit`: a vote is relayed exactly when it is newly attached. */
    method OnCommit(blockHash: Hash, key: Key, signature: Signature)
      requires Valid()
      modifies this`outbox, chain`blocks
      ensures Valid() && NodeStep(chain.cfg, old(chain.blocks), chain.blocks)
      ensures State() == AfterCommit(chain.cfg, old(State()), blockHash, key, signature)
      ensures ValidChain(chain.cfg, old(chain.blocks)) ==> ValidChain(chain.cfg, chain.blocks)
    {
      hide ValidChain, NodeStep, CommitCounts, CollisionFree, Linked;
      var attached := ApplyCommit(blockHash, key, signature);
      if attached {
        outbox := outbox + [CommitMessage(blockHash, key, signature)];
      }
    }

    /** `_commit_if_validator` for the block at height i. */
    method CommitIfValidator(i: nat)
      requires Valid() && i < |chain.blocks| && SignsProperly(chain.cfg, signer)
      modifies this`outbox, chain`blocks
      ensures Valid() && NodeStep(chain.cfg, old(chain.blocks), chain.blocks)
      ensures State() == AfterOwnCommit(chain.cfg, old(State()), signer, i)
      ensures ValidChain(chain.cfg, old(chain.blocks)) ==> ValidChain(chain.cfg, chain.blocks)
    {
      hide ValidChain, IsFinal;
      if i == 0 {
        return;
      }
      var validators := chain.ValidatorSetAt(i);
      if signer.key !in validators.value || signer.key in chain.blocks[i].commits {
        return;
      }
      var b := chain.blocks[i];
      var signature := signer.sign(HeaderMessage(HeaderOf(chain.cfg, b)));
      Attach(i, signer.key, signature);
      outbox := outbox + [CommitMessage(BlockHash(chain.cfg, b), signer.key, signature)];
    }

    // ---- blocks and chains ---------------------------------------------------------------------

    /** `_try_append_block`: appends tentatively and rolls back unless the whole chain is valid. */
    method TryAppendBlock(b: Block) returns (ok: bool)
      requires Valid()
      modifies chain
      ensures Valid() && NodeStep(chain.cfg, old(chain.blocks), chain.blocks)
      ensures ok <==> ValidChain(chain.cfg, old(chain.blocks) + [b])
      ensures ok ==> chain.blocks == old(chain.blocks) + [b]
      ensures ok ==> chain.mempool == Uncommitted(chain.cfg, old(chain.mempool), CommittedHashes(chain.cfg, [b]))
      ensures !ok ==> chain.blocks == old(chain.blocks) && chain.mempool == old(chain.mempool)
    {
      ghost var before := chain.blocks;
      chain.blocks := chain.blocks + [b];
      var verdict := IsValidChain(chain.cfg, chain.blocks);
      ok := verdict == Returned(true);
      if ok {
        AppendedExtends(chain.cfg, before, b);
        chain.mempool := Uncommitted(chain.cfg, chain.mempool, CommittedHashes(chain.cfg, [b]));
      } else {
        chain.blocks := chain.blocks[..|chain.blocks| - 1];
        assert chain.blocks == before;
      }
    }

    /** `on_block`: a block that keeps the chain valid is appended and voted for; the chain stays valid. */
    method OnBlock(b: Block)
      requires Valid() && SignsProperly(chain.cfg, signer)
      modifies this`viewAdvanced, this`outbox, chain
      ensures Valid()
      ensures exists mid :: NodeStep(chain.cfg, old(chain.blocks), mid) && NodeStep(chain.cfg, mid, chain.blocks)
      ensures State() == AfterBlock(chain.cfg, old(State()), signer, b)
      ensures ValidChain(chain.cfg, old(chain.blocks) + [b]) ==> ValidChain(chain.cfg, chain.blocks)
    {
      hide ValidChain, NodeStep, ValidatorSet, CollisionFree, Linked, SignsProperly, AfterOwnCommit;
      var ok := TryAppendBlock(b);
      ghost var mid := chain.blocks;
      if ok {
        var i := |chain.blocks| - 1;
        if b.view > 0 {
          viewAdvanced := viewAdvanced + {i};
        }
        CommitIfValidator(i);
      } else {
        outbox := outbox + [ChainRequest];
        AtRest(chain.cfg, mid);
      }
      assert NodeStep(chain.cfg, mid, chain.blocks);
    }

    /** `on_chain_request`. */
    method OnChainRequest()
      requires Valid()
      modifies this`outbox
      ensures Valid() && State() == AfterChainRequest(old(State()))
    {
      outbox := outbox + [ChainMessage(chain.blocks)];
    }

    /** `on_chain_response`; an empty chain makes validation raise. */
    method OnChainResponse(candidate: seq<Block>) returns (adopted: Outcome<bool>)
      requires Valid()
      modifies chain
      ensures Valid() && NodeStep(chain.cfg, old(chain.blocks), chain.blocks)
      ensures adopted.Raised? <==> candidate == []
      ensures adopted == Returned(true) <==> Adopts(chain.cfg, old(chain.blocks), candidate)
      ensures State() == AfterChain(chain.cfg, old(State()), candidate)
    {
      adopted := chain.ReplaceChain(candidate);
    }

    /** `mine_and_broadcast_block`: the proposer's own commit rides with its block. */
    method MineAndBroadcast(view: int, votes: map<Key, Signature>, timestamp: int) returns (b: Block)
      requires Valid() && SignsProperly(chain.cfg, signer)
      modifies this`outbox, chain
      ensures Valid()
      ensures exists mid :: NodeStep(chain.cfg, old(chain.blocks), mid) && NodeStep(chain.cfg, mid, chain.blocks)
      ensures State() == AfterProposal(chain.cfg, old(State()), signer, view, votes, timestamp)
      ensures chain.blocks == old(chain.blocks) + [b]
    {
      hide NodeStep, ValidatorSet, ValidChain, HeaderOf, SignedBlock, UnsignedBlock, ProposedBlock, BlockHash;
      ghost var before, pool := chain.blocks, chain.mempool;
      var mined := chain.AddBlock(Some(signer), view, votes, timestamp);
      ghost var mid := chain.blocks;
      MinedFields(chain.cfg, before, pool, signer, view, votes, timestamp);
      MinedExtends(chain.cfg, before, mined);
      MinedIsProposed(chain.cfg, before, pool, signer, view, votes, timestamp);
      assert |mid| - 1 == |before| > 0;
      CommitIfValidator(|chain.blocks| - 1);
      assert NodeStep(chain.cfg, before, mid) && NodeStep(chain.cfg, mid, chain.blocks);
      b := chain.blocks[|chain.blocks| - 1];
      outbox := outbox + [BlockMessage(b)];
    }

    // ---- view-change round -----------------------------------------------------------------------

    /** `_next_view`. */
    method NextView(height: int) returns (view: int)
      requires Valid()
      ensures IsNextView(viewVotes, height, view)
    {
      var todo := viewVotes.Keys;
      view := 1;
      while todo != {}
        invariant todo <= viewVotes.Keys && view >= 1
        invariant forall slot | slot in viewVotes.Keys - todo && slot.0 == height :: slot.1 < view
        invariant view == 1 || (height, view - 1) in viewVotes
        decreases todo
      {
        var slot :| slot in todo;
        if slot.0 == height && slot.1 >= view {
          view := slot.1 + 1;
        }
        todo := todo - {slot};
      }
    }

    /** `_apply_view_change`: true exactly when the vote counts and its signer had none in that slot. */
    method ApplyViewChange(height: int, view: int, key: Key, signature: Signature) returns (recorded: Outcome<bool>)
      requires Valid()
      modifies this`viewVotes
      ensures Valid()
      ensures recorded.Raised? <==> Raises(chain.cfg, old(State()), height, view, key, signature)
      ensures recorded == Returned(true) <==> Records(chain.cfg, old(State()), height, view, key, signature)
      ensures State()
           == if recorded == Returned(true) then WithVote(old(State()), height, view, key, signature) else old(State())
    {
      hide CollisionFree, Linked, ValidatorsAt, GenuineVotes;
      if view <= 0 || !Verifies(chain.cfg, key, ViewChangeMessage(height, view), signature) {
        return Returned(false);
      }
      var validators := chain.ValidatorSetAt(height);
      if validators.Raised? {
        return Raised;
      }
      if key !in validators.value {
        return Returned(false);
      }
      var votes := VotesIn(viewVotes, (height, view));
      if key in votes {
        return Returned(false);
      }
      RecordingKeepsGenuine(chain.cfg, State(), height, view, key, signature);
      viewVotes := viewVotes[(height, view) := votes[key := signature]];
      return Returned(true);
    }

    /**
     * `_maybe_advance_view`: proposes at most once per height, only on top of the chain, only on enough
     * votes, and only in this node's own turn.
     */
    method MaybeAdvanceView(height: int, view: int, timestamp: int) returns (proposed: Option<Block>)
      requires Valid() && SignsProperly(chain.cfg, signer)
      modifies this`viewAdvanced, this`outbox, chain
      ensures Valid() && NodeStep(chain.cfg, old(chain.blocks), chain.blocks)
      ensures State() == AfterAdvance(chain.cfg, old(State()), signer, height, view, timestamp)
      ensures proposed.Some? <==> Ready(chain.cfg, old(State()), signer, height, view)
      ensures proposed.Some? ==> chain.blocks == old(chain.blocks) + [proposed.value]
      ensures proposed.None? ==> State() == old(State())
    {
      hide NodeStep, ValidatorSet, ScheduledProposer, SignsProperly, QuorumSize, ProposedBlock, CollisionFree,
           Linked, ProposalMessages;
      ChainNotEmpty();
      AtRest(chain.cfg, chain.blocks);
      if height in viewAdvanced {
        return None;
      }
      if |chain.blocks| != height {
        return None;
      }
      var validators := chain.ValidatorSetAt(height);
      var votes := VotesIn(viewVotes, (height, view));
      if |votes| < QuorumSize(|validators.value|) {
        return None;
      }
      VotesAreForViews(height, view, |validators.value|);
      if ScheduledProposer(validators.value, height, view) != Some(signer.key) {
        return None;
      }
      ProposedExtends(chain.cfg, chain.blocks, chain.mempool, signer, view, votes, timestamp);
      viewAdvanced := viewAdvanced + {height};
      var b := MineAndBroadcast(view, votes, timestamp);
      return Some(b);
    }

    lemma ChainNotEmpty()
      requires Valid()
      ensures chain.blocks != []
    {
    }

    lemma VotesAreForViews(height: int, view: int, n: nat)
      requires Valid() && |VotesIn(viewVotes, (height, view))| >= QuorumSize(n)
      ensures view > 0
    {
      var votes := VotesIn(viewVotes, (height, view));
      var k :| k in votes;
    }

    /** `on_view_change`: a vote is relayed exactly when it is newly recorded, which may complete a quorum. */
    method OnViewChange(height: int, view: int, key: Key, signature: Signature, timestamp: int)
      returns (proposed: Outcome<Option<Block>>)
      requires Valid() && SignsProperly(chain.cfg, signer)
      modifies this`viewVotes, this`viewAdvanced, this`outbox, chain
      ensures Valid() && NodeStep(chain.cfg, old(chain.blocks), chain.blocks)
      ensures proposed.Raised? <==> Raises(chain.cfg, old(State()), height, view, key, signature)
      ensures State() == AfterVote(chain.cfg, old(State()), signer, height, view, key, signature, timestamp)
      ensures proposed.Returned? && proposed.value.Some? ==> chain.blocks == old(chain.blocks) + [proposed.value.value]
      ensures proposed.Returned? && proposed.value.None? ==> chain.blocks == old(chain.blocks)
    {
      hide NodeStep, CollisionFree, Linked, Records, AfterAdvance, Ready;
      ChainNotEmpty();
      AtRest(chain.cfg, chain.blocks);
      var recorded := ApplyViewChange(height, view, key, signature);
      if recorded.Raised? {
        return Raised;
      }
      if !recorded.value {
        return Returned(None);
      }
      outbox := outbox + [ViewChangeVote(height, view, key, signature)];
      var b := MaybeAdvanceView(height, view, timestamp);
      return Returned(b);
    }

    /** `request_view_change`: votes for the next view, unless this node is no validator of the height. */
    method RequestViewChange(height: int, timestamp: int) returns (proposed: Outcome<Option<Block>>)
      requires Valid() && SignsProperly(chain.cfg, signer)
      modifies this`viewVotes, this`viewAdvanced, this`outbox, chain
      ensures Valid() && NodeStep(chain.cfg, old(chain.blocks), chain.blocks)
      ensures proposed.Raised? <==> height > |old(chain.blocks)|
      ensures
        var before := old(State());
        if height <= |before.blocks| && signer.key in ValidatorsAt(chain.cfg, before.blocks, height) then
          exists view :: OwnVoteCast(chain.cfg, before, State(), signer, height, view, timestamp)
        else State() == before
    {
      hide NodeStep, CollisionFree, Linked, AfterAdvance, Ready, ValidatorsAt, Records, IsNextView;
      ChainNotEmpty();
      AtRest(chain.cfg, chain.blocks);
      var validators := chain.ValidatorSetAt(height);
      if validators.Raised? {
        return Raised;
      }
      if signer.key !in validators.value {
        return Returned(None);
      }
      var view := NextView(height);
      var signature := signer.sign(ViewChangeMessage(height, view));
      NextVoteIsNew(chain.cfg, State(), signer, height, view);
      var recorded := ApplyViewChange(height, view, signer.key, signature);
      outbox := outbox + [ViewChangeVote(height, view, signer.key, signature)];
      var b := MaybeAdvanceView(height, view, timestamp);
      assert OwnVoteCast(chain.cfg, old(State()), State(), signer, height, view, timestamp);
      return Returned(b);
    }
  }

  lemma MinedFields(cfg: Config, blocks: seq<Block>, pool: seq<Transaction>, s: Signer, view: int,
                    votes: map<Key, Signature>, timestamp: int)
    requires blocks != []
    ensures
      var b := SignedBlock(cfg, UnsignedBlock(cfg, blocks, pool, view, votes, timestamp), s);
      b.index == |blocks| && b.previousHash == BlockHash(cfg, blocks[|blocks| - 1])
  {
  }
}
