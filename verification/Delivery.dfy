/**
 * The handlers of network/community.py take the steps of the flood: with the ballots a node has recorded read
 * off its chain and its vote table, handling a message is delivery of that message at that node.
 */
module Delivery {
  import opened Types
  import opened Registry
  import opened Consensus
  import opened ForkChoice
  import opened Runs
  import opened Protocol
  import F = Flood

  // ---- a node as the flood sees it ---------------------------------------------------------------

  ghost function CommitBallots(cfg: Config, blocks: seq<Block>): set<F.Ballot> {
    set i, k | 0 <= i < |blocks| && k in blocks[i].commits :: F.Ballot(F.CommitTo(BlockHash(cfg, blocks[i])), k)
  }

  ghost function VoteBallots(table: VoteTable): set<F.Ballot> {
    set slot, k | slot in table && k in table[slot] :: F.Ballot(F.ChangeTo(slot.0, slot.1), k)
  }

  ghost function Recorded(cfg: Config, s: NodeState): set<F.Ballot> {
    CommitBallots(cfg, s.blocks) + VoteBallots(s.votes)
  }

  /** The signature is one over the statement the ballot stands for; no node's chain matters. */
  ghost predicate IsGenuine(cfg: Config, v: F.Vote) {
    match v.ballot.subject
    case CommitTo(hash) =>
      exists header ::
        cfg.hashHeader(header) == hash && Verifies(cfg, v.ballot.signer, HeaderMessage(header), v.signature)
    case ChangeTo(height, view) =>
      view > 0 && Verifies(cfg, v.ballot.signer, ViewChangeMessage(height, view), v.signature)
  }

  /** The node holds what the ballot is about, and the signer is a validator of that. */
  ghost predicate Judges(cfg: Config, blocks: seq<Block>, b: F.Ballot) {
    match b.subject
    case CommitTo(hash) =>
      var at := FindBlock(cfg, blocks, hash);
      at.Some? && b.signer in ValidatorSet(cfg, Bodies(blocks[..at.value]))
    case ChangeTo(height, view) =>
      height <= |blocks| && b.signer in ValidatorsAt(cfg, blocks, height)
  }

  /** Node i of the mesh is this node. */
  ghost predicate Mirrors(cfg: Config, mesh: F.Mesh, flood: F.State, i: nat, s: NodeState) {
    && i < |flood.recorded| == |mesh.peers| && flood.recorded[i] == Recorded(cfg, s)
    && (forall v :: F.Genuine(mesh, v) <==> IsGenuine(cfg, v))
    && (forall b :: F.Admits(mesh, i, b) <==> Judges(cfg, s.blocks, b))
  }

  function CommitVote(hash: Hash, k: Key, signature: Signature): F.Vote {
    F.Vote(F.Ballot(F.CommitTo(hash), k), signature)
  }

  function ChangeVote(height: int, view: int, k: Key, signature: Signature): F.Vote {
    F.Vote(F.Ballot(F.ChangeTo(height, view), k), signature)
  }

  // ---- commits -----------------------------------------------------------------------------------

  /** On a linked chain a block is found by its hash. */
  lemma FoundWhereItIs(cfg: Config, blocks: seq<Block>, i: nat)
    requires InjectiveHeaders(cfg) && Linked(cfg, blocks) && i < |blocks|
    ensures FindBlock(cfg, blocks, BlockHash(cfg, blocks[i])) == Some(i)
  {
    var at := FindBlock(cfg, blocks, BlockHash(cfg, blocks[i]));
    assert at.Some?;
    assert HeaderOf(cfg, blocks[at.value]) == HeaderOf(cfg, blocks[i]);
  }

  lemma HasCommit(cfg: Config, blocks: seq<Block>, i: nat, k: Key)
    requires InjectiveHeaders(cfg) && Linked(cfg, blocks) && i < |blocks|
    ensures F.Ballot(F.CommitTo(BlockHash(cfg, blocks[i])), k) in CommitBallots(cfg, blocks) <==> k in blocks[i].commits
  {
    hide Linked;
    var hash := BlockHash(cfg, blocks[i]);
    FoundWhereItIs(cfg, blocks, i);
    if F.Ballot(F.CommitTo(hash), k) in CommitBallots(cfg, blocks) {
      var j :| 0 <= j < |blocks| && k in blocks[j].commits && BlockHash(cfg, blocks[j]) == hash;
      FoundWhereItIs(cfg, blocks, j);
    }
  }

  lemma CommitBallotsGrow(cfg: Config, blocks: seq<Block>, i: nat, k: Key, signature: Signature)
    requires i < |blocks|
    ensures CommitBallots(cfg, WithCommit(blocks, i, k, signature))
         == CommitBallots(cfg, blocks) + {F.Ballot(F.CommitTo(BlockHash(cfg, blocks[i])), k)}
  {
    var after := WithCommit(blocks, i, k, signature);
    CommitKeepsEverythingElse(cfg, blocks, i, k, signature, 0);
    assert forall j | 0 <= j < |blocks| :: BlockHash(cfg, after[j]) == BlockHash(cfg, blocks[j]);
    assert after[i].commits.Keys == blocks[i].commits.Keys + {k};
    assert forall j | 0 <= j < |blocks| && j != i :: after[j] == blocks[j];
    hide BlockHash, WithCommit;
    var more := F.Ballot(F.CommitTo(BlockHash(cfg, blocks[i])), k);
    assert k in after[i].commits.Keys;
    forall b ensures b in CommitBallots(cfg, after) <==> b in CommitBallots(cfg, blocks) + {more} {
      if b in CommitBallots(cfg, blocks) {
        var j, l :| 0 <= j < |blocks| && l in blocks[j].commits
            && b == F.Ballot(F.CommitTo(BlockHash(cfg, blocks[j])), l);
        assert l in after[j].commits.Keys;
      }
      if b in CommitBallots(cfg, after) {
        var j, l :| 0 <= j < |after| && l in after[j].commits && b == F.Ballot(F.CommitTo(BlockHash(cfg, after[j])), l);
        assert l in blocks[j].commits.Keys || (j == i && l == k);
      }
    }
  }

  lemma {:induction false} FindSame(cfg: Config, a: seq<Block>, b: seq<Block>, hash: Hash)
    requires |a| <= |b| && forall i | 0 <= i < |a| :: BlockHash(cfg, a[i]) == BlockHash(cfg, b[i])
    ensures FindBlock(cfg, a, hash).Some? || |a| == |b| ==> FindBlock(cfg, b, hash) == FindBlock(cfg, a, hash)
    decreases |a|
  {
    hide BlockHash;
    if a != [] && BlockHash(cfg, a[0]) != hash {
      FindSame(cfg, a[1..], b[1..], hash);
    }
  }

  /** Commits change nobody's standing. */
  lemma CommitKeepsJudgement(cfg: Config, blocks: seq<Block>, i: nat, k: Key, signature: Signature, b: F.Ballot)
    requires i < |blocks|
    ensures Judges(cfg, WithCommit(blocks, i, k, signature), b) <==> Judges(cfg, blocks, b)
  {
    var after := WithCommit(blocks, i, k, signature);
    CommitKeepsEverythingElse(cfg, blocks, i, k, signature, 0);
    match b.subject
    case CommitTo(hash) =>
      FindSame(cfg, blocks, after, hash);
      var at := FindBlock(cfg, blocks, hash);
      if at.Some? {
        CommitKeepsEverythingElse(cfg, blocks, i, k, signature, at.value);
      }
    case ChangeTo(height, _) =>
      if height <= |blocks| {
        CommitKeepsEverythingElse(cfg, blocks, i, k, signature, Max(0, height));
      }
  }

  /** The signature a handler checks against the block it found is genuine exactly when it verifies there. */
  lemma GenuineHere(cfg: Config, b: Block, k: Key, signature: Signature)
    requires InjectiveHeaders(cfg)
    ensures IsGenuine(cfg, CommitVote(BlockHash(cfg, b), k, signature))
       <==> Verifies(cfg, k, HeaderMessage(HeaderOf(cfg, b)), signature)
  {
    hide HeaderOf;
  }

  lemma CommitNews(cfg: Config, s: NodeState, hash: Hash, k: Key, signature: Signature)
    requires InjectiveHeaders(cfg) && Linked(cfg, s.blocks)
    ensures
      var v, at := CommitVote(hash, k, signature), FindBlock(cfg, s.blocks, hash);
      (IsGenuine(cfg, v) && Judges(cfg, s.blocks, v.ballot) && v.ballot !in Recorded(cfg, s))
      <==> at.Some? && CommitCounts(cfg, s.blocks, at.value, k, signature)
  {
    var at := FindBlock(cfg, s.blocks, hash);
    if at.Some? {
      GenuineHere(cfg, s.blocks[at.value], k, signature);
      HasCommit(cfg, s.blocks, at.value, k);
    }
    hide IsGenuine, HeaderOf, ValidatorSet, CommitBallots, Linked;
  }

  /** `on_commit` is delivery of the commit at this node, and its relay is what the delivery sends on. */
  lemma OnCommitDelivers(cfg: Config, mesh: F.Mesh, flood: F.State, i: nat, s: NodeState, hash: Hash, k: Key,
                         signature: Signature)
    requires InjectiveHeaders(cfg) && Linked(cfg, s.blocks) && Mirrors(cfg, mesh, flood, i, s)
    ensures
      var v, after := CommitVote(hash, k, signature), AfterCommit(cfg, s, hash, k, signature);
      && Mirrors(cfg, mesh, F.Deliver(mesh, flood, F.Envelope(i, v)), i, after)
      && after.outbox == s.outbox + if F.IsNews(mesh, flood, i, v) then [CommitMessage(hash, k, signature)] else []
  {
    var v, at := CommitVote(hash, k, signature), FindBlock(cfg, s.blocks, hash);
    CommitNews(cfg, s, hash, k, signature);
    assert F.IsNews(mesh, flood, i, v) <==> at.Some? && CommitCounts(cfg, s.blocks, at.value, k, signature);
    hide IsGenuine, Judges, CommitCounts, CommitBallots, VoteBallots, Linked, WithCommit, BlockHash, F.Copies;
    if F.IsNews(mesh, flood, i, v) {
      CommitBallotsGrow(cfg, s.blocks, at.value, k, signature);
      forall b ensures Judges(cfg, WithCommit(s.blocks, at.value, k, signature), b) <==> Judges(cfg, s.blocks, b) {
        CommitKeepsJudgement(cfg, s.blocks, at.value, k, signature, b);
      }
      assert Recorded(cfg, AfterCommit(cfg, s, hash, k, signature)) == Recorded(cfg, s) + {v.ballot};
    }
  }

  /** `_commit_if_validator` casts this node's own ballot, if it casts one at all. */
  lemma OwnCommitCasts(cfg: Config, mesh: F.Mesh, flood: F.State, i: nat, s: NodeState, me: Signer, h: nat)
    requires InjectiveHeaders(cfg) && Linked(cfg, s.blocks) && Mirrors(cfg, mesh, flood, i, s)
    requires SignsProperly(cfg, me) && h < |s.blocks| && MayCommit(cfg, s.blocks, me, h)
    ensures
      var hash := BlockHash(cfg, s.blocks[h]);
      var v := CommitVote(hash, me.key, OwnSignature(cfg, me, s.blocks[h]));
      var after := AfterOwnCommit(cfg, s, me, h);
      && F.IsNews(mesh, flood, i, v) && Mirrors(cfg, mesh, F.Cast(mesh, flood, i, v), i, after)
      && after.outbox == s.outbox + [CommitMessage(hash, me.key, v.signature)]
  {
    var b := s.blocks[h];
    var hash, signature := BlockHash(cfg, b), OwnSignature(cfg, me, b);
    FoundWhereItIs(cfg, s.blocks, h);
    assert Verifies(cfg, me.key, HeaderMessage(HeaderOf(cfg, b)), signature);
    assert CommitCounts(cfg, s.blocks, h, me.key, signature);
    OnCommitDelivers(cfg, mesh, flood, i, s, hash, me.key, signature);
    CommitNews(cfg, s, hash, me.key, signature);
    hide IsGenuine, Judges, CommitCounts, CommitBallots, VoteBallots, Linked, BlockHash, F.Copies;
  }

  // ---- view-change votes -----------------------------------------------------------------------------

  lemma VoteBallotsGrow(s: NodeState, height: int, view: int, k: Key, signature: Signature)
    ensures VoteBallots(WithVote(s, height, view, k, signature).votes)
         == VoteBallots(s.votes) + {F.Ballot(F.ChangeTo(height, view), k)}
  {
    var after, slot := WithVote(s, height, view, k, signature).votes, (height, view);
    assert after[slot].Keys == VotesIn(s.votes, slot).Keys + {k};
    assert after.Keys == s.votes.Keys + {slot};
    assert forall x | x in s.votes && x != slot :: after[x] == s.votes[x];
    hide WithVote, VotesIn;
    assert k in after[slot].Keys;
    forall b ensures b in VoteBallots(after) <==> b in VoteBallots(s.votes) + {F.Ballot(F.ChangeTo(height, view), k)} {
      if b in VoteBallots(s.votes) {
        var x, l :| x in s.votes && l in s.votes[x] && b == F.Ballot(F.ChangeTo(x.0, x.1), l);
        assert x in after && l in after[x].Keys;
      }
      if b in VoteBallots(after) {
        var x, l :| x in after && l in after[x] && b == F.Ballot(F.ChangeTo(x.0, x.1), l);
        assert (x in s.votes.Keys && l in s.votes[x].Keys) || (x == slot && l == k);
      }
    }
  }

  lemma VoteNews(cfg: Config, s: NodeState, height: int, view: int, k: Key, signature: Signature)
    ensures
      var v := ChangeVote(height, view, k, signature);
      (IsGenuine(cfg, v) && Judges(cfg, s.blocks, v.ballot) && v.ballot !in Recorded(cfg, s))
      <==> Records(cfg, s, height, view, k, signature)
  {
    hide ValidatorsAt;
    var b, slot := F.Ballot(F.ChangeTo(height, view), k), (height, view);
    assert b !in CommitBallots(cfg, s.blocks);
    if k in VotesIn(s.votes, slot) {
      assert b in VoteBallots(s.votes);
    }
  }

  /** `on_view_change` is delivery of the vote, as long as it does not complete a quorum for this node to act on. */
  lemma OnViewChangeDelivers(cfg: Config, mesh: F.Mesh, flood: F.State, i: nat, s: NodeState, me: Signer, height: int,
                             view: int, k: Key, signature: Signature, timestamp: int)
    requires s.blocks != [] && Mirrors(cfg, mesh, flood, i, s)
    requires !Ready(cfg, WithVote(s, height, view, k, signature), me, height, view)
    ensures
      var v := ChangeVote(height, view, k, signature);
      var after := AfterVote(cfg, s, me, height, view, k, signature, timestamp);
      && Mirrors(cfg, mesh, F.Deliver(mesh, flood, F.Envelope(i, v)), i, after)
      && after.outbox
         == s.outbox + if F.IsNews(mesh, flood, i, v) then [ViewChangeVote(height, view, k, signature)] else []
  {
    var v := ChangeVote(height, view, k, signature);
    VoteNews(cfg, s, height, view, k, signature);
    assert F.IsNews(mesh, flood, i, v) <==> Records(cfg, s, height, view, k, signature);
    VoteBallotsGrow(s, height, view, k, signature);
    hide IsGenuine, Judges, Records, CommitBallots, VoteBallots, F.Copies, F.IsNews;
  }

  /** `request_view_change` casts this node's own vote. */
  lemma RequestCasts(cfg: Config, mesh: F.Mesh, flood: F.State, i: nat, s: NodeState, me: Signer, height: int,
                     view: int, timestamp: int)
    requires s.blocks != [] && Mirrors(cfg, mesh, flood, i, s) && SignsProperly(cfg, me)
    requires height <= |s.blocks| && me.key in ValidatorsAt(cfg, s.blocks, height) && IsNextView(s.votes, height, view)
    requires !Ready(cfg, WithVote(s, height, view, me.key, me.sign(ViewChangeMessage(height, view))), me, height, view)
    ensures
      var signature := me.sign(ViewChangeMessage(height, view));
      var v := ChangeVote(height, view, me.key, signature);
      var after := AfterVote(cfg, s, me, height, view, me.key, signature, timestamp);
      && F.IsNews(mesh, flood, i, v) && Mirrors(cfg, mesh, F.Cast(mesh, flood, i, v), i, after)
      && after.outbox == s.outbox + [ViewChangeVote(height, view, me.key, signature)]
  {
    var signature := me.sign(ViewChangeMessage(height, view));
    NextVoteIsNew(cfg, s, me, height, view);
    OnViewChangeDelivers(cfg, mesh, flood, i, s, me, height, view, me.key, signature, timestamp);
    VoteNews(cfg, s, height, view, me.key, signature);
    hide IsGenuine, Judges, Records, Recorded, Ready, WithVote, AfterVote, F.Copies;
  }

  /**
   * If it does complete one, the node also extends its chain and casts its own commit to the new block: it has
   * recorded the vote and that commit, has sent both and the block, and judges all it judged before.
   */
  lemma OnViewChangeProposes(cfg: Config, s: NodeState, me: Signer, height: int, view: int, k: Key,
                             signature: Signature, timestamp: int)
    requires s.blocks != [] && Records(cfg, s, height, view, k, signature)
    requires Ready(cfg, WithVote(s, height, view, k, signature), me, height, view)
    ensures
      var after := AfterVote(cfg, s, me, height, view, k, signature, timestamp);
      var b := after.blocks[|after.blocks| - 1];
      var own := F.Ballot(F.CommitTo(BlockHash(cfg, b)), me.key);
      && after.blocks == s.blocks + [b]
      && Recorded(cfg, after) == Recorded(cfg, s) + {ChangeVote(height, view, k, signature).ballot} + {own}
      && after.outbox == s.outbox + [ViewChangeVote(height, view, k, signature)]
           + [CommitMessage(BlockHash(cfg, b), me.key, OwnSignature(cfg, me, b)), BlockMessage(b)]
      && forall c | Judges(cfg, s.blocks, c) :: Judges(cfg, after.blocks, c)
  {
    var voted := WithVote(s, height, view, k, signature);
    var votes := VotesIn(voted.votes, (height, view));
    VoteThenProposal(cfg, s, me, height, view, k, signature, timestamp);
    VoteBallotsGrow(s, height, view, k, signature);
    ProposerCommits(cfg, s.blocks, s.pool, me, view, votes, timestamp);
    var b := ProposedBlock(cfg, s.blocks, s.pool, me, view, votes, timestamp);
    forall c | Judges(cfg, s.blocks, c) ensures Judges(cfg, s.blocks + [b], c) {
      LongerJudges(cfg, s.blocks, b, c);
    }
    Regroup(CommitBallots(cfg, s.blocks), F.Ballot(F.CommitTo(BlockHash(cfg, b)), me.key),
            VoteBallots(s.votes), F.Ballot(F.ChangeTo(height, view), k));
    hide Ready, Records, AfterVote, WithVote, VotesIn, Judges, CommitBallots, VoteBallots, ProposedBlock,
         ProposalMessages, BlockHash, ValidatorSet, OwnSignature;
  }

  lemma Regroup<T>(a: set<T>, x: T, b: set<T>, y: T)
    ensures a + {x} + (b + {y}) == a + b + {y} + {x}
  {
  }

  lemma VoteThenProposal(cfg: Config, s: NodeState, me: Signer, height: int, view: int, k: Key, signature: Signature,
                         timestamp: int)
    requires s.blocks != [] && Records(cfg, s, height, view, k, signature)
    requires Ready(cfg, WithVote(s, height, view, k, signature), me, height, view)
    ensures
      var voted := WithVote(s, height, view, k, signature);
      var b := ProposedBlock(cfg, s.blocks, s.pool, me, view, VotesIn(voted.votes, (height, view)), timestamp);
      var after := AfterVote(cfg, s, me, height, view, k, signature, timestamp);
      && me.key in ValidatorSet(cfg, Bodies(s.blocks))
      && after.blocks == s.blocks + [b] && after.votes == voted.votes
      && after.outbox == s.outbox + [ViewChangeVote(height, view, k, signature)]
          + ProposalMessages(cfg, s.blocks, b, me)
  {
    hide ProposedBlock, ProposalMessages, ValidatorSet, Records;
    assert s.blocks[..height] == s.blocks;
    var relayed := WithVote(s, height, view, k, signature)
                   .(outbox := s.outbox + [ViewChangeVote(height, view, k, signature)]);
    assert Ready(cfg, relayed, me, height, view);
  }

  lemma ProposerCommits(cfg: Config, blocks: seq<Block>, pool: seq<Transaction>, me: Signer, view: int,
                        votes: map<Key, Signature>, timestamp: int)
    requires blocks != [] && me.key in ValidatorSet(cfg, Bodies(blocks))
    ensures
      var b := ProposedBlock(cfg, blocks, pool, me, view, votes, timestamp);
      && CommitBallots(cfg, blocks + [b]) == CommitBallots(cfg, blocks)
          + {F.Ballot(F.CommitTo(BlockHash(cfg, b)), me.key)}
      && ProposalMessages(cfg, blocks, b, me)
         == [CommitMessage(BlockHash(cfg, b), me.key, OwnSignature(cfg, me, b)), BlockMessage(b)]
  {
    var b := ProposedBlock(cfg, blocks, pool, me, view, votes, timestamp);
    assert b.commits.Keys == {me.key};
    hide ProposedBlock, ValidatorSet, BlockHash;
    var longer, own := blocks + [b], F.Ballot(F.CommitTo(BlockHash(cfg, b)), me.key);
    forall x ensures x in CommitBallots(cfg, longer) <==> x in CommitBallots(cfg, blocks) + {own} {
      if x in CommitBallots(cfg, blocks) {
        var j, l :| 0 <= j < |blocks| && l in blocks[j].commits
            && x == F.Ballot(F.CommitTo(BlockHash(cfg, blocks[j])), l);
        assert longer[j] == blocks[j];
      }
      if x == own {
        assert longer[|blocks|] == b && me.key in b.commits.Keys;
      }
      if x in CommitBallots(cfg, longer) {
        var j, l :| 0 <= j < |longer| && l in longer[j].commits
            && x == F.Ballot(F.CommitTo(BlockHash(cfg, longer[j])), l);
        assert j == |blocks| ==> l in b.commits.Keys;
      }
    }
  }

  lemma LongerJudges(cfg: Config, blocks: seq<Block>, b: Block, c: F.Ballot)
    requires Judges(cfg, blocks, c)
    ensures Judges(cfg, blocks + [b], c)
  {
    hide ValidatorSet;
    match c.subject
    case CommitTo(hash) =>
      FindSame(cfg, blocks, blocks + [b], hash);
      var at := FindBlock(cfg, blocks, hash).value;
      assert (blocks + [b])[..at] == blocks[..at];
    case ChangeTo(height, _) =>
      var n := Max(0, height);
      assert (blocks + [b])[..n] == blocks[..n];
  }
}
