/**
 * network/community.py: what its handlers do to a node's chain, vote tables and outgoing messages, as functions
 * of the state before, and what those steps keep.
 */
module Protocol {
  import opened Types
  import opened Quorum
  import opened Consensus
  import opened ForkChoice
  import opened Runs

  /** A request for the chain and the chain go to the peer that is being answered, everything else to all peers. */
  datatype Gossip =
    | BlockMessage(block: Block)
    | ChainRequest
    | ChainMessage(blocks: seq<Block>)
    | CommitMessage(blockHash: Hash, signer: Key, signature: Signature)
    | ViewChangeVote(height: int, view: int, signer: Key, signature: Signature)

  /** A height and a view; a message may name any two integers. */
  type Slot = (int, int)
  type VoteTable = map<Slot, map<Key, Signature>>

  /** What the handlers read and change; a broadcast is one entry of the outbox. */
  datatype NodeState = NodeState(blocks: seq<Block>, pool: seq<Transaction>, votes: VoteTable, advanced: set<int>,
                                 outbox: seq<Gossip>)

  /** The position of the first block with that hash. */
  function FindBlock(cfg: Config, blocks: seq<Block>, hash: Hash): (r: Option<nat>)
    ensures r.Some? ==> r.value < |blocks| && BlockHash(cfg, blocks[r.value]) == hash
    ensures r.None? ==> forall i | 0 <= i < |blocks| :: BlockHash(cfg, blocks[i]) != hash
  {
    if blocks == [] then None
    else if BlockHash(cfg, blocks[0]) == hash then Some(0)
    else
      var rest := FindBlock(cfg, blocks[1..], hash);
      if rest.Some? then Some(rest.value + 1) else None
  }

  /** A commit vote that counts for block i: new there, genuine, and by a validator of its prefix. */
  predicate CommitCounts(cfg: Config, blocks: seq<Block>, i: nat, signer: Key, signature: Signature)
    requires i < |blocks|
  {
    && signer !in blocks[i].commits
    && Verifies(cfg, signer, HeaderMessage(HeaderOf(cfg, blocks[i])), signature)
    && signer in ValidatorSet(cfg, Bodies(blocks[..i]))
  }

  /** A view-change vote that is genuine and by a validator of that height. */
  predicate ViewVoteCounts(cfg: Config, blocks: seq<Block>, height: int, view: int, signer: Key, signature: Signature)
    requires height <= |blocks|
  {
    && view > 0
    && Verifies(cfg, signer, ViewChangeMessage(height, view), signature)
    && signer in ValidatorsAt(cfg, blocks, height)
  }

  function VotesIn(table: VoteTable, slot: Slot): map<Key, Signature> {
    if slot in table then table[slot] else map[]
  }

  /** Every recorded vote is a genuine signature for its own height and a view above 0. */
  ghost predicate GenuineVotes(cfg: Config, table: VoteTable) {
    forall slot, k | slot in table && k in table[slot] ::
      slot.1 > 0 && Verifies(cfg, k, ViewChangeMessage(slot.0, slot.1), table[slot][k])
  }

  // ---- the commit round ------------------------------------------------------------------------

  /** `on_commit`: attached and relayed if it counts, else dropped. */
  function AfterCommit(cfg: Config, s: NodeState, hash: Hash, k: Key, signature: Signature): NodeState {
    var at := FindBlock(cfg, s.blocks, hash);
    if at.Some? && CommitCounts(cfg, s.blocks, at.value, k, signature)
    then s.(blocks := WithCommit(s.blocks, at.value, k, signature),
            outbox := s.outbox + [CommitMessage(hash, k, signature)])
    else s
  }

  function OwnSignature(cfg: Config, me: Signer, b: Block): Signature {
    me.sign(HeaderMessage(HeaderOf(cfg, b)))
  }

  predicate MayCommit(cfg: Config, blocks: seq<Block>, me: Signer, i: nat)
    requires i < |blocks|
  {
    i > 0 && me.key !in blocks[i].commits && me.key in ValidatorSet(cfg, Bodies(blocks[..i]))
  }

  /** `_commit_if_validator` for the block at height i. */
  function AfterOwnCommit(cfg: Config, s: NodeState, me: Signer, i: nat): NodeState
    requires i < |s.blocks|
  {
    var b := s.blocks[i];
    var signature := OwnSignature(cfg, me, b);
    if MayCommit(cfg, s.blocks, me, i)
    then s.(blocks := WithCommit(s.blocks, i, me.key, signature),
            outbox := s.outbox + [CommitMessage(BlockHash(cfg, b), me.key, signature)])
    else s
  }

  /** `on_block`: appended and voted for if that leaves a valid chain, else the sender's chain is asked for. */
  ghost function AfterBlock(cfg: Config, s: NodeState, me: Signer, b: Block): NodeState {
    if ValidChain(cfg, s.blocks + [b]) then
      var i := |s.blocks|;
      var appended := s.(blocks := s.blocks + [b],
                         pool := Uncommitted(cfg, s.pool, CommittedHashes(cfg, [b])),
                         advanced := if b.view > 0 then s.advanced + {i} else s.advanced);
      AfterOwnCommit(cfg, appended, me, i)
    else s.(outbox := s.outbox + [ChainRequest])
  }

  /** `on_chain_request`. */
  function AfterChainRequest(s: NodeState): NodeState {
    s.(outbox := s.outbox + [ChainMessage(s.blocks)])
  }

  /** `on_chain_response`: the chain is adopted if fork choice prefers it. */
  ghost function AfterChain(cfg: Config, s: NodeState, candidate: seq<Block>): NodeState
    requires s.blocks != []
  {
    if Adopts(cfg, s.blocks, candidate)
    then s.(blocks := candidate, pool := Uncommitted(cfg, s.pool, CommittedHashes(cfg, candidate))) else s
  }

  // ---- the view-change round -------------------------------------------------------------------

  /** The messages a proposer sends: its own commit, if it is a validator, and then the block that carries it. */
  function ProposalMessages(cfg: Config, blocks: seq<Block>, b: Block, me: Signer): seq<Gossip> {
    var own := if me.key in ValidatorSet(cfg, Bodies(blocks))
               then [CommitMessage(BlockHash(cfg, b), me.key, OwnSignature(cfg, me, b))] else [];
    own + [BlockMessage(b)]
  }

  /** `mine_and_broadcast_block`. */
  function AfterProposal(cfg: Config, s: NodeState, me: Signer, view: int, votes: map<Key, Signature>,
                         timestamp: int): NodeState
    requires s.blocks != []
  {
    var b := ProposedBlock(cfg, s.blocks, s.pool, me, view, votes, timestamp);
    s.(blocks := s.blocks + [b], pool := [], outbox := s.outbox + ProposalMessages(cfg, s.blocks, b, me))
  }

  /**
   * `_maybe_advance_view` goes ahead: the next height, not advanced before, enough recorded votes, and this node's
   * turn.
   */
  predicate Ready(cfg: Config, s: NodeState, me: Signer, height: int, view: int) {
    && height !in s.advanced
    && |s.blocks| == height
    && |VotesIn(s.votes, (height, view))| >= QuorumSize(|ValidatorsAt(cfg, s.blocks, height)|)
    && view > 0
    && ScheduledProposer(ValidatorsAt(cfg, s.blocks, height), height, view) == Some(me.key)
  }

  function AfterAdvance(cfg: Config, s: NodeState, me: Signer, height: int, view: int, timestamp: int): NodeState
    requires s.blocks != []
  {
    if Ready(cfg, s, me, height, view)
    then AfterProposal(cfg, s.(advanced := s.advanced + {height}), me, view, VotesIn(s.votes, (height, view)),
                       timestamp)
    else s
  }

  /** The replay behind `validator_set` runs off the end of the chain for a height beyond the next. */
  predicate Raises(cfg: Config, s: NodeState, height: int, view: int, k: Key, signature: Signature) {
    view > 0 && Verifies(cfg, k, ViewChangeMessage(height, view), signature) && height > |s.blocks|
  }

  predicate Records(cfg: Config, s: NodeState, height: int, view: int, k: Key, signature: Signature) {
    && height <= |s.blocks|
    && ViewVoteCounts(cfg, s.blocks, height, view, k, signature)
    && k !in VotesIn(s.votes, (height, view))
  }

  function WithVote(s: NodeState, height: int, view: int, k: Key, signature: Signature): NodeState {
    s.(votes := s.votes[(height, view) := VotesIn(s.votes, (height, view))[k := signature]])
  }

  /** A vote that is recorded is relayed, and may complete a quorum. */
  function AfterVote(cfg: Config, s: NodeState, me: Signer, height: int, view: int, k: Key, signature: Signature,
                     timestamp: int): NodeState
    requires s.blocks != []
  {
    if Records(cfg, s, height, view, k, signature) then
      var recorded := WithVote(s, height, view, k, signature);
      AfterAdvance(cfg, recorded.(outbox := s.outbox + [ViewChangeVote(height, view, k, signature)]), me, height,
                   view, timestamp)
    else s
  }

  /** `_next_view`: one past the highest view recorded for the height, or 1. */
  ghost predicate IsNextView(table: VoteTable, height: int, view: int) {
    && view >= 1
    && (forall slot | slot in table && slot.0 == height :: slot.1 < view)
    && (view == 1 || (height, view - 1) in table)
  }

  /** What a validator's request for a view change leads to. */
  ghost predicate OwnVoteCast(cfg: Config, s: NodeState, after: NodeState, me: Signer, height: int, view: int,
                              timestamp: int)
    requires s.blocks != []
  {
    var signature := me.sign(ViewChangeMessage(height, view));
    && IsNextView(s.votes, height, view)
    && Records(cfg, s, height, view, me.key, signature)
    && after == AfterVote(cfg, s, me, height, view, me.key, signature, timestamp)
  }

  /** Nobody has voted for the next view yet, so a validator's own vote for it is recorded. */
  lemma NextVoteIsNew(cfg: Config, s: NodeState, me: Signer, height: int, view: int)
    requires SignsProperly(cfg, me) && height <= |s.blocks| && me.key in ValidatorsAt(cfg, s.blocks, height)
    requires IsNextView(s.votes, height, view)
    ensures Records(cfg, s, height, view, me.key, me.sign(ViewChangeMessage(height, view)))
  {
    hide ValidatorsAt;
    assert Verifies(cfg, me.key, ViewChangeMessage(height, view), me.sign(ViewChangeMessage(height, view)));
  }

  lemma RecordingKeepsGenuine(cfg: Config, s: NodeState, height: int, view: int, k: Key, signature: Signature)
    requires GenuineVotes(cfg, s.votes) && Records(cfg, s, height, view, k, signature)
    ensures GenuineVotes(cfg, WithVote(s, height, view, k, signature).votes)
  {
    hide ValidatorsAt;
  }

  // ---- what commits do to validity ----------------------------------------------------------------

  /** One more genuine commit of a validator keeps a block's seal. */
  lemma SealKeepsCommit(cfg: Config, last: Block, height: nat, validators: set<Key>, b: Block, k: Key, s: Signature)
    requires SealOk(cfg, last, height, validators, b)
    requires k !in b.commits && k in validators && Verifies(cfg, k, HeaderMessage(HeaderOf(cfg, b)), s)
    ensures SealOk(cfg, last, height, validators, b.(commits := b.commits[k := s]))
  {
    hide ScheduledProposer, QuorumSize, BlockHash;
    var after := b.(commits := b.commits[k := s]);
    assert HeaderOf(cfg, after) == HeaderOf(cfg, b);
    assert after.commits.Keys == b.commits.Keys + {k};
    assert ViewChangeSigners(cfg, after) == ViewChangeSigners(cfg, b);
  }

  /** Only the hash of the block before matters. */
  lemma SealSeesHash(cfg: Config, last: Block, other: Block, height: nat, validators: set<Key>, b: Block)
    requires SealOk(cfg, last, height, validators, b) && HeaderOf(cfg, other) == HeaderOf(cfg, last)
    ensures SealOk(cfg, other, height, validators, b)
  {
    hide HeaderOf;
  }

  /** Attaching a commit vote that counts keeps every block acceptable. */
  lemma CommitKeepsBlockOk(cfg: Config, blocks: seq<Block>, i: nat, k: Key, s: Signature, j: nat)
    requires i < |blocks| && CommitCounts(cfg, blocks, i, k, s)
    requires 1 <= j < |blocks| && BlockOkAt(cfg, blocks, j)
    ensures BlockOkAt(cfg, WithCommit(blocks, i, k, s), j)
  {
    var after := WithCommit(blocks, i, k, s);
    CommitKeepsEverythingElse(cfg, blocks, i, k, s, j);
    BlockParts(cfg, blocks, j);
    BlockParts(cfg, after, j);
    hide TxsOk, SealOk, HeaderOf, ValidatorSet, ContextOf, ScanAt, BlockOkAt;
    var validators := ValidatorSet(cfg, Bodies(blocks[..j]));
    if i == j {
      SealKeepsCommit(cfg, blocks[j - 1], j, validators, blocks[j], k, s);
    }
    SealSeesHash(cfg, blocks[j - 1], after[j - 1], j, validators, after[j]);
  }

  /** A valid chain stays valid as commit votes that count are attached to it. */
  lemma CommitKeepsValid(cfg: Config, blocks: seq<Block>, i: nat, k: Key, s: Signature)
    requires ValidChain(cfg, blocks) && i < |blocks| && CommitCounts(cfg, blocks, i, k, s)
    ensures ValidChain(cfg, WithCommit(blocks, i, k, s))
  {
    hide BlockOkAt, CommitCounts;
    var after := WithCommit(blocks, i, k, s);
    CommitKeepsEverythingElse(cfg, blocks, i, k, s, 0);
    assert HeaderOf(cfg, after[0]) == HeaderOf(cfg, blocks[0]);
    forall j | 1 <= j < |after| ensures BlockOkAt(cfg, after, j) {
      CommitKeepsBlockOk(cfg, blocks, i, k, s, j);
    }
  }

  // ---- every step is a step of a run ---------------------------------------------------------------

  lemma AtRest(cfg: Config, blocks: seq<Block>)
    requires blocks != []
    ensures NodeStep(cfg, blocks, blocks)
  {
  }

  lemma AppendedExtends(cfg: Config, blocks: seq<Block>, b: Block)
    requires CollisionFree(cfg) && Linked(cfg, blocks) && ValidChain(cfg, blocks + [b])
    ensures Linked(cfg, blocks + [b]) && NodeStep(cfg, blocks, blocks + [b])
  {
    hide ValidChain;
    var longer := blocks + [b];
    ValidIsLinked(cfg, longer);
    assert LinkedAt(cfg, longer, |blocks|);
    assert Extends(cfg, blocks, longer);
  }

  lemma MinedExtends(cfg: Config, blocks: seq<Block>, b: Block)
    requires Linked(cfg, blocks) && b.index == |blocks| && b.previousHash == BlockHash(cfg, blocks[|blocks| - 1])
    ensures NodeStep(cfg, blocks, blocks + [b])
  {
    hide IsFinal, ValidChain;
    assert Extends(cfg, blocks, blocks + [b]);
  }

  lemma ProposedExtends(cfg: Config, blocks: seq<Block>, pool: seq<Transaction>, s: Signer, view: int,
                        votes: map<Key, Signature>, timestamp: int)
    requires Linked(cfg, blocks)
    ensures NodeStep(cfg, blocks, blocks + [ProposedBlock(cfg, blocks, pool, s, view, votes, timestamp)])
  {
    hide ValidatorSet, BlockHash, HeaderOf, NodeStep;
    MinedExtends(cfg, blocks, ProposedBlock(cfg, blocks, pool, s, view, votes, timestamp));
  }

  // ---- the proposed block ----------------------------------------------------------------------------

  /** The block a proposer mines, its own commit already attached if it is a validator. */
  function ProposedBlock(cfg: Config, blocks: seq<Block>, pool: seq<Transaction>, s: Signer, view: int,
                         votes: map<Key, Signature>, timestamp: int): Block
    requires blocks != []
  {
    var b := SignedBlock(cfg, UnsignedBlock(cfg, blocks, pool, view, votes, timestamp), s);
    if s.key in ValidatorSet(cfg, Bodies(blocks))
    then b.(commits := map[s.key := s.sign(HeaderMessage(HeaderOf(cfg, b)))]) else b
  }

  /** Mining and then committing to the new tip yields the proposed block on top. */
  lemma MinedIsProposed(cfg: Config, blocks: seq<Block>, pool: seq<Transaction>, s: Signer, view: int,
                        votes: map<Key, Signature>, timestamp: int)
    requires blocks != []
    ensures
      var mined := SignedBlock(cfg, UnsignedBlock(cfg, blocks, pool, view, votes, timestamp), s);
      var mid, n := blocks + [mined], |blocks|;
      var proposed := ProposedBlock(cfg, blocks, pool, s, view, votes, timestamp);
      && mid[..n] == blocks && s.key !in mid[n].commits
      && BlockHash(cfg, proposed) == BlockHash(cfg, mined)
      && OwnSignature(cfg, s, proposed) == OwnSignature(cfg, s, mined)
      && (if s.key in ValidatorSet(cfg, Bodies(blocks))
          then WithCommit(mid, n, s.key, s.sign(HeaderMessage(HeaderOf(cfg, mined)))) else mid) == blocks + [proposed]
  {
  }

  lemma ProposedSeal(cfg: Config, blocks: seq<Block>, pool: seq<Transaction>, s: Signer, view: int,
                     votes: map<Key, Signature>, timestamp: int)
    requires blocks != [] && SignsProperly(cfg, s) && s.key in ValidatorSet(cfg, Bodies(blocks))
    ensures
      var b := ProposedBlock(cfg, blocks, pool, s, view, votes, timestamp);
      && b.index == |blocks| && b.previousHash == BlockHash(cfg, blocks[|blocks| - 1]) && b.view == view
      && b.producer == s.key && b.viewVotes == votes && ProducerSignatureOk(cfg, b)
      && b.commits.Keys == {s.key} && s.key in CommitSigners(cfg, b)
  {
  }

  /**
   * The proposal after a view change passes every rule on the block itself exactly when the voters that
   * are validators of the height now reach a quorum. `_maybe_advance_view` counts all recorded votes, so
   * votes recorded before the chain below was replaced can start a proposal that this rule rejects.
   */
  lemma ProposalJustified(cfg: Config, blocks: seq<Block>, pool: seq<Transaction>, s: Signer, view: nat,
                          table: VoteTable, timestamp: int)
    requires blocks != [] && view > 0 && SignsProperly(cfg, s) && GenuineVotes(cfg, table)
    requires ScheduledProposer(ValidatorSet(cfg, Bodies(blocks)), |blocks|, view) == Some(s.key)
    ensures
      var validators := ValidatorSet(cfg, Bodies(blocks));
      var votes := VotesIn(table, (|blocks|, view));
      var b := ProposedBlock(cfg, blocks, pool, s, view, votes, timestamp);
      SealOk(cfg, blocks[|blocks| - 1], |blocks|, validators, b)
      <==> |votes.Keys * validators| >= QuorumSize(|validators|)
  {
    hide ValidatorSet, ProposedBlock, HeaderOf, BlockHash, CommitSigners, ScheduledProposer, SignsProperly;
    var votes := VotesIn(table, (|blocks|, view));
    var b := ProposedBlock(cfg, blocks, pool, s, view, votes, timestamp);
    ProposedSeal(cfg, blocks, pool, s, view, votes, timestamp);
    assert ViewChangeSigners(cfg, b) == votes.Keys;
  }

  /** A node that goes ahead proposes an acceptable seal whenever every recorded voter is still a validator. */
  lemma CurrentVotersJustify(cfg: Config, s: NodeState, me: Signer, height: int, view: int, timestamp: int)
    requires s.blocks != [] && SignsProperly(cfg, me) && GenuineVotes(cfg, s.votes)
    requires Ready(cfg, s, me, height, view)
    requires VotesIn(s.votes, (height, view)).Keys <= ValidatorSet(cfg, Bodies(s.blocks))
    ensures
      var after := AfterAdvance(cfg, s, me, height, view, timestamp).blocks;
      && |after| == |s.blocks| + 1 && after[..|s.blocks|] == s.blocks
      && SealOk(cfg, s.blocks[height - 1], height, ValidatorSet(cfg, Bodies(s.blocks)), after[height])
  {
    hide ValidatorSet, ProposedBlock, ScheduledProposer, SignsProperly, GenuineVotes, SealOk;
    assert s.blocks[..height] == s.blocks;
    ProposalJustified(cfg, s.blocks, s.pool, me, view, s.votes, timestamp);
    var voters := VotesIn(s.votes, (height, view)).Keys;
    assert voters * ValidatorSet(cfg, Bodies(s.blocks)) == voters;
    assert |voters| == |VotesIn(s.votes, (height, view))|;
  }
}
