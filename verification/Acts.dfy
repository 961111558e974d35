/**
 * Everything that can happen to a node of network/community.py: the messages its handlers take and the calls
 * made on it from outside. What a node records in an act it also sends, and nothing else, except for the commits
 * that come with a block or a chain.
 */
module Acts {
  import opened Types
  import opened Quorum
  import opened Consensus
  import opened ForkChoice
  import opened Runs
  import opened Protocol
  import opened Delivery
  import F = Flood

  /** A message from one node to another. */
  datatype Parcel<T> = Parcel(source: nat, dest: nat, content: T)

  datatype Act =
    | HearVote(envelope: F.Envelope)
    | HearBlock(block: Parcel<Block>)
    | HearRequest(source: nat, dest: nat)
    | HearChain(chain: Parcel<seq<Block>>)
    | Mine(node: nat, view: int, votes: map<Key, Signature>)
    | Ask(node: nat, height: int, view: int)
    | Submit(node: nat, tx: Transaction)

  function Actor(act: Act): nat {
    match act
    case HearVote(e) => e.dest
    case HearBlock(p) => p.dest
    case HearRequest(_, to) => to
    case HearChain(p) => p.dest
    case Mine(i, _, _) => i
    case Ask(i, _, _) => i
    case Submit(i, _) => i
  }

  /** The calls from outside: `mine_and_broadcast_block`, `request_view_change`, and a transaction for the pool. */
  predicate IsCall(act: Act) {
    act.Mine? || act.Ask? || act.Submit?
  }

  function Heard(act: Act): Option<F.Envelope> {
    if act.HearVote? then Some(act.envelope) else None
  }

  // ---- what an act does to its node -----------------------------------------------------------------

  /** The handler of a vote: `on_commit` or `on_view_change`. */
  function Handled(cfg: Config, me: Signer, s: NodeState, v: F.Vote, now: int): NodeState
    requires s.blocks != []
  {
    match v.ballot.subject
    case CommitTo(hash) => AfterCommit(cfg, s, hash, v.ballot.signer, v.signature)
    case ChangeTo(height, view) => AfterVote(cfg, s, me, height, view, v.ballot.signer, v.signature, now)
  }

  function OwnVote(me: Signer, height: int, view: int): F.Vote {
    ChangeVote(height, view, me.key, me.sign(ViewChangeMessage(height, view)))
  }

  ghost function After(cfg: Config, me: Signer, s: NodeState, act: Act, now: int): NodeState
    requires s.blocks != []
  {
    match act
    case HearVote(e) => Handled(cfg, me, s, e.vote, now)
    case HearBlock(p) => AfterBlock(cfg, s, me, p.content)
    case HearRequest(_, _) => AfterChainRequest(s)
    case HearChain(p) => AfterChain(cfg, s, p.content)
    case Mine(_, view, votes) => AfterProposal(cfg, s, me, view, votes, now)
    case Ask(_, height, view) => Handled(cfg, me, s, OwnVote(me, height, view), now)
    case Submit(_, tx) => s.(pool := s.pool + [tx])
  }

  /** A validator that asks for another proposer votes for the next view; a call by anybody else does nothing. */
  ghost predicate Sensible(cfg: Config, me: Signer, s: NodeState, act: Act)
    requires s.blocks != []
  {
    act.Ask? ==>
      && act.height <= |s.blocks| && me.key in ValidatorsAt(cfg, s.blocks, act.height)
      && IsNextView(s.votes, act.height, act.view)
  }

  /** Between acts a node's outbox is empty, its chain is linked, and its signatures verify. */
  ghost predicate NodeOk(cfg: Config, me: Signer, s: NodeState) {
    s.outbox == [] && s.blocks != [] && Linked(cfg, s.blocks) && SignsProperly(cfg, me)
  }

  // ---- the votes among the messages ----------------------------------------------------------------------

  predicate IsVote(m: Gossip) {
    m.CommitMessage? || m.ViewChangeVote?
  }

  function AsVote(m: Gossip): F.Vote
    requires IsVote(m)
  {
    if m.CommitMessage? then CommitVote(m.blockHash, m.signer, m.signature)
    else ChangeVote(m.height, m.view, m.signer, m.signature)
  }

  function AsMessage(v: F.Vote): Gossip {
    match v.ballot.subject
    case CommitTo(hash) => CommitMessage(hash, v.ballot.signer, v.signature)
    case ChangeTo(height, view) => ViewChangeVote(height, view, v.ballot.signer, v.signature)
  }

  ghost predicate SaysVote(outbox: seq<Gossip>, v: F.Vote) {
    AsMessage(v) in outbox
  }

  ghost predicate Says(outbox: seq<Gossip>, b: F.Ballot) {
    exists v: F.Vote :: v.ballot == b && SaysVote(outbox, v)
  }

  lemma SaysOnly(outbox: seq<Gossip>, v: F.Vote)
    requires outbox == [AsMessage(v)]
    ensures forall w :: SaysVote(outbox, w) <==> w == v
    ensures forall b :: Says(outbox, b) <==> b == v.ballot
  {
    assert SaysVote(outbox, v);
    forall w ensures SaysVote(outbox, w) <==> w == v {
      if SaysVote(outbox, w) {
        assert AsMessage(w) == AsMessage(v);
      }
    }
  }

  lemma SaysNothing(outbox: seq<Gossip>)
    requires forall m | m in outbox :: !IsVote(m)
    ensures forall w :: !SaysVote(outbox, w)
    ensures forall b :: !Says(outbox, b)
  {
    forall w ensures !SaysVote(outbox, w) {
      assert IsVote(AsMessage(w));
    }
  }

  /** Messages one after the other say what each says. */
  lemma SaysBoth(first: seq<Gossip>, second: seq<Gossip>)
    ensures forall w :: SaysVote(first + second, w) <==> SaysVote(first, w) || SaysVote(second, w)
    ensures forall b :: Says(first + second, b) <==> Says(first, b) || Says(second, b)
  {
    forall b ensures Says(first + second, b) <==> Says(first, b) || Says(second, b) {
      if w: F.Vote :| w.ballot == b && SaysVote(first, w) {
        assert SaysVote(first + second, w);
      }
      if w: F.Vote :| w.ballot == b && SaysVote(second, w) {
        assert SaysVote(first + second, w);
      }
    }
  }

  /** What is recorded is what is said, and it is genuine. */
  ghost predicate Tells(cfg: Config, s: NodeState, after: NodeState, brought: set<F.Ballot>) {
    && (forall b :: b in Recorded(cfg, after) <==> b in Recorded(cfg, s) || b in brought || Says(after.outbox, b))
    && (forall v :: SaysVote(after.outbox, v) ==> IsGenuine(cfg, v))
  }

  // ---- votes -----------------------------------------------------------------------------------------------

  ghost predicate News(cfg: Config, s: NodeState, v: F.Vote) {
    IsGenuine(cfg, v) && Judges(cfg, s.blocks, v.ballot) && v.ballot !in Recorded(cfg, s)
  }

  /** The vote completes a quorum on which this node extends its chain. */
  predicate Starts(cfg: Config, me: Signer, s: NodeState, v: F.Vote) {
    match v.ballot.subject
    case CommitTo(_) => false
    case ChangeTo(height, view) =>
      && Records(cfg, s, height, view, v.ballot.signer, v.signature)
      && Ready(cfg, WithVote(s, height, view, v.ballot.signer, v.signature), me, height, view)
  }

  /** What the handler of a vote tests before it records it. */
  predicate Counts(cfg: Config, s: NodeState, v: F.Vote) {
    match v.ballot.subject
    case CommitTo(hash) =>
      var at := FindBlock(cfg, s.blocks, hash);
      at.Some? && CommitCounts(cfg, s.blocks, at.value, v.ballot.signer, v.signature)
    case ChangeTo(height, view) => Records(cfg, s, height, view, v.ballot.signer, v.signature)
  }

  lemma NewsIsHandled(cfg: Config, s: NodeState, v: F.Vote)
    requires InjectiveHeaders(cfg) && Linked(cfg, s.blocks)
    ensures News(cfg, s, v) <==> Counts(cfg, s, v)
  {
    hide Recorded, Judges, IsGenuine, Linked, CommitCounts, Records;
    match v.ballot.subject
    case CommitTo(hash) =>
      assert v == CommitVote(hash, v.ballot.signer, v.signature);
      CommitNews(cfg, s, hash, v.ballot.signer, v.signature);
    case ChangeTo(height, view) =>
      assert v == ChangeVote(height, view, v.ballot.signer, v.signature);
      VoteNews(cfg, s, height, view, v.ballot.signer, v.signature);
  }

  /** A vote that is no news changes nothing. */
  lemma NoNews(cfg: Config, me: Signer, s: NodeState, v: F.Vote, now: int)
    requires InjectiveHeaders(cfg) && Linked(cfg, s.blocks) && !News(cfg, s, v)
    ensures Handled(cfg, me, s, v, now) == s && !Starts(cfg, me, s, v)
  {
    NewsIsHandled(cfg, s, v);
    hide News, Linked, CommitCounts, Records, AfterAdvance, Ready;
  }

  /** News is recorded and relayed. */
  lemma NewsTold(cfg: Config, me: Signer, s: NodeState, v: F.Vote, now: int)
    requires InjectiveHeaders(cfg) && NodeOk(cfg, me, s) && News(cfg, s, v) && !Starts(cfg, me, s, v)
    ensures
      var after := Handled(cfg, me, s, v, now);
      && after.outbox == [AsMessage(v)] && Recorded(cfg, after) == Recorded(cfg, s) + {v.ballot}
      && after.advanced == s.advanced
  {
    NewsIsHandled(cfg, s, v);
    hide News, Linked, CommitCounts, Records, Ready, SignsProperly, CommitBallots, VoteBallots, WithVote, WithCommit;
    match v.ballot.subject
    case CommitTo(hash) =>
      CommitBallotsGrow(cfg, s.blocks, FindBlock(cfg, s.blocks, hash).value, v.ballot.signer, v.signature);
    case ChangeTo(height, view) =>
      VoteBallotsGrow(s, height, view, v.ballot.signer, v.signature);
      VoteKeepsRest(s, height, view, v.ballot.signer, v.signature);
  }

  lemma VoteKeepsRest(s: NodeState, height: int, view: int, k: Key, signature: Signature)
    ensures WithVote(s, height, view, k, signature) == s.(votes := WithVote(s, height, view, k, signature).votes)
  {
  }

  lemma OwnVoteTells(cfg: Config, s: NodeState, after: NodeState, own: F.Vote, rest: seq<Gossip>,
                     brought: set<F.Ballot>)
    requires after.outbox == [AsMessage(own)] + rest && (forall m | m in rest :: !IsVote(m)) && IsGenuine(cfg, own)
    requires Recorded(cfg, after) == Recorded(cfg, s) + brought + {own.ballot}
    ensures Tells(cfg, s, after, brought)
  {
    hide Says, SaysVote, Recorded, IsGenuine;
    SaysOnly([AsMessage(own)], own);
    SaysNothing(rest);
    SaysBoth([AsMessage(own)], rest);
  }

  lemma NoVoteTells(cfg: Config, s: NodeState, after: NodeState, brought: set<F.Ballot>)
    requires (forall m | m in after.outbox :: !IsVote(m)) && Recorded(cfg, after) == Recorded(cfg, s) + brought
    ensures Tells(cfg, s, after, brought)
  {
    SaysNothing(after.outbox);
    hide Says, SaysVote, Recorded, IsGenuine;
  }

  function OwnCommit(cfg: Config, me: Signer, b: Block): F.Vote {
    CommitVote(BlockHash(cfg, b), me.key, OwnSignature(cfg, me, b))
  }

  lemma StartShape(cfg: Config, me: Signer, s: NodeState, v: F.Vote, now: int)
    requires InjectiveHeaders(cfg) && NodeOk(cfg, me, s) && Starts(cfg, me, s, v)
    ensures
      var after := Handled(cfg, me, s, v, now);
      && after.blocks != []
      && var b := after.blocks[|after.blocks| - 1];
      && after.outbox == [AsMessage(v)] + ([AsMessage(OwnCommit(cfg, me, b))] + [BlockMessage(b)])
      && Recorded(cfg, after) == Recorded(cfg, s) + {v.ballot} + {OwnCommit(cfg, me, b).ballot}
  {
    hide Ready, Records, Linked, SignsProperly, WithVote, BlockHash, OwnSignature, Recorded, AfterVote, Judges,
         InjectiveHeaders;
    var height, view := v.ballot.subject.height, v.ballot.subject.view;
    assert v == ChangeVote(height, view, v.ballot.signer, v.signature);
    OnViewChangeProposes(cfg, s, me, height, view, v.ballot.signer, v.signature, now);
    assert s.outbox + [AsMessage(v)] == [AsMessage(v)];
  }

  lemma TwoVotesTell(cfg: Config, s: NodeState, after: NodeState, v: F.Vote, own: F.Vote, b: Block)
    requires after.outbox == [AsMessage(v)] + ([AsMessage(own)] + [BlockMessage(b)])
    requires Recorded(cfg, after) == Recorded(cfg, s) + {v.ballot} + {own.ballot}
    requires IsGenuine(cfg, v) && IsGenuine(cfg, own)
    ensures Tells(cfg, s, after, {})
    ensures forall x | Says(after.outbox, x) :: x == v.ballot || x == own.ballot
  {
    hide Says, SaysVote, Recorded, IsGenuine;
    SaysOnly([AsMessage(v)], v);
    SaysOnly([AsMessage(own)], own);
    SaysNothing([BlockMessage(b)]);
    SaysBoth([AsMessage(own)], [BlockMessage(b)]);
    SaysBoth([AsMessage(v)], [AsMessage(own)] + [BlockMessage(b)]);
  }

  /** A vote, and then the proposal it starts. */
  lemma StartTold(cfg: Config, me: Signer, s: NodeState, v: F.Vote, now: int)
    requires InjectiveHeaders(cfg) && NodeOk(cfg, me, s) && Starts(cfg, me, s, v)
    ensures
      var after := Handled(cfg, me, s, v, now);
      && Tells(cfg, s, after, {}) && v.ballot in Recorded(cfg, after)
      && (forall b | Says(after.outbox, b) :: b == v.ballot || b.subject.CommitTo?)
  {
    hide Handled, Starts, Says, SaysVote, Recorded, IsGenuine, Linked, SignsProperly, InjectiveHeaders, Tells;
    var after := Handled(cfg, me, s, v, now);
    StartShape(cfg, me, s, v, now);
    StartIsNews(cfg, me, s, v);
    var b := after.blocks[|after.blocks| - 1];
    OwnIsGenuine(cfg, me, b);
    TwoVotesTell(cfg, s, after, v, OwnCommit(cfg, me, b), b);
  }

  lemma StartIsNews(cfg: Config, me: Signer, s: NodeState, v: F.Vote)
    requires InjectiveHeaders(cfg) && Linked(cfg, s.blocks) && Starts(cfg, me, s, v)
    ensures News(cfg, s, v)
  {
    NewsIsHandled(cfg, s, v);
    hide News, Records, Ready, Linked;
  }

  lemma OwnIsGenuine(cfg: Config, me: Signer, b: Block)
    requires InjectiveHeaders(cfg) && SignsProperly(cfg, me)
    ensures IsGenuine(cfg, OwnCommit(cfg, me, b))
  {
    GenuineHere(cfg, b, me.key, OwnSignature(cfg, me, b));
    assert Verifies(cfg, me.key, HeaderMessage(HeaderOf(cfg, b)), OwnSignature(cfg, me, b));
  }

  /** Whatever a vote does to a node, the node records what it says, and a genuine vote it can judge is on record. */
  lemma HandledTells(cfg: Config, me: Signer, s: NodeState, v: F.Vote, now: int)
    requires InjectiveHeaders(cfg) && NodeOk(cfg, me, s)
    ensures
      var after := Handled(cfg, me, s, v, now);
      && Tells(cfg, s, after, {})
      && (Says(after.outbox, v.ballot) ==> IsGenuine(cfg, v) && Judges(cfg, s.blocks, v.ballot))
      && (IsGenuine(cfg, v) && Judges(cfg, s.blocks, v.ballot) ==> v.ballot in Recorded(cfg, after))
      && (forall b | Says(after.outbox, b) :: b == v.ballot || b.subject.CommitTo?)
  {
    var after := Handled(cfg, me, s, v, now);
    hide Handled, IsGenuine, Judges, Recorded, Starts, Linked, SignsProperly;
    if !News(cfg, s, v) {
      NoNews(cfg, me, s, v, now);
      NoVoteTells(cfg, s, after, {});
      SaysNothing(after.outbox);
    } else if Starts(cfg, me, s, v) {
      StartTold(cfg, me, s, v, now);
    } else {
      NewsTold(cfg, me, s, v, now);
      assert after.outbox == [AsMessage(v)] + [];
      OwnVoteTells(cfg, s, after, v, [], {});
      SaysOnly(after.outbox, v);
    }
  }

  // ---- blocks ------------------------------------------------------------------------------------------------

  lemma AppendBallots(cfg: Config, blocks: seq<Block>, b: Block)
    ensures CommitBallots(cfg, blocks + [b]) == CommitBallots(cfg, blocks) + CommitBallots(cfg, [b])
  {
    hide BlockHash;
    var longer := blocks + [b];
    forall x ensures x in CommitBallots(cfg, longer) <==> x in CommitBallots(cfg, blocks) + CommitBallots(cfg, [b]) {
      if x in CommitBallots(cfg, blocks) {
        var j, k :| 0 <= j < |blocks| && k in blocks[j].commits
            && x == F.Ballot(F.CommitTo(BlockHash(cfg, blocks[j])), k);
        assert longer[j] == blocks[j];
      }
      if x in CommitBallots(cfg, [b]) {
        assert [b][0] == b == longer[|blocks|];
      }
      if x in CommitBallots(cfg, longer) {
        var j, k :| 0 <= j < |longer| && k in longer[j].commits
            && x == F.Ballot(F.CommitTo(BlockHash(cfg, longer[j])), k);
        assert if j < |blocks| then longer[j] == blocks[j] else longer[j] == [b][0];
      }
    }
  }

  /** A received block is appended with the commits it carries and this node's own, or the chain is asked for. */
  lemma BlockTells(cfg: Config, me: Signer, s: NodeState, x: Block)
    requires InjectiveHeaders(cfg) && NodeOk(cfg, me, s)
    ensures
      Tells(cfg, s, AfterBlock(cfg, s, me, x),
            if ValidChain(cfg, s.blocks + [x]) then CommitBallots(cfg, [x]) else {})
  {
    var after, n, own := AfterBlock(cfg, s, me, x), |s.blocks|, OwnCommit(cfg, me, x);
    hide ValidChain, MayCommit, BlockHash, OwnSignature, SignsProperly, Linked, IsGenuine, CommitBallots,
         VoteBallots, WithCommit, Tells, InjectiveHeaders;
    AppendBallots(cfg, s.blocks, x);
    OwnIsGenuine(cfg, me, x);
    if !ValidChain(cfg, s.blocks + [x]) {
      NoVoteTells(cfg, s, after, {});
    } else if !MayCommit(cfg, s.blocks + [x], me, n) {
      NoVoteTells(cfg, s, after, CommitBallots(cfg, [x]));
    } else {
      CommitBallotsGrow(cfg, s.blocks + [x], n, me.key, own.signature);
      assert after.outbox == [AsMessage(own)] + [];
      OwnVoteTells(cfg, s, after, own, [], CommitBallots(cfg, [x]));
    }
  }

  lemma ProposalTells(cfg: Config, me: Signer, s: NodeState, view: int, votes: map<Key, Signature>, now: int)
    requires InjectiveHeaders(cfg) && NodeOk(cfg, me, s)
    ensures Tells(cfg, s, AfterProposal(cfg, s, me, view, votes, now), {})
  {
    var b := ProposedBlock(cfg, s.blocks, s.pool, me, view, votes, now);
    var after, own := AfterProposal(cfg, s, me, view, votes, now), OwnCommit(cfg, me, b);
    hide Linked, SignsProperly, IsGenuine, OwnSignature, Tells, ProposedBlock, BlockHash, ValidatorSet,
         CommitBallots, VoteBallots, InjectiveHeaders;
    OwnIsGenuine(cfg, me, b);
    if me.key in ValidatorSet(cfg, Bodies(s.blocks)) {
      ProposerCommits(cfg, s.blocks, s.pool, me, view, votes, now);
      assert after.outbox == [AsMessage(own)] + [BlockMessage(b)];
      OwnVoteTells(cfg, s, after, own, [BlockMessage(b)], {});
    } else {
      OutsiderCarriesNothing(cfg, s, me, view, votes, now);
      AppendBallots(cfg, s.blocks, b);
      NoVoteTells(cfg, s, after, {});
    }
  }

  lemma OutsiderCarriesNothing(cfg: Config, s: NodeState, me: Signer, view: int, votes: map<Key, Signature>, now: int)
    requires s.blocks != [] && me.key !in ValidatorSet(cfg, Bodies(s.blocks))
    ensures CommitBallots(cfg, [ProposedBlock(cfg, s.blocks, s.pool, me, view, votes, now)]) == {}
  {
    hide ValidatorSet, HeaderOf;
    assert ProposedBlock(cfg, s.blocks, s.pool, me, view, votes, now).commits == map[];
  }

  // ---- every act ----------------------------------------------------------------------------------------------

  lemma ViewBallotsAreVotes(cfg: Config, s: NodeState, b: F.Ballot)
    requires b.subject.ChangeTo?
    ensures b in Recorded(cfg, s) <==> b in VoteBallots(s.votes)
  {
  }

  /** What each act of a node means for its records. */
  ghost predicate Accounts(cfg: Config, s: NodeState, after: NodeState, act: Act) {
    && (forall v | SaysVote(after.outbox, v) :: IsGenuine(cfg, v))
    && (forall b: F.Ballot | b.subject.ChangeTo? || !(act.HearBlock? || act.HearChain?) ::
          b in Recorded(cfg, after) <==> b in Recorded(cfg, s) || Says(after.outbox, b))
    && (act.HearVote? ==>
          var v := act.envelope.vote;
          && (Says(after.outbox, v.ballot) ==> IsGenuine(cfg, v) && Judges(cfg, s.blocks, v.ballot))
          && (IsGenuine(cfg, v) && Judges(cfg, s.blocks, v.ballot) ==> v.ballot in Recorded(cfg, after)))
  }

  lemma ActAccounts(cfg: Config, me: Signer, s: NodeState, act: Act, now: int)
    requires InjectiveHeaders(cfg) && NodeOk(cfg, me, s)
    ensures Accounts(cfg, s, After(cfg, me, s, act, now), act)
  {
    hide Handled, AfterBlock, AfterProposal, Recorded, IsGenuine, Judges, Says, SaysVote, Linked, SignsProperly,
         InjectiveHeaders, ValidChain, Adopts;
    match act
    case HearVote(e) => HandledTells(cfg, me, s, e.vote, now);
    case HearBlock(p) =>
      BlockTells(cfg, me, s, p.content);
      BroughtAreCommits(cfg, [p.content]);
    case HearRequest(_, _) => QuietAccounts(cfg, me, s, act, now);
    case HearChain(p) => QuietAccounts(cfg, me, s, act, now);
    case Mine(_, view, votes) => ProposalTells(cfg, me, s, view, votes, now);
    case Ask(_, height, view) => HandledTells(cfg, me, s, OwnVote(me, height, view), now);
    case Submit(_, tx) => QuietAccounts(cfg, me, s, act, now);
  }

  /** Answering a request, taking a chain and pooling a transaction send no vote. */
  lemma QuietAccounts(cfg: Config, me: Signer, s: NodeState, act: Act, now: int)
    requires NodeOk(cfg, me, s) && (act.HearRequest? || act.HearChain? || act.Submit?)
    ensures Accounts(cfg, s, After(cfg, me, s, act, now), act)
  {
    var after := After(cfg, me, s, act, now);
    hide Recorded, IsGenuine, Judges, Says, SaysVote, Adopts, Uncommitted;
    SaysNothing(after.outbox);
    if act.HearChain? {
      forall b: F.Ballot | b.subject.ChangeTo? ensures b in Recorded(cfg, after) <==> b in Recorded(cfg, s) {
        ViewBallotsAreVotes(cfg, s, b);
        ViewBallotsAreVotes(cfg, after, b);
      }
    } else {
      SameRecords(cfg, s, after);
    }
  }

  lemma BroughtAreCommits(cfg: Config, blocks: seq<Block>)
    ensures forall b | b in CommitBallots(cfg, blocks) :: b.subject.CommitTo?
  {
  }

  lemma SameRecords(cfg: Config, s: NodeState, t: NodeState)
    requires s.blocks == t.blocks && s.votes == t.votes
    ensures Recorded(cfg, s) == Recorded(cfg, t)
  {
  }

  // ---- finality --------------------------------------------------------------------------------------------------

  /** The chain stays linked, keeps what was finalized, and does not fall in rank. */
  ghost predicate Keeps(cfg: Config, a: seq<Block>, b: seq<Block>) {
    && Linked(cfg, a) && Linked(cfg, b)
    && RankAtMost(ForkChoiceRank(cfg, a), ForkChoiceRank(cfg, b))
    && SameHashes(cfg, a, b, FinalizedHeight(cfg, a))
  }

  lemma StepKeeps(cfg: Config, a: seq<Block>, b: seq<Block>)
    requires CollisionFree(cfg) && Linked(cfg, a) && NodeStep(cfg, a, b)
    ensures Keeps(cfg, a, b)
  {
    hide CollisionFree, Linked, NodeStep, FinalizedHeight, SameHashes, ForkChoiceRank;
    StepSafe(cfg, a, b);
  }

  lemma KeepsCompose(cfg: Config, a: seq<Block>, b: seq<Block>, c: seq<Block>)
    requires Keeps(cfg, a, b) && Keeps(cfg, b, c)
    ensures Keeps(cfg, a, c)
  {
    hide FinalizedHeight, SameHashes, ForkChoiceRank, RankAtMost;
    HashesCompose(cfg, a, b, c);
  }

  lemma CommitIsStep(cfg: Config, blocks: seq<Block>, i: nat, k: Key, signature: Signature)
    requires blocks != [] && i < |blocks| && k !in blocks[i].commits
    ensures NodeStep(cfg, blocks, WithCommit(blocks, i, k, signature))
  {
    assert AddsCommit(blocks, WithCommit(blocks, i, k, signature));
    hide WithCommit, Adopts, Extends;
  }

  /** No act of a node undoes what it has finalized. */
  lemma ActKeeps(cfg: Config, me: Signer, s: NodeState, act: Act, now: int)
    requires CollisionFree(cfg) && NodeOk(cfg, me, s)
    ensures Keeps(cfg, s.blocks, After(cfg, me, s, act, now).blocks)
  {
    hide Keeps, Linked, SignsProperly, CollisionFree, ValidChain, NodeStep, AfterBlock, Handled, ProposedBlock;
    match act
    case HearVote(e) => HandledKeeps(cfg, me, s, e.vote, now);
    case HearBlock(p) => BlockKeeps(cfg, me, s, p.content);
    case HearRequest(_, _) => RestKeeps(cfg, s.blocks);
    case HearChain(p) => ChainKeeps(cfg, s, p.content);
    case Mine(_, view, votes) =>
      ProposedExtends(cfg, s.blocks, s.pool, me, view, votes, now);
      StepKeeps(cfg, s.blocks, After(cfg, me, s, act, now).blocks);
    case Ask(_, height, view) => HandledKeeps(cfg, me, s, OwnVote(me, height, view), now);
    case Submit(_, _) => RestKeeps(cfg, s.blocks);
  }

  lemma RestKeeps(cfg: Config, blocks: seq<Block>)
    requires CollisionFree(cfg) && Linked(cfg, blocks)
    ensures Keeps(cfg, blocks, blocks)
  {
    AtRest(cfg, blocks);
    StepKeeps(cfg, blocks, blocks);
  }

  lemma ChainKeeps(cfg: Config, s: NodeState, candidate: seq<Block>)
    requires CollisionFree(cfg) && Linked(cfg, s.blocks)
    ensures Keeps(cfg, s.blocks, AfterChain(cfg, s, candidate).blocks)
  {
    hide Keeps, CollisionFree, Adopts, Extends, AddsCommit;
    RestKeeps(cfg, s.blocks);
    if Adopts(cfg, s.blocks, candidate) {
      StepKeeps(cfg, s.blocks, candidate);
    }
  }

  lemma BlockKeeps(cfg: Config, me: Signer, s: NodeState, x: Block)
    requires CollisionFree(cfg) && Linked(cfg, s.blocks)
    ensures Keeps(cfg, s.blocks, AfterBlock(cfg, s, me, x).blocks)
  {
    RestKeeps(cfg, s.blocks);
    hide Keeps, CollisionFree, Linked, ValidChain, NodeStep, WithCommit, OwnSignature, ValidatorSet, BlockHash;
    if ValidChain(cfg, s.blocks + [x]) {
      var longer, n := s.blocks + [x], |s.blocks|;
      AppendedExtends(cfg, s.blocks, x);
      StepKeeps(cfg, s.blocks, longer);
      if MayCommit(cfg, longer, me, n) {
        CommitIsStep(cfg, longer, n, me.key, OwnSignature(cfg, me, x));
        StepKeeps(cfg, longer, WithCommit(longer, n, me.key, OwnSignature(cfg, me, x)));
        KeepsCompose(cfg, s.blocks, longer, WithCommit(longer, n, me.key, OwnSignature(cfg, me, x)));
      }
    }
  }

  lemma HandledKeeps(cfg: Config, me: Signer, s: NodeState, v: F.Vote, now: int)
    requires CollisionFree(cfg) && NodeOk(cfg, me, s)
    ensures Keeps(cfg, s.blocks, Handled(cfg, me, s, v, now).blocks)
  {
    RestKeeps(cfg, s.blocks);
    hide Keeps, CollisionFree, Linked, SignsProperly, NodeStep, WithCommit, ProposedBlock, Records, Ready, HeaderOf,
         ValidatorSet;
    match v.ballot.subject
    case CommitTo(hash) =>
      var at := FindBlock(cfg, s.blocks, hash);
      if at.Some? && CommitCounts(cfg, s.blocks, at.value, v.ballot.signer, v.signature) {
        CommitIsStep(cfg, s.blocks, at.value, v.ballot.signer, v.signature);
        StepKeeps(cfg, s.blocks, WithCommit(s.blocks, at.value, v.ballot.signer, v.signature));
      }
    case ChangeTo(height, view) =>
      var voted := WithVote(s, height, view, v.ballot.signer, v.signature);
      var votes := VotesIn(voted.votes, (height, view));
      ProposedExtends(cfg, s.blocks, s.pool, me, view, votes, now);
      StepKeeps(cfg, s.blocks, s.blocks + [ProposedBlock(cfg, s.blocks, s.pool, me, view, votes, now)]);
  }

  // ---- what an act can set off ---------------------------------------------------------------------------------

  predicate VoteFor(v: F.Vote, height: int) {
    v.ballot.subject.ChangeTo? && v.ballot.subject.height == height
  }

  /** No new height comes up, and no height that was settled opens again. */
  ghost predicate Settles(s: NodeState, after: NodeState, act: Act) {
    && (forall slot | slot in after.votes :: slot in s.votes || (act.HearVote? && VoteFor(act.envelope.vote, slot.0)))
    && (forall v, height | SaysVote(after.outbox, v) && VoteFor(v, height) ::
          act.HearVote? && VoteFor(act.envelope.vote, height))
    && s.advanced <= after.advanced
  }

  lemma HandledSettles(cfg: Config, me: Signer, s: NodeState, e: F.Envelope, now: int)
    requires InjectiveHeaders(cfg) && NodeOk(cfg, me, s)
    ensures Settles(s, Handled(cfg, me, s, e.vote, now), HearVote(e))
  {
    var v, after := e.vote, Handled(cfg, me, s, e.vote, now);
    HandledTells(cfg, me, s, v, now);
    forall w, height | SaysVote(after.outbox, w) && VoteFor(w, height) ensures VoteFor(v, height) {
      assert Says(after.outbox, w.ballot);
    }
    hide Tells, Says, SaysVote, Judges, Recorded, IsGenuine, Linked, SignsProperly, Ready, Records, ProposedBlock,
         ProposalMessages, CommitCounts, WithCommit;
  }

  /** Hearing a block, a request or a chain opens nothing and sends no block. */
  lemma OthersSettle(cfg: Config, me: Signer, s: NodeState, act: Act, now: int)
    requires InjectiveHeaders(cfg) && NodeOk(cfg, me, s) && !IsCall(act) && !act.HearVote?
    ensures
      var after := After(cfg, me, s, act, now);
      && Settles(s, after, act)
      && (forall m | m in after.outbox :: !m.BlockMessage?)
      && (act.HearRequest? ==> after.outbox == [ChainMessage(s.blocks)])
      && (act.HearChain? ==> after.outbox == [])
  {
    var after := After(cfg, me, s, act, now);
    assert after.votes == s.votes;
    assert forall v: F.Vote | v.ballot.subject.ChangeTo? :: AsMessage(v).ViewChangeVote?;
    assert forall m | m in after.outbox :: !m.ViewChangeVote?;
    hide Linked, SignsProperly, ValidChain, Adopts, MayCommit, After;
  }

  /** A vote that starts a proposal settles a height that was open. */
  lemma StartSettles(cfg: Config, me: Signer, s: NodeState, v: F.Vote, now: int)
    requires s.blocks != [] && Starts(cfg, me, s, v)
    ensures
      var height := v.ballot.subject.height;
      VoteFor(v, height) && height !in s.advanced && height in Handled(cfg, me, s, v, now).advanced
  {
    hide Records, ValidatorsAt, ScheduledProposer, QuorumSize, ProposedBlock, ProposalMessages;
  }

  /** Any other vote is relayed as it is recorded, or changes nothing. */
  lemma HearingIsSmall(cfg: Config, me: Signer, s: NodeState, v: F.Vote, now: int)
    requires InjectiveHeaders(cfg) && NodeOk(cfg, me, s) && !Starts(cfg, me, s, v)
    ensures
      var after := Handled(cfg, me, s, v, now);
      || (after == s && after.outbox == [])
      || (after.outbox == [AsMessage(v)] && after.advanced == s.advanced && v.ballot !in Recorded(cfg, s)
          && Recorded(cfg, after) == Recorded(cfg, s) + {v.ballot})
  {
    hide Handled, Recorded, IsGenuine, Judges, Linked, SignsProperly, InjectiveHeaders, Starts;
    if News(cfg, s, v) {
      NewsTold(cfg, me, s, v, now);
    } else {
      NoNews(cfg, me, s, v, now);
    }
  }
}
