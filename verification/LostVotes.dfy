/**
 * A vote that is lost although the mesh is connected: network/community.py:857-859 drops a commit on a block that
 * the node does not hold, and so does not relay it. Three nodes in a row, of which the middle one holds only the
 * genesis block; the network falls silent without the last one hearing of a commit it would have counted.
 */
module LostVotes {
  import opened Types
  import opened Derive
  import opened Consensus
  import opened ForkChoice
  import R = Runs
  import opened Protocol
  import opened Delivery
  import opened Acts
  import opened Network
  import opened Exhibits
  import F = Flood

  function Hands(sign: Hand): seq<Signer> {
    [Signer(1, (m: Message) => sign(1, m)), Signer(3, (m: Message) => sign(3, m)),
     Signer(2, (m: Message) => sign(2, m))]
  }

  function Row(sign: Hand): Mesh {
    Mesh(Hands(sign), [[1], [0, 2], [1]])
  }

  function Holding(blocks: seq<Block>): NodeState {
    NodeState(blocks, [], map[], {}, [])
  }

  /** The last node has sent its block 1 to the first; the middle one has not seen it. */
  function Before(cfg: Config, sign: Hand): Net {
    Net([Holding([GenesisBlock()]), Holding([GenesisBlock()]), Holding(Trunk(cfg, sign))],
        multiset{}, multiset{Parcel(2, 0, Trunk(cfg, sign)[1])}, multiset{}, multiset{}, 0, {})
  }

  /** The first node's commit on block 1. */
  function FirstCommit(cfg: Config, sign: Hand): F.Vote {
    var b := Trunk(cfg, sign)[1];
    CommitVote(BlockHash(cfg, b), 1, sign(1, HeaderMessage(HeaderOf(cfg, b))))
  }

  function Committed(cfg: Config, sign: Hand): seq<Block> {
    R.WithCommit(Trunk(cfg, sign), 1, 1, FirstCommit(cfg, sign).signature)
  }

  /** The first node has appended the block and committed to it. */
  function Between(cfg: Config, sign: Hand): Net {
    Before(cfg, sign).(nodes := Before(cfg, sign).nodes[0 := Holding(Committed(cfg, sign))], blocks := multiset{},
                       votes := multiset{F.Envelope(1, FirstCommit(cfg, sign))},
                       casters := {(0, FirstCommit(cfg, sign).ballot)})
  }

  function Silence(cfg: Config, sign: Hand): Net {
    Between(cfg, sign).(votes := multiset{})
  }

  predicate IsSilent(a: Net) {
    a.votes == multiset{} && a.blocks == multiset{} && a.requests == multiset{} && a.chains == multiset{}
        && a.calls == 0
  }

  // ---- the first step: the block arrives ------------------------------------------------------------

  lemma FirstAppends(cfg: Config, sign: Hand, w: int, now: int)
    requires Stage(cfg, sign, w)
    ensures
      var s, me, b := Holding([GenesisBlock()]), Hands(sign)[0], Trunk(cfg, sign)[1];
      AfterBlock(cfg, s, me, b) == Holding(Committed(cfg, sign)).(outbox := [AsMessage(FirstCommit(cfg, sign))])
  {
    var b, g := Trunk(cfg, sign)[1], [GenesisBlock()];
    TrunkValid(cfg, sign, w);
    RootValid(cfg, sign, w);
    TrunkShape(cfg, sign);
    hide Stage, ValidChain, ValidatorSet, BlockHash, HeaderOf, Trunk, Uncommitted;
    assert Trunk(cfg, sign) == g + [b] && |g| == 1;
    assert (g + [b])[..1] == g;
    NothingPooled(cfg, CommittedHashes(cfg, [b]));
  }

  lemma NothingPooled(cfg: Config, hashes: set<Hash>)
    ensures Uncommitted(cfg, [], hashes) == []
  {
  }

  lemma FirstStep(cfg: Config, sign: Hand, w: int, now: int)
    requires Stage(cfg, sign, w)
    ensures Step(cfg, Row(sign), Before(cfg, sign), Between(cfg, sign))
  {
    var a, mesh, b := Before(cfg, sign), Row(sign), Trunk(cfg, sign)[1];
    var act, v := HearBlock(Parcel(2, 0, b)), FirstCommit(cfg, sign);
    FirstAppends(cfg, sign, w, now);
    hide AfterBlock, Stage, Trunk, Committed, FirstCommit;
    var after := Holding(Committed(cfg, sign)).(outbox := [AsMessage(v)]);
    assert After(cfg, mesh.signers[0], a.nodes[0], act, now) == after;
    assert v.ballot.subject.CommitTo? by { CommitsToBlock(cfg, sign); }
    OneSent(Taken(a, act), 0, [1], 2, v);
    CastInOne(act, v);
    hide AllSent, CastIn, AsMessage, After;
    assert after.(outbox := []) == Holding(Committed(cfg, sign));
    assert StepBy(cfg, mesh, a, Between(cfg, sign), act, now);
  }

  lemma CommitsToBlock(cfg: Config, sign: Hand)
    ensures FirstCommit(cfg, sign).ballot == F.Ballot(F.CommitTo(BlockHash(cfg, Trunk(cfg, sign)[1])), 1)
  {
  }

  lemma OneSent(a: Net, i: nat, peers: seq<nat>, answered: nat, v: F.Vote)
    ensures AllSent(a, i, peers, answered, [AsMessage(v)]) == a.(votes := a.votes + F.Copies(peers, v))
    ensures |peers| == 1 ==> F.Copies(peers, v) == multiset{F.Envelope(peers[0], v)}
  {
    var outbox := [AsMessage(v)];
    assert outbox[..0] == [] && AsVote(AsMessage(v)) == v;
    if |peers| == 1 {
      assert peers[..0] == [];
    }
  }

  lemma CastInOne(act: Act, v: F.Vote)
    requires !act.HearVote?
    ensures CastIn(act, [AsMessage(v)]) == {v.ballot}
  {
    assert IsVote(AsMessage(v)) && AsVote(AsMessage(v)) == v;
  }

  // ---- the second: the commit arrives where the block has not ------------------------------------------

  lemma SecondStep(cfg: Config, sign: Hand, w: int, now: int)
    requires Stage(cfg, sign, w)
    ensures Step(cfg, Row(sign), Between(cfg, sign), Silence(cfg, sign))
  {
    var a, mesh, v := Between(cfg, sign), Row(sign), FirstCommit(cfg, sign);
    var act, g := HearVote(F.Envelope(1, v)), [GenesisBlock()];
    UnknownBlock(cfg, sign, w);
    CommitsToBlock(cfg, sign);
    hide Stage, Trunk, Committed, FirstCommit, FindBlock, CommitCounts, BlockHash;
    var after := After(cfg, mesh.signers[1], a.nodes[1], act, now);
    assert after == Holding(g);
    assert CastIn(act, []) == {};
    assert StepBy(cfg, mesh, a, Silence(cfg, sign), act, now);
  }

  lemma UnknownBlock(cfg: Config, sign: Hand, w: int)
    requires Stage(cfg, sign, w)
    ensures FindBlock(cfg, [GenesisBlock()], BlockHash(cfg, Trunk(cfg, sign)[1])) == None
  {
    var b := Trunk(cfg, sign)[1];
    assert b.index == 1 && GenesisBlock().index == 0;
    assert HeaderOf(cfg, b) != HeaderOf(cfg, GenesisBlock());
    hide HeaderOf;
    var found := FindBlock(cfg, [GenesisBlock()], BlockHash(cfg, b));
    assert found.Some? ==> BlockHash(cfg, GenesisBlock()) == BlockHash(cfg, b);
  }

  // ---- the end -----------------------------------------------------------------------------------------------

  lemma RowIsSound(cfg: Config, sign: Hand, w: int)
    requires Stage(cfg, sign, w)
    ensures NetOk(cfg, Row(sign), Before(cfg, sign))
  {
    var a, mesh := Before(cfg, sign), Row(sign);
    RootValid(cfg, sign, w);
    TrunkValid(cfg, sign, w);
    ValidIsLinked(cfg, [GenesisBlock()]);
    ValidIsLinked(cfg, Trunk(cfg, sign));
    HandSigns(cfg, sign, w, mesh.signers[0]);
    HandSigns(cfg, sign, w, mesh.signers[1]);
    HandSigns(cfg, sign, w, mesh.signers[2]);
    hide ValidChain, Linked, SignsProperly, Stage, Trunk;
    forall i | 0 <= i < 3 ensures NodeOk(cfg, mesh.signers[i], a.nodes[i]) {
      assert Linked(cfg, a.nodes[i].blocks);
    }
  }

  lemma HandSigns(cfg: Config, sign: Hand, w: int, me: Signer)
    requires Stage(cfg, sign, w) && me.key in {1, 2, 3} && forall m :: me.sign(m) == sign(me.key, m)
    ensures SignsProperly(cfg, me)
  {
    forall m ensures Verifies(cfg, me.key, m, me.sign(m)) {
      SignedByOne(cfg, sign, w, me.key, m);
    }
  }

  /**
   * Both ends of the row hold block 1 and count its validator 1. In the silence the first has that commit, the
   * last has not: the one in the middle dropped it.
   */
  lemma CommitNeverArrives(cfg: Config, sign: Hand, w: int, now: int)
    requires Stage(cfg, sign, w)
    ensures IsRun(cfg, Row(sign), [Before(cfg, sign), Between(cfg, sign), Silence(cfg, sign)])
    ensures
      var end := Silence(cfg, sign);
      && IsSilent(end)
      && |end.nodes[0].blocks| == 2 && 1 in end.nodes[0].blocks[1].commits
      && Judges(cfg, end.nodes[2].blocks, FirstCommit(cfg, sign).ballot)
      && end.nodes[2].blocks == Trunk(cfg, sign) && 1 !in end.nodes[2].blocks[1].commits
  {
    hide IsRun, Judges, Stage;
    TheRun(cfg, sign, w, now);
    LastWouldCount(cfg, sign, w);
    assert 1 !in Trunk(cfg, sign)[1].commits && |Trunk(cfg, sign)| == 2;
    assert 1 in Committed(cfg, sign)[1].commits;
    hide Trunk, Committed, FirstCommit;
  }

  lemma TheRun(cfg: Config, sign: Hand, w: int, now: int)
    requires Stage(cfg, sign, w)
    ensures IsRun(cfg, Row(sign), [Before(cfg, sign), Between(cfg, sign), Silence(cfg, sign)])
  {
    hide Step, NetOk, Stage, Trunk, Committed, FirstCommit, Before, Between, Silence;
    RowIsSound(cfg, sign, w);
    FirstStep(cfg, sign, w, now);
    SecondStep(cfg, sign, w, now);
    var run := [Before(cfg, sign), Between(cfg, sign), Silence(cfg, sign)];
    forall t | 0 <= t < 2 ensures Step(cfg, Row(sign), run[t], run[t + 1]) {
      assert run[t + 1] == if t == 0 then run[1] else run[2];
    }
  }

  lemma LastWouldCount(cfg: Config, sign: Hand, w: int)
    requires Stage(cfg, sign, w)
    ensures Judges(cfg, Trunk(cfg, sign), FirstCommit(cfg, sign).ballot)
  {
    var blocks := Trunk(cfg, sign);
    RootValid(cfg, sign, w);
    TrunkShape(cfg, sign);
    TrunkValid(cfg, sign, w);
    ValidIsLinked(cfg, blocks);
    CommitsToBlock(cfg, sign);
    assert InjectiveHeaders(cfg) && |blocks| == 2;
    hide Stage, ValidChain, ValidatorSet, BlockHash, Linked, Trunk, FirstCommit, InjectiveHeaders, FindBlock;
    FoundWhereItIs(cfg, blocks, 1);
    assert blocks[..1] == [GenesisBlock()];
  }
}
