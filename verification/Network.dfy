/**
 * A mesh of nodes that run the handlers of network/community.py. Messages arrive in any order, blocks are mined,
 * received, proposed after a view change and adopted with whole chains while votes are on their way. Whatever
 * happens, no node loses what it has finalized; and if nobody calls the nodes any more, they fall silent.
 */
module Network {
  import opened Types
  import opened Sets
  import opened ForkChoice
  import opened Protocol
  import opened Delivery
  import opened Acts
  import F = Flood

  /**
   * Between two acts every outbox is empty: what a node sent is in flight. `calls` is how many more calls come
   * from outside, `casters` remembers who cast which vote.
   */
  datatype Net = Net(nodes: seq<NodeState>, votes: multiset<F.Envelope>, blocks: multiset<Parcel<Block>>,
                     requests: multiset<(nat, nat)>, chains: multiset<Parcel<seq<Block>>>, calls: nat,
                     casters: set<(nat, F.Ballot)>)

  /** Who runs the nodes, and which peers each of them has. */
  datatype Mesh = Mesh(signers: seq<Signer>, peers: seq<seq<nat>>)

  // ---- sending -----------------------------------------------------------------------------------

  function BlockCopies(source: nat, peers: seq<nat>, b: Block): multiset<Parcel<Block>> {
    if peers == [] then multiset{}
    else BlockCopies(source, peers[..|peers| - 1], b) + multiset{Parcel(source, peers[|peers| - 1], b)}
  }

  /** Node i sends one message: to all its peers, or as an answer to one of them. */
  function Sent(a: Net, i: nat, peers: seq<nat>, answered: nat, m: Gossip): Net {
    match m
    case CommitMessage(_, _, _) => a.(votes := a.votes + F.Copies(peers, AsVote(m)))
    case ViewChangeVote(_, _, _, _) => a.(votes := a.votes + F.Copies(peers, AsVote(m)))
    case BlockMessage(b) => a.(blocks := a.blocks + BlockCopies(i, peers, b))
    case ChainRequest => a.(requests := a.requests + multiset{(i, answered)})
    case ChainMessage(blocks) => a.(chains := a.chains + multiset{Parcel(i, answered, blocks)})
  }

  function AllSent(a: Net, i: nat, peers: seq<nat>, answered: nat, outbox: seq<Gossip>): Net {
    if outbox == [] then a
    else
      var n := |outbox| - 1;
      Sent(AllSent(a, i, peers, answered, outbox[..n]), i, peers, answered, outbox[n])
  }

  // ---- the steps -----------------------------------------------------------------------------------

  /** The message that is heard leaves the network; a call from outside is used up. */
  function Taken(a: Net, act: Act): Net {
    match act
    case HearVote(e) => a.(votes := a.votes - multiset{e})
    case HearBlock(p) => a.(blocks := a.blocks - multiset{p})
    case HearRequest(from, to) => a.(requests := a.requests - multiset{(from, to)})
    case HearChain(p) => a.(chains := a.chains - multiset{p})
    case Mine(_, _, _) => a.(calls := OneLess(a.calls))
    case Ask(_, _, _) => a.(calls := OneLess(a.calls))
    case Submit(_, _) => a.(calls := OneLess(a.calls))
  }

  function OneLess(n: nat): nat {
    if n == 0 then 0 else n - 1
  }

  predicate Awaited(a: Net, act: Act) {
    match act
    case HearVote(e) => e in a.votes
    case HearBlock(p) => p in a.blocks
    case HearRequest(from, to) => (from, to) in a.requests
    case HearChain(p) => p in a.chains
    case Mine(_, _, _) => a.calls > 0
    case Ask(_, _, _) => a.calls > 0
    case Submit(_, _) => a.calls > 0
  }

  function Answered(act: Act): nat {
    match act
    case HearBlock(p) => p.source
    case HearRequest(from, _) => from
    case _ => 0
  }

  ghost predicate Enabled(cfg: Config, mesh: Mesh, a: Net, act: Act) {
    && Actor(act) < |a.nodes| == |mesh.signers| == |mesh.peers|
    && Awaited(a, act)
    && a.nodes[Actor(act)].blocks != []
    && Sensible(cfg, mesh.signers[Actor(act)], a.nodes[Actor(act)], act)
  }

  predicate JustHeard(act: Act, b: F.Ballot) {
    act.HearVote? && act.envelope.vote.ballot == b
  }

  /** The ballots a node casts in an act: what it says that it has not just heard. */
  function CastIn(act: Act, outbox: seq<Gossip>): set<F.Ballot> {
    set m | m in outbox && IsVote(m) && !JustHeard(act, AsVote(m).ballot) :: AsVote(m).ballot
  }

  lemma CastIsSaid(act: Act, outbox: seq<Gossip>, b: F.Ballot)
    ensures b in CastIn(act, outbox) <==> Says(outbox, b) && !JustHeard(act, b)
  {
    if b in CastIn(act, outbox) {
      var m :| m in outbox && IsVote(m) && AsVote(m).ballot == b;
      assert AsMessage(AsVote(m)) == m && SaysVote(outbox, AsVote(m));
    }
    if v: F.Vote :| v.ballot == b && SaysVote(outbox, v) {
      assert AsVote(AsMessage(v)) == v;
    }
  }

  /** Node i has come to a new state, its messages leave, and what it cast is remembered. */
  function Acted(mesh: Mesh, a: Net, act: Act, after: NodeState): Net
    requires Actor(act) < |a.nodes| == |mesh.peers|
  {
    var i := Actor(act);
    AllSent(Taken(a, act), i, mesh.peers[i], Answered(act), after.outbox)
      .(nodes := a.nodes[i := after.(outbox := [])],
        casters := a.casters + set b | b in CastIn(act, after.outbox) :: (i, b))
  }

  ghost predicate StepBy(cfg: Config, mesh: Mesh, a: Net, b: Net, act: Act, now: int) {
    && Enabled(cfg, mesh, a, act)
    && b == Acted(mesh, a, act, After(cfg, mesh.signers[Actor(act)], a.nodes[Actor(act)], act, now))
  }

  ghost predicate Step(cfg: Config, mesh: Mesh, a: Net, b: Net) {
    exists act, now :: StepBy(cfg, mesh, a, b, act, now)
  }

  ghost predicate NetOk(cfg: Config, mesh: Mesh, a: Net) {
    && |a.nodes| == |mesh.signers| == |mesh.peers|
    && forall i | 0 <= i < |a.nodes| :: NodeOk(cfg, mesh.signers[i], a.nodes[i])
  }

  // ---- no node loses what it has finalized -----------------------------------------------------------

  lemma StepKeepsNet(cfg: Config, mesh: Mesh, a: Net, b: Net)
    requires CollisionFree(cfg) && NetOk(cfg, mesh, a) && Step(cfg, mesh, a, b)
    ensures NetOk(cfg, mesh, b)
    ensures forall j | 0 <= j < |a.nodes| :: Keeps(cfg, a.nodes[j].blocks, b.nodes[j].blocks)
  {
    hide CollisionFree, Keeps, Linked, SignsProperly, Sensible, AllSent, CastIn, Taken;
    var act: Act, now: int :| StepBy(cfg, mesh, a, b, act, now);
    var i := Actor(act);
    assert NodeOk(cfg, mesh.signers[i], a.nodes[i]);
    ActKeeps(cfg, mesh.signers[i], a.nodes[i], act, now);
    var after := After(cfg, mesh.signers[i], a.nodes[i], act, now);
    LinkedAfter(cfg, a.nodes[i].blocks, after.blocks);
    hide After;
    forall j | 0 <= j < |a.nodes|
      ensures NodeOk(cfg, mesh.signers[j], b.nodes[j]) && Keeps(cfg, a.nodes[j].blocks, b.nodes[j].blocks)
    {
      assert NodeOk(cfg, mesh.signers[j], a.nodes[j]);
      if j != i {
        RestKeeps(cfg, a.nodes[j].blocks);
      }
    }
  }

  lemma LinkedAfter(cfg: Config, a: seq<Block>, b: seq<Block>)
    requires Keeps(cfg, a, b)
    ensures b != [] && Linked(cfg, b)
  {
  }

  ghost predicate IsRun(cfg: Config, mesh: Mesh, run: seq<Net>) {
    run != [] && NetOk(cfg, mesh, run[0]) && forall t | 0 <= t < |run| - 1 :: Step(cfg, mesh, run[t], run[t + 1])
  }

  /**
   * Over every run of the network: what a node has finalized keeps its hashes, and its chain never falls in rank,
   * whatever the other nodes do and in whatever order messages arrive.
   */
  lemma {:induction false} FinalizedForever(cfg: Config, mesh: Mesh, run: seq<Net>, t: nat, u: nat, i: nat)
    requires CollisionFree(cfg) && IsRun(cfg, mesh, run) && t <= u < |run| && i < |mesh.signers|
    ensures NetOk(cfg, mesh, run[t]) && NetOk(cfg, mesh, run[u])
    ensures Keeps(cfg, run[t].nodes[i].blocks, run[u].nodes[i].blocks)
    decreases u
  {
    hide CollisionFree, Keeps, Linked, SignsProperly, Step;
    if u > 0 {
      assert Step(cfg, mesh, run[u - 1], run[u - 1 + 1]);
      if t < u {
        FinalizedForever(cfg, mesh, run, t, u - 1, i);
        StepKeepsNet(cfg, mesh, run[u - 1], run[u]);
        KeepsCompose(cfg, run[t].nodes[i].blocks, run[u - 1].nodes[i].blocks, run[u].nodes[i].blocks);
      } else {
        FinalizedForever(cfg, mesh, run, u - 1, u - 1, i);
        StepKeepsNet(cfg, mesh, run[u - 1], run[u]);
        RestKeeps(cfg, run[u].nodes[i].blocks);
      }
    } else {
      RestKeeps(cfg, run[0].nodes[i].blocks);
    }
  }

  // ---- what leaves a node ------------------------------------------------------------------------------

  lemma {:induction false} SentKinds(a: Net, i: nat, peers: seq<nat>, answered: nat, outbox: seq<Gossip>)
    ensures
      var r := AllSent(a, i, peers, answered, outbox);
      && r.nodes == a.nodes && r.calls == a.calls && r.casters == a.casters
      && ((forall m | m in outbox :: !m.BlockMessage?) ==> r.blocks == a.blocks)
      && ((forall m | m in outbox :: !m.ChainRequest?) ==> r.requests == a.requests)
      && ((forall m | m in outbox :: !m.ChainMessage?) ==> r.chains == a.chains)
      && ((forall m | m in outbox :: !IsVote(m)) ==> r.votes == a.votes)
    decreases |outbox|
  {
    if outbox != [] {
      var n := |outbox| - 1;
      SentKinds(a, i, peers, answered, outbox[..n]);
      assert outbox[n] in outbox;
      assert forall m | m in outbox[..n] :: m in outbox;
    }
  }

  lemma AllSentLast(a: Net, i: nat, peers: seq<nat>, answered: nat, outbox: seq<Gossip>)
    requires outbox != []
    ensures
      var n := |outbox| - 1;
      AllSent(a, i, peers, answered, outbox)
      == Sent(AllSent(a, i, peers, answered, outbox[..n]), i, peers, answered, outbox[n])
  {
  }

  /** The votes in flight after sending are the old ones and a copy of each vote said for each peer. */
  lemma {:induction false} SentVotes(a: Net, i: nat, peers: seq<nat>, answered: nat, outbox: seq<Gossip>)
    ensures
      var r := AllSent(a, i, peers, answered, outbox);
      forall e: F.Envelope :: e in r.votes <==> e in a.votes || (e.dest in peers && SaysVote(outbox, e.vote))
    decreases |outbox|
  {
    if outbox != [] {
      var n, m := |outbox| - 1, outbox[|outbox| - 1];
      SentVotes(a, i, peers, answered, outbox[..n]);
      SentVote(AllSent(a, i, peers, answered, outbox[..n]), i, peers, answered, m);
      assert outbox == outbox[..n] + [m];
      SaysBoth(outbox[..n], [m]);
      hide AllSent, Sent, SaysVote;
      AllSentLast(a, i, peers, answered, outbox);
    }
  }

  lemma SentVote(a: Net, i: nat, peers: seq<nat>, answered: nat, m: Gossip)
    ensures
      var r := Sent(a, i, peers, answered, m);
      forall e: F.Envelope :: e in r.votes <==> e in a.votes || (e.dest in peers && SaysVote([m], e.vote))
  {
    if IsVote(m) {
      F.CopiesCount(peers, AsVote(m));
      assert AsMessage(AsVote(m)) == m;
      SaysOnly([m], AsVote(m));
    } else {
      SaysNothing([m]);
    }
    hide SaysVote, F.Copies;
  }

  // ---- silence -------------------------------------------------------------------------------------------

  /** The heights that view-change votes on record or on their way are for. */
  ghost function Heights(a: Net): set<int> {
    (set i, slot | 0 <= i < |a.nodes| && slot in a.nodes[i].votes :: slot.0)
    + set e | e in a.votes && e.vote.ballot.subject.ChangeTo? :: e.vote.ballot.subject.height
  }

  /** Where a node might still propose after a view change. */
  ghost function Open(a: Net): set<(nat, int)> {
    set i: nat, height | 0 <= i < |a.nodes| && height in Heights(a) && height !in a.nodes[i].advanced :: (i, height)
  }

  ghost function Ballots(cfg: Config, a: Net): set<F.Ballot> {
    (set i, b | 0 <= i < |a.nodes| && b in Recorded(cfg, a.nodes[i]) :: b) + set e | e in a.votes :: e.vote.ballot
  }

  /** Which nodes have not recorded which of the votes that are about. */
  ghost function Unrecorded(cfg: Config, a: Net): set<(nat, F.Ballot)> {
    set i: nat, b | 0 <= i < |a.nodes| && b in Ballots(cfg, a) && b !in Recorded(cfg, a.nodes[i]) :: (i, b)
  }

  /** What the network can still do: the earlier components weigh more. */
  datatype Fuel = Fuel(calls: nat, proposals: nat, blocks: nat, requests: nat, chains: nat, unrecorded: nat, votes: nat)

  ghost function FuelOf(cfg: Config, a: Net): Fuel {
    Fuel(a.calls, |Open(a)|, |a.blocks|, |a.requests|, |a.chains|, |Unrecorded(cfg, a)|, |a.votes|)
  }

  predicate Lower(x: Fuel, y: Fuel) {
    || x.calls < y.calls
    || (x.calls == y.calls
        && (|| x.proposals < y.proposals
            || (x.proposals == y.proposals
                && (|| x.blocks < y.blocks
                    || (x.blocks == y.blocks
                        && (|| x.requests < y.requests
                            || (x.requests == y.requests
                                && (|| x.chains < y.chains
                                    || (x.chains == y.chains
                                        && (|| x.unrecorded < y.unrecorded
                                            || (x.unrecorded == y.unrecorded && x.votes < y.votes)))))))))))
  }

  /** No new height comes up while nobody calls from outside. */
  lemma HeightsShrink(mesh: Mesh, a: Net, act: Act, after: NodeState)
    requires Actor(act) < |a.nodes| == |mesh.peers| && Awaited(a, act) && !IsCall(act)
    requires Settles(a.nodes[Actor(act)], after, act)
    ensures Heights(Acted(mesh, a, act, after)) <= Heights(a)
  {
    var i, b := Actor(act), Acted(mesh, a, act, after);
    VotesAfter(mesh, a, act, after);
    HeardHeight(a, act);
    assert b.nodes == a.nodes[i := after.(outbox := [])];
    hide SaysVote, Acted, Awaited;
    forall h | h in Heights(b) ensures h in Heights(a) {
      if j, slot :| 0 <= j < |b.nodes| && slot in b.nodes[j].votes && slot.0 == h {
        assert j != i ==> slot in a.nodes[j].votes;
      } else {
        var e :| e in b.votes && e.vote.ballot.subject.ChangeTo? && e.vote.ballot.subject.height == h;
        assert VoteFor(e.vote, h);
      }
    }
  }

  /** What is in flight after an act. */
  lemma VotesAfter(mesh: Mesh, a: Net, act: Act, after: NodeState)
    requires Actor(act) < |a.nodes| == |mesh.peers|
    ensures
      var b := Acted(mesh, a, act, after);
      forall e: F.Envelope ::
        && (e in b.votes ==> e in a.votes || (e.dest in mesh.peers[Actor(act)] && SaysVote(after.outbox, e.vote)))
        && (e in a.votes && Heard(act) != Some(e) ==> e in b.votes)
        && (e.dest in mesh.peers[Actor(act)] && SaysVote(after.outbox, e.vote) ==> e in b.votes)
  {
    SentVotes(Taken(a, act), Actor(act), mesh.peers[Actor(act)], Answered(act), after.outbox);
    hide AllSent, SaysVote, CastIn;
  }

  lemma OpenShrinks(mesh: Mesh, a: Net, act: Act, after: NodeState)
    requires Actor(act) < |a.nodes| == |mesh.peers| && Awaited(a, act) && !IsCall(act)
    requires Settles(a.nodes[Actor(act)], after, act)
    ensures Open(Acted(mesh, a, act, after)) <= Open(a)
  {
    HeightsShrink(mesh, a, act, after);
    assert Acted(mesh, a, act, after).nodes == a.nodes[Actor(act) := after.(outbox := [])];
    assert a.nodes[Actor(act)].advanced <= after.advanced;
    hide Acted, Heights, Settles, Awaited;
  }

  /** Handling a message calls nobody from outside, and what it sends is all that is new. */
  lemma CountsAfter(mesh: Mesh, a: Net, act: Act, after: NodeState)
    requires Actor(act) < |a.nodes| == |mesh.peers| && Awaited(a, act) && !IsCall(act)
    ensures
      var b, outbox := Acted(mesh, a, act, after), after.outbox;
      && b.calls == a.calls
      && ((forall m | m in outbox :: !m.BlockMessage?) ==> |b.blocks| == |a.blocks| - if act.HearBlock? then 1 else 0)
      && ((forall m | m in outbox :: !m.ChainRequest?) ==>
            |b.requests| == |a.requests| - if act.HearRequest? then 1 else 0)
      && ((forall m | m in outbox :: !m.ChainMessage?) ==> |b.chains| == |a.chains| - if act.HearChain? then 1 else 0)
      && ((forall m | m in outbox :: !IsVote(m)) ==> |b.votes| == |a.votes| - if act.HearVote? then 1 else 0)
  {
    SentKinds(Taken(a, act), Actor(act), mesh.peers[Actor(act)], Answered(act), after.outbox);
    hide AllSent, CastIn;
  }

  lemma HeardHeight(a: Net, act: Act)
    requires Awaited(a, act)
    ensures forall h | act.HearVote? && VoteFor(act.envelope.vote, h) :: h in Heights(a)
  {
  }

  lemma CallUsesFuel(cfg: Config, mesh: Mesh, a: Net, act: Act, after: NodeState)
    requires Actor(act) < |a.nodes| == |mesh.peers| && Awaited(a, act) && IsCall(act)
    ensures Lower(FuelOf(cfg, Acted(mesh, a, act, after)), FuelOf(cfg, a))
  {
    SentKinds(Taken(a, act), Actor(act), mesh.peers[Actor(act)], Answered(act), after.outbox);
    hide Open, Unrecorded, AllSent, CastIn;
  }

  /** A block, a request or a chain that is heard is gone, and sets off only what weighs less. */
  lemma HearingUsesFuel(cfg: Config, mesh: Mesh, a: Net, act: Act, now: int)
    requires InjectiveHeaders(cfg) && NetOk(cfg, mesh, a) && Enabled(cfg, mesh, a, act)
    requires !IsCall(act) && !act.HearVote?
    ensures
      var after := After(cfg, mesh.signers[Actor(act)], a.nodes[Actor(act)], act, now);
      Lower(FuelOf(cfg, Acted(mesh, a, act, after)), FuelOf(cfg, a))
  {
    hide After, Open, Unrecorded, Settles, NodeOk, InjectiveHeaders, Sensible, Acted;
    var i := Actor(act);
    var s, me := a.nodes[i], mesh.signers[i];
    var after := After(cfg, me, s, act, now);
    OthersSettle(cfg, me, s, act, now);
    OpenShrinks(mesh, a, act, after);
    SubsetSize(Open(Acted(mesh, a, act, after)), Open(a));
    CountsAfter(mesh, a, act, after);
  }

  /** A vote that starts a proposal closes a height at its node. */
  lemma StartUsesFuel(cfg: Config, mesh: Mesh, a: Net, e: F.Envelope, now: int)
    requires InjectiveHeaders(cfg) && e in a.votes && e.dest < |a.nodes| == |mesh.signers| == |mesh.peers|
    requires NodeOk(cfg, mesh.signers[e.dest], a.nodes[e.dest])
    requires Starts(cfg, mesh.signers[e.dest], a.nodes[e.dest], e.vote)
    ensures
      var after := Handled(cfg, mesh.signers[e.dest], a.nodes[e.dest], e.vote, now);
      Lower(FuelOf(cfg, Acted(mesh, a, HearVote(e), after)), FuelOf(cfg, a))
  {
    hide Handled, Starts, Heights, Unrecorded, Settles, InjectiveHeaders, Acted, Linked, SignsProperly;
    var i, act := e.dest, HearVote(e);
    var s, me := a.nodes[i], mesh.signers[i];
    var after := Handled(cfg, me, s, e.vote, now);
    HandledSettles(cfg, me, s, e, now);
    StartSettles(cfg, me, s, e.vote, now);
    var height := e.vote.ballot.subject.height;
    OpenShrinks(mesh, a, act, after);
    HeardHeight(a, act);
    CountsAfter(mesh, a, act, after);
    var b := Acted(mesh, a, act, after);
    NodesAfter(mesh, a, act, after);
    assert (i, height) in Open(a) && (i, height) !in Open(b);
    hide Open;
    SubsetSize(Open(b), Open(a) - {(i, height)});
  }

  lemma NodesAfter(mesh: Mesh, a: Net, act: Act, after: NodeState)
    requires Actor(act) < |a.nodes| == |mesh.peers|
    ensures Acted(mesh, a, act, after).nodes == a.nodes[Actor(act) := after.(outbox := [])]
  {
  }

  /** Any other vote is recorded where it was not, or is one envelope less. */
  lemma VoteUsesFuel(cfg: Config, mesh: Mesh, a: Net, e: F.Envelope, now: int)
    requires InjectiveHeaders(cfg) && e in a.votes && e.dest < |a.nodes| == |mesh.signers| == |mesh.peers|
    requires NodeOk(cfg, mesh.signers[e.dest], a.nodes[e.dest])
    requires !Starts(cfg, mesh.signers[e.dest], a.nodes[e.dest], e.vote)
    ensures
      var after := Handled(cfg, mesh.signers[e.dest], a.nodes[e.dest], e.vote, now);
      Lower(FuelOf(cfg, Acted(mesh, a, HearVote(e), after)), FuelOf(cfg, a))
  {
    hide Handled, Starts, Open, Unrecorded, Settles, InjectiveHeaders, Recorded, Acted, Linked, SignsProperly;
    var i, act := e.dest, HearVote(e);
    var s, me := a.nodes[i], mesh.signers[i];
    var after := Handled(cfg, me, s, e.vote, now);
    var b := Acted(mesh, a, act, after);
    HandledSettles(cfg, me, s, e, now);
    HearingIsSmall(cfg, me, s, e.vote, now);
    OpenShrinks(mesh, a, act, after);
    SubsetSize(Open(b), Open(a));
    CountsAfter(mesh, a, act, after);
    UnrecordedShrinks(cfg, mesh, a, e, after);
    if after.outbox == [] {
      SubsetSize(Unrecorded(cfg, b), Unrecorded(cfg, a));
    } else {
      SubsetSize(Unrecorded(cfg, b), Unrecorded(cfg, a) - {(i, e.vote.ballot)});
    }
  }

  lemma UnrecordedShrinks(cfg: Config, mesh: Mesh, a: Net, e: F.Envelope, after: NodeState)
    requires e in a.votes && e.dest < |a.nodes| == |mesh.peers|
    requires
      var s := a.nodes[e.dest];
      || (after == s && after.outbox == [])
      || (after.outbox == [AsMessage(e.vote)] && e.vote.ballot !in Recorded(cfg, s)
          && Recorded(cfg, after) == Recorded(cfg, s) + {e.vote.ballot})
    ensures
      var b := Acted(mesh, a, HearVote(e), after);
      && Unrecorded(cfg, b) <= Unrecorded(cfg, a)
      && (after.outbox != [] ==> (e.dest, e.vote.ballot) in Unrecorded(cfg, a)
                                 && (e.dest, e.vote.ballot) !in Unrecorded(cfg, b))
  {
    var i, act := e.dest, HearVote(e);
    var b := Acted(mesh, a, act, after);
    hide Acted, Recorded, SaysVote, Says;
    VotesAfter(mesh, a, act, after);
    NodesAfter(mesh, a, act, after);
    if after.outbox == [] {
      SaysNothing(after.outbox);
    } else {
      SaysOnly(after.outbox, e.vote);
    }
    SameRecords(cfg, after, after.(outbox := []));
    assert e.vote.ballot in Ballots(cfg, a);
    assert forall x: F.Envelope | x in b.votes :: x in a.votes || x.vote == e.vote;
    assert forall j | 0 <= j < |a.nodes| :: Recorded(cfg, a.nodes[j]) <= Recorded(cfg, b.nodes[j]);
    forall x | x in Ballots(cfg, b) ensures x in Ballots(cfg, a) {
      if j :| 0 <= j < |b.nodes| && x in Recorded(cfg, b.nodes[j]) {
        assert x in Recorded(cfg, a.nodes[j]) || x == e.vote.ballot;
      }
    }
  }

  /** Every step takes the network closer to silence. */
  lemma StepUsesFuel(cfg: Config, mesh: Mesh, a: Net, b: Net)
    requires InjectiveHeaders(cfg) && NetOk(cfg, mesh, a) && Step(cfg, mesh, a, b)
    ensures Lower(FuelOf(cfg, b), FuelOf(cfg, a))
  {
    hide InjectiveHeaders, NodeOk, Acted, FuelOf, Lower, Starts, Handled, Sensible;
    var act: Act, now: int :| StepBy(cfg, mesh, a, b, act, now);
    assert NodeOk(cfg, mesh.signers[Actor(act)], a.nodes[Actor(act)]);
    if IsCall(act) {
      CallUsesFuel(cfg, mesh, a, act, After(cfg, mesh.signers[Actor(act)], a.nodes[Actor(act)], act, now));
    } else if !act.HearVote? {
      HearingUsesFuel(cfg, mesh, a, act, now);
    } else if Starts(cfg, mesh.signers[Actor(act)], a.nodes[Actor(act)], act.envelope.vote) {
      StartUsesFuel(cfg, mesh, a, act.envelope, now);
    } else {
      VoteUsesFuel(cfg, mesh, a, act.envelope, now);
    }
  }

  /**
   * However messages are ordered, and whatever is mined, proposed or adopted on the way: with finitely many calls
   * from outside the network falls silent. No sequence of its states goes on for ever.
   */
  lemma {:induction false} FallsSilent(cfg: Config, mesh: Mesh, run: nat -> Net, t: nat)
    requires CollisionFree(cfg) && NetOk(cfg, mesh, run(t))
    ensures exists u: nat :: u >= t && !Step(cfg, mesh, run(u), run(u + 1))
    decreases FuelOf(cfg, run(t)).calls, FuelOf(cfg, run(t)).proposals, FuelOf(cfg, run(t)).blocks,
              FuelOf(cfg, run(t)).requests, FuelOf(cfg, run(t)).chains, FuelOf(cfg, run(t)).unrecorded,
              FuelOf(cfg, run(t)).votes
  {
    hide CollisionFree, NetOk, Step, FuelOf;
    if Step(cfg, mesh, run(t), run(t + 1)) {
      assert InjectiveHeaders(cfg) by { InjectiveToo(cfg); }
      StepUsesFuel(cfg, mesh, run(t), run(t + 1));
      StepKeepsNet(cfg, mesh, run(t), run(t + 1));
      FallsSilent(cfg, mesh, run, t + 1);
    }
  }

  lemma InjectiveToo(cfg: Config)
    requires CollisionFree(cfg)
    ensures InjectiveHeaders(cfg)
  {
  }
}
