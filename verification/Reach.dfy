/**
 * Whom a vote reaches in a network whose nodes mine, append, propose and adopt while the vote is on its way. What
 * one vote sees of such a run is a flood: module Flood's invariants hold of it, whatever else happens.
 */
module Reach {
  import opened Types
  import opened ForkChoice
  import opened Protocol
  import opened Delivery
  import opened Acts
  import opened Network
  import F = Flood

  ghost function Seen(cfg: Config, a: Net): F.State {
    F.State(seq(|a.nodes|, i requires 0 <= i < |a.nodes| => Recorded(cfg, a.nodes[i])), a.votes, a.casters)
  }

  datatype Event = Event(act: Act, now: int)

  /** The state of its node after an event. */
  ghost function Then(cfg: Config, mesh: Mesh, a: Net, e: Event): NodeState
    requires Enabled(cfg, mesh, a, e.act)
  {
    After(cfg, mesh.signers[Actor(e.act)], a.nodes[Actor(e.act)], e.act, e.now)
  }

  ghost predicate Happens(cfg: Config, mesh: Mesh, a: Net, b: Net, e: Event) {
    StepBy(cfg, mesh, a, b, e.act, e.now)
  }

  /** `terms` is the same mesh, with an opinion of each node on each vote. */
  ghost predicate Matches(cfg: Config, mesh: Mesh, terms: F.Mesh) {
    terms.peers == mesh.peers && forall v :: F.Genuine(terms, v) <==> IsGenuine(cfg, v)
  }

  /** That opinion is what the node thinks of the vote when it hears or casts it. */
  ghost predicate Heeds(cfg: Config, mesh: Mesh, terms: F.Mesh, a: Net, e: Event, b: F.Ballot)
    requires Enabled(cfg, mesh, a, e.act)
  {
    var i := Actor(e.act);
    && (JustHeard(e.act, b) && IsGenuine(cfg, e.act.envelope.vote) ==>
          (F.Admits(terms, i, b) <==> Judges(cfg, a.nodes[i].blocks, b)))
    && (b in CastIn(e.act, Then(cfg, mesh, a, e).outbox) ==> F.Admits(terms, i, b))
  }

  /** No block or chain brings the vote into the node's records or takes it away. */
  ghost predicate Uncarried(cfg: Config, mesh: Mesh, a: Net, e: Event, b: F.Ballot)
    requires Enabled(cfg, mesh, a, e.act)
  {
    var s, after := a.nodes[Actor(e.act)], Then(cfg, mesh, a, e);
    b in Recorded(cfg, after) <==> b in Recorded(cfg, s) || Says(after.outbox, b)
  }

  /** Only blocks and chains can: view-change votes travel by messages alone, and so do commits in every other act. */
  lemma CarriersAreBlocks(cfg: Config, mesh: Mesh, a: Net, e: Event, b: F.Ballot)
    requires InjectiveHeaders(cfg) && NetOk(cfg, mesh, a) && Enabled(cfg, mesh, a, e.act)
    requires b.subject.ChangeTo? || !(e.act.HearBlock? || e.act.HearChain?)
    ensures Uncarried(cfg, mesh, a, e, b)
  {
    hide Recorded, Says, SaysVote, Judges, IsGenuine, After, Linked, SignsProperly, InjectiveHeaders, Sensible;
    var i := Actor(e.act);
    assert NodeOk(cfg, mesh.signers[i], a.nodes[i]);
    ActAccounts(cfg, mesh.signers[i], a.nodes[i], e.act, e.now);
  }

  // ---- an event, as one vote sees it ---------------------------------------------------------------------

  lemma CastersAfter(mesh: Mesh, a: Net, act: Act, after: NodeState, x: F.Ballot)
    requires Actor(act) < |a.nodes| == |mesh.peers|
    ensures
      var b := Acted(mesh, a, act, after);
      forall j: nat :: (j, x) in b.casters
                       <==> (j, x) in a.casters || (j == Actor(act) && Says(after.outbox, x) && !JustHeard(act, x))
  {
    CastIsSaid(act, after.outbox, x);
    hide AllSent, Says, CastIn;
  }

  /** What is said is genuine and goes to every peer. */
  lemma SaidIsSent(cfg: Config, mesh: Mesh, terms: F.Mesh, a: Net, act: Act, after: NodeState, x: F.Ballot)
    requires Actor(act) < |a.nodes| == |mesh.peers| && Matches(cfg, mesh, terms) && Says(after.outbox, x)
    requires forall v | SaysVote(after.outbox, v) :: IsGenuine(cfg, v)
    ensures F.SentOn(terms, Seen(cfg, Acted(mesh, a, act, after)), Actor(act), x)
  {
    hide SaysVote, IsGenuine, Recorded, Acted;
    var v: F.Vote :| v.ballot == x && SaysVote(after.outbox, v);
    VotesAfter(mesh, a, act, after);
    assert F.Genuine(terms, v);
  }

  /** The node has the vote afterwards iff it had it or says it. */
  lemma HasAfter(cfg: Config, mesh: Mesh, a: Net, act: Act, after: NodeState, x: F.Ballot)
    requires Actor(act) < |a.nodes| == |mesh.peers|
    requires x in Recorded(cfg, after) <==> x in Recorded(cfg, a.nodes[Actor(act)]) || Says(after.outbox, x)
    ensures
      var s, t := Seen(cfg, a), Seen(cfg, Acted(mesh, a, act, after));
      && |t.recorded| == |s.recorded| == |a.nodes|
      && (forall j: nat :: F.Has(t, j, x) <==> F.Has(s, j, x) || (j == Actor(act) && Says(after.outbox, x)))
      && (x in Recorded(cfg, after) ==> F.Has(t, Actor(act), x))
  {
    NodesAfter(mesh, a, act, after);
    SameRecords(cfg, after, after.(outbox := []));
    hide Recorded, Says, Acted;
  }

  lemma FlightAfter(cfg: Config, mesh: Mesh, a: Net, act: Act, after: NodeState, x: F.Ballot)
    requires Actor(act) < |a.nodes| == |mesh.peers|
    ensures
      var s, t, news := Seen(cfg, a), Seen(cfg, Acted(mesh, a, act, after)), Says(after.outbox, x);
      && (forall e: F.Envelope | e.vote.ballot == x && e in t.flight ::
            e in s.flight || (news && e.dest in mesh.peers[Actor(act)]))
      && (forall e: F.Envelope | e.vote.ballot == x && e in s.flight && Heard(act) != Some(e) :: e in t.flight)
  {
    VotesAfter(mesh, a, act, after);
    hide SaysVote, Recorded, Acted;
  }

  /** Why the node says the vote, and what has become of one it heard. */
  lemma NewsIsHeeded(cfg: Config, mesh: Mesh, terms: F.Mesh, a: Net, e: Event, x: F.Ballot)
    requires InjectiveHeaders(cfg) && NetOk(cfg, mesh, a) && Matches(cfg, mesh, terms)
    requires Enabled(cfg, mesh, a, e.act) && Heeds(cfg, mesh, terms, a, e, x)
    ensures
      var i, after := Actor(e.act), Then(cfg, mesh, a, e);
      && (forall v | SaysVote(after.outbox, v) :: IsGenuine(cfg, v))
      && (Says(after.outbox, x) ==> F.Admits(terms, i, x))
      && (JustHeard(e.act, x) && F.Genuine(terms, e.act.envelope.vote) ==>
            x in Recorded(cfg, after) || !F.Admits(terms, i, x))
  {
    hide Recorded, Says, SaysVote, Judges, IsGenuine, After, Linked, SignsProperly, InjectiveHeaders, Sensible,
         CastIn, Awaited;
    var i, after := Actor(e.act), Then(cfg, mesh, a, e);
    assert NodeOk(cfg, mesh.signers[i], a.nodes[i]);
    ActAccounts(cfg, mesh.signers[i], a.nodes[i], e.act, e.now);
    CastIsSaid(e.act, after.outbox, x);
  }

  lemma EventActs(cfg: Config, mesh: Mesh, terms: F.Mesh, a: Net, b: Net, e: Event, x: F.Ballot)
    requires InjectiveHeaders(cfg) && NetOk(cfg, mesh, a) && Matches(cfg, mesh, terms)
    requires Happens(cfg, mesh, a, b, e) && Heeds(cfg, mesh, terms, a, e, x) && Uncarried(cfg, mesh, a, e, x)
    ensures
      var news := Says(Then(cfg, mesh, a, e).outbox, x);
      F.ActsOn(terms, Seen(cfg, a), Seen(cfg, b), Actor(e.act), Heard(e.act), news, x)
  {
    hide Recorded, Says, SaysVote, IsGenuine, After, InjectiveHeaders, Sensible, Acted, NetOk, Heeds, F.SentOn, F.Has;
    var i, after := Actor(e.act), Then(cfg, mesh, a, e);
    NewsIsHeeded(cfg, mesh, terms, a, e, x);
    HasAfter(cfg, mesh, a, e.act, after, x);
    FlightAfter(cfg, mesh, a, e.act, after, x);
    CastersAfter(mesh, a, e.act, after, x);
    if Says(after.outbox, x) {
      SaidIsSent(cfg, mesh, terms, a, e.act, after, x);
    }
  }

  // ---- runs ------------------------------------------------------------------------------------------------

  ghost predicate IsHistory(cfg: Config, mesh: Mesh, run: seq<Net>, events: seq<Event>) {
    && |run| == |events| + 1 && NetOk(cfg, mesh, run[0])
    && forall t | 0 <= t < |events| :: Happens(cfg, mesh, run[t], run[t + 1], events[t])
  }

  ghost predicate AlwaysHeeds(cfg: Config, mesh: Mesh, terms: F.Mesh, run: seq<Net>, events: seq<Event>, b: F.Ballot)
    requires IsHistory(cfg, mesh, run, events)
  {
    forall t | 0 <= t < |events| :: Happens(cfg, mesh, run[t], run[t + 1], events[t])
                                    && Heeds(cfg, mesh, terms, run[t], events[t], b)
  }

  ghost predicate NeverCarried(cfg: Config, mesh: Mesh, run: seq<Net>, events: seq<Event>, b: F.Ballot)
    requires IsHistory(cfg, mesh, run, events)
  {
    forall t | 0 <= t < |events| :: Happens(cfg, mesh, run[t], run[t + 1], events[t])
                                    && Uncarried(cfg, mesh, run[t], events[t], b)
  }

  lemma {:induction false} HistoryOk(cfg: Config, mesh: Mesh, run: seq<Net>, events: seq<Event>, t: nat)
    requires CollisionFree(cfg) && IsHistory(cfg, mesh, run, events) && t < |run|
    ensures NetOk(cfg, mesh, run[t])
  {
    hide CollisionFree, NetOk;
    if t > 0 {
      HistoryOk(cfg, mesh, run, events, t - 1);
      assert Happens(cfg, mesh, run[t - 1], run[t - 1 + 1], events[t - 1]);
      StepKeepsNet(cfg, mesh, run[t - 1], run[t]);
    }
  }

  /** Along every run the vote spreads to the peers that would record it, and comes only along such nodes. */
  lemma {:induction false} HistoryKeeps(cfg: Config, mesh: Mesh, terms: F.Mesh, run: seq<Net>, events: seq<Event>,
                                        b: F.Ballot, t: nat)
    requires CollisionFree(cfg) && IsHistory(cfg, mesh, run, events) && Matches(cfg, mesh, terms) && t < |run|
    requires AlwaysHeeds(cfg, mesh, terms, run, events, b) && NeverCarried(cfg, mesh, run, events, b)
    requires F.Untold(Seen(cfg, run[0]), b)
    ensures F.Spreading(terms, Seen(cfg, run[t]), b) && F.OnlyRoutes(terms, Seen(cfg, run[t]), b)
  {
    if t == 0 {
      hide Recorded, IsGenuine, F.Reached, F.SpreadTo, F.NextToReached;
    } else {
      hide CollisionFree, NetOk, Happens, Heeds, Uncarried, Matches, Seen, F.Spreading, F.OnlyRoutes, F.ActsOn,
           F.Untold;
      HistoryKeeps(cfg, mesh, terms, run, events, b, t - 1);
      HistoryOk(cfg, mesh, run, events, t - 1);
      InjectiveToo(cfg);
      var s, e := run[t - 1], events[t - 1];
      assert Happens(cfg, mesh, s, run[t - 1 + 1], e) && Heeds(cfg, mesh, terms, s, e, b);
      assert Uncarried(cfg, mesh, s, e, b);
      OneEvent(cfg, mesh, terms, s, run[t], e, b);
    }
  }

  lemma OneEvent(cfg: Config, mesh: Mesh, terms: F.Mesh, a: Net, b: Net, e: Event, x: F.Ballot)
    requires InjectiveHeaders(cfg) && NetOk(cfg, mesh, a) && Matches(cfg, mesh, terms)
    requires Happens(cfg, mesh, a, b, e) && Heeds(cfg, mesh, terms, a, e, x) && Uncarried(cfg, mesh, a, e, x)
    requires F.Spreading(terms, Seen(cfg, a), x) && F.OnlyRoutes(terms, Seen(cfg, a), x)
    ensures F.Spreading(terms, Seen(cfg, b), x) && F.OnlyRoutes(terms, Seen(cfg, b), x)
  {
    hide NetOk, Heeds, Uncarried, Matches, Seen, InjectiveHeaders, Says, F.Spreading, F.OnlyRoutes, F.ActsOn, Acted,
         Enabled, After;
    EventActs(cfg, mesh, terms, a, b, e, x);
    var news := Says(Then(cfg, mesh, a, e).outbox, x);
    F.ActKeepsSpreading(terms, Seen(cfg, a), Seen(cfg, b), Actor(e.act), Heard(e.act), news, x);
    F.ActKeepsRoutes(terms, Seen(cfg, a), Seen(cfg, b), Actor(e.act), Heard(e.act), news, x);
  }

  // ---- whom a vote reaches ---------------------------------------------------------------------------------

  /**
   * Once no message carries a vote any more, a node has recorded it exactly when somebody who cast it has a path
   * to that node through nodes that would record it. Blocks may be mined, received, proposed and adopted meanwhile.
   */
  lemma VoteReaches(cfg: Config, mesh: Mesh, terms: F.Mesh, run: seq<Net>, events: seq<Event>, b: F.Ballot, node: nat)
    requires CollisionFree(cfg) && IsHistory(cfg, mesh, run, events) && Matches(cfg, mesh, terms)
    requires AlwaysHeeds(cfg, mesh, terms, run, events, b) && NeverCarried(cfg, mesh, run, events, b)
    requires F.Untold(Seen(cfg, run[0]), b) && F.Delivered(Seen(cfg, run[|events|]), b)
    requires node < |run[|events|].nodes|
    ensures b in Recorded(cfg, run[|events|].nodes[node]) <==> F.Reached(terms, Seen(cfg, run[|events|]), node, b)
  {
    HistoryKeeps(cfg, mesh, terms, run, events, b, |events|);
    HistoryOk(cfg, mesh, run, events, |events|);
    hide Recorded, IsGenuine, NodeOk, IsHistory, AlwaysHeeds, NeverCarried, CollisionFree, F.Reached, F.Spreading,
         F.OnlyRoutes;
    F.EndOfFlood(terms, Seen(cfg, run[|events|]), node, b);
  }

  /** A view-change vote needs no word about blocks: it travels by messages alone. */
  lemma ViewVoteReaches(cfg: Config, mesh: Mesh, terms: F.Mesh, run: seq<Net>, events: seq<Event>, height: int,
                        view: int, k: Key, node: nat)
    requires CollisionFree(cfg) && IsHistory(cfg, mesh, run, events) && Matches(cfg, mesh, terms)
    requires AlwaysHeeds(cfg, mesh, terms, run, events, F.Ballot(F.ChangeTo(height, view), k))
    requires F.Untold(Seen(cfg, run[0]), F.Ballot(F.ChangeTo(height, view), k))
    requires F.Delivered(Seen(cfg, run[|events|]), F.Ballot(F.ChangeTo(height, view), k))
    requires node < |run[|events|].nodes|
    ensures
      k in VotesIn(run[|events|].nodes[node].votes, (height, view))
      <==> F.Reached(terms, Seen(cfg, run[|events|]), node, F.Ballot(F.ChangeTo(height, view), k))
  {
    var b := F.Ballot(F.ChangeTo(height, view), k);
    forall t | 0 <= t < |events|
      ensures Happens(cfg, mesh, run[t], run[t + 1], events[t]) && Uncarried(cfg, mesh, run[t], events[t], b)
    {
      HistoryOk(cfg, mesh, run, events, t);
      InjectiveToo(cfg);
      assert Happens(cfg, mesh, run[t], run[t + 1], events[t]);
      CarriersAreBlocks(cfg, mesh, run[t], events[t], b);
    }
    hide Recorded, NetOk, Heeds, Uncarried, Matches, CollisionFree, F.Reached, F.Untold, F.Delivered, VotesIn, Seen,
         Happens;
    VoteReaches(cfg, mesh, terms, run, events, b, node);
    InTable(cfg, run[|events|].nodes[node], height, view, k);
  }

  lemma InTable(cfg: Config, s: NodeState, height: int, view: int, k: Key)
    ensures F.Ballot(F.ChangeTo(height, view), k) in Recorded(cfg, s) <==> k in VotesIn(s.votes, (height, view))
  {
    var slot := (height, view);
    if k in VotesIn(s.votes, slot) {
      assert slot in s.votes && k in s.votes[slot];
    }
  }

  /** A validator's commit on a block, as long as no block or chain that a node takes in carries it or drops it. */
  lemma CommitReaches(cfg: Config, mesh: Mesh, terms: F.Mesh, run: seq<Net>, events: seq<Event>, node: nat, h: nat,
                      k: Key)
    requires CollisionFree(cfg) && IsHistory(cfg, mesh, run, events) && Matches(cfg, mesh, terms)
    requires node < |run[|events|].nodes| && h < |run[|events|].nodes[node].blocks|
    requires
      var b := F.Ballot(F.CommitTo(BlockHash(cfg, run[|events|].nodes[node].blocks[h])), k);
      && AlwaysHeeds(cfg, mesh, terms, run, events, b) && NeverCarried(cfg, mesh, run, events, b)
      && F.Untold(Seen(cfg, run[0]), b) && F.Delivered(Seen(cfg, run[|events|]), b)
    ensures
      var s := run[|events|].nodes[node];
      k in s.blocks[h].commits
      <==> F.Reached(terms, Seen(cfg, run[|events|]), node, F.Ballot(F.CommitTo(BlockHash(cfg, s.blocks[h])), k))
  {
    var s := run[|events|].nodes[node];
    var b := F.Ballot(F.CommitTo(BlockHash(cfg, s.blocks[h])), k);
    HistoryOk(cfg, mesh, run, events, |events|);
    assert NodeOk(cfg, mesh.signers[node], s);
    InjectiveToo(cfg);
    HasCommit(cfg, s.blocks, h, k);
    NotAViewVote(s.votes, b);
    hide CollisionFree, InjectiveHeaders, Linked, SignsProperly, BlockHash, CommitBallots, VoteBallots, Heeds,
         Uncarried, Happens, Matches, F.Reached, F.Untold, F.Delivered, Seen;
    VoteReaches(cfg, mesh, terms, run, events, b, node);
  }

  lemma NotAViewVote(table: VoteTable, b: F.Ballot)
    requires b.subject.CommitTo?
    ensures b !in VoteBallots(table)
  {
  }
}
