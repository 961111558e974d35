/**
 * The commit and view-change floods of network/community.py over a whole mesh. A node that receives a vote
 * which counts at that node and which it has not recorded records it and sends it to all its peers; it
 * drops any other vote. Casting one's own vote is the same step without a message. What a node can judge
 * depends on the chain it holds, so each node has its own idea of which votes count; those ideas stay fixed
 * during a flood. Module Delivery proves that the handlers take exactly these steps, and module Reach that this
 * is what one vote sees of a whole network.
 */
module Flood {
  import opened Types
  import opened Sets

  /** What a vote is for. */
  datatype Subject = CommitTo(blockHash: Hash) | ChangeTo(height: int, view: int)

  /** Tables tell votes apart by what they are for and by their signer; messages carry a signature too. */
  datatype Ballot = Ballot(subject: Subject, signer: Key)
  datatype Vote = Vote(ballot: Ballot, signature: Signature)

  datatype Envelope = Envelope(dest: nat, vote: Vote)

  /**
   * The peers of each node; the ballots that take part; which signatures are genuine; and which ballots
   * each node can judge and would accept.
   */
  datatype Mesh = Mesh(peers: seq<seq<nat>>, ballots: set<Ballot>, genuine: Vote -> bool, admits: (nat, Ballot) -> bool)

  datatype State = State(recorded: seq<set<Ballot>>, flight: multiset<Envelope>, casters: set<(nat, Ballot)>)

  predicate Genuine(mesh: Mesh, vote: Vote) {
    mesh.genuine(vote)
  }

  predicate Admits(mesh: Mesh, node: nat, ballot: Ballot) {
    mesh.admits(node, ballot)
  }

  ghost predicate WellFormed(mesh: Mesh, s: State) {
    && |s.recorded| == |mesh.peers|
    && (forall i, j | 0 <= i < |mesh.peers| && 0 <= j < |mesh.peers[i]| :: mesh.peers[i][j] < |mesh.peers|)
    && (forall e | e in s.flight :: e.dest < |mesh.peers| && e.vote.ballot in mesh.ballots)
  }

  function Copies(peers: seq<nat>, vote: Vote): multiset<Envelope> {
    if peers == [] then multiset{}
    else Copies(peers[..|peers| - 1], vote) + multiset{Envelope(peers[|peers| - 1], vote)}
  }

  predicate IsNews(mesh: Mesh, s: State, node: nat, vote: Vote)
    requires node < |s.recorded|
  {
    Genuine(mesh, vote) && Admits(mesh, node, vote.ballot) && vote.ballot !in s.recorded[node]
  }

  /** Recording a vote at a node and sending it on. */
  function Record(mesh: Mesh, s: State, node: nat, vote: Vote): State
    requires node < |s.recorded| == |mesh.peers|
  {
    State(s.recorded[node := s.recorded[node] + {vote.ballot}], s.flight + Copies(mesh.peers[node], vote), s.casters)
  }

  /** Delivery of one envelope. */
  function Deliver(mesh: Mesh, s: State, e: Envelope): State
    requires e.dest < |s.recorded| == |mesh.peers|
  {
    var rest := s.(flight := s.flight - multiset{e});
    if IsNews(mesh, s, e.dest, e.vote) then Record(mesh, rest, e.dest, e.vote) else rest
  }

  /** A node casts a vote of its own. */
  function Cast(mesh: Mesh, s: State, node: nat, vote: Vote): State
    requires node < |s.recorded| == |mesh.peers|
  {
    Record(mesh, s, node, vote).(casters := s.casters + {(node, vote.ballot)})
  }

  ghost predicate Casts(mesh: Mesh, s: State, t: State, node: nat, vote: Vote) {
    && node < |s.recorded| == |mesh.peers|
    && vote.ballot in mesh.ballots && IsNews(mesh, s, node, vote) && t == Cast(mesh, s, node, vote)
  }

  ghost predicate Delivers(mesh: Mesh, s: State, t: State, e: Envelope) {
    && e.dest < |s.recorded| == |mesh.peers|
    && e in s.flight && t == Deliver(mesh, s, e)
  }

  ghost predicate Step(mesh: Mesh, s: State, t: State) {
    WellFormed(mesh, s) && ((exists e :: Delivers(mesh, s, t, e)) || exists i, v :: Casts(mesh, s, t, i, v))
  }

  // ---- termination -----------------------------------------------------------------------

  /** Ballots still unrecorded, each weighted by the envelopes that recording it would put in flight. */
  function Pending(mesh: Mesh, recorded: seq<set<Ballot>>, n: nat): nat
    requires n <= |recorded| && n <= |mesh.peers|
  {
    if n == 0 then 0
    else Pending(mesh, recorded, n - 1) + |mesh.ballots - recorded[n - 1]| * (|mesh.peers[n - 1]| + 1)
  }

  function Measure(mesh: Mesh, s: State): nat
    requires |s.recorded| == |mesh.peers|
  {
    Pending(mesh, s.recorded, |s.recorded|) + |s.flight|
  }

  lemma {:induction false} CopiesCount(peers: seq<nat>, vote: Vote)
    ensures |Copies(peers, vote)| == |peers|
    ensures forall e :: e in Copies(peers, vote) <==> e.vote == vote && e.dest in peers
    decreases |peers|
  {
    if peers != [] {
      CopiesCount(peers[..|peers| - 1], vote);
      assert peers == peers[..|peers| - 1] + [peers[|peers| - 1]];
    }
  }

  lemma {:induction false} PendingElsewhere(mesh: Mesh, recorded: seq<set<Ballot>>, i: nat, more: set<Ballot>, n: nat)
    requires n <= i < |recorded| && |recorded| == |mesh.peers|
    ensures Pending(mesh, recorded[i := more], n) == Pending(mesh, recorded, n)
  {
    if n > 0 {
      PendingElsewhere(mesh, recorded, i, more, n - 1);
    }
  }

  /** Recording one ballot at node i lowers what is pending by its weight. */
  lemma {:induction false} PendingDrops(mesh: Mesh, recorded: seq<set<Ballot>>, i: nat, b: Ballot, n: nat)
    requires i < n <= |recorded| && |recorded| == |mesh.peers|
    requires b in mesh.ballots && b !in recorded[i]
    ensures Pending(mesh, recorded[i := recorded[i] + {b}], n) + |mesh.peers[i]| + 1 == Pending(mesh, recorded, n)
  {
    var after := recorded[i := recorded[i] + {b}];
    if n == i + 1 {
      PendingElsewhere(mesh, recorded, i, recorded[i] + {b}, i);
      var missing := mesh.ballots - recorded[i];
      assert mesh.ballots - after[i] == missing - {b};
      assert |missing| == |missing - {b}| + 1;
      OneMore(|missing - {b}|, |mesh.peers[i]| + 1);
    } else {
      PendingDrops(mesh, recorded, i, b, n - 1);
    }
  }

  lemma RecordDescends(mesh: Mesh, s: State, node: nat, vote: Vote)
    requires node < |s.recorded| == |mesh.peers|
    requires vote.ballot in mesh.ballots && vote.ballot !in s.recorded[node]
    ensures Measure(mesh, Record(mesh, s, node, vote)) == Measure(mesh, s) - 1
  {
    hide Pending;
    CopiesCount(mesh.peers[node], vote);
    PendingDrops(mesh, s.recorded, node, vote.ballot, |s.recorded|);
  }

  lemma RecordWellFormed(mesh: Mesh, s: State, node: nat, vote: Vote)
    requires WellFormed(mesh, s) && node < |mesh.peers| && vote.ballot in mesh.ballots
    ensures WellFormed(mesh, Record(mesh, s, node, vote))
  {
    var t, peers := Record(mesh, s, node, vote), mesh.peers[node];
    CopiesCount(peers, vote);
    forall x | x in t.flight ensures x.dest < |mesh.peers| && x.vote.ballot in mesh.ballots {
      if x !in s.flight {
        assert x in Copies(peers, vote);
        assert x.dest in peers;
      }
    }
  }

  lemma StepDescends(mesh: Mesh, s: State, t: State)
    requires Step(mesh, s, t)
    ensures WellFormed(mesh, t) && Measure(mesh, t) < Measure(mesh, s)
  {
    hide Pending, Copies;
    if e :| Delivers(mesh, s, t, e) {
      var rest := s.(flight := s.flight - multiset{e});
      assert |rest.flight| == |s.flight| - 1 && WellFormed(mesh, rest);
      if IsNews(mesh, s, e.dest, e.vote) {
        RecordDescends(mesh, rest, e.dest, e.vote);
        RecordWellFormed(mesh, rest, e.dest, e.vote);
      }
    } else {
      var i, v :| Casts(mesh, s, t, i, v);
      RecordDescends(mesh, s, i, v);
      RecordWellFormed(mesh, s, i, v);
    }
  }

  ghost predicate IsRun(mesh: Mesh, run: seq<State>) {
    run != [] && WellFormed(mesh, run[0]) && forall i | 0 <= i < |run| - 1 :: Step(mesh, run[i], run[i + 1])
  }

  lemma ShorterRun(mesh: Mesh, run: seq<State>)
    requires IsRun(mesh, run) && |run| > 1
    ensures IsRun(mesh, run[..|run| - 1]) && Step(mesh, run[|run| - 2], run[|run| - 1])
  {
    hide WellFormed, Step;
    var shorter := run[..|run| - 1];
    forall i | 0 <= i < |shorter| - 1 ensures Step(mesh, shorter[i], shorter[i + 1]) {
      assert Step(mesh, run[i], run[i + 1]);
    }
    assert Step(mesh, run[|run| - 2], run[|run| - 2 + 1]);
  }

  /** The flood ends: no run takes more steps than the measure of its first state. */
  lemma {:induction false} FloodTerminates(mesh: Mesh, run: seq<State>)
    requires IsRun(mesh, run)
    ensures WellFormed(mesh, run[|run| - 1])
    ensures |run| - 1 + Measure(mesh, run[|run| - 1]) <= Measure(mesh, run[0])
    decreases |run|
  {
    hide WellFormed, Step, Measure;
    if |run| > 1 {
      ShorterRun(mesh, run);
      FloodTerminates(mesh, run[..|run| - 1]);
      StepDescends(mesh, run[|run| - 2], run[|run| - 1]);
    }
  }

  // ---- completeness: a recorded ballot goes on to every peer that would record it ------------------

  ghost predicate OnItsWay(mesh: Mesh, s: State, node: nat, b: Ballot) {
    exists v: Vote :: v.ballot == b && Genuine(mesh, v) && Envelope(node, v) in s.flight
  }

  ghost predicate Has(s: State, node: nat, b: Ballot) {
    node < |s.recorded| && b in s.recorded[node]
  }

  ghost predicate SpreadTo(mesh: Mesh, s: State, p: nat, b: Ballot) {
    Has(s, p, b) || !Admits(mesh, p, b) || OnItsWay(mesh, s, p, b)
  }

  /** Whatever a node recorded has reached, or is on its way to, each of its peers that would record it. */
  ghost predicate Spreading(mesh: Mesh, s: State, b: Ballot) {
    && |s.recorded| == |mesh.peers|
    && forall i, p | 0 <= i < |mesh.peers| && Has(s, i, b) && p in mesh.peers[i] :: SpreadTo(mesh, s, p, b)
  }

  // ---- one act of one node, as one ballot sees it ----------------------------------------------------

  ghost predicate Hears(heard: Option<Envelope>, b: Ballot) {
    heard.Some? && heard.value.vote.ballot == b
  }

  /** A genuine vote has gone to every peer. */
  ghost predicate SentOn(mesh: Mesh, t: State, i: nat, b: Ballot)
    requires i < |mesh.peers|
  {
    exists w: Vote :: w.ballot == b && Genuine(mesh, w) && forall p | p in mesh.peers[i] :: Envelope(p, w) in t.flight
  }

  /**
   * Node i takes at most one envelope, and if there is news records the ballot, sends it to all its peers and,
   * unless it has just heard it, is one that cast it. Whatever else happens does not concern the ballot.
   */
  ghost predicate ActsOn(mesh: Mesh, s: State, t: State, i: nat, heard: Option<Envelope>, news: bool, b: Ballot) {
    && i < |mesh.peers| == |s.recorded| == |t.recorded|
    && (forall j: nat :: Has(t, j, b) <==> Has(s, j, b) || (j == i && news))
    && (forall e: Envelope | e.vote.ballot == b && e in t.flight :: e in s.flight || (news && e.dest in mesh.peers[i]))
    && (forall e: Envelope | e.vote.ballot == b && e in s.flight && heard != Some(e) :: e in t.flight)
    && (heard.Some? ==> heard.value in s.flight && heard.value.dest == i)
    && (Hears(heard, b) && Genuine(mesh, heard.value.vote) ==> Has(t, i, b) || !Admits(mesh, i, b))
    && (news ==> Admits(mesh, i, b) && SentOn(mesh, t, i, b))
    && (forall j: nat :: (j, b) in t.casters <==> (j, b) in s.casters || (j == i && news && !Hears(heard, b)))
  }

  lemma ActKeepsSpreading(mesh: Mesh, s: State, t: State, i: nat, heard: Option<Envelope>, news: bool, b: Ballot)
    requires ActsOn(mesh, s, t, i, heard, news, b) && Spreading(mesh, s, b)
    ensures Spreading(mesh, t, b)
  {
    forall j, p | 0 <= j < |mesh.peers| && Has(t, j, b) && p in mesh.peers[j] ensures SpreadTo(mesh, t, p, b) {
      if Has(s, j, b) {
        assert SpreadTo(mesh, s, p, b);
        if OnItsWay(mesh, s, p, b) {
          var w: Vote :| w.ballot == b && Genuine(mesh, w) && Envelope(p, w) in s.flight;
          assert heard == Some(Envelope(p, w)) || Envelope(p, w) in t.flight;
        }
      } else {
        var w: Vote :| w.ballot == b && Genuine(mesh, w) && forall q | q in mesh.peers[i] :: Envelope(q, w) in t.flight;
        assert Envelope(p, w) in t.flight;
      }
    }
  }

  lemma DeliveryActs(mesh: Mesh, s: State, e: Envelope, b: Ballot)
    requires |s.recorded| == |mesh.peers| && e.dest < |mesh.peers| && e in s.flight
    ensures ActsOn(mesh, s, Deliver(mesh, s, e), e.dest, Some(e),
                   IsNews(mesh, s, e.dest, e.vote) && e.vote.ballot == b, b)
  {
    var i, t, rest := e.dest, Deliver(mesh, s, e), s.flight - multiset{e};
    var news := IsNews(mesh, s, i, e.vote);
    FlightAfter(mesh, s, e);
    assert |t.recorded| == |s.recorded| && t.casters == s.casters;
    assert forall j: nat :: Has(t, j, b) <==> Has(s, j, b) || (j == i && news && e.vote.ballot == b);
    if news && e.vote.ballot == b {
      assert SentOn(mesh, t, i, b);
    }
    hide Deliver, SentOn;
  }

  lemma FlightAfter(mesh: Mesh, s: State, e: Envelope)
    requires |s.recorded| == |mesh.peers| && e.dest < |mesh.peers| && e in s.flight
    ensures
      var t, news := Deliver(mesh, s, e), IsNews(mesh, s, e.dest, e.vote);
      && (forall x: Envelope | x in s.flight && x != e :: x in t.flight)
      && (forall x: Envelope | x in t.flight ::
            x in s.flight || (news && x.vote == e.vote && x.dest in mesh.peers[e.dest]))
      && (news ==> forall p | p in mesh.peers[e.dest] :: Envelope(p, e.vote) in t.flight)
  {
    CopiesCount(mesh.peers[e.dest], e.vote);
    hide Copies, IsNews;
  }

  lemma CastActs(mesh: Mesh, s: State, i: nat, v: Vote, b: Ballot)
    requires i < |s.recorded| == |mesh.peers| && IsNews(mesh, s, i, v)
    ensures ActsOn(mesh, s, Cast(mesh, s, i, v), i, None, v.ballot == b, b)
  {
    var t := Cast(mesh, s, i, v);
    CopiesCount(mesh.peers[i], v);
    hide Copies;
    if v.ballot == b {
      assert forall p | p in mesh.peers[i] :: Envelope(p, v) in t.flight;
      assert SentOn(mesh, t, i, b);
    }
  }

  lemma StepKeepsSpreading(mesh: Mesh, s: State, t: State, b: Ballot)
    requires Step(mesh, s, t) && Spreading(mesh, s, b)
    ensures Spreading(mesh, t, b)
  {
    hide Spreading, ActsOn, Deliver, Cast;
    if e :| Delivers(mesh, s, t, e) {
      DeliveryActs(mesh, s, e, b);
      ActKeepsSpreading(mesh, s, t, e.dest, Some(e), IsNews(mesh, s, e.dest, e.vote) && e.vote.ballot == b, b);
    } else {
      var i, v :| Casts(mesh, s, t, i, v);
      CastActs(mesh, s, i, v, b);
      ActKeepsSpreading(mesh, s, t, i, None, v.ballot == b, b);
    }
  }

  lemma {:induction false} RunKeepsSpreading(mesh: Mesh, run: seq<State>, b: Ballot)
    requires IsRun(mesh, run) && Spreading(mesh, run[0], b)
    ensures Spreading(mesh, run[|run| - 1], b)
    decreases |run|
  {
    hide Spreading, Step, WellFormed;
    if |run| > 1 {
      ShorterRun(mesh, run);
      RunKeepsSpreading(mesh, run[..|run| - 1], b);
      StepKeepsSpreading(mesh, run[|run| - 2], run[|run| - 1], b);
    }
  }

  // ---- soundness: a ballot is recorded only along routes from a caster ---------------------------------

  /** A path of the mesh all of whose nodes would record the ballot. */
  ghost predicate Route(mesh: Mesh, path: seq<nat>, b: Ballot) {
    && path != [] && (forall i | 0 <= i < |path| :: path[i] < |mesh.peers| && Admits(mesh, path[i], b))
    && forall i | 0 <= i < |path| - 1 :: path[i + 1] in mesh.peers[path[i]]
  }

  ghost predicate RouteFrom(mesh: Mesh, s: State, path: seq<nat>, node: nat, b: Ballot) {
    Route(mesh, path, b) && (path[0], b) in s.casters && path[|path| - 1] == node
  }

  /** Some node that cast the ballot has a path to this one through nodes that would record it. */
  ghost predicate Reached(mesh: Mesh, s: State, node: nat, b: Ballot) {
    exists path :: RouteFrom(mesh, s, path, node, b)
  }

  ghost predicate NextToReached(mesh: Mesh, s: State, node: nat, b: Ballot) {
    exists i :: 0 <= i < |mesh.peers| && Reached(mesh, s, i, b) && node in mesh.peers[i]
  }

  ghost predicate OnlyRoutes(mesh: Mesh, s: State, b: Ballot) {
    && |s.recorded| == |mesh.peers|
    && (forall i | 0 <= i < |s.recorded| && b in s.recorded[i] :: Reached(mesh, s, i, b))
    && (forall e | e in s.flight && e.vote.ballot == b :: NextToReached(mesh, s, e.dest, b))
    && (forall i | (i, b) in s.casters :: Has(s, i, b))
  }

  lemma ReachedStays(mesh: Mesh, s: State, t: State, b: Ballot)
    requires forall i: nat | (i, b) in s.casters :: (i, b) in t.casters
    ensures forall i | Reached(mesh, s, i, b) :: Reached(mesh, t, i, b)
    ensures forall i | NextToReached(mesh, s, i, b) :: NextToReached(mesh, t, i, b)
  {
    forall i | Reached(mesh, s, i, b) ensures Reached(mesh, t, i, b) {
      var path :| RouteFrom(mesh, s, path, i, b);
      assert RouteFrom(mesh, t, path, i, b);
    }
    forall i | NextToReached(mesh, s, i, b) ensures NextToReached(mesh, t, i, b) {
      var j :| 0 <= j < |mesh.peers| && Reached(mesh, s, j, b) && i in mesh.peers[j];
    }
  }

  lemma PeerIsReached(mesh: Mesh, s: State, node: nat, b: Ballot)
    requires NextToReached(mesh, s, node, b) && node < |mesh.peers| && Admits(mesh, node, b)
    ensures Reached(mesh, s, node, b)
  {
    var i :| 0 <= i < |mesh.peers| && Reached(mesh, s, i, b) && node in mesh.peers[i];
    var path :| RouteFrom(mesh, s, path, i, b);
    assert RouteFrom(mesh, s, path + [node], node, b);
  }

  lemma NearIsNext(mesh: Mesh, s: State, i: nat, node: nat, b: Ballot)
    requires i < |mesh.peers| && Reached(mesh, s, i, b) && node in mesh.peers[i]
    ensures NextToReached(mesh, s, node, b)
  {
  }

  lemma ActKeepsRoutes(mesh: Mesh, s: State, t: State, i: nat, heard: Option<Envelope>, news: bool, b: Ballot)
    requires ActsOn(mesh, s, t, i, heard, news, b) && OnlyRoutes(mesh, s, b)
    ensures OnlyRoutes(mesh, t, b)
  {
    ReachedStays(mesh, s, t, b);
    if news {
      ActorIsReached(mesh, s, t, i, heard, b);
    }
    hide Reached, NextToReached;
    forall j | 0 <= j < |t.recorded| && b in t.recorded[j] ensures Reached(mesh, t, j, b) {
      assert Has(t, j, b);
      if Has(s, j, b) {
        assert Reached(mesh, s, j, b);
      }
    }
    forall e | e in t.flight && e.vote.ballot == b ensures NextToReached(mesh, t, e.dest, b) {
      if e !in s.flight {
        NearIsNext(mesh, t, i, e.dest, b);
      }
    }
    forall j | (j, b) in t.casters ensures Has(t, j, b) {
      if (j, b) in s.casters {
        assert Has(s, j, b);
      }
    }
  }

  lemma ActorIsReached(mesh: Mesh, s: State, t: State, i: nat, heard: Option<Envelope>, b: Ballot)
    requires ActsOn(mesh, s, t, i, heard, true, b) && OnlyRoutes(mesh, s, b)
    ensures Reached(mesh, t, i, b)
  {
    ReachedStays(mesh, s, t, b);
    hide Reached, NextToReached;
    if Hears(heard, b) {
      InFlightIsNear(mesh, s, heard.value, b);
      PeerIsReached(mesh, t, i, b);
    } else {
      CasterIsReached(mesh, t, i, b);
    }
  }

  lemma StepKeepsRoutes(mesh: Mesh, s: State, t: State, b: Ballot)
    requires Step(mesh, s, t) && OnlyRoutes(mesh, s, b)
    ensures OnlyRoutes(mesh, t, b)
  {
    hide OnlyRoutes, ActsOn, Deliver, Cast;
    if e :| Delivers(mesh, s, t, e) {
      DeliveryActs(mesh, s, e, b);
      ActKeepsRoutes(mesh, s, t, e.dest, Some(e), IsNews(mesh, s, e.dest, e.vote) && e.vote.ballot == b, b);
    } else {
      var i, v :| Casts(mesh, s, t, i, v);
      CastActs(mesh, s, i, v, b);
      ActKeepsRoutes(mesh, s, t, i, None, v.ballot == b, b);
    }
  }

  lemma InFlightIsNear(mesh: Mesh, s: State, e: Envelope, b: Ballot)
    requires OnlyRoutes(mesh, s, b) && e in s.flight && e.vote.ballot == b
    ensures NextToReached(mesh, s, e.dest, b)
  {
  }

  lemma CasterIsReached(mesh: Mesh, s: State, i: nat, b: Ballot)
    requires i < |mesh.peers| && (i, b) in s.casters && Admits(mesh, i, b)
    ensures Reached(mesh, s, i, b)
  {
    assert RouteFrom(mesh, s, [i], i, b);
  }

  lemma {:induction false} RunKeepsRoutes(mesh: Mesh, run: seq<State>, b: Ballot)
    requires IsRun(mesh, run) && OnlyRoutes(mesh, run[0], b)
    ensures OnlyRoutes(mesh, run[|run| - 1], b)
    decreases |run|
  {
    hide OnlyRoutes, Step, WellFormed;
    if |run| > 1 {
      ShorterRun(mesh, run);
      RunKeepsRoutes(mesh, run[..|run| - 1], b);
      StepKeepsRoutes(mesh, run[|run| - 2], run[|run| - 1], b);
    }
  }

  // ---- who has the vote in the end --------------------------------------------------------------------------

  /** Nobody has the ballot yet and no message carries it. */
  ghost predicate Untold(s: State, b: Ballot) {
    && (forall i | 0 <= i < |s.recorded| :: b !in s.recorded[i])
    && (forall e | e in s.flight :: e.vote.ballot != b)
    && (forall i: nat :: (i, b) !in s.casters)
  }

  /** No message carries the ballot any more. */
  ghost predicate Delivered(s: State, b: Ballot) {
    forall e | e in s.flight :: e.vote.ballot != b
  }

  lemma {:induction false} RouteCarries(mesh: Mesh, s: State, path: seq<nat>, b: Ballot)
    requires Spreading(mesh, s, b) && Delivered(s, b)
    requires Route(mesh, path, b) && Has(s, path[0], b)
    ensures Has(s, path[|path| - 1], b)
    decreases |path|
  {
    if |path| > 1 {
      var n := |path| - 1;
      assert path[n - 1 + 1] in mesh.peers[path[n - 1]];
      RouteCarries(mesh, s, path[..n], b);
      assert SpreadTo(mesh, s, path[n], b);
    }
  }

  /**
   * Once no message carries a ballot any more, a node has recorded it exactly when somebody who cast it has a path to
   * that node through nodes that would record it.
   */
  lemma FloodReaches(mesh: Mesh, run: seq<State>, node: nat, b: Ballot)
    requires IsRun(mesh, run) && Untold(run[0], b) && Delivered(run[|run| - 1], b) && node < |mesh.peers|
    ensures Has(run[|run| - 1], node, b) <==> Reached(mesh, run[|run| - 1], node, b)
  {
    hide Step, SpreadTo, Reached, NextToReached;
    assert Spreading(mesh, run[0], b) && OnlyRoutes(mesh, run[0], b);
    RunKeepsSpreading(mesh, run, b);
    RunKeepsRoutes(mesh, run, b);
    EndOfFlood(mesh, run[|run| - 1], node, b);
  }

  lemma EndOfFlood(mesh: Mesh, s: State, node: nat, b: Ballot)
    requires Spreading(mesh, s, b) && OnlyRoutes(mesh, s, b) && Delivered(s, b) && node < |mesh.peers|
    ensures Has(s, node, b) <==> Reached(mesh, s, node, b)
  {
    if Reached(mesh, s, node, b) {
      var path :| RouteFrom(mesh, s, path, node, b);
      RouteCarries(mesh, s, path, b);
    }
  }
}
