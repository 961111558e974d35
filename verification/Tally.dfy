/** reputation/tally.py: the scans over the chain and the clusters they induce. */
module Tally {
  import opened Types
  import opened Sets
  import opened Graph
  import opened Registry
  import opened CappedSupport
  import opened UnionFind

  // ---- what the scans compute ------------------------------------------------------

  ghost function TxSet(txs: seq<Transaction>): set<Transaction> {
    set t | t in txs
  }

  /** Every transaction committed on the history. */
  ghost function AllTxs(history: History): set<Transaction> {
    set i, t | 0 <= i < |history| && t in history[i] :: t
  }

  predicate Backs(t: Transaction, s: Scope) {
    IsPositive(t) && t.Payload().scope == s
  }

  ghost function Attesters(txs: set<Transaction>, s: Scope): set<Key> {
    set t | t in txs && Backs(t, s) :: t.Sender()
  }

  ghost function ItemAttesters(txs: set<Transaction>, s: Scope, item: int): set<Key> {
    set t | t in txs && Backs(t, s) && t.Payload().item == item :: t.Sender()
  }

  ghost function Vouches(txs: set<Transaction>): set<Edge> {
    set t | t in txs && IsPositive(t) :: (t.Sender(), t.Payload().scope.subject)
  }

  /** The pairs of attesters who have each positively attested the other. */
  ghost function MutualTies(vouches: set<Edge>, attesters: set<Key>): set<Edge> {
    set a, b | a in attesters && b in attesters && a < b && (a, b) in vouches && (b, a) in vouches :: (a, b)
  }

  /** The collusion clusters: the connected components of the mutual ties. */
  ghost function Clusters(history: History, attesters: set<Key>): set<set<Key>> {
    Components(MutualTies(Vouches(AllTxs(history)), attesters), attesters)
  }

  ghost function CappedOn(history: History, attesters: set<Key>, weights: WeightMap): int {
    Capped(MutualTies(Vouches(AllTxs(history)), attesters), attesters, weights)
  }

  // ---- the scans -------------------------------------------------------------------

  lemma SeenBlock(history: History, i: nat)
    requires i < |history|
    ensures AllTxs(history[..i + 1]) == AllTxs(history[..i]) + TxSet(history[i][..|history[i]|])
  {
    assert history[i][..|history[i]|] == history[i];
    var longer := history[..i + 1];
    forall t ensures t in AllTxs(longer) <==> t in AllTxs(history[..i]) + TxSet(history[i]) {
      if t in AllTxs(longer) {
        var j :| 0 <= j < |longer| && t in longer[j];
        assert j < i ==> history[..i][j] == longer[j];
      }
      if t in AllTxs(history[..i]) {
        var j :| 0 <= j < i && t in history[..i][j];
        assert longer[j] == history[..i][j];
      }
      if t in TxSet(history[i]) {
        assert longer[i] == history[i];
      }
    }
  }

  lemma SeenTx(txs: seq<Transaction>, j: nat)
    requires j < |txs|
    ensures TxSet(txs[..j + 1]) == TxSet(txs[..j]) + {txs[j]}
  {
  }

  /** The transactions met by a scan that has done blocks 0..i-1 and j transactions of block i. */
  ghost function Seen(history: History, i: nat, j: nat): set<Transaction>
    requires i < |history| && j <= |history[i]|
  {
    AllTxs(history[..i]) + TxSet(history[i][..j])
  }

  method PositiveAttesters(history: History, s: Scope) returns (attesters: set<Key>)
    ensures attesters == Attesters(AllTxs(history), s)
  {
    attesters := {};
    for i := 0 to |history|
      invariant attesters == Attesters(AllTxs(history[..i]), s)
    {
      for j := 0 to |history[i]|
        invariant attesters == Attesters(Seen(history, i, j), s)
      {
        var tx := history[i][j];
        SeenTx(history[i], j);
        if Backs(tx, s) {
          attesters := attesters + {tx.Sender()};
        }
      }
      SeenBlock(history, i);
    }
    assert history[..|history|] == history;
  }

  function At(byItem: map<int, set<Key>>, item: int): set<Key> {
    if item in byItem then byItem[item] else {}
  }

  method PositiveAttestersByItem(history: History, s: Scope) returns (byItem: map<int, set<Key>>)
    ensures forall item :: At(byItem, item) == ItemAttesters(AllTxs(history), s, item)
  {
    byItem := map[];
    for i := 0 to |history|
      invariant forall item :: At(byItem, item) == ItemAttesters(AllTxs(history[..i]), s, item)
    {
      for j := 0 to |history[i]|
        invariant forall item :: At(byItem, item) == ItemAttesters(Seen(history, i, j), s, item)
      {
        var tx := history[i][j];
        SeenTx(history[i], j);
        ghost var before := byItem;
        if Backs(tx, s) {
          var item := tx.Payload().item;
          byItem := byItem[item := At(byItem, item) + {tx.Sender()}];
        }
        forall item ensures At(byItem, item) == ItemAttesters(Seen(history, i, j + 1), s, item) {
          assert At(before, item) == ItemAttesters(Seen(history, i, j), s, item);
        }
      }
      SeenBlock(history, i);
    }
    assert history[..|history|] == history;
  }

  method PositivePairs(history: History) returns (pairs: set<Edge>)
    ensures pairs == Vouches(AllTxs(history))
  {
    pairs := {};
    for i := 0 to |history|
      invariant pairs == Vouches(AllTxs(history[..i]))
    {
      for j := 0 to |history[i]|
        invariant pairs == Vouches(Seen(history, i, j))
      {
        var tx := history[i][j];
        SeenTx(history[i], j);
        if IsPositive(tx) {
          pairs := pairs + {(tx.Sender(), tx.Payload().scope.subject)};
        }
      }
      SeenBlock(history, i);
    }
    assert history[..|history|] == history;
  }

  // ---- clusters by union-find --------------------------------------------------------

  /** The forest's classes are the connected components of the ties met so far. */
  ghost predicate Represents(parent: Parents, nodes: set<Key>, ties: set<Edge>) {
    && WellFormed(parent) && parent.Keys == nodes
    && forall x, y | x in nodes && y in nodes :: Rep(parent, x) == Rep(parent, y) <==> Connected(ties, x, y)
  }

  lemma StartRepresents(parent: Parents, nodes: set<Key>)
    requires WellFormed(parent) && parent.Keys == nodes && forall a | a in nodes :: Rep(parent, a) == a
    ensures Represents(parent, nodes, {})
  {
    forall x, y | x in nodes && y in nodes ensures x == y <==> Connected({}, x, y) {
      NoTieNoNeighbour(nodes, x);
      Reflexive({}, x);
      assert Connected({}, x, y) ==> y in Component({}, nodes, x);
    }
  }

  lemma UnionRepresents(before: Parents, after: Parents, nodes: set<Key>, ties: set<Edge>, a: Key, b: Key)
    requires Represents(before, nodes, ties) && a in nodes && b in nodes
    requires Merged(before, after, a, b)
    ensures Represents(after, nodes, ties + {(a, b)})
  {
    forall x, y | x in nodes && y in nodes
      ensures Rep(after, x) == Rep(after, y) <==> Connected(ties + {(a, b)}, x, y)
    {
      ConnectedAfterEdge(ties, a, b, x, y);
    }
  }

  /** The ties of ordered[i] with ordered[i+1..j], and every tie of an earlier one. */
  ghost function TiesSoFar(pairs: set<Edge>, ordered: seq<Key>, i: nat, j: nat): set<Edge>
    requires i <= |ordered| && j <= |ordered|
  {
    set p: nat, q: nat | p < q < |ordered| && (p < i || (p == i && q < j))
                         && (ordered[p], ordered[q]) in pairs && (ordered[q], ordered[p]) in pairs
      :: (ordered[p], ordered[q])
  }

  predicate Mutual(pairs: set<Edge>, a: Key, b: Key) {
    (a, b) in pairs && (b, a) in pairs
  }

  lemma NextTie(pairs: set<Edge>, ordered: seq<Key>, i: nat, j: nat)
    requires i < j < |ordered|
    ensures TiesSoFar(pairs, ordered, i, j + 1) == TiesSoFar(pairs, ordered, i, j)
      + if Mutual(pairs, ordered[i], ordered[j]) then {(ordered[i], ordered[j])} else {}
  {
  }

  lemma RowStart(pairs: set<Edge>, ordered: seq<Key>, i: nat)
    requires i < |ordered|
    ensures TiesSoFar(pairs, ordered, i, i + 1) == TiesSoFar(pairs, ordered, i, 0)
  {
  }

  lemma RowEnd(pairs: set<Edge>, ordered: seq<Key>, i: nat)
    requires i < |ordered|
    ensures TiesSoFar(pairs, ordered, i, |ordered|) == TiesSoFar(pairs, ordered, i + 1, 0)
  {
  }

  lemma AllTies(pairs: set<Edge>, nodes: set<Key>)
    ensures var ordered := SortedNats(nodes);
            TiesSoFar(pairs, ordered, |ordered|, 0) == MutualTies(pairs, nodes)
  {
  }

  /** The inner loop of `attester_clusters`: ties ordered[i] to every later attester it is mutual with. */
  method TieRow(forest: Forest, pairs: set<Edge>, ghost nodes: set<Key>, ordered: seq<Key>, i: nat)
    requires i < |ordered| && forall k | 0 <= k < |ordered| :: ordered[k] in nodes
    requires Represents(forest.parent, nodes, TiesSoFar(pairs, ordered, i, 0))
    modifies forest
    ensures Represents(forest.parent, nodes, TiesSoFar(pairs, ordered, i + 1, 0))
  {
    RowStart(pairs, ordered, i);
    for j := i + 1 to |ordered|
      invariant Represents(forest.parent, nodes, TiesSoFar(pairs, ordered, i, j))
    {
      NextTie(pairs, ordered, i, j);
      if Mutual(pairs, ordered[i], ordered[j]) {
        ghost var before := forest.parent;
        forest.Union(ordered[i], ordered[j]);
        UnionRepresents(before, forest.parent, nodes, TiesSoFar(pairs, ordered, i, j), ordered[i], ordered[j]);
      } else {
        assert TiesSoFar(pairs, ordered, i, j) + {} == TiesSoFar(pairs, ordered, i, j);
      }
    }
    RowEnd(pairs, ordered, i);
  }

  method TieAll(pairs: set<Edge>, attesters: set<Key>) returns (forest: Forest)
    ensures fresh(forest)
    ensures Represents(forest.parent, attesters, MutualTies(pairs, attesters))
  {
    forest := new Forest(attesters);
    StartRepresents(forest.parent, attesters);
    var ordered := SortedNats(attesters);
    TieOrdered(forest, pairs, attesters, ordered);
    AllTies(pairs, attesters);
  }

  method TieOrdered(forest: Forest, pairs: set<Edge>, ghost nodes: set<Key>, ordered: seq<Key>)
    requires forall k | 0 <= k < |ordered| :: ordered[k] in nodes
    requires Represents(forest.parent, nodes, {})
    modifies forest
    ensures Represents(forest.parent, nodes, TiesSoFar(pairs, ordered, |ordered|, 0))
  {
    assert TiesSoFar(pairs, ordered, 0, 0) == {};
    for i := 0 to |ordered|
      invariant Represents(forest.parent, nodes, TiesSoFar(pairs, ordered, i, 0))
    {
      TieRow(forest, pairs, nodes, ordered, i);
    }
  }

  /** The members among `done` whose representative is r. */
  ghost function ClassOf(parent: Parents, done: set<Key>, r: Key): set<Key>
    requires WellFormed(parent) && done <= parent.Keys
  {
    set x | x in done && Rep(parent, x) == r
  }

  ghost function Roots(parent: Parents, done: set<Key>): set<Key>
    requires WellFormed(parent) && done <= parent.Keys
  {
    set x | x in done :: Rep(parent, x)
  }

  ghost predicate Grouped(clusters: map<Key, set<Key>>, parent: Parents, done: set<Key>) {
    && WellFormed(parent) && done <= parent.Keys
    && clusters.Keys == Roots(parent, done)
    && forall r | r in clusters :: clusters[r] == ClassOf(parent, done, r)
  }

  lemma GroupedAreComponents(clusters: map<Key, set<Key>>, parent: Parents, nodes: set<Key>, ties: set<Edge>)
    requires Represents(parent, nodes, ties) && Grouped(clusters, parent, nodes)
    ensures clusters.Values == Components(ties, nodes)
    ensures forall r | r in clusters :: r in clusters[r] && forall x | x in clusters[r] :: r <= x
  {
    forall x | x in nodes ensures ClassOf(parent, nodes, Rep(parent, x)) == Component(ties, nodes, x) {
      forall y | y in nodes ensures Rep(parent, y) == Rep(parent, x) <==> Connected(ties, x, y) {}
    }
    forall c | c in clusters.Values ensures c in Components(ties, nodes) {
      var r :| r in clusters && clusters[r] == c;
      var x :| x in nodes && Rep(parent, x) == r;
    }
    forall c | c in Components(ties, nodes) ensures c in clusters.Values {
      var x :| x in nodes && c == Component(ties, nodes, x);
      assert clusters[Rep(parent, x)] == c;
    }
    forall r | r in clusters ensures r in clusters[r] && forall x | x in clusters[r] :: r <= x {
      var y :| y in nodes && Rep(parent, y) == r;
      RepIsLeastRoot(parent, y);
      forall x | x in clusters[r] ensures r <= x { RepIsLeastRoot(parent, x); }
    }
  }

  /** `attester_clusters`: exactly the connected components, whatever order the attesters are visited in. */
  method AttesterClusters(history: History, attesters: set<Key>) returns (clusters: set<set<Key>>)
    ensures clusters == Clusters(history, attesters)
  {
    var pairs := PositivePairs(history);
    var forest := TieAll(pairs, attesters);
    ghost var ties := MutualTies(pairs, attesters);
    var byRoot: map<Key, set<Key>> := map[];
    var todo := attesters;
    while todo != {}
      invariant todo <= attesters
      invariant Represents(forest.parent, attesters, ties)
      invariant Grouped(byRoot, forest.parent, attesters - todo)
      decreases todo
    {
      var a :| a in todo;
      ghost var before, done := forest.parent, attesters - todo;
      var root := forest.Find(a);
      GroupOne(byRoot, before, forest.parent, done, a);
      assert done + {a} == attesters - (todo - {a});
      byRoot := byRoot[root := MembersOf(byRoot, root) + {a}];
      todo := todo - {a};
    }
    assert attesters - todo == attesters;
    GroupedAreComponents(byRoot, forest.parent, attesters, ties);
    return byRoot.Values;
  }

  lemma ClassGrows(before: Parents, parent: Parents, done: set<Key>, a: Key, r: Key)
    requires SameReps(before, parent) && done <= parent.Keys && a in parent
    ensures ClassOf(parent, done + {a}, r) == ClassOf(before, done, r) + if r == Rep(parent, a) then {a} else {}
  {
  }

  lemma NoClassYet(clusters: map<Key, set<Key>>, parent: Parents, done: set<Key>, r: Key)
    requires Grouped(clusters, parent, done) && r !in clusters
    ensures ClassOf(parent, done, r) == {}
  {
    hide Rep, UnionFind.WellFormed;
  }

  lemma RootsGrow(before: Parents, parent: Parents, done: set<Key>, a: Key)
    requires SameReps(before, parent) && done <= parent.Keys && a in parent
    ensures Roots(parent, done + {a}) == Roots(before, done) + {Rep(parent, a)}
  {
    assert forall x | x in done :: Rep(parent, x) == Rep(before, x);
    hide Rep, UnionFind.WellFormed;
  }

  function MembersOf(clusters: map<Key, set<Key>>, r: Key): set<Key> {
    if r in clusters then clusters[r] else {}
  }

  lemma MembersAreClass(clusters: map<Key, set<Key>>, parent: Parents, done: set<Key>, r: Key)
    requires Grouped(clusters, parent, done)
    ensures MembersOf(clusters, r) == ClassOf(parent, done, r)
  {
    if r !in clusters {
      NoClassYet(clusters, parent, done, r);
    }
  }

  lemma UpdatedKeys(clusters: map<Key, set<Key>>, r: Key, members: set<Key>)
    ensures clusters[r := members].Keys == clusters.Keys + {r}
  {
  }

  lemma GroupOne(clusters: map<Key, set<Key>>, before: Parents, parent: Parents, done: set<Key>, a: Key)
    requires Grouped(clusters, before, done) && SameReps(before, parent) && a in parent
    ensures
      var root := Rep(parent, a);
      Grouped(clusters[root := MembersOf(clusters, root) + {a}], parent, done + {a})
  {
    assert UnionFind.WellFormed(parent) && done + {a} <= parent.Keys;
    RootsGrow(before, parent, done, a);
    hide Rep, ClassOf, Roots, SameReps, UnionFind.WellFormed;
    var root := Rep(parent, a);
    var grown := clusters[root := MembersOf(clusters, root) + {a}];
    forall r | r in grown ensures grown[r] == ClassOf(parent, done + {a}, r) {
      MembersAreClass(clusters, before, done, r);
      ClassGrows(before, parent, done, a, r);
    }
    UpdatedKeys(clusters, root, MembersOf(clusters, root) + {a});
  }

  /** `capped_support`: sums the clusters, each of two or more members at most the cap. */
  method CappedSupportOf(history: History, attesters: set<Key>, weights: WeightMap) returns (counted: int)
    requires weights.Keys == attesters
    ensures counted == CappedOn(history, attesters, weights)
  {
    var total := SumWeights(attesters, weights);
    var cap := Cap(total);
    var clusters := AttesterClusters(history, attesters);
    ghost var ties := MutualTies(Vouches(AllTxs(history)), attesters);
    counted := 0;
    var todo := clusters;
    while todo != {}
      invariant todo <= clusters
      invariant counted + CountedIn(todo, weights, cap) == CountedIn(clusters, weights, cap)
      decreases todo
    {
      var c :| c in todo;
      ComponentsInside(ties, attesters, c);
      var clusterWeight := SumWeights(c, weights);
      if |c| >= 2 {
        clusterWeight := Min(clusterWeight, cap);
      }
      SumRemove(todo, Contribution(weights, cap), c);
      counted := counted + clusterWeight;
      todo := todo - {c};
    }
  }

  method SumWeights(keys: set<Key>, weights: WeightMap) returns (sum: int)
    requires keys <= weights.Keys
    ensures sum == Total(weights, keys)
  {
    sum := 0;
    var todo := keys;
    while todo != {}
      invariant todo <= keys
      invariant sum + Sum(todo, WeightOf(weights)) == Total(weights, keys)
      decreases todo
    {
      var k :| k in todo;
      SumRemove(todo, WeightOf(weights), k);
      sum := sum + weights[k];
      todo := todo - {k};
    }
  }

  // ---- the collusion cap --------------------------------------------------------------

  /**
   * Committing more transactions, whatever they vouch for, never raises the counted support of fixed attesters and
   * weights.
   */
  lemma MoreVouchingCountsLess(history: History, longer: History, attesters: set<Key>, weights: WeightMap)
    requires AllTxs(history) <= AllTxs(longer)
    requires NonNegative(weights)
    ensures CappedOn(longer, attesters, weights) <= CappedOn(history, attesters, weights)
  {
    var few := MutualTies(Vouches(AllTxs(history)), attesters);
    var many := MutualTies(Vouches(AllTxs(longer)), attesters);
    TotalNonNegative(weights, attesters);
    MoreTiesCountLess(few, many, attesters, weights, Cap(Total(weights, attesters)));
  }
}
