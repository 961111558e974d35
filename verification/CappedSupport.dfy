/** reputation/tally.py: how much a set of attesters counts for once collusion clusters are capped. */
module CappedSupport {
  import opened Types
  import opened Sets
  import opened Graph
  import opened Registry

  const ALPHA_NUM := 34
  const ALPHA_DEN := 100

  type WeightMap = map<Key, int>

  function WeightOf(weights: WeightMap): Key -> int {
    k => if k in weights then weights[k] else 0
  }

  ghost function Total(weights: WeightMap, attesters: set<Key>): int {
    Sum(attesters, WeightOf(weights))
  }

  /** A total is what its keys weigh, one by one. */
  lemma TotalExactly(weights: WeightMap, keys: set<Key>, k: Key)
    ensures Total(weights, {}) == 0
    ensures k in keys && k in weights ==> Total(weights, keys) == weights[k] + Total(weights, keys - {k})
  {
    if k in keys {
      SumRemove(keys, WeightOf(weights), k);
    }
  }

  function Cap(total: int): int {
    ALPHA_NUM * total / ALPHA_DEN
  }

  ghost function ClusterWeight(weights: WeightMap): set<Key> -> int {
    c => Total(weights, c)
  }

  function Clamped(size: nat, weight: int, cap: int): int {
    if size >= 2 then Min(weight, cap) else weight
  }

  /** What one cluster contributes: singletons in full, larger clusters at most the cap. */
  ghost function Contribution(weights: WeightMap, cap: int): set<Key> -> int {
    c => Clamped(|c|, Total(weights, c), cap)
  }

  ghost function CountedIn(clusters: set<set<Key>>, weights: WeightMap, cap: int): int {
    Sum(clusters, Contribution(weights, cap))
  }

  /** `capped_support`, for the mutual ties `ties` between attesters. */
  ghost function Capped(ties: set<Edge>, attesters: set<Key>, weights: WeightMap): int {
    CountedIn(Components(ties, attesters), weights, Cap(Total(weights, attesters)))
  }

  ghost predicate NonNegative(weights: WeightMap) {
    forall k | k in weights :: weights[k] >= 0
  }

  lemma TotalNonNegative(weights: WeightMap, c: set<Key>)
    requires NonNegative(weights)
    ensures Total(weights, c) >= 0
  {
    SumNonNegative(c, WeightOf(weights));
  }

  lemma SizesAdd(a: set<Key>, b: set<Key>)
    requires a !! b && a != {} && b != {}
    ensures |a| >= 1 && |b| >= 1 && |a + b| == |a| + |b|
  {
  }

  lemma ClampedAdds(m: nat, n: nat, x: int, y: int, cap: int)
    requires m >= 1 && n >= 1 && x >= 0 && y >= 0 && cap >= 0
    ensures Clamped(m + n, x + y, cap) <= Clamped(m, x, cap) + Clamped(n, y, cap)
  {
  }

  lemma TotalAdds(a: set<Key>, b: set<Key>, weights: WeightMap)
    requires a !! b
    ensures Total(weights, a + b) == Total(weights, a) + Total(weights, b)
  {
    SumUnion(a, b, WeightOf(weights));
  }

  /** Merging two disjoint clusters never counts for more than they did apart. */
  lemma MergingCountsLess(a: set<Key>, b: set<Key>, weights: WeightMap, cap: int)
    requires NonNegative(weights) && cap >= 0 && a !! b && a != {} && b != {}
    ensures Contribution(weights, cap)(a + b) <= Contribution(weights, cap)(a) + Contribution(weights, cap)(b)
  {
    TotalAdds(a, b, weights);
    TotalNonNegative(weights, a);
    TotalNonNegative(weights, b);
    hide Total, Clamped, NonNegative;
    SizesAdd(a, b);
    ClampedAdds(|a|, |b|, Total(weights, a), Total(weights, b), cap);
  }

  /** One more mutual tie never raises the counted support. */
  lemma OneTieCountsLess(ties: set<Edge>, attesters: set<Key>, weights: WeightMap, cap: int, a: Key, b: Key)
    requires NonNegative(weights) && cap >= 0 && a in attesters && b in attesters
    ensures CountedIn(Components(ties + {(a, b)}, attesters), weights, cap)
         <= CountedIn(Components(ties, attesters), weights, cap)
  {
    var ca, cb := Component(ties, attesters, a), Component(ties, attesters, b);
    var before, after := Components(ties, attesters), Components(ties + {(a, b)}, attesters);
    var f := Contribution(weights, cap);
    hide Component, Total;
    OwnComponent(ties, attesters, a);
    OwnComponent(ties, attesters, b);
    ComponentsAfterEdge(ties, attesters, a, b);
    ComponentsDisjoint(ties, attesters, ca, cb);
    if ca == cb {
      assert ca + cb == ca;
      assert after == before;
    } else {
      var rest := before - {ca, cb};
      if ca + cb in rest {
        ComponentsDisjoint(ties, attesters, ca, ca + cb);
        assert false;
      }
      assert before - {ca} - {cb} == rest;
      SumRemove(before, f, ca);
      SumRemove(before - {ca}, f, cb);
      SumAdd(rest, f, ca + cb);
      MergingCountsLess(ca, cb, weights, cap);
    }
  }

  /** More ties between the same attesters never raise the counted support. */
  lemma {:induction false} MoreTiesCountLess(few: set<Edge>, many: set<Edge>, attesters: set<Key>,
                                             weights: WeightMap, cap: int)
    requires NonNegative(weights) && cap >= 0
    requires few <= many && Within(many, attesters)
    ensures CountedIn(Components(many, attesters), weights, cap) <= CountedIn(Components(few, attesters), weights, cap)
    decreases many - few
  {
    if few == many {
    } else {
      var e :| e in many && e !in few;
      OneTieCountsLess(few, attesters, weights, cap, e.0, e.1);
      assert few + {e} == few + {(e.0, e.1)};
      MoreTiesCountLess(few + {e}, many, attesters, weights, cap);
    }
  }

  // ---- summing over a partition ------------------------------------------------------

  lemma {:induction false} SumOverPartition(clusters: set<set<Key>>, nodes: set<Key>, weights: WeightMap)
    requires forall c | c in clusters :: c <= nodes
    requires forall x | x in nodes :: exists c :: c in clusters && x in c
    requires forall c, d | c in clusters && d in clusters :: c == d || c !! d
    ensures Sum(clusters, ClusterWeight(weights)) == Total(weights, nodes)
    decreases clusters
  {
    if clusters == {} {
      assert nodes == {};
    } else {
      var c :| c in clusters;
      var others := clusters - {c};
      forall x | x in nodes - c ensures exists d :: d in others && x in d {
        var d :| d in clusters && x in d;
        assert d in others;
      }
      forall d | d in others ensures d <= nodes - c {
        assert c !! d;
      }
      SumOverPartition(others, nodes - c, weights);
      SumRemove(clusters, ClusterWeight(weights), c);
      SumSplit(nodes, c, WeightOf(weights));
    }
  }

  lemma ComponentsSum(ties: set<Edge>, attesters: set<Key>, weights: WeightMap)
    ensures Sum(Components(ties, attesters), ClusterWeight(weights)) == Total(weights, attesters)
  {
    var cs := Components(ties, attesters);
    forall c | c in cs ensures c <= attesters { ComponentsInside(ties, attesters, c); }
    forall x | x in attesters ensures exists c :: c in cs && x in c { OwnComponent(ties, attesters, x); }
    forall c, d | c in cs && d in cs ensures c == d || c !! d { ComponentsDisjoint(ties, attesters, c, d); }
    SumOverPartition(cs, attesters, weights);
  }

  /** Capping only ever lowers the raw sum. */
  lemma CappedAtMostRaw(ties: set<Edge>, attesters: set<Key>, weights: WeightMap)
    ensures Capped(ties, attesters, weights) <= Total(weights, attesters)
  {
    var cap := Cap(Total(weights, attesters));
    SumMono(Components(ties, attesters), Contribution(weights, cap), ClusterWeight(weights));
    ComponentsSum(ties, attesters, weights);
  }

  lemma NoTieNoNeighbour(nodes: set<Key>, a: Key)
    requires a in nodes
    ensures Component({}, nodes, a) == {a}
  {
    Reflexive({}, a);
    forall b | b in nodes && Connected({}, a, b) ensures b == a {
      var p :| Links({}, p, a, b);
      assert |p| > 1 ==> Adjacent({}, p[0], p[0 + 1]);
    }
  }

  /** Independent reviewers count in full: without any mutual tie the counted support is the raw sum. */
  lemma UntiedIsRaw(attesters: set<Key>, weights: WeightMap)
    ensures Capped({}, attesters, weights) == Total(weights, attesters)
  {
    var cap := Cap(Total(weights, attesters));
    var cs := Components({}, attesters);
    forall c | c in cs ensures Contribution(weights, cap)(c) == ClusterWeight(weights)(c) {
      var a :| a in attesters && c == Component({}, attesters, a);
      NoTieNoNeighbour(attesters, a);
    }
    SumSame(cs, Contribution(weights, cap), ClusterWeight(weights));
    ComponentsSum({}, attesters, weights);
  }

  ghost function Cartels(ties: set<Edge>, attesters: set<Key>): set<set<Key>> {
    set c | c in Components(ties, attesters) && |c| >= 2
  }

  ghost function Loners(ties: set<Edge>, attesters: set<Key>): set<Key> {
    set a | a in attesters && Component(ties, attesters, a) == {a}
  }

  lemma SmallComponent(ties: set<Edge>, attesters: set<Key>, c: set<Key>)
    requires c in Components(ties, attesters) && |c| < 2
    ensures exists a :: a in attesters && c == {a} && a in Loners(ties, attesters)
  {
    var a :| a in attesters && c == Component(ties, attesters, a);
    OwnComponent(ties, attesters, a);
    SubsetSize({a}, c);
    assert c == {a};
  }

  /** The clusters that are not cartels are the loners, each by itself. */
  lemma LonersSum(ties: set<Edge>, attesters: set<Key>, weights: WeightMap)
    ensures Sum(Components(ties, attesters) - Cartels(ties, attesters), ClusterWeight(weights))
         == Total(weights, Loners(ties, attesters))
  {
    var small := Components(ties, attesters) - Cartels(ties, attesters);
    var loners := Loners(ties, attesters);
    forall c | c in small ensures c <= loners { SmallComponent(ties, attesters, c); }
    forall x | x in loners ensures exists c :: c in small && x in c {
      OwnComponent(ties, attesters, x);
      assert Component(ties, attesters, x) in small;
    }
    forall c, d | c in small && d in small ensures c == d || c !! d { ComponentsDisjoint(ties, attesters, c, d); }
    SumOverPartition(small, loners, weights);
  }

  /** All cartels together count for at most one cap each; only loners count beyond that. */
  lemma CartelsAreBounded(ties: set<Edge>, attesters: set<Key>, weights: WeightMap)
    ensures Capped(ties, attesters, weights)
         <= Total(weights, Loners(ties, attesters)) + |Cartels(ties, attesters)| * Cap(Total(weights, attesters))
  {
    var cap := Cap(Total(weights, attesters));
    var f := Contribution(weights, cap);
    var cs, cartels := Components(ties, attesters), Cartels(ties, attesters);
    SumSplit(cs, cartels, f);
    forall c | c in cartels ensures f(c) <= cap {}
    SumAtMost(cartels, f, cap);
    SumSame(cs - cartels, f, ClusterWeight(weights));
    LonersSum(ties, attesters, weights);
  }

  // ---- the exact count ----------------------------------------------------------------

  /** The cartels within the cap, and those above it. */
  ghost function Light(ties: set<Edge>, attesters: set<Key>, weights: WeightMap, cap: int): set<set<Key>> {
    set c | c in Cartels(ties, attesters) && Total(weights, c) <= cap
  }

  ghost function Heavy(ties: set<Edge>, attesters: set<Key>, weights: WeightMap, cap: int): set<set<Key>> {
    Cartels(ties, attesters) - Light(ties, attesters, weights, cap)
  }

  /** A cluster of one counts in full, and a cartel up to the cap. */
  lemma ContributionExactly(weights: WeightMap, cap: int, c: set<Key>)
    ensures Contribution(weights, cap)(c) == if |c| < 2 || Total(weights, c) <= cap then Total(weights, c) else cap
  {
    hide Total;
  }

  /**
   * Loners and cartels within 34 percent of the total count in full; a cartel above counts 34 percent, rounded
   * down.
   */
  lemma CountedExactly(ties: set<Edge>, attesters: set<Key>, weights: WeightMap)
    ensures
      var cap := 34 * Total(weights, attesters) / 100;
      var light, heavy := Light(ties, attesters, weights, cap), Heavy(ties, attesters, weights, cap);
      Capped(ties, attesters, weights)
      == Total(weights, Loners(ties, attesters)) + Sum(light, ClusterWeight(weights)) + cap * |heavy|
  {
    var cap := 34 * Total(weights, attesters) / 100;
    assert cap == Cap(Total(weights, attesters));
    var f, cs, cartels := Contribution(weights, cap), Components(ties, attesters), Cartels(ties, attesters);
    var light, heavy := Light(ties, attesters, weights, cap), Heavy(ties, attesters, weights, cap);
    LonersSum(ties, attesters, weights);
    forall c ensures f(c) == if |c| < 2 || Total(weights, c) <= cap then Total(weights, c) else cap {
      ContributionExactly(weights, cap, c);
    }
    hide Total, Components, Loners, Contribution, Clamped;
    SumSplit(cs, cartels, f);
    SumSame(cs - cartels, f, ClusterWeight(weights));
    SumSplit(cartels, light, f);
    assert cartels - light == heavy;
    SumSame(light, f, ClusterWeight(weights));
    SumConstant(heavy, f, cap);
  }

  lemma {:induction false} SumConstant(cs: set<set<Key>>, f: set<Key> -> int, x: int)
    requires forall c | c in cs :: f(c) == x
    ensures Sum(cs, f) == x * |cs|
    decreases cs
  {
    if cs != {} {
      var c :| c in cs;
      SumRemove(cs, f, c);
      SumConstant(cs - {c}, f, x);
    }
  }

  lemma ContributionNonNegative(weights: WeightMap, cap: int, cs: set<set<Key>>)
    requires NonNegative(weights)
    ensures Sum(cs, ClusterWeight(weights)) >= 0
  {
    forall c | c in cs ensures ClusterWeight(weights)(c) >= 0 { TotalNonNegative(weights, c); }
    SumNonNegative(cs, ClusterWeight(weights));
  }

  /** Without a cartel above the cap nothing is lost. */
  lemma NothingLost(ties: set<Edge>, attesters: set<Key>, weights: WeightMap)
    requires Heavy(ties, attesters, weights, 34 * Total(weights, attesters) / 100) == {}
    ensures Capped(ties, attesters, weights) == Total(weights, attesters)
  {
    CountedExactly(ties, attesters, weights);
    ComponentsSum(ties, attesters, weights);
    LonersSum(ties, attesters, weights);
    hide Total, Loners, Capped, Components;
    SumSplit(Components(ties, attesters), Cartels(ties, attesters), ClusterWeight(weights));
    assert Light(ties, attesters, weights, 34 * Total(weights, attesters) / 100) == Cartels(ties, attesters);
  }

  /** However the attesters collude, 34 percent of their weight always counts. */
  lemma CountedAtLeast(ties: set<Edge>, attesters: set<Key>, weights: WeightMap)
    requires NonNegative(weights)
    ensures Capped(ties, attesters, weights) >= 34 * Total(weights, attesters) / 100
  {
    TotalNonNegative(weights, attesters);
    hide Total, Loners, Capped, Light, Heavy, ClusterWeight;
    var total := Total(weights, attesters);
    var cap := 34 * total / 100;
    if Heavy(ties, attesters, weights, cap) == {} {
      NothingLost(ties, attesters, weights);
    } else {
      CountedExactly(ties, attesters, weights);
      TotalNonNegative(weights, Loners(ties, attesters));
      ContributionNonNegative(weights, cap, Light(ties, attesters, weights, cap));
      AtLeastOne(cap, |Heavy(ties, attesters, weights, cap)|);
    }
  }

  lemma AtLeastOne(x: int, n: nat)
    requires x >= 0 && n >= 1
    ensures x * n >= x
  {
  }
}
