/** reputation/tally.py, `attester_clusters`: union-find with path halving, larger roots under smaller ones. */
module UnionFind {
  import opened Types

  type Parents = map<Key, Key>

  /** Every parent is a node, and a node that is not its own parent has a strictly smaller one. */
  predicate WellFormed(parent: Parents) {
    forall k {:trigger Down(parent, k)} | k in parent :: Down(parent, k)
  }

  /** The step from k to its parent stays in the forest and never goes up. */
  predicate Down(parent: Parents, k: Key)
    requires k in parent
  {
    parent[k] in parent && parent[k] <= k
  }

  function Rep(parent: Parents, k: Key): Key
    requires WellFormed(parent) && k in parent
    decreases k
  {
    assert Down(parent, k);
    if parent[k] == k then k else Rep(parent, parent[k])
  }

  /** A representative is a root and the least member of its class. */
  lemma {:induction false} RepIsLeastRoot(parent: Parents, k: Key)
    requires WellFormed(parent) && k in parent
    ensures Rep(parent, k) in parent && Rep(parent, k) <= k
    ensures parent[Rep(parent, k)] == Rep(parent, k)
    ensures Rep(parent, Rep(parent, k)) == Rep(parent, k)
    decreases k
  {
    assert Down(parent, k);
    if parent[k] != k {
      RepIsLeastRoot(parent, parent[k]);
    }
  }

  /** Path halving moves a node up within its class and so changes no representative. */
  lemma {:induction false} HalvingKeepsReps(parent: Parents, x: Key, k: Key)
    requires WellFormed(parent) && x in parent && k in parent
    requires Down(parent, x)
    ensures
      var halved := parent[x := parent[parent[x]]];
      WellFormed(halved) && Rep(halved, k) == Rep(parent, k)
    decreases k
  {
    var halved := parent[x := parent[parent[x]]];
    assert Down(parent, parent[x]) && Down(parent, k);
    forall j | j in halved ensures Down(halved, j) {
      assert Down(parent, j);
    }
    if k == x {
      if parent[parent[x]] != x {
        HalvingKeepsReps(parent, x, parent[parent[x]]);
      }
    } else if parent[k] != k {
      HalvingKeepsReps(parent, x, parent[k]);
    }
  }

  /** Hanging one root under a smaller one merges exactly those two classes. */
  lemma {:induction false} AttachMerges(parent: Parents, hi: Key, lo: Key, k: Key)
    requires WellFormed(parent) && k in parent
    requires hi in parent && lo in parent && lo < hi && parent[hi] == hi && parent[lo] == lo
    ensures
      var merged := parent[hi := lo];
      WellFormed(merged) && Rep(merged, k) == if Rep(parent, k) == hi then lo else Rep(parent, k)
    decreases k
  {
    var merged := parent[hi := lo];
    assert Down(parent, k);
    forall j | j in merged ensures Down(merged, j) {
      assert Down(parent, j);
    }
    assert Rep(merged, lo) == lo;
    if k != hi && parent[k] != k {
      AttachMerges(parent, hi, lo, parent[k]);
    }
  }

  ghost predicate SameReps(before: Parents, after: Parents) {
    && WellFormed(before) && WellFormed(after) && after.Keys == before.Keys
    && forall k | k in before :: Rep(after, k) == Rep(before, k)
  }

  lemma HalvingSameReps(parent: Parents, x: Key)
    requires WellFormed(parent) && x in parent && Down(parent, x)
    ensures SameReps(parent, parent[x := parent[parent[x]]])
  {
    HalvingKeepsReps(parent, x, x);
    forall k | k in parent { HalvingKeepsReps(parent, x, k); }
  }

  /** After `after`, x and y share a class iff they did before or the classes of a and b were joined. */
  ghost predicate Merged(before: Parents, after: Parents, a: Key, b: Key)
    requires WellFormed(before) && a in before && b in before
  {
    && WellFormed(after) && after.Keys == before.Keys
    && forall x, y | x in before && y in before ::
         Rep(after, x) == Rep(after, y) <==>
           || Rep(before, x) == Rep(before, y)
           || (Rep(before, x) == Rep(before, a) && Rep(before, b) == Rep(before, y))
           || (Rep(before, x) == Rep(before, b) && Rep(before, a) == Rep(before, y))
  }

  lemma AttachIsMerge(start: Parents, parent: Parents, a: Key, b: Key)
    requires SameReps(start, parent) && a in start && b in start
    requires Rep(start, a) != Rep(start, b)
    ensures
      var ra, rb := Rep(start, a), Rep(start, b);
      var hi, lo := if ra > rb then ra else rb, if ra > rb then rb else ra;
      hi in parent && lo in parent && Merged(start, parent[hi := lo], a, b)
  {
    var ra, rb := Rep(start, a), Rep(start, b);
    var hi, lo := if ra > rb then ra else rb, if ra > rb then rb else ra;
    RepIsLeastRoot(parent, a);
    RepIsLeastRoot(parent, b);
    var after := parent[hi := lo];
    AttachMerges(parent, hi, lo, a);
    forall k | k in start ensures Rep(after, k) == if Rep(start, k) == hi then lo else Rep(start, k) {
      AttachMerges(parent, hi, lo, k);
    }
  }

  /** The `parent` dictionary together with the two closures over it. */
  class Forest {
    var parent: Parents

    constructor (nodes: set<Key>)
      ensures WellFormed(parent) && parent.Keys == nodes
      ensures forall a | a in nodes :: Rep(parent, a) == a
    {
      parent := map a | a in nodes :: a;
    }

    method Find(x: Key) returns (root: Key)
      requires WellFormed(parent) && x in parent
      modifies this
      ensures SameReps(old(parent), parent)
      ensures root == Rep(parent, x)
    {
      ghost var start := parent;
      root := x;
      while parent[root] != root
        invariant SameReps(start, parent)
        invariant root in parent && Rep(parent, root) == Rep(start, x)
        decreases root
      {
        assert Down(parent, root);
        HalvingSameReps(parent, root);
        assert Down(parent, parent[root]);
        parent := parent[root := parent[parent[root]]];
        root := parent[root];
      }
    }

    method Union(a: Key, b: Key)
      requires WellFormed(parent) && a in parent && b in parent
      modifies this
      ensures Merged(old(parent), parent, a, b)
    {
      ghost var start := parent;
      var ra := Find(a);
      var rb := Find(b);
      if ra == rb {
        return;
      }
      AttachIsMerge(start, parent, a, b);
      var hi, lo := if ra > rb then ra else rb, if ra > rb then rb else ra;
      parent := parent[hi := lo];
    }
  }
}
