/** Connected components of a finite undirected graph, and what adding an edge does to them. */
module Graph {
  import opened Types

  type Edge = (Key, Key)

  predicate Adjacent(edges: set<Edge>, x: Key, y: Key) {
    (x, y) in edges || (y, x) in edges
  }

  predicate IsPath(edges: set<Edge>, p: seq<Key>) {
    |p| > 0 && forall i | 0 <= i < |p| - 1 :: Adjacent(edges, p[i], p[i + 1])
  }

  ghost predicate Links(edges: set<Edge>, p: seq<Key>, x: Key, y: Key) {
    IsPath(edges, p) && p[0] == x && p[|p| - 1] == y
  }

  ghost predicate Connected(edges: set<Edge>, x: Key, y: Key) {
    exists p :: Links(edges, p, x, y)
  }

  ghost function Component(edges: set<Edge>, nodes: set<Key>, a: Key): set<Key> {
    set b | b in nodes && Connected(edges, a, b)
  }

  ghost function Components(edges: set<Edge>, nodes: set<Key>): set<set<Key>> {
    set a | a in nodes :: Component(edges, nodes, a)
  }

  ghost predicate Within(edges: set<Edge>, nodes: set<Key>) {
    forall e | e in edges :: e.0 in nodes && e.1 in nodes
  }

  // ---- Connected is an equivalence -----------------------------------------------

  lemma Reflexive(edges: set<Edge>, x: Key)
    ensures Connected(edges, x, x)
  {
    assert Links(edges, [x], x, x);
  }

  lemma Symmetric(edges: set<Edge>, x: Key, y: Key)
    requires Connected(edges, x, y)
    ensures Connected(edges, y, x)
  {
    var p :| Links(edges, p, x, y);
    var n := |p|;
    var q := seq(n, i requires 0 <= i < n => p[n - 1 - i]);
    forall i | 0 <= i < n - 1 ensures Adjacent(edges, q[i], q[i + 1]) {
      assert Adjacent(edges, p[n - 2 - i], p[n - 2 - i + 1]);
    }
    assert Links(edges, q, y, x);
  }

  lemma Transitive(edges: set<Edge>, x: Key, y: Key, z: Key)
    requires Connected(edges, x, y) && Connected(edges, y, z)
    ensures Connected(edges, x, z)
  {
    var p :| Links(edges, p, x, y);
    var q :| Links(edges, q, y, z);
    var r := p + q[1..];
    forall i | 0 <= i < |r| - 1 ensures Adjacent(edges, r[i], r[i + 1]) {
      if i < |p| - 1 {
        assert Adjacent(edges, p[i], p[i + 1]);
      } else {
        var j := i - (|p| - 1);
        assert r[i] == q[j] && r[i + 1] == q[j + 1];
      }
    }
    assert Links(edges, r, x, z);
  }

  lemma OneEdge(edges: set<Edge>, x: Key, y: Key)
    requires Adjacent(edges, x, y)
    ensures Connected(edges, x, y)
  {
    assert Links(edges, [x, y], x, y);
  }

  lemma MoreEdges(few: set<Edge>, many: set<Edge>, x: Key, y: Key)
    requires few <= many && Connected(few, x, y)
    ensures Connected(many, x, y)
  {
    var p :| Links(few, p, x, y);
    assert Links(many, p, x, y);
  }

  // ---- adding one edge -------------------------------------------------------------

  /** x and y are connected once a and b are tied. */
  ghost predicate JoinedBy(edges: set<Edge>, a: Key, b: Key, x: Key, y: Key) {
    || Connected(edges, x, y)
    || (Connected(edges, x, a) && Connected(edges, b, y))
    || (Connected(edges, x, b) && Connected(edges, a, y))
  }

  lemma JoinedStep(edges: set<Edge>, a: Key, b: Key, x: Key, x': Key, y: Key)
    requires Adjacent(edges + {(a, b)}, x, x') && JoinedBy(edges, a, b, x', y)
    ensures JoinedBy(edges, a, b, x, y)
  {
    Reflexive(edges, a);
    Reflexive(edges, b);
    if Adjacent(edges, x, x') {
      OneEdge(edges, x, x');
      if Connected(edges, x', y) { Transitive(edges, x, x', y); }
      if Connected(edges, x', a) { Transitive(edges, x, x', a); }
      if Connected(edges, x', b) { Transitive(edges, x, x', b); }
    }
  }

  lemma {:induction false} PathJoined(edges: set<Edge>, a: Key, b: Key, p: seq<Key>)
    requires IsPath(edges + {(a, b)}, p)
    ensures JoinedBy(edges, a, b, p[0], p[|p| - 1])
    decreases |p|
  {
    if |p| == 1 {
      Reflexive(edges, p[0]);
    } else {
      var rest := p[1..];
      forall i | 0 <= i < |rest| - 1 ensures Adjacent(edges + {(a, b)}, rest[i], rest[i + 1]) {
        assert Adjacent(edges + {(a, b)}, p[i + 1], p[i + 1 + 1]);
      }
      PathJoined(edges, a, b, rest);
      assert Adjacent(edges + {(a, b)}, p[0], p[0 + 1]);
      JoinedStep(edges, a, b, p[0], p[1], p[|p| - 1]);
    }
  }

  lemma ConnectedAfterEdge(edges: set<Edge>, a: Key, b: Key, x: Key, y: Key)
    ensures Connected(edges + {(a, b)}, x, y) <==> JoinedBy(edges, a, b, x, y)
  {
    var more := edges + {(a, b)};
    if Connected(more, x, y) {
      var p :| Links(more, p, x, y);
      PathJoined(edges, a, b, p);
    }
    if JoinedBy(edges, a, b, x, y) {
      OneEdge(more, a, b);
      OneEdge(more, b, a);
      if Connected(edges, x, y) {
        MoreEdges(edges, more, x, y);
      } else if Connected(edges, x, a) && Connected(edges, b, y) {
        MoreEdges(edges, more, x, a);
        MoreEdges(edges, more, b, y);
        Transitive(more, x, a, b);
        Transitive(more, x, b, y);
      } else {
        MoreEdges(edges, more, x, b);
        MoreEdges(edges, more, a, y);
        Transitive(more, x, b, a);
        Transitive(more, x, a, y);
      }
    }
  }

  // ---- components form a partition ---------------------------------------------------

  lemma ComponentsEqual(edges: set<Edge>, nodes: set<Key>, a: Key, b: Key)
    requires Connected(edges, a, b)
    ensures Component(edges, nodes, a) == Component(edges, nodes, b)
  {
    Symmetric(edges, a, b);
    forall c | c in nodes ensures Connected(edges, a, c) <==> Connected(edges, b, c) {
      if Connected(edges, a, c) { Transitive(edges, b, a, c); }
      if Connected(edges, b, c) { Transitive(edges, a, b, c); }
    }
  }

  lemma OwnComponent(edges: set<Edge>, nodes: set<Key>, a: Key)
    requires a in nodes
    ensures a in Component(edges, nodes, a) && Component(edges, nodes, a) in Components(edges, nodes)
  {
    Reflexive(edges, a);
  }

  lemma ComponentsInside(edges: set<Edge>, nodes: set<Key>, c: set<Key>)
    requires c in Components(edges, nodes)
    ensures c != {} && c <= nodes
  {
    var a :| a in nodes && c == Component(edges, nodes, a);
    OwnComponent(edges, nodes, a);
  }

  /** Two components that meet are the same. */
  lemma ComponentsDisjoint(edges: set<Edge>, nodes: set<Key>, c: set<Key>, d: set<Key>)
    requires c in Components(edges, nodes) && d in Components(edges, nodes)
    ensures c == d || c !! d
  {
    if x :| x in c && x in d {
      MemberDetermines(edges, nodes, c, x);
      MemberDetermines(edges, nodes, d, x);
    }
  }

  lemma MemberDetermines(edges: set<Edge>, nodes: set<Key>, c: set<Key>, x: Key)
    requires c in Components(edges, nodes) && x in c
    ensures c == Component(edges, nodes, x)
  {
    var a :| a in nodes && c == Component(edges, nodes, a);
    ComponentsEqual(edges, nodes, a, x);
  }

  lemma ComponentAfterEdge(edges: set<Edge>, nodes: set<Key>, a: Key, b: Key, x: Key)
    requires a in nodes && b in nodes && x in nodes
    ensures
      var ca, cb := Component(edges, nodes, a), Component(edges, nodes, b);
      Component(edges + {(a, b)}, nodes, x)
      == if x in ca + cb then ca + cb else Component(edges, nodes, x)
  {
    forall y | y in nodes { ConnectedAfterEdge(edges, a, b, x, y); }
    var ca, cb := Component(edges, nodes, a), Component(edges, nodes, b);
    if x in ca {
      Symmetric(edges, a, x);
      ComponentsEqual(edges, nodes, a, x);
      Reflexive(edges, a);
    }
    if x in cb {
      Symmetric(edges, b, x);
      ComponentsEqual(edges, nodes, b, x);
      Reflexive(edges, b);
    }
    if x !in ca && Connected(edges, x, a) { Symmetric(edges, x, a); }
    if x !in cb && Connected(edges, x, b) { Symmetric(edges, x, b); }
  }

  /** Tying a and b replaces their two components by the union, and touches no other. */
  lemma ComponentsAfterEdge(edges: set<Edge>, nodes: set<Key>, a: Key, b: Key)
    requires a in nodes && b in nodes
    ensures
      var ca, cb := Component(edges, nodes, a), Component(edges, nodes, b);
      Components(edges + {(a, b)}, nodes) == Components(edges, nodes) - {ca, cb} + {ca + cb}
  {
    var ca, cb := Component(edges, nodes, a), Component(edges, nodes, b);
    var before, after := Components(edges, nodes), Components(edges + {(a, b)}, nodes);
    OwnComponent(edges, nodes, a);
    OwnComponent(edges, nodes, b);
    forall x | x in nodes { ComponentAfterEdge(edges, nodes, a, b, x); }
    assert ca + cb == Component(edges + {(a, b)}, nodes, a);
    forall c | c in after ensures c in before - {ca, cb} + {ca + cb} {
      var x :| x in nodes && c == Component(edges + {(a, b)}, nodes, x);
      OwnComponent(edges, nodes, x);
    }
    forall c | c in before - {ca, cb} ensures c in after {
      var x :| x in nodes && c == Component(edges, nodes, x);
      if x in ca { MemberDetermines(edges, nodes, ca, x); }
      if x in cb { MemberDetermines(edges, nodes, cb, x); }
      assert c == Component(edges + {(a, b)}, nodes, x);
    }
  }
}
