/** Finite sets: sums over them, their sorted enumeration, and how two large subsets overlap. */
module Sets {

  /** The sum of f over s. The order in which elements are picked does not matter (SumRemove). */
  ghost function Sum<T>(s: set<T>, f: T -> int): int {
    if s == {} then 0
    else
      var x :| x in s;
      f(x) + Sum(s - {x}, f)
  }

  lemma {:induction false} SumRemove<T>(s: set<T>, f: T -> int, y: T)
    requires y in s
    ensures Sum(s, f) == f(y) + Sum(s - {y}, f)
    decreases s
  {
    var x :| x in s && Sum(s, f) == f(x) + Sum(s - {x}, f);
    if x != y {
      SumRemove(s - {x}, f, y);
      SumRemove(s - {y}, f, x);
      assert s - {x} - {y} == s - {y} - {x};
    }
  }

  lemma SumAdd<T>(s: set<T>, f: T -> int, y: T)
    requires y !in s
    ensures Sum(s + {y}, f) == f(y) + Sum(s, f)
  {
    SumRemove(s + {y}, f, y);
    assert s + {y} - {y} == s;
  }

  lemma {:induction false} SumUnion<T>(a: set<T>, b: set<T>, f: T -> int)
    requires a !! b
    ensures Sum(a + b, f) == Sum(a, f) + Sum(b, f)
    decreases b
  {
    if b == {} {
      assert a + b == a;
    } else {
      var y :| y in b;
      SumUnion(a, b - {y}, f);
      SumRemove(b, f, y);
      SumRemove(a + b, f, y);
      assert a + b - {y} == a + (b - {y});
    }
  }

  lemma SumSplit<T>(s: set<T>, part: set<T>, f: T -> int)
    requires part <= s
    ensures Sum(s, f) == Sum(part, f) + Sum(s - part, f)
  {
    SumUnion(part, s - part, f);
    assert part + (s - part) == s;
  }

  lemma {:induction false} SumMono<T>(s: set<T>, f: T -> int, g: T -> int)
    requires forall x | x in s :: f(x) <= g(x)
    ensures Sum(s, f) <= Sum(s, g)
    decreases s
  {
    if s != {} {
      var x :| x in s;
      SumRemove(s, f, x);
      SumRemove(s, g, x);
      SumMono(s - {x}, f, g);
    }
  }

  lemma SumSame<T>(s: set<T>, f: T -> int, g: T -> int)
    requires forall x | x in s :: f(x) == g(x)
    ensures Sum(s, f) == Sum(s, g)
  {
  }

  lemma {:induction false} SumNonNegative<T>(s: set<T>, f: T -> int)
    requires forall x | x in s :: 0 <= f(x)
    ensures 0 <= Sum(s, f)
    decreases s
  {
    if s != {} {
      var x :| x in s;
      SumRemove(s, f, x);
      SumNonNegative(s - {x}, f);
    }
  }

  lemma {:induction false} SumAtMost<T>(s: set<T>, f: T -> int, bound: int)
    requires forall x | x in s :: f(x) <= bound
    ensures Sum(s, f) <= |s| * bound
    decreases s
  {
    if s == {} {
      assert |s| * bound == 0;
    } else {
      var x :| x in s;
      SumRemove(s, f, x);
      SumAtMost(s - {x}, f, bound);
      OneMore(|s - {x}|, bound);
      assert |s - {x}| + 1 == |s|;
    }
  }

  lemma OneMore(n: nat, x: int)
    ensures (n + 1) * x == n * x + x
  {
  }

  /** A finite set cannot hold more elements than a set that contains it. */
  lemma {:induction false} SubsetSize<T>(a: set<T>, b: set<T>)
    requires a <= b
    ensures |a| <= |b|
    ensures |a| == |b| ==> a == b
    decreases b
  {
    if x :| x in a {
      SubsetSize(a - {x}, b - {x});
      assert |a - {x}| == |b - {x}| ==> a == (a - {x}) + {x} == (b - {x}) + {x} == b;
    } else if y :| y in b {
      assert a == {} && |b| >= 1;
    }
  }

  lemma InclusionExclusion<T>(a: set<T>, b: set<T>, universe: set<T>)
    requires a <= universe && b <= universe
    ensures |a * b| >= |a| + |b| - |universe|
  {
    SubsetSize(a + b, universe);
    assert |a + b| == |a| + |b| - |a * b|;
  }

  // ---- sorting -------------------------------------------------------------

  predicate IsLeast(m: int, s: set<int>) {
    m in s && forall x | x in s :: m <= x
  }

  lemma Inhabited(s: set<int>)
    ensures s == {} || exists x :: x in s
  {
    if forall x :: x !in s {
      assert s == {};
    }
  }

  lemma {:induction false} LeastExists(s: set<int>) returns (m: int)
    requires s != {}
    ensures m in s && forall x | x in s :: m <= x
    decreases s
  {
    Inhabited(s);
    m :| m in s;
    var rest := s - {m};
    assert forall x | x in s :: x == m || x in rest;
    if rest != {} {
      var k := LeastExists(rest);
      m := if m <= k then m else k;
    }
  }

  lemma SomeLeast(s: set<int>)
    requires s != {}
    ensures exists m :: m in s && IsLeast(m, s)
  {
    var k := LeastExists(s);
    assert IsLeast(k, s);
  }

  function Least(s: set<int>): (m: int)
    requires s != {}
    ensures IsLeast(m, s)
  {
    SomeLeast(s);
    var m :| m in s && IsLeast(m, s);
    m
  }

  ghost predicate Enumerates(r: seq<int>, s: set<int>) {
    && |r| == |s|
    && (forall x :: x in r <==> x in s)
    && forall i, j | 0 <= i < j < |r| :: r[i] < r[j]
  }

  lemma PrependLeast(s: set<int>, m: int, rest: seq<int>)
    requires IsLeast(m, s) && Enumerates(rest, s - {m})
    ensures Enumerates([m] + rest, s)
  {
    assert forall i | 0 <= i < |rest| :: rest[i] in rest;
    assert forall x | x in s :: x == m || x in rest;
  }

  /** The elements of s in increasing order. */
  function Sorted(s: set<int>): (r: seq<int>)
    ensures |r| == |s|
    ensures forall x :: x in r <==> x in s
    ensures forall i, j | 0 <= i < j < |r| :: r[i] < r[j]
    decreases |s|
  {
    if s == {} then []
    else
      var m := Least(s);
      var rest := Sorted(s - {m});
      PrependLeast(s, m, rest);
      [m] + rest
  }

  function SortedNats(s: set<nat>): (r: seq<nat>)
    ensures |r| == |s|
    ensures forall x :: x in r <==> x in s
    ensures forall i, j | 0 <= i < j < |r| :: r[i] < r[j]
    ensures r == Sorted(s)
  {
    var r: seq<int> := Sorted(s);
    assert forall i | 0 <= i < |r| :: r[i] in r;
    r
  }

  function Insert(x: int, xs: seq<int>): seq<int> {
    if xs == [] || x <= xs[0] then [x] + xs else [xs[0]] + Insert(x, xs[1..])
  }

  /** A list in non-decreasing order. */
  function Sort(xs: seq<int>): seq<int> {
    if xs == [] then [] else Insert(xs[0], Sort(xs[1..]))
  }

  predicate Ascending(xs: seq<int>) {
    forall i, j | 0 <= i < j < |xs| :: xs[i] <= xs[j]
  }

  lemma {:induction false} InsertAdds(x: int, xs: seq<int>)
    ensures multiset(Insert(x, xs)) == multiset(xs) + multiset{x}
    ensures forall y :: y in Insert(x, xs) <==> y == x || y in xs
  {
    if xs != [] && x > xs[0] {
      InsertAdds(x, xs[1..]);
      assert xs == [xs[0]] + xs[1..];
    }
  }

  lemma {:induction false} InsertSorts(x: int, xs: seq<int>)
    requires Ascending(xs)
    ensures Ascending(Insert(x, xs))
  {
    if xs != [] && x > xs[0] {
      var tail := Insert(x, xs[1..]);
      InsertSorts(x, xs[1..]);
      InsertAdds(x, xs[1..]);
      forall i | 0 <= i < |tail| ensures xs[0] <= tail[i] {
        assert tail[i] in tail;
      }
    }
  }

  lemma {:induction false} SortSorts(xs: seq<int>)
    ensures Ascending(Sort(xs)) && multiset(Sort(xs)) == multiset(xs)
  {
    if xs != [] {
      SortSorts(xs[1..]);
      InsertSorts(xs[0], Sort(xs[1..]));
      InsertAdds(xs[0], Sort(xs[1..]));
      assert xs == [xs[0]] + xs[1..];
    }
  }

  lemma FirstIsLeast(xs: seq<int>, y: int)
    requires Ascending(xs) && y in multiset(xs)
    ensures xs != [] && xs[0] <= y
  {
    var i :| 0 <= i < |xs| && xs[i] == y;
  }

  lemma AscendingTail(xs: seq<int>)
    requires xs != [] && Ascending(xs)
    ensures Ascending(xs[1..])
    ensures multiset(xs[1..]) == multiset(xs) - multiset{xs[0]} && xs[0] in multiset(xs)
  {
    assert xs == [xs[0]] + xs[1..];
  }

  lemma SameList(xs: seq<int>, ys: seq<int>)
    requires xs != [] && ys != [] && xs[0] == ys[0] && xs[1..] == ys[1..]
    ensures xs == ys
  {
    assert xs == [xs[0]] + xs[1..] && ys == [ys[0]] + ys[1..];
  }

  lemma {:induction false} AscendingUnique(xs: seq<int>, ys: seq<int>)
    requires Ascending(xs) && Ascending(ys) && multiset(xs) == multiset(ys)
    ensures xs == ys
    decreases |xs|
  {
    hide Ascending;
    assert |multiset(xs)| == |xs| && |multiset(ys)| == |ys|;
    if xs != [] {
      AscendingTail(xs);
      AscendingTail(ys);
      FirstIsLeast(xs, ys[0]);
      FirstIsLeast(ys, xs[0]);
      AscendingUnique(xs[1..], ys[1..]);
      SameList(xs, ys);
    }
  }

  lemma {:induction false} SortedMultiset(s: set<int>)
    ensures multiset(Sorted(s)) == multiset(s)
    decreases |s|
  {
    if s != {} {
      SortedMultiset(s - {Least(s)});
      assert multiset(s) == multiset(s - {Least(s)}) + multiset{Least(s)};
    }
  }

  /** A list sorts to the enumeration of s iff it lists every element of s exactly once. */
  lemma SortsToSet(xs: seq<int>, s: set<int>)
    ensures Sort(xs) == Sorted(s) <==> multiset(xs) == multiset(s)
  {
    SortSorts(xs);
    SortedMultiset(s);
    if multiset(xs) == multiset(s) {
      AscendingUnique(Sort(xs), Sorted(s));
    }
  }
}
