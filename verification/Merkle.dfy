/**
 * blockchain/merkle.py: the Merkle tree over transaction hashes, with its odd-width duplication.
 * Everything is generic in the digest type T and the pair hash h; `empty` is the root of no leaves.
 */
module Merkle {

  datatype Side = Left | Right
  datatype Step<T> = Step(sibling: T, side: Side)
  datatype Proof<T> = Proof(leaf: T, path: seq<Step<T>>)
  datatype Lookup<T> = NotInTree | Found(proof: Proof<T>)

  // ---- the tree ------------------------------------------------------------

  /** Node j of a level, the last node standing in for one past the end. */
  function At<T>(xs: seq<T>, j: nat): T
    requires |xs| > 0
  {
    if j < |xs| then xs[j] else xs[|xs| - 1]
  }

  /** The level above xs. */
  function Up<T>(h: (T, T) -> T, xs: seq<T>): (r: seq<T>)
    requires |xs| > 0
    ensures |r| == (|xs| + 1) / 2
  {
    seq((|xs| + 1) / 2, i requires 0 <= i => h(At(xs, 2 * i), At(xs, 2 * i + 1)))
  }

  function Tower<T>(h: (T, T) -> T, xs: seq<T>): (r: seq<seq<T>>)
    requires |xs| > 0
    ensures |r| > 0 && r[0] == xs
    decreases |xs|
  {
    if |xs| == 1 then [xs] else [xs] + Tower(h, Up(h, xs))
  }

  function Levels<T>(h: (T, T) -> T, empty: T, leaves: seq<T>): (r: seq<seq<T>>)
    ensures |r| > 0
  {
    if leaves == [] then [[empty]] else Tower(h, leaves)
  }

  function Peak<T>(h: (T, T) -> T, xs: seq<T>): T
    requires |xs| > 0
    decreases |xs|
  {
    if |xs| == 1 then xs[0] else Peak(h, Up(h, xs))
  }

  function Root<T>(h: (T, T) -> T, empty: T, leaves: seq<T>): T {
    if leaves == [] then empty else Peak(h, leaves)
  }

  /** How many levels lie above n leaves. */
  function Depth(n: nat): nat
    requires n > 0
  {
    if n == 1 then 0 else 1 + Depth((n + 1) / 2)
  }

  function Pow2(d: nat): nat {
    if d == 0 then 1 else 2 * Pow2(d - 1)
  }

  /** Depth is the ceiling of the binary logarithm. */
  lemma {:induction false} DepthIsCeilLog2(n: nat)
    requires n > 0
    ensures n <= Pow2(Depth(n))
    ensures n > 1 ==> Pow2(Depth(n)) < 2 * n
  {
    if n > 1 {
      DepthIsCeilLog2((n + 1) / 2);
    }
  }

  /** One round of `_build_levels`: pad an odd level by its own last node, then hash the pairs. */
  method Parents<T>(h: (T, T) -> T, level: seq<T>) returns (parents: seq<T>)
    requires |level| > 0
    ensures parents == Up(h, level)
  {
    var current := if |level| % 2 == 1 then level + [level[|level| - 1]] else level;
    assert forall j | 0 <= j < |current| :: current[j] == At(level, j);
    parents := seq(|current| / 2, i requires 0 <= i < |current| / 2 => h(current[2 * i], current[2 * i + 1]));
  }

  lemma TowerStep<T>(h: (T, T) -> T, below: seq<seq<T>>, top: seq<T>)
    requires |top| > 1
    ensures below + Tower(h, top) == below + [top] + Tower(h, Up(h, top))
  {
  }

  /** `_build_levels`: appends levels until one node is left; that node is the root. */
  method BuildLevels<T>(h: (T, T) -> T, empty: T, leaves: seq<T>) returns (levels: seq<seq<T>>)
    ensures levels == Levels(h, empty, leaves)
    ensures levels[|levels| - 1] == [Root(h, empty, leaves)]
  {
    if leaves == [] {
      return [[empty]];
    }
    levels := [leaves];
    var top := leaves;
    ghost var below: seq<seq<T>> := [];
    while |top| > 1
      invariant |top| > 0 && levels == below + [top]
      invariant below + Tower(h, top) == Tower(h, leaves)
      invariant Peak(h, top) == Peak(h, leaves)
      decreases |top|
    {
      TowerStep(h, below, top);
      below := levels;
      top := Parents(h, top);
      levels := levels + [top];
    }
  }

  // ---- which tree it is -----------------------------------------------------

  lemma PeakOfTwo<T>(h: (T, T) -> T, a: T, b: T)
    ensures Peak(h, [a, b]) == h(a, b)
  {
    assert Up(h, [a, b]) == [h(a, b)];
  }

  lemma PeakOfThree<T>(h: (T, T) -> T, a: T, b: T, c: T)
    ensures Peak(h, [a, b, c]) == h(h(a, b), h(c, c))
  {
    assert Up(h, [a, b, c]) == [h(a, b), h(c, c)];
    PeakOfTwo(h, h(a, b), h(c, c));
  }

  /** Trees of up to five leaves, written out. */
  lemma SmallTrees<T>(h: (T, T) -> T, empty: T, a: T, b: T, c: T, d: T, e: T)
    ensures Root(h, empty, []) == empty && Root(h, empty, [a]) == a
    ensures Root(h, empty, [a, b]) == h(a, b)
    ensures Root(h, empty, [a, b, c]) == h(h(a, b), h(c, c))
    ensures Root(h, empty, [a, b, c, d]) == h(h(a, b), h(c, d))
    ensures Root(h, empty, [a, b, c, d, e]) == h(h(h(a, b), h(c, d)), h(h(e, e), h(e, e)))
  {
    PeakOfTwo(h, a, b);
    PeakOfThree(h, a, b, c);
    assert Up(h, [a, b, c, d]) == [h(a, b), h(c, d)];
    PeakOfTwo(h, h(a, b), h(c, d));
    assert Up(h, [a, b, c, d, e]) == [h(a, b), h(c, d), h(e, e)];
    PeakOfThree(h, h(a, b), h(c, d), h(e, e));
  }

  /** An even cut of a list is a cut of the level above. */
  lemma UpCut<T>(h: (T, T) -> T, xs: seq<T>, k: nat)
    requires 0 < 2 * k < |xs| && |xs| % 2 == 0
    ensures Up(h, xs)[..k] == Up(h, xs[..2 * k]) && Up(h, xs)[k..] == Up(h, xs[2 * k..])
  {
  }

  /** A full tree is its two halves, the first on the left. */
  lemma {:induction false} HalvesJoin<T>(h: (T, T) -> T, xs: seq<T>, d: nat)
    requires |xs| == Pow2(d + 1)
    ensures |xs| == 2 * Pow2(d) && Pow2(d) > 0
    ensures Peak(h, xs) == h(Peak(h, xs[..Pow2(d)]), Peak(h, xs[Pow2(d)..]))
    decreases d
  {
    hide Peak, Up;
    Pow2Positive(d);
    var half := Pow2(d);
    assert |xs| == 2 * half;
    if d == 0 {
      PeakOfPair(h, xs);
    } else {
      var quarter := Pow2(d - 1);
      assert half == 2 * quarter && quarter > 0 by { Pow2Positive(d - 1); }
      hide Pow2;
      UpCut(h, xs, quarter);
      PeakAbove(h, xs);
      PeakAbove(h, xs[..half]);
      PeakAbove(h, xs[half..]);
      HalvesJoin(h, Up(h, xs), d - 1);
    }
  }

  lemma PeakOfPair<T>(h: (T, T) -> T, xs: seq<T>)
    requires |xs| == 2
    ensures Peak(h, xs) == h(Peak(h, xs[..1]), Peak(h, xs[1..]))
  {
    assert xs == [xs[0], xs[1]] && xs[..1] == [xs[0]] && xs[1..] == [xs[1]];
    PeakOfTwo(h, xs[0], xs[1]);
  }

  lemma PeakAbove<T>(h: (T, T) -> T, xs: seq<T>)
    requires |xs| > 1
    ensures Peak(h, xs) == Peak(h, Up(h, xs))
  {
  }

  lemma {:induction false} Pow2Positive(d: nat)
    ensures Pow2(d) > 0
  {
    if d > 0 {
      Pow2Positive(d - 1);
    }
  }

  // ---- inclusion proofs ----------------------------------------------------

  function Sibling<T>(xs: seq<T>, i: nat): Step<T>
    requires i < |xs|
  {
    if i % 2 == 0 then Step(At(xs, i + 1), Right) else Step(At(xs, i - 1), Left)
  }

  function PathOf<T>(h: (T, T) -> T, xs: seq<T>, i: nat): seq<Step<T>>
    requires i < |xs|
    decreases |xs|
  {
    if |xs| == 1 then [] else [Sibling(xs, i)] + PathOf(h, Up(h, xs), i / 2)
  }

  function Join<T>(h: (T, T) -> T, running: T, step: Step<T>): T {
    if step.side == Right then h(running, step.sibling) else h(step.sibling, running)
  }

  function Fold<T>(h: (T, T) -> T, leaf: T, path: seq<Step<T>>): T
    decreases |path|
  {
    if path == [] then leaf else Fold(h, Join(h, leaf, path[0]), path[1..])
  }

  /** `proof`: the path of the first leaf equal to `leaf`, or the error when there is none. */
  method Prove<T(==)>(h: (T, T) -> T, empty: T, leaves: seq<T>, leaf: T) returns (r: Lookup<T>)
    ensures r.NotInTree? <==> leaf !in leaves
    ensures r.Found? ==> exists i: nat ::
        i < |leaves| && leaves[i] == leaf && leaf !in leaves[..i] && r == Found(Proof(leaf, PathOf(h, leaves, i)))
  {
    var levels := BuildLevels(h, empty, leaves);
    var index := 0;
    while index < |leaves| && leaves[index] != leaf
      invariant index <= |leaves| && leaf !in leaves[..index]
    {
      index := index + 1;
    }
    if index == |leaves| {
      return NotInTree;
    }
    ghost var start := index;
    var path := [];
    for k := 0 to |levels| - 1
      invariant 0 <= index < |levels[k]|
      invariant levels[k..] == Tower(h, levels[k])
      invariant path + PathOf(h, levels[k], index) == PathOf(h, leaves, start)
    {
      assert |levels[k]| > 1 && levels[k..][1..] == Tower(h, Up(h, levels[k])) by {
        assert |levels[k..]| > 1;
      }
      path := path + [Sibling(levels[k], index)];
      index := index / 2;
      assert levels[k + 1..] == levels[k..][1..];
      assert levels[k + 1] == levels[k + 1..][0];
    }
    assert levels[|levels| - 1] == [Root(h, empty, leaves)];
    r := Found(Proof(leaf, path));
  }

  /** `verify`: folds each sibling in on its recorded side. */
  method Verify<T(==)>(h: (T, T) -> T, proof: Proof<T>, root: T) returns (ok: bool)
    ensures ok <==> Fold(h, proof.leaf, proof.path) == root
  {
    var running := proof.leaf;
    for k := 0 to |proof.path|
      invariant Fold(h, running, proof.path[k..]) == Fold(h, proof.leaf, proof.path)
    {
      running := Join(h, running, proof.path[k]);
      assert proof.path[k..][1..] == proof.path[k + 1..];
    }
    return running == root;
  }

  lemma JoinSibling<T>(h: (T, T) -> T, xs: seq<T>, i: nat)
    requires i < |xs|
    ensures Join(h, xs[i], Sibling(xs, i)) == Up(h, xs)[i / 2]
  {
  }

  /** Completeness: the proof of every leaf verifies, and has exactly Depth steps. */
  lemma {:induction false} ProofComplete<T>(h: (T, T) -> T, xs: seq<T>, i: nat)
    requires i < |xs|
    ensures Fold(h, xs[i], PathOf(h, xs, i)) == Peak(h, xs)
    ensures |PathOf(h, xs, i)| == Depth(|xs|)
    decreases |xs|
  {
    if |xs| > 1 {
      var rest := PathOf(h, Up(h, xs), i / 2);
      ProofComplete(h, Up(h, xs), i / 2);
      JoinSibling(h, xs, i);
      assert PathOf(h, xs, i)[1..] == rest;
    }
  }

  // ---- what an injective pair hash buys --------------------------------------

  ghost predicate InjectivePair<T(!new)>(h: (T, T) -> T) {
    forall a, b, c, d :: h(a, b) == h(c, d) ==> a == c && b == d
  }

  /** Soundness: a path of the tree's depth that folds to its root starts at one of its leaves. */
  lemma {:induction false} ProofSound<T(!new)>(h: (T, T) -> T, xs: seq<T>, leaf: T, path: seq<Step<T>>)
    requires InjectivePair(h)
    requires |xs| > 0 && |path| == Depth(|xs|)
    requires Fold(h, leaf, path) == Peak(h, xs)
    ensures leaf in xs
    decreases |xs|
  {
    if |xs| > 1 {
      var running := Join(h, leaf, path[0]);
      ProofSound(h, Up(h, xs), running, path[1..]);
      var i :| 0 <= i < |Up(h, xs)| && Up(h, xs)[i] == running;
      assert h(At(xs, 2 * i), At(xs, 2 * i + 1)) == running;
      assert leaf == At(xs, 2 * i) || leaf == At(xs, 2 * i + 1);
    }
  }

  lemma UpInjective<T(!new)>(h: (T, T) -> T, xs: seq<T>, ys: seq<T>)
    requires InjectivePair(h)
    requires |xs| > 0 && |ys| > 0 && Up(h, xs) == Up(h, ys)
    ensures forall j: nat | j < 2 * |Up(h, xs)| :: At(xs, j) == At(ys, j)
  {
    forall j: nat | j < 2 * |Up(h, xs)| ensures At(xs, j) == At(ys, j) {
      var i := j / 2;
      assert Up(h, xs)[i] == Up(h, ys)[i];
      assert h(At(xs, 2 * i), At(xs, 2 * i + 1)) == h(At(ys, 2 * i), At(ys, 2 * i + 1));
    }
  }

  /** Two leaf lists of equal length with equal roots are equal. */
  lemma {:induction false} SameLengthRoots<T(!new)>(h: (T, T) -> T, xs: seq<T>, ys: seq<T>)
    requires InjectivePair(h)
    requires 0 < |xs| == |ys| && Peak(h, xs) == Peak(h, ys)
    ensures xs == ys
    decreases |xs|
  {
    if |xs| > 1 {
      SameLengthRoots(h, Up(h, xs), Up(h, ys));
      UpInjective(h, xs, ys);
      forall j: nat | j < |xs| ensures xs[j] == ys[j] {
        assert At(xs, j) == At(ys, j);
      }
    }
  }

  /**
   * Without equal length the root does not determine the leaves: duplicating the last of an odd number of leaves
   * keeps it.
   */
  lemma OddDuplicationCollides<T>(h: (T, T) -> T, xs: seq<T>)
    requires |xs| > 1 && |xs| % 2 == 1
    ensures xs + [xs[|xs| - 1]] != xs
    ensures Peak(h, xs + [xs[|xs| - 1]]) == Peak(h, xs)
  {
    var ys := xs + [xs[|xs| - 1]];
    assert |ys| == |xs| + 1;
    forall i: nat | i < |Up(h, xs)| ensures Up(h, xs)[i] == Up(h, ys)[i] {
      assert At(xs, 2 * i) == At(ys, 2 * i) && At(xs, 2 * i + 1) == At(ys, 2 * i + 1);
    }
    assert Up(h, ys) == Up(h, xs);
  }

  ghost predicate Distinct<T>(xs: seq<T>) {
    forall i, j | 0 <= i < j < |xs| :: xs[i] != xs[j]
  }

  /** No digest is at once a leaf and a pair hash, and the empty root is neither. */
  ghost predicate Separated<T(!new)>(h: (T, T) -> T, empty: T, leaf: T -> bool) {
    && !leaf(empty)
    && forall a, b :: !leaf(h(a, b)) && h(a, b) != empty
  }

  /** ys is xs and then only leaves that xs already holds. */
  ghost predicate Pads<T>(xs: seq<T>, ys: seq<T>) {
    && |xs| <= |ys| && ys[..|xs|] == xs
    && forall j | |xs| <= j < |ys| :: ys[j] in xs
  }

  /** Lists of the same depth and the same root differ at most by repeats at the end of the longer one. */
  lemma {:induction false} SameDepthRoots<T(!new)>(h: (T, T) -> T, xs: seq<T>, ys: seq<T>)
    requires InjectivePair(h)
    requires 0 < |xs| <= |ys| && Depth(|xs|) == Depth(|ys|) && Peak(h, xs) == Peak(h, ys)
    ensures Pads(xs, ys)
    decreases |xs|
  {
    if |xs| > 1 {
      SameDepthRoots(h, Up(h, xs), Up(h, ys));
      forall j: nat | j < |ys| ensures ys[j] in xs && (j < |xs| ==> ys[j] == xs[j]) {
        LeafOfPair(h, xs, ys, j);
      }
      assert forall j | 0 <= j < |xs| :: ys[..|xs|][j] == xs[j];
    }
  }

  lemma LeafOfPair<T(!new)>(h: (T, T) -> T, xs: seq<T>, ys: seq<T>, j: nat)
    requires InjectivePair(h) && 0 < |xs| && j < |ys| && Pads(Up(h, xs), Up(h, ys))
    ensures ys[j] in xs && (j < |xs| ==> ys[j] == xs[j])
  {
    var i, us, vs := j / 2, Up(h, xs), Up(h, ys);
    assert vs[i] == h(At(ys, 2 * i), At(ys, 2 * i + 1)) && (j == 2 * i || j == 2 * i + 1);
    if i < |us| {
      assert us[i] == vs[..|us|][i];
      assert us[i] == h(At(xs, 2 * i), At(xs, 2 * i + 1));
      assert ys[j] == At(ys, j) == At(xs, j);
    } else {
      var m :| 0 <= m < |us| && us[m] == vs[i];
      assert us[m] == h(At(xs, 2 * m), At(xs, 2 * m + 1));
      assert ys[j] == At(xs, 2 * m) || ys[j] == At(xs, 2 * m + 1);
    }
  }

  /** Climbing k levels. */
  function Climb<T>(h: (T, T) -> T, xs: seq<T>, k: nat): (r: seq<T>)
    requires |xs| > 0
    ensures |r| > 0
    decreases k
  {
    if k == 0 then xs else Climb(h, Up(h, xs), k - 1)
  }

  lemma {:induction false} ClimbKeepsPeak<T>(h: (T, T) -> T, xs: seq<T>, k: nat)
    requires |xs| > 0 && k <= Depth(|xs|)
    ensures Peak(h, Climb(h, xs, k)) == Peak(h, xs)
    ensures Depth(|Climb(h, xs, k)|) == Depth(|xs|) - k
    ensures k > 0 ==> forall x | x in Climb(h, xs, k) :: exists a, b :: x == h(a, b)
    decreases k
  {
    if k > 0 {
      ClimbKeepsPeak(h, Up(h, xs), k - 1);
      forall x | k == 1 && x in Climb(h, xs, k) ensures exists a, b :: x == h(a, b) {
        var i :| 0 <= i < |Up(h, xs)| && Up(h, xs)[i] == x;
        assert x == h(At(xs, 2 * i), At(xs, 2 * i + 1));
      }
    }
  }

  lemma PeakDepth<T(!new)>(h: (T, T) -> T, empty: T, leaf: T -> bool, xs: seq<T>, ys: seq<T>)
    requires InjectivePair(h) && Separated(h, empty, leaf)
    requires |xs| > 0 && |ys| > 0
    requires forall x | x in xs :: leaf(x)
    requires Peak(h, xs) == Peak(h, ys)
    ensures Depth(|xs|) >= Depth(|ys|)
  {
    if Depth(|xs|) < Depth(|ys|) {
      var k := Depth(|ys|) - Depth(|xs|);
      ClimbKeepsPeak(h, ys, k);
      ProofComplete(h, xs, 0);
      ProofSound(h, Climb(h, ys, k), xs[0], PathOf(h, xs, 0));
      assert false;
    }
  }

  lemma {:induction false} PeakIsPair<T>(h: (T, T) -> T, xs: seq<T>) returns (a: T, b: T)
    requires |xs| > 1
    ensures Peak(h, xs) == h(a, b)
    decreases |xs|
  {
    if |xs| == 2 {
      a, b := xs[0], xs[1];
      assert Up(h, xs)[0] == h(At(xs, 0), At(xs, 1));
    } else {
      a, b := PeakIsPair(h, Up(h, xs));
    }
  }

  lemma PeakNotEmptyRoot<T(!new)>(h: (T, T) -> T, empty: T, leaf: T -> bool, xs: seq<T>)
    requires Separated(h, empty, leaf)
    requires |xs| > 0 && forall x | x in xs :: leaf(x)
    ensures Peak(h, xs) != empty
  {
    if |xs| > 1 {
      var a, b := PeakIsPair(h, xs);
    } else {
      assert xs[0] in xs;
    }
  }

  /** Lists of leaves with one root, whatever their lengths, differ at most by repeats at the end of the longer one. */
  lemma SameRoots<T(!new)>(h: (T, T) -> T, empty: T, leaf: T -> bool, xs: seq<T>, ys: seq<T>)
    requires InjectivePair(h) && Separated(h, empty, leaf)
    requires forall x | x in xs :: leaf(x)
    requires forall y | y in ys :: leaf(y)
    requires Root(h, empty, xs) == Root(h, empty, ys)
    ensures Pads(xs, ys) || Pads(ys, xs)
  {
    if xs == [] || ys == [] {
      if xs != [] { PeakNotEmptyRoot(h, empty, leaf, xs); }
      if ys != [] { PeakNotEmptyRoot(h, empty, leaf, ys); }
    } else {
      PeakDepth(h, empty, leaf, xs, ys);
      PeakDepth(h, empty, leaf, ys, xs);
      if |xs| <= |ys| {
        SameDepthRoots(h, xs, ys);
      } else {
        SameDepthRoots(h, ys, xs);
      }
    }
  }

  /** So among lists without repeats the root determines the list. */
  lemma DistinctRoots<T(!new)>(h: (T, T) -> T, empty: T, leaf: T -> bool, xs: seq<T>, ys: seq<T>)
    requires InjectivePair(h) && Separated(h, empty, leaf)
    requires forall x | x in xs :: leaf(x)
    requires forall y | y in ys :: leaf(y)
    requires Distinct(xs) && Distinct(ys)
    requires Root(h, empty, xs) == Root(h, empty, ys)
    ensures xs == ys
  {
    SameRoots(h, empty, leaf, xs, ys);
    if |xs| < |ys| {
      PaddingRepeats(xs, ys);
    } else if |ys| < |xs| {
      PaddingRepeats(ys, xs);
    }
  }

  lemma PaddingRepeats<T>(xs: seq<T>, ys: seq<T>)
    requires Pads(xs, ys) && |xs| < |ys|
    ensures !Distinct(ys)
  {
    var i :| 0 <= i < |xs| && xs[i] == ys[|xs|];
    assert ys[i] == ys[..|xs|][i];
  }
}
