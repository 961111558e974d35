/** blockchain/blockchain.py: the BFT quorum and the round-robin proposer schedule. */
module Quorum {
  import opened Types
  import opened Sets

  function QuorumSize(n: nat): nat {
    2 * n / 3 + 1
  }

  /** A quorum is more than two thirds, and no larger than that needs. */
  lemma QuorumIsTwoThirds(n: nat, m: nat)
    ensures m >= QuorumSize(n) <==> 3 * m > 2 * n
  {
  }

  /** With fewer than a third of the validators against it, a quorum can still be reached. */
  lemma QuorumIsReachable(n: nat)
    requires n >= 1
    ensures QuorumSize(n) <= n - (n - 1) / 3
  {
  }

  /** `sorted(validators)[(height + view) % n]`, or nobody when there are no validators. */
  function ScheduledProposer(validators: set<Key>, height: nat, view: nat): (r: Option<Key>)
    ensures r.None? <==> validators == {}
    ensures r.Some? ==> r.value in validators
  {
    if validators == {} then None
    else
      var ordered := SortedNats(validators);
      Some(ordered[(height + view) % |ordered|])
  }

  /** The validators below k. */
  function Lesser(validators: set<Key>, k: Key): set<Key> {
    set v | v in validators && v < k
  }

  /** The scheduled proposer is the validator with (height + view) modulo n validators below it. */
  lemma ProposerExactly(validators: set<Key>, height: nat, view: nat, k: Key)
    ensures ScheduledProposer(validators, height, view) == Some(k)
       <==> k in validators && |Lesser(validators, k)| == (height + view) % |validators|
  {
    hide Lesser, SortedNats;
    if validators != {} {
      var ordered := SortedNats(validators);
      var turn := (height + view) % |validators|;
      BelowAt(validators, ordered, turn);
      if k in validators {
        var r :| 0 <= r < |ordered| && ordered[r] == k;
        BelowAt(validators, ordered, r);
      }
    }
  }

  /** The r-th validator in ascending order has r validators below it. */
  lemma BelowAt(validators: set<Key>, ordered: seq<Key>, r: nat)
    requires r < |ordered| && (forall i, j | 0 <= i < j < |ordered| :: ordered[i] < ordered[j])
    requires forall v :: v in ordered <==> v in validators
    ensures |Lesser(validators, ordered[r])| == r
  {
    var first := ordered[..r];
    forall v ensures v in Lesser(validators, ordered[r]) <==> v in Members(first) {
      if v in Lesser(validators, ordered[r]) {
        var i :| 0 <= i < |ordered| && ordered[i] == v;
        assert i < r && first[i] == v;
      }
    }
    assert Lesser(validators, ordered[r]) == Members(first);
    MembersCount(first);
  }

  function Members(xs: seq<Key>): set<Key> {
    set v | v in xs
  }

  lemma {:induction false} MembersCount(xs: seq<Key>)
    requires forall i, j | 0 <= i < j < |xs| :: xs[i] < xs[j]
    ensures |Members(xs)| == |xs|
    decreases |xs|
  {
    if xs != [] {
      var n := |xs| - 1;
      MembersCount(xs[..n]);
      assert xs[n] !in Members(xs[..n]);
      assert xs == xs[..n] + [xs[n]];
      assert Members(xs) == Members(xs[..n]) + {xs[n]};
    }
  }

  /** Two quorums of the same n validators share more than a third of them: floor((n-1)/3) + 1. */
  lemma QuorumsOverlap(a: set<Key>, b: set<Key>, validators: set<Key>)
    requires a <= validators && b <= validators && validators != {}
    requires |a| >= QuorumSize(|validators|) && |b| >= QuorumSize(|validators|)
    ensures |a * b| >= (|validators| - 1) / 3 + 1
  {
    InclusionExclusion(a, b, validators);
  }

  /** Over any |validators| consecutive views of one height every validator is scheduled exactly once. */
  lemma EveryValidatorGetsOneTurn(validators: set<Key>, height: nat, first: nat, v: Key)
    requires v in validators
    ensures exists view: nat :: first <= view < first + |validators|
                                && ScheduledProposer(validators, height, view) == Some(v)
    ensures forall x: nat, y: nat ::
              && first <= x < first + |validators| && ScheduledProposer(validators, height, x) == Some(v)
              && first <= y < first + |validators| && ScheduledProposer(validators, height, y) == Some(v)
              ==> x == y
  {
    var ordered := SortedNats(validators);
    var n := |ordered|;
    var turn :| 0 <= turn < n && ordered[turn] == v;
    var start := (height + first) % n;
    var view := first + (if start <= turn then turn - start else turn - start + n);
    TurnOf(n, height + first, view - first, turn);
    hide SortedNats;
    assert ScheduledProposer(validators, height, view) == Some(v);
    forall x: nat | first <= x < first + n && ScheduledProposer(validators, height, x) == Some(v)
      ensures x == view
    {
      TurnOf(n, height + first, x - first, (height + x) % n);
      assert ordered[(height + x) % n] == v;
    }
  }

  /** Where the slot `offset` turns after slot `base` falls in a rotation of n. */
  lemma TurnOf(n: nat, base: nat, offset: nat, turn: nat)
    requires n > 0 && offset < n
    ensures (base + offset) % n == turn
         <==> turn == (if base % n + offset < n then base % n + offset else base % n + offset - n)
  {
    var q, r := base / n, base % n;
    assert base == q * n + r;
    if r + offset < n {
      ModIs(base + offset, n, q, r + offset);
    } else {
      assert (q + 1) * n == q * n + n;
      ModIs(base + offset, n, q + 1, r + offset - n);
    }
  }

  lemma ModIs(x: nat, n: nat, q: int, r: nat)
    requires n > 0 && r < n && x == q * n + r
    ensures x % n == r
  {
    assert x == x / n * n + x % n;
    if x / n < q {
      NoOtherQuotient(x / n, x % n, q, r, n);
    } else if q < x / n {
      NoOtherQuotient(q, r, x / n, x % n, n);
    }
  }

  lemma NoOtherQuotient(a: int, b: nat, q: int, r: nat, n: nat)
    requires b < n && r < n && a < q
    ensures a * n + b != q * n + r
  {
    var d := q - a - 1;
    assert q * n == a * n + d * n + n;
    assert d * n >= 0;
  }
}
