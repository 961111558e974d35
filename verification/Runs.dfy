/**
 * Finality safety over whole runs of a node: mining, appending received blocks, collecting commit
 * votes and adopting other chains never change a block hash at or below the finalized height, and
 * never lower the fork-choice rank.
 */
module Runs {
  import opened Types
  import opened Sets
  import opened Consensus
  import opened ForkChoice

  // ---- the steps of a node -------------------------------------------------------------

  /** A block is put on top; whether it is valid does not matter here. */
  ghost predicate Extends(cfg: Config, a: seq<Block>, b: seq<Block>) {
    a != [] && |b| == |a| + 1 && b[..|a|] == a
    && b[|a|].index == |a| && b[|a|].previousHash == BlockHash(cfg, a[|a| - 1])
  }

  /** One commit vote is attached to one block by a key that had none there. */
  ghost predicate AddsCommit(a: seq<Block>, b: seq<Block>) {
    exists i, k, s :: 0 <= i < |a| && k !in a[i].commits && b == WithCommit(a, i, k, s)
  }

  function WithCommit(blocks: seq<Block>, i: nat, k: Key, s: Signature): seq<Block>
    requires i < |blocks|
  {
    blocks[i := blocks[i].(commits := blocks[i].commits[k := s])]
  }

  ghost predicate NodeStep(cfg: Config, a: seq<Block>, b: seq<Block>) {
    a != [] && (a == b || Extends(cfg, a, b) || AddsCommit(a, b) || Adopts(cfg, a, b))
  }

  // ---- what finality of one block depends on ----------------------------------------------

  lemma GenesisIsFinal(cfg: Config, blocks: seq<Block>)
    requires blocks != []
    ensures IsFinal(cfg, blocks, 0)
  {
  }

  lemma {:induction false} FinalBelowIsFinal(cfg: Config, blocks: seq<Block>, n: nat)
    requires 0 < n <= |blocks|
    ensures FinalBelow(cfg, blocks, n) < n && IsFinal(cfg, blocks, FinalBelow(cfg, blocks, n))
  {
    GenesisIsFinal(cfg, blocks);
    hide IsFinal;
    if n > 1 && !IsFinal(cfg, blocks, n - 1) {
      FinalBelowIsFinal(cfg, blocks, n - 1);
    }
  }

  lemma {:induction false} FinalBelowIsGreatest(cfg: Config, blocks: seq<Block>, n: nat, i: nat)
    requires i < n <= |blocks| && IsFinal(cfg, blocks, i)
    ensures i <= FinalBelow(cfg, blocks, n)
  {
    hide IsFinal;
    if i < n - 1 {
      FinalBelowIsGreatest(cfg, blocks, n - 1, i);
    }
  }

  lemma FinalizedIsBelow(cfg: Config, a: seq<Block>)
    requires a != []
    ensures FinalizedHeight(cfg, a) < |a| && IsFinal(cfg, a, FinalizedHeight(cfg, a))
  {
    FinalBelowIsFinal(cfg, a, |a|);
  }

  /** A later chain that finalizes whatever the earlier one did has at least its finalized height. */
  lemma HeightGrows(cfg: Config, a: seq<Block>, b: seq<Block>)
    requires a != [] && |a| <= |b|
    requires forall i | 0 <= i < |a| && IsFinal(cfg, a, i) :: IsFinal(cfg, b, i)
    ensures FinalizedHeight(cfg, a) <= FinalizedHeight(cfg, b)
  {
    FinalizedIsBelow(cfg, a);
    FinalBelowIsGreatest(cfg, b, |b|, FinalizedHeight(cfg, a));
  }

  lemma ExtensionKeepsFinal(cfg: Config, a: seq<Block>, b: seq<Block>, i: nat)
    requires i < |a| <= |b| && b[..|a|] == a
    ensures IsFinal(cfg, b, i) == IsFinal(cfg, a, i)
  {
    assert b[..i] == b[..|a|][..i];
    assert b[i] == b[..|a|][i];
  }

  /** Votes live outside the hashed header and outside the replayed bodies. */
  lemma CommitKeepsEverythingElse(cfg: Config, a: seq<Block>, i: nat, k: Key, s: Signature, n: nat)
    requires i < |a| && n <= |a|
    ensures var b := WithCommit(a, i, k, s);
            && Bodies(b[..n]) == Bodies(a[..n])
            && forall j | 0 <= j < |a| :: HeaderOf(cfg, b[j]) == HeaderOf(cfg, a[j])
  {
  }

  lemma CommitAddsSigners(cfg: Config, a: seq<Block>, i: nat, k: Key, s: Signature, j: nat)
    requires i < |a| && j < |a| && k !in a[i].commits
    ensures CommitSigners(cfg, a[j]) <= CommitSigners(cfg, WithCommit(a, i, k, s)[j])
  {
  }

  lemma CommitKeepsFinal(cfg: Config, a: seq<Block>, i: nat, k: Key, s: Signature, j: nat)
    requires i < |a| && j < |a| && k !in a[i].commits && IsFinal(cfg, a, j)
    ensures IsFinal(cfg, WithCommit(a, i, k, s), j)
  {
    if j > 0 {
      var b := WithCommit(a, i, k, s);
      var validators := ValidatorSet(cfg, Bodies(a[..j]));
      CommitKeepsEverythingElse(cfg, a, i, k, s, j);
      CommitAddsSigners(cfg, a, i, k, s, j);
      SubsetSize(CommitSigners(cfg, a[j]) * validators, CommitSigners(cfg, b[j]) * validators);
    }
  }

  // ---- one step ------------------------------------------------------------------------------

  predicate RankAtMost(a: Rank, b: Rank) {
    a == b || RankLess(a, b)
  }

  /** Every block hash up to height f is the same. */
  ghost predicate SameHashes(cfg: Config, a: seq<Block>, b: seq<Block>, f: nat) {
    f < |a| && f < |b| && forall k | 0 <= k <= f :: BlockHash(cfg, a[k]) == BlockHash(cfg, b[k])
  }

  /** Equal hashes at one height force equal hashes below: headers name their predecessor. */
  lemma {:induction false} LinksForceHistory(cfg: Config, a: seq<Block>, b: seq<Block>, f: nat)
    requires InjectiveHeaders(cfg) && Linked(cfg, a) && Linked(cfg, b)
    requires f < |a| && f < |b| && BlockHash(cfg, a[f]) == BlockHash(cfg, b[f])
    ensures SameHashes(cfg, a, b, f)
  {
    if f > 0 {
      assert HeaderOf(cfg, a[f]) == HeaderOf(cfg, b[f]);
      assert LinkedAt(cfg, a, f) && LinkedAt(cfg, b, f);
      LinksForceHistory(cfg, a, b, f - 1);
    }
  }

  lemma ExtendSafe(cfg: Config, a: seq<Block>, b: seq<Block>)
    requires Linked(cfg, a) && Extends(cfg, a, b)
    ensures Linked(cfg, b) && RankAtMost(ForkChoiceRank(cfg, a), ForkChoiceRank(cfg, b))
    ensures SameHashes(cfg, a, b, FinalizedHeight(cfg, a))
  {
    AppendLinks(cfg, a, b[|a|]);
    assert b == a + [b[|a|]];
    forall i | 0 <= i < |a| { ExtensionKeepsFinal(cfg, a, b, i); }
    HeightGrows(cfg, a, b);
    FinalizedIsBelow(cfg, a);
  }

  lemma CommitKeepsRank(cfg: Config, a: seq<Block>, i: nat, k: Key, s: Signature)
    requires i < |a| && k !in a[i].commits
    ensures RankAtMost(ForkChoiceRank(cfg, a), ForkChoiceRank(cfg, WithCommit(a, i, k, s)))
  {
    hide IsFinal;
    var b, n := WithCommit(a, i, k, s), |a| - 1;
    forall j | 0 <= j < |a| && IsFinal(cfg, a, j) ensures IsFinal(cfg, b, j) {
      CommitKeepsFinal(cfg, a, i, k, s, j);
    }
    HeightGrows(cfg, a, b);
    CommitKeepsEverythingElse(cfg, a, i, k, s, n);
    var validators := ValidatorSet(cfg, Bodies(a[..n]));
    CommitAddsSigners(cfg, a, i, k, s, n);
    SubsetSize(CommitSigners(cfg, a[n]) * validators, CommitSigners(cfg, b[n]) * validators);
  }

  lemma CommitSafe(cfg: Config, a: seq<Block>, i: nat, k: Key, s: Signature)
    requires Linked(cfg, a) && i < |a| && k !in a[i].commits
    ensures var b := WithCommit(a, i, k, s);
      && Linked(cfg, b) && RankAtMost(ForkChoiceRank(cfg, a), ForkChoiceRank(cfg, b))
      && SameHashes(cfg, a, b, FinalizedHeight(cfg, a))
  {
    hide IsFinal, ForkChoiceRank, FinalizedHeight;
    var b := WithCommit(a, i, k, s);
    CommitKeepsEverythingElse(cfg, a, i, k, s, 0);
    forall j | 1 <= j < |b| ensures LinkedAt(cfg, b, j) {
      assert LinkedAt(cfg, a, j);
    }
    CommitKeepsRank(cfg, a, i, k, s);
    FinalizedIsBelow(cfg, a);
  }

  lemma AdoptSafe(cfg: Config, a: seq<Block>, b: seq<Block>)
    requires CollisionFree(cfg) && Linked(cfg, a) && Adopts(cfg, a, b)
    ensures Linked(cfg, b) && RankAtMost(ForkChoiceRank(cfg, a), ForkChoiceRank(cfg, b))
    ensures SameHashes(cfg, a, b, FinalizedHeight(cfg, a))
  {
    ValidIsLinked(cfg, b);
    var f := FinalizedHeight(cfg, a);
    FinalizedIsBelow(cfg, a);
    assert !Rewrites(cfg, a, b, f);
    LinksForceHistory(cfg, a, b, f);
  }

  lemma StepSafe(cfg: Config, a: seq<Block>, b: seq<Block>)
    requires CollisionFree(cfg) && Linked(cfg, a) && NodeStep(cfg, a, b)
    ensures Linked(cfg, b) && RankAtMost(ForkChoiceRank(cfg, a), ForkChoiceRank(cfg, b))
    ensures SameHashes(cfg, a, b, FinalizedHeight(cfg, a))
  {
    if a == b {
      FinalizedIsBelow(cfg, a);
    } else if Extends(cfg, a, b) {
      ExtendSafe(cfg, a, b);
    } else if AddsCommit(a, b) {
      var i, k, s :| 0 <= i < |a| && k !in a[i].commits && b == WithCommit(a, i, k, s);
      CommitSafe(cfg, a, i, k, s);
    } else {
      AdoptSafe(cfg, a, b);
    }
  }

  // ---- whole runs ------------------------------------------------------------------------------

  ghost predicate IsRun(cfg: Config, run: seq<seq<Block>>) {
    && run != [] && Linked(cfg, run[0])
    && forall t | 0 <= t < |run| - 1 :: NodeStep(cfg, run[t], run[t + 1])
  }

  lemma {:induction false} RunStaysLinked(cfg: Config, run: seq<seq<Block>>, t: nat)
    requires CollisionFree(cfg) && IsRun(cfg, run) && t < |run|
    ensures run[t] != [] && Linked(cfg, run[t])
  {
    if t > 0 {
      RunStaysLinked(cfg, run, t - 1);
      assert NodeStep(cfg, run[t - 1], run[t - 1 + 1]);
      StepSafe(cfg, run[t - 1], run[t]);
    }
  }

  lemma NoStepSafe(cfg: Config, a: seq<Block>)
    requires a != []
    ensures RankAtMost(ForkChoiceRank(cfg, a), ForkChoiceRank(cfg, a))
    ensures SameHashes(cfg, a, a, FinalizedHeight(cfg, a))
  {
    FinalizedIsBelow(cfg, a);
  }

  lemma HashesCompose(cfg: Config, a: seq<Block>, b: seq<Block>, c: seq<Block>)
    requires a != [] && b != [] && c != []
    requires RankAtMost(ForkChoiceRank(cfg, a), ForkChoiceRank(cfg, b))
    requires RankAtMost(ForkChoiceRank(cfg, b), ForkChoiceRank(cfg, c))
    requires SameHashes(cfg, a, b, FinalizedHeight(cfg, a)) && SameHashes(cfg, b, c, FinalizedHeight(cfg, b))
    ensures RankAtMost(ForkChoiceRank(cfg, a), ForkChoiceRank(cfg, c))
    ensures SameHashes(cfg, a, c, FinalizedHeight(cfg, a))
  {
    hide BlockHash, FinalizedHeight, TipWeight;
    assert FinalizedHeight(cfg, a) <= FinalizedHeight(cfg, b);
  }

  /** What a node has finalized at any time keeps its hashes at every later time, and its rank never drops. */
  lemma {:induction false} FinalizedForever(cfg: Config, run: seq<seq<Block>>, t: nat, u: nat)
    requires CollisionFree(cfg) && IsRun(cfg, run) && t <= u < |run|
    ensures Linked(cfg, run[t]) && Linked(cfg, run[u])
    ensures RankAtMost(ForkChoiceRank(cfg, run[t]), ForkChoiceRank(cfg, run[u]))
    ensures SameHashes(cfg, run[t], run[u], FinalizedHeight(cfg, run[t]))
    decreases u - t
  {
    hide NodeStep, Linked, IsFinal, SameHashes, RankAtMost, ForkChoiceRank, FinalizedHeight;
    RunStaysLinked(cfg, run, t);
    RunStaysLinked(cfg, run, u);
    if t == u {
      NoStepSafe(cfg, run[t]);
    } else {
      RunStaysLinked(cfg, run, u - 1);
      FinalizedForever(cfg, run, t, u - 1);
      assert NodeStep(cfg, run[u - 1], run[u - 1 + 1]);
      StepSafe(cfg, run[u - 1], run[u]);
      HashesCompose(cfg, run[t], run[u - 1], run[u]);
    }
  }

  // ---- no way back ------------------------------------------------------------------------------

  function CommitCount(blocks: seq<Block>): nat {
    if blocks == [] then 0 else CommitCount(blocks[..|blocks| - 1]) + |blocks[|blocks| - 1].commits|
  }

  /** Up in rank; or level and down in tip hash; or level in both and up in votes. */
  ghost predicate Onward(cfg: Config, a: seq<Block>, b: seq<Block>) {
    && a != [] && b != []
    && var x, y := ForkChoiceRank(cfg, a), ForkChoiceRank(cfg, b);
    || RankLess(x, y)
    || (x == y && TipHash(cfg, b) < TipHash(cfg, a))
    || (x == y && TipHash(cfg, b) == TipHash(cfg, a) && CommitCount(b) > CommitCount(a))
  }

  lemma {:induction false} OneMoreCommit(blocks: seq<Block>, i: nat, k: Key, s: Signature)
    requires i < |blocks| && k !in blocks[i].commits
    ensures CommitCount(WithCommit(blocks, i, k, s)) == CommitCount(blocks) + 1
    decreases |blocks|
  {
    var n, after := |blocks| - 1, WithCommit(blocks, i, k, s);
    if i < n {
      OneMoreCommit(blocks[..n], i, k, s);
      assert after[..n] == WithCommit(blocks[..n], i, k, s) && after[n] == blocks[n];
    } else {
      assert after[..n] == blocks[..n];
      OneMoreKey(blocks[n].commits, k, s);
    }
  }

  lemma OneMoreKey(m: map<Key, Signature>, k: Key, s: Signature)
    requires k !in m
    ensures |m[k := s]| == |m| + 1
  {
    var more := m[k := s];
    assert more.Keys == m.Keys + {k} && |more| == |more.Keys| && |m| == |m.Keys|;
  }

  lemma StepOnward(cfg: Config, a: seq<Block>, b: seq<Block>)
    requires CollisionFree(cfg) && Linked(cfg, a) && NodeStep(cfg, a, b) && a != b
    ensures Onward(cfg, a, b)
  {
    hide IsFinal, FinalizedHeight, TipWeight, ValidChain, CommitCount;
    StepSafe(cfg, a, b);
    if !Extends(cfg, a, b) && AddsCommit(a, b) {
      var i, k, s :| 0 <= i < |a| && k !in a[i].commits && b == WithCommit(a, i, k, s);
      OneMoreCommit(a, i, k, s);
      CommitKeepsEverythingElse(cfg, a, i, k, s, 0);
      assert HeaderOf(cfg, b[|a| - 1]) == HeaderOf(cfg, a[|a| - 1]);
    }
  }

  lemma OnwardComposes(cfg: Config, a: seq<Block>, b: seq<Block>, c: seq<Block>)
    requires Onward(cfg, a, b) && Onward(cfg, b, c)
    ensures Onward(cfg, a, c)
  {
    hide ForkChoiceRank, TipHash, CommitCount;
  }

  /** Mining, voting and adopting in any order, a node that changes its chain never comes back to one it left. */
  lemma {:induction false} NoWayBack(cfg: Config, run: seq<seq<Block>>, t: nat, u: nat)
    requires CollisionFree(cfg) && IsRun(cfg, run) && t < u < |run|
    requires forall i | t <= i < u :: run[i] != run[i + 1]
    ensures Onward(cfg, run[t], run[u]) && run[t] != run[u]
    decreases u - t
  {
    hide NodeStep, Linked, Onward;
    RunStaysLinked(cfg, run, u - 1);
    assert NodeStep(cfg, run[u - 1], run[u - 1 + 1]) && run[u - 1] != run[u - 1 + 1];
    StepOnward(cfg, run[u - 1], run[u]);
    if t < u - 1 {
      NoWayBack(cfg, run, t, u - 1);
      OnwardComposes(cfg, run[t], run[u - 1], run[u]);
    }
    NotOnwardToItself(cfg, run[u]);
  }

  lemma NotOnwardToItself(cfg: Config, a: seq<Block>)
    ensures !Onward(cfg, a, a)
  {
  }
}
