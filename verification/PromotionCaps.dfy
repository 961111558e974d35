/** blockchain/blockchain.py: what the promotion gates guarantee over a whole chain. */
module PromotionCaps {
  import opened Types
  import opened Registry
  import opened Derive
  import opened Consensus
  import opened Finality

  // ---- counting effect indices ---------------------------------------------------------

  /** How many promotions took effect in blocks a .. a + 4. */
  function InWindow(effects: seq<nat>, a: int): nat {
    if effects == [] then 0
    else
      var n := |effects| - 1;
      InWindow(effects[..n], a) + if a <= effects[n] < a + PROMOTION_WINDOW then 1 else 0
  }

  /** How many took effect at or below m. */
  function UpTo(effects: seq<nat>, m: int): nat {
    if effects == [] then 0
    else
      var n := |effects| - 1;
      UpTo(effects[..n], m) + if effects[n] <= m then 1 else 0
  }

  lemma {:induction false} WindowIsRecent(effects: seq<nat>, a: int, i: nat)
    requires i - PROMOTION_WINDOW < a
    ensures InWindow(effects, a) <= Fresh(effects, i)
    decreases |effects|
  {
    if effects != [] {
      WindowIsRecent(effects[..|effects| - 1], a, i);
    }
  }

  lemma {:induction false} OneMoreWindow(effects: seq<nat>, m: int)
    ensures UpTo(effects, m) == UpTo(effects, m - PROMOTION_WINDOW) + InWindow(effects, m - PROMOTION_WINDOW + 1)
    decreases |effects|
  {
    if effects != [] {
      OneMoreWindow(effects[..|effects| - 1], m);
    }
  }

  lemma {:induction false} NoneBelowOne(effects: seq<nat>, m: int)
    requires m <= 0 && forall j | 0 <= j < |effects| :: 1 <= effects[j]
    ensures UpTo(effects, m) == 0
    decreases |effects|
  {
    if effects != [] {
      NoneBelowOne(effects[..|effects| - 1], m);
    }
  }

  lemma {:induction false} AllUpTo(effects: seq<nat>, m: int)
    requires forall j | 0 <= j < |effects| :: effects[j] <= m
    ensures UpTo(effects, m) == |effects|
    decreases |effects|
  {
    if effects != [] {
      AllUpTo(effects[..|effects| - 1], m);
    }
  }

  // ---- the invariant -----------------------------------------------------------------------

  /** Indices lie in 1..i, no window holds more than two, and every promoted key was promoted once. */
  ghost predicate WithinCaps(c: Cohort, i: nat) {
    && (forall j | 0 <= j < |c.effects| :: 1 <= c.effects[j] <= i)
    && (forall a :: InWindow(c.effects, a) <= MAX_NEW_VALIDATORS_PER_WINDOW)
    && |c.promoted| == |c.effects|
  }

  lemma PromotionKeepsCaps(cfg: Config, c: Cohort, w: Weights, i: nat, tx: Transaction)
    requires WithinCaps(c, i) && i >= 1
    ensures WithinCaps(ReplayPromotion(cfg, c, w, i, tx), i)
  {
    var p := tx.Payload();
    if PromotionOk(cfg, p, ConsensusAuthorities(w) + c.promoted, w, Fresh(c.effects, i)) {
      var after := Promote(c, p.candidate, i);
      assert after.effects[..|c.effects|] == c.effects;
      forall a ensures InWindow(after.effects, a) <= MAX_NEW_VALIDATORS_PER_WINDOW {
        if a <= i < a + PROMOTION_WINDOW {
          WindowIsRecent(c.effects, a, i);
        }
      }
    }
  }

  lemma {:induction false} PromotionsKeepCaps(cfg: Config, c: Cohort, w: Weights, i: nat, txs: seq<Transaction>)
    requires WithinCaps(c, i) && i >= 1
    ensures WithinCaps(ReplayPromotions(cfg, c, w, i, txs), i)
    decreases |txs|
  {
    hide WithinCaps, ReplayPromotion;
    if txs != [] {
      var n := |txs| - 1;
      PromotionsKeepCaps(cfg, c, w, i, txs[..n]);
      PromotionKeepsCaps(cfg, ReplayPromotions(cfg, c, w, i, txs[..n]), w, i, txs[n]);
    }
  }

  /** Whatever the blocks contain, the promotions that take effect stay within the caps. */
  lemma {:induction false} CohortWithinCaps(cfg: Config, history: History)
    requires history != []
    ensures WithinCaps(CohortAt(cfg, history), |history| - 1)
    decreases |history|
  {
    if |history| > 1 {
      var n := |history| - 1;
      CohortWithinCaps(cfg, history[..n]);
      PromotionsKeepCaps(cfg, CohortAt(cfg, history[..n]), RegistryAt(cfg, history[..n]), n, history[n]);
    }
  }

  lemma {:induction false} UpToBound(effects: seq<nat>, m: int)
    requires forall a :: InWindow(effects, a) <= MAX_NEW_VALIDATORS_PER_WINDOW
    requires forall j | 0 <= j < |effects| :: 1 <= effects[j]
    ensures m >= 0 ==>
        UpTo(effects, m) <= MAX_NEW_VALIDATORS_PER_WINDOW * ((m + PROMOTION_WINDOW - 1) / PROMOTION_WINDOW)
    decreases Max(0, m)
  {
    if m <= 0 {
      NoneBelowOne(effects, m);
    } else {
      OneMoreWindow(effects, m);
      if m < PROMOTION_WINDOW {
        NoneBelowOne(effects, m - PROMOTION_WINDOW);
      } else {
        UpToBound(effects, m - PROMOTION_WINDOW);
      }
    }
  }

  /** At most 2 * ceil((h - 1) / 5) keys are promoted before height h. */
  lemma PromotedBound(cfg: Config, history: History)
    requires history != []
    ensures |CohortAt(cfg, history).promoted| <= 2 * ((|history| - 1 + 4) / 5)
  {
    var c := CohortAt(cfg, history);
    CohortWithinCaps(cfg, history);
    UpToBound(c.effects, |history| - 1);
    AllUpTo(c.effects, |history| - 1);
  }

  // ---- on a valid chain every promotion present is one that took effect -----------------------

  function PromotionsIn(txs: seq<Transaction>): nat {
    if txs == [] then 0
    else PromotionsIn(txs[..|txs| - 1]) + if txs[|txs| - 1].Payload().Promotion? then 1 else 0
  }

  /** Promotion transactions in blocks from .. upto - 1. */
  function PromotionsBetween(blocks: seq<Block>, from: nat, upto: nat): nat
    requires upto <= |blocks|
  {
    if upto <= from then 0 else PromotionsBetween(blocks, from, upto - 1) + PromotionsIn(blocks[upto - 1].transactions)
  }

  /** b holds a's promotions and then `more` further ones, all in the blocks from .. from + 4. */
  ghost predicate Adds(a: seq<nat>, b: seq<nat>, more: nat, from: nat) {
    && |b| == |a| + more && b[..|a|] == a
    && forall j | |a| <= j < |b| :: from <= b[j] < from + PROMOTION_WINDOW
  }

  lemma {:induction false} BlockAdds(cfg: Config, c: Context, s: Scan, txs: seq<Transaction>, from: nat)
    requires TxsOk(cfg, c, s, txs) && from <= c.height < from + PROMOTION_WINDOW
    ensures Adds(s.cohort.effects, ScanAfter(c, s, txs).cohort.effects, PromotionsIn(txs), from)
    decreases |txs|
  {
    hide TxOk;
    if txs != [] {
      BlockAdds(cfg, c, s, txs[..|txs| - 1], from);
    }
  }

  lemma AddsCompose(a: seq<nat>, b: seq<nat>, c: seq<nat>, more: nat, yetMore: nat, from: nat)
    requires Adds(a, b, more, from) && Adds(b, c, yetMore, from)
    ensures Adds(a, c, more + yetMore, from)
  {
  }

  lemma OneBlockAdds(cfg: Config, blocks: seq<Block>, from: nat, i: nat)
    requires ValidChain(cfg, blocks)
    requires 1 <= from <= i < |blocks| && i < from + PROMOTION_WINDOW
    ensures Adds(CohortAt(cfg, Bodies(blocks[..i])).effects, CohortAt(cfg, Bodies(blocks[..i + 1])).effects,
                 PromotionsIn(blocks[i].transactions), from)
  {
    hide TxsOk, SealOk, ReplayPromotions, RegistryAt, Adds;
    assert BlockOkAt(cfg, blocks, i);
    var c, s := ContextOf(cfg, Bodies(blocks[..i])), ScanAt(cfg, Bodies(blocks[..i]));
    BlockAdds(cfg, c, s, blocks[i].transactions, from);
    CarriedIsRecomputed(cfg, blocks, i, c, s);
  }

  lemma {:induction false} ChainAdds(cfg: Config, blocks: seq<Block>, from: nat, upto: nat)
    requires ValidChain(cfg, blocks)
    requires 1 <= from <= upto <= |blocks| && upto <= from + PROMOTION_WINDOW
    ensures Adds(CohortAt(cfg, Bodies(blocks[..from])).effects, CohortAt(cfg, Bodies(blocks[..upto])).effects,
                 PromotionsBetween(blocks, from, upto), from)
    decreases upto
  {
    hide ValidChain, CohortAt;
    if from < upto {
      ChainAdds(cfg, blocks, from, upto - 1);
      OneBlockAdds(cfg, blocks, from, upto - 1);
      AddsCompose(CohortAt(cfg, Bodies(blocks[..from])).effects, CohortAt(cfg, Bodies(blocks[..upto - 1])).effects,
                  CohortAt(cfg, Bodies(blocks[..upto])).effects,
                  PromotionsBetween(blocks, from, upto - 1), PromotionsIn(blocks[upto - 1].transactions), from);
    }
  }

  lemma {:induction false} AddsFillWindow(a: seq<nat>, b: seq<nat>, more: nat, from: nat)
    requires Adds(a, b, more, from)
    ensures InWindow(b, from) >= more
    decreases more
  {
    if more > 0 {
      var n := |b| - 1;
      assert b[..n][..|a|] == a;
      AddsFillWindow(a, b[..n], more - 1, from);
    }
  }

  /** Any five consecutive blocks of a valid chain contain at most two promotions. */
  lemma AtMostTwoPerWindow(cfg: Config, blocks: seq<Block>, from: nat, upto: nat)
    requires ValidChain(cfg, blocks)
    requires 1 <= from <= upto <= |blocks| && upto <= from + PROMOTION_WINDOW
    ensures PromotionsBetween(blocks, from, upto) <= 2
  {
    var c := CohortAt(cfg, Bodies(blocks[..upto]));
    ChainAdds(cfg, blocks, from, upto);
    AddsFillWindow(CohortAt(cfg, Bodies(blocks[..from])).effects, c.effects, PromotionsBetween(blocks, from, upto),
                   from);
    CohortWithinCaps(cfg, Bodies(blocks[..upto]));
  }

  /**
   * Every promotion on a valid chain takes effect, admits somebody new, and leaves the window's fresh cohort at
   * no more than two keys and no more than a third of the set then in force.
   */
  lemma FreshCohortIsMinority(cfg: Config, blocks: seq<Block>, i: nat, j: nat)
    requires CollisionFree(cfg) && ValidChain(cfg, blocks)
    requires i < |blocks| && j < |blocks[i].transactions| && blocks[i].transactions[j].Payload().Promotion?
    ensures
      var prefix, txs := Bodies(blocks[..i]), blocks[i].transactions;
      var w, start := RegistryAt(cfg, prefix), CohortAt(cfg, prefix);
      var before := ReplayPromotions(cfg, start, w, i, txs[..j]);
      var after := ReplayPromotions(cfg, start, w, i, txs[..j + 1]);
      var candidate, inForce := txs[j].Payload().candidate, AuthoritiesAt(cfg, prefix) + after.promoted;
      && after == Promote(before, candidate, i)
      && candidate !in AuthoritiesAt(cfg, prefix) + before.promoted
      && Fresh(after.effects, i) <= MAX_NEW_VALIDATORS_PER_WINDOW
      && 3 * Fresh(after.effects, i) <= |inForce|
  {
    hide ValidChain, RegistryAt, CohortAt;
    var prefix, txs := Bodies(blocks[..i]), blocks[i].transactions;
    var c, s := ContextOf(cfg, prefix), ScanAt(cfg, prefix);
    AcceptedTx(cfg, blocks, i, j);
    AcceptedBlock(cfg, blocks, i);
    PrefixTxsOk(cfg, c, s, txs, j);
    AcceptedPromotionsReplay(cfg, c, s, txs[..j]);
    NextPromotion(cfg, s.cohort, c.weights, i, txs, j);
    hide *;
    PromotionStep(cfg, c, ScanAfter(c, s, txs[..j]), txs[j]);
  }

  lemma NextPromotion(cfg: Config, c: Cohort, w: Weights, i: nat, txs: seq<Transaction>, j: nat)
    requires j < |txs|
    ensures ReplayPromotions(cfg, c, w, i, txs[..j + 1])
         == ReplayPromotion(cfg, ReplayPromotions(cfg, c, w, i, txs[..j]), w, i, txs[j])
  {
    hide ReplayPromotion;
    assert txs[..j + 1][..j] == txs[..j];
  }

  lemma PromotionStep(cfg: Config, c: Context, s: Scan, tx: Transaction)
    requires TxOk(cfg, c, s, tx) && tx.Payload().Promotion?
    ensures
      var after, candidate := Promote(s.cohort, tx.Payload().candidate, c.height), tx.Payload().candidate;
      && ReplayPromotion(cfg, s.cohort, c.weights, c.height, tx) == after
      && candidate !in ConsensusAuthorities(c.weights) + s.cohort.promoted
      && Fresh(after.effects, c.height) <= MAX_NEW_VALIDATORS_PER_WINDOW
      && 3 * Fresh(after.effects, c.height) <= |ConsensusAuthorities(c.weights) + after.promoted|
  {
    var after := Promote(s.cohort, tx.Payload().candidate, c.height);
    assert after.effects[..|s.cohort.effects|] == s.cohort.effects;
    var validators := ConsensusAuthorities(c.weights) + s.cohort.promoted;
    assert ConsensusAuthorities(c.weights) + after.promoted == validators + {tx.Payload().candidate};
  }
}
