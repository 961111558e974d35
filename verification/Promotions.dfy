/**
 * blockchain/blockchain.py: what a promotion takes. Read off the chain alone: the candidate's weight, the
 * signatures of the validators then in force, and how many promotions came shortly before.
 */
module Promotions {
  import opened Types
  import opened Plain
  import opened Registry
  import opened Slashing
  import opened Derive
  import opened Consensus
  import opened Finality

  // ---- the terms -----------------------------------------------------------------------------------

  predicate Earlier(i: int, j: int, i': int, j': int) {
    i < i' || (i == i' && j < j')
  }

  predicate PromotesAt(history: History, i: int, j: int) {
    0 <= i < |history| && 0 <= j < |history[i]| && history[i][j].content.payload.Promotion?
  }

  /** The places before (i, j) and after block m that hold a promotion. */
  ghost function Places(history: History, i: int, j: int, m: int): set<(int, int)> {
    set i', j' | 0 <= i' < |history| && 0 <= j' < |history[i']|
                 && PromotesAt(history, i', j') && Earlier(i', j', i, j) && i' > m :: (i', j')
  }

  /** The candidates of the promotions before (i, j). */
  ghost function Admitted(history: History, i: int, j: int): set<Key> {
    set i', j' | 0 <= i' < |history| && 0 <= j' < |history[i']|
                 && PromotesAt(history, i', j') && Earlier(i', j', i, j) :: history[i'][j'].content.payload.candidate
  }

  /** The keys of weight 50 or more in the consensus domain. */
  function Weighty(w: Weights): set<Key> {
    set k | k in w && Weight(w, k, "consensus") >= 50
  }

  /** The validators that a promotion at (i, j) has to convince. */
  ghost function InForce(cfg: Config, history: History, i: nat, j: nat): set<Key>
    requires i <= |history|
  {
    Weighty(RegistryAt(cfg, history[..i])) + Admitted(history, i, j)
  }

  /**
   * The candidate is new and weighs at least 100 in the domain it is promoted for; more than two thirds of the
   * validators in force sign; and with it the five blocks up to this one hold no more than two promotions, which
   * are no more than a third of the set then in force.
   */
  ghost predicate Terms(cfg: Config, history: History, i: nat, j: nat) {
    && PromotesAt(history, i, j)
    && var p, force := history[i][j].content.payload, InForce(cfg, history, i, j);
    && p.candidate !in force
    && Weight(RegistryAt(cfg, history[..i]), p.candidate, p.competence) >= 100
    && TwoThirdsSign(cfg, p.approvals, PromotionMessage(p.candidate, p.competence), force)
    && |Places(history, i, j, i - 5)| + 1 <= 2
    && 3 * (|Places(history, i, j, i - 5)| + 1) <= |force| + 1
  }

  // ---- what validation carries is what the places say ---------------------------------------------------

  ghost predicate Counts(history: History, i: int, j: int, c: Cohort) {
    && c.promoted == Admitted(history, i, j)
    && forall t: nat :: Fresh(c.effects, t) == |Places(history, i, j, t - 5)|
  }

  lemma CountsStart(history: History)
    requires history != [] && history[0] == []
    ensures Counts(history, 1, 0, Cohort({}, []))
  {
    assert Admitted(history, 1, 0) == {};
    assert forall m :: Places(history, 1, 0, m) == {};
  }

  lemma CountsStep(history: History, i: nat, j: nat, c: Cohort)
    requires i < |history| && j < |history[i]| && Counts(history, i, j, c)
    ensures
      var p := history[i][j].content.payload;
      Counts(history, i, j + 1, if p.Promotion? then Promote(c, p.candidate, i) else c)
  {
    var p := history[i][j].content.payload;
    if p.Promotion? {
      var after := Promote(c, p.candidate, i);
      assert after.effects[..|c.effects|] == c.effects;
      assert PromotesAt(history, i, j);
      assert Admitted(history, i, j + 1) == Admitted(history, i, j) + {p.candidate};
      forall t: nat ensures Fresh(after.effects, t) == |Places(history, i, j + 1, t - 5)| {
        OneMorePlace(history, i, j, t - 5);
      }
    } else {
      assert Admitted(history, i, j + 1) == Admitted(history, i, j);
      forall t: nat ensures Fresh(c.effects, t) == |Places(history, i, j + 1, t - 5)| {
        SamePlaces(history, i, j, t - 5);
      }
    }
  }

  lemma OneMorePlace(history: History, i: nat, j: nat, m: int)
    requires PromotesAt(history, i, j)
    ensures |Places(history, i, j + 1, m)| == |Places(history, i, j, m)| + if i > m then 1 else 0
  {
    var few, many := Places(history, i, j, m), Places(history, i, j + 1, m);
    assert (i as int, j as int) !in few;
    assert many == few + if i > m then {(i as int, j as int)} else {};
  }

  lemma SamePlaces(history: History, i: nat, j: nat, m: int)
    requires i < |history| && j < |history[i]| && !PromotesAt(history, i, j)
    ensures Places(history, i, j + 1, m) == Places(history, i, j, m)
  {
  }

  lemma {:induction false} CountsInBlock(c: Context, s: Scan, history: History, i: nat, j: nat)
    requires i < |history| && j <= |history[i]| && c.height == i && Counts(history, i, 0, s.cohort)
    ensures Counts(history, i, j, ScanAfter(c, s, history[i][..j]).cohort)
  {
    hide Counts;
    var txs := history[i];
    if j > 0 {
      CountsInBlock(c, s, history, i, j - 1);
      assert txs[..j][..j - 1] == txs[..j - 1];
      CountsStep(history, i, j - 1, ScanAfter(c, s, txs[..j - 1]).cohort);
    } else {
      assert txs[..0] == [];
    }
  }

  lemma NextHeight(history: History, i: nat, c: Cohort)
    requires i < |history| && Counts(history, i, |history[i]|, c)
    ensures Counts(history, i + 1, 0, c)
  {
    assert Admitted(history, i + 1, 0) == Admitted(history, i, |history[i]|);
    forall m ensures Places(history, i + 1, 0, m) == Places(history, i, |history[i]|, m) {}
  }

  /** On a valid chain the cohort is made up of exactly the promotions it holds. */
  lemma {:induction false} CohortCounts(cfg: Config, blocks: seq<Block>, history: History, i: nat)
    requires CollisionFree(cfg) && ValidChain(cfg, blocks) && 1 <= i <= |blocks|
    requires |history| >= i && history[..i] == Bodies(blocks[..i])
    ensures Counts(history, i, 0, CohortAt(cfg, Bodies(blocks[..i])))
    decreases i
  {
    hide CohortAt, BlockOkAt, Counts, TxsOk, ContextOf, ReplayPromotions;
    if i == 1 {
      GenesisIsEmpty(cfg, blocks[0]);
      StartsEmpty(cfg, blocks);
      assert history[0] == history[..1][0] == [];
      CountsStart(history);
    } else {
      var n := i - 1;
      assert history[..n] == history[..i][..n] && history[n] == history[..i][n] == blocks[n].transactions;
      BodiesPrefix(blocks[..i], n);
      assert blocks[..i][..n] == blocks[..n];
      CohortCounts(cfg, blocks, history, n);
      assert BlockOkAt(cfg, blocks, n);
      BlockParts(cfg, blocks, n);
      var c, s := ContextOf(cfg, Bodies(blocks[..n])), ScanAt(cfg, Bodies(blocks[..n]));
      ContextHeight(cfg, Bodies(blocks[..n]));
      CountsInBlock(c, s, history, n, |history[n]|);
      assert history[n][..|history[n]|] == blocks[n].transactions;
      CarriedIsRecomputed(cfg, blocks, n, c, s);
      NextHeight(history, n, ScanAfter(c, s, blocks[n].transactions).cohort);
    }
  }

  lemma ContextHeight(cfg: Config, prefix: History)
    ensures ContextOf(cfg, prefix).height == |prefix| && ContextOf(cfg, prefix).weights == RegistryAt(cfg, prefix)
    ensures ContextOf(cfg, prefix).prefix == prefix
  {
  }

  lemma WeightyIsAuthority(w: Weights)
    ensures Weighty(w) == ConsensusAuthorities(w)
  {
  }

  // ---- the rule, both ways ---------------------------------------------------------------------------

  /** What the promotion test asks, with the quorum read as two thirds and the constants written out. */
  lemma TestMeans(cfg: Config, p: Payload, force: set<Key>, w: Weights, recent: nat)
    requires p.Promotion?
    ensures PromotionOk(cfg, p, force, w, recent)
      <==> && p.candidate !in force && Weight(w, p.candidate, p.competence) >= 100
           && TwoThirdsSign(cfg, p.approvals, PromotionMessage(p.candidate, p.competence), force)
           && recent + 1 <= 2 && 3 * (recent + 1) <= |force| + 1
  {
    QuorumSigns(cfg, p.approvals, PromotionMessage(p.candidate, p.competence), force);
    hide Approvers, TwoThirdsSign, Weight;
  }

  /** The promotion test on carried state is the terms at its place. */
  lemma TestIsTerms(cfg: Config, c: Context, s: Scan, history: History, i: nat, j: nat)
    requires i < |history| && j < |history[i]| && Counts(history, i, j, s.cohort)
    requires c.height == i && c.weights == RegistryAt(cfg, history[..i]) && history[i][j].content.payload.Promotion?
    ensures TxOk(cfg, c, s, history[i][j]) <==> Terms(cfg, history, i, j)
  {
    var p, force := history[i][j].content.payload, InForce(cfg, history, i, j);
    WeightyIsAuthority(c.weights);
    assert BlockValidators(c, s) == force;
    assert Fresh(s.cohort.effects, i) == |Places(history, i, j, i - 5)|;
    TestMeans(cfg, p, force, c.weights, Fresh(s.cohort.effects, i));
    hide Counts, Places, InForce, RegistryAt, PromotionOk, TwoThirdsSign, ConsensusAuthorities, Weighty, Weight;
  }

  /** Every promotion on a valid chain met the terms at its place. */
  lemma PromotionsMeetTerms(cfg: Config, blocks: seq<Block>, i: nat, j: nat)
    requires CollisionFree(cfg) && ValidChain(cfg, blocks) && PromotesAt(Bodies(blocks), i, j)
    ensures i > 0 && Terms(cfg, Bodies(blocks), i, j)
  {
    hide ValidChain, CollisionFree, Counts, ContextOf, CohortAt, TxOk, TxsOk, Terms;
    var history, prefix := Bodies(blocks), Bodies(blocks[..i]);
    var c, s := ContextOf(cfg, prefix), ScanAt(cfg, prefix);
    AcceptedBlock(cfg, blocks, i);
    AcceptedTx(cfg, blocks, i, j);
    BodiesPrefix(blocks, i);
    ContextHeight(cfg, prefix);
    CohortCounts(cfg, blocks, history, i);
    CountsInBlock(c, s, history, i, j);
    TestIsTerms(cfg, c, ScanAfter(c, s, history[i][..j]), history, i, j);
  }

  /** So whoever was promoted was wanted by more than two thirds of those then in force, and weighed enough. */
  lemma PromotedWasApproved(cfg: Config, blocks: seq<Block>, k: Key)
    requires CollisionFree(cfg) && ValidChain(cfg, blocks) && k in CohortAt(cfg, Bodies(blocks)).promoted
    ensures
      exists i: nat, j: nat ::
        i > 0 && Terms(cfg, Bodies(blocks), i, j) && Bodies(blocks)[i][j].content.payload.candidate == k
  {
    hide ValidChain, CollisionFree, CohortAt, Terms;
    var history := Bodies(blocks);
    assert blocks[..|blocks|] == blocks && history[..|blocks|] == history;
    assert blocks != [] by { ValidIsSome(cfg, blocks); }
    CohortCounts(cfg, blocks, history, |blocks|);
    var i, j :| 0 <= i && 0 <= j && PromotesAt(history, i, j) && k == history[i][j].content.payload.candidate;
    PromotionsMeetTerms(cfg, blocks, i, j);
  }

  lemma ValidIsSome(cfg: Config, blocks: seq<Block>)
    requires ValidChain(cfg, blocks)
    ensures blocks != []
  {
  }

  /** And a promotion that meets the terms may follow whatever the block holds before it, as any other may not. */
  lemma TermsSuffice(cfg: Config, blocks: seq<Block>, txs: seq<Transaction>, tx: Transaction)
    requires CollisionFree(cfg) && ValidChain(cfg, blocks) && tx.content.payload.Promotion?
    ensures
      var prefix := Bodies(blocks);
      var c, s := ContextOf(cfg, prefix), ScanAt(cfg, prefix);
      TxsOk(cfg, c, s, txs + [tx])
      <==> TxsOk(cfg, c, s, txs) && Terms(cfg, prefix + [txs + [tx]], |blocks|, |txs|)
  {
    hide ValidChain, CollisionFree, Counts, CohortAt, TxOk, Terms, RegistryAt, BankAt;
    var prefix, longer := Bodies(blocks), txs + [tx];
    var history, n := prefix + [longer], |blocks|;
    var c, s := ContextOf(cfg, prefix), ScanAt(cfg, prefix);
    ValidIsSome(cfg, blocks);
    assert blocks[..n] == blocks && history[..n] == prefix && longer[..|txs|] == txs;
    CohortCounts(cfg, blocks, history, n);
    CountsInBlock(c, s, history, n, |txs|);
    TestIsTerms(cfg, c, ScanAfter(c, s, txs), history, n, |txs|);
  }
}
