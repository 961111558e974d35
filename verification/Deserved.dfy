/**
 * attestation/aggregator.py and reputation/tally.py: when a certificate is deserved, read off the attestations on
 * the chain.
 */
module Deserved {
  import Merkle
  import opened Types
  import opened Plain
  import opened Graph
  import opened Registry
  import opened CappedSupport
  import opened Tally
  import opened Aggregator

  // ---- who backs what --------------------------------------------------------------------------------

  /** Somewhere on the history k judged the item of the scope positively. */
  ghost predicate BacksItem(history: History, k: Key, s: Scope, item: int) {
    exists i, j, tx, stake :: Placed(history, i, j, tx) && Finds(tx, k, s, item, Yes, stake)
  }

  ghost predicate BacksSome(history: History, k: Key, s: Scope) {
    exists item :: BacksItem(history, k, s, item)
  }

  /** Somewhere a judged work of b positively, whatever the work. */
  ghost predicate Vouched(history: History, a: Key, b: Key) {
    exists s: Scope, item :: s.subject == b && BacksItem(history, a, s, item)
  }

  lemma PositiveIsYes(tx: Transaction, s: Scope)
    ensures Backs(tx, s) <==> exists k, item, stake :: Finds(tx, k, s, item, Yes, stake)
    ensures Backs(tx, s) ==> Finds(tx, tx.content.sender, s, tx.content.payload.item, Yes, tx.content.payload.stake)
    ensures forall k, item, stake | Finds(tx, k, s, item, Yes, stake) ::
              Backs(tx, s) && k == tx.content.sender && item == tx.content.payload.item
  {
    if Backs(tx, s) {
      assert Finds(tx, tx.content.sender, s, tx.content.payload.item, Yes, tx.content.payload.stake);
    }
  }

  lemma OnChain(history: History, tx: Transaction)
    ensures tx in AllTxs(history) <==> exists i, j :: Placed(history, i, j, tx)
  {
    if tx in AllTxs(history) {
      var i :| 0 <= i < |history| && tx in history[i];
      var j :| 0 <= j < |history[i]| && history[i][j] == tx;
      assert Placed(history, i, j, tx);
    }
    if i, j :| Placed(history, i, j, tx) {
      assert tx in history[i];
    }
  }

  lemma ItemBackers(history: History, k: Key, s: Scope, item: int)
    ensures k in ItemAttesters(AllTxs(history), s, item) <==> BacksItem(history, k, s, item)
  {
    hide AllTxs, Placed;
    if k in ItemAttesters(AllTxs(history), s, item) {
      var tx :| tx in AllTxs(history) && Backs(tx, s) && tx.content.payload.item == item && tx.content.sender == k;
      OnChain(history, tx);
      PositiveIsYes(tx, s);
    }
    if BacksItem(history, k, s, item) {
      var i, j, tx, stake :| Placed(history, i, j, tx) && Finds(tx, k, s, item, Yes, stake);
      OnChain(history, tx);
      PositiveIsYes(tx, s);
    }
  }

  lemma Backers(history: History, k: Key, s: Scope)
    ensures k in Attesters(AllTxs(history), s) <==> BacksSome(history, k, s)
  {
    hide AllTxs, Backs, BacksItem;
    if k in Attesters(AllTxs(history), s) {
      var tx :| tx in AllTxs(history) && Backs(tx, s) && tx.content.sender == k;
      PositiveIsYes(tx, s);
      ItemBackers(history, k, s, tx.content.payload.item);
    }
    if item :| BacksItem(history, k, s, item) {
      ItemBackers(history, k, s, item);
    }
  }

  lemma Vouchers(history: History, a: Key, b: Key)
    ensures (a, b) in Vouches(AllTxs(history)) <==> Vouched(history, a, b)
  {
    hide AllTxs, BacksItem;
    if (a, b) in Vouches(AllTxs(history)) {
      var tx :| tx in AllTxs(history) && IsPositive(tx) && tx.content.sender == a
                && tx.content.payload.scope.subject == b;
      var s := tx.content.payload.scope;
      assert tx in AllTxs(history) && Backs(tx, s);
      ItemBackers(history, a, s, tx.content.payload.item);
    }
    if s: Scope, item :| s.subject == b && BacksItem(history, a, s, item) {
      ItemBackers(history, a, s, item);
      var tx :| tx in AllTxs(history) && Backs(tx, s) && tx.content.payload.item == item && tx.content.sender == a;
    }
  }

  // ---- the terms -----------------------------------------------------------------------------------------

  predicate PositiveAt(history: History, i: int, j: int, s: Scope) {
    && 0 <= i < |history| && 0 <= j < |history[i]|
    && var p := history[i][j].content.payload;
    && p.Attestation? && p.verdict == Yes && p.scope == s && s.domain != "" && p.stake >= 0
  }

  ghost function BackersOf(history: History, s: Scope): set<Key> {
    set i, j | 0 <= i < |history| && 0 <= j < |history[i]| && PositiveAt(history, i, j,
                                                                         s) :: history[i][j].content.sender
  }

  function WeightsFor(w: Weights, keys: set<Key>, d: string): WeightMap {
    map k | k in keys :: Weight(w, k, d)
  }

  /** Two backers that vouched for each other, the lesser first. */
  ghost function Ties(history: History, keys: set<Key>): set<Edge> {
    set a, b | a in keys && b in keys && a < b && Vouched(history, a, b) && Vouched(history, b, a) :: (a, b)
  }

  /**
   * The backers of the scope weigh 250 or more in its domain, as far as cartels among them count; each required
   * item has a backer of positive weight; and exactly the backers of positive weight are named, each once.
   */
  ghost predicate Due(history: History, w: Weights, p: Payload) {
    && p.Certificate?
    && var s := p.certified;
    && var keys := BackersOf(history, s);
    && Capped(Ties(history, keys), keys, WeightsFor(w, keys, s.domain)) >= 250
    && (forall item | item in p.requiredItems ::
          exists k :: BacksItem(history, k, s, item) && Weight(w, k, s.domain) > 0)
    && Merkle.Distinct(p.grantedBy)
    && forall k :: k in p.grantedBy <==> BacksSome(history, k, s) && Weight(w, k, s.domain) > 0
  }

  lemma BackersAre(history: History, s: Scope)
    ensures BackersOf(history, s) == Attesters(AllTxs(history), s)
  {
    hide AllTxs;
    forall k ensures k in BackersOf(history, s) <==> k in Attesters(AllTxs(history), s) {
      if k in BackersOf(history, s) {
        var i, j :| 0 <= i < |history| && 0 <= j < |history[i]| && PositiveAt(history, i, j, s)
                    && history[i][j].content.sender == k;
        assert Placed(history, i, j, history[i][j]);
        OnChain(history, history[i][j]);
      }
      if k in Attesters(AllTxs(history), s) {
        var tx :| tx in AllTxs(history) && Backs(tx, s) && tx.content.sender == k;
        OnChain(history, tx);
        var i, j :| Placed(history, i, j, tx);
        assert PositiveAt(history, i, j, s);
      }
    }
  }

  lemma TiesAre(history: History, keys: set<Key>)
    ensures Ties(history, keys) == MutualTies(Vouches(AllTxs(history)), keys)
  {
    hide Vouches, Vouched, AllTxs;
    forall a: Key, b: Key ensures (a, b) in Vouches(AllTxs(history)) <==> Vouched(history, a, b) {
      Vouchers(history, a, b);
    }
  }

  lemma OnceEach(xs: seq<Key>, keys: set<Key>)
    ensures multiset(xs) == multiset(keys) <==> Merkle.Distinct(xs) && forall k :: k in xs <==> k in keys
  {
    if multiset(xs) == multiset(keys) {
      assert forall k :: multiset(keys)[k] <= 1;
      forall k ensures k in xs <==> k in keys {
        assert k in xs <==> k in multiset(xs);
        assert k in keys <==> k in multiset(keys);
      }
      forall i, j | 0 <= i < j < |xs| ensures xs[i] != xs[j] {
        if xs[i] == xs[j] {
          TwiceCountsTwo(xs, i, j);
        }
      }
    }
    if Merkle.Distinct(xs) && forall k :: k in xs <==> k in keys {
      forall k ensures multiset(xs)[k] == multiset(keys)[k] {
        DistinctCounts(xs, k);
      }
    }
  }

  lemma {:induction false} DistinctCounts(xs: seq<Key>, k: Key)
    requires Merkle.Distinct(xs)
    ensures multiset(xs)[k] == if k in xs then 1 else 0
    decreases |xs|
  {
    if xs != [] {
      var n := |xs| - 1;
      DistinctCounts(xs[..n], k);
      assert xs == xs[..n] + [xs[n]];
    }
  }

  lemma SupportIs(history: History, w: Weights, s: Scope)
    ensures
      var keys := BackersOf(history, s);
      Support(history, w, s) == Capped(Ties(history, keys), keys, WeightsFor(w, keys, s.domain))
  {
    BackersAre(history, s);
    TiesAre(history, BackersOf(history, s));
    assert WeightsFor(w, BackersOf(history, s), s.domain) == WeightsIn(w, Attesters(AllTxs(history), s), s.domain);
    hide Capped, WeightsFor, BackersOf, Ties, Attesters, AllTxs, MutualTies, Vouches;
  }

  lemma CoveredIs(history: History, w: Weights, s: Scope, item: int)
    ensures ItemCovered(history, w, s, item)
       <==> exists k :: BacksItem(history, k, s, item) && Weight(w, k, s.domain) > 0
  {
    forall k ensures k in ItemAttesters(AllTxs(history), s, item) <==> BacksItem(history, k, s, item) {
      ItemBackers(history, k, s, item);
    }
    hide ItemAttesters, AllTxs, BacksItem, Weight;
  }

  lemma CreditedAre(history: History, w: Weights, s: Scope, k: Key)
    ensures k in CreditedAttesters(history, w, s) <==> BacksSome(history, k, s) && Weight(w, k, s.domain) > 0
  {
    Backers(history, k, s);
    hide Attesters, AllTxs, BacksSome, Weight;
  }

  /** Exactly the certificates that are due are valid. */
  lemma DueExactly(p: Payload, history: History, w: Weights)
    ensures ValidCertificate(p, history, w) <==> Due(history, w, p)
  {
    hide Support, Capped, WeightsFor, BackersOf, Ties, CreditedAttesters, ItemCovered, BacksItem, BacksSome, Weight;
    if p.Certificate? {
      var s := p.certified;
      SupportIs(history, w, s);
      forall item ensures ItemCovered(history, w, s, item)
                     <==> exists k :: BacksItem(history, k, s, item) && Weight(w, k, s.domain) > 0 {
        CoveredIs(history, w, s, item);
      }
      OnceEach(p.grantedBy, CreditedAttesters(history, w, s));
      forall k ensures k in CreditedAttesters(history, w, s)
          <==> BacksSome(history, k, s) && Weight(w, k, s.domain) > 0 {
        CreditedAre(history, w, s, k);
      }
      forall item ensures item in p.requiredItems <==> item in SetOf(p.requiredItems) {}
      assert AllCovered(history, w, s, SetOf(p.requiredItems))
        <==> forall item | item in p.requiredItems :: ItemCovered(history, w, s, item);
      assert (multiset(p.grantedBy) == multiset(CreditedAttesters(history, w, s)))
        <==> Merkle.Distinct(p.grantedBy)
             && forall k :: k in p.grantedBy <==> BacksSome(history, k, s) && Weight(w, k, s.domain) > 0;
      assert Support(history, w, s) >= CERTIFICATE_THRESHOLD <==> Support(history, w, s) >= 250;
    }
  }
}
