/** attestation/aggregator.py: issuing a certificate, and re-deriving one that a block carries. */
module Aggregator {
  import Merkle
  import opened Types
  import opened Sets
  import opened Registry
  import opened CappedSupport
  import opened Tally

  const CERTIFICATE_THRESHOLD := 250

  // ---- when a scope has earned its certificate ---------------------------------------

  function WeightsIn(w: Weights, attesters: set<Key>, domain: string): WeightMap {
    map a | a in attesters :: Weight(w, a, domain)
  }

  ghost function Support(history: History, w: Weights, s: Scope): int {
    var attesters := Attesters(AllTxs(history), s);
    CappedOn(history, attesters, WeightsIn(w, attesters, s.domain))
  }

  /** Some attester of that very item carries weight in the domain. */
  ghost predicate ItemCovered(history: History, w: Weights, s: Scope, item: int) {
    exists a :: a in ItemAttesters(AllTxs(history), s, item) && Weight(w, a, s.domain) > 0
  }

  ghost predicate AllCovered(history: History, w: Weights, s: Scope, required: set<int>) {
    forall item | item in required :: ItemCovered(history, w, s, item)
  }

  ghost predicate Earned(history: History, w: Weights, s: Scope, required: set<int>, threshold: int) {
    && Support(history, w, s) >= threshold
    && AllCovered(history, w, s, required)
  }

  /** The attesters whose reputation carried the scope. */
  ghost function CreditedAttesters(history: History, w: Weights, s: Scope): set<Key> {
    set a | a in Attesters(AllTxs(history), s) && Weight(w, a, s.domain) > 0
  }

  function SetOf<T>(xs: seq<T>): set<T> {
    set x | x in xs
  }

  /** `validate_certificate`: earned at the protocol threshold, and crediting each deserving attester exactly once. */
  ghost predicate ValidCertificate(p: Payload, history: History, w: Weights) {
    && p.Certificate?
    && Earned(history, w, p.certified, SetOf(p.requiredItems), CERTIFICATE_THRESHOLD)
    && multiset(p.grantedBy) == multiset(CreditedAttesters(history, w, p.certified))
  }

  // ---- the procedures ----------------------------------------------------------------

  lemma ItemAttestersAttest(txs: set<Transaction>, s: Scope, item: int)
    ensures ItemAttesters(txs, s, item) <= Attesters(txs, s)
  {
  }

  method RequiredItemsCovered(history: History, w: Weights, s: Scope, required: seq<int>, weights: WeightMap)
    returns (ok: bool)
    requires weights == WeightsIn(w, Attesters(AllTxs(history), s), s.domain)
    ensures ok <==> AllCovered(history, w, s, SetOf(required))
  {
    if required == [] {
      return true;
    }
    var byItem := PositiveAttestersByItem(history, s);
    for i := 0 to |required|
      invariant AllCovered(history, w, s, SetOf(required[..i]))
    {
      var coverers := At(byItem, required[i]);
      ItemAttestersAttest(AllTxs(history), s, required[i]);
      if !(exists a | a in coverers :: a in weights && weights[a] > 0) {
        assert !ItemCovered(history, w, s, required[i]);
        return false;
      }
      assert ItemCovered(history, w, s, required[i]);
      assert required[..i + 1] == required[..i] + [required[i]];
    }
    assert required[..|required|] == required;
    return true;
  }

  lemma SortedItems(items: seq<int>)
    ensures SetOf(Sorted(SetOf(items))) == SetOf(items)
  {
  }

  lemma WhoIsCredited(history: History, w: Weights, s: Scope)
    ensures
      var attesters := Attesters(AllTxs(history), s);
      var weights := WeightsIn(w, attesters, s.domain);
      CreditedAttesters(history, w, s) == set a | a in attesters && weights[a] > 0
  {
  }

  /** `certify`: a certificate exactly when the scope has earned it at `threshold`. */
  method Certify(history: History, w: Weights, s: Scope, threshold: int, requiredItems: seq<int>)
    returns (r: Option<Payload>)
    ensures r.Some? <==> Earned(history, w, s, SetOf(requiredItems), threshold)
    ensures r.Some? ==> r.value == Certificate(s, SortedNats(CreditedAttesters(history, w, s)),
                                               Sorted(SetOf(requiredItems)))
  {
    hide CappedOn, Attesters, AllCovered, CreditedAttesters;
    var attesters := PositiveAttesters(history, s);
    var weights := WeightsIn(w, attesters, s.domain);
    var support := CappedSupportOf(history, attesters, weights);
    if support < threshold {
      return None;
    }
    var required := Sorted(SetOf(requiredItems));
    SortedItems(requiredItems);
    var covered := RequiredItemsCovered(history, w, s, required, weights);
    if !covered {
      return None;
    }
    var credited := set a | a in attesters && weights[a] > 0;
    assert credited == CreditedAttesters(history, w, s) by { WhoIsCredited(history, w, s); }
    return Some(Certificate(s, SortedNats(credited), required));
  }

  /** `validate_certificate`. */
  method ValidateCertificate(p: Payload, history: History, w: Weights) returns (ok: bool)
    requires p.Certificate?
    ensures ok <==> ValidCertificate(p, history, w)
  {
    hide CappedOn, Attesters, AllCovered, CreditedAttesters;
    var s := p.certified;
    var attesters := PositiveAttesters(history, s);
    var weights := WeightsIn(w, attesters, s.domain);
    var support := CappedSupportOf(history, attesters, weights);
    if support < CERTIFICATE_THRESHOLD {
      return false;
    }
    var required := Sorted(SetOf(p.requiredItems));
    SortedItems(p.requiredItems);
    var covered := RequiredItemsCovered(history, w, s, required, weights);
    if !covered {
      return false;
    }
    var credited := set a | a in attesters && weights[a] > 0;
    assert credited == CreditedAttesters(history, w, s) by { WhoIsCredited(history, w, s); }
    SortsToSet(p.grantedBy, credited);
    return Sort(p.grantedBy) == Sorted(credited);
  }

  // ---- issuance and consensus agree ----------------------------------------------------

  /** A scope can be issued at the protocol threshold iff consensus accepts some certificate for it with those items. */
  lemma IssuedIffAccepted(history: History, w: Weights, s: Scope, items: seq<int>)
    ensures Earned(history, w, s, SetOf(items), CERTIFICATE_THRESHOLD)
       <==> exists granted :: ValidCertificate(Certificate(s, granted, items), history, w)
    ensures Earned(history, w, s, SetOf(items), CERTIFICATE_THRESHOLD)
        ==> ValidCertificate(Certificate(s, SortedNats(CreditedAttesters(history, w, s)), Sorted(SetOf(items))),
                             history, w)
  {
    var granted := SortedNats(CreditedAttesters(history, w, s));
    SortedMultiset(CreditedAttesters(history, w, s));
    SortedItems(items);
    if Earned(history, w, s, SetOf(items), CERTIFICATE_THRESHOLD) {
      assert ValidCertificate(Certificate(s, granted, items), history, w);
    }
  }

  /** Accepted certificates of one scope credit the same attesters, each once. */
  lemma AcceptedCreditExactly(p: Payload, history: History, w: Weights)
    requires ValidCertificate(p, history, w)
    ensures forall a :: a in p.grantedBy <==> a in CreditedAttesters(history, w, p.certified)
    ensures |p.grantedBy| == |CreditedAttesters(history, w, p.certified)|
    ensures Merkle.Distinct(p.grantedBy)
  {
    var xs, s := p.grantedBy, CreditedAttesters(history, w, p.certified);
    assert forall a :: a in xs <==> a in multiset(xs);
    assert |multiset(xs)| == |xs| && |multiset(s)| == |s|;
    assert forall a :: multiset(s)[a] <= 1;
    forall i, j | 0 <= i < j < |xs| ensures xs[i] != xs[j] {
      if xs[i] == xs[j] {
        TwiceCountsTwo(xs, i, j);
      }
    }
  }

  lemma TwiceCountsTwo(xs: seq<Key>, i: nat, j: nat)
    requires i < j < |xs| && xs[i] == xs[j]
    ensures multiset(xs)[xs[i]] >= 2
  {
    assert xs == xs[..i] + [xs[i]] + xs[i + 1..j] + [xs[j]] + xs[j + 1..];
  }
}
