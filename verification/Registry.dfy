/** reputation/registry.py: the per-domain weight table. */
module Registry {
  import opened Types

  type Weights = map<Key, map<string, int>>

  function DomainsOf(w: Weights, k: Key): map<string, int> {
    if k in w then w[k] else map[]
  }

  function Weight(w: Weights, k: Key, d: string): int {
    var ds := DomainsOf(w, k);
    if d in ds then ds[d] else 0
  }

  function SetWeight(w: Weights, k: Key, d: string, x: int): Weights {
    w[k := DomainsOf(w, k)[d := x]]
  }

  function Credited(w: Weights, k: Key, d: string, amount: int): Weights {
    SetWeight(w, k, d, Weight(w, k, d) + amount)
  }

  function Max(a: int, b: int): int {
    if a >= b then a else b
  }

  function Min(a: int, b: int): int {
    if a <= b then a else b
  }

  function Debited(w: Weights, k: Key, d: string, amount: int): Weights {
    SetWeight(w, k, d, Max(0, Weight(w, k, d) - amount))
  }

  /** The keys whose weight in one specific domain reaches the threshold. */
  function AuthoritiesInDomain(w: Weights, d: string, threshold: int): (r: set<Key>)
    ensures threshold > 0 ==> forall k :: k in r <==> Weight(w, k, d) >= threshold
  {
    set k | k in w && Weight(w, k, d) >= threshold
  }

  /** The consensus authorities implied by a weight table. */
  function ConsensusAuthorities(w: Weights): set<Key> {
    AuthoritiesInDomain(w, CONSENSUS_DOMAIN, AUTHORITY_THRESHOLD)
  }

  class ReputationRegistry {
    var weights: Weights

    constructor (genesis: Weights)
      ensures weights == genesis
    {
      weights := genesis;
    }

    function WeightOf(k: Key, d: string): int
      reads this
    {
      Weight(weights, k, d)
    }

    method Credit(k: Key, d: string, amount: int)
      modifies this
      ensures weights == Credited(old(weights), k, d, amount)
      ensures WeightOf(k, d) == old(WeightOf(k, d)) + amount
      ensures forall k': Key, d': string | (k', d') != (k, d) :: WeightOf(k', d') == old(Weight(weights, k', d'))
    {
      if k !in weights {
        weights := weights[k := map[]];
      }
      var current := if d in weights[k] then weights[k][d] else 0;
      weights := weights[k := weights[k][d := current + amount]];
    }

    /** Subtracts, but never below zero. */
    method Debit(k: Key, d: string, amount: int)
      modifies this
      ensures weights == Debited(old(weights), k, d, amount)
      ensures WeightOf(k, d) == Max(0, old(WeightOf(k, d)) - amount)
      ensures forall k': Key, d': string | (k', d') != (k, d) :: WeightOf(k', d') == old(Weight(weights, k', d'))
    {
      if k !in weights {
        weights := weights[k := map[]];
      }
      var current := if d in weights[k] then weights[k][d] else 0;
      weights := weights[k := weights[k][d := Max(0, current - amount)]];
    }
  }
}
