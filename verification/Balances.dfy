/** reputation/balances.py: total tokens and the part of them posted as bonds. */
module Balances {
  import opened Types
  import opened Registry

  const DEFAULT_ENDOWMENT := 1000

  datatype Ledger = Ledger(totals: map<Key, int>, locks: map<Key, int>)
  {
    function Total(k: Key): int {
      if k in totals then totals[k] else DEFAULT_ENDOWMENT
    }

    function Locked(k: Key): int {
      if k in locks then locks[k] else 0
    }

    function Free(k: Key): int {
      Total(k) - Locked(k)
    }

    function Reward(k: Key, amount: int): Ledger {
      this.(totals := totals[k := Total(k) + amount])
    }

    function Lock(k: Key, amount: int): Ledger {
      this.(locks := locks[k := Locked(k) + amount])
    }

    function Release(k: Key, amount: int): Ledger {
      this.(locks := locks[k := Max(0, Locked(k) - amount)])
    }

    function Burn(k: Key, amount: int): Ledger {
      Ledger(totals[k := Max(0, Total(k) - amount)], locks[k := Max(0, Locked(k) - amount)])
    }
  }

  class BalanceLedger {
    var totals: map<Key, int>
    var locks: map<Key, int>

    ghost function View(): Ledger
      reads this
    {
      Ledger(totals, locks)
    }

    constructor (endowments: map<Key, int>)
      ensures View() == Ledger(endowments, map[])
    {
      totals, locks := endowments, map[];
    }

    function Total(k: Key): (r: int)
      reads this
      ensures r == View().Total(k)
    {
      if k in totals then totals[k] else DEFAULT_ENDOWMENT
    }

    function Locked(k: Key): (r: int)
      reads this
      ensures r == View().Locked(k)
    {
      if k in locks then locks[k] else 0
    }

    function Free(k: Key): (r: int)
      reads this
      ensures r == View().Free(k)
    {
      Total(k) - Locked(k)
    }

    method Reward(k: Key, amount: int)
      modifies this
      ensures View() == old(View()).Reward(k, amount)
      ensures Free(k) == old(Free(k)) + amount && Locked(k) == old(Locked(k))
    {
      totals := totals[k := Total(k) + amount];
    }

    method Lock(k: Key, amount: int)
      modifies this
      ensures View() == old(View()).Lock(k, amount)
      ensures Free(k) == old(Free(k)) - amount && Total(k) == old(Total(k))
    {
      locks := locks[k := Locked(k) + amount];
    }

    method Release(k: Key, amount: int)
      modifies this
      ensures View() == old(View()).Release(k, amount)
      ensures Total(k) == old(Total(k)) && Locked(k) >= 0
      ensures amount <= old(Locked(k)) ==> Free(k) == old(Free(k)) + amount
    {
      locks := locks[k := Max(0, Locked(k) - amount)];
    }

    /** Destroys a bond: what is free does not change, unless a clamp bites. */
    method Burn(k: Key, amount: int)
      modifies this
      ensures View() == old(View()).Burn(k, amount)
      ensures amount <= old(Locked(k)) && amount <= old(Total(k)) ==> Free(k) == old(Free(k))
    {
      totals, locks := totals[k := Max(0, Total(k) - amount)], locks[k := Max(0, Locked(k) - amount)];
    }
  }
}
