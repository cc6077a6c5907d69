/**
 The wallet table as a map from address to balance. `WalletDB` is not part of
 this model; its `incrementBalance(address, delta)` is read as an update of
 the row with that address, which changes nothing when no such row exists.
 */
module Ledger {

  type Address = string
  type Wallets = map<Address, int>

  /** `incrementBalance(a, delta)`: the wallet `a`, if there is one, gains `delta`;
      no wallet is created and no other balance moves. */
  function Increment(w: Wallets, a: Address, delta: int): (r: Wallets)
    ensures r.Keys == w.Keys
    ensures forall k :: k in w ==> r[k] == w[k] + (if k == a then delta else 0)
  {
    if a in w then w[a := w[a] + delta] else w
  }

  /** The sum of all balances. */
  ghost function Total(w: Wallets): int
    decreases |w|
  {
    if w == map[] then 0
    else
      var k :| k in w;
      w[k] + Total(w - {k})
  }

  /** The total may be split at any wallet, not only the one `Total` picks. */
  lemma {:induction false} TotalRemove(w: Wallets, k: Address)
    requires k in w
    ensures Total(w) == w[k] + Total(w - {k})
    decreases |w|
  {
    var k' :| k' in w && Total(w) == w[k'] + Total(w - {k'});
    if k' != k {
      assert |w - {k'}| < |w|;
      TotalRemove(w - {k'}, k);
      TotalRemove(w - {k}, k');
      assert (w - {k'}) - {k} == (w - {k}) - {k'};
    }
  }

  /** An increment moves the total by exactly `delta` when it hits a wallet, and not at all otherwise. */
  lemma IncrementTotal(w: Wallets, a: Address, delta: int)
    ensures a in w ==> Total(Increment(w, a, delta)) == Total(w) + delta
    ensures a !in w ==> Total(Increment(w, a, delta)) == Total(w)
  {
    if a in w {
      var r := Increment(w, a, delta);
      TotalRemove(w, a);
      TotalRemove(r, a);
      assert r - {a} == w - {a};
    }
  }
}
