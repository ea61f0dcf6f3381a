/** The tandem helpers: several values under one base key, one per order. */
module Tandem {
  import opened Bytes
  import opened Table
  import opened Store
  import opened Values
  import opened Batch
  import opened Names
  import opened Ingest

  /** How many keys a call with this many orders uses: the base key is used in any case. */
  function KeyCount(orders: nat): (n: nat)
    ensures n > 0
  {
    if orders == 0 then 1 else orders
  }

  /** The base key, then the keys of orders 1 to `n - 1`. */
  function TandemKeys(base: CString, n: nat): (keys: seq<CString>)
    requires n > 0
    ensures |keys| == n && keys[0] == base && forall i :: 1 <= i < n ==> keys[i] == OrderKey(base, i)
  {
    [base] + OrderKeys(base, n - 1)
  }

  /** `keys` lists the keys a call with this many orders uses. */
  predicate Lists(keys: seq<CString>, base: CString, orders: nat) {
    |keys| == KeyCount(orders) && keys[0] == base && forall i :: 1 <= i < |keys| ==> keys[i] == OrderKey(base, i)
  }

  /** The names of the orders fit, if there are any. */
  predicate TandemFits(base: CString, n: nat) {
    n > 1 ==> NamesFit(base, n - 1)
  }

  lemma TandemKeysGood(base: CString, n: nat)
    requires n > 0 && GoodBase(base, n - 1)
    ensures GoodKeys(TandemKeys(base, n))
    ensures TandemFits(base, n) ==> Distinct(TandemKeys(base, n))
  {
    OrderKeysGood(base, n - 1);
    if n > 1 && TandemFits(base, n) {
      OrderKeysApart(base, n - 1);
      var keys := TandemKeys(base, n);
      forall t, u | 0 <= t < u < n
        ensures keys[t] != keys[u]
      {
        assert keys[u] == OrderKeys(base, n - 1)[u - 1];
        assert t > 0 ==> keys[t] == OrderKeys(base, n - 1)[t - 1];
      }
    }
  }

  // ---- Setting ---------------------------------------------------------------------------------

  /** Every order holds its own value, and every key outside the set keeps its values. */
  ghost predicate TandemSet(v: View, w: View, base: CString, vals: seq<seq<byte>>, n: nat)
    requires Shaped(v) && Shaped(w) && 0 < n <= |vals|
  {
    HoldsAll(w, TandemKeys(base, n), vals[..n]) && Spared(v, w, TandemKeys(base, n))
  }

  /**
   `splinter_client_set_tandem`: when it succeeds and the names fit, every order reads back its own
   value; values that fit and a free slot for each of them make it succeed.
   */
  method SetTandem(st: Store, base: CString, vals: seq<seq<byte>>, orders: nat) returns (ok: bool)
    requires st.Valid() && AllIdle(st.view) && orders < 256 && KeyCount(orders) <= |vals|
    requires GoodBase(base, KeyCount(orders) - 1)
    modifies st`view, st.slots, st.arena
    ensures st.Valid() && AllIdle(st.view)
    ensures ok && TandemFits(base, KeyCount(orders)) ==> TandemSet(old(st.view), st.view, base, vals, KeyCount(orders))
    ensures Vacancies(old(st.view)) >= KeyCount(orders) && Settable(vals[..KeyCount(orders)], st.maxVal) ==> ok
  {
    ghost var n := KeyCount(orders);
    TandemKeysGood(base, n);
    ok := SetEach(st, base, vals, orders, TandemKeys(base, n), vals[..n]);
  }

  /** The loop: one set after the other, up to the first refusal. */
  method SetEach(st: Store, base: CString, vals: seq<seq<byte>>, orders: nat,
                 ghost keys: seq<CString>, ghost parts: seq<seq<byte>>) returns (ok: bool)
    requires st.Valid() && AllIdle(st.view) && KeyCount(orders) <= |vals| && Lists(keys, base, orders) && GoodKeys(keys)
    requires |parts| == |keys| && forall i :: 0 <= i < |keys| ==> parts[i] == vals[i]
    modifies st`view, st.slots, st.arena
    ensures st.Valid() && AllIdle(st.view)
    ensures ok ==> Stored(old(st.view), st.view, keys, parts, |keys|)
    ensures !ok ==> Vacancies(old(st.view)) < |keys| || !Settable(parts, st.maxVal)
  {
    var rc := StoreNext(st, base, vals[0], old(st.view), keys, parts, 0);
    if rc != Ok { return false; }
    if orders > 1 {
      for i := 1 to orders
        invariant st.Valid() && AllIdle(st.view) && Stored(old(st.view), st.view, keys, parts, i)
      {
        rc := StoreNext(st, OrderKey(base, i), vals[i], old(st.view), keys, parts, i);
        if rc != Ok { return false; }
      }
    }
    ok := true;
  }

  // ---- Unsetting -------------------------------------------------------------------------------

  /** Each key of the set lost the value a lookup found, and every other key keeps its values. */
  ghost predicate TandemPopped(v: View, w: View, base: CString, n: nat)
    requires Shaped(v) && Shaped(w) && n > 0
  {
    forall k: CString :: GoodKey(k) ==> Stack(w, k) == PoppedIf(Among(TandemKeys(base, n), n, k), Stack(v, k))
  }

  lemma EmptiedIsPopped(v: View, maxVal: nat, base: CString, scrub: bool, n: nat)
    requires Fits(v, maxVal) && AllIdle(v) && n > 0 && GoodBase(base, n - 1)
    ensures AllIdle(Emptied(v, maxVal, TandemKeys(base, n), scrub, n))
    ensures TandemFits(base, n) ==> TandemPopped(v, Emptied(v, maxVal, TandemKeys(base, n), scrub, n), base, n)
  {
    var keys := TandemKeys(base, n);
    TandemKeysGood(base, n);
    EmptiedIdle(v, maxVal, keys, scrub, n);
    if TandemFits(base, n) {
      forall k: CString | GoodKey(k)
        ensures Stack(Emptied(v, maxVal, keys, scrub, n), k) == PoppedIf(Among(keys, n, k), Stack(v, k))
      {
        EmptiedPops(v, maxVal, keys, scrub, n, k);
      }
    }
  }

  /** `splinter_client_unset_tandem`: takes back one value per order and nothing else. */
  method UnsetTandem(st: Store, base: CString, orders: nat)
    requires st.Valid() && AllIdle(st.view) && orders < 256 && GoodBase(base, KeyCount(orders) - 1)
    modifies st`view, st.slots, st.arena
    ensures st.Valid() && AllIdle(st.view)
    ensures TandemFits(base, KeyCount(orders)) ==> TandemPopped(old(st.view), st.view, base, KeyCount(orders))
  {
    EmptiedIsPopped(st.view, st.maxVal, base, st.autoScrub, KeyCount(orders));
    UnsetEach(st, base, orders, TandemKeys(base, KeyCount(orders)));
  }

  method UnsetEach(st: Store, base: CString, orders: nat, ghost keys: seq<CString>)
    requires st.Valid() && Lists(keys, base, orders)
    modifies st`view, st.slots, st.arena
    ensures st.Valid() && st.view == Emptied(old(st.view), st.maxVal, keys, st.autoScrub, |keys|)
  {
    UnsetNext(st, base, old(st.view), keys, 0);
    var end := if orders > 1 then orders else 1;
    for i := 1 to end
      invariant st.Valid()
      invariant st.view == Emptied(old(st.view), st.maxVal, keys, st.autoScrub, i)
    {
      UnsetNext(st, OrderKey(base, i), old(st.view), keys, i);
    }
  }

  /** Setting and then unsetting a tandem on absent keys leaves every key as it was. */
  lemma TandemUndone(v: View, w: View, x: View, base: CString, vals: seq<seq<byte>>, n: nat, key: CString)
    requires Shaped(v) && Shaped(w) && Shaped(x) && 0 < n <= |vals| && GoodKey(key)
    requires TandemSet(v, w, base, vals, n) && TandemPopped(w, x, base, n)
    requires |Stack(w, key)| <= 1 && (key in TandemKeys(base, n) ==> Stack(v, key) == [])
    ensures Stack(x, key) == Stack(v, key)
  {
    assert Among(TandemKeys(base, n), n, key) <==> key in TandemKeys(base, n);
  }
}
