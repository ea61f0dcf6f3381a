/** Several sets, or several unsets, in a row: what the table holds after them. */
module Batch {
  import opened Bytes
  import opened SlotEffects
  import opened Table
  import opened TableLaws
  import opened Store
  import opened Values

  predicate Distinct(keys: seq<CString>) {
    forall t, u :: 0 <= t < u < |keys| ==> keys[t] != keys[u]
  }

  predicate GoodKeys(keys: seq<CString>) {
    forall t :: 0 <= t < |keys| ==> GoodKey(keys[t])
  }

  // ---- Sets ------------------------------------------------------------------------------------

  /** The table after the first `i` sets. */
  function Filled(v: View, maxVal: nat, keys: seq<CString>, vals: seq<seq<byte>>, mode: ScrubMode, i: nat): (w: View)
    requires Fits(v, maxVal) && i <= |keys| == |vals|
    ensures Fits(w, maxVal) && |w| == |v|
  {
    if i == 0 then v else SetView(Filled(v, maxVal, keys, vals, mode, i - 1), maxVal, keys[i - 1], vals[i - 1], mode)
  }

  /** None of the first `i` sets failed. */
  predicate AllSet(v: View, maxVal: nat, keys: seq<CString>, vals: seq<seq<byte>>, mode: ScrubMode, i: nat)
    requires Fits(v, maxVal) && i <= |keys| == |vals|
  {
    i > 0 ==>
      && AllSet(v, maxVal, keys, vals, mode, i - 1)
      && SetRc(Filled(v, maxVal, keys, vals, mode, i - 1), maxVal, keys[i - 1], vals[i - 1]) == Ok
  }

  /** One set of a batch that only fills the table. */
  method SetNext(st: Store, key: CString, val: seq<byte>, ghost v: View, ghost keys: seq<CString>,
                 ghost vals: seq<seq<byte>>, ghost i: nat)
    requires st.Valid() && i < |keys| == |vals| && keys[i] == key && vals[i] == val && Fits(v, st.maxVal)
    requires st.view == Filled(v, st.maxVal, keys, vals, st.Mode(), i)
    modifies st`view, st.slots, st.arena
    ensures st.Valid() && st.view == Filled(v, st.maxVal, keys, vals, st.Mode(), i + 1)
  {
    var _ := st.Set(key, val);
  }

  /** Values that a slot can take. */
  predicate Settable(vals: seq<seq<byte>>, maxVal: nat) {
    forall j :: 0 <= j < |vals| ==> 0 < |vals[j]| <= maxVal
  }

  /** With a free slot for each, sets of values that fit all succeed. */
  lemma {:induction false} AllSetWithRoom(v: View, maxVal: nat, keys: seq<CString>, vals: seq<seq<byte>>,
                                          mode: ScrubMode, i: nat)
    requires Fits(v, maxVal) && AllIdle(v) && i <= |keys| == |vals| && Settable(vals, maxVal) && i <= Vacancies(v)
    ensures AllSet(v, maxVal, keys, vals, mode, i) && AllIdle(Filled(v, maxVal, keys, vals, mode, i))
    ensures Vacancies(Filled(v, maxVal, keys, vals, mode, i)) + i >= Vacancies(v)
  {
    if i > 0 {
      AllSetWithRoom(v, maxVal, keys, vals, mode, i - 1);
      SetWithRoom(Filled(v, maxVal, keys, vals, mode, i - 1), maxVal, keys[i - 1], vals[i - 1], mode);
    }
  }

  lemma SetWithRoom(v: View, maxVal: nat, key: CString, val: seq<byte>, mode: ScrubMode)
    requires Fits(v, maxVal) && AllIdle(v) && Vacancies(v) > 0 && 0 < |val| <= maxVal
    ensures SetRc(v, maxVal, key, val) == Ok && AllIdle(SetView(v, maxVal, key, val, mode))
    ensures Vacancies(SetView(v, maxVal, key, val, mode)) + 1 >= Vacancies(v)
  {
    SetUsesOneSlot(v, maxVal, key, val, mode);
    EpochsStayEven(v, maxVal, DoSet(key, val, mode));
  }

  // ---- Sets as the client sees them ------------------------------------------------------------

  /** The first `i` keys hold the first `i` values. */
  predicate HoldsUpTo(v: View, keys: seq<CString>, vals: seq<seq<byte>>, i: nat)
    requires Shaped(v) && i <= |keys| == |vals|
  {
    forall j :: 0 <= j < i ==> Holds(v, keys[j], vals[j])
  }

  lemma OneMoreHolds(v: View, w: View, keys: seq<CString>, vals: seq<seq<byte>>, i: nat)
    requires Shaped(v) && Shaped(w) && AllIdle(w) && i < |keys| == |vals| && Distinct(keys) && GoodKeys(keys)
    requires HoldsUpTo(v, keys, vals, i) && OthersKept(v, w, keys[i]) && Holds(w, keys[i], vals[i])
    ensures HoldsUpTo(w, keys, vals, i + 1)
  {
    forall j | 0 <= j < i
      ensures Holds(w, keys[j], vals[j])
    {
      assert Holds(v, keys[j], vals[j]) && GoodKey(keys[j]) && keys[j] != keys[i];
    }
  }

  /** Every key outside the batch sees the same values in both tables. */
  ghost predicate Spared(v: View, w: View, keys: seq<CString>)
    requires Shaped(v) && Shaped(w)
  {
    forall k: CString :: GoodKey(k) && k !in keys ==> Stack(w, k) == Stack(v, k)
  }

  /**
   From table `v` the first `i` sets led to `w`: distinct keys hold their values, other keys are as
   they were, and at most one slot was used for each.
   */
  ghost predicate Stored(v: View, w: View, keys: seq<CString>, vals: seq<seq<byte>>, i: nat)
    requires Shaped(v) && Shaped(w) && i <= |keys| == |vals|
  {
    && (Distinct(keys) ==> HoldsUpTo(w, keys, vals, i))
    && Spared(v, w, keys)
    && Vacancies(w) + i >= Vacancies(v)
  }

  lemma StoredNext(v: View, w: View, x: View, keys: seq<CString>, vals: seq<seq<byte>>, i: nat)
    requires Shaped(v) && Shaped(w) && Shaped(x) && AllIdle(x) && i < |keys| == |vals| && GoodKeys(keys)
    requires Stored(v, w, keys, vals, i) && OthersKept(w, x, keys[i]) && Holds(x, keys[i], vals[i])
    requires Vacancies(x) + 1 >= Vacancies(w)
    ensures Stored(v, x, keys, vals, i + 1)
  {
    SparedNext(v, w, x, keys, i);
    if Distinct(keys) {
      OneMoreHolds(w, x, keys, vals, i);
    }
  }

  lemma SparedNext(v: View, w: View, x: View, keys: seq<CString>, i: nat)
    requires Shaped(v) && Shaped(w) && Shaped(x) && i < |keys|
    requires Spared(v, w, keys) && OthersKept(w, x, keys[i])
    ensures Spared(v, x, keys)
  {
    forall k: CString | GoodKey(k) && k !in keys
      ensures Stack(x, k) == Stack(v, k)
    {
      assert k != keys[i];
    }
  }

  /** The next set: it stores its value, or there was no room for it. */
  method StoreNext(st: Store, key: CString, val: seq<byte>, ghost v: View, ghost keys: seq<CString>,
                   ghost vals: seq<seq<byte>>, ghost i: nat) returns (rc: Rc)
    requires st.Valid() && AllIdle(st.view) && Shaped(v)
    requires i < |keys| == |vals| && keys[i] == key && vals[i] == val && GoodKeys(keys)
    requires Stored(v, st.view, keys, vals, i)
    modifies st`view, st.slots, st.arena
    ensures st.Valid() && AllIdle(st.view)
    ensures rc == Ok ==> Stored(v, st.view, keys, vals, i + 1)
    ensures rc != Ok ==> Vacancies(v) <= i || !(0 < |val| <= st.maxVal)
  {
    ghost var w := st.view;
    rc := SetValue(st, key, val);
    if rc == Ok {
      StoredNext(v, w, st.view, keys, vals, i);
    }
  }

  // ---- Unsets ----------------------------------------------------------------------------------

  function Popped(stack: seq<seq<byte>>): seq<seq<byte>> {
    if stack == [] then [] else stack[1..]
  }

  function PoppedIf(pop: bool, stack: seq<seq<byte>>): seq<seq<byte>> {
    if pop then Popped(stack) else stack
  }

  /** The key is one of the first `i`. */
  predicate Among(keys: seq<CString>, i: nat, key: CString)
    requires i <= |keys|
  {
    exists j :: 0 <= j < i && keys[j] == key
  }

  lemma AmongStep(keys: seq<CString>, i: nat, key: CString, stack: seq<seq<byte>>)
    requires 0 < i <= |keys| && Distinct(keys)
    ensures PoppedIf(Among(keys, i, key), stack)
         == PoppedIf(key == keys[i - 1], PoppedIf(Among(keys, i - 1, key), stack))
  {
    assert key == keys[i - 1] ==> Among(keys, i, key);
  }

  lemma UnsetPops(v: View, maxVal: nat, key: CString, scrub: bool, other: CString)
    requires Fits(v, maxVal) && AllIdle(v) && GoodKey(key) && GoodKey(other)
    ensures AllIdle(UnsetView(v, maxVal, key, scrub))
    ensures Stack(UnsetView(v, maxVal, key, scrub), other) == PoppedIf(other == key, Stack(v, other))
  {
    EpochsStayEven(v, maxVal, DoUnset(key, scrub));
    UnsetOnStack(v, maxVal, key, scrub, other);
  }

  /** The table after the first `i` unsets. */
  function Emptied(v: View, maxVal: nat, keys: seq<CString>, scrub: bool, i: nat): (w: View)
    requires Fits(v, maxVal) && i <= |keys|
    ensures Fits(w, maxVal) && |w| == |v|
  {
    if i == 0 then v else UnsetView(Emptied(v, maxVal, keys, scrub, i - 1), maxVal, keys[i - 1], scrub)
  }

  lemma {:induction false} EmptiedIdle(v: View, maxVal: nat, keys: seq<CString>, scrub: bool, i: nat)
    requires Fits(v, maxVal) && AllIdle(v) && i <= |keys|
    ensures AllIdle(Emptied(v, maxVal, keys, scrub, i))
  {
    if i > 0 {
      EmptiedIdle(v, maxVal, keys, scrub, i - 1);
      EpochsStayEven(Emptied(v, maxVal, keys, scrub, i - 1), maxVal, DoUnset(keys[i - 1], scrub));
    }
  }

  /** Each of some distinct keys loses the value a lookup found, and every other key keeps its values. */
  lemma {:induction false} EmptiedPops(v: View, maxVal: nat, keys: seq<CString>, scrub: bool, i: nat, key: CString)
    requires Fits(v, maxVal) && AllIdle(v) && i <= |keys| && Distinct(keys) && GoodKeys(keys) && GoodKey(key)
    ensures AllIdle(Emptied(v, maxVal, keys, scrub, i))
    ensures Stack(Emptied(v, maxVal, keys, scrub, i), key) == PoppedIf(Among(keys, i, key), Stack(v, key))
  {
    if i > 0 {
      EmptiedPops(v, maxVal, keys, scrub, i - 1, key);
      AmongStep(keys, i, key, Stack(v, key));
      UnsetPops(Emptied(v, maxVal, keys, scrub, i - 1), maxVal, keys[i - 1], scrub, key);
    }
  }

  method UnsetNext(st: Store, key: CString, ghost v: View, ghost keys: seq<CString>, ghost i: nat)
    requires st.Valid() && i < |keys| && keys[i] == key && Fits(v, st.maxVal)
    requires st.view == Emptied(v, st.maxVal, keys, st.autoScrub, i)
    modifies st`view, st.slots, st.arena
    ensures st.Valid() && st.view == Emptied(v, st.maxVal, keys, st.autoScrub, i + 1)
  {
    var _, _ := st.Unset(key);
  }
}
