/** What a client sees of the table: the value a key holds, and how each call changes it. */
module Values {
  import opened Bytes
  import opened Options
  import opened SlotEffects
  import opened Table
  import opened TableLaws
  import opened Store

  /** No writer is at work and a lookup of `key` finds `val`. */
  predicate Holds(v: View, key: CString, val: seq<byte>)
    requires Shaped(v)
  {
    AllIdle(v) && Stack(v, key) != [] && Stack(v, key)[0] == val
  }

  /** Every other key sees the same values in both tables. */
  ghost predicate OthersKept(v: View, w: View, key: CString)
    requires Shaped(v) && Shaped(w)
  {
    forall k: CString :: GoodKey(k) && k != key ==> Stack(w, k) == Stack(v, k)
  }

  /** A key holds a value exactly when a get with enough room returns that value. */
  lemma HoldsIffGet(v: View, key: CString, val: seq<byte>, room: nat)
    requires Shaped(v) && AllIdle(v) && |val| <= room
    ensures Holds(v, key, val) <==>
      GetRc(v, key, Some(room)) == Ok && v[Target(v, key, false).value].c.Value() == val
  {
    TargetIsTop(v, key);
  }

  lemma SetHolds(v: View, maxVal: nat, key: CString, val: seq<byte>, mode: ScrubMode)
    requires Fits(v, maxVal) && AllIdle(v) && GoodKey(key)
    ensures AllIdle(SetView(v, maxVal, key, val, mode))
    ensures OthersKept(v, SetView(v, maxVal, key, val, mode), key)
    ensures SetRc(v, maxVal, key, val) == Ok ==> Holds(SetView(v, maxVal, key, val, mode), key, val)
    ensures 0 < |val| <= maxVal && Stack(v, key) != [] ==> SetRc(v, maxVal, key, val) == Ok
  {
    EpochsStayEven(v, maxVal, DoSet(key, val, mode));
    forall k: CString | GoodKey(k) && k != key
      ensures Stack(SetView(v, maxVal, key, val, mode), k) == Stack(v, k)
    {
      SetOnOtherStack(v, maxVal, key, val, mode, k);
    }
    if SetRc(v, maxVal, key, val) == Ok {
      SetOnOwnStack(v, maxVal, key, val, mode);
    }
    if 0 < |val| <= maxVal {
      SetRefusesWhenFull(v, maxVal, key, val);
    }
  }

  lemma HeldFits(v: View, maxVal: nat, key: CString, val: seq<byte>)
    requires Fits(v, maxVal) && Holds(v, key, val)
    ensures |val| <= maxVal
  {
    TargetIsTop(v, key);
  }

  lemma HeldTarget(v: View, key: CString, val: seq<byte>)
    requires Shaped(v) && Holds(v, key, val)
    ensures var t := Target(v, key, false);
      t.Some? && v[t.value].Idle() && v[t.value].c.len == |val|
  {
    TargetIsTop(v, key);
  }

  /** An append of some bytes, seen through the value: it extends the value or leaves it as it was. */
  lemma AppendSeen(v: View, maxVal: nat, key: CString, data: seq<byte>, val: seq<byte>)
    requires Fits(v, maxVal) && GoodKey(key) && Holds(v, key, val) && data != []
    ensures AppendRc(v, maxVal, key, data) == if |val| + |data| <= maxVal then Ok else Emsgsize
    ensures Holds(AppendView(v, maxVal, key, data), key, if |val| + |data| <= maxVal then val + data else val)
    ensures v[Target(v, key, false).value].c.len == |val|
  {
    EpochsStayEven(v, maxVal, DoAppend(key, data));
    AppendOnStack(v, maxVal, key, data, key);
    TargetIsTop(v, key);
  }

  /** A write that changes nothing but the epoch keeps what the key holds. */
  lemma BumpHolds(v: View, key: CString, val: seq<byte>, s: nat)
    requires Shaped(v) && GoodKey(key) && Holds(v, key, val) && Target(v, key, false) == Some(s)
    ensures Shaped(Touched(v, s)) && Holds(Touched(v, s), key, val)
  {
    var j := FirstStop(v, key, false, 0);
    TargetIsTop(v, key);
    forall h | 0 <= h < j
      ensures Here(v, key, h) == []
    {
      assert !Stops(v[ProbeSlot(|v|, key, h)], key, false);
    }
    StackTopAfter(v, key, s, Cell(v[s].c, Bumped(v[s].epoch)), j);
  }

  lemma SetSpares(v: View, maxVal: nat, key: CString, val: seq<byte>, mode: ScrubMode, other: CString, held: seq<byte>)
    requires Fits(v, maxVal) && GoodKey(key) && GoodKey(other) && other != key && Holds(v, other, held)
    ensures Holds(SetView(v, maxVal, key, val, mode), other, held)
  {
    EpochsStayEven(v, maxVal, DoSet(key, val, mode));
    SetOnOtherStack(v, maxVal, key, val, mode, other);
  }

  lemma AppendSpares(v: View, maxVal: nat, key: CString, data: seq<byte>, other: CString, held: seq<byte>)
    requires Fits(v, maxVal) && GoodKey(key) && GoodKey(other) && other != key && Holds(v, other, held)
    ensures Holds(AppendView(v, maxVal, key, data), other, held)
  {
    EpochsStayEven(v, maxVal, DoAppend(key, data));
    if data != [] {
      AppendOnStack(v, maxVal, key, data, other);
    }
  }

  // ---- Several keys ----------------------------------------------------------------------------

  ghost predicate HoldsAll(v: View, keys: seq<CString>, vals: seq<seq<byte>>)
    requires Shaped(v)
  {
    |keys| == |vals| && forall i :: 0 <= i < |keys| ==> Holds(v, keys[i], vals[i])
  }

  /** What one gets by joining the values of the keys in order. */
  function Joined(v: View, keys: seq<CString>): seq<byte>
    requires Shaped(v)
  {
    if keys == [] then []
    else
      var val := Lookup(v, keys[0]);
      (if val.Some? then val.value else []) + Joined(v, keys[1..])
  }

  function Flatten(parts: seq<seq<byte>>): seq<byte> {
    if parts == [] then [] else parts[0] + Flatten(parts[1..])
  }

  lemma {:induction false} HoldsAllJoins(v: View, keys: seq<CString>, vals: seq<seq<byte>>)
    requires Shaped(v) && HoldsAll(v, keys, vals)
    ensures Joined(v, keys) == Flatten(vals)
  {
    if keys != [] {
      assert Holds(v, keys[0], vals[0]);
      HoldsAllJoins(v, keys[1..], vals[1..]);
    }
  }

  /** A change to one key keeps what the others hold. */
  lemma KeepAll(v: View, w: View, key: CString, keys: seq<CString>, vals: seq<seq<byte>>)
    requires Shaped(v) && Shaped(w) && AllIdle(w) && OthersKept(v, w, key)
    requires HoldsAll(v, keys, vals) && key !in keys && forall i :: 0 <= i < |keys| ==> GoodKey(keys[i])
    ensures HoldsAll(w, keys, vals)
  {
    forall i | 0 <= i < |keys|
      ensures Holds(w, keys[i], vals[i])
    {
      assert Holds(v, keys[i], vals[i]);
    }
  }

  // ---- Room ------------------------------------------------------------------------------------

  /** How many of the first `n` slots are empty. */
  function FreeSlots(v: View, n: nat): nat
    requires n <= |v|
  {
    if n == 0 then 0 else FreeSlots(v, n - 1) + if v[n - 1].c.hash == 0 then 1 else 0
  }

  lemma {:induction false} AllFree(v: View, n: nat)
    requires n <= |v| && forall s :: 0 <= s < |v| ==> v[s].c.hash == 0
    ensures FreeSlots(v, n) == n
  {
    if n > 0 {
      AllFree(v, n - 1);
    }
  }

  lemma {:induction false} FreeSlotExists(v: View, n: nat)
    requires n <= |v| && FreeSlots(v, n) > 0
    ensures exists s :: 0 <= s < n && v[s].c.hash == 0
  {
    if v[n - 1].c.hash != 0 {
      FreeSlotExists(v, n - 1);
    }
  }

  lemma {:induction false} OneSlotTaken(v: View, s: nat, cell: Cell, n: nat)
    requires s < |v| && n <= |v|
    ensures FreeSlots(v[s := cell], n) + (if s < n then 1 else 0) >= FreeSlots(v, n)
  {
    if n > 0 {
      OneSlotTaken(v, s, cell, n - 1);
    }
  }

  /** A set of a fitting value succeeds while a slot is free, and uses up at most one. */
  lemma SetUsesOneSlot(v: View, maxVal: nat, key: CString, val: seq<byte>, mode: ScrubMode)
    requires Fits(v, maxVal) && AllIdle(v)
    ensures FreeSlots(SetView(v, maxVal, key, val, mode), |v|) + 1 >= FreeSlots(v, |v|)
    ensures FreeSlots(v, |v|) > 0 && 0 < |val| <= maxVal ==> SetRc(v, maxVal, key, val) == Ok
  {
    if SetRc(v, maxVal, key, val) == Ok {
      var s := Target(v, key, true).value;
      OneSlotTaken(v, s, SetView(v, maxVal, key, val, mode)[s], |v|);
    } else if FreeSlots(v, |v|) > 0 && 0 < |val| <= maxVal {
      FreeSlotExists(v, |v|);
      SetRefusesWhenFull(v, maxVal, key, val);
      assert false;
    }
  }

  function Vacancies(v: View): nat {
    FreeSlots(v, |v|)
  }

  lemma SetSeen(v: View, w: View, maxVal: nat, key: CString, val: seq<byte>, mode: ScrubMode)
    requires Fits(v, maxVal) && AllIdle(v) && GoodKey(key) && w == SetView(v, maxVal, key, val, mode)
    ensures AllIdle(w) && OthersKept(v, w, key)
    ensures SetRc(v, maxVal, key, val) == Ok ==> Holds(w, key, val)
    ensures Vacancies(w) + 1 >= Vacancies(v)
    ensures Vacancies(v) > 0 && 0 < |val| <= maxVal ==> SetRc(v, maxVal, key, val) == Ok
  {
    SetHolds(v, maxVal, key, val, mode);
    SetUsesOneSlot(v, maxVal, key, val, mode);
  }

  /** `splinter_set` as seen through the values. */
  method SetValue(st: Store, key: CString, val: seq<byte>) returns (rc: Rc)
    requires st.Valid() && AllIdle(st.view) && GoodKey(key)
    modifies st`view, st.slots, st.arena
    ensures st.Valid() && AllIdle(st.view)
    ensures OthersKept(old(st.view), st.view, key)
    ensures rc == Ok ==> Holds(st.view, key, val)
    ensures Vacancies(st.view) + 1 >= Vacancies(old(st.view))
    ensures Vacancies(old(st.view)) > 0 && 0 < |val| <= st.maxVal ==> rc == Ok
  {
    ghost var v, mode := st.view, st.Mode();
    rc := st.Set(key, val);
    SetSeen(v, st.view, st.maxVal, key, val, mode);
  }
}
