/** Where distinct keys land when a fresh store is prepopulated with them. */
module Placement {
  import opened Bytes
  import opened SlotEffects
  import opened Table
  import opened TableLaws
  import opened Store
  import opened Batch
  import Fnv

  /** At probe offset `off` sits the only copy of `key`, and a probe meets no hole before it. */
  predicate Home(v: View, key: CString, off: nat)
    requires Shaped(v)
  {
    && off < |v|
    && v[ProbeSlot(|v|, key, off)].c.hash == Fnv.Hash(key)
    && v[ProbeSlot(|v|, key, off)].c.key == PadKey(key)
    && (forall g :: 0 <= g < off ==> v[ProbeSlot(|v|, key, g)].c.hash != 0)
    && (forall g :: 0 <= g < |v| && g != off ==> !Matches(v[ProbeSlot(|v|, key, g)].c, key))
  }

  predicate Absent(v: View, key: CString)
    requires Shaped(v)
  {
    forall s :: 0 <= s < |v| ==> !Matches(v[s].c, key)
  }

  predicate Homes(v: View, keys: seq<CString>, off: seq<nat>)
    requires Shaped(v)
  {
    |off| == |keys| && forall t :: 0 <= t < |keys| ==> Home(v, keys[t], off[t])
  }

  lemma HomeMatches(v: View, key: CString, off: nat)
    requires Shaped(v) && GoodKey(key) && Home(v, key, off)
    ensures Matches(v[ProbeSlot(|v|, key, off)].c, key)
  {
  }

  /** Setting a new key gives it a home and takes no other key's home away. */
  lemma SetFindsHome(v: View, maxVal: nat, key: CString, val: seq<byte>, mode: ScrubMode)
    requires Fits(v, maxVal) && AllIdle(v) && GoodKey(key) && Absent(v, key)
    requires SetRc(v, maxVal, key, val) == Ok
    ensures Home(SetView(v, maxVal, key, val, mode), key, FirstStop(v, key, true, 0))
  {
    var off := FirstStop(v, key, true, 0);
    var s := ProbeSlot(|v|, key, off);
    var v' := SetView(v, maxVal, key, val, mode);
    forall g | 0 <= g < |v| && g != off
      ensures v'[ProbeSlot(|v|, key, g)] == v[ProbeSlot(|v|, key, g)]
    {
      if ProbeSlot(|v|, key, g) == s {
        ProbeInjective(|v|, key, g, off);
      }
    }
    forall g | 0 <= g < off
      ensures v'[ProbeSlot(|v|, key, g)].c.hash != 0
    {
      assert !Stops(v[ProbeSlot(|v|, key, g)], key, true);
    }
  }

  lemma SetSparesHome(v: View, maxVal: nat, key: CString, val: seq<byte>, mode: ScrubMode, other: CString, off: nat)
    requires Fits(v, maxVal) && GoodKey(key) && GoodKey(other) && other != key && Absent(v, key)
    requires Home(v, other, off)
    ensures Home(SetView(v, maxVal, key, val, mode), other, off)
  {
    if SetRc(v, maxVal, key, val) == Ok {
      var s := Target(v, key, true).value;
      var op := Set(key, val, mode, v[s].c.hash == 0);
      SetMatches(op, v[s].c, maxVal, other);
      assert v[s].c.hash == 0;
      assert Effect(op, v[s].c, maxVal).hash == Fnv.Hash(key);
      HomeMatches(v, other, off);
    }
  }

  lemma SetSparesAbsent(v: View, maxVal: nat, key: CString, val: seq<byte>, mode: ScrubMode, other: CString)
    requires Fits(v, maxVal) && GoodKey(key) && GoodKey(other) && other != key && Absent(v, other)
    ensures Absent(SetView(v, maxVal, key, val, mode), other)
  {
    if SetRc(v, maxVal, key, val) == Ok {
      var s := Target(v, key, true).value;
      SetMatches(Set(key, val, mode, v[s].c.hash == 0), v[s].c, maxVal, other);
    }
  }

  /** The first `i` keys have homes and the others are not stored yet. */
  predicate HomesUpTo(v: View, keys: seq<CString>, off: seq<nat>, i: nat)
    requires Shaped(v) && i <= |keys|
  {
    Homes(v, keys[..i], off) && forall t :: i <= t < |keys| ==> Absent(v, keys[t])
  }

  lemma PrepopulateStep(v: View, maxVal: nat, keys: seq<CString>, off: seq<nat>, i: nat, val: seq<byte>,
                        mode: ScrubMode)
    requires Fits(v, maxVal) && AllIdle(v) && i < |keys| && HomesUpTo(v, keys, off, i)
    requires Distinct(keys) && forall t :: 0 <= t < |keys| ==> GoodKey(keys[t])
    requires SetRc(v, maxVal, keys[i], val) == Ok
    ensures HomesUpTo(SetView(v, maxVal, keys[i], val, mode), keys, off + [FirstStop(v, keys[i], true, 0)], i + 1)
  {
    var v' := SetView(v, maxVal, keys[i], val, mode);
    SetFindsHome(v, maxVal, keys[i], val, mode);
    forall t | 0 <= t < i
      ensures Home(v', keys[t], off[t])
    {
      assert Home(v, keys[..i][t], off[t]);
      SetSparesHome(v, maxVal, keys[i], val, mode, keys[t], off[t]);
    }
    forall t | i < t < |keys|
      ensures Absent(v', keys[t])
    {
      SetSparesAbsent(v, maxVal, keys[i], val, mode, keys[t]);
    }
  }

  /** Where the first `i` sets found their slots. */
  function Offsets(v: View, maxVal: nat, keys: seq<CString>, vals: seq<seq<byte>>, mode: ScrubMode, i: nat)
    : (off: seq<nat>)
    requires Fits(v, maxVal) && i <= |keys| == |vals|
    ensures |off| == i
  {
    if i == 0 then []
    else
      var w := Filled(v, maxVal, keys, vals, mode, i - 1);
      Offsets(v, maxVal, keys, vals, mode, i - 1) + [FirstStop(w, keys[i - 1], true, 0)]
  }

  lemma {:induction false} FilledHomes(v: View, maxVal: nat, keys: seq<CString>, vals: seq<seq<byte>>,
                                      mode: ScrubMode, i: nat)
    requires Fits(v, maxVal) && Blank(v) && AllIdle(v) && i <= |keys| == |vals|
    requires Distinct(keys) && forall t :: 0 <= t < |keys| ==> GoodKey(keys[t])
    requires AllSet(v, maxVal, keys, vals, mode, i)
    ensures AllIdle(Filled(v, maxVal, keys, vals, mode, i))
    ensures HomesUpTo(Filled(v, maxVal, keys, vals, mode, i), keys, Offsets(v, maxVal, keys, vals, mode, i), i)
  {
    if i > 0 {
      FilledHomes(v, maxVal, keys, vals, mode, i - 1);
      FilledStep(v, maxVal, keys, vals, mode, i);
    } else {
      assert keys[..0] == [];
    }
  }

  lemma FilledStep(v: View, maxVal: nat, keys: seq<CString>, vals: seq<seq<byte>>, mode: ScrubMode, i: nat)
    requires Fits(v, maxVal) && 0 < i <= |keys| == |vals|
    requires Distinct(keys) && forall t :: 0 <= t < |keys| ==> GoodKey(keys[t])
    requires var w := Filled(v, maxVal, keys, vals, mode, i - 1);
      && AllIdle(w) && SetRc(w, maxVal, keys[i - 1], vals[i - 1]) == Ok
      && HomesUpTo(w, keys, Offsets(v, maxVal, keys, vals, mode, i - 1), i - 1)
    ensures AllIdle(Filled(v, maxVal, keys, vals, mode, i))
    ensures HomesUpTo(Filled(v, maxVal, keys, vals, mode, i), keys, Offsets(v, maxVal, keys, vals, mode, i), i)
  {
    var w := Filled(v, maxVal, keys, vals, mode, i - 1);
    EpochsStayEven(w, maxVal, DoSet(keys[i - 1], vals[i - 1], mode));
    PrepopulateStep(w, maxVal, keys, Offsets(v, maxVal, keys, vals, mode, i - 1), i - 1, vals[i - 1], mode);
  }

  /** When every set on a blank store succeeds, every key has its home. */
  lemma PrepopulatedHomes(v: View, maxVal: nat, keys: seq<CString>, vals: seq<seq<byte>>, mode: ScrubMode)
    requires Fits(v, maxVal) && Blank(v) && AllIdle(v) && |keys| == |vals|
    requires Distinct(keys) && forall t :: 0 <= t < |keys| ==> GoodKey(keys[t])
    requires AllSet(v, maxVal, keys, vals, mode, |keys|)
    ensures Homes(Filled(v, maxVal, keys, vals, mode, |keys|), keys, Offsets(v, maxVal, keys, vals, mode, |keys|))
  {
    FilledHomes(v, maxVal, keys, vals, mode, |keys|);
    assert keys[..|keys|] == keys;
  }

  /** `prepopulate`: one set per key, whatever the sets return. */
  method Prepopulate(st: Store, keys: seq<CString>, vals: seq<seq<byte>>)
    requires st.Valid() && |vals| == |keys|
    modifies st`view, st.slots, st.arena
    ensures st.Valid()
    ensures st.view == Filled(old(st.view), st.maxVal, keys, vals, st.Mode(), |keys|)
  {
    for i := 0 to |keys|
      invariant st.Valid() && st.view == Filled(old(st.view), st.maxVal, keys, vals, st.Mode(), i)
    {
      SetNext(st, keys[i], vals[i], old(st.view), keys, vals, i);
    }
  }
}
