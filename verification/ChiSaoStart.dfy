/** The prepopulated store is a start state of the lane machine. */
module ChiSaoStart {
  import opened Bytes
  import opened SlotEffects
  import opened Table
  import S = Store
  import opened Batch
  import opened Placement
  import opened Seqlock
  import opened ChiSao
  import ChiSaoRuns

  /** Every slot's history accounts for what the table holds, and no writer is at work. */
  predicate Tracks(env: Env, v: View, slots: seq<Slot>) {
    && |slots| == |v|
    && forall s :: 0 <= s < |v| ==>
        SlotOk(env, slots[s]) && slots[s].ticks % 2 == 0 && slots[s].Epoch() == v[s].epoch && slots[s].c == v[s].c
  }

  function Untouched(v: View): (slots: seq<Slot>)
    ensures |slots| == |v|
  {
    seq(|v|, s requires 0 <= s < |v| => Slot(0, v[s].c, [v[s].c], []))
  }

  /** The slot once a set has committed on it. */
  function Committed(env: Env, sl: Slot, op: Op): Slot
    requires op.Allowed(env.maxVal) && sl.c.Fits(env.maxVal)
  {
    var c := Effect(op, sl.c, env.maxVal);
    Slot(sl.ticks + 2, c, sl.hist + [c], sl.log + [op])
  }

  lemma CommittedOk(env: Env, sl: Slot, op: Op)
    requires SlotOk(env, sl) && sl.ticks % 2 == 0 && op.Allowed(env.maxVal)
    ensures SlotOk(env, Committed(env, sl, op))
    ensures Committed(env, sl, op).Epoch() == Bumped(sl.Epoch())
  {
    TwoTicks(sl.ticks);
    HistoryGrows(env, sl, op);
  }

  lemma TwoTicks(ticks: nat)
    ensures (ticks + 2) % MOD64 == Bumped(ticks % MOD64)
  {
  }

  lemma HistoryGrows(env: Env, sl: Slot, op: Op)
    requires SlotOk(env, sl) && sl.ticks % 2 == 0 && op.Allowed(env.maxVal)
    ensures SlotOk(env, Committed(env, sl, op))
  {
    var r := Committed(env, sl, op);
    assert |r.hist| == |sl.hist| + 1 && (sl.ticks + 2) / 2 == sl.ticks / 2 + 1;
    forall m | 0 <= m < |r.log|
      ensures r.log[m].Allowed(env.maxVal) && r.hist[m].Fits(env.maxVal)
      ensures r.hist[m + 1] == Effect(r.log[m], r.hist[m], env.maxVal)
    {
      assert m < |sl.log| ==> r.log[m] == sl.log[m] && r.hist[m + 1] == sl.hist[m + 1];
    }
  }

  function SetOp(v: View, key: CString, val: seq<byte>, mode: ScrubMode): Op
    requires Shaped(v) && Target(v, key, true).Some?
  {
    Set(key, val, mode, v[Target(v, key, true).value].c.hash == 0)
  }

  /** The histories after one set. */
  function AfterSet(env: Env, v: View, slots: seq<Slot>, key: CString, val: seq<byte>, mode: ScrubMode): seq<Slot>
    requires Fits(v, env.maxVal) && Tracks(env, v, slots) && SetRc(v, env.maxVal, key, val) == Ok
  {
    var s := Target(v, key, true).value;
    slots[s := Committed(env, slots[s], SetOp(v, key, val, mode))]
  }

  lemma SetTracks(env: Env, v: View, slots: seq<Slot>, key: CString, val: seq<byte>, mode: ScrubMode)
    requires Fits(v, env.maxVal) && Tracks(env, v, slots) && SetRc(v, env.maxVal, key, val) == Ok
    ensures Tracks(env, SetView(v, env.maxVal, key, val, mode), AfterSet(env, v, slots, key, val, mode))
  {
    var s := Target(v, key, true).value;
    CommittedOk(env, slots[s], SetOp(v, key, val, mode));
  }

  /** The last commit on the slot was a set of this key. */
  predicate LastSet(sl: Slot, key: CString) {
    |sl.log| > 0 && sl.log[|sl.log| - 1].Set? && sl.log[|sl.log| - 1].key == key
  }

  /** The first `i` keys were each the last to be set in their home. */
  predicate LastSets(v: View, slots: seq<Slot>, keys: seq<CString>, off: seq<nat>, i: nat) {
    |slots| == |v| && i <= |keys| && i <= |off| &&
    forall t :: 0 <= t < i ==> LastSet(slots[ProbeSlot(|v|, keys[t], off[t])], keys[t])
  }

  /** A new key is set in an empty slot, so no earlier key's home is touched. */
  lemma SetKeepsLastSets(env: Env, v: View, slots: seq<Slot>, keys: seq<CString>, off: seq<nat>, i: nat,
                         val: seq<byte>, mode: ScrubMode)
    requires Fits(v, env.maxVal) && Tracks(env, v, slots) && i < |keys| && HomesUpTo(v, keys, off, i)
    requires LastSets(v, slots, keys, off, i) && forall t :: 0 <= t < |keys| ==> GoodKey(keys[t])
    requires SetRc(v, env.maxVal, keys[i], val) == Ok
    ensures LastSets(SetView(v, env.maxVal, keys[i], val, mode), AfterSet(env, v, slots, keys[i], val, mode),
                     keys, off + [FirstStop(v, keys[i], true, 0)], i + 1)
  {
    var s := Target(v, keys[i], true).value;
    assert v[s].c.hash == 0;
    forall t | 0 <= t < i
      ensures ProbeSlot(|v|, keys[t], off[t]) != s
    {
      assert Home(v, keys[..i][t], off[t]);
    }
  }

  /** The histories after the first `i` sets of a prepopulation. */
  function Histories(env: Env, v: View, keys: seq<CString>, vals: seq<seq<byte>>, mode: ScrubMode, i: nat)
    : (slots: seq<Slot>)
    requires Fits(v, env.maxVal) && i <= |keys| == |vals| && Tracks(env, v, Untouched(v))
    requires AllSet(v, env.maxVal, keys, vals, mode, i)
    ensures Tracks(env, Filled(v, env.maxVal, keys, vals, mode, i), slots)
  {
    if i == 0 then Untouched(v)
    else
      var w := Filled(v, env.maxVal, keys, vals, mode, i - 1);
      var slots := Histories(env, v, keys, vals, mode, i - 1);
      SetTracks(env, w, slots, keys[i - 1], vals[i - 1], mode);
      AfterSet(env, w, slots, keys[i - 1], vals[i - 1], mode)
  }

  lemma {:induction false} HistoriesLastSets(env: Env, v: View, keys: seq<CString>, vals: seq<seq<byte>>,
                                            mode: ScrubMode, i: nat)
    requires Fits(v, env.maxVal) && S.Blank(v) && AllIdle(v) && i <= |keys| == |vals| && Tracks(env, v, Untouched(v))
    requires Distinct(keys) && forall t :: 0 <= t < |keys| ==> GoodKey(keys[t])
    requires AllSet(v, env.maxVal, keys, vals, mode, i)
    ensures LastSets(Filled(v, env.maxVal, keys, vals, mode, i), Histories(env, v, keys, vals, mode, i),
                     keys, Offsets(v, env.maxVal, keys, vals, mode, i), i)
  {
    if i > 0 {
      HistoriesLastSets(env, v, keys, vals, mode, i - 1);
      FilledHomes(v, env.maxVal, keys, vals, mode, i - 1);
      SetKeepsLastSets(env, Filled(v, env.maxVal, keys, vals, mode, i - 1), Histories(env, v, keys, vals, mode, i - 1),
                       keys, Offsets(v, env.maxVal, keys, vals, mode, i - 1), i - 1, vals[i - 1], mode);
    }
  }

  lemma FreshTracks(env: Env, v: View)
    requires Fits(v, env.maxVal) && forall s :: 0 <= s < |v| ==> v[s].epoch == 0
    ensures Tracks(env, v, Untouched(v))
  {
  }

  /**
   Prepopulating a fresh store with distinct keys, when every set succeeds, leaves it in a state from
   which the lane machine may start, with every key's home where its set put it.
   */
  lemma PrepopulationStartsTheMachine(env: Env, v: View, keys: seq<CString>, vals: seq<seq<byte>>, mode: ScrubMode,
                                      owner: seq<nat>) returns (plan: Plan, st: World)
    requires env.Valid() && Fits(v, env.maxVal) && S.Blank(v) && forall s :: 0 <= s < |v| ==> v[s].epoch == 0
    requires Distinct(keys) && forall t :: 0 <= t < |keys| ==> GoodKey(keys[t]) && keys[t] != []
    requires |vals| == |keys| == |owner| && AllSet(v, env.maxVal, keys, vals, mode, |keys|)
    ensures ChiSaoRuns.Prepopulated(plan, st)
    ensures plan.env == env && plan.keys == keys && plan.owner == owner
    ensures plan.v0 == Filled(v, env.maxVal, keys, vals, mode, |keys|)
    ensures forall s :: 0 <= s < |v| ==> st.slots[s].c == plan.v0[s].c
  {
    FreshTracks(env, v);
    PrepopulatedHomes(v, env.maxVal, keys, vals, mode);
    HistoriesLastSets(env, v, keys, vals, mode, |keys|);
    var w := Filled(v, env.maxVal, keys, vals, mode, |keys|);
    var slots := Histories(env, v, keys, vals, mode, |keys|);
    var off := Offsets(v, env.maxVal, keys, vals, mode, |keys|);
    plan, st := StartOf(env, keys, owner, off, w, slots);
  }

  lemma StartOf(env: Env, keys: seq<CString>, owner: seq<nat>, off: seq<nat>, w: View, slots: seq<Slot>)
    returns (plan: Plan, st: World)
    requires env.Valid() && Fits(w, env.maxVal) && Tracks(env, w, slots) && Homes(w, keys, off)
    requires Distinct(keys) && forall t :: 0 <= t < |keys| ==> GoodKey(keys[t]) && keys[t] != []
    requires |owner| == |keys| && LastSets(w, slots, keys, off, |keys|)
    ensures ChiSaoRuns.Prepopulated(plan, st)
    ensures plan.env == env && plan.keys == keys && plan.owner == owner && plan.v0 == w && st.slots == slots
  {
    plan := Plan(env, keys, owner, off, w, seq(|w|, s requires 0 <= s < |w| => slots[s].ticks / 2));
    st := World(slots, map[]);
    forall t | 0 <= t < |keys|
      ensures LastSet(slots[plan.HomeOf(t)], keys[t]) && plan.base[plan.HomeOf(t)] >= 1
    {
      assert LastSet(slots[ProbeSlot(|w|, keys[t], off[t])], keys[t]);
    }
  }
}
