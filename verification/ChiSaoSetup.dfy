/** The setup of the Chi Sao stress test: create the store, prepopulate it, divide the keys among the writers. */
module ChiSaoSetup {
  import opened Bytes
  import opened SlotEffects
  import opened Table
  import S = Store
  import opened Values
  import opened Batch
  import opened Placement
  import L = ChiSaoLanes
  import Seqlock
  import ChiSao
  import ChiSaoRuns
  import ChiSaoStart

  /** The writer whose lane holds key `t`. */
  ghost function OwnerOf(lanes: seq<L.Lane>, t: nat): (w: nat)
    requires L.Owned(lanes, t)
    ensures w < |lanes| && lanes[w].Has(t)
  {
    var w: nat :| w < |lanes| && lanes[w].Has(t);
    w
  }

  ghost function Owners(lanes: seq<L.Lane>, n: nat): (owner: seq<nat>)
    requires L.Partition(lanes, n)
    ensures |owner| == n && forall t :: 0 <= t < n ==> owner[t] == OwnerOf(lanes, t)
  {
    assert forall t :: 0 <= t < n ==> L.Owned(lanes, t);
    seq(n, t requires 0 <= t < n => OwnerOf(lanes, t))
  }

  /** A writer owns a key exactly when the key is in its lane. */
  predicate OwnsLane(owner: seq<nat>, lanes: seq<L.Lane>) {
    forall w, t :: 0 <= w < |lanes| && 0 <= t < |owner| ==> (owner[t] == w <==> lanes[w].Has(t))
  }

  lemma OwnersMatchLanes(lanes: seq<L.Lane>, n: nat)
    requires L.Partition(lanes, n)
    ensures OwnsLane(Owners(lanes, n), lanes)
  {
  }

  /** What the setup asks of the keys and their first values. */
  predicate Usable(keys: seq<CString>, vals: seq<seq<byte>>, maxVal: nat) {
    && |vals| == |keys| && Distinct(keys) && Settable(vals, maxVal)
    && forall t :: 0 <= t < |keys| ==> GoodKey(keys[t]) && keys[t] != []
  }

  lemma BlankStoreFills(v: View, maxVal: nat, keys: seq<CString>, vals: seq<seq<byte>>, mode: ScrubMode)
    requires Fits(v, maxVal) && AllIdle(v) && S.Blank(v) && |keys| == |vals| <= |v| && Settable(vals, maxVal)
    ensures AllSet(v, maxVal, keys, vals, mode, |keys|)
  {
    AllFree(v, |v|);
    AllSetWithRoom(v, maxVal, keys, vals, mode, |keys|);
  }

  /**
   From nothing to a start state of the lane machine: with a slot for every key and usable keys and values,
   the store that the setup leaves is what the writers and readers may start from, each key owned by the
   writer whose lane it is in.
   */
  method SetUp(slots: nat, maxVal: nat, keys: seq<CString>, vals: seq<seq<byte>>, writers: int,
               ghost model: seq<byte> -> seq<float32>)
    returns (st: S.Store, lanes: array<L.Lane>, ghost plan: ChiSao.Plan, ghost start: ChiSao.World)
    requires |keys| <= slots && 0 < maxVal && 0 < slots && (slots - 1) * maxVal < S.OFFSET_LIMIT
    requires L.Clamp(writers) <= |keys| && Usable(keys, vals, maxVal)
    requires Seqlock.Env(maxVal, model).Valid()
    ensures st.Valid() && fresh(st) && st.maxVal == maxVal && lanes.Length == L.Clamp(writers)
    ensures ChiSaoRuns.Prepopulated(plan, start) && plan.v0 == st.view && plan.keys == keys && plan.env.maxVal == maxVal
    ensures OwnsLane(plan.owner, lanes[..]) && L.Partition(lanes[..], |keys|)
  {
    st := new S.Store(slots, maxVal);
    ghost var v, mode := st.view, st.Mode();
    BlankStoreFills(v, maxVal, keys, vals, mode);
    Prepopulate(st, keys, vals);
    var count;
    count, lanes := L.Plan(writers, |keys|);
    OwnersMatchLanes(lanes[..], |keys|);
    plan, start := ChiSaoStart.PrepopulationStartsTheMachine(
      Seqlock.Env(maxVal, model), v, keys, vals, mode, Owners(lanes[..], |keys|));
  }
}
