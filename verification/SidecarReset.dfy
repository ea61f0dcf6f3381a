/**
 Where the sidecar's skip test goes wrong. The test only asks whether the recorded epoch is at least the
 one it loads: an unset or a retrain moves a slot's epoch back, and marking a slot as a system slot changes
 its value without moving the epoch at all.
 */
module SidecarReset {
  import opened Bytes
  import opened Options
  import opened SlotEffects
  import opened Table
  import opened TableLaws
  import opened TableWrites
  import opened Shadowing

  /** `splinter_get_epoch`. */
  function EpochOf(v: View, key: CString): u64
    requires Shaped(v)
  {
    match Target(v, key, false)
    case None => 0
    case Some(s) => v[s].epoch
  }

  /** The live loop passes over the key. */
  predicate Skips(recorded: u64, v: View, key: CString)
    requires Shaped(v)
  {
    recorded >= EpochOf(v, key)
  }

  /** A key that is not there counts as epoch 0, so the live loop passes over it whatever it recorded. */
  lemma AbsentIsSkipped(v: View, key: CString, recorded: u64)
    requires Shaped(v) && Stack(v, key) == []
    ensures Skips(recorded, v, key)
  {
    TargetIsTop(v, key);
  }

  /** The key's embedding is the model's output on its value. */
  predicate InStep(v: View, key: CString, model: seq<byte> -> seq<float32>)
    requires Shaped(v)
  {
    var t := Target(v, key, false);
    t.Some? && v[t.value].c.emb == model(v[t.value].c.Value())
  }

  lemma TargetAfterSet(v: View, maxVal: nat, key: CString, val: seq<byte>, mode: ScrubMode)
    requires Fits(v, maxVal) && AllIdle(v) && GoodKey(key) && SetRc(v, maxVal, key, val) == Ok
    ensures Target(SetView(v, maxVal, key, val, mode), key, false) == Target(v, key, true)
  {
    var s := Target(v, key, true).value;
    var w := SetView(v, maxVal, key, val, mode);
    var j := FirstStop(v, key, true, 0);
    SetMatches(Set(key, val, mode, v[s].c.hash == 0), v[s].c, maxVal, key);
    forall h | 0 <= h < j
      ensures !Stops(w[ProbeSlot(|v|, key, h)], key, false)
    {
      assert !Stops(v[ProbeSlot(|v|, key, h)], key, true);
    }
    FirstStopIs(w, key, false, j);
  }

  // ---- Later calls on the key ------------------------------------------------------------------

  /** A call on one key that neither removes it nor takes its embedding away. */
  datatype Call =
    | Rewrite(val: seq<byte>, mode: ScrubMode)
    | Extend(data: seq<byte>)
    | Write(op: Op)

  predicate GoodCall(call: Call) {
    call.Write? ==> InPlace(call.op)
  }

  predicate GoodCalls(calls: seq<Call>) {
    forall i :: 0 <= i < |calls| ==> GoodCall(calls[i])
  }

  /** Whether the call moves the epoch; a refused append does. */
  predicate MovesEpoch(call: Call, maxVal: nat) {
    match call
    case Rewrite(val, _) => 0 < |val| <= maxVal
    case Extend(data) => data != []
    case Write(op) => op.Allowed(maxVal)
  }

  function Called(v: View, maxVal: nat, key: CString, call: Call): (w: View)
    requires Fits(v, maxVal)
    ensures Fits(w, maxVal) && |w| == |v|
  {
    match call
    case Rewrite(val, mode) => SetView(v, maxVal, key, val, mode)
    case Extend(data) => AppendView(v, maxVal, key, data)
    case Write(op) => WriteView(v, maxVal, key, op)
  }

  function CalledAll(v: View, maxVal: nat, key: CString, calls: seq<Call>): (w: View)
    requires Fits(v, maxVal)
    ensures Fits(w, maxVal) && |w| == |v|
    decreases calls
  {
    if calls == [] then v else CalledAll(Called(v, maxVal, key, calls[0]), maxVal, key, calls[1..])
  }

  /** How many of the calls move the epoch. */
  function Moves(calls: seq<Call>, maxVal: nat): nat {
    if calls == [] then 0 else (if MovesEpoch(calls[0], maxVal) then 1 else 0) + Moves(calls[1..], maxVal)
  }

  /** The embedding a slot has after one more call. */
  function VectorAfter(emb: seq<float32>, call: Call, maxVal: nat): seq<float32> {
    if MovesEpoch(call, maxVal) && call.Write? && call.op.SetEmbedding? then call.op.vec else emb
  }

  /** The embedding a slot has after the calls: the last one stored, if any was. */
  function LastVector(emb: seq<float32>, calls: seq<Call>, maxVal: nat): seq<float32>
    decreases calls
  {
    if calls == [] then emb else LastVector(VectorAfter(emb, calls[0], maxVal), calls[1..], maxVal)
  }

  /** The epoch after `n` writes. */
  function Later(e: u64, n: nat): u64 {
    (e + 2 * n) % MOD64
  }

  lemma LaterNext(e: u64, n: nat)
    ensures Later(e, 0) == e && Later(Bumped(e), n) == Later(e, n + 1)
  {
    assert Bumped(e) == (e + 2) % MOD64;
    ModAdds(e + 2, 2 * n);
  }

  lemma LaterFits(e: u64, n: nat)
    requires e + 2 * n < MOD64
    ensures Later(e, n) == e + 2 * n
  {
  }

  lemma ModAdds(x: nat, y: nat)
    ensures (x % MOD64 + y) % MOD64 == (x + y) % MOD64
  {
    assert x == x / MOD64 * MOD64 + x % MOD64;
  }

  /** Lookups and sets of the key both go to slot `s`: no empty slot stands ahead of it. */
  predicate Settled(v: View, key: CString, s: nat)
    requires Shaped(v)
  {
    AllIdle(v) && Target(v, key, false) == Some(s) && Target(v, key, true) == Some(s)
  }

  /** Rewriting the slot a key is settled in keeps it settled there. */
  lemma RewriteSettled(v: View, key: CString, s: nat, cell: Cell)
    requires Shaped(v) && Settled(v, key, s) && CellShaped(cell) && cell.Idle() && Matches(cell.c, key)
    ensures Settled(v[s := cell], key, s)
  {
    var w := v[s := cell];
    var j := FirstStop(v, key, true, 0);
    FirstNotLater(v, key);
    OthersBefore(v, key, j, cell);
    FirstStopIs(w, key, true, j);
    FirstStopIs(w, key, false, j);
  }

  /** Among idle slots a set stops no later than a lookup. */
  lemma FirstNotLater(v: View, key: CString)
    requires Shaped(v) && AllIdle(v)
    ensures FirstStop(v, key, true, 0) <= FirstStop(v, key, false, 0)
  {
    var i, j := FirstStop(v, key, false, 0), FirstStop(v, key, true, 0);
    assert i < j ==> !Stops(v[ProbeSlot(|v|, key, i)], key, true);
  }

  lemma OthersBefore(v: View, key: CString, j: nat, cell: Cell)
    requires Shaped(v) && j < |v| && FirstStop(v, key, true, 0) == j && |cell.c.key| == KEY_MAX && AllIdle(v)
    requires cell.c.len <= |cell.c.bytes|
    ensures var w := v[ProbeSlot(|v|, key, j) := cell];
      forall h :: 0 <= h < j ==>
        !Stops(w[ProbeSlot(|v|, key, h)], key, true) && !Stops(w[ProbeSlot(|v|, key, h)], key, false)
  {
    forall h | 0 <= h < j
      ensures ProbeSlot(|v|, key, h) != ProbeSlot(|v|, key, j)
      ensures !Stops(v[ProbeSlot(|v|, key, h)], key, true)
    {
      ProbesDiffer(|v|, key, h, j);
    }
  }

  lemma ProbesDiffer(n: nat, key: CString, i: nat, j: nat)
    requires i < j < n
    ensures ProbeSlot(n, key, i) != ProbeSlot(n, key, j)
  {
    if ProbeSlot(n, key, i) == ProbeSlot(n, key, j) {
      ProbeInjective(n, key, i, j);
    }
  }

  /** The cell a call leaves in the slot its key is settled in. */
  function CellAfter(cell: Cell, maxVal: nat, key: CString, call: Call): (r: Cell)
    requires cell.c.Fits(maxVal)
    ensures r.c.Fits(maxVal)
  {
    if !MovesEpoch(call, maxVal) then cell
    else
      var op := match call
        case Rewrite(val, mode) => Set(key, val, mode, cell.c.hash == 0)
        case Extend(data) => Append(data)
        case Write(op) => op;
      Cell(Effect(op, cell.c, maxVal), Bumped(cell.epoch))
  }

  lemma CalledIs(v: View, maxVal: nat, key: CString, s: nat, call: Call)
    requires Fits(v, maxVal) && GoodKey(key) && Settled(v, key, s)
    ensures Called(v, maxVal, key, call) == v[s := CellAfter(v[s], maxVal, key, call)]
  {
  }

  lemma CallKeepsKey(cell: Cell, maxVal: nat, key: CString, call: Call)
    requires cell.c.Fits(maxVal) && GoodKey(key) && GoodCall(call) && Matches(cell.c, key) && cell.Idle()
    ensures var r := CellAfter(cell, maxVal, key, call);
      && Matches(r.c, key) && r.Idle()
      && r.epoch == (if MovesEpoch(call, maxVal) then Bumped(cell.epoch) else cell.epoch)
      && r.c.emb == VectorAfter(cell.c.emb, call, maxVal)
  {
    if call.Rewrite? && MovesEpoch(call, maxVal) {
      SetMatches(Set(key, call.val, call.mode, cell.c.hash == 0), cell.c, maxVal, key);
    }
  }

  lemma OneCall(v: View, maxVal: nat, key: CString, s: nat, call: Call)
    requires Fits(v, maxVal) && GoodKey(key) && GoodCall(call) && Settled(v, key, s)
    ensures var w := Called(v, maxVal, key, call);
      && Settled(w, key, s)
      && w[s].epoch == (if MovesEpoch(call, maxVal) then Bumped(v[s].epoch) else v[s].epoch)
      && w[s].c.emb == VectorAfter(v[s].c.emb, call, maxVal)
  {
    CalledIs(v, maxVal, key, s, call);
    CallKeepsKey(v[s], maxVal, key, call);
    RewriteSettled(v, key, s, CellAfter(v[s], maxVal, key, call));
  }

  /** Every call that moves the epoch moves it by two, and only set_embedding changes the embedding. */
  lemma {:induction false} LaterCalls(v: View, maxVal: nat, key: CString, s: nat, calls: seq<Call>)
    requires Fits(v, maxVal) && GoodKey(key) && GoodCalls(calls) && Settled(v, key, s)
    ensures var w := CalledAll(v, maxVal, key, calls);
      && Settled(w, key, s)
      && w[s].epoch == Later(v[s].epoch, Moves(calls, maxVal))
      && w[s].c.emb == LastVector(v[s].c.emb, calls, maxVal)
    decreases calls
  {
    LaterNext(v[s].epoch, 0);
    if calls != [] {
      OneCall(v, maxVal, key, s, calls[0]);
      LaterCalls(Called(v, maxVal, key, calls[0]), maxVal, key, s, calls[1..]);
      LaterNext(v[s].epoch, Moves(calls[1..], maxVal));
    }
  }

  // ---- After an unset --------------------------------------------------------------------------

  /** What a set makes of the slot it stops at. */
  lemma SetSettles(v: View, maxVal: nat, key: CString, val: seq<byte>, mode: ScrubMode)
    requires Fits(v, maxVal) && AllIdle(v) && GoodKey(key) && SetRc(v, maxVal, key, val) == Ok
    ensures var s, w := Target(v, key, true).value, SetView(v, maxVal, key, val, mode);
      && Settled(w, key, s) && w[s].epoch == Bumped(v[s].epoch) && w[s].c.Value() == val
      && w[s].c.emb == VectorOnSet(v[s].c)
  {
    var s := Target(v, key, true).value;
    var op := Set(key, val, mode, v[s].c.hash == 0);
    var cell := Cell(Effect(op, v[s].c, maxVal), Bumped(v[s].epoch));
    SetMatches(op, v[s].c, maxVal, key);
    SetStoresValue(op, v[s].c, maxVal);
    OthersBefore(v, key, FirstStop(v, key, true, 0), cell);
    OneCellStaysEven(v, s, cell);
    FirstStopIs(v[s := cell], key, true, FirstStop(v, key, true, 0));
    FirstStopIs(v[s := cell], key, false, FirstStop(v, key, true, 0));
  }

  lemma AfterUnset(v: View, maxVal: nat, key: CString, scrub: bool)
    requires Fits(v, maxVal) && AllIdle(v)
    ensures var u := UnsetView(v, maxVal, key, scrub);
      && AllIdle(u)
      && forall s :: Target(v, key, false) == Some(s) ==> u[s].epoch == 2 && u[s].c.hash == 0
  {
    EpochsStayEven(v, maxVal, DoUnset(key, scrub));
  }

  /** Lookups find slot `s` with this epoch; the skip test and the agreement follow from it and the embedding. */
  predicate Outcome(x: View, key: CString, s: nat, recorded: u64, epoch: u64, emb: seq<float32>,
                    model: seq<byte> -> seq<float32>)
    requires Shaped(x)
  {
    && Target(x, key, false) == Some(s)
    && EpochOf(x, key) == epoch
    && (Skips(recorded, x, key) <==> recorded >= epoch)
    && (InStep(x, key, model) <==> model(x[s].c.Value()) == emb)
  }

  /** The embedding a set leaves in the slot it takes: zeroes if it claimed the slot. */
  function VectorOnSet(c: Content): seq<float32> {
    if c.hash == 0 then ZeroVector() else c.emb
  }

  /**
   An unset, a set that may take any slot, and any calls on the key after it. The epoch counts on from the
   slot the set took; the loop skips the key exactly while its record is at least that, and is right to
   exactly if the embedding the slot has is the model's output on its value. A slot the set claimed has
   a zero embedding until one is stored.
   */
  lemma UnsetThenSet(v: View, maxVal: nat, key: CString, recorded: u64, val: seq<byte>, mode: ScrubMode, scrub: bool,
                     calls: seq<Call>, model: seq<byte> -> seq<float32>)
    requires Fits(v, maxVal) && AllIdle(v) && GoodKey(key) && GoodCalls(calls)
    requires SetRc(UnsetView(v, maxVal, key, scrub), maxVal, key, val) == Ok
    ensures var u := UnsetView(v, maxVal, key, scrub);
      var s := Target(u, key, true).value;
      && Outcome(CalledAll(SetView(u, maxVal, key, val, mode), maxVal, key, calls), key, s, recorded,
                 Later(u[s].epoch, Moves(calls, maxVal) + 1), LastVector(VectorOnSet(u[s].c), calls, maxVal), model)
      && SetView(u, maxVal, key, val, mode)[s].c.Value() == val
      && (Target(v, key, false) == Some(s) ==> u[s].epoch == 2 && u[s].c.hash == 0)
  {
    AfterUnset(v, maxVal, key, scrub);
    SetThenCalls(UnsetView(v, maxVal, key, scrub), maxVal, key, recorded, val, mode, calls, model);
  }

  lemma SetThenCalls(u: View, maxVal: nat, key: CString, recorded: u64, val: seq<byte>, mode: ScrubMode,
                     calls: seq<Call>, model: seq<byte> -> seq<float32>)
    requires Fits(u, maxVal) && AllIdle(u) && GoodKey(key) && GoodCalls(calls) && SetRc(u, maxVal, key, val) == Ok
    ensures var s := Target(u, key, true).value;
      && Outcome(CalledAll(SetView(u, maxVal, key, val, mode), maxVal, key, calls), key, s, recorded,
                 Later(u[s].epoch, Moves(calls, maxVal) + 1), LastVector(VectorOnSet(u[s].c), calls, maxVal), model)
      && SetView(u, maxVal, key, val, mode)[s].c.Value() == val
  {
    var s := Target(u, key, true).value;
    SetSettles(u, maxVal, key, val, mode);
    LaterNext(u[s].epoch, Moves(calls, maxVal));
    SettledThen(SetView(u, maxVal, key, val, mode), maxVal, key, s, recorded, calls, model);
  }

  /** The skip test and the embedding after some calls on a key settled in slot `s`. */
  lemma SettledThen(w: View, maxVal: nat, key: CString, s: nat, recorded: u64, calls: seq<Call>,
                    model: seq<byte> -> seq<float32>)
    requires Fits(w, maxVal) && GoodKey(key) && GoodCalls(calls) && Settled(w, key, s)
    ensures Outcome(CalledAll(w, maxVal, key, calls), key, s, recorded,
                    Later(w[s].epoch, Moves(calls, maxVal)), LastVector(w[s].c.emb, calls, maxVal), model)
  {
    LaterCalls(w, maxVal, key, s, calls);
  }

  /**
   In particular, when the set takes the unset slot again, a record of `r` hides the first `(r - 4) / 2` writes
   after the set.
   */
  lemma SameSlotAgain(v: View, maxVal: nat, key: CString, recorded: u64, val: seq<byte>, mode: ScrubMode, scrub: bool,
                      calls: seq<Call>)
    requires Fits(v, maxVal) && AllIdle(v) && GoodKey(key) && GoodCalls(calls) && 0 < |val| <= maxVal
    requires Target(v, key, false).Some?
    requires Target(UnsetView(v, maxVal, key, scrub), key, true) == Target(v, key, false)
    requires 4 + 2 * Moves(calls, maxVal) < MOD64
    ensures var x := CalledAll(SetView(UnsetView(v, maxVal, key, scrub), maxVal, key, val, mode), maxVal, key, calls);
      Skips(recorded, x, key) <==> 4 + 2 * Moves(calls, maxVal) <= recorded
  {
    UnsetThenSet(v, maxVal, key, recorded, val, mode, scrub, calls, x => ZeroVector());
    LaterFits(2, Moves(calls, maxVal) + 1);
  }

  // ---- After a retrain, and on a system slot ---------------------------------------------------

  /** `splinter_retrain_slot`: the embedding is zeroed and the epoch set to 4. */
  function RetrainView(v: View, maxVal: nat, key: CString): View
    requires Fits(v, maxVal)
  {
    match Target(v, key, false)
    case None => v
    case Some(s) => v[s := Cell(v[s].c.(emb := ZeroVector()), 4)]
  }

  /** The same after a retrain: the key is skipped, although its embedding was taken away. */
  lemma RetrainIsSkipped(v: View, maxVal: nat, key: CString, s: nat, recorded: u64, calls: seq<Call>,
                         model: seq<byte> -> seq<float32>)
    requires Fits(v, maxVal) && GoodKey(key) && Settled(v, key, s) && GoodCalls(calls)
    ensures var w := RetrainView(v, maxVal, key);
      && Fits(w, maxVal) && w[s].c.Value() == v[s].c.Value() && w == v[s := w[s]]
      && Outcome(CalledAll(w, maxVal, key, calls), key, s, recorded,
                 Later(4, Moves(calls, maxVal)), LastVector(ZeroVector(), calls, maxVal), model)
  {
    var cell := Cell(v[s].c.(emb := ZeroVector()), 4);
    RewriteSettled(v, key, s, cell);
    SettledThen(v[s := cell], maxVal, key, s, recorded, calls, model);
  }

  /** The first matching slot in index order. */
  function FirstMatch(v: View, key: CString, i: nat): (j: nat)
    requires i <= |v| && Shaped(v)
    ensures i <= j <= |v| && (j < |v| ==> Matches(v[j].c, key))
    ensures forall h :: i <= h < j ==> !Matches(v[h].c, key)
    decreases |v| - i
  {
    if i == |v| || Matches(v[i].c, key) then i else FirstMatch(v, key, i + 1)
  }

  /** `splinter_set_as_system`: the value becomes the whole region and the epoch stays as it is. */
  function SystemView(v: View, maxVal: nat, key: CString): (w: View)
    requires Fits(v, maxVal)
    ensures Fits(w, maxVal) && |w| == |v|
  {
    var i := FirstMatch(v, key, 0);
    if i == |v| then v else v[i := v[i].(c := v[i].c.(len := maxVal))]
  }

  /**
   When the slot marked is the one lookups find, every record made before still skips it, although its
   value is now the whole region.
   */
  lemma SystemIsSkipped(v: View, maxVal: nat, key: CString, s: nat, recorded: u64, model: seq<byte> -> seq<float32>)
    requires Fits(v, maxVal) && Target(v, key, false) == Some(s) && FirstMatch(v, key, 0) == s
    ensures var w := SystemView(v, maxVal, key);
      && (Skips(recorded, w, key) <==> Skips(recorded, v, key))
      && (InStep(w, key, model) <==> model(v[s].c.bytes) == v[s].c.emb)
  {
    var w := SystemView(v, maxVal, key);
    var j := FirstStop(v, key, false, 0);
    forall h | 0 <= h < j
      ensures !Stops(w[ProbeSlot(|v|, key, h)], key, false)
    {
      assert !Stops(v[ProbeSlot(|v|, key, h)], key, false);
    }
    FirstStopIs(w, key, false, j);
    assert w[s].c.Value() == v[s].c.bytes;
  }

  // ---- A run -----------------------------------------------------------------------------------

  /** Set, embed, unset, set on a store nobody has written yet. */
  lemma ResetRun(v: View, maxVal: nat, key: CString, val1: seq<byte>, val2: seq<byte>,
                 model: seq<byte> -> seq<float32>)
    requires Fits(v, maxVal) && Empty(v) && forall s :: 0 <= s < |v| ==> v[s].epoch == 0
    requires GoodKey(key) && 0 < |val1| <= maxVal && 0 < |val2| <= maxVal && |model(val1)| == EMBED_DIM
    ensures var embedded := WriteView(Put(v, maxVal, key, val1), maxVal, key, SetEmbedding(model(val1)));
      var recorded := EpochOf(embedded, key);
      var w := Put(UnsetView(embedded, maxVal, key, true), maxVal, key, val2);
      && InStep(embedded, key, model)
      && recorded == 4 && Skips(recorded, w, key)
      && (InStep(w, key, model) <==> model(val2) == ZeroVector())
  {
    var s := ProbeSlot(|v|, key, 0);
    SetLands(v, maxVal, key, val1, 0);
    SetSettles(v, maxVal, key, val1, NoScrub);
    EmbeddedRun(Put(v, maxVal, key, val1), maxVal, key, s, val1, val2, model);
  }

  lemma EmbeddedRun(v1: View, maxVal: nat, key: CString, s: nat, val1: seq<byte>, val2: seq<byte>,
                    model: seq<byte> -> seq<float32>)
    requires Fits(v1, maxVal) && GoodKey(key) && 0 < |val2| <= maxVal && |model(val1)| == EMBED_DIM
    requires s == ProbeSlot(|v1|, key, 0) && Settled(v1, key, s)
    requires v1[s].epoch == 2 && v1[s].c.Value() == val1
    ensures var embedded := WriteView(v1, maxVal, key, SetEmbedding(model(val1)));
      var w := Put(UnsetView(embedded, maxVal, key, true), maxVal, key, val2);
      && InStep(embedded, key, model) && EpochOf(embedded, key) == 4 && Skips(4, w, key)
      && (InStep(w, key, model) <==> model(val2) == ZeroVector())
  {
    var embed := Write(SetEmbedding(model(val1)));
    CalledIs(v1, maxVal, key, s, embed);
    CallKeepsKey(v1[s], maxVal, key, embed);
    var cell := CellAfter(v1[s], maxVal, key, embed);
    RewriteSettled(v1, key, s, cell);
    var embedded := v1[s := cell];
    assert embedded == WriteView(v1, maxVal, key, SetEmbedding(model(val1)));
    SetAgain(embedded, maxVal, key, s, val2, model);
  }

  lemma SetAgain(v: View, maxVal: nat, key: CString, s: nat, val: seq<byte>, model: seq<byte> -> seq<float32>)
    requires Fits(v, maxVal) && GoodKey(key) && 0 < |val| <= maxVal
    requires s == ProbeSlot(|v|, key, 0) && Settled(v, key, s)
    ensures var w := Put(UnsetView(v, maxVal, key, true), maxVal, key, val);
      Skips(4, w, key) && (InStep(w, key, model) <==> model(val) == ZeroVector())
  {
    var u := UnsetView(v, maxVal, key, true);
    assert u[s] == UnsetCell(v[s].c, true);
    assert FirstStop(u, key, true, 0) == 0;
    UnsetThenSet(v, maxVal, key, 4, val, NoScrub, true, [], model);
  }
}
