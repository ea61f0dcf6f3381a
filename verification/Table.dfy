/**
 The open-addressed table as a value: where a key is probed for, which slot each operation picks,
 what the operations do to the table, and the stack of values each key has in it.
 */
module Table {
  import opened Bytes
  import opened Options
  import opened SlotEffects
  import Fnv

  /** One slot as an operation finds it. */
  datatype Cell = Cell(c: Content, epoch: u64)
  {
    predicate Idle() { epoch % 2 == 0 }
  }

  type View = v: seq<Cell> | |v| > 0 witness [Cell(Content(0, [], 0, [], []), 0)]

  predicate Fits(v: View, maxVal: nat) {
    forall s :: 0 <= s < |v| ==> v[s].c.Fits(maxVal)
  }

  /** The part of `Fits` that does not depend on the region size. */
  predicate Shaped(v: View) {
    forall s :: 0 <= s < |v| ==> |v[s].c.key| == KEY_MAX && v[s].c.len <= |v[s].c.bytes|
  }

  predicate AllIdle(v: View) {
    forall s :: 0 <= s < |v| ==> v[s].Idle()
  }

  /** `strncmp(buf, key, 64) == 0`. */
  predicate KeyEquals(buf: seq<byte>, key: CString)
    requires |buf| == KEY_MAX
  {
    && (forall j :: 0 <= j < KEY_MAX && j < |key| ==> buf[j] == key[j])
    && (|key| < KEY_MAX ==> buf[|key|] == 0)
  }

  predicate Matches(c: Content, key: CString)
    requires |c.key| == KEY_MAX
  {
    c.hash == Fnv.Hash(key) && KeyEquals(c.key, key)
  }

  /** The slot `(idx + i) % slots` of the probe sequence that starts at hash `h`. */
  function ProbeFrom(h: u64, n: nat, i: nat): (s: nat)
    requires n > 0
    ensures s < n
  {
    (h % n + i) % n
  }

  function ProbeSlot(n: nat, key: CString, i: nat): (s: nat)
    requires n > 0
    ensures s < n
  {
    ProbeFrom(Fnv.Hash(key), n, i)
  }

  /** Whether the probe of `splinter_set` (`claim`) or of a lookup stops at this slot. */
  predicate Stops(cell: Cell, key: CString, claim: bool)
    requires |cell.c.key| == KEY_MAX
  {
    if claim then (cell.c.hash == 0 || Matches(cell.c, key)) && cell.Idle() else Matches(cell.c, key)
  }

  /** The first probe offset from `i` on at which the probe stops; `|v|` when it never does. */
  function FirstStop(v: View, key: CString, claim: bool, i: nat): (j: nat)
    requires i <= |v| && Shaped(v)
    ensures i <= j <= |v|
    ensures forall h :: i <= h < j ==> !Stops(v[ProbeSlot(|v|, key, h)], key, claim)
    ensures j < |v| ==> Stops(v[ProbeSlot(|v|, key, j)], key, claim)
    decreases |v| - i
  {
    if i == |v| || Stops(v[ProbeSlot(|v|, key, i)], key, claim) then i
    else FirstStop(v, key, claim, i + 1)
  }

  function Target(v: View, key: CString, claim: bool): (t: Option<nat>)
    requires Shaped(v)
    ensures t.Some? ==> t.value < |v| && Stops(v[t.value], key, claim)
  {
    var j := FirstStop(v, key, claim, 0);
    if j < |v| then Some(ProbeSlot(|v|, key, j)) else None
  }

  /** The probe stops first where a scan found its first stop. */
  lemma FirstStopIs(v: View, key: CString, claim: bool, i: nat)
    requires Shaped(v) && i <= |v|
    requires forall h :: 0 <= h < i ==> !Stops(v[ProbeSlot(|v|, key, h)], key, claim)
    requires i < |v| ==> Stops(v[ProbeSlot(|v|, key, i)], key, claim)
    ensures FirstStop(v, key, claim, 0) == i
  {
    var j := FirstStop(v, key, claim, 0);
    assert j < |v| ==> Stops(v[ProbeSlot(|v|, key, j)], key, claim);
  }

  // ---- The operations --------------------------------------------------------------------------

  datatype Rc = Ok | Einval | Emsgsize | Enospc | Eagain | Eprototype | NotFound | BadCall

  /** `atomic_fetch_add(&slot->epoch, 1)`. */
  function Ticked(e: u64): (r: u64)
    ensures r % 2 != e % 2
  {
    (e + 1) % MOD64
  }

  /** The epoch after a write: taken odd, released even. */
  function Bumped(e: u64): (r: u64)
    ensures r % 2 == e % 2
  {
    Ticked(Ticked(e))
  }

  /** A set could have used the slot at this probe offset, but it was mid-write. */
  predicate Busy(v: View, key: CString, i: nat)
    requires i < |v| && Shaped(v)
  {
    var cell := v[ProbeSlot(|v|, key, i)];
    !cell.Idle() && (cell.c.hash == 0 || Matches(cell.c, key))
  }

  predicate Contended(v: View, key: CString)
    requires Shaped(v)
  {
    exists i :: 0 <= i < |v| && Busy(v, key, i)
  }

  function SetRc(v: View, maxVal: nat, key: CString, val: seq<byte>): Rc
    requires Fits(v, maxVal)
  {
    if val == [] then Einval
    else if |val| > maxVal then Emsgsize
    else if Target(v, key, true).Some? then Ok
    else if Contended(v, key) then Eagain else Enospc
  }

  function SetView(v: View, maxVal: nat, key: CString, val: seq<byte>, mode: ScrubMode): (v': View)
    requires Fits(v, maxVal)
    ensures Fits(v', maxVal) && |v'| == |v|
  {
    if SetRc(v, maxVal, key, val) != Ok then v
    else
      var s := Target(v, key, true).value;
      v[s := Cell(Effect(Set(key, val, mode, v[s].c.hash == 0), v[s].c, maxVal), Bumped(v[s].epoch))]
  }

  /** The answer of `splinter_get` for a caller's buffer of `room` bytes, or for no buffer. */
  function GetRc(v: View, key: CString, room: Option<nat>): Rc
    requires Shaped(v)
  {
    match Target(v, key, false)
    case None => NotFound
    case Some(s) =>
      if !v[s].Idle() then Eagain
      else if room.Some? && room.value < v[s].c.len then Emsgsize else Ok
  }

  function AppendRc(v: View, maxVal: nat, key: CString, data: seq<byte>): Rc
    requires Fits(v, maxVal)
  {
    if data == [] then BadCall
    else match Target(v, key, false)
      case None => NotFound
      case Some(s) =>
        if !v[s].Idle() then Eagain
        else if v[s].c.len + |data| > maxVal then Emsgsize else Ok
  }

  function AppendView(v: View, maxVal: nat, key: CString, data: seq<byte>): (v': View)
    requires Fits(v, maxVal)
    ensures Fits(v', maxVal) && |v'| == |v|
  {
    var rc := AppendRc(v, maxVal, key, data);
    if rc != Ok && rc != Emsgsize then v
    else
      var s := Target(v, key, false).value;
      v[s := Cell(Effect(Append(data), v[s].c, maxVal), Bumped(v[s].epoch))]
  }

  function UnsetRc(v: View, maxVal: nat, key: CString): Rc
    requires Fits(v, maxVal)
  {
    match Target(v, key, false)
    case None => NotFound
    case Some(s) => if v[s].Idle() then Ok else Eagain
  }

  /** The slot after `splinter_unset`; the epoch restarts at 2. */
  function UnsetCell(c: Content, autoScrub: bool): Cell
    requires |c.key| == KEY_MAX
  {
    Cell(Content(0, if autoScrub then Zeros(KEY_MAX) else c.key[0 := 0], 0,
                 if autoScrub then Zeros(|c.bytes|) else c.bytes, ZeroVector()), 2)
  }

  function UnsetView(v: View, maxVal: nat, key: CString, autoScrub: bool): (v': View)
    requires Fits(v, maxVal)
    ensures Fits(v', maxVal) && |v'| == |v|
  {
    if UnsetRc(v, maxVal, key) != Ok then v
    else
      var s := Target(v, key, false).value;
      v[s := UnsetCell(v[s].c, autoScrub)]
  }

  function PurgeCell(cell: Cell, maxVal: nat): (r: Cell)
    requires cell.c.Fits(maxVal)
    ensures r.c.Fits(maxVal)
  {
    if cell.Idle() then Cell(Effect(Purge, cell.c, maxVal), Bumped(cell.epoch)) else cell
  }

  function PurgeView(v: View, maxVal: nat): (v': View)
    requires Fits(v, maxVal)
    ensures Fits(v', maxVal) && |v'| == |v|
  {
    seq(|v|, s requires 0 <= s < |v| => PurgeCell(v[s], maxVal))
  }

  // ---- Keys ------------------------------------------------------------------------------------

  /** The keys the table treats as keys: short enough to be stored whole, and not hashing to "empty". */
  predicate GoodKey(key: CString) {
    |key| < KEY_MAX && Fnv.Hash(key) != 0
  }

  /** A key of 64 bytes or more is stored truncated and never found again. */
  lemma LongKeysNeverMatch(c: Content, key: CString, maxVal: nat)
    requires c.Fits(maxVal) && |key| >= KEY_MAX
    ensures !Matches(c, key)
  {
    assert key[KEY_MAX - 1] != 0;
  }

  lemma MatchDeterminesKey(c: Content, k1: CString, k2: CString)
    requires |c.key| == KEY_MAX && GoodKey(k1) && GoodKey(k2)
    ensures Matches(c, k1) && Matches(c, k2) ==> k1 == k2
  {
    if |k1| < |k2| {
      assert k2[|k1|] != 0;
    } else if |k2| < |k1| {
      assert k1[|k2|] != 0;
    }
  }

  /** A set stores a good key so that it, and only it, is found. */
  lemma SetMatches(op: Op, c: Content, maxVal: nat, k2: CString)
    requires op.Set? && op.Allowed(maxVal) && c.Fits(maxVal) && GoodKey(op.key) && GoodKey(k2)
    ensures Matches(Effect(op, c, maxVal), k2) <==> k2 == op.key
  {
    var r := Effect(op, c, maxVal);
    assert r.key == PadKey(op.key);
    assert Matches(r, op.key);
    MatchDeterminesKey(r, op.key, k2);
  }

  // ---- Probe order -----------------------------------------------------------------------------

  lemma ModOnce(y: nat, n: nat)
    requires 0 < n && y < 2 * n
    ensures y % n == if y < n then y else y - n
  {
    if y >= n {
      assert y == n + (y - n);
      assert (y - n) % n == y - n;
    }
  }

  lemma ProbeInjective(n: nat, key: CString, i: nat, j: nat)
    requires i < n && j < n && ProbeSlot(n, key, i) == ProbeSlot(n, key, j)
    ensures i == j
  {
    ModOnce(Fnv.Hash(key) % n + i, n);
    ModOnce(Fnv.Hash(key) % n + j, n);
  }

  /** The probe visits every slot. */
  lemma ProbeReaches(n: nat, key: CString, s: nat) returns (i: nat)
    requires s < n
    ensures i < n && ProbeSlot(n, key, i) == s
  {
    var idx := Fnv.Hash(key) % n;
    i := if idx <= s then s - idx else s + n - idx;
    ModOnce(idx + i, n);
  }

  // ---- Stacks of values ------------------------------------------------------------------------

  /** The value at probe offset `i` if it is stored under `key`. */
  function Here(v: View, key: CString, i: nat): seq<seq<byte>>
    requires i < |v| && Shaped(v)
  {
    var c := v[ProbeSlot(|v|, key, i)].c;
    if Matches(c, key) then [c.Value()] else []
  }

  /** The values stored under `key`, in probe order: the first one shadows the others. */
  function StackFrom(v: View, key: CString, i: nat): seq<seq<byte>>
    requires i <= |v| && Shaped(v)
    decreases |v| - i
  {
    if i == |v| then [] else Here(v, key, i) + StackFrom(v, key, i + 1)
  }

  function Stack(v: View, key: CString): seq<seq<byte>>
    requires Shaped(v)
  {
    StackFrom(v, key, 0)
  }

  /** Rewriting a slot changes what one probe offset of a key contributes, and nothing else. */
  lemma HereAfter(v: View, key: CString, s: nat, cell: Cell, j: nat, i: nat)
    requires Shaped(v) && j < |v| && s == ProbeSlot(|v|, key, j) && i < |v|
    requires |cell.c.key| == KEY_MAX && cell.c.len <= |cell.c.bytes|
    ensures Here(v[s := cell], key, i)
         == if i != j then Here(v, key, i) else if Matches(cell.c, key) then [cell.c.Value()] else []
  {
    if i != j && ProbeSlot(|v|, key, i) == s {
      ProbeInjective(|v|, key, i, j);
    }
  }

  /** What a rewritten slot may be replaced with. */
  predicate CellShaped(cell: Cell) {
    |cell.c.key| == KEY_MAX && cell.c.len <= |cell.c.bytes|
  }

  lemma {:induction false} StackBeyond(v: View, key: CString, s: nat, cell: Cell, j: nat, i: nat)
    requires Shaped(v) && CellShaped(cell) && j < i <= |v| && s == ProbeSlot(|v|, key, j)
    ensures StackFrom(v[s := cell], key, i) == StackFrom(v, key, i)
    decreases |v| - i
  {
    if i < |v| {
      HereAfter(v, key, s, cell, j, i);
      StackBeyond(v, key, s, cell, j, i + 1);
    }
  }

  lemma {:induction false} StackSkips(v: View, key: CString, i: nat, j: nat)
    requires Shaped(v) && i <= j <= |v|
    requires forall h :: i <= h < j ==> Here(v, key, h) == []
    ensures StackFrom(v, key, i) == StackFrom(v, key, j)
    decreases j - i
  {
    if i < j {
      StackSkips(v, key, i + 1, j);
    }
  }

  /** Rewriting the first slot that can matter to a key rewrites the top of its stack. */
  lemma StackTopAfter(v: View, key: CString, s: nat, cell: Cell, j: nat)
    requires Shaped(v) && CellShaped(cell) && j < |v| && s == ProbeSlot(|v|, key, j)
    requires forall h :: 0 <= h < j ==> Here(v, key, h) == []
    ensures Stack(v, key) == Here(v, key, j) + StackFrom(v, key, j + 1)
    ensures Stack(v[s := cell], key)
         == (if Matches(cell.c, key) then [cell.c.Value()] else []) + StackFrom(v, key, j + 1)
  {
    var v' := v[s := cell];
    forall h | 0 <= h < j
      ensures Here(v', key, h) == []
    {
      HereAfter(v, key, s, cell, j, h);
    }
    StackSkips(v, key, 0, j);
    StackSkips(v', key, 0, j);
    HereAfter(v, key, s, cell, j, j);
    StackBeyond(v, key, s, cell, j, j + 1);
  }

  /** Rewriting a slot that neither held nor now holds a key leaves that key's stack alone. */
  lemma {:induction false} StackUntouched(v: View, key: CString, s: nat, cell: Cell, i: nat)
    requires Shaped(v) && CellShaped(cell) && s < |v| && i <= |v|
    requires !Matches(v[s].c, key) && !Matches(cell.c, key)
    ensures StackFrom(v[s := cell], key, i) == StackFrom(v, key, i)
    decreases |v| - i
  {
    if i < |v| {
      StackUntouched(v, key, s, cell, i + 1);
      assert Here(v[s := cell], key, i) == Here(v, key, i);
    }
  }

  /** A key is absent exactly when its stack is empty; otherwise lookups see the top of the stack. */
  lemma TargetIsTop(v: View, key: CString)
    requires Shaped(v)
    ensures var j := FirstStop(v, key, false, 0);
      && (j == |v| <==> Stack(v, key) == [])
      && (j < |v| ==> Stack(v, key) == [v[ProbeSlot(|v|, key, j)].c.Value()] + StackFrom(v, key, j + 1))
  {
    var j := FirstStop(v, key, false, 0);
    forall h | 0 <= h < j
      ensures Here(v, key, h) == []
    {
      assert !Stops(v[ProbeSlot(|v|, key, h)], key, false);
    }
    StackSkips(v, key, 0, j);
  }
}
