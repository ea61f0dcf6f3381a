/** What the table operations mean: every key owns a stack of values, and scrubbing keeps tails zero. */
module TableLaws {
  import opened Bytes
  import opened Options
  import opened SlotEffects
  import opened Table

  // ---- One operation on one key's stack --------------------------------------------------------

  lemma SetStoresValue(op: Op, c: Content, maxVal: nat)
    requires op.Set? && op.Allowed(maxVal) && c.Fits(maxVal)
    ensures Effect(op, c, maxVal).Value() == op.val
  {
    assert SetRegion(c.bytes, op.val, op.mode)[..|op.val|] == op.val;
  }

  lemma AppendExtendsValue(data: seq<byte>, c: Content, maxVal: nat)
    requires 0 < |data| && c.Fits(maxVal) && c.len + |data| <= maxVal
    ensures Effect(Append(data), c, maxVal).Value() == c.Value() + data
  {
    assert Splice(c.bytes, c.len, data)[..c.len + |data|] == c.bytes[..c.len] + data;
  }

  /** The set claims an empty slot rather than overwriting the key's own. */
  predicate Pushes(v: View, key: CString)
    requires Shaped(v)
  {
    Target(v, key, true).Some? && v[Target(v, key, true).value].c.hash == 0
  }

  lemma NothingBeforeClaim(v: View, key: CString)
    requires Shaped(v) && AllIdle(v)
    ensures forall h :: 0 <= h < FirstStop(v, key, true, 0) ==> Here(v, key, h) == []
  {
    forall h | 0 <= h < FirstStop(v, key, true, 0)
      ensures Here(v, key, h) == []
    {
      assert !Stops(v[ProbeSlot(|v|, key, h)], key, true);
    }
  }

  /** Writing a good key's value over the first slot a set may use. */
  lemma ClaimOnStack(v: View, key: CString, cell: Cell)
    requires Shaped(v) && AllIdle(v) && CellShaped(cell) && GoodKey(key) && Matches(cell.c, key)
    requires Target(v, key, true).Some?
    ensures !Pushes(v, key) ==> Stack(v, key) != []
    ensures Stack(v[Target(v, key, true).value := cell], key)
         == [cell.c.Value()] + if Pushes(v, key) then Stack(v, key) else Stack(v, key)[1..]
  {
    var j := FirstStop(v, key, true, 0);
    NothingBeforeClaim(v, key);
    StackTopAfter(v, key, ProbeSlot(|v|, key, j), cell, j);
  }

  /** `splinter_set` replaces the top of its key's stack, or pushes a new top. */
  lemma SetOnOwnStack(v: View, maxVal: nat, key: CString, val: seq<byte>, mode: ScrubMode)
    requires Fits(v, maxVal) && AllIdle(v) && GoodKey(key)
    requires SetRc(v, maxVal, key, val) == Ok
    ensures !Pushes(v, key) ==> Stack(v, key) != []
    ensures Stack(SetView(v, maxVal, key, val, mode), key)
         == [val] + if Pushes(v, key) then Stack(v, key) else Stack(v, key)[1..]
  {
    var s := Target(v, key, true).value;
    var op := Set(key, val, mode, v[s].c.hash == 0);
    SetMatches(op, v[s].c, maxVal, key);
    SetStoresValue(op, v[s].c, maxVal);
    ClaimOnStack(v, key, SetView(v, maxVal, key, val, mode)[s]);
  }

  lemma SetOnOtherStack(v: View, maxVal: nat, key: CString, val: seq<byte>, mode: ScrubMode, other: CString)
    requires Fits(v, maxVal) && GoodKey(key) && GoodKey(other) && other != key
    ensures Stack(SetView(v, maxVal, key, val, mode), other) == Stack(v, other)
  {
    if SetRc(v, maxVal, key, val) == Ok {
      var s := Target(v, key, true).value;
      var op := Set(key, val, mode, v[s].c.hash == 0);
      var cell := Cell(Effect(op, v[s].c, maxVal), Bumped(v[s].epoch));
      SetMatches(op, v[s].c, maxVal, other);
      MatchDeterminesKey(v[s].c, key, other);
      StackUntouched(v, other, s, cell, 0);
      assert SetView(v, maxVal, key, val, mode) == v[s := cell];
    }
  }

  /** `splinter_append` extends the top of its key's stack, or changes no value at all. */
  lemma AppendOnStack(v: View, maxVal: nat, key: CString, data: seq<byte>, other: CString)
    requires Fits(v, maxVal) && AllIdle(v) && GoodKey(key) && GoodKey(other) && data != []
    ensures AppendRc(v, maxVal, key, data) ==
      if Stack(v, key) == [] then NotFound
      else if |Stack(v, key)[0]| + |data| > maxVal then Emsgsize else Ok
    ensures Stack(AppendView(v, maxVal, key, data), other) ==
      if other != key || AppendRc(v, maxVal, key, data) != Ok then Stack(v, other)
      else [Stack(v, key)[0] + data] + Stack(v, key)[1..]
  {
    TargetIsTop(v, key);
    var j := FirstStop(v, key, false, 0);
    if j < |v| {
      var s := ProbeSlot(|v|, key, j);
      var cell := Cell(Effect(Append(data), v[s].c, maxVal), Bumped(v[s].epoch));
      if v[s].c.len + |data| <= maxVal {
        AppendExtendsValue(data, v[s].c, maxVal);
      }
      StackTopAfter(v, key, s, cell, j);
      if other != key {
        MatchDeterminesKey(v[s].c, key, other);
        StackUntouched(v, other, s, cell, 0);
      }
    }
  }

  /** `splinter_unset` pops its key's stack, uncovering an older copy if there is one. */
  lemma UnsetOnStack(v: View, maxVal: nat, key: CString, autoScrub: bool, other: CString)
    requires Fits(v, maxVal) && AllIdle(v) && GoodKey(key) && GoodKey(other)
    ensures UnsetRc(v, maxVal, key) == if Stack(v, key) == [] then NotFound else Ok
    ensures Stack(UnsetView(v, maxVal, key, autoScrub), other) ==
      if other != key || Stack(v, key) == [] then Stack(v, other) else Stack(v, key)[1..]
  {
    TargetIsTop(v, key);
    var j := FirstStop(v, key, false, 0);
    if j < |v| {
      var s := ProbeSlot(|v|, key, j);
      var cell := UnsetCell(v[s].c, autoScrub);
      StackTopAfter(v, key, s, cell, j);
      if other != key {
        MatchDeterminesKey(v[s].c, key, other);
        StackUntouched(v, other, s, cell, 0);
      }
    }
  }

  /** `splinter_purge` changes no stack. */
  lemma {:induction false} PurgeOnStack(v: View, maxVal: nat, key: CString, i: nat)
    requires Fits(v, maxVal) && GoodKey(key) && i <= |v|
    ensures StackFrom(PurgeView(v, maxVal), key, i) == StackFrom(v, key, i)
    decreases |v| - i
  {
    if i < |v| {
      var c := v[ProbeSlot(|v|, key, i)].c;
      PurgeOnStack(v, maxVal, key, i + 1);
      PurgeKeepsValue(v[ProbeSlot(|v|, key, i)], maxVal);
      assert Here(PurgeView(v, maxVal), key, i) == Here(v, key, i);
    }
  }

  lemma PurgeKeepsValue(cell: Cell, maxVal: nat)
    requires cell.c.Fits(maxVal)
    ensures var r := PurgeCell(cell, maxVal).c;
      && r.hash == cell.c.hash && r.key == cell.c.key && r.len == cell.c.len && r.emb == cell.c.emb
      && (cell.c.hash != 0 ==> r.Value() == cell.c.Value())
  {
    if cell.c.hash != 0 {
      assert ClearFrom(cell.c.bytes, cell.c.len)[..cell.c.len] == cell.c.bytes[..cell.c.len];
    }
  }

  /** Among idle slots, a set of a fitting value is refused exactly when its key is absent and no slot is empty. */
  lemma SetRefusesWhenFull(v: View, maxVal: nat, key: CString, val: seq<byte>)
    requires Fits(v, maxVal) && AllIdle(v) && 0 < |val| <= maxVal
    ensures SetRc(v, maxVal, key, val) == Ok || SetRc(v, maxVal, key, val) == Enospc
    ensures SetRc(v, maxVal, key, val) == Enospc <==>
      Stack(v, key) == [] && forall s :: 0 <= s < |v| ==> v[s].c.hash != 0
  {
    TargetIsTop(v, key);
    var j := FirstStop(v, key, true, 0);
    if j == |v| {
      forall s | 0 <= s < |v|
        ensures v[s].c.hash != 0
      {
        var i := ProbeReaches(|v|, key, s);
      }
    }
  }

  // ---- Every run refines a map from keys to stacks ---------------------------------------------

  datatype Command =
    | DoSet(key: CString, val: seq<byte>, mode: ScrubMode)
    | DoAppend(key: CString, val: seq<byte>)
    | DoUnset(key: CString, autoScrub: bool)
    | DoPurge

  predicate GoodCommand(cmd: Command) {
    cmd.DoPurge? || GoodKey(cmd.key)
  }

  function Apply(v: View, maxVal: nat, cmd: Command): (v': View)
    requires Fits(v, maxVal)
    ensures Fits(v', maxVal) && |v'| == |v|
  {
    match cmd
    case DoSet(key, val, mode) => SetView(v, maxVal, key, val, mode)
    case DoAppend(key, val) => AppendView(v, maxVal, key, val)
    case DoUnset(key, autoScrub) => UnsetView(v, maxVal, key, autoScrub)
    case DoPurge => PurgeView(v, maxVal)
  }

  function ApplyAll(v: View, maxVal: nat, cmds: seq<Command>): (v': View)
    requires Fits(v, maxVal)
    ensures Fits(v', maxVal) && |v'| == |v|
    decreases cmds
  {
    if cmds == [] then v else ApplyAll(Apply(v, maxVal, cmds[0]), maxVal, cmds[1..])
  }

  /** The specification: what a command does to one key's stack. `pushed` resolves the one free choice. */
  function StackAfter(stack: seq<seq<byte>>, mine: bool, cmd: Command, maxVal: nat, room: bool, pushed: bool)
    : seq<seq<byte>>
    requires mine && cmd.DoSet? && !pushed && room ==> stack != []
  {
    if !mine then stack
    else match cmd
      case DoSet(_, val, _) =>
        if !(0 < |val| <= maxVal && room) then stack
        else if pushed then [val] + stack else [val] + stack[1..]
      case DoAppend(_, val) =>
        if stack == [] || val == [] || |stack[0]| + |val| > maxVal then stack
        else [stack[0] + val] + stack[1..]
      case DoUnset(_, _) => if stack == [] then [] else stack[1..]
      case DoPurge => stack
  }

  predicate Room(v: View, key: CString)
    requires Shaped(v)
  {
    Target(v, key, true).Some?
  }

  lemma OneCellStaysEven(v: View, s: nat, cell: Cell)
    requires AllIdle(v) && s < |v| && cell.Idle()
    ensures AllIdle(v[s := cell])
  {
  }

  lemma EpochsStayEven(v: View, maxVal: nat, cmd: Command)
    requires Fits(v, maxVal) && AllIdle(v)
    ensures AllIdle(Apply(v, maxVal, cmd))
  {
    match cmd
    case DoSet(key, val, mode) =>
      if SetRc(v, maxVal, key, val) == Ok {
        var s := Target(v, key, true).value;
        OneCellStaysEven(v, s, SetView(v, maxVal, key, val, mode)[s]);
      }
    case DoAppend(key, val) =>
      if Target(v, key, false).Some? {
        var s := Target(v, key, false).value;
        OneCellStaysEven(v, s, AppendView(v, maxVal, key, val)[s]);
      }
    case DoUnset(key, autoScrub) =>
      if Target(v, key, false).Some? {
        var s := Target(v, key, false).value;
        OneCellStaysEven(v, s, UnsetCell(v[s].c, autoScrub));
      }
    case DoPurge =>
      assert forall s :: 0 <= s < |v| ==> PurgeCell(v[s], maxVal).Idle();
  }

  /** Every operation refines its specification on every key's stack, and leaves every epoch even. */
  lemma CommandRefinesStacks(v: View, maxVal: nat, cmd: Command, key: CString)
    requires Fits(v, maxVal) && AllIdle(v) && GoodCommand(cmd) && GoodKey(key)
    ensures AllIdle(Apply(v, maxVal, cmd))
    ensures Room(v, key) && !Pushes(v, key) ==> Stack(v, key) != []
    ensures Stack(Apply(v, maxVal, cmd), key) ==
      StackAfter(Stack(v, key), !cmd.DoPurge? && cmd.key == key, cmd, maxVal, Room(v, key), Pushes(v, key))
  {
    EpochsStayEven(v, maxVal, cmd);
    if Room(v, key) && !Pushes(v, key) {
      PresentHasStack(v, key);
    }
    match cmd
    case DoSet(k, val, mode) => SetRefinesStack(v, maxVal, k, val, mode, key);
    case DoAppend(k, val) =>
      if val != [] { AppendOnStack(v, maxVal, k, val, key); }
    case DoUnset(k, autoScrub) => UnsetOnStack(v, maxVal, k, autoScrub, key);
    case DoPurge => PurgeOnStack(v, maxVal, key, 0);
  }

  lemma SetRefinesStack(v: View, maxVal: nat, k: CString, val: seq<byte>, mode: ScrubMode, key: CString)
    requires Fits(v, maxVal) && AllIdle(v) && GoodKey(k) && GoodKey(key)
    requires Room(v, key) && !Pushes(v, key) ==> Stack(v, key) != []
    ensures Stack(SetView(v, maxVal, k, val, mode), key)
         == StackAfter(Stack(v, key), k == key, DoSet(k, val, mode), maxVal, Room(v, key), Pushes(v, key))
  {
    if k != key {
      SetOnOtherStack(v, maxVal, k, val, mode, key);
    } else if SetRc(v, maxVal, k, val) == Ok {
      SetOnOwnStack(v, maxVal, k, val, mode);
    }
  }

  lemma PresentHasStack(v: View, key: CString)
    requires Shaped(v) && Room(v, key) && !Pushes(v, key)
    ensures Stack(v, key) != []
  {
    var s := Target(v, key, true).value;
    var i := ProbeReaches(|v|, key, s);
    TargetIsTop(v, key);
  }

  // ---- When the table is a plain map -----------------------------------------------------------

  ghost predicate Single(v: View)
    requires Shaped(v)
  {
    forall key: CString :: GoodKey(key) ==> |Stack(v, key)| <= 1
  }

  /** The set is about to take an empty slot although its key is stored further along the probe. */
  predicate ReusesHole(v: View, key: CString)
    requires Shaped(v)
  {
    Pushes(v, key) && Stack(v, key) != []
  }

  predicate CommandReusesHole(v: View, maxVal: nat, cmd: Command)
    requires Fits(v, maxVal)
  {
    cmd.DoSet? && SetRc(v, maxVal, cmd.key, cmd.val) == Ok && ReusesHole(v, cmd.key)
  }

  /** From a table with no duplicate, a command makes one exactly when it is a set that reuses such a hole. */
  lemma DuplicatesComeFromHoles(v: View, maxVal: nat, cmd: Command)
    requires Fits(v, maxVal) && AllIdle(v) && GoodCommand(cmd) && Single(v)
    ensures Single(Apply(v, maxVal, cmd)) <==> !CommandReusesHole(v, maxVal, cmd)
  {
    forall key: CString | GoodKey(key)
      ensures |Stack(Apply(v, maxVal, cmd), key)| > 1 <==>
        CommandReusesHole(v, maxVal, cmd) && key == cmd.key
    {
      assert |Stack(v, key)| <= 1;
      DuplicateIffHole(v, maxVal, cmd, key);
    }
    if CommandReusesHole(v, maxVal, cmd) {
      assert |Stack(Apply(v, maxVal, cmd), cmd.key)| > 1;
    }
  }

  lemma DuplicateIffHole(v: View, maxVal: nat, cmd: Command, key: CString)
    requires Fits(v, maxVal) && AllIdle(v) && GoodCommand(cmd) && GoodKey(key) && |Stack(v, key)| <= 1
    ensures |Stack(Apply(v, maxVal, cmd), key)| > 1 <==> CommandReusesHole(v, maxVal, cmd) && key == cmd.key
  {
    CommandRefinesStacks(v, maxVal, cmd, key);
  }

  function Lookup(v: View, key: CString): Option<seq<byte>>
    requires Shaped(v)
  {
    if Stack(v, key) == [] then None else Some(Stack(v, key)[0])
  }

  /** The plain-map meaning of a command for one key. */
  function MapAfter(cur: Option<seq<byte>>, mine: bool, cmd: Command, maxVal: nat, room: bool): Option<seq<byte>> {
    if !mine then cur
    else match cmd
      case DoSet(_, val, _) => if 0 < |val| <= maxVal && room then Some(val) else cur
      case DoAppend(_, val) =>
        if cur.None? || val == [] || |cur.value| + |val| > maxVal then cur else Some(cur.value + val)
      case DoUnset(_, _) => None
      case DoPurge => cur
  }

  predicate NeverReusesHole(v: View, maxVal: nat, cmds: seq<Command>)
    requires Fits(v, maxVal)
    decreases cmds
  {
    cmds == [] ||
    (!CommandReusesHole(v, maxVal, cmds[0]) && NeverReusesHole(Apply(v, maxVal, cmds[0]), maxVal, cmds[1..]))
  }

  function MapAfterAll(v: View, maxVal: nat, cmds: seq<Command>, cur: Option<seq<byte>>, key: CString)
    : Option<seq<byte>>
    requires Fits(v, maxVal)
    decreases cmds
  {
    if cmds == [] then cur
    else
      var mine := !cmds[0].DoPurge? && cmds[0].key == key;
      MapAfterAll(Apply(v, maxVal, cmds[0]), maxVal, cmds[1..],
                  MapAfter(cur, mine, cmds[0], maxVal, Room(v, key)), key)
  }

  /** Every run that never reuses a hole ahead of a copy refines a plain finite map, key by key. */
  lemma {:induction false} RunRefinesPlainMap(v: View, maxVal: nat, cmds: seq<Command>, key: CString)
    requires Fits(v, maxVal) && AllIdle(v) && Single(v) && GoodKey(key)
    requires forall i :: 0 <= i < |cmds| ==> GoodCommand(cmds[i])
    requires NeverReusesHole(v, maxVal, cmds)
    ensures AllIdle(ApplyAll(v, maxVal, cmds)) && Single(ApplyAll(v, maxVal, cmds))
    ensures Lookup(ApplyAll(v, maxVal, cmds), key) == MapAfterAll(v, maxVal, cmds, Lookup(v, key), key)
    decreases cmds
  {
    if cmds != [] {
      CommandRefinesStacks(v, maxVal, cmds[0], key);
      DuplicatesComeFromHoles(v, maxVal, cmds[0]);
      assert |Stack(v, key)| <= 1;
      RunRefinesPlainMap(Apply(v, maxVal, cmds[0]), maxVal, cmds[1..], key);
    }
  }

  /** After a hole was reused, unsetting the key does not remove it: the older value comes back. */
  lemma StaleValueResurfaces(v: View, maxVal: nat, key: CString, val: seq<byte>, mode: ScrubMode, autoScrub: bool)
    requires Fits(v, maxVal) && AllIdle(v) && GoodKey(key)
    requires SetRc(v, maxVal, key, val) == Ok
    ensures var after := ApplyAll(v, maxVal, [DoSet(key, val, mode), DoUnset(key, autoScrub)]);
      Lookup(after, key) == if ReusesHole(v, key) then Lookup(v, key)
                            else if |Stack(v, key)| <= 1 then None else Some(Stack(v, key)[1])
  {
    var put, unset := DoSet(key, val, mode), DoUnset(key, autoScrub);
    CommandRefinesStacks(v, maxVal, put, key);
    var v1 := Apply(v, maxVal, put);
    CommandRefinesStacks(v1, maxVal, unset, key);
    assert [put, unset][1..] == [unset];
    assert ApplyAll(v1, maxVal, [unset]) == Apply(v1, maxVal, unset) by { assert [unset][1..] == []; }
  }

  // ---- Scrubbing -------------------------------------------------------------------------------

  /** Every byte of the region past the value is zero. */
  predicate TailZero(c: Content) {
    forall j :: c.len <= j < |c.bytes| ==> c.bytes[j] == 0
  }

  predicate TailsZero(v: View) {
    forall s :: 0 <= s < |v| ==> TailZero(v[s].c)
  }

  /** How the flags AUTO_SCRUB set and HYBRID_SCRUB clear show in a command. */
  predicate FullyScrubbed(cmd: Command) {
    match cmd
    case DoSet(_, _, mode) => mode == FullScrub
    case DoUnset(_, autoScrub) => autoScrub
    case _ => true
  }

  lemma EffectKeepsTailZero(op: Op, c: Content, maxVal: nat)
    requires op.Allowed(maxVal) && c.Fits(maxVal) && TailZero(c)
    requires (op.Set? && op.mode == FullScrub) || op.Append? || op.Purge?
    ensures TailZero(Effect(op, c, maxVal))
  {
  }

  lemma CommandKeepsTailsZero(v: View, maxVal: nat, cmd: Command)
    requires Fits(v, maxVal) && TailsZero(v) && FullyScrubbed(cmd)
    ensures TailsZero(Apply(v, maxVal, cmd))
  {
    match cmd
    case DoSet(key, val, mode) =>
      if SetRc(v, maxVal, key, val) == Ok {
        var s := Target(v, key, true).value;
        EffectKeepsTailZero(Set(key, val, mode, v[s].c.hash == 0), v[s].c, maxVal);
      }
    case DoAppend(key, val) =>
      if val != [] && Target(v, key, false).Some? {
        EffectKeepsTailZero(Append(val), v[Target(v, key, false).value].c, maxVal);
      }
    case DoUnset(key, autoScrub) =>
    case DoPurge =>
      forall s | 0 <= s < |v|
        ensures TailZero(PurgeCell(v[s], maxVal).c)
      {
        EffectKeepsTailZero(Purge, v[s].c, maxVal);
      }
  }

  lemma {:induction false} RunKeepsTailsZero(v: View, maxVal: nat, cmds: seq<Command>)
    requires Fits(v, maxVal) && TailsZero(v)
    requires forall i :: 0 <= i < |cmds| ==> FullyScrubbed(cmds[i])
    ensures TailsZero(ApplyAll(v, maxVal, cmds))
    decreases cmds
  {
    if cmds != [] {
      CommandKeepsTailsZero(v, maxVal, cmds[0]);
      RunKeepsTailsZero(Apply(v, maxVal, cmds[0]), maxVal, cmds[1..]);
    }
  }

  /** From any idle store, a purge zeroes every tail and every empty slot, and keeps every live value. */
  lemma PurgeScrubs(v: View, maxVal: nat, s: nat)
    requires Fits(v, maxVal) && AllIdle(v) && s < |v|
    ensures TailsZero(PurgeView(v, maxVal))
    ensures var c := PurgeView(v, maxVal)[s].c;
      && (v[s].c.hash != 0 ==> c.Value() == v[s].c.Value())
      && (v[s].c.hash == 0 ==> c.bytes == Zeros(maxVal))
  {
    PurgeKeepsValue(v[s], maxVal);
    if v[s].c.hash == 0 {
      assert ClearFrom(v[s].c.bytes, 0) == Zeros(maxVal);
    }
  }

  /** What a set leaves past the value under each scrub mode: zeroes up to the scrub length, old bytes beyond. */
  lemma SetTail(op: Op, c: Content, maxVal: nat, j: nat)
    requires op.Set? && op.Allowed(maxVal) && c.Fits(maxVal) && |op.val| <= j < maxVal
    ensures Effect(op, c, maxVal).bytes[j] ==
      match op.mode
      case NoScrub => c.bytes[j]
      case HybridScrub => if j < (|op.val| + 63) / 64 * 64 then 0 else c.bytes[j]
      case FullScrub => 0
  {
  }
}
