/** When the table is a finite map with a bound on its size, and nothing else. */
module PlainMap {
  import opened Bytes
  import opened Options
  import opened SlotEffects
  import opened Table
  import opened TableLaws
  import opened Values

  type Contents = map<CString, seq<byte>>

  /** A command on a map of at most `slots` entries: a set of a new key needs a free entry. */
  function MapStep(m: Contents, cmd: Command, maxVal: nat, slots: nat): Contents {
    match cmd
    case DoSet(key, val, _) => if 0 < |val| <= maxVal && (key in m || |m| < slots) then m[key := val] else m
    case DoAppend(key, val) =>
      if key in m && val != [] && |m[key]| + |val| <= maxVal then m[key := m[key] + val] else m
    case DoUnset(key, _) => m - {key}
    case DoPurge => m
  }

  function MapRun(m: Contents, cmds: seq<Command>, maxVal: nat, slots: nat): Contents
    decreases cmds
  {
    if cmds == [] then m else MapRun(MapStep(m, cmds[0], maxVal, slots), cmds[1..], maxVal, slots)
  }

  function Entry(m: Contents, key: CString): Option<seq<byte>> {
    if key in m then Some(m[key]) else None
  }

  /** Lookups in the table answer from the map, and every occupied slot is an entry. */
  ghost predicate Represents(v: View, m: Contents)
    requires Shaped(v)
  {
    && AllIdle(v) && Single(v)
    && (forall key: CString :: GoodKey(key) ==> Lookup(v, key) == Entry(m, key))
    && |m| + Vacancies(v) == |v|
  }

  // ---- Counting entries ------------------------------------------------------------------------

  function Free(cell: Cell): nat {
    if cell.c.hash == 0 then 1 else 0
  }

  lemma {:induction false} FreeAfter(v: View, s: nat, cell: Cell, n: nat)
    requires s < |v| && n <= |v|
    ensures FreeSlots(v[s := cell], n) + (if s < n then Free(v[s]) else 0)
         == FreeSlots(v, n) + if s < n then Free(cell) else 0
  {
    if n > 0 {
      FreeAfter(v, s, cell, n - 1);
    }
  }

  lemma {:induction false} PurgeKeepsFree(v: View, maxVal: nat, n: nat)
    requires Fits(v, maxVal) && n <= |v|
    ensures FreeSlots(PurgeView(v, maxVal), n) == FreeSlots(v, n)
  {
    if n > 0 {
      PurgeKeepsFree(v, maxVal, n - 1);
    }
  }

  lemma {:induction false} NoFreeSlot(v: View, n: nat)
    requires n <= |v|
    ensures FreeSlots(v, n) == 0 <==> forall s :: 0 <= s < n ==> v[s].c.hash != 0
  {
    if n > 0 {
      NoFreeSlot(v, n - 1);
    }
  }

  /** A set finds a slot exactly when its key is an entry or a slot is free. */
  lemma RoomIff(v: View, key: CString)
    requires Shaped(v) && AllIdle(v)
    ensures Room(v, key) <==> Stack(v, key) != [] || Vacancies(v) > 0
  {
    TargetIsTop(v, key);
    NoFreeSlot(v, |v|);
    var j := FirstStop(v, key, true, 0);
    if j == |v| {
      forall s | 0 <= s < |v|
        ensures v[s].c.hash != 0
      {
        var i := ProbeReaches(|v|, key, s);
      }
    } else {
      TakenSlot(v, key, j);
    }
  }

  lemma TakenSlot(v: View, key: CString, j: nat)
    requires Shaped(v) && j == FirstStop(v, key, true, 0) < |v|
    ensures v[ProbeSlot(|v|, key, j)].c.hash != 0 ==> FirstStop(v, key, false, 0) < |v|
  {
    var i := FirstStop(v, key, false, 0);
    assert i <= j || Stops(v[ProbeSlot(|v|, key, j)], key, true);
  }

  lemma RemoveOne(m: Contents, key: CString)
    ensures |m - {key}| == if key in m then |m| - 1 else |m|
  {
    if key in m {
      assert (m - {key})[key := m[key]] == m;
    } else {
      assert m - {key} == m;
    }
  }

  // ---- One command -----------------------------------------------------------------------------

  lemma EntryAfter(m: Contents, cmd: Command, maxVal: nat, slots: nat, key: CString)
    ensures Entry(MapStep(m, cmd, maxVal, slots), key) ==
      MapAfter(Entry(m, key), !cmd.DoPurge? && cmd.key == key, cmd, maxVal, key in m || |m| < slots)
  {
  }

  lemma LookupAfter(v: View, maxVal: nat, cmd: Command, key: CString)
    requires Fits(v, maxVal) && AllIdle(v) && Single(v) && GoodCommand(cmd) && GoodKey(key)
    requires !CommandReusesHole(v, maxVal, cmd)
    ensures Lookup(Apply(v, maxVal, cmd), key) ==
      MapAfter(Lookup(v, key), !cmd.DoPurge? && cmd.key == key, cmd, maxVal, Room(v, key))
  {
    CommandRefinesStacks(v, maxVal, cmd, key);
    assert |Stack(v, key)| <= 1;
  }

  lemma VacanciesAfter(v: View, maxVal: nat, cmd: Command, m: Contents)
    requires Fits(v, maxVal) && Represents(v, m) && GoodCommand(cmd) && !CommandReusesHole(v, maxVal, cmd)
    ensures |MapStep(m, cmd, maxVal, |v|)| + Vacancies(Apply(v, maxVal, cmd)) == |v|
  {
    match cmd
    case DoSet(key, val, mode) => SetVacancies(v, maxVal, key, val, mode, m);
    case DoAppend(key, val) => AppendVacancies(v, maxVal, key, val, m);
    case DoUnset(key, scrub) => UnsetVacancies(v, maxVal, key, scrub, m);
    case DoPurge => PurgeKeepsFree(v, maxVal, |v|);
  }

  lemma SetVacancies(v: View, maxVal: nat, key: CString, val: seq<byte>, mode: ScrubMode, m: Contents)
    requires Fits(v, maxVal) && Represents(v, m) && GoodKey(key)
    requires !CommandReusesHole(v, maxVal, DoSet(key, val, mode))
    ensures |MapStep(m, DoSet(key, val, mode), maxVal, |v|)| + Vacancies(SetView(v, maxVal, key, val, mode)) == |v|
  {
    RoomIff(v, key);
    assert Lookup(v, key) == Entry(m, key);
    if SetRc(v, maxVal, key, val) == Ok {
      var s := Target(v, key, true).value;
      if !Pushes(v, key) { PresentHasStack(v, key); }
      FreeAfter(v, s, SetView(v, maxVal, key, val, mode)[s], |v|);
    }
  }

  lemma AppendVacancies(v: View, maxVal: nat, key: CString, data: seq<byte>, m: Contents)
    requires Fits(v, maxVal) && Represents(v, m) && GoodKey(key)
    ensures |MapStep(m, DoAppend(key, data), maxVal, |v|)| + Vacancies(AppendView(v, maxVal, key, data)) == |v|
  {
    var rc := AppendRc(v, maxVal, key, data);
    if rc == Ok || rc == Emsgsize {
      var s := Target(v, key, false).value;
      FreeAfter(v, s, AppendView(v, maxVal, key, data)[s], |v|);
    }
  }

  lemma UnsetVacancies(v: View, maxVal: nat, key: CString, scrub: bool, m: Contents)
    requires Fits(v, maxVal) && Represents(v, m) && GoodKey(key)
    ensures |MapStep(m, DoUnset(key, scrub), maxVal, |v|)| + Vacancies(UnsetView(v, maxVal, key, scrub)) == |v|
  {
    TargetIsTop(v, key);
    assert Lookup(v, key) == Entry(m, key);
    RemoveOne(m, key);
    if Target(v, key, false).Some? {
      var s := Target(v, key, false).value;
      FreeAfter(v, s, UnsetCell(v[s].c, scrub), |v|);
    }
  }

  lemma StepRepresents(v: View, maxVal: nat, cmd: Command, m: Contents)
    requires Fits(v, maxVal) && Represents(v, m) && GoodCommand(cmd) && !CommandReusesHole(v, maxVal, cmd)
    ensures Represents(Apply(v, maxVal, cmd), MapStep(m, cmd, maxVal, |v|))
  {
    EpochsStayEven(v, maxVal, cmd);
    DuplicatesComeFromHoles(v, maxVal, cmd);
    VacanciesAfter(v, maxVal, cmd, m);
    forall key: CString | GoodKey(key)
      ensures Lookup(Apply(v, maxVal, cmd), key) == Entry(MapStep(m, cmd, maxVal, |v|), key)
    {
      LookupAfter(v, maxVal, cmd, key);
      RoomIff(v, key);
      EntryAfter(m, cmd, maxVal, |v|, key);
      assert Lookup(v, key) == Entry(m, key);
    }
  }

  // ---- Runs ------------------------------------------------------------------------------------

  /** A run that never reuses a hole ahead of a copy does what the bounded map does. */
  lemma {:induction false} RunIsMapRun(v: View, maxVal: nat, cmds: seq<Command>, m: Contents)
    requires Fits(v, maxVal) && Represents(v, m) && NeverReusesHole(v, maxVal, cmds)
    requires forall i :: 0 <= i < |cmds| ==> GoodCommand(cmds[i])
    ensures Represents(ApplyAll(v, maxVal, cmds), MapRun(m, cmds, maxVal, |v|))
    decreases cmds
  {
    if cmds != [] {
      StepRepresents(v, maxVal, cmds[0], m);
      RunIsMapRun(Apply(v, maxVal, cmds[0]), maxVal, cmds[1..], MapStep(m, cmds[0], maxVal, |v|));
    }
  }

  /** Such a run from an empty table gives the map that the same commands make of the empty map. */
  lemma FreshRunIsMapRun(v: View, maxVal: nat, cmds: seq<Command>)
    requires Fits(v, maxVal) && AllIdle(v) && (forall s :: 0 <= s < |v| ==> v[s].c.hash == 0)
    requires NeverReusesHole(v, maxVal, cmds) && forall i :: 0 <= i < |cmds| ==> GoodCommand(cmds[i])
    ensures Represents(ApplyAll(v, maxVal, cmds), MapRun(map[], cmds, maxVal, |v|))
  {
    forall key: CString | GoodKey(key)
      ensures Stack(v, key) == []
    {
      StackSkips(v, key, 0, |v|);
    }
    AllFree(v, |v|);
    RunIsMapRun(v, maxVal, cmds, map[]);
  }
}
