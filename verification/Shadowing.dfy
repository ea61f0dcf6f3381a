/** Whole runs of table commands, and how an ordinary run ends up with two copies of one key. */
module Shadowing {
  import opened Bytes
  import opened SlotEffects
  import opened Table
  import opened TableLaws
  import Fnv

  /** The stack of one key after a run; `v` only resolves whether a set finds room and whether it pushes. */
  function StackAfterAll(v: View, maxVal: nat, cmds: seq<Command>, stack: seq<seq<byte>>, key: CString)
    : seq<seq<byte>>
    requires Fits(v, maxVal) && AllIdle(v) && GoodKey(key) && stack == Stack(v, key)
    requires forall i :: 0 <= i < |cmds| ==> GoodCommand(cmds[i])
    decreases cmds
  {
    if cmds == [] then stack
    else
      CommandRefinesStacks(v, maxVal, cmds[0], key);
      var mine := !cmds[0].DoPurge? && cmds[0].key == key;
      StackAfterAll(Apply(v, maxVal, cmds[0]), maxVal, cmds[1..],
                    StackAfter(stack, mine, cmds[0], maxVal, Room(v, key), Pushes(v, key)), key)
  }

  /** Every run refines the map from keys to stacks of values and leaves every epoch even. */
  lemma {:induction false} RunRefinesStacks(v: View, maxVal: nat, cmds: seq<Command>, key: CString)
    requires Fits(v, maxVal) && AllIdle(v) && GoodKey(key)
    requires forall i :: 0 <= i < |cmds| ==> GoodCommand(cmds[i])
    ensures AllIdle(ApplyAll(v, maxVal, cmds))
    ensures Stack(ApplyAll(v, maxVal, cmds), key) == StackAfterAll(v, maxVal, cmds, Stack(v, key), key)
    decreases cmds
  {
    if cmds != [] {
      CommandRefinesStacks(v, maxVal, cmds[0], key);
      RunRefinesStacks(Apply(v, maxVal, cmds[0]), maxVal, cmds[1..], key);
    }
  }

  // ---- A run that makes two copies -------------------------------------------------------------

  /** Nothing stored, nothing in progress. */
  predicate Empty(v: View) {
    forall s :: 0 <= s < |v| ==> v[s].c.hash == 0 && v[s].Idle()
  }

  predicate SameStart(n: nat, a: CString, b: CString)
    requires n > 0
  {
    Fnv.Hash(a) % n == Fnv.Hash(b) % n
  }

  function Put(v: View, maxVal: nat, key: CString, val: seq<byte>): (v': View)
    requires Fits(v, maxVal)
    ensures Fits(v', maxVal) && |v'| == |v|
  {
    SetView(v, maxVal, key, val, NoScrub)
  }

  /** The slot at probe offset `off` holds this key. */
  predicate HoldsAt(v: View, key: CString, off: nat)
    requires Shaped(v)
  {
    off < |v| && Matches(v[ProbeSlot(|v|, key, off)].c, key)
  }

  lemma SameProbe(n: nat, a: CString, b: CString, i: nat)
    requires n > 0 && SameStart(n, a, b)
    ensures ProbeSlot(n, a, i) == ProbeSlot(n, b, i)
  {
  }

  /** A set lands in the first slot of the probe order that is empty or holds its key. */
  lemma SetLands(v: View, maxVal: nat, key: CString, val: seq<byte>, off: nat)
    requires Fits(v, maxVal) && AllIdle(v) && GoodKey(key) && 0 < |val| <= maxVal && off < |v|
    requires v[ProbeSlot(|v|, key, off)].c.hash == 0
    requires forall i :: 0 <= i < off ==> !Stops(v[ProbeSlot(|v|, key, i)], key, true)
    ensures FirstStop(v, key, true, 0) == off
    ensures Pushes(v, key) && SetRc(v, maxVal, key, val) == Ok
    ensures HoldsAt(Put(v, maxVal, key, val), key, off) && AllIdle(Put(v, maxVal, key, val))
    ensures Put(v, maxVal, key, val)
         == v[ProbeSlot(|v|, key, off) := Put(v, maxVal, key, val)[ProbeSlot(|v|, key, off)]]
  {
    var j := FirstStop(v, key, true, 0);
    assert j <= off;
    var s := ProbeSlot(|v|, key, off);
    SetMatches(Set(key, val, NoScrub, true), v[s].c, maxVal, key);
    EpochsStayEven(v, maxVal, DoSet(key, val, NoScrub));
  }

  /** Two keys stored one after the other in a fresh table sit side by side. */
  lemma TwoKeysSideBySide(v: View, maxVal: nat, a: CString, b: CString, val: seq<byte>)
    requires Fits(v, maxVal) && Empty(v) && |v| >= 2 && 0 < |val| <= maxVal
    requires GoodKey(a) && GoodKey(b) && a != b && SameStart(|v|, a, b)
    ensures var w := Put(Put(v, maxVal, a, val), maxVal, b, val);
      AllIdle(w) && HoldsAt(w, a, 0) && HoldsAt(w, b, 1)
  {
    var n := |v|;
    var v1 := Put(v, maxVal, a, val);
    SetLands(v, maxVal, a, val, 0);
    SameProbe(n, a, b, 0);
    MatchDeterminesKey(v1[ProbeSlot(n, a, 0)].c, a, b);
    if ProbeSlot(n, b, 1) == ProbeSlot(n, b, 0) {
      ProbeInjective(n, b, 1, 0);
    }
    SetLands(v1, maxVal, b, val, 1);
  }

  /** Unsetting the first of them leaves a hole in front of the second, and setting the second again fills it. */
  lemma SecondCopy(w: View, maxVal: nat, a: CString, b: CString, val: seq<byte>)
    requires Fits(w, maxVal) && AllIdle(w) && |w| >= 2 && 0 < |val| <= maxVal
    requires GoodKey(a) && GoodKey(b) && a != b && SameStart(|w|, a, b)
    requires HoldsAt(w, a, 0) && HoldsAt(w, b, 1)
    ensures var x := UnsetView(w, maxVal, a, true);
      AllIdle(x) && ReusesHole(x, b) && |Stack(Put(x, maxVal, b, val), b)| >= 2
  {
    var n := |w|;
    var x := UnsetView(w, maxVal, a, true);
    assert FirstStop(w, a, false, 0) == 0;
    EpochsStayEven(w, maxVal, DoUnset(a, true));
    SameProbe(n, a, b, 0);
    if ProbeSlot(n, b, 1) == ProbeSlot(n, b, 0) {
      ProbeInjective(n, b, 1, 0);
    }
    assert HoldsAt(x, b, 1);
    TargetIsTop(x, b);
    SetLands(x, maxVal, b, val, 0);
    SetOnOwnStack(x, maxVal, b, val, NoScrub);
  }

  /**
   Four calls on a fresh table are enough: for any two keys whose probes start at the same slot, `set a,
   set b, unset a, set b` stores `b` twice, so a plain map does not describe every run.
   */
  lemma FourCallsDuplicate(v: View, maxVal: nat, a: CString, b: CString, val: seq<byte>)
    requires Fits(v, maxVal) && Empty(v) && |v| >= 2 && 0 < |val| <= maxVal
    requires GoodKey(a) && GoodKey(b) && a != b && SameStart(|v|, a, b)
    ensures var run := [DoSet(a, val, NoScrub), DoSet(b, val, NoScrub), DoUnset(a, true), DoSet(b, val, NoScrub)];
      |Stack(ApplyAll(v, maxVal, run), b)| >= 2
  {
    var setA, setB, unsetA := DoSet(a, val, NoScrub), DoSet(b, val, NoScrub), DoUnset(a, true);
    TwoKeysSideBySide(v, maxVal, a, b, val);
    SecondCopy(Put(Put(v, maxVal, a, val), maxVal, b, val), maxVal, a, b, val);
    FourApplied(v, maxVal, setA, setB, unsetA, setB);
  }

  lemma FourApplied(v: View, maxVal: nat, c1: Command, c2: Command, c3: Command, c4: Command)
    requires Fits(v, maxVal)
    ensures ApplyAll(v, maxVal, [c1, c2, c3, c4])
         == Apply(Apply(Apply(Apply(v, maxVal, c1), maxVal, c2), maxVal, c3), maxVal, c4)
  {
    ApplyTwo(v, maxVal, c1, c2, [c3, c4]);
    ApplyTwo(Apply(Apply(v, maxVal, c1), maxVal, c2), maxVal, c3, c4, []);
    assert [c1, c2] + [c3, c4] == [c1, c2, c3, c4];
    assert [c3, c4] + [] == [c3, c4];
  }

  lemma ApplyTwo(v: View, maxVal: nat, c: Command, d: Command, rest: seq<Command>)
    requires Fits(v, maxVal)
    ensures ApplyAll(v, maxVal, [c, d] + rest) == ApplyAll(Apply(Apply(v, maxVal, c), maxVal, d), maxVal, rest)
  {
    ApplyFirst(v, maxVal, c, [d] + rest);
    ApplyFirst(Apply(v, maxVal, c), maxVal, d, rest);
    assert [c, d] + rest == [c] + ([d] + rest);
  }

  lemma ApplyFirst(v: View, maxVal: nat, c: Command, rest: seq<Command>)
    requires Fits(v, maxVal)
    ensures ApplyAll(v, maxVal, [c] + rest) == ApplyAll(Apply(v, maxVal, c), maxVal, rest)
  {
    assert ([c] + rest)[1..] == rest;
  }

  lemma {:induction false} HashOfOne(b: byte)
    ensures Fnv.Hash([b]) == Fnv.Mix(Fnv.OFFSET_BASIS, b)
  {
    assert [b][1..] == [];
    assert Fnv.HashFrom(Fnv.Mix(Fnv.OFFSET_BASIS, b), []) == Fnv.Mix(Fnv.OFFSET_BASIS, b);
  }

  lemma XorValues()
    ensures Xor(37, 97) == 68 && Xor(37, 99) == 70
  {
    var f := (x: bool, y: bool) => x != y;
    assert Bitwise(f, 1, 3) == 2 && Bitwise(f, 2, 6) == 4;
    assert Bitwise(f, 4, 12) == 8;
    assert Bitwise(f, 9, 24) == 17;
  }

  lemma LowBytes()
    ensures Fnv.XorLow(Fnv.OFFSET_BASIS, 97) == 14695981039346656068
    ensures Fnv.XorLow(Fnv.OFFSET_BASIS, 99) == 14695981039346656070
  {
    XorValues();
    assert Fnv.OFFSET_BASIS == 57406175934947875 * 256 + 37;
  }

  lemma Product(x: u64, q: nat, r: u64)
    requires x as int * 1099511628211 == q * MOD64 + r
    ensures Fnv.TimesPrime(x) == r
  {
  }

  lemma MixedA()
    ensures Fnv.Mix(Fnv.OFFSET_BASIS, 97) == 12638187200555641996
  {
    LowBytes();
    Product(14695981039346656068, 875948729822, 12638187200555641996);
  }

  lemma MixedC()
    ensures Fnv.Mix(Fnv.OFFSET_BASIS, 99) == 12638189399578898418
  {
    LowBytes();
    Product(14695981039346656070, 875948729822, 12638189399578898418);
  }

  /** "a" and "c" are two such keys in a table of two slots. */
  lemma ConcreteKeys()
    ensures GoodKey([97]) && GoodKey([99]) && SameStart(2, [97], [99])
  {
    HashOfOne(97);
    HashOfOne(99);
    MixedA();
    MixedC();
  }
}
