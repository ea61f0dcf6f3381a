/** Labels, watchers and signal groups: which group counters an operation on a slot raises. */
module Signals {
  import opened Bytes
  import opened Options
  import opened Bits
  import opened SlotEffects
  import opened Table
  import opened TableWrites
  import S = Store
  import Fnv

  const GROUPS := 64
  const UNWATCHED: byte := 0xFF

  /** The masks of a slot: the groups watching it and the labels it carries. */
  datatype Tags = Tags(watchers: u64, bloom: u64)

  const NO_TAGS := Tags(0, 0)

  /** How many of the first `n` labels of `bloom` are routed to group `g`. */
  function Routed(binds: seq<byte>, bloom: u64, g: nat, n: nat): (r: nat)
    requires n <= |binds|
    ensures r <= n
    ensures r > 0 <==> exists b :: 0 <= b < n && Reaches(binds, bloom, b, g)
  {
    if n == 0 then 0
    else Routed(binds, bloom, g, n - 1) + if Reaches(binds, bloom, n - 1, g) then 1 else 0
  }

  predicate Reaches(binds: seq<byte>, bloom: u64, b: nat, g: nat)
    requires b < |binds|
  {
    BitAt(bloom, b) && binds[b] as nat == g
  }

  /** How often one pulse by these masks raises group `g`. */
  function Raises(binds: seq<byte>, t: Tags, g: nat): nat
    requires |binds| == 64
  {
    Direct(t, g) + Routed(binds, t.bloom, g, 64)
  }

  function Direct(t: Tags, g: nat): nat {
    if BitAt(t.watchers, g) then 1 else 0
  }

  function Raised(counter: u64, r: nat): u64 {
    (counter + r) % MOD64
  }

  function Pulsed(groups: seq<u64>, binds: seq<byte>, t: Tags): (r: seq<u64>)
    requires |groups| == GROUPS && |binds| == 64
    ensures |r| == GROUPS
  {
    seq(GROUPS, g requires 0 <= g < GROUPS => Raised(groups[g], Raises(binds, t, g)))
  }

  lemma RaisedTwice(counter: u64, r: nat)
    ensures Raised(Raised(counter, r), 1) == Raised(counter, r + 1)
    ensures Raised(counter, 0) == counter
  {
    var q := (counter + r) / MOD64;
    assert counter + r == q * MOD64 + Raised(counter, r);
    assert counter + r + 1 == q * MOD64 + (Raised(counter, r) + 1);
  }

  /** The counters once the watchers and the first `n` labels were pulsed. */
  function PulsedBy(groups: seq<u64>, binds: seq<byte>, t: Tags, n: nat): (r: seq<u64>)
    requires |groups| == GROUPS && |binds| == 64 && n <= 64
    ensures |r| == GROUPS
  {
    seq(GROUPS, g requires 0 <= g < GROUPS => Raised(groups[g], Direct(t, g) + Routed(binds, t.bloom, g, n)))
  }

  lemma NextLabel(groups: seq<u64>, binds: seq<byte>, t: Tags, n: nat)
    requires |groups| == GROUPS && |binds| == 64 && n < 64
    ensures var now, g := PulsedBy(groups, binds, t, n), binds[n] as nat;
      PulsedBy(groups, binds, t, n + 1) ==
        if BitAt(t.bloom, n) && g < GROUPS then now[g := Raised(now[g], 1)] else now
  {
    var now, g := PulsedBy(groups, binds, t, n), binds[n] as nat;
    var next := if BitAt(t.bloom, n) && g < GROUPS then now[g := Raised(now[g], 1)] else now;
    forall h | 0 <= h < GROUPS
      ensures PulsedBy(groups, binds, t, n + 1)[h] == next[h]
    {
      RoutedStep(binds, t.bloom, h, n);
      RaisedTwice(groups[h], Direct(t, h) + Routed(binds, t.bloom, h, n));
    }
  }

  lemma RoutedStep(binds: seq<byte>, bloom: u64, g: nat, n: nat)
    requires n < |binds|
    ensures Routed(binds, bloom, g, n + 1) ==
      Routed(binds, bloom, g, n) + if BitAt(bloom, n) && binds[n] as nat == g then 1 else 0
  {
  }

  /** A counter moves exactly when it is raised at all. */
  lemma RaisedMoves(counter: u64, r: nat)
    requires r < MOD64
    ensures Raised(counter, r) != counter <==> r > 0
  {
  }

  // ---- The plane as a value --------------------------------------------------------------------

  datatype Plane = Plane(
    view: View, maxVal: nat, mode: ScrubMode, tags: seq<Tags>, binds: seq<byte>, groups: seq<u64>)
  {
    predicate Ok() {
      Fits(view, maxVal) && |tags| == |view| && |binds| == 64 && |groups| == GROUPS
    }
  }

  datatype Op =
    | SetValue(key: CString, val: seq<byte>)
    | Extend(key: CString, data: seq<byte>)
    | Embed(key: CString, vec: seq<float32>)
    | Integer(key: CString, word: WordOp, mask: u64, typed: bool)
    | Bump(key: CString)
    | PulseKey(key: CString)
    | Erase(key: CString)
    | SetLabel(key: CString, mask: u64)
    | ClearLabel(key: CString, mask: u64)
    | Watch(key: CString, group: byte)
    | Unwatch(key: CString, group: byte)
    | Bind(mask: u64, group: byte)

  function WrittenAt(p: Plane, key: CString, w: SlotEffects.Op): (s: Option<nat>)
    requires p.Ok()
    ensures s.Some? ==> s.value < |p.view|
  {
    if WriteRc(p.view, p.maxVal, key, w) == Rc.Ok then Target(p.view, key, false) else None
  }

  /** The slot the operation acts on; none for a failed lookup, a refused group, or a binding. */
  function SlotOf(p: Plane, op: Op): (s: Option<nat>)
    requires p.Ok()
    ensures s.Some? ==> s.value < |p.view|
  {
    match op
    case SetValue(key, val) =>
      if SetRc(p.view, p.maxVal, key, val) == Rc.Ok then Target(p.view, key, true) else None
    case Extend(key, data) =>
      if AppendRc(p.view, p.maxVal, key, data) == Rc.Ok then Target(p.view, key, false) else None
    case Embed(key, vec) => WrittenAt(p, key, SetEmbedding(vec))
    case Integer(key, word, mask, typed) => if typed then WrittenAt(p, key, IntegerOp(word, mask)) else None
    case Bump(key) => WrittenAt(p, key, SlotEffects.Bump)
    case PulseKey(key) => Target(p.view, key, false)
    case Erase(key) =>
      if UnsetRc(p.view, p.maxVal, key) == Rc.Ok then Target(p.view, key, false) else None
    case SetLabel(key, _) => Target(p.view, key, false)
    case ClearLabel(key, _) => Target(p.view, key, false)
    case Watch(key, g) => if g < 64 then Target(p.view, key, false) else None
    case Unwatch(key, g) => if g < 64 then Target(p.view, key, false) else None
    case Bind(_, _) => None
  }

  /** The slot's masks after the operation. */
  function TagsAfter(t: Tags, op: Op): Tags {
    match op
    case Erase(_) => NO_TAGS
    case SetLabel(_, mask) => t.(bloom := WordOr(t.bloom, mask))
    case ClearLabel(_, mask) => t.(bloom := WordClear(t.bloom, mask))
    case Watch(_, g) => if g < 64 then t.(watchers := WordOr(t.watchers, Bit(g as nat))) else t
    case Unwatch(_, g) => if g < 64 then t.(watchers := WordClear(t.watchers, Bit(g as nat))) else t
    case _ => t
  }

  /** The masks the operation pulses by: a clear and an erase wake whoever listened before it. */
  function PulseBy(t: Tags, op: Op): Option<Tags> {
    match op
    case SetLabel(_, mask) => Some(TagsAfter(t, op))
    case Watch(_, _) => None
    case Unwatch(_, _) => None
    case Bind(_, _) => None
    case _ => Some(t)
  }

  function Bound(binds: seq<byte>, mask: u64, g: byte): (r: seq<byte>)
    requires |binds| == 64
    ensures |r| == 64
    ensures forall b :: 0 <= b < 64 ==> r[b] == if BitAt(mask, b) then g else binds[b]
  {
    seq(64, b requires 0 <= b < 64 => if BitAt(mask, b) then g else binds[b])
  }

  function ViewAfter(p: Plane, op: Op): (v: View)
    requires p.Ok()
    ensures Fits(v, p.maxVal) && |v| == |p.view|
  {
    match op
    case SetValue(key, val) => SetView(p.view, p.maxVal, key, val, p.mode)
    case Extend(key, data) => AppendView(p.view, p.maxVal, key, data)
    case Embed(key, vec) => WriteView(p.view, p.maxVal, key, SetEmbedding(vec))
    case Integer(key, word, mask, typed) =>
      if typed then WriteView(p.view, p.maxVal, key, IntegerOp(word, mask)) else p.view
    case Bump(key) => WriteView(p.view, p.maxVal, key, SlotEffects.Bump)
    case Erase(key) => UnsetView(p.view, p.maxVal, key, p.mode != NoScrub)
    case _ => p.view
  }

  function GroupsAfter(p: Plane, t: Tags, op: Op): (r: seq<u64>)
    requires p.Ok()
    ensures |r| == GROUPS
  {
    match PulseBy(t, op)
    case Some(masks) => Pulsed(p.groups, p.binds, masks)
    case None => p.groups
  }

  function Step(p: Plane, op: Op): (q: Plane)
    requires p.Ok()
    ensures q.Ok() && q.maxVal == p.maxVal && |q.view| == |p.view|
  {
    match SlotOf(p, op)
    case Some(s) =>
      p.(view := ViewAfter(p, op), tags := p.tags[s := TagsAfter(p.tags[s], op)],
         groups := GroupsAfter(p, p.tags[s], op))
    case None =>
      if op.Bind? && op.group < 64 then p.(binds := Bound(p.binds, op.mask, op.group))
      else p.(view := ViewAfter(p, op))
  }

  /** An operation that leaves the masks alone: what it does to the table, and a pulse if it reached a slot. */
  predicate Plain(op: Op) {
    op.SetValue? || op.Extend? || op.Embed? || op.Integer? || op.Bump? || op.PulseKey?
  }

  lemma PlainStep(p: Plane, op: Op)
    requires p.Ok() && Plain(op)
    ensures Step(p, op) ==
      match SlotOf(p, op)
      case Some(s) => p.(view := ViewAfter(p, op), groups := Pulsed(p.groups, p.binds, p.tags[s]))
      case None => p.(view := ViewAfter(p, op))
  {
    match SlotOf(p, op)
    case None =>
    case Some(s) => assert p.tags[s := p.tags[s]] == p.tags;
  }

  lemma EraseStep(p: Plane, key: CString)
    requires p.Ok()
    ensures Step(p, Erase(key)) ==
      if UnsetRc(p.view, p.maxVal, key) != Rc.Ok then p
      else
        var s := Target(p.view, key, false).value;
        p.(view := UnsetView(p.view, p.maxVal, key, p.mode != NoScrub), tags := p.tags[s := NO_TAGS],
           groups := Pulsed(p.groups, p.binds, p.tags[s]))
  {
  }

  // ---- The plane in memory ---------------------------------------------------------------------

  class SignalPlane {
    const store: S.Store
    const tags: array<Tags>
    const binds: array<byte>
    const groups: array<u64>

    ghost predicate Valid()
      reads this, store, store.slots, store.arena
    {
      && store.Valid() && binds != store.arena
      && tags.Length == |store.view| && binds.Length == 64 && groups.Length == GROUPS
    }

    ghost function Abs(): Plane
      reads this, store, tags, binds, groups, store.slots, store.arena
      requires Valid()
      ensures Abs().Ok()
    {
      Plane(store.view, store.maxVal, store.Mode(), tags[..], binds[..], groups[..])
    }

    constructor (store: S.Store)
      requires store.Valid()
      ensures Valid() && this.store == store && fresh(tags) && fresh(binds) && fresh(groups)
      ensures forall g :: 0 <= g < GROUPS ==> groups[g] == 0
      ensures forall s :: 0 <= s < tags.Length ==> tags[s] == NO_TAGS
      ensures forall b :: 0 <= b < 64 ==> binds[b] == UNWATCHED
    {
      this.store := store;
      tags := new Tags[store.slots.Length](_ => NO_TAGS);
      binds := new byte[64](_ => UNWATCHED);
      groups := new u64[GROUPS](_ => 0);
    }

    /** `splinter_pulse_masks`. */
    method PulseMasks(t: Tags)
      requires Valid()
      modifies groups
      ensures groups[..] == Pulsed(old(groups[..]), binds[..], t)
    {
      ghost var was := groups[..];
      PulseWatchers(t);
      PulseLabels(t, was, binds[..]);
    }

    /** The loop of `splinter_pulse_masks` over the labels. */
    method PulseLabels(t: Tags, ghost was: seq<u64>, ghost routes: seq<byte>)
      requires Valid() && |was| == GROUPS && routes == binds[..]
      requires forall g :: 0 <= g < GROUPS ==> groups[g] == Raised(was[g], Direct(t, g))
      modifies groups
      ensures groups[..] == Pulsed(was, routes, t)
    {
      assert groups[..] == PulsedBy(was, routes, t, 0);
      for b := 0 to 64
        invariant groups[..] == PulsedBy(was, routes, t, b)
      {
        NextLabel(was, routes, t, b);
        PulseLabel(t, b);
      }
      assert PulsedBy(was, routes, t, 64) == Pulsed(was, routes, t);
    }

    method PulseLabel(t: Tags, b: nat)
      requires Valid() && b < 64
      modifies groups
      ensures var was, g := old(groups[..]), binds[b] as nat;
        groups[..] == if BitAt(t.bloom, b) && g < GROUPS then was[g := Raised(was[g], 1)] else was
    {
      if BitAt(t.bloom, b) {
        var g := binds[b] as nat;
        if g < GROUPS {
          groups[g] := Raised(groups[g], 1);
        }
      }
    }

    /** The loop of `splinter_pulse_masks` over the groups. */
    method PulseWatchers(t: Tags)
      requires Valid()
      modifies groups
      ensures forall g :: 0 <= g < GROUPS ==> groups[g] == Raised(old(groups[g]), Direct(t, g))
    {
      for i := 0 to GROUPS
        invariant forall g :: 0 <= g < GROUPS ==>
          groups[g] == if g < i then Raised(old(groups[g]), Direct(t, g)) else old(groups[g])
      {
        RaisedTwice(groups[i], 0);
        if BitAt(t.watchers, i) {
          groups[i] := (groups[i] + 1) % MOD64;
        }
      }
    }

    method SetLabel(key: CString, mask: u64) returns (rc: Rc)
      requires Valid()
      modifies tags, groups
      ensures Valid() && (rc == Rc.Ok <==> SlotOf(old(Abs()), Op.SetLabel(key, mask)).Some?)
      ensures Abs() == Step(old(Abs()), Op.SetLabel(key, mask))
    {
      var t := store.ScanMatch(key);
      if t.None? { return NotFound; }
      tags[t.value] := tags[t.value].(bloom := WordOr(tags[t.value].bloom, mask));
      PulseMasks(tags[t.value]);
      rc := Rc.Ok;
    }

    method UnsetLabel(key: CString, mask: u64) returns (rc: Rc)
      requires Valid()
      modifies tags, groups
      ensures Valid() && (rc == Rc.Ok <==> SlotOf(old(Abs()), Op.ClearLabel(key, mask)).Some?)
      ensures Abs() == Step(old(Abs()), Op.ClearLabel(key, mask))
    {
      var t := store.ScanMatch(key);
      if t.None? { return NotFound; }
      var before := tags[t.value];
      tags[t.value] := before.(bloom := WordClear(before.bloom, mask));
      PulseMasks(before);
      rc := Rc.Ok;
    }

    method WatchRegister(key: CString, group: byte) returns (rc: Rc)
      requires Valid()
      modifies tags
      ensures Valid() && (rc == Rc.Ok <==> SlotOf(old(Abs()), Op.Watch(key, group)).Some?)
      ensures Abs() == Step(old(Abs()), Op.Watch(key, group))
    {
      if group >= 64 { return BadCall; }
      var t := store.ScanMatch(key);
      if t.None? { return NotFound; }
      tags[t.value] := tags[t.value].(watchers := WordOr(tags[t.value].watchers, Bit(group as nat)));
      rc := Rc.Ok;
    }

    method WatchUnregister(key: CString, group: byte) returns (rc: Rc)
      requires Valid()
      modifies tags
      ensures Valid() && (rc == Rc.Ok <==> SlotOf(old(Abs()), Op.Unwatch(key, group)).Some?)
      ensures Abs() == Step(old(Abs()), Op.Unwatch(key, group))
    {
      if group >= 64 { return BadCall; }
      var t := store.ScanMatch(key);
      if t.None? { return NotFound; }
      tags[t.value] := tags[t.value].(watchers := WordClear(tags[t.value].watchers, Bit(group as nat)));
      rc := Rc.Ok;
    }

    method WatchLabelRegister(mask: u64, group: byte) returns (rc: Rc)
      requires Valid()
      modifies binds
      ensures Valid() && (rc == Rc.Ok <==> group < 64)
      ensures Abs() == Step(old(Abs()), Op.Bind(mask, group))
    {
      if group >= 64 { return BadCall; }
      for i := 0 to 64
        invariant forall b :: 0 <= b < 64 ==>
          binds[b] == if b < i && BitAt(mask, b) then group else old(binds[b])
      {
        if BitAt(mask, i) {
          binds[i] := group;
        }
      }
      assert binds[..] == Bound(old(binds[..]), mask, group);
      rc := Rc.Ok;
    }

    /** `splinter_unset`: the masks are captured before the teardown and pulsed after it. */
    method Unset(key: CString) returns (rc: Rc)
      requires Valid()
      modifies store`view, store.slots, store.arena, tags, groups
      ensures Valid() && (rc == Rc.Ok <==> SlotOf(old(Abs()), Op.Erase(key)).Some?)
      ensures Abs() == Step(old(Abs()), Op.Erase(key))
    {
      EraseStep(Abs(), key);
      var t := store.ScanMatch(key);
      var len;
      rc, len := store.Unset(key);
      if rc != Rc.Ok { return; }
      var dying := tags[t.value];
      tags[t.value] := NO_TAGS;
      PulseMasks(dying);
    }

    /** `splinter_set` with its pulse. */
    method Set(key: CString, val: seq<byte>) returns (rc: Rc)
      requires Valid()
      modifies store`view, store.slots, store.arena, groups
      ensures Valid() && rc == SetRc(old(store.view), store.maxVal, key, val)
      ensures Abs() == Step(old(Abs()), SetValue(key, val))
    {
      PlainStep(Abs(), SetValue(key, val));
      var h := Fnv.Fnv1a(key);
      var t, _ := store.ScanClaim(key, h);
      rc := store.Set(key, val);
      if rc == Rc.Ok {
        PulseMasks(tags[t.value]);
      }
    }

    /** `splinter_append` with its pulse; a refused one closes the epoch again without pulsing. */
    method Append(key: CString, data: seq<byte>) returns (rc: Rc)
      requires Valid()
      modifies store`view, store.slots, store.arena, groups
      ensures Valid() && rc == AppendRc(old(store.view), store.maxVal, key, data)
      ensures Abs() == Step(old(Abs()), Extend(key, data))
    {
      PlainStep(Abs(), Extend(key, data));
      var t := store.ScanMatch(key);
      var len;
      rc, len := store.Append(key, data);
      if rc == Rc.Ok {
        PulseMasks(tags[t.value]);
      }
    }

    method SetEmbedding(key: CString, vec: seq<float32>) returns (rc: Rc)
      requires Valid() && |vec| == EMBED_DIM
      modifies store`view, store.slots, store.arena, groups
      ensures Valid() && Abs() == Step(old(Abs()), Embed(key, vec))
    {
      PlainStep(Abs(), Embed(key, vec));
      var t := store.ScanMatch(key);
      rc := store.SetEmbedding(key, vec);
      if rc == Rc.Ok {
        PulseMasks(tags[t.value]);
      }
    }

    method IntegerOp(key: CString, op: WordOp, mask: u64, typed: bool) returns (rc: Rc)
      requires Valid() && 8 <= store.maxVal
      modifies store`view, store.slots, store.arena, groups
      ensures Valid() && Abs() == Step(old(Abs()), Integer(key, op, mask, typed))
    {
      PlainStep(Abs(), Integer(key, op, mask, typed));
      var t := store.ScanMatch(key);
      rc := store.IntegerOp(key, op, mask, typed);
      if rc == Rc.Ok {
        PulseMasks(tags[t.value]);
      }
    }

    method BumpSlot(key: CString) returns (rc: Rc)
      requires Valid()
      modifies store`view, store.slots, store.arena, groups
      ensures Valid() && Abs() == Step(old(Abs()), Op.Bump(key))
    {
      PlainStep(Abs(), Op.Bump(key));
      var t := store.ScanMatch(key);
      rc := store.BumpSlot(key);
      if rc == Rc.Ok {
        PulseMasks(tags[t.value]);
      }
    }

    /** `splinter_pulse_keygroup`. */
    method PulseKeygroup(key: CString) returns (rc: Rc)
      requires Valid()
      modifies groups
      ensures Valid() && Abs() == Step(old(Abs()), PulseKey(key))
    {
      PlainStep(Abs(), PulseKey(key));
      var t := store.ScanMatch(key);
      if t.None? { return NotFound; }
      PulseMasks(tags[t.value]);
      rc := Rc.Ok;
    }
  }
}
