/** Which groups hear an operation, in terms of the history of the run alone. */
module SignalLaws {
  import opened Bytes
  import opened Options
  import opened Bits
  import opened Counting
  import opened Table
  import opened Signals

  // ---- Runs ------------------------------------------------------------------------------------

  /** A fresh plane: no labels, no watchers, no bindings. */
  predicate FreshPlane(p: Plane) {
    && p.Ok()
    && (forall s :: 0 <= s < |p.tags| ==> p.tags[s] == NO_TAGS)
    && (forall b :: 0 <= b < 64 ==> p.binds[b] == UNWATCHED)
  }

  /** The plane before operation `k`. */
  function At(p: Plane, run: seq<Op>, k: nat): (q: Plane)
    requires p.Ok() && k <= |run|
    ensures q.Ok() && |q.tags| == |p.tags|
  {
    if k == 0 then p else Step(At(p, run, k - 1), run[k - 1])
  }

  predicate Hits(p: Plane, run: seq<Op>, i: nat, s: nat)
    requires p.Ok() && i < |run|
  {
    SlotOf(At(p, run, i), run[i]) == Some(s)
  }

  // ---- What happened last ----------------------------------------------------------------------

  /** `on` happened before time `k`, and `off` has not happened since. */
  ghost predicate Since(on: nat -> bool, off: nat -> bool, k: nat) {
    exists i :: 0 <= i < k && on(i) && NotSince(off, i, k)
  }

  predicate NotSince(off: nat -> bool, i: nat, k: nat) {
    forall j :: i < j < k ==> !off(j)
  }

  lemma SinceStep(on: nat -> bool, off: nat -> bool, k: nat)
    ensures !Since(on, off, 0)
    ensures Since(on, off, k + 1) <==> on(k) || (Since(on, off, k) && !off(k))
  {
    if Since(on, off, k + 1) {
      var i :| 0 <= i < k + 1 && on(i) && NotSince(off, i, k + 1);
      assert i < k ==> NotSince(off, i, k);
    }
    if on(k) {
      assert NotSince(off, k, k + 1);
    }
    if Since(on, off, k) && !off(k) {
      var i :| 0 <= i < k && on(i) && NotSince(off, i, k);
      assert NotSince(off, i, k + 1);
    }
  }

  /** A condition that `on` establishes, `off` ends and nothing else changes. */
  lemma {:induction false} SinceIs(cond: nat -> bool, on: nat -> bool, off: nat -> bool, k: nat)
    requires !cond(0)
    requires forall i: nat :: i < k ==> (cond(i + 1) <==> on(i) || (cond(i) && !off(i)))
    ensures cond(k) <==> Since(on, off, k)
  {
    if k == 0 {
      SinceStep(on, off, 0);
    } else {
      SinceIs(cond, on, off, k - 1);
      SinceStep(on, off, k - 1);
    }
  }

  /** Operation `i` puts label `b` on slot `s`. */
  function Labels(p: Plane, run: seq<Op>, s: nat, b: nat): nat -> bool
    requires p.Ok()
  {
    (i: nat) => i < |run| && Hits(p, run, i, s) && PutsLabel(run[i], b)
  }

  /** Operation `i` takes label `b` off slot `s`. */
  function Unlabels(p: Plane, run: seq<Op>, s: nat, b: nat): nat -> bool
    requires p.Ok()
  {
    (i: nat) => i < |run| && Hits(p, run, i, s) && DropsLabel(run[i], b)
  }

  function Watches(p: Plane, run: seq<Op>, s: nat, g: nat): nat -> bool
    requires p.Ok()
  {
    (i: nat) => i < |run| && Hits(p, run, i, s) && PutsWatch(run[i], g)
  }

  function Unwatches(p: Plane, run: seq<Op>, s: nat, g: nat): nat -> bool
    requires p.Ok()
  {
    (i: nat) => i < |run| && Hits(p, run, i, s) && DropsWatch(run[i], g)
  }

  predicate Binding(op: Op, b: nat) {
    op.Bind? && op.group < 64 && BitAt(op.mask, b)
  }

  function BindsTo(run: seq<Op>, b: nat, g: nat): nat -> bool {
    (i: nat) => i < |run| && Binding(run[i], b) && run[i].group as nat == g
  }

  function BindsElsewhere(run: seq<Op>, b: nat, g: nat): nat -> bool {
    (i: nat) => i < |run| && Binding(run[i], b) && run[i].group as nat != g
  }

  // ---- The masks record the history ------------------------------------------------------------

  predicate PutsLabel(op: Op, b: nat) {
    op.SetLabel? && BitAt(op.mask, b)
  }

  predicate DropsLabel(op: Op, b: nat) {
    op.Erase? || (op.ClearLabel? && BitAt(op.mask, b))
  }

  predicate PutsWatch(op: Op, g: nat) {
    op.Watch? && op.group as nat == g
  }

  predicate DropsWatch(op: Op, g: nat) {
    op.Erase? || (op.Unwatch? && op.group as nat == g)
  }

  lemma TagsStep(t: Tags, op: Op, b: nat)
    ensures BitAt(TagsAfter(t, op).bloom, b) <==> PutsLabel(op, b) || (BitAt(t.bloom, b) && !DropsLabel(op, b))
    ensures b < GROUPS ==>
      (BitAt(TagsAfter(t, op).watchers, b) <==> PutsWatch(op, b) || (BitAt(t.watchers, b) && !DropsWatch(op, b)))
  {
    NoBits(b);
  }

  function Carries(p: Plane, run: seq<Op>, s: nat, b: nat): nat -> bool
    requires p.Ok() && s < |p.tags|
  {
    (i: nat) => i <= |run| && BitAt(At(p, run, i).tags[s].bloom, b)
  }

  lemma CarriesStep(p: Plane, run: seq<Op>, i: nat, s: nat, b: nat)
    requires p.Ok() && s < |p.tags| && i < |run|
    ensures Carries(p, run, s, b)(i + 1) <==>
      Labels(p, run, s, b)(i) || (Carries(p, run, s, b)(i) && !Unlabels(p, run, s, b)(i))
  {
    TagsStep(At(p, run, i).tags[s], run[i], b);
  }

  /** A slot carries exactly the labels set on it and neither cleared nor erased since. */
  lemma CarriesIff(p: Plane, run: seq<Op>, k: nat, s: nat, b: nat)
    requires FreshPlane(p) && k <= |run| && s < |p.tags|
    ensures BitAt(At(p, run, k).tags[s].bloom, b) <==> Since(Labels(p, run, s, b), Unlabels(p, run, s, b), k)
  {
    NoBits(b);
    forall i: nat | i < k
      ensures Carries(p, run, s, b)(i + 1) <==>
        Labels(p, run, s, b)(i) || (Carries(p, run, s, b)(i) && !Unlabels(p, run, s, b)(i))
    {
      CarriesStep(p, run, i, s, b);
    }
    SinceIs(Carries(p, run, s, b), Labels(p, run, s, b), Unlabels(p, run, s, b), k);
  }

  function Watched(p: Plane, run: seq<Op>, s: nat, g: nat): nat -> bool
    requires p.Ok() && s < |p.tags|
  {
    (i: nat) => i <= |run| && BitAt(At(p, run, i).tags[s].watchers, g)
  }

  lemma WatchedStep(p: Plane, run: seq<Op>, i: nat, s: nat, g: nat)
    requires p.Ok() && s < |p.tags| && i < |run| && g < GROUPS
    ensures Watched(p, run, s, g)(i + 1) <==>
      Watches(p, run, s, g)(i) || (Watched(p, run, s, g)(i) && !Unwatches(p, run, s, g)(i))
  {
    TagsStep(At(p, run, i).tags[s], run[i], g);
  }

  /** A slot is watched by exactly the groups registered on it and neither unregistered nor erased since. */
  lemma WatchedIff(p: Plane, run: seq<Op>, k: nat, s: nat, g: nat)
    requires FreshPlane(p) && k <= |run| && s < |p.tags| && g < GROUPS
    ensures BitAt(At(p, run, k).tags[s].watchers, g)
       <==> Since(Watches(p, run, s, g), Unwatches(p, run, s, g), k)
  {
    NoBits(g);
    forall i: nat | i < k
      ensures Watched(p, run, s, g)(i + 1) <==>
        Watches(p, run, s, g)(i) || (Watched(p, run, s, g)(i) && !Unwatches(p, run, s, g)(i))
    {
      WatchedStep(p, run, i, s, g);
    }
    SinceIs(Watched(p, run, s, g), Watches(p, run, s, g), Unwatches(p, run, s, g), k);
  }

  /** The routing table after the first `k` operations; only bindings change it. */
  function Routes(binds: seq<byte>, run: seq<Op>, k: nat): (r: seq<byte>)
    requires |binds| == 64 && k <= |run|
    ensures |r| == 64
  {
    if k == 0 then binds
    else
      var r, op := Routes(binds, run, k - 1), run[k - 1];
      if op.Bind? && op.group < 64 then Signals.Bound(r, op.mask, op.group) else r
  }

  lemma {:induction false} RoutesAreBinds(p: Plane, run: seq<Op>, k: nat)
    requires p.Ok() && k <= |run|
    ensures At(p, run, k).binds == Routes(p.binds, run, k)
  {
    if k > 0 {
      RoutesAreBinds(p, run, k - 1);
      StepBinds(At(p, run, k - 1), run[k - 1]);
    }
  }

  lemma StepBinds(p: Plane, op: Op)
    requires p.Ok()
    ensures Step(p, op).binds ==
      if op.Bind? && op.group < 64 then Signals.Bound(p.binds, op.mask, op.group) else p.binds
  {
  }

  function BoundTo(binds: seq<byte>, run: seq<Op>, b: nat, g: nat): nat -> bool
    requires |binds| == 64 && b < 64
  {
    (i: nat) => i <= |run| && Routes(binds, run, i)[b] as nat == g
  }

  /** A label is routed to the group it was last bound to. */
  lemma RoutedIff(p: Plane, run: seq<Op>, k: nat, b: nat, g: nat)
    requires FreshPlane(p) && k <= |run| && b < 64 && g < GROUPS
    ensures At(p, run, k).binds[b] as nat == g <==> Since(BindsTo(run, b, g), BindsElsewhere(run, b, g), k)
  {
    RoutesAreBinds(p, run, k);
    RoutesIff(p.binds, run, k, b, g);
  }

  lemma RoutesIff(binds: seq<byte>, run: seq<Op>, k: nat, b: nat, g: nat)
    requires |binds| == 64 && k <= |run| && b < 64 && g < GROUPS && binds[b] == UNWATCHED
    ensures Routes(binds, run, k)[b] as nat == g <==> Since(BindsTo(run, b, g), BindsElsewhere(run, b, g), k)
  {
    forall i: nat | i < k
      ensures BoundTo(binds, run, b, g)(i + 1) <==>
        BindsTo(run, b, g)(i) || (BoundTo(binds, run, b, g)(i) && !BindsElsewhere(run, b, g)(i))
    {
    }
    SinceIs(BoundTo(binds, run, b, g), BindsTo(run, b, g), BindsElsewhere(run, b, g), k);
  }

  // ---- Who hears an operation ------------------------------------------------------------------

  /** The operation is one that pulses. */
  predicate Pulses(op: Op) {
    !op.Watch? && !op.Unwatch? && !op.Bind?
  }

  /** Slot `s` carries label `b` as far as operation `k` is concerned: a label being set counts. */
  ghost predicate Carried(p: Plane, run: seq<Op>, k: nat, s: nat, b: nat)
    requires p.Ok() && k < |run|
  {
    || Since(Labels(p, run, s, b), Unlabels(p, run, s, b), k)
    || PutsLabel(run[k], b)
  }

  /** Group `g` is listening to slot `s` when operation `k` acts on it. */
  ghost predicate Listens(p: Plane, run: seq<Op>, k: nat, s: nat, g: nat)
    requires p.Ok() && k < |run|
  {
    || Since(Watches(p, run, s, g), Unwatches(p, run, s, g), k)
    || exists b :: 0 <= b < 64 && Heard(p, run, k, s, g, b)
  }

  /** Label `b` is carried by the slot and was last bound to group `g`. */
  ghost predicate Heard(p: Plane, run: seq<Op>, k: nat, s: nat, g: nat, b: nat)
    requires p.Ok() && k < |run|
  {
    Carried(p, run, k, s, b) && Since(BindsTo(run, b, g), BindsElsewhere(run, b, g), k)
  }

  /** The labels the slot carries that were last bound to group `g`. */
  ghost function HeardBy(p: Plane, run: seq<Op>, k: nat, s: nat, g: nat): nat -> bool
    requires p.Ok() && k < |run|
  {
    (b: nat) => Heard(p, run, k, s, g, b)
  }

  /** What the history says operation `k` must add to the counter of group `g`. */
  ghost function Due(p: Plane, run: seq<Op>, k: nat, s: nat, g: nat): nat
    requires p.Ok() && k < |run|
  {
    (if Since(Watches(p, run, s, g), Unwatches(p, run, s, g), k) then 1 else 0) + Count(HeardBy(p, run, k, s, g), 64)
  }

  /**
   Over every run from a fresh plane, an operation that pulses and reached a slot raises each group by
   one if it watches the slot and by one for every label the slot carries that was last bound to it;
   any other operation raises nothing.
   */
  lemma HeardExactly(p: Plane, run: seq<Op>, k: nat, g: nat)
    requires FreshPlane(p) && k < |run| && g < GROUPS
    ensures var q := At(p, run, k);
      At(p, run, k + 1).groups[g] ==
        match SlotOf(q, run[k])
        case Some(s) => if Pulses(run[k]) then Raised(q.groups[g], Due(p, run, k, s, g)) else q.groups[g]
        case None => q.groups[g]
  {
    var q := At(p, run, k);
    match SlotOf(q, run[k])
    case None =>
    case Some(s) =>
      if Pulses(run[k]) {
        RaisesDue(p, run, k, s, g, PulseBy(q.tags[s], run[k]).value);
      }
  }

  lemma RaisesDue(p: Plane, run: seq<Op>, k: nat, s: nat, g: nat, t: Tags)
    requires FreshPlane(p) && k < |run| && g < GROUPS && s < |p.tags|
    requires PulseBy(At(p, run, k).tags[s], run[k]) == Some(t)
    ensures Raises(At(p, run, k).binds, t, g) == Due(p, run, k, s, g)
  {
    WatchedIff(p, run, k, s, g);
    RoutedIsHeard(p, run, k, s, g, t, 64);
  }

  lemma {:induction false} RoutedIsHeard(p: Plane, run: seq<Op>, k: nat, s: nat, g: nat, t: Tags, n: nat)
    requires FreshPlane(p) && k < |run| && g < GROUPS && s < |p.tags| && n <= 64
    requires PulseBy(At(p, run, k).tags[s], run[k]) == Some(t)
    ensures Routed(At(p, run, k).binds, t.bloom, g, n) == Count(HeardBy(p, run, k, s, g), n)
  {
    if n > 0 {
      RoutedIsHeard(p, run, k, s, g, t, n - 1);
      ReachesIff(p, run, k, s, g, t, n - 1);
    }
  }

  lemma ReachesIff(p: Plane, run: seq<Op>, k: nat, s: nat, g: nat, t: Tags, b: nat)
    requires FreshPlane(p) && k < |run| && g < GROUPS && s < |p.tags| && b < 64
    requires PulseBy(At(p, run, k).tags[s], run[k]) == Some(t)
    ensures Reaches(At(p, run, k).binds, t.bloom, b, g) <==> Heard(p, run, k, s, g, b)
  {
    CarriesIff(p, run, k, s, b);
    RoutedIff(p, run, k, b, g);
  }

  /** The group is due something exactly when it listens. */
  lemma DueIffListens(p: Plane, run: seq<Op>, k: nat, s: nat, g: nat)
    requires p.Ok() && k < |run|
    ensures Due(p, run, k, s, g) <= 65
    ensures Due(p, run, k, s, g) > 0 <==> Listens(p, run, k, s, g)
  {
    CountPositive(HeardBy(p, run, k, s, g), 64);
    if Count(HeardBy(p, run, k, s, g), 64) > 0 {
      var b :| 0 <= b < 64 && HeardBy(p, run, k, s, g)(b);
      assert Heard(p, run, k, s, g, b);
    }
    if b :| 0 <= b < 64 && Heard(p, run, k, s, g, b) {
      assert HeardBy(p, run, k, s, g)(b);
    }
  }

  /** So a counter moves exactly when the group was listening to the slot that a pulsing operation reached. */
  lemma HeardIff(p: Plane, run: seq<Op>, k: nat, g: nat)
    requires FreshPlane(p) && k < |run| && g < GROUPS
    ensures At(p, run, k + 1).groups[g] != At(p, run, k).groups[g]
       <==> Pulses(run[k]) && exists s :: 0 <= s < |p.tags| && Hits(p, run, k, s) && Listens(p, run, k, s, g)
  {
    HeardExactly(p, run, k, g);
    var q := At(p, run, k);
    match SlotOf(q, run[k])
    case None =>
    case Some(s) =>
      assert Hits(p, run, k, s);
      DueIffListens(p, run, k, s, g);
      RaisedMoves(q.groups[g], Due(p, run, k, s, g));
  }
}
