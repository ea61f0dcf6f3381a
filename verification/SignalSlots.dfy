/** Which operations of the signal plane reach a slot, in terms of what is stored. */
module SignalSlots {
  import opened Bytes
  import opened Options
  import opened Table
  import opened Signals
  import SlotEffects
  import opened Values
  import opened PlainMap

  /** The key is stored: lookups find it. */
  predicate Known(p: Plane, key: CString)
    requires p.Ok()
  {
    Stack(p.view, key) != []
  }

  /** What the operation asks for besides a slot. */
  predicate Accepted(p: Plane, op: Op)
    requires p.Ok()
  {
    match op
    case SetValue(key, val) => 0 < |val| <= p.maxVal && (Known(p, key) || Vacancies(p.view) > 0)
    case Extend(key, data) => Known(p, key) && data != [] && |Stack(p.view, key)[0]| + |data| <= p.maxVal
    case Embed(key, vec) => Known(p, key) && |vec| == SlotEffects.EMBED_DIM
    case Integer(key, _, _, typed) => Known(p, key) && typed && 8 <= p.maxVal
    case Watch(key, g) => Known(p, key) && g < 64
    case Unwatch(key, g) => Known(p, key) && g < 64
    case Bind(_, _) => false
    case _ => Known(p, op.key)
  }

  /**
   While no writer is at work, an operation reaches a slot exactly when its key is stored (or, for a set, a
   slot is free) and its arguments are in order; the slot is one that matches the key, or an empty one for a set.
   */
  lemma ReachesIff(p: Plane, op: Op)
    requires p.Ok() && AllIdle(p.view) && (!op.Bind? ==> GoodKey(op.key))
    ensures SlotOf(p, op).Some? <==> Accepted(p, op)
    ensures SlotOf(p, op).Some? ==>
      var c := p.view[SlotOf(p, op).value].c;
      Matches(c, op.key) || (op.SetValue? && c.hash == 0)
  {
    match op
    case SetValue(key, val) => SetReaches(p, key, val);
    case Extend(key, data) => ExtendReaches(p, key, data);
    case Bind(_, _) =>
    case _ => OtherReaches(p, op);
  }

  lemma LookupReaches(p: Plane, key: CString)
    requires p.Ok() && AllIdle(p.view)
    ensures var t := Target(p.view, key, false);
      && (t.Some? <==> Known(p, key))
      && (t.Some? ==> Matches(p.view[t.value].c, key) && p.view[t.value].Idle())
  {
    TargetIsTop(p.view, key);
  }

  lemma OtherReaches(p: Plane, op: Op)
    requires p.Ok() && AllIdle(p.view) && !op.SetValue? && !op.Extend? && !op.Bind?
    ensures SlotOf(p, op).Some? <==> Accepted(p, op)
    ensures SlotOf(p, op).Some? ==> Matches(p.view[SlotOf(p, op).value].c, op.key)
  {
    LookupReaches(p, op.key);
    if op.Embed? || op.Integer? || op.Bump? {
      WriteReaches(p, op);
    }
  }

  lemma WriteReaches(p: Plane, op: Op)
    requires p.Ok() && AllIdle(p.view) && (op.Embed? || op.Integer? || op.Bump?)
    requires Target(p.view, op.key, false).Some? <==> Known(p, op.key)
    ensures SlotOf(p, op).Some? <==> Accepted(p, op)
    ensures SlotOf(p, op).Some? ==> SlotOf(p, op) == Target(p.view, op.key, false)
  {
  }

  lemma SetReaches(p: Plane, key: CString, val: seq<byte>)
    requires p.Ok() && AllIdle(p.view)
    ensures SlotOf(p, SetValue(key, val)).Some? <==> Accepted(p, SetValue(key, val))
    ensures SlotOf(p, SetValue(key, val)).Some? ==>
      var c := p.view[SlotOf(p, SetValue(key, val)).value].c;
      Matches(c, key) || c.hash == 0
  {
    RoomIff(p.view, key);
  }

  lemma ExtendReaches(p: Plane, key: CString, data: seq<byte>)
    requires p.Ok() && AllIdle(p.view)
    ensures SlotOf(p, Extend(key, data)).Some? <==> Accepted(p, Extend(key, data))
    ensures SlotOf(p, Extend(key, data)).Some? ==> Matches(p.view[SlotOf(p, Extend(key, data)).value].c, key)
  {
    TargetIsTop(p.view, key);
  }
}
