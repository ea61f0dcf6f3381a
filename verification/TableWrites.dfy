/** The writers that keep a slot's key and place: set_embedding, integer_op and bump. */
module TableWrites {
  import opened Bytes
  import opened SlotEffects
  import opened Table
  import opened TableLaws

  predicate InPlace(op: Op) {
    op.SetEmbedding? || op.IntegerOp? || op.Bump?
  }

  function WriteRc(v: View, maxVal: nat, key: CString, op: Op): Rc
    requires Fits(v, maxVal)
  {
    if !op.Allowed(maxVal) then BadCall
    else match Target(v, key, false)
      case None => NotFound
      case Some(s) => if v[s].Idle() then Ok else Eagain
  }

  function WriteView(v: View, maxVal: nat, key: CString, op: Op): (v': View)
    requires Fits(v, maxVal)
    ensures Fits(v', maxVal) && |v'| == |v|
  {
    if WriteRc(v, maxVal, key, op) != Ok then v
    else
      var s := Target(v, key, false).value;
      v[s := Cell(Effect(op, v[s].c, maxVal), Bumped(v[s].epoch))]
  }

  /** Such a write keeps every epoch even, changes at most the value a lookup of its key finds, and only by its word. */
  lemma WriteOnStack(v: View, maxVal: nat, key: CString, op: Op, other: CString)
    requires Fits(v, maxVal) && AllIdle(v) && GoodKey(key) && GoodKey(other) && InPlace(op)
    ensures AllIdle(WriteView(v, maxVal, key, op))
    ensures op.IntegerOp? && other == key && WriteRc(v, maxVal, key, op) == Ok ==>
      && Stack(v, key) != []
      && Stack(WriteView(v, maxVal, key, op), key)
           == [Effect(op, v[Target(v, key, false).value].c, maxVal).Value()] + Stack(v, key)[1..]
    ensures !op.IntegerOp? || other != key || WriteRc(v, maxVal, key, op) != Ok ==>
      Stack(WriteView(v, maxVal, key, op), other) == Stack(v, other)
  {
    TargetIsTop(v, key);
    if WriteRc(v, maxVal, key, op) == Ok {
      var j := FirstStop(v, key, false, 0);
      var s := ProbeSlot(|v|, key, j);
      var cell := Cell(Effect(op, v[s].c, maxVal), Bumped(v[s].epoch));
      OneCellStaysEven(v, s, cell);
      TopRewritten(v, key, j, cell);
      if other != key {
        MatchDeterminesKey(v[s].c, key, other);
        StackUntouched(v, other, s, cell, 0);
      }
    }
  }

  lemma TopRewritten(v: View, key: CString, j: nat, cell: Cell)
    requires Shaped(v) && CellShaped(cell) && j < |v| && FirstStop(v, key, false, 0) == j && Matches(cell.c, key)
    ensures Stack(v, key) != []
    ensures Stack(v[ProbeSlot(|v|, key, j) := cell], key) == [cell.c.Value()] + Stack(v, key)[1..]
  {
    forall h | 0 <= h < j
      ensures Here(v, key, h) == []
    {
      assert !Stops(v[ProbeSlot(|v|, key, h)], key, false);
    }
    StackTopAfter(v, key, ProbeSlot(|v|, key, j), cell, j);
  }
}
