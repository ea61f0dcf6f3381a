/** What the in-place 64-bit operations do to the word at the start of a value. */
module IntegerOps {
  import opened Bytes
  import opened Bits
  import opened SlotEffects

  lemma EightBytes()
    ensures Pow256(8) == MOD64
  {
    assert Pow256(4) == 0x1_0000_0000;
  }

  lemma {:induction false} WordBelow(b: seq<byte>)
    ensures Word(b) < Pow256(|b|)
  {
    if b != [] {
      WordBelow(b[1..]);
    }
  }

  lemma {:induction false} BytesRoundTrip(b: seq<byte>)
    ensures WordBytes(Word(b), |b|) == b
  {
    if b != [] {
      BytesRoundTrip(b[1..]);
    }
  }

  /** Every operation's result is again a 64-bit word. */
  lemma ResultIsWord(op: WordOp, w: u64, m: u64)
    ensures ApplyWord(op, w, m) < MOD64
  {
    WordWidth();
    match op
    case Or => BitwiseBound((x, y) => x || y, w, m, 64);
    case And => BitwiseBound((x, y) => x && y, w, m, 64);
    case XorOp => BitwiseBound((x, y) => x != y, w, m, 64);
    case Not =>
    case Inc =>
    case Dec =>
  }

  lemma {:induction false} ComplementAt(w: nat, n: nat, k: nat)
    requires w < Pow2(n) && k < n
    ensures BitAt(Pow2(n) - 1 - w, k) <==> !BitAt(w, k)
  {
    if k > 0 {
      ComplementAt(w / 2, n - 1, k - 1);
      assert (Pow2(n) - 1 - w) / 2 == Pow2(n - 1) - 1 - w / 2;
    }
  }

  /** The logical operations act bit by bit on all 64 bits. */
  lemma LogicalBits(op: WordOp, w: u64, m: u64, k: nat)
    requires k < 64
    ensures op.Or? ==> (BitAt(ApplyWord(op, w, m), k) <==> BitAt(w, k) || BitAt(m, k))
    ensures op.And? ==> (BitAt(ApplyWord(op, w, m), k) <==> BitAt(w, k) && BitAt(m, k))
    ensures op.XorOp? ==> (BitAt(ApplyWord(op, w, m), k) <==> BitAt(w, k) != BitAt(m, k))
    ensures op.Not? ==> (BitAt(ApplyWord(op, w, m), k) <==> !BitAt(w, k))
  {
    match op
    case Or => BitwiseAt((x, y) => x || y, w, m, k);
    case And => BitwiseAt((x, y) => x && y, w, m, k);
    case XorOp => BitwiseAt((x, y) => x != y, w, m, k);
    case Not =>
      WordWidth();
      ComplementAt(w, 64, k);
    case _ =>
  }

  /** The operation that takes another one back. */
  function Inverse(op: WordOp): WordOp
    requires !op.Or? && !op.And?
  {
    match op
    case Inc => Dec
    case Dec => Inc
    case XorOp => XorOp
    case Not => Not
  }

  lemma WordUndone(op: WordOp, w: u64, m: u64)
    requires !op.Or? && !op.And?
    ensures ApplyWord(Inverse(op), ApplyWord(op, w, m), m) == w
  {
    if op.XorOp? {
      XorUndoes(w, m);
    }
  }

  /** The word in the slot becomes the operation's result, and nothing else in the slot changes. */
  lemma StoresResult(op: WordOp, m: u64, c: Content, maxVal: nat)
    requires 8 <= maxVal && c.Fits(maxVal)
    ensures Word(c.bytes[..8]) < MOD64
    ensures var r := Effect(IntegerOp(op, m), c, maxVal);
      && Word(r.bytes[..8]) == ApplyWord(op, Word(c.bytes[..8]), m)
      && r == c.(bytes := r.bytes[..8] + c.bytes[8..])
  {
    var w := Word(c.bytes[..8]);
    EightBytes();
    WordBelow(c.bytes[..8]);
    ResultIsWord(op, w, m);
    WordRoundTrip(ApplyWord(op, w, m), 8);
    var r := Effect(IntegerOp(op, m), c, maxVal);
    assert r.bytes[..8] == WordBytes(ApplyWord(op, w, m), 8);
  }

  /** Increment and decrement undo each other across the wrap, and exclusive-or and complement undo themselves. */
  lemma OperationUndone(op: WordOp, m: u64, c: Content, maxVal: nat)
    requires 8 <= maxVal && c.Fits(maxVal) && !op.Or? && !op.And?
    ensures Effect(IntegerOp(Inverse(op), m), Effect(IntegerOp(op, m), c, maxVal), maxVal) == c
  {
    var r := Effect(IntegerOp(op, m), c, maxVal);
    StoresResult(op, m, c, maxVal);
    StoresResult(Inverse(op), m, r, maxVal);
    WordUndone(op, Word(c.bytes[..8]), m);
    var back := Effect(IntegerOp(Inverse(op), m), r, maxVal);
    BytesRoundTrip(back.bytes[..8]);
    BytesRoundTrip(c.bytes[..8]);
    assert back.bytes == c.bytes[..8] + c.bytes[8..];
  }

  /** The word is little-endian: its low byte comes first. */
  lemma LowByteFirst(b: seq<byte>)
    requires b != []
    ensures Word(b) % 256 == b[0] as int && Word(b) / 256 == Word(b[1..])
  {
  }

  /** The word after the operation, from the word before it: sums and differences wrap at 2^64. */
  lemma WordAfter(op: WordOp, m: u64, c: Content, maxVal: nat)
    requires 8 <= maxVal && c.Fits(maxVal)
    ensures var w, r := Word(c.bytes[..8]), Word(Effect(IntegerOp(op, m), c, maxVal).bytes[..8]);
      && w < 0x1_0000_0000_0000_0000
      && (op.Inc? ==> r == if w + m < 0x1_0000_0000_0000_0000 then w + m else w + m - 0x1_0000_0000_0000_0000)
      && (op.Dec? ==> r == if m <= w then w - m else w - m + 0x1_0000_0000_0000_0000)
  {
    StoresResult(op, m, c, maxVal);
  }

  lemma BitsAfter(op: WordOp, m: u64, c: Content, maxVal: nat, k: nat)
    requires 8 <= maxVal && c.Fits(maxVal) && k < 64
    ensures var w, r := Word(c.bytes[..8]), Word(Effect(IntegerOp(op, m), c, maxVal).bytes[..8]);
      && (op.Or? ==> (BitAt(r, k) <==> BitAt(w, k) || BitAt(m, k)))
      && (op.And? ==> (BitAt(r, k) <==> BitAt(w, k) && BitAt(m, k)))
      && (op.XorOp? ==> (BitAt(r, k) <==> BitAt(w, k) != BitAt(m, k)))
      && (op.Not? ==> (BitAt(r, k) <==> !BitAt(w, k)))
  {
    StoresResult(op, m, c, maxVal);
    LogicalBits(op, Word(c.bytes[..8]), m, k);
  }
}
