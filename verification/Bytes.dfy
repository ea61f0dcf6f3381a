/** Machine bytes and words, byte strings, and the memory primitives the store is written with. */
module Bytes {

  newtype byte = x: int | 0 <= x < 256

  const MOD64 := 0x1_0000_0000_0000_0000

  type u64 = x: int | 0 <= x < 0x1_0000_0000_0000_0000

  /** `a op b` bit by bit, where `op` is given by its truth table on (bit of a, bit of b). */
  function Bitwise(op: (bool, bool) -> bool, a: nat, b: nat): nat
    requires !op(false, false)
  {
    if a == 0 && b == 0 then 0
    else (if op(a % 2 == 1, b % 2 == 1) then 1 else 0) + 2 * Bitwise(op, a / 2, b / 2)
  }

  function Xor(a: nat, b: nat): nat {
    Bitwise((x, y) => x != y, a, b)
  }

  /** Every bitwise operation stays within the bits of its operands. */
  lemma {:induction false} BitwiseBound(op: (bool, bool) -> bool, a: nat, b: nat, bits: nat)
    requires !op(false, false)
    requires a < Pow2(bits) && b < Pow2(bits)
    ensures Bitwise(op, a, b) < Pow2(bits)
  {
    if a != 0 || b != 0 {
      BitwiseBound(op, a / 2, b / 2, bits - 1);
    }
  }

  function Pow2(n: nat): nat {
    if n == 0 then 1 else 2 * Pow2(n - 1)
  }

  lemma {:induction false} XorUndoes(a: nat, b: nat)
    ensures Xor(Xor(a, b), b) == a
  {
    if a != 0 || b != 0 {
      XorUndoes(a / 2, b / 2);
    }
  }

  lemma {:induction false} XorCommutes(a: nat, b: nat)
    ensures Xor(a, b) == Xor(b, a)
  {
    if a != 0 || b != 0 {
      XorCommutes(a / 2, b / 2);
    }
  }

  function Zeros(n: nat): (r: seq<byte>)
    ensures |r| == n && forall j :: 0 <= j < n ==> r[j] == 0
  {
    seq(n, _ => 0)
  }

  /** `mem` after `data` was copied over it at `off`. */
  function Splice(mem: seq<byte>, off: nat, data: seq<byte>): (r: seq<byte>)
    requires off + |data| <= |mem|
    ensures |r| == |mem|
    ensures forall j :: 0 <= j < |mem| ==>
      r[j] == if off <= j < off + |data| then data[j - off] else mem[j]
  {
    mem[..off] + data + mem[off + |data|..]
  }

  /** A C string: no byte of it is NUL. */
  predicate NulFree(s: seq<byte>) {
    forall j :: 0 <= j < |s| ==> s[j] != 0
  }

  type CString = s: seq<byte> | NulFree(s) witness []

  method Memcpy(dst: array<byte>, off: nat, src: seq<byte>)
    requires off + |src| <= dst.Length
    modifies dst
    ensures dst[..] == Splice(old(dst[..]), off, src)
  {
    for j := 0 to |src|
      invariant forall i :: 0 <= i < dst.Length ==>
        dst[i] == if off <= i < off + j then src[i - off] else old(dst[i])
    {
      dst[off + j] := src[j];
    }
    assert dst[..] == Splice(old(dst[..]), off, src);
  }

  method Memset(dst: array<byte>, off: nat, len: nat)
    requires off + len <= dst.Length
    modifies dst
    ensures dst[..] == Splice(old(dst[..]), off, Zeros(len))
  {
    for j := 0 to len
      invariant forall i :: 0 <= i < dst.Length ==>
        dst[i] == if off <= i < off + j then 0 else old(dst[i])
    {
      dst[off + j] := 0;
    }
    assert dst[..] == Splice(old(dst[..]), off, Zeros(len));
  }
}
