/** Single bits of a machine word, and the masks the store keeps in words. */
module Bits {
  import opened Bytes

  function BitAt(a: nat, k: nat): bool {
    if k == 0 then a % 2 == 1 else BitAt(a / 2, k - 1)
  }

  function Or(a: nat, b: nat): nat {
    Bitwise((x, y) => x || y, a, b)
  }

  function AndNot(a: nat, b: nat): nat {
    Bitwise((x, y) => x && !y, a, b)
  }

  lemma {:induction false} NoBits(k: nat)
    ensures !BitAt(0, k)
  {
    if k > 0 {
      NoBits(k - 1);
    }
  }

  lemma {:induction false} BitwiseAt(op: (bool, bool) -> bool, a: nat, b: nat, k: nat)
    requires !op(false, false)
    ensures BitAt(Bitwise(op, a, b), k) == op(BitAt(a, k), BitAt(b, k))
  {
    if a == 0 && b == 0 {
      NoBits(k);
    } else if k > 0 {
      BitwiseAt(op, a / 2, b / 2, k - 1);
    }
  }

  lemma OrAt(a: nat, b: nat, k: nat)
    ensures BitAt(Or(a, b), k) <==> BitAt(a, k) || BitAt(b, k)
  {
    BitwiseAt((x, y) => x || y, a, b, k);
  }

  lemma AndNotAt(a: nat, b: nat, k: nat)
    ensures BitAt(AndNot(a, b), k) <==> BitAt(a, k) && !BitAt(b, k)
  {
    BitwiseAt((x, y) => x && !y, a, b, k);
  }

  lemma {:induction false} OneBitAt(j: nat, k: nat)
    ensures BitAt(Pow2(j), k) <==> j == k
  {
    if j == 0 && k > 0 {
      NoBits(k - 1);
    } else if j > 0 && k > 0 {
      OneBitAt(j - 1, k - 1);
    }
  }

  // ---- 64-bit words ----------------------------------------------------------------------------

  lemma {:induction false} Pow2Sum(m: nat, n: nat)
    ensures Pow2(m + n) == Pow2(m) * Pow2(n)
  {
    if m > 0 {
      Pow2Sum(m - 1, n);
    }
  }

  lemma WordWidth()
    ensures Pow2(64) == MOD64
  {
    assert Pow2(8) == 256;
    Pow2Sum(8, 8);
    Pow2Sum(16, 16);
    Pow2Sum(32, 32);
  }

  lemma {:induction false} Pow2Grows(j: nat, k: nat)
    requires j < k
    ensures 2 * Pow2(j) <= Pow2(k)
  {
    if j + 1 < k {
      Pow2Grows(j, k - 1);
    }
  }

  /** `1ULL << k`. */
  function Bit(k: nat): (r: u64)
    requires k < 64
    ensures forall j :: BitAt(r, j) <==> j == k
  {
    WordWidth();
    Pow2Grows(k, 64);
    forall j: nat ensures BitAt(Pow2(k), j) <==> j == k { OneBitAt(k, j); }
    Pow2(k)
  }

  /** `a | b` on words. */
  function WordOr(a: u64, b: u64): (r: u64)
    ensures forall j :: BitAt(r, j) <==> BitAt(a, j) || BitAt(b, j)
  {
    WordWidth();
    BitwiseBound((x, y) => x || y, a, b, 64);
    forall j: nat ensures BitAt(Or(a, b), j) <==> BitAt(a, j) || BitAt(b, j) { OrAt(a, b, j); }
    Or(a, b)
  }

  /** `a & ~b` on words. */
  function WordClear(a: u64, b: u64): (r: u64)
    ensures forall j :: BitAt(r, j) <==> BitAt(a, j) && !BitAt(b, j)
  {
    WordWidth();
    BitwiseBound((x, y) => x && !y, a, b, 64);
    forall j: nat ensures BitAt(AndNot(a, b), j) <==> BitAt(a, j) && !BitAt(b, j) { AndNotAt(a, b, j); }
    AndNot(a, b)
  }
}
