/** Keys with an order: the base key, a dot, and a decimal number, printed into a 64-byte buffer. */
module Names {
  import opened Bytes
  import opened SlotEffects

  const DOT: byte := 46

  /** `%zu`. */
  function Decimal(n: nat): (d: CString)
    ensures |d| > 0
  {
    var digit := (48 + n % 10) as byte;
    if n < 10 then [digit] else Decimal(n / 10) + [digit]
  }

  /** The name the format string asks for. */
  function Name(base: CString, i: nat): CString {
    base + [DOT] + Decimal(i)
  }

  /** The name `snprintf` leaves in a buffer of `SPLINTER_KEY_MAX` bytes. */
  function OrderKey(base: CString, i: nat): (k: CString)
    ensures |k| < KEY_MAX
    ensures |Name(base, i)| < KEY_MAX ==> k == Name(base, i)
  {
    var name := Name(base, i);
    if |name| < KEY_MAX then name else name[..KEY_MAX - 1]
  }

  lemma {:induction false} DecimalInjective(i: nat, j: nat)
    ensures Decimal(i) == Decimal(j) <==> i == j
  {
    if Decimal(i) == Decimal(j) {
      var d := Decimal(i);
      assert d[|d| - 1] as int == 48 + i % 10 == 48 + j % 10;
      if i >= 10 && j >= 10 {
        assert d[..|d| - 1] == Decimal(i / 10) == Decimal(j / 10);
        DecimalInjective(i / 10, j / 10);
      }
    }
  }

  lemma {:induction false} LongerNumbersPrintLonger(i: nat, j: nat)
    requires i <= j
    ensures |Decimal(i)| <= |Decimal(j)|
  {
    if i >= 10 {
      LongerNumbersPrintLonger(i / 10, j / 10);
    }
  }

  /** Cutting digits off a number leaves a smaller number. */
  lemma {:induction false} PrefixIsNumber(n: nat, room: nat) returns (i: nat)
    requires 1 <= room < |Decimal(n)|
    ensures 1 <= i < n && Decimal(i) == Decimal(n)[..room]
  {
    if room == |Decimal(n)| - 1 {
      i := n / 10;
    } else {
      i := PrefixIsNumber(n / 10, room);
    }
  }

  predicate NamesDistinct(base: CString, n: nat) {
    forall i, j :: 1 <= i < j <= n ==> OrderKey(base, i) != OrderKey(base, j)
  }

  /** Two names or more are pairwise distinct exactly when the last of them fits the key buffer. */
  lemma NamesDistinctIff(base: CString, n: nat)
    requires n >= 2
    ensures NamesDistinct(base, n) <==> |Name(base, n)| < KEY_MAX
  {
    if |Name(base, n)| < KEY_MAX {
      forall i, j | 1 <= i < j <= n
        ensures OrderKey(base, i) != OrderKey(base, j)
      {
        FittingNamesDiffer(base, i, j, n);
      }
    } else if |base| + 1 < KEY_MAX - 1 {
      var room := KEY_MAX - 2 - |base|;
      var i := PrefixIsNumber(n, room);
      assert OrderKey(base, n) == Name(base, i) == OrderKey(base, i);
    } else {
      CutBeforeNumber(base, 1);
      CutBeforeNumber(base, 2);
    }
  }

  /** No digit survives when the base fills the buffer. */
  lemma CutBeforeNumber(base: CString, i: nat)
    requires |base| + 1 >= KEY_MAX - 1
    ensures OrderKey(base, i) == (base + [DOT])[..KEY_MAX - 1]
  {
    assert Name(base, i)[..KEY_MAX - 1] == (base + [DOT])[..KEY_MAX - 1];
  }

  lemma FittingNamesDiffer(base: CString, i: nat, j: nat, n: nat)
    requires i <= n && j <= n && |Name(base, n)| < KEY_MAX
    ensures OrderKey(base, i) == Name(base, i) && OrderKey(base, j) == Name(base, j)
    ensures OrderKey(base, i) == OrderKey(base, j) <==> i == j
    ensures OrderKey(base, i) != base
  {
    LongerNumbersPrintLonger(i, n);
    LongerNumbersPrintLonger(j, n);
    DecimalInjective(i, j);
    assert Name(base, i)[|base| + 1..] == Decimal(i);
    assert Name(base, j)[|base| + 1..] == Decimal(j);
  }
}
