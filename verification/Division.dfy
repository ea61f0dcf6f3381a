/** Two facts about division by a variable. */
module Division {

  lemma TimesMonotone(a: nat, b: nat, d: nat)
    ensures a <= b ==> a * d <= b * d
  {
    if a <= b {
      assert (b - a) * d >= 0;
    }
  }

  lemma DivIs(x: nat, d: nat, q: nat)
    requires d > 0
    ensures x / d == q <==> q * d <= x < (q + 1) * d
  {
    var p := x / d;
    assert p * d <= x < (p + 1) * d;
    TimesMonotone(p + 1, q, d);
    TimesMonotone(q + 1, p, d);
  }
}
