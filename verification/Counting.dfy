/** Counting the numbers below a bound that have a property. */
module Counting {

  function Count(f: nat -> bool, n: nat): nat {
    if n == 0 then 0 else Count(f, n - 1) + if f(n - 1) then 1 else 0
  }

  lemma {:induction false} CountPositive(f: nat -> bool, n: nat)
    ensures Count(f, n) <= n
    ensures Count(f, n) > 0 <==> exists b :: 0 <= b < n && f(b)
  {
    if n > 0 {
      CountPositive(f, n - 1);
    }
  }

  /** A property that implies another has no higher a count, and a lower one if it fails somewhere the other holds. */
  lemma {:induction false} CountLess(f: nat -> bool, g: nat -> bool, n: nat, at: nat)
    requires forall j: nat :: j < n && f(j) ==> g(j)
    ensures Count(f, n) <= Count(g, n)
    ensures at < n && g(at) && !f(at) ==> Count(f, n) < Count(g, n)
  {
    if n > 0 {
      CountLess(f, g, n - 1, at);
    }
  }
}
