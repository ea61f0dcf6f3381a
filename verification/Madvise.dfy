/** `splinter_madvise`: wait until the election names the caller, then advise a page-aligned range. */
module Madvise {
  import opened Bytes
  import opened Bits
  import opened Counting
  import opened Election

  const FOREVER: u64 := 0xFFFF_FFFF_FFFF_FFFF

  /** What one iteration of the wait loop observes: the table, the election's clock, the deadline's clock. */
  datatype Look = Look(table: seq<Bid>, now: u64, clock: u64)

  datatype Outcome =
    | BadCall
    | Advised(at: nat)      // posix_madvise was called in iteration `at`
    | Again
    | TimedOut(at: nat)
    | Waiting               // still in the loop after every look
  {
    /** The call has returned, in iteration `i` at the latest. */
    predicate OverBy(i: nat) {
      !Waiting? && (Advised? || TimedOut? ==> at <= i)
    }
  }

  /** The election on this table at this time names shard `id`. */
  ghost predicate Names(t: seq<Bid>, now: u64, id: nat) {
    exists w: nat :: Wins(t, now, w) && t[w].id == id
  }

  predicate Holds(t: seq<Bid>, id: nat) {
    exists i :: 0 <= i < |t| && t[i].id == id
  }

  // ---- Page rounding ---------------------------------------------------------------------------

  /** `a & ~(page - 1)`. */
  function AlignDown(a: nat, page: nat): nat
    requires page > 0
  {
    AndNot(a, page - 1)
  }

  lemma {:induction false} ClearNothing(a: nat)
    ensures AndNot(a, 0) == a
  {
    if a != 0 {
      ClearNothing(a / 2);
    }
  }

  lemma NonzeroMultiple(k: int, d: int)
    requires d > 0
    ensures k >= 1 ==> k * d >= d
    ensures k <= -1 ==> k * d <= -d
  {
    if k >= 1 {
      assert (k - 1) * d >= 0;
    } else if k <= -1 {
      assert (-k - 1) * d >= 0;
    }
  }

  lemma RemainderUnique(x: nat, q: nat, d: nat, r: nat)
    requires r < d && x == q * d + r
    ensures x % d == r
  {
    var p := x / d;
    NonzeroMultiple(p - q, d);
    assert (p - q) * d == r - x % d;
  }

  lemma ModDouble(a: nat, d: nat)
    requires d > 0
    ensures a % (2 * d) == 2 * ((a / 2) % d) + a % 2
  {
    var q := a / 2 / d;
    assert a / 2 == q * d + (a / 2) % d;
    assert a == q * (2 * d) + (2 * ((a / 2) % d) + a % 2) by {
      assert q * (2 * d) == 2 * (q * d);
    }
    RemainderUnique(a, q, 2 * d, 2 * ((a / 2) % d) + a % 2);
  }

  lemma {:induction false} AlignDownIsFloor(a: nat, k: nat)
    ensures Pow2(k) > 0
    ensures AlignDown(a, Pow2(k)) == a - a % Pow2(k)
  {
    if k == 0 {
      ClearNothing(a);
    } else {
      AlignDownIsFloor(a / 2, k - 1);
      ModDouble(a, Pow2(k - 1));
      assert (Pow2(k) - 1) / 2 == Pow2(k - 1) - 1;
    }
  }

  lemma MultipleBelow(a: nat, d: nat)
    requires d > 0
    ensures (a - a % d) % d == 0
  {
    assert a - a % d == (a / d) * d;
    RemainderUnique(a - a % d, a / d, d, 0);
  }

  /** Rounding gives a page-aligned start, keeps the end, and adds less than one page. */
  lemma RoundingCovers(a: nat, len: nat, k: nat)
    ensures Pow2(k) > 0
    ensures var start, len' := RoundRange(a, len, Pow2(k)).0, RoundRange(a, len, Pow2(k)).1;
      && start % Pow2(k) == 0
      && start <= a && start + len' == a + len
      && len <= len' < len + Pow2(k)
  {
    AlignDownIsFloor(a, k);
    MultipleBelow(a, Pow2(k));
  }

  function RoundRange(a: nat, len: nat, page: nat): (nat, int)
    requires page > 0
  {
    var start := AlignDown(a, page);
    (start, len + (a - start))
  }

  // ---- The wait loop ---------------------------------------------------------------------------

  /** Iteration `i` ends the call. */
  ghost predicate Ends(look: Look, id: nat, timeout: u64, deadline: u64) {
    || Names(look.table, look.now, id)
    || timeout == 0
    || (timeout != FOREVER && look.clock >= deadline)
  }

  /** At this look the caller's record `c` is eligible and no eligible bid is ahead of it. */
  predicate Clear(look: Look, id: nat, c: nat) {
    c < |look.table| && look.table[c].id == id && Eligible(look.table, look.now, c)
    && CountRivals(look.table, look.now, c) == 0
  }

  /**
   The call as seen over the iterations `looks`. `start` is the clock at entry and `entry` the table
   the presence check reads.
   */
  method Wait(id: nat, timeout: u64, start: u64, entry: seq<Bid>, looks: seq<Look>) returns (r: Outcome)
    ensures r.BadCall? <==> id == 0 || !Holds(entry, id)
    ensures r.Advised? ==> r.at < |looks| && Names(looks[r.at].table, looks[r.at].now, id)
    ensures r.TimedOut? ==>
      && r.at < |looks| && timeout != 0 && timeout != FOREVER
      && looks[r.at].clock >= (start + timeout) % MOD64
      && !Names(looks[r.at].table, looks[r.at].now, id)
    ensures r.Again? ==> |looks| > 0 && timeout == 0 && !Names(looks[0].table, looks[0].now, id)
    ensures r.Advised? || r.TimedOut? ==>
      forall i :: 0 <= i < r.at ==> !Ends(looks[i], id, timeout, (start + timeout) % MOD64)
    ensures timeout != FOREVER ==>
      forall i :: 0 <= i < |looks| && looks[i].clock >= (start + timeout) % MOD64 ==> r.OverBy(i)
    ensures timeout == MOD64 - 1 ==> r.BadCall? || r.Advised? || r.Waiting?
    ensures forall i, c :: 0 <= i < |looks| && Clear(looks[i], id, c) ==>
      r.OverBy(i) && (timeout == FOREVER && !r.BadCall? ==> r.Advised?)
    ensures r.Waiting? ==>
      forall i :: 0 <= i < |looks| ==> !Ends(looks[i], id, timeout, (start + timeout) % MOD64)
  {
    if id == 0 { return BadCall; }
    var present := false;
    for b := 0 to |entry|
      invariant present <==> exists i :: 0 <= i < b && entry[i].id == id
    {
      if entry[b].id == id {
        present := true;
        break;
      }
    }
    if !present { return BadCall; }

    var hasDeadline := timeout != FOREVER;
    var deadline := (start + timeout) % MOD64;
    for i := 0 to |looks|
      invariant forall j :: 0 <= j < i ==> !Ends(looks[j], id, timeout, deadline)
    {
      var table := looks[i].table;
      var bids := new Bid[|table|](j requires 0 <= j < |table| => table[j]);
      assert bids[..] == table;
      var named, _ := Elect(bids, looks[i].now);
      assert bids[..] == table;
      ElectNames(table, looks[i].now, id, named);
      if named == id {
        r := Advised(i);
        ClearEnds(id, timeout, looks, deadline, i);
        return;
      }
      if timeout == 0 {
        return Again;
      }
      if hasDeadline && looks[i].clock >= deadline {
        r := TimedOut(i);
        ClearEnds(id, timeout, looks, deadline, i);
        return;
      }
    }
    r := Waiting;
    ClearEnds(id, timeout, looks, deadline, |looks|);
  }

  /** No look before the end of the call found the way clear. */
  lemma ClearEnds(id: nat, timeout: u64, looks: seq<Look>, deadline: u64, n: nat)
    requires n <= |looks| && forall i :: 0 <= i < n ==> !Ends(looks[i], id, timeout, deadline)
    ensures forall i, c :: 0 <= i < |looks| && Clear(looks[i], id, c) ==> n <= i
  {
    forall i, c | 0 <= i < |looks| && Clear(looks[i], id, c)
      ensures n <= i
    {
      NothingAheadMeansNamed(looks[i].table, looks[i].now, c);
    }
  }

  /** The id an election returns names exactly the shard of its winner. */
  lemma ElectNames(t: seq<Bid>, now: u64, id: nat, named: nat)
    requires id != 0
    requires named == 0 ==> forall i :: 0 <= i < |t| ==> !Eligible(t, now, i)
    requires named != 0 ==> exists i :: 0 <= i < |t| && Wins(t, now, i) && named == t[i].id
    ensures named == id <==> Names(t, now, id)
  {
    if named != 0 {
      var i :| 0 <= i < |t| && Wins(t, now, i) && named == t[i].id;
      if w: nat :| Wins(t, now, w) && t[w].id == id {
        WinnerUnique(t, now, i, w);
      }
    }
  }

  // ---- Progress on a frozen table --------------------------------------------------------------

  /** Record `j` is live and would win against record `c`. */
  predicate Ahead(t: seq<Bid>, now: u64, c: nat, j: nat)
    requires c < |t| && j < |t|
  {
    j != c && t[j].Live(now) && (t[j].Beats(t[c]) || (t[j].Ties(t[c]) && j < c))
  }

  function AheadOf(t: seq<Bid>, now: u64, c: nat): nat -> bool
    requires c < |t|
  {
    (j: nat) => j < |t| && Ahead(t, now, c, j)
  }

  /** How many live bids stand ahead of record `c`. */
  function CountAhead(t: seq<Bid>, now: u64, c: nat): nat
    requires c < |t|
  {
    Count(AheadOf(t, now, c), |t|)
  }

  /** Record `j` may win and would win against record `c`. */
  predicate Rivals(t: seq<Bid>, now: u64, c: nat, j: nat)
    requires c < |t| && j < |t|
  {
    Eligible(t, now, j) && Ahead(t, now, c, j)
  }

  function RivalsOf(t: seq<Bid>, now: u64, c: nat): nat -> bool
    requires c < |t|
  {
    (j: nat) => j < |t| && Rivals(t, now, c, j)
  }

  /** How many of them the election would let win. */
  function CountRivals(t: seq<Bid>, now: u64, c: nat): nat
    requires c < |t|
  {
    Count(RivalsOf(t, now, c), |t|)
  }

  /** Bids only leave the ones ahead as time passes over a frozen table. */
  lemma AheadShrinks(t: seq<Bid>, t1: u64, t2: u64, c: nat, j: nat)
    requires c < |t| && j < |t| && t1 <= t2 && ClaimedBefore(t, t1)
    ensures Ahead(t, t2, c, j) ==> Ahead(t, t1, c, j)
  {
    if t[j].id != 0 && t[j].Expired(t1) {
      ExpiryIsFinal(t[j], t1, t2);
    }
  }

  /** As time passes over a frozen table the count never grows, and it falls when a bid ahead expires. */
  lemma CountFalls(t: seq<Bid>, t1: u64, t2: u64, c: nat, j: nat)
    requires c < |t| && t1 <= t2 && ClaimedBefore(t, t1) && j < |t|
    ensures CountAhead(t, t2, c) <= CountAhead(t, t1, c)
    ensures Ahead(t, t1, c, j) && !t[j].Live(t2) ==> CountAhead(t, t2, c) < CountAhead(t, t1, c)
  {
    forall i: nat | i < |t| && AheadOf(t, t2, c)(i)
      ensures AheadOf(t, t1, c)(i)
    {
      AheadShrinks(t, t1, t2, c, i);
    }
    CountLess(AheadOf(t, t2, c), AheadOf(t, t1, c), |t|, j);
  }

  /** An eligible caller wins exactly when no eligible bid is ahead of it; that no live one is ahead is enough. */
  lemma NothingAheadMeansNamed(t: seq<Bid>, now: u64, c: nat)
    requires Eligible(t, now, c)
    ensures CountRivals(t, now, c) == 0 <==> Wins(t, now, c)
    ensures CountRivals(t, now, c) <= CountAhead(t, now, c)
    ensures Wins(t, now, c) ==> Names(t, now, t[c].id)
  {
    CountPositive(RivalsOf(t, now, c), |t|);
    forall j: nat | j < |t| && RivalsOf(t, now, c)(j)
      ensures AheadOf(t, now, c)(j)
    {
    }
    CountLess(RivalsOf(t, now, c), AheadOf(t, now, c), |t|, 0);
    if CountRivals(t, now, c) == 0 {
      forall k | 0 <= k < |t| && k != c && Eligible(t, now, k)
        ensures t[c].Beats(t[k]) || (t[c].Ties(t[k]) && c < k)
      {
        assert !RivalsOf(t, now, c)(k);
      }
    } else {
      var j :| 0 <= j < |t| && RivalsOf(t, now, c)(j);
      assert Rivals(t, now, c, j);
    }
  }

  /** One table at every look, and clocks that do not run back. */
  predicate Frozen(looks: seq<Look>, t: seq<Bid>) {
    && (forall i :: 0 <= i < |looks| ==> looks[i].table == t)
    && (forall i, j :: 0 <= i <= j < |looks| ==> looks[i].now <= looks[j].now)
  }

  /**
   On a frozen table the way is clear at the first look at which the caller is eligible and every bid
   that was ahead of it at an earlier look has expired.
   */
  lemma FrozenClears(looks: seq<Look>, t: seq<Bid>, id: nat, c: nat, i: nat, k: nat)
    requires Frozen(looks, t) && i <= k < |looks| && ClaimedBefore(t, looks[i].now)
    requires Eligible(t, looks[k].now, c) && t[c].id == id
    requires forall j :: 0 <= j < |t| && Ahead(t, looks[i].now, c, j) ==> !t[j].Live(looks[k].now)
    ensures CountAhead(t, looks[k].now, c) == 0 && Clear(looks[k], id, c)
  {
    CountPositive(AheadOf(t, looks[k].now, c), |t|);
    if CountAhead(t, looks[k].now, c) > 0 {
      var j :| 0 <= j < |t| && AheadOf(t, looks[k].now, c)(j);
      AheadShrinks(t, looks[i].now, looks[k].now, c, j);
    }
    NothingAheadMeansNamed(t, looks[k].now, c);
  }
}
