/** The Logic Shard election: a two-pass scan of the bid table, and what its winner means. */
module Election {
  import opened Bytes

  const MAX_SHARDS := 32

  const WILLNEED := 1
  const SEQUENTIAL := 2
  const DONTNEED := 4

  /** One record of the bid table; `id` 0 marks it empty. */
  datatype Bid = Bid(id: nat, pid: nat, intent: nat, priority: nat, duration: u64, claimed: u64)
  {
    /** `now - claimed >= duration` in 64-bit unsigned arithmetic. */
    predicate Expired(now: u64) {
      (now - claimed) % MOD64 >= duration
    }

    predicate Live(now: u64) {
      id != 0 && !Expired(now)
    }

    predicate Protects() { intent == WILLNEED || intent == SEQUENTIAL }

    /** Higher priority, then earlier claim, then lower pid. */
    predicate Beats(b: Bid) {
      || priority > b.priority
      || (priority == b.priority && claimed < b.claimed)
      || (priority == b.priority && claimed == b.claimed && pid < b.pid)
    }

    predicate Ties(b: Bid) {
      priority == b.priority && claimed == b.claimed && pid == b.pid
    }
  }

  predicate Protected(t: seq<Bid>, now: u64) {
    exists i :: 0 <= i < |t| && t[i].Live(now) && t[i].Protects()
  }

  /** May win: live, and not a DONTNEED while a live bid protects the memory. */
  predicate Eligible(t: seq<Bid>, now: u64, i: nat) {
    i < |t| && t[i].Live(now) && !(t[i].intent == DONTNEED && Protected(t, now))
  }

  /** Record `i` is the best of the eligible records below `n`; the lower index wins a full tie. */
  predicate WinsAmong(t: seq<Bid>, now: u64, i: nat, n: nat) {
    && i < n <= |t| && Eligible(t, now, i)
    && forall j :: 0 <= j < n && j != i && Eligible(t, now, j) ==>
         t[i].Beats(t[j]) || (t[i].Ties(t[j]) && i < j)
  }

  predicate Wins(t: seq<Bid>, now: u64, i: nat) {
    WinsAmong(t, now, i, |t|)
  }

  /** `splinter_shard_election` on the table it reads. */
  method Elect(bids: array<Bid>, now: u64) returns (id: nat, intent: nat)
    ensures id == 0 ==> intent == 0 && forall i :: 0 <= i < bids.Length ==> !Eligible(bids[..], now, i)
    ensures id != 0 ==> exists i ::
      0 <= i < bids.Length && Wins(bids[..], now, i) && id == bids[i].id && intent == bids[i].intent
  {
    ghost var t := bids[..];
    var protective := false;
    for b := 0 to bids.Length
      invariant !protective
      invariant forall i :: 0 <= i < b ==> !(t[i].Live(now) && t[i].Protects())
    {
      if bids[b].id == 0 { continue; }
      if bids[b].Expired(now) { continue; }
      var it := bids[b].intent;
      if it == WILLNEED || it == SEQUENTIAL {
        assert t[b].Live(now) && t[b].Protects();
        protective := true;
        break;
      }
    }
    assert protective == Protected(t, now);

    var haveBest, bestId, bestIntent, bestPrio := false, 0, 0, 0;
    var bestClaimed: u64, bestPid := 0, 0;
    ghost var w := 0;
    for b := 0 to bids.Length
      invariant !haveBest ==> forall i :: 0 <= i < b ==> !Eligible(t, now, i)
      invariant haveBest ==> WinsAmong(t, now, w, b) && bestId == t[w].id && bestIntent == t[w].intent
      invariant haveBest ==> bestPrio == t[w].priority && bestClaimed == t[w].claimed && bestPid == t[w].pid
    {
      var id := bids[b].id;
      if id == 0 { continue; }
      if bids[b].Expired(now) { continue; }
      var it, pr, ca, pd := bids[b].intent, bids[b].priority, bids[b].claimed, bids[b].pid;
      if it == DONTNEED && protective { continue; }
      assert Eligible(t, now, b);
      var beats;
      if !haveBest {
        beats := true;
      } else if pr != bestPrio {
        beats := pr > bestPrio;
      } else if ca != bestClaimed {
        beats := ca < bestClaimed;
      } else {
        beats := pd < bestPid;
      }
      if beats {
        haveBest := true;
        bestId, bestIntent, bestPrio, bestClaimed, bestPid := id, it, pr, ca, pd;
        w := b;
      }
    }
    id := if haveBest then bestId else 0;
    intent := if haveBest then bestIntent else 0;
  }

  // ---- What the winner means -------------------------------------------------------------------

  lemma WinnerUnique(t: seq<Bid>, now: u64, i: nat, j: nat)
    requires Wins(t, now, i) && Wins(t, now, j)
    ensures i == j
  {
  }

  lemma {:induction false} SomeoneWins(t: seq<Bid>, now: u64, n: nat) returns (w: nat)
    requires n <= |t| && exists i :: 0 <= i < n && Eligible(t, now, i)
    ensures WinsAmong(t, now, w, n)
  {
    if Eligible(t, now, n - 1) && forall i :: 0 <= i < n - 1 ==> !Eligible(t, now, i) {
      w := n - 1;
    } else {
      w := SomeoneWins(t, now, n - 1);
      if Eligible(t, now, n - 1) && t[n - 1].Beats(t[w]) {
        w := n - 1;
      }
    }
  }

  /** A sovereign exists exactly when some bid is unexpired: the DONTNEED bumper never empties the election. */
  lemma SovereignIffLive(t: seq<Bid>, now: u64)
    ensures (exists i: nat :: Wins(t, now, i)) <==> exists i :: 0 <= i < |t| && t[i].Live(now)
  {
    if j :| 0 <= j < |t| && t[j].Live(now) {
      if Protected(t, now) {
        var k :| 0 <= k < |t| && t[k].Live(now) && t[k].Protects();
        assert Eligible(t, now, k);
      } else {
        assert Eligible(t, now, j);
      }
      var w := SomeoneWins(t, now, |t|);
      assert Wins(t, now, w);
    }
  }

  /** A DONTNEED sovereign means no live bid wants the memory warm. */
  lemma DontneedSovereignIsAlone(t: seq<Bid>, now: u64, w: nat, i: nat)
    requires Wins(t, now, w) && t[w].intent == DONTNEED && i < |t|
    ensures t[i].Protects() ==> !t[i].Live(now)
  {
  }

  /** `perm` lists where each record of `t` stands in `u`. */
  predicate Permutes(t: seq<Bid>, u: seq<Bid>, perm: seq<nat>) {
    && |perm| == |t| == |u|
    && (forall i :: 0 <= i < |t| ==> perm[i] < |u| && u[perm[i]] == t[i])
    && (forall i, j :: 0 <= i < j < |t| ==> perm[i] != perm[j])
    && (forall k :: 0 <= k < |u| ==> k in perm)
  }

  predicate NoTies(t: seq<Bid>, now: u64) {
    forall i, j :: 0 <= i < j < |t| && Eligible(t, now, i) && Eligible(t, now, j) ==> !t[i].Ties(t[j])
  }

  lemma PermutedEligible(t: seq<Bid>, u: seq<Bid>, perm: seq<nat>, now: u64, i: nat)
    requires Permutes(t, u, perm) && i < |t|
    ensures Eligible(t, now, i) <==> Eligible(u, now, perm[i])
  {
    if k :| 0 <= k < |u| && u[k].Live(now) && u[k].Protects() {
      assert k in perm;
      var j :| 0 <= j < |perm| && perm[j] == k;
      assert t[j].Live(now) && t[j].Protects();
    }
    if j :| 0 <= j < |t| && t[j].Live(now) && t[j].Protects() {
      assert u[perm[j]].Live(now) && u[perm[j]].Protects();
    }
  }

  /** Without full ties the same bid wins wherever the records stand in the table. */
  lemma WinnerSurvivesPermutation(t: seq<Bid>, u: seq<Bid>, perm: seq<nat>, now: u64, w: nat)
    requires Permutes(t, u, perm) && NoTies(t, now) && Wins(t, now, w)
    ensures Wins(u, now, perm[w])
  {
    PermutedEligible(t, u, perm, now, w);
    forall k | 0 <= k < |u| && k != perm[w] && Eligible(u, now, k)
      ensures u[perm[w]].Beats(u[k])
    {
      assert k in perm;
      var j :| 0 <= j < |perm| && perm[j] == k;
      PermutedEligible(t, u, perm, now, j);
      assert !t[w].Ties(t[j]) && !t[j].Ties(t[w]);
    }
  }

  // ---- Time ------------------------------------------------------------------------------------

  /** The bid's half-open window, when the clock has not passed 2^64 since it was claimed. */
  lemma ExpiredIsWindow(b: Bid, now: u64)
    requires b.claimed <= now
    ensures b.Expired(now) <==> b.claimed + b.duration <= now
  {
  }

  predicate ClaimedBefore(t: seq<Bid>, now: u64) {
    forall i :: 0 <= i < |t| && t[i].id != 0 ==> t[i].claimed <= now
  }

  /** Expiry is monotone: a bid that has expired stays expired. */
  lemma ExpiryIsFinal(b: Bid, t1: u64, t2: u64)
    requires b.claimed <= t1 <= t2 && b.Expired(t1)
    ensures b.Expired(t2)
  {
  }

  /** No bid's window closes in `(t1, t2]`. */
  predicate NoWindowCloses(t: seq<Bid>, t1: u64, t2: u64) {
    forall i :: 0 <= i < |t| && t[i].id != 0 ==> !(t1 < t[i].claimed + t[i].duration <= t2)
  }

  /** Two processes that read one static table while no window closes elect the same sovereign. */
  lemma ElectionsAgree(t: seq<Bid>, t1: u64, t2: u64, w: nat)
    requires t1 <= t2 && ClaimedBefore(t, t1) && NoWindowCloses(t, t1, t2)
    ensures Wins(t, t1, w) <==> Wins(t, t2, w)
  {
    forall i | 0 <= i < |t|
      ensures t[i].Live(t1) == t[i].Live(t2)
    {
      if t[i].id != 0 {
        ExpiredIsWindow(t[i], t1);
        ExpiredIsWindow(t[i], t2);
      }
    }
    forall i | 0 <= i < |t|
      ensures Eligible(t, t1, i) == Eligible(t, t2, i)
    {
    }
  }

  /** A live bid may win unless it is a DONTNEED (4) while some live bid is a WILLNEED (1) or SEQUENTIAL (2). */
  lemma OnlyBumpedAreOut(t: seq<Bid>, now: u64, i: nat)
    requires i < |t| && t[i].Live(now)
    ensures Eligible(t, now, i) <==>
      t[i].intent != 4 || forall j :: 0 <= j < |t| && t[j].Live(now) ==> t[j].intent != 1 && t[j].intent != 2
  {
  }
}
