/** What holds in every run of the seqlock machine, for any number of processes and any interleaving. */
module SeqlockRuns {
  import opened Bytes
  import opened SlotEffects
  import opened Seqlock

  /** The processes, their next moves, and the order in which the moves happen. */
  type Run = seq<(nat, Act)>

  /** A slot as `splinter_create` leaves it, before any process has called. */
  function Created(env: Env): (s: State)
    ensures env.Valid() ==> Inv(env, s)
  {
    var c := Content(0, Zeros(KEY_MAX), 0, Zeros(env.maxVal), ZeroVector());
    State(Slot(0, c, [c], []), map[])
  }

  ghost function Next(env: Env, s: State, p: nat, act: Act): (s': State)
    requires Inv(env, s)
    ensures Inv(env, s') && Rely(s.slot, s'.slot)
  {
    var (sl, l) := Move(env, s.slot, s.At(p), act);
    NextKeepsInv(env, s, p, act);
    State(sl, s.procs[p := l])
  }

  ghost function Exec(env: Env, s: State, run: Run): (s': State)
    requires Inv(env, s)
    ensures Inv(env, s') && Rely(s.slot, s'.slot)
    decreases run
  {
    if run == [] then s
    else
      var mid := Next(env, s, run[0].0, run[0].1);
      var end := Exec(env, mid, run[1..]);
      RelyTransitive(env, s.slot, mid.slot, end.slot);
      end
  }

  lemma RelyTransitive(env: Env, a: Slot, b: Slot, c: Slot)
    requires SlotOk(env, a) && SlotOk(env, b) && SlotOk(env, c)
    requires Rely(a, b) && Rely(b, c)
    ensures Rely(a, c)
  {
    assert c.hist[..|a.hist|] == c.hist[..|b.hist|][..|a.hist|];
    assert c.log[..|a.log|] == c.log[..|b.log|][..|a.log|];
  }

  lemma NextKeepsInv(env: Env, s: State, p: nat, act: Act)
    requires Inv(env, s)
    ensures var (sl, l) := Move(env, s.slot, s.At(p), act);
      Inv(env, State(sl, s.procs[p := l])) && Rely(s.slot, sl)
  {
    var l0 := s.At(p);
    var (sl, l) := Move(env, s.slot, l0, act);
    var s' := State(sl, s.procs[p := l]);
    Moves(env, s.slot, l0, act);
    forall q | q in s'.procs
      ensures LocalOk(env, sl, s'.procs[q])
    {
      if q != p { OtherKeepsOk(env, s, p, sl, l, q); }
    }
    HolderUnique(env, s, p, sl, l);
  }

  lemma OtherKeepsOk(env: Env, s: State, p: nat, sl: Slot, l: Local, q: nat)
    requires Inv(env, s) && q != p && q in s.procs && SlotOk(env, sl)
    requires Rely(s.slot, sl) && Locks(s.slot, s.At(p), sl, l)
    ensures LocalOk(env, sl, s.procs[q])
  {
    if s.procs[q].Holds() {
      HolderBlocks(env, s, p, q);
    }
    Bystander(env, s.slot, sl, s.procs[q]);
  }

  /** While `q` holds the slot, a step of any other process leaves the slot as it is. */
  lemma HolderBlocks(env: Env, s: State, p: nat, q: nat)
    requires Inv(env, s) && p != q && q in s.procs && s.procs[q].Holds()
    ensures !s.At(p).Holds() && s.slot.ticks % 2 == 1
  {
    assert LocalOk(env, s.slot, s.procs[q]);
  }

  lemma HolderUnique(env: Env, s: State, p: nat, sl: Slot, l: Local)
    requires Inv(env, s) && SlotOk(env, sl) && LocalOk(env, sl, l)
    requires Locks(s.slot, s.At(p), sl, l)
    ensures HeldByOne(sl, s.procs[p := l])
  {
    var procs := s.procs[p := l];
    forall q | q in s.procs && s.procs[q].Holds() && q != p
      ensures !l.Holds()
    {
      HolderBlocks(env, s, p, q);
    }
    if sl.ticks % 2 == 1 {
      if l.Holds() {
        assert p in procs && procs[p].Holds();
      } else {
        assert !s.At(p).Holds();
        var q :| q in s.procs && s.procs[q].Holds();
        assert q != p && procs[q] == s.procs[q];
      }
    }
  }

  // ---- What the invariant says of one state ----------------------------------------------------

  lemma OddIffHeld(env: Env, s: State)
    requires Inv(env, s)
    ensures s.slot.Epoch() % 2 == 1 <==> exists p :: p in s.procs && s.procs[p].Holds()
  {
    forall p | p in s.procs && s.procs[p].Holds()
      ensures s.slot.ticks % 2 == 1
    {
      assert LocalOk(env, s.slot, s.procs[p]);
    }
  }

  lemma SameEpochSameTicks(t0: nat, t1: nat)
    requires t0 <= t1 < t0 + MOD64 && t1 % MOD64 == t0 % MOD64
    ensures t1 == t0
  {
  }

  /** What a `splinter_get` that returned 0 delivered: the commit at its start epoch. */
  predicate Delivered(sl: Slot, r: Local)
    requires r.GRet?
  {
    && r.t0 % 2 == 0 && r.t0 / 2 < |sl.hist|
    && sl.hist[r.t0 / 2].len <= |sl.hist[r.t0 / 2].bytes|
    && r.len == sl.hist[r.t0 / 2].len
    && (r.copy ==> r.got == sl.hist[r.t0 / 2].Value())
  }

  lemma GetDelivers(env: Env, s: State, p: nat)
    requires Inv(env, s) && s.At(p).GRet? && s.At(p).t1 < s.At(p).t0 + MOD64
    ensures Delivered(s.slot, s.At(p))
  {
    var r := s.procs[p];
    assert LocalOk(env, s.slot, r);
    SameEpochSameTicks(r.t0, r.t1);
  }

  lemma GetEmbeddingDelivers(env: Env, s: State, p: nat)
    requires Inv(env, s) && s.At(p).VRet? && s.At(p).t1 < s.At(p).t0 + MOD64
    ensures var r := s.At(p);
      r.t0 % 2 == 0 && r.t0 / 2 < |s.slot.hist| && r.vec == s.slot.hist[r.t0 / 2].emb
  {
    var r := s.procs[p];
    assert LocalOk(env, s.slot, r);
    SameEpochSameTicks(r.t0, r.t1);
  }

  /** The epoch `process_key` returned is that of a commit whose embedding agrees with its value. */
  predicate EmbeddedAt(env: Env, sl: Slot, t1: nat) {
    t1 % 2 == 0 && t1 / 2 < |sl.hist| && Agrees(env, sl.hist[t1 / 2])
  }

  lemma ProcessKeyAgrees(env: Env, s: State, p: nat)
    requires Inv(env, s) && s.At(p).KRet?
    requires s.At(p).t1 < s.At(p).t0 + MOD64
    ensures EmbeddedAt(env, s.slot, s.At(p).t1)
    ensures s.At(p).post == s.At(p).t1 % MOD64 && s.At(p).t1 <= s.slot.ticks
  {
    var r := s.procs[p];
    assert LocalOk(env, s.slot, r);
    ReturnedTicks(env, s.slot, r);
  }

  /** A sidecar that returns did so on the commit right after the epoch it had loaded. */
  lemma ReturnedTicks(env: Env, sl: Slot, r: Local)
    requires SlotOk(env, sl) && r.KRet? && LocalOk(env, sl, r)
    requires r.t1 < r.t0 + MOD64
    ensures r.t1 == r.t0 + 2 && EmbeddingStored(env, sl, r.t0 / 2)
    ensures EmbeddedAt(env, sl, r.t1) && r.post == r.t1 % MOD64 && r.t1 <= sl.ticks
  {
    SameEpochSameTicks(r.t0 + 2, r.t1);
    assert r.t1 == r.t0 + 2 && r.t1 / 2 == r.t0 / 2 + 1;
    assert sl.hist[r.t0 / 2 + 1] == Effect(sl.log[r.t0 / 2], sl.hist[r.t0 / 2], env.maxVal);
  }

  // ---- Main results, over every run ------------------------------------------------------------

  /** At most one writer holds the slot, the epoch is odd exactly then, and it never goes back. */
  lemma MutualExclusion(env: Env, s: State, run: Run, p: nat, q: nat)
    requires Inv(env, s)
    ensures var s' := Exec(env, s, run);
      && (s'.At(p).Holds() && s'.At(q).Holds() ==> p == q)
      && (s'.slot.Epoch() % 2 == 1 <==> exists r :: r in s'.procs && s'.procs[r].Holds())
      && s.slot.ticks <= s'.slot.ticks
  {
    OddIffHeld(env, Exec(env, s, run));
  }

  /** Commits are serial: each is exactly its operation's effect on the one before, and none is ever lost. */
  lemma CommitsAreSerial(env: Env, s: State, run: Run, m: nat)
    requires Inv(env, s)
    requires m < |Exec(env, s, run).slot.log|
    ensures var sl := Exec(env, s, run).slot;
      && sl.hist[m + 1] == Effect(sl.log[m], sl.hist[m], env.maxVal)
      && (m < |s.slot.log| ==> sl.log[m] == s.slot.log[m] && sl.hist[m] == s.slot.hist[m])
  {
    var sl := Exec(env, s, run).slot;
    if m < |s.slot.log| {
      assert sl.log[..|s.slot.log|][m] == sl.log[m];
      assert sl.hist[..|s.slot.hist|][m] == sl.hist[m];
    }
  }

  /**
   A `splinter_get` that returns 0 delivers, byte for byte, the value committed at its start epoch,
   although it copied the bytes one at a time, unless the 64-bit epoch wrapped all the way round
   while it ran.
   */
  lemma GetIsNotTorn(env: Env, s: State, run: Run, p: nat)
    requires Inv(env, s)
    ensures var s' := Exec(env, s, run);
      var r := s'.At(p);
      r.GRet? && r.t1 < r.t0 + MOD64 ==> Delivered(s'.slot, r)
  {
    var s' := Exec(env, s, run);
    if s'.At(p).GRet? && s'.At(p).t1 < s'.At(p).t0 + MOD64 {
      GetDelivers(env, s', p);
    }
  }

  /**
   From a created slot, whatever the processes do: writers exclude each other, and the history a
   reader is answered from starts with the empty slot and grows by whole operations only.
   */
  lemma SafeFromCreation(env: Env, run: Run, p: nat, q: nat, m: nat)
    requires env.Valid()
    ensures var s := Exec(env, Created(env), run);
      && (s.At(p).Holds() && s.At(q).Holds() ==> p == q)
      && s.slot.hist[0] == Created(env).slot.c
      && (m < |s.slot.log| ==> s.slot.hist[m + 1] == Effect(s.slot.log[m], s.slot.hist[m], env.maxVal))
      && (s.At(p).GRet? && s.At(p).t1 < s.At(p).t0 + MOD64 ==> Delivered(s.slot, s.At(p)))
  {
    var s0 := Created(env);
    var s := Exec(env, s0, run);
    assert s.slot.hist[..|s0.slot.hist|][0] == s.slot.hist[0];
    MutualExclusion(env, s0, run, p, q);
    GetIsNotTorn(env, s0, run, p);
  }

  lemma GetEmbeddingIsNotTorn(env: Env, s: State, run: Run, p: nat)
    requires Inv(env, s)
    ensures var s' := Exec(env, s, run);
      var r := s'.At(p);
      r.VRet? && r.t1 < r.t0 + MOD64 ==>
        r.t0 % 2 == 0 && r.t0 / 2 < |s'.slot.hist| && r.vec == s'.slot.hist[r.t0 / 2].emb
  {
    var s' := Exec(env, s, run);
    if s'.At(p).VRet? && s'.At(p).t1 < s'.At(p).t0 + MOD64 {
      GetEmbeddingDelivers(env, s', p);
    }
  }

  /**
   When `process_key` returns a nonzero epoch, the embedding committed at that epoch is the model's
   output on the value committed with it, unless the 64-bit epoch wrapped all the way round meanwhile.
   */
  lemma ReturnedEpochAgrees(env: Env, s: State, run: Run, p: nat)
    requires Inv(env, s)
    ensures var s' := Exec(env, s, run);
      var r := s'.At(p);
      r.KRet? && r.t1 < r.t0 + MOD64 ==>
        EmbeddedAt(env, s'.slot, r.t1) && r.post == r.t1 % MOD64
  {
    var s' := Exec(env, s, run);
    var r := s'.At(p);
    if r.KRet? && r.t1 < r.t0 + MOD64 {
      ProcessKeyAgrees(env, s', p);
    }
  }

  /**
   `process_key` returns an epoch only if the embedding of the value it started from is the one commit
   between its first and its last epoch load.
   */
  lemma ReturnMeansOneCommit(env: Env, s: State, run: Run, p: nat)
    requires Inv(env, s)
    ensures var s' := Exec(env, s, run);
      var r := s'.At(p);
      r.KRet? && r.t1 < r.t0 + MOD64 ==>
        r.t1 == r.t0 + 2 && EmbeddingStored(env, s'.slot, r.t0 / 2)
  {
    var s' := Exec(env, s, run);
    var r := s'.At(p);
    if r.KRet? && r.t1 < r.t0 + MOD64 {
      assert LocalOk(env, s'.slot, s'.procs[p]);
      ReturnedTicks(env, s'.slot, r);
    }
  }

  /**
   The last step of `process_key`, on the ticks: it returns the epoch of its own commit, and nothing at
   all once another commit or a writer's claim has moved the epoch on.
   */
  lemma LastLoadDecides(env: Env, sl: Slot, l: Local)
    requires env.Valid() && SlotOk(env, sl) && LocalOk(env, sl, l) && l.KPost?
    requires sl.ticks < l.t0 + 2 + MOD64
    ensures ReaderStep(env, sl, l) ==
      if sl.ticks == l.t0 + 2 && sl.Epoch() != 0 then KRet(l.t0, l.t0 + 2, sl.Epoch()) else Idle
  {
    TwoLater(l.t0, l.cur);
    if sl.Epoch() == (l.cur + 2) % MOD64 {
      SameEpochSameTicks(l.t0 + 2, sl.ticks);
    }
  }

  lemma TwoLater(t0: nat, cur: u64)
    requires cur == t0 % MOD64
    ensures (cur + 2) % MOD64 == (t0 + 2) % MOD64
  {
  }

  /** For the sidecar's epoch loads a lookup that misses is a load of epoch 0; any other miss ends the call. */
  lemma MissLoadsZero(env: Env, sl: Slot, l: Local)
    requires SlotOk(env, sl) && LocalOk(env, sl, l)
    ensures (l.KEpoch? || l.KCheck? || l.KPost?) && sl.Epoch() == 0 ==> Missed(env, l) == ReaderStep(env, sl, l)
    ensures l.KPtr? || l.WLoad? || l.WCas? ==> Missed(env, l) == Idle
  {
  }

  // ---- Room in the caller's buffer -------------------------------------------------------------

  /** Process `p` begins no other call. */
  predicate OneCall(run: Run, p: nat) {
    forall k :: 0 <= k < |run| && run[k].0 == p ==> !run[k].1.Begin?
  }

  /** Somewhere in a get with these arguments, begun when `ticks` was at least `from`, or turned away. */
  predicate Getting(l: Local, copy: bool, bufSz: nat, from: nat) {
    match l
    case Idle => true
    case GLoad(c, n) => c == copy && n == bufSz
    case GLen(c, n, t0, _) => c == copy && n == bufSz && t0 >= from
    case GCopy(c, n, t0, _, _, got) => c == copy && n == bufSz && t0 >= from && (!copy ==> got == [])
    case GRet(c, n, t0, _, _, got) => c == copy && n == bufSz && t0 >= from && (!copy ==> got == [])
    case _ => false
  }

  lemma {:induction false} StaysGetting(env: Env, s: State, p: nat, copy: bool, bufSz: nat, from: nat, run: Run)
    requires Inv(env, s) && Getting(s.At(p), copy, bufSz, from) && from <= s.slot.ticks && OneCall(run, p)
    ensures Getting(Exec(env, s, run).At(p), copy, bufSz, from)
    decreases run
  {
    if run != [] {
      var s1 := Next(env, s, run[0].0, run[0].1);
      GettingStep(env, s, p, copy, bufSz, from, run[0].0, run[0].1);
      assert OneCall(run[1..], p) by {
        forall k | 0 <= k < |run[1..]| && run[1..][k].0 == p ensures !run[1..][k].1.Begin? {
          assert run[k + 1] == run[1..][k];
        }
      }
      StaysGetting(env, s1, p, copy, bufSz, from, run[1..]);
    }
  }

  lemma GettingStep(env: Env, s: State, p: nat, copy: bool, bufSz: nat, from: nat, q: nat, act: Act)
    requires Inv(env, s) && Getting(s.At(p), copy, bufSz, from) && from <= s.slot.ticks
    requires q == p ==> !act.Begin?
    ensures Getting(Next(env, s, q, act).At(p), copy, bufSz, from)
  {
    if q == p {
      GettingMove(env, s.slot, s.At(p), copy, bufSz, from, act);
    }
  }

  lemma GettingMove(env: Env, sl: Slot, l: Local, copy: bool, bufSz: nat, from: nat, act: Act)
    requires SlotOk(env, sl) && LocalOk(env, sl, l) && Getting(l, copy, bufSz, from) && !act.Begin?
    requires from <= sl.ticks
    ensures Getting(Move(env, sl, l, act).1, copy, bufSz, from)
  {
  }

  /** The bytes a get has gathered so far. */
  function Gathered(l: Local): seq<byte> {
    match l
    case GCopy(_, _, _, _, _, got) => got
    case GRet(_, _, _, _, _, got) => got
    case _ => []
  }

  /**
   In every interleaving, a get that was given room for `bufSz` bytes never gathers more than that many,
   and one that was given no buffer gathers none; if it returns 0 with a buffer, the whole value fitted.
   */
  lemma GetRespectsRoom(env: Env, s: State, p: nat, copy: bool, bufSz: nat, run: Run)
    requires Inv(env, s) && !s.At(p).Holds() && OneCall(run, p)
    ensures var l := Exec(env, Next(env, s, p, Begin(GLoad(copy, bufSz))), run).At(p);
      && Getting(l, copy, bufSz, s.slot.ticks)
      && |Gathered(l)| <= (if copy then bufSz else 0)
      && (l.GRet? && copy ==> |l.got| == l.len <= bufSz)
  {
    var s1 := Next(env, s, p, Begin(GLoad(copy, bufSz)));
    StaysGetting(env, s1, p, copy, bufSz, s.slot.ticks, run);
    var s' := Exec(env, s1, run);
    if p in s'.procs {
      assert LocalOk(env, s'.slot, s'.procs[p]);
    }
  }

  /**
   In every interleaving, what a get delivers was the slot's committed content at some moment of the call:
   nothing older than the last commit before it began.
   */
  lemma GetIsCurrent(env: Env, s: State, p: nat, copy: bool, bufSz: nat, run: Run)
    requires Inv(env, s) && !s.At(p).Holds() && OneCall(run, p)
    ensures var s' := Exec(env, Next(env, s, p, Begin(GLoad(copy, bufSz))), run);
      var l := s'.At(p);
      l.GRet? && l.t1 < l.t0 + MOD64 ==>
        s.slot.ticks <= l.t0 <= s'.slot.ticks && |s.slot.log| <= l.t0 / 2 && Delivered(s'.slot, l)
  {
    var s1 := Next(env, s, p, Begin(GLoad(copy, bufSz)));
    GetRespectsRoom(env, s, p, copy, bufSz, run);
    GetIsNotTorn(env, s1, run, p);
    var s' := Exec(env, s1, run);
    if p in s'.procs {
      assert LocalOk(env, s'.slot, s'.procs[p]);
    }
  }

  // ---- Keys the live loop skips ----------------------------------------------------------------

  /**
   The live loop skips a key when the epoch it recorded is at least the epoch it now loads. While
   the epoch has not wrapped, the slot then still holds what was recorded, so its embedding still
   agrees with its value, whatever the other processes did in between.
   */
  lemma SkippedKeyAgrees(env: Env, s: State, p: nat, later: Run)
    requires Inv(env, s) && s.At(p).KRet?
    requires Exec(env, s, later).slot.ticks < MOD64
    requires s.At(p).post >= Exec(env, s, later).slot.Epoch()
    ensures Agrees(env, Exec(env, s, later).slot.c)
  {
    NoWrapYet(env, s, p, Exec(env, s, later).slot);
    ProcessKeyAgrees(env, s, p);
    StillCommitted(env, s.slot, Exec(env, s, later).slot, s.At(p).t1);
  }

  lemma NoWrapYet(env: Env, s: State, p: nat, now: Slot)
    requires Inv(env, s) && s.At(p).KRet? && Rely(s.slot, now) && now.ticks < MOD64
    ensures s.At(p).t1 < s.At(p).t0 + MOD64
  {
    assert LocalOk(env, s.slot, s.procs[p]);
  }

  lemma SmallTicks(t1: nat, was: nat, now: nat)
    requires t1 <= was <= now < MOD64 && t1 % MOD64 >= now % MOD64
    ensures t1 == was == now
  {
  }

  lemma StillCommitted(env: Env, was: Slot, now: Slot, t1: nat)
    requires SlotOk(env, was) && SlotOk(env, now) && Rely(was, now)
    requires EmbeddedAt(env, was, t1) && t1 <= was.ticks && now.ticks < MOD64
    requires t1 % MOD64 >= now.Epoch()
    ensures Agrees(env, now.c)
  {
    SmallTicks(t1, was.ticks, now.ticks);
    assert now.c == now.Base() == was.hist[t1 / 2];
  }
}
