/** Every run of the lane writers and readers keeps keys in their slots, and no set ever fails. */
module ChiSaoRuns {
  import opened Bytes
  import opened SlotEffects
  import opened Table
  import opened Placement
  import opened Seqlock
  import SeqlockRuns
  import opened ChiSao
  import TableLaws
  import Fnv

  // ---- Homes -----------------------------------------------------------------------------------

  lemma HomesDistinct(plan: Plan, t: nat, u: nat)
    requires plan.Valid() && t < |plan.keys| && u < |plan.keys| && plan.HomeOf(t) == plan.HomeOf(u)
    ensures t == u
  {
    var c := plan.v0[plan.HomeOf(t)].c;
    HomeMatches(plan.v0, plan.keys[t], plan.off[t]);
    HomeMatches(plan.v0, plan.keys[u], plan.off[u]);
    MatchDeterminesKey(c, plan.keys[t], plan.keys[u]);
  }

  /** Only the owner of a slot's key ever holds the slot. */
  lemma HolderIsOwner(plan: Plan, st: World, t: nat, q: nat)
    requires WorldInv(plan, st) && t < |plan.keys|
    requires q in LocalsAt(plan, st.procs, plan.HomeOf(t)) && LocalsAt(plan, st.procs, plan.HomeOf(t))[q].Holds()
    ensures q == plan.owner[t] && st.procs[q].job.Put?
  {
    var pr := st.procs[q];
    assert ProcOk(plan, st.slots, q, pr);
    HomesDistinct(plan, t, pr.job.t);
  }

  /** While its owner does not hold it, a slot's epoch is even. */
  lemma EvenUnlessOwnerHolds(plan: Plan, st: World, t: nat)
    requires WorldInv(plan, st) && t < |plan.keys|
    requires !(st.At(plan.owner[t]).On? && st.At(plan.owner[t]).l.Holds())
    ensures st.slots[plan.HomeOf(t)].ticks % 2 == 0
  {
    var s := plan.HomeOf(t);
    assert Seqlock.Inv(plan.env, SlotState(plan, st, s));
    if st.slots[s].ticks % 2 == 1 {
      var locals := LocalsAt(plan, st.procs, s);
      var q :| q in locals && locals[q].Holds();
      HolderIsOwner(plan, st, t, q);
      assert false;
    }
  }

  // ---- Probing ---------------------------------------------------------------------------------

  lemma LookKeepsOk(plan: Plan, st: World, p: nat)
    requires WorldInv(plan, st) && st.At(p).Look?
    ensures ProcOk(plan, st.slots, p, LookStep(plan, st.slots, st.At(p).job, st.At(p).i))
  {
    var pr := st.procs[p];
    assert ProcOk(plan, st.slots, p, pr);
    var t := pr.job.t;
    assert Home(plan.v0, plan.keys[t], plan.off[t]);
    if pr.i < plan.N() {
      assert KeepsKey(plan, plan.SlotAt(t, pr.i), st.slots[plan.SlotAt(t, pr.i)]);
    }
  }

  /** A comparison that runs to the end of the key has found the key's home. */
  lemma FullMatchIsHome(plan: Plan, t: nat, i: nat, j: nat)
    requires plan.Valid() && t < |plan.keys| && i < plan.N() && j < KEY_MAX
    requires plan.v0[plan.SlotAt(t, i)].c.hash == Fnv.Hash(plan.keys[t])
    requires MatchedUpTo(plan.v0[plan.SlotAt(t, i)].c.key, plan.keys[t], j)
    requires plan.v0[plan.SlotAt(t, i)].c.key[j] == KeyByte(plan.keys[t], j) == 0
    ensures i == plan.off[t]
  {
    var c, key := plan.v0[plan.SlotAt(t, i)].c, plan.keys[t];
    assert j >= |key|;
    assert KeyByte(key, |key|) == 0;
    assert Matches(c, key);
    assert Home(plan.v0, key, plan.off[t]);
  }

  /** What a compare step reads: the stored byte, or the NUL a set puts first while it rewrites the key. */
  lemma CmpReads(plan: Plan, st: World, s: nat, j: nat)
    requires WorldInv(plan, st) && s < plan.N() && j < KEY_MAX
    ensures |st.slots[s].c.key| == |plan.v0[s].c.key| == KEY_MAX
    ensures st.slots[s].c.key[j] == plan.v0[s].c.key[j] || (j == 0 && st.slots[s].c.key[j] == 0)
    ensures st.slots[s].ticks % 2 == 0 ==> st.slots[s].c.key == plan.v0[s].c.key
  {
    assert KeepsKey(plan, s, st.slots[s]);
  }

  lemma CmpKeepsOk(plan: Plan, st: World, p: nat)
    requires WorldInv(plan, st) && st.At(p).Cmp?
    requires |st.slots[plan.SlotAt(st.At(p).job.t, st.At(p).i)].c.key| == KEY_MAX
    ensures ProcOk(plan, st.slots, p, CmpStep(plan, st.slots, st.At(p).job, st.At(p).i, st.At(p).j))
  {
    var pr := st.procs[p];
    assert ProcOk(plan, st.slots, p, pr);
    var t, i, j := pr.job.t, pr.i, pr.j;
    var s := plan.SlotAt(t, i);
    CmpReads(plan, st, s, j);
    var key := plan.keys[t];
    if pr.job.Put? && i == plan.off[t] {
      EvenUnlessOwnerHolds(plan, st, t);
      assert Home(plan.v0, key, plan.off[t]);
      assert PadKey(key)[j] == KeyByte(key, j);
    }
    var b := st.slots[s].c.key[j];
    if b == KeyByte(key, j) && (b == 0 || j == KEY_MAX - 1) {
      assert KeyByte(key, 0) != 0 && KeyByte(key, KEY_MAX - 1) == 0;
      FullMatchIsHome(plan, t, i, j);
    }
  }

  // ---- A step on a slot ------------------------------------------------------------------------

  lemma {:induction false} PutBytesKeepKey(off: nat, data: seq<byte>, c0: Content)
    ensures KeyStores(PutBytes(off, data), c0)
    decreases data
  {
    if data != [] {
      PutBytesKeepKey(off + 1, data[1..], c0);
    }
  }

  lemma {:induction false} PutKeyKeepsKey(off: nat, data: seq<byte>, c0: Content)
    requires |c0.key| == KEY_MAX && off + |data| <= KEY_MAX && data == c0.key[off..off + |data|]
    ensures KeyStores(PutKey(off, data), c0)
    decreases data
  {
    if data != [] {
      assert data[1..] == c0.key[off + 1..off + 1 + |data[1..]|];
      PutKeyKeepsKey(off + 1, data[1..], c0);
    }
  }

  /** A set of the key a slot already holds stores nothing but that key's own bytes and hash. */
  lemma SetScriptKeepsKey(plan: Plan, job: Job, c: Content)
    requires plan.Valid() && plan.JobOk(job) && job.Put? && c.Fits(plan.env.maxVal)
    ensures KeyStores(Script(PutOp(plan, job), c, plan.env.maxVal), plan.v0[plan.HomeOf(job.t)].c)
  {
    var key, c0 := plan.keys[job.t], plan.v0[plan.HomeOf(job.t)].c;
    assert Home(plan.v0, key, plan.off[job.t]);
    PutBytesKeepKey(0, Zeros(ScrubLen(job.mode, |job.val|, plan.env.maxVal)), c0);
    PutBytesKeepKey(0, job.val, c0);
    PutKeyKeepsKey(0, PadKey(key)[..KEY_MAX - 1], c0);
    assert KeyStores(KeyScript(key), c0);
  }

  /** What the seqlock invariant of one slot says about a process at it. */
  lemma AtSlot(plan: Plan, st: World, p: nat)
    requires WorldInv(plan, st) && st.At(p).On?
    ensures var job := st.At(p).job;
      && plan.JobOk(job) && st.At(p).i == plan.off[job.t]
      && plan.SlotAt(job.t, st.At(p).i) == plan.HomeOf(job.t)
      && SlotOk(plan.env, st.slots[plan.HomeOf(job.t)])
      && LocalOk(plan.env, st.slots[plan.HomeOf(job.t)], st.At(p).l)
  {
    var pr := st.procs[p];
    assert ProcOk(plan, st.slots, p, pr);
    var s := plan.HomeOf(pr.job.t);
    assert Seqlock.Inv(plan.env, SlotState(plan, st, s));
    assert LocalsAt(plan, st.procs, s)[p] == pr.l;
  }

  /** A lane writer's step on its slot: the lock is always free for it, and the key stays. */
  lemma PutStep(plan: Plan, st: World, p: nat)
    requires WorldInv(plan, st) && st.At(p).On? && st.At(p).job.Put?
    requires plan.JobOk(st.At(p).job) && SlotOk(plan.env, st.slots[plan.HomeOf(st.At(p).job.t)])
    requires LocalOk(plan.env, st.slots[plan.HomeOf(st.At(p).job.t)], st.At(p).l)
    ensures var job, l := st.At(p).job, st.At(p).l;
      var s := plan.HomeOf(job.t);
      var (sl', l') := Seqlock.Move(plan.env, st.slots[s], l, Step);
      PutOutcome(plan, job, l, sl', l')
  {
    var pr := st.procs[p];
    assert ProcOk(plan, st.slots, p, pr);
    var job, l := pr.job, pr.l;
    var s := plan.HomeOf(job.t);
    assert KeepsKey(plan, s, st.slots[s]) && OnlySets(plan, job.t, st.slots[s]);
    if l.WRun? {
      PutRun(plan, job, st.slots[s], l);
    } else {
      if !l.WPlan? { EvenUnlessOwnerHolds(plan, st, job.t); }
      PutLock(plan, job, st.slots[s], l);
    }
  }

  /** The writer is still writing its key, or has finished; it is never turned away. */
  predicate PutOutcome(plan: Plan, job: Job, l: Local, sl': Slot, l': Local)
    requires plan.JobOk(job) && job.Put? && |plan.keys| == |plan.off|
    requires plan.base != [] && |plan.base| == |plan.v0|
  {
    && (l'.Idle? ==> l.WRun?)
    && (!l'.Idle? ==> WriterAt(plan, job, sl', l'))
    && KeepsKey(plan, plan.HomeOf(job.t), sl') && OnlySets(plan, job.t, sl')
  }

  lemma PutLock(plan: Plan, job: Job, sl: Slot, l: Local)
    requires plan.Valid() && plan.JobOk(job) && job.Put? && !l.WRun?
    requires SlotOk(plan.env, sl) && LocalOk(plan.env, sl, l) && (l.WPlan? || sl.ticks % 2 == 0)
    requires WriterAt(plan, job, sl, l) && KeepsKey(plan, plan.HomeOf(job.t), sl) && OnlySets(plan, job.t, sl)
    ensures var (sl', l') := WriterStep(plan.env, sl, l);
      PutOutcome(plan, job, l, sl', l')
  {
    if l.WPlan? {
      SetScriptKeepsKey(plan, job, sl.c);
    }
  }

  lemma PutRun(plan: Plan, job: Job, sl: Slot, l: Local)
    requires plan.Valid() && plan.JobOk(job) && job.Put? && l.WRun?
    requires SlotOk(plan.env, sl) && LocalOk(plan.env, sl, l)
    requires WriterAt(plan, job, sl, l) && KeepsKey(plan, plan.HomeOf(job.t), sl) && OnlySets(plan, job.t, sl)
    ensures var (sl', l') := WriterStep(plan.env, sl, l);
      PutOutcome(plan, job, l, sl', l')
  {
    assert Home(plan.v0, plan.keys[job.t], plan.off[job.t]);
    if l.todo != [] {
      assert forall j :: 0 <= j < |l.todo[1..]| ==> l.todo[1..][j] == l.todo[j + 1];
    } else {
      assert sl.c == Effect(l.op, sl.Base(), plan.env.maxVal);
    }
  }

  /** A reader's step leaves the slot alone, and what it saw was committed after prepopulation. */
  lemma ReadStep(plan: Plan, st: World, p: nat)
    requires WorldInv(plan, st) && st.At(p).On? && st.At(p).job.Read?
    requires plan.JobOk(st.At(p).job) && SlotOk(plan.env, st.slots[plan.HomeOf(st.At(p).job.t)])
    requires LocalOk(plan.env, st.slots[plan.HomeOf(st.At(p).job.t)], st.At(p).l)
    ensures var job, l := st.At(p).job, st.At(p).l;
      var sl := st.slots[plan.HomeOf(job.t)];
      var (sl', l') := Seqlock.Move(plan.env, sl, l, Step);
      && sl' == sl
      && (!l'.Idle? ==> ReaderAt(plan, job, sl, l'))
  {
    var pr := st.procs[p];
    assert ProcOk(plan, st.slots, p, pr);
    assert KeepsKey(plan, plan.HomeOf(pr.job.t), st.slots[plan.HomeOf(pr.job.t)]);
  }

  // ---- Whole steps -----------------------------------------------------------------------------

  /** A process that is not inside a call: its last call, if any, has returned. */
  predicate Resting(pr: Proc) {
    pr.Free? || pr.PutOk? || (pr.On? && pr.l.GRet?)
  }

  /** Writers set keys of their own lane only; anyone may read any key. */
  predicate Allowed(plan: Plan, p: nat, job: Job)
    requires |plan.owner| == |plan.keys|
  {
    plan.JobOk(job) && (job.Put? ==> p == plan.owner[job.t])
  }

  ghost function Next(plan: Plan, st: World, p: nat, turn: Turn): (st': World)
    requires WorldInv(plan, st)
    ensures WorldInv(plan, st')
  {
    match turn
    case Begin(job) =>
      if Resting(st.At(p)) && Allowed(plan, p, job) then
        BeginKeepsInv(plan, st, p, job);
        st.(procs := st.procs[p := Look(job, 0)])
      else st
    case Advance =>
      match st.At(p)
      case Look(job, i) =>
        LookKeepsInv(plan, st, p);
        st.(procs := st.procs[p := LookStep(plan, st.slots, job, i)])
      case Cmp(job, i, j) =>
        CmpKeepsInv(plan, st, p);
        st.(procs := st.procs[p := CmpStep(plan, st.slots, job, i, j)])
      case On(job, i, l) =>
        AtSlot(plan, st, p);
        OnKeepsInv(plan, st, p);
        var (sl', l') := Seqlock.Move(plan.env, st.slots[plan.HomeOf(job.t)], l, Step);
        World(st.slots[plan.HomeOf(job.t) := sl'], st.procs[p := AfterOn(plan, job, i, l, l')])
      case _ => st
  }

  lemma SlotGainsProcess(env: Env, sl: Slot, procs: map<nat, Local>, p: nat, l: Local)
    requires Seqlock.Inv(env, Seqlock.State(sl, procs))
    requires p in procs ==> !procs[p].Holds()
    requires LocalOk(env, sl, l) && !l.Holds()
    ensures Seqlock.Inv(env, Seqlock.State(sl, procs[p := l]))
  {
    var procs' := procs[p := l];
    if sl.ticks % 2 == 1 {
      var q :| q in procs && procs[q].Holds();
      assert q in procs' && procs'[q].Holds();
    }
  }

  lemma SlotLosesProcess(env: Env, sl: Slot, procs: map<nat, Local>, p: nat)
    requires Seqlock.Inv(env, Seqlock.State(sl, procs))
    requires p in procs ==> !procs[p].Holds()
    ensures Seqlock.Inv(env, Seqlock.State(sl, procs - {p}))
  {
    var procs' := procs - {p};
    if sl.ticks % 2 == 1 {
      var q :| q in procs && procs[q].Holds();
      assert q in procs' && procs'[q].Holds();
    }
  }

  /** Moving one process changes the population of the slots it leaves and enters, and of no other. */
  lemma LocalsAfter(plan: Plan, procs: map<nat, Proc>, p: nat, pr: Proc, s: nat)
    requires ProcsWellFormed(plan, procs) && (pr.On? ==> pr.job.t < |plan.keys|)
    ensures ProcsWellFormed(plan, procs[p := pr])
    ensures LocalsAt(plan, procs[p := pr], s) ==
      if pr.On? && plan.SlotAt(pr.job.t, pr.i) == s then LocalsAt(plan, procs, s)[p := pr.l]
      else LocalsAt(plan, procs, s) - {p}
  {
  }

  lemma NotAtSlot(plan: Plan, procs: map<nat, Proc>, p: nat, s: nat)
    requires ProcsWellFormed(plan, procs)
    requires p in procs && procs[p].On? ==> plan.SlotAt(procs[p].job.t, procs[p].i) != s
    ensures LocalsAt(plan, procs, s) - {p} == LocalsAt(plan, procs, s)
  {
  }

  lemma ProbingAtSlot(plan: Plan, st: World, p: nat, pr: Proc, s: nat)
    requires ProcsWellFormed(plan, st.procs) && s < |st.slots|
    requires Seqlock.Inv(plan.env, SlotState(plan, st, s))
    requires st.At(p).On? ==> !st.At(p).l.Holds()
    requires pr.On? ==> pr.job.t < |plan.keys| && !pr.l.Holds() && LocalOk(plan.env, st.slots[s], pr.l)
    ensures ProcsWellFormed(plan, st.procs[p := pr])
    ensures Seqlock.Inv(plan.env, SlotState(plan, st.(procs := st.procs[p := pr]), s))
  {
    var before := LocalsAt(plan, st.procs, s);
    LocalsAfter(plan, st.procs, p, pr, s);
    if pr.On? && plan.SlotAt(pr.job.t, pr.i) == s {
      SlotGainsProcess(plan.env, st.slots[s], before, p, pr.l);
    } else {
      SlotLosesProcess(plan.env, st.slots[s], before, p);
    }
  }

  /** A process outside every slot that moves without touching one. */
  lemma ProbingKeepsInv(plan: Plan, st: World, p: nat, pr: Proc)
    requires WorldInv(plan, st)
    requires st.At(p).On? ==> !st.At(p).l.Holds()
    requires ProcOk(plan, st.slots, p, pr)
    requires pr.On? ==> !st.At(p).On? && pr.l == Enter(plan, pr.job)
    ensures WorldInv(plan, st.(procs := st.procs[p := pr]))
  {
    var st' := st.(procs := st.procs[p := pr]);
    forall q | q in st'.procs
      ensures ProcOk(plan, st'.slots, q, st'.procs[q])
    {
      if q != p { assert ProcOk(plan, st.slots, q, st.procs[q]); }
    }
    forall s | 0 <= s < plan.N()
      ensures ProcsWellFormed(plan, st'.procs) && Seqlock.Inv(plan.env, SlotState(plan, st', s))
    {
      assert Seqlock.Inv(plan.env, SlotState(plan, st, s));
      if pr.On? { EnteringIsOk(plan, st, pr, s); }
      ProbingAtSlot(plan, st, p, pr, s);
    }
  }

  lemma EnteringIsOk(plan: Plan, st: World, pr: Proc, s: nat)
    requires plan.Valid() && s < |st.slots| && SlotOk(plan.env, st.slots[s])
    requires pr.On? && plan.JobOk(pr.job)
    requires pr.l.GLoad? || (pr.job.Put? && pr.l == WLoad(PutOp(plan, pr.job), Return))
    ensures LocalOk(plan.env, st.slots[s], pr.l)
  {
  }

  lemma BeginKeepsInv(plan: Plan, st: World, p: nat, job: Job)
    requires WorldInv(plan, st) && Resting(st.At(p)) && Allowed(plan, p, job)
    ensures WorldInv(plan, st.(procs := st.procs[p := Look(job, 0)]))
  {
    ProbingKeepsInv(plan, st, p, Look(job, 0));
  }

  lemma LookKeepsInv(plan: Plan, st: World, p: nat)
    requires WorldInv(plan, st) && st.At(p).Look?
    ensures var pr := st.At(p);
      && ProcOk(plan, st.slots, p, pr)
      && WorldInv(plan, st.(procs := st.procs[p := LookStep(plan, st.slots, pr.job, pr.i)]))
  {
    var pr := st.procs[p];
    assert ProcOk(plan, st.slots, p, pr);
    LookKeepsOk(plan, st, p);
    ProbingKeepsInv(plan, st, p, LookStep(plan, st.slots, pr.job, pr.i));
  }

  lemma CmpKeepsInv(plan: Plan, st: World, p: nat)
    requires WorldInv(plan, st) && st.At(p).Cmp?
    ensures var pr := st.At(p);
      && ProcOk(plan, st.slots, p, pr)
      && |st.slots[plan.SlotAt(pr.job.t, pr.i)].c.key| == KEY_MAX
      && WorldInv(plan, st.(procs := st.procs[p := CmpStep(plan, st.slots, pr.job, pr.i, pr.j)]))
  {
    var pr := st.procs[p];
    assert ProcOk(plan, st.slots, p, pr);
    CmpReads(plan, st, plan.SlotAt(pr.job.t, pr.i), 0);
    CmpKeepsOk(plan, st, p);
    ProbingKeepsInv(plan, st, p, CmpStep(plan, st.slots, pr.job, pr.i, pr.j));
  }

  /** A step on a slot, from the point of view of that slot's seqlock machine. */
  lemma SlotMoves(env: Env, s: Seqlock.State, p: nat)
    requires Seqlock.Inv(env, s) && p in s.procs
    ensures var (sl', l') := Seqlock.Move(env, s.slot, s.procs[p], Step);
      && Seqlock.Inv(env, Seqlock.State(sl', s.procs[p := l']))
      && (l'.Idle? ==> Seqlock.Inv(env, Seqlock.State(sl', s.procs - {p})))
  {
    var (sl', l') := Seqlock.Move(env, s.slot, s.procs[p], Step);
    SeqlockRuns.NextKeepsInv(env, s, p, Step);
    if l'.Idle? {
      SlotLosesProcess(env, sl', s.procs[p := l'], p);
      assert s.procs[p := l'] - {p} == s.procs - {p};
    }
  }

  /** What the other processes know survives a step of `p` on its slot. */
  lemma OthersUnmoved(plan: Plan, st: World, p: nat, q: nat, sl': Slot)
    requires WorldInv(plan, st) && q in st.procs && q != p && st.At(p).On?
    requires plan.JobOk(st.At(p).job)
    requires st.At(p).job.Read? ==> sl' == st.slots[plan.HomeOf(st.At(p).job.t)]
    ensures ProcOk(plan, st.slots[plan.HomeOf(st.At(p).job.t) := sl'], q, st.procs[q])
  {
    assert ProcOk(plan, st.slots, p, st.procs[p]);
    assert ProcOk(plan, st.slots, q, st.procs[q]);
    var s := plan.HomeOf(st.At(p).job.t);
    assert st.At(p).job.Read? ==> st.slots[s := sl'] == st.slots;
    if st.procs[q].On? && st.procs[q].job.Put? && plan.HomeOf(st.procs[q].job.t) == s {
      HomesDistinct(plan, st.procs[q].job.t, st.At(p).job.t);
    }
  }

  /** Every slot's seqlock machine after `p` stepped on its slot. */
  lemma OnKeepsSlots(plan: Plan, st: World, p: nat, sl': Slot, l': Local, pr': Proc, r: nat)
    requires WorldInv(plan, st) && st.At(p).On? && r < plan.N()
    requires ProcOk(plan, st.slots, p, st.At(p))
    requires var s := plan.HomeOf(st.At(p).job.t);
      && SlotOk(plan.env, st.slots[s]) && LocalOk(plan.env, st.slots[s], st.At(p).l)
      && (sl', l') == Seqlock.Move(plan.env, st.slots[s], st.At(p).l, Step)
    requires pr'.On? <==> !l'.Idle?
    requires pr'.On? ==> pr'.job == st.At(p).job && pr'.i == st.At(p).i && pr'.l == l'
    ensures ProcsWellFormed(plan, st.procs[p := pr'])
    ensures Seqlock.Inv(plan.env,
      SlotState(plan, World(st.slots[plan.HomeOf(st.At(p).job.t) := sl'], st.procs[p := pr']), r))
  {
    var s := plan.HomeOf(st.At(p).job.t);
    assert Seqlock.Inv(plan.env, SlotState(plan, st, r));
    LocalsAfter(plan, st.procs, p, pr', r);
    if r == s {
      assert SlotState(plan, st, s).procs[p] == st.At(p).l;
      SlotMoves(plan.env, SlotState(plan, st, s), p);
    } else {
      NotAtSlot(plan, st.procs, p, r);
    }
  }

  lemma OnKeepsSets(plan: Plan, st: World, s: nat, t: nat, sl': Slot, u: nat)
    requires WorldInv(plan, st) && t < |plan.keys| && s == plan.HomeOf(t)
    requires OnlySets(plan, t, sl') && u < |plan.keys|
    ensures OnlySets(plan, u, st.slots[s := sl'][plan.HomeOf(u)])
  {
    assert OnlySets(plan, u, st.slots[plan.HomeOf(u)]);
    if plan.HomeOf(u) == s {
      HomesDistinct(plan, u, t);
    }
  }

  /** The process itself: what its step makes of what it knew. */
  lemma OnKeepsOk(plan: Plan, st: World, p: nat)
    requires WorldInv(plan, st) && st.At(p).On?
    requires plan.JobOk(st.At(p).job) && SlotOk(plan.env, st.slots[plan.HomeOf(st.At(p).job.t)])
    requires st.At(p).i == plan.off[st.At(p).job.t]
    requires LocalOk(plan.env, st.slots[plan.HomeOf(st.At(p).job.t)], st.At(p).l)
    ensures var pr := st.At(p);
      var s := plan.HomeOf(pr.job.t);
      var (sl', l') := Seqlock.Move(plan.env, st.slots[s], pr.l, Step);
      && ProcOk(plan, st.slots[s := sl'], p, AfterOn(plan, pr.job, pr.i, pr.l, l'))
      && KeepsKey(plan, s, sl') && OnlySets(plan, pr.job.t, sl')
      && (pr.job.Put? && l'.Idle? ==> pr.l.WRun?)
      && (pr.job.Read? ==> sl' == st.slots[s])
  {
    var pr := st.procs[p];
    var s := plan.HomeOf(pr.job.t);
    assert ProcOk(plan, st.slots, p, pr);
    assert KeepsKey(plan, s, st.slots[s]) && OnlySets(plan, pr.job.t, st.slots[s]);
    if pr.job.Put? {
      PutStep(plan, st, p);
    } else {
      ReadStep(plan, st, p);
    }
  }

  lemma OnKeepsProcs(plan: Plan, st: World, p: nat, sl': Slot, pr': Proc, st': World)
    requires WorldInv(plan, st) && st.At(p).On? && plan.JobOk(st.At(p).job)
    requires st' == World(st.slots[plan.HomeOf(st.At(p).job.t) := sl'], st.procs[p := pr'])
    requires ProcOk(plan, st'.slots, p, pr')
    requires st.At(p).job.Read? ==> sl' == st.slots[plan.HomeOf(st.At(p).job.t)]
    ensures forall q :: q in st'.procs ==> ProcOk(plan, st'.slots, q, st'.procs[q])
  {
    forall q | q in st'.procs
      ensures ProcOk(plan, st'.slots, q, st'.procs[q])
    {
      if q != p { OthersUnmoved(plan, st, p, q, sl'); }
    }
  }

  lemma OnKeepsCommits(plan: Plan, st: World, t: nat, sl': Slot, st': World)
    requires WorldInv(plan, st) && t < |plan.keys|
    requires st'.slots == st.slots[plan.HomeOf(t) := sl']
    requires KeepsKey(plan, plan.HomeOf(t), sl') && OnlySets(plan, t, sl')
    ensures forall r :: 0 <= r < plan.N() ==> KeepsKey(plan, r, st'.slots[r])
    ensures forall u :: 0 <= u < |plan.keys| ==> OnlySets(plan, u, st'.slots[plan.HomeOf(u)])
  {
    forall r | 0 <= r < plan.N()
      ensures KeepsKey(plan, r, st'.slots[r])
    {
      assert KeepsKey(plan, r, st.slots[r]);
    }
    forall u | 0 <= u < |plan.keys|
      ensures OnlySets(plan, u, st'.slots[plan.HomeOf(u)])
    {
      OnKeepsSets(plan, st, plan.HomeOf(t), t, sl', u);
    }
  }

  lemma OnKeepsInv(plan: Plan, st: World, p: nat)
    requires WorldInv(plan, st) && st.At(p).On?
    requires plan.JobOk(st.At(p).job) && SlotOk(plan.env, st.slots[plan.HomeOf(st.At(p).job.t)])
    requires st.At(p).i == plan.off[st.At(p).job.t]
    requires LocalOk(plan.env, st.slots[plan.HomeOf(st.At(p).job.t)], st.At(p).l)
    ensures var pr := st.At(p);
      var s := plan.HomeOf(pr.job.t);
      var (sl', l') := Seqlock.Move(plan.env, st.slots[s], pr.l, Step);
      WorldInv(plan, World(st.slots[s := sl'], st.procs[p := AfterOn(plan, pr.job, pr.i, pr.l, l')]))
  {
    var pr := st.procs[p];
    var s := plan.HomeOf(pr.job.t);
    var (sl', l') := Seqlock.Move(plan.env, st.slots[s], pr.l, Step);
    var pr' := AfterOn(plan, pr.job, pr.i, pr.l, l');
    var st' := World(st.slots[s := sl'], st.procs[p := pr']);
    OnKeepsOk(plan, st, p);
    OnKeepsProcs(plan, st, p, sl', pr', st');
    OnKeepsCommits(plan, st, pr.job.t, sl', st');
    forall r | 0 <= r < plan.N()
      ensures ProcsWellFormed(plan, st'.procs) && Seqlock.Inv(plan.env, SlotState(plan, st', r))
    {
      assert ProcOk(plan, st.slots, p, pr);
      OnKeepsSlots(plan, st, p, sl', l', pr', r);
    }
  }

  // ---- Main results ----------------------------------------------------------------------------

  type Schedule = seq<(nat, Turn)>

  ghost function Exec(plan: Plan, st: World, run: Schedule): (st': World)
    requires WorldInv(plan, st)
    ensures WorldInv(plan, st')
    decreases run
  {
    if run == [] then st else Exec(plan, Next(plan, st, run[0].0, run[0].1), run[1..])
  }

  /** The store right after a successful prepopulation, with every process still outside its first call. */
  ghost predicate Prepopulated(plan: Plan, st: World) {
    && plan.Valid() && st.procs == map[] && |st.slots| == plan.N()
    && (forall s :: 0 <= s < plan.N() ==>
          && SlotOk(plan.env, st.slots[s]) && st.slots[s].ticks == 2 * plan.base[s]
          && st.slots[s].c == plan.v0[s].c)
    && (forall t :: 0 <= t < |plan.keys| ==>
          var sl := st.slots[plan.HomeOf(t)];
          sl.log[|sl.log| - 1].Set? && sl.log[|sl.log| - 1].key == plan.keys[t])
  }

  lemma PrepopulatedIsInv(plan: Plan, st: World)
    requires Prepopulated(plan, st)
    ensures WorldInv(plan, st)
  {
    forall s | 0 <= s < plan.N()
      ensures Seqlock.Inv(plan.env, SlotState(plan, st, s)) && KeepsKey(plan, s, st.slots[s])
    {
      PrepopulatedSlot(plan, st, s);
    }
  }

  lemma PrepopulatedSlot(plan: Plan, st: World, s: nat)
    requires Prepopulated(plan, st) && s < plan.N()
    ensures Seqlock.Inv(plan.env, SlotState(plan, st, s)) && KeepsKey(plan, s, st.slots[s])
  {
    assert LocalsAt(plan, st.procs, s) == map[];
    assert st.slots[s].hist[plan.base[s]] == st.slots[s].c;
  }

  /** What holds in one state: no set has failed, sets return from home, and slots keep their keys. */
  predicate InPlace(plan: Plan, st: World, p: nat, s: nat)
    requires |plan.off| == |plan.keys| && |st.slots| == plan.N() && s < plan.N()
  {
    && !st.At(p).PutFailed?
    && (st.At(p).PutOk? ==> st.At(p).job.t < |plan.keys| && st.At(p).s == plan.HomeOf(st.At(p).job.t))
    && st.slots[s].c.hash == plan.v0[s].c.hash
    && (st.slots[s].Epoch() % 2 == 0 ==> st.slots[s].c.key == plan.v0[s].c.key)
  }

  lemma InvKeepsInPlace(plan: Plan, st: World, p: nat, s: nat)
    requires WorldInv(plan, st) && s < plan.N()
    ensures InPlace(plan, st, p, s)
  {
    if p in st.procs {
      assert ProcOk(plan, st.slots, p, st.procs[p]);
    }
    assert KeepsKey(plan, s, st.slots[s]);
  }

  /**
   In every interleaving, no set by a lane writer ever fails, each returns from the slot its key
   was prepopulated in, and no slot ever changes hands: outside a write every slot holds the hash
   and key it held at the start.
   */
  lemma SetsNeverFail(plan: Plan, st: World, run: Schedule, p: nat, s: nat)
    requires Prepopulated(plan, st) && s < plan.N()
    ensures WorldInv(plan, st)
    ensures InPlace(plan, Exec(plan, st, run), p, s)
  {
    PrepopulatedIsInv(plan, st);
    InvKeepsInPlace(plan, Exec(plan, st, run), p, s);
  }

  /** A get with a buffer that has returned 0 before the epoch could wrap. */
  predicate GotValue(pr: Proc) {
    pr.On? && pr.l.GRet? && pr.l.copy && pr.l.t1 < pr.l.t0 + MOD64
  }

  /** It was delivered, whole, the value of a completed set of the key it asked for. */
  ghost predicate IsCompletedWrite(plan: Plan, st: World, pr: Proc)
    requires |plan.off| == |plan.keys| && |st.slots| == plan.N() && GotValue(pr)
  {
    && pr.job.t < |plan.keys|
    && var log := st.slots[plan.HomeOf(pr.job.t)].log;
       exists m :: 0 <= m < |log| && log[m].Set? && log[m].key == plan.keys[pr.job.t] && log[m].val == pr.l.got
  }

  lemma DeliveredIsCompletedWrite(plan: Plan, sl: Slot, t: nat, r: Local)
    requires SlotOk(plan.env, sl) && plan.Valid() && t < |plan.keys| && OnlySets(plan, t, sl)
    requires r.GRet? && r.copy && SeqlockRuns.Delivered(sl, r) && r.t0 >= 2 * plan.base[plan.HomeOf(t)]
    ensures exists m :: 0 <= m < |sl.log| && sl.log[m].Set? && sl.log[m].key == plan.keys[t] && sl.log[m].val == r.got
  {
    assert plan.base[plan.HomeOf(t)] >= 1;
    var m := r.t0 / 2 - 1;
    assert sl.log[m].Set? && sl.log[m].key == plan.keys[t];
    TableLaws.SetStoresValue(sl.log[m], sl.hist[m], plan.env.maxVal);
  }

  lemma GetReadsCompletedWrite(plan: Plan, st: World, p: nat)
    requires WorldInv(plan, st) && GotValue(st.At(p))
    ensures IsCompletedWrite(plan, st, st.At(p))
  {
    var pr := st.procs[p];
    AtSlot(plan, st, p);
    assert ProcOk(plan, st.slots, p, pr);
    var s := plan.HomeOf(pr.job.t);
    assert Seqlock.Inv(plan.env, SlotState(plan, st, s));
    assert OnlySets(plan, pr.job.t, st.slots[s]);
    SeqlockRuns.GetDelivers(plan.env, SlotState(plan, st, s), p);
    DeliveredIsCompletedWrite(plan, st.slots[s], pr.job.t, pr.l);
  }

  /** In every interleaving, every get that returns 0 delivers a completed write of that very key. */
  lemma GetsReadCompletedWrites(plan: Plan, st: World, run: Schedule, p: nat)
    requires WorldInv(plan, st)
    ensures var st' := Exec(plan, st, run);
      GotValue(st'.At(p)) ==> IsCompletedWrite(plan, st', st'.At(p))
  {
    var st' := Exec(plan, st, run);
    if GotValue(st'.At(p)) {
      GetReadsCompletedWrite(plan, st', p);
    }
  }
}
