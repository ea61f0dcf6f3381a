/** A lane writer or a reader that is left alone finds its key and has its answer, wherever the others stand. */
module ChiSaoSolo {
  import opened Bytes
  import opened SlotEffects
  import opened Table
  import opened Placement
  import opened Seqlock
  import SeqlockRuns
  import opened Solo
  import opened ChiSao
  import opened ChiSaoRuns
  import opened ChiSaoValues
  import Fnv

  // ---- The probe -------------------------------------------------------------------------------

  /** Process `p` looks for its key, has not passed its home, and the slot there is stable. */
  ghost predicate Probing(plan: Plan, st: World, p: nat) {
    && WorldInv(plan, st) && (st.At(p).Look? || st.At(p).Cmp?)
    && plan.JobOk(st.At(p).job) && st.At(p).i <= plan.off[st.At(p).job.t]
    && st.slots[plan.HomeOf(st.At(p).job.t)].ticks % 2 == 0
  }

  /** One step further: the next slot, the next byte, or the key's home with the key found in it. */
  predicate Further(plan: Plan, pr: Proc, pr': Proc)
    requires (pr.Look? || pr.Cmp?) && plan.JobOk(pr.job) && |plan.off| == |plan.keys|
  {
    var off := plan.off[pr.job.t];
    || pr' == On(pr.job, off, Enter(plan, pr.job))
    || (pr' == Look(pr.job, pr.i + 1) && pr.i + 1 <= off)
    || (pr.Look? && pr' == Cmp(pr.job, pr.i, 0))
    || (pr.Cmp? && pr' == Cmp(pr.job, pr.i, pr.j + 1) && pr.j + 1 < KEY_MAX)
  }

  lemma LooksOn(plan: Plan, st: World, p: nat)
    requires Probing(plan, st, p) && st.At(p).Look?
    ensures Further(plan, st.At(p), LookStep(plan, st.slots, st.At(p).job, st.At(p).i))
  {
    var pr := st.procs[p];
    assert ProcOk(plan, st.slots, p, pr);
    var t := pr.job.t;
    assert Home(plan.v0, plan.keys[t], plan.off[t]);
    assert KeepsKey(plan, plan.SlotAt(t, pr.i), st.slots[plan.SlotAt(t, pr.i)]);
    LookKeepsOk(plan, st, p);
  }

  lemma ComparesOn(plan: Plan, st: World, p: nat)
    requires Probing(plan, st, p) && st.At(p).Cmp?
    requires st.At(p).j < KEY_MAX && |st.slots[plan.SlotAt(st.At(p).job.t, st.At(p).i)].c.key| == KEY_MAX
    ensures Further(plan, st.At(p), CmpStep(plan, st.slots, st.At(p).job, st.At(p).i, st.At(p).j))
  {
    var pr := st.procs[p];
    assert ProcOk(plan, st.slots, p, pr);
    var t, key := pr.job.t, plan.keys[pr.job.t];
    CmpReads(plan, st, plan.SlotAt(t, pr.i), pr.j);
    CmpKeepsOk(plan, st, p);
    if pr.i == plan.off[t] {
      assert Home(plan.v0, key, plan.off[t]);
      assert PadKey(key)[pr.j] == KeyByte(key, pr.j);
    }
  }

  lemma ProbesOn(plan: Plan, st: World, p: nat)
    requires Probing(plan, st, p)
    ensures var pr := Next(plan, st, p, Advance).At(p);
      && Further(plan, st.At(p), pr)
      && Next(plan, st, p, Advance) == st.(procs := st.procs[p := pr])
  {
    assert ProcOk(plan, st.slots, p, st.procs[p]);
    if st.At(p).Look? {
      LooksOn(plan, st, p);
    } else {
      CmpKeepsInv(plan, st, p);
      ComparesOn(plan, st, p);
    }
  }

  lemma ExecFirst(plan: Plan, st: World, p: nat, turn: Turn, rest: Schedule)
    requires WorldInv(plan, st)
    ensures Exec(plan, st, [(p, turn)] + rest) == Exec(plan, Next(plan, st, p, turn), rest)
  {
    var run: Schedule := [(p, turn)] + rest;
    assert run[1..] == rest;
  }

  lemma {:induction false} ExecConcat(plan: Plan, st: World, a: Schedule, b: Schedule)
    requires WorldInv(plan, st)
    ensures Exec(plan, st, a + b) == Exec(plan, Exec(plan, st, a), b)
    decreases a
  {
    if a == [] {
      assert a + b == b;
    } else {
      assert (a + b)[1..] == a[1..] + b;
      ExecConcat(plan, Next(plan, st, a[0].0, a[0].1), a[1..], b);
    }
  }

  function Left(plan: Plan, pr: Proc): int
    requires (pr.Look? || pr.Cmp?) && pr.job.t < |plan.off|
  {
    plan.off[pr.job.t] - pr.i
  }

  /** The probe of a process that is left alone ends in its key's home. */
  lemma {:induction false} FindsHome(plan: Plan, st: World, p: nat) returns (run: Schedule)
    requires Probing(plan, st, p)
    ensures var job := st.At(p).job;
      && plan.JobOk(job) && |plan.off| == |plan.keys|
      && Exec(plan, st, run) == st.(procs := st.procs[p := Found(plan, st.At(p))])
    decreases Left(plan, st.At(p)), if st.At(p).Look? then KEY_MAX else KEY_MAX - 1 - st.At(p).j
  {
    var st', pr := ProbesOnce(plan, st, p);
    var rest: Schedule := [];
    if !pr.On? {
      rest := FindsHome(plan, st', p);
      Twice(st.procs, p, pr, Found(plan, pr));
    }
    ExecFirst(plan, st, p, Advance, rest);
    run := [(p, Advance)] + rest;
  }

  lemma Twice(procs: map<nat, Proc>, p: nat, a: Proc, b: Proc)
    ensures procs[p := a][p := b] == procs[p := b]
  {
  }

  /** Where the probe for a key ends. */
  function Found(plan: Plan, pr: Proc): Proc
    requires (pr.Look? || pr.Cmp?) && plan.JobOk(pr.job) && |plan.off| == |plan.keys|
  {
    On(pr.job, plan.off[pr.job.t], Enter(plan, pr.job))
  }

  lemma ProbesOnce(plan: Plan, st: World, p: nat) returns (st': World, pr: Proc)
    requires Probing(plan, st, p)
    ensures plan.JobOk(st.At(p).job) && |plan.off| == |plan.keys| && (st.At(p).Cmp? ==> st.At(p).j < KEY_MAX)
    ensures st' == Next(plan, st, p, Advance) && WorldInv(plan, st')
    ensures st' == st.(procs := st.procs[p := pr]) && Further(plan, st.At(p), pr)
    ensures !pr.On? ==> Probing(plan, st', p)
  {
    assert ProcOk(plan, st.slots, p, st.procs[p]);
    ProbesOn(plan, st, p);
    st' := Next(plan, st, p, Advance);
    pr := st'.At(p);
  }

  // ---- At the slot -----------------------------------------------------------------------------

  lemma {:induction false} IdleStays(env: Env, x: Pair, n: nat)
    requires x.l.Idle?
    ensures PairRun(env, x, n) == x
    decreases n
  {
    if n > 0 && PairOk(env, x) {
      IdleStays(env, x, n - 1);
    }
  }

  lemma RestOfRun(env: Env, x: Pair, n: nat, y: Pair, z: Pair)
    requires PairOk(env, x) && n > 0 && y == PairStep(env, x) && PairRun(env, x, n) == z
    ensures PairRun(env, y, n - 1) == z && (y.l.Idle? ==> y == z)
  {
    RunFirst(env, x, n);
    if y.l.Idle? {
      IdleStays(env, y, n - 1);
    }
  }

  lemma NotIdle(plan: Plan, st: World, p: nat)
    requires WorldInv(plan, st) && st.At(p).On?
    ensures !st.At(p).l.Idle?
  {
    assert ProcOk(plan, st.slots, p, st.procs[p]);
  }

  lemma AfterTwice(plan: Plan, st: World, p: nat, job: Job, y: Pair, z: Pair)
    requires plan.JobOk(job) && |plan.off| == |plan.keys| && |st.slots| == plan.N()
    ensures After(plan, After(plan, st, p, job, y), p, job, z) == After(plan, st, p, job, z)
  {
    var h := plan.HomeOf(job.t);
    assert st.slots[h := y.sl][h := z.sl] == st.slots[h := z.sl];
    Twice(st.procs, p, After(plan, st, p, job, y).At(p), After(plan, st, p, job, z).At(p));
  }

  /** Process `p` is at work on `job` in its key's slot; it and the slot are at `x`. */
  ghost predicate Working(plan: Plan, st: World, p: nat, job: Job, x: Pair) {
    && WorldInv(plan, st) && plan.JobOk(job) && st.At(p) == On(job, plan.off[job.t], x.l)
    && x.sl == st.slots[plan.HomeOf(job.t)]
  }

  /** One step of it, with `n` still to go to `z`. */
  lemma WorksOnce(plan: Plan, st: World, p: nat, job: Job, x: Pair, n: nat, z: Pair)
    returns (st': World, y: Pair)
    requires Working(plan, st, p, job, x) && n > 0 && PairRun(plan.env, x, n) == z
    ensures plan.JobOk(job) && |plan.off| == |plan.keys| && |st.slots| == plan.N() == |st'.slots|
    ensures WorldInv(plan, st) && st' == Next(plan, st, p, Advance) && WorldInv(plan, st')
    ensures PairRun(plan.env, y, n - 1) == z
    ensures After(plan, st', p, job, z) == After(plan, st, p, job, z)
    ensures if y.l.Idle? then st' == After(plan, st', p, job, z) else Working(plan, st', p, job, y)
  {
    OnNext(plan, st, p);
    st' := Next(plan, st, p, Advance);
    y := PairStep(plan.env, x);
    AfterTwice(plan, st, p, job, y, z);
    RestOfRun(plan.env, x, n, y, z);
  }

  lemma StandsStill(plan: Plan, st: World, p: nat, job: Job, x: Pair)
    requires Working(plan, st, p, job, x)
    ensures WorldInv(plan, st) && plan.JobOk(job) && st == After(plan, st, p, job, x)
  {
    NotIdle(plan, st, p);
    assert st.slots[plan.HomeOf(job.t) := x.sl] == st.slots && st.procs[p := st.At(p)] == st.procs;
  }

  lemma {:induction false} WorksFurther(plan: Plan, st: World, p: nat, job: Job, x: Pair, n: nat, z: Pair)
    returns (run: Schedule)
    requires Working(plan, st, p, job, x) && n > 0 && PairRun(plan.env, x, n) == z
    ensures WorldInv(plan, st) && plan.JobOk(job) && |plan.off| == |plan.keys| && |st.slots| == plan.N()
    ensures Exec(plan, st, run) == After(plan, st, p, job, z)
    decreases n, 0
  {
    var st', y := WorksOnce(plan, st, p, job, x, n, z);
    var rest := WorksAlone(plan, st', p, job, y, n - 1, z);
    ExecFirst(plan, st, p, Advance, rest);
    run := [(p, Advance)] + rest;
  }

  /** At its slot, a process that is left alone does what `Solo` says of it, and nothing once its call returned. */
  lemma {:induction false} WorksAlone(plan: Plan, st: World, p: nat, job: Job, y: Pair, n: nat, z: Pair)
    returns (run: Schedule)
    requires WorldInv(plan, st) && plan.JobOk(job) && |plan.off| == |plan.keys| && |st.slots| == plan.N()
    requires PairRun(plan.env, y, n) == z
    requires if y.l.Idle? then st == After(plan, st, p, job, z) else Working(plan, st, p, job, y)
    ensures Exec(plan, st, run) == After(plan, st, p, job, z)
    decreases n, 1
  {
    if y.l.Idle? {
      run := [];
    } else if n == 0 {
      StandsStill(plan, st, p, job, y);
      run := [];
    } else {
      run := WorksFurther(plan, st, p, job, y, n, z);
    }
  }

  // ---- Main results ----------------------------------------------------------------------------

  /** The process has not begun a call yet, or has returned from its last one. */
  predicate AtRest(pr: Proc) {
    pr.Free? || pr.PutOk? || (pr.On? && pr.l.GRet?)
  }

  /** Process `p` may begin `job`, and its key's slot is stable. */
  ghost predicate MayCall(plan: Plan, st: World, p: nat, job: Job) {
    && WorldInv(plan, st) && AtRest(st.At(p)) && plan.JobOk(job) && (job.Put? ==> p == plan.owner[job.t])
    && st.slots[plan.HomeOf(job.t)].ticks % 2 == 0
  }

  /** It begins, and finds its key. */
  lemma BeginsAndFinds(plan: Plan, st: World, p: nat, job: Job) returns (run: Schedule, st': World)
    requires MayCall(plan, st, p, job)
    ensures WorldInv(plan, st) && plan.JobOk(job) && |plan.off| == |plan.keys|
    ensures st' == Exec(plan, st, run) && WorldInv(plan, st')
    ensures st' == st.(procs := st.procs[p := On(job, plan.off[job.t], Enter(plan, job))])
  {
    var st1 := Next(plan, st, p, Turn.Begin(job));
    assert st1 == st.(procs := st.procs[p := Look(job, 0)]);
    run := FindsHome(plan, st1, p);
    ExecFirst(plan, st, p, Turn.Begin(job), run);
    Twice(st.procs, p, Look(job, 0), On(job, plan.off[job.t], Enter(plan, job)));
    run := [(p, Turn.Begin(job))] + run;
    st' := Exec(plan, st, run);
  }

  lemma AfterFound(plan: Plan, st: World, p: nat, job: Job, pr: Proc, z: Pair)
    requires plan.JobOk(job) && |plan.off| == |plan.keys| && |st.slots| == plan.N()
    ensures After(plan, st.(procs := st.procs[p := pr]), p, job, z) == After(plan, st, p, job, z)
  {
    Twice(st.procs, p, pr, After(plan, st, p, job, z).At(p));
  }

  lemma CallsAlone(plan: Plan, st: World, p: nat, job: Job, n: nat, z: Pair) returns (run: Schedule)
    requires MayCall(plan, st, p, job)
    requires PairRun(plan.env, Pair(st.slots[plan.HomeOf(job.t)], Enter(plan, job)), n) == z
    ensures WorldInv(plan, st) && plan.JobOk(job) && |plan.off| == |plan.keys| && |st.slots| == plan.N()
    ensures Exec(plan, st, run) == After(plan, st, p, job, z)
  {
    var before, st' := BeginsAndFinds(plan, st, p, job);
    var after := WorksAlone(plan, st', p, job, Pair(st.slots[plan.HomeOf(job.t)], Enter(plan, job)), n, z);
    AfterFound(plan, st, p, job, st'.At(p), z);
    ExecConcat(plan, st, before, after);
    run := before + after;
  }

  /** The slot of a key whose owner does not hold it is stable, and as the seqlock's invariant says. */
  lemma HomeIsOk(plan: Plan, st: World, t: nat)
    requires WorldInv(plan, st) && t < |plan.keys|
    ensures plan.env.Valid() && SlotOk(plan.env, st.slots[plan.HomeOf(t)])
  {
    assert Seqlock.Inv(plan.env, SlotState(plan, st, plan.HomeOf(t)));
  }

  /**
   Wherever the other writers and the readers stand, a lane writer that sets a key of its lane and is then
   left alone returns successfully: its key's slot has one commit more, the set to the value it was asked
   for, and no other slot has changed.
   */
  lemma OwnerAlone(plan: Plan, st: World, p: nat, job: Job) returns (run: Schedule)
    requires WorldInv(plan, st) && AtRest(st.At(p)) && plan.JobOk(job) && job.Put? && p == plan.owner[job.t]
    ensures WorldInv(plan, st) && plan.JobOk(job) && |plan.off| == |plan.keys| && |st.slots| == plan.N()
    ensures var h := plan.HomeOf(job.t);
      && SlotOk(plan.env, st.slots[h])
      && Exec(plan, st, run) == World(
           st.slots[h := Committed(st.slots[h], Set(plan.keys[job.t], job.val, job.mode, false), plan.env.maxVal)],
           st.procs[p := PutOk(job, h)])
  {
    EvenUnlessOwnerHolds(plan, st, job.t);
    HomeIsOk(plan, st, job.t);
    var sl := st.slots[plan.HomeOf(job.t)];
    var op := Set(plan.keys[job.t], job.val, job.mode, false);
    var n := LoneWriterCompletes(plan.env, sl, op, Return);
    run := CallsAlone(plan, st, p, job, n, Pair(Committed(sl, op, plan.env.maxVal), Idle));
  }

  /**
   A reader that is left alone while its key's owner is not writing finds the key and gets the value, if
   there is room for it; no slot changes.
   */
  lemma ReaderAlone(plan: Plan, st: World, p: nat, job: Job) returns (run: Schedule)
    requires MayCall(plan, st, p, job) && job.Read?
    ensures WorldInv(plan, st) && plan.JobOk(job) && |plan.off| == |plan.keys| && |st.slots| == plan.N()
    ensures var sl := st.slots[plan.HomeOf(job.t)];
      && SlotOk(plan.env, sl)
      && Exec(plan, st, run) == World(st.slots, st.procs[p :=
           if job.copy && |sl.c.Value()| > job.bufSz then Free
           else On(job, plan.off[job.t], GRet(job.copy, job.bufSz, sl.ticks, sl.ticks, |sl.c.Value()|,
                                              if job.copy then sl.c.Value() else []))])
  {
    HomeIsOk(plan, st, job.t);
    var h := plan.HomeOf(job.t);
    var n := LoneGet(plan.env, st.slots[h], job.copy, job.bufSz);
    run := CallsAlone(plan, st, p, job, n, Pair(st.slots[h], GetAnswer(st.slots[h], job.copy, job.bufSz)));
    assert st.slots[h := st.slots[h]] == st.slots;
  }
}
