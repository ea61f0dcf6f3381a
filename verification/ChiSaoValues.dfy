/** The values of the lane writers: what a key's slot is given, in which order, and what a get of it hands out. */
module ChiSaoValues {
  import opened Bytes
  import opened SlotEffects
  import opened Table
  import opened Placement
  import opened Seqlock
  import SeqlockRuns
  import opened Solo
  import opened ChiSao
  import opened ChiSaoRuns
  import TableLaws
  import Fnv

  // ---- The sets that returned, in order --------------------------------------------------------

  /** On this step process `p` returned from a set of key number `t`. */
  predicate Returns(st: World, st': World, p: nat, t: nat) {
    !st.At(p).PutOk? && st'.At(p).PutOk? && st'.At(p).job.t == t
  }

  /** The `Put` jobs on key number `t` that returned during the run, in order. */
  ghost function Returned(plan: Plan, st: World, run: Schedule, t: nat): seq<Job>
    requires WorldInv(plan, st)
    decreases run
  {
    if run == [] then []
    else
      var st' := Next(plan, st, run[0].0, run[0].1);
      (if Returns(st, st', run[0].0, t) then [st'.At(run[0].0).job] else [])
      + Returned(plan, st', run[1..], t)
  }

  /** A slot's log went on with a set of key number `t` for each of the jobs, to the value asked for. */
  predicate GrewBy(plan: Plan, t: nat, log: seq<Op>, log': seq<Op>, jobs: seq<Job>)
    requires t < |plan.keys|
  {
    && |log'| == |log| + |jobs| && log'[..|log|] == log
    && forall k :: 0 <= k < |jobs| ==>
         jobs[k].Put? && log'[|log| + k] == Set(plan.keys[t], jobs[k].val, jobs[k].mode, false)
  }

  lemma GrewOn(plan: Plan, t: nat, a: seq<Op>, b: seq<Op>, c: seq<Op>, first: seq<Job>, rest: seq<Job>)
    requires t < |plan.keys| && GrewBy(plan, t, a, b, first) && GrewBy(plan, t, b, c, rest)
    ensures GrewBy(plan, t, a, c, first + rest)
  {
    assert c[..|a|] == c[..|b|][..|a|];
    forall k | 0 <= k < |first + rest|
      ensures (first + rest)[k].Put?
      ensures c[|a| + k] == Set(plan.keys[t], (first + rest)[k].val, (first + rest)[k].mode, false)
    {
      if k < |first| {
        assert c[|a| + k] == c[..|b|][|a| + k];
      } else {
        assert c[|b| + (k - |first|)] == c[|a| + k];
      }
    }
  }

  /** A step on a slot logs an operation exactly when it is a writer's release. */
  lemma MoveLogs(env: Env, sl: Slot, l: Local)
    requires SlotOk(env, sl) && LocalOk(env, sl, l)
    ensures Move(env, sl, l, Step).0.log == sl.log + (if l.WRun? && l.todo == [] then [l.op] else [])
  {
  }

  /** What a step of a process on its slot makes of it, in the words of its slot. */
  lemma OnNext(plan: Plan, st: World, p: nat)
    requires WorldInv(plan, st) && st.At(p).On?
    ensures var job := st.At(p).job;
      && plan.JobOk(job) && plan.Valid() && |st.slots| == plan.N() && st.At(p).i == plan.off[job.t]
      && ProcOk(plan, st.slots, p, st.At(p))
      && var x := Pair(st.slots[plan.HomeOf(job.t)], st.At(p).l);
         && PairOk(plan.env, x) && (job.Put? && PairStep(plan.env, x).l.Idle? ==> st.At(p).l.WRun?)
         && Next(plan, st, p, Advance) == After(plan, st, p, job, PairStep(plan.env, x))
  {
    AtSlot(plan, st, p);
    var pr := st.procs[p];
    assert ProcOk(plan, st.slots, p, pr);
    var (sl', l') := Seqlock.Move(plan.env, st.slots[plan.HomeOf(pr.job.t)], pr.l, Step);
    if pr.job.Put? {
      PutStep(plan, st, p);
    }
  }

  /** The world when process `p`, at work on `job`, and its key's slot are at `y`. */
  function After(plan: Plan, st: World, p: nat, job: Job, y: Pair): World
    requires plan.JobOk(job) && |plan.off| == |plan.keys| && |st.slots| == plan.N()
  {
    var h := plan.HomeOf(job.t);
    var pr := if !y.l.Idle? then On(job, plan.off[job.t], y.l)
              else if job.Put? then PutOk(job, h) else Free;
    World(st.slots[h := y.sl], st.procs[p := pr])
  }

  lemma OnLogs(plan: Plan, st: World, p: nat, t: nat)
    requires WorldInv(plan, st) && st.At(p).On? && t < |plan.keys|
    ensures var st' := Next(plan, st, p, Advance);
      GrewBy(plan, t, st.slots[plan.HomeOf(t)].log, st'.slots[plan.HomeOf(t)].log,
             if Returns(st, st', p, t) then [st'.At(p).job] else [])
  {
    var job := st.At(p).job;
    OnNext(plan, st, p);
    var x := Pair(st.slots[plan.HomeOf(job.t)], st.At(p).l);
    WorkLogs(plan, job, x);
    if plan.HomeOf(t) == plan.HomeOf(job.t) {
      HomesDistinct(plan, t, job.t);
    }
    AfterLogs(plan, st, p, job, PairStep(plan.env, x), t);
  }

  /** What a process's step on its slot logs: the set it was asked for, once it is done. */
  lemma WorkLogs(plan: Plan, job: Job, x: Pair)
    requires plan.JobOk(job) && |plan.off| == |plan.keys| && |plan.base| == |plan.v0| && PairOk(plan.env, x)
    requires if job.Put? then WriterAt(plan, job, x.sl, x.l) else ReaderAt(plan, job, x.sl, x.l)
    requires job.Put? && PairStep(plan.env, x).l.Idle? ==> x.l.WRun?
    ensures var y := PairStep(plan.env, x);
      y.sl.log == x.sl.log + (if y.l.Idle? && job.Put? then [PutOp(plan, job)] else [])
  {
    MoveLogs(plan.env, x.sl, x.l);
  }

  lemma AfterLogs(plan: Plan, st: World, p: nat, job: Job, y: Pair, t: nat)
    requires plan.JobOk(job) && |plan.off| == |plan.keys| && |st.slots| == plan.N() && t < |plan.keys|
    requires plan.HomeOf(t) == plan.HomeOf(job.t) ==> t == job.t
    requires !st.At(p).PutOk?
    requires y.sl.log == st.slots[plan.HomeOf(job.t)].log
                         + (if y.l.Idle? && job.Put? then [PutOp(plan, job)] else [])
    ensures var st' := After(plan, st, p, job, y);
      GrewBy(plan, t, st.slots[plan.HomeOf(t)].log, st'.slots[plan.HomeOf(t)].log,
             if Returns(st, st', p, t) then [st'.At(p).job] else [])
  {
  }

  lemma NextLogs(plan: Plan, st: World, p: nat, turn: Turn, t: nat)
    requires WorldInv(plan, st) && t < |plan.keys|
    ensures var st' := Next(plan, st, p, turn);
      GrewBy(plan, t, st.slots[plan.HomeOf(t)].log, st'.slots[plan.HomeOf(t)].log,
             if Returns(st, st', p, t) then [st'.At(p).job] else [])
  {
    if turn.Advance? && st.At(p).On? {
      OnLogs(plan, st, p, t);
    }
  }

  /**
   In every interleaving, the log of a key's slot goes on with the sets of that key that returned, in the
   order in which they returned, each to the very value and mode its caller passed, and with nothing else.
   */
  lemma {:induction false} LogIsReturnedSets(plan: Plan, st: World, run: Schedule, t: nat)
    requires WorldInv(plan, st) && t < |plan.keys|
    ensures GrewBy(plan, t, st.slots[plan.HomeOf(t)].log, Exec(plan, st, run).slots[plan.HomeOf(t)].log,
                   Returned(plan, st, run, t))
    decreases run
  {
    if run != [] {
      var p := run[0].0;
      var st' := Next(plan, st, p, run[0].1);
      NextLogs(plan, st, p, run[0].1, t);
      LogIsReturnedSets(plan, st', run[1..], t);
      var h := plan.HomeOf(t);
      GrewOn(plan, t, st.slots[h].log, st'.slots[h].log, Exec(plan, st', run[1..]).slots[h].log,
             if Returns(st, st', p, t) then [st'.At(p).job] else [], Returned(plan, st', run[1..], t));
    }
  }

  // ---- The value of the last set ---------------------------------------------------------------

  /** The last commit to a slot is `job`'s set of its key. */
  predicate LastIs(plan: Plan, sl: Slot, job: Job) {
    && job.Put? && job.t < |plan.keys| && sl.log != []
    && sl.log[|sl.log| - 1] == Set(plan.keys[job.t], job.val, job.mode, false)
  }

  predicate LastIsOwn(plan: Plan, st: World, p: nat)
    requires |plan.off| == |plan.keys| && |st.slots| == plan.N()
  {
    st.At(p).PutOk? ==>
      st.At(p).job.t < |plan.keys| && LastIs(plan, st.slots[plan.HomeOf(st.At(p).job.t)], st.At(p).job)
  }

  lemma NextKeepsLast(plan: Plan, st: World, p: nat, q: nat, turn: Turn)
    requires WorldInv(plan, st) && LastIsOwn(plan, st, p)
    ensures LastIsOwn(plan, Next(plan, st, q, turn), p)
  {
    var st' := Next(plan, st, q, turn);
    if st'.At(p).PutOk? {
      assert ProcOk(plan, st'.slots, p, st'.procs[p]);
      var t := st'.At(p).job.t;
      NextLogs(plan, st, q, turn, t);
      if Returns(st, st', q, t) {
        assert ProcOk(plan, st'.slots, q, st'.procs[q]);
        assert q == p;
        LastOfGrown(plan, t, st.slots[plan.HomeOf(t)].log, st'.slots[plan.HomeOf(t)], st'.At(p).job);
      } else {
        NoReturn(plan, st, p, q, turn);
      }
    }
  }

  lemma LastOfGrown(plan: Plan, t: nat, log: seq<Op>, sl: Slot, job: Job)
    requires t < |plan.keys| && job.t == t && GrewBy(plan, t, log, sl.log, [job])
    ensures LastIs(plan, sl, job)
  {
    assert [job][0] == job;
  }

  /** A process that stands returned, and did not return just now, stood there before. */
  lemma NoReturn(plan: Plan, st: World, p: nat, q: nat, turn: Turn)
    requires WorldInv(plan, st) && Next(plan, st, q, turn).At(p).PutOk?
    requires p == q ==> !Returns(st, Next(plan, st, q, turn), q, Next(plan, st, q, turn).At(p).job.t)
    ensures st.At(p) == Next(plan, st, q, turn).At(p)
  {
  }

  lemma {:induction false} ExecKeepsLast(plan: Plan, st: World, run: Schedule, p: nat)
    requires WorldInv(plan, st) && LastIsOwn(plan, st, p)
    ensures LastIsOwn(plan, Exec(plan, st, run), p)
    decreases run
  {
    if run != [] {
      NextKeepsLast(plan, st, p, run[0].0, run[0].1);
      ExecKeepsLast(plan, Next(plan, st, run[0].0, run[0].1), run[1..], p);
    }
  }

  /** What a slot holds once the last commit to it is a set. */
  lemma LastIsHeld(plan: Plan, sl: Slot, job: Job)
    requires SlotOk(plan.env, sl) && sl.ticks % 2 == 0 && LastIs(plan, sl, job)
    ensures sl.c.len <= |sl.c.bytes| && sl.c.Value() == job.val && sl.c.key == PadKey(plan.keys[job.t])
  {
    var m := |sl.log| - 1;
    assert sl.c == Effect(sl.log[m], sl.hist[m], plan.env.maxVal);
    TableLaws.SetStoresValue(sl.log[m], sl.hist[m], plan.env.maxVal);
  }

  /**
   In every interleaving, from when a lane writer's set returns until that writer begins its next one, the
   last commit to its key's slot is that set, and the slot stands stable with the value it was asked to set.
   */
  lemma PutsTakeEffect(plan: Plan, st: World, run: Schedule, p: nat)
    requires WorldInv(plan, st) && !st.At(p).PutOk?
    ensures var st' := Exec(plan, st, run);
      st'.At(p).PutOk? ==>
        var job := st'.At(p).job;
        && plan.JobOk(job) && |plan.off| == |plan.keys| && |st'.slots| == plan.N()
        && st'.At(p).s == plan.HomeOf(job.t)
        && var sl := st'.slots[plan.HomeOf(job.t)];
           LastIs(plan, sl, job) && sl.ticks % 2 == 0 && sl.c.len <= |sl.c.bytes| && sl.c.Value() == job.val
  {
    ExecKeepsLast(plan, st, run, p);
    var st' := Exec(plan, st, run);
    if st'.At(p).PutOk? {
      assert ProcOk(plan, st'.slots, p, st'.procs[p]);
      var job := st'.At(p).job;
      EvenUnlessOwnerHolds(plan, st', job.t);
      assert Seqlock.Inv(plan.env, SlotState(plan, st', plan.HomeOf(job.t)));
      LastIsHeld(plan, st'.slots[plan.HomeOf(job.t)], job);
    }
  }

  // ---- What gets hand out ----------------------------------------------------------------------

  /** The value a key was prepopulated with, or one that a returned set asked for. */
  ghost predicate Known(plan: Plan, v: seq<byte>, t: nat, jobs: seq<Job>)
    requires plan.Valid() && t < |plan.keys|
  {
    || v == plan.v0[plan.HomeOf(t)].c.Value()
    || exists k :: 0 <= k < |jobs| && jobs[k].Put? && jobs[k].val == v
  }

  lemma CommitValue(env: Env, sl: Slot, m: nat)
    requires SlotOk(env, sl) && m < |sl.log| && sl.log[m].Set?
    ensures sl.hist[m + 1].len <= |sl.hist[m + 1].bytes| && sl.hist[m + 1].Value() == sl.log[m].val
  {
    TableLaws.SetStoresValue(sl.log[m], sl.hist[m], env.maxVal);
  }

  /** The get started on the commit that prepopulated the slot. */
  lemma FirstIsKnown(plan: Plan, was: Slot, now: Slot, t: nat, jobs: seq<Job>)
    requires plan.Valid() && t < |plan.keys| && SlotOk(plan.env, was) && SlotOk(plan.env, now)
    requires was.ticks == 2 * plan.base[plan.HomeOf(t)] && was.c == plan.v0[plan.HomeOf(t)].c
    requires was.log[|was.log| - 1].Set? && GrewBy(plan, t, was.log, now.log, jobs)
    ensures |was.log| < |now.hist| && now.hist[|was.log|].len <= |now.hist[|was.log|].bytes|
    ensures now.hist[|was.log|].Value() == plan.v0[plan.HomeOf(t)].c.Value()
  {
    var m := |was.log| - 1;
    assert now.log[m] == now.log[..m + 1][m] == was.log[m];
    CommitValue(plan.env, now, m);
    CommitValue(plan.env, was, m);
  }

  lemma DeliveredIsKnown(plan: Plan, was: Slot, now: Slot, t: nat, r: Local, jobs: seq<Job>)
    requires plan.Valid() && t < |plan.keys| && SlotOk(plan.env, was) && SlotOk(plan.env, now)
    requires was.ticks == 2 * plan.base[plan.HomeOf(t)] && was.c == plan.v0[plan.HomeOf(t)].c
    requires was.log[|was.log| - 1].Set? && GrewBy(plan, t, was.log, now.log, jobs)
    requires r.GRet? && r.copy && SeqlockRuns.Delivered(now, r) && r.t0 >= was.ticks
    ensures Known(plan, r.got, t, jobs)
  {
    var k := r.t0 / 2 - |was.log|;
    if k == 0 {
      FirstIsKnown(plan, was, now, t, jobs);
    } else {
      var m := |was.log| + (k - 1);
      assert now.log[m] == Set(plan.keys[t], jobs[k - 1].val, jobs[k - 1].mode, false);
      CommitValue(plan.env, now, m);
    }
  }

  /** What the state says of a get that has returned. */
  lemma GotAt(plan: Plan, st: World, p: nat)
    requires WorldInv(plan, st) && GotValue(st.At(p))
    ensures var r, t := st.At(p).l, st.At(p).job.t;
      && t < |plan.keys| && |plan.off| == |plan.keys| && |st.slots| == plan.N() == |plan.base|
      && var sl := st.slots[plan.HomeOf(t)];
         SlotOk(plan.env, sl) && SeqlockRuns.Delivered(sl, r) && r.t0 >= 2 * plan.base[plan.HomeOf(t)]
  {
    AtSlot(plan, st, p);
    assert ProcOk(plan, st.slots, p, st.procs[p]);
    var h := plan.HomeOf(st.At(p).job.t);
    assert Seqlock.Inv(plan.env, SlotState(plan, st, h));
    SeqlockRuns.GetDelivers(plan.env, SlotState(plan, st, h), p);
  }

  /**
   In every interleaving, a get that returns 0 delivers, whole, the value its key was prepopulated with or
   the value that some returned set of that key asked for.
   */
  lemma GetsDeliverPutValues(plan: Plan, st: World, run: Schedule, p: nat)
    requires Prepopulated(plan, st)
    ensures WorldInv(plan, st)
    ensures var st' := Exec(plan, st, run);
      GotValue(st'.At(p)) ==>
        var t := st'.At(p).job.t;
        t < |plan.keys| && Known(plan, st'.At(p).l.got, t, Returned(plan, st, run, t))
  {
    PrepopulatedIsInv(plan, st);
    var st' := Exec(plan, st, run);
    if GotValue(st'.At(p)) {
      GotAt(plan, st', p);
      var t := st'.At(p).job.t;
      var h := plan.HomeOf(t);
      LogIsReturnedSets(plan, st, run, t);
      DeliveredIsKnown(plan, st.slots[h], st'.slots[h], t, st'.At(p).l, Returned(plan, st, run, t));
    }
  }
}
