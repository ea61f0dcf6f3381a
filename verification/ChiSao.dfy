/**
 Lane writers and readers over a prepopulated store, as one interleaved machine over all slots.

 Each process probes for its key one atomic access at a time (the hash word, then the key buffer
 byte by byte as `strncmp` does) and, once it has picked a slot, runs the seqlock machine of
 `Seqlock` on that slot. The weak CAS is taken not to fail spuriously.
 */
module ChiSao {
  import opened Bytes
  import opened SlotEffects
  import opened Table
  import opened Batch
  import opened Placement
  import opened Seqlock
  import Fnv

  /** What a process is asked to do with key number `t`. */
  datatype Job =
    | Put(t: nat, val: seq<byte>, mode: ScrubMode)
    | Read(t: nat, copy: bool, bufSz: nat)

  datatype Proc =
    | Free
    | Look(job: Job, i: nat)
    | Cmp(job: Job, i: nat, j: nat)
    | On(job: Job, i: nat, l: Local)
    | PutOk(job: Job, s: nat)
    | PutFailed(job: Job)

  datatype Turn = Begin(job: Job) | Advance

  datatype World = World(slots: seq<Slot>, procs: map<nat, Proc>)
  {
    function At(p: nat): Proc {
      if p in procs then procs[p] else Free
    }
  }

  /**
   The stress plan: the keys, the writer that owns each of them, where each was prepopulated
   (`off`, in the table `v0`), and how many commits each slot had by then.
   */
  datatype Plan = Plan(env: Env, keys: seq<CString>, owner: seq<nat>, off: seq<nat>, v0: View, base: seq<nat>)
  {
    function N(): nat { |v0| }

    function SlotAt(t: nat, i: nat): (s: nat)
      requires t < |keys|
      ensures s < N()
    {
      ProbeSlot(|v0|, keys[t], i)
    }

    function HomeOf(t: nat): (s: nat)
      requires t < |keys| == |off|
      ensures s < N()
    {
      SlotAt(t, off[t])
    }

    ghost predicate Valid() {
      && env.Valid() && Fits(v0, env.maxVal)
      && |owner| == |keys| && |base| == |v0|
      && Distinct(keys) && Homes(v0, keys, off)
      && (forall t :: 0 <= t < |keys| ==> GoodKey(keys[t]) && keys[t] != [])
      && (forall t :: 0 <= t < |keys| ==> base[HomeOf(t)] >= 1)
    }

    predicate JobOk(job: Job) {
      && job.t < |keys|
      && (job.Put? ==> 0 < |job.val| <= env.maxVal)
    }
  }

  function KeyByte(key: CString, j: nat): byte {
    if j < |key| then key[j] else 0
  }

  /** The operation a lane writer performs; the slot it finds is never empty. */
  function PutOp(plan: Plan, job: Job): Op
    requires job.Put? && job.t < |plan.keys|
  {
    Set(plan.keys[job.t], job.val, job.mode, false)
  }

  function Enter(plan: Plan, job: Job): Local
    requires job.t < |plan.keys|
  {
    if job.Put? then WLoad(PutOp(plan, job), Return) else GLoad(job.copy, job.bufSz)
  }

  // ---- Steps -----------------------------------------------------------------------------------

  function LookStep(plan: Plan, slots: seq<Slot>, job: Job, i: nat): Proc
    requires plan.JobOk(job) && |slots| == plan.N() && i <= plan.N()
  {
    if i == plan.N() then if job.Put? then PutFailed(job) else Free
    else
      var h := slots[plan.SlotAt(job.t, i)].c.hash;
      if job.Put? && h == 0 then On(job, i, WLoad(Set(plan.keys[job.t], job.val, job.mode, true), Return))
      else if h == Fnv.Hash(plan.keys[job.t]) then Cmp(job, i, 0)
      else Look(job, i + 1)
  }

  function CmpStep(plan: Plan, slots: seq<Slot>, job: Job, i: nat, j: nat): Proc
    requires plan.JobOk(job) && |slots| == plan.N() && i < plan.N() && j < KEY_MAX
    requires |slots[plan.SlotAt(job.t, i)].c.key| == KEY_MAX
  {
    var b := slots[plan.SlotAt(job.t, i)].c.key[j];
    if b != KeyByte(plan.keys[job.t], j) then Look(job, i + 1)
    else if b == 0 || j == KEY_MAX - 1 then On(job, i, Enter(plan, job))
    else Cmp(job, i, j + 1)
  }

  /** Where the process goes after its step on the slot brought it to `m`. */
  function AfterOn(plan: Plan, job: Job, i: nat, l: Local, m: Local): Proc
    requires plan.JobOk(job) && i < plan.N()
  {
    if m.Idle? then
      if job.Read? then Free
      else if l.WRun? then PutOk(job, plan.SlotAt(job.t, i))
      else Look(job, i + 1)
    else On(job, i, m)
  }

  // ---- The invariant ---------------------------------------------------------------------------

  /** The processes at slot `s`, as the seqlock machine of that slot sees them. */
  function LocalsAt(plan: Plan, procs: map<nat, Proc>, s: nat): map<nat, Local>
    requires ProcsWellFormed(plan, procs)
  {
    map p | p in procs && procs[p].On? && plan.SlotAt(procs[p].job.t, procs[p].i) == s :: procs[p].l
  }

  predicate ProcsWellFormed(plan: Plan, procs: map<nat, Proc>) {
    forall p :: p in procs && procs[p].On? ==> procs[p].job.t < |plan.keys|
  }

  function SlotState(plan: Plan, st: World, s: nat): Seqlock.State
    requires ProcsWellFormed(plan, st.procs) && s < |st.slots|
  {
    Seqlock.State(st.slots[s], LocalsAt(plan, st.procs, s))
  }

  /** A key buffer that is `key`, or `key` while its first byte is transiently cleared by a set. */
  predicate Rewriting(buf: seq<byte>, key: seq<byte>) {
    && |buf| == |key| == KEY_MAX
    && (buf[0] == key[0] || buf[0] == 0)
    && forall j :: 1 <= j < KEY_MAX ==> buf[j] == key[j]
  }

  /** The slot still belongs to the key it was prepopulated with. */
  predicate KeepsKey(plan: Plan, s: nat, sl: Slot)
    requires |plan.base| == |plan.v0| && s < |plan.v0|
  {
    var c0 := plan.v0[s].c;
    && plan.base[s] < |sl.hist|
    && sl.c.hash == c0.hash && Rewriting(sl.c.key, c0.key)
    && (sl.ticks % 2 == 0 ==> sl.c.key == c0.key)
    && forall m :: plan.base[s] <= m < |sl.hist| ==> sl.hist[m].hash == c0.hash && sl.hist[m].key == c0.key
  }

  /** Every commit to the slot since the store was prepopulated is a set of this key. */
  predicate OnlySets(plan: Plan, t: nat, sl: Slot)
    requires plan.base != [] && t < |plan.keys| == |plan.off| && |plan.base| == |plan.v0|
  {
    var b := plan.base[plan.HomeOf(t)];
    forall m :: 0 <= m < |sl.log| && m + 1 >= b ==> sl.log[m].Set? && sl.log[m].key == plan.keys[t]
  }

  /** The stores a lane writer still has to do leave its slot's key and hash as they are. */
  predicate KeyStores(todo: seq<Instr>, c0: Content) {
    forall j :: 0 <= j < |todo| ==> match todo[j]
      case StoreKey(at, b) => at < |c0.key| && (b == c0.key[at] || (at == 0 && b == 0))
      case StoreHash(h) => h == c0.hash
      case _ => true
  }

  predicate WriterAt(plan: Plan, job: Job, sl: Slot, l: Local)
    requires job.Put? && job.t < |plan.keys| == |plan.off|
  {
    match l
    case WLoad(op, k) => op == PutOp(plan, job) && k == Return
    case WCas(op, e, k) => op == PutOp(plan, job) && k == Return && e == sl.Epoch()
    case WPlan(op, k) => op == PutOp(plan, job) && k == Return
    case WRun(op, todo, k) => op == PutOp(plan, job) && k == Return && KeyStores(todo, plan.v0[plan.HomeOf(job.t)].c)
    case _ => false
  }

  predicate ReaderAt(plan: Plan, job: Job, sl: Slot, l: Local)
    requires job.t < |plan.keys| == |plan.off| && |plan.base| == |plan.v0|
  {
    var b := plan.base[plan.HomeOf(job.t)];
    match l
    case GLoad(_, _) => true
    case GLen(_, _, t0, _) => t0 >= 2 * b
    case GCopy(_, _, t0, _, _, _) => t0 >= 2 * b
    case GRet(_, _, t0, _, _, _) => t0 >= 2 * b
    case _ => false
  }

  /** The first `j` bytes of the buffer are the key's, and none of them ended it. */
  predicate MatchedUpTo(buf: seq<byte>, key: CString, j: nat)
    requires |buf| == KEY_MAX
  {
    forall g :: 0 <= g < j && g < KEY_MAX ==> KeyByte(key, g) != 0 && buf[g] == KeyByte(key, g)
  }

  /** What process `p` knows: a writer never probes past its key's home. */
  predicate ProcOk(plan: Plan, slots: seq<Slot>, p: nat, pr: Proc)
    requires |plan.off| == |plan.keys| == |plan.owner| && |slots| == |plan.v0| == |plan.base|
    requires Shaped(plan.v0)
  {
    match pr
    case Free => true
    case Look(job, i) =>
      && plan.JobOk(job) && i <= plan.N()
      && (job.Put? ==> p == plan.owner[job.t] && i <= plan.off[job.t])
    case Cmp(job, i, j) =>
      && plan.JobOk(job) && i < plan.N() && j < KEY_MAX
      && (job.Put? ==> p == plan.owner[job.t] && i <= plan.off[job.t])
      && plan.v0[plan.SlotAt(job.t, i)].c.hash == Fnv.Hash(plan.keys[job.t])
      && MatchedUpTo(plan.v0[plan.SlotAt(job.t, i)].c.key, plan.keys[job.t], j)
    case On(job, i, l) =>
      && plan.JobOk(job) && i == plan.off[job.t]
      && (job.Put? ==> p == plan.owner[job.t] && WriterAt(plan, job, slots[plan.HomeOf(job.t)], l))
      && (job.Read? ==> ReaderAt(plan, job, slots[plan.HomeOf(job.t)], l))
    case PutOk(job, s) => plan.JobOk(job) && job.Put? && s == plan.HomeOf(job.t) && p == plan.owner[job.t]
    case PutFailed(_) => false
  }

  ghost predicate WorldInv(plan: Plan, st: World) {
    && plan.Valid() && |st.slots| == plan.N()
    && (forall p :: p in st.procs ==> ProcOk(plan, st.slots, p, st.procs[p]))
    && (forall s :: 0 <= s < plan.N() ==> Seqlock.Inv(plan.env, SlotState(plan, st, s)))
    && (forall s :: 0 <= s < plan.N() ==> KeepsKey(plan, s, st.slots[s]))
    && (forall t :: 0 <= t < |plan.keys| ==> OnlySets(plan, t, st.slots[plan.HomeOf(t)]))
  }
}
