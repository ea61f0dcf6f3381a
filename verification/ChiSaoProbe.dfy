/**
 The probe of the lane machine, one access at a time, against the probe of the table: on any table that no
 writer is changing they pick the same slot, whatever keys it holds.
 */
module ChiSaoProbe {
  import opened Bytes
  import opened SlotEffects
  import opened Table
  import opened Seqlock
  import opened ChiSao
  import Fnv

  /** The table the slots show to an operation. */
  function ViewOf(slots: seq<Slot>): (v: View)
    requires |slots| > 0
    ensures |v| == |slots| && forall s :: 0 <= s < |v| ==> v[s] == Cell(slots[s].c, slots[s].Epoch())
  {
    seq(|slots|, s requires 0 <= s < |slots| => Cell(slots[s].c, slots[s].Epoch()))
  }

  /** No writer holds a slot, and every key buffer has its size. */
  predicate Quiet(plan: Plan, slots: seq<Slot>) {
    |slots| == plan.N() && Shaped(ViewOf(slots)) && AllIdle(ViewOf(slots))
  }

  predicate Probes(plan: Plan, slots: seq<Slot>, pr: Proc) {
    && Quiet(plan, slots) && (pr.Look? || pr.Cmp?) && plan.JobOk(pr.job) && pr.i <= plan.N()
    && (pr.Cmp? ==> pr.i < plan.N() && pr.j < KEY_MAX)
  }

  /** `n` accesses of the probe; a process that has left it stays where it is. */
  function ProbeRun(plan: Plan, slots: seq<Slot>, pr: Proc, n: nat): Proc
    requires Quiet(plan, slots)
    decreases n
  {
    if n == 0 || !Probes(plan, slots, pr) then pr
    else if pr.Look? then ProbeRun(plan, slots, LookStep(plan, slots, pr.job, pr.i), n - 1)
    else ProbeRun(plan, slots, CmpStep(plan, slots, pr.job, pr.i, pr.j), n - 1)
  }

  lemma {:induction false} ProbeConcat(plan: Plan, slots: seq<Slot>, pr: Proc, m: nat, n: nat)
    requires Quiet(plan, slots)
    ensures ProbeRun(plan, slots, pr, m + n) == ProbeRun(plan, slots, ProbeRun(plan, slots, pr, m), n)
    decreases m
  {
    if m > 0 && Probes(plan, slots, pr) {
      var next := if pr.Look? then LookStep(plan, slots, pr.job, pr.i) else CmpStep(plan, slots, pr.job, pr.i, pr.j);
      ProbeConcat(plan, slots, next, m - 1, n);
    }
  }

  /** `strncmp` byte by byte: it goes to the slot if the rest of the buffer is the rest of the key, else onwards. */
  lemma {:induction false} Compares(plan: Plan, slots: seq<Slot>, job: Job, i: nat, j: nat) returns (n: nat)
    requires Probes(plan, slots, Cmp(job, i, j))
    requires MatchedUpTo(slots[plan.SlotAt(job.t, i)].c.key, plan.keys[job.t], j)
    ensures ProbeRun(plan, slots, Cmp(job, i, j), n) ==
      if KeyEquals(slots[plan.SlotAt(job.t, i)].c.key, plan.keys[job.t]) then On(job, i, Enter(plan, job))
      else Look(job, i + 1)
    decreases KEY_MAX - j
  {
    var buf, key := slots[plan.SlotAt(job.t, i)].c.key, plan.keys[job.t];
    var next := CmpStep(plan, slots, job, i, j);
    assert ProbeRun(plan, slots, Cmp(job, i, j), 1) == ProbeRun(plan, slots, next, 0) == next;
    n := 1;
    if next.Cmp? {
      var m := Compares(plan, slots, job, i, j + 1);
      ProbeConcat(plan, slots, Cmp(job, i, j), 1, m);
      n := 1 + m;
    } else {
      Decided(buf, key, j);
    }
  }

  /** Where a comparison stops, it is decided. */
  lemma Decided(buf: seq<byte>, key: CString, j: nat)
    requires |buf| == KEY_MAX && j < KEY_MAX && MatchedUpTo(buf, key, j)
    ensures buf[j] != KeyByte(key, j) ==> !KeyEquals(buf, key)
    ensures buf[j] == KeyByte(key, j) && (buf[j] == 0 || j == KEY_MAX - 1) ==> KeyEquals(buf, key)
  {
    assert |key| < KEY_MAX ==> KeyByte(key, |key|) == 0;
    assert forall g :: 0 <= g < |key| ==> KeyByte(key, g) != 0;
  }

  /** The process at the slot of probe offset `i`, about to write or read there. */
  function Arrived(plan: Plan, slots: seq<Slot>, job: Job, i: nat): Proc
    requires |slots| == plan.N() && plan.JobOk(job)
  {
    if job.Put? then
      On(job, i, WLoad(Set(plan.keys[job.t], job.val, job.mode, slots[plan.SlotAt(job.t, i)].c.hash == 0), Return))
    else On(job, i, GLoad(job.copy, job.bufSz))
  }

  /** Where the probe ends: at the slot the table's probe picks, or nowhere. */
  function Ending(plan: Plan, slots: seq<Slot>, job: Job, i: nat): Proc
    requires Quiet(plan, slots) && plan.JobOk(job) && i <= plan.N()
  {
    var j := FirstStop(ViewOf(slots), plan.keys[job.t], job.Put?, i);
    if j < plan.N() then Arrived(plan, slots, job, j) else if job.Put? then PutFailed(job) else Free
  }

  /** At one slot the probe stops exactly if the table's probe does. */
  lemma SlotDecides(plan: Plan, slots: seq<Slot>, job: Job, i: nat) returns (n: nat)
    requires Probes(plan, slots, Look(job, i)) && i < plan.N()
    ensures ProbeRun(plan, slots, Look(job, i), n) ==
      if Stops(ViewOf(slots)[plan.SlotAt(job.t, i)], plan.keys[job.t], job.Put?) then Arrived(plan, slots, job, i)
      else Look(job, i + 1)
  {
    var pr := Look(job, i);
    var next := LookStep(plan, slots, job, i);
    assert ProbeRun(plan, slots, pr, 1) == ProbeRun(plan, slots, next, 0) == next;
    n := 1;
    if next.Cmp? {
      var m := Compares(plan, slots, job, i, 0);
      ProbeConcat(plan, slots, pr, 1, m);
      n := 1 + m;
    }
  }

  /**
   On a quiet table a set goes to the first slot that is empty or holds its key, claiming it in the former
   case, and fails if there is none; a get goes to the first slot that holds its key, or misses.
   */
  lemma {:induction false} ProbeIsTarget(plan: Plan, slots: seq<Slot>, job: Job, i: nat) returns (n: nat)
    requires Probes(plan, slots, Look(job, i))
    ensures ProbeRun(plan, slots, Look(job, i), n) == Ending(plan, slots, job, i)
    decreases plan.N() - i
  {
    var pr := Look(job, i);
    if i == plan.N() {
      n := 1;
      assert ProbeRun(plan, slots, pr, 1) == ProbeRun(plan, slots, LookStep(plan, slots, job, i), 0);
    } else {
      n := SlotDecides(plan, slots, job, i);
      if !Stops(ViewOf(slots)[plan.SlotAt(job.t, i)], plan.keys[job.t], job.Put?) {
        var m := ProbeIsTarget(plan, slots, job, i + 1);
        ProbeConcat(plan, slots, pr, n, m);
        n := n + m;
      }
    }
  }
}
