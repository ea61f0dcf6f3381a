/** What a claim, a rebid or a release leaves in the bid table: among other shards' calls, and on its own. */
module BidCalls {
  import opened Bytes
  import opened Election
  import opened BidProtocol

  // ---- In every interleaving -------------------------------------------------------------------

  /** Where a call begins. */
  function Start(act: Act): Local {
    match act
    case Claim(a) => FindOwn(0, a)
    case Rebid(a) => FindRebid(0, a)
    case Release => FindRelease(0)
    case Step => Idle
  }

  /** The records of `id` are the ones they were. */
  predicate SameRecords(t0: seq<Bid>, t: seq<Bid>, id: nat) {
    |t| == |t0| && forall i :: 0 <= i < |t| && (t0[i].id == id || t[i].id == id) ==> t[i] == t0[i]
  }

  predicate HadPid(t0: seq<Bid>, id: nat, pid: nat) {
    exists i :: 0 <= i < |t0| && t0[i].id == id && t0[i].pid == pid
  }

  predicate ClaimOnCourse(a: Args, l: Local) {
    match l
    case FindOwn(_, b) => b == a
    case FindEmpty(_, b) => b == a
    case Publish(_, _, how, _) => how == Taken(a)
    case Done(how) => how == Taken(a)
    case Failed => true
    case _ => false
  }

  predicate RebidOnCourse(t0: seq<Bid>, t: seq<Bid>, id: nat, a: Args, l: Local) {
    match l
    case FindRebid(_, b) => b == a && SameRecords(t0, t, id)
    case Publish(_, _, how, _) => how.Rebidden? && how.a == a && HadPid(t0, id, how.pid)
    case Done(how) => how.Rebidden? && how.a == a && HadPid(t0, id, how.pid)
    case Failed => NowhereBelow(t0, id, |t0|)
    case _ => false
  }

  predicate ReleaseOnCourse(t0: seq<Bid>, t: seq<Bid>, id: nat, l: Local) {
    match l
    case FindRelease(_) => SameRecords(t0, t, id)
    case Clear(_, _) => !NowhereBelow(t0, id, |t0|)
    case Done(how) => how == Released && !NowhereBelow(t0, id, |t0|)
    case Failed => NowhereBelow(t0, id, |t0|)
    case _ => false
  }

  /** How far the call that `act` began on table `t0` may have come. */
  predicate OnCourse(t0: seq<Bid>, t: seq<Bid>, id: nat, act: Act, l: Local) {
    match act
    case Claim(a) => ClaimOnCourse(a, l)
    case Rebid(a) => RebidOnCourse(t0, t, id, a, l)
    case Release => ReleaseOnCourse(t0, t, id, l)
    case Step => true
  }

  /** A step of the call itself. */
  lemma StepsOn(t0: seq<Bid>, t: seq<Bid>, id: nat, act: Act, l: Local)
    requires id != 0 && LocalOk(t, id, l) && OnCourse(t0, t, id, act, l)
    ensures var (t', l') := StepOf(t, id, l); OnCourse(t0, t', id, act, l')
  {
  }

  lemma OtherSteps(t: seq<Bid>, t': seq<Bid>, p: nat, id: nat)
    requires p != id && id != 0 && |t'| == |t|
    requires forall i :: 0 <= i < |t| && t'[i] != t[i] ==>
      (t[i].id == p || t[i].id == 0) && (t'[i].id == p || t'[i].id == 0)
    ensures SameRecords(t, t', id)
  {
  }

  lemma NextOnCourse(s: State, t0: seq<Bid>, id: nat, act: Act, p: nat, m: Act)
    requires Inv(s) && id != 0 && OnCourse(t0, s.t, id, act, s.At(id))
    requires p == id ==> m.Step?
    ensures OnCourse(t0, Next(s, p, m).t, id, act, Next(s, p, m).At(id))
  {
    if p == id {
      assert LocalOk(s.t, id, s.At(id));
      StepsOn(t0, s.t, id, act, s.At(id));
    } else if p != 0 && m.Step? {
      assert LocalOk(s.t, p, s.At(p));
      StepIsLocal(s.t, p, s.At(p));
      OtherSteps(s.t, Next(s, p, m).t, p, id);
    }
  }

  /** The process of `id` begins no other call. */
  predicate OneCall(run: seq<(nat, Act)>, id: nat) {
    forall k :: 0 <= k < |run| && run[k].0 == id ==> run[k].1.Step?
  }

  lemma {:induction false} ExecOnCourse(s: State, t0: seq<Bid>, id: nat, act: Act, run: seq<(nat, Act)>)
    requires Inv(s) && id != 0 && OnCourse(t0, s.t, id, act, s.At(id)) && OneCall(run, id)
    ensures OnCourse(t0, Exec(s, run).t, id, act, Exec(s, run).At(id))
    decreases run
  {
    if run != [] {
      NextOnCourse(s, t0, id, act, run[0].0, run[0].1);
      NextKeepsInv(s, run[0].0, run[0].1);
      assert OneCall(run[1..], id) by {
        forall k | 0 <= k < |run[1..]| && run[1..][k].0 == id ensures run[1..][k].1.Step? {
          assert run[k + 1] == run[1..][k];
        }
      }
      ExecOnCourse(Next(s, run[0].0, run[0].1), t0, id, act, run[1..]);
    }
  }

  /** Exactly one record carries `id`, and it is `b`. */
  predicate OnlyRecord(t: seq<Bid>, id: nat, b: Bid) {
    b in t && b.id == id && forall i :: 0 <= i < |t| && t[i].id == id ==> t[i] == b
  }

  /** What a returned call found in `t0` and left in `t`. */
  ghost predicate Outcome(t0: seq<Bid>, t: seq<Bid>, id: nat, act: Act, l: Local) {
    match act
    case Claim(a) =>
      && (l.Done? ==> OnlyRecord(t, id, Filled(id, a.pid, a)))
      && (l.Failed? ==> NowhereBelow(t, id, |t|))
    case Rebid(a) =>
      && (l.Done? ==> exists pid :: HadPid(t0, id, pid) && OnlyRecord(t, id, Filled(id, pid, a)))
      && (l.Failed? ==> NowhereBelow(t0, id, |t0|) && NowhereBelow(t, id, |t|))
    case Release =>
      && (l.Done? ==> !NowhereBelow(t0, id, |t0|))
      && (l.Failed? ==> NowhereBelow(t0, id, |t0|))
      && (l.Done? || l.Failed? ==> NowhereBelow(t, id, |t|))
    case Step => true
  }

  lemma LeftIsOnly(t: seq<Bid>, id: nat, how: Finished)
    requires Left(t, id, how) && Once(t) && id != 0 && !how.Released?
    ensures OnlyRecord(t, id, Filled(id, PidOf(how), how.a))
  {
    var i :| 0 <= i < |t| && t[i] == Filled(id, PidOf(how), how.a);
    forall j | 0 <= j < |t| && t[j].id == id ensures j == i {
      assert t[j].id == t[i].id;
    }
  }

  /**
   In every interleaving, from whatever the earlier calls have left: a claim that returned left one record
   of its shard with every field it was given; a rebid left every field it was given and the pid the
   record had; a release left no record of its shard. A rebid or release fails only where there is none.
   */
  lemma CallsDoTheirWork(s: State, id: nat, act: Act, run: seq<(nat, Act)>)
    requires Inv(s) && id != 0 && !act.Step? && OneCall(run, id)
    requires s.At(id).Idle? || s.At(id).Done? || s.At(id).Failed?
    ensures Inv(Next(s, id, act))
    ensures var s' := Exec(Next(s, id, act), run); Outcome(s.t, s'.t, id, act, s'.At(id))
  {
    NextKeepsInv(s, id, act);
    var s1 := Next(s, id, act);
    assert s1.t == s.t && s1.At(id) == Start(act);
    ExecOnCourse(s1, s.t, id, act, run);
    var s' := Exec(s1, run);
    var l := s'.At(id);
    if l.Done? || l.Failed? {
      assert LocalOk(s'.t, id, s'.procs[id]);
    }
    if l.Done? && !l.how.Released? {
      LeftIsOnly(s'.t, id, l.how);
    }
  }

  // ---- On its own ------------------------------------------------------------------------------

  predicate Ready(t: seq<Bid>, id: nat, l: Local) {
    id != 0 && LocalOk(t, id, l) && Once(t) && EmptyIsBlank(t)
  }

  /** `n` steps in a row of the process of `id`. */
  function Alone(t: seq<Bid>, id: nat, l: Local, n: nat): (r: (seq<Bid>, Local))
    requires Ready(t, id, l)
    ensures |r.0| == |t| && Ready(r.0, id, r.1)
    decreases n
  {
    if n == 0 then (t, l)
    else
      StepIsLocal(t, id, l);
      var (t', l') := StepOf(t, id, l);
      Alone(t', id, l', n - 1)
  }

  lemma {:induction false} AloneConcat(t: seq<Bid>, id: nat, l: Local, m: nat, n: nat)
    requires Ready(t, id, l)
    ensures Alone(t, id, l, m + n) == Alone(Alone(t, id, l, m).0, id, Alone(t, id, l, m).1, n)
    decreases m
  {
    if m > 0 {
      StepIsLocal(t, id, l);
      var (t', l') := StepOf(t, id, l);
      AloneConcat(t', id, l', m - 1, n);
    }
  }

  /** The first record from `b` on that carries `id`, or the length of the table. */
  function First(t: seq<Bid>, id: nat, b: nat): (i: nat)
    requires b <= |t|
    ensures b <= i <= |t| && (i < |t| ==> t[i].id == id)
    ensures forall k :: b <= k < i ==> t[k].id != id
    decreases |t| - b
  {
    if b == |t| || t[b].id == id then b else First(t, id, b + 1)
  }

  /** What the call does to the table, and whether it succeeds, when no other process moves. */
  function Undisturbed(t: seq<Bid>, id: nat, act: Act): (seq<Bid>, Local) {
    var own, empty := First(t, id, 0), First(t, 0, 0);
    match act
    case Claim(a) =>
      if own < |t| then (t[own := Filled(id, a.pid, a)], Done(Taken(a)))
      else if empty < |t| then (t[empty := Filled(id, a.pid, a)], Done(Taken(a)))
      else (t, Failed)
    case Rebid(a) =>
      if own < |t| then (t[own := Filled(id, t[own].pid, a)], Done(Rebidden(a, t[own].pid))) else (t, Failed)
    case Release =>
      if own < |t| then (t[own := Bid(0, 0, 0, 0, 0, 0)], Done(Released)) else (t, Failed)
    case Step => (t, Idle)
  }

  /** The stores from field `f` on. */
  lemma {:induction false} Publishes(t: seq<Bid>, id: nat, b: nat, f: Field, how: Finished, claiming: bool)
    requires Ready(t, id, Publish(b, f, how, claiming))
    ensures Alone(t, id, Publish(b, f, how, claiming), 6 - Rank(f))
         == (t[b := Filled(id, PidOf(how), how.a)], Done(how))
    decreases 6 - Rank(f)
  {
    var l := Publish(b, f, how, claiming);
    StepIsLocal(t, id, l);
    var (t', l') := StepOf(t, id, l);
    if f.Id? {
      assert t[b := Filled(id, PidOf(how), how.a)] == t;
      assert Alone(t', id, l', 0) == (t', l');
    } else {
      Publishes(t', id, b, Following(f), how, claiming);
      assert t'[b := Filled(id, PidOf(how), how.a)] == t[b := Filled(id, PidOf(how), how.a)];
    }
  }

  lemma {:induction false} Clears(t: seq<Bid>, id: nat, b: nat, f: Field)
    requires Ready(t, id, Clear(b, f))
    ensures Alone(t, id, Clear(b, f), 6 - Rank(f)) == (t[b := Bid(0, 0, 0, 0, 0, 0)], Done(Released))
    decreases 6 - Rank(f)
  {
    StepIsLocal(t, id, Clear(b, f));
    var (t', l') := StepOf(t, id, Clear(b, f));
    if f.Id? {
      assert t'[b] == Bid(0, 0, 0, 0, 0, 0);
      assert Alone(t', id, l', 0) == (t', l');
    } else {
      Clears(t', id, b, Following(f));
      assert t'[b := Bid(0, 0, 0, 0, 0, 0)] == t[b := Bid(0, 0, 0, 0, 0, 0)];
    }
  }

  /** A search has looked at the records below `b`, and goes on from there. */
  function Search(act: Act, empty: bool, b: nat): Local
    requires !act.Step?
  {
    match act
    case Claim(a) => if empty then FindEmpty(b, a) else FindOwn(b, a)
    case Rebid(a) => FindRebid(b, a)
    case Release => FindRelease(b)
  }

  lemma {:induction false} Searches(t: seq<Bid>, id: nat, act: Act, empty: bool, b: nat)
    requires !act.Step? && (empty ==> act.Claim?) && b <= |t| && Ready(t, id, Search(act, empty, b))
    ensures var i := First(t, if empty then 0 else id, b);
      && Ready(t, id, Search(act, empty, i))
      && Alone(t, id, Search(act, empty, b), i - b) == (t, Search(act, empty, i))
    decreases |t| - b
  {
    var want := if empty then 0 else id;
    if b < |t| && t[b].id != want {
      Searches(t, id, act, empty, b + 1);
    }
  }

  /** From where its search ends, a call that found its record does its stores. */
  lemma Finishes(t: seq<Bid>, id: nat, act: Act, empty: bool) returns (n: nat)
    requires !act.Step? && (empty ==> act.Claim?) && Ready(t, id, Search(act, empty, 0))
    requires empty ==> First(t, id, 0) == |t|
    requires !empty && act.Claim? ==> First(t, id, 0) < |t|
    ensures Alone(t, id, Search(act, empty, 0), n) == Undisturbed(t, id, act)
  {
    var i := First(t, if empty then 0 else id, 0);
    Searches(t, id, act, empty, 0);
    n := AfterSearch(t, id, act, empty, i);
    AloneConcat(t, id, Search(act, empty, 0), i, n);
    n := i + n;
  }

  lemma AfterSearch(t: seq<Bid>, id: nat, act: Act, empty: bool, i: nat) returns (n: nat)
    requires !act.Step? && (empty ==> act.Claim?) && Ready(t, id, Search(act, empty, i))
    requires i == First(t, if empty then 0 else id, 0)
    requires empty ==> First(t, id, 0) == |t|
    requires !empty && act.Claim? ==> i < |t|
    ensures Alone(t, id, Search(act, empty, i), n) == Undisturbed(t, id, act)
  {
    var l := Search(act, empty, i);
    StepIsLocal(t, id, l);
    var (t', l') := StepOf(t, id, l);
    var m := 0;
    if i < |t| {
      if act.Release? {
        Clears(t', id, i, Pid);
        m := 6;
      } else {
        Publishes(t', id, i, l'.f, l'.how, l'.claiming);
        m := 6 - Rank(l'.f);
        assert t'[i := Undisturbed(t, id, act).0[i]] == t[i := Undisturbed(t, id, act).0[i]];
      }
    }
    n := m + 1;
    assert Alone(t, id, l, n) == Alone(t', id, l', m);
  }

  /**
   A call that nobody disturbs: a claim refreshes its own record, or else takes the first empty one, or
   else fails; a rebid and a release work on their own record and fail when there is none. No other
   record changes.
   */
  lemma LoneCall(t: seq<Bid>, id: nat, act: Act) returns (n: nat)
    requires id != 0 && Once(t) && EmptyIsBlank(t) && !act.Step?
    ensures Ready(t, id, Start(act)) && Alone(t, id, Start(act), n) == Undisturbed(t, id, act)
  {
    if act.Claim? && First(t, id, 0) == |t| {
      Searches(t, id, act, false, 0);
      var l := FindOwn(|t|, act.a);
      StepIsLocal(t, id, l);
      n := Finishes(t, id, act, true);
      AloneConcat(t, id, Start(act), |t|, n + 1);
      n := |t| + (n + 1);
    } else {
      n := Finishes(t, id, act, false);
    }
  }

  /** The lone steps are a run of the machine. */
  lemma {:induction false} AloneInMachine(s: State, id: nat, n: nat)
    requires Inv(s) && id in s.procs
    ensures Ready(s.t, id, s.procs[id])
    ensures var (t, l) := Alone(s.t, id, s.procs[id], n);
      Exec(s, seq(n, _ => (id, Act.Step))) == State(t, s.procs[id := l])
    decreases n
  {
    assert LocalOk(s.t, id, s.procs[id]);
    var run := seq(n, _ => (id, Act.Step));
    if n == 0 {
      assert s.procs[id := s.procs[id]] == s.procs;
    } else {
      StepIsLocal(s.t, id, s.procs[id]);
      NextKeepsInv(s, id, Act.Step);
      var s1 := Next(s, id, Act.Step);
      AloneInMachine(s1, id, n - 1);
      assert run[1..] == seq(n - 1, _ => (id, Act.Step));
      var l := Alone(s1.t, id, s1.procs[id], n - 1).1;
      assert s1.procs[id := l] == s.procs[id := l];
    }
  }
}
