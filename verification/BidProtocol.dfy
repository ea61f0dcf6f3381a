/**
 The bid table under concurrency: claims, rebids and releases as single loads, compare-and-swaps
 and field stores, interleaved in any order. Each shard id is driven by one process at a time.
 */
module BidProtocol {
  import opened Bytes
  import opened Election

  /** The stores that publish or clear a record's fields, in program order. */
  datatype Field = Pid | Intent | Priority | Duration | Claimed | Id

  datatype Args = Args(pid: nat, intent: nat, priority: nat, duration: u64, claimed: u64)

  /** What a finished call did; a rebid notes the pid its record had when it was found. */
  datatype Finished = Taken(a: Args) | Rebidden(a: Args, pid: nat) | Released

  /** Where the process that drives one shard id stands. */
  datatype Local =
    | Idle
    | FindOwn(b: nat, a: Args)          // claim, first pass
    | FindEmpty(b: nat, a: Args)        // claim, second pass
    | Publish(b: nat, f: Field, how: Finished, claiming: bool)
    | FindRebid(b: nat, a: Args)
    | FindRelease(b: nat)
    | Clear(b: nat, f: Field)
    | Done(how: Finished)
    | Failed

  datatype Act = Claim(a: Args) | Rebid(a: Args) | Release | Step

  /** The table, and the process of every shard id that ever acted. */
  datatype State = State(t: seq<Bid>, procs: map<nat, Local>)
  {
    function At(id: nat): Local {
      if id in procs then procs[id] else Idle
    }
  }

  function Put(b: Bid, f: Field, a: Args): Bid {
    match f
    case Pid => b.(pid := a.pid)
    case Intent => b.(intent := a.intent)
    case Priority => b.(priority := a.priority)
    case Duration => b.(duration := a.duration)
    case Claimed => b.(claimed := a.claimed)
    case Id => b
  }

  function Wipe(b: Bid, f: Field): Bid {
    match f
    case Pid => b.(pid := 0)
    case Intent => b.(intent := 0)
    case Priority => b.(priority := 0)
    case Duration => b.(duration := 0)
    case Claimed => b.(claimed := 0)
    case Id => b.(id := 0)
  }

  function Following(f: Field): Field {
    match f
    case Pid => Intent
    case Intent => Priority
    case Priority => Duration
    case Duration => Claimed
    case Claimed => Id
    case Id => Id
  }

  /** Whether field `f` is stored strictly before field `g`. */
  function Rank(f: Field): nat {
    match f
    case Pid => 0
    case Intent => 1
    case Priority => 2
    case Duration => 3
    case Claimed => 4
    case Id => 5
  }

  /** One atomic access of the process that drives shard `id`. */
  function StepOf(t: seq<Bid>, id: nat, l: Local): (seq<Bid>, Local)
    requires l.Publish? || l.Clear? ==> l.b < |t|
  {
    match l
    case FindOwn(b, a) =>
      if b >= |t| then (t, FindEmpty(0, a))
      else if t[b].id == id then (t, Publish(b, Pid, Taken(a), false))
      else (t, FindOwn(b + 1, a))
    case FindEmpty(b, a) =>
      if b >= |t| then (t, Failed)
      else if t[b].id == 0 then (t[b := t[b].(id := id)], Publish(b, Pid, Taken(a), true))
      else (t, FindEmpty(b + 1, a))
    case Publish(b, f, how, claiming) =>
      if f.Id? || how.Released? then (t, Done(how))
      else (t[b := Put(t[b], f, how.a)], Publish(b, Following(f), how, claiming))
    case FindRebid(b, a) =>
      if b >= |t| then (t, Failed)
      else if t[b].id == id then (t, Publish(b, Intent, Rebidden(a, t[b].pid), false))
      else (t, FindRebid(b + 1, a))
    case FindRelease(b) =>
      if b >= |t| then (t, Failed)
      else if t[b].id == id then (t, Clear(b, Pid))
      else (t, FindRelease(b + 1))
    case Clear(b, f) =>
      (t[b := Wipe(t[b], f)], if f.Id? then Done(Released) else Clear(b, Following(f)))
    case _ => (t, l)
  }

  predicate Resting(l: Local) { l.Idle? || l.Done? || l.Failed? }

  function Next(s: State, id: nat, act: Act): (s': State)
    requires Inv(s)
  {
    if id == 0 then s
    else match act
      case Claim(a) => if Resting(s.At(id)) then s.(procs := s.procs[id := FindOwn(0, a)]) else s
      case Rebid(a) => if Resting(s.At(id)) then s.(procs := s.procs[id := FindRebid(0, a)]) else s
      case Release => if Resting(s.At(id)) then s.(procs := s.procs[id := FindRelease(0)]) else s
      case Step =>
        assert LocalOk(s.t, id, s.At(id));
        var (t, l) := StepOf(s.t, id, s.At(id));
        State(t, s.procs[id := l])
  }

  // ---- The invariant ---------------------------------------------------------------------------

  predicate Blank(b: Bid) {
    b.pid == 0 && b.intent == 0 && b.priority == 0 && b.duration == 0 && b.claimed == 0
  }

  /** The fields stored before `f` are already cleared. */
  predicate WipedBelow(b: Bid, f: Field) {
    && (Rank(f) > 0 ==> b.pid == 0)
    && (Rank(f) > 1 ==> b.intent == 0)
    && (Rank(f) > 2 ==> b.priority == 0)
    && (Rank(f) > 3 ==> b.duration == 0)
    && (Rank(f) > 4 ==> b.claimed == 0)
  }

  /** A fresh claim: the fields not stored yet are still zero. */
  predicate BlankFrom(b: Bid, f: Field) {
    && (Rank(f) <= 3 ==> b.duration == 0)
    && (Rank(f) <= 4 ==> b.claimed == 0)
  }

  /** The pid a finished call leaves in its record. */
  function PidOf(how: Finished): nat
    requires !how.Released?
  {
    if how.Rebidden? then how.pid else how.a.pid
  }

  /** The fields stored before `f` are the ones asked for. */
  predicate StoredBelow(b: Bid, f: Field, how: Finished)
    requires !how.Released?
  {
    && (Rank(f) > 0 ==> b.pid == PidOf(how))
    && (Rank(f) > 1 ==> b.intent == how.a.intent)
    && (Rank(f) > 2 ==> b.priority == how.a.priority)
    && (Rank(f) > 3 ==> b.duration == how.a.duration)
    && (Rank(f) > 4 ==> b.claimed == how.a.claimed)
  }

  /** What a finished call leaves: one record with everything it asked for, or none. */
  predicate Left(t: seq<Bid>, id: nat, how: Finished) {
    if how.Released? then NowhereBelow(t, id, |t|)
    else exists i :: 0 <= i < |t| && t[i] == Filled(id, PidOf(how), how.a)
  }

  /** The record of `id` with everything that was asked for. */
  function Filled(id: nat, pid: nat, a: Args): Bid {
    Bid(id, pid, a.intent, a.priority, a.duration, a.claimed)
  }

  predicate NowhereBelow(t: seq<Bid>, id: nat, n: nat) {
    forall i :: 0 <= i < |t| && i < n ==> t[i].id != id
  }

  predicate LocalOk(t: seq<Bid>, id: nat, l: Local) {
    match l
    case FindOwn(b, _) => NowhereBelow(t, id, b)
    case FindRebid(b, _) => NowhereBelow(t, id, b)
    case FindRelease(b) => NowhereBelow(t, id, b)
    case Failed => NowhereBelow(t, id, |t|)
    case FindEmpty(_, _) => NowhereBelow(t, id, |t|)
    case Publish(b, f, how, claiming) =>
      && b < |t| && t[b].id == id && (claiming ==> BlankFrom(t[b], f))
      && !how.Released? && (how.Rebidden? ==> !f.Pid?) && StoredBelow(t[b], f, how)
    case Done(how) => Left(t, id, how)
    case Clear(b, f) => b < |t| && t[b].id == id && WipedBelow(t[b], f)
    case _ => true
  }

  predicate Once(t: seq<Bid>) {
    forall i, j :: 0 <= i < j < |t| && t[i].id == t[j].id ==> t[i].id == 0
  }

  predicate EmptyIsBlank(t: seq<Bid>) {
    forall i :: 0 <= i < |t| && t[i].id == 0 ==> Blank(t[i])
  }

  predicate Inv(s: State) {
    && Once(s.t) && EmptyIsBlank(s.t) && 0 !in s.procs
    && forall id :: id in s.procs ==> LocalOk(s.t, id, s.procs[id])
  }

  /** Only the record that carries `id` (or, for a claim, an empty one) changes, and it stays so. */
  lemma StepIsLocal(t: seq<Bid>, id: nat, l: Local)
    requires id != 0 && LocalOk(t, id, l) && Once(t) && EmptyIsBlank(t)
    ensures var (t', l') := StepOf(t, id, l);
      && |t'| == |t| && LocalOk(t', id, l') && Once(t') && EmptyIsBlank(t')
      && (forall i :: 0 <= i < |t| && t'[i] != t[i] ==>
            (t[i].id == id || t[i].id == 0) && (t'[i].id == id || t'[i].id == 0))
  {
    match l
    case Publish(b, f, how, _) =>
      if f.Id? {
        assert t[b] == Filled(id, PidOf(how), how.a);
      } else {
        assert Put(t[b], f, how.a).id == id;
      }
    case Clear(b, f) =>
      if f.Id? {
        assert Blank(Wipe(t[b], f));
      }
    case _ =>
  }

  lemma OthersKeepOk(t: seq<Bid>, t': seq<Bid>, id: nat, other: nat, l: Local)
    requires id != other && other != 0 && |t'| == |t| && LocalOk(t, other, l)
    requires forall i :: 0 <= i < |t| && t'[i] != t[i] ==>
      (t[i].id == id || t[i].id == 0) && (t'[i].id == id || t'[i].id == 0)
    ensures LocalOk(t', other, l)
  {
  }

  lemma NextKeepsInv(s: State, id: nat, act: Act)
    requires Inv(s)
    ensures Inv(Next(s, id, act)) && |Next(s, id, act).t| == |s.t|
  {
    if id != 0 && act.Step? {
      var l := s.At(id);
      StepIsLocal(s.t, id, l);
      var s' := Next(s, id, act);
      forall other | other in s'.procs
        ensures LocalOk(s'.t, other, s'.procs[other])
      {
        if other != id {
          OthersKeepOk(s.t, s'.t, id, other, s.procs[other]);
        }
      }
    }
  }

  function Exec(s: State, run: seq<(nat, Act)>): (s': State)
    requires Inv(s)
    ensures Inv(s') && |s'.t| == |s.t|
    decreases run
  {
    if run == [] then s
    else
      NextKeepsInv(s, run[0].0, run[0].1);
      Exec(Next(s, run[0].0, run[0].1), run[1..])
  }

  /** `splinter_create`: every record empty and blank. */
  function Created(): (s: State)
    ensures Inv(s) && |s.t| == MAX_SHARDS
  {
    State(seq(MAX_SHARDS, _ => Bid(0, 0, 0, 0, 0, 0)), map[])
  }

  // ---- Main results ----------------------------------------------------------------------------

  /** In every interleaving, no shard id sits in two records, and an empty record has no payload. */
  lemma TableStaysSound(run: seq<(nat, Act)>, i: nat, j: nat)
    requires i < j < MAX_SHARDS
    ensures var t := Exec(Created(), run).t;
      && |t| == MAX_SHARDS
      && (t[i].id != 0 ==> t[i].id != t[j].id)
      && (t[i].id == 0 ==> Blank(t[i]))
  {
  }

  /**
   In every interleaving, a record freshly taken by a claim is expired until its duration is
   stored, and until its claim time is stored it can be live only while `now < duration`.
   */
  lemma FreshClaimIsHarmless(run: seq<(nat, Act)>, id: nat, now: u64)
    ensures var s := Exec(Created(), run);
      s.At(id).Publish? && s.At(id).claiming ==>
        var b, f := s.At(id).b, s.At(id).f;
        && b < |s.t| && s.t[b].id == id
        && (Rank(f) <= Rank(Duration) ==> !s.t[b].Live(now))
        && (Rank(f) <= Rank(Claimed) && s.t[b].Live(now) ==> now < s.t[b].duration)
  {
    var s := Exec(Created(), run);
    if s.At(id).Publish? {
      assert LocalOk(s.t, id, s.procs[id]);
    }
  }

  /** A release in progress has already stopped competing once its duration is cleared. */
  lemma ReleasingIsExpired(run: seq<(nat, Act)>, id: nat, now: u64)
    ensures var s := Exec(Created(), run);
      s.At(id).Clear? && Rank(s.At(id).f) > Rank(Duration) ==>
        s.At(id).b < |s.t| && !s.t[s.At(id).b].Live(now)
  {
    var s := Exec(Created(), run);
    if s.At(id).Clear? {
      assert LocalOk(s.t, id, s.procs[id]);
    }
  }
}
