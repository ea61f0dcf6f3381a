/** Two interleavings in which the store's calls give no guarantee: a snapshot under a writer, two first claims. */
module Races {
  import opened Bytes
  import opened SlotEffects
  import opened Table
  import opened Seqlock
  import opened SeqlockRuns
  import opened Solo
  import Fnv

  // ---- Two first claims ------------------------------------------------------------------------

  function Claim(key: CString, val: seq<byte>): Op {
    Set(key, val, NoScrub, true)
  }

  lemma {:induction false} ExecConcat(env: Env, s: State, a: Run, b: Run)
    requires Inv(env, s)
    ensures Exec(env, s, a + b) == Exec(env, Exec(env, s, a), b)
    decreases a
  {
    if a == [] {
      assert a + b == b;
    } else {
      assert (a + b)[1..] == a[1..] + b;
      ExecConcat(env, Next(env, s, a[0].0, a[0].1), a[1..], b);
    }
  }

  lemma Begins(env: Env, s: State, p: nat, op: Op)
    requires Inv(env, s) && p !in s.procs && op.Allowed(env.maxVal)
    ensures Next(env, s, p, Begin(WLoad(op, Return))) == State(s.slot, s.procs[p := WLoad(op, Return)])
  {
  }

  /** Both writers have begun. */
  lemma BothBegin(env: Env, a: Op, b: Op) returns (run: Run)
    requires env.Valid() && a.Allowed(env.maxVal) && b.Allowed(env.maxVal)
    ensures Exec(env, Created(env), run) ==
      State(Created(env).slot, map[1 := WLoad(a, Return), 2 := WLoad(b, Return)])
  {
    var s0 := Created(env);
    Begins(env, s0, 1, a);
    var s1 := Next(env, s0, 1, Begin(WLoad(a, Return)));
    Begins(env, s1, 2, b);
    ExecFirst(env, s1, 2, Begin(WLoad(b, Return)), []);
    ExecFirst(env, s0, 1, Begin(WLoad(a, Return)), [(2, Begin(WLoad(b, Return)))] + []);
    run := [(1, Begin(WLoad(a, Return)))] + ([(2, Begin(WLoad(b, Return)))] + []);
    assert s1.procs[2 := WLoad(b, Return)] == map[1 := WLoad(a, Return), 2 := WLoad(b, Return)];
  }

  /** A run goes on with a writer that is left alone. */
  lemma ThenAlone(env: Env, s: State, before: Run, t: State, p: nat, op: Op) returns (run: Run)
    requires Inv(env, s) && Exec(env, s, before) == t && p in t.procs && t.procs[p] == WLoad(op, Return)
    requires op.Allowed(env.maxVal) && t.slot.ticks % 2 == 0
    ensures t.slot.c.Fits(env.maxVal)
    ensures Exec(env, s, run) == State(Committed(t.slot, op, env.maxVal), t.procs[p := Idle])
  {
    var after := LoneInMachine(env, t, p, op);
    ExecConcat(env, s, before, after);
    run := before + after;
  }

  /**
   Two processes that have both seen the empty hash word of one slot each set their own key there, one
   after the other. Both sets complete, and the first key is gone.
   */
  lemma FirstClaimLost(env: Env, a: CString, b: CString, valA: seq<byte>, valB: seq<byte>) returns (run: Run)
    requires env.Valid() && GoodKey(a) && GoodKey(b) && a != b
    requires 0 < |valA| <= env.maxVal && 0 < |valB| <= env.maxVal
    ensures var s := Exec(env, Created(env), run);
      && s.At(1) == Idle && s.At(2) == Idle && s.slot.log == [Claim(a, valA), Claim(b, valB)]
      && |s.slot.c.key| == KEY_MAX && Matches(s.slot.c, b) && !Matches(s.slot.c, a)
  {
    var opA, opB := Claim(a, valA), Claim(b, valB);
    var sl := Created(env).slot;
    run := BothBegin(env, opA, opB);
    run := ThenAlone(env, Created(env), run, State(sl, map[1 := WLoad(opA, Return), 2 := WLoad(opB, Return)]), 1, opA);
    var slA := Committed(sl, opA, env.maxVal);
    BothSteps(opA, opB);
    run := ThenAlone(env, Created(env), run, State(slA, map[1 := Idle, 2 := WLoad(opB, Return)]), 2, opB);
    SetMatches(opB, slA.c, env.maxVal, a);
    SetMatches(opB, slA.c, env.maxVal, b);
  }

  lemma BothSteps(a: Op, b: Op)
    ensures (map[1 := WLoad(a, Return), 2 := WLoad(b, Return)])[1 := Idle] == map[1 := Idle, 2 := WLoad(b, Return)]
    ensures (map[1 := Idle, 2 := WLoad(b, Return)])[2 := Idle] == map[1 := Idle, 2 := Idle]
  {
  }

  // ---- A torn snapshot -------------------------------------------------------------------------

  /**
   `splinter_get_slot_snapshot` as far as the embedding goes. `end` keeps its value from turn to turn of
   the loop, and the `continue` on an odd epoch goes on to the loop's test.
   */
  datatype Snap =
    | Load(end: u64, got: seq<float32>)
    | Copy(start: u64, vec: seq<float32>)
    | Test(start: u64, end: u64, got: seq<float32>)
    | Done(got: seq<float32>)

  function SnapStep(sl: Slot, r: Snap): Snap
    requires |sl.c.emb| == EMBED_DIM
  {
    match r
    case Load(end, got) => if sl.Epoch() % 2 == 1 then Test(sl.Epoch(), end, got) else Copy(sl.Epoch(), [])
    case Copy(start, vec) =>
      if |vec| < EMBED_DIM then Copy(start, vec + [sl.c.emb[|vec|]]) else Test(start, sl.Epoch(), vec)
    case Test(start, end, got) => if start != end then Load(end, got) else Done(got)
    case Done(_) => r
  }

  function SnapRun(sl: Slot, r: Snap, n: nat): Snap
    requires |sl.c.emb| == EMBED_DIM
    decreases n
  {
    if n == 0 then r else SnapRun(sl, SnapStep(sl, r), n - 1)
  }

  lemma {:induction false} SnapConcat(sl: Slot, r: Snap, m: nat, n: nat)
    requires |sl.c.emb| == EMBED_DIM
    ensures SnapRun(sl, r, m + n) == SnapRun(sl, SnapRun(sl, r, m), n)
    decreases m
  {
    if m > 0 {
      SnapConcat(sl, SnapStep(sl, r), m - 1, n);
    }
  }

  lemma {:induction false} CopiesAll(sl: Slot, start: u64, k: nat)
    requires |sl.c.emb| == EMBED_DIM && k <= EMBED_DIM
    ensures SnapRun(sl, Copy(start, sl.c.emb[..k]), EMBED_DIM - k) == Copy(start, sl.c.emb)
    decreases EMBED_DIM - k
  {
    if k == EMBED_DIM {
      assert sl.c.emb[..k] == sl.c.emb;
    } else {
      assert sl.c.emb[..k] + [sl.c.emb[k]] == sl.c.emb[..k + 1];
      CopiesAll(sl, start, k + 1);
    }
  }

  /** While the slot is held, a copy begun at another epoch ends with success after one more turn. */
  lemma EndsOnStaleEnd(sl: Slot, start: u64)
    requires |sl.c.emb| == EMBED_DIM && sl.Epoch() % 2 == 1 && start != sl.Epoch()
    ensures SnapRun(sl, Copy(start, sl.c.emb), 4) == Done(sl.c.emb)
  {
    var r1 := Test(start, sl.Epoch(), sl.c.emb);
    var r2 := Load(sl.Epoch(), sl.c.emb);
    var r3 := Test(sl.Epoch(), sl.Epoch(), sl.c.emb);
    assert SnapRun(sl, Copy(start, sl.c.emb), 4) == SnapRun(sl, r1, 3) == SnapRun(sl, r2, 2) == SnapRun(sl, r3, 1);
    assert SnapRun(sl, r3, 1) == SnapRun(sl, Done(sl.c.emb), 0);
  }

  /** A vector that starts like the new one and goes on like the old one. */
  predicate Torn(got: seq<float32>, was: seq<float32>, vec: seq<float32>) {
    got != was && got != vec && |got| == |was| == |vec|
  }

  /**
   The snapshot loads the even epoch; a writer of an embedding takes the slot and stores its first number;
   the snapshot copies the embedding, sees the epoch has moved, loads the odd epoch, and, with `end` still
   equal to it, returns 0. What it returns is neither the old embedding nor the new one.
   */
  lemma SnapshotTears(env: Env, sl: Slot, vec: seq<float32>)
    requires PairOk(env, Pair(sl, WLoad(SetEmbedding(vec), Return))) && sl.ticks % 2 == 0 && |vec| == EMBED_DIM
    requires |sl.c.emb| == EMBED_DIM && vec[0] != sl.c.emb[0] && vec[1] != sl.c.emb[1]
    ensures var writer := PairRun(env, Pair(sl, WLoad(SetEmbedding(vec), Return)), 4);
      && |writer.sl.c.emb| == EMBED_DIM && writer.l.Holds()
      && var loaded := SnapStep(sl, Load(0, []));
      && SnapRun(writer.sl, loaded, EMBED_DIM + 4) == Done(writer.sl.c.emb)
      && Torn(writer.sl.c.emb, sl.c.emb, vec)
  {
    var held := Acquire(sl).(c := sl.c.(emb := sl.c.emb[0 := vec[0]]));
    StoresOne(env, sl, vec);
    OddAfterEven(sl.ticks);
    CopiesThenEnds(held, sl.Epoch());
  }

  lemma CopiesThenEnds(sl: Slot, start: u64)
    requires |sl.c.emb| == EMBED_DIM && sl.Epoch() % 2 == 1 && start != sl.Epoch()
    ensures SnapRun(sl, Copy(start, []), EMBED_DIM + 4) == Done(sl.c.emb)
  {
    assert sl.c.emb[..0] == [];
    CopiesAll(sl, start, 0);
    EndsOnStaleEnd(sl, start);
    SnapConcat(sl, Copy(start, []), EMBED_DIM, 4);
  }

  /** Four steps of the writer: it has taken the slot and stored one number. */
  lemma StoresOne(env: Env, sl: Slot, vec: seq<float32>)
    requires PairOk(env, Pair(sl, WLoad(SetEmbedding(vec), Return))) && sl.ticks % 2 == 0 && |vec| == EMBED_DIM
    requires |sl.c.emb| == EMBED_DIM
    ensures var y := PairRun(env, Pair(sl, WLoad(SetEmbedding(vec), Return)), 4);
      y.sl == Acquire(sl).(c := sl.c.(emb := sl.c.emb[0 := vec[0]])) && y.l.Holds()
  {
    var op, x := SetEmbedding(vec), Pair(sl, WLoad(SetEmbedding(vec), Return));
    var m := TakesSlot(env, sl, op, Return);
    var todo := Script(op, sl.c, env.maxVal);
    ScriptIsEffect(op, sl.c, env.maxVal);
    assert todo[0] == StoreFloat(0, vec[0]);
    PairJoin(env, x, m, Pair(Acquire(sl), WRun(op, todo, Return)), 1);
    StoresSome(env, Acquire(sl), op, todo, Return, 1);
    RunOne(todo[0], sl.c, env.maxVal);
    assert todo[..1] == [todo[0]];
  }

  lemma OddAfterEven(ticks: nat)
    requires ticks % 2 == 0
    ensures (ticks + 1) % MOD64 % 2 == 1 && ticks % MOD64 != (ticks + 1) % MOD64 && ticks % MOD64 % 2 == 0
  {
  }
}
