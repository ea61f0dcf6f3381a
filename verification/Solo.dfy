/** A process that nobody disturbs: what its call comes to, and that its steps are a run of the machine. */
module Solo {
  import opened Bytes
  import opened SlotEffects
  import opened Seqlock
  import opened SeqlockRuns

  /** A slot and the one process that moves. */
  datatype Pair = Pair(sl: Slot, l: Local)

  ghost predicate PairOk(env: Env, x: Pair) {
    env.Valid() && SlotOk(env, x.sl) && LocalOk(env, x.sl, x.l)
  }

  ghost function PairStep(env: Env, x: Pair): Pair
    requires PairOk(env, x)
  {
    var (sl, l) := Move(env, x.sl, x.l, Step);
    Pair(sl, l)
  }

  /** `n` steps; every pair on the way keeps what `PairOk` says, so none of them is cut short. */
  ghost function PairRun(env: Env, x: Pair, n: nat): Pair
    decreases n
  {
    if n == 0 || !PairOk(env, x) then x else PairRun(env, PairStep(env, x), n - 1)
  }

  lemma {:induction false} PairRunOk(env: Env, x: Pair, n: nat)
    requires PairOk(env, x)
    ensures PairOk(env, PairRun(env, x, n))
    decreases n
  {
    if n > 0 {
      Moves(env, x.sl, x.l, Step);
      PairRunOk(env, PairStep(env, x), n - 1);
    }
  }

  lemma {:induction false} PairConcat(env: Env, x: Pair, m: nat, n: nat)
    ensures PairRun(env, x, m + n) == PairRun(env, PairRun(env, x, m), n)
    decreases m
  {
    if m > 0 && PairOk(env, x) {
      PairConcat(env, PairStep(env, x), m - 1, n);
    }
  }

  lemma PairJoin(env: Env, x: Pair, m: nat, y: Pair, n: nat)
    requires PairRun(env, x, m) == y
    ensures PairRun(env, x, m + n) == PairRun(env, y, n)
  {
    PairConcat(env, x, m, n);
  }

  lemma PairOnce(env: Env, x: Pair)
    requires PairOk(env, x)
    ensures PairRun(env, x, 1) == PairStep(env, x)
  {
    assert PairRun(env, x, 1) == PairRun(env, PairStep(env, x), 0);
  }

  // ---- A writer --------------------------------------------------------------------------------

  /** Where a writer goes once it has released the slot. */
  function Onward(k: Then): Local {
    if k.Return? then Idle else KPost(k.t0, k.cur, k.text)
  }

  /** The first steps of a writer that finds the slot stable: it takes the slot and plans its stores. */
  lemma TakesSlot(env: Env, sl: Slot, op: Op, k: Then) returns (n: nat)
    requires PairOk(env, Pair(sl, WLoad(op, k))) && op.Allowed(env.maxVal) && sl.ticks % 2 == 0
    ensures n == if op.Purge? then 4 else 3
    ensures PairRun(env, Pair(sl, WLoad(op, k)), n)
         == Pair(Acquire(sl), WRun(op, Script(op, sl.c, env.maxVal), k))
  {
    var x0 := Pair(sl, WLoad(op, k));
    var x1 := PairStep(env, x0);
    assert x1 == Pair(sl, WCas(op, sl.Epoch(), k));
    var x2 := PairStep(env, x1);
    assert x2 == Pair(Acquire(sl), WPlan(op, k));
    PairOnce(env, x0);
    PairOnce(env, x1);
    PairJoin(env, x0, 1, x1, 1);
    n := Plans(env, sl, op, k);
    PairJoin(env, x0, 2, x2, n);
    n := 2 + n;
  }

  /** A purge loads the length before it knows its stores. */
  lemma Plans(env: Env, sl: Slot, op: Op, k: Then) returns (n: nat)
    requires PairOk(env, Pair(Acquire(sl), WPlan(op, k))) && op.Allowed(env.maxVal) && sl.c.Fits(env.maxVal)
    ensures n == if op.Purge? then 2 else 1
    ensures PairRun(env, Pair(Acquire(sl), WPlan(op, k)), n)
         == Pair(Acquire(sl), WRun(op, Script(op, sl.c, env.maxVal), k))
  {
    var x0 := Pair(Acquire(sl), WPlan(op, k));
    var x1 := PairStep(env, x0);
    PairOnce(env, x0);
    n := 1;
    if op.Purge? {
      assert x1 == Pair(Acquire(sl), WPurge(sl.c.len, k));
      PairOnce(env, x1);
      PairJoin(env, x0, 1, x1, 1);
      n := 2;
    }
  }

  lemma StoreStep(env: Env, sl: Slot, op: Op, todo: seq<Instr>, k: Then)
    requires PairOk(env, Pair(sl, WRun(op, todo, k))) && todo != [] && AllInRange(todo, env.maxVal)
    ensures PairStep(env, Pair(sl, WRun(op, todo, k)))
         == Pair(sl.(c := DoStore(todo[0], sl.c, env.maxVal)), WRun(op, todo[1..], k))
  {
  }

  /** Its first `n` stores. */
  lemma {:induction false} StoresSome(env: Env, sl: Slot, op: Op, todo: seq<Instr>, k: Then, n: nat)
    requires PairOk(env, Pair(sl, WRun(op, todo, k))) && n <= |todo| && AllInRange(todo, env.maxVal)
    ensures PairRun(env, Pair(sl, WRun(op, todo, k)), n)
         == Pair(sl.(c := RunAll(todo[..n], sl.c, env.maxVal)), WRun(op, todo[n..], k))
    decreases n
  {
    if n == 0 {
      assert todo[0..] == todo && todo[..0] == [];
    } else {
      StoreStep(env, sl, op, todo, k);
      StoresSome(env, sl.(c := DoStore(todo[0], sl.c, env.maxVal)), op, todo[1..], k, n - 1);
      assert todo[..n][1..] == todo[1..][..n - 1];
      assert todo[1..][n - 1..] == todo[n..];
    }
  }

  /** The slot once a writer has committed `op` on it. */
  function Committed(sl: Slot, op: Op, maxVal: nat): Slot
    requires op.Allowed(maxVal) && sl.c.Fits(maxVal)
  {
    var c := Effect(op, sl.c, maxVal);
    Slot(sl.ticks + 2, c, sl.hist + [c], sl.log + [op])
  }

  /** All its stores, and the release. */
  lemma StoresAll(env: Env, sl: Slot, op: Op, todo: seq<Instr>, k: Then)
    requires PairOk(env, Pair(sl, WRun(op, todo, k))) && AllInRange(todo, env.maxVal)
    ensures PairRun(env, Pair(sl, WRun(op, todo, k)), |todo| + 1)
         == Pair(Release(sl.(c := RunAll(todo, sl.c, env.maxVal)), op), Onward(k))
  {
    var x := Pair(sl, WRun(op, todo, k));
    StoresSome(env, sl, op, todo, k, |todo|);
    assert todo[..|todo|] == todo && todo[|todo|..] == [];
    PairConcat(env, x, |todo|, 1);
    Releases(env, sl.(c := RunAll(todo, sl.c, env.maxVal)), op, k);
  }

  lemma Releases(env: Env, sl: Slot, op: Op, k: Then)
    requires PairOk(env, Pair(sl, WRun(op, [], k)))
    ensures PairRun(env, Pair(sl, WRun(op, [], k)), 1) == Pair(Release(sl, op), Onward(k))
  {
    PairOnce(env, Pair(sl, WRun(op, [], k)));
  }

  /** A writer that nobody disturbs completes: the slot holds its operation's effect, committed once. */
  lemma LoneWriterCompletes(env: Env, sl: Slot, op: Op, k: Then) returns (n: nat)
    requires PairOk(env, Pair(sl, WLoad(op, k))) && op.Allowed(env.maxVal) && sl.ticks % 2 == 0
    ensures PairRun(env, Pair(sl, WLoad(op, k)), n) == Pair(Committed(sl, op, env.maxVal), Onward(k))
  {
    var x, todo := Pair(sl, WLoad(op, k)), Script(op, sl.c, env.maxVal);
    ScriptIsEffect(op, sl.c, env.maxVal);
    var m := TakesSlot(env, sl, op, k);
    StoresAll(env, Acquire(sl), op, todo, k);
    PairJoin(env, x, m, Pair(Acquire(sl), WRun(op, todo, k)), |todo| + 1);
    n := m + (|todo| + 1);
  }

  // ---- A get -----------------------------------------------------------------------------------

  /** The copy of the bytes, one by one, from the first `k` on. */
  lemma {:induction false} GathersAll(env: Env, sl: Slot, bufSz: nat, start: u64, k: nat)
    requires SlotOk(env, sl) && k <= sl.c.len <= bufSz && sl.ticks % 2 == 0 && start == sl.Epoch()
    requires PairOk(env, Pair(sl, GCopy(true, bufSz, sl.ticks, start, sl.c.len, sl.c.bytes[..k])))
    ensures PairRun(env, Pair(sl, GCopy(true, bufSz, sl.ticks, start, sl.c.len, sl.c.bytes[..k])), sl.c.len - k)
         == Pair(sl, GCopy(true, bufSz, sl.ticks, start, sl.c.len, sl.c.Value()))
    decreases sl.c.len - k
  {
    if k < sl.c.len {
      var x := Pair(sl, GCopy(true, bufSz, sl.ticks, start, sl.c.len, sl.c.bytes[..k]));
      assert sl.c.bytes[..k] + [sl.c.bytes[k]] == sl.c.bytes[..k + 1];
      assert PairStep(env, x) == Pair(sl, GCopy(true, bufSz, sl.ticks, start, sl.c.len, sl.c.bytes[..k + 1]));
      GathersAll(env, sl, bufSz, start, k + 1);
    }
  }

  /** What a get that nobody disturbs answers. */
  function GetAnswer(sl: Slot, copy: bool, bufSz: nat): Local
    requires sl.c.len <= |sl.c.bytes|
  {
    if sl.ticks % 2 == 1 || (copy && bufSz < |sl.c.Value()|) then Idle
    else GRet(copy, bufSz, sl.ticks, sl.ticks, |sl.c.Value()|, if copy then sl.c.Value() else [])
  }

  /**
   A get that nobody disturbs returns the length and, given a buffer, the whole value, if the slot is
   stable and the value fits; otherwise it gives up after at most two loads, before the first byte.
   */
  lemma LoneGet(env: Env, sl: Slot, copy: bool, bufSz: nat) returns (n: nat)
    requires env.Valid() && SlotOk(env, sl)
    ensures PairRun(env, Pair(sl, GLoad(copy, bufSz)), n) == Pair(sl, GetAnswer(sl, copy, bufSz))
    ensures GetAnswer(sl, copy, bufSz).Idle? ==> n <= 2
  {
    var x0 := Pair(sl, GLoad(copy, bufSz));
    var x1 := PairStep(env, x0);
    EpochParity(sl.ticks);
    if sl.ticks % 2 == 1 {
      PairOnce(env, x0);
      n := 1;
    } else {
      PairOnce(env, x0);
      assert x1 == Pair(sl, GLen(copy, bufSz, sl.ticks, sl.Epoch()));
      var m := AfterLoad(env, sl, copy, bufSz);
      PairJoin(env, x0, 1, x1, m);
      n := 1 + m;
    }
  }

  lemma EpochParity(ticks: nat)
    ensures ticks % MOD64 % 2 == ticks % 2
  {
  }

  /** From the length test on. */
  lemma AfterLoad(env: Env, sl: Slot, copy: bool, bufSz: nat) returns (n: nat)
    requires PairOk(env, Pair(sl, GLen(copy, bufSz, sl.ticks, sl.Epoch()))) && sl.ticks % 2 == 0
    ensures sl.c.len <= |sl.c.bytes|
    ensures PairRun(env, Pair(sl, GLen(copy, bufSz, sl.ticks, sl.Epoch())), n)
         == Pair(sl, GetAnswer(sl, copy, bufSz))
    ensures GetAnswer(sl, copy, bufSz).Idle? ==> n == 1
  {
    var x := Pair(sl, GLen(copy, bufSz, sl.ticks, sl.Epoch()));
    var y := PairStep(env, x);
    PairOnce(env, x);
    if copy && bufSz < sl.c.len {
      n := 1;
    } else {
      assert sl.c.bytes[..0] == [];
      assert y == Pair(sl, GCopy(copy, bufSz, sl.ticks, sl.Epoch(), sl.c.len, []));
      var m := 0;
      if copy {
        GathersAll(env, sl, bufSz, sl.Epoch(), 0);
        m := sl.c.len;
      }
      var got := if copy then sl.c.Value() else [];
      var z := Pair(sl, GCopy(copy, bufSz, sl.ticks, sl.Epoch(), sl.c.len, got));
      assert PairRun(env, y, m) == z;
      PairOnce(env, z);
      PairJoin(env, y, m, z, 1);
      PairJoin(env, x, 1, y, m + 1);
      n := 1 + (m + 1);
    }
  }

  // ---- A get of the embedding ------------------------------------------------------------------

  lemma {:induction false} GathersVector(env: Env, sl: Slot, k: nat)
    requires SlotOk(env, sl) && k <= EMBED_DIM && sl.ticks % 2 == 0
    requires PairOk(env, Pair(sl, VCopy(sl.ticks, sl.Epoch(), sl.c.emb[..k])))
    ensures PairRun(env, Pair(sl, VCopy(sl.ticks, sl.Epoch(), sl.c.emb[..k])), EMBED_DIM - k)
         == Pair(sl, VCopy(sl.ticks, sl.Epoch(), sl.c.emb))
    decreases EMBED_DIM - k
  {
    if k == EMBED_DIM {
      assert sl.c.emb[..k] == sl.c.emb;
    } else {
      var x := Pair(sl, VCopy(sl.ticks, sl.Epoch(), sl.c.emb[..k]));
      assert sl.c.emb[..k] + [sl.c.emb[k]] == sl.c.emb[..k + 1];
      assert PairStep(env, x) == Pair(sl, VCopy(sl.ticks, sl.Epoch(), sl.c.emb[..k + 1]));
      GathersVector(env, sl, k + 1);
    }
  }

  /** A get of the embedding that nobody disturbs returns it if the slot is stable, and gives up if not. */
  lemma LoneGetEmbedding(env: Env, sl: Slot) returns (n: nat)
    requires env.Valid() && SlotOk(env, sl)
    ensures PairRun(env, Pair(sl, VLoad), n)
         == Pair(sl, if sl.ticks % 2 == 1 then Idle else VRet(sl.ticks, sl.ticks, sl.c.emb))
  {
    var x0 := Pair(sl, VLoad);
    var x1 := PairStep(env, x0);
    EpochParity(sl.ticks);
    PairOnce(env, x0);
    n := 1;
    if sl.ticks % 2 == 0 {
      assert sl.c.emb[..0] == [];
      assert x1 == Pair(sl, VCopy(sl.ticks, sl.Epoch(), []));
      GathersVector(env, sl, 0);
      var z := Pair(sl, VCopy(sl.ticks, sl.Epoch(), sl.c.emb));
      PairOnce(env, z);
      PairJoin(env, x1, EMBED_DIM, z, 1);
      PairJoin(env, x0, 1, x1, EMBED_DIM + 1);
      n := 1 + (EMBED_DIM + 1);
    }
  }

  // ---- The embedding sidecar -------------------------------------------------------------------

  lemma {:induction false} ReadsAll(env: Env, sl: Slot, k: nat)
    requires SlotOk(env, sl) && k <= sl.c.len && sl.ticks % 2 == 0
    requires PairOk(env, Pair(sl, KRead(sl.ticks, sl.Epoch(), sl.c.len, sl.c.bytes[..k])))
    ensures PairRun(env, Pair(sl, KRead(sl.ticks, sl.Epoch(), sl.c.len, sl.c.bytes[..k])), sl.c.len - k)
         == Pair(sl, KRead(sl.ticks, sl.Epoch(), sl.c.len, sl.c.Value()))
    decreases sl.c.len - k
  {
    if k < sl.c.len {
      var x := Pair(sl, KRead(sl.ticks, sl.Epoch(), sl.c.len, sl.c.bytes[..k]));
      assert sl.c.bytes[..k] + [sl.c.bytes[k]] == sl.c.bytes[..k + 1];
      assert PairStep(env, x) == Pair(sl, KRead(sl.ticks, sl.Epoch(), sl.c.len, sl.c.bytes[..k + 1]));
      ReadsAll(env, sl, k + 1);
    }
  }

  /** Tokenizing once more reads the value again from its first byte. */
  lemma RereadStartsOver(env: Env, sl: Slot, text: seq<byte>)
    requires env.Valid() && SlotOk(env, sl) && sl.ticks % 2 == 0
    requires LocalOk(env, sl, KRead(sl.ticks, sl.Epoch(), sl.c.len, text))
    ensures sl.c.len <= |sl.c.bytes|
    ensures PairRun(env, Pair(sl, Move(env, sl, KRead(sl.ticks, sl.Epoch(), sl.c.len, text), Reread).1), sl.c.len)
         == Pair(sl, KRead(sl.ticks, sl.Epoch(), sl.c.len, sl.c.Value()))
  {
    assert sl.c.bytes[..0] == [];
    ReadsAll(env, sl, 0);
  }

  /** The sidecar has loaded a stable epoch twice and goes on to write the embedding of the value. */
  function Writing(env: Env, sl: Slot): Local
    requires sl.c.len <= |sl.c.bytes|
  {
    var text := sl.c.Value();
    WLoad(SetEmbedding(env.model(text)), Embedder(sl.ticks, sl.Epoch(), text))
  }

  lemma LoadsEpochs(env: Env, sl: Slot)
    requires env.Valid() && SlotOk(env, sl) && sl.ticks % 2 == 0
    ensures PairRun(env, Pair(sl, KEpoch), 2) == Pair(sl, KLen(sl.ticks, sl.Epoch()))
  {
    var x0 := Pair(sl, KEpoch);
    var x1 := PairStep(env, x0);
    EpochParity(sl.ticks);
    assert x1 == Pair(sl, KPtr(sl.Epoch()));
    PairOnce(env, x0);
    PairOnce(env, x1);
    PairJoin(env, x0, 1, x1, 1);
  }

  /** It reads the value and finds the epoch unmoved. */
  lemma Tokenizes(env: Env, sl: Slot) returns (n: nat)
    requires PairOk(env, Pair(sl, KLen(sl.ticks, sl.Epoch()))) && sl.ticks % 2 == 0 && sl.c.len != 0
    ensures sl.c.len <= |sl.c.bytes|
    ensures PairRun(env, Pair(sl, KLen(sl.ticks, sl.Epoch())), n) == Pair(sl, Writing(env, sl))
  {
    var x0 := Pair(sl, KLen(sl.ticks, sl.Epoch()));
    var x1 := PairStep(env, x0);
    assert sl.c.bytes[..0] == [];
    assert x1 == Pair(sl, KRead(sl.ticks, sl.Epoch(), sl.c.len, []));
    ReadsAll(env, sl, 0);
    var x2 := Pair(sl, KRead(sl.ticks, sl.Epoch(), sl.c.len, sl.c.Value()));
    PairOnce(env, x0);
    PairJoin(env, x0, 1, x1, sl.c.len);
    Rechecks(env, sl);
    PairJoin(env, x0, 1 + sl.c.len, x2, 2);
    n := 1 + sl.c.len + 2;
  }

  lemma Rechecks(env: Env, sl: Slot)
    requires env.Valid() && SlotOk(env, sl) && sl.ticks % 2 == 0
    requires PairOk(env, Pair(sl, KRead(sl.ticks, sl.Epoch(), sl.c.len, sl.c.Value())))
    ensures PairRun(env, Pair(sl, KRead(sl.ticks, sl.Epoch(), sl.c.len, sl.c.Value())), 2)
         == Pair(sl, Writing(env, sl))
  {
    var x0 := Pair(sl, KRead(sl.ticks, sl.Epoch(), sl.c.len, sl.c.Value()));
    var x1 := PairStep(env, x0);
    assert x1 == Pair(sl, KCheck(sl.ticks, sl.Epoch(), sl.c.Value()));
    PairOnce(env, x0);
    PairOnce(env, x1);
    PairJoin(env, x0, 1, x1, 1);
  }

  /** The slot with the model's output on its value committed beside that value. */
  function Embedded(env: Env, sl: Slot): (r: Slot)
    requires SlotOk(env, sl)
  {
    var vec := env.model(sl.c.Value());
    var c := sl.c.(emb := vec);
    Slot(sl.ticks + 2, c, sl.hist + [c], sl.log + [SetEmbedding(vec)])
  }

  /** What `process_key` answers when nobody disturbs it: the epoch after its own commit, unless that is 0. */
  function KeyAnswer(env: Env, sl: Slot): Pair
    requires SlotOk(env, sl)
  {
    if sl.ticks % 2 == 1 || sl.c.Value() == [] then Pair(sl, Idle)
    else Pair(Embedded(env, sl),
              if (sl.ticks + 2) % MOD64 == 0 then Idle
              else KRet(sl.ticks, sl.ticks + 2, (sl.ticks + 2) % MOD64))
  }

  lemma Posts(env: Env, sl: Slot, y: Slot, text: seq<byte>)
    requires PairOk(env, Pair(y, KPost(sl.ticks, sl.Epoch(), text))) && y.ticks == sl.ticks + 2
    ensures PairRun(env, Pair(y, KPost(sl.ticks, sl.Epoch(), text)), 1) ==
      Pair(y, if y.Epoch() == 0 then Idle else KRet(sl.ticks, sl.ticks + 2, y.Epoch()))
  {
    LastLoadDecides(env, y, KPost(sl.ticks, sl.Epoch(), text));
    PairOnce(env, Pair(y, KPost(sl.ticks, sl.Epoch(), text)));
  }

  /** From the write on. */
  lemma WritesAndPosts(env: Env, sl: Slot) returns (n: nat)
    requires env.Valid() && SlotOk(env, sl) && sl.ticks % 2 == 0 && sl.c.Value() != []
    requires PairOk(env, Pair(sl, Writing(env, sl)))
    ensures PairRun(env, Pair(sl, Writing(env, sl)), n) == KeyAnswer(env, sl)
  {
    var text := sl.c.Value();
    var op, k := SetEmbedding(env.model(text)), Embedder(sl.ticks, sl.Epoch(), text);
    var m := LoneWriterCompletes(env, sl, op, k);
    var y := Pair(Committed(sl, op, env.maxVal), KPost(sl.ticks, sl.Epoch(), text));
    PairJoin(env, Pair(sl, Writing(env, sl)), m, y, 1);
    PairRunOk(env, Pair(sl, Writing(env, sl)), m);
    Posts(env, sl, y.sl, text);
    n := m + 1;
  }

  /**
   `process_key` that nobody disturbs: on a stable slot with a nonempty value it commits the model's output
   on that value beside it and returns the epoch of that commit; on any other slot it changes nothing and
   returns nothing.
   */
  lemma LoneSidecar(env: Env, sl: Slot) returns (n: nat)
    requires env.Valid() && SlotOk(env, sl)
    ensures PairRun(env, Pair(sl, KEpoch), n) == KeyAnswer(env, sl)
  {
    var x := Pair(sl, KEpoch);
    EpochParity(sl.ticks);
    if sl.ticks % 2 == 1 {
      PairOnce(env, x);
      n := 1;
    } else {
      LoadsEpochs(env, sl);
      var y := Pair(sl, KLen(sl.ticks, sl.Epoch()));
      n := AfterEpochs(env, sl);
      PairJoin(env, x, 2, y, n);
      n := 2 + n;
    }
  }

  lemma AfterEpochs(env: Env, sl: Slot) returns (n: nat)
    requires PairOk(env, Pair(sl, KLen(sl.ticks, sl.Epoch()))) && sl.ticks % 2 == 0
    ensures PairRun(env, Pair(sl, KLen(sl.ticks, sl.Epoch())), n) == KeyAnswer(env, sl)
  {
    var y := Pair(sl, KLen(sl.ticks, sl.Epoch()));
    if sl.c.len == 0 {
      PairOnce(env, y);
      n := 1;
    } else {
      var m := Tokenizes(env, sl);
      PairJoin(env, y, m, Pair(sl, Writing(env, sl)), 0);
      n := WritesAndPosts(env, sl);
      PairJoin(env, y, m, Pair(sl, Writing(env, sl)), n);
      n := m + n;
    }
  }

  // ---- The same steps in the machine -----------------------------------------------------------

  lemma RunFirst(env: Env, x: Pair, n: nat)
    requires PairOk(env, x) && n > 0
    ensures PairRun(env, x, n) == PairRun(env, PairStep(env, x), n - 1)
  {
  }

  lemma OneMove(env: Env, s: State, p: nat)
    requires Inv(env, s) && p in s.procs
    ensures PairOk(env, Pair(s.slot, s.procs[p]))
    ensures var y := PairStep(env, Pair(s.slot, s.procs[p]));
      Next(env, s, p, Step) == State(y.sl, s.procs[p := y.l])
  {
  }

  lemma ExecFirst(env: Env, s: State, p: nat, act: Act, rest: Run)
    requires Inv(env, s)
    ensures Exec(env, s, [(p, act)] + rest) == Exec(env, Next(env, s, p, act), rest)
  {
    var run: Run := [(p, act)] + rest;
    assert run[1..] == rest;
  }

  /** The machine's state when process `p` and the slot are at `y`. */
  function With(s: State, p: nat, y: Pair): State {
    State(y.sl, s.procs[p := y.l])
  }

  /** The pair's steps are a run of the machine in which only process `p` moves. */
  lemma {:induction false} PairRunsInMachine(env: Env, s: State, p: nat, x: Pair, n: nat) returns (run: Run)
    requires Inv(env, s) && p in s.procs && x == Pair(s.slot, s.procs[p]) && PairOk(env, x)
    ensures Exec(env, s, run) == With(s, p, PairRun(env, x, n))
    decreases n
  {
    if n == 0 {
      assert s.procs[p := x.l] == s.procs;
      run := [];
    } else {
      var y := PairStep(env, x);
      OneMove(env, s, p);
      var t := Next(env, s, p, Step);
      var rest := PairRunsInMachine(env, t, p, y, n - 1);
      RunFirst(env, x, n);
      WithTwice(s, p, y, PairRun(env, y, n - 1));
      ExecFirst(env, s, p, Step, rest);
      run := [(p, Step)] + rest;
    }
  }

  lemma WithTwice(s: State, p: nat, y: Pair, z: Pair)
    ensures With(With(s, p, y), p, z) == With(s, p, z)
  {
    assert s.procs[p := y.l][p := z.l] == s.procs[p := z.l];
  }

  /** Process `p` begins the call `l` in any state of the machine and makes the next `n` moves. */
  lemma BeginsAlone(env: Env, s: State, p: nat, l: Local, n: nat) returns (run: Run)
    requires Inv(env, s) && !s.At(p).Holds() && l.Initial(env.maxVal)
    ensures Exec(env, s, run) == With(s, p, PairRun(env, Pair(s.slot, l), n))
  {
    var x := Pair(s.slot, l);
    var t := Next(env, s, p, Begin(l));
    assert t == With(s, p, x);
    OneMove(env, t, p);
    var rest := PairRunsInMachine(env, t, p, x, n);
    WithTwice(s, p, x, PairRun(env, x, n));
    ExecFirst(env, s, p, Begin(l), rest);
    run := [(p, Begin(l))] + rest;
  }

  /** Wherever the other processes stand, a get that is then left alone has its answer. */
  lemma GetAlone(env: Env, s: State, p: nat, copy: bool, bufSz: nat) returns (run: Run)
    requires Inv(env, s) && !s.At(p).Holds()
    ensures s.slot.c.len <= |s.slot.c.bytes|
    ensures Exec(env, s, run) == With(s, p, Pair(s.slot, GetAnswer(s.slot, copy, bufSz)))
  {
    var n := LoneGet(env, s.slot, copy, bufSz);
    run := BeginsAlone(env, s, p, GLoad(copy, bufSz), n);
  }

  lemma GetEmbeddingAlone(env: Env, s: State, p: nat) returns (run: Run)
    requires Inv(env, s) && !s.At(p).Holds()
    ensures Exec(env, s, run) == With(s, p, Pair(s.slot,
      if s.slot.ticks % 2 == 1 then Idle else VRet(s.slot.ticks, s.slot.ticks, s.slot.c.emb)))
  {
    var n := LoneGetEmbedding(env, s.slot);
    run := BeginsAlone(env, s, p, VLoad, n);
  }

  /** And so has the sidecar. */
  lemma SidecarAlone(env: Env, s: State, p: nat) returns (run: Run)
    requires Inv(env, s) && !s.At(p).Holds()
    ensures SlotOk(env, s.slot) && Exec(env, s, run) == With(s, p, KeyAnswer(env, s.slot))
  {
    var n := LoneSidecar(env, s.slot);
    run := BeginsAlone(env, s, p, KEpoch, n);
  }

  /** A writer that is left alone completes in the machine too, whatever the other processes are up to. */
  lemma LoneInMachine(env: Env, s: State, p: nat, op: Op) returns (run: Run)
    requires Inv(env, s) && p in s.procs && s.procs[p] == WLoad(op, Return)
    requires op.Allowed(env.maxVal) && s.slot.ticks % 2 == 0
    ensures s.slot.c.Fits(env.maxVal)
    ensures Exec(env, s, run) == State(Committed(s.slot, op, env.maxVal), s.procs[p := Idle])
  {
    OneMove(env, s, p);
    var n := LoneWriterCompletes(env, s.slot, op, Return);
    run := PairRunsInMachine(env, s, p, Pair(s.slot, s.procs[p]), n);
  }
}
