/**
 The per-slot seqlock as an interleaved machine: any number of processes, one atomic load,
 compare-and-swap, or byte-sized load or store per step, sequentially consistent memory.

 The machine follows one slot. Which slot a lookup picks is left open, so what is proved holds for
 every lookup of every caller. `ticks` counts every increment of the epoch since creation; the
 64-bit epoch a process sees is `ticks` modulo 2^64. `hist[m]` is the content committed when
 `ticks` was `2 * m`, and `log[m]` the operation that committed `hist[m + 1]`.
 */
module Seqlock {
  import opened Bytes
  import opened SlotEffects

  datatype Slot = Slot(ticks: nat, c: Content, hist: seq<Content>, log: seq<Op>)
  {
    function Epoch(): u64 { ticks % MOD64 }

    function Base(): Content
      requires hist != []
    {
      hist[|hist| - 1]
    }
  }

  /** `model` stands for tokenizing a value and running the embedding model on it. */
  datatype Env = Env(maxVal: nat, model: seq<byte> -> seq<float32>)
  {
    ghost predicate Valid() {
      forall v: seq<byte> :: |model(v)| == EMBED_DIM
    }
  }

  /** What a process does after its write: return, or go on as the embedding sidecar. */
  datatype Then = Return | Embedder(t0: nat, cur: u64, text: seq<byte>)

  /** Where a process stands. `t0` and `t1` note the value of `ticks` at an epoch load. */
  datatype Local =
    | Idle
    // a writer: epoch load, CAS, loads under the lock, stores, release
    | WLoad(op: Op, k: Then)
    | WCas(op: Op, e: u64, k: Then)
    | WPlan(op: Op, k: Then)
    | WPurge(len: nat, k: Then)
    | WRun(op: Op, todo: seq<Instr>, k: Then)
    // splinter_get; `copy` is false when the caller passed no buffer
    | GLoad(copy: bool, bufSz: nat)
    | GLen(copy: bool, bufSz: nat, t0: nat, start: u64)
    | GCopy(copy: bool, bufSz: nat, t0: nat, start: u64, len: nat, got: seq<byte>)
    | GRet(copy: bool, bufSz: nat, t0: nat, t1: nat, len: nat, got: seq<byte>)
    // splinter_get_embedding
    | VLoad
    | VCopy(t0: nat, start: u64, vec: seq<float32>)
    | VRet(t0: nat, t1: nat, vec: seq<float32>)
    // process_key of the embedding sidecar
    | KEpoch
    | KPtr(cur: u64)
    | KLen(t0: nat, cur: u64)
    | KRead(t0: nat, cur: u64, len: nat, text: seq<byte>)
    | KCheck(t0: nat, cur: u64, text: seq<byte>)
    | KPost(t0: nat, cur: u64, text: seq<byte>)
    | KRet(t0: nat, t1: nat, post: u64)
  {
    predicate Holds() { WPlan? || WPurge? || WRun? }

    predicate Initial(maxVal: nat) {
      || (WLoad? && k == Return && op.Allowed(maxVal))
      || GLoad? || VLoad? || KEpoch?
    }
  }

  /**
   `Step` performs the process's next atomic access. `Miss` is a lookup that does not find the key
   (or a weak CAS failing spuriously), `Reread` tokenizes the value once more, and `Begin` starts a
   call; a finished or abandoned call goes back to `Idle` by `Begin(Idle)`.
   */
  datatype Act = Begin(l: Local) | Step | Miss | Reread

  datatype State = State(slot: Slot, procs: map<nat, Local>)
  {
    function At(p: nat): Local {
      if p in procs then procs[p] else Idle
    }
  }

  // ---- Steps -----------------------------------------------------------------------------------

  function Acquire(sl: Slot): Slot {
    sl.(ticks := sl.ticks + 1)
  }

  function Release(sl: Slot, op: Op): Slot {
    sl.(ticks := sl.ticks + 1, hist := sl.hist + [sl.c], log := sl.log + [op])
  }

  function WriterStep(env: Env, sl: Slot, l: Local): (Slot, Local)
    requires SlotOk(env, sl) && LocalOk(env, sl, l)
    requires l.WLoad? || l.WCas? || l.Holds()
  {
    match l
    case WLoad(op, k) =>
      if sl.Epoch() % 2 == 1 then (sl, Idle) else (sl, WCas(op, sl.Epoch(), k))
    case WCas(op, e, k) =>
      if sl.Epoch() == e then (Acquire(sl), WPlan(op, k)) else (sl, Idle)
    case WPlan(op, k) =>
      if op.Purge? then (sl, WPurge(sl.c.len, k)) else (sl, WRun(op, Script(op, sl.c, env.maxVal), k))
    case WPurge(len, k) =>
      var from := if sl.c.hash == 0 then 0 else len;
      (sl, WRun(Purge, PutBytes(from, Zeros(env.maxVal - from)), k))
    case WRun(op, todo, k) =>
      if todo == [] then (Release(sl, op), if k.Return? then Idle else KPost(k.t0, k.cur, k.text))
      else (sl.(c := DoStore(todo[0], sl.c, env.maxVal)), WRun(op, todo[1..], k))
  }

  function ReaderStep(env: Env, sl: Slot, l: Local): Local
    requires SlotOk(env, sl) && LocalOk(env, sl, l)
  {
    match l
    case GLoad(copy, bufSz) =>
      if sl.Epoch() % 2 == 1 then Idle else GLen(copy, bufSz, sl.ticks, sl.Epoch())
    case GLen(copy, bufSz, t0, start) =>
      if copy && bufSz < sl.c.len then Idle else GCopy(copy, bufSz, t0, start, sl.c.len, [])
    case GCopy(copy, bufSz, t0, start, len, got) =>
      if copy && |got| < len then GCopy(copy, bufSz, t0, start, len, got + [sl.c.bytes[|got|]])
      else if sl.Epoch() == start then GRet(copy, bufSz, t0, sl.ticks, len, got)
      else Idle
    case VLoad =>
      if sl.Epoch() % 2 == 1 then Idle else VCopy(sl.ticks, sl.Epoch(), [])
    case VCopy(t0, start, vec) =>
      if |vec| < EMBED_DIM then VCopy(t0, start, vec + [sl.c.emb[|vec|]])
      else if sl.Epoch() == start then VRet(t0, sl.ticks, vec)
      else Idle
    case KEpoch =>
      if sl.Epoch() % 2 == 1 then Idle else KPtr(sl.Epoch())
    case KPtr(cur) =>
      if sl.Epoch() != cur then Idle else KLen(sl.ticks, cur)
    case KLen(t0, cur) =>
      if sl.c.len == 0 then Idle else KRead(t0, cur, sl.c.len, [])
    case KRead(t0, cur, len, text) =>
      if |text| < len then KRead(t0, cur, len, text + [sl.c.bytes[|text|]]) else KCheck(t0, cur, text)
    case KCheck(t0, cur, text) =>
      if sl.Epoch() != cur then Idle
      else WLoad(SetEmbedding(env.model(text)), Embedder(t0, cur, text))
    case KPost(t0, cur, text) =>
      if sl.Epoch() == (cur + 2) % MOD64 && sl.Epoch() != 0 then KRet(t0, sl.ticks, sl.Epoch()) else Idle
    case _ => l
  }

  function Missed(env: Env, l: Local): Local {
    match l
    case KEpoch => KPtr(0)
    case KCheck(t0, cur, text) =>
      if cur == 0 then WLoad(SetEmbedding(env.model(text)), Embedder(t0, cur, text)) else Idle
    case KPtr(_) => Idle
    case KPost(_, _, _) => Idle
    case WLoad(_, _) => Idle
    case WCas(_, _, _) => Idle
    case _ => l
  }

  /** One step of one process: what the slot and the process's own position become. */
  function Move(env: Env, sl: Slot, l: Local, act: Act): (Slot, Local)
    requires SlotOk(env, sl) && LocalOk(env, sl, l)
  {
    match act
    case Begin(m) =>
      if !l.Holds() && (m.Idle? || m.Initial(env.maxVal)) then (sl, m) else (sl, l)
    case Miss => (sl, Missed(env, l))
    case Reread =>
      if l.KRead? then (sl, KRead(l.t0, l.cur, l.len, [])) else (sl, l)
    case Step =>
      if l.WLoad? || l.WCas? || l.Holds() then WriterStep(env, sl, l)
      else (sl, ReaderStep(env, sl, l))
  }

  // ---- The invariant ---------------------------------------------------------------------------

  predicate SlotOk(env: Env, sl: Slot) {
    && sl.c.Fits(env.maxVal)
    && |sl.hist| == sl.ticks / 2 + 1
    && |sl.log| + 1 == |sl.hist|
    && (forall m :: 0 <= m < |sl.hist| ==> sl.hist[m].Fits(env.maxVal))
    && (forall m :: 0 <= m < |sl.log| ==> sl.log[m].Allowed(env.maxVal))
    && (forall m :: 0 <= m < |sl.log| ==> sl.hist[m + 1] == Effect(sl.log[m], sl.hist[m], env.maxVal))
    && (sl.ticks % 2 == 0 ==> sl.c == sl.Base())
  }

  /** An even epoch was loaded at `t0`. */
  predicate Saw(sl: Slot, t0: nat, e: u64) {
    t0 % 2 == 0 && t0 <= sl.ticks && e == t0 % MOD64
  }

  /** The sidecar tokenized `text`; if nothing was committed since `t0`, that is the slot's value. */
  predicate Tokenized(env: Env, sl: Slot, op: Op, k: Then)
    requires SlotOk(env, sl)
  {
    k.Embedder? ==>
      && op == SetEmbedding(env.model(k.text))
      && Saw(sl, k.t0, k.cur)
      && (sl.ticks == k.t0 ==> sl.Base().Value() == k.text)
  }

  predicate LocalOk(env: Env, sl: Slot, l: Local)
    requires SlotOk(env, sl)
  {
    match l
    case WLoad(op, k) => op.Allowed(env.maxVal) && Tokenized(env, sl, op, k)
    case WCas(op, e, k) => op.Allowed(env.maxVal) && Tokenized(env, sl, op, k) && e % 2 == 0
    case WPlan(op, k) =>
      && op.Allowed(env.maxVal) && Held(env, sl, op, k) && sl.c == sl.Base()
    case WPurge(len, k) =>
      && Held(env, sl, Purge, k) && sl.c == sl.Base() && len == sl.c.len
    case WRun(op, todo, k) =>
      && op.Allowed(env.maxVal) && Held(env, sl, op, k)
      && AllInRange(todo, env.maxVal)
      && RunAll(todo, sl.c, env.maxVal) == Effect(op, sl.Base(), env.maxVal)
    case GLen(_, _, t0, start) => Saw(sl, t0, start)
    case GCopy(copy, bufSz, t0, start, len, got) =>
      && Saw(sl, t0, start) && |got| <= len <= env.maxVal && (copy ==> len <= bufSz)
      && (sl.ticks == t0 ==> len == sl.c.len && got == sl.c.bytes[..|got|])
    case GRet(copy, bufSz, t0, t1, len, got) =>
      && Saw(sl, t0, t0 % MOD64) && t0 <= t1 <= sl.ticks && t1 % MOD64 == t0 % MOD64
      && (copy ==> |got| == len <= bufSz)
      && (t1 == t0 ==> len == sl.hist[t0 / 2].len && (copy ==> got == sl.hist[t0 / 2].Value()))
    case VCopy(t0, start, vec) =>
      && Saw(sl, t0, start) && |vec| <= EMBED_DIM
      && (sl.ticks == t0 ==> vec == sl.c.emb[..|vec|])
    case VRet(t0, t1, vec) =>
      && Saw(sl, t0, t0 % MOD64) && t0 <= t1 <= sl.ticks && t1 % MOD64 == t0 % MOD64
      && (t1 == t0 ==> vec == sl.hist[t0 / 2].emb)
    case KPtr(cur) => cur % 2 == 0
    case KLen(t0, cur) => Saw(sl, t0, cur)
    case KRead(t0, cur, len, text) =>
      && Saw(sl, t0, cur) && |text| <= len <= env.maxVal
      && (sl.ticks == t0 ==> len == sl.c.len && text == sl.c.bytes[..|text|])
    case KCheck(t0, cur, text) =>
      && Saw(sl, t0, cur)
      && (sl.ticks == t0 ==> sl.c.Value() == text)
    case KPost(t0, cur, text) =>
      && Saw(sl, t0, cur) && t0 + 2 <= sl.ticks
      && (sl.ticks <= t0 + 3 ==> EmbeddingStored(env, sl, t0 / 2))
    case KRet(t0, t1, post) =>
      && Saw(sl, t0, t0 % MOD64) && t0 + 2 <= t1 <= sl.ticks && t1 % MOD64 == (t0 + 2) % MOD64
      && post == t1 % MOD64
      && (t1 == t0 + 2 ==> EmbeddingStored(env, sl, t0 / 2))
    case _ => true
  }

  /** The lock is held, and the sidecar's text is still the committed value if it was at `t0`. */
  predicate Held(env: Env, sl: Slot, op: Op, k: Then)
    requires SlotOk(env, sl)
  {
    && sl.ticks % 2 == 1
    && Tokenized(env, sl, op, k)
    && (k.Embedder? ==> k.t0 + 1 <= sl.ticks && (sl.ticks == k.t0 + 1 ==> sl.Base().Value() == k.text))
  }

  /** The embedding is the model's output on the value beside it. */
  predicate Agrees(env: Env, c: Content) {
    c.len <= |c.bytes| && c.emb == env.model(c.Value())
  }

  /** The commit after `hist[m]` is the embedding of the value `hist[m]` holds. */
  predicate EmbeddingStored(env: Env, sl: Slot, m: nat)
    requires SlotOk(env, sl)
  {
    m < |sl.log| && sl.log[m] == SetEmbedding(env.model(sl.hist[m].Value()))
  }

  ghost predicate Inv(env: Env, s: State) {
    && env.Valid()
    && SlotOk(env, s.slot)
    && (forall p :: p in s.procs ==> LocalOk(env, s.slot, s.procs[p]))
    && HeldByOne(s.slot, s.procs)
  }

  /** At most one process is inside a critical section, and some process is while the epoch is odd. */
  predicate HeldByOne(sl: Slot, procs: map<nat, Local>) {
    && (forall p, q :: p in procs && q in procs && procs[p].Holds() && procs[q].Holds() ==> p == q)
    && (sl.ticks % 2 == 1 ==> exists p :: p in procs && procs[p].Holds())
  }

  // ---- Preservation ----------------------------------------------------------------------------

  /** What any step does to the slot, seen by the processes that do not hold it. */
  predicate Rely(was: Slot, now: Slot) {
    && was.ticks <= now.ticks
    && |was.hist| <= |now.hist| && now.hist[..|was.hist|] == was.hist
    && |was.log| <= |now.log| && now.log[..|was.log|] == was.log
    && (now.ticks <= was.ticks + 1 && was.ticks % 2 == 0 ==> now.hist == was.hist)
    && (now.ticks == was.ticks ==> now.hist == was.hist && (was.ticks % 2 == 0 ==> now.c == was.c))
  }

  /** Who may change the slot: the process that takes the even epoch, and then only that process. */
  predicate Locks(was: Slot, l: Local, now: Slot, m: Local) {
    && (!l.Holds() && m.Holds() ==> was.ticks % 2 == 0 && now.ticks == was.ticks + 1)
    && (l.Holds() && !m.Holds() ==> now.ticks == was.ticks + 1)
    && (l.Holds() == m.Holds() ==> now.ticks == was.ticks)
    && (!l.Holds() && !m.Holds() ==> now == was)
  }

  lemma LockMoves(env: Env, sl: Slot, l: Local)
    requires env.Valid() && SlotOk(env, sl) && LocalOk(env, sl, l)
    requires l.WLoad? || l.WCas?
    ensures var (sl', l') := WriterStep(env, sl, l);
      SlotOk(env, sl') && LocalOk(env, sl', l') && Rely(sl, sl') && Locks(sl, l, sl', l')
  {
    if l.WCas? && sl.Epoch() == l.e {
      assert sl.ticks % 2 == 0;
      assert Acquire(sl).Base() == sl.Base();
    }
  }

  lemma PlanMoves(env: Env, sl: Slot, l: Local)
    requires env.Valid() && SlotOk(env, sl) && LocalOk(env, sl, l)
    requires l.WPlan? || l.WPurge?
    ensures var (sl', l') := WriterStep(env, sl, l);
      sl' == sl && l'.Holds() && LocalOk(env, sl, l')
  {
    if l.WPlan? {
      ScriptIsEffect(l.op, sl.c, env.maxVal);
    } else {
      ScriptIsEffect(Purge, sl.c, env.maxVal);
    }
  }

  lemma StoreMoves(env: Env, sl: Slot, l: Local)
    requires env.Valid() && SlotOk(env, sl) && LocalOk(env, sl, l)
    requires l.WRun? && l.todo != []
    ensures var (sl', l') := WriterStep(env, sl, l);
      SlotOk(env, sl') && LocalOk(env, sl', l') && Rely(sl, sl') && Locks(sl, l, sl', l')
  {
    var sl' := sl.(c := DoStore(l.todo[0], sl.c, env.maxVal));
    assert sl'.Base() == sl.Base();
  }

  lemma ReleaseCommits(env: Env, sl: Slot, op: Op)
    requires env.Valid() && SlotOk(env, sl) && op.Allowed(env.maxVal) && sl.ticks % 2 == 1
    requires sl.c == Effect(op, sl.Base(), env.maxVal)
    ensures SlotOk(env, Release(sl, op)) && Rely(sl, Release(sl, op))
  {
  }

  lemma ReleaseMoves(env: Env, sl: Slot, l: Local)
    requires env.Valid() && SlotOk(env, sl) && LocalOk(env, sl, l)
    requires l.WRun? && l.todo == []
    ensures var (sl', l') := WriterStep(env, sl, l);
      SlotOk(env, sl') && LocalOk(env, sl', l') && Rely(sl, sl') && Locks(sl, l, sl', l')
  {
    var sl' := Release(sl, l.op);
    assert sl.c == Effect(l.op, sl.Base(), env.maxVal);
    ReleaseCommits(env, sl, l.op);
    if l.k.Embedder? && sl'.ticks <= l.k.t0 + 3 {
      assert sl'.hist[l.k.t0 / 2] == sl.Base() && sl'.log[l.k.t0 / 2] == l.op;
    }
  }

  lemma WriterMoves(env: Env, sl: Slot, l: Local)
    requires env.Valid() && SlotOk(env, sl) && LocalOk(env, sl, l)
    requires l.WLoad? || l.WCas? || l.Holds()
    ensures var (sl', l') := WriterStep(env, sl, l);
      SlotOk(env, sl') && LocalOk(env, sl', l') && Rely(sl, sl') && Locks(sl, l, sl', l')
  {
    if l.WLoad? || l.WCas? {
      LockMoves(env, sl, l);
    } else if l.WPlan? || l.WPurge? {
      PlanMoves(env, sl, l);
    } else if l.todo == [] {
      ReleaseMoves(env, sl, l);
    } else {
      StoreMoves(env, sl, l);
    }
  }

  lemma GetMoves(env: Env, sl: Slot, l: Local)
    requires env.Valid() && SlotOk(env, sl) && LocalOk(env, sl, l)
    requires l.GLoad? || l.GLen? || l.GCopy? || l.VLoad? || l.VCopy?
    ensures var l' := ReaderStep(env, sl, l); LocalOk(env, sl, l') && !l'.Holds()
  {
  }

  lemma EmbedderMoves(env: Env, sl: Slot, l: Local)
    requires env.Valid() && SlotOk(env, sl) && LocalOk(env, sl, l)
    requires l.KEpoch? || l.KPtr? || l.KLen? || l.KRead?
    ensures var l' := ReaderStep(env, sl, l); LocalOk(env, sl, l') && !l'.Holds()
  {
  }

  lemma EmbedderRechecks(env: Env, sl: Slot, l: Local)
    requires env.Valid() && SlotOk(env, sl) && LocalOk(env, sl, l) && l.KCheck?
    ensures LocalOk(env, sl, ReaderStep(env, sl, l)) && !ReaderStep(env, sl, l).Holds()
  {
    if sl.Epoch() == l.cur && sl.ticks <= l.t0 + 1 {
      assert sl.ticks == l.t0;
    }
  }

  lemma EmbedderCommits(env: Env, sl: Slot, l: Local)
    requires env.Valid() && SlotOk(env, sl) && LocalOk(env, sl, l) && l.KPost?
    ensures LocalOk(env, sl, ReaderStep(env, sl, l)) && !ReaderStep(env, sl, l).Holds()
  {
    assert (l.cur + 2) % MOD64 == (l.t0 + 2) % MOD64;
  }

  lemma ReaderMoves(env: Env, sl: Slot, l: Local)
    requires env.Valid() && SlotOk(env, sl) && LocalOk(env, sl, l)
    requires !l.Holds()
    ensures var l' := ReaderStep(env, sl, l); LocalOk(env, sl, l') && !l'.Holds()
  {
    if l.KCheck? {
      EmbedderRechecks(env, sl, l);
    } else if l.KPost? {
      EmbedderCommits(env, sl, l);
    } else if l.KEpoch? || l.KPtr? || l.KLen? || l.KRead? {
      EmbedderMoves(env, sl, l);
    } else if l.GLoad? || l.GLen? || l.GCopy? || l.VLoad? || l.VCopy? {
      GetMoves(env, sl, l);
    }
  }

  /** Starting or abandoning a call, missing a lookup or reading again never touches the slot. */
  lemma AsideMoves(env: Env, sl: Slot, l: Local, act: Act)
    requires env.Valid() && SlotOk(env, sl) && LocalOk(env, sl, l) && !act.Step?
    ensures var (sl', l') := Move(env, sl, l, act);
      sl' == sl && LocalOk(env, sl, l') && l'.Holds() == l.Holds()
  {
    match act
    case Begin(m) =>
    case Miss => MissIsOk(env, sl, l);
    case Reread =>
  }

  lemma MissIsOk(env: Env, sl: Slot, l: Local)
    requires env.Valid() && SlotOk(env, sl) && LocalOk(env, sl, l)
    ensures LocalOk(env, sl, Missed(env, l)) && Missed(env, l).Holds() == l.Holds()
  {
  }

  lemma Moves(env: Env, sl: Slot, l: Local, act: Act)
    requires env.Valid() && SlotOk(env, sl) && LocalOk(env, sl, l)
    ensures var (sl', l') := Move(env, sl, l, act);
      SlotOk(env, sl') && LocalOk(env, sl', l') && Rely(sl, sl') && Locks(sl, l, sl', l')
  {
    if !act.Step? {
      AsideMoves(env, sl, l, act);
    } else if l.WLoad? || l.WCas? || l.Holds() {
      WriterMoves(env, sl, l);
    } else {
      ReaderMoves(env, sl, l);
    }
  }

  lemma Bystander(env: Env, sl: Slot, sl': Slot, m: Local)
    requires SlotOk(env, sl) && SlotOk(env, sl') && Rely(sl, sl') && LocalOk(env, sl, m)
    requires m.Holds() ==> sl' == sl
    ensures LocalOk(env, sl', m)
  {
  }
}
