/**
 What one slot of the store holds, what each writer operation does to it, and the individual
 stores a writer performs while it holds the slot.
 */
module SlotEffects {
  import opened Bytes
  import Fnv

  const KEY_MAX := 64
  const EMBED_DIM := 768

  /** The bit pattern of one `float`. */
  newtype float32 = x: int | 0 <= x < 0x1_0000_0000

  /** The hash, the key buffer, `val_len`, the slot's region of the value arena and the embedding. */
  datatype Content = Content(hash: u64, key: seq<byte>, len: nat, bytes: seq<byte>, emb: seq<float32>)
  {
    predicate Fits(maxVal: nat) {
      && |key| == KEY_MAX && key[KEY_MAX - 1] == 0
      && len <= maxVal == |bytes|
      && |emb| == EMBED_DIM
    }

    function Value(): (v: seq<byte>)
      requires len <= |bytes|
    {
      bytes[..len]
    }
  }

  function ZeroVector(): (v: seq<float32>)
    ensures |v| == EMBED_DIM && forall j :: 0 <= j < EMBED_DIM ==> v[j] == 0
  {
    seq(EMBED_DIM, _ => 0)
  }

  datatype ScrubMode = NoScrub | HybridScrub | FullScrub

  /** How many leading bytes of the region `splinter_set` clears before it copies the value. */
  function ScrubLen(mode: ScrubMode, len: nat, maxVal: nat): (n: nat)
    requires len <= maxVal
    ensures n <= maxVal
  {
    match mode
    case NoScrub => 0
    case HybridScrub => var up := (len + 63) / 64 * 64; if up > maxVal then maxVal else up
    case FullScrub => maxVal
  }

  datatype WordOp = Or | And | XorOp | Not | Inc | Dec

  datatype Op =
    | Set(key: CString, val: seq<byte>, mode: ScrubMode, claim: bool)
    | Append(data: seq<byte>)
    | SetEmbedding(vec: seq<float32>)
    | IntegerOp(op: WordOp, mask: u64)
    | Bump
    | Purge
  {
    predicate Allowed(maxVal: nat) {
      match this
      case Set(_, val, _, _) => 0 < |val| <= maxVal
      case Append(data) => 0 < |data|
      case SetEmbedding(vec) => |vec| == EMBED_DIM
      case IntegerOp(_, _) => 8 <= maxVal
      case Bump => true
      case Purge => true
    }
  }

  // ---- Words -----------------------------------------------------------------------------------

  /** The little-endian word at the start of `b`. */
  function Word(b: seq<byte>): nat {
    if b == [] then 0 else b[0] as nat + 256 * Word(b[1..])
  }

  function WordBytes(w: nat, n: nat): (b: seq<byte>)
    ensures |b| == n
  {
    if n == 0 then [] else [(w % 256) as byte] + WordBytes(w / 256, n - 1)
  }

  function Pow256(n: nat): nat {
    if n == 0 then 1 else 256 * Pow256(n - 1)
  }

  lemma {:induction false} WordRoundTrip(w: nat, n: nat)
    requires w < Pow256(n)
    ensures Word(WordBytes(w, n)) == w
  {
    if n != 0 {
      WordRoundTrip(w / 256, n - 1);
      assert WordBytes(w, n)[1..] == WordBytes(w / 256, n - 1);
    }
  }

  /** `*val op= mask` on a 64-bit word, with the wrap-around of unsigned arithmetic. */
  function ApplyWord(op: WordOp, w: nat, m: u64): nat {
    match op
    case Or => Bitwise((x, y) => x || y, w, m)
    case And => Bitwise((x, y) => x && y, w, m)
    case XorOp => Xor(w, m)
    case Not => (MOD64 - 1 - w) % MOD64
    case Inc => (w + m) % MOD64
    case Dec => (w - m) % MOD64
  }

  // ---- Effects ---------------------------------------------------------------------------------

  /** The key buffer after `strncpy(slot->key, key, 63); slot->key[63] = 0`. */
  function PadKey(key: seq<byte>): (buf: seq<byte>)
    ensures |buf| == KEY_MAX
    ensures forall j :: 0 <= j < KEY_MAX ==> buf[j] == if j < |key| && j < KEY_MAX - 1 then key[j] else 0
  {
    var kept := if |key| < KEY_MAX then key else key[..KEY_MAX - 1];
    kept + Zeros(KEY_MAX - |kept|)
  }

  function SetRegion(region: seq<byte>, val: seq<byte>, mode: ScrubMode): (r: seq<byte>)
    requires |val| <= |region|
    ensures |r| == |region|
  {
    Splice(Splice(region, 0, Zeros(ScrubLen(mode, |val|, |region|))), 0, val)
  }

  function ClearFrom(region: seq<byte>, at: nat): (r: seq<byte>)
    requires at <= |region|
    ensures |r| == |region|
  {
    Splice(region, at, Zeros(|region| - at))
  }

  /** The content a writer leaves behind, as a function of the content it found. */
  function Effect(op: Op, c: Content, maxVal: nat): (r: Content)
    requires op.Allowed(maxVal) && c.Fits(maxVal)
    ensures r.Fits(maxVal)
  {
    match op
    case Set(key, val, mode, claim) =>
      Content(Fnv.Hash(key), PadKey(key), |val|, SetRegion(c.bytes, val, mode),
              if claim then ZeroVector() else c.emb)
    case Append(data) =>
      if c.len + |data| > maxVal then c
      else c.(bytes := Splice(c.bytes, c.len, data), len := c.len + |data|)
    case SetEmbedding(vec) => c.(emb := vec)
    case IntegerOp(w, m) => c.(bytes := Splice(c.bytes, 0, WordBytes(ApplyWord(w, Word(c.bytes[..8]), m), 8)))
    case Bump => c
    case Purge => c.(bytes := ClearFrom(c.bytes, if c.hash == 0 then 0 else c.len))
  }

  // ---- Scripts ---------------------------------------------------------------------------------

  /** One store instruction of a writer inside its critical section. */
  datatype Instr =
    | StoreByte(at: nat, b: byte)
    | StoreLen(n: nat)
    | StoreKey(at: nat, b: byte)
    | StoreHash(h: u64)
    | StoreFloat(at: nat, x: float32)
  {
    predicate InRange(maxVal: nat) {
      match this
      case StoreByte(at, _) => at < maxVal
      case StoreLen(n) => n <= maxVal
      case StoreKey(at, b) => at < KEY_MAX - 1 || (at == KEY_MAX - 1 && b == 0)
      case StoreHash(_) => true
      case StoreFloat(at, _) => at < EMBED_DIM
    }
  }

  function DoStore(st: Instr, c: Content, maxVal: nat): (r: Content)
    requires c.Fits(maxVal) && st.InRange(maxVal)
    ensures r.Fits(maxVal)
  {
    match st
    case StoreByte(at, b) => c.(bytes := c.bytes[at := b])
    case StoreLen(n) => c.(len := n)
    case StoreKey(at, b) => c.(key := c.key[at := b])
    case StoreHash(h) => c.(hash := h)
    case StoreFloat(at, x) => c.(emb := c.emb[at := x])
  }

  predicate AllInRange(todo: seq<Instr>, maxVal: nat) {
    forall j :: 0 <= j < |todo| ==> todo[j].InRange(maxVal)
  }

  function RunAll(todo: seq<Instr>, c: Content, maxVal: nat): (r: Content)
    requires c.Fits(maxVal) && AllInRange(todo, maxVal)
    ensures r.Fits(maxVal)
    decreases todo
  {
    if todo == [] then c else RunAll(todo[1..], DoStore(todo[0], c, maxVal), maxVal)
  }

  function PutBytes(off: nat, data: seq<byte>): seq<Instr>
    decreases data
  {
    if data == [] then [] else [StoreByte(off, data[0])] + PutBytes(off + 1, data[1..])
  }

  function PutKey(off: nat, data: seq<byte>): seq<Instr>
    decreases data
  {
    if data == [] then [] else [StoreKey(off, data[0])] + PutKey(off + 1, data[1..])
  }

  function PutFloats(off: nat, data: seq<float32>): seq<Instr>
    decreases data
  {
    if data == [] then [] else [StoreFloat(off, data[0])] + PutFloats(off + 1, data[1..])
  }

  /** `slot->key[0] = 0; strncpy(slot->key, key, 63); slot->key[63] = 0`. */
  function KeyScript(key: seq<byte>): seq<Instr> {
    [StoreKey(0, 0)] + PutKey(0, PadKey(key)[..KEY_MAX - 1]) + [StoreKey(KEY_MAX - 1, 0)]
  }

  function ClaimScript(claim: bool): seq<Instr> {
    if claim then PutFloats(0, ZeroVector()) else []
  }

  /** The stores of each operation, in program order. */
  function Script(op: Op, c: Content, maxVal: nat): seq<Instr>
    requires op.Allowed(maxVal) && c.Fits(maxVal)
  {
    match op
    case Set(key, val, mode, claim) =>
      PutBytes(0, Zeros(ScrubLen(mode, |val|, maxVal)))
      + PutBytes(0, val)
      + [StoreLen(|val|)]
      + ClaimScript(claim)
      + KeyScript(key)
      + [StoreHash(Fnv.Hash(key))]
    case Append(data) =>
      if c.len + |data| > maxVal then []
      else PutBytes(c.len, data) + [StoreLen(c.len + |data|)]
    case SetEmbedding(vec) => PutFloats(0, vec)
    case IntegerOp(w, m) => PutBytes(0, WordBytes(ApplyWord(w, Word(c.bytes[..8]), m), 8))
    case Bump => []
    case Purge =>
      var from := if c.hash == 0 then 0 else c.len;
      PutBytes(from, Zeros(maxVal - from))
  }

  lemma {:induction false} RunConcat(a: seq<Instr>, b: seq<Instr>, c: Content, maxVal: nat)
    requires c.Fits(maxVal) && AllInRange(a, maxVal) && AllInRange(b, maxVal)
    ensures AllInRange(a + b, maxVal)
    ensures RunAll(a + b, c, maxVal) == RunAll(b, RunAll(a, c, maxVal), maxVal)
    decreases a
  {
    if a == [] {
      assert a + b == b;
    } else {
      assert (a + b)[1..] == a[1..] + b;
      RunConcat(a[1..], b, DoStore(a[0], c, maxVal), maxVal);
    }
  }

  lemma {:induction false} RunPutBytes(off: nat, data: seq<byte>, c: Content, maxVal: nat)
    requires c.Fits(maxVal) && off + |data| <= maxVal
    ensures AllInRange(PutBytes(off, data), maxVal)
    ensures RunAll(PutBytes(off, data), c, maxVal) == c.(bytes := Splice(c.bytes, off, data))
    decreases data
  {
    if data == [] {
      assert Splice(c.bytes, off, data) == c.bytes;
    } else {
      var next := c.(bytes := c.bytes[off := data[0]]);
      RunPutBytes(off + 1, data[1..], next, maxVal);
      assert PutBytes(off, data)[1..] == PutBytes(off + 1, data[1..]);
      assert Splice(next.bytes, off + 1, data[1..]) == Splice(c.bytes, off, data);
    }
  }

  lemma {:induction false} RunPutKey(off: nat, data: seq<byte>, c: Content, maxVal: nat)
    requires c.Fits(maxVal) && off + |data| < KEY_MAX
    ensures AllInRange(PutKey(off, data), maxVal)
    ensures RunAll(PutKey(off, data), c, maxVal) == c.(key := Splice(c.key, off, data))
    decreases data
  {
    if data == [] {
      assert Splice(c.key, off, data) == c.key;
    } else {
      var next := c.(key := c.key[off := data[0]]);
      RunPutKey(off + 1, data[1..], next, maxVal);
      assert PutKey(off, data)[1..] == PutKey(off + 1, data[1..]);
      assert Splice(next.key, off + 1, data[1..]) == Splice(c.key, off, data);
    }
  }

  /** `emb` after `data` was copied over it at `off`. */
  function Overlay(emb: seq<float32>, off: nat, data: seq<float32>): (r: seq<float32>)
    requires off + |data| <= |emb|
    ensures |r| == |emb|
    ensures forall j :: 0 <= j < |emb| ==> r[j] == if off <= j < off + |data| then data[j - off] else emb[j]
  {
    emb[..off] + data + emb[off + |data|..]
  }

  lemma {:induction false} RunPutFloats(off: nat, data: seq<float32>, c: Content, maxVal: nat)
    requires c.Fits(maxVal) && off + |data| <= EMBED_DIM
    ensures AllInRange(PutFloats(off, data), maxVal)
    ensures RunAll(PutFloats(off, data), c, maxVal) == c.(emb := Overlay(c.emb, off, data))
    decreases data
  {
    if data == [] {
      assert Overlay(c.emb, off, data) == c.emb;
    } else {
      var next := c.(emb := c.emb[off := data[0]]);
      RunPutFloats(off + 1, data[1..], next, maxVal);
      assert PutFloats(off, data)[1..] == PutFloats(off + 1, data[1..]);
      assert Overlay(next.emb, off + 1, data[1..]) == Overlay(c.emb, off, data);
    }
  }

  /** Scripts compose. */
  lemma RunThen(a: seq<Instr>, b: seq<Instr>, c: Content, mid: Content, maxVal: nat)
    requires c.Fits(maxVal) && mid.Fits(maxVal)
    requires AllInRange(a, maxVal) && RunAll(a, c, maxVal) == mid
    requires AllInRange(b, maxVal)
    ensures AllInRange(a + b, maxVal)
    ensures RunAll(a + b, c, maxVal) == RunAll(b, mid, maxVal)
  {
    RunConcat(a, b, c, maxVal);
  }

  lemma RunOne(st: Instr, c: Content, maxVal: nat)
    requires c.Fits(maxVal) && st.InRange(maxVal)
    ensures AllInRange([st], maxVal)
    ensures RunAll([st], c, maxVal) == DoStore(st, c, maxVal)
  {
    assert [st][1..] == [];
  }

  lemma RunKeyScript(key: CString, c: Content, maxVal: nat)
    requires c.Fits(maxVal)
    ensures AllInRange(KeyScript(key), maxVal)
    ensures RunAll(KeyScript(key), c, maxVal) == c.(key := PadKey(key))
  {
    var text := PadKey(key)[..KEY_MAX - 1];
    var c0 := c.(key := c.key[0 := 0]);
    var c1 := c0.(key := Splice(c0.key, 0, text));
    RunOne(StoreKey(0, 0), c, maxVal);
    RunPutKey(0, text, c0, maxVal);
    RunThen([StoreKey(0, 0)], PutKey(0, text), c, c0, maxVal);
    RunOne(StoreKey(KEY_MAX - 1, 0), c1, maxVal);
    RunThen([StoreKey(0, 0)] + PutKey(0, text), [StoreKey(KEY_MAX - 1, 0)], c, c1, maxVal);
    assert c1.key[KEY_MAX - 1 := 0] == PadKey(key);
  }

  lemma RunClaimScript(claim: bool, c: Content, maxVal: nat)
    requires c.Fits(maxVal)
    ensures AllInRange(ClaimScript(claim), maxVal)
    ensures RunAll(ClaimScript(claim), c, maxVal) == c.(emb := if claim then ZeroVector() else c.emb)
  {
    if claim {
      RunPutFloats(0, ZeroVector(), c, maxVal);
      assert Overlay(c.emb, 0, ZeroVector()) == ZeroVector();
    }
  }

  lemma RunSetScript(key: CString, val: seq<byte>, mode: ScrubMode, claim: bool, c: Content, maxVal: nat)
    requires Set(key, val, mode, claim).Allowed(maxVal) && c.Fits(maxVal)
    ensures AllInRange(Script(Set(key, val, mode, claim), c, maxVal), maxVal)
    ensures RunAll(Script(Set(key, val, mode, claim), c, maxVal), c, maxVal)
         == Effect(Set(key, val, mode, claim), c, maxVal)
  {
    var zeros := Zeros(ScrubLen(mode, |val|, maxVal));
    var s0, s1, s2 := PutBytes(0, zeros), PutBytes(0, val), [StoreLen(|val|)];
    var s3, s4, s5 := ClaimScript(claim), KeyScript(key), [StoreHash(Fnv.Hash(key))];
    var c0 := c.(bytes := Splice(c.bytes, 0, zeros));
    var c1 := c0.(bytes := Splice(c0.bytes, 0, val));
    var c2 := c1.(len := |val|);
    var c3 := c2.(emb := if claim then ZeroVector() else c.emb);
    var c4 := c3.(key := PadKey(key));
    RunPutBytes(0, zeros, c, maxVal);
    RunPutBytes(0, val, c0, maxVal);
    RunThen(s0, s1, c, c0, maxVal);
    RunOne(StoreLen(|val|), c1, maxVal);
    RunThen(s0 + s1, s2, c, c1, maxVal);
    RunClaimScript(claim, c2, maxVal);
    RunThen(s0 + s1 + s2, s3, c, c2, maxVal);
    RunKeyScript(key, c3, maxVal);
    RunThen(s0 + s1 + s2 + s3, s4, c, c3, maxVal);
    RunOne(StoreHash(Fnv.Hash(key)), c4, maxVal);
    RunThen(s0 + s1 + s2 + s3 + s4, s5, c, c4, maxVal);
  }

  lemma RunAppendScript(data: seq<byte>, c: Content, maxVal: nat)
    requires Append(data).Allowed(maxVal) && c.Fits(maxVal)
    ensures AllInRange(Script(Append(data), c, maxVal), maxVal)
    ensures RunAll(Script(Append(data), c, maxVal), c, maxVal) == Effect(Append(data), c, maxVal)
  {
    if c.len + |data| <= maxVal {
      RunExtend(data, c, maxVal);
      assert Script(Append(data), c, maxVal) == PutBytes(c.len, data) + [StoreLen(c.len + |data|)];
    } else {
      assert Script(Append(data), c, maxVal) == [];
    }
  }

  lemma RunExtend(data: seq<byte>, c: Content, maxVal: nat)
    requires c.Fits(maxVal) && c.len + |data| <= maxVal
    ensures AllInRange(PutBytes(c.len, data) + [StoreLen(c.len + |data|)], maxVal)
    ensures RunAll(PutBytes(c.len, data) + [StoreLen(c.len + |data|)], c, maxVal)
         == c.(bytes := Splice(c.bytes, c.len, data), len := c.len + |data|)
  {
    var c0 := c.(bytes := Splice(c.bytes, c.len, data));
    RunPutBytes(c.len, data, c, maxVal);
    RunOne(StoreLen(c.len + |data|), c0, maxVal);
    RunThen(PutBytes(c.len, data), [StoreLen(c.len + |data|)], c, c0, maxVal);
  }

  lemma RunEmbeddingScript(vec: seq<float32>, c: Content, maxVal: nat)
    requires SetEmbedding(vec).Allowed(maxVal) && c.Fits(maxVal)
    ensures AllInRange(Script(SetEmbedding(vec), c, maxVal), maxVal)
    ensures RunAll(Script(SetEmbedding(vec), c, maxVal), c, maxVal) == Effect(SetEmbedding(vec), c, maxVal)
  {
    RunPutFloats(0, vec, c, maxVal);
    assert Overlay(c.emb, 0, vec) == vec;
  }

  lemma RunBytesScript(op: Op, c: Content, maxVal: nat)
    requires op.Allowed(maxVal) && c.Fits(maxVal) && (op.IntegerOp? || op.Purge?)
    ensures AllInRange(Script(op, c, maxVal), maxVal)
    ensures RunAll(Script(op, c, maxVal), c, maxVal) == Effect(op, c, maxVal)
  {
    if op.IntegerOp? {
      RunPutBytes(0, WordBytes(ApplyWord(op.op, Word(c.bytes[..8]), op.mask), 8), c, maxVal);
    } else {
      var from := if c.hash == 0 then 0 else c.len;
      RunPutBytes(from, Zeros(maxVal - from), c, maxVal);
    }
  }

  /** Performing an operation's stores one by one yields exactly its effect. */
  lemma ScriptIsEffect(op: Op, c: Content, maxVal: nat)
    requires op.Allowed(maxVal) && c.Fits(maxVal)
    ensures AllInRange(Script(op, c, maxVal), maxVal)
    ensures RunAll(Script(op, c, maxVal), c, maxVal) == Effect(op, c, maxVal)
  {
    match op
    case Set(key, val, mode, claim) => RunSetScript(key, val, mode, claim, c, maxVal);
    case Append(data) => RunAppendScript(data, c, maxVal);
    case SetEmbedding(vec) => RunEmbeddingScript(vec, c, maxVal);
    case IntegerOp(_, _) => RunBytesScript(op, c, maxVal);
    case Bump =>
    case Purge => RunBytesScript(op, c, maxVal);
  }
}
