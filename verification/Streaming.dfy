/** The completion daemon's decode loop on the store: pieces are buffered and appended chunk by chunk. */
module Streaming {
  import opened Bytes
  import opened Table
  import opened Store
  import opened Values
  import opened Stream

  /** `is_word_boundary`. */
  method IsWordBoundary(piece: seq<byte>) returns (b: bool)
    ensures b <==> Boundary(piece)
  {
    if |piece| == 0 { return false; }
    if piece[0] == SPACE || piece[0] == NEWLINE { return true; }
    for i := 0 to |piece|
      invariant NEWLINE !in piece[..i]
    {
      if piece[i] == NEWLINE { return true; }
    }
    assert piece[..|piece|] == piece;
    b := false;
  }

  // ---- The log ---------------------------------------------------------------------------------

  /** `debug_post`: append to the log key, or create it. */
  method DebugPost(st: Store, log: CString, line: seq<byte>, ghost key: CString, ghost val: seq<byte>)
    requires st.Valid() && GoodKey(log) && GoodKey(key) && log != key && Holds(st.view, key, val)
    modifies st`view, st.slots, st.arena
    ensures st.Valid() && Holds(st.view, key, val)
  {
    var rc := LogAppend(st, log, line, key, val);
    if rc != Ok {
      rc := LogSet(st, log, line, key, val);
    }
  }

  method LogSet(st: Store, log: CString, line: seq<byte>, ghost key: CString, ghost val: seq<byte>) returns (rc: Rc)
    requires st.Valid() && GoodKey(log) && GoodKey(key) && log != key && Holds(st.view, key, val)
    modifies st`view, st.slots, st.arena
    ensures st.Valid() && Holds(st.view, key, val)
  {
    SetSpares(st.view, st.maxVal, log, line, st.Mode(), key, val);
    rc := st.Set(log, line);
  }

  method LogAppend(st: Store, log: CString, line: seq<byte>, ghost key: CString, ghost val: seq<byte>) returns (rc: Rc)
    requires st.Valid() && GoodKey(log) && GoodKey(key) && log != key && Holds(st.view, key, val)
    modifies st`view, st.slots, st.arena
    ensures st.Valid() && Holds(st.view, key, val)
  {
    AppendSpares(st.view, st.maxVal, log, line, key, val);
    var len;
    rc, len := st.Append(log, line);
  }

  // ---- Writing the slot ------------------------------------------------------------------------

  /** The set of the prompt, whose result is ignored. */
  method ShowPrompt(st: Store, key: CString, prompt: seq<byte>, ghost was: seq<byte>)
    requires st.Valid() && GoodKey(key) && Holds(st.view, key, was)
    modifies st`view, st.slots, st.arena
    ensures st.Valid() && Holds(st.view, key, if Accepted(prompt, st.maxVal) then prompt else was)
  {
    SetHolds(st.view, st.maxVal, key, prompt, st.Mode());
    var _ := st.Set(key, prompt);
  }

  /** `splinter_append` of the first `len` bytes at the chunk's address. */
  method AppendFrom(st: Store, key: CString, chunk: seq<byte>, len: u64, ghost val: seq<byte>)
    returns (ok: bool, newLen: nat, beyond: bool, copies: bool)
    requires st.Valid() && GoodKey(key) && Holds(st.view, key, val)
    requires len > 0 && 2 * st.maxVal + |chunk| < MOD64
    modifies st`view, st.slots, st.arena
    ensures st.Valid() && (!copies ==> Holds(st.view, key, Ask(val, chunk, len, st.maxVal).0))
    ensures ok <==> Ask(val, chunk, len, st.maxVal).1 == Stored
    ensures beyond <==> Ask(val, chunk, len, st.maxVal).1.Beyond?
    ensures copies <==> Ask(val, chunk, len, st.maxVal).1 == Beyond(true)
    ensures ok ==> newLen == |val| + len
  {
    HeldFits(st.view, st.maxVal, key, val);
    if len <= |chunk| {
      SmallWord(|val| + len);
      ok, newLen := AppendWithin(st, key, chunk[..len], val);
      beyond, copies := false, false;
    } else {
      copies := AppendUnbacked(st, key, len, val);
      ok, newLen, beyond := false, 0, true;
    }
  }

  method AppendWithin(st: Store, key: CString, data: seq<byte>, ghost val: seq<byte>) returns (ok: bool, newLen: nat)
    requires st.Valid() && GoodKey(key) && Holds(st.view, key, val) && data != []
    modifies st`view, st.slots, st.arena
    ensures st.Valid() && (ok <==> |val| + |data| <= st.maxVal)
    ensures Holds(st.view, key, if |val| + |data| <= st.maxVal then val + data else val)
    ensures ok ==> newLen == |val| + |data|
  {
    AppendSeen(st.view, st.maxVal, key, data, val);
    var rc;
    rc, newLen := st.Append(key, data);
    ok := rc == Ok;
  }

  /** `splinter_append` for more bytes than the caller has: it ends at the length test, or goes on to copy. */
  method AppendUnbacked(st: Store, key: CString, len: u64, ghost val: seq<byte>) returns (copies: bool)
    requires st.Valid() && GoodKey(key) && Holds(st.view, key, val)
    modifies st`view, st.slots, st.arena
    ensures st.Valid() && (copies <==> (|val| + len) % MOD64 <= st.maxVal)
    ensures !copies ==> Holds(st.view, key, val)
  {
    HeldTarget(st.view, key, val);
    BumpHolds(st.view, key, val, Target(st.view, key, false).value);
    var rc;
    rc, copies := st.AppendUnbacked(key, len);
  }

  // ---- The loop --------------------------------------------------------------------------------

  /** Growing values, ending with `val`. */
  predicate Chain(shown: seq<seq<byte>>, val: seq<byte>) {
    && shown != [] && shown[|shown| - 1] == val
    && forall i, j :: 0 <= i <= j < |shown| ==> shown[i] <= shown[j]
  }

  lemma ChainGrows(shown: seq<seq<byte>>, val: seq<byte>, next: seq<byte>)
    requires Chain(shown, val) && val <= next
    ensures Chain(shown + [next], next)
  {
    forall i | 0 <= i < |shown|
      ensures shown[i] <= next
    {
      assert shown[i] <= val;
    }
  }

  /** A flush: append the chunk, or what seems to be left of the slot and the loop is over. */
  method Flush(st: Store, key: CString, log: CString, line: seq<byte>, chunk: seq<byte>, written: u64, ghost b: Buf)
    returns (stop: bool, oom: bool, copied: bool, newLen: u64, ghost s: Step)
    requires st.Valid() && GoodKey(key) && GoodKey(log) && log != key && Holds(st.view, key, b.val)
    requires b.chunk == chunk != [] && b.written == written && 2 * st.maxVal + |chunk| < MOD64
    modifies st`view, st.slots, st.arena
    ensures st.Valid() && s == Flushed(b, st.maxVal) && b.val <= s.b.val
    ensures stop == s.stop && oom == s.oom && copied == s.copied
    ensures !copied ==> Holds(st.view, key, s.b.val)
    ensures s.b == if stop then Buf(s.b.val, newLen, chunk, b.tokens) else Buf(s.b.val, newLen, [], 0)
  {
    s := Flushed(b, st.maxVal);
    newLen, oom := written, (written + |chunk|) % MOD64 > st.maxVal;
    if oom {
      stop := true;
      copied := FlushRest(st, key, log, line, chunk, written, b);
    } else {
      stop, copied, newLen := FlushWhole(st, key, log, line, chunk, written, b);
    }
  }

  method FlushRest(st: Store, key: CString, log: CString, line: seq<byte>, chunk: seq<byte>, written: u64, ghost b: Buf)
    returns (copied: bool)
    requires st.Valid() && GoodKey(key) && GoodKey(log) && log != key && Holds(st.view, key, b.val)
    requires b.chunk == chunk != [] && b.written == written && 2 * st.maxVal + |chunk| < MOD64
    modifies st`view, st.slots, st.arena
    ensures st.Valid()
    ensures var (val, fate) := Ask(b.val, chunk, Remaining(st.maxVal, written), st.maxVal);
      b.val <= val && (copied <==> fate == Beyond(true)) && (!copied ==> Holds(st.view, key, val))
  {
    DebugPost(st, log, line, key, b.val);
    var remaining := Remaining(st.maxVal, written);
    copied := false;
    if remaining > 0 {
      var ok, total, beyond;
      ok, total, beyond, copied := AppendFrom(st, key, chunk, remaining, b.val);
    }
  }

  method FlushWhole(st: Store, key: CString, log: CString, line: seq<byte>, chunk: seq<byte>, written: u64,
                    ghost b: Buf)
    returns (stop: bool, copied: bool, newLen: u64)
    requires st.Valid() && GoodKey(key) && GoodKey(log) && log != key && Holds(st.view, key, b.val)
    requires b.chunk == chunk != [] && 2 * st.maxVal + |chunk| < MOD64
    modifies st`view, st.slots, st.arena
    ensures st.Valid()
    ensures var (val, fate) := Ask(b.val, chunk, |chunk| % MOD64, st.maxVal);
      && b.val <= val && !copied && !fate.Beyond? && (stop <==> fate != Stored) && Holds(st.view, key, val)
      && newLen == if stop then written else |val| % MOD64
  {
    HeldFits(st.view, st.maxVal, key, b.val);
    AskWhole(b.val, chunk, st.maxVal);
    var ok, total;
    ok, total := AppendWithin(st, key, chunk, b.val);
    stop, copied, newLen := !ok, false, written;
    if ok {
      SmallWord(total);
      newLen := total;
    } else {
      DebugPost(st, log, line, key, b.val);
    }
  }

  /** One turn of the loop, with the program's variables beside the state they stand for. */
  method TakeTurn(st: Store, key: CString, log: CString, line: seq<byte>, sample: Sample,
                  chunk: seq<byte>, written: u64, tokens: nat, ghost b: Buf)
    returns (stop: bool, oom: bool, copied: bool, chunk': seq<byte>, written': u64, tokens': nat, ghost s: Step)
    requires st.Valid() && GoodKey(key) && GoodKey(log) && log != key && Holds(st.view, key, b.val)
    requires b == Buf(b.val, written, chunk, tokens) && 2 * st.maxVal + |chunk| + |Text(sample)| < MOD64
    modifies st`view, st.slots, st.arena
    ensures st.Valid() && s == Turn(b, sample, st.maxVal) && b.val <= s.b.val
    ensures stop == s.stop && oom == s.oom && copied == s.copied
    ensures !copied ==> Holds(st.view, key, s.b.val)
    ensures !copied ==> s.b == Buf(s.b.val, written', chunk', tokens')
  {
    s := Turn(b, sample, st.maxVal);
    stop, oom, copied := !Continues(sample), false, false;
    chunk', written', tokens' := chunk, written, tokens;
    if sample.Piece? {
      chunk', tokens' := chunk + sample.text, tokens + 1;
    }
    if stop {
      if !sample.EndOfGeneration? {
        DebugPost(st, log, line, key, b.val);
      }
      return;
    }
    var flush := WantsFlush(sample, chunk', tokens');
    if flush {
      stop, oom, copied, written', s := Flush(st, key, log, line, chunk', written, Fed(b, sample));
      if !stop {
        chunk', tokens' := [], 0;
      }
    }
  }

  method WantsFlush(sample: Sample, chunk: seq<byte>, tokens: nat) returns (flush: bool)
    requires Continues(sample)
    ensures flush <==> (Boundary(sample.text) || tokens >= TOKEN_FLUSH_MAX) && chunk != []
  {
    var boundary := IsWordBoundary(sample.text);
    flush := (boundary || tokens >= TOKEN_FLUSH_MAX) && |chunk| > 0;
  }

  /** The loop, over the samples it gets before it is told to stop. */
  method DecodeAll(st: Store, key: CString, log: CString, line: seq<byte>, samples: seq<Sample>, written: u64,
                   ghost b: Buf)
    returns (oom: bool, copied: bool, chunk: seq<byte>, written': u64, ghost s: Step, ghost shown: seq<seq<byte>>)
    requires st.Valid() && GoodKey(key) && GoodKey(log) && log != key && Holds(st.view, key, b.val)
    requires b == Buf(b.val, written, [], 0) && 2 * st.maxVal + |Produced(samples)| < MOD64
    modifies st`view, st.slots, st.arena
    ensures st.Valid() && s == Decode(b, samples, st.maxVal) && Chain(shown, s.b.val) && shown[0] == b.val
    ensures oom == s.oom && copied == s.copied
    ensures !copied ==> Holds(st.view, key, s.b.val) && s.b.chunk == chunk && s.b.written == written'
    ensures !copied ==> 2 * st.maxVal + |chunk| < MOD64
  {
    var k, tokens, stop := 0, 0, false;
    oom, copied, chunk, written' := false, false, [], written;
    s, shown := Step(b, false, false, false, false), [b.val];
    while !stop && k < |samples|
      invariant k <= |samples| && st.Valid() && Chain(shown, s.b.val) && shown[0] == b.val
      invariant Decode(b, samples, st.maxVal) == if stop then s else Decode(s.b, samples[k..], st.maxVal)
      invariant oom == s.oom && copied == s.copied && (!stop ==> s == Step(s.b, false, false, false, false))
      invariant !copied ==> Holds(st.view, key, s.b.val) && s.b == Buf(s.b.val, written', chunk, tokens)
      invariant copied ==> stop
      invariant !copied ==> 2 * st.maxVal + |chunk| + (if stop then 0 else |Produced(samples[k..])|) < MOD64
      decreases |samples| - k
    {
      ghost var before := s.b;
      assert samples[k..][1..] == samples[k + 1..];
      stop, oom, copied, chunk, written', tokens, s :=
        TakeTurn(st, key, log, line, samples[k], chunk, written', tokens, before);
      k := k + 1;
      ChainGrows(shown, before.val, s.b.val);
      shown := shown + [s.b.val];
    }
  }

  /**
   `process_completion` from the set of the prompt on. Whatever prompt and output it gets, the slot ends
   up as `Streamed` says, through growing values; with a prompt the store accepts that is the first bytes
   of the prompt and all produced text. `copied` marks a run in which an append went on to copy bytes
   past its chunk, after which nothing is claimed.
   */
  method Complete(st: Store, key: CString, prompt: seq<byte>, samples: seq<Sample>, log: CString, line: seq<byte>,
                  ghost was: seq<byte>)
    returns (copied: bool, ghost shown: seq<seq<byte>>)
    requires st.Valid() && GoodKey(key) && GoodKey(log) && log != key && Holds(st.view, key, was)
    requires Addressable(prompt, samples, st.maxVal)
    modifies st`view, st.slots, st.arena
    ensures st.Valid() && copied == Streamed(was, prompt, samples, st.maxVal).copied
    ensures !copied ==> Holds(st.view, key, Streamed(was, prompt, samples, st.maxVal).val)
    ensures Chain(shown, Streamed(was, prompt, samples, st.maxVal).val)
    ensures shown[0] == if Accepted(prompt, st.maxVal) then prompt else was
    ensures Accepted(prompt, st.maxVal) ==>
      !copied && Holds(st.view, key, Clip(prompt + Produced(samples), st.maxVal))
  {
    StartIs(was, prompt, samples, st.maxVal);
    ShowPrompt(st, key, prompt, was);
    var oom, chunk, written;
    ghost var s;
    oom, copied, chunk, written, s, shown :=
      DecodeAll(st, key, log, line, samples, |prompt|, Start(was, prompt, st.maxVal));
    if !copied && |chunk| > 0 && !oom {
      ghost var val := Ask(s.b.val, chunk, ToWrite(s.b, st.maxVal), st.maxVal).0;
      FlushLast(st, key, chunk, written, s.b);
      ChainGrows(shown, s.b.val, val);
      shown := shown + [val];
    }
    if Accepted(prompt, st.maxVal) {
      AcceptedStreams(was, prompt, samples, st.maxVal);
    }
    if !copied {
      DebugPost(st, log, line, key, Streamed(was, prompt, samples, st.maxVal).val);
    }
  }

  /** The flush after the loop; it never asks for more than the chunk holds. */
  method FlushLast(st: Store, key: CString, chunk: seq<byte>, written: u64, ghost b: Buf)
    requires st.Valid() && GoodKey(key) && Holds(st.view, key, b.val)
    requires b.chunk == chunk && b.written == written && 2 * st.maxVal + |chunk| < MOD64
    modifies st`view, st.slots, st.arena
    ensures st.Valid()
    ensures var val := Ask(b.val, chunk, ToWrite(b, st.maxVal), st.maxVal).0;
      b.val <= val && Holds(st.view, key, val)
  {
    var remaining := Remaining(st.maxVal, written);
    var len := if |chunk| < remaining then |chunk| else remaining;
    if len > 0 {
      var _, _, _, _ := AppendFrom(st, key, chunk, len, b.val);
    }
  }
}
