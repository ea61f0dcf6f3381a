/** What the completion daemon's decode loop leaves in the slot, for every prompt and every model output. */
module Stream {
  import opened Bytes
  import opened Seqs

  const TOKEN_FLUSH_MAX := 8
  const NEWLINE: byte := 10
  const SPACE: byte := 32

  /** What one turn of the loop gets from the language model. */
  datatype Sample =
    | EndOfGeneration
    | PieceTooLong
    | Piece(text: seq<byte>, decoded: bool)   // `decoded`: the token entered the model's context

  function Text(sample: Sample): seq<byte> {
    if sample.Piece? then sample.text else []
  }

  predicate Continues(sample: Sample) {
    sample.Piece? && sample.decoded
  }

  /** All the text the model produced before the loop ended. */
  function Produced(samples: seq<Sample>): seq<byte> {
    if samples == [] then []
    else Text(samples[0]) + if Continues(samples[0]) then Produced(samples[1..]) else []
  }

  predicate Boundary(piece: seq<byte>) {
    piece != [] && (piece[0] == SPACE || NEWLINE in piece)
  }

  function Clip(s: seq<byte>, n: nat): (r: seq<byte>)
    ensures r <= s && |r| <= n
    ensures |s| <= n ==> r == s
  {
    if |s| <= n then s else s[..n]
  }

  // ---- The loop on values ----------------------------------------------------------------------

  /** The slot's value, and the loop's `written`, `chunk_buf` and `token_run`. */
  datatype Buf = Buf(val: seq<byte>, written: u64, chunk: seq<byte>, tokens: nat)

  /** What comes of an append. `Beyond` was asked for more bytes than the chunk holds; it may even copy them. */
  datatype Fate = Stored | Refused | Beyond(copies: bool)

  /** `splinter_append(key, chunk, len)`, its length test in 64-bit arithmetic. */
  function Ask(val: seq<byte>, chunk: seq<byte>, len: u64, maxVal: nat): (seq<byte>, Fate) {
    var fits := len > 0 && (|val| + len) % MOD64 <= maxVal;
    if len > |chunk| then (val, Beyond(fits))
    else if fits then (val + chunk[..len], Stored)
    else (val, Refused)
  }

  /** `max_val - written`. */
  function Remaining(maxVal: nat, written: u64): u64 {
    (maxVal - written) % MOD64
  }

  /** A point in the loop; `beyond` and `copied` tell what appends asked for so far. */
  datatype Step = Step(b: Buf, stop: bool, oom: bool, beyond: bool, copied: bool)

  function Flushed(b: Buf, maxVal: nat): Step {
    if (b.written + |b.chunk|) % MOD64 > maxVal then
      var len := Remaining(maxVal, b.written);
      var (val, fate) := Ask(b.val, b.chunk, len, maxVal);
      Step(b.(val := val), true, true, fate.Beyond?, fate == Beyond(true))
    else
      var (val, fate) := Ask(b.val, b.chunk, |b.chunk| % MOD64, maxVal);
      if fate == Stored then Step(Buf(val, |val| % MOD64, [], 0), false, false, false, false)
      else Step(b, true, false, fate.Beyond?, fate == Beyond(true))
  }

  function Fed(b: Buf, sample: Sample): Buf {
    if sample.Piece? then b.(chunk := b.chunk + sample.text, tokens := b.tokens + 1) else b
  }

  /** Whether the loop flushes after this sample. */
  predicate Flushes(b: Buf, sample: Sample) {
    && Continues(sample)
    && (Boundary(sample.text) || Fed(b, sample).tokens >= TOKEN_FLUSH_MAX)
    && Fed(b, sample).chunk != []
  }

  function Turn(b: Buf, sample: Sample, maxVal: nat): Step {
    if Flushes(b, sample) then Flushed(Fed(b, sample), maxVal)
    else Step(Fed(b, sample), !Continues(sample), false, false, false)
  }

  function Decode(b: Buf, samples: seq<Sample>, maxVal: nat): Step
    decreases samples
  {
    if samples == [] then Step(b, false, false, false, false)
    else
      var s := Turn(b, samples[0], maxVal);
      if s.stop then s else Decode(s.b, samples[1..], maxVal)
  }

  datatype Final = Final(val: seq<byte>, beyond: bool, copied: bool)

  /** The flush of the last partial chunk. */
  function Finish(s: Step, maxVal: nat): Final {
    if s.copied || s.oom || s.b.chunk == [] then Final(s.b.val, s.beyond, s.copied)
    else Final(Ask(s.b.val, s.b.chunk, ToWrite(s.b, maxVal), maxVal).0, s.beyond, false)
  }

  function ToWrite(b: Buf, maxVal: nat): (len: u64)
    ensures len <= |b.chunk|
  {
    var remaining := Remaining(maxVal, b.written);
    if |b.chunk| < remaining then |b.chunk| else remaining
  }

  predicate Accepted(prompt: seq<byte>, maxVal: nat) {
    0 < |prompt| <= maxVal
  }

  function Start(was: seq<byte>, prompt: seq<byte>, maxVal: nat): Buf {
    Buf(if Accepted(prompt, maxVal) then prompt else was, |prompt| % MOD64, [], 0)
  }

  /** The whole request on a slot that held `was`; a prompt the store refuses leaves the old value in place. */
  function Streamed(was: seq<byte>, prompt: seq<byte>, samples: seq<Sample>, maxVal: nat): Final {
    Finish(Decode(Start(was, prompt, maxVal), samples, maxVal), maxVal)
  }

  /** The texts of the request fit an address space of 2^64 bytes beside a slot. */
  predicate Addressable(prompt: seq<byte>, samples: seq<Sample>, maxVal: nat) {
    |prompt| + |Produced(samples)| + 2 * maxVal < MOD64
  }

  // ---- A prompt the store accepts --------------------------------------------------------------

  predicate InSync(b: Buf, maxVal: nat) {
    b.written == |b.val| <= maxVal
  }

  lemma SmallWord(x: nat)
    requires x < MOD64
    ensures x % MOD64 == x
  {
  }

  lemma FlushInSync(b: Buf, maxVal: nat)
    requires InSync(b, maxVal) && b.chunk != [] && 2 * maxVal + |b.chunk| < MOD64
    ensures var s := Flushed(b, maxVal);
      && !s.beyond && !s.copied && (s.stop <==> s.oom)
      && (s.oom ==> s.b.val == Clip(b.val + b.chunk, maxVal) && |b.val + b.chunk| > maxVal)
      && (!s.oom ==> InSync(s.b, maxVal) && s.b.val == b.val + b.chunk && s.b.chunk == [])
  {
    SmallWord(b.written + |b.chunk|);
    if b.written + |b.chunk| > maxVal {
      AskRoom(b.val, b.chunk, maxVal - |b.val|, maxVal);
      SmallWord(maxVal - b.written);
    } else {
      AskWhole(b.val, b.chunk, maxVal);
    }
  }

  /** Asking for all the room that is left, with at least that much to write. */
  lemma AskRoom(val: seq<byte>, chunk: seq<byte>, len: u64, maxVal: nat)
    requires |val| + len == maxVal < MOD64 && len <= |chunk|
    ensures Ask(val, chunk, len, maxVal).0 == Clip(val + chunk, maxVal)
    ensures !Ask(val, chunk, len, maxVal).1.Beyond?
  {
    SmallWord(maxVal);
    assert val + chunk[..len] == Clip(val + chunk, maxVal);
    assert len == 0 ==> val == val + chunk[..len];
  }

  lemma AskWhole(val: seq<byte>, chunk: seq<byte>, maxVal: nat)
    requires chunk != [] && |val| + |chunk| < MOD64
    ensures |chunk| % MOD64 == |chunk|
    ensures Ask(val, chunk, |chunk|, maxVal) ==
      if |val| + |chunk| <= maxVal then (val + chunk, Stored) else (val, Refused)
  {
    SmallWord(|val| + |chunk|);
    SmallWord(|chunk|);
    assert chunk[..|chunk|] == chunk;
  }

  lemma {:induction false} DecodeInSync(b: Buf, samples: seq<Sample>, maxVal: nat)
    requires InSync(b, maxVal) && 2 * maxVal + |b.chunk| + |Produced(samples)| < MOD64
    ensures var s := Decode(b, samples, maxVal);
      var all := b.val + b.chunk + Produced(samples);
      && !s.beyond && !s.copied
      && (s.oom ==> s.b.val == Clip(all, maxVal))
      && (!s.oom ==> InSync(s.b, maxVal) && s.b.val + s.b.chunk == all && |s.b.chunk| <= |all|)
    decreases samples
  {
    if samples != [] {
      var s, fed := Turn(b, samples[0], maxVal), Fed(b, samples[0]);
      var rest := if Continues(samples[0]) then Produced(samples[1..]) else [];
      assert b.val + b.chunk + Produced(samples) == fed.val + fed.chunk + rest;
      if Flushes(b, samples[0]) {
        FlushInSync(fed, maxVal);
        if s.oom {
          assert Clip(fed.val + fed.chunk + rest, maxVal) == Clip(fed.val + fed.chunk, maxVal);
        }
      }
      if !s.stop {
        assert s.b.val + s.b.chunk == fed.val + fed.chunk;
        DecodeInSync(s.b, samples[1..], maxVal);
      }
    }
  }

  /** A request whose prompt fits ends with the first bytes of the prompt and all produced text. */
  lemma AcceptedStreams(was: seq<byte>, prompt: seq<byte>, samples: seq<Sample>, maxVal: nat)
    requires Accepted(prompt, maxVal) && Addressable(prompt, samples, maxVal)
    ensures Streamed(was, prompt, samples, maxVal) == Final(Clip(prompt + Produced(samples), maxVal), false, false)
  {
    var b, all := Start(was, prompt, maxVal), prompt + Produced(samples);
    StartIs(was, prompt, samples, maxVal);
    DecodeInSync(b, samples, maxVal);
    assert b.val + b.chunk == prompt;
    FinishIs(Decode(b, samples, maxVal), all, maxVal);
  }

  lemma StartIs(was: seq<byte>, prompt: seq<byte>, samples: seq<Sample>, maxVal: nat)
    requires Addressable(prompt, samples, maxVal)
    ensures Start(was, prompt, maxVal) == Buf(if Accepted(prompt, maxVal) then prompt else was, |prompt|, [], 0)
  {
  }

  /** The last flush completes what the loop left in step. */
  lemma FinishIs(s: Step, all: seq<byte>, maxVal: nat)
    requires !s.beyond && !s.copied && 2 * maxVal < MOD64
    requires s.oom ==> s.b.val == Clip(all, maxVal)
    requires !s.oom ==> InSync(s.b, maxVal) && s.b.val + s.b.chunk == all
    ensures Finish(s, maxVal) == Final(Clip(all, maxVal), false, false)
  {
    if !s.oom && s.b.chunk != [] {
      FinishInSync(s.b, maxVal);
    } else if !s.oom {
      assert s.b.val + s.b.chunk == s.b.val;
    }
  }

  lemma FinishInSync(b: Buf, maxVal: nat)
    requires InSync(b, maxVal) && b.chunk != [] && 2 * maxVal < MOD64
    ensures Ask(b.val, b.chunk, ToWrite(b, maxVal), maxVal).0 == Clip(b.val + b.chunk, maxVal)
  {
    SmallWord(maxVal - b.written);
    if |b.chunk| < maxVal - |b.val| {
      AskWhole(b.val, b.chunk, maxVal);
    } else {
      AskRoom(b.val, b.chunk, maxVal - |b.val|, maxVal);
    }
  }

  // ---- A prompt the store refuses --------------------------------------------------------------

  /** The chunk the loop flushes first, if it flushes at all. */
  function FirstFlush(b: Buf, samples: seq<Sample>): (first: seq<byte>)
    ensures |first| <= |b.chunk| + |Produced(samples)|
    decreases samples
  {
    if samples == [] || !Continues(samples[0]) then []
    else if Flushes(b, samples[0]) then Fed(b, samples[0]).chunk
    else FirstFlush(Fed(b, samples[0]), samples[1..])
  }

  /** Without a flush the loop only gathers text. */
  predicate OnlyGathers(b: Buf, samples: seq<Sample>, s: Step) {
    && s.b.val == b.val && s.b.written == b.written && s.b.chunk == b.chunk + Produced(samples)
    && !s.oom && !s.beyond && !s.copied
  }

  lemma GatherStep(b: Buf, samples: seq<Sample>, s: Step)
    requires samples != [] && !Flushes(b, samples[0])
    requires if Continues(samples[0]) then OnlyGathers(Fed(b, samples[0]), samples[1..], s)
             else s.b == Fed(b, samples[0])
    requires !s.oom && !s.beyond && !s.copied
    ensures OnlyGathers(b, samples, s)
  {
    assert Fed(b, samples[0]).chunk == b.chunk + Text(samples[0]);
    if Continues(samples[0]) {
      Regroup(b.chunk, Text(samples[0]), Produced(samples[1..]));
    }
  }

  lemma FlushTooLong(b: Buf, maxVal: nat)
    requires |b.val| <= maxVal < b.written && b.written + |b.chunk| + 2 * maxVal < MOD64
    ensures Flushed(b, maxVal) == Step(b, true, true, true, |b.val| >= b.written - maxVal)
  {
    SmallWord(b.written + |b.chunk|);
    WrappedRoom(b, maxVal);
  }

  /** With a refused prompt longer than the slot, the first flush asks for more bytes than the chunk holds. */
  lemma {:induction false} DecodeTooLong(b: Buf, samples: seq<Sample>, maxVal: nat)
    requires |b.val| <= maxVal < b.written && b.written + |b.chunk| + |Produced(samples)| + 2 * maxVal < MOD64
    ensures var first, s := FirstFlush(b, samples), Decode(b, samples, maxVal);
      && (first == [] ==> OnlyGathers(b, samples, s))
      && (first != [] ==> s.b.val == b.val && s.oom && s.beyond && (s.copied <==> |b.val| >= b.written - maxVal))
    decreases samples
  {
    if samples != [] {
      var fed, s := Fed(b, samples[0]), Decode(b, samples, maxVal);
      if Flushes(b, samples[0]) {
        FlushTooLong(fed, maxVal);
      } else if Continues(samples[0]) {
        DecodeTooLong(fed, samples[1..], maxVal);
        if FirstFlush(b, samples) == [] {
          GatherStep(b, samples, s);
        }
      } else {
        GatherStep(b, samples, s);
      }
    } else {
      assert b.chunk + Produced(samples) == b.chunk;
    }
  }

  /** The room that is left wraps around, and the length test may wrap back. */
  lemma WrappedRoom(b: Buf, maxVal: nat)
    requires |b.val| <= maxVal < b.written && b.written + |b.chunk| + 2 * maxVal < MOD64
    ensures Remaining(maxVal, b.written) == MOD64 - (b.written - maxVal) > |b.chunk|
    ensures (|b.val| + Remaining(maxVal, b.written)) % MOD64 <= maxVal <==> |b.val| >= b.written - maxVal
  {
    var over := b.written - maxVal;
    assert Remaining(maxVal, b.written) == MOD64 - over;
    if |b.val| >= over {
      assert (|b.val| + (MOD64 - over)) % MOD64 == |b.val| - over;
    } else {
      assert (|b.val| + (MOD64 - over)) % MOD64 == |b.val| + (MOD64 - over);
    }
  }

  /** The room a first chunk finds beside the old value when nothing was counted as written. */
  predicate RoomBeside(val: seq<byte>, first: seq<byte>, maxVal: nat) {
    |val| + (if |first| < maxVal then |first| else maxVal) <= maxVal
  }

  /** An empty prompt leaves the old value, and the first flush either resumes from it or fails. */
  lemma FlushFromZero(b: Buf, maxVal: nat)
    requires b.written == 0 && |b.val| <= maxVal && b.chunk != [] && 2 * maxVal + |b.chunk| < MOD64
    ensures var s := Flushed(b, maxVal);
      && !s.beyond && !s.copied
      && (RoomBeside(b.val, b.chunk, maxVal) ==>
            && (s.stop <==> s.oom)
            && (s.oom ==> s.b.val == Clip(b.chunk, maxVal) && b.val == [] && |b.chunk| >= maxVal)
            && (!s.oom ==> InSync(s.b, maxVal) && s.b.val == b.val + b.chunk && s.b.chunk == []))
      && (!RoomBeside(b.val, b.chunk, maxVal) ==> s.stop && s.b == b)
  {
    SmallWord(|b.chunk|);
    if |b.chunk| > maxVal {
      SmallWord(maxVal);
      AskTooMuch(b.val, b.chunk, maxVal);
    } else {
      AskWhole(b.val, b.chunk, maxVal);
    }
  }

  /** Asking for a whole slot's worth beside an old value. */
  lemma AskTooMuch(val: seq<byte>, chunk: seq<byte>, maxVal: u64)
    requires |val| <= maxVal <= |chunk| && 2 * maxVal < MOD64
    ensures Ask(val, chunk, maxVal, maxVal) ==
      if val == [] && maxVal > 0 then (Clip(chunk, maxVal), Stored) else (val, Refused)
  {
    SmallWord(|val| + maxVal);
    assert [] + chunk[..maxVal] == Clip(chunk, maxVal);
  }

  lemma {:induction false} DecodeFromZero(b: Buf, samples: seq<Sample>, maxVal: nat)
    requires b.written == 0 && |b.val| <= maxVal && 2 * maxVal + |b.chunk| + |Produced(samples)| < MOD64
    ensures var first, s := FirstFlush(b, samples), Decode(b, samples, maxVal);
      var all := b.val + b.chunk + Produced(samples);
      && !s.beyond && !s.copied
      && (first == [] ==> OnlyGathers(b, samples, s))
      && (first != [] && RoomBeside(b.val, first, maxVal) ==>
            && (s.oom ==> s.b.val == Clip(all, maxVal))
            && (!s.oom ==> InSync(s.b, maxVal) && s.b.val + s.b.chunk == all && |s.b.chunk| <= |all|))
      && (first != [] && !RoomBeside(b.val, first, maxVal) ==>
            s.b.val == b.val && s.b.written == 0 && s.b.chunk == first)
    decreases samples
  {
    if samples != [] {
      var fed, s := Fed(b, samples[0]), Decode(b, samples, maxVal);
      if Flushes(b, samples[0]) {
        FlushThenDecode(b, samples, maxVal);
      } else if Continues(samples[0]) {
        DecodeFromZero(fed, samples[1..], maxVal);
        Regroup(b.chunk, Text(samples[0]), Produced(samples[1..]));
        Regroup(b.val, b.chunk, Produced(samples));
        Regroup(fed.val, fed.chunk, Produced(samples[1..]));
        if FirstFlush(b, samples) == [] {
          GatherStep(b, samples, s);
        }
      } else {
        GatherStep(b, samples, s);
      }
    } else {
      assert b.chunk + Produced(samples) == b.chunk;
    }
  }

  lemma FlushThenDecode(b: Buf, samples: seq<Sample>, maxVal: nat)
    requires samples != [] && Flushes(b, samples[0])
    requires b.written == 0 && |b.val| <= maxVal && 2 * maxVal + |b.chunk| + |Produced(samples)| < MOD64
    ensures var first, s := Fed(b, samples[0]).chunk, Decode(b, samples, maxVal);
      var all := b.val + b.chunk + Produced(samples);
      && !s.beyond && !s.copied
      && (RoomBeside(b.val, first, maxVal) ==>
            && (s.oom ==> s.b.val == Clip(all, maxVal))
            && (!s.oom ==> InSync(s.b, maxVal) && s.b.val + s.b.chunk == all && |s.b.chunk| <= |all|))
      && (!RoomBeside(b.val, first, maxVal) ==> s.b.val == b.val && s.b.written == 0 && s.b.chunk == first)
  {
    var fed, rest := Fed(b, samples[0]), Produced(samples[1..]);
    var s := Flushed(fed, maxVal);
    FlushFromZero(fed, maxVal);
    Regroup(b.chunk, Text(samples[0]), rest);
    Regroup(b.val, b.chunk, Produced(samples));
    Regroup(fed.val, fed.chunk, rest);
    if s.oom && RoomBeside(b.val, fed.chunk, maxVal) {
      assert fed.val + fed.chunk == fed.chunk;
      ClipMore(fed.val + fed.chunk, rest, maxVal);
    }
    if !s.stop {
      assert s.b.val + s.b.chunk == fed.val + fed.chunk;
      DecodeInSync(s.b, samples[1..], maxVal);
    }
  }

  lemma ClipMore(s: seq<byte>, more: seq<byte>, n: nat)
    requires |s| >= n
    ensures Clip(s + more, n) == Clip(s, n)
  {
    assert (s + more)[..n] == s[..n];
    assert s[..|s|] == s;
    assert (s + more)[..|s|] == s;
  }

  // ---- Main results ----------------------------------------------------------------------------

  /** What a request with a prompt longer than the slot does, for every old value and every output. */
  lemma TooLongPrompt(was: seq<byte>, prompt: seq<byte>, samples: seq<Sample>, maxVal: nat)
    requires |was| <= maxVal < |prompt| && Addressable(prompt, samples, maxVal)
    ensures var text, flushed := Produced(samples), FirstFlush(Start(was, prompt, maxVal), samples) != [];
      Streamed(was, prompt, samples, maxVal) ==
        if flushed then Final(was, true, |was| >= |prompt| - maxVal)
        else Final(if |was| + |text| <= maxVal then was + text else was, false, false)
  {
    var b := Start(was, prompt, maxVal);
    StartIs(was, prompt, samples, maxVal);
    DecodeTooLong(b, samples, maxVal);
    if FirstFlush(b, samples) == [] {
      assert [] + Produced(samples) == Produced(samples);
      FinishTooLong(Decode(b, samples, maxVal), maxVal);
    }
  }

  lemma FinishTooLong(s: Step, maxVal: nat)
    requires |s.b.val| <= maxVal < s.b.written && s.b.written + |s.b.chunk| + 2 * maxVal < MOD64
    requires !s.oom && !s.beyond && !s.copied
    ensures Finish(s, maxVal) ==
      Final(if |s.b.val| + |s.b.chunk| <= maxVal then s.b.val + s.b.chunk else s.b.val, false, false)
  {
    WrappedRoom(s.b, maxVal);
    assert s.b.chunk[..|s.b.chunk|] == s.b.chunk;
    assert s.b.chunk == [] ==> s.b.val + s.b.chunk == s.b.val;
  }

  /** What a request with an empty prompt does: the text goes after the old value, or is lost whole. */
  lemma EmptyPrompt(was: seq<byte>, samples: seq<Sample>, maxVal: nat)
    requires |was| <= maxVal && Addressable([], samples, maxVal)
    ensures var flush := FirstFlush(Start(was, [], maxVal), samples);
      var first := if flush == [] then Produced(samples) else flush;
      Streamed(was, [], samples, maxVal) ==
        Final(if RoomBeside(was, first, maxVal) then Clip(was + Produced(samples), maxVal) else was, false, false)
  {
    var b := Start(was, [], maxVal);
    var first, s := FirstFlush(b, samples), Decode(b, samples, maxVal);
    StartIs(was, [], samples, maxVal);
    DecodeFromZero(b, samples, maxVal);
    assert b.val + b.chunk == was;
    assert [] + Produced(samples) == Produced(samples);
    if first != [] && RoomBeside(was, first, maxVal) {
      FinishIs(s, was + Produced(samples), maxVal);
    } else if s.oom || s.b.chunk == [] {
      assert was + [] == was;
    } else {
      FinishFromZero(s.b, maxVal);
    }
  }

  lemma FinishFromZero(b: Buf, maxVal: nat)
    requires b.written == 0 && |b.val| <= maxVal && b.chunk != [] && 2 * maxVal + |b.chunk| < MOD64
    ensures Ask(b.val, b.chunk, ToWrite(b, maxVal), maxVal).0 ==
      if RoomBeside(b.val, b.chunk, maxVal) then Clip(b.val + b.chunk, maxVal) else b.val
  {
    SmallWord(maxVal);
    if |b.chunk| < maxVal {
      AskWhole(b.val, b.chunk, maxVal);
    } else {
      AskTooMuch(b.val, b.chunk, maxVal);
      assert b.val == [] ==> b.val + b.chunk == b.chunk;
    }
  }

  /** The request does what it is for: the prompt and the text, cut off at the slot, within the chunks. */
  predicate Promised(was: seq<byte>, prompt: seq<byte>, samples: seq<Sample>, maxVal: nat) {
    Streamed(was, prompt, samples, maxVal) == Final(Clip(prompt + Produced(samples), maxVal), false, false)
  }

  /** One word of output, flushed at once. */
  const ONE_LINE := [Piece([NEWLINE], true)]

  lemma OneLineFlushes(b: Buf)
    ensures FirstFlush(b, ONE_LINE) == b.chunk + [NEWLINE] && Produced(ONE_LINE) == [NEWLINE]
  {
    assert Produced(ONE_LINE[1..]) == [];
    assert NEWLINE in [NEWLINE];
  }

  /** No flush asks for more than its chunk holds, for any output, exactly when the prompt fits the slot. */
  lemma FlushesInsideIff(was: seq<byte>, prompt: seq<byte>, maxVal: nat)
    requires |was| <= maxVal && |prompt| + 2 * maxVal + 1 < MOD64
    ensures (forall samples :: Addressable(prompt, samples, maxVal) ==> !Streamed(was, prompt, samples, maxVal).beyond)
       <==> |prompt| <= maxVal
  {
    if |prompt| <= maxVal {
      forall samples | Addressable(prompt, samples, maxVal)
        ensures !Streamed(was, prompt, samples, maxVal).beyond
      {
        if prompt == [] {
          EmptyPrompt(was, samples, maxVal);
        } else {
          AcceptedStreams(was, prompt, samples, maxVal);
        }
      }
    } else {
      OneLineFlushes(Start(was, prompt, maxVal));
      TooLongPrompt(was, prompt, ONE_LINE, maxVal);
    }
  }

  /** Some output makes an append copy bytes past its chunk exactly when the old value is as long as the excess. */
  lemma OverrunIff(was: seq<byte>, prompt: seq<byte>, maxVal: nat)
    requires |was| <= maxVal && |prompt| + 2 * maxVal + 1 < MOD64
    ensures (exists samples :: Addressable(prompt, samples, maxVal) && Streamed(was, prompt, samples, maxVal).copied)
       <==> 0 < |prompt| - maxVal <= |was|
  {
    if |prompt| <= maxVal {
      forall samples | Addressable(prompt, samples, maxVal)
        ensures !Streamed(was, prompt, samples, maxVal).copied
      {
        if prompt == [] {
          EmptyPrompt(was, samples, maxVal);
        } else {
          AcceptedStreams(was, prompt, samples, maxVal);
        }
      }
    } else {
      OneLineFlushes(Start(was, prompt, maxVal));
      TooLongPrompt(was, prompt, ONE_LINE, maxVal);
      forall samples | Addressable(prompt, samples, maxVal)
        ensures Streamed(was, prompt, samples, maxVal).copied ==> |was| >= |prompt| - maxVal
      {
        TooLongPrompt(was, prompt, samples, maxVal);
      }
    }
  }

  /** The promise holds for every old value and every output exactly when the prompt is one the store accepts. */
  lemma PromisedIff(prompt: seq<byte>, maxVal: nat)
    requires 0 < maxVal && |prompt| + 2 * maxVal + 1 < MOD64
    ensures (forall was, samples :: |was| <= maxVal && Addressable(prompt, samples, maxVal) ==>
              Promised(was, prompt, samples, maxVal))
       <==> Accepted(prompt, maxVal)
  {
    if Accepted(prompt, maxVal) {
      forall was, samples | |was| <= maxVal && Addressable(prompt, samples, maxVal)
        ensures Promised(was, prompt, samples, maxVal)
      {
        AcceptedStreams(was, prompt, samples, maxVal);
      }
    } else if prompt == [] {
      EmptyPrompt([SPACE], [], maxVal);
      assert !Promised([SPACE], prompt, [], maxVal);
    } else {
      OneLineFlushes(Start([], prompt, maxVal));
      TooLongPrompt([], prompt, ONE_LINE, maxVal);
      assert !Promised([], prompt, ONE_LINE, maxVal);
    }
  }

  /** A prompt one byte too long for a slot of four that held one byte: the copy is asked to leave the chunk. */
  lemma OverlongExample()
    ensures Streamed([SPACE], [65, 65, 65, 65, 65], ONE_LINE, 4) == Final([SPACE], true, true)
  {
    OneLineFlushes(Start([SPACE], [65, 65, 65, 65, 65], 4));
    TooLongPrompt([SPACE], [65, 65, 65, 65, 65], ONE_LINE, 4);
  }

  // ---- When the loop flushes -------------------------------------------------------------------

  /**
   After a piece that went on to the next turn, the chunk is flushed exactly if it holds something and the
   piece starts with a space (32), holds a newline (10), or is the eighth since the last flush.
   Otherwise the piece only joins the chunk.
   */
  lemma FlushRule(b: Buf, sample: Sample, maxVal: nat)
    requires Continues(sample)
    ensures var text, fed := sample.text, b.(chunk := b.chunk + sample.text, tokens := b.tokens + 1);
      var due := fed.chunk != [] && (b.tokens + 1 >= 8 || (text != [] && text[0] == 32) || 10 in text);
      Turn(b, sample, maxVal) == if due then Flushed(fed, maxVal) else Step(fed, false, false, false, false)
  {
    assert NEWLINE in sample.text <==> 10 in sample.text;
  }

  /** So text never waits in the chunk for more than seven pieces while the loop goes on. */
  lemma {:induction false} TextWaitsBriefly(b: Buf, samples: seq<Sample>, maxVal: nat)
    requires b.chunk != [] ==> b.tokens < 8
    ensures var s := Decode(b, samples, maxVal);
      !s.stop && s.b.chunk != [] ==> s.b.tokens < 8
    decreases samples
  {
    if samples != [] {
      var s := Turn(b, samples[0], maxVal);
      if !s.stop {
        TextWaitsBriefly(s.b, samples[1..], maxVal);
      }
    }
  }
}
