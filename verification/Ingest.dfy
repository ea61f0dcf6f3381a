/** Chunked ingestion of a file: the input is spread over ordered keys and gathered back. */
module Ingest {
  import opened Bytes
  import opened Division
  import opened SlotEffects
  import opened Table
  import opened Store
  import opened Values
  import opened Batch
  import opened Names
  import Options
  import JsonEscape

  // ---- Chunks ----------------------------------------------------------------------------------

  /** The chunk size for slots of `maxVal` bytes. */
  function ChunkSize(maxVal: nat): nat {
    if maxVal > 64 then maxVal - 64 else maxVal
  }

  /** A chunk always fits its slot, and leaves 64 bytes of it free in slots of more than 64. */
  lemma ChunkFits(maxVal: nat)
    requires maxVal > 0
    ensures 0 < ChunkSize(maxVal) <= maxVal
    ensures maxVal > 64 ==> ChunkSize(maxVal) + 64 == maxVal
    ensures maxVal <= 64 ==> ChunkSize(maxVal) == maxVal
  {
  }

  /** What successive reads of up to `size` bytes return. */
  function Chunks(input: seq<byte>, size: nat): seq<seq<byte>>
    requires size > 0
  {
    if input == [] then []
    else if |input| <= size then [input]
    else [input[..size]] + Chunks(input[size..], size)
  }

  /** How many chunks an input makes in slots of `maxVal` bytes. */
  function ChunkCount(input: seq<byte>, maxVal: nat): nat {
    if maxVal == 0 then 0 else |Chunks(input, ChunkSize(maxVal))|
  }

  lemma CeilStep(n: nat, size: nat)
    requires 0 < size < n
    ensures (n + size - 1) / size == (n - size + size - 1) / size + 1
  {
    var q := (n - 1) / size;
    DivIs(n - 1, size, q);
    DivIs(n - 1 + size, size, q + 1);
  }

  /** The chunks are the input cut in order: as many as its size asks for, each nonempty and within bounds. */
  lemma {:induction false} ChunksCover(input: seq<byte>, size: nat)
    requires size > 0
    ensures Flatten(Chunks(input, size)) == input
    ensures |Chunks(input, size)| == (|input| + size - 1) / size
    ensures forall i :: 0 <= i < |Chunks(input, size)| ==> 0 < |Chunks(input, size)[i]| <= size
    ensures forall i :: 0 <= i < |Chunks(input, size)| - 1 ==> |Chunks(input, size)[i]| == size
  {
    if |input| > size {
      ChunksCover(input[size..], size);
      CeilStep(|input|, size);
    } else if |input| > 0 {
      assert |input| + size - 1 == size + (|input| - 1);
      assert (|input| + size - 1) / size == 1;
    }
  }

  // ---- Ordered keys ----------------------------------------------------------------------------

  /** The base key and the keys of orders 1 to `n` are keys the table treats as such. */
  predicate GoodBase(base: CString, n: nat) {
    GoodKey(base) && forall i :: 1 <= i <= n ==> GoodKey(OrderKey(base, i))
  }

  predicate NamesFit(base: CString, last: nat) {
    |Name(base, last)| < KEY_MAX
  }

  /** `safe_key`: the base key is cut so that a suffix still fits. */
  function SafeKey(src: CString): CString {
    if |src| <= KEY_MAX - 5 then src else src[..KEY_MAX - 5]
  }

  /** Every base key leaves room for 999 orders, and the longest ones for no more. */
  lemma SafeKeyLeavesRoom(src: CString, n: nat)
    ensures n <= 999 ==> NamesFit(SafeKey(src), n)
    ensures |src| >= KEY_MAX - 5 ==> (NamesFit(SafeKey(src), n) <==> n <= 999)
    ensures SafeKey(src) <= src && (|src| <= 59 ==> SafeKey(src) == src)
  {
    assert |Decimal(999)| == 3 && |Decimal(1000)| == 4;
    if n <= 999 {
      LongerNumbersPrintLonger(n, 999);
    } else {
      LongerNumbersPrintLonger(1000, n);
    }
  }

  /** The base key with the namespace prefix, which is put in front after the cut. */
  function BaseKey(prefix: CString, src: CString): (k: CString)
    ensures |k| < KEY_MAX
  {
    var key := prefix + SafeKey(src);
    if |key| < KEY_MAX then key else key[..KEY_MAX - 1]
  }

  /** With a prefix, 999 orders fit exactly when prefix and cut key together are as short as a cut key may be. */
  lemma PrefixTakesRoom(prefix: CString, src: CString)
    ensures NamesFit(BaseKey(prefix, src), 999) <==> |prefix| + |SafeKey(src)| <= KEY_MAX - 5
    ensures |prefix| + |SafeKey(src)| <= 63 ==>
      prefix <= BaseKey(prefix, src) && BaseKey(prefix, src)[|prefix|..] == SafeKey(src)
  {
    assert |Decimal(999)| == 3;
  }

  /** The keys of orders 1 to `n`. */
  function OrderKeys(base: CString, n: nat): (keys: seq<CString>)
    ensures |keys| == n
    ensures forall i :: 0 <= i < n ==> keys[i] == OrderKey(base, i + 1)
  {
    if n == 0 then [] else OrderKeys(base, n - 1) + [OrderKey(base, n)]
  }

  lemma OrderKeysGood(base: CString, n: nat)
    requires GoodBase(base, n)
    ensures GoodKeys(OrderKeys(base, n))
  {
  }

  /** Names that fit make distinct keys, none of them the base key. */
  lemma OrderKeysApart(base: CString, n: nat)
    requires NamesFit(base, n)
    ensures Distinct(OrderKeys(base, n)) && base !in OrderKeys(base, n)
  {
    var keys := OrderKeys(base, n);
    forall t, u | 0 <= t < u < n
      ensures keys[t] != keys[u]
    {
      FittingNamesDiffer(base, t + 1, u + 1, n);
    }
    forall t | 0 <= t < n
      ensures keys[t] != base
    {
      FittingNamesDiffer(base, t + 1, t + 1, n);
    }
  }

  /** Setting the base key keeps the parts. */
  lemma BaseSpares(v: View, w: View, base: CString, parts: seq<seq<byte>>)
    requires Shaped(v) && Shaped(w) && AllIdle(w) && GoodBase(base, |parts|) && NamesFit(base, |parts|)
    requires HoldsAll(v, OrderKeys(base, |parts|), parts) && OthersKept(v, w, base)
    ensures HoldsAll(w, OrderKeys(base, |parts|), parts)
  {
    OrderKeysApart(base, |parts|);
    OrderKeysGood(base, |parts|);
    KeepAll(v, w, base, OrderKeys(base, |parts|), parts);
  }

  // ---- Ingestion -------------------------------------------------------------------------------

  function Ascii(s: string): seq<byte> {
    seq(|s|, i requires 0 <= i < |s| => (s[i] as int % 256) as byte)
  }

  /** The metadata text of `write_metadata`. */
  function Meta(chunks: nat, bytes: nat, source: seq<byte>, time: nat): (r: seq<byte>)
    ensures |r| > 0
  {
    MetaHead(chunks, bytes) + source + MetaTail(time)
  }

  /** The metadata up to the opening quote of the source. */
  function MetaHead(chunks: nat, bytes: nat): seq<byte> {
    Ascii("{\"chunks\":") + Decimal(chunks) + Ascii(",\"bytes\":") + Decimal(bytes) + Ascii(",\"source\":\"")
  }

  /** The metadata from the closing quote of the source on. */
  function MetaTail(time: nat): (r: seq<byte>)
    ensures |r| > 0 && r[0] == JsonEscape.QUOTE
  {
    [JsonEscape.QUOTE] + Ascii(",\"ingested\":") + Decimal(time) + Ascii("}")
  }

  /** The digits at the front of a text as a number, on top of the digits read before, and what follows them. */
  function ReadNumber(s: seq<byte>, before: nat): (nat, seq<byte>)
    decreases s
  {
    if s != [] && 48 <= s[0] <= 57 then ReadNumber(s[1..], before * 10 + (s[0] as nat - 48)) else (before, s)
  }

  lemma {:induction false} DecimalReads(n: nat, rest: seq<byte>)
    ensures ReadNumber(Decimal(n) + rest, 0) == ReadNumber(rest, n)
    decreases n
  {
    var digit := [(48 + n % 10) as byte];
    assert (digit + rest)[1..] == rest;
    if n >= 10 {
      DecimalReads(n / 10, digit + rest);
      assert Decimal(n) + rest == Decimal(n / 10) + (digit + rest);
    }
  }

  /** The key of order `n` is the base key, a dot, and digits that read as `n`, if that fits the key buffer. */
  lemma OrderKeySays(base: CString, n: nat)
    requires NamesFit(base, n)
    ensures base + [46] <= OrderKey(base, n)
    ensures ReadNumber(OrderKey(base, n)[|base| + 1..], 0) == (n, [])
  {
    DecimalReads(n, []);
    assert Decimal(n) + [] == Decimal(n);
    assert OrderKey(base, n)[|base| + 1..] == Decimal(n);
  }

  /** What follows the source ends with the time. */
  lemma TimeIsLast(time: nat) returns (stamp: seq<byte>)
    ensures MetaTail(time) == [JsonEscape.QUOTE] + Ascii(",\"ingested\":") + stamp
    ensures ReadNumber(stamp, 0) == (time, Ascii("}"))
  {
    stamp := Decimal(time) + Ascii("}");
    DecimalReads(time, Ascii("}"));
    assert Ascii("}")[0] == 125;
  }

  /** After its label stands the number of chunks, then the number of bytes, then the source. */
  lemma MetaSays(chunks: nat, bytes: nat, source: seq<byte>, time: nat) returns (more: seq<byte>, rest: seq<byte>)
    ensures var first, second := Ascii("{\"chunks\":"), Ascii(",\"bytes\":");
      && first <= Meta(chunks, bytes, source, time)
      && ReadNumber(Meta(chunks, bytes, source, time)[|first|..], 0) == (chunks, more)
      && second <= more
      && ReadNumber(more[|second|..], 0) == (bytes, rest)
      && rest == Ascii(",\"source\":\"") + source + MetaTail(time)
  {
    var first, second := Ascii("{\"chunks\":"), Ascii(",\"bytes\":");
    rest := Ascii(",\"source\":\"") + source + MetaTail(time);
    more := second + (Decimal(bytes) + rest);
    assert Meta(chunks, bytes, source, time) == first + (Decimal(chunks) + more);
    assert (first + (Decimal(chunks) + more))[|first|..] == Decimal(chunks) + more;
    assert more[|second|..] == Decimal(bytes) + rest;
    DecimalReads(chunks, more);
    DecimalReads(bytes, rest);
    assert more[0] == 44 && rest[0] == 44;
  }

  /**
   The source is printed without escapes: a reader of the metadata gets it back, and goes on with what was
   printed after it, exactly when it holds no quote, no backslash and no control byte.
   */
  lemma SourceReadsBackIff(chunks: nat, bytes: nat, source: seq<byte>, time: nat)
    ensures var head := |MetaHead(chunks, bytes)|;
      && head <= |Meta(chunks, bytes, source, time)|
      && (JsonEscape.ReadString(Meta(chunks, bytes, source, time)[head..])
            == Options.Some((source, MetaTail(time)[1..]))
          <==> JsonEscape.Plain(source))
  {
    var tail := MetaTail(time);
    assert Meta(chunks, bytes, source, time)[|MetaHead(chunks, bytes)|..] == source + [JsonEscape.QUOTE] + tail[1..];
    JsonEscape.ReadsRawIff(source, tail[1..]);
  }

  const META_BUFFER := 512

  /**
   `cmd_ingest` on an open input. When it succeeds and the last name fits a key, the ordered keys hold
   the chunks of the input and the base key holds the metadata; a store with a free slot for each
   chunk and one more makes it succeed.
   */
  method Ingest(st: Store, base: CString, input: seq<byte>, source: seq<byte>, time: nat) returns (ok: bool, count: nat)
    requires st.Valid() && AllIdle(st.view) && GoodBase(base, ChunkCount(input, st.maxVal))
    modifies st`view, st.slots, st.arena
    ensures st.Valid() && AllIdle(st.view)
    ensures ok ==> st.maxVal > 0 && input != [] && count == |Chunks(input, ChunkSize(st.maxVal))|
    ensures ok ==> Holds(st.view, base, Meta(count, |input|, source, time))
    ensures ok && NamesFit(base, count) ==>
      HoldsAll(st.view, OrderKeys(base, count), Chunks(input, ChunkSize(st.maxVal)))
    ensures ok && NamesFit(base, count) ==> Joined(st.view, OrderKeys(base, count)) == input
    ensures st.maxVal > 0 && input != [] && Enough(old(st.view), st.maxVal, input, source, time) ==> ok
  {
    if st.maxVal == 0 { return false, 0; }
    ghost var parts := Chunks(input, ChunkSize(st.maxVal));
    ok, count := WriteAll(st, base, input);
    if !ok || count == 0 { return false, count; }
    ok := WriteMetadata(st, base, count, |input|, source, time, parts);
    ReadsBack(st.view, base, input, ChunkSize(st.maxVal));
  }

  /** The chunks, and what is left of the free slots. */
  method WriteAll(st: Store, base: CString, input: seq<byte>) returns (ok: bool, count: nat)
    requires st.Valid() && AllIdle(st.view) && st.maxVal > 0 && GoodBase(base, ChunkCount(input, st.maxVal))
    modifies st`view, st.slots, st.arena
    ensures st.Valid() && AllIdle(st.view)
    ensures var parts := Chunks(input, ChunkSize(st.maxVal));
      && (ok ==> count == |parts| && Chunked(st.view, base, parts) && (count == 0 ==> input == []))
      && (Vacancies(old(st.view)) > |parts| ==> ok && Vacancies(st.view) > 0)
  {
    ghost var v, parts := st.view, Chunks(input, ChunkSize(st.maxVal));
    ChunksSettable(base, input, st.maxVal);
    ok, count := WriteChunks(st, base, input, OrderKeys(base, |parts|), parts);
    if ok {
      StoredIsChunked(v, st.view, base, parts);
    }
  }

  lemma ChunksSettable(base: CString, input: seq<byte>, maxVal: nat)
    requires maxVal > 0 && GoodBase(base, ChunkCount(input, maxVal))
    ensures var parts := Chunks(input, ChunkSize(maxVal));
      Settable(parts, maxVal) && GoodKeys(OrderKeys(base, |parts|)) && (parts == [] ==> input == [])
  {
    ChunksCover(input, ChunkSize(maxVal));
    OrderKeysGood(base, ChunkCount(input, maxVal));
  }

  lemma StoredIsChunked(v: View, w: View, base: CString, parts: seq<seq<byte>>)
    requires Shaped(v) && Shaped(w) && Stored(v, w, OrderKeys(base, |parts|), parts, |parts|)
    ensures Chunked(w, base, parts)
  {
    if NamesFit(base, |parts|) {
      OrderKeysApart(base, |parts|);
    }
  }

  /** If the names fit, orders 1 to `|parts|` hold the parts. */
  ghost predicate Chunked(v: View, base: CString, parts: seq<seq<byte>>)
    requires Shaped(v)
  {
    NamesFit(base, |parts|) ==> HoldsAll(v, OrderKeys(base, |parts|), parts)
  }

  /** Joining what the ordered keys hold gives back the input. */
  lemma ReadsBack(v: View, base: CString, input: seq<byte>, size: nat)
    requires Shaped(v) && size > 0 && Chunked(v, base, Chunks(input, size))
    ensures var n := |Chunks(input, size)|;
      NamesFit(base, n) ==>
        HoldsAll(v, OrderKeys(base, n), Chunks(input, size)) && Joined(v, OrderKeys(base, n)) == input
  {
    var parts := Chunks(input, size);
    ChunksCover(input, size);
    if NamesFit(base, |parts|) {
      HoldsAllJoins(v, OrderKeys(base, |parts|), parts);
    }
  }

  /** `write_metadata`. */
  method WriteMetadata(st: Store, base: CString, chunks: nat, bytes: nat, source: seq<byte>, time: nat,
                       ghost parts: seq<seq<byte>>) returns (ok: bool)
    requires st.Valid() && AllIdle(st.view) && GoodBase(base, |parts|) && Chunked(st.view, base, parts)
    modifies st`view, st.slots, st.arena
    ensures st.Valid() && AllIdle(st.view) && Chunked(st.view, base, parts)
    ensures ok ==> Holds(st.view, base, Meta(chunks, bytes, source, time))
    ensures var size := |Meta(chunks, bytes, source, time)|;
      && (Vacancies(old(st.view)) > 0 && size < META_BUFFER && size <= st.maxVal ==> ok)
      && (size >= 512 ==> !ok && st.view == old(st.view))
  {
    var meta := Meta(chunks, bytes, source, time);
    if |meta| >= META_BUFFER { return false; }
    ghost var v := st.view;
    var rc := SetValue(st, base, meta);
    ok := rc == Ok;
    if NamesFit(base, |parts|) {
      BaseSpares(v, st.view, base, parts);
    }
  }

  /** A free slot for every chunk and one for the metadata, and metadata that fits buffer and slot. */
  predicate Enough(v: View, maxVal: nat, input: seq<byte>, source: seq<byte>, time: nat)
    requires maxVal > 0
  {
    var n := |Chunks(input, ChunkSize(maxVal))|;
    var meta := |Meta(n, |input|, source, time)|;
    n < Vacancies(v) && meta < META_BUFFER && meta <= maxVal
  }

  /** The read loop: it sets the order keys one after the other and stops at the first refusal. */
  method WriteChunks(st: Store, base: CString, input: seq<byte>, ghost keys: seq<CString>, ghost parts: seq<seq<byte>>)
    returns (ok: bool, count: nat)
    requires st.Valid() && AllIdle(st.view) && st.maxVal > 0 && parts == Chunks(input, ChunkSize(st.maxVal))
    requires |keys| == |parts| && GoodKeys(keys) && forall i :: 0 <= i < |keys| ==> keys[i] == OrderKey(base, i + 1)
    requires Settable(parts, st.maxVal)
    modifies st`view, st.slots, st.arena
    ensures st.Valid() && AllIdle(st.view)
    ensures ok ==> count == |parts| && Stored(old(st.view), st.view, keys, parts, |parts|)
    ensures !ok ==> Vacancies(old(st.view)) < |parts|
  {
    var size := ChunkSize(st.maxVal);
    var off := 0;
    count := 0;
    while off < |input|
      invariant st.Valid() && AllIdle(st.view) && Cut(input, size, off, parts, count)
      invariant Stored(old(st.view), st.view, keys, parts, count)
      decreases |input| - off
    {
      var data;
      data, off := Read(input, size, off, parts, count);
      var rc := WriteChunk(st, base, count + 1, data, old(st.view), keys, parts);
      count := count + 1;
      if rc != Ok { return false, count; }
    }
    ok := true;
  }

  /** `fread` into the chunk buffer. */
  method Read(input: seq<byte>, size: nat, off: nat, ghost parts: seq<seq<byte>>, ghost count: nat)
    returns (data: seq<byte>, off': nat)
    requires Cut(input, size, off, parts, count) && off < |input|
    ensures count < |parts| && data == parts[count] && off < off'
    ensures Cut(input, size, off', parts, count + 1)
  {
    var nread := if |input| - off < size then |input| - off else size;
    ChunksStep(input, off, size, nread, parts, count);
    data, off' := input[off..off + nread], off + nread;
  }

  /** `write_chunk`: order `order` gets the chunk. */
  method WriteChunk(st: Store, base: CString, order: nat, data: seq<byte>,
                    ghost v: View, ghost keys: seq<CString>, ghost parts: seq<seq<byte>>) returns (rc: Rc)
    requires st.Valid() && AllIdle(st.view) && Shaped(v)
    requires 0 < order <= |keys| == |parts| && GoodKeys(keys) && keys[order - 1] == OrderKey(base, order)
    requires data == parts[order - 1] && Stored(v, st.view, keys, parts, order - 1)
    modifies st`view, st.slots, st.arena
    ensures st.Valid() && AllIdle(st.view)
    ensures rc == Ok ==> Stored(v, st.view, keys, parts, order)
    ensures rc != Ok ==> Vacancies(v) < order || !(0 < |data| <= st.maxVal)
  {
    rc := StoreNext(st, OrderKey(base, order), data, v, keys, parts, order - 1);
  }

  /** The first `off` bytes of the input make up the first `count` of the parts. */
  predicate Cut(input: seq<byte>, size: nat, off: nat, parts: seq<seq<byte>>, count: nat) {
    size > 0 && off <= |input| && count <= |parts| && parts[count..] == Chunks(input[off..], size)
  }

  lemma ChunksStep(input: seq<byte>, off: nat, size: nat, nread: nat, parts: seq<seq<byte>>, count: nat)
    requires Cut(input, size, off, parts, count) && off < |input|
    requires nread == if |input| - off < size then |input| - off else size
    ensures count < |parts| && parts[count] == input[off..off + nread]
    ensures Cut(input, size, off + nread, parts, count + 1)
  {
    assert input[off..][..nread] == input[off..off + nread];
    assert input[off..][nread..] == input[off + nread..];
    assert nread == |input| - off ==> input[off..off + nread] == input[off..];
    assert parts[count] == parts[count..][0];
    assert parts[count + 1..] == parts[count..][1..];
  }
}
