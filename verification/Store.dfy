/** The store itself: an array of slot records beside one byte arena, updated in place by one process. */
module Store {
  import opened Bytes
  import opened Options
  import opened SlotEffects
  import opened Table
  import TableWrites
  import Fnv

  datatype SlotRec = SlotRec(hash: u64, epoch: u64, valOff: nat, valLen: nat, key: seq<byte>, emb: seq<float32>)
  {
    predicate Ok(maxVal: nat) {
      && valLen <= maxVal
      && |key| == KEY_MAX && key[KEY_MAX - 1] == 0
      && |emb| == EMBED_DIM
    }
  }

  // ---- Geometry --------------------------------------------------------------------------------

  const OFFSET_LIMIT := 0x1_0000_0000

  /** `S[i].val_off`: the product is truncated to 32 bits. */
  function ValOff(i: nat, maxVal: nat): nat {
    (i * maxVal) % OFFSET_LIMIT
  }

  predicate RegionsApart(n: nat, maxVal: nat) {
    forall i, j :: 0 <= i < j < n ==>
      ValOff(i, maxVal) + maxVal <= ValOff(j, maxVal) || ValOff(j, maxVal) + maxVal <= ValOff(i, maxVal)
  }

  lemma ProductsOrdered(i: nat, j: nat, maxVal: nat)
    requires i < j
    ensures i * maxVal + maxVal <= j * maxVal
  {
    assert (j - i - 1) * maxVal >= 0;
    assert j * maxVal == i * maxVal + maxVal + (j - i - 1) * maxVal;
  }

  lemma OffsetsExact(i: nat, n: nat, maxVal: nat)
    requires i < n && (n - 1) * maxVal < OFFSET_LIMIT
    ensures ValOff(i, maxVal) == i * maxVal && i * maxVal + maxVal <= n * maxVal
  {
    if i < n - 1 {
      ProductsOrdered(i, n - 1, maxVal);
    }
    ProductsOrdered(i, n, maxVal);
  }

  /** The first product that does not fit 32 bits wraps into the region of slot 0. */
  lemma {:induction false} FirstWrap(i: nat, maxVal: nat) returns (j: nat)
    requires 0 < maxVal < OFFSET_LIMIT && i * maxVal >= OFFSET_LIMIT
    ensures 0 < j <= i && ValOff(j, maxVal) < maxVal
  {
    assert i > 0;
    assert (i - 1) * maxVal == i * maxVal - maxVal;
    if (i - 1) * maxVal >= OFFSET_LIMIT {
      j := FirstWrap(i - 1, maxVal);
    } else {
      j := i;
    }
  }

  /** Slot regions are pairwise disjoint exactly when the last offset still fits 32 bits. */
  lemma RegionsApartIff(n: nat, maxVal: nat)
    requires 0 < n && 0 < maxVal < OFFSET_LIMIT
    ensures RegionsApart(n, maxVal) <==> (n - 1) * maxVal < OFFSET_LIMIT
  {
    if (n - 1) * maxVal < OFFSET_LIMIT {
      forall i, j | 0 <= i < j < n
        ensures ValOff(i, maxVal) + maxVal <= ValOff(j, maxVal)
      {
        OffsetsExact(i, n, maxVal);
        OffsetsExact(j, n, maxVal);
        ProductsOrdered(i, j, maxVal);
      }
    } else {
      var j := FirstWrap(n - 1, maxVal);
      assert ValOff(0, maxVal) == 0;
      assert 0 < j < n && ValOff(j, maxVal) < maxVal;
    }
  }

  // ---- Records and arena as a table ------------------------------------------------------------

  predicate Geometry(recs: seq<SlotRec>, mem: seq<byte>, maxVal: nat) {
    && |recs| > 0
    && (forall i :: 0 <= i < |recs| ==> recs[i].Ok(maxVal) && recs[i].valOff + maxVal <= |mem|)
    && (forall i, j :: 0 <= i < j < |recs| ==> recs[i].valOff + maxVal <= recs[j].valOff)
  }

  function CellOf(rec: SlotRec, mem: seq<byte>, maxVal: nat): Cell
    requires rec.valOff + maxVal <= |mem|
  {
    Cell(Content(rec.hash, rec.key, rec.valLen, mem[rec.valOff..rec.valOff + maxVal], rec.emb), rec.epoch)
  }

  function ViewOf(recs: seq<SlotRec>, mem: seq<byte>, maxVal: nat): (v: View)
    requires Geometry(recs, mem, maxVal)
    ensures |v| == |recs| && Fits(v, maxVal)
    ensures forall i :: 0 <= i < |recs| ==> v[i] == CellOf(recs[i], mem, maxVal)
  {
    seq(|recs|, i requires 0 <= i < |recs| => CellOf(recs[i], mem, maxVal))
  }

  lemma SpliceInside(mem: seq<byte>, lo: nat, n: nat, off: nat, data: seq<byte>)
    requires off + |data| <= n && lo + n <= |mem|
    ensures Splice(mem, lo + off, data)[lo..lo + n] == Splice(mem[lo..lo + n], off, data)
  {
  }

  lemma SpliceOutside(mem: seq<byte>, at: nat, data: seq<byte>, lo: nat, hi: nat)
    requires at + |data| <= |mem| && lo <= hi <= |mem| && (hi <= at || at + |data| <= lo)
    ensures Splice(mem, at, data)[lo..hi] == mem[lo..hi]
  {
  }

  /** Writing inside slot `s`'s region changes that slot's bytes and no other slot. */
  lemma PokeArena(recs: seq<SlotRec>, mem: seq<byte>, maxVal: nat, s: nat, off: nat, data: seq<byte>)
    requires Geometry(recs, mem, maxVal) && s < |recs| && off + |data| <= maxVal
    ensures var mem' := Splice(mem, recs[s].valOff + off, data);
      var cell := CellOf(recs[s], mem, maxVal);
      && Geometry(recs, mem', maxVal)
      && ViewOf(recs, mem', maxVal)
         == ViewOf(recs, mem, maxVal)[s := cell.(c := cell.c.(bytes := Splice(cell.c.bytes, off, data)))]
  {
    var mem' := Splice(mem, recs[s].valOff + off, data);
    var cell := CellOf(recs[s], mem, maxVal);
    forall i | 0 <= i < |recs|
      ensures mem'[recs[i].valOff..recs[i].valOff + maxVal]
           == if i == s then Splice(cell.c.bytes, off, data) else mem[recs[i].valOff..recs[i].valOff + maxVal]
    {
      if i == s {
        SpliceInside(mem, recs[s].valOff, maxVal, off, data);
      } else {
        SpliceOutside(mem, recs[s].valOff + off, data, recs[i].valOff, recs[i].valOff + maxVal);
      }
    }
    assert ViewOf(recs, mem', maxVal)
        == ViewOf(recs, mem, maxVal)[s := cell.(c := cell.c.(bytes := Splice(cell.c.bytes, off, data)))];
  }

  lemma PokeSlot(recs: seq<SlotRec>, mem: seq<byte>, maxVal: nat, s: nat, rec: SlotRec)
    requires Geometry(recs, mem, maxVal) && s < |recs|
    requires rec.valOff == recs[s].valOff && rec.Ok(maxVal)
    ensures Geometry(recs[s := rec], mem, maxVal)
    ensures ViewOf(recs[s := rec], mem, maxVal) == ViewOf(recs, mem, maxVal)[s := CellOf(rec, mem, maxVal)]
  {
  }

  /** Every slot empty and every byte of the arena zero. */
  predicate Blank(v: View)
    requires Shaped(v)
  {
    forall s :: 0 <= s < |v| ==> v[s].c.hash == 0 && v[s].c.len == 0 && v[s].c.bytes == Zeros(|v[s].c.bytes|)
  }

  /** No slot has been written since the store was created. */
  predicate Untouched(v: View) {
    forall s :: 0 <= s < |v| ==> v[s].epoch == 0
  }

  function BlankRec(i: nat, maxVal: nat): SlotRec {
    SlotRec(0, 0, ValOff(i, maxVal), 0, Zeros(KEY_MAX), ZeroVector())
  }

  lemma BlankGeometry(recs: seq<SlotRec>, mem: seq<byte>, maxVal: nat)
    requires |recs| > 0 && (|recs| - 1) * maxVal < OFFSET_LIMIT
    requires forall i :: 0 <= i < |recs| ==> recs[i] == BlankRec(i, maxVal)
    requires mem == Zeros(|recs| * maxVal)
    ensures Geometry(recs, mem, maxVal)
    ensures var v := ViewOf(recs, mem, maxVal);
      AllIdle(v) && Blank(v) && Untouched(v)
  {
    var n := |recs|;
    forall i | 0 <= i < n
      ensures recs[i].valOff == i * maxVal && i * maxVal + maxVal <= |mem|
    {
      OffsetsExact(i, n, maxVal);
    }
    forall i, j | 0 <= i < j < n
      ensures recs[i].valOff + maxVal <= recs[j].valOff
    {
      ProductsOrdered(i, j, maxVal);
    }
  }

  /** The table after a write that changed nothing but the epoch. */
  function Touched(v: View, s: nat): View
    requires s < |v|
  {
    v[s := Cell(v[s].c, Bumped(v[s].epoch))]
  }

  lemma SpliceFront(mem: seq<byte>, data: seq<byte>)
    requires |data| <= |mem|
    ensures Splice(mem, 0, data) == data + mem[|data|..]
  {
    assert mem[..0] + data == data;
  }

  class Store {
    const slots: array<SlotRec>
    const arena: array<byte>
    const maxVal: nat
    var autoScrub: bool
    var hybridScrub: bool

    /** The table the records and the arena represent. */
    ghost var view: View

    ghost predicate Valid()
      reads this, slots, arena
      ensures Valid() ==> |view| == slots.Length && Fits(view, maxVal)
    {
      && Geometry(slots[..], arena[..], maxVal)
      && view == ViewOf(slots[..], arena[..], maxVal)
    }

    ghost function Mode(): ScrubMode
      reads this
    {
      if !autoScrub then NoScrub else if hybridScrub then HybridScrub else FullScrub
    }

    /** `splinter_create`: every slot empty, the hybrid scrub on. */
    constructor (n: nat, maxVal: nat)
      requires 0 < n && 0 < maxVal && (n - 1) * maxVal < OFFSET_LIMIT
      ensures Valid() && fresh(slots) && fresh(arena) && this.maxVal == maxVal && slots.Length == n
      ensures AllIdle(view) && Blank(view) && Untouched(view) && autoScrub && hybridScrub
    {
      assert n * maxVal >= 0;
      this.maxVal := maxVal;
      view := [Cell(Content(0, [], 0, [], []), 0)];
      autoScrub := true;
      hybridScrub := true;
      slots := new SlotRec[n](i requires 0 <= i < n => BlankRec(i, maxVal));
      arena := new byte[n * maxVal](_ => 0);
      new;
      assert arena[..] == Zeros(n * maxVal);
      BlankGeometry(slots[..], arena[..], maxVal);
      view := ViewOf(slots[..], arena[..], maxVal);
    }

    /** A store into the arena inside the region of slot `s`. */
    method PutBytes(s: nat, off: nat, data: seq<byte>)
      requires Valid() && s < slots.Length && off + |data| <= maxVal
      modifies `view, arena
      ensures Valid()
      ensures var cell := old(view)[s];
        view == old(view)[s := cell.(c := cell.c.(bytes := Splice(cell.c.bytes, off, data)))]
    {
      ghost var recs, mem := slots[..], arena[..];
      PokeArena(recs, mem, maxVal, s, off, data);
      Memcpy(arena, slots[s].valOff + off, data);
      assert slots[..] == recs && arena[..] == Splice(mem, recs[s].valOff + off, data);
      view := ViewOf(slots[..], arena[..], maxVal);
    }

    /** `memset` to zero inside the region of slot `s`. */
    method ZeroBytes(s: nat, off: nat, n: nat)
      requires Valid() && s < slots.Length && off + n <= maxVal
      modifies `view, arena
      ensures Valid()
      ensures var cell := old(view)[s];
        view == old(view)[s := cell.(c := cell.c.(bytes := Splice(cell.c.bytes, off, Zeros(n))))]
    {
      ghost var recs, mem := slots[..], arena[..];
      PokeArena(recs, mem, maxVal, s, off, Zeros(n));
      Memset(arena, slots[s].valOff + off, n);
      assert slots[..] == recs && arena[..] == Splice(mem, recs[s].valOff + off, Zeros(n));
      view := ViewOf(slots[..], arena[..], maxVal);
    }

    /** A store into the record of slot `s`; its region stays where it is. */
    method PutRec(s: nat, rec: SlotRec)
      requires Valid() && s < slots.Length
      requires rec.valOff == slots[s].valOff && rec.Ok(maxVal)
      modifies `view, slots
      ensures Valid() && slots[s] == rec
      ensures view == old(view)[s := Cell(
        Content(rec.hash, rec.key, rec.valLen, old(view)[s].c.bytes, rec.emb), rec.epoch)]
    {
      PokeSlot(slots[..], arena[..], maxVal, s, rec);
      ghost var recs := slots[..];
      slots[s] := rec;
      assert slots[..] == recs[s := rec];
      view := ViewOf(slots[..], arena[..], maxVal);
    }

    /** `splinter_set_mop`; mode 2 leaves the hybrid bit as it was. */
    method SetMop(mode: nat) returns (ok: bool)
      requires Valid()
      modifies `autoScrub, `hybridScrub
      ensures Valid() && ok == (mode <= 2)
      ensures autoScrub == if mode == 0 then false else if mode <= 2 then true else old(autoScrub)
      ensures hybridScrub == if mode == 0 then false else if mode == 1 then true else old(hybridScrub)
    {
      match mode {
        case 0 => autoScrub, hybridScrub := false, false;
        case 1 => autoScrub, hybridScrub := true, true;
        case 2 => autoScrub := true;
        case _ => return false;
      }
      return true;
    }

    /** The probe loop of `splinter_set`: the first empty or matching slot that is not mid-write. */
    method ScanClaim(key: CString, h: u64) returns (t: Option<nat>, contended: bool)
      requires Valid() && h == Fnv.Hash(key)
      ensures t == Target(view, key, true)
      ensures t.None? ==> contended == Contended(view, key)
    {
      contended := false;
      for i := 0 to slots.Length
        invariant forall g :: 0 <= g < i ==> !Stops(view[ProbeSlot(|view|, key, g)], key, true)
        invariant contended <==> exists g :: 0 <= g < i && Busy(view, key, g)
      {
        var s := ProbeFrom(h, slots.Length, i);
        assert view[s] == CellOf(slots[s], arena[..], maxVal);
        if slots[s].hash == 0 || (slots[s].hash == h && KeyEquals(slots[s].key, key)) {
          if slots[s].epoch % 2 == 1 {
            assert Busy(view, key, i);
            contended := true;
            continue;
          }
          FirstStopIs(view, key, true, i);
          return Some(s), contended;
        }
      }
      FirstStopIs(view, key, true, |view|);
      t := None;
    }

    /** The probe loop of every lookup: the first slot whose hash and key match. */
    method ScanMatch(key: CString) returns (t: Option<nat>)
      requires Valid()
      ensures t == Target(view, key, false)
    {
      var h := Fnv.Fnv1a(key);
      for i := 0 to slots.Length
        invariant forall g :: 0 <= g < i ==> !Stops(view[ProbeSlot(|view|, key, g)], key, false)
      {
        var s := ProbeFrom(h, slots.Length, i);
        assert view[s] == CellOf(slots[s], arena[..], maxVal);
        if slots[s].hash == h && KeyEquals(slots[s].key, key) {
          FirstStopIs(view, key, false, i);
          return Some(s);
        }
      }
      FirstStopIs(view, key, false, |view|);
      t := None;
    }

    method Set(key: CString, val: seq<byte>) returns (rc: Rc)
      requires Valid()
      modifies `view, slots, arena
      ensures Valid()
      ensures rc == SetRc(old(view), maxVal, key, val)
      ensures view == SetView(old(view), maxVal, key, val, Mode())
    {
      if |val| == 0 { return Einval; }
      if |val| > maxVal { return Emsgsize; }
      var h := Fnv.Fnv1a(key);
      var t, contended := ScanClaim(key, h);
      if t.None? {
        return if contended then Eagain else Enospc;
      }
      WriteValue(t.value, h, key, val);
      rc := Ok;
    }

    /** The critical section of `splinter_set`. */
    method WriteValue(s: nat, h: u64, key: CString, val: seq<byte>)
      requires Valid() && s < slots.Length && 0 < |val| <= maxVal && h == Fnv.Hash(key)
      modifies `view, slots, arena
      ensures Valid()
      ensures view == old(view)[s := Cell(
        Effect(SlotEffects.Set(key, val, Mode(), old(view)[s].c.hash == 0), old(view)[s].c, maxVal),
        Bumped(old(view)[s].epoch))]
    {
      assert view[s] == CellOf(slots[s], arena[..], maxVal);
      var claimed := slots[s].hash == 0;
      PutRec(s, slots[s].(epoch := Ticked(slots[s].epoch)));
      FillSlot(s, h, key, val, claimed);
      PutRec(s, slots[s].(epoch := Ticked(slots[s].epoch)));
    }

    method FillSlot(s: nat, h: u64, key: CString, val: seq<byte>, claimed: bool)
      requires Valid() && s < slots.Length && 0 < |val| <= maxVal && h == Fnv.Hash(key)
      modifies `view, slots, arena
      ensures Valid() && slots[s].epoch == old(slots[s].epoch)
      ensures var cell := old(view)[s];
        view == old(view)[s := cell.(c := Effect(SlotEffects.Set(key, val, Mode(), claimed), cell.c, maxVal))]
    {
      ScrubAndCopy(s, val);
      assert view[s] == CellOf(slots[s], arena[..], maxVal);
      PutRec(s, slots[s].(valLen := |val|));
      Relabel(s, h, key, claimed);
    }

    method ScrubAndCopy(s: nat, val: seq<byte>)
      requires Valid() && s < slots.Length && |val| <= maxVal
      modifies `view, arena
      ensures Valid()
      ensures var cell := old(view)[s];
        view == old(view)[s := cell.(c := cell.c.(bytes := SetRegion(cell.c.bytes, val, Mode())))]
    {
      if autoScrub {
        if hybridScrub {
          var n := (|val| + 63) / 64 * 64;
          if n > maxVal { n := maxVal; }
          ZeroBytes(s, 0, n);
        } else {
          ZeroBytes(s, 0, maxVal);
        }
      }
      ghost var bytes := old(view)[s].c.bytes;
      assert view[s].c.bytes == Splice(bytes, 0, Zeros(ScrubLen(Mode(), |val|, maxVal)));
      PutBytes(s, 0, val);
    }

    method Relabel(s: nat, h: u64, key: CString, claimed: bool)
      requires Valid() && s < slots.Length
      modifies `view, slots
      ensures Valid() && slots[s].epoch == old(slots[s].epoch)
      ensures var cell := old(view)[s];
        view == old(view)[s := cell.(c := cell.c.(
          hash := h, key := PadKey(key), emb := if claimed then ZeroVector() else cell.c.emb))]
    {
      assert view[s] == CellOf(slots[s], arena[..], maxVal);
      if claimed {
        PutRec(s, slots[s].(emb := ZeroVector()));
      }
      PutRec(s, slots[s].(key := PadKey(key)));
      PutRec(s, slots[s].(hash := h));
    }

    /** `splinter_get`: copies into `buf` when the caller passed one; `len` is `*out_sz`. */
    method Get(key: CString, buf: array?<byte>) returns (rc: Rc, len: nat)
      requires Valid() && buf != arena
      modifies buf
      ensures Valid()
      ensures rc == GetRc(view, key, if buf == null then None else Some(buf.Length))
      ensures rc == Ok || rc == Emsgsize ==> len == view[Target(view, key, false).value].c.len
      ensures buf != null && rc == Ok ==>
        buf[..] == view[Target(view, key, false).value].c.Value() + old(buf[..])[len..]
      ensures buf != null && rc != Ok ==> buf[..] == old(buf[..])
    {
      var t := ScanMatch(key);
      if t.None? { return NotFound, 0; }
      var s := t.value;
      assert view[s] == CellOf(slots[s], arena[..], maxVal);
      if slots[s].epoch % 2 == 1 { return Eagain, 0; }
      len := slots[s].valLen;
      if buf != null {
        if buf.Length < len { return Emsgsize, len; }
        CopyOut(s, buf);
      }
      rc := Ok;
    }

    method CopyOut(s: nat, buf: array<byte>)
      requires Valid() && buf != arena && s < slots.Length && slots[s].valLen <= buf.Length
      modifies buf
      ensures buf[..] == view[s].c.Value() + old(buf[..])[slots[s].valLen..]
    {
      assert view[s] == CellOf(slots[s], arena[..], maxVal);
      var val := arena[slots[s].valOff..slots[s].valOff + slots[s].valLen];
      assert val == view[s].c.Value();
      Memcpy(buf, 0, val);
      SpliceFront(old(buf[..]), val);
    }

    method Append(key: CString, data: seq<byte>) returns (rc: Rc, newLen: nat)
      requires Valid()
      modifies `view, slots, arena
      ensures Valid()
      ensures rc == AppendRc(old(view), maxVal, key, data)
      ensures view == AppendView(old(view), maxVal, key, data)
      ensures rc == Ok ==>
        newLen == old(view)[Target(old(view), key, false).value].c.len + |data|
    {
      if |data| == 0 { return BadCall, 0; }
      var t := ScanMatch(key);
      if t.None? { return NotFound, 0; }
      assert view[t.value] == CellOf(slots[t.value], arena[..], maxVal);
      if slots[t.value].epoch % 2 == 1 { return Eagain, 0; }
      rc, newLen := ExtendValue(t.value, data);
    }

    /** The critical section of `splinter_append`. */
    method ExtendValue(s: nat, data: seq<byte>) returns (rc: Rc, newLen: nat)
      requires Valid() && s < slots.Length && 0 < |data|
      modifies `view, slots, arena
      ensures Valid()
      ensures rc == if old(view)[s].c.len + |data| > maxVal then Emsgsize else Ok
      ensures rc == Ok ==> newLen == old(view)[s].c.len + |data|
      ensures view == old(view)[s := Cell(
        Effect(SlotEffects.Append(data), old(view)[s].c, maxVal), Bumped(old(view)[s].epoch))]
    {
      assert view[s] == CellOf(slots[s], arena[..], maxVal);
      PutRec(s, slots[s].(epoch := Ticked(slots[s].epoch)));
      var cur := slots[s].valLen;
      if cur + |data| > maxVal {
        PutRec(s, slots[s].(epoch := Ticked(slots[s].epoch)));
        return Emsgsize, 0;
      }
      PutBytes(s, cur, data);
      newLen := cur + |data|;
      PutRec(s, slots[s].(valLen := newLen));
      PutRec(s, slots[s].(epoch := Ticked(slots[s].epoch)));
      rc := Ok;
    }

    /**
     `splinter_append` for a caller that asks for `len` bytes without having them: it ends at the
     64-bit length test, or goes on to a copy of bytes that are not there, past which nothing is modelled.
     */
    method AppendUnbacked(key: CString, len: u64) returns (rc: Rc, copies: bool)
      requires Valid()
      modifies `view, slots, arena
      ensures Valid()
      ensures var t := Target(old(view), key, false);
        && (t.None? ==> rc == NotFound && !copies && view == old(view))
        && (t.Some? && !old(view)[t.value].Idle() ==> rc == Eagain && !copies && view == old(view))
        && (t.Some? && old(view)[t.value].Idle() ==>
              && rc == Emsgsize && (copies <==> (old(view)[t.value].c.len + len) % MOD64 <= maxVal)
              && (!copies ==> view == Touched(old(view), t.value)))
    {
      copies := false;
      var t := ScanMatch(key);
      if t.None? { return NotFound, false; }
      assert view[t.value] == CellOf(slots[t.value], arena[..], maxVal);
      if slots[t.value].epoch % 2 == 1 { return Eagain, false; }
      copies := TestLength(t.value, len);
      rc := Emsgsize;
    }

    method TestLength(s: nat, len: u64) returns (copies: bool)
      requires Valid() && s < slots.Length
      modifies `view, slots
      ensures Valid() && (copies <==> (old(view)[s].c.len + len) % MOD64 <= maxVal)
      ensures !copies ==> view == Touched(old(view), s)
    {
      assert view[s] == CellOf(slots[s], arena[..], maxVal);
      PutRec(s, slots[s].(epoch := Ticked(slots[s].epoch)));
      copies := (slots[s].valLen + len) % MOD64 <= maxVal;
      if copies { return; }
      PutRec(s, slots[s].(epoch := Ticked(slots[s].epoch)));
    }

    method SetEmbedding(key: CString, vec: seq<float32>) returns (rc: Rc)
      requires Valid() && |vec| == EMBED_DIM
      modifies `view, slots, arena
      ensures Valid() && rc == TableWrites.WriteRc(old(view), maxVal, key, SlotEffects.SetEmbedding(vec))
      ensures view == TableWrites.WriteView(old(view), maxVal, key, SlotEffects.SetEmbedding(vec))
    {
      var t := ScanMatch(key);
      if t.None? { return NotFound; }
      assert view[t.value] == CellOf(slots[t.value], arena[..], maxVal);
      if slots[t.value].epoch % 2 == 1 { return Eagain; }
      PutRec(t.value, slots[t.value].(epoch := Ticked(slots[t.value].epoch)));
      PutRec(t.value, slots[t.value].(emb := vec));
      PutRec(t.value, slots[t.value].(epoch := Ticked(slots[t.value].epoch)));
      rc := Ok;
    }

    /** `splinter_integer_op`; `typed` tells whether the slot found carries the BIGUINT type. */
    method IntegerOp(key: CString, op: WordOp, mask: u64, typed: bool) returns (rc: Rc)
      requires Valid() && 8 <= maxVal
      modifies `view, slots, arena
      ensures Valid()
      ensures rc == if Target(old(view), key, false).Some? && !typed then Eprototype
                    else TableWrites.WriteRc(old(view), maxVal, key, SlotEffects.IntegerOp(op, mask))
      ensures view == if !typed then old(view)
                      else TableWrites.WriteView(old(view), maxVal, key, SlotEffects.IntegerOp(op, mask))
    {
      var t := ScanMatch(key);
      if t.None? { return NotFound; }
      assert view[t.value] == CellOf(slots[t.value], arena[..], maxVal);
      if !typed { return Eprototype; }
      if slots[t.value].epoch % 2 == 1 { return Eagain; }
      UpdateWord(t.value, op, mask);
      rc := Ok;
    }

    /** The critical section of `splinter_integer_op`. */
    method UpdateWord(s: nat, op: WordOp, mask: u64)
      requires Valid() && s < slots.Length && 8 <= maxVal
      modifies `view, slots, arena
      ensures Valid()
      ensures view == old(view)[s := Cell(
        Effect(SlotEffects.IntegerOp(op, mask), old(view)[s].c, maxVal), Bumped(old(view)[s].epoch))]
    {
      assert view[s] == CellOf(slots[s], arena[..], maxVal);
      PutRec(s, slots[s].(epoch := Ticked(slots[s].epoch)));
      var off := slots[s].valOff;
      var word := Word(arena[off..off + 8]);
      assert arena[off..off + 8] == view[s].c.bytes[..8] by {
        assert view[s] == CellOf(slots[s], arena[..], maxVal);
      }
      PutBytes(s, 0, WordBytes(ApplyWord(op, word, mask), 8));
      PutRec(s, slots[s].(epoch := Ticked(slots[s].epoch)));
    }

    method BumpSlot(key: CString) returns (rc: Rc)
      requires Valid()
      modifies `view, slots, arena
      ensures Valid() && rc == TableWrites.WriteRc(old(view), maxVal, key, Bump)
      ensures view == TableWrites.WriteView(old(view), maxVal, key, Bump)
    {
      var t := ScanMatch(key);
      if t.None? { return NotFound; }
      assert view[t.value] == CellOf(slots[t.value], arena[..], maxVal);
      if slots[t.value].epoch % 2 == 1 { return Eagain; }
      PutRec(t.value, slots[t.value].(epoch := Ticked(slots[t.value].epoch)));
      PutRec(t.value, slots[t.value].(epoch := Ticked(slots[t.value].epoch)));
      rc := Ok;
    }

    method Unset(key: CString) returns (rc: Rc, len: nat)
      requires Valid()
      modifies `view, slots, arena
      ensures Valid()
      ensures rc == UnsetRc(old(view), maxVal, key)
      ensures rc == Ok ==> len == old(view)[Target(old(view), key, false).value].c.len
      ensures view == UnsetView(old(view), maxVal, key, autoScrub)
    {
      var t := ScanMatch(key);
      if t.None? { return NotFound, 0; }
      assert view[t.value] == CellOf(slots[t.value], arena[..], maxVal);
      if slots[t.value].epoch % 2 == 1 { return Eagain, 0; }
      len := slots[t.value].valLen;
      Tear(t.value);
      rc := Ok;
    }

    /** The teardown of `splinter_unset`. */
    method Tear(s: nat)
      requires Valid() && s < slots.Length
      modifies `view, slots, arena
      ensures Valid()
      ensures view == old(view)[s := UnsetCell(old(view)[s].c, autoScrub)]
    {
      EraseKey(s);
      PutRec(s, slots[s].(epoch := 0));
      PutRec(s, slots[s].(valLen := 0));
      PutRec(s, slots[s].(emb := ZeroVector()));
      assert Bumped(0) == 2;
      PutRec(s, slots[s].(epoch := Bumped(slots[s].epoch)));
    }

    method EraseKey(s: nat)
      requires Valid() && s < slots.Length
      modifies `view, slots, arena
      ensures Valid() && slots[s].hash == 0
      ensures var was := old(view)[s].c;
        view[s].c.bytes == UnsetCell(was, autoScrub).c.bytes && slots[s].key == UnsetCell(was, autoScrub).c.key
      ensures view == old(view)[s := view[s]]
    {
      assert view[s] == CellOf(slots[s], arena[..], maxVal);
      PutRec(s, slots[s].(hash := 0));
      if autoScrub {
        ghost var bytes := view[s].c.bytes;
        ZeroBytes(s, 0, maxVal);
        assert Splice(bytes, 0, Zeros(maxVal)) == Zeros(maxVal);
        PutRec(s, slots[s].(key := Zeros(KEY_MAX)));
      } else {
        PutRec(s, slots[s].(key := slots[s].key[0 := 0]));
      }
    }

    method Purge()
      requires Valid()
      modifies `view, slots, arena
      ensures Valid()
      ensures view == PurgeView(old(view), maxVal)
    {
      ghost var v := view;
      for i := 0 to slots.Length
        invariant Valid() && |view| == |v|
        invariant forall g :: 0 <= g < |v| ==>
          view[g] == if g < i then PurgeCell(v[g], maxVal) else v[g]
      {
        PurgeSlot(i);
      }
    }

    /** One turn of the loop: a slot that is mid-write is passed over. */
    method PurgeSlot(s: nat)
      requires Valid() && s < slots.Length
      modifies `view, slots, arena
      ensures Valid()
      ensures view == old(view)[s := PurgeCell(old(view)[s], maxVal)]
    {
      assert view[s] == CellOf(slots[s], arena[..], maxVal);
      if slots[s].epoch % 2 == 0 {
        ScrubSlot(s);
      }
    }

    method ScrubSlot(s: nat)
      requires Valid() && s < slots.Length && view[s].Idle()
      modifies `view, slots, arena
      ensures Valid()
      ensures view == old(view)[s := PurgeCell(old(view)[s], maxVal)]
    {
      assert view[s] == CellOf(slots[s], arena[..], maxVal);
      ghost var bytes := view[s].c.bytes;
      assert ClearFrom(bytes, maxVal) == bytes;
      PutRec(s, slots[s].(epoch := Ticked(slots[s].epoch)));
      var len := slots[s].valLen;
      if slots[s].hash == 0 {
        ZeroBytes(s, 0, maxVal);
      } else if len < maxVal {
        ZeroBytes(s, len, maxVal - len);
      }
      PutRec(s, slots[s].(epoch := Ticked(slots[s].epoch)));
    }
  }
}
