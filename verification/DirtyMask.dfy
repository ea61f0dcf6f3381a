/** The event bus: slots share the bits of a fixed dirty mask, writers set bits, a consumer takes words. */
module DirtyMask {
  import opened Bytes
  import opened Bits
  import opened Division

  const BITS := 1024
  const WORDS := 16

  type Mask = m: seq<u64> | |m| == WORDS witness seq(WORDS, _ => 0)

  // ---- Striping --------------------------------------------------------------------------------

  /** `recompute_dirty_stripe`. */
  function Stripe(slots: nat): nat {
    if slots == 0 then 1 else (slots + BITS - 1) / BITS
  }

  function BitOf(slots: nat, slot: nat): nat
    requires Stripe(slots) > 0
  {
    slot / Stripe(slots)
  }

  /** Every slot has a bit, bit `b` stands for one contiguous stripe, and no narrower stripe would do. */
  lemma StripesPartition(slots: nat, slot: nat, b: nat)
    requires slot < slots
    ensures Stripe(slots) > 0 && BitOf(slots, slot) < BITS
    ensures BitOf(slots, slot) == b <==> b * Stripe(slots) <= slot < (b + 1) * Stripe(slots)
    ensures Stripe(slots) * 1024 >= slots > (Stripe(slots) - 1) * 1024
  {
    var w := Stripe(slots);
    assert w * BITS >= slots;
    DivIs(slot, w, b);
    DivIs(slot, w, slot / w);
    TimesMonotone(BITS, slot / w, w);
  }

  /** Every slot has a bit of its own exactly in a store of at most as many slots as the mask has bits. */
  lemma SmallStoreIsExact(slots: nat)
    requires slots > 0
    ensures Stripe(slots) == 1 <==> slots <= 1024
    ensures (forall s, t :: 0 <= s < t < slots ==> BitOf(slots, s) != BitOf(slots, t)) <==> slots <= 1024
  {
    if slots > BITS {
      StripesPartition(slots, 0, 0);
      StripesPartition(slots, 1, 0);
      assert BitOf(slots, 0) == BitOf(slots, 1);
    }
  }

  // ---- The mask --------------------------------------------------------------------------------

  predicate Dirty(m: Mask, b: nat)
    requires b < BITS
  {
    BitAt(m[b / 64], b % 64)
  }

  /** `fetch_or` of one bit. */
  function Marked(m: Mask, b: nat): (m': Mask)
    requires b < BITS
    ensures forall c :: 0 <= c < BITS ==> (Dirty(m', c) <==> c == b || Dirty(m, c))
  {
    m[b / 64 := WordOr(m[b / 64], Bit(b % 64))]
  }

  /** `fetch_and` of 0. */
  function Taken(m: Mask, w: nat): (m': Mask)
    requires w < WORDS
    ensures forall c :: 0 <= c < BITS ==> (Dirty(m', c) <==> c / 64 != w && Dirty(m, c))
  {
    forall j: nat ensures !BitAt(0, j) { NoBits(j); }
    m[w := 0]
  }

  class EventBus {
    const mask: array<u64>
    const slots: nat
    var stripe: nat
    var armed: bool

    ghost predicate Valid()
      reads this
    {
      mask.Length == WORDS && stripe == Stripe(slots)
    }

    constructor (slots: nat)
      ensures Valid() && fresh(mask) && this.slots == slots && !armed
      ensures forall b :: 0 <= b < BITS ==> !Dirty(mask[..], b)
    {
      this.slots := slots;
      mask := new u64[WORDS](_ => 0);
      stripe := if slots == 0 then 1 else (slots + BITS - 1) / BITS;
      armed := false;
      new;
      forall j: nat ensures !BitAt(0, j) { NoBits(j); }
    }

    /** `splinter_event_bus_init` as far as notifies are concerned. */
    method Arm()
      requires Valid()
      modifies `armed
      ensures Valid() && armed
    {
      armed := true;
    }

    /** `splinter_event_bus_notify`: nothing happens in a process that did not arm the bus. */
    method Notify(slot: nat)
      requires Valid() && slot < slots
      modifies mask
      ensures BitOf(slots, slot) < BITS
      ensures mask[..] == if armed then Marked(old(mask[..]), BitOf(slots, slot)) else old(mask[..])
    {
      StripesPartition(slots, slot, 0);
      if !armed { return; }
      var mapped := slot / stripe;
      mask[mapped / 64] := WordOr(mask[mapped / 64], Bit(mapped % 64));
    }

    /** `splinter_event_bus_take_dirty`. */
    method TakeDirty(out: array<u64>, words: nat) returns (n: nat)
      requires Valid() && words <= out.Length && out != mask
      modifies mask, out
      ensures n == if words < WORDS then words else WORDS
      ensures forall i :: 0 <= i < out.Length ==> out[i] == if i < n then old(mask[i]) else old(out[i])
      ensures forall i :: 0 <= i < WORDS ==> mask[i] == if i < n then 0 else old(mask[i])
    {
      n := if words < WORDS then words else WORDS;
      for i := 0 to n
        invariant forall j :: 0 <= j < out.Length ==> out[j] == if j < i then old(mask[j]) else old(out[j])
        invariant forall j :: 0 <= j < WORDS ==> mask[j] == if j < i then 0 else old(mask[j])
      {
        out[i], mask[i] := mask[i], 0;
      }
    }
  }

  function Zeroes(n: nat): (r: seq<u64>)
    ensures |r| == n
  {
    seq(n, _ => 0)
  }

  // ---- Interleavings of writers and a consumer -------------------------------------------------

  /** An atomic access to the mask by some process: a writer's notify, or a take of one word. */
  datatype Event = Notify(slot: nat, armed: bool) | Take(word: nat)

  predicate Legal(slots: nat, e: Event) {
    match e
    case Notify(slot, _) => slot < slots
    case Take(w) => w < WORDS
  }

  predicate AllLegal(slots: nat, run: seq<Event>) {
    forall i :: 0 <= i < |run| ==> Legal(slots, run[i])
  }

  /** The event notifies the stripe of bit `b` on an armed bus. */
  predicate Sets(slots: nat, e: Event, b: nat) {
    Stripe(slots) > 0 && e.Notify? && e.armed && BitOf(slots, e.slot) == b
  }

  function Step(slots: nat, m: Mask, e: Event): (m': Mask)
    requires Legal(slots, e)
    ensures forall c :: 0 <= c < BITS ==>
      (Dirty(m', c) <==> Sets(slots, e, c) || (Dirty(m, c) && !(e.Take? && e.word == c / 64)))
  {
    match e
    case Notify(slot, armed) =>
      StripesPartition(slots, slot, 0);
      if armed then Marked(m, BitOf(slots, slot)) else m
    case Take(w) => Taken(m, w)
  }

  /** The mask after the first `k` events of a run that starts with a clean mask. */
  function MaskAt(slots: nat, run: seq<Event>, k: nat): Mask
    requires AllLegal(slots, run) && k <= |run|
  {
    if k == 0 then Zeroes(WORDS) else Step(slots, MaskAt(slots, run, k - 1), run[k - 1])
  }

  /** Event `k` is a take that reports bit `b`. */
  predicate Reports(slots: nat, run: seq<Event>, k: nat, b: nat)
    requires AllLegal(slots, run) && k < |run| && b < BITS
  {
    run[k].Take? && run[k].word == b / 64 && BitAt(MaskAt(slots, run, k)[run[k].word], b % 64)
  }

  lemma CleanStart(slots: nat, run: seq<Event>, b: nat)
    requires AllLegal(slots, run) && b < BITS
    ensures !Dirty(MaskAt(slots, run, 0), b)
  {
    NoBits(b % 64);
  }

  /** No notification is lost: it is still pending, or some later take has reported its bit. */
  lemma {:induction false} NothingLost(slots: nat, run: seq<Event>, i: nat, b: nat, k: nat)
    requires AllLegal(slots, run) && i < k <= |run| && b < BITS && Sets(slots, run[i], b)
    ensures Dirty(MaskAt(slots, run, k), b) || exists j :: i < j < k && Reports(slots, run, j, b)
  {
    if k > i + 1 {
      NothingLost(slots, run, i, b, k - 1);
      if Dirty(MaskAt(slots, run, k - 1), b) && !Dirty(MaskAt(slots, run, k), b) {
        assert Reports(slots, run, k - 1, b);
      }
    }
  }

  /** A notify of bit `b` before event `k` that no take of its word has followed. */
  ghost predicate Unreported(slots: nat, run: seq<Event>, b: nat, k: nat)
    requires k <= |run|
  {
    exists i :: 0 <= i < k && Sets(slots, run[i], b) &&
      forall j :: i < j < k ==> !(run[j].Take? && run[j].word == b / 64)
  }

  /** A bit is pending exactly when it was notified after the last take of its word. */
  lemma {:induction false} PendingIff(slots: nat, run: seq<Event>, b: nat, k: nat)
    requires AllLegal(slots, run) && k <= |run| && b < BITS
    ensures Dirty(MaskAt(slots, run, k), b) <==> Unreported(slots, run, b, k)
  {
    if k == 0 {
      CleanStart(slots, run, b);
    } else {
      PendingIff(slots, run, b, k - 1);
      UnreportedStep(slots, run, b, k);
    }
  }

  lemma UnreportedStep(slots: nat, run: seq<Event>, b: nat, k: nat)
    requires 0 < k <= |run|
    ensures Unreported(slots, run, b, k) <==>
      Sets(slots, run[k - 1], b)
      || (Unreported(slots, run, b, k - 1) && !(run[k - 1].Take? && run[k - 1].word == b / 64))
  {
    if Unreported(slots, run, b, k - 1) && !(run[k - 1].Take? && run[k - 1].word == b / 64) {
      var i :| 0 <= i < k - 1 && Sets(slots, run[i], b) &&
        forall j :: i < j < k - 1 ==> !(run[j].Take? && run[j].word == b / 64);
      assert forall j :: i < j < k ==> !(run[j].Take? && run[j].word == b / 64);
    }
  }

  /** What was reported before event `k`, together with what is pending, is exactly what was notified. */
  lemma {:induction false} ReportedPlusPending(slots: nat, run: seq<Event>, b: nat, k: nat)
    requires AllLegal(slots, run) && k <= |run| && b < BITS
    ensures (Dirty(MaskAt(slots, run, k), b) || exists j :: 0 <= j < k && Reports(slots, run, j, b))
      <==> exists i :: 0 <= i < k && Sets(slots, run[i], b)
  {
    if k == 0 {
      CleanStart(slots, run, b);
    } else {
      ReportedPlusPending(slots, run, b, k - 1);
      if Dirty(MaskAt(slots, run, k - 1), b) && !Dirty(MaskAt(slots, run, k), b) {
        assert Reports(slots, run, k - 1, b);
      }
    }
  }

  /** How many of the first `k` events turn bit `b` on. */
  function Rises(slots: nat, run: seq<Event>, b: nat, k: nat): nat
    requires AllLegal(slots, run) && k <= |run| && b < BITS
  {
    if k == 0 then 0
    else
      var rises := !Dirty(MaskAt(slots, run, k - 1), b) && Dirty(MaskAt(slots, run, k), b);
      Rises(slots, run, b, k - 1) + if rises then 1 else 0
  }

  function ReportCount(slots: nat, run: seq<Event>, b: nat, k: nat): nat
    requires AllLegal(slots, run) && k <= |run| && b < BITS
  {
    if k == 0 then 0
    else ReportCount(slots, run, b, k - 1) + if Reports(slots, run, k - 1, b) then 1 else 0
  }

  /** Every time a bit turns on, exactly one take reports it, or it is still on. */
  lemma {:induction false} EachRiseTakenOnce(slots: nat, run: seq<Event>, b: nat, k: nat)
    requires AllLegal(slots, run) && k <= |run| && b < BITS
    ensures Rises(slots, run, b, k)
         == ReportCount(slots, run, b, k) + if Dirty(MaskAt(slots, run, k), b) then 1 else 0
  {
    if k == 0 {
      CleanStart(slots, run, b);
    } else {
      EachRiseTakenOnce(slots, run, b, k - 1);
    }
  }
}
