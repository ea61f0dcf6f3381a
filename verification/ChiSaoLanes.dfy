/** How the Chi Sao stress plan divides the key space among its writers. */
module ChiSaoLanes {

  const MAX_WRITERS := 32

  datatype Lane = Lane(start: int, len: int)
  {
    predicate Has(t: int) { start <= t < start + len }
  }

  function Clamp(writers: int): int {
    if writers < 1 then 1 else if writers > MAX_WRITERS then MAX_WRITERS else writers
  }

  predicate Owned(lanes: seq<Lane>, t: int) {
    exists w :: 0 <= w < |lanes| && lanes[w].Has(t)
  }

  /** Every lane is nonempty, the lanes cover exactly the keys below `keys`, and no key is in two of them. */
  ghost predicate Partition(lanes: seq<Lane>, keys: int) {
    && (forall w :: 0 <= w < |lanes| ==> lanes[w].len > 0)
    && (forall t :: 0 <= t < keys <==> Owned(lanes, t))
    && (forall w, x, t :: 0 <= w < |lanes| && 0 <= x < |lanes| && lanes[w].Has(t) && lanes[x].Has(t) ==> w == x)
  }

  /** The lane loop of `main`, after the clamps on the requested counts. */
  method Plan(askedWriters: int, askedKeys: int) returns (keys: int, lanes: array<Lane>)
    ensures fresh(lanes) && lanes.Length == Clamp(askedWriters)
    ensures keys == if askedKeys < lanes.Length then lanes.Length else askedKeys
    ensures Partition(lanes[..], keys)
    ensures forall w :: 0 <= w < lanes.Length - 1 ==> lanes[w].len == keys / lanes.Length
  {
    var writers := askedWriters;
    if writers < 1 { writers := 1; }
    if writers > MAX_WRITERS { writers := MAX_WRITERS; }
    keys := askedKeys;
    if keys < writers { keys := writers; }

    var base := keys / writers;
    var rem := keys % writers;
    SharesAddUp(keys, writers);
    lanes := new Lane[writers](_ => Lane(0, 0));
    var off := 0;
    for i := 0 to writers
      invariant off == Repeat(base, i) + (if i == writers then rem else 0)
      invariant Chain(lanes[..i], off)
      invariant forall w :: 0 <= w < i ==> lanes[w].len == base + (if w == writers - 1 then rem else 0)
    {
      lanes[i] := Lane(off, base + (if i == writers - 1 then rem else 0));
      assert lanes[..i + 1][..i] == lanes[..i];
      off := off + lanes[i].len;
    }
    assert lanes[..writers] == lanes[..];
    ChainPartitions(lanes[..], keys);
  }

  function Repeat(x: int, n: nat): int {
    if n == 0 then 0 else Repeat(x, n - 1) + x
  }

  lemma {:induction false} RepeatIsProduct(x: int, n: nat)
    ensures Repeat(x, n) == x * n
  {
    if n != 0 {
      RepeatIsProduct(x, n - 1);
    }
  }

  lemma SharesAddUp(keys: int, writers: int)
    requires 0 < writers <= keys
    ensures keys / writers > 0 && 0 <= keys % writers
    ensures Repeat(keys / writers, writers) + keys % writers == keys
  {
    RepeatIsProduct(keys / writers, writers);
  }

  /** Nonempty lanes laid end to end from 0 to `end`. */
  ghost predicate Chain(lanes: seq<Lane>, end: int) {
    if lanes == [] then end == 0
    else
      var last := lanes[|lanes| - 1];
      last.len > 0 && last.start + last.len == end && Chain(lanes[..|lanes| - 1], last.start)
  }

  lemma {:induction false} ChainPartitions(lanes: seq<Lane>, end: int)
    requires Chain(lanes, end)
    ensures Partition(lanes, end) && 0 <= end
  {
    if lanes != [] {
      var n := |lanes| - 1;
      var init, last := lanes[..n], lanes[n];
      ChainPartitions(init, last.start);
      forall w | 0 <= w < n
        ensures lanes[w] == init[w] && 0 < lanes[w].len
      {
      }
      forall w, t | 0 <= w < n && lanes[w].Has(t)
        ensures 0 <= t < last.start
      {
        assert init[w].Has(t) && Owned(init, t);
      }
      forall t: int {:trigger Owned(lanes, t)}
        ensures 0 <= t < end <==> Owned(lanes, t)
      {
        OwnedSplit(lanes, t);
      }
    }
  }

  lemma OwnedSplit(lanes: seq<Lane>, t: int)
    requires lanes != []
    ensures Owned(lanes, t) <==> Owned(lanes[..|lanes| - 1], t) || lanes[|lanes| - 1].Has(t)
  {
    var init := lanes[..|lanes| - 1];
    if Owned(init, t) {
      var w :| 0 <= w < |init| && init[w].Has(t);
      assert lanes[w].Has(t);
    }
    if Owned(lanes, t) && !lanes[|lanes| - 1].Has(t) {
      var w :| 0 <= w < |lanes| && lanes[w].Has(t);
      assert init[w].Has(t);
    }
  }
}
