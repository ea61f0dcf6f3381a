/** The 64-bit FNV-1a hash of draft-eastlake-fnv, section 2. */
module Fnv {
  import opened Bytes

  const OFFSET_BASIS: u64 := 14695981039346656037

  /** `h ^ b`: the byte touches only the eight low bits of the state. */
  function XorLow(h: u64, b: byte): (r: u64)
    ensures r / 256 == h / 256
  {
    BitwiseBound((x, y) => x != y, h % 256, b as int, 8);
    assert Pow2(8) == 256;
    h / 256 * 256 + Xor(h % 256, b as int)
  }

  /** The wrapping 64-bit product with the FNV prime. */
  function TimesPrime(x: u64): u64 {
    (x * 1099511628211) % MOD64
  }

  function Mix(h: u64, b: byte): u64 {
    TimesPrime(XorLow(h, b))
  }

  function HashFrom(h: u64, s: seq<byte>): u64
    decreases s
  {
    if s == [] then h else HashFrom(Mix(h, s[0]), s[1..])
  }

  function Hash(s: seq<byte>): u64 {
    HashFrom(OFFSET_BASIS, s)
  }

  lemma KnownXor()
    ensures Xor(0x25, 97) == 0x44
  {
    assert Xor(9, 24) == 17;
  }

  /** The published test vectors for the empty string and for "a". */
  lemma KnownHashes()
    ensures Hash([]) == 0xcbf2_9ce4_8422_2325 && Hash([97]) == 0xaf63_dc4c_8601_ec8c
  {
    KnownXor();
    assert XorLow(OFFSET_BASIS, 97) == 0xcbf2_9ce4_8422_2344;
    assert Mix(OFFSET_BASIS, 97) == 0xaf63_dc4c_8601_ec8c;
    assert Hash([97]) == HashFrom(Mix(OFFSET_BASIS, 97), [97][1..]);
  }

  method Fnv1a(s: CString) returns (h: u64)
    ensures h == Hash(s)
  {
    h := OFFSET_BASIS;
    for j := 0 to |s|
      invariant HashFrom(h, s[j..]) == Hash(s)
    {
      assert s[j..][1..] == s[j + 1..];
      h := TimesPrime(XorLow(h, s[j]));
    }
  }

  /** The prime is odd, so it has an inverse modulo 2^64 and the wrapping product loses nothing. */
  lemma TimesPrimeInjective(x: u64, y: u64)
    requires TimesPrime(x) == TimesPrime(y)
    ensures x == y
  {
    var q := x * 1099511628211 / MOD64 - y * 1099511628211 / MOD64;
    assert (x - y) * 1099511628211 == q * MOD64;
    var k := 1099511628211 * 14886173955864302971 / MOD64;
    assert 1099511628211 * 14886173955864302971 == k * MOD64 + 1;
    assert x - y == (q * 14886173955864302971 - (x - y) * k) * MOD64;
  }

  lemma XorLowInjective(h: u64, g: u64, a: byte, b: byte)
    ensures XorLow(h, a) == XorLow(g, a) ==> h == g
    ensures XorLow(h, a) == XorLow(h, b) ==> a == b
  {
    var l, m, x, y := h % 256, g % 256, a as int, b as int;
    XorUndoes(l, x);
    XorUndoes(m, x);
    XorCommutes(l, x);
    XorCommutes(l, y);
    XorUndoes(x, l);
    XorUndoes(y, l);
    ByteOfXorLow(h, a);
    ByteOfXorLow(g, a);
    ByteOfXorLow(h, b);
  }

  lemma ByteOfXorLow(h: u64, a: byte)
    ensures XorLow(h, a) % 256 == Xor(h % 256, a as int)
  {
    BitwiseBound((x, y) => x != y, h % 256, a as int, 8);
    assert Pow2(8) == 256;
  }

  /** One step is an injection of the state for a fixed byte, and of the byte for a fixed state. */
  lemma MixInjective(h: u64, g: u64, a: byte, b: byte)
    ensures Mix(h, a) == Mix(g, a) ==> h == g
    ensures Mix(h, a) == Mix(h, b) ==> a == b
  {
    if Mix(h, a) == Mix(g, a) {
      TimesPrimeInjective(XorLow(h, a), XorLow(g, a));
    }
    if Mix(h, a) == Mix(h, b) {
      TimesPrimeInjective(XorLow(h, a), XorLow(h, b));
    }
    XorLowInjective(h, g, a, b);
  }

  lemma {:induction false} HashFromInjective(h: u64, g: u64, s: seq<byte>)
    requires h != g
    ensures HashFrom(h, s) != HashFrom(g, s)
    decreases s
  {
    if s != [] {
      MixInjective(h, g, s[0], s[0]);
      HashFromInjective(Mix(h, s[0]), Mix(g, s[0]), s[1..]);
    }
  }

  /** Two keys of one length that differ in exactly one byte never collide. */
  lemma {:induction false} OneByteApartNeverCollide(h: u64, s: seq<byte>, t: seq<byte>, at: nat)
    requires |s| == |t| && at < |s| && s[at] != t[at]
    requires forall j :: 0 <= j < |s| && j != at ==> s[j] == t[j]
    ensures HashFrom(h, s) != HashFrom(h, t)
    decreases s
  {
    if at == 0 {
      MixInjective(h, h, s[0], t[0]);
      assert s[1..] == t[1..];
      HashFromInjective(Mix(h, s[0]), Mix(h, t[0]), s[1..]);
    } else {
      OneByteApartNeverCollide(Mix(h, s[0]), s[1..], t[1..], at - 1);
    }
  }

  lemma {:induction false} HashFromAppend(h: u64, s: seq<byte>, suffix: seq<byte>)
    ensures HashFrom(h, s + suffix) == HashFrom(HashFrom(h, s), suffix)
    decreases s
  {
    if s == [] {
      assert s + suffix == suffix;
    } else {
      assert (s + suffix)[1..] == s[1..] + suffix;
      HashFromAppend(Mix(h, s[0]), s[1..], suffix);
    }
  }

  /** A common suffix neither makes nor breaks a collision: `base.i` names collide iff their bases do. */
  lemma CommonSuffixKeepsCollisions(s: seq<byte>, t: seq<byte>, suffix: seq<byte>)
    ensures Hash(s + suffix) == Hash(t + suffix) <==> Hash(s) == Hash(t)
  {
    HashFromAppend(OFFSET_BASIS, s, suffix);
    HashFromAppend(OFFSET_BASIS, t, suffix);
    if Hash(s) != Hash(t) {
      HashFromInjective(Hash(s), Hash(t), suffix);
    }
  }
}
