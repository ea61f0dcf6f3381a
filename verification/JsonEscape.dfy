/** Printing a value inside a JSON string, against the reading rules of section 7 of RFC 8259. */
module JsonEscape {
  import opened Bytes
  import opened Seqs
  import opened Options

  const QUOTE: byte := 0x22
  const BACKSLASH: byte := 0x5C

  /** `%x` for one digit. */
  function HexDigit(n: nat): byte
    requires n < 16
  {
    if n < 10 then (48 + n) as byte else (87 + n) as byte
  }

  /** The letter of a two-character escape for `c`, if there is one. */
  function ShortEscape(c: byte): Option<byte> {
    match c
    case 0x22 => Some(QUOTE)
    case 0x5C => Some(BACKSLASH)
    case 8 => Some(98)
    case 12 => Some(102)
    case 10 => Some(110)
    case 13 => Some(114)
    case 9 => Some(116)
    case _ => None
  }

  /** What is printed for one byte. */
  function Printed(c: byte): (r: seq<byte>)
    ensures |r| > 0
  {
    match ShortEscape(c)
    case Some(letter) => [BACKSLASH, letter]
    case None =>
      if c < 0x20 then [BACKSLASH, 117, 48, 48, HexDigit(c as nat / 16), HexDigit(c as nat % 16)] else [c]
  }

  function Escape(s: seq<byte>): seq<byte> {
    if s == [] then [] else Printed(s[0]) + Escape(s[1..])
  }

  /** `json_print_escaped`: `out` is what goes to the stream. */
  method PrintEscaped(buf: array<byte>, len: nat) returns (out: seq<byte>)
    requires len <= buf.Length
    ensures out == Escape(buf[..len])
  {
    out := [];
    for i := 0 to len
      invariant out + Escape(buf[i..len]) == Escape(buf[..len])
    {
      assert buf[i..len][1..] == buf[i + 1..len];
      Regroup(out, Printed(buf[i]), Escape(buf[i + 1..len]));
      var c := buf[i];
      match c {
        case 0x22 => out := out + [BACKSLASH, QUOTE];
        case 0x5C => out := out + [BACKSLASH, BACKSLASH];
        case 8 => out := out + [BACKSLASH, 98];
        case 12 => out := out + [BACKSLASH, 102];
        case 10 => out := out + [BACKSLASH, 110];
        case 13 => out := out + [BACKSLASH, 114];
        case 9 => out := out + [BACKSLASH, 116];
        case _ =>
          if c < 0x20 {
            out := out + [BACKSLASH, 117, 48, 48, HexDigit(c as nat / 16), HexDigit(c as nat % 16)];
          } else {
            out := out + [c];
          }
      }
    }
  }

  // ---- A reader of JSON strings ----------------------------------------------------------------

  function HexValue(c: byte): Option<nat> {
    if 48 <= c <= 57 then Some(c as nat - 48)
    else if 97 <= c <= 102 then Some(c as nat - 87)
    else if 65 <= c <= 70 then Some(c as nat - 55)
    else None
  }

  /** The byte a two-character escape with this letter stands for. */
  function LongForm(letter: byte): Option<byte> {
    match letter
    case 0x22 => Some(QUOTE)
    case 0x5C => Some(BACKSLASH)
    case 0x2F => Some(0x2F)
    case 98 => Some(8)
    case 102 => Some(12)
    case 110 => Some(10)
    case 114 => Some(13)
    case 116 => Some(9)
    case _ => None
  }

  /** The code of four hexadecimal digits. */
  function Code(d: seq<byte>): Option<nat>
    requires |d| == 4
  {
    match (HexValue(d[0]), HexValue(d[1]), HexValue(d[2]), HexValue(d[3]))
    case (Some(a), Some(b), Some(c), Some(e)) => Some(((a * 16 + b) * 16 + c) * 16 + e)
    case _ => None
  }

  /** One character of a JSON string: the byte it stands for and how many bytes it takes. */
  function ReadOne(s: seq<byte>): (r: Option<(byte, nat)>)
    requires s != []
    ensures r.Some? ==> 0 < r.value.1 <= |s|
  {
    if s[0] == QUOTE || s[0] < 0x20 then None
    else if s[0] != BACKSLASH then Some((s[0], 1))
    else if |s| >= 6 && s[1] == 117 then
      match Code(s[2..6])
      case Some(code) => if code < 0x80 then Some((code as byte, 6)) else None
      case None => None
    else if |s| >= 2 then
      match LongForm(s[1])
      case Some(c) => Some((c, 2))
      case None => None
    else None
  }

  /** Reads up to the closing quote: the bytes of the string and what follows the quote. */
  function ReadString(s: seq<byte>): Option<(seq<byte>, seq<byte>)>
    decreases |s|
  {
    if s == [] then None
    else if s[0] == QUOTE then Some(([], s[1..]))
    else
      match ReadOne(s)
      case None => None
      case Some((c, n)) =>
        match ReadString(s[n..])
        case None => None
        case Some((val, rest)) => Some(([c] + val, rest))
  }

  lemma HexRoundTrip(n: nat)
    requires n < 16
    ensures HexValue(HexDigit(n)) == Some(n)
  {
  }

  /** Each printed byte is read back as itself, whatever follows it. */
  lemma PrintedReadsBack(c: byte, rest: seq<byte>)
    ensures Printed(c)[0] != QUOTE
    ensures ReadOne(Printed(c) + rest) == Some((c, |Printed(c)|))
  {
    var s := Printed(c) + rest;
    if ShortEscape(c).None? && c < 0x20 {
      HexRoundTrip(c as nat / 16);
      HexRoundTrip(c as nat % 16);
      assert s[2..6] == [48, 48, HexDigit(c as nat / 16), HexDigit(c as nat % 16)];
    }
  }

  /** A reader gets exactly the original bytes, and stops at the quote printed after them. */
  lemma {:induction false} ReadsBack(s: seq<byte>, rest: seq<byte>)
    ensures ReadString(Escape(s) + [QUOTE] + rest) == Some((s, rest))
  {
    var t := Escape(s) + [QUOTE] + rest;
    if s == [] {
      assert t == [QUOTE] + rest;
    } else {
      var more := Escape(s[1..]) + [QUOTE] + rest;
      assert t == Printed(s[0]) + more;
      PrintedReadsBack(s[0], more);
      assert t[|Printed(s[0])|..] == more;
      ReadsBack(s[1..], rest);
      assert [s[0]] + s[1..] == s;
    }
  }

  /** Nothing printed is a raw control byte, so the output stays on one line. */
  lemma {:induction false} NoRawControl(s: seq<byte>, j: nat)
    requires j < |Escape(s)|
    ensures Escape(s)[j] >= 0x20
  {
    var n := |Printed(s[0])|;
    if j >= n {
      NoRawControl(s[1..], j - n);
    }
  }

  // ---- Text printed without escapes ------------------------------------------------------------

  /** No byte that a JSON string must escape. */
  predicate Plain(s: seq<byte>) {
    forall j :: 0 <= j < |s| ==> s[j] != QUOTE && s[j] != BACKSLASH && s[j] >= 0x20
  }

  /** Reading never gives more bytes than it takes, and as many only from plain text. */
  lemma {:induction false} ReadTakes(s: seq<byte>)
    ensures ReadString(s).Some? ==>
      var (val, rest) := ReadString(s).value;
      && |val| + 1 + |rest| <= |s|
      && (|val| + 1 + |rest| == |s| ==> Plain(val) && s == val + [QUOTE] + rest)
    decreases |s|
  {
    if ReadString(s).Some? && s[0] != QUOTE {
      ReadTakes(s[ReadOne(s).value.1..]);
    }
  }

  lemma {:induction false} PlainReads(s: seq<byte>, rest: seq<byte>)
    requires Plain(s)
    ensures ReadString(s + [QUOTE] + rest) == Some((s, rest))
  {
    var t := s + [QUOTE] + rest;
    if s == [] {
      assert t == [QUOTE] + rest;
    } else {
      assert t[1..] == s[1..] + [QUOTE] + rest;
      PlainReads(s[1..], rest);
      assert [s[0]] + s[1..] == s;
    }
  }

  /** Text printed as it is reads back exactly when it is plain. */
  lemma ReadsRawIff(s: seq<byte>, rest: seq<byte>)
    ensures ReadString(s + [QUOTE] + rest) == Some((s, rest)) <==> Plain(s)
  {
    ReadTakes(s + [QUOTE] + rest);
    if Plain(s) {
      PlainReads(s, rest);
    }
  }
}
