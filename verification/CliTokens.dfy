/** The command line's tokenizer and the printer that puts the quotes back for the history. */
module CliTokens {
  import opened Seqs

  /** `isspace` in the C locale: the space, and tab, newline, vertical tab, form feed and carriage return. */
  predicate IsSpace(c: char)
    ensures IsSpace(c) <==> c as int in {32, 9, 10, 11, 12, 13}
  {
    c == ' ' || ('\t' <= c <= '\r')
  }

  predicate Spaceless(s: string) {
    forall j :: 0 <= j < |s| ==> !IsSpace(s[j])
  }

  // ---- The tokenizer ---------------------------------------------------------------------------

  /** Where a quoted token that starts after its opening quote ends. */
  function QuotedLen(s: string): (n: nat)
    ensures n <= |s|
    ensures n < |s| ==> s[n] == '"'
  {
    if s == [] || s[0] == '"' then 0
    else if s[0] == '\\' && |s| > 1 then 2 + QuotedLen(s[2..])
    else 1 + QuotedLen(s[1..])
  }

  function Unescape(s: string): (r: string)
    ensures |r| <= |s|
  {
    if s == [] then []
    else if s[0] == '\\' && |s| > 1 then [s[1]] + Unescape(s[2..])
    else [s[0]] + Unescape(s[1..])
  }

  /** Where an unquoted token ends. */
  function WordLen(s: string): (n: nat)
    ensures n <= |s| && Spaceless(s[..n])
    ensures n < |s| ==> IsSpace(s[n])
  {
    if s == [] || IsSpace(s[0]) then 0 else 1 + WordLen(s[1..])
  }

  /** The quoted token that starts after its opening quote. */
  function Quoted(s: string): string {
    Unescape(s[..QuotedLen(s)])
  }

  function Unroll(s: string): seq<string>
    decreases |s|
  {
    if s == [] then []
    else if IsSpace(s[0]) then Unroll(s[1..])
    else if s[0] == '"' then
      var n := 1 + QuotedLen(s[1..]);
      [Quoted(s[1..])] + Unroll(if n < |s| then s[n + 1..] else [])
    else
      var n := WordLen(s);
      [s[..n]] + Unroll(s[n..])
  }

  /** `cli_unroll_argv`. */
  method UnrollArgv(input: string) returns (argv: array<string>)
    ensures argv[..] == Unroll(input)
  {
    var argc, p := 0, 0;
    argv := new string[8];
    while p < |input|
      invariant p <= |input| && argc <= argv.Length && argv.Length > 0 && fresh(argv)
      invariant argv[..argc] + Unroll(input[p..]) == Unroll(input)
      decreases |input| - p
    {
      p := SkipSpace(input, p);
      if p == |input| {
        break;
      }
      ghost var done, rest := argv[..argc], Unroll(input[p..]);
      var token;
      token, p := NextToken(input, p);
      Regroup(done, [token], Unroll(input[p..]));
      argv := Pushed(argv, argc, token);
      argc := argc + 1;
    }
    argv := Resized(argv, argc, argc);
  }

  /** Stores one more token, doubling a full array first. */
  method Pushed(a: array<string>, used: nat, token: string) returns (b: array<string>)
    requires used <= a.Length && a.Length > 0
    modifies a
    ensures b == a || fresh(b)
    ensures used < b.Length && b[..used + 1] == old(a[..used]) + [token]
  {
    b := a;
    if used >= a.Length {
      b := Resized(a, used, a.Length * 2);
    }
    b[used] := token;
    assert b[..used] == old(a[..used]);
  }

  /** `realloc`. */
  method Resized(a: array<string>, used: nat, cap: nat) returns (b: array<string>)
    requires used <= a.Length && used <= cap
    ensures fresh(b) && b.Length == cap && b[..used] == a[..used]
  {
    b := new string[cap];
    for i := 0 to used
      invariant b[..i] == a[..i]
    {
      b[i] := a[i];
    }
  }

  method NextToken(input: string, start: nat) returns (token: string, p: nat)
    requires start < |input| && !IsSpace(input[start])
    ensures start < p <= |input|
    ensures Unroll(input[start..]) == [token] + Unroll(input[p..])
  {
    if input[start] == '"' {
      token, p := QuotedToken(input, start + 1);
    } else {
      token, p := PlainToken(input, start);
    }
  }

  method SkipSpace(input: string, start: nat) returns (p: nat)
    requires start <= |input|
    ensures start <= p <= |input| && (p < |input| ==> !IsSpace(input[p]))
    ensures Unroll(input[p..]) == Unroll(input[start..])
  {
    p := start;
    while p < |input| && IsSpace(input[p])
      invariant start <= p <= |input|
      invariant Unroll(input[p..]) == Unroll(input[start..])
    {
      assert input[p..][1..] == input[p + 1..];
      p := p + 1;
    }
  }

  method PlainToken(input: string, start: nat) returns (token: string, p: nat)
    requires start < |input| && !IsSpace(input[start]) && input[start] != '"'
    ensures start < p <= |input|
    ensures Unroll(input[start..]) == [token] + Unroll(input[p..])
  {
    p := start;
    while p < |input| && !IsSpace(input[p])
      invariant start <= p <= |input|
      invariant WordLen(input[start..]) == p - start + WordLen(input[p..])
    {
      assert input[p..][1..] == input[p + 1..];
      p := p + 1;
    }
    token := input[start..p];
    assert input[start..][..p - start] == token;
    assert input[start..][p - start..] == input[p..];
  }

  /** A quoted token: find its end, then copy it without the backslashes. */
  method QuotedToken(input: string, start: nat) returns (token: string, p: nat)
    requires 0 < start <= |input| && input[start - 1] == '"'
    ensures start <= p <= |input|
    ensures Unroll(input[start - 1..]) == [token] + Unroll(input[p..])
  {
    var end := QuotedEnd(input, start);
    token := Unescaped(input[start..end]);
    p := if end < |input| then end + 1 else end;
    QuotedSlice(input, start, end, p);
  }

  method QuotedEnd(input: string, start: nat) returns (p: nat)
    requires start <= |input|
    ensures start <= p <= |input| && QuotedLen(input[start..]) == p - start
  {
    ghost var len := QuotedLen(input[start..]);
    p := start;
    while p < |input| && input[p] != '"'
      invariant start <= p <= |input|
      invariant len == p - start + QuotedLen(input[p..])
    {
      QuotedLenStep(input, p);
      p := p + if input[p] == '\\' && p + 1 < |input| then 2 else 1;
    }
  }

  lemma QuotedLenStep(input: string, p: nat)
    requires p < |input| && input[p] != '"'
    ensures var step := if input[p] == '\\' && p + 1 < |input| then 2 else 1;
      QuotedLen(input[p..]) == step + QuotedLen(input[p + step..])
  {
    assert input[p..][1..] == input[p + 1..];
    assert p + 1 < |input| ==> input[p..][2..] == input[p + 2..];
  }

  lemma QuotedSlice(input: string, start: nat, end: nat, next: nat)
    requires 0 < start <= end <= |input| && input[start - 1] == '"'
    requires QuotedLen(input[start..]) == end - start
    requires next == if end < |input| then end + 1 else end
    ensures Unroll(input[start - 1..]) == [Unescape(input[start..end])] + Unroll(input[next..])
  {
    var s := input[start - 1..];
    assert s[1..] == input[start..];
    assert input[start..][..end - start] == input[start..end];
    assert end < |input| ==> s[end - start + 2..] == input[next..];
  }

  /** The copy loop: `w` never passes the buffer sized for the raw token. */
  method Unescaped(raw: string) returns (token: string)
    ensures token == Unescape(raw)
  {
    var buf := new char[|raw| + 1];
    var q, w := 0, 0;
    while q < |raw|
      invariant w <= q <= |raw|
      invariant buf[..w] + Unescape(raw[q..]) == Unescape(raw)
    {
      if raw[q] == '\\' && q + 1 < |raw| {
        assert raw[q..][2..] == raw[q + 2..];
        q := q + 1;
      } else {
        assert raw[q..][1..] == raw[q + 1..];
      }
      Regroup(buf[..w], [raw[q]], Unescape(raw[q + 1..]));
      w := Put(buf, w, raw[q]);
      q := q + 1;
    }
    token := buf[..w];
    buf[w] := '\0';
  }

  method Put(out: array<char>, at: nat, c: char) returns (p: nat)
    requires at < out.Length
    modifies out
    ensures p == at + 1 && out[..p] == old(out[..at]) + [c]
  {
    out[at] := c;
    p := at + 1;
  }

  // ---- The printer -----------------------------------------------------------------------------

  function Escape(a: string): (r: string)
    ensures |r| >= |a|
    ensures '"' in a ==> |r| > |a|
  {
    if a == [] then [] else (if a[0] == '"' then "\\\"" else [a[0]]) + Escape(a[1..])
  }

  function Word(a: string): string {
    if ' ' in a then "\"" + Escape(a) + "\"" else Escape(a)
  }

  function Rejoin(args: seq<string>): string
    decreases |args|, 0
  {
    if args == [] then [] else Word(args[0]) + Rest(args[1..])
  }

  /** What follows a printed word: nothing, or the separator and the other words. */
  function Rest(args: seq<string>): string
    decreases |args|, 1
  {
    if args == [] then [] else " " + Rejoin(args)
  }

  lemma {:induction false} EscapeWithoutQuotes(a: string)
    requires '"' !in a
    ensures Escape(a) == a
  {
    if a != [] {
      EscapeWithoutQuotes(a[1..]);
    }
  }

  lemma {:induction false} EscapeAppends(a: string, b: string)
    ensures Escape(a + b) == Escape(a) + Escape(b)
  {
    if a == [] {
      assert a + b == b;
    } else {
      assert (a + b)[1..] == a[1..] + b;
      EscapeAppends(a[1..], b);
    }
  }

  method Strchr(s: string, from: nat, c: char) returns (j: nat)
    requires from <= |s|
    ensures from <= j <= |s| && c !in s[from..j] && (j < |s| ==> s[j] == c)
  {
    j := from;
    while j < |s| && s[j] != c
      invariant from <= j <= |s| && c !in s[from..j]
    {
      j := j + 1;
    }
  }

  /** What one item adds to the size computed by the first pass. */
  method SizeOf(item: string) returns (size: nat)
    ensures size == |Word(item)|
  {
    var space := Strchr(item, 0, ' ');
    assert item[0..] == item;
    var quotes := 0;
    var scan := Strchr(item, 0, '"');
    ghost var from := 0;
    while scan < |item|
      invariant from <= scan <= |item|
      invariant '"' !in item[from..scan] && (scan < |item| ==> item[scan] == '"')
      invariant |Escape(item)| == from + quotes + |Escape(item[from..])|
      decreases |item| - scan
    {
      assert item[from..] == item[from..scan] + item[scan..];
      EscapeAppends(item[from..scan], item[scan..]);
      EscapeWithoutQuotes(item[from..scan]);
      assert item[scan..][1..] == item[scan + 1..];
      quotes := quotes + 1;
      from := scan + 1;
      scan := Strchr(item, scan + 1, '"');
    }
    assert item[from..] == item[from..scan];
    EscapeWithoutQuotes(item[from..]);
    size := |item| + quotes;
    if space < |item| {
      size := size + 2;
    }
    assert space == |item| ==> item[0..space] == item;
  }

  /** `cli_rejoin_args`: the second pass fills the buffer the first pass sized, to the last byte. */
  method RejoinArgs(src: seq<string>) returns (out: array<char>)
    ensures out[..] == Rejoin(src) + ['\0']
  {
    if |src| == 0 {
      out := new char[1];
      out[0] := '\0';
      return;
    }
    var total := 0;
    for i := 0 to |src|
      invariant |Rejoin(src)| == total + if i < |src| then i + |Rejoin(src[i..])| else |src| - 1
    {
      var size := SizeOf(src[i]);
      assert src[i..][1..] == src[i + 1..];
      total := total + size;
    }
    total := total + (|src| - 1) + 1;
    out := new char[total];
    var p := 0;
    for i := 0 to |src|
      invariant 0 <= p <= |Rejoin(src)| && out.Length == |Rejoin(src)| + 1
      invariant out[..p] + Rejoin(src[i..]) == Rejoin(src)
    {
      assert src[i..][1..] == src[i + 1..];
      Regroup(out[..p], Word(src[i]), Rest(src[i + 1..]));
      assert p + |Word(src[i])| + |Rest(src[i + 1..])| == |Rejoin(src)|;
      p := PutWord(out, p, src[i]);
      if i + 1 < |src| {
        Regroup(out[..p], " ", Rejoin(src[i + 1..]));
        p := Put(out, p, ' ');
      }
    }
    out[p] := '\0';
    assert out[..p] == Rejoin(src);
  }

  method PutWord(out: array<char>, at: nat, item: string) returns (p: nat)
    requires at + |Word(item)| <= out.Length
    modifies out
    ensures p == at + |Word(item)|
    ensures out[..p] == old(out[..at]) + Word(item)
  {
    var space := Strchr(item, 0, ' ');
    assert item[0..space] == item[..space];
    if space == |item| {
      assert item[..space] == item;
      p := PutEscaped(out, at, item);
    } else {
      p := PutQuoted(out, at, item);
    }
  }

  method PutQuoted(out: array<char>, at: nat, item: string) returns (p: nat)
    requires at + |Escape(item)| + 2 <= out.Length
    modifies out
    ensures p == at + |Escape(item)| + 2
    ensures out[..p] == old(out[..at]) + ("\"" + Escape(item) + "\"")
  {
    p := Put(out, at, '"');
    p := PutEscaped(out, p, item);
    p := Put(out, p, '"');
  }

  method PutEscaped(out: array<char>, at: nat, item: string) returns (p: nat)
    requires at + |Escape(item)| <= out.Length
    modifies out
    ensures p == at + |Escape(item)|
    ensures out[..p] == old(out[..at]) + Escape(item)
  {
    p := at;
    for k := 0 to |item|
      invariant p + |Escape(item[k..])| == at + |Escape(item)|
      invariant out[..p] + Escape(item[k..]) == old(out[..at]) + Escape(item)
    {
      assert item[k..][1..] == item[k + 1..];
      ghost var before := out[..p];
      if item[k] == '"' {
        p := Put(out, p, '\\');
      }
      p := Put(out, p, item[k]);
      assert out[..p] + Escape(item[k + 1..]) == before + Escape(item[k..]);
    }
  }

  // ---- Reading back what was printed -----------------------------------------------------------

  /** The arguments the printer preserves. */
  predicate Faithful(a: string) {
    if ' ' in a then '\\' !in a else a != [] && '"' !in a && Spaceless(a)
  }

  predicate Tail(t: string) {
    t == [] || t[0] == ' '
  }

  /** One step of the quoted token. */
  lemma QuotedStep(s: string)
    requires s != [] && s[0] != '"'
    ensures s[0] == '\\' && |s| > 1 ==> Quoted(s) == [s[1]] + Quoted(s[2..])
    ensures !(s[0] == '\\' && |s| > 1) ==> Quoted(s) == [s[0]] + Quoted(s[1..])
  {
    var n := QuotedLen(s);
    if s[0] == '\\' && |s| > 1 {
      assert s[..n][2..] == s[2..][..n - 2];
    } else {
      assert s[..n][1..] == s[1..][..n - 1];
    }
  }

  /** The text after the opening quote of a printed argument, up to and including what follows it. */
  function Inside(a: string, t: string): string {
    if a == [] then ['"'] + t
    else if a[0] == '"' then ['\\', '"'] + Inside(a[1..], t)
    else [a[0]] + Inside(a[1..], t)
  }

  lemma {:induction false} InsideIs(a: string, t: string)
    ensures Inside(a, t) == Escape(a) + "\"" + t
  {
    if a != [] {
      InsideIs(a[1..], t);
    }
  }

  /** How the quoted token of a printed argument starts. */
  lemma QuotedHead(a: string, t: string)
    ensures a == [] ==> Quoted(Inside(a, t)) == []
    ensures a != [] && a[0] != '\\' ==> Quoted(Inside(a, t)) == [a[0]] + Quoted(Inside(a[1..], t))
    ensures |a| == 1 && a[0] == '\\' ==> Quoted(Inside(a, t)) != [] && Quoted(Inside(a, t))[0] == '"'
    ensures |a| > 1 && a[0] == '\\' && a[1] == '"' ==> Quoted(Inside(a, t)) == "\\"
    ensures |a| > 1 && a[0] == '\\' && a[1] != '"' ==>
      Quoted(Inside(a, t)) == [a[1]] + Quoted(Inside(a[2..], t))
  {
    var x := Inside(a, t);
    if a != [] {
      QuotedStep(x);
      if a[0] != '\\' {
        assert x[if a[0] == '"' then 2 else 1..] == Inside(a[1..], t);
      } else if |a| > 1 {
        QuotedHeadEscaped(a, t);
      }
    }
  }

  lemma QuotedHeadEscaped(a: string, t: string)
    requires |a| > 1 && a[0] == '\\'
    ensures a[1] == '"' ==> Quoted(Inside(a, t)) == "\\"
    ensures a[1] != '"' ==> Quoted(Inside(a, t)) == [a[1]] + Quoted(Inside(a[2..], t))
  {
    var x, y := Inside(a, t), Inside(a[1..], t);
    QuotedStep(x);
    assert x[1..] == y && x[1] == y[0];
    assert x[2..] == y[1..];
    if a[1] == '"' {
      assert y[1..][0] == '"';
      assert QuotedLen(x[2..]) == 0;
    } else {
      assert y[1..] == Inside(a[2..], t);
    }
  }

  /** Without a backslash the quoted form reads back exactly. */
  lemma {:induction false} QuotedExact(a: string, t: string)
    requires '\\' !in a
    ensures QuotedLen(Inside(a, t)) == |Escape(a)|
    ensures Quoted(Inside(a, t)) == a
  {
    var x := Inside(a, t);
    if a != [] {
      QuotedExact(a[1..], t);
      QuotedHead(a, t);
      assert x[if a[0] == '"' then 2 else 1..] == Inside(a[1..], t);
    }
  }

  lemma {:induction false} PlainExact(a: string, t: string)
    requires Tail(t)
    ensures Spaceless(a) ==> WordLen(a + t) == |a|
    ensures !Spaceless(a) ==> WordLen(a + t) < |a|
  {
    if a == [] {
      assert a + t == t;
    } else {
      assert (a + t)[1..] == a[1..] + t;
      PlainExact(a[1..], t);
      assert Spaceless(a) <==> !IsSpace(a[0]) && Spaceless(a[1..]) by {
        assert forall j :: 0 < j < |a| ==> a[j] == a[1..][j - 1];
      }
    }
  }

  /** A faithful argument is read back as the first token, and the rest is what followed it. */
  lemma FaithfulFirst(a: string, t: string)
    requires Faithful(a) && Tail(t)
    ensures Unroll(Word(a) + t) == [a] + Unroll(t)
  {
    if ' ' in a {
      FaithfulQuoted(a, t);
    } else {
      var s := a + t;
      EscapeWithoutQuotes(a);
      PlainExact(a, t);
      assert s[|a|..] == t && s[..|a|] == a;
      assert s[0] == a[0];
    }
  }

  lemma AfterOpeningQuote(a: string, t: string)
    ensures "\"" + Escape(a) + "\"" + t == ['"'] + Inside(a, t)
  {
    InsideIs(a, t);
  }

  lemma FaithfulQuoted(a: string, t: string)
    requires '\\' !in a
    ensures Unroll("\"" + Escape(a) + "\"" + t) == [a] + Unroll(t)
  {
    var s := ['"'] + Inside(a, t);
    AfterOpeningQuote(a, t);
    QuotedExact(a, t);
    InsideIs(a, t);
    assert s[1..] == Inside(a, t);
    assert s[|Escape(a)| + 2..] == t;
  }

  /** A quoted form with extra backslashes owed never catches up. */
  lemma {:induction false} OwedBackslashes(a: string, owed: string, t: string)
    requires owed != [] && forall j :: 0 <= j < |owed| ==> owed[j] == '\\'
    ensures Quoted(Inside(a, t)) != owed + a
    decreases |a|
  {
    QuotedHead(a, t);
    assert (owed + a)[0] == '\\';
    if |a| > 1 && a[0] == '\\' && a[1] == '\\' {
      var more := owed + ['\\'];
      OwedBackslashes(a[2..], more, t);
      var q := Quoted(Inside(a[2..], t));
      assert (['\\'] + q)[1..] == q;
      assert (owed + a)[1..] == more + a[2..];
    }
  }

  /** An argument with a backslash does not survive the quotes. */
  lemma {:induction false} BackslashLost(a: string, t: string)
    requires '\\' in a
    ensures Quoted(Inside(a, t)) != a
  {
    QuotedHead(a, t);
    if a[0] != '\\' {
      BackslashLost(a[1..], t);
    } else if |a| > 1 && a[1] == '\\' {
      OwedBackslashes(a[2..], "\\", t);
      assert a[1..] == "\\" + a[2..];
    }
  }

  /** The quoted token of an argument with a space holds a space or a backslash. */
  lemma {:induction false} QuotedHoldsMark(a: string, t: string)
    requires ' ' in a
    ensures Marked(Quoted(Inside(a, t)))
    decreases |a|
  {
    QuotedHead(a, t);
    if a[0] == '\\' && a[1] != '"' && a[1] != '\\' && a[1] != ' ' {
      QuotedHoldsMark(a[2..], t);
    } else if a[0] != '\\' && a[0] != ' ' {
      QuotedHoldsMark(a[1..], t);
    }
  }

  predicate Marked(token: string) {
    ' ' in token || '\\' in token
  }

  predicate Blank(a: string) {
    forall j :: 0 <= j < |a| ==> IsSpace(a[j])
  }

  /**
   The first token of a printed line is never empty. It starts with whitespace only when it holds a
   space or a backslash, and never when the first argument is an unquoted one with some ink.
   */
  lemma {:induction false} FirstTokenShape(args: seq<string>)
    ensures StartsWell(Unroll(Rejoin(args)))
    ensures args != [] && ' ' !in args[0] && !Blank(args[0]) ==> StartsInked(Unroll(Rejoin(args)))
    decreases |args|, if args == [] then 0 else |args[0]|
  {
    if args != [] {
      var a := args[0];
      if ' ' in a {
        QuotedFirst(a, Rest(args[1..]));
        QuotedHoldsMark(a, Rest(args[1..]));
      } else if a == [] {
        FirstTokenShape(args[1..]);
        RestSkips(args[1..]);
        assert Rejoin(args) == Rest(args[1..]);
      } else if IsSpace(a[0]) {
        FirstTokenShape([a[1..]] + args[1..]);
        LeadingSpaceSkipped(args);
        assert Blank(a[1..]) ==> Blank(a) by {
          assert forall j :: 0 < j < |a| ==> a[j] == a[1..][j - 1];
        }
      } else {
        assert WordLen(Rejoin(args)) > 0;
      }
    }
  }

  predicate StartsWell(tokens: seq<string>) {
    tokens != [] ==> tokens[0] != [] && (Marked(tokens[0]) || !IsSpace(tokens[0][0]))
  }

  predicate StartsInked(tokens: seq<string>) {
    tokens != [] && tokens[0] != [] && !IsSpace(tokens[0][0])
  }

  lemma QuotedFirst(a: string, t: string)
    requires ' ' in a
    ensures Unroll(Word(a) + t) != [] && Unroll(Word(a) + t)[0] == Quoted(Inside(a, t))
  {
    AfterOpeningQuote(a, t);
    assert (['"'] + Inside(a, t))[1..] == Inside(a, t);
  }

  lemma RestSkips(args: seq<string>)
    ensures Unroll(Rest(args)) == Unroll(Rejoin(args))
  {
    if args != [] {
      assert Rest(args)[1..] == Rejoin(args);
    }
  }

  lemma LeadingSpaceSkipped(args: seq<string>)
    requires args != [] && args[0] != [] && ' ' !in args[0] && IsSpace(args[0][0])
    ensures Unroll(Rejoin(args)) == Unroll(Rejoin([args[0][1..]] + args[1..]))
  {
    var args' := [args[0][1..]] + args[1..];
    assert args'[1..] == args[1..];
    var a, t := args[0], Rest(args[1..]);
    assert Escape(a) == [a[0]] + Escape(a[1..]);
    Regroup([a[0]], Escape(a[1..]), t);
    assert Rejoin(args) == [a[0]] + Rejoin(args');
    assert Rejoin(args)[1..] == Rejoin(args');
  }

  /** An argument that is not faithful is not the first token read back. */
  lemma UnfaithfulFirst(args: seq<string>)
    requires args != [] && !Faithful(args[0])
    ensures Unroll(Rejoin(args)) == [] || Unroll(Rejoin(args))[0] != args[0]
  {
    var a, t := args[0], Rest(args[1..]);
    if ' ' in a {
      BackslashLost(a, t);
      QuotedFirst(a, t);
    } else if a == [] || IsSpace(a[0]) {
      FirstTokenShape(args);
    } else {
      PlainUnfaithful(a, t);
    }
  }

  lemma PlainUnfaithful(a: string, t: string)
    requires !Faithful(a) && ' ' !in a && a != [] && !IsSpace(a[0]) && Tail(t)
    ensures var s := Escape(a) + t; s[0] != '"' && !IsSpace(s[0]) && s[..WordLen(s)] != a
  {
    var s := Escape(a) + t;
    if Spaceless(a) {
      EscapeSpaceless(a);
      PlainExact(Escape(a), t);
      assert s[..WordLen(s)] == Escape(a);
    } else {
      var word := s[..WordLen(s)];
      assert Spaceless(word) && !Spaceless(a);
    }
  }

  lemma {:induction false} EscapeSpaceless(a: string)
    requires Spaceless(a)
    ensures Spaceless(Escape(a))
  {
    if a != [] {
      assert Spaceless(a[1..]) by {
        assert forall j :: 0 < j < |a| ==> a[j] == a[1..][j - 1];
      }
      EscapeSpaceless(a[1..]);
    }
  }

  /** Printing and reading back gives the same arguments exactly when every one of them is faithful. */
  lemma {:induction false} RoundTripIff(args: seq<string>)
    ensures Unroll(Rejoin(args)) == args <==> forall i :: 0 <= i < |args| ==> Faithful(args[i])
  {
    if args != [] {
      if !Faithful(args[0]) {
        UnfaithfulFirst(args);
      } else {
        FaithfulFirst(args[0], Rest(args[1..]));
        RestSkips(args[1..]);
        RoundTripIff(args[1..]);
        assert args == [args[0]] + args[1..];
        assert forall i :: 0 < i < |args| ==> args[i] == args[1..][i - 1];
      }
    }
  }

  // ---- The tokenizer's rules -------------------------------------------------------------------

  /** Whitespace before a token is skipped, and a line of nothing else has no token. */
  lemma SpaceSkipped(c: char, rest: string)
    requires IsSpace(c)
    ensures Unroll([c] + rest) == Unroll(rest) && Unroll([]) == []
  {
    assert ([c] + rest)[1..] == rest;
  }

  /** An unquoted token is taken as it is, backslashes and inner quotes included, up to whitespace or the end. */
  lemma PlainTokenRule(word: string, rest: string)
    requires word != [] && word[0] != '"' && Spaceless(word) && (rest == [] || IsSpace(rest[0]))
    ensures Unroll(word + rest) == [word] + Unroll(rest)
  {
    PlainEnds(word, rest);
    var s := word + rest;
    assert s[..|word|] == word && s[|word|..] == rest;
  }

  lemma {:induction false} PlainEnds(word: string, rest: string)
    requires Spaceless(word) && (rest == [] || IsSpace(rest[0]))
    ensures WordLen(word + rest) == |word|
  {
    if word == [] {
      assert word + rest == rest;
    } else {
      assert Spaceless(word[1..]) by {
        assert forall j :: 0 < j < |word| ==> word[j] == word[1..][j - 1];
      }
      assert (word + rest)[1..] == word[1..] + rest;
      PlainEnds(word[1..], rest);
    }
  }

  /** The pieces a quoted token is written with: a character, or a backslash and the character it protects. */
  datatype Piece = Bare(c: char) | Escaped(c: char)

  predicate GoodPieces(pieces: seq<Piece>) {
    forall j :: 0 <= j < |pieces| ==> pieces[j].Bare? ==> pieces[j].c != '"' && pieces[j].c != '\\'
  }

  function Written(pieces: seq<Piece>): string {
    if pieces == [] then []
    else (if pieces[0].Bare? then [pieces[0].c] else ['\\', pieces[0].c]) + Written(pieces[1..])
  }

  function Meant(pieces: seq<Piece>): string {
    if pieces == [] then [] else [pieces[0].c] + Meant(pieces[1..])
  }

  /** A closing quote, and what follows it, or the end of the line. */
  predicate Closing(t: string) {
    t == [] || t[0] == '"'
  }

  lemma {:induction false} QuotedMeans(pieces: seq<Piece>, t: string)
    requires GoodPieces(pieces) && Closing(t)
    ensures QuotedLen(Written(pieces) + t) == |Written(pieces)|
    ensures Quoted(Written(pieces) + t) == Meant(pieces)
  {
    var s := Written(pieces) + t;
    if pieces == [] {
      assert s == t;
    } else {
      var n := if pieces[0].Bare? then 1 else 2;
      assert s[n..] == Written(pieces[1..]) + t;
      QuotedMeans(pieces[1..], t);
      QuotedStep(s);
    }
  }

  /** A quoted token, the empty one included, means what its pieces mean; without a closing quote it ends the line. */
  lemma QuotedTokenRule(pieces: seq<Piece>, rest: string)
    requires GoodPieces(pieces)
    ensures Unroll(['"'] + Written(pieces) + ['"'] + rest) == [Meant(pieces)] + Unroll(rest)
    ensures Unroll(['"'] + Written(pieces)) == [Meant(pieces)]
  {
    var n := |Written(pieces)|;
    var s := ['"'] + Written(pieces) + ['"'] + rest;
    QuotedMeans(pieces, ['"'] + rest);
    assert s[1..] == Written(pieces) + (['"'] + rest);
    assert s[n + 2..] == rest;
    QuotedMeans(pieces, []);
    assert (['"'] + Written(pieces))[1..] == Written(pieces) + [];
  }
}
