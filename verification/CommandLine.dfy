/** Windows command-line quoting: the inverse of the splitting done by `CommandLineToArgvW`, whose
    rules are written out here as the reference. */
module CommandLine {

  // ----- the reference: splitting a command line -----

  function Slashes(n: nat): (r: string)
    ensures |r| == n && forall i | 0 <= i < n :: r[i] == '\\'
  {
    if n == 0 then "" else ['\\'] + Slashes(n - 1)
  }

  function Finished(inArg: bool, cur: string): seq<string> { if inArg then [cur] else [] }

  /** A run of backslashes is literal unless double quotes follow it; then each pair stands for one
      backslash, and an odd one makes the quotes literal.  Other quotes switch quoting on and off,
      and blanks outside quotes end an argument. */
  function Split(cmd: string, inArg: bool, cur: string, quoted: bool, slashes: nat): seq<string>
    decreases |cmd|
  {
    if cmd == "" then Finished(inArg, cur + Slashes(slashes))
    else if cmd[0] == '\\' then Split(cmd[1..], true, cur, quoted, slashes + 1)
    else if cmd[0] == '"' then
      var text := cur + Slashes(slashes / 2);
      if slashes % 2 == 1 then Split(cmd[1..], true, text + ['"'], quoted, 0)
      else Split(cmd[1..], true, text, !quoted, 0)
    else if (cmd[0] == ' ' || cmd[0] == '\t') && !quoted then
      Finished(inArg, cur + Slashes(slashes)) + Split(cmd[1..], false, "", false, 0)
    else Split(cmd[1..], true, cur + Slashes(slashes) + [cmd[0]], quoted, 0)
  }

  function SplitCommandLine(cmd: string): seq<string> { Split(cmd, false, "", false, 0) }

  // ----- what the quoter writes -----

  /** The rest of an argument when the last `slashes` characters written were backslashes. */
  function Escaped(s: string, slashes: nat): (r: string)
    ensures |r| <= 2 * |s| + slashes
    decreases |s|
  {
    if s == "" then Slashes(slashes)
    else if s[0] == '"' then Slashes(slashes) + ['\\', '"'] + Escaped(s[1..], 0)
    else if s[0] == '\\' then ['\\'] + Escaped(s[1..], slashes + 1)
    else [s[0]] + Escaped(s[1..], 0)
  }

  function Quoted(s: string): (r: string)
    ensures |r| <= 2 * |s| + 2
  {
    ['"'] + Escaped(s, 0) + ['"']
  }

  function Line(argv: seq<string>): string
    requires argv != []
  {
    if |argv| == 1 then Quoted(argv[0]) else Quoted(argv[0]) + [' '] + Line(argv[1..])
  }

  /** The length computed before anything is written: every character doubled, three for the quotes
      and the blank between arguments, one and two at the ends. */
  function Budget(argv: seq<string>): nat
    requires argv != []
  {
    if |argv| == 1 then 2 * |argv[0]| + 3 else 2 * |argv[0]| + 3 + Budget(argv[1..])
  }

  lemma {:induction false} LineFits(argv: seq<string>)
    requires argv != []
    ensures |Line(argv)| + 1 <= Budget(argv)
    decreases |argv|
  {
    if |argv| > 1 { LineFits(argv[1..]); }
  }

  // ----- splitting what was quoted -----

  lemma {:induction false} SplitSlashes(k: nat, rest: string, cur: string, quoted: bool, slashes: nat)
    ensures k > 0 ==> Split(Slashes(k) + rest, true, cur, quoted, slashes) == Split(rest, true, cur, quoted, slashes + k)
    ensures k == 0 ==> Slashes(k) + rest == rest
    decreases k
  {
    if k > 0 {
      var cmd := Slashes(k) + rest;
      assert cmd[0] == '\\' && cmd[1..] == Slashes(k - 1) + rest;
      SplitSlashes(k - 1, rest, cur, quoted, slashes + 1);
    }
  }

  /** Two runs of backslashes before quotes: the half of them that is kept, and the parity. */
  lemma SplitQuote(k: nat, rest: string, cur: string, quoted: bool, slashes: nat)
    ensures var n := slashes + k;
            Split(Slashes(k) + (['"'] + rest), true, cur, quoted, slashes)
            == if n % 2 == 1 then Split(rest, true, cur + Slashes(n / 2) + ['"'], quoted, 0)
               else Split(rest, true, cur + Slashes(n / 2), !quoted, 0)
  {
    SplitSlashes(k, ['"'] + rest, cur, quoted, slashes);
    assert (['"'] + rest)[1..] == rest;
  }

  lemma {:induction false} SlashesAppend(n: nat)
    ensures Slashes(n) + ['\\'] == Slashes(n + 1)
  {
    if n > 0 {
      SlashesAppend(n - 1);
      assert Slashes(n) + ['\\'] == ['\\'] + (Slashes(n - 1) + ['\\']);
    }
  }

  lemma SplitSlash(tail: string, cur: string, quoted: bool, slashes: nat)
    ensures Split(['\\'] + tail, true, cur, quoted, slashes) == Split(tail, true, cur, quoted, slashes + 1)
  {
    assert (['\\'] + tail)[1..] == tail;
  }

  lemma SplitPlain(c: char, tail: string, cur: string, slashes: nat)
    requires c != '"' && c != '\\'
    ensures Split([c] + tail, true, cur, true, slashes) == Split(tail, true, cur + Slashes(slashes) + [c], true, 0)
  {
    assert ([c] + tail)[1..] == tail;
  }

  /** The octets of an escaped argument, read inside quotes, give the argument and leave the quotes. */
  lemma {:induction false} SplitEscaped(s: string, slashes: nat, rest: string, cur: string, text: string)
    requires text == cur + (Slashes(slashes) + s)
    ensures Split(Escaped(s, slashes) + (['"'] + rest), true, cur, true, slashes) == Split(rest, true, text, false, 0)
    decreases |s|
  {
    var tail := ['"'] + rest;
    if s == "" {
      SplitQuote(slashes, rest, cur, true, slashes);
      assert Slashes(slashes) + "" == Slashes(slashes);
    } else {
      var c, t := s[0], s[1..];
      assert s == [c] + t;
      if c == '"' {
        EscapedQuoteShape(t, slashes, tail);
        SplitQuote(slashes + 1, Escaped(t, 0) + tail, cur, true, slashes);
        TextAfter(cur, slashes, c, t, text);
        SplitEscaped(t, 0, rest, cur + Slashes(slashes) + [c], text);
      } else if c == '\\' {
        EscapedSlashShape(t, slashes, tail);
        SplitSlash(Escaped(t, slashes + 1) + tail, cur, true, slashes);
        SplitEscaped(t, slashes + 1, rest, cur, text);
      } else {
        EscapedPlainShape(c, t, slashes, tail);
        SplitPlain(c, Escaped(t, 0) + tail, cur, slashes);
        TextAfter(cur, slashes, c, t, text);
        SplitEscaped(t, 0, rest, cur + Slashes(slashes) + [c], text);
      }
    }
  }

  lemma EscapedQuoteShape(t: string, slashes: nat, tail: string)
    ensures Escaped(['"'] + t, slashes) + tail == Slashes(slashes + 1) + (['"'] + (Escaped(t, 0) + tail))
  {
    var s := ['"'] + t;
    assert s[0] == '"' && s[1..] == t;
    SlashesAppend(slashes);
    assert Slashes(slashes) + ['\\', '"'] == Slashes(slashes + 1) + ['"'];
  }

  lemma EscapedSlashShape(t: string, slashes: nat, tail: string)
    ensures Escaped(['\\'] + t, slashes) + tail == ['\\'] + (Escaped(t, slashes + 1) + tail)
    ensures Slashes(slashes) + (['\\'] + t) == Slashes(slashes + 1) + t
  {
    var s := ['\\'] + t;
    assert s[0] == '\\' && s[1..] == t;
    SlashesAppend(slashes);
    assert Slashes(slashes) + ['\\'] + t == Slashes(slashes) + (['\\'] + t);
  }

  lemma EscapedPlainShape(c: char, t: string, slashes: nat, tail: string)
    requires c != '"' && c != '\\'
    ensures Escaped([c] + t, slashes) + tail == [c] + (Escaped(t, 0) + tail)
  {
    var s := [c] + t;
    assert s[0] == c && s[1..] == t;
  }

  lemma TextAfter(cur: string, slashes: nat, c: char, t: string, text: string)
    requires text == cur + (Slashes(slashes) + ([c] + t))
    ensures text == cur + Slashes(slashes) + [c] + (Slashes(0) + t)
  {
  }

  lemma SplitQuoted(s: string, rest: string)
    ensures Split(Quoted(s) + rest, false, "", false, 0) == Split(rest, true, s, false, 0)
  {
    var cmd := Quoted(s) + rest;
    assert cmd[0] == '"' && cmd[1..] == Escaped(s, 0) + (['"'] + rest);
    assert "" + Slashes(0) == "";
    assert "" + (Slashes(0) + s) == s;
    SplitEscaped(s, 0, rest, "", s);
  }

  /** Splitting the quoted line gives the argument list back, for every argument list. */
  lemma {:induction false} QuotingRoundTrip(argv: seq<string>)
    requires argv != []
    ensures SplitCommandLine(Line(argv)) == argv
    decreases |argv|
  {
    var s := argv[0];
    if |argv| == 1 {
      SplitQuoted(s, "");
      assert Quoted(s) + "" == Line(argv) && s + Slashes(0) == s && argv == [s];
    } else {
      var rest := [' '] + Line(argv[1..]);
      assert Line(argv) == Quoted(s) + rest;
      SplitQuoted(s, rest);
      assert rest[1..] == Line(argv[1..]) && s + Slashes(0) == s;
      QuotingRoundTrip(argv[1..]);
      assert argv == [s] + argv[1..];
    }
  }

  // ----- the quoter -----

  /** `for (; backslashes; backslashes--) *dest++ = '\\'`. */
  method PutSlashes(buf: array<char>, dest: nat, backslashes: nat) returns (next: nat)
    requires dest + backslashes <= buf.Length
    modifies buf
    ensures next == dest + backslashes && buf[..next] == old(buf[..dest]) + Slashes(backslashes)
  {
    next := dest;
    var left: nat := backslashes;
    while left > 0
      invariant left <= backslashes && next + left == dest + backslashes
      invariant buf[..next] == old(buf[..dest]) + Slashes(backslashes - left)
    {
      SlashesAppend(backslashes - left);
      buf[next] := '\\';
      next, left := next + 1, left - 1;
      assert buf[..next] == buf[..next - 1] + ['\\'];
    }
  }

  /** One argument between its quotes. */
  method PutArgument(buf: array<char>, dest: nat, s: string) returns (next: nat)
    requires dest + |Quoted(s)| <= buf.Length
    modifies buf
    ensures next == dest + |Quoted(s)| && buf[..next] == old(buf[..dest]) + Quoted(s)
  {
    ghost var target := buf[..dest] + ['"'] + Escaped(s, 0);
    buf[dest] := '"';
    next := dest + 1;
    var backslashes: nat, i := 0, 0;
    assert s[0..] == s && buf[..next] == old(buf[..dest]) + ['"'];
    while i < |s|
      invariant 0 <= i <= |s| && next <= buf.Length
      invariant buf[..next] + Escaped(s[i..], backslashes) == target
    {
      ghost var part := EscapedPart(s[i], backslashes);
      var after := if s[i] == '\\' then backslashes + 1 else 0;
      EscapedFrom(s, i, backslashes);
      Regroup(buf[..next], part, Escaped(s[i + 1..], after));
      assert next + |part| <= |target|;
      next := PutChar(buf, next, s[i], backslashes);
      backslashes := after;
      i := i + 1;
    }
    assert s[i..] == "";
    assert next + backslashes == |target|;
    next := PutSlashes(buf, next, backslashes);
    assert buf[..next] == target;
    buf[next] := '"';
    next := next + 1;
    assert buf[..next] == target + ['"'];
    Regroup(old(buf[..dest]), ['"'] + Escaped(s, 0), ['"']);
    Regroup(old(buf[..dest]), ['"'], Escaped(s, 0));
  }

  lemma Regroup(a: string, b: string, c: string)
    ensures a + (b + c) == a + b + c
  {
  }

  /** What one character adds. */
  function EscapedPart(c: char, slashes: nat): string {
    if c == '"' then Slashes(slashes) + ['\\', '"'] else [c]
  }

  lemma EscapedFrom(s: string, i: nat, slashes: nat)
    requires i < |s|
    ensures Escaped(s[i..], slashes)
         == EscapedPart(s[i], slashes) + Escaped(s[i + 1..], if s[i] == '\\' then slashes + 1 else 0)
  {
    assert s[i..][0] == s[i] && s[i..][1..] == s[i + 1..];
  }

  method PutChar(buf: array<char>, dest: nat, c: char, backslashes: nat) returns (next: nat)
    requires dest + |EscapedPart(c, backslashes)| <= buf.Length
    modifies buf
    ensures next == dest + |EscapedPart(c, backslashes)|
    ensures buf[..next] == old(buf[..dest]) + EscapedPart(c, backslashes)
  {
    if c == '"' {
      next := PutSlashes(buf, dest, backslashes);
      ghost var before := buf[..next];
      buf[next] := '\\';
      buf[next + 1] := '"';
      next := next + 2;
      assert buf[..next] == before + ['\\', '"'];
    } else {
      buf[dest] := c;
      next := dest + 1;
      assert buf[..next] == old(buf[..dest]) + [c];
    }
  }

  /** The first loop of `make_command_line`: the length of the buffer, assuming the worst. */
  method WorstCase(argv: seq<string>) returns (len: nat)
    requires argv != []
    ensures len == Budget(argv)
  {
    len := 1;
    var i := 0;
    assert argv[0..] == argv;
    while true
      invariant 0 <= i < |argv| && len >= 1 && len - 1 + Budget(argv[i..]) == Budget(argv)
      decreases |argv| - i
    {
      assert argv[i..][0] == argv[i] && argv[i..][1..] == argv[i + 1..];
      len := len + 2 * |argv[i]|;
      i := i + 1;
      if i == |argv| { break; }
      len := len + 3;
    }
    len := len + 2;
  }

  /** `make_command_line`: the buffer holds the line and its terminating zero, and everything was
      written inside the length computed beforehand. */
  method MakeCommandLine(argv: seq<string>) returns (buf: array<char>, len: nat)
    requires argv != []
    ensures buf.Length == Budget(argv) && len == |Line(argv)| && len < buf.Length
    ensures buf[..len] == Line(argv) && buf[len] == '\0'
  {
    var size := WorstCase(argv);
    LineFits(argv);
    buf := new char[size];
    var dest: nat, i: nat := 0, 0;
    assert argv[0..] == argv && buf[..0] + Line(argv) == Line(argv);
    while true
      invariant i < |argv| && dest <= buf.Length && buf[..dest] + Line(argv[i..]) == Line(argv)
      decreases |argv| - i
    {
      LineFrom(argv, i);
      Regroup(buf[..dest], Quoted(argv[i]), if i + 1 < |argv| then [' '] + Line(argv[i + 1..]) else "");
      assert dest + |Line(argv[i..])| == |Line(argv)|;
      dest := PutArgument(buf, dest, argv[i]);
      i := i + 1;
      if i == |argv| { break; }
      Regroup(buf[..dest], [' '], Line(argv[i..]));
      ghost var before := buf[..dest];
      buf[dest] := ' ';
      dest := dest + 1;
      assert buf[..dest] == before + [' '];
    }
    buf[dest] := '\0';
    len := dest;
  }

  lemma LineFrom(argv: seq<string>, i: nat)
    requires i < |argv|
    ensures Line(argv[i..]) == Quoted(argv[i]) + if i + 1 < |argv| then [' '] + Line(argv[i + 1..]) else ""
  {
    assert argv[i..][0] == argv[i] && argv[i..][1..] == argv[i + 1..];
    if i + 1 == |argv| { assert Quoted(argv[i]) + "" == Quoted(argv[i]); }
  }
}
