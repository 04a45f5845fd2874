/** The AMQP URL parser.  It works in place: every component is decoded over the text it came from
    and ended with a zero, and the result points into the buffer. */
module Url {
  import opened Wire

  type Octets = seq<byte>

  const COLON: byte := 0x3A
  const AT: byte := 0x40
  const SLASH: byte := 0x2F
  const OPEN: byte := 0x5B
  const CLOSE: byte := 0x5D
  const PERCENT: byte := 0x25

  // ----- percent escapes -----

  function HexValue(c: byte): Option<nat> {
    if 0x30 <= c <= 0x39 then Some(c - 0x30)
    else if 0x41 <= c <= 0x46 then Some(c - 0x37)
    else if 0x61 <= c <= 0x66 then Some(c - 0x57)
    else None
  }

  predicate IsSpace(c: byte) { c == 0x20 || 9 <= c <= 13 }

  function CharAt(s: Octets, i: nat): byte { if i < |s| then s[i] else 0 }

  /** `sscanf(from, "%2x%n", ...)` with exactly two characters used and a value that fits a char.
      The conversion skips blanks and accepts a sign, so two hexadecimal digits are not the only
      form that passes. */
  function EscapeAt(s: Octets, p: nat): (r: Option<byte>)
    ensures r.Some? ==> r.value < 128 && CharAt(s, p) != 0 && CharAt(s, p + 1) != 0
  {
    var c0, c1, c2 := CharAt(s, p), CharAt(s, p + 1), CharAt(s, p + 2);
    if HexValue(c0).Some? then
      if HexValue(c1).Some? && 16 * HexValue(c0).value + HexValue(c1).value < 128
      then Some(16 * HexValue(c0).value + HexValue(c1).value)
      else None
    else if c0 == 0x2B then HexValue(c1)
    else if c0 == 0x2D then (if c1 == 0x30 then Some(0) else None)
    else if IsSpace(c0) && HexValue(c2).None? && !(c1 == 0x30 && (c2 == 0x78 || c2 == 0x58)) then HexValue(c1)
    else None
  }

  // ----- scanning for a delimiter -----

  predicate IsDelimiter(c: byte, both: bool) {
    || c == 0 || c == SLASH || c == 0x3F || c == 0x23 || c == OPEN || c == CLOSE
    || (both && (c == COLON || c == AT))
  }

  /** A zero stands somewhere from `p` on. */
  ghost predicate Terminated(s: Octets, p: nat) { exists k: nat :: p <= k < |s| && s[k] == 0 }

  lemma TerminatedAfter(s: Octets, p: nat)
    requires Terminated(s, p) && CharAt(s, p) != 0
    ensures Terminated(s, p + 1)
  {
    var k: nat :| p <= k < |s| && s[k] == 0;
    assert k != p;
  }

  /** One turn of the scanning loop: a delimiter, a bad escape, or a character that was written with
      `width` characters. */
  datatype Turn = Stop(delim: byte) | BadEscape | Take(c: byte, width: nat)

  function TurnAt(s: Octets, p: nat, both: bool): (t: Turn)
    ensures t.Stop? ==> t.delim == CharAt(s, p) && t.delim != PERCENT
    ensures t.Take? ==> (t.width == 1 || t.width == 3) && CharAt(s, p) != 0
    ensures t.Take? && t.width == 3 ==> CharAt(s, p + 1) != 0 && CharAt(s, p + 2) != 0
  {
    var c := CharAt(s, p);
    if IsDelimiter(c, both) then Stop(c)
    else if c == PERCENT then
      match EscapeAt(s, p + 1)
      case None => BadEscape
      case Some(v) => Take(v, 3)
    else Take(c, 1)
  }

  lemma TerminatedTake(s: Octets, p: nat, both: bool)
    requires Terminated(s, p)
    ensures p < |s|
    ensures TurnAt(s, p, both).Take? ==> Terminated(s, p + TurnAt(s, p, both).width)
    ensures TurnAt(s, p, both).Stop? && TurnAt(s, p, both).delim != 0 ==> Terminated(s, p + 1)
  {
    if CharAt(s, p) != 0 {
      TerminatedAfter(s, p);
      if TurnAt(s, p, both).Take? && TurnAt(s, p, both).width == 3 {
        TerminatedAfter(s, p + 1);
        TerminatedAfter(s, p + 2);
      }
    }
  }

  datatype Scanned = Scanned(text: Octets, next: nat, delim: byte)

  /** The component that starts at `p`: its decoded text, its delimiter and where scanning goes on. */
  function Scan(s: Octets, p: nat, both: bool): (r: Scanned)
    requires Terminated(s, p)
    ensures p + |r.text| < r.next <= |s|
    ensures r.delim != 0 && r.delim != PERCENT ==> Terminated(s, r.next)
    decreases |s| - p
  {
    TerminatedTake(s, p, both);
    match TurnAt(s, p, both)
    case Stop(c) => Scanned([], p + 1, c)
    case BadEscape => Scanned([], p + 1, PERCENT)
    case Take(c, width) =>
      var r := Scan(s, p + width, both);
      Scanned([c] + r.text, r.next, r.delim)
  }

  /** `buf` holds `text` at `p`, ended by a zero. */
  ghost predicate Holds(buf: Octets, p: nat, text: Octets) {
    p + |text| < |buf| && buf[p..p + |text|] == text && buf[p + |text|] == 0
  }

  /** From `p` on, `buf` is still the original string. */
  ghost predicate Untouched(buf: Octets, s: Octets, p: nat) {
    |buf| == |s| && forall i | p <= i < |s| :: buf[i] == s[i]
  }

  /** The scan of the component at `p`, with result `r`, has read up to `from` and written up to `to`. */
  ghost predicate Scanning(buf: Octets, s: Octets, p: nat, from: nat, to: nat, both: bool, r: Scanned) {
    match r
    case Scanned(text, next, delim) =>
      && p <= to <= from && Terminated(s, from) && Untouched(buf, s, from)
      && text == buf[p..to] + Scan(s, from, both).text
      && next == Scan(s, from, both).next && delim == Scan(s, from, both).delim
  }

  /** `find_delim`: decode the component at `p` over itself.  The write index never passes the read
      index, so what has not been read is untouched, and nothing before `p` changes. */
  method FindDelim(buf: array<byte>, p: nat, both: bool, ghost s: Octets) returns (next: nat, delim: byte, end: nat)
    requires Terminated(s, p) && Untouched(buf[..], s, p)
    modifies buf
    ensures var r := Scan(s, p, both);
            && delim == r.delim
            && (delim != PERCENT ==> next == r.next && end == p + |r.text|
                                     && Untouched(buf[..], s, next) && Holds(buf[..], p, r.text))
    ensures buf[..p] == old(buf[..p])
  {
    var from, to := p, p;
    ghost var r := Scan(s, p, both);
    assert buf[..][p..to] + r.text == r.text;
    while true
      invariant Scanning(buf[..], s, p, from, to, both, r)
      invariant buf[..p] == old(buf[..p])
      decreases |s| - from
    {
      var turn := ScanTurn(buf, p, from, to, both, s, r);
      if turn.Stop? { return from + 1, turn.delim, to; }
      if turn.BadEscape? { return p, PERCENT, to; }
      from, to := from + turn.width, to + 1;
    }
  }

  /** One turn of the loop. */
  method ScanTurn(buf: array<byte>, ghost p: nat, from: nat, to: nat, both: bool, ghost s: Octets, ghost r: Scanned)
    returns (turn: Turn)
    requires Scanning(buf[..], s, p, from, to, both, r)
    modifies buf
    ensures buf[..p] == old(buf[..p])
    ensures match turn
            case Stop(c) => r.delim == c && r.next == from + 1 && to == p + |r.text|
                            && Untouched(buf[..], s, from + 1) && Holds(buf[..], p, r.text)
            case BadEscape => r.delim == PERCENT
            case Take(_, width) => width > 0 && from + width <= |s| && Scanning(buf[..], s, p, from + width, to + 1, both, r)
  {
    TerminatedTake(s, from, both);
    SameTurn(buf[..], s, from, both);
    turn := TurnAt(buf[..], from, both);
    if turn.Stop? {
      EndPart(buf, s, p, from, to, both, r);
    } else if turn.Take? {
      PutChar(buf, turn.c, s, p, from, to, both, r);
    }
  }

  /** The delimiter was read: the decoded component is ended with a zero. */
  method EndPart(buf: array<byte>, ghost s: Octets, ghost p: nat, ghost from: nat, to: nat, ghost both: bool, ghost r: Scanned)
    requires Scanning(buf[..], s, p, from, to, both, r) && TurnAt(s, from, both).Stop? && from < |s|
    modifies buf
    ensures r.next == from + 1 && to == p + |r.text| && r.delim == TurnAt(s, from, both).delim
    ensures Untouched(buf[..], s, from + 1) && Holds(buf[..], p, r.text) && buf[..p] == old(buf[..p])
  {
    ScanStop(buf[..], s, p, from, to, both, r);
    ghost var before := buf[..];
    buf[to] := 0;
    assert buf[..] == before[to := 0] && buf[..][p..to] == before[p..to];
  }

  /** A character was read: it is written over what has already been read. */
  method PutChar(buf: array<byte>, c: byte, ghost s: Octets, ghost p: nat, ghost from: nat, to: nat, ghost both: bool,
                 ghost r: Scanned)
    requires Scanning(buf[..], s, p, from, to, both, r) && from < |s|
    requires TurnAt(s, from, both).Take? && c == TurnAt(s, from, both).c
    modifies buf
    ensures Scanning(buf[..], s, p, from + TurnAt(s, from, both).width, to + 1, both, r)
    ensures buf[..p] == old(buf[..p])
  {
    ghost var before := buf[..];
    buf[to] := c;
    assert buf[..] == before[to := c];
    ScanOn(before, buf[..], s, p, from, to, both, r);
  }

  lemma ScanStop(buf: Octets, s: Octets, p: nat, from: nat, to: nat, both: bool, r: Scanned)
    requires Scanning(buf, s, p, from, to, both, r) && TurnAt(s, from, both).Stop?
    ensures r == Scanned(buf[p..to], from + 1, TurnAt(s, from, both).delim)
  {
    assert buf[p..to] + [] == buf[p..to];
  }

  lemma ScanOn(buf: Octets, buf': Octets, s: Octets, p: nat, from: nat, to: nat, both: bool, r: Scanned)
    requires Scanning(buf, s, p, from, to, both, r) && TurnAt(s, from, both).Take? && to < |buf|
    requires buf' == buf[to := TurnAt(s, from, both).c]
    ensures Scanning(buf', s, p, from + TurnAt(s, from, both).width, to + 1, both, r)
  {
    var t := TurnAt(s, from, both);
    var tail := ScanTake(s, from, both);
    Regroup(buf[p..to], t.c, tail.text);
    assert buf'[p..to + 1] == buf[p..to] + [t.c];
  }

  lemma ScanTake(s: Octets, p: nat, both: bool) returns (tail: Scanned)
    requires Terminated(s, p) && TurnAt(s, p, both).Take?
    ensures var t := TurnAt(s, p, both);
            && Terminated(s, p + t.width) && tail == Scan(s, p + t.width, both)
            && Scan(s, p, both) == Scanned([t.c] + tail.text, tail.next, tail.delim)
  {
    TerminatedTake(s, p, both);
    tail := Scan(s, p + TurnAt(s, p, both).width, both);
  }

  lemma SameTurn(buf: Octets, s: Octets, p: nat, both: bool)
    requires Untouched(buf, s, p)
    ensures TurnAt(buf, p, both) == TurnAt(s, p, both)
  {
    assert CharAt(buf, p) == CharAt(s, p) && CharAt(buf, p + 1) == CharAt(s, p + 1);
    assert CharAt(buf, p + 2) == CharAt(s, p + 2) && CharAt(buf, p + 3) == CharAt(s, p + 3);
  }

  lemma Regroup(a: Octets, c: byte, b: Octets)
    ensures a + ([c] + b) == a + [c] + b
  {
  }

  // ----- the parts of a URL -----

  /** A component of the result: a default, or a place in the buffer and the text decoded there. */
  datatype Text = Default(s: Octets) | Found(pos: nat, text: Octets)

  datatype Info = Info(user: Text, password: Text, host: Text, port: nat, vhost: Text, ssl: bool)

  const GUEST := Default([0x67, 0x75, 0x65, 0x73, 0x74])
  const LOCALHOST := Default([0x6C, 0x6F, 0x63, 0x61, 0x6C, 0x68, 0x6F, 0x73, 0x74])
  const ROOT := Default([0x2F])

  /** What C reads: everything up to the first zero. */
  function CString(t: Octets): Octets {
    if t == [] || t[0] == 0 then [] else [t[0]] + CString(t[1..])
  }

  predicate AllDigits(t: Octets) { forall i | 0 <= i < |t| :: 0x30 <= t[i] <= 0x39 }

  function Decimal(t: Octets): nat
    requires AllDigits(t)
  {
    if t == [] then 0 else 10 * Decimal(t[..|t| - 1]) + (t[|t| - 1] - 0x30)
  }

  function SkipSpaces(t: Octets): Octets {
    if t != [] && IsSpace(t[0]) then SkipSpaces(t[1..]) else t
  }

  /** `strtol` up to the end of the string, and the range check behind it. */
  function PortNumber(t: Octets): Option<nat> {
    var u := SkipSpaces(t);
    var negative := u != [] && u[0] == 0x2D;
    var digits := if u != [] && (u[0] == 0x2D || u[0] == 0x2B) then u[1..] else u;
    if digits == [] || !AllDigits(digits) then None
    else if Decimal(digits) > 65535 || (negative && Decimal(digits) > 0) then None
    else Some(Decimal(digits))
  }

  /** A place that has been scanned: the component, and the delimiter and position behind it. */
  datatype Place = Place(part: Text, delim: byte, next: nat)

  function Next(s: Octets, p: nat, both: bool): (r: Option<Place>)
    requires Terminated(s, p)
    ensures r.Some? ==> r.value.part.Found? && r.value.delim != PERCENT
    ensures r.Some? && r.value.delim != 0 ==> Terminated(s, r.value.next)
  {
    var r := Scan(s, p, both);
    if r.delim == PERCENT then None else Some(Place(Found(p, r.text), r.delim, r.next))
  }

  predicate Reads(part: Text) { part.Found? && CString(part.text) != [] }

  /** User, password and host, or host and port: which of them is known only once the `@` is seen. */
  datatype Authority = Authority(user: Text, password: Text, port: Option<Text>, host: Place)

  function AuthorityAt(s: Octets, p: nat): (r: Option<Authority>)
    requires Terminated(s, p)
    ensures r.Some? ==> r.value.host.part.Found? && r.value.host.delim != PERCENT
    ensures r.Some? && r.value.host.delim != 0 ==> Terminated(s, r.value.host.next)
  {
    match Next(s, p, true)
    case None => None
    case Some(first) =>
      if first.delim == COLON then
        match Next(s, first.next, true)
        case None => None
        case Some(second) =>
          if second.delim == AT then
            (match Next(s, second.next, true)
             case None => None
             case Some(host) => Some(Authority(first.part, second.part, None, host)))
          else Some(Authority(GUEST, GUEST, Some(second.part), Place(first.part, second.delim, second.next)))
      else if first.delim == AT then
        match Next(s, first.next, true)
        case None => None
        case Some(host) => Some(Authority(first.part, GUEST, None, host))
      else Some(Authority(GUEST, GUEST, None, first))
  }

  /** The host proper: in brackets, or as scanned, or the default if nothing stands there. */
  function HostAt(s: Octets, a: Authority): (r: Option<Place>)
    requires a.host.delim != 0 ==> Terminated(s, a.host.next)
    ensures r.Some? && r.value.delim != 0 ==> r.value.delim == PERCENT || Terminated(s, r.value.next)
  {
    if a.host.delim == OPEN then
      if a.port.Some? || Reads(a.host.part) then None
      else
        match Next(s, a.host.next, false)
        case None => None
        case Some(inner) =>
          if inner.delim != CLOSE then None
          else
            match Next(s, inner.next, true)
            case None => None
            case Some(after) => if Reads(after.part) then None else Some(Place(inner.part, after.delim, after.next))
    else Some(Place(if Reads(a.host.part) then a.host.part else LOCALHOST, a.host.delim, a.host.next))
  }

  /** The port, given or not, and what follows it. */
  datatype Ported = Ported(port: nat, delim: byte, next: nat)

  function PortAt(s: Octets, port: Option<Text>, default: nat, h: Place): (r: Option<Ported>)
    requires h.delim != 0 && h.delim != PERCENT ==> Terminated(s, h.next)
    ensures r.Some? && r.value.delim != 0 && r.value.delim != PERCENT ==> Terminated(s, r.value.next)
  {
    if h.delim == COLON then
      match Next(s, h.next, true)
      case None => None
      case Some(p) =>
        (match PortNumber(CString(p.part.text))
         case None => None
         case Some(n) => Some(Ported(n, p.delim, p.next)))
    else
      match port
      case Some(Found(_, t)) =>
        (match PortNumber(CString(t))
         case None => None
         case Some(n) => Some(Ported(n, h.delim, h.next)))
      case _ => Some(Ported(default, h.delim, h.next))
  }

  function VhostAt(s: Octets, p: Ported): Option<Text>
    requires p.delim != 0 && p.delim != PERCENT ==> Terminated(s, p.next)
  {
    if p.delim == SLASH then
      match Next(s, p.next, true)
      case None => None
      case Some(v) => if v.delim == 0 then Some(v.part) else None
    else if p.delim == 0 then Some(ROOT)
    else None
  }

  const AMQP: Octets := [0x61, 0x6D, 0x71, 0x70, 0x3A, 0x2F, 0x2F]
  const AMQPS: Octets := [0x61, 0x6D, 0x71, 0x70, 0x73, 0x3A, 0x2F, 0x2F]

  /** `amqp_parse_url` behind the scheme. */
  function ParseAt(s: Octets, p: nat, ssl: bool): Option<Info>
    requires Terminated(s, p)
  {
    match AuthorityAt(s, p)
    case None => None
    case Some(a) =>
      match HostAt(s, a)
      case None => None
      case Some(h) =>
        match PortAt(s, a.port, if ssl then 5671 else 5672, h)
        case None => None
        case Some(port) =>
          match VhostAt(s, port)
          case None => None
          case Some(v) => Some(Info(a.user, a.password, h.part, port.port, v, ssl))
  }

  lemma SchemeTerminated(s: Octets, scheme: Octets)
    requires Terminated(s, 0) && scheme <= s && forall i | 0 <= i < |scheme| :: scheme[i] != 0
    ensures Terminated(s, |scheme|)
  {
    var k: nat :| k < |s| && s[k] == 0;
    assert s[..|scheme|] == scheme;
  }

  function Parse(s: Octets): Option<Info>
    requires Terminated(s, 0)
  {
    if AMQP <= s then SchemeTerminated(s, AMQP); ParseAt(s, 7, false)
    else if AMQPS <= s then SchemeTerminated(s, AMQPS); ParseAt(s, 8, true)
    else None
  }

  // ----- the parser -----

  /** The texts in `parts` all stand in the buffer, before `limit`. */
  ghost predicate AllHold(buf: Octets, parts: seq<Text>, limit: nat) {
    forall i | 0 <= i < |parts| && parts[i].Found? ::
      parts[i].pos + |parts[i].text| < limit && Holds(buf, parts[i].pos, parts[i].text)
  }

  lemma StillHold(buf: Octets, buf': Octets, parts: seq<Text>, p: nat)
    requires AllHold(buf, parts, p) && p <= |buf| == |buf'| && buf'[..p] == buf[..p]
    ensures AllHold(buf', parts, p)
  {
    forall i | 0 <= i < |parts| && parts[i].Found? ensures Holds(buf', parts[i].pos, parts[i].text) {
      var lo, hi := parts[i].pos, parts[i].pos + |parts[i].text|;
      assert buf[lo..hi] == buf[..p][lo..hi] && buf'[lo..hi] == buf'[..p][lo..hi];
      assert buf'[hi] == buf'[..p][hi] && buf[hi] == buf[..p][hi];
    }
  }

  /** Scan one more component; the components found before it stay as they are. */
  method NextPart(buf: array<byte>, p: nat, both: bool, ghost s: Octets, ghost parts: seq<Text>)
    returns (r: Option<Place>)
    requires Terminated(s, p) && Untouched(buf[..], s, p) && AllHold(buf[..], parts, p)
    modifies buf
    ensures r == Next(s, p, both)
    ensures r.Some? ==> Untouched(buf[..], s, r.value.next) && AllHold(buf[..], parts + [r.value.part], r.value.next)
  {
    ghost var before := buf[..];
    var next, delim, end := FindDelim(buf, p, both, s);
    StillHold(before, buf[..], parts, p);
    if delim == PERCENT { return None; }
    r := Some(Place(Found(p, buf[p..end]), delim, next));
    assert AllHold(buf[..], parts + [r.value.part], next);
  }

  method ParseAuthority(buf: array<byte>, p: nat, ghost s: Octets) returns (r: Option<Authority>, ghost parts: seq<Text>)
    requires Terminated(s, p) && Untouched(buf[..], s, p)
    modifies buf
    ensures r == AuthorityAt(s, p)
    ensures r.Some? ==> var a := r.value;
            && Untouched(buf[..], s, a.host.next) && AllHold(buf[..], parts, a.host.next)
            && (a.user in parts || a.user == GUEST) && (a.password in parts || a.password == GUEST)
            && a.host.part in parts
  {
    parts := [];
    var first := NextPart(buf, p, true, s, []);
    if first.None? { return None, parts; }
    parts := parts + [first.value.part];
    if first.value.delim == COLON {
      var second := NextPart(buf, first.value.next, true, s, parts);
      if second.None? { return None, parts; }
      parts := parts + [second.value.part];
      if second.value.delim == AT {
        var host := NextPart(buf, second.value.next, true, s, parts);
        if host.None? { return None, parts; }
        parts := parts + [host.value.part];
        r := Some(Authority(first.value.part, second.value.part, None, host.value));
      } else {
        r := Some(Authority(GUEST, GUEST, Some(second.value.part),
                            Place(first.value.part, second.value.delim, second.value.next)));
      }
    } else if first.value.delim == AT {
      var host := NextPart(buf, first.value.next, true, s, parts);
      if host.None? { return None, parts; }
      parts := parts + [host.value.part];
      r := Some(Authority(first.value.part, GUEST, None, host.value));
    } else {
      r := Some(Authority(GUEST, GUEST, None, first.value));
    }
  }

  method ParseHost(buf: array<byte>, a: Authority, ghost s: Octets, ghost before: seq<Text>)
    returns (r: Option<Place>, ghost parts: seq<Text>)
    requires a.host.delim != 0 ==> Terminated(s, a.host.next)
    requires Untouched(buf[..], s, a.host.next) && AllHold(buf[..], before, a.host.next) && a.host.part in before
    modifies buf
    ensures r == HostAt(s, a)
    ensures r.Some? ==> var h := r.value;
            && Untouched(buf[..], s, h.next) && AllHold(buf[..], parts, h.next)
            && before <= parts && (h.part in parts || h.part == LOCALHOST)
  {
    parts := before;
    if a.host.delim != OPEN {
      r := Some(Place(if Reads(a.host.part) then a.host.part else LOCALHOST, a.host.delim, a.host.next));
      return;
    }
    if a.port.Some? || Reads(a.host.part) { return None, parts; }
    var inner := NextPart(buf, a.host.next, false, s, parts);
    if inner.None? || inner.value.delim != CLOSE { return None, parts; }
    parts := parts + [inner.value.part];
    var after := NextPart(buf, inner.value.next, true, s, parts);
    if after.None? || Reads(after.value.part) { return None, parts; }
    parts := parts + [after.value.part];
    r := Some(Place(inner.value.part, after.value.delim, after.value.next));
  }

  method ParsePort(buf: array<byte>, port: Option<Text>, default: nat, h: Place, ghost s: Octets, ghost before: seq<Text>)
    returns (r: Option<Ported>, ghost parts: seq<Text>)
    requires h.delim != 0 && h.delim != PERCENT ==> Terminated(s, h.next)
    requires Untouched(buf[..], s, h.next) && AllHold(buf[..], before, h.next)
    modifies buf
    ensures r == PortAt(s, port, default, h)
    ensures r.Some? ==> Untouched(buf[..], s, r.value.next) && AllHold(buf[..], parts, r.value.next) && before <= parts
  {
    parts := before;
    var at, delim, next := port, h.delim, h.next;
    if h.delim == COLON {
      var p := NextPart(buf, h.next, true, s, parts);
      if p.None? { return None, parts; }
      parts := parts + [p.value.part];
      at, delim, next := Some(p.value.part), p.value.delim, p.value.next;
    }
    var number := default;
    if at.Some? && at.value.Found? {
      var n := PortNumber(CString(at.value.text));
      if n.None? { return None, parts; }
      number := n.value;
    }
    r := Some(Ported(number, delim, next));
  }

  /** `amqp_parse_url`: the buffer is rewritten, and every component of the result that does not come
      from the defaults stands in it, ended by a zero. */
  method ParseUrl(buf: array<byte>) returns (r: Option<Info>)
    requires Terminated(buf[..], 0)
    modifies buf
    ensures r == Parse(old(buf[..]))
    ensures r.Some? ==> AllHold(buf[..], [r.value.user, r.value.password, r.value.host, r.value.vhost], buf.Length)
  {
    ghost var s := buf[..];
    var ssl := false;
    if AMQP <= buf[..] {
      SchemeTerminated(s, AMQP);
    } else if AMQPS <= buf[..] {
      SchemeTerminated(s, AMQPS);
      ssl := true;
    } else {
      return None;
    }
    r := ParseRest(buf, if ssl then 8 else 7, ssl, s);
  }

  method ParseRest(buf: array<byte>, p: nat, ssl: bool, ghost s: Octets) returns (r: Option<Info>)
    requires Terminated(s, p) && buf[..] == s
    modifies buf
    ensures r == ParseAt(s, p, ssl)
    ensures r.Some? ==> AllHold(buf[..], [r.value.user, r.value.password, r.value.host, r.value.vhost], buf.Length)
  {
    ghost var parts: seq<Text>;
    var a, h, port;
    a, parts := ParseAuthority(buf, p, s);
    if a.None? { return None; }
    h, parts := ParseHost(buf, a.value, s, parts);
    if h.None? { return None; }
    port, parts := ParsePort(buf, a.value.port, if ssl then 5671 else 5672, h.value, s, parts);
    if port.None? { return None; }
    var vhost := ROOT;
    if port.value.delim == SLASH {
      var v := NextPart(buf, port.value.next, true, s, parts);
      if v.None? || v.value.delim != 0 { return None; }
      parts := parts + [v.value.part];
      vhost := v.value.part;
    } else if port.value.delim != 0 {
      return None;
    }
    r := Some(Info(a.value.user, a.value.password, h.value.part, port.value.port, vhost, ssl));
    HoldsSome(buf[..], parts, [r.value.user, r.value.password, r.value.host, r.value.vhost]);
  }

  lemma HoldsSome(buf: Octets, parts: seq<Text>, chosen: seq<Text>)
    requires exists limit: nat :: AllHold(buf, parts, limit)
    requires forall i | 0 <= i < |chosen| :: chosen[i] in parts || chosen[i].Default?
    ensures AllHold(buf, chosen, |buf|)
  {
    var limit: nat :| AllHold(buf, parts, limit);
    forall i | 0 <= i < |chosen| && chosen[i].Found?
      ensures chosen[i].pos + |chosen[i].text| < |buf| && Holds(buf, chosen[i].pos, chosen[i].text)
    {
      var k :| 0 <= k < |parts| && parts[k] == chosen[i];
    }
  }

  /** A text without zeros that is held in the buffer is what C reads there. */
  lemma {:induction false} ReadsBack(buf: Octets, p: nat, t: Octets)
    requires Holds(buf, p, t)
    ensures CString(buf[p..]) == CString(t)
    decreases |t|
  {
    var u := buf[p..];
    if t == [] {
      assert u[0] == 0;
    } else {
      assert u[0] == t[0] by { assert buf[p..p + |t|][0] == t[0]; }
      assert u[1..] == buf[p + 1..];
      assert Holds(buf, p + 1, t[1..]) by { assert buf[p + 1..p + |t|] == buf[p..p + |t|][1..]; }
      ReadsBack(buf, p + 1, t[1..]);
    }
  }
}
