/** The URL parser reads back what was percent-encoded (section 2.1 of RFC 3986), in every spelling of it
    and in every form of URL: with or without user, password, host, port and virtual host, the host plain
    or in brackets, for both schemes. */
module UrlRoundTrip {
  import opened Wire
  import opened Url

  /** A character that stands for itself: none of the zero, `#`, `/`, `?`, `[`, `]`, `%`, and outside of
      brackets neither `:` nor `@`. */
  predicate Plain(c: byte, both: bool) {
    && c != 0 && c != 0x23 && c != 0x2F && c != 0x3F && c != 0x5B && c != 0x5D && c != 0x25
    && (both ==> c != 0x3A && c != 0x40)
  }

  /** `e` spells the text `t`: every character as itself, if it is no delimiter, or as a percent sign and
      two hexadecimal digits in either case. */
  predicate Spells(e: Octets, t: Octets, both: bool) {
    if t == [] then e == []
    else
      || (e != [] && e[0] == t[0] && Plain(t[0], both) && Spells(e[1..], t[1..], both))
      || (|e| >= 3 && e[0] == 0x25 && IsEscape(e[1], e[2], t[0]) && Spells(e[3..], t[1..], both))
  }

  predicate IsEscape(hi: byte, lo: byte, c: byte) {
    c < 128 && IsHexDigit(hi, c / 16) && IsHexDigit(lo, c % 16)
  }

  /** 0 to 9, A to F and a to f. */
  predicate IsHexDigit(c: byte, n: int) {
    || (0x30 <= c <= 0x39 && n == c - 0x30)
    || (0x41 <= c <= 0x46 && n == c - 0x41 + 10)
    || (0x61 <= c <= 0x66 && n == c - 0x61 + 10)
  }

  // ----- every text over ASCII has a spelling -----

  function HexDigit(n: nat): (c: byte)
    requires n < 16
    ensures IsHexDigit(c, n)
  {
    if n < 10 then 0x30 + n else 0x37 + n
  }

  function Encode(t: Octets, both: bool): Octets
    requires forall i | 0 <= i < |t| :: t[i] < 128
  {
    if t == [] then []
    else if Plain(t[0], both) then [t[0]] + Encode(t[1..], both)
    else [PERCENT, HexDigit(t[0] / 16), HexDigit(t[0] % 16)] + Encode(t[1..], both)
  }

  lemma {:induction false} EncodeSpells(t: Octets, both: bool)
    requires forall i | 0 <= i < |t| :: t[i] < 128
    ensures Spells(Encode(t, both), t, both)
  {
    if t != [] {
      EncodeSpells(t[1..], both);
      var e, rest := Encode(t, both), Encode(t[1..], both);
      if Plain(t[0], both) {
        assert e[1..] == rest;
      } else {
        assert e[3..] == rest;
        assert IsEscape(e[1], e[2], t[0]);
      }
    }
  }

  // ----- scanning a spelled component -----

  lemma TerminatedBy(s: Octets, p: nat, z: nat)
    requires p <= z < |s| && s[z] == 0
    ensures Terminated(s, p)
  {
  }

  lemma HexDigitIs(c: byte, n: nat)
    requires IsHexDigit(c, n)
    ensures HexValue(c) == Some(n)
  {
  }

  lemma EscapeIs(s: Octets, p: nat, c: byte)
    requires p + 1 < |s| && IsEscape(s[p], s[p + 1], c)
    ensures EscapeAt(s, p) == Some(c)
  {
    HexDigitIs(s[p], c / 16);
    HexDigitIs(s[p + 1], c % 16);
  }

  /** The first character of a spelled component is taken as the first character of its text. */
  lemma SpelledTurn(s: Octets, p: nat, e: Octets, t: Octets, both: bool) returns (w: nat)
    requires t != [] && Spells(e, t, both) && At(s, p, e)
    ensures TurnAt(s, p, both) == Take(t[0], w)
    ensures w <= |e| && Spells(e[w..], t[1..], both)
  {
    assert s[p] == e[0];
    if e[0] == PERCENT {
      assert s[p + 1] == e[1] && s[p + 2] == e[2];
      EscapeIs(s, p + 1, t[0]);
      w := 3;
    } else {
      w := 1;
    }
  }

  lemma AtTail(s: Octets, p: nat, e: Octets, w: nat)
    requires At(s, p, e) && w <= |e|
    ensures At(s, p + w, e[w..])
  {
  }

  /** A component spelled `e` and followed by a delimiter is scanned as its text. */
  lemma {:induction false} ScanSpelled(s: Octets, p: nat, e: Octets, t: Octets, both: bool, d: byte, end: nat)
    requires Terminated(s, p) && Spells(e, t, both) && IsDelimiter(d, both)
    requires At(s, p, e) && end == p + |e| < |s| && s[end] == d
    ensures Scan(s, p, both) == Scanned(t, end + 1, d)
    decreases |t|
  {
    if t == [] {
      ScanNothing(s, p, both, d);
    } else {
      var w := SpelledFirst(s, p, e, t, both, end);
      ScanSpelled(s, p + w, e[w..], t[1..], both, d, end);
      ScanTaken(s, p, w, t, both, end + 1, d);
    }
  }

  lemma ScanNothing(s: Octets, p: nat, both: bool, d: byte)
    requires Terminated(s, p) && p < |s| && s[p] == d && IsDelimiter(d, both)
    ensures Scan(s, p, both) == Scanned([], p + 1, d)
  {
  }

  lemma SpelledFirst(s: Octets, p: nat, e: Octets, t: Octets, both: bool, end: nat) returns (w: nat)
    requires Terminated(s, p) && t != [] && Spells(e, t, both) && At(s, p, e) && end == p + |e|
    ensures TurnAt(s, p, both) == Take(t[0], w) && w <= |e| && Spells(e[w..], t[1..], both)
    ensures Terminated(s, p + w) && At(s, p + w, e[w..]) && end == p + w + |e[w..]|
  {
    w := SpelledTurn(s, p, e, t, both);
    AtTail(s, p, e, w);
    TerminatedTake(s, p, both);
  }

  lemma ScanTaken(s: Octets, p: nat, w: nat, t: Octets, both: bool, next: nat, d: byte)
    requires Terminated(s, p) && t != [] && TurnAt(s, p, both) == Take(t[0], w)
    requires Terminated(s, p + w) && Scan(s, p + w, both) == Scanned(t[1..], next, d)
    ensures Scan(s, p, both) == Scanned(t, next, d)
  {
    var tail := ScanTake(s, p, both);
    assert [t[0]] + t[1..] == t;
  }

  lemma {:induction false} DigitsSpell(d: Octets)
    requires AllDigits(d)
    ensures Spells(d, d, true)
    decreases |d|
  {
    if d != [] {
      DigitsSpell(d[1..]);
    }
  }

  lemma {:induction false} NoZero(t: Octets)
    requires forall i | 0 <= i < |t| :: t[i] != 0
    ensures CString(t) == t
    decreases |t|
  {
    if t != [] { NoZero(t[1..]); }
  }

  /** Digits, as a port: up to 65535. */
  lemma PortReads(d: Octets)
    requires d != [] && AllDigits(d)
    ensures PortNumber(CString(d)) == if Decimal(d) <= 65535 then Some(Decimal(d)) else None
  {
    NoZero(d);
    assert d[0] >= 0x30;
  }

  function Pow10(n: nat): nat { if n == 0 then 1 else 10 * Pow10(n - 1) }

  /** The first digit of a port counts most. */
  lemma {:induction false} DecimalFirst(d: Octets)
    requires d != [] && AllDigits(d)
    ensures Decimal(d) == (d[0] - 0x30) * Pow10(|d| - 1) + Decimal(d[1..])
    decreases |d|
  {
    if |d| > 1 {
      var m := d[..|d| - 1];
      DecimalFirst(m);
      assert m[1..] == d[1..][..|d| - 2];
      TimesTen(d[0] - 0x30, Pow10(|d| - 2));
    } else {
      assert d[..0] == [] && d[1..] == [];
    }
  }

  lemma TimesTen(a: int, b: int)
    ensures 10 * (a * b) == a * (10 * b)
  {
  }

  /** The two characters behind a percent sign: two hexadecimal digits below 0x80; a plus and a digit; a minus
      and a zero; or a blank and a digit that nothing continues. */
  lemma EscapeExact(s: Octets, p: nat, v: byte)
    ensures EscapeAt(s, p) == Some(v)
       <==> var a, b, c := CharAt(s, p), CharAt(s, p + 1), CharAt(s, p + 2);
            || (v < 128 && IsHexDigit(a, v / 16) && IsHexDigit(b, v % 16))
            || (a == 0x2B && IsHexDigit(b, v))
            || (a == 0x2D && b == 0x30 && v == 0)
            || ((a == 0x20 || 9 <= a <= 13) && IsHexDigit(b, v) && !Continues(b, c))
  {
  }

  /** A second digit, or the x of a prefix 0x. */
  predicate Continues(b: byte, c: byte) {
    0x30 <= c <= 0x39 || 0x41 <= c <= 0x46 || 0x61 <= c <= 0x66 || (b == 0x30 && (c == 0x78 || c == 0x58))
  }

  // ----- the forms of a URL -----

  datatype Login = NoUser | User(user: Octets) | UserAndPassword(user: Octets, password: Octets)

  datatype Host = NoHost | Name(name: Octets) | Bracketed(name: Octets)

  datatype Form = Form(login: Login, host: Host, port: Option<Octets>, vhost: Option<Octets>)

  function LoginText(l: Login): Octets {
    match l
    case NoUser => []
    case User(u) => u + [0x40]
    case UserAndPassword(u, p) => u + ([0x3A] + (p + [0x40]))
  }

  function HostText(h: Host): Octets {
    match h
    case NoHost => []
    case Name(n) => n
    case Bracketed(n) => [0x5B] + (n + [0x5D])
  }

  function PortText(port: Option<Octets>): Octets { if port.Some? then [0x3A] + port.value else [] }

  function VhostText(vhost: Option<Octets>): Octets { if vhost.Some? then [0x2F] + vhost.value else [] }

  /** `amqp://` or `amqps://`. */
  function Scheme(ssl: bool): Octets {
    if ssl then [0x61, 0x6D, 0x71, 0x70, 0x73, 0x3A, 0x2F, 0x2F] else [0x61, 0x6D, 0x71, 0x70, 0x3A, 0x2F, 0x2F]
  }

  /** What follows the port, the host, the login and the scheme. */
  function FromVhost(f: Form, ending: byte): (r: Octets)
    ensures r != []
  {
    VhostText(f.vhost) + [ending]
  }

  function FromPort(f: Form, ending: byte): (r: Octets)
    ensures r != []
  {
    PortText(f.port) + FromVhost(f, ending)
  }

  function FromHost(f: Form, ending: byte): Octets { HostText(f.host) + FromPort(f, ending) }

  function FromLogin(f: Form, ending: byte): Octets { LoginText(f.login) + FromHost(f, ending) }

  /** The whole URL and the character behind it. */
  function Written(f: Form, ssl: bool, ending: byte): Octets { Scheme(ssl) + FromLogin(f, ending) }

  predicate LoginSpelled(e: Login, t: Login) {
    match t
    case NoUser => e.NoUser?
    case User(u) => e.User? && Spells(e.user, u, true)
    case UserAndPassword(u, p) => e.UserAndPassword? && Spells(e.user, u, true) && Spells(e.password, p, true)
  }

  /** A name that is given does not start with a zero. */
  predicate HostSpelled(e: Host, t: Host) {
    match t
    case NoHost => e.NoHost?
    case Name(n) => e.Name? && Spells(e.name, n, true) && n != [] && n[0] != 0
    case Bracketed(n) => e.Bracketed? && Spells(e.name, n, false)
  }

  predicate PortSpelled(e: Option<Octets>, t: Option<Octets>) {
    match t
    case None => e.None?
    case Some(d) => e == Some(d) && d != [] && AllDigits(d)
  }

  predicate VhostSpelled(e: Option<Octets>, t: Option<Octets>) {
    match t
    case None => e.None?
    case Some(v) => e.Some? && Spells(e.value, v, true)
  }

  predicate Spelled(e: Form, t: Form) {
    && LoginSpelled(e.login, t.login) && HostSpelled(e.host, t.host)
    && PortSpelled(e.port, t.port) && VhostSpelled(e.vhost, t.vhost)
  }

  // ----- what such a URL stands for -----

  function TextOf(t: Text): Octets { if t.Found? then t.text else t.s }

  /** The user, or `guest`. */
  function UserOf(l: Login): Octets { if l.NoUser? then [0x67, 0x75, 0x65, 0x73, 0x74] else l.user }

  /** The password, or `guest`. */
  function PasswordOf(l: Login): Octets {
    if l.UserAndPassword? then l.password else [0x67, 0x75, 0x65, 0x73, 0x74]
  }

  /** The host, or `localhost`. */
  function HostOf(h: Host): Octets {
    if h.NoHost? then [0x6C, 0x6F, 0x63, 0x61, 0x6C, 0x68, 0x6F, 0x73, 0x74] else h.name
  }

  /** The port, or that of the scheme. */
  function PortOf(port: Option<Octets>, ssl: bool): nat
    requires port.Some? ==> AllDigits(port.value)
  {
    if port.Some? then Decimal(port.value) else if ssl then 5671 else 5672
  }

  /** The virtual host, or `/`. */
  function VhostOf(vhost: Option<Octets>): Octets { if vhost.Some? then vhost.value else [0x2F] }

  // ----- the stages of the parser -----

  /** A component spelled `e` at `p`, with `rest` behind it. */
  lemma NextSpelled(s: Octets, p: nat, e: Octets, t: Octets, both: bool, rest: Octets, z: nat)
    requires At(s, p, e + rest) && Spells(e, t, both) && rest != [] && IsDelimiter(rest[0], both)
    requires p + |e| <= z < |s| && s[z] == 0
    ensures Terminated(s, p) && Next(s, p, both) == Some(Place(Found(p, t), rest[0], p + |e| + 1))
    ensures At(s, p + |e|, rest)
  {
    TerminatedBy(s, p, z);
    AtSplit(s, p, e, rest);
    ScanSpelled(s, p, e, t, both, rest[0], p + |e|);
  }

  lemma AtRest(s: Octets, p: nat, d: byte, rest: Octets)
    requires At(s, p, [d] + rest)
    ensures p < |s| && s[p] == d && At(s, p + 1, rest)
  {
    AtSplit(s, p, [d], rest);
    assert [d][0] == d;
  }

  /** A delimiter at `p`: the component is empty. */
  lemma NextEmpty(s: Octets, p: nat, both: bool, rest: Octets, z: nat)
    requires At(s, p, rest) && rest != [] && IsDelimiter(rest[0], both) && p <= z < |s| && s[z] == 0
    ensures Terminated(s, p) && Next(s, p, both) == Some(Place(Found(p, []), rest[0], p + 1))
  {
    assert [] + rest == rest;
    NextSpelled(s, p, [], [], both, rest, z);
  }

  /** The same with the delimiter and the position behind it by name. */
  lemma NextBefore(s: Octets, p: nat, e: Octets, t: Octets, both: bool, d: byte, rest: Octets, next: nat, z: nat)
    requires At(s, p, e + ([d] + rest)) && Spells(e, t, both) && IsDelimiter(d, both)
    requires next == p + |e| + 1 && p + |e| <= z < |s| && s[z] == 0
    ensures Terminated(s, p) && Next(s, p, both) == Some(Place(Found(p, t), d, next)) && At(s, next, rest)
  {
    NextSpelled(s, p, e, t, both, [d] + rest, z);
    AtRest(s, p + |e|, d, rest);
  }

  /** Where the host stands, with the port behind it and the virtual host behind that. */
  ghost predicate Laid(s: Octets, e: Form, ending: byte, q: nat, pp: nat, v: nat, z: nat) {
    && At(s, q, FromHost(e, ending)) && At(s, pp, FromPort(e, ending)) && At(s, v, FromVhost(e, ending))
    && pp == q + |HostText(e.host)| && v == pp + |PortText(e.port)|
    && v + |VhostText(e.vhost)| <= z < |s| && s[z] == 0 && ending in {0, 0x23, 0x3F, 0x5D}
  }

  /** The character in front of the virtual host, and the one behind the host. */
  function VhostDelim(e: Form, ending: byte): byte { if e.vhost.Some? then 0x2F else ending }

  function PortDelim(e: Form, ending: byte): byte { if e.port.Some? then 0x3A else VhostDelim(e, ending) }

  lemma Delimiters(e: Form, ending: byte)
    requires ending in {0, 0x23, 0x3F, 0x5D}
    ensures IsDelimiter(VhostDelim(e, ending), true) && IsDelimiter(PortDelim(e, ending), true)
    ensures VhostDelim(e, ending) !in {0x25, 0x3A, 0x40, 0x5B} && PortDelim(e, ending) !in {0x25, 0x40, 0x5B}
  {
  }

  lemma FromPortStarts(e: Form, ending: byte)
    ensures FromVhost(e, ending)[0] == VhostDelim(e, ending) && FromPort(e, ending)[0] == PortDelim(e, ending)
  {
  }

  lemma VhostJoins(e: Form, ending: byte)
    requires e.vhost.Some?
    ensures FromVhost(e, ending) == [SLASH] + (e.vhost.value + [ending])
  {
  }

  lemma PortJoins(e: Form, ending: byte)
    requires e.port.Some?
    ensures FromPort(e, ending) == [COLON] + (e.port.value + FromVhost(e, ending))
  {
  }

  /** What the first scan of the host gives. */
  function HostPlace(e: Form, t: Form, ending: byte, q: nat): Place {
    match t.host
    case NoHost => Place(Found(q, []), PortDelim(e, ending), q + 1)
    case Name(n) => Place(Found(q, n), PortDelim(e, ending), q + |HostText(e.host)| + 1)
    case Bracketed(_) => Place(Found(q, []), OPEN, q + 1)
  }

  lemma HostScanned(s: Octets, e: Form, t: Form, ending: byte, q: nat, z: nat)
    requires At(s, q, FromHost(e, ending)) && (e.host.NoHost? ==> At(s, q, FromPort(e, ending)))
    requires q + |HostText(e.host)| <= z < |s| && s[z] == 0 && ending in {0, 0x23, 0x3F, 0x5D}
    requires HostSpelled(e.host, t.host)
    ensures Terminated(s, q) && Next(s, q, true) == Some(HostPlace(e, t, ending, q))
  {
    match t.host
    case Bracketed(_) =>
      BracketStarts(e, ending);
      NextEmpty(s, q, true, FromHost(e, ending), z);
    case NoHost => NoHostScanned(s, e, ending, q, z);
    case Name(n) => NameScanned(s, e, n, ending, q, z);
  }

  lemma NoHostScanned(s: Octets, e: Form, ending: byte, q: nat, z: nat)
    requires At(s, q, FromPort(e, ending)) && q <= z < |s| && s[z] == 0 && ending in {0, 0x23, 0x3F, 0x5D}
    ensures Terminated(s, q) && Next(s, q, true) == Some(Place(Found(q, []), PortDelim(e, ending), q + 1))
  {
    Delimiters(e, ending);
    FromPortStarts(e, ending);
    NextEmpty(s, q, true, FromPort(e, ending), z);
  }

  lemma NameScanned(s: Octets, e: Form, n: Octets, ending: byte, q: nat, z: nat)
    requires e.host.Name? && Spells(e.host.name, n, true) && At(s, q, FromHost(e, ending))
    requires q + |e.host.name| <= z < |s| && s[z] == 0 && ending in {0, 0x23, 0x3F, 0x5D}
    ensures Terminated(s, q)
    ensures Next(s, q, true) == Some(Place(Found(q, n), PortDelim(e, ending), q + |e.host.name| + 1))
  {
    Delimiters(e, ending);
    FromPortStarts(e, ending);
    NextSpelled(s, q, e.host.name, n, true, FromPort(e, ending), z);
  }

  lemma BracketStarts(e: Form, ending: byte)
    requires e.host.Bracketed?
    ensures FromHost(e, ending) != [] && FromHost(e, ending)[0] == OPEN
    ensures FromHost(e, ending) == [OPEN] + (e.host.name + ([CLOSE] + FromPort(e, ending)))
  {
  }

  /** Between the brackets, and behind them. */
  lemma BracketScanned(s: Octets, e: Form, t: Form, ending: byte, q: nat, pp: nat, z: nat)
    requires At(s, q, FromHost(e, ending)) && e.host.Bracketed? && t.host.Bracketed?
    requires Spells(e.host.name, t.host.name, false)
    requires pp == q + |e.host.name| + 2 <= z < |s| && s[z] == 0 && ending in {0, 0x23, 0x3F, 0x5D}
    ensures Terminated(s, q + 1) && Next(s, q + 1, false) == Some(Place(Found(q + 1, t.host.name), CLOSE, pp))
    ensures Terminated(s, pp) && Next(s, pp, true) == Some(Place(Found(pp, []), PortDelim(e, ending), pp + 1))
  {
    BracketStarts(e, ending);
    AtRest(s, q, OPEN, e.host.name + ([CLOSE] + FromPort(e, ending)));
    NextBefore(s, q + 1, e.host.name, t.host.name, false, CLOSE, FromPort(e, ending), pp, z);
    NoHostScanned(s, e, ending, pp, z);
  }

  /** A port that is given, and the delimiter behind it. */
  lemma PortScanned(s: Octets, e: Form, t: Form, ending: byte, pp: nat, v: nat, z: nat)
    requires At(s, pp, FromPort(e, ending)) && PortSpelled(e.port, t.port) && t.port.Some?
    requires v == pp + 1 + |t.port.value| <= z < |s| && s[z] == 0 && ending in {0, 0x23, 0x3F, 0x5D}
    ensures Terminated(s, pp + 1)
    ensures Next(s, pp + 1, true) == Some(Place(Found(pp + 1, t.port.value), VhostDelim(e, ending), v + 1))
  {
    Delimiters(e, ending);
    FromPortStarts(e, ending);
    PortJoins(e, ending);
    DigitsScanned(s, t.port.value, FromVhost(e, ending), VhostDelim(e, ending), pp, v, z);
  }

  lemma DigitsScanned(s: Octets, d: Octets, rest: Octets, delim: byte, pp: nat, v: nat, z: nat)
    requires At(s, pp, [COLON] + (d + rest)) && AllDigits(d) && rest != [] && rest[0] == delim && IsDelimiter(delim, true)
    requires v == pp + 1 + |d| <= z < |s| && s[z] == 0
    ensures Terminated(s, pp + 1) && Next(s, pp + 1, true) == Some(Place(Found(pp + 1, d), delim, v + 1))
  {
    AtRest(s, pp, COLON, d + rest);
    DigitsSpell(d);
    NextSpelled(s, pp + 1, d, d, true, rest, z);
  }

  /** The position behind the virtual host and the character that ends it. */
  function VhostEnd(e: Form, v: nat): nat { if e.vhost.Some? then v + |e.vhost.value| + 2 else v + 1 }

  lemma VhostScanned(s: Octets, e: Form, t: Form, ending: byte, v: nat, z: nat)
    requires At(s, v, FromVhost(e, ending)) && ending in {0, 0x23, 0x3F, 0x5D}
    requires v + |VhostText(e.vhost)| <= z < |s| && s[z] == 0
    requires e.vhost.Some? && t.vhost.Some? && Spells(e.vhost.value, t.vhost.value, true)
    ensures Terminated(s, v + 1)
    ensures Next(s, v + 1, true) == Some(Place(Found(v + 1, t.vhost.value), ending, VhostEnd(e, v)))
  {
    VhostJoins(e, ending);
    AtRest(s, v, SLASH, e.vhost.value + [ending]);
    NextSpelled(s, v + 1, e.vhost.value, t.vhost.value, true, [ending], z);
  }

  /** Behind every delimiter but the last, the string goes on. */
  lemma NextTerminated(s: Octets, e: Form, ending: byte, q: nat, pp: nat, v: nat, z: nat)
    requires Laid(s, e, ending, q, pp, v, z)
    ensures VhostDelim(e, ending) != 0 ==> Terminated(s, v + 1)
    ensures PortDelim(e, ending) != 0 ==> Terminated(s, pp + 1)
    ensures e.host.Bracketed? ==> Terminated(s, q + 1)
  {
    FromPortStarts(e, ending);
    assert s[v] == VhostDelim(e, ending) && s[pp] == PortDelim(e, ending);
    if s[v] != 0 { TerminatedBy(s, v + 1, z); }
    if s[pp] != 0 { TerminatedBy(s, pp + 1, z); }
    if e.host.Bracketed? { TerminatedBy(s, q + 1, z); }
  }

  /** What the scans find, and where they can go on. */
  ghost predicate Scans(s: Octets, e: Form, t: Form, ending: byte, q: nat, pp: nat, v: nat) {
    && e.host.Bracketed? == t.host.Bracketed? && e.vhost.Some? == t.vhost.Some? && ending in {0, 0x23, 0x3F, 0x5D}
    && pp == q + |HostText(e.host)| && (t.host.NoHost? ==> e.host.NoHost?) && HostReads(t.host)
    && PortSpelled(e.port, t.port)
    && (VhostDelim(e, ending) != 0 ==> Terminated(s, v + 1))
    && (PortDelim(e, ending) != 0 ==> Terminated(s, pp + 1))
    && Terminated(s, q) && Next(s, q, true) == Some(HostPlace(e, t, ending, q))
    && BracketScans(s, e, t, ending, q, pp) && PortScans(s, e, t, ending, pp, v) && VhostScans(s, e, t, ending, v)
  }

  predicate HostReads(h: Host) {
    match h
    case Name(n) => n != [] && n[0] != 0
    case _ => true
  }

  ghost predicate BracketScans(s: Octets, e: Form, t: Form, ending: byte, q: nat, pp: nat) {
    match t.host
    case Bracketed(n) =>
      && Terminated(s, q + 1) && Next(s, q + 1, false) == Some(Place(Found(q + 1, n), CLOSE, pp))
      && Terminated(s, pp) && Next(s, pp, true) == Some(Place(Found(pp, []), PortDelim(e, ending), pp + 1))
    case _ => true
  }

  ghost predicate PortScans(s: Octets, e: Form, t: Form, ending: byte, pp: nat, v: nat) {
    match t.port
    case Some(d) =>
      && Terminated(s, pp + 1)
      && Next(s, pp + 1, true) == Some(Place(Found(pp + 1, d), VhostDelim(e, ending), v + 1))
    case None => v == pp
  }

  ghost predicate VhostScans(s: Octets, e: Form, t: Form, ending: byte, v: nat) {
    match t.vhost
    case Some(w) => Terminated(s, v + 1) && Next(s, v + 1, true) == Some(Place(Found(v + 1, w), ending, VhostEnd(e, v)))
    case None => true
  }

  lemma AllScanned(s: Octets, e: Form, t: Form, ending: byte, q: nat, pp: nat, v: nat, z: nat)
    requires Laid(s, e, ending, q, pp, v, z)
    requires HostSpelled(e.host, t.host) && PortSpelled(e.port, t.port) && VhostSpelled(e.vhost, t.vhost)
    ensures Scans(s, e, t, ending, q, pp, v)
  {
    NextTerminated(s, e, ending, q, pp, v, z);
    HostScanned(s, e, t, ending, q, z);
    if t.host.Bracketed? { BracketScanned(s, e, t, ending, q, pp, z); }
    if t.port.Some? { PortScanned(s, e, t, ending, pp, v, z); }
    if t.vhost.Some? { VhostScanned(s, e, t, ending, v, z); }
  }

  /** Without a login, a port right behind the host is scanned before it is known to be one. */
  predicate Early(t: Form) { t.login.NoUser? && !t.host.Bracketed? && t.port.Some? }

  function LoginUser(t: Form, p: nat): Text { if t.login.NoUser? then GUEST else Found(p, t.login.user) }

  function LoginPassword(e: Form, t: Form, p: nat): Text {
    if t.login.UserAndPassword? && e.login.UserAndPassword? then Found(p + |e.login.user| + 1, t.login.password) else GUEST
  }

  function AuthorityOf(e: Form, t: Form, ending: byte, p: nat, q: nat, pp: nat, v: nat): Authority {
    var h := HostPlace(e, t, ending, q);
    if Early(t) then
      Authority(GUEST, GUEST, Some(Found(pp + 1, t.port.value)), Place(h.part, VhostDelim(e, ending), v + 1))
    else Authority(LoginUser(t, p), LoginPassword(e, t, p), None, h)
  }

  lemma AuthorityRead(s: Octets, e: Form, t: Form, ending: byte, p: nat, q: nat, pp: nat, v: nat, z: nat)
    requires Scans(s, e, t, ending, q, pp, v) && LoginSpelled(e.login, t.login)
    requires At(s, p, FromLogin(e, ending)) && q == p + |LoginText(e.login)| <= z < |s| && s[z] == 0
    ensures Terminated(s, p) && AuthorityAt(s, p) == Some(AuthorityOf(e, t, ending, p, q, pp, v))
  {
    if t.login.NoUser? {
      NoLoginRead(s, e, t, ending, p, q, pp, v);
    } else {
      SomeLoginRead(s, e, t, ending, p, q, z, HostPlace(e, t, ending, q));
    }
  }

  lemma SomeLoginRead(s: Octets, e: Form, t: Form, ending: byte, p: nat, q: nat, z: nat, host: Place)
    requires LoginSpelled(e.login, t.login) && !t.login.NoUser? && At(s, p, FromLogin(e, ending))
    requires q == p + |LoginText(e.login)| <= z < |s| && s[z] == 0 && Terminated(s, q) && Next(s, q, true) == Some(host)
    ensures Terminated(s, p)
    ensures AuthorityAt(s, p) == Some(Authority(LoginUser(t, p), LoginPassword(e, t, p), None, host))
  {
    LoginJoins(e, ending);
    match t.login
    case User(u) => UserRead(s, p, e.login.user, u, FromHost(e, ending), q, z, host);
    case UserAndPassword(u, w) =>
      LoginRead(s, p, e.login.user, u, p + |e.login.user| + 1, e.login.password, w, FromHost(e, ending), q, z, host);
  }

  lemma LoginJoins(e: Form, ending: byte)
    ensures e.login.User? ==> FromLogin(e, ending) == e.login.user + ([AT] + FromHost(e, ending))
    ensures e.login.UserAndPassword? ==>
              FromLogin(e, ending) == e.login.user + ([COLON] + (e.login.password + ([AT] + FromHost(e, ending))))
  {
  }

  lemma UserRead(s: Octets, p: nat, eu: Octets, u: Octets, rest: Octets, q: nat, z: nat, host: Place)
    requires At(s, p, eu + ([AT] + rest)) && Spells(eu, u, true) && q == p + |eu| + 1 <= z < |s| && s[z] == 0
    requires Terminated(s, q) && Next(s, q, true) == Some(host)
    ensures Terminated(s, p) && AuthorityAt(s, p) == Some(Authority(Found(p, u), GUEST, None, host))
  {
    NextBefore(s, p, eu, u, true, AT, rest, q, z);
  }

  lemma LoginRead(s: Octets, p: nat, eu: Octets, u: Octets, m: nat, ew: Octets, w: Octets, rest: Octets, q: nat, z: nat,
                  host: Place)
    requires At(s, p, eu + ([COLON] + (ew + ([AT] + rest)))) && Spells(eu, u, true) && Spells(ew, w, true)
    requires m == p + |eu| + 1 && q == m + |ew| + 1 <= z < |s| && s[z] == 0
    requires Terminated(s, q) && Next(s, q, true) == Some(host)
    ensures Terminated(s, p)
    ensures AuthorityAt(s, p) == Some(Authority(Found(p, u), Found(m, w), None, host))
  {
    NextBefore(s, p, eu, u, true, COLON, ew + ([AT] + rest), m, z);
    NextBefore(s, m, ew, w, true, AT, rest, q, z);
    JoinLogin(s, p, Place(Found(p, u), COLON, m), Place(Found(m, w), AT, q), host);
  }

  lemma JoinLogin(s: Octets, p: nat, first: Place, second: Place, host: Place)
    requires Terminated(s, p) && Next(s, p, true) == Some(first) && first.delim == COLON
    requires Terminated(s, first.next) && Next(s, first.next, true) == Some(second) && second.delim == AT
    requires Terminated(s, second.next) && Next(s, second.next, true) == Some(host)
    ensures AuthorityAt(s, p) == Some(Authority(first.part, second.part, None, host))
  {
  }

  lemma NoLoginRead(s: Octets, e: Form, t: Form, ending: byte, p: nat, q: nat, pp: nat, v: nat)
    requires Scans(s, e, t, ending, q, pp, v) && t.login.NoUser? && p == q
    ensures AuthorityAt(s, p) == Some(AuthorityOf(e, t, ending, p, q, pp, v))
  {
    Delimiters(e, ending);
    var h := HostPlace(e, t, ending, q);
    if Early(t) {
      PortEarly(s, p, h, Place(Found(pp + 1, t.port.value), VhostDelim(e, ending), v + 1));
    } else {
      HostAlone(s, p, h);
    }
  }

  lemma PortEarly(s: Octets, p: nat, first: Place, second: Place)
    requires Terminated(s, p) && Next(s, p, true) == Some(first) && first.delim == COLON
    requires Terminated(s, first.next) && Next(s, first.next, true) == Some(second) && second.delim != AT
    ensures AuthorityAt(s, p)
         == Some(Authority(GUEST, GUEST, Some(second.part), Place(first.part, second.delim, second.next)))
  {
  }

  lemma HostAlone(s: Octets, p: nat, first: Place)
    requires Terminated(s, p) && Next(s, p, true) == Some(first) && first.delim != COLON && first.delim != AT
    ensures AuthorityAt(s, p) == Some(Authority(GUEST, GUEST, None, first))
  {
  }

  /** The host, or the default. */
  function HostPart(t: Form, q: nat): Text {
    match t.host
    case NoHost => LOCALHOST
    case Name(n) => Found(q, n)
    case Bracketed(n) => Found(q + 1, n)
  }

  /** The host and what stands behind it, or behind the port if that was scanned early. */
  function Behind(e: Form, t: Form, ending: byte, pp: nat, v: nat, part: Text): Place {
    if Early(t) then Place(part, VhostDelim(e, ending), v + 1) else Place(part, PortDelim(e, ending), pp + 1)
  }

  function Located(e: Form, t: Form, ending: byte, q: nat, pp: nat, v: nat): Place {
    Behind(e, t, ending, pp, v, HostPart(t, q))
  }

  /** A port that was scanned early. */
  function EarlyPort(t: Form, pp: nat): Option<Text> { if Early(t) then Some(Found(pp + 1, t.port.value)) else None }

  lemma HostRead(s: Octets, e: Form, t: Form, ending: byte, p: nat, q: nat, pp: nat, v: nat)
    requires BracketScans(s, e, t, ending, q, pp) && HostReads(t.host) && ending in {0, 0x23, 0x3F, 0x5D}
    requires pp == q + |HostText(e.host)| && (t.host.NoHost? ==> e.host.NoHost?)
    requires VhostDelim(e, ending) != 0 ==> Terminated(s, v + 1)
    requires PortDelim(e, ending) != 0 ==> Terminated(s, pp + 1)
    ensures var a := AuthorityOf(e, t, ending, p, q, pp, v);
            && (a.host.delim != 0 ==> Terminated(s, a.host.next))
            && HostAt(s, a) == Some(Located(e, t, ending, q, pp, v))
  {
    if t.host.Bracketed? {
      InBrackets(s, AuthorityOf(e, t, ending, p, q, pp, v), q, pp, t.host.name, PortDelim(e, ending));
    } else {
      Delimiters(e, ending);
      NotInBrackets(s, AuthorityOf(e, t, ending, p, q, pp, v));
    }
  }

  lemma InBrackets(s: Octets, a: Authority, q: nat, pp: nat, name: Octets, d: byte)
    requires a.port.None? && a.host == Place(Found(q, []), OPEN, q + 1)
    requires Terminated(s, q + 1) && Next(s, q + 1, false) == Some(Place(Found(q + 1, name), CLOSE, pp))
    requires Terminated(s, pp) && Next(s, pp, true) == Some(Place(Found(pp, []), d, pp + 1))
    ensures HostAt(s, a) == Some(Place(Found(q + 1, name), d, pp + 1))
  {
  }

  lemma NotInBrackets(s: Octets, a: Authority)
    requires a.host.delim != OPEN && (a.host.delim != 0 ==> Terminated(s, a.host.next))
    ensures HostAt(s, a) == Some(Place(if Reads(a.host.part) then a.host.part else LOCALHOST, a.host.delim, a.host.next))
  {
  }

  /** The port and what stands behind it, if it is in range. */
  function PortResult(t: Form, ssl: bool, d: byte, next: nat): Option<Ported>
    requires t.port.Some? ==> AllDigits(t.port.value)
  {
    if PortOf(t.port, ssl) <= 65535 then Some(Ported(PortOf(t.port, ssl), d, next)) else None
  }

  lemma PortRead(s: Octets, e: Form, t: Form, ending: byte, pp: nat, v: nat, ssl: bool, part: Text)
    requires PortSpelled(e.port, t.port) && PortScans(s, e, t, ending, pp, v) && ending in {0, 0x23, 0x3F, 0x5D}
    requires VhostDelim(e, ending) != 0 ==> Terminated(s, v + 1)
    requires PortDelim(e, ending) != 0 ==> Terminated(s, pp + 1)
    ensures var h := Behind(e, t, ending, pp, v, part);
            && (h.delim != 0 && h.delim != PERCENT ==> Terminated(s, h.next))
            && PortAt(s, EarlyPort(t, pp), if ssl then 5671 else 5672, h) == PortResult(t, ssl, VhostDelim(e, ending), v + 1)
  {
    Delimiters(e, ending);
    var h := Behind(e, t, ending, pp, v, part);
    if Early(t) {
      PortKnown(s, pp + 1, t, ssl, h);
    } else if t.port.Some? {
      PortFollows(s, pp + 1, t, ssl, h, VhostDelim(e, ending), v + 1);
    } else {
      PortMissing(s, t, ssl, h);
    }
  }

  lemma PortKnown(s: Octets, at: nat, t: Form, ssl: bool, h: Place)
    requires t.port.Some? && t.port.value != [] && AllDigits(t.port.value)
    requires h.delim != COLON && (h.delim != 0 && h.delim != PERCENT ==> Terminated(s, h.next))
    ensures PortAt(s, Some(Found(at, t.port.value)), if ssl then 5671 else 5672, h) == PortResult(t, ssl, h.delim, h.next)
  {
    PortReads(t.port.value);
  }

  lemma PortFollows(s: Octets, at: nat, t: Form, ssl: bool, h: Place, d: byte, next: nat)
    requires t.port.Some? && t.port.value != [] && AllDigits(t.port.value)
    requires h.delim == COLON && h.next == at && Terminated(s, at)
    requires Next(s, at, true) == Some(Place(Found(at, t.port.value), d, next))
    ensures PortAt(s, None, if ssl then 5671 else 5672, h) == PortResult(t, ssl, d, next)
  {
    PortReads(t.port.value);
  }

  lemma PortMissing(s: Octets, t: Form, ssl: bool, h: Place)
    requires t.port.None? && h.delim != COLON && (h.delim != 0 && h.delim != PERCENT ==> Terminated(s, h.next))
    ensures PortAt(s, None, if ssl then 5671 else 5672, h) == PortResult(t, ssl, h.delim, h.next)
  {
  }

  function VhostPart(t: Form, v: nat): Text { if t.vhost.Some? then Found(v + 1, t.vhost.value) else ROOT }

  lemma VhostRead(s: Octets, e: Form, t: Form, ending: byte, q: nat, pp: nat, v: nat, port: nat)
    requires Scans(s, e, t, ending, q, pp, v)
    ensures var at := Ported(port, VhostDelim(e, ending), v + 1);
            && (at.delim != 0 && at.delim != PERCENT ==> Terminated(s, at.next))
            && VhostAt(s, at) == if ending == 0 then Some(VhostPart(t, v)) else None
  {
    Delimiters(e, ending);
    if t.vhost.Some? {
      VhostGiven(s, Ported(port, SLASH, v + 1), t.vhost.value, ending, VhostEnd(e, v));
    }
  }

  lemma VhostGiven(s: Octets, at: Ported, text: Octets, ending: byte, next: nat)
    requires at.delim == SLASH && Terminated(s, at.next)
    requires Next(s, at.next, true) == Some(Place(Found(at.next, text), ending, next))
    ensures VhostAt(s, at) == if ending == 0 then Some(Found(at.next, text)) else None
  {
  }

  // ----- the whole URL -----

  lemma LoginLaid(s: Octets, e: Form, ending: byte, p: nat, q: nat, pp: nat, v: nat, z: nat)
    requires At(s, p, FromLogin(e, ending)) && q == p + |LoginText(e.login)|
    requires pp == q + |HostText(e.host)| && v == pp + |PortText(e.port)|
    requires v + |VhostText(e.vhost)| <= z < |s| && s[z] == 0 && ending in {0, 0x23, 0x3F, 0x5D}
    ensures Laid(s, e, ending, q, pp, v, z)
  {
    AtSplit(s, p, LoginText(e.login), FromHost(e, ending));
    AtSplit(s, q, HostText(e.host), FromPort(e, ending));
    AtSplit(s, pp, PortText(e.port), FromVhost(e, ending));
  }

  /** The result for a URL that is read. */
  function Components(e: Form, t: Form, p: nat, q: nat, v: nat, ssl: bool): Info
    requires t.port.Some? ==> AllDigits(t.port.value)
  {
    Info(LoginUser(t, p), LoginPassword(e, t, p), HostPart(t, q), PortOf(t.port, ssl), VhostPart(t, v), ssl)
  }

  lemma ParseAtRead(s: Octets, e: Form, t: Form, ending: byte, p: nat, q: nat, v: nat, z: nat, ssl: bool)
    requires At(s, p, FromLogin(e, ending)) && Spelled(e, t)
    requires q == p + |LoginText(e.login)| && v == q + |HostText(e.host)| + |PortText(e.port)|
    requires v + |VhostText(e.vhost)| <= z < |s| && s[z] == 0 && ending in {0, 0x23, 0x3F, 0x5D}
    ensures Terminated(s, p)
    ensures ParseAt(s, p, ssl)
         == if ending == 0 && PortOf(t.port, ssl) <= 65535 then Some(Components(e, t, p, q, v, ssl)) else None
  {
    var pp := q + |HostText(e.host)|;
    LoginLaid(s, e, ending, p, q, pp, v, z);
    AllScanned(s, e, t, ending, q, pp, v, z);
    AuthorityRead(s, e, t, ending, p, q, pp, v, z);
    HostRead(s, e, t, ending, p, q, pp, v);
    PortRead(s, e, t, ending, pp, v, ssl, HostPart(t, q));
    VhostRead(s, e, t, ending, q, pp, v, PortOf(t.port, ssl));
    StagesJoin(s, e, t, ending, p, q, pp, v, ssl);
  }

  lemma StagesJoin(s: Octets, e: Form, t: Form, ending: byte, p: nat, q: nat, pp: nat, v: nat, ssl: bool)
    requires Terminated(s, p) && Spelled(e, t)
    requires AuthorityAt(s, p) == Some(AuthorityOf(e, t, ending, p, q, pp, v))
    requires var a := AuthorityOf(e, t, ending, p, q, pp, v);
             && (a.host.delim != 0 ==> Terminated(s, a.host.next))
             && HostAt(s, a) == Some(Located(e, t, ending, q, pp, v))
    requires var h := Located(e, t, ending, q, pp, v);
             && (h.delim != 0 && h.delim != PERCENT ==> Terminated(s, h.next))
             && PortAt(s, EarlyPort(t, pp), if ssl then 5671 else 5672, h) == PortResult(t, ssl, VhostDelim(e, ending), v + 1)
    requires var at := Ported(PortOf(t.port, ssl), VhostDelim(e, ending), v + 1);
             && (at.delim != 0 && at.delim != PERCENT ==> Terminated(s, at.next))
             && VhostAt(s, at) == if ending == 0 then Some(VhostPart(t, v)) else None
    ensures ParseAt(s, p, ssl)
         == if ending == 0 && PortOf(t.port, ssl) <= 65535 then Some(Components(e, t, p, q, v, ssl)) else None
  {
  }

  lemma SchemeRead(s: Octets, ssl: bool)
    requires Scheme(ssl) <= s && Terminated(s, 0)
    ensures Terminated(s, |Scheme(ssl)|) && Parse(s) == ParseAt(s, |Scheme(ssl)|, ssl)
  {
    var scheme := Scheme(ssl);
    assert ssl ==> !(AMQP <= s) by { assert s[4] == scheme[4]; }
    SchemeTerminated(s, scheme);
  }

  /** The string starts with the URL and `ending`, and is ended by a zero there or later. */
  ghost predicate StartsWith(s: Octets, e: Form, ssl: bool, ending: byte) {
    Written(e, ssl, ending) <= s && Terminated(s, |Written(e, ssl, ending)| - 1)
  }

  lemma UrlAt(s: Octets, e: Form, ssl: bool, ending: byte) returns (z: nat)
    requires StartsWith(s, e, ssl, ending)
    ensures At(s, |Scheme(ssl)|, FromLogin(e, ending)) && Scheme(ssl) <= s && Terminated(s, 0)
    ensures |Scheme(ssl)| + |FromLogin(e, ending)| - 1 <= z < |s| && s[z] == 0
  {
    var w := Written(e, ssl, ending);
    z :| |w| - 1 <= z < |s| && s[z] == 0;
    assert s[..|w|] == w;
    assert At(s, 0, w);
    AtSplit(s, 0, Scheme(ssl), FromLogin(e, ending));
    TerminatedBy(s, 0, z);
    assert Scheme(ssl) <= w;
  }

  lemma ParseWritten(s: Octets, e: Form, t: Form, ssl: bool, ending: byte, p: nat, q: nat, v: nat)
    requires StartsWith(s, e, ssl, ending) && Spelled(e, t) && ending in {0, 0x23, 0x3F, 0x5D}
    requires p == |Scheme(ssl)| && q == p + |LoginText(e.login)| && v == q + |HostText(e.host)| + |PortText(e.port)|
    ensures Terminated(s, 0)
    ensures Parse(s) == if ending == 0 && PortOf(t.port, ssl) <= 65535 then Some(Components(e, t, p, q, v, ssl)) else None
  {
    var z := UrlAt(s, e, ssl, ending);
    SchemeRead(s, ssl);
    ParseAtRead(s, e, t, ending, p, q, v, z, ssl);
  }

  /** For every form of URL, all texts and every spelling of them: parsing succeeds exactly when the URL ends
      there, and not with `?`, `#` or `]`, and its port is at most 65535.  It then gives back every part that
      is there, and for every other part `guest`, `guest`, `localhost`, 5672 or 5671, and `/`. */
  lemma ParseRoundTrip(s: Octets, e: Form, t: Form, ssl: bool, ending: byte)
    requires StartsWith(s, e, ssl, ending) && Spelled(e, t) && ending in {0, 0x23, 0x3F, 0x5D}
    ensures Terminated(s, 0)
    ensures Parse(s).Some? <==> ending == 0 && PortOf(t.port, ssl) <= 65535
    ensures Parse(s).Some? ==>
              var i := Parse(s).value;
              && TextOf(i.user) == UserOf(t.login) && TextOf(i.password) == PasswordOf(t.login)
              && TextOf(i.host) == HostOf(t.host) && i.port == PortOf(t.port, ssl)
              && TextOf(i.vhost) == VhostOf(t.vhost) && i.ssl == ssl
  {
    var p := |Scheme(ssl)|;
    var q := p + |LoginText(e.login)|;
    ParseWritten(s, e, t, ssl, ending, p, q, q + |HostText(e.host)| + |PortText(e.port)|);
  }

  /** Any other scheme is refused. */
  lemma OtherScheme(s: Octets)
    requires Terminated(s, 0) && !(Scheme(false) <= s) && !(Scheme(true) <= s)
    ensures Parse(s) == None
  {
  }

  ghost predicate ZeroFree(t: Octets) { forall i | 0 <= i < |t| :: t[i] != 0 }

  /** What C reads for a component: a default, or the string in the buffer. */
  ghost function Seen(buf: Octets, t: Text): Octets
    requires t.Found? ==> t.pos <= |buf|
  {
    if t.Found? then CString(buf[t.pos..]) else t.s
  }

  /** The same through the parser itself: after it has rewritten the buffer, the strings C reads for the
      components are the original texts. */
  method ParseSpelledUrl(buf: array<byte>, ghost e: Form, ghost t: Form, ghost ssl: bool) returns (r: Option<Info>)
    requires StartsWith(buf[..], e, ssl, 0) && Spelled(e, t)
    requires ZeroFree(UserOf(t.login)) && ZeroFree(PasswordOf(t.login))
    requires ZeroFree(HostOf(t.host)) && ZeroFree(VhostOf(t.vhost))
    modifies buf
    ensures r.Some? <==> PortOf(t.port, ssl) <= 65535
    ensures r.Some? ==>
              var i := r.value;
              && (forall x | x in [i.user, i.password, i.host, i.vhost] && x.Found? :: x.pos <= buf.Length)
              && Seen(buf[..], i.user) == UserOf(t.login) && Seen(buf[..], i.password) == PasswordOf(t.login)
              && Seen(buf[..], i.host) == HostOf(t.host) && Seen(buf[..], i.vhost) == VhostOf(t.vhost)
              && i.port == PortOf(t.port, ssl) && i.ssl == ssl
  {
    ParseRoundTrip(buf[..], e, t, ssl, 0);
    r := ParseUrl(buf);
    if r.Some? {
      ghost var i := r.value;
      ghost var all := [i.user, i.password, i.host, i.vhost];
      assert all[0] == i.user && all[1] == i.password && all[2] == i.host && all[3] == i.vhost;
      TextReads(buf[..], i.user);
      TextReads(buf[..], i.password);
      TextReads(buf[..], i.host);
      TextReads(buf[..], i.vhost);
    }
  }

  lemma TextReads(buf: Octets, t: Text)
    requires t.Found? ==> Holds(buf, t.pos, t.text)
    requires ZeroFree(TextOf(t))
    ensures t.Found? ==> t.pos <= |buf|
    ensures Seen(buf, t) == TextOf(t)
  {
    if t.Found? {
      ReadsBack(buf, t.pos, t.text);
      NoZero(t.text);
    }
  }
}
