/** Pointing Spotify at the tunnel and back, on the preferences file and its backup. */
module PrefsFile {
  import opened Decimal
  import opened Prefs
  import opened TextLines
  import opened Wrappers

  const MODE_KEY: string := "network.proxy.mode"
  const ADDR_KEY: string := "network.proxy.addr"
  const MODE_PROXY: nat := 4
  const MODE_NONE: nat := 0

  type u16 = n: nat | n < 65536

  datatype SpotifyState = SpotifyState(found: bool, mode: int, addr: string, port: nat, pointsAtUs: bool)

  // ---- Reading back ----

  /** Where the last `c` is, or the length. */
  function LastAt(s: string, c: char): (n: nat)
    ensures n <= |s| && (n < |s| ==> s[n] == c && forall i | n < i < |s| :: s[i] != c)
    ensures n == |s| ==> forall i | 0 <= i < |s| :: s[i] != c
  {
    if s == [] then 0
    else if s[|s| - 1] == c then |s| - 1
    else var n := LastAt(s[..|s| - 1], c); if n == |s| - 1 then |s| else n
  }

  function Lower(s: string): string {
    seq(|s|, i requires 0 <= i < |s| => if 'A' <= s[i] <= 'Z' then (s[i] as int + 32) as char else s[i])
  }

  datatype Endpoint = Endpoint(host: string, port: nat, scheme: string)

  /** `host:port@scheme`: the first `@` and, before it, the last colon. */
  function ParseAddr(addr: string): Endpoint {
    var at := At(addr, '@');
    var scheme := if at < |addr| then addr[at + 1..] else "";
    var hostport := addr[..at];
    var colon := LastAt(hostport, ':');
    if colon < |hostport| then
      var p := ParseIn(hostport[colon + 1..], 0, 65535);
      Endpoint(hostport[..colon], if p.Some? then p.value else 0, scheme)
    else
      Endpoint(hostport, 0, scheme)
  }

  function ModeOf(value: Option<string>): int {
    if value == None then 0
    else var m := ParseIn(value.value, -0x8000_0000, 0x7FFF_FFFF); if m.Some? then m.value else 0
  }

  predicate Ours(mode: int, e: Endpoint, localPort: nat) {
    mode == MODE_PROXY && e.port == localPort && Lower(e.scheme) == "socks5"
    && (e.host == "127.0.0.1" || e.host == "localhost")
  }

  function StateOf(body: string, localPort: nat): SpotifyState {
    var mode := ModeOf(GetKey(body, MODE_KEY));
    var addr := GetKey(body, ADDR_KEY);
    var a := if addr.Some? then addr.value else "";
    var e := ParseAddr(a);
    SpotifyState(true, mode, a, e.port, Ours(mode, e, localPort))
  }

  // ---- Writing ----

  function OurAddr(port: nat): string { Spelled(HERE, Numeral(port), "socks5") }

  function Quoted(s: string): string { "\"" + s + "\"" }

  function ApplyText(body: string, port: nat): string {
    SetKey(SetKey(body, MODE_KEY, Numeral(MODE_PROXY)), ADDR_KEY, Quoted(OurAddr(port)))
  }

  function RestoreText(body: string): string { SetKey(body, MODE_KEY, Numeral(MODE_NONE)) }

  // ---- The address we write is the address we read ----

  function Spelled(host: string, num: string, scheme: string): string { host + (":" + (num + ("@" + scheme))) }

  lemma Parts(a: string, c: char, b: string)
    ensures (a + ([c] + b))[..|a|] == a && (a + ([c] + b))[|a|] == c && (a + ([c] + b))[|a| + 1..] == b
  {
    assert (a + ([c] + b))[|a|..] == [c] + b;
  }

  lemma SplitAt(a: string, c: char, b: string)
    requires forall i | 0 <= i < |a| :: a[i] != c
    ensures At(a + ([c] + b), c) == |a| && (a + ([c] + b))[..|a|] == a && (a + ([c] + b))[|a| + 1..] == b
  {
    var s := a + ([c] + b);
    Parts(a, c, b);
    assert forall i | 0 <= i < |a| :: s[i] == a[i];
  }

  lemma {:induction false} LastAtIs(s: string, n: nat, c: char)
    requires n < |s| && s[n] == c && forall i | n < i < |s| :: s[i] != c
    ensures LastAt(s, c) == n
  {
    if n < |s| - 1 { LastAtIs(s[..|s| - 1], n, c); }
  }

  lemma SplitAtLast(a: string, c: char, b: string)
    requires forall i | 0 <= i < |b| :: b[i] != c
    ensures LastAt(a + ([c] + b), c) == |a| && (a + ([c] + b))[..|a|] == a && (a + ([c] + b))[|a| + 1..] == b
  {
    var s := a + ([c] + b);
    Parts(a, c, b);
    forall i | |a| < i < |s| ensures s[i] != c { assert s[i] == b[i - |a| - 1]; }
    LastAtIs(s, |a|, c);
  }

  lemma EndpointParses(host: string, num: string, scheme: string)
    requires forall i | 0 <= i < |host| :: host[i] != '@'
    requires forall i | 0 <= i < |num| :: num[i] != '@' && num[i] != ':'
    requires ParseIn(num, 0, 65535).Some?
    ensures ParseAddr(Spelled(host, num, scheme)) == Endpoint(host, ParseIn(num, 0, 65535).value, scheme)
  {
    var hostport := host + ([':'] + num);
    HostPortHasNoAt(host, num);
    Respelled(host, num, scheme);
    SplitAt(hostport, '@', scheme);
    SplitAtLast(host, ':', num);
  }

  lemma HostPortHasNoAt(host: string, num: string)
    requires forall i | 0 <= i < |host| :: host[i] != '@'
    requires forall i | 0 <= i < |num| :: num[i] != '@'
    ensures var hostport := host + ([':'] + num); forall i | 0 <= i < |hostport| :: hostport[i] != '@'
  {
    Parts(host, ':', num);
    var hostport := host + ([':'] + num);
    forall i | 0 <= i < |hostport| ensures hostport[i] != '@' {
      if i > |host| { assert hostport[i] == hostport[|host| + 1..][i - |host| - 1]; }
    }
  }

  lemma Respelled(host: string, num: string, scheme: string)
    ensures Spelled(host, num, scheme) == (host + ([':'] + num)) + (['@'] + scheme)
  {
  }

  const HERE: string := "127.0.0.1"

  lemma HereHasNoAt()
    ensures forall i | 0 <= i < |HERE| :: HERE[i] != '@'
  {
  }

  /** The address written is the address read, for every port. */
  lemma OurAddrParses(port: u16)
    ensures ParseAddr(OurAddr(port)) == Endpoint(HERE, port, "socks5")
  {
    NumeralReadsBack(port);
    ParseDigits(Numeral(port));
    assert IsDigit(Numeral(port)[0]);
    HereHasNoAt();
    EndpointParses(HERE, Numeral(port), "socks5");
  }

  lemma SpelledEnds(host: string, num: string, scheme: string)
    requires host != [] && scheme != [] && NoBreak(host) && NoBreak(num) && NoBreak(scheme)
    ensures var s := Spelled(host, num, scheme);
      s != [] && NoBreak(s) && s[0] == host[0] && s[|s| - 1] == scheme[|scheme| - 1]
  {
    NoBreakConcat("@", scheme);
    NoBreakConcat(num, "@" + scheme);
    NoBreakConcat(":", num + ("@" + scheme));
    NoBreakConcat(host, ":" + (num + ("@" + scheme)));
  }

  lemma NoBreakConcat(a: string, b: string)
    requires NoBreak(a) && NoBreak(b)
    ensures NoBreak(a + b)
  {
  }

  lemma OurAddrEnds(port: nat)
    ensures var s := OurAddr(port); s != [] && NoBreak(s) && s[0] == '1' && s[|s| - 1] == '5'
  {
    NumeralReadsBack(port);
    SpelledEnds(HERE, Numeral(port), "socks5");
  }

  lemma NothingToTrim(s: string)
    requires s != [] && !IsSpace(s[0]) && !IsSpace(s[|s| - 1])
    ensures Trim(s) == s
  {
  }

  lemma UnquoteOnce(s: string)
    requires s != [] && s[0] != '"' && s[|s| - 1] != '"'
    ensures Unquote(Quoted(s)) == s
  {
    var half := ['"'] + s;
    assert Quoted(s) == half + ['"'];
    assert (half + ['"'])[..|half|] == half;
    assert half[|half| - 1] == s[|s| - 1];
    assert UnquoteEnd(Quoted(s)) == UnquoteEnd(half) == half;
    assert half[1..] == s;
    assert UnquoteStart(half) == UnquoteStart(s) == s;
  }

  lemma QuotedReads(s: string)
    requires s != [] && s[0] != '"' && s[|s| - 1] != '"' && NoBreak(s)
    ensures Unquote(Trim(Quoted(s))) == s && OneLine(Quoted(s))
  {
    NothingToTrim(Quoted(s));
    UnquoteOnce(s);
    NoBreakConcat("\"", s);
    NoBreakConcat("\"" + s, "\"");
  }

  lemma DigitReads(n: nat)
    requires n < 10
    ensures Unquote(Trim(Numeral(n))) == Numeral(n) && OneLine(Numeral(n)) && ModeOf(Some(Numeral(n))) == n
  {
    NumeralReadsBack(n);
    ParseDigits(Numeral(n));
    assert IsDigit(Numeral(n)[0]);
  }

  lemma IsPlain(key: string)
    requires key != [] && !IsSpace(key[0]) && !IsSpace(key[|key| - 1])
    requires forall i | 0 <= i < |key| :: key[i] != '\n' && key[i] != '='
    ensures Plain(key)
  {
    NothingToTrim(key);
  }

  lemma ModeKeyPlain()
    ensures Plain(MODE_KEY)
  {
    IsPlain(MODE_KEY);
  }

  lemma AddrKeyPlain()
    ensures Plain(ADDR_KEY)
  {
    IsPlain(ADDR_KEY);
  }
}
