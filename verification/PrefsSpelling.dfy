/** How the preferences and the proxy address are spelled, character for character. */
module PrefsSpelling {
  import opened Decimal
  import opened Prefs
  import opened PrefsFile
  import opened Wrappers

  // ---- White space and quotes ----

  const NARROW: string := "\t\n\U{B}\U{C}\r "
  const WIDE: string :=
    "\U{85}\U{A0}\U{1680}" + "\U{2000}\U{2001}\U{2002}\U{2003}\U{2004}\U{2005}"
    + "\U{2006}\U{2007}\U{2008}\U{2009}\U{200A}" + "\U{2028}\U{2029}\U{202F}\U{205F}\U{3000}"

  /** The characters of Unicode's White_Space property. */
  lemma WhiteSpace(c: char)
    ensures IsSpace(c) <==> c in NARROW || c in WIDE
  {
  }

  ghost predicate AllSpace(s: string) { forall i | 0 <= i < |s| :: IsSpace(s[i]) }

  ghost predicate AllQuotes(s: string) { forall i | 0 <= i < |s| :: s[i] == '"' }

  lemma {:induction false} TrimStartTakes(s: string)
    ensures var t := TrimStart(s);
      && |t| <= |s| && t == s[|s| - |t|..] && AllSpace(s[..|s| - |t|]) && (t != [] ==> !IsSpace(t[0]))
  {
    if s != [] && IsSpace(s[0]) {
      TrimStartTakes(s[1..]);
      var t := TrimStart(s);
      var n := |s| - |t|;
      assert s[1..][n - 1..] == s[n..];
      forall i | 0 <= i < n ensures IsSpace(s[..n][i]) {
        if i > 0 { assert s[1..][..n - 1][i - 1] == s[i]; }
      }
    }
  }

  lemma {:induction false} TrimEndTakes(s: string)
    ensures var t := TrimEnd(s); t <= s && AllSpace(s[|t|..]) && (t != [] ==> !IsSpace(t[|t| - 1]))
  {
    if s != [] && IsSpace(s[|s| - 1]) {
      var m := |s| - 1;
      TrimEndTakes(s[..m]);
      var t := TrimEnd(s);
      forall i | 0 <= i < |s| - |t| ensures IsSpace(s[|t|..][i]) {
        if |t| + i < m { assert s[..m][|t|..][i] == s[|t| + i]; }
      }
    }
  }

  lemma {:induction false} UnquoteStartTakes(s: string)
    ensures var t := UnquoteStart(s);
      && |t| <= |s| && t == s[|s| - |t|..] && AllQuotes(s[..|s| - |t|]) && (t != [] ==> t[0] != '"')
  {
    if s != [] && s[0] == '"' {
      UnquoteStartTakes(s[1..]);
      var t := UnquoteStart(s);
      var n := |s| - |t|;
      assert s[1..][n - 1..] == s[n..];
      forall i | 0 <= i < n ensures s[..n][i] == '"' {
        if i > 0 { assert s[1..][..n - 1][i - 1] == s[i]; }
      }
    }
  }

  lemma {:induction false} UnquoteEndTakes(s: string)
    ensures var t := UnquoteEnd(s); t <= s && AllQuotes(s[|t|..]) && (t != [] ==> t[|t| - 1] != '"')
  {
    if s != [] && s[|s| - 1] == '"' {
      var m := |s| - 1;
      UnquoteEndTakes(s[..m]);
      var t := UnquoteEnd(s);
      forall i | 0 <= i < |s| - |t| ensures s[|t|..][i] == '"' {
        if |t| + i < m { assert s[..m][|t|..][i] == s[|t| + i]; }
      }
    }
  }

  /** `s` is `middle` between two outer parts. */
  predicate Between(s: string, before: string, middle: string, after: string) { s == before + middle + after }

  lemma Cut(s: string, t: string, u: string)
    requires t <= s && |u| <= |t| && u == t[|t| - |u|..]
    ensures Between(s, t[..|t| - |u|], u, s[|t|..])
  {
  }

  /** Trimming takes the white space off both ends, and nothing else. */
  lemma TrimMeans(s: string) returns (before: string, after: string)
    ensures Between(s, before, Trim(s), after) && AllSpace(before) && AllSpace(after)
    ensures Trim(s) != [] ==> !IsSpace(Trim(s)[0]) && !IsSpace(Trim(s)[|Trim(s)| - 1])
  {
    var t, u := TrimEnd(s), Trim(s);
    TrimEndTakes(s);
    TrimStartTakes(t);
    Cut(s, t, u);
    before, after := t[..|t| - |u|], s[|t|..];
  }

  /** Unquoting takes the quotes off both ends, however many, and nothing else. */
  lemma UnquoteMeans(s: string) returns (before: string, after: string)
    ensures Between(s, before, Unquote(s), after) && AllQuotes(before) && AllQuotes(after)
    ensures Unquote(s) != [] ==> Unquote(s)[0] != '"' && Unquote(s)[|Unquote(s)| - 1] != '"'
  {
    var t, u := UnquoteEnd(s), Unquote(s);
    UnquoteEndTakes(s);
    UnquoteStartTakes(t);
    Cut(s, t, u);
    before, after := t[..|t| - |u|], s[|t|..];
  }

  // ---- The address ----

  predicate Without(s: string, c: char) { forall i | 0 <= i < |s| :: s[i] != c }

  /** What a port is read as: the number if it is one and fits 16 bits, and else 0. */
  function PortOf(num: string): nat {
    match Parse(num)
    case None => 0
    case Some(v) => if 0 <= v < 65536 && num[0] != '-' then v else 0
  }

  lemma PortIs(num: string)
    ensures var p := ParseIn(num, 0, 65535); PortOf(num) == if p.Some? then p.value else 0
  {
  }

  lemma AtNone(s: string, c: char)
    requires Without(s, c)
    ensures At(s, c) == |s| && LastAt(s, c) == |s|
  {
  }

  /** `host:port@scheme`, and its shorter forms. The scheme starts at the first `@`, the port at the last colon
      before it. Every text has one of these forms. */
  lemma AddressIs(host: string, num: string, scheme: string)
    requires Without(host, '@')
    ensures Without(num, '@') && Without(num, ':') ==>
      && ParseAddr(host + ([':'] + num) + (['@'] + scheme)) == Endpoint(host, PortOf(num), scheme)
      && ParseAddr(host + ([':'] + num)) == Endpoint(host, PortOf(num), "")
    ensures Without(host, ':') ==>
      ParseAddr(host + (['@'] + scheme)) == Endpoint(host, 0, scheme) && ParseAddr(host) == Endpoint(host, 0, "")
  {
    if Without(num, '@') && Without(num, ':') { AddressWithPort(host, num, scheme); }
    if Without(host, ':') { AddressWithoutPort(host, scheme); }
  }

  /** Host and port of what stands before the scheme. */
  function HostPort(hostport: string, scheme: string): Endpoint {
    var colon := LastAt(hostport, ':');
    if colon < |hostport| then Endpoint(hostport[..colon], PortOf(hostport[colon + 1..]), scheme)
    else Endpoint(hostport, 0, scheme)
  }

  lemma SchemeApart(hostport: string, scheme: string)
    requires Without(hostport, '@')
    ensures ParseAddr(hostport + (['@'] + scheme)) == HostPort(hostport, scheme)
    ensures ParseAddr(hostport) == HostPort(hostport, "")
  {
    var colon := LastAt(hostport, ':');
    AtNone(hostport, '@');
    SplitAt(hostport, '@', scheme);
    if colon < |hostport| { PortIs(hostport[colon + 1..]); }
    assert hostport[..|hostport|] == hostport;
  }

  lemma PortApart(host: string, num: string, scheme: string)
    requires Without(num, ':')
    ensures HostPort(host + ([':'] + num), scheme) == Endpoint(host, PortOf(num), scheme)
  {
    SplitAtLast(host, ':', num);
  }

  lemma AddressWithPort(host: string, num: string, scheme: string)
    requires Without(host, '@') && Without(num, '@') && Without(num, ':')
    ensures ParseAddr(host + ([':'] + num) + (['@'] + scheme)) == Endpoint(host, PortOf(num), scheme)
    ensures ParseAddr(host + ([':'] + num)) == Endpoint(host, PortOf(num), "")
  {
    HostPortHasNoAt(host, num);
    SchemeApart(host + ([':'] + num), scheme);
    PortApart(host, num, scheme);
    PortApart(host, num, "");
  }

  lemma AddressWithoutPort(host: string, scheme: string)
    requires Without(host, '@') && Without(host, ':')
    ensures ParseAddr(host + (['@'] + scheme)) == Endpoint(host, 0, scheme)
    ensures ParseAddr(host) == Endpoint(host, 0, "")
  {
    AtNone(host, ':');
    SchemeApart(host, scheme);
  }

  /** Any of these forms. */
  lemma SomeForm(addr: string) returns (host: string, num: string, scheme: string)
    ensures Without(host, '@') && Without(num, '@') && Without(num, ':')
    ensures
      || addr == host + ([':'] + num) + (['@'] + scheme)
      || addr == host + ([':'] + num)
      || (Without(host, ':') && (addr == host + (['@'] + scheme) || addr == host))
  {
    var at := At(addr, '@');
    var hostport := addr[..at];
    var colon := LastAt(hostport, ':');
    scheme := if at < |addr| then addr[at + 1..] else "";
    if colon < |hostport| {
      host, num := hostport[..colon], hostport[colon + 1..];
      assert hostport == host + ([':'] + num);
    } else {
      host, num := hostport, "";
    }
    assert at < |addr| ==> addr == hostport + (['@'] + scheme);
  }

  const SOCKS: string := "socks5"
  const SOCKS_UPPER: string := "SOCKS5"

  /** `socks5`, each letter in either case. */
  predicate IsSocks(scheme: string) {
    |scheme| == 6 && forall i | 0 <= i < 6 :: scheme[i] == SOCKS[i] || scheme[i] == SOCKS_UPPER[i]
  }

  lemma SocksIff(scheme: string)
    ensures Lower(scheme) == "socks5" <==> IsSocks(scheme)
  {
    assert SOCKS == "socks5" && SOCKS_UPPER == "SOCKS5";
    if Lower(scheme) == SOCKS {
      forall i | 0 <= i < 6 ensures scheme[i] == SOCKS[i] || scheme[i] == SOCKS_UPPER[i] {
        assert Lower(scheme)[i] == SOCKS[i];
      }
    }
    if IsSocks(scheme) {
      forall i | 0 <= i < 6 ensures Lower(scheme)[i] == SOCKS[i] { }
      assert Lower(scheme) == SOCKS;
    }
  }

  /** It is the tunnel's: the manual mode, 4, this port, SOCKS 5, and this machine. */
  lemma OursIff(mode: int, e: Endpoint, localPort: nat)
    ensures Ours(mode, e, localPort) <==>
      mode == 4 && e.port == localPort && IsSocks(e.scheme) && (e.host == "127.0.0.1" || e.host == "localhost")
  {
    SocksIff(e.scheme);
  }

  /** The mode is the number in the file if it is one and fits 32 bits, and 0 if there is none or it is no number. */
  lemma ModeIs(value: string)
    ensures ModeOf(None) == 0 && (Parse(value) == None ==> ModeOf(Some(value)) == 0)
    ensures Parse(value).Some? ==>
      var v := Parse(value).value;
      ModeOf(Some(value)) == if -0x8000_0000 <= v < 0x8000_0000 then v else 0
  {
  }

  /** What `state` reports of a file: the two keys by their names, and the rest from them. */
  predicate Reports(s: SpotifyState, body: string, localPort: nat) {
    && s.found
    && s.mode == ModeOf(GetKey(body, "network.proxy.mode"))
    && s.addr == (match GetKey(body, "network.proxy.addr") case None => "" case Some(a) => a)
    && var e := ParseAddr(s.addr);
       && s.port == e.port
       && (s.pointsAtUs <==>
             s.mode == 4 && s.port == localPort && IsSocks(e.scheme) && (e.host == "127.0.0.1" || e.host == "localhost"))
  }

  lemma StateReports(body: string, localPort: nat)
    ensures Reports(StateOf(body, localPort), body, localPort)
  {
    var s := StateOf(body, localPort);
    OursIff(s.mode, ParseAddr(s.addr), localPort);
  }
}
