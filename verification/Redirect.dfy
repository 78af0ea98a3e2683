/** The authorization request (`src-tauri/src/auth.rs`): the URL builder and the query parser on the two ends
    of section 4.1 of RFC 6749, with the PKCE parameters of section 4.3 of RFC 7636. */
module Redirect {
  import opened Bytes
  import opened Percent

  datatype Param = Param(key: seq<byte>, value: seq<byte>)

  /** What the builder draws on. `scopes` and `resource` are already trimmed. */
  datatype Request = Request(
    issuer: seq<byte>,
    clientId: seq<byte>,
    redirectUri: seq<byte>,
    scopes: seq<byte>,
    challenge: seq<byte>,
    state: seq<byte>,
    resource: seq<byte>)

  /** All of one byte at the end goes, and nothing else. */
  function TrimEnd(s: seq<byte>, b: byte): (t: seq<byte>)
    ensures t <= s && (t != [] ==> t[|t| - 1] != b) && forall i | |t| <= i < |s| :: s[i] == b
  {
    if s != [] && s[|s| - 1] == b then TrimEnd(s[..|s| - 1], b) else s
  }

  predicate Contains(s: seq<byte>, part: seq<byte>) {
    part <= s || (s != [] && Contains(s[1..], part))
  }

  predicate StandsAt(s: seq<byte>, part: seq<byte>, i: nat) { i + |part| <= |s| && s[i..i + |part|] == part }

  /** Somewhere in the text. */
  lemma {:induction false} ContainsIff(s: seq<byte>, part: seq<byte>)
    ensures Contains(s, part) <==> exists i: nat :: StandsAt(s, part, i)
  {
    if part <= s { assert StandsAt(s, part, 0); }
    if s != [] {
      ContainsIff(s[1..], part);
      forall i: nat ensures StandsAt(s[1..], part, i) <==> StandsAt(s, part, i + 1) {
        if i + 1 + |part| <= |s| { assert s[1..][i..i + |part|] == s[i + 1..i + 1 + |part|]; }
      }
      if exists i: nat :: StandsAt(s, part, i) {
        var i: nat :| StandsAt(s, part, i);
        if i == 0 { assert part <= s; } else { assert StandsAt(s[1..], part, i - 1); }
      }
      if exists i: nat :: StandsAt(s[1..], part, i) {
        var i: nat :| StandsAt(s[1..], part, i);
        assert StandsAt(s, part, i + 1);
      }
    }
  }

  // ---- Building ----

  function FixedParams(r: Request): seq<Param> {
    [ Param(Ascii("client_id"), r.clientId),
      Param(Ascii("response_type"), Ascii("code")),
      Param(Ascii("redirect_uri"), r.redirectUri),
      Param(Ascii("scope"), r.scopes),
      Param(Ascii("code_challenge"), r.challenge),
      Param(Ascii("code_challenge_method"), Ascii("S256")),
      Param(Ascii("state"), r.state) ]
  }

  function ResourceParam(r: Request): seq<Param> {
    if r.resource != [] then [Param(Ascii("resource"), r.resource)] else []
  }

  function PromptParam(r: Request): seq<Param> {
    if Contains(r.scopes, Ascii("offline_access")) then [Param(Ascii("prompt"), Ascii("consent"))] else []
  }

  /** The parameters a request stands for, in order. */
  function Params(r: Request): seq<Param> { FixedParams(r) + ResourceParam(r) + PromptParam(r) }

  function Field(p: Param): seq<byte> { p.key + [EQUALS] + Escaped(p.value) }

  /** The fields joined by `&`. */
  function QueryText(ps: seq<Param>): seq<byte> {
    if ps == [] then []
    else if |ps| == 1 then Field(ps[0])
    else Field(ps[0]) + [AMPERSAND] + QueryText(ps[1..])
  }

  function Endpoint(r: Request): seq<byte> { TrimEnd(r.issuer, SLASH) + Ascii("/auth") }

  // ---- Parsing ----

  function PlusToSpace(s: seq<byte>): (t: seq<byte>)
    ensures |t| == |s|
  {
    seq(|s|, i requires 0 <= i < |s| => if s[i] == PLUS then SPACE else s[i])
  }

  lemma PlusIsSpace(s: seq<byte>, i: nat)
    requires i < |s|
    ensures PlusToSpace(s)[i] == if s[i] == '+' as int then ' ' as int else s[i]
  {
  }

  function ParseField(pair: seq<byte>): Param {
    match SplitOnce(pair, EQUALS)
    case None => Param(pair, Unescaped(PlusToSpace([])))
    case Some(kv) => Param(kv.0, Unescaped(PlusToSpace(kv.1)))
  }

  /** A field without `=` is a name without a value. */
  lemma BareField(pair: seq<byte>)
    requires '=' as int !in pair
    ensures ParseField(pair) == Param(pair, [])
  {
  }

  function ParseFields(pairs: seq<seq<byte>>): (ps: seq<Param>)
    ensures |ps| == |pairs|
  {
    if pairs == [] then [] else [ParseField(pairs[0])] + ParseFields(pairs[1..])
  }

  function Parse(query: seq<byte>): seq<Param> { ParseFields(Split(query, AMPERSAND)) }

  /** What stands after the first `?`, or nothing. */
  function QueryOf(target: seq<byte>): seq<byte> {
    match SplitOnce(target, QUESTION)
    case None => []
    case Some(p) => p.1
  }

  predicate PlainKey(k: seq<byte>) { AMPERSAND !in k && EQUALS !in k }

  lemma NoPlus(s: seq<byte>)
    requires PLUS !in s
    ensures PlusToSpace(s) == s
  {
  }

  lemma ValueBack(value: seq<byte>)
    ensures Unescaped(PlusToSpace(Escaped(value))) == value
  {
    EscapedIsPlain(value);
    NoPlus(Escaped(value));
    UnescapeInverts(value, []);
    assert Escaped(value) + [] == Escaped(value) && value + [] == value;
  }

  lemma FieldBack(p: Param)
    requires PlainKey(p.key)
    ensures ParseField(Field(p)) == p && AMPERSAND !in Field(p)
  {
    FoundAt(p.key, EQUALS, Escaped(p.value));
    EscapedIsPlain(p.value);
    ValueBack(p.value);
  }

  predicate AllPlain(ps: seq<Param>) { forall p | p in ps :: PlainKey(p.key) }

  lemma PlainRest(ps: seq<Param>)
    requires ps != [] && AllPlain(ps)
    ensures PlainKey(ps[0].key) && AllPlain(ps[1..]) && [ps[0]] + ps[1..] == ps
  {
    assert ps[0] in ps;
    forall p | p in ps[1..] ensures PlainKey(p.key) { assert p in ps; }
  }

  lemma ParseCons(first: Param, rest: seq<Param>, text: seq<byte>)
    requires PlainKey(first.key) && Parse(text) == rest
    ensures Parse(Field(first) + [AMPERSAND] + text) == [first] + rest
  {
    FieldBack(first);
    ParseFirst(Field(first), text);
  }

  /** Whatever the values are, the parser gives back the parameters that were written, in order. */
  lemma {:induction false} ParseInverts(ps: seq<Param>)
    requires ps != [] && AllPlain(ps)
    ensures Parse(QueryText(ps)) == ps
  {
    PlainRest(ps);
    if |ps| == 1 {
      FieldBack(ps[0]);
      ParseLast(Field(ps[0]));
    } else {
      ParseInverts(ps[1..]);
      ParseCons(ps[0], ps[1..], QueryText(ps[1..]));
    }
  }

  lemma ParseLast(field: seq<byte>)
    requires AMPERSAND !in field
    ensures Parse(field) == [ParseField(field)]
  {
    assert Find(field, AMPERSAND).None?;
    assert Split(field, AMPERSAND) == [field] && [field][1..] == [];
  }

  lemma ParseFirst(field: seq<byte>, rest: seq<byte>)
    requires AMPERSAND !in field
    ensures Parse(field + [AMPERSAND] + rest) == [ParseField(field)] + Parse(rest)
  {
    FoundAt(field, AMPERSAND, rest);
    var pieces := Split(rest, AMPERSAND);
    assert ([field] + pieces)[1..] == pieces;
  }

  // ---- The request round trip ----

  lemma PlainLiteral(s: string)
    requires forall i | 0 <= i < |s| :: s[i] < '\U{80}' && s[i] != '&' && s[i] != '='
    ensures PlainKey(Ascii(s))
  {
  }

  lemma ShortNames()
    ensures PlainKey(Ascii("client_id")) && PlainKey(Ascii("scope")) && PlainKey(Ascii("state"))
    ensures PlainKey(Ascii("resource")) && PlainKey(Ascii("prompt"))
  {
    PlainLiteral("client_id");
    PlainLiteral("scope");
    PlainLiteral("state");
    PlainLiteral("resource");
    PlainLiteral("prompt");
  }

  lemma LongNames()
    ensures PlainKey(Ascii("response_type")) && PlainKey(Ascii("redirect_uri"))
    ensures PlainKey(Ascii("code_challenge")) && PlainKey(Ascii("code_challenge_method"))
  {
    PlainLiteral("response_type");
    PlainLiteral("redirect_uri");
    PlainLiteral("code_challenge");
    PlainLiteral("code_challenge_method");
  }

  lemma PlainParams(r: Request)
    ensures AllPlain(Params(r))
  {
    ShortNames();
    LongNames();
  }

  function Url(r: Request): seq<byte> { Endpoint(r) + [QUESTION] + QueryText(Params(r)) }

  lemma QueryOfUrl(r: Request)
    requires QUESTION !in r.issuer
    ensures QueryOf(Url(r)) == QueryText(Params(r))
  {
    assert QUESTION !in Ascii("/auth");
    FoundAt(Endpoint(r), QUESTION, QueryText(Params(r)));
  }

  lemma RequestRoundTrip(r: Request)
    requires QUESTION !in r.issuer
    ensures Parse(QueryOf(Url(r))) == Params(r)
  {
    QueryOfUrl(r);
    PlainParams(r);
    ParseInverts(Params(r));
  }

  /** For every value of every parameter, the query of the URL reads back as exactly the parameters, in
      order, if and only if the issuer has no `?` of its own. */
  lemma RequestReadsBackIff(r: Request)
    ensures Parse(QueryOf(Url(r))) == Params(r) <==> QUESTION !in r.issuer
  {
    if QUESTION !in r.issuer {
      RequestRoundTrip(r);
    } else {
      var ps := Params(r);
      TrimEndKeeps(r.issuer, SLASH, QUESTION);
      var stray := StrayPart(Endpoint(r), QueryText(ps));
      PlainParams(r);
      FirstKey();
      StrayText(stray, ps);
    }
  }

  lemma FirstKey()
    ensures var k := Ascii("client_id"); |k| >= 2 && PERCENT !in k && PLUS !in k
  {
  }

  lemma StrayPart(base: seq<byte>, query: seq<byte>) returns (stray: seq<byte>)
    requires QUESTION in base
    ensures stray != [] && stray[|stray| - 1] == QUESTION
    ensures QueryOf(base + [QUESTION] + query) == stray + query
  {
    var i := Find(base, QUESTION).value;
    stray := base[i + 1..] + [QUESTION];
    assert base + [QUESTION] + query == base[..i] + [QUESTION] + (stray + query);
    FoundAt(base[..i], QUESTION, stray + query);
  }

  /** Text before the first parameter either adds a parameter or corrupts the first one. */
  lemma StrayText(stray: seq<byte>, ps: seq<Param>)
    requires stray != [] && stray[|stray| - 1] == QUESTION
    requires |ps| >= 2 && AllPlain(ps)
    requires |ps[0].key| >= 2 && PERCENT !in ps[0].key && PLUS !in ps[0].key
    ensures Parse(stray + QueryText(ps)) != ps
  {
    if AMPERSAND in stray {
      ParseInverts(ps);
      PieceCount(stray, QueryText(ps));
    } else {
      var rest := QueryText(ps[1..]);
      StrayFirst(stray, ps[0], rest);
      StrayJoined(stray, Field(ps[0]), rest);
    }
  }

  lemma StrayJoined(stray: seq<byte>, field: seq<byte>, rest: seq<byte>)
    ensures stray + (field + [AMPERSAND] + rest) == stray + field + [AMPERSAND] + rest
  {
  }

  lemma StrayFirst(stray: seq<byte>, p: Param, rest: seq<byte>)
    requires stray != [] && stray[|stray| - 1] == QUESTION && AMPERSAND !in stray
    requires PlainKey(p.key) && |p.key| >= 2 && PERCENT !in p.key && PLUS !in p.key
    ensures Parse(stray + Field(p) + [AMPERSAND] + rest)[0] != p
  {
    FieldBack(p);
    ParseFirst(stray + Field(p), rest);
    StrayField(stray, p);
  }

  lemma StrayField(stray: seq<byte>, p: Param)
    requires stray != [] && stray[|stray| - 1] == QUESTION && PlainKey(p.key) && |p.key| >= 2
    requires PERCENT !in p.key && PLUS !in p.key
    ensures ParseField(stray + Field(p)) != p
  {
    match Find(stray, EQUALS)
    case None =>
      assert stray + Field(p) == (stray + p.key) + [EQUALS] + Escaped(p.value);
      FoundAt(stray + p.key, EQUALS, Escaped(p.value));
    case Some(i) =>
      var head := stray[i + 1..] + p.key + [EQUALS];
      assert stray + Field(p) == stray[..i] + [EQUALS] + (head + Escaped(p.value));
      FoundAt(stray[..i], EQUALS, head + Escaped(p.value));
      LongerValue(head, p.value);
  }

  lemma LongerValue(head: seq<byte>, value: seq<byte>)
    requires |head| >= 2 && head[|head| - 1] != PERCENT && head[|head| - 2] != PERCENT
    ensures |Unescaped(PlusToSpace(head + Escaped(value)))| > |value|
  {
    EscapedIsPlain(value);
    NoPlus(Escaped(value));
    assert PlusToSpace(head + Escaped(value)) == PlusToSpace(head) + Escaped(value);
    UnescapedApart(PlusToSpace(head), Escaped(value));
    UnescapeInverts(value, []);
    assert Escaped(value) + [] == Escaped(value);
  }

  /** Text that does not end in the middle of an escape is decoded on its own, and never to nothing. */
  lemma {:induction false} UnescapedApart(a: seq<byte>, b: seq<byte>)
    requires |a| >= 1 && a[|a| - 1] != PERCENT && (|a| >= 2 ==> a[|a| - 2] != PERCENT)
    ensures Unescaped(a + b) == Unescaped(a) + Unescaped(b) && Unescaped(a) != []
    decreases a
  {
    var escape := a[0] == PERCENT && |a| > 2 && FromHex(a[1], a[2]).Some?;
    var step := if escape then 3 else 1;
    var head := if escape then FromHex(a[1], a[2]).value else a[0];
    var tail := a[step..];
    Tails(a, b, step);
    assert Unescaped(a) == [head] + Unescaped(tail);
    assert Unescaped(a + b) == [head] + Unescaped(tail + b);
    if tail != [] { UnescapedApart(tail, b); }
    Associate([head], Unescaped(tail), Unescaped(b));
  }

  lemma Tails(a: seq<byte>, b: seq<byte>, step: nat)
    requires step <= |a|
    ensures (a + b)[step..] == a[step..] + b
    ensures step == |a| ==> a[step..] + b == b
  {
  }

  function Pieces(s: seq<byte>): nat { |Split(s, AMPERSAND)| }

  lemma {:induction false} PieceCount(a: seq<byte>, b: seq<byte>)
    ensures Pieces(a + b) == Pieces(a) + Pieces(b) - 1
    ensures Pieces(a) > 1 <==> AMPERSAND in a
    decreases a
  {
    match Find(a, AMPERSAND)
    case None => PieceCountPlain(a, b);
    case Some(i) =>
      var x, tail := a[..i], a[i + 1..];
      assert a == x + [AMPERSAND] + tail && a + b == x + [AMPERSAND] + (tail + b);
      FoundAt(x, AMPERSAND, tail);
      FoundAt(x, AMPERSAND, tail + b);
      PieceCount(tail, b);
  }

  lemma PieceCountPlain(a: seq<byte>, b: seq<byte>)
    requires AMPERSAND !in a
    ensures Pieces(a + b) == Pieces(b)
  {
    match Find(b, AMPERSAND)
    case None => assert AMPERSAND !in a + b;
    case Some(i) =>
      assert b == b[..i] + [AMPERSAND] + b[i + 1..] && a + b == (a + b[..i]) + [AMPERSAND] + b[i + 1..];
      FoundAt(b[..i], AMPERSAND, b[i + 1..]);
      FoundAt(a + b[..i], AMPERSAND, b[i + 1..]);
  }

  lemma {:induction false} TrimEndKeeps(s: seq<byte>, b: byte, c: byte)
    requires c in s && c != b
    ensures c in TrimEnd(s, b)
  {
    if s[|s| - 1] == b { TrimEndKeeps(s[..|s| - 1], b, c); }
  }

  lemma {:induction false} AppendField(ps: seq<Param>, p: Param)
    requires ps != []
    ensures QueryText(ps + [p]) == QueryText(ps) + [AMPERSAND] + Field(p)
  {
    assert (ps + [p])[1..] == ps[1..] + [p];
    if |ps| > 1 {
      AppendField(ps[1..], p);
    } else {
      assert ps[1..] + [p] == [p];
    }
  }

  lemma {:induction false} UnreservedStays(s: seq<byte>)
    requires forall b | b in s :: Unreserved(b)
    ensures Escaped(s) == s
  {
    if s != [] {
      var front, last := s[..|s| - 1], s[|s| - 1];
      assert last in s && front + [last] == s;
      UnreservedStays(front);
      assert Escape(last) == [last];
    }
  }

  lemma Literals()
    ensures Escaped(Ascii("code")) == Ascii("code")
    ensures Escaped(Ascii("S256")) == Ascii("S256")
    ensures Escaped(Ascii("consent")) == Ascii("consent")
  {
    LiteralStays("code");
    LiteralStays("S256");
    LiteralStays("consent");
  }

  lemma LiteralStays(s: string)
    requires forall i | 0 <= i < |s| :: 'a' <= s[i] <= 'z' || 'A' <= s[i] <= 'Z' || '0' <= s[i] <= '9'
    ensures Escaped(Ascii(s)) == Ascii(s)
  {
    UnreservedStays(Ascii(s));
  }

  // ---- Which value goes under which name ----

  /** The values that come under a name, in order. */
  function ValuesUnder(ps: seq<Param>, key: seq<byte>): seq<seq<byte>> {
    if ps == [] then []
    else ValuesUnder(ps[..|ps| - 1], key) + if ps[|ps| - 1].key == key then [ps[|ps| - 1].value] else []
  }

  /** The request's own fields, each once and under its own name; the three fixed values under theirs; a resource if
      there is one; the consent prompt if the scopes contain `offline_access` somewhere; and no other name. */
  ghost predicate Carries(ps: seq<Param>, r: Request) {
    && CarriesFixed(ps, r)
    && ValuesUnder(ps, Ascii("resource")) == (if r.resource == [] then [] else [r.resource])
    && ValuesUnder(ps, Ascii("prompt")) == (if AsksOffline(r.scopes) then [Ascii("consent")] else [])
    && AllNamed(ps)
  }

  predicate CarriesFixed(ps: seq<Param>, r: Request) {
    && ValuesUnder(ps, Ascii("client_id")) == [r.clientId]
    && ValuesUnder(ps, Ascii("response_type")) == [Ascii("code")]
    && ValuesUnder(ps, Ascii("redirect_uri")) == [r.redirectUri]
    && ValuesUnder(ps, Ascii("scope")) == [r.scopes]
    && ValuesUnder(ps, Ascii("code_challenge")) == [r.challenge]
    && ValuesUnder(ps, Ascii("code_challenge_method")) == [Ascii("S256")]
    && ValuesUnder(ps, Ascii("state")) == [r.state]
  }

  predicate AllNamed(ps: seq<Param>) { forall p | p in ps :: IsName(p.key) }

  ghost predicate AsksOffline(scopes: seq<byte>) { exists i: nat :: StandsAt(scopes, Ascii("offline_access"), i) }

  predicate IsName(key: seq<byte>) {
    || key == Ascii("client_id") || key == Ascii("response_type") || key == Ascii("redirect_uri")
    || key == Ascii("scope") || key == Ascii("code_challenge") || key == Ascii("code_challenge_method")
    || key == Ascii("state") || key == Ascii("resource") || key == Ascii("prompt")
  }

  lemma OneValueMore(ps: seq<Param>, p: Param, key: seq<byte>)
    ensures ValuesUnder(ps + [p], key) == ValuesUnder(ps, key) + if p.key == key then [p.value] else []
  {
    assert (ps + [p])[..|ps|] == ps;
  }

  function Pick(p: Param, key: seq<byte>): seq<seq<byte>> { if p.key == key then [p.value] else [] }

  lemma {:induction false} ValuesJoined(ps: seq<Param>, qs: seq<Param>, key: seq<byte>)
    ensures ValuesUnder(ps + qs, key) == ValuesUnder(ps, key) + ValuesUnder(qs, key)
  {
    if qs == [] {
      assert ps + qs == ps;
    } else {
      var m := |qs| - 1;
      ValuesJoined(ps, qs[..m], key);
      OneValueMore(ps + qs[..m], qs[m], key);
      assert ps + qs == (ps + qs[..m]) + [qs[m]];
    }
  }

  lemma ValuesOfOne(a: Param, key: seq<byte>)
    ensures ValuesUnder([a], key) == Pick(a, key)
  {
    assert [a][..0] == [];
  }

  lemma ValuesOfTwo(a: Param, b: Param, key: seq<byte>)
    ensures ValuesUnder([a, b], key) == Pick(a, key) + Pick(b, key)
  {
    ValuesOfOne(a, key);
    ValuesOfOne(b, key);
    ValuesJoined([a], [b], key);
    assert [a] + [b] == [a, b];
  }

  lemma ValuesOfFour(a: Param, b: Param, c: Param, d: Param, key: seq<byte>)
    ensures ValuesUnder([a, b, c, d], key) == (Pick(a, key) + Pick(b, key)) + (Pick(c, key) + Pick(d, key))
  {
    ValuesOfTwo(a, b, key);
    ValuesOfTwo(c, d, key);
    ValuesJoined([a, b], [c, d], key);
    assert [a, b] + [c, d] == [a, b, c, d];
  }

  lemma ValuesOfThree(a: Param, b: Param, c: Param, key: seq<byte>)
    ensures ValuesUnder([a, b, c], key) == (Pick(a, key) + Pick(b, key)) + Pick(c, key)
  {
    ValuesOfTwo(a, b, key);
    ValuesOfOne(c, key);
    ValuesJoined([a, b], [c], key);
    assert [a, b] + [c] == [a, b, c];
  }

  lemma ValuesOfSeven(a: Param, b: Param, c: Param, d: Param, e: Param, f: Param, g: Param, key: seq<byte>)
    ensures ValuesUnder([a, b, c, d, e, f, g], key) ==
      ((Pick(a, key) + Pick(b, key)) + (Pick(c, key) + Pick(d, key))) + ((Pick(e, key) + Pick(f, key)) + Pick(g, key))
  {
    ValuesOfFour(a, b, c, d, key);
    ValuesOfThree(e, f, g, key);
    ValuesJoined([a, b, c, d], [e, f, g], key);
    assert [a, b, c, d] + [e, f, g] == [a, b, c, d, e, f, g];
  }

  /** Seven fields under seven names, told apart by their lengths and, two of them, otherwise. */
  predicate SevenNames(a: Param, b: Param, c: Param, d: Param, e: Param, f: Param, g: Param) {
    && |a.key| == 9 && |b.key| == 13 && |c.key| == 12 && |d.key| == 5 && |e.key| == 14 && |f.key| == 21
    && |g.key| == 5 && d.key != g.key
  }

  lemma EachOnce(a: Param, b: Param, c: Param, d: Param, e: Param, f: Param, g: Param, ps: seq<Param>)
    requires SevenNames(a, b, c, d, e, f, g) && ps == [a, b, c, d, e, f, g]
    ensures ValuesUnder(ps, a.key) == [a.value] && ValuesUnder(ps, b.key) == [b.value]
    ensures ValuesUnder(ps, c.key) == [c.value] && ValuesUnder(ps, d.key) == [d.value]
    ensures ValuesUnder(ps, e.key) == [e.value] && ValuesUnder(ps, f.key) == [f.value]
    ensures ValuesUnder(ps, g.key) == [g.value]
  {
    ValuesOfSeven(a, b, c, d, e, f, g, a.key);
    ValuesOfSeven(a, b, c, d, e, f, g, b.key);
    ValuesOfSeven(a, b, c, d, e, f, g, c.key);
    ValuesOfSeven(a, b, c, d, e, f, g, d.key);
    ValuesOfSeven(a, b, c, d, e, f, g, e.key);
    ValuesOfSeven(a, b, c, d, e, f, g, f.key);
    ValuesOfSeven(a, b, c, d, e, f, g, g.key);
  }

  lemma OtherNames(
    a: Param, b: Param, c: Param, d: Param, e: Param, f: Param, g: Param, ps: seq<Param>, key: seq<byte>)
    requires SevenNames(a, b, c, d, e, f, g) && ps == [a, b, c, d, e, f, g] && (|key| == 8 || |key| == 6)
    ensures ValuesUnder(ps, key) == []
  {
    ValuesOfSeven(a, b, c, d, e, f, g, key);
  }

  /** At most two more, under names of their own. */
  predicate TwoMore(resource: seq<Param>, prompt: seq<Param>) {
    && |resource| <= 1 && (forall p | p in resource :: |p.key| == 8)
    && |prompt| <= 1 && (forall p | p in prompt :: |p.key| == 6)
  }

  /** The value under the name, if the one parameter there may be has it. */
  function PickOf(more: seq<Param>, key: seq<byte>): seq<seq<byte>> {
    if more == [] then [] else Pick(more[0], key)
  }

  lemma AtMostOneMore(ps: seq<Param>, more: seq<Param>, key: seq<byte>)
    requires |more| <= 1
    ensures ValuesUnder(ps + more, key) == ValuesUnder(ps, key) + PickOf(more, key)
  {
    if more == [] {
      assert ps + more == ps;
    } else {
      assert more == [more[0]];
      OneValueMore(ps, more[0], key);
    }
  }

  lemma WithTwoMore(ps: seq<Param>, resource: seq<Param>, prompt: seq<Param>, key: seq<byte>)
    requires TwoMore(resource, prompt)
    ensures ValuesUnder(ps + resource + prompt, key) == ValuesUnder(ps, key) + PickOf(resource, key) + PickOf(prompt, key)
  {
    AtMostOneMore(ps, resource, key);
    AtMostOneMore(ps + resource, prompt, key);
  }

  lemma NoneOfTheTwo(ps: seq<Param>, resource: seq<Param>, prompt: seq<Param>, key: seq<byte>)
    requires TwoMore(resource, prompt) && |key| != 8 && |key| != 6
    ensures ValuesUnder(ps + resource + prompt, key) == ValuesUnder(ps, key)
  {
    WithTwoMore(ps, resource, prompt, key);
    NotPicked(resource, 8, key);
    NotPicked(prompt, 6, key);
    NothingAdded(ValuesUnder(ps, key), PickOf(resource, key), PickOf(prompt, key));
  }

  lemma NotPicked(more: seq<Param>, n: nat, key: seq<byte>)
    requires |more| <= 1 && (forall p | p in more :: |p.key| == n) && |key| != n
    ensures PickOf(more, key) == []
  {
    if more != [] { assert more[0] in more; }
  }

  lemma NothingAdded(values: seq<seq<byte>>, more: seq<seq<byte>>, still: seq<seq<byte>>)
    requires more == [] && still == []
    ensures values + more + still == values
  {
  }

  lemma OneOfTheTwo(ps: seq<Param>, resource: seq<Param>, prompt: seq<Param>, key: seq<byte>)
    requires TwoMore(resource, prompt) && ValuesUnder(ps, key) == []
    ensures |key| == 8 ==> ValuesUnder(ps + resource + prompt, key) == PickOf(resource, key)
    ensures |key| == 6 ==> ValuesUnder(ps + resource + prompt, key) == PickOf(prompt, key)
  {
    WithTwoMore(ps, resource, prompt, key);
    if |key| == 8 { NotPicked(prompt, 6, key); }
    if |key| == 6 { NotPicked(resource, 8, key); }
  }

  lemma NamesApart()
    ensures |Ascii("client_id")| == 9 && |Ascii("response_type")| == 13 && |Ascii("redirect_uri")| == 12
    ensures |Ascii("scope")| == 5 && |Ascii("code_challenge")| == 14 && |Ascii("code_challenge_method")| == 21
    ensures |Ascii("state")| == 5 && |Ascii("resource")| == 8 && |Ascii("prompt")| == 6
    ensures Ascii("scope") != Ascii("state")
  {
    assert Ascii("scope")[1] == 'c' as int && Ascii("state")[1] == 't' as int;
  }

  lemma TwoMoreNamed(r: Request)
    ensures TwoMore(ResourceParam(r), PromptParam(r))
  {
    NamesApart();
  }

  lemma FixedCarried(r: Request)
    ensures CarriesFixed(Params(r), r)
  {
    var ps := FixedParams(r);
    NamesApart();
    TwoMoreNamed(r);
    CarriedBySeven(ps[0], ps[1], ps[2], ps[3], ps[4], ps[5], ps[6], ps, ResourceParam(r), PromptParam(r));
  }

  lemma MoreCarried(r: Request, name: seq<byte>, prompt: seq<byte>)
    requires name == Ascii("resource") && prompt == Ascii("prompt")
    ensures ValuesUnder(Params(r), name) == PickOf(ResourceParam(r), name)
    ensures ValuesUnder(Params(r), prompt) == PickOf(PromptParam(r), prompt)
  {
    var ps := FixedParams(r);
    NamesApart();
    TwoMoreNamed(r);
    OtherNames(ps[0], ps[1], ps[2], ps[3], ps[4], ps[5], ps[6], ps, name);
    OtherNames(ps[0], ps[1], ps[2], ps[3], ps[4], ps[5], ps[6], ps, prompt);
    OneOfTheTwo(ps, ResourceParam(r), PromptParam(r), name);
    OneOfTheTwo(ps, ResourceParam(r), PromptParam(r), prompt);
  }

  lemma ParamsNamed(r: Request)
    ensures AllNamed(Params(r))
  {
    var ps, resource, prompt := FixedParams(r), ResourceParam(r), PromptParam(r);
    forall p | p in Params(r) ensures IsName(p.key) {
      assert p in ps || p in resource || p in prompt;
    }
  }

  lemma ParamsCarry(r: Request)
    ensures Carries(Params(r), r)
  {
    ContainsIff(r.scopes, Ascii("offline_access"));
    FixedCarried(r);
    MoreCarried(r, Ascii("resource"), Ascii("prompt"));
    ParamsNamed(r);
  }

  lemma CarriedBySeven(
    a: Param, b: Param, c: Param, d: Param, e: Param, f: Param, g: Param, seven: seq<Param>,
    resource: seq<Param>, prompt: seq<Param>)
    requires SevenNames(a, b, c, d, e, f, g) && seven == [a, b, c, d, e, f, g] && TwoMore(resource, prompt)
    ensures var ps := seven + resource + prompt;
      && ValuesUnder(ps, a.key) == [a.value] && ValuesUnder(ps, b.key) == [b.value]
      && ValuesUnder(ps, c.key) == [c.value] && ValuesUnder(ps, d.key) == [d.value]
      && ValuesUnder(ps, e.key) == [e.value] && ValuesUnder(ps, f.key) == [f.value]
      && ValuesUnder(ps, g.key) == [g.value]
  {
    EachOnce(a, b, c, d, e, f, g, seven);
    NoneOfTheTwo(seven, resource, prompt, a.key);
    NoneOfTheTwo(seven, resource, prompt, b.key);
    NoneOfTheTwo(seven, resource, prompt, c.key);
    NoneOfTheTwo(seven, resource, prompt, d.key);
    NoneOfTheTwo(seven, resource, prompt, e.key);
    NoneOfTheTwo(seven, resource, prompt, f.key);
    NoneOfTheTwo(seven, resource, prompt, g.key);
  }

  /** `authorize_url`: the fixed parameters, then the resource and the consent prompt when they apply. The
      three literal values it writes unescaped are their own escapes, by `Literals`. */
  method AuthorizeUrl(r: Request) returns (url: seq<byte>)
    ensures url == Url(r)
    ensures var start := TrimEnd(r.issuer, SLASH) + Ascii("/auth?");
      start <= url && Carries(Parse(url[|start|..]), r) && (QUESTION !in r.issuer ==> QueryOf(url) == url[|start|..])
  {
    var fields := [
      Param(Ascii("client_id"), r.clientId), Param(Ascii("response_type"), Ascii("code")),
      Param(Ascii("redirect_uri"), r.redirectUri), Param(Ascii("scope"), r.scopes),
      Param(Ascii("code_challenge"), r.challenge), Param(Ascii("code_challenge_method"), Ascii("S256")),
      Param(Ascii("state"), r.state)];
    if r.resource != [] { fields := fields + [Param(Ascii("resource"), r.resource)]; }
    if Contains(r.scopes, Ascii("offline_access")) {
      fields := fields + [Param(Ascii("prompt"), Ascii("consent"))];
    }
    assert fields == Params(r);
    var query := WriteFields(fields);
    url := Endpoint(r) + [QUESTION] + query;
    UrlCarries(r, TrimEnd(r.issuer, SLASH) + Ascii("/auth?"), query);
  }

  lemma UrlCarries(r: Request, start: seq<byte>, query: seq<byte>)
    requires start == TrimEnd(r.issuer, SLASH) + Ascii("/auth?") && query == QueryText(Params(r))
    ensures Url(r) == start + query && (start + query)[|start|..] == query
    ensures Carries(Parse(query), r) && (QUESTION !in r.issuer ==> QueryOf(Url(r)) == query)
  {
    UrlStarts(TrimEnd(r.issuer, SLASH), query);
    ParamsCarry(r);
    PlainParams(r);
    ParseInverts(Params(r));
    if QUESTION !in r.issuer { QueryOfUrl(r); }
  }

  lemma UrlStarts(base: seq<byte>, query: seq<byte>)
    ensures base + Ascii("/auth?") + query == base + Ascii("/auth") + [QUESTION] + query
  {
    assert Ascii("/auth?") == Ascii("/auth") + [QUESTION];
    assert base + (Ascii("/auth") + [QUESTION]) == base + Ascii("/auth") + [QUESTION];
  }

  method WriteFields(fields: seq<Param>) returns (query: seq<byte>)
    requires fields != []
    ensures query == QueryText(fields)
  {
    var value := Percent.Percent(fields[0].value);
    query := fields[0].key + [EQUALS] + value;
    for i := 1 to |fields|
      invariant query == QueryText(fields[..i])
    {
      value := Percent.Percent(fields[i].value);
      AppendField(fields[..i], fields[i]);
      assert fields[..i + 1] == fields[..i] + [fields[i]];
      query := query + [AMPERSAND] + (fields[i].key + [EQUALS] + value);
    }
    assert fields[..|fields|] == fields;
  }
}
