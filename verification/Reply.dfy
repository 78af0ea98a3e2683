/** The redirect that answers the authorization request (`src-tauri/src/auth.rs`): what `await_code` makes of the
    target the browser asks for. */
module Reply {
  import opened Bytes
  import opened Percent
  import opened Redirect
  import opened Wrappers

  // ---- The decision ----

  datatype Refusal = ProviderRefused(error: seq<byte>, description: seq<byte>) | NoCode | StateMismatch

  /** The value of the last parameter of that name, or empty. */
  function LastValue(ps: seq<Param>, key: seq<byte>): seq<byte> {
    if ps == [] then []
    else if ps[|ps| - 1].key == key then ps[|ps| - 1].value
    else LastValue(ps[..|ps| - 1], key)
  }

  function Decision(ps: seq<Param>, sent: seq<byte>): Result<seq<byte>, Refusal> {
    var error := LastValue(ps, Ascii("error"));
    var code := LastValue(ps, Ascii("code"));
    if error != [] then Err(ProviderRefused(error, LastValue(ps, Ascii("error_description"))))
    else if code == [] then Err(NoCode)
    else if LastValue(ps, Ascii("state")) != sent then Err(StateMismatch)
    else Ok(code)
  }

  function Last(values: seq<seq<byte>>): seq<byte> { if values == [] then [] else values[|values| - 1] }

  /** It is the last of the values under that name. */
  lemma {:induction false} LastValueIs(ps: seq<Param>, key: seq<byte>)
    ensures LastValue(ps, key) == Last(ValuesUnder(ps, key))
  {
    if ps != [] { LastValueIs(ps[..|ps| - 1], key); }
  }

  /** Why a reply is refused: an error, with its description, before anything else; no code; or, with a code, a state
      that is not the one sent. */
  lemma RefusedWhy(ps: seq<Param>, sent: seq<byte>, error: seq<byte>, description: seq<byte>)
    ensures Decision(ps, sent) == Err(ProviderRefused(error, description)) <==>
      error != [] && Last(ValuesUnder(ps, Ascii("error"))) == error &&
      Last(ValuesUnder(ps, Ascii("error_description"))) == description
    ensures Decision(ps, sent) == Err(NoCode) <==>
      Last(ValuesUnder(ps, Ascii("error"))) == [] && Last(ValuesUnder(ps, Ascii("code"))) == []
    ensures Decision(ps, sent) == Err(StateMismatch) <==>
      && Last(ValuesUnder(ps, Ascii("error"))) == [] && Last(ValuesUnder(ps, Ascii("code"))) != []
      && Last(ValuesUnder(ps, Ascii("state"))) != sent
  {
    LastValueIs(ps, Ascii("error"));
    LastValueIs(ps, Ascii("error_description"));
    LastValueIs(ps, Ascii("code"));
    LastValueIs(ps, Ascii("state"));
  }

  /** The text of a field's value, as it came. */
  function ValueText(pair: seq<byte>): seq<byte> {
    match SplitOnce(pair, EQUALS)
    case None => []
    case Some(kv) => kv.1
  }

  /** The decoder would cut a character in some field. */
  predicate CutsAny(pairs: seq<seq<byte>>) {
    pairs != [] && (CutsAny(pairs[..|pairs| - 1]) || CutsField(pairs[|pairs| - 1]))
  }

  predicate CutsField(pair: seq<byte>) { Cuts(PlusToSpace(ValueText(pair))) }

  lemma CutsNext(pairs: seq<seq<byte>>, i: nat)
    requires i < |pairs|
    ensures CutsAny(pairs[..i + 1]) <==> CutsAny(pairs[..i]) || CutsField(pairs[i])
  {
    assert pairs[..i + 1][..i] == pairs[..i];
  }

  lemma {:induction false} CutsStays(pairs: seq<seq<byte>>, i: nat)
    requires i <= |pairs| && CutsAny(pairs[..i])
    ensures CutsAny(pairs)
  {
    if i == |pairs| {
      assert pairs[..i] == pairs;
    } else {
      assert pairs[..|pairs| - 1][..i] == pairs[..i];
      CutsStays(pairs[..|pairs| - 1], i);
    }
  }

  /** The four variables of the scan. */
  datatype Scan = Scan(code: seq<byte>, state: seq<byte>, err: seq<byte>, errDesc: seq<byte>)

  /** The body of the scan: the matching variable is overwritten. */
  function ScanStep(v: Scan, p: Param): Scan {
    if p.key == Ascii("code") then v.(code := p.value)
    else if p.key == Ascii("state") then v.(state := p.value)
    else if p.key == Ascii("error") then v.(err := p.value)
    else if p.key == Ascii("error_description") then v.(errDesc := p.value)
    else v
  }

  function ScanOf(ps: seq<Param>): Scan {
    if ps == [] then Scan([], [], [], []) else ScanStep(ScanOf(ps[..|ps| - 1]), ps[|ps| - 1])
  }

  lemma {:induction false} ScanHoldsTheLast(ps: seq<Param>)
    ensures var v := ScanOf(ps);
      && v.code == LastValue(ps, Ascii("code"))
      && v.state == LastValue(ps, Ascii("state"))
      && v.err == LastValue(ps, Ascii("error"))
      && v.errDesc == LastValue(ps, Ascii("error_description"))
  {
    DistinctKeys();
    if ps != [] { ScanHoldsTheLast(ps[..|ps| - 1]); }
  }

  /** One field split and decoded. */
  method DecodeField(pair: seq<byte>) returns (p: Option<Param>)
    ensures p == if CutsField(pair) then None else Some(ParseField(pair))
  {
    var kv := SplitOnce(pair, EQUALS);
    var k, text := pair, [];
    if kv.Some? { k, text := kv.value.0, kv.value.1; }
    var decoded := PercentDecode(PlusToSpace(text));
    p := if decoded == None then None else Some(Param(k, decoded.value));
  }

  /** What the four variables come to. */
  method Decide(v: Scan, sent: seq<byte>, ghost ps: seq<Param>) returns (r: Result<seq<byte>, Refusal>)
    requires v == ScanOf(ps)
    ensures r == Decision(ps, sent)
  {
    ScanHoldsTheLast(ps);
    if v.err != [] { return Err(ProviderRefused(v.err, v.errDesc)); }
    if v.code == [] { return Err(NoCode); }
    if v.state != sent { return Err(StateMismatch); }
    return Ok(v.code);
  }

  lemma ScanNext(ps: seq<Param>, i: nat)
    requires i < |ps|
    ensures ScanOf(ps[..i + 1]) == ScanStep(ScanOf(ps[..i]), ps[i])
  {
    assert ps[..i + 1][..i] == ps[..i];
  }

  /** The fields of a query, one by one: `None` where the decoder panics. */
  method ReadFields(pairs: seq<seq<byte>>, ghost ps: seq<Param>) returns (v: Option<Scan>)
    requires ps == ParseFields(pairs)
    ensures v == if CutsAny(pairs) then None else Some(ScanOf(ps))
  {
    var scan := Scan([], [], [], []);
    for i := 0 to |pairs|
      invariant !CutsAny(pairs[..i]) && scan == ScanOf(ps[..i])
    {
      var p := DecodeField(pairs[i]);
      CutsNext(pairs, i);
      if p == None {
        CutsStays(pairs, i + 1);
        return None;
      }
      FieldAt(pairs, i);
      ScanNext(ps, i);
      scan := ScanStep(scan, p.value);
    }
    assert ps[..|pairs|] == ps && pairs[..|pairs|] == pairs;
    v := Some(scan);
  }

  /** What the scan makes of a query: the parameters, or `None` where it panics. */
  function Scanned(query: seq<byte>): Option<seq<Param>> {
    var pairs := Split(query, AMPERSAND);
    if CutsAny(pairs) then None else Some(ParseFields(pairs))
  }

  function Outcome(target: seq<byte>, sent: seq<byte>): Option<Result<seq<byte>, Refusal>> {
    match Scanned(QueryOf(target))
    case None => None
    case Some(ps) => Some(Decision(ps, sent))
  }

  /** The part of `await_code` that reads one request target. */
  method ReadReply(target: seq<byte>, sent: seq<byte>) returns (r: Option<Result<seq<byte>, Refusal>>)
    ensures r == Outcome(target, sent)
  {
    var pairs := Split(QueryOf(target), AMPERSAND);
    var v := ReadFields(pairs, ParseFields(pairs));
    if v == None { return None; }
    var decision := Decide(v.value, sent, ParseFields(pairs));
    r := Some(decision);
  }

  lemma DistinctKeys()
    ensures Ascii("code") != Ascii("state") && Ascii("code") != Ascii("error")
    ensures Ascii("code") != Ascii("error_description") && Ascii("state") != Ascii("error")
    ensures Ascii("state") != Ascii("error_description") && Ascii("error") != Ascii("error_description")
  {
    assert |Ascii("code")| == 4 && |Ascii("state")| == 5 && |Ascii("error")| == 5 && |Ascii("error_description")| == 17;
    assert Ascii("state")[0] == 's' as int && Ascii("error")[0] == 'e' as int;
  }

  lemma {:induction false} FieldAt(pairs: seq<seq<byte>>, i: nat)
    requires i < |pairs|
    ensures ParseFields(pairs)[i] == ParseField(pairs[i])
  {
    if i > 0 { FieldAt(pairs[1..], i - 1); }
  }

  // ---- Replies in any spelling ----

  /** A field as a browser may send it: its value spelled in any way. */
  datatype Spelled = Spelled(key: seq<byte>, text: seq<byte>)

  function SpelledField(f: Spelled): seq<byte> { f.key + [EQUALS] + f.text }

  function SpelledFields(fs: seq<Spelled>): seq<seq<byte>> {
    if fs == [] then [] else [SpelledField(fs[0])] + SpelledFields(fs[1..])
  }

  function SpelledText(fs: seq<Spelled>): seq<byte> {
    if fs == [] then []
    else if |fs| == 1 then SpelledField(fs[0])
    else SpelledField(fs[0]) + [AMPERSAND] + SpelledText(fs[1..])
  }

  /** What the fields say: plus signs are spaces and escapes are bytes. */
  function Meant(fs: seq<Spelled>): seq<Param> {
    if fs == [] then [] else [Param(fs[0].key, Unescaped(PlusToSpace(fs[0].text)))] + Meant(fs[1..])
  }

  predicate PlainField(f: Spelled) { PlainKey(f.key) && AMPERSAND !in f.text }

  /** The decoder gets through the field. */
  predicate Whole(f: Spelled) { !Cuts(PlusToSpace(f.text)) }

  predicate AllWhole(fs: seq<Spelled>) { forall i | 0 <= i < |fs| :: Whole(fs[i]) }

  lemma AllWholeCons(f: Spelled, rest: seq<Spelled>)
    ensures AllWhole([f] + rest) <==> Whole(f) && AllWhole(rest)
  {
    if AllWhole([f] + rest) {
      assert ([f] + rest)[0] == f;
      forall i | 0 <= i < |rest| ensures Whole(rest[i]) { assert ([f] + rest)[i + 1] == rest[i]; }
    }
  }

  lemma SpelledFieldBack(f: Spelled)
    requires PlainField(f)
    ensures ParseField(SpelledField(f)) == Param(f.key, Unescaped(PlusToSpace(f.text)))
    ensures AMPERSAND !in SpelledField(f) && (CutsField(SpelledField(f)) <==> !Whole(f))
  {
    FoundAt(f.key, EQUALS, f.text);
  }

  lemma SplitLast(field: seq<byte>)
    requires AMPERSAND !in field
    ensures Split(field, AMPERSAND) == [field]
  {
    assert Find(field, AMPERSAND).None?;
  }

  lemma {:induction false} SplitSpelled(fs: seq<Spelled>)
    requires fs != [] && forall f | f in fs :: PlainField(f)
    ensures Split(SpelledText(fs), AMPERSAND) == SpelledFields(fs)
  {
    var first, rest := fs[0], fs[1..];
    SpelledFieldBack(first);
    if |fs| == 1 {
      SplitLast(SpelledField(first));
    } else {
      SplitSpelled(rest);
      FoundAt(SpelledField(first), AMPERSAND, SpelledText(rest));
    }
  }

  lemma {:induction false} CutsCons(x: seq<byte>, rest: seq<seq<byte>>)
    ensures CutsAny([x] + rest) <==> CutsField(x) || CutsAny(rest)
  {
    if rest == [] {
      assert [x] + rest == [x] && [x][..0] == [];
    } else {
      var m := |rest| - 1;
      CutsCons(x, rest[..m]);
      assert ([x] + rest)[..|rest|] == [x] + rest[..m];
    }
  }

  lemma {:induction false} FieldsMean(fs: seq<Spelled>)
    requires forall f | f in fs :: PlainField(f)
    ensures ParseFields(SpelledFields(fs)) == Meant(fs)
    ensures CutsAny(SpelledFields(fs)) <==> !AllWhole(fs)
  {
    if fs != [] {
      var first, rest := fs[0], fs[1..];
      SpelledFieldBack(first);
      FieldsMean(rest);
      CutsCons(SpelledField(first), SpelledFields(rest));
      AllWholeCons(first, rest);
      assert [first] + rest == fs;
      assert ([SpelledField(first)] + SpelledFields(rest))[1..] == SpelledFields(rest);
    }
  }

  /** The scan recovers what any fields say, in order, however their values are spelled, exactly when the decoder
      gets through every one of them; otherwise it panics. */
  lemma ScanMeans(fs: seq<Spelled>)
    requires fs != [] && forall f | f in fs :: PlainField(f)
    ensures Scanned(SpelledText(fs)) == if AllWhole(fs) then Some(Meant(fs)) else None
  {
    SplitSpelled(fs);
    FieldsMean(fs);
  }

  /** A reply that carries any code and state among other fields, in any spelling, is accepted exactly when the
      decoder gets through every field, no error came with it, the code is not empty and the state is the one sent
      out; and then it is that code. */
  lemma ReplyAccepted(path: seq<byte>, fs: seq<Spelled>, sent: seq<byte>, code: seq<byte>)
    requires QUESTION !in path && fs != [] && forall f | f in fs :: PlainField(f)
    ensures Outcome(path + [QUESTION] + SpelledText(fs), sent) == Some(Ok(code)) <==>
      && AllWhole(fs)
      && LastValue(Meant(fs), Ascii("error")) == []
      && LastValue(Meant(fs), Ascii("code")) == code && code != []
      && LastValue(Meant(fs), Ascii("state")) == sent
  {
    FoundAt(path, QUESTION, SpelledText(fs));
    ScanMeans(fs);
  }

  /** A target without `?` brings no code. */
  lemma NoQueryNoCode(target: seq<byte>, sent: seq<byte>)
    requires QUESTION !in target
    ensures Outcome(target, sent) == Some(Err(NoCode))
  {
    var nothing: seq<byte> := [];
    SplitLast(nothing);
    BareField(nothing);
    assert [nothing][..0] == [] && [nothing][1..] == [];
    assert ParseFields([nothing]) == [Param(nothing, [])];
    assert PlusToSpace(nothing) == [] && ValueText(nothing) == nothing;
    assert SplitOnce(target, QUESTION) == None;
    assert QueryOf(target) == [];
    assert !CutsAny([nothing]);
    NamedKeys();
  }

  lemma NamedKeys()
    ensures LastValue([Param([], [])], Ascii("error")) == [] && LastValue([Param([], [])], Ascii("code")) == []
  {
    assert [Param([], [])][..0] == [];
  }

  /** A code, the right state and no error are not enough: a third field that cuts a character, and nothing is
      accepted or refused any more. */
  lemma CutReplyExample(path: seq<byte>, code: seq<byte>, state: seq<byte>)
    requires QUESTION !in path && AMPERSAND !in code && AMPERSAND !in state
    ensures var fs := [Spelled(Ascii("code"), code), Spelled(Ascii("state"), state), Spelled([120], CUT)];
      && (forall f | f in fs :: PlainField(f))
      && Outcome(path + [QUESTION] + SpelledText(fs), Unescaped(PlusToSpace(state))) == None
  {
    var fs := [Spelled(Ascii("code"), code), Spelled(Ascii("state"), state), Spelled([120], CUT)];
    PlainLiteral("code");
    PlainLiteral("state");
    CutExample();
    NoPlus(CUT);
    assert !Whole(fs[2]);
    FoundAt(path, QUESTION, SpelledText(fs));
    ScanMeans(fs);
  }

  // ---- The request, read by the same scan ----

  function Escapes(ps: seq<Param>): seq<Spelled> {
    if ps == [] then [] else [Spelled(ps[0].key, Escaped(ps[0].value))] + Escapes(ps[1..])
  }

  lemma EscapedIsWhole(value: seq<byte>)
    ensures !Cuts(PlusToSpace(Escaped(value))) && Unescaped(PlusToSpace(Escaped(value))) == value
    ensures AMPERSAND !in Escaped(value)
  {
    EscapedIsPlain(value);
    NoPlus(Escaped(value));
    var text := Escaped(value);
    forall i | 0 <= i < |text| ensures text[i] < 128 { assert text[i] in text; }
    AsciiNeverCut(text);
    ValueBack(value);
  }

  lemma {:induction false} EscapesMean(ps: seq<Param>)
    requires AllPlain(ps)
    ensures QueryText(ps) == SpelledText(Escapes(ps)) && Meant(Escapes(ps)) == ps && AllWhole(Escapes(ps))
    ensures forall f | f in Escapes(ps) :: PlainField(f)
    ensures |Escapes(ps)| == |ps|
  {
    if ps != [] {
      var first := Spelled(ps[0].key, Escaped(ps[0].value));
      EscapesMean(ps[1..]);
      EscapedIsWhole(ps[0].value);
      AllWholeCons(first, Escapes(ps[1..]));
      assert ([first] + Escapes(ps[1..]))[1..] == Escapes(ps[1..]);
      assert [ps[0]] + ps[1..] == ps;
    }
  }

  /** The scan never panics on parameters this client has escaped, and recovers them all. */
  lemma EscapedNeverCut(ps: seq<Param>)
    requires ps != [] && AllPlain(ps)
    ensures Scanned(QueryText(ps)) == Some(ps)
  {
    EscapesMean(ps);
    ScanMeans(Escapes(ps));
  }

  /** With the decoder that can panic, too: the query of the URL is scanned to exactly the parameters built in, if
      and only if the issuer has no `?` of its own. */
  lemma RequestScannedIff(r: Request)
    ensures Scanned(QueryOf(Url(r))) == Some(Params(r)) <==> QUESTION !in r.issuer
  {
    RequestReadsBackIff(r);
    if QUESTION !in r.issuer {
      QueryOfUrl(r);
      PlainParams(r);
      EscapedNeverCut(Params(r));
    }
  }
}
