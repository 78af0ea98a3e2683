/** What applying and restoring come to, for every preferences file whatever. */
module PrefsLaws {
  import opened Decimal
  import opened Files
  import opened Prefs
  import opened PrefsFile
  import opened PrefsSpelling
  import opened TextLines
  import opened Wrappers

  function StripAll(lines: seq<string>): seq<string> {
    if lines == [] then [] else [WithoutCr(lines[0])] + StripAll(lines[1..])
  }

  function WithoutLastBlank(lines: seq<string>): seq<string> {
    if lines != [] && lines[|lines| - 1] == "" then lines[..|lines| - 1] else lines
  }

  lemma {:induction false} Unseen(lines: seq<string>, key: string, entry: string)
    requires !Seen(lines, key) && entry != []
    ensures SetIn(lines, key, entry, false) == lines + [entry]
    ensures Reread(lines + [entry]) == SetIn(StripAll(lines), key, entry, false)
  {
    if lines != [] {
      SeenTail(lines, key);
      Unseen(lines[1..], key, entry);
      CrInvisible(lines[0]);
      assert (lines + [entry])[1..] == lines[1..] + [entry];
      assert StripAll(lines)[1..] == StripAll(lines[1..]);
    }
  }

  /** The lines the second editor sees, as the result of setting the first key in them. */
  function Kept(lines: seq<string>, key: string): seq<string> {
    if Seen(lines, key) then Reread(lines) else StripAll(lines)
  }

  lemma AfterFirst(body: string, key: string, value: string)
    requires Plain(key) && OneLine(value)
    ensures Lines(SetKey(body, key, value)) == SetIn(Kept(Lines(body), key), key, Entry(key, value), false)
  {
    SetHasNoBreaks(body, key, value);
    EntryReads(key, value);
    if Seen(Lines(body), key) {
      SetReread(Lines(body), key, Entry(key, value), false);
    } else {
      Unseen(Lines(body), key, Entry(key, value));
    }
  }

  lemma {:induction false} ReachableReread(lines: seq<string>, key: string, other: Option<string>)
    requires key != []
    ensures Reachable(Reread(lines), key, other) <==> Reachable(WithoutLastBlank(lines), key, other)
  {
    if |lines| > 1 {
      var first, rest := lines[0], lines[1..];
      ReachableReread(rest, key, other);
      CrInvisible(first);
      ReachableHead(WithoutCr(first), Reread(rest), key, other);
      ReachableHead(first, WithoutLastBlank(rest), key, other);
      assert WithoutLastBlank(lines) == [first] + WithoutLastBlank(rest);
    }
  }

  lemma ReachableHead(line: string, rest: seq<string>, key: string, other: Option<string>)
    ensures Reachable([line] + rest, key, other) <==>
      Name(line) == key || ((Keyed(line) || other == Some(Name(line))) && Reachable(rest, key, other))
  {
    assert ([line] + rest)[1..] == rest;
  }

  lemma {:induction false} ReachableStripped(lines: seq<string>, key: string, other: Option<string>)
    ensures Reachable(StripAll(lines), key, other) <==> Reachable(lines, key, other)
  {
    if lines != [] {
      ReachableStripped(lines[1..], key, other);
      CrInvisible(lines[0]);
      ReachableHead(WithoutCr(lines[0]), StripAll(lines[1..]), key, other);
    }
  }

  /** The lines that are still there when the address is written: an empty last line goes when the mode line is
      already there. */
  function Remaining(body: string): seq<string> {
    if Seen(Lines(body), MODE_KEY) then WithoutLastBlank(Lines(body)) else Lines(body)
  }

  /** Each of the two keys can be reached: before its first line there is no line without `=`, unless it is for
      the other key and so gets one. */
  predicate Readable(body: string) {
    Reachable(Remaining(body), MODE_KEY, Some(ADDR_KEY)) && Reachable(Remaining(body), ADDR_KEY, Some(MODE_KEY))
  }

  lemma BothKeys(body: string, port: u16, lines: seq<string>, a: string, b: string)
    requires lines == Kept(Lines(body), MODE_KEY)
    requires a == Entry(MODE_KEY, Numeral(MODE_PROXY)) && b == Entry(ADDR_KEY, Quoted(OurAddr(port)))
    ensures GetKey(ApplyText(body, port), MODE_KEY) == GetIn(SetIn(SetIn(lines, MODE_KEY, a, false), ADDR_KEY, b, false), MODE_KEY)
    ensures GetKey(ApplyText(body, port), ADDR_KEY) == GetIn(SetIn(SetIn(lines, MODE_KEY, a, false), ADDR_KEY, b, false), ADDR_KEY)
  {
    ModeKeyPlain();
    AddrKeyPlain();
    DigitReads(MODE_PROXY);
    OurAddrEnds(port);
    QuotedReads(OurAddr(port));
    AfterFirst(body, MODE_KEY, Numeral(MODE_PROXY));
    var once := SetKey(body, MODE_KEY, Numeral(MODE_PROXY));
    SetHasNoBreaks(once, ADDR_KEY, Quoted(OurAddr(port)));
    var out := SetIn(Lines(once), ADDR_KEY, b, false);
    RereadInvisible(out, MODE_KEY);
    RereadInvisible(out, ADDR_KEY);
  }

  lemma KeptReachable(body: string, key: string, other: Option<string>)
    requires key != []
    ensures Reachable(Kept(Lines(body), MODE_KEY), key, other) <==> Reachable(Remaining(body), key, other)
  {
    ReachableReread(Lines(body), key, other);
    ReachableStripped(Lines(body), key, other);
  }

  /** What is read back of the two keys after `apply`. */
  lemma AppliedKeys(body: string, port: u16)
    ensures var lines := Remaining(body);
      && GetKey(ApplyText(body, port), MODE_KEY) ==
           (if Reachable(lines, MODE_KEY, Some(ADDR_KEY)) then Some(Numeral(MODE_PROXY)) else None)
      && GetKey(ApplyText(body, port), ADDR_KEY) ==
           if Reachable(lines, ADDR_KEY, Some(MODE_KEY)) then Some(OurAddr(port)) else None
  {
    var lines := Kept(Lines(body), MODE_KEY);
    var a, b := Entry(MODE_KEY, Numeral(MODE_PROXY)), Entry(ADDR_KEY, Quoted(OurAddr(port)));
    ModeKeyPlain();
    AddrKeyPlain();
    DigitReads(MODE_PROXY);
    OurAddrEnds(port);
    QuotedReads(OurAddr(port));
    EntryReads(MODE_KEY, Numeral(MODE_PROXY));
    EntryReads(ADDR_KEY, Quoted(OurAddr(port)));
    KeysDiffer();
    BothKeys(body, port, lines, a, b);
    BothReadBack(lines, MODE_KEY, a, ADDR_KEY, b, false);
    GetAfterSetIn(SetIn(lines, MODE_KEY, a, false), ADDR_KEY, b);
    ReachablePast(lines, MODE_KEY, a, ADDR_KEY, false);
    KeptReachable(body, MODE_KEY, Some(ADDR_KEY));
    KeptReachable(body, ADDR_KEY, Some(MODE_KEY));
  }

  lemma KeysDiffer()
    ensures MODE_KEY != ADDR_KEY
  {
    assert MODE_KEY[14] == 'm' && ADDR_KEY[14] == 'a';
  }

  lemma Socks()
    ensures Lower("socks5") == "socks5"
  {
  }

  lemma NothingParsed()
    ensures ParseAddr("").host == ""
  {
  }

  /** For every file and every port: after `apply`, the file read back points at the tunnel exactly when both
      keys can be reached. */
  lemma PointsAtUsIff(body: string, port: u16)
    ensures StateOf(ApplyText(body, port), port).pointsAtUs <==> Readable(body)
  {
    AppliedKeys(body, port);
    DigitReads(MODE_PROXY);
    OurAddrParses(port);
    Socks();
    NothingParsed();
  }

  /** In particular whenever every line has a `=`. */
  lemma PointsAtUsOnOrdinaryFiles(body: string, port: u16)
    requires forall i | 0 <= i < |Lines(body)| :: Keyed(Lines(body)[i])
    ensures StateOf(ApplyText(body, port), port) == SpotifyState(true, MODE_PROXY, OurAddr(port), port, true)
  {
    AllReachable(Remaining(body), MODE_KEY, Some(ADDR_KEY));
    AllReachable(Remaining(body), ADDR_KEY, Some(MODE_KEY));
    PointsAtUsIff(body, port);
    AppliedKeys(body, port);
    OurAddrParses(port);
    DigitReads(MODE_PROXY);
  }

  /** After `restore` the mode reads 0, whatever the file. */
  lemma RestoreTurnsOff(body: string, port: nat)
    ensures StateOf(RestoreText(body), port).mode == 0 && !StateOf(RestoreText(body), port).pointsAtUs
  {
    ModeKeyPlain();
    DigitReads(MODE_NONE);
    GetAfterSet(body, MODE_KEY, Numeral(MODE_NONE));
  }

  /** And every other key, the address among them, reads as before, if and only if no mode line without `=` stood
      between the reader and its value. */
  lemma RestoreKeepsTheRest(body: string, key: string)
    requires key != MODE_KEY
    ensures GetKey(RestoreText(body), key) == GetPast(Lines(body), key, MODE_KEY)
    ensures GetKey(RestoreText(body), key) == GetKey(body, key) <==> !Unblocked(Lines(body), key, MODE_KEY)
    ensures (forall i | 0 <= i < |Lines(body)| :: Name(Lines(body)[i]) == MODE_KEY ==> Keyed(Lines(body)[i])) ==>
      GetKey(RestoreText(body), key) == GetKey(body, key)
  {
    ModeKeyPlain();
    DigitReads(MODE_NONE);
    OthersUntouched(body, MODE_KEY, Numeral(MODE_NONE), key);
  }

  /** One line without `=`, and `apply` does not take, whatever the port: the reader never gets past it. */
  lemma BareLineExample(port: u16)
    ensures !StateOf(ApplyText("x", port), port).pointsAtUs
  {
    var x := "x";
    assert UntilBreak(x) == 1 && Lines(x) == [x];
    assert At(x, '=') == 1 && x[..1] == x && Trim(x) == x;
    assert |MODE_KEY| == 18 && |ADDR_KEY| == 18 && Name(x) == x;
    assert !Seen([x], MODE_KEY);
    PointsAtUsIff(x, port);
  }

  lemma HiddenIn(lines: seq<string>, key: string, entry: string, other: string)
    requires lines == [key] + [entry] && !Keyed(key) && Name(key) == key
    requires Keyed(entry) && Name(entry) == other && other != key
    ensures GetIn(lines, other) == None && GetPast(lines, other, key) == Some(Value(entry))
  {
    assert lines[1..] == [entry] && lines[0] == key;
  }

  lemma HiddenText(key: string, value: string, other: string, body: string)
    requires Plain(key) && Plain(other) && other != key && WithoutCr(key) == key && OneLine(value)
    requires body == Join([key] + [Entry(other, value)])
    ensures GetKey(body, other) == None && GetPast(Lines(body), other, key) == Some(Unquote(Trim(value)))
  {
    var entry := Entry(other, value);
    var lines := [key] + [entry];
    EntryReads(other, value);
    AtEntry(other, value);
    assert entry != "" && lines[1..] == [entry];
    LinesOfJoin(lines);
    assert Reread(lines) == lines;
    assert key[..|key|] == key;
    HiddenIn(lines, key, entry, other);
  }

  lemma ModeKeyEnds()
    ensures WithoutCr(MODE_KEY) == MODE_KEY
  {
    assert MODE_KEY[|MODE_KEY| - 1] == 'e';
  }

  lemma HereReads()
    ensures OneLine(HERE) && Unquote(Trim(HERE)) == HERE
  {
    assert HERE[0] == '1' && HERE[|HERE| - 1] == '1';
    NothingToTrim(HERE);
  }

  /** A bare mode line in front of the address hides it, until `restore` gives the line a value. */
  lemma HiddenAddressExample(body: string)
    requires body == Join([MODE_KEY] + [Entry(ADDR_KEY, HERE)])
    ensures GetKey(body, ADDR_KEY) == None && GetKey(RestoreText(body), ADDR_KEY) == Some(HERE)
  {
    ModeKeyPlain();
    AddrKeyPlain();
    KeysDiffer();
    ModeKeyEnds();
    HereReads();
    HiddenText(MODE_KEY, HERE, ADDR_KEY, body);
    RestoreKeepsTheRest(body, ADDR_KEY);
  }

  // ---- The lines themselves ----

  lemma {:induction false} LineStays(lines: seq<string>, line: string)
    requires line in lines && line != "" && WithoutCr(line) == line
    ensures line in Reread(lines)
  {
    if |lines| > 1 {
      if line in lines[1..] {
        LineStays(lines[1..], line);
        var i :| 0 <= i < |Reread(lines[1..])| && Reread(lines[1..])[i] == line;
        assert Reread(lines)[i + 1] == line;
      } else {
        assert lines[0] == line && Reread(lines)[0] == line;
      }
    }
  }

  lemma EntryIn(lines: seq<string>, key: string, entry: string)
    ensures Name(entry) == key ==> entry in SetIn(lines, key, entry, false)
  {
    if Name(entry) == key {
      SeenAfter(lines, key, entry);
      SetInShape(lines, key, entry, false);
      var out := SetIn(lines, key, entry, false);
      if Seen(lines, key) {
        var i :| 0 <= i < |lines| && Name(lines[i]) == key;
        assert out[i] == entry;
      } else {
        assert out[|lines|] == entry;
      }
    }
  }

  lemma OtherLineIn(lines: seq<string>, key: string, entry: string, line: string)
    requires line in lines && Name(line) != key
    ensures line in SetIn(lines, key, entry, false)
  {
    SetInShape(lines, key, entry, false);
    var i :| 0 <= i < |lines| && lines[i] == line;
    assert SetIn(lines, key, entry, false)[i] == line;
  }

  /** The text has the line `key=value`, as it stands. */
  lemma LineWritten(body: string, key: string, value: string)
    requires Plain(key) && OneLine(value)
    ensures key + ("=" + value) in Lines(SetKey(body, key, value))
  {
    var entry := Entry(key, value);
    EntryReads(key, value);
    AtEntry(key, value);
    EntryIn(Lines(body), key, entry);
    SetHasNoBreaks(body, key, value);
    LineStays(SetIn(Lines(body), key, entry, false), entry);
    assert entry == key + ("=" + value);
  }

  /** And keeps every line for another key that does not end in a carriage return. */
  lemma LineKept(body: string, key: string, value: string, line: string)
    requires Plain(key) && OneLine(value)
    requires line in Lines(body) && Name(line) != key && line != "" && WithoutCr(line) == line
    ensures line in Lines(SetKey(body, key, value))
  {
    SetHasNoBreaks(body, key, value);
    OtherLineIn(Lines(body), key, Entry(key, value), line);
    LineStays(SetIn(Lines(body), key, Entry(key, value), false), line);
  }

  const MODE_LINE: string := "network.proxy.mode" + "=4"

  function AddrLine(port: nat): string {
    "network.proxy.addr" + ("=" + ("\"" + ("127.0.0.1:" + Numeral(port) + "@socks5") + "\""))
  }

  lemma FourWritten()
    ensures Numeral(MODE_PROXY) == "4" && Numeral(MODE_NONE) == "0"
  {
  }

  lemma AddrWritten(port: nat)
    ensures OurAddr(port) == "127.0.0.1:" + Numeral(port) + "@socks5"
  {
    assert HERE + ":" == "127.0.0.1:";
    assert "@" + "socks5" == "@socks5";
  }

  /** `apply` writes the line that switches the proxy on and the one with the quoted address, whatever the file; and
      where the two keys can be reached, these are the values read back. */
  lemma AppliedLines(body: string, port: u16)
    ensures MODE_LINE in Lines(ApplyText(body, port)) && AddrLine(port) in Lines(ApplyText(body, port))
    ensures Readable(body) ==>
      && GetKey(ApplyText(body, port), "network.proxy.mode") == Some("4")
      && GetKey(ApplyText(body, port), "network.proxy.addr") == Some("127.0.0.1:" + Numeral(port) + "@socks5")
  {
    FourWritten();
    AddrWritten(port);
    AppliedKeys(body, port);
    BothWritten(body, port, Numeral(MODE_PROXY), Quoted(OurAddr(port)));
    ModeLineIs(Numeral(MODE_PROXY));
  }

  lemma TwoLinesWritten(body: string, first: string, a: string, second: string, b: string, once: string)
    requires Plain(first) && Plain(second) && first != second && OneLine(a) && OneLine(b) && once == SetKey(body, first, a)
    ensures first + ("=" + a) in Lines(SetKey(once, second, b)) && second + ("=" + b) in Lines(SetKey(once, second, b))
  {
    LineWritten(body, first, a);
    EntryIsLine(first, a, first + ("=" + a));
    LineKept(once, second, b, first + ("=" + a));
    LineWritten(once, second, b);
  }

  lemma EntryIsLine(key: string, value: string, line: string)
    requires Plain(key) && OneLine(value) && line == key + ("=" + value)
    ensures Name(line) == key && line != "" && WithoutCr(line) == line
  {
    assert line == Entry(key, value);
    EntryReads(key, value);
  }

  lemma AppliedValues(port: u16, a: string, b: string)
    requires a == Numeral(MODE_PROXY) && b == Quoted(OurAddr(port))
    ensures OneLine(a) && OneLine(b)
  {
    DigitReads(MODE_PROXY);
    OurAddrEnds(port);
    QuotedReads(OurAddr(port));
  }

  lemma ModeLineIs(a: string)
    requires a == "4"
    ensures MODE_KEY + ("=" + a) == MODE_LINE
  {
  }

  lemma BothWritten(body: string, port: u16, a: string, b: string)
    requires a == Numeral(MODE_PROXY) && b == Quoted(OurAddr(port))
    ensures MODE_KEY + ("=" + a) in Lines(ApplyText(body, port)) && ADDR_KEY + ("=" + b) in Lines(ApplyText(body, port))
  {
    ModeKeyPlain();
    AddrKeyPlain();
    KeysDiffer();
    AppliedValues(port, a, b);
    TwoLinesWritten(body, MODE_KEY, a, ADDR_KEY, b, SetKey(body, MODE_KEY, a));
  }

  const OFF_LINE: string := "network.proxy.mode" + "=0"

  /** `restore` writes the line that switches it off, whatever the file; and where the key can be reached, that is the
      value read back. */
  lemma RestoredLine(body: string)
    ensures OFF_LINE in Lines(RestoreText(body))
    ensures Reachable(Lines(body), MODE_KEY, None) ==> GetKey(RestoreText(body), "network.proxy.mode") == Some("0")
  {
    FourWritten();
    OffLineIs(Numeral(MODE_NONE));
    ModeWritten(body, Numeral(MODE_NONE));
  }

  lemma OffLineIs(a: string)
    requires a == "0"
    ensures MODE_KEY + ("=" + a) == OFF_LINE
  {
  }

  lemma ModeWritten(body: string, a: string)
    requires a == Numeral(MODE_NONE)
    ensures MODE_KEY + ("=" + a) in Lines(SetKey(body, MODE_KEY, a))
    ensures Reachable(Lines(body), MODE_KEY, None) ==> GetKey(SetKey(body, MODE_KEY, a), MODE_KEY) == Some(a)
  {
    ModeKeyPlain();
    DigitReads(MODE_NONE);
    LineWritten(body, MODE_KEY, a);
    GetAfterSet(body, MODE_KEY, a);
  }

  // ---- The file and its backup ----

  /** A file that is there may still not be text, and then it cannot be read. */
  datatype Stored = Missing | NotText | Text(body: string)

  /** The file after a write: one cut short holds the beginning of the text. */
  function Saved(file: Stored, body: string, w: Write): Stored {
    match w
    case Done => Text(body)
    case NotOpened => file
    case Interrupted(kept) => Text(if kept < |body| then body[..kept] else body)
  }

  /** The backup after copying the file. */
  function Copied(file: Stored, backup: Stored, w: Write): Stored {
    match file
    case Missing => backup
    case NotText => if w.NotOpened? then backup else NotText
    case Text(body) => Saved(backup, body, w)
  }

  /** A write that is cut short leaves as much of the text's beginning as was written; the old text is gone. One that
      could not be begun leaves the old. A copy of a text is written in the same way. */
  lemma SavedIs(file: Stored, backup: Stored, body: string, kept: nat)
    ensures Saved(file, body, Done) == Text(body) && Saved(file, body, NotOpened) == file
    ensures var cut := Saved(file, body, Interrupted(kept));
      cut.Text? && cut.body <= body && |cut.body| == if kept < |body| then kept else |body|
    ensures Copied(Text(body), backup, Done) == Text(body) && Copied(Text(body), backup, NotOpened) == backup
    ensures Copied(Text(body), backup, Interrupted(kept)) == Saved(backup, body, Interrupted(kept))
    ensures Copied(NotText, backup, Done) == NotText && Copied(Missing, backup, Done) == backup
  {
  }

  datatype Op = Apply(port: u16, copy: Write, write: Write) | Restore(write: Write) | Edit(file: Stored)

  class PrefsStore {
    var prefs: Stored
    var backup: Stored

    constructor (prefs: Stored, backup: Stored)
      ensures this.prefs == prefs && this.backup == backup
    {
      this.prefs, this.backup := prefs, backup;
    }

    /** `state`. */
    method ReadState(localPort: nat) returns (s: SpotifyState)
      ensures s == if prefs.Text? then StateOf(prefs.body, localPort) else SpotifyState(false, 0, "", 0, false)
      ensures prefs.Text? ==> Reports(s, prefs.body, localPort)
    {
      if !prefs.Text? { return SpotifyState(false, 0, "", 0, false); }
      var mode := GetKeyLoop(prefs.body, MODE_KEY);
      var addr := GetKeyLoop(prefs.body, ADDR_KEY);
      var a := if addr.Some? then addr.value else "";
      var e := ParseAddr(a);
      StateReports(prefs.body, localPort);
      s := SpotifyState(true, ModeOf(mode), a, e.port, Ours(ModeOf(mode), e, localPort));
    }

    /** `apply`. A file that is no text is backed up and then refused. A copy cut short stands as the backup from
        then on; a write cut short leaves the beginning of the new text. */
    method Apply(port: u16, copy: Write, write: Write) returns (r: Result<SpotifyState, ()>)
      modifies this
      ensures backup == if old(backup) == Missing then Copied(old(prefs), Missing, copy) else old(backup)
      ensures prefs ==
        if old(prefs).Text? && (old(backup) != Missing || copy.Done?)
        then Saved(old(prefs), ApplyText(old(prefs).body, port), write) else old(prefs)
      ensures r.Ok? <==> old(prefs).Text? && (old(backup) != Missing || copy.Done?) && write.Done?
      ensures r.Ok? ==>
        r.value == StateOf(prefs.body, port) && (r.value.pointsAtUs <==> Readable(old(prefs).body))
      ensures r.Ok? ==>
        prefs.Text? && MODE_LINE in Lines(prefs.body) && AddrLine(port) in Lines(prefs.body) && Reports(r.value, prefs.body, port)
    {
      if prefs == Missing { return Err(()); }
      if backup == Missing {
        backup := Copied(prefs, backup, copy);
        if !copy.Done? { return Err(()); }
      }
      if prefs == NotText { return Err(()); }
      var body := SetKeyLoop(prefs.body, MODE_KEY, Numeral(MODE_PROXY));
      body := SetKeyLoop(body, ADDR_KEY, Quoted(OurAddr(port)));
      PointsAtUsIff(prefs.body, port);
      AppliedLines(prefs.body, port);
      prefs := Saved(prefs, body, write);
      if !write.Done? { return Err(()); }
      var s := ReadState(port);
      r := Ok(s);
    }

    /** `restore`. */
    method Restore(write: Write) returns (ok: bool)
      modifies this`prefs
      ensures ok <==> old(prefs) == Missing || (old(prefs).Text? && write.Done?)
      ensures prefs == if old(prefs).Text? then Saved(old(prefs), RestoreText(old(prefs).body), write) else old(prefs)
      ensures ok && old(prefs) != Missing ==> prefs.Text? && OFF_LINE in Lines(prefs.body)
    {
      if prefs == Missing { return true; }
      if prefs == NotText { return false; }
      var body := SetKeyLoop(prefs.body, MODE_KEY, Numeral(MODE_NONE));
      RestoredLine(prefs.body);
      prefs := Saved(prefs, body, write);
      ok := write.Done?;
    }

    /** Any session of switching on and off, with Spotify editing, spoiling or removing its file in between: a
        backup once made is never replaced, so the copy the first `apply` takes is there at the end. */
    method Session(ops: seq<Op>)
      modifies this
      ensures old(backup) != Missing ==> backup == old(backup)
      ensures old(backup) == Missing && backup != Missing ==>
        exists i | 0 <= i < |ops| :: ops[i].Apply? && !ops[i].copy.NotOpened?
      ensures old(backup) == Missing && old(prefs) != Missing && ops != [] && ops[0].Apply? && !ops[0].copy.NotOpened? ==>
        backup == Copied(old(prefs), Missing, ops[0].copy)
    {
      for i := 0 to |ops|
        invariant old(backup) != Missing ==> backup == old(backup)
        invariant old(backup) == Missing && backup != Missing ==>
          exists k | 0 <= k < i :: ops[k].Apply? && !ops[k].copy.NotOpened?
        invariant i == 0 ==> prefs == old(prefs) && backup == old(backup)
        invariant
          i > 0 && old(backup) == Missing && old(prefs) != Missing && ops[0].Apply? && !ops[0].copy.NotOpened? ==>
            backup == Copied(old(prefs), Missing, ops[0].copy)
      {
        match ops[i]
        case Apply(port, copy, write) => var r := Apply(port, copy, write);
        case Restore(write) => var ok := Restore(write);
        case Edit(file) => prefs := file;
      }
    }
  }
}
