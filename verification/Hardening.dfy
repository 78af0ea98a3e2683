/** `patch_cfg` in `server/custom-cont-init.d/10-tunnel-hardening.sh`: filter the sshd configuration, then append
    the managed block. */
module Hardening {
  import opened TextLines

  // ---- Lines as grep sees them ----

  /** A final line feed ends the last line; without one the last line is a line all the same. */
  function Pieces(s: string): seq<string> {
    if s == [] then []
    else
      var n := UntilBreak(s);
      if n == |s| then [s] else [s[..n]] + Pieces(s[n + 1..])
  }

  /** What `grep` and `echo` write: a line feed after every line. */
  function Unlines(lines: seq<string>): string {
    if lines == [] then "" else lines[0] + "\n" + Unlines(lines[1..])
  }

  lemma FirstPiece(a: string, more: string)
    requires NoBreak(a)
    ensures Pieces(a + "\n" + more) == [a] + Pieces(more)
  {
    UntilBreakAt(a, more);
    var s := a + "\n" + more;
    assert s[..|a|] == a && s[|a| + 1..] == more;
  }

  lemma Associate(a: string, b: string, c: string)
    ensures (a + "\n" + b) + c == a + "\n" + (b + c)
  {
  }

  lemma Rejoin(lines: seq<string>, rest: seq<string>)
    requires lines != []
    ensures [lines[0]] + (lines[1..] + rest) == lines + rest
  {
  }

  lemma {:induction false} PiecesAppend(lines: seq<string>, rest: string)
    requires NoBreaks(lines)
    ensures Pieces(Unlines(lines) + rest) == lines + Pieces(rest)
  {
    if lines == [] {
      assert Unlines(lines) + rest == rest;
    } else {
      var more := Unlines(lines[1..]);
      PiecesAppend(lines[1..], rest);
      FirstPiece(lines[0], more + rest);
      Associate(lines[0], more, rest);
      Rejoin(lines, Pieces(rest));
    }
  }

  lemma {:induction false} PiecesHaveNoBreaks(s: string)
    ensures NoBreaks(Pieces(s))
  {
    if s != [] {
      var n := UntilBreak(s);
      if n < |s| {
        PiecesHaveNoBreaks(s[n + 1..]);
        FirstOfLines(s[..n], Pieces(s[n + 1..]));
      }
    }
  }

  // ---- The filter ----

  predicate Space(c: char) { c == ' ' || '\t' <= c <= '\r' }

  function LowerChar(c: char): char { if 'A' <= c <= 'Z' then (c as int + 32) as char else c }

  /** The line with its leading `#`s and white space gone. */
  function Uncommented(line: string): string {
    if line != [] && (line[0] == '#' || Space(line[0])) then Uncommented(line[1..]) else line
  }

  /** The key, in any case, and then white space. */
  predicate StartsWithKey(s: string, key: string) {
    && |key| < |s|
    && (forall i | 0 <= i < |key| :: LowerChar(s[i]) == LowerChar(key[i]))
    && Space(s[|key|])
  }

  predicate IsFor(line: string, key: string) { StartsWithKey(Uncommented(line), key) }

  datatype Setting = Setting(key: string, value: string)

  function Settings(): seq<Setting> {
    [ Setting("AllowTcpForwarding", "yes"),
      Setting("X11Forwarding", "no"),
      Setting("AllowAgentForwarding", "no"),
      Setting("GatewayPorts", "no"),
      Setting("PermitTunnel", "no"),
      Setting("PasswordAuthentication", "no"),
      Setting("PermitRootLogin", "no"),
      Setting("MaxAuthTries", "3") ]
  }

  /** In two parts: only the first three characters matter to the filter. */
  const MARKER: string := "# -" + "-- split-tunnel hardening (managed) ---"

  predicate Managed(settings: seq<Setting>, line: string) {
    exists i | 0 <= i < |settings| :: IsFor(line, settings[i].key)
  }

  function Survivors(settings: seq<Setting>, lines: seq<string>): seq<string> {
    if lines == [] then []
    else if Managed(settings, lines[0]) then Survivors(settings, lines[1..])
    else [lines[0]] + Survivors(settings, lines[1..])
  }

  function SettingLine(s: Setting): string { s.key + (" " + s.value) }

  function SettingLines(settings: seq<Setting>): seq<string> {
    if settings == [] then [] else [SettingLine(settings[0])] + SettingLines(settings[1..])
  }

  function Block(settings: seq<Setting>): seq<string> { ["", MARKER] + SettingLines(settings) }

  /** One run. `grep -v` fails when it lets nothing through, and then the file is not replaced. */
  function Patched(settings: seq<Setting>, text: string): string {
    var survivors := Survivors(settings, Pieces(text));
    (if survivors == [] then text else Unlines(survivors)) + Unlines(Block(settings))
  }

  /** The first blank and marker of every earlier block. */
  function Markers(n: nat): seq<string> { if n == 0 then [] else Markers(n - 1) + ["", MARKER] }

  // ---- The key lines and the rest of the block ----

  /** Made of characters a key can have. */
  predicate Word(s: string) { s != [] && forall i | 0 <= i < |s| :: !Space(s[i]) && s[i] != '#' && s[i] != '\n' }

  predicate SameKey(a: string, b: string) {
    |a| == |b| && forall i | 0 <= i < |a| :: LowerChar(a[i]) == LowerChar(b[i])
  }

  predicate Proper(s: Setting) {
    && Word(s.key) && s.key[0] != '-'
    && NoBreak(s.value) && s.value != [] && !Space(s.value[0])
  }

  predicate WellFormed(settings: seq<Setting>) {
    && settings != []
    && (forall i | 0 <= i < |settings| :: Proper(settings[i]))
    && (forall i, j | 0 <= i < j < |settings| :: !SameKey(settings[i].key, settings[j].key))
  }

  lemma SettingLineIsFor(s: Setting, key: string)
    requires Word(s.key) && Word(key)
    ensures Uncommented(SettingLine(s)) == SettingLine(s)
    ensures IsFor(SettingLine(s), key) <==> SameKey(s.key, key)
  {
    var line := SettingLine(s);
    assert line[0] == s.key[0] && line[|s.key|] == ' ';
    assert forall i | 0 <= i < |s.key| :: line[i] == s.key[i];
    if |key| > |s.key| {
      assert LowerChar(line[|s.key|]) == ' ' && !Space(key[|s.key|]);
      assert LowerChar(key[|s.key|]) != ' ';
    }
  }

  /** Neither the blank line nor the marker is for any key, so both survive the next run. */
  lemma MarkerSurvives(settings: seq<Setting>)
    requires WellFormed(settings)
    ensures !Managed(settings, "") && !Managed(settings, MARKER)
  {
    assert MARKER[0] == '#' && MARKER[1] == ' ' && MARKER[2] == '-';
    var one, two := MARKER[1..], MARKER[2..];
    assert one[0] == ' ' && one[1..] == two && two[0] == '-';
    assert Uncommented(MARKER) == Uncommented(one) == Uncommented(two) == two;
    forall i | 0 <= i < |settings| ensures !IsFor(MARKER, settings[i].key) {
      assert LowerChar(two[0]) == '-' && LowerChar(settings[i].key[0]) != '-';
    }
  }

  lemma SurvivorsHead(settings: seq<Setting>, line: string, rest: seq<string>)
    ensures Survivors(settings, [line] + rest) ==
      (if Managed(settings, line) then [] else [line]) + Survivors(settings, rest)
  {
    assert ([line] + rest)[1..] == rest;
  }

  lemma {:induction false} SurvivorsConcat(settings: seq<Setting>, a: seq<string>, b: seq<string>)
    ensures Survivors(settings, a + b) == Survivors(settings, a) + Survivors(settings, b)
  {
    if a == [] {
      assert a + b == b;
    } else {
      SurvivorsConcat(settings, a[1..], b);
      SurvivorsHead(settings, a[0], a[1..] + b);
      SurvivorsHead(settings, a[0], a[1..]);
      assert [a[0]] + a[1..] == a && [a[0]] + (a[1..] + b) == a + b;
    }
  }

  lemma {:induction false} SurvivorsAgain(settings: seq<Setting>, lines: seq<string>)
    ensures var s := Survivors(settings, lines);
      Survivors(settings, s) == s && forall i | 0 <= i < |s| :: !Managed(settings, s[i])
    ensures NoBreaks(lines) ==> NoBreaks(Survivors(settings, lines))
  {
    if lines != [] {
      SurvivorsAgain(settings, lines[1..]);
      assert NoBreaks(lines) ==> NoBreaks(lines[1..]);
      var s := Survivors(settings, lines[1..]);
      assert ([lines[0]] + s)[1..] == s;
    }
  }
}
