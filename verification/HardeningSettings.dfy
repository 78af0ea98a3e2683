/** The eight settings of the script meet what the laws of hardening ask of settings. */
module HardeningSettings {
  import opened Hardening
  import opened HardeningEffect
  import opened TextLines
  import opened Wrappers

  lemma FirstFour()
    ensures Word("AllowTcpForwarding") && Word("X11Forwarding") && Word("AllowAgentForwarding") && Word("GatewayPorts")
  {
  }

  lemma LastFour()
    ensures Word("PermitTunnel") && Word("PasswordAuthentication") && Word("PermitRootLogin") && Word("MaxAuthTries")
  {
  }

  lemma Values()
    ensures NoBreak("yes") && NoBreak("no") && NoBreak("3")
  {
  }

  lemma Twelves()
    ensures !SameKey("GatewayPorts", "PermitTunnel") && !SameKey("GatewayPorts", "MaxAuthTries")
    ensures !SameKey("PermitTunnel", "MaxAuthTries")
  {
    assert LowerChar("GatewayPorts"[0]) == 'g';
    assert LowerChar("PermitTunnel"[0]) == 'p';
    assert LowerChar("MaxAuthTries"[0]) == 'm';
  }

  lemma AllProper()
    ensures forall i | 0 <= i < |Settings()| :: Proper(Settings()[i])
  {
    FirstFour();
    LastFour();
    Values();
  }

  lemma AllDifferent()
    ensures forall i, j | 0 <= i < j < |Settings()| :: !SameKey(Settings()[i].key, Settings()[j].key)
  {
    Twelves();
    var lengths := [18, 13, 20, 12, 12, 22, 15, 12];
    var s := Settings();
    assert forall i | 0 <= i < 8 :: |s[i].key| == lengths[i];
    forall i, j | 0 <= i < j < 8 ensures !SameKey(s[i].key, s[j].key) {
      if lengths[i] == lengths[j] { assert i in {3, 4} && j in {4, 7}; }
    }
  }

  lemma SettingsWellFormed()
    ensures WellFormed(Settings())
  {
    AllProper();
    AllDifferent();
  }

  // ---- What the block says, and what the filter looks for ----

  /** The block, line by line. */
  lemma BlockLines()
    ensures var block := Block(Settings());
      && |block| == 10 && block[0] == "" && block[1] == "# -" + "-- split-tunnel hardening (managed) ---"
      && block[2] == "AllowTcpForwarding" + (" " + "yes") && block[3] == "X11Forwarding" + (" " + "no")
      && block[4] == "AllowAgentForwarding" + (" " + "no") && block[5] == "GatewayPorts" + (" " + "no")
      && block[6] == "PermitTunnel" + (" " + "no") && block[7] == "PasswordAuthentication" + (" " + "no")
      && block[8] == "PermitRootLogin" + (" " + "no") && block[9] == "MaxAuthTries" + (" " + "3")
  {
    var settings := Settings();
    SettingLineAt(settings, 0);
    SettingLineAt(settings, 1);
    SettingLineAt(settings, 2);
    SettingLineAt(settings, 3);
    SettingLineAt(settings, 4);
    SettingLineAt(settings, 5);
    SettingLineAt(settings, 6);
    SettingLineAt(settings, 7);
  }

  lemma {:induction false} SettingLineAt(settings: seq<Setting>, i: nat)
    requires i < |settings|
    ensures |SettingLines(settings)| == |settings| && SettingLines(settings)[i] == SettingLine(settings[i])
    ensures |Block(settings)| == |settings| + 2 && Block(settings)[i + 2] == SettingLine(settings[i])
  {
    if i > 0 { SettingLineAt(settings[1..], i - 1); } else if |settings| > 1 { SettingLineAt(settings[1..], 0); }
  }

  /** What sshd reads for the eight keys. */
  predicate Hardened(lines: seq<string>) {
    && FirstValue(lines, "AllowTcpForwarding") == Some("yes") && FirstValue(lines, "X11Forwarding") == Some("no")
    && FirstValue(lines, "AllowAgentForwarding") == Some("no") && FirstValue(lines, "GatewayPorts") == Some("no")
    && FirstValue(lines, "PermitTunnel") == Some("no") && FirstValue(lines, "PasswordAuthentication") == Some("no")
    && FirstValue(lines, "PermitRootLogin") == Some("no") && FirstValue(lines, "MaxAuthTries") == Some("3")
  }

  lemma OneEachIsHardened(lines: seq<string>)
    requires OneEach(Settings(), lines)
    ensures Hardened(lines)
  {
    var s := Settings();
    assert FirstValue(lines, s[0].key) == Some(s[0].value) && FirstValue(lines, s[1].key) == Some(s[1].value);
    assert FirstValue(lines, s[2].key) == Some(s[2].value) && FirstValue(lines, s[3].key) == Some(s[3].value);
    assert FirstValue(lines, s[4].key) == Some(s[4].value) && FirstValue(lines, s[5].key) == Some(s[5].value);
    assert FirstValue(lines, s[6].key) == Some(s[6].value) && FirstValue(lines, s[7].key) == Some(s[7].value);
  }

  /** The same letter in either case, or the same character. */
  predicate SameLetter(a: char, b: char) {
    || a == b
    || ('A' <= a <= 'Z' && b as int == a as int + 32)
    || ('A' <= b <= 'Z' && a as int == b as int + 32)
  }

  /** Nothing but `#` and white space up to `n`, then the key in any case, then white space. */
  predicate FilterMatch(line: string, key: string, n: nat) {
    && n + |key| < |line|
    && (forall i | 0 <= i < n :: line[i] == '#' || line[i] == ' ' || line[i] == '\t' || '\n' <= line[i] <= '\r')
    && (forall i | 0 <= i < |key| :: SameLetter(line[n + i], key[i]))
    && Space(line[n + |key|])
  }

  lemma LowerMeans(a: char, b: char)
    ensures LowerChar(a) == LowerChar(b) <==> SameLetter(a, b)
  {
  }

  lemma StartsIff(s: string, key: string)
    ensures StartsWithKey(s, key) <==> FilterMatch(s, key, 0)
  {
    forall i | 0 <= i < |key| && |key| < |s| ensures LowerChar(s[i]) == LowerChar(key[i]) <==> SameLetter(s[i], key[i]) {
      LowerMeans(s[i], key[i]);
    }
    if FilterMatch(s, key, 0) {
      forall i | 0 <= i < |key| ensures LowerChar(s[i]) == LowerChar(key[i]) { assert SameLetter(s[0 + i], key[i]); }
    }
  }

  lemma MatchTail(line: string, key: string, n: nat)
    requires line != [] && n > 0
    ensures FilterMatch(line, key, n) <==>
      FilterMatch(line[1..], key, n - 1) && (line[0] == '#' || Space(line[0]))
  {
    var tail := line[1..];
    if FilterMatch(tail, key, n - 1) && (line[0] == '#' || Space(line[0])) {
      forall i | 0 <= i < n
        ensures line[i] == '#' || line[i] == ' ' || line[i] == '\t' || '\n' <= line[i] <= '\r'
      {
        if i > 0 { assert line[i] == tail[i - 1]; }
      }
      forall i | 0 <= i < |key| ensures SameLetter(line[n + i], key[i]) { assert line[n + i] == tail[n - 1 + i]; }
    }
    if FilterMatch(line, key, n) {
      assert line[0] == line[0 + 0];
      forall i | 0 <= i < n - 1
        ensures tail[i] == '#' || tail[i] == ' ' || tail[i] == '\t' || '\n' <= tail[i] <= '\r'
      {
        assert tail[i] == line[i + 1];
      }
      forall i | 0 <= i < |key| ensures SameLetter(tail[n - 1 + i], key[i]) { assert SameLetter(line[n + i], key[i]); }
    }
  }

  /** The filter takes a line for a key if and only if the pattern matches somewhere. */
  lemma {:induction false} IsForIff(line: string, key: string)
    requires Word(key)
    ensures IsFor(line, key) <==> exists n: nat :: FilterMatch(line, key, n)
  {
    if line != [] && (line[0] == '#' || Space(line[0])) {
      IsForIff(line[1..], key);
      if exists n: nat :: FilterMatch(line[1..], key, n) {
        var n: nat :| FilterMatch(line[1..], key, n);
        MatchTail(line, key, n + 1);
      }
      if exists n: nat :: FilterMatch(line, key, n) {
        var n: nat :| FilterMatch(line, key, n);
        if n == 0 { NotAtMark(line, key); } else { MatchTail(line, key, n); }
      }
    } else {
      StartsIff(line, key);
      if exists n: nat :: FilterMatch(line, key, n) {
        var n: nat :| FilterMatch(line, key, n);
        if n > 0 { MatchTail(line, key, n); }
      }
    }
  }

  lemma NotAtMark(line: string, key: string)
    requires Word(key) && line != [] && (line[0] == '#' || Space(line[0]))
    ensures !FilterMatch(line, key, 0)
  {
    assert !Space(key[0]) && key[0] != '#';
    assert !SameLetter(line[0 + 0], key[0]);
  }
}
