/** What hardening is for: one line for each key, and sshd reading the managed value. */
module HardeningEffect {
  import opened Hardening
  import opened HardeningLaws
  import opened Wrappers

  function Count(lines: seq<string>, key: string): nat {
    if lines == [] then 0 else (if IsFor(lines[0], key) then 1 else 0) + Count(lines[1..], key)
  }

  function SkipSpace(s: string): string { if s != [] && Space(s[0]) then SkipSpace(s[1..]) else s }

  /** sshd takes the first line that gives the key a value; a comment gives none. */
  predicate Directive(line: string, key: string) { StartsWithKey(SkipSpace(line), key) }

  function FirstValue(lines: seq<string>, key: string): Option<string> {
    if lines == [] then None
    else if Directive(lines[0], key) then Some(SkipSpace(SkipSpace(lines[0])[|key|..]))
    else FirstValue(lines[1..], key)
  }

  /** Exactly one line for each key, commented out or not, and it is the managed one. */
  predicate OneEach(settings: seq<Setting>, lines: seq<string>) {
    forall i | 0 <= i < |settings| ::
      Count(lines, settings[i].key) == 1 && FirstValue(lines, settings[i].key) == Some(settings[i].value)
  }

  lemma {:induction false} Concat(a: seq<string>, b: seq<string>, key: string)
    ensures Count(a + b, key) == Count(a, key) + Count(b, key)
    ensures FirstValue(a + b, key) == if FirstValue(a, key).Some? then FirstValue(a, key) else FirstValue(b, key)
  {
    if a == [] {
      assert a + b == b;
    } else {
      Concat(a[1..], b, key);
      assert (a + b)[1..] == a[1..] + b;
    }
  }

  /** Whatever gives the key a value is for the key. */
  lemma {:induction false} DirectiveIsFor(line: string, key: string)
    requires Word(key) && Directive(line, key)
    ensures IsFor(line, key)
  {
    if line != [] && Space(line[0]) {
      DirectiveIsFor(line[1..], key);
    } else {
      assert LowerChar(line[0]) == LowerChar(key[0]);
    }
  }

  lemma {:induction false} UnmanagedIdle(settings: seq<Setting>, lines: seq<string>, i: nat)
    requires WellFormed(settings) && i < |settings|
    requires forall k | 0 <= k < |lines| :: !Managed(settings, lines[k])
    ensures Count(lines, settings[i].key) == 0 && FirstValue(lines, settings[i].key) == None
  {
    if lines != [] {
      assert !Managed(settings, lines[0]);
      if Directive(lines[0], settings[i].key) { DirectiveIsFor(lines[0], settings[i].key); }
      UnmanagedIdle(settings, lines[1..], i);
    }
  }

  lemma SettingLineReads(s: Setting, key: string)
    requires Word(s.key) && Word(key) && s.value != [] && !Space(s.value[0]) && SameKey(s.key, key)
    ensures Directive(SettingLine(s), key) && SkipSpace(SkipSpace(SettingLine(s))[|key|..]) == s.value
  {
    var line := SettingLine(s);
    SettingLineIsFor(s, key);
    assert line[0] == s.key[0];
    assert SkipSpace(line) == line;
    assert line[|key|..] == " " + s.value;
    assert (" " + s.value)[1..] == s.value;
  }

  /** The managed lines from one on. */
  lemma {:induction false} ManagedLines(settings: seq<Setting>, part: seq<Setting>, from: nat, i: nat)
    requires WellFormed(settings) && from <= |settings| && part == settings[from..] && i < |settings|
    ensures Count(SettingLines(part), settings[i].key) == if i >= from then 1 else 0
    ensures FirstValue(SettingLines(part), settings[i].key) == if i >= from then Some(settings[i].value) else None
  {
    if part != [] {
      var s, key := part[0], settings[i].key;
      var line := SettingLine(s);
      assert s == settings[from];
      ManagedLines(settings, part[1..], from + 1, i);
      SettingLineIsFor(s, key);
      assert ([line] + SettingLines(part[1..]))[1..] == SettingLines(part[1..]);
      if i == from {
        SettingLineReads(s, key);
      } else {
        assert !SameKey(s.key, key);
        if Directive(line, key) { DirectiveIsFor(line, key); }
      }
    }
  }

  /** Unmanaged lines and then the managed ones. */
  lemma CleanThenManaged(settings: seq<Setting>, clean: seq<string>, lines: seq<string>, i: nat)
    requires WellFormed(settings) && i < |settings| && Survivors(settings, clean) == clean
    requires lines == clean + SettingLines(settings)
    ensures Count(lines, settings[i].key) == 1 && FirstValue(lines, settings[i].key) == Some(settings[i].value)
  {
    SurvivorsAgain(settings, clean);
    UnmanagedIdle(settings, clean, i);
    assert settings[0..] == settings;
    ManagedLines(settings, settings, 0, i);
    Concat(clean, SettingLines(settings), settings[i].key);
  }

  lemma CleanMarkers(settings: seq<Setting>, kept: seq<string>, n: nat)
    requires WellFormed(settings) && Keeps(settings, kept)
    ensures Keeps(settings, kept + Markers(n)) && |Markers(n)| == 2 * n
  {
    MarkersSurvive(settings, n);
    SurvivorsConcat(settings, kept, Markers(n));
  }

  lemma MarkerFirst(kept: seq<string>, n: nat, rest: seq<string>)
    ensures kept + Markers(n) + (["", MARKER] + rest) == (kept + Markers(n + 1)) + rest
  {
    assert Markers(n + 1) == Markers(n) + ["", MARKER];
  }

  lemma SettledPieces(settings: seq<Setting>, kept: seq<string>, n: nat, clean: seq<string>)
    requires WellFormed(settings) && Keeps(settings, kept) && clean == kept + Markers(n + 1)
    ensures Pieces(Settled(settings, kept, n)) == clean + SettingLines(settings)
  {
    BlockSurvivors(settings);
    CleanMarkers(settings, kept, n);
    MarkerFirst(kept, n, SettingLines(settings));
    PiecesOfUnlines(kept + Markers(n) + Block(settings));
  }

  lemma SettledIsOneEach(settings: seq<Setting>, kept: seq<string>, n: nat, lines: seq<string>)
    requires WellFormed(settings) && Keeps(settings, kept) && lines == Pieces(Settled(settings, kept, n))
    ensures OneEach(settings, lines)
  {
    var clean := kept + Markers(n + 1);
    SettledPieces(settings, kept, n, clean);
    CleanMarkers(settings, kept, n + 1);
    forall i | 0 <= i < |settings|
      ensures Count(lines, settings[i].key) == 1 && FirstValue(lines, settings[i].key) == Some(settings[i].value)
    {
      CleanThenManaged(settings, clean, lines, i);
    }
  }

  /** The first run on a file in which nothing survives: sshd goes on reading the old value of every key that has
      one, because the old line stays in front of ours. */
  lemma OldValueStays(settings: seq<Setting>, text: string, i: nat)
    requires WellFormed(settings) && Survivors(settings, Pieces(text)) == [] && i < |settings|
    ensures var key, before, after := settings[i].key, Pieces(text), Pieces(Patched(settings, text));
      && Count(after, key) == Count(before, key) + 1
      && FirstValue(after, key) == if FirstValue(before, key).Some? then FirstValue(before, key) else Some(settings[i].value)
  {
    var first := FirstBlock(settings, text);
    var clean := if first == Block(settings) then ["", MARKER] else [MARKER];
    FirstRunKeepsAll(settings, text, Pieces(text), first);
    BlockSurvivors(settings);
    assert first == clean + SettingLines(settings);
    FirstBlockClean(settings, clean);
    CleanThenManaged(settings, clean, first, i);
    Concat(Pieces(text), first, settings[i].key);
  }

  lemma ManagedCounts(settings: seq<Setting>, lines: seq<string>) returns (i: nat)
    requires lines != [] && Survivors(settings, lines) == []
    ensures i < |settings| && Count(lines, settings[i].key) >= 1
  {
    assert Managed(settings, lines[0]);
    i :| 0 <= i < |settings| && IsFor(lines[0], settings[i].key);
  }
}
