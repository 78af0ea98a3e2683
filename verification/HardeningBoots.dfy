/** The configuration file, hardened at every start of the container. */
module HardeningBoots {
  import opened Hardening
  import opened HardeningEffect
  import opened HardeningLaws
  import opened HardeningSettings
  import opened TextLines
  import opened Wrappers

  lemma SurvivorsNext(settings: seq<Setting>, lines: seq<string>, i: nat, out: seq<string>)
    requires i < |lines| && Survivors(settings, lines) == out + Survivors(settings, lines[i..])
    ensures Survivors(settings, lines) ==
      (if Managed(settings, lines[i]) then out else out + [lines[i]]) + Survivors(settings, lines[i + 1..])
  {
    assert lines[i..][1..] == lines[i + 1..];
  }

  /** `grep -v`, with its exit status. */
  method Grep(settings: seq<Setting>, lines: seq<string>) returns (out: seq<string>, found: bool)
    ensures out == Survivors(settings, lines) && found == (out != [])
  {
    out := [];
    assert lines[0..] == lines;
    for i := 0 to |lines|
      invariant Survivors(settings, lines) == out + Survivors(settings, lines[i..])
    {
      SurvivorsNext(settings, lines, i, out);
      if !Managed(settings, lines[i]) { out := out + [lines[i]]; }
    }
    found := out != [];
  }

  class ConfigFile {
    var text: string

    constructor (text: string)
      ensures this.text == text
    {
      this.text := text;
    }

    method Append(lines: seq<string>)
      modifies this
      ensures text == old(text) + Unlines(lines)
    {
      assert lines[..0] == [];
      for i := 0 to |lines|
        invariant text == old(text) + Unlines(lines[..i])
      {
        UnlinesConcat(lines[..i], [lines[i]]);
        assert lines[..i + 1] == lines[..i] + [lines[i]];
        assert Unlines([lines[i]]) == lines[i] + "\n" + "" == lines[i] + "\n";
        text := text + (lines[i] + "\n");
      }
      assert lines[..|lines|] == lines;
    }

    /** `patch_cfg`. */
    method Patch(settings: seq<Setting>)
      modifies this
      ensures text == Patched(settings, old(text))
    {
      var kept, found := Grep(settings, Pieces(text));
      if found { text := Unlines(kept); }
      Append(Block(settings));
    }

    method PatchSettled(settings: seq<Setting>, kept: seq<string>, n: nat)
      requires WellFormed(settings) && Keeps(settings, kept) && text == Settled(settings, kept, n)
      modifies this
      ensures text == Settled(settings, kept, n + 1)
    {
      OneMoreRun(settings, kept, n);
      Patch(settings);
    }

    method PatchFirst(settings: seq<Setting>, kept: seq<string>)
      requires kept != [] && kept == Survivors(settings, Pieces(text))
      modifies this
      ensures text == Settled(settings, kept, 0)
    {
      FirstRun(settings, text, kept);
      Patch(settings);
    }

    method PatchMore(settings: seq<Setting>, kept: seq<string>, boots: nat)
      requires WellFormed(settings) && Keeps(settings, kept) && text == Settled(settings, kept, 0)
      modifies this
      ensures text == Settled(settings, kept, boots)
    {
      for i := 0 to boots
        invariant text == Settled(settings, kept, i)
      {
        PatchSettled(settings, kept, i);
      }
    }

    /** Any number of starts. From a file with a surviving line: the survivors in order, a blank and a marker for
        every start but the last, and the block. From a file in which nothing survives, the first start keeps
        every old line in front of its block and the second drops them all. */
    method Boots(settings: seq<Setting>, boots: nat)
      requires WellFormed(settings) && boots >= 1
      modifies this
      ensures var kept := Survivors(settings, Pieces(old(text)));
        && (kept != [] ==> text == Settled(settings, kept, boots - 1))
        && (kept == [] && boots == 1 ==> text == Patched(settings, old(text)))
        && (kept == [] && boots >= 2 ==> text == Settled(settings, LeftOver(settings, old(text)), boots - 2))
    {
      var kept := Survivors(settings, Pieces(text));
      if kept != [] {
        SurvivorsKeep(settings, text);
        PatchFirst(settings, kept);
        PatchMore(settings, kept, boots - 1);
      } else {
        FirstRunLeaves(settings, text);
        var left := LeftOver(settings, text);
        Patch(settings);
        if boots >= 2 {
          SurvivorsKeep(settings, text);
          PatchFirst(settings, left);
          PatchMore(settings, left, boots - 2);
        }
      }
    }

    /** Starts converge on exactly one line for each key, from any file at all, at the second start; at the first
        exactly when the file is empty or some line survives the filter. */
    method BootsConverge(settings: seq<Setting>, boots: nat)
      requires WellFormed(settings) && boots >= 1
      modifies this
      ensures OneEach(settings, Pieces(text)) <==>
        boots >= 2 || old(text) == "" || Survivors(settings, Pieces(old(text))) != []
    {
      ghost var start := text;
      Boots(settings, boots);
      if Survivors(settings, Pieces(start)) != [] {
        SurvivorsKeep(settings, start);
        SettledIsOneEach(settings, Survivors(settings, Pieces(start)), boots - 1, Pieces(text));
      } else {
        ConvergedFromNothing(settings, start, boots, text);
      }
    }

    /** With the script's own settings: the eight keys have the eight values in force. */
    method Harden(boots: nat)
      requires boots >= 1
      modifies this
      ensures boots >= 2 || old(text) == "" || Survivors(Settings(), Pieces(old(text))) != [] ==> Hardened(Pieces(text))
    {
      SettingsWellFormed();
      BootsConverge(Settings(), boots);
      if OneEach(Settings(), Pieces(text)) { OneEachIsHardened(Pieces(text)); }
    }
  }

  lemma ConvergedFromNothing(settings: seq<Setting>, start: string, boots: nat, text: string)
    requires WellFormed(settings) && boots >= 1 && Survivors(settings, Pieces(start)) == []
    requires text == if boots == 1 then Patched(settings, start) else Settled(settings, LeftOver(settings, start), boots - 2)
    ensures OneEach(settings, Pieces(text)) <==> boots >= 2 || start == ""
  {
    if boots >= 2 {
      LeftOverKeeps(settings, start);
      SettledIsOneEach(settings, LeftOver(settings, start), boots - 2, Pieces(text));
    } else {
      AfterOneBareRun(settings, start, Pieces(start), Pieces(text));
    }
  }

  /** What survives of the first block. */
  function LeftOver(settings: seq<Setting>, text: string): seq<string> {
    if FirstBlock(settings, text) == Block(settings) then ["", MARKER] else [MARKER]
  }

  lemma LeftOverKeeps(settings: seq<Setting>, text: string)
    requires WellFormed(settings)
    ensures Keeps(settings, LeftOver(settings, text))
  {
    FirstBlockClean(settings, LeftOver(settings, text));
    MarkerHasNoBreak();
  }

  lemma AfterOneBareRun(settings: seq<Setting>, text: string, before: seq<string>, after: seq<string>)
    requires WellFormed(settings) && before == Pieces(text) && Survivors(settings, before) == []
    requires after == Pieces(Patched(settings, text))
    ensures OneEach(settings, after) <==> before == []
    ensures before == [] <==> text == ""
  {
    forall i | 0 <= i < |settings|
      ensures Count(after, settings[i].key) == Count(before, settings[i].key) + 1
      ensures FirstValue(after, settings[i].key) ==
        if FirstValue(before, settings[i].key).Some? then FirstValue(before, settings[i].key)
        else Some(settings[i].value)
    {
      OldValueStays(settings, text, i);
    }
    if before != [] { var i := ManagedCounts(settings, before); }
  }

  /** The file itself does not converge: every start after the first adds two lines. */
  lemma EveryBootAddsTwoLines(settings: seq<Setting>, kept: seq<string>, n: nat)
    requires WellFormed(settings) && Keeps(settings, kept)
    ensures |Pieces(Settled(settings, kept, n + 1))| == |Pieces(Settled(settings, kept, n))| + 2
  {
    SettledPieces(settings, kept, n, kept + Markers(n + 1));
    SettledPieces(settings, kept, n + 1, kept + Markers(n + 2));
    MarkersSurvive(settings, n + 1);
    MarkersSurvive(settings, n + 2);
  }

  const ROOT_LOGIN: string := "PermitRootLogin"

  /** A file of one old setting: after its first start sshd still lets root in, because the old line comes first. */
  lemma OldRootLoginExample()
    ensures var text := Unlines([SettingLine(Setting(ROOT_LOGIN, "yes"))]);
      && Survivors(Settings(), Pieces(text)) == []
      && FirstValue(Pieces(Patched(Settings(), text)), ROOT_LOGIN) == Some("yes")
      && Count(Pieces(Patched(Settings(), text)), ROOT_LOGIN) == 2
      && !OneEach(Settings(), Pieces(Patched(Settings(), text)))
  {
    var settings, s := Settings(), Setting(ROOT_LOGIN, "yes");
    SettingsWellFormed();
    assert settings[6] == Setting(ROOT_LOGIN, "no");
    OneOldLine(settings, s, 6);
  }

  predicate Contradicts(s: Setting, managed: Setting) {
    s.key == managed.key && s.value != managed.value && s.value != [] && !Space(s.value[0]) && NoBreak(s.value)
  }

  lemma OneOldLine(settings: seq<Setting>, s: Setting, i: nat)
    requires WellFormed(settings) && i < |settings| && Contradicts(s, settings[i])
    ensures var text := Unlines([SettingLine(s)]);
      && Survivors(settings, Pieces(text)) == []
      && FirstValue(Pieces(Patched(settings, text)), s.key) == Some(s.value)
      && Count(Pieces(Patched(settings, text)), s.key) == 2
      && !OneEach(settings, Pieces(Patched(settings, text)))
  {
    var text := Unlines([SettingLine(s)]);
    OldLineAlone(settings, s, i, text);
    OldLineStays(settings, s, i, text, Pieces(text), Pieces(Patched(settings, text)));
  }

  lemma OldLineAlone(settings: seq<Setting>, s: Setting, i: nat, text: string)
    requires WellFormed(settings) && i < |settings| && Contradicts(s, settings[i]) && text == Unlines([SettingLine(s)])
    ensures Pieces(text) == [SettingLine(s)] && Survivors(settings, Pieces(text)) == []
  {
    var line := SettingLine(s);
    SettingLineIsFor(s, s.key);
    LineHasNoBreak(s);
    PiecesOfUnlines([line]);
    assert Managed(settings, line) by { assert IsFor(line, settings[i].key); }
    assert [line][1..] == [];
  }

  lemma OldLineStays(
    settings: seq<Setting>, s: Setting, i: nat, text: string, before: seq<string>, after: seq<string>)
    requires WellFormed(settings) && i < |settings| && Contradicts(s, settings[i])
    requires before == Pieces(text) == [SettingLine(s)] && Survivors(settings, before) == []
    requires after == Pieces(Patched(settings, text))
    ensures FirstValue(after, s.key) == Some(s.value) && Count(after, s.key) == 2 && !OneEach(settings, after)
  {
    OldSettingCounts(s);
    OldValueStays(settings, text, i);
  }

  lemma OldSettingCounts(s: Setting)
    requires Word(s.key) && s.value != [] && !Space(s.value[0])
    ensures Count([SettingLine(s)], s.key) == 1 && FirstValue([SettingLine(s)], s.key) == Some(s.value)
  {
    SettingLineIsFor(s, s.key);
    SettingLineReads(s, s.key);
    OneLineCounts(SettingLine(s), s.key);
  }

  lemma LineHasNoBreak(s: Setting)
    requires Word(s.key) && NoBreak(s.value)
    ensures NoBreak(SettingLine(s))
  {
    var line := SettingLine(s);
    forall i | 0 <= i < |line| ensures line[i] != '\n' {
      if i < |s.key| { assert line[i] == s.key[i]; }
      else if i > |s.key| { assert line[i] == s.value[i - |s.key| - 1]; }
    }
  }

  lemma OneLineCounts(line: string, key: string)
    ensures Count([line], key) == if IsFor(line, key) then 1 else 0
    ensures Directive(line, key) ==> FirstValue([line], key) == Some(SkipSpace(SkipSpace(line)[|key|..]))
  {
    assert [line][1..] == [];
  }
}
