/** What any number of hardening runs makes of any configuration file, and what sshd reads of it. */
module HardeningLaws {
  import opened Hardening
  import opened TextLines

  // ---- The block ----

  lemma {:induction false} NoneSurvive(settings: seq<Setting>, part: seq<Setting>, from: nat)
    requires WellFormed(settings) && from <= |settings| && part == settings[from..]
    ensures Survivors(settings, SettingLines(part)) == [] && NoBreaks(SettingLines(part))
  {
    if part != [] {
      NoneSurvive(settings, part[1..], from + 1);
      var line := SettingLine(part[0]);
      assert part[0] == settings[from];
      SettingLineIsFor(part[0], part[0].key);
      assert Managed(settings, line);
      assert ([line] + SettingLines(part[1..]))[1..] == SettingLines(part[1..]);
      forall i | 0 <= i < |line| ensures line[i] != '\n' {
        if i > |part[0].key| { assert line[i] == part[0].value[i - |part[0].key| - 1]; }
      }
    }
  }

  lemma MarkerHasNoBreak()
    ensures NoBreak(MARKER)
  {
  }

  lemma BlockSurvivors(settings: seq<Setting>)
    requires WellFormed(settings)
    ensures Survivors(settings, Block(settings)) == ["", MARKER] && NoBreaks(Block(settings))
    ensures Survivors(settings, Block(settings)[1..]) == [MARKER]
  {
    var rest := SettingLines(settings);
    NoneSurvive(settings, settings, 0);
    MarkerSurvives(settings);
    MarkerHasNoBreak();
    assert settings[0..] == settings;
    assert ([MARKER] + rest)[1..] == rest;
    assert Survivors(settings, [MARKER] + rest) == [MARKER];
    assert Block(settings)[1..] == [MARKER] + rest;
  }

  lemma FirstBlockClean(settings: seq<Setting>, clean: seq<string>)
    requires WellFormed(settings) && (clean == ["", MARKER] || clean == [MARKER])
    ensures Survivors(settings, clean) == clean
  {
    MarkerSurvives(settings);
    assert ["", MARKER][1..] == [MARKER] && [MARKER][1..] == [];
    assert Survivors(settings, [MARKER]) == [MARKER];
  }

  lemma {:induction false} MarkersSurvive(settings: seq<Setting>, n: nat)
    requires WellFormed(settings)
    ensures Survivors(settings, Markers(n)) == Markers(n) && NoBreaks(Markers(n)) && |Markers(n)| == 2 * n
  {
    if n > 0 {
      MarkersSurvive(settings, n - 1);
      FirstBlockClean(settings, ["", MARKER]);
      MarkerHasNoBreak();
      SurvivorsConcat(settings, Markers(n - 1), ["", MARKER]);
    }
  }

  lemma {:induction false} UnlinesConcat(a: seq<string>, b: seq<string>)
    ensures Unlines(a + b) == Unlines(a) + Unlines(b)
  {
    if a == [] {
      assert a + b == b;
    } else {
      UnlinesConcat(a[1..], b);
      assert (a + b)[1..] == a[1..] + b;
      Associate(a[0], Unlines(a[1..]), Unlines(b));
    }
  }

  lemma PiecesOfUnlines(lines: seq<string>)
    requires NoBreaks(lines)
    ensures Pieces(Unlines(lines)) == lines
  {
    PiecesAppend(lines, "");
    assert Unlines(lines) + "" == Unlines(lines);
  }

  // ---- Any number of runs ----

  /** A file of earlier survivors, earlier markers and a block. */
  function Settled(settings: seq<Setting>, kept: seq<string>, n: nat): string {
    Unlines(kept + Markers(n) + Block(settings))
  }

  predicate Keeps(settings: seq<Setting>, kept: seq<string>) {
    NoBreaks(kept) && Survivors(settings, kept) == kept
  }

  lemma OneMoreRun(settings: seq<Setting>, kept: seq<string>, n: nat)
    requires WellFormed(settings) && Keeps(settings, kept)
    ensures Patched(settings, Settled(settings, kept, n)) == Settled(settings, kept, n + 1)
  {
    var block := Block(settings);
    BlockSurvivors(settings);
    MarkersSurvive(settings, n);
    PiecesOfUnlines(kept + Markers(n) + block);
    SurvivorsConcat(settings, kept + Markers(n), block);
    SurvivorsConcat(settings, kept, Markers(n));
    assert (kept + Markers(n)) + ["", MARKER] == kept + Markers(n + 1);
    UnlinesConcat(kept + Markers(n + 1), block);
  }

  lemma FirstRun(settings: seq<Setting>, text: string, kept: seq<string>)
    requires kept == Survivors(settings, Pieces(text)) && kept != []
    ensures Patched(settings, text) == Settled(settings, kept, 0)
  {
    UnlinesConcat(kept, Block(settings));
    assert kept + Markers(0) == kept;
  }

  lemma SurvivorsKeep(settings: seq<Setting>, text: string)
    ensures Keeps(settings, Survivors(settings, Pieces(text)))
  {
    PiecesHaveNoBreaks(text);
    SurvivorsAgain(settings, Pieces(text));
  }

  /** Every piece but an unfinished last one ended in a line feed. */
  lemma {:induction false} TextOfPieces(text: string)
    ensures text == "" || text[|text| - 1] == '\n' ==> text == Unlines(Pieces(text))
    ensures text != "" && text[|text| - 1] != '\n' ==> text + "\n" == Unlines(Pieces(text))
  {
    if text != [] {
      var n := UntilBreak(text);
      if n == |text| {
        assert Unlines([text]) == text + "\n" + "" == text + "\n";
      } else {
        var a, rest := text[..n], text[n + 1..];
        TextOfPieces(rest);
        assert text == a + "\n" + rest;
        assert rest != "" ==> rest[|rest| - 1] == text[|text| - 1];
        assert (a + "\n" + rest) + "\n" == a + "\n" + (rest + "\n");
        assert ([a] + Pieces(rest))[1..] == Pieces(rest);
      }
    }
  }

  /** What the first run appends, seen as lines: an unfinished last line takes the blank. */
  function FirstBlock(settings: seq<Setting>, text: string): seq<string> {
    if text == "" || text[|text| - 1] == '\n' then Block(settings) else Block(settings)[1..]
  }

  lemma AppendedWhole(text: string, lines: seq<string>, block: seq<string>)
    requires text == Unlines(lines)
    ensures text + Unlines(block) == Unlines(lines + block)
  {
    UnlinesConcat(lines, block);
  }

  lemma AppendedUnfinished(text: string, lines: seq<string>, tail: seq<string>)
    requires text + "\n" == Unlines(lines)
    ensures text + Unlines([""] + tail) == Unlines(lines + tail)
  {
    UnlinesConcat(lines, tail);
    assert ([""] + tail)[1..] == tail;
    assert Unlines([""] + tail) == "\n" + Unlines(tail);
    assert text + ("\n" + Unlines(tail)) == (text + "\n") + Unlines(tail);
  }

  lemma Appended(settings: seq<Setting>, text: string, lines: seq<string>)
    requires lines == Pieces(text)
    ensures text + Unlines(Block(settings)) == Unlines(lines + FirstBlock(settings, text))
  {
    TextOfPieces(text);
    if text == "" || text[|text| - 1] == '\n' {
      AppendedWhole(text, lines, Block(settings));
    } else {
      assert Block(settings) == [""] + Block(settings)[1..];
      AppendedUnfinished(text, lines, Block(settings)[1..]);
    }
  }

  /** From a file in which nothing survives, one run keeps every old line in front of the block. */
  lemma FirstRunKeepsAll(settings: seq<Setting>, text: string, lines: seq<string>, first: seq<string>)
    requires WellFormed(settings) && lines == Pieces(text) && first == FirstBlock(settings, text)
    requires Survivors(settings, lines) == []
    ensures Pieces(Patched(settings, text)) == lines + first
  {
    Appended(settings, text, lines);
    PiecesHaveNoBreaks(text);
    BlockSurvivors(settings);
    PiecesOfUnlines(lines + first);
  }

  lemma FirstRunLeaves(settings: seq<Setting>, text: string)
    requires WellFormed(settings) && Survivors(settings, Pieces(text)) == []
    ensures Survivors(settings, Pieces(Patched(settings, text))) ==
      if FirstBlock(settings, text) == Block(settings) then ["", MARKER] else [MARKER]
  {
    FirstRunKeepsAll(settings, text, Pieces(text), FirstBlock(settings, text));
    BlockSurvivors(settings);
    SurvivorsConcat(settings, Pieces(text), FirstBlock(settings, text));
  }
}
