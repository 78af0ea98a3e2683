/** Text and its lines, as Rust's `str::lines` and `join` see them. */
module TextLines {
  predicate NoBreak(s: string) { forall i | 0 <= i < |s| :: s[i] != '\n' }

  function UntilBreak(s: string): (n: nat)
    ensures n <= |s| && (n < |s| ==> s[n] == '\n') && forall i | 0 <= i < n :: s[i] != '\n'
  {
    if s == [] || s[0] == '\n' then 0
    else
      UntilBreak(s[1..]) + 1
  }

  /** A line ended by a line feed loses one carriage return before it. */
  function WithoutCr(s: string): string {
    if s != [] && s[|s| - 1] == '\r' then s[..|s| - 1] else s
  }

  /** A final line feed ends the last line; it does not start an empty one. */
  function Lines(s: string): seq<string> {
    if s == [] then []
    else
      var n := UntilBreak(s);
      if n == |s| then [s] else [WithoutCr(s[..n])] + Lines(s[n + 1..])
  }

  function Join(lines: seq<string>): string {
    if lines == [] then ""
    else if |lines| == 1 then lines[0]
    else lines[0] + "\n" + Join(lines[1..])
  }

  predicate NoBreaks(lines: seq<string>) { forall i | 0 <= i < |lines| :: NoBreak(lines[i]) }

  lemma {:induction false} LinesHaveNoBreaks(s: string)
    ensures NoBreaks(Lines(s))
  {
    if s != [] {
      var n := UntilBreak(s);
      if n < |s| {
        LinesHaveNoBreaks(s[n + 1..]);
        FirstOfLines(WithoutCr(s[..n]), Lines(s[n + 1..]));
      }
    }
  }

  lemma FirstOfLines(line: string, rest: seq<string>)
    requires NoBreak(line) && NoBreaks(rest)
    ensures NoBreaks([line] + rest)
  {
  }

  /** What joined lines read back as: each loses a final carriage return, except that the last keeps it, and
      is lost altogether when empty. */
  function Reread(lines: seq<string>): seq<string> {
    if lines == [] then []
    else if |lines| == 1 then if lines[0] == "" then [] else lines
    else [WithoutCr(lines[0])] + Reread(lines[1..])
  }

  lemma UntilBreakAt(a: string, rest: string)
    requires NoBreak(a)
    ensures UntilBreak(a + "\n" + rest) == |a| && UntilBreak(a) == |a|
  {
    var s := a + "\n" + rest;
    assert s[|a|] == '\n' && s[..|a|] == a;
    assert forall i | 0 <= i < |a| :: s[i] == a[i];
  }

  lemma {:induction false} LinesOfJoin(lines: seq<string>)
    requires NoBreaks(lines)
    ensures Lines(Join(lines)) == Reread(lines)
  {
    if |lines| == 1 {
      UntilBreakAt(lines[0], "");
    } else if lines != [] {
      var a, rest := lines[0], Join(lines[1..]);
      var s := a + "\n" + rest;
      LinesOfJoin(lines[1..]);
      UntilBreakAt(a, rest);
      assert s[..|a|] == a && s[|a| + 1..] == rest;
    }
  }

  /** Lines that survive being joined and read again. */
  predicate Stable(lines: seq<string>) {
    lines != [] ==>
      && lines[|lines| - 1] != ""
      && forall i | 0 <= i < |lines| - 1 :: WithoutCr(lines[i]) == lines[i]
  }

  lemma {:induction false} RereadIff(lines: seq<string>)
    ensures Reread(lines) == lines <==> Stable(lines)
  {
    if |lines| > 1 {
      RereadIff(lines[1..]);
      var tail := lines[1..];
      assert tail[|tail| - 1] == lines[|lines| - 1];
      assert lines == [lines[0]] + tail;
      if Stable(lines) {
        forall i | 0 <= i < |tail| - 1 ensures WithoutCr(tail[i]) == tail[i] { assert tail[i] == lines[i + 1]; }
      }
      if Stable(tail) && WithoutCr(lines[0]) == lines[0] {
        forall i | 0 <= i < |lines| - 1 ensures WithoutCr(lines[i]) == lines[i] {
          if i > 0 { assert lines[i] == tail[i - 1]; }
        }
      }
      if Reread(lines) == lines { assert Reread(lines)[1..] == Reread(tail); }
    }
  }

  /** Joining and reading back loses nothing exactly when no line but the last ends in a carriage return and the
      last is not empty. */
  lemma JoinReadsBackIff(lines: seq<string>)
    requires NoBreaks(lines)
    ensures Lines(Join(lines)) == lines <==> Stable(lines)
  {
    LinesOfJoin(lines);
    RereadIff(lines);
  }

  lemma {:induction false} JoinInjective(a: seq<string>, b: seq<string>)
    requires NoBreaks(a) && NoBreaks(b) && a != [] && b != [] && Join(a) == Join(b)
    ensures a == b
  {
    if |a| > 1 { UntilBreakAt(a[0], Join(a[1..])); } else { UntilBreakAt(a[0], ""); }
    if |b| > 1 { UntilBreakAt(b[0], Join(b[1..])); } else { UntilBreakAt(b[0], ""); }
    if |a| > 1 && |b| > 1 {
      var s := a[0] + "\n" + Join(a[1..]);
      assert s[..UntilBreak(s)] == a[0] && s[UntilBreak(s) + 1..] == Join(a[1..]);
      var t := b[0] + "\n" + Join(b[1..]);
      assert t[..UntilBreak(t)] == b[0] && t[UntilBreak(t) + 1..] == Join(b[1..]);
      JoinInjective(a[1..], b[1..]);
    }
  }
}
