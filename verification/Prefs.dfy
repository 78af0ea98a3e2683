/** Spotify's flat `key=value` preferences: the editor and the reader in `src-tauri/src/spotify.rs`. */
module Prefs {
  import opened TextLines
  import opened Wrappers

  // ---- Pieces of a line ----

  /** The characters Rust's `trim` takes off: Unicode's white space. */
  predicate IsSpace(c: char) {
    || '\t' <= c <= '\r' || c == ' ' || c == '\U{85}' || c == '\U{A0}' || c == '\U{1680}'
    || '\U{2000}' <= c <= '\U{200A}' || c == '\U{2028}' || c == '\U{2029}' || c == '\U{202F}'
    || c == '\U{205F}' || c == '\U{3000}'
  }

  function TrimStart(s: string): string { if s != [] && IsSpace(s[0]) then TrimStart(s[1..]) else s }

  function TrimEnd(s: string): string { if s != [] && IsSpace(s[|s| - 1]) then TrimEnd(s[..|s| - 1]) else s }

  function Trim(s: string): string { TrimStart(TrimEnd(s)) }

  function UnquoteStart(s: string): string { if s != [] && s[0] == '"' then UnquoteStart(s[1..]) else s }

  function UnquoteEnd(s: string): string { if s != [] && s[|s| - 1] == '"' then UnquoteEnd(s[..|s| - 1]) else s }

  function Unquote(s: string): string { UnquoteStart(UnquoteEnd(s)) }

  /** Where the first `c` is, or the length. */
  function At(s: string, c: char): (n: nat)
    ensures n <= |s| && (n < |s| ==> s[n] == c) && forall i | 0 <= i < n :: s[i] != c
  {
    if s == [] || s[0] == c then 0 else At(s[1..], c) + 1
  }

  predicate Keyed(line: string) { At(line, '=') < |line| }

  function Name(line: string): string { Trim(line[..At(line, '=')]) }

  function Value(line: string): string
    requires Keyed(line)
  {
    Unquote(Trim(line[At(line, '=') + 1..]))
  }

  function Entry(key: string, value: string): string { key + "=" + value }

  /** What the two keys used here are: not empty, on one line, without `=` or outer white space. */
  predicate Plain(key: string) { key != [] && NoBreak(key) && At(key, '=') == |key| && Trim(key) == key }

  /** A text that may stand for a value: on one line, and not ending in a carriage return. */
  predicate OneLine(value: string) { NoBreak(value) && WithoutCr(value) == value }

  lemma AtEntry(key: string, value: string)
    requires At(key, '=') == |key|
    ensures At(Entry(key, value), '=') == |key|
  {
    var line := Entry(key, value);
    assert line[|key|] == '=';
    assert forall i | 0 <= i < |key| :: line[i] == key[i];
  }

  lemma EntryReads(key: string, value: string)
    requires Plain(key)
    ensures Keyed(Entry(key, value)) && Name(Entry(key, value)) == key
    ensures Value(Entry(key, value)) == Unquote(Trim(value))
    ensures OneLine(value) ==> NoBreak(Entry(key, value)) && WithoutCr(Entry(key, value)) == Entry(key, value)
  {
    var line := Entry(key, value);
    AtEntry(key, value);
    assert line[..|key|] == key && line[|key| + 1..] == value;
    if value != [] {
      assert line[|line| - 1] == value[|value| - 1];
    } else {
      assert line[|line| - 1] == '=';
    }
    if OneLine(value) {
      forall i | 0 <= i < |line| ensures line[i] != '\n' {
        if i < |key| { assert line[i] == key[i]; } else if i > |key| { assert line[i] == value[i - |key| - 1]; }
      }
    }
  }

  lemma TrimCr(s: string)
    ensures Trim(s + "\r") == Trim(s)
  {
    assert (s + "\r")[..|s + "\r"| - 1] == s;
  }

  /** A trailing carriage return makes no difference to the reader. */
  lemma CrInvisible(line: string)
    ensures Keyed(WithoutCr(line)) == Keyed(line) && Name(WithoutCr(line)) == Name(line)
    ensures Keyed(line) ==> Value(WithoutCr(line)) == Value(line)
  {
    if WithoutCr(line) != line {
      var p := WithoutCr(line);
      var n := At(p, '=');
      assert line == p + "\r";
      AtBeforeCr(p);
      if n < |p| {
        CutBeforeCr(p, n);
        TrimCr(p[n + 1..]);
      } else {
        assert p[..|p|] == p && line[..|line|] == line;
        TrimCr(p);
      }
    }
  }

  lemma AtBeforeCr(p: string)
    ensures At(p + "\r", '=') == if At(p, '=') < |p| then At(p, '=') else |p + "\r"|
  {
    var line := p + "\r";
    assert line[|p|] == '\r' && forall i | 0 <= i < |p| :: line[i] == p[i];
  }

  lemma CutBeforeCr(p: string, n: nat)
    requires n < |p|
    ensures (p + "\r")[..n] == p[..n] && (p + "\r")[n + 1..] == p[n + 1..] + "\r"
  {
  }

  // ---- Reading and writing a key, on lines ----

  /** `get_key`: gives up at the first line without `=`. */
  function GetIn(lines: seq<string>, key: string): Option<string> {
    if lines == [] || !Keyed(lines[0]) then None
    else if Name(lines[0]) == key then Some(Value(lines[0]))
    else GetIn(lines[1..], key)
  }

  /** `set_key`: every line for the key becomes `entry`; where there is none, `entry` is added at the end. */
  function SetIn(lines: seq<string>, key: string, entry: string, seen: bool): seq<string> {
    if lines == [] then if seen then [] else [entry]
    else if Name(lines[0]) == key then [entry] + SetIn(lines[1..], key, entry, true)
    else [lines[0]] + SetIn(lines[1..], key, entry, seen)
  }

  predicate Seen(lines: seq<string>, key: string) { exists i | 0 <= i < |lines| :: Name(lines[i]) == key }

  /** What `set_key` does to each line, by position. */
  lemma {:induction false} SetInShape(lines: seq<string>, key: string, entry: string, seen: bool)
    ensures var out := SetIn(lines, key, entry, seen);
      && |out| == |lines| + (if seen || Seen(lines, key) then 0 else 1)
      && (forall i | 0 <= i < |lines| :: out[i] == if Name(lines[i]) == key then entry else lines[i])
      && (|out| > |lines| ==> out[|lines|] == entry)
  {
    if lines != [] {
      var now := seen || Name(lines[0]) == key;
      SetInShape(lines[1..], key, entry, now);
      var rest := SetIn(lines[1..], key, entry, now);
      var out := SetIn(lines, key, entry, seen);
      assert out[1..] == rest;
      SeenTail(lines, key);
      forall i | 0 <= i < |lines| ensures out[i] == if Name(lines[i]) == key then entry else lines[i] {
        if i > 0 { assert out[i] == rest[i - 1] && lines[i] == lines[1..][i - 1]; }
      }
      if |out| > |lines| { assert out[|lines|] == rest[|lines| - 1]; }
    }
  }

  lemma SeenTail(lines: seq<string>, key: string)
    requires lines != []
    ensures Seen(lines, key) <==> Name(lines[0]) == key || Seen(lines[1..], key)
  {
    if Seen(lines[1..], key) {
      var i :| 0 <= i < |lines[1..]| && Name(lines[1..][i]) == key;
      assert lines[i + 1] == lines[1..][i];
    }
    if Seen(lines, key) && Name(lines[0]) != key {
      var i :| 0 <= i < |lines| && Name(lines[i]) == key;
      assert lines[1..][i - 1] == lines[i];
    }
  }

  /** Every line before the first one for the key, or every line where there is none, has a `=`, or is for `other`. */
  predicate Reachable(lines: seq<string>, key: string, other: Option<string>) {
    || lines == []
    || Name(lines[0]) == key
    || ((Keyed(lines[0]) || other == Some(Name(lines[0]))) && Reachable(lines[1..], key, other))
  }

  lemma {:induction false} GetAfterSetIn(lines: seq<string>, key: string, entry: string)
    requires Keyed(entry) && Name(entry) == key
    ensures GetIn(SetIn(lines, key, entry, false), key) ==
      if Reachable(lines, key, None) then Some(Value(entry)) else None
  {
    if lines != [] && Name(lines[0]) != key {
      GetAfterSetIn(lines[1..], key, entry);
      assert SetIn(lines, key, entry, false)[1..] == SetIn(lines[1..], key, entry, false);
    }
  }

  /** Reading a key as if the lines for `past` did not matter, whether they have a `=` or not. */
  function GetPast(lines: seq<string>, key: string, past: string): Option<string> {
    if lines == [] then None
    else if Name(lines[0]) == past then GetPast(lines[1..], key, past)
    else if !Keyed(lines[0]) then None
    else if Name(lines[0]) == key then Some(Value(lines[0]))
    else GetPast(lines[1..], key, past)
  }

  lemma {:induction false} OthersIn(lines: seq<string>, key: string, entry: string, seen: bool, other: string)
    requires Keyed(entry) && Name(entry) == key && other != key
    ensures GetIn(SetIn(lines, key, entry, seen), other) == GetPast(lines, other, key)
  {
    if lines != [] {
      var now := seen || Name(lines[0]) == key;
      OthersIn(lines[1..], key, entry, now, other);
      assert SetIn(lines, key, entry, seen)[1..] == SetIn(lines[1..], key, entry, now);
    }
  }

  lemma {:induction false} NothingToPass(lines: seq<string>, key: string, past: string)
    requires key != past && forall i | 0 <= i < |lines| :: Name(lines[i]) == past ==> Keyed(lines[i])
    ensures GetPast(lines, key, past) == GetIn(lines, key)
  {
    if lines != [] {
      forall i | 0 <= i < |lines[1..]| && Name(lines[1..][i]) == past ensures Keyed(lines[1..][i]) {
        assert lines[1..][i] == lines[i + 1];
      }
      NothingToPass(lines[1..], key, past);
    }
  }

  /** A line for `past` without `=` stops the reader before it gets to the key, and past such lines there is a value
      for the key. */
  predicate Unblocked(lines: seq<string>, key: string, past: string) {
    lines != [] &&
    if Name(lines[0]) == past then
      if Keyed(lines[0]) then Unblocked(lines[1..], key, past) else GetPast(lines[1..], key, past).Some?
    else Keyed(lines[0]) && Name(lines[0]) != key && Unblocked(lines[1..], key, past)
  }

  lemma {:induction false} PastMattersIff(lines: seq<string>, key: string, past: string)
    requires key != past
    ensures GetPast(lines, key, past) == GetIn(lines, key) <==> !Unblocked(lines, key, past)
  {
    if lines != [] { PastMattersIff(lines[1..], key, past); }
  }

  /** After two keys have been set, each is read back exactly when it is reachable past the lines of the other. */
  lemma {:induction false} BothReadBack(
    lines: seq<string>, first: string, a: string, second: string, b: string, seen: bool)
    requires Keyed(a) && Name(a) == first && Keyed(b) && Name(b) == second && first != second
    ensures GetIn(SetIn(SetIn(lines, first, a, false), second, b, seen), first) ==
      if Reachable(lines, first, Some(second)) then Some(Value(a)) else None
  {
    var once := SetIn(lines, first, a, false);
    var now := seen || Name(once[0]) == second;
    assert SetIn(once, second, b, seen)[1..] == SetIn(once[1..], second, b, now);
    if lines != [] && Name(lines[0]) != first {
      BothReadBack(lines[1..], first, a, second, b, now);
      assert once[1..] == SetIn(lines[1..], first, a, false);
    }
  }

  lemma {:induction false} ReachablePast(lines: seq<string>, first: string, a: string, second: string, seen: bool)
    requires Keyed(a) && Name(a) == first && first != second
    ensures Reachable(SetIn(lines, first, a, seen), second, None) <==> Reachable(lines, second, Some(first))
  {
    if lines != [] {
      var now := seen || Name(lines[0]) == first;
      ReachablePast(lines[1..], first, a, second, now);
      assert SetIn(lines, first, a, seen)[1..] == SetIn(lines[1..], first, a, now);
    } else if !seen {
      assert [a][1..] == [];
    }
  }

  lemma {:induction false} LastSetWinsIn(lines: seq<string>, key: string, a: string, b: string, seen: bool)
    requires Name(a) == key
    ensures SetIn(SetIn(lines, key, a, seen), key, b, seen) == SetIn(lines, key, b, seen)
  {
    if lines != [] {
      var now := seen || Name(lines[0]) == key;
      LastSetWinsIn(lines[1..], key, a, b, now);
      assert SetIn(lines, key, a, seen)[1..] == SetIn(lines[1..], key, a, now);
    }
  }

  // ---- Lines that have been joined and read again ----

  lemma {:induction false} RereadInvisible(lines: seq<string>, key: string)
    ensures GetIn(Reread(lines), key) == GetIn(lines, key)
  {
    if |lines| == 1 {
    } else if lines != [] {
      CrInvisible(lines[0]);
      RereadInvisible(lines[1..], key);
      assert Reread(lines)[1..] == Reread(lines[1..]);
    }
  }

  lemma NameOfEmpty()
    ensures Name("") == "" && !Keyed("")
  {
  }

  /** With a line for the key there already, setting it and rereading may be swapped. */
  lemma {:induction false} SetReread(lines: seq<string>, key: string, entry: string, seen: bool)
    requires key != [] && entry != [] && WithoutCr(entry) == entry && (seen || Seen(lines, key))
    ensures SetIn(Reread(lines), key, entry, seen) == Reread(SetIn(lines, key, entry, seen))
  {
    if |lines| == 1 {
      NameOfEmpty();
    } else if lines != [] {
      var now := seen || Name(lines[0]) == key;
      SeenTail(lines, key);
      CrInvisible(lines[0]);
      SetReread(lines[1..], key, entry, now);
      var head := if Name(lines[0]) == key then entry else lines[0];
      var rest := SetIn(lines[1..], key, entry, now);
      SetInShape(lines[1..], key, entry, now);
      assert SetIn(lines, key, entry, seen) == [head] + rest;
      assert ([head] + rest)[1..] == rest;
      assert Reread(lines)[1..] == Reread(lines[1..]);
    }
  }

  // ---- On whole texts ----

  function GetKey(body: string, key: string): Option<string> { GetIn(Lines(body), key) }

  function SetKey(body: string, key: string, value: string): string {
    Join(SetIn(Lines(body), key, Entry(key, value), false))
  }

  lemma SetHasNoBreaks(body: string, key: string, value: string)
    requires Plain(key) && OneLine(value)
    ensures NoBreaks(SetIn(Lines(body), key, Entry(key, value), false))
    ensures Lines(SetKey(body, key, value)) == Reread(SetIn(Lines(body), key, Entry(key, value), false))
  {
    LinesHaveNoBreaks(body);
    EntryReads(key, value);
    SetInShape(Lines(body), key, Entry(key, value), false);
    LinesOfJoin(SetIn(Lines(body), key, Entry(key, value), false));
  }

  /** The value set is read back, trimmed and without its quotes, exactly when every line before the first one
      for the key has a `=`. Otherwise the reader gives up before it gets there. */
  lemma GetAfterSet(body: string, key: string, value: string)
    requires Plain(key) && OneLine(value)
    ensures GetKey(SetKey(body, key, value), key) ==
      if Reachable(Lines(body), key, None) then Some(Unquote(Trim(value))) else None
  {
    SetHasNoBreaks(body, key, value);
    EntryReads(key, value);
    RereadInvisible(SetIn(Lines(body), key, Entry(key, value), false), key);
    GetAfterSetIn(Lines(body), key, Entry(key, value));
  }

  /** Every other key reads as it did, but for one thing: a line with the set key and no `=` no longer stops the
      reader. So it reads as before if and only if no such line stood between the reader and a value; and in
      particular where there is no such line. */
  lemma OthersUntouched(body: string, key: string, value: string, other: string)
    requires Plain(key) && OneLine(value) && other != key
    ensures GetKey(SetKey(body, key, value), other) == GetPast(Lines(body), other, key)
    ensures GetKey(SetKey(body, key, value), other) == GetKey(body, other) <==> !Unblocked(Lines(body), other, key)
    ensures (forall i | 0 <= i < |Lines(body)| :: Name(Lines(body)[i]) == key ==> Keyed(Lines(body)[i])) ==>
      GetKey(SetKey(body, key, value), other) == GetKey(body, other)
  {
    SetHasNoBreaks(body, key, value);
    EntryReads(key, value);
    RereadInvisible(SetIn(Lines(body), key, Entry(key, value), false), other);
    OthersIn(Lines(body), key, Entry(key, value), false, other);
    PastMattersIff(Lines(body), other, key);
    if forall i | 0 <= i < |Lines(body)| :: Name(Lines(body)[i]) == key ==> Keyed(Lines(body)[i]) {
      NothingToPass(Lines(body), other, key);
    }
  }

  /** The file can be edited without loss: no line for another key ends in a carriage return, unless it comes last
      in the result too; and if the key is there already, the last line is not empty. */
  predicate Tidy(lines: seq<string>, key: string) {
    && (forall i | 0 <= i < |lines| && Name(lines[i]) != key && (i < |lines| - 1 || !Seen(lines, key)) ::
          WithoutCr(lines[i]) == lines[i])
    && (Seen(lines, key) ==> lines[|lines| - 1] != "")
  }

  lemma StableIff(lines: seq<string>, key: string, entry: string)
    requires key != [] && entry != [] && WithoutCr(entry) == entry
    ensures Stable(SetIn(lines, key, entry, false)) <==> Tidy(lines, key)
  {
    var out := SetIn(lines, key, entry, false);
    SetInShape(lines, key, entry, false);
    NameOfEmpty();
    if Stable(out) {
      forall i | 0 <= i < |lines| && Name(lines[i]) != key && (i < |lines| - 1 || !Seen(lines, key))
        ensures WithoutCr(lines[i]) == lines[i]
      {
        assert out[i] == lines[i] && i < |out| - 1;
      }
    }
    if Tidy(lines, key) {
      forall i | 0 <= i < |out| - 1 ensures WithoutCr(out[i]) == out[i] {
        assert i < |lines|;
      }
    }
  }

  /** The text after setting has line for line what was there, with only the key's lines changed, exactly when
      the file is tidy. */
  lemma LinesAfterSetIff(body: string, key: string, value: string)
    requires Plain(key) && OneLine(value)
    ensures Lines(SetKey(body, key, value)) == SetIn(Lines(body), key, Entry(key, value), false)
      <==> Tidy(Lines(body), key)
  {
    SetHasNoBreaks(body, key, value);
    JoinReadsBackIff(SetIn(Lines(body), key, Entry(key, value), false));
    EntryReads(key, value);
    StableIff(Lines(body), key, Entry(key, value));
  }

  /** Setting a key twice is setting it once, to the last value, exactly when the file is tidy. With equal values
      this is idempotence. */
  lemma LastSetWinsIff(body: string, key: string, value: string, again: string)
    requires Plain(key) && OneLine(value) && OneLine(again)
    ensures SetKey(SetKey(body, key, value), key, again) == SetKey(body, key, again)
      <==> Tidy(Lines(body), key)
  {
    var lines := Lines(body);
    var a, b := Entry(key, value), Entry(key, again);
    EntryReads(key, value);
    EntryReads(key, again);
    SetTwice(body, key, value, again, lines, a, b);
    TwiceIn(lines, key, a, b);
    StableIff(lines, key, b);
  }

  lemma SetTwice(
    body: string, key: string, value: string, again: string, lines: seq<string>, a: string, b: string)
    requires Plain(key) && OneLine(value) && OneLine(again)
    requires lines == Lines(body) && a == Entry(key, value) && b == Entry(key, again)
    ensures SetKey(SetKey(body, key, value), key, again) == Join(SetIn(Reread(SetIn(lines, key, a, false)), key, b, false))
    ensures SetKey(body, key, again) == Join(SetIn(lines, key, b, false))
    ensures NoBreaks(SetIn(Reread(SetIn(lines, key, a, false)), key, b, false)) && NoBreaks(SetIn(lines, key, b, false))
  {
    SetHasNoBreaks(body, key, value);
    SetHasNoBreaks(body, key, again);
    SetHasNoBreaks(SetKey(body, key, value), key, again);
  }

  lemma TwiceIn(lines: seq<string>, key: string, a: string, b: string)
    requires key != [] && Name(a) == key && b != [] && WithoutCr(b) == b
    requires NoBreaks(SetIn(lines, key, b, false)) && NoBreaks(SetIn(Reread(SetIn(lines, key, a, false)), key, b, false))
    ensures Join(SetIn(Reread(SetIn(lines, key, a, false)), key, b, false)) == Join(SetIn(lines, key, b, false))
      <==> Stable(SetIn(lines, key, b, false))
  {
    var once, last := SetIn(lines, key, a, false), SetIn(lines, key, b, false);
    SeenAfter(lines, key, a);
    SetReread(once, key, b, false);
    LastSetWinsIn(lines, key, a, b, false);
    RereadIff(last);
    SetNotEmpty(lines, key, b);
    SetNotEmpty(Reread(once), key, b);
    if Join(Reread(last)) == Join(last) { JoinInjective(Reread(last), last); }
  }

  lemma SeenAfter(lines: seq<string>, key: string, entry: string)
    requires Name(entry) == key
    ensures Seen(SetIn(lines, key, entry, false), key)
  {
    SetInShape(lines, key, entry, false);
    var out := SetIn(lines, key, entry, false);
    if Seen(lines, key) {
      var i :| 0 <= i < |lines| && Name(lines[i]) == key;
      assert out[i] == entry;
    } else {
      assert out[|lines|] == entry;
    }
  }

  lemma SetNotEmpty(lines: seq<string>, key: string, entry: string)
    ensures SetIn(lines, key, entry, false) != []
  {
  }

  // ---- Ordinary files, and one that is not ----

  predicate NoCr(s: string) { forall i | 0 <= i < |s| :: s[i] != '\r' }

  lemma {:induction false} LinesWithoutCr(body: string)
    requires NoCr(body)
    ensures forall i | 0 <= i < |Lines(body)| :: NoCr(Lines(body)[i])
  {
    if body != [] {
      var n := UntilBreak(body);
      if n < |body| {
        LinesWithoutCr(body[n + 1..]);
        assert NoCr(WithoutCr(body[..n]));
      }
    }
  }

  lemma OrdinaryIsTidy(body: string, key: string)
    requires NoCr(body) && forall i | 0 <= i < |Lines(body)| :: Keyed(Lines(body)[i])
    ensures Tidy(Lines(body), key)
  {
    var lines := Lines(body);
    LinesWithoutCr(body);
    NameOfEmpty();
    forall i | 0 <= i < |lines| ensures WithoutCr(lines[i]) == lines[i] { assert NoCr(lines[i]); }
  }

  lemma {:induction false} AllReachable(lines: seq<string>, key: string, other: Option<string>)
    requires forall i | 0 <= i < |lines| :: Keyed(lines[i])
    ensures Reachable(lines, key, other)
  {
    if lines != [] {
      forall i | 0 <= i < |lines[1..]| ensures Keyed(lines[1..][i]) { assert lines[1..][i] == lines[i + 1]; }
      AllReachable(lines[1..], key, other);
    }
  }

  /** On every file in which every line has a `=` and there is no carriage return: the value set is read back, no
      other key changes, the lines keep their places, and the last set wins, so setting twice is setting once. */
  lemma OrdinaryFile(body: string, key: string, value: string, again: string, other: string)
    requires NoCr(body) && forall i | 0 <= i < |Lines(body)| :: Keyed(Lines(body)[i])
    requires Plain(key) && OneLine(value) && OneLine(again) && other != key
    ensures GetKey(SetKey(body, key, value), key) == Some(Unquote(Trim(value)))
    ensures GetKey(SetKey(body, key, value), other) == GetKey(body, other)
    ensures Lines(SetKey(body, key, value)) == SetIn(Lines(body), key, Entry(key, value), false)
    ensures SetKey(SetKey(body, key, value), key, again) == SetKey(body, key, again)
  {
    OrdinaryIsTidy(body, key);
    AllReachable(Lines(body), key, None);
    GetAfterSet(body, key, value);
    OthersUntouched(body, key, value, other);
    LinesAfterSetIff(body, key, value);
    LastSetWinsIff(body, key, value, again);
  }

  const STRAY: string := "a=1\r\r\n"

  lemma StrayLines()
    ensures Lines(STRAY) == ["a=1\r"] && Keyed("a=1\r") && Name("a=1\r") == "a"
  {
    var line, a := "a=1\r", "a";
    assert STRAY == "a=1\r\r" + "\n" + "";
    UntilBreakAt("a=1\r\r", "");
    assert STRAY[..5] == "a=1\r\r" && STRAY[6..] == "" && WithoutCr("a=1\r\r") == line;
    assert line[1] == '=' && line[0] != '=';
    assert At(line, '=') == 1 && line[..1] == a;
  }

  /** A `=` on every line is not enough: here is a file that loses a carriage return each time it is written, so
      that setting a key twice is not setting it once, and its one line is not kept. */
  lemma StrayCarriageReturn(key: string, value: string, again: string)
    requires Plain(key) && key != "a" && OneLine(value) && OneLine(again)
    ensures forall i | 0 <= i < |Lines(STRAY)| :: Keyed(Lines(STRAY)[i])
    ensures SetKey(SetKey(STRAY, key, value), key, again) != SetKey(STRAY, key, again)
    ensures Lines(SetKey(STRAY, key, value)) != SetIn(Lines(STRAY), key, Entry(key, value), false)
  {
    StrayLines();
    var lines := Lines(STRAY);
    assert Name(lines[0]) != key && WithoutCr(lines[0]) != lines[0];
    assert !Tidy(lines, key);
    LastSetWinsIff(STRAY, key, value, again);
    LinesAfterSetIff(STRAY, key, value);
  }

  // ---- The loops ----

  method GetKeyLoop(body: string, key: string) returns (value: Option<string>)
    ensures value == GetKey(body, key)
  {
    var lines := Lines(body);
    for i := 0 to |lines|
      invariant GetIn(lines, key) == GetIn(lines[i..], key)
    {
      assert lines[i..][1..] == lines[i + 1..];
      if !Keyed(lines[i]) { return None; }
      if Name(lines[i]) == key { return Some(Value(lines[i])); }
    }
    value := None;
  }

  lemma SetInStep(lines: seq<string>, i: nat, key: string, entry: string, seen: bool)
    requires i < |lines|
    ensures SetIn(lines[i..], key, entry, seen) ==
      if Name(lines[i]) == key then [entry] + SetIn(lines[i + 1..], key, entry, true)
      else [lines[i]] + SetIn(lines[i + 1..], key, entry, seen)
  {
    assert lines[i..][1..] == lines[i + 1..];
  }

  lemma Regroup(out: seq<string>, line: string, rest: seq<string>)
    ensures out + ([line] + rest) == (out + [line]) + rest
  {
  }

  method SetLoop(lines: seq<string>, key: string, entry: string) returns (out: seq<string>)
    ensures out == SetIn(lines, key, entry, false)
  {
    var seen := false;
    out := [];
    ghost var whole, rest := SetIn(lines, key, entry, false), SetIn(lines[0..], key, entry, false);
    assert lines[0..] == lines;
    for i := 0 to |lines|
      invariant rest == SetIn(lines[i..], key, entry, seen) && whole == out + rest
    {
      SetInStep(lines, i, key, entry, seen);
      var line := if Name(lines[i]) == key then entry else lines[i];
      seen := seen || Name(lines[i]) == key;
      rest := SetIn(lines[i + 1..], key, entry, seen);
      Regroup(out, line, rest);
      out := out + [line];
    }
    if !seen { out := out + [entry]; }
  }

  method SetKeyLoop(body: string, key: string, value: string) returns (text: string)
    ensures text == SetKey(body, key, value)
  {
    var out := SetLoop(Lines(body), key, Entry(key, value));
    text := Join(out);
  }
}
