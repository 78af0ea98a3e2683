/** Percent-encoding and the redirect query of `src-tauri/src/auth.rs`, on bytes. Section 2.1 of RFC 3986
    gives the escapes; sections 4.1.1 and 4.1.2 of RFC 6749 and section 4.3 of RFC 7636 the parameters. */
module Percent {
  import opened Bytes
  import opened Wrappers

  // ---- Escapes ----

  /** The bytes that stand for themselves: letters, digits, `-`, `_`, `.` and `~`. */
  predicate Unreserved(b: byte) {
    65 <= b <= 90 || 97 <= b <= 122 || 48 <= b <= 57 || b == 45 || b == 95 || b == 46 || b == 126
  }

  function HexDigit(v: int): byte
    requires 0 <= v < 16
  {
    if v < 10 then 48 + v else 55 + v
  }

  /** `char::to_digit(16)`: either case. */
  function HexValue(b: byte): (v: Option<int>)
    ensures v.Some? ==> 0 <= v.value < 16
  {
    if 48 <= b <= 57 then Some(b - 48)
    else if 65 <= b <= 70 then Some(b - 55)
    else if 97 <= b <= 102 then Some(b - 87)
    else None
  }

  /** `u8::from_str_radix(_, 16)` on two characters; a leading `+` is a sign, a leading `-` is refused. */
  function FromHex(a: byte, b: byte): (v: Option<byte>) {
    var low := HexValue(b);
    if a == PLUS then (if low.Some? then Some(low.value) else None)
    else
      var high := HexValue(a);
      if high.Some? && low.Some? then Some(16 * high.value + low.value) else None
  }

  function Escape(b: byte): (e: seq<byte>)
    ensures 1 <= |e| <= 3
  {
    if Unreserved(b) then [b] else [PERCENT, HexDigit(b / 16), HexDigit(b % 16)]
  }

  function Escaped(s: seq<byte>): seq<byte> {
    if s == [] then [] else Escaped(s[..|s| - 1]) + Escape(s[|s| - 1])
  }

  /** Escapes read from the left: `%` and two characters that parse as hex become one byte, anything else stays. */
  function Unescaped(s: seq<byte>): seq<byte> {
    if s == [] then []
    else if s[0] == PERCENT && |s| > 2 && FromHex(s[1], s[2]).Some? then
      [FromHex(s[1], s[2]).value] + Unescaped(s[3..])
    else [s[0]] + Unescaped(s[1..])
  }

  /** `percent`. */
  method Percent(s: seq<byte>) returns (out: seq<byte>)
    ensures out == Escaped(s)
  {
    out := [];
    for i := 0 to |s|
      invariant out == Escaped(s[..i])
    {
      var b := s[i];
      assert s[..i + 1][..i] == s[..i];
      if Unreserved(b) {
        out := out + [b];
      } else {
        out := out + [PERCENT, HexDigit(b / 16), HexDigit(b % 16)];
      }
    }
    assert s[..|s|] == s;
  }

  /** A byte inside a character of more than one byte. */
  predicate Continuation(b: byte) { 128 <= b < 192 }

  /** The scan comes to a `%` where the text cannot be cut: right after it, or right after the two bytes that
      follow it, there is the inside of a character. */
  predicate Cuts(s: seq<byte>) {
    s != [] &&
    if s[0] == PERCENT && |s| > 2 then
      || Continuation(s[1])
      || (|s| > 3 && Continuation(s[3]))
      || Cuts(if FromHex(s[1], s[2]).Some? then s[3..] else s[1..])
    else Cuts(s[1..])
  }

  /** `percent_decode`, on the bytes of any text. The original slices its text by byte index and panics, here
      `None`, exactly where a slice would cut a character. */
  method PercentDecode(s: seq<byte>) returns (r: Option<seq<byte>>)
    ensures r == if Cuts(s) then None else Some(Unescaped(s))
  {
    var out: seq<byte> := [];
    var i := 0;
    ghost var whole, rest := Unescaped(s), Unescaped(s[0..]);
    assert s[0..] == s;
    while i < |s|
      invariant 0 <= i <= |s| && Cuts(s) == Cuts(s[i..])
      invariant rest == Unescaped(s[i..]) && out + rest == whole
    {
      UnescapedStep(s, i);
      CutsStep(s, i);
      if s[i] == PERCENT && i + 2 < |s| {
        if Continuation(s[i + 1]) || (i + 3 < |s| && Continuation(s[i + 3])) { return None; }
        var v := FromHex(s[i + 1], s[i + 2]);
        if v.Some? {
          rest := Unescaped(s[i + 3..]);
          Regroup(out, v.value, rest);
          out := out + [v.value];
          i := i + 3;
          continue;
        }
      }
      rest := Unescaped(s[i + 1..]);
      Regroup(out, s[i], rest);
      out := out + [s[i]];
      i := i + 1;
    }
    assert s[i..] == [] && out + rest == out;
    r := Some(out);
  }

  lemma CutsStep(s: seq<byte>, i: nat)
    requires i < |s|
    ensures Cuts(s[i..]) <==>
      if s[i] == PERCENT && i + 2 < |s| then
        || Continuation(s[i + 1])
        || (i + 3 < |s| && Continuation(s[i + 3]))
        || (if FromHex(s[i + 1], s[i + 2]).Some? then Cuts(s[i + 3..]) else Cuts(s[i + 1..]))
      else Cuts(s[i + 1..])
  {
    assert s[i..][1..] == s[i + 1..];
    if i + 2 < |s| { assert s[i..][3..] == s[i + 3..]; }
  }

  /** A text that is: `%A` and then a letter of two bytes. */
  const CUT: seq<byte> := [PERCENT, 65, 195, 169]

  lemma CutExample()
    ensures Cuts(CUT)
  {
    assert CUT[3] == 169;
  }

  /** ASCII text is never cut. */
  lemma {:induction false} AsciiNeverCut(s: seq<byte>)
    requires IsAscii(s)
    ensures !Cuts(s)
    decreases |s|
  {
    if s != [] {
      AsciiNeverCut(s[1..]);
      if |s| > 2 { AsciiNeverCut(s[3..]); }
    }
  }

  /** The inside of a character: a byte whose two top bits are 1 and 0, as section 3 of RFC 3629 has it. */
  predicate Inside(b: byte) { b / 64 == 2 }

  /** Up to the first `%` nothing is cut; there it is cut if the inside of a character comes next, or after the two
      bytes that follow; otherwise what comes after the escape decides, or after the `%` if it is none. */
  lemma {:induction false} CutsAtPercent(plain: seq<byte>, rest: seq<byte>)
    requires '%' as int !in plain
    ensures !Cuts(plain)
    ensures |rest| < 2 ==> (Cuts(plain + [PERCENT] + rest) <==> Cuts(rest))
    ensures |rest| >= 2 && (Inside(rest[0]) || (|rest| > 2 && Inside(rest[2]))) ==> Cuts(plain + [PERCENT] + rest)
    ensures |rest| >= 2 && !Inside(rest[0]) && (|rest| > 2 ==> !Inside(rest[2])) ==>
      (Cuts(plain + [PERCENT] + rest) <==> Cuts(if FromHex(rest[0], rest[1]).Some? then rest[2..] else rest))
  {
    var s := plain + [PERCENT] + rest;
    if plain == [] {
      assert s == [PERCENT] + rest && s[1..] == rest;
      if |rest| >= 2 { assert s[3..] == rest[2..]; }
    } else {
      assert s[1..] == plain[1..] + [PERCENT] + rest;
      CutsAtPercent(plain[1..], rest);
    }
  }

  lemma UnescapedStep(s: seq<byte>, i: nat)
    requires i < |s|
    ensures Unescaped(s[i..]) ==
      if s[i] == PERCENT && i + 2 < |s| && FromHex(s[i + 1], s[i + 2]).Some?
      then [FromHex(s[i + 1], s[i + 2]).value] + Unescaped(s[i + 3..])
      else [s[i]] + Unescaped(s[i + 1..])
  {
    assert s[i..][1..] == s[i + 1..];
    if i + 2 < |s| { assert s[i..][3..] == s[i + 3..]; }
  }

  lemma EscapeBack(b: byte, rest: seq<byte>)
    ensures Unescaped(Escape(b) + rest) == [b] + Unescaped(rest)
  {
    var text := Escape(b) + rest;
    if Unreserved(b) {
      assert text[1..] == rest;
    } else {
      assert text[3..] == rest;
    }
  }

  /** Decoding inverts encoding, for every byte sequence and whatever follows it. */
  lemma {:induction false} UnescapeInverts(s: seq<byte>, rest: seq<byte>)
    ensures Unescaped(Escaped(s) + rest) == s + Unescaped(rest)
  {
    if s == [] {
      assert Escaped(s) + rest == rest;
    } else {
      var m := |s| - 1;
      var front, b := s[..m], s[m];
      UnescapeInverts(front, Escape(b) + rest);
      Associate(Escaped(front), Escape(b), rest);
      EscapeBack(b, rest);
      Regroup(front, b, Unescaped(rest));
      assert front + [b] == s;
    }
  }

  /** Nothing but unreserved bytes and `%` comes out: no separator, no `+`, nothing outside ASCII. */
  lemma {:induction false} EscapedIsPlain(s: seq<byte>)
    ensures forall b | b in Escaped(s) :: Unreserved(b) || b == PERCENT
  {
    if s != [] { EscapedIsPlain(s[..|s| - 1]); }
  }

  // ---- Letter by letter ----

  const UPPER_HEX: string := "0123456789ABCDEF"
  const LOWER_HEX: string := "0123456789abcdef"

  predicate IsDigitValued(b: byte, v: nat) { v < 16 && (b == UPPER_HEX[v] as int || b == LOWER_HEX[v] as int) }

  lemma HexLetters(v: nat)
    requires v < 16
    ensures UPPER_HEX[v] as int == (if v < 10 then 48 + v else 55 + v)
    ensures LOWER_HEX[v] as int == (if v < 10 then 48 + v else 87 + v)
  {
  }

  /** Both cases of a digit are read, and nothing else is. */
  lemma HexValueIff(b: byte, v: nat)
    ensures HexValue(b) == Some(v) <==> IsDigitValued(b, v)
  {
    if v < 16 { HexLetters(v); }
  }

  /** What stands for itself. */
  lemma UnreservedIff(b: byte)
    ensures Unreserved(b) <==>
      || 'A' as int <= b <= 'Z' as int || 'a' as int <= b <= 'z' as int || '0' as int <= b <= '9' as int
      || b in Ascii("-_.~")
  {
    var marks := Ascii("-_.~");
    assert marks == [45, 95, 46, 126];
  }

  /** Everything else becomes `%` and its two digits, in upper case. */
  lemma EscapeIs(b: byte)
    ensures Escape(b) == if Unreserved(b) then [b] else ['%' as int, UPPER_HEX[b / 16] as int, UPPER_HEX[b % 16] as int]
  {
    HexLetters(b / 16);
    HexLetters(b % 16);
  }

  /** Two digits make a byte, and so do a plus sign and a digit. */
  lemma FromHexReads(a: byte, b: byte, high: nat, low: nat)
    requires IsDigitValued(b, low)
    ensures IsDigitValued(a, high) ==> FromHex(a, b) == Some(16 * high + low)
    ensures a == '+' as int ==> FromHex(a, b) == Some(low)
  {
    HexValueIff(a, high);
    HexValueIff(b, low);
    if IsDigitValued(a, high) { HexLetters(high); }
  }

  ghost predicate IsHexDigit(b: byte) { exists v: nat :: IsDigitValued(b, v) }

  /** And nothing else does. */
  lemma FromHexRefuses(a: byte, b: byte)
    requires FromHex(a, b).Some?
    ensures IsHexDigit(b) && (a == '+' as int || IsHexDigit(a))
  {
    HexValueIff(b, HexValue(b).value);
    if a != PLUS { HexValueIff(a, HexValue(a).value); }
  }

  /** `%` and two digits, in either case, stand for one byte, and so do `%`, a plus sign and a digit. */
  lemma EscapeRead(s: seq<byte>, high: nat, low: nat)
    requires |s| > 2 && s[0] == '%' as int && IsDigitValued(s[2], low)
    ensures IsDigitValued(s[1], high) ==> Unescaped(s) == [16 * high + low] + Unescaped(s[3..])
    ensures s[1] == '+' as int ==> Unescaped(s) == [low] + Unescaped(s[3..])
  {
    FromHexReads(s[1], s[2], high, low);
  }

  /** Any other byte, and a `%` with less than two characters behind it, or others than these, stands for itself. */
  lemma OtherwiseStays(s: seq<byte>)
    requires s != []
    requires s[0] == '%' as int && |s| > 2 ==> !IsHexDigit(s[2]) || (s[1] != '+' as int && !IsHexDigit(s[1]))
    ensures Unescaped(s) == [s[0]] + Unescaped(s[1..])
  {
    if s[0] == PERCENT && |s| > 2 && FromHex(s[1], s[2]).Some? { FromHexRefuses(s[1], s[2]); }
  }

  // ---- Splitting ----

  /** Where `sep` first stands. */
  function Find(s: seq<byte>, sep: byte): (i: Option<nat>)
    ensures i.Some? ==> i.value < |s| && s[i.value] == sep && sep !in s[..i.value]
    ensures i.None? ==> sep !in s
  {
    if s == [] then None
    else if s[0] == sep then Some(0)
    else match Find(s[1..], sep) case None => None case Some(i) => Some(i + 1)
  }

  /** `split_once`: the text before and after the first `sep`. */
  function SplitOnce(s: seq<byte>, sep: byte): Option<(seq<byte>, seq<byte>)> {
    match Find(s, sep)
    case None => None
    case Some(i) => Some((s[..i], s[i + 1..]))
  }

  /** `split`: the pieces between one `sep` and the next; always at least one. */
  function Split(s: seq<byte>, sep: byte): (ps: seq<seq<byte>>)
    ensures |ps| >= 1
  {
    match Find(s, sep)
    case None => [s]
    case Some(i) => [s[..i]] + Split(s[i + 1..], sep)
  }

  lemma {:induction false} FoundAt(x: seq<byte>, sep: byte, rest: seq<byte>)
    requires sep !in x
    ensures Find(x + [sep] + rest, sep) == Some(|x|)
    ensures SplitOnce(x + [sep] + rest, sep) == Some((x, rest))
    ensures Split(x + [sep] + rest, sep) == [x] + Split(rest, sep)
  {
    var s := x + [sep] + rest;
    if x != [] {
      assert s[1..] == x[1..] + [sep] + rest;
      FoundAt(x[1..], sep, rest);
    }
    assert s[..|x|] == x && s[|x| + 1..] == rest;
  }
}
