/** Decimal numerals: what `str` and `to_string` write, and what `int` and `parse` read back. */
module Decimal {
  import opened Wrappers

  predicate IsDigit(c: char) { '0' <= c <= '9' }

  predicate Digits(s: string) { forall i | 0 <= i < |s| :: IsDigit(s[i]) }

  function Numeral(n: nat): string {
    if n < 10 then [(48 + n) as char] else Numeral(n / 10) + [(48 + n % 10) as char]
  }

  function Number(s: string): nat
    requires Digits(s)
  {
    if s == [] then 0 else Number(s[..|s| - 1]) * 10 + (s[|s| - 1] as nat - 48)
  }

  lemma {:induction false} NumeralReadsBack(n: nat)
    ensures Digits(Numeral(n)) && Numeral(n) != [] && Number(Numeral(n)) == n
  {
    var c := (48 + n % 10) as char;
    if n < 10 {
      assert [c][..0] == [];
    } else {
      NumeralReadsBack(n / 10);
      assert (Numeral(n / 10) + [c])[..|Numeral(n)| - 1] == Numeral(n / 10);
    }
  }

  const DIGITS: string := "0123456789"

  /** The digits of a number, the most significant first. */
  lemma NumeralDigits(n: nat, d: nat)
    requires d < 10
    ensures Numeral(d) == [DIGITS[d]] && (n > 0 ==> Numeral(10 * n + d) == Numeral(n) + [DIGITS[d]])
  {
    assert forall k | 0 <= k < 10 :: DIGITS[k] as int == 48 + k;
    assert (10 * n + d) / 10 == n && (10 * n + d) % 10 == d;
  }

  /** A signed number, as `str` writes it. */
  function Text(i: int): string { if i < 0 then "-" + Numeral(-i) else Numeral(i) }

  /** Nothing but digits, and a minus sign in front of a negative number. */
  lemma TextIs(i: int)
    ensures i >= 0 ==> Digits(Text(i)) && Text(i) != []
    ensures i < 0 ==> Text(i)[0] == '-' && Digits(Text(i)[1..])
  {
    NumeralReadsBack(if i < 0 then -i else i);
  }

  /** Digits with an optional sign. An empty text, or a sign alone, is no number. */
  function Parse(s: string): Option<int> {
    if s != [] && s[0] == '-' then
      if s[1..] != [] && Digits(s[1..]) then Some(-(Number(s[1..]) as int)) else None
    else
      var t := if s != [] && s[0] == '+' then s[1..] else s;
      if t != [] && Digits(t) then Some(Number(t)) else None
  }

  lemma ParseDigits(t: string)
    requires t != [] && Digits(t)
    ensures Parse(t) == Some(Number(t)) && Parse("-" + t) == Some(-(Number(t) as int))
  {
    assert IsDigit(t[0]);
    assert ("-" + t)[1..] == t;
  }

  lemma ParseText(i: int)
    ensures Parse(Text(i)) == Some(i) && Text(i) != []
  {
    var n: nat := if i < 0 then -i else i;
    NumeralReadsBack(n);
    ParseDigits(Numeral(n));
  }

  /** A numeral with a sign or without is a number; what is read is exactly that. */
  lemma ParseIff(s: string, t: string)
    ensures Digits(t) && t != [] ==>
      Parse(t) == Some(Number(t)) && Parse("+" + t) == Some(Number(t)) && Parse("-" + t) == Some(-(Number(t) as int))
    ensures Parse(s).Some? ==>
      || (s != [] && Digits(s))
      || (|s| > 1 && (s[0] == '+' || s[0] == '-') && Digits(s[1..]))
  {
    if Digits(t) && t != [] {
      ParseDigits(t);
      assert ("+" + t)[1..] == t;
    }
  }

  /** Rust's `parse` for an integer type: out of range is an error, and a minus sign is one for unsigned types. */
  function ParseIn(s: string, low: int, high: int): Option<int>
    requires low <= 0 <= high
  {
    if low == 0 && s != [] && s[0] == '-' then None
    else
      var v := Parse(s);
      if v.Some? && low <= v.value <= high then v else None
  }

  /** A number is read exactly if it fits and, for an unsigned type, has no minus sign. */
  lemma ParseInIff(s: string, low: int, high: int, v: int)
    requires low <= 0 <= high
    ensures ParseIn(s, low, high) == Some(v) <==> Parse(s) == Some(v) && low <= v <= high && (low == 0 ==> s[0] != '-')
  {
  }
}
