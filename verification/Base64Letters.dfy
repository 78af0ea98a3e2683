/** What the two base64 codecs spell, letter by letter and bit by bit, in the alphabets of sections 4 and 5 of
    RFC 4648. */
module Base64Letters {
  import opened Base64
  import opened Bytes
  import opened Powers
  import opened Wrappers

  const UPPER: string := "ABCDEFGHIJKLMNOPQRSTUVWXYZ"
  const LOWER: string := "abcdefghijklmnopqrstuvwxyz"
  const DIGITS: string := "0123456789"

  function StandardAlphabet(): string { UPPER + LOWER + DIGITS + "+/" }

  function UrlAlphabet(): string { UPPER + LOWER + DIGITS + "-_" }

  predicate RunsFrom(s: string, first: int) { forall i | 0 <= i < |s| :: s[i] as int == first + i }

  lemma UpperRuns()
    ensures |UPPER| == 26 && RunsFrom(UPPER, 65)
  {
  }

  lemma LowerRuns()
    ensures |LOWER| == 26 && RunsFrom(LOWER, 97)
  {
  }

  lemma DigitsRun()
    ensures |DIGITS| == 10 && RunsFrom(DIGITS, 48)
  {
  }

  lemma InTable(
    v: sextet, upper: string, lower: string, digits: string, last: string, v62: byte, v63: byte, table: string)
    requires table == upper + lower + digits + last
    requires |upper| == 26 && RunsFrom(upper, 65) && |lower| == 26 && RunsFrom(lower, 97)
    requires |digits| == 10 && RunsFrom(digits, 48)
    requires |last| == 2 && last[0] as int == v62 && last[1] as int == v63
    ensures |table| == 64 && Ascii(table)[v] == Letter(v, v62, v63)
  {
    if v < 26 {
      assert table[v] == upper[v];
    } else if v < 52 {
      assert table[v] == lower[v - 26];
    } else if v < 62 {
      assert table[v] == digits[v - 52];
    } else {
      assert table[v] == last[v - 62];
    }
  }

  /** The tables are the alphabets, letter for letter. */
  lemma Alphabets(v: sextet)
    ensures |StandardAlphabet()| == 64 && Standard(v) == Ascii(StandardAlphabet())[v]
    ensures |UrlAlphabet()| == 64 && UrlSafe(v) == Ascii(UrlAlphabet())[v]
  {
    UpperRuns();
    LowerRuns();
    DigitsRun();
    InTable(v, UPPER, LOWER, DIGITS, "+/", PLUS, SLASH, StandardAlphabet());
    InTable(v, UPPER, LOWER, DIGITS, "-_", MINUS, UNDERSCORE, UrlAlphabet());
  }

  // ---- Bits of bytes ----

  function Bit(b: bool): nat { if b then 1 else 0 }

  /** The bit of weight 2^k: the lowest when `v` has been halved k times. */
  function BitOf(v: nat, k: nat): nat { if k == 0 then v % 2 else BitOf(v / 2, k - 1) }

  /** The k-th bit of a text of bytes, each byte's most significant bit first; zeros from its end on. */
  function BitAt(bytes: seq<byte>, k: nat): nat {
    if k < 8 * |bytes| then BitOf(bytes[k / 8], 7 - k % 8) else 0
  }

  /** The number that `n` bits from the k-th on spell. */
  function NumberFrom(bytes: seq<byte>, k: nat, n: nat): nat {
    if n == 0 then 0 else 2 * NumberFrom(bytes, k, n - 1) + BitAt(bytes, k + n - 1)
  }

  lemma {:induction false} BitsAt(v: nat, n: nat, j: nat)
    requires j < n
    ensures Bit(Bits(v, n)[j]) == BitOf(v, n - 1 - j)
  {
    if j < n - 1 { BitsAt(v / 2, n - 1, j); }
  }

  lemma {:induction false} ByteBitsAt(bytes: seq<byte>, k: nat)
    requires k < 8 * |bytes|
    ensures Bit(ByteBits(bytes)[k]) == BitAt(bytes, k)
  {
    var m := |bytes| - 1;
    if k < 8 * m {
      ByteBitsAt(bytes[..m], k);
    } else {
      BitsAt(bytes[m], 8, k - 8 * m);
      assert k / 8 == m && k % 8 == k - 8 * m;
    }
  }

  lemma {:induction false} SextetBitsAt(vs: seq<sextet>, k: nat)
    requires k < 6 * |vs|
    ensures Bit(SextetBits(vs)[k]) == BitOf(vs[k / 6], 5 - k % 6)
  {
    var m := |vs| - 1;
    if k < 6 * m {
      SextetBitsAt(vs[..m], k);
    } else {
      BitsAt(vs[m], 6, k - 6 * m);
      assert k / 6 == m && k % 6 == k - 6 * m;
    }
  }

  // ---- Encoding ----

  lemma {:induction false} OneBitLess(v: nat, m: nat)
    ensures Shr(v, m) == 2 * Shr(v, m + 1) + BitOf(v, m)
  {
    if m > 0 { OneBitLess(v / 2, m - 1); }
  }

  lemma {:induction false} NothingLeft(v: nat, m: nat)
    requires v < Pow2(m)
    ensures Shr(v, m) == 0
  {
    if m > 0 { NothingLeft(v / 2, m - 1); }
  }

  lemma PaddedBit(bytes: seq<byte>, bits: seq<bool>, p: nat, k: nat)
    requires bits == ByteBits(bytes) + Zeros(p) && k < |bits|
    ensures Bit(bits[k]) == BitAt(bytes, k)
  {
    if k < 8 * |bytes| { ByteBitsAt(bytes, k); }
  }

  lemma SextetBit(bytes: seq<byte>, vs: seq<sextet>, bits: seq<bool>, p: nat, i: nat, v: nat, start: nat, j: nat)
    requires bits == ByteBits(bytes) + Zeros(p) && bits == SextetBits(vs)
    requires i < |vs| && v == vs[i] && start == 6 * i && j < 6
    ensures BitOf(v, 5 - j) == BitAt(bytes, start + j)
  {
    var k := start + j;
    assert k / 6 == i && k % 6 == j;
    SextetBitsAt(vs, k);
    PaddedBit(bytes, bits, p, k);
  }

  /** The first `n` bits of a sextet. */
  lemma {:induction false} SextetStarts(
    bytes: seq<byte>, vs: seq<sextet>, bits: seq<bool>, p: nat, i: nat, v: nat, start: nat, n: nat)
    requires bits == ByteBits(bytes) + Zeros(p) && bits == SextetBits(vs)
    requires i < |vs| && v == vs[i] && start == 6 * i && n <= 6
    ensures Shr(v, 6 - n) == NumberFrom(bytes, start, n)
  {
    if n == 0 {
      assert Pow2(6) == 64;
      NothingLeft(v, 6);
    } else {
      SextetStarts(bytes, vs, bits, p, i, v, start, n - 1);
      SextetBit(bytes, vs, bits, p, i, v, start, n - 1);
      OneBitLess(v, 6 - n);
    }
  }

  /** What `b64url` writes: one letter for every six bits begun, and the i-th is the one the URL-safe alphabet has for
      the number that bits 6i to 6i + 5 spell, zeros after the last byte. */
  lemma EncodedSpells(bytes: seq<byte>, i: nat)
    requires i < |Encoded(bytes)|
    ensures |Encoded(bytes)| == (8 * |bytes| + 5) / 6
    ensures var v := NumberFrom(bytes, 6 * i, 6); v < 64 && Encoded(bytes)[i] == Ascii(UrlAlphabet())[v]
  {
    var vs := ToSextets(ByteBits(bytes));
    var p := SextetBitsOf(ByteBits(bytes));
    SextetStarts(bytes, vs, ByteBits(bytes) + Zeros(p), p, i, vs[i], 6 * i, 6);
    Alphabets(vs[i]);
  }

  // ---- Decoding ----

  /** `n` is where the first `=` stands, or the length. */
  predicate UpToEquals(s: seq<byte>, n: nat) {
    n <= |s| && (n < |s| ==> s[n] == '=' as int) && forall i | 0 <= i < n :: s[i] != '=' as int
  }

  lemma {:induction false} StemIs(s: seq<byte>, n: nat)
    requires UpToEquals(s, n)
    ensures Stem(s) == s[..n]
  {
    if n > 0 {
      StemIs(s[1..], n - 1);
      assert s[..n] == [s[0]] + s[1..][..n - 1];
    }
  }

  lemma FoundAtIndex(c: byte, v: nat)
    requires v < 64 && |StandardAlphabet()| == 64 && Ascii(StandardAlphabet())[v] == c
    ensures Position(c) == Some(v)
  {
    Alphabets(v);
    PositionOfLetter(v);
  }

  lemma PositionIsIndex(c: byte)
    ensures Position(c).Some? <==> c in Ascii(StandardAlphabet())
  {
    var table := Ascii(StandardAlphabet());
    Alphabets(0);
    PositionFinds(c, 0);
    if Position(c).Some? {
      Alphabets(Position(c).value);
      assert table[Position(c).value] == c;
    }
    if c in table {
      var i :| 0 <= i < |table| && table[i] == c;
      FoundAtIndex(c, i);
    }
  }

  /** `base64_decode` refuses exactly the texts with a character before the first `=` that is not in the alphabet. */
  lemma RefusesForeign(s: seq<byte>, n: nat)
    requires UpToEquals(s, n)
    ensures Decoded(s).Err? <==> exists i | 0 <= i < n :: s[i] !in Ascii(StandardAlphabet())
  {
    StemIs(s, n);
    forall i | 0 <= i < n ensures Position(s[i]).Some? <==> s[i] in Ascii(StandardAlphabet()) {
      PositionIsIndex(s[i]);
    }
    if exists i | 0 <= i < n :: s[i] !in Ascii(StandardAlphabet()) {
      var i :| 0 <= i < n && s[i] !in Ascii(StandardAlphabet());
      assert s[i] in Stem(s);
    }
  }

  /** What it reads otherwise: floor(6n/8) bytes, whose k-th bit is the one that the index of the letter it comes from
      has in its place; a letter's index is where it stands in the alphabet. */
  lemma DecodedSpells(s: seq<byte>, n: nat, k: nat, v: nat)
    requires UpToEquals(s, n) && Decoded(s).Ok? && k < 8 * |Decoded(s).value|
    requires k / 6 < n ==> v < 64 && Ascii(StandardAlphabet())[v] == s[k / 6]
    ensures |Decoded(s).value| == 6 * n / 8 && k / 6 < n
    ensures BitAt(Decoded(s).value, k) == BitOf(v, 5 - k % 6)
  {
    StemIs(s, n);
    RefusedExactly(s);
    DecodedBits(s);
    var vs := Indices(Stem(s));
    Alphabets(0);
    FoundAtIndex(s[k / 6], v);
    assert vs[k / 6] == v;
    ByteBitsAt(Decoded(s).value, k);
    SextetBitsAt(vs, k);
  }
}
