/** The two base64 codecs of `src-tauri/src/auth.rs`, on bytes: the unpadded base64url encoder and the
    lenient decoder, both written as bit accumulators on 32-bit words. The alphabets are those of
    sections 4 and 5 of RFC 4648. */
module Base64 {
  import opened Bytes
  import opened Powers
  import opened Wrappers

  type sextet = v: int | 0 <= v < 64

  // ---- Alphabets ----

  /** Entry `v` of an alphabet table: A to Z, a to z, 0 to 9 and then the alphabet's own last pair. */
  function Letter(v: sextet, v62: byte, v63: byte): byte {
    if v < 26 then 65 + v else if v < 52 then 71 + v else if v < 62 then v - 4 else if v == 62 then v62 else v63
  }

  function Standard(v: sextet): byte { Letter(v, PLUS, SLASH) }

  function UrlSafe(v: sextet): byte { Letter(v, MINUS, UNDERSCORE) }

  /** Where a byte first stands in the standard table, searched in order. */
  function Position(c: byte, from: sextet := 0): (p: Option<sextet>)
    decreases 64 - from
  {
    if Standard(from) == c then Some(from) else if from == 63 then None else Position(c, from + 1)
  }

  lemma {:induction false} PositionFinds(c: byte, from: sextet)
    ensures Position(c, from).Some? ==> Standard(Position(c, from).value) == c
    ensures Position(c, from).None? ==> forall v: sextet | from <= v :: Standard(v) != c
    decreases 64 - from
  {
    if from < 63 { PositionFinds(c, from + 1); }
  }

  lemma PositionOfLetter(v: sextet)
    ensures Position(Standard(v)) == Some(v)
  {
    PositionFinds(Standard(v), 0);
  }

  // ---- Bits: the reference both codecs are measured against ----

  /** The low `n` bits of `v`, most significant first. */
  function Bits(v: nat, n: nat): (bits: seq<bool>)
    ensures |bits| == n
  {
    if n == 0 then [] else Bits(v / 2, n - 1) + [v % 2 == 1]
  }

  function Value(bits: seq<bool>): (v: nat)
    ensures v < Pow2(|bits|)
  {
    if bits == [] then 0
    else 2 * Value(bits[..|bits| - 1]) + if bits[|bits| - 1] then 1 else 0
  }

  function ByteBits(bytes: seq<byte>): (bits: seq<bool>)
    ensures |bits| == 8 * |bytes|
  {
    if bytes == [] then [] else ByteBits(bytes[..|bytes| - 1]) + Bits(bytes[|bytes| - 1], 8)
  }

  function SextetBits(vs: seq<sextet>): (bits: seq<bool>)
    ensures |bits| == 6 * |vs|
  {
    if vs == [] then [] else SextetBits(vs[..|vs| - 1]) + Bits(vs[|vs| - 1], 6)
  }

  lemma {:induction false} ValueOfBits(v: nat, n: nat)
    requires v < Pow2(n)
    ensures Value(Bits(v, n)) == v
  {
    if n > 0 {
      ValueOfBits(v / 2, n - 1);
      assert Bits(v, n)[..n - 1] == Bits(v / 2, n - 1);
    }
  }

  lemma {:induction false} BitsOfValue(bits: seq<bool>)
    ensures Bits(Value(bits), |bits|) == bits
  {
    if bits != [] {
      BitsOfValue(bits[..|bits| - 1]);
    }
  }

  /** `v >> m`. */
  function Shr(v: nat, m: nat): nat { if m == 0 then v else Shr(v / 2, m - 1) }

  /** `x << 6` on a `u32`: the high bits fall off. */
  function Shl6(x: nat): nat { x * 64 % 0x1_0000_0000 }

  /** The low bits split anywhere. */
  lemma {:induction false} BitsSplit(v: nat, n: nat, m: nat)
    ensures Bits(v, n + m) == Bits(Shr(v, m), n) + Bits(v, m)
  {
    if m > 0 {
      BitsSplit(v / 2, n, m - 1);
    }
  }

  /** Putting `m` more low bits under a number appends their bits. */
  lemma {:induction false} Push(k: nat, w: nat, n: nat, m: nat)
    requires w < Pow2(m)
    ensures Bits(k * Pow2(m) + w, n + m) == Bits(k, n) + Bits(w, m)
  {
    if m > 0 {
      var x := k * Pow2(m - 1);
      var v := 2 * x + w;
      Double(k, Pow2(m - 1));
      Push(k, w / 2, n, m - 1);
      Halves(x, w, v);
      LastBit(v, v / 2, n + m);
      LastBit(w, w / 2, m);
      AppendLast(Bits(k, n), Bits(w / 2, m - 1), v % 2 == 1);
    }
  }

  lemma Double(k: nat, p: nat)
    ensures k * (2 * p) == 2 * (k * p)
  {
  }

  lemma Halves(x: nat, w: nat, v: nat)
    requires v == 2 * x + w
    ensures v / 2 == x + w / 2 && v % 2 == w % 2
  {
  }

  lemma LastBit(v: nat, half: nat, n: nat)
    requires n > 0 && half == v / 2
    ensures Bits(v, n) == Bits(half, n - 1) + [v % 2 == 1]
  {
  }

  lemma AppendLast(a: seq<bool>, b: seq<bool>, c: bool)
    ensures (a + b) + [c] == a + (b + [c])
  {
  }

  lemma PowersOfTwo()
    ensures Pow2(2) == 4 && Pow2(4) == 16 && Pow2(6) == 64 && Pow2(8) == 256
  {
    assert Pow2(4) == 16;
  }

  // ---- The reference codecs ----

  function Zeros(n: nat): (z: seq<bool>) { seq(n, i => false) }

  /** Bits cut into sextets, the last one filled up with zeros. */
  function ToSextets(bits: seq<bool>): seq<sextet>
    decreases |bits|
  {
    if bits == [] then []
    else if |bits| < 6 then [SixBits(bits + Zeros(6 - |bits|))]
    else [SixBits(bits[..6])] + ToSextets(bits[6..])
  }

  function SixBits(bits: seq<bool>): sextet
    requires |bits| == 6
  {
    assert Pow2(6) == 64;
    Value(bits)
  }

  /** Bits cut into whole bytes; what is left over is dropped. */
  function ToBytes(bits: seq<bool>): (bytes: seq<byte>)
    ensures |bytes| == |bits| / 8
    decreases |bits|
  {
    if |bits| < 8 then []
    else
      assert Pow2(8) == 256;
      [Value(bits[..8])] + ToBytes(bits[8..])
  }

  function Letters(vs: seq<sextet>): (text: seq<byte>)
    ensures |text| == |vs|
  {
    seq(|vs|, i requires 0 <= i < |vs| => UrlSafe(vs[i]))
  }

  /** base64url without padding: the bits of the input, six at a time. */
  function Encoded(bytes: seq<byte>): seq<byte> { Letters(ToSextets(ByteBits(bytes))) }

  /** What stands before the first `=`. */
  function Stem(s: seq<byte>): seq<byte> {
    if s == [] || s[0] == EQUALS then [] else [s[0]] + Stem(s[1..])
  }

  predicate InAlphabet(c: byte) { exists v: sextet :: Standard(v) == c }

  predicate AllInAlphabet(s: seq<byte>) { forall c | c in s :: Position(c).Some? }

  function Indices(s: seq<byte>): (vs: seq<sextet>)
    requires AllInAlphabet(s)
    ensures |vs| == |s|
  {
    seq(|s|, i requires 0 <= i < |s| => Position(s[i]).value)
  }

  function Decoded(s: seq<byte>): Result<seq<byte>, ()> {
    if AllInAlphabet(Stem(s)) then Ok(ToBytes(SextetBits(Indices(Stem(s))))) else Err(())
  }

  lemma {:induction false} ByteBitsConcat(a: seq<byte>, b: seq<byte>)
    ensures ByteBits(a + b) == ByteBits(a) + ByteBits(b)
  {
    if b == [] {
      assert a + b == a;
    } else {
      var m := |b| - 1;
      ByteBitsConcat(a, b[..m]);
      assert (a + b)[..|a + b| - 1] == a + b[..m];
    }
  }

  lemma {:induction false} SextetBitsConcat(a: seq<sextet>, b: seq<sextet>)
    ensures SextetBits(a + b) == SextetBits(a) + SextetBits(b)
  {
    if b == [] {
      assert a + b == a;
    } else {
      var m := |b| - 1;
      SextetBitsConcat(a, b[..m]);
      assert (a + b)[..|a + b| - 1] == a + b[..m];
    }
  }

  lemma OneByte(b: byte)
    ensures ByteBits([b]) == Bits(b, 8) && Value(Bits(b, 8)) == b
  {
    assert Pow2(8) == 256;
    ValueOfBits(b, 8);
    assert [b][..0] == [] && ByteBits([]) == [];
  }

  lemma OneSextet(v: sextet)
    ensures SextetBits([v]) == Bits(v, 6) && Value(Bits(v, 6)) == v
  {
    assert Pow2(6) == 64;
    ValueOfBits(v, 6);
    assert [v][..0] == [] && SextetBits([]) == [];
  }

  /** Whole bytes come back from their bits, whatever fewer than eight bits follow. */
  lemma {:induction false} ToBytesOf(bytes: seq<byte>, rest: seq<bool>)
    requires |rest| < 8
    ensures ToBytes(ByteBits(bytes) + rest) == bytes
  {
    if bytes == [] {
      assert ByteBits(bytes) + rest == rest;
    } else {
      var b, tail := bytes[0], bytes[1..];
      assert bytes == [b] + tail;
      ByteBitsConcat([b], tail);
      OneByte(b);
      ToBytesOf(tail, rest);
      FirstByte(b, ByteBits(tail) + rest);
      AssociateBits(Bits(b, 8), ByteBits(tail), rest);
    }
  }

  lemma AssociateBits(a: seq<bool>, b: seq<bool>, c: seq<bool>)
    ensures (a + b) + c == a + (b + c)
  {
  }

  lemma FirstByte(b: byte, more: seq<bool>)
    ensures ToBytes(Bits(b, 8) + more) == [b] + ToBytes(more)
  {
    OneByte(b);
    assert (Bits(b, 8) + more)[..8] == Bits(b, 8) && (Bits(b, 8) + more)[8..] == more;
  }

  /** Sextets are determined by their bits, up to fewer than six zeros of filling. */
  lemma {:induction false} ToSextetsOf(vs: seq<sextet>, bits: seq<bool>)
    requires |bits| <= 6 * |vs| < |bits| + 6 && SextetBits(vs) == bits + Zeros(6 * |vs| - |bits|)
    ensures ToSextets(bits) == vs
  {
    if vs != [] {
      var v, tail := vs[0], vs[1..];
      assert vs == [v] + tail;
      SextetBitsConcat([v], tail);
      OneSextet(v);
      assert SextetBits(vs)[..6] == Bits(v, 6) && SextetBits(vs)[6..] == SextetBits(tail);
      if |bits| >= 6 {
        assert bits[..6] == SextetBits(vs)[..6];
        assert SextetBits(tail) == bits[6..] + Zeros(6 * |tail| - |bits[6..]|);
        ToSextetsOf(tail, bits[6..]);
      } else {
        assert tail == [];
        assert SextetBits(vs)[..6] == bits + Zeros(6 - |bits|);
      }
    }
  }

  lemma {:induction false} SextetBitsOf(bits: seq<bool>) returns (p: nat)
    ensures p < 6 && SextetBits(ToSextets(bits)) == bits + Zeros(p)
    decreases |bits|
  {
    if bits == [] {
      p := 0;
    } else if |bits| < 6 {
      p := 6 - |bits|;
      SixBitsBack(bits + Zeros(p));
    } else {
      SixBitsBack(bits[..6]);
      p := SextetBitsOf(bits[6..]);
      SextetBitsConcat([SixBits(bits[..6])], ToSextets(bits[6..]));
      assert bits == bits[..6] + bits[6..];
    }
  }

  lemma SixBitsBack(bits: seq<bool>)
    requires |bits| == 6
    ensures SextetBits([SixBits(bits)]) == bits
  {
    BitsOfValue(bits);
    OneSextet(SixBits(bits));
  }

  // ---- Round trip ----

  /** `jwt_claim` swaps the two URL-safe letters for the standard ones. */
  function Translated(s: seq<byte>): (t: seq<byte>)
    ensures |t| == |s|
  {
    seq(|s|, i requires 0 <= i < |s| =>
      if s[i] == MINUS then PLUS else if s[i] == UNDERSCORE then SLASH else s[i])
  }

  function Padding(n: nat): nat { (4 - n % 4) % 4 }

  /** ... and fills the text up with `=` to a multiple of four. */
  function Normalised(payload: seq<byte>): seq<byte> {
    Translated(payload) + seq(Padding(|payload|), i => EQUALS)
  }

  lemma {:induction false} StemOfPadded(s: seq<byte>, n: nat)
    requires EQUALS !in s
    ensures Stem(s + seq(n, i => EQUALS)) == s
  {
    var padded := s + seq(n, i => EQUALS);
    if s == [] {
    } else {
      assert padded[1..] == s[1..] + seq(n, i => EQUALS);
      StemOfPadded(s[1..], n);
    }
  }

  lemma TranslatedLetters(vs: seq<sextet>)
    ensures var t := Translated(Letters(vs)); EQUALS !in t && AllInAlphabet(t) && Indices(t) == vs
  {
    var t := Translated(Letters(vs));
    forall i | 0 <= i < |t| ensures Position(t[i]) == Some(vs[i]) && t[i] != EQUALS {
      assert t[i] == Standard(vs[i]);
      PositionOfLetter(vs[i]);
    }
  }

  /** Any bytes survive the encoder, the translation and padding of `jwt_claim`, and the decoder. */
  lemma RoundTrip(bytes: seq<byte>)
    ensures Decoded(Normalised(Encoded(bytes))) == Ok(bytes)
  {
    var vs := ToSextets(ByteBits(bytes));
    TranslatedLetters(vs);
    StemOfPadded(Translated(Letters(vs)), Padding(|vs|));
    var p := SextetBitsOf(ByteBits(bytes));
    ToBytesOf(bytes, Zeros(p));
  }

  /** The decoder refuses exactly the texts with a foreign byte before the first `=`. */
  lemma RefusedExactly(s: seq<byte>)
    ensures Decoded(s).Err? <==> exists c :: c in Stem(s) && !InAlphabet(c)
    ensures Decoded(s).Ok? ==> |Decoded(s).value| == 6 * |Stem(s)| / 8
  {
    forall c: byte ensures Position(c).Some? <==> InAlphabet(c) {
      PositionFinds(c, 0);
    }
  }

  /** Nothing after the first `=`, and nothing but the first floor(6n/8) bytes' worth of bits, matters. */
  lemma DecodedBits(s: seq<byte>)
    requires Decoded(s).Ok?
    ensures var bits := SextetBits(Indices(Stem(s)));
      ByteBits(Decoded(s).value) == bits[..8 * (6 * |Stem(s)| / 8)]
  {
    BytesOfBits(SextetBits(Indices(Stem(s))));
  }

  lemma {:induction false} BytesOfBits(bits: seq<bool>)
    ensures ByteBits(ToBytes(bits)) == bits[..8 * (|bits| / 8)]
    decreases |bits|
  {
    if |bits| >= 8 {
      var first, rest := bits[..8], bits[8..];
      BytesOfBits(rest);
      var b: byte := ToBytes(bits)[0];
      BitsOfValue(first);
      OneByte(b);
      ByteBitsConcat([b], ToBytes(rest));
      WholeBytes(bits, first, rest);
    }
  }

  lemma WholeBytes(bits: seq<bool>, first: seq<bool>, rest: seq<bool>)
    requires bits == first + rest && |first| == 8
    ensures bits[..8 * (|bits| / 8)] == first + rest[..8 * (|rest| / 8)]
  {
    assert |bits| / 8 == |rest| / 8 + 1;
  }

  // ---- The accumulators ----

  lemma PushSextet(x: nat, k: nat, idx: sextet, n: nat)
    requires x == 64 * k + idx
    ensures Bits(x, n + 6) == Bits(k, n) + Bits(idx, 6)
  {
    PowersOfTwo();
    Push(k, idx, n, 6);
  }

  lemma PushByte(x: nat, k: nat, b: byte, n: nat)
    requires x == 256 * k + b
    ensures Bits(x, n + 8) == Bits(k, n) + Bits(b, 8)
  {
    PowersOfTwo();
    Push(k, b, n, 8);
  }

  lemma PopByte(x: nat, m: nat, high: nat, b: byte)
    requires high == Shr(x, m) && b == high % 256
    ensures Bits(x, 8 + m) == Bits(b, 8) + Bits(x, m)
  {
    BitsSplit(x, 8, m);
    PushByte(high, high / 256, b, 0);
  }

  lemma Shl6Drops(buf: nat, idx: sextet)
    ensures Shl6(buf) + idx == 64 * (buf % 0x400_0000) + idx < 0x1_0000_0000
  {
  }

  /** One more sextet in the accumulator, whatever has been shifted out of its 32 bits. */
  lemma Accumulate(buf: nat, bits: nat, idx: sextet)
    requires bits == 0 || bits == 2 || bits == 4 || bits == 6
    ensures var next := Shl6(buf) + idx;
      next < 0x1_0000_0000 && Bits(next, bits + 6) == Bits(buf, bits) + Bits(idx, 6)
  {
    var low := buf % 0x400_0000;
    Shl6Drops(buf, idx);
    LowOfWord(buf / 0x400_0000, low, bits);
    PushSextet(Shl6(buf) + idx, low, idx, bits);
  }

  lemma LowOfWord(t: nat, k: nat, n: nat)
    requires n == 0 || n == 2 || n == 4 || n == 6
    ensures Bits(t * 0x400_0000 + k, n) == Bits(k, n)
  {
    PowersOfTwo();
    if n == 2 {
      SameLow(t * 0x100_0000, k, 2);
    } else if n == 4 {
      SameLow(t * 0x40_0000, k, 4);
    } else if n == 6 {
      SameLow(t * 0x10_0000, k, 6);
    }
  }

  lemma {:induction false} SameLow(q: nat, w: nat, n: nat)
    ensures Bits(q * Pow2(n) + w, n) == Bits(w, n)
  {
    if n > 0 {
      var x := q * Pow2(n - 1);
      assert q * Pow2(n) == 2 * x;
      SameLow(q, w / 2, n - 1);
    }
  }

  lemma StemStep(s: seq<byte>, k: nat)
    requires k < |s| && Stem(s) == s[..k] + Stem(s[k..])
    ensures s[k] == EQUALS ==> Stem(s) == s[..k]
    ensures s[k] != EQUALS ==> Stem(s) == s[..k + 1] + Stem(s[k + 1..])
  {
    TakeOneMore(s, k);
    StemHead(s[k], s[k + 1..]);
    if s[k] != EQUALS { Regroup(s[..k], s[k], Stem(s[k + 1..])); }
  }

  lemma StemHead(c: byte, rest: seq<byte>)
    ensures Stem([c] + rest) == if c == EQUALS then [] else [c] + Stem(rest)
  {
    assert ([c] + rest)[1..] == rest;
  }

  lemma StemEnds(s: seq<byte>, k: nat)
    requires k <= |s| && Stem(s) == s[..k] + Stem(s[k..]) && (k < |s| ==> s[k] == EQUALS)
    ensures Stem(s) == s[..k]
  {
    assert Stem(s[k..]) == [];
  }

  lemma OneMoreIndex(s: seq<byte>, k: nat)
    requires k < |s| && AllInAlphabet(s[..k]) && Position(s[k]).Some?
    ensures AllInAlphabet(s[..k + 1])
    ensures SextetBits(Indices(s[..k + 1])) == SextetBits(Indices(s[..k])) + Bits(Position(s[k]).value, 6)
  {
    assert s[..k + 1] == s[..k] + [s[k]];
    assert Indices(s[..k + 1])[..k] == Indices(s[..k]);
  }

  /** `k` bytes of `s` have been read, and their bits are those of `out` and the low `bits` bits of `buf`. */
  ghost predicate Reading(s: seq<byte>, k: nat, out: seq<byte>, buf: nat, bits: nat) {
    && k <= |s|
    && buf < 0x1_0000_0000
    && (bits == 0 || bits == 2 || bits == 4 || bits == 6)
    && AllInAlphabet(s[..k])
    && Stem(s) == s[..k] + Stem(s[k..])
    && ByteBits(out) + Bits(buf, bits) == SextetBits(Indices(s[..k]))
  }

  /** With nothing waiting, a sextet waits. */
  lemma ReadWaits(out: seq<byte>, buf: nat, idx: sextet, next: nat, seen: seq<bool>)
    requires next == Shl6(buf) + idx && ByteBits(out) + Bits(buf, 0) == seen
    ensures ByteBits(out) + Bits(next, 6) == seen + Bits(idx, 6)
  {
    Accumulate(buf, 0, idx);
    assert Bits(buf, 0) == [] && seen == ByteBits(out);
    assert Bits(next, 6) == [] + Bits(idx, 6) == Bits(idx, 6);
  }

  /** With `m + 2` bits waiting, a sextet completes a byte and leaves `m`. */
  lemma ReadPops(out: seq<byte>, buf: nat, m: nat, idx: sextet, next: nat, b: byte, seen: seq<bool>)
    requires m == 0 || m == 2 || m == 4
    requires next == Shl6(buf) + idx && b == Shr(next, m) % 256 && ByteBits(out) + Bits(buf, m + 2) == seen
    ensures ByteBits(out + [b]) + Bits(next, m) == seen + Bits(idx, 6)
  {
    Accumulate(buf, m + 2, idx);
    PopByte(next, m, Shr(next, m), b);
    AppendByte(out, b);
    RegroupBits(ByteBits(out), Bits(buf, m + 2), Bits(idx, 6), Bits(b, 8), Bits(next, m));
  }

  lemma RegroupBits(a: seq<bool>, x: seq<bool>, y: seq<bool>, u: seq<bool>, v: seq<bool>)
    requires x + y == u + v
    ensures a + x + y == a + u + v
  {
    assert a + x + y == a + (x + y);
    assert a + u + v == a + (u + v);
  }

  lemma AppendByte(out: seq<byte>, b: byte)
    ensures ByteBits(out + [b]) == ByteBits(out) + Bits(b, 8)
  {
    assert (out + [b])[..|out|] == out;
  }

  lemma ReadOne(s: seq<byte>, k: nat, out: seq<byte>, buf: nat, bits: nat, next: nat)
    requires Reading(s, k, out, buf, bits) && k < |s| && s[k] != EQUALS && Position(s[k]).Some?
    requires next == Shl6(buf) + Position(s[k]).value
    ensures bits == 0 ==> Reading(s, k + 1, out, next, 6)
    ensures bits > 0 ==> Reading(s, k + 1, out + [Shr(next, bits - 2) % 256], next, bits - 2)
  {
    StemStep(s, k);
    OneMoreIndex(s, k);
    Shl6Drops(buf, Position(s[k]).value);
    var seen := SextetBits(Indices(s[..k]));
    if bits == 0 {
      ReadWaits(out, buf, Position(s[k]).value, next, seen);
    } else {
      ReadPops(out, buf, bits - 2, Position(s[k]).value, next, Shr(next, bits - 2) % 256, seen);
    }
  }

  lemma ReadAll(s: seq<byte>, k: nat, out: seq<byte>, buf: nat, bits: nat)
    requires Reading(s, k, out, buf, bits) && (k < |s| ==> s[k] == EQUALS)
    ensures Decoded(s) == Ok(out)
  {
    StemEnds(s, k);
    ToBytesOf(out, Bits(buf, bits));
  }

  lemma ReadBad(s: seq<byte>, k: nat, out: seq<byte>, buf: nat, bits: nat)
    requires Reading(s, k, out, buf, bits) && k < |s| && s[k] != EQUALS && Position(s[k]).None?
    ensures Decoded(s) == Err(())
  {
    assert s[k] in Stem(s[k..]);
  }

  /** The loop's body on a letter. */
  method Accept(s: seq<byte>, k: nat, out: seq<byte>, buf: nat, bits: nat, idx: sextet)
    returns (out': seq<byte>, buf': nat, bits': nat)
    requires Reading(s, k, out, buf, bits) && k < |s| && s[k] != EQUALS && Position(s[k]) == Some(idx)
    ensures Reading(s, k + 1, out', buf', bits')
  {
    ReadOne(s, k, out, buf, bits, Shl6(buf) + idx);
    out', buf', bits' := out, Shl6(buf) + idx, bits + 6;
    if bits' >= 8 {
      bits' := bits' - 8;
      out' := out' + [Shr(buf', bits') % 256];
    }
  }

  /** `base64_decode`, with `buf` a `u32` that is never masked. */
  method Base64Decode(s: seq<byte>) returns (r: Result<seq<byte>, ()>)
    ensures r == Decoded(s)
  {
    var out: seq<byte> := [];
    var buf: nat := 0;
    var bits: nat := 0;
    var k := 0;
    ReadNone(s);
    while k < |s|
      invariant 0 <= k <= |s| && Reading(s, k, out, buf, bits)
    {
      var c := s[k];
      if c == EQUALS { break; }
      var idx := Position(c);
      if idx.None? {
        ReadBad(s, k, out, buf, bits);
        return Err(());
      }
      out, buf, bits := Accept(s, k, out, buf, bits, idx.value);
      k := k + 1;
    }
    ReadAll(s, k, out, buf, bits);
    return Ok(out);
  }

  lemma ReadNone(s: seq<byte>)
    ensures Reading(s, 0, [], 0, 0)
  {
    assert Indices(s[..0]) == [];
  }

  function Packed(b0: byte, b1: byte, b2: byte): nat { b0 * 65536 + b1 * 256 + b2 }

  lemma PackedBits(b0: byte, b1: byte, b2: byte)
    ensures Bits(Packed(b0, b1, b2), 24) == Bits(b0, 8) + Bits(b1, 8) + Bits(b2, 8)
  {
    var high := 256 * b0 + b1;
    PushByte(high, b0, b1, 8);
    PushByte(Packed(b0, b1, b2), high, b2, 16);
  }

  /** The `j`-th six bits of a 24-bit word, as the encoder picks them. */
  lemma PickedBits(n: nat, j: nat)
    requires j < 4
    ensures Bits(n, 24)[6 * j..6 * j + 6] == Bits(Shr(n, 18 - 6 * j) % 64, 6)
  {
    var rest := 18 - 6 * j;
    BitsSplit(n, 6 * j + 6, rest);
    PushSextet(Shr(n, rest), Shr(n, rest) / 64, Shr(n, rest) % 64, 6 * j);
  }

  lemma OneMoreLetter(n: nat, j: nat, vs: seq<sextet>, v: sextet, word: seq<bool>)
    requires j < 4 && |vs| == j && word == Bits(n, 24) && SextetBits(vs) == word[..6 * j]
    requires v == Shr(n, 18 - 6 * j) % 64
    ensures SextetBits(vs + [v]) == word[..6 * (j + 1)] && Letters(vs + [v]) == Letters(vs) + [UrlSafe(v)]
  {
    PickedBits(n, j);
    assert (vs + [v])[..j] == vs;
    assert word[..6 * (j + 1)] == word[..6 * j] + word[6 * j..6 * j + 6];
  }

  /** The inner loop: the first `take` sextets of a 24-bit word, as letters. */
  method PushLetters(n: nat, take: nat) returns (text: seq<byte>, ghost vs: seq<sextet>)
    requires take <= 4
    ensures |text| == take && forall j | 0 <= j < take :: text[j] == UrlSafe(Shr(n, 18 - 6 * j) % 64)
    ensures text == Letters(vs) && |vs| == take && SextetBits(vs) == Bits(n, 24)[..6 * take]
  {
    text, vs := [], [];
    ghost var word := Bits(n, 24);
    for j := 0 to take
      invariant text == Letters(vs) && |vs| == j && SextetBits(vs) == word[..6 * j]
      invariant forall k | 0 <= k < j :: text[k] == UrlSafe(Shr(n, 18 - 6 * k) % 64)
    {
      var v: sextet := Shr(n, 18 - 6 * j) % 64;
      OneMoreLetter(n, j, vs, v, word);
      vs := vs + [v];
      text := text + [UrlSafe(v)];
    }
  }

  /** `vs` carries `done`, the bits of the first `i` of `n` bytes, filled up with zeros only at the very end. */
  ghost predicate Written(done: seq<bool>, i: nat, n: nat, vs: seq<sextet>) {
    && i <= n
    && 8 * i <= 6 * |vs| < 8 * i + 6
    && (i < n ==> 6 * |vs| == 8 * i)
    && SextetBits(vs) == done + Zeros(6 * |vs| - 8 * i)
  }

  lemma WriteChunk(
    done: seq<bool>, i: nat, n: nat, len: nat, vs: seq<sextet>, part: seq<sextet>, fill: nat, after: seq<bool>)
    requires Written(done, i, n, vs) && i < n && len == (if n - i < 3 then n - i else 3)
    requires |part| == len + 1 && fill == 6 * (len + 1) - 8 * len
    requires done + SextetBits(part) == after + Zeros(fill)
    ensures Written(after, i + len, n, vs + part)
  {
    NoZeros(done, 6 * |vs| - 8 * i);
    SextetBitsConcat(vs, part);
    Lengths(|vs|, i, len, n);
  }

  lemma Lengths(v: nat, i: nat, len: nat, n: nat)
    requires 6 * v == 8 * i && i < n && len == (if n - i < 3 then n - i else 3)
    ensures 8 * (i + len) <= 6 * (v + len + 1) < 8 * (i + len) + 6
    ensures i + len < n ==> 6 * (v + len + 1) == 8 * (i + len)
    ensures 6 * (v + len + 1) - 8 * (i + len) == 6 * (len + 1) - 8 * len
  {
  }

  lemma NoZeros(bits: seq<bool>, n: nat)
    requires n == 0
    ensures bits + Zeros(n) == bits
  {
  }

  lemma WrittenAll(bytes: seq<byte>, done: seq<bool>, vs: seq<sextet>)
    requires done == ByteBits(bytes) && Written(done, |bytes|, |bytes|, vs)
    ensures Letters(vs) == Encoded(bytes)
  {
    ToSextetsOf(vs, done);
  }

  lemma LettersConcat(a: seq<sextet>, b: seq<sextet>)
    ensures Letters(a + b) == Letters(a) + Letters(b)
  {
  }

  /** `b64url`: three bytes at a time, packed into one word and read back six bits at a time. */
  method B64Url(bytes: seq<byte>) returns (out: seq<byte>)
    ensures out == Encoded(bytes)
  {
    out := [];
    ghost var vs: seq<sextet>, done: seq<bool> := [], ByteBits(bytes[..0]);
    var i := 0;
    while i < |bytes|
      invariant 0 <= i <= |bytes| && done == ByteBits(bytes[..i])
      invariant Written(done, i, |bytes|, vs) && out == Letters(vs)
    {
      var len := if |bytes| - i < 3 then |bytes| - i else 3;
      var b0 := bytes[i];
      var b1: byte := if len > 1 then bytes[i + 1] else 0;
      var b2: byte := if len > 2 then bytes[i + 2] else 0;
      var text, part := PushLetters(Packed(b0, b1, b2), len + 1);
      ChunkBits(bytes, i, len, b0, b1, b2);
      ghost var after := ByteBits(bytes[..i + len]);
      WriteChunk(done, i, |bytes|, len, vs, part, 6 * (len + 1) - 8 * len, after);
      LettersConcat(vs, part);
      vs, done := vs + part, after;
      out := out + text;
      i := i + len;
    }
    assert bytes[..i] == bytes;
    WrittenAll(bytes, done, vs);
  }

  lemma ChunkBits(bytes: seq<byte>, i: nat, len: nat, b0: byte, b1: byte, b2: byte)
    requires 1 <= len <= 3 && i + len <= |bytes|
    requires b0 == bytes[i]
    requires b1 == if len > 1 then bytes[i + 1] else 0
    requires b2 == if len > 2 then bytes[i + 2] else 0
    ensures ByteBits(bytes[..i]) + Bits(Packed(b0, b1, b2), 24)[..6 * (len + 1)]
         == ByteBits(bytes[..i + len]) + Zeros(6 * (len + 1) - 8 * len)
  {
    var before, word := ByteBits(bytes[..i]), Bits(Packed(b0, b1, b2), 24);
    PackedBits(b0, b1, b2);
    OneMoreByte(bytes, i);
    if len == 1 {
      ZeroByte();
      FillOne(before, Bits(b0, 8), Bits(b1, 8), Bits(b2, 8), word);
    } else if len == 2 {
      ZeroByte();
      OneMoreByte(bytes, i + 1);
      FillTwo(before, Bits(b0, 8), Bits(b1, 8), Bits(b2, 8), word);
    } else {
      OneMoreByte(bytes, i + 1);
      OneMoreByte(bytes, i + 2);
      FillThree(before, Bits(b0, 8), Bits(b1, 8), Bits(b2, 8), word);
    }
  }

  lemma FillOne(before: seq<bool>, a: seq<bool>, b: seq<bool>, c: seq<bool>, word: seq<bool>)
    requires |a| == |b| == |c| == 8 && word == a + b + c && b == Zeros(8)
    ensures before + word[..12] == before + a + Zeros(4)
  {
    assert word[..12] == a + Zeros(4);
  }

  lemma FillTwo(before: seq<bool>, a: seq<bool>, b: seq<bool>, c: seq<bool>, word: seq<bool>)
    requires |a| == |b| == |c| == 8 && word == a + b + c && c == Zeros(8)
    ensures before + word[..18] == before + a + b + Zeros(2)
  {
    assert word[..18] == a + b + Zeros(2);
  }

  lemma FillThree(before: seq<bool>, a: seq<bool>, b: seq<bool>, c: seq<bool>, word: seq<bool>)
    requires |a| == |b| == |c| == 8 && word == a + b + c
    ensures before + word[..24] == before + a + b + c + Zeros(0)
  {
    assert word[..24] == word;
  }

  lemma OneMoreByte(bytes: seq<byte>, i: nat)
    requires i < |bytes|
    ensures ByteBits(bytes[..i + 1]) == ByteBits(bytes[..i]) + Bits(bytes[i], 8)
  {
    assert bytes[..i + 1][..i] == bytes[..i];
  }

  lemma ZeroByte()
    ensures Bits(0, 8) == Zeros(8)
  {
    assert Bits(0, 0) == [] && Bits(0, 1) == [false] && Bits(0, 2) == [false, false];
    assert Bits(0, 4) == [false, false, false, false];
  }

  /** The two loops of `jwt_claim` around its decoder. */
  method Normalise(payload: seq<byte>) returns (b64: seq<byte>)
    ensures b64 == Normalised(payload) && |b64| % 4 == 0
  {
    b64 := Translated(payload);
    while |b64| % 4 != 0
      invariant |payload| <= |b64| <= |payload| + Padding(|payload|)
      invariant b64 == Translated(payload) + seq(|b64| - |payload|, i => EQUALS)
      decreases |payload| + Padding(|payload|) - |b64|
    {
      b64 := b64 + [EQUALS];
    }
  }
}
