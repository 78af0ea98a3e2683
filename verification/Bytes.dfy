/** Text as the Rust sources see it: bytes. */
module Bytes {
  type byte = b: int | 0 <= b < 256

  const SPACE: byte := ' ' as int
  const PERCENT: byte := '%' as int
  const AMPERSAND: byte := '&' as int
  const PLUS: byte := '+' as int
  const MINUS: byte := '-' as int
  const SLASH: byte := '/' as int
  const EQUALS: byte := '=' as int
  const QUESTION: byte := '?' as int
  const UNDERSCORE: byte := '_' as int

  /** An ASCII literal as bytes. */
  function Ascii(s: string): (b: seq<byte>)
    ensures |b| == |s|
  {
    seq(|s|, i requires 0 <= i < |s| => s[i] as int % 256)
  }

  lemma Regroup(out: seq<byte>, x: byte, rest: seq<byte>)
    ensures out + ([x] + rest) == (out + [x]) + rest
  {
  }

  lemma Associate(a: seq<byte>, b: seq<byte>, c: seq<byte>)
    ensures (a + b) + c == a + (b + c)
  {
  }

  lemma TakeOneMore(s: seq<byte>, k: nat)
    requires k < |s|
    ensures s[..k + 1] == s[..k] + [s[k]] && s[k..] == [s[k]] + s[k + 1..] && s[k..][1..] == s[k + 1..]
  {
  }

  predicate IsAscii(s: seq<byte>) { forall i | 0 <= i < |s| :: s[i] < 128 }
}
