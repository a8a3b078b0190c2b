/** The character tables of Go's unicode package. Letters, digits and case mapping
    are parameters, of which only what is fixed for ASCII and the idempotence of
    lower-casing is used; white space and encoded length are spelled out. */
module Runes {

  datatype Tables = Tables(isLetter: char -> bool, isDigit: char -> bool, lower: char -> char, upper: char -> char) {

    predicate Alnum(c: char) {
      isLetter(c) || isDigit(c)
    }

    /** strings.ToLower, rune by rune. */
    function ToLower(s: string): (r: string)
      ensures |r| == |s|
      ensures forall i | 0 <= i < |s| :: r[i] == lower(s[i])
    {
      seq(|s|, i requires 0 <= i < |s| => lower(s[i]))
    }

    /** strings.ToUpper, rune by rune. */
    function ToUpper(s: string): (r: string)
      ensures |r| == |s|
      ensures forall i | 0 <= i < |s| :: r[i] == upper(s[i])
    {
      seq(|s|, i requires 0 <= i < |s| => upper(s[i]))
    }

    ghost predicate Valid() {
      && (forall c {:trigger lower(lower(c))} :: lower(lower(c)) == lower(c))
      && (forall c {:trigger lower(c)} | IsAscii(c) :: lower(c) == AsciiLower(c))
      && (forall c {:trigger upper(c)} | IsAscii(c) :: upper(c) == AsciiUpper(c))
      && (forall c {:trigger upper(c)} | !IsAscii(c) :: !IsHex(upper(c)))
      && (forall c {:trigger Alnum(c)} | IsAscii(c) ::
            Alnum(c) <==> ('a' <= c <= 'z' || 'A' <= c <= 'Z' || '0' <= c <= '9'))
    }
  }

  predicate IsAscii(c: char) { c < '\U{80}' }

  predicate IsHex(c: char) {
    '0' <= c <= '9' || 'A' <= c <= 'F' || 'a' <= c <= 'f'
  }

  function AsciiLower(c: char): char {
    if 'A' <= c <= 'Z' then (c as int + 32) as char else c
  }

  function AsciiUpper(c: char): char {
    if 'a' <= c <= 'z' then (c as int - 32) as char else c
  }

  /** unicode.IsSpace: the White_Space property. */
  predicate IsSpace(c: char) {
    || '\U{09}' <= c <= '\U{0D}' || c == ' ' || c == '\U{85}' || c == '\U{A0}' || c == '\U{1680}'
    || '\U{2000}' <= c <= '\U{200A}' || c == '\U{2028}' || c == '\U{2029}'
    || c == '\U{202F}' || c == '\U{205F}' || c == '\U{3000}'
  }

  /** Bytes of the UTF-8 encoding of one rune. */
  function RuneLen(c: char): (n: nat)
    ensures 1 <= n <= 4
    ensures IsAscii(c) ==> n == 1
  {
    if c < '\U{80}' then 1 else if c < '\U{800}' then 2 else if c < '\U{10000}' then 3 else 4
  }

  function Pow2(n: nat): nat {
    if n == 0 then 1 else 2 * Pow2(n - 1)
  }

  /** Bits of a rune that an encoding of `n` bytes carries: each byte but the first carries
      six, and the first has a marker of length `n` and a zero in front. */
  function Payload(n: nat): nat
    requires 1 <= n <= 4
  {
    if n == 1 then 7 else (7 - n) + 6 * (n - 1)
  }

  /** The encoding is the shortest one the rune fits in (section 3 of RFC 3629). */
  lemma RuneLenIsLeast(c: char)
    ensures (c as int) < Pow2(Payload(RuneLen(c)))
    ensures forall n: nat | 1 <= n < RuneLen(c) :: Pow2(Payload(n)) <= c as int
  {
    assert Pow2(7) == 0x80;
    assert Pow2(11) == 0x800 by { assert Pow2(9) == 0x200; }
    assert Pow2(16) == 0x10000 by { assert Pow2(11) == 0x800; assert Pow2(13) == 0x2000; }
    assert Pow2(21) == 0x20_0000 by { assert Pow2(16) == 0x10000; assert Pow2(18) == 0x40000; }
  }

  /** strings.Builder.Len: the encoded size of a text. */
  function Size(s: string): nat {
    if s == "" then 0 else Size(s[..|s| - 1]) + RuneLen(s[|s| - 1])
  }

  lemma {:induction false} SizePrefix(s: string, k: nat)
    requires k <= |s|
    ensures Size(s[..k]) <= Size(s)
    ensures k < |s| ==> Size(s[..k]) < Size(s)
    decreases |s|
  {
    if k < |s| {
      var front := s[..|s| - 1];
      assert front[..k] == s[..k];
      SizePrefix(front, k);
    } else {
      assert s[..k] == s;
    }
  }

  lemma {:induction false} SizeOfAscii(s: string)
    requires forall i | 0 <= i < |s| :: IsAscii(s[i])
    ensures Size(s) == |s|
    decreases |s|
  {
    if s != "" {
      SizeOfAscii(s[..|s| - 1]);
    }
  }
}
