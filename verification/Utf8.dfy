/** The decoding step of Go's unicode/utf8 package, on which positions in a document rest. */
module Utf8 {

  newtype byte = x: int | 0 <= x < 256

  /** A decoded code point and the number of bytes it took. An invalid or cut-off encoding is
      one byte wide and decodes to U+FFFD. */
  datatype CodePoint = CodePoint(rune: nat, size: nat)

  const RUNE_ERROR := 0xFFFD
  const NEWLINE := 0x0A

  predicate Continuation(b: byte) {
    0x80 <= b <= 0xBF
  }

  /** Length of a well-formed encoding that starts with `lead`; 0 if none does. */
  function EncodedLength(lead: byte): nat {
    if lead < 0x80 then 1
    else if lead < 0xC2 then 0
    else if lead < 0xE0 then 2
    else if lead < 0xF0 then 3
    else if lead < 0xF5 then 4
    else 0
  }

  /** The second byte may not make the encoding overlong, a surrogate, or larger than U+10FFFF. */
  predicate SecondByteFits(lead: byte, second: byte) {
    && Continuation(second)
    && (lead == 0xE0 ==> second >= 0xA0)
    && (lead == 0xED ==> second <= 0x9F)
    && (lead == 0xF0 ==> second >= 0x90)
    && (lead == 0xF4 ==> second <= 0x8F)
  }

  function DecodeRune(s: seq<byte>): (c: CodePoint)
    requires s != []
    ensures 1 <= c.size <= 4 && c.size <= |s|
    ensures c.rune <= 0x10FFFF && !(0xD800 <= c.rune <= 0xDFFF)
    ensures c.rune == NEWLINE <==> s[0] == 0x0A
    ensures c.rune == NEWLINE ==> c.size == 1
    ensures c.rune > 0xFFFF <==> c.size == 4
  {
    var n := EncodedLength(s[0]);
    if n == 1 then
      CodePoint(s[0] as int, 1)
    else if n == 0 || |s| < n || !SecondByteFits(s[0], s[1]) then
      CodePoint(RUNE_ERROR, 1)
    else if n == 2 then
      CodePoint((s[0] as int - 0xC0) * 0x40 + (s[1] as int - 0x80), 2)
    else if !Continuation(s[2]) then
      CodePoint(RUNE_ERROR, 1)
    else if n == 3 then
      CodePoint(((s[0] as int - 0xE0) * 0x40 + (s[1] as int - 0x80)) * 0x40 + (s[2] as int - 0x80), 3)
    else if !Continuation(s[3]) then
      CodePoint(RUNE_ERROR, 1)
    else
      CodePoint((((s[0] as int - 0xF0) * 0x40 + (s[1] as int - 0x80)) * 0x40 + (s[2] as int - 0x80)) * 0x40 + (s[3] as int - 0x80), 4)
  }

  /** The code points that have an encoding: all but the surrogates. */
  predicate IsScalar(r: nat) {
    r <= 0x10FFFF && !(0xD800 <= r <= 0xDFFF)
  }

  function Tail(r: nat): byte {
    (0x80 + r % 0x40) as byte
  }

  /** The encoding of a code point in UTF-8, section 3 of RFC 3629. */
  function EncodeRune(r: nat): (s: seq<byte>)
    requires IsScalar(r)
    ensures 1 <= |s| <= 4
  {
    if r < 0x80 then [r as byte]
    else if r < 0x800 then [(0xC0 + r / 0x40) as byte, Tail(r)]
    else if r < 0x10000 then [(0xE0 + r / 0x1000) as byte, Tail(r / 0x40), Tail(r)]
    else [(0xF0 + r / 0x40000) as byte, Tail(r / 0x1000), Tail(r / 0x40), Tail(r)]
  }

  /** Every encoded code point is read back, whatever follows it. */
  lemma DecodeEncoded(r: nat, s: seq<byte>)
    requires IsScalar(r) && EncodeRune(r) <= s
    ensures DecodeRune(s) == CodePoint(r, |EncodeRune(r)|)
  {
    forall k | 0 <= k < |EncodeRune(r)|
      ensures s[k] == EncodeRune(r)[k]
    {
    }
    assert r == r / 0x40 * 0x40 + r % 0x40;
    assert r / 0x40 == r / 0x1000 * 0x40 + r / 0x40 % 0x40;
    assert r / 0x1000 == r / 0x40000 * 0x40 + r / 0x1000 % 0x40;
  }

  /** What is decoded without an error is the encoding that the bytes begin with. */
  lemma DecodedIsEncoded(s: seq<byte>)
    requires s != [] && DecodeRune(s) != CodePoint(RUNE_ERROR, 1)
    ensures EncodeRune(DecodeRune(s).rune) == s[..DecodeRune(s).size]
  {
    var c := DecodeRune(s);
    if c.size == 2 {
      assert c.rune / 0x40 == s[0] as int - 0xC0;
    } else if c.size == 3 {
      assert c.rune / 0x40 == (s[0] as int - 0xE0) * 0x40 + (s[1] as int - 0x80);
      assert c.rune / 0x1000 == s[0] as int - 0xE0;
    } else if c.size == 4 {
      assert c.rune / 0x40 == ((s[0] as int - 0xF0) * 0x40 + (s[1] as int - 0x80)) * 0x40 + (s[2] as int - 0x80);
      assert c.rune / 0x1000 == (s[0] as int - 0xF0) * 0x40 + (s[1] as int - 0x80);
      assert c.rune / 0x40000 == s[0] as int - 0xF0;
    }
  }

  /** A byte is taken for an error exactly when no encoding starts there. */
  lemma ErrorIff(s: seq<byte>)
    requires s != []
    ensures DecodeRune(s) == CodePoint(RUNE_ERROR, 1) <==> forall r: nat :: IsScalar(r) ==> !(EncodeRune(r) <= s)
  {
    if DecodeRune(s) == CodePoint(RUNE_ERROR, 1) {
      forall r: nat | IsScalar(r)
        ensures !(EncodeRune(r) <= s)
      {
        if EncodeRune(r) <= s {
          DecodeEncoded(r, s);
        }
      }
    } else {
      DecodedIsEncoded(s);
    }
  }
}
