/** The code point codec: `codePointToUTF8` of json_tool.h and `utf8ToCodepoint` of json_writer.cpp,
    against the byte-range grammar of RFC 3629 section 4. */
module Utf8 {
  import opened Bytes

  const REPLACEMENT: nat := 0xFFFD

  /** Unicode scalar values: every code point but the surrogates. */
  predicate IsScalar(cp: int) {
    0 <= cp <= 0x10FFFF && !(0xD800 <= cp <= 0xDFFF)
  }

  // ----- the grammar -----------------------------------------------------------------------

  predicate IsTail(b: byte) {
    0x80 <= b <= 0xBF
  }

  /** The length of the well-formed character at the front of `s`, or 0 when there is none
      (the UTF8-1 to UTF8-4 productions of RFC 3629 section 4). */
  function CharLength(s: bytes): (n: nat)
    ensures n <= |s| && n <= 4
  {
    if s == [] then 0
    else if s[0] <= 0x7F then 1
    else if |s| < 2 || !IsTail(s[1]) then 0
    else if 0xC2 <= s[0] <= 0xDF then 2
    else if |s| < 3 || !IsTail(s[2]) then 0
    else if (s[0] == 0xE0 && 0xA0 <= s[1]) || 0xE1 <= s[0] <= 0xEC
            || (s[0] == 0xED && s[1] <= 0x9F) || 0xEE <= s[0] <= 0xEF then 3
    else if |s| < 4 || !IsTail(s[3]) then 0
    else if (s[0] == 0xF0 && 0x90 <= s[1]) || 0xF1 <= s[0] <= 0xF3
            || (s[0] == 0xF4 && s[1] <= 0x8F) then 4
    else 0
  }

  /** `s` is a concatenation of well-formed characters. */
  predicate WellFormed(s: bytes)
    decreases |s|
  {
    s == [] || (CharLength(s) > 0 && WellFormed(s[CharLength(s)..]))
  }

  // ----- encoding ----------------------------------------------------------------------------

  /** What the encoder emits; nothing at all above 0x10FFFF. */
  function Encoded(cp: nat): (r: bytes)
    ensures |r| == if cp <= 0x7F then 1 else if cp <= 0x7FF then 2
                   else if cp <= 0xFFFF then 3 else if cp <= 0x10FFFF then 4 else 0
  {
    if cp <= 0x7F then [cp]
    else if cp <= 0x7FF then [0xC0 + cp / 64, 0x80 + cp % 64]
    else if cp <= 0xFFFF then [0xE0 + cp / 4096, 0x80 + cp / 64 % 64, 0x80 + cp % 64]
    else if cp <= 0x10FFFF then
      [0xF0 + cp / 262144, 0x80 + cp / 4096 % 64, 0x80 + cp / 64 % 64, 0x80 + cp % 64]
    else []
  }

  /** The encoder fills its result from the last byte to the first, masking as the source does. */
  method CodePointToUTF8(cp: nat) returns (result: bytes)
    requires cp < 0x1_0000_0000
    ensures result == Encoded(cp)
  {
    result := [];
    if cp <= 0x7F {
      result := [cp];
    } else if cp <= 0x7FF {
      result := [0, 0];
      result := result[1 := 0x80 + cp % 64];
      result := result[0 := 0xC0 + cp / 64 % 32];
    } else if cp <= 0xFFFF {
      result := [0, 0, 0];
      result := result[2 := 0x80 + cp % 64];
      result := result[1 := 0x80 + cp / 64 % 64];
      result := result[0 := 0xE0 + cp / 4096 % 16];
    } else if cp <= 0x10FFFF {
      result := [0, 0, 0, 0];
      result := result[3 := 0x80 + cp % 64];
      result := result[2 := 0x80 + cp / 64 % 64];
      result := result[1 := 0x80 + cp / 4096 % 64];
      result := result[0 := 0xF0 + cp / 262144 % 8];
    }
  }

  // ----- decoding ----------------------------------------------------------------------------

  /** The payload bits of a two-, three- and four-byte sequence, masked out of its bytes. */
  function Payload2(a: int, b: int): int {
    a % 32 * 64 + b % 64
  }

  function Payload3(a: int, b: int, c: int): int {
    a % 16 * 4096 + b % 64 * 64 + c % 64
  }

  function Payload4(a: int, b: int, c: int, d: int): int {
    a % 8 * 262144 + b % 64 * 4096 + c % 64 * 64 + d % 64
  }

  /** A decoded code point and the number of bytes it took. */
  datatype Decoded = Decoded(cp: nat, len: nat)

  /** The source's decoder: masks without checking tails, and answers REPLACEMENT for a truncated,
      oversized or surrogate sequence. The number of bytes taken includes the caller's `++c`. */
  function DecodeFirst(s: bytes): (d: Decoded)
    requires s != []
    ensures 1 <= d.len <= |s| && d.len <= 4
    ensures d.cp < 0x200000 && !(0xD800 <= d.cp <= 0xDFFF)
    ensures d.cp < 0x80 <==> s[0] < 0x80
    ensures s[0] < 0x80 ==> d == Decoded(s[0], 1)
  {
    var b := s[0];
    if b < 0x80 then Decoded(b, 1)
    else if b < 0xE0 then
      if |s| < 2 then Decoded(REPLACEMENT, 1)
      else
        var c := Payload2(b, s[1]);
        Decoded(if c < 0x80 then REPLACEMENT else c, 2)
    else if b < 0xF0 then
      if |s| < 3 then Decoded(REPLACEMENT, 1)
      else
        var c := Payload3(b, s[1], s[2]);
        Decoded(if 0xD800 <= c <= 0xDFFF || c < 0x800 then REPLACEMENT else c, 3)
    else if b < 0xF8 then
      if |s| < 4 then Decoded(REPLACEMENT, 1)
      else
        var c := Payload4(b, s[1], s[2], s[3]);
        Decoded(if c < 0x10000 then REPLACEMENT else c, 4)
    else Decoded(REPLACEMENT, 1)
  }

  /** `utf8ToCodepoint`: moves the caller's pointer to the last byte of the character. */
  method Utf8ToCodepoint(doc: bytes, s: nat, e: nat) returns (cp: nat, s': nat)
    requires s < e <= |doc|
    ensures s <= s' < e
    ensures Decoded(cp, s' + 1 - s) == DecodeFirst(doc[s..e])
  {
    s' := s;
    var firstByte := doc[s];
    if firstByte < 0x80 {
      return firstByte, s';
    }
    if firstByte < 0xE0 {
      if e - s < 2 {
        return REPLACEMENT, s';
      }
      var calculated := Payload2(firstByte, doc[s + 1]);
      s' := s' + 1;
      return if calculated < 0x80 then REPLACEMENT else calculated, s';
    }
    if firstByte < 0xF0 {
      if e - s < 3 {
        return REPLACEMENT, s';
      }
      var calculated := Payload3(firstByte, doc[s + 1], doc[s + 2]);
      s' := s' + 2;
      if 0xD800 <= calculated <= 0xDFFF {
        return REPLACEMENT, s';
      }
      return if calculated < 0x800 then REPLACEMENT else calculated, s';
    }
    if firstByte < 0xF8 {
      if e - s < 4 {
        return REPLACEMENT, s';
      }
      var calculated := Payload4(firstByte, doc[s + 1], doc[s + 2], doc[s + 3]);
      s' := s' + 3;
      return if calculated < 0x10000 then REPLACEMENT else calculated, s';
    }
    return REPLACEMENT, s';
  }

  // ----- the two undo each other ---------------------------------------------------------------

  /** A tail byte, and a lead byte with prefix `p` and room for `m` payload values, give back
      their payload under the decoder's mask. */
  lemma Mask(b: int, p: int, m: int)
    requires (m == 64 && p == 0x80) || (m == 32 && p == 0xC0) || (m == 16 && p == 0xE0) || (m == 8 && p == 0xF0)
    requires p <= b < p + m
    ensures b % m == b - p
  {
  }

  lemma LastDigit64(q: int, x: int)
    requires 0 <= q && 0 <= x < 64
    ensures (q * 64 + x) / 64 == q && (q * 64 + x) % 64 == x
  {
  }

  lemma QuotientTwice(n: int)
    requires 0 <= n
    ensures n / 4096 == n / 64 / 64
  {
  }

  /** Base-64 digits, most significant first. */
  lemma Digits64(w: int, z: int, y: int, x: int)
    requires 0 <= w && 0 <= z < 64 && 0 <= y < 64 && 0 <= x < 64
    ensures var cp := w * 262144 + z * 4096 + y * 64 + x;
            cp / 262144 == w && cp / 4096 % 64 == z && cp / 64 % 64 == y && cp % 64 == x
            && cp / 4096 == w * 64 + z && cp / 64 == w * 4096 + z * 64 + y
  {
    var cp, c, b := w * 262144 + z * 4096 + y * 64 + x, w * 4096 + z * 64 + y, w * 64 + z;
    LastDigit64(c, x);
    LastDigit64(b, y);
    LastDigit64(w, z);
    QuotientTwice(cp);
    QuotientTwice(c);
    assert cp == c * 64 + x && c == b * 64 + y && b == w * 64 + z;
    assert cp / 262144 == cp / 64 / 4096;
  }

  lemma Recompose(cp: int)
    requires 0 <= cp
    ensures cp == cp / 262144 * 262144 + cp / 4096 % 64 * 4096 + cp / 64 % 64 * 64 + cp % 64
    ensures cp == cp / 4096 * 4096 + cp / 64 % 64 * 64 + cp % 64
    ensures cp == cp / 64 * 64 + cp % 64
  {
  }

  lemma DecodeThenEncode2(s: bytes)
    requires CharLength(s) == 2
    ensures DecodeFirst(s).len == 2 && IsScalar(DecodeFirst(s).cp)
    ensures Encoded(DecodeFirst(s).cp) == s[..2]
  {
    Mask(s[0], 0xC0, 32);
    Mask(s[1], 0x80, 64);
    Digits64(0, 0, s[0] - 0xC0, s[1] - 0x80);
  }

  lemma DecodeThenEncode3(s: bytes)
    requires CharLength(s) == 3
    ensures DecodeFirst(s).len == 3 && IsScalar(DecodeFirst(s).cp)
    ensures Encoded(DecodeFirst(s).cp) == s[..3]
  {
    Mask(s[0], 0xE0, 16);
    Mask(s[1], 0x80, 64);
    Mask(s[2], 0x80, 64);
    Digits64(0, s[0] - 0xE0, s[1] - 0x80, s[2] - 0x80);
  }

  lemma DecodeThenEncode4(s: bytes)
    requires CharLength(s) == 4
    ensures DecodeFirst(s).len == 4 && IsScalar(DecodeFirst(s).cp)
    ensures Encoded(DecodeFirst(s).cp) == s[..4]
  {
    Mask(s[0], 0xF0, 8);
    Mask(s[1], 0x80, 64);
    Mask(s[2], 0x80, 64);
    Mask(s[3], 0x80, 64);
    Digits64(s[0] - 0xF0, s[1] - 0x80, s[2] - 0x80, s[3] - 0x80);
  }

  /** On a well-formed character the decoder takes exactly that character, yields a scalar value,
      and encoding that value gives the character back. */
  lemma DecodeThenEncode(s: bytes)
    requires CharLength(s) > 0
    ensures DecodeFirst(s).len == CharLength(s)
    ensures IsScalar(DecodeFirst(s).cp)
    ensures Encoded(DecodeFirst(s).cp) == s[..CharLength(s)]
  {
    if CharLength(s) == 2 {
      DecodeThenEncode2(s);
    } else if CharLength(s) == 3 {
      DecodeThenEncode3(s);
    } else if CharLength(s) == 4 {
      DecodeThenEncode4(s);
    }
  }

  lemma EncodeThenDecode2(cp: nat, s: bytes)
    requires 0x80 <= cp <= 0x7FF && Encoded(cp) <= s
    ensures CharLength(s) == 2 && DecodeFirst(s) == Decoded(cp, 2)
  {
    assert s[0] == Encoded(cp)[0] && s[1] == Encoded(cp)[1];
    Recompose(cp);
    Mask(s[0], 0xC0, 32);
    Mask(s[1], 0x80, 64);
  }

  lemma EncodeThenDecode3(cp: nat, s: bytes)
    requires 0x7FF < cp <= 0xFFFF && IsScalar(cp) && Encoded(cp) <= s
    ensures CharLength(s) == 3 && DecodeFirst(s) == Decoded(cp, 3)
  {
    assert s[0] == Encoded(cp)[0] && s[1] == Encoded(cp)[1] && s[2] == Encoded(cp)[2];
    Recompose(cp);
    Mask(s[0], 0xE0, 16);
    Mask(s[1], 0x80, 64);
    Mask(s[2], 0x80, 64);
  }

  lemma EncodeThenDecode4(cp: nat, s: bytes)
    requires 0xFFFF < cp <= 0x10FFFF && Encoded(cp) <= s
    ensures CharLength(s) == 4 && DecodeFirst(s) == Decoded(cp, 4)
  {
    assert s[0] == Encoded(cp)[0] && s[1] == Encoded(cp)[1]
           && s[2] == Encoded(cp)[2] && s[3] == Encoded(cp)[3];
    Recompose(cp);
    Mask(s[0], 0xF0, 8);
    Mask(s[1], 0x80, 64);
    Mask(s[2], 0x80, 64);
    Mask(s[3], 0x80, 64);
  }

  /** Encoding a scalar value gives one well-formed character, which decodes to that value,
      whatever follows it. */
  lemma EncodeThenDecode(cp: nat, rest: bytes)
    requires IsScalar(cp)
    ensures CharLength(Encoded(cp) + rest) == |Encoded(cp)| > 0
    ensures DecodeFirst(Encoded(cp) + rest) == Decoded(cp, |Encoded(cp)|)
  {
    if 0x80 <= cp <= 0x7FF {
      EncodeThenDecode2(cp, Encoded(cp) + rest);
    } else if 0x7FF < cp <= 0xFFFF {
      EncodeThenDecode3(cp, Encoded(cp) + rest);
    } else if 0xFFFF < cp {
      EncodeThenDecode4(cp, Encoded(cp) + rest);
    }
  }

  lemma EncodedFrontWellFormed(cp: nat, rest: bytes)
    requires IsScalar(cp) && WellFormed(rest)
    ensures WellFormed(Encoded(cp) + rest)
  {
    EncodeThenDecode(cp, rest);
    assert (Encoded(cp) + rest)[|Encoded(cp)|..] == rest;
  }
}
