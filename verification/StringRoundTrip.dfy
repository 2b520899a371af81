/** What quoting, scanning and decoding promise together: a quoted string is one token, and decoding it
    gives the string back exactly when it can. */
module StringRoundTrip {
  import opened Bytes
  import opened Utf8
  import opened StringCodec

  // ----- one escape ----------------------------------------------------------------------------

  /** The code point the reader sees for an emitted one: twenty bits above the basic plane. */
  function Emitted(cp: nat): (r: nat)
    ensures r <= 0x10FFFF
    ensures cp <= 0x10FFFF ==> r == cp
  {
    if cp < 0x10000 then cp else 0x10000 + (cp - 0x10000) % 0x100000
  }

  /** What one escape decodes to. */
  function UnitMeaning(s: bytes, emitUTF8: bool): bytes
    requires s != []
  {
    if ShortEscape(s[0]).Some? || emitUTF8 then [s[0]] else Encoded(Emitted(DecodeFirst(s).cp))
  }

  /** Decoding what the writer put between the quotes. */
  function Meaning(s: bytes, emitUTF8: bool): bytes
    decreases |s|
  {
    if s == [] then [] else UnitMeaning(s, emitUTF8) + Meaning(s[UnitLength(s, emitUTF8)..], emitUTF8)
  }

  lemma Nibbles(x: nat)
    requires x < 0x10000
    ensures x == x / 4096 % 16 * 4096 + x / 256 % 16 * 256 + x / 16 % 16 * 16 + x % 16
  {
  }

  lemma HexEscapeReads(x: nat, t: bytes)
    requires x < 0x10000
    ensures FourDigits(HexEscape(x)[2..] + t) == HexValue(x)
    ensures forall i :: 1 <= i < 6 ==> HexEscape(x)[i] != QUOTE && HexEscape(x)[i] != BACKSLASH && HexEscape(x)[i] < 0x80
  {
    Nibbles(x);
    var s := HexEscape(x)[2..] + t;
    assert s[0] == HexDigit(x / 4096 % 16) && s[1] == HexDigit(x / 256 % 16);
    assert s[2] == HexDigit(x / 16 % 16) && s[3] == HexDigit(x % 16);
  }

  lemma HexEscapeDecodes(x: nat, t: bytes)
    requires x < 0x10000 && !(0xD800 <= x <= 0xDBFF)
    ensures DecodedBody(HexEscape(x) + t) == Prepend(Encoded(x), DecodedBody(t))
  {
    HexEscapeReads(x, t);
    var s := HexEscape(x) + t;
    assert s[2..] == HexEscape(x)[2..] + t;
    assert s[6..] == t;
  }

  lemma PairJoins(s: bytes, hi: nat, lo: nat)
    requires |s| >= 10 && s[4] == BACKSLASH && s[5] == 0x75
    requires FourDigits(s) == HexValue(hi) && FourDigits(s[6..]) == HexValue(lo)
    requires 0xD800 <= hi <= 0xDBFF && 0xDC00 <= lo <= 0xDFFF
    ensures CodePointAt(s) == CodePoint(0x10000 + (hi - 0xD800) * 1024 + (lo - 0xDC00), 10)
  {
    hide FourDigits;
    assert hi % 1024 == hi - 0xD800 && lo % 1024 == lo - 0xDC00;
  }

  lemma EscapeDecodes(s: bytes, cp: nat, len: nat)
    requires |s| >= 2 && s[0] == BACKSLASH && s[1] == 0x75
    requires CodePointAt(s[2..]) == CodePoint(cp, len)
    ensures 2 + len <= |s| && DecodedBody(s) == Prepend(Encoded(cp), DecodedBody(s[2 + len..]))
  {
  }

  lemma EscapeStart(x: nat)
    ensures |HexEscape(x)| == 6 && HexEscape(x)[0] == BACKSLASH && HexEscape(x)[1] == 0x75
  {
  }

  lemma TwoEscapes(h: bytes, l: bytes, t: bytes)
    requires |h| == 6 && |l| == 6
    ensures var s := h + l + t;
            s[2..] == h[2..] + (l + t) && s[2..][6..] == l[2..] + t && s[12..] == t
            && s[0] == h[0] && s[1] == h[1] && s[2..][4] == l[0] && s[2..][5] == l[1]
  {
  }

  lemma SurrogatePairDecodes(hi: nat, lo: nat, t: bytes)
    requires 0xD800 <= hi <= 0xDBFF && 0xDC00 <= lo <= 0xDFFF
    ensures DecodedBody(HexEscape(hi) + HexEscape(lo) + t)
            == Prepend(Encoded(0x10000 + (hi - 0xD800) * 1024 + (lo - 0xDC00)), DecodedBody(t))
  {
    hide HexEscape, DecodedBody, FourDigits, CodePointAt, Encoded;
    var h, l := HexEscape(hi), HexEscape(lo);
    EscapeStart(hi);
    EscapeStart(lo);
    TwoEscapes(h, l, t);
    HexEscapeReads(hi, l + t);
    HexEscapeReads(lo, t);
    PairJoins((h + l + t)[2..], hi, lo);
    EscapeDecodes(h + l + t, 0x10000 + (hi - 0xD800) * 1024 + (lo - 0xDC00), 10);
  }

  /** The surrogates of a supplementary code point carry its low twenty bits. */
  lemma TwentyBits(cp: nat)
    requires cp >= 0x10000
    ensures 0x10000 + (HighSurrogate(cp) - 0xD800) * 1024 + (LowSurrogate(cp) - 0xDC00) == Emitted(cp)
  {
    var c := cp - 0x10000;
    assert c % 0x100000 == c / 1024 % 1024 * 1024 + c % 1024;
  }

  lemma AsciiDecodes(cp: nat, t: bytes)
    requires 0x20 <= cp < 0x80 && cp != QUOTE && cp != BACKSLASH
    ensures DecodedBody(EscapeCodePoint(cp) + t) == Prepend(Encoded(Emitted(cp)), DecodedBody(t))
  {
    hide HexEscape, FourDigits, CodePointAt;
    assert ([cp as byte] + t)[1..] == t;
  }

  lemma SupplementaryDecodes(cp: nat, t: bytes)
    requires 0x10000 <= cp < 0x200000
    ensures DecodedBody(EscapeCodePoint(cp) + t) == Prepend(Encoded(Emitted(cp)), DecodedBody(t))
  {
    hide HexEscape, HighSurrogate, LowSurrogate, DecodedBody, Encoded, Emitted;
    TwentyBits(cp);
    SurrogatePairDecodes(HighSurrogate(cp), LowSurrogate(cp), t);
  }

  lemma CodePointDecodes(cp: nat, t: bytes)
    requires cp < 0x200000 && !(0xD800 <= cp <= 0xDFFF) && cp != QUOTE && cp != BACKSLASH
    ensures DecodedBody(EscapeCodePoint(cp) + t) == Prepend(Encoded(Emitted(cp)), DecodedBody(t))
  {
    hide HexEscape, HighSurrogate, LowSurrogate, DecodedBody, Encoded;
    if cp < 0x20 || 0x80 <= cp < 0x10000 {
      HexEscapeDecodes(cp, t);
    } else if cp < 0x80 {
      AsciiDecodes(cp, t);
    } else {
      SupplementaryDecodes(cp, t);
    }
  }

  lemma UnitDecodes(s: bytes, emitUTF8: bool, t: bytes)
    requires s != []
    ensures DecodedBody(Unit(s, emitUTF8) + t) == Prepend(UnitMeaning(s, emitUTF8), DecodedBody(t))
  {
    if ShortEscape(s[0]).Some? {
      assert (Unit(s, emitUTF8) + t)[2..] == t;
    } else if emitUTF8 {
      if s[0] < 0x20 {
        HexEscapeDecodes(s[0], t);
      } else {
        assert ([s[0]] + t)[1..] == t;
      }
    } else {
      CodePointDecodes(DecodeFirst(s).cp, t);
    }
  }

  // ----- strings of section 7 of RFC 8259 ----------------------------------------------------------

  /** One of the eight characters that a backslash makes a two-character escape with. */
  predicate IsEscapeLetter(c: byte) {
    c == QUOTE || c == BACKSLASH || c == SLASH || c == 0x62 || c == 0x66 || c == 0x6E || c == 0x72 || c == 0x74
  }

  /** How long the escape or the unescaped byte at the front is; none where neither is legal. */
  function CharSize(b: bytes): (n: nat)
    ensures n <= |b|
  {
    if b == [] || b[0] < 0x20 || b[0] == QUOTE then 0
    else if b[0] != BACKSLASH then 1
    else if |b| >= 2 && IsEscapeLetter(b[1]) then 2
    else if |b| >= 6 && b[1] == 0x75 && FourDigits(b[2..]).HexValue? then 6
    else 0
  }

  /** Between the quotes there are only legal escapes, and no raw control byte, quote or backslash. */
  predicate LegalChars(b: bytes)
    decreases |b|
  {
    b == [] || (CharSize(b) > 0 && LegalChars(b[CharSize(b)..]))
  }

  predicate LegalString(s: bytes) {
    |s| >= 2 && s[0] == QUOTE && s[|s| - 1] == QUOTE && LegalChars(s[1..|s| - 1])
  }

  lemma CharSizeFront(a: bytes, b: bytes)
    requires CharSize(a) > 0
    ensures CharSize(a + b) == CharSize(a)
  {
    if a[0] == BACKSLASH && |a| >= 6 {
      assert (a + b)[2..] == a[2..] + b;
    }
  }

  lemma {:induction false} LegalAppend(a: bytes, b: bytes)
    requires LegalChars(a) && LegalChars(b)
    ensures LegalChars(a + b)
    decreases |a|
  {
    hide CharSize;
    if a == [] {
      assert a + b == b;
    } else {
      var n := CharSize(a);
      CharSizeFront(a, b);
      assert (a + b)[n..] == a[n..] + b;
      LegalAppend(a[n..], b);
    }
  }

  lemma {:induction false} PlainScans(p: bytes, t: bytes)
    requires forall i :: 0 <= i < |p| ==> p[i] != QUOTE && p[i] != BACKSLASH
    ensures ScanString(p + t, QUOTE) == ScanString(t, QUOTE)
  {
    if p == [] {
      assert p + t == t;
    } else {
      assert (p + t)[1..] == p[1..] + t;
      PlainScans(p[1..], t);
    }
  }

  lemma CharScans(b: bytes, t: bytes)
    requires CharSize(b) > 0
    ensures ScanString(b + t, QUOTE) == ScanString(b[CharSize(b)..] + t, QUOTE)
  {
    var n := CharSize(b);
    if n == 1 {
      assert (b + t)[1..] == b[1..] + t;
    } else {
      assert (b + t)[2..] == b[2..] + t;
      if n == 6 {
        HexDigitsArePlain(b[2..]);
        PlainScans(b[2..6], b[6..] + t);
        assert b[2..] + t == b[2..6] + (b[6..] + t);
      }
    }
  }

  lemma HexDigitsArePlain(s: bytes)
    requires FourDigits(s).HexValue?
    ensures forall i :: 0 <= i < 4 ==> s[i] != QUOTE && s[i] != BACKSLASH
  {
  }

  /** Scanning passes over a legal body. */
  lemma {:induction false} LegalScans(b: bytes, t: bytes)
    requires LegalChars(b)
    ensures ScanString(b + t, QUOTE) == ScanString(t, QUOTE)
    decreases |b|
  {
    hide CharSize, StringCodec.ScanString;
    if b == [] {
      assert b + t == t;
    } else {
      CharScans(b, t);
      LegalScans(b[CharSize(b)..], t);
    }
  }

  lemma HexEscapeIsLegal(x: nat)
    requires x < 0x10000
    ensures LegalChars(HexEscape(x))
  {
    hide HexEscape;
    EscapeStart(x);
    HexEscapeReads(x, []);
    var e := HexEscape(x);
    assert e[2..] + [] == e[2..];
    assert CharSize(e) == 6 && e[6..] == [];
  }

  lemma CodePointIsLegal(cp: nat)
    requires cp != QUOTE && cp != BACKSLASH
    ensures LegalChars(EscapeCodePoint(cp))
  {
    hide HexEscape, LegalChars;
    if cp < 0x20 || 0x80 <= cp < 0x10000 {
      HexEscapeIsLegal(cp);
    } else if cp < 0x80 {
      OneByteIsLegal(cp);
    } else {
      HexEscapeIsLegal(HighSurrogate(cp));
      HexEscapeIsLegal(LowSurrogate(cp));
      LegalAppend(HexEscape(HighSurrogate(cp)), HexEscape(LowSurrogate(cp)));
    }
  }

  lemma OneByteIsLegal(c: byte)
    requires c >= 0x20 && c != QUOTE && c != BACKSLASH
    ensures LegalChars([c])
  {
    assert CharSize([c]) == 1 && [c][1..] == [];
  }

  lemma NothingIsLegal()
    ensures LegalChars([])
  {
  }

  lemma ShortEscapeIsLegal(c: byte)
    requires ShortEscape(c).Some?
    ensures LegalChars([BACKSLASH, ShortEscape(c).value])
  {
    var e := [BACKSLASH, ShortEscape(c).value];
    assert CharSize(e) == 2 && e[2..] == [];
  }

  lemma UnitIsLegal(s: bytes, emitUTF8: bool)
    requires s != []
    ensures LegalChars(Unit(s, emitUTF8))
  {
    hide HexEscape, LegalChars, EscapeCodePoint;
    if ShortEscape(s[0]).Some? {
      ShortEscapeIsLegal(s[0]);
    } else if emitUTF8 {
      if s[0] < 0x20 {
        HexEscapeIsLegal(s[0]);
      } else {
        OneByteIsLegal(s[0]);
      }
    } else {
      CodePointIsLegal(DecodeFirst(s).cp);
    }
  }

  // ----- whole strings ---------------------------------------------------------------------------

  lemma {:induction false} BodyIsLegal(s: bytes, emitUTF8: bool)
    ensures LegalChars(Body(s, emitUTF8))
    decreases |s|
  {
    hide Unit, UnitLength, LegalChars;
    if s == [] {
      NothingIsLegal();
    } else {
      UnitIsLegal(s, emitUTF8);
      BodyIsLegal(s[UnitLength(s, emitUTF8)..], emitUTF8);
      LegalAppend(Unit(s, emitUTF8), Body(s[UnitLength(s, emitUTF8)..], emitUTF8));
    }
  }

  /** What the writer quotes is a string of RFC 8259, for every byte string. */
  lemma QuotedIsLegal(s: bytes, emitUTF8: bool)
    ensures LegalString(Quoted(s, emitUTF8))
  {
    hide LegalChars;
    BodyIsLegal(s, emitUTF8);
    assert Quoted(s, emitUTF8)[1..|Quoted(s, emitUTF8)| - 1] == Body(s, emitUTF8);
  }

  /** For every byte string, scanning from after the opening quote stops exactly at the closing one. */
  lemma QuotedIsOneToken(s: bytes, emitUTF8: bool, t: bytes)
    ensures ScanString(Body(s, emitUTF8) + ([QUOTE] + t), QUOTE) == Scan(true, t)
  {
    hide LegalChars;
    BodyIsLegal(s, emitUTF8);
    LegalScans(Body(s, emitUTF8), [QUOTE] + t);
  }

  lemma UnitIsAscii(s: bytes)
    requires s != []
    ensures forall i :: 0 <= i < |Unit(s, false)| ==> Unit(s, false)[i] < 0x80
  {
    if ShortEscape(s[0]).None? {
      var cp := DecodeFirst(s).cp;
      if cp < 0x10000 {
        HexEscapeReads(cp, []);
      } else {
        HexEscapeReads(HighSurrogate(cp), []);
        HexEscapeReads(LowSurrogate(cp), []);
      }
    }
  }

  /** Without `emitUTF8` the quoted form of any byte string is pure ASCII. */
  lemma {:induction false} QuotedIsAscii(s: bytes)
    ensures forall i :: 0 <= i < |Quoted(s, false)| ==> Quoted(s, false)[i] < 0x80
    decreases |s|
  {
    if s != [] {
      var rest := s[UnitLength(s, false)..];
      QuotedIsAscii(rest);
      UnitIsAscii(s);
      forall i | 0 <= i < |Body(rest, false)| ensures Body(rest, false)[i] < 0x80 {
        assert Quoted(rest, false)[i + 1] < 0x80;
      }
    }
  }

  lemma {:induction false} BodyDecodes(s: bytes, emitUTF8: bool)
    ensures DecodedBody(Body(s, emitUTF8)) == Text(Meaning(s, emitUTF8))
    decreases |s|
  {
    if s != [] {
      var rest := s[UnitLength(s, emitUTF8)..];
      BodyDecodes(rest, emitUTF8);
      UnitDecodes(s, emitUTF8, Body(rest, emitUTF8));
    }
  }

  lemma {:induction false} MeaningOfRaw(s: bytes)
    ensures Meaning(s, true) == s
    decreases |s|
  {
    if s != [] {
      MeaningOfRaw(s[1..]);
    }
  }

  lemma EmittedIsScalar(s: bytes)
    requires s != []
    ensures IsScalar(Emitted(DecodeFirst(s).cp))
  {
  }

  lemma {:induction false} MeaningWellFormed(s: bytes)
    ensures WellFormed(Meaning(s, false))
    decreases |s|
  {
    if s != [] {
      var rest := s[UnitLength(s, false)..];
      MeaningWellFormed(rest);
      if ShortEscape(s[0]).Some? {
        assert [s[0]] == Encoded(s[0]);
        EncodedFrontWellFormed(s[0], Meaning(rest, false));
      } else {
        EmittedIsScalar(s);
        EncodedFrontWellFormed(Emitted(DecodeFirst(s).cp), Meaning(rest, false));
      }
    }
  }

  lemma {:induction false} MeaningOfWellFormed(s: bytes)
    requires WellFormed(s)
    ensures Meaning(s, false) == s
    decreases |s|
  {
    if s != [] {
      DecodeThenEncode(s);
      assert UnitLength(s, false) == CharLength(s);
      MeaningOfWellFormed(s[CharLength(s)..]);
    }
  }

  /** With `emitUTF8`, decoding a quoted string gives it back, for every byte string. */
  lemma RoundTripRaw(s: bytes)
    ensures DecodedToken(Quoted(s, true)) == Text(s)
  {
    BodyDecodes(s, true);
    MeaningOfRaw(s);
    assert Quoted(s, true)[1..|Quoted(s, true)| - 1] == Body(s, true);
  }

  /** Without it, decoding always succeeds with some well-formed string, and gives the input back
      exactly when the input was well-formed UTF-8. */
  lemma RoundTripEscaped(s: bytes)
    ensures DecodedToken(Quoted(s, false)).Text?
    ensures WellFormed(DecodedToken(Quoted(s, false)).text)
    ensures DecodedToken(Quoted(s, false)) == Text(s) <==> WellFormed(s)
  {
    BodyDecodes(s, false);
    MeaningWellFormed(s);
    if WellFormed(s) {
      MeaningOfWellFormed(s);
    }
    assert Quoted(s, false)[1..|Quoted(s, false)| - 1] == Body(s, false);
  }

  // ----- escapes the writer does not emit ------------------------------------------------------------

  /** A letter of the alphabet in lower case; any other byte as it is. */
  function Lower(c: byte): byte {
    if 0x41 <= c <= 0x5A then c + 0x20 else c
  }

  const LOWER_DIGITS := "0123456789abcdef"
  const UPPER_DIGITS := "0123456789ABCDEF"

  /** Is the byte the hexadecimal digit of this value, in either case? */
  predicate Denotes(c: byte, d: nat)
    requires d < 16
  {
    c == LOWER_DIGITS[d] as int || c == UPPER_DIGITS[d] as int
  }

  lemma DigitIs(c: byte, d: nat)
    requires d < 16
    ensures HexDigitValue(c) == Some(d) <==> Denotes(c, d)
    ensures HexDigitValue(c) == Some(d) <==> Lower(c) == HexDigit(d)
  {
  }

  lemma DigitsAreUnique(a: nat, b: nat, c: nat, d: nat, p: nat, q: nat, r: nat, s: nat)
    requires a < 16 && b < 16 && c < 16 && d < 16 && p < 16 && q < 16 && r < 16 && s < 16
    requires a * 4096 + b * 256 + c * 16 + d == p * 4096 + q * 256 + r * 16 + s
    ensures a == p && b == q && c == r && d == s
  {
  }

  lemma DigitIsSmall(c: byte)
    ensures HexDigitValue(c).Some? ==> HexDigitValue(c).value < 16
  {
  }

  /** Four characters are read as the number whose digits in base sixteen they are, whatever the case of each letter. */
  lemma FourDigitsAre(s: bytes, x: nat)
    requires |s| >= 4 && x < 0x10000
    ensures FourDigits(s) == HexValue(x)
            <==> Denotes(s[0], x / 4096 % 16) && Denotes(s[1], x / 256 % 16) && Denotes(s[2], x / 16 % 16)
                 && Denotes(s[3], x % 16)
    ensures FourDigits(s) == HexValue(x) <==> forall i :: 0 <= i < 4 ==> Lower(s[i]) == HexEscape(x)[2 + i]
  {
    hide HexDigitValue, Denotes, HexDigit, Lower;
    var ds := [x / 4096 % 16, x / 256 % 16, x / 16 % 16, x % 16];
    Nibbles(x);
    forall i | 0 <= i < 4
      ensures HexDigitValue(s[i]) == Some(ds[i]) <==> Denotes(s[i], ds[i])
      ensures HexDigitValue(s[i]) == Some(ds[i]) <==> Lower(s[i]) == HexEscape(x)[2 + i]
      ensures HexDigitValue(s[i]).Some? ==> HexDigitValue(s[i]).value < 16
    {
      DigitIs(s[i], ds[i]);
      DigitIsSmall(s[i]);
    }
    if FourDigits(s) == HexValue(x) {
      DigitsAreUnique(ds[0], ds[1], ds[2], ds[3], HexDigitValue(s[0]).value, HexDigitValue(s[1]).value,
                      HexDigitValue(s[2]).value, HexDigitValue(s[3]).value);
    }
  }

  lemma CaseChangesNoDigit(a: byte, b: byte)
    requires Lower(a) == Lower(b)
    ensures HexDigitValue(a) == HexDigitValue(b)
  {
  }

  lemma CaseChangesNoNumber(a: bytes, b: bytes)
    requires |a| == |b| && forall i :: 0 <= i < 4 && i < |a| ==> Lower(a[i]) == Lower(b[i])
    ensures FourDigits(a) == FourDigits(b)
  {
    hide HexDigitValue, Lower;
    if |a| >= 4 {
      CaseChangesNoDigit(a[0], b[0]);
      CaseChangesNoDigit(a[1], b[1]);
      CaseChangesNoDigit(a[2], b[2]);
      CaseChangesNoDigit(a[3], b[3]);
    }
  }

  /** Two bodies of legal characters that differ at most in the case of the hexadecimal letters of their escapes. */
  predicate SameButForHexCase(a: bytes, b: bytes)
    decreases |a|
  {
    |a| == |b|
    && (a == [] || (CharSize(a) > 0 && SameChar(a, b) && SameButForHexCase(a[CharSize(a)..], b[CharSize(a)..])))
  }

  predicate SameChar(a: bytes, b: bytes)
    requires |a| == |b|
  {
    if CharSize(a) == 6 then a[..2] == b[..2] && forall i :: 2 <= i < 6 ==> Lower(a[i]) == Lower(b[i])
    else a[..CharSize(a)] == b[..CharSize(a)]
  }

  lemma SameSize(a: bytes, b: bytes)
    requires |a| == |b| && CharSize(a) > 0 && SameChar(a, b)
    ensures CharSize(b) == CharSize(a)
  {
    hide FourDigits, Lower;
    assert b[0] == a[..CharSize(a)][0] || CharSize(a) == 6;
    if CharSize(a) == 6 {
      assert b[0] == b[..2][0] == a[0] && b[1] == b[..2][1] == a[1];
      CaseChangesNoNumber(a[2..], b[2..]);
    } else {
      assert b[0] == b[..CharSize(a)][0] == a[0];
      if CharSize(a) == 2 {
        assert b[1] == b[..2][1] == a[1];
      }
    }
  }

  /** What an escape stands for does not depend on the case of its letters, nor on that of the escape it is joined
      with. */
  lemma SameCodePoint(a: bytes, b: bytes)
    requires SameButForHexCase(a, b) && CharSize(a) == 6
    ensures CodePointAt(a[2..]) == CodePointAt(b[2..])
  {
    hide FourDigits, Lower, SameButForHexCase;
    Unfold(a, b);
    CaseChangesNoNumber(a[2..], b[2..]);
    if |a| > 6 {
      Unfold(a[6..], b[6..]);
      SecondEscape(a[6..], b[6..]);
      assert a[2..][4] == a[6..][0] && b[2..][4] == b[6..][0];
      if |a| >= 12 {
        assert a[2..][5] == a[6..][1] && b[2..][5] == b[6..][1];
        assert a[2..][6..] == a[6..][2..] && b[2..][6..] == b[6..][2..];
      }
    }
  }

  lemma Unfold(a: bytes, b: bytes)
    requires SameButForHexCase(a, b) && a != []
    ensures |a| == |b| && CharSize(a) > 0 && SameChar(a, b) && SameButForHexCase(a[CharSize(a)..], b[CharSize(a)..])
  {
  }

  /** The first two bytes agree, and the number that follows them when they start an escape. */
  lemma SecondEscape(a: bytes, b: bytes)
    requires |a| == |b| && CharSize(a) > 0 && SameChar(a, b)
    ensures a[0] == b[0]
    ensures a[0] == BACKSLASH ==> |a| >= 2 && a[1] == b[1]
    ensures a[0] == BACKSLASH && a[1] == 0x75 ==> FourDigits(a[2..]) == FourDigits(b[2..])
  {
    hide FourDigits, Lower;
    if CharSize(a) == 6 {
      assert b[0] == b[..2][0] == a[0] && b[1] == b[..2][1] == a[1];
      CaseChangesNoNumber(a[2..], b[2..]);
    } else {
      assert b[0] == b[..CharSize(a)][0] == a[0];
      if CharSize(a) == 2 {
        assert b[1] == b[..2][1] == a[1];
      }
    }
  }

  lemma SizeIs(b: bytes)
    requires CharSize(b) > 0
    ensures b[0] != QUOTE && CharSize(b) in {1, 2, 6}
    ensures CharSize(b) == 1 <==> b[0] != BACKSLASH
    ensures CharSize(b) == 2 ==> IsEscapeLetter(b[1])
    ensures CharSize(b) == 6 ==> b[1] == 0x75 && FourDigits(b[2..]).HexValue?
  {
  }

  /** After a joined pair of escapes the bodies still agree. */
  lemma PairAgrees(a: bytes, b: bytes)
    requires SameButForHexCase(a, b) && CharSize(a) == 6 && CodePointAt(a[2..]).CodePoint?
    ensures var n := 2 + CodePointAt(a[2..]).len; 6 <= n <= |a| && SameButForHexCase(a[n..], b[n..])
  {
    hide Lower, SameButForHexCase, FourDigits;
    Unfold(a, b);
    if CodePointAt(a[2..]).len != 4 {
      Unfold(a[6..], b[6..]);
      SizeIs(a[6..]);
      assert a[6..][0] == a[2..][4] == BACKSLASH && a[6..][1] == a[2..][5] == 0x75;
      assert CharSize(a[6..]) == 6 && a[6..][6..] == a[12..] && b[6..][6..] == b[12..];
    }
  }

  /** Changing the case of the letters in the escapes of a legal string keeps it legal and does not change what it
      decodes to, or the error it ends with. */
  lemma {:induction false} HexCaseDoesNotMatter(a: bytes, b: bytes)
    requires SameButForHexCase(a, b)
    ensures LegalChars(a) && LegalChars(b) && DecodedBody(a) == DecodedBody(b)
    decreases |a|
  {
    hide FourDigits, Lower, CharSize, CodePointAt, SameChar;
    if a != [] {
      Unfold(a, b);
      var n := CharSize(a);
      SameSize(a, b);
      SecondEscape(a, b);
      SizeIs(a);
      HexCaseDoesNotMatter(a[n..], b[n..]);
      if n == 6 {
        SameCodePoint(a, b);
        if CodePointAt(a[2..]).CodePoint? {
          PairAgrees(a, b);
          var len := CodePointAt(a[2..]).len;
          HexCaseDoesNotMatter(a[2 + len..], b[2 + len..]);
        }
      }
    }
  }

  /** The same for string tokens. */
  lemma TokenCaseDoesNotMatter(a: bytes, b: bytes)
    requires LegalString(a) && |a| == |b| && a[0] == b[0] && a[|a| - 1] == b[|b| - 1]
    requires SameButForHexCase(a[1..|a| - 1], b[1..|b| - 1])
    ensures LegalString(b) && DecodedToken(a) == DecodedToken(b)
  {
    HexCaseDoesNotMatter(a[1..|a| - 1], b[1..|b| - 1]);
  }

  lemma LetterDecodes(letter: byte, t: bytes)
    requires EscapedByte(letter).Some?
    ensures DecodedBody([0x5C, letter] + t) == Prepend([EscapedByte(letter).value], DecodedBody(t))
  {
    hide EscapedByte, CodePointAt;
    assert ([0x5C, letter] + t)[2..] == t;
  }

  /** The eight escapes of one letter, wherever they stand, with the bytes they stand for. */
  lemma LettersDecode(t: bytes)
    ensures DecodedBody([0x5C, 0x22] + t) == Prepend([0x22], DecodedBody(t))
    ensures DecodedBody([0x5C, 0x5C] + t) == Prepend([0x5C], DecodedBody(t))
    ensures DecodedBody([0x5C, 0x2F] + t) == Prepend([0x2F], DecodedBody(t))
    ensures DecodedBody([0x5C, 0x62] + t) == Prepend([0x08], DecodedBody(t))
    ensures DecodedBody([0x5C, 0x66] + t) == Prepend([0x0C], DecodedBody(t))
    ensures DecodedBody([0x5C, 0x6E] + t) == Prepend([0x0A], DecodedBody(t))
    ensures DecodedBody([0x5C, 0x72] + t) == Prepend([0x0D], DecodedBody(t))
    ensures DecodedBody([0x5C, 0x74] + t) == Prepend([0x09], DecodedBody(t))
  {
    hide DecodedBody;
    LetterDecodes(0x22, t);
    LetterDecodes(0x5C, t);
    LetterDecodes(0x2F, t);
    LetterDecodes(0x62, t);
    LetterDecodes(0x66, t);
    LetterDecodes(0x6E, t);
    LetterDecodes(0x72, t);
    LetterDecodes(0x74, t);
  }

  /** The string token of an escaped slash decodes to the one byte 0x2F. */
  lemma SlashDecodes()
    ensures DecodedToken([0x22, 0x5C, 0x2F, 0x22]) == Text([0x2F])
  {
    var token: bytes := [0x22, 0x5C, 0x2F, 0x22];
    assert token[1..3] == [0x5C, 0x2F] + [];
    LettersDecode([]);
  }
}
