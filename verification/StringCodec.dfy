/** Quoting a byte string (json_writer.cpp), scanning it as a token and decoding it again (json_reader.cpp). */
module StringCodec {
  import opened Bytes
  import opened ReaderErrors
  import opened Utf8

  // ----- quoting -------------------------------------------------------------------------------

  /** The letter of a two-character escape, for the bytes that have one. */
  function ShortEscape(c: byte): Option<byte> {
    if c == QUOTE then Some(QUOTE)
    else if c == BACKSLASH then Some(BACKSLASH)
    else if c == BACKSPACE then Some(0x62)
    else if c == FORMFEED then Some(0x66)
    else if c == LF then Some(0x6E)
    else if c == CR then Some(0x72)
    else if c == TAB then Some(0x74)
    else None
  }

  /** Lower-case hexadecimal digits, as in the `hex2` table. */
  function HexDigit(d: int): byte
    requires 0 <= d < 16
  {
    if d < 10 then ZERO + d else 0x57 + d
  }

  /** A backslash, the letter u and the low sixteen bits of `x` in four hexadecimal digits. */
  function HexEscape(x: nat): bytes {
    [BACKSLASH, 0x75, HexDigit(x / 4096 % 16), HexDigit(x / 256 % 16), HexDigit(x / 16 % 16), HexDigit(x % 16)]
  }

  function HighSurrogate(cp: nat): (r: nat)
    requires cp >= 0x10000
    ensures 0xD800 <= r <= 0xDBFF
  {
    0xD800 + (cp - 0x10000) / 1024 % 1024
  }

  function LowSurrogate(cp: nat): (r: nat)
    requires cp >= 0x10000
    ensures 0xDC00 <= r <= 0xDFFF
  {
    0xDC00 + (cp - 0x10000) % 1024
  }

  /** The escape of a code point; above the Basic Multilingual Plane, its low twenty bits as a surrogate pair. */
  function EscapeCodePoint(cp: nat): bytes {
    if cp < 0x20 then HexEscape(cp)
    else if cp < 0x80 then [cp]
    else if cp < 0x10000 then HexEscape(cp)
    else HexEscape(HighSurrogate(cp)) + HexEscape(LowSurrogate(cp))
  }

  /** How many bytes of `s` the writer's loop turns into one escape. */
  function UnitLength(s: bytes, emitUTF8: bool): (n: nat)
    requires s != []
    ensures 1 <= n <= |s|
  {
    if ShortEscape(s[0]).Some? || emitUTF8 then 1 else DecodeFirst(s).len
  }

  /** What the writer's loop appends for the front of `s`. */
  function Unit(s: bytes, emitUTF8: bool): bytes
    requires s != []
  {
    if ShortEscape(s[0]).Some? then [BACKSLASH, ShortEscape(s[0]).value]
    else if emitUTF8 then (if s[0] < 0x20 then HexEscape(s[0]) else [s[0]])
    else EscapeCodePoint(DecodeFirst(s).cp)
  }

  /** The text between the quotes. */
  function Body(s: bytes, emitUTF8: bool): bytes
    decreases |s|
  {
    if s == [] then [] else Unit(s, emitUTF8) + Body(s[UnitLength(s, emitUTF8)..], emitUTF8)
  }

  function Quoted(s: bytes, emitUTF8: bool): bytes {
    [QUOTE] + Body(s, emitUTF8) + [QUOTE]
  }

  predicate RequiresEscaping(c: byte) {
    c == BACKSLASH || c == QUOTE || c < 0x20 || c > 0x7F
  }

  lemma {:induction false} PlainBody(s: bytes, emitUTF8: bool)
    requires forall i :: 0 <= i < |s| ==> !RequiresEscaping(s[i])
    ensures Body(s, emitUTF8) == s
  {
    if s != [] {
      assert !RequiresEscaping(s[0]);
      PlainBody(s[1..], emitUTF8);
    }
  }

  method DoesAnyCharRequireEscaping(s: bytes) returns (r: bool)
    ensures r <==> exists i :: 0 <= i < |s| && RequiresEscaping(s[i])
  {
    for i := 0 to |s|
      invariant forall j :: 0 <= j < i ==> !RequiresEscaping(s[j])
    {
      if RequiresEscaping(s[i]) {
        return true;
      }
    }
    return false;
  }

  /** The cascade over the size of a code point in the writer's loop. */
  method AppendCodePoint(front: bytes, cp: nat) returns (result: bytes)
    ensures result == front + EscapeCodePoint(cp)
  {
    var codepoint := cp;
    result := front;
    if codepoint < 0x20 {
      result := result + HexEscape(codepoint);
    } else if codepoint < 0x80 {
      result := result + [codepoint];
    } else if codepoint < 0x10000 {
      result := result + HexEscape(codepoint);
    } else {
      codepoint := codepoint - 0x10000;
      result := result + HexEscape(0xD800 + codepoint / 1024 % 1024);
      result := result + HexEscape(0xDC00 + codepoint % 1024);
    }
  }

  /** One round of the writer's loop: escapes what starts at `c` and leaves `c` on its last byte. */
  method AppendUnit(front: bytes, value: bytes, c: nat, emitUTF8: bool) returns (result: bytes, c': nat)
    requires c < |value|
    ensures c <= c' < |value|
    ensures result == front + Unit(value[c..], emitUTF8)
    ensures c' + 1 == c + UnitLength(value[c..], emitUTF8)
  {
    hide Utf8.DecodeFirst, EscapeCodePoint, HexEscape;
    var ch := value[c];
    c' := c;
    if ShortEscape(ch).Some? {
      result := front + [BACKSLASH, ShortEscape(ch).value];
    } else if emitUTF8 {
      result := front + if ch < 0x20 then HexEscape(ch) else [ch];
    } else {
      assert value[c..|value|] == value[c..];
      var codepoint;
      codepoint, c' := Utf8ToCodepoint(value, c, |value|);
      result := AppendCodePoint(front, codepoint);
    }
  }

  lemma BodyStep(front: bytes, value: bytes, c: nat, emitUTF8: bool)
    requires c < |value|
    ensures var s := value[c..];
            c + UnitLength(s, emitUTF8) <= |value|
            && front + Unit(s, emitUTF8) + Body(value[c + UnitLength(s, emitUTF8)..], emitUTF8)
               == front + Body(s, emitUTF8)
  {
    hide Unit, UnitLength;
    var s := value[c..];
    SuffixOfSuffix(value, c, UnitLength(s, emitUTF8));
    var u, rest := Unit(s, emitUTF8), Body(s[UnitLength(s, emitUTF8)..], emitUTF8);
    assert front + u + rest == front + (u + rest);
  }

  /** `valueToQuotedStringN`, with its shortcut for strings that need no escape. */
  method ValueToQuotedStringN(value: bytes, emitUTF8: bool) returns (result: bytes)
    ensures result == Quoted(value, emitUTF8)
  {
    hide Unit, UnitLength;
    var needed := DoesAnyCharRequireEscaping(value);
    if !needed {
      PlainBody(value, emitUTF8);
      return [QUOTE] + value + [QUOTE];
    }
    result := [QUOTE];
    var c, end := 0, |value|;
    while c != end
      invariant 0 <= c <= end
      invariant result + Body(value[c..], emitUTF8) == [QUOTE] + Body(value, emitUTF8)
    {
      BodyStep(result, value, c, emitUTF8);
      result, c := AppendUnit(result, value, c, emitUTF8);
      c := c + 1;
    }
    assert value[|value|..] == [] && value[0..] == value;
    result := result + [QUOTE];
  }

  // ----- scanning ------------------------------------------------------------------------------

  /** Whether a scan succeeded, and the input left after it. */
  datatype Scan = Scan(ok: bool, rest: bytes)

  /** `readString`: from just after the opening quote `q` to just after the closing one. */
  function ScanString(s: bytes, q: byte): (r: Scan)
    ensures |r.rest| <= |s|
    ensures r.ok ==> |r.rest| < |s|
    decreases |s|
  {
    if s == [] then Scan(false, [])
    else if s[0] == BACKSLASH then (if |s| == 1 then Scan(false, []) else ScanString(s[2..], q))
    else if s[0] == q then Scan(true, s[1..])
    else ScanString(s[1..], q)
  }

  lemma ScanStep(s: bytes, q: byte)
    requires q != BACKSLASH
    ensures s == [] || s == [BACKSLASH] ==> ScanString(s, q) == Scan(false, [])
    ensures |s| > 1 && s[0] == BACKSLASH ==> ScanString(s, q) == ScanString(s[2..], q)
    ensures s != [] && s[0] == q ==> ScanString(s, q) == Scan(true, s[1..])
    ensures s != [] && s[0] != q && s[0] != BACKSLASH ==> ScanString(s, q) == ScanString(s[1..], q)
  {
  }

  // ----- decoding ------------------------------------------------------------------------------

  datatype Hex = HexValue(value: nat) | NoHex(error: ErrorKind)

  function HexDigitValue(c: byte): Option<nat> {
    if ZERO <= c <= NINE then Some(c - ZERO)
    else if 0x61 <= c <= 0x66 then Some(c - 0x61 + 10)
    else if 0x41 <= c <= 0x46 then Some(c - 0x41 + 10)
    else None
  }

  /** The value of the four hexadecimal digits at the front of `s`. */
  function FourDigits(s: bytes): (h: Hex)
    ensures h.HexValue? ==> |s| >= 4 && h.value < 0x10000
  {
    if |s| < 4 then NoHex(FourDigitsExpected)
    else
      match (HexDigitValue(s[0]), HexDigitValue(s[1]), HexDigitValue(s[2]), HexDigitValue(s[3]))
      case (Some(a), Some(b), Some(c), Some(d)) => HexValue(a * 4096 + b * 256 + c * 16 + d)
      case _ => NoHex(HexDigitExpected)
  }

  /** `decodeUnicodeEscapeSequence`: reads four digits at `current` and moves it. */
  method DecodeUnicodeEscapeSequence(doc: bytes, current: nat, end: nat) returns (h: Hex, current': nat)
    requires current <= end <= |doc|
    ensures h == FourDigits(doc[current..end])
    ensures current <= current' <= end
    ensures h.HexValue? ==> current' == current + 4
  {
    current' := current;
    if end - current < 4 {
      return NoHex(FourDigitsExpected), current';
    }
    var unicode := 0;
    ghost var s := doc[current..end];
    for index := 0 to 4
      invariant current' == current + index
      invariant forall i :: 0 <= i < index ==> HexDigitValue(s[i]).Some?
      invariant index >= 1 ==> 0 <= HexDigitValue(s[0]).value < 16
      invariant unicode == if index == 0 then 0
                           else if index == 1 then HexDigitValue(s[0]).value
                           else if index == 2 then HexDigitValue(s[0]).value * 16 + HexDigitValue(s[1]).value
                           else if index == 3 then HexDigitValue(s[0]).value * 256 + HexDigitValue(s[1]).value * 16
                                                   + HexDigitValue(s[2]).value
                           else FourDigits(s).value
    {
      var c := doc[current'];
      assert c == s[index];
      current' := current' + 1;
      unicode := unicode * 16;
      if HexDigitValue(c).None? {
        return NoHex(HexDigitExpected), current';
      }
      unicode := unicode + HexDigitValue(c).value;
    }
    h := HexValue(unicode);
  }

  datatype CodePoint = CodePoint(cp: nat, len: nat) | NoCodePoint(error: ErrorKind)

  /** The code point of the escape whose digits start `s`, joining a surrogate pair. */
  function CodePointAt(s: bytes): (u: CodePoint)
    ensures u.CodePoint? ==> u.len <= |s| && u.cp <= 0x10FFFF
  {
    match FourDigits(s)
    case NoHex(e) => NoCodePoint(e)
    case HexValue(unicode) =>
      if !(0xD800 <= unicode <= 0xDBFF) then CodePoint(unicode, 4)
      else if |s| < 10 then NoCodePoint(SixCharactersExpected)
      else if !(s[4] == BACKSLASH && s[5] == 0x75) then NoCodePoint(SecondHalfExpected)
      else
        match FourDigits(s[6..])
        case NoHex(e) => NoCodePoint(e)
        case HexValue(pair) => CodePoint(0x10000 + unicode % 1024 * 1024 + pair % 1024, 10)
  }

  method DecodeUnicodeCodePoint(doc: bytes, current: nat, end: nat) returns (u: CodePoint, current': nat)
    requires current <= end <= |doc|
    ensures u == CodePointAt(doc[current..end])
    ensures current <= current' <= end
    ensures u.CodePoint? ==> current' == current + u.len
  {
    var h;
    h, current' := DecodeUnicodeEscapeSequence(doc, current, end);
    if h.NoHex? {
      return NoCodePoint(h.error), current';
    }
    var unicode := h.value;
    if 0xD800 <= unicode <= 0xDBFF {
      if end - current' < 6 {
        return NoCodePoint(SixCharactersExpected), current';
      }
      current' := current' + 1;
      if doc[current' - 1] == BACKSLASH {
        current' := current' + 1;
        if doc[current' - 1] == 0x75 {
          assert doc[current..end][6..] == doc[current'..end];
          h, current' := DecodeUnicodeEscapeSequence(doc, current', end);
          if h.NoHex? {
            return NoCodePoint(h.error), current';
          }
          return CodePoint(0x10000 + unicode % 1024 * 1024 + h.value % 1024, 10), current';
        }
      }
      return NoCodePoint(SecondHalfExpected), current';
    }
    u := CodePoint(unicode, 4);
  }

  datatype Text = Text(text: bytes) | NoText(error: ErrorKind)

  function Prepend(front: bytes, t: Text): Text {
    if t.Text? then Text(front + t.text) else t
  }

  /** The byte a one-letter escape stands for. */
  function EscapedByte(letter: byte): Option<byte> {
    if letter == QUOTE then Some(QUOTE)
    else if letter == SLASH then Some(SLASH)
    else if letter == BACKSLASH then Some(BACKSLASH)
    else if letter == 0x62 then Some(BACKSPACE)
    else if letter == 0x66 then Some(FORMFEED)
    else if letter == 0x6E then Some(LF)
    else if letter == 0x72 then Some(CR)
    else if letter == 0x74 then Some(TAB)
    else None
  }

  /** The text between the quotes, decoded. A bare quote ends it early. */
  function DecodedBody(s: bytes): Text
    decreases |s|
  {
    if s == [] || s[0] == QUOTE then Text([])
    else if s[0] != BACKSLASH then Prepend([s[0]], DecodedBody(s[1..]))
    else if |s| == 1 then NoText(EmptyEscape)
    else if EscapedByte(s[1]).Some? then Prepend([EscapedByte(s[1]).value], DecodedBody(s[2..]))
    else if s[1] != 0x75 then NoText(BadEscape)
    else
      match CodePointAt(s[2..])
      case NoCodePoint(e) => NoText(e)
      case CodePoint(cp, len) => Prepend(Encoded(cp), DecodedBody(s[2 + len..]))
  }

  /** A whole string token, quotes included. */
  function DecodedToken(token: bytes): Text
    requires |token| >= 2
  {
    DecodedBody(token[1..|token| - 1])
  }

  lemma PrependTwice(a: bytes, b: bytes, t: Text)
    ensures Prepend(a, Prepend(b, t)) == Prepend(a + b, t)
  {
    if t.Text? {
      assert a + (b + t.text) == (a + b) + t.text;
    }
  }

  /** The escape whose backslash has just been read. */
  method DecodeEscape(doc: bytes, current: nat, end: nat) returns (t: Text, current': nat)
    requires 0 < current <= end <= |doc| && doc[current - 1] == BACKSLASH
    ensures current <= current' <= end
    ensures t.NoText? ==> DecodedBody(doc[current - 1..end]) == t
    ensures t.Text? ==> DecodedBody(doc[current - 1..end]) == Prepend(t.text, DecodedBody(doc[current'..end]))
  {
    ghost var s := doc[current - 1..end];
    current' := current;
    if current' == end {
      return NoText(EmptyEscape), current';
    }
    var escape := doc[current'];
    current' := current' + 1;
    assert s[2..] == doc[current'..end];
    if EscapedByte(escape).Some? {
      t := Text([EscapedByte(escape).value]);
    } else if escape == 0x75 {
      var u;
      u, current' := DecodeUnicodeCodePoint(doc, current', end);
      if u.NoCodePoint? {
        return NoText(u.error), current';
      }
      var utf8 := CodePointToUTF8(u.cp);
      assert s[2 + u.len..] == doc[current'..end];
      t := Text(utf8);
    } else {
      t := NoText(BadEscape);
    }
  }

  /** `decodeString` on the token `doc[start..limit]`. */
  method DecodeString(doc: bytes, start: nat, limit: nat) returns (t: Text)
    requires start + 2 <= limit <= |doc|
    ensures t == DecodedToken(doc[start..limit])
  {
    hide CodePointAt, EscapedByte;
    var decoded: bytes := [];
    var current, end := start + 1, limit - 1;
    SliceOfSlice(doc, start, limit, 1, limit - start - 1);
    while current != end
      invariant start + 1 <= current <= end
      invariant Prepend(decoded, DecodedBody(doc[current..end])) == DecodedToken(doc[start..limit])
    {
      ghost var s := doc[current..end];
      var c := doc[current];
      current := current + 1;
      if c == QUOTE {
        break;
      }
      if c == BACKSLASH {
        var e;
        e, current := DecodeEscape(doc, current, end);
        if e.NoText? {
          return e;
        }
        PrependTwice(decoded, e.text, DecodedBody(doc[current..end]));
        decoded := decoded + e.text;
      } else {
        assert s[1..] == doc[current..end];
        PrependTwice(decoded, [c], DecodedBody(s[1..]));
        decoded := decoded + [c];
      }
    }
    t := Text(decoded);
  }
}
