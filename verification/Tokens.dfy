/** Token sequences: what a document lexes to, what a value should print as, and when a text renders a
    sequence of tokens with only whitespace in between. */
module Tokens {
  import opened Bytes
  import opened StringCodec
  import opened StringRoundTrip
  import opened NumberCodec
  import opened JsonValue
  import opened Lexer

  datatype Lexeme = Lexeme(kind: Kind, text: bytes)

  /** All the tokens of a document: comments, errors, and the NUL characters that read as an end of stream. */
  function LexAll(f: Features, s: bytes): seq<Lexeme>
    decreases |s|
  {
    var t := ReadToken(f, s);
    if t.start == [] then [] else [Lexeme(t.kind, t.Text())] + LexAll(f, t.rest)
  }

  // ----- the tokens of a value ---------------------------------------------------------------------

  const TRUE_TEXT: bytes := [0x74, 0x72, 0x75, 0x65]
  const FALSE_TEXT: bytes := [0x66, 0x61, 0x6C, 0x73, 0x65]
  const NULL_TEXT: bytes := [0x6E, 0x75, 0x6C, 0x6C]

  const OPEN_BRACE: Lexeme := Lexeme(ObjectBegin, [LBRACE])
  const CLOSE_BRACE: Lexeme := Lexeme(ObjectEnd, [RBRACE])
  const OPEN_BRACKET: Lexeme := Lexeme(ArrayBegin, [LBRACKET])
  const CLOSE_BRACKET: Lexeme := Lexeme(ArrayEnd, [RBRACKET])
  const COMMA_SIGN: Lexeme := Lexeme(ArraySeparator, [COMMA])
  const COLON_SIGN: Lexeme := Lexeme(MemberSeparator, [COLON])

  /** No doubles anywhere inside. */
  predicate RealFree(v: Json)
    decreases v
  {
    match v
    case Real(_) => false
    case Arr(items) => forall i :: 0 <= i < |items| ==> RealFree(items[i])
    case Obj(members) => forall i :: 0 <= i < |members| ==> RealFree(members[i].value)
    case _ => true
  }

  /** The lexeme of a scalar. */
  function ScalarLexeme(v: Json, emitUTF8: bool): (l: Lexeme)
    requires !v.Arr? && !v.Obj? && !v.Real?
    ensures l.kind == NullToken || l.kind == NumberToken || l.kind == StringToken || l.kind == TrueToken
            || l.kind == FalseToken
  {
    match v
    case Null => Lexeme(NullToken, NULL_TEXT)
    case Int(i) => Lexeme(NumberToken, FormatInt(i))
    case UInt(u) => Lexeme(NumberToken, Decimal(u))
    case Str(s) => Lexeme(StringToken, Quoted(s, emitUTF8))
    case Bool(b) => if b then Lexeme(TrueToken, TRUE_TEXT) else Lexeme(FalseToken, FALSE_TEXT)
  }

  function KeyLexeme(key: bytes, emitUTF8: bool): Lexeme {
    Lexeme(StringToken, Quoted(key, emitUTF8))
  }

  function TokensOf(v: Json, emitUTF8: bool): (ts: seq<Lexeme>)
    requires RealFree(v)
    ensures ts != []
    decreases v, 1
  {
    match v
    case Arr(items) => [OPEN_BRACKET] + ItemTokens(items, emitUTF8) + [CLOSE_BRACKET]
    case Obj(members) => [OPEN_BRACE] + MemberTokens(members, emitUTF8) + [CLOSE_BRACE]
    case _ => [ScalarLexeme(v, emitUTF8)]
  }

  predicate ItemsRealFree(items: seq<Json>) {
    forall i :: 0 <= i < |items| ==> RealFree(items[i])
  }

  predicate MembersRealFree(members: seq<Member>) {
    forall i :: 0 <= i < |members| ==> RealFree(members[i].value)
  }

  /** The elements, with a comma between every two. */
  function ItemTokens(items: seq<Json>, emitUTF8: bool): seq<Lexeme>
    requires ItemsRealFree(items)
    decreases items, 0
  {
    if items == [] then []
    else if |items| == 1 then TokensOf(items[0], emitUTF8)
    else TokensOf(items[0], emitUTF8) + ([COMMA_SIGN] + ItemTokens(items[1..], emitUTF8))
  }

  function MemberTokens(members: seq<Member>, emitUTF8: bool): seq<Lexeme>
    requires MembersRealFree(members)
    decreases members, 0
  {
    if members == [] then []
    else
      var first := [KeyLexeme(members[0].key, emitUTF8), COLON_SIGN] + TokensOf(members[0].value, emitUTF8);
      if |members| == 1 then first else first + ([COMMA_SIGN] + MemberTokens(members[1..], emitUTF8))
  }

  lemma Regroup(first: seq<Lexeme>, rest: seq<Lexeme>, comma: seq<Lexeme>, last: seq<Lexeme>)
    ensures first + ([COMMA_SIGN] + (rest + comma + last)) == first + ([COMMA_SIGN] + rest) + comma + last
    ensures first + ([COMMA_SIGN] + ([] + [] + last)) == first + [COMMA_SIGN] + last
  {
  }

  lemma {:induction false} ItemTokensAppend(items: seq<Json>, v: Json, emitUTF8: bool)
    requires ItemsRealFree(items) && RealFree(v)
    ensures ItemTokens(items + [v], emitUTF8)
            == ItemTokens(items, emitUTF8) + (if items == [] then [] else [COMMA_SIGN]) + TokensOf(v, emitUTF8)
  {
    hide TokensOf, RealFree;
    if items == [] {
      assert items + [v] == [v];
    } else {
      var rest := items[1..];
      assert (items + [v])[1..] == rest + [v] && (items + [v])[0] == items[0];
      ItemTokensAppend(rest, v, emitUTF8);
      Regroup(TokensOf(items[0], emitUTF8), ItemTokens(rest, emitUTF8), if rest == [] then [] else [COMMA_SIGN],
              TokensOf(v, emitUTF8));
    }
  }

  lemma {:induction false} MemberTokensAppend(members: seq<Member>, m: Member, emitUTF8: bool)
    requires MembersRealFree(members) && RealFree(m.value)
    ensures MemberTokens(members + [m], emitUTF8)
            == MemberTokens(members, emitUTF8) + (if members == [] then [] else [COMMA_SIGN])
               + ([KeyLexeme(m.key, emitUTF8), COLON_SIGN] + TokensOf(m.value, emitUTF8))
  {
    hide TokensOf, RealFree, KeyLexeme;
    if members == [] {
      assert members + [m] == [m];
    } else {
      var rest := members[1..];
      assert (members + [m])[1..] == rest + [m] && (members + [m])[0] == members[0];
      MemberTokensAppend(rest, m, emitUTF8);
      var first := [KeyLexeme(members[0].key, emitUTF8), COLON_SIGN] + TokensOf(members[0].value, emitUTF8);
      var last := [KeyLexeme(m.key, emitUTF8), COLON_SIGN] + TokensOf(m.value, emitUTF8);
      Regroup(first, MemberTokens(rest, emitUTF8), if rest == [] then [] else [COMMA_SIGN], last);
    }
  }

  // ----- rendering ------------------------------------------------------------------------------------

  /** `w` is the texts of `ts` in order, with whitespace before, between and after them. */
  predicate Renders(w: bytes, ts: seq<Lexeme>)
    decreases |ts|
  {
    var u := SkipSpaces(w);
    if ts == [] then u == []
    else ts[0].text != [] && ts[0].text <= u && Renders(u[|ts[0].text|..], ts[1..])
  }

  lemma {:induction false} SkipSpacesAppend(a: bytes, b: bytes)
    ensures SkipSpaces(a + b) == if SkipSpaces(a) == [] then SkipSpaces(b) else SkipSpaces(a) + b
  {
    if a == [] {
      assert a + b == b;
    } else if IsSpace(a[0]) {
      assert (a + b)[1..] == a[1..] + b;
      SkipSpacesAppend(a[1..], b);
    }
  }

  lemma {:induction false} SpacesSkipped(s: bytes)
    requires AllSpaces(s)
    ensures SkipSpaces(s) == []
  {
    if s != [] {
      SpacesSkipped(s[1..]);
    }
  }

  /** Renderings compose. */
  lemma {:induction false} RendersAppend(a: bytes, ts: seq<Lexeme>, b: bytes, us: seq<Lexeme>)
    requires Renders(a, ts) && Renders(b, us)
    ensures Renders(a + b, ts + us)
    decreases |ts|
  {
    SkipSpacesAppend(a, b);
    if ts == [] {
      assert ts + us == us;
    } else {
      var n := |ts[0].text|;
      RendersAppend(SkipSpaces(a)[n..], ts[1..], b, us);
      assert (SkipSpaces(a) + b)[n..] == SkipSpaces(a)[n..] + b;
      assert (ts + us)[1..] == ts[1..] + us;
    }
  }

  lemma RendersSpaces(w: bytes)
    requires AllSpaces(w)
    ensures Renders(w, [])
  {
    SpacesSkipped(w);
  }

  lemma RendersOne(l: Lexeme)
    requires Legal(l)
    ensures Renders(l.text, [l])
  {
    LegalStart(l);
    assert l.text[|l.text|..] == [];
  }

  // ----- lexemes that read back ---------------------------------------------------------------------------

  /** The tokens of RFC 8259: its punctuation, literals, numbers and strings. */
  ghost predicate Legal(l: Lexeme) {
    match l.kind
    case ObjectBegin => l == OPEN_BRACE
    case ObjectEnd => l == CLOSE_BRACE
    case ArrayBegin => l == OPEN_BRACKET
    case ArrayEnd => l == CLOSE_BRACKET
    case ArraySeparator => l == COMMA_SIGN
    case MemberSeparator => l == COLON_SIGN
    case TrueToken => l.text == TRUE_TEXT
    case FalseToken => l.text == FALSE_TEXT
    case NullToken => l.text == NULL_TEXT
    case StringToken => LegalString(l.text)
    case NumberToken => LegalNumber(l.text)
    case _ => false
  }

  predicate IsPunctuation(k: Kind) {
    k == ObjectBegin || k == ObjectEnd || k == ArrayBegin || k == ArrayEnd || k == ArraySeparator || k == MemberSeparator
  }

  lemma LegalStart(l: Lexeme)
    requires Legal(l)
    ensures l.text != [] && !IsSpace(l.text[0]) && l.text[0] < 0x80 && SkipSpaces(l.text) == l.text
    ensures IsPunctuation(l.kind) ==> !ContinuesNumber(l.text[0])
  {
    hide LegalChars;
    if l.kind == NumberToken {
      NumberStart(l.text);
    }
  }

  lemma NumberStart(text: bytes)
    requires LegalNumber(text)
    ensures text != [] && (text[0] == MINUS || IsDigit(text[0]))
  {
    var negative, whole, fraction, exponent :| NumberParts(text, negative, whole, fraction, exponent);
    assert whole + (fraction + exponent) != [] && (whole + (fraction + exponent))[0] == whole[0];
  }

  /** The characters that would extend a number token made of digits. */
  predicate ContinuesNumber(c: byte) {
    IsDigit(c) || c == DOT || c == 0x65 || c == 0x45
  }

  lemma {:induction false} DigitsSkipped(digits: bytes, rest: bytes)
    requires AllDigits(digits)
    ensures SkipDigits(digits + rest) == SkipDigits(rest)
  {
    if digits == [] {
      assert digits + rest == rest;
    } else {
      assert (digits + rest)[1..] == digits[1..] + rest;
      DigitsSkipped(digits[1..], rest);
    }
  }

  /** Where the characters of a number end, none of which continues it, the scan of a part of it stops. */
  lemma DigitsRead(digits: bytes, rest: bytes)
    requires AllDigits(digits) && (rest != [] ==> !IsDigit(rest[0]))
    ensures SkipDigits(digits + rest) == rest
  {
    DigitsSkipped(digits, rest);
  }

  lemma ExponentReads(exponent: bytes, rest: bytes)
    requires IsExponent(exponent) && (rest != [] ==> !ContinuesNumber(rest[0]))
    ensures SkipExponent(exponent + rest) == rest
    ensures exponent + rest != [] ==> !IsDigit((exponent + rest)[0]) && (exponent + rest)[0] != DOT
  {
    if exponent == [] {
      assert exponent + rest == rest;
    } else if AllDigits(exponent[1..]) {
      assert (exponent + rest)[1..] == exponent[1..] + rest;
      assert IsDigit(exponent[1..][0]);
      DigitsRead(exponent[1..], rest);
    } else {
      assert (exponent + rest)[2..] == exponent[2..] + rest;
      DigitsRead(exponent[2..], rest);
    }
  }

  lemma FractionReads(fraction: bytes, rest: bytes)
    requires IsFraction(fraction) && (rest != [] ==> !IsDigit(rest[0]) && rest[0] != DOT)
    ensures SkipFraction(fraction + rest) == rest
    ensures fraction + rest != [] ==> !IsDigit((fraction + rest)[0])
  {
    if fraction == [] {
      assert fraction + rest == rest;
    } else {
      assert (fraction + rest)[1..] == fraction[1..] + rest;
      DigitsRead(fraction[1..], rest);
    }
  }

  /** From after the first digit or the sign, a number is scanned to its end. */
  lemma PartsRead(digits: bytes, fraction: bytes, exponent: bytes, rest: bytes, checkInf: bool)
    requires AllDigits(digits) && IsFraction(fraction) && IsExponent(exponent)
    requires (rest != [] ==> !ContinuesNumber(rest[0])) && (checkInf ==> digits != [])
    ensures ScanNumber(digits + (fraction + (exponent + rest)), checkInf) == Scan(true, rest)
  {
    hide Lexer.SkipDigits, Lexer.SkipFraction, Lexer.SkipExponent;
    var tail := fraction + (exponent + rest);
    ExponentReads(exponent, rest);
    FractionReads(fraction, exponent + rest);
    DigitsRead(digits, tail);
    assert digits != [] ==> (digits + tail)[0] == digits[0];
  }

  lemma NumberReads(f: Features, text: bytes, rest: bytes)
    requires LegalNumber(text) && (rest != [] ==> !ContinuesNumber(rest[0]))
    ensures ReadToken(f, text + rest) == Token(NumberToken, text + rest, rest)
  {
    hide Lexer.ScanNumber, Lexer.ScanComment, Lexer.Special, Lexer.Matched, StringCodec.ScanString;
    hide NumberCodec.IsFraction, NumberCodec.IsExponent;
    var negative, whole, fraction, exponent :| NumberParts(text, negative, whole, fraction, exponent);
    var s := text + rest;
    NumberStart(text);
    if negative {
      assert s[0] == MINUS && s[1..] == whole + (fraction + (exponent + rest));
      PartsRead(whole, fraction, exponent, rest, true);
    } else {
      assert s[0] == whole[0] && s[1..] == whole[1..] + (fraction + (exponent + rest));
      PartsRead(whole[1..], fraction, exponent, rest, false);
    }
  }

  lemma StringReads(f: Features, text: bytes, rest: bytes)
    requires LegalString(text)
    ensures ReadToken(f, text + rest) == Token(StringToken, text + rest, rest)
  {
    hide StringCodec.ScanString, LegalChars, Lexer.ScanNumber, Lexer.ScanComment, Lexer.Special, Lexer.Matched;
    var body := text[1..|text| - 1];
    LegalScans(body, [QUOTE] + rest);
    ScanStep([QUOTE] + rest, QUOTE);
    assert (text + rest)[1..] == body + ([QUOTE] + rest) && ([QUOTE] + rest)[1..] == rest;
  }

  lemma LiteralReads(f: Features, c: byte, tail: bytes, rest: bytes)
    requires (c == 0x74 && tail == RUE) || (c == 0x66 && tail == ALSE) || (c == 0x6E && tail == ULL)
    ensures ReadToken(f, [c] + tail + rest)
            == Token(if c == 0x74 then TrueToken else if c == 0x66 then FalseToken else NullToken,
                     [c] + tail + rest, rest)
  {
    var s := [c] + tail + rest;
    assert s[1..] == tail + rest;
    assert (tail + rest)[|tail|..] == rest;
  }

  /** A token of RFC 8259 is read whole, unless it is a number that the next character extends. */
  lemma LegalReads(f: Features, l: Lexeme, rest: bytes)
    requires Legal(l)
    requires l.kind == NumberToken && rest != [] ==> !ContinuesNumber(rest[0])
    ensures ReadToken(f, l.text + rest) == Token(l.kind, l.text + rest, rest)
  {
    if l.kind == NumberToken {
      NumberReads(f, l.text, rest);
    } else if l.kind == StringToken {
      StringReads(f, l.text, rest);
    } else if l.kind == TrueToken {
      assert l.text == [0x74] + RUE;
      LiteralReads(f, 0x74, RUE, rest);
    } else if l.kind == FalseToken {
      assert l.text == [0x66] + ALSE;
      LiteralReads(f, 0x66, ALSE, rest);
    } else if l.kind == NullToken {
      assert l.text == [0x6E] + ULL;
      LiteralReads(f, 0x6E, ULL, rest);
    } else {
      assert (l.text + rest)[1..] == rest;
    }
  }

  // ----- a rendered sequence lexes to itself ----------------------------------------------------------------

  /** Every number is followed by punctuation or by nothing. */
  ghost predicate Separated(ts: seq<Lexeme>) {
    && (forall i :: 0 <= i < |ts| ==> Legal(ts[i]))
    && (forall i :: 0 <= i < |ts| - 1 && ts[i].kind == NumberToken ==> IsPunctuation(ts[i + 1].kind))
  }

  lemma {:induction false} SkipSpacesFirst(w: bytes)
    ensures SkipSpaces(SkipSpaces(w)) == SkipSpaces(w)
    ensures w != [] && !IsSpace(w[0]) ==> SkipSpaces(w) == w
    ensures w != [] && SkipSpaces(w) == [] ==> IsSpace(w[0])
  {
    if w != [] && IsSpace(w[0]) {
      SkipSpacesFirst(w[1..]);
    }
  }

  lemma AfterNumber(rest: bytes, ts: seq<Lexeme>)
    requires Renders(rest, ts) && (ts != [] ==> Legal(ts[0]) && IsPunctuation(ts[0].kind))
    ensures rest != [] ==> !ContinuesNumber(rest[0])
  {
    SkipSpacesFirst(rest);
    if rest != [] && !IsSpace(rest[0]) {
      LegalStart(ts[0]);
      assert rest[0] == ts[0].text[0];
    }
  }

  /** A text that renders separated lexemes lexes to exactly those, under every feature setting. */
  lemma {:induction false} RenderedLexes(f: Features, w: bytes, ts: seq<Lexeme>)
    requires Renders(w, ts) && Separated(ts)
    ensures LexAll(f, w) == ts
    decreases |ts|
  {
    if ts != [] {
      var u, l := SkipSpaces(w), ts[0];
      var rest := u[|l.text|..];
      assert u == l.text + rest;
      assert Separated(ts[1..]) by {
        assert forall i :: 0 <= i < |ts| - 1 ==> ts[1..][i] == ts[i + 1];
      }
      if l.kind == NumberToken {
        AfterNumber(rest, ts[1..]);
      }
      LegalReads(f, l, rest);
      SkipSpacesFirst(w);
      assert ReadToken(f, w) == ReadToken(f, u);
      RenderedLexes(f, rest, ts[1..]);
      assert u[..|u| - |rest|] == l.text;
      assert ts == [l] + ts[1..];
    }
  }

  // ----- the tokens of a value are separated ------------------------------------------------------------------

  lemma SeparatedAppend(a: seq<Lexeme>, b: seq<Lexeme>)
    requires Separated(a) && Separated(b)
    requires a != [] && b != [] ==> a[|a| - 1].kind != NumberToken || IsPunctuation(b[0].kind)
    ensures Separated(a + b)
  {
  }

  lemma ScalarIsLegal(v: Json, emitUTF8: bool)
    requires !v.Arr? && !v.Obj? && !v.Real?
    ensures Legal(ScalarLexeme(v, emitUTF8))
  {
    hide LegalString, LegalNumber;
    match v
    case Int(i) => FormatIntIsLegal(i);
    case UInt(u) =>
      FormatIntIsLegal(u);
      assert FormatInt(u) == Decimal(u);
    case Str(s) => QuotedIsLegal(s, emitUTF8);
    case _ =>
  }

  lemma KeyIsLegal(key: bytes, emitUTF8: bool)
    ensures Legal(KeyLexeme(key, emitUTF8)) && Legal(COLON_SIGN) && Legal(COMMA_SIGN)
  {
    hide LegalString;
    QuotedIsLegal(key, emitUTF8);
  }

  lemma {:induction false} TokensSeparated(v: Json, emitUTF8: bool)
    requires RealFree(v)
    ensures Separated(TokensOf(v, emitUTF8))
    decreases v, 1
  {
    match v
    case Arr(items) =>
      ItemTokensSeparated(items, emitUTF8);
      SeparatedAppend([OPEN_BRACKET], ItemTokens(items, emitUTF8));
      SeparatedAppend([OPEN_BRACKET] + ItemTokens(items, emitUTF8), [CLOSE_BRACKET]);
    case Obj(members) =>
      MemberTokensSeparated(members, emitUTF8);
      SeparatedAppend([OPEN_BRACE], MemberTokens(members, emitUTF8));
      SeparatedAppend([OPEN_BRACE] + MemberTokens(members, emitUTF8), [CLOSE_BRACE]);
    case _ =>
      ScalarIsLegal(v, emitUTF8);
  }

  lemma {:induction false} ItemTokensSeparated(items: seq<Json>, emitUTF8: bool)
    requires ItemsRealFree(items)
    ensures Separated(ItemTokens(items, emitUTF8))
    decreases items, 0
  {
    if items != [] {
      TokensSeparated(items[0], emitUTF8);
      if |items| > 1 {
        ItemTokensSeparated(items[1..], emitUTF8);
        SeparatedAppend([COMMA_SIGN], ItemTokens(items[1..], emitUTF8));
        SeparatedAppend(TokensOf(items[0], emitUTF8), [COMMA_SIGN] + ItemTokens(items[1..], emitUTF8));
      }
    }
  }

  lemma {:induction false} MemberTokensSeparated(members: seq<Member>, emitUTF8: bool)
    requires MembersRealFree(members)
    ensures Separated(MemberTokens(members, emitUTF8))
    decreases members, 0
  {
    hide TokensOf, RealFree, Legal;
    if members != [] {
      var key := [KeyLexeme(members[0].key, emitUTF8), COLON_SIGN];
      KeyIsLegal(members[0].key, emitUTF8);
      TokensSeparated(members[0].value, emitUTF8);
      SeparatedAppend(key, TokensOf(members[0].value, emitUTF8));
      if |members| > 1 {
        MemberTokensSeparated(members[1..], emitUTF8);
        SeparatedAppend([COMMA_SIGN], MemberTokens(members[1..], emitUTF8));
        SeparatedAppend(key + TokensOf(members[0].value, emitUTF8),
                        [COMMA_SIGN] + MemberTokens(members[1..], emitUTF8));
      }
    }
  }
}
