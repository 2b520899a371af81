/** What the reader accepts beyond JSON, byte by byte: comments, special floats, single quotes, numeric keys and a byte
    order mark; and the limits it keeps. */
module Extensions {
  import opened Bytes
  import opened StringCodec
  import opened NumberCodec
  import opened JsonValue
  import opened Lexer
  import opened Parser
  import opened Tokens
  import opened Grammar

  // ----- comments -----------------------------------------------------------------------------------------

  /** Is there no star followed by a slash? */
  predicate Unclosed(s: bytes) {
    forall i :: 0 <= i < |s| - 1 ==> !(s[i] == 0x2A && s[i + 1] == 0x2F)
  }

  /** A C-style comment ends after its first star and slash. */
  lemma {:induction false} CStyleEnds(body: bytes, rest: bytes)
    requires Unclosed(body)
    ensures ScanCStyleComment(body + [0x2A, 0x2F] + rest) == Scan(true, rest)
    decreases |body|
  {
    var s := body + [0x2A, 0x2F] + rest;
    if body == [] {
      assert s[1..][1..] == rest;
    } else {
      assert s[1..] == body[1..] + [0x2A, 0x2F] + rest;
      assert s[0] == body[0] && s[1] == (if |body| > 1 then body[1] else 0x2A);
      CStyleEnds(body[1..], rest);
    }
  }

  /** Without one it runs to the end of the text, and is taken for complete exactly when the last byte is a slash. */
  lemma {:induction false} CStyleUnclosed(s: bytes)
    requires Unclosed(s)
    ensures ScanCStyleComment(s) == Scan(s != [] && s[|s| - 1] == 0x2F, [])
    decreases |s|
  {
    if |s| >= 2 {
      CStyleUnclosed(s[1..]);
    } else if s != [] {
      assert s[1..] == [];
    }
  }

  predicate OneLine(s: bytes) {
    forall i :: 0 <= i < |s| ==> s[i] != 0x0A && s[i] != 0x0D
  }

  /** What ends a C++-style comment: the end of the text or of the line. */
  predicate LineEnd(end: bytes, rest: bytes) {
    (end == [] && rest == []) || end == [0x0A] || end == [0x0D, 0x0A]
    || (end == [0x0D] && (rest == [] || rest[0] != 0x0A))
  }

  lemma {:induction false} CppStyleEnds(body: bytes, end: bytes, rest: bytes)
    requires OneLine(body) && LineEnd(end, rest)
    ensures ScanCppStyleComment(body + end + rest) == rest
    decreases |body|
  {
    var s := body + end + rest;
    if body == [] {
      assert s == end + rest;
      assert end != [] ==> s[|end|..] == rest;
    } else {
      assert s[1..] == body[1..] + end + rest;
      CppStyleEnds(body[1..], end, rest);
    }
  }

  /** Comments of either style are one token each. */
  lemma CommentsRead(f: Features, body: bytes, end: bytes, rest: bytes)
    ensures Unclosed(body) ==>
              var s := [0x2F, 0x2A] + (body + [0x2A, 0x2F] + rest); ReadToken(f, s) == Token(CommentToken, s, rest)
    ensures OneLine(body) && LineEnd(end, rest) ==>
              var s := [0x2F, 0x2F] + (body + end + rest); ReadToken(f, s) == Token(CommentToken, s, rest)
  {
    hide Lexer.ScanCStyleComment, Lexer.ScanCppStyleComment, Lexer.ScanNumber, StringCodec.ScanString, Lexer.Special;
    hide Lexer.Matched;
    if Unclosed(body) {
      CStyleEnds(body, rest);
      CommentStarts(f, 0x2A, body + [0x2A, 0x2F] + rest);
    }
    if OneLine(body) && LineEnd(end, rest) {
      CppStyleEnds(body, end, rest);
      CommentStarts(f, 0x2F, body + end + rest);
    }
  }

  lemma CommentStarts(f: Features, second: byte, s: bytes)
    requires second == 0x2A || second == 0x2F
    ensures var t := [0x2F, second] + s;
            var scan := if second == 0x2A then ScanCStyleComment(s) else Scan(true, ScanCppStyleComment(s));
            ReadToken(f, t) == Token(if scan.ok then CommentToken else ErrorToken, t, scan.rest)
  {
    hide Lexer.ScanCStyleComment, Lexer.ScanCppStyleComment, Lexer.ScanNumber, StringCodec.ScanString, Lexer.Special;
    hide Lexer.Matched;
    var t := [0x2F, second] + s;
    assert t[1..] == [second] + s && t[1..][1..] == s;
  }

  // ----- special floats -------------------------------------------------------------------------------------

  const NAN_TEXT: bytes := [0x4E, 0x61, 0x4E]
  const INFINITY_TEXT: bytes := [0x49, 0x6E, 0x66, 0x69, 0x6E, 0x69, 0x74, 0x79]

  lemma PatternMatches(f: Features, kind: Kind, pattern: bytes, rest: bytes)
    ensures Special(f, kind, pattern + rest, pattern)
            == if f.allowSpecialFloats then Cut(kind, rest) else Cut(ErrorToken, pattern + rest)
  {
    assert (pattern + rest)[|pattern|..] == rest;
  }

  lemma NanReads(f: Features, rest: bytes)
    ensures var t := ReadToken(f, NAN_TEXT + rest);
            if f.allowSpecialFloats then t == Token(NaNToken, NAN_TEXT + rest, rest) else t.kind == ErrorToken
  {
    hide Lexer.ScanComment, StringCodec.ScanString, Lexer.ScanNumber, Lexer.Matched, Lexer.Special;
    assert (NAN_TEXT + rest)[1..] == AN + rest;
    PatternMatches(f, NaNToken, AN, rest);
  }

  lemma InfinityReads(f: Features, rest: bytes)
    ensures var t := ReadToken(f, INFINITY_TEXT + rest);
            if f.allowSpecialFloats then t == Token(PosInfToken, INFINITY_TEXT + rest, rest) else t.kind == ErrorToken
  {
    hide Lexer.ScanComment, StringCodec.ScanString, Lexer.ScanNumber, Lexer.Matched, Lexer.Special;
    assert (INFINITY_TEXT + rest)[1..] == NFINITY + rest;
    PatternMatches(f, PosInfToken, NFINITY, rest);
  }

  lemma SignedInfinityReads(f: Features, sign: byte, rest: bytes)
    requires sign == 0x2B || sign == 0x2D
    ensures var s := [sign] + (INFINITY_TEXT + rest);
            var t := ReadToken(f, s);
            if f.allowSpecialFloats then t == Token(if sign == 0x2B then PosInfToken else NegInfToken, s, rest)
            else t.kind == ErrorToken
  {
    hide Lexer.ScanComment, StringCodec.ScanString, Lexer.Matched, Lexer.Special;
    hide Lexer.SkipDigits, Lexer.SkipFraction, Lexer.SkipExponent;
    var s := [sign] + (INFINITY_TEXT + rest);
    assert s[1..] == INFINITY_TEXT + rest && s[1..][0] == 0x49 && s[1..][1..] == NFINITY + rest;
    PatternMatches(f, if sign == 0x2D then NegInfToken else PosInfToken, NFINITY, rest);
  }

  /** What the special floats stand for, as scalars of a text. */
  lemma SpecialFloatsMean(f: Features, text: bytes)
    ensures ScalarValue(f, Lexeme(NaNToken, text)) == Some(Real(NaN))
    ensures ScalarValue(f, Lexeme(PosInfToken, text)) == Some(Real(PosInf))
    ensures ScalarValue(f, Lexeme(NegInfToken, text)) == Some(Real(NegInf))
  {
  }

  // ----- single quotes --------------------------------------------------------------------------------------

  /** Is there no quote of either kind and no backslash? */
  predicate Plain(s: bytes) {
    forall i :: 0 <= i < |s| ==> s[i] != 0x22 && s[i] != 0x27 && s[i] != 0x5C
  }

  lemma {:induction false} PlainScansTo(s: bytes, rest: bytes)
    requires Plain(s)
    ensures ScanString(s + [0x27] + rest, APOSTROPHE) == Scan(true, rest)
    decreases |s|
  {
    var t := s + [0x27] + rest;
    if s == [] {
      assert t[1..] == rest;
    } else {
      assert t[1..] == s[1..] + [0x27] + rest;
      PlainScansTo(s[1..], rest);
    }
  }

  lemma {:induction false} PlainDecodes(s: bytes)
    requires Plain(s)
    ensures DecodedBody(s) == Text(s)
    decreases |s|
  {
    if s != [] {
      PlainDecodes(s[1..]);
      assert s == [s[0]] + s[1..];
    }
  }

  /** A string in single quotes is read where they are allowed, and stands for what is between them. */
  lemma SingleQuotesRead(f: Features, s: bytes, rest: bytes)
    requires Plain(s)
    ensures var token := [0x27] + s + [0x27];
            if f.allowSingleQuotes then
              ReadToken(f, token + rest) == Token(StringToken, token + rest, rest) && DecodedToken(token) == Text(s)
            else ReadToken(f, token + rest).kind == ErrorToken
  {
    hide Lexer.ScanComment, Lexer.ScanNumber, StringCodec.ScanString, Lexer.Special, Lexer.Matched;
    var token := [0x27] + s + [0x27];
    assert (token + rest)[1..] == s + [0x27] + rest && token[1..|token| - 1] == s;
    PlainScansTo(s, rest);
    PlainDecodes(s);
  }

  // ----- numeric keys -----------------------------------------------------------------------------------------

  /** A 64-bit number names the member that has its decimal digits for a key, where that is allowed. */
  lemma NumbersName(f: Features, i: int)
    requires -0x8000_0000_0000_0000 <= i < 0x1_0000_0000_0000_0000
    ensures KeyName(f, Lexeme(NumberToken, FormatInt(i))) == if f.allowNumericKeys then Some(FormatInt(i)) else None
  {
    hide NumberCodec.IntegerOf, NumberCodec.FormatInt, NumberCodec.Decimal;
    if i < 0x8000_0000_0000_0000 {
      IntRoundTrip(i);
    } else {
      UIntRoundTrip(i);
      UnsignedText(i);
    }
  }

  lemma UnsignedText(u: nat)
    ensures FormatInt(u) == Decimal(u)
  {
  }

  // ----- the byte order mark ----------------------------------------------------------------------------------

  /** Where it is skipped, a byte order mark in front changes nothing of what is read. */
  lemma MarkIsSkipped(f: Features, doc: bytes)
    ensures AfterBom(f, [0xEF, 0xBB, 0xBF] + doc) == if f.skipBom then doc else [0xEF, 0xBB, 0xBF] + doc
    ensures !([0xEF, 0xBB, 0xBF] <= doc) ==> AfterBom(f, doc) == doc
  {
    assert ([0xEF, 0xBB, 0xBF] + doc)[3..] == doc;
  }

  // ----- limits -----------------------------------------------------------------------------------------------

  /** A name of a gigabyte or more leaves `parse` by an exception, before anything else is looked at. */
  lemma LongNamesThrow(f: Features, s: bytes, depth: nat, members: seq<Member>, key: bytes)
    ensures |key| >= 0x4000_0000 ==> AfterName(f, s, depth, members, key) == Thrown(KeyTooLong)
  {
    hide Parser.ReadMemberValue;
  }

  /** A string is stored whole up to two gigabytes less six bytes; a longer one throws, while its length fits
      32 bits. */
  lemma LongStringsThrow(s: bytes)
    requires |s| < 0x1_0000_0000
    ensures StringValue(s) == if |s| <= 2_147_483_642 then Scalar(Str(s)) else Throws(StringTooLong)
  {
    assert s[..|s|] == s;
  }
}
