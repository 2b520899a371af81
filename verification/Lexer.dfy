/** The tokens of `OurReader`, as functions of the input that is left to read. */
module Lexer {
  import opened Bytes
  import opened StringCodec
  import opened JsonValue

  /** `OurFeatures`, and the two conversions of doubles that the model leaves open: reading one through a
      stream, and printing one for a numeric key. */
  datatype Features = Features(
    allowComments: bool,
    allowTrailingCommas: bool,
    strictRoot: bool,
    allowDroppedNullPlaceholders: bool,
    allowNumericKeys: bool,
    allowSingleQuotes: bool,
    failIfExtra: bool,
    rejectDupKeys: bool,
    allowSpecialFloats: bool,
    skipBom: bool,
    stackLimit: nat,
    decodeDouble: bytes -> Option<Double>,
    doubleText: Double -> bytes)

  datatype Kind =
    | EndOfStream
    | ObjectBegin
    | ObjectEnd
    | ArrayBegin
    | ArrayEnd
    | StringToken
    | NumberToken
    | TrueToken
    | FalseToken
    | NullToken
    | NaNToken
    | PosInfToken
    | NegInfToken
    | ArraySeparator
    | MemberSeparator
    | CommentToken
    | ErrorToken

  /** A token: the input left where it starts, and the input left after it. */
  datatype Token = Token(kind: Kind, start: bytes, rest: bytes) {
    predicate Proper() {
      |rest| <= |start| && (kind != EndOfStream || start != [] ==> |rest| < |start|)
      && (kind == StringToken ==> |rest| + 2 <= |start|)
      && (kind == ArraySeparator || kind == ObjectEnd || kind == ArrayEnd ==> |rest| + 1 == |start|)
    }

    function Text(): bytes
      requires Proper()
    {
      start[..|start| - |rest|]
    }
  }

  const RUE: bytes := [0x72, 0x75, 0x65]
  const ALSE: bytes := [0x61, 0x6C, 0x73, 0x65]
  const ULL: bytes := [0x75, 0x6C, 0x6C]
  const AN: bytes := [0x61, 0x4E]
  const NFINITY: bytes := [0x6E, 0x66, 0x69, 0x6E, 0x69, 0x74, 0x79]

  function SkipSpaces(s: bytes): (t: bytes)
    ensures |t| <= |s|
    ensures t != [] ==> !IsSpace(t[0])
  {
    if s != [] && IsSpace(s[0]) then SkipSpaces(s[1..]) else s
  }

  function SkipDigits(s: bytes): (t: bytes)
    ensures |t| <= |s|
    ensures t != [] ==> !IsDigit(t[0])
  {
    if s != [] && IsDigit(s[0]) then SkipDigits(s[1..]) else s
  }

  // ----- readNumber ------------------------------------------------------------------------------

  function SkipFraction(s: bytes): (t: bytes)
    ensures |t| <= |s|
  {
    if s != [] && s[0] == DOT then SkipDigits(s[1..]) else s
  }

  function SkipExponent(s: bytes): (t: bytes)
    ensures |t| <= |s|
  {
    if s == [] || (s[0] != 0x65 && s[0] != 0x45) then s
    else if |s| >= 2 && (s[1] == PLUS || s[1] == MINUS) then SkipDigits(s[2..])
    else SkipDigits(s[1..])
  }

  /** From after the first character of a number; a sign may be followed by an infinity instead. */
  function ScanNumber(s: bytes, checkInf: bool): (r: Scan)
    ensures |r.rest| <= |s|
  {
    if checkInf && s != [] && s[0] == 0x49 then Scan(false, s[1..])
    else Scan(true, SkipExponent(SkipFraction(SkipDigits(s))))
  }

  // ----- comments ----------------------------------------------------------------------------------

  /** From after the opening of a C-style comment. */
  function ScanCStyleComment(s: bytes): (r: Scan)
    ensures |r.rest| <= |s|
  {
    if |s| >= 2 && !(s[0] == STAR && s[1] == SLASH) then ScanCStyleComment(s[1..])
    else
      var t := if |s| >= 2 then s[1..] else s;
      if t == [] then Scan(false, []) else Scan(t[0] == SLASH, t[1..])
  }

  function ScanCppStyleComment(s: bytes): (t: bytes)
    ensures |t| <= |s|
  {
    if s == [] then []
    else if s[0] == LF then s[1..]
    else if s[0] == CR then (if |s| >= 2 && s[1] == LF then s[2..] else s[1..])
    else ScanCppStyleComment(s[1..])
  }

  /** From after the slash. */
  function ScanComment(s: bytes): (r: Scan)
    ensures |r.rest| <= |s|
  {
    if s == [] then Scan(false, [])
    else if s[0] == STAR then ScanCStyleComment(s[1..])
    else if s[0] == SLASH then Scan(true, ScanCppStyleComment(s[1..]))
    else Scan(false, s[1..])
  }

  // ----- readToken -----------------------------------------------------------------------------------

  /** A kind and the input left. */
  datatype Cut = Cut(kind: Kind, rest: bytes)

  function Checked(kind: Kind, r: Scan): Cut {
    Cut(if r.ok then kind else ErrorToken, r.rest)
  }

  /** `match`: consumes the pattern when it is there and nothing otherwise. */
  function Matched(kind: Kind, s: bytes, pattern: bytes): (c: Cut)
    ensures |c.rest| <= |s|
  {
    if pattern <= s then Cut(kind, s[|pattern|..]) else Cut(ErrorToken, s)
  }

  function Special(f: Features, kind: Kind, s: bytes, pattern: bytes): (c: Cut)
    ensures |c.rest| <= |s|
  {
    if f.allowSpecialFloats then Matched(kind, s, pattern) else Cut(ErrorToken, s)
  }

  /** The token that starts with `c` and goes on with `u`. */
  function TokenAt(f: Features, c: byte, u: bytes): (t: Cut)
    ensures |t.rest| <= |u|
    ensures t.kind == StringToken ==> |t.rest| < |u|
    ensures t.kind == ArraySeparator || t.kind == ObjectEnd || t.kind == ArrayEnd ==> t.rest == u
  {
    if c == LBRACE then Cut(ObjectBegin, u)
    else if c == RBRACE then Cut(ObjectEnd, u)
    else if c == LBRACKET then Cut(ArrayBegin, u)
    else if c == RBRACKET then Cut(ArrayEnd, u)
    else if c == QUOTE then Checked(StringToken, ScanString(u, QUOTE))
    else if c == APOSTROPHE then
      (if f.allowSingleQuotes then Checked(StringToken, ScanString(u, APOSTROPHE)) else Cut(ErrorToken, u))
    else if c == SLASH then Checked(CommentToken, ScanComment(u))
    else if IsDigit(c) then Cut(NumberToken, ScanNumber(u, false).rest)
    else if c == MINUS || c == PLUS then
      var n := ScanNumber(u, true);
      if n.ok then Cut(NumberToken, n.rest)
      else Special(f, if c == MINUS then NegInfToken else PosInfToken, n.rest, NFINITY)
    else if c == 0x74 then Matched(TrueToken, u, RUE)
    else if c == 0x66 then Matched(FalseToken, u, ALSE)
    else if c == 0x6E then Matched(NullToken, u, ULL)
    else if c == 0x4E then Special(f, NaNToken, u, AN)
    else if c == 0x49 then Special(f, PosInfToken, u, NFINITY)
    else if c == COMMA then Cut(ArraySeparator, u)
    else if c == COLON then Cut(MemberSeparator, u)
    else if c == NUL then Cut(EndOfStream, u)
    else Cut(ErrorToken, u)
  }

  function ReadToken(f: Features, s: bytes): (t: Token)
    ensures t.Proper() && |t.start| <= |s|
  {
    var t := SkipSpaces(s);
    if t == [] then Token(EndOfStream, t, t)
    else
      var cut := TokenAt(f, t[0], t[1..]);
      Token(cut.kind, t, cut.rest)
  }

  /** Reads on while the token is a comment. */
  function SkipComments(f: Features, s: bytes): (t: Token)
    ensures t.Proper() && |t.start| <= |s| && t.kind != CommentToken
    decreases |s|
  {
    var t := ReadToken(f, s);
    if t.kind == CommentToken then SkipComments(f, t.rest) else t
  }

  /** `skipCommentTokens`. */
  function FirstToken(f: Features, s: bytes): (t: Token)
    ensures t.Proper() && |t.start| <= |s|
  {
    if f.allowComments then SkipComments(f, s) else ReadToken(f, s)
  }

  /** `recoverFromError`: reads on to the given kind of token or the end of the stream. */
  function Recover(f: Features, s: bytes, skipUntil: Kind): (r: bytes)
    ensures |r| <= |s|
    decreases |s|
  {
    var t := ReadToken(f, s);
    if t.kind == skipUntil || t.kind == EndOfStream then t.rest else Recover(f, t.rest, skipUntil)
  }

  // ----- what is left is a suffix of what was there -------------------------------------------------------

  predicate IsSuffix(t: bytes, s: bytes) {
    |t| <= |s| && t == s[|s| - |t|..]
  }

  lemma TailIsSuffix(t: bytes, s: bytes, n: nat)
    requires n <= |s| && IsSuffix(t, s[n..])
    ensures IsSuffix(t, s)
  {
    SuffixOfSuffix(s, n, |s| - n - |t|);
  }

  lemma SuffixTransitive(t: bytes, u: bytes, s: bytes)
    requires IsSuffix(t, u) && IsSuffix(u, s)
    ensures IsSuffix(t, s)
  {
    TailIsSuffix(t, s, |s| - |u|);
  }

  lemma {:induction false} SkipDigitsSuffix(s: bytes)
    ensures IsSuffix(SkipDigits(s), s)
  {
    if s != [] && IsDigit(s[0]) {
      SkipDigitsSuffix(s[1..]);
      TailIsSuffix(SkipDigits(s[1..]), s, 1);
    }
  }

  lemma SkipFractionSuffix(s: bytes)
    ensures IsSuffix(SkipFraction(s), s)
  {
    if s != [] && s[0] == DOT {
      SkipDigitsSuffix(s[1..]);
      TailIsSuffix(SkipDigits(s[1..]), s, 1);
    }
  }

  lemma SkipExponentSuffix(s: bytes)
    ensures IsSuffix(SkipExponent(s), s)
  {
    if |s| >= 2 {
      SkipDigitsSuffix(s[2..]);
      TailIsSuffix(SkipDigits(s[2..]), s, 2);
    }
    if s != [] {
      SkipDigitsSuffix(s[1..]);
      TailIsSuffix(SkipDigits(s[1..]), s, 1);
    }
  }

  lemma ScanNumberSuffix(s: bytes, checkInf: bool)
    ensures IsSuffix(ScanNumber(s, checkInf).rest, s)
  {
    hide SkipDigits, SkipFraction, SkipExponent;
    var a := SkipDigits(s);
    var b := SkipFraction(a);
    SkipDigitsSuffix(s);
    SkipFractionSuffix(a);
    SkipExponentSuffix(b);
    SuffixTransitive(b, a, s);
    SuffixTransitive(SkipExponent(b), b, s);
  }

  lemma AllIsSuffix(s: bytes)
    ensures IsSuffix(s, s) && IsSuffix([], s)
  {
  }

  /** What a scan leaves is what a shorter scan leaves, all but the closing quote, or nothing. */
  lemma ScanCases(s: bytes, q: byte)
    ensures var rest := ScanString(s, q).rest;
            rest == []
            || if |s| >= 2 && s[0] == BACKSLASH then rest == ScanString(s[2..], q).rest
               else s != [] && (rest == s[1..] || rest == ScanString(s[1..], q).rest)
  {
  }

  lemma {:induction false} ScanStringSuffix(s: bytes, q: byte)
    ensures IsSuffix(ScanString(s, q).rest, s)
    decreases |s|
  {
    hide IsSuffix, StringCodec.ScanString;
    AllIsSuffix(s);
    ScanCases(s, q);
    if |s| >= 2 && s[0] == BACKSLASH {
      ScanStringSuffix(s[2..], q);
      TailIsSuffix(ScanString(s[2..], q).rest, s, 2);
    } else if s != [] {
      AllIsSuffix(s[1..]);
      TailIsSuffix(s[1..], s, 1);
      ScanStringSuffix(s[1..], q);
      TailIsSuffix(ScanString(s[1..], q).rest, s, 1);
    }
  }

  lemma {:induction false} ScanCStyleSuffix(s: bytes)
    ensures IsSuffix(ScanCStyleComment(s).rest, s)
    decreases |s|
  {
    if |s| >= 2 && !(s[0] == STAR && s[1] == SLASH) {
      ScanCStyleSuffix(s[1..]);
      TailIsSuffix(ScanCStyleComment(s[1..]).rest, s, 1);
    }
  }

  lemma {:induction false} ScanCppStyleSuffix(s: bytes)
    ensures IsSuffix(ScanCppStyleComment(s), s)
    decreases |s|
  {
    if s != [] {
      ScanCppStyleSuffix(s[1..]);
      TailIsSuffix(ScanCppStyleComment(s[1..]), s, 1);
    }
  }

  lemma ScanCommentSuffix(s: bytes)
    ensures IsSuffix(ScanComment(s).rest, s)
  {
    hide ScanCStyleComment, ScanCppStyleComment;
    if s != [] {
      ScanCStyleSuffix(s[1..]);
      ScanCppStyleSuffix(s[1..]);
      TailIsSuffix(ScanCStyleComment(s[1..]).rest, s, 1);
      TailIsSuffix(ScanCppStyleComment(s[1..]), s, 1);
    }
  }

  lemma MatchedSuffix(kind: Kind, s: bytes, pattern: bytes)
    ensures IsSuffix(Matched(kind, s, pattern).rest, s)
  {
    hide IsSuffix;
    AllIsSuffix(s);
    if pattern <= s {
      AllIsSuffix(s[|pattern|..]);
      TailIsSuffix(s[|pattern|..], s, |pattern|);
    }
  }

  lemma SpecialSuffix(f: Features, kind: Kind, s: bytes, pattern: bytes)
    ensures IsSuffix(Special(f, kind, s, pattern).rest, s) && IsSuffix(Matched(kind, s, pattern).rest, s)
  {
    hide IsSuffix, Matched;
    AllIsSuffix(s);
    MatchedSuffix(kind, s, pattern);
  }

  lemma TokenAtSuffix(f: Features, c: byte, u: bytes)
    ensures IsSuffix(TokenAt(f, c, u).rest, u)
  {
    hide ScanComment, ScanNumber, StringCodec.ScanString, Special, Matched, IsSuffix;
    ScanStringSuffix(u, QUOTE);
    ScanStringSuffix(u, APOSTROPHE);
    ScanCommentSuffix(u);
    ScanNumberSuffix(u, false);
    ScanNumberSuffix(u, true);
    var n := ScanNumber(u, true);
    var kind := if c == MINUS then NegInfToken else PosInfToken;
    SpecialSuffix(f, kind, n.rest, NFINITY);
    SuffixTransitive(Special(f, kind, n.rest, NFINITY).rest, n.rest, u);
    SpecialSuffix(f, TrueToken, u, RUE);
    SpecialSuffix(f, FalseToken, u, ALSE);
    SpecialSuffix(f, NullToken, u, ULL);
    SpecialSuffix(f, NaNToken, u, AN);
    SpecialSuffix(f, PosInfToken, u, NFINITY);
    AllIsSuffix(u);
  }

  /** The text of a token and what is left after it make up what was there. */
  lemma TokenSplits(f: Features, s: bytes)
    ensures var t := ReadToken(f, s); t.start[|t.Text()|..] == t.rest
  {
    hide TokenAt;
    var u := SkipSpaces(s);
    if u != [] {
      TokenAtSuffix(f, u[0], u[1..]);
      TailIsSuffix(TokenAt(f, u[0], u[1..]).rest, u, 1);
    }
  }
}
