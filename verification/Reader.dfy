/** `OurReader`: a cursor over the document, a stack of values being built and a list of errors, updated in place. */
module Reader {
  import opened Bytes
  import opened ReaderErrors
  import opened StringCodec
  import opened NumberCodec
  import opened JsonValue
  import opened Lexer
  import Parser

  /** A token as the source keeps it: its type and two positions in the document. */
  datatype TokenInfo = TokenInfo(kind: Kind, start: nat, end: nat)

  /** A method that may be left by an exception. */
  datatype Result = Returned(ok: bool) | Raised(exception: Parser.Exception)

  /** What a token where a name is expected leads to. */
  lemma NameStep(f: Features, s: bytes, depth: nat, members: seq<Member>, name: bytes)
    ensures var t, r := SkipComments(f, s), Parser.ReadMembers(f, s, depth, members, name);
            if t.kind == ObjectEnd && (name == [] || f.allowTrailingCommas) then
              r == Parser.Done(Obj(members), t.rest, None)
            else
              match Parser.KeyOf(f, t)
              case NoKey => r == Parser.Failed(f, Obj(members), t.rest, MissingNameOrBrace, ObjectEnd)
              case BadKey(e) => r == Parser.Failed(f, Obj(members), t.rest, e, ObjectEnd)
              case Key(key) => r == Parser.AfterName(f, t.rest, depth, members, key)
  {
    hide Lexer.SkipComments, Lexer.Recover, Parser.KeyOf, Parser.AfterName;
  }

  class OurReader {
    const features: Features
    var document: bytes
    var begin: nat
    var current: nat
    var nodes: seq<Json>
    var errors: seq<ErrorKind>

    constructor (features: Features)
      ensures this.features == features && Valid()
    {
      this.features := features;
      document, begin, current, nodes, errors := [], 0, 0, [], [];
    }

    /** The cursor is inside the document. */
    ghost predicate Valid()
      reads this
    {
      begin <= current <= |document|
    }

    /** The input left to read. */
    function Rest(): bytes
      requires Valid()
      reads this
    {
      document[current..]
    }

    // ----- characters ------------------------------------------------------------------------------

    method GetNextChar() returns (c: byte)
      requires Valid()
      modifies `current
      ensures Valid() && current == if old(current) == |document| then old(current) else old(current) + 1
      ensures old(Rest()) == [] ==> c == NUL && Rest() == []
      ensures old(Rest()) != [] ==> c == old(Rest()[0]) && Rest() == old(Rest()[1..])
    {
      if current == |document| {
        return NUL;
      }
      c := document[current];
      current := current + 1;
    }

    method SkipSpaces()
      requires Valid()
      modifies `current
      ensures Valid() && old(current) <= current && Rest() == Lexer.SkipSpaces(old(Rest()))
    {
      while current != |document|
        invariant Valid() && old(current) <= current
        invariant Lexer.SkipSpaces(Rest()) == Lexer.SkipSpaces(old(Rest()))
      {
        var c := document[current];
        if IsSpace(c) {
          assert Rest()[1..] == document[current + 1..];
          current := current + 1;
        } else {
          break;
        }
      }
    }

    method SkipBom(skipBom: bool)
      requires Valid() && begin == current == 0 && skipBom == features.skipBom
      modifies `begin, `current
      ensures Valid() && Rest() == Parser.AfterBom(features, document)
    {
      if skipBom {
        if |document| - begin >= 3 && document[begin..begin + 3] == Parser.BOM {
          begin := begin + 3;
          current := begin;
        }
      }
    }

    /** Compares from the last character to the first; consumes the pattern only when it is there. */
    method Match(pattern: bytes) returns (ok: bool)
      requires Valid()
      modifies `current
      ensures Valid() && old(current) <= current
      ensures ok <==> pattern <= old(Rest())
      ensures Rest() == if ok then old(Rest())[|pattern|..] else old(Rest())
    {
      if |document| - current < |pattern| {
        return false;
      }
      var index := |pattern|;
      while index > 0
        invariant 0 <= index <= |pattern|
        invariant forall i :: index <= i < |pattern| ==> document[current + i] == pattern[i]
      {
        index := index - 1;
        if document[current + index] != pattern[index] {
          assert Rest()[index] != pattern[index];
          return false;
        }
      }
      assert document[current..current + |pattern|] == pattern;
      SuffixOfSuffix(document, current, |pattern|);
      current := current + |pattern|;
      return true;
    }

    // ----- comments, numbers, strings ------------------------------------------------------------------

    method ReadCStyleComment() returns (ok: bool)
      requires Valid()
      modifies `current
      ensures Valid() && old(current) <= current && Scan(ok, Rest()) == ScanCStyleComment(old(Rest()))
    {
      while current + 1 < |document|
        invariant Valid() && old(current) <= current
        invariant ScanCStyleComment(Rest()) == ScanCStyleComment(old(Rest()))
      {
        ghost var here := Rest();
        var c := GetNextChar();
        if c == STAR && document[current] == SLASH {
          assert here[1] == SLASH;
          c := GetNextChar();
          return true;
        }
      }
      var c := GetNextChar();
      ok := c == SLASH;
    }

    method ReadCppStyleComment() returns (ok: bool)
      requires Valid()
      modifies `current
      ensures Valid() && old(current) <= current && ok && Rest() == ScanCppStyleComment(old(Rest()))
    {
      while current != |document|
        invariant Valid() && old(current) <= current
        invariant ScanCppStyleComment(Rest()) == ScanCppStyleComment(old(Rest()))
        decreases |document| - current
      {
        ghost var here := Rest();
        var c := GetNextChar();
        if c == LF {
          return true;
        }
        if c == CR {
          if current != |document| && document[current] == LF {
            assert here[1] == LF;
            c := GetNextChar();
          }
          return true;
        }
      }
      return true;
    }

    method ReadComment() returns (ok: bool)
      requires Valid()
      modifies `current
      ensures Valid() && old(current) <= current && Scan(ok, Rest()) == ScanComment(old(Rest()))
    {
      var c := GetNextChar();
      ok := false;
      if c == STAR {
        ok := ReadCStyleComment();
      } else if c == SLASH {
        ok := ReadCppStyleComment();
      }
    }

    /** `c = (current_ = p) < end_ ? *p++ : '\0'`. */
    method Step(p: nat) returns (c: byte, p': nat)
      requires Valid() && current <= p <= |document|
      modifies `current
      ensures Valid() && current == p
      ensures p == |document| ==> c == NUL && p' == p
      ensures p < |document| ==> c == document[p] && p' == p + 1
    {
      current := p;
      if current < |document| {
        c, p' := document[p], p + 1;
      } else {
        c, p' := NUL, p;
      }
    }

    /** The state of `readNumber`: `c` is the character at the cursor and `p` is just after it. */
    ghost predicate Looking(c: byte, p: nat)
      reads this
    {
      Valid() && if current == |document| then c == NUL && p == current else c == document[current] && p == current + 1
    }

    method SkipDigits(c0: byte, p0: nat) returns (c: byte, p: nat)
      requires Looking(c0, p0)
      modifies `current
      ensures Looking(c, p) && old(current) <= current
      ensures Rest() == Lexer.SkipDigits(old(Rest()))
      ensures !IsDigit(c)
    {
      c, p := c0, p0;
      while IsDigit(c)
        invariant Looking(c, p) && old(current) <= current
        invariant Lexer.SkipDigits(Rest()) == Lexer.SkipDigits(old(Rest()))
        decreases |document| - current
      {
        SuffixOfSuffix(document, current, 1);
        c, p := Step(p);
      }
    }

    method SkipFraction(c0: byte, p0: nat) returns (c: byte, p: nat)
      requires Looking(c0, p0)
      modifies `current
      ensures Looking(c, p) && old(current) <= current && Rest() == Lexer.SkipFraction(old(Rest()))
    {
      c, p := c0, p0;
      if c == DOT {
        SuffixOfSuffix(document, current, 1);
        c, p := Step(p);
        c, p := SkipDigits(c, p);
      }
    }

    method SkipExponent(c0: byte, p0: nat) returns (c: byte, p: nat)
      requires Looking(c0, p0)
      modifies `current
      ensures Looking(c, p) && old(current) <= current && Rest() == Lexer.SkipExponent(old(Rest()))
    {
      c, p := c0, p0;
      if c == 0x65 || c == 0x45 {
        ghost var exponent := Rest();
        SuffixOfSuffix(document, current, 1);
        c, p := Step(p);
        assert Rest() == exponent[1..] && (|exponent| >= 2 ==> c == exponent[1]);
        if c == PLUS || c == MINUS {
          SuffixOfSuffix(document, current, 1);
          c, p := Step(p);
          assert Rest() == exponent[2..];
        }
        c, p := SkipDigits(c, p);
      }
    }

    method ReadNumber(checkInf: bool) returns (ok: bool)
      requires Valid()
      modifies `current
      ensures Valid() && old(current) <= current && Scan(ok, Rest()) == ScanNumber(old(Rest()), checkInf)
    {
      var p := current;
      if checkInf && p != |document| && document[p] == 0x49 {
        p := p + 1;
        current := p;
        return false;
      }
      var c;
      c, p := Step(p);
      c, p := SkipDigits(c, p);
      c, p := SkipFraction(c, p);
      c, p := SkipExponent(c, p);
      return true;
    }

    /** One round of the loop of `readString`: a character, and the one a backslash escapes. */
    method NextInString(quote: byte) returns (c: byte)
      requires Valid() && current != |document| && quote != BACKSLASH
      modifies `current
      ensures Valid() && old(current) < current
      ensures c == quote ==> ScanString(old(Rest()), quote) == Scan(true, Rest())
      ensures c != quote ==> ScanString(old(Rest()), quote) == ScanString(Rest(), quote)
    {
      hide ScanString;
      ScanStep(Rest(), quote);
      ScanStep([], quote);
      c := GetNextChar();
      if c == BACKSLASH {
        var escaped := GetNextChar();
        assert |old(Rest())| > 1 ==> Rest() == old(Rest())[2..];
        assert |old(Rest())| == 1 ==> old(Rest()) == [BACKSLASH] && Rest() == [];
      }
    }

    /** `readString` and `readStringSingleQuote`, which differ in the closing quote. */
    method ReadString(quote: byte) returns (ok: bool)
      requires Valid() && quote != BACKSLASH && quote != NUL
      modifies `current
      ensures Valid() && old(current) <= current && Scan(ok, Rest()) == ScanString(old(Rest()), quote)
    {
      hide ScanString;
      var c := NUL;
      while current != |document|
        invariant Valid() && old(current) <= current && c != quote
        invariant ScanString(Rest(), quote) == ScanString(old(Rest()), quote)
        decreases |document| - current
      {
        c := NextInString(quote);
        if c == quote {
          break;
        }
      }
      ScanStep([], quote);
      ok := c == quote;
    }

    // ----- tokens --------------------------------------------------------------------------------------

    /** `t` is the token `token`, just read: the cursor is at its end. */
    ghost predicate Holds(t: TokenInfo, token: Token)
      reads this
    {
      Valid() && begin <= t.start <= t.end == current && t.kind == token.kind
      && document[t.start..] == token.start && Rest() == token.rest
    }

    method ReadToken() returns (ok: bool, t: TokenInfo)
      requires Valid()
      modifies `current
      ensures Holds(t, Lexer.ReadToken(features, old(Rest())))
      ensures old(current) <= t.start && ok == (t.kind != ErrorToken)
    {
      SkipSpaces();
      var start := current;
      ghost var here := Rest();
      var c := GetNextChar();
      var kind := ErrorToken;
      ok := true;
      if c == LBRACE {
        kind := ObjectBegin;
      } else if c == RBRACE {
        kind := ObjectEnd;
      } else if c == LBRACKET {
        kind := ArrayBegin;
      } else if c == RBRACKET {
        kind := ArrayEnd;
      } else if c == QUOTE {
        kind := StringToken;
        ok := ReadString(QUOTE);
      } else if c == APOSTROPHE {
        if features.allowSingleQuotes {
          kind := StringToken;
          ok := ReadString(APOSTROPHE);
        } else {
          ok := false;
        }
      } else if c == SLASH {
        kind := CommentToken;
        ok := ReadComment();
      } else if IsDigit(c) {
        kind := NumberToken;
        var isNumber := ReadNumber(false);
      } else if c == MINUS || c == PLUS {
        var isNumber := ReadNumber(true);
        if isNumber {
          kind := NumberToken;
        } else {
          kind := if c == MINUS then NegInfToken else PosInfToken;
          ok := MatchSpecial(NFINITY);
        }
      } else if c == 0x74 {
        kind := TrueToken;
        ok := Match(RUE);
      } else if c == 0x66 {
        kind := FalseToken;
        ok := Match(ALSE);
      } else if c == 0x6E {
        kind := NullToken;
        ok := Match(ULL);
      } else if c == 0x4E {
        kind := NaNToken;
        ok := MatchSpecial(AN);
      } else if c == 0x49 {
        kind := PosInfToken;
        ok := MatchSpecial(NFINITY);
      } else if c == COMMA {
        kind := ArraySeparator;
      } else if c == COLON {
        kind := MemberSeparator;
      } else if c == NUL {
        kind := EndOfStream;
      } else {
        ok := false;
      }
      if !ok {
        kind := ErrorToken;
      }
      if here != [] {
        assert Cut(kind, Rest()) == TokenAt(features, here[0], here[1..]);
      }
      t := TokenInfo(kind, start, current);
    }

    method MatchSpecial(pattern: bytes) returns (ok: bool)
      requires Valid()
      modifies `current
      ensures Valid() && old(current) <= current
      ensures ok <==> features.allowSpecialFloats && pattern <= old(Rest())
      ensures Rest() == if ok then old(Rest())[|pattern|..] else old(Rest())
    {
      ok := features.allowSpecialFloats;
      if ok {
        ok := Match(pattern);
      }
    }

    /** Reads on while the token is a comment that was read without error. */
    method SkipComments() returns (ok: bool, t: TokenInfo)
      requires Valid()
      modifies `current
      ensures Holds(t, Lexer.SkipComments(features, old(Rest())))
      ensures old(current) <= t.start && ok == (t.kind != ErrorToken)
    {
      hide Lexer.TokenAt;
      ghost var from := Rest();
      ok, t := ReadToken();
      while t.kind == CommentToken && ok
        invariant Holds(t, Lexer.ReadToken(features, from))
        invariant old(current) <= t.start && ok == (t.kind != ErrorToken)
        invariant Lexer.SkipComments(features, from) == Lexer.SkipComments(features, old(Rest()))
        decreases |document| - t.start
      {
        assert Lexer.ReadToken(features, from).Proper();
        from := Rest();
        ok, t := ReadToken();
      }
    }

    /** `skipCommentTokens`. */
    method SkipCommentTokens() returns (t: TokenInfo)
      requires Valid()
      modifies `current
      ensures Holds(t, FirstToken(features, old(Rest()))) && old(current) <= t.start
    {
      var ok;
      if features.allowComments {
        ok, t := SkipComments();
      } else {
        ok, t := ReadToken();
      }
    }

    // ----- errors ----------------------------------------------------------------------------------------

    method AddError(error: ErrorKind) returns (ok: bool)
      modifies `errors
      ensures !ok && errors == old(errors) + [error]
    {
      errors := errors + [error];
      return false;
    }

    /** Reads on to the given kind of token; the list of errors is cut back to what it was. */
    method RecoverFromError(skipUntil: Kind) returns (ok: bool)
      requires Valid()
      modifies `current, `errors
      ensures Valid() && old(current) <= current && !ok
      ensures Rest() == Recover(features, old(Rest()), skipUntil) && errors == old(errors)
    {
      hide Lexer.TokenAt;
      var errorCount := |errors|;
      var skip;
      while true
        invariant Valid() && old(current) <= current && errors == old(errors)
        invariant Recover(features, Rest(), skipUntil) == Recover(features, old(Rest()), skipUntil)
        decreases |document| - current
      {
        ghost var from := Rest();
        ok, skip := ReadToken();
        if !ok {
          errors := errors[..errorCount];
        }
        if skip.kind == skipUntil || skip.kind == EndOfStream {
          break;
        }
        assert Lexer.ReadToken(features, from).Proper();
      }
      errors := errors[..errorCount];
      return false;
    }

    method AddErrorAndRecover(error: ErrorKind, skipUntil: Kind) returns (ok: bool)
      requires Valid()
      modifies `current, `errors
      ensures Valid() && old(current) <= current && !ok
      ensures Rest() == Recover(features, old(Rest()), skipUntil) && errors == old(errors) + [error]
    {
      ok := AddError(error);
      ok := RecoverFromError(skipUntil);
    }

    // ----- the value on top of the stack ---------------------------------------------------------------------

    ghost function Below(): seq<Json>
      requires nodes != []
      reads `nodes
    {
      nodes[..|nodes| - 1]
    }

    function CurrentValue(): Json
      requires nodes != []
      reads `nodes
    {
      nodes[|nodes| - 1]
    }

    method SetCurrentValue(v: Json)
      requires nodes != []
      modifies `nodes
      ensures nodes == old(Below()) + [v]
    {
      nodes := nodes[|nodes| - 1 := v];
    }

    /** The reader is where `outcome` says, from a state with the values `below` under the top and the
        errors `before`. */
    ghost predicate Reached(outcome: Parser.Outcome, result: Result, below: seq<Json>, before: seq<ErrorKind>)
      reads this
    {
      match outcome
      case Thrown(e) => result == Raised(e)
      case Done(v, rest, error) =>
        Valid() && Rest() == rest && nodes == below + [v] && errors == before + Parser.Errors(error)
        && result == Returned(error.None?)
    }

    method DecodeNumberToken(t: TokenInfo) returns (v: Parser.Scalar)
      requires t.start < t.end <= |document|
      modifies `errors
      ensures v == Parser.NumberValue(features, document[t.start..t.end])
      ensures errors == if v.Refused? then old(errors) + [v.error] else old(errors)
    {
      var n := NumberCodec.DecodeNumber(document, t.start, t.end);
      match n {
        case IntNumber(i) => v := Parser.Scalar(Int(i));
        case UIntNumber(u) => v := Parser.Scalar(UInt(u));
        case NotInteger =>
          match features.decodeDouble(document[t.start..t.end]) {
            case Some(d) => v := Parser.Scalar(Real(d));
            case None =>
              var ok := AddError(NotANumber);
              v := Parser.Refused(NotANumber);
          }
      }
    }

    method DecodeStringToken(t: TokenInfo) returns (s: Text)
      requires t.start + 2 <= t.end <= |document|
      modifies `errors
      ensures s == DecodedToken(document[t.start..t.end])
      ensures errors == if s.NoText? then old(errors) + [s.error] else old(errors)
    {
      s := StringCodec.DecodeString(document, t.start, t.end);
      if s.NoText? {
        var ok := AddError(s.error);
      }
    }

    lemma TokenText(t: TokenInfo, token: Token)
      requires Holds(t, token) && token.Proper()
      ensures document[t.start..t.end] == token.Text()
    {
    }

    // ----- readValue, readObject, readArray -------------------------------------------------------------------

    /** The cases of `readValue` that are not containers. */
    method ReadScalar(t: TokenInfo, ghost token: Token) returns (r: Result)
      requires Holds(t, token) && token.Proper() && nodes != []
      requires t.kind != ObjectBegin && t.kind != ArrayBegin
      modifies `current, `nodes, `errors
      ensures Reached(Parser.ReadScalar(features, token, old(CurrentValue())), r, old(Below()), old(errors))
      ensures r.Returned? ==> t.start <= current
    {
      hide Parser.NumberValue, Parser.StringValue, StringCodec.DecodedToken;
      hide Lexer.ReadToken, Lexer.TokenAt, Lexer.SkipSpaces;
      TokenText(t, token);
      assert nodes == Below() + [CurrentValue()];
      if t.kind == NumberToken {
        var v := DecodeNumberToken(t);
        r := StoreScalar(v);
      } else if t.kind == StringToken {
        var s := DecodeStringToken(t);
        r := StoreScalar(if s.NoText? then Parser.Refused(s.error) else Parser.StringValue(s.text));
      } else if Parser.IsLiteral(t.kind) {
        r := StoreLiteral(t.kind);
      } else if features.allowDroppedNullPlaceholders
                && (t.kind == ArraySeparator || t.kind == ObjectEnd || t.kind == ArrayEnd) {
        current := current - 1;
        r := StoreScalar(Parser.Scalar(Null));
      } else {
        var ok := AddError(ValueExpected);
        r := Returned(ok);
      }
    }

    method StoreLiteral(kind: Kind) returns (r: Result)
      requires nodes != [] && Parser.IsLiteral(kind)
      modifies `nodes
      ensures r == Returned(true) && nodes == old(Below()) + [Parser.LiteralValue(kind)]
    {
      match kind {
        case TrueToken => r := StoreScalar(Parser.Scalar(Bool(true)));
        case FalseToken => r := StoreScalar(Parser.Scalar(Bool(false)));
        case NullToken => r := StoreScalar(Parser.Scalar(Null));
        case NaNToken => r := StoreScalar(Parser.Scalar(Real(NaN)));
        case PosInfToken => r := StoreScalar(Parser.Scalar(Real(PosInf)));
        case NegInfToken => r := StoreScalar(Parser.Scalar(Real(NegInf)));
      }
    }

    method ReadValue() returns (r: Result)
      requires Valid() && nodes != []
      modifies `current, `nodes, `errors
      ensures Reached(Parser.ReadValue(features, old(Rest()), |old(nodes)|, old(CurrentValue())), r,
                      old(Below()), old(errors))
      ensures r.Returned? ==> old(current) <= current && |nodes| == |old(nodes)|
                              && |errors| == |old(errors)| + (if r.ok then 0 else 1)
      decreases |document| - current, 0
    {
      hide Lexer.FirstToken, Parser.ReadMembers, Parser.ReadItems, Parser.ReadScalar;
      if |nodes| > features.stackLimit {
        return Raised(Parser.StackLimitExceeded);
      }
      ghost var token := FirstToken(features, Rest());
      var t := SkipCommentTokens();
      assert token.Proper();
      match t.kind {
        case ObjectBegin => r := ReadObject();
        case ArrayBegin => r := ReadArray();
        case _ => r := ReadScalar(t, token);
      }
    }

    /** `currentValue().swapPayload`, when there is a payload. */
    method StoreScalar(v: Parser.Scalar) returns (r: Result)
      requires nodes != []
      modifies `nodes
      ensures r == match v
                   case Scalar(_) => Returned(true)
                   case Refused(_) => Returned(false)
                   case Throws(e) => Raised(e)
      ensures nodes == old(Below()) + [if v.Scalar? then v.value else old(CurrentValue())]
    {
      match v {
        case Scalar(value) =>
          SetCurrentValue(value);
          r := Returned(true);
        case Refused(_) => r := Returned(false);
        case Throws(e) => r := Raised(e);
      }
    }

    /** The name of the next member, or the reason there is none; `NoKey` for a token that cannot be one. */
    method ReadKey(t: TokenInfo, ghost token: Token) returns (key: Parser.Key)
      requires Holds(t, token) && token.Proper()
      modifies `errors
      ensures Holds(t, token) && key == Parser.KeyOf(features, token)
      ensures errors == if key.BadKey? then old(errors) + [key.error] else old(errors)
    {
      TokenText(t, token);
      if t.kind == StringToken {
        var s := DecodeStringToken(t);
        key := if s.NoText? then Parser.BadKey(s.error) else Parser.Key(s.text);
      } else if t.kind == NumberToken && features.allowNumericKeys {
        var v := DecodeNumberToken(t);
        key := if v.Refused? then Parser.BadKey(v.error) else Parser.Key(Parser.NumberText(features, v.value));
      } else {
        key := Parser.NoKey;
      }
    }

    /** `currentValue()[name]` is made, pushed, read and popped; its value goes back into its place. */
    method ReadMember(name: bytes) returns (r: Result)
      requires Valid() && nodes != [] && CurrentValue().Obj?
      modifies `current, `nodes, `errors
      ensures var members := old(CurrentValue().members);
              var child := Parser.ReadValue(features, old(Rest()), |old(nodes)| + 1,
                             Parser.WithMember(members, name)[Parser.LowerBound(members, name)].value);
              match child
              case Thrown(e) => r == Raised(e)
              case Done(v, rest, error) =>
                Valid() && old(current) <= current && Rest() == rest && r == Returned(error.None?)
                && nodes == old(Below()) + [Obj(Parser.SetMember(members, name, v))]
                && errors == old(errors) + Parser.Errors(error)
      decreases |document| - current, 1
    {
      hide Parser.ReadValue;
      var members := CurrentValue().members;
      var i := Parser.LowerBound(members, name);
      SetCurrentValue(Obj(Parser.WithMember(members, name)));
      nodes := nodes + [CurrentValue().members[i].value];
      r := ReadValue();
      if r.Raised? {
        return;
      }
      var value := CurrentValue();
      nodes := nodes[..|nodes| - 1];
      SetCurrentValue(Obj(CurrentValue().members[i := Member(name, value)]));
    }

    /** What follows a member's name; `colon` when the member goes on. */
    method AfterName(ghost members: seq<Member>, name: bytes) returns (colon: bool, r: Result)
      requires Valid() && nodes != [] && CurrentValue() == Obj(members)
      modifies `current, `errors
      ensures var outcome := Parser.AfterName(features, old(Rest()), |nodes|, members, name);
              if colon then
                Valid() && old(current) < current && errors == old(errors)
                && outcome == Parser.ReadMemberValue(features, Rest(), |nodes|, members, name)
              else Reached(outcome, r, Below(), old(errors)) && (r.Returned? ==> old(current) <= current)
    {
      hide Lexer.ReadToken, Lexer.Recover, Parser.IsMember, Parser.ReadMemberValue;
      var ok;
      if |name| >= MAX_KEY_LENGTH {
        return false, Raised(Parser.KeyTooLong);
      }
      if features.rejectDupKeys && Parser.IsMember(CurrentValue().members, name) {
        ok := AddErrorAndRecover(DuplicateKey, ObjectEnd);
        return false, Returned(ok);
      }
      ghost var token := Lexer.ReadToken(features, Rest());
      var t;
      ok, t := ReadToken();
      if !ok || t.kind != MemberSeparator {
        ok := AddErrorAndRecover(MissingColon, ObjectEnd);
        return false, Returned(ok);
      }
      assert token.Proper();
      return true, Returned(true);
    }

    /** The name of a member; `named` when it is there. */
    method ReadName(ghost members: seq<Member>, name0: bytes) returns (named: bool, name: bytes, r: Result)
      requires Valid() && nodes != [] && CurrentValue() == Obj(members)
      modifies `current, `errors
      ensures var outcome := Parser.ReadMembers(features, old(Rest()), |nodes|, members, name0);
              if named then
                Valid() && old(current) <= current && errors == old(errors)
                && outcome == Parser.AfterName(features, Rest(), |nodes|, members, name)
              else Reached(outcome, r, Below(), old(errors)) && (r.Returned? ==> old(current) <= current)
    {
      hide Lexer.SkipComments, Lexer.Recover, Lexer.SkipSpaces, Lexer.ReadToken, Parser.KeyOf, Parser.AfterName;
      hide Parser.ReadMembers;
      NameStep(features, Rest(), |nodes|, members, name0);
      ghost var token := Lexer.SkipComments(features, Rest());
      var ok, tokenName := SkipComments();
      if tokenName.kind == ObjectEnd && (name0 == [] || features.allowTrailingCommas) {
        return false, [], Returned(true);
      }
      var key := ReadKey(tokenName, token);
      if key.NoKey? {
        ok := AddErrorAndRecover(MissingNameOrBrace, ObjectEnd);
        return false, [], Returned(ok);
      }
      if key.BadKey? {
        ok := RecoverFromError(ObjectEnd);
        return false, [], Returned(ok);
      }
      return true, key.name, Returned(true);
    }

    /** What follows a member; `more` when another one is expected. */
    method AfterMember(ghost members: seq<Member>, name: bytes) returns (more: bool, r: Result)
      requires Valid() && nodes != [] && CurrentValue() == Obj(members)
      modifies `current, `errors
      ensures var after := Parser.AfterMember(features, old(Rest()), |nodes|, members, name);
              if more then
                Valid() && old(current) < current && errors == old(errors)
                && after == Parser.ReadMembers(features, Rest(), |nodes|, members, name)
              else Reached(after, r, Below(), old(errors)) && old(current) <= current
    {
      hide Lexer.ReadToken, Lexer.SkipComments, Lexer.Recover, Parser.ReadMembers;
      ghost var token := Lexer.ReadToken(features, Rest());
      var ok, comma := ReadToken();
      if !ok || (comma.kind != ObjectEnd && comma.kind != ArraySeparator && comma.kind != CommentToken) {
        ok := AddErrorAndRecover(MissingCommaOrBrace, ObjectEnd);
        return false, Returned(ok);
      }
      assert token.Proper();
      if comma.kind == CommentToken {
        ok, comma := SkipComments();
      }
      return comma.kind != ObjectEnd, Returned(true);
    }

    method ReadObject() returns (r: Result)
      requires Valid() && nodes != []
      modifies `current, `nodes, `errors
      ensures Reached(Parser.ReadMembers(features, old(Rest()), |old(nodes)|, [], []), r, old(Below()), old(errors))
      ensures r.Returned? ==> old(current) <= current
      decreases |document| - current, 2
    {
      hide Parser.ReadMembers, Parser.AfterName, Parser.AfterMember, Parser.ReadValue, Lexer.Recover;
      hide Parser.SetMember, Parser.WithMember;
      SetCurrentValue(Obj([]));
      var name: bytes := [];
      while true
        invariant Valid() && old(current) <= current && errors == old(errors)
        invariant |nodes| == |old(nodes)| && Below() == old(Below()) && CurrentValue().Obj?
        invariant Parser.ReadMembers(features, Rest(), |nodes|, CurrentValue().members, name)
                  == Parser.ReadMembers(features, old(Rest()), |nodes|, [], [])
        decreases |document| - current
      {
        var more;
        more, name, r := ReadName(CurrentValue().members, name);
        if !more {
          return;
        }
        more, r := AfterName(CurrentValue().members, name);
        if !more {
          return;
        }
        r := ReadMember(name);
        if r.Raised? {
          return;
        }
        if !r.ok {
          var ok := RecoverFromError(ObjectEnd);
          return Returned(ok);
        }
        more, r := AfterMember(CurrentValue().members, name);
        if !more {
          return;
        }
      }
    }

    /** The next element is made, pushed, read and popped. */
    method ReadItem() returns (r: Result)
      requires Valid() && nodes != [] && CurrentValue().Arr?
      modifies `current, `nodes, `errors
      ensures var child := Parser.ReadValue(features, old(Rest()), |old(nodes)| + 1, Null);
              match child
              case Thrown(e) => r == Raised(e)
              case Done(v, rest, error) =>
                Valid() && old(current) <= current && Rest() == rest && r == Returned(error.None?)
                && nodes == old(Below()) + [Arr(old(CurrentValue().items) + [v])]
                && errors == old(errors) + Parser.Errors(error)
      decreases |document| - current, 1
    {
      hide Parser.ReadValue;
      var index := |CurrentValue().items|;
      SetCurrentValue(Arr(CurrentValue().items + [Null]));
      nodes := nodes + [CurrentValue().items[index]];
      r := ReadValue();
      if r.Raised? {
        return;
      }
      var value := CurrentValue();
      nodes := nodes[..|nodes| - 1];
      assert nodes == old(Below()) + [Arr(old(CurrentValue().items) + [Null])];
      assert CurrentValue().items[index := value] == old(CurrentValue().items) + [value];
      SetCurrentValue(Arr(CurrentValue().items[index := value]));
    }

    /** What follows an element; `more` when another one does. */
    method AfterItem() returns (more: bool, r: Result)
      requires Valid() && nodes != [] && CurrentValue().Arr?
      modifies `current, `errors
      ensures var after := Parser.AfterItem(features, old(Rest()), |nodes|, CurrentValue().items);
              if more then
                Valid() && old(current) < current && errors == old(errors)
                && after == Parser.ReadItems(features, Rest(), |nodes|, CurrentValue().items)
              else Reached(after, r, Below(), old(errors)) && old(current) <= current
    {
      hide Lexer.SkipComments, Parser.ReadItems, Lexer.Recover;
      ghost var token := Lexer.SkipComments(features, Rest());
      var ok, currentToken := SkipComments();
      if !ok || (currentToken.kind != ArraySeparator && currentToken.kind != ArrayEnd) {
        ok := AddErrorAndRecover(MissingCommaOrBracket, ArrayEnd);
        return false, Returned(ok);
      }
      assert token.Proper();
      return currentToken.kind != ArrayEnd, Returned(true);
    }

    /** Skips spaces, and reads the closing bracket when it ends the array here. */
    method TryEndOfArray() returns (ended: bool)
      requires Valid() && nodes != [] && CurrentValue().Arr?
      modifies `current
      ensures Valid() && old(current) <= current
      ensures var t := Lexer.SkipSpaces(old(Rest()));
              ended == (t != [] && t[0] == RBRACKET
                        && (CurrentValue().items == []
                            || (features.allowTrailingCommas && !features.allowDroppedNullPlaceholders)))
              && Rest() == if ended then t[1..] else t
    {
      SkipSpaces();
      ended := current != |document| && document[current] == RBRACKET
               && (CurrentValue().items == []
                   || (features.allowTrailingCommas && !features.allowDroppedNullPlaceholders));
      if ended {
        var ok, endArray := ReadToken();
      }
    }

    /** One round of the loop of `readArray`. */
    method NextItem() returns (more: bool, r: Result)
      requires Valid() && nodes != [] && CurrentValue().Arr?
      modifies `current, `nodes, `errors
      ensures var items := Parser.ReadItems(features, old(Rest()), |old(nodes)|, old(CurrentValue().items));
              if more then
                && Valid() && old(current) < current && errors == old(errors)
                && |nodes| == |old(nodes)| && Below() == old(Below()) && CurrentValue().Arr?
                && items == Parser.ReadItems(features, Rest(), |nodes|, CurrentValue().items)
              else Reached(items, r, old(Below()), old(errors)) && (r.Returned? ==> old(current) <= current)
      decreases |document| - current, 2
    {
      hide Parser.AfterItem, Parser.ReadValue, Lexer.Recover, Lexer.SkipSpaces, Lexer.ReadToken;
      var ended := TryEndOfArray();
      if ended {
        return false, Returned(true);
      }
      r := ReadItem();
      if r.Raised? {
        return false, r;
      }
      assert Below() == old(Below()) && nodes == Below() + [CurrentValue()];
      if !r.ok {
        var ok := RecoverFromError(ArrayEnd);
        return false, Returned(ok);
      }
      more, r := AfterItem();
    }

    method ReadArray() returns (r: Result)
      requires Valid() && nodes != []
      modifies `current, `nodes, `errors
      ensures Reached(Parser.ReadItems(features, old(Rest()), |old(nodes)|, []), r, old(Below()), old(errors))
      ensures r.Returned? ==> old(current) <= current
      decreases |document| - current, 3
    {
      hide Parser.ReadItems;
      SetCurrentValue(Arr([]));
      while true
        invariant Valid() && old(current) <= current && errors == old(errors)
        invariant |nodes| == |old(nodes)| && Below() == old(Below()) && CurrentValue().Arr?
        invariant Parser.ReadItems(features, Rest(), |nodes|, CurrentValue().items)
                  == Parser.ReadItems(features, old(Rest()), |nodes|, [])
        decreases |document| - current
      {
        var more;
        more, r := NextItem();
        if !more {
          return;
        }
      }
    }

    // ----- parse -------------------------------------------------------------------------------------------------

    /** The checks after the value. */
    method Finish(successful: bool, root: Json, ghost error: Option<ErrorKind>) returns (ok: bool)
      requires Valid() && successful == error.None? && errors == Parser.Errors(error)
      modifies `current, `errors
      ensures Valid()
      ensures Parser.Parsed(ok, root, errors) == Parser.Finish(features, root, old(Rest()), error)
    {
      hide Lexer.FirstToken;
      var token := SkipCommentTokens();
      if features.failIfExtra && token.kind != EndOfStream {
        ok := AddError(ExtraAfterValue);
        return;
      }
      if features.strictRoot {
        if !root.Arr? && !root.Obj? {
          ok := AddError(RootNotContainer);
          return;
        }
      }
      return successful;
    }

    /** `parse` with comment collection off: finishes on every document and under every feature setting,
        with the outcome of the grammar, unless a limit is exceeded. */
    method Parse(beginDoc: bytes, root0: Json) returns (r: Result, root: Json)
      modifies this
      ensures match Parser.Parse(features, beginDoc, root0)
              case Escaped(e) => r == Raised(e)
              case Parsed(ok, value, errors') =>
                r == Returned(ok) && root == value && errors == errors' && nodes == [] && Valid() && document == beginDoc
    {
      hide Parser.ReadValue, Parser.Finish, Parser.AfterBom;
      document, begin, current, errors := beginDoc, 0, 0, [];
      nodes := [root0];
      root := root0;
      SkipBom(features.skipBom);
      ghost var outcome := Parser.ReadValue(features, Rest(), 1, root0);
      r := ReadValue();
      if r.Raised? {
        return;
      }
      root := CurrentValue();
      nodes := [];
      var ok := Finish(r.ok, root, outcome.error);
      return Returned(ok), root;
    }
  }
}
