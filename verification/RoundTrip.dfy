/** Whole documents: what either writer prints, the reader reads back. */
module RoundTrip {
  import opened Bytes
  import opened ReaderErrors
  import opened NumberCodec
  import opened JsonValue
  import opened Lexer
  import opened Parser
  import opened Tokens
  import opened Grammar
  import opened ParseTokens
  import JsonTexts
  import Fast = FastWriter
  import Styled = StyledWriter
  import StyledText
  import Reader

  /** What `parse` answers for a document that holds the tokens of `v` and nothing else. */
  function ReadBack(f: Features, v: Json): Parsed {
    if Height(v) > f.stackLimit then Escaped(StackLimitExceeded)
    else if f.strictRoot && !v.Arr? && !v.Obj? then Parsed(false, Normal(v), [RootNotContainer])
    else Parsed(true, Normal(v), [])
  }

  lemma NoBom(f: Features, w: bytes, ts: seq<Lexeme>)
    requires Renders(w, ts) && (ts != [] ==> Legal(ts[0]))
    ensures AfterBom(f, w) == w
  {
    if ts != [] && w != [] && !IsSpace(w[0]) {
      LegalStart(ts[0]);
      assert w[0] == ts[0].text[0];
    }
  }

  lemma NothingLeft(f: Features, s: bytes)
    requires LexAll(f, s) == []
    ensures FirstToken(f, s).kind == EndOfStream
  {
  }

  lemma NormalContainers(v: Json)
    ensures (Normal(v).Arr? || Normal(v).Obj?) == (v.Arr? || v.Obj?)
  {
  }

  /** Any rendering of the tokens of a storable value is read back, under every feature setting. */
  lemma DocumentReads(f: Features, w: bytes, v: Json, emitUTF8: bool, root0: Json)
    requires Storable(v, emitUTF8) && RealFree(v) && Renders(w, TokensOf(v, emitUTF8))
    ensures Parse(f, w, root0) == ReadBack(f, v)
  {
    hide Renders, TokensOf, LexAll, FirstToken, ReadValue, Normal, Height, Storable, RealFree, AfterBom;
    TokensSeparated(v, emitUTF8);
    RenderedLexes(f, w, TokensOf(v, emitUTF8));
    NoBom(f, w, TokensOf(v, emitUTF8));
    assert TokensOf(v, emitUTF8) + [] == TokensOf(v, emitUTF8);
    ValueReads(f, w, 1, root0, v, emitUTF8, []);
    NormalContainers(v);
    if Height(v) <= f.stackLimit {
      NothingLeft(f, ReadValue(f, w, 1, root0).rest);
    }
  }

  /** Any rendering of the tokens of a value is a JSON text. */
  lemma PrintedIsJson(w: bytes, v: Json, emitUTF8: bool)
    requires RealFree(v) && Renders(w, TokensOf(v, emitUTF8))
    ensures JsonTexts.IsJson(w)
  {
    hide Renders, TokensOf, RealFree, Spelled, JsonTexts.Standard, SyntaxOf;
    TokensSpell(v, emitUTF8);
    SyntaxIsStandard(v, emitUTF8);
  }

  // ----- the two printers ------------------------------------------------------------------------------

  /** The compact text of any real-free value is a JSON text. */
  lemma FastIsJson(v: Json, yaml: bool, omitEndingLineFeed: bool)
    requires RealFree(v)
    ensures JsonTexts.IsJson(Fast.FastDocument(v, yaml, omitEndingLineFeed))
  {
    hide RealFree, Renders, TokensOf, JsonTexts.IsJson;
    Fast.DocumentRenders(v, yaml, omitEndingLineFeed);
    PrintedIsJson(Fast.FastDocument(v, yaml, omitEndingLineFeed), v, false);
  }

  lemma FastRoundTrip(f: Features, v: Json, yaml: bool, omitEndingLineFeed: bool, root0: Json)
    requires Storable(v, false) && RealFree(v)
    ensures Parse(f, Fast.FastDocument(v, yaml, omitEndingLineFeed), root0) == ReadBack(f, v)
  {
    hide Parser.Parse, ReadBack, Storable, RealFree, Renders, TokensOf;
    Fast.DocumentRenders(v, yaml, omitEndingLineFeed);
    DocumentReads(f, Fast.FastDocument(v, yaml, omitEndingLineFeed), v, false, root0);
  }

  /** Every rendering of a value lexes to the token sequence of its compact text. */
  lemma SameTokensAsFast(f: Features, w: bytes, v: Json)
    requires RealFree(v) && Renders(w, TokensOf(v, false))
    ensures forall yaml, omit :: LexAll(f, w) == LexAll(f, Fast.FastDocument(v, yaml, omit))
  {
    TokensSeparated(v, false);
    RenderedLexes(f, w, TokensOf(v, false));
    forall yaml, omit ensures LexAll(f, Fast.FastDocument(v, yaml, omit)) == TokensOf(v, false) {
      Fast.DocumentRenders(v, yaml, omit);
      RenderedLexes(f, Fast.FastDocument(v, yaml, omit), TokensOf(v, false));
    }
  }

  ghost predicate Answers(p: Parsed, r: Reader.Result, root: Json) {
    match p
    case Escaped(e) => r == Reader.Raised(e)
    case Parsed(ok, value, _) => r == Reader.Returned(ok) && root == value
  }

  /** The compact printer followed by the reader. */
  method WriteFastAndRead(f: Features, v: Json, yaml: bool, omitEndingLineFeed: bool, root0: Json)
    returns (r: Reader.Result, root: Json)
    requires Storable(v, false) && InRange(v)
    ensures Answers(ReadBack(f, v), r, root)
  {
    hide Storable, InRange, RealFree, ReadBack, Parser.Parse, Fast.FastDocument;
    StorableIsRealFree(v, false);
    var writer := new Fast.FastWriter(yaml, omitEndingLineFeed);
    var text := writer.Write(v);
    FastRoundTrip(f, v, yaml, omitEndingLineFeed, root0);
    var reader := new Reader.OurReader(f);
    r, root := reader.Parse(text, root0);
  }

  /** The indenting printer followed by the reader; without `emitUTF8` its text has the compact tokens. */
  method WriteStyledAndRead(f: Features, v: Json, indentation: bytes, commentStyle: string, yaml: bool, emitUTF8: bool,
                            root0: Json)
    returns (text: bytes, r: Reader.Result, root: Json)
    requires Storable(v, emitUTF8) && InRange(v) && AllSpaces(indentation)
    requires commentStyle == "All" || commentStyle == "None"
    ensures Answers(ReadBack(f, v), r, root)
    ensures RealFree(v) && JsonTexts.IsJson(text)
    ensures !emitUTF8 ==> LexAll(f, text) == LexAll(f, Fast.FastDocument(v, false, true))
  {
    hide Storable, InRange, RealFree, ReadBack, Parser.Parse, Fast.FastDocument, LexAll, Renders, TokensOf;
    hide JsonTexts.IsJson;
    StorableIsRealFree(v, emitUTF8);
    var writer := Styled.NewStreamWriter(indentation, commentStyle, yaml, false, emitUTF8);
    text := writer.Write(v);
    Styled.BuiltToBeRead(writer.Settings());
    StyledText.DocumentRenders(writer.Settings(), v);
    DocumentReads(f, text, v, emitUTF8, root0);
    PrintedIsJson(text, v, emitUTF8);
    if !emitUTF8 {
      SameTokensAsFast(f, text, v);
    }
    var reader := new Reader.OurReader(f);
    r, root := reader.Parse(text, root0);
  }

  // ----- what the value that comes back is -----------------------------------------------------------------

  predicate SmallUnsignedFree(v: Json)
    decreases v
  {
    match v
    case UInt(u) => u > MAX_LARGEST_INT
    case Arr(items) => forall i :: 0 <= i < |items| ==> SmallUnsignedFree(items[i])
    case Obj(members) => forall i :: 0 <= i < |members| ==> SmallUnsignedFree(members[i].value)
    case _ => true
  }

  /** The value comes back unchanged exactly when no unsigned number in it fits a signed one. */
  lemma {:induction false} ComesBackUnchanged(v: Json)
    ensures Normal(v) == v <==> SmallUnsignedFree(v)
    decreases v
  {
    match v
    case Arr(items) =>
      forall i | 0 <= i < |items|
        ensures NormalItems(items)[i] == items[i] <==> SmallUnsignedFree(items[i])
      {
        NormalItemAt(items, i);
        ComesBackUnchanged(items[i]);
      }
    case Obj(members) =>
      forall i | 0 <= i < |members|
        ensures NormalMembers(members)[i] == members[i] <==> SmallUnsignedFree(members[i].value)
      {
        NormalMemberAt(members, i);
        ComesBackUnchanged(members[i].value);
      }
    case _ =>
  }

  lemma {:induction false} NormalItemAt(items: seq<Json>, i: nat)
    requires i < |items|
    ensures NormalItems(items)[i] == Normal(items[i])
  {
    if i > 0 {
      NormalItemAt(items[1..], i - 1);
    }
  }

  lemma {:induction false} NormalMemberAt(members: seq<Member>, i: nat)
    requires i < |members|
    ensures NormalMembers(members)[i] == Member(members[i].key, Normal(members[i].value))
  {
    if i > 0 {
      NormalMemberAt(members[1..], i - 1);
    }
  }

  /** The value that comes back prints the same tokens, so a second round changes nothing. */
  lemma {:induction false} SecondRoundIsExact(v: Json, emitUTF8: bool)
    requires RealFree(v)
    ensures RealFree(Normal(v)) && TokensOf(Normal(v), emitUTF8) == TokensOf(v, emitUTF8)
    ensures Normal(Normal(v)) == Normal(v)
    decreases v, 1
  {
    match v
    case Arr(items) => ItemsSecondRound(items, emitUTF8);
    case Obj(members) => MembersSecondRound(members, emitUTF8);
    case _ =>
  }

  lemma {:induction false} ItemsSecondRound(items: seq<Json>, emitUTF8: bool)
    requires ItemsRealFree(items)
    ensures ItemsRealFree(NormalItems(items))
    ensures ItemTokens(NormalItems(items), emitUTF8) == ItemTokens(items, emitUTF8)
    ensures NormalItems(NormalItems(items)) == NormalItems(items)
    decreases items, 0
  {
    if items != [] {
      SecondRoundIsExact(items[0], emitUTF8);
      ItemsSecondRound(items[1..], emitUTF8);
      assert NormalItems(items)[1..] == NormalItems(items[1..]);
    }
  }

  lemma {:induction false} MembersSecondRound(members: seq<Member>, emitUTF8: bool)
    requires MembersRealFree(members)
    ensures MembersRealFree(NormalMembers(members))
    ensures MemberTokens(NormalMembers(members), emitUTF8) == MemberTokens(members, emitUTF8)
    ensures NormalMembers(NormalMembers(members)) == NormalMembers(members)
    decreases members, 0
  {
    if members != [] {
      SecondRoundIsExact(members[0].value, emitUTF8);
      MembersSecondRound(members[1..], emitUTF8);
      assert NormalMembers(members)[1..] == NormalMembers(members[1..]);
    }
  }
}
