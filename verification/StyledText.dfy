/** What the indenting printer writes, byte for byte: on how many lines, with which indentation. */
module StyledText {
  import opened Bytes
  import opened StringCodec
  import opened NumberCodec
  import opened JsonValue
  import opened Lexer
  import opened Tokens
  import Fast = FastWriter

  datatype CommentStyle = None | Most | All

  /** The settings of a writer. */
  datatype Style = Style(
    indentation: bytes,
    cs: CommentStyle,
    colonSymbol: bytes,
    nullSymbol: bytes,
    endingLineFeedSymbol: bytes,
    emitUTF8: bool)

  // ----- the layout ---------------------------------------------------------------------------------------

  /** One line of text can hold it: no nested elements. */
  predicate Flat(v: Json) {
    (v.Arr? ==> v.items == []) && (v.Obj? ==> v.members == [])
  }

  /** A new line, indented; nothing when there is no indentation. */
  function NewLine(st: Style, indent: bytes): bytes {
    if st.indentation == [] then [] else [0x0A] + indent
  }

  function Gap(st: Style): bytes {
    if st.indentation == [] then [] else [0x20]
  }

  function Comma(n: nat): bytes {
    if n == 0 then [] else [0x2C]
  }

  function ScalarText(st: Style, v: Json): bytes
    requires !v.Arr? && !v.Obj? && !v.Real?
  {
    if v.Null? then st.nullSymbol else ScalarLexeme(v, st.emitUTF8).text
  }

  /** The text of a value whose line is indented by `indent`; `indented` at the start of that line. */
  function ValueText(st: Style, v: Json, indent: bytes, indented: bool): bytes
    requires RealFree(v)
    decreases v, 4
  {
    var start := if indented then [] else NewLine(st, indent);
    match v
    case Arr(items) =>
      if items == [] then [0x5B, 0x5D]
      else if Multiline(st, items) then
        start + [0x5B] + Lines(st, items, indent + st.indentation) + NewLine(st, indent) + [0x5D]
      else [0x5B] + Gap(st) + OneLine(st, items) + Gap(st) + [0x5D]
    case Obj(members) =>
      if members == [] then [0x7B, 0x7D]
      else start + [0x7B] + MemberLines(st, members, indent + st.indentation) + NewLine(st, indent) + [0x7D]
    case _ => ScalarText(st, v)
  }

  /** An array takes several lines when comments are kept, when it has many elements or one that is nested, or when one
      line would be longer than the margin. The lengths are counted in 32 bits. */
  predicate Multiline(st: Style, items: seq<Json>)
    requires ItemsRealFree(items)
    decreases items, 3
  {
    || st.cs == All
    || Wrapped(|items| * 3) >= 74
    || (exists i :: 0 <= i < |items| && !Flat(items[i]))
    || LineLength(st, items) >= 74
  }

  /** Two brackets and a comma between every two elements, each with a space. */
  function LineLength(st: Style, items: seq<Json>): nat
    requires ItemsRealFree(items)
    decreases items, 2
  {
    Wrapped(4 + (|items| - 1) * 2 + Lengths(st, items))
  }

  /** A number in 32 bits. */
  function Wrapped(n: int): nat {
    n % 0x1_0000_0000
  }

  lemma WrappedSum(a: int, b: int)
    ensures Wrapped(Wrapped(a) + b) == Wrapped(a + b)
  {
  }

  function Lengths(st: Style, items: seq<Json>): nat
    requires ItemsRealFree(items)
    decreases items, 1
  {
    if items == [] then 0
    else
      var n := |items| - 1;
      Lengths(st, items[..n]) + |ValueText(st, items[n], [], true)|
  }

  /** The elements, one on each line. */
  function Lines(st: Style, items: seq<Json>, indent: bytes): bytes
    requires ItemsRealFree(items)
    decreases items, 1
  {
    if items == [] then []
    else
      var n := |items| - 1;
      Lines(st, items[..n], indent) + (Comma(n) + (NewLine(st, indent) + ValueText(st, items[n], indent, true)))
  }

  /** The elements on one line. */
  function OneLine(st: Style, items: seq<Json>): bytes
    requires ItemsRealFree(items)
    decreases items, 1
  {
    if items == [] then []
    else
      var n := |items| - 1;
      OneLine(st, items[..n]) + ((if n == 0 then [] else [0x2C] + Gap(st)) + ValueText(st, items[n], [], true))
  }

  function MemberLines(st: Style, members: seq<Member>, indent: bytes): bytes
    requires MembersRealFree(members)
    decreases members, 1
  {
    if members == [] then []
    else
      var n := |members| - 1;
      MemberLines(st, members[..n], indent) + (Comma(n) + MemberLine(st, members[n], indent))
  }

  function MemberLine(st: Style, m: Member, indent: bytes): bytes
    requires RealFree(m.value)
    decreases m, 5
  {
    NewLine(st, indent) + Quoted(m.key, st.emitUTF8) + st.colonSymbol + ValueText(st, m.value, indent, false)
  }

  function Document(st: Style, v: Json): bytes
    requires RealFree(v)
  {
    ValueText(st, v, [], true) + st.endingLineFeedSymbol
  }

  // ----- one element more -----------------------------------------------------------------------------------

  lemma FlatText(st: Style, v: Json, indent: bytes, indented: bool)
    requires RealFree(v) && Flat(v)
    ensures ValueText(st, v, indent, indented) == ValueText(st, v, [], true)
  {
  }

  lemma LinesStep(st: Style, items: seq<Json>, i: nat, indent: bytes)
    requires ItemsRealFree(items) && i < |items|
    ensures Lines(st, items[..i + 1], indent)
            == Lines(st, items[..i], indent)
               + (Comma(i) + (NewLine(st, indent) + ValueText(st, items[i], indent, true)))
  {
    assert items[..i + 1][..i] == items[..i];
  }

  lemma OneLineStep(st: Style, items: seq<Json>, i: nat)
    requires ItemsRealFree(items) && i < |items|
    ensures OneLine(st, items[..i + 1])
            == OneLine(st, items[..i]) + ((if i == 0 then [] else [0x2C] + Gap(st)) + ValueText(st, items[i], [], true))
    ensures Lengths(st, items[..i + 1]) == Lengths(st, items[..i]) + |ValueText(st, items[i], [], true)|
  {
    assert items[..i + 1][..i] == items[..i];
  }

  lemma MemberLinesStep(st: Style, members: seq<Member>, i: nat, indent: bytes)
    requires MembersRealFree(members) && i < |members|
    ensures MemberLines(st, members[..i + 1], indent)
            == MemberLines(st, members[..i], indent) + (Comma(i) + MemberLine(st, members[i], indent))
  {
    assert members[..i + 1][..i] == members[..i];
  }

  lemma NoLines(st: Style, indent: bytes)
    ensures Lines(st, [], indent) == [] && OneLine(st, []) == [] && Lengths(st, []) == 0
    ensures MemberLines(st, [], indent) == []
  {
  }

  // ----- the text renders the value's tokens ------------------------------------------------------------------

  /** The settings of a writer whose output is meant to be read back. */
  ghost predicate Readable(st: Style) {
    AllSpaces(st.indentation) && Renders(st.colonSymbol, [COLON_SIGN]) && st.nullSymbol == NULL_TEXT
    && AllSpaces(st.endingLineFeedSymbol)
  }

  lemma RendersSpaced(before: bytes, w: bytes, ts: seq<Lexeme>)
    requires AllSpaces(before) && Renders(w, ts)
    ensures Renders(before + w, ts)
  {
    hide Renders;
    RendersSpaces(before);
    RendersAppend(before, [], w, ts);
    assert [] + ts == ts;
  }

  lemma CommaRenders(n: nat)
    ensures Renders(Comma(n), if n == 0 then [] else [COMMA_SIGN])
  {
    if n > 0 {
      RendersOne(COMMA_SIGN);
    }
  }

  lemma SpacesAreSpaces(st: Style, indent: bytes)
    requires AllSpaces(st.indentation) && AllSpaces(indent)
    ensures AllSpaces(NewLine(st, indent)) && AllSpaces(Gap(st)) && AllSpaces(indent + st.indentation) && AllSpaces([])
  {
  }

  /** Something in brackets, with whitespace in front and inside. */
  lemma Bracketed(start: bytes, open: Lexeme, before: bytes, w: bytes, ts: seq<Lexeme>, after: bytes, close: Lexeme)
    requires AllSpaces(start) && AllSpaces(before) && AllSpaces(after) && Legal(open) && Legal(close) && Renders(w, ts)
    ensures Renders(start + open.text + before + w + after + close.text, [open] + ts + [close])
  {
    hide Renders;
    RendersOne(open);
    RendersOne(close);
    RendersSpaced(start, open.text, [open]);
    RendersSpaces(before);
    RendersSpaces(after);
    RendersAppend(start + open.text, [open], before, []);
    assert [open] + [] == [open];
    RendersAppend(start + open.text + before, [open], w, ts);
    RendersAppend(start + open.text + before + w, [open] + ts, after, []);
    assert [open] + ts + [] == [open] + ts;
    RendersAppend(start + open.text + before + w + after, [open] + ts, close.text, [close]);
  }

  lemma {:induction false} TextRenders(st: Style, v: Json, indent: bytes, indented: bool)
    requires Readable(st) && AllSpaces(indent) && RealFree(v)
    ensures Renders(ValueText(st, v, indent, indented), TokensOf(v, st.emitUTF8))
    decreases v, 3
  {
    hide Renders, Multiline, Lines, OneLine, MemberLines, ItemTokens, MemberTokens, NewLine, Gap, AllSpaces;
    SpacesAreSpaces(st, indent);
    var start := if indented then [] else NewLine(st, indent);
    if v.Arr? {
      ArrayRenders(st, v.items, indent, indented);
    } else if v.Obj? {
      MembersRender(st, v.members, indent + st.indentation);
      Bracketed(start, OPEN_BRACE, [], MemberLines(st, v.members, indent + st.indentation),
                MemberTokens(v.members, st.emitUTF8), NewLine(st, indent), CLOSE_BRACE);
      EmptyRender();
      assert start + [0x7B] + [] == start + [0x7B];
    } else {
      ScalarIsLegal(v, st.emitUTF8);
      RendersOne(ScalarLexeme(v, st.emitUTF8));
    }
  }

  lemma EmptyRender()
    ensures Renders([0x5B, 0x5D], [OPEN_BRACKET] + [] + [CLOSE_BRACKET])
    ensures Renders([0x7B, 0x7D], [OPEN_BRACE] + [] + [CLOSE_BRACE])
    ensures forall e :: ItemTokens([], e) == [] && MemberTokens([], e) == []
  {
    RendersSpaces([]);
    Bracketed([], OPEN_BRACKET, [], [], [], [], CLOSE_BRACKET);
    Bracketed([], OPEN_BRACE, [], [], [], [], CLOSE_BRACE);
    assert [] + OPEN_BRACKET.text + [] + [] + [] + CLOSE_BRACKET.text == [0x5B, 0x5D];
    assert [] + OPEN_BRACE.text + [] + [] + [] + CLOSE_BRACE.text == [0x7B, 0x7D];
  }

  lemma {:induction false} ArrayRenders(st: Style, items: seq<Json>, indent: bytes, indented: bool)
    requires Readable(st) && AllSpaces(indent) && ItemsRealFree(items)
    ensures Renders(ValueText(st, Arr(items), indent, indented),
                    [OPEN_BRACKET] + ItemTokens(items, st.emitUTF8) + [CLOSE_BRACKET])
    decreases items, 2
  {
    hide Renders, Multiline, Lines, OneLine, MemberLines, ItemTokens, NewLine, Gap, AllSpaces;
    SpacesAreSpaces(st, indent);
    var start := if indented then [] else NewLine(st, indent);
    if items == [] {
      EmptyRender();
    } else if Multiline(st, items) {
      LinesRender(st, items, indent + st.indentation);
      Bracketed(start, OPEN_BRACKET, [], Lines(st, items, indent + st.indentation), ItemTokens(items, st.emitUTF8),
                NewLine(st, indent), CLOSE_BRACKET);
      assert start + [0x5B] + [] == start + [0x5B];
    } else {
      OneLineRenders(st, items);
      Bracketed([], OPEN_BRACKET, Gap(st), OneLine(st, items), ItemTokens(items, st.emitUTF8), Gap(st), CLOSE_BRACKET);
      assert [] + [0x5B] == [0x5B];
    }
  }

  lemma {:induction false} LinesRender(st: Style, items: seq<Json>, indent: bytes)
    requires Readable(st) && AllSpaces(indent) && ItemsRealFree(items)
    ensures Renders(Lines(st, items, indent), ItemTokens(items, st.emitUTF8))
    decreases items, 1
  {
    hide Renders, ValueText, TokensOf, ItemTokens, NewLine, Comma, RealFree, AllSpaces;
    EmptyRender();
    if items == [] {
      SpacesAreSpaces(st, indent);
      RendersSpaces([]);
    } else {
      var n := |items| - 1;
      var front, last := items[..n], items[n];
      LinesRender(st, front, indent);
      TextRenders(st, last, indent, true);
      SpacesAreSpaces(st, indent);
      RendersSpaced(NewLine(st, indent), ValueText(st, last, indent, true), TokensOf(last, st.emitUTF8));
      CommaRenders(n);
      JoinRenders(Lines(st, front, indent), ItemTokens(front, st.emitUTF8), Comma(n), n,
                  NewLine(st, indent) + ValueText(st, last, indent, true), TokensOf(last, st.emitUTF8));
      ItemTokensAppend(front, last, st.emitUTF8);
      assert front + [last] == items;
    }
  }

  lemma JoinRenders(w: bytes, ts: seq<Lexeme>, comma: bytes, n: nat, x: bytes, us: seq<Lexeme>)
    requires Renders(w, ts) && Renders(comma, if n == 0 then [] else [COMMA_SIGN]) && Renders(x, us)
    ensures Renders(w + (comma + x), ts + (if n == 0 then [] else [COMMA_SIGN]) + us)
  {
    hide Renders;
    var sign := if n == 0 then [] else [COMMA_SIGN];
    RendersAppend(w, ts, comma, sign);
    RendersAppend(w + comma, ts + sign, x, us);
    Fast.Associate(w, comma, x);
  }

  lemma {:induction false} OneLineRenders(st: Style, items: seq<Json>)
    requires Readable(st) && ItemsRealFree(items)
    ensures Renders(OneLine(st, items), ItemTokens(items, st.emitUTF8))
    decreases items, 1
  {
    hide Renders, ValueText, TokensOf, ItemTokens, Gap, RealFree, AllSpaces;
    EmptyRender();
    SpacesAreSpaces(st, []);
    if items == [] {
      RendersSpaces([]);
    } else {
      var n := |items| - 1;
      var front, last := items[..n], items[n];
      OneLineRenders(st, front);
      TextRenders(st, last, [], true);
      GapRenders(st, n);
      JoinRenders(OneLine(st, front), ItemTokens(front, st.emitUTF8), if n == 0 then [] else [0x2C] + Gap(st), n,
                  ValueText(st, last, [], true), TokensOf(last, st.emitUTF8));
      ItemTokensAppend(front, last, st.emitUTF8);
      assert front + [last] == items;
    }
  }

  lemma GapRenders(st: Style, n: nat)
    ensures Renders(if n == 0 then [] else [0x2C] + Gap(st), if n == 0 then [] else [COMMA_SIGN])
  {
    RendersSpaces(Gap(st));
    if n > 0 {
      RendersOne(COMMA_SIGN);
      RendersAppend([0x2C], [COMMA_SIGN], Gap(st), []);
      assert [COMMA_SIGN] + [] == [COMMA_SIGN];
    }
  }

  lemma {:induction false} MembersRender(st: Style, members: seq<Member>, indent: bytes)
    requires Readable(st) && AllSpaces(indent) && MembersRealFree(members)
    ensures Renders(MemberLines(st, members, indent), MemberTokens(members, st.emitUTF8))
    decreases members, 1
  {
    hide Renders, ValueText, TokensOf, MemberTokens, MemberLine, Comma, RealFree, AllSpaces;
    EmptyRender();
    if members == [] {
      SpacesAreSpaces(st, indent);
      RendersSpaces([]);
    } else {
      var n := |members| - 1;
      var front, m := members[..n], members[n];
      MembersRender(st, front, indent);
      MemberRenders(st, m, indent);
      CommaRenders(n);
      var mts := [KeyLexeme(m.key, st.emitUTF8), COLON_SIGN] + TokensOf(m.value, st.emitUTF8);
      JoinRenders(MemberLines(st, front, indent), MemberTokens(front, st.emitUTF8), Comma(n), n,
                  MemberLine(st, m, indent), mts);
      MemberTokensAppend(front, m, st.emitUTF8);
      assert front + [m] == members;
    }
  }

  lemma MemberRenders(st: Style, m: Member, indent: bytes)
    requires Readable(st) && AllSpaces(indent) && RealFree(m.value)
    ensures Renders(MemberLine(st, m, indent),
                    [KeyLexeme(m.key, st.emitUTF8), COLON_SIGN] + TokensOf(m.value, st.emitUTF8))
    decreases m, 5
  {
    hide Renders, ValueText, TokensOf, RealFree, Quoted, NewLine, AllSpaces;
    var key := KeyLexeme(m.key, st.emitUTF8);
    SpacesAreSpaces(st, indent);
    KeyIsLegal(m.key, st.emitUTF8);
    RendersOne(key);
    RendersSpaced(NewLine(st, indent), key.text, [key]);
    RendersAppend(NewLine(st, indent) + key.text, [key], st.colonSymbol, [COLON_SIGN]);
    TextRenders(st, m.value, indent, false);
    RendersAppend(NewLine(st, indent) + key.text + st.colonSymbol, [key] + [COLON_SIGN],
                  ValueText(st, m.value, indent, false), TokensOf(m.value, st.emitUTF8));
    assert [key] + [COLON_SIGN] == [key, COLON_SIGN];
  }

  /** What is written renders the tokens of the value. */
  lemma DocumentRenders(st: Style, v: Json)
    requires Readable(st) && RealFree(v)
    ensures Renders(Document(st, v), TokensOf(v, st.emitUTF8))
  {
    hide Renders, ValueText, TokensOf, RealFree;
    TextRenders(st, v, [], true);
    RendersSpaces(st.endingLineFeedSymbol);
    RendersAppend(ValueText(st, v, [], true), TokensOf(v, st.emitUTF8), st.endingLineFeedSymbol, []);
    assert TokensOf(v, st.emitUTF8) + [] == TokensOf(v, st.emitUTF8);
  }

  // ----- without indentation it is the compact text -------------------------------------------------------------

  predicate Compact(st: Style) {
    st.indentation == [] && st.colonSymbol == [0x3A] && st.nullSymbol == NULL_TEXT && st.endingLineFeedSymbol == []
  }

  lemma BracketsJoin(open: Lexeme, ts: seq<Lexeme>, close: Lexeme)
    requires open.kind != MemberSeparator && close.kind != MemberSeparator
    ensures Fast.Joined([open] + ts + [close], false) == open.text + Fast.Joined(ts, false) + close.text
  {
    hide Fast.Joined;
    Fast.JoinedOne(open, false);
    Fast.JoinedOne(close, false);
    Fast.JoinedAppend([open], ts, false);
    Fast.JoinedAppend([open] + ts, [close], false);
  }

  /** Whatever the layout, a text without indentation is the texts of its tokens one after the other. */
  lemma {:induction false} TextIsCompact(st: Style, v: Json, indent: bytes, indented: bool)
    requires Compact(st) && RealFree(v)
    ensures ValueText(st, v, indent, indented) == Fast.Joined(TokensOf(v, st.emitUTF8), false)
    decreases v, 4
  {
    hide Fast.Joined, ItemTokens, MemberTokens, Lines, OneLine, MemberLines, Multiline;
    if v.Arr? {
      BracketsJoin(OPEN_BRACKET, ItemTokens(v.items, st.emitUTF8), CLOSE_BRACKET);
      LinesAreCompact(st, v.items, indent + st.indentation);
      OneLineIsCompact(st, v.items);
      Fast.NothingJoined(false);
      EmptyRender();
    } else if v.Obj? {
      BracketsJoin(OPEN_BRACE, MemberTokens(v.members, st.emitUTF8), CLOSE_BRACE);
      MembersAreCompact(st, v.members, indent + st.indentation);
      Fast.NothingJoined(false);
      EmptyRender();
    } else {
      Fast.JoinedOne(ScalarLexeme(v, st.emitUTF8), false);
    }
  }

  lemma {:induction false} LinesAreCompact(st: Style, items: seq<Json>, indent: bytes)
    requires Compact(st) && ItemsRealFree(items)
    ensures Lines(st, items, indent) == Fast.Joined(ItemTokens(items, st.emitUTF8), false)
    decreases items, 1
  {
    hide Fast.Joined, ItemTokens, TokensOf, ValueText, RealFree;
    Fast.NothingJoined(false);
    EmptyRender();
    if items != [] {
      var n := |items| - 1;
      var front, last := items[..n], items[n];
      LinesAreCompact(st, front, indent);
      TextIsCompact(st, last, indent, true);
      ItemTokensAppend(front, last, st.emitUTF8);
      assert front + [last] == items;
      Fast.CompactStep(ItemTokens(front, st.emitUTF8), n, TokensOf(last, st.emitUTF8), false);
    }
  }

  lemma {:induction false} OneLineIsCompact(st: Style, items: seq<Json>)
    requires Compact(st) && ItemsRealFree(items)
    ensures OneLine(st, items) == Fast.Joined(ItemTokens(items, st.emitUTF8), false)
    decreases items, 1
  {
    hide Fast.Joined, ItemTokens, TokensOf, ValueText, RealFree;
    Fast.NothingJoined(false);
    EmptyRender();
    if items != [] {
      var n := |items| - 1;
      var front, last := items[..n], items[n];
      OneLineIsCompact(st, front);
      TextIsCompact(st, last, [], true);
      ItemTokensAppend(front, last, st.emitUTF8);
      assert front + [last] == items;
      Fast.CompactStep(ItemTokens(front, st.emitUTF8), n, TokensOf(last, st.emitUTF8), false);
    }
  }

  lemma {:induction false} MembersAreCompact(st: Style, members: seq<Member>, indent: bytes)
    requires Compact(st) && MembersRealFree(members)
    ensures MemberLines(st, members, indent) == Fast.Joined(MemberTokens(members, st.emitUTF8), false)
    decreases members, 1
  {
    hide Fast.Joined, MemberTokens, TokensOf, MemberLine, RealFree, KeyLexeme;
    Fast.NothingJoined(false);
    EmptyRender();
    if members != [] {
      var n := |members| - 1;
      var front, m := members[..n], members[n];
      MembersAreCompact(st, front, indent);
      MemberIsCompact(st, m, indent);
      MemberTokensAppend(front, m, st.emitUTF8);
      assert front + [m] == members;
      var mts := [KeyLexeme(m.key, st.emitUTF8), COLON_SIGN] + TokensOf(m.value, st.emitUTF8);
      Fast.CompactStep(MemberTokens(front, st.emitUTF8), n, mts, false);
    }
  }

  lemma MemberIsCompact(st: Style, m: Member, indent: bytes)
    requires Compact(st) && RealFree(m.value)
    ensures MemberLine(st, m, indent)
            == Fast.Joined([KeyLexeme(m.key, st.emitUTF8), COLON_SIGN] + TokensOf(m.value, st.emitUTF8), false)
    decreases m, 5
  {
    hide Fast.Joined, TokensOf, ValueText, RealFree, Quoted;
    var key := KeyLexeme(m.key, st.emitUTF8);
    TextIsCompact(st, m.value, indent, false);
    Fast.JoinedOne(key, false);
    Fast.JoinedOne(COLON_SIGN, false);
    Fast.JoinedAppend([key], [COLON_SIGN], false);
    Fast.JoinedAppend([key, COLON_SIGN], TokensOf(m.value, st.emitUTF8), false);
    assert [key] + [COLON_SIGN] == [key, COLON_SIGN];
  }

  /** Without indentation and without `emitUTF8` both printers write the same bytes. */
  lemma BothPrintersAgree(st: Style, v: Json)
    requires Compact(st) && !st.emitUTF8 && RealFree(v)
    ensures Document(st, v) == Fast.FastDocument(v, false, true)
  {
    hide ValueText, TokensOf, RealFree;
    TextIsCompact(st, v, [], true);
    Fast.FastIsCompact(v, false);
  }
}
