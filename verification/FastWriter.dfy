/** `FastWriter`: the compact printer. */
module FastWriter {
  import opened Bytes
  import opened StringCodec
  import opened NumberCodec
  import opened JsonValue
  import opened Lexer
  import opened Tokens

  function ColonText(yaml: bool): bytes {
    if yaml then [COLON, SPACE] else [COLON]
  }

  /** The compact text of a value. */
  function FastText(v: Json, yaml: bool): bytes
    requires RealFree(v)
    decreases v, 1
  {
    match v
    case Arr(items) => [LBRACKET] + ItemsText(items, yaml) + [RBRACKET]
    case Obj(members) => [LBRACE] + MembersText(members, yaml) + [RBRACE]
    case _ => ScalarLexeme(v, false).text
  }

  function Separator(n: nat): bytes {
    if n == 0 then [] else [COMMA]
  }

  function ItemsText(items: seq<Json>, yaml: bool): bytes
    requires ItemsRealFree(items)
    decreases items, 0
  {
    if items == [] then []
    else
      var n := |items| - 1;
      ItemsText(items[..n], yaml) + (Separator(n) + FastText(items[n], yaml))
  }

  function MembersText(members: seq<Member>, yaml: bool): bytes
    requires MembersRealFree(members)
    decreases members, 0
  {
    if members == [] then []
    else
      var n := |members| - 1;
      MembersText(members[..n], yaml) + (Separator(n) + MemberText(members[n], yaml))
  }

  function MemberText(m: Member, yaml: bool): bytes
    requires RealFree(m.value)
    decreases m, 2
  {
    Quoted(m.key, false) + ColonText(yaml) + FastText(m.value, yaml)
  }

  lemma ItemsTextStep(items: seq<Json>, i: nat, yaml: bool)
    requires ItemsRealFree(items) && i < |items|
    ensures ItemsText(items[..i + 1], yaml)
            == ItemsText(items[..i], yaml) + (Separator(i) + FastText(items[i], yaml))
  {
    assert items[..i + 1][..i] == items[..i];
  }

  lemma MembersTextStep(members: seq<Member>, i: nat, yaml: bool)
    requires MembersRealFree(members) && i < |members|
    ensures MembersText(members[..i + 1], yaml)
            == MembersText(members[..i], yaml) + (Separator(i) + MemberText(members[i], yaml))
  {
    assert members[..i + 1][..i] == members[..i];
  }

  lemma NothingWritten(yaml: bool)
    ensures ItemsText([], yaml) == [] && MembersText([], yaml) == []
  {
  }

  lemma Associate(a: bytes, b: bytes, c: bytes)
    ensures a + b + c == a + (b + c)
  {
  }

  /** What `write` answers. */
  function FastDocument(v: Json, yaml: bool, omitEndingLineFeed: bool): bytes
    requires RealFree(v)
  {
    FastText(v, yaml) + if omitEndingLineFeed then [] else [LF]
  }

  class FastWriter {
    var document: bytes
    const yamlCompatibilityEnabled: bool
    const omitEndingLineFeed: bool

    constructor (yamlCompatibilityEnabled: bool, omitEndingLineFeed: bool)
      ensures this.yamlCompatibilityEnabled == yamlCompatibilityEnabled
      ensures this.omitEndingLineFeed == omitEndingLineFeed
    {
      this.yamlCompatibilityEnabled := yamlCompatibilityEnabled;
      this.omitEndingLineFeed := omitEndingLineFeed;
      document := [];
    }

    method Write(root: Json) returns (text: bytes)
      requires RealFree(root) && InRange(root)
      modifies this
      ensures text == FastDocument(root, yamlCompatibilityEnabled, omitEndingLineFeed)
    {
      document := [];
      WriteValue(root);
      if !omitEndingLineFeed {
        document := document + [LF];
      }
      text := document;
    }

    method WriteValue(value: Json)
      requires RealFree(value) && InRange(value)
      modifies this
      ensures document == old(document) + FastText(value, yamlCompatibilityEnabled)
      decreases value, 1
    {
      var text: bytes;
      match value {
        case Null => document := document + NULL_TEXT;
        case Int(i) =>
          text := ValueToStringInt(i);
          document := document + text;
        case UInt(u) =>
          text := ValueToStringUInt(u);
          document := document + text;
        case Str(s) =>
          text := ValueToQuotedStringN(s, false);
          document := document + text;
        case Bool(b) => document := document + if b then TRUE_TEXT else FALSE_TEXT;
        case Arr(items) => WriteItems(items);
        case Obj(members) => WriteMembers(members);
      }
    }

    method WriteItems(items: seq<Json>)
      requires ItemsRealFree(items) && forall i :: 0 <= i < |items| ==> InRange(items[i])
      modifies this
      ensures document == old(document) + ([LBRACKET] + ItemsText(items, yamlCompatibilityEnabled) + [RBRACKET])
      decreases items, 0
    {
      hide FastText, ItemsText, MembersText, RealFree, InRange;
      document := document + [LBRACKET];
      ghost var start := document;
      NothingWritten(yamlCompatibilityEnabled);
      for index := 0 to |items|
        invariant document == start + ItemsText(items[..index], yamlCompatibilityEnabled)
      {
        WriteSeparator(index);
        WriteValue(items[index]);
        ItemsTextStep(items, index, yamlCompatibilityEnabled);
        Associate(start, ItemsText(items[..index], yamlCompatibilityEnabled),
                  Separator(index) + FastText(items[index], yamlCompatibilityEnabled));
      }
      assert items[..|items|] == items;
      document := document + [RBRACKET];
    }

    method WriteSeparator(index: nat)
      modifies this
      ensures document == old(document) + Separator(index)
    {
      if index > 0 {
        document := document + [COMMA];
      }
    }

    method WriteMembers(members: seq<Member>)
      requires MembersRealFree(members) && forall i :: 0 <= i < |members| ==> InRange(members[i].value)
      modifies this
      ensures document == old(document) + ([LBRACE] + MembersText(members, yamlCompatibilityEnabled) + [RBRACE])
      decreases members, 0
    {
      hide FastText, ItemsText, MembersText, MemberText, RealFree, InRange;
      document := document + [LBRACE];
      ghost var start := document;
      NothingWritten(yamlCompatibilityEnabled);
      for it := 0 to |members|
        invariant document == start + MembersText(members[..it], yamlCompatibilityEnabled)
      {
        WriteSeparator(it);
        WriteMember(members[it]);
        MembersTextStep(members, it, yamlCompatibilityEnabled);
        Associate(start, MembersText(members[..it], yamlCompatibilityEnabled),
                  Separator(it) + MemberText(members[it], yamlCompatibilityEnabled));
      }
      assert members[..|members|] == members;
      document := document + [RBRACE];
    }

    method WriteMember(m: Member)
      requires RealFree(m.value) && InRange(m.value)
      modifies this
      ensures document == old(document) + MemberText(m, yamlCompatibilityEnabled)
      decreases m, 2
    {
      hide FastText, Quoted, RealFree, InRange;
      var name := ValueToQuotedStringN(m.key, false);
      document := document + name;
      document := document + if yamlCompatibilityEnabled then [COLON, SPACE] else [COLON];
      WriteValue(m.value);
    }
  }

  // ----- the compact text renders the value's tokens ------------------------------------------------------

  lemma ColonRenders(yaml: bool)
    ensures Renders(ColonText(yaml), [COLON_SIGN])
  {
    var w := ColonText(yaml);
    RendersSpaces(w[1..]);
    assert SkipSpaces(w) == w && [COLON_SIGN][1..] == [];
  }

  lemma {:induction false} FastRenders(v: Json, yaml: bool)
    requires RealFree(v)
    ensures Renders(FastText(v, yaml), TokensOf(v, false))
    decreases v, 1
  {
    if v.Arr? {
      ItemsRender(v.items, yaml);
      Enclose(OPEN_BRACKET, ItemsText(v.items, yaml), ItemTokens(v.items, false), CLOSE_BRACKET);
    } else if v.Obj? {
      MembersRender(v.members, yaml);
      Enclose(OPEN_BRACE, MembersText(v.members, yaml), MemberTokens(v.members, false), CLOSE_BRACE);
    } else {
      ScalarIsLegal(v, false);
      RendersOne(ScalarLexeme(v, false));
    }
  }

  lemma Enclose(open: Lexeme, w: bytes, ts: seq<Lexeme>, close: Lexeme)
    requires Legal(open) && Legal(close) && Renders(w, ts)
    ensures Renders(open.text + w + close.text, [open] + ts + [close])
  {
    RendersOne(open);
    RendersOne(close);
    RendersAppend(open.text, [open], w, ts);
    RendersAppend(open.text + w, [open] + ts, close.text, [close]);
  }

  lemma SeparatorRenders(n: nat)
    ensures Renders(Separator(n), if n == 0 then [] else [COMMA_SIGN])
  {
    if n > 0 {
      RendersOne(COMMA_SIGN);
    }
  }

  lemma {:induction false} ItemsRender(items: seq<Json>, yaml: bool)
    requires ItemsRealFree(items)
    ensures Renders(ItemsText(items, yaml), ItemTokens(items, false))
    decreases items, 0
  {
    hide FastText, TokensOf, ItemTokens, Renders, RealFree;
    NothingTokenised();
    if items != [] {
      var n := |items| - 1;
      var front, last := items[..n], items[n];
      ItemsRender(front, yaml);
      FastRenders(last, yaml);
      SeparatorRenders(n);
      AppendRenders(ItemsText(front, yaml), ItemTokens(front, false), n, FastText(last, yaml), TokensOf(last, false));
      ItemTokensAppend(front, last, false);
      assert front + [last] == items;
    }
  }

  lemma NothingTokenised()
    ensures Renders([], ItemTokens([], false)) && Renders([], MemberTokens([], false))
  {
  }

  lemma AppendRenders(w: bytes, ts: seq<Lexeme>, n: nat, x: bytes, us: seq<Lexeme>)
    requires Renders(w, ts) && Renders(x, us)
    ensures Renders(w + (Separator(n) + x), ts + (if n == 0 then [] else [COMMA_SIGN]) + us)
  {
    hide Renders;
    var comma := if n == 0 then [] else [COMMA_SIGN];
    SeparatorRenders(n);
    RendersAppend(w, ts, Separator(n), comma);
    RendersAppend(w + Separator(n), ts + comma, x, us);
    Associate(w, Separator(n), x);
  }

  lemma {:induction false} MembersRender(members: seq<Member>, yaml: bool)
    requires MembersRealFree(members)
    ensures Renders(MembersText(members, yaml), MemberTokens(members, false))
    decreases members, 0
  {
    hide FastText, MemberText, TokensOf, MemberTokens, Renders, RealFree;
    NothingTokenised();
    if members != [] {
      var n := |members| - 1;
      var front, m := members[..n], members[n];
      MembersRender(front, yaml);
      MemberRenders(m, yaml);
      var mts := [KeyLexeme(m.key, false), COLON_SIGN] + TokensOf(m.value, false);
      AppendRenders(MembersText(front, yaml), MemberTokens(front, false), n, MemberText(m, yaml), mts);
      MemberTokensAppend(front, m, false);
      assert front + [m] == members;
    }
  }

  lemma MemberRenders(m: Member, yaml: bool)
    requires RealFree(m.value)
    ensures Renders(MemberText(m, yaml), [KeyLexeme(m.key, false), COLON_SIGN] + TokensOf(m.value, false))
    decreases m, 2
  {
    hide FastText, TokensOf, Renders, RealFree, Quoted;
    KeyIsLegal(m.key, false);
    RendersOne(KeyLexeme(m.key, false));
    ColonRenders(yaml);
    FastRenders(m.value, yaml);
    RendersAppend(Quoted(m.key, false), [KeyLexeme(m.key, false)], ColonText(yaml), [COLON_SIGN]);
    RendersAppend(Quoted(m.key, false) + ColonText(yaml), [KeyLexeme(m.key, false), COLON_SIGN],
                  FastText(m.value, yaml), TokensOf(m.value, false));
  }

  lemma DocumentRenders(v: Json, yaml: bool, omitEndingLineFeed: bool)
    requires RealFree(v)
    ensures Renders(FastDocument(v, yaml, omitEndingLineFeed), TokensOf(v, false))
  {
    FastRenders(v, yaml);
    if omitEndingLineFeed {
      assert FastDocument(v, yaml, omitEndingLineFeed) == FastText(v, yaml);
    } else {
      RendersSpaces([LF]);
      RendersAppend(FastText(v, yaml), TokensOf(v, false), [LF], []);
      assert TokensOf(v, false) + [] == TokensOf(v, false);
    }
  }

  // ----- and nothing else -----------------------------------------------------------------------------------

  function Written(l: Lexeme, yaml: bool): bytes {
    l.text + if yaml && l.kind == MemberSeparator then [0x20] else []
  }

  /** The texts of the tokens one after the other; in YAML's style with a space after each colon. */
  function Joined(ts: seq<Lexeme>, yaml: bool): bytes {
    if ts == [] then [] else Written(ts[0], yaml) + Joined(ts[1..], yaml)
  }

  lemma {:induction false} JoinedAppend(a: seq<Lexeme>, b: seq<Lexeme>, yaml: bool)
    ensures Joined(a + b, yaml) == Joined(a, yaml) + Joined(b, yaml)
  {
    hide Written;
    if a == [] {
      assert a + b == b;
    } else {
      JoinedAppend(a[1..], b, yaml);
      assert (a + b)[1..] == a[1..] + b;
      Associate(Written(a[0], yaml), Joined(a[1..], yaml), Joined(b, yaml));
    }
  }

  lemma JoinedOne(l: Lexeme, yaml: bool)
    ensures Joined([l], yaml) == l.text + if yaml && l.kind == MemberSeparator then [0x20] else []
  {
    assert [l][1..] == [];
  }

  /** The compact text has no whitespace of its own but that space. */
  lemma {:induction false} FastIsCompact(v: Json, yaml: bool)
    requires RealFree(v)
    ensures FastText(v, yaml) == Joined(TokensOf(v, false), yaml)
    decreases v, 1
  {
    hide Joined, ItemTokens, MemberTokens, ItemsText, MembersText;
    if v.Arr? {
      ItemsAreCompact(v.items, yaml);
      JoinedOne(OPEN_BRACKET, yaml);
      JoinedOne(CLOSE_BRACKET, yaml);
      JoinedAppend([OPEN_BRACKET], ItemTokens(v.items, false), yaml);
      JoinedAppend([OPEN_BRACKET] + ItemTokens(v.items, false), [CLOSE_BRACKET], yaml);
    } else if v.Obj? {
      MembersAreCompact(v.members, yaml);
      JoinedOne(OPEN_BRACE, yaml);
      JoinedOne(CLOSE_BRACE, yaml);
      JoinedAppend([OPEN_BRACE], MemberTokens(v.members, false), yaml);
      JoinedAppend([OPEN_BRACE] + MemberTokens(v.members, false), [CLOSE_BRACE], yaml);
    } else {
      JoinedOne(ScalarLexeme(v, false), yaml);
    }
  }

  lemma {:induction false} ItemsAreCompact(items: seq<Json>, yaml: bool)
    requires ItemsRealFree(items)
    ensures ItemsText(items, yaml) == Joined(ItemTokens(items, false), yaml)
    decreases items, 0
  {
    hide Joined, ItemTokens, TokensOf, FastText, RealFree;
    if items == [] {
      NothingJoined(yaml);
    } else {
      var n := |items| - 1;
      var front, last := items[..n], items[n];
      ItemsAreCompact(front, yaml);
      FastIsCompact(last, yaml);
      ItemTokensAppend(front, last, false);
      assert front + [last] == items;
      CompactStep(ItemTokens(front, false), n, TokensOf(last, false), yaml);
    }
  }

  lemma NothingJoined(yaml: bool)
    ensures Joined([], yaml) == [] && ItemTokens([], false) == [] && MemberTokens([], false) == []
  {
  }

  lemma CompactStep(front: seq<Lexeme>, n: nat, last: seq<Lexeme>, yaml: bool)
    ensures Joined(front + (if n == 0 then [] else [COMMA_SIGN]) + last, yaml)
            == Joined(front, yaml) + (Separator(n) + Joined(last, yaml))
  {
    hide Joined;
    var comma := if n == 0 then [] else [COMMA_SIGN];
    NothingJoined(yaml);
    JoinedOne(COMMA_SIGN, yaml);
    JoinedAppend(front, comma, yaml);
    JoinedAppend(front + comma, last, yaml);
    Associate(Joined(front, yaml), Separator(n), Joined(last, yaml));
  }

  lemma {:induction false} MembersAreCompact(members: seq<Member>, yaml: bool)
    requires MembersRealFree(members)
    ensures MembersText(members, yaml) == Joined(MemberTokens(members, false), yaml)
    decreases members, 0
  {
    hide Joined, MemberTokens, MemberText, TokensOf, FastText, RealFree, KeyLexeme, Separator;
    NothingJoined(yaml);
    if members != [] {
      var n := |members| - 1;
      var front, m := members[..n], members[n];
      MembersAreCompact(front, yaml);
      MemberIsCompact(m, yaml);
      var mts := [KeyLexeme(m.key, false), COLON_SIGN] + TokensOf(m.value, false);
      CompactStep(MemberTokens(front, false), n, mts, yaml);
      MemberTokensAppend(front, m, false);
      assert front + [m] == members;
    }
  }

  lemma MemberIsCompact(m: Member, yaml: bool)
    requires RealFree(m.value)
    ensures MemberText(m, yaml) == Joined([KeyLexeme(m.key, false), COLON_SIGN] + TokensOf(m.value, false), yaml)
    decreases m, 2
  {
    hide Joined, TokensOf, FastText, RealFree, Quoted;
    var key := KeyLexeme(m.key, false);
    FastIsCompact(m.value, yaml);
    JoinedOne(key, yaml);
    JoinedOne(COLON_SIGN, yaml);
    JoinedAppend([key], [COLON_SIGN], yaml);
    JoinedAppend([key, COLON_SIGN], TokensOf(m.value, false), yaml);
    assert [key] + [COLON_SIGN] == [key, COLON_SIGN];
  }
}
