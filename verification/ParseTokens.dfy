/** Reading the tokens of a value builds that value, unless its nesting exceeds the stack limit: the tokens spell a
    syntax tree of the value, and the tree means the value. */
module ParseTokens {
  import opened Bytes
  import opened Utf8
  import opened StringCodec
  import opened StringRoundTrip
  import opened NumberCodec
  import opened JsonValue
  import opened Lexer
  import opened Parser
  import opened Tokens
  import opened Grammar
  import opened ObjectMembers
  import JsonTexts

  // ----- which values, and what comes back ---------------------------------------------------------

  predicate StorableText(s: bytes, emitUTF8: bool) {
    emitUTF8 || WellFormed(s)
  }

  /** What any real-free `Value` satisfies: 64-bit numbers, strings and keys short enough to be stored,
      keys in map order; and without `emitUTF8`, text that is well-formed UTF-8. */
  predicate Storable(v: Json, emitUTF8: bool)
    decreases v
  {
    match v
    case Null => true
    case Bool(_) => true
    case Int(i) => -TWO_63 <= i < TWO_63
    case UInt(u) => u < TWO_64
    case Real(_) => false
    case Str(s) => |s| <= MAX_STRING_LENGTH && StorableText(s, emitUTF8)
    case Arr(items) => forall i :: 0 <= i < |items| ==> Storable(items[i], emitUTF8)
    case Obj(members) =>
      KeysAscend(members)
      && forall i :: 0 <= i < |members| ==>
           |members[i].key| < MAX_KEY_LENGTH && StorableText(members[i].key, emitUTF8)
           && Storable(members[i].value, emitUTF8)
  }

  predicate ItemsStorable(items: seq<Json>, emitUTF8: bool) {
    forall i :: 0 <= i < |items| ==> Storable(items[i], emitUTF8)
  }

  predicate MembersStorable(members: seq<Member>, emitUTF8: bool) {
    KeysAscend(members)
    && forall i :: 0 <= i < |members| ==>
         |members[i].key| < MAX_KEY_LENGTH && StorableText(members[i].key, emitUTF8)
         && Storable(members[i].value, emitUTF8)
  }

  lemma {:induction false} StorableIsRealFree(v: Json, emitUTF8: bool)
    requires Storable(v, emitUTF8)
    ensures RealFree(v)
    decreases v
  {
    match v
    case Arr(items) =>
      forall i | 0 <= i < |items| ensures RealFree(items[i]) {
        StorableIsRealFree(items[i], emitUTF8);
      }
    case Obj(members) =>
      forall i | 0 <= i < |members| ensures RealFree(members[i].value) {
        StorableIsRealFree(members[i].value, emitUTF8);
      }
    case _ =>
  }

  /** The value as it comes back: an unsigned number that fits is read as a signed one. */
  function Normal(v: Json): Json
    decreases v, 1
  {
    match v
    case UInt(u) => if u <= MAX_LARGEST_INT then Int(u) else v
    case Arr(items) => Arr(NormalItems(items))
    case Obj(members) => Obj(NormalMembers(members))
    case _ => v
  }

  function NormalItems(items: seq<Json>): (r: seq<Json>)
    ensures |r| == |items|
    decreases items, 0
  {
    if items == [] then [] else [Normal(items[0])] + NormalItems(items[1..])
  }

  function NormalMembers(members: seq<Member>): (r: seq<Member>)
    ensures |r| == |members|
    decreases members, 0
  {
    if members == [] then []
    else [Member(members[0].key, Normal(members[0].value))] + NormalMembers(members[1..])
  }

  /** The number of nested calls of `readValue` the value needs. */
  function Height(v: Json): (h: nat)
    ensures h >= 1
    decreases v, 1
  {
    match v
    case Arr(items) => 1 + ItemsHeight(items)
    case Obj(members) => 1 + MembersHeight(members)
    case _ => 1
  }

  function ItemsHeight(items: seq<Json>): nat
    decreases items, 0
  {
    if items == [] then 0 else Larger(Height(items[0]), ItemsHeight(items[1..]))
  }

  function MembersHeight(members: seq<Member>): nat
    decreases members, 0
  {
    if members == [] then 0 else Larger(Height(members[0].value), MembersHeight(members[1..]))
  }

  // ----- the syntax tree of a value ----------------------------------------------------------------------

  function SyntaxOf(v: Json, emitUTF8: bool): Syntax
    requires RealFree(v)
    decreases v, 1
  {
    match v
    case Arr(items) => List(ItemsSyntax(items, emitUTF8))
    case Obj(members) => Record(MembersSyntax(members, emitUTF8), [])
    case _ => Leaf(ScalarLexeme(v, emitUTF8))
  }

  function Comma(there: bool): seq<Lexeme> {
    if there then [COMMA_SIGN] else []
  }

  function ItemsSyntax(items: seq<Json>, emitUTF8: bool): (r: seq<Item>)
    requires ItemsRealFree(items)
    ensures |r| == |items|
    decreases items, 0
  {
    if items == [] then []
    else [Item(SyntaxOf(items[0], emitUTF8), Comma(|items| > 1))] + ItemsSyntax(items[1..], emitUTF8)
  }

  function MembersSyntax(members: seq<Member>, emitUTF8: bool): (r: seq<Field>)
    requires MembersRealFree(members)
    ensures |r| == |members|
    decreases members, 0
  {
    if members == [] then []
    else
      [Field([], KeyLexeme(members[0].key, emitUTF8), SyntaxOf(members[0].value, emitUTF8), Comma(|members| > 1))]
      + MembersSyntax(members[1..], emitUTF8)
  }

  /** The tokens of a value spell its tree, which is as high as the value. */
  lemma {:induction false} TokensSpell(v: Json, emitUTF8: bool)
    requires RealFree(v)
    ensures Spelled(SyntaxOf(v, emitUTF8)) == TokensOf(v, emitUTF8)
    ensures Levels(SyntaxOf(v, emitUTF8)) == Height(v) && !LeftOut(SyntaxOf(v, emitUTF8))
    decreases v, 1
  {
    match v
    case Arr(items) =>
      ItemTokensSpell(items, emitUTF8);
      Grammar.Regroup([OPEN_BRACKET], ItemTokens(items, emitUTF8), [CLOSE_BRACKET]);
    case Obj(members) =>
      MemberTokensSpell(members, emitUTF8);
      assert [] + [CLOSE_BRACE] == [CLOSE_BRACE];
      Grammar.Regroup([OPEN_BRACE], MemberTokens(members, emitUTF8), [CLOSE_BRACE]);
    case _ =>
  }

  lemma {:induction false} ItemTokensSpell(items: seq<Json>, emitUTF8: bool)
    requires ItemsRealFree(items)
    ensures SpelledItems(ItemsSyntax(items, emitUTF8)) == ItemTokens(items, emitUTF8)
    ensures ItemsLevels(ItemsSyntax(items, emitUTF8)) == ItemsHeight(items)
    decreases items, 0
  {
    hide Spelled, TokensOf, SyntaxOf, Levels, Height, RealFree;
    if items != [] {
      TokensSpell(items[0], emitUTF8);
      ItemTokensSpell(items[1..], emitUTF8);
      assert ItemsSyntax(items, emitUTF8)[1..] == ItemsSyntax(items[1..], emitUTF8);
      var first, others := TokensOf(items[0], emitUTF8), ItemTokens(items[1..], emitUTF8);
      Grammar.Regroup(first, Comma(|items| > 1), others);
    }
  }

  lemma {:induction false} MemberTokensSpell(members: seq<Member>, emitUTF8: bool)
    requires MembersRealFree(members)
    ensures SpelledFields(MembersSyntax(members, emitUTF8)) == MemberTokens(members, emitUTF8)
    ensures FieldsLevels(MembersSyntax(members, emitUTF8)) == MembersHeight(members)
    decreases members, 0
  {
    hide Spelled, TokensOf, SyntaxOf, Levels, Height, RealFree, KeyLexeme;
    if members != [] {
      TokensSpell(members[0].value, emitUTF8);
      MemberTokensSpell(members[1..], emitUTF8);
      assert MembersSyntax(members, emitUTF8)[1..] == MembersSyntax(members[1..], emitUTF8);
      var name := [KeyLexeme(members[0].key, emitUTF8), COLON_SIGN];
      var first, others := TokensOf(members[0].value, emitUTF8), MemberTokens(members[1..], emitUTF8);
      assert [] + name == name;
      Grammar.Regroup(name, first, Comma(|members| > 1));
      Grammar.Regroup(name + first, Comma(|members| > 1), others);
    }
  }

  /** The tree is a JSON text. */
  lemma {:induction false} SyntaxIsStandard(v: Json, emitUTF8: bool)
    requires RealFree(v)
    ensures JsonTexts.Standard(SyntaxOf(v, emitUTF8))
    decreases v
  {
    hide ScalarLexeme, KeyLexeme, Legal;
    match v
    case Arr(items) =>
      forall i | 0 <= i < |items|
        ensures var x := ItemsSyntax(items, emitUTF8)[i];
                JsonTexts.Joined(x.after, i, |items|) && JsonTexts.Standard(x.value)
      {
        ItemSyntaxAt(items, i, emitUTF8);
        SyntaxIsStandard(items[i], emitUTF8);
      }
    case Obj(members) =>
      forall i | 0 <= i < |members|
        ensures var x := MembersSyntax(members, emitUTF8)[i];
                JsonTexts.Joined(x.after, i, |members|) && JsonTexts.IsPlainName(x) && JsonTexts.Standard(x.value)
      {
        MemberSyntaxAt(members, i, emitUTF8);
        KeyIsLegal(members[i].key, emitUTF8);
        KeyIsString(members[i].key, emitUTF8);
        SyntaxIsStandard(members[i].value, emitUTF8);
      }
    case _ => ScalarIsLegal(v, emitUTF8);
  }

  lemma KeyIsString(key: bytes, emitUTF8: bool)
    ensures KeyLexeme(key, emitUTF8).kind == StringToken
  {
  }

  lemma {:induction false} ItemSyntaxAt(items: seq<Json>, i: nat, emitUTF8: bool)
    requires ItemsRealFree(items) && i < |items|
    ensures ItemsSyntax(items, emitUTF8)[i] == Item(SyntaxOf(items[i], emitUTF8), Comma(i + 1 < |items|))
  {
    hide SyntaxOf, RealFree;
    if i > 0 {
      ItemSyntaxAt(items[1..], i - 1, emitUTF8);
    }
  }

  lemma {:induction false} MemberSyntaxAt(members: seq<Member>, i: nat, emitUTF8: bool)
    requires MembersRealFree(members) && i < |members|
    ensures var m := members[i];
            MembersSyntax(members, emitUTF8)[i]
            == Field([], KeyLexeme(m.key, emitUTF8), SyntaxOf(m.value, emitUTF8), Comma(i + 1 < |members|))
  {
    hide SyntaxOf, RealFree;
    if i > 0 {
      MemberSyntaxAt(members[1..], i - 1, emitUTF8);
    }
  }

  // ----- what the tree means --------------------------------------------------------------------------------

  lemma TextReadsBack(s: bytes, emitUTF8: bool)
    requires StorableText(s, emitUTF8)
    ensures |Quoted(s, emitUTF8)| >= 2 && DecodedToken(Quoted(s, emitUTF8)) == Text(s)
  {
    if emitUTF8 {
      RoundTripRaw(s);
    } else {
      RoundTripEscaped(s);
    }
  }

  lemma ScalarMeans(f: Features, v: Json, emitUTF8: bool)
    requires Storable(v, emitUTF8) && !v.Arr? && !v.Obj?
    ensures ScalarValue(f, ScalarLexeme(v, emitUTF8)) == Some(Normal(v))
  {
    hide StringCodec.DecodedToken, StringCodec.Quoted;
    hide NumberCodec.IntegerOf, NumberCodec.FormatInt, NumberCodec.Decimal;
    match v
    case Int(i) => IntRoundTrip(i);
    case UInt(u) => UIntRoundTrip(u);
    case Str(s) =>
      TextReadsBack(s, emitUTF8);
      assert |s| % 0x1_0000_0000 == |s| && s[..|s|] == s;
    case _ =>
  }

  lemma KeyMeans(f: Features, key: bytes, emitUTF8: bool)
    requires StorableText(key, emitUTF8)
    ensures KeyName(f, KeyLexeme(key, emitUTF8)) == Some(key)
  {
    hide StringCodec.DecodedToken, StringCodec.Quoted;
    TextReadsBack(key, emitUTF8);
  }

  /** The tree of a storable value means the value, under every feature setting. */
  lemma {:induction false} SyntaxMeans(f: Features, v: Json, emitUTF8: bool)
    requires Storable(v, emitUTF8) && RealFree(v)
    ensures Value(f, SyntaxOf(v, emitUTF8)) == Some(Normal(v))
    decreases v, 1
  {
    hide ScalarLexeme, ScalarValue, Values, Members, ItemsSyntax, MembersSyntax, NormalItems, NormalMembers;
    match v
    case Arr(items) =>
      ItemsMean(f, items, emitUTF8);
      NothingDropped(items, emitUTF8);
    case Obj(members) =>
      MembersMean(f, [], members, emitUTF8);
      assert [] + NormalMembers(members) == NormalMembers(members);
    case _ => ScalarMeans(f, v, emitUTF8);
  }

  lemma NothingDropped(items: seq<Json>, emitUTF8: bool)
    requires ItemsRealFree(items)
    ensures ItemsSyntax(items, emitUTF8) != [Item(Dropped, [])]
  {
    hide ScalarLexeme, MembersSyntax, RealFree;
    if items != [] {
      assert ItemsSyntax(items, emitUTF8)[0].value == SyntaxOf(items[0], emitUTF8);
    }
  }

  lemma {:induction false} ItemsMean(f: Features, items: seq<Json>, emitUTF8: bool)
    requires ItemsStorable(items, emitUTF8) && ItemsRealFree(items)
    ensures Values(f, ItemsSyntax(items, emitUTF8)) == Some(NormalItems(items))
    decreases items, 0
  {
    hide Value, SyntaxOf, Normal, Storable, RealFree;
    if items != [] {
      SyntaxMeans(f, items[0], emitUTF8);
      ItemsMean(f, items[1..], emitUTF8);
      assert ItemsSyntax(items, emitUTF8)[1..] == ItemsSyntax(items[1..], emitUTF8);
    }
  }

  /** A key above all others goes to the end. */
  lemma {:induction false} NewLastKey(members: seq<Member>, key: bytes)
    requires forall i :: 0 <= i < |members| ==> BytesLess(members[i].key, key)
    ensures LowerBound(members, key) == |members| && !IsMember(members, key)
    ensures WithMember(members, key) == members + [Member(key, Null)]
    ensures forall v :: SetMember(members, key, v) == members + [Member(key, v)]
  {
    if members != [] {
      NewLastKey(members[1..], key);
    }
  }

  ghost predicate AllBelow(read: seq<Member>, members: seq<Member>) {
    forall i, j :: 0 <= i < |read| && 0 <= j < |members| ==> BytesLess(read[i].key, members[j].key)
  }

  lemma StillBelow(read: seq<Member>, members: seq<Member>, v: Json)
    requires members != [] && KeysAscend(members) && AllBelow(read, members)
    ensures AllBelow(read + [Member(members[0].key, v)], members[1..]) && KeysAscend(members[1..])
  {
  }

  /** Ascending keys are appended one by one, and none is a duplicate. */
  lemma {:induction false} MembersMean(f: Features, read: seq<Member>, members: seq<Member>, emitUTF8: bool)
    requires MembersStorable(members, emitUTF8) && MembersRealFree(members) && AllBelow(read, members)
    ensures Members(f, read, MembersSyntax(members, emitUTF8), []) == Some(read + NormalMembers(members))
    decreases members, 0
  {
    hide Value, SyntaxOf, Normal, Storable, RealFree, KeyName, KeyLexeme, BytesLess, Parser.SetMember, Parser.IsMember;
    if members == [] {
      assert read + [] == read;
    } else {
      var m := members[0];
      var v := Normal(m.value);
      KeyMeans(f, m.key, emitUTF8);
      SyntaxMeans(f, m.value, emitUTF8);
      NewLastKey(read, m.key);
      StillBelow(read, members, v);
      MembersMean(f, read + [Member(m.key, v)], members[1..], emitUTF8);
      AppendOne(read, Member(m.key, v), NormalMembers(members[1..]));
      assert MembersSyntax(members, emitUTF8)[1..] == MembersSyntax(members[1..], emitUTF8);
    }
  }

  /** From any position whose tokens start with those of a storable value, `readValue` consumes exactly
      them and builds the value, or throws exactly when the value is too high for the stack. */
  lemma ValueReads(f: Features, s: bytes, depth: nat, current: Json, v: Json, emitUTF8: bool, more: seq<Lexeme>)
    requires Storable(v, emitUTF8) && RealFree(v)
    requires LexAll(f, s) == TokensOf(v, emitUTF8) + more
    ensures Yields(f, ReadValue(f, s, depth, current), depth + Height(v) <= f.stackLimit + 1, Normal(v), more)
  {
    hide Yields, Storable, RealFree, TokensOf, Height, Normal, SyntaxOf, Spelled, Levels, Value, ReadValue, LexAll;
    TokensSpell(v, emitUTF8);
    SyntaxMeans(f, v, emitUTF8);
    SpelledReads(f, s, depth, current, SyntaxOf(v, emitUTF8), more);
  }
}
