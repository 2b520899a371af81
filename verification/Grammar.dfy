/** Which documents the reader accepts, under every feature setting: exactly those whose tokens spell a syntax tree that
    has a value. Without comments and extensions the trees are the JSON texts of RFC 8259, but for a comma that the
    reader tolerates after a member with an empty name. */
module Grammar {
  import opened Bytes
  import opened ReaderErrors
  import opened StringCodec
  import opened NumberCodec
  import opened JsonValue
  import opened Lexer
  import opened Parser
  import opened Tokens

  /** A syntax tree over lexemes: a scalar, a value left out, a comment before a value, an array, or an object with
      the comments before its closing brace. */
  datatype Syntax =
    | Leaf(token: Lexeme)
    | Dropped
    | Noted(comment: Lexeme, value: Syntax)
    | List(items: seq<Item>)
    | Record(fields: seq<Field>, notes: seq<Lexeme>)

  /** An element and what stands between it and the next one, or the closing bracket. */
  datatype Item = Item(value: Syntax, after: seq<Lexeme>)

  /** A member: the comments before its name, the name, the value, and what separates it from the next one. */
  datatype Field = Field(notes: seq<Lexeme>, name: Lexeme, value: Syntax, after: seq<Lexeme>)

  // ----- how a tree is spelled --------------------------------------------------------------------------

  function Spelled(t: Syntax): seq<Lexeme>
    decreases t, 1
  {
    match t
    case Leaf(l) => [l]
    case Dropped => []
    case Noted(c, v) => [c] + Spelled(v)
    case List(items) => [OPEN_BRACKET] + (SpelledItems(items) + [CLOSE_BRACKET])
    case Record(fields, notes) => [OPEN_BRACE] + (SpelledFields(fields) + (notes + [CLOSE_BRACE]))
  }

  function SpelledItems(items: seq<Item>): seq<Lexeme>
    decreases items, 0
  {
    if items == [] then [] else SpelledItem(items[0]) + SpelledItems(items[1..])
  }

  function SpelledItem(x: Item): seq<Lexeme>
    decreases x, 0
  {
    Spelled(x.value) + x.after
  }

  function SpelledFields(fields: seq<Field>): seq<Lexeme>
    decreases fields, 0
  {
    if fields == [] then [] else SpelledField(fields[0]) + SpelledFields(fields[1..])
  }

  function SpelledField(x: Field): seq<Lexeme>
    decreases x, 0
  {
    x.notes + [x.name, COLON_SIGN] + (Spelled(x.value) + x.after)
  }

  // ----- what a tree means ------------------------------------------------------------------------------

  /** The value of a scalar's lexeme, when it has one. */
  function ScalarValue(f: Features, l: Lexeme): Option<Json> {
    if l.kind == NumberToken then FromScalarOption(NumberValue(f, l.text))
    else if l.kind == StringToken then (if |l.text| < 2 then None else FromScalarOption(StringScalar(l.text)))
    else if IsLiteral(l.kind) then Some(LiteralValue(l.kind))
    else None
  }

  function FromScalarOption(v: Scalar): Option<Json> {
    if v.Scalar? then Some(v.value) else None
  }

  /** The name a lexeme gives to a member: a string, or a number where numeric keys are allowed. */
  function KeyName(f: Features, l: Lexeme): Option<bytes> {
    if l.kind == StringToken then
      (if |l.text| < 2 || DecodedToken(l.text).NoText? then None else Some(DecodedToken(l.text).text))
    else if l.kind == NumberToken && f.allowNumericKeys then
      (if NumberValue(f, l.text).Scalar? then Some(NumberText(f, NumberValue(f, l.text).value)) else None)
    else None
  }

  predicate AllComments(ts: seq<Lexeme>) {
    forall i :: 0 <= i < |ts| ==> ts[i].kind == CommentToken
  }

  /** Comments and one last lexeme. */
  predicate EndsWith(ts: seq<Lexeme>, l: Lexeme) {
    ts != [] && AllComments(ts[..|ts| - 1]) && ts[|ts| - 1] == l
  }

  /** May a comma come before the closing bracket? */
  predicate TrailsItem(f: Features) {
    f.allowTrailingCommas && !f.allowDroppedNullPlaceholders
  }

  /** May a separator come before the closing brace, after a member of this name? */
  predicate MayEnd(f: Features, name: bytes) {
    name == [] || f.allowTrailingCommas
  }

  /** A comma; or a comment, any others, and any one lexeme that is no closing brace. */
  predicate IsSeparator(ts: seq<Lexeme>) {
    ts == [COMMA_SIGN]
    || (|ts| >= 2 && EndsWith(ts, ts[|ts| - 1])
        && ts[|ts| - 1].kind != CommentToken && ts[|ts| - 1].kind != ObjectEnd)
  }

  predicate LeftOut(t: Syntax) {
    match t
    case Dropped => true
    case Noted(_, v) => LeftOut(v)
    case _ => false
  }

  /** A value that is left out must be followed by a comma or a closing bracket or brace. */
  predicate Fits(t: Syntax, more: seq<Lexeme>) {
    LeftOut(t) ==> more != [] && more[0].kind in {ArraySeparator, ObjectEnd, ArrayEnd}
  }

  /** Comments, and a comma unless this is the last element. */
  predicate ItemEnds(f: Features, after: seq<Lexeme>, last: bool) {
    (last && AllComments(after)) || (EndsWith(after, COMMA_SIGN) && (last ==> TrailsItem(f)))
  }

  predicate FieldEnds(f: Features, after: seq<Lexeme>, name: bytes, last: bool) {
    if after == [] then last else IsSeparator(after) && (last ==> MayEnd(f, name))
  }

  predicate AcceptsKey(f: Features, members: seq<Member>, key: bytes) {
    |key| < MAX_KEY_LENGTH && !(f.rejectDupKeys && IsMember(members, key))
  }

  function Value(f: Features, t: Syntax): Option<Json>
    decreases t, 1
  {
    match t
    case Leaf(l) => ScalarValue(f, l)
    case Dropped => if f.allowDroppedNullPlaceholders then Some(Null) else None
    case Noted(c, v) => if f.allowComments && c.kind == CommentToken then Value(f, v) else None
    case List(items) =>
      var vs := Values(f, items);
      if vs.None? || items == [Item(Dropped, [])] then None else Some(Arr(vs.value))
    case Record(fields, notes) =>
      var members := Members(f, [], fields, notes);
      if members.None? || !AllComments(notes) then None else Some(Obj(members.value))
  }

  function Values(f: Features, items: seq<Item>): Option<seq<Json>>
    decreases items, 0
  {
    if items == [] then Some([])
    else
      var first, rest := ItemValue(f, items[0]), Values(f, items[1..]);
      if first.None? || rest.None? || !ItemEnds(f, items[0].after, items[1..] == []) then None
      else Some([first.value] + rest.value)
  }

  function ItemValue(f: Features, x: Item): Option<Json>
    decreases x, 0
  {
    if Fits(x.value, x.after + [CLOSE_BRACKET]) then Value(f, x.value) else None
  }

  /** Later members of a name replace earlier ones, unless duplicates are rejected. */
  function Members(f: Features, members: seq<Member>, fields: seq<Field>, notes: seq<Lexeme>): Option<seq<Member>>
    decreases fields, 0
  {
    if fields == [] then Some(members)
    else
      var key, v := KeyName(f, fields[0].name), FieldValue(f, fields[0], notes);
      if key.None? || !AcceptsKey(f, members, key.value) || v.None?
         || !FieldEnds(f, fields[0].after, key.value, fields[1..] == []) then None
      else Members(f, SetMember(members, key.value, v.value), fields[1..], notes)
  }

  function FieldValue(f: Features, x: Field, notes: seq<Lexeme>): Option<Json>
    decreases x, 0
  {
    if AllComments(x.notes) && Fits(x.value, x.after + (notes + [CLOSE_BRACE])) then Value(f, x.value) else None
  }

  /** The number of nested calls of `readValue` the tree needs. */
  function Levels(t: Syntax): (n: nat)
    ensures n >= 1
    decreases t, 1
  {
    match t
    case Noted(_, v) => Levels(v)
    case List(items) => 1 + ItemsLevels(items)
    case Record(fields, _) => 1 + FieldsLevels(fields)
    case _ => 1
  }

  function Larger(a: nat, b: nat): nat {
    if a < b then b else a
  }

  function ItemsLevels(items: seq<Item>): nat
    decreases items, 0
  {
    if items == [] then 0 else Larger(ItemLevels(items[0]), ItemsLevels(items[1..]))
  }

  function ItemLevels(x: Item): nat
    decreases x, 0
  {
    Levels(x.value)
  }

  function FieldsLevels(fields: seq<Field>): nat
    decreases fields, 0
  {
    if fields == [] then 0 else Larger(FieldLevels(fields[0]), FieldsLevels(fields[1..]))
  }

  function FieldLevels(x: Field): nat
    decreases x, 0
  {
    Levels(x.value)
  }

  // ----- one token at a time ----------------------------------------------------------------------------

  lemma NextToken(f: Features, s: bytes, l: Lexeme, ts: seq<Lexeme>)
    requires LexAll(f, s) == [l] + ts
    ensures ReadToken(f, s).kind == l.kind && ReadToken(f, s).Text() == l.text
    ensures LexAll(f, ReadToken(f, s).rest) == ts
    ensures l.kind != CommentToken ==> SkipComments(f, s) == ReadToken(f, s) == FirstToken(f, s)
  {
    var t := ReadToken(f, s);
    assert ([l] + ts)[0] == l && ([l] + ts)[1..] == ts;
    assert LexAll(f, s)[0] == Lexeme(t.kind, t.Text()) && LexAll(f, s)[1..] == LexAll(f, t.rest);
  }

  lemma SpacesFirst(f: Features, s: bytes)
    ensures ReadToken(f, SkipSpaces(s)) == ReadToken(f, s) && ReadToken(f, s).start == SkipSpaces(s)
    ensures LexAll(f, SkipSpaces(s)) == LexAll(f, s)
  {
    SkipSpacesFirst(s);
  }

  /** The first token of a position, unless nothing is left. */
  lemma FirstLexeme(f: Features, s: bytes)
    ensures var t := ReadToken(f, s);
            && (t.start == [] ==> LexAll(f, s) == [] && t.kind == EndOfStream && t.rest == [])
            && (t.start != [] ==> LexAll(f, s) == [Lexeme(t.kind, t.Text())] + LexAll(f, t.rest) && |t.rest| < |s|)
  {
  }

  lemma PunctuationText(f: Features, s: bytes)
    requires IsPunctuation(ReadToken(f, s).kind)
    ensures var t := ReadToken(f, s);
            Lexeme(t.kind, t.Text()) ==
            match t.kind
            case ObjectBegin => OPEN_BRACE
            case ObjectEnd => CLOSE_BRACE
            case ArrayBegin => OPEN_BRACKET
            case ArrayEnd => CLOSE_BRACKET
            case ArraySeparator => COMMA_SIGN
            case _ => COLON_SIGN
  {
  }

  /** Reading over comments to the first lexeme that is none. */
  lemma {:induction false} NotesRead(f: Features, s: bytes, notes: seq<Lexeme>, l: Lexeme, ts: seq<Lexeme>)
    requires LexAll(f, s) == notes + ([l] + ts) && AllComments(notes) && l.kind != CommentToken
    ensures SkipComments(f, s).kind == l.kind && SkipComments(f, s).Text() == l.text
    ensures LexAll(f, SkipComments(f, s).rest) == ts
    decreases |notes|
  {
    hide Lexer.ReadToken, Tokens.LexAll, Lexer.FirstToken;
    if notes == [] {
      assert [] + ([l] + ts) == [l] + ts;
      NextToken(f, s, l, ts);
    } else {
      assert notes + ([l] + ts) == [notes[0]] + (notes[1..] + ([l] + ts));
      NextToken(f, s, notes[0], notes[1..] + ([l] + ts));
      NotesRead(f, ReadToken(f, s).rest, notes[1..], l, ts);
    }
  }

  /** The comments that are skipped before a token. */
  lemma {:induction false} NotesSkipped(f: Features, s: bytes) returns (notes: seq<Lexeme>)
    ensures AllComments(notes) && (notes == [] <==> ReadToken(f, s).kind != CommentToken)
    ensures var t := SkipComments(f, s);
            && (t.start == [] ==> LexAll(f, s) == notes && t.kind == EndOfStream && t.rest == [])
            && (t.start != [] ==> LexAll(f, s) == notes + ([Lexeme(t.kind, t.Text())] + LexAll(f, t.rest))
                                  && |t.rest| < |s|)
            && (t.kind == ObjectEnd ==> Lexeme(t.kind, t.Text()) == CLOSE_BRACE)
            && (t.kind == ArrayEnd ==> Lexeme(t.kind, t.Text()) == CLOSE_BRACKET)
            && (t.kind == ArraySeparator ==> Lexeme(t.kind, t.Text()) == COMMA_SIGN)
    decreases |s|
  {
    hide Lexer.ReadToken, Tokens.LexAll, Lexer.FirstToken;
    FirstLexeme(f, s);
    var t := ReadToken(f, s);
    if t.kind == CommentToken {
      var others := NotesSkipped(f, t.rest);
      notes := [Lexeme(t.kind, t.Text())] + others;
      var u := SkipComments(f, s);
      if u.start != [] {
        assert notes + ([Lexeme(u.kind, u.Text())] + LexAll(f, u.rest))
               == [Lexeme(t.kind, t.Text())] + (others + ([Lexeme(u.kind, u.Text())] + LexAll(f, u.rest)));
      }
    } else {
      notes := [];
      if t.start != [] {
        assert [] + ([Lexeme(t.kind, t.Text())] + LexAll(f, t.rest)) == [Lexeme(t.kind, t.Text())] + LexAll(f, t.rest);
      }
      if IsPunctuation(t.kind) {
        PunctuationText(f, s);
      }
    }
  }

  // ----- joining sequences --------------------------------------------------------------------------------

  lemma Enclosed(open: Lexeme, inside: seq<Lexeme>, close: Lexeme, more: seq<Lexeme>)
    ensures [open] + (inside + [close]) + more == [open] + (inside + ([close] + more))
  {
  }

  lemma Regroup<T>(a: seq<T>, b: seq<T>, c: seq<T>)
    ensures (a + b) + c == a + (b + c)
  {
  }

  lemma SpelledItemsUnfold(items: seq<Item>, more: seq<Lexeme>)
    requires items != []
    ensures SpelledItems(items) + more == Spelled(items[0].value) + (items[0].after + (SpelledItems(items[1..]) + more))
  {
    hide Spelled;
    var x, others := items[0], SpelledItems(items[1..]);
    Regroup(SpelledItem(x), others, more);
    Regroup(Spelled(x.value), x.after, others + more);
  }

  lemma SpelledFieldsUnfold(fields: seq<Field>, more: seq<Lexeme>)
    requires fields != []
    ensures var x := fields[0];
            SpelledFields(fields) + more
            == x.notes + ([x.name] + ([COLON_SIGN]
               + (Spelled(x.value) + (x.after + (SpelledFields(fields[1..]) + more)))))
  {
    hide Spelled;
    var x, others := fields[0], SpelledFields(fields[1..]);
    Regroup(SpelledField(x), others, more);
    Regroup(x.notes + [x.name, COLON_SIGN], Spelled(x.value) + x.after, others + more);
    Regroup(Spelled(x.value), x.after, others + more);
    NameRegroup(x.notes, x.name, Spelled(x.value) + (x.after + (others + more)));
  }

  lemma NameRegroup(notes: seq<Lexeme>, name: Lexeme, tail: seq<Lexeme>)
    ensures notes + [name, COLON_SIGN] + tail == notes + ([name] + ([COLON_SIGN] + tail))
  {
  }

  // ----- what is spelled is read ----------------------------------------------------------------------------

  /** `r` is the value `v` with the tokens `more` left, or the exception of the stack limit. */
  ghost predicate Yields(f: Features, r: Outcome, fits: bool, v: Json, more: seq<Lexeme>) {
    if fits then r.Done? && r.value == v && r.error == None && LexAll(f, r.rest) == more
    else r == Thrown(StackLimitExceeded)
  }

  lemma ScalarReads(f: Features, t: Token, current: Json)
    requires t.Proper() && ScalarValue(f, Lexeme(t.kind, t.Text())).Some?
    ensures ReadScalar(f, t, current) == Done(ScalarValue(f, Lexeme(t.kind, t.Text())).value, t.rest, None)
  {
  }

  lemma LeafIsScalar(f: Features, l: Lexeme)
    requires ScalarValue(f, l).Some?
    ensures l.kind !in {CommentToken, ObjectBegin, ArrayBegin, ArrayEnd}
  {
  }

  /** A comment before a value is skipped. */
  lemma NoteReads(f: Features, s: bytes, depth: nat, current: Json)
    requires f.allowComments && ReadToken(f, s).kind == CommentToken
    ensures ReadValue(f, s, depth, current) == ReadValue(f, ReadToken(f, s).rest, depth, current)
  {
    hide Lexer.ReadToken, Parser.ReadItems, Parser.ReadMembers, Parser.ReadScalar;
  }

  /** The comma or bracket after a value that is left out is not consumed. */
  lemma DroppedReads(f: Features, s: bytes, depth: nat, current: Json)
    requires f.allowDroppedNullPlaceholders && ReadToken(f, s).kind in {ArraySeparator, ObjectEnd, ArrayEnd}
    requires depth <= f.stackLimit
    ensures ReadValue(f, s, depth, current) == Done(Null, SkipSpaces(s), None)
    ensures LexAll(f, SkipSpaces(s)) == LexAll(f, s)
  {
    hide Parser.ReadItems, Parser.ReadMembers, Tokens.LexAll, Lexer.TokenAt;
    SpacesFirst(f, s);
  }

  /** From any position whose tokens start with the spelling of a tree that has a value, `readValue` consumes
      exactly them and builds the value, or throws exactly when the tree is too high for the stack. */
  lemma {:induction false} SpelledReads(f: Features, s: bytes, depth: nat, current: Json, t: Syntax, more: seq<Lexeme>)
    requires LexAll(f, s) == Spelled(t) + more && Value(f, t).Some? && Fits(t, more)
    ensures Yields(f, ReadValue(f, s, depth, current), depth + Levels(t) <= f.stackLimit + 1, Value(f, t).value, more)
    decreases t, 1
  {
    hide Lexer.ReadToken, Lexer.SkipComments, Lexer.SkipSpaces, Lexer.FirstToken, Tokens.LexAll;
    hide Parser.ReadItems, Parser.ReadMembers, Parser.ReadScalar, ScalarValue, SpelledItems, SpelledFields;
    hide ItemsLevels, FieldsLevels, Values, Members, AllComments;
    var token := FirstToken(f, s);
    match t {
      case Leaf(l) =>
        LeafIsScalar(f, l);
        NextToken(f, s, l, more);
        ScalarReads(f, token, current);
      case Dropped =>
        assert [] + more == [more[0]] + more[1..];
        NextToken(f, s, more[0], more[1..]);
        if depth <= f.stackLimit {
          DroppedReads(f, s, depth, current);
        }
      case Noted(c, v) =>
        Regroup([c], Spelled(v), more);
        NextToken(f, s, c, Spelled(v) + more);
        NoteReads(f, s, depth, current);
        SpelledReads(f, ReadToken(f, s).rest, depth, current, v, more);
      case List(items) =>
        Enclosed(OPEN_BRACKET, SpelledItems(items), CLOSE_BRACKET, more);
        NextToken(f, s, OPEN_BRACKET, SpelledItems(items) + ([CLOSE_BRACKET] + more));
        if depth <= f.stackLimit {
          SpelledItemsRead(f, token.rest, depth, [], items, more);
          assert [] + Values(f, items).value == Values(f, items).value;
        }
      case Record(fields, notes) =>
        Regroup(SpelledFields(fields), notes, [CLOSE_BRACE]);
        Enclosed(OPEN_BRACE, SpelledFields(fields) + notes, CLOSE_BRACE, more);
        Regroup(SpelledFields(fields), notes, [CLOSE_BRACE] + more);
        NextToken(f, s, OPEN_BRACE, SpelledFields(fields) + (notes + ([CLOSE_BRACE] + more)));
        if depth <= f.stackLimit {
          SpelledFieldsRead(f, token.rest, depth, [], [], fields, notes, more);
        }
    }
  }

  lemma AppendOne<T>(a: seq<T>, x: T, b: seq<T>)
    ensures a + [x] + b == a + ([x] + b)
  {
  }

  lemma ClosingBracket(f: Features, s: bytes)
    ensures var t := SkipSpaces(s);
            ReadToken(f, s).kind == ArrayEnd <==> t != [] && t[0] == RBRACKET
    ensures ReadToken(f, s).kind == ArrayEnd ==> SkipSpaces(s)[1..] == ReadToken(f, s).rest
  {
  }

  /** The spelling of a value that is there starts with no closing bracket. */
  lemma SpelledStart(f: Features, t: Syntax)
    requires Value(f, t).Some?
    ensures t.Dropped? <==> Spelled(t) == []
    ensures Spelled(t) != [] ==> Spelled(t)[0].kind != ArrayEnd
  {
    hide SpelledItems, SpelledFields, Values, Members, NumberCodec.IntegerOf;
  }

  /** Where an element starts there is no closing bracket, unless the element is the last one and left out. */
  lemma FirstOfItem(f: Features, s: bytes, items: seq<Item>, more: seq<Lexeme>)
    requires items != [] && Values(f, items).Some? && LexAll(f, s) == SpelledItems(items) + ([CLOSE_BRACKET] + more)
    ensures ReadToken(f, s).kind == ArrayEnd ==> items == [Item(Dropped, [])] && f.allowDroppedNullPlaceholders
  {
    hide Tokens.LexAll, Lexer.ReadToken, Spelled, Value, Lexer.SkipComments, Lexer.FirstToken;
    var x, end := items[0], [CLOSE_BRACKET] + more;
    SpelledItemsUnfold(items, end);
    SpelledStart(f, x.value);
    var ts := LexAll(f, s);
    assert ts != [] && ts == [ts[0]] + ts[1..];
    NextToken(f, s, ts[0], ts[1..]);
    if Spelled(x.value) != [] {
      assert ts[0] == Spelled(x.value)[0];
    } else {
      DroppedIsAllowed(f);
      if x.after != [] {
        assert ts[0] == x.after[0];
      } else {
        assert items == [x] + items[1..];
      }
    }
  }

  lemma DroppedIsAllowed(f: Features)
    ensures Value(f, Dropped).Some? <==> f.allowDroppedNullPlaceholders
  {
  }

  lemma {:induction false} SpelledItemsRead(f: Features, s: bytes, depth: nat, read: seq<Json>, items: seq<Item>,
                                            more: seq<Lexeme>)
    requires LexAll(f, s) == SpelledItems(items) + ([CLOSE_BRACKET] + more) && Values(f, items).Some?
    requires depth <= f.stackLimit && (items == [] ==> read == [] || TrailsItem(f))
    requires read == [] ==> items != [Item(Dropped, [])]
    ensures Yields(f, ReadItems(f, s, depth, read), depth + 1 + ItemsLevels(items) <= f.stackLimit + 1,
                   Arr(read + Values(f, items).value), more)
    decreases items, 0
  {
    hide Lexer.ReadToken, Lexer.SkipComments, Lexer.SkipSpaces, Tokens.LexAll;
    hide Parser.ReadValue, Parser.AfterItem, Value, Levels, Spelled, ItemEnds, LeftOut;
    SpacesFirst(f, s);
    ClosingBracket(f, s);
    if items == [] {
      assert [] + ([CLOSE_BRACKET] + more) == [CLOSE_BRACKET] + more;
      NextToken(f, s, CLOSE_BRACKET, more);
      assert read + [] == read;
    } else {
      var end := [CLOSE_BRACKET] + more;
      var tail := items[0].after + (SpelledItems(items[1..]) + end);
      SpelledItemsUnfold(items, end);
      FirstOfItem(f, s, items, more);
      ItemFits(f, items, more);
      var t := SkipSpaces(s);
      var child := ReadValue(f, t, depth + 1, Null);
      OneItemReads(f, t, depth + 1, items[0], tail);
      if child.Done? {
        AppendOne(read, child.value, Values(f, items[1..]).value);
        NextSpelledItem(f, child.rest, depth, read + [child.value], items, more);
      }
    }
  }

  lemma ItemFits(f: Features, items: seq<Item>, more: seq<Lexeme>)
    requires items != [] && Values(f, items).Some?
    ensures Fits(items[0].value, items[0].after + (SpelledItems(items[1..]) + ([CLOSE_BRACKET] + more)))
  {
    hide Value, LeftOut;
    var x := items[0];
    if x.after != [] {
      assert (x.after + [CLOSE_BRACKET])[0] == x.after[0];
    }
  }

  lemma {:induction false} OneItemReads(f: Features, s: bytes, depth: nat, x: Item, more: seq<Lexeme>)
    requires LexAll(f, s) == Spelled(x.value) + more && ItemValue(f, x).Some? && Fits(x.value, more)
    ensures Yields(f, ReadValue(f, s, depth, Null), depth + ItemLevels(x) <= f.stackLimit + 1,
                   ItemValue(f, x).value, more)
    decreases x, 0
  {
    hide Tokens.LexAll, Parser.ReadValue, Spelled, Yields;
    SpelledReads(f, s, depth, Null, x.value, more);
  }

  /** After an item: comments, and the closing bracket or a comma and the others. */
  lemma {:induction false} NextSpelledItem(f: Features, s: bytes, depth: nat, read: seq<Json>, items: seq<Item>,
                                           more: seq<Lexeme>)
    requires items != [] && read != [] && Values(f, items[1..]).Some? && depth <= f.stackLimit
    requires ItemEnds(f, items[0].after, items[1..] == [])
    requires LexAll(f, s) == items[0].after + (SpelledItems(items[1..]) + ([CLOSE_BRACKET] + more))
    ensures Yields(f, AfterItem(f, s, depth, read), depth + 1 + ItemsLevels(items[1..]) <= f.stackLimit + 1,
                   Arr(read + Values(f, items[1..]).value), more)
    decreases items, 0, 0
  {
    hide Lexer.ReadToken, Lexer.SkipComments, Tokens.LexAll, Parser.ReadItems;
    var after, tail := items[0].after, SpelledItems(items[1..]) + ([CLOSE_BRACKET] + more);
    if EndsWith(after, COMMA_SIGN) {
      EndsWithSplit(after, tail);
      NotesRead(f, s, after[..|after| - 1], COMMA_SIGN, tail);
      SpelledItemsRead(f, SkipComments(f, s).rest, depth, read, items[1..], more);
    } else {
      assert tail == [CLOSE_BRACKET] + more;
      NotesRead(f, s, after, CLOSE_BRACKET, more);
      assert read + [] == read;
    }
  }

  lemma EndsWithSplit(ts: seq<Lexeme>, more: seq<Lexeme>)
    requires ts != []
    ensures ts + more == ts[..|ts| - 1] + ([ts[|ts| - 1]] + more)
  {
  }

  // ----- members --------------------------------------------------------------------------------------------

  lemma KeyReads(f: Features, t: Token)
    requires t.Proper() && KeyName(f, Lexeme(t.kind, t.Text())).Some?
    ensures KeyOf(f, t) == Key(KeyName(f, Lexeme(t.kind, t.Text())).value)
    ensures t.kind != ObjectEnd
  {
  }

  lemma KeyIsNoComment(f: Features, l: Lexeme)
    requires KeyName(f, l).Some?
    ensures l.kind != CommentToken
  {
  }

  /** The input after a member's name and colon. */
  function AfterColon(f: Features, s: bytes): (t: bytes)
    ensures |t| <= |s|
  {
    ReadToken(f, SkipComments(f, s).rest).rest
  }

  lemma NameReads(f: Features, s: bytes, depth: nat, read: seq<Member>, name: bytes, notes: seq<Lexeme>, l: Lexeme,
                  ts: seq<Lexeme>)
    requires LexAll(f, s) == notes + ([l] + ([COLON_SIGN] + ts)) && AllComments(notes)
    requires KeyName(f, l).Some? && AcceptsKey(f, read, KeyName(f, l).value)
    ensures LexAll(f, AfterColon(f, s)) == ts
    ensures ReadMembers(f, s, depth, read, name)
            == ReadMemberValue(f, AfterColon(f, s), depth, read, KeyName(f, l).value)
  {
    hide Lexer.ReadToken, Lexer.SkipComments, Lexer.Recover, Tokens.LexAll, Parser.ReadMemberValue;
    hide Parser.IsMember, Parser.KeyOf, KeyName;
    KeyIsNoComment(f, l);
    NotesRead(f, s, notes, l, [COLON_SIGN] + ts);
    var t := SkipComments(f, s);
    KeyReads(f, t);
    NextToken(f, t.rest, COLON_SIGN, ts);
  }

  lemma {:induction false} SpelledFieldsRead(f: Features, s: bytes, depth: nat, read: seq<Member>, name: bytes,
                                             fields: seq<Field>, notes: seq<Lexeme>, more: seq<Lexeme>)
    requires LexAll(f, s) == SpelledFields(fields) + (notes + ([CLOSE_BRACE] + more))
    requires Members(f, read, fields, notes).Some? && AllComments(notes) && depth <= f.stackLimit
    requires fields == [] ==> MayEnd(f, name)
    ensures Yields(f, ReadMembers(f, s, depth, read, name), depth + 1 + FieldsLevels(fields) <= f.stackLimit + 1,
                   Obj(Members(f, read, fields, notes).value), more)
    decreases fields, 1
  {
    hide Lexer.ReadToken, Lexer.SkipComments, Lexer.Recover, Tokens.LexAll, AllComments, Fits;
    hide Parser.ReadMemberValue, Parser.AfterName, Parser.KeyOf, Spelled, AfterColon, Parser.SetMember, KeyName;
    if fields == [] {
      assert [] + (notes + ([CLOSE_BRACE] + more)) == notes + ([CLOSE_BRACE] + more);
      NotesRead(f, s, notes, CLOSE_BRACE, more);
    } else {
      var x, end := fields[0], notes + ([CLOSE_BRACE] + more);
      SpelledFieldsUnfold(fields, end);
      NameReads(f, s, depth, read, name, x.notes, x.name,
                Spelled(x.value) + (x.after + (SpelledFields(fields[1..]) + end)));
      SpelledFieldReads(f, AfterColon(f, s), depth, read, fields, notes, more);
    }
  }

  /** From after a colon: the member's value is read in place, and then the other members. */
  lemma {:induction false} SpelledFieldReads(f: Features, s: bytes, depth: nat, read: seq<Member>, fields: seq<Field>,
                                             notes: seq<Lexeme>, more: seq<Lexeme>)
    requires fields != [] && Members(f, read, fields, notes).Some? && AllComments(notes) && depth <= f.stackLimit
    requires LexAll(f, s) == Spelled(fields[0].value)
                             + (fields[0].after + (SpelledFields(fields[1..]) + (notes + ([CLOSE_BRACE] + more))))
    ensures Yields(f, ReadMemberValue(f, s, depth, read, KeyName(f, fields[0].name).value),
                   depth + 1 + FieldsLevels(fields) <= f.stackLimit + 1,
                   Obj(Members(f, read, fields, notes).value), more)
    decreases fields, 0
  {
    hide Tokens.LexAll, Parser.ReadValue, Parser.AfterMember, Lexer.Recover, Value, Levels, Spelled, SpelledFields;
    hide Parser.SetMember, Parser.WithMember, KeyName, AllComments, Fits;
    var key := KeyName(f, fields[0].name).value;
    var current := WithMember(read, key)[LowerBound(read, key)].value;
    var child := ReadValue(f, s, depth + 1, current);
    FieldFits(f, read, fields, notes, more);
    OneFieldReads(f, s, depth + 1, current, fields[0], notes,
                  fields[0].after + (SpelledFields(fields[1..]) + (notes + ([CLOSE_BRACE] + more))));
    if child.Done? {
      NextSpelledField(f, child.rest, depth, SetMember(read, key, child.value), key, fields, notes, more);
    }
  }

  lemma FieldFits(f: Features, read: seq<Member>, fields: seq<Field>, notes: seq<Lexeme>, more: seq<Lexeme>)
    requires fields != [] && Members(f, read, fields, notes).Some?
    ensures Fits(fields[0].value, fields[0].after + (SpelledFields(fields[1..]) + (notes + ([CLOSE_BRACE] + more))))
  {
    hide Value, LeftOut, KeyName, Parser.SetMember;
    var x := fields[0];
    if x.after != [] {
      assert (x.after + (notes + [CLOSE_BRACE]))[0] == x.after[0];
    } else {
      assert [] + (notes + [CLOSE_BRACE]) == notes + [CLOSE_BRACE];
      assert (notes + [CLOSE_BRACE])[0] == (notes + ([CLOSE_BRACE] + more))[0];
    }
  }

  lemma {:induction false} OneFieldReads(f: Features, s: bytes, depth: nat, current: Json, x: Field, notes: seq<Lexeme>,
                                         more: seq<Lexeme>)
    requires LexAll(f, s) == Spelled(x.value) + more && FieldValue(f, x, notes).Some? && Fits(x.value, more)
    ensures Yields(f, ReadValue(f, s, depth, current), depth + FieldLevels(x) <= f.stackLimit + 1,
                   FieldValue(f, x, notes).value, more)
    decreases x, 0
  {
    hide Tokens.LexAll, Parser.ReadValue, Spelled, Yields;
    SpelledReads(f, s, depth, current, x.value, more);
  }

  /** What follows a member: the first token that is no comment decides, once the very first one is allowed. */
  lemma AfterMemberStep(f: Features, s: bytes, depth: nat, read: seq<Member>, key: bytes)
    requires ReadToken(f, s).kind in {ObjectEnd, ArraySeparator, CommentToken}
    ensures var t := SkipComments(f, s);
            && (t.kind == ObjectEnd ==> AfterMember(f, s, depth, read, key) == Done(Obj(read), t.rest, None))
            && (t.kind != ObjectEnd ==>
                  AfterMember(f, s, depth, read, key) == ReadMembers(f, t.rest, depth, read, key))
  {
    hide Lexer.ReadToken, Lexer.Recover, Parser.ReadMembers;
  }

  lemma SeparatorStart(f: Features, s: bytes, ts: seq<Lexeme>, l: Lexeme, more: seq<Lexeme>)
    requires LexAll(f, s) == ts + ([l] + more) && AllComments(ts)
    requires ts == [] ==> l.kind == ObjectEnd || l.kind == ArraySeparator
    ensures ReadToken(f, s).kind in {ObjectEnd, ArraySeparator, CommentToken}
  {
    hide Tokens.LexAll, Lexer.ReadToken, Lexer.SkipComments, Lexer.FirstToken;
    var all := LexAll(f, s);
    assert all == [all[0]] + all[1..];
    NextToken(f, s, all[0], all[1..]);
    assert all[0] == if ts == [] then l else ts[0];
  }

  /** After a member: the end, or a separator and the others. */
  lemma {:induction false} NextSpelledField(f: Features, s: bytes, depth: nat, read: seq<Member>, key: bytes,
                                            fields: seq<Field>, notes: seq<Lexeme>, more: seq<Lexeme>)
    requires fields != [] && Members(f, read, fields[1..], notes).Some? && AllComments(notes) && depth <= f.stackLimit
    requires FieldEnds(f, fields[0].after, key, fields[1..] == [])
    requires LexAll(f, s) == fields[0].after + (SpelledFields(fields[1..]) + (notes + ([CLOSE_BRACE] + more)))
    ensures Yields(f, AfterMember(f, s, depth, read, key), depth + 1 + FieldsLevels(fields[1..]) <= f.stackLimit + 1,
                   Obj(Members(f, read, fields[1..], notes).value), more)
    decreases fields, 0, 0
  {
    hide Lexer.ReadToken, Lexer.SkipComments, Tokens.LexAll, KeyName, Parser.ReadMembers, Parser.AfterMember, Spelled;
    var after, others := fields[0].after, fields[1..];
    var tail := SpelledFields(others) + (notes + ([CLOSE_BRACE] + more));
    if after == [] {
      assert [] + ([] + (notes + ([CLOSE_BRACE] + more))) == notes + ([CLOSE_BRACE] + more);
      NotesRead(f, s, notes, CLOSE_BRACE, more);
      SeparatorStart(f, s, notes, CLOSE_BRACE, more);
    } else {
      EndsWithSplit(after, tail);
      var front, last := after[..|after| - 1], after[|after| - 1];
      NotesRead(f, s, front, last, tail);
      SeparatorStart(f, s, front, last, tail);
      SpelledFieldsRead(f, SkipComments(f, s).rest, depth, read, key, others, notes, more);
    }
    AfterMemberStep(f, s, depth, read, key);
  }

  // ----- what is read was spelled -----------------------------------------------------------------------------

  predicate Succeeds(r: Outcome) {
    r.Done? && r.error == None
  }

  lemma ScalarIsSpelled(f: Features, t: Token, current: Json)
    requires t.Proper() && Succeeds(ReadScalar(f, t, current))
    ensures t.kind !in {EndOfStream, CommentToken}
    ensures t.kind in {ArraySeparator, ObjectEnd, ArrayEnd} ==>
              f.allowDroppedNullPlaceholders && ReadScalar(f, t, current) == Done(Null, t.start, None)
    ensures t.kind !in {ArraySeparator, ObjectEnd, ArrayEnd} ==>
              ReadScalar(f, t, current).rest == t.rest
              && ScalarValue(f, Lexeme(t.kind, t.Text())) == Some(ReadScalar(f, t, current).value)
  {
  }

  /** Whatever `readValue` accepts, its tokens spell a tree that means the value built. */
  lemma {:induction false} ValueIsSpelled(f: Features, s: bytes, depth: nat, current: Json) returns (t: Syntax)
    requires Succeeds(ReadValue(f, s, depth, current))
    ensures var r := ReadValue(f, s, depth, current);
            && LexAll(f, s) == Spelled(t) + LexAll(f, r.rest) && Fits(t, LexAll(f, r.rest))
            && Value(f, t) == Some(r.value) && depth + Levels(t) <= f.stackLimit + 1
    decreases |s|, 0
  {
    hide Lexer.ReadToken, Lexer.SkipComments, Lexer.SkipSpaces, Tokens.LexAll, AllComments;
    hide Parser.ReadItems, Parser.ReadMembers, Parser.ReadScalar, ScalarValue, SpelledItems, SpelledFields;
    hide ItemsLevels, FieldsLevels, Values, Members;
    FirstLexeme(f, s);
    SpacesFirst(f, s);
    var token := ReadToken(f, s);
    var l, r := Lexeme(token.kind, token.Text()), ReadValue(f, s, depth, current);
    if token.kind == CommentToken {
      if !f.allowComments {
        ScalarIsSpelled(f, token, current);
        assert false;
      } else {
        NoteReads(f, s, depth, current);
        var v := ValueIsSpelled(f, token.rest, depth, current);
        t := Noted(l, v);
        Regroup([l], Spelled(v), LexAll(f, r.rest));
      }
    } else {
      NoNote(f, s);
      if token.kind == ObjectBegin {
        PunctuationText(f, s);
        var fields, notes := FieldsAreSpelled(f, token.rest, depth, [], []);
        t := Record(fields, notes);
        Regroup(SpelledFields(fields), notes, [CLOSE_BRACE]);
        Enclosed(OPEN_BRACE, SpelledFields(fields) + notes, CLOSE_BRACE, LexAll(f, r.rest));
        Regroup(SpelledFields(fields), notes, [CLOSE_BRACE] + LexAll(f, r.rest));
      } else if token.kind == ArrayBegin {
        PunctuationText(f, s);
        var items := ItemsAreSpelled(f, token.rest, depth, []);
        t := List(items);
        Enclosed(OPEN_BRACKET, SpelledItems(items), CLOSE_BRACKET, LexAll(f, r.rest));
        assert [] + Values(f, items).value == Values(f, items).value;
      } else {
        ScalarIsSpelled(f, token, current);
        t := if token.kind in {ArraySeparator, ObjectEnd, ArrayEnd} then Dropped else Leaf(l);
      }
    }
  }

  lemma NoNote(f: Features, s: bytes)
    requires ReadToken(f, s).kind != CommentToken
    ensures SkipComments(f, s) == ReadToken(f, s) == FirstToken(f, s)
  {
  }

  lemma {:induction false} ItemsAreSpelled(f: Features, s: bytes, depth: nat, read: seq<Json>)
    returns (items: seq<Item>)
    requires Succeeds(ReadItems(f, s, depth, read)) && depth <= f.stackLimit
    ensures items == [] ==> read == [] || TrailsItem(f)
    ensures read == [] ==> items != [Item(Dropped, [])]
    ensures var r := ReadItems(f, s, depth, read);
            && LexAll(f, s) == SpelledItems(items) + ([CLOSE_BRACKET] + LexAll(f, r.rest))
            && Values(f, items).Some? && r.value == Arr(read + Values(f, items).value)
            && depth + 1 + ItemsLevels(items) <= f.stackLimit + 1
    decreases |s|, 1
  {
    hide Lexer.ReadToken, Lexer.SkipComments, Lexer.FirstToken, Lexer.SkipSpaces, Tokens.LexAll, AllComments;
    hide Parser.ReadValue, Parser.AfterItem, Value, Levels, Lexer.Recover, ItemEnds, Fits, Values, Spelled;
    SpacesFirst(f, s);
    ClosingBracket(f, s);
    FirstLexeme(f, s);
    var r := ReadItems(f, s, depth, read);
    var end := [CLOSE_BRACKET] + LexAll(f, r.rest);
    if ReadToken(f, s).kind == ArrayEnd && (read == [] || TrailsItem(f)) {
      PunctuationText(f, s);
      items := [];
      NoItems(f);
      assert [] + end == end && read + [] == read;
    } else {
      var t := SkipSpaces(s);
      var child := ReadValue(f, t, depth + 1, Null);
      var first := ValueIsSpelled(f, t, depth + 1, Null);
      var after, others := RestIsSpelled(f, child.rest, depth, read + [child.value]);
      items := [Item(first, after)] + others;
      ItemsJoin(f, first, after, others, LexAll(f, r.rest));
      AppendOne(read, child.value, Values(f, others).value);
      if items == [Item(Dropped, [])] {
        OnlyDropped(end);
        NextToken(f, s, CLOSE_BRACKET, LexAll(f, r.rest));
      }
    }
  }

  lemma NoItems(f: Features)
    ensures Values(f, []) == Some([]) && SpelledItems([]) == [] && ItemsLevels([]) == 0
  {
  }

  lemma OnlyDropped(end: seq<Lexeme>)
    ensures SpelledItems([Item(Dropped, [])]) + end == end
  {
    SpelledItemsUnfold([Item(Dropped, [])], end);
    assert [] + ([] + ([] + end)) == end;
  }

  lemma ItemsJoin(f: Features, first: Syntax, after: seq<Lexeme>, others: seq<Item>, more: seq<Lexeme>)
    requires ItemEnds(f, after, others == []) && Value(f, first).Some? && Values(f, others).Some?
    requires Fits(first, after + (SpelledItems(others) + ([CLOSE_BRACKET] + more)))
    ensures var items := [Item(first, after)] + others;
            && SpelledItems(items) + ([CLOSE_BRACKET] + more)
               == Spelled(first) + (after + (SpelledItems(others) + ([CLOSE_BRACKET] + more)))
            && ItemsLevels(items) == Larger(Levels(first), ItemsLevels(others))
            && Values(f, items) == Some([Value(f, first).value] + Values(f, others).value)
  {
    hide Spelled, Value, Levels, LeftOut;
    var items := [Item(first, after)] + others;
    assert items[1..] == others && items[0] == Item(first, after);
    SpelledItemsUnfold(items, [CLOSE_BRACKET] + more);
    if after != [] {
      assert (after + [CLOSE_BRACKET])[0] == after[0];
    }
  }

  lemma {:induction false} RestIsSpelled(f: Features, s: bytes, depth: nat, read: seq<Json>)
    returns (after: seq<Lexeme>, others: seq<Item>)
    requires Succeeds(AfterItem(f, s, depth, read)) && read != [] && depth <= f.stackLimit
    ensures ItemEnds(f, after, others == [])
    ensures var r := AfterItem(f, s, depth, read);
            && LexAll(f, s) == after + (SpelledItems(others) + ([CLOSE_BRACKET] + LexAll(f, r.rest)))
            && Values(f, others).Some? && r.value == Arr(read + Values(f, others).value)
            && depth + 1 + ItemsLevels(others) <= f.stackLimit + 1
    decreases |s|, 0
  {
    hide Lexer.ReadToken, Lexer.SkipComments, Tokens.LexAll, Parser.ReadItems, Lexer.Recover, SpelledItems, Values;
    var notes := NotesSkipped(f, s);
    var token, r := SkipComments(f, s), AfterItem(f, s, depth, read);
    var end := [CLOSE_BRACKET] + LexAll(f, r.rest);
    if token.kind == ArrayEnd {
      after, others := notes, [];
      NoItems(f);
      assert [] + end == end && read + [] == read;
    } else {
      others := ItemsAreSpelled(f, token.rest, depth, read);
      after := notes + [COMMA_SIGN];
      assert after[..|after| - 1] == notes;
      EndsWithSplit(after, SpelledItems(others) + end);
    }
  }

  // ----- members read were spelled ------------------------------------------------------------------------------

  lemma {:induction false} FieldsAreSpelled(f: Features, s: bytes, depth: nat, members: seq<Member>, name: bytes)
    returns (fields: seq<Field>, notes: seq<Lexeme>)
    requires Succeeds(ReadMembers(f, s, depth, members, name)) && depth <= f.stackLimit
    ensures AllComments(notes) && (fields == [] ==> MayEnd(f, name))
    ensures var r := ReadMembers(f, s, depth, members, name);
            && LexAll(f, s) == SpelledFields(fields) + (notes + ([CLOSE_BRACE] + LexAll(f, r.rest)))
            && Members(f, members, fields, notes).Some? && r.value == Obj(Members(f, members, fields, notes).value)
            && depth + 1 + FieldsLevels(fields) <= f.stackLimit + 1
    decreases |s|, 3
  {
    hide Lexer.ReadToken, Lexer.SkipComments, Tokens.LexAll, Lexer.Recover, Fits, FieldEnds, AllComments, SpelledFields;
    hide Parser.AfterName, Parser.KeyOf, KeyName, Spelled, Value, Levels, Members;
    var before := NotesSkipped(f, s);
    var token, r := SkipComments(f, s), ReadMembers(f, s, depth, members, name);
    var end := [CLOSE_BRACE] + LexAll(f, r.rest);
    if token.kind == ObjectEnd && MayEnd(f, name) {
      fields, notes := [], before;
      NoFields(f, members, notes);
      assert [] + (notes + end) == notes + end;
    } else {
      NameIsSpelled(f, token);
      var x, others, notes' := FieldIsSpelled(f, token.rest, depth, members, before, token);
      fields, notes := [x] + others, notes';
      FieldsJoin(f, members, x, others, notes, LexAll(f, r.rest));
    }
  }

  lemma NoFields(f: Features, members: seq<Member>, notes: seq<Lexeme>)
    ensures Members(f, members, [], notes) == Some(members) && SpelledFields([]) == [] && FieldsLevels([]) == 0
  {
  }

  lemma NameIsSpelled(f: Features, t: Token)
    requires t.Proper() && KeyOf(f, t).Key?
    ensures KeyName(f, Lexeme(t.kind, t.Text())) == Some(KeyOf(f, t).name) && t.start != []
  {
  }

  lemma FieldsJoin(f: Features, members: seq<Member>, x: Field, others: seq<Field>, notes: seq<Lexeme>,
                   more: seq<Lexeme>)
    requires KeyName(f, x.name).Some? && AcceptsKey(f, members, KeyName(f, x.name).value) && Value(f, x.value).Some?
    requires FieldEnds(f, x.after, KeyName(f, x.name).value, others == []) && AllComments(x.notes)
    requires Fits(x.value, x.after + (SpelledFields(others) + (notes + ([CLOSE_BRACE] + more))))
    ensures SpelledFields([x] + others) + (notes + ([CLOSE_BRACE] + more))
            == x.notes + ([x.name] + ([COLON_SIGN] + (Spelled(x.value)
               + (x.after + (SpelledFields(others) + (notes + ([CLOSE_BRACE] + more)))))))
    ensures FieldsLevels([x] + others) == Larger(Levels(x.value), FieldsLevels(others))
    ensures Members(f, members, [x] + others, notes)
            == Members(f, SetMember(members, KeyName(f, x.name).value, Value(f, x.value).value), others, notes)
  {
    hide Spelled, Value, Levels, KeyName, AcceptsKey, Parser.SetMember, LeftOut, AllComments;
    var fields := [x] + others;
    assert fields[1..] == others && fields[0] == x;
    SpelledFieldsUnfold(fields, notes + ([CLOSE_BRACE] + more));
    if x.after != [] {
      assert (x.after + (notes + [CLOSE_BRACE]))[0] == x.after[0];
    } else {
      assert [] + (notes + [CLOSE_BRACE]) == notes + [CLOSE_BRACE];
      assert (notes + [CLOSE_BRACE])[0] == (notes + ([CLOSE_BRACE] + more))[0];
    }
  }

  /** From after a name: the colon, the value, and what follows it. */
  lemma {:induction false} FieldIsSpelled(f: Features, s: bytes, depth: nat, members: seq<Member>,
                                          before: seq<Lexeme>, name: Token)
    returns (x: Field, others: seq<Field>, notes: seq<Lexeme>)
    requires name.Proper() && KeyOf(f, name).Key? && Succeeds(AfterName(f, s, depth, members, KeyOf(f, name).name))
    requires depth <= f.stackLimit
    ensures x.notes == before && x.name == Lexeme(name.kind, name.Text()) && AllComments(notes)
    ensures AcceptsKey(f, members, KeyOf(f, name).name) && Value(f, x.value).Some?
    ensures FieldEnds(f, x.after, KeyOf(f, name).name, others == [])
    ensures var key := KeyOf(f, name).name;
            var r, members' := AfterName(f, s, depth, members, key), SetMember(members, key, Value(f, x.value).value);
            var tail := x.after + (SpelledFields(others) + (notes + ([CLOSE_BRACE] + LexAll(f, r.rest))));
            && LexAll(f, s) == [COLON_SIGN] + (Spelled(x.value) + tail) && Fits(x.value, tail)
            && Members(f, members', others, notes).Some? && r.value == Obj(Members(f, members', others, notes).value)
            && depth + 1 + Larger(Levels(x.value), FieldsLevels(others)) <= f.stackLimit + 1
    decreases |s|, 2
  {
    hide Lexer.ReadToken, Lexer.SkipComments, Tokens.LexAll, Lexer.Recover, SpelledFields, Fits, FieldEnds, AllComments;
    hide Parser.AfterMember, Parser.ReadValue, Parser.KeyOf, Spelled, Value, Levels, Parser.SetMember;
    hide Parser.WithMember, Parser.IsMember, Members, FieldsLevels;
    FirstLexeme(f, s);
    PunctuationText(f, s);
    var colon, key := ReadToken(f, s), KeyOf(f, name).name;
    var current := WithMember(members, key)[LowerBound(members, key)].value;
    var child := ReadValue(f, colon.rest, depth + 1, current);
    var value := ValueIsSpelled(f, colon.rest, depth + 1, current);
    var after, others', notes' := OthersAreSpelled(f, child.rest, depth, SetMember(members, key, child.value), key);
    x, others, notes := Field(before, Lexeme(name.kind, name.Text()), value, after), others', notes';
  }

  /** From after a member: the brace, or a separator and the other members, if any. */
  lemma {:induction false} OthersAreSpelled(f: Features, s: bytes, depth: nat, members: seq<Member>, name: bytes)
    returns (after: seq<Lexeme>, others: seq<Field>, notes: seq<Lexeme>)
    requires Succeeds(AfterMember(f, s, depth, members, name)) && depth <= f.stackLimit
    ensures FieldEnds(f, after, name, others == []) && AllComments(notes)
    ensures var r := AfterMember(f, s, depth, members, name);
            && LexAll(f, s) == after + (SpelledFields(others) + (notes + ([CLOSE_BRACE] + LexAll(f, r.rest))))
            && Members(f, members, others, notes).Some? && r.value == Obj(Members(f, members, others, notes).value)
            && depth + 1 + FieldsLevels(others) <= f.stackLimit + 1
    decreases |s|, 0
  {
    hide Lexer.ReadToken, Lexer.SkipComments, Tokens.LexAll, Lexer.Recover, Parser.ReadMembers, SpelledFields;
    hide Parser.AfterMember, Members, FieldsLevels;
    var r := AfterMember(f, s, depth, members, name);
    AllowedAfterMember(f, s, depth, members, name);
    AfterMemberStep(f, s, depth, members, name);
    var front := NotesSkipped(f, s);
    var token, end := SkipComments(f, s), [CLOSE_BRACE] + LexAll(f, r.rest);
    if token.kind == ObjectEnd {
      after, others, notes := [], [], front;
      NoFields(f, members, notes);
      assert [] + ([] + (notes + end)) == notes + end;
    } else {
      NoMembersAtEnd(f, depth, members, name);
      others, notes := FieldsAreSpelled(f, token.rest, depth, members, name);
      var l := Lexeme(token.kind, token.Text());
      after := front + [l];
      assert after[..|after| - 1] == front;
      EndsWithSplit(after, SpelledFields(others) + (notes + end));
      if front == [] {
        NoNote(f, s);
      }
    }
  }

  lemma AllowedAfterMember(f: Features, s: bytes, depth: nat, members: seq<Member>, name: bytes)
    requires Succeeds(AfterMember(f, s, depth, members, name))
    ensures ReadToken(f, s).kind in {ObjectEnd, ArraySeparator, CommentToken}
  {
    hide Lexer.ReadToken, Lexer.SkipComments, Lexer.Recover, Parser.ReadMembers;
  }

  lemma NoMembersAtEnd(f: Features, depth: nat, members: seq<Member>, name: bytes)
    ensures !Succeeds(ReadMembers(f, [], depth, members, name))
  {
    hide Parser.AfterName;
  }

  // ----- whole documents ----------------------------------------------------------------------------------------

  /** No token is left but comments, where they are allowed, before the end or a NUL. */
  predicate Finished(f: Features, more: seq<Lexeme>) {
    more == [] || more[0].kind == EndOfStream
    || (f.allowComments && more[0].kind == CommentToken && Finished(f, more[1..]))
  }

  /** The document starts with the spelling of the tree, which has a value and fits the stack; nothing comes after it
      unless extra tokens are allowed, and a strict root is an array or an object. */
  ghost predicate IsText(f: Features, doc: bytes, t: Syntax) {
    && Spelled(t) <= LexAll(f, AfterBom(f, doc))
    && Value(f, t).Some? && Fits(t, LexAll(f, AfterBom(f, doc))[|Spelled(t)|..]) && Levels(t) <= f.stackLimit
    && (f.failIfExtra ==> Finished(f, LexAll(f, AfterBom(f, doc))[|Spelled(t)|..]))
    && (f.strictRoot ==> Value(f, t).value.Arr? || Value(f, t).value.Obj?)
  }

  lemma {:induction false} EndOfText(f: Features, s: bytes)
    ensures FirstToken(f, s).kind == EndOfStream <==> Finished(f, LexAll(f, s))
    decreases |s|
  {
    hide Lexer.ReadToken, Tokens.LexAll;
    FirstLexeme(f, s);
    var t := ReadToken(f, s);
    if t.kind == CommentToken {
      EndOfText(f, t.rest);
      assert LexAll(f, s)[1..] == LexAll(f, t.rest);
    }
  }

  /** Every text that is spelled so is accepted, with its value. */
  lemma TextIsAccepted(f: Features, doc: bytes, root0: Json, t: Syntax)
    requires IsText(f, doc, t)
    ensures Parse(f, doc, root0) == Parsed(true, Value(f, t).value, [])
  {
    hide Lexer.FirstToken, Tokens.LexAll, Parser.ReadValue, Spelled, Value, Levels, Parser.AfterBom, Fits, Finished;
    var s := AfterBom(f, doc);
    var more := LexAll(f, s)[|Spelled(t)|..];
    assert LexAll(f, s) == Spelled(t) + more;
    SpelledReads(f, s, 1, root0, t, more);
    EndOfText(f, ReadValue(f, s, 1, root0).rest);
  }

  /** Every document accepted is such a text, and its value is the one built. */
  lemma AcceptedIsText(f: Features, doc: bytes, root0: Json) returns (t: Syntax)
    requires Accepts(f, doc, root0)
    ensures IsText(f, doc, t) && Value(f, t) == Some(Parse(f, doc, root0).root)
  {
    hide Lexer.FirstToken, Tokens.LexAll, Parser.ReadValue, Spelled, Value, Levels, Parser.AfterBom, Fits, Finished;
    var s := AfterBom(f, doc);
    t := ValueIsSpelled(f, s, 1, root0);
    var rest := ReadValue(f, s, 1, root0).rest;
    EndOfText(f, rest);
    assert LexAll(f, s)[|Spelled(t)|..] == LexAll(f, rest);
  }

  predicate Accepts(f: Features, doc: bytes, root0: Json) {
    Parse(f, doc, root0).Parsed? && Parse(f, doc, root0).ok
  }

  /** For every byte sequence and every feature setting: the reader accepts exactly the documents that spell a tree with
      a value, and what it builds is what the tree means. */
  lemma AcceptsExactlyTheTexts(f: Features, doc: bytes, root0: Json)
    ensures Accepts(f, doc, root0) <==> exists t :: IsText(f, doc, t)
    ensures forall t :: IsText(f, doc, t) ==> Parse(f, doc, root0) == Parsed(true, Value(f, t).value, [])
  {
    hide Parser.Parse, Value, Levels, Spelled, Fits, Finished, Tokens.LexAll;
    forall t | IsText(f, doc, t) ensures Parse(f, doc, root0) == Parsed(true, Value(f, t).value, []) {
      TextIsAccepted(f, doc, root0, t);
    }
    if Accepts(f, doc, root0) {
      var t := AcceptedIsText(f, doc, root0);
    }
  }
}
