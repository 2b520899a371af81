/** Which accepted documents are JSON texts of RFC 8259, byte by byte, and which JSON texts are accepted. */
module JsonTexts {
  import opened Bytes
  import opened StringCodec
  import opened StringRoundTrip
  import opened NumberCodec
  import opened JsonValue
  import opened Lexer
  import opened Parser
  import opened Tokens
  import opened Grammar

  // ----- JSON texts ----------------------------------------------------------------------------------------------

  predicate IsScalar(k: Kind) {
    k in {StringToken, NumberToken, TrueToken, FalseToken, NullToken}
  }

  /** The grammar of RFC 8259: scalars are legal strings, numbers and literals, names are legal strings, nothing is left
      out, there are no comments, and a comma stands exactly between two elements or members. */
  ghost predicate Standard(t: Syntax)
    decreases t
  {
    match t
    case Leaf(l) => IsScalar(l.kind) && Legal(l)
    case List(items) => forall i :: 0 <= i < |items| ==> Joined(items[i].after, i, |items|) && Standard(items[i].value)
    case Record(fields, notes) =>
      notes == []
      && forall i :: 0 <= i < |fields| ==>
           Joined(fields[i].after, i, |fields|) && IsPlainName(fields[i]) && Standard(fields[i].value)
    case _ => false
  }

  predicate Joined(after: seq<Lexeme>, i: nat, n: nat) {
    after == if i + 1 < n then [COMMA_SIGN] else []
  }

  ghost predicate IsPlainName(x: Field) {
    x.notes == [] && x.name.kind == StringToken && Legal(x.name)
  }

  /** The bytes of a JSON text: the tokens of a tree of RFC 8259 in order, with whitespace before, between and after. */
  ghost predicate IsJson(w: bytes) {
    exists t :: Standard(t) && Renders(w, Spelled(t))
  }

  // ----- telling them by their tokens ------------------------------------------------------------------------------

  /** Two tokens that never follow each other in a JSON text: a comma or a closing bracket or brace where a value is
      missing, and a number for a name. */
  predicate BadPair(a: Lexeme, b: Lexeme) {
    || (b.kind == ArraySeparator && a.kind in {ArrayBegin, ArraySeparator, MemberSeparator})
    || (b.kind in {ArrayEnd, ObjectEnd} && a.kind in {ArraySeparator, MemberSeparator})
    || (a.kind == NumberToken && b.kind == MemberSeparator)
  }

  /** Every token is one of RFC 8259, so there is no comment, NUL or special float, and there is no bad pair. */
  ghost predicate Clean(ts: seq<Lexeme>) {
    && (forall i :: 0 <= i < |ts| ==> Legal(ts[i]))
    && (forall i :: 0 <= i < |ts| - 1 ==> !BadPair(ts[i], ts[i + 1]))
  }

  lemma CleanParts(a: seq<Lexeme>, b: seq<Lexeme>)
    requires Clean(a + b)
    ensures Clean(a) && Clean(b) && (a != [] && b != [] ==> !BadPair(a[|a| - 1], b[0]))
  {
    hide Legal, BadPair;
    var ts := a + b;
    assert forall i :: 0 <= i < |a| ==> ts[i] == a[i];
    assert forall i :: 0 <= i < |b| ==> ts[|a| + i] == b[i];
    forall i | 0 <= i < |b| - 1 ensures !BadPair(b[i], b[i + 1]) {
      assert ts[|a| + i + 1] == b[i + 1];
    }
  }

  lemma CleanJoin(a: seq<Lexeme>, b: seq<Lexeme>)
    requires Clean(a) && Clean(b) && (a != [] && b != [] ==> !BadPair(a[|a| - 1], b[0]))
    ensures Clean(a + b)
  {
    hide Legal, BadPair;
  }

  // ----- a JSON text is clean ----------------------------------------------------------------------------------------

  /** Clean, with every number before punctuation, and starting and ending as a value does. */
  ghost predicate Placed(ts: seq<Lexeme>) {
    Clean(ts) && Separated(ts)
  }

  lemma PlacedJoin(a: seq<Lexeme>, b: seq<Lexeme>)
    requires Placed(a) && Placed(b)
    requires a != [] && b != [] ==>
               !BadPair(a[|a| - 1], b[0]) && (a[|a| - 1].kind != NumberToken || IsPunctuation(b[0].kind))
    ensures Placed(a + b)
  {
    hide Clean, Separated, BadPair, IsPunctuation;
    CleanJoin(a, b);
    SeparatedAppend(a, b);
  }

  lemma OnePlaced(l: Lexeme)
    requires Legal(l)
    ensures Placed([l])
  {
    hide Legal;
  }

  predicate StartsValue(l: Lexeme) {
    IsScalar(l.kind) || l.kind == ArrayBegin || l.kind == ObjectBegin
  }

  predicate EndsValue(l: Lexeme) {
    IsScalar(l.kind) || l.kind == ArrayEnd || l.kind == ObjectEnd
  }

  ghost predicate IsValueRun(ts: seq<Lexeme>) {
    ts != [] && Placed(ts) && StartsValue(ts[0]) && EndsValue(ts[|ts| - 1])
  }

  lemma {:induction false} StandardIsPlaced(t: Syntax)
    requires Standard(t)
    ensures IsValueRun(Spelled(t))
    decreases t, 1
  {
    hide Placed, SpelledItems, SpelledFields, Legal;
    LegalPunctuation();
    match t
    case Leaf(l) => OnePlaced(l);
    case List(items) =>
      ItemsPlaced(items);
      OnePlaced(OPEN_BRACKET);
      PlacedJoin([OPEN_BRACKET], SpelledItems(items) + [CLOSE_BRACKET]);
    case Record(fields, notes) =>
      FieldsPlaced(fields);
      OnePlaced(OPEN_BRACE);
      assert [] + [CLOSE_BRACE] == [CLOSE_BRACE];
      PlacedJoin([OPEN_BRACE], SpelledFields(fields) + [CLOSE_BRACE]);
  }

  lemma LegalPunctuation()
    ensures Legal(OPEN_BRACE) && Legal(CLOSE_BRACE) && Legal(OPEN_BRACKET) && Legal(CLOSE_BRACKET)
    ensures Legal(COMMA_SIGN) && Legal(COLON_SIGN)
  {
  }

  /** The elements and the closing bracket, which neither a comma nor a missing value precedes. */
  lemma {:induction false} ItemsPlaced(items: seq<Item>)
    requires forall i :: 0 <= i < |items| ==> Joined(items[i].after, i, |items|) && Standard(items[i].value)
    ensures var ts := SpelledItems(items) + [CLOSE_BRACKET];
            Placed(ts) && ts[|ts| - 1] == CLOSE_BRACKET
            && if items == [] then ts[0] == CLOSE_BRACKET else StartsValue(ts[0])
    decreases items, 0
  {
    hide Placed, Standard, Spelled, Legal, IsValueRun, StartsValue;
    LegalPunctuation();
    OnePlaced(CLOSE_BRACKET);
    if items == [] {
      assert [] + [CLOSE_BRACKET] == [CLOSE_BRACKET];
    } else {
      var x, others := items[0], items[1..];
      assert forall i :: 0 <= i < |others| ==> others[i] == items[i + 1];
      OneItemPlaced(x);
      ItemsPlaced(others);
      var tail := SpelledItems(others) + [CLOSE_BRACKET];
      SpelledItemsUnfold(items, [CLOSE_BRACKET]);
      AfterPlaced(x.after, tail, others == []);
      ValueThen(Spelled(x.value), x.after + tail);
    }
  }

  lemma ValueThen(value: seq<Lexeme>, tail: seq<Lexeme>)
    requires IsValueRun(value) && Placed(tail) && tail != []
    requires IsPunctuation(tail[0].kind) && tail[0].kind in {ArraySeparator, ArrayEnd, ObjectEnd}
    ensures Placed(value + tail) && value + tail != [] && StartsValue((value + tail)[0])
    ensures (value + tail)[|value + tail| - 1] == tail[|tail| - 1]
  {
    hide Placed;
    PlacedJoin(value, tail);
  }

  /** A comma, or nothing, before what follows a value. */
  lemma AfterPlaced(after: seq<Lexeme>, tail: seq<Lexeme>, last: bool)
    requires after == if last then [] else [COMMA_SIGN]
    requires tail != [] && Placed(tail)
    requires if last then IsPunctuation(tail[0].kind) && (tail[0].kind == ArrayEnd || tail[0].kind == ObjectEnd)
             else StartsValue(tail[0])
    ensures Placed(after + tail) && after + tail != [] && IsPunctuation((after + tail)[0].kind)
    ensures (after + tail)[0].kind in {ArraySeparator, ArrayEnd, ObjectEnd}
    ensures (after + tail)[|after + tail| - 1] == tail[|tail| - 1]
  {
    hide Placed, Legal;
    LegalPunctuation();
    OnePlaced(COMMA_SIGN);
    if last {
      assert [] + tail == tail;
    } else {
      PlacedJoin([COMMA_SIGN], tail);
    }
  }

  lemma {:induction false} OneItemPlaced(x: Item)
    requires Standard(x.value)
    ensures IsValueRun(Spelled(x.value))
    decreases x, 0
  {
    hide Standard, IsValueRun;
    StandardIsPlaced(x.value);
  }

  lemma {:induction false} FieldsPlaced(fields: seq<Field>)
    requires forall i :: 0 <= i < |fields| ==>
               Joined(fields[i].after, i, |fields|) && IsPlainName(fields[i]) && Standard(fields[i].value)
    ensures var ts := SpelledFields(fields) + [CLOSE_BRACE];
            Placed(ts) && ts[|ts| - 1] == CLOSE_BRACE && (fields == [] ==> ts[0] == CLOSE_BRACE)
            && (fields != [] ==> ts[0].kind == StringToken)
    decreases fields, 0
  {
    hide Placed, Standard, Spelled, Legal;
    LegalPunctuation();
    OnePlaced(CLOSE_BRACE);
    if fields == [] {
      assert [] + [CLOSE_BRACE] == [CLOSE_BRACE];
    } else {
      var x, others := fields[0], fields[1..];
      assert forall i :: 0 <= i < |others| ==> others[i] == fields[i + 1];
      OneFieldPlaced(x);
      FieldsPlaced(others);
      var tail := SpelledFields(others) + [CLOSE_BRACE];
      SpelledFieldsUnfold(fields, [CLOSE_BRACE]);
      AfterPlaced(x.after, tail, others == []);
      FieldPlaced(x, Spelled(x.value), x.after + tail);
      assert [] + ([x.name] + ([COLON_SIGN] + (Spelled(x.value) + (x.after + tail))))
             == [x.name] + ([COLON_SIGN] + (Spelled(x.value) + (x.after + tail)));
    }
  }

  lemma FieldPlaced(x: Field, value: seq<Lexeme>, tail: seq<Lexeme>)
    requires IsPlainName(x) && IsValueRun(value) && Placed(tail) && tail != []
    requires IsPunctuation(tail[0].kind) && tail[0].kind in {ArraySeparator, ArrayEnd, ObjectEnd}
    ensures Placed([x.name] + ([COLON_SIGN] + (value + tail)))
    ensures var ts := [x.name] + ([COLON_SIGN] + (value + tail)); ts[|ts| - 1] == tail[|tail| - 1]
  {
    hide Placed, Legal, IsValueRun;
    LegalPunctuation();
    OnePlaced(x.name);
    OnePlaced(COLON_SIGN);
    ValueThen(value, tail);
    PlacedJoin([COLON_SIGN], value + tail);
    PlacedJoin([x.name], [COLON_SIGN] + (value + tail));
  }

  lemma {:induction false} OneFieldPlaced(x: Field)
    requires Standard(x.value)
    ensures IsValueRun(Spelled(x.value))
    decreases x, 0
  {
    hide Standard, IsValueRun;
    StandardIsPlaced(x.value);
  }

  /** A JSON text lexes to the tokens of its tree, under every feature setting. */
  lemma JsonLexes(f: Features, w: bytes, t: Syntax)
    requires Standard(t) && Renders(w, Spelled(t))
    ensures LexAll(f, w) == Spelled(t) && Clean(LexAll(f, w))
  {
    hide Standard, Renders, Tokens.LexAll, Clean, Separated, Spelled;
    StandardIsPlaced(t);
    RenderedLexes(f, w, Spelled(t));
  }

  lemma JsonIsClean(f: Features, w: bytes)
    requires IsJson(w)
    ensures Clean(LexAll(f, w))
  {
    hide Standard, Renders, Tokens.LexAll, Clean, Spelled;
    var t :| Standard(t) && Renders(w, Spelled(t));
    JsonLexes(f, w, t);
  }

  // ----- a clean document that is accepted is a JSON text ------------------------------------------------------------

  /** Any document renders its own tokens. */
  lemma {:induction false} LexedRenders(f: Features, s: bytes)
    ensures Renders(s, LexAll(f, s))
    decreases |s|
  {
    hide Lexer.ReadToken;
    FirstLexeme(f, s);
    SpacesFirst(f, s);
    var t := ReadToken(f, s);
    if t.start != [] {
      LexedRenders(f, t.rest);
      var ts := LexAll(f, s);
      assert ts[0] == Lexeme(t.kind, t.Text()) && ts[1..] == LexAll(f, t.rest);
      TokenSplits(f, s);
    }
  }

  lemma LegalIsNoComment(ts: seq<Lexeme>)
    requires Clean(ts)
    ensures AllComments(ts) ==> ts == []
    ensures ts != [] && AllComments(ts[..|ts| - 1]) ==> |ts| == 1
  {
    hide LegalString, LegalNumber;
    if ts != [] {
      assert ts[0].kind != CommentToken;
      if |ts| > 1 {
        assert ts[..|ts| - 1][0] == ts[0];
      }
    }
  }

  /** The pieces of a value, and what follows it, are clean, and so is their joint. */
  lemma CleanSplit(p: Lexeme, value: seq<Lexeme>, after: seq<Lexeme>, tail: seq<Lexeme>)
    requires Clean([p] + (value + (after + tail)))
    ensures Clean(value) && Clean(after) && Clean(tail)
    ensures value == [] && after + tail != [] ==> !BadPair(p, (after + tail)[0])
    ensures after != [] ==> Clean([after[|after| - 1]] + tail)
  {
    hide Clean, BadPair;
    CleanParts([p], value + (after + tail));
    CleanParts(value, after + tail);
    CleanParts(after, tail);
    if value == [] {
      assert [] + (after + tail) == after + tail;
    }
    if after != [] {
      var front, l := after[..|after| - 1], after[|after| - 1];
      EndsWithSplit(after, tail);
      CleanParts(front, [l] + tail);
    }
  }

  lemma {:induction false} CleanIsStandard(f: Features, t: Syntax)
    requires Value(f, t).Some? && Clean(Spelled(t)) && !t.Dropped?
    ensures Standard(t)
    decreases t, 1
  {
    hide SpelledItems, SpelledFields, Values, Members, Clean, LegalString, LegalNumber;
    match t
    case Leaf(l) => LeafIsStandard(f, l);
    case Noted(c, v) => NoteIsNotClean(c, Spelled(v));
    case List(items) => CleanItems(f, OPEN_BRACKET, items);
    case Record(fields, notes) => CleanFields(f, OPEN_BRACE, [], fields, notes);
  }

  lemma LeafIsStandard(f: Features, l: Lexeme)
    requires ScalarValue(f, l).Some? && Clean([l])
    ensures Standard(Leaf(l))
  {
    hide LegalString, LegalNumber, NumberCodec.IntegerOf, StringCodec.DecodedToken;
    assert Legal([l][0]);
  }

  lemma NoteIsNotClean(c: Lexeme, ts: seq<Lexeme>)
    requires c.kind == CommentToken
    ensures !Clean([c] + ts)
  {
    assert !Legal(([c] + ts)[0]);
  }

  lemma AfterItem(f: Features, after: seq<Lexeme>, last: bool)
    requires ItemEnds(f, after, last) && Clean(after)
    ensures (after == [] && last) || after == [COMMA_SIGN]
  {
    hide Clean;
    LegalIsNoComment(after);
  }

  lemma AfterField(f: Features, after: seq<Lexeme>, name: bytes, last: bool)
    requires FieldEnds(f, after, name, last) && Clean(after)
    ensures (after == [] && last) || after == [COMMA_SIGN]
  {
    hide Clean;
    LegalIsNoComment(after);
  }

  /** After a bracket or a comma come elements that are standard. */
  lemma {:induction false} CleanItems(f: Features, p: Lexeme, items: seq<Item>)
    requires Values(f, items).Some? && (p == OPEN_BRACKET || p == COMMA_SIGN)
    requires Clean([p] + (SpelledItems(items) + [CLOSE_BRACKET]))
    requires p == OPEN_BRACKET ==> items != [Item(Dropped, [])]
    ensures p == COMMA_SIGN ==> items != []
    ensures forall i :: 0 <= i < |items| ==> Joined(items[i].after, i, |items|) && Standard(items[i].value)
    decreases items, 0
  {
    hide Value, Standard, Spelled, Clean, ItemEnds, Legal;
    if items == [] {
      assert [] + [CLOSE_BRACKET] == [CLOSE_BRACKET];
      CleanParts([p], [CLOSE_BRACKET]);
    } else {
      var x, others := items[0], items[1..];
      var tail := SpelledItems(others) + [CLOSE_BRACKET];
      SpelledItemsUnfold(items, [CLOSE_BRACKET]);
      CleanSplit(p, Spelled(x.value), x.after, tail);
      AfterItem(f, x.after, others == []);
      if x.after == [COMMA_SIGN] {
        CleanItems(f, COMMA_SIGN, others);
        assert (x.after + tail)[0] == COMMA_SIGN;
      } else {
        assert items == [x];
        assert x.after + tail == [CLOSE_BRACKET];
      }
      NothingSpelled(x.value);
      CleanItem(f, x);
      assert forall i :: 0 < i < |items| ==> items[i] == others[i - 1];
    }
  }

  lemma NothingSpelled(t: Syntax)
    ensures t.Dropped? ==> Spelled(t) == []
  {
  }

  lemma {:induction false} CleanItem(f: Features, x: Item)
    requires ItemValue(f, x).Some? && Clean(Spelled(x.value)) && !x.value.Dropped?
    ensures Standard(x.value)
    decreases x, 0
  {
    hide Value, Standard, Spelled, Clean;
    CleanIsStandard(f, x.value);
  }

  lemma NameIsPlain(f: Features, x: Field, tail: seq<Lexeme>)
    requires KeyName(f, x.name).Some? && AllComments(x.notes)
    requires Clean(x.notes + ([x.name] + ([COLON_SIGN] + tail)))
    ensures IsPlainName(x) && Clean([COLON_SIGN] + tail)
  {
    hide StringCodec.DecodedToken, NumberCodec.IntegerOf, LegalString, LegalNumber, Clean;
    CleanParts(x.notes, [x.name] + ([COLON_SIGN] + tail));
    LegalIsNoComment(x.notes);
    CleanParts([x.name], [COLON_SIGN] + tail);
    OneIsLegal(x.name);
  }

  lemma OneIsLegal(l: Lexeme)
    requires Clean([l])
    ensures Legal(l)
  {
    hide Legal;
    assert Legal([l][0]);
  }

  /** After a brace or a comma come members that are standard. */
  lemma {:induction false} CleanFields(f: Features, p: Lexeme, members: seq<Member>, fields: seq<Field>,
                                       notes: seq<Lexeme>)
    requires Members(f, members, fields, notes).Some? && AllComments(notes) && (p == OPEN_BRACE || p == COMMA_SIGN)
    requires Clean([p] + (SpelledFields(fields) + (notes + [CLOSE_BRACE])))
    ensures notes == [] && (p == COMMA_SIGN ==> fields != [])
    ensures forall i :: 0 <= i < |fields| ==>
              Joined(fields[i].after, i, |fields|) && IsPlainName(fields[i]) && Standard(fields[i].value)
    decreases fields, 0
  {
    hide Value, Standard, Spelled, Clean, Legal, KeyName, Parser.SetMember, Fits, FieldEnds, AcceptsKey;
    if fields == [] {
      assert [] + (notes + [CLOSE_BRACE]) == notes + [CLOSE_BRACE];
      CleanParts([p], notes + [CLOSE_BRACE]);
      CleanParts(notes, [CLOSE_BRACE]);
      LegalIsNoComment(notes);
      assert [] + [CLOSE_BRACE] == [CLOSE_BRACE];
    } else {
      var x, others := fields[0], fields[1..];
      var tail := SpelledFields(others) + (notes + [CLOSE_BRACE]);
      SpelledFieldsUnfold(fields, notes + [CLOSE_BRACE]);
      CleanParts([p], SpelledFields(fields) + (notes + [CLOSE_BRACE]));
      NameIsPlain(f, x, Spelled(x.value) + (x.after + tail));
      CleanSplit(COLON_SIGN, Spelled(x.value), x.after, tail);
      AfterField(f, x.after, KeyName(f, x.name).value, others == []);
      var members' := SetMember(members, KeyName(f, x.name).value, FieldValue(f, x, notes).value);
      if x.after == [COMMA_SIGN] {
        CleanFields(f, COMMA_SIGN, members', others, notes);
        assert (x.after + tail)[0] == COMMA_SIGN;
      } else {
        OnlyNotes(notes, tail);
        assert x.after + tail == [CLOSE_BRACE];
      }
      NothingSpelled(x.value);
      CleanField(f, x, notes);
      assert forall i :: 0 < i < |fields| ==> fields[i] == others[i - 1];
    }
  }

  lemma OnlyNotes(notes: seq<Lexeme>, tail: seq<Lexeme>)
    requires AllComments(notes) && Clean(tail) && tail == [] + (notes + [CLOSE_BRACE])
    ensures notes == [] && tail == [CLOSE_BRACE]
  {
    hide Clean;
    assert tail == notes + [CLOSE_BRACE];
    CleanParts(notes, [CLOSE_BRACE]);
    LegalIsNoComment(notes);
  }

  lemma {:induction false} CleanField(f: Features, x: Field, notes: seq<Lexeme>)
    requires FieldValue(f, x, notes).Some? && Clean(Spelled(x.value)) && !x.value.Dropped?
    ensures Standard(x.value)
    decreases x, 0
  {
    hide Value, Standard, Spelled, Clean, Fits;
    CleanIsStandard(f, x.value);
  }

  /** With `failIfExtra`, whatever the other settings are: an accepted document is a JSON text if and only if each of its
      tokens is one of RFC 8259 and no two that follow each other are a bad pair. */
  lemma AcceptedIsJson(f: Features, doc: bytes, root0: Json)
    requires f.failIfExtra && Accepts(f, doc, root0)
    ensures IsJson(AfterBom(f, doc)) <==> Clean(LexAll(f, AfterBom(f, doc)))
  {
    hide Clean, Parser.Parse, Value, Standard, Tokens.LexAll, Renders, Levels, Spelled, Parser.AfterBom;
    var w := AfterBom(f, doc);
    if IsJson(w) {
      JsonIsClean(f, w);
    }
    if Clean(LexAll(f, w)) {
      var t := AcceptedIsText(f, doc, root0);
      var more := LexAll(f, w)[|Spelled(t)|..];
      assert LexAll(f, w) == Spelled(t) + more;
      CleanParts(Spelled(t), more);
      NothingMore(f, more);
      assert LexAll(f, w) == Spelled(t);
      CleanIsStandard(f, t);
      LexedRenders(f, w);
    }
  }

  lemma NothingMore(f: Features, more: seq<Lexeme>)
    requires Finished(f, more)
    ensures Clean(more) ==> more == []
  {
    hide LegalString, LegalNumber;
    if more != [] {
      assert !Legal(more[0]);
    }
  }

  // ----- which JSON texts are accepted --------------------------------------------------------------------------------

  /** The scalars and names of the tree can be decoded, names can be stored, and none is a duplicate where these are
      rejected. */
  predicate Readable(f: Features, t: Syntax)
    decreases t
  {
    match t
    case Leaf(l) => ScalarValue(f, l).Some?
    case List(items) => forall i :: 0 <= i < |items| ==> Readable(f, items[i].value)
    case Record(fields, _) =>
      && (f.rejectDupKeys ==> NoDuplicates(f, fields))
      && forall i :: 0 <= i < |fields| ==>
           KeyName(f, fields[i].name).Some? && |KeyName(f, fields[i].name).value| < MAX_KEY_LENGTH
           && Readable(f, fields[i].value)
    case _ => true
  }

  predicate NoDuplicates(f: Features, fields: seq<Field>) {
    forall i, j :: 0 <= i < j < |fields| ==> KeyName(f, fields[i].name) != KeyName(f, fields[j].name)
  }

  predicate HasKey(members: seq<Member>, key: bytes) {
    exists i :: 0 <= i < |members| && members[i].key == key
  }

  lemma NewKeyOnly(members: seq<Member>, key: bytes, v: Json, other: bytes)
    requires HasKey(SetMember(members, key, v), other) && other != key
    ensures HasKey(members, other)
  {
    var r := SetMember(members, key, v);
    var i :| 0 <= i < |r| && r[i].key == other;
    assert other in (set m | m in members :: m.key);
    var m :| m in members && m.key == other;
  }

  /** Every JSON text that is readable has a value. */
  lemma {:induction false} StandardHasValue(f: Features, t: Syntax)
    requires Standard(t) && Readable(f, t)
    ensures Value(f, t).Some? && !LeftOut(t)
    decreases t, 1
  {
    hide ScalarValue, KeyName, Values, Members;
    match t
    case Leaf(_) =>
    case List(items) => StandardItems(f, items);
    case Record(fields, notes) => StandardFields(f, [], fields);
  }

  lemma {:induction false} StandardItems(f: Features, items: seq<Item>)
    requires forall i :: 0 <= i < |items| ==> Joined(items[i].after, i, |items|) && Standard(items[i].value)
    requires forall i :: 0 <= i < |items| ==> Readable(f, items[i].value)
    ensures Values(f, items).Some? && items != [Item(Dropped, [])]
    decreases items, 0
  {
    hide Value, Standard, Readable;
    if items != [] {
      StandardItem(f, items[0]);
      StandardItems(f, items[1..]);
    }
  }

  lemma {:induction false} StandardItem(f: Features, x: Item)
    requires Standard(x.value) && Readable(f, x.value)
    ensures ItemValue(f, x).Some? && x.value != Dropped
    decreases x, 0
  {
    hide Value, Readable;
    StandardHasValue(f, x.value);
  }

  lemma {:induction false} StandardFields(f: Features, members: seq<Member>, fields: seq<Field>)
    requires forall i :: 0 <= i < |fields| ==>
               Joined(fields[i].after, i, |fields|) && IsPlainName(fields[i]) && Standard(fields[i].value)
    requires forall i :: 0 <= i < |fields| ==>
               KeyName(f, fields[i].name).Some? && |KeyName(f, fields[i].name).value| < MAX_KEY_LENGTH
               && Readable(f, fields[i].value)
    requires f.rejectDupKeys ==>
               NoDuplicates(f, fields)
               && forall i :: 0 <= i < |fields| ==> !HasKey(members, KeyName(f, fields[i].name).value)
    ensures Members(f, members, fields, []).Some?
    decreases fields, 0
  {
    hide Value, Standard, Readable, KeyName, Parser.SetMember, HasKey, Legal, Fits;
    if fields != [] {
      var x, others := fields[0], fields[1..];
      StandardField(f, x);
      var key, v := KeyName(f, x.name).value, FieldValue(f, x, []).value;
      MemberHasKey(members, key);
      forall i | f.rejectDupKeys && 0 <= i < |others|
        ensures !HasKey(SetMember(members, key, v), KeyName(f, others[i].name).value)
      {
        var other := KeyName(f, others[i].name).value;
        assert others[i] == fields[i + 1] && other != key;
        if HasKey(SetMember(members, key, v), other) {
          NewKeyOnly(members, key, v, other);
        }
      }
      StandardFields(f, SetMember(members, key, v), others);
    }
  }

  lemma MemberHasKey(members: seq<Member>, key: bytes)
    ensures IsMember(members, key) ==> HasKey(members, key)
  {
  }

  lemma {:induction false} StandardField(f: Features, x: Field)
    requires Standard(x.value) && Readable(f, x.value) && x.notes == []
    ensures FieldValue(f, x, []).Some?
    decreases x, 0
  {
    hide Value, Readable;
    StandardHasValue(f, x.value);
  }

  /** Under every feature setting a JSON text is accepted, with the value that its tree means, when its tree is readable
      and no higher than the stack limit, and an array or object where the root must be one. */
  lemma JsonIsAccepted(f: Features, doc: bytes, root0: Json, t: Syntax)
    requires Standard(t) && Renders(AfterBom(f, doc), Spelled(t))
    requires Readable(f, t) && Levels(t) <= f.stackLimit && (f.strictRoot ==> !t.Leaf?)
    ensures Value(f, t).Some? && Parse(f, doc, root0) == Parsed(true, Value(f, t).value, [])
  {
    hide Standard, Renders, Readable, Tokens.LexAll, Clean, Spelled, Levels, Parser.Parse, Parser.AfterBom, Fits;
    JsonLexes(f, AfterBom(f, doc), t);
    StandardHasValue(f, t);
    NothingFollows(f, t);
    if f.strictRoot {
      RootIsContainer(f, t);
    }
    assert LexAll(f, AfterBom(f, doc))[|Spelled(t)|..] == [];
    TextIsAccepted(f, doc, root0, t);
  }

  lemma NothingFollows(f: Features, t: Syntax)
    requires !LeftOut(t)
    ensures Fits(t, []) && Finished(f, [])
  {
  }

  lemma RootIsContainer(f: Features, t: Syntax)
    requires Standard(t) && Value(f, t).Some? && !t.Leaf?
    ensures Value(f, t).value.Arr? || Value(f, t).value.Obj?
  {
    hide Values, Members;
  }

  // ----- two documents that are accepted and are no JSON texts -----------------------------------------------------

  const NAMELESS: Lexeme := Lexeme(StringToken, [QUOTE, QUOTE])
  const ZERO_NUMBER: Lexeme := Lexeme(NumberToken, [ZERO])

  lemma NamelessLexeme(f: Features)
    ensures Legal(NAMELESS) && KeyName(f, NAMELESS) == Some([])
  {
    hide LegalString, StringCodec.DecodedToken;
    QuotedIsLegal([], true);
    RoundTripRaw([]);
    assert Quoted([], true) == NAMELESS.text;
  }

  lemma ZeroLexeme(f: Features)
    ensures Legal(ZERO_NUMBER) && ScalarValue(f, ZERO_NUMBER) == Some(Int(0))
  {
    hide LegalNumber, NumberCodec.IntegerOf;
    FormatIntIsLegal(0);
    IntRoundTrip(0);
    assert FormatInt(0) == ZERO_NUMBER.text;
  }

  lemma SmallLexemes(f: Features)
    ensures Legal(NAMELESS) && KeyName(f, NAMELESS) == Some([])
    ensures Legal(ZERO_NUMBER) && ScalarValue(f, ZERO_NUMBER) == Some(Int(0))
    ensures Legal(OPEN_BRACE) && Legal(CLOSE_BRACE) && Legal(COLON_SIGN) && Legal(COMMA_SIGN)
  {
    hide Legal, KeyName, ScalarValue;
    NamelessLexeme(f);
    ZeroLexeme(f);
    LegalPunctuation();
  }

  /** An object whose only member has an empty name, and a separator after it. */
  function Nameless(separator: seq<Lexeme>): Syntax {
    Record([Field([], NAMELESS, Leaf(ZERO_NUMBER), separator)], [])
  }

  lemma NamelessMeans(f: Features, separator: seq<Lexeme>)
    requires IsSeparator(separator)
    ensures Value(f, Nameless(separator)) == Some(Obj([Member([], Int(0))]))
  {
    hide KeyName, ScalarValue, Legal;
    SmallLexemes(f);
    var x := Field([], NAMELESS, Leaf(ZERO_NUMBER), separator);
    assert [x][1..] == [];
    assert SetMember([], [], Int(0)) == [Member([], Int(0))];
    assert Value(f, x.value) == Some(Int(0));
    assert Members(f, [Member([], Int(0))], [], []) == Some([Member([], Int(0))]);
    assert Members(f, [], [x], []) == Members(f, SetMember([], [], Int(0)), [x][1..], []);
  }

  lemma NamelessHeight(separator: seq<Lexeme>)
    ensures Levels(Nameless(separator)) == 2
  {
    var x := Field([], NAMELESS, Leaf(ZERO_NUMBER), separator);
    assert [x][1..] == [] && Levels(x.value) == 1;
    assert FieldsLevels([x]) == Larger(FieldLevels(x), FieldsLevels([x][1..]));
  }

  lemma NamelessHasValue(f: Features, separator: seq<Lexeme>)
    requires IsSeparator(separator)
    ensures Value(f, Nameless(separator)) == Some(Obj([Member([], Int(0))])) && Levels(Nameless(separator)) == 2
    ensures Spelled(Nameless(separator))
            == [OPEN_BRACE] + ([NAMELESS] + ([COLON_SIGN] + ([ZERO_NUMBER] + (separator + ([CLOSE_BRACE] + [])))))
  {
    hide Value, Levels, IsSeparator;
    NamelessMeans(f, separator);
    NamelessHeight(separator);
    var x := Field([], NAMELESS, Leaf(ZERO_NUMBER), separator);
    assert [x][1..] == [];
    assert SpelledFields([x]) == SpelledField(x) + SpelledFields([x][1..]);
    SpelledFieldsUnfold([x], [] + [CLOSE_BRACE]);
  }

  /** A document of these tokens is accepted. */
  lemma NamelessIsAccepted(f: Features, doc: bytes, root0: Json, separator: seq<Lexeme>)
    requires IsSeparator(separator) && f.stackLimit >= 2 && doc != [] && doc[0] == LBRACE
    requires LexAll(f, doc) == Spelled(Nameless(separator))
    ensures Parse(f, doc, root0) == Parsed(true, Obj([Member([], Int(0))]), [])
  {
    hide Tokens.LexAll, Parser.Parse, Value, Levels, Spelled, IsSeparator;
    NamelessHasValue(f, separator);
    assert BOM[0] != doc[0];
    assert LexAll(f, doc)[|Spelled(Nameless(separator))|..] == [];
    TextIsAccepted(f, doc, root0, Nameless(separator));
  }

  lemma NamelessIsNoJson(f: Features, doc: bytes, separator: seq<Lexeme>)
    requires IsSeparator(separator) && LexAll(f, doc) == Spelled(Nameless(separator))
    ensures !IsJson(doc)
  {
    hide Legal, Tokens.LexAll, Spelled, Standard, IsSeparator;
    NamelessHasValue(f, separator);
    SeparatorIsNotClean(separator);
    if IsJson(doc) {
      JsonIsClean(f, doc);
      assert false;
    }
  }

  /** A separator before a closing brace: a comma there makes a bad pair, and a comment is no token of RFC 8259. */
  lemma SeparatorIsNotClean(separator: seq<Lexeme>)
    requires IsSeparator(separator)
    ensures !Clean([OPEN_BRACE] + ([NAMELESS] + ([COLON_SIGN] + ([ZERO_NUMBER] + (separator + ([CLOSE_BRACE] + []))))))
  {
    var ts := [OPEN_BRACE] + ([NAMELESS] + ([COLON_SIGN] + ([ZERO_NUMBER] + (separator + ([CLOSE_BRACE] + [])))));
    assert ts[4] == separator[0] && ts[5] == if |separator| == 1 then CLOSE_BRACE else separator[1];
    if |separator| == 1 {
      assert BadPair(ts[4], ts[4 + 1]);
    } else {
      assert separator[..|separator| - 1][0] == separator[0];
      assert !Legal(ts[4]);
    }
  }

  lemma Consume(f: Features, l: Lexeme, rest: bytes)
    requires Legal(l) && (l.kind == NumberToken && rest != [] ==> !ContinuesNumber(rest[0]))
    ensures LexAll(f, l.text + rest) == [l] + LexAll(f, rest)
  {
    hide Lexer.ReadToken;
    LegalReads(f, l, rest);
    LegalStart(l);
    var s := l.text + rest;
    assert s[..|s| - |rest|] == l.text && s != [];
  }

  /** The text of a member with an empty name and the value 0, from its opening brace, before `rest`. */
  function MemberText(rest: bytes): bytes {
    [LBRACE] + ([QUOTE, QUOTE] + ([COLON] + ([ZERO] + rest)))
  }

  lemma MemberTextLexes(f: Features, rest: bytes)
    requires rest != [] ==> !ContinuesNumber(rest[0])
    ensures LexAll(f, MemberText(rest))
            == [OPEN_BRACE] + ([NAMELESS] + ([COLON_SIGN] + ([ZERO_NUMBER] + LexAll(f, rest))))
  {
    hide Legal, KeyName, ScalarValue, Tokens.LexAll;
    SmallLexemes(f);
    Consume(f, ZERO_NUMBER, rest);
    Consume(f, COLON_SIGN, [ZERO] + rest);
    Consume(f, NAMELESS, [COLON] + ([ZERO] + rest));
    Consume(f, OPEN_BRACE, [QUOTE, QUOTE] + ([COLON] + ([ZERO] + rest)));
  }

  lemma NothingLexes(f: Features)
    ensures LexAll(f, []) == []
  {
  }

  /** A comma after a member with an empty name is accepted, even where trailing commas are not allowed. */
  lemma EmptyNameAllowsTrailingComma(f: Features, root0: Json)
    requires f.stackLimit >= 2
    ensures var doc := MemberText([COMMA] + ([RBRACE] + []));
            Parse(f, doc, root0) == Parsed(true, Obj([Member([], Int(0))]), []) && !IsJson(doc)
  {
    hide Legal, KeyName, ScalarValue, Tokens.LexAll, Parser.Parse, Spelled, Value;
    SmallLexemes(f);
    NothingLexes(f);
    Consume(f, CLOSE_BRACE, []);
    Consume(f, COMMA_SIGN, [RBRACE] + []);
    MemberTextLexes(f, [COMMA] + ([RBRACE] + []));
    NamelessHasValue(f, [COMMA_SIGN]);
    var doc := MemberText([COMMA] + ([RBRACE] + []));
    NamelessIsAccepted(f, doc, root0, [COMMA_SIGN]);
    NamelessIsNoJson(f, doc, [COMMA_SIGN]);
  }

  const COMMENT: bytes := [SLASH, STAR, STAR, SLASH]

  lemma CommentLexes(f: Features, rest: bytes)
    ensures LexAll(f, COMMENT + rest) == [Lexeme(CommentToken, COMMENT)] + LexAll(f, rest)
  {
    var s := COMMENT + rest;
    assert s[0] == SLASH && s[1..][0] == STAR && s[1..][1..] == [STAR, SLASH] + rest;
    assert ([STAR, SLASH] + rest)[1..] == [SLASH] + rest && ([SLASH] + rest)[1..] == rest;
    assert ScanCStyleComment([STAR, SLASH] + rest) == Scan(true, rest);
    hide ScanCStyleComment, StringCodec.ScanString, Lexer.ScanNumber;
    assert s[..|s| - |rest|] == COMMENT;
  }

  /** After a comment that follows a member any token is taken for a comma: here it is a second value. */
  lemma CommentHidesMissingComma(f: Features, root0: Json)
    requires f.stackLimit >= 2
    ensures var doc := MemberText(COMMENT + ([ZERO] + ([RBRACE] + [])));
            Parse(f, doc, root0) == Parsed(true, Obj([Member([], Int(0))]), []) && !IsJson(doc)
  {
    hide Legal, KeyName, ScalarValue, Tokens.LexAll, Parser.Parse, Spelled, Value;
    SmallLexemes(f);
    NothingLexes(f);
    var rest, separator := COMMENT + ([ZERO] + ([RBRACE] + [])), [Lexeme(CommentToken, COMMENT), ZERO_NUMBER];
    Consume(f, CLOSE_BRACE, []);
    Consume(f, ZERO_NUMBER, [RBRACE] + []);
    CommentLexes(f, [ZERO] + ([RBRACE] + []));
    MemberTextLexes(f, rest);
    assert separator + ([CLOSE_BRACE] + [])
           == [Lexeme(CommentToken, COMMENT)] + ([ZERO_NUMBER] + ([CLOSE_BRACE] + []));
    NamelessHasValue(f, separator);
    NamelessIsAccepted(f, MemberText(rest), root0, separator);
    NamelessIsNoJson(f, MemberText(rest), separator);
  }
}
