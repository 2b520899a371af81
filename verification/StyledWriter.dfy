/** `BuiltStyledStreamWriter`: the indenting printer, for values without comments. Its running state, the flags and the
    cached texts, gives exactly the layout of `StyledText`. */
module StyledWriter {
  import opened Bytes
  import opened StringCodec
  import opened NumberCodec
  import opened JsonValue
  import opened Lexer
  import opened Tokens
  import opened StyledText
  import Fast = FastWriter

  class BuiltStyledStreamWriter {
    var sout: bytes
    var childValues: seq<bytes>
    var indentString: bytes
    var addChildValues: bool
    var indented: bool
    const rightMargin: nat := 74
    const indentation: bytes
    const cs: CommentStyle
    const colonSymbol: bytes
    const nullSymbol: bytes
    const endingLineFeedSymbol: bytes
    const emitUTF8: bool

    function Settings(): Style {
      Style(indentation, cs, colonSymbol, nullSymbol, endingLineFeedSymbol, emitUTF8)
    }

    ghost predicate Valid()
      reads this
    {
      cs == All ==> childValues == [] && !addChildValues
    }

    /** `childValues` holds the text of every element, in order. */
    ghost predicate Cached(items: seq<Json>)
      requires ItemsRealFree(items)
      reads this
    {
      |childValues| == |items|
      && forall i :: 0 <= i < |items| ==> childValues[i] == ValueText(Settings(), items[i], [], true)
    }

    /** The value was either written out, or its text became the next cached child value. */
    twostate predicate Wrote(value: Json)
      requires RealFree(value)
      reads this
    {
      && indentString == old(indentString) && addChildValues == old(addChildValues)
      && (addChildValues ==>
            && sout == old(sout) && indented == old(indented)
            && childValues == old(childValues) + [ValueText(Settings(), value, [], true)])
      && (!addChildValues ==>
            && sout == old(sout) + ValueText(Settings(), value, indentString, old(indented))
            && (indented ==> old(indented)))
    }

    constructor (indentation: bytes, cs: CommentStyle, colonSymbol: bytes, nullSymbol: bytes,
                 endingLineFeedSymbol: bytes, emitUTF8: bool)
      ensures Settings() == Style(indentation, cs, colonSymbol, nullSymbol, endingLineFeedSymbol, emitUTF8)
      ensures Valid()
    {
      this.indentation, this.cs, this.colonSymbol := indentation, cs, colonSymbol;
      this.nullSymbol, this.endingLineFeedSymbol := nullSymbol, endingLineFeedSymbol;
      this.emitUTF8 := emitUTF8;
      addChildValues, indented, childValues, indentString := false, false, [], [];
      sout := [];
    }

    method Write(root: Json) returns (text: bytes)
      requires Valid() && RealFree(root) && InRange(root)
      modifies this
      ensures Valid() && text == Document(Settings(), root) && indentString == []
    {
      hide ValueText, RealFree, InRange;
      sout := [];
      addChildValues := false;
      indented := true;
      indentString := [];
      WriteValue(root);
      sout := sout + endingLineFeedSymbol;
      text := sout;
    }

    method PushValue(w: bytes)
      requires Valid()
      modifies `sout, `childValues
      ensures Valid()
      ensures addChildValues ==> childValues == old(childValues) + [w] && sout == old(sout)
      ensures !addChildValues ==> childValues == old(childValues) && sout == old(sout) + w
    {
      if addChildValues {
        childValues := childValues + [w];
      } else {
        sout := sout + w;
      }
    }

    method WriteIndent()
      modifies `sout
      ensures sout == old(sout) + NewLine(Settings(), indentString)
    {
      if indentation != [] {
        sout := sout + [LF] + indentString;
      }
    }

    method WriteWithIndent(w: bytes)
      modifies `sout, `indented
      ensures sout == old(sout) + (if old(indented) then [] else NewLine(Settings(), indentString)) + w && !indented
    {
      hide NewLine;
      if !indented {
        WriteIndent();
      }
      sout := sout + w;
      indented := false;
    }

    method Indent()
      modifies `indentString
      ensures indentString == old(indentString) + indentation
    {
      indentString := indentString + indentation;
    }

    method Unindent()
      requires |indentString| >= |indentation|
      modifies `indentString
      ensures indentString == old(indentString)[..|old(indentString)| - |indentation|]
    {
      indentString := indentString[..|indentString| - |indentation|];
    }

    /** Either writes the value, or adds its text to the cached child values. */
    method WriteValue(value: Json)
      requires Valid() && RealFree(value) && InRange(value) && (addChildValues ==> Flat(value))
      modifies this
      ensures Valid() && Wrote(value)
      decreases value, 1
    {
      hide Multiline, Lines, OneLine, MemberLines, NewLine, Gap;
      if value.Arr? {
        WriteArrayValue(value.items);
      } else if value.Obj? {
        WriteObjectValue(value.members);
      } else {
        var text := ScalarText(value);
        PushValue(text);
      }
    }

    method ScalarText(value: Json) returns (text: bytes)
      requires RealFree(value) && InRange(value) && !value.Arr? && !value.Obj?
      ensures text == StyledText.ScalarText(Settings(), value)
    {
      match value {
        case Null => text := nullSymbol;
        case Int(i) => text := ValueToStringInt(i);
        case UInt(u) => text := ValueToStringUInt(u);
        case Str(s) => text := ValueToQuotedStringN(s, emitUTF8);
        case Bool(b) => text := if b then TRUE_TEXT else FALSE_TEXT;
      }
    }

    method WriteObjectValue(members: seq<Member>)
      requires Valid() && MembersRealFree(members) && (forall i :: 0 <= i < |members| ==> InRange(members[i].value))
      requires addChildValues ==> members == []
      modifies this
      ensures Valid() && Wrote(Obj(members))
      decreases members, 1
    {
      hide MemberLines, NewLine, InRange;
      if members == [] {
        PushValue([LBRACE, RBRACE]);
      } else {
        WriteWithIndent([LBRACE]);
        Indent();
        WriteMembers(members);
        Unindent();
        WriteWithIndent([RBRACE]);
        Grouped(old(sout), if old(indented) then [] else NewLine(Settings(), indentString), [LBRACE],
                MemberLines(Settings(), members, indentString + indentation), NewLine(Settings(), indentString),
                [RBRACE]);
      }
    }

    method WriteMembers(members: seq<Member>)
      requires Valid() && MembersRealFree(members) && (forall i :: 0 <= i < |members| ==> InRange(members[i].value))
      requires !addChildValues && !indented && members != []
      modifies this
      ensures Valid() && indentString == old(indentString) && !addChildValues && !indented
      ensures sout == old(sout) + MemberLines(Settings(), members, indentString)
      decreases members, 0
    {
      hide RealFree, InRange, MemberLines, MemberLine;
      ghost var start := sout;
      NoLines(Settings(), indentString);
      var it := 0;
      while true
        invariant it < |members| && Valid() && indentString == old(indentString) && !addChildValues && !indented
        invariant sout == start + MemberLines(Settings(), members[..it], indentString) + Comma(it)
        decreases |members| - it
      {
        WriteMember(members[it]);
        MemberLinesStep(Settings(), members, it, indentString);
        Fast.Associate(start, MemberLines(Settings(), members[..it], indentString), Comma(it));
        Fast.Associate(MemberLines(Settings(), members[..it], indentString), Comma(it),
                       MemberLine(Settings(), members[it], indentString));
        it := it + 1;
        assert sout == start + MemberLines(Settings(), members[..it], indentString);
        if it == |members| {
          break;
        }
        sout := sout + [COMMA];
      }
      assert members[..|members|] == members;
    }

    method WriteMember(m: Member)
      requires Valid() && RealFree(m.value) && InRange(m.value) && !addChildValues && !indented
      modifies this
      ensures Valid() && indentString == old(indentString) && !addChildValues && !indented
      ensures sout == old(sout) + MemberLine(Settings(), m, indentString)
      decreases m, 2
    {
      hide RealFree, InRange, ValueText, Quoted, NewLine;
      var name := ValueToQuotedStringN(m.key, emitUTF8);
      WriteWithIndent(name);
      sout := sout + colonSymbol;
      WriteValue(m.value);
    }

    method WriteArrayValue(items: seq<Json>)
      requires Valid() && ItemsRealFree(items) && InRange(Arr(items))
      requires addChildValues ==> items == []
      modifies this
      ensures Valid() && Wrote(Arr(items))
      decreases items, 2
    {
      hide Multiline, Lines, OneLine, NewLine, Gap;
      if |items| == 0 {
        PushValue([LBRACKET, RBRACKET]);
      } else {
        var isMultiLine := cs == All;
        if isMultiLine {
          KeptOnLines(Settings(), items);
        } else {
          isMultiLine := IsMultilineArray(items);
        }
        if isMultiLine {
          WriteWithIndent([LBRACKET]);
          Indent();
          WriteLines(items);
          Unindent();
          WriteWithIndent([RBRACKET]);
          Grouped(old(sout), if old(indented) then [] else NewLine(Settings(), indentString), [LBRACKET],
                  Lines(Settings(), items, indentString + indentation), NewLine(Settings(), indentString), [RBRACKET]);
        } else {
          WriteOnOneLine(items);
        }
      }
    }

    /** The elements of an array, one on each line. */
    method WriteLines(items: seq<Json>)
      requires Valid() && ItemsRealFree(items) && (forall i :: 0 <= i < |items| ==> InRange(items[i]))
      requires items != [] && !addChildValues && !indented
      requires childValues == [] || (Cached(items) && forall i :: 0 <= i < |items| ==> Flat(items[i]))
      modifies this
      ensures Valid() && indentString == old(indentString) && !addChildValues && !indented
      ensures sout == old(sout) + Lines(Settings(), items, indentString)
      decreases items, 1
    {
      hide RealFree, InRange, Lines, ValueText, NewLine;
      var hasChildValue := childValues != [];
      ghost var start := sout;
      NoLines(Settings(), indentString);
      var index := 0;
      while true
        invariant index < |items| && Valid() && indentString == old(indentString) && !addChildValues && !indented
        invariant hasChildValue ==> Cached(items)
        invariant sout == start + Lines(Settings(), items[..index], indentString) + Comma(index)
        decreases |items| - index
      {
        WriteLine(items, index, hasChildValue);
        LinesStep(Settings(), items, index, indentString);
        Fast.Associate(start, Lines(Settings(), items[..index], indentString), Comma(index));
        Fast.Associate(Lines(Settings(), items[..index], indentString), Comma(index),
                       NewLine(Settings(), indentString) + ValueText(Settings(), items[index], indentString, true));
        index := index + 1;
        assert sout == start + Lines(Settings(), items[..index], indentString);
        if index == |items| {
          break;
        }
        sout := sout + [COMMA];
      }
      assert items[..|items|] == items;
    }

    method WriteLine(items: seq<Json>, index: nat, hasChildValue: bool)
      requires Valid() && ItemsRealFree(items) && (forall i :: 0 <= i < |items| ==> InRange(items[i]))
      requires index < |items| && !addChildValues && !indented
      requires hasChildValue ==> Cached(items) && Flat(items[index])
      modifies this
      ensures Valid() && indentString == old(indentString) && !addChildValues && !indented
      ensures hasChildValue ==> Cached(items)
      ensures sout == old(sout)
                      + (NewLine(Settings(), indentString) + ValueText(Settings(), items[index], indentString, true))
      decreases items, 0
    {
      hide RealFree, InRange, ValueText, NewLine;
      if hasChildValue {
        FlatText(Settings(), items[index], indentString, true);
        WriteWithIndent(childValues[index]);
      } else {
        if !indented {
          WriteIndent();
        }
        indented := true;
        WriteValue(items[index]);
        indented := false;
      }
    }

    method WriteOnOneLine(items: seq<Json>)
      requires Valid() && ItemsRealFree(items) && items != [] && Cached(items)
      modifies `sout
      ensures Valid()
      ensures sout == old(sout)
                      + ([LBRACKET] + Gap(Settings()) + OneLine(Settings(), items) + Gap(Settings()) + [RBRACKET])
    {
      hide RealFree, ValueText, OneLine;
      var gap: bytes := if indentation == [] then [] else [SPACE];
      sout := sout + [LBRACKET] + gap;
      ghost var start := sout;
      NoLines(Settings(), []);
      for index := 0 to |items|
        invariant sout == start + OneLine(Settings(), items[..index])
      {
        if index > 0 {
          sout := sout + [COMMA] + gap;
        }
        sout := sout + childValues[index];
        OneLineStep(Settings(), items, index);
        OneMore(start, OneLine(Settings(), items[..index]), if index == 0 then [] else [COMMA] + gap,
                childValues[index]);
      }
      assert items[..|items|] == items;
      sout := sout + gap + [RBRACKET];
    }

    /** Decides the layout; the texts of all elements are cached unless the decision came early. */
    method IsMultilineArray(items: seq<Json>) returns (isMultiLine: bool)
      requires Valid() && ItemsRealFree(items) && InRange(Arr(items)) && items != [] && !addChildValues && cs != All
      modifies this
      ensures Valid() && indentString == old(indentString) && !addChildValues && indented == old(indented)
      ensures sout == old(sout) && isMultiLine == Multiline(Settings(), items)
      ensures childValues == [] || (Cached(items) && forall i :: 0 <= i < |items| ==> Flat(items[i]))
      ensures !isMultiLine ==> Cached(items)
      decreases items, 1
    {
      hide RealFree, ValueText, LineLength;
      isMultiLine := Wrapped(|items| * 3) >= rightMargin;
      childValues := [];
      if !isMultiLine {
        isMultiLine := AnyNested(items);
      }
      if !isMultiLine {
        var lineLength := CacheChildren(items);
        isMultiLine := lineLength >= rightMargin;
      }
    }

    method AnyNested(items: seq<Json>) returns (nested: bool)
      ensures nested <==> exists i :: 0 <= i < |items| && !Flat(items[i])
    {
      nested := false;
      var index := 0;
      while index < |items| && !nested
        invariant index <= |items|
        invariant !nested ==> forall i :: 0 <= i < index ==> Flat(items[i])
        invariant nested ==> exists i :: 0 <= i < |items| && !Flat(items[i])
      {
        nested := !Flat(items[index]);
        index := index + 1;
      }
    }

    /** The texts of all elements, and the length of a line that holds them. */
    method CacheChildren(items: seq<Json>) returns (lineLength: nat)
      requires Valid() && ItemsRealFree(items) && InRange(Arr(items)) && items != [] && !addChildValues && cs != All
      requires childValues == [] && forall i :: 0 <= i < |items| ==> Flat(items[i])
      modifies this
      ensures Valid() && indentString == old(indentString) && !addChildValues && indented == old(indented)
      ensures sout == old(sout) && Cached(items) && lineLength == LineLength(Settings(), items)
      decreases items, 0
    {
      hide RealFree, ValueText, Lengths, Wrapped;
      var size := |items|;
      ghost var st := Settings();
      addChildValues := true;
      lineLength := Wrapped(4 + (size - 1) * 2);
      NoLines(Settings(), []);
      var index := 0;
      while index < size
        invariant index <= size && |childValues| == index && Valid() && addChildValues
        invariant indentString == old(indentString) && indented == old(indented) && sout == old(sout)
        invariant forall i :: 0 <= i < index ==> childValues[i] == ValueText(st, items[i], [], true)
        invariant lineLength == Wrapped(4 + (size - 1) * 2 + Lengths(st, items[..index]))
      {
        ghost var before := childValues;
        WriteValue(items[index]);
        assert forall i :: 0 <= i < index ==> childValues[i] == before[i];
        OneLineStep(st, items, index);
        WrappedSum(4 + (size - 1) * 2 + Lengths(st, items[..index]), |childValues[index]|);
        lineLength := Wrapped(lineLength + |childValues[index]|);
        index := index + 1;
      }
      assert items[..size] == items;
      addChildValues := false;
    }
  }

  lemma KeptOnLines(st: Style, items: seq<Json>)
    requires st.cs == All && ItemsRealFree(items)
    ensures Multiline(st, items)
  {
  }

  lemma Grouped(s: bytes, start: bytes, open: bytes, w: bytes, end: bytes, close: bytes)
    ensures s + start + open + w + end + close == s + (start + open + w + end + close)
  {
  }

  lemma OneMore(start: bytes, front: bytes, comma: bytes, w: bytes)
    ensures start + front + comma + w == start + (front + (comma + w))
  {
  }

  /** A writer as `StreamWriterBuilder` configures it; nothing when the comment style is not known. */
  method NewStreamWriter(indentation: bytes, commentStyle: string, enableYAMLCompatibility: bool,
                         dropNullPlaceholders: bool, emitUTF8: bool)
    returns (writer: BuiltStyledStreamWriter?)
    ensures writer != null <==> commentStyle == "All" || commentStyle == "None"
    ensures writer != null ==>
              && fresh(writer) && writer.Valid()
              && writer.Settings()
                 == Style(indentation,
                          if commentStyle == "All" then All else CommentStyle.None,
                          if enableYAMLCompatibility then [0x3A, 0x20]
                          else if indentation == [] then [0x3A]
                          else [0x20, 0x3A, 0x20],
                          if dropNullPlaceholders then [] else [0x6E, 0x75, 0x6C, 0x6C], [], emitUTF8)
  {
    var cs := All;
    if commentStyle == "All" {
      cs := All;
    } else if commentStyle == "None" {
      cs := CommentStyle.None;
    } else {
      return null;
    }
    var colonSymbol: bytes := [SPACE, COLON, SPACE];
    if enableYAMLCompatibility {
      colonSymbol := [COLON, SPACE];
    } else if indentation == [] {
      colonSymbol := [COLON];
    }
    var nullSymbol := NULL_TEXT;
    if dropNullPlaceholders {
      nullSymbol := [];
    }
    writer := new BuiltStyledStreamWriter(indentation, cs, colonSymbol, nullSymbol, [], emitUTF8);
  }

  /** Without dropped nulls, every such writer has settings whose output is meant to be read back. */
  lemma BuiltToBeRead(st: Style)
    requires AllSpaces(st.indentation) && st.nullSymbol == NULL_TEXT && st.endingLineFeedSymbol == []
    requires st.colonSymbol in {[0x3A], [0x3A, 0x20], [0x20, 0x3A, 0x20]}
    ensures Readable(st)
  {
    RendersOne(COLON_SIGN);
    RendersSpaces([]);
    RendersSpaces([0x20]);
    RendersAppend([0x3A], [COLON_SIGN], [0x20], []);
    RendersSpaced([0x20], [0x3A, 0x20], [COLON_SIGN]);
    assert [0x3A] + [0x20] == [0x3A, 0x20] && [0x20] + [0x3A, 0x20] == [0x20, 0x3A, 0x20];
    assert [COLON_SIGN] + [] == [COLON_SIGN];
  }
}
