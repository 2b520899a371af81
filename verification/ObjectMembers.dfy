/** What an object holds once its members have been read: its keys ascend, they are the names that were written, and
    each has the value that was last written under it. */
module ObjectMembers {
  import opened Bytes
  import opened JsonValue
  import opened Lexer
  import opened Parser
  import StringCodec
  import NumberCodec
  import opened Tokens
  import opened Grammar

  predicate KeysAscend(members: seq<Member>) {
    forall i, j :: 0 <= i < j < |members| ==> BytesLess(members[i].key, members[j].key)
  }

  /** The value under a key, found by comparing keys for equality. */
  function Lookup(members: seq<Member>, key: bytes): Option<Json> {
    if members == [] then None
    else if members[0].key == key then Some(members[0].value)
    else Lookup(members[1..], key)
  }

  // ----- one key ----------------------------------------------------------------------------------------

  lemma {:induction false} LookupAt(members: seq<Member>, i: nat)
    requires KeysAscend(members) && i < |members|
    ensures Lookup(members, members[i].key) == Some(members[i].value)
  {
    if i > 0 {
      BytesTrichotomy(members[0].key, members[i].key);
      LookupAt(members[1..], i - 1);
    }
  }

  lemma {:induction false} LookupFinds(members: seq<Member>, key: bytes) returns (i: nat)
    ensures Lookup(members, key).None? ==> forall j :: 0 <= j < |members| ==> members[j].key != key
    ensures Lookup(members, key).Some? ==> i < |members| && members[i] == Member(key, Lookup(members, key).value)
  {
    i := 0;
    if members != [] && members[0].key != key {
      var j := LookupFinds(members[1..], key);
      i := j + 1;
    }
  }

  lemma LookupIs(members: seq<Member>, key: bytes, value: Json)
    requires KeysAscend(members)
    ensures Lookup(members, key) == Some(value) <==> Member(key, value) in members
  {
    hide BytesLess, Lookup;
    var i := LookupFinds(members, key);
    if Member(key, value) in members {
      var j :| 0 <= j < |members| && members[j] == Member(key, value);
      LookupAt(members, j);
    }
  }

  /** Two maps with the same members of a key hold the same value under it. */
  lemma SameLookup(a: seq<Member>, b: seq<Member>, key: bytes)
    requires KeysAscend(a) && KeysAscend(b)
    requires forall v :: Member(key, v) in a <==> Member(key, v) in b
    ensures Lookup(a, key) == Lookup(b, key)
  {
    hide BytesLess, Lookup, KeysAscend;
    forall v ensures Lookup(a, key) == Some(v) <==> Lookup(b, key) == Some(v) {
      LookupIs(a, key, v);
      LookupIs(b, key, v);
    }
  }

  /** In a map, the lower bound of a key is where it is or where it belongs. */
  lemma Bounds(members: seq<Member>, key: bytes)
    requires KeysAscend(members)
    ensures var i := LowerBound(members, key);
            && (forall j :: 0 <= j < i ==> BytesLess(members[j].key, key))
            && (forall j :: i < j < |members| ==> BytesLess(key, members[j].key))
            && (i < |members| ==> members[i].key == key || BytesLess(key, members[i].key))
  {
    var i := LowerBound(members, key);
    if i < |members| {
      BytesTrichotomy(members[i].key, key);
      forall j | i < j < |members| ensures BytesLess(key, members[j].key) {
        if members[i].key != key {
          BytesTransitive(key, members[i].key, members[j].key);
        }
      }
    }
  }

  lemma SetKeepsOrder(members: seq<Member>, key: bytes, value: Json)
    requires KeysAscend(members)
    ensures KeysAscend(SetMember(members, key, value))
    ensures KeysAscend(WithMember(members, key))
  {
    hide BytesLess, LowerBound;
    Bounds(members, key);
  }

  lemma MembersAfterSet(members: seq<Member>, key: bytes, value: Json, m: Member)
    requires KeysAscend(members) && m.key != key
    ensures m in SetMember(members, key, value) <==> m in members
    ensures m in WithMember(members, key) <==> m in members
  {
    hide BytesLess, LowerBound;
    var i := LowerBound(members, key);
    var w := WithMember(members, key);
    var s := SetMember(members, key, value);
    assert s == w[..i] + [Member(key, value)] + w[i + 1..];
    assert w == w[..i] + [w[i]] + w[i + 1..] && w[..i] == members[..i];
    if IsMember(members, key) {
      assert members == members[..i] + [members[i]] + members[i + 1..];
    } else {
      assert members == members[..i] + members[i..] && w[i + 1..] == members[i..];
    }
  }

  /** `isMember` and the look-up behind `operator[]` find the key wherever it is. */
  lemma IsMemberIs(members: seq<Member>, key: bytes)
    requires KeysAscend(members)
    ensures IsMember(members, key) <==> Lookup(members, key).Some?
    ensures IsMember(members, key) ==> Lookup(members, key) == Some(members[LowerBound(members, key)].value)
  {
    hide LowerBound;
    Bounds(members, key);
    BytesTrichotomy(key, key);
    var k := LookupFinds(members, key);
    if IsMember(members, key) {
      LookupAt(members, LowerBound(members, key));
    }
  }

  /** `operator[]` on a map: the key is there afterwards, with its old value or a null, every other key is as it was,
      and the keys still ascend. */
  lemma AccessIs(members: seq<Member>, key: bytes)
    requires KeysAscend(members)
    ensures KeysAscend(WithMember(members, key))
    ensures Lookup(WithMember(members, key), key)
            == if Lookup(members, key).Some? then Lookup(members, key) else Some(Null)
    ensures WithMember(members, key)[LowerBound(members, key)]
            == Member(key, Lookup(WithMember(members, key), key).value)
    ensures forall other :: other != key ==> Lookup(WithMember(members, key), other) == Lookup(members, other)
  {
    hide BytesLess, LowerBound, Lookup;
    SetKeepsOrder(members, key, Null);
    IsMemberIs(members, key);
    LookupAt(WithMember(members, key), LowerBound(members, key));
    forall other | other != key ensures Lookup(WithMember(members, key), other) == Lookup(members, other) {
      forall v ensures Member(other, v) in WithMember(members, key) <==> Member(other, v) in members {
        MembersAfterSet(members, key, Null, Member(other, v));
      }
      SameLookup(WithMember(members, key), members, other);
    }
  }

  /** Writing through `operator[]`: the key holds the new value, every other key is as it was, the keys still ascend. */
  lemma SetIs(members: seq<Member>, key: bytes, value: Json)
    requires KeysAscend(members)
    ensures KeysAscend(SetMember(members, key, value))
    ensures Lookup(SetMember(members, key, value), key) == Some(value)
    ensures forall other :: other != key ==> Lookup(SetMember(members, key, value), other) == Lookup(members, other)
  {
    hide BytesLess, LowerBound, Lookup;
    SetKeepsOrder(members, key, value);
    LookupAt(SetMember(members, key, value), LowerBound(members, key));
    forall other | other != key ensures Lookup(SetMember(members, key, value), other) == Lookup(members, other) {
      forall v ensures Member(other, v) in SetMember(members, key, value) <==> Member(other, v) in members {
        MembersAfterSet(members, key, value, Member(other, v));
      }
      SameLookup(SetMember(members, key, value), members, other);
    }
  }

  // ----- every object that is read -----------------------------------------------------------------------

  /** The keys of every object inside ascend. */
  predicate Sorted(v: Json)
    decreases v
  {
    match v
    case Arr(items) => forall i :: 0 <= i < |items| ==> Sorted(items[i])
    case Obj(members) => KeysAscend(members) && forall i :: 0 <= i < |members| ==> Sorted(members[i].value)
    case _ => true
  }

  predicate SortedMembers(members: seq<Member>) {
    KeysAscend(members) && forall i :: 0 <= i < |members| ==> Sorted(members[i].value)
  }

  predicate SortedItems(items: seq<Json>) {
    forall i :: 0 <= i < |items| ==> Sorted(items[i])
  }

  predicate SortedOutcome(r: Outcome) {
    r.Done? ==> Sorted(r.value)
  }

  lemma SetKeepsSorted(members: seq<Member>, key: bytes, value: Json)
    requires SortedMembers(members)
    ensures Sorted(WithMember(members, key)[LowerBound(members, key)].value)
    ensures Sorted(value) ==> SortedMembers(SetMember(members, key, value))
  {
    hide BytesLess, LowerBound;
    SetKeepsOrder(members, key, value);
  }

  lemma ScalarReadSorted(f: Features, t: Token, current: Json)
    requires t.Proper()
    ensures var r := ReadScalar(f, t, current);
            r.Done? && (Sorted(current) || r.error.None?) ==> Sorted(r.value)
  {
    hide StringCodec.DecodedToken, NumberCodec.IntegerOf;
  }

  lemma {:induction false} ValueReadSorted(f: Features, s: bytes, depth: nat, current: Json)
    ensures var r := ReadValue(f, s, depth, current);
            r.Done? && (Sorted(current) || r.error.None?) ==> Sorted(r.value)
    decreases |s|, 0
  {
    hide Parser.ReadMembers, Parser.ReadItems, Parser.ReadScalar, Lexer.FirstToken, KeysAscend;
    var t := FirstToken(f, s);
    if depth <= f.stackLimit {
      if t.kind == ObjectBegin {
        NoKeys();
        MembersReadSorted(f, t.rest, depth, [], []);
      } else if t.kind == ArrayBegin {
        ItemsReadSorted(f, t.rest, depth, []);
      } else {
        ScalarReadSorted(f, t, current);
      }
    }
  }

  lemma {:induction false} MembersReadSorted(f: Features, s: bytes, depth: nat, members: seq<Member>, name: bytes)
    requires SortedMembers(members)
    ensures SortedOutcome(ReadMembers(f, s, depth, members, name))
    decreases |s|, 1
  {
    hide Parser.AfterName;
    var t := SkipComments(f, s);
    if KeyOf(f, t).Key? && !(t.kind == ObjectEnd && (name == [] || f.allowTrailingCommas)) {
      NameReadSorted(f, t.rest, depth, members, KeyOf(f, t).name);
    }
  }

  lemma {:induction false} NameReadSorted(f: Features, s: bytes, depth: nat, members: seq<Member>, key: bytes)
    requires SortedMembers(members)
    ensures SortedOutcome(AfterName(f, s, depth, members, key))
    decreases |s|, 2
  {
    hide Parser.ReadMemberValue, Parser.IsMember;
    MemberReadSorted(f, ReadToken(f, s).rest, depth, members, key);
  }

  lemma {:induction false} MemberReadSorted(f: Features, s: bytes, depth: nat, members: seq<Member>, key: bytes)
    requires SortedMembers(members)
    ensures SortedOutcome(ReadMemberValue(f, s, depth, members, key))
    decreases |s|, 1
  {
    hide Parser.ReadValue, Parser.AfterMember, Parser.SetMember, Parser.WithMember, KeysAscend;
    var current := WithMember(members, key)[LowerBound(members, key)].value;
    var child := ReadValue(f, s, depth + 1, current);
    if child.Done? {
      SetKeepsSorted(members, key, child.value);
      ValueReadSorted(f, s, depth + 1, current);
      OthersReadSorted(f, child.rest, depth, SetMember(members, key, child.value), key);
    }
  }

  lemma {:induction false} OthersReadSorted(f: Features, s: bytes, depth: nat, members: seq<Member>, name: bytes)
    requires SortedMembers(members)
    ensures SortedOutcome(AfterMember(f, s, depth, members, name))
    decreases |s|, 0
  {
    hide Parser.ReadMembers;
    var comma := ReadToken(f, s);
    if comma.kind == CommentToken || comma.kind == ArraySeparator {
      var last := if comma.kind == CommentToken then SkipComments(f, comma.rest) else comma;
      MembersReadSorted(f, last.rest, depth, members, name);
    }
  }

  lemma {:induction false} ItemsReadSorted(f: Features, s: bytes, depth: nat, items: seq<Json>)
    requires SortedItems(items)
    ensures SortedOutcome(ReadItems(f, s, depth, items))
    decreases |s|, 1
  {
    hide Parser.ReadValue, Parser.AfterItem;
    var t := SkipSpaces(s);
    var child := ReadValue(f, t, depth + 1, Null);
    ValueReadSorted(f, t, depth + 1, Null);
    if child.Done? {
      OtherItemsReadSorted(f, child.rest, depth, items + [child.value]);
    }
  }

  lemma {:induction false} OtherItemsReadSorted(f: Features, s: bytes, depth: nat, items: seq<Json>)
    requires SortedItems(items)
    ensures SortedOutcome(AfterItem(f, s, depth, items))
    decreases |s|, 0
  {
    hide Parser.ReadItems;
    var t := SkipComments(f, s);
    if t.kind == ArraySeparator {
      ItemsReadSorted(f, t.rest, depth, items);
    }
  }

  /** Whatever the document and the settings: every object in the value `parse` leaves has ascending keys, when it
      answers true or was given such a value to overwrite. */
  lemma ParseKeepsOrder(f: Features, doc: bytes, root0: Json)
    requires Parse(f, doc, root0).Parsed? && (Parse(f, doc, root0).ok || Sorted(root0))
    ensures Sorted(Parse(f, doc, root0).root)
  {
    hide Parser.ReadValue;
    ValueReadSorted(f, AfterBom(f, doc), 1, root0);
  }

  // ----- an object and the fields it was read from ----------------------------------------------------------

  /** Does a field give its member this name? */
  predicate Names(f: Features, x: Field, key: bytes) {
    KeyName(f, x.name) == Some(key)
  }

  /** What the members read from some fields on top of others are: under the name of a field, the value of the last
      field of that name; under any other key, what was there before. */
  ghost predicate HoldsFields(f: Features, fields: seq<Field>, before: seq<Member>, after: seq<Member>) {
    && (forall i :: 0 <= i < |fields| ==> KeyName(f, fields[i].name).Some? && Value(f, fields[i].value).Some?)
    && (forall i, key :: 0 <= i < |fields| && Names(f, fields[i], key)
                         && (forall j :: i < j < |fields| ==> !Names(f, fields[j], key))
                         ==> Lookup(after, key) == Value(f, fields[i].value))
    && (forall key :: (forall i :: 0 <= i < |fields| ==> !Names(f, fields[i], key))
                      ==> Lookup(after, key) == Lookup(before, key))
  }

  /** Are the names of the fields different from each other and from the keys already there? */
  ghost predicate NewNames(f: Features, fields: seq<Field>, before: seq<Member>) {
    && (forall i, j, key :: 0 <= i < j < |fields| && Names(f, fields[i], key) ==> !Names(f, fields[j], key))
    && (forall i, key :: 0 <= i < |fields| && Names(f, fields[i], key) ==> Lookup(before, key).None?)
  }

  lemma {:induction false} MembersHoldFields(f: Features, before: seq<Member>, fields: seq<Field>, notes: seq<Lexeme>)
    requires KeysAscend(before) && Members(f, before, fields, notes).Some?
    ensures KeysAscend(Members(f, before, fields, notes).value)
    ensures HoldsFields(f, fields, before, Members(f, before, fields, notes).value)
    ensures f.rejectDupKeys ==> NewNames(f, fields, before)
    decreases |fields|
  {
    hide KeysAscend, Lookup, Value, KeyName, Parser.IsMember, Parser.SetMember, FieldEnds, Fits, AllComments;
    if fields != [] {
      var key, v := KeyName(f, fields[0].name).value, FieldValue(f, fields[0], notes).value;
      var after := SetMember(before, key, v);
      SetIs(before, key, v);
      IsMemberIs(before, key);
      MembersHoldFields(f, after, fields[1..], notes);
      FieldsShift(f, fields, before, after, Members(f, before, fields, notes).value, key, v);
      if f.rejectDupKeys {
        NamesShift(f, fields, before, after, key);
      }
    }
  }

  lemma FieldsShift(f: Features, fields: seq<Field>, before: seq<Member>, first: seq<Member>, after: seq<Member>,
                    key: bytes, v: Json)
    requires fields != [] && Names(f, fields[0], key) && Value(f, fields[0].value) == Some(v)
    requires Lookup(first, key) == Some(v) && forall k :: k != key ==> Lookup(first, k) == Lookup(before, k)
    requires HoldsFields(f, fields[1..], first, after)
    ensures HoldsFields(f, fields, before, after)
  {
    hide Lookup, Value, KeyName;
    assert forall i :: 1 <= i < |fields| ==> fields[i] == fields[1..][i - 1];
  }

  lemma NamesShift(f: Features, fields: seq<Field>, before: seq<Member>, first: seq<Member>, key: bytes)
    requires fields != [] && Names(f, fields[0], key)
    requires Lookup(first, key).Some? && forall k :: k != key ==> Lookup(first, k) == Lookup(before, k)
    requires Lookup(before, key).None? && NewNames(f, fields[1..], first)
    ensures NewNames(f, fields, before)
  {
    hide Lookup, Value, KeyName;
    assert forall i :: 1 <= i < |fields| ==> fields[i] == fields[1..][i - 1];
  }

  /** An object that is read has ascending keys, exactly the names of its fields, each with the value of the last field
      of that name; where duplicates are rejected, no name comes twice. */
  lemma ObjectHoldsItsFields(f: Features, fields: seq<Field>, notes: seq<Lexeme>)
    requires Value(f, Record(fields, notes)).Some?
    ensures var v := Value(f, Record(fields, notes)).value;
            && v.Obj? && KeysAscend(v.members)
            && (forall key :: Lookup(v.members, key).Some? <==>
                              exists i :: 0 <= i < |fields| && Names(f, fields[i], key))
            && (forall i, key :: 0 <= i < |fields| && Names(f, fields[i], key)
                                 && (forall j :: i < j < |fields| ==> !Names(f, fields[j], key))
                                 ==> Lookup(v.members, key) == Value(f, fields[i].value))
    ensures f.rejectDupKeys ==>
              forall i, j, key :: 0 <= i < j < |fields| && Names(f, fields[i], key) ==> !Names(f, fields[j], key)
  {
    hide KeysAscend, KeyName, Members;
    var members := Value(f, Record(fields, notes)).value.members;
    assert KeysAscend([]) by {
      NoKeys();
    }
    MembersHoldFields(f, [], fields, notes);
    forall key ensures Lookup(members, key).Some? <==> exists i :: 0 <= i < |fields| && Names(f, fields[i], key) {
      if i :| 0 <= i < |fields| && Names(f, fields[i], key) {
        var last := LastNamed(f, fields, key);
      }
    }
  }

  lemma NoKeys()
    ensures KeysAscend([])
  {
  }

  lemma {:induction false} LastNamed(f: Features, fields: seq<Field>, key: bytes) returns (i: nat)
    requires exists j :: 0 <= j < |fields| && Names(f, fields[j], key)
    ensures i < |fields| && Names(f, fields[i], key) && forall j :: i < j < |fields| ==> !Names(f, fields[j], key)
    decreases |fields|
  {
    hide Names;
    i := |fields| - 1;
    if !Names(f, fields[i], key) {
      i := LastNamed(f, fields[..i], key);
    }
  }

  /** An array that is read holds the values of its elements in their order. */
  lemma {:induction false} ArrayHoldsItsItems(f: Features, items: seq<Item>)
    requires Values(f, items).Some?
    ensures var vs := Values(f, items).value;
            |vs| == |items| && forall i :: 0 <= i < |items| ==> Value(f, items[i].value) == Some(vs[i])
    decreases |items|
  {
    hide Value, Fits, ItemEnds;
    if items != [] {
      ArrayHoldsItsItems(f, items[1..]);
      assert forall i :: 1 <= i < |items| ==> items[i] == items[1..][i - 1];
    }
  }
}
