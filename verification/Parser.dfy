/** The grammar `OurReader` accepts, as functions of the input left: what value is built, what input is left,
    which error is recorded, and when an exception leaves the reader. */
module Parser {
  import opened Bytes
  import opened ReaderErrors
  import opened StringCodec
  import opened NumberCodec
  import opened JsonValue
  import opened Lexer

  datatype Exception = StackLimitExceeded | KeyTooLong | StringTooLong

  /** The outcome of reading one value: the value left in its place, the input left, the error recorded. */
  datatype Outcome =
    | Done(value: Json, rest: bytes, error: Option<ErrorKind>)
    | Thrown(exception: Exception)

  datatype Scalar = Scalar(value: Json) | Refused(error: ErrorKind) | Throws(exception: Exception)

  /** `decodeNumber`: an integer when it fits, else a double through `decodeDouble`. */
  function NumberValue(f: Features, token: bytes): Scalar {
    match IntegerOf(token)
    case IntNumber(i) => Scalar(Int(i))
    case UIntNumber(u) => Scalar(UInt(u))
    case NotInteger =>
      match f.decodeDouble(token)
      case Some(d) => Scalar(Real(d))
      case None => Refused(NotANumber)
  }

  /** `Value(String)`: the length is cut to 32 bits and must leave room for the prefix and the NUL. */
  function StringValue(s: bytes): (v: Scalar)
    ensures !v.Refused?
  {
    var length := |s| % 0x1_0000_0000;
    if length > MAX_STRING_LENGTH then Throws(StringTooLong) else Scalar(Str(s[..length]))
  }

  function StringScalar(token: bytes): Scalar
    requires |token| >= 2
  {
    match DecodedToken(token)
    case NoText(e) => Refused(e)
    case Text(s) => StringValue(s)
  }

  function FromScalar(v: Scalar, current: Json, rest: bytes): Outcome {
    match v
    case Scalar(value) => Done(value, rest, None)
    case Refused(e) => Done(current, rest, Some(e))
    case Throws(e) => Thrown(e)
  }

  // ----- member access in key order -------------------------------------------------------------------

  /** `lower_bound`: the first position whose key is not less than `key`. */
  function LowerBound(members: seq<Member>, key: bytes): (i: nat)
    ensures i <= |members|
    ensures forall j :: 0 <= j < i ==> BytesLess(members[j].key, key)
    ensures i < |members| ==> !BytesLess(members[i].key, key)
  {
    if members == [] || !BytesLess(members[0].key, key) then 0 else 1 + LowerBound(members[1..], key)
  }

  predicate IsMember(members: seq<Member>, key: bytes) {
    var i := LowerBound(members, key);
    i < |members| && members[i].key == key
  }

  /** The members after `operator[](key)`: a null is inserted when the key is new. */
  function WithMember(members: seq<Member>, key: bytes): (r: seq<Member>)
    ensures LowerBound(members, key) < |r|
  {
    var i := LowerBound(members, key);
    if IsMember(members, key) then members else members[..i] + [Member(key, Null)] + members[i..]
  }

  /** The members once the value under `key` has been overwritten. */
  function SetMember(members: seq<Member>, key: bytes, value: Json): seq<Member> {
    var i := LowerBound(members, key);
    WithMember(members, key)[i := Member(key, value)]
  }

  // ----- the mutually recursive readers -----------------------------------------------------------------

  /** A key of an object, read from its token. */
  datatype Key = Key(name: bytes) | NoKey | BadKey(error: ErrorKind)

  function NumberText(f: Features, v: Json): bytes {
    match v
    case Int(i) => FormatInt(i)
    case UInt(u) => Decimal(u)
    case Real(d) => f.doubleText(d)
    case _ => []
  }

  function KeyOf(f: Features, t: Token): Key
    requires t.Proper()
  {
    if t.kind == StringToken then
      match DecodedToken(t.Text())
      case NoText(e) => BadKey(e)
      case Text(s) => Key(s)
    else if t.kind == NumberToken && f.allowNumericKeys then
      match NumberValue(f, t.Text())
      case Scalar(v) => Key(NumberText(f, v))
      case Refused(e) => BadKey(e)
      case Throws(_) => NoKey
    else NoKey
  }

  function Failed(f: Features, value: Json, s: bytes, error: ErrorKind, skipUntil: Kind): Outcome {
    Done(value, Recover(f, s, skipUntil), Some(error))
  }

  predicate IsLiteral(k: Kind) {
    k in {TrueToken, FalseToken, NullToken, NaNToken, PosInfToken, NegInfToken}
  }

  function LiteralValue(k: Kind): Json
    requires IsLiteral(k)
  {
    match k
    case TrueToken => Bool(true)
    case FalseToken => Bool(false)
    case NullToken => Null
    case NaNToken => Real(NaN)
    case PosInfToken => Real(PosInf)
    case NegInfToken => Real(NegInf)
  }

  /** The scalar a token stands for; or an error, or a null standing for a dropped one. */
  function ReadScalar(f: Features, t: Token, current: Json): (r: Outcome)
    requires t.Proper()
    ensures r.Done? ==> |r.rest| <= |t.start|
  {
    if t.kind == NumberToken then FromScalar(NumberValue(f, t.Text()), current, t.rest)
    else if t.kind == StringToken then FromScalar(StringScalar(t.Text()), current, t.rest)
    else if IsLiteral(t.kind) then Done(LiteralValue(t.kind), t.rest, None)
    else if f.allowDroppedNullPlaceholders && (t.kind == ArraySeparator || t.kind == ObjectEnd || t.kind == ArrayEnd)
    then Done(Null, t.start, None)
    else Done(current, t.rest, Some(ValueExpected))
  }

  /** `readValue` with `depth` nodes on the stack, over the value `current` on top of it. */
  function ReadValue(f: Features, s: bytes, depth: nat, current: Json): (r: Outcome)
    ensures r.Done? ==> |r.rest| <= |s|
    decreases |s|, 0
  {
    if depth > f.stackLimit then Thrown(StackLimitExceeded)
    else
      var t := FirstToken(f, s);
      match t.kind
      case ObjectBegin => ReadMembers(f, t.rest, depth, [], [])
      case ArrayBegin => ReadItems(f, t.rest, depth, [])
      case _ => ReadScalar(f, t, current)
  }

  /** `readObject`, from where a member name is expected; `name` is the previous one. */
  function ReadMembers(f: Features, s: bytes, depth: nat, members: seq<Member>, name: bytes): (r: Outcome)
    ensures r.Done? ==> |r.rest| <= |s|
    decreases |s|, 1
  {
    var t := SkipComments(f, s);
    if t.kind == ObjectEnd && (name == [] || f.allowTrailingCommas) then Done(Obj(members), t.rest, None)
    else
      match KeyOf(f, t)
      case NoKey => Failed(f, Obj(members), t.rest, MissingNameOrBrace, ObjectEnd)
      case BadKey(e) => Failed(f, Obj(members), t.rest, e, ObjectEnd)
      case Key(key) => AfterName(f, t.rest, depth, members, key)
  }

  /** What follows a member's name: a colon, unless the name is refused. */
  function AfterName(f: Features, s: bytes, depth: nat, members: seq<Member>, key: bytes): (r: Outcome)
    ensures r.Done? ==> |r.rest| <= |s|
    decreases |s|, 2
  {
    if |key| >= MAX_KEY_LENGTH then Thrown(KeyTooLong)
    else if f.rejectDupKeys && IsMember(members, key) then Failed(f, Obj(members), s, DuplicateKey, ObjectEnd)
    else
      var colon := ReadToken(f, s);
      if colon.kind != MemberSeparator then Failed(f, Obj(members), colon.rest, MissingColon, ObjectEnd)
      else ReadMemberValue(f, colon.rest, depth, members, key)
  }

  /** From after the colon: the value under `key` is read in place. */
  function ReadMemberValue(f: Features, s: bytes, depth: nat, members: seq<Member>, key: bytes): (r: Outcome)
    ensures r.Done? ==> |r.rest| <= |s|
    decreases |s|, 1
  {
    var child := ReadValue(f, s, depth + 1, WithMember(members, key)[LowerBound(members, key)].value);
    if child.Thrown? then child
    else
      var members' := SetMember(members, key, child.value);
      if child.error.Some? then Failed(f, Obj(members'), child.rest, child.error.value, ObjectEnd)
      else AfterMember(f, child.rest, depth, members', key)
  }

  /** What follows a member: a comma or the end, or a comment and then anything at all. */
  function AfterMember(f: Features, s: bytes, depth: nat, members: seq<Member>, name: bytes): (r: Outcome)
    ensures r.Done? ==> |r.rest| <= |s|
    decreases |s|, 0
  {
    var comma := ReadToken(f, s);
    if comma.kind != ObjectEnd && comma.kind != ArraySeparator && comma.kind != CommentToken then
      Failed(f, Obj(members), comma.rest, MissingCommaOrBrace, ObjectEnd)
    else
      var last := if comma.kind == CommentToken then SkipComments(f, comma.rest) else comma;
      if last.kind == ObjectEnd then Done(Obj(members), last.rest, None)
      else ReadMembers(f, last.rest, depth, members, name)
  }

  /** `readArray`, from where an element is expected. */
  function ReadItems(f: Features, s: bytes, depth: nat, items: seq<Json>): (r: Outcome)
    ensures r.Done? ==> |r.rest| <= |s|
    decreases |s|, 1
  {
    var t := SkipSpaces(s);
    if t != [] && t[0] == RBRACKET
       && (items == [] || (f.allowTrailingCommas && !f.allowDroppedNullPlaceholders)) then
      Done(Arr(items), t[1..], None)
    else
      var child := ReadValue(f, t, depth + 1, Null);
      if child.Thrown? then child
      else
        var items' := items + [child.value];
        if child.error.Some? then Failed(f, Arr(items'), child.rest, child.error.value, ArrayEnd)
        else AfterItem(f, child.rest, depth, items')
  }

  function AfterItem(f: Features, s: bytes, depth: nat, items: seq<Json>): (r: Outcome)
    ensures r.Done? ==> |r.rest| <= |s|
    decreases |s|, 0
  {
    var t := SkipComments(f, s);
    if t.kind == ArrayEnd then Done(Arr(items), t.rest, None)
    else if t.kind == ArraySeparator then ReadItems(f, t.rest, depth, items)
    else Failed(f, Arr(items), t.rest, MissingCommaOrBracket, ArrayEnd)
  }

  // ----- parse --------------------------------------------------------------------------------------------

  const BOM: bytes := [0xEF, 0xBB, 0xBF]

  function AfterBom(f: Features, doc: bytes): bytes {
    if f.skipBom && BOM <= doc then doc[3..] else doc
  }

  /** What `parse` answers, with the errors it leaves behind. */
  datatype Parsed = Parsed(ok: bool, root: Json, errors: seq<ErrorKind>) | Escaped(exception: Exception)

  function Errors(e: Option<ErrorKind>): seq<ErrorKind> {
    if e.Some? then [e.value] else []
  }

  function Parse(f: Features, doc: bytes, root: Json): Parsed {
    match ReadValue(f, AfterBom(f, doc), 1, root)
    case Thrown(e) => Escaped(e)
    case Done(value, rest, error) => Finish(f, value, rest, error)
  }

  /** The checks `parse` makes after the value. */
  function Finish(f: Features, value: Json, rest: bytes, error: Option<ErrorKind>): Parsed {
    if f.failIfExtra && FirstToken(f, rest).kind != EndOfStream then
      Parsed(false, value, Errors(error) + [ExtraAfterValue])
    else if f.strictRoot && !value.Arr? && !value.Obj? then
      Parsed(false, value, Errors(error) + [RootNotContainer])
    else Parsed(error.None?, value, Errors(error))
  }

  /** `parse` succeeds exactly when it has recorded no error. */
  lemma SuccessMeansNoErrors(f: Features, doc: bytes, root: Json)
    requires Parse(f, doc, root).Parsed?
    ensures Parse(f, doc, root).ok <==> Parse(f, doc, root).errors == []
  {
  }
}
