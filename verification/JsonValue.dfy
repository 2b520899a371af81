/** The `Value` tree of json_value.cpp, its comparison operators, and the objects' sorted maps. */
module JsonValue {
  import opened Bytes
  import opened NumberCodec

  /** A `double`, up to rounding. */
  datatype Double = Finite(x: real) | PosInf | NegInf | NaN

  /** A value without comments and offsets. An array holds the elements 0, 1, ... in order; an object
      holds the entries of its map in key order. */
  datatype Json =
    | Null
    | Int(i: int)
    | UInt(u: nat)
    | Real(d: Double)
    | Str(s: bytes)
    | Bool(b: bool)
    | Arr(items: seq<Json>)
    | Obj(members: seq<Member>)

  datatype Member = Member(key: bytes, value: Json)

  const MAX_KEY_LENGTH: nat := 0x4000_0000
  const MAX_STRING_LENGTH: nat := 0x7FFF_FFFF - 4 - 1

  const TWO_32: nat := 0x1_0000_0000

  /** What the machine types hold: 64-bit numbers, and arrays counted by a 32-bit `ArrayIndex`. */
  predicate InRange(v: Json)
    decreases v
  {
    match v
    case Int(i) => -TWO_63 <= i < TWO_63
    case UInt(u) => u < TWO_64
    case Arr(items) => |items| < TWO_32 && forall i :: 0 <= i < |items| ==> InRange(items[i])
    case Obj(members) => forall i :: 0 <= i < |members| ==> InRange(members[i].value)
    case _ => true
  }

  function TypeTag(v: Json): nat {
    match v
    case Null => 0
    case Int(_) => 1
    case UInt(_) => 2
    case Real(_) => 3
    case Str(_) => 4
    case Bool(_) => 5
    case Arr(_) => 6
    case Obj(_) => 7
  }

  // ----- comparing byte strings ----------------------------------------------------------------------

  /** `memcmp`: the sign of the first difference. */
  function MemCmp(a: bytes, b: bytes, n: nat): (c: int)
    requires n <= |a| && n <= |b|
    ensures -1 <= c <= 1
    decreases n
  {
    if n == 0 then 0
    else if a[0] < b[0] then -1
    else if a[0] > b[0] then 1
    else MemCmp(a[1..], b[1..], n - 1)
  }

  /** The order of `CZString` and of string values: `memcmp` on the common length, then the lengths. */
  predicate BytesLess(a: bytes, b: bytes) {
    var minLength := if |a| < |b| then |a| else |b|;
    var comp := MemCmp(a, b, minLength);
    if comp < 0 then true else if comp > 0 then false else |a| < |b|
  }

  predicate BytesEqual(a: bytes, b: bytes) {
    |a| == |b| && MemCmp(a, b, |a|) == 0
  }

  lemma {:induction false} BytesEqualIsEquality(a: bytes, b: bytes)
    ensures BytesEqual(a, b) <==> a == b
  {
    if |a| == |b| && a != [] {
      BytesEqualIsEquality(a[1..], b[1..]);
      assert a == [a[0]] + a[1..] && b == [b[0]] + b[1..];
    }
  }

  lemma {:induction false} BytesTrichotomy(a: bytes, b: bytes)
    ensures a == b ==> !BytesLess(a, b)
    ensures a != b ==> (BytesLess(a, b) <==> !BytesLess(b, a))
  {
    if a != [] && b != [] && a[0] == b[0] {
      BytesTrichotomy(a[1..], b[1..]);
      assert a == [a[0]] + a[1..] && b == [b[0]] + b[1..];
    }
  }

  lemma {:induction false} BytesTransitive(a: bytes, b: bytes, c: bytes)
    requires BytesLess(a, b) && BytesLess(b, c)
    ensures BytesLess(a, c)
  {
    if a != [] && b != [] && c != [] && a[0] == b[0] == c[0] {
      BytesTransitive(a[1..], b[1..], c[1..]);
    }
  }

  // ----- operator< and operator== -----------------------------------------------------------------------

  predicate DoubleLess(a: Double, b: Double) {
    a != NaN && b != NaN && a != b
    && (a == NegInf || b == PosInf || (a.Finite? && b.Finite? && a.x < b.x))
  }

  predicate DoubleEqual(a: Double, b: Double) {
    a != NaN && a == b
  }

  function Size(v: Json): (n: nat)
    decreases v
  {
    match v
    case Arr(items) => 1 + ItemsSize(items)
    case Obj(members) => 1 + MembersSize(members)
    case _ => 0
  }

  function ItemsSize(items: seq<Json>): (n: nat) {
    if items == [] then 0 else 1 + Size(items[0]) + ItemsSize(items[1..])
  }

  function MembersSize(members: seq<Member>): (n: nat) {
    if members == [] then 0 else 1 + Size(members[0].value) + MembersSize(members[1..])
  }

  /** `operator<`: by type tag, then by content; containers by size first, then as ordered maps. */
  predicate Less(v: Json, w: Json)
    decreases Size(v) + Size(w)
  {
    if TypeTag(v) != TypeTag(w) then TypeTag(v) < TypeTag(w)
    else
      match v
      case Null => false
      case Int(i) => i < w.i
      case UInt(u) => u < w.u
      case Real(d) => DoubleLess(d, w.d)
      case Bool(b) => !b && w.b
      case Str(s) => BytesLess(s, w.s)
      case Arr(items) =>
        if |items| != |w.items| then |items| < |w.items| else ItemsLess(items, w.items)
      case Obj(members) =>
        if |members| != |w.members| then |members| < |w.members| else MembersLess(members, w.members)
  }

  /** The maps of two arrays of one size hold the same indices, so the elements decide. */
  predicate ItemsLess(a: seq<Json>, b: seq<Json>)
    requires |a| == |b|
    decreases ItemsSize(a) + ItemsSize(b)
  {
    a != [] && (Less(a[0], b[0]) || (!Less(b[0], a[0]) && ItemsLess(a[1..], b[1..])))
  }

  /** `std::lexicographical_compare` over key-value pairs. */
  predicate MembersLess(a: seq<Member>, b: seq<Member>)
    requires |a| == |b|
    decreases MembersSize(a) + MembersSize(b), 1
  {
    a != [] && (PairLess(a, b) || (!PairLess(b, a) && MembersLess(a[1..], b[1..])))
  }

  /** `operator<` of the first pairs. */
  predicate PairLess(a: seq<Member>, b: seq<Member>)
    requires a != [] && b != []
    decreases MembersSize(a) + MembersSize(b), 0
  {
    BytesLess(a[0].key, b[0].key)
    || (!BytesLess(b[0].key, a[0].key) && Less(a[0].value, b[0].value))
  }

  function Compare(v: Json, w: Json): int {
    if Less(v, w) then -1 else if Less(w, v) then 1 else 0
  }

  /** `operator==`. */
  predicate Equal(v: Json, w: Json)
    decreases v, 0
  {
    TypeTag(v) == TypeTag(w) &&
    match v
    case Null => true
    case Int(i) => i == w.i
    case UInt(u) => u == w.u
    case Real(d) => DoubleEqual(d, w.d)
    case Bool(b) => b == w.b
    case Str(s) => BytesEqual(s, w.s)
    case Arr(items) =>
      |items| == |w.items| && forall i :: 0 <= i < |items| ==> Equal(items[i], w.items[i])
    case Obj(members) =>
      |members| == |w.members|
      && forall i :: 0 <= i < |members| ==>
           BytesEqual(members[i].key, w.members[i].key) && Equal(members[i].value, w.members[i].value)
  }

  /** No NaN anywhere inside. */
  predicate NaNFree(v: Json)
    decreases v
  {
    match v
    case Real(d) => d != NaN
    case Arr(items) => forall i :: 0 <= i < |items| ==> NaNFree(items[i])
    case Obj(members) => forall i :: 0 <= i < |members| ==> NaNFree(members[i].value)
    case _ => true
  }

  // ----- a strict total order that agrees with operator== -------------------------------------------------

  /** For NaN-free values `operator==` is equality of trees. */
  lemma {:induction false} EqualIsEquality(v: Json, w: Json)
    requires NaNFree(v)
    ensures Equal(v, w) <==> v == w
    decreases v
  {
    match v
    case Str(s) =>
      if w.Str? {
        BytesEqualIsEquality(s, w.s);
      }
    case Arr(items) =>
      if w.Arr? && |items| == |w.items| {
        forall i | 0 <= i < |items| ensures Equal(items[i], w.items[i]) <==> items[i] == w.items[i] {
          EqualIsEquality(items[i], w.items[i]);
        }
      }
    case Obj(members) =>
      if w.Obj? && |members| == |w.members| {
        forall i | 0 <= i < |members|
          ensures BytesEqual(members[i].key, w.members[i].key) && Equal(members[i].value, w.members[i].value)
                  <==> members[i] == w.members[i]
        {
          BytesEqualIsEquality(members[i].key, w.members[i].key);
          EqualIsEquality(members[i].value, w.members[i].value);
        }
      }
    case _ =>
  }

  /** Of two NaN-free values exactly one holds: the first is less, the second is less, they are equal. */
  lemma {:induction false} Trichotomy(v: Json, w: Json)
    requires NaNFree(v) && NaNFree(w)
    ensures v == w ==> !Less(v, w)
    ensures v != w ==> (Less(v, w) <==> !Less(w, v))
    decreases Size(v) + Size(w)
  {
    if TypeTag(v) == TypeTag(w) {
      match v
      case Str(s) => BytesTrichotomy(s, w.s);
      case Arr(items) =>
        if |items| == |w.items| {
          ItemsTrichotomy(items, w.items);
        }
      case Obj(members) =>
        if |members| == |w.members| {
          MembersTrichotomy(members, w.members);
        }
      case _ =>
    }
  }

  predicate ItemsNaNFree(items: seq<Json>) {
    forall i :: 0 <= i < |items| ==> NaNFree(items[i])
  }

  predicate MembersNaNFree(members: seq<Member>) {
    forall i :: 0 <= i < |members| ==> NaNFree(members[i].value)
  }

  lemma {:induction false} ItemsTrichotomy(a: seq<Json>, b: seq<Json>)
    requires |a| == |b| && ItemsNaNFree(a) && ItemsNaNFree(b)
    ensures a == b ==> !ItemsLess(a, b)
    ensures a != b ==> (ItemsLess(a, b) <==> !ItemsLess(b, a))
    decreases ItemsSize(a) + ItemsSize(b)
  {
    if a != [] {
      Trichotomy(a[0], b[0]);
      ItemsTrichotomy(a[1..], b[1..]);
      assert a == [a[0]] + a[1..] && b == [b[0]] + b[1..];
    }
  }

  lemma {:induction false} MembersTrichotomy(a: seq<Member>, b: seq<Member>)
    requires |a| == |b| && MembersNaNFree(a) && MembersNaNFree(b)
    ensures a == b ==> !MembersLess(a, b)
    ensures a != b ==> (MembersLess(a, b) <==> !MembersLess(b, a))
    decreases MembersSize(a) + MembersSize(b)
  {
    if a != [] {
      PairTrichotomy(a, b);
      MembersTrichotomy(a[1..], b[1..]);
      assert a == [a[0]] + a[1..] && b == [b[0]] + b[1..];
    }
  }

  lemma {:induction false} PairTrichotomy(a: seq<Member>, b: seq<Member>)
    requires a != [] && b != [] && MembersNaNFree(a) && MembersNaNFree(b)
    ensures a[0] == b[0] ==> !PairLess(a, b)
    ensures a[0] != b[0] ==> (PairLess(a, b) <==> !PairLess(b, a))
    decreases MembersSize(a) + MembersSize(b), 0
  {
    BytesTrichotomy(a[0].key, b[0].key);
    Trichotomy(a[0].value, b[0].value);
  }

  lemma {:induction false} Transitivity(u: Json, v: Json, w: Json)
    requires NaNFree(u) && NaNFree(v) && NaNFree(w)
    requires Less(u, v) && Less(v, w)
    ensures Less(u, w)
    decreases Size(u) + Size(v) + Size(w)
  {
    if TypeTag(u) == TypeTag(v) == TypeTag(w) {
      match u
      case Str(s) => BytesTransitive(s, v.s, w.s);
      case Arr(items) =>
        if |items| == |v.items| == |w.items| {
          ItemsTransitive(items, v.items, w.items);
        }
      case Obj(members) =>
        if |members| == |v.members| == |w.members| {
          MembersTransitive(members, v.members, w.members);
        }
      case _ =>
    }
  }

  lemma {:induction false} ItemsTransitive(a: seq<Json>, b: seq<Json>, c: seq<Json>)
    requires |a| == |b| == |c| && ItemsNaNFree(a) && ItemsNaNFree(b) && ItemsNaNFree(c)
    requires ItemsLess(a, b) && ItemsLess(b, c)
    ensures ItemsLess(a, c)
    decreases ItemsSize(a) + ItemsSize(b) + ItemsSize(c)
  {
    Trichotomy(a[0], b[0]);
    Trichotomy(b[0], c[0]);
    Trichotomy(a[0], c[0]);
    if Less(a[0], b[0]) && Less(b[0], c[0]) {
      Transitivity(a[0], b[0], c[0]);
    } else if a[0] == b[0] == c[0] {
      ItemsTransitive(a[1..], b[1..], c[1..]);
    }
  }

  lemma {:induction false} MembersTransitive(a: seq<Member>, b: seq<Member>, c: seq<Member>)
    requires |a| == |b| == |c| && MembersNaNFree(a) && MembersNaNFree(b) && MembersNaNFree(c)
    requires MembersLess(a, b) && MembersLess(b, c)
    ensures MembersLess(a, c)
    decreases MembersSize(a) + MembersSize(b) + MembersSize(c)
  {
    PairTrichotomy(a, b);
    PairTrichotomy(b, c);
    PairTrichotomy(a, c);
    if PairLess(a, b) && PairLess(b, c) {
      PairTransitive(a, b, c);
    } else if a[0] == b[0] == c[0] {
      MembersTransitive(a[1..], b[1..], c[1..]);
    }
  }

  lemma {:induction false} PairTransitive(a: seq<Member>, b: seq<Member>, c: seq<Member>)
    requires a != [] && b != [] && c != [] && MembersNaNFree(a) && MembersNaNFree(b) && MembersNaNFree(c)
    requires PairLess(a, b) && PairLess(b, c)
    ensures PairLess(a, c)
    decreases MembersSize(a) + MembersSize(b) + MembersSize(c), 0
  {
    var k, l, m := a[0].key, b[0].key, c[0].key;
    BytesTrichotomy(k, l);
    BytesTrichotomy(l, m);
    BytesTrichotomy(k, m);
    if BytesLess(k, l) && BytesLess(l, m) {
      BytesTransitive(k, l, m);
    } else if k == l == m {
      Transitivity(a[0].value, b[0].value, c[0].value);
    }
  }

  /** `compare` answers 0 exactly on `operator==`, for NaN-free values. */
  lemma CompareAgrees(v: Json, w: Json)
    requires NaNFree(v) && NaNFree(w)
    ensures Compare(v, w) == 0 <==> Equal(v, w)
    ensures Compare(v, w) == -Compare(w, v)
  {
    Trichotomy(v, w);
    EqualIsEquality(v, w);
  }

  lemma {:induction false} Irreflexive(v: Json)
    ensures !Less(v, v)
    decreases v, 1
  {
    match v
    case Str(s) => BytesTrichotomy(s, s);
    case Arr(items) => ItemsIrreflexive(items);
    case Obj(members) => MembersIrreflexive(members);
    case _ =>
  }

  lemma {:induction false} ItemsIrreflexive(a: seq<Json>)
    ensures !ItemsLess(a, a)
    decreases a, 0
  {
    if a != [] {
      Irreflexive(a[0]);
      ItemsIrreflexive(a[1..]);
    }
  }

  lemma {:induction false} MembersIrreflexive(a: seq<Member>)
    ensures !MembersLess(a, a)
    decreases a, 0
  {
    if a != [] {
      Irreflexive(a[0].value);
      BytesTrichotomy(a[0].key, a[0].key);
      MembersIrreflexive(a[1..]);
    }
  }

  lemma {:induction false} EqualToItself(v: Json)
    ensures Equal(v, v) <==> NaNFree(v)
    decreases v
  {
    match v
    case Str(s) => BytesEqualIsEquality(s, s);
    case Arr(items) =>
      forall i | 0 <= i < |items| ensures Equal(items[i], items[i]) <==> NaNFree(items[i]) {
        EqualToItself(items[i]);
      }
    case Obj(members) =>
      forall i | 0 <= i < |members|
        ensures BytesEqual(members[i].key, members[i].key) && Equal(members[i].value, members[i].value)
                <==> NaNFree(members[i].value)
      {
        BytesEqualIsEquality(members[i].key, members[i].key);
        EqualToItself(members[i].value);
      }
    case _ =>
  }

  /** A value compares equal to itself, but is `==` to itself exactly when no NaN is inside; so the
      agreement above stops at NaN and nowhere earlier. */
  lemma CompareWithItself(v: Json)
    ensures Compare(v, v) == 0
    ensures Equal(v, v) <==> NaNFree(v)
  {
    Irreflexive(v);
    EqualToItself(v);
  }

  // ----- which order it is --------------------------------------------------------------------------------

  /** The strings agree before `k`, where the first ends and the second goes on, or has the smaller byte. */
  predicate SmallerAt(a: bytes, b: bytes, k: nat) {
    k <= |a| && k < |b| && a[..k] == b[..k] && (k < |a| ==> a[k] < b[k])
  }

  lemma {:induction false} SmallerIsLess(a: bytes, b: bytes, k: nat)
    requires SmallerAt(a, b, k)
    ensures BytesLess(a, b)
  {
    if k > 0 {
      assert a[0] == a[..k][0] && b[0] == b[..k][0];
      assert a[1..][..k - 1] == a[..k][1..] && b[1..][..k - 1] == b[..k][1..];
      SmallerIsLess(a[1..], b[1..], k - 1);
    }
  }

  lemma {:induction false} LessIsSmaller(a: bytes, b: bytes) returns (k: nat)
    requires BytesLess(a, b)
    ensures SmallerAt(a, b, k)
  {
    if a != [] && a[0] == b[0] {
      var j := LessIsSmaller(a[1..], b[1..]);
      k := j + 1;
      assert a[..k] == [a[0]] + a[1..][..j] && b[..k] == [b[0]] + b[1..][..j];
    } else {
      k := 0;
    }
  }

  /** Byte strings are in lexicographic order, a proper prefix first. */
  lemma BytesLessIs(a: bytes, b: bytes)
    ensures BytesLess(a, b) <==> exists k :: SmallerAt(a, b, k)
  {
    hide BytesLess, SmallerAt;
    if BytesLess(a, b) {
      var k := LessIsSmaller(a, b);
    }
    forall k | SmallerAt(a, b, k) ensures BytesLess(a, b) {
      SmallerIsLess(a, b, k);
    }
  }

  /** The order of the kinds: null, signed, unsigned, real, string, boolean, array, object. */
  predicate KindBefore(v: Json, w: Json) {
    match w
    case Null => false
    case Int(_) => v.Null?
    case UInt(_) => v.Null? || v.Int?
    case Real(_) => v.Null? || v.Int? || v.UInt?
    case Str(_) => v.Null? || v.Int? || v.UInt? || v.Real?
    case Bool(_) => !v.Bool? && !v.Arr? && !v.Obj?
    case Arr(_) => !v.Arr? && !v.Obj?
    case Obj(_) => !v.Obj?
  }

  /** Values of two kinds compare as the kinds do; scalars of one kind as what they hold. */
  lemma ScalarOrder(v: Json, w: Json)
    ensures KindBefore(v, w) ==> Less(v, w) && !Less(w, v)
    ensures KindBefore(v, w) || KindBefore(w, v) || (v.Null? && w.Null?) || (v.Int? && w.Int?) || (v.UInt? && w.UInt?)
            || (v.Real? && w.Real?) || (v.Str? && w.Str?) || (v.Bool? && w.Bool?) || (v.Arr? && w.Arr?)
            || (v.Obj? && w.Obj?)
    ensures forall i, j :: Less(Int(i), Int(j)) <==> i < j
    ensures forall i, j :: Less(UInt(i), UInt(j)) <==> i < j
    ensures forall x, y :: Less(Real(Finite(x)), Real(Finite(y))) <==> x < y
    ensures forall x :: Less(Real(NegInf), Real(Finite(x))) && Less(Real(Finite(x)), Real(PosInf))
    ensures Less(Bool(false), Bool(true)) && !Less(Bool(true), Bool(false))
    ensures forall s, t :: Less(Str(s), Str(t)) <==> BytesLess(s, t)
  {
  }

  /** Neither is less. */
  predicate Ties(v: Json, w: Json) {
    !Less(v, w) && !Less(w, v)
  }

  predicate TiesBefore(a: seq<Json>, b: seq<Json>, k: nat)
    requires k <= |a| && k <= |b|
  {
    forall i :: 0 <= i < k ==> Ties(a[i], b[i])
  }

  lemma {:induction false} FirstItemDecides(a: seq<Json>, b: seq<Json>, k: nat)
    requires |a| == |b| && k < |a| && TiesBefore(a, b, k) && !Ties(a[k], b[k])
    ensures ItemsLess(a, b) <==> Less(a[k], b[k])
    decreases k
  {
    hide Less;
    if k > 0 {
      assert forall i :: 0 <= i < k - 1 ==> a[1..][i] == a[i + 1] && b[1..][i] == b[i + 1];
      assert Ties(a[0], b[0]);
      FirstItemDecides(a[1..], b[1..], k - 1);
    }
  }

  lemma {:induction false} NoItemDecides(a: seq<Json>, b: seq<Json>) returns (k: nat)
    requires |a| == |b|
    ensures k <= |a| && TiesBefore(a, b, k) && (k < |a| ==> !Ties(a[k], b[k]))
    ensures k == |a| ==> !ItemsLess(a, b)
  {
    hide Less;
    if a == [] || !Ties(a[0], b[0]) {
      k := 0;
    } else {
      var j := NoItemDecides(a[1..], b[1..]);
      k := j + 1;
      assert forall i :: 0 < i < k ==> a[i] == a[1..][i - 1] && b[i] == b[1..][i - 1];
    }
  }

  /** A shorter array is less; of two of one size the first elements that do not tie decide. */
  lemma ArrayOrder(a: seq<Json>, b: seq<Json>)
    ensures Less(Arr(a), Arr(b)) <==>
            |a| < |b|
            || (|a| == |b| && exists k :: 0 <= k < |a| && TiesBefore(a, b, k) && Less(a[k], b[k]))
  {
    LessArrays(a, b);
    hide Less, TiesBefore, ItemsLess;
    if |a| == |b| {
      forall k | 0 <= k < |a| && TiesBefore(a, b, k) && Less(a[k], b[k]) ensures ItemsLess(a, b) {
        FirstItemDecides(a, b, k);
      }
      var k := NoItemDecides(a, b);
      if k < |a| {
        FirstItemDecides(a, b, k);
        NeverBoth(a[k], b[k]);
      }
    }
  }

  lemma LessArrays(a: seq<Json>, b: seq<Json>)
    ensures Less(Arr(a), Arr(b)) <==> if |a| != |b| then |a| < |b| else ItemsLess(a, b)
  {
  }

  /** No two values are each less than the other, NaN or not. */
  lemma {:induction false} NeverBoth(v: Json, w: Json)
    ensures !(Less(v, w) && Less(w, v))
    decreases Size(v) + Size(w), 2
  {
    if TypeTag(v) == TypeTag(w) {
      match v
      case Str(s) => BytesTrichotomy(s, w.s);
      case Arr(items) =>
        if |items| == |w.items| {
          ItemsNeverBoth(items, w.items);
        }
      case Obj(members) =>
        if |members| == |w.members| {
          MembersNeverBoth(members, w.members);
        }
      case _ =>
    }
  }

  lemma {:induction false} ItemsNeverBoth(a: seq<Json>, b: seq<Json>)
    requires |a| == |b|
    ensures !(ItemsLess(a, b) && ItemsLess(b, a))
    decreases ItemsSize(a) + ItemsSize(b)
  {
    if a != [] {
      NeverBoth(a[0], b[0]);
      ItemsNeverBoth(a[1..], b[1..]);
    }
  }

  lemma {:induction false} MembersNeverBoth(a: seq<Member>, b: seq<Member>)
    requires |a| == |b|
    ensures !(MembersLess(a, b) && MembersLess(b, a))
    decreases MembersSize(a) + MembersSize(b), 1
  {
    if a != [] {
      PairNeverBoth(a, b);
      MembersNeverBoth(a[1..], b[1..]);
    }
  }

  lemma {:induction false} PairNeverBoth(a: seq<Member>, b: seq<Member>)
    requires a != [] && b != []
    ensures !(PairLess(a, b) && PairLess(b, a))
    decreases MembersSize(a) + MembersSize(b), 0
  {
    BytesTrichotomy(a[0].key, b[0].key);
    NeverBoth(a[0].value, b[0].value);
  }

  /** The smaller key, or for one key the smaller value. */
  predicate PairBefore(x: Member, y: Member) {
    BytesLess(x.key, y.key) || (x.key == y.key && Less(x.value, y.value))
  }

  predicate PairsTieBefore(a: seq<Member>, b: seq<Member>, k: nat)
    requires k <= |a| && k <= |b|
  {
    forall i :: 0 <= i < k ==> a[i].key == b[i].key && Ties(a[i].value, b[i].value)
  }

  lemma PairLessIs(a: seq<Member>, b: seq<Member>)
    requires a != [] && b != []
    ensures PairLess(a, b) <==> PairBefore(a[0], b[0])
  {
    hide Less, BytesLess;
    BytesTrichotomy(a[0].key, b[0].key);
  }

  lemma {:induction false} FirstPairDecides(a: seq<Member>, b: seq<Member>, k: nat)
    requires |a| == |b| && k < |a| && PairsTieBefore(a, b, k) && (PairBefore(a[k], b[k]) || PairBefore(b[k], a[k]))
    ensures MembersLess(a, b) <==> PairBefore(a[k], b[k])
    decreases k
  {
    PairLessIs(a, b);
    PairLessIs(b, a);
    PairNeverBoth(a, b);
    hide Less, BytesLess, PairLess;
    if k > 0 {
      assert forall i :: 0 <= i < k - 1 ==> a[1..][i] == a[i + 1] && b[1..][i] == b[i + 1];
      BytesTrichotomy(a[0].key, b[0].key);
      FirstPairDecides(a[1..], b[1..], k - 1);
    }
  }

  lemma {:induction false} NoPairDecides(a: seq<Member>, b: seq<Member>) returns (k: nat)
    requires |a| == |b|
    ensures k <= |a| && PairsTieBefore(a, b, k)
    ensures k < |a| ==> PairBefore(a[k], b[k]) || PairBefore(b[k], a[k])
    ensures k == |a| ==> !MembersLess(a, b)
  {
    hide Less, BytesLess, PairLess;
    if a == [] {
      k := 0;
    } else {
      PairLessIs(a, b);
      PairLessIs(b, a);
      if PairBefore(a[0], b[0]) || PairBefore(b[0], a[0]) {
        k := 0;
      } else {
        BytesTrichotomy(a[0].key, b[0].key);
        var j := NoPairDecides(a[1..], b[1..]);
        k := j + 1;
        assert forall i :: 0 < i < k ==> a[i] == a[1..][i - 1] && b[i] == b[1..][i - 1];
      }
    }
  }

  /** A smaller object is less; of two of one size the first pairs, in key order, that do not tie decide. */
  lemma ObjectOrder(a: seq<Member>, b: seq<Member>)
    ensures Less(Obj(a), Obj(b)) <==>
            |a| < |b|
            || (|a| == |b| && exists k :: 0 <= k < |a| && PairsTieBefore(a, b, k) && PairBefore(a[k], b[k]))
  {
    LessObjects(a, b);
    hide Less, PairsTieBefore, MembersLess, PairBefore;
    if |a| == |b| {
      forall k | 0 <= k < |a| && PairsTieBefore(a, b, k) && PairBefore(a[k], b[k]) ensures MembersLess(a, b) {
        FirstPairDecides(a, b, k);
      }
      var k := NoPairDecides(a, b);
      if k < |a| {
        FirstPairDecides(a, b, k);
      }
    }
  }

  lemma LessObjects(a: seq<Member>, b: seq<Member>)
    ensures Less(Obj(a), Obj(b)) <==> if |a| != |b| then |a| < |b| else MembersLess(a, b)
  {
  }

  /** For NaN-free values to tie is to be equal, so the first elements that differ decide. */
  lemma TiesAreEqual(v: Json, w: Json)
    requires NaNFree(v) && NaNFree(w)
    ensures Ties(v, w) <==> v == w
  {
    Trichotomy(v, w);
  }

  /** `compare` is negative exactly when the first is less, and positive exactly when the second is. */
  lemma CompareIs(v: Json, w: Json)
    ensures Compare(v, w) < 0 <==> Less(v, w)
    ensures Compare(v, w) > 0 <==> Less(w, v)
  {
    NeverBoth(v, w);
  }
}
