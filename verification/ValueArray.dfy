/** An array `Value` is a sorted map from indices to values; its operations are those of a sequence. */
module ValueArray {
  import opened Bytes
  import opened JsonValue

  datatype ValueType = NullValue | ArrayValue | OtherValue

  /** The key before `end()` of a sorted map. */
  function Greatest(keys: set<nat>): (last: nat)
    requires keys != {}
    ensures last in keys && forall k :: k in keys ==> k <= last
  {
    ExistsGreatest(keys);
    var last :| last in keys && forall k :: k in keys ==> k <= last;
    last
  }

  lemma {:induction false} ExistsGreatest(keys: set<nat>)
    requires keys != {}
    ensures exists last :: last in keys && forall k :: k in keys ==> k <= last
  {
    var some :| some in keys;
    if k :| k in keys && k > some {
      var above := set j | j in keys && j > some;
      assert k in above && some !in above;
      assert above < keys;
      ExistsGreatest(above);
      var last :| last in above && forall j :: j in above ==> j <= last;
      assert last in keys && forall j :: j in keys ==> j in above || j <= some;
    }
  }

  /** The map whose keys are exactly 0, 1, ... and whose values are those of the sequence. */
  function AsMap(s: seq<Json>): map<nat, Json> {
    map i: nat | 0 <= i < |s| :: s[i]
  }

  lemma LastKey(s: seq<Json>)
    ensures AsMap(s) == map[] <==> s == []
    ensures s != [] ==> AsMap(s).Keys != {} && Greatest(AsMap(s).Keys) == |s| - 1
  {
    if s != [] {
      assert |s| - 1 in AsMap(s).Keys;
      assert Greatest(AsMap(s).Keys) in AsMap(s);
    }
  }

  lemma KeyAt(s: seq<Json>, k: nat)
    ensures k in AsMap(s) <==> k < |s|
    ensures k < |s| ==> AsMap(s)[k] == s[k]
  {
  }

  /** The sequence after a value is put at an index inside it or just after it. */
  function PutAt(s: seq<Json>, k: nat, v: Json): seq<Json>
    requires k <= |s|
  {
    if k < |s| then s[k := v] else s + [v]
  }

  lemma MapPut(s: seq<Json>, k: nat, v: Json)
    requires k <= |s|
    ensures AsMap(s)[k := v] == AsMap(PutAt(s, k, v))
  {
  }

  lemma MapCut(s: seq<Json>)
    requires s != []
    ensures AsMap(s) - {|s| - 1} == AsMap(s[..|s| - 1])
  {
  }

  /** While `insert` moves elements up: from `i` on they are one place further, and the one at `i` is there twice. */
  function MovedUp(s: seq<Json>, i: nat): seq<Json>
    requires i <= |s|
  {
    if i == |s| then s else s[..i + 1] + s[i..]
  }

  lemma MoveUp(s: seq<Json>, i: nat)
    requires 0 < i <= |s|
    ensures var m := AsMap(MovedUp(s, i));
            i - 1 in m && m[i - 1] == s[i - 1]
            && m[i - 1 := s[i - 1]][i := s[i - 1]] == AsMap(MovedUp(s, i - 1))
  {
    var t := MovedUp(s, i);
    assert t[i - 1] == s[i - 1] && PutAt(t, i, s[i - 1]) == MovedUp(s, i - 1);
    MapPut(t, i - 1, s[i - 1]);
    assert t[i - 1 := s[i - 1]] == t;
    MapPut(t, i, s[i - 1]);
  }

  lemma MovedUpWhole(s: seq<Json>)
    ensures MovedUp(s, |s|) == s
  {
  }

  lemma MovedUpLast(s: seq<Json>, index: nat, v: Json)
    requires index <= |s|
    ensures AsMap(MovedUp(s, index))[index := v] == AsMap(s[..index] + [v] + s[index..])
  {
    MapPut(MovedUp(s, index), index, v);
    assert PutAt(MovedUp(s, index), index, v) == s[..index] + [v] + s[index..];
  }

  /** While `removeIndex` moves elements down into the place at `index`, up to `i`. */
  function MovedDown(s: seq<Json>, index: nat, i: nat): (r: seq<Json>)
    requires index <= i < |s|
    ensures |r| == |s|
  {
    s[..index] + s[index + 1..i + 1] + s[i..]
  }

  lemma MoveDown(s: seq<Json>, index: nat, i: nat)
    requires index <= i < |s| - 1
    ensures var m := AsMap(MovedDown(s, index, i));
            i + 1 in m && m[i + 1] == s[i + 1]
            && m[i + 1 := s[i + 1]][i := s[i + 1]] == AsMap(MovedDown(s, index, i + 1))
  {
    var t := MovedDown(s, index, i);
    assert t[i + 1] == s[i + 1] && PutAt(t, i, s[i + 1]) == MovedDown(s, index, i + 1);
    MapPut(t, i + 1, s[i + 1]);
    assert t[i + 1 := s[i + 1]] == t;
    MapPut(t, i, s[i + 1]);
  }

  lemma MovedDownEnds(s: seq<Json>, index: nat)
    requires index < |s|
    ensures MovedDown(s, index, index) == s
    ensures AsMap(MovedDown(s, index, |s| - 1)) - {|s| - 1} == AsMap(s[..index] + s[index + 1..])
  {
    MapCut(MovedDown(s, index, |s| - 1));
    assert MovedDown(s, index, |s| - 1)[..|s| - 1] == s[..index] + s[index + 1..];
  }

  class Value {
    var type_: ValueType
    var map_: map<nat, Json>

    /** What the array holds. */
    ghost var Contents: seq<Json>

    ghost predicate Valid()
      reads this
    {
      map_ == AsMap(Contents) && |Contents| < TWO_32 && (type_ != ArrayValue ==> Contents == [])
    }

    constructor (type_: ValueType)
      ensures Valid() && this.type_ == type_ && Contents == []
    {
      this.type_, map_, Contents := type_, map[], [];
    }

    /** The highest index plus one, as an `ArrayIndex`. */
    function Size(): (n: nat)
      requires Valid()
      reads this
      ensures n == |Contents|
    {
      LastKey(Contents);
      if type_ != ArrayValue || map_ == map[] then 0 else (Greatest(map_.Keys) + 1) % TWO_32
    }

    /** `operator[]`: a missing element is made first, as a null. */
    method At(index: nat) returns (value: Json)
      requires type_ == NullValue || type_ == ArrayValue
      modifies `type_, `map_
      ensures type_ == ArrayValue
      ensures value == if index in old(map_) then old(map_)[index] else Null
      ensures map_ == old(map_)[index := value]
    {
      type_ := ArrayValue;
      if index !in map_ {
        map_ := map_[index := Null];
      }
      value := map_[index];
      assert index in old(map_) ==> map_ == old(map_)[index := value];
    }

    /** `(*this)[index] = value`. */
    method Put(index: nat, value: Json)
      requires type_ == NullValue || type_ == ArrayValue
      modifies `type_, `map_
      ensures type_ == ArrayValue && map_ == old(map_)[index := value]
    {
      var was := At(index);
      map_ := map_[index := value];
    }

    method Append(value: Json)
      requires Valid() && (type_ == NullValue || type_ == ArrayValue) && |Contents| + 1 < TWO_32
      modifies this
      ensures Valid() && type_ == ArrayValue && Contents == old(Contents) + [value]
    {
      if type_ == NullValue {
        type_ := ArrayValue;
      }
      var size := Size();
      if size !in map_ {
        map_ := map_[size := value];
      }
      Contents := Contents + [value];
    }

    method Insert(index: nat, newValue: Json) returns (ok: bool)
      requires Valid() && (type_ == NullValue || type_ == ArrayValue) && |Contents| + 1 < TWO_32
      modifies this
      ensures Valid() && ok == (index <= |old(Contents)|)
      ensures Contents == if ok then old(Contents)[..index] + [newValue] + old(Contents)[index..] else old(Contents)
      ensures type_ == if ok then ArrayValue else old(type_)
    {
      hide AsMap, MovedUp;
      var length := Size();
      MovedUpWhole(Contents);
      if index > length {
        return false;
      }
      ghost var before := Contents;
      var i := length;
      while i > index
        invariant index <= i <= length && (type_ == ArrayValue || (type_ == NullValue && before == []))
        invariant Contents == before && map_ == AsMap(MovedUp(before, i))
      {
        MoveUp(before, i);
        var moved := At(i - 1);
        Put(i, moved);
        i := i - 1;
      }
      MovedUpLast(before, index, newValue);
      Put(index, newValue);
      Contents := before[..index] + [newValue] + before[index..];
      return true;
    }

    method RemoveIndex(index: nat) returns (ok: bool, removed: Option<Json>)
      requires Valid()
      modifies this
      ensures Valid() && type_ == old(type_) && ok == (index < |old(Contents)|)
      ensures removed == if ok then Some(old(Contents)[index]) else None
      ensures Contents == if ok then old(Contents)[..index] + old(Contents)[index + 1..] else old(Contents)
    {
      hide AsMap, MovedDown;
      KeyAt(Contents, index);
      if type_ != ArrayValue {
        return false, None;
      }
      if index !in map_ {
        return false, None;
      }
      removed := Some(map_[index]);
      var oldSize := Size();
      ghost var before := Contents;
      var i := index;
      MovedDownEnds(before, index);
      while i < oldSize - 1
        invariant index <= i < oldSize && type_ == ArrayValue && Contents == before
        invariant map_ == AsMap(MovedDown(before, index, i))
      {
        MoveDown(before, index, i);
        var next := At(i + 1);
        map_ := map_[i := next];
        i := i + 1;
      }
      map_ := map_ - {oldSize - 1};
      Contents := before[..index] + before[index + 1..];
      return true, removed;
    }

    method Clear()
      requires Valid()
      modifies `map_, `Contents
      ensures Valid() && Contents == []
    {
      map_, Contents := map[], [];
    }

    method Resize(newSize: nat)
      requires Valid() && (type_ == NullValue || type_ == ArrayValue) && newSize < TWO_32
      modifies this
      ensures Valid() && type_ == ArrayValue && Contents == Resized(old(Contents), newSize)
    {
      if type_ == NullValue {
        type_ := ArrayValue;
      }
      var oldSize := Size();
      ghost var before := Contents;
      if newSize == 0 {
        Clear();
      } else if newSize > oldSize {
        for i := oldSize to newSize
          invariant type_ == ArrayValue && Contents == before && map_ == AsMap(Resized(before, i))
        {
          MapPut(Resized(before, i), i, Null);
          var made := At(i);
        }
        Contents := Resized(before, newSize);
      } else {
        for index := newSize to oldSize
          invariant type_ == ArrayValue && Contents == before
          invariant map_ == map k: nat | k in AsMap(before) && (k < newSize || index <= k) :: before[k]
        {
          map_ := map_ - {index};
        }
        Contents := before[..newSize];
        var size := Size();
        assert size == newSize;
      }
    }
  }

  /** Cut, or padded with nulls, to a length. */
  function Resized(s: seq<Json>, n: nat): (r: seq<Json>)
    ensures |r| == n
  {
    if n <= |s| then s[..n] else s + seq(n - |s|, i => Null)
  }

  // ----- runs --------------------------------------------------------------------------------------

  datatype Op =
    | AppendOp(value: Json)
    | InsertOp(index: nat, value: Json)
    | RemoveOp(index: nat)
    | ResizeOp(size: nat)

  /** The sequence operation each array operation stands for. */
  function Meaning(s: seq<Json>, op: Op): seq<Json> {
    match op
    case AppendOp(v) => s + [v]
    case InsertOp(i, v) => if i <= |s| then s[..i] + [v] + s[i..] else s
    case RemoveOp(i) => if i < |s| then s[..i] + s[i + 1..] else s
    case ResizeOp(n) => Resized(s, n)
  }

  function Run(s: seq<Json>, ops: seq<Op>): seq<Json> {
    if ops == [] then s else Meaning(Run(s, ops[..|ops| - 1]), ops[|ops| - 1])
  }

  /** Indices stay within `ArrayIndex` all along. */
  predicate Fits(ops: seq<Op>) {
    ops != [] ==>
      var front, op := ops[..|ops| - 1], ops[|ops| - 1];
      Fits(front) && |Run([], front)| + 1 < TWO_32 && (op.ResizeOp? ==> op.size < TWO_32)
  }

  lemma {:induction false} RunSteps(ops: seq<Op>, k: nat)
    requires Fits(ops) && k <= |ops|
    ensures Run([], []) == []
    ensures k < |ops| ==>
              && |Run([], ops[..k])| + 1 < TWO_32 && (ops[k].ResizeOp? ==> ops[k].size < TWO_32)
              && Run([], ops[..k + 1]) == Meaning(Run([], ops[..k]), ops[k])
  {
    if k < |ops| - 1 {
      RunSteps(ops[..|ops| - 1], k);
      assert ops[..|ops| - 1][..k] == ops[..k] && ops[..|ops| - 1][..k + 1] == ops[..k + 1];
    } else if k == |ops| - 1 {
      assert ops[..k + 1] == ops;
    }
  }

  method Apply(value: Value, op: Op)
    requires value.Valid() && (value.type_ == NullValue || value.type_ == ArrayValue)
    requires |value.Contents| + 1 < TWO_32 && (op.ResizeOp? ==> op.size < TWO_32)
    modifies value
    ensures value.Valid() && (value.type_ == NullValue || value.type_ == ArrayValue)
    ensures value.Contents == Meaning(old(value.Contents), op)
  {
    match op {
      case AppendOp(v) => value.Append(v);
      case InsertOp(i, v) => var ok := value.Insert(i, v);
      case RemoveOp(i) => var ok, removed := value.RemoveIndex(i);
      case ResizeOp(n) => value.Resize(n);
    }
  }

  /** From a null or empty array, every run of operations leaves the sequence it stands for. */
  method Replay(type_: ValueType, ops: seq<Op>) returns (contents: seq<Json>)
    requires (type_ == NullValue || type_ == ArrayValue) && Fits(ops)
    ensures contents == Run([], ops)
  {
    hide Run;
    var value := new Value(type_);
    RunSteps(ops, 0);
    for k := 0 to |ops|
      invariant value.Valid() && (value.type_ == NullValue || value.type_ == ArrayValue) && fresh(value)
      invariant value.Contents == Run([], ops[..k])
    {
      RunSteps(ops, k);
      Apply(value, ops[k]);
    }
    assert ops[..|ops|] == ops;
    contents := [];
    var size := value.Size();
    for i := 0 to size
      invariant contents == value.Contents[..i]
    {
      contents := contents + [value.map_[i]];
    }
  }

  /** `removeIndex` undoes `insert`, and inserting the removed value again undoes `removeIndex`. */
  lemma InsertRemove(s: seq<Json>, i: nat, v: Json)
    requires i <= |s|
    ensures Meaning(Meaning(s, InsertOp(i, v)), RemoveOp(i)) == s
    ensures i < |s| ==> Meaning(Meaning(s, RemoveOp(i)), InsertOp(i, s[i])) == s
    ensures Meaning(s, InsertOp(|s|, v)) == Meaning(s, AppendOp(v))
  {
    var t := Meaning(s, InsertOp(i, v));
    assert t[..i] == s[..i] && t[i + 1..] == s[i..];
    if i < |s| {
      var u := Meaning(s, RemoveOp(i));
      assert u[..i] == s[..i] && u[i..] == s[i + 1..];
    }
  }
}
