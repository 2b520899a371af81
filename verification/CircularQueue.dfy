/** `circular_q`: a ring buffer with one slot kept free, and the sink that keeps the latest messages in one. */
module CircularQueue {

  // ----- the bounded queue it stands for ----------------------------------------------------------------

  /** The last `n` items, or all of them when there are fewer. */
  function Last<T>(s: seq<T>, n: nat): (r: seq<T>)
    ensures |r| == if n < |s| then n else |s|
  {
    if n < |s| then s[|s| - n..] else s
  }

  lemma Wrap(x: nat, m: nat)
    requires x < 2 * m
    ensures x % m == if x < m then x else x - m
  {
    if x >= m {
      assert x == m + (x - m);
    }
  }

  /** The position `i` places after `head`, around the ring. */
  function Around(head: nat, i: nat, maxItems: nat): (k: nat)
    requires head < maxItems && i <= maxItems
    ensures k < maxItems
    ensures k == (head + i) % maxItems
  {
    Wrap(head + i, maxItems);
    if head + i < maxItems then head + i else head + i - maxItems
  }

  /** `size` items around the ring from `head` on. */
  function Items<T>(slots: seq<T>, head: nat, size: nat): (items: seq<T>)
    requires size <= |slots| && (size > 0 ==> head < |slots|)
    ensures |items| == size
  {
    seq(size, i requires 0 <= i < size => slots[Around(head, i, |slots|)])
  }

  function Next(k: nat, maxItems: nat): (n: nat)
    requires k < maxItems
    ensures n == (k + 1) % maxItems < maxItems
  {
    if k + 1 == maxItems then 0 else k + 1
  }

  lemma ItemsDropFirst<T>(slots: seq<T>, head: nat, size: nat)
    requires 0 < size <= |slots| && head < |slots|
    ensures Items(slots, Next(head, |slots|), size - 1) == Items(slots, head, size)[1..]
  {
  }

  lemma ItemsAppend<T>(slots: seq<T>, head: nat, size: nat, x: T)
    requires size < |slots| && head < |slots|
    ensures Items(slots[Around(head, size, |slots|) := x], head, size + 1) == Items(slots, head, size) + [x]
  {
    var filled := slots[Around(head, size, |slots|) := x];
    forall i | 0 <= i < size ensures Items(filled, head, size + 1)[i] == Items(slots, head, size)[i] {
      assert Around(head, i, |slots|) != Around(head, size, |slots|);
    }
  }

  /** The size between two positions. */
  function Between(head: nat, tail: nat, maxItems: nat): nat
    requires head <= maxItems
  {
    if tail >= head then tail - head else maxItems - (head - tail)
  }

  lemma TailIsAround(head: nat, tail: nat, maxItems: nat)
    requires head < maxItems && tail < maxItems
    ensures Between(head, tail, maxItems) < maxItems && tail == Around(head, Between(head, tail, maxItems), maxItems)
    ensures Next(tail, maxItems) == head <==> Between(head, tail, maxItems) == maxItems - 1
    ensures Next(tail, maxItems) != head ==>
              Between(head, Next(tail, maxItems), maxItems) == Between(head, tail, maxItems) + 1
    ensures Between(head, tail, maxItems) > 0 ==>
              Between(Next(head, maxItems), tail, maxItems) == Between(head, tail, maxItems) - 1
    ensures Between(Next(head, maxItems), head, maxItems) == maxItems - 1
  {
  }

  class CircularQ<T(0)> {
    var maxItems: nat
    var head: nat
    var tail: nat
    var overrunCounter: nat
    var v: array<T>

    ghost predicate Valid()
      reads this, v
    {
      && v.Length == maxItems
      && (if maxItems == 0 then head == tail == 0 else head < maxItems && tail < maxItems)
    }

    /** How many items there is room for. */
    function Capacity(): nat
      reads this
    {
      if maxItems == 0 then 0 else maxItems - 1
    }

    /** The items, oldest first. */
    ghost function Contents(): (s: seq<T>)
      requires Valid()
      reads this, v
      ensures |s| <= Capacity()
    {
      Items(v[..], head, Between(head, tail, maxItems))
    }

    /** A queue for `n` items, all slots but one in use at most. */
    constructor (n: nat)
      ensures Valid() && fresh(v) && Capacity() == n && maxItems == n + 1 && Contents() == [] && overrunCounter == 0
    {
      maxItems, head, tail, overrunCounter := n + 1, 0, 0, 0;
      v := new T[n + 1];
    }

    /** A disabled queue. */
    constructor Disabled()
      ensures Valid() && fresh(v) && maxItems == 0 && Contents() == [] && overrunCounter == 0
    {
      maxItems, head, tail, overrunCounter := 0, 0, 0, 0;
      v := new T[0];
    }

    /** The other queue's items move here, and it is disabled. */
    constructor MoveFrom(other: CircularQ<T>)
      requires other.Valid()
      modifies other
      ensures Valid() && Contents() == old(other.Contents()) && Capacity() == old(other.Capacity())
      ensures overrunCounter == old(other.overrunCounter) && v == old(other.v)
      ensures other.Valid() && other.maxItems == 0 && other.Contents() == [] && other.overrunCounter == 0
    {
      maxItems, head, tail, overrunCounter := other.maxItems, other.head, other.tail, other.overrunCounter;
      v := other.v;
      new;
      other.maxItems, other.head, other.tail, other.overrunCounter := 0, 0, 0, 0;
      other.v := new T[0];
    }

    function Size(): (n: nat)
      requires Valid()
      reads this, v
      ensures n == |Contents()|
    {
      if tail >= head then tail - head else maxItems - (head - tail)
    }

    function Empty(): (r: bool)
      requires Valid()
      reads this, v
      ensures r <==> Contents() == []
    {
      tail == head
    }

    function Full(): (r: bool)
      requires Valid()
      reads this, v
      ensures r <==> maxItems > 0 && |Contents()| == Capacity()
    {
      if maxItems > 0 then TailIsAround(head, tail, maxItems); (tail + 1) % maxItems == head else false
    }

    method At(i: nat) returns (item: T)
      requires Valid() && i < |Contents()|
      ensures item == Contents()[i]
    {
      item := v[(head + i) % maxItems];
    }

    method Front() returns (item: T)
      requires Valid() && Contents() != []
      ensures item == Contents()[0]
    {
      item := v[head];
    }

    /** The newest item goes to the end; a full queue loses its oldest. A disabled one ignores it. */
    method PushBack(item: T)
      requires Valid()
      modifies this, v
      ensures Valid() && v == old(v) && maxItems == old(maxItems)
      ensures Contents() == if maxItems == 0 then [] else Last(old(Contents()) + [item], Capacity())
      ensures overrunCounter == old(overrunCounter) + if maxItems > 0 && |old(Contents())| == Capacity() then 1 else 0
    {
      hide Items, Around, Between, Next;
      if maxItems > 0 {
        ghost var items := Contents();
        TailIsAround(head, tail, maxItems);
        ItemsAppend(v[..], head, |items|, item);
        v[tail] := item;
        assert Items(v[..], head, |items| + 1) == items + [item];
        tail := (tail + 1) % maxItems;
        if tail == head {
          ItemsDropFirst(v[..], head, maxItems);
          head := (head + 1) % maxItems;
          overrunCounter := overrunCounter + 1;
        }
      }
    }

    method PopFront()
      requires Valid() && Contents() != []
      modifies `head
      ensures Valid() && Contents() == old(Contents())[1..]
    {
      TailIsAround(head, tail, maxItems);
      ItemsDropFirst(v[..], head, Size());
      head := (head + 1) % maxItems;
    }
  }

  // ----- runs ---------------------------------------------------------------------------------------------

  datatype Op<T> = Push(item: T) | Pop

  datatype Log<T> = Log(items: seq<T>, overruns: nat, pushed: seq<T>, popped: seq<T>)

  /** One operation on a queue with room for `n`; a pop of an empty queue is not an operation. */
  function Step<T>(log: Log<T>, op: Op<T>, n: nat): Log<T> {
    match op
    case Push(x) =>
      Log(Last(log.items + [x], n), log.overruns + (if |log.items| >= n then 1 else 0), log.pushed + [x], log.popped)
    case Pop =>
      if log.items == [] then log
      else log.(items := log.items[1..], popped := log.popped + [log.items[0]])
  }

  function Run<T>(ops: seq<Op<T>>, n: nat): Log<T> {
    if ops == [] then Log([], 0, [], []) else Step(Run(ops[..|ops| - 1], n), ops[|ops| - 1], n)
  }

  /** Every item pushed was popped, overrun, or is still there; what is there is the newest, in order. */
  predicate NothingLost<T(==)>(log: Log<T>, n: nat) {
    && |log.pushed| == |log.popped| + log.overruns + |log.items| && |log.items| <= n
    && log.items == Last(log.pushed, |log.items|)
  }

  lemma StepLosesNothing<T>(log: Log<T>, op: Op<T>, n: nat)
    requires NothingLost(log, n)
    ensures NothingLost(Step(log, op, n), n)
  {
    match op
    case Push(x) =>
      LastAppend(log.pushed, |log.items|, x);
      LastOfLast(log.pushed + [x], |log.items| + 1, n);
    case Pop =>
  }

  lemma {:induction false} NothingIsLost<T>(ops: seq<Op<T>>, n: nat)
    ensures NothingLost(Run(ops, n), n)
    decreases |ops|
  {
    hide Step, NothingLost;
    if ops != [] {
      NothingIsLost(ops[..|ops| - 1], n);
      StepLosesNothing(Run(ops[..|ops| - 1], n), ops[|ops| - 1], n);
    } else {
      EmptyLosesNothing<T>(n);
    }
  }

  lemma EmptyLosesNothing<T>(n: nat)
    ensures NothingLost<T>(Log([], 0, [], []), n)
  {
  }

  /** With pushes only, the queue holds the latest `n` items. */
  lemma {:induction false} PushesKeepLatest<T>(ops: seq<Op<T>>, n: nat)
    requires forall i :: 0 <= i < |ops| ==> ops[i].Push?
    ensures Run(ops, n).items == Last(Run(ops, n).pushed, n)
    decreases |ops|
  {
    if ops != [] {
      PushesKeepLatest(ops[..|ops| - 1], n);
      LastThenAppend(Run(ops[..|ops| - 1], n).pushed, n, ops[|ops| - 1].item);
    }
  }

  lemma LastAppend<T>(s: seq<T>, n: nat, x: T)
    requires n <= |s|
    ensures Last(s, n) + [x] == Last(s + [x], n + 1)
  {
  }

  lemma LastThenAppend<T>(s: seq<T>, n: nat, x: T)
    ensures Last(Last(s, n) + [x], n) == Last(s + [x], n)
  {
  }

  lemma LastOfLast<T>(s: seq<T>, a: nat, b: nat)
    ensures Last(Last(s, a), b) == Last(s, if a < b then a else b)
  {
  }

  /** One operation on the ring buffer is one on the bounded queue. */
  method Apply<T(0)>(q: CircularQ<T>, op: Op<T>, ghost log: Log<T>)
    requires q.Valid() && q.maxItems > 0 && q.Contents() == log.items && q.overrunCounter == log.overruns
    modifies q, q.v
    ensures q.Valid() && q.maxItems == old(q.maxItems) && q.v == old(q.v)
    ensures var log' := Step(log, op, q.Capacity()); q.Contents() == log'.items && q.overrunCounter == log'.overruns
  {
    match op {
      case Push(x) => q.PushBack(x);
      case Pop =>
        if !q.Empty() {
          q.PopFront();
        }
    }
  }

  method ReadAll<T(0)>(q: CircularQ<T>) returns (items: seq<T>)
    requires q.Valid()
    ensures items == q.Contents()
  {
    items := [];
    for i := 0 to q.Size()
      invariant items == q.Contents()[..i]
    {
      var item := q.At(i);
      items := items + [item];
    }
  }

  /** The ring buffer does what the bounded queue does, over every run. */
  method Replay<T(0)>(ops: seq<Op<T>>, n: nat) returns (items: seq<T>, overruns: nat)
    ensures items == Run(ops, n).items && overruns == Run(ops, n).overruns
  {
    hide Step;
    var q := new CircularQ<T>(n);
    for k := 0 to |ops|
      invariant q.Valid() && fresh(q) && fresh(q.v) && q.maxItems == n + 1
      invariant q.Contents() == Run(ops[..k], n).items && q.overrunCounter == Run(ops[..k], n).overruns
    {
      assert ops[..k + 1][..k] == ops[..k];
      Apply(q, ops[k], Run(ops[..k], n));
    }
    assert ops[..|ops|] == ops;
    items := ReadAll(q);
    overruns := q.overrunCounter;
  }

  // ----- the ring buffer sink -------------------------------------------------------------------------------

  class RingbufferSink<T(0)> {
    const q: CircularQ<T>

    /** Every message ever logged. */
    ghost var logged: seq<T>

    ghost predicate Valid()
      reads this, q, q.v
    {
      q.Valid() && q.maxItems > 0 && q.Contents() == Last(logged, q.Capacity())
    }

    constructor (n: nat)
      ensures Valid() && fresh(q) && fresh(q.v) && q.Capacity() == n && logged == []
    {
      q := new CircularQ<T>(n);
      logged := [];
    }

    method SinkIt(msg: T)
      requires Valid()
      modifies this, q, q.v
      ensures Valid() && logged == old(logged) + [msg] && q.Capacity() == old(q.Capacity()) && q.v == old(q.v)
    {
      LastThenAppend(logged, q.Capacity(), msg);
      q.PushBack(msg);
      logged := logged + [msg];
    }

    /** The latest messages, oldest first: at most `lim` of them, where 0 is no limit. */
    method LastRaw(lim: nat) returns (ret: seq<T>)
      requires Valid()
      ensures ret == Last(logged, if 0 < lim < q.Capacity() then lim else q.Capacity())
    {
      var itemsAvailable := q.Size();
      var nItems := if lim > 0 then (if lim < itemsAvailable then lim else itemsAvailable) else itemsAvailable;
      ret := [];
      for i := itemsAvailable - nItems to itemsAvailable
        invariant ret == q.Contents()[itemsAvailable - nItems..i]
      {
        var item := q.At(i);
        ret := ret + [item];
      }
      LastOfLast(logged, q.Capacity(), nItems);
    }
  }
}
