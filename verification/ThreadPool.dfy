/** The blocking queue and the thread pool on it: producers, worker loops, and shutdown by terminate messages. */
module ThreadPool {
  import opened Bytes
  import opened CircularQueue

  datatype Msg = LogMsg(id: nat) | FlushMsg(id: nat) | Terminate

  // ----- the queue, one critical section at a time -----------------------------------------------------

  /** `mpmc_blocking_queue`: what each operation does under the mutex, once its wait is over. */
  class BlockingQueue {
    const q: CircularQ<Msg>

    ghost predicate Valid()
      reads this, q, q.v
    {
      q.Valid() && q.maxItems > 0
    }

    constructor (n: nat)
      ensures Valid() && fresh(q) && fresh(q.v) && q.Contents() == [] && q.Capacity() == n && q.overrunCounter == 0
    {
      q := new CircularQ<Msg>(n);
    }

    /** Waits until the queue is not full; false stands for going on waiting. */
    method Enqueue(item: Msg) returns (done: bool)
      requires Valid()
      modifies q, q.v
      ensures Valid() && q.v == old(q.v) && q.Capacity() == old(q.Capacity())
      ensures done == (|old(q.Contents())| < q.Capacity()) && q.overrunCounter == old(q.overrunCounter)
      ensures q.Contents() == if done then old(q.Contents()) + [item] else old(q.Contents())
    {
      if q.Full() {
        return false;
      }
      q.PushBack(item);
      return true;
    }

    /** Never waits; a full queue loses its oldest item. */
    method EnqueueNowait(item: Msg)
      requires Valid()
      modifies q, q.v
      ensures Valid() && q.v == old(q.v) && q.Capacity() == old(q.Capacity())
      ensures q.Contents() == Last(old(q.Contents()) + [item], q.Capacity())
      ensures q.overrunCounter == old(q.overrunCounter) + if |old(q.Contents())| == q.Capacity() then 1 else 0
    {
      q.PushBack(item);
    }

    /** Takes the oldest item; nothing when the queue stays empty for the whole wait. */
    method DequeueFor() returns (item: Option<Msg>)
      requires Valid()
      modifies q
      ensures Valid() && q.v == old(q.v) && q.Capacity() == old(q.Capacity())
      ensures item.Some? <==> old(q.Contents()) != []
      ensures q.Contents() == if item.Some? then old(q.Contents())[1..] else []
      ensures item.Some? ==> item.value == old(q.Contents())[0]
    {
      if q.Empty() {
        return None;
      }
      var front := q.Front();
      q.PopFront();
      return Some(front);
    }
  }

  /** `process_next_msg_`: whether the worker goes on, and what it handled. */
  method ProcessNextMsg(queue: BlockingQueue) returns (active: bool, handled: Option<Msg>)
    requires queue.Valid()
    modifies queue.q
    ensures queue.Valid() && active == (handled != Some(Terminate))
    ensures handled == if old(queue.q.Contents()) == [] then None else Some(old(queue.q.Contents())[0])
    ensures queue.q.Contents() == if handled == None then [] else old(queue.q.Contents())[1..]
  {
    handled := queue.DequeueFor();
    if handled == None {
      return true, None;
    }
    match handled.value {
      case LogMsg(_) => active := true;
      case FlushMsg(_) => active := true;
      case Terminate => active := false;
    }
  }

  // ----- the protocol -------------------------------------------------------------------------------------

  datatype Worker = Polling | Handling(msg: Msg) | Exited

  /** The owner's thread: still in use, in the destructor's first loop, in its second, or through. */
  datatype Owner = Using | Posting(sent: nat) | Joining(joined: nat) | Destroyed

  /** An item that left the queue: taken by a worker, or overrun. */
  datatype Gone = Taken(msg: Msg, worker: nat) | Overrun(msg: Msg)

  datatype State = State(
    queue: seq<Msg>,
    capacity: nat,
    overruns: nat,
    workers: seq<Worker>,
    owner: Owner,
    posted: seq<Msg>,
    gone: seq<Gone>)

  datatype Label =
    | Post(msg: Msg)
    | PostNowait(msg: Msg)
    | Destroy
    | SendTerminate
    | Dequeue(w: nat)
    | Timeout(w: nat)
    | Handle(w: nat)
    | Join

  predicate Enabled(s: State, l: Label) {
    match l
    case Post(msg) => s.owner == Using && msg != Terminate && |s.queue| < s.capacity
    case PostNowait(msg) => s.owner == Using && msg != Terminate
    case Destroy => s.owner == Using
    case SendTerminate => s.owner.Posting? && s.owner.sent < |s.workers| && |s.queue| < s.capacity
    case Dequeue(w) => w < |s.workers| && s.workers[w] == Polling && s.queue != []
    case Timeout(w) => w < |s.workers| && s.workers[w] == Polling
    case Handle(w) => w < |s.workers| && s.workers[w].Handling?
    case Join =>
      match s.owner
      case Posting(k) => k >= |s.workers|
      case Joining(k) => k >= |s.workers| || s.workers[k] == Exited
      case _ => false
  }

  function Apply(s: State, l: Label): State
    requires Enabled(s, l)
  {
    match l
    case Post(msg) => s.(queue := s.queue + [msg], posted := s.posted + [msg])
    case PostNowait(msg) =>
      s.(queue := Last(s.queue + [msg], s.capacity),
         overruns := s.overruns + (if |s.queue| == s.capacity then 1 else 0),
         posted := s.posted + [msg],
         gone := if |s.queue| == s.capacity then s.gone + [Overrun((s.queue + [msg])[0])] else s.gone)
    case Destroy => s.(owner := Posting(0))
    case SendTerminate =>
      s.(queue := s.queue + [Terminate], posted := s.posted + [Terminate], owner := Posting(s.owner.sent + 1))
    case Dequeue(w) =>
      s.(queue := s.queue[1..], gone := s.gone + [Taken(s.queue[0], w)], workers := s.workers[w := Handling(s.queue[0])])
    case Timeout(w) => s
    case Handle(w) => s.(workers := s.workers[w := if s.workers[w].msg == Terminate then Exited else Polling])
    case Join =>
      (match s.owner
       case Posting(_) => s.(owner := Joining(0))
       case Joining(k) => s.(owner := if k >= |s.workers| then Destroyed else Joining(k + 1))
       case _ => s)
  }

  function Initial(capacity: nat, threads: nat): State {
    State([], capacity, 0, seq(threads, i => Polling), Using, [], [])
  }

  // ----- invariants ---------------------------------------------------------------------------------------

  function Messages(gone: seq<Gone>): (ms: seq<Msg>)
    ensures |ms| == |gone|
  {
    if gone == [] then [] else Messages(gone[..|gone| - 1]) + [gone[|gone| - 1].msg]
  }

  /** The messages the workers took, in order. */
  function TakenOf(gone: seq<Gone>): seq<Msg> {
    if gone == [] then []
    else
      var last := gone[|gone| - 1];
      TakenOf(gone[..|gone| - 1]) + if last.Taken? then [last.msg] else []
  }

  function OverrunOf(gone: seq<Gone>): seq<Msg> {
    if gone == [] then []
    else
      var last := gone[|gone| - 1];
      OverrunOf(gone[..|gone| - 1]) + if last.Overrun? then [last.msg] else []
  }

  /** The terminate messages that worker `w` took. */
  function TerminatesBy(gone: seq<Gone>, w: nat): nat {
    if gone == [] then 0
    else TerminatesBy(gone[..|gone| - 1], w) + if gone[|gone| - 1] == Taken(Terminate, w) then 1 else 0
  }

  function Terminates(ms: seq<Msg>): nat {
    if ms == [] then 0 else Terminates(ms[..|ms| - 1]) + if ms[|ms| - 1] == Terminate then 1 else 0
  }

  function TookTerminate(w: Worker): nat {
    if w == Exited || w == Handling(Terminate) then 1 else 0
  }

  function Leaving(workers: seq<Worker>): nat {
    if workers == [] then 0 else Leaving(workers[..|workers| - 1]) + TookTerminate(workers[|workers| - 1])
  }

  function Sent(s: State): nat {
    match s.owner
    case Using => 0
    case Posting(k) => k
    case _ => |s.workers|
  }

  /** Terminate messages come last. */
  ghost predicate TerminatesLast(ms: seq<Msg>) {
    forall i, j :: 0 <= i < j < |ms| && ms[i] == Terminate ==> ms[j] == Terminate
  }

  ghost predicate Inv(s: State) {
    && |s.queue| <= s.capacity
    && s.posted == Messages(s.gone) + s.queue
    && s.overruns == |OverrunOf(s.gone)|
    && Terminates(s.posted) == Sent(s) && TerminatesLast(s.posted)
    && Terminates(OverrunOf(s.gone)) == 0
    && Terminates(TakenOf(s.gone)) == Leaving(s.workers)
    && (forall w :: 0 <= w < |s.workers| ==> TerminatesBy(s.gone, w) == TookTerminate(s.workers[w]))
    && (s.owner.Posting? ==> s.owner.sent <= |s.workers|)
    && (s.owner.Joining? ==> s.owner.joined <= |s.workers| && AllExited(s.workers, s.owner.joined))
    && (s.owner == Destroyed ==> AllExited(s.workers, |s.workers|))
  }

  ghost predicate AllExited(workers: seq<Worker>, n: nat)
    requires n <= |workers|
  {
    forall w :: 0 <= w < n ==> workers[w] == Exited
  }

  lemma {:induction false} TerminatesAppend(a: seq<Msg>, b: seq<Msg>)
    ensures Terminates(a + b) == Terminates(a) + Terminates(b)
  {
    if b == [] {
      assert a + b == a;
    } else {
      assert (a + b)[..|a + b| - 1] == a + b[..|b| - 1];
      TerminatesAppend(a, b[..|b| - 1]);
    }
  }

  lemma {:induction false} NoTerminates(ms: seq<Msg>)
    ensures Terminates(ms) == 0 <==> forall i :: 0 <= i < |ms| ==> ms[i] != Terminate
  {
    if ms != [] {
      NoTerminates(ms[..|ms| - 1]);
    }
  }

  lemma {:induction false} GoneAccounts(gone: seq<Gone>)
    ensures Terminates(Messages(gone)) == Terminates(TakenOf(gone)) + Terminates(OverrunOf(gone))
    ensures OverrunOf(gone) == [] ==> TakenOf(gone) == Messages(gone)
    ensures |TakenOf(gone)| + |OverrunOf(gone)| == |gone|
  {
    if gone != [] {
      var front, last := gone[..|gone| - 1], gone[|gone| - 1];
      GoneAccounts(front);
      TerminatesAppend(Messages(front), [last.msg]);
      TerminatesAppend(TakenOf(front), if last.Taken? then [last.msg] else []);
      TerminatesAppend(OverrunOf(front), if last.Overrun? then [last.msg] else []);
    }
  }

  lemma GoneAppend(gone: seq<Gone>, g: Gone)
    ensures Messages(gone + [g]) == Messages(gone) + [g.msg]
    ensures TakenOf(gone + [g]) == TakenOf(gone) + if g.Taken? then [g.msg] else []
    ensures OverrunOf(gone + [g]) == OverrunOf(gone) + if g.Overrun? then [g.msg] else []
    ensures forall w :: TerminatesBy(gone + [g], w) == TerminatesBy(gone, w) + if g == Taken(Terminate, w) then 1 else 0
  {
    assert (gone + [g])[..|gone|] == gone;
  }

  lemma {:induction false} LeavingUpdate(workers: seq<Worker>, w: nat, x: Worker)
    requires w < |workers|
    ensures Leaving(workers[w := x]) + TookTerminate(workers[w]) == Leaving(workers) + TookTerminate(x)
  {
    var n := |workers| - 1;
    if w == n {
      assert workers[w := x][..n] == workers[..n];
    } else {
      assert workers[w := x][..n] == workers[..n][w := x];
      LeavingUpdate(workers[..n], w, x);
    }
  }

  lemma {:induction false} AllLeft(workers: seq<Worker>)
    requires AllExited(workers, |workers|)
    ensures Leaving(workers) == |workers|
  {
    if workers != [] {
      AllLeft(workers[..|workers| - 1]);
    }
  }

  lemma {:induction false} NobodyLeft(workers: seq<Worker>)
    requires forall w :: 0 <= w < |workers| ==> workers[w] == Polling
    ensures Leaving(workers) == 0
  {
    if workers != [] {
      NobodyLeft(workers[..|workers| - 1]);
    }
  }

  lemma InitialInv(capacity: nat, threads: nat)
    ensures Inv(Initial(capacity, threads))
  {
    NobodyLeft(Initial(capacity, threads).workers);
  }

  // ----- every step keeps the invariant ------------------------------------------------------------------------

  lemma OneTerminate(m: Msg)
    ensures Terminates([m]) == if m == Terminate then 1 else 0
  {
    assert [m][..0] == [];
  }

  lemma Enqueued(posted: seq<Msg>, before: seq<Msg>, queue: seq<Msg>, msg: Msg)
    requires posted == before + queue
    ensures posted + [msg] == before + (queue + [msg])
  {
  }

  lemma PostKeepsInv(s: State, msg: Msg)
    requires Inv(s) && Enabled(s, Post(msg))
    ensures Inv(Apply(s, Post(msg)))
  {
    hide Terminates, TerminatesBy, Messages, OverrunOf, TakenOf, Leaving;
    TerminatesAppend(s.posted, [msg]);
    OneTerminate(msg);
    NoTerminates(s.posted);
    Enqueued(s.posted, Messages(s.gone), s.queue, msg);
  }

  lemma SendTerminateKeepsInv(s: State)
    requires Inv(s) && Enabled(s, SendTerminate)
    ensures Inv(Apply(s, SendTerminate))
  {
    hide Terminates, TerminatesBy, Messages, OverrunOf, TakenOf, Leaving;
    TerminatesAppend(s.posted, [Terminate]);
    OneTerminate(Terminate);
    Enqueued(s.posted, Messages(s.gone), s.queue, Terminate);
  }

  lemma Overran(posted: seq<Msg>, before: seq<Msg>, queue: seq<Msg>, msg: Msg)
    requires posted == before + queue
    ensures posted + [msg] == (before + [(queue + [msg])[0]]) + (queue + [msg])[1..]
  {
  }

  lemma PostNowaitKeepsInv(s: State, msg: Msg)
    requires Inv(s) && Enabled(s, PostNowait(msg))
    ensures Inv(Apply(s, PostNowait(msg)))
  {
    hide Terminates, TerminatesBy, Messages, OverrunOf, TakenOf, Leaving;
    TerminatesAppend(s.posted, [msg]);
    OneTerminate(msg);
    NoTerminates(s.posted);
    Enqueued(s.posted, Messages(s.gone), s.queue, msg);
    if |s.queue| == s.capacity {
      var oldest := (s.queue + [msg])[0];
      Overran(s.posted, Messages(s.gone), s.queue, msg);
      GoneAppend(s.gone, Overrun(oldest));
      TerminatesAppend(OverrunOf(s.gone), [oldest]);
      OneTerminate(oldest);
      assert s.queue != [] ==> oldest == s.posted[|Messages(s.gone)|];
      assert TakenOf(s.gone) + [] == TakenOf(s.gone);
    }
  }

  lemma DequeueKeepsInv(s: State, w: nat)
    requires Inv(s) && Enabled(s, Dequeue(w))
    ensures Inv(Apply(s, Dequeue(w)))
  {
    hide Terminates, TerminatesBy, Messages, OverrunOf, TakenOf, Leaving;
    var msg := s.queue[0];
    GoneAppend(s.gone, Taken(msg, w));
    TerminatesAppend(TakenOf(s.gone), [msg]);
    OneTerminate(msg);
    LeavingUpdate(s.workers, w, Handling(msg));
    assert s.posted == (Messages(s.gone) + [msg]) + s.queue[1..];
    assert OverrunOf(s.gone) + [] == OverrunOf(s.gone);
  }

  lemma HandleKeepsInv(s: State, w: nat)
    requires Inv(s) && Enabled(s, Handle(w))
    ensures Inv(Apply(s, Handle(w)))
  {
    hide Terminates, TerminatesBy, Messages, OverrunOf, TakenOf, Leaving;
    LeavingUpdate(s.workers, w, if s.workers[w].msg == Terminate then Exited else Polling);
  }

  lemma OwnerKeepsInv(s: State, l: Label)
    requires Inv(s) && Enabled(s, l) && (l.Destroy? || l.Join? || l.Timeout?)
    ensures Inv(Apply(s, l))
  {
    hide Terminates, TerminatesBy, Messages, OverrunOf, TakenOf, Leaving;
  }

  lemma StepKeepsInv(s: State, l: Label)
    requires Inv(s) && Enabled(s, l)
    ensures Inv(Apply(s, l)) && |Apply(s, l).workers| == |s.workers|
  {
    match l
    case Post(msg) => PostKeepsInv(s, msg);
    case PostNowait(msg) => PostNowaitKeepsInv(s, msg);
    case SendTerminate => SendTerminateKeepsInv(s);
    case Dequeue(w) => DequeueKeepsInv(s, w);
    case Handle(w) => HandleKeepsInv(s, w);
    case Destroy => OwnerKeepsInv(s, l);
    case Join => OwnerKeepsInv(s, l);
    case Timeout(w) => OwnerKeepsInv(s, l);
  }

  // ----- whole runs ---------------------------------------------------------------------------------------------

  /** The state after a run, when every step of it was enabled. */
  function After(s: State, ls: seq<Label>): Option<State> {
    if ls == [] then Some(s)
    else
      var before := After(s, ls[..|ls| - 1]);
      if before.Some? && Enabled(before.value, ls[|ls| - 1]) then Some(Apply(before.value, ls[|ls| - 1])) else None
  }

  lemma {:induction false} RunKeepsInv(s: State, ls: seq<Label>)
    requires Inv(s) && After(s, ls).Some?
    ensures Inv(After(s, ls).value) && |After(s, ls).value.workers| == |s.workers|
  {
    hide Inv, Enabled;
    if ls != [] {
      RunKeepsInv(s, ls[..|ls| - 1]);
      StepKeepsInv(After(s, ls[..|ls| - 1]).value, ls[|ls| - 1]);
    }
  }

  /** Terminate messages are last, so when all are gone, everything is. */
  lemma AllGone(s: State)
    requires Inv(s) && s.owner == Destroyed && s.workers != []
    ensures s.queue == [] && Terminates(TakenOf(s.gone)) == |s.workers|
  {
    hide Terminates, TerminatesBy, Messages, OverrunOf, TakenOf, Leaving;
    AllLeft(s.workers);
    GoneAccounts(s.gone);
    TerminatesAppend(Messages(s.gone), s.queue);
    NoTerminates(s.queue);
    if s.queue != [] {
      FirstAfterTerminates(Messages(s.gone), s.queue);
    }
  }

  lemma FirstAfterTerminates(a: seq<Msg>, b: seq<Msg>)
    requires TerminatesLast(a + b) && Terminates(a) > 0 && b != []
    ensures b[0] == Terminate
  {
    NoTerminates(a);
    var i :| 0 <= i < |a| && a[i] == Terminate;
    assert (a + b)[i] == Terminate && (a + b)[|a|] == b[0];
  }

  /** In every run, when the destructor is through: the queue is empty, each worker has taken exactly one terminate
      message, and the messages taken and those overrun make up those posted, in order; no terminate message was
      overrun. */
  lemma PoolDrains(capacity: nat, threads: nat, ls: seq<Label>)
    requires threads > 0 && After(Initial(capacity, threads), ls).Some?
    requires After(Initial(capacity, threads), ls).value.owner == Destroyed
    ensures var s := After(Initial(capacity, threads), ls).value;
            && s.queue == [] && s.posted == Messages(s.gone) && AllExited(s.workers, |s.workers|)
            && (forall w :: 0 <= w < threads ==> TerminatesBy(s.gone, w) == 1)
            && Terminates(TakenOf(s.gone)) == threads && Terminates(OverrunOf(s.gone)) == 0
            && |TakenOf(s.gone)| + s.overruns == |s.posted|
  {
    hide Enabled, Apply, After, Terminates, TerminatesBy, Messages, OverrunOf, TakenOf, Leaving;
    InitialInv(capacity, threads);
    RunKeepsInv(Initial(capacity, threads), ls);
    var s := After(Initial(capacity, threads), ls).value;
    AllGone(s);
    GoneAccounts(s.gone);
    assert Messages(s.gone) + [] == Messages(s.gone);
  }

  ghost predicate BlockingOnly(ls: seq<Label>) {
    forall i :: 0 <= i < |ls| ==> !ls[i].PostNowait?
  }

  lemma {:induction false} BlockingNeverOverruns(s: State, ls: seq<Label>)
    requires BlockingOnly(ls) && After(s, ls).Some?
    ensures After(s, ls).value.overruns == s.overruns
  {
    hide Enabled;
    if ls != [] {
      BlockingNeverOverruns(s, ls[..|ls| - 1]);
      assert !ls[|ls| - 1].PostNowait?;
    }
  }

  /** With blocking posts only, nothing is overrun and the messages taken are exactly those posted, in order. */
  lemma BlockingPoolTakesAll(capacity: nat, threads: nat, ls: seq<Label>)
    requires threads > 0 && BlockingOnly(ls) && After(Initial(capacity, threads), ls).Some?
    requires After(Initial(capacity, threads), ls).value.owner == Destroyed
    ensures var s := After(Initial(capacity, threads), ls).value;
            s.queue == [] && s.overruns == 0 && TakenOf(s.gone) == s.posted && Terminates(TakenOf(s.gone)) == threads
  {
    hide Enabled, Apply, After, Terminates, TerminatesBy, Messages, OverrunOf, TakenOf, Leaving;
    PoolDrains(capacity, threads, ls);
    BlockingNeverOverruns(Initial(capacity, threads), ls);
    InitialInv(capacity, threads);
    RunKeepsInv(Initial(capacity, threads), ls);
    GoneAccounts(After(Initial(capacity, threads), ls).value.gone);
  }

  // ----- does the destructor get through? -----------------------------------------------------------------------

  function Handled(w: Worker): nat {
    if w.Handling? then 1 else 0
  }

  function AtWork(workers: seq<Worker>): nat {
    if workers == [] then 0 else AtWork(workers[..|workers| - 1]) + Handled(workers[|workers| - 1])
  }

  /** How many steps the destructor is away from its end. */
  function StepsLeft(s: State): nat {
    2 * |s.queue| + AtWork(s.workers)
    + match s.owner
      case Using => 4 * |s.workers| + 3
      case Posting(k) => (if k < |s.workers| then 3 * (|s.workers| - k) else 0) + |s.workers| + 2
      case Joining(k) => (if k < |s.workers| then |s.workers| - k else 0) + 1
      case Destroyed => 0
  }

  lemma {:induction false} AtWorkUpdate(workers: seq<Worker>, w: nat, x: Worker)
    requires w < |workers|
    ensures AtWork(workers[w := x]) + Handled(workers[w]) == AtWork(workers) + Handled(x)
  {
    var n := |workers| - 1;
    if w == n {
      assert workers[w := x][..n] == workers[..n];
    } else {
      assert workers[w := x][..n] == workers[..n][w := x];
      AtWorkUpdate(workers[..n], w, x);
    }
  }

  predicate InDestructor(s: State) {
    s.owner != Using
  }

  /** In the destructor every step but a wait that times out brings the end nearer. */
  lemma StepsCount(s: State, l: Label)
    requires InDestructor(s) && Enabled(s, l) && !l.Timeout?
    ensures InDestructor(Apply(s, l)) && StepsLeft(Apply(s, l)) < StepsLeft(s)
  {
    hide AtWork;
    match l
    case Dequeue(w) => AtWorkUpdate(s.workers, w, Handling(s.queue[0]));
    case Handle(w) => AtWorkUpdate(s.workers, w, if s.workers[w].msg == Terminate then Exited else Polling);
    case SendTerminate =>
    case Join =>
  }

  lemma {:induction false} SomeoneStays(workers: seq<Worker>) returns (w: nat)
    requires Leaving(workers) < |workers|
    ensures w < |workers| && TookTerminate(workers[w]) == 0
  {
    if TookTerminate(workers[|workers| - 1]) == 0 {
      w := |workers| - 1;
    } else {
      w := SomeoneStays(workers[..|workers| - 1]);
    }
  }

  lemma {:induction false} LeavingAtMost(workers: seq<Worker>)
    ensures Leaving(workers) <= |workers|
    ensures Leaving(workers) == |workers| ==> forall w :: 0 <= w < |workers| ==> TookTerminate(workers[w]) == 1
  {
    if workers != [] {
      LeavingAtMost(workers[..|workers| - 1]);
    }
  }

  /** A worker that has not taken its terminate message and is not handling another can take the next message. */
  lemma WorkerStep(s: State, w: nat) returns (l: Label)
    requires w < |s.workers| && s.workers[w] != Exited && (s.workers[w] == Polling ==> s.queue != [])
    ensures Enabled(s, l) && !l.Timeout?
  {
    l := if s.workers[w] == Polling then Dequeue(w) else Handle(w);
  }

  /** While the destructor is not through, some other step than a wait that times out is possible, if there is room. */
  lemma CanGoOn(s: State) returns (l: Label)
    requires Inv(s) && InDestructor(s) && s.owner != Destroyed && s.capacity > 0
    ensures Enabled(s, l) && !l.Timeout?
  {
    hide Terminates, TerminatesBy, Messages, OverrunOf, TakenOf, Leaving;
    GoneAccounts(s.gone);
    TerminatesAppend(Messages(s.gone), s.queue);
    if s.owner.Posting? {
      if s.owner.sent >= |s.workers| {
        l := Join;
      } else if |s.queue| < s.capacity {
        l := SendTerminate;
      } else {
        var w := SomeoneStays(s.workers);
        l := WorkerStep(s, w);
      }
    } else {
      var k := s.owner.joined;
      if k >= |s.workers| || s.workers[k] == Exited {
        l := Join;
      } else {
        if s.queue == [] {
          NoTerminates(s.queue);
          LeavingAtMost(s.workers);
        }
        l := WorkerStep(s, k);
      }
    }
  }

  lemma AfterStep(s: State, l: Label, ls: seq<Label>)
    requires Enabled(s, l) && After(Apply(s, l), ls).Some?
    ensures After(s, [l] + ls) == After(Apply(s, l), ls)
    decreases |ls|
  {
    hide Enabled, Apply;
    if ls == [] {
      assert [l] + ls == [l];
      assert [l][..0] == [];
    } else {
      var front := ls[..|ls| - 1];
      AfterStep(s, l, front);
      assert ([l] + ls)[..|ls|] == [l] + front;
    }
  }

  /** With room, some run leads to the end of the destructor. */
  lemma {:induction false} RoomLetsItEnd(s: State) returns (ls: seq<Label>)
    requires Inv(s) && InDestructor(s) && s.capacity > 0
    ensures After(s, ls).Some? && After(s, ls).value.owner == Destroyed
    decreases StepsLeft(s)
  {
    hide Inv, Enabled, Apply, StepsLeft;
    if s.owner == Destroyed {
      ls := [];
    } else {
      var l := CanGoOn(s);
      StepKeepsInv(s, l);
      StepsCount(s, l);
      SameCapacity(s, l);
      var rest := RoomLetsItEnd(Apply(s, l));
      AfterStep(s, l, rest);
      ls := [l] + rest;
    }
  }

  lemma SameCapacity(s: State, l: Label)
    requires Enabled(s, l)
    ensures Apply(s, l).capacity == s.capacity
  {
  }

  function Moves(ls: seq<Label>): nat {
    if ls == [] then 0 else Moves(ls[..|ls| - 1]) + if ls[|ls| - 1].Timeout? then 0 else 1
  }

  /** No run of the destructor can put off the end: the steps that are no timed-out waits are bounded, and where none is
      possible the destructor is through. */
  lemma {:induction false} RunsAreBounded(s: State, ls: seq<Label>)
    requires InDestructor(s) && After(s, ls).Some?
    ensures InDestructor(After(s, ls).value) && Moves(ls) + StepsLeft(After(s, ls).value) <= StepsLeft(s)
  {
    hide Enabled, Apply, StepsLeft, InDestructor;
    if ls != [] {
      var front, l := ls[..|ls| - 1], ls[|ls| - 1];
      RunsAreBounded(s, front);
      if l.Timeout? {
        TimeoutChangesNothing(After(s, front).value, l);
      } else {
        StepsCount(After(s, front).value, l);
      }
    }
  }

  lemma TimeoutChangesNothing(s: State, l: Label)
    requires Enabled(s, l) && l.Timeout?
    ensures Apply(s, l) == s
  {
  }

  /** Without room no terminate message is ever sent. */
  lemma {:induction false} NoRoomNeverEnds(s: State, ls: seq<Label>)
    requires Inv(s) && s.capacity == 0 && s.owner == Posting(0) && s.workers != [] && After(s, ls).Some?
    ensures After(s, ls).value.owner == Posting(0) && After(s, ls).value.capacity == 0
    ensures |After(s, ls).value.workers| == |s.workers|
  {
    hide Inv;
    if ls != [] {
      NoRoomNeverEnds(s, ls[..|ls| - 1]);
    }
  }

  ghost predicate Reachable(capacity: nat, threads: nat, s: State) {
    exists ls :: After(Initial(capacity, threads), ls) == Some(s)
  }

  lemma ReachableInv(capacity: nat, threads: nat, s: State)
    requires Reachable(capacity, threads, s)
    ensures Inv(s) && |s.workers| == threads && s.capacity == capacity
  {
    hide Inv, Enabled, Apply, After;
    var ls :| After(Initial(capacity, threads), ls) == Some(s);
    InitialInv(capacity, threads);
    RunKeepsInv(Initial(capacity, threads), ls);
    RunKeepsCapacity(Initial(capacity, threads), ls);
  }

  lemma {:induction false} RunKeepsCapacity(s: State, ls: seq<Label>)
    requires After(s, ls).Some?
    ensures After(s, ls).value.capacity == s.capacity
  {
    hide Enabled, Apply;
    if ls != [] {
      RunKeepsCapacity(s, ls[..|ls| - 1]);
      SameCapacity(After(s, ls[..|ls| - 1]).value, ls[|ls| - 1]);
    }
  }

  /** From the start of the destructor a run reaches its end if and only if the queue has room. */
  lemma DestructorEndsWithRoom(capacity: nat, threads: nat, s: State)
    requires threads > 0 && Reachable(capacity, threads, s) && s.owner == Posting(0)
    ensures (exists ls :: After(s, ls).Some? && After(s, ls).value.owner == Destroyed) <==> capacity > 0
  {
    hide Inv, Enabled, Apply, After, Reachable;
    ReachableInv(capacity, threads, s);
    if capacity > 0 {
      var ls := RoomLetsItEnd(s);
    } else {
      forall ls | After(s, ls).Some? ensures After(s, ls).value.owner != Destroyed {
        NoRoomNeverEnds(s, ls);
      }
    }
  }

  /** With room no run of the destructor can get stuck or go on for ever: it makes at most so many steps besides waits
      that time out, and as long as it is not through, another such step is possible. */
  lemma DestructorAlwaysEnds(capacity: nat, threads: nat, s: State, ls: seq<Label>)
    requires capacity > 0 && Reachable(capacity, threads, s) && InDestructor(s) && After(s, ls).Some?
    ensures Moves(ls) <= StepsLeft(s)
    ensures After(s, ls).value.owner != Destroyed ==> exists l :: Enabled(After(s, ls).value, l) && !l.Timeout?
  {
    hide Inv, Enabled, Apply, After, StepsLeft, Reachable, Moves, InDestructor;
    ReachableInv(capacity, threads, s);
    RunsAreBounded(s, ls);
    RunKeepsInv(s, ls);
    RunKeepsCapacity(s, ls);
    if After(s, ls).value.owner != Destroyed {
      var l := CanGoOn(After(s, ls).value);
    }
  }
}
