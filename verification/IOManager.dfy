/** `IOManager`: one-shot event registrations per descriptor, and the kernel's interest set beside them. */
module IOManager {
  import opened Bytes

  datatype Event = READ | WRITE

  datatype Work = RunFiber(fiber: nat) | Call(cb: nat)

  /** What is scheduled when an event triggers: on which scheduler, and which work. */
  datatype Handler = Handler(scheduler: nat, work: Work)

  /** An `EventContext`; a ticket numbers the registrations. */
  datatype EventContext = Empty | Filled(handler: Handler, ticket: nat) {
    predicate Holds(t: nat) {
      Filled? && ticket == t
    }
  }

  datatype Outcome = Triggered | Deleted

  // ----- the bookkeeping, as a value ------------------------------------------------------------------------

  datatype FdState = FdState(events: set<Event>, read: EventContext, write: EventContext) {
    function Context(e: Event): EventContext {
      if e == READ then read else write
    }

    function With(e: Event, c: EventContext): FdState {
      var on := if c.Empty? then events - {e} else events + {e};
      if e == READ then FdState(on, c, write) else FdState(on, read, c)
    }
  }

  const NO_EVENTS: FdState := FdState({}, Empty, Empty)

  datatype Place = Place(fd: nat, event: Event)

  /** The descriptors' contexts, the pending count, the kernel's interest set, the entries scheduled, the
      tickets issued, where the live ones are, and what became of the others; the handler given with each ticket,
      and the tickets triggered, in order. */
  datatype Book = Book(
    fds: seq<FdState>,
    pending: int,
    kernel: map<nat, set<Event>>,
    queue: seq<Handler>,
    issued: nat,
    live: map<nat, Place>,
    ended: map<nat, Outcome>,
    given: seq<Handler>,
    woken: seq<nat>)

  datatype Op = Add | Mod | Del

  predicate Legal(op: Op, kernel: map<nat, set<Event>>, fd: nat) {
    op == Add <==> fd !in kernel
  }

  function EpollCtl(op: Op, kernel: map<nat, set<Event>>, fd: nat, events: set<Event>): map<nat, set<Event>> {
    if op == Del then kernel - {fd} else kernel[fd := events]
  }

  /** The number of events registered, over all descriptors. */
  function Total(fds: seq<FdState>): nat {
    if fds == [] then 0 else Total(fds[..|fds| - 1]) + |fds[|fds| - 1].events|
  }

  /** A bit is set exactly when its context is filled. */
  ghost predicate Consistent(f: FdState) {
    forall e :: e in f.events <==> f.Context(e).Filled?
  }

  ghost predicate AllConsistent(fds: seq<FdState>) {
    forall i :: 0 <= i < |fds| ==> Consistent(fds[i])
  }

  /** The kernel watches exactly the descriptors with events, for exactly those events. */
  ghost predicate Mirrored(kernel: map<nat, set<Event>>, fds: seq<FdState>) {
    && (forall fd :: fd in kernel ==> fd < |fds| && kernel[fd] == fds[fd].events)
    && (forall fd :: 0 <= fd < |fds| ==> (fd in kernel <==> fds[fd].events != {}))
  }

  /** A live ticket is in the one context where it is said to be. */
  ghost predicate Placed(fds: seq<FdState>, live: map<nat, Place>) {
    && (forall t :: t in live ==> live[t].fd < |fds| && fds[live[t].fd].Context(live[t].event).Holds(t))
    && (forall i, e, t :: 0 <= i < |fds| && fds[i].Context(e).Holds(t) ==> t in live && live[t] == Place(i, e))
  }

  /** Every ticket issued is live, or has an outcome, and not both. */
  ghost predicate Accounted(issued: nat, live: map<nat, Place>, ended: map<nat, Outcome>) {
    && (forall t: nat :: t < issued <==> t in live || t in ended)
    && (forall t :: t in live ==> t !in ended)
  }

  /** As many registrations are pending as tickets are live; no ticket is lost. */
  ghost predicate Counted(b: Book) {
    b.pending == |b.live| && b.issued == |b.live| + |b.ended|
  }

  /** A filled context has the handler that was given with its ticket. */
  ghost predicate Matched(fds: seq<FdState>, given: seq<Handler>, issued: nat) {
    && |given| == issued
    && forall i, e :: 0 <= i < |fds| && fds[i].Context(e).Filled? ==>
         fds[i].Context(e).ticket < issued && given[fds[i].Context(e).ticket] == fds[i].Context(e).handler
  }

  /** The entries scheduled are the handlers of the tickets triggered, one for each, in order. */
  ghost predicate Answered(queue: seq<Handler>, given: seq<Handler>, woken: seq<nat>, ended: map<nat, Outcome>) {
    && |queue| == |woken|
    && (forall i :: 0 <= i < |woken| ==> woken[i] < |given| && queue[i] == given[woken[i]])
    && (forall i, j :: 0 <= i < j < |woken| ==> woken[i] != woken[j])
    && (forall t :: t in woken <==> t in ended && ended[t] == Triggered)
  }

  /** From one state to a later one: no outcome changes, and nothing scheduled is taken back. */
  ghost predicate Settled(b: Book, c: Book) {
    && (forall t :: t in b.ended ==> t in c.ended && c.ended[t] == b.ended[t])
    && b.queue <= c.queue
  }

  lemma SettledAlready(b: Book)
    ensures Settled(b, b)
    ensures forall c, d :: Settled(b, c) && Settled(c, d) ==> Settled(b, d)
  {
  }

  /** What holds whatever the kernel has been told. */
  ghost predicate Sound(b: Book) {
    && |b.fds| >= 32 && AllConsistent(b.fds) && b.pending == Total(b.fds) && Counted(b)
    && Placed(b.fds, b.live) && Accounted(b.issued, b.live, b.ended)
    && Matched(b.fds, b.given, b.issued) && Answered(b.queue, b.given, b.woken, b.ended)
  }

  ghost predicate Inv(b: Book) {
    Sound(b) && Mirrored(b.kernel, b.fds)
  }

  // ----- the operations, on the value ------------------------------------------------------------------------

  function Padding(n: nat): seq<FdState> {
    seq(n, i => NO_EVENTS)
  }

  /** `contextResize`. */
  function Grown(b: Book, size: nat): Book {
    if size <= |b.fds| then b.(fds := b.fds[..size]) else b.(fds := b.fds + Padding(size - |b.fds|))
  }

  /** The bookkeeping with room for the descriptor. */
  function Reserved(b: Book, fd: nat): (r: Book)
    ensures |b.fds| >= 32 ==> fd < |r.fds|
  {
    if |b.fds| > fd then b else Grown(b, fd + fd / 2)
  }

  predicate Has(b: Book, fd: nat, e: Event) {
    fd < |b.fds| && e in b.fds[fd].events
  }

  function Added(b: Book, fd: nat, e: Event, h: Handler): Book
    requires fd < |b.fds|
  {
    var f := b.fds[fd];
    b.(fds := b.fds[fd := f.With(e, Filled(h, b.issued))],
       pending := b.pending + 1,
       kernel := EpollCtl(if f.events != {} then Mod else Add, b.kernel, fd, f.events + {e}),
       issued := b.issued + 1,
       live := b.live[b.issued := Place(fd, e)],
       given := b.given + [h])
  }

  /** The event is no longer registered; its ticket has an outcome. */
  function Ended(b: Book, fd: nat, e: Event, outcome: Outcome): Book
    requires fd < |b.fds| && b.fds[fd].Context(e).Filled?
  {
    var f := b.fds[fd];
    var c := f.Context(e);
    b.(fds := b.fds[fd := f.With(e, Empty)],
       pending := b.pending - 1,
       queue := if outcome == Triggered then b.queue + [c.handler] else b.queue,
       live := b.live - {c.ticket},
       ended := b.ended[c.ticket := outcome],
       woken := if outcome == Triggered then b.woken + [c.ticket] else b.woken)
  }

  function Watching(b: Book, fd: nat, left: set<Event>): Book {
    b.(kernel := EpollCtl(if left != {} then Mod else Del, b.kernel, fd, left))
  }

  /** `delEvent` and `cancelEvent`, which differ in the outcome. */
  function EndedOne(b: Book, fd: nat, e: Event, outcome: Outcome): Book
    requires Has(b, fd, e) && Consistent(b.fds[fd])
  {
    Ended(Watching(b, fd, b.fds[fd].events - {e}), fd, e, outcome)
  }

  /** Those of the events that are registered trigger, reading first. */
  function TriggeredAll(b: Book, fd: nat, events: set<Event>): Book
    requires fd < |b.fds| && Consistent(b.fds[fd]) && events <= b.fds[fd].events
  {
    var b0 := Watching(b, fd, b.fds[fd].events - events);
    TriggeredIf(TriggeredIf(b0, fd, READ, READ in events), fd, WRITE, WRITE in events)
  }

  function TriggeredIf(b: Book, fd: nat, e: Event, happened: bool): Book
    requires fd < |b.fds| && (happened ==> b.fds[fd].Context(e).Filled?)
  {
    if happened then Ended(b, fd, e, Triggered) else b
  }

  // ----- the invariant is kept -----------------------------------------------------------------------------

  lemma {:induction false} TotalUpdate(fds: seq<FdState>, i: nat, f: FdState)
    requires i < |fds|
    ensures Total(fds[i := f]) + |fds[i].events| == Total(fds) + |f.events|
  {
    var n := |fds| - 1;
    if i == n {
      assert fds[i := f][..n] == fds[..n];
    } else {
      assert fds[i := f][..n] == fds[..n][i := f];
      TotalUpdate(fds[..n], i, f);
    }
  }

  lemma {:induction false} TotalPadding(fds: seq<FdState>, n: nat)
    ensures Total(fds + Padding(n)) == Total(fds)
  {
    if n == 0 {
      assert fds + Padding(0) == fds;
    } else {
      var all := fds + Padding(n);
      assert all[..|all| - 1] == fds + Padding(n - 1);
      TotalPadding(fds, n - 1);
    }
  }

  lemma PaddedConsistent(fds: seq<FdState>, n: nat)
    requires AllConsistent(fds)
    ensures AllConsistent(fds + Padding(n))
  {
  }

  lemma PaddedPlaced(fds: seq<FdState>, live: map<nat, Place>, n: nat)
    requires Placed(fds, live)
    ensures Placed(fds + Padding(n), live)
  {
    var padded := fds + Padding(n);
    assert forall i :: 0 <= i < |fds| ==> padded[i] == fds[i];
    assert forall i :: |fds| <= i < |padded| ==> padded[i] == NO_EVENTS;
  }

  lemma PaddedMatched(fds: seq<FdState>, given: seq<Handler>, issued: nat, n: nat)
    requires Matched(fds, given, issued)
    ensures Matched(fds + Padding(n), given, issued)
  {
  }

  lemma PaddedMirrored(kernel: map<nat, set<Event>>, fds: seq<FdState>, n: nat)
    requires Mirrored(kernel, fds)
    ensures Mirrored(kernel, fds + Padding(n))
  {
  }

  lemma InitialInv()
    ensures Inv(Book(Padding(32), 0, map[], [], 0, map[], map[], [], []))
  {
    hide Total, Placed, Mirrored, AllConsistent, Matched;
    NothingYet();
    PaddedMatched([], [], 0, 32);
    TotalPadding([], 32);
    PaddedConsistent([], 32);
    PaddedPlaced([], map[], 32);
    PaddedMirrored(map[], [], 32);
    assert [] + Padding(32) == Padding(32);
  }

  lemma NothingYet()
    ensures Total([]) == 0 && Placed([], map[]) && Mirrored(map[], []) && AllConsistent([]) && Matched([], [], 0)
  {
  }

  lemma ReservedKeepsInv(b: Book, fd: nat)
    requires Inv(b)
    ensures Inv(Reserved(b, fd)) && fd < |Reserved(b, fd).fds|
    ensures forall i, e :: Has(Reserved(b, fd), i, e) <==> Has(b, i, e)
    ensures Settled(b, Reserved(b, fd))
  {
    hide Total, Placed, Mirrored, AllConsistent, Accounted, Matched, Answered;
    if |b.fds| <= fd {
      var n := fd + fd / 2 - |b.fds|;
      TotalPadding(b.fds, n);
      PaddedConsistent(b.fds, n);
      PaddedPlaced(b.fds, b.live, n);
      PaddedMatched(b.fds, b.given, b.issued, n);
      PaddedMirrored(b.kernel, b.fds, n);
    }
  }

  lemma WithFacts(f: FdState, e: Event, c: EventContext)
    requires Consistent(f)
    ensures var g := f.With(e, c);
            && Consistent(g) && g.Context(e) == c && (forall d :: d != e ==> g.Context(d) == f.Context(d))
            && g.events == (if c.Empty? then f.events - {e} else f.events + {e})
    ensures e in f.events ==> |f.events - {e}| == |f.events| - 1
    ensures e !in f.events ==> |f.events + {e}| == |f.events| + 1
  {
    var g := f.With(e, c);
    forall d ensures d in g.events <==> g.Context(d).Filled? {
      assert d in f.events <==> f.Context(d).Filled?;
    }
  }

  lemma FillPlaced(fds: seq<FdState>, live: map<nat, Place>, fd: nat, e: Event, c: EventContext)
    requires Placed(fds, live) && fd < |fds| && Consistent(fds[fd])
    requires c.Filled? && fds[fd].Context(e).Empty? && c.ticket !in live
    ensures Placed(fds[fd := fds[fd].With(e, c)], live[c.ticket := Place(fd, e)])
  {
    WithFacts(fds[fd], e, c);
    var f := fds[fd].With(e, c);
    hide Consistent, FdState.With, FdState.Context;
    assert f.Context(e).Holds(c.ticket);
  }

  lemma ClearPlaced(fds: seq<FdState>, live: map<nat, Place>, fd: nat, e: Event)
    requires Placed(fds, live) && fd < |fds| && Consistent(fds[fd]) && fds[fd].Context(e).Filled?
    ensures fds[fd].Context(e).ticket in live
    ensures Placed(fds[fd := fds[fd].With(e, Empty)], live - {fds[fd].Context(e).ticket})
  {
    var t := fds[fd].Context(e).ticket;
    assert fds[fd].Context(e).Holds(t);
    WithFacts(fds[fd], e, Empty);
    hide Consistent, FdState.With, FdState.Context;
  }

  lemma FillMatched(fds: seq<FdState>, given: seq<Handler>, issued: nat, fd: nat, e: Event, h: Handler)
    requires Matched(fds, given, issued) && fd < |fds| && Consistent(fds[fd])
    ensures Matched(fds[fd := fds[fd].With(e, Filled(h, issued))], given + [h], issued + 1)
  {
    WithFacts(fds[fd], e, Filled(h, issued));
    hide Consistent, FdState.With, FdState.Context;
  }

  lemma ClearMatched(fds: seq<FdState>, given: seq<Handler>, issued: nat, fd: nat, e: Event)
    requires Matched(fds, given, issued) && fd < |fds| && Consistent(fds[fd]) && fds[fd].Context(e).Filled?
    ensures fds[fd].Context(e).ticket < |given| && given[fds[fd].Context(e).ticket] == fds[fd].Context(e).handler
    ensures Matched(fds[fd := fds[fd].With(e, Empty)], given, issued)
  {
    WithFacts(fds[fd], e, Empty);
    hide Consistent, FdState.With, FdState.Context;
  }

  lemma MoreGiven(queue: seq<Handler>, given: seq<Handler>, woken: seq<nat>, ended: map<nat, Outcome>, h: Handler)
    requires Answered(queue, given, woken, ended)
    ensures Answered(queue, given + [h], woken, ended)
  {
  }

  /** One more ticket has an outcome: its handler is scheduled once, or never. */
  lemma AnsweredEnd(queue: seq<Handler>, given: seq<Handler>, woken: seq<nat>, ended: map<nat, Outcome>, t: nat)
    requires Answered(queue, given, woken, ended) && t < |given| && t !in ended
    ensures Answered(queue + [given[t]], given, woken + [t], ended[t := Triggered])
    ensures Answered(queue, given, woken, ended[t := Deleted])
  {
    assert t !in woken;
    forall u ensures u in woken + [t] <==> u in ended[t := Triggered] && ended[t := Triggered][u] == Triggered {
      assert u in woken + [t] <==> u in woken || u == t;
    }
  }

  lemma SizeGrows<K, V>(m: map<K, V>, k: K, v: V)
    requires k !in m
    ensures |m[k := v]| == |m| + 1
  {
    assert m[k := v].Keys == m.Keys + {k};
    assert |m[k := v].Keys| == |m.Keys| + 1;
  }

  lemma SizeShrinks<K, V>(m: map<K, V>, k: K)
    requires k in m
    ensures |m - {k}| == |m| - 1
  {
    assert (m - {k}).Keys == m.Keys - {k};
  }

  lemma AccountedIssue(issued: nat, live: map<nat, Place>, ended: map<nat, Outcome>, p: Place)
    requires Accounted(issued, live, ended)
    ensures issued !in live && Accounted(issued + 1, live[issued := p], ended)
  {
  }

  lemma MirroredAdd(kernel: map<nat, set<Event>>, fds: seq<FdState>, fd: nat, f: FdState)
    requires Mirrored(kernel, fds) && fd < |fds| && f.events != {}
    ensures Legal(if fds[fd].events != {} then Mod else Add, kernel, fd)
    ensures Mirrored(kernel[fd := f.events], fds[fd := f])
  {
  }

  lemma MirroredUpdate(kernel: map<nat, set<Event>>, fds: seq<FdState>, fd: nat, f: FdState)
    requires Mirrored(kernel, fds) && fd < |fds|
    ensures Mirrored(EpollCtl(if f.events != {} then Mod else Del, kernel, fd, f.events), fds[fd := f])
  {
  }

  /** Registering an event that is not registered: the kernel call is legal and the context is free. */
  lemma AddedKeepsInv(b: Book, fd: nat, e: Event, h: Handler)
    requires Inv(b) && fd < |b.fds| && !Has(b, fd, e)
    ensures Legal(if b.fds[fd].events != {} then Mod else Add, b.kernel, fd)
    ensures b.fds[fd].Context(e) == Empty
    ensures Inv(Added(b, fd, e, h)) && Settled(b, Added(b, fd, e, h))
  {
    hide Sound, Mirrored, AllConsistent, Consistent, FdState.With, FdState.Context;
    AddedIsSound(b, fd, e, h);
    MirroredAdd(b.kernel, b.fds, fd, b.fds[fd].With(e, Filled(h, b.issued)));
  }

  lemma AddedIsSound(b: Book, fd: nat, e: Event, h: Handler)
    requires Sound(b) && fd < |b.fds| && !Has(b, fd, e)
    ensures b.fds[fd].Context(e) == Empty && Sound(Added(b, fd, e, h))
    ensures b.fds[fd].With(e, Filled(h, b.issued)).events == b.fds[fd].events + {e}
  {
    hide Total, Placed, Accounted, Matched, Answered, Consistent, AllConsistent;
    hide FdState.With, FdState.Context, EpollCtl;
    var c := Filled(h, b.issued);
    var f := b.fds[fd].With(e, c);
    FilledWhenSet(b.fds, fd, e);
    WithFacts(b.fds[fd], e, c);
    TotalUpdate(b.fds, fd, f);
    AccountedIssue(b.issued, b.live, b.ended, Place(fd, e));
    SizeGrows(b.live, b.issued, Place(fd, e));
    FillPlaced(b.fds, b.live, fd, e, c);
    FillMatched(b.fds, b.given, b.issued, fd, e, h);
    MoreGiven(b.queue, b.given, b.woken, b.ended, h);
    StillConsistent(b.fds, fd, f);
  }

  /** Ending one registration keeps everything but the kernel's mirror of that descriptor. */
  lemma EndedKeeps(b: Book, fd: nat, e: Event, outcome: Outcome)
    requires Sound(b) && fd < |b.fds| && e in b.fds[fd].events
    ensures b.fds[fd].Context(e).Filled?
    ensures var b' := Ended(b, fd, e, outcome);
            && Sound(b') && b'.fds == b.fds[fd := b'.fds[fd]] && b'.kernel == b.kernel
            && b'.fds[fd].events == b.fds[fd].events - {e} && Settled(b, b')
  {
    hide Total, Placed, Matched, Answered, AllConsistent, Consistent, FdState.With, FdState.Context;
    FilledWhenSet(b.fds, fd, e);
    WithFacts(b.fds[fd], e, Empty);
    TotalUpdate(b.fds, fd, b.fds[fd].With(e, Empty));
    ClearPlaced(b.fds, b.live, fd, e);
    ClearMatched(b.fds, b.given, b.issued, fd, e);
    AnsweredEnd(b.queue, b.given, b.woken, b.ended, b.fds[fd].Context(e).ticket);
    StillConsistent(b.fds, fd, b.fds[fd].With(e, Empty));
    SizeShrinks(b.live, b.fds[fd].Context(e).ticket);
    SizeGrows(b.ended, b.fds[fd].Context(e).ticket, outcome);
  }

  lemma EndedOneKeepsInv(b: Book, fd: nat, e: Event, outcome: Outcome)
    requires Inv(b) && Has(b, fd, e)
    ensures Consistent(b.fds[fd]) && b.fds[fd].Context(e).Filled?
    ensures Legal(if b.fds[fd].events - {e} != {} then Mod else Del, b.kernel, fd)
    ensures Inv(EndedOne(b, fd, e, outcome)) && Settled(b, EndedOne(b, fd, e, outcome))
  {
    hide Total, Placed, Accounted, Consistent;
    FilledWhenSet(b.fds, fd, e);
    var b' := EndedOne(b, fd, e, outcome);
    EndedKeeps(Watching(b, fd, b.fds[fd].events - {e}), fd, e, outcome);
    MirroredUpdate(b.kernel, b.fds, fd, b'.fds[fd]);
  }

  lemma TriggeredIfKeeps(b: Book, fd: nat, e: Event, happened: bool)
    requires Sound(b) && fd < |b.fds| && (happened ==> e in b.fds[fd].events)
    ensures happened ==> b.fds[fd].Context(e).Filled?
    ensures var b' := TriggeredIf(b, fd, e, happened);
            && Sound(b') && b'.fds == b.fds[fd := b'.fds[fd]] && b'.kernel == b.kernel
            && b'.fds[fd].events == (b.fds[fd].events - if happened then {e} else {}) && Settled(b, b')
  {
    hide Sound, Ended;
    if happened {
      EndedKeeps(b, fd, e, Triggered);
    }
  }

  /** A dispatch or a `cancelAll` ends each of the registrations named, once. */
  lemma TriggeredAllKeepsInv(b: Book, fd: nat, events: set<Event>)
    requires Inv(b) && fd < |b.fds| && events <= b.fds[fd].events && events != {}
    ensures Consistent(b.fds[fd])
    ensures Legal(if b.fds[fd].events - events != {} then Mod else Del, b.kernel, fd)
    ensures var b' := TriggeredAll(b, fd, events);
            && Inv(b') && b'.fds[fd].events == b.fds[fd].events - events && b'.fds == b.fds[fd := b'.fds[fd]]
            && Settled(b, b')
  {
    hide TriggeredIf, Sound, Mirrored, AllConsistent, Consistent, FdState.Context, EpollCtl, Legal, Settled;
    SettledAlready(b);
    FilledSome(b, fd, events);
    LeavingIsLegal(b, fd, events);
    var b0 := Watching(b, fd, b.fds[fd].events - events);
    SoundWhateverKernel(b, b0);
    TriggeredIfKeeps(b0, fd, READ, READ in events);
    var b1 := TriggeredIf(b0, fd, READ, READ in events);
    TriggeredIfKeeps(b1, fd, WRITE, WRITE in events);
    var b2 := TriggeredIf(b1, fd, WRITE, WRITE in events);
    BothEvents(b.fds[fd].events, events);
    assert b2.fds == b.fds[fd := b2.fds[fd]];
    MirroredUpdate(b.kernel, b.fds, fd, b2.fds[fd]);
    WatchingSettles(b, fd, b.fds[fd].events - events);
    assert TriggeredAll(b, fd, events) == b2;
  }

  lemma FilledSome(b: Book, fd: nat, events: set<Event>)
    requires Sound(b) && fd < |b.fds| && events <= b.fds[fd].events
    ensures Consistent(b.fds[fd]) && forall e :: e in events ==> b.fds[fd].Context(e).Filled?
  {
  }

  lemma WatchingSettles(b: Book, fd: nat, left: set<Event>)
    ensures Settled(b, Watching(b, fd, left))
  {
  }

  lemma EventsWithin(events: set<Event>, all: set<Event>)
    ensures events <= all <==> (READ in events ==> READ in all) && (WRITE in events ==> WRITE in all)
  {
    if (READ in events ==> READ in all) && (WRITE in events ==> WRITE in all) {
      forall e | e in events ensures e in all {
        match e
        case READ =>
        case WRITE =>
      }
    }
  }

  lemma BothEvents(all: set<Event>, events: set<Event>)
    ensures all - events == all - (if READ in events then {READ} else {}) - (if WRITE in events then {WRITE} else {})
  {
    forall e: Event
      ensures e in events <==> (e == READ && READ in events) || (e == WRITE && WRITE in events)
    {
      match e
      case READ =>
      case WRITE =>
    }
  }

  // ----- one dispatch round --------------------------------------------------------------------------------

  /** An `epoll_event`: the tickle pipe, or a descriptor with what is reported of it; and whether the kernel
      will refuse the control call that follows. */
  datatype Report = Tickle | Report(fd: nat, readable: bool, writable: bool, errorOrHangup: bool, refused: bool)

  /** The events a report stands for; an error or a hang-up stands for all that are registered. */
  function RealEvents(r: Report, registered: set<Event>): set<Event>
    requires r.Report?
  {
    (if r.readable || (r.errorOrHangup && READ in registered) then {READ} else {})
    + (if r.writable || (r.errorOrHangup && WRITE in registered) then {WRITE} else {})
  }

  /** The report names both an event that is registered and one that no longer is. */
  predicate StaleMixed(r: Report, registered: set<Event>)
    requires r.Report?
  {
    var actual := RealEvents(r, registered);
    actual * registered != {} && !(actual <= registered)
  }

  /** What one report does; nothing when an assertion fails. */
  function Dispatched(b: Book, r: Report): Option<Book>
    requires AllConsistent(b.fds) && (r.Report? ==> r.fd < |b.fds|)
  {
    if r.Tickle? then Some(b)
    else
      var registered := b.fds[r.fd].events;
      var actual := RealEvents(r, registered);
      if actual * registered == {} || r.refused then Some(b)
      else if StaleMixed(r, registered) then None
      else Some(TriggeredAll(b, r.fd, actual))
  }

  /** A dispatch whose reports are not stale keeps the invariant and never fails an assertion. */
  lemma DispatchedKeepsInv(b: Book, r: Report)
    requires Inv(b) && (r.Report? ==> r.fd < |b.fds|)
    ensures Dispatched(b, r).Some? <==> r.Tickle? || r.refused || !StaleMixed(r, b.fds[r.fd].events)
    ensures Dispatched(b, r).Some? ==>
              && Inv(Dispatched(b, r).value) && |Dispatched(b, r).value.fds| == |b.fds|
              && Settled(b, Dispatched(b, r).value)
  {
    if r.Report? {
      var actual := RealEvents(r, b.fds[r.fd].events);
      if actual <= b.fds[r.fd].events && actual * b.fds[r.fd].events != {} {
        TriggeredAllKeepsInv(b, r.fd, actual);
      }
    }
  }

  // ----- what each operation does, registration by registration ---------------------------------------------

  /** Is every registration as it was, but for this one? */
  ghost predicate OthersKept(before: seq<FdState>, after: seq<FdState>, fd: nat, e: Event) {
    && |after| == |before|
    && forall i: nat, d :: i < |before| && !(i == fd && d == e) ==>
         (d in after[i].events <==> d in before[i].events) && after[i].Context(d) == before[i].Context(d)
  }

  lemma WithKeepsOthers(fds: seq<FdState>, fd: nat, e: Event, c: EventContext)
    requires AllConsistent(fds) && fd < |fds|
    ensures var g := fds[fd := fds[fd].With(e, c)];
            OthersKept(fds, g, fd, e) && g[fd].Context(e) == c && (e in g[fd].events <==> c.Filled?)
  {
    hide Consistent, FdState.With, FdState.Context;
    FilledWhenSet(fds, fd, e);
    WithFacts(fds[fd], e, c);
  }

  /** After `addEvent` the event is registered with the handler given, under a new ticket; no other registration changes
      and nothing is scheduled. */
  lemma AddedIs(b: Book, fd: nat, e: Event, h: Handler)
    requires Inv(b) && fd < |b.fds| && !Has(b, fd, e)
    ensures var c := Added(b, fd, e, h);
            && OthersKept(b.fds, c.fds, fd, e) && Has(c, fd, e)
            && c.fds[fd].Context(e) == Filled(h, |b.given|) && c.given == b.given + [h]
            && c.queue == b.queue && c.ended == b.ended && c.pending == b.pending + 1
  {
    hide Total, Placed, Accounted, Mirrored, Answered, FdState.With, FdState.Context, OthersKept, AllConsistent;
    WithKeepsOthers(b.fds, fd, e, Filled(h, b.issued));
  }

  /** `delEvent` and `cancelEvent` end that registration alone; only a cancelled one has its handler scheduled. */
  lemma EndedOneIs(b: Book, fd: nat, e: Event, outcome: Outcome)
    requires Inv(b) && Has(b, fd, e)
    ensures Consistent(b.fds[fd]) && b.fds[fd].Context(e).Filled? && b.fds[fd].Context(e).ticket < |b.given|
    ensures var c, t := EndedOne(b, fd, e, outcome), b.fds[fd].Context(e).ticket;
            && OthersKept(b.fds, c.fds, fd, e) && !Has(c, fd, e) && c.fds[fd].Context(e) == Empty
            && c.given == b.given && c.pending == b.pending - 1 && c.ended == b.ended[t := outcome]
            && c.queue == b.queue + (if outcome == Triggered then [b.given[t]] else [])
  {
    hide Total, Placed, Accounted, Mirrored, Answered, Matched, Counted;
    hide FdState.With, FdState.Context, OthersKept, AllConsistent, Consistent;
    FilledWhenSet(b.fds, fd, e);
    ClearMatched(b.fds, b.given, b.issued, fd, e);
    WithKeepsOthers(b.fds, fd, e, Empty);
  }

  /** From one state to another: of this descriptor, reading is no longer registered if `reading`, and writing if
      `writing`; the handlers given with the registrations so ended are scheduled, reading first; every other
      registration, of this and of every other descriptor, is as it was. */
  ghost predicate EndsThese(b: Book, c: Book, fd: nat, reading: bool, writing: bool) {
    && fd < |b.fds| && fd < |c.fds| && c.fds == b.fds[fd := c.fds[fd]] && c.given == b.given
    && var f, g := b.fds[fd], c.fds[fd];
    && (reading ==> READ in f.events && f.read.Filled? && f.read.ticket < |b.given|)
    && (writing ==> WRITE in f.events && f.write.Filled? && f.write.ticket < |b.given|)
    && (READ in g.events <==> READ in f.events && !reading) && g.read == (if reading then Empty else f.read)
    && (WRITE in g.events <==> WRITE in f.events && !writing) && g.write == (if writing then Empty else f.write)
    && c.queue == b.queue + (if reading then [b.given[f.read.ticket]] else [])
                  + (if writing then [b.given[f.write.ticket]] else [])
  }

  lemma TriggeredIfIs(b: Book, fd: nat, e: Event, happened: bool)
    requires Sound(b) && fd < |b.fds| && (happened ==> e in b.fds[fd].events)
    ensures happened ==> b.fds[fd].Context(e).Filled?
    ensures EndsThese(b, TriggeredIf(b, fd, e, happened), fd, happened && e == READ, happened && e == WRITE)
  {
    hide Total, Placed, Accounted, Answered, Consistent, AllConsistent;
    if happened {
      FilledWhenSet(b.fds, fd, e);
      ClearMatched(b.fds, b.given, b.issued, fd, e);
    }
  }

  /** Ending several registrations of a descriptor: each loses its context and has its handler scheduled, reading first;
      nothing else changes. */
  lemma TriggeredAllIs(b: Book, fd: nat, events: set<Event>)
    requires Inv(b) && fd < |b.fds| && events <= b.fds[fd].events
    ensures Consistent(b.fds[fd])
    ensures EndsThese(b, TriggeredAll(b, fd, events), fd, READ in events, WRITE in events)
  {
    hide TriggeredIf, Sound, Mirrored, Consistent, EpollCtl, Settled, EndsThese;
    FilledSome(b, fd, events);
    var b0 := Watching(b, fd, b.fds[fd].events - events);
    SoundWhateverKernel(b, b0);
    TriggeredIfKeeps(b0, fd, READ, READ in events);
    TriggeredIfIs(b0, fd, READ, READ in events);
    var b1 := TriggeredIf(b0, fd, READ, READ in events);
    TriggeredIfIs(b1, fd, WRITE, WRITE in events);
    EndsBoth(b, b0, b1, TriggeredAll(b, fd, events), fd, READ in events, WRITE in events);
  }

  lemma EndsBoth(b: Book, b0: Book, b1: Book, c: Book, fd: nat, reading: bool, writing: bool)
    requires b0 == b.(kernel := b0.kernel)
    requires EndsThese(b0, b1, fd, reading, false) && EndsThese(b1, c, fd, false, writing)
    ensures EndsThese(b, c, fd, reading, writing)
  {
    assert b1.queue + [] == b1.queue;
  }

  /** What one report ends: reading when it is readable, writing when it is writable, and both on an error or a
      hang-up, of those that are registered. */
  lemma DispatchEnds(b: Book, r: Report)
    requires Inv(b) && r.Report? && r.fd < |b.fds| && !r.refused && Dispatched(b, r).Some?
    ensures var on := b.fds[r.fd].events;
            EndsThese(b, Dispatched(b, r).value, r.fd, READ in on && (r.readable || r.errorOrHangup),
                      WRITE in on && (r.writable || r.errorOrHangup))
  {
    hide TriggeredAll, Inv, RealEvents, Dispatched, AllConsistent, Consistent, EndsThese;
    var on := b.fds[r.fd].events;
    var actual := RealEvents(r, on);
    RealEventsAre(r, on);
    NotStale(b, r);
    if actual * on == {} {
      assert READ !in actual * on && WRITE !in actual * on;
      NothingEnds(b, r.fd);
    } else {
      TriggeredAllIs(b, r.fd, actual);
      assert READ in actual <==> READ in on && (r.readable || r.errorOrHangup);
      assert WRITE in actual <==> WRITE in on && (r.writable || r.errorOrHangup);
    }
  }

  lemma NothingEnds(b: Book, fd: nat)
    requires fd < |b.fds|
    ensures EndsThese(b, b, fd, false, false)
  {
  }

  lemma RealEventsAre(r: Report, on: set<Event>)
    requires r.Report?
    ensures READ in RealEvents(r, on) <==> r.readable || (r.errorOrHangup && READ in on)
    ensures WRITE in RealEvents(r, on) <==> r.writable || (r.errorOrHangup && WRITE in on)
  {
  }

  lemma NotStale(b: Book, r: Report)
    requires Inv(b) && r.Report? && r.fd < |b.fds| && !r.refused && Dispatched(b, r).Some?
    ensures Consistent(b.fds[r.fd])
    ensures var on := b.fds[r.fd].events;
            var actual := RealEvents(r, on);
            if actual * on == {} then Dispatched(b, r) == Some(b)
            else actual <= on && Dispatched(b, r) == Some(TriggeredAll(b, r.fd, actual))
  {
    hide TriggeredAll, RealEvents, Consistent;
    FilledWhenSet(b.fds, r.fd, READ);
  }

  /** An assertion fails exactly when a report ends some registration and names an event that is not registered. */
  lemma DispatchFails(b: Book, r: Report)
    requires Inv(b) && r.Report? && r.fd < |b.fds|
    ensures r.refused ==> Dispatched(b, r) == Some(b)
    ensures var on := b.fds[r.fd].events;
            Dispatched(b, r).None? <==>
              && !r.refused
              && ((READ in on && (r.readable || r.errorOrHangup)) || (WRITE in on && (r.writable || r.errorOrHangup)))
              && ((r.readable && READ !in on) || (r.writable && WRITE !in on))
  {
    hide TriggeredAll, Sound, Mirrored, Consistent, RealEvents;
    var on := b.fds[r.fd].events;
    var actual := RealEvents(r, on);
    RealEventsAre(r, on);
    EventsWithin(actual, on);
    EventsWithin(actual * on, {});
  }

  // ----- runs ------------------------------------------------------------------------------------------------

  datatype Action =
    | AddOne(fd: nat, event: Event, handler: Handler, refused: bool)
    | DelOne(fd: nat, event: Event, refused: bool)
    | CancelOne(fd: nat, event: Event, refused: bool)
    | CancelEvery(fd: nat, refused: bool)
    | DispatchOne(report: Report)

  /** What an action does; nothing when one of its assertions fails. */
  ghost function Act(b: Book, a: Action): Option<Book>
    requires Inv(b)
  {
    match a
    case AddOne(fd, e, h, refused) =>
      var r := Reserved(b, fd);
      if Has(b, fd, e) then None else if refused then Some(r) else Some(Added(r, fd, e, h))
    case DelOne(fd, e, refused) => if Has(b, fd, e) && !refused then Some(EndedOne(b, fd, e, Deleted)) else Some(b)
    case CancelOne(fd, e, refused) => if Has(b, fd, e) && !refused then Some(EndedOne(b, fd, e, Triggered)) else Some(b)
    case CancelEvery(fd, refused) =>
      if fd < |b.fds| && b.fds[fd].events != {} && !refused then Some(TriggeredAll(b, fd, b.fds[fd].events)) else Some(b)
    case DispatchOne(r) => if r.Report? && r.fd >= |b.fds| then None else Dispatched(b, r)
  }

  lemma ActKeepsInv(b: Book, a: Action)
    requires Inv(b) && Act(b, a).Some?
    ensures Inv(Act(b, a).value) && Settled(b, Act(b, a).value)
  {
    hide Inv, Settled, Reserved, Has, Added, EndedOne, TriggeredAll, Dispatched, AllConsistent;
    SettledAlready(b);
    match a
    case AddOne(fd, e, h, refused) =>
      ReservedKeepsInv(b, fd);
      if !Has(b, fd, e) && !refused {
        AddedKeepsInv(Reserved(b, fd), fd, e, h);
      }
    case DelOne(fd, e, refused) =>
      if Has(b, fd, e) {
        EndedOneKeepsInv(b, fd, e, Deleted);
      }
    case CancelOne(fd, e, refused) =>
      if Has(b, fd, e) {
        EndedOneKeepsInv(b, fd, e, Triggered);
      }
    case CancelEvery(fd, refused) =>
      if fd < |b.fds| && b.fds[fd].events != {} {
        TriggeredAllKeepsInv(b, fd, b.fds[fd].events);
      }
    case DispatchOne(r) =>
      DispatchedKeepsInv(b, r);
  }

  ghost function After(b: Book, actions: seq<Action>): Option<Book>
    requires Inv(b)
    ensures After(b, actions).Some? ==> Inv(After(b, actions).value)
  {
    if actions == [] then Some(b)
    else
      var before := After(b, actions[..|actions| - 1]);
      if before.None? then None
      else
        var after := Act(before.value, actions[|actions| - 1]);
        if after.Some? then ActKeepsInv(before.value, actions[|actions| - 1]); after else None
  }

  /** In every run: an outcome is final, what has been scheduled stays scheduled, in order, and the entries scheduled
      are the handlers of exactly the tickets triggered, once each and in the order of triggering. */
  lemma {:induction false} OutcomesAreFinal(b: Book, actions: seq<Action>)
    requires Inv(b) && After(b, actions).Some?
    ensures Settled(b, After(b, actions).value)
    ensures var c := After(b, actions).value; Answered(c.queue, c.given, c.woken, c.ended)
  {
    hide Act, Answered, Matched, Placed, Accounted, Mirrored, AllConsistent;
    if actions != [] {
      var front := actions[..|actions| - 1];
      OutcomesAreFinal(b, front);
      ActKeepsInv(After(b, front).value, actions[|actions| - 1]);
    }
  }

  // ----- the objects -------------------------------------------------------------------------------------------

  class FdContext {
    const fd: nat
    var events: set<Event>
    var read: EventContext
    var write: EventContext

    constructor (fd: nat)
      ensures this.fd == fd && State() == NO_EVENTS
    {
      this.fd, events, read, write := fd, {}, Empty, Empty;
    }

    function State(): FdState
      reads this
    {
      FdState(events, read, write)
    }

    function GetEventContext(e: Event): (c: EventContext)
      reads this
      ensures c == State().Context(e)
    {
      match e
      case READ => read
      case WRITE => write
    }

    /** Fills or frees the context of an event, with its bit. */
    method SetEvent(e: Event, c: EventContext)
      modifies `events, `read, `write
      ensures State() == old(State()).With(e, c)
    {
      events := if c.Empty? then events - {e} else events + {e};
      match e {
        case READ => read := c;
        case WRITE => write := c;
      }
    }
  }

  function StatesOf(contexts: seq<FdContext>): (fds: seq<FdState>)
    reads contexts
    ensures |fds| == |contexts| && forall i :: 0 <= i < |fds| ==> fds[i] == contexts[i].State()
  {
    if contexts == [] then []
    else StatesOf(contexts[..|contexts| - 1]) + [contexts[|contexts| - 1].State()]
  }

  class IOManager {
    var fdContexts: seq<FdContext>
    var pendingEventCount: int
    var tasks: seq<Handler>
    var issued: nat
    ghost var kernel: map<nat, set<Event>>
    ghost var live: map<nat, Place>
    ghost var ended: map<nat, Outcome>
    ghost var given: seq<Handler>
    ghost var woken: seq<nat>

    ghost function States(): (fds: seq<FdState>)
      reads `fdContexts, fdContexts
      ensures |fds| == |fdContexts| && forall i :: 0 <= i < |fds| ==> fds[i] == fdContexts[i].State()
    {
      StatesOf(fdContexts)
    }

    ghost function TheBook(): Book
      reads this, fdContexts
    {
      Book(States(), pendingEventCount, kernel, tasks, issued, live, ended, given, woken)
    }

    ghost predicate Valid()
      reads this, fdContexts
    {
      && Inv(TheBook())
      && DistinctContexts()
    }

    constructor ()
      ensures Valid() && TheBook() == Book(Padding(32), 0, map[], [], 0, map[], map[], [], [])
    {
      fdContexts, pendingEventCount, tasks, issued := [], 0, [], 0;
      kernel, live, ended, given, woken := map[], map[], map[], [], [];
      new;
      ContextResize(32);
      assert States() == Padding(32);
      InitialInv();
      hide Inv;
    }

    method ContextResize(size: nat)
      requires size >= |fdContexts| && DistinctContexts()
      modifies `fdContexts
      ensures old(fdContexts) <= fdContexts && States() == old(States()) + Padding(size - |old(fdContexts)|)
      ensures DistinctContexts()
      ensures forall i :: |old(fdContexts)| <= i < size ==> fresh(fdContexts[i])
    {
      while |fdContexts| < size
        invariant |old(fdContexts)| <= |fdContexts| <= size && old(fdContexts) <= fdContexts
        invariant DistinctContexts()
        invariant forall i :: |old(fdContexts)| <= i < |fdContexts| ==>
                    fresh(fdContexts[i]) && fdContexts[i].State() == NO_EVENTS
      {
        var context := new FdContext(|fdContexts|);
        fdContexts := fdContexts + [context];
      }
    }

    lemma BookAt(fd: nat)
      ensures |TheBook().fds| == |fdContexts|
      ensures fd < |fdContexts| ==> TheBook().fds[fd] == fdContexts[fd].State()
    {
    }

    /** A legal `epoll_ctl`. */
    ghost method Control(op: Op, fd: nat, events: set<Event>)
      requires Legal(op, TheBook().kernel, fd)
      modifies `kernel
      ensures TheBook() == old(TheBook()).(kernel := EpollCtl(op, old(TheBook()).kernel, fd, events))
    {
      kernel := EpollCtl(op, kernel, fd, events);
    }

    method Count(step: int)
      modifies `pendingEventCount
      ensures TheBook() == old(TheBook()).(pending := old(TheBook()).pending + step)
    {
      pendingEventCount := pendingEventCount + step;
    }

    /** Frees the context of an event, with its bit; the ticket has an outcome from now on. */
    method Release(fd: nat, event: Event, ghost outcome: Outcome) returns (handler: Handler)
      requires DistinctContexts() && fd < |fdContexts| && TheBook().fds[fd].Context(event).Filled?
      modifies `live, `ended, `woken, fdContexts[fd]
      ensures old(TheBook()).fds[fd].Context(event) == Filled(handler, old(TheBook()).fds[fd].Context(event).ticket)
      ensures TheBook() == Ended(old(TheBook()), fd, event, outcome).(
                             pending := old(TheBook()).pending, queue := old(TheBook()).queue)
    {
      hide FdState.With, FdState.Context;
      var context := fdContexts[fd];
      var c := context.GetEventContext(event);
      handler := c.handler;
      live := live - {c.ticket};
      ended := ended[c.ticket := outcome];
      woken := if outcome == Triggered then woken + [c.ticket] else woken;
      context.SetEvent(event, Empty);
      assert States() == old(States())[fd := context.State()];
    }

    method Schedule(handler: Handler)
      modifies `tasks
      ensures TheBook() == old(TheBook()).(queue := old(TheBook()).queue + [handler])
    {
      tasks := tasks + [handler];
    }

    /** A second registration of the same event is a programming error; the kernel may refuse the call. */
    method AddEvent(fd: nat, event: Event, handler: Handler, refused: bool) returns (rt: int)
      requires Valid() && !Has(TheBook(), fd, event)
      modifies this, fdContexts
      ensures Valid() && rt == if refused then -1 else 0
      ensures TheBook() == if refused then Reserved(old(TheBook()), fd)
                           else Added(Reserved(old(TheBook()), fd), fd, event, handler)
    {
      hide Inv, Added;
      ReservedKeepsInv(TheBook(), fd);
      if |fdContexts| <= fd {
        ContextResize(fd + fd / 2);
      }
      assert TheBook() == Reserved(old(TheBook()), fd);
      rt := Register(fd, event, handler, refused);
    }

    method Register(fd: nat, event: Event, handler: Handler, refused: bool) returns (rt: int)
      requires Valid() && fd < |fdContexts| && !Has(TheBook(), fd, event)
      modifies this, fdContexts[fd]
      ensures Valid() && rt == (if refused then -1 else 0) && fdContexts == old(fdContexts)
      ensures TheBook() == if refused then old(TheBook()) else Added(old(TheBook()), fd, event, handler)
    {
      hide Inv, Has, FdState.With, FdState.Context, TheBook, EpollCtl, Legal;
      BookAt(fd);
      AddedKeepsInv(TheBook(), fd, event, handler);
      var context := fdContexts[fd];
      var op := if context.events != {} then Mod else Add;
      if refused {
        return -1;
      }
      Control(op, fd, context.events + {event});
      Count(1);
      BookAt(fd);
      assert context.GetEventContext(event) == Empty;
      Fill(fd, event, handler);
      return 0;
    }

    /** Fills the context of an event, with its bit, under a new ticket. */
    method Fill(fd: nat, event: Event, handler: Handler)
      requires DistinctContexts() && fd < |fdContexts|
      modifies `live, `issued, `given, fdContexts[fd]
      ensures var b := old(TheBook());
              TheBook() == b.(fds := b.fds[fd := b.fds[fd].With(event, Filled(handler, b.issued))],
                              issued := b.issued + 1, live := b.live[b.issued := Place(fd, event)],
                              given := b.given + [handler])
    {
      hide FdState.With;
      var context := fdContexts[fd];
      context.SetEvent(event, Filled(handler, issued));
      live := live[issued := Place(fd, event)];
      issued := issued + 1;
      given := given + [handler];
      assert States() == old(States())[fd := context.State()];
    }

    /** `triggerEvent`: schedules the handler and frees the context; `ok` is its assertion. */
    method TriggerEvent(fd: nat, event: Event) returns (ok: bool)
      requires AllConsistent(TheBook().fds) && DistinctContexts() && fd < |fdContexts|
      modifies `tasks, `live, `ended, `woken, fdContexts[fd]
      ensures ok == (event in old(TheBook()).fds[fd].events)
      ensures ok ==> old(TheBook()).fds[fd].Context(event).Filled?
      ensures ok ==> TheBook() == Ended(old(TheBook()), fd, event, Triggered).(pending := old(TheBook()).pending)
      ensures !ok ==> TheBook() == old(TheBook())
    {
      hide AllConsistent, FdState.With, FdState.Context, TheBook;
      BookAt(fd);
      FilledWhenSet(TheBook().fds, fd, event);
      var context := fdContexts[fd];
      if event !in context.events {
        return false;
      }
      var handler := Release(fd, event, Triggered);
      Schedule(handler);
      return true;
    }

    /** `triggerEvent` with the count that follows it. */
    method TriggerAndCount(fd: nat, event: Event) returns (ok: bool)
      requires Sound(TheBook()) && DistinctContexts() && fd < |fdContexts|
      modifies `tasks, `live, `ended, `woken, `pendingEventCount, fdContexts[fd]
      ensures ok == (event in old(TheBook()).fds[fd].events)
      ensures ok ==> old(TheBook()).fds[fd].Context(event).Filled?
      ensures ok ==> TheBook() == Ended(old(TheBook()), fd, event, Triggered)
    {
      hide TheBook, FdState.With, FdState.Context;
      ok := TriggerEvent(fd, event);
      if ok {
        Count(-1);
      }
    }

    /** The registration is dropped without waking anyone. */
    method DelEvent(fd: nat, event: Event, refused: bool) returns (ok: bool)
      requires Valid()
      modifies this, fdContexts
      ensures Valid() && ok == (Has(old(TheBook()), fd, event) && !refused)
      ensures ok ==> Consistent(old(TheBook()).fds[fd])
                     && TheBook() == EndedOne(old(TheBook()), fd, event, Deleted)
      ensures !ok ==> TheBook() == old(TheBook())
    {
      hide Inv, Consistent, FdState.With, FdState.Context, TheBook, Legal, EpollCtl;
      BookAt(fd);
      if |fdContexts| <= fd {
        return false;
      }
      var context := fdContexts[fd];
      if event !in context.events || refused {
        return false;
      }
      EndedOneKeepsInv(TheBook(), fd, event, Deleted);
      var newEvents := context.events - {event};
      Control(if newEvents != {} then Mod else Del, fd, newEvents);
      Count(-1);
      var dropped := Release(fd, event, Deleted);
      return true;
    }

    /** The registration triggers now. */
    method CancelEvent(fd: nat, event: Event, refused: bool) returns (ok: bool)
      requires Valid()
      modifies this, fdContexts
      ensures Valid() && ok == (Has(old(TheBook()), fd, event) && !refused)
      ensures ok ==> Consistent(old(TheBook()).fds[fd])
                     && TheBook() == EndedOne(old(TheBook()), fd, event, Triggered)
      ensures !ok ==> TheBook() == old(TheBook())
    {
      hide Sound, Mirrored, Consistent, FdState.With, FdState.Context, TheBook, Legal, EpollCtl, Ended;
      BookAt(fd);
      if |fdContexts| <= fd {
        return false;
      }
      var context := fdContexts[fd];
      if event !in context.events || refused {
        return false;
      }
      EndedOneKeepsInv(TheBook(), fd, event, Triggered);
      var newEvents := context.events - {event};
      Control(if newEvents != {} then Mod else Del, fd, newEvents);
      SoundWhateverKernel(old(TheBook()), TheBook());
      ok := TriggerAndCount(fd, event);
    }

    /** All registrations of the descriptor trigger now. */
    method CancelAll(fd: nat, refused: bool) returns (ok: bool)
      requires Valid()
      modifies this, fdContexts
      ensures Valid() && ok == (fd < |old(TheBook()).fds| && old(TheBook()).fds[fd].events != {} && !refused)
      ensures ok ==> Consistent(old(TheBook()).fds[fd])
                     && TheBook() == TriggeredAll(old(TheBook()), fd, old(TheBook()).fds[fd].events)
      ensures ok ==> fd < |fdContexts| && fdContexts[fd].events == {}
      ensures !ok ==> TheBook() == old(TheBook())
    {
      if |fdContexts| <= fd {
        return false;
      }
      var context := fdContexts[fd];
      if context.events == {} || refused {
        return false;
      }
      ok := TriggerSome(fd, context.events);
    }

    /** The kernel is told what is left, and each of the events triggers, reading first; `ok` when no assertion
        of `triggerEvent` fails. */
    method TriggerSome(fd: nat, events: set<Event>) returns (ok: bool)
      requires Valid() && fd < |fdContexts| && events * TheBook().fds[fd].events != {}
      modifies this, fdContexts[fd]
      ensures fdContexts == old(fdContexts) && ok == (events <= old(TheBook()).fds[fd].events)
      ensures ok ==> Consistent(old(TheBook()).fds[fd]) && Valid()
      ensures ok ==> TheBook() == TriggeredAll(old(TheBook()), fd, events)
      ensures ok ==> TheBook().fds[fd].events == old(TheBook()).fds[fd].events - events
    {
      hide TheBook, Sound, Mirrored, Consistent, FdState.Context, Ended, TriggeredIf, Legal, EpollCtl;
      ghost var b := TheBook();
      BookAt(fd);
      LeavingIsLegal(b, fd, events);
      if events <= b.fds[fd].events {
        TriggeredAllKeepsInv(b, fd, events);
      }
      EventsWithin(events, b.fds[fd].events);
      var leftEvents := fdContexts[fd].events - events;
      Control(if leftEvents != {} then Mod else Del, fd, leftEvents);
      SoundWhateverKernel(b, TheBook());
      if READ in events ==> READ in b.fds[fd].events {
        TriggeredIfKeeps(TheBook(), fd, READ, READ in events);
      }
      ok := TriggerWhen(fd, READ, READ in events);
      if ok {
        ok := TriggerWhen(fd, WRITE, WRITE in events);
      }
    }

    method TriggerWhen(fd: nat, event: Event, happened: bool) returns (ok: bool)
      requires Sound(TheBook()) && DistinctContexts() && fd < |fdContexts|
      modifies `tasks, `live, `ended, `woken, `pendingEventCount, fdContexts[fd]
      ensures ok == (happened ==> event in old(TheBook()).fds[fd].events)
      ensures ok ==> (happened ==> old(TheBook()).fds[fd].Context(event).Filled?)
      ensures ok ==> TheBook() == TriggeredIf(old(TheBook()), fd, event, happened)
    {
      hide TheBook, FdState.Context, Sound, Ended;
      ok := true;
      if happened {
        ok := TriggerAndCount(fd, event);
      }
    }

    ghost predicate DistinctContexts()
      reads `fdContexts
    {
      forall i, j :: 0 <= i < j < |fdContexts| ==> fdContexts[i] != fdContexts[j]
    }

    /** The loop of `idle` over the reports of one wait; `ok` when no assertion fails. */
    method Dispatch(reports: seq<Report>) returns (ok: bool)
      requires Valid() && Known(TheBook(), reports)
      modifies this, fdContexts
      ensures ok == DispatchedAll(old(TheBook()), reports).Some?
      ensures ok ==> Valid() && Some(TheBook()) == DispatchedAll(old(TheBook()), reports)
    {
      hide Inv;
      for i := 0 to |reports|
        invariant Valid() && fdContexts == old(fdContexts) && Known(TheBook(), reports[i..])
        invariant DispatchedAll(old(TheBook()), reports) == DispatchedAll(TheBook(), reports[i..])
      {
        ghost var b := TheBook();
        assert reports[i..][0] == reports[i] && reports[i..][1..] == reports[i + 1..];
        if reports[i].Report? {
          ok := DispatchOne(reports[i]);
          if !ok {
            return false;
          }
        }
      }
      return true;
    }

    /** One report of a descriptor. */
    method DispatchOne(r: Report) returns (ok: bool)
      requires Valid() && r.Report? && r.fd < |fdContexts|
      modifies this, fdContexts[r.fd]
      ensures AllConsistent(old(TheBook()).fds) && fdContexts == old(fdContexts)
      ensures ok == Dispatched(old(TheBook()), r).Some?
      ensures ok ==> Valid() && Some(TheBook()) == Dispatched(old(TheBook()), r)
    {
      var context := fdContexts[r.fd];
      var actual := RealEvents(r, context.events);
      if context.events * actual == {} || r.refused {
        return true;
      }
      ok := TriggerSome(r.fd, actual);
    }
  }

  lemma StillConsistent(fds: seq<FdState>, fd: nat, f: FdState)
    requires AllConsistent(fds) && fd < |fds| && Consistent(f)
    ensures AllConsistent(fds[fd := f])
  {
    hide Consistent;
  }

  lemma FilledWhenSet(fds: seq<FdState>, fd: nat, e: Event)
    requires AllConsistent(fds) && fd < |fds|
    ensures Consistent(fds[fd])
    ensures e in fds[fd].events <==> fds[fd].Context(e).Filled?
  {
    assert Consistent(fds[fd]);
  }

  lemma LeavingIsLegal(b: Book, fd: nat, events: set<Event>)
    requires Mirrored(b.kernel, b.fds) && fd < |b.fds| && b.fds[fd].events * events != {}
    ensures Legal(if b.fds[fd].events - events != {} then Mod else Del, b.kernel, fd)
  {
  }

  lemma SoundWhateverKernel(b: Book, c: Book)
    requires Sound(b) && c == b.(kernel := c.kernel)
    ensures Sound(c)
  {
  }

  ghost predicate Known(b: Book, reports: seq<Report>) {
    forall i :: 0 <= i < |reports| && reports[i].Report? ==> reports[i].fd < |b.fds|
  }

  /** The reports of one wait, in turn. */
  ghost function DispatchedAll(b: Book, reports: seq<Report>): Option<Book>
    requires Inv(b) && Known(b, reports)
    decreases |reports|
  {
    if reports == [] then Some(b)
    else
      DispatchedKeepsInv(b, reports[0]);
      var after := Dispatched(b, reports[0]);
      if after.None? then None else DispatchedAll(after.value, reports[1..])
  }
}
