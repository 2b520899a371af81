/** The fibre runtime: how a fibre parks in an event context or a timer and how it comes back to the task list.
    Every step is one critical section, or one action of one thread on its own data. */
module FibreRuntime {
  import opened Bytes

  datatype Event = READ | WRITE

  /** What can bring a fibre back: the fibre itself, a callback that schedules it after a sleep, or the callback
      of a condition timer, which belongs to a call and holds no fibre. */
  datatype Item = FibreItem(fibre: nat) | SleepItem(fibre: nat) | CondItem(timer: nat, call: nat) {
    function Who(): Option<nat> {
      if CondItem? then None else Some(fibre)
    }
  }

  /** Where an item is: an event context, the timer set, a list of expired callbacks not yet scheduled, the task
      list, or the hand of the worker that took it. */
  datatype Place = Slot(fd: nat, event: Event) | Timer(id: nat) | Transit(n: nat) | Task(n: nat) | Hand(worker: nat)

  datatype FibreState = Ready | Running(worker: nat) | Term

  /** How far a fibre is in its hooked call, if any; `timer` is the condition timer of the present round. */
  datatype Pc =
    | Fresh
    | User
    | Trying(call: nat)
    | Armed(call: nat, timer: Option<nat>)
    | Parking(call: nat, timer: Option<nat>)
    | Parked(call: nat, timer: Option<nat>)
    | Woken(call: nat, timer: Option<nat>)
    | Checking(call: nat)
    | SleepParking
    | SleepParked
    | Ended

  datatype Fibre = Fibre(state: FibreState, pc: Pc)

  datatype Kind = Io | Connect

  /** One hooked call: who made it, its timeout, if any, and when it was entered; `cancelled` is the field of its
      `timer_info`, `blame` the timer whose callback set it. */
  datatype Call = Call(
    kind: Kind,
    fd: nat,
    event: Event,
    caller: nat,
    timeout: Option<nat>,
    entered: nat,
    alive: bool,
    cancelled: bool,
    blame: Option<nat>)

  datatype Phase = Free | Holding | Busy(fibre: nat) | Cancelling(call: nat)

  /** `at` says where each held fibre is; `owner` which call made a condition timer, and `made` when; `fired` which
      timers have expired, `ran` which condition callbacks have run; `timedOut` which calls have answered ETIMEDOUT;
      `now` is the clock, `due` the deadline of each timer. */
  datatype State = State(
    fibres: map<nat, Fibre>,
    calls: map<nat, Call>,
    workers: seq<Phase>,
    store: map<Place, Item>,
    at: map<nat, Place>,
    next: nat,
    owner: map<nat, nat>,
    fired: set<nat>,
    timedOut: set<nat>,
    now: nat,
    due: map<nat, nat>,
    made: map<nat, nat>,
    ran: set<nat>)

  datatype Label =
    | Tick(ms: nat)
    | Spawn(f: nat)
    | Take(w: nat, n: nat)
    | Resume(w: nat)
    | RunSleepCallback(w: nat)
    | RunConditionCallback(w: nat)
    | CancelForTimeout(w: nat, c: nat)
    | Trigger(fd: nat, event: Event)
    | Expire(t: nat)
    | ScheduleExpired(n: nat)
    | Enter(f: nat, c: nat, call: Call)
    | SyscallReturns(f: nat)
    | WouldBlock(f: nat, t: nat)
    | Register(f: nat)
    | RegisterFails(f: nat)
    | Yield(f: nat)
    | CancelTimer(f: nat)
    | CheckTimeout(f: nat)
    | Sleep(f: nat, t: nat, ms: nat)
    | Close(f: nat, fd: nat)
    | Finish(f: nat)

  // ----- the store of items ----------------------------------------------------------------------------------

  function Moved(at: map<nat, Place>, item: Item, q: Place): map<nat, Place> {
    if item.Who().Some? then at[item.Who().value := q] else at
  }

  function Forgotten(at: map<nat, Place>, item: Item): map<nat, Place> {
    if item.Who().Some? then at - {item.Who().value} else at
  }

  function Put(s: State, q: Place, item: Item): State {
    s.(store := s.store[q := item], at := Moved(s.at, item, q))
  }

  function Drop(s: State, p: Place): State
    requires p in s.store
  {
    s.(store := s.store - {p}, at := Forgotten(s.at, s.store[p]))
  }

  /** The item leaves `p` and is at `q` as `item`, which concerns the same fibre. */
  function Move(s: State, p: Place, q: Place, item: Item): State
    requires p in s.store
  {
    s.(store := (s.store - {p})[q := item], at := Moved(s.at, item, q))
  }

  function DropIfThere(s: State, p: Place): State {
    if p in s.store then Drop(s, p) else s
  }

  /** `triggerEvent`, when the event is registered. */
  function Triggered(s: State, fd: nat, event: Event): State {
    if Slot(fd, event) in s.store then
      Move(s, Slot(fd, event), Task(s.next), s.store[Slot(fd, event)]).(next := s.next + 1)
    else s
  }

  predicate HasCall(pc: Pc) {
    pc.Trying? || pc.Armed? || pc.Parking? || pc.Parked? || pc.Woken? || pc.Checking?
  }

  function TimerOf(pc: Pc): Option<nat> {
    if pc.Armed? || pc.Parking? || pc.Parked? || pc.Woken? then pc.timer else None
  }

  // ----- steps -----------------------------------------------------------------------------------------------

  predicate At(s: State, f: nat, pc: Pc) {
    f in s.fibres && s.fibres[f].state.Running? && s.fibres[f].pc == pc
  }

  predicate NewTimer(s: State, t: nat) {
    t !in s.due && t !in s.owner && t !in s.fired && Timer(t) !in s.store
  }

  predicate Runs(s: State, f: nat) {
    f in s.fibres && s.fibres[f].state.Running?
  }

  /** The fibre runs, in a hooked call. */
  predicate InCall(s: State, f: nat) {
    Runs(s, f) && HasCall(s.fibres[f].pc) && s.fibres[f].pc.call in s.calls
  }

  /** What the step does where the code asserts nothing; the assertion of `resume` is not a guard. */
  predicate Enabled(s: State, l: Label) {
    match l
    case Tick(_) => true
    case Spawn(f) => f !in s.fibres
    case Take(w, n) =>
      w < |s.workers| && s.workers[w] == Free && Task(n) in s.store
      && (s.store[Task(n)].FibreItem? ==> !Runs(s, s.store[Task(n)].fibre))
    case Resume(w) => w < |s.workers| && Hand(w) in s.store && s.store[Hand(w)].FibreItem?
    case RunSleepCallback(w) => w < |s.workers| && Hand(w) in s.store && s.store[Hand(w)].SleepItem?
    case RunConditionCallback(w) =>
      w < |s.workers| && Hand(w) in s.store && s.store[Hand(w)].CondItem? && s.store[Hand(w)].call in s.calls
    case CancelForTimeout(w, c) => w < |s.workers| && s.workers[w] == Cancelling(c) && c in s.calls
    case Trigger(_, _) => true
    case Expire(t) => Timer(t) in s.store && t in s.due && s.due[t] <= s.now
    case ScheduleExpired(n) => Transit(n) in s.store
    case Enter(f, c, call) =>
      At(s, f, User) && c !in s.calls
      && call == Call(call.kind, call.fd, call.event, f, call.timeout, s.now, true, false, None)
    case SyscallReturns(f) => InCall(s, f) && s.fibres[f].pc.Trying?
    case WouldBlock(f, t) =>
      InCall(s, f) && s.fibres[f].pc.Trying?
      && (s.calls[s.fibres[f].pc.call].timeout.Some? ==> NewTimer(s, t))
    case Register(f) =>
      InCall(s, f) && s.fibres[f].pc.Armed?
      && Slot(s.calls[s.fibres[f].pc.call].fd, s.calls[s.fibres[f].pc.call].event) !in s.store
    case RegisterFails(f) => InCall(s, f) && s.fibres[f].pc.Armed?
    case Yield(f) => Runs(s, f) && (s.fibres[f].pc.Parking? || s.fibres[f].pc == SleepParking)
    case CancelTimer(f) => Runs(s, f) && s.fibres[f].pc.Woken?
    case CheckTimeout(f) => InCall(s, f) && s.fibres[f].pc.Checking?
    case Sleep(f, t, _) => At(s, f, User) && NewTimer(s, t)
    case Close(f, _) => At(s, f, User)
    case Finish(f) => At(s, f, User)
  }

  function SetPc(s: State, f: nat, pc: Pc): State
    requires f in s.fibres
  {
    s.(fibres := s.fibres[f := s.fibres[f].(pc := pc)])
  }

  /** The call has answered; its `timer_info` is gone. */
  function Answered(s: State, f: nat, c: nat): State
    requires f in s.fibres && c in s.calls
  {
    SetPc(s, f, User).(calls := s.calls[c := s.calls[c].(alive := false)])
  }

  function Released(s: State, w: nat): State
    requires w < |s.workers|
  {
    s.(workers := s.workers[w := Free])
  }

  /** A condition timer of the call is added to the set. */
  function WithTimer(s: State, t: nat, c: nat): State
    requires c in s.calls && s.calls[c].timeout.Some?
  {
    Put(s, Timer(t), CondItem(t, c)).(owner := s.owner[t := c], made := s.made[t := s.now],
                                      due := s.due[t := s.now + s.calls[c].timeout.value])
  }

  function ResumedPc(pc: Pc): Pc {
    match pc
    case Parked(c, t) => Woken(c, t)
    case _ => User
  }

  function Spawned(s: State, f: nat): State {
    Put(s, Task(s.next), FibreItem(f)).(fibres := s.fibres[f := Fibre(Ready, Fresh)], next := s.next + 1)
  }

  function Taken(s: State, w: nat, n: nat): State
    requires w < |s.workers| && Task(n) in s.store
  {
    Move(s, Task(n), Hand(w), s.store[Task(n)]).(workers := s.workers[w := Holding])
  }

  function Resumed(s: State, w: nat): State
    requires w < |s.workers| && Hand(w) in s.store && s.store[Hand(w)].FibreItem?
  {
    var f := s.store[Hand(w)].fibre;
    var pc := if f in s.fibres then ResumedPc(s.fibres[f].pc) else User;
    Drop(s, Hand(w)).(fibres := s.fibres[f := Fibre(Running(w), pc)], workers := s.workers[w := Busy(f)])
  }

  function SleepOver(s: State, w: nat): State
    requires w < |s.workers| && Hand(w) in s.store && s.store[Hand(w)].SleepItem?
  {
    Released(Move(s, Hand(w), Task(s.next), FibreItem(s.store[Hand(w)].fibre)), w).(next := s.next + 1)
  }

  /** The callback of a condition timer: nothing when the call is over or marked, else the mark and then the cancel. */
  function CalledBack(s: State, w: nat): State
    requires w < |s.workers| && Hand(w) in s.store && s.store[Hand(w)].CondItem? && s.store[Hand(w)].call in s.calls
  {
    var item := s.store[Hand(w)];
    var call := s.calls[item.call];
    if !call.alive || call.cancelled then Released(Drop(s, Hand(w)), w).(ran := s.ran + {item.timer})
    else
      Drop(s, Hand(w)).(calls := s.calls[item.call := call.(cancelled := true, blame := Some(item.timer))],
                        workers := s.workers[w := Cancelling(item.call)],
                        ran := s.ran + {item.timer})
  }

  function Expired(s: State, t: nat): State
    requires Timer(t) in s.store
  {
    Move(s, Timer(t), Transit(s.next), s.store[Timer(t)]).(next := s.next + 1, fired := s.fired + {t})
  }

  function Blocked(s: State, f: nat, t: nat): State
    requires InCall(s, f)
  {
    var c := s.fibres[f].pc.call;
    if s.calls[c].timeout.None? then SetPc(s, f, Armed(c, None)) else SetPc(WithTimer(s, t, c), f, Armed(c, Some(t)))
  }

  function Registered(s: State, f: nat): State
    requires InCall(s, f) && s.fibres[f].pc.Armed?
  {
    var pc := s.fibres[f].pc;
    Put(SetPc(s, f, Parking(pc.call, pc.timer)), Slot(s.calls[pc.call].fd, s.calls[pc.call].event), FibreItem(f))
  }

  /** The timer of the present round is cancelled, if there is one. */
  function Disarmed(s: State, f: nat): State
    requires f in s.fibres
  {
    var t := TimerOf(s.fibres[f].pc);
    if t.Some? then DropIfThere(s, Timer(t.value)) else s
  }

  /** The fibre leaves its worker. */
  function Left(s: State, f: nat, x: Fibre): State
    requires Runs(s, f)
  {
    var w := s.fibres[f].state.worker;
    var s' := s.(fibres := s.fibres[f := x]);
    if w < |s.workers| then Released(s', w) else s'
  }

  function Suspended(pc: Pc): Pc {
    if pc.Parking? then Parked(pc.call, pc.timer) else SleepParked
  }

  function Checked(s: State, f: nat): State
    requires InCall(s, f)
  {
    var c := s.fibres[f].pc.call;
    if s.calls[c].cancelled then Answered(s, f, c).(timedOut := s.timedOut + {c})
    else if s.calls[c].kind == Io then SetPc(s, f, Trying(c))
    else Answered(s, f, c)
  }

  function Slept(s: State, f: nat, t: nat, ms: nat): State
    requires f in s.fibres
  {
    Put(SetPc(s, f, SleepParking), Timer(t), SleepItem(f)).(due := s.due[t := s.now + ms])
  }

  function Apply(s: State, l: Label): State
    requires Enabled(s, l)
  {
    match l
    case Tick(ms) => s.(now := s.now + ms)
    case Spawn(f) => Spawned(s, f)
    case Take(w, n) => Taken(s, w, n)
    case Resume(w) => Resumed(s, w)
    case RunSleepCallback(w) => SleepOver(s, w)
    case RunConditionCallback(w) => CalledBack(s, w)
    case CancelForTimeout(w, c) => Released(Triggered(s, s.calls[c].fd, s.calls[c].event), w)
    case Trigger(fd, event) => Triggered(s, fd, event)
    case Expire(t) => Expired(s, t)
    case ScheduleExpired(n) => Move(s, Transit(n), Task(s.next), s.store[Transit(n)]).(next := s.next + 1)
    case Enter(f, c, call) => SetPc(s, f, Trying(c)).(calls := s.calls[c := call])
    case SyscallReturns(f) => Answered(s, f, s.fibres[f].pc.call)
    case WouldBlock(f, t) => Blocked(s, f, t)
    case Register(f) => Registered(s, f)
    case RegisterFails(f) => Answered(Disarmed(s, f), f, s.fibres[f].pc.call)
    case Yield(f) => Left(s, f, Fibre(Ready, Suspended(s.fibres[f].pc)))
    case CancelTimer(f) => SetPc(Disarmed(s, f), f, Checking(s.fibres[f].pc.call))
    case CheckTimeout(f) => Checked(s, f)
    case Sleep(f, t, ms) => Slept(s, f, t, ms)
    case Close(f, fd) => Triggered(Triggered(s, fd, READ), fd, WRITE)
    case Finish(f) => Left(s, f, Fibre(Term, Ended))
  }

  // ----- invariants --------------------------------------------------------------------------------------------

  /** `at` is exactly where the fibres are held: no fibre is held twice. */
  ghost predicate Located(store: map<Place, Item>, at: map<nat, Place>) {
    && (forall p :: p in store && store[p].Who().Some? ==> store[p].Who().value in at && at[store[p].Who().value] == p)
    && (forall f :: f in at ==> at[f] in store && store[at[f]].Who() == Some(f))
  }

  /** Which items a place can hold. */
  ghost predicate Typed(store: map<Place, Item>, next: nat) {
    forall p :: p in store ==>
      match p
      case Slot(_, _) => store[p].FibreItem?
      case Timer(t) => !store[p].FibreItem? && (store[p].CondItem? ==> store[p].timer == t)
      case Transit(n) => !store[p].FibreItem? && n < next
      case Task(n) => n < next
      case Hand(_) => true
  }

  predicate Consistent(x: Fibre) {
    match x.pc
    case Fresh => x.state == Ready
    case Parked(_, _) => x.state == Ready
    case SleepParked => x.state == Ready
    case Ended => x.state == Term
    case _ => x.state.Running?
  }

  /** A fibre about to yield in a hooked call. */
  predicate IsParking(x: Fibre) {
    x.pc.Parking? || x.pc == SleepParking
  }

  /** A suspended fibre is held; a held fibre is suspended or about to be. */
  ghost predicate HeldRight(fibres: map<nat, Fibre>, held: set<nat>) {
    && (forall f :: f in held ==> f in fibres)
    && (forall f :: f in fibres ==>
          Consistent(fibres[f]) && (f in held <==> fibres[f].state == Ready || IsParking(fibres[f])))
  }

  /** A worker holds an item exactly in its hand; a fibre it is about to resume is suspended. */
  ghost predicate Handed(store: map<Place, Item>, workers: seq<Phase>, fibres: map<nat, Fibre>) {
    && (forall p :: p in store && p.Hand? ==> p.worker < |workers| && workers[p.worker] == Holding)
    && (forall w :: 0 <= w < |workers| && workers[w] == Holding ==> Hand(w) in store)
    && (forall p :: p in store && p.Hand? && store[p].FibreItem? ==>
          store[p].fibre in fibres && fibres[store[p].fibre].state == Ready)
  }

  /** Exactly the running fibres are on a worker, each on one. */
  ghost predicate Crewed(workers: seq<Phase>, fibres: map<nat, Fibre>) {
    && (forall w :: 0 <= w < |workers| && workers[w].Busy? ==>
          workers[w].fibre in fibres && fibres[workers[w].fibre].state == Running(w))
    && (forall f :: f in fibres && fibres[f].state.Running? ==>
          fibres[f].state.worker < |workers| && workers[fibres[f].state.worker] == Busy(f))
  }

  /** A fibre in an event context waits, in its call, for that very event. */
  ghost predicate Waiting(store: map<Place, Item>, fibres: map<nat, Fibre>, calls: map<nat, Call>) {
    && (forall f :: f in fibres && HasCall(fibres[f].pc) ==> fibres[f].pc.call in calls)
    && (forall p :: p in store && p.Slot? && store[p].FibreItem? ==>
          WaitsFor(fibres, calls, store[p].fibre, p.fd, p.event))
  }

  ghost predicate WaitsFor(fibres: map<nat, Fibre>, calls: map<nat, Call>, f: nat, fd: nat, e: Event) {
    && f in fibres && (fibres[f].pc.Parking? || fibres[f].pc.Parked?) && fibres[f].pc.call in calls
    && calls[fibres[f].pc.call].fd == fd && calls[fibres[f].pc.call].event == e
  }

  /** Condition callbacks belong to the call that made their timer, and leave the timer set only by expiring;
      a sleep has a timer of its own. */
  ghost predicate Owned(store: map<Place, Item>, calls: map<nat, Call>, owner: map<nat, nat>, fired: set<nat>) {
    && (forall p :: p in store && store[p].CondItem? ==>
          && store[p].timer in owner && owner[store[p].timer] == store[p].call && store[p].call in calls
          && (!p.Timer? ==> store[p].timer in fired))
    && (forall p :: p in store && store[p].SleepItem? && p.Timer? ==> p.id !in owner)
  }

  ghost predicate Alarmed(fibres: map<nat, Fibre>, owner: map<nat, nat>) {
    forall f :: f in fibres && TimerOf(fibres[f].pc).Some? ==> TimerOf(fibres[f].pc).value in owner
  }

  /** A call is cancelled only by a timer of its own that has expired, and times out only if cancelled. */
  ghost predicate Blamed(s: State) {
    && (forall c :: c in s.calls && s.calls[c].cancelled ==>
          && s.calls[c].blame.Some? && s.calls[c].blame.value in s.fired
          && s.calls[c].blame.value in s.owner && s.owner[s.calls[c].blame.value] == c)
    && (forall c :: c in s.timedOut ==> c in s.calls && s.calls[c].cancelled)
    && (forall w :: 0 <= w < |s.workers| && s.workers[w].Cancelling? ==> s.workers[w].call in s.calls)
  }

  ghost predicate Inv(s: State) {
    && Located(s.store, s.at) && Typed(s.store, s.next) && HeldRight(s.fibres, s.at.Keys)
    && Handed(s.store, s.workers, s.fibres) && Crewed(s.workers, s.fibres)
    && Waiting(s.store, s.fibres, s.calls) && Owned(s.store, s.calls, s.owner, s.fired)
    && Alarmed(s.fibres, s.owner) && Blamed(s)
  }

  /** Workers with nothing to do, and no fibres yet. */
  function Initial(n: nat): State {
    State(map[], map[], seq(n, i => Free), map[], map[], 0, map[], {}, {}, 0, map[], map[], {})
  }

  lemma InitialInv(n: nat)
    ensures Inv(Initial(n))
  {
  }

  // ----- items move ----------------------------------------------------------------------------------------------

  lemma PutLocated(store: map<Place, Item>, at: map<nat, Place>, q: Place, item: Item)
    requires Located(store, at) && q !in store && (item.Who().Some? ==> item.Who().value !in at)
    ensures Located(store[q := item], Moved(at, item, q))
  {
  }

  lemma DropLocated(store: map<Place, Item>, at: map<nat, Place>, p: Place)
    requires Located(store, at) && p in store
    ensures Located(store - {p}, Forgotten(at, store[p]))
    ensures store[p].Who().Some? ==> store[p].Who().value in at
  {
  }

  lemma MoveLocated(store: map<Place, Item>, at: map<nat, Place>, p: Place, q: Place, item: Item)
    requires Located(store, at) && p in store && q !in store && item.Who() == store[p].Who()
    ensures Located((store - {p})[q := item], Moved(at, item, q))
    ensures Moved(at, item, q).Keys == at.Keys
  {
  }

  predicate IsFreshPlace(s: State, q: Place) {
    (q.Task? && q.n == s.next) || (q.Transit? && q.n == s.next)
  }

  lemma FreshPlaceIsNew(s: State, q: Place)
    requires Typed(s.store, s.next) && IsFreshPlace(s, q)
    ensures q !in s.store
  {
  }

  /** What stays as it was when items move outside the workers' hands and the event contexts. */
  lemma TypedMove(store: map<Place, Item>, next: nat, p: Place, q: Place, item: Item)
    requires Typed(store, next) && p in store && (q.Task? || q.Transit?) && q.n == next
    requires q.Transit? ==> !item.FibreItem?
    ensures Typed((store - {p})[q := item], next + 1)
  {
  }

  lemma HandedMove(store: map<Place, Item>, workers: seq<Phase>, fibres: map<nat, Fibre>, p: Place, q: Place,
                   item: Item)
    requires Handed(store, workers, fibres) && !p.Hand? && !q.Hand?
    ensures Handed((store - {p})[q := item], workers, fibres)
  {
  }

  lemma WaitingMove(store: map<Place, Item>, fibres: map<nat, Fibre>, calls: map<nat, Call>, p: Place, q: Place,
                    item: Item)
    requires Waiting(store, fibres, calls) && !q.Slot?
    ensures Waiting((store - {p})[q := item], fibres, calls)
  {
    hide WaitsFor;
  }

  lemma OwnedMove(store: map<Place, Item>, calls: map<nat, Call>, owner: map<nat, nat>, fired: set<nat>, p: Place,
                  q: Place, t: nat)
    requires Owned(store, calls, owner, fired) && p in store && !q.Timer?
    requires p.Timer? && store[p].CondItem? ==> store[p].timer == t
    ensures Owned((store - {p})[q := store[p]], calls, owner, fired + if p.Timer? then {t} else {})
  {
  }

  /** Moving an item out of a context, the timer set or the transit list onto a list. */
  lemma MoveKeepsInv(s: State, p: Place, q: Place)
    requires Inv(s) && p in s.store && !p.Hand? && !p.Task? && IsFreshPlace(s, q)
    requires q.Transit? ==> !s.store[p].FibreItem?
    ensures var t := Move(s, p, q, s.store[p]).(next := s.next + 1);
            Inv(if p.Timer? then t.(fired := s.fired + {p.id}) else t)
  {
    hide Located, Typed, HeldRight, Handed, Crewed, Waiting, Owned;
    FreshPlaceIsNew(s, q);
    MoveLocated(s.store, s.at, p, q, s.store[p]);
    TypedMove(s.store, s.next, p, q, s.store[p]);
    HandedMove(s.store, s.workers, s.fibres, p, q, s.store[p]);
    WaitingMove(s.store, s.fibres, s.calls, p, q, s.store[p]);
    TimerIsItsOwn(s, p);
    OwnedMove(s.store, s.calls, s.owner, s.fired, p, q, if p.Timer? then p.id else 0);
    assert s.fired + {} == s.fired;
  }

  lemma TimerIsItsOwn(s: State, p: Place)
    requires Typed(s.store, s.next) && p in s.store
    ensures p.Timer? && s.store[p].CondItem? ==> s.store[p].timer == p.id
  {
  }

  lemma TriggeredKeepsInv(s: State, fd: nat, event: Event)
    requires Inv(s)
    ensures Inv(Triggered(s, fd, event))
  {
    hide Inv;
    if Slot(fd, event) in s.store {
      MoveKeepsInv(s, Slot(fd, event), Task(s.next));
    }
  }

  // ----- fibres move ----------------------------------------------------------------------------------------------

  lemma HeldStep(fibres: map<nat, Fibre>, held: set<nat>, f: nat, x: Fibre, held': set<nat>)
    requires HeldRight(fibres, held) && held' - {f} == held - {f} && Consistent(x)
    requires f in held' <==> x.state == Ready || IsParking(x)
    ensures HeldRight(fibres[f := x], held')
  {
    assert forall g :: g != f ==> (g in held' <==> g in held' - {f}) && (g in held <==> g in held - {f});
  }

  lemma HandedStep(store: map<Place, Item>, workers: seq<Phase>, fibres: map<nat, Fibre>, f: nat, x: Fibre)
    requires Handed(store, workers, fibres)
    requires x.state == Ready || (f in fibres ==> fibres[f].state != Ready)
    ensures Handed(store, workers, fibres[f := x])
  {
  }

  lemma CrewedStep(workers: seq<Phase>, fibres: map<nat, Fibre>, f: nat, x: Fibre)
    requires Crewed(workers, fibres) && f in fibres && x.state == fibres[f].state
    ensures Crewed(workers, fibres[f := x])
  {
  }

  lemma WaitingStep(store: map<Place, Item>, fibres: map<nat, Fibre>, calls: map<nat, Call>, f: nat, x: Fibre)
    requires Waiting(store, fibres, calls) && (HasCall(x.pc) ==> x.pc.call in calls)
    requires f in fibres && (fibres[f].pc.Parking? || fibres[f].pc.Parked?) ==>
               (x.pc.Parking? || x.pc.Parked?) && x.pc.call == fibres[f].pc.call
    ensures Waiting(store, fibres[f := x], calls)
  {
  }

  lemma AlarmedStep(fibres: map<nat, Fibre>, owner: map<nat, nat>, f: nat, x: Fibre)
    requires Alarmed(fibres, owner) && (TimerOf(x.pc).Some? ==> TimerOf(x.pc).value in owner)
    ensures Alarmed(fibres[f := x], owner)
  {
  }

  /** A running fibre that is not about to yield is held nowhere. */
  lemma NotHeld(s: State, f: nat)
    requires HeldRight(s.fibres, s.at.Keys) && Runs(s, f) && !IsParking(s.fibres[f])
    ensures f !in s.at
  {
  }

  /** A running fibre goes on, neither before nor after about to yield. */
  lemma SetPcKeepsInv(s: State, f: nat, pc: Pc)
    requires Inv(s) && Runs(s, f) && !IsParking(s.fibres[f])
    requires Consistent(Fibre(s.fibres[f].state, pc)) && !pc.Parking? && pc != SleepParking
    requires HasCall(pc) ==> pc.call in s.calls
    requires TimerOf(pc).Some? ==> TimerOf(pc).value in s.owner
    ensures Inv(SetPc(s, f, pc))
  {
    hide Located, Typed, HeldRight, Handed, Crewed, Waiting, Owned, Alarmed;
    var x := s.fibres[f].(pc := pc);
    NotHeld(s, f);
    RunningIsConsistent(s, f);
    HeldStep(s.fibres, s.at.Keys, f, x, s.at.Keys);
    HandedStep(s.store, s.workers, s.fibres, f, x);
    CrewedStep(s.workers, s.fibres, f, x);
    WaitingStep(s.store, s.fibres, s.calls, f, x);
    AlarmedStep(s.fibres, s.owner, f, x);
  }

  lemma RunningIsConsistent(s: State, f: nat)
    requires HeldRight(s.fibres, s.at.Keys) && Runs(s, f)
    ensures Consistent(s.fibres[f]) && !s.fibres[f].pc.Parked?
  {
  }

  lemma PutTyped(store: map<Place, Item>, next: nat, q: Place, item: Item)
    requires Typed(store, next)
    requires match q
             case Slot(_, _) => item.FibreItem?
             case Timer(t) => !item.FibreItem? && (item.CondItem? ==> item.timer == t)
             case Transit(_) => false
             case Task(n) => false
             case Hand(_) => true
    ensures Typed(store[q := item], next)
  {
  }

  lemma PutHanded(store: map<Place, Item>, workers: seq<Phase>, fibres: map<nat, Fibre>, q: Place, item: Item)
    requires Handed(store, workers, fibres) && !q.Hand?
    ensures Handed(store[q := item], workers, fibres)
  {
  }

  lemma PutWaiting(store: map<Place, Item>, fibres: map<nat, Fibre>, calls: map<nat, Call>, q: Place, item: Item)
    requires Waiting(store, fibres, calls)
    requires q.Slot? && item.FibreItem? ==> WaitsFor(fibres, calls, item.fibre, q.fd, q.event)
    ensures Waiting(store[q := item], fibres, calls)
  {
    hide WaitsFor;
  }

  lemma PutOwned(store: map<Place, Item>, calls: map<nat, Call>, owner: map<nat, nat>, fired: set<nat>, q: Place,
                 item: Item)
    requires Owned(store, calls, owner, fired) && !item.CondItem?
    requires item.SleepItem? && q.Timer? ==> q.id !in owner
    ensures Owned(store[q := item], calls, owner, fired)
  {
  }

  /** A running fibre puts itself into an event context or the timer set, and is about to yield. */
  lemma ParkKeepsInv(s: State, f: nat, pc: Pc, q: Place, item: Item)
    requires Inv(s) && Runs(s, f) && !IsParking(s.fibres[f]) && (pc.Parking? || pc == SleepParking)
    requires HasCall(pc) ==> pc.call in s.calls
    requires TimerOf(pc).Some? ==> TimerOf(pc).value in s.owner
    requires q !in s.store && item.Who() == Some(f)
    requires q.Slot? || q.Timer?
    requires q.Slot? ==>
               item.FibreItem? && pc.Parking? && s.calls[pc.call].fd == q.fd && s.calls[pc.call].event == q.event
    requires q.Timer? ==> item.SleepItem? && q.id !in s.owner
    ensures Inv(Put(SetPc(s, f, pc), q, item))
  {
    hide Located, Typed, HeldRight, Handed, Crewed, Waiting, Owned, Alarmed;
    var x := s.fibres[f].(pc := pc);
    NotHeld(s, f);
    RunningIsConsistent(s, f);
    PutLocated(s.store, s.at, q, item);
    assert Moved(s.at, item, q).Keys == s.at.Keys + {f};
    HeldStep(s.fibres, s.at.Keys, f, x, s.at.Keys + {f});
    PutTyped(s.store, s.next, q, item);
    HandedStep(s.store, s.workers, s.fibres, f, x);
    PutHanded(s.store, s.workers, s.fibres[f := x], q, item);
    CrewedStep(s.workers, s.fibres, f, x);
    WaitingStep(s.store, s.fibres, s.calls, f, x);
    PutWaiting(s.store, s.fibres[f := x], s.calls, q, item);
    PutOwned(s.store, s.calls, s.owner, s.fired, q, item);
    AlarmedStep(s.fibres, s.owner, f, x);
  }

  // ----- each kind of step keeps the invariant -----------------------------------------------------------------

  lemma SpawnKeepsInv(s: State, f: nat)
    requires Inv(s) && f !in s.fibres
    ensures Inv(Apply(s, Spawn(f)))
  {
    hide Located, Typed, HeldRight, Handed, Crewed, Waiting, Owned, Alarmed;
    var q, x := Task(s.next), Fibre(Ready, Fresh);
    UnknownNotHeld(s, f);
    FreshPlaceIsNew(s, q);
    PutLocated(s.store, s.at, q, FibreItem(f));
    assert Moved(s.at, FibreItem(f), q).Keys == s.at.Keys + {f};
    HeldStep(s.fibres, s.at.Keys, f, x, s.at.Keys + {f});
    PutFreshTyped(s.store, s.next, q, FibreItem(f));
    HandedStep(s.store, s.workers, s.fibres, f, x);
    PutHanded(s.store, s.workers, s.fibres[f := x], q, FibreItem(f));
    CrewedSpawn(s.workers, s.fibres, f);
    WaitingStep(s.store, s.fibres, s.calls, f, x);
    PutWaiting(s.store, s.fibres[f := x], s.calls, q, FibreItem(f));
    PutOwned(s.store, s.calls, s.owner, s.fired, q, FibreItem(f));
    AlarmedStep(s.fibres, s.owner, f, x);
  }

  lemma UnknownNotHeld(s: State, f: nat)
    requires HeldRight(s.fibres, s.at.Keys) && f !in s.fibres
    ensures f !in s.at
  {
  }

  lemma PutFreshTyped(store: map<Place, Item>, next: nat, q: Place, item: Item)
    requires Typed(store, next) && q == Task(next)
    ensures Typed(store[q := item], next + 1)
  {
  }

  lemma CrewedSpawn(workers: seq<Phase>, fibres: map<nat, Fibre>, f: nat)
    requires Crewed(workers, fibres) && f !in fibres
    ensures Crewed(workers, fibres[f := Fibre(Ready, Fresh)])
  {
  }

  /** Only a suspended fibre is taken off the list, so only a suspended one is in a hand. */
  lemma TakeKeepsInv(s: State, w: nat, n: nat)
    requires Inv(s) && Enabled(s, Take(w, n))
    ensures Inv(Apply(s, Take(w, n)))
  {
    hide Located, Typed, HeldRight, Handed, Crewed, Waiting, Owned, Alarmed, Blamed;
    var p, q, item := Task(n), Hand(w), s.store[Task(n)];
    EmptyHand(s.store, s.workers, s.fibres, w);
    if item.FibreItem? {
      HeldAndNotRunning(s, p);
    }
    MoveLocated(s.store, s.at, p, q, item);
    TakenTyped(s.store, s.next, p, q);
    TakenHanded(s.store, s.workers, s.fibres, p, w);
    WorkersCrewed(s.workers, s.fibres, w, Holding);
    WaitingMove(s.store, s.fibres, s.calls, p, q, item);
    OwnedMove(s.store, s.calls, s.owner, s.fired, p, q, 0);
    assert s.fired + {} == s.fired;
    FreeBlamed(s, w);
    BlamedIgnoresStore(s);
  }

  lemma EmptyHand(store: map<Place, Item>, workers: seq<Phase>, fibres: map<nat, Fibre>, w: nat)
    requires Handed(store, workers, fibres) && w < |workers| && workers[w] != Holding
    ensures Hand(w) !in store
  {
  }

  lemma HeldAndNotRunning(s: State, p: Place)
    requires Located(s.store, s.at) && HeldRight(s.fibres, s.at.Keys) && p in s.store && s.store[p].FibreItem?
    requires !Runs(s, s.store[p].fibre)
    ensures s.store[p].fibre in s.fibres && s.fibres[s.store[p].fibre].state == Ready
  {
    assert s.store[p].Who() == Some(s.store[p].fibre);
  }

  lemma TakenTyped(store: map<Place, Item>, next: nat, p: Place, q: Place)
    requires Typed(store, next) && p in store && q.Hand?
    ensures Typed((store - {p})[q := store[p]], next)
  {
  }

  lemma TakenHanded(store: map<Place, Item>, workers: seq<Phase>, fibres: map<nat, Fibre>, p: Place, w: nat)
    requires Handed(store, workers, fibres) && p in store && p.Task? && w < |workers|
    requires store[p].FibreItem? ==> store[p].fibre in fibres && fibres[store[p].fibre].state == Ready
    ensures Handed((store - {p})[Hand(w) := store[p]], workers[w := Holding], fibres)
  {
  }

  /** A worker that runs no fibre goes on without one. */
  lemma WorkersCrewed(workers: seq<Phase>, fibres: map<nat, Fibre>, w: nat, phase: Phase)
    requires Crewed(workers, fibres) && w < |workers| && !workers[w].Busy? && !phase.Busy?
    ensures Crewed(workers[w := phase], fibres)
  {
  }

  /** The assertion of `resume` holds: the fibre is neither running nor finished. Afterwards it is held nowhere. */
  lemma ResumeKeepsInv(s: State, w: nat)
    requires Inv(s) && Enabled(s, Resume(w))
    ensures var f := s.store[Hand(w)].fibre; f in s.fibres && s.fibres[f].state == Ready
    ensures Inv(Apply(s, Resume(w)))
  {
    hide Located, Typed, HeldRight, Handed, Crewed, Waiting, Owned, Alarmed;
    var p := Hand(w);
    var f := s.store[p].fibre;
    HandIsReady(s.store, s.workers, s.fibres, w);
    ReadyIsConsistent(s, f);
    var x := Fibre(Running(w), ResumedPc(s.fibres[f].pc));
    DropLocated(s.store, s.at, p);
    HeldStep(s.fibres, s.at.Keys, f, x, s.at.Keys - {f});
    DropTyped(s.store, s.next, p);
    ResumeHanded(s, w, x);
    ResumeCrewed(s.workers, s.fibres, w, f, x);
    ResumeWaiting(s, w, x);
    DropOwned(s.store, s.calls, s.owner, s.fired, p);
    ResumeAlarmed(s.fibres, s.owner, f, x);
  }

  lemma HandIsReady(store: map<Place, Item>, workers: seq<Phase>, fibres: map<nat, Fibre>, w: nat)
    requires Handed(store, workers, fibres) && Hand(w) in store
    ensures w < |workers| && workers[w] == Holding
    ensures store[Hand(w)].FibreItem? ==>
              store[Hand(w)].fibre in fibres && fibres[store[Hand(w)].fibre].state == Ready
  {
  }

  lemma ReadyIsConsistent(s: State, f: nat)
    requires HeldRight(s.fibres, s.at.Keys) && f in s.fibres && s.fibres[f].state == Ready
    ensures Consistent(s.fibres[f]) && !s.fibres[f].pc.Parking? && f in s.at
  {
  }

  lemma DropTyped(store: map<Place, Item>, next: nat, p: Place)
    requires Typed(store, next)
    ensures Typed(store - {p}, next)
  {
  }

  lemma DropOwned(store: map<Place, Item>, calls: map<nat, Call>, owner: map<nat, nat>, fired: set<nat>, p: Place)
    requires Owned(store, calls, owner, fired)
    ensures Owned(store - {p}, calls, owner, fired)
  {
  }

  lemma ResumeHanded(s: State, w: nat, x: Fibre)
    requires Located(s.store, s.at) && Handed(s.store, s.workers, s.fibres) && Hand(w) in s.store
    requires s.store[Hand(w)].FibreItem?
    ensures var f := s.store[Hand(w)].fibre;
            Handed(s.store - {Hand(w)}, s.workers[w := Busy(f)], s.fibres[f := x])
  {
    var f := s.store[Hand(w)].fibre;
    forall p | p in s.store && p.Hand? && p != Hand(w) && s.store[p].FibreItem? ensures s.store[p].fibre != f {
      assert s.store[p].Who() == Some(s.store[p].fibre) && s.store[Hand(w)].Who() == Some(f);
    }
  }

  lemma ResumeCrewed(workers: seq<Phase>, fibres: map<nat, Fibre>, w: nat, f: nat, x: Fibre)
    requires Crewed(workers, fibres) && w < |workers| && workers[w] == Holding
    requires f in fibres && fibres[f].state == Ready && x.state == Running(w)
    ensures Crewed(workers[w := Busy(f)], fibres[f := x])
  {
  }

  lemma ResumeWaiting(s: State, w: nat, x: Fibre)
    requires Located(s.store, s.at) && Waiting(s.store, s.fibres, s.calls) && Hand(w) in s.store
    requires s.store[Hand(w)].FibreItem? && s.store[Hand(w)].fibre in s.fibres
    requires var pc := s.fibres[s.store[Hand(w)].fibre].pc;
             HasCall(x.pc) ==> HasCall(pc) && x.pc.call == pc.call
    ensures Waiting(s.store - {Hand(w)}, s.fibres[s.store[Hand(w)].fibre := x], s.calls)
  {
    var f := s.store[Hand(w)].fibre;
    forall p | p in s.store && p.Slot? && s.store[p].FibreItem? ensures s.store[p].fibre != f {
      assert s.store[p].Who() == Some(s.store[p].fibre) && s.store[Hand(w)].Who() == Some(f);
    }
  }

  lemma ResumeAlarmed(fibres: map<nat, Fibre>, owner: map<nat, nat>, f: nat, x: Fibre)
    requires Alarmed(fibres, owner) && f in fibres && x.pc == ResumedPc(fibres[f].pc)
    ensures Alarmed(fibres[f := x], owner)
  {
  }

  lemma SleepCallbackKeepsInv(s: State, w: nat)
    requires Inv(s) && Enabled(s, RunSleepCallback(w))
    ensures Inv(Apply(s, RunSleepCallback(w)))
  {
    hide Located, Typed, HeldRight, Handed, Crewed, Waiting, Owned, Alarmed;
    var p, q, item := Hand(w), Task(s.next), FibreItem(s.store[Hand(w)].fibre);
    FreshPlaceIsNew(s, q);
    HandIsReady(s.store, s.workers, s.fibres, w);
    MoveLocated(s.store, s.at, p, q, item);
    TypedMove(s.store, s.next, p, q, item);
    EmptiedHanded(s.store, s.workers, s.fibres, w, Free);
    PutHanded(s.store - {p}, s.workers[w := Free], s.fibres, q, item);
    WorkersCrewed(s.workers, s.fibres, w, Free);
    WaitingMove(s.store, s.fibres, s.calls, p, q, item);
    DropOwned(s.store, s.calls, s.owner, s.fired, p);
    PutOwned(s.store - {p}, s.calls, s.owner, s.fired, q, item);
  }

  lemma EmptiedHanded(store: map<Place, Item>, workers: seq<Phase>, fibres: map<nat, Fibre>, w: nat, phase: Phase)
    requires Handed(store, workers, fibres) && w < |workers| && phase != Holding
    ensures Handed(store - {Hand(w)}, workers[w := phase], fibres)
  {
  }

  /** The callback of a condition timer marks its call, unless the call is over or marked already. */
  lemma ConditionCallbackKeepsInv(s: State, w: nat)
    requires Inv(s) && Enabled(s, RunConditionCallback(w))
    ensures Inv(Apply(s, RunConditionCallback(w)))
  {
    hide Located, Typed, HeldRight, Handed, Crewed, Waiting, Owned, Alarmed, Blamed;
    var p, item := Hand(w), s.store[Hand(w)];
    var call := s.calls[item.call];
    var marks := call.alive && !call.cancelled;
    var phase := if marks then Cancelling(item.call) else Free;
    HandIsReady(s.store, s.workers, s.fibres, w);
    DropLocated(s.store, s.at, p);
    DropTyped(s.store, s.next, p);
    EmptiedHanded(s.store, s.workers, s.fibres, w, phase);
    WorkersCrewed(s.workers, s.fibres, w, phase);
    DropWaiting(s.store, s.fibres, s.calls, p);
    DropOwned(s.store, s.calls, s.owner, s.fired, p);
    ConditionIsOwn(s.store, s.calls, s.owner, s.fired, p);
    if marks {
      var call' := call.(cancelled := true, blame := Some(item.timer));
      CallsWaiting(s.store - {p}, s.fibres, s.calls, item.call, call');
      CallsOwned(s.store - {p}, s.calls, s.owner, s.fired, item.call, call');
      MarkBlamed(s, w, item.call, item.timer);
    } else {
      FreeBlamed(s, w);
    }
    BlamedIgnoresStore(s);
  }

  lemma DropWaiting(store: map<Place, Item>, fibres: map<nat, Fibre>, calls: map<nat, Call>, p: Place)
    requires Waiting(store, fibres, calls)
    ensures Waiting(store - {p}, fibres, calls)
  {
    hide WaitsFor;
  }

  lemma ConditionIsOwn(store: map<Place, Item>, calls: map<nat, Call>, owner: map<nat, nat>, fired: set<nat>, p: Place)
    requires Owned(store, calls, owner, fired) && p in store && store[p].CondItem? && !p.Timer?
    ensures store[p].timer in owner && owner[store[p].timer] == store[p].call && store[p].timer in fired
  {
  }

  /** A call keeps its descriptor and event. */
  lemma CallsWaiting(store: map<Place, Item>, fibres: map<nat, Fibre>, calls: map<nat, Call>, c: nat, call: Call)
    requires Waiting(store, fibres, calls)
    requires c in calls ==> calls[c].fd == call.fd && calls[c].event == call.event
    ensures Waiting(store, fibres, calls[c := call])
  {
  }

  lemma CallsOwned(store: map<Place, Item>, calls: map<nat, Call>, owner: map<nat, nat>, fired: set<nat>, c: nat,
                   call: Call)
    requires Owned(store, calls, owner, fired)
    ensures Owned(store, calls[c := call], owner, fired)
  {
  }

  lemma MarkBlamed(s: State, w: nat, c: nat, t: nat)
    requires Blamed(s) && c in s.calls && w < |s.workers| && t in s.owner && s.owner[t] == c && t in s.fired
    ensures Blamed(s.(calls := s.calls[c := s.calls[c].(cancelled := true, blame := Some(t))],
                      workers := s.workers[w := Cancelling(c)]))
  {
  }

  lemma FreeBlamed(s: State, w: nat)
    requires Blamed(s) && w < |s.workers|
    ensures Blamed(s.(workers := s.workers[w := Free])) && Blamed(s.(workers := s.workers[w := Holding]))
  {
  }

  lemma BlamedIgnoresStore(s: State)
    ensures forall t, store, at, ran :: Blamed(t) ==> Blamed(t.(store := store, at := at, ran := ran))
  {
  }

  lemma CancelForTimeoutKeepsInv(s: State, w: nat, c: nat)
    requires Inv(s) && Enabled(s, CancelForTimeout(w, c))
    ensures Inv(Apply(s, CancelForTimeout(w, c)))
  {
    hide Located, Typed, HeldRight, Handed, Crewed, Waiting, Owned, Alarmed, Blamed;
    var call := s.calls[c];
    TriggeredKeepsInv(s, call.fd, call.event);
    var t := Triggered(s, call.fd, call.event);
    EmptyHand(t.store, t.workers, t.fibres, w);
    EmptiedHanded(t.store, t.workers, t.fibres, w, Free);
    assert t.store - {Hand(w)} == t.store;
    WorkersCrewed(t.workers, t.fibres, w, Free);
    FreeBlamed(t, w);
  }

  lemma CallsKeepInv(s: State, c: nat, call: Call)
    requires Inv(s)
    requires c in s.calls ==>
               && s.calls[c].fd == call.fd && s.calls[c].event == call.event
               && s.calls[c].cancelled == call.cancelled && s.calls[c].blame == call.blame
    requires c !in s.calls ==> !call.cancelled
    ensures Inv(s.(calls := s.calls[c := call]))
  {
    hide Located, Typed, HeldRight, Handed, Crewed, Waiting, Owned, Alarmed;
    CallsWaiting(s.store, s.fibres, s.calls, c, call);
    CallsOwned(s.store, s.calls, s.owner, s.fired, c, call);
  }

  lemma EnterKeepsInv(s: State, f: nat, c: nat, call: Call)
    requires Inv(s) && Enabled(s, Enter(f, c, call))
    ensures Inv(Apply(s, Enter(f, c, call)))
  {
    hide Inv;
    CallsKeepInv(s, c, call);
    SetPcKeepsInv(s.(calls := s.calls[c := call]), f, Trying(c));
  }

  lemma AnsweredKeepsInv(s: State, f: nat)
    requires Inv(s) && Runs(s, f) && !IsParking(s.fibres[f]) && HasCall(s.fibres[f].pc) && s.fibres[f].pc.call in s.calls
    ensures Inv(Answered(s, f, s.fibres[f].pc.call))
  {
    hide Inv;
    var c := s.fibres[f].pc.call;
    SetPcKeepsInv(s, f, User);
    CallsKeepInv(SetPc(s, f, User), c, s.calls[c].(alive := false));
  }

  lemma ArmKeepsInv(s: State, t: nat, c: nat)
    requires Inv(s) && NewTimer(s, t) && c in s.calls && s.calls[c].timeout.Some?
    ensures Inv(WithTimer(s, t, c))
  {
    hide Located, Typed, HeldRight, Handed, Crewed, Waiting, Owned, Alarmed;
    var item := CondItem(t, c);
    PutLocated(s.store, s.at, Timer(t), item);
    PutTyped(s.store, s.next, Timer(t), item);
    PutHanded(s.store, s.workers, s.fibres, Timer(t), item);
    PutWaiting(s.store, s.fibres, s.calls, Timer(t), item);
    ArmOwned(s.store, s.calls, s.owner, s.fired, t, c);
    ArmAlarmed(s.fibres, s.owner, t, c);
  }

  lemma ArmOwned(store: map<Place, Item>, calls: map<nat, Call>, owner: map<nat, nat>, fired: set<nat>, t: nat, c: nat)
    requires Owned(store, calls, owner, fired) && t !in owner && c in calls && Timer(t) !in store
    ensures Owned(store[Timer(t) := CondItem(t, c)], calls, owner[t := c], fired)
  {
  }

  lemma ArmAlarmed(fibres: map<nat, Fibre>, owner: map<nat, nat>, t: nat, c: nat)
    requires Alarmed(fibres, owner)
    ensures Alarmed(fibres, owner[t := c])
  {
  }

  lemma WouldBlockKeepsInv(s: State, f: nat, t: nat)
    requires Inv(s) && Enabled(s, WouldBlock(f, t))
    ensures Inv(Apply(s, WouldBlock(f, t)))
  {
    hide Inv;
    var c := s.fibres[f].pc.call;
    if s.calls[c].timeout.Some? {
      ArmKeepsInv(s, t, c);
      SetPcKeepsInv(WithTimer(s, t, c), f, Armed(c, Some(t)));
    } else {
      SetPcKeepsInv(s, f, Armed(c, None));
    }
  }

  /** `timer->cancel()` on a condition timer of a call: no fibre is dropped with it. */
  lemma CancelledTimerKeepsInv(s: State, f: nat)
    requires Inv(s) && Runs(s, f) && TimerOf(s.fibres[f].pc).Some?
    ensures Inv(DropIfThere(s, Timer(TimerOf(s.fibres[f].pc).value)))
  {
    hide Located, Typed, HeldRight, Handed, Crewed, Waiting;
    var p := Timer(TimerOf(s.fibres[f].pc).value);
    if p in s.store {
      HoldsNoFibre(s, p);
      DropLocated(s.store, s.at, p);
      DropTyped(s.store, s.next, p);
      assert p !in s.store - {p};
      DropHanded(s.store, s.workers, s.fibres, p);
      DropWaiting(s.store, s.fibres, s.calls, p);
      DropOwned(s.store, s.calls, s.owner, s.fired, p);
    }
  }

  lemma HoldsNoFibre(s: State, p: Place)
    requires Typed(s.store, s.next) && Owned(s.store, s.calls, s.owner, s.fired)
    requires p in s.store && p.Timer? && p.id in s.owner
    ensures s.store[p].CondItem?
  {
  }

  lemma DropHanded(store: map<Place, Item>, workers: seq<Phase>, fibres: map<nat, Fibre>, p: Place)
    requires Handed(store, workers, fibres) && !p.Hand?
    ensures Handed(store - {p}, workers, fibres)
  {
  }

  /** The fibre leaves its worker: suspended in its hooked call, or finished. */
  lemma LeaveKeepsInv(s: State, f: nat, x: Fibre)
    requires Inv(s) && Runs(s, f) && !x.state.Running? && Consistent(x)
    requires IsParking(s.fibres[f]) <==> x.state == Ready
    requires x.state == Ready ==>
               if s.fibres[f].pc.Parking? then x.pc == Parked(s.fibres[f].pc.call, s.fibres[f].pc.timer)
               else x.pc == SleepParked
    ensures var w := s.fibres[f].state.worker;
            w < |s.workers| && Inv(Released(s.(fibres := s.fibres[f := x]), w))
  {
    hide Located, Typed, HeldRight, Handed, Crewed, Waiting, Owned, Alarmed, Blamed;
    var w := s.fibres[f].state.worker;
    RunsOn(s.workers, s.fibres, f);
    LeavingIsHeld(s, f);
    RunningIsConsistent(s, f);
    HeldStep(s.fibres, s.at.Keys, f, x, s.at.Keys);
    EmptyHand(s.store, s.workers, s.fibres, w);
    EmptiedHanded(s.store, s.workers, s.fibres, w, Free);
    assert s.store - {Hand(w)} == s.store;
    HandedStep(s.store, s.workers[w := Free], s.fibres, f, x);
    LeaveCrewed(s.workers, s.fibres, f, x);
    LeaveWaiting(s.store, s.fibres, s.calls, f, x);
    LeaveAlarmed(s.fibres, s.owner, f, x);
    FreeBlamed(s, w);
    BlamedIgnoresFibres(s);
  }

  lemma BlamedIgnoresFibres(s: State)
    ensures forall t, fibres :: Blamed(t) ==> Blamed(t.(fibres := fibres))
  {
  }

  lemma RunsOn(workers: seq<Phase>, fibres: map<nat, Fibre>, f: nat)
    requires Crewed(workers, fibres) && f in fibres && fibres[f].state.Running?
    ensures fibres[f].state.worker < |workers| && workers[fibres[f].state.worker] == Busy(f)
  {
  }

  lemma LeavingIsHeld(s: State, f: nat)
    requires HeldRight(s.fibres, s.at.Keys) && Runs(s, f)
    ensures f in s.at <==> IsParking(s.fibres[f])
  {
  }

  lemma LeaveCrewed(workers: seq<Phase>, fibres: map<nat, Fibre>, f: nat, x: Fibre)
    requires Crewed(workers, fibres) && f in fibres && fibres[f].state.Running? && !x.state.Running?
    ensures fibres[f].state.worker < |workers| && Crewed(workers[fibres[f].state.worker := Free], fibres[f := x])
  {
  }

  lemma LeaveWaiting(store: map<Place, Item>, fibres: map<nat, Fibre>, calls: map<nat, Call>, f: nat, x: Fibre)
    requires Waiting(store, fibres, calls) && f in fibres && fibres[f].state.Running? && Consistent(fibres[f])
    requires HasCall(x.pc) ==> fibres[f].pc.Parking? && x.pc == Parked(fibres[f].pc.call, fibres[f].pc.timer)
    requires fibres[f].pc.Parking? ==> x.pc.Parked?
    ensures Waiting(store, fibres[f := x], calls)
  {
  }

  lemma LeaveAlarmed(fibres: map<nat, Fibre>, owner: map<nat, nat>, f: nat, x: Fibre)
    requires Alarmed(fibres, owner) && f in fibres
    requires TimerOf(x.pc).Some? ==> TimerOf(x.pc) == TimerOf(fibres[f].pc)
    ensures Alarmed(fibres[f := x], owner)
  {
  }

  lemma RegisterKeepsInv(s: State, f: nat)
    requires Inv(s) && Enabled(s, Register(f))
    ensures Inv(Apply(s, Register(f)))
  {
    hide Inv;
    var pc := s.fibres[f].pc;
    TimerIsKnown(s, f);
    ParkKeepsInv(s, f, Parking(pc.call, pc.timer), Slot(s.calls[pc.call].fd, s.calls[pc.call].event), FibreItem(f));
  }

  lemma TimerIsKnown(s: State, f: nat)
    requires Inv(s) && f in s.fibres
    ensures TimerOf(s.fibres[f].pc).Some? ==> TimerOf(s.fibres[f].pc).value in s.owner
    ensures HasCall(s.fibres[f].pc) ==> s.fibres[f].pc.call in s.calls
  {
  }

  lemma RegisterFailsKeepsInv(s: State, f: nat)
    requires Inv(s) && Enabled(s, RegisterFails(f))
    ensures Inv(Apply(s, RegisterFails(f)))
  {
    hide Inv;
    var pc := s.fibres[f].pc;
    if pc.timer.Some? {
      CancelledTimerKeepsInv(s, f);
      AnsweredKeepsInv(DropIfThere(s, Timer(pc.timer.value)), f);
    } else {
      AnsweredKeepsInv(s, f);
    }
  }

  lemma CancelTimerKeepsInv(s: State, f: nat)
    requires Inv(s) && Enabled(s, CancelTimer(f))
    ensures Inv(Apply(s, CancelTimer(f)))
  {
    hide Inv;
    var pc := s.fibres[f].pc;
    TimerIsKnown(s, f);
    if pc.timer.Some? {
      CancelledTimerKeepsInv(s, f);
      SetPcKeepsInv(DropIfThere(s, Timer(pc.timer.value)), f, Checking(pc.call));
    } else {
      SetPcKeepsInv(s, f, Checking(pc.call));
    }
  }

  lemma CheckTimeoutKeepsInv(s: State, f: nat)
    requires Inv(s) && Enabled(s, CheckTimeout(f))
    ensures Inv(Apply(s, CheckTimeout(f)))
  {
    hide Located, Typed, HeldRight, Handed, Crewed, Waiting, Owned, Alarmed;
    var c := s.fibres[f].pc.call;
    if !s.calls[c].cancelled && s.calls[c].kind == Io {
      SetPcKeepsInv(s, f, Trying(c));
    } else {
      AnsweredKeepsInv(s, f);
    }
  }

  lemma SleepKeepsInv(s: State, f: nat, t: nat, ms: nat)
    requires Inv(s) && Enabled(s, Sleep(f, t, ms))
    ensures Inv(Apply(s, Sleep(f, t, ms)))
  {
    hide Inv;
    ParkKeepsInv(s, f, SleepParking, Timer(t), SleepItem(f));
    ClockKeepsInv(Put(SetPc(s, f, SleepParking), Timer(t), SleepItem(f)), s.now, s.due[t := s.now + ms]);
  }

  lemma ClockKeepsInv(s: State, now: nat, due: map<nat, nat>)
    requires Inv(s)
    ensures Inv(s.(now := now, due := due))
  {
    hide Located, Typed, HeldRight, Handed, Crewed, Waiting, Owned, Alarmed;
  }

  lemma CloseKeepsInv(s: State, f: nat, fd: nat)
    requires Inv(s) && Enabled(s, Close(f, fd))
    ensures Inv(Apply(s, Close(f, fd)))
  {
    hide Inv, Triggered;
    TriggeredKeepsInv(s, fd, READ);
    TriggeredKeepsInv(Triggered(s, fd, READ), fd, WRITE);
  }

  lemma ExpireKeepsInv(s: State, t: nat)
    requires Inv(s) && Enabled(s, Expire(t))
    ensures Inv(Apply(s, Expire(t)))
  {
    hide Located, HeldRight, Handed, Crewed, Waiting, Owned, Alarmed, Blamed;
    MoveKeepsInv(s, Timer(t), Transit(s.next));
  }

  lemma ScheduleExpiredKeepsInv(s: State, n: nat)
    requires Inv(s) && Enabled(s, ScheduleExpired(n))
    ensures Inv(Apply(s, ScheduleExpired(n)))
  {
    hide Located, HeldRight, Handed, Crewed, Waiting, Owned, Alarmed, Blamed;
    MoveKeepsInv(s, Transit(n), Task(s.next));
  }

  lemma YieldKeepsInv(s: State, f: nat)
    requires Inv(s) && Enabled(s, Yield(f))
    ensures Inv(Apply(s, Yield(f)))
  {
    hide Inv;
    var pc := s.fibres[f].pc;
    LeaveKeepsInv(s, f, Fibre(Ready, if pc.Parking? then Parked(pc.call, pc.timer) else SleepParked));
  }

  lemma FinishKeepsInv(s: State, f: nat)
    requires Inv(s) && Enabled(s, Finish(f))
    ensures Inv(Apply(s, Finish(f)))
  {
    hide Inv;
    LeaveKeepsInv(s, f, Fibre(Term, Ended));
  }

  lemma StepKeepsInv(s: State, l: Label)
    requires Inv(s) && Enabled(s, l)
    ensures Inv(Apply(s, l))
  {
    hide Inv, Spawned, Taken, Resumed, SleepOver, CalledBack, Expired, Blocked, Registered, Disarmed, Left, Suspended;
    hide Checked, Slept, Triggered, Answered, SetPc, Released, Move;
    match l
    case Tick(ms) => ClockKeepsInv(s, s.now + ms, s.due);
    case Spawn(f) => SpawnKeepsInv(s, f);
    case Take(w, n) => TakeKeepsInv(s, w, n);
    case Resume(w) => ResumeKeepsInv(s, w);
    case RunSleepCallback(w) => SleepCallbackKeepsInv(s, w);
    case RunConditionCallback(w) => ConditionCallbackKeepsInv(s, w);
    case CancelForTimeout(w, c) => CancelForTimeoutKeepsInv(s, w, c);
    case Trigger(fd, event) => TriggeredKeepsInv(s, fd, event);
    case Expire(t) => ExpireKeepsInv(s, t);
    case ScheduleExpired(n) => ScheduleExpiredKeepsInv(s, n);
    case Enter(f, c, call) => EnterKeepsInv(s, f, c, call);
    case SyscallReturns(f) => AnsweredKeepsInv(s, f);
    case WouldBlock(f, t) => WouldBlockKeepsInv(s, f, t);
    case Register(f) => RegisterKeepsInv(s, f);
    case RegisterFails(f) => RegisterFailsKeepsInv(s, f);
    case Yield(f) => YieldKeepsInv(s, f);
    case CancelTimer(f) => CancelTimerKeepsInv(s, f);
    case CheckTimeout(f) => CheckTimeoutKeepsInv(s, f);
    case Sleep(f, t, ms) => SleepKeepsInv(s, f, t, ms);
    case Close(f, fd) => CloseKeepsInv(s, f, fd);
    case Finish(f) => FinishKeepsInv(s, f);
  }

  // ----- whole runs ------------------------------------------------------------------------------------------------

  /** The state after a run, when every step of it was enabled. */
  function After(s: State, ls: seq<Label>): Option<State> {
    if ls == [] then Some(s)
    else
      var before := After(s, ls[..|ls| - 1]);
      if before.Some? && Enabled(before.value, ls[|ls| - 1]) then Some(Apply(before.value, ls[|ls| - 1])) else None
  }

  lemma {:induction false} RunKeepsInv(s: State, ls: seq<Label>)
    requires Inv(s) && After(s, ls).Some?
    ensures Inv(After(s, ls).value)
  {
    hide Inv, Enabled, Apply;
    if ls != [] {
      RunKeepsInv(s, ls[..|ls| - 1]);
      StepKeepsInv(After(s, ls[..|ls| - 1]).value, ls[|ls| - 1]);
    }
  }

  ghost predicate Reachable(s: State) {
    exists n, ls :: After(Initial(n), ls) == Some(s)
  }

  lemma ReachableInv(s: State)
    requires Reachable(s)
    ensures Inv(s)
  {
    hide Inv, Enabled, Apply, After, Initial;
    var n, ls :| After(Initial(n), ls) == Some(s);
    InitialInv(n);
    RunKeepsInv(Initial(n), ls);
  }

  /** The fibre waits at the place: it, or a callback that will schedule it, is there. */
  predicate Holds(s: State, p: Place, f: nat) {
    p in s.store && s.store[p].Who() == Some(f)
  }

  /** In every reachable state each fibre is in at most one waiting place; a suspended one in exactly one, a
      finished one in none; and a running one is on exactly one worker. */
  lemma EveryFibreIsInItsPlace(s: State, f: nat)
    requires Reachable(s) && f in s.fibres
    ensures forall p, q :: Holds(s, p, f) && Holds(s, q, f) ==> p == q
    ensures s.fibres[f].state == Ready ==> exists p :: Holds(s, p, f)
    ensures s.fibres[f].state == Term ==> forall p :: !Holds(s, p, f)
    ensures s.fibres[f].state.Running? ==>
              forall w :: 0 <= w < |s.workers| ==> (s.workers[w] == Busy(f) <==> w == s.fibres[f].state.worker)
  {
    hide Typed, Handed, Waiting, Owned, Alarmed, Blamed, Reachable;
    ReachableInv(s);
    if s.fibres[f].state == Ready {
      assert Holds(s, s.at[f], f);
    }
  }

  /** In no reachable state can the assertion of `resume` fail, and no two workers are about to resume one fibre. */
  lemma ResumeNeverFails(s: State, w: nat, v: nat)
    requires Reachable(s) && Enabled(s, Resume(w))
    ensures s.store[Hand(w)].fibre in s.fibres && s.fibres[s.store[Hand(w)].fibre].state == Ready
    ensures v != w && Enabled(s, Resume(v)) ==> s.store[Hand(v)].fibre != s.store[Hand(w)].fibre
  {
    hide Typed, HeldRight, Crewed, Waiting, Owned, Alarmed, Blamed, Reachable;
    ReachableInv(s);
    ResumeKeepsInv(s, w);
    if v != w && Enabled(s, Resume(v)) {
      assert s.store[Hand(w)].Who() == Some(s.store[Hand(w)].fibre);
      assert s.store[Hand(v)].Who() == Some(s.store[Hand(v)].fibre);
    }
  }

  /** Between two resumptions of a fibre it has yielded: without a yield it never becomes ready again. */
  lemma {:induction false} NotReadyBeforeYield(s: State, f: nat, ls: seq<Label>)
    requires f in s.fibres && s.fibres[f].state != Ready
    requires After(s, ls).Some? && Yield(f) !in ls
    ensures f in After(s, ls).value.fibres && After(s, ls).value.fibres[f].state != Ready
  {
    hide Enabled, Apply;
    if ls != [] {
      var front, l := ls[..|ls| - 1], ls[|ls| - 1];
      assert Yield(f) !in front && l in ls;
      NotReadyBeforeYield(s, f, front);
      OnlyYieldMakesReady(After(s, front).value, f, l);
    }
  }

  // ----- which fibre each step changes -----------------------------------------------------------------------------

  lemma SetPcFibres(s: State, f: nat, pc: Pc)
    requires f in s.fibres
    ensures SetPc(s, f, pc).fibres == s.fibres[f := s.fibres[f].(pc := pc)]
  {
  }

  lemma AnsweredFibres(s: State, f: nat, c: nat)
    requires f in s.fibres && c in s.calls
    ensures Answered(s, f, c).fibres == s.fibres[f := s.fibres[f].(pc := User)]
  {
  }

  lemma CheckedFibres(s: State, f: nat)
    requires InCall(s, f)
    ensures f in Checked(s, f).fibres && Checked(s, f).fibres[f].state == s.fibres[f].state
    ensures Checked(s, f).fibres == s.fibres[f := Checked(s, f).fibres[f]]
  {
    hide SetPc, Answered;
    var c := s.fibres[f].pc.call;
    AnsweredFibres(s, f, c);
    SetPcFibres(s, f, Trying(c));
  }

  lemma DisarmedFibres(s: State, f: nat)
    requires f in s.fibres
    ensures Disarmed(s, f).fibres == s.fibres && Disarmed(s, f).calls == s.calls
  {
  }

  lemma RefusedFibres(s: State, f: nat)
    requires Enabled(s, RegisterFails(f))
    ensures Apply(s, RegisterFails(f)).fibres == s.fibres[f := s.fibres[f].(pc := User)]
  {
    hide Disarmed, Answered;
    DisarmedFibres(s, f);
    AnsweredFibres(Disarmed(s, f), f, s.fibres[f].pc.call);
  }

  lemma DoneWaitingFibres(s: State, f: nat)
    requires Enabled(s, CancelTimer(f))
    ensures Apply(s, CancelTimer(f)).fibres == s.fibres[f := s.fibres[f].(pc := Checking(s.fibres[f].pc.call))]
  {
    hide Disarmed, SetPc;
    DisarmedFibres(s, f);
    SetPcFibres(Disarmed(s, f), f, Checking(s.fibres[f].pc.call));
  }

  lemma ReleasedFibres(s: State, w: nat)
    requires w < |s.workers|
    ensures Released(s, w).fibres == s.fibres
  {
  }

  lemma LeftFibres(s: State, f: nat, x: Fibre)
    requires Runs(s, f)
    ensures Left(s, f, x).fibres == s.fibres[f := x]
  {
    hide Released;
    var w := s.fibres[f].state.worker;
    if w < |s.workers| {
      ReleasedFibres(s.(fibres := s.fibres[f := x]), w);
    }
  }

  lemma BlockedFibres(s: State, f: nat, t: nat)
    requires InCall(s, f)
    ensures f in Blocked(s, f, t).fibres && Blocked(s, f, t).fibres[f].state == s.fibres[f].state
    ensures Blocked(s, f, t).fibres == s.fibres[f := Blocked(s, f, t).fibres[f]]
  {
    hide SetPc;
    var c := s.fibres[f].pc.call;
    SetPcFibres(s, f, Armed(c, None));
    if s.calls[c].timeout.Some? {
      SetPcFibres(WithTimer(s, t, c), f, Armed(c, Some(t)));
    }
  }

  lemma RegisteredFibres(s: State, f: nat)
    requires InCall(s, f) && s.fibres[f].pc.Armed?
    ensures f in Registered(s, f).fibres && Registered(s, f).fibres[f].state == s.fibres[f].state
    ensures Registered(s, f).fibres == s.fibres[f := Registered(s, f).fibres[f]]
  {
    hide SetPc;
    SetPcFibres(s, f, Parking(s.fibres[f].pc.call, s.fibres[f].pc.timer));
  }

  lemma SleptFibres(s: State, f: nat, t: nat, ms: nat)
    requires f in s.fibres
    ensures Slept(s, f, t, ms).fibres == s.fibres[f := s.fibres[f].(pc := SleepParking)]
  {
    hide SetPc;
    SetPcFibres(s, f, SleepParking);
  }

  lemma TriggeredFibres(s: State, fd: nat, event: Event)
    ensures Triggered(s, fd, event).fibres == s.fibres
  {
  }

  lemma ClosedFibres(s: State, fd: nat)
    ensures Triggered(Triggered(s, fd, READ), fd, WRITE).fibres == s.fibres
  {
    hide Triggered;
    TriggeredFibres(s, fd, READ);
    TriggeredFibres(Triggered(s, fd, READ), fd, WRITE);
  }

  lemma CalledBackFibres(s: State, w: nat)
    requires w < |s.workers| && Hand(w) in s.store && s.store[Hand(w)].CondItem? && s.store[Hand(w)].call in s.calls
    ensures CalledBack(s, w).fibres == s.fibres
  {
  }

  lemma SleepOverFibres(s: State, w: nat)
    requires w < |s.workers| && Hand(w) in s.store && s.store[Hand(w)].SleepItem?
    ensures SleepOver(s, w).fibres == s.fibres
  {
  }

  lemma TakenFibres(s: State, w: nat, n: nat)
    requires w < |s.workers| && Task(n) in s.store
    ensures Taken(s, w, n).fibres == s.fibres
  {
  }

  lemma ExpiredFibres(s: State, t: nat)
    requires Timer(t) in s.store
    ensures Expired(s, t).fibres == s.fibres
  {
  }

  lemma ResumedFibres(s: State, w: nat)
    requires w < |s.workers| && Hand(w) in s.store && s.store[Hand(w)].FibreItem?
    ensures var f := s.store[Hand(w)].fibre;
            && f in Resumed(s, w).fibres && Resumed(s, w).fibres[f].state == Running(w)
            && Resumed(s, w).fibres == s.fibres[f := Resumed(s, w).fibres[f]]
  {
  }

  lemma SpawnedFibres(s: State, f: nat)
    ensures Spawned(s, f).fibres == s.fibres[f := Fibre(Ready, Fresh)]
  {
  }

  /** The fibre that a step changes, if any. */
  function Actor(s: State, l: Label): Option<nat> {
    match l
    case Spawn(f) => Some(f)
    case Resume(w) => if Hand(w) in s.store && s.store[Hand(w)].FibreItem? then Some(s.store[Hand(w)].fibre) else None
    case Enter(f, _, _) => Some(f)
    case SyscallReturns(f) => Some(f)
    case WouldBlock(f, _) => Some(f)
    case Register(f) => Some(f)
    case RegisterFails(f) => Some(f)
    case Yield(f) => Some(f)
    case CancelTimer(f) => Some(f)
    case CheckTimeout(f) => Some(f)
    case Sleep(f, _, _) => Some(f)
    case Finish(f) => Some(f)
    case _ => None
  }

  /** The other fibres stay, and the actor stays or becomes unready unless it is spawned or yields. */
  predicate OthersStay(s: State, l: Label, r: map<nat, Fibre>) {
    match Actor(s, l)
    case None => r == s.fibres
    case Some(f) => f in r && r == s.fibres[f := r[f]] && (l.Spawn? || l.Yield? || r[f].state != Ready)
  }

  /** The steps of a hooked call, and the end of a fibre. */
  predicate IsCallStep(l: Label) {
    l.Enter? || l.SyscallReturns? || l.WouldBlock? || l.Register? || l.RegisterFails? || l.Yield? || l.CancelTimer?
    || l.CheckTimeout? || l.Sleep? || l.Finish?
  }

  lemma CallStepChanges(s: State, l: Label)
    requires Enabled(s, l) && IsCallStep(l)
    ensures OthersStay(s, l, Apply(s, l).fibres)
  {
    hide Checked, Disarmed, SetPc, Answered, Left, Blocked, Registered, Slept, Suspended;
    match l {
      case Enter(f, c, _) => SetPcFibres(s, f, Trying(c));
      case SyscallReturns(f) => AnsweredFibres(s, f, s.fibres[f].pc.call);
      case WouldBlock(f, t) => BlockedFibres(s, f, t);
      case Register(f) => RegisteredFibres(s, f);
      case RegisterFails(f) => RefusedFibres(s, f);
      case Yield(f) => LeftFibres(s, f, Fibre(Ready, Suspended(s.fibres[f].pc)));
      case CancelTimer(f) => DoneWaitingFibres(s, f);
      case CheckTimeout(f) => CheckedFibres(s, f);
      case Sleep(f, t, ms) => SleptFibres(s, f, t, ms);
      case Finish(f) => LeftFibres(s, f, Fibre(Term, Ended));
    }
  }

  lemma OtherStepChanges(s: State, l: Label)
    requires Enabled(s, l) && !IsCallStep(l)
    ensures OthersStay(s, l, Apply(s, l).fibres)
  {
    hide Triggered, CalledBack, SleepOver, Taken, Expired, Resumed, Spawned;
    match l {
      case Spawn(f) => SpawnedFibres(s, f);
      case Take(w, n) => TakenFibres(s, w, n);
      case Resume(w) => ResumedFibres(s, w);
      case RunSleepCallback(w) => SleepOverFibres(s, w);
      case RunConditionCallback(w) => CalledBackFibres(s, w);
      case CancelForTimeout(w, c) => TriggeredFibres(s, s.calls[c].fd, s.calls[c].event);
      case Trigger(fd, event) => TriggeredFibres(s, fd, event);
      case Expire(t) => ExpiredFibres(s, t);
      case Close(_, fd) => ClosedFibres(s, fd);
      case Tick(_) =>
      case ScheduleExpired(_) =>
    }
  }

  /** A step changes no other fibre, and its own one stays or becomes unready unless it is spawned or yields. */
  lemma OneFibreChanges(s: State, l: Label)
    requires Enabled(s, l)
    ensures var r := Apply(s, l).fibres;
            match Actor(s, l)
            case None => r == s.fibres
            case Some(f) => f in r && r == s.fibres[f := r[f]] && (l.Spawn? || l.Yield? || r[f].state != Ready)
  {
    hide Enabled, Apply, Actor;
    if IsCallStep(l) {
      CallStepChanges(s, l);
    } else {
      OtherStepChanges(s, l);
    }
  }

  lemma OnlyYieldMakesReady(s: State, f: nat, l: Label)
    requires Enabled(s, l) && f in s.fibres && s.fibres[f].state != Ready && l != Yield(f)
    ensures f in Apply(s, l).fibres && Apply(s, l).fibres[f].state != Ready
  {
    hide Apply;
    OneFibreChanges(s, l);
  }

  /** A fibre registered for an event of a descriptor is one whose present call waits for exactly that event. */
  lemma EventsWakeTheirWaiters(s: State, fd: nat, event: Event)
    requires Reachable(s) && Slot(fd, event) in s.store
    ensures s.store[Slot(fd, event)].FibreItem?
    ensures WaitsFor(s.fibres, s.calls, s.store[Slot(fd, event)].fibre, fd, event)
  {
    hide Located, HeldRight, Handed, Crewed, Owned, Alarmed, Blamed, Reachable;
    ReachableInv(s);
  }

  lemma TriggeredIs(s: State, fd: nat, event: Event)
    ensures var r, p := Triggered(s, fd, event), Slot(fd, event);
            if p in s.store then
              r.store == (s.store - {p})[Task(s.next) := s.store[p]] && r.next == s.next + 1 && r.fibres == s.fibres
            else r == s
  {
  }

  /** The event wakes the fibre that waits for it and nobody else: it moves from the event context to the end of the
      task list, and everything else stays where it is. */
  lemma TriggerWakes(s: State, fd: nat, event: Event)
    requires Reachable(s)
    ensures var r, p := Apply(s, Trigger(fd, event)), Slot(fd, event);
            if p in s.store then
              && Task(s.next) !in s.store && p !in r.store && r.fibres == s.fibres
              && r.store == (s.store - {p})[Task(s.next) := s.store[p]]
            else r == s
  {
    hide Located, HeldRight, Handed, Crewed, Waiting, Owned, Alarmed, Blamed, Reachable, Triggered;
    ReachableInv(s);
    FreshPlaceIsNew(s, Task(s.next));
    TriggeredIs(s, fd, event);
  }

  /** Closing a descriptor wakes whoever waits for either of its events, the reader first, and nobody else. */
  lemma CloseWakes(s: State, f: nat, fd: nat)
    requires Enabled(s, Close(f, fd))
    ensures var r := Apply(s, Close(f, fd)).store;
            var reading, writing := Slot(fd, READ), Slot(fd, WRITE);
            && reading !in r && writing !in r
            && (reading in s.store ==> Task(s.next) in r && r[Task(s.next)] == s.store[reading])
            && (writing in s.store ==>
                  var n := s.next + if reading in s.store then 1 else 0;
                  Task(n) in r && r[Task(n)] == s.store[writing])
            && forall p :: p != reading && p != writing && !(p.Task? && p.n >= s.next) ==>
                 (p in r <==> p in s.store) && (p in r ==> r[p] == s.store[p])
  {
    hide Triggered;
    TriggeredIs(s, fd, READ);
    TriggeredIs(Triggered(s, fd, READ), fd, WRITE);
  }

  /** What a running fibre can always do: end, come back from the system call or give up in its hooked call. */
  function OwnSteps(f: nat): set<Label> {
    {Finish(f), SyscallReturns(f), RegisterFails(f), Yield(f), CancelTimer(f), CheckTimeout(f)}
  }

  lemma RunningStep(s: State, f: nat)
    requires HeldRight(s.fibres, s.at.Keys) && Waiting(s.store, s.fibres, s.calls) && Runs(s, f)
    ensures exists l :: l in OwnSteps(f) && Enabled(s, l)
  {
    var l := match s.fibres[f].pc
      case Trying(_) => SyscallReturns(f)
      case Armed(_, _) => RegisterFails(f)
      case Parking(_, _) => Yield(f)
      case SleepParking => Yield(f)
      case Woken(_, _) => CancelTimer(f)
      case Checking(_) => CheckTimeout(f)
      case _ => Finish(f);
    assert l in OwnSteps(f) && Enabled(s, l);
  }

  /** No assertion and no missing call stops a running fibre: in every reachable state it has a step of its own. */
  lemma RunningFibresGoOn(s: State, f: nat)
    requires Reachable(s) && Runs(s, f)
    ensures exists l :: l in OwnSteps(f) && Enabled(s, l)
  {
    hide Inv, Enabled, Reachable, OwnSteps;
    ReachableInv(s);
    RunningStepOf(s, f);
  }

  lemma RunningStepOf(s: State, f: nat)
    requires Inv(s) && Runs(s, f)
    ensures exists l :: l in OwnSteps(f) && Enabled(s, l)
  {
    hide Enabled, OwnSteps, HeldRight, Waiting;
    RunningStep(s, f);
  }

  /** A worker that holds an item, or is cancelling for a timeout, always has a next step. */
  lemma WorkersCanGoOn(s: State, w: nat)
    requires Reachable(s) && w < |s.workers|
    ensures s.workers[w] == Holding ==>
              Enabled(s, Resume(w)) || Enabled(s, RunSleepCallback(w)) || Enabled(s, RunConditionCallback(w))
    ensures s.workers[w].Cancelling? ==> Enabled(s, CancelForTimeout(w, s.workers[w].call))
  {
    hide Located, Typed, HeldRight, Crewed, Waiting, Alarmed, Reachable;
    ReachableInv(s);
  }
}
