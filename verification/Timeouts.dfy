/** Timeouts of hooked calls: when one is answered, when it can still wake a fibre, and how it can be lost. */
module Timeouts {
  import opened Bytes
  import opened FibreRuntime

  // ----- what else holds in every state ---------------------------------------------------------------------------

  /** The call is the fibre's own and not over, and the timer of the present round is one that the call made. */
  ghost predicate OwnCall(pc: Pc, f: nat, calls: map<nat, Call>, owner: map<nat, nat>) {
    HasCall(pc) ==>
      && pc.call in calls && calls[pc.call].alive && calls[pc.call].caller == f
      && (TimerOf(pc).Some? ==> TimerOf(pc).value in owner && owner[TimerOf(pc).value] == pc.call)
  }

  ghost predicate Called(fibres: map<nat, Fibre>, calls: map<nat, Call>, owner: map<nat, nat>) {
    forall f :: f in fibres ==> OwnCall(fibres[f].pc, f, calls, owner)
  }

  /** The callback of the timer is in the timer set, on its way to a worker, or in a worker's hand. */
  ghost predicate InFlight(store: map<Place, Item>, t: nat, c: nat) {
    exists p :: p in store && store[p] == CondItem(t, c)
  }

  /** While a call is not marked, the callback of its present timer is in flight. */
  ghost predicate Alerted(store: map<Place, Item>, fibres: map<nat, Fibre>, calls: map<nat, Call>) {
    forall f :: f in fibres && TimerOf(fibres[f].pc).Some? && fibres[f].pc.call in calls
                && !calls[fibres[f].pc.call].cancelled ==>
      InFlight(store, TimerOf(fibres[f].pc).value, fibres[f].pc.call)
  }

  /** The timer was made by an attempt of its call that would have blocked, and is due a timeout later. */
  ghost predicate DueRight(t: nat, calls: map<nat, Call>, owner: map<nat, nat>, due: map<nat, nat>, made: map<nat, nat>,
                           now: nat)
    requires t in owner
  {
    && t in due && t in made && owner[t] in calls && calls[owner[t]].timeout.Some?
    && calls[owner[t]].entered <= made[t] <= now && due[t] == made[t] + calls[owner[t]].timeout.value
  }

  ghost predicate Clocked(store: map<Place, Item>, calls: map<nat, Call>, owner: map<nat, nat>, fired: set<nat>,
                          due: map<nat, nat>, made: map<nat, nat>, now: nat) {
    && (forall t :: t in owner ==> DueRight(t, calls, owner, due, made, now))
    && (forall t :: t in fired ==> t in due && due[t] <= now)
    && (forall p :: p in store && p.Timer? ==> p.id in due)
    && (forall c :: c in calls ==> calls[c].entered <= now)
  }

  /** A call that is not over is marked exactly when a callback of its own has run. */
  ghost predicate Marked(calls: map<nat, Call>, owner: map<nat, nat>, fired: set<nat>, ran: set<nat>) {
    && (forall t :: t in ran ==>
          t in owner && t in fired && owner[t] in calls && (calls[owner[t]].alive ==> calls[owner[t]].cancelled))
    && (forall c :: c in calls && calls[c].cancelled ==> calls[c].blame.Some? && calls[c].blame.value in ran)
  }

  ghost predicate Timely(s: State) {
    && Called(s.fibres, s.calls, s.owner) && Alerted(s.store, s.fibres, s.calls)
    && Clocked(s.store, s.calls, s.owner, s.fired, s.due, s.made, s.now)
    && Marked(s.calls, s.owner, s.fired, s.ran)
  }

  // ----- parts of a step --------------------------------------------------------------------------------------------

  lemma AlertedPut(store: map<Place, Item>, fibres: map<nat, Fibre>, calls: map<nat, Call>, q: Place, item: Item)
    requires Alerted(store, fibres, calls) && q !in store
    ensures Alerted(store[q := item], fibres, calls)
  {
    forall t, c | InFlight(store, t, c) ensures InFlight(store[q := item], t, c) {
      var p :| p in store && store[p] == CondItem(t, c);
      assert store[q := item][p] == CondItem(t, c);
    }
  }

  lemma AlertedDrop(store: map<Place, Item>, fibres: map<nat, Fibre>, calls: map<nat, Call>, p: Place)
    requires Alerted(store, fibres, calls) && (p in store ==> !store[p].CondItem?)
    ensures Alerted(store - {p}, fibres, calls)
  {
    forall t, c | InFlight(store, t, c) ensures InFlight(store - {p}, t, c) {
      var q :| q in store && store[q] == CondItem(t, c);
      assert (store - {p})[q] == CondItem(t, c);
    }
  }

  lemma AlertedMove(store: map<Place, Item>, fibres: map<nat, Fibre>, calls: map<nat, Call>, p: Place, q: Place,
                    item: Item)
    requires Alerted(store, fibres, calls) && p in store && q !in store && (store[p].CondItem? ==> item == store[p])
    ensures Alerted((store - {p})[q := item], fibres, calls)
  {
    var moved := (store - {p})[q := item];
    forall t, c | InFlight(store, t, c) ensures InFlight(moved, t, c) {
      var r :| r in store && store[r] == CondItem(t, c);
      assert moved[if r == p then q else r] == CondItem(t, c);
    }
  }

  lemma AlertedFibre(store: map<Place, Item>, fibres: map<nat, Fibre>, calls: map<nat, Call>, f: nat, x: Fibre)
    requires Alerted(store, fibres, calls)
    requires TimerOf(x.pc).Some? ==>
               f in fibres && TimerOf(fibres[f].pc) == TimerOf(x.pc) && fibres[f].pc.call == x.pc.call
    ensures Alerted(store, fibres[f := x], calls)
  {
    hide InFlight;
  }

  lemma AlertedCall(store: map<Place, Item>, fibres: map<nat, Fibre>, calls: map<nat, Call>, owner: map<nat, nat>,
                    c: nat, call: Call)
    requires Alerted(store, fibres, calls) && Called(fibres, calls, owner)
    requires c in calls && calls[c].cancelled ==> call.cancelled
    ensures Alerted(store, fibres, calls[c := call])
  {
    hide InFlight;
    forall f | f in fibres && TimerOf(fibres[f].pc).Some? ensures fibres[f].pc.call in calls {
      assert OwnCall(fibres[f].pc, f, calls, owner);
    }
  }

  lemma CalledFibre(fibres: map<nat, Fibre>, calls: map<nat, Call>, owner: map<nat, nat>, f: nat, x: Fibre)
    requires Called(fibres, calls, owner) && OwnCall(x.pc, f, calls, owner)
    ensures Called(fibres[f := x], calls, owner)
  {
    hide OwnCall;
  }

  /** A call changes without ending, or a new one is added. */
  lemma CalledCall(fibres: map<nat, Fibre>, calls: map<nat, Call>, owner: map<nat, nat>, c: nat, call: Call)
    requires Called(fibres, calls, owner)
    requires c in calls ==> calls[c].alive == call.alive && calls[c].caller == call.caller
    ensures Called(fibres, calls[c := call], owner)
  {
    forall f | f in fibres ensures OwnCall(fibres[f].pc, f, calls[c := call], owner) {
      assert OwnCall(fibres[f].pc, f, calls, owner);
    }
  }

  /** The call ends, and its only fibre leaves it. */
  lemma CalledEnd(fibres: map<nat, Fibre>, calls: map<nat, Call>, owner: map<nat, nat>, f: nat, x: Fibre, call: Call)
    requires Called(fibres, calls, owner) && f in fibres && HasCall(fibres[f].pc) && !HasCall(x.pc)
    requires fibres[f].pc.call in calls
    ensures Called(fibres[f := x], calls[fibres[f].pc.call := call], owner)
  {
    var c := fibres[f].pc.call;
    assert OwnCall(fibres[f].pc, f, calls, owner);
    forall g | g in fibres && g != f ensures OwnCall(fibres[g].pc, g, calls[c := call], owner) {
      assert OwnCall(fibres[g].pc, g, calls, owner);
    }
  }

  lemma ClockedStore(s: State, store: map<Place, Item>)
    requires Clocked(s.store, s.calls, s.owner, s.fired, s.due, s.made, s.now)
    requires forall p :: p in store && p.Timer? ==> p in s.store
    ensures Clocked(store, s.calls, s.owner, s.fired, s.due, s.made, s.now)
  {
    hide DueRight;
  }

  lemma ClockedCall(s: State, c: nat, call: Call)
    requires Clocked(s.store, s.calls, s.owner, s.fired, s.due, s.made, s.now)
    requires c in s.calls ==> s.calls[c].timeout == call.timeout && s.calls[c].entered == call.entered
    requires c !in s.calls ==> call.entered <= s.now
    ensures Clocked(s.store, s.calls[c := call], s.owner, s.fired, s.due, s.made, s.now)
  {
    forall t | t in s.owner ensures DueRight(t, s.calls[c := call], s.owner, s.due, s.made, s.now) {
      assert DueRight(t, s.calls, s.owner, s.due, s.made, s.now);
    }
  }

  lemma MarkedCall(s: State, c: nat, call: Call)
    requires Marked(s.calls, s.owner, s.fired, s.ran)
    requires c in s.calls ==>
               (call.alive ==> s.calls[c].alive)
               && call.cancelled == s.calls[c].cancelled && call.blame == s.calls[c].blame
    requires c !in s.calls ==> !call.cancelled
    ensures Marked(s.calls[c := call], s.owner, s.fired, s.ran)
  {
  }

  lemma SetPcKeepsTimely(s: State, f: nat, pc: Pc)
    requires Timely(s) && f in s.fibres && OwnCall(pc, f, s.calls, s.owner)
    requires TimerOf(pc).Some? ==> TimerOf(s.fibres[f].pc) == TimerOf(pc) && s.fibres[f].pc.call == pc.call
    ensures Timely(SetPc(s, f, pc))
  {
    hide OwnCall, Called, Alerted, Clocked, Marked;
    CalledFibre(s.fibres, s.calls, s.owner, f, s.fibres[f].(pc := pc));
    AlertedFibre(s.store, s.fibres, s.calls, f, s.fibres[f].(pc := pc));
  }

  lemma AnsweredKeepsTimely(s: State, f: nat)
    requires Timely(s) && InCall(s, f)
    ensures Timely(Answered(s, f, s.fibres[f].pc.call))
  {
    hide OwnCall, Called, Alerted, Clocked, Marked;
    var c := s.fibres[f].pc.call;
    var x, call := s.fibres[f].(pc := User), s.calls[c].(alive := false);
    CalledEnd(s.fibres, s.calls, s.owner, f, x, call);
    AlertedCall(s.store, s.fibres, s.calls, s.owner, c, call);
    AlertedFibre(s.store, s.fibres, s.calls[c := call], f, x);
    ClockedCall(s, c, call);
    MarkedCall(s, c, call);
  }

  lemma OwnCallOf(s: State, f: nat)
    requires Timely(s) && f in s.fibres
    ensures OwnCall(s.fibres[f].pc, f, s.calls, s.owner)
  {
    hide OwnCall;
  }

  /** The timer of the present round is cancelled and forgotten by its fibre, which is in no other fibre's way. */
  lemma AlertedDisarm(s: State, f: nat, x: Fibre)
    requires Timely(s) && Typed(s.store, s.next) && f in s.fibres && TimerOf(s.fibres[f].pc).Some?
    requires TimerOf(x.pc).None?
    ensures Alerted(s.store - {Timer(TimerOf(s.fibres[f].pc).value)}, s.fibres[f := x], s.calls)
  {
    var t := TimerOf(s.fibres[f].pc).value;
    OwnCallOf(s, f);
    forall g | g in s.fibres && g != f && TimerOf(s.fibres[g].pc).Some? && s.fibres[g].pc.call in s.calls
               && !s.calls[s.fibres[g].pc.call].cancelled
      ensures InFlight(s.store - {Timer(t)}, TimerOf(s.fibres[g].pc).value, s.fibres[g].pc.call)
    {
      OwnCallOf(s, g);
      var u, c := TimerOf(s.fibres[g].pc).value, s.fibres[g].pc.call;
      assert InFlight(s.store, u, c);
      var p :| p in s.store && s.store[p] == CondItem(u, c);
      assert (s.store - {Timer(t)})[p] == CondItem(u, c);
    }
  }

  lemma DisarmedKeepsTimely(s: State, f: nat, x: Fibre)
    requires Timely(s) && Typed(s.store, s.next) && f in s.fibres && TimerOf(x.pc).None?
    requires OwnCall(x.pc, f, s.calls, s.owner)
    ensures var d := Disarmed(s, f); Timely(d.(fibres := d.fibres[f := x]))
  {
    hide OwnCall, Called, Alerted, Clocked, Marked, FibreRuntime.Typed;
    var t := TimerOf(s.fibres[f].pc);
    CalledFibre(s.fibres, s.calls, s.owner, f, x);
    if t.Some? && Timer(t.value) in s.store {
      AlertedDisarm(s, f, x);
      ClockedStore(s, s.store - {Timer(t.value)});
    } else {
      AlertedFibre(s.store, s.fibres, s.calls, f, x);
    }
  }

  lemma MoveKeepsTimely(s: State, p: Place, q: Place, item: Item)
    requires Timely(s) && p in s.store && q !in s.store && !q.Timer? && (s.store[p].CondItem? ==> item == s.store[p])
    ensures Timely(Move(s, p, q, item))
  {
    hide Called, Alerted, Clocked, Marked;
    AlertedMove(s.store, s.fibres, s.calls, p, q, item);
    ClockedStore(s, (s.store - {p})[q := item]);
  }

  lemma FreshPlace(s: State)
    requires Inv(s)
    ensures Task(s.next) !in s.store && Transit(s.next) !in s.store
  {
    FreshPlaceIsNew(s, Task(s.next));
    FreshPlaceIsNew(s, Transit(s.next));
  }

  // ----- each kind of step ----------------------------------------------------------------------------------------

  lemma TriggeredKeepsTimely(s: State, fd: nat, event: Event)
    requires Inv(s) && Timely(s)
    ensures Timely(Triggered(s, fd, event))
  {
    hide Called, Alerted, Clocked, Marked, FibreRuntime.Inv;
    FreshPlace(s);
    if Slot(fd, event) in s.store {
      SlotHoldsFibre(s, fd, event);
      MoveKeepsTimely(s, Slot(fd, event), Task(s.next), s.store[Slot(fd, event)]);
    }
  }

  lemma SlotHoldsFibre(s: State, fd: nat, event: Event)
    requires Inv(s) && Slot(fd, event) in s.store
    ensures s.store[Slot(fd, event)].FibreItem?
  {
  }

  lemma TakenKeepsTimely(s: State, w: nat, n: nat)
    requires Inv(s) && Timely(s) && Enabled(s, Take(w, n))
    ensures Timely(Taken(s, w, n))
  {
    hide Called, Alerted, Clocked, Marked;
    EmptyHand(s.store, s.workers, s.fibres, w);
    MoveKeepsTimely(s, Task(n), Hand(w), s.store[Task(n)]);
  }

  lemma SleepOverKeepsTimely(s: State, w: nat)
    requires Inv(s) && Timely(s) && Enabled(s, RunSleepCallback(w))
    ensures Timely(SleepOver(s, w))
  {
    hide Called, Alerted, Clocked, Marked, FibreRuntime.Inv;
    FreshPlace(s);
    MoveKeepsTimely(s, Hand(w), Task(s.next), FibreItem(s.store[Hand(w)].fibre));
  }

  lemma ScheduledKeepsTimely(s: State, n: nat)
    requires Inv(s) && Timely(s) && Transit(n) in s.store
    ensures Timely(Move(s, Transit(n), Task(s.next), s.store[Transit(n)]).(next := s.next + 1))
  {
    hide Called, Alerted, Clocked, Marked, FibreRuntime.Inv;
    FreshPlace(s);
    MoveKeepsTimely(s, Transit(n), Task(s.next), s.store[Transit(n)]);
  }

  lemma FiredKeeps(s: State, t: nat)
    requires Timely(s) && t in s.due && s.due[t] <= s.now
    ensures Timely(s.(fired := s.fired + {t}))
  {
    hide Called, Alerted, DueRight;
  }

  lemma ExpiredKeepsTimely(s: State, t: nat)
    requires Inv(s) && Timely(s) && Enabled(s, Expire(t))
    ensures Timely(Expired(s, t))
  {
    hide Called, Alerted, Clocked, Marked, FibreRuntime.Inv;
    FreshPlace(s);
    FiredKeeps(s, t);
    MoveKeepsTimely(s.(fired := s.fired + {t}), Timer(t), Transit(s.next), s.store[Timer(t)]);
  }

  lemma SpawnedKeepsTimely(s: State, f: nat)
    requires Inv(s) && Timely(s) && f !in s.fibres
    ensures Timely(Spawned(s, f))
  {
    hide Called, Alerted, Clocked, Marked, FibreRuntime.Inv;
    FreshPlace(s);
    CalledFibre(s.fibres, s.calls, s.owner, f, Fibre(Ready, Fresh));
    AlertedPut(s.store, s.fibres, s.calls, Task(s.next), FibreItem(f));
    AlertedFibre(s.store[Task(s.next) := FibreItem(f)], s.fibres, s.calls, f, Fibre(Ready, Fresh));
    ClockedStore(s, s.store[Task(s.next) := FibreItem(f)]);
  }

  lemma ResumedKeepsTimely(s: State, w: nat)
    requires Inv(s) && Timely(s) && Enabled(s, Resume(w))
    ensures Timely(Resumed(s, w))
  {
    hide Called, Alerted, Clocked, Marked;
    HandIsReady(s.store, s.workers, s.fibres, w);
    var f := s.store[Hand(w)].fibre;
    var x := Fibre(Running(w), ResumedPc(s.fibres[f].pc));
    OwnCallOf(s, f);
    CalledFibre(s.fibres, s.calls, s.owner, f, x);
    AlertedDrop(s.store, s.fibres, s.calls, Hand(w));
    AlertedFibre(s.store - {Hand(w)}, s.fibres, s.calls, f, x);
    ClockedStore(s, s.store - {Hand(w)});
  }

  /** The callback leaves the worker's hand: its call is over or marked from then on. */
  lemma AlertedCallback(s: State, w: nat, calls: map<nat, Call>)
    requires Timely(s) && Hand(w) in s.store && s.store[Hand(w)].CondItem?
    requires forall f :: f in s.fibres && TimerOf(s.fibres[f].pc).Some? && s.fibres[f].pc.call in calls
                         && !calls[s.fibres[f].pc.call].cancelled ==>
               s.fibres[f].pc.call in s.calls && !s.calls[s.fibres[f].pc.call].cancelled
               && s.fibres[f].pc.call != s.store[Hand(w)].call
    ensures Alerted(s.store - {Hand(w)}, s.fibres, calls)
  {
    forall f | f in s.fibres && TimerOf(s.fibres[f].pc).Some? && s.fibres[f].pc.call in calls
               && !calls[s.fibres[f].pc.call].cancelled
      ensures InFlight(s.store - {Hand(w)}, TimerOf(s.fibres[f].pc).value, s.fibres[f].pc.call)
    {
      var t, c := TimerOf(s.fibres[f].pc).value, s.fibres[f].pc.call;
      assert InFlight(s.store, t, c);
      var p :| p in s.store && s.store[p] == CondItem(t, c);
      assert (s.store - {Hand(w)})[p] == CondItem(t, c);
    }
  }

  lemma RanMarks(s: State, t: nat)
    requires Marked(s.calls, s.owner, s.fired, s.ran) && t in s.owner && t in s.fired && s.owner[t] in s.calls
    ensures var c := s.owner[t];
            && (!s.calls[c].alive || s.calls[c].cancelled ==> Marked(s.calls, s.owner, s.fired, s.ran + {t}))
            && Marked(s.calls[c := s.calls[c].(cancelled := true, blame := Some(t))], s.owner, s.fired, s.ran + {t})
  {
  }

  lemma CalledBackKeepsTimely(s: State, w: nat)
    requires Inv(s) && Timely(s) && Enabled(s, RunConditionCallback(w))
    ensures Timely(CalledBack(s, w))
  {
    hide Called, Alerted, Clocked, Marked, OwnCall;
    var item := s.store[Hand(w)];
    var call := s.calls[item.call];
    ConditionIsOwn(s.store, s.calls, s.owner, s.fired, Hand(w));
    RanMarks(s, item.timer);
    ClockedStore(s, s.store - {Hand(w)});
    var call' := call.(cancelled := true, blame := Some(item.timer));
    var marks := call.alive && !call.cancelled;
    var calls := if marks then s.calls[item.call := call'] else s.calls;
    TimersAreOfLiveCalls(s);
    AlertedCallback(s, w, calls);
    if marks {
      CalledCall(s.fibres, s.calls, s.owner, item.call, call');
      ClockedCall(s.(store := s.store - {Hand(w)}), item.call, call');
    }
  }

  lemma TimersAreOfLiveCalls(s: State)
    requires Timely(s)
    ensures forall f :: f in s.fibres && TimerOf(s.fibres[f].pc).Some? ==>
              s.fibres[f].pc.call in s.calls && s.calls[s.fibres[f].pc.call].alive
  {
    forall f | f in s.fibres && TimerOf(s.fibres[f].pc).Some?
      ensures s.fibres[f].pc.call in s.calls && s.calls[s.fibres[f].pc.call].alive
    {
      OwnCallOf(s, f);
    }
  }

  lemma EnterKeepsTimely(s: State, f: nat, c: nat, call: Call)
    requires Timely(s) && Enabled(s, Enter(f, c, call))
    ensures Timely(Apply(s, Enter(f, c, call)))
  {
    hide Called, Alerted, Clocked, Marked;
    CalledCall(s.fibres, s.calls, s.owner, c, call);
    AlertedCall(s.store, s.fibres, s.calls, s.owner, c, call);
    ClockedCall(s, c, call);
    MarkedCall(s, c, call);
    SetPcKeepsTimely(s.(calls := s.calls[c := call]), f, Trying(c));
  }

  lemma ArmedClock(s: State, t: nat, c: nat)
    requires Timely(s) && NewTimer(s, t) && c in s.calls && s.calls[c].timeout.Some?
    ensures var r := WithTimer(s, t, c);
            Clocked(r.store, r.calls, r.owner, r.fired, r.due, r.made, r.now) && Marked(r.calls, r.owner, r.fired, r.ran)
  {
    hide Called, Alerted;
    var r := WithTimer(s, t, c);
    forall u | u in r.owner ensures DueRight(u, r.calls, r.owner, r.due, r.made, r.now) {
      if u != t {
        assert DueRight(u, s.calls, s.owner, s.due, s.made, s.now);
      }
    }
  }

  lemma CalledTimer(fibres: map<nat, Fibre>, calls: map<nat, Call>, owner: map<nat, nat>, t: nat, c: nat)
    requires Called(fibres, calls, owner) && t !in owner
    ensures Called(fibres, calls, owner[t := c])
  {
    forall f | f in fibres ensures OwnCall(fibres[f].pc, f, calls, owner[t := c]) {
      assert OwnCall(fibres[f].pc, f, calls, owner);
    }
  }

  lemma AlertedArm(store: map<Place, Item>, fibres: map<nat, Fibre>, calls: map<nat, Call>, f: nat, x: Fibre, t: nat)
    requires Alerted(store, fibres, calls) && TimerOf(x.pc) == Some(t)
    requires Timer(t) in store && store[Timer(t)] == CondItem(t, x.pc.call)
    ensures Alerted(store, fibres[f := x], calls)
  {
    assert InFlight(store, t, x.pc.call);
    hide InFlight;
  }

  lemma BlockedKeepsTimely(s: State, f: nat, t: nat)
    requires Timely(s) && Enabled(s, WouldBlock(f, t))
    ensures Timely(Blocked(s, f, t))
  {
    hide Called, Alerted, Clocked, Marked;
    var c := s.fibres[f].pc.call;
    OwnCallOf(s, f);
    if s.calls[c].timeout.None? {
      SetPcKeepsTimely(s, f, Armed(c, None));
    } else {
      var r, x := WithTimer(s, t, c), s.fibres[f].(pc := Armed(c, Some(t)));
      ArmedClock(s, t, c);
      CalledTimer(s.fibres, s.calls, s.owner, t, c);
      CalledFibre(s.fibres, s.calls, r.owner, f, x);
      AlertedPut(s.store, s.fibres, s.calls, Timer(t), CondItem(t, c));
      AlertedArm(r.store, s.fibres, s.calls, f, x, t);
    }
  }

  lemma RegisteredKeepsTimely(s: State, f: nat)
    requires Timely(s) && Enabled(s, Register(f))
    ensures Timely(Registered(s, f))
  {
    hide Called, Alerted, Clocked, Marked;
    var pc := s.fibres[f].pc;
    var q := Slot(s.calls[pc.call].fd, s.calls[pc.call].event);
    OwnCallOf(s, f);
    SetPcKeepsTimely(s, f, Parking(pc.call, pc.timer));
    var r := SetPc(s, f, Parking(pc.call, pc.timer));
    AlertedPut(r.store, r.fibres, r.calls, q, FibreItem(f));
    ClockedStore(r, r.store[q := FibreItem(f)]);
  }

  /** A timer of a call that is over leaves the set. */
  lemma DropOldTimer(s: State, t: nat)
    requires Timely(s) && Typed(s.store, s.next) && t in s.owner && s.owner[t] in s.calls && !s.calls[s.owner[t]].alive
    ensures Timely(DropIfThere(s, Timer(t)))
  {
    hide Called, Clocked, Marked, OwnCall, FibreRuntime.Typed;
    if Timer(t) in s.store {
      ClockedStore(s, s.store - {Timer(t)});
      forall f | f in s.fibres && TimerOf(s.fibres[f].pc).Some? && s.fibres[f].pc.call in s.calls
                 && !s.calls[s.fibres[f].pc.call].cancelled
        ensures InFlight(s.store - {Timer(t)}, TimerOf(s.fibres[f].pc).value, s.fibres[f].pc.call)
      {
        StillInFlight(s, f, t);
      }
    }
  }

  lemma StillInFlight(s: State, f: nat, t: nat)
    requires Timely(s) && Typed(s.store, s.next) && t in s.owner && s.owner[t] in s.calls && !s.calls[s.owner[t]].alive
    requires f in s.fibres && TimerOf(s.fibres[f].pc).Some?
    requires InFlight(s.store, TimerOf(s.fibres[f].pc).value, s.fibres[f].pc.call)
    ensures InFlight(s.store - {Timer(t)}, TimerOf(s.fibres[f].pc).value, s.fibres[f].pc.call)
  {
    hide Called, Alerted, Clocked, Marked;
    OwnCallOf(s, f);
    var u, c := TimerOf(s.fibres[f].pc).value, s.fibres[f].pc.call;
    var p :| p in s.store && s.store[p] == CondItem(u, c);
    assert (s.store - {Timer(t)})[p] == CondItem(u, c);
  }

  lemma RefusedIs(s: State, f: nat)
    requires InCall(s, f)
    ensures Disarmed(s, f).fibres == s.fibres && Disarmed(s, f).calls == s.calls
    ensures var c, t := s.fibres[f].pc.call, TimerOf(s.fibres[f].pc);
            Answered(Disarmed(s, f), f, c)
            == if t.Some? then DropIfThere(Answered(s, f, c), Timer(t.value)) else Answered(s, f, c)
  {
  }

  lemma RefusedKeepsTimely(s: State, f: nat)
    requires Inv(s) && Timely(s) && Enabled(s, RegisterFails(f))
    ensures Disarmed(s, f).fibres == s.fibres && Disarmed(s, f).calls == s.calls
    ensures Timely(Answered(Disarmed(s, f), f, s.fibres[f].pc.call))
  {
    hide Timely, OwnCall, FibreRuntime.Typed, FibreRuntime.Disarmed, FibreRuntime.Answered, FibreRuntime.DropIfThere;
    hide FibreRuntime.Located, FibreRuntime.HeldRight, FibreRuntime.Handed, FibreRuntime.Crewed, FibreRuntime.Waiting;
    hide FibreRuntime.Owned, FibreRuntime.Alarmed, FibreRuntime.Blamed;
    var c, t := s.fibres[f].pc.call, TimerOf(s.fibres[f].pc);
    RefusedIs(s, f);
    AnsweredKeepsTimely(s, f);
    if t.Some? {
      AnsweredIsOver(s, f);
      DropOldTimer(Answered(s, f, c), t.value);
    }
  }

  lemma AnsweredIsOver(s: State, f: nat)
    requires Timely(s) && InCall(s, f) && TimerOf(s.fibres[f].pc).Some?
    ensures var r, t := Answered(s, f, s.fibres[f].pc.call), TimerOf(s.fibres[f].pc).value;
            && r.store == s.store && r.next == s.next
            && t in r.owner && r.owner[t] in r.calls && !r.calls[r.owner[t]].alive
  {
    OwnCallOf(s, f);
  }

  lemma StillOwn(s: State, f: nat, pc: Pc)
    requires f in s.fibres && OwnCall(s.fibres[f].pc, f, s.calls, s.owner)
    requires HasCall(pc) ==> HasCall(s.fibres[f].pc) && pc.call == s.fibres[f].pc.call
    requires TimerOf(pc).Some? ==> TimerOf(pc) == TimerOf(s.fibres[f].pc)
    ensures OwnCall(pc, f, s.calls, s.owner)
  {
  }

  lemma CancelTimerKeepsTimely(s: State, f: nat)
    requires Inv(s) && Timely(s) && Enabled(s, CancelTimer(f))
    ensures Disarmed(s, f).fibres == s.fibres
    ensures Timely(SetPc(Disarmed(s, f), f, Checking(s.fibres[f].pc.call)))
  {
    hide Called, Alerted, Clocked, Marked, OwnCall;
    var c := s.fibres[f].pc.call;
    OwnCallOf(s, f);
    StillOwn(s, f, Checking(c));
    DisarmedFibres(s, f);
    DisarmedKeepsTimely(s, f, s.fibres[f].(pc := Checking(c)));
  }

  lemma CheckedKeepsTimely(s: State, f: nat)
    requires Timely(s) && Enabled(s, CheckTimeout(f))
    ensures Timely(Checked(s, f))
  {
    hide Called, Alerted, Clocked, Marked, OwnCall, FibreRuntime.Answered, FibreRuntime.SetPc;
    var c := s.fibres[f].pc.call;
    OwnCallOf(s, f);
    StillOwn(s, f, Trying(c));
    AnsweredKeepsTimely(s, f);
    SetPcKeepsTimely(s, f, Trying(c));
  }

  lemma LeftKeepsTimely(s: State, f: nat, x: Fibre)
    requires Timely(s) && Runs(s, f) && OwnCall(x.pc, f, s.calls, s.owner)
    requires TimerOf(x.pc).Some? ==> TimerOf(s.fibres[f].pc) == TimerOf(x.pc) && s.fibres[f].pc.call == x.pc.call
    ensures Timely(Left(s, f, x))
  {
    hide Called, Alerted, Clocked, Marked, OwnCall;
    CalledFibre(s.fibres, s.calls, s.owner, f, x);
    AlertedFibre(s.store, s.fibres, s.calls, f, x);
  }

  lemma YieldKeepsTimely(s: State, f: nat)
    requires Timely(s) && Enabled(s, Yield(f))
    ensures Timely(Left(s, f, Fibre(Ready, Suspended(s.fibres[f].pc))))
  {
    hide Called, Alerted, Clocked, Marked, OwnCall;
    OwnCallOf(s, f);
    StillOwn(s, f, Suspended(s.fibres[f].pc));
    LeftKeepsTimely(s, f, Fibre(Ready, Suspended(s.fibres[f].pc)));
  }

  lemma SleptKeepsTimely(s: State, f: nat, t: nat, ms: nat)
    requires Timely(s) && Enabled(s, Sleep(f, t, ms))
    ensures Timely(Slept(s, f, t, ms))
  {
    hide Called, Alerted, Clocked, Marked, OwnCall;
    NoCallNeeded(s, f, SleepParking);
    SetPcKeepsTimely(s, f, SleepParking);
    AlertedPut(s.store, SetPc(s, f, SleepParking).fibres, s.calls, Timer(t), SleepItem(f));
    SleepClock(s, f, t, ms);
  }

  lemma NoCallNeeded(s: State, f: nat, pc: Pc)
    requires !HasCall(pc)
    ensures OwnCall(pc, f, s.calls, s.owner)
  {
  }

  lemma SleepClock(s: State, f: nat, t: nat, ms: nat)
    requires Clocked(s.store, s.calls, s.owner, s.fired, s.due, s.made, s.now) && t !in s.owner && t !in s.fired
    ensures Clocked(s.store[Timer(t) := SleepItem(f)], s.calls, s.owner, s.fired, s.due[t := s.now + ms], s.made, s.now)
  {
    forall u | u in s.owner ensures DueRight(u, s.calls, s.owner, s.due[t := s.now + ms], s.made, s.now) {
      assert DueRight(u, s.calls, s.owner, s.due, s.made, s.now);
    }
  }

  lemma TickKeepsTimely(s: State, ms: nat)
    requires Timely(s)
    ensures Timely(s.(now := s.now + ms))
  {
    hide Called, Alerted, Marked;
    forall u | u in s.owner ensures DueRight(u, s.calls, s.owner, s.due, s.made, s.now + ms) {
      assert DueRight(u, s.calls, s.owner, s.due, s.made, s.now);
    }
  }

  lemma CallStepKeepsTimely(s: State, l: Label)
    requires Inv(s) && Timely(s) && Enabled(s, l) && IsCallStep(l)
    ensures Timely(Apply(s, l))
  {
    hide FibreRuntime.Inv, Called, Alerted, Clocked, Marked, FibreRuntime.Triggered, FibreRuntime.Checked;
    hide FibreRuntime.Disarmed, FibreRuntime.SetPc, FibreRuntime.Answered, FibreRuntime.Left, FibreRuntime.Blocked;
    hide FibreRuntime.Registered, FibreRuntime.Slept, FibreRuntime.CalledBack, FibreRuntime.SleepOver;
    hide FibreRuntime.Taken, FibreRuntime.Expired, FibreRuntime.Resumed, FibreRuntime.Spawned, FibreRuntime.Suspended;
    hide FibreRuntime.Move;
    match l
    case Enter(f, c, call) => EnterKeepsTimely(s, f, c, call);
    case SyscallReturns(f) => AnsweredKeepsTimely(s, f);
    case WouldBlock(f, t) => BlockedKeepsTimely(s, f, t);
    case Register(f) => RegisteredKeepsTimely(s, f);
    case RegisterFails(f) => RefusedKeepsTimely(s, f);
    case Yield(f) => YieldKeepsTimely(s, f);
    case CancelTimer(f) => CancelTimerKeepsTimely(s, f);
    case CheckTimeout(f) => CheckedKeepsTimely(s, f);
    case Sleep(f, t, ms) => SleptKeepsTimely(s, f, t, ms);
    case Finish(f) =>
      NoCallNeeded(s, f, Ended);
      LeftKeepsTimely(s, f, Fibre(Term, Ended));
  }

  lemma OtherStepKeepsTimely(s: State, l: Label)
    requires Inv(s) && Timely(s) && Enabled(s, l) && !IsCallStep(l)
    ensures Timely(Apply(s, l))
  {
    hide FibreRuntime.Inv, Called, Alerted, Clocked, Marked, FibreRuntime.Triggered, FibreRuntime.Checked;
    hide FibreRuntime.Disarmed, FibreRuntime.SetPc, FibreRuntime.Answered, FibreRuntime.Left, FibreRuntime.Blocked;
    hide FibreRuntime.Registered, FibreRuntime.Slept, FibreRuntime.CalledBack, FibreRuntime.SleepOver;
    hide FibreRuntime.Taken, FibreRuntime.Expired, FibreRuntime.Resumed, FibreRuntime.Spawned, FibreRuntime.Suspended;
    hide FibreRuntime.Move;
    match l
    case Tick(ms) => TickKeepsTimely(s, ms);
    case Spawn(f) => SpawnedKeepsTimely(s, f);
    case Take(w, n) => TakenKeepsTimely(s, w, n);
    case Resume(w) => ResumedKeepsTimely(s, w);
    case RunSleepCallback(w) => SleepOverKeepsTimely(s, w);
    case RunConditionCallback(w) => CalledBackKeepsTimely(s, w);
    case CancelForTimeout(w, c) => TriggeredKeepsTimely(s, s.calls[c].fd, s.calls[c].event);
    case Trigger(fd, event) => TriggeredKeepsTimely(s, fd, event);
    case Expire(t) => ExpiredKeepsTimely(s, t);
    case ScheduleExpired(n) => ScheduledKeepsTimely(s, n);
    case Close(_, fd) =>
      TriggeredKeepsTimely(s, fd, READ);
      TriggeredKeepsInv(s, fd, READ);
      TriggeredKeepsTimely(Triggered(s, fd, READ), fd, WRITE);
  }

  lemma StepKeepsTimely(s: State, l: Label)
    requires Inv(s) && Timely(s) && Enabled(s, l)
    ensures Timely(Apply(s, l))
  {
    hide FibreRuntime.Inv, Timely, FibreRuntime.Enabled, FibreRuntime.Apply;
    if IsCallStep(l) {
      CallStepKeepsTimely(s, l);
    } else {
      OtherStepKeepsTimely(s, l);
    }
  }

  lemma {:induction false} RunKeepsTimely(n: nat, ls: seq<Label>)
    requires After(Initial(n), ls).Some?
    ensures Inv(After(Initial(n), ls).value) && Timely(After(Initial(n), ls).value)
  {
    hide FibreRuntime.Inv, Timely, FibreRuntime.Enabled, FibreRuntime.Apply;
    InitialInv(n);
    RunKeepsInv(Initial(n), ls);
    if ls == [] {
      InitialTimely(n);
    } else {
      RunKeepsTimely(n, ls[..|ls| - 1]);
      StepKeepsTimely(After(Initial(n), ls[..|ls| - 1]).value, ls[|ls| - 1]);
    }
  }

  lemma InitialTimely(n: nat)
    ensures Timely(Initial(n))
  {
  }

  lemma ReachableTimely(s: State)
    requires Reachable(s)
    ensures Inv(s) && Timely(s)
  {
    hide FibreRuntime.Inv, Timely, FibreRuntime.Enabled, FibreRuntime.Apply, FibreRuntime.After, FibreRuntime.Initial;
    var n, ls :| After(Initial(n), ls) == Some(s);
    RunKeepsTimely(n, ls);
  }

  // ----- when a call answers ETIMEDOUT ---------------------------------------------------------------------------

  lemma AnswersOnlyMarked(s: State, f: nat)
    requires Enabled(s, CheckTimeout(f))
    ensures var c := s.fibres[f].pc.call;
            c in Apply(s, CheckTimeout(f)).timedOut && c !in s.timedOut ==> s.calls[c].cancelled
  {
  }

  /** The call answers ETIMEDOUT no earlier than a timeout of its own after one of its attempts. */
  lemma NoEarlyTimeout(s: State, f: nat) returns (t: nat)
    requires Reachable(s) && Enabled(s, CheckTimeout(f))
    requires s.fibres[f].pc.call in Apply(s, CheckTimeout(f)).timedOut && s.fibres[f].pc.call !in s.timedOut
    ensures var c := s.fibres[f].pc.call;
            && s.calls[c].timeout.Some? && t in s.owner && s.owner[t] == c && t in s.ran && t in s.made
            && s.calls[c].entered <= s.made[t] && s.made[t] + s.calls[c].timeout.value <= s.now
  {
    hide Called, Alerted, FibreRuntime.Located, FibreRuntime.Typed, FibreRuntime.HeldRight, FibreRuntime.Handed;
    hide FibreRuntime.Crewed, FibreRuntime.Waiting, FibreRuntime.Owned, FibreRuntime.Alarmed, FibreRuntime.Reachable;
    hide FibreRuntime.Apply;
    ReachableTimely(s);
    AnswersOnlyMarked(s, f);
    var c := s.fibres[f].pc.call;
    t := s.calls[c].blame.value;
    assert DueRight(t, s.calls, s.owner, s.due, s.made, s.now);
  }

  /** At every wake-up: the call answers ETIMEDOUT if and only if some callback of its own has run by then. Without one,
      `do_io` goes back to the system call and `connect` asks for the result, whatever has expired meanwhile. */
  lemma TimesOutIfOwnCallbackRan(s: State, f: nat)
    requires Reachable(s) && Enabled(s, CheckTimeout(f))
    ensures var c, r := s.fibres[f].pc.call, Apply(s, CheckTimeout(f));
            if OwnCallbackRan(s, c) then c in r.timedOut && At(r, f, User)
            else r.timedOut == s.timedOut && At(r, f, if s.calls[c].kind == Io then Trying(c) else User)
  {
    hide Alerted, Clocked, FibreRuntime.Located, FibreRuntime.Typed, FibreRuntime.HeldRight, FibreRuntime.Handed;
    hide FibreRuntime.Crewed, FibreRuntime.Waiting, FibreRuntime.Owned, FibreRuntime.Alarmed, FibreRuntime.Reachable;
    ReachableTimely(s);
    var c := s.fibres[f].pc.call;
    OwnCallOf(s, f);
    if s.calls[c].cancelled {
      assert s.calls[c].blame.value in s.ran && s.owner[s.calls[c].blame.value] == c;
    }
    assert Apply(s, CheckTimeout(f)) == Checked(s, f);
  }

  ghost predicate OwnCallbackRan(s: State, c: nat) {
    exists t :: t in s.ran && t in s.owner && s.owner[t] == c
  }

  // ----- can the timeout still wake the fibre? ---------------------------------------------------------------------

  predicate InSlot(s: State, f: nat) {
    && f in s.fibres && s.fibres[f].pc.Parked? && s.fibres[f].pc.call in s.calls
    && SlotOf(s, f) in s.store && s.store[SlotOf(s, f)] == FibreItem(f)
  }

  function SlotOf(s: State, f: nat): Place
    requires f in s.fibres && HasCall(s.fibres[f].pc) && s.fibres[f].pc.call in s.calls
  {
    Slot(s.calls[s.fibres[f].pc.call].fd, s.calls[s.fibres[f].pc.call].event)
  }

  /** A worker is about to cancel the event of the call. */
  ghost predicate BeingCancelled(workers: seq<Phase>, c: nat) {
    exists w :: 0 <= w < |workers| && workers[w] == Cancelling(c)
  }

  /** The callback of the present timer will still find the call unmarked, or the cancel is still to come. */
  ghost predicate TimeoutPending(s: State, f: nat)
    requires InSlot(s, f) && s.fibres[f].pc.timer.Some?
  {
    var c := s.fibres[f].pc.call;
    (InFlight(s.store, s.fibres[f].pc.timer.value, c) && !s.calls[c].cancelled) || BeingCancelled(s.workers, c)
  }

  /** The call is marked and the cancel has been made already: it found no registration. */
  ghost predicate TimeoutLost(s: State, f: nat)
    requires InSlot(s, f)
  {
    s.calls[s.fibres[f].pc.call].cancelled && !BeingCancelled(s.workers, s.fibres[f].pc.call)
  }

  /** A parked fibre's timeout is pending if and only if it is not lost. */
  lemma PendingUnlessLost(s: State, f: nat)
    requires Reachable(s) && InSlot(s, f) && s.fibres[f].pc.timer.Some?
    ensures TimeoutPending(s, f) <==> !TimeoutLost(s, f)
  {
    hide Called, Clocked, Marked, InFlight, BeingCancelled, FibreRuntime.Inv, FibreRuntime.Reachable;
    ReachableTimely(s);
  }

  /** What wakes the fibre besides its own timeout: the event, a close, or a cancel for another call. */
  predicate OtherWake(l: Label, slot: Place, c: nat)
    requires slot.Slot?
  {
    l == Trigger(slot.fd, slot.event) || (l.Close? && l.fd == slot.fd) || (l.CancelForTimeout? && l.c != c)
  }

  predicate NoOtherWake(ls: seq<Label>, slot: Place, c: nat)
    requires slot.Slot?
  {
    forall i :: 0 <= i < |ls| ==> !OtherWake(ls[i], slot, c)
  }

  // ----- a lost timeout stays lost -----------------------------------------------------------------------------------

  /** Nothing leaves an event context, no mark is taken back, and no cancel is begun. */
  ghost predicate KeepsWaiting(s: State, r: State) {
    && (forall p :: p in s.store && p.Slot? ==> p in r.store && r.store[p] == s.store[p])
    && CallsKept(s.calls, r.calls)
    && (forall w :: 0 <= w < |r.workers| && r.workers[w].Cancelling? ==> w < |s.workers| && s.workers[w] == r.workers[w])
  }

  ghost predicate CallsKept(calls: map<nat, Call>, calls': map<nat, Call>) {
    forall c :: c in calls ==>
      c in calls' && calls'[c].fd == calls[c].fd && calls'[c].event == calls[c].event
      && (calls[c].cancelled ==> calls'[c].cancelled)
  }

  lemma AnsweredKeeps(s: State, f: nat, c: nat)
    requires f in s.fibres && c in s.calls
    ensures KeepsWaiting(s, Answered(s, f, c))
  {
  }

  lemma DisarmedKeeps(s: State, f: nat)
    requires f in s.fibres
    ensures KeepsWaiting(s, Disarmed(s, f))
  {
  }

  lemma KeepsTransitive(s: State, r: State, u: State)
    requires KeepsWaiting(s, r) && KeepsWaiting(r, u)
    ensures KeepsWaiting(s, u)
  {
  }

  lemma BlockedKeeps(s: State, f: nat, t: nat)
    requires Enabled(s, WouldBlock(f, t))
    ensures KeepsWaiting(s, Blocked(s, f, t))
  {
  }

  lemma RegisteredKeeps(s: State, f: nat)
    requires Enabled(s, Register(f))
    ensures KeepsWaiting(s, Registered(s, f))
  {
  }

  lemma CheckedKeeps(s: State, f: nat)
    requires InCall(s, f)
    ensures KeepsWaiting(s, Checked(s, f))
  {
    hide FibreRuntime.Answered, KeepsWaiting;
    var c := s.fibres[f].pc.call;
    AnsweredKeeps(s, f, c);
    SetPcKeeps(s, f, Trying(c));
    TimedOutKeeps(s, Answered(s, f, c), s.timedOut + {c});
  }

  lemma TimedOutKeeps(s: State, r: State, timedOut: set<nat>)
    requires KeepsWaiting(s, r)
    ensures KeepsWaiting(s, r.(timedOut := timedOut))
  {
  }

  lemma SetPcKeeps(s: State, f: nat, pc: Pc)
    requires f in s.fibres
    ensures KeepsWaiting(s, SetPc(s, f, pc))
  {
  }

  lemma LeftKeeps(s: State, f: nat, x: Fibre)
    requires Runs(s, f)
    ensures KeepsWaiting(s, Left(s, f, x))
  {
  }

  lemma SleptKeeps(s: State, f: nat, t: nat, ms: nat)
    requires f in s.fibres
    ensures KeepsWaiting(s, Slept(s, f, t, ms))
  {
  }

  lemma TakenKeeps(s: State, w: nat, n: nat)
    requires w < |s.workers| && Task(n) in s.store
    ensures KeepsWaiting(s, Taken(s, w, n))
  {
  }

  lemma SleepOverKeeps(s: State, w: nat)
    requires w < |s.workers| && Hand(w) in s.store && s.store[Hand(w)].SleepItem?
    ensures KeepsWaiting(s, SleepOver(s, w))
  {
  }

  lemma ExpiredKeeps(s: State, t: nat)
    requires Timer(t) in s.store
    ensures KeepsWaiting(s, Expired(s, t))
  {
  }

  lemma ResumedKeeps(s: State, w: nat)
    requires w < |s.workers| && Hand(w) in s.store && s.store[Hand(w)].FibreItem?
    ensures KeepsWaiting(s, Resumed(s, w))
  {
  }

  lemma SpawnedKeeps(s: State, f: nat)
    ensures KeepsWaiting(s, Spawned(s, f))
  {
  }

  predicate CanWakeOthers(l: Label) {
    l.Trigger? || l.Close? || l.CancelForTimeout? || l.RunConditionCallback?
  }

  lemma RefusedKeeps(s: State, f: nat)
    requires InCall(s, f)
    ensures Disarmed(s, f).fibres == s.fibres && Disarmed(s, f).calls == s.calls
    ensures KeepsWaiting(s, Answered(Disarmed(s, f), f, s.fibres[f].pc.call))
  {
    hide KeepsWaiting, FibreRuntime.Disarmed, FibreRuntime.Answered;
    DisarmedFibres(s, f);
    DisarmedKeeps(s, f);
    AnsweredKeeps(Disarmed(s, f), f, s.fibres[f].pc.call);
    KeepsTransitive(s, Disarmed(s, f), Answered(Disarmed(s, f), f, s.fibres[f].pc.call));
  }

  lemma UnarmedKeeps(s: State, f: nat)
    requires f in s.fibres && HasCall(s.fibres[f].pc)
    ensures Disarmed(s, f).fibres == s.fibres
    ensures KeepsWaiting(s, SetPc(Disarmed(s, f), f, Checking(s.fibres[f].pc.call)))
  {
    hide KeepsWaiting, FibreRuntime.Disarmed, FibreRuntime.SetPc;
    DisarmedFibres(s, f);
    DisarmedKeeps(s, f);
    SetPcKeeps(Disarmed(s, f), f, Checking(s.fibres[f].pc.call));
    KeepsTransitive(s, Disarmed(s, f), SetPc(Disarmed(s, f), f, Checking(s.fibres[f].pc.call)));
  }

  lemma EnteredKeeps(s: State, f: nat, c: nat, call: Call)
    requires f in s.fibres && c !in s.calls
    ensures KeepsWaiting(s, SetPc(s, f, Trying(c)).(calls := s.calls[c := call]))
  {
  }

  lemma CallStepKeepsWaiting(s: State, l: Label)
    requires Enabled(s, l) && IsCallStep(l)
    ensures KeepsWaiting(s, Apply(s, l))
  {
    hide FibreRuntime.Checked, FibreRuntime.Disarmed, FibreRuntime.SetPc, FibreRuntime.Answered, FibreRuntime.Left;
    hide FibreRuntime.Blocked, FibreRuntime.Registered, FibreRuntime.Slept, FibreRuntime.SleepOver, FibreRuntime.Taken;
    hide FibreRuntime.Expired, FibreRuntime.Resumed, FibreRuntime.Spawned, FibreRuntime.Suspended;
    hide FibreRuntime.Triggered, FibreRuntime.CalledBack;
    match l
    case SyscallReturns(f) => AnsweredKeeps(s, f, s.fibres[f].pc.call);
    case WouldBlock(f, t) => BlockedKeeps(s, f, t);
    case Register(f) => RegisteredKeeps(s, f);
    case RegisterFails(f) => RefusedKeeps(s, f);
    case Yield(f) => LeftKeeps(s, f, Fibre(Ready, Suspended(s.fibres[f].pc)));
    case CancelTimer(f) => UnarmedKeeps(s, f);
    case CheckTimeout(f) => CheckedKeeps(s, f);
    case Sleep(f, t, ms) => SleptKeeps(s, f, t, ms);
    case Finish(f) => LeftKeeps(s, f, Fibre(Term, Ended));
    case Enter(f, c, call) => EnteredKeeps(s, f, c, call);
  }

  lemma StepKeepsWaiting(s: State, l: Label)
    requires Enabled(s, l) && !CanWakeOthers(l)
    ensures KeepsWaiting(s, Apply(s, l))
  {
    hide FibreRuntime.Checked, FibreRuntime.Disarmed, FibreRuntime.SetPc, FibreRuntime.Answered, FibreRuntime.Left;
    hide FibreRuntime.Blocked, FibreRuntime.Registered, FibreRuntime.Slept, FibreRuntime.SleepOver, FibreRuntime.Taken;
    hide FibreRuntime.Expired, FibreRuntime.Resumed, FibreRuntime.Spawned, FibreRuntime.Suspended;
    hide FibreRuntime.Triggered, FibreRuntime.CalledBack;
    if IsCallStep(l) {
      CallStepKeepsWaiting(s, l);
    } else {
      match l
      case Tick(_) =>
      case Spawn(f) => SpawnedKeeps(s, f);
      case Take(w, n) => TakenKeeps(s, w, n);
      case Resume(w) => ResumedKeeps(s, w);
      case RunSleepCallback(w) => SleepOverKeeps(s, w);
      case Expire(t) => ExpiredKeeps(s, t);
      case ScheduleExpired(n) =>
    }
  }

  /** A fibre in an event context is not the one that acts. */
  lemma WaiterDoesNotAct(s: State, l: Label, f: nat)
    requires Inv(s) && InSlot(s, f) && Enabled(s, l)
    ensures Actor(s, l) != Some(f) && s.fibres[f].state == Ready
  {
    hide FibreRuntime.Typed, FibreRuntime.Handed, FibreRuntime.Crewed, FibreRuntime.Waiting, FibreRuntime.Owned;
    hide FibreRuntime.Alarmed, FibreRuntime.Blamed;
    assert Consistent(s.fibres[f]);
    if l.Resume? {
      HandHoldsAnother(s, l.w, f);
    }
  }

  lemma HandHoldsAnother(s: State, w: nat, f: nat)
    requires Located(s.store, s.at) && InSlot(s, f) && Hand(w) in s.store && s.store[Hand(w)].FibreItem?
    ensures s.store[Hand(w)].fibre != f
  {
    assert s.store[SlotOf(s, f)].Who() == Some(f);
    assert s.store[Hand(w)].Who() == Some(s.store[Hand(w)].fibre);
  }

  /** The fibre's registration, its call and its call's mark are still there, and no cancel for it has been begun. */
  ghost predicate StillWaits(s: State, r: State, f: nat)
    requires InSlot(s, f)
  {
    && SlotOf(s, f) in r.store && r.store[SlotOf(s, f)] == s.store[SlotOf(s, f)] && CallsKept(s.calls, r.calls)
    && (BeingCancelled(r.workers, s.fibres[f].pc.call) ==> BeingCancelled(s.workers, s.fibres[f].pc.call))
  }

  lemma KeptStillWaits(s: State, r: State, f: nat)
    requires InSlot(s, f) && KeepsWaiting(s, r)
    ensures StillWaits(s, r, f)
  {
  }

  lemma TriggeredElsewhere(s: State, fd: nat, event: Event, f: nat)
    requires InSlot(s, f) && SlotOf(s, f) != Slot(fd, event)
    ensures var r := Triggered(s, fd, event);
            StillWaits(s, r, f) && r.calls == s.calls && r.workers == s.workers && r.fibres == s.fibres && InSlot(r, f)
  {
  }

  lemma ClosedElsewhere(s: State, fd: nat, f: nat)
    requires InSlot(s, f) && SlotOf(s, f).fd != fd
    ensures StillWaits(s, Triggered(Triggered(s, fd, READ), fd, WRITE), f)
  {
    hide FibreRuntime.Triggered;
    TriggeredElsewhere(s, fd, READ, f);
    TriggeredElsewhere(Triggered(s, fd, READ), fd, WRITE, f);
  }

  lemma NoNewCancel(workers: seq<Phase>, w: nat, phase: Phase, c: nat)
    requires w < |workers| && phase != Cancelling(c)
    ensures BeingCancelled(workers[w := phase], c) ==> BeingCancelled(workers, c)
  {
  }

  /** What a condition callback does: it is dropped, and it may mark its own call. */
  lemma CalledBackIs(s: State, w: nat)
    requires Enabled(s, RunConditionCallback(w))
    ensures var r, item := CalledBack(s, w), s.store[Hand(w)];
            var marks := s.calls[item.call].alive && !s.calls[item.call].cancelled;
            && r.store == s.store - {Hand(w)}
            && r.workers == s.workers[w := if marks then Cancelling(item.call) else Free]
            && r.calls == if marks then
                            s.calls[item.call := s.calls[item.call].(cancelled := true, blame := Some(item.timer))]
                          else s.calls
  {
  }

  lemma CalledBackOther(s: State, w: nat, f: nat)
    requires Enabled(s, RunConditionCallback(w)) && InSlot(s, f) && s.calls[s.fibres[f].pc.call].cancelled
    ensures StillWaits(s, CalledBack(s, w), f)
  {
    hide FibreRuntime.CalledBack, BeingCancelled;
    CalledBackIs(s, w);
    var item := s.store[Hand(w)];
    var marks := s.calls[item.call].alive && !s.calls[item.call].cancelled;
    NoNewCancel(s.workers, w, if marks then Cancelling(item.call) else Free, s.fibres[f].pc.call);
  }

  lemma LostAfter(s: State, r: State, f: nat)
    requires InSlot(s, f) && TimeoutLost(s, f) && StillWaits(s, r, f) && f in r.fibres && r.fibres[f] == s.fibres[f]
    ensures InSlot(r, f) && SlotOf(r, f) == SlotOf(s, f) && TimeoutLost(r, f)
  {
    hide BeingCancelled;
  }

  lemma StepStillWaits(s: State, l: Label, f: nat)
    requires InSlot(s, f) && TimeoutLost(s, f) && Enabled(s, l) && !OtherWake(l, SlotOf(s, f), s.fibres[f].pc.call)
    ensures StillWaits(s, Apply(s, l), f)
  {
    hide FibreRuntime.CalledBack, FibreRuntime.Triggered, KeepsWaiting, StillWaits;
    CancelIsOver(s, l, f);
    if l.Trigger? {
      TriggeredElsewhere(s, l.fd, l.event, f);
    } else if l.Close? {
      ClosedElsewhere(s, l.fd, f);
    } else if l.RunConditionCallback? {
      CalledBackOther(s, l.w, f);
    } else {
      StepKeepsWaiting(s, l);
      KeptStillWaits(s, Apply(s, l), f);
    }
  }

  lemma CancelIsOver(s: State, l: Label, f: nat)
    requires InSlot(s, f) && TimeoutLost(s, f) && Enabled(s, l) && !OtherWake(l, SlotOf(s, f), s.fibres[f].pc.call)
    ensures !l.CancelForTimeout?
  {
  }

  /** The fibre stays in its event context, and its timeout stays lost, until something else wakes it. */
  lemma LostStep(s: State, l: Label, f: nat)
    requires Inv(s) && InSlot(s, f) && TimeoutLost(s, f) && Enabled(s, l)
    requires !OtherWake(l, SlotOf(s, f), s.fibres[f].pc.call)
    ensures var r := Apply(s, l);
            && f in r.fibres && r.fibres[f] == s.fibres[f] && InSlot(r, f) && SlotOf(r, f) == SlotOf(s, f)
            && TimeoutLost(r, f)
  {
    hide FibreRuntime.Inv, FibreRuntime.Apply, FibreRuntime.Enabled, StillWaits, TimeoutLost, OtherWake;
    WaiterDoesNotAct(s, l, f);
    OneFibreChanges(s, l);
    StepStillWaits(s, l, f);
    LostAfter(s, Apply(s, l), f);
  }

  /** Over any run in which nothing else wakes it, the fibre is still where it was. */
  lemma {:induction false} LostStaysLost(s: State, f: nat, ls: seq<Label>)
    requires Inv(s) && InSlot(s, f) && TimeoutLost(s, f) && After(s, ls).Some?
    requires NoOtherWake(ls, SlotOf(s, f), s.fibres[f].pc.call)
    ensures var r := After(s, ls).value;
            && f in r.fibres && r.fibres[f] == s.fibres[f] && InSlot(r, f) && SlotOf(r, f) == SlotOf(s, f)
            && TimeoutLost(r, f)
    decreases |ls|
  {
    hide FibreRuntime.Inv, FibreRuntime.Apply, FibreRuntime.Enabled, TimeoutLost, OtherWake;
    if ls != [] {
      var front := ls[..|ls| - 1];
      LostStaysLost(s, f, front);
      RunKeepsInv(s, front);
      LostStep(After(s, front).value, ls[|ls| - 1], f);
    }
  }

  // ----- a pending timeout can still wake --------------------------------------------------------------------------

  lemma AfterStep(s: State, l: Label, ls: seq<Label>)
    requires Enabled(s, l) && After(Apply(s, l), ls).Some?
    ensures After(s, [l] + ls) == After(Apply(s, l), ls)
    decreases |ls|
  {
    hide FibreRuntime.Enabled, FibreRuntime.Apply;
    if ls == [] {
      assert [l] + ls == [l] && [l][..0] == [];
      assert After(s, []) == Some(s);
    } else {
      AfterStep(s, l, ls[..|ls| - 1]);
      assert ([l] + ls)[..|ls|] == [l] + ls[..|ls| - 1];
    }
  }

  /** The fibre waits in its event context, and the callback of its present timer is at `p`. */
  ghost predicate Alarm(s: State, f: nat, p: Place) {
    && InSlot(s, f) && s.fibres[f].pc.timer.Some? && s.calls[s.fibres[f].pc.call].alive
    && !s.calls[s.fibres[f].pc.call].cancelled
    && p in s.store && s.store[p] == CondItem(s.fibres[f].pc.timer.value, s.fibres[f].pc.call)
  }

  /** The same fibre waits for the same event in the same call. */
  ghost predicate SameWait(s: State, r: State, f: nat)
    requires InSlot(s, f)
  {
    InSlot(r, f) && r.fibres[f] == s.fibres[f] && SlotOf(r, f) == SlotOf(s, f)
  }

  lemma ExpireStep(s: State, f: nat, t: nat)
    requires Inv(s) && Timely(s) && Alarm(s, f, Timer(t))
    ensures t in s.due && Enabled(s, Tick(s.due[t]))
    ensures var r := s.(now := s.now + s.due[t]);
            && r == Apply(s, Tick(s.due[t])) && SameWait(s, r, f) && Enabled(r, Expire(t))
            && SameWait(s, Apply(r, Expire(t)), f) && Alarm(Apply(r, Expire(t)), f, Transit(s.next))
            && Apply(r, Expire(t)).workers == s.workers
  {
    hide Called, Alerted, Marked, FibreRuntime.Inv, FibreRuntime.Actor;
    var r := s.(now := s.now + s.due[t]);
    assert Apply(r, Expire(t)) == Expired(r, t);
  }

  lemma ScheduleStep(s: State, f: nat, n: nat)
    requires Alarm(s, f, Transit(n))
    ensures Enabled(s, ScheduleExpired(n))
    ensures var r := Apply(s, ScheduleExpired(n));
            SameWait(s, r, f) && Alarm(r, f, Task(s.next)) && r.workers == s.workers
  {
  }

  lemma TakeStep(s: State, f: nat, n: nat, w: nat)
    requires Alarm(s, f, Task(n)) && w < |s.workers| && s.workers[w] == Free
    ensures Enabled(s, Take(w, n))
    ensures var r := Apply(s, Take(w, n)); SameWait(s, r, f) && Alarm(r, f, Hand(w)) && w < |r.workers|
  {
    assert Apply(s, Take(w, n)) == Taken(s, w, n);
  }

  lemma CallbackStep(s: State, f: nat, w: nat)
    requires Alarm(s, f, Hand(w)) && w < |s.workers|
    ensures Enabled(s, RunConditionCallback(w))
    ensures var r, c := Apply(s, RunConditionCallback(w)), s.fibres[f].pc.call;
            SameWait(s, r, f) && w < |r.workers| && r.workers[w] == Cancelling(c) && c in r.calls
  {
    hide FibreRuntime.CalledBack;
    CalledBackIs(s, w);
    CalledBackFibres(s, w);
  }

  lemma CancelStep(s: State, f: nat, w: nat)
    requires InSlot(s, f) && w < |s.workers| && s.workers[w] == Cancelling(s.fibres[f].pc.call)
    ensures Enabled(s, CancelForTimeout(w, s.fibres[f].pc.call))
    ensures var r := Apply(s, CancelForTimeout(w, s.fibres[f].pc.call));
            Holds(r, Task(s.next), f) && !InSlot(r, f)
  {
  }

  /** A worker that is about to cancel, or one that is free, can bring the fibre back for its timeout. */
  lemma CancelRun(s: State, f: nat, w: nat) returns (ls: seq<Label>)
    requires InSlot(s, f) && w < |s.workers| && s.workers[w] == Cancelling(s.fibres[f].pc.call)
    ensures NoOtherWake(ls, SlotOf(s, f), s.fibres[f].pc.call) && After(s, ls).Some? && !InSlot(After(s, ls).value, f)
    ensures Scheduled(After(s, ls).value, f)
  {
    hide FibreRuntime.Enabled, FibreRuntime.Apply;
    CancelStep(s, f, w);
    var l := CancelForTimeout(w, s.fibres[f].pc.call);
    assert After(Apply(s, l), []) == Some(Apply(s, l));
    AfterStep(s, l, []);
    ls := [l] + [];
  }

  /** The fibre is in the task list. */
  ghost predicate Scheduled(s: State, f: nat) {
    exists n :: Holds(s, Task(n), f)
  }

  /** A step of the timeout in front of a run of it. */
  lemma OneMore(s: State, f: nat, l: Label, rest: seq<Label>)
    requires InSlot(s, f) && Enabled(s, l) && SameWait(s, Apply(s, l), f)
    requires !OtherWake(l, SlotOf(s, f), s.fibres[f].pc.call)
    requires After(Apply(s, l), rest).Some? && NoOtherWake(rest, SlotOf(s, f), s.fibres[f].pc.call)
    ensures After(s, [l] + rest) == After(Apply(s, l), rest)
    ensures NoOtherWake([l] + rest, SlotOf(s, f), s.fibres[f].pc.call)
  {
    hide FibreRuntime.Enabled, FibreRuntime.Apply;
    AfterStep(s, l, rest);
  }

  lemma StepKeepsBoth(s: State, l: Label)
    requires Inv(s) && Timely(s) && Enabled(s, l)
    ensures Inv(Apply(s, l)) && Timely(Apply(s, l))
  {
    hide FibreRuntime.Enabled, FibreRuntime.Apply, FibreRuntime.Inv, Timely;
    StepKeepsInv(s, l);
    StepKeepsTimely(s, l);
  }

  lemma AlarmIsNoSlot(s: State, f: nat, p: Place)
    requires Inv(s) && Alarm(s, f, p)
    ensures !p.Slot?
  {
  }

  /** From wherever the callback is, a worker that is free, or has it in its hand, can bring the fibre back. */
  lemma {:induction false} AlarmRun(s: State, f: nat, p: Place, w: nat) returns (ls: seq<Label>)
    requires Inv(s) && Timely(s) && Alarm(s, f, p)
    requires w < |s.workers| && if p.Hand? then p.worker == w else s.workers[w] == Free
    ensures NoOtherWake(ls, SlotOf(s, f), s.fibres[f].pc.call) && After(s, ls).Some? && !InSlot(After(s, ls).value, f)
    ensures Scheduled(After(s, ls).value, f)
    decreases match p case Timer(_) => 3 case Transit(_) => 2 case Task(_) => 1 case _ => 0
  {
    hide FibreRuntime.Enabled, FibreRuntime.Apply, FibreRuntime.After, FibreRuntime.Inv, Timely, InSlot, NoOtherWake;
    hide Scheduled;
    AlarmIsNoSlot(s, f, p);
    if p.Timer? {
      ExpireStep(s, f, p.id);
      var tick, fire := Tick(s.due[p.id]), Expire(p.id);
      var r := Apply(s, tick);
      StepKeepsBoth(s, tick);
      StepKeepsBoth(r, fire);
      var rest := AlarmRun(Apply(r, fire), f, Transit(s.next), w);
      OneMore(r, f, fire, rest);
      OneMore(s, f, tick, [fire] + rest);
      ls := [tick] + ([fire] + rest);
    } else if p.Transit? {
      ScheduleStep(s, f, p.n);
      var l := ScheduleExpired(p.n);
      StepKeepsBoth(s, l);
      var rest := AlarmRun(Apply(s, l), f, Task(s.next), w);
      OneMore(s, f, l, rest);
      ls := [l] + rest;
    } else if p.Task? {
      TakeStep(s, f, p.n, w);
      var l := Take(w, p.n);
      StepKeepsBoth(s, l);
      var rest := AlarmRun(Apply(s, l), f, Hand(w), w);
      OneMore(s, f, l, rest);
      ls := [l] + rest;
    } else {
      CallbackStep(s, f, w);
      var l := RunConditionCallback(w);
      var rest := CancelRun(Apply(s, l), f, w);
      OneMore(s, f, l, rest);
      ls := [l] + rest;
    }
  }

  /** When a worker is free: a parked fibre can be brought back by its own timeout, by a run in which nothing else wakes
      it, if and only if the timeout is not lost. */
  lemma TimeoutCanWake(s: State, f: nat)
    requires Reachable(s) && InSlot(s, f) && s.fibres[f].pc.timer.Some?
    requires exists w :: 0 <= w < |s.workers| && s.workers[w] == Free
    ensures CanWakeByTimeout(s, f) <==> !TimeoutLost(s, f)
  {
    hide FibreRuntime.Reachable, FibreRuntime.Inv, FibreRuntime.After, Timely;
    ReachableTimely(s);
    if TimeoutLost(s, f) {
      forall ls | NoOtherWake(ls, SlotOf(s, f), s.fibres[f].pc.call) && After(s, ls).Some?
        ensures InSlot(After(s, ls).value, f)
      {
        LostStaysLost(s, f, ls);
      }
    } else {
      var ls := PendingRun(s, f);
    }
  }

  /** Some run in which nothing else wakes the fibre puts it into the task list. */
  ghost predicate CanWakeByTimeout(s: State, f: nat)
    requires InSlot(s, f)
  {
    exists ls ::
      NoOtherWake(ls, SlotOf(s, f), s.fibres[f].pc.call) && After(s, ls).Some? && !InSlot(After(s, ls).value, f)
      && Scheduled(After(s, ls).value, f)
  }

  lemma PendingRun(s: State, f: nat) returns (ls: seq<Label>)
    requires Reachable(s) && InSlot(s, f) && s.fibres[f].pc.timer.Some? && !TimeoutLost(s, f)
    requires exists w :: 0 <= w < |s.workers| && s.workers[w] == Free
    ensures NoOtherWake(ls, SlotOf(s, f), s.fibres[f].pc.call) && After(s, ls).Some? && !InSlot(After(s, ls).value, f)
    ensures Scheduled(After(s, ls).value, f)
  {
    hide FibreRuntime.Reachable, FibreRuntime.Inv, FibreRuntime.After, Timely, NoOtherWake, Scheduled;
    ReachableTimely(s);
    PendingUnlessLost(s, f);
    var c := s.fibres[f].pc.call;
    if w :| 0 <= w < |s.workers| && s.workers[w] == Cancelling(c) {
      ls := CancelRun(s, f, w);
    } else {
      var p :| p in s.store && s.store[p] == CondItem(s.fibres[f].pc.timer.value, c);
      CallIsAlive(s, f);
      HandsAreWorkers(s, p);
      var free :| 0 <= free < |s.workers| && s.workers[free] == Free;
      ls := AlarmRun(s, f, p, if p.Hand? then p.worker else free);
    }
  }

  lemma CallIsAlive(s: State, f: nat)
    requires Timely(s) && InSlot(s, f)
    ensures s.calls[s.fibres[f].pc.call].alive
  {
    OwnCallOf(s, f);
  }

  lemma HandsAreWorkers(s: State, p: Place)
    requires Inv(s) && p in s.store
    ensures p.Hand? ==> p.worker < |s.workers|
  {
  }

  // ----- how a timeout is lost -------------------------------------------------------------------------------------

  lemma ReachableStep(s: State, l: Label)
    requires Reachable(s) && Enabled(s, l)
    ensures Reachable(Apply(s, l))
  {
    hide FibreRuntime.Enabled, FibreRuntime.Apply, FibreRuntime.Initial;
    var n, ls :| After(Initial(n), ls) == Some(s);
    assert (ls + [l])[..|ls|] == ls;
    assert After(Initial(n), ls + [l]) == Some(Apply(s, l));
  }

  lemma ReachableStart(n: nat)
    ensures Reachable(Initial(n))
  {
    assert After(Initial(n), []) == Some(Initial(n));
  }

  /** A call of fibre 0 that waits for descriptor 7 to become readable, for five milliseconds at most. */
  function ShortRead(cancelled: bool): Call {
    Call(Io, 7, READ, 0, Some(5), 0, true, cancelled, if cancelled then Some(1) else None)
  }

  /** Fibre 0 on worker 0 of two, in that call. */
  function Reading(pc: Pc, cancelled: bool, other: Phase, store: map<Place, Item>, next: nat, now: nat): State {
    State(map[0 := Fibre(Running(0), pc)], map[0 := ShortRead(cancelled)], [Busy(0), other], store, map[], next,
          map[1 := 0], if next == 1 then {} else {1}, {}, now, map[1 := 5], map[1 := 0], if cancelled then {1} else {})
  }

  /** Fibre 0 on worker 0 of two, not in a call yet. */
  function Started(): State {
    State(map[0 := Fibre(Running(0), User)], map[], [Busy(0), Free], map[], map[], 1, map[], {}, {}, 0, map[], map[], {})
  }

  lemma FibreStarts()
    ensures Reachable(Started())
  {
    hide FibreRuntime.Reachable;
    var s0 := Initial(2);
    ReachableStart(2);
    assert s0.workers == [Free, Free];
    ReachableStep(s0, Spawn(0));
    var s1 := Apply(s0, Spawn(0));
    assert s1.store == map[Task(0) := FibreItem(0)];
    ReachableStep(s1, Take(0, 0));
    var s2 := Apply(s1, Take(0, 0));
    assert s2.store == map[Hand(0) := FibreItem(0)];
    ReachableStep(s2, Resume(0));
    assert Apply(s2, Resume(0)) == Started();
  }

  lemma StartedReading()
    ensures Reachable(Reading(Armed(0, Some(1)), false, Free, map[Timer(1) := CondItem(1, 0)], 1, 0))
  {
    hide FibreRuntime.Reachable;
    FibreStarts();
    var s3 := Started();
    ReachableStep(s3, Enter(0, 0, ShortRead(false)));
    var s4 := Apply(s3, Enter(0, 0, ShortRead(false)));
    assert s4.fibres == map[0 := Fibre(Running(0), Trying(0))] && s4.calls == map[0 := ShortRead(false)];
    ReachableStep(s4, WouldBlock(0, 1));
    assert Apply(s4, WouldBlock(0, 1)) == Reading(Armed(0, Some(1)), false, Free, map[Timer(1) := CondItem(1, 0)], 1, 0);
  }

  lemma TimerExpires()
    ensures Reachable(Reading(Armed(0, Some(1)), false, Free, map[Task(2) := CondItem(1, 0)], 3, 5))
  {
    hide FibreRuntime.Reachable;
    StartedReading();
    var s5 := Reading(Armed(0, Some(1)), false, Free, map[Timer(1) := CondItem(1, 0)], 1, 0);
    ReachableStep(s5, Tick(5));
    var s6 := Apply(s5, Tick(5));
    ReachableStep(s6, Expire(1));
    var s7 := Apply(s6, Expire(1));
    assert s7 == Reading(Armed(0, Some(1)), false, Free, map[Transit(1) := CondItem(1, 0)], 2, 5);
    ReachableStep(s7, ScheduleExpired(1));
    var s8 := Apply(s7, ScheduleExpired(1));
    assert s8 == Reading(Armed(0, Some(1)), false, Free, map[Task(2) := CondItem(1, 0)], 3, 5);
  }

  lemma CancelFindsNothing()
    ensures Reachable(Reading(Armed(0, Some(1)), true, Free, map[], 3, 5))
  {
    hide FibreRuntime.Reachable;
    TimerExpires();
    var s8 := Reading(Armed(0, Some(1)), false, Free, map[Task(2) := CondItem(1, 0)], 3, 5);
    ReachableStep(s8, Take(1, 2));
    var s9 := Apply(s8, Take(1, 2));
    assert s9 == Reading(Armed(0, Some(1)), false, Holding, map[Hand(1) := CondItem(1, 0)], 3, 5);
    ReachableStep(s9, RunConditionCallback(1));
    var s10 := Apply(s9, RunConditionCallback(1));
    assert s10 == Reading(Armed(0, Some(1)), true, Cancelling(0), map[], 3, 5);
    ReachableStep(s10, CancelForTimeout(1, 0));
    var s11 := Apply(s10, CancelForTimeout(1, 0));
    assert s11 == Reading(Armed(0, Some(1)), true, Free, map[], 3, 5);
  }

  /** A timeout is lost in this run: the timer is added before the event is registered, its callback runs in between, and
      its cancel finds nothing; the fibre then registers and yields, and its timeout can never wake it. */
  lemma TimeoutsCanBeLost() returns (s: State)
    ensures Reachable(s) && InSlot(s, 0) && s.fibres[0].pc.timer.Some? && TimeoutLost(s, 0)
    ensures s.fibres[0].pc.call == 0 && s.calls[0].alive && 0 !in s.timedOut && !CanWakeByTimeout(s, 0)
  {
    hide FibreRuntime.Reachable, CanWakeByTimeout;
    CancelFindsNothing();
    var s11 := Reading(Armed(0, Some(1)), true, Free, map[], 3, 5);
    ReachableStep(s11, Register(0));
    var s12 := Apply(s11, Register(0));
    assert s12.store == map[Slot(7, READ) := FibreItem(0)];
    ReachableStep(s12, Yield(0));
    s := Apply(s12, Yield(0));
    assert s.workers == [Free, Free] && s.workers[0] == Free;
    TimeoutCanWake(s, 0);
  }
}
