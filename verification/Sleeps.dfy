/** Hooked sleeps: a fibre that sleeps is not resumed before its time is over, and can be resumed from then on. */
module Sleeps {
  import opened Bytes
  import opened FibreRuntime
  import opened Timeouts

  /** The timer of a sleep of the fibre is in the timer set, due at a time, and no call's. */
  ghost predicate SleepTimer(s: State, f: nat, t: nat, due: nat) {
    && Timer(t) in s.store && s.store[Timer(t)] == SleepItem(f)
    && t in s.due && s.due[t] == due && t !in s.owner
  }

  /** The fibre is about to yield in its sleep, or has yielded. */
  ghost predicate Sleeping(s: State, f: nat, yielded: bool) {
    && f in s.fibres && s.fibres[f].pc == (if yielded then SleepParked else SleepParking)
    && (if yielded then s.fibres[f].state == Ready else s.fibres[f].state.Running?)
  }

  // ----- the timer stays in the set until it expires -------------------------------------------------------------

  lemma PutKeeps(s: State, q: Place, item: Item, f: nat, t: nat, due: nat)
    requires SleepTimer(s, f, t, due) && q != Timer(t)
    ensures SleepTimer(Put(s, q, item), f, t, due)
  {
  }

  lemma DropKeeps(s: State, p: Place, f: nat, t: nat, due: nat)
    requires SleepTimer(s, f, t, due) && p != Timer(t) && p in s.store
    ensures SleepTimer(Drop(s, p), f, t, due)
  {
  }

  lemma MoveKeeps(s: State, p: Place, q: Place, item: Item, f: nat, t: nat, due: nat)
    requires SleepTimer(s, f, t, due) && p != Timer(t) && q != Timer(t) && p in s.store
    ensures SleepTimer(Move(s, p, q, item), f, t, due)
  {
  }

  lemma SameTimers(s: State, r: State, f: nat, t: nat, due: nat)
    requires SleepTimer(s, f, t, due) && r.store == s.store && r.due == s.due && r.owner == s.owner
    ensures SleepTimer(r, f, t, due)
  {
  }

  lemma TriggeredKeepsSleep(s: State, fd: nat, event: Event, f: nat, t: nat, due: nat)
    requires SleepTimer(s, f, t, due)
    ensures SleepTimer(Triggered(s, fd, event), f, t, due)
  {
    hide FibreRuntime.Move, SleepTimer;
    if Slot(fd, event) in s.store {
      var item := s.store[Slot(fd, event)];
      MoveKeeps(s, Slot(fd, event), Task(s.next), item, f, t, due);
      SameTimers(Move(s, Slot(fd, event), Task(s.next), item), Triggered(s, fd, event), f, t, due);
    }
  }

  lemma CalledBackKeepsSleep(s: State, w: nat, f: nat, t: nat, due: nat)
    requires SleepTimer(s, f, t, due) && Enabled(s, RunConditionCallback(w))
    ensures SleepTimer(CalledBack(s, w), f, t, due)
  {
    hide FibreRuntime.Drop, SleepTimer;
    DropKeeps(s, Hand(w), f, t, due);
    SameTimers(Drop(s, Hand(w)), CalledBack(s, w), f, t, due);
  }

  lemma BlockedKeepsSleep(s: State, g: nat, u: nat, f: nat, t: nat, due: nat)
    requires SleepTimer(s, f, t, due) && Enabled(s, WouldBlock(g, u))
    ensures SleepTimer(Blocked(s, g, u), f, t, due)
  {
  }

  lemma SleptKeepsSleep(s: State, g: nat, u: nat, ms: nat, f: nat, t: nat, due: nat)
    requires SleepTimer(s, f, t, due) && Enabled(s, Sleep(g, u, ms))
    ensures SleepTimer(Slept(s, g, u, ms), f, t, due)
  {
  }

  /** Only timers of calls are cancelled. */
  lemma DisarmedKeepsSleep(s: State, g: nat, f: nat, t: nat, due: nat)
    requires SleepTimer(s, f, t, due) && Inv(s) && g in s.fibres
    ensures SleepTimer(Disarmed(s, g), f, t, due)
    ensures Disarmed(s, g).fibres == s.fibres && Disarmed(s, g).calls == s.calls
  {
    hide FibreRuntime.Drop, SleepTimer, FibreRuntime.Inv;
    TimerIsKnown(s, g);
    DisarmedFibres(s, g);
    var u := TimerOf(s.fibres[g].pc);
    if u.Some? && Timer(u.value) in s.store {
      NotOfACall(s, f, t, due);
      DropKeeps(s, Timer(u.value), f, t, due);
    }
  }

  lemma NotOfACall(s: State, f: nat, t: nat, due: nat)
    requires SleepTimer(s, f, t, due)
    ensures t !in s.owner
  {
  }

  predicate SameClockwork(s: State, r: State) {
    r.store == s.store && r.due == s.due && r.owner == s.owner && r.now == s.now
  }

  lemma SetPcIsLocal(s: State, g: nat, pc: Pc)
    requires g in s.fibres
    ensures SameClockwork(s, SetPc(s, g, pc))
  {
  }

  lemma AnsweredIsLocal(s: State, g: nat, c: nat)
    requires g in s.fibres && c in s.calls
    ensures SameClockwork(s, Answered(s, g, c))
  {
  }

  lemma LeftIsLocal(s: State, g: nat, x: Fibre)
    requires Runs(s, g)
    ensures SameClockwork(s, Left(s, g, x))
  {
    hide FibreRuntime.Released;
    ReleasedIsLocal(s.(fibres := s.fibres[g := x]), s.fibres[g].state.worker);
  }

  lemma ReleasedIsLocal(s: State, w: nat)
    ensures w < |s.workers| ==> SameClockwork(s, Released(s, w))
  {
  }

  lemma CheckedIsLocal(s: State, g: nat)
    requires InCall(s, g)
    ensures SameClockwork(s, Checked(s, g))
  {
    hide FibreRuntime.SetPc, FibreRuntime.Answered;
    AnsweredIsLocal(s, g, s.fibres[g].pc.call);
    SetPcIsLocal(s, g, Trying(s.fibres[g].pc.call));
  }

  lemma EnterIsLocal(s: State, g: nat, c: nat, call: Call)
    requires Enabled(s, Enter(g, c, call))
    ensures SameClockwork(s, Apply(s, Enter(g, c, call)))
  {
  }

  lemma RegisteredKeepsSleep(s: State, g: nat, f: nat, t: nat, due: nat)
    requires SleepTimer(s, f, t, due) && Enabled(s, Register(g))
    ensures SleepTimer(Registered(s, g), f, t, due)
  {
    hide SleepTimer, FibreRuntime.Put, FibreRuntime.SetPc;
    var pc := s.fibres[g].pc;
    SetPcIsLocal(s, g, Parking(pc.call, pc.timer));
    SameTimers(s, SetPc(s, g, Parking(pc.call, pc.timer)), f, t, due);
    PutKeeps(SetPc(s, g, Parking(pc.call, pc.timer)), Slot(s.calls[pc.call].fd, s.calls[pc.call].event), FibreItem(g),
             f, t, due);
  }

  lemma LocalStep(s: State, l: Label)
    requires Enabled(s, l) && (l.Enter? || l.SyscallReturns? || l.Yield? || l.CheckTimeout? || l.Finish?)
    ensures SameClockwork(s, Apply(s, l))
  {
    hide FibreRuntime.Answered, FibreRuntime.Left, FibreRuntime.Checked, FibreRuntime.Suspended;
    match l
    case Enter(g, c, call) => EnterIsLocal(s, g, c, call);
    case SyscallReturns(g) => AnsweredIsLocal(s, g, s.fibres[g].pc.call);
    case Yield(g) => LeftIsLocal(s, g, Fibre(Ready, Suspended(s.fibres[g].pc)));
    case CheckTimeout(g) => CheckedIsLocal(s, g);
    case Finish(g) => LeftIsLocal(s, g, Fibre(Term, Ended));
  }

  lemma LocalStepKeepsSleep(s: State, l: Label, f: nat, t: nat, due: nat)
    requires Enabled(s, l) && (l.Enter? || l.SyscallReturns? || l.Yield? || l.CheckTimeout? || l.Finish?)
    requires SleepTimer(s, f, t, due)
    ensures SleepTimer(Apply(s, l), f, t, due)
  {
    hide SleepTimer, FibreRuntime.Enabled, FibreRuntime.Apply;
    LocalStep(s, l);
    SameTimers(s, Apply(s, l), f, t, due);
  }

  lemma CallStepKeepsSleep(s: State, l: Label, f: nat, t: nat, due: nat)
    requires Inv(s) && Enabled(s, l) && IsCallStep(l) && SleepTimer(s, f, t, due)
    ensures SleepTimer(Apply(s, l), f, t, due)
  {
    hide SleepTimer, FibreRuntime.Inv, FibreRuntime.Registered, FibreRuntime.Disarmed, FibreRuntime.Blocked;
    hide FibreRuntime.Slept, FibreRuntime.SetPc, FibreRuntime.Answered, FibreRuntime.Left, FibreRuntime.Checked;
    match l {
      case WouldBlock(g, u) => BlockedKeepsSleep(s, g, u, f, t, due);
      case Sleep(g, u, ms) => SleptKeepsSleep(s, g, u, ms, f, t, due);
      case Register(g) => RegisteredKeepsSleep(s, g, f, t, due);
      case RegisterFails(g) =>
        DisarmedKeepsSleep(s, g, f, t, due);
        AnsweredIsLocal(Disarmed(s, g), g, s.fibres[g].pc.call);
        SameTimers(Disarmed(s, g), Apply(s, l), f, t, due);
      case CancelTimer(g) =>
        DisarmedKeepsSleep(s, g, f, t, due);
        SetPcIsLocal(Disarmed(s, g), g, Checking(s.fibres[g].pc.call));
        SameTimers(Disarmed(s, g), Apply(s, l), f, t, due);
      case Enter(_, _, _) => LocalStepKeepsSleep(s, l, f, t, due);
      case SyscallReturns(_) => LocalStepKeepsSleep(s, l, f, t, due);
      case Yield(_) => LocalStepKeepsSleep(s, l, f, t, due);
      case CheckTimeout(_) => LocalStepKeepsSleep(s, l, f, t, due);
      case Finish(_) => LocalStepKeepsSleep(s, l, f, t, due);
    }
  }

  lemma OtherStepKeepsSleep(s: State, l: Label, f: nat, t: nat, due: nat)
    requires Inv(s) && Enabled(s, l) && !IsCallStep(l) && l != Expire(t) && SleepTimer(s, f, t, due)
    ensures SleepTimer(Apply(s, l), f, t, due)
  {
    hide SleepTimer, FibreRuntime.Inv, FibreRuntime.Put, FibreRuntime.Drop, FibreRuntime.Move, FibreRuntime.Triggered;
    hide FibreRuntime.CalledBack;
    match l
    case Tick(ms) => SameTimers(s, Apply(s, l), f, t, due);
    case Spawn(g) =>
      PutKeeps(s, Task(s.next), FibreItem(g), f, t, due);
      SameTimers(Put(s, Task(s.next), FibreItem(g)), Apply(s, l), f, t, due);
    case Take(w, n) =>
      MoveKeeps(s, Task(n), Hand(w), s.store[Task(n)], f, t, due);
      SameTimers(Move(s, Task(n), Hand(w), s.store[Task(n)]), Apply(s, l), f, t, due);
    case Resume(w) =>
      DropKeeps(s, Hand(w), f, t, due);
      SameTimers(Drop(s, Hand(w)), Apply(s, l), f, t, due);
    case RunSleepCallback(w) =>
      var item := FibreItem(s.store[Hand(w)].fibre);
      MoveKeeps(s, Hand(w), Task(s.next), item, f, t, due);
      SameTimers(Move(s, Hand(w), Task(s.next), item), Apply(s, l), f, t, due);
    case RunConditionCallback(w) => CalledBackKeepsSleep(s, w, f, t, due);
    case CancelForTimeout(w, c) =>
      var r := Triggered(s, s.calls[c].fd, s.calls[c].event);
      TriggeredKeepsSleep(s, s.calls[c].fd, s.calls[c].event, f, t, due);
      SameTimers(r, Apply(s, l), f, t, due);
    case Trigger(fd, event) => TriggeredKeepsSleep(s, fd, event, f, t, due);
    case Expire(u) =>
      MoveKeeps(s, Timer(u), Transit(s.next), s.store[Timer(u)], f, t, due);
      SameTimers(Move(s, Timer(u), Transit(s.next), s.store[Timer(u)]), Apply(s, l), f, t, due);
    case ScheduleExpired(n) =>
      MoveKeeps(s, Transit(n), Task(s.next), s.store[Transit(n)], f, t, due);
      SameTimers(Move(s, Transit(n), Task(s.next), s.store[Transit(n)]), Apply(s, l), f, t, due);
    case Close(_, fd) =>
      TriggeredKeepsSleep(s, fd, READ, f, t, due);
      TriggeredKeepsSleep(Triggered(s, fd, READ), fd, WRITE, f, t, due);
  }

  /** A sleeping fibre changes only by yielding. */
  lemma OnlyYields(s: State, l: Label, f: nat, t: nat, due: nat, yielded: bool)
    requires Inv(s) && Enabled(s, l) && SleepTimer(s, f, t, due) && Sleeping(s, f, yielded) && Actor(s, l) == Some(f)
    ensures l == Yield(f) && !yielded
  {
    hide FibreRuntime.Typed, FibreRuntime.HeldRight, FibreRuntime.Handed, FibreRuntime.Crewed, FibreRuntime.Waiting;
    hide FibreRuntime.Owned, FibreRuntime.Alarmed, FibreRuntime.Blamed, FibreRuntime.Apply;
    if l.Resume? {
      NotInHand(s, f, t, due, l.w);
    }
  }

  lemma NotInHand(s: State, f: nat, t: nat, due: nat, w: nat)
    requires Inv(s) && SleepTimer(s, f, t, due)
    ensures Enabled(s, Resume(w)) ==> s.store[Hand(w)].fibre != f
  {
    hide FibreRuntime.Typed, FibreRuntime.HeldRight, FibreRuntime.Handed, FibreRuntime.Crewed, FibreRuntime.Waiting;
    hide FibreRuntime.Owned, FibreRuntime.Alarmed, FibreRuntime.Blamed;
    assert s.store[Timer(t)].Who() == Some(f);
    if Enabled(s, Resume(w)) {
      assert s.store[Hand(w)].Who() == Some(s.store[Hand(w)].fibre);
    }
  }

  lemma NeverInHand(s: State, f: nat, t: nat, due: nat)
    requires Inv(s) && SleepTimer(s, f, t, due)
    ensures forall w :: Enabled(s, Resume(w)) ==> s.store[Hand(w)].fibre != f
  {
    hide FibreRuntime.Inv, SleepTimer;
    forall w | Enabled(s, Resume(w)) ensures s.store[Hand(w)].fibre != f {
      NotInHand(s, f, t, due, w);
    }
  }

  lemma YieldSuspends(s: State, f: nat)
    requires Enabled(s, Yield(f)) && Sleeping(s, f, false)
    ensures Sleeping(Apply(s, Yield(f)), f, true)
  {
    hide FibreRuntime.Left;
    LeftFibres(s, f, Fibre(Ready, Suspended(s.fibres[f].pc)));
  }

  lemma StaysAsleep(s: State, l: Label, f: nat, t: nat, due: nat, yielded: bool)
    requires Inv(s) && Enabled(s, l) && SleepTimer(s, f, t, due) && Sleeping(s, f, yielded)
    ensures Sleeping(Apply(s, l), f, yielded || l == Yield(f))
  {
    hide FibreRuntime.Inv, FibreRuntime.Enabled, FibreRuntime.Apply, SleepTimer, FibreRuntime.Actor;
    OneFibreChanges(s, l);
    if Actor(s, l) == Some(f) {
      OnlyYields(s, l, f, t, due, yielded);
      YieldSuspends(s, f);
    } else {
      assert Apply(s, l).fibres[f] == s.fibres[f];
      assert l != Yield(f) by {
        YieldIsOwn(s, f);
      }
    }
  }

  lemma YieldIsOwn(s: State, f: nat)
    ensures Actor(s, Yield(f)) == Some(f)
  {
  }

  // ----- the clock ------------------------------------------------------------------------------------------------

  lemma TriggeredClock(s: State, fd: nat, event: Event)
    ensures Triggered(s, fd, event).now == s.now
  {
  }

  lemma CalledBackClock(s: State, w: nat)
    requires Enabled(s, RunConditionCallback(w))
    ensures CalledBack(s, w).now == s.now
  {
  }

  lemma DisarmedClock(s: State, f: nat)
    requires f in s.fibres
    ensures Disarmed(s, f).now == s.now && Disarmed(s, f).fibres == s.fibres && Disarmed(s, f).calls == s.calls
  {
  }

  lemma BlockedClock(s: State, f: nat, t: nat)
    requires InCall(s, f)
    ensures Blocked(s, f, t).now == s.now
  {
  }

  /** Only a tick moves the clock, and forward. */
  lemma CallStepClock(s: State, l: Label)
    requires Enabled(s, l) && IsCallStep(l)
    ensures Apply(s, l).now == s.now
  {
    hide FibreRuntime.Disarmed, FibreRuntime.Blocked, FibreRuntime.Checked, FibreRuntime.Left, FibreRuntime.Answered;
    if l.Enter? || l.SyscallReturns? || l.Yield? || l.CheckTimeout? || l.Finish? {
      LocalStep(s, l);
    } else if l.WouldBlock? {
      BlockedClock(s, l.f, l.t);
    } else if l.RegisterFails? {
      DisarmedClock(s, l.f);
      AnsweredIsLocal(Disarmed(s, l.f), l.f, s.fibres[l.f].pc.call);
    } else if l.CancelTimer? {
      DisarmedClock(s, l.f);
    }
  }

  lemma OtherStepClock(s: State, l: Label)
    requires Enabled(s, l) && !IsCallStep(l)
    ensures Apply(s, l).now == s.now + if l.Tick? then l.ms else 0
  {
    hide FibreRuntime.Triggered, FibreRuntime.CalledBack;
    match l
    case RunConditionCallback(w) => CalledBackClock(s, w);
    case CancelForTimeout(w, c) => TriggeredClock(s, s.calls[c].fd, s.calls[c].event);
    case Trigger(fd, event) => TriggeredClock(s, fd, event);
    case Close(_, fd) =>
      TriggeredClock(s, fd, READ);
      TriggeredClock(Triggered(s, fd, READ), fd, WRITE);
    case Tick(_) =>
    case Spawn(_) =>
    case Take(_, _) =>
    case Resume(_) =>
    case RunSleepCallback(_) =>
    case Expire(_) =>
    case ScheduleExpired(_) =>
  }

  lemma ClockGoesOn(s: State, l: Label)
    requires Enabled(s, l)
    ensures Apply(s, l).now >= s.now
  {
    hide FibreRuntime.Enabled, FibreRuntime.Apply;
    if IsCallStep(l) {
      CallStepClock(s, l);
    } else {
      OtherStepClock(s, l);
    }
  }

  // ----- whole runs -----------------------------------------------------------------------------------------------

  lemma StepKeepsSleep(s: State, l: Label, f: nat, t: nat, due: nat, yielded: bool)
    requires Inv(s) && Enabled(s, l) && l != Expire(t) && SleepTimer(s, f, t, due) && Sleeping(s, f, yielded)
    ensures SleepTimer(Apply(s, l), f, t, due) && Sleeping(Apply(s, l), f, yielded || l == Yield(f))
  {
    hide FibreRuntime.Inv, FibreRuntime.Enabled, FibreRuntime.Apply, SleepTimer, Sleeping;
    StaysAsleep(s, l, f, t, due, yielded);
    if IsCallStep(l) {
      CallStepKeepsSleep(s, l, f, t, due);
    } else {
      OtherStepKeepsSleep(s, l, f, t, due);
    }
  }

  /** Until its timer expires a sleeping fibre sleeps on, and the timer does not expire before it is due. */
  lemma {:induction false} RunKeepsSleep(s: State, ls: seq<Label>, f: nat, t: nat, due: nat)
    requires Inv(s) && SleepTimer(s, f, t, due) && Sleeping(s, f, false) && After(s, ls).Some?
    ensures var r := After(s, ls).value;
            && s.now <= r.now && (Expire(t) in ls ==> due <= r.now)
            && (Expire(t) !in ls ==> SleepTimer(r, f, t, due) && Sleeping(r, f, Yield(f) in ls))
    decreases |ls|
  {
    hide FibreRuntime.Inv, FibreRuntime.Enabled, FibreRuntime.Apply, SleepTimer, Sleeping;
    if ls != [] {
      var front, l := ls[..|ls| - 1], ls[|ls| - 1];
      var r := After(s, front).value;
      assert ls == front + [l];
      RunKeepsInv(s, front);
      RunKeepsSleep(s, front, f, t, due);
      ClockGoesOn(r, l);
      if Expire(t) !in front {
        if l == Expire(t) {
          ExpiresWhenDue(r, f, t, due);
        } else {
          StepKeepsSleep(r, l, f, t, due, Yield(f) in front);
        }
      }
    }
  }

  lemma ExpiresWhenDue(s: State, f: nat, t: nat, due: nat)
    requires SleepTimer(s, f, t, due)
    ensures Enabled(s, Expire(t)) <==> due <= s.now
  {
  }

  lemma SleepStarts(s: State, f: nat, t: nat, ms: nat)
    requires Enabled(s, Sleep(f, t, ms))
    ensures var r := Apply(s, Sleep(f, t, ms));
            r.now == s.now && SleepTimer(r, f, t, s.now + ms) && Sleeping(r, f, false)
  {
  }

  /** A hooked sleep lasts. Over every run from its start: while its timer has not expired, the timer is in the set, it
      can expire exactly when `ms` milliseconds have gone by, and the fibre is not about to be resumed: it has not left
      its worker, or it has yielded and is suspended. And the timer does not expire before that time. */
  lemma SleepLasts(s: State, f: nat, t: nat, ms: nat, ls: seq<Label>)
    requires Reachable(s) && Enabled(s, Sleep(f, t, ms)) && After(Apply(s, Sleep(f, t, ms)), ls).Some?
    ensures var r := After(Apply(s, Sleep(f, t, ms)), ls).value;
            && (Expire(t) in ls ==> s.now + ms <= r.now)
            && (Expire(t) !in ls ==>
                  && Timer(t) in r.store && r.store[Timer(t)] == SleepItem(f)
                  && (Enabled(r, Expire(t)) <==> s.now + ms <= r.now)
                  && f in r.fibres
                  && (Yield(f) in ls ==> r.fibres[f] == Fibre(Ready, SleepParked))
                  && (Yield(f) !in ls ==> r.fibres[f].state.Running? && r.fibres[f].pc == SleepParking)
                  && forall w :: Enabled(r, Resume(w)) ==> r.store[Hand(w)].fibre != f)
  {
    hide FibreRuntime.Inv, FibreRuntime.Enabled, FibreRuntime.Apply, FibreRuntime.Reachable, FibreRuntime.After;
    ReachableInv(s);
    StepKeepsInv(s, Sleep(f, t, ms));
    SleepStarts(s, f, t, ms);
    var s' := Apply(s, Sleep(f, t, ms));
    RunKeepsSleep(s', ls, f, t, s.now + ms);
    RunKeepsInv(s', ls);
    if Expire(t) !in ls {
      ExpiresWhenDue(After(s', ls).value, f, t, s.now + ms);
      NeverInHand(After(s', ls).value, f, t, s.now + ms);
    }
  }

  // ----- how a sleep ends -----------------------------------------------------------------------------------------

  /** The suspended fibre, or the callback of its sleep, is on its way to the worker, or in its hand. */
  predicate OnTheWay(s: State, f: nat, p: Place, item: Item, w: nat) {
    && p in s.store && s.store[p] == item && f in s.fibres && s.fibres[f] == Fibre(Ready, SleepParked)
    && w < |s.workers| && (if p.Hand? then p.worker == w else s.workers[w] == Free)
    && (item == SleepItem(f) || (item == FibreItem(f) && !p.Transit?)) && (p.Transit? || p.Task? || p.Hand?)
  }

  lemma TransitStep(s: State, f: nat, n: nat, w: nat)
    requires OnTheWay(s, f, Transit(n), SleepItem(f), w)
    ensures Enabled(s, ScheduleExpired(n))
    ensures var r := Apply(s, ScheduleExpired(n)); r.now == s.now && OnTheWay(r, f, Task(s.next), SleepItem(f), w)
  {
  }

  lemma TaskStep(s: State, f: nat, n: nat, item: Item, w: nat)
    requires OnTheWay(s, f, Task(n), item, w)
    ensures Enabled(s, Take(w, n))
    ensures var r := Apply(s, Take(w, n)); r.now == s.now && OnTheWay(r, f, Hand(w), item, w)
  {
  }

  lemma HandStep(s: State, f: nat, w: nat)
    requires OnTheWay(s, f, Hand(w), SleepItem(f), w)
    ensures Enabled(s, RunSleepCallback(w))
    ensures var r := Apply(s, RunSleepCallback(w)); r.now == s.now && OnTheWay(r, f, Task(s.next), FibreItem(f), w)
  {
  }

  lemma LastStep(s: State, f: nat, w: nat)
    requires OnTheWay(s, f, Hand(w), FibreItem(f), w)
    ensures Enabled(s, Resume(w))
    ensures var r := Apply(s, Resume(w)); r.now == s.now && f in r.fibres && r.fibres[f] == Fibre(Running(w), User)
  {
  }

  lemma ExpiryStep(s: State, f: nat, t: nat, due: nat, w: nat)
    requires SleepTimer(s, f, t, due) && Sleeping(s, f, true) && due <= s.now && w < |s.workers| && s.workers[w] == Free
    ensures Enabled(s, Expire(t))
    ensures var r := Apply(s, Expire(t)); r.now == s.now && OnTheWay(r, f, Transit(s.next), SleepItem(f), w)
  {
  }

  lemma {:induction false} WayRun(s: State, f: nat, p: Place, item: Item, w: nat) returns (ls: seq<Label>)
    requires OnTheWay(s, f, p, item, w)
    ensures After(s, ls).Some?
    ensures var r := After(s, ls).value; r.now == s.now && f in r.fibres && r.fibres[f] == Fibre(Running(w), User)
    decreases if item.SleepItem? then 1 else 0, if p.Transit? then 2 else if p.Task? then 1 else 0
  {
    hide FibreRuntime.Enabled, FibreRuntime.Apply, FibreRuntime.After;
    var l, rest;
    if p.Transit? {
      l := ScheduleExpired(p.n);
      TransitStep(s, f, p.n, w);
      rest := WayRun(Apply(s, l), f, Task(s.next), item, w);
    } else if p.Task? {
      l := Take(w, p.n);
      TaskStep(s, f, p.n, item, w);
      rest := WayRun(Apply(s, l), f, Hand(w), item, w);
    } else if item.SleepItem? {
      l := RunSleepCallback(w);
      HandStep(s, f, w);
      rest := WayRun(Apply(s, l), f, Task(s.next), FibreItem(f), w);
    } else {
      l, rest := Resume(w), [];
      LastStep(s, f, w);
      NoSteps(Apply(s, l));
    }
    AfterStep(s, l, rest);
    ls := [l] + rest;
  }

  lemma NoSteps(s: State)
    ensures After(s, []) == Some(s)
  {
  }

  /** A fibre that is suspended in a sleep can be running again as soon as the sleep is over, on any worker that is
      free. */
  lemma SleepersWake(s: State, f: nat, t: nat, due: nat, w: nat) returns (ls: seq<Label>)
    requires SleepTimer(s, f, t, due) && Sleeping(s, f, true) && w < |s.workers| && s.workers[w] == Free
    ensures After(s, ls).Some?
    ensures var r := After(s, ls).value;
            && r.now == (if due <= s.now then s.now else due)
            && f in r.fibres && r.fibres[f] == Fibre(Running(w), User)
  {
    hide FibreRuntime.Enabled, FibreRuntime.Apply, FibreRuntime.After;
    var wait := if due <= s.now then 0 else due - s.now;
    var tick, expire := Tick(wait), Expire(t);
    TickStep(s, wait);
    var s1 := Apply(s, tick);
    ExpiryStep(s1, f, t, due, w);
    var rest := WayRun(Apply(s1, expire), f, Transit(s1.next), SleepItem(f), w);
    AfterStep(s1, expire, rest);
    AfterStep(s, tick, [expire] + rest);
    ls := [tick] + ([expire] + rest);
  }

  lemma TickStep(s: State, ms: nat)
    ensures Enabled(s, Tick(ms)) && Apply(s, Tick(ms)) == s.(now := s.now + ms)
  {
  }

  // ----- the time asked for -----------------------------------------------------------------------------------------

  /** The milliseconds of `sleep`, computed in 32 bits. */
  function SleepMs(seconds: nat): nat {
    seconds * 1000 % 0x1_0000_0000
  }

  /** Those of `usleep`. */
  function UsleepMs(usec: nat): nat {
    usec / 1000
  }

  /** Those of `nanosleep`: an `int`, which is then made unsigned in 64 bits. */
  function NanosleepMs(seconds: nat, nsec: nat): nat {
    var low := (seconds * 1000 + nsec / 1000 / 1000) % 0x1_0000_0000;
    if low < 0x8000_0000 then low else low + 0xFFFF_FFFF_0000_0000
  }

  /** `sleep` asks for the seconds it is given if and only if they are at most 4294967, about 49 days; for less
      otherwise. */
  lemma SleepAsksForSeconds(seconds: nat)
    ensures SleepMs(seconds) == 1000 * seconds <==> seconds <= 4_294_967
    ensures seconds > 4_294_967 ==> SleepMs(seconds) < 1000 * seconds
  {
  }

  /** `usleep` asks for the whole milliseconds: for all it is given if and only if that is a multiple of one. */
  lemma UsleepAsksForLess(usec: nat)
    ensures 1000 * UsleepMs(usec) <= usec < 1000 * UsleepMs(usec) + 1000
    ensures 1000 * UsleepMs(usec) == usec <==> usec % 1000 == 0
  {
  }

  /** `nanosleep` asks for the whole milliseconds if and only if they fit an `int`. */
  lemma NanosleepAsksForMilliseconds(seconds: nat, nsec: nat)
    requires nsec < 1_000_000_000 && seconds < 0x8000_0000
    ensures NanosleepMs(seconds, nsec) == 1000 * seconds + nsec / 1_000_000
            <==> 1000 * seconds + nsec / 1_000_000 < 0x8000_0000
  {
    assert nsec / 1000 / 1000 == nsec / 1_000_000;
  }

  /** A fibre in `sleep(seconds)` is not woken before that many seconds are over, when they are at most 4294967. */
  lemma SecondsLast(s: State, f: nat, t: nat, seconds: nat, ls: seq<Label>)
    requires seconds <= 4_294_967
    requires Reachable(s) && Enabled(s, Sleep(f, t, SleepMs(seconds)))
    requires After(Apply(s, Sleep(f, t, SleepMs(seconds))), ls).Some?
    requires After(Apply(s, Sleep(f, t, SleepMs(seconds))), ls).value.now < s.now + 1000 * seconds
    ensures Expire(t) !in ls
    ensures var r := After(Apply(s, Sleep(f, t, SleepMs(seconds))), ls).value;
            && f in r.fibres && (Yield(f) in ls ==> r.fibres[f] == Fibre(Ready, SleepParked))
            && forall w :: Enabled(r, Resume(w)) ==> r.store[Hand(w)].fibre != f
  {
    hide FibreRuntime.Enabled, FibreRuntime.Apply, FibreRuntime.Reachable, FibreRuntime.After, SleepMs;
    SleepAsksForSeconds(seconds);
    SleepLasts(s, f, t, SleepMs(seconds), ls);
  }

  /** One second more wraps: it asks for 704 milliseconds. */
  lemma LongSleepIsShort()
    ensures SleepMs(4_294_968) == 704
  {
  }
}
