/** The timers of hooked calls: one that is in the timer set is the timer of the present round of its call, whose fibre
    has not gone on yet. */
module CallTimers {
  import opened Bytes
  import opened FibreRuntime
  import opened Timeouts
  import Sleeps

  /** Some fibre is in a round of the call that has this timer. */
  ghost predicate InRound(fibres: map<nat, Fibre>, t: nat, c: nat) {
    exists f :: f in fibres && TimerOf(fibres[f].pc) == Some(t) && fibres[f].pc.call == c
  }

  ghost predicate Current(store: map<Place, Item>, fibres: map<nat, Fibre>) {
    forall t :: Timer(t) in store && store[Timer(t)].CondItem? ==> InRound(fibres, t, store[Timer(t)].call)
  }

  /** No timer of a call is added or changed. */
  predicate Fewer(s: State, r: State) {
    forall p :: p in r.store && p.Timer? && r.store[p].CondItem? ==> p in s.store && r.store[p] == s.store[p]
  }

  // ----- where timers are added and taken away --------------------------------------------------------------------

  lemma SameStore(s: State, r: State)
    requires r.store == s.store
    ensures Fewer(s, r)
  {
  }

  lemma FewerTransitive(s: State, r: State, u: State)
    requires Fewer(s, r) && Fewer(r, u)
    ensures Fewer(s, u)
  {
  }

  lemma PutFewer(s: State, q: Place, item: Item)
    requires !q.Timer? || !item.CondItem?
    ensures Fewer(s, Put(s, q, item))
  {
  }

  lemma DropFewer(s: State, p: Place)
    requires p in s.store
    ensures Fewer(s, Drop(s, p))
  {
  }

  lemma MoveFewer(s: State, p: Place, q: Place, item: Item)
    requires p in s.store && !q.Timer?
    ensures Fewer(s, Move(s, p, q, item))
  {
  }

  lemma TriggeredFewer(s: State, fd: nat, event: Event)
    ensures Fewer(s, Triggered(s, fd, event))
  {
    hide FibreRuntime.Triggered;
    TriggeredIs(s, fd, event);
  }

  lemma DisarmedFewer(s: State, f: nat)
    requires f in s.fibres
    ensures Fewer(s, Disarmed(s, f)) && Disarmed(s, f).fibres == s.fibres && Disarmed(s, f).calls == s.calls
    ensures TimerOf(s.fibres[f].pc).Some? ==> Timer(TimerOf(s.fibres[f].pc).value) !in Disarmed(s, f).store
  {
  }

  lemma CalledBackFewer(s: State, w: nat)
    requires Enabled(s, RunConditionCallback(w))
    ensures Fewer(s, CalledBack(s, w))
  {
    hide FibreRuntime.Drop;
    DropFewer(s, Hand(w));
    SameStore(Drop(s, Hand(w)), CalledBack(s, w));
    FewerTransitive(s, Drop(s, Hand(w)), CalledBack(s, w));
  }

  lemma RegisteredFewer(s: State, f: nat)
    requires Enabled(s, Register(f))
    ensures Fewer(s, Registered(s, f))
  {
  }

  lemma SleptFewer(s: State, f: nat, t: nat, ms: nat)
    requires Enabled(s, Sleep(f, t, ms))
    ensures Fewer(s, Slept(s, f, t, ms))
  {
  }

  /** All but an attempt that would block. */
  lemma CallStepFewer(s: State, l: Label)
    requires Enabled(s, l) && IsCallStep(l) && !l.WouldBlock?
    ensures Fewer(s, Apply(s, l))
    ensures (l.RegisterFails? || l.CancelTimer?) && TimerOf(s.fibres[l.f].pc).Some? ==>
              Timer(TimerOf(s.fibres[l.f].pc).value) !in Apply(s, l).store
  {
    hide FibreRuntime.Disarmed, FibreRuntime.Registered, FibreRuntime.Slept, FibreRuntime.Answered, FibreRuntime.SetPc;
    hide FibreRuntime.Left, FibreRuntime.Checked, Fewer;
    match l {
      case Register(f) => RegisteredFewer(s, f);
      case RegisterFails(f) =>
        DisarmedFewer(s, f);
        Sleeps.AnsweredIsLocal(Disarmed(s, f), f, s.fibres[f].pc.call);
        SameStore(Disarmed(s, f), Apply(s, l));
        FewerTransitive(s, Disarmed(s, f), Apply(s, l));
      case CancelTimer(f) =>
        DisarmedFewer(s, f);
        Sleeps.SetPcIsLocal(Disarmed(s, f), f, Checking(s.fibres[f].pc.call));
        SameStore(Disarmed(s, f), Apply(s, l));
        FewerTransitive(s, Disarmed(s, f), Apply(s, l));
      case Sleep(f, t, ms) => SleptFewer(s, f, t, ms);
      case Enter(_, _, _) => LocalFewer(s, l);
      case SyscallReturns(_) => LocalFewer(s, l);
      case Yield(_) => LocalFewer(s, l);
      case CheckTimeout(_) => LocalFewer(s, l);
      case Finish(_) => LocalFewer(s, l);
    }
  }

  lemma LocalFewer(s: State, l: Label)
    requires Enabled(s, l) && (l.Enter? || l.SyscallReturns? || l.Yield? || l.CheckTimeout? || l.Finish?)
    ensures Fewer(s, Apply(s, l))
  {
    hide FibreRuntime.Enabled, FibreRuntime.Apply;
    Sleeps.LocalStep(s, l);
    SameStore(s, Apply(s, l));
  }

  lemma MovedFewer(s: State, p: Place, q: Place, item: Item, r: State)
    requires p in s.store && !q.Timer? && r.store == Move(s, p, q, item).store
    ensures Fewer(s, r)
  {
    hide FibreRuntime.Move;
    MoveFewer(s, p, q, item);
  }

  lemma OtherStepFewer(s: State, l: Label)
    requires Enabled(s, l) && !IsCallStep(l)
    ensures Fewer(s, Apply(s, l))
  {
    hide FibreRuntime.Move, FibreRuntime.Put, FibreRuntime.Drop, FibreRuntime.Triggered, FibreRuntime.CalledBack, Fewer;
    match l
    case Tick(ms) => SameStore(s, Apply(s, l));
    case Spawn(f) =>
      PutFewer(s, Task(s.next), FibreItem(f));
      SameStore(Put(s, Task(s.next), FibreItem(f)), Apply(s, l));
      FewerTransitive(s, Put(s, Task(s.next), FibreItem(f)), Apply(s, l));
    case Take(w, n) => MovedFewer(s, Task(n), Hand(w), s.store[Task(n)], Apply(s, l));
    case Resume(w) =>
      DropFewer(s, Hand(w));
      SameStore(Drop(s, Hand(w)), Apply(s, l));
      FewerTransitive(s, Drop(s, Hand(w)), Apply(s, l));
    case RunSleepCallback(w) =>
      MovedFewer(s, Hand(w), Task(s.next), FibreItem(s.store[Hand(w)].fibre), Apply(s, l));
    case RunConditionCallback(w) => CalledBackFewer(s, w);
    case CancelForTimeout(w, c) =>
      var r := Triggered(s, s.calls[c].fd, s.calls[c].event);
      TriggeredFewer(s, s.calls[c].fd, s.calls[c].event);
      SameStore(r, Apply(s, l));
      FewerTransitive(s, r, Apply(s, l));
    case Trigger(fd, event) => TriggeredFewer(s, fd, event);
    case Expire(t) => MovedFewer(s, Timer(t), Transit(s.next), s.store[Timer(t)], Apply(s, l));
    case ScheduleExpired(n) => MovedFewer(s, Transit(n), Task(s.next), s.store[Transit(n)], Apply(s, l));
    case Close(_, fd) =>
      TriggeredFewer(s, fd, READ);
      TriggeredFewer(Triggered(s, fd, READ), fd, WRITE);
      FewerTransitive(s, Triggered(s, fd, READ), Apply(s, l));
  }

  // ----- each fibre keeps its timer for the round -------------------------------------------------------------------

  /** A step of a fibre that has a timer leaves it the timer, but for the two that give it up. */
  lemma TimerKept(s: State, l: Label, f: nat)
    requires Enabled(s, l) && f in s.fibres && Actor(s, l) == Some(f) && f in Apply(s, l).fibres
    requires TimerOf(s.fibres[f].pc).Some? && Consistent(s.fibres[f]) && !l.RegisterFails? && !l.CancelTimer?
    requires l.Resume? ==> s.fibres[f].state == Ready
    ensures var pc := Apply(s, l).fibres[f].pc;
            TimerOf(pc) == TimerOf(s.fibres[f].pc) && HasCall(pc) && pc.call == s.fibres[f].pc.call
  {
    hide FibreRuntime.Left;
    if l.Yield? {
      LeftFibres(s, f, Fibre(Ready, Suspended(s.fibres[f].pc)));
    }
  }

  lemma ActsRight(s: State, l: Label, f: nat)
    requires Inv(s) && Enabled(s, l) && f in s.fibres && Actor(s, l) == Some(f)
    ensures Consistent(s.fibres[f]) && (l.Resume? ==> s.fibres[f].state == Ready)
  {
    hide FibreRuntime.Located, FibreRuntime.Typed, FibreRuntime.Crewed, FibreRuntime.Waiting, FibreRuntime.Owned;
    hide FibreRuntime.Alarmed, FibreRuntime.Blamed;
    if l.Resume? {
      HandIsReady(s.store, s.workers, s.fibres, l.w);
    }
  }

  lemma BlockedTimer(s: State, f: nat, t: nat)
    requires Enabled(s, WouldBlock(f, t))
    ensures var r, c := Apply(s, WouldBlock(f, t)), s.fibres[f].pc.call;
            && TimerOf(s.fibres[f].pc).None? && f in r.fibres && r.fibres[f].pc.Armed? && r.fibres[f].pc.call == c
            && forall u: nat :: Timer(u) in r.store && r.store[Timer(u)].CondItem? ==>
                 (Timer(u) in s.store && r.store[Timer(u)] == s.store[Timer(u)])
                 || (TimerOf(r.fibres[f].pc) == Some(u) && r.store[Timer(u)].call == c)
  {
  }

  lemma StillInRound(s: State, r: State, f: nat, t: nat, c: nat)
    requires InRound(s.fibres, t, c) && f in r.fibres && r.fibres == s.fibres[f := r.fibres[f]]
    requires f in s.fibres && TimerOf(s.fibres[f].pc) == Some(t) ==>
               TimerOf(r.fibres[f].pc) == Some(t) && r.fibres[f].pc.call == s.fibres[f].pc.call
    ensures InRound(r.fibres, t, c)
  {
    var g :| g in s.fibres && TimerOf(s.fibres[g].pc) == Some(t) && s.fibres[g].pc.call == c;
    assert g in r.fibres && TimerOf(r.fibres[g].pc) == Some(t) && r.fibres[g].pc.call == c;
  }

  // ----- every step, and every run ---------------------------------------------------------------------------------

  lemma BlockedKeepsCurrent(s: State, f: nat, t: nat)
    requires Current(s.store, s.fibres) && Enabled(s, WouldBlock(f, t))
    ensures var r := Apply(s, WouldBlock(f, t)); Current(r.store, r.fibres)
  {
    hide FibreRuntime.Blocked, FibreRuntime.Enabled, FibreRuntime.Apply, InRound;
    var r := Apply(s, WouldBlock(f, t));
    OneFibreChanges(s, WouldBlock(f, t));
    WouldBlockActs(s, f, t);
    BlockedTimer(s, f, t);
    forall u: nat | Timer(u) in r.store && r.store[Timer(u)].CondItem?
      ensures InRound(r.fibres, u, r.store[Timer(u)].call)
    {
      if Timer(u) in s.store && r.store[Timer(u)] == s.store[Timer(u)] {
        StillInRound(s, r, f, u, r.store[Timer(u)].call);
      } else {
        Starts(r.fibres, f, u);
      }
    }
  }

  lemma WouldBlockActs(s: State, f: nat, t: nat)
    requires Enabled(s, WouldBlock(f, t))
    ensures Actor(s, WouldBlock(f, t)) == Some(f) && f in s.fibres && HasCall(s.fibres[f].pc)
  {
  }

  lemma Starts(fibres: map<nat, Fibre>, f: nat, t: nat)
    requires f in fibres && TimerOf(fibres[f].pc) == Some(t)
    ensures InRound(fibres, t, fibres[f].pc.call)
  {
  }

  lemma ActingKeepsCurrent(s: State, l: Label, f: nat)
    requires Inv(s) && Current(s.store, s.fibres) && Enabled(s, l) && !l.WouldBlock? && Fewer(s, Apply(s, l))
    requires Actor(s, l) == Some(f)
    requires f in s.fibres && (l.RegisterFails? || l.CancelTimer?) && TimerOf(s.fibres[f].pc).Some? ==>
               Timer(TimerOf(s.fibres[f].pc).value) !in Apply(s, l).store
    ensures Current(Apply(s, l).store, Apply(s, l).fibres)
  {
    hide FibreRuntime.Inv, FibreRuntime.Enabled, FibreRuntime.Apply, FibreRuntime.Actor, InRound, Consistent;
    var r := Apply(s, l);
    OneFibreChanges(s, l);
    forall u: nat | Timer(u) in r.store && r.store[Timer(u)].CondItem?
      ensures InRound(r.fibres, u, r.store[Timer(u)].call)
    {
      if f in s.fibres && TimerOf(s.fibres[f].pc) == Some(u) {
        ActsRight(s, l, f);
        TimerKept(s, l, f);
      }
      StillInRound(s, r, f, u, r.store[Timer(u)].call);
    }
  }

  lemma StepKeepsCurrent(s: State, l: Label)
    requires Inv(s) && Current(s.store, s.fibres) && Enabled(s, l)
    ensures Current(Apply(s, l).store, Apply(s, l).fibres)
  {
    hide FibreRuntime.Inv, FibreRuntime.Enabled, FibreRuntime.Apply, FibreRuntime.Actor, InRound;
    if l.WouldBlock? {
      BlockedKeepsCurrent(s, l.f, l.t);
    } else {
      OneFibreChanges(s, l);
      if IsCallStep(l) {
        CallStepFewer(s, l);
        ActorOfCall(s, l);
        ActingKeepsCurrent(s, l, l.f);
      } else {
        OtherStepFewer(s, l);
        if Actor(s, l).Some? {
          ActingKeepsCurrent(s, l, Actor(s, l).value);
        }
      }
    }
  }

  lemma ActorOfCall(s: State, l: Label)
    requires IsCallStep(l)
    ensures Actor(s, l) == Some(l.f)
  {
  }

  lemma {:induction false} RunKeepsCurrent(n: nat, ls: seq<Label>)
    requires After(Initial(n), ls).Some?
    ensures var r := After(Initial(n), ls).value; Inv(r) && Current(r.store, r.fibres)
    decreases |ls|
  {
    hide FibreRuntime.Inv, FibreRuntime.Enabled, FibreRuntime.Apply, InRound;
    InitialInv(n);
    RunKeepsInv(Initial(n), ls);
    if ls != [] {
      RunKeepsCurrent(n, ls[..|ls| - 1]);
      StepKeepsCurrent(After(Initial(n), ls[..|ls| - 1]).value, ls[|ls| - 1]);
    }
  }

  /** In every reachable state a timer of a call that is in the timer set is the one of the round its fibre is in: it
      has been cancelled, or has expired, before the fibre goes on. */
  lemma TimersAreCurrent(s: State, t: nat)
    requires Reachable(s) && Timer(t) in s.store && s.store[Timer(t)].CondItem?
    ensures exists f :: f in s.fibres && TimerOf(s.fibres[f].pc) == Some(t)
                        && s.fibres[f].pc.call == s.store[Timer(t)].call
  {
    hide FibreRuntime.Inv, FibreRuntime.Enabled, FibreRuntime.Apply, FibreRuntime.After, FibreRuntime.Initial;
    var n, ls :| After(Initial(n), ls) == Some(s);
    RunKeepsCurrent(n, ls);
    assert InRound(s.fibres, t, s.store[Timer(t)].call);
  }
}
