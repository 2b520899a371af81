/** Timers and the manager that keeps the pending ones in a set ordered by deadline. */
module Timers {
  import opened Bytes

  const TWO_64: nat := 0x1_0000_0000_0000_0000
  const ONE_HOUR: nat := 60 * 60 * 1000

  /** A callback, by identity. */
  type Callback = nat

  function Later(a: nat, b: nat): nat {
    if a < b then b else a
  }

  class Timer {
    /** Where the object lives: the tie-break of the order. */
    const addr: nat
    const recurring: bool
    const manager: TimerManager?
    var ms: nat
    var next: nat
    var cb: Option<Callback>

    constructor (ms: nat, cb: Callback, recurring: bool, manager: TimerManager?, addr: nat, now: nat)
      ensures this.ms == ms && next == now + ms && this.cb == Some(cb)
      ensures this.recurring == recurring && this.manager == manager && this.addr == addr
    {
      this.ms, this.cb, this.recurring, this.manager, this.addr := ms, Some(cb), recurring, manager, addr;
      next := now + ms;
    }

    /** A timer that only stands for a moment. */
    constructor At(next: nat, addr: nat)
      ensures this.next == next && this.addr == addr
    {
      this.ms, this.next, this.cb, this.recurring, this.manager, this.addr := 0, next, None, false, null, addr;
    }

    /** The timer leaves the set, once. */
    method Cancel() returns (ok: bool)
      requires manager != null && this in manager.known && manager.Valid()
      modifies this`cb, manager`timers
      ensures manager.Valid() && ok == old(cb).Some? && cb == None
      ensures manager.Members() == old(manager.Members()) - {this}
    {
      if cb.Some? {
        cb := None;
        var it := manager.Find(this);
        manager.Erase(it);
        return true;
      }
      return false;
    }

    /** The deadline starts again from now. Nobody is woken, and unless the clock has been set back nobody need be. */
    method Refresh(now: nat) returns (ok: bool)
      requires manager != null && this in manager.known && manager.Valid() && now + ms < TWO_64
      modifies this`next, manager`timers, manager`clock
      ensures manager.Steady() && manager.clock == Later(old(manager.clock), now) && ok == cb.Some?
      ensures old(manager.clock) <= now ==> manager.Valid()
      ensures next == if ok then now + ms else old(next)
      ensures manager.Members() == old(manager.Members())
    {
      hide DistinctAddresses, Sorted, TimerManager.Watched;
      manager.Observe(now);
      if cb == None {
        return false;
      }
      var it := manager.Find(this);
      if it == |manager.timers| {
        return false;
      }
      Restart(it, now);
      return true;
    }

    /** Out of the set, to a new deadline, and back, waking nobody. */
    method Restart(it: nat, now: nat)
      requires manager != null && this in manager.known && manager.Valid() && cb.Some?
      requires it < |manager.timers| && manager.timers[it] == this && now <= manager.clock
      modifies this`next, manager`timers
      ensures manager.Steady() && manager.Members() == old(manager.Members())
      ensures next == now + ms && (old(next) <= next ==> manager.Watched())
    {
      hide DistinctAddresses, Sorted;
      manager.Erase(it);
      next := now + ms;
      var there := manager.InsertTimer(this);
    }

    /** A new period, counted from now or from when the present one started. */
    method Reset(ms: nat, fromNow: bool, now: nat) returns (ok: bool)
      requires manager != null && this in manager.known && manager.Valid()
      requires (if fromNow then now else next - this.ms) + ms < TWO_64
      modifies this`ms, this`next, manager`timers, manager`clock, manager`tickled, manager`wakeUps
      ensures manager.Valid() && manager.clock == Later(old(manager.clock), now)
      ensures manager.Members() == old(manager.Members())
      ensures ok == (cb.Some? || (ms == old(this.ms) && !fromNow))
      ensures cb.Some? && (fromNow || ms != old(this.ms)) ==>
                this.ms == ms && next == (if fromNow then now else old(next) - old(this.ms)) + ms
      ensures cb == None || (ms == old(this.ms) && !fromNow) ==> this.ms == old(this.ms) && next == old(next)
    {
      hide DistinctAddresses, Sorted;
      manager.Observe(now);
      if ms == this.ms && !fromNow {
        return true;
      }
      if cb == None {
        return false;
      }
      var it := manager.Find(this);
      if it == |manager.timers| {
        return false;
      }
      Move(it, ms, if fromNow then now else next - this.ms);
      return true;
    }

    /** Out of the set, to a new deadline, and back through `addTimer`. */
    method Move(it: nat, ms: nat, start: nat)
      requires manager != null && this in manager.known && manager.Valid() && cb.Some?
      requires it < |manager.timers| && manager.timers[it] == this && start <= manager.clock
      modifies this`ms, this`next, manager`timers, manager`tickled, manager`wakeUps
      ensures manager.Valid() && manager.Members() == old(manager.Members())
      ensures this.ms == ms && next == start + ms
    {
      hide DistinctAddresses, Sorted;
      manager.Erase(it);
      this.ms := ms;
      next := start + ms;
      manager.AddPending(this);
    }
  }

  /** `Timer::Comparator`: by deadline, then by address; a null pointer comes first. */
  predicate Less(lhs: Timer?, rhs: Timer?): (r: bool)
    reads lhs, rhs
    ensures lhs == null || rhs == null ==> (r <==> lhs == null && rhs != null)
  {
    if lhs == null && rhs == null then false
    else if lhs == null then true
    else if rhs == null then false
    else if lhs.next < rhs.next then true
    else if rhs.next < lhs.next then false
    else lhs.addr < rhs.addr
  }

  ghost predicate Sorted(ts: seq<Timer>)
    reads ts
  {
    forall i, j :: 0 <= i < j < |ts| ==> Less(ts[i], ts[j])
  }

  /** `std::set::lower_bound`. */
  function LowerBound(ts: seq<Timer>, val: Timer): (i: nat)
    reads ts, val
    ensures i <= |ts|
    ensures forall j :: 0 <= j < i ==> Less(ts[j], val)
    ensures i < |ts| ==> !Less(ts[i], val)
  {
    if ts == [] || !Less(ts[0], val) then 0 else 1 + LowerBound(ts[1..], val)
  }

  function Inserted<T>(ts: seq<T>, i: nat, t: T): seq<T>
    requires i <= |ts|
  {
    ts[..i] + [t] + ts[i..]
  }

  function Removed<T>(ts: seq<T>, i: nat): seq<T>
    requires i < |ts|
  {
    ts[..i] + ts[i + 1..]
  }

  lemma RemovedMembers(ts: seq<Timer>, i: nat)
    requires i < |ts| && Sorted(ts)
    ensures forall u :: u in Removed(ts, i) <==> u in ts && u != ts[i]
    ensures Sorted(Removed(ts, i))
  {
    assert ts == ts[..i] + [ts[i]] + ts[i + 1..];
    assert forall j, k :: 0 <= j < k < |ts| ==> ts[j] != ts[k];
  }

  lemma InsertedMembers(ts: seq<Timer>, i: nat, t: Timer)
    requires i <= |ts|
    ensures forall u :: u in Inserted(ts, i, t) <==> u == t || u in ts
  {
    assert ts == ts[..i] + ts[i..];
  }

  /** Where `std::set::insert` puts a timer whose key is not there yet, the set stays sorted. */
  lemma InsertedSorted(ts: seq<Timer>, val: Timer)
    requires Sorted(ts) && forall t :: t in ts ==> t.addr != val.addr
    ensures Sorted(Inserted(ts, LowerBound(ts, val), val))
  {
    var i := LowerBound(ts, val);
    forall j | i <= j < |ts| ensures Less(val, ts[j]) {
      assert ts[i].addr != val.addr && ts[j].addr != val.addr && ts[i] in ts && ts[j] in ts;
      assert i < j ==> Less(ts[i], ts[j]);
    }
  }

  ghost predicate DistinctAddresses(ts: set<Timer>) {
    forall t, u :: t in ts && u in ts && t.addr == u.addr ==> t == u
  }

  /** In a sorted set with distinct addresses, `find` finds exactly the timer itself. */
  lemma FindsItself(ts: seq<Timer>, val: Timer)
    requires Sorted(ts) && val in ts
    ensures LowerBound(ts, val) < |ts| && ts[LowerBound(ts, val)] == val
  {
    var k :| 0 <= k < |ts| && ts[k] == val;
    var i := LowerBound(ts, val);
    assert !(k < i);
  }

  lemma SplitSorted(ts: seq<Timer>, it: nat)
    requires Sorted(ts) && it <= |ts|
    ensures Sorted(ts[it..]) && forall t :: t in ts <==> t in ts[..it] || t in ts[it..]
    ensures forall t :: t in ts[..it] ==> t !in ts[it..]
    ensures forall i, j :: 0 <= i < j < it ==> ts[i] != ts[j]
  {
    assert ts == ts[..it] + ts[it..];
    assert forall i, j :: 0 <= i < j < |ts| ==> ts[i] != ts[j];
  }

  lemma FirstIsLeast(ts: seq<Timer>)
    requires Sorted(ts) && ts != []
    ensures forall i :: 0 <= i < |ts| ==> ts[0].next <= ts[i].next
  {
    assert forall i :: 0 < i < |ts| ==> Less(ts[0], ts[i]);
  }

  /** By deadline, and by address where the deadlines are equal. */
  lemma InOrder(ts: seq<Timer>)
    requires Sorted(ts)
    ensures forall i, j :: 0 <= i < j < |ts| ==>
              ts[i].next < ts[j].next || (ts[i].next == ts[j].next && ts[i].addr < ts[j].addr)
  {
    assert forall i, j :: 0 <= i < j < |ts| ==> Less(ts[i], ts[j]);
  }

  class TimerManager {
    var timers: seq<Timer>
    var tickled: bool
    var previousTime: nat

    /** Every timer ever added. */
    ghost var known: set<Timer>
    /** The latest moment seen. */
    ghost var clock: nat
    /** The deadline `getNextTimer` reported last; none when there was none to wait for. */
    ghost var reported: Option<nat>
    /** Calls of `onTimerInsertedAtFront`: in all, and up to the last report. */
    ghost var wakeUps: nat
    ghost var wakeUpsAtReport: nat

    ghost function Members(): set<Timer>
      reads `timers
    {
      set t | t in timers
    }

    /** A timer is in the set exactly when its callback is set; deadlines never start after now. */
    ghost predicate Registered()
      reads `timers, `known, `clock, known
    {
      && (forall t :: t in timers ==> t in known)
      && (forall t :: t in known ==>
            t.manager == this && (t.cb.Some? <==> t in timers) && t.ms <= t.next && t.next - t.ms <= clock)
    }

    /** Either a wake-up is on its way or no deadline is earlier than the one reported. */
    ghost predicate Watched()
      reads `timers, `tickled, `reported, `wakeUps, `wakeUpsAtReport, timers
    {
      && (tickled || forall t :: t in timers ==> reported.Some? && reported.value <= t.next)
      && wakeUps == wakeUpsAtReport + if tickled then 1 else 0
    }

    ghost predicate Steady()
      reads this, known, timers
    {
      Registered() && DistinctAddresses(known) && Sorted(timers) && previousTime <= clock && previousTime < TWO_64
    }

    ghost predicate Valid()
      reads this, known, timers
    {
      Steady() && Watched()
    }

    /** A moment is seen. */
    ghost method Observe(now: nat)
      requires Valid()
      modifies `clock
      ensures Valid() && clock == Later(old(clock), now)
    {
      hide DistinctAddresses, Sorted, Watched;
      clock := Later(clock, now);
    }

    constructor (now: nat)
      requires now < TWO_64
      ensures Valid() && timers == [] && known == {} && clock == now
    {
      timers, tickled, previousTime := [], false, now;
      known, clock, reported, wakeUps, wakeUpsAtReport := {}, now, None, 0, 0;
    }

    /** `std::set::find`: the end when there is no equivalent key. */
    method Find(t: Timer) returns (it: nat)
      requires Sorted(timers)
      ensures it <= |timers|
      ensures t in timers ==> it < |timers| && timers[it] == t
    {
      if t in timers {
        FindsItself(timers, t);
      }
      it := LowerBound(timers, t);
      if it < |timers| && Less(t, timers[it]) {
        it := |timers|;
      }
    }

    method Erase(it: nat)
      requires it < |timers| && Sorted(timers)
      modifies `timers
      ensures Sorted(timers) && forall t :: t in timers <==> t in old(timers) && t != old(timers)[it]
    {
      RemovedMembers(timers, it);
      timers := Removed(timers, it);
    }

    /** A known timer outside the set. */
    ghost predicate NewHere(t: Timer)
      reads `timers, `known
    {
      t in known && t !in timers && DistinctAddresses(known) && forall u :: u in timers ==> u in known
    }

    /** `std::set::insert` of a timer with a new key. */
    method InsertTimer(t: Timer) returns (it: nat)
      requires Sorted(timers) && NewHere(t)
      modifies `timers
      ensures Sorted(timers) && it < |timers| && timers[it] == t
      ensures forall u :: u in timers <==> u == t || u in old(timers)
    {
      InsertedSorted(timers, t);
      it := LowerBound(timers, t);
      InsertedMembers(timers, it, t);
      timers := Inserted(timers, it, t);
    }

    /** The locked `addTimer`: at the front, the first insertion since the last report wakes the waiter. */
    method AddPending(t: Timer)
      requires Sorted(timers) && NewHere(t) && Watched()
      modifies `timers, `tickled, `wakeUps
      ensures Sorted(timers) && Watched() && forall u :: u in timers <==> u == t || u in old(timers)
      ensures tickled == (old(tickled) || forall u :: u in old(timers) ==> Less(t, u))
    {
      var it := InsertTimer(t);
      var atFront := it == 0 && !tickled;
      assert it > 0 ==> timers[0] in old(timers) && !Less(t, timers[0]) && timers[0].next <= t.next by {
        assert it > 0 ==> Less(timers[0], timers[it]);
      }
      if atFront {
        tickled := true;
        wakeUps := wakeUps + 1;
      }
    }

    method AddTimer(ms: nat, cb: Callback, recurring: bool, now: nat, addr: nat) returns (timer: Timer)
      requires Valid() && now + ms < TWO_64 && forall t :: t in known ==> t.addr != addr
      modifies this
      ensures Valid() && fresh(timer) && known == old(known) + {timer} && Members() == old(Members()) + {timer}
      ensures timer.next == now + ms && timer.ms == ms && timer.cb == Some(cb) && timer.recurring == recurring
      ensures clock == Later(old(clock), now) && reported == old(reported)
    {
      clock := Later(clock, now);
      timer := new Timer(ms, cb, recurring, this, addr, now);
      known := known + {timer};
      AddPending(timer);
    }

    /** How long until the first deadline: `~0ull` without one, 0 when it has come. */
    method GetNextTimer(now: nat) returns (wait: nat)
      requires Valid()
      modifies `tickled, `clock, `reported, `wakeUpsAtReport
      ensures Valid() && !tickled && clock == Later(old(clock), now)
      ensures timers == [] ==> wait == TWO_64 - 1 && reported == None
      ensures timers != [] ==>
                && reported.Some? && (exists t :: t in timers && t.next == reported.value)
                && (forall t :: t in timers ==> reported.value <= t.next)
                && wait == if now >= reported.value then 0 else reported.value - now
    {
      tickled := false;
      clock := Later(clock, now);
      wakeUpsAtReport := wakeUps;
      if timers == [] {
        reported := None;
        return TWO_64 - 1;
      }
      var next := timers[0];
      FirstIsLeast(timers);
      reported := Some(next.next);
      if now >= next.next {
        return 0;
      }
      return next.next - now;
    }

    /** A clock set back by more than an hour; in the first hour, when the subtraction wraps, one set back at all. */
    ghost predicate RolledOver(now: nat)
      reads `previousTime
    {
      if previousTime < 3_600_000 then now < previousTime else now + 3_600_000 < previousTime
    }

    method DetectClockRollover(now: nat) returns (rollover: bool)
      requires previousTime < TWO_64
      modifies `previousTime
      ensures previousTime == now && rollover == old(RolledOver(now))
    {
      rollover := now < previousTime && now < (previousTime - ONE_HOUR) % TWO_64;
      previousTime := now;
    }

    /** The position after the last timer due at `now`, wherever the address of the timer it looks up falls. */
    method EndOfExpired(now: nat, addr: nat) returns (it: nat)
      requires Sorted(timers)
      ensures it <= |timers|
      ensures forall i :: 0 <= i < |timers| ==> (i < it <==> timers[i].next <= now)
    {
      var nowTimer := new Timer.At(now, addr);
      it := LowerBound(timers, nowTimer);
      assert forall j, k :: 0 <= j < k < |timers| ==> Less(timers[j], timers[k]);
      while it != |timers| && timers[it].next == now
        invariant it <= |timers|
        invariant forall j :: 0 <= j < it ==> timers[j].next <= now
        invariant it < |timers| ==> timers[it].next >= now
      {
        it := it + 1;
      }
    }

    /** The callbacks of the timers that left the set; the recurring ones go back with a new deadline. */
    method Expire(due: seq<Timer>, now: nat) returns (cbs: seq<Callback>)
      requires Sorted(timers) && (forall t :: t in due ==> t !in timers && t.cb.Some?)
      requires forall i, j :: 0 <= i < j < |due| ==> due[i] != due[j]
      requires DistinctAddresses(known) && (forall t :: t in due || t in timers ==> t in known)
      modifies `timers, due
      ensures Sorted(timers) && forall t :: t in timers <==> t in old(timers) || (t in due && t.recurring)
      ensures |cbs| == |due| && forall i :: 0 <= i < |due| ==> old(due[i].cb) == Some(cbs[i])
      ensures forall t :: t in due ==> Handled(t, now)
    {
      cbs := [];
      for k := 0 to |due|
        invariant Sorted(timers) && |cbs| == k
        invariant forall t :: t in timers <==> t in old(timers) || (t in due[..k] && t.recurring)
        invariant forall i :: 0 <= i < k ==> old(due[i].cb) == Some(cbs[i]) && Handled(due[i], now)
        invariant forall i :: k <= i < |due| ==> Untouched(due[i])
      {
        var timer := due[k];
        cbs := cbs + [timer.cb.value];
        assert due[..k + 1] == due[..k] + [timer];
        assert forall i :: 0 <= i < |due| && i != k ==> due[i] != timer;
        if timer.recurring {
          timer.next := now + timer.ms;
          var it := InsertTimer(timer);
        } else {
          timer.cb := None;
        }
      }
      assert due[..|due|] == due;
    }

    /** The first `it` timers leave the set with their callbacks; a recurring one comes back. */
    method ExpireFirst(it: nat, now: nat) returns (cbs: seq<Callback>)
      requires Steady() && now <= clock && it <= |timers|
      modifies `timers, timers
      ensures Steady() && |cbs| == it
      ensures forall i :: 0 <= i < it ==> old(timers[i].cb) == Some(cbs[i])
      ensures forall t :: t in old(timers)[..it] ==> Handled(t, now) && (t in timers <==> t.recurring)
      ensures forall t :: t in old(timers)[it..] ==> Untouched(t) && t in timers
      ensures forall t :: t in timers ==> t in old(timers)
    {
      hide Sorted, DistinctAddresses;
      var due := timers[..it];
      ghost var later := timers[it..];
      SplitSorted(timers, it);
      timers := timers[it..];
      cbs := Expire(due, now);
      assert forall t :: t in old(timers) ==> t in due || t in later;
      assert forall t :: t in later ==> Untouched(t);
    }

    /** The same, with what the waiter knows: it need not be woken when all of them were due. */
    method ExpireWatched(it: nat, now: nat) returns (cbs: seq<Callback>)
      requires Steady() && now <= clock && it <= |timers|
      modifies `timers, timers
      ensures Steady() && |cbs| == it
      ensures old(Watched() && forall i :: 0 <= i < it ==> timers[i].next <= now) ==> Watched()
      ensures forall i :: 0 <= i < it ==> old(timers[i].cb) == Some(cbs[i])
      ensures forall t :: t in old(timers)[..it] ==> Handled(t, now) && (t in timers <==> t.recurring)
      ensures forall t :: t in old(timers)[it..] ==> Untouched(t) && t in timers
      ensures forall t :: t in timers ==> t in old(timers)
    {
      hide Steady;
      cbs := ExpireFirst(it, now);
      assert forall t :: t in old(timers) ==> t in old(timers)[..it] || t in old(timers)[it..];
    }

    /** The callbacks of the timers due at `now`, in the order of their deadlines; of all the timers when the clock has
        rolled over. These leave the set, but a recurring one comes back with its next deadline. Unless the clock has
        been set back, nobody need be woken for it. */
    method ListExpiredCb(now: nat, addr: nat) returns (cbs: seq<Callback>)
      requires Valid() && now < TWO_64
      requires forall t :: t in timers && t.recurring ==> now + t.ms < TWO_64
      modifies `timers, `previousTime, `clock, timers
      ensures Steady() && clock == Later(old(clock), now) && |cbs| <= |old(timers)|
      ensures old(clock) <= now ==> Valid() && !old(RolledOver(now))
      ensures forall i :: 0 <= i < |old(timers)| ==> (i < |cbs| <==> old(RolledOver(now)) || old(timers[i].next) <= now)
      ensures forall i :: 0 <= i < |cbs| ==> old(timers[i].cb) == Some(cbs[i])
      ensures forall i, j :: 0 <= i < j < |cbs| ==>
                old(timers[i].next) < old(timers[j].next)
                || (old(timers[i].next) == old(timers[j].next) && old(timers)[i].addr < old(timers)[j].addr)
      ensures forall t :: t in old(timers)[..|cbs|] ==> Handled(t, now) && (t in timers <==> t.recurring)
      ensures forall t :: t in old(timers)[|cbs|..] ==> Untouched(t) && t in timers
      ensures forall t :: t in timers ==> t in old(timers)
    {
      hide Registered, DistinctAddresses, Sorted, Watched, Less;
      InOrder(timers);
      Observe(now);
      if timers == [] {
        return [];
      }
      FirstIsLeast(timers);
      var rollover := DetectClockRollover(now);
      if !rollover && timers[0].next > now {
        return [];
      }
      var it := |timers|;
      if !rollover {
        it := EndOfExpired(now, addr);
      }
      cbs := ExpireWatched(it, now);
    }

    /** After expiry: a recurring timer has its next deadline, another one has lost its callback. */
    twostate predicate Handled(t: Timer, now: nat)
      reads t
    {
      t.ms == old(t.ms)
      && if t.recurring then t.next == now + t.ms && t.cb == old(t.cb) else t.next == old(t.next) && t.cb == None
    }

    twostate predicate Untouched(t: Timer)
      reads t
    {
      t.next == old(t.next) && t.ms == old(t.ms) && t.cb == old(t.cb)
    }
  }
}
