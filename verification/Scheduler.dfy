/** `Scheduler`: worker threads that take entries from a shared list, and the protocol of stopping. */
module Scheduler {
  import opened Bytes

  datatype Work = RunFiber(fiber: nat) | Call(cb: nat) | Nothing

  /** A `ScheduleTask`: what to run, and the thread it is pinned to, if any. */
  datatype Entry = Entry(work: Work, thread: Option<nat>)

  // ----- the shared list --------------------------------------------------------------------------------

  /** Whether `thread` may take the entry: not pinned elsewhere, and not a fibre that is running. */
  predicate Eligible(e: Entry, thread: nat, running: set<nat>) {
    && (e.thread.Some? ==> e.thread.value == thread)
    && (e.work.RunFiber? ==> e.work.fiber !in running)
  }

  /** `i` is the first eligible position, or the end when there is none. */
  predicate FirstEligible(tasks: seq<Entry>, thread: nat, running: set<nat>, i: nat) {
    && i <= |tasks|
    && (forall j :: 0 <= j < i ==> !Eligible(tasks[j], thread, running))
    && (i < |tasks| ==> Eligible(tasks[i], thread, running))
  }

  predicate AllHaveWork(tasks: seq<Entry>) {
    forall i :: 0 <= i < |tasks| ==> tasks[i].work != Nothing
  }

  /** The fields the workers share. */
  class TaskList {
    var tasks: seq<Entry>
    var activeThreadCount: nat

    ghost predicate Valid()
      reads this
    {
      AllHaveWork(tasks)
    }

    constructor ()
      ensures Valid() && tasks == [] && activeThreadCount == 0
    {
      tasks, activeThreadCount := [], 0;
    }

    /** `scheduleNoLock`: an entry without work is dropped. */
    method ScheduleNoLock(task: Entry) returns (needTickle: bool)
      requires Valid()
      modifies `tasks
      ensures Valid() && tasks == Scheduled(old(tasks), task) && needTickle == (old(tasks) == [])
    {
      needTickle := tasks == [];
      if task.work != Nothing {
        tasks := tasks + [task];
      }
    }

    /** The locked part of `run`: takes the first eligible entry; `tickleMe` when others should look as well. */
    method TakeTask(thread: nat, running: set<nat>) returns (task: Option<Entry>, tickleMe: bool, ghost i: nat)
      requires Valid()
      modifies `tasks, `activeThreadCount
      ensures Valid() && FirstEligible(old(tasks), thread, running, i)
      ensures task == if i < |old(tasks)| then Some(old(tasks)[i]) else None
      ensures tasks == if i < |old(tasks)| then old(tasks)[..i] + old(tasks)[i + 1..] else old(tasks)
      ensures activeThreadCount == old(activeThreadCount) + if i < |old(tasks)| then 1 else 0
      ensures tickleMe <==> i + 1 < |old(tasks)| || exists j :: 0 <= j < i && PinnedElsewhere(old(tasks)[j], thread)
    {
      task, tickleMe := None, false;
      var it := 0;
      while it != |tasks|
        invariant it <= |tasks| && task == None
        invariant forall j :: 0 <= j < it ==> !Eligible(tasks[j], thread, running)
        invariant tickleMe <==> exists j :: 0 <= j < it && PinnedElsewhere(tasks[j], thread)
      {
        if PinnedElsewhere(tasks[it], thread) {
          it := it + 1;
          tickleMe := true;
          continue;
        }
        assert tasks[it].work != Nothing;
        if tasks[it].work.RunFiber? && tasks[it].work.fiber in running {
          it := it + 1;
          continue;
        }
        task := Some(tasks[it]);
        break;
      }
      i := it;
      if task.Some? {
        tasks := tasks[..it] + tasks[it + 1..];
        activeThreadCount := activeThreadCount + 1;
      }
      tickleMe := tickleMe || it < |tasks|;
    }
  }

  predicate PinnedElsewhere(e: Entry, thread: nat) {
    e.thread.Some? && e.thread.value != thread
  }

  function Scheduled(tasks: seq<Entry>, task: Entry): seq<Entry> {
    if task.work == Nothing then tasks else tasks + [task]
  }

  // ----- the protocol -----------------------------------------------------------------------------------

  /** Where a worker is in `run`; the idle fibre has ended when `idleDone`. */
  datatype Phase =
    | Unborn
    | Looking
    | Holding(entry: Entry)
    | Running(entry: Entry)
    | Returned(entry: Entry)
    | FoundNone
    | Idling
    | IdleReturned
    | Exited

  datatype Worker = Worker(phase: Phase, idleDone: bool) {
    predicate Holds() {
      phase.Holding? || phase.Running? || phase.Returned?
    }

    predicate IsIdle() {
      phase == Idling || phase == IdleReturned
    }
  }

  /** Where the thread that owns the scheduler is in `stop`. */
  datatype Caller = Free | StopCalled | Flagged | InRoot | Joining(joined: nat) | Done

  datatype State = State(
    tasks: seq<Entry>,
    active: int,
    idle: int,
    stopping: bool,
    started: bool,
    workers: seq<Worker>,
    threadCount: nat,
    useCaller: bool,
    caller: Caller,
    scheduled: multiset<Entry>,
    finished: multiset<Entry>)

  /** The steps, each under the lock or on one counter. A step of `run` names its worker; with `useCaller`
      the last worker is the root fibre, which the caller runs inside `stop`. */
  datatype Label =
    | Schedule(worker: Option<nat>, entry: Entry)
    | Start
    | Take(w: nat, i: nat)
    | Resume(w: nat)
    | ResumeReturns(w: nat)
    | CountDown(w: nat)
    | EnterIdle(w: nat)
    | IdleCheck(w: nat)
    | LeaveIdle(w: nat)
    | Exit(w: nat)
    | StopCall
    | StopFlag
    | StopRoot
    | Join

  function RunningFibers(workers: seq<Worker>): set<nat> {
    set w | 0 <= w < |workers| && workers[w].phase.Running? && workers[w].phase.entry.work.RunFiber?
      :: workers[w].phase.entry.work.fiber
  }

  predicate Quiescent(s: State) {
    s.stopping && s.tasks == [] && s.active == 0
  }

  /** The threads `stop` joins. */
  function Threads(s: State): nat {
    if s.started then s.threadCount else 0
  }

  predicate Enabled(s: State, l: Label) {
    match l
    case Schedule(None, _) => !s.stopping
    case Schedule(Some(w), _) => w < |s.workers| && s.workers[w].phase.Running?
    case Start => s.caller == Free && !s.started && !s.stopping
    case Take(w, i) =>
      w < |s.workers| && s.workers[w].phase == Looking && FirstEligible(s.tasks, w, RunningFibers(s.workers), i)
    case Resume(w) => w < |s.workers| && s.workers[w].phase.Holding?
    case ResumeReturns(w) => w < |s.workers| && s.workers[w].phase.Running?
    case CountDown(w) => w < |s.workers| && s.workers[w].phase.Returned?
    case EnterIdle(w) => w < |s.workers| && s.workers[w].phase == FoundNone && !s.workers[w].idleDone
    case IdleCheck(w) => w < |s.workers| && s.workers[w].phase == Idling
    case LeaveIdle(w) => w < |s.workers| && s.workers[w].phase == IdleReturned
    case Exit(w) => w < |s.workers| && s.workers[w].phase == FoundNone && s.workers[w].idleDone
    case StopCall => s.caller == Free
    case StopFlag => s.caller == StopCalled
    case StopRoot => s.caller == Flagged && |s.workers| > 0
    case Join =>
      match s.caller
      case InRoot => |s.workers| > 0 && s.workers[|s.workers| - 1].phase == Exited
      case Joining(k) => k >= Threads(s) || (k < |s.workers| && s.workers[k].phase == Exited)
      case _ => false
  }

  function Born(workers: seq<Worker>, n: nat): (born: seq<Worker>)
    requires n <= |workers|
    ensures |born| == |workers|
  {
    seq(n, i => Worker(Looking, false)) + workers[n..]
  }

  /** The worker a step moves; for the steps of the caller, the last one. */
  function Mover(s: State, l: Label): (w: nat)
    requires Enabled(s, l) && |s.workers| > 0
    ensures w < |s.workers|
  {
    match l
    case Take(w, _) => w
    case Resume(w) => w
    case ResumeReturns(w) => w
    case CountDown(w) => w
    case EnterIdle(w) => w
    case IdleCheck(w) => w
    case LeaveIdle(w) => w
    case Exit(w) => w
    case _ => |s.workers| - 1
  }

  /** What the step makes of that worker. */
  function Moved(s: State, l: Label): Worker
    requires Enabled(s, l) && |s.workers| > 0
  {
    var x := s.workers[Mover(s, l)];
    match l
    case Take(w, i) => x.(phase := if i == |s.tasks| then FoundNone else Holding(s.tasks[i]))
    case Resume(w) => x.(phase := Running(x.phase.entry))
    case ResumeReturns(w) => x.(phase := Returned(x.phase.entry))
    case CountDown(w) => x.(phase := Looking)
    case EnterIdle(w) => x.(phase := Idling)
    case IdleCheck(w) => Worker(IdleReturned, Quiescent(s))
    case LeaveIdle(w) => x.(phase := Looking)
    case Exit(w) => x.(phase := Exited)
    case StopRoot => Worker(Looking, false)
    case _ => x
  }

  /** The step's effect on everything but the workers. */
  function Rest(s: State, l: Label): State
    requires Enabled(s, l) && |s.workers| > 0
  {
    match l
    case Schedule(_, e) =>
      s.(tasks := Scheduled(s.tasks, e),
         scheduled := if e.work == Nothing then s.scheduled else s.scheduled + multiset{e})
    case Start => s.(started := true)
    case Take(w, i) =>
      if i == |s.tasks| then s else s.(tasks := s.tasks[..i] + s.tasks[i + 1..], active := s.active + 1)
    case CountDown(w) => s.(active := s.active - 1, finished := s.finished + multiset{s.workers[w].phase.entry})
    case EnterIdle(w) => s.(idle := s.idle + 1)
    case LeaveIdle(w) => s.(idle := s.idle - 1)
    case StopCall => s.(caller := if Quiescent(s) then Done else StopCalled)
    case StopFlag => s.(stopping := true, caller := if s.useCaller then Flagged else Joining(0))
    case StopRoot => s.(caller := InRoot)
    case Join =>
      (match s.caller
       case InRoot => s.(caller := Joining(0))
       case Joining(k) => s.(caller := if k >= Threads(s) then Done else Joining(k + 1))
       case _ => s)
    case _ => s
  }

  function Apply(s: State, l: Label): State
    requires Enabled(s, l) && |s.workers| > 0 && s.threadCount <= |s.workers|
  {
    Rest(s, l).(workers := if l.Start? then Born(s.workers, s.threadCount) else s.workers[Mover(s, l) := Moved(s, l)])
  }

  /** `threads` threads in all, one of them the caller's own with `useCaller`. */
  function Initial(threads: nat, useCaller: bool): State
    requires threads > 0
  {
    State([], 0, 0, false, false, seq(threads, i => Worker(Unborn, false)),
          if useCaller then threads - 1 else threads, useCaller, Free, multiset{}, multiset{})
  }

  // ----- invariants ---------------------------------------------------------------------------------------

  function Part(w: Worker): multiset<Entry> {
    if w.Holds() then multiset{w.phase.entry} else multiset{}
  }

  function One(w: Worker): nat {
    if w.IsIdle() then 1 else 0
  }

  /** The entries the workers hold. */
  function Held(workers: seq<Worker>): multiset<Entry> {
    if workers == [] then multiset{} else Held(workers[..|workers| - 1]) + Part(workers[|workers| - 1])
  }

  function IdleCount(workers: seq<Worker>): nat {
    if workers == [] then 0 else IdleCount(workers[..|workers| - 1]) + One(workers[|workers| - 1])
  }

  lemma {:induction false} HeldUpdate(ws: seq<Worker>, w: nat, x: Worker)
    requires w < |ws|
    ensures Held(ws[w := x]) + Part(ws[w]) == Held(ws) + Part(x)
    ensures IdleCount(ws[w := x]) + One(ws[w]) == IdleCount(ws) + One(x)
  {
    hide Part, One;
    var n := |ws| - 1;
    if w == n {
      assert ws[w := x][..n] == ws[..n];
      assert Held(ws[w := x]) == Held(ws[..n]) + Part(x);
    } else {
      assert ws[w := x][..n] == ws[..n][w := x];
      HeldUpdate(ws[..n], w, x);
      AddBoth(Held(ws[..n][w := x]), Part(ws[w]), Held(ws[..n]), Part(x), Part(ws[n]));
    }
  }

  lemma AddBoth<T>(a: multiset<T>, b: multiset<T>, c: multiset<T>, d: multiset<T>, e: multiset<T>)
    requires a + b == c + d
    ensures (a + e) + b == (c + e) + d
  {
    assert (a + e) + b == (a + b) + e && (c + e) + d == (c + d) + e;
  }

  lemma {:induction false} NothingHeld(ws: seq<Worker>)
    requires forall w :: 0 <= w < |ws| ==> !ws[w].Holds() && !ws[w].IsIdle()
    ensures Held(ws) == multiset{} && IdleCount(ws) == 0
  {
    if ws != [] {
      NothingHeld(ws[..|ws| - 1]);
    }
  }

  lemma {:induction false} PartOfHeld(ws: seq<Worker>, w: nat)
    requires w < |ws|
    ensures Part(ws[w]) <= Held(ws)
  {
    if w < |ws| - 1 {
      PartOfHeld(ws[..|ws| - 1], w);
    }
  }

  /** The counters are exact and no entry is lost or duplicated. */
  ghost predicate Accounted(s: State) {
    && s.active == |Held(s.workers)|
    && s.idle == IdleCount(s.workers)
    && s.scheduled == multiset(s.tasks) + Held(s.workers) + s.finished
    && AllHaveWork(s.tasks)
  }

  /** A worker's idle fibre ends, and a worker leaves `run`, only when everything has been done. */
  ghost predicate ExitsAreFinal(s: State) {
    forall w :: 0 <= w < |s.workers| ==>
      && (s.workers[w].idleDone ==> Quiescent(s))
      && (s.workers[w].phase == Exited ==> s.workers[w].idleDone)
  }

  predicate BeforeRoot(c: Caller) {
    c.Free? || c.StopCalled? || c.Flagged?
  }

  /** Who runs when: threads after `start`, the root fibre inside `stop`; `stop` waits for them in turn. */
  ghost predicate Staged(s: State) {
    && |s.workers| == s.threadCount + (if s.useCaller then 1 else 0) && |s.workers| > 0
    && (forall w :: 0 <= w < s.threadCount ==> (s.workers[w].phase == Unborn <==> !s.started))
    && (s.useCaller ==>
          (s.workers[s.threadCount].phase == Unborn <==> BeforeRoot(s.caller)))
    && (s.stopping <==> !s.caller.Free? && !s.caller.StopCalled?)
    && (s.caller.Flagged? || s.caller.InRoot? ==> s.useCaller)
  }

  /** What `stop` has waited for has left `run`. */
  ghost predicate Joined(s: State)
    requires Staged(s)
  {
    var n := if s.caller.Joining? then s.caller.joined else Threads(s);
    (s.caller.Joining? || s.caller.Done?) ==>
      && n <= Threads(s)
      && (forall w :: 0 <= w < n ==> s.workers[w].phase == Exited)
      && (s.useCaller ==> s.workers[s.threadCount].phase == Exited)
  }

  /** Without `start` and without a root fibre nothing is ever run. */
  ghost predicate NobodyRuns(s: State) {
    !s.started && !s.useCaller ==> s.finished == multiset{}
  }

  ghost predicate Inv(s: State) {
    Accounted(s) && ExitsAreFinal(s) && Staged(s) && Joined(s) && NobodyRuns(s)
  }

  lemma InitialInv(threads: nat, useCaller: bool)
    requires threads > 0
    ensures Inv(Initial(threads, useCaller))
  {
    NothingHeld(Initial(threads, useCaller).workers);
  }

  lemma TakenOut(tasks: seq<Entry>, i: nat)
    requires i < |tasks|
    ensures multiset(tasks) == multiset(tasks[..i] + tasks[i + 1..]) + multiset{tasks[i]}
  {
    assert tasks == tasks[..i] + [tasks[i]] + tasks[i + 1..];
  }

  lemma ScheduleAccounted(s: State, worker: Option<nat>, entry: Entry)
    requires Accounted(s) && |s.workers| > 0 && s.threadCount <= |s.workers| && Enabled(s, Schedule(worker, entry))
    ensures Accounted(Apply(s, Schedule(worker, entry)))
  {
    hide Held, IdleCount;
    var t := Apply(s, Schedule(worker, entry));
    assert t.workers == s.workers;
    if entry.work != Nothing {
      Move(s.scheduled, multiset(s.tasks), Held(s.workers), s.finished, multiset{entry});
      assert multiset(t.tasks) == multiset(s.tasks) + multiset{entry};
    }
  }

  /** A worker that held nothing, and was not idle, takes up what `x` holds. */
  lemma HeldGains(ws: seq<Worker>, w: nat, x: Worker)
    requires w < |ws| && !ws[w].Holds() && !ws[w].IsIdle() && x.Holds()
    ensures Held(ws[w := x]) == Held(ws) + multiset{x.phase.entry} && IdleCount(ws[w := x]) == IdleCount(ws)
    ensures |Held(ws[w := x])| == |Held(ws)| + 1
  {
    hide Held, IdleCount;
    HeldUpdate(ws, w, x);
    assert Held(ws[w := x]) + multiset{} == Held(ws[w := x]);
  }

  lemma TakeAccounted(s: State, w: nat, i: nat)
    requires Accounted(s) && s.threadCount <= |s.workers| && i < |s.tasks| && Enabled(s, Take(w, i))
    ensures Accounted(Apply(s, Take(w, i)))
  {
    hide Held, IdleCount, Eligible, RunningFibers, AllHaveWork;
    HeldGains(s.workers, w, s.workers[w].(phase := Holding(s.tasks[i])));
    TakenOut(s.tasks, i);
    WorkStays(s.tasks, i);
    MoveBetween(multiset(s.tasks[..i] + s.tasks[i + 1..]), Held(s.workers), s.finished, multiset{s.tasks[i]});
  }

  lemma CountDownAccounted(s: State, w: nat)
    requires Accounted(s) && s.threadCount <= |s.workers| && Enabled(s, CountDown(w))
    ensures Accounted(Apply(s, CountDown(w)))
  {
    hide Held, IdleCount;
    var x := s.workers[w].(phase := Looking);
    HeldGains(s.workers[w := x], w, s.workers[w]);
    assert s.workers[w := x][w := s.workers[w]] == s.workers;
    MoveOn(multiset(s.tasks), Held(s.workers[w := x]), s.finished, multiset{s.workers[w].phase.entry});
  }

  predicate MovesNoEntry(s: State, l: Label) {
    !l.Start? && !l.Schedule? && !l.CountDown? && !(l.Take? && l.i < |s.tasks|)
  }

  lemma QuietMoves(s: State, l: Label)
    requires |s.workers| > 0 && Enabled(s, l) && MovesNoEntry(s, l)
    requires l.StopRoot? ==> s.workers[|s.workers| - 1].phase == Unborn
    ensures var x, y := s.workers[Mover(s, l)], Moved(s, l);
            x.Holds() == y.Holds() && (x.Holds() ==> x.phase.entry == y.phase.entry)
    ensures Rest(s, l).idle + One(s.workers[Mover(s, l)]) == s.idle + One(Moved(s, l))
  {
    hide Eligible, RunningFibers, Quiescent;
  }

  lemma QuietCounts(s: State, l: Label)
    requires |s.workers| > 0 && Enabled(s, l) && MovesNoEntry(s, l)
    ensures var t := Rest(s, l);
            t.active == s.active && t.tasks == s.tasks && t.scheduled == s.scheduled && t.finished == s.finished
  {
    hide Eligible, RunningFibers, Quiescent;
  }

  /** The other steps move no entry. */
  lemma QuietAccounted(s: State, l: Label)
    requires Accounted(s) && |s.workers| > 0 && s.threadCount <= |s.workers| && Enabled(s, l)
    requires MovesNoEntry(s, l) && (l.StopRoot? ==> s.workers[|s.workers| - 1].phase == Unborn)
    ensures Accounted(Apply(s, l))
  {
    hide Held, IdleCount, Enabled, Rest, Moved, Mover, One;
    QuietMoves(s, l);
    QuietCounts(s, l);
    HeldUpdate(s.workers, Mover(s, l), Moved(s, l));
    SameHeld(Held(Apply(s, l).workers), Part(Moved(s, l)), Held(s.workers));
  }

  lemma SameHeld(a: multiset<Entry>, p: multiset<Entry>, b: multiset<Entry>)
    requires a + p == b + p
    ensures a == b
  {
    assert a == (a + p) - p && b == (b + p) - p;
  }

  lemma Move(all: multiset<Entry>, t: multiset<Entry>, h: multiset<Entry>, f: multiset<Entry>, e: multiset<Entry>)
    requires all == t + h + f
    ensures all + e == (t + e) + h + f
  {
  }

  lemma MoveBetween(t: multiset<Entry>, h: multiset<Entry>, f: multiset<Entry>, e: multiset<Entry>)
    ensures (t + e) + h + f == t + (h + e) + f
  {
  }

  lemma MoveOn(t: multiset<Entry>, h: multiset<Entry>, f: multiset<Entry>, e: multiset<Entry>)
    ensures t + (h + e) + f == t + h + (f + e)
  {
  }

  lemma WorkStays(tasks: seq<Entry>, i: nat)
    requires i < |tasks| && AllHaveWork(tasks)
    ensures AllHaveWork(tasks[..i] + tasks[i + 1..])
  {
  }

  lemma StepAccounted(s: State, l: Label)
    requires Inv(s) && Enabled(s, l)
    ensures Accounted(Apply(s, l))
  {
    hide Accounted, ExitsAreFinal, Joined, Apply;
    if l.Start? {
      BirthAccounted(s);
    } else if l.Schedule? {
      ScheduleAccounted(s, l.worker, l.entry);
    } else if l.Take? && l.i < |s.tasks| {
      TakeAccounted(s, l.w, l.i);
    } else if l.CountDown? {
      CountDownAccounted(s, l.w);
    } else {
      QuietAccounted(s, l);
    }
  }

  lemma BirthAccounted(s: State)
    requires Accounted(s) && Staged(s) && Enabled(s, Start)
    ensures Accounted(Apply(s, Start))
  {
    NothingHeld(s.workers);
    NothingHeld(Born(s.workers, s.threadCount));
  }

  lemma RunningMeansActive(s: State, w: nat)
    requires Accounted(s) && w < |s.workers| && s.workers[w].Holds()
    ensures s.active > 0
  {
    PartOfHeld(s.workers, w);
    assert s.workers[w].phase.entry in Held(s.workers);
  }

  /** Once everything is done, it stays so. */
  lemma QuiescentIsStable(s: State, l: Label)
    requires Inv(s) && Enabled(s, l) && Quiescent(s)
    ensures Quiescent(Apply(s, l))
  {
    hide Held, IdleCount, Accounted, Joined, ExitsAreFinal, Moved, Born;
    var w := Mover(s, l);
    if s.workers[w].Holds() {
      RunningMeansActive(s, w);
    }
    if l.Schedule? && l.worker.Some? {
      RunningMeansActive(s, l.worker.value);
    }
  }

  lemma StepExits(s: State, l: Label)
    requires Inv(s) && Enabled(s, l)
    ensures ExitsAreFinal(Apply(s, l))
  {
    hide Held, IdleCount, Accounted, Joined, Rest;
    if Quiescent(s) {
      QuiescentIsStable(s, l);
    } else {
      assert !s.workers[Mover(s, l)].idleDone;
    }
  }

  lemma UnbornStays(s: State, l: Label)
    requires Enabled(s, l) && |s.workers| > 0 && !l.Start?
    ensures Moved(s, l).phase == Unborn <==> s.workers[Mover(s, l)].phase == Unborn && !l.StopRoot?
    ensures s.workers[Mover(s, l)].phase == Exited && !l.StopRoot? ==> Moved(s, l).phase == Exited
  {
    hide FirstEligible, RunningFibers, Quiescent;
  }

  lemma StepStaged(s: State, l: Label)
    requires Inv(s) && Enabled(s, l)
    ensures Staged(Apply(s, l))
  {
    hide Accounted, ExitsAreFinal, Joined, FirstEligible, RunningFibers, Scheduled, Moved;
    if l.Start? {
      assert Apply(s, l).workers == Born(s.workers, s.threadCount);
    } else {
      UnbornStays(s, l);
      StagesKept(s, l);
    }
  }

  lemma StagesKept(s: State, l: Label)
    requires Staged(s) && Enabled(s, l) && !l.Start?
    requires Moved(s, l).phase == Unborn <==> s.workers[Mover(s, l)].phase == Unborn && !l.StopRoot?
    ensures Staged(Apply(s, l))
  {
    hide FirstEligible, RunningFibers, Scheduled, Moved, Rest;
    CallerMoves(s, l);
  }

  /** How `stop` moves on. */
  lemma CallerMoves(s: State, l: Label)
    requires Staged(s) && Enabled(s, l) && !l.Start?
    ensures var t := Rest(s, l);
            && t.started == s.started && t.threadCount == s.threadCount && t.useCaller == s.useCaller
            && (t.stopping <==> !t.caller.Free? && !t.caller.StopCalled?)
            && (t.caller.Flagged? || t.caller.InRoot? ==> t.useCaller)
            && (BeforeRoot(t.caller) ==> BeforeRoot(s.caller))
            && (s.useCaller ==> (l.StopRoot? <==> BeforeRoot(s.caller) && !BeforeRoot(t.caller)))
            && (l.StopRoot? ==> s.useCaller)
  {
    hide FirstEligible, RunningFibers, Scheduled;
  }

  lemma StepJoined(s: State, l: Label)
    requires Inv(s) && Enabled(s, l) && Staged(Apply(s, l))
    ensures Joined(Apply(s, l))
  {
    hide Accounted, ExitsAreFinal, FirstEligible, RunningFibers, Quiescent, Scheduled, Moved;
    if l.Start? {
      assert s.caller == Free;
    } else {
      UnbornStays(s, l);
    }
  }

  lemma StepInv(s: State, l: Label)
    requires Inv(s) && Enabled(s, l)
    ensures Inv(Apply(s, l))
  {
    hide Accounted, ExitsAreFinal, Joined, Apply, Enabled;
    StepAccounted(s, l);
    StepExits(s, l);
    StepStaged(s, l);
    StepJoined(s, l);
    StepNobody(s, l);
  }

  lemma StepNobody(s: State, l: Label)
    requires Inv(s) && Enabled(s, l)
    ensures NobodyRuns(Apply(s, l))
  {
    hide Accounted, ExitsAreFinal, Joined, FirstEligible, RunningFibers, Scheduled, Moved;
    if !s.started && !s.useCaller {
      assert s.workers[Mover(s, l)].phase == Unborn;
    }
  }

  // ----- runs ---------------------------------------------------------------------------------------------

  /** The state after a run, when every step of it was enabled. */
  function After(s: State, ls: seq<Label>): Option<State> {
    if ls == [] then Some(s)
    else
      var before := After(s, ls[..|ls| - 1]);
      if before.Some? then Step(before.value, ls[|ls| - 1]) else None
  }

  function Step(s: State, l: Label): Option<State> {
    if Enabled(s, l) && 0 < |s.workers| && s.threadCount <= |s.workers| then Some(Apply(s, l)) else None
  }

  lemma {:induction false} RunKeepsInv(s: State, ls: seq<Label>)
    requires Inv(s) && After(s, ls).Some?
    ensures Inv(After(s, ls).value) && After(s, ls).value.useCaller == s.useCaller
  {
    hide Inv, Enabled, Apply;
    if ls != [] {
      var front, l := ls[..|ls| - 1], ls[|ls| - 1];
      RunKeepsInv(s, front);
      StepKeeps(After(s, front).value, l);
    }
  }

  lemma StepKeeps(s: State, l: Label)
    requires Inv(s) && Step(s, l).Some?
    ensures Inv(Step(s, l).value) && Step(s, l).value.useCaller == s.useCaller
  {
    hide Inv, Enabled, Held;
    StepInv(s, l);
  }

  /** In every run, when `stop` has returned: everything scheduled is finished, exactly when there was a
      worker to run it or nothing to run. */
  lemma StopDrains(threads: nat, useCaller: bool, ls: seq<Label>)
    requires threads > 0 && After(Initial(threads, useCaller), ls).Some?
    requires After(Initial(threads, useCaller), ls).value.caller == Done
    ensures var s := After(Initial(threads, useCaller), ls).value;
            && (s.finished == s.scheduled <==> s.started || useCaller || s.scheduled == multiset{})
            && (s.started || useCaller ==> s.tasks == [] && s.active == 0 && s.idle == 0 && AllGone(s.workers))
  {
    hide After, Enabled, Apply;
    InitialInv(threads, useCaller);
    RunKeepsInv(Initial(threads, useCaller), ls);
    var s := After(Initial(threads, useCaller), ls).value;
    if s.started || useCaller {
      DoneIsDrained(s);
    }
  }

  // ----- the order of a run -------------------------------------------------------------------------------

  /** The entries with work that a run schedules, in order. */
  function Submitted(ls: seq<Label>): seq<Entry> {
    if ls == [] then []
    else
      var front, l := Submitted(ls[..|ls| - 1]), ls[|ls| - 1];
      if l.Schedule? && l.entry.work != Nothing then front + [l.entry] else front
  }

  /** Which of them are still in the list: the number of each. */
  function Numbers(ls: seq<Label>): seq<nat> {
    if ls == [] then []
    else NumbersStep(Numbers(ls[..|ls| - 1]), ls[|ls| - 1], |Submitted(ls[..|ls| - 1])|)
  }

  function NumbersStep(ns: seq<nat>, l: Label, next: nat): seq<nat> {
    if l.Schedule? && l.entry.work != Nothing then ns + [next]
    else if l.Take? && l.i < |ns| then ns[..l.i] + ns[l.i + 1..]
    else ns
  }

  predicate Ascending(ns: seq<nat>) {
    forall i, j :: 0 <= i < j < |ns| ==> ns[i] < ns[j]
  }

  /** The list holds the entries of these numbers. */
  predicate Numbered(tasks: seq<Entry>, ns: seq<nat>, submitted: seq<Entry>) {
    |ns| == |tasks| && forall i :: 0 <= i < |ns| ==> ns[i] < |submitted| && tasks[i] == submitted[ns[i]]
  }

  lemma TasksOf(s: State, l: Label)
    requires Enabled(s, l) && |s.workers| > 0 && s.threadCount <= |s.workers|
    ensures Apply(s, l).tasks == if l.Schedule? then Scheduled(s.tasks, l.entry)
                                 else if l.Take? && l.i < |s.tasks| then s.tasks[..l.i] + s.tasks[l.i + 1..]
                                 else s.tasks
  {
    hide Eligible, RunningFibers, Scheduled, Moved, Born;
  }

  lemma OrderStep(tasks: seq<Entry>, ns: seq<nat>, submitted: seq<Entry>, l: Label)
    requires Ascending(ns) && Numbered(tasks, ns, submitted)
    ensures var more := if l.Schedule? && l.entry.work != Nothing then submitted + [l.entry] else submitted;
            var tasks' := if l.Schedule? then Scheduled(tasks, l.entry)
                          else if l.Take? && l.i < |tasks| then tasks[..l.i] + tasks[l.i + 1..]
                          else tasks;
            Ascending(NumbersStep(ns, l, |submitted|)) && Numbered(tasks', NumbersStep(ns, l, |submitted|), more)
  {
  }

  /** In every run the list holds entries in the order in which they were scheduled. */
  lemma {:induction false} ListIsInOrder(s: State, ls: seq<Label>)
    requires s.tasks == [] && After(s, ls).Some?
    ensures Ascending(Numbers(ls)) && Numbered(After(s, ls).value.tasks, Numbers(ls), Submitted(ls))
    decreases |ls|
  {
    hide Enabled, Apply, Ascending, Numbered, NumbersStep, Scheduled;
    if ls == [] {
      NoneInOrder(s);
    } else {
      var front, l := ls[..|ls| - 1], ls[|ls| - 1];
      ListIsInOrder(s, front);
      TasksOf(After(s, front).value, l);
      OrderStep(After(s, front).value.tasks, Numbers(front), Submitted(front), l);
    }
  }

  lemma NoneInOrder(s: State)
    requires s.tasks == []
    ensures Ascending([]) && Numbered(s.tasks, [], [])
  {
  }

  /** Of two entries in the list that a worker may take, it takes the one that was scheduled earlier. */
  lemma EarlierFirst(threads: nat, useCaller: bool, ls: seq<Label>, w: nat, i: nat, j: nat)
    requires threads > 0 && After(Initial(threads, useCaller), ls).Some?
    requires var s := After(Initial(threads, useCaller), ls).value;
             Enabled(s, Take(w, i)) && i < |s.tasks| && j < |s.tasks| && j != i
             && Eligible(s.tasks[j], w, RunningFibers(s.workers))
    ensures var s, ns := After(Initial(threads, useCaller), ls).value, Numbers(ls);
            && |ns| == |s.tasks| && ns[i] < ns[j] < |Submitted(ls)|
            && Submitted(ls)[ns[i]] == s.tasks[i] && Submitted(ls)[ns[j]] == s.tasks[j]
            && Eligible(s.tasks[i], w, RunningFibers(s.workers))
  {
    hide Eligible, RunningFibers, After, Submitted, Numbers;
    ListIsInOrder(Initial(threads, useCaller), ls);
  }

  // ----- pinned entries -------------------------------------------------------------------------------------

  /** A worker holds no entry that is pinned to another thread. */
  ghost predicate OnItsThread(workers: seq<Worker>) {
    forall w :: 0 <= w < |workers| && workers[w].Holds() && workers[w].phase.entry.thread.Some? ==>
      workers[w].phase.entry.thread.value == w
  }

  lemma MovedOnItsThread(s: State, l: Label)
    requires |s.workers| > 0 && Enabled(s, l) && OnItsThread(s.workers) && !l.Start?
    ensures OnItsThread(s.workers[Mover(s, l) := Moved(s, l)])
  {
    hide RunningFibers, Quiescent;
    assert Moved(s, l).Holds() && !(l.Take? && l.i < |s.tasks|) ==>
             s.workers[Mover(s, l)].Holds() && Moved(s, l).phase.entry == s.workers[Mover(s, l)].phase.entry;
  }

  lemma {:induction false} RunOnItsThread(s: State, ls: seq<Label>)
    requires OnItsThread(s.workers) && After(s, ls).Some?
    ensures OnItsThread(After(s, ls).value.workers)
    decreases |ls|
  {
    hide Enabled, Rest, Moved, Mover, OnItsThread;
    if ls != [] {
      var r, l := After(s, ls[..|ls| - 1]).value, ls[|ls| - 1];
      RunOnItsThread(s, ls[..|ls| - 1]);
      if l.Start? {
        NewbornsHoldNothing(r.workers, r.threadCount);
      } else {
        MovedOnItsThread(r, l);
      }
    }
  }

  lemma NewbornsHoldNothing(workers: seq<Worker>, n: nat)
    requires OnItsThread(workers) && n <= |workers|
    ensures OnItsThread(Born(workers, n))
  {
  }

  /** In every run an entry that is pinned to a thread is held and run by no other worker. */
  lemma PinnedRunsThere(threads: nat, useCaller: bool, ls: seq<Label>, w: nat)
    requires threads > 0 && After(Initial(threads, useCaller), ls).Some?
    requires var s := After(Initial(threads, useCaller), ls).value;
             w < |s.workers| && s.workers[w].Holds() && s.workers[w].phase.entry.thread.Some?
    ensures After(Initial(threads, useCaller), ls).value.workers[w].phase.entry.thread.value == w
  {
    hide After;
    RunOnItsThread(Initial(threads, useCaller), ls);
  }

  predicate AllGone(workers: seq<Worker>) {
    forall w :: 0 <= w < |workers| ==> workers[w].phase == Exited || workers[w].phase == Unborn
  }

  lemma DoneIsDrained(s: State)
    requires Inv(s) && s.caller == Done && (s.started || s.useCaller)
    ensures s.tasks == [] && s.active == 0 && s.idle == 0 && s.finished == s.scheduled && AllGone(s.workers)
  {
    assert s.workers[|s.workers| - 1].phase == Exited;
    NothingHeld(s.workers);
  }

  /** A worker leaves `run` only when everything scheduled is finished, and from then on that stays so. */
  lemma ExitIsFinal(threads: nat, useCaller: bool, ls: seq<Label>, more: seq<Label>, w: nat)
    requires threads > 0 && After(Initial(threads, useCaller), ls).Some?
    requires var s := After(Initial(threads, useCaller), ls).value; w < |s.workers| && s.workers[w].phase == Exited
    requires After(After(Initial(threads, useCaller), ls).value, more).Some?
    ensures var t := After(After(Initial(threads, useCaller), ls).value, more).value;
            Quiescent(t) && t.finished == t.scheduled
  {
    hide After, Enabled, Apply;
    InitialInv(threads, useCaller);
    RunKeepsInv(Initial(threads, useCaller), ls);
    StaysQuiescent(After(Initial(threads, useCaller), ls).value, more);
  }

  lemma {:induction false} StaysQuiescent(s: State, ls: seq<Label>)
    requires Inv(s) && Quiescent(s) && After(s, ls).Some?
    ensures Inv(After(s, ls).value) && Quiescent(After(s, ls).value)
    ensures After(s, ls).value.finished == After(s, ls).value.scheduled
  {
    hide Enabled, Apply, ExitsAreFinal, Staged, Joined, NobodyRuns;
    if ls != [] {
      var front, l := ls[..|ls| - 1], ls[|ls| - 1];
      StaysQuiescent(s, front);
      StepInv(After(s, front).value, l);
      QuiescentIsStable(After(s, front).value, l);
    }
    assert |Held(After(s, ls).value.workers)| == 0;
  }

  lemma AfterOneMore(s: State, ls: seq<Label>, l: Label)
    requires After(s, ls).Some?
    ensures After(s, ls + [l]) == Step(After(s, ls).value, l)
  {
    assert (ls + [l])[..|ls|] == ls;
  }

  /** The case that fails: entries scheduled on a scheduler that is stopped without having been started. */
  lemma StopWithoutStart(e: Entry)
    requires e.work != Nothing
    ensures var s := After(Initial(1, false), [] + [Schedule(None, e)] + [StopCall] + [StopFlag] + [Join]);
            s.Some? && s.value.caller == Done && s.value.tasks == [e] && s.value.finished == multiset{}
  {
    hide After, Step;
    var s0 := Initial(1, false);
    AfterNothing(s0);
    var s1 := s0.(tasks := [e], scheduled := multiset{e});
    AfterOneMore(s0, [], Schedule(None, e));
    ScheduledUnstarted(e);
    StoppedUnstarted(s1);
    AfterOneMore(s0, [] + [Schedule(None, e)], StopCall);
    AfterOneMore(s0, [] + [Schedule(None, e)] + [StopCall], StopFlag);
    AfterOneMore(s0, [] + [Schedule(None, e)] + [StopCall] + [StopFlag], Join);
  }

  lemma ScheduledUnstarted(e: Entry)
    requires e.work != Nothing
    ensures var s := Initial(1, false);
            Step(s, Schedule(None, e)) == Some(s.(tasks := [e], scheduled := multiset{e}))
  {
    var s := Initial(1, false);
    assert s.workers[0 := s.workers[0]] == s.workers && [] + [e] == [e] && multiset{} + multiset{e} == multiset{e};
  }

  lemma StoppedUnstarted(s: State)
    requires |s.workers| == 1 == s.threadCount && s.caller == Free && !s.started && !s.useCaller && !s.stopping
    ensures var t := s.(caller := StopCalled);
            var u := t.(stopping := true, caller := Joining(0));
            Step(s, StopCall) == Some(t) && Step(t, StopFlag) == Some(u) && Step(u, Join) == Some(u.(caller := Done))
  {
    assert s.workers[0 := s.workers[0]] == s.workers;
  }

  lemma AfterNothing(s: State)
    ensures After(s, []) == Some(s)
  {
  }
}
