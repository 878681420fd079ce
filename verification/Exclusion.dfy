/** Why nobody acts between the test and the decrement of semaphore_obtain: each task counts its scheduler locks,
    and a task is preempted only while its count is 0. The single steps of the tasks refine those of Semaphore. */
module Exclusion {
  import opened Words
  import opened Wait
  import S = Semaphore

  /** Where a task is in the semaphore calls. Testing: semaphore_obtain has locked the scheduler. Suspending: there was
      no count, and suspend_condition has locked once more. Waiting: switched out, or back and not yet gone on.
      Returned: the lock of suspend_condition has been given back. Resuspending: about to wait again. Passed: the count
      is there and not yet taken. Asserted: semaphore_release has made its assertion. Serving: it has locked the
      scheduler. Closing: about to unlock. */
  datatype Pc =
    | Outside
    | Testing(wait: S.Patience)
    | Suspending(wait: S.Patience)
    | Waiting
    | Returned
    | Resuspending
    | Passed
    | Asserted
    | Serving
    | Closing

  /** sem holds no mark of a task inside: where that task is its program counter says. */
  datatype Machine = Machine(sem: S.Sem, running: Option<nat>, lock: seq<nat>, pc: seq<Pc>)

  datatype Event =
    | Lock(t: nat)
    | Unlock(t: nat)
    | Enter(t: nat, wait: S.Patience)
    | Test(t: nat)
    | SwitchOut(t: nat)
    | Expire(t: nat)
    | Dispatch(t: nat)
    | Preempt(t: nat)
    | Return(t: nat)
    | Decide(t: nat)
    | Decrement(t: nat)
    | Leave(t: nat)
    | AssertRelease(t: nat)
    | EnterRelease(t: nat)
    | Serve(t: nat)

  /** The locks a task holds on account of the semaphore calls it is in. */
  function Depth(p: Pc): nat {
    match p
    case Outside => 0
    case Asserted => 0
    case Suspending(_) => 2
    case Resuspending => 2
    case Waiting => 2
    case _ => 1
  }

  predicate Shaped(m: Machine) {
    |m.lock| == |m.pc| == |m.sem.tasks|
  }

  /** Task t runs, and is there. */
  predicate At(m: Machine, t: nat, p: Pc) {
    m.running == Some(t) && t < |m.pc| && m.pc[t] == p
  }

  /** Tasks on their way through semaphore_release. */
  ghost function Releasers(m: Machine): set<nat> {
    set t | 0 <= t < |m.pc| && (m.pc[t].Asserted? || m.pc[t].Serving?)
  }

  /** What may happen next. Only Expire and Dispatch need no running task: they are part of a switch. The lock count
      matters to Preempt alone. A task that releases does so for an obtain that nobody else releases. */
  ghost predicate CanHappen(m: Machine, e: Event)
    requires Shaped(m)
  {
    match e
    case Lock(t) => At(m, t, Outside)
    case Unlock(t) => At(m, t, Outside) && m.lock[t] > 0
    case Enter(t, _) => At(m, t, Outside)
    case Test(t) => m.running == Some(t) && t < |m.pc| && m.pc[t].Testing?
    case SwitchOut(t) => m.running == Some(t) && t < |m.pc| && (m.pc[t].Suspending? || m.pc[t].Resuspending?)
    case Expire(t) => m.running.None? && S.IsPhase(m.sem, t, Asleep) && m.sem.tasks[t].timed
    case Dispatch(t) => m.running.None? && t < |m.pc| && m.sem.tasks[t].phase != Asleep
    case Preempt(t) => m.running == Some(t) && t < |m.lock| && m.lock[t] == 0
    case Return(t) => At(m, t, Waiting)
    case Decide(t) => At(m, t, Returned)
    case Decrement(t) => At(m, t, Passed)
    case Leave(t) => At(m, t, Closing)
    case AssertRelease(t) => At(m, t, Outside) && |Releasers(m)| < m.sem.held
    case EnterRelease(t) => At(m, t, Asserted)
    case Serve(t) => At(m, t, Serving)
  }

  /** Task t goes on to p, with the lock count n. */
  function Goes(m: Machine, t: nat, p: Pc, n: nat): Machine
    requires Shaped(m) && t < |m.pc|
  {
    m.(pc := m.pc[t := p], lock := m.lock[t := n])
  }

  function Less(n: nat): nat {
    if n > 0 then n - 1 else 0
  }

  ghost function Do(m: Machine, e: Event): Machine
    requires Shaped(m) && CanHappen(m, e) && S.QueueInRange(m.sem)
    requires e.Decide? ==> m.sem.tasks[e.t].phase.Woken?
  {
    match e
    case Lock(t) => Goes(m, t, Outside, m.lock[t] + 1)
    case Unlock(t) => Goes(m, t, Outside, Less(m.lock[t]))
    case Enter(t, wait) => Goes(m, t, Testing(wait), m.lock[t] + 1)
    case Test(t) =>
      if m.sem.count > 0 then Goes(m, t, Passed, m.lock[t])
      else if m.pc[t].wait == S.NoWait then Goes(m, t, Closing, m.lock[t])
      else Goes(m, t, Suspending(m.pc[t].wait), m.lock[t] + 1)
    case SwitchOut(t) =>
      var timed := if m.pc[t].Suspending? then m.pc[t].wait == S.Ticks else m.sem.tasks[t].timed;
      Goes(m, t, Waiting, m.lock[t]).(running := None, sem := S.Enqueue(m.sem, t, timed))
    case Expire(t) => m.(sem := S.DoExpire(m.sem, t))
    case Dispatch(t) => m.(running := Some(t))
    case Preempt(t) => m.(running := None)
    case Return(t) => Goes(m, t, Returned, Less(m.lock[t]))
    case Decide(t) =>
      if m.sem.tasks[t].phase.winner.None? then Goes(m, t, Closing, m.lock[t]).(sem := S.DoRun(m.sem, t))
      else if m.sem.count == 0 then Goes(m, t, Resuspending, m.lock[t] + 1)
      else Goes(m, t, Passed, m.lock[t]).(sem := S.DoRun(m.sem, t).(inside := None))
    case Decrement(t) => Goes(m, t, Closing, m.lock[t]).(sem := S.DoTake(m.sem))
    case Leave(t) => Goes(m, t, Outside, Less(m.lock[t]))
    case AssertRelease(t) => Goes(m, t, Asserted, m.lock[t])
    case EnterRelease(t) => Goes(m, t, Serving, m.lock[t] + 1)
    case Serve(t) => Goes(m, t, Closing, m.lock[t]).(sem := S.DoRelease(m.sem))
  }

  /** What the source asserts: a lock is there to be given back, the count to be taken, and room for the released
      one. */
  ghost predicate AssertionsHold(m: Machine, e: Event)
    requires Shaped(m) && CanHappen(m, e)
  {
    match e
    case Unlock(t) => m.lock[t] > 0
    case Return(t) => m.lock[t] > 0
    case Leave(t) => m.lock[t] > 0
    case Decrement(_) => m.sem.count > 0
    case AssertRelease(_) => m.sem.count < m.sem.max
    case Serve(_) => m.sem.count < m.sem.max
    case _ => true
  }

  /** The semaphore as Semaphore sees it. */
  ghost function Abs(m: Machine): S.Sem {
    m.sem.(inside := if m.running.Some? && At(m, m.running.value, Passed) then m.running else None)
  }

  ghost predicate TaskInv(m: Machine, t: nat)
    requires Shaped(m) && t < |m.pc|
  {
    var p, phase := m.pc[t], m.sem.tasks[t].phase;
    && m.lock[t] >= Depth(p)
    && (m.running != Some(t) ==> p.Waiting? || ((p.Outside? || p.Asserted?) && m.lock[t] == 0))
    && match p
       case Waiting => phase.Woken? || (phase.Asleep? && m.running != Some(t))
       case Returned => phase.Woken?
       case Resuspending => phase == Woken(Some(0)) && m.sem.count == 0
       case Suspending(wait) => phase.Free? && m.sem.count == 0 && wait != S.NoWait
       case Passed => phase.Free? && m.sem.count > 0
       case _ => phase.Free?
  }

  ghost predicate MachineInv(m: Machine) {
    && Shaped(m) && m.sem.inside.None? && S.Balanced(Abs(m))
    && (m.running.Some? ==> m.running.value < |m.pc|)
    && (forall t :: 0 <= t < |m.pc| ==> TaskInv(m, t))
    && |Releasers(m)| <= m.sem.held
  }

  /** Between the test and the decrement of a task nothing else can happen. */
  lemma NobodyBetween(m: Machine, t: nat, e: Event)
    requires MachineInv(m) && t < |m.pc| && m.pc[t] == Passed && CanHappen(m, e)
    ensures e == Decrement(t)
  {
    assert TaskInv(m, t);
  }

  /** No task gets stuck in a call, and none is kept from calling: the running task always has a next event, and can
      be preempted whenever it holds no lock; when none runs, any task that does not sleep can be dispatched, and any
      sleeper with a time-out can expire. */
  lemma AlwaysGoesOn(m: Machine, t: nat)
    requires MachineInv(m) && t < |m.pc|
    ensures m.running == Some(t) ==>
              match m.pc[t]
              case Outside =>
                && CanHappen(m, Lock(t)) && (forall w :: CanHappen(m, Enter(t, w)))
                && (m.lock[t] > 0 ==> CanHappen(m, Unlock(t)))
                && (|Releasers(m)| < m.sem.held ==> CanHappen(m, AssertRelease(t)))
              case Testing(_) => CanHappen(m, Test(t))
              case Suspending(_) => CanHappen(m, Event.SwitchOut(t))
              case Waiting => CanHappen(m, Return(t))
              case Returned => CanHappen(m, Decide(t))
              case Resuspending => CanHappen(m, Event.SwitchOut(t))
              case Passed => CanHappen(m, Decrement(t))
              case Asserted => CanHappen(m, EnterRelease(t))
              case Serving => CanHappen(m, Serve(t))
              case Closing => CanHappen(m, Leave(t))
    ensures m.running == Some(t) && m.lock[t] == 0 ==> CanHappen(m, Preempt(t))
    ensures m.running == None && m.sem.tasks[t].phase != Asleep ==> CanHappen(m, Event.Dispatch(t))
    ensures m.running == None && m.sem.tasks[t].phase == Asleep && m.sem.tasks[t].timed ==> CanHappen(m, Expire(t))
  {
    hide S.Balanced, Abs, Releasers;
    assert TaskInv(m, t);
    hide MachineInv;
  }

  /** The step of Semaphore an event is, if it is one. */
  ghost function ActionOf(m: Machine, e: Event): Option<S.Action>
    requires Shaped(m) && CanHappen(m, e) && (e.Decide? ==> m.sem.tasks[e.t].phase.Woken?)
  {
    match e
    case Test(t) => if m.sem.count > 0 || m.pc[t].wait == S.NoWait then Some(S.Obtain(t, m.pc[t].wait)) else None
    case SwitchOut(t) => if m.pc[t].Suspending? then Some(S.Obtain(t, m.pc[t].wait)) else Some(S.Run(t))
    case Expire(t) => Some(S.Expire(t))
    case Decide(t) => if m.sem.tasks[t].phase.winner.None? || m.sem.count > 0 then Some(S.Run(t)) else None
    case Decrement(t) => Some(S.Take(t))
    case Serve(t) => Some(S.Release(t))
    case _ => None
  }

  lemma Ready(m: Machine, e: Event)
    requires MachineInv(m) && CanHappen(m, e)
    ensures S.QueueInRange(m.sem) && e.t < |m.pc| && TaskInv(m, e.t) && (e.Decide? ==> m.sem.tasks[e.t].phase.Woken?)
    ensures S.QueueInRange(Abs(m)) && S.Balanced(Abs(m)) && (m.running.None? ==> Abs(m).inside.None?)
    ensures m.sem.inside.None? && (m.pc[e.t].Asserted? || m.pc[e.t].Serving? ==> e.t in Releasers(m) && m.sem.held > 0)
  {
    assert e.t < |m.pc|;
    assert TaskInv(m, e.t);
    if m.pc[e.t].Asserted? || m.pc[e.t].Serving? {
      assert e.t in Releasers(m) && Releasers(m) != {};
    }
  }

  ghost predicate Refined(m: Machine, e: Event)
    requires MachineInv(m) && CanHappen(m, e)
  {
    Ready(m, e);
    match ActionOf(m, e)
    case None => Abs(Do(m, e)) == Abs(m)
    case Some(a) => S.MayHappen(Abs(m), a) && S.QueueInRange(Abs(m)) && Abs(Do(m, e)) == S.Apply(Abs(m), a)
  }

  /** Every event is a step of Semaphore, or changes nothing it sees. */
  lemma EventRefines(m: Machine, e: Event)
    requires MachineInv(m) && CanHappen(m, e)
    ensures Refined(m, e)
  {
    if e.SwitchOut? || e.Decide? {
      WaiterRefines(m, e);
    } else {
      OthersRefine(m, e);
    }
  }

  lemma WaiterRefines(m: Machine, e: Event)
    requires MachineInv(m) && CanHappen(m, e) && (e.SwitchOut? || e.Decide?)
    ensures Refined(m, e)
  {
    Ready(m, e);
    hide S.Balanced, S.QueueInRange, RemoveFirst, Releasers, AfterResume, Resumed, Selected, MachineInv;
    if e.SwitchOut? && m.pc[e.t].Resuspending? {
      assert S.Enqueue(m.sem, e.t, m.sem.tasks[e.t].timed).(inside := None) == S.DoRun(m.sem, e.t);
    }
  }

  lemma OthersRefine(m: Machine, e: Event)
    requires MachineInv(m) && CanHappen(m, e) && !e.SwitchOut? && !e.Decide?
    ensures Refined(m, e)
  {
    Ready(m, e);
    hide S.Balanced, S.QueueInRange, RemoveFirst, Releasers, AfterResume, Resumed, Selected, MachineInv;
    assert e.Serve? ==> Abs(m) == m.sem;
  }

  ghost function Next(m: Machine, e: Event): Machine
    requires MachineInv(m) && CanHappen(m, e)
  {
    Ready(m, e);
    Do(m, e)
  }

  /** No event but the running task's own moves its program counter or its lock count. */
  lemma OthersStay(m: Machine, e: Event, u: nat)
    requires MachineInv(m) && CanHappen(m, e) && u < |m.pc| && u != e.t
    ensures var r := Next(m, e);
            && Shaped(r) && |r.pc| == |m.pc| && r.pc[u] == m.pc[u] && r.lock[u] == m.lock[u] && r.sem.max == m.sem.max
            && (r.sem.tasks[u] == m.sem.tasks[u] || (m.sem.tasks[u].phase.Asleep? && r.sem.tasks[u].phase.Woken?))
  {
    hide S.Balanced, S.QueueInRange, RemoveFirst, Releasers, AfterResume, Selected;
    Ready(m, e);
    assert TaskInv(m, u);
  }

  lemma OtherRuns(m: Machine, e: Event)
    requires MachineInv(m) && CanHappen(m, e)
    ensures (m.running.None? || m.running == Some(e.t)) && (Next(m, e).running.None? || Next(m, e).running == Some(e.t))
  {
    hide S.Balanced, S.QueueInRange, Releasers, S.DoRelease, S.DoRun, S.DoExpire, S.Enqueue;
    Ready(m, e);
  }

  lemma OtherTaskInv(m: Machine, e: Event, u: nat)
    requires MachineInv(m) && CanHappen(m, e) && u < |m.pc| && u != e.t
    ensures var r := Next(m, e); Shaped(r) && |r.pc| == |m.pc| && TaskInv(r, u)
  {
    OthersStay(m, e, u);
    OtherRuns(m, e);
    var r := Next(m, e);
    assert TaskInv(m, u) && m.running != Some(u) && r.running != Some(u);
    assert m.pc[u].Waiting? || m.pc[u].Outside? || m.pc[u].Asserted?;
    assert r.pc[u] == m.pc[u] && r.lock[u] == m.lock[u];
    assert r.sem.tasks[u].phase.Woken? || r.sem.tasks[u] == m.sem.tasks[u];
    assert TaskInv(r, u);
  }

  /** Events that leave the semaphore alone. */
  predicate Quiet(e: Event) {
    !e.SwitchOut? && !e.Expire? && !e.Decide? && !e.Decrement? && !e.Serve?
  }

  lemma OwnTaskInv(m: Machine, e: Event)
    requires MachineInv(m) && CanHappen(m, e)
    ensures var r := Next(m, e); Shaped(r) && TaskInv(r, e.t)
  {
    if Quiet(e) {
      QuietTaskInv(m, e);
    } else if e.SwitchOut? || e.Decide? {
      WaiterTaskInv(m, e);
    } else {
      ServerTaskInv(m, e);
    }
  }

  lemma QuietTaskInv(m: Machine, e: Event)
    requires MachineInv(m) && CanHappen(m, e) && Quiet(e)
    ensures var r := Next(m, e); Shaped(r) && TaskInv(r, e.t)
  {
    Ready(m, e);
    hide MachineInv;
  }

  lemma WaiterTaskInv(m: Machine, e: Event)
    requires MachineInv(m) && CanHappen(m, e) && (e.SwitchOut? || e.Decide?)
    ensures var r := Next(m, e); Shaped(r) && TaskInv(r, e.t)
  {
    assert e.t < |m.pc| && S.PhaseOk(Abs(m).tasks[e.t]);
    Ready(m, e);
    hide MachineInv, S.Balanced, S.QueueInRange, RemoveFirst, Releasers, AfterResume, Selected, Resumed;
  }

  lemma ServerTaskInv(m: Machine, e: Event)
    requires MachineInv(m) && CanHappen(m, e) && (e.Expire? || e.Decrement? || e.Serve?)
    ensures var r := Next(m, e); Shaped(r) && TaskInv(r, e.t)
  {
    assert e.t < |m.pc| && S.PhaseOk(Abs(m).tasks[e.t]);
    Ready(m, e);
    hide MachineInv, S.Balanced, S.QueueInRange, RemoveFirst, Releasers, AfterResume, Selected;
  }

  lemma ReleasersStay(m: Machine, e: Event)
    requires MachineInv(m) && CanHappen(m, e)
    ensures |Releasers(Next(m, e))| <= Next(m, e).sem.held
  {
    Ready(m, e);
    var r := Next(m, e);
    hide S.Balanced, S.QueueInRange, S.DoRun, S.DoExpire, S.Enqueue, RemoveFirst, AfterResume, Resumed, Selected,
         TaskInv, MachineInv;
    match e {
      case AssertRelease(t) => assert Releasers(r) == Releasers(m) + {t};
      case Serve(t) => assert Releasers(r) == Releasers(m) - {t};
      case _ => assert Releasers(r) == Releasers(m) && r.sem.held >= m.sem.held;
    }
  }

  /** Every event keeps the invariant. */
  lemma EventKeepsInv(m: Machine, e: Event)
    requires MachineInv(m) && CanHappen(m, e)
    ensures MachineInv(Next(m, e))
  {
    Ready(m, e);
    var r := Next(m, e);
    EventRefines(m, e);
    if ActionOf(m, e).Some? {
      S.StepKeepsInv(Abs(m), ActionOf(m, e).value);
    }
    OwnTaskInv(m, e);
    forall u | 0 <= u < |r.pc|
      ensures TaskInv(r, u)
    {
      if u != e.t {
        OtherTaskInv(m, e, u);
      }
    }
    ReleasersStay(m, e);
    hide S.Balanced, Releasers, S.Apply;
  }

  /** The assertions of the source hold: the count a task has seen is still there when it takes it. */
  lemma NoAssertionFires(m: Machine, e: Event)
    requires MachineInv(m) && CanHappen(m, e)
    ensures AssertionsHold(m, e)
  {
    Ready(m, e);
  }

  ghost predicate Start(m: Machine) {
    && Shaped(m) && S.Initial(m.sem) && m.running.None?
    && forall t :: 0 <= t < |m.pc| ==> m.pc[t] == Outside && m.lock[t] == 0
  }

  lemma StartInv(m: Machine)
    requires Start(m)
    ensures MachineInv(m) && Abs(m) == m.sem
  {
    S.InitInv(m.sem);
    assert Releasers(m) == {};
  }

  ghost predicate MachineRun(trace: seq<Machine>, events: seq<Event>) {
    && |trace| == |events| + 1 && Start(trace[0])
    && forall i :: 0 <= i < |events| ==> Moves(trace[i], events[i], trace[i + 1])
  }

  /** The conditions beside CanHappen hold whenever the invariant does (Ready). */
  ghost predicate Moves(m: Machine, e: Event, r: Machine) {
    && Shaped(m) && CanHappen(m, e) && S.QueueInRange(m.sem) && (e.Decide? ==> m.sem.tasks[e.t].phase.Woken?)
    && r == Do(m, e)
  }

  /** In every run, however tasks are preempted, the invariant holds and no assertion fires. */
  lemma {:induction false} RunsAreSafe(trace: seq<Machine>, events: seq<Event>, i: nat)
    requires MachineRun(trace, events) && i < |trace|
    ensures MachineInv(trace[i])
    ensures i < |events| ==> CanHappen(trace[i], events[i]) && AssertionsHold(trace[i], events[i])
  {
    hide MachineInv, CanHappen, Do, AssertionsHold, Start;
    if i == 0 {
      StartInv(trace[0]);
    } else {
      RunsAreSafe(trace, events, i - 1);
      assert Moves(trace[i - 1], events[i - 1], trace[i]);
      EventKeepsInv(trace[i - 1], events[i - 1]);
    }
    if i < |events| {
      assert Moves(trace[i], events[i], trace[i + 1]);
      NoAssertionFires(trace[i], events[i]);
    }
  }

  /** Nobody who is obtaining the semaphore waits with a time-out. */
  ghost predicate NoTicks(m: Machine) {
    forall t :: 0 <= t < |m.pc| ==> m.pc[t] != Testing(S.Ticks) && m.pc[t] != Suspending(S.Ticks)
  }

  ghost predicate NeverTicks(events: seq<Event>) {
    forall i :: 0 <= i < |events| && events[i].Enter? ==> events[i].wait != S.Ticks
  }

  lemma {:induction false} NoTicksEver(trace: seq<Machine>, events: seq<Event>, i: nat)
    requires MachineRun(trace, events) && i < |trace| && NeverTicks(events)
    ensures NoTicks(trace[i])
  {
    if i > 0 {
      NoTicksEver(trace, events, i - 1);
      assert Moves(trace[i - 1], events[i - 1], trace[i]);
    }
  }

  ghost predicate NoTicksObtained(actions: seq<S.Action>) {
    forall j :: 0 <= j < |actions| && actions[j].Obtain? ==> actions[j].wait != S.Ticks
  }

  /** A run as Semaphore sees it: the events that are steps there, and the states between them. */
  lemma {:induction false} RunIsHistory(trace: seq<Machine>, events: seq<Event>, i: nat)
    returns (seen: seq<S.Sem>, actions: seq<S.Action>)
    requires MachineRun(trace, events) && i < |trace|
    ensures S.History(seen, actions) && seen[|actions|] == Abs(trace[i])
    ensures NeverTicks(events) ==> NoTicksObtained(actions)
  {
    hide MachineInv, CanHappen, Do, Abs, Start, S.History, Shaped, NoTicks, NeverTicks, AssertionsHold;
    if i == 0 {
      seen, actions := AtStart(trace[0]);
    } else {
      seen, actions := RunIsHistory(trace, events, i - 1);
      RunsAreSafe(trace, events, i - 1);
      if NeverTicks(events) {
        NoTicksEver(trace, events, i - 1);
      }
      assert Moves(trace[i - 1], events[i - 1], trace[i]);
      seen, actions := OneMoreEvent(seen, actions, trace[i - 1], events[i - 1], NeverTicks(events));
    }
  }

  lemma AtStart(m: Machine) returns (seen: seq<S.Sem>, actions: seq<S.Action>)
    requires Start(m)
    ensures S.History(seen, actions) && |actions| == 0 && seen[0] == Abs(m)
  {
    StartInv(m);
    seen, actions := [m.sem], [];
  }

  lemma OneMoreEvent(seen0: seq<S.Sem>, actions0: seq<S.Action>, m: Machine, e: Event, noTicks: bool)
    returns (seen: seq<S.Sem>, actions: seq<S.Action>)
    requires MachineInv(m) && CanHappen(m, e) && S.History(seen0, actions0) && seen0[|actions0|] == Abs(m)
    requires noTicks ==> NoTicks(m) && NoTicksObtained(actions0)
    ensures S.History(seen, actions) && seen[|actions|] == Abs(Next(m, e))
    ensures noTicks ==> NoTicksObtained(actions)
  {
    EventRefines(m, e);
    Ready(m, e);
    var a := ActionOf(m, e);
    seen, actions := seen0, actions0;
    if a.Some? {
      hide MachineInv, CanHappen, Do, S.Apply, S.MayHappen, S.Initial, Abs;
      assert S.Happens(Abs(m), a.value, Abs(Next(m, e)));
      seen, actions := seen0 + [Abs(Next(m, e))], actions0 + [a.value];
    }
  }

  /** When every waiter uses MAX_WAIT no wake-up is lost in any run, however tasks are preempted. */
  lemma MaxWaitNeverLoses(trace: seq<Machine>, events: seq<Event>, i: nat)
    requires MachineRun(trace, events) && i < |trace| && NeverTicks(events)
    ensures !S.Lost(Abs(trace[i]))
  {
    var seen, actions := RunIsHistory(trace, events, i);
    S.MaxWaitNeverLoses(seen, actions, |actions|);
  }
}
