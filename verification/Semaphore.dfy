/** Counting semaphores on top of the wait protocol: conservation of the count, and when a wake-up is lost. */
module Semaphore {
  import opened Wait
  import opened Words

  /** One semaphore and its users. tasks holds the wait state of each task; held says how often the semaphore has been
      obtained and not been released yet, by whichever task; inside is the task that has passed its test but not yet
      taken the count. That nobody acts while there is one is what module Exclusion derives from the scheduler lock. */
  datatype Sem = Sem(count: nat, max: nat, queue: seq<nat>, tasks: seq<Task>, held: nat, inside: Option<nat>)

  datatype Patience = NoWait | Ticks | Forever

  datatype Action =
    | Obtain(t: nat, wait: Patience)
    | Take(t: nat)
    | Release(t: nat)
    | Expire(t: nat)
    | Run(t: nat)

  ghost predicate IsPhase(s: Sem, t: nat, p: Phase) {
    t < |s.tasks| && s.tasks[t].phase == p
  }

  ghost predicate MayHappen(s: Sem, a: Action) {
    match a
    case Obtain(t, _) => s.inside.None? && IsPhase(s, t, Free)
    case Take(t) => s.inside == Some(t)
    case Release(t) => s.inside.None? && IsPhase(s, t, Free) && s.held > 0
    case Expire(t) => s.inside.None? && IsPhase(s, t, Asleep) && s.tasks[t].timed
    case Run(t) => s.inside.None? && t < |s.tasks| && s.tasks[t].phase.Woken?
  }

  /** The task goes (back) to sleep at the end of the queue. */
  ghost function Enqueue(s: Sem, t: nat, timed: bool): Sem
    requires t < |s.tasks|
  {
    s.(queue := s.queue + [t],
       tasks := s.tasks[t := s.tasks[t].(phase := Asleep, conds := [0], timed := timed,
                                         suspensions := s.tasks[t].suspensions + 1)])
  }

  ghost function DoObtain(s: Sem, t: nat, wait: Patience): Sem
    requires t < |s.tasks|
  {
    if s.count > 0 then s.(inside := Some(t))
    else if wait == NoWait then s
    else Enqueue(s, t, wait == Ticks)
  }

  ghost function DoTake(s: Sem): Sem {
    s.(count := if s.count > 0 then s.count - 1 else 0, held := s.held + 1, inside := None)
  }

  /** The entries a release selects. */
  function Chosen(s: Sem): (r: seq<bool>)
    ensures |r| == |s.queue|
  {
    Selected(|s.queue|, Some(s.count + 1))
  }

  ghost predicate QueueInRange(s: Sem) {
    forall i :: 0 <= i < |s.queue| ==> s.queue[i] < |s.tasks|
  }

  /** semaphore_release: as many entries as there are counts are taken off the queue;
      those whose task is not suspended are put back. */
  ghost function DoRelease(s: Sem): Sem
    requires QueueInRange(s)
  {
    s.(count := s.count + 1,
       held := if s.held > 0 then s.held - 1 else 0,
       queue := AfterResume(s.tasks, s.queue, Chosen(s), 0),
       tasks := seq(|s.tasks|, u requires 0 <= u < |s.tasks| =>
                      if Resumed(s.tasks, s.queue, Chosen(s), 0, u) then WokenBy(s.tasks[u], Some(0)) else s.tasks[u]))
  }

  ghost function DoExpire(s: Sem, t: nat): Sem
    requires t < |s.tasks|
  {
    s.(tasks := s.tasks[t := WokenBy(s.tasks[t], None)])
  }

  /** What a resumed task does before anybody else can run: it gives up, goes back to sleep, or is let in. */
  ghost function DoRun(s: Sem, t: nat): Sem
    requires t < |s.tasks| && s.tasks[t].phase.Woken?
  {
    var k := s.tasks[t];
    if k.phase.winner.None? then s.(queue := RemoveFirst(s.queue, t), tasks := s.tasks[t := k.(phase := Free)])
    else if s.count == 0 then Enqueue(s, t, k.timed)
    else s.(tasks := s.tasks[t := k.(phase := Free)], inside := Some(t))
  }

  ghost function Apply(s: Sem, a: Action): Sem
    requires MayHappen(s, a) && QueueInRange(s)
  {
    match a
    case Obtain(t, wait) => DoObtain(s, t, wait)
    case Take(t) => DoTake(s)
    case Release(t) => DoRelease(s)
    case Expire(t) => DoExpire(s, t)
    case Run(t) => DoRun(s, t)
  }

  /** The assertions of the source: the count is there when it is taken, and no release is one too many. */
  ghost predicate AssertionsHold(s: Sem, a: Action) {
    match a
    case Take(_) => s.count > 0
    case Release(_) => s.count < s.max
    case _ => true
  }

  predicate Queued(k: Task) {
    k.phase.Asleep? || k.phase == Woken(None)
  }

  predicate PhaseOk(k: Task) {
    && (k.phase.Free? || k.phase.Asleep? || k.phase == Woken(Some(0)) || (k.phase == Woken(None) && k.timed))
    && (k.conds == [0] || (k.phase.Free? && k.conds == [])) && k.outer == []
    && k.suspensions == k.wakeups + if k.phase.Asleep? then 1 else 0
  }

  ghost predicate QueueOk(s: Sem) {
    NoDup(s.queue) && forall t: nat :: t in s.queue <==> t < |s.tasks| && Queued(s.tasks[t])
  }

  /** No count is lost or made up: what is not free is held. */
  ghost predicate Balanced(s: Sem) {
    && s.count + s.held == s.max
    && QueueInRange(s) && QueueOk(s) && (forall t :: 0 <= t < |s.tasks| ==> PhaseOk(s.tasks[t]))
    && (s.inside.Some? ==> s.count > 0 && s.inside.value < |s.tasks|)
  }

  ghost predicate Initial(s: Sem) {
    && s.count == s.max && s.queue == [] && s.inside == None && s.held == 0
    && forall t :: 0 <= t < |s.tasks| ==> s.tasks[t] == Task(Free, [], false, [], 0, 0)
  }

  lemma InitInv(s: Sem)
    requires Initial(s)
    ensures Balanced(s)
  {
  }

  lemma InRange(s: Sem)
    requires QueueOk(s)
    ensures QueueInRange(s)
  {
    assert forall i :: 0 <= i < |s.queue| ==> s.queue[i] in s.queue;
  }

  lemma EnqueueKeepsInv(s: Sem, t: nat, timed: bool)
    requires Balanced(s) && t < |s.tasks| && !Queued(s.tasks[t])
    ensures Balanced(Enqueue(s, t, timed))
  {
  }

  lemma ReleaseKeepsInv(s: Sem, t: nat)
    requires Balanced(s) && MayHappen(s, Release(t))
    ensures Balanced(DoRelease(s))
  {
    hide NoDup, AfterResume, Selected;
    AfterResumeWhich(s.tasks, s.queue, Chosen(s), 0);
    assert QueueOk(DoRelease(s));
    InRange(DoRelease(s));
  }

  lemma RunKeepsInv(s: Sem, t: nat)
    requires Balanced(s) && MayHappen(s, Run(t))
    ensures Balanced(DoRun(s, t))
  {
    hide NoDup, RemoveFirst, Enqueue;
    RemovedFirst(s.queue, t);
    if s.tasks[t].phase.winner.Some? && s.count == 0 {
      EnqueueKeepsInv(s, t, s.tasks[t].timed);
    } else {
      assert QueueOk(DoRun(s, t));
      InRange(DoRun(s, t));
    }
  }

  /** In every interleaving of obtain, wake-up, time-out and release, count plus outstanding holds stays the maximum. */
  lemma StepKeepsInv(s: Sem, a: Action)
    requires Balanced(s) && MayHappen(s, a)
    ensures Balanced(Apply(s, a))
  {
    hide NoDup, DoRelease, DoRun, Enqueue;
    match a
    case Obtain(t, wait) =>
      if s.count == 0 && wait != NoWait {
        EnqueueKeepsInv(s, t, wait == Ticks);
      }
    case Take(t) =>
    case Release(t) => ReleaseKeepsInv(s, t);
    case Expire(t) =>
    case Run(t) => RunKeepsInv(s, t);
  }

  lemma NoAssertionFires(s: Sem, a: Action)
    requires Balanced(s) && MayHappen(s, a)
    ensures AssertionsHold(s, a)
  {
  }

  /** The assertion against double release holds exactly when the semaphore has been obtained more often than
      released. */
  lemma ReleaseAssertion(s: Sem)
    requires Balanced(s)
    ensures s.count < s.max <==> s.held > 0
  {
  }

  /** What each task may do next: while one has passed its test, that one takes the count; otherwise every task that
      is not waiting may obtain or, while somebody holds the semaphore, release, and every waiter that is woken goes
      on, and every sleeper with a timeout may expire. */
  lemma MayGoOn(s: Sem, t: nat)
    requires Balanced(s) && t < |s.tasks|
    ensures s.inside == Some(t) ==> MayHappen(s, Take(t))
    ensures s.inside == None ==>
              && (s.tasks[t].phase.Free? ==>
                    (forall w :: MayHappen(s, Obtain(t, w))) && (s.held > 0 ==> MayHappen(s, Release(t))))
              && (s.tasks[t].phase.Woken? ==> MayHappen(s, Run(t)))
              && (s.tasks[t].phase.Asleep? && s.tasks[t].timed ==> MayHappen(s, Expire(t)))
    ensures s.tasks[t].phase.Free? || s.tasks[t].phase.Woken? || s.tasks[t].phase.Asleep?
  {
    assert PhaseOk(s.tasks[t]);
  }

  ghost predicate History(trace: seq<Sem>, steps: seq<Action>) {
    && |trace| == |steps| + 1 && Initial(trace[0])
    && forall i :: 0 <= i < |steps| ==> Happens(trace[i], steps[i], trace[i + 1])
  }

  ghost predicate Happens(s: Sem, a: Action, r: Sem) {
    MayHappen(s, a) && QueueInRange(s) && r == Apply(s, a)
  }

  lemma {:induction false} RunsAreSafe(trace: seq<Sem>, steps: seq<Action>, i: nat)
    requires History(trace, steps) && i < |trace|
    ensures Balanced(trace[i]) && trace[i].count + trace[i].held == trace[i].max
    ensures i < |steps| ==> AssertionsHold(trace[i], steps[i])
  {
    if i == 0 {
      InitInv(trace[0]);
    } else {
      RunsAreSafe(trace, steps, i - 1);
      hide Balanced, Apply, MayHappen;
      assert Happens(trace[i - 1], steps[i - 1], trace[i]);
      StepKeepsInv(trace[i - 1], steps[i - 1]);
    }
    if i < |steps| {
      hide Balanced, Apply;
      assert Happens(trace[i], steps[i], trace[i + 1]);
      NoAssertionFires(trace[i], steps[i]);
    }
  }

  // ---------------------------------------------------------------- lost wake-ups

  /** The tasks that have been resumed by a release and have not run yet. */
  ghost function Resumers(s: Sem): set<nat> {
    set t | 0 <= t < |s.tasks| && s.tasks[t].phase == Woken(Some(0))
  }

  ghost predicate SleeperAt(s: Sem, i: nat) {
    i < |s.queue| && s.queue[i] < |s.tasks| && s.tasks[s.queue[i]].phase.Asleep?
  }

  /** A wake-up is lost: somebody sleeps in the queue while more counts are free than tasks are on their way to take
      them. */
  ghost predicate Lost(s: Sem) {
    (exists i: nat :: SleeperAt(s, i)) && |Resumers(s)| + (if s.inside.Some? then 1 else 0) < s.count
  }

  /** The release spends so much of its budget on waiters whose time-out has already come (but which have not run yet)
      that the sleepers behind them are not reached, and not enough tasks are on their way already. */
  ghost predicate Spoiled(s: Sem)
    requires QueueInRange(s)
  {
    var n := s.count + 1;
    && (exists i: nat :: n <= i && SleeperAt(s, i))
    && |Resumers(s)| < |NotWoken(s.tasks, s.queue[..n], 0)|
  }

  lemma {:induction false} NotWokenIs(tasks: seq<Task>, list: seq<nat>)
    requires NoDup(list) && forall i :: 0 <= i < |list| ==> list[i] < |tasks|
    ensures |NotWoken(tasks, list, 0)| + |SuspendedIn(tasks, list)| == |list|
  {
    if list == [] {
      assert SuspendedIn(tasks, list) == {};
    } else {
      var x, rest := list[0], list[1..];
      assert list == [x] + rest;
      NotWokenIs(tasks, rest);
      assert x !in SuspendedIn(tasks, rest);
      assert SuspendedIn(tasks, list) ==
               if WaitsOn(tasks[x], 0) then SuspendedIn(tasks, rest) + {x} else SuspendedIn(tasks, rest);
    }
  }

  ghost function SuspendedIn(tasks: seq<Task>, list: seq<nat>): set<nat> {
    set t | t in list && t < |tasks| && WaitsOn(tasks[t], 0)
  }

  /** What a release does to the phase of each task. */
  lemma ReleasePhase(s: Sem, t: nat, u: nat)
    requires Balanced(s) && MayHappen(s, Release(t)) && u < |s.tasks|
    ensures |DoRelease(s).tasks| == |s.tasks|
    ensures DoRelease(s).tasks[u].phase ==
              if u in SuspendedIn(s.tasks, s.queue[..Reach(s)]) then Woken(Some(0)) else s.tasks[u].phase
  {
    ResumedOfBudget(s.tasks, s.queue, Some(s.count + 1), 0, Reach(s));
    hide Resumed, AfterResume, Selected;
    assert u in s.queue[..Reach(s)] || u !in s.queue[..Reach(s)];
  }

  /** A release serves the first count + 1 of the queue: the sleepers among them are resumed, and the others, whose
      time-out has come, are put back in front. */
  lemma ReleaseServes(s: Sem, t: nat)
    requires Balanced(s) && MayHappen(s, Release(t))
    ensures var n := if s.count + 1 > |s.queue| then |s.queue| else s.count + 1;
            && DoRelease(s).queue == NotWoken(s.tasks, s.queue[..n], 0) + s.queue[n..]
            && |DoRelease(s).tasks| == |s.tasks|
            && forall u :: 0 <= u < |s.tasks| ==>
                 DoRelease(s).tasks[u].phase == if s.tasks[u].phase.Asleep? && u in s.queue[..n] then Woken(Some(0))
                                                else s.tasks[u].phase
  {
    KeptOfBudget(s.tasks, s.queue, Chosen(s), 0, Reach(s));
    forall u | 0 <= u < |s.tasks|
      ensures |DoRelease(s).tasks| == |s.tasks|
      ensures DoRelease(s).tasks[u].phase == if s.tasks[u].phase.Asleep? && u in s.queue[..Reach(s)]
                                             then Woken(Some(0)) else s.tasks[u].phase
    {
      ReleasePhase(s, t, u);
      assert PhaseOk(s.tasks[u]);
    }
  }

  lemma ResumersGain(s: Sem, t: nat)
    requires Balanced(s) && MayHappen(s, Release(t))
    ensures Resumers(DoRelease(s)) == Resumers(s) + SuspendedIn(s.tasks, s.queue[..Reach(s)])
    ensures Resumers(s) !! SuspendedIn(s.tasks, s.queue[..Reach(s)])
  {
    var gain, r := SuspendedIn(s.tasks, s.queue[..Reach(s)]), DoRelease(s);
    forall u: nat | u < |s.tasks|
      ensures u in Resumers(r) <==> u in Resumers(s) || u in gain
    {
      ReleasePhase(s, t, u);
      hide DoRelease, Balanced;
    }
    assert |r.tasks| == |s.tasks|;
    hide DoRelease, Balanced, MayHappen;
  }

  /** The tasks resumed after a release: those there were, and the suspended ones among the first count + 1 of the
      queue. */
  lemma ResumersAfterRelease(s: Sem, t: nat)
    requires Balanced(s) && MayHappen(s, Release(t))
    ensures var n := Reach(s);
            |Resumers(DoRelease(s))| == |Resumers(s)| + n - |NotWoken(s.tasks, s.queue[..n], 0)|
  {
    var first := s.queue[..Reach(s)];
    NotWokenIs(s.tasks, first);
    hide Resumers, SuspendedIn, DoRelease, NotWoken;
    ResumersGain(s, t);
  }

  /** How many entries a release takes off the queue. */
  function Reach(s: Sem): (n: nat)
    ensures n <= |s.queue|
  {
    if s.count + 1 > |s.queue| then |s.queue| else s.count + 1
  }

  /** Somebody sleeps in the queue exactly when some task sleeps. */
  lemma SleepersQueue(s: Sem)
    requires QueueOk(s)
    ensures (exists i: nat :: SleeperAt(s, i)) <==> exists t: nat :: IsPhase(s, t, Asleep)
  {
    if i: nat :| SleeperAt(s, i) {
      assert IsPhase(s, s.queue[i], Asleep);
    }
    if t: nat :| IsPhase(s, t, Asleep) {
      assert t in s.queue;
      var i: nat :| i < |s.queue| && s.queue[i] == t;
      assert SleeperAt(s, i);
    }
  }

  lemma PrefixHas(q: seq<nat>, n: nat)
    requires n <= |q|
    ensures forall i :: 0 <= i < n ==> q[i] in q[..n]
  {
    assert forall i :: 0 <= i < n ==> q[..n][i] == q[i];
  }

  lemma SleepersAfterRelease(s: Sem, t: nat)
    requires Balanced(s) && MayHappen(s, Release(t))
    ensures (exists i: nat :: SleeperAt(DoRelease(s), i)) <==> exists i: nat :: s.count + 1 <= i && SleeperAt(s, i)
  {
    var n := Reach(s);
    var r := DoRelease(s);
    ReleaseKeepsInv(s, t);
    SleepersQueue(r);
    ResumedOfBudget(s.tasks, s.queue, Some(s.count + 1), 0, n);
    hide Resumed, AfterResume, Selected;
    if u: nat :| IsPhase(r, u, Asleep) {
      assert u in s.queue && u !in s.queue[..n];
      var i: nat :| i < |s.queue| && s.queue[i] == u;
      PrefixHas(s.queue, n);
      assert SleeperAt(s, i);
    }
    if i: nat :| s.count + 1 <= i && SleeperAt(s, i) {
      assert s.queue[i] !in s.queue[..n];
      assert IsPhase(r, s.queue[i], Asleep);
    }
  }

  /** A release loses a wake-up exactly when it is spoiled by expired waiters at the head of the queue. */
  lemma ReleaseLoses(s: Sem, t: nat)
    requires Balanced(s) && MayHappen(s, Release(t))
    ensures Lost(DoRelease(s)) <==> Spoiled(s)
  {
    SleepersAfterRelease(s, t);
    ResumersAfterRelease(s, t);
    hide Resumers, DoRelease, Balanced, NotWoken;
    ReleaseCounts(s, t);
  }

  lemma ReleaseCounts(s: Sem, t: nat)
    requires MayHappen(s, Release(t)) && QueueInRange(s)
    ensures DoRelease(s).count == s.count + 1 && DoRelease(s).inside.None?
  {
  }

  lemma WokenTaskLeaves(s: Sem, r: Sem, t: nat)
    requires t < |s.tasks| == |r.tasks| && t in Resumers(s) && r.tasks[t].phase != Woken(Some(0))
    requires forall u :: 0 <= u < |s.tasks| && u != t ==> r.tasks[u] == s.tasks[u]
    ensures |Resumers(r)| == |Resumers(s)| - 1
  {
    assert Resumers(r) == Resumers(s) - {t};
  }

  lemma SameResumers(s: Sem, r: Sem, t: nat)
    requires |s.tasks| == |r.tasks| && forall u :: 0 <= u < |s.tasks| && u != t ==> r.tasks[u] == s.tasks[u]
    requires t < |s.tasks| ==> (r.tasks[t].phase == Woken(Some(0)) <==> s.tasks[t].phase == Woken(Some(0)))
    ensures Resumers(r) == Resumers(s)
  {
  }

  /** Counts less those on their way to take them. */
  ghost function Surplus(s: Sem): int {
    s.count - |Resumers(s)| - if s.inside.Some? then 1 else 0
  }

  lemma StillNotLost(s: Sem, r: Sem)
    requires QueueOk(s) && QueueOk(r) && !Lost(s) && Surplus(r) <= Surplus(s)
    requires forall u: nat :: IsPhase(r, u, Asleep) ==> IsPhase(s, u, Asleep)
    ensures !Lost(r)
  {
    SleepersQueue(s);
    SleepersQueue(r);
  }

  lemma ObtainDoesNotLose(s: Sem, t: nat, wait: Patience)
    requires Balanced(s) && MayHappen(s, Obtain(t, wait)) && !Lost(s) && QueueOk(DoObtain(s, t, wait))
    ensures !Lost(DoObtain(s, t, wait))
  {
    hide Resumers, NoDup, QueueOk;
    if s.count > 0 || wait == NoWait {
      SameResumers(s, DoObtain(s, t, wait), t);
      StillNotLost(s, DoObtain(s, t, wait));
    }
  }

  lemma RunDoesNotLose(s: Sem, t: nat)
    requires Balanced(s) && MayHappen(s, Run(t)) && !Lost(s) && QueueOk(DoRun(s, t))
    ensures !Lost(DoRun(s, t))
  {
    var r := DoRun(s, t);
    hide Resumers, NoDup, QueueOk, RemoveFirst, SleeperAt;
    if s.tasks[t].phase.winner.None? {
      SameResumers(s, r, t);
      StillNotLost(s, r);
    } else if s.count > 0 {
      IsResumer(s, t);
      WokenTaskLeaves(s, r, t);
      StillNotLost(s, r);
    }
  }

  /** No other step loses a wake-up. */
  lemma OnlyReleaseLoses(s: Sem, a: Action)
    requires Balanced(s) && MayHappen(s, a) && !a.Release? && !Lost(s)
    ensures !Lost(Apply(s, a))
  {
    var r := Apply(s, a);
    StepKeepsInv(s, a);
    hide Resumers, NoDup, DoRelease, DoObtain, DoRun, SleeperAt, QueueOk, Lost;
    match a
    case Obtain(t, wait) => ObtainDoesNotLose(s, t, wait);
    case Take(t) =>
      SameResumers(s, r, t);
      StillNotLost(s, r);
    case Expire(t) =>
      SameResumers(s, r, t);
      StillNotLost(s, r);
    case Run(t) => RunDoesNotLose(s, t);
  }

  lemma IsResumer(s: Sem, t: nat)
    requires t < |s.tasks| && PhaseOk(s.tasks[t]) && s.tasks[t].phase.Woken? && s.tasks[t].phase.winner.Some?
    ensures t in Resumers(s)
  {
  }

  /** In a run no release of which is spoiled, no wake-up is ever lost. */
  lemma {:induction false} UnspoiledNeverLoses(trace: seq<Sem>, steps: seq<Action>, i: nat)
    requires History(trace, steps) && i < |trace|
    requires forall j :: 0 <= j < i && steps[j].Release? ==> QueueInRange(trace[j]) ==> !Spoiled(trace[j])
    ensures !Lost(trace[i])
  {
    if i > 0 {
      UnspoiledNeverLoses(trace, steps, i - 1);
      RunsAreSafe(trace, steps, i - 1);
      var s, a := trace[i - 1], steps[i - 1];
      assert Happens(s, a, trace[i]);
      hide Lost, Spoiled, Balanced, MayHappen;
      if a.Release? {
        hide DoRelease;
        ReleaseLoses(s, a.t);
      } else {
        hide Apply;
        OnlyReleaseLoses(s, a);
      }
    }
  }

  /** No task waits with a time-out. */
  ghost predicate NoneTimed(s: Sem) {
    forall t :: 0 <= t < |s.tasks| ==> !s.tasks[t].timed
  }

  lemma StepKeepsUntimed(s: Sem, a: Action)
    requires Balanced(s) && MayHappen(s, a) && NoneTimed(s) && (a.Obtain? ==> a.wait != Ticks)
    ensures NoneTimed(Apply(s, a))
  {
    hide AfterResume, NoDup, QueueOk;
  }

  lemma {:induction false} UntimedRun(trace: seq<Sem>, steps: seq<Action>, i: nat)
    requires History(trace, steps) && i < |trace|
    requires forall j :: 0 <= j < |steps| && steps[j].Obtain? ==> steps[j].wait != Ticks
    ensures NoneTimed(trace[i])
  {
    hide Balanced, Apply, MayHappen;
    if i > 0 {
      hide NoneTimed;
      var s, a := trace[i - 1], steps[i - 1];
      assert Happens(s, a, trace[i]);
      UntimedRun(trace, steps, i - 1);
      RunsAreSafe(trace, steps, i - 1);
      hide History;
      StepKeepsUntimed(s, a);
    }
  }

  lemma {:induction false} AllSuspended(tasks: seq<Task>, list: seq<nat>)
    requires forall i :: 0 <= i < |list| ==> list[i] < |tasks| && WaitsOn(tasks[list[i]], 0)
    ensures NotWoken(tasks, list, 0) == []
  {
    if list != [] {
      AllSuspended(tasks, list[1..]);
    }
  }

  lemma UntimedIsUnspoiled(s: Sem)
    requires Balanced(s) && NoneTimed(s)
    ensures !Spoiled(s)
  {
    if s.count + 1 <= |s.queue| {
      forall i | 0 <= i < s.count + 1
        ensures WaitsOn(s.tasks[s.queue[i]], 0)
      {
        assert s.queue[i] in s.queue;
      }
      AllSuspended(s.tasks, s.queue[..s.count + 1]);
    }
  }

  /** When every task waits for ever, no wake-up is lost in any run: if somebody sleeps in the queue,
      at least as many tasks are on their way as there are counts. */
  lemma MaxWaitNeverLoses(trace: seq<Sem>, steps: seq<Action>, i: nat)
    requires History(trace, steps) && i < |trace|
    requires forall j :: 0 <= j < |steps| && steps[j].Obtain? ==> steps[j].wait != Ticks
    ensures !Lost(trace[i])
  {
    forall j | 0 <= j < i && steps[j].Release? && QueueInRange(trace[j])
      ensures !Spoiled(trace[j])
    {
      RunsAreSafe(trace, steps, j);
      UntimedRun(trace, steps, j);
      UntimedIsUnspoiled(trace[j]);
    }
    UnspoiledNeverLoses(trace, steps, i);
  }

  // ---------------------------------------------------------------- a run that loses one

  function Waiting(p: Phase, timed: bool, suspensions: nat, wakeups: nat): Task {
    Task(p, [0], timed, [], suspensions, wakeups)
  }

  const NEVER_WAITED := Task(Free, [], false, [], 0, 0)

  /** A mutex and three tasks: task 0 holds it; task 1, with a time-out, and then task 2, without one, queue up;
      the time-out of task 1 comes, and before task 1 has run task 0 releases. */
  function LosingRun(): (r: (seq<Sem>, seq<Action>)) {
    var f := NEVER_WAITED;
    var t1, t2 := Waiting(Asleep, true, 1, 0), Waiting(Asleep, false, 1, 0);
    var e1 := Waiting(Woken(None), true, 1, 1);
    ([Sem(1, 1, [], [f, f, f], 0, None),
      Sem(1, 1, [], [f, f, f], 0, Some(0)),
      Sem(0, 1, [], [f, f, f], 1, None),
      Sem(0, 1, [1], [f, t1, f], 1, None),
      Sem(0, 1, [1, 2], [f, t1, t2], 1, None),
      Sem(0, 1, [1, 2], [f, e1, t2], 1, None),
      Sem(1, 1, [1, 2], [f, e1, t2], 0, None),
      Sem(1, 1, [2], [f, Waiting(Free, true, 1, 1), t2], 0, None)],
     [Obtain(0, Forever), Take(0), Obtain(1, Ticks), Obtain(2, Forever), Expire(1), Release(0), Run(1)])
  }

  /** Nobody is on the way, nobody holds the semaphore, and the only task that waits sleeps without a time-out:
      until some task obtains the semaphore anew, nothing can happen. */
  ghost predicate Stuck(s: Sem) {
    Lost(s) && s.count == s.max && forall a :: MayHappen(s, a) ==> a.Obtain?
  }

  /** Task 1 uses up the budget of one, and is put back. */
  lemma LosingRelease()
    ensures var trace := LosingRun().0;
            QueueInRange(trace[5]) && DoRelease(trace[5]) == trace[6]
  {
    var s := LosingRun().0[5];
    hide LosingRun;
    assert s.queue[..1] == [1] && s.queue[1..] == [2];
    KeptOfBudget(s.tasks, s.queue, Chosen(s), 0, 1);
    assert NotWoken(s.tasks, [1], 0) == [1] by {
      assert ([1])[1..] == [];
    }
    hide NotWoken, Kept;
    ResumedOfBudget(s.tasks, s.queue, Some(s.count + 1), 0, 1);
    hide Resumed;
    assert DoRelease(s).tasks == s.tasks;
  }

  lemma LosingStep(i: nat)
    requires i < 7 && i != 5
    ensures var trace, steps := LosingRun().0, LosingRun().1;
            MayHappen(trace[i], steps[i]) && QueueInRange(trace[i]) && Apply(trace[i], steps[i]) == trace[i + 1]
  {
    hide DoRelease;
    var trace, steps := LosingRun().0, LosingRun().1;
    var r := Apply(trace[i], steps[i]);
    assert r.tasks == trace[i + 1].tasks;
    assert r.queue == trace[i + 1].queue;
  }

  lemma LosingEnd()
    ensures Stuck(LosingRun().0[7])
  {
    var s := LosingRun().0[7];
    assert SleeperAt(s, 0);
    assert Resumers(s) == {};
  }

  lemma FiniteWaitsLose()
    ensures History(LosingRun().0, LosingRun().1) && Stuck(LosingRun().0[7])
  {
    var trace, steps := LosingRun().0, LosingRun().1;
    LosingRelease();
    LosingEnd();
    forall i | 0 <= i < |steps|
      ensures Happens(trace[i], steps[i], trace[i + 1])
    {
      if i != 5 {
        LosingStep(i);
      }
    }
  }

  // ---------------------------------------------------------------- the control block

  /** semaphore_do_resume, asked for one entry after the other: the number in its parameter is its budget. */
  method AskEach(n: nat, budget: nat) returns (answers: seq<bool>)
    ensures answers == Selected(n, Some(budget))
  {
    answers := [];
    var num := budget;
    while |answers| < n
      invariant |answers| <= n && num == if |answers| <= budget then budget - |answers| else 0
      invariant forall i :: 0 <= i < |answers| ==> (answers[i] <==> i < budget)
    {
      var resume := num > 0;
      if num > 0 {
        num := num - 1;
      }
      answers := answers + [resume];
    }
  }

  /** A semaphore as the source keeps it, with the wait state of its users beside it. */
  class Control {
    var count: nat
    const max: nat
    var owner: Option<nat>
    var queue: seq<nat>
    const tasks: array<Task>
    ghost var held: nat
    ghost var inside: Option<nat>

    ghost function Value(): Sem
      reads this, tasks
    {
      Sem(count, max, queue, tasks[..], held, inside)
    }

    /** semaphore_create */
    constructor (max: nat, tasks: array<Task>)
      requires forall t :: 0 <= t < tasks.Length ==> tasks[t] == NEVER_WAITED
      ensures Initial(Value()) && this.max == max && this.tasks == tasks && owner == None
    {
      this.max, count, owner, queue, this.tasks := max, max, None, [], tasks;
      held, inside := 0, None;
    }

    /** The part of semaphore_obtain up to the test: the count is there, or the task gives up or goes to sleep. */
    method Obtain(t: nat, wait: Patience) returns (busy: bool)
      requires Balanced(Value()) && MayHappen(Value(), Action.Obtain(t, wait))
      modifies this`queue, this`inside, tasks
      ensures Value() == old(DoObtain(Value(), t, wait)) && busy == (count == 0 && wait == NoWait)
      ensures count == old(count) && held == old(held) && inside == if count > 0 then Some(t) else None
      ensures if count == 0 && wait != NoWait
              then queue == old(queue) + [t] && tasks[t].phase == Asleep && tasks[t].timed == (wait == Ticks)
              else queue == old(queue) && tasks[..] == old(tasks[..])
    {
      busy := false;
      if count == 0 {
        if wait == NoWait {
          busy := true;
        } else {
          queue := queue + [t];
          tasks[t] := tasks[t].(phase := Asleep, conds := [0], timed := wait == Ticks,
                                suspensions := tasks[t].suspensions + 1);
        }
      } else {
        inside := Some(t);
      }
    }

    /** semaphore_obtain goes on after its wait: it gives up, waits again, or has found the count. */
    method Wake(t: nat) returns (expired: bool)
      requires Balanced(Value()) && MayHappen(Value(), Action.Run(t))
      modifies this`queue, this`inside, tasks
      ensures Value() == old(DoRun(Value(), t)) && expired == old(tasks[t].phase.winner.None?)
      ensures count == old(count) && held == old(held) && inside == if expired || count == 0 then None else Some(t)
      ensures queue == if expired then RemoveFirst(old(queue), t)
                       else if count == 0 then old(queue) + [t] else old(queue)
      ensures tasks[t].phase == if expired || count > 0 then Free else Asleep
    {
      expired := tasks[t].phase.winner.None?;
      if expired {
        queue := RemoveFirst(queue, t);
        tasks[t] := tasks[t].(phase := Free);
      } else if count == 0 {
        queue := queue + [t];
        tasks[t] := tasks[t].(phase := Asleep, conds := [0], suspensions := tasks[t].suspensions + 1);
      } else {
        inside := Some(t);
        tasks[t] := tasks[t].(phase := Free);
      }
    }

    /** The end of semaphore_obtain. */
    method Take(t: nat)
      requires Balanced(Value()) && MayHappen(Value(), Action.Take(t))
      modifies this`count, this`owner, this`held, this`inside
      ensures Value() == old(DoTake(Value())) && owner == Some(t)
      ensures count + 1 == old(count) && held == old(held) + 1 && inside == None
    {
      assert count != 0;
      owner := Some(t);
      count := count - 1;
      held, inside := held + 1, None;
    }

    /** semaphore_release */
    method Release(t: nat)
      requires Balanced(Value()) && MayHappen(Value(), Action.Release(t))
      modifies this`count, this`owner, this`queue, this`held, tasks
      ensures Value() == old(DoRelease(Value())) && owner == None
      ensures count == old(count) + 1 && held + 1 == old(held) && inside == old(inside)
      ensures var n := if count > |old(queue)| then |old(queue)| else count;
              && queue == NotWoken(old(tasks[..]), old(queue)[..n], 0) + old(queue)[n..]
              && forall u :: 0 <= u < tasks.Length ==>
                   tasks[u].phase == if old(tasks[u].phase).Asleep? && u in old(queue)[..n] then Woken(Some(0))
                                     else old(tasks[u].phase)
    {
      hide NoDup, AfterResume, Resumed, Selected, NotWoken, PhaseOk;
      ghost var s := Value();
      NoAssertionFires(s, Action.Release(t));
      ReleaseServes(s, t);
      assert count < max;
      count := count + 1;
      owner := None;
      held := held - 1;
      var answers := AskEach(|queue|, count);
      queue := ResumeCondition(queue, tasks, 0, answers);
      assert tasks[..] == DoRelease(s).tasks;
    }
  }
}
