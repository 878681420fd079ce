/** Each step of a semaphore is a run of steps of the wait protocol: semaphores sit on top of it. */
module SemaphoreWaits {
  import opened Words
  import opened Wait
  import S = Semaphore

  /** The tasks that satisfy InSleep, and those that have been woken. */
  ghost function SleepSet(tasks: seq<Task>): set<nat> {
    set t | 0 <= t < |tasks| && InSleep(tasks[t])
  }

  ghost function ReadySet(tasks: seq<Task>): set<nat> {
    set t | 0 <= t < |tasks| && tasks[t].phase.Woken?
  }

  /** The semaphore as the wait protocol sees it: its tasks, and its queue as the suspend list of condition 0. */
  ghost function ToSys(s: S.Sem): Sys {
    Sys(s.tasks, [s.queue], multiset(SleepSet(s.tasks)), multiset(ReadySet(s.tasks)))
  }

  lemma BalancedInv(s: S.Sem)
    requires S.Balanced(s)
    ensures Inv(ToSys(s))
  {
    forall t | 0 <= t < |s.tasks|
      ensures TaskOk(ToSys(s), s.tasks[t])
    {
      assert S.PhaseOk(s.tasks[t]);
    }
    assert ListOk(ToSys(s), 0) by {
      forall t: nat
        ensures t in s.queue <==> t < |s.tasks| && OnList(s.tasks[t], 0)
      {
        if t < |s.tasks| {
          assert S.PhaseOk(s.tasks[t]);
        }
      }
    }
  }

  /** The sleep list and the ready list are determined by the tasks. */
  lemma QueuesDetermined(a: Sys, b: Sys)
    requires Inv(a) && Inv(b) && a.tasks == b.tasks && a.lists == b.lists
    ensures a == b
  {
    assert forall t: nat :: a.sleeping[t] == b.sleeping[t];
    assert forall t: nat :: a.ready[t] == b.ready[t];
    assert a.sleeping == b.sleeping && a.ready == b.ready;
  }

  /** The steps of the wait protocol that make up a step of the semaphore. */
  ghost function Steps(s: S.Sem, a: S.Action): seq<Step>
    requires S.MayHappen(s, a)
  {
    match a
    case Obtain(t, wait) => if s.count > 0 || wait == S.NoWait then [] else Suspension(t, wait == S.Ticks)
    case Take(t) => []
    case Release(t) => [Resume(0, S.Chosen(s))]
    case Expire(t) => [Timeout(t)]
    case Run(t) =>
      [Dispatch(t), LeaveSleep(t), Finish(t)]
      + if s.tasks[t].phase.winner.Some? && s.count == 0 then Suspension(t, s.tasks[t].timed) else []
  }

  function Suspension(t: nat, timed: bool): seq<Step> {
    [Enlist(t, [0], timed), Block(t), SwitchOut(t)]
  }

  /** A run that arrives at the tasks and lists of a semaphore arrives at the semaphore. */
  lemma Arrives(s: S.Sem, steps: seq<Step>, y: Sys, r: S.Sem)
    requires S.Balanced(s) && S.Balanced(r) && Reaches(ToSys(s), steps, y) && y.tasks == r.tasks && y.lists == [r.queue]
    ensures Reaches(ToSys(s), steps, ToSys(r))
  {
    BalancedInv(s);
    BalancedInv(r);
    hide Inv, S.Balanced;
    ReachesInv(ToSys(s), steps, y);
    QueuesDetermined(y, ToSys(r));
  }

  /** Going to sleep is enlisting, blocking and switching out. */
  lemma Suspends(y: Sys, t: nat, timed: bool)
    requires t < |y.tasks| && y.tasks[t].phase == Free && |y.lists| == 1 && t !in y.lists[0]
    ensures var k, r := y.tasks[t], Suspended(y, t, timed);
            && Reaches(y, Suspension(t, timed), r)
            && r.tasks ==
                 y.tasks[t := k.(phase := Asleep, conds := [0], timed := timed, suspensions := k.suspensions + 1)]
            && r.lists == [y.lists[0] + [t]]
  {
    var y1 := DoEnlist(y, t, [0], timed);
    var y2 := DoBlock(y1, t);
    assert y1.lists == [y.lists[0] + [t]];
    ThreeSteps(y, Enlist(t, [0], timed), Block(t), SwitchOut(t), Suspended(y, t, timed));
  }

  ghost function Suspended(y: Sys, t: nat, timed: bool): Sys
    requires t < |y.tasks|
  {
    SetPhase(DoBlock(DoEnlist(y, t, [0], timed), t), t, Asleep)
  }

  lemma ObtainIsRun(s: S.Sem, t: nat, wait: S.Patience)
    requires S.Balanced(s) && S.MayHappen(s, S.Obtain(t, wait))
    ensures Reaches(ToSys(s), Steps(s, S.Obtain(t, wait)), ToSys(S.DoObtain(s, t, wait)))
  {
    hide Reaches, Suspended;
    if s.count > 0 || wait == S.NoWait {
      NoSteps(ToSys(s));
    } else {
      Suspends(ToSys(s), t, wait == S.Ticks);
      S.EnqueueKeepsInv(s, t, wait == S.Ticks);
      hide S.Balanced;
      Arrives(s, Suspension(t, wait == S.Ticks), Suspended(ToSys(s), t, wait == S.Ticks),
              S.Enqueue(s, t, wait == S.Ticks));
    }
  }

  lemma NoSteps(y: Sys)
    ensures Reaches(y, [], y)
  {
  }

  lemma ExpireIsRun(s: S.Sem, t: nat)
    requires S.Balanced(s) && S.MayHappen(s, S.Expire(t))
    ensures Reaches(ToSys(s), [Timeout(t)], ToSys(S.DoExpire(s, t)))
  {
    var y := ToSys(s);
    BalancedInv(s);
    S.StepKeepsInv(s, S.Expire(t));
    assert S.PhaseOk(s.tasks[t]) && t in SleepSet(s.tasks);
    OneStep(y, Timeout(t), DoTimeout(y, t));
    hide S.Balanced, Inv, Reaches;
    Arrives(s, [Timeout(t)], DoTimeout(y, t), S.DoExpire(s, t));
  }

  lemma ReleaseIsRun(s: S.Sem, t: nat)
    requires S.Balanced(s) && S.MayHappen(s, S.Release(t))
    ensures Reaches(ToSys(s), [Resume(0, S.Chosen(s))], ToSys(S.DoRelease(s)))
  {
    var y, a := ToSys(s), Resume(0, S.Chosen(s));
    S.ReleaseKeepsInv(s, t);
    hide AfterResume, Resumed, Selected;
    OneStep(y, a, DoResume(y, 0, S.Chosen(s)));
    hide S.Balanced, Inv, Reaches;
    Arrives(s, [a], DoResume(y, 0, S.Chosen(s)), S.DoRelease(s));
  }

  /** What a resumed task does first: it is dispatched, leaves the sleep list and then its suspend list. */
  lemma Comes(y: Sys, t: nat)
    requires t < |y.tasks| && y.tasks[t].phase.Woken? && y.ready[t] > 0 && |y.lists| == 1 && y.tasks[t].conds == [0]
    requires (y.tasks[t].phase.winner.None? || y.tasks[t].phase.winner == Some(0)) && y.tasks[t].outer == []
    ensures Reaches(y, [Dispatch(t), LeaveSleep(t), Finish(t)], Back(y, t))
    ensures Back(y, t).tasks == y.tasks[t := y.tasks[t].(phase := Free)]
    ensures Back(y, t).lists == [if y.tasks[t].phase.winner.None? then RemoveFirst(y.lists[0], t) else y.lists[0]]
  {
    var y1 := DoDispatch(y, t);
    var y2 := DoLeaveSleep(y1, t);
    assert Enabled(y1, LeaveSleep(t)) && Enabled(y2, Finish(t));
    hide RemoveFirst;
    ThreeSteps(y, Dispatch(t), LeaveSleep(t), Finish(t), Back(y, t));
  }

  ghost function Back(y: Sys, t: nat): Sys
    requires t < |y.tasks| && y.tasks[t].phase.Woken?
  {
    DoFinish(DoLeaveSleep(DoDispatch(y, t), t), t)
  }

  lemma RunIsRun(s: S.Sem, t: nat)
    requires S.Balanced(s) && S.MayHappen(s, S.Run(t))
    ensures Reaches(ToSys(s), Steps(s, S.Run(t)), ToSys(S.DoRun(s, t)))
  {
    var y, k, first := ToSys(s), s.tasks[t], [Dispatch(t), LeaveSleep(t), Finish(t)];
    assert S.PhaseOk(k) && t in ReadySet(s.tasks);
    assert k.phase.winner.Some? ==> t !in s.queue;
    Comes(y, t);
    S.RunKeepsInv(s, t);
    hide Reaches, Back, S.PhaseOk, S.Balanced;
    if k.phase.winner.Some? && s.count == 0 {
      ComesAndSuspends(s, t);
    } else {
      assert first + [] == first;
      Arrives(s, first, Back(y, t), S.DoRun(s, t));
    }
  }

  lemma ComesAndSuspends(s: S.Sem, t: nat)
    requires S.Balanced(s) && S.MayHappen(s, S.Run(t)) && s.tasks[t].phase.winner.Some? && s.count == 0
    requires t !in s.queue
    requires S.Balanced(S.DoRun(s, t)) && Reaches(ToSys(s), [Dispatch(t), LeaveSleep(t), Finish(t)], Back(ToSys(s), t))
    requires Back(ToSys(s), t).tasks == s.tasks[t := s.tasks[t].(phase := Free)] && Back(ToSys(s), t).lists == [s.queue]
    ensures Reaches(ToSys(s), Steps(s, S.Run(t)), ToSys(S.DoRun(s, t)))
  {
    hide Reaches, Back, Suspended, S.Balanced;
    var y, k, first := ToSys(s), s.tasks[t], [Dispatch(t), LeaveSleep(t), Finish(t)];
    var m := Back(y, t);
    Suspends(m, t, k.timed);
    ReachesTrans(y, first, m, Suspension(t, k.timed), Suspended(m, t, k.timed));
    Arrives(s, first + Suspension(t, k.timed), Suspended(m, t, k.timed), S.DoRun(s, t));
  }

  /** Every step of a semaphore is a run of the wait protocol. */
  lemma StepIsRun(s: S.Sem, a: S.Action)
    requires S.Balanced(s) && S.MayHappen(s, a)
    ensures Reaches(ToSys(s), Steps(s, a), ToSys(S.Apply(s, a)))
  {
    hide S.DoObtain, S.DoRelease, S.DoRun, S.DoExpire, S.Balanced, Reaches;
    match a
    case Obtain(t, wait) => ObtainIsRun(s, t, wait);
    case Take(t) => NoSteps(ToSys(s));
    case Release(t) => ReleaseIsRun(s, t);
    case Expire(t) => ExpireIsRun(s, t);
    case Run(t) => RunIsRun(s, t);
  }

  /** So every run of a semaphore is a run of the wait protocol, and what holds of all its runs holds here: its
      assertions do not fire, and each task is made ready once for each of its suspensions. */
  lemma {:induction false} HistoryIsRun(trace: seq<S.Sem>, actions: seq<S.Action>, i: nat) returns (steps: seq<Step>)
    requires S.History(trace, actions) && i < |trace|
    ensures Reaches(ToSys(trace[0]), steps, ToSys(trace[i])) && Init(ToSys(trace[0])) && Inv(ToSys(trace[i]))
  {
    hide Reaches, Inv, Init, S.Balanced, S.Initial, S.Happens, ToSys;
    S.RunsAreSafe(trace, actions, i);
    BalancedInv(trace[i]);
    NobodyWaits(trace[0]);
    if i == 0 {
      steps := [];
      NoSteps(ToSys(trace[0]));
    } else {
      steps := HistoryIsRun(trace, actions, i - 1);
      var more := OneMoreStep(trace, actions, i - 1);
      ReachesTrans(ToSys(trace[0]), steps, ToSys(trace[i - 1]), more, ToSys(trace[i]));
      steps := steps + more;
    }
  }

  lemma OneMoreStep(trace: seq<S.Sem>, actions: seq<S.Action>, i: nat) returns (steps: seq<Step>)
    requires S.History(trace, actions) && i < |actions|
    ensures Reaches(ToSys(trace[i]), steps, ToSys(trace[i + 1]))
  {
    S.RunsAreSafe(trace, actions, i);
    assert S.Happens(trace[i], actions[i], trace[i + 1]);
    hide Reaches, S.Balanced, S.Apply, S.MayHappen, S.History;
    StepIsRun(trace[i], actions[i]);
    steps := Steps(trace[i], actions[i]);
  }

  lemma NobodyWaits(s: S.Sem)
    requires S.Initial(s)
    ensures Init(ToSys(s))
  {
    assert SleepSet(s.tasks) == {} && ReadySet(s.tasks) == {};
    assert forall t: nat :: multiset(SleepSet(s.tasks))[t] == 0 && multiset(ReadySet(s.tasks))[t] == 0;
  }
}
