/** The wait protocol: tasks suspend on conditions with or without a timeout; releases and ticks race to resume them. */
module Wait {
  import opened Words

  /** Where a task is in suspend_condition. winner names the condition that resumed it; None is the timeout.
      Free: not waiting. Enlisted: on the suspend lists, still running. Blocking: TASK_TO_BE_SUSPENDED.
      Asleep: TASK_SUSPENDED. Woken: resumed and on the ready list. Running: picked by the scheduler,
      the sleep list not yet looked at. Leaving: taking the condition locks, then the task off the suspend lists. */
  datatype Phase =
    | Free
    | Enlisted
    | Blocking
    | Asleep
    | Woken(winner: Option<nat>)
    | Running(winner: Option<nat>)
    | Leaving(winner: Option<nat>)

  /** A wait that is over but for the suspend lists, while its task takes the condition locks again: the locals of
      suspend_condition that say which conditions it waited for, and who resumed it. */
  datatype Frame = Frame(conds: seq<nat>, timed: bool, winner: Option<nat>)

  /** One task: the conditions of its current wait (suspend_data while it is suspended), whether the wait has a
      timeout, the waits around it, outermost first, which it interrupts to wait for a condition lock, and how often the
      task has been suspended and made ready since the start. */
  datatype Task = Task(
    phase: Phase,
    conds: seq<nat>,
    timed: bool,
    outer: seq<Frame>,
    suspensions: nat,
    wakeups: nat)

  /** The tasks, the suspend list of each condition, the sleep list and the ready list. */
  datatype Sys = Sys(tasks: seq<Task>, lists: seq<seq<nat>>, sleeping: multiset<nat>, ready: multiset<nat>)

  datatype Step =
    | Enlist(t: nat, conds: seq<nat>, timed: bool)
    | Block(t: nat)
    | SwitchOut(t: nat)
    | Resume(c: nat, chosen: seq<bool>)
    | Timeout(t: nat)
    | Dispatch(t: nat)
    | LeaveSleep(t: nat)
    | Finish(t: nat)

  ghost predicate NoDup(s: seq<nat>) {
    forall i, j :: 0 <= i < j < |s| ==> s[i] != s[j]
  }

  /** The first half of the test resume_condition makes: suspended, or in the process of suspending. */
  predicate IsSuspended(p: Phase) {
    p.Blocking? || p.Asleep?
  }

  /** The whole test: suspended, and on this condition (suspend_is_task_waiting). */
  predicate WaitsOn(k: Task, c: nat) {
    IsSuspended(k.phase) && c in k.conds
  }

  // ---------------------------------------------------------------- lists

  /** sll_remove */
  function RemoveFirst(s: seq<nat>, t: nat): (r: seq<nat>) {
    if s == [] then [] else if s[0] == t then s[1..] else [s[0]] + RemoveFirst(s[1..], t)
  }

  lemma {:induction false} RemovedFirst(s: seq<nat>, t: nat)
    requires NoDup(s)
    ensures NoDup(RemoveFirst(s, t)) && forall u :: u in RemoveFirst(s, t) <==> u in s && u != t
  {
    if s != [] {
      assert s == [s[0]] + s[1..];
      RemovedFirst(s[1..], t);
      if s[0] == t {
        assert forall i :: 1 <= i < |s| ==> s[i] == s[1..][i - 1];
      } else {
        var r := RemoveFirst(s[1..], t);
        assert s[0] !in s[1..];
        assert forall i :: 1 <= i < |r| + 1 ==> ([s[0]] + r)[i] == r[i - 1];
      }
    }
  }

  /** The entries of a suspend list that a resumption passes over, and those it takes off and puts back
      because their task does not wait on condition c; the others are resumed. */
  function Kept(tasks: seq<Task>, list: seq<nat>, chosen: seq<bool>, c: nat, back: bool): (r: seq<nat>)
    requires |list| == |chosen| && forall i :: 0 <= i < |list| ==> list[i] < |tasks|
    ensures forall u :: u in r ==> u in list
  {
    if list == [] then []
    else
      (if (if back then chosen[0] && !WaitsOn(tasks[list[0]], c) else !chosen[0]) then [list[0]] else [])
      + Kept(tasks, list[1..], chosen[1..], c, back)
  }

  /** The suspend list after resume_condition. */
  function AfterResume(tasks: seq<Task>, list: seq<nat>, chosen: seq<bool>, c: nat): seq<nat>
    requires |list| == |chosen| && forall i :: 0 <= i < |list| ==> list[i] < |tasks|
  {
    Kept(tasks, list, chosen, c, true) + Kept(tasks, list, chosen, c, false)
  }

  /** t is resumed from this list. */
  ghost predicate Resumed(tasks: seq<Task>, list: seq<nat>, chosen: seq<bool>, c: nat, t: nat)
    requires |list| == |chosen| && t < |tasks|
  {
    WaitsOn(tasks[t], c) && exists i :: 0 <= i < |list| && list[i] == t && chosen[i]
  }

  lemma {:induction false} KeptWhich(tasks: seq<Task>, list: seq<nat>, chosen: seq<bool>, c: nat, back: bool)
    requires |list| == |chosen| && (forall i :: 0 <= i < |list| ==> list[i] < |tasks|) && NoDup(list)
    ensures NoDup(Kept(tasks, list, chosen, c, back))
    ensures forall i :: 0 <= i < |list| ==>
              (list[i] in Kept(tasks, list, chosen, c, back) <==>
                if back then chosen[i] && !WaitsOn(tasks[list[i]], c) else !chosen[i])
  {
    if list != [] {
      var r := Kept(tasks, list[1..], chosen[1..], c, back);
      KeptWhich(tasks, list[1..], chosen[1..], c, back);
      assert forall i :: 1 <= i < |list| ==> list[i] == list[1..][i - 1] && chosen[i] == chosen[1..][i - 1];
      assert list[0] !in list[1..];
      assert forall i :: 1 <= i < |r| + 1 ==> ([list[0]] + r)[i] == r[i - 1];
    }
  }

  /** A resumption takes exactly the resumed tasks off the list. */
  lemma AfterResumeWhich(tasks: seq<Task>, list: seq<nat>, chosen: seq<bool>, c: nat)
    requires |list| == |chosen| && (forall i :: 0 <= i < |list| ==> list[i] < |tasks|) && NoDup(list)
    ensures NoDup(AfterResume(tasks, list, chosen, c)) &&
            forall t :: t in AfterResume(tasks, list, chosen, c) ==> t < |tasks|
    ensures forall t: nat ::
              t < |tasks| ==>
                (t in AfterResume(tasks, list, chosen, c) <==> t in list && !Resumed(tasks, list, chosen, c, t))
  {
    KeptWhich(tasks, list, chosen, c, true);
    KeptWhich(tasks, list, chosen, c, false);
    var a, b := Kept(tasks, list, chosen, c, true), Kept(tasks, list, chosen, c, false);
    forall i, j | 0 <= i < |a| && 0 <= j < |b|
      ensures a[i] != b[j]
    {
      assert a[i] in a && b[j] in b;
      var k :| 0 <= k < |list| && list[k] == a[i];
    }
  }

  // ---------------------------------------------------------------- the steps

  ghost predicate Is(s: Sys, t: nat, p: Phase) {
    t < |s.tasks| && s.tasks[t].phase == p
  }

  /** A task starts a wait when it is not waiting, or around the locks it takes at the end of a wait. Either way it is
      not on the lists of the new conditions yet. */
  ghost predicate MayWait(s: Sys, t: nat, conds: seq<nat>) {
    && t < |s.tasks| && (s.tasks[t].phase.Free? || s.tasks[t].phase.Leaving?)
    && NoDup(conds) && forall c :: c in conds ==> c < |s.lists| && t !in s.lists[c]
  }

  ghost predicate Enabled(s: Sys, step: Step) {
    match step
    case Enlist(t, conds, _) => MayWait(s, t, conds)
    case Block(t) => Is(s, t, Enlisted)
    case SwitchOut(t) => Is(s, t, Blocking)
    case Resume(c, chosen) =>
      c < |s.lists| && |chosen| == |s.lists[c]| && forall i :: 0 <= i < |s.lists[c]| ==> s.lists[c][i] < |s.tasks|
    case Timeout(t) => Is(s, t, Asleep) && s.sleeping[t] > 0
    case Dispatch(t) => t < |s.tasks| && s.tasks[t].phase.Woken? && s.ready[t] > 0
    case LeaveSleep(t) => t < |s.tasks| && s.tasks[t].phase.Running?
    case Finish(t) => t < |s.tasks| && s.tasks[t].phase.Leaving?
  }

  /** The waits around a new one. */
  function Around(k: Task): seq<Frame> {
    if k.phase.Leaving? then k.outer + [Frame(k.conds, k.timed, k.phase.winner)] else k.outer
  }

  /** suspend_condition_add_task and sleep_add_to_list */
  ghost function DoEnlist(s: Sys, t: nat, conds: seq<nat>, timed: bool): Sys
    requires t < |s.tasks|
  {
    var k := s.tasks[t];
    s.(tasks := s.tasks[t := k.(phase := Enlisted, conds := conds, timed := timed, outer := Around(k))],
       lists := seq(|s.lists|, c requires 0 <= c < |s.lists| => if c in conds then s.lists[c] + [t] else s.lists[c]),
       sleeping := if timed then s.sleeping + multiset{t} else s.sleeping)
  }

  /** The state of the task becomes TASK_TO_BE_SUSPENDED. */
  ghost function DoBlock(s: Sys, t: nat): Sys
    requires t < |s.tasks|
  {
    s.(tasks := s.tasks[t := s.tasks[t].(phase := Blocking, suspensions := s.tasks[t].suspensions + 1)])
  }

  ghost function SetPhase(s: Sys, t: nat, p: Phase): Sys
    requires t < |s.tasks|
  {
    s.(tasks := s.tasks[t := s.tasks[t].(phase := p)])
  }

  function WokenBy(k: Task, w: Option<nat>): Task {
    k.(phase := Woken(w), wakeups := k.wakeups + 1)
  }

  ghost function ResumedSet(s: Sys, c: nat, chosen: seq<bool>): set<nat>
    requires c < |s.lists| && |chosen| == |s.lists[c]|
  {
    set t | 0 <= t < |s.tasks| && Resumed(s.tasks, s.lists[c], chosen, c, t)
  }

  /** resume_condition */
  ghost function DoResume(s: Sys, c: nat, chosen: seq<bool>): Sys
    requires Enabled(s, Resume(c, chosen))
  {
    s.(tasks := seq(|s.tasks|, t requires 0 <= t < |s.tasks| =>
                      if Resumed(s.tasks, s.lists[c], chosen, c, t) then WokenBy(s.tasks[t], Some(c)) else s.tasks[t]),
       lists := s.lists[c := AfterResume(s.tasks, s.lists[c], chosen, c)],
       ready := s.ready + multiset(ResumedSet(s, c, chosen)))
  }

  /** sleep_process_system_tick on a task that is due */
  ghost function DoTimeout(s: Sys, t: nat): Sys
    requires t < |s.tasks|
  {
    s.(tasks := s.tasks[t := WokenBy(s.tasks[t], None)], sleeping := s.sleeping - multiset{t},
       ready := s.ready + multiset{t})
  }

  ghost function DoDispatch(s: Sys, t: nat): Sys
    requires t < |s.tasks| && s.tasks[t].phase.Woken?
  {
    SetPhase(s, t, Running(s.tasks[t].phase.winner)).(ready := s.ready - multiset{t})
  }

  /** A task not woken by its timeout leaves the sleep list. */
  ghost function DoLeaveSleep(s: Sys, t: nat): Sys
    requires t < |s.tasks| && s.tasks[t].phase.Running?
  {
    var k := s.tasks[t];
    SetPhase(s, t, Leaving(k.phase.winner)).(
      sleeping := if k.phase.winner.Some? && k.timed then s.sleeping - multiset{t} else s.sleeping)
  }

  /** The suspend lists the task is to be taken off at the end of its wait. */
  predicate ToRemove(k: Task, c: nat)
    requires k.phase.Leaving?
  {
    c in k.conds && k.phase.winner != Some(c)
  }

  /** The task when its wait is over: it goes on with the wait around it, if there is one. */
  function AfterWait(k: Task): Task {
    if k.outer == [] then k.(phase := Free)
    else
      var f := k.outer[|k.outer| - 1];
      k.(phase := Leaving(f.winner), conds := f.conds, timed := f.timed, outer := k.outer[..|k.outer| - 1])
  }

  /** suspend_condition_remove and suspend_condition_remove_all */
  ghost function DoFinish(s: Sys, t: nat): Sys
    requires t < |s.tasks| && s.tasks[t].phase.Leaving?
  {
    s.(tasks := s.tasks[t := AfterWait(s.tasks[t])],
       lists := seq(|s.lists|, c requires 0 <= c < |s.lists| =>
         if ToRemove(s.tasks[t], c) then RemoveFirst(s.lists[c], t) else s.lists[c]))
  }

  ghost function Apply(s: Sys, step: Step): Sys
    requires Enabled(s, step)
  {
    match step
    case Enlist(t, conds, timed) => DoEnlist(s, t, conds, timed)
    case Block(t) => DoBlock(s, t)
    case SwitchOut(t) => SetPhase(s, t, Asleep)
    case Resume(c, chosen) => DoResume(s, c, chosen)
    case Timeout(t) => DoTimeout(s, t)
    case Dispatch(t) => DoDispatch(s, t)
    case LeaveSleep(t) => DoLeaveSleep(s, t)
    case Finish(t) => DoFinish(s, t)
  }

  /** The assertions of the source that a step passes. */
  ghost predicate AssertionsHold(s: Sys, step: Step)
    requires Enabled(s, step)
  {
    match step
    case LeaveSleep(t) =>
      && (s.tasks[t].phase.winner.Some? && s.tasks[t].timed ==> t in s.sleeping)
      && (s.tasks[t].phase.winner.None? ==> s.tasks[t].timed)
    case Finish(t) => forall c :: c in s.tasks[t].conds && ToRemove(s.tasks[t], c) ==> c < |s.lists| && t in s.lists[c]
    case _ => true
  }

  // ---------------------------------------------------------------- the invariant

  /** The task is on the list of c on account of its current wait. */
  predicate OnTop(k: Task, c: nat) {
    c in k.conds &&
    match k.phase
    case Free => false
    case Enlisted => true
    case Blocking => true
    case Asleep => true
    case Woken(w) => w != Some(c)
    case Running(w) => w != Some(c)
    case Leaving(w) => w != Some(c)
  }

  /** The task has yet to be taken off the list of c at the end of an outer wait. */
  predicate Owed(f: Frame, c: nat) {
    c in f.conds && f.winner != Some(c)
  }

  /** The task is on the list of c on account of a wait around its current one. */
  predicate OnOuter(k: Task, c: nat) {
    exists i :: 0 <= i < |k.outer| && Owed(k.outer[i], c)
  }

  predicate OnList(k: Task, c: nat) {
    OnTop(k, c) || OnOuter(k, c)
  }

  /** No task is on a list twice: no wait is for a condition on whose list an outer one still has the task. */
  ghost predicate WaitsApart(k: Task) {
    && (forall c: nat, i, j :: 0 <= i < j < |k.outer| && Owed(k.outer[i], c) ==> c !in k.outer[j].conds)
    && forall c: nat :: c in k.conds ==> !OnOuter(k, c)
  }

  predicate InSleep(k: Task) {
    k.timed &&
    match k.phase
    case Free => false
    case Enlisted => true
    case Blocking => true
    case Asleep => true
    case Woken(w) => w.Some?
    case Running(w) => w.Some?
    case Leaving(_) => false
  }

  predicate WinnerMakesSense(k: Task) {
    match k.phase
    case Woken(w) => if w.Some? then w.value in k.conds else k.timed
    case Running(w) => if w.Some? then w.value in k.conds else k.timed
    case Leaving(w) => if w.Some? then w.value in k.conds else k.timed
    case _ => true
  }

  ghost predicate FrameOk(s: Sys, f: Frame) {
    && NoDup(f.conds) && (forall c :: c in f.conds ==> c < |s.lists|)
    && if f.winner.Some? then f.winner.value in f.conds else f.timed
  }

  ghost predicate TaskOk(s: Sys, k: Task) {
    && NoDup(k.conds) && (k.phase != Free ==> forall c :: c in k.conds ==> c < |s.lists|)
    && WinnerMakesSense(k)
    && (forall i :: 0 <= i < |k.outer| ==> FrameOk(s, k.outer[i])) && (k.phase.Free? ==> k.outer == [])
    && WaitsApart(k)
    && k.suspensions == k.wakeups + if IsSuspended(k.phase) then 1 else 0
  }

  ghost predicate ListOk(s: Sys, c: nat)
    requires c < |s.lists|
  {
    NoDup(s.lists[c]) && forall t: nat :: t in s.lists[c] <==> t < |s.tasks| && OnList(s.tasks[t], c)
  }

  ghost predicate QueuesOk(s: Sys) {
    && (forall t: nat :: s.sleeping[t] == if t < |s.tasks| && InSleep(s.tasks[t]) then 1 else 0)
    && (forall t: nat :: s.ready[t] == if t < |s.tasks| && s.tasks[t].phase.Woken? then 1 else 0)
  }

  ghost predicate Inv(s: Sys) {
    && (forall t :: 0 <= t < |s.tasks| ==> TaskOk(s, s.tasks[t]))
    && (forall c {:trigger ListOk(s, c)} :: 0 <= c < |s.lists| ==> ListOk(s, c))
    && QueuesOk(s)
  }

  ghost predicate Init(s: Sys) {
    && (forall t :: 0 <= t < |s.tasks| ==> s.tasks[t] == Task(Free, [], false, [], 0, 0))
    && (forall c :: 0 <= c < |s.lists| ==> s.lists[c] == [])
    && s.sleeping == multiset{} && s.ready == multiset{}
  }

  lemma InitInv(s: Sys)
    requires Init(s)
    ensures Inv(s)
  {
  }

  /** A task that starts a wait joins the lists of its conditions and leaves none. */
  lemma ListsJoined(k: Task, conds: seq<nat>, timed: bool)
    requires (k.phase.Free? ==> k.outer == []) && (k.phase.Free? || k.phase.Leaving?)
    ensures var r := k.(phase := Enlisted, conds := conds, timed := timed, outer := Around(k));
            && (forall c: nat :: OnTop(r, c) <==> c in conds)
            && (forall c: nat :: OnOuter(r, c) <==> OnList(k, c))
  {
    var r := k.(phase := Enlisted, conds := conds, timed := timed, outer := Around(k));
    forall c: nat
      ensures OnOuter(r, c) <==> OnList(k, c)
    {
      if k.phase.Leaving? {
        var n := |k.outer|;
        assert r.outer[n] == Frame(k.conds, k.timed, k.phase.winner);
        assert Owed(r.outer[n], c) <==> OnTop(k, c);
        if i :| 0 <= i < n && Owed(k.outer[i], c) {
          assert Owed(r.outer[i], c);
        }
      }
    }
  }

  lemma EnlistKeepsInv(s: Sys, t: nat, conds: seq<nat>, timed: bool)
    requires Inv(s) && Enabled(s, Enlist(t, conds, timed))
    ensures Inv(DoEnlist(s, t, conds, timed))
  {
    hide QueuesOk, NoDup, ListOk, WaitsApart, FrameOk, OnList, OnTop, OnOuter;
    var r, k := DoEnlist(s, t, conds, timed), s.tasks[t];
    assert TaskOk(s, k);
    EnlistKeepsQueues(s, t, conds, timed);
    ListsJoined(k, conds, timed);
    forall c | 0 <= c < |r.lists|
      ensures ListOk(r, c)
    {
      EnlistKeepsList(s, t, conds, timed, c);
    }
    EnlistKeepsApart(s, t, conds);
    forall u | 0 <= u < |r.tasks|
      ensures TaskOk(r, r.tasks[u])
    {
      assert TaskOk(s, s.tasks[u]);
      FramesKept(s, r, s.tasks[u]);
      FramesKept(s, r, k);
    }
  }

  /** A wait for a condition on whose list the task still is would break the invariant: a condition lock must not wait
      for a condition that is waited for around it. */
  lemma EnlistNeedsApart(s: Sys, t: nat, conds: seq<nat>, timed: bool)
    requires Inv(s) && t < |s.tasks| && (s.tasks[t].phase.Free? || s.tasks[t].phase.Leaving?)
    requires NoDup(conds) && forall c :: c in conds ==> c < |s.lists|
    ensures Inv(DoEnlist(s, t, conds, timed)) <==> forall c :: c in conds ==> t !in s.lists[c]
  {
    if MayWait(s, t, conds) {
      EnlistKeepsInv(s, t, conds, timed);
    } else {
      hide QueuesOk, TaskOk;
      var r := DoEnlist(s, t, conds, timed);
      var c :| c in conds && t in s.lists[c];
      var i :| 0 <= i < |s.lists[c]| && s.lists[c][i] == t;
      assert r.lists[c][i] == r.lists[c][|s.lists[c]|] == t;
      assert !ListOk(r, c);
    }
  }

  /** A frame is in order whatever the lists hold. */
  lemma FramesKept(s: Sys, r: Sys, k: Task)
    requires TaskOk(s, k) && |r.lists| == |s.lists|
    ensures forall i :: 0 <= i < |Around(k)| ==> FrameOk(r, Around(k)[i])
    ensures forall i :: 0 <= i < |k.outer| ==> FrameOk(r, k.outer[i])
  {
    hide WaitsApart, NoDup;
    forall i | 0 <= i < |k.outer|
      ensures FrameOk(r, k.outer[i])
    {
      assert FrameOk(s, k.outer[i]);
    }
  }

  lemma EnlistKeepsQueues(s: Sys, t: nat, conds: seq<nat>, timed: bool)
    requires Inv(s) && Enabled(s, Enlist(t, conds, timed))
    ensures QueuesOk(DoEnlist(s, t, conds, timed))
  {
    hide NoDup, ListOk, TaskOk;
  }

  lemma EnlistKeepsList(s: Sys, t: nat, conds: seq<nat>, timed: bool, c: nat)
    requires Inv(s) && Enabled(s, Enlist(t, conds, timed)) && c < |s.lists|
    ensures ListOk(DoEnlist(s, t, conds, timed), c)
  {
    hide QueuesOk, FrameOk, WaitsApart, OnTop, OnOuter;
    assert ListOk(s, c) && TaskOk(s, s.tasks[t]);
    ListsJoined(s.tasks[t], conds, timed);
  }

  lemma EnlistKeepsApart(s: Sys, t: nat, conds: seq<nat>)
    requires Inv(s) && MayWait(s, t, conds)
    ensures forall timed :: WaitsApart(s.tasks[t].(phase := Enlisted, conds := conds, timed := timed,
                                                   outer := Around(s.tasks[t])))
  {
    hide QueuesOk, FrameOk, NoDup;
    var k := s.tasks[t];
    assert TaskOk(s, k);
    forall timed
      ensures WaitsApart(k.(phase := Enlisted, conds := conds, timed := timed, outer := Around(k)))
    {
      ListsJoined(k, conds, timed);
      forall c: nat | c in conds
        ensures !OnList(k, c)
      {
        assert ListOk(s, c);
      }
      forall c: nat, i, j | 0 <= i < j < |Around(k)| && Owed(Around(k)[i], c)
        ensures c !in Around(k)[j].conds
      {
        if j == |k.outer| {
          assert OnOuter(k, c);
        }
      }
    }
  }

  /** The task goes on in its wait: the lists it is on stay the same. */
  ghost predicate GoesOn(k: Task, k': Task) {
    && k'.conds == k.conds && k'.timed == k.timed && k'.outer == k.outer && !k.phase.Free? && !k'.phase.Free?
    && WinnerMakesSense(k') && (forall c: nat :: OnTop(k', c) <==> OnTop(k, c))
    && k'.suspensions == k'.wakeups + if IsSuspended(k'.phase) then 1 else 0
  }

  lemma StaysOnLists(k: Task, k': Task)
    requires WaitsApart(k) && GoesOn(k, k')
    ensures WaitsApart(k') && forall c: nat :: OnList(k', c) <==> OnList(k, c)
  {
    hide OnTop;
    assert forall c: nat :: OnOuter(k', c) <==> OnOuter(k, c);
  }

  /** A step that changes one task but no suspend list. */
  lemma OneTaskChanges(s: Sys, r: Sys, t: nat)
    requires Inv(s) && t < |s.tasks| == |r.tasks| && r.lists == s.lists && QueuesOk(r)
    requires GoesOn(s.tasks[t], r.tasks[t])
    requires forall u :: 0 <= u < |s.tasks| && u != t ==> r.tasks[u] == s.tasks[u]
    ensures Inv(r)
  {
    hide QueuesOk, NoDup, OnList, OnTop, WaitsApart, FrameOk, WinnerMakesSense;
    assert TaskOk(s, s.tasks[t]);
    StaysOnLists(s.tasks[t], r.tasks[t]);
    forall u | 0 <= u < |r.tasks|
      ensures TaskOk(r, r.tasks[u])
    {
      assert TaskOk(s, s.tasks[u]);
      FramesKept(s, r, s.tasks[u]);
    }
    forall c | 0 <= c < |r.lists|
      ensures ListOk(r, c)
    {
      assert ListOk(s, c);
    }
  }

  lemma BlockKeepsInv(s: Sys, t: nat)
    requires Inv(s) && Enabled(s, Block(t))
    ensures Inv(DoBlock(s, t))
  {
    hide NoDup, ListOk, WaitsApart, FrameOk;
    assert TaskOk(s, s.tasks[t]);
    OneTaskChanges(s, DoBlock(s, t), t);
  }

  lemma SwitchOutKeepsInv(s: Sys, t: nat)
    requires Inv(s) && Enabled(s, SwitchOut(t))
    ensures Inv(SetPhase(s, t, Asleep))
  {
    hide NoDup, ListOk, WaitsApart, FrameOk;
    assert TaskOk(s, s.tasks[t]);
    OneTaskChanges(s, SetPhase(s, t, Asleep), t);
  }

  lemma TimeoutKeepsInv(s: Sys, t: nat)
    requires Inv(s) && Enabled(s, Timeout(t))
    ensures Inv(DoTimeout(s, t))
  {
    hide NoDup, ListOk, WaitsApart, FrameOk, QueuesOk;
    assert TaskOk(s, s.tasks[t]);
    TimeoutKeepsQueues(s, t);
    OneTaskChanges(s, DoTimeout(s, t), t);
  }

  lemma TimeoutKeepsQueues(s: Sys, t: nat)
    requires QueuesOk(s) && Enabled(s, Timeout(t))
    ensures QueuesOk(DoTimeout(s, t)) && s.tasks[t].timed
  {
  }

  lemma DispatchKeepsInv(s: Sys, t: nat)
    requires Inv(s) && Enabled(s, Dispatch(t))
    ensures Inv(DoDispatch(s, t))
  {
    hide NoDup, ListOk, QueuesOk, WaitsApart, FrameOk;
    assert TaskOk(s, s.tasks[t]);
    DispatchKeepsQueues(s, t);
    OneTaskChanges(s, DoDispatch(s, t), t);
  }

  lemma DispatchKeepsQueues(s: Sys, t: nat)
    requires QueuesOk(s) && Enabled(s, Dispatch(t))
    ensures QueuesOk(DoDispatch(s, t))
  {
  }

  lemma LeaveSleepKeepsInv(s: Sys, t: nat)
    requires Inv(s) && Enabled(s, LeaveSleep(t))
    ensures Inv(DoLeaveSleep(s, t))
  {
    hide NoDup, ListOk, QueuesOk, WaitsApart, FrameOk;
    assert TaskOk(s, s.tasks[t]);
    LeaveSleepKeepsQueues(s, t);
    OneTaskChanges(s, DoLeaveSleep(s, t), t);
  }

  lemma LeaveSleepKeepsQueues(s: Sys, t: nat)
    requires QueuesOk(s) && Enabled(s, LeaveSleep(t))
    ensures QueuesOk(DoLeaveSleep(s, t))
  {
  }

  /** A task whose wait is over is left with the lists of the waits around it. */
  lemma ListsLeft(k: Task)
    requires k.phase.Leaving? && WaitsApart(k)
    ensures WaitsApart(AfterWait(k))
    ensures forall c: nat :: OnList(AfterWait(k), c) <==> OnOuter(k, c)
    ensures forall c: nat :: OnOuter(k, c) <==> OnList(k, c) && !ToRemove(k, c)
  {
    var r := AfterWait(k);
    if k.outer != [] {
      var n := |k.outer| - 1;
      forall c: nat
        ensures OnTop(r, c) <==> Owed(k.outer[n], c)
        ensures OnList(r, c) <==> OnOuter(k, c)
      {
        if i :| 0 <= i <= n && Owed(k.outer[i], c) {
          assert i == n || Owed(r.outer[i], c);
        }
      }
    }
  }

  lemma FinishKeepsInv(s: Sys, t: nat)
    requires Inv(s) && Enabled(s, Finish(t))
    ensures Inv(DoFinish(s, t))
  {
    hide NoDup, RemoveFirst, ListOk, QueuesOk, WaitsApart, FrameOk, OnList, OnOuter;
    var r := DoFinish(s, t);
    FinishKeepsQueues(s, t);
    forall c | 0 <= c < |s.lists|
      ensures ListOk(r, c)
    {
      FinishKeepsList(s, t, c);
    }
    assert TaskOk(s, s.tasks[t]);
    ListsLeft(s.tasks[t]);
    forall u | 0 <= u < |r.tasks|
      ensures TaskOk(r, r.tasks[u])
    {
      assert TaskOk(s, s.tasks[u]);
      FramesKept(s, r, s.tasks[u]);
      if u == t {
        LastFrame(r, s.tasks[u]);
      }
    }
  }

  lemma LastFrame(r: Sys, k: Task)
    requires k.outer != [] ==> FrameOk(r, k.outer[|k.outer| - 1])
    ensures k.outer != [] ==> WinnerMakesSense(AfterWait(k)) && NoDup(AfterWait(k).conds)
    ensures k.outer != [] ==> forall c :: c in AfterWait(k).conds ==> c < |r.lists|
  {
    hide NoDup;
  }

  lemma FinishKeepsQueues(s: Sys, t: nat)
    requires QueuesOk(s) && Enabled(s, Finish(t))
    ensures QueuesOk(DoFinish(s, t))
  {
    hide RemoveFirst;
  }

  lemma FinishKeepsList(s: Sys, t: nat, c: nat)
    requires Inv(s) && Enabled(s, Finish(t)) && c < |s.lists|
    ensures ListOk(DoFinish(s, t), c)
  {
    hide NoDup, RemoveFirst, QueuesOk, FrameOk, WaitsApart, OnList, OnOuter;
    assert ListOk(s, c) && TaskOk(s, s.tasks[t]);
    ListsLeft(s.tasks[t]);
    RemovedFirst(s.lists[c], t);
  }

  lemma ResumeKeepsInv(s: Sys, c: nat, chosen: seq<bool>)
    requires Inv(s) && Enabled(s, Resume(c, chosen))
    ensures Inv(DoResume(s, c, chosen))
  {
    hide QueuesOk, TaskOk, ListOk, DoResume;
    ResumeKeepsTasks(s, c, chosen);
    ResumeKeepsQueues(s, c, chosen);
    forall d | 0 <= d < |s.lists|
      ensures ListOk(DoResume(s, c, chosen), d)
    {
      ResumeKeepsList(s, c, chosen, d);
    }
  }

  lemma ResumeKeepsTasks(s: Sys, c: nat, chosen: seq<bool>)
    requires Inv(s) && Enabled(s, Resume(c, chosen))
    ensures var r := DoResume(s, c, chosen);
            |r.lists| == |s.lists| && forall t :: 0 <= t < |r.tasks| ==> TaskOk(r, r.tasks[t])
  {
    hide AfterResume, NoDup, QueuesOk, FrameOk, WaitsApart, ListOk, Resumed;
    var r := DoResume(s, c, chosen);
    forall t | 0 <= t < |r.tasks|
      ensures TaskOk(r, r.tasks[t])
    {
      var k := s.tasks[t];
      assert TaskOk(s, k);
      FramesKept(s, r, k);
      if Resumed(s.tasks, s.lists[c], chosen, c, t) {
        ResumedWaits(s.tasks, s.lists[c], chosen, c, t);
        WokenApart(k, c);
      }
    }
  }

  lemma ResumedWaits(tasks: seq<Task>, list: seq<nat>, chosen: seq<bool>, c: nat, t: nat)
    requires |list| == |chosen| && t < |tasks| && Resumed(tasks, list, chosen, c, t)
    ensures WaitsOn(tasks[t], c)
  {
  }

  /** A task resumed from c leaves the list of c, and stays on those of its other conditions. */
  lemma WokenApart(k: Task, c: nat)
    requires WaitsApart(k) && WaitsOn(k, c)
    ensures WaitsApart(WokenBy(k, Some(c))) && WinnerMakesSense(WokenBy(k, Some(c)))
    ensures forall d: nat :: OnList(WokenBy(k, Some(c)), d) <==> OnList(k, d) && d != c
  {
    var r := WokenBy(k, Some(c));
    assert OnTop(k, c);
    assert forall d: nat :: OnOuter(r, d) <==> OnOuter(k, d);
  }

  lemma ResumeKeepsQueues(s: Sys, c: nat, chosen: seq<bool>)
    requires Inv(s) && Enabled(s, Resume(c, chosen))
    ensures QueuesOk(DoResume(s, c, chosen))
  {
    hide AfterResume, NoDup, ListOk, TaskOk;
  }

  lemma ResumeKeepsList(s: Sys, c: nat, chosen: seq<bool>, d: nat)
    requires Inv(s) && Enabled(s, Resume(c, chosen)) && d < |s.lists|
    ensures ListOk(DoResume(s, c, chosen), d)
  {
    hide QueuesOk, TaskOk, NoDup, AfterResume, Resumed, OnList;
    assert ListOk(s, c) && ListOk(s, d);
    AfterResumeWhich(s.tasks, s.lists[c], chosen, c);
    OnlyWaitersResumed(s, c, chosen, d);
  }

  /** A task resumed from a condition leaves its list, and stays on those of the others. */
  lemma OnlyWaitersResumed(s: Sys, c: nat, chosen: seq<bool>, d: nat)
    requires Inv(s) && Enabled(s, Resume(c, chosen))
    ensures forall t: nat :: t < |s.tasks| ==>
              (OnList(DoResume(s, c, chosen).tasks[t], d) <==>
                OnList(s.tasks[t], d) && !(d == c && Resumed(s.tasks, s.lists[c], chosen, c, t)))
  {
    hide AfterResume, NoDup, ListOk, QueuesOk, FrameOk, WaitsApart, OnList, Resumed;
    forall t: nat | t < |s.tasks|
      ensures OnList(DoResume(s, c, chosen).tasks[t], d) <==>
                OnList(s.tasks[t], d) && !(d == c && Resumed(s.tasks, s.lists[c], chosen, c, t))
    {
      if Resumed(s.tasks, s.lists[c], chosen, c, t) {
        assert TaskOk(s, s.tasks[t]);
        ResumedWaits(s.tasks, s.lists[c], chosen, c, t);
        WokenApart(s.tasks[t], c);
      }
    }
  }

  /** Who is made ready: of the entries selected, the tasks that are suspended or about to be, and wait on this
      condition, each once and with the condition as its waker. Nothing happens to any other task. */
  lemma WhoIsResumed(s: Sys, c: nat, chosen: seq<bool>, i: nat)
    requires Inv(s) && Enabled(s, Resume(c, chosen)) && i < |s.lists[c]|
    ensures var t, r := s.lists[c][i], DoResume(s, c, chosen);
            && t < |s.tasks| == |r.tasks|
            && var k := s.tasks[t];
               r.tasks[t] == if chosen[i] && (k.phase == Blocking || k.phase == Asleep) && c in k.conds
                             then k.(phase := Woken(Some(c)), wakeups := k.wakeups + 1) else k
    ensures forall u :: 0 <= u < |s.tasks| && u !in s.lists[c] ==> DoResume(s, c, chosen).tasks[u] == s.tasks[u]
  {
    hide AfterResume, QueuesOk, TaskOk;
    assert ListOk(s, c);
    var t := s.lists[c][i];
    if Resumed(s.tasks, s.lists[c], chosen, c, t) {
      var j :| 0 <= j < |s.lists[c]| && s.lists[c][j] == t && chosen[j];
      assert j == i;
    }
  }

  /** A timeout makes a sleeping task ready without a waker, and off the sleep list. */
  lemma WhoTimesOut(s: Sys, t: nat)
    requires Inv(s) && Enabled(s, Timeout(t))
    ensures var k, r := s.tasks[t], DoTimeout(s, t);
            && k.phase == Asleep && k.timed && r.lists == s.lists
            && r.tasks == s.tasks[t := k.(phase := Woken(None), wakeups := k.wakeups + 1)]
            && r.sleeping[t] == 0 && r.ready[t] == 1
  {
    TimeoutKeepsInv(s, t);
    hide ListOk, TaskOk;
  }

  lemma StepKeepsInv(s: Sys, step: Step)
    requires Inv(s) && Enabled(s, step)
    ensures Inv(Apply(s, step))
  {
    hide Inv, DoEnlist, DoBlock, SetPhase, DoResume, DoTimeout, DoDispatch, DoLeaveSleep, DoFinish;
    match step
    case Enlist(t, conds, timed) => EnlistKeepsInv(s, t, conds, timed);
    case Block(t) => BlockKeepsInv(s, t);
    case SwitchOut(t) => SwitchOutKeepsInv(s, t);
    case Resume(c, chosen) => ResumeKeepsInv(s, c, chosen);
    case Timeout(t) => TimeoutKeepsInv(s, t);
    case Dispatch(t) => DispatchKeepsInv(s, t);
    case LeaveSleep(t) => LeaveSleepKeepsInv(s, t);
    case Finish(t) => FinishKeepsInv(s, t);
  }

  /** The removals of condition.c:156 and 191 and sleep.c:129 find what they remove. */
  lemma AssertionsNeverFire(s: Sys, step: Step)
    requires Inv(s) && Enabled(s, step)
    ensures AssertionsHold(s, step)
  {
    match step
    case Finish(t) =>
      assert TaskOk(s, s.tasks[t]);
      forall c | c in s.tasks[t].conds && ToRemove(s.tasks[t], c)
        ensures c < |s.lists| && t in s.lists[c]
      {
        assert ListOk(s, c);
      }
    case LeaveSleep(t) =>
      assert TaskOk(s, s.tasks[t]);
    case _ =>
  }

  /** No wait gets stuck: in every phase but that of a sleeper without a timeout the task has its next step, which the
      lists allow; and a release may come at any time, whatever entries it selects. */
  lemma GoesOnFrom(s: Sys, t: nat)
    requires Inv(s) && t < |s.tasks|
    ensures match s.tasks[t].phase
            case Free => forall timed :: Enabled(s, Enlist(t, [], timed))
            case Enlisted => Enabled(s, Block(t))
            case Blocking => Enabled(s, SwitchOut(t))
            case Asleep => s.tasks[t].timed ==> Enabled(s, Timeout(t))
            case Woken(_) => Enabled(s, Dispatch(t))
            case Running(_) => Enabled(s, LeaveSleep(t))
            case Leaving(_) => Enabled(s, Finish(t))
    ensures s.tasks[t].phase.Free? || s.tasks[t].phase.Leaving? ==>
              forall c, timed :: 0 <= c < |s.lists| && t !in s.lists[c] ==> Enabled(s, Enlist(t, [c], timed))
    ensures forall c, chosen {:trigger Enabled(s, Resume(c, chosen))} ::
              0 <= c < |s.lists| && |chosen| == |s.lists[c]| ==> Enabled(s, Resume(c, chosen))
  {
    hide TaskOk, NoDup;
    assert NoDup([]) && forall c :: NoDup([c]) by { OneApart(); }
    forall c, chosen {:trigger Enabled(s, Resume(c, chosen))} | 0 <= c < |s.lists| && |chosen| == |s.lists[c]|
      ensures Enabled(s, Resume(c, chosen))
    {
      assert ListOk(s, c);
      assert forall i :: 0 <= i < |s.lists[c]| ==> s.lists[c][i] in s.lists[c];
    }
  }

  lemma OneApart()
    ensures NoDup([]) && forall c {:trigger [c]} :: NoDup([c])
  {
  }

  ghost predicate Run(trace: seq<Sys>, steps: seq<Step>) {
    && |trace| == |steps| + 1 && Init(trace[0])
    && forall i :: 0 <= i < |steps| ==> Enabled(trace[i], steps[i]) && trace[i + 1] == Apply(trace[i], steps[i])
  }

  /** In every run, whatever the interleaving, the invariant holds throughout and no assertion fires. */
  lemma {:induction false} RunsAreSafe(trace: seq<Sys>, steps: seq<Step>, i: nat)
    requires Run(trace, steps) && i < |trace|
    ensures Inv(trace[i])
    ensures i < |steps| ==> AssertionsHold(trace[i], steps[i])
  {
    hide Inv, Init, Apply, AssertionsHold;
    if i == 0 {
      InitInv(trace[0]);
    } else {
      RunsAreSafe(trace, steps, i - 1);
      StepKeepsInv(trace[i - 1], steps[i - 1]);
    }
    if i < |steps| {
      AssertionsNeverFire(trace[i], steps[i]);
    }
  }

  ghost predicate Reaches(s: Sys, steps: seq<Step>, r: Sys)
    decreases |steps|
  {
    if steps == [] then s == r
    else Enabled(s, steps[0]) && Reaches(Apply(s, steps[0]), steps[1..], r)
  }

  lemma OneStep(s: Sys, a: Step, r: Sys)
    requires Enabled(s, a) && Apply(s, a) == r
    ensures Reaches(s, [a], r)
  {
    assert [a][1..] == [];
  }

  lemma FirstStep(s: Sys, a: Step, rest: seq<Step>, r: Sys)
    requires Enabled(s, a) && Reaches(Apply(s, a), rest, r)
    ensures Reaches(s, [a] + rest, r)
  {
    assert ([a] + rest)[1..] == rest;
  }

  lemma ThreeSteps(s: Sys, a: Step, b: Step, c: Step, r: Sys)
    requires Enabled(s, a) && Enabled(Apply(s, a), b) && Enabled(Apply(Apply(s, a), b), c)
    requires Apply(Apply(Apply(s, a), b), c) == r
    ensures Reaches(s, [a, b, c], r)
  {
    hide Enabled, Apply;
    OneStep(Apply(Apply(s, a), b), c, r);
    FirstStep(Apply(s, a), b, [c], r);
    FirstStep(s, a, [b, c], r);
    assert [b] + [c] == [b, c] && [a] + [b, c] == [a, b, c];
  }

  lemma {:induction false} ReachesTrans(s: Sys, steps: seq<Step>, m: Sys, more: seq<Step>, r: Sys)
    requires Reaches(s, steps, m) && Reaches(m, more, r)
    ensures Reaches(s, steps + more, r)
    decreases |steps|
  {
    hide Apply, Enabled;
    if steps == [] {
      assert steps + more == more;
    } else {
      assert (steps + more)[1..] == steps[1..] + more;
      ReachesTrans(Apply(s, steps[0]), steps[1..], m, more, r);
    }
  }

  lemma {:induction false} ReachesInv(s: Sys, steps: seq<Step>, r: Sys)
    requires Inv(s) && Reaches(s, steps, r)
    ensures Inv(r)
    decreases |steps|
  {
    hide Inv, Apply, Enabled;
    if steps != [] {
      StepKeepsInv(s, steps[0]);
      ReachesInv(Apply(s, steps[0]), steps[1..], r);
    }
  }

  /** A task has been made ready once for each time it was suspended, and not at all for a suspension still going on;
      and it is never on the ready list twice. */
  lemma ReadyOncePerSuspension(trace: seq<Sys>, steps: seq<Step>, i: nat, t: nat)
    requires Run(trace, steps) && i < |trace| && t < |trace[i].tasks|
    ensures var k := trace[i].tasks[t]; k.wakeups == k.suspensions - if IsSuspended(k.phase) then 1 else 0
    ensures trace[i].ready[t] == if trace[i].tasks[t].phase.Woken? then 1 else 0
  {
    RunsAreSafe(trace, steps, i);
    assert TaskOk(trace[i], trace[i].tasks[t]);
  }

  predicate HasWinner(p: Phase, w: Option<nat>) {
    match p
    case Woken(v) => v == w
    case Running(v) => v == w
    case Leaving(v) => v == w
    case _ => false
  }

  /** Wait number d of the task, counted from the outermost, has been ended by w. */
  predicate EndedBy(k: Task, d: nat, w: Option<nat>) {
    if d < |k.outer| then k.outer[d].winner == w else d == |k.outer| && HasWinner(k.phase, w)
  }

  lemma WinnerStaysResume(s: Sys, c: nat, chosen: seq<bool>, t: nat, d: nat, w: Option<nat>)
    requires Enabled(s, Resume(c, chosen)) && t < |s.tasks| && EndedBy(s.tasks[t], d, w)
    ensures t < |DoResume(s, c, chosen).tasks| && EndedBy(DoResume(s, c, chosen).tasks[t], d, w)
  {
    hide AfterResume, Resumed;
    if Resumed(s.tasks, s.lists[c], chosen, c, t) {
      ResumedWaits(s.tasks, s.lists[c], chosen, c, t);
    }
  }

  /** Once a task has been resumed, whoever did it stays the winner until that wait is over, through all the waits for
      condition locks in between. */
  lemma WinnerStays(s: Sys, step: Step, t: nat, d: nat, w: Option<nat>)
    requires Enabled(s, step) && t < |s.tasks| && EndedBy(s.tasks[t], d, w)
    requires s.tasks[t].phase.Free? ==> s.tasks[t].outer == []
    ensures t < |Apply(s, step).tasks|
    ensures EndedBy(Apply(s, step).tasks[t], d, w) || (step == Finish(t) && d == |s.tasks[t].outer|)
  {
    if step.Resume? {
      hide DoResume, EndedBy;
      WinnerStaysResume(s, step.c, step.chosen, t, d, w);
    } else if step.t != t {
      hide Enabled, EndedBy, Apply;
      OthersStay(s, step, t);
    } else {
      hide NoDup, RemoveFirst, DoResume;
    }
  }

  /** A step of one task leaves the others alone. */
  lemma OthersStay(s: Sys, step: Step, t: nat)
    requires Enabled(s, step) && !step.Resume? && step.t != t && t < |s.tasks|
    ensures t < |Apply(s, step).tasks| && Apply(s, step).tasks[t] == s.tasks[t]
  {
    hide NoDup, RemoveFirst, DoResume;
  }

  /** When a wait is over its task is on the suspend list of none of its conditions, not on the sleep list and not on
      the ready list; the lists it is still on are those of the waits around it. */
  lemma NothingLeftBehind(s: Sys, t: nat)
    requires Inv(s) && Enabled(s, Finish(t))
    ensures var k, r := s.tasks[t], DoFinish(s, t);
            && t !in r.sleeping && t !in r.ready
            && (forall c :: 0 <= c < |r.lists| ==> (t in r.lists[c] <==> OnOuter(k, c)))
            && (forall c :: c in k.conds && c < |r.lists| ==> t !in r.lists[c])
            && (k.outer == [] ==> forall c :: 0 <= c < |r.lists| ==> t !in r.lists[c])
  {
    FinishKeepsInv(s, t);
    hide NoDup, RemoveFirst, OnOuter, OnList, FrameOk;
    var k, r := s.tasks[t], DoFinish(s, t);
    assert TaskOk(s, k);
    ListsLeft(k);
    assert k.outer == [] ==> forall c: nat :: !OnOuter(k, c) by { NoOuter(k); }
    forall c | 0 <= c < |r.lists|
      ensures t in r.lists[c] <==> OnOuter(k, c)
    {
      assert ListOk(r, c);
    }
  }

  lemma NoOuter(k: Task)
    ensures k.outer == [] ==> forall c: nat :: !OnOuter(k, c)
  {
  }

  /** What the second half of the test in resume_condition (suspend_is_task_waiting) decides. A suspended task found on
      the list of a condition is not waiting on it exactly when it is there on account of an outer wait, while it waits
      for a condition lock. */
  lemma SecondHalfDecides(s: Sys, c: nat, t: nat)
    requires Inv(s) && c < |s.lists| && t in s.lists[c]
    ensures t < |s.tasks| && (IsSuspended(s.tasks[t].phase) ==> (!WaitsOn(s.tasks[t], c) <==> OnOuter(s.tasks[t], c)))
  {
    hide QueuesOk, NoDup, FrameOk, OnOuter;
    assert ListOk(s, c) && TaskOk(s, s.tasks[t]);
  }

  /** Task t made ready from the list of c, whatever it waits for. */
  ghost function MadeReady(s: Sys, c: nat, t: nat): Sys
    requires c < |s.lists| && t < |s.tasks|
  {
    s.(tasks := s.tasks[t := WokenBy(s.tasks[t], Some(c))],
       lists := s.lists[c := RemoveFirst(s.lists[c], t)],
       ready := s.ready + multiset{t})
  }

  /** The first half of the test is not enough: making a suspended task on the list of c ready keeps the invariant if
      and only if it waits on c. */
  lemma SecondHalfNeeded(s: Sys, c: nat, t: nat)
    requires Inv(s) && c < |s.lists| && t in s.lists[c] && t < |s.tasks| && IsSuspended(s.tasks[t].phase)
    ensures Inv(MadeReady(s, c, t)) <==> WaitsOn(s.tasks[t], c)
  {
    var k, r := s.tasks[t], MadeReady(s, c, t);
    hide QueuesOk, NoDup, FrameOk, OnOuter, OnList, RemoveFirst, WaitsApart;
    assert ListOk(s, c) && TaskOk(s, k);
    RemovedFirst(s.lists[c], t);
    if WaitsOn(k, c) {
      MadeReadyInv(s, c, t);
    } else {
      SecondHalfDecides(s, c, t);
      SameOuter(k, WokenBy(k, Some(c)), c);
      assert !ListOk(r, c);
    }
  }

  lemma SameOuter(k: Task, k': Task, c: nat)
    requires k'.outer == k.outer
    ensures OnOuter(k', c) <==> OnOuter(k, c)
    ensures OnOuter(k', c) ==> OnList(k', c)
  {
  }

  lemma MadeReadyInv(s: Sys, c: nat, t: nat)
    requires Inv(s) && c < |s.lists| && t in s.lists[c] && t < |s.tasks| && WaitsOn(s.tasks[t], c)
    ensures Inv(MadeReady(s, c, t))
  {
    var k, r := s.tasks[t], MadeReady(s, c, t);
    hide NoDup, FrameOk, OnOuter, OnList, RemoveFirst, WaitsApart;
    MadeReadyQueues(s, c, t);
    hide QueuesOk;
    assert TaskOk(s, k);
    WokenApart(k, c);
    forall u | 0 <= u < |r.tasks|
      ensures TaskOk(r, r.tasks[u])
    {
      assert TaskOk(s, s.tasks[u]);
      FramesKept(s, r, s.tasks[u]);
    }
    forall d | 0 <= d < |r.lists|
      ensures ListOk(r, d)
    {
      assert ListOk(s, d) && ListOk(s, c);
      RemovedFirst(s.lists[c], t);
    }
  }

  lemma MadeReadyQueues(s: Sys, c: nat, t: nat)
    requires QueuesOk(s) && c < |s.lists| && t < |s.tasks| && WaitsOn(s.tasks[t], c)
    ensures QueuesOk(MadeReady(s, c, t))
  {
    hide RemoveFirst;
  }

  function Waiter(p: Phase, conds: seq<nat>, outer: seq<Frame>, suspensions: nat, wakeups: nat): Task {
    Task(p, conds, false, outer, suspensions, wakeups)
  }

  /** A task that waited on conditions 0 and 1, was resumed by 1, and is suspended on condition 2, that of a lock. */
  const LOCK_WAIT :=
    Sys([Waiter(Asleep, [2], [Frame([0, 1], false, Some(1))], 2, 1)], [[0], [], [0]], multiset{}, multiset{})

  const NOT_WAITING := Alone(Waiter(Free, [], [], 0, 0), [[], [], []], multiset{})
  const FIRST_WAIT := Alone(Waiter(Asleep, [0, 1], [], 1, 0), [[0], [0], []], multiset{})
  const TAKING_LOCKS := Alone(Waiter(Leaving(Some(1)), [0, 1], [], 1, 1), [[0], [], []], multiset{})

  /** It comes to that. */
  lemma LockWaitHappens() returns (steps: seq<Step>)
    ensures Init(NOT_WAITING) && Reaches(NOT_WAITING, steps, LOCK_WAIT)
  {
    StartsFirstWait();
    ResumedByOne();
    StartsLockWait();
    hide Reaches, Apply, Enabled, NOT_WAITING, FIRST_WAIT, TAKING_LOCKS, LOCK_WAIT, ToSleep;
    var a, b, c := ToSleep([0, 1]), [Resume(1, [true]), Dispatch(0), LeaveSleep(0)], ToSleep([2]);
    ReachesTrans(FIRST_WAIT, b, TAKING_LOCKS, c, LOCK_WAIT);
    ReachesTrans(NOT_WAITING, a, FIRST_WAIT, b + c, LOCK_WAIT);
    steps := a + (b + c);
  }

  lemma StartsFirstWait()
    ensures Reaches(NOT_WAITING, ToSleep([0, 1]), FIRST_WAIT) && Init(NOT_WAITING)
  {
    hide Reaches, ToSleep;
    FallsAsleep(NOT_WAITING, [0, 1], FIRST_WAIT);
  }

  lemma StartsLockWait()
    ensures Reaches(TAKING_LOCKS, ToSleep([2]), LOCK_WAIT)
  {
    hide Reaches, ToSleep;
    var f := Frame([0, 1], false, Some(1));
    assert [] + [f] == [f];
    FallsAsleep(TAKING_LOCKS, [2], LOCK_WAIT);
  }

  function ToSleep(conds: seq<nat>): seq<Step> {
    [Enlist(0, conds, false), Block(0), SwitchOut(0)]
  }

  lemma FallsAsleep(s: Sys, conds: seq<nat>, r: Sys)
    requires |s.tasks| == 1 && MayWait(s, 0, conds)
    requires var k := s.tasks[0];
             && r.tasks == [Task(Asleep, conds, false, Around(k), k.suspensions + 1, k.wakeups)]
             && r.sleeping == s.sleeping && r.ready == s.ready && |r.lists| == |s.lists|
    requires forall c :: 0 <= c < |s.lists| ==> r.lists[c] == if c in conds then s.lists[c] + [0] else s.lists[c]
    ensures Reaches(s, ToSleep(conds), r)
  {
    hide NoDup;
    var a := DoEnlist(s, 0, conds, false);
    assert a.lists == r.lists && |a.tasks| == 1;
    assert SetPhase(DoBlock(a, 0), 0, Asleep) == r;
    ThreeSteps(s, Enlist(0, conds, false), Block(0), SwitchOut(0), r);
  }

  lemma ResumedByOne()
    ensures Reaches(FIRST_WAIT, [Resume(1, [true]), Dispatch(0), LeaveSleep(0)], TAKING_LOCKS)
  {
    ResumesTheOnlyOne();
    hide DoResume;
    ThreeSteps(FIRST_WAIT, Resume(1, [true]), Dispatch(0), LeaveSleep(0), TAKING_LOCKS);
  }

  function Alone(k: Task, lists: seq<seq<nat>>, ready: multiset<nat>): Sys {
    Sys([k], lists, multiset{}, ready)
  }

  lemma ResumesTheOnlyOne()
    ensures DoResume(FIRST_WAIT, 1, [true]) ==
              Alone(Waiter(Woken(Some(1)), [0, 1], [], 1, 1), [[0], [], []], multiset{0})
  {
    var s := FIRST_WAIT;
    assert WaitsOn(s.tasks[0], 1) && Resumed(s.tasks, [0], [true], 1, 0) by { assert [0][0] == 0 && [true][0]; }
    assert ResumedSet(s, 1, [true]) == {0};
    assert [0][1..] == [] && [true][1..] == [];
    assert AfterResume(s.tasks, [0], [true], 1) == [];
  }

  /** A release of condition 0 spares it. */
  lemma ReleaseSparesIt()
    ensures DoResume(LOCK_WAIT, 0, [true]) == LOCK_WAIT
  {
    var s := LOCK_WAIT;
    assert !WaitsOn(s.tasks[0], 0);
    assert [0][1..] == [] && [true][1..] == [];
    assert AfterResume(s.tasks, [0], [true], 0) == [0];
    assert ResumedSet(s, 0, [true]) == {};
  }

  /** Without the second half of the test the release would make it ready, and at the end of its first wait the
      assertion of condition.c:191 would fire. */
  lemma WithoutSecondHalf() returns (end: Sys)
    ensures Reaches(MadeReady(LOCK_WAIT, 0, 0), [Dispatch(0), LeaveSleep(0), Finish(0)], end)
    ensures Enabled(end, Finish(0)) && !AssertionsHold(end, Finish(0))
  {
    var a := Alone(Waiter(Woken(Some(0)), [2], [Frame([0, 1], false, Some(1))], 2, 2), [[], [], [0]], multiset{0});
    end := Alone(Waiter(Leaving(Some(1)), [0, 1], [], 2, 2), [[], [], []], multiset{});
    assert [0][1..] == [] && MadeReady(LOCK_WAIT, 0, 0) == a;
    var b := Alone(a.tasks[0].(phase := Leaving(Some(0))), a.lists, multiset{});
    assert AfterWait(b.tasks[0]) == end.tasks[0] && DoFinish(b, 0) == end;
    hide DoFinish, MadeReady;
    ThreeSteps(a, Dispatch(0), LeaveSleep(0), Finish(0), end);
    assert 0 in end.tasks[0].conds && ToRemove(end.tasks[0], 0) && 0 !in end.lists[0];
  }

  // ---------------------------------------------------------------- the loop of resume_condition

  /** Each entry is selected until the budget is used up; without one, every entry is. */
  function Selected(n: nat, budget: Option<nat>): (r: seq<bool>)
    ensures |r| == n
  {
    seq(n, i requires 0 <= i < n => budget.None? || i < budget.value)
  }

  function NotWoken(tasks: seq<Task>, list: seq<nat>, c: nat): (r: seq<nat>)
    requires forall i :: 0 <= i < |list| ==> list[i] < |tasks|
  {
    if list == [] then []
    else (if WaitsOn(tasks[list[0]], c) then [] else [list[0]]) + NotWoken(tasks, list[1..], c)
  }

  lemma {:induction false} KeptOfBudget(tasks: seq<Task>, list: seq<nat>, chosen: seq<bool>, c: nat, k: nat)
    requires |chosen| == |list| && k <= |list| && (forall i :: 0 <= i < |list| ==> list[i] < |tasks|)
    requires forall i :: 0 <= i < |list| ==> (chosen[i] <==> i < k)
    ensures Kept(tasks, list, chosen, c, true) == NotWoken(tasks, list[..k], c) &&
            Kept(tasks, list, chosen, c, false) == list[k..]
  {
    if list != [] {
      assert forall i :: 0 <= i < |list| - 1 ==> (chosen[1..][i] <==> i + 1 < k);
      if k > 0 {
        assert list[..k][1..] == list[1..][..k - 1] && list[k..] == list[1..][k - 1..];
        KeptOfBudget(tasks, list[1..], chosen[1..], c, k - 1);
      } else {
        KeptOfBudget(tasks, list[1..], chosen[1..], c, 0);
      }
    }
  }

  /** resume_condition, whatever do_resume answers for each entry (without do_resume every entry is selected): the
      loop takes the selected entries off the list, resumes the suspended tasks, keeps the others aside and puts
      them back in front at the end. */
  method ResumeCondition(list: seq<nat>, tasks: array<Task>, c: nat, chosen: seq<bool>) returns (rest: seq<nat>)
    requires NoDup(list) && |chosen| == |list| && forall i :: 0 <= i < |list| ==> list[i] < tasks.Length
    modifies tasks
    ensures rest == AfterResume(old(tasks[..]), list, chosen, c)
    ensures tasks[..] == AllResumed(old(tasks[..]), list, chosen, c)
  {
    hide Kept, NoDup, Backwards, AllResumed;
    var tmp;
    rest, tmp := TakeOff(list, tasks, c, chosen);
    rest := PutBack(tmp, rest);
  }

  /** The first loop: search for an entry do_resume selects and take it off, resume its task or push it on a stack. */
  method TakeOff(list: seq<nat>, tasks: array<Task>, c: nat, chosen: seq<bool>) returns (rest: seq<nat>, tmp: seq<nat>)
    requires NoDup(list) && |chosen| == |list| && forall i :: 0 <= i < |list| ==> list[i] < tasks.Length
    modifies tasks
    ensures rest == Kept(old(tasks[..]), list, chosen, c, false) &&
            Backwards(tmp) == Kept(old(tasks[..]), list, chosen, c, true)
    ensures tasks[..] == AllResumed(old(tasks[..]), list, chosen, c)
  {
    hide Kept, Backwards, AllResumed, AfterOne, NoDup, Dealt, IsSuspended, WokenBy;
    ghost var was, m := tasks[..], 0;
    tmp, rest := [], list;
    var marks := chosen;
    NothingYet(was, list, chosen, c);
    while true
      invariant m <= |list| && Dealt(was, list, chosen, m, rest, marks, tmp, tasks[..], c)
      decreases |list| - m
    {
      var k := Search(marks);
      if k == |marks| {
        AllDealt(was, list, chosen, m, rest, marks, tmp, tasks[..], c);
        return;
      }
      m := OneDealt(was, list, chosen, m, rest, marks, tmp, tasks[..], c, k);
      var x := rest[k];
      rest, marks := rest[..k] + rest[k + 1..], marks[..k] + marks[k + 1..];
      var resumed := ResumeTask(tasks, x, c);
      if !resumed {
        tmp := [x] + tmp;
      }
    }
  }

  /** The first m entries have been dealt with, and the tasks among them resumed. */
  ghost predicate Dealt(was: seq<Task>, list: seq<nat>, chosen: seq<bool>, m: nat, rest: seq<nat>, marks: seq<bool>,
                        tmp: seq<nat>, now: seq<Task>, c: nat)
    requires |list| == |chosen| && m <= |list| && forall i :: 0 <= i < |list| ==> list[i] < |was|
    ensures Dealt(was, list, chosen, m, rest, marks, tmp, now, c) ==> |marks| == |rest|
  {
    Searched(was, list, chosen, c, m, rest, marks, tmp) && now == AllResumed(was, list[..m], chosen[..m], c)
  }

  lemma NothingYet(was: seq<Task>, list: seq<nat>, chosen: seq<bool>, c: nat)
    requires |list| == |chosen| && forall i :: 0 <= i < |list| ==> list[i] < |was|
    ensures Dealt(was, list, chosen, 0, list, chosen, [], was, c)
  {
  }

  lemma OneDealt(was: seq<Task>, list: seq<nat>, chosen: seq<bool>, m: nat, rest: seq<nat>, marks: seq<bool>,
                 tmp: seq<nat>, now: seq<Task>, c: nat, k: nat)
    returns (next: nat)
    requires NoDup(list) && |list| == |chosen| && m <= |list| && forall i :: 0 <= i < |list| ==> list[i] < |was|
    requires Dealt(was, list, chosen, m, rest, marks, tmp, now, c)
    requires k < |marks| && marks[k] && forall i :: 0 <= i < k ==> !marks[i]
    ensures m < next <= |list| && rest[k] < |now| == |was|
    ensures Dealt(was, list, chosen, next, rest[..k] + rest[k + 1..], marks[..k] + marks[k + 1..],
                  if WaitsOn(now[rest[k]], c) then tmp else [rest[k]] + tmp, AfterOne(now, rest[k], c), c)
  {
    hide Kept, Backwards, AllResumed, AfterOne, NoDup, Searched, IsSuspended, WokenBy;
    var q := FoundAt(was, list, chosen, c, m, rest, marks, tmp, k);
    ResumedStep(was, list, chosen, m, q, c);
    StillSearched(was, list, chosen, c, m, rest, marks, tmp, k);
    next := q + 1;
  }

  lemma AllDealt(was: seq<Task>, list: seq<nat>, chosen: seq<bool>, m: nat, rest: seq<nat>, marks: seq<bool>,
                 tmp: seq<nat>, now: seq<Task>, c: nat)
    requires |list| == |chosen| && m <= |list| && forall i :: 0 <= i < |list| ==> list[i] < |was|
    requires Dealt(was, list, chosen, m, rest, marks, tmp, now, c) && forall i :: 0 <= i < |marks| ==> !marks[i]
    ensures rest == Kept(was, list, chosen, c, false) && Backwards(tmp) == Kept(was, list, chosen, c, true)
    ensures now == AllResumed(was, list, chosen, c)
  {
    hide Kept, Backwards, AllResumed, Searched;
    SearchedAll(was, list, chosen, c, m, rest, marks, tmp);
    AllTaken(was, list, chosen, m, c);
  }

  /** The tasks after the entry of task x has been dealt with. */
  ghost function AfterOne(tasks: seq<Task>, x: nat, c: nat): (r: seq<Task>)
    requires x < |tasks|
    ensures |r| == |tasks|
  {
    if WaitsOn(tasks[x], c) then tasks[x := WokenBy(tasks[x], Some(c))] else tasks
  }

  /** suspend_is_task_waiting */
  method IsTaskWaiting(conds: seq<nat>, c: nat) returns (waiting: bool)
    ensures waiting <==> c in conds
  {
    waiting := false;
    for n := 0 to |conds|
      invariant !waiting && c !in conds[..n]
    {
      if conds[n] == c {
        return true;
      }
      assert conds[..n + 1] == conds[..n] + [conds[n]];
    }
    assert conds[..|conds|] == conds;
  }

  /** A task that is suspended on c, or in the process of suspending on it, is made ready. */
  method ResumeTask(tasks: array<Task>, x: nat, c: nat) returns (resumed: bool)
    requires x < tasks.Length
    modifies tasks
    ensures resumed == WaitsOn(old(tasks[..])[x], c)
    ensures tasks[..] == AfterOne(old(tasks[..]), x, c)
  {
    resumed := IsSuspended(tasks[x].phase);
    if resumed {
      resumed := IsTaskWaiting(tasks[x].conds, c);
    }
    if resumed {
      tasks[x] := WokenBy(tasks[x], Some(c));
    }
  }

  /** sll_search: the first entry that is selected. */
  method Search(marks: seq<bool>) returns (k: nat)
    ensures k <= |marks| && (k < |marks| ==> marks[k]) && forall i :: 0 <= i < k ==> !marks[i]
  {
    k := 0;
    while k < |marks| && !marks[k]
      invariant k <= |marks| && forall i :: 0 <= i < k ==> !marks[i]
    {
      k := k + 1;
    }
  }

  /** The first m entries have been dealt with: those of them that are left were not selected, those on the stack were
      selected but not suspended, and the entries behind are as they were. */
  ghost predicate Searched(was: seq<Task>, list: seq<nat>, chosen: seq<bool>, c: nat, m: nat,
                           rest: seq<nat>, marks: seq<bool>, tmp: seq<nat>)
    requires |list| == |chosen| && m <= |list| && forall i :: 0 <= i < |list| ==> list[i] < |was|
  {
    var left := Kept(was, list[..m], chosen[..m], c, false);
    && rest == left + list[m..] && |marks| == |rest|
    && (forall i :: 0 <= i < |left| ==> !marks[i]) && marks[|left|..] == chosen[m..]
    && Backwards(tmp) == Kept(was, list[..m], chosen[..m], c, true)
  }

  /** The tasks after the entries of the list have been dealt with. */
  ghost function AllResumed(was: seq<Task>, list: seq<nat>, chosen: seq<bool>, c: nat): (r: seq<Task>)
    requires |list| == |chosen|
    ensures |r| == |was|
  {
    seq(|was|, t requires 0 <= t < |was| =>
          if Resumed(was, list, chosen, c, t) then WokenBy(was[t], Some(c)) else was[t])
  }

  /** The second loop: pop the stack and push on the head of the list. */
  method PutBack(stack: seq<nat>, list: seq<nat>) returns (rest: seq<nat>)
    ensures rest == Backwards(stack) + list
  {
    rest := list;
    var tmp := stack;
    while tmp != []
      invariant Backwards(tmp) + rest == Backwards(stack) + list
      decreases |tmp|
    {
      BackwardsStep(tmp, rest);
      rest := [tmp[0]] + rest;
      tmp := tmp[1..];
    }
    assert Backwards(tmp) + rest == rest;
  }

  lemma KeptFirst(was: seq<Task>, list: seq<nat>, chosen: seq<bool>, c: nat, back: bool)
    requires list != [] && |list| == |chosen| && forall i :: 0 <= i < |list| ==> list[i] < |was|
    ensures Kept(was, list, chosen, c, back)
         == (if (if back then chosen[0] && !WaitsOn(was[list[0]], c) else !chosen[0]) then [list[0]] else [])
            + Kept(was, list[1..], chosen[1..], c, back)
  {
  }

  lemma {:induction false} KeptSum(was: seq<Task>, a: seq<nat>, b: seq<nat>, ca: seq<bool>, cb: seq<bool>, c: nat,
      back: bool)
    requires |a| == |ca| && |b| == |cb|
    requires (forall i :: 0 <= i < |a| ==> a[i] < |was|) && forall i :: 0 <= i < |b| ==> b[i] < |was|
    ensures Kept(was, a + b, ca + cb, c, back) == Kept(was, a, ca, c, back) + Kept(was, b, cb, c, back)
  {
    if a == [] {
      NothingPlus(b);
      NothingPlus(cb);
      NothingPlus(Kept(was, b, cb, c, back));
    } else {
      RestOfSum(a, b);
      RestOfSum(ca, cb);
      KeptFirst(was, a, ca, c, back);
      KeptFirst(was, a + b, ca + cb, c, back);
      hide Kept, WaitsOn;
      KeptSum(was, a[1..], b, ca[1..], cb, c, back);
    }
  }

  lemma NothingPlus<T>(b: seq<T>)
    ensures [] + b == b
  {
  }

  lemma RestOfSum<T>(a: seq<T>, b: seq<T>)
    requires a != []
    ensures (a + b)[0] == a[0] && (a + b)[1..] == a[1..] + b
  {
  }

  /** Entries none of which is selected. */
  lemma {:induction false} KeptNone(was: seq<Task>, list: seq<nat>, chosen: seq<bool>, c: nat)
    requires |list| == |chosen| && (forall i :: 0 <= i < |list| ==> list[i] < |was|) &&
             forall i :: 0 <= i < |list| ==> !chosen[i]
    ensures Kept(was, list, chosen, c, false) == list && Kept(was, list, chosen, c, true) == []
  {
    if list != [] {
      KeptNone(was, list[1..], chosen[1..], c);
    }
  }

  /** Where in the whole list the entry found lies; those between were not selected. */
  ghost function FoundAt(was: seq<Task>, list: seq<nat>, chosen: seq<bool>, c: nat, m: nat, rest: seq<nat>,
      marks: seq<bool>, tmp: seq<nat>, k: nat): (q: nat)
    requires |list| == |chosen| && m <= |list| && forall i :: 0 <= i < |list| ==> list[i] < |was|
    requires Searched(was, list, chosen, c, m, rest, marks, tmp) && k < |marks| && marks[k] &&
             forall i :: 0 <= i < k ==> !marks[i]
    ensures m <= q < |list| && chosen[q] && list[q] == rest[k] && forall i :: m <= i < q ==> !chosen[i]
  {
    var n := |Kept(was, list[..m], chosen[..m], c, false)|;
    assert forall j :: 0 <= j < |chosen[m..]| ==> marks[n + j] == marks[n..][j] == chosen[m..][j] == chosen[m + j];
    assert forall i :: m <= i < m + k - n ==> chosen[i] == chosen[m..][i - m];
    m + k - n
  }

  /** Dealing with entry q, when the entries from m on before it are not selected. */
  lemma StepBack(was: seq<Task>, list: seq<nat>, chosen: seq<bool>, c: nat, m: nat, q: nat)
    requires |list| == |chosen| && forall i :: 0 <= i < |list| ==> list[i] < |was|
    requires m <= q < |list| && chosen[q] && forall i :: m <= i < q ==> !chosen[i]
    ensures Kept(was, list[..q + 1], chosen[..q + 1], c, true)
         == Kept(was, list[..m], chosen[..m], c, true) + if WaitsOn(was[list[q]], c) then [] else [list[q]]
  {
    hide Kept;
    KeptNone(was, list[m..q], chosen[m..q], c);
    KeptOne(was, list[q], c);
    ThreeParts(was, list, chosen, c, m, q, true);
    WithNothing(Kept(was, [list[q]], [true], c, true));
  }

  lemma StepLeft(was: seq<Task>, list: seq<nat>, chosen: seq<bool>, c: nat, m: nat, q: nat)
    requires |list| == |chosen| && forall i :: 0 <= i < |list| ==> list[i] < |was|
    requires m <= q < |list| && chosen[q] && forall i :: m <= i < q ==> !chosen[i]
    ensures Kept(was, list[..q + 1], chosen[..q + 1], c, false)
         == Kept(was, list[..m], chosen[..m], c, false) + list[m..q]
  {
    hide Kept;
    KeptNone(was, list[m..q], chosen[m..q], c);
    KeptOne(was, list[q], c);
    ThreeParts(was, list, chosen, c, m, q, false);
    WithNothing(list[m..q]);
  }

  lemma WithNothing(s: seq<nat>)
    ensures [] + s == s == s + []
  {
  }

  lemma ThreeParts(was: seq<Task>, list: seq<nat>, chosen: seq<bool>, c: nat, m: nat, q: nat, back: bool)
    requires |list| == |chosen| && m <= q < |list| && chosen[q] && forall i :: 0 <= i < |list| ==> list[i] < |was|
    ensures Kept(was, list[..q + 1], chosen[..q + 1], c, back)
         == Kept(was, list[..m], chosen[..m], c, back) +
           (Kept(was, list[m..q], chosen[m..q], c, back) + Kept(was, [list[q]], [true], c, back))
  {
    hide Kept;
    assert list[..q + 1] == list[..m] + (list[m..q] + [list[q]]);
    assert chosen[..q + 1] == chosen[..m] + (chosen[m..q] + [true]);
    KeptSum(was, list[..m], list[m..q] + [list[q]], chosen[..m], chosen[m..q] + [true], c, back);
    KeptSum(was, list[m..q], [list[q]], chosen[m..q], [true], c, back);
  }

  lemma KeptOne(was: seq<Task>, t: nat, c: nat)
    requires t < |was|
    ensures Kept(was, [t], [true], c, false) == [] &&
            Kept(was, [t], [true], c, true) == if WaitsOn(was[t], c) then [] else [t]
  {
    assert [t][1..] == [] && [true][1..] == [];
  }

  lemma ResumedStep(was: seq<Task>, list: seq<nat>, chosen: seq<bool>, m: nat, q: nat, c: nat)
    requires |list| == |chosen| && NoDup(list) && forall i :: 0 <= i < |list| ==> list[i] < |was|
    requires m <= q < |list| && chosen[q] && forall i :: m <= i < q ==> !chosen[i]
    ensures var x, r := list[q], AllResumed(was, list[..m], chosen[..m], c);
            r[x] == was[x] && AllResumed(was, list[..q + 1], chosen[..q + 1], c) == AfterOne(r, x, c)
  {
    var a, ca, b, cb := list[..m], chosen[..m], list[..q + 1], chosen[..q + 1];
    forall t: nat | t < |was|
      ensures Resumed(was, b, cb, c, t) <==> Resumed(was, a, ca, c, t) || (t == list[q] && WaitsOn(was[t], c))
      ensures t == list[q] ==> !Resumed(was, a, ca, c, t)
    {
      if i :| 0 <= i < |b| && b[i] == t && cb[i] {
        assert i == q || (a[i] == t && ca[i]);
      }
      if i :| 0 <= i < |a| && a[i] == t && ca[i] {
        assert b[i] == t && cb[i];
      }
      assert b[q] == list[q] && cb[q];
    }
    hide Resumed, NoDup;
  }

  lemma StillSearched(was: seq<Task>, list: seq<nat>, chosen: seq<bool>, c: nat, m: nat, rest: seq<nat>,
      marks: seq<bool>, tmp: seq<nat>, k: nat)
    requires |list| == |chosen| && m <= |list| && forall i :: 0 <= i < |list| ==> list[i] < |was|
    requires Searched(was, list, chosen, c, m, rest, marks, tmp)
    requires k < |marks| == |rest| && marks[k] && forall i :: 0 <= i < k ==> !marks[i]
    ensures var x := rest[k];
            Searched(was, list, chosen, c, FoundAt(was, list, chosen, c, m, rest, marks, tmp, k) + 1,
                     rest[..k] + rest[k + 1..], marks[..k] + marks[k + 1..],
                     if x < |was| && WaitsOn(was[x], c) then tmp else [x] + tmp)
  {
    var q := FoundAt(was, list, chosen, c, m, rest, marks, tmp, k);
    var left := Kept(was, list[..m], chosen[..m], c, false);
    hide Kept, Backwards;
    StepLeft(was, list, chosen, c, m, q);
    StepBack(was, list, chosen, c, m, q);
    BackwardsMore(tmp, list[q]);
    assert k == |left| + (q - m);
    assert rest[..k] == left + list[m..q] && rest[k + 1..] == list[q + 1..];
    assert marks[k + 1..] == marks[|left|..][q - m + 1..] == chosen[m..][q - m + 1..] == chosen[q + 1..];
  }

  lemma SearchedAll(was: seq<Task>, list: seq<nat>, chosen: seq<bool>, c: nat, m: nat, rest: seq<nat>,
      marks: seq<bool>, tmp: seq<nat>)
    requires |list| == |chosen| && m <= |list| && forall i :: 0 <= i < |list| ==> list[i] < |was|
    requires Searched(was, list, chosen, c, m, rest, marks, tmp) && forall i :: 0 <= i < |marks| ==> !marks[i]
    ensures (forall i :: m <= i < |list| ==> !chosen[i]) && rest == Kept(was, list, chosen, c, false)
    ensures Backwards(tmp) == Kept(was, list, chosen, c, true)
  {
    var n := |Kept(was, list[..m], chosen[..m], c, false)|;
    forall i | m <= i < |list|
      ensures !chosen[i]
    {
      assert chosen[m..][i - m] == marks[n..][i - m];
    }
    assert list == list[..m] + list[m..] && chosen == chosen[..m] + chosen[m..];
    KeptNone(was, list[m..], chosen[m..], c);
    KeptSum(was, list[..m], list[m..], chosen[..m], chosen[m..], c, false);
    KeptSum(was, list[..m], list[m..], chosen[..m], chosen[m..], c, true);
  }

  lemma AllTaken(was: seq<Task>, list: seq<nat>, chosen: seq<bool>, m: nat, c: nat)
    requires |list| == |chosen| && m <= |list| && forall i :: m <= i < |list| ==> !chosen[i]
    ensures AllResumed(was, list, chosen, c) == AllResumed(was, list[..m], chosen[..m], c)
  {
    forall t: nat | t < |was|
      ensures Resumed(was, list, chosen, c, t) <==> Resumed(was, list[..m], chosen[..m], c, t)
    {
      var a, ca := list[..m], chosen[..m];
      if i :| 0 <= i < |list| && list[i] == t && chosen[i] {
        assert a[i] == t && ca[i];
      }
      if i :| 0 <= i < |a| && a[i] == t && ca[i] {
        assert list[i] == t && chosen[i];
      }
    }
  }

  lemma ResumedOfBudget(was: seq<Task>, list: seq<nat>, budget: Option<nat>, c: nat, k: nat)
    requires k == (if budget.None? || budget.value > |list| then |list| else budget.value)
    ensures forall i :: 0 <= i < |list| ==> (Selected(|list|, budget)[i] <==> i < k)
    ensures forall t: nat {:trigger t in list[..k]} :: t < |was| ==>
              (Resumed(was, list, Selected(|list|, budget), c, t) <==> WaitsOn(was[t], c) && t in list[..k])
  {
    var chosen := Selected(|list|, budget);
    forall t: nat | t < |was|
      ensures Resumed(was, list, chosen, c, t) <==> WaitsOn(was[t], c) && t in list[..k]
    {
      if t in list[..k] {
        var i :| 0 <= i < k && list[..k][i] == t;
        assert list[i] == t && chosen[i];
      }
      if i :| 0 <= i < |list| && list[i] == t && chosen[i] {
        assert list[..k][i] == t;
      }
    }
  }

  /** A stack read from the bottom. */
  function Backwards(s: seq<nat>): seq<nat> {
    if s == [] then [] else Backwards(s[1..]) + [s[0]]
  }

  lemma BackwardsMore(s: seq<nat>, x: nat)
    ensures Backwards([x] + s) == Backwards(s) + [x]
  {
    assert ([x] + s)[1..] == s;
  }

  lemma BackwardsStep(tmp: seq<nat>, rest: seq<nat>)
    requires tmp != []
    ensures Backwards(tmp) + rest == Backwards(tmp[1..]) + ([tmp[0]] + rest)
  {
  }

  // ---------------------------------------------------------------- the loops over the conditions of a wait

  /** suspend_condition_add_task */
  method AddTask(lists: array<seq<nat>>, conds: seq<nat>, t: nat)
    requires NoDup(conds) && forall i :: 0 <= i < |conds| ==> conds[i] < lists.Length
    modifies lists
    ensures forall c {:trigger lists[c]} ::
              0 <= c < lists.Length ==> lists[c] == if c in conds then old(lists[c]) + [t] else old(lists[c])
  {
    for n := 0 to |conds|
      invariant forall c {:trigger lists[c]} ::
                  0 <= c < lists.Length ==> lists[c] == if c in conds[..n] then old(lists[c]) + [t] else old(lists[c])
    {
      assert conds[n] !in conds[..n];
      assert conds[..n + 1] == conds[..n] + [conds[n]];
      lists[conds[n]] := lists[conds[n]] + [t];
    }
    assert conds[..|conds|] == conds;
  }

  /** suspend_condition_remove, and suspend_condition_remove_all when there is no winner. What the source asserts
      before each removal is asserted here too. */
  method RemoveTask(lists: array<seq<nat>>, conds: seq<nat>, t: nat, winner: Option<nat>)
    requires NoDup(conds) && forall i :: 0 <= i < |conds| ==> conds[i] < lists.Length
    requires forall i :: 0 <= i < |conds| && winner != Some(conds[i]) ==> t in lists[conds[i]]
    modifies lists
    ensures forall c {:trigger lists[c]} :: 0 <= c < lists.Length ==>
              lists[c] == if c in conds && winner != Some(c) then RemoveFirst(old(lists[c]), t) else old(lists[c])
  {
    for n := 0 to |conds|
      invariant forall c {:trigger lists[c]} :: 0 <= c < lists.Length ==>
                  lists[c] ==
                    if c in conds[..n] && winner != Some(c) then RemoveFirst(old(lists[c]), t) else old(lists[c])
    {
      assert conds[n] !in conds[..n];
      assert conds[..n + 1] == conds[..n] + [conds[n]];
      if winner != Some(conds[n]) {
        assert t in lists[conds[n]];
        lists[conds[n]] := RemoveFirst(lists[conds[n]], t);
      }
    }
    assert conds[..|conds|] == conds;
  }
}
