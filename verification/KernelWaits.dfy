/** A pass of the kernel over its sleep list is a run of the wait protocol. */
module KernelWaits {
  import opened Words
  import opened Wait
  import K = Scheduler

  /** The protocol sees task number i of all as the kernel does: on the sleep list, suspended, and as often on the ready
      list as it has been woken. Besides those woken the ready list holds others, preempted or not yet started. */
  ghost predicate Pictures(k: K.Kernel, all: seq<K.Task>, s: Sys, others: multiset<K.Task>)
    reads k, all
  {
    Pictured(all, States(all), k.sleeping, k.ready, s, others)
  }

  ghost function States(all: seq<K.Task>): (r: seq<K.TaskState>)
    reads all
    ensures |r| == |all| && forall i :: 0 <= i < |all| ==> r[i] == all[i].state
  {
    seq(|all|, i requires 0 <= i < |all| reads all => all[i].state)
  }

  ghost predicate Pictured(all: seq<K.Task>, states: seq<K.TaskState>, sleeping: seq<K.Task>, ready: seq<K.Task>,
                           s: Sys, others: multiset<K.Task>)
  {
    && K.Distinct(all) && |all| == |states| == |s.tasks| && (forall t :: t in sleeping ==> t in all)
    && (forall i :: 0 <= i < |all| ==> s.sleeping[i] == if all[i] in sleeping then 1 else 0)
    && (forall i :: 0 <= i < |all| ==> (s.tasks[i].phase.Asleep? <==> states[i] == K.Suspended))
    && forall i :: 0 <= i < |all| ==> multiset(ready)[all[i]] == s.ready[i] + others[all[i]]
  }

  /** The numbers of tasks. */
  ghost function Numbers(all: seq<K.Task>, ts: seq<K.Task>): (ids: seq<nat>)
    requires forall t :: t in ts ==> t in all
    ensures |ids| == |ts| && forall j :: 0 <= j < |ts| ==> ids[j] < |all| && all[ids[j]] == ts[j]
  {
    if ts == [] then []
    else
      assert ts[0] in ts;
      var i :| 0 <= i < |all| && all[i] == ts[0];
      [i] + Numbers(all, ts[1..])
  }

  ghost function Timeouts(ids: seq<nat>): (steps: seq<Step>)
    ensures |steps| == |ids| && forall j :: 0 <= j < |ids| ==> steps[j] == Timeout(ids[j])
  {
    seq(|ids|, j requires 0 <= j < |ids| => Timeout(ids[j]))
  }

  /** The protocol after all these tasks have timed out. */
  ghost function TimedOut(s: Sys, ids: seq<nat>): (r: Sys)
    ensures |r.tasks| == |s.tasks|
  {
    s.(tasks := seq(|s.tasks|, t requires 0 <= t < |s.tasks| =>
                      if t in ids then WokenBy(s.tasks[t], None) else s.tasks[t]),
       sleeping := s.sleeping - multiset(ids),
       ready := s.ready + multiset(ids))
  }

  ghost predicate AllAsleep(s: Sys, ids: seq<nat>) {
    NoDup(ids) && forall j :: 0 <= j < |ids| ==> Is(s, ids[j], Asleep) && s.sleeping[ids[j]] > 0
  }

  /** Timeouts of different tasks, one after the other. */
  lemma {:induction false} TimeoutsRun(s: Sys, ids: seq<nat>)
    requires AllAsleep(s, ids)
    ensures Reaches(s, Timeouts(ids), TimedOut(s, ids))
    decreases |ids|
  {
    if ids == [] {
      NoTimeouts(s);
    } else {
      hide Reaches, TimedOut, Enabled, Apply, DoTimeout, AllAsleep;
      StillAsleep(s, ids);
      TimedOutFirst(s, ids);
      TimeoutsRun(DoTimeout(s, ids[0]), ids[1..]);
      TimeoutEnabled(s, ids[0]);
      FirstStep(s, Timeout(ids[0]), Timeouts(ids[1..]), TimedOut(s, ids));
      FirstTimeout(ids);
    }
  }

  lemma NoTimeouts(s: Sys)
    ensures Timeouts([]) == [] && TimedOut(s, []) == s
  {
    assert TimedOut(s, []).tasks == s.tasks;
  }

  lemma FirstTimeout(ids: seq<nat>)
    requires ids != []
    ensures Timeouts(ids) == [Timeout(ids[0])] + Timeouts(ids[1..])
  {
  }

  lemma TimedOutFirst(s: Sys, ids: seq<nat>)
    requires ids != [] && AllAsleep(s, ids)
    ensures ids[0] < |s.tasks| && TimedOut(DoTimeout(s, ids[0]), ids[1..]) == TimedOut(s, ids)
  {
    var t, rest := ids[0], ids[1..];
    assert Is(s, t, Asleep);
    FirstApart(ids);
    TimedOutTasks(s, t, rest, ids);
    OneByOne(s.sleeping, s.ready, multiset{t}, multiset(rest));
  }

  lemma FirstApart(ids: seq<nat>)
    requires NoDup(ids) && ids != []
    ensures ids[0] !in ids[1..] && multiset(ids) == multiset{ids[0]} + multiset(ids[1..])
    ensures forall t :: t in ids <==> t == ids[0] || t in ids[1..]
  {
    assert ids == [ids[0]] + ids[1..];
  }

  lemma TimedOutTasks(s: Sys, t: nat, rest: seq<nat>, ids: seq<nat>)
    requires t < |s.tasks| && t !in rest && forall u :: u in ids <==> u == t || u in rest
    ensures TimedOut(DoTimeout(s, t), rest).tasks == TimedOut(s, ids).tasks
  {
    var r := DoTimeout(s, t);
    forall u | 0 <= u < |s.tasks|
      ensures TimedOut(r, rest).tasks[u] == TimedOut(s, ids).tasks[u]
    {
    }
  }

  lemma OneByOne(a: multiset<nat>, b: multiset<nat>, c: multiset<nat>, d: multiset<nat>)
    ensures a - c - d == a - (c + d) && b + c + d == b + (c + d)
  {
  }

  lemma StillAsleep(s: Sys, ids: seq<nat>)
    requires ids != [] && AllAsleep(s, ids)
    ensures Is(s, ids[0], Asleep) && s.sleeping[ids[0]] > 0 && AllAsleep(DoTimeout(s, ids[0]), ids[1..])
  {
    var r, rest := DoTimeout(s, ids[0]), ids[1..];
    forall j | 0 <= j < |rest|
      ensures Is(r, rest[j], Asleep) && r.sleeping[rest[j]] > 0
    {
      assert rest[j] == ids[j + 1];
    }
  }

  lemma TimeoutEnabled(s: Sys, t: nat)
    requires Is(s, t, Asleep) && s.sleeping[t] > 0
    ensures Enabled(s, Timeout(t)) && Apply(s, Timeout(t)) == DoTimeout(s, t)
  {
  }

  lemma {:induction false} ThoseDistinct(list: seq<K.Task>, s: set<K.Task>)
    requires K.Distinct(list)
    ensures K.Distinct(K.Those(list, s, true))
  {
    if list != [] {
      ThoseDistinct(list[1..], s);
      K.ThoseWhich(list[1..], s, true);
    }
  }

  /** Each task has its number. */
  lemma NumbersOf(all: seq<K.Task>, ts: seq<K.Task>)
    requires K.Distinct(all) && K.Distinct(ts) && forall t :: t in ts ==> t in all
    ensures NoDup(Numbers(all, ts))
    ensures forall i :: 0 <= i < |all| ==> (i in Numbers(all, ts) <==> all[i] in ts)
  {
    hide Numbers;
    var ids := Numbers(all, ts);
    forall i | 0 <= i < |all|
      ensures i in ids <==> all[i] in ts
    {
      if i in ids {
        var j :| 0 <= j < |ids| && ids[j] == i;
        assert ts[j] == all[i];
      }
      if all[i] in ts {
        var j :| 0 <= j < |ts| && ts[j] == all[i];
        assert all[ids[j]] == all[i];
      }
    }
  }

  /** What occurs once is counted once. */
  lemma {:induction false} CountOnce<T>(s: seq<T>, x: T)
    requires forall i, j :: 0 <= i < j < |s| ==> s[i] != s[j]
    ensures multiset(s)[x] == if x in s then 1 else 0
    decreases |s|
  {
    if s != [] {
      assert s == [s[0]] + s[1..] && s[0] !in s[1..];
      assert multiset(s) == multiset{s[0]} + multiset(s[1..]);
      CountOnce(s[1..], x);
    }
  }

  lemma CountTask(ts: seq<K.Task>, t: K.Task)
    requires K.Distinct(ts)
    ensures multiset(ts)[t] == if t in ts then 1 else 0
  {
    CountOnce(ts, t);
  }

  /** A task woken, and one that is not, as the protocol sees it afterwards. */
  lemma TimedOutTask(s: Sys, ids: seq<nat>, i: nat)
    requires NoDup(ids) && i < |s.tasks|
    ensures var r := TimedOut(s, ids);
            && r.tasks[i] == (if i in ids then WokenBy(s.tasks[i], None) else s.tasks[i])
            && r.ready[i] == s.ready[i] + (if i in ids then 1 else 0)
            && (s.sleeping[i] <= 1 ==> r.sleeping[i] == if i in ids then 0 else s.sleeping[i])
  {
    CountOnce(ids, i);
  }

  /** The kernel before and after a pass over the sleep list, which wakes these tasks. */
  ghost predicate Passes(all: seq<K.Task>, states: seq<K.TaskState>, sleeping: seq<K.Task>, ready: seq<K.Task>,
                         states': seq<K.TaskState>, sleeping': seq<K.Task>, ready': seq<K.Task>, woken: seq<K.Task>)
  {
    && |states| == |states'| == |all| && K.Distinct(woken)
    && (forall t :: t in sleeping ==> (t in sleeping' <==> t !in woken))
    && (forall t :: t in woken ==> t in sleeping) && (forall t :: t in sleeping' ==> t in sleeping)
    && (forall i :: 0 <= i < |all| ==> if all[i] in woken then states[i] == K.Suspended && states'[i] != K.Suspended
                                       else states'[i] == states[i])
    && multiset(ready') == multiset(ready) + multiset(woken)
  }

  lemma WokenAreAsleep(all: seq<K.Task>, states: seq<K.TaskState>, sleeping: seq<K.Task>, ready: seq<K.Task>,
                       states': seq<K.TaskState>, sleeping': seq<K.Task>, ready': seq<K.Task>,
                       woken: seq<K.Task>, s: Sys, others: multiset<K.Task>)
    requires Pictured(all, states, sleeping, ready, s, others)
    requires Passes(all, states, sleeping, ready, states', sleeping', ready', woken)
    ensures forall t :: t in woken ==> t in all
    ensures AllAsleep(s, Numbers(all, woken))
    ensures forall i :: 0 <= i < |all| ==> (i in Numbers(all, woken) <==> all[i] in woken)
  {
    NumbersOf(all, woken);
    hide Numbers, NoDup, K.Distinct;
    var ids := Numbers(all, woken);
    forall j | 0 <= j < |ids|
      ensures Is(s, ids[j], Asleep) && s.sleeping[ids[j]] > 0
    {
      assert woken[j] in woken;
    }
  }

  /** What a pass leaves is what the timeouts of those it wakes leave. */
  lemma PicturedAfter(all: seq<K.Task>, states: seq<K.TaskState>, sleeping: seq<K.Task>, ready: seq<K.Task>,
                      states': seq<K.TaskState>, sleeping': seq<K.Task>, ready': seq<K.Task>,
                      woken: seq<K.Task>, s: Sys, ids: seq<nat>, others: multiset<K.Task>)
    requires Pictured(all, states, sleeping, ready, s, others)
    requires Passes(all, states, sleeping, ready, states', sleeping', ready', woken)
    requires NoDup(ids) && forall i :: 0 <= i < |all| ==> (i in ids <==> all[i] in woken)
    ensures Pictured(all, states', sleeping', ready', TimedOut(s, ids), others)
  {
    hide TimedOut, NoDup, K.Distinct;
    var r := TimedOut(s, ids);
    forall i | 0 <= i < |all|
      ensures r.sleeping[i] == if all[i] in sleeping' then 1 else 0
      ensures r.tasks[i].phase.Asleep? <==> states'[i] == K.Suspended
      ensures multiset(ready')[all[i]] == r.ready[i] + others[all[i]]
    {
      TimedOutTask(s, ids, i);
      CountTask(woken, all[i]);
      assert multiset(ready')[all[i]] == multiset(ready)[all[i]] + multiset(woken)[all[i]];
    }
  }

  lemma NumbersApart(s: Sys, ids: seq<nat>)
    requires AllAsleep(s, ids)
    ensures NoDup(ids)
  {
  }

  /** sleep_process_system_tick is a run of timeouts, one for each task it wakes, in that order; the protocol pictures
      the kernel as before. */
  method PassIsRun(k: K.Kernel, ghost base: nat, ghost all: seq<K.Task>, ghost s: Sys, ghost others: multiset<K.Task>)
    returns (ghost woken: seq<K.Task>, ghost r: Sys)
    requires k.Valid(base) && Pictures(k, all, s, others)
    modifies k`sleeping, k`ready, k.sleeping
    ensures k.Valid(base) && woken == K.Those(old(k.sleeping), old(k.WakeSet(base)), true)
    ensures (forall t :: t in woken ==> t in all) && Reaches(s, Timeouts(Numbers(all, woken)), r)
    ensures Pictures(k, all, r, others)
  {
    hide K.SleepOrdered, K.ReadyOrdered, K.MayPrecede, K.OfPriority, Reaches, TimedOut, Numbers, K.Distinct, Pictured,
         AllAsleep;
    ghost var states, sleeping, ready := States(all), k.sleeping, k.ready;
    ThoseDistinct(k.sleeping, k.WakeSet(base));
    woken := k.ProcessTick(base);
    assert forall t :: t in woken ==> t in woken + k.sleeping;
    assert forall t :: t in k.sleeping ==> t in woken + k.sleeping;
    hide K.Those;
    WokenAreAsleep(all, states, sleeping, ready, States(all), k.sleeping, k.ready, woken, s, others);
    ghost var ids := Numbers(all, woken);
    TimeoutsRun(s, ids);
    r := TimedOut(s, ids);
    assert NoDup(ids) by { NumbersApart(s, ids); }
    PicturedAfter(all, states, sleeping, ready, States(all), k.sleeping, k.ready, woken, s, ids, others);
  }
}
