/** The sleep list and the ready list: who is woken at a tick, and who runs next. */
module Scheduler {
  import opened Words

  const HALF := 0x8000_0000

  datatype TaskState = Running | ToBeSuspended | Suspended | Resumed | SleepResumed
  datatype Waker = FromSystem | FromSleep

  class Task {
    const priority: nat
    var tickSleep: nat
    var state: TaskState
    var resumeFrom: Waker

    constructor (priority: nat)
      ensures this.priority == priority && tickSleep == 0 && state == Running
    {
      this.priority, tickSleep, state, resumeFrom := priority, 0, Running, FromSystem;
    }
  }

  /** INT32CMP: the difference of two ticks, read as a signed number. */
  function Int32Cmp(a: nat, b: nat): int {
    if Sub32(a, b) < HALF then Sub32(a, b) else Sub32(a, b) - U32
  }

  /** How far tick t lies ahead of base, around the clock. */
  function Ahead(base: nat, t: nat): nat {
    Sub32(t, base)
  }

  predicate InWindow(base: nat, t: nat) {
    t < U32 && Ahead(base, t) < HALF
  }

  /** Within half a turn of the clock, INT32CMP tells before from after, even across the wrap. */
  lemma ComparesInWindow(base: nat, a: nat, b: nat)
    requires base < U32 && InWindow(base, a) && InWindow(base, b)
    ensures Int32Cmp(a, b) == Ahead(base, a) - Ahead(base, b)
    ensures a == b <==> Ahead(base, a) == Ahead(base, b)
  {
    Sub32Value(a, base);
    Sub32Value(b, base);
    Sub32Value(a, b);
  }

  /** Exactly one of two different ticks is before the other, unless they are half a turn apart: then each is. */
  lemma HalfATurnApart(a: nat, b: nat)
    requires a < U32 && b < U32 && a != b
    ensures (Int32Cmp(a, b) < 0 <==> Int32Cmp(b, a) >= 0) <==> Sub32(a, b) != HALF
    ensures Sub32(a, b) == HALF ==> Int32Cmp(a, b) < 0 && Int32Cmp(b, a) < 0
  {
    Sub32Value(a, b);
    Sub32Value(b, a);
  }

  /** A task that goes to sleep for n ticks counts as due the moment it does so exactly when n is 0 or exceeds half a
      turn of the clock. */
  lemma DueAtOnce(tick: nat, n: nat)
    requires tick < U32 && n < U32
    ensures Int32Cmp(tick, Add32(tick, n)) >= 0 <==> n == 0 || n > HALF
  {
    Add32Value(tick, n);
    Sub32Value(tick, Add32(tick, n));
  }

  /** scheduler_task_sort: the list stays ordered by priority, the lowest number first. */
  predicate RunsAfter(node: Task, task: Task) {
    node.priority > task.priority
  }

  ghost predicate ReadyOrdered(ready: seq<Task>) {
    forall i, j :: 0 <= i < j < |ready| ==> ready[i].priority <= ready[j].priority
  }

  /** The tasks of one priority, in the order of the list. */
  ghost function OfPriority(ready: seq<Task>, p: nat): seq<Task> {
    if ready == [] then []
    else (if ready[0].priority == p then [ready[0]] else []) + OfPriority(ready[1..], p)
  }

  lemma {:induction false} OfPrioritySum(a: seq<Task>, b: seq<Task>, p: nat)
    ensures OfPriority(a + b, p) == OfPriority(a, p) + OfPriority(b, p)
  {
    if a == [] {
      assert a + b == b;
    } else {
      var first := if a[0].priority == p then [a[0]] else [];
      assert (a + b)[0] == a[0] && (a + b)[1..] == a[1..] + b;
      OfPrioritySum(a[1..], b, p);
      assert OfPriority(a + b, p) == first + OfPriority(a[1..] + b, p);
      assert OfPriority(a, p) == first + OfPriority(a[1..], p);
      hide OfPriority;
      Regroup(first, OfPriority(a[1..], p), OfPriority(b, p));
    }
  }

  lemma Regroup(a: seq<Task>, b: seq<Task>, c: seq<Task>)
    ensures a + (b + c) == (a + b) + c
  {
  }

  lemma {:induction false} NoneOfPriority(a: seq<Task>, p: nat)
    requires forall i :: 0 <= i < |a| ==> a[i].priority != p
    ensures OfPriority(a, p) == []
  {
    if a != [] {
      NoneOfPriority(a[1..], p);
    }
  }

  /** Each priority is a queue of its own: t joins its queue at the end, and the others stay as they are. */
  ghost predicate Joins(before: seq<Task>, after: seq<Task>, t: Task) {
    && multiset(after) == multiset(before) + multiset{t}
    && forall p {:trigger OfPriority(after, p)} ::
         OfPriority(after, p) == OfPriority(before, p) + if p == t.priority then [t] else []
  }

  /** A task that joins is the last of its priority, and the queues of the others are as they were. */
  lemma JoinsLast(before: seq<Task>, after: seq<Task>, t: Task, p: nat)
    requires Joins(before, after, t)
    ensures OfPriority(after, t.priority) == OfPriority(before, t.priority) + [t]
    ensures p != t.priority ==> OfPriority(after, p) == OfPriority(before, p)
  {
  }

  lemma InsertedJoins(ready: seq<Task>, t: Task, k: nat)
    requires ReadyOrdered(ready) && k <= |ready|
    requires (forall i :: 0 <= i < k ==> ready[i].priority <= t.priority) &&
             (forall i :: k <= i < |ready| ==> ready[i].priority > t.priority)
    ensures ReadyOrdered(ready[..k] + [t] + ready[k..]) && Joins(ready, ready[..k] + [t] + ready[k..], t)
  {
    hide ReadyOrdered, OfPriority, Joins;
    InsertedOrdered(ready, t, k);
    CutAt(ready, k);
    JoinsBetween(ready[..k], t, ready[k..]);
  }

  lemma CutAt(list: seq<Task>, k: nat)
    requires k <= |list|
    ensures list[..k] + list[k..] == list && forall i :: 0 <= i < |list| - k ==> list[k..][i] == list[k + i]
  {
  }

  /** A task put in front of those of worse priority joins the queue of its own. */
  lemma JoinsBetween(a: seq<Task>, t: Task, b: seq<Task>)
    requires forall i :: 0 <= i < |b| ==> b[i].priority > t.priority
    ensures Joins(a + b, a + [t] + b, t)
  {
    hide OfPriority;
    assert multiset(a + [t] + b) == multiset(a + b) + multiset{t};
    forall p
      ensures OfPriority(a + [t] + b, p) == OfPriority(a + b, p) + if p == t.priority then [t] else []
    {
      PutBetween(a, t, b, p);
    }
  }

  lemma InsertedOrdered(ready: seq<Task>, t: Task, k: nat)
    requires ReadyOrdered(ready) && k <= |ready|
    requires (forall i :: 0 <= i < k ==> ready[i].priority <= t.priority) &&
             (forall i :: k <= i < |ready| ==> ready[i].priority > t.priority)
    ensures ReadyOrdered(ready[..k] + [t] + ready[k..])
  {
  }

  lemma PutBetween(a: seq<Task>, t: Task, b: seq<Task>, p: nat)
    requires forall i :: 0 <= i < |b| ==> b[i].priority > t.priority
    ensures OfPriority(a + [t] + b, p) == OfPriority(a + b, p) + if p == t.priority then [t] else []
  {
    OfPrioritySum(a + [t], b, p);
    OfPrioritySum(a, [t], p);
    OfPrioritySum(a, b, p);
    OneOfPriority(t, p);
    if p == t.priority {
      NoneOfPriority(b, p);
    }
  }

  lemma OneOfPriority(t: Task, p: nat)
    ensures OfPriority([t], p) == if p == t.priority then [t] else []
  {
    assert ([t])[1..] == [];
  }

  /** sll_insert by priority. */
  method InsertReady(ready: seq<Task>, t: Task) returns (r: seq<Task>)
    requires ReadyOrdered(ready)
    ensures ReadyOrdered(r) && Joins(ready, r, t)
  {
    hide Joins, OfPriority;
    var k := 0;
    while k < |ready| && !RunsAfter(ready[k], t)
      invariant 0 <= k <= |ready| && forall i :: 0 <= i < k ==> ready[i].priority <= t.priority
    {
      k := k + 1;
    }
    InsertedJoins(ready, t, k);
    r := ready[..k] + [t] + ready[k..];
  }

  /** The head of the ready list has the best priority, and came first among those that have it. */
  lemma HeadIsNext(ready: seq<Task>)
    requires ReadyOrdered(ready) && ready != []
    ensures forall i :: 0 <= i < |ready| ==> ready[0].priority <= ready[i].priority
    ensures OfPriority(ready, ready[0].priority) != [] && OfPriority(ready, ready[0].priority)[0] == ready[0]
  {
  }

  // ---------------------------------------------------------------- the sleep list

  /** sleep_task_sort: by tick, then by priority. */
  predicate WakesAfter(node: Task, task: Task)
    reads node, task
  {
    Int32Cmp(node.tickSleep, task.tickSleep) > 0 || (node.tickSleep == task.tickSleep && node.priority > task.priority)
  }

  /** One task is behind another when it wakes later on the clock of the window, or at the same tick and has the higher
      priority number. */
  lemma WakesAfterIs(base: nat, a: Task, b: Task)
    requires base < U32 && InWindow(base, a.tickSleep) && InWindow(base, b.tickSleep)
    ensures var x, y := (a.tickSleep - base) % U32, (b.tickSleep - base) % U32;
            WakesAfter(a, b) <==> x > y || (x == y && a.priority > b.priority)
  {
    ComparesInWindow(base, a.tickSleep, b.tickSleep);
  }

  /** a may come before b in the sleep list. */
  ghost predicate MayPrecede(base: nat, a: Task, b: Task)
    reads a, b
  {
    Ahead(base, a.tickSleep) < Ahead(base, b.tickSleep) || (a.tickSleep == b.tickSleep && a.priority <= b.priority)
  }

  ghost predicate Distinct(list: seq<Task>) {
    forall i, j :: 0 <= i < j < |list| ==> list[i] != list[j]
  }

  ghost predicate SleepOrdered(base: nat, list: seq<Task>)
    reads list
  {
    && (forall i :: 0 <= i < |list| ==> InWindow(base, list[i].tickSleep))
    && forall i, j :: 0 <= i < j < |list| ==> MayPrecede(base, list[i], list[j])
  }

  /** Within two windows the order of two tasks is the same in both. */
  lemma PrecedesAgain(base: nat, base': nat, a: Task, b: Task)
    requires base < U32 && InWindow(base, a.tickSleep) && InWindow(base, b.tickSleep)
    requires base' < U32 && InWindow(base', a.tickSleep) && InWindow(base', b.tickSleep)
    ensures MayPrecede(base, a, b) <==> MayPrecede(base', a, b)
  {
    ComparesInWindow(base, a.tickSleep, b.tickSleep);
    ComparesInWindow(base', a.tickSleep, b.tickSleep);
  }

  lemma SortAgrees(base: nat, node: Task, task: Task)
    requires base < U32 && InWindow(base, node.tickSleep) && InWindow(base, task.tickSleep)
    ensures WakesAfter(node, task) <==> !MayPrecede(base, node, task)
    ensures WakesAfter(node, task) ==> MayPrecede(base, task, node)
  {
    ComparesInWindow(base, node.tickSleep, task.tickSleep);
  }

  class Kernel {
    var sleeping: seq<Task>
    var ready: seq<Task>
    var tick: nat

    /** The two lists, while all pending wake ticks and the current one lie within half a turn of base. */
    ghost predicate Valid(base: nat)
      reads this, sleeping
    {
      && base < U32 && InWindow(base, tick)
      && Distinct(sleeping) && SleepOrdered(base, sleeping) && ReadyOrdered(ready)
    }

    /** The window may be moved: the lists are in order for any base in whose window the pending ticks and the current
        one lie. */
    lemma Rebase(base: nat, base': nat)
      requires Valid(base) && base' < U32 && InWindow(base', tick)
      requires forall i :: 0 <= i < |sleeping| ==> InWindow(base', sleeping[i].tickSleep)
      ensures Valid(base')
    {
      hide ReadyOrdered, Distinct, MayPrecede, InWindow;
      forall i, j | 0 <= i < j < |sleeping|
        ensures MayPrecede(base', sleeping[i], sleeping[j])
      {
        PrecedesAgain(base, base', sleeping[i], sleeping[j]);
      }
    }

    constructor ()
      ensures Valid(0) && sleeping == ready == [] && tick == 0
      ensures forall lag {:trigger Sub32(0, lag)} :: 0 <= lag < HALF ==> Valid(Sub32(0, lag))
    {
      sleeping, ready, tick := [], [], 0;
      new;
      forall lag | 0 <= lag < HALF
        ensures Valid(Sub32(0, lag))
      {
        Sub32Value(0, lag);
        Sub32Value(0, Sub32(0, lag));
      }
    }

    /** t is due: its tick has come. */
    ghost predicate Due(base: nat, t: Task)
      reads this`tick, t
    {
      Ahead(base, t.tickSleep) <= Ahead(base, tick)
    }

    /** sleep_add_to_list: the task goes in front of the first one that sleep_task_sort puts behind it. The list stays
        in order exactly when its wake tick lies in the window of the others. */
    method AddToSleep(t: Task, ticks: nat, ghost base: nat) returns (ghost place: nat)
      requires Valid(base) && t !in sleeping
      modifies this`sleeping, t`tickSleep
      ensures t.tickSleep == Add32(tick, ticks)
      ensures FirstBehind(old(sleeping), t, place)
      ensures sleeping == old(sleeping)[..place] + [t] + old(sleeping)[place..]
      ensures Valid(base) <==> InWindow(base, t.tickSleep)
      ensures Valid(base) ==> SleepsFrom(base, old(sleeping), t, place)
    {
      hide SleepOrdered, Distinct, ReadyOrdered, MayPrecede, WakesAfter;
      t.tickSleep := Add32(tick, ticks);
      OthersOrdered(base, sleeping, t);
      sleeping, place := InsertSleeping(sleeping, t, base);
    }

    /** k is the place sll_insert finds for t. */
    static predicate FirstBehind(list: seq<Task>, t: Task, k: nat)
      reads list, t
    {
      && k <= |list| && (k < |list| ==> WakesAfter(list[k], t))
      && forall i :: 0 <= i < k ==> !WakesAfter(list[i], t)
    }

    /** k is the place for t in the list: behind all tasks that may precede it. */
    static ghost predicate SleepsFrom(base: nat, list: seq<Task>, t: Task, k: int)
      reads list, t
    {
      && 0 <= k <= |list|
      && (forall i :: 0 <= i < k ==> MayPrecede(base, list[i], t))
      && forall i :: k <= i < |list| ==> !MayPrecede(base, list[i], t)
    }

    /** sll_insert by wake tick and priority. */
    static method InsertSleeping(list: seq<Task>, t: Task, ghost base: nat) returns (r: seq<Task>, ghost place: nat)
      requires base < U32 && Distinct(list) && SleepOrdered(base, list) && t !in list
      ensures FirstBehind(list, t, place) && r == list[..place] + [t] + list[place..]
      ensures Distinct(r) && (SleepOrdered(base, r) <==> InWindow(base, t.tickSleep))
      ensures InWindow(base, t.tickSleep) ==> SleepsFrom(base, list, t, place)
    {
      hide WakesAfter, MayPrecede, InWindow, Distinct, SleepOrdered;
      var k := 0;
      while k < |list| && !WakesAfter(list[k], t)
        invariant 0 <= k <= |list| && forall i :: 0 <= i < k ==> !WakesAfter(list[i], t)
      {
        k := k + 1;
      }
      place := k;
      r := list[..k] + [t] + list[k..];
      if InWindow(base, t.tickSleep) {
        PlaceFound(base, list, t, k);
        InsertedSleeps(base, list, t, k);
      } else {
        InsertedDistinct(list, t, k);
        OutOfWindow(base, r, k);
      }
    }

    /** The order sleep_task_sort finds is that of ticks and priorities. */
    static lemma PlaceFound(base: nat, list: seq<Task>, t: Task, k: nat)
      requires base < U32 && SleepOrdered(base, list) && InWindow(base, t.tickSleep) && FirstBehind(list, t, k)
      ensures SleepsFrom(base, list, t, k)
      ensures k < |list| ==> MayPrecede(base, t, list[k])
    {
      hide WakesAfter, MayPrecede, InWindow;
      forall i | 0 <= i < k
        ensures MayPrecede(base, list[i], t)
      {
        SortAgrees(base, list[i], t);
      }
      if k < |list| {
        SortAgrees(base, list[k], t);
        AllBehind(base, list, t, k);
      }
    }

    /** sleep_remove_from_list; the source asserts that the task is there. */
    method RemoveFromSleep(t: Task, ghost base: nat)
      requires Valid(base) && t in sleeping
      modifies this`sleeping, t`tickSleep
      ensures Valid(base) && t !in sleeping && sleeping == Those(old(sleeping), {t}, false)
    {
      hide SleepOrdered, Distinct, ReadyOrdered, Those;
      var k := 0;
      while sleeping[k] != t
        invariant 0 <= k < |sleeping| && forall i :: 0 <= i < k ==> sleeping[i] != t
        decreases |sleeping| - k
      {
        k := k + 1;
      }
      RemovedSleeps(base, sleeping, k);
      OneTakenOff(sleeping, k);
      sleeping := sleeping[..k] + sleeping[k + 1..];
      label L:
      t.tickSleep := 0;
      OthersOrdered@L(base, sleeping, t);
    }

    /** t is to be woken: it is due, and has not been resumed by somebody else in the meantime. */
    ghost predicate Wakes(base: nat, t: Task)
      reads this`tick, t
    {
      Due(base, t) && t.state == Suspended
    }

    ghost function WakeSet(base: nat): set<Task>
      reads this, sleeping
    {
      set t | t in sleeping && Wakes(base, t)
    }

    /** sll_search with sleep_walk: the first task to be woken, or the first that is not due yet. */
    method Scan(ghost base: nat) returns (k: nat, doBreak: bool)
      requires Valid(base)
      ensures k <= |sleeping|
      ensures !doBreak && k < |sleeping| ==>
                Wakes(base, sleeping[k]) && forall i :: 0 <= i < k ==> !Wakes(base, sleeping[i])
      ensures doBreak || k == |sleeping| ==> forall i :: 0 <= i < |sleeping| ==> !Wakes(base, sleeping[i])
    {
      hide ReadyOrdered, Distinct, Int32Cmp, Ahead;
      k, doBreak := 0, false;
      while k < |sleeping|
        invariant k <= |sleeping| && forall i :: 0 <= i < k ==> !Wakes(base, sleeping[i])
      {
        ComparesInWindow(base, tick, sleeping[k].tickSleep);
        if Int32Cmp(tick, sleeping[k].tickSleep) >= 0 {
          if sleeping[k].state == Suspended {
            return;
          }
        } else {
          NoneDueBehind(base, k);
          doBreak := true;
          return;
        }
        k := k + 1;
      }
    }

    lemma NoneDueBehind(base: nat, k: nat)
      requires Valid(base) && k < |sleeping| && !Due(base, sleeping[k])
      ensures forall i :: k <= i < |sleeping| ==> !Due(base, sleeping[i])
    {
      assert forall i :: k < i < |sleeping| ==> MayPrecede(base, sleeping[k], sleeping[i]);
    }

    /** scheduler_task_yield */
    method Yield(t: Task, from: Waker)
      requires ReadyOrdered(ready)
      modifies this`ready, t
      ensures ReadyOrdered(ready) && Joins(old(ready), ready, t) && t.resumeFrom == from
      ensures t.state == (if from == FromSleep then SleepResumed else Resumed)
      ensures t.tickSleep == if from == FromSleep then 0 else old(t.tickSleep)
    {
      hide ReadyOrdered, Joins;
      match from {
        case FromSleep =>
          t.tickSleep := 0;
          t.state := SleepResumed;
          t.resumeFrom := FromSleep;
        case FromSystem =>
          t.state := Resumed;
          t.resumeFrom := FromSystem;
      }
      ready := InsertReady(ready, t);
    }

    /** One task leaves the sleep list for the ready list. */
    method WakeAt(k: nat, ghost base: nat)
      requires Valid(base) && k < |sleeping|
      modifies this`sleeping, this`ready, sleeping[k]
      ensures Valid(base) && sleeping == old(sleeping)[..k] + old(sleeping)[k + 1..] && old(sleeping)[k] !in sleeping
      ensures Joins(old(ready), ready, old(sleeping)[k])
      ensures Awake(old(sleeping)[k])
    {
      hide ReadyOrdered, Joins, SleepOrdered, Distinct;
      var t := sleeping[k];
      RemovedSleeps(base, sleeping, k);
      sleeping := sleeping[..k] + sleeping[k + 1..];
      label L:
      Yield(t, FromSleep);
      OthersOrdered@L(base, sleeping, t);
    }

    ghost predicate Awake(t: Task)
      reads t
    {
      t.state == SleepResumed && t.resumeFrom == FromSleep && t.tickSleep == 0
    }

    /** sleep_process_system_tick: exactly the suspended tasks that are due become ready, none early and none missed,
        in the order of the sleep list: by wake tick and priority, and first come among equals. */
    method ProcessTick(ghost base: nat) returns (ghost woken: seq<Task>)
      requires Valid(base)
      modifies this`sleeping, this`ready, sleeping
      ensures Valid(base)
      ensures woken == Those(old(sleeping), old(WakeSet(base)), true) &&
              sleeping == Those(old(sleeping), old(WakeSet(base)), false)
      ensures forall t ::
                t in old(sleeping) ==> (t in woken <==> old(Wakes(base, t))) && (t in sleeping <==> t !in woken)
      ensures forall t :: t in woken + sleeping ==> t in old(sleeping)
      ensures forall i, j :: 0 <= i < j < |woken| && woken[i] in old(sleeping) && woken[j] in old(sleeping) ==>
                old(MayPrecede(base, woken[i], woken[j]))
      ensures forall t :: t in woken ==> Awake(t)
      ensures forall t :: t in old(sleeping) && t in sleeping ==> unchanged(t)
      ensures Gained(old(ready), ready, woken)
    {
      hide Joins, OfPriority, ReadyOrdered, SleepOrdered, Distinct, MayPrecede, Those, Gained, Kernel.Wakes,
           Kernel.Due, Kernel.Awake;
      ghost var all, set0 := sleeping, WakeSet(base);
      ThoseOrdered(base, all, set0);
      OrderedPairs(base, Those(all, set0, true));
      ThoseWhich(all, set0, true);
      ThoseWhich(all, set0, false);
      woken := [];
      NobodyWoken(ready);
      while sleeping != []
        invariant Valid(base) && AllIn(sleeping, all)
        invariant woken + Those(sleeping, set0, true) == Those(all, set0, true) &&
                  Those(sleeping, set0, false) == Those(all, set0, false)
        invariant forall i :: 0 <= i < |woken| ==> Awake(woken[i])
        invariant forall i :: 0 <= i < |sleeping| ==> unchanged(sleeping[i])
        invariant Gained(old(ready), ready, woken)
        decreases |sleeping|
      {
        var k, doBreak := Scan(base);
        assert forall i :: 0 <= i < |sleeping| ==> (sleeping[i] in set0 <==> Wakes(base, sleeping[i]));
        if doBreak || k == |sleeping| {
          break;
        }
        ghost var t, was, mid := sleeping[k], sleeping, ready;
        FirstOfThose(sleeping, set0, k);
        WakeAt(k, base);
        GainsOne(old(ready), mid, ready, woken, t);
        AllInLess(was, all, k);
        woken := woken + [t];
      }
      NoneOfThose(sleeping, set0);
    }

    /** process_system_tick: in any window that holds the new tick too, the scheduler is triggered exactly when some
        sleeping task is due. */
    method Tick(ghost base: nat) returns (trigger: bool)
      requires Valid(base)
      modifies this`tick
      ensures tick == Add32(old(tick), 1) && (Valid(base) <==> InWindow(base, tick))
      ensures trigger <==> sleeping != [] && Int32Cmp(tick, sleeping[0].tickSleep) >= 0
      ensures forall b {:trigger Valid(b)} ::
                Valid(b) ==> (trigger <==> exists i :: 0 <= i < |sleeping| && Due(b, sleeping[i]))
    {
      hide ReadyOrdered, Distinct, Int32Cmp, Ahead;
      tick := Add32(tick, 1);
      trigger := false;
      if sleeping != [] {
        trigger := Int32Cmp(tick, sleeping[0].tickSleep) >= 0;
      }
      forall b | Valid(b)
        ensures trigger <==> exists i :: 0 <= i < |sleeping| && Due(b, sleeping[i])
      {
        HeadTells(b);
      }
    }

    /** Some sleeping task is due exactly when the first one is. */
    lemma HeadTells(base: nat)
      requires Valid(base)
      ensures sleeping != [] && Int32Cmp(tick, sleeping[0].tickSleep) >= 0
         <==> exists i :: 0 <= i < |sleeping| && Due(base, sleeping[i])
    {
      hide ReadyOrdered, Distinct, Int32Cmp, Ahead;
      if sleeping != [] {
        ComparesInWindow(base, tick, sleeping[0].tickSleep);
        if Int32Cmp(tick, sleeping[0].tickSleep) < 0 {
          NoneDueBehind(base, 0);
        }
      }
    }

    /** scheduler_get_next_task: the task dispatched has the best priority of all that are ready or have just been
        woken, and was first among those. The source asserts that there is one (the idle task never sleeps). */
    method NextTask(ghost base: nat) returns (t: Task, ghost woken: seq<Task>)
      requires Valid(base) && (ready != [] || exists u :: u in sleeping && Wakes(base, u))
      modifies this`sleeping, this`ready, sleeping
      ensures Valid(base) && forall u :: u in woken ==> u in old(sleeping) && Awake(u)
      ensures woken == Those(old(sleeping), old(WakeSet(base)), true) &&
              sleeping == Those(old(sleeping), old(WakeSet(base)), false)
      ensures forall u ::
                u in old(sleeping) ==> (u in woken <==> old(Wakes(base, u))) && (u in sleeping <==> u !in woken)
      ensures forall i, j :: 0 <= i < j < |woken| && woken[i] in old(sleeping) && woken[j] in old(sleeping) ==>
                old(MayPrecede(base, woken[i], woken[j]))
      ensures forall u :: u in old(ready) + woken ==> t.priority <= u.priority
      ensures [t] + OfPriority(ready, t.priority) == OfPriority(old(ready), t.priority) + OfPriority(woken, t.priority)
      ensures forall p {:trigger OfPriority(ready, p)} ::
                p != t.priority ==> OfPriority(ready, p) == OfPriority(old(ready), p) + OfPriority(woken, p)
    {
      hide OfPriority, Those, MayPrecede, SleepOrdered, ReadyOrdered, Distinct, InWindow;
      hide Kernel.Wakes, Kernel.Awake, Kernel.WakeSet;
      woken := ProcessTick(base);
      assert old(ready) != [] || woken != [];
      assert |multiset(ready)| == |multiset(old(ready))| + |multiset(woken)|;
      PopHead(old(ready), ready, woken);
      t, ready := ready[0], ready[1..];
    }
  }

  /** What happens to the kernel lists: a tick, a task that goes to sleep, the switch that suspends it, a pass over the
      sleep list. */
  datatype Event = NewTick | Sleep(t: Task, ticks: nat) | Suspend(t: Task) | Pass

  function Ticks(events: seq<Event>): nat {
    if events == [] then 0
    else Ticks(events[..|events| - 1]) + if events[|events| - 1].NewTick? then 1 else 0
  }

  /** Why a run stops: a sleeping task is overdue by lag ticks, or one that sleeps already or asks for too long a sleep
      goes to sleep. */
  predicate Stops(k: Kernel, e: Event, lag: nat)
    reads k, k.sleeping
  {
    match e
    case NewTick => k.sleeping != [] && Sub32(k.tick, k.sleeping[0].tickSleep) == lag
    case Sleep(t, ticks) => ticks >= HALF - lag || t in k.sleeping
    case _ => false
  }

  /** Any number of events, over any number of turns of the clock: as long as no task is woken lag ticks late and none
      sleeps for half a turn less lag, the lists stay in order for a window that moves along with the clock. */
  method Live(k: Kernel, events: seq<Event>, lag: nat, tasks: set<Task>) returns (done: nat)
    requires lag < HALF && k.Valid(Sub32(k.tick, lag)) && forall t :: t in k.sleeping ==> t in tasks
    requires forall e :: e in events ==> (e.Sleep? || e.Suspend? ==> e.t in tasks)
    modifies k, tasks
    ensures done <= |events| && k.tick == (old(k.tick) + Ticks(events[..done])) % U32
    ensures k.Valid(Sub32(k.tick, lag)) && forall t :: t in k.sleeping ==> t in tasks
    ensures done < |events| ==> Stops(k, events[done], lag)
  {
    assert k.tick < U32;
    hide SleepOrdered, ReadyOrdered, Distinct, InWindow, Those, Gained, OfPriority;
    done := 0;
    assert events[..0] == [];
    while done < |events|
      invariant done <= |events| && k.tick == (old(k.tick) + Ticks(events[..done])) % U32
      invariant k.Valid(Sub32(k.tick, lag)) && forall t :: t in k.sleeping ==> t in tasks
    {
      var e := events[done];
      if Stops(k, e, lag) {
        return;
      }
      assert e in events;
      OneEvent(k, e, lag, tasks);
      assert events[..done + 1][..done] == events[..done] && events[..done + 1][done] == e;
      OneMoreTick(old(k.tick), Ticks(events[..done]));
      done := done + 1;
    }
    assert events[..done] == events;
  }

  lemma OneMoreTick(tick: nat, n: nat)
    requires tick < U32
    ensures Add32((tick + n) % U32, 1) == (tick + (n + 1)) % U32
  {
  }

  method OneEvent(k: Kernel, e: Event, lag: nat, tasks: set<Task>)
    requires lag < HALF && k.Valid(Sub32(k.tick, lag)) && (forall t :: t in k.sleeping ==> t in tasks)
    requires !Stops(k, e, lag) && (e.Sleep? || e.Suspend? ==> e.t in tasks)
    modifies k, tasks
    ensures k.tick == if e.NewTick? then Add32(old(k.tick), 1) else old(k.tick)
    ensures k.Valid(Sub32(k.tick, lag)) && forall t :: t in k.sleeping ==> t in tasks
  {
    assert k.tick < U32;
    hide SleepOrdered, ReadyOrdered, Distinct, InWindow, Those, Gained, OfPriority, MayPrecede;
    ghost var base := Sub32(k.tick, lag);
    match e {
      case NewTick => MoveOn(k, lag);
      case Sleep(t, ticks) =>
        ShortSleep(k.tick, lag, ticks);
        var _ := k.AddToSleep(t, ticks, base);
      case Suspend(t) => SwitchOut(k, t, base);
      case Pass => var _ := k.ProcessTick(base);
    }
  }

  /** The context switch completes a suspension. */
  method SwitchOut(k: Kernel, t: Task, ghost base: nat)
    requires k.Valid(base)
    modifies t`state
    ensures k.Valid(base) && t.state == Suspended
  {
    t.state := Suspended;
  }

  lemma ShortSleep(tick: nat, lag: nat, n: nat)
    requires tick < U32 && lag + n < HALF
    ensures InWindow(Sub32(tick, lag), Add32(tick, n))
  {
    Sub32Value(tick, lag);
    Add32Value(tick, n);
    Sub32Value(Add32(tick, n), Sub32(tick, lag));
  }

  /** The window moves on with the clock. */
  method MoveOn(k: Kernel, lag: nat)
    requires lag < HALF && k.Valid(Sub32(k.tick, lag)) && !Stops(k, NewTick, lag)
    modifies k`tick
    ensures k.tick == Add32(old(k.tick), 1) && k.Valid(Sub32(k.tick, lag))
  {
    ghost var was := k.tick;
    ghost var base, next := Sub32(was, lag), Sub32(Add32(was, 1), lag);
    NobodyLater(k, lag);
    forall i | 0 <= i < |k.sleeping|
      ensures InWindow(next, k.sleeping[i].tickSleep)
    {
      NextWindow(was, lag, k.sleeping[i].tickSleep);
    }
    NewWindow(was, lag);
    hide SleepOrdered, ReadyOrdered, Distinct, MayPrecede, InWindow, Sub32, Add32;
    if lag + 1 < HALF {
      var _ := k.Tick(base);
      k.Rebase(base, next);
    } else {
      k.Rebase(base, next);
      var _ := k.Tick(next);
    }
  }

  /** The first sleeping task is the most overdue one. */
  lemma NobodyLater(k: Kernel, lag: nat)
    requires lag < HALF && k.Valid(Sub32(k.tick, lag)) && !Stops(k, NewTick, lag)
    ensures var base := Sub32(k.tick, lag);
            forall i :: 0 <= i < |k.sleeping| ==>
              InWindow(base, k.sleeping[i].tickSleep) && Ahead(base, k.sleeping[i].tickSleep) > 0
  {
    hide ReadyOrdered, Distinct;
    var base := Sub32(k.tick, lag);
    if k.sleeping != [] {
      Sub32Value(k.tick, lag);
      Sub32Value(k.sleeping[0].tickSleep, base);
      Sub32Value(k.tick, k.sleeping[0].tickSleep);
      forall i | 0 <= i < |k.sleeping|
        ensures Ahead(base, k.sleeping[i].tickSleep) > 0
      {
        assert i > 0 ==> MayPrecede(base, k.sleeping[0], k.sleeping[i]);
      }
    }
  }

  lemma NextWindow(tick: nat, lag: nat, t: nat)
    requires tick < U32 && lag < HALF && InWindow(Sub32(tick, lag), t) && Ahead(Sub32(tick, lag), t) > 0
    ensures InWindow(Sub32(Add32(tick, 1), lag), t)
  {
    Sub32Value(tick, lag);
    Add32Value(tick, 1);
    Sub32Value(Add32(tick, 1), lag);
    Sub32Value(t, Sub32(tick, lag));
    Sub32Value(t, Sub32(Add32(tick, 1), lag));
  }

  lemma NewWindow(tick: nat, lag: nat)
    requires tick < U32 && lag < HALF
    ensures var base, next := Sub32(tick, lag), Sub32(Add32(tick, 1), lag);
            && base < U32 && next < U32 && InWindow(next, Add32(tick, 1))
            && (lag + 1 < HALF ==> InWindow(base, Add32(tick, 1))) && (lag > 0 ==> InWindow(next, tick))
  {
    ShortSleep(tick, lag, 0);
    ShortSleep(Add32(tick, 1), lag, 0);
    Add32Value(tick, 0);
    Add32Value(tick, 1);
    Add32Value(Add32(tick, 1), 0);
    if lag + 1 < HALF {
      ShortSleep(tick, lag, 1);
    }
    if lag > 0 {
      ShortSleep(tick, lag - 1, 0);
      Sub32Value(tick, lag - 1);
      Sub32Value(Add32(tick, 1), lag);
    }
  }

  lemma PopHead(before: seq<Task>, ready: seq<Task>, woken: seq<Task>)
    requires ReadyOrdered(ready) && ready != [] && multiset(ready) == multiset(before) + multiset(woken)
    ensures ReadyOrdered(ready[1..]) && forall u :: u in before + woken ==> ready[0].priority <= u.priority
    ensures [ready[0]] + OfPriority(ready[1..], ready[0].priority) == OfPriority(ready, ready[0].priority)
    ensures forall p {:trigger OfPriority(ready[1..], p)} ::
              p != ready[0].priority ==> OfPriority(ready[1..], p) == OfPriority(ready, p)
  {
    forall u | u in before + woken
      ensures ready[0].priority <= u.priority
    {
      assert u in multiset(ready);
    }
  }

  /** The tasks of the list that are (not) in s, in their order. */
  ghost function Those(list: seq<Task>, s: set<Task>, inside: bool): seq<Task> {
    if list == [] then []
    else (if list[0] in s <==> inside then [list[0]] else []) + Those(list[1..], s, inside)
  }

  ghost predicate AllIn(a: seq<Task>, b: seq<Task>) {
    forall i :: 0 <= i < |a| ==> a[i] in b
  }

  lemma {:induction false} ThoseWhich(list: seq<Task>, s: set<Task>, inside: bool)
    ensures forall t :: t in Those(list, s, inside) <==> t in list && (t in s <==> inside)
    ensures AllIn(Those(list, s, inside), list)
  {
    if list != [] {
      var rest := Those(list[1..], s, inside);
      ThoseWhich(list[1..], s, inside);
      assert list == [list[0]] + list[1..];
      assert AllIn(rest, list[1..]);
    }
  }

  lemma ThoseFirst(list: seq<Task>, s: set<Task>, inside: bool)
    requires list != []
    ensures Those(list, s, inside) == (if list[0] in s <==> inside then [list[0]] else []) + Those(list[1..], s, inside)
  {
  }

  lemma {:induction false} ThoseOfSum(a: seq<Task>, b: seq<Task>, s: set<Task>, inside: bool)
    ensures Those(a + b, s, inside) == Those(a, s, inside) + Those(b, s, inside)
  {
    if a == [] {
      assert a + b == b;
    } else {
      ThoseFirst(a, s, inside);
      ThoseFirst(a + b, s, inside);
      assert (a + b)[0] == a[0] && (a + b)[1..] == a[1..] + b;
      hide Those;
      ThoseOfSum(a[1..], b, s, inside);
      Regroup(if a[0] in s <==> inside then [a[0]] else [], Those(a[1..], s, inside), Those(b, s, inside));
    }
  }

  /** A list none of whose tasks is in s. */
  lemma {:induction false} NoneOfThose(list: seq<Task>, s: set<Task>)
    requires forall i :: 0 <= i < |list| ==> list[i] !in s
    ensures Those(list, s, true) == [] && Those(list, s, false) == list
  {
    if list != [] {
      NoneOfThose(list[1..], s);
    }
  }

  /** Taking the first task that is in s off the list. */
  lemma FirstOfThose(list: seq<Task>, s: set<Task>, k: nat)
    requires k < |list| && list[k] in s && forall i :: 0 <= i < k ==> list[i] !in s
    ensures Those(list, s, true) == [list[k]] + Those(list[..k] + list[k + 1..], s, true)
    ensures Those(list, s, false) == Those(list[..k] + list[k + 1..], s, false)
  {
    var a, x, b := list[..k], list[k], list[k + 1..];
    assert list == a + ([x] + b);
    NoneOfThose(a, s);
    NextOfThose(x, b, s);
    hide Those;
    ThoseOfSum(a, [x] + b, s, true);
    ThoseOfSum(a, [x] + b, s, false);
    ThoseOfSum(a, b, s, true);
    ThoseOfSum(a, b, s, false);
  }

  lemma NextOfThose(x: Task, list: seq<Task>, s: set<Task>)
    requires x in s
    ensures Those([x] + list, s, true) == [x] + Those(list, s, true) &&
            Those([x] + list, s, false) == Those(list, s, false)
  {
    assert ([x] + list)[1..] == list;
  }

  /** Part of an ordered list is ordered. */
  lemma {:induction false} ThoseOrdered(base: nat, list: seq<Task>, s: set<Task>)
    requires SleepOrdered(base, list)
    ensures SleepOrdered(base, Those(list, s, true))
  {
    hide MayPrecede, InWindow;
    if list != [] {
      var x, rest, r := list[0], list[1..], Those(list[1..], s, true);
      assert forall i :: 0 <= i < |rest| ==> rest[i] == list[i + 1];
      ThoseOrdered(base, rest, s);
      ThoseWhich(rest, s, true);
      FirstBefore(base, list, r);
      OneMoreInFront(base, x, r);
    }
  }

  lemma FirstBefore(base: nat, list: seq<Task>, r: seq<Task>)
    requires SleepOrdered(base, list) && list != [] && AllIn(r, list[1..])
    ensures InWindow(base, list[0].tickSleep) && forall j :: 0 <= j < |r| ==> MayPrecede(base, list[0], r[j])
  {
    hide MayPrecede, InWindow;
    forall j | 0 <= j < |r|
      ensures MayPrecede(base, list[0], r[j])
    {
      assert r[j] in list[1..];
      var i :| 0 <= i < |list[1..]| && list[1..][i] == r[j];
      assert list[i + 1] == r[j];
    }
  }

  lemma OrderedPairs(base: nat, list: seq<Task>)
    requires SleepOrdered(base, list)
    ensures forall i, j :: 0 <= i < j < |list| ==> MayPrecede(base, list[i], list[j])
  {
  }

  lemma OneMoreInFront(base: nat, x: Task, r: seq<Task>)
    requires SleepOrdered(base, r) && InWindow(base, x.tickSleep) &&
             forall j :: 0 <= j < |r| ==> MayPrecede(base, x, r[j])
    ensures SleepOrdered(base, [x] + r)
  {
  }

  lemma AllInLess(a: seq<Task>, b: seq<Task>, k: nat)
    requires AllIn(a, b) && k < |a|
    ensures a[k] in b && AllIn(a[..k] + a[k + 1..], b)
  {
  }

  /** The ready list has gained these tasks, each priority in their order. */
  ghost predicate Gained(before: seq<Task>, after: seq<Task>, ts: seq<Task>) {
    && multiset(after) == multiset(before) + multiset(ts)
    && forall p {:trigger OfPriority(after, p)} :: OfPriority(after, p) == OfPriority(before, p) + OfPriority(ts, p)
  }

  lemma NobodyWoken(ready: seq<Task>)
    ensures Gained(ready, ready, [])
  {
  }

  /** A change to a task that is not on the list leaves the list ordered. */
  twostate lemma OthersOrdered(new base: nat, list: seq<Task>, new t: Task)
    requires t !in list && old(SleepOrdered(base, list)) &&
             forall i :: 0 <= i < |list| && list[i] != t ==> unchanged(list[i])
    ensures SleepOrdered(base, list)
  {
  }

  lemma InsertedSleeps(base: nat, list: seq<Task>, t: Task, k: nat)
    requires Distinct(list) && SleepOrdered(base, list) && k <= |list| && t !in list && InWindow(base, t.tickSleep)
    requires forall i :: 0 <= i < k ==> MayPrecede(base, list[i], t)
    requires k < |list| ==> MayPrecede(base, t, list[k])
    ensures Distinct(list[..k] + [t] + list[k..]) && SleepOrdered(base, list[..k] + [t] + list[k..])
  {
    if k < |list| {
      ThenAll(base, list, t, k);
    }
    hide MayPrecede, InWindow, SleepOrdered, Distinct;
    InsertedOrder(base, list, t, k);
    InsertedDistinct(list, t, k);
  }

  lemma ThenAll(base: nat, list: seq<Task>, t: Task, k: nat)
    requires SleepOrdered(base, list) && k < |list| && MayPrecede(base, t, list[k])
    ensures forall i :: k <= i < |list| ==> MayPrecede(base, t, list[i])
  {
    forall i | k < i < |list|
      ensures MayPrecede(base, t, list[i])
    {
      assert MayPrecede(base, list[k], list[i]);
    }
  }

  /** What does not precede t is followed only by tasks that do not. */
  lemma AllBehind(base: nat, list: seq<Task>, t: Task, k: nat)
    requires SleepOrdered(base, list) && k < |list| && !MayPrecede(base, list[k], t)
    ensures forall i :: k <= i < |list| ==> !MayPrecede(base, list[i], t)
  {
    forall i | k < i < |list|
      ensures !MayPrecede(base, list[i], t)
    {
      assert MayPrecede(base, list[k], list[i]);
    }
  }

  /** A list with a task out of the window is not in order. */
  lemma OutOfWindow(base: nat, list: seq<Task>, k: nat)
    requires k < |list| && !InWindow(base, list[k].tickSleep)
    ensures !SleepOrdered(base, list)
  {
  }

  lemma InsertedDistinct(list: seq<Task>, t: Task, k: nat)
    requires Distinct(list) && k <= |list| && t !in list
    ensures Distinct(list[..k] + [t] + list[k..])
  {
    var r := list[..k] + [t] + list[k..];
    assert forall i :: 0 <= i < |r| ==> r[i] == if i < k then list[i] else if i == k then t else list[i - 1];
  }

  lemma InsertedOrder(base: nat, list: seq<Task>, t: Task, k: nat)
    requires SleepOrdered(base, list) && k <= |list| && InWindow(base, t.tickSleep)
    requires forall i :: 0 <= i < k ==> MayPrecede(base, list[i], t)
    requires forall i :: k <= i < |list| ==> MayPrecede(base, t, list[i])
    ensures SleepOrdered(base, list[..k] + [t] + list[k..])
  {
    hide MayPrecede, InWindow;
    var r := list[..k] + [t] + list[k..];
    assert forall i :: 0 <= i < |r| ==> r[i] == if i < k then list[i] else if i == k then t else list[i - 1];
    forall i, j | 0 <= i < j < |r|
      ensures MayPrecede(base, r[i], r[j])
    {
    }
  }

  lemma RemovedSleeps(base: nat, list: seq<Task>, k: nat)
    requires Distinct(list) && SleepOrdered(base, list) && k < |list|
    ensures Distinct(list[..k] + list[k + 1..]) && SleepOrdered(base, list[..k] + list[k + 1..])
    ensures list[k] !in list[..k] + list[k + 1..]
  {
  }

  lemma OneTakenOff(list: seq<Task>, k: nat)
    requires k < |list| && (forall i :: 0 <= i < k ==> list[i] != list[k]) && list[k] !in list[..k] + list[k + 1..]
    ensures list[..k] + list[k + 1..] == Those(list, {list[k]}, false)
  {
    FirstOfThose(list, {list[k]}, k);
    NoneOfThose(list[..k] + list[k + 1..], {list[k]});
  }

  lemma GainsOne(before: seq<Task>, mid: seq<Task>, after: seq<Task>, ts: seq<Task>, t: Task)
    requires Gained(before, mid, ts) && Joins(mid, after, t)
    ensures Gained(before, after, ts + [t])
  {
    forall p
      ensures OfPriority(after, p) == OfPriority(before, p) + OfPriority(ts + [t], p)
    {
      OfPrioritySum(ts, [t], p);
      OneOfPriority(t, p);
      assert OfPriority(mid, p) == OfPriority(before, p) + OfPriority(ts, p);
    }
  }
}
