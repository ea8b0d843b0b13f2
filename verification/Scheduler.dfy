/**
  The scheduler's own variables and the loops that work on them (FreeRTOS/Source/tasks.c).  Each method
  is proved against the step of the same name.
*/
module Schedulers {
  import opened TaskLists
  import opened TickTime
  import opened Scheduling
  import Steps = SchedulerSteps
  import PI = PriorityInheritance
  import R = Rings

  class Scheduler {
    const levels: nat
    var lists: Lists
    var home: Homes
    var value: map<Task, nat>
    var rank: map<Task, PI.Rank>
    var event: Events
    var pendingReady: seq<Task>
    var swapped: bool
    var tick: nat
    var overflows: nat
    var pendedTicks: nat
    var topReady: nat
    var nextUnblock: nat
    var suspensions: nat
    var current: Task

    ghost function View(): K
      reads this
    {
      K(levels, lists, home, value, rank, event, pendingReady, swapped, tick, overflows, pendedTicks,
        topReady, nextUnblock, suspensions, current)
    }

    ghost predicate Valid()
      reads this
    {
      Inv(View())
    }

    /** The scheduler as it starts, with the idle task alone */
    constructor (levels: nat)
      requires levels > 0
      ensures Valid() && this.levels == levels && Now(View()) == 0 && suspensions == 0 && current == IDLE
    {
      this.levels := levels;
      lists := map[Ready(0) := R.Ring([IDLE], 0)];
      home := map[IDLE := Ready(0)];
      value, rank, event, pendingReady := map[], map[IDLE := PI.Rank(0, 0, 0)], map[], [];
      swapped, tick, overflows, pendedTicks := false, 0, 0, 0;
      topReady, nextUnblock, suspensions, current := 0, MAX_DELAY, 0, IDLE;
    }

    /** uxListRemove on the generic list item of task `t` */
    method ListRemove(t: Task)
      modifies this`lists, this`home
      ensures View() == Detach(old(View()), t)
    {
      var id := Home(home, t);
      if id != Nowhere {
        lists := lists[id := Unlinked(RingOf(lists, id), t)];
        home := home[t := Nowhere];
      }
    }

    /** vListInsertEnd */
    method InsertEnd(t: Task, id: ListId)
      modifies this`lists, this`home
      ensures View() == AttachEnd(old(View()), t, id)
    {
      lists := lists[id := R.InsertEnd(RingOf(lists, id), t)];
      home := home[t := id];
    }

    /** prvAddTaskToReadyList */
    method AddTaskToReadyList(t: Task)
      modifies this`lists, this`home, this`topReady
      ensures View() == AddReady(old(View()), t)
    {
      if Priority(rank, t) > topReady {
        topReady := Priority(rank, t);
      }
      InsertEnd(t, Ready(Priority(rank, t)));
    }

    /** uxListRemove on the event list item of task `t`, if that is in a list */
    method EventRemove(t: Task)
      modifies this`event, this`pendingReady
      ensures View() == LeaveEvent(old(View()), t)
    {
      match Event(event, t)
      case NoEvent =>
      case OnEventList => event := event[t := NoEvent];
      case PendingReady =>
        pendingReady := Without(pendingReady, t);
        event := event[t := NoEvent];
    }

    method Awake(t: Task)
      modifies this`event, this`pendingReady, this`lists, this`home, this`topReady
      ensures View() == Wake(old(View()), t)
    {
      EventRemove(t);
      ListRemove(t);
      AddTaskToReadyList(t);
    }

    /** prvResetNextTaskUnblockTime: the least wake time in the current delayed list, if there is one */
    method ResetNextTaskUnblockTime()
      requires Counted(lists, home) && Sorted(lists, value)
      modifies this`nextUnblock
      ensures View() == ResetUnblock(old(View()))
      ensures forall t | Home(home, t) == Current(swapped) :: nextUnblock <= ValueOf(value, t)
      ensures if DelayedItems(View()) == [] then nextUnblock == MAX_DELAY
              else var t := DelayedItems(View())[0]; Home(home, t) == Current(swapped) && nextUnblock == ValueOf(value, t)
      ensures old(Valid()) ==> Valid()
    {
      ghost var k' := ResetUnblock(View());
      Steps.ResetIsLeast(View(), k');
      Steps.ResetKept(View(), k');
      var delayed := Items(lists, Current(swapped));
      if delayed == [] {
        nextUnblock := MAX_DELAY;
      } else {
        nextUnblock := ValueOf(value, delayed[0]);
      }
      assert View() == k';
    }

    /** The for(;;) loop of xTaskIncrementTick */
    method UnblockTasks()
      requires Core(View(), tick)
      modifies this`event, this`pendingReady, this`lists, this`home, this`topReady, this`nextUnblock
      ensures View() == Unblock(old(View())) && Woken(old(View()), View())
    {
      ghost var k := View();
      WakeDueTasks(k);
      UnblockWakes(k, View());
    }

    method WakeDueTasks(ghost k: K)
      requires k == View() && Core(k, k.tick)
      modifies this`event, this`pendingReady, this`lists, this`home, this`topReady, this`nextUnblock
      ensures View() == Unblock(k)
    {
      while true
        invariant Core(View(), tick) && Unblock(View()) == Unblock(k)
        decreases |DelayedItems(View())|
      {
        var delayed := Items(lists, Current(swapped));
        if delayed == [] {
          nextUnblock := MAX_DELAY;
          break;
        }
        var t := delayed[0];
        if tick < ValueOf(value, t) {
          nextUnblock := ValueOf(value, t);
          break;
        }
        WakeHead(View(), t, Wake(View(), t));
        WakeKeeps(View(), t, tick);
        Awake(t);
      }
    }

    method AdvanceTick()
      requires Counted(lists, home) && Sorted(lists, value)
      modifies this`tick, this`swapped, this`overflows, this`nextUnblock
      ensures View() == Advanced(old(View()))
    {
      tick := if tick == MAX_DELAY then 0 else tick + 1;
      if tick == 0 {
        swapped := !swapped;
        overflows := overflows + 1;
        ResetNextTaskUnblockTime();
      }
    }

    /** xTaskIncrementTick */
    method IncrementTick()
      requires Core(View(), tick + 1)
      modifies this
      ensures Core(View(), tick + 1) && (old(Valid()) ==> Valid())
      ensures View() == if old(suspensions) > 0 then old(View()).(pendedTicks := old(pendedTicks) + 1)
                        else CountTick(old(View()))
      ensures Now(View()) + pendedTicks == old(Now(View())) + old(pendedTicks) + 1
      ensures old(suspensions) == 0 ==> Elapsed(old(View()), View(), 1)
    {
      ghost var k := View();
      ProcessTick(k);
      Steps.TickResult(k, View());
    }

    /** The body of xTaskIncrementTick */
    method ProcessTick(ghost k: K)
      requires k == View() && Core(k, k.tick + 1)
      modifies this
      ensures View() == if k.suspensions > 0 then k.(pendedTicks := k.pendedTicks + 1) else CountTick(k)
    {
      if suspensions == 0 {
        AdvancedKeeps(k);
        AdvanceTick();
        if tick >= nextUnblock {
          UnblockTasks();
        }
      } else {
        pendedTicks := pendedTicks + 1;
      }
    }

    /** vTaskSuspendAll */
    method SuspendAll()
      requires Valid()
      modifies this`suspensions
      ensures Valid() && View() == Steps.Next(old(View()), Steps.SuspendScheduler)
      ensures View() == old(View()).(suspensions := old(suspensions) + 1)
    {
      Steps.StepKeeps(View(), Steps.SuspendScheduler);
      suspensions := suspensions + 1;
    }

    /** xTaskResumeAll */
    method ResumeAllTasks()
      requires Valid() && suspensions > 0
      modifies this
      ensures Valid() && View() == Steps.Next(old(View()), Steps.ResumeScheduler)
      ensures Now(View()) + pendedTicks == old(Now(View())) + old(pendedTicks) && suspensions == old(suspensions) - 1
      ensures suspensions == 0 ==> pendedTicks == 0 && pendingReady == []
      ensures suspensions == 0 ==> forall t | old(Event(event, t)) == PendingReady ::
                                     Home(home, t) == Ready(Priority(rank, t)) && Event(event, t) == NoEvent
      ensures suspensions > 0 ==> View() == old(View()).(suspensions := suspensions)
      ensures forall t | old(Event(event, t)) != PendingReady :: Steps.OnTime(old(View()), View(), t)
    {
      ghost var k' := ResumeAll(View());
      Steps.ResumeResult(View(), k');
      CatchUpTasks();
      assert View() == k';
    }

    method CatchUpTasks()
      requires Valid() && suspensions > 0
      modifies this
      ensures View() == ResumeAll(old(View()))
    {
      Steps.ResumeParts(View(), View().(suspensions := suspensions - 1));
      suspensions := suspensions - 1;
      if suspensions == 0 {
        MovePendingTasks();
        ReplayTicks();
      }
    }

    /** The loop over xPendingReadyList */
    method MovePendingTasks()
      requires Core(View(), tick + 1)
      modifies this`event, this`pendingReady, this`lists, this`home, this`topReady
      ensures View() == MovePending(old(View())) && Core(View(), tick + 1)
      ensures pendingReady == [] && PendingMoved(old(View()), View())
    {
      ghost var k := View();
      ReadyPending(k);
      MovePendingKeeps(k, View());
    }

    method ReadyPending(ghost k: K)
      requires k == View() && Core(k, k.tick + 1)
      modifies this`event, this`pendingReady, this`lists, this`home, this`topReady
      ensures Core(View(), tick + 1) && View() == MovePending(k)
    {
      while pendingReady != []
        invariant Core(View(), tick + 1) && MovePending(View()) == MovePending(k)
        decreases |pendingReady|
      {
        var t := pendingReady[0];
        PendingLeaves(View(), t);
        Awake(t);
      }
    }

    /** The loop over uxPendedTicks: every one of them is counted, and wakes the tasks that are due by then. */
    method ReplayTicks()
      requires Core(View(), tick + 1) && suspensions == 0
      modifies this
      ensures View() == Replay(old(View())) && pendedTicks == 0 && Elapsed(old(View()), View(), old(pendedTicks))
    {
      ghost var k := View();
      CountPendedTicks(k);
      ReplayCatchesUp(k, View());
    }

    method CountPendedTicks(ghost k: K)
      requires k == View() && Core(k, k.tick + 1) && suspensions == 0
      modifies this
      ensures View() == Replay(k)
    {
      while pendedTicks > 0
        invariant Core(View(), tick + 1) && suspensions == 0 && Replay(View()) == Replay(k)
        decreases pendedTicks
      {
        ghost var k0 := View();
        CountPended(k0);
        ReplayStep(k0, View());
      }
    }

    /** One round of the loop: the tick is counted, and then taken off the pended ones. */
    method CountPended(ghost k: K)
      requires k == View() && Core(k, k.tick + 1) && suspensions == 0 && pendedTicks > 0
      modifies this
      ensures View() == CountTick(k).(pendedTicks := k.pendedTicks - 1)
    {
      CountTickKeepsPended(k);
      IncrementTick();
      pendedTicks := pendedTicks - 1;
    }

    /** vTaskSwitchContext with taskSELECT_HIGHEST_PRIORITY_TASK: the task that runs then is ready, and none is
        ready at a higher priority. */
    method SwitchContext()
      requires Valid()
      modifies this`topReady, this`current, this`lists
      ensures Valid() && View() == Steps.Next(old(View()), Steps.Switch) && Steps.Quiet(old(View()), View(), {})
      ensures suspensions == 0 ==>
                && Home(home, current) == Ready(Priority(rank, current))
                && forall t | Home(home, t).Ready? :: Priority(rank, t) <= Priority(rank, current)
      ensures suspensions > 0 ==> current == old(current)
    {
      ghost var k' := Steps.SwitchContext(View());
      Steps.SwitchResult(View(), k');
      ChooseNext();
      assert View() == k';
    }

    method ChooseNext()
      requires Valid()
      modifies this`topReady, this`current, this`lists
      ensures View() == Steps.SwitchContext(old(View()))
    {
      if suspensions == 0 {
        Steps.SomeReady(View());
        FindTop();
        ServeNext(old(View()));
      }
    }

    /** listGET_OWNER_OF_NEXT_ENTRY on the ready list that was found */
    method ServeNext(ghost k: K)
      requires View() == k.(topReady := topReady) && topReady == Steps.Highest(k.lists, k.topReady)
      requires k.suspensions == 0 && Items(lists, Ready(topReady)) != []
      modifies this`current, this`lists
      ensures View() == Steps.SwitchContext(k)
    {
      var r := R.Select(RingOf(lists, Ready(topReady)));
      Steps.SwitchParts(k, topReady, r);
      lists := lists[Ready(topReady) := r];
      current := r.items[r.cursor - 1];
    }

    /** The loop of taskSELECT_HIGHEST_PRIORITY_TASK */
    method FindTop()
      requires Items(lists, Ready(Steps.Highest(lists, topReady))) != []
      modifies this`topReady
      ensures topReady == Steps.Highest(lists, old(topReady)) && Items(lists, Ready(topReady)) != []
    {
      while Items(lists, Ready(topReady)) == []
        invariant Steps.Highest(lists, topReady) == Steps.Highest(lists, old(topReady))
        decreases topReady
      {
        topReady := topReady - 1;
      }
    }

    /** prvAddCurrentTaskToDelayedList */
    method AddCurrentTaskToDelayedList(wake: nat)
      modifies this`lists, this`home, this`value, this`nextUnblock
      ensures View() == AddDelayed(old(View()), current, wake)
    {
      value := value[current := wake];
      var id := if wake < tick then Overflow(swapped) else Current(swapped);
      lists := Inserted(lists, id, current, value);
      home := home[current := id];
      if wake >= tick && wake < nextUnblock {
        nextUnblock := wake;
      }
    }

    /** Takes the current task out of its ready list and delays it. */
    method BlockCurrent(wake: nat)
      modifies this`lists, this`home, this`value, this`nextUnblock
      ensures View() == Steps.BlockUntil(old(View()), current, wake)
    {
      ListRemove(current);
      AddCurrentTaskToDelayedList(wake);
    }

    /** The part of vTaskDelay between vTaskSuspendAll and xTaskResumeAll: the running task is delayed until
        `wait` ticks from now in unbounded time. */
    method Delay(wait: nat)
      requires Valid() && Steps.Enabled(View(), Steps.Sleep(wait))
      modifies this`lists, this`home, this`value, this`nextUnblock
      ensures Valid() && View() == Steps.Next(old(View()), Steps.Sleep(wait))
      ensures Delayed(View(), current) && Due(View(), current) == old(Now(View())) + wait
      ensures Steps.Quiet(old(View()), View(), {current})
    {
      ghost var k := View();
      BlockFor(wait, k);
      Steps.SleepResult(k, wait, View());
    }

    method BlockFor(wait: nat, ghost k: K)
      requires k == View()
      modifies this`lists, this`home, this`value, this`nextUnblock
      ensures View() == Steps.SleepFor(k, wait)
    {
      BlockCurrent(Wrap(tick + wait));
    }

    /** The decision of vTaskDelayUntil */
    method ShouldDelay(previous: nat, increment: nat) returns (next: nat, delayed: bool)
      requires previous < EPOCH && tick < EPOCH && 0 < increment < EPOCH
      ensures next == Wrap(previous + increment)
      ensures delayed <==> increment > Wrap(tick - previous)
    {
      next := Wrap(previous + increment);
      delayed := false;
      if tick < previous {
        if next < previous && next > tick {
          delayed := true;
        }
      } else {
        if next < previous || next > tick {
          delayed := true;
        }
      }
      ShouldDelayMeaning(previous, increment, tick);
    }

    /** The same part of vTaskDelayUntil; `next` is the new value of the caller's variable.  The running task
        is delayed until the increment is over, counted from `previous`. */
    method DelayUntil(previous: nat, increment: nat) returns (next: nat, delayed: bool)
      requires Valid() && Home(home, current).Ready? && current != IDLE
      requires previous < EPOCH && 0 < increment < EPOCH
      modifies this`lists, this`home, this`value, this`nextUnblock
      ensures Valid() && next == Wrap(previous + increment)
      ensures delayed <==> increment > Wrap(old(tick) - previous)
      ensures delayed ==> && Delayed(View(), current)
                          && Due(View(), current) == old(Now(View())) + (increment - Wrap(old(tick) - previous))
                          && Steps.Quiet(old(View()), View(), {current})
      ensures !delayed ==> View() == old(View())
    {
      ghost var k := View();
      next, delayed := ShouldDelay(previous, increment);
      if delayed {
        BlockCurrent(next);
        Steps.DelayResult(k, previous, increment, next, View());
      }
    }

    /** vTaskPlaceOnEventList, but for the insertion into the event list itself: the running task waits for
        its event, for `wait` ticks from now or without limit. */
    method PlaceOnEventList(wait: nat)
      requires Valid() && Steps.Enabled(View(), Steps.WaitForEvent(wait))
      modifies this`event, this`lists, this`home, this`value, this`nextUnblock
      ensures Valid() && View() == Steps.Next(old(View()), Steps.WaitForEvent(wait))
      ensures Event(event, current) == OnEventList && Steps.Quiet(old(View()), View(), {current})
      ensures if wait == MAX_DELAY then Home(home, current) == Suspended
              else Delayed(View(), current) && Due(View(), current) == old(Now(View())) + wait
    {
      ghost var k := View();
      AwaitEvent(wait, k);
      Steps.WaitResult(k, wait, View());
    }

    method AwaitEvent(wait: nat, ghost k: K)
      requires k == View()
      modifies this`event, this`lists, this`home, this`value, this`nextUnblock
      ensures View() == Steps.PlaceOnEventList(k, wait)
    {
      event := event[current := OnEventList];
      Steps.WaitParts(k, wait, View());
      if wait == MAX_DELAY {
        ParkCurrent(View());
      } else {
        BlockFor(wait, View());
      }
    }

    method ParkCurrent(ghost k: K)
      requires k == View()
      modifies this`lists, this`home
      ensures View() == Steps.Park(k, k.current, Suspended)
    {
      ListRemove(current);
      InsertEnd(current, Suspended);
    }

    /** xTaskRemoveFromEventList, with the task at the head of the event list: it is ready, or held back
        while the scheduler is suspended, and the answer tells whether it is to preempt the running task. */
    method RemoveFromEventList(t: Task) returns (higher: bool)
      requires Valid() && Steps.Enabled(View(), Steps.Signal(t))
      modifies this`event, this`pendingReady, this`lists, this`home, this`topReady
      ensures Valid() && View() == Steps.Next(old(View()), Steps.Signal(t)) && Steps.Quiet(old(View()), View(), {t})
      ensures if suspensions == 0 then Home(home, t) == Ready(Priority(rank, t)) && Event(event, t) == NoEvent
              else Home(home, t) == old(Home(home, t)) && Event(event, t) == PendingReady
      ensures higher <==> Priority(rank, t) > Priority(rank, current)
    {
      ghost var k := View();
      LeaveEventList(t, k);
      Steps.SignalResult(k, t, View());
      higher := Priority(rank, t) > Priority(rank, current);
    }

    method LeaveEventList(t: Task, ghost k: K)
      requires k == View() && Event(event, t) == OnEventList
      modifies this`event, this`pendingReady, this`lists, this`home, this`topReady
      ensures View() == Steps.RemoveFromEventList(k, t)
    {
      if suspensions == 0 {
        Awake(t);
      } else {
        event := event[t := PendingReady];
        pendingReady := pendingReady + [t];
      }
    }

    /** vTaskSuspend, up to the end of its first critical section: from whatever lists, the task goes to the
        suspended one and waits for nothing any more. */
    method TaskSuspend(t: Task)
      requires Valid() && Steps.Enabled(View(), Steps.SuspendOne(t))
      modifies this`event, this`pendingReady, this`lists, this`home
      ensures Valid() && View() == Steps.Next(old(View()), Steps.SuspendOne(t))
      ensures Home(home, t) == Suspended && Event(event, t) == NoEvent && Steps.Quiet(old(View()), View(), {t})
    {
      ghost var k' := Steps.SuspendTask(View(), t);
      Steps.SuspendResult(View(), t, k');
      MoveToSuspended(t);
      assert View() == k';
    }

    method MoveToSuspended(t: Task)
      modifies this`event, this`pendingReady, this`lists, this`home
      ensures View() == Steps.SuspendTask(old(View()), t)
    {
      Steps.RemovalsCommute(View(), t);
      ListRemove(t);
      EventRemove(t);
      InsertEnd(t, Suspended);
    }

    /** Gives task `t` a rank; a ready task goes to the end of the ready list of its new priority. */
    method ChangeRank(t: Task, r: PI.Rank)
      modifies this`lists, this`home, this`topReady, this`rank
      ensures View() == Steps.Rerank(old(View()), t, r)
    {
      if Home(home, t) == Ready(Priority(rank, t)) {
        ListRemove(t);
        rank := rank[t := r];
        AddTaskToReadyList(t);
      } else {
        rank := rank[t := r];
      }
    }

    /** vTaskPriorityInherit: afterwards the holder's priority is no lower than that of the running task, its
        base priority is as before, and if it is ready it is in the ready list of its new priority. */
    method PriorityInherit(holder: Task)
      requires Valid() && Steps.Enabled(View(), Steps.InheritBy(holder))
      modifies this`lists, this`home, this`topReady, this`rank
      ensures Valid() && View() == Steps.Next(old(View()), Steps.InheritBy(holder))
      ensures Priority(rank, holder) >= Priority(old(rank), holder) && Priority(rank, holder) >= Priority(old(rank), current)
      ensures Priority(rank, holder) == Priority(old(rank), holder) || Priority(rank, holder) == Priority(old(rank), current)
      ensures Steps.RankOf(View(), holder).base == old(Steps.RankOf(View(), holder).base)
      ensures Steps.Quiet(old(View()), View(), {holder})
    {
      ghost var k' := Steps.Inherit(View(), holder);
      Steps.InheritResult(View(), holder, k');
      RaiseHolder(holder);
      assert View() == k';
    }

    method RaiseHolder(holder: Task)
      modifies this`lists, this`home, this`topReady, this`rank
      ensures View() == Steps.Inherit(old(View()), holder)
    {
      if Priority(rank, holder) < Priority(rank, current) {
        var r := if holder in rank then rank[holder] else PI.Rank(0, 0, 0);
        ChangeRank(holder, r.(priority := Priority(rank, current)));
      }
    }

    /** xTaskPriorityDisinherit of the running task: with its last mutex an inherited priority goes, and the
        answer tells whether it did. */
    method PriorityDisinherit() returns (mustYield: bool)
      requires Valid() && Steps.Enabled(View(), Steps.ReturnMutex)
      modifies this`lists, this`home, this`topReady, this`rank
      ensures Valid() && View() == Steps.Next(old(View()), Steps.ReturnMutex)
      ensures Steps.RankOf(View(), current).held == old(Steps.RankOf(View(), current).held) - 1
      ensures Priority(rank, current) == if old(Steps.RankOf(View(), current).held) == 1
                                         then old(Steps.RankOf(View(), current).base) else Priority(old(rank), current)
      ensures mustYield <==> Priority(rank, current) != Priority(old(rank), current)
      ensures Steps.Quiet(old(View()), View(), {current})
    {
      ghost var k' := Steps.Disinherit(View());
      Steps.ReturnResult(View(), k');
      mustYield := GiveUpMutex();
      assert View() == k';
    }

    method GiveUpMutex() returns (mustYield: bool)
      requires Steps.RankOf(View(), current).held > 0
      modifies this`lists, this`home, this`topReady, this`rank
      ensures View() == Steps.Disinherit(old(View()))
      ensures mustYield <==> Priority(rank, current) != Priority(old(rank), current)
    {
      var r := rank[current];
      if r.priority != r.base && r.held == 1 {
        ChangeRank(current, r.(held := 0, priority := r.base));
        Steps.RerankRank(old(View()), current, PI.Returned(r));
        mustYield := true;
      } else {
        rank := rank[current := r.(held := r.held - 1)];
        mustYield := false;
      }
    }
  }

  lemma CountTickKeepsPended(k: K)
    requires Core(k, k.tick + 1)
    ensures CountTick(k).pendedTicks == k.pendedTicks
  {
    CountTickWakesOnTime(k, CountTick(k));
  }

  lemma ReplayStep(k: K, k1: K)
    requires Core(k, k.tick + 1) && k.pendedTicks > 0 && k.suspensions == 0
    requires k1 == CountTick(k).(pendedTicks := k.pendedTicks - 1)
    ensures Core(k1, k1.tick + 1) && k1.suspensions == 0 && Replay(k) == Replay(k1) && k1.pendedTicks == k.pendedTicks - 1
  {
    ReplayOnce(k, k1);
  }
}
