/**
  What the scheduler's steps (FreeRTOS/Source/tasks.c) leave alone, and that no signal is lost that comes while
  the scheduler is suspended.
*/
module SchedulerLaws {
  import opened TaskLists
  import opened TickTime
  import opened Scheduling
  import opened SchedulerSteps
  import PI = PriorityInheritance

  // ---------- what a step leaves alone ----------

  /** The running task and the suspensions are as before, and so are the priorities but those of the tasks in
      `out`. */
  ghost predicate Unmoved(k: K, k': K, out: set<Task>) {
    && k'.current == k.current && k'.suspensions == k.suspensions && k'.levels == k.levels
    && forall u | u !in out :: RankOf(k', u) == RankOf(k, u)
  }

  /** The task whose rank a step changes */
  function Ranks(k: K, step: Step): set<Task> {
    match step
    case CreateOne(t, _) => {t}
    case Prioritize(t, _) => {t}
    case InheritBy(t) => {t}
    case TakeMutex => {k.current}
    case ReturnMutex => {k.current}
    case _ => {}
  }

  lemma WakeUnmoved(k: K, t: Task)
    requires Inv(k) && t in k.home
    ensures Unmoved(k, Wake(k, t), {}) && Unmoved(k, AddReady(Detach(k, t), t), {})
  {
    WakeFields(k, t);
    ReadyFields(k, t);
  }

  lemma ParkUnmoved(k: K, t: Task, id: ListId)
    requires Home(k.home, t) != Nowhere
    ensures Unmoved(k, Park(LeaveEvent(k, t), t, id), {})
  {
    LeaveEventFields(k, t);
    ParkFields(LeaveEvent(k, t), t, id);
  }

  lemma BlockUnmoved(k: K, t: Task, v: nat, k': K)
    requires Core(k, k.tick + 1) && t in k.home && t != IDLE && v < EPOCH && v != k.tick && k' == BlockUntil(k, t, v)
    ensures Unmoved(k, k', {})
  {
    BlockUntilKeeps(k, t, v, k');
  }

  lemma SleepUnmoved(k: K, wait: nat, k': K)
    requires Core(k, k.tick + 1) && k.current in k.home && k.current != IDLE && 0 < wait < EPOCH
    requires k' == BlockUntil(k, k.current, Wrap(k.tick + wait))
    ensures Unmoved(k, k', {})
  {
    WrapOnce(k.tick, wait);
    BlockUnmoved(k, k.current, Wrap(k.tick + wait), k');
  }

  lemma WaitForeverUnmoved(k: K, t: Task, k': K)
    requires Home(k.home, t) != Nowhere && k' == Park(k, t, Suspended)
    ensures Unmoved(k, k', {})
  {
    ParkFields(k, t, Suspended);
  }

  lemma UnmovedAfterEvent(k: K, k1: K, k': K)
    requires k1 == k.(event := k1.event) && Unmoved(k1, k', {})
    ensures Unmoved(k, k', {})
  {
  }

  lemma WaitUnmoved(k: K, wait: nat, k1: K, k': K)
    requires Inv(k) && Enabled(k, WaitForEvent(wait)) && k' == PlaceOnEventList(k, wait)
    requires k1 == k.(event := k.event[k.current := OnEventList])
    ensures Unmoved(k, k', {})
  {
    WaitParts(k, wait, k1);
    EventChanges(k.event, k.pendingReady, k.home.Keys, k.current);
    if wait == MAX_DELAY {
      WaitForeverUnmoved(k1, k1.current, k');
    } else {
      SleepUnmoved(k1, wait, k');
    }
    UnmovedAfterEvent(k, k1, k');
  }

  lemma RerankUnmoved(k: K, t: Task, r: PI.Rank)
    ensures Unmoved(k, Rerank(k, t, r), {t}) && RankOf(Rerank(k, t, r), t) == r
  {
    RerankFrame(k, t, r);
    RerankRank(k, t, r);
  }

  lemma OwnUnmoved(k: K, step: Step, k': K)
    requires Inv(k) && Enabled(k, step) && k' == Next(k, step) && (step.Sleep? || step.WaitForEvent?)
    ensures Unmoved(k, k', {})
  {
    match step
    case Sleep(wait) =>
      SleepNext(k, wait);
      SleepUnmoved(k, wait, SleepFor(k, wait));
    case WaitForEvent(wait) => WaitUnmoved(k, wait, k.(event := k.event[k.current := OnEventList]), k');
  }

  lemma SignalUnmoved(k: K, step: Step, t: Task, k': K)
    requires Inv(k) && Enabled(k, step) && k' == Next(k, step) && (step == Signal(t) || step == SignalUnordered(t))
    ensures Unmoved(k, k', {})
  {
    WakeUnmoved(k, t);
  }

  lemma ResumeOneUnmoved(k: K, step: Step, t: Task, k': K)
    requires Inv(k) && Enabled(k, step) && k' == Next(k, step) && step == ResumeOne(t)
    ensures Unmoved(k, k', {})
  {
    WakeUnmoved(k, t);
  }

  lemma ResumeISRUnmoved(k: K, step: Step, t: Task, k': K)
    requires Inv(k) && Enabled(k, step) && k' == Next(k, step) && step == ResumeInISR(t)
    ensures Unmoved(k, k', {})
  {
    WakeUnmoved(k, t);
  }

  lemma RemovalUnmoved(k: K, step: Step, t: Task, k': K)
    requires Inv(k) && Enabled(k, step) && k' == Next(k, step) && (step == SuspendOne(t) || step == DeleteOne(t))
    ensures Unmoved(k, k', {})
  {
    ParkUnmoved(k, t, Suspended);
    ParkUnmoved(k, t, Terminated);
  }

  lemma CreateUnmoved(k: K, t: Task, p: nat, k': K)
    requires Inv(k) && t !in k.home && k' == Create(k, t, p)
    ensures Unmoved(k, k', {t}) && RankOf(k', t) == PI.Rank(Clamped(k, p), Clamped(k, p), 0)
  {
    var r := PI.Rank(Clamped(k, p), Clamped(k, p), 0);
    CreateFields(k, t, r, Ready(r.priority), if r.priority > k.topReady then r.priority else k.topReady);
  }

  lemma SetUnmoved(k: K, t: Task, p: nat, k': K)
    requires Inv(k) && k' == SetPriority(k, t, p)
    ensures Unmoved(k, k', {t})
  {
    RerankUnmoved(k, t, PI.Reranked(RankOf(k, t), Clamped(k, p)));
  }

  lemma InheritUnmoved(k: K, t: Task, k': K)
    requires k' == Inherit(k, t)
    ensures Unmoved(k, k', {t})
  {
    RerankUnmoved(k, t, PI.Inherited(RankOf(k, t), Priority(k.rank, k.current)));
  }

  lemma ReturnUnmoved(k: K, k': K)
    requires RankOf(k, k.current).held > 0 && k' == Disinherit(k)
    ensures Unmoved(k, k', {k.current})
  {
    RerankUnmoved(k, k.current, PI.Returned(RankOf(k, k.current)));
  }

  lemma TickUnmoved(k: K, k': K)
    requires Inv(k) && k' == if k.suspensions > 0 then k.(pendedTicks := k.pendedTicks + 1) else CountTick(k)
    ensures Unmoved(k, k', {})
  {
    if k.suspensions == 0 {
      CountTickWakesOnTime(k, k');
    }
  }

  lemma CaughtUpUnmoved(k: K, k': K)
    requires Core(k, k.tick + 1) && k' == CatchUp(k)
    ensures Unmoved(k, k', {})
  {
    var k2 := MovePending(k);
    MovePendingKeeps(k, k2);
    ReplayCatchesUp(k2, k');
    ElapsedUnmoved(k, k2, k', k2.pendedTicks);
  }

  lemma ElapsedUnmoved(k: K, k2: K, k': K, n: nat)
    requires SameClock(k, k2) && Elapsed(k2, k', n)
    ensures Unmoved(k, k', {})
  {
  }

  lemma ResumeUnmoved(k: K, k': K)
    requires Inv(k) && k.suspensions > 0 && k' == ResumeAll(k)
    ensures Unmoved(k.(suspensions := k.suspensions - 1), k', {})
  {
    var k1 := k.(suspensions := k.suspensions - 1);
    FewerSuspensions(k, k1);
    if k1.suspensions == 0 {
      CaughtUpUnmoved(k1, k');
    }
  }

  lemma CreateStepUnmoved(k: K, step: Step, t: Task, p: nat, k': K)
    requires Inv(k) && Enabled(k, step) && k' == Next(k, step) && step == CreateOne(t, p)
    ensures Unmoved(k, k', {t})
  {
    CreateUnmoved(k, t, p, k');
  }

  lemma SetStepUnmoved(k: K, step: Step, t: Task, p: nat, k': K)
    requires Inv(k) && Enabled(k, step) && k' == Next(k, step) && step == Prioritize(t, p)
    ensures Unmoved(k, k', {t})
  {
    SetUnmoved(k, t, p, k');
  }

  lemma InheritStepUnmoved(k: K, step: Step, t: Task, k': K)
    requires Inv(k) && Enabled(k, step) && k' == Next(k, step) && step == InheritBy(t)
    ensures Unmoved(k, k', {t})
  {
    InheritUnmoved(k, t, k');
  }

  lemma MutexUnmoved(k: K, step: Step, k': K)
    requires Inv(k) && Enabled(k, step) && k' == Next(k, step) && (step == TakeMutex || step == ReturnMutex)
    ensures Unmoved(k, k', {k.current})
  {
    if step == ReturnMutex {
      ReturnUnmoved(k, k');
    }
  }

  lemma ClockUnmoved(k: K, step: Step, k': K)
    requires Inv(k) && Enabled(k, step) && k' == Next(k, step) && ClockStep(step)
    ensures Unmoved(if step == ResumeScheduler then k.(suspensions := k.suspensions - 1) else k, k', {})
  {
    if step == TickInterrupt {
      TickUnmoved(k, k');
    } else {
      ResumeUnmoved(k, k');
    }
  }

  lemma MoveUnmoved(k: K, step: Step, k': K)
    requires Inv(k) && Enabled(k, step) && k' == Next(k, step)
    requires step != SuspendScheduler && step != Switch && !ClockStep(step) && Ranks(k, step) == {}
    ensures Unmoved(k, k', {})
  {
    match step
    case Sleep(wait) => OwnUnmoved(k, step, k');
    case WaitForEvent(wait) => OwnUnmoved(k, step, k');
    case Signal(t) => SignalUnmoved(k, step, t, k');
    case SignalUnordered(t) => SignalUnmoved(k, step, t, k');
    case SuspendOne(t) => RemovalUnmoved(k, step, t, k');
    case DeleteOne(t) => RemovalUnmoved(k, step, t, k');
    case ResumeOne(t) => ResumeOneUnmoved(k, step, t, k');
    case ResumeInISR(t) => ResumeISRUnmoved(k, step, t, k');
    case ResetUnblockTime => ResetUnmoved(k, step, k');
  }

  lemma RankUnmoved(k: K, step: Step, k': K, t: Task)
    requires Inv(k) && Enabled(k, step) && k' == Next(k, step) && Ranks(k, step) == {t}
    ensures Unmoved(k, k', {t})
  {
    assert t in Ranks(k, step);
    match step
    case CreateOne(u, p) => CreateStepUnmoved(k, step, u, p, k');
    case Prioritize(u, p) => SetStepUnmoved(k, step, u, p, k');
    case InheritBy(u) => InheritStepUnmoved(k, step, u, k');
    case TakeMutex => MutexUnmoved(k, step, k');
    case ReturnMutex => MutexUnmoved(k, step, k');
  }

  lemma OtherUnmoved(k: K, step: Step, k': K)
    requires Inv(k) && Enabled(k, step) && k' == Next(k, step)
    requires step != SuspendScheduler && step != Switch && !ClockStep(step)
    ensures Unmoved(k, k', Ranks(k, step))
  {
    if t: Task :| Ranks(k, step) == {t} {
      RankUnmoved(k, step, k', t);
    } else {
      RanksAtMostOne(k, step);
      MoveUnmoved(k, step, k');
    }
  }

  lemma RanksAtMostOne(k: K, step: Step)
    ensures Ranks(k, step) == {} || exists t: Task :: Ranks(k, step) == {t}
  {
  }

  lemma ResetUnmoved(k: K, step: Step, k': K)
    requires Inv(k) && Enabled(k, step) && k' == Next(k, step) && step == ResetUnblockTime
    ensures Unmoved(k, k', {})
  {
  }

  /** Only a context switch changes the running task, only suspending the scheduler adds a suspension, and no step
      changes the priorities of a task but those that name it.  The clock steps change none of these but for the
      suspension that resuming takes off. */
  lemma StepUnmoved(k: K, step: Step, k': K)
    requires Inv(k) && Enabled(k, step) && k' == Next(k, step)
    ensures k'.levels == k.levels && (step != Switch ==> k'.current == k.current)
    ensures k'.suspensions ==
            k.suspensions + (if step == SuspendScheduler then 1 else 0) - (if step == ResumeScheduler then 1 else 0)
    ensures forall u | u !in Ranks(k, step) :: RankOf(k', u) == RankOf(k, u)
  {
    if step == SuspendScheduler || step == Switch {
      SwitchUnmoved(k, step, k');
    } else if ClockStep(step) {
      ClockUnmoved(k, step, k');
    } else {
      OtherUnmoved(k, step, k');
    }
  }

  lemma SwitchUnmoved(k: K, step: Step, k': K)
    requires Inv(k) && Enabled(k, step) && k' == Next(k, step) && (step == SuspendScheduler || step == Switch)
    ensures k'.levels == k.levels && (step != Switch ==> k'.current == k.current) && k'.rank == k.rank
    ensures k'.suspensions == k.suspensions + if step == SuspendScheduler then 1 else 0
  {
  }

  // ---------- no signal is lost ----------

  lemma SleepKeepsEvents(k: K, step: Step, wait: nat, k': K)
    requires Inv(k) && Enabled(k, step) && k' == Next(k, step) && step == Sleep(wait)
    ensures k'.event == k.event
  {
    SleepNext(k, wait);
    SleepResult(k, wait, SleepFor(k, wait));
  }

  lemma SetKeepsEvents(k: K, step: Step, t: Task, p: nat, k': K)
    requires Inv(k) && Enabled(k, step) && k' == Next(k, step) && step == Prioritize(t, p)
    ensures k'.event == k.event
  {
    RerankFrame(k, t, PI.Reranked(RankOf(k, t), Clamped(k, p)));
  }

  lemma InheritKeepsEvents(k: K, step: Step, t: Task, k': K)
    requires Inv(k) && Enabled(k, step) && k' == Next(k, step) && step == InheritBy(t)
    ensures k'.event == k.event
  {
    RerankFrame(k, t, PI.Inherited(RankOf(k, t), Priority(k.rank, k.current)));
  }

  lemma ReturnKeepsEvents(k: K, step: Step, k': K)
    requires Inv(k) && Enabled(k, step) && k' == Next(k, step) && step == ReturnMutex
    ensures k'.event == k.event
  {
    RerankFrame(k, k.current, PI.Returned(RankOf(k, k.current)));
  }

  /** Steps that may move a task but leave its event list item alone */
  lemma EventsUntouched(k: K, step: Step, k': K)
    requires Inv(k) && Enabled(k, step) && k' == Next(k, step)
    requires step.Sleep? || step.Prioritize? || step.InheritBy? || step.ReturnMutex?
    ensures k'.event == k.event
  {
    match step
    case Sleep(wait) => SleepKeepsEvents(k, step, wait, k');
    case Prioritize(t, p) => SetKeepsEvents(k, step, t, p, k');
    case InheritBy(t) => InheritKeepsEvents(k, step, t, k');
    case ReturnMutex => ReturnKeepsEvents(k, step, k');
  }

  /** Neither a suspension nor a deletion is meant for task `t`. */
  predicate Spares(step: Step, t: Task) {
    step != SuspendOne(t) && step != DeleteOne(t)
  }

  lemma StillPending(k: K, step: Step, k': K, t: Task)
    requires Inv(k) && Enabled(k, step) && k' == Next(k, step) && Event(k.event, t) == PendingReady && Spares(step, t)
    requires Inv(k') && k'.suspensions > 0
    ensures Event(k'.event, t) == PendingReady
  {
    if step == TickInterrupt {
      TickStep(k, k');
    } else if step == ResumeScheduler {
      ResumeAllStep(k, k');
    } else if step.Sleep? || step.Prioritize? || step.InheritBy? || step.ReturnMutex? {
      EventsUntouched(k, step, k');
    } else {
      PendingUntouched(k, step, t);
      OtherStep(k, step, k', Touched(k, step));
    }
  }

  lemma PendingUntouched(k: K, step: Step, t: Task)
    requires Inv(k) && Enabled(k, step) && Event(k.event, t) == PendingReady && Spares(step, t)
    requires !step.Sleep? && !step.Prioritize? && !step.InheritBy? && !step.ReturnMutex?
    ensures t !in Touched(k, step)
  {
    assert t in k.home;
  }

  /** Along the run the task stays on the pending ready list until the suspension ends, and the very step that
      ends it makes the task ready. */
  ghost predicate ReadyAtEnd(k: K, steps: seq<Step>, t: Task)
    requires Inv(k) && Admissible(k, steps)
    decreases |steps|
  {
    steps == [] ||
    var k' := After(k, steps[0]);
    if k'.suspensions > 0 then Event(k'.event, t) == PendingReady && ReadyAtEnd(k', steps[1..], t)
    else Home(k'.home, t) == Ready(Priority(k'.rank, t)) && Event(k'.event, t) == NoEvent
  }

  lemma {:induction false} PendingBecomesReady(k: K, steps: seq<Step>, t: Task)
    requires Inv(k) && Admissible(k, steps) && Event(k.event, t) == PendingReady
    requires forall s | s in steps :: Spares(s, t)
    ensures ReadyAtEnd(k, steps, t)
    decreases |steps|
  {
    if steps != [] {
      var k' := After(k, steps[0]);
      if k.suspensions == 0 {
        NonePending(k, t);
      }
      if k'.suspensions > 0 {
        StillPending(k, steps[0], k', t);
        PendingBecomesReady(k', steps[1..], t);
      } else {
        StepUnmoved(k, steps[0], k');
        ResumeAllStep(k, k');
      }
    }
  }

  /** A task that is signalled while the scheduler is suspended is ready after the step that ends the suspension,
      whatever happens in between, unless it is suspended or deleted. */
  lemma SignalIsNotLost(k: K, steps: seq<Step>, t: Task)
    requires Inv(k) && k.suspensions > 0 && Event(k.event, t) == OnEventList
    requires Admissible(After(k, Signal(t)), steps) && forall s | s in steps :: Spares(s, t)
    ensures ReadyAtEnd(After(k, Signal(t)), steps, t)
  {
    SignalResult(k, t, After(k, Signal(t)));
    PendingBecomesReady(After(k, Signal(t)), steps, t);
  }
}
