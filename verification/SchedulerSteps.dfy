/**
  The scheduler's operations as steps (FreeRTOS/Source/tasks.c), each one a critical section or an
  interrupt, and what holds over every run of them: an invariant, exact wake times, no tick lost, and
  the choice of the highest ready priority.
*/
module SchedulerSteps {
  import opened TaskLists
  import opened TickTime
  import opened Scheduling
  import PI = PriorityInheritance
  import R = Rings

  // ---------- the operations ----------

  /** Blocks task `t` until the tick count is `wake`. */
  function BlockUntil(k: K, t: Task, wake: nat): K {
    AddDelayed(Detach(k, t), t, wake)
  }

  /** The part of vTaskDelay between vTaskSuspendAll and xTaskResumeAll */
  function SleepFor(k: K, wait: nat): K {
    BlockUntil(k, k.current, Wrap(k.tick + wait))
  }

  /** Moves task `t` to the end of a list that is no ready or delayed list. */
  function Park(k: K, t: Task, id: ListId): K {
    AttachEnd(Detach(k, t), t, id)
  }

  /** vTaskPlaceOnEventList and vTaskPlaceOnUnorderedEventList, called by the current task */
  function PlaceOnEventList(k: K, wait: nat): K {
    var k1 := k.(event := k.event[k.current := OnEventList]);
    if wait == MAX_DELAY then Park(k1, k.current, Suspended) else BlockUntil(k1, k.current, Wrap(k.tick + wait))
  }

  /** xTaskRemoveFromEventList, with the task at the head of the event list */
  function RemoveFromEventList(k: K, t: Task): K {
    if k.suspensions == 0 then Wake(k, t)
    else k.(event := k.event[t := PendingReady], pendingReady := k.pendingReady + [t])
  }

  /** vTaskSuspend, without the new unblock time */
  function SuspendTask(k: K, t: Task): K {
    Park(LeaveEvent(k, t), t, Suspended)
  }

  /** prvTaskIsTaskSuspended */
  predicate IsSuspended(k: K, t: Task) {
    Home(k.home, t) == Suspended && Event(k.event, t) == NoEvent
  }

  function Resume(k: K, t: Task): K {
    if t != k.current && IsSuspended(k, t) then AddReady(Detach(k, t), t) else k
  }

  function ResumeFromISR(k: K, t: Task): K {
    if !IsSuspended(k, t) then k
    else if k.suspensions == 0 then AddReady(Detach(k, t), t)
    else k.(event := k.event[t := PendingReady], pendingReady := k.pendingReady + [t])
  }

  function Clamped(k: K, p: nat): nat
    requires k.levels > 0
  {
    if p >= k.levels then k.levels - 1 else p
  }

  /** xTaskGenericCreate, for a task whose priority is in range after clamping */
  function Create(k: K, t: Task, p: nat): K
    requires k.levels > 0
  {
    AddReady(k.(rank := k.rank[t := PI.Rank(Clamped(k, p), Clamped(k, p), 0)]), t)
  }

  /** vTaskDelete, without the new unblock time */
  function Delete(k: K, t: Task): K {
    Park(LeaveEvent(k, t), t, Terminated)
  }

  /** Gives task `t` a new rank, and moves it to the ready list of its new priority if it is ready. */
  function Rerank(k: K, t: Task, r: PI.Rank): K {
    if Home(k.home, t) == Ready(Priority(k.rank, t)) then AddReady(Detach(k, t).(rank := k.rank[t := r]), t)
    else k.(rank := k.rank[t := r])
  }

  function RankOf(k: K, t: Task): PI.Rank {
    if t in k.rank then k.rank[t] else PI.Rank(0, 0, 0)
  }

  /** vTaskPrioritySet */
  function SetPriority(k: K, t: Task, p: nat): K
    requires k.levels > 0
  {
    if RankOf(k, t).base == Clamped(k, p) then k
    else Rerank(k, t, PI.Reranked(RankOf(k, t), Clamped(k, p)))
  }

  /** vTaskPriorityInherit */
  function Inherit(k: K, holder: Task): K {
    if Priority(k.rank, holder) < Priority(k.rank, k.current) then
      Rerank(k, holder, PI.Inherited(RankOf(k, holder), Priority(k.rank, k.current)))
    else k
  }

  /** xTaskPriorityDisinherit */
  function Disinherit(k: K): K
    requires RankOf(k, k.current).held > 0
  {
    var r := PI.Returned(RankOf(k, k.current));
    if r.priority != Priority(k.rank, k.current) then Rerank(k, k.current, r)
    else k.(rank := k.rank[k.current := r])
  }

  /** pvTaskIncrementMutexHeldCount */
  function HoldMutex(k: K): K {
    var r := RankOf(k, k.current);
    k.(rank := k.rank[k.current := r.(held := r.held + 1)])
  }

  /** The highest priority up to `p` with a ready task. */
  function Highest(lists: Lists, p: nat): (q: nat)
    ensures q <= p && forall r | q < r <= p :: Items(lists, Ready(r)) == []
    ensures q > 0 ==> Items(lists, Ready(q)) != []
  {
    if p > 0 && Items(lists, Ready(p)) == [] then Highest(lists, p - 1) else p
  }

  /** vTaskSwitchContext: the task whose turn it is at the highest ready priority. */
  function SwitchContext(k: K): K {
    if k.suspensions > 0 then k
    else
      var p := Highest(k.lists, k.topReady);
      if Items(k.lists, Ready(p)) == [] then k
      else
        var r := R.Select(RingOf(k.lists, Ready(p)));    // listGET_OWNER_OF_NEXT_ENTRY
        k.(topReady := p, current := r.items[r.cursor - 1], lists := k.lists[Ready(p) := r])
  }

  datatype Step =
    | TickInterrupt
    | SuspendScheduler
    | ResumeScheduler
    | Switch
    | Sleep(wait: nat)
    | WaitForEvent(wait: nat)
    | Signal(t: Task)
    | SignalUnordered(t: Task)
    | SuspendOne(t: Task)
    | ResumeOne(t: Task)
    | ResumeInISR(t: Task)
    | CreateOne(t: Task, p: nat)
    | DeleteOne(t: Task)
    | Prioritize(t: Task, p: nat)
    | InheritBy(t: Task)
    | TakeMutex
    | ReturnMutex
    | ResetUnblockTime

  /** What the source demands of its callers.  The idle task never blocks and is never suspended or
      deleted; a task that blocks itself is running, so it is ready. */
  predicate Enabled(k: K, step: Step) {
    match step
    case TickInterrupt => true
    case SuspendScheduler => true
    case ResumeScheduler => k.suspensions > 0
    case Switch => true
    case Sleep(wait) => Home(k.home, k.current).Ready? && k.current != IDLE && 0 < wait < EPOCH
    case WaitForEvent(wait) =>
      && Home(k.home, k.current).Ready? && k.current != IDLE && 0 < wait < EPOCH
      && Event(k.event, k.current) == NoEvent
    case Signal(t) => Event(k.event, t) == OnEventList
    case SignalUnordered(t) => Event(k.event, t) == OnEventList && k.suspensions > 0
    case SuspendOne(t) => t in k.home && t != IDLE && (t == k.current ==> k.suspensions == 0)
    case ResumeOne(t) => t in k.home
    case ResumeInISR(t) => t in k.home
    case CreateOne(t, p) => t !in k.home
    case DeleteOne(t) => t in k.home && t != IDLE && (t == k.current ==> k.suspensions == 0)
    case Prioritize(t, p) => t in k.home
    case InheritBy(t) => t in k.home
    case TakeMutex => true
    case ReturnMutex => RankOf(k, k.current).held > 0 && Home(k.home, k.current).Ready?
    case ResetUnblockTime => true
  }

  function Next(k: K, step: Step): K
    requires Inv(k) && Enabled(k, step)
  {
    match step
    case TickInterrupt => if k.suspensions > 0 then k.(pendedTicks := k.pendedTicks + 1) else CountTick(k)
    case SuspendScheduler => k.(suspensions := k.suspensions + 1)
    case ResumeScheduler => ResumeAll(k)
    case Switch => SwitchContext(k)
    case Sleep(wait) => SleepFor(k, wait)
    case WaitForEvent(wait) => PlaceOnEventList(k, wait)
    case Signal(t) => RemoveFromEventList(k, t)
    case SignalUnordered(t) => Wake(k, t)
    case SuspendOne(t) => SuspendTask(k, t)
    case ResumeOne(t) => Resume(k, t)
    case ResumeInISR(t) => ResumeFromISR(k, t)
    case CreateOne(t, p) => Create(k, t, p)
    case DeleteOne(t) => Delete(k, t)
    case Prioritize(t, p) => SetPriority(k, t, p)
    case InheritBy(t) => Inherit(k, t)
    case TakeMutex => HoldMutex(k)
    case ReturnMutex => Disinherit(k)
    case ResetUnblockTime => ResetUnblock(k)
  }

  // ---------- what the operations keep ----------

  /** The two items of a task may leave their lists in either order. */
  lemma RemovalsCommute(k: K, t: Task)
    ensures LeaveEvent(Detach(k, t), t) == Detach(LeaveEvent(k, t), t)
  {
  }

  lemma WrapOnce(tick: nat, wait: nat)
    requires tick < EPOCH && 0 < wait < EPOCH
    ensures Wrap(tick + wait) == if tick + wait < EPOCH then tick + wait else tick + wait - EPOCH
  {
  }

  lemma DelayedSorted(lists: Lists, home: Homes, value: map<Task, nat>, t: Task, id: ListId, v: nat)
    requires Counted(lists, home) && Sorted(lists, value) && Home(home, t) == Nowhere
    requires id == DelayedA || id == DelayedB
    ensures var value' := value[t := v];
            Counted(Inserted(lists, id, t, value'), home[t := id]) && Sorted(Inserted(lists, id, t, value'), value')
  {
    var value' := value[t := v];
    assert Count(lists, DelayedA, t) == 0 && Count(lists, DelayedB, t) == 0;
    SortedElsewhere(Items(lists, DelayedA), value, t, v);
    SortedElsewhere(Items(lists, DelayedB), value, t, v);
    InsertionSorted(Items(lists, id), t, value');
    InsertionAddsOne(Items(lists, id), t, value');
    var r := RingOf(lists, id).(items := Insertion(Items(lists, id), t, value'));
    assert CursorIn(RingOf(lists, id)) && |multiset(r.items)| == |multiset(Items(lists, id))| + 1;
    AttachCounted(lists, home, t, id, r);
    ItemsUpdate(lists, id, r);
  }

  lemma TimedInsertion(home: Homes, value: map<Task, nat>, swapped: bool, nextUnblock: nat, tick: nat,
                       t: Task, id: ListId, v: nat)
    requires Timed(home, value, swapped, nextUnblock, tick + 1) && v < EPOCH && v != tick
    requires id == if v < tick then Overflow(swapped) else Current(swapped)
    ensures Timed(home[t := id], value[t := v], swapped, if tick < v < nextUnblock then v else nextUnblock, tick + 1)
  {
    var home', value' := home[t := id], value[t := v];
    var next := if tick < v < nextUnblock then v else nextUnblock;
    HomeMove(home, t, id);
    forall u
      ensures ValueOf(value', u) == if u == t then v else ValueOf(value, u)
    {
    }
    forall u | Home(home', u) == Current(swapped)
      ensures tick + 1 <= ValueOf(value', u) < EPOCH && next <= ValueOf(value', u)
    {
      assert u != t ==> Home(home, u) == Current(swapped);
    }
    forall u | Home(home', u) == Overflow(swapped)
      ensures ValueOf(value', u) < EPOCH
    {
      assert u != t ==> Home(home, u) == Overflow(swapped);
    }
  }

  lemma AddDelayedFields(k: K, t: Task, v: nat)
    requires v != k.tick
    ensures var k' := AddDelayed(k, t, v);
            var id := if v < k.tick then Overflow(k.swapped) else Current(k.swapped);
            k' == k.(lists := Inserted(k.lists, id, t, k.value[t := v]),
                     home := k.home[t := id], value := k.value[t := v],
                     nextUnblock := if k.tick < v < k.nextUnblock then v else k.nextUnblock)
  {
  }

  lemma BlockFields(k: K, t: Task, v: nat, lists1: Lists, id: ListId)
    requires Home(k.home, t) != Nowhere && lists1 == Removed(k.lists, Home(k.home, t), t) && v != k.tick
    requires id == if v < k.tick then Overflow(k.swapped) else Current(k.swapped)
    ensures BlockUntil(k, t, v) ==
            k.(lists := Inserted(lists1, id, t, k.value[t := v]),
               home := k.home[t := id], value := k.value[t := v],
               nextUnblock := if k.tick < v < k.nextUnblock then v else k.nextUnblock)
  {
    AddDelayedFields(Detach(k, t), t, v);
    assert k.home[t := Nowhere][t := id] == k.home[t := id];
  }

  lemma BlockLists(lists: Lists, home: Homes, value: map<Task, nat>, t: Task, v: nat, lists1: Lists, id: ListId)
    requires Counted(lists, home) && Sorted(lists, value) && Home(home, t) != Nowhere
    requires lists1 == Removed(lists, Home(home, t), t) && (id == DelayedA || id == DelayedB)
    ensures var lists' := Inserted(lists1, id, t, value[t := v]);
            Counted(lists', home[t := id]) && Sorted(lists', value[t := v])
  {
    var home1 := home[t := Nowhere];
    RemovedKeeps(lists, home, value, t);
    DelayedSorted(lists1, home1, value, t, id, v);
    assert home1[t := id] == home[t := id];
  }

  lemma ListedMove(home: Homes, t: Task, id: ListId)
    requires Listed(home) && t in home && t != IDLE && id != Nowhere
    ensures Listed(home[t := id]) && home[t := id].Keys == home.Keys
  {
    HomeMove(home, t, id);
  }

  lemma BlockedKeeps(k: K, k': K, t: Task, v: nat, lists1: Lists, id: ListId)
    requires Core(k, k.tick + 1) && t in k.home && t != IDLE && v < EPOCH && v != k.tick
    requires id == if v < k.tick then Overflow(k.swapped) else Current(k.swapped)
    requires lists1 == Removed(k.lists, Home(k.home, t), t)
    requires k' == k.(lists := Inserted(lists1, id, t, k.value[t := v]),
                      home := k.home[t := id], value := k.value[t := v],
                      nextUnblock := if k.tick < v < k.nextUnblock then v else k.nextUnblock)
    ensures Core(k', k.tick + 1) && k'.home.Keys == k.home.Keys
  {
    BlockLists(k.lists, k.home, k.value, t, v, lists1, id);
    RankedMove(k.home, k.rank, k.levels, k.topReady, t, id, k.topReady);
    TimedInsertion(k.home, k.value, k.swapped, k.nextUnblock, k.tick, t, id, v);
    ListedMove(k.home, t, id);
  }

  lemma BlockUntilKeeps(k: K, t: Task, v: nat, k': K)
    requires Core(k, k.tick + 1) && t in k.home && t != IDLE && v < EPOCH && v != k.tick && k' == BlockUntil(k, t, v)
    ensures Core(k', k.tick + 1) && k'.home.Keys == k.home.Keys
    ensures var id := if v < k.tick then Overflow(k.swapped) else Current(k.swapped);
            k' == k.(lists := k'.lists, home := k.home[t := id], value := k.value[t := v], nextUnblock := k'.nextUnblock)
  {
    var id := if v < k.tick then Overflow(k.swapped) else Current(k.swapped);
    var lists1 := Removed(k.lists, Home(k.home, t), t);
    BlockFields(k, t, v, lists1, id);
    BlockedKeeps(k, k', t, v, lists1, id);
  }

  /** A task blocked for some ticks is due that many ticks from now, whether or not the count wraps. */
  lemma BlockKeeps(k: K, t: Task, wait: nat, k': K)
    requires Core(k, k.tick + 1) && t in k.home && t != IDLE && 0 < wait < EPOCH
    requires k' == BlockUntil(k, t, Wrap(k.tick + wait))
    ensures Core(k', k.tick + 1) && Delayed(k', t) && Due(k', t) == Now(k) + wait && k'.home.Keys == k.home.Keys
    ensures k'.event == k.event && Now(k') == Now(k) && k'.current == k.current
  {
    var v := Wrap(k.tick + wait);
    WrapOnce(k.tick, wait);
    BlockUntilKeeps(k, t, v, k');
    DueIn(k, k', t, wait, v, if v < k.tick then Overflow(k.swapped) else Current(k.swapped));
  }

  lemma DueIn(k: K, k': K, t: Task, wait: nat, v: nat, id: ListId)
    requires k.tick < EPOCH && 0 < wait < EPOCH && v == Wrap(k.tick + wait)
    requires id == if v < k.tick then Overflow(k.swapped) else Current(k.swapped)
    requires k' == k.(lists := k'.lists, home := k.home[t := id], value := k.value[t := v], nextUnblock := k'.nextUnblock)
    ensures Delayed(k', t) && Due(k', t) == Now(k) + wait
  {
    WrapOnce(k.tick, wait);
    HomeMove(k.home, t, id);
  }

  lemma ParkFields(k: K, t: Task, id: ListId)
    requires Home(k.home, t) != Nowhere
    ensures var k' := Park(k, t, id);
            && k'.lists == Appended(Removed(k.lists, Home(k.home, t), t), id, t) && k'.home == k.home[t := id]
            && k' == k.(lists := k'.lists, home := k'.home)
  {
    assert k.home[t := Nowhere][t := id] == k.home[t := id];
  }

  lemma ParkKeeps(k: K, t: Task, id: ListId, least: nat)
    requires Core(k, least) && t in k.home && t != IDLE && (id == Suspended || id == Terminated)
    ensures Core(Park(k, t, id), least) && Park(k, t, id).home == k.home[t := id]
    ensures Park(k, t, id).home.Keys == k.home.Keys
  {
    ParkFields(k, t, id);
    MoveEnd(k.lists, k.home, k.value, t, id);
    RankedMove(k.home, k.rank, k.levels, k.topReady, t, id, k.topReady);
    TimedMove(k.home, k.value, k.swapped, k.nextUnblock, least, t, id);
    assert k.home[t := id].Keys == k.home.Keys;
  }

  lemma EventChanges(event: Events, pending: seq<Task>, live: set<Task>, t: Task)
    requires Evented(event, pending, live) && t in live && Event(event, t) != PendingReady
    ensures Evented(event[t := OnEventList], pending, live)
    ensures Evented(event[t := PendingReady], pending + [t], live)
  {
    EventMove(event, t, OnEventList);
    EventMove(event, t, PendingReady);
  }

  lemma EventMove(event: Events, t: Task, e: EventPlace)
    ensures forall u :: Event(event[t := e], u) == if u == t then e else Event(event, u)
  {
    forall u
      ensures Event(event[t := e], u) == if u == t then e else Event(event, u)
    {
    }
  }

  lemma RankMove(rank: map<Task, PI.Rank>, t: Task, r: PI.Rank)
    ensures forall u :: Priority(rank[t := r], u) == if u == t then r.priority else Priority(rank, u)
  {
    forall u
      ensures Priority(rank[t := r], u) == if u == t then r.priority else Priority(rank, u)
    {
    }
  }

  lemma RankedRerank(home: Homes, rank: map<Task, PI.Rank>, levels: nat, topReady: nat, t: Task, r: PI.Rank, top': nat)
    requires Ranked(home, rank, levels, topReady) && r.priority < levels && topReady <= top' < levels
    requires r.priority <= top'
    ensures Ranked(home[t := Ready(r.priority)], rank[t := r], levels, top')
  {
    var home', rank' := home[t := Ready(r.priority)], rank[t := r];
    HomeMove(home, t, Ready(r.priority));
    RankMove(rank, t, r);
    forall u
      ensures Priority(rank', u) < levels
      ensures Home(home', u).Ready? ==> Home(home', u) == Ready(Priority(rank', u)) && Priority(rank', u) <= top'
    {
      assert Priority(rank, u) < levels;
      assert Home(home, u).Ready? ==> Home(home, u) == Ready(Priority(rank, u));
    }
  }

  /** A task that is not ready may get any rank. */
  lemma RankedAside(home: Homes, rank: map<Task, PI.Rank>, levels: nat, topReady: nat, t: Task, r: PI.Rank)
    requires Ranked(home, rank, levels, topReady) && r.priority < levels
    requires Home(home, t).Ready? ==> r.priority == Priority(rank, t)
    ensures Ranked(home, rank[t := r], levels, topReady)
  {
    var rank' := rank[t := r];
    RankMove(rank, t, r);
    forall u
      ensures Priority(rank', u) < levels
      ensures Home(home, u).Ready? ==> Home(home, u) == Ready(Priority(rank', u)) && Priority(rank', u) <= topReady
    {
      assert Priority(rank, u) < levels;
      assert Home(home, u).Ready? ==> Home(home, u) == Ready(Priority(rank, u)) && Priority(rank, u) <= topReady;
    }
  }

  lemma RerankFields(k: K, t: Task, r: PI.Rank, id: ListId, lists1: Lists)
    requires Home(k.home, t) != Nowhere && lists1 == Removed(k.lists, Home(k.home, t), t) && id == Ready(r.priority)
    ensures AddReady(Detach(k, t).(rank := k.rank[t := r]), t) ==
            k.(lists := Appended(lists1, id, t), home := k.home[t := id], rank := k.rank[t := r],
               topReady := if r.priority > k.topReady then r.priority else k.topReady)
  {
    assert k.home[t := Nowhere][t := id] == k.home[t := id];
  }

  /** Changing a task's priority keeps the invariant and moves at most that task, between ready lists. */
  lemma RerankKeeps(k: K, t: Task, r: PI.Rank, least: nat)
    requires Core(k, least) && t in k.home && r.priority < k.levels && r.base < k.levels
    ensures Core(Rerank(k, t, r), least)
    ensures Rerank(k, t, r).home.Keys == k.home.Keys
    ensures forall u | u != t || !Home(k.home, t).Ready? :: Home(Rerank(k, t, r).home, u) == Home(k.home, u)
  {
    var id := Ready(r.priority);
    if Home(k.home, t) == Ready(Priority(k.rank, t)) {
      var lists1 := Removed(k.lists, Home(k.home, t), t);
      RerankFields(k, t, r, id, lists1);
      MoveEnd(k.lists, k.home, k.value, t, id);
      RankedRerank(k.home, k.rank, k.levels, k.topReady, t, r, if r.priority > k.topReady then r.priority else k.topReady);
      TimedMove(k.home, k.value, k.swapped, k.nextUnblock, least, t, id);
      HomeMove(k.home, t, id);
      assert k.home[t := id].Keys == k.home.Keys;
    } else {
      RankedAside(k.home, k.rank, k.levels, k.topReady, t, r);
    }
  }

  /** A ready task joins the ready list of its new priority at the back, even if that is the list it was in. */
  ghost predicate Requeued(k: K, k': K, t: Task, p: nat) {
    if Home(k.home, t).Ready? then Home(k'.home, t) == Ready(p) && GoesToBack(k.lists, k'.lists, t, Ready(p))
    else k'.lists == k.lists && k'.home == k.home
  }

  lemma RerankTurns(k: K, t: Task, r: PI.Rank, lists1: Lists)
    requires Core(k, k.tick + 1) && t in k.home && lists1 == Removed(k.lists, Home(k.home, t), t)
    ensures Requeued(k, Rerank(k, t, r), t, r.priority)
  {
    if Home(k.home, t) == Ready(Priority(k.rank, t)) {
      RerankFields(k, t, r, Ready(r.priority), lists1);
      MovedToBack(k.lists, k.home, t, Ready(r.priority), lists1, Appended(lists1, Ready(r.priority), t));
    }
  }

  lemma CreatedKeeps(k: K, t: Task, r: PI.Rank, id: ListId, top': nat, k': K, least: nat)
    requires Core(k, least) && t !in k.home && r.priority < k.levels && r.base < k.levels && id == Ready(r.priority)
    requires top' == if r.priority > k.topReady then r.priority else k.topReady
    requires k' == k.(lists := Appended(k.lists, id, t), home := k.home[t := id], rank := k.rank[t := r], topReady := top')
    ensures Core(k', least)
  {
    RankMove(k.rank, t, r);
    AppendedKeeps(k.lists, k.home, k.value, t, id);
    RankedRerank(k.home, k.rank, k.levels, k.topReady, t, r, top');
    TimedMove(k.home, k.value, k.swapped, k.nextUnblock, least, t, id);
    HomeMove(k.home, t, id);
    assert k.home[t := id].Keys == k.home.Keys + {t};
  }

  lemma CreateFields(k: K, t: Task, r: PI.Rank, id: ListId, top': nat)
    requires id == Ready(r.priority) && top' == if r.priority > k.topReady then r.priority else k.topReady
    ensures AddReady(k.(rank := k.rank[t := r]), t) ==
            k.(lists := Appended(k.lists, id, t), home := k.home[t := id], rank := k.rank[t := r], topReady := top')
  {
  }

  lemma ResetKeeps(k: K)
    requires Core(k, k.tick + 1)
    ensures Core(ResetUnblock(k), k.tick + 1)
  {
    var next := ResetUnblock(k).nextUnblock;
    forall t | Home(k.home, t) == Current(k.swapped)
      ensures next <= ValueOf(k.value, t)
    {
      assert Count(k.lists, Current(k.swapped), t) == 1;
      HeadIsLeast(DelayedItems(k), k.value, t);
    }
    assert Timed(k.home, k.value, k.swapped, next, k.tick + 1);
  }

  // ---------- choosing the task to run ----------

  lemma AdvanceKeeps(lists: Lists, home: Homes, value: map<Task, nat>, id: ListId)
    requires Counted(lists, home) && Sorted(lists, value) && id.Ready? && Items(lists, id) != []
    ensures var lists' := lists[id := R.Select(RingOf(lists, id))];
            Counted(lists', home) && Sorted(lists', value)
  {
    var lists' := lists[id := R.Select(RingOf(lists, id))];
    ItemsUpdate(lists, id, R.Select(RingOf(lists, id)));
    CursorsAfter(lists, id, R.Select(RingOf(lists, id)));
    forall i: ListId, u: Task | i != Nowhere
      ensures Count(lists', i, u) == if Home(home, u) == i then 1 else 0
    {
      assert Count(lists, i, u) == if Home(home, u) == i then 1 else 0;
    }
  }

  lemma SwitchParts(k: K, p: nat, r: R.Ring<Task>)
    requires k.suspensions == 0 && p == Highest(k.lists, k.topReady)
    requires Items(k.lists, Ready(p)) != [] && r == R.Select(RingOf(k.lists, Ready(p)))
    ensures SwitchContext(k) == k.(topReady := p, current := r.items[r.cursor - 1], lists := k.lists[Ready(p) := r])
  {
  }

  /** The lowest list has the idle task in it or a higher one has, so the search ends at a ready task. */
  lemma SomeReady(k: K)
    requires Core(k, k.tick + 1)
    ensures Items(k.lists, Ready(Highest(k.lists, k.topReady))) != []
  {
    var p := Priority(k.rank, IDLE);
    assert Count(k.lists, Ready(p), IDLE) == 1;
    assert Items(k.lists, Ready(p)) != [];
  }

  /** A context switch picks the task whose turn it is among the ready tasks of the highest priority, and
      that task goes to the back of the turn order. */
  lemma SwitchPicksHighest(k: K)
    requires Core(k, k.tick + 1) && k.suspensions == 0
    ensures var k' := SwitchContext(k);
            var top := Priority(k.rank, k'.current);
            var r := RingOf(k.lists, Ready(top));
            && Core(k', k.tick + 1)
            && Home(k.home, k'.current) == Ready(top)
            && (forall t | Home(k.home, t).Ready? :: Priority(k.rank, t) <= top)
            && r.Valid() && r.items != [] && k'.current == R.Turns(r)[0]
            && RingOf(k'.lists, Ready(top)) == R.Select(r)
            && k'.home == k.home && k'.value == k.value
  {
    var p := Highest(k.lists, k.topReady);
    var r := RingOf(k.lists, Ready(p));
    SomeReady(k);
    RingValid(k.lists, k.home, Ready(p));
    R.SelectServesFirstTurn(r);
    HeadHome(k.lists, k.home, Ready(p), R.Turns(r)[0]);
    AdvanceKeeps(k.lists, k.home, k.value, Ready(p));
    ItemsUpdate(k.lists, Ready(p), R.Select(r));
    assert Home(k.home, R.Turns(r)[0]) == Ready(Priority(k.rank, R.Turns(r)[0]));
    forall t | Home(k.home, t).Ready?
      ensures Priority(k.rank, t) <= p
    {
      assert Count(k.lists, Ready(Priority(k.rank, t)), t) == 1;
      assert Items(k.lists, Ready(Priority(k.rank, t))) != [];
    }
    assert Ranked(k.home, k.rank, k.levels, p);
  }

  // ---------- every step ----------

  /** The clock stands, and only the tasks in `out` may change their lists or wake times. */
  ghost predicate Quiet(k: K, k': K, out: set<Task>) {
    && k'.tick == k.tick && k'.overflows == k.overflows && k'.pendedTicks == k.pendedTicks && k'.swapped == k.swapped
    && forall u | u !in out ::
         && Home(k'.home, u) == Home(k.home, u)
         && ValueOf(k'.value, u) == ValueOf(k.value, u)
         && Event(k'.event, u) == Event(k.event, u)
  }

  lemma QuietMove(k: K, k': K, t: Task, id: ListId, v: nat, e: EventPlace)
    requires k'.tick == k.tick && k'.overflows == k.overflows && k'.pendedTicks == k.pendedTicks && k'.swapped == k.swapped
    requires k'.home == k.home[t := id] || k'.home == k.home
    requires k'.value == k.value[t := v] || k'.value == k.value
    requires k'.event == k.event[t := e] || k'.event == k.event
    ensures Quiet(k, k', {t})
  {
    HomeMove(k.home, t, id);
    EventMove(k.event, t, e);
    forall u | u != t
      ensures ValueOf(k.value[t := v], u) == ValueOf(k.value, u)
    {
    }
  }

  lemma SleepStep(k: K, wait: nat, k': K)
    requires Inv(k) && Enabled(k, Sleep(wait)) && k' == BlockUntil(k, k.current, Wrap(k.tick + wait))
    ensures Inv(k') && Quiet(k, k', {k.current})
  {
    var v := Wrap(k.tick + wait);
    WrapOnce(k.tick, wait);
    BlockUntilKeeps(k, k.current, v, k');
    QuietMove(k, k', k.current, if v < k.tick then Overflow(k.swapped) else Current(k.swapped), v, NoEvent);
  }

  lemma WaitStep(k: K, wait: nat, k': K)
    requires Inv(k) && Enabled(k, WaitForEvent(wait)) && k' == PlaceOnEventList(k, wait)
    ensures Inv(k') && Quiet(k, k', {k.current})
  {
    var k1 := k.(event := k.event[k.current := OnEventList]);
    WaitParts(k, wait, k1);
    EventChanges(k.event, k.pendingReady, k.home.Keys, k.current);
    EventMove(k.event, k.current, OnEventList);
    if wait == MAX_DELAY {
      WaitForever(k, k1, k.current, k');
    } else {
      SleepStep(k1, wait, k');
      QuietTwice(k, k1, k', k.current);
    }
  }

  lemma WaitParts(k: K, wait: nat, k1: K)
    requires k1 == k.(event := k.event[k.current := OnEventList])
    ensures k1.current == k.current && k1.tick == k.tick && k1.home == k.home
    ensures PlaceOnEventList(k, wait)
            == if wait == MAX_DELAY then Park(k1, k1.current, Suspended)
               else BlockUntil(k1, k1.current, Wrap(k1.tick + wait))
  {
  }

  lemma WaitForever(k: K, k1: K, t: Task, k': K)
    requires Inv(k) && Inv(k1) && Quiet(k, k1, {t}) && t in k1.home && t != IDLE && k' == Park(k1, t, Suspended)
    ensures Inv(k') && Quiet(k, k', {t})
  {
    ParkKeeps(k1, t, Suspended, k1.tick + 1);
    ParkFields(k1, t, Suspended);
    QuietMove(k1, k', t, Suspended, 0, NoEvent);
    QuietTwice(k, k1, k', t);
  }

  lemma QuietTwice(k: K, k1: K, k': K, t: Task)
    requires Quiet(k, k1, {t}) && Quiet(k1, k', {t})
    ensures Quiet(k, k', {t})
  {
  }

  lemma HoldBack(k: K, t: Task, k': K)
    requires Inv(k) && t in k.home && Event(k.event, t) != PendingReady && k.suspensions > 0
    requires k' == k.(event := k.event[t := PendingReady], pendingReady := k.pendingReady + [t])
    ensures Inv(k') && Quiet(k, k', {t})
  {
    EventChanges(k.event, k.pendingReady, k.home.Keys, t);
    QuietMove(k, k', t, Nowhere, 0, PendingReady);
  }

  lemma WakeStep(k: K, t: Task)
    requires Inv(k) && t in k.home
    ensures Inv(Wake(k, t)) && Quiet(k, Wake(k, t), {t})
  {
    WakeKeeps(k, t, k.tick + 1);
    WakeEvent(k, t);
    QuietMove(k, Wake(k, t), t, Ready(Priority(k.rank, t)), 0, NoEvent);
  }

  lemma WakeEvent(k: K, t: Task)
    ensures Wake(k, t).event == LeaveEvent(k, t).event
    ensures LeaveEvent(k, t).event == k.event || LeaveEvent(k, t).event == k.event[t := NoEvent]
  {
  }

  lemma ReadyStep(k: K, t: Task)
    requires Inv(k) && t in k.home
    ensures var k' := AddReady(Detach(k, t), t);
            && Inv(k') && Quiet(k, k', {t}) && k'.event == k.event
            && Home(k'.home, t) == Ready(Priority(k.rank, t))
            && GoesToBack(k.lists, k'.lists, t, Ready(Priority(k.rank, t)))
  {
    ReadyKeeps(k, t, k.tick + 1);
    ReadyFields(k, t);
    QuietMove(k, AddReady(Detach(k, t), t), t, Ready(Priority(k.rank, t)), 0, NoEvent);
  }

  lemma SignalStep(k: K, t: Task)
    requires Inv(k) && Event(k.event, t) == OnEventList
    ensures Inv(RemoveFromEventList(k, t)) && Quiet(k, RemoveFromEventList(k, t), {t})
  {
    if k.suspensions == 0 {
      WakeStep(k, t);
    } else {
      HoldBack(k, t, RemoveFromEventList(k, t));
    }
  }

  lemma ParkStep(k: K, t: Task, id: ListId)
    requires Inv(k) && t in k.home && t != IDLE && (id == Suspended || id == Terminated)
    ensures var k' := Park(LeaveEvent(k, t), t, id); Inv(k') && Quiet(k, k', {t})
  {
    var k1 := LeaveEvent(k, t);
    LeaveEventFields(k, t);
    LeaveEventKeeps(k, t);
    WakeEvent(k, t);
    ParkKeeps(k1, t, id, k.tick + 1);
    ParkFields(k1, t, id);
    QuietMove(k, Park(k1, t, id), t, id, 0, NoEvent);
  }

  lemma SuspendStep(k: K, t: Task)
    requires Inv(k) && t in k.home && t != IDLE
    ensures Inv(SuspendTask(k, t)) && Quiet(k, SuspendTask(k, t), {t})
    ensures Home(SuspendTask(k, t).home, t) == Suspended && Event(SuspendTask(k, t).event, t) == NoEvent
  {
    ParkStep(k, t, Suspended);
    ParkFields(LeaveEvent(k, t), t, Suspended);
  }

  lemma DeleteStep(k: K, t: Task)
    requires Inv(k) && t in k.home && t != IDLE
    ensures Inv(Delete(k, t)) && Quiet(k, Delete(k, t), {t})
    ensures Home(Delete(k, t).home, t) == Terminated && Event(Delete(k, t).event, t) == NoEvent
  {
    ParkStep(k, t, Terminated);
    ParkFields(LeaveEvent(k, t), t, Terminated);
  }

  /** A suspended task that waits for no event becomes ready behind its equals; any other, and the running one,
      stays as it is. */
  lemma ResumeStep(k: K, t: Task)
    requires Inv(k) && t in k.home
    ensures Inv(Resume(k, t)) && Quiet(k, Resume(k, t), if IsSuspended(k, t) then {t} else {})
    ensures if t != k.current && Home(k.home, t) == Suspended && Event(k.event, t) == NoEvent
            then && Home(Resume(k, t).home, t) == Ready(Priority(k.rank, t)) && Event(Resume(k, t).event, t) == NoEvent
                 && GoesToBack(k.lists, Resume(k, t).lists, t, Ready(Priority(k.rank, t)))
            else Resume(k, t) == k
  {
    ReadyStep(k, t);
  }

  lemma ResumeISRStep(k: K, t: Task)
    requires Inv(k) && t in k.home
    ensures Inv(ResumeFromISR(k, t)) && Quiet(k, ResumeFromISR(k, t), if IsSuspended(k, t) then {t} else {})
    ensures var k' := ResumeFromISR(k, t);
            if Home(k.home, t) != Suspended || Event(k.event, t) != NoEvent then k' == k
            else if k.suspensions == 0 then Home(k'.home, t) == Ready(Priority(k.rank, t)) && Event(k'.event, t) == NoEvent
            else Home(k'.home, t) == Suspended && Event(k'.event, t) == PendingReady
  {
    if IsSuspended(k, t) {
      if k.suspensions == 0 {
        ReadyStep(k, t);
      } else {
        HoldBack(k, t, ResumeFromISR(k, t));
      }
    }
  }

  /** A new task is ready, behind its equals, at its priority or the highest one that there is. */
  lemma CreateStep(k: K, t: Task, p: nat, k': K)
    requires Inv(k) && t !in k.home && k' == Create(k, t, p)
    ensures Inv(k') && Quiet(k, k', {t})
    ensures CreatedAt(k, k', t, if p < k.levels then p else k.levels - 1)
  {
    var q := if p < k.levels then p else k.levels - 1;
    var top' := if q > k.topReady then q else k.topReady;
    CreateFields(k, t, PI.Rank(q, q, 0), Ready(q), top');
    CreatedInv(k, t, PI.Rank(q, q, 0), q, top', k');
    CreatedIn(k, t, PI.Rank(q, q, 0), q, top', k');
  }

  /** Task `t` is ready at priority `q`, behind its equals. */
  ghost predicate CreatedAt(k: K, k': K, t: Task, q: nat) {
    && RankOf(k', t) == PI.Rank(q, q, 0) && Home(k'.home, t) == Ready(q)
    && GoesToBack(k.lists, k'.lists, t, Ready(q))
  }

  lemma CreatedInv(k: K, t: Task, r: PI.Rank, q: nat, top': nat, k': K)
    requires Inv(k) && t !in k.home && r == PI.Rank(q, q, 0) && q < k.levels
    requires top' == if q > k.topReady then q else k.topReady
    requires k' == k.(lists := Appended(k.lists, Ready(q), t), home := k.home[t := Ready(q)],
                      rank := k.rank[t := r], topReady := top')
    ensures Inv(k')
  {
    CreatedKeeps(k, t, r, Ready(q), top', k', k.tick + 1);
  }

  lemma CreatedIn(k: K, t: Task, r: PI.Rank, q: nat, top': nat, k': K)
    requires Inv(k) && t !in k.home && r == PI.Rank(q, q, 0)
    requires k' == k.(lists := Appended(k.lists, Ready(q), t), home := k.home[t := Ready(q)],
                      rank := k.rank[t := r], topReady := top')
    ensures Quiet(k, k', {t}) && CreatedAt(k, k', t, q)
  {
    MovedToBack(k.lists, k.home, t, Ready(q), k.lists, k'.lists);
    QuietMove(k, k', t, Ready(q), 0, NoEvent);
  }

  lemma RerankFrame(k: K, t: Task, r: PI.Rank)
    ensures var k' := Rerank(k, t, r);
            k' == k.(lists := k'.lists, home := k'.home, rank := k'.rank, topReady := k'.topReady)
  {
    if Home(k.home, t) == Ready(Priority(k.rank, t)) {
      RerankFields(k, t, r, Ready(r.priority), Removed(k.lists, Home(k.home, t), t));
    }
  }

  lemma RankStep(k: K, t: Task, r: PI.Rank)
    requires Inv(k) && t in k.home && r.priority < k.levels && r.base < k.levels
    ensures Inv(Rerank(k, t, r))
    ensures Quiet(k, Rerank(k, t, r), if Home(k.home, t).Ready? then {t} else {})
    ensures RankOf(Rerank(k, t, r), t) == r && Requeued(k, Rerank(k, t, r), t, r.priority)
  {
    RerankKeeps(k, t, r, k.tick + 1);
    RerankFrame(k, t, r);
    RerankRank(k, t, r);
    RerankTurns(k, t, r, Removed(k.lists, Home(k.home, t), t));
  }

  lemma RankAsideStep(k: K, t: Task, r: PI.Rank)
    requires Inv(k) && r.priority == Priority(k.rank, t) && r.base < k.levels
    ensures Inv(k.(rank := k.rank[t := r])) && Quiet(k, k.(rank := k.rank[t := r]), {})
  {
    assert Priority(k.rank, t) < k.levels;
    RankedAside(k.home, k.rank, k.levels, k.topReady, t, r);
  }

  lemma RankInRange(k: K, t: Task)
    requires Inv(k)
    ensures RankOf(k, t).priority == Priority(k.rank, t) < k.levels && RankOf(k, t).base < k.levels
  {
    assert Priority(k.rank, t) < k.levels;
  }

  /** The base priority is the new one, cut to the highest that there is.  The priority follows it unless one is
      inherited, and a ready task whose base changed joins the ready list of its priority at the back. */
  lemma PrioritizeStep(k: K, t: Task, p: nat)
    requires Inv(k) && t in k.home
    ensures Inv(SetPriority(k, t, p))
    ensures Quiet(k, SetPriority(k, t, p), if Home(k.home, t).Ready? then {t} else {})
    ensures var q, r, k' := if p < k.levels then p else k.levels - 1, RankOf(k, t), SetPriority(k, t, p);
            && RankOf(k', t) == PI.Rank(if r.priority == r.base then q else r.priority, q, r.held)
            && (if r.base == q then k' == k else Requeued(k, k', t, RankOf(k', t).priority))
  {
    RankInRange(k, t);
    if RankOf(k, t).base != Clamped(k, p) {
      RankStep(k, t, PI.Reranked(RankOf(k, t), Clamped(k, p)));
    }
  }

  /** The holder has the higher priority of its own and that of the running task; if that is new, a ready holder
      joins the ready list of that priority. */
  lemma InheritStep(k: K, t: Task)
    requires Inv(k) && t in k.home
    ensures Inv(Inherit(k, t)) && Quiet(k, Inherit(k, t), if Home(k.home, t).Ready? then {t} else {})
    ensures var r, p, k' := RankOf(k, t), Priority(k.rank, k.current), Inherit(k, t);
            if r.priority < p then RankOf(k', t) == r.(priority := p) && Requeued(k, k', t, p) else k' == k
  {
    RankInRange(k, t);
    RankInRange(k, k.current);
    if Priority(k.rank, t) < Priority(k.rank, k.current) {
      RankStep(k, t, PI.Inherited(RankOf(k, t), Priority(k.rank, k.current)));
    }
  }

  /** The running task holds one mutex more, and nothing else changes. */
  lemma HoldStep(k: K)
    requires Inv(k)
    ensures Inv(HoldMutex(k)) && Quiet(k, HoldMutex(k), {})
    ensures HoldMutex(k) == k.(rank := HoldMutex(k).rank)
    ensures forall u :: RankOf(HoldMutex(k), u) ==
                        if u == k.current then RankOf(k, u).(held := RankOf(k, u).held + 1) else RankOf(k, u)
  {
    var r := RankOf(k, k.current);
    RankInRange(k, k.current);
    RankAsideStep(k, k.current, r.(held := r.held + 1));
  }

  /** The running task holds one mutex less.  With the last one an inherited priority goes, and then the task joins
      the ready list of its base priority. */
  lemma ReturnStep(k: K)
    requires Inv(k) && RankOf(k, k.current).held > 0 && Home(k.home, k.current).Ready?
    ensures Inv(Disinherit(k)) && Quiet(k, Disinherit(k), {k.current})
    ensures var r, k' := RankOf(k, k.current), Disinherit(k);
            if r.held == 1 && r.priority != r.base
            then RankOf(k', k.current) == PI.Rank(r.base, r.base, 0) && Requeued(k, k', k.current, r.base)
            else RankOf(k', k.current) == r.(held := r.held - 1) && k' == k.(rank := k'.rank)
  {
    RankInRange(k, k.current);
    var r := PI.Returned(RankOf(k, k.current));
    if r.priority != Priority(k.rank, k.current) {
      RankStep(k, k.current, r);
    } else {
      RankAsideStep(k, k.current, r);
    }
  }

  lemma ResetStep(k: K)
    requires Inv(k)
    ensures Inv(ResetUnblock(k)) && Quiet(k, ResetUnblock(k), {})
  {
    ResetKeeps(k);
  }

  lemma SwitchStep(k: K)
    requires Inv(k)
    ensures Inv(SwitchContext(k)) && Quiet(k, SwitchContext(k), {})
  {
    if k.suspensions == 0 {
      SwitchPicksHighest(k);
    }
  }

  predicate ClockStep(step: Step) {
    step == TickInterrupt || step == ResumeScheduler
  }

  /** The tasks that a step moves between lists, for steps that do not count ticks. */
  ghost function Touched(k: K, step: Step): set<Task> {
    match step
    case Sleep(_) => {k.current}
    case WaitForEvent(_) => {k.current}
    case Signal(t) => {t}
    case SignalUnordered(t) => {t}
    case SuspendOne(t) => {t}
    case ResumeOne(t) => if IsSuspended(k, t) then {t} else {}
    case ResumeInISR(t) => if IsSuspended(k, t) then {t} else {}
    case CreateOne(t, _) => {t}
    case DeleteOne(t) => {t}
    case Prioritize(t, _) => if Home(k.home, t).Ready? then {t} else {}
    case InheritBy(t) => if Home(k.home, t).Ready? then {t} else {}
    case ReturnMutex => {k.current}
    case _ => {}
  }

  /** What a step that counts no ticks does */
  lemma OtherStep(k: K, step: Step, k': K, out: set<Task>)
    requires Inv(k) && Enabled(k, step) && !ClockStep(step)
    requires k' == Next(k, step) && out == Touched(k, step)
    ensures Inv(k') && Quiet(k, k', out)
  {
    if step.SuspendScheduler? || step.Switch? || step.Sleep? || step.WaitForEvent? {
      OwnStep(k, step, k', out);
    } else if step.Signal? || step.SignalUnordered? || step.SuspendOne? || step.DeleteOne? || step.CreateOne? {
      MoveStep(k, step, k', out);
    } else if step.ResumeOne? || step.ResumeInISR? || step.ResetUnblockTime? {
      ResumptionStep(k, step, k', out);
    } else {
      PriorityStep(k, step, k', out);
    }
  }

  /** The steps that the running task takes for itself */
  lemma OwnStep(k: K, step: Step, k': K, out: set<Task>)
    requires Inv(k) && Enabled(k, step) && k' == Next(k, step) && out == Touched(k, step)
    requires step.SuspendScheduler? || step.Switch? || step.Sleep? || step.WaitForEvent?
    ensures Inv(k') && Quiet(k, k', out)
  {
    match step
    case SuspendScheduler =>
    case Switch => SwitchStep(k);
    case Sleep(wait) =>
      SleepNext(k, wait);
      SleepResult(k, wait, SleepFor(k, wait));
    case WaitForEvent(wait) => WaitStep(k, wait, k');
  }

  lemma SleepNext(k: K, wait: nat)
    requires Inv(k) && Enabled(k, Sleep(wait))
    ensures Next(k, Sleep(wait)) == SleepFor(k, wait)
  {
  }

  /** The steps that move the task they name */
  lemma MoveStep(k: K, step: Step, k': K, out: set<Task>)
    requires Inv(k) && Enabled(k, step) && k' == Next(k, step) && out == Touched(k, step)
    requires step.Signal? || step.SignalUnordered? || step.SuspendOne? || step.DeleteOne? || step.CreateOne?
    ensures Inv(k') && Quiet(k, k', out)
  {
    match step
    case Signal(t) => SignalNext(k, step, t, k', out);
    case SignalUnordered(t) => SignalNext(k, step, t, k', out);
    case SuspendOne(t) => SuspendNext(k, step, t, k', out);
    case DeleteOne(t) => SuspendNext(k, step, t, k', out);
    case CreateOne(t, p) => CreateNext(k, step, t, p, k', out);
  }

  lemma SignalNext(k: K, step: Step, t: Task, k': K, out: set<Task>)
    requires Inv(k) && Enabled(k, step) && k' == Next(k, step) && out == Touched(k, step)
    requires step == Signal(t) || step == SignalUnordered(t)
    ensures Inv(k') && Quiet(k, k', out)
  {
    assert out == {t};
    if step.Signal? {
      SignalStep(k, t);
    } else {
      WakeStep(k, t);
    }
  }

  lemma SuspendNext(k: K, step: Step, t: Task, k': K, out: set<Task>)
    requires Inv(k) && Enabled(k, step) && k' == Next(k, step) && out == Touched(k, step)
    requires step == SuspendOne(t) || step == DeleteOne(t)
    ensures Inv(k') && Quiet(k, k', out)
  {
    assert out == {t};
    if step.SuspendOne? {
      SuspendStep(k, t);
    } else {
      DeleteStep(k, t);
    }
  }

  lemma CreateNext(k: K, step: Step, t: Task, p: nat, k': K, out: set<Task>)
    requires Inv(k) && Enabled(k, step) && k' == Next(k, step) && out == Touched(k, step) && step == CreateOne(t, p)
    ensures Inv(k') && Quiet(k, k', out)
  {
    assert out == {t};
    CreateStep(k, t, p, k');
  }

  lemma ResumptionStep(k: K, step: Step, k': K, out: set<Task>)
    requires Inv(k) && Enabled(k, step) && k' == Next(k, step) && out == Touched(k, step)
    requires step.ResumeOne? || step.ResumeInISR? || step.ResetUnblockTime?
    ensures Inv(k') && Quiet(k, k', out)
  {
    match step
    case ResumeOne(t) => ResumeStep(k, t);
    case ResumeInISR(t) => ResumeISRStep(k, t);
    case ResetUnblockTime => ResetStep(k);
  }

  /** The steps that change priorities, or the counts that decide about them */
  lemma PriorityStep(k: K, step: Step, k': K, out: set<Task>)
    requires Inv(k) && Enabled(k, step) && k' == Next(k, step) && out == Touched(k, step)
    requires step.Prioritize? || step.InheritBy? || step.TakeMutex? || step.ReturnMutex?
    ensures Inv(k') && Quiet(k, k', out)
  {
    match step
    case Prioritize(t, p) => PrioritizeStep(k, t, p);
    case InheritBy(t) => InheritStep(k, t);
    case TakeMutex => HoldStep(k);
    case ReturnMutex => ReturnStep(k);
  }

  lemma CaughtUp(k: K, k2: K, k3: K, n: nat, t: Task)
    requires SameClock(k, k2) && Home(k2.home, t) == Home(k.home, t) && Elapsed(k2, k3, n)
    ensures OnTime(k, k3, t)
  {
    assert Delayed(k2, t) == Delayed(k, t) && Due(k2, t) == Due(k, t);
    assert Delayed(k3, t) ==> Due(k3, t) == Due(k2, t);
  }

  /** Every task that was held back is ready, and waits for nothing any more. */
  ghost predicate PendingReadied(k: K, k': K) {
    forall t | Event(k.event, t) == PendingReady ::
      Home(k'.home, t) == Ready(Priority(k'.rank, t)) && Event(k'.event, t) == NoEvent
  }

  lemma StillReady(k: K, k2: K, k': K, n: nat)
    requires SameClock(k, k2) && PendingMoved(k, k2) && Elapsed(k2, k', n)
    ensures PendingReadied(k, k') && k'.rank == k.rank
  {
    forall t | Event(k.event, t) == PendingReady
      ensures Home(k'.home, t) == Ready(Priority(k'.rank, t)) && Event(k'.event, t) == NoEvent
    {
      assert Home(k2.home, t).Ready? && Event(k2.event, t) == NoEvent;
    }
  }

  lemma LastResume(k: K, k': K)
    requires Core(k, k.tick + 1) && k.suspensions == 0 && k' == CatchUp(k)
    ensures Inv(k') && k'.suspensions == 0 && PendingReadied(k, k')
    ensures Now(k') + k'.pendedTicks == Now(k) + k.pendedTicks
    ensures forall t | Event(k.event, t) != PendingReady :: OnTime(k, k', t)
  {
    var k2 := MovePending(k);
    MovePendingKeeps(k, k2);
    ReplayCatchesUp(k2, k');
    NothingHeldBack(k, k2, k');
    StillReady(k, k2, k', k2.pendedTicks);
    forall t | Event(k.event, t) != PendingReady
      ensures OnTime(k, k', t)
    {
      CaughtUp(k, k2, k', k2.pendedTicks, t);
    }
  }

  lemma NothingHeldBack(k: K, k2: K, k': K)
    requires SameClock(k, k2) && k2.pendingReady == [] && k.suspensions == 0
    requires Elapsed(k2, k', k2.pendedTicks) && k'.pendedTicks == 0 && Core(k', k'.tick + 1)
    ensures Inv(k') && k'.suspensions == 0 && Now(k') + k'.pendedTicks == Now(k) + k.pendedTicks
  {
  }

  /** xTaskResumeAll: with the end of the last suspension the ticks held back are counted, which wakes the tasks
      that are due by then, and the pending ready tasks become ready. */
  lemma ResumeAllStep(k: K, k': K)
    requires Inv(k) && k.suspensions > 0 && k' == ResumeAll(k)
    ensures Inv(k') && k'.suspensions == k.suspensions - 1
    ensures k'.suspensions == 0 ==> PendingReadied(k, k')
    ensures k'.suspensions > 0 ==> k' == k.(suspensions := k.suspensions - 1)
    ensures Now(k') + k'.pendedTicks == Now(k) + k.pendedTicks
    ensures k'.suspensions > 0 ==> k'.event == k.event
    ensures forall t | Event(k.event, t) != PendingReady :: OnTime(k, k', t)
  {
    var k1 := k.(suspensions := k.suspensions - 1);
    FewerSuspensions(k, k1);
    if k1.suspensions == 0 {
      LastResume(k1, k');
      forall t | Event(k.event, t) != PendingReady
        ensures OnTime(k, k', t)
      {
        OnTimeAfter(k, k1, k', t);
      }
    }
  }

  lemma OnTimeAfter(k: K, k1: K, k': K, t: Task)
    requires k1 == k.(suspensions := k1.suspensions) && OnTime(k1, k', t)
    ensures OnTime(k, k', t)
  {
  }

  lemma FewerSuspensions(k: K, k1: K)
    requires Inv(k) && k.suspensions > 0 && k1 == k.(suspensions := k.suspensions - 1)
    ensures Core(k1, k1.tick + 1) && (k1.suspensions > 0 ==> Inv(k1))
    ensures forall t :: OnTime(k, k1, t)
  {
    StillAhead(k);
  }

  lemma ResumeParts(k: K, k1: K)
    requires Inv(k) && k.suspensions > 0 && k1 == k.(suspensions := k.suspensions - 1)
    ensures Core(k1, k1.tick + 1)
    ensures ResumeAll(k) == (if k1.suspensions > 0 then k1 else CatchUp(k1)) && Inv(ResumeAll(k))
  {
    FewerSuspensions(k, k1);
    ResumeAllStep(k, ResumeAll(k));
  }

  /** While the scheduler is not suspended no task is pending. */
  lemma NonePending(k: K, t: Task)
    requires Inv(k) && k.suspensions == 0
    ensures Event(k.event, t) != PendingReady
  {
    assert multiset(k.pendingReady)[t] == 0;
  }

  /** A delayed task that is not due stays as it is, and one that is due becomes ready. */
  ghost predicate OnTime(k: K, k': K, t: Task) {
    Delayed(k, t) ==>
      if Now(k') >= Due(k, t) then Home(k'.home, t) == Ready(Priority(k'.rank, t))
      else Delayed(k', t) && Due(k', t) == Due(k, t)
  }

  lemma TickStep(k: K, k': K)
    requires Inv(k) && k' == Next(k, TickInterrupt)
    ensures Inv(k')
    ensures Now(k') + k'.pendedTicks == Now(k) + k.pendedTicks + 1
    ensures k'.suspensions > 0 ==> k'.event == k.event
    ensures forall t :: OnTime(k, k', t)
  {
    if k.suspensions == 0 {
      CountTickWakesOnTime(k, k');
      TickCounted(k, k');
    } else {
      TickPended(k, k');
    }
  }

  lemma TickCounted(k: K, k': K)
    requires Inv(k) && Core(k', k'.tick + 1) && Elapsed(k, k', 1) && k'.pendedTicks == k.pendedTicks && k.suspensions == 0
    ensures Inv(k') && k'.suspensions == 0 && Now(k') + k'.pendedTicks == Now(k) + k.pendedTicks + 1
    ensures forall t :: OnTime(k, k', t)
  {
  }

  lemma TickPended(k: K, k': K)
    requires Inv(k) && k.suspensions > 0 && k' == k.(pendedTicks := k.pendedTicks + 1)
    ensures Inv(k') && Now(k') + k'.pendedTicks == Now(k) + k.pendedTicks + 1
    ensures forall t :: OnTime(k, k', t)
  {
    StillAhead(k);
  }

  // ---------- what the callers get ----------

  lemma SleepResult(k: K, wait: nat, k': K)
    requires Inv(k) && Enabled(k, Sleep(wait)) && k' == SleepFor(k, wait)
    ensures k' == Next(k, Sleep(wait)) && Inv(k') && Quiet(k, k', {k.current})
    ensures Delayed(k', k.current) && Due(k', k.current) == Now(k) + wait && k'.current == k.current
    ensures k'.event == k.event
  {
    SleepNext(k, wait);
    SleptKeeps(k, wait, k');
  }

  lemma WakeTime(previous: nat, increment: nat, tick: nat)
    requires previous < EPOCH && tick < EPOCH && Wrap(tick - previous) < increment < EPOCH
    ensures Wrap(previous + increment) == Wrap(tick + (increment - Wrap(tick - previous)))
  {
  }

  lemma SleptKeeps(k: K, wait: nat, k': K)
    requires Inv(k) && Enabled(k, Sleep(wait)) && k' == BlockUntil(k, k.current, Wrap(k.tick + wait))
    ensures Inv(k') && Quiet(k, k', {k.current})
    ensures Delayed(k', k.current) && Due(k', k.current) == Now(k) + wait && k'.current == k.current
    ensures k'.event == k.event
  {
    SleepStep(k, wait, k');
    BlockKeeps(k, k.current, wait, k');
  }

  /** A periodic delay lasts until the increment is over, counted from the previous wake time. */
  lemma DelayResult(k: K, previous: nat, increment: nat, next: nat, k': K)
    requires Inv(k) && Home(k.home, k.current).Ready? && k.current != IDLE
    requires previous < EPOCH && Wrap(k.tick - previous) < increment < EPOCH && next == Wrap(previous + increment)
    requires k' == BlockUntil(k, k.current, next)
    ensures Inv(k') && Quiet(k, k', {k.current}) && k'.current == k.current
    ensures Delayed(k', k.current) && Due(k', k.current) == Now(k) + (increment - Wrap(k.tick - previous))
  {
    WakeTime(previous, increment, k.tick);
    SleptKeeps(k, increment - Wrap(k.tick - previous), k');
  }

  /** A task that waits for an event is in its event list and sleeps for its block time, or without limit. */
  lemma WaitResult(k: K, wait: nat, k': K)
    requires Inv(k) && Enabled(k, WaitForEvent(wait)) && k' == PlaceOnEventList(k, wait)
    ensures k' == Next(k, WaitForEvent(wait)) && Inv(k') && Quiet(k, k', {k.current})
    ensures Event(k'.event, k.current) == OnEventList && k'.current == k.current
    ensures if wait == MAX_DELAY then Home(k'.home, k.current) == Suspended
            else Delayed(k', k.current) && Due(k', k.current) == Now(k) + wait
  {
    var k1 := k.(event := k.event[k.current := OnEventList]);
    WaitParts(k, wait, k1);
    WaitStep(k, wait, k');
    EventChanges(k.event, k.pendingReady, k.home.Keys, k.current);
    if wait == MAX_DELAY {
      ParkFields(k1, k.current, Suspended);
    } else {
      BlockKeeps(k1, k.current, wait, k');
    }
  }

  /** The task that is woken is ready, or waits in the pending list while the scheduler is suspended. */
  lemma SignalResult(k: K, t: Task, k': K)
    requires Inv(k) && Enabled(k, Signal(t)) && k' == RemoveFromEventList(k, t)
    ensures k' == Next(k, Signal(t)) && Inv(k') && Quiet(k, k', {t})
    ensures if k.suspensions == 0 then Home(k'.home, t) == Ready(Priority(k'.rank, t)) && Event(k'.event, t) == NoEvent
            else Home(k'.home, t) == Home(k.home, t) && Event(k'.event, t) == PendingReady
    ensures k'.rank == k.rank && k'.current == k.current
  {
    SignalStep(k, t);
    if k.suspensions == 0 {
      WokenUp(k, t, k');
    }
  }

  lemma WokenUp(k: K, t: Task, k': K)
    requires Inv(k) && t in k.home && Event(k.event, t) == OnEventList && k' == Wake(k, t)
    ensures Home(k'.home, t) == Ready(Priority(k'.rank, t)) && Event(k'.event, t) == NoEvent
    ensures k'.rank == k.rank && k'.current == k.current
  {
    WakeKeeps(k, t, k.tick + 1);
    WakeEvent(k, t);
  }

  lemma SuspendResult(k: K, t: Task, k': K)
    requires Inv(k) && Enabled(k, SuspendOne(t)) && k' == SuspendTask(k, t)
    ensures k' == Next(k, SuspendOne(t)) && Inv(k') && Quiet(k, k', {t})
    ensures Home(k'.home, t) == Suspended && Event(k'.event, t) == NoEvent
  {
    SuspendStep(k, t);
    ParkFields(LeaveEvent(k, t), t, Suspended);
  }

  lemma InheritResult(k: K, t: Task, k': K)
    requires Inv(k) && Enabled(k, InheritBy(t)) && k' == Inherit(k, t)
    ensures k' == Next(k, InheritBy(t)) && Inv(k') && Quiet(k, k', {t})
    ensures Priority(k'.rank, t) >= Priority(k.rank, t) && Priority(k'.rank, t) >= Priority(k.rank, k.current)
    ensures Priority(k'.rank, t) == Priority(k.rank, t) || Priority(k'.rank, t) == Priority(k.rank, k.current)
    ensures RankOf(k', t).base == RankOf(k, t).base && RankOf(k', t).held == RankOf(k, t).held
  {
    InheritStep(k, t);
    RerankFrame(k, t, PI.Inherited(RankOf(k, t), Priority(k.rank, k.current)));
    RerankRank(k, t, PI.Inherited(RankOf(k, t), Priority(k.rank, k.current)));
  }

  lemma RerankRank(k: K, t: Task, r: PI.Rank)
    ensures Rerank(k, t, r).rank == k.rank[t := r] && Rerank(k, t, r).current == k.current
  {
    ReadyFrame(Detach(k, t).(rank := k.rank[t := r]), t);
  }

  lemma ReadyFrame(k: K, t: Task)
    ensures AddReady(k, t).rank == k.rank && AddReady(k, t).current == k.current
  {
  }

  /** The mutex count drops by one; with the last one the inherited priority goes. */
  lemma ReturnResult(k: K, k': K)
    requires Inv(k) && Enabled(k, ReturnMutex) && k' == Disinherit(k)
    ensures k' == Next(k, ReturnMutex) && Inv(k') && Quiet(k, k', {k.current}) && k'.current == k.current
    ensures RankOf(k', k.current).held == RankOf(k, k.current).held - 1
    ensures RankOf(k', k.current).base == RankOf(k, k.current).base
    ensures Priority(k'.rank, k.current) ==
            if RankOf(k, k.current).held == 1 then RankOf(k, k.current).base else Priority(k.rank, k.current)
  {
    ReturnStep(k);
    RerankRank(k, k.current, PI.Returned(RankOf(k, k.current)));
  }

  lemma SwitchResult(k: K, k': K)
    requires Inv(k) && k' == SwitchContext(k)
    ensures k' == Next(k, Switch) && Inv(k') && Quiet(k, k', {}) && k'.suspensions == k.suspensions
    ensures if k.suspensions > 0 then k'.current == k.current
            else && Home(k'.home, k'.current) == Ready(Priority(k'.rank, k'.current))
                 && forall t | Home(k'.home, t).Ready? :: Priority(k'.rank, t) <= Priority(k'.rank, k'.current)
  {
    SwitchStep(k);
    if k.suspensions == 0 {
      SwitchPicksHighest(k);
    }
  }

  lemma ResumeResult(k: K, k': K)
    requires Inv(k) && k.suspensions > 0 && k' == ResumeAll(k)
    ensures k' == Next(k, ResumeScheduler) && Inv(k') && k'.suspensions == k.suspensions - 1
    ensures Now(k') + k'.pendedTicks == Now(k) + k.pendedTicks
    ensures if k'.suspensions == 0 then PendingReadied(k, k') else k' == k.(suspensions := k.suspensions - 1)
    ensures forall t | Event(k.event, t) != PendingReady :: OnTime(k, k', t)
  {
    ResumeAllStep(k, k');
  }

  lemma ResetResult(k: K, k': K)
    requires Inv(k) && k' == ResetUnblock(k)
    ensures k' == Next(k, ResetUnblockTime) && Inv(k') && Quiet(k, k', {})
  {
    ResetStep(k);
  }

  lemma ResetKept(k: K, k': K)
    requires k' == ResetUnblock(k)
    ensures Inv(k) ==> Inv(k')
  {
    if Inv(k) {
      ResetResult(k, k');
    }
  }

  /** The new unblock time is the least wake time in the current delayed list, or portMAX_DELAY without one. */
  lemma ResetIsLeast(k: K, k': K)
    requires Counted(k.lists, k.home) && Sorted(k.lists, k.value) && k' == ResetUnblock(k)
    ensures forall t | Home(k.home, t) == Current(k.swapped) :: k'.nextUnblock <= ValueOf(k.value, t)
    ensures if DelayedItems(k) == [] then k'.nextUnblock == MAX_DELAY
            else var t := DelayedItems(k)[0]; Home(k.home, t) == Current(k.swapped) && k'.nextUnblock == ValueOf(k.value, t)
  {
    HeadFirst(k, DelayedItems(k));
    if DelayedItems(k) != [] {
      HeadHome(k.lists, k.home, Current(k.swapped), DelayedItems(k)[0]);
    }
  }

  /** A tick is counted, or held back while the scheduler is suspended, whether or not ticks are pended. */
  lemma TickResult(k: K, k': K)
    requires Core(k, k.tick + 1)
    requires k' == if k.suspensions > 0 then k.(pendedTicks := k.pendedTicks + 1) else CountTick(k)
    ensures Core(k', k'.tick + 1) && Now(k') + k'.pendedTicks == Now(k) + k.pendedTicks + 1
    ensures k.suspensions == 0 ==> Elapsed(k, k', 1) && k'.pendedTicks == k.pendedTicks
    ensures k.suspensions > 0 ==> k' == k.(pendedTicks := k.pendedTicks + 1)
    ensures Inv(k) ==> Inv(k') && k' == Next(k, TickInterrupt)
  {
    if k.suspensions == 0 {
      CountTickWakesOnTime(k, k');
    }
    if Inv(k) {
      TickStep(k, k');
    }
  }

  /** Every step keeps the invariant: each live task is in exactly one list, the lists are in order, no
      delayed task is overdue, ready tasks stand in the list of their priority and no higher than
      uxTopReadyPriority, and nothing is held back unless the scheduler is suspended. */
  lemma StepKeeps(k: K, step: Step)
    requires Inv(k) && Enabled(k, step)
    ensures Inv(Next(k, step))
  {
    if step == TickInterrupt {
      TickStep(k, Next(k, step));
    } else if step == ResumeScheduler {
      ResumeAllStep(k, Next(k, step));
    } else {
      OtherStep(k, step, Next(k, step), Touched(k, step));
    }
  }

  // ---------- whole runs ----------

  /** The state after a step, which satisfies the invariant again */
  function After(k: K, step: Step): (k': K)
    requires Inv(k) && Enabled(k, step)
    ensures Inv(k')
  {
    StepKeeps(k, step);
    Next(k, step)
  }

  ghost predicate Admissible(k: K, steps: seq<Step>)
    requires Inv(k)
    decreases |steps|
  {
    steps == [] || (Enabled(k, steps[0]) && Admissible(After(k, steps[0]), steps[1..]))
  }

  ghost function Run(k: K, steps: seq<Step>): (k': K)
    requires Inv(k) && Admissible(k, steps)
    ensures Inv(k')
    decreases |steps|
  {
    if steps == [] then k else Run(After(k, steps[0]), steps[1..])
  }

  /** In every reachable state in which the scheduler is not suspended, a context switch finds a ready task
      and none is ready at a higher priority. */
  lemma RunsSwitchToHighest(k: K, steps: seq<Step>)
    requires Inv(k) && Admissible(k, steps) && Run(k, steps).suspensions == 0
    ensures var k1 := Run(k, steps);
            var next := SwitchContext(k1).current;
            && Home(k1.home, next) == Ready(Priority(k1.rank, next))
            && (forall t | Home(k1.home, t).Ready? :: Priority(k1.rank, t) <= Priority(k1.rank, next))
  {
    SwitchPicksHighest(Run(k, steps));
  }

  // ---------- no tick is lost ----------

  function Ticks(steps: seq<Step>): nat {
    if steps == [] then 0 else (if steps[0] == TickInterrupt then 1 else 0) + Ticks(steps[1..])
  }

  lemma StepTicks(k: K, step: Step)
    requires Inv(k) && Enabled(k, step)
    ensures var k' := Next(k, step);
            Now(k') + k'.pendedTicks == Now(k) + k.pendedTicks + if step == TickInterrupt then 1 else 0
  {
    if step == TickInterrupt {
      TickStep(k, Next(k, step));
    } else if step == ResumeScheduler {
      ResumeAllStep(k, Next(k, step));
    } else {
      OtherStep(k, step, Next(k, step), Touched(k, step));
    }
  }

  /** Over every run the interrupts seen are the ticks counted plus the ticks still held back. */
  lemma {:induction false} NoTickIsLost(k: K, steps: seq<Step>)
    requires Inv(k) && Admissible(k, steps)
    ensures Now(Run(k, steps)) + Run(k, steps).pendedTicks == Now(k) + k.pendedTicks + Ticks(steps)
    decreases |steps|
  {
    if steps != [] {
      StepTicks(k, steps[0]);
      NoTickIsLost(After(k, steps[0]), steps[1..]);
    }
  }

  // ---------- delayed tasks wake on time ----------

  /** No event, suspension or deletion is meant for task `t`. */
  predicate LeavesAlone(step: Step, t: Task) {
    match step
    case Signal(u) => u != t
    case SignalUnordered(u) => u != t
    case SuspendOne(u) => u != t
    case DeleteOne(u) => u != t
    case _ => true
  }

  lemma StepOnTime(k: K, step: Step, t: Task)
    requires Inv(k) && Enabled(k, step) && Delayed(k, t) && Event(k.event, t) != PendingReady
    requires LeavesAlone(step, t)
    ensures OnTime(k, Next(k, step), t)
    ensures Event(Next(k, step).event, t) != PendingReady
  {
    var k' := Next(k, step);
    if ClockStep(step) {
      ClockOnTime(k, step, k', t);
    } else {
      OtherStep(k, step, k', Touched(k, step));
      NotTouched(k, step, t);
      StillAsleep(k, k', t, Touched(k, step));
    }
  }

  lemma ClockOnTime(k: K, step: Step, k': K, t: Task)
    requires Inv(k) && Enabled(k, step) && ClockStep(step) && k' == Next(k, step)
    requires Event(k.event, t) != PendingReady
    ensures OnTime(k, k', t) && Event(k'.event, t) != PendingReady
  {
    if step == TickInterrupt {
      TickStep(k, k');
    } else {
      ResumeAllStep(k, k');
    }
    if k'.suspensions == 0 {
      NonePending(k', t);
    }
  }

  lemma NotTouched(k: K, step: Step, t: Task)
    requires Inv(k) && Enabled(k, step) && Delayed(k, t) && LeavesAlone(step, t)
    ensures t !in Touched(k, step)
  {
  }

  lemma StillAsleep(k: K, k': K, t: Task, out: set<Task>)
    requires Core(k, k.tick + 1) && Delayed(k, t) && Quiet(k, k', out) && t !in out
    ensures OnTime(k, k', t) && Event(k'.event, t) == Event(k.event, t)
  {
    StillAhead(k);
  }

  /** Along the run the task stays delayed until the count of ticks reaches `due`, and the very step that
      reaches it makes the task ready. */
  ghost predicate WakesAt(k: K, steps: seq<Step>, t: Task, due: nat)
    requires Inv(k) && Admissible(k, steps)
    decreases |steps|
  {
    steps == [] ||
    var k' := After(k, steps[0]);
    if Now(k') < due then Delayed(k', t) && WakesAt(k', steps[1..], t, due)
    else Home(k'.home, t) == Ready(Priority(k'.rank, t))
  }

  /** The state after the current task went to sleep for `wait` ticks */
  function Slept(k: K, wait: nat): (k': K)
    requires Inv(k) && Home(k.home, k.current).Ready? && k.current != IDLE && 0 < wait < EPOCH
    ensures Inv(k') && k'.event == k.event && Now(k') == Now(k) && k'.current == k.current
    ensures Delayed(k', k.current) && Due(k', k.current) == Now(k) + wait
  {
    var k1 := BlockUntil(k, k.current, Wrap(k.tick + wait));
    SleepStep(k, wait, k1);
    BlockKeeps(k, k.current, wait, k1);
    k1
  }

  /** Every delayed task sleeps in all states of every run until the count of ticks reaches its due time,
      across any number of wraps and suspensions of the scheduler, and the step that reaches it makes the
      task ready, unless an event, a suspension or a deletion is meant for it. */
  lemma {:induction false} WakesOnTime(k: K, steps: seq<Step>, t: Task)
    requires Inv(k) && Admissible(k, steps)
    requires Delayed(k, t) && Event(k.event, t) != PendingReady
    requires forall s | s in steps :: LeavesAlone(s, t)
    ensures WakesAt(k, steps, t, Due(k, t))
    decreases |steps|
  {
    if steps != [] {
      var k' := After(k, steps[0]);
      StepOnTime(k, steps[0], t);
      if Now(k') < Due(k, t) {
        WakesOnTime(k', steps[1..], t);
      }
    }
  }
}
