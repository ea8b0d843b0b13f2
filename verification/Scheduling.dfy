/**
  The scheduler's state and its steps (FreeRTOS/Source/tasks.c): ready lists by priority, two delayed
  lists that change places when the tick count wraps, ticks and ready tasks held back while the
  scheduler is suspended.
*/
module Scheduling {
  import opened TaskLists
  import opened TickTime
  import PI = PriorityInheritance
  import R = Rings

  /** The list that a task's generic list item is in. */
  datatype ListId = Nowhere | Ready(level: nat) | DelayedA | DelayedB | Suspended | Terminated

  /** The list that a task's event list item is in. */
  datatype EventPlace = NoEvent | OnEventList | PendingReady

  /** The idle task, which never blocks */
  const IDLE: Task := 0

  datatype K = K(
    levels: nat,                        // configMAX_PRIORITIES
    lists: map<ListId, R.Ring<Task>>,
    home: map<Task, ListId>,            // container of each live task's generic list item
    value: map<Task, nat>,              // value of each task's generic list item
    rank: map<Task, PI.Rank>,
    event: Events,       // container of each task's event list item
    pendingReady: seq<Task>,
    swapped: bool,                      // which delayed list is the current one
    tick: nat,
    overflows: nat,
    pendedTicks: nat,
    topReady: nat,
    nextUnblock: nat,
    suspensions: nat,
    current: Task)

  // ---------- reading the state ----------

  type Lists = map<ListId, R.Ring<Task>>

  type Homes = map<Task, ListId>

  function RingOf(lists: Lists, id: ListId): R.Ring<Task> {
    if id in lists then lists[id] else R.Ring([], 0)
  }

  function Items(lists: Lists, id: ListId): seq<Task> {
    RingOf(lists, id).items
  }

  function Home(home: Homes, t: Task): ListId {
    if t in home then home[t] else Nowhere
  }

  type Events = map<Task, EventPlace>

  function Event(event: Events, t: Task): EventPlace {
    if t in event then event[t] else NoEvent
  }

  function Priority(rank: map<Task, PI.Rank>, t: Task): nat {
    if t in rank then rank[t].priority else 0
  }

  /** pxDelayedTaskList */
  function Current(swapped: bool): ListId {
    if swapped then DelayedB else DelayedA
  }

  /** pxOverflowDelayedTaskList */
  function Overflow(swapped: bool): ListId {
    if swapped then DelayedA else DelayedB
  }

  /** The tasks in the current delayed list */
  function DelayedItems(k: K): seq<Task> {
    Items(k.lists, Current(k.swapped))
  }

  /** The number of ticks counted so far, without wrapping. */
  function Now(k: K): nat {
    k.overflows * EPOCH + k.tick
  }

  predicate Delayed(k: K, t: Task) {
    Home(k.home, t) == DelayedA || Home(k.home, t) == DelayedB
  }

  /** The unbounded time at which a delayed task is to be woken. */
  function Due(k: K, t: Task): nat {
    (if Home(k.home, t) == Current(k.swapped) then k.overflows else k.overflows + 1) * EPOCH + ValueOf(k.value, t)
  }

  // ---------- the invariant ----------

  /** How often `t` occurs in a list. */
  ghost function Count(lists: Lists, id: ListId, t: Task): nat {
    multiset(Items(lists, id))[t]
  }

  /** Every list holds exactly the tasks whose item says so, once each. */
  ghost predicate Counted(lists: Lists, home: Homes) {
    && (forall id: ListId, t: Task | id != Nowhere ::
          Count(lists, id, t) == if Home(home, t) == id then 1 else 0)
    && Cursors(lists)
  }

  ghost predicate Cursors(lists: Lists) {
    forall id :: CursorIn(RingOf(lists, id))
  }

  predicate CursorIn(r: R.Ring<Task>) {
    r.cursor <= |r.items|
  }

  ghost predicate Listed(home: Homes) {
    && (forall t | t in home :: home[t] != Nowhere)
    && Home(home, IDLE).Ready?
  }

  /** A ready task is in the list of its priority, and no ready list above uxTopReadyPriority is used. */
  ghost predicate Ranked(home: Homes, rank: map<Task, PI.Rank>, levels: nat, topReady: nat) {
    && (forall t :: Priority(rank, t) < levels)
    && topReady < levels
    && (forall t | Home(home, t).Ready? :: Home(home, t) == Ready(Priority(rank, t)) && Priority(rank, t) <= topReady)
  }

  ghost predicate Based(rank: map<Task, PI.Rank>, levels: nat) {
    forall t | t in rank :: rank[t].base < levels
  }

  ghost predicate Sorted(lists: Lists, value: map<Task, nat>) {
    SortedBy(Items(lists, DelayedA), value) && SortedBy(Items(lists, DelayedB), value)
  }

  /** The current delayed list holds wake times of this epoch, from `least` on, the other one wake times
      of the next epoch; nothing in the current list is due before xNextTaskUnblockTime. */
  ghost predicate Timed(home: Homes, value: map<Task, nat>, swapped: bool, nextUnblock: nat, least: nat) {
    && (forall t | Home(home, t) == Current(swapped) ::
          least <= ValueOf(value, t) < EPOCH && nextUnblock <= ValueOf(value, t))
    && (forall t | Home(home, t) == Overflow(swapped) :: ValueOf(value, t) < EPOCH)
  }

  /** The pending ready list holds the tasks whose event item says so, and only live tasks wait. */
  ghost predicate Evented(event: Events, pendingReady: seq<Task>, live: set<Task>) {
    && (forall t :: multiset(pendingReady)[t] == if Event(event, t) == PendingReady then 1 else 0)
    && (forall t | Event(event, t) != NoEvent :: t in live)
  }

  /** The invariant but for what is held back, with wake times from `least` on. */
  ghost predicate Core(k: K, least: nat) {
    && Counted(k.lists, k.home)
    && Listed(k.home)
    && Ranked(k.home, k.rank, k.levels, k.topReady)
    && Based(k.rank, k.levels)
    && Sorted(k.lists, k.value)
    && Timed(k.home, k.value, k.swapped, k.nextUnblock, least)
    && Evented(k.event, k.pendingReady, k.home.Keys)
    && k.tick < EPOCH
    && k.current in k.home
  }

  /** What every step keeps.  Wake times are still ahead, and ticks and ready tasks are only held back
      while the scheduler is suspended. */
  ghost predicate Inv(k: K) {
    && Core(k, k.tick + 1)
    && (k.suspensions == 0 ==> k.pendedTicks == 0 && k.pendingReady == [])
  }

  // ---------- moving list items ----------

  function Removed(lists: Lists, id: ListId, t: Task): Lists {
    if id == Nowhere then lists else lists[id := Unlinked(RingOf(lists, id), t)]
  }

  function Unhomed(home: Homes, t: Task): Homes {
    if Home(home, t) == Nowhere then home else home[t := Nowhere]
  }

  function Appended(lists: Lists, id: ListId, t: Task): Lists {
    lists[id := R.InsertEnd(RingOf(lists, id), t)]
  }

  /** uxListRemove on the generic list item */
  function Detach(k: K, t: Task): K {
    k.(lists := Removed(k.lists, Home(k.home, t), t), home := Unhomed(k.home, t))
  }

  /** vListInsertEnd */
  function AttachEnd(k: K, t: Task, id: ListId): K {
    k.(lists := Appended(k.lists, id, t), home := k.home[t := id])
  }

  /** vListInsert into a list whose cursor stays at the end marker */
  function Inserted(lists: Lists, id: ListId, t: Task, value: map<Task, nat>): Lists {
    lists[id := RingOf(lists, id).(items := Insertion(Items(lists, id), t, value))]
  }

  /** vListInsert of an item with value `v` */
  function AttachSorted(k: K, t: Task, id: ListId, v: nat): K {
    k.(lists := Inserted(k.lists, id, t, k.value[t := v]), home := k.home[t := id], value := k.value[t := v])
  }

  /** prvAddTaskToReadyList */
  function AddReady(k: K, t: Task): K {
    var p := Priority(k.rank, t);
    AttachEnd(if p > k.topReady then k.(topReady := p) else k, t, Ready(p))
  }

  /** Takes the event list item out of its list. */
  function LeaveEvent(k: K, t: Task): K {
    k.(event := if Event(k.event, t) == NoEvent then k.event else k.event[t := NoEvent],
       pendingReady := if Event(k.event, t) == PendingReady then Without(k.pendingReady, t) else k.pendingReady)
  }

  /** A blocked task becomes ready. */
  function Wake(k: K, t: Task): K {
    AddReady(Detach(LeaveEvent(k, t), t), t)
  }

  /** prvAddCurrentTaskToDelayedList, for a task that is in no list */
  function AddDelayed(k: K, t: Task, wake: nat): K {
    if wake < k.tick then AttachSorted(k, t, Overflow(k.swapped), wake)
    else
      var k1 := AttachSorted(k, t, Current(k.swapped), wake);
      if wake < k.nextUnblock then k1.(nextUnblock := wake) else k1
  }

  /** prvResetNextTaskUnblockTime */
  function ResetUnblock(k: K): K {
    var s := DelayedItems(k);
    k.(nextUnblock := if s == [] then MAX_DELAY else ValueOf(k.value, s[0]))
  }

  // ---------- what moving keeps ----------

  lemma ItemsUpdate(lists: Lists, id: ListId, r: R.Ring<Task>)
    ensures RingOf(lists[id := r], id) == r
    ensures forall other | other != id :: RingOf(lists[id := r], other) == RingOf(lists, other)
  {
    forall other | other != id
      ensures RingOf(lists[id := r], other) == RingOf(lists, other)
    {
    }
  }

  lemma CursorsAfter(lists: Lists, id: ListId, r: R.Ring<Task>)
    requires Cursors(lists) && CursorIn(r)
    ensures Cursors(lists[id := r])
  {
    var lists' := lists[id := r];
    ItemsUpdate(lists, id, r);
    forall other
      ensures CursorIn(RingOf(lists', other))
    {
      assert other != id ==> CursorIn(RingOf(lists, other));
    }
  }

  lemma HomeMove(home: Homes, t: Task, id: ListId)
    ensures forall u :: Home(home[t := id], u) == if u == t then id else Home(home, u)
  {
    forall u
      ensures Home(home[t := id], u) == if u == t then id else Home(home, u)
    {
    }
  }

  lemma DetachCounted(lists: Lists, home: Homes, t: Task)
    requires Counted(lists, home) && Home(home, t) != Nowhere
    ensures var id := Home(home, t);
            Counted(lists[id := Unlinked(RingOf(lists, id), t)], home[t := Nowhere])
  {
    var h := Home(home, t);
    var r := Unlinked(RingOf(lists, h), t);
    ItemsUpdate(lists, h, r);
    HomeMove(home, t, Nowhere);
    assert CursorIn(RingOf(lists, h));
    UnlinkedCursor(RingOf(lists, h), t);
    var lists', home' := lists[h := r], home[t := Nowhere];
    CursorsAfter(lists, h, r);
    forall id: ListId, u: Task | id != Nowhere
      ensures Count(lists', id, u) == if Home(home', u) == id then 1 else 0
    {
      assert Count(lists, id, u) == if Home(home, u) == id then 1 else 0;
      WithoutCount(Items(lists, id), t, u);
    }
  }

  lemma AttachCounted(lists: Lists, home: Homes, t: Task, id: ListId, r: R.Ring<Task>)
    requires Counted(lists, home) && Home(home, t) == Nowhere && id != Nowhere
    requires multiset(r.items) == multiset(Items(lists, id)) + multiset{t} && r.cursor <= |r.items|
    ensures Counted(lists[id := r], home[t := id])
  {
    ItemsUpdate(lists, id, r);
    HomeMove(home, t, id);
    var lists', home' := lists[id := r], home[t := id];
    CursorsAfter(lists, id, r);
    forall i: ListId, u: Task | i != Nowhere
      ensures Count(lists', i, u) == if Home(home', u) == i then 1 else 0
    {
      assert Count(lists, i, u) == if Home(home, u) == i then 1 else 0;
    }
  }

  lemma HeadHome(lists: Lists, home: Homes, id: ListId, t: Task)
    requires Counted(lists, home) && id != Nowhere && t in Items(lists, id)
    ensures Home(home, t) == id
  {
    assert Count(lists, id, t) > 0;
  }

  /** A removal keeps the counts and the order of the delayed lists. */
  lemma RemovedKeeps(lists: Lists, home: Homes, value: map<Task, nat>, t: Task)
    requires Counted(lists, home) && Sorted(lists, value) && Home(home, t) != Nowhere
    ensures var lists' := Removed(lists, Home(home, t), t);
            Counted(lists', home[t := Nowhere]) && Sorted(lists', value)
  {
    var id := Home(home, t);
    DetachCounted(lists, home, t);
    ItemsUpdate(lists, id, Unlinked(RingOf(lists, id), t));
    if id == DelayedA || id == DelayedB {
      WithoutSorted(Items(lists, id), t, value);
    }
  }

  lemma AppendedKeeps(lists: Lists, home: Homes, value: map<Task, nat>, t: Task, id: ListId)
    requires Counted(lists, home) && Sorted(lists, value) && Home(home, t) == Nowhere
    requires id != Nowhere && id != DelayedA && id != DelayedB
    ensures Counted(Appended(lists, id, t), home[t := id]) && Sorted(Appended(lists, id, t), value)
  {
    assert CursorIn(RingOf(lists, id));
    InsertEndItems(RingOf(lists, id), t);
    AttachCounted(lists, home, t, id, R.InsertEnd(RingOf(lists, id), t));
    ItemsUpdate(lists, id, R.InsertEnd(RingOf(lists, id), t));
  }

  /** Moving a task to the end of a list that is not a delayed one. */
  lemma MoveEnd(lists: Lists, home: Homes, value: map<Task, nat>, t: Task, id: ListId)
    requires Counted(lists, home) && Sorted(lists, value) && Home(home, t) != Nowhere
    requires id != Nowhere && id != DelayedA && id != DelayedB
    ensures var lists' := Appended(Removed(lists, Home(home, t), t), id, t);
            && Counted(lists', home[t := id]) && Sorted(lists', value)
            && (Home(home, t) != id ==> Items(lists', Home(home, t)) == Without(Items(lists, Home(home, t)), t))
  {
    var lists1 := Removed(lists, Home(home, t), t);
    RemovedKeeps(lists, home, value, t);
    AppendedKeeps(lists1, home[t := Nowhere], value, t, id);
    assert home[t := Nowhere][t := id] == home[t := id];
    ItemsUpdate(lists1, id, R.InsertEnd(RingOf(lists1, id), t));
    ItemsUpdate(lists, Home(home, t), Unlinked(RingOf(lists, Home(home, t)), t));
  }

  lemma RingValid(lists: Lists, home: Homes, id: ListId)
    requires Counted(lists, home) && id != Nowhere
    ensures RingOf(lists, id).Valid()
  {
    var r := RingOf(lists, id);
    assert CursorIn(r);
    forall x | x in r.items
      ensures multiset(r.items)[x] == 1
    {
      assert Count(lists, id, x) <= 1;
      assert x in multiset(r.items);
    }
  }

  /** Task `t` joins the turn order of list `id` at the back, and all other tasks keep their turns. */
  ghost predicate GoesToBack(lists: Lists, lists': Lists, t: Task, id: ListId) {
    && (forall i: ListId | i.Ready? :: RingOf(lists, i).Valid() && RingOf(lists', i).Valid())
    && (forall i: ListId | i.Ready? && i != id :: R.Turns(RingOf(lists', i)) == Without(R.Turns(RingOf(lists, i)), t))
    && (id.Ready? ==> JoinsBack(Without(R.Turns(RingOf(lists, id)), t), R.Turns(RingOf(lists', id)), t))
  }

  lemma NotInTurns(r: R.Ring<Task>, t: Task)
    requires r.Valid() && t !in r.items
    ensures Without(R.Turns(r), t) == R.Turns(r)
  {
    R.TurnsDistinct(r);
    WithoutPlace(R.Turns(r), t);
  }

  /** What moving a task to the end of a list does to the turns in the ready lists */
  lemma MovedToBack(lists: Lists, home: Homes, t: Task, id: ListId, lists1: Lists, lists': Lists)
    requires Counted(lists, home) && id != Nowhere
    requires lists1 == Removed(lists, Home(home, t), t) && lists' == Appended(lists1, id, t)
    ensures GoesToBack(lists, lists', t, id)
  {
    var h := Home(home, t);
    forall i: ListId | i != Nowhere
      ensures RingOf(lists1, i).Valid() && R.Turns(RingOf(lists1, i)) == Without(R.Turns(RingOf(lists, i)), t)
      ensures t !in RingOf(lists1, i).items
    {
      RingValid(lists, home, i);
      if i == h {
        UnlinkedTurns(RingOf(lists, i), t);
      } else {
        assert Count(lists, i, t) == 0;
        NotInTurns(RingOf(lists, i), t);
      }
    }
    RingValid(lists, home, id);
    LinkedTurns(RingOf(lists1, id), t);
    forall i: ListId | i.Ready?
      ensures RingOf(lists, i).Valid() && RingOf(lists', i).Valid()
      ensures i != id ==> R.Turns(RingOf(lists', i)) == Without(R.Turns(RingOf(lists, i)), t)
    {
      RingValid(lists, home, i);
    }
  }

  lemma RankedMove(home: Homes, rank: map<Task, PI.Rank>, levels: nat, topReady: nat, t: Task, id: ListId, top': nat)
    requires Ranked(home, rank, levels, topReady) && topReady <= top' < levels
    requires id.Ready? ==> id == Ready(Priority(rank, t)) && Priority(rank, t) <= top'
    ensures Ranked(home[t := id], rank, levels, top')
  {
    HomeMove(home, t, id);
  }

  lemma TimedMove(home: Homes, value: map<Task, nat>, swapped: bool, nextUnblock: nat, least: nat, t: Task, id: ListId)
    requires Timed(home, value, swapped, nextUnblock, least) && id != DelayedA && id != DelayedB
    ensures Timed(home[t := id], value, swapped, nextUnblock, least)
  {
    HomeMove(home, t, id);
  }

  /** Everything but lists and events is as before, except that uxTopReadyPriority may be higher. */
  ghost predicate SameClock(k: K, k': K) {
    && k'.home.Keys == k.home.Keys
    && k' == k.(lists := k'.lists, home := k'.home, event := k'.event, pendingReady := k'.pendingReady,
                topReady := k'.topReady)
    && (k.pendingReady == [] ==> k'.pendingReady == [])
  }

  lemma LeaveEventKeeps(k: K, t: Task)
    requires Evented(k.event, k.pendingReady, k.home.Keys)
    ensures Evented(LeaveEvent(k, t).event, LeaveEvent(k, t).pendingReady, k.home.Keys)
  {
    var k' := LeaveEvent(k, t);
    forall u
      ensures Event(k'.event, u) == if u == t then NoEvent else Event(k.event, u)
    {
    }
    forall u
      ensures multiset(k'.pendingReady)[u] == if Event(k'.event, u) == PendingReady then 1 else 0
    {
      WithoutCount(k.pendingReady, t, u);
    }
  }

  /** The task waits for nothing any more, and nothing changes for the others. */
  ghost predicate Unwaits(event: Events, event': Events, t: Task) {
    forall u :: Event(event', u) == if u == t then NoEvent else Event(event, u)
  }

  lemma LeaveEventClears(k: K, t: Task)
    ensures Unwaits(k.event, LeaveEvent(k, t).event, t)
  {
  }

  lemma ReadyFields(k: K, t: Task)
    requires Home(k.home, t) != Nowhere
    ensures var k' := AddReady(Detach(k, t), t);
            && MovesToReady(k, t, k')
            && k'.topReady == (if Priority(k.rank, t) > k.topReady then Priority(k.rank, t) else k.topReady)
            && k'.event == k.event && k'.pendingReady == k.pendingReady
  {
    var id := Ready(Priority(k.rank, t));
    assert k.home[t := Nowhere][t := id] == k.home[t := id];
  }

  lemma ReadyTurns(k: K, t: Task, k': K)
    requires Counted(k.lists, k.home) && MovesToReady(k, t, k')
    ensures GoesToBack(k.lists, k'.lists, t, Ready(Priority(k.rank, t)))
  {
    MovedToBack(k.lists, k.home, t, Ready(Priority(k.rank, t)), Removed(k.lists, Home(k.home, t), t), k'.lists);
  }

  lemma MovedReadyKeeps(k: K, t: Task, k': K, least: nat)
    requires Core(k, least) && t in k.home && MovesToReady(k, t, k')
    requires k'.topReady == (if Priority(k.rank, t) > k.topReady then Priority(k.rank, t) else k.topReady)
    requires k'.event == k.event && k'.pendingReady == k.pendingReady
    ensures Core(k', least)
  {
    var p := Priority(k.rank, t);
    MoveEnd(k.lists, k.home, k.value, t, Ready(p));
    RankedMove(k.home, k.rank, k.levels, k.topReady, t, Ready(p), k'.topReady);
    TimedMove(k.home, k.value, k.swapped, k.nextUnblock, least, t, Ready(p));
  }

  /** A task that is made ready joins the ready list of its priority at the back. */
  lemma ReadyKeeps(k: K, t: Task, least: nat)
    requires Core(k, least) && t in k.home
    ensures Core(AddReady(Detach(k, t), t), least) && SameClock(k, AddReady(Detach(k, t), t))
    ensures AddReady(Detach(k, t), t).home == k.home[t := Ready(Priority(k.rank, t))]
    ensures GoesToBack(k.lists, AddReady(Detach(k, t), t).lists, t, Ready(Priority(k.rank, t)))
  {
    var k' := AddReady(Detach(k, t), t);
    ReadyFields(k, t);
    MovedReadyKeeps(k, t, k', least);
    ReadyTurns(k, t, k');
  }

  /** Making a task ready keeps the invariant, and moves that task only. */
  lemma WakeKeeps(k: K, t: Task, least: nat)
    requires Core(k, least) && t in k.home
    ensures Core(Wake(k, t), least) && SameClock(k, Wake(k, t))
    ensures Wake(k, t).home == k.home[t := Ready(Priority(k.rank, t))] && Unwaits(k.event, Wake(k, t).event, t)
    ensures GoesToBack(k.lists, Wake(k, t).lists, t, Ready(Priority(k.rank, t)))
  {
    LeaveEventKeeps(k, t);
    LeaveEventClears(k, t);
    ReadyKeeps(LeaveEvent(k, t), t, least);
    ReadyFields(LeaveEvent(k, t), t);
  }

  // ---------- the tick ----------

  /** The loop of xTaskIncrementTick: wakes the delayed tasks whose time has come. */
  function Unblock(k: K): K
    requires Counted(k.lists, k.home) && Sorted(k.lists, k.value)
    decreases |DelayedItems(k)|
  {
    var s := DelayedItems(k);
    if s == [] then k.(nextUnblock := MAX_DELAY)
    else if k.tick < ValueOf(k.value, s[0]) then k.(nextUnblock := ValueOf(k.value, s[0]))
    else
      WakeHead(k, s[0], Wake(k, s[0]));
      Unblock(Wake(k, s[0]))
  }

  /** Task `t` moves from its list to the end of its ready list, and nothing else happens to the lists. */
  ghost predicate MovesToReady(k: K, t: Task, k': K) {
    var id := Ready(Priority(k.rank, t));
    && k'.lists == Appended(Removed(k.lists, Home(k.home, t), t), id, t)
    && k'.home == k.home[t := id]
    && SameClock(k, k')
  }

  lemma LeaveEventFields(k: K, t: Task)
    ensures var k1 := LeaveEvent(k, t);
            && k1 == k.(event := k1.event, pendingReady := k1.pendingReady)
            && (k.pendingReady == [] ==> k1.pendingReady == [])
  {
  }

  lemma MovesAfterEvent(k: K, k1: K, t: Task, k': K)
    requires k1 == k.(event := k1.event, pendingReady := k1.pendingReady) && Home(k.home, t) != Nowhere
    requires k.pendingReady == [] ==> k1.pendingReady == []
    requires k' == AddReady(Detach(k1, t), t)
    ensures MovesToReady(k, t, k')
  {
    ReadyFields(k1, t);
  }

  lemma WakeFields(k: K, t: Task)
    requires Home(k.home, t) != Nowhere
    ensures MovesToReady(k, t, Wake(k, t))
  {
    LeaveEventFields(k, t);
    MovesAfterEvent(k, LeaveEvent(k, t), t, Wake(k, t));
  }

  lemma RemovedHead(lists: Lists, home: Homes, value: map<Task, nat>, id: ListId, t: Task, to: ListId)
    requires Counted(lists, home) && Sorted(lists, value)
    requires (id == DelayedA || id == DelayedB) && Items(lists, id) != [] && t == Items(lists, id)[0]
    requires to.Ready?
    ensures Home(home, t) == id
    ensures var lists' := Appended(Removed(lists, id, t), to, t);
            Counted(lists', home[t := to]) && Sorted(lists', value) && Items(lists', id) == Items(lists, id)[1..]
  {
    HeadHome(lists, home, id, t);
    MoveEnd(lists, home, value, t, to);
  }

  lemma WakeHead(k: K, t: Task, k': K)
    requires Counted(k.lists, k.home) && Sorted(k.lists, k.value)
    requires DelayedItems(k) != [] && t == DelayedItems(k)[0] && k' == Wake(k, t)
    ensures Delayed(k, t) && Home(k.home, t) == Current(k.swapped)
    ensures Counted(k'.lists, k'.home) && Sorted(k'.lists, k'.value)
    ensures DelayedItems(k') == DelayedItems(k)[1..]
  {
    RemovedHead(k.lists, k.home, k.value, Current(k.swapped), t, Ready(Priority(k.rank, t)));
    WakeFields(k, t);
  }

  /** taskSWITCH_DELAYED_LISTS */
  function SwitchDelayed(k: K): K {
    ResetUnblock(k.(swapped := !k.swapped, overflows := k.overflows + 1))
  }

  /** xTaskIncrementTick while the scheduler is not suspended */
  function CountTick(k: K): K
    requires Counted(k.lists, k.home) && Sorted(k.lists, k.value)
  {
    WakeDue(Advanced(k))
  }

  /** The tick count goes up, and at a wrap to zero the delayed lists change places. */
  function Advanced(k: K): K {
    var k1 := k.(tick := if k.tick == MAX_DELAY then 0 else k.tick + 1);
    if k1.tick == 0 then SwitchDelayed(k1) else k1
  }

  function WakeDue(k: K): K
    requires Counted(k.lists, k.home) && Sorted(k.lists, k.value)
  {
    if k.tick >= k.nextUnblock then Unblock(k) else k
  }

  /** Is a delayed task still to sleep at the time of `k`? */
  predicate Sleeps(k: K, t: Task) {
    Home(k.home, t) == Overflow(k.swapped) || (Home(k.home, t) == Current(k.swapped) && k.tick < ValueOf(k.value, t))
  }

  /** The clock is as before and delayed tasks have the same due times, except those that woke up. */
  ghost predicate Woken(k: K, k': K) {
    && k'.home.Keys == k.home.Keys
    && k' == k.(lists := k'.lists, home := k'.home, event := k'.event, pendingReady := k'.pendingReady,
                topReady := k'.topReady, nextUnblock := k'.nextUnblock)
    && (k.pendingReady == [] ==> k'.pendingReady == [])
    && (forall t :: Home(k'.home, t) ==
                    if Delayed(k, t) && !Sleeps(k, t) then Ready(Priority(k.rank, t)) else Home(k.home, t))
    && (forall t :: Event(k'.event, t) == if Delayed(k, t) && !Sleeps(k, t) then NoEvent else Event(k.event, t))
  }

  lemma NoneToWake(k: K, k': K)
    requires Core(k, k.tick) && k' == k.(nextUnblock := k'.nextUnblock)
    requires forall t | Home(k.home, t) == Current(k.swapped) ::
               k.tick < ValueOf(k.value, t) && k'.nextUnblock <= ValueOf(k.value, t)
    ensures Core(k', k.tick + 1) && Woken(k, k')
  {
  }

  lemma HeadFirst(k: K, s: seq<Task>)
    requires Counted(k.lists, k.home) && Sorted(k.lists, k.value) && s == DelayedItems(k)
    ensures forall t | Home(k.home, t) == Current(k.swapped) :: s != [] && ValueOf(k.value, s[0]) <= ValueOf(k.value, t)
  {
    forall t | Home(k.home, t) == Current(k.swapped)
      ensures s != [] && ValueOf(k.value, s[0]) <= ValueOf(k.value, t)
    {
      assert Count(k.lists, Current(k.swapped), t) == 1;
      HeadIsLeast(s, k.value, t);
    }
  }

  /** One round of the loop: the first delayed task is woken. */
  lemma UnblockOnce(k: K, t: Task, k1: K)
    requires Core(k, k.tick) && DelayedItems(k) != [] && t == DelayedItems(k)[0] && k.tick >= ValueOf(k.value, t)
    requires k1 == Wake(k, t)
    ensures Core(k1, k1.tick) && k1.tick == k.tick && SameClock(k, k1) && k1.home == k.home[t := Ready(Priority(k.rank, t))]
    ensures Delayed(k, t) && !Sleeps(k, t) && Unwaits(k.event, k1.event, t)
    ensures Unblock(k) == Unblock(k1) && DelayedItems(k1) == DelayedItems(k)[1..]
  {
    WakeHead(k, t, k1);
    WakeKeeps(k, t, k.tick);
  }

  /** Exactly the tasks whose time has come are woken. */
  lemma {:induction false} UnblockWakes(k: K, k': K)
    requires Core(k, k.tick) && k' == Unblock(k)
    ensures Core(k', k.tick + 1) && Woken(k, k')
    decreases |DelayedItems(k)|
  {
    var s := DelayedItems(k);
    if s == [] || k.tick < ValueOf(k.value, s[0]) {
      HeadFirst(k, s);
      NoneToWake(k, k');
    } else {
      var k1 := Wake(k, s[0]);
      UnblockOnce(k, s[0], k1);
      UnblockWakes(k1, k');
      WokenTwice(k, s[0], k');
    }
  }

  lemma WokenTwice(k: K, t: Task, k': K)
    requires SameClock(k, Wake(k, t)) && Wake(k, t).home == k.home[t := Ready(Priority(k.rank, t))]
    requires Unwaits(k.event, Wake(k, t).event, t)
    requires Delayed(k, t) && !Sleeps(k, t) && Woken(Wake(k, t), k')
    ensures Woken(k, k')
  {
    HomeMove(k.home, t, Ready(Priority(k.rank, t)));
  }

  /** After `n` more ticks exactly the delayed tasks that are due are awake and wait for no event any more, and
      the others keep their times and events. */
  ghost predicate Elapsed(k: K, k': K, n: nat) {
    && Now(k') == Now(k) + n
    && (forall t | Delayed(k, t) :: Due(k, t) > Now(k))
    && (forall t :: Home(k'.home, t) ==
                    if Delayed(k, t) && Due(k, t) <= Now(k') then Ready(Priority(k.rank, t)) else Home(k.home, t))
    && (forall t :: Event(k'.event, t) ==
                    if Delayed(k, t) && Due(k, t) <= Now(k') then NoEvent else Event(k.event, t))
    && (forall t | Delayed(k', t) :: Due(k', t) == Due(k, t))
    && SameTasks(k, k')
  }

  /** What the clock does not touch */
  ghost predicate SameTasks(k: K, k': K) {
    && k'.home.Keys == k.home.Keys && k'.rank == k.rank && k'.levels == k.levels
    && k'.suspensions == k.suspensions && k'.current == k.current
    && (k.pendingReady == [] ==> k'.pendingReady == [])
  }

  /** One tick later in `k1`, before anybody is woken, the lists and due times are as in `k`. */
  ghost predicate TickedOnce(k: K, k1: K) {
    && Now(k1) == Now(k) + 1 && k1.home == k.home && k1.event == k.event && k1.pendedTicks == k.pendedTicks
    && SameTasks(k, k1)
    && forall t | Delayed(k, t) ::
         Due(k, t) > Now(k) && Due(k1, t) == Due(k, t) && (Sleeps(k1, t) <==> Due(k, t) > Now(k1))
  }

  lemma WokenElapsed(k: K, k1: K, k': K)
    requires TickedOnce(k, k1) && Woken(k1, k')
    ensures Elapsed(k, k', 1) && k'.pendedTicks == k.pendedTicks
  {
    assert forall t :: Delayed(k1, t) == Delayed(k, t);
  }

  lemma TickWithinEpoch(k: K, k1: K)
    requires Core(k, k.tick + 1) && k.tick + 1 < EPOCH && k1 == k.(tick := k.tick + 1)
    ensures TickedOnce(k, k1)
  {
  }

  /** At a wrap the current delayed list is empty, and the other one takes its place. */
  lemma WrapEmptiesDelayed(k: K)
    requires Core(k, k.tick + 1) && k.tick == EPOCH - 1
    ensures DelayedItems(k) == []
    ensures Core(SwitchDelayed(k.(tick := 0)), 0)
    ensures Now(SwitchDelayed(k.(tick := 0))) == Now(k) + 1
  {
    if DelayedItems(k) != [] {
      HeadHome(k.lists, k.home, Current(k.swapped), DelayedItems(k)[0]);
      assert false;
    }
    var k' := SwitchDelayed(k.(tick := 0));
    forall t | Home(k'.home, t) == Current(k'.swapped)
      ensures k'.nextUnblock <= ValueOf(k'.value, t)
    {
      assert Count(k'.lists, Current(k'.swapped), t) == 1;
      HeadIsLeast(DelayedItems(k'), k.value, t);
    }
  }

  lemma TickAcrossEpoch(k: K, k1: K)
    requires Core(k, k.tick + 1) && k.tick == EPOCH - 1 && k1 == SwitchDelayed(k.(tick := 0))
    ensures TickedOnce(k, k1)
  {
  }

  lemma WakeIfDue(k: K, k': K)
    requires Core(k, k.tick) && k' == WakeDue(k)
    ensures Core(k', k'.tick + 1) && Woken(k, k')
  {
    if k.tick >= k.nextUnblock {
      UnblockWakes(k, k');
    } else {
      NoneToWake(k, k);
    }
  }

  lemma AdvancedKeeps(k: K)
    requires Core(k, k.tick + 1)
    ensures Core(Advanced(k), Advanced(k).tick)
  {
    if k.tick == MAX_DELAY {
      WrapEmptiesDelayed(k);
    }
  }

  /** xTaskIncrementTick wakes each task exactly at its time, across any wrap of the counter. */
  lemma CountTickWakesOnTime(k: K, k': K)
    requires Core(k, k.tick + 1) && k' == CountTick(k)
    ensures Core(k', k'.tick + 1) && Elapsed(k, k', 1) && k'.pendedTicks == k.pendedTicks
  {
    AdvancedKeeps(k);
    WakeIfDue(Advanced(k), k');
    TickFollows(k, Advanced(k), k');
  }

  lemma TickFollows(k: K, k1: K, k': K)
    requires Core(k, k.tick + 1) && k1 == Advanced(k) && Woken(k1, k')
    ensures Elapsed(k, k', 1) && k'.pendedTicks == k.pendedTicks
  {
    if k.tick == MAX_DELAY {
      TickAcrossEpoch(k, k1);
    } else {
      TickWithinEpoch(k, k1);
    }
    WokenElapsed(k, k1, k');
  }

  // ---------- resuming the scheduler ----------

  /** The ticks that came while the scheduler was suspended are counted one by one. */
  function Replay(k: K): K
    requires Core(k, k.tick + 1)
    decreases k.pendedTicks
  {
    if k.pendedTicks == 0 then k
    else
      CountTickWakesOnTime(k, CountTick(k));
      PendedKeeps(CountTick(k), k.pendedTicks - 1);
      Replay(CountTick(k).(pendedTicks := k.pendedTicks - 1))
  }

  lemma PendedKeeps(k: K, n: nat)
    requires Core(k, k.tick + 1)
    ensures Core(k.(pendedTicks := n), k.tick + 1)
  {
  }

  lemma ElapsedTwice(k: K, k1: K, k2: K, m: nat, n: nat)
    requires Elapsed(k, k1, m) && Elapsed(k1, k2, n)
    ensures Elapsed(k, k2, m + n)
  {
  }

  /** One round of the replay */
  lemma ReplayOnce(k: K, k1: K)
    requires Core(k, k.tick + 1) && k.pendedTicks > 0
    requires k1 == CountTick(k).(pendedTicks := k.pendedTicks - 1)
    ensures Core(k1, k1.tick + 1) && Elapsed(k, k1, 1) && Replay(k) == Replay(k1)
    ensures CountTick(k).pendedTicks == k.pendedTicks
  {
    CountTickWakesOnTime(k, CountTick(k));
    LessPended(k, CountTick(k), k1);
    ReplayUnfolds(k, CountTick(k), k1);
  }

  lemma LessPended(k: K, c: K, k1: K)
    requires Core(c, c.tick + 1) && Elapsed(k, c, 1) && k.pendedTicks > 0 && k1 == c.(pendedTicks := k.pendedTicks - 1)
    ensures Core(k1, k1.tick + 1) && Elapsed(k, k1, 1)
  {
    PendedKeeps(c, k.pendedTicks - 1);
    ElapsedPended(k, c, k1);
  }

  lemma ElapsedPended(k: K, c: K, k1: K)
    requires Elapsed(k, c, 1) && k1 == c.(pendedTicks := k1.pendedTicks)
    ensures Elapsed(k, k1, 1)
  {
  }

  lemma ReplayUnfolds(k: K, c: K, k1: K)
    requires Core(k, k.tick + 1) && k.pendedTicks > 0 && c == CountTick(k)
    requires k1 == c.(pendedTicks := k.pendedTicks - 1) && Core(k1, k1.tick + 1)
    ensures Replay(k) == Replay(k1)
  {
  }

  lemma {:induction false} ReplayCatchesUp(k: K, k': K)
    requires Core(k, k.tick + 1) && k' == Replay(k)
    ensures Core(k', k'.tick + 1) && k'.pendedTicks == 0
    ensures Elapsed(k, k', k.pendedTicks)
    decreases k.pendedTicks
  {
    if k.pendedTicks > 0 {
      var k1 := CountTick(k);
      var k2 := k1.(pendedTicks := k.pendedTicks - 1);
      ReplayOnce(k, k2);
      ReplayCatchesUp(k2, k');
      ElapsedTwice(k, k2, k', 1, k.pendedTicks - 1);
    } else {
      StillAhead(k);
    }
  }

  /** Delayed tasks are due later than now. */
  lemma StillAhead(k: K)
    requires Core(k, k.tick + 1)
    ensures Elapsed(k, k, 0)
  {
  }

  /** The pending ready tasks become ready. */
  function MovePending(k: K): K
    requires Core(k, k.tick + 1)
    decreases |k.pendingReady|
  {
    if k.pendingReady == [] then k
    else
      PendingLeaves(k, k.pendingReady[0]);
      MovePending(Wake(k, k.pendingReady[0]))
  }

  lemma PendingLeaves(k: K, t: Task)
    requires Core(k, k.tick + 1) && k.pendingReady != [] && t == k.pendingReady[0]
    ensures Event(k.event, t) == PendingReady && t in k.home
    ensures Core(Wake(k, t), k.tick + 1) && SameClock(k, Wake(k, t)) && MovesToReady(k, t, Wake(k, t))
    ensures Wake(k, t).pendingReady == k.pendingReady[1..]
    ensures Wake(k, t).event == k.event[t := NoEvent]
  {
    assert multiset(k.pendingReady)[t] > 0;
    WakeKeeps(k, t, k.tick + 1);
    WakeFields(k, t);
    ReadyFields(LeaveEvent(k, t), t);
  }

  /** The tasks on the pending ready list, and no others, become ready at their priority and wait for nothing any
      more. */
  lemma {:induction false} MovePendingKeeps(k: K, k': K)
    requires Core(k, k.tick + 1) && k' == MovePending(k)
    ensures Core(k', k.tick + 1) && SameClock(k, k') && k'.pendingReady == []
    ensures PendingMoved(k, k')
    decreases |k.pendingReady|
  {
    if k.pendingReady != [] {
      var t := k.pendingReady[0];
      PendingLeaves(k, t);
      MovePendingKeeps(Wake(k, t), k');
      PendingMovedTwice(k, t, Wake(k, t), k');
    } else {
      NonePendingMoved(k);
    }
  }

  ghost predicate PendingMoved(k: K, k': K) {
    && (forall t :: Home(k'.home, t) ==
                    if Event(k.event, t) == PendingReady then Ready(Priority(k.rank, t)) else Home(k.home, t))
    && (forall t :: Event(k'.event, t) == if Event(k.event, t) == PendingReady then NoEvent else Event(k.event, t))
  }

  lemma NonePendingMoved(k: K)
    requires Evented(k.event, k.pendingReady, k.home.Keys) && k.pendingReady == []
    ensures PendingMoved(k, k)
  {
    forall t
      ensures Event(k.event, t) != PendingReady
    {
      assert multiset(k.pendingReady)[t] == 0;
    }
  }

  lemma PendingMovedTwice(k: K, t: Task, k1: K, k': K)
    requires Event(k.event, t) == PendingReady && MovesToReady(k, t, k1) && k1.event == k.event[t := NoEvent]
    requires SameClock(k1, k') && PendingMoved(k1, k')
    ensures SameClock(k, k') && PendingMoved(k, k')
  {
    HomeMove(k.home, t, Ready(Priority(k.rank, t)));
  }

  /** xTaskResumeAll */
  function ResumeAll(k: K): K
    requires Core(k, k.tick + 1) && k.suspensions > 0
  {
    var k1 := k.(suspensions := k.suspensions - 1);
    if k1.suspensions > 0 then k1 else CatchUp(k1)
  }

  /** What xTaskResumeAll does once the scheduler is no longer suspended */
  function CatchUp(k: K): K
    requires Core(k, k.tick + 1)
  {
    MovePendingKeeps(k, MovePending(k));
    Replay(MovePending(k))
  }
}
