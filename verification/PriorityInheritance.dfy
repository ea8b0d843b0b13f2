/**
  Mutexes and priority inheritance (FreeRTOS/Source/queue.c, FreeRTOS/Source/tasks.c): a mutex is a
  queue of one empty message that also records its holder, and a holder inherits the priority of the
  tasks that wait for it until it has returned every mutex it holds.
*/
module PriorityInheritance {
  import opened TaskLists

  /** uxPriority, uxBasePriority and uxMutexesHeld of a task */
  datatype Rank = Rank(priority: nat, base: nat, held: nat)

  /** vTaskPriorityInherit: the holder's rank once a task of priority `waiter` waits for it. */
  function Inherited(r: Rank, waiter: nat): Rank {
    if r.priority < waiter then r.(priority := waiter) else r
  }

  /** xTaskPriorityDisinherit: the holder's rank once it returned one mutex. */
  function Returned(r: Rank): Rank
    requires r.held > 0
  {
    if r.priority != r.base && r.held == 1 then Rank(r.base, r.base, 0) else r.(held := r.held - 1)
  }

  /** vTaskPrioritySet */
  function Reranked(r: Rank, p: nat): Rank {
    if r.base == p then r
    else Rank(if r.base == r.priority then p else r.priority, p, r.held)
  }

  type MutexId = nat

  datatype Holder = Nobody | Held(task: Task)

  datatype Mutex = Mutex(waiting: nat, holder: Holder, recursive: bool, calls: nat)

  datatype System = System(rank: map<Task, Rank>, mutexes: map<MutexId, Mutex>)

  ghost function Holdings(s: System, t: Task): set<MutexId> {
    set m | m in s.mutexes && s.mutexes[m].holder == Held(t)
  }

  ghost predicate MutexOk(x: Mutex) {
    && x.waiting <= 1
    && (x.waiting == 1 <==> x.holder == Nobody)
    && (x.calls > 0 <==> x.recursive && x.holder.Held?)
  }

  /** What every mutex operation keeps. */
  ghost predicate Inv(s: System) {
    && (forall m | m in s.mutexes :: MutexOk(s.mutexes[m]))
    && (forall m | m in s.mutexes && s.mutexes[m].holder.Held? :: s.mutexes[m].holder.task in s.rank)
    && (forall t | t in s.rank :: s.rank[t].held == |Holdings(s, t)|)
    && (forall t | t in s.rank && s.rank[t].held == 0 :: s.rank[t].priority == s.rank[t].base)
  }

  datatype Step =
    | Take(t: Task, m: MutexId)           // critical section of xQueueGenericReceive
    | Inherit(t: Task, m: MutexId)        // t found the mutex taken and is about to block on it
    | Give(t: Task, m: MutexId)           // critical section of xQueueGenericSend
    | TakeRecursive(t: Task, m: MutexId)  // the part of xQueueTakeMutexRecursive that does not block
    | GiveRecursive(t: Task, m: MutexId)
    | SetPriority(t: Task, p: nat)
    | CreateTask(t: Task, p: nat)
    | CreateMutex(m: MutexId, recursive: bool)

  /** Only holders give a mutex, and each mutex is used in one of the two ways throughout. */
  predicate Enabled(s: System, step: Step) {
    match step
    case Take(t, m) => t in s.rank && m in s.mutexes && !s.mutexes[m].recursive
    case Inherit(t, m) => t in s.rank && m in s.mutexes
    case Give(t, m) =>
      && t in s.rank && m in s.mutexes && !s.mutexes[m].recursive
      && (s.mutexes[m].waiting < 1 ==> s.mutexes[m].holder == Held(t))
    case TakeRecursive(t, m) => t in s.rank && m in s.mutexes && s.mutexes[m].recursive
    case GiveRecursive(t, m) => t in s.rank && m in s.mutexes && s.mutexes[m].recursive
    case SetPriority(t, _) => t in s.rank
    case CreateTask(t, _) => t !in s.rank
    case CreateMutex(m, _) => m !in s.mutexes
  }

  /** A message is there: take it and record the holder. */
  function TakeNow(s: System, t: Task, m: MutexId): System
    requires t in s.rank && m in s.mutexes && s.mutexes[m].waiting > 0
  {
    s.(rank := s.rank[t := s.rank[t].(held := s.rank[t].held + 1)],
       mutexes := s.mutexes[m := s.mutexes[m].(waiting := s.mutexes[m].waiting - 1, holder := Held(t))])
  }

  /** prvCopyDataToQueue on a mutex */
  function GiveNow(s: System, t: Task, m: MutexId): System
    requires t in s.rank && m in s.mutexes && s.rank[t].held > 0
  {
    s.(rank := s.rank[t := Returned(s.rank[t])],
       mutexes := s.mutexes[m := s.mutexes[m].(waiting := s.mutexes[m].waiting + 1, holder := Nobody)])
  }

  function WithCalls(s: System, m: MutexId, calls: nat): System
    requires m in s.mutexes
  {
    s.(mutexes := s.mutexes[m := s.mutexes[m].(calls := calls)])
  }

  function InheritNow(s: System, t: Task, m: MutexId): System
    requires t in s.rank && m in s.mutexes
  {
    match s.mutexes[m].holder
    case Nobody => s
    case Held(h) =>
      if h in s.rank then s.(rank := s.rank[h := Inherited(s.rank[h], s.rank[t].priority)]) else s
  }

  function Next(s: System, step: Step): System
    requires Enabled(s, step)
  {
    match step
    case Take(t, m) => if s.mutexes[m].waiting > 0 then TakeNow(s, t, m) else s
    case Inherit(t, m) => InheritNow(s, t, m)
    case Give(t, m) => if s.mutexes[m].waiting < 1 && s.rank[t].held > 0 then GiveNow(s, t, m) else s
    case TakeRecursive(t, m) =>
      if s.mutexes[m].holder == Held(t) then WithCalls(s, m, s.mutexes[m].calls + 1)
      else if s.mutexes[m].waiting > 0 then
        WithCalls(TakeNow(s, t, m), m, s.mutexes[m].calls + 1)
      else s
    case GiveRecursive(t, m) =>
      if s.mutexes[m].holder != Held(t) || s.mutexes[m].calls == 0 then s
      else if s.mutexes[m].calls > 1 then WithCalls(s, m, s.mutexes[m].calls - 1)
      else if s.rank[t].held > 0 then GiveNow(WithCalls(s, m, 0), t, m)
      else s
    case SetPriority(t, p) => s.(rank := s.rank[t := Reranked(s.rank[t], p)])
    case CreateTask(t, p) => s.(rank := s.rank[t := Rank(p, p, 0)])
    case CreateMutex(m, recursive) => s.(mutexes := s.mutexes[m := Mutex(1, Nobody, recursive, 0)])
  }

  // ---------- the invariant ----------

  lemma TakeHoldings(s: System, s': System, t: Task, m: MutexId, u: Task)
    requires m in s.mutexes && s.mutexes[m].holder == Nobody
    requires m in s'.mutexes && s'.mutexes[m].holder == Held(t)
    requires s'.mutexes.Keys == s.mutexes.Keys
    requires forall k | k in s.mutexes && k != m :: s'.mutexes[k].holder == s.mutexes[k].holder
    ensures |Holdings(s', u)| == |Holdings(s, u)| + (if u == t then 1 else 0)
  {
    if u == t {
      assert Holdings(s', u) == Holdings(s, u) + {m};
    } else {
      assert Holdings(s', u) == Holdings(s, u);
    }
  }

  lemma SameHoldings(s: System, s': System, u: Task)
    requires forall m :: (m in s.mutexes && s.mutexes[m].holder == Held(u)) <==>
                          (m in s'.mutexes && s'.mutexes[m].holder == Held(u))
    ensures Holdings(s', u) == Holdings(s, u)
  {
  }

  lemma TakeKeeps(s: System, s': System, t: Task, m: MutexId, calls: nat)
    requires Inv(s) && t in s.rank && m in s.mutexes && s.mutexes[m].waiting > 0
    requires s' == WithCalls(TakeNow(s, t, m), m, calls)
    requires calls > 0 <==> s.mutexes[m].recursive
    ensures Inv(s')
  {
    assert MutexOk(s.mutexes[m]);
    forall u | u in s'.rank
      ensures s'.rank[u].held == |Holdings(s', u)|
    {
      TakeHoldings(s, s', t, m, u);
    }
  }

  lemma GiveKeeps(s: System, s': System, t: Task, m: MutexId)
    requires Inv(s) && t in s.rank && m in s.mutexes && s.mutexes[m].holder == Held(t)
    requires s.rank[t].held > 0
    requires s' == GiveNow(WithCalls(s, m, 0), t, m)
    ensures Inv(s')
  {
    assert MutexOk(s.mutexes[m]);
    forall u | u in s'.rank
      ensures s'.rank[u].held == |Holdings(s', u)|
    {
      TakeHoldings(s', s, t, m, u);
    }
  }

  /** A task that holds something has a positive count. */
  lemma HolderCounted(s: System, m: MutexId)
    requires Inv(s) && m in s.mutexes && s.mutexes[m].holder.Held?
    ensures s.rank[s.mutexes[m].holder.task].held > 0
  {
    assert m in Holdings(s, s.mutexes[m].holder.task);
  }

  /** Taking a mutex keeps the invariant, once the first call of a recursive one is counted. */
  lemma TakeCounted(s: System, t: Task, m: MutexId)
    requires Inv(s) && t in s.rank && m in s.mutexes && s.mutexes[m].waiting > 0
    ensures var s' := TakeNow(s, t, m); Inv(if s.mutexes[m].recursive then WithCalls(s', m, 1) else s')
  {
    assert MutexOk(s.mutexes[m]);
    var s' := TakeNow(s, t, m);
    if s.mutexes[m].recursive {
      TakeKeeps(s, WithCalls(s', m, 1), t, m, 1);
    } else {
      TakeKeeps(s, WithCalls(s', m, 0), t, m, 0);
      assert WithCalls(s', m, 0) == s';
    }
  }

  /** Giving a mutex, whose last call is no longer counted if it is recursive, restores the invariant. */
  lemma GiveUncounted(s: System, t: Task, m: MutexId)
    requires t in s.rank && m in s.mutexes && s.mutexes[m].calls == 0
    requires Inv(if s.mutexes[m].recursive then WithCalls(s, m, 1) else s)
    requires s.mutexes[m].waiting < 1 ==> s.mutexes[m].holder == Held(t)
    ensures if s.mutexes[m].waiting < 1 then s.rank[t].held > 0 && Inv(GiveNow(s, t, m))
            else s.mutexes[m].holder == Nobody && Inv(s)
  {
    var s1 := if s.mutexes[m].recursive then WithCalls(s, m, 1) else s;
    assert MutexOk(s1.mutexes[m]);
    if s.mutexes[m].waiting < 1 {
      HolderCounted(s1, m);
      assert WithCalls(s1, m, 0) == s;
      GiveKeeps(s1, GiveNow(s, t, m), t, m);
    }
  }

  lemma RerankKeeps(s: System, s': System, t: Task)
    requires Inv(s) && s'.mutexes == s.mutexes
    requires s'.rank.Keys == s.rank.Keys + {t} && (forall u | u in s.rank && u != t :: s'.rank[u] == s.rank[u])
    requires t in s'.rank && s'.rank[t].held == if t in s.rank then s.rank[t].held else 0
    requires s'.rank[t].held == 0 ==> s'.rank[t].priority == s'.rank[t].base
    ensures Inv(s')
  {
    forall u | u in s'.rank
      ensures s'.rank[u].held == |Holdings(s', u)|
    {
      SameHoldings(s, s', u);
      if u !in s.rank {
        assert Holdings(s, u) == {};
      }
    }
  }

  lemma RemutexKeeps(s: System, s': System, m: MutexId)
    requires Inv(s) && s'.rank == s.rank
    requires s'.mutexes.Keys == s.mutexes.Keys + {m} && (forall k | k in s.mutexes && k != m :: s'.mutexes[k] == s.mutexes[k])
    requires m in s'.mutexes && s'.mutexes[m].holder == if m in s.mutexes then s.mutexes[m].holder else Nobody
    requires MutexOk(s'.mutexes[m])
    ensures Inv(s')
  {
    forall u | u in s'.rank
      ensures s'.rank[u].held == |Holdings(s', u)|
    {
      SameHoldings(s, s', u);
    }
  }

  /** Every step keeps: a mutex holds its message exactly when nobody holds it, each task's count is the
      number of mutexes it holds, and a task that holds none runs at its base priority. */
  lemma StepKeeps(s: System, step: Step)
    requires Inv(s) && Enabled(s, step)
    ensures Inv(Next(s, step))
  {
    var s' := Next(s, step);
    match step
    case Take(t, m) =>
      if s.mutexes[m].waiting > 0 {
        TakeCounted(s, t, m);
      }
    case Inherit(t, m) =>
      if s.mutexes[m].holder.Held? {
        HolderCounted(s, m);
        RerankKeeps(s, s', s.mutexes[m].holder.task);
      }
    case Give(t, m) =>
      if s.mutexes[m].waiting < 1 {
        GiveUncounted(s, t, m);
      }
    case TakeRecursive(t, m) =>
      assert MutexOk(s.mutexes[m]);
      if s.mutexes[m].holder == Held(t) {
        RemutexKeeps(s, s', m);
      } else if s.mutexes[m].waiting > 0 {
        TakeKeeps(s, s', t, m, s.mutexes[m].calls + 1);
      }
    case GiveRecursive(t, m) =>
      assert MutexOk(s.mutexes[m]);
      if s.mutexes[m].holder == Held(t) {
        HolderCounted(s, m);
        if s.mutexes[m].calls > 1 {
          RemutexKeeps(s, s', m);
        } else {
          GiveKeeps(s, s', t, m);
        }
      }
    case SetPriority(t, p) => RerankKeeps(s, s', t);
    case CreateTask(t, p) => RerankKeeps(s, s', t);
    case CreateMutex(m, recursive) => RemutexKeeps(s, s', m);
  }

  // ---------- whole runs ----------

  ghost predicate Admissible(s: System, steps: seq<Step>)
    decreases |steps|
  {
    steps == [] || (Enabled(s, steps[0]) && Admissible(Next(s, steps[0]), steps[1..]))
  }

  function Run(s: System, steps: seq<Step>): System
    requires Admissible(s, steps)
    decreases |steps|
  {
    if steps == [] then s else Run(Next(s, steps[0]), steps[1..])
  }

  lemma {:induction false} RunKeeps(s: System, steps: seq<Step>)
    requires Inv(s) && Admissible(s, steps)
    ensures Inv(Run(s, steps))
    decreases |steps|
  {
    if steps != [] {
      StepKeeps(s, steps[0]);
      RunKeeps(Next(s, steps[0]), steps[1..]);
    }
  }

  /** Task `h` holds a mutex in every state of the run. */
  ghost predicate KeepsHolding(s: System, h: Task, steps: seq<Step>)
    requires Admissible(s, steps)
    decreases |steps|
  {
    && h in s.rank && s.rank[h].held > 0
    && (steps != [] ==> KeepsHolding(Next(s, steps[0]), h, steps[1..]))
  }

  /** The priority of task `h` is `w` or more in every state of the run. */
  ghost predicate StaysAbove(s: System, h: Task, w: nat, steps: seq<Step>)
    requires Admissible(s, steps)
    decreases |steps|
  {
    && h in s.rank && s.rank[h].priority >= w
    && (steps != [] ==> StaysAbove(Next(s, steps[0]), h, w, steps[1..]))
  }

  /** vTaskPrioritySet takes a task below `w`: it has inherited no priority, and its new one is lower. */
  predicate Lowers(s: System, h: Task, w: nat, step: Step) {
    step.SetPriority? && step.t == h && step.p < w && h in s.rank && s.rank[h].priority == s.rank[h].base
  }

  /** No step of the run lowers task `h` below `w`. */
  ghost predicate NeverLowered(s: System, h: Task, w: nat, steps: seq<Step>)
    requires Admissible(s, steps)
    decreases |steps|
  {
    steps == [] || (!Lowers(s, h, w, steps[0]) && NeverLowered(Next(s, steps[0]), h, w, steps[1..]))
  }

  lemma BoostStep(s: System, h: Task, w: nat, step: Step)
    requires Inv(s) && Enabled(s, step) && h in s.rank && s.rank[h].held > 0 && s.rank[h].priority >= w
    requires h in Next(s, step).rank && Next(s, step).rank[h].held > 0
    ensures Next(s, step).rank[h].priority >= w <==> !Lowers(s, h, w, step)
  {
  }

  lemma {:induction false} BoostOverRun(s: System, h: Task, w: nat, steps: seq<Step>)
    requires Inv(s) && Admissible(s, steps) && KeepsHolding(s, h, steps) && s.rank[h].priority >= w
    ensures StaysAbove(s, h, w, steps) <==> NeverLowered(s, h, w, steps)
    decreases |steps|
  {
    if steps != [] {
      StepKeeps(s, steps[0]);
      BoostStep(s, h, w, steps[0]);
      if !Lowers(s, h, w, steps[0]) {
        BoostOverRun(Next(s, steps[0]), h, w, steps[1..]);
      }
    }
  }

  /** When task `t` blocks on a mutex, the holder's priority is no lower than t's was, from then until the
      holder has returned its last mutex, exactly if vTaskPrioritySet does not take the holder below it while
      the holder inherits nothing. */
  lemma BoostLastsIff(s: System, t: Task, m: MutexId, h: Task, steps: seq<Step>)
    requires Inv(s) && Enabled(s, Inherit(t, m)) && s.mutexes[m].holder == Held(h)
    requires var s1 := Next(s, Inherit(t, m));
             Admissible(s1, steps) && KeepsHolding(s1, h, steps)
    ensures var s1, w := Next(s, Inherit(t, m)), s.rank[t].priority;
            StaysAbove(s1, h, w, steps) <==> NeverLowered(s1, h, w, steps)
  {
    StepKeeps(s, Inherit(t, m));
    HolderCounted(s, m);
    BoostOverRun(Next(s, Inherit(t, m)), h, s.rank[t].priority, steps);
  }

  /** Giving back the last mutex ends the boost. */
  lemma LastGiveEndsBoost(s: System, t: Task, m: MutexId)
    requires Inv(s) && m in s.mutexes && s.mutexes[m].holder == Held(t) && !s.mutexes[m].recursive
    requires t in s.rank && s.rank[t].held == 1
    ensures Next(s, Give(t, m)).rank[t] == Rank(s.rank[t].base, s.rank[t].base, 0)
    ensures Next(s, Give(t, m)).mutexes[m].waiting == 1
    ensures Holdings(Next(s, Give(t, m)), t) == {}
  {
    assert MutexOk(s.mutexes[m]);
    StepKeeps(s, Give(t, m));
  }

  // ---------- one holder at a time ----------

  predicate Tries(step: Step, t: Task, m: MutexId) {
    step == Take(t, m) || step == TakeRecursive(t, m)
  }

  /** The holder `t` gives the mutex back, a recursive one with the last of its calls. */
  predicate GivesBack(s: System, step: Step, t: Task, m: MutexId) {
    step == Give(t, m) || (step == GiveRecursive(t, m) && m in s.mutexes && s.mutexes[m].calls == 1)
  }

  lemma HolderStays(s: System, step: Step, t: Task, m: MutexId)
    requires Inv(s) && Enabled(s, step) && m in s.mutexes && s.mutexes[m].holder == Held(t)
    ensures var s' := Next(s, step);
            && m in s'.mutexes
            && s'.mutexes[m].holder == (if GivesBack(s, step, t, m) then Nobody else Held(t))
            && (forall u | Tries(step, u, m) && u != t :: s' == s)
  {
    assert MutexOk(s.mutexes[m]);
    HolderCounted(s, m);
  }

  /** From the state on until task `t` gives mutex `m` back it holds it, and nobody else's attempt to take it
      changes anything; then nobody holds it. */
  ghost predicate Excludes(s: System, steps: seq<Step>, t: Task, m: MutexId)
    requires Admissible(s, steps)
    decreases |steps|
  {
    && m in s.mutexes && s.mutexes[m].holder == Held(t)
    && (steps != [] ==>
          var s' := Next(s, steps[0]);
          && (forall u | Tries(steps[0], u, m) && u != t :: s' == s)
          && if GivesBack(s, steps[0], t, m) then m in s'.mutexes && s'.mutexes[m].holder == Nobody
             else Excludes(s', steps[1..], t, m))
  }

  lemma {:induction false} HolderExcludes(s: System, steps: seq<Step>, t: Task, m: MutexId)
    requires Inv(s) && Admissible(s, steps) && m in s.mutexes && s.mutexes[m].holder == Held(t)
    ensures Excludes(s, steps, t, m)
    decreases |steps|
  {
    if steps != [] {
      StepKeeps(s, steps[0]);
      HolderStays(s, steps[0], t, m);
      if !GivesBack(s, steps[0], t, m) {
        HolderExcludes(Next(s, steps[0]), steps[1..], t, m);
      }
    }
  }

  /** A free mutex, recursive or not, is held by the task that takes it, which then keeps everybody else out, over
      every run, until it has given it back. */
  lemma TakenOnce(s: System, t: Task, m: MutexId, steps: seq<Step>)
    requires Inv(s) && m in s.mutexes && s.mutexes[m].holder == Nobody
    requires var step := if s.mutexes[m].recursive then TakeRecursive(t, m) else Take(t, m);
             Enabled(s, step) && Admissible(Next(s, step), steps)
    ensures Excludes(Next(s, if s.mutexes[m].recursive then TakeRecursive(t, m) else Take(t, m)), steps, t, m)
  {
    var step := if s.mutexes[m].recursive then TakeRecursive(t, m) else Take(t, m);
    assert MutexOk(s.mutexes[m]);
    StepKeeps(s, step);
    HolderExcludes(Next(s, step), steps, t, m);
  }

  // ---------- the depth of recursion ----------

  /** A call to take recursive mutex `m` that passes: the task holds it already or nobody does. */
  predicate Enters(s: System, step: Step, m: MutexId) {
    step.TakeRecursive? && step.m == m && m in s.mutexes && s.mutexes[m].holder in {Nobody, Held(step.t)}
  }

  /** A call to give it that passes: the task holds it. */
  predicate Exits(s: System, step: Step, m: MutexId) {
    step.GiveRecursive? && step.m == m && m in s.mutexes && s.mutexes[m].holder == Held(step.t)
  }

  function Entries(s: System, steps: seq<Step>, m: MutexId): nat
    requires Admissible(s, steps)
    decreases |steps|
  {
    if steps == [] then 0 else (if Enters(s, steps[0], m) then 1 else 0) + Entries(Next(s, steps[0]), steps[1..], m)
  }

  function Exitings(s: System, steps: seq<Step>, m: MutexId): nat
    requires Admissible(s, steps)
    decreases |steps|
  {
    if steps == [] then 0 else (if Exits(s, steps[0], m) then 1 else 0) + Exitings(Next(s, steps[0]), steps[1..], m)
  }

  lemma StepDepth(s: System, step: Step, m: MutexId)
    requires Inv(s) && Enabled(s, step) && m in s.mutexes
    ensures m in Next(s, step).mutexes && Next(s, step).mutexes[m].recursive == s.mutexes[m].recursive
    ensures Next(s, step).mutexes[m].calls + (if Exits(s, step, m) then 1 else 0)
         == s.mutexes[m].calls + (if Enters(s, step, m) then 1 else 0)
  {
    assert MutexOk(s.mutexes[m]);
    if s.mutexes[m].holder.Held? {
      HolderCounted(s, m);
    }
  }

  /** Over every run the recursion depth of a mutex goes up by one with each take that passes and down by one with
      each give that passes, and a recursive mutex is free exactly at depth zero. */
  lemma {:induction false} DepthBalance(s: System, steps: seq<Step>, m: MutexId)
    requires Inv(s) && Admissible(s, steps) && m in s.mutexes
    ensures var s' := Run(s, steps);
            && m in s'.mutexes && s'.mutexes[m].recursive == s.mutexes[m].recursive
            && s'.mutexes[m].calls + Exitings(s, steps, m) == s.mutexes[m].calls + Entries(s, steps, m)
            && (s'.mutexes[m].recursive ==> (s'.mutexes[m].holder == Nobody <==> s'.mutexes[m].calls == 0))
    decreases |steps|
  {
    if steps == [] {
      assert MutexOk(s.mutexes[m]);
    } else {
      StepKeeps(s, steps[0]);
      StepDepth(s, steps[0], m);
      DepthBalance(Next(s, steps[0]), steps[1..], m);
    }
  }

  // ---------- setting the priority of a holder ----------

  /** A priority at or above the base one stays so under vTaskPrioritySet exactly when no priority is
      inherited at that time or the new priority is no higher than the inherited one. */
  lemma SetPriorityKeepsOrderIff(r: Rank, p: nat)
    requires r.priority >= r.base && r.base != p
    ensures Reranked(r, p).priority >= Reranked(r, p).base <==> r.priority == r.base || p <= r.priority
  {
  }

  /** Setting the priority of a holder that inherited none takes it below the task waiting for it. */
  lemma SetPriorityBreaksBoost()
    ensures var waiter, holder := Rank(3, 3, 0), Rank(3, 3, 1);
            && Inherited(holder, waiter.priority) == holder
            && Reranked(holder, 1).priority < waiter.priority
  {
  }

  // ---------- the operations on the kernel's own variables ----------

  lemma InheritMeaning(s: System, t: Task, m: MutexId, s': System)
    requires Inv(s) && Enabled(s, Inherit(t, m)) && s' == Next(s, Inherit(t, m))
    ensures s'.mutexes == s.mutexes
    ensures match s.mutexes[m].holder
            case Nobody => s'.rank == s.rank
            case Held(h) => h in s.rank && s'.rank == s.rank[h := s.rank[h].(priority :=
              if s.rank[h].priority < s.rank[t].priority then s.rank[t].priority else s.rank[h].priority)]
  {
  }

  class Kernel {
    var rank: map<Task, Rank>
    var mutexes: map<MutexId, Mutex>

    ghost function View(): System
      reads this
    {
      System(rank, mutexes)
    }

    constructor ()
      ensures View() == System(map[], map[]) && Inv(View())
    {
      rank, mutexes := map[], map[];
    }

    /** The critical section of xQueueGenericReceive on a mutex: the task gets it exactly if nobody holds it.  A
        recursive mutex that was taken still needs its first call counted. */
    method TryTake(t: Task, m: MutexId) returns (taken: bool)
      requires Inv(View()) && t in rank && m in mutexes
      modifies this
      ensures taken <==> old(mutexes)[m].holder == Nobody
      ensures View() == if taken then TakeNow(old(View()), t, m) else old(View())
      ensures taken ==> mutexes == old(mutexes)[m := old(mutexes)[m].(waiting := 0, holder := Held(t))]
      ensures taken ==> rank == old(rank)[t := old(rank)[t].(held := old(rank)[t].held + 1)]
      ensures !taken ==> mutexes == old(mutexes) && rank == old(rank)
      ensures m in mutexes && Inv(if taken && mutexes[m].recursive then WithCalls(View(), m, 1) else View())
    {
      ghost var s := View();
      assert MutexOk(mutexes[m]);
      if mutexes[m].waiting > 0 {
        TakeCounted(s, t, m);
      }
      taken := TakeOver(t, m, s);
    }

    method TakeOver(t: Task, m: MutexId, ghost s: System) returns (taken: bool)
      requires s == View() && t in rank && m in mutexes
      modifies this
      ensures taken <==> s.mutexes[m].waiting > 0
      ensures View() == if taken then TakeNow(s, t, m) else s
    {
      taken := mutexes[m].waiting > 0;
      if taken {
        mutexes := mutexes[m := mutexes[m].(waiting := mutexes[m].waiting - 1)];
        rank := rank[t := rank[t].(held := rank[t].held + 1)];
        mutexes := mutexes[m := mutexes[m].(holder := Held(t))];
      }
    }

    /** vTaskPriorityInherit, called with the holder of mutex `m` */
    method PriorityInherit(t: Task, m: MutexId)
      requires Inv(View()) && Enabled(View(), Inherit(t, m))
      modifies this`rank
      ensures Inv(View()) && View() == Next(old(View()), Inherit(t, m))
      ensures match mutexes[m].holder
              case Nobody => rank == old(rank)
              case Held(h) => h in old(rank) && rank == old(rank)[h := old(rank)[h].(priority :=
                if old(rank)[h].priority < old(rank)[t].priority then old(rank)[t].priority else old(rank)[h].priority)]
    {
      ghost var s := View();
      RaiseHolder(t, m, s);
      StepKeeps(s, Inherit(t, m));
      InheritMeaning(s, t, m, View());
    }

    method RaiseHolder(t: Task, m: MutexId, ghost s: System)
      requires s == View() && Inv(s) && Enabled(s, Inherit(t, m))
      modifies this`rank
      ensures View() == Next(s, Inherit(t, m))
    {
      if mutexes[m].holder != Nobody {
        var h := mutexes[m].holder.task;
        if rank[h].priority < rank[t].priority {
          rank := rank[h := rank[h].(priority := rank[t].priority)];
        }
      }
    }

    /** xTaskPriorityDisinherit: true when the caller must yield. */
    method PriorityDisinherit(h: Task) returns (mustYield: bool)
      requires h in rank && rank[h].held > 0
      modifies this`rank
      ensures rank == old(rank)[h := Returned(old(rank)[h])]
      ensures rank == old(rank)[h := Rank(if old(rank)[h].held == 1 then old(rank)[h].base else old(rank)[h].priority,
                                          old(rank)[h].base, old(rank)[h].held - 1)]
      ensures mustYield <==> rank[h].priority != old(rank)[h].priority
    {
      mustYield := false;
      rank := rank[h := rank[h].(held := rank[h].held - 1)];
      if rank[h].priority != rank[h].base {
        if rank[h].held == 0 {
          rank := rank[h := rank[h].(priority := rank[h].base)];
          mustYield := true;
        }
      }
    }

    /** The critical section of xQueueGenericSend on a mutex: a mutex that is held becomes free.  For a recursive
        one the last call has been taken off the count. */
    method TryGive(t: Task, m: MutexId) returns (given: bool)
      requires t in rank && m in mutexes && mutexes[m].calls == 0
      requires Inv(if mutexes[m].recursive then WithCalls(View(), m, 1) else View())
      requires mutexes[m].waiting < 1 ==> mutexes[m].holder == Held(t) && rank[t].held > 0
      modifies this
      ensures Inv(View()) && t in rank && m in mutexes && mutexes[m].holder == Nobody
      ensures given <==> old(mutexes)[m].waiting < 1
      ensures given <==> old(mutexes)[m].holder == Held(t)
      ensures given ==>
                mutexes == old(mutexes)[m := old(mutexes)[m].(waiting := old(mutexes)[m].waiting + 1, holder := Nobody)]
      ensures given ==>
                rank == old(rank)[t := Rank(if old(rank)[t].held == 1 then old(rank)[t].base else old(rank)[t].priority,
                                            old(rank)[t].base, old(rank)[t].held - 1)]
      ensures !given ==> mutexes == old(mutexes) && rank == old(rank)
      ensures View() == if given then GiveNow(old(View()), t, m) else old(View())
    {
      ghost var s := View();
      GiveUncounted(s, t, m);
      given := GiveBack(t, m, s);
    }

    method GiveBack(t: Task, m: MutexId, ghost s: System) returns (given: bool)
      requires s == View() && t in rank && m in mutexes && (mutexes[m].waiting < 1 ==> rank[t].held > 0)
      modifies this
      ensures given <==> s.mutexes[m].waiting < 1
      ensures View() == if given then GiveNow(s, t, m) else s
    {
      given := mutexes[m].waiting < 1;
      if given {
        var mustYield := PriorityDisinherit(t);
        mutexes := mutexes[m := mutexes[m].(holder := Nobody)];
        mutexes := mutexes[m := mutexes[m].(waiting := mutexes[m].waiting + 1)];
      }
    }

    /** xQueueTakeMutexRecursive, up to the point where it would block */
    method TakeMutexRecursive(t: Task, m: MutexId) returns (passed: bool)
      requires Inv(View()) && Enabled(View(), TakeRecursive(t, m))
      modifies this
      ensures Inv(View()) && View() == Next(old(View()), TakeRecursive(t, m))
      ensures passed <==> mutexes[m].holder == Held(t)
      ensures passed <==> old(mutexes)[m].holder in {Nobody, Held(t)}
      ensures passed ==> mutexes[m].calls == old(mutexes)[m].calls + 1
      ensures !passed ==> View() == old(View())
    {
      StepKeeps(View(), TakeRecursive(t, m));
      assert MutexOk(mutexes[m]);
      if mutexes[m].holder == Held(t) {
        mutexes := mutexes[m := mutexes[m].(calls := mutexes[m].calls + 1)];
        passed := true;
      } else {
        passed := TryTake(t, m);
        if passed {
          mutexes := mutexes[m := mutexes[m].(calls := mutexes[m].calls + 1)];
        }
      }
      assert View() == Next(old(View()), TakeRecursive(t, m));
    }

    /** xQueueGiveMutexRecursive */
    method GiveMutexRecursive(t: Task, m: MutexId) returns (passed: bool)
      requires Inv(View()) && Enabled(View(), GiveRecursive(t, m))
      modifies this
      ensures Inv(View()) && View() == Next(old(View()), GiveRecursive(t, m))
      ensures passed <==> old(mutexes)[m].holder == Held(t)
      ensures passed ==> mutexes[m].calls == old(mutexes)[m].calls - 1
      ensures passed ==> mutexes[m].holder == if mutexes[m].calls == 0 then Nobody else Held(t)
      ensures !passed ==> View() == old(View())
    {
      StepKeeps(View(), GiveRecursive(t, m));
      assert MutexOk(mutexes[m]);
      passed := mutexes[m].holder == Held(t);
      if passed {
        HolderCounted(View(), m);
        mutexes := mutexes[m := mutexes[m].(calls := mutexes[m].calls - 1)];
        if mutexes[m].calls == 0 {
          assert WithCalls(View(), m, 1) == old(View());
          var given := TryGive(t, m);
        }
      }
      assert View() == Next(old(View()), GiveRecursive(t, m));
    }
  }
}
