/**
  The order of an event list (FreeRTOS/Source/tasks.c): tasks join it by the value of their event items, which
  stands for their priority, an event wakes the first one, and a change of priority overwrites the value of
  an item without moving it.
*/
module EventLists {
  import opened TaskLists
  import PI = PriorityInheritance
  import R = Rings

  /** The ranks of all tasks, the values of their event items, and the tasks on one event list */
  datatype W = W(levels: nat, rank: map<Task, PI.Rank>, value: map<Task, nat>, waiting: seq<Task>)

  function Priority(w: W, t: Task): nat {
    if t in w.rank then w.rank[t].priority else 0
  }

  datatype Step =
    | Join(t: Task)                    // vTaskPlaceOnEventList
    | WakeFirst                        // xTaskRemoveFromEventList
    | Leave(t: Task)                   // a timeout, a suspension or a deletion
    | SetPriority(t: Task, p: nat)
    | Inherit(t: Task, p: nat)         // a task of priority p waits for a mutex that t holds
    | Return(t: Task)                  // xTaskPriorityDisinherit of the running task

  predicate Enabled(w: W, step: Step) {
    match step
    case Join(t) => t in w.rank && t !in w.waiting
    case WakeFirst => w.waiting != []
    case Leave(t) => t in w.waiting
    case SetPriority(t, p) => t in w.rank && p < w.levels
    case Inherit(t, p) => t in w.rank && p < w.levels
    case Return(t) => t in w.rank && t !in w.waiting && w.rank[t].held > 0
  }

  /** listSET_LIST_ITEM_VALUE on the event item for priority `p` */
  function Valued(w: W, t: Task, p: nat): map<Task, nat>
    requires p <= w.levels
  {
    w.value[t := w.levels - p]
  }

  function Next(w: W, step: Step): W
    requires Enabled(w, step) && forall t | t in w.rank :: w.rank[t].base < w.levels
  {
    match step
    case Join(t) => w.(waiting := Insertion(w.waiting, t, w.value))
    case WakeFirst => w.(waiting := w.waiting[1..])
    case Leave(t) => w.(waiting := Without(w.waiting, t))
    case SetPriority(t, p) =>
      if w.rank[t].base == p then w
      else w.(rank := w.rank[t := PI.Reranked(w.rank[t], p)], value := Valued(w, t, p))
    case Inherit(t, p) =>
      if w.rank[t].priority < p then w.(rank := w.rank[t := PI.Inherited(w.rank[t], p)], value := Valued(w, t, p)) else w
    case Return(t) =>
      var r := PI.Returned(w.rank[t]);
      w.(rank := w.rank[t := r], value := if r.priority != w.rank[t].priority then Valued(w, t, r.priority) else w.value)
  }

  // ---------- the order ----------

  ghost predicate Ranks(levels: nat, rank: map<Task, PI.Rank>) {
    forall t | t in rank :: rank[t].priority < levels && rank[t].base < levels
  }

  ghost predicate Matching(levels: nat, rank: map<Task, PI.Rank>, value: map<Task, nat>) {
    forall t | t in rank :: ValueOf(value, t) == levels - rank[t].priority
  }

  /** Each item has the value of its task's priority, and the list is sorted by value. */
  ghost predicate Ordered(w: W) {
    && Ranks(w.levels, w.rank) && Matching(w.levels, w.rank, w.value)
    && (forall t | t in w.waiting :: t in w.rank)
    && R.Distinct(w.waiting) && SortedBy(w.waiting, w.value)
  }

  /** Nobody on the list has a higher priority than the first one. */
  ghost predicate FirstIsHighest(w: W) {
    forall t | t in w.waiting :: Priority(w, t) <= Priority(w, w.waiting[0])
  }

  /** An ordered list is in order of priority, so an event wakes a task of the highest one. */
  lemma OrderedWakesHighest(w: W)
    requires Ordered(w)
    ensures FirstIsHighest(w)
  {
    forall t | t in w.waiting
      ensures Priority(w, t) <= Priority(w, w.waiting[0])
    {
      assert ValueOf(w.value, w.waiting[0]) <= ValueOf(w.value, t);
    }
  }

  /** A task joins behind all those of its own priority or a higher one, and before the others. */
  lemma {:induction false} JoinsBehind(s: seq<Task>, t: Task, value: map<Task, nat>) returns (p: nat)
    requires SortedBy(s, value)
    ensures p <= |s| && Insertion(s, t, value) == s[..p] + [t] + s[p..]
    ensures forall i | 0 <= i < |s| :: i < p <==> ValueOf(value, s[i]) <= ValueOf(value, t)
  {
    if s == [] || ValueOf(value, t) < ValueOf(value, s[0]) {
      p := 0;
    } else {
      assert SortedBy(s[1..], value);
      p := JoinsBehind(s[1..], t, value);
      BehindHead(s, t, p, Insertion(s[1..], t, value));
      forall i | 0 <= i < |s|
        ensures i < p + 1 <==> ValueOf(value, s[i]) <= ValueOf(value, t)
      {
        assert i > 0 ==> s[i] == s[1..][i - 1];
      }
      p := p + 1;
    }
  }

  lemma BehindHead(s: seq<Task>, t: Task, p: nat, rest: seq<Task>)
    requires p < |s| && rest == s[1..][..p] + [t] + s[1..][p..]
    ensures [s[0]] + rest == s[..p + 1] + [t] + s[p + 1..]
  {
  }

  // ---------- a value is overwritten ----------

  /** Does value `v` fit between the neighbours of task `t`? */
  ghost predicate InPlace(s: seq<Task>, value: map<Task, nat>, t: Task, v: nat) {
    forall i | 0 <= i < |s| && s[i] == t ::
      && (i > 0 ==> ValueOf(value, s[i - 1]) <= v)
      && (i + 1 < |s| ==> v <= ValueOf(value, s[i + 1]))
  }

  lemma InPlaceIff(s: seq<Task>, value: map<Task, nat>, t: Task, v: nat)
    requires SortedBy(s, value) && R.Distinct(s)
    ensures SortedBy(s, value[t := v]) <==> InPlace(s, value, t, v)
  {
    var value' := value[t := v];
    R.DistinctIndices(s);
    assert forall i | 0 <= i < |s| :: ValueOf(value', s[i]) == if s[i] == t then v else ValueOf(value, s[i]);
    if SortedBy(s, value') {
      forall i | 0 <= i < |s| && s[i] == t
        ensures i > 0 ==> ValueOf(value, s[i - 1]) <= v
        ensures i + 1 < |s| ==> v <= ValueOf(value, s[i + 1])
      {
        assert i > 0 ==> ValueOf(value', s[i - 1]) <= ValueOf(value', s[i]);
        assert i + 1 < |s| ==> ValueOf(value', s[i]) <= ValueOf(value', s[i + 1]);
      }
    }
    if InPlace(s, value, t, v) {
      forall i, j | 0 <= i < j < |s|
        ensures ValueOf(value', s[i]) <= ValueOf(value', s[j])
      {
        assert s[j] == t ==> ValueOf(value, s[i]) <= ValueOf(value, s[j - 1]);
        assert s[i] == t ==> ValueOf(value, s[i + 1]) <= ValueOf(value, s[j]);
      }
    }
  }

  /** The steps that keep the list in order: a priority may change if the task is not boosted, or gets the
      priority that it has by the boost, and if it keeps its place among its neighbours. */
  ghost predicate KeepsOrder(w: W, step: Step)
    requires Enabled(w, step)
  {
    match step
    case SetPriority(t, p) =>
      w.rank[t].base == p ||
      ((w.rank[t].priority == w.rank[t].base || w.rank[t].priority == p) && InPlace(w.waiting, w.value, t, w.levels - p))
    case Inherit(t, p) => w.rank[t].priority >= p || InPlace(w.waiting, w.value, t, w.levels - p)
    case _ => true
  }

  lemma RankChangeIff(w: W, t: Task, r: PI.Rank, p: nat, w': W)
    requires Ordered(w) && t in w.rank && r.priority < w.levels && r.base < w.levels && p < w.levels
    requires w' == w.(rank := w.rank[t := r], value := w.value[t := w.levels - p])
    ensures Ordered(w') <==> r.priority == p && InPlace(w.waiting, w.value, t, w.levels - p)
  {
    InPlaceIff(w.waiting, w.value, t, w.levels - p);
    MatchingIff(w.levels, w.rank, w.value, t, r, p);
  }

  lemma MatchingIff(levels: nat, rank: map<Task, PI.Rank>, value: map<Task, nat>, t: Task, r: PI.Rank, p: nat)
    requires Ranks(levels, rank) && Matching(levels, rank, value) && r.priority < levels && r.base < levels && p < levels
    ensures Ranks(levels, rank[t := r])
    ensures Matching(levels, rank[t := r], value[t := levels - p]) <==> r.priority == p
  {
    var rank', value' := rank[t := r], value[t := levels - p];
    assert t in rank' && ValueOf(value', t) == levels - p;
    forall u | u in rank' && u != t
      ensures ValueOf(value', u) == levels - rank'[u].priority
    {
      assert ValueOf(value', u) == ValueOf(value, u);
    }
  }

  /** A step keeps the list in order exactly under that condition. */
  lemma StepOrderedIff(w: W, step: Step, w': W)
    requires Ordered(w) && Enabled(w, step) && w' == Next(w, step)
    ensures Ordered(w') <==> KeepsOrder(w, step)
  {
    match step
    case Join(t) => JoinOrdered(w, t, w');
    case WakeFirst => RestDistinct(w.waiting);
    case Leave(t) => LeaveOrdered(w, t, w');
    case SetPriority(t, p) => SetOrderedIff(w, t, p, w');
    case Inherit(t, p) => InheritOrderedIff(w, t, p, w');
    case Return(t) => ReturnOrdered(w, t, PI.Returned(w.rank[t]), w');
  }

  lemma JoinOrdered(w: W, t: Task, w': W)
    requires Ordered(w) && Enabled(w, Join(t)) && w' == w.(waiting := Insertion(w.waiting, t, w.value))
    ensures Ordered(w')
  {
    InsertionSorted(w.waiting, t, w.value);
    JoinDistinct(w.waiting, t, w.value);
  }

  lemma LeaveOrdered(w: W, t: Task, w': W)
    requires Ordered(w) && w' == w.(waiting := Without(w.waiting, t))
    ensures Ordered(w')
  {
    WithoutSorted(w.waiting, t, w.value);
    WithoutMembers(w.waiting, t);
    WithoutDistinct(w.waiting, t);
  }

  lemma InheritOrderedIff(w: W, t: Task, p: nat, w': W)
    requires Ordered(w) && Enabled(w, Inherit(t, p)) && w' == Next(w, Inherit(t, p))
    ensures Ordered(w') <==> KeepsOrder(w, Inherit(t, p))
  {
    if w.rank[t].priority < p {
      RankChangeIff(w, t, PI.Inherited(w.rank[t], p), p, w');
    }
  }

  lemma SetOrderedIff(w: W, t: Task, p: nat, w': W)
    requires Ordered(w) && Enabled(w, SetPriority(t, p)) && w' == Next(w, SetPriority(t, p))
    ensures Ordered(w') <==> KeepsOrder(w, SetPriority(t, p))
  {
    if w.rank[t].base != p {
      RankChangeIff(w, t, PI.Reranked(w.rank[t], p), p, w');
    }
  }

  lemma ReturnOrdered(w: W, t: Task, r: PI.Rank, w': W)
    requires Ordered(w) && Enabled(w, Return(t)) && r == PI.Returned(w.rank[t]) && w' == Next(w, Return(t))
    ensures Ordered(w')
  {
    assert w.rank[t].priority < w.levels && w.rank[t].base < w.levels;
    if r.priority != w.rank[t].priority {
      RankChangeIff(w, t, r, r.priority, w');
    }
  }

  lemma JoinDistinct(s: seq<Task>, t: Task, value: map<Task, nat>)
    requires R.Distinct(s) && t !in s
    ensures R.Distinct(Insertion(s, t, value)) && forall u | u in Insertion(s, t, value) :: u in s || u == t
  {
    InsertionAddsOne(s, t, value);
    InsertionMembers(s, t, value);
  }

  lemma RestDistinct(s: seq<Task>)
    requires R.Distinct(s) && s != []
    ensures R.Distinct(s[1..])
  {
    R.DistinctIndices(s);
    R.DistinctIndices(s[1..]);
  }

  lemma WithoutDistinct(s: seq<Task>, t: Task)
    requires R.Distinct(s)
    ensures R.Distinct(Without(s, t))
  {
    WithoutMembers(s, t);
    forall u | u in Without(s, t)
      ensures multiset(Without(s, t))[u] == 1
    {
      WithoutCount(s, t, u);
      assert u in multiset(Without(s, t));
    }
  }

  // ---------- the first one after a change ----------

  /** When the priority of task `t` alone changes in an ordered list, the first one is still of the highest
      priority exactly if `t` is first and stays at the priority of the second one or above, or `t` is not
      first and does not pass the first one. */
  lemma FirstIsHighestIff(w: W, w': W, t: Task)
    requires Ordered(w) && w'.waiting == w.waiting && forall u | u != t :: Priority(w', u) == Priority(w, u)
    ensures FirstIsHighest(w') <==>
              || t !in w.waiting || |w.waiting| == 1
              || (if t == w.waiting[0] then Priority(w', t) >= Priority(w', w.waiting[1])
                  else Priority(w', t) <= Priority(w', w.waiting[0]))
  {
    var s := w.waiting;
    OrderedWakesHighest(w);
    if |s| > 1 {
      R.DistinctIndices(s);
      assert s[0] in s && s[1] in s;
      forall u | u in s && u != s[0]
        ensures Priority(w, u) <= Priority(w, s[1])
      {
        var i :| 0 <= i < |s| && s[i] == u;
        assert ValueOf(w.value, s[1]) <= ValueOf(w.value, s[i]);
      }
    }
  }

  // ---------- whole runs ----------

  /** Every step of the run can be taken and keeps the order. */
  ghost predicate Orderly(w: W, steps: seq<Step>)
    requires Ordered(w)
    decreases |steps|
  {
    steps == [] ||
    (Enabled(w, steps[0]) && KeepsOrder(w, steps[0]) && Orderly(After(w, steps[0]), steps[1..]))
  }

  ghost function After(w: W, step: Step): (w': W)
    requires Ordered(w) && Enabled(w, step) && KeepsOrder(w, step)
    ensures Ordered(w')
  {
    StepOrderedIff(w, step, Next(w, step));
    Next(w, step)
  }

  /** Each event of the run wakes a task of the highest priority on the list. */
  ghost predicate WakesHighest(w: W, steps: seq<Step>)
    requires Ordered(w) && Orderly(w, steps)
    decreases |steps|
  {
    steps == [] ||
    ((steps[0] == WakeFirst ==> forall t | t in w.waiting :: Priority(w, t) <= Priority(w, w.waiting[0]))
     && WakesHighest(After(w, steps[0]), steps[1..]))
  }

  /** In every orderly run each event wakes a task of the highest priority. */
  lemma {:induction false} EventsWakeHighest(w: W, steps: seq<Step>)
    requires Ordered(w) && Orderly(w, steps)
    ensures WakesHighest(w, steps)
    decreases |steps|
  {
    if steps != [] {
      OrderedWakesHighest(w);
      EventsWakeHighest(After(w, steps[0]), steps[1..]);
    }
  }

  /** A waiting task that is raised above the first one is not woken first. */
  lemma RaisedTaskIsNotFirst()
    ensures var w := W(8, map[1 := PI.Rank(3, 3, 0), 2 := PI.Rank(2, 2, 0)], map[1 := 5, 2 := 6], [1, 2]);
            && Ordered(w) && Enabled(w, SetPriority(2, 5))
            && var w' := Next(w, SetPriority(2, 5));
               w'.waiting[0] == 1 && Priority(w', 1) == 3 && Priority(w', 2) == 5
  {
    var w := W(8, map[1 := PI.Rank(3, 3, 0), 2 := PI.Rank(2, 2, 0)], map[1 := 5, 2 := 6], [1, 2]);
    R.DistinctIndices(w.waiting);
    assert Ordered(w);
  }

  /** Nor is a boosted task whose priority was set: its item then has the value of the new base priority, and it
      joins behind a task of lower priority. */
  lemma BoostedTaskJoinsBehind()
    ensures var w := W(8, map[1 := PI.Rank(3, 3, 0), 2 := PI.Rank(5, 2, 1)], map[1 := 5, 2 := 3], [1]);
            && Ordered(w) && Enabled(w, SetPriority(2, 1))
            && var w' := Next(w, SetPriority(2, 1));
               && Enabled(w', Join(2)) && (forall t | t in w'.rank :: w'.rank[t].base < w'.levels)
               && Next(w', Join(2)).waiting == [1, 2] && Priority(w', 1) == 3 && Priority(w', 2) == 5
  {
    var w := W(8, map[1 := PI.Rank(3, 3, 0), 2 := PI.Rank(5, 2, 1)], map[1 := 5, 2 := 3], [1]);
    R.DistinctIndices(w.waiting);
    assert Ordered(w);
    var w' := Next(w, SetPriority(2, 1));
    assert Insertion(w'.waiting, 2, w'.value) == [1, 2] by {
      assert [1][1..] == [] && Insertion([], 2, w'.value) == [2];
    }
  }
}
