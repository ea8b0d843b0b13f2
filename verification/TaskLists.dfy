/**
  The kernel's task lists (FreeRTOS/Source/list.c seen from FreeRTOS/Source/tasks.c): each is a ring of
  tasks with a cursor, as `Rings` has them.  Only ready lists move their cursor.
*/
module TaskLists {
  import opened Rings

  type Task = nat

  /** uxListRemove */
  function Without(s: seq<Task>, t: Task): seq<Task> {
    if s == [] then []
    else if s[0] == t then s[1..]
    else [s[0]] + Without(s[1..], t)
  }

  lemma {:induction false} WithoutRemovesOne(s: seq<Task>, t: Task)
    ensures multiset(Without(s, t)) == multiset(s) - multiset{t}
  {
    if s != [] {
      assert s == [s[0]] + s[1..];
      if s[0] != t {
        WithoutRemovesOne(s[1..], t);
      }
    }
  }

  lemma WithoutCount(s: seq<Task>, t: Task, u: Task)
    ensures multiset(Without(s, t))[u] == if u == t && multiset(s)[t] > 0 then multiset(s)[t] - 1 else multiset(s)[u]
  {
    WithoutRemovesOne(s, t);
  }

  function ValueOf(value: map<Task, nat>, t: Task): nat {
    if t in value then value[t] else 0
  }

  ghost predicate SortedBy(s: seq<Task>, value: map<Task, nat>) {
    forall i, j | 0 <= i < j < |s| :: ValueOf(value, s[i]) <= ValueOf(value, s[j])
  }

  /** vListInsert: behind every item whose value is no greater. */
  function Insertion(s: seq<Task>, t: Task, value: map<Task, nat>): seq<Task> {
    if s == [] then [t]
    else if ValueOf(value, t) < ValueOf(value, s[0]) then [t] + s
    else [s[0]] + Insertion(s[1..], t, value)
  }

  lemma {:induction false} InsertionAddsOne(s: seq<Task>, t: Task, value: map<Task, nat>)
    ensures multiset(Insertion(s, t, value)) == multiset(s) + multiset{t}
  {
    if s != [] {
      assert s == [s[0]] + s[1..];
      if ValueOf(value, t) >= ValueOf(value, s[0]) {
        InsertionAddsOne(s[1..], t, value);
      }
    }
  }

  /** The place of the first occurrence, or the length */
  function PlaceIn(s: seq<Task>, t: Task): (p: nat)
    ensures p <= |s|
  {
    if s == [] || s[0] == t then 0 else 1 + PlaceIn(s[1..], t)
  }

  /** uxListRemove: a cursor on the removed task, or behind it, moves back. */
  function Unlinked(r: Ring<Task>, t: Task): Ring<Task> {
    Ring(Without(r.items, t), if PlaceIn(r.items, t) < r.cursor then r.cursor - 1 else r.cursor)
  }

  lemma {:induction false} PlaceFound(s: seq<Task>, t: Task)
    ensures if t in s then PlaceIn(s, t) < |s| && s[PlaceIn(s, t)] == t else PlaceIn(s, t) == |s|
  {
    if s != [] && s[0] != t {
      PlaceFound(s[1..], t);
    }
  }

  lemma {:induction false} WithoutPlace(s: seq<Task>, t: Task)
    ensures if t in s then PlaceIn(s, t) < |s| && Without(s, t) == s[..PlaceIn(s, t)] + s[PlaceIn(s, t) + 1..]
            else Without(s, t) == s && PlaceIn(s, t) == |s|
  {
    PlaceFound(s, t);
    if s != [] && s[0] != t {
      PlaceFound(s[1..], t);
      WithoutPlace(s[1..], t);
      if t in s {
        AfterHead(s, PlaceIn(s[1..], t));
      }
    }
  }

  lemma AfterHead(s: seq<Task>, p: nat)
    requires p < |s| - 1
    ensures [s[0]] + (s[1..][..p] + s[1..][p + 1..]) == s[..p + 1] + s[p + 2..]
  {
  }

  /** A removal is the one of `Rings`. */
  lemma UnlinkedIsRemove(r: Ring<Task>, t: Task)
    requires r.Valid() && t in r.items
    ensures PlaceIn(r.items, t) < |r.items| && Unlinked(r, t) == Remove(r, PlaceIn(r.items, t))
  {
    WithoutPlace(r.items, t);
  }

  lemma PlaceUnique(s: seq<Task>, t: Task, k: nat)
    requires Distinct(s) && k < |s| && s[k] == t
    ensures PlaceIn(s, t) == k && t in s
  {
    DistinctIndices(s);
    PlaceFound(s, t);
  }

  /** A removal takes the task out of the turn order and leaves the others in order. */
  lemma UnlinkedTurns(r: Ring<Task>, t: Task)
    requires r.Valid()
    ensures Unlinked(r, t).Valid() && Turns(Unlinked(r, t)) == Without(Turns(r), t) && t !in Unlinked(r, t).items
  {
    WithoutPlace(r.items, t);
    PlaceFound(r.items, t);
    TurnsDistinct(r);
    DistinctIndices(Turns(r));
    if t in r.items {
      var p := PlaceIn(r.items, t);
      UnlinkedIsRemove(r, t);
      RemoveKeepsTurns(r, p);
      PlaceUnique(Turns(r), t, TurnOf(r, p));
      WithoutPlace(Turns(r), t);
      DistinctAfterRemoval(r.items, p);
    } else {
      WithoutPlace(Turns(r), t);
    }
  }

  /** The task has the last turn, or, behind a task that was served last, the one before that. */
  ghost predicate JoinsBack(turns: seq<Task>, turns': seq<Task>, t: Task) {
    || turns' == turns + [t]
    || (turns != [] && turns' == turns[..|turns| - 1] + [t] + [turns[|turns| - 1]])
  }

  lemma LinkedTurns(r: Ring<Task>, t: Task)
    requires r.Valid() && t !in r.items
    ensures InsertEnd(r, t).Valid() && JoinsBack(Turns(r), Turns(InsertEnd(r, t)), t)
  {
    InsertEndTurn(r, t);
  }

  lemma UnlinkedCursor(r: Ring<Task>, t: Task)
    requires r.cursor <= |r.items|
    ensures Unlinked(r, t).cursor <= |Unlinked(r, t).items|
  {
    WithoutPlace(r.items, t);
  }

  lemma InsertEndItems(r: Ring<Task>, t: Task)
    requires r.cursor <= |r.items|
    ensures multiset(InsertEnd(r, t).items) == multiset(r.items) + multiset{t}
    ensures InsertEnd(r, t).cursor <= |InsertEnd(r, t).items|
  {
    if r.cursor > 0 {
      assert r.items == r.items[..r.cursor - 1] + r.items[r.cursor - 1..];
    }
  }

  lemma InSequence(s: seq<Task>, t: Task)
    ensures t in s <==> multiset(s)[t] > 0
  {
  }

  lemma ConsSorted(x: Task, rest: seq<Task>, value: map<Task, nat>)
    requires SortedBy(rest, value) && forall y | y in rest :: ValueOf(value, x) <= ValueOf(value, y)
    ensures SortedBy([x] + rest, value)
  {
  }

  lemma {:induction false} WithoutMembers(s: seq<Task>, t: Task)
    ensures forall x | x in Without(s, t) :: x in s
  {
    if s != [] && s[0] != t {
      WithoutMembers(s[1..], t);
    }
  }

  lemma {:induction false} InsertionMembers(s: seq<Task>, t: Task, value: map<Task, nat>)
    ensures forall x | x in Insertion(s, t, value) :: x in s || x == t
  {
    if s != [] && ValueOf(value, t) >= ValueOf(value, s[0]) {
      InsertionMembers(s[1..], t, value);
    }
  }

  lemma {:induction false} InsertionSorted(s: seq<Task>, t: Task, value: map<Task, nat>)
    requires SortedBy(s, value)
    ensures SortedBy(Insertion(s, t, value), value)
  {
    if s != [] && ValueOf(value, t) >= ValueOf(value, s[0]) {
      InsertionSorted(s[1..], t, value);
      InsertionMembers(s[1..], t, value);
      ConsSorted(s[0], Insertion(s[1..], t, value), value);
    } else {
      ConsSorted(t, s, value);
    }
  }

  lemma {:induction false} WithoutSorted(s: seq<Task>, t: Task, value: map<Task, nat>)
    requires SortedBy(s, value)
    ensures SortedBy(Without(s, t), value)
  {
    if s != [] && s[0] != t {
      WithoutSorted(s[1..], t, value);
      WithoutMembers(s[1..], t);
      ConsSorted(s[0], Without(s[1..], t), value);
    }
  }

  /** A task outside the list may change its item value. */
  lemma SortedElsewhere(s: seq<Task>, value: map<Task, nat>, t: Task, v: nat)
    requires SortedBy(s, value) && multiset(s)[t] == 0
    ensures SortedBy(s, value[t := v])
  {
    forall i | 0 <= i < |s|
      ensures ValueOf(value[t := v], s[i]) == ValueOf(value, s[i])
    {
      assert s[i] in multiset(s);
    }
  }

  lemma HeadIsLeast(s: seq<Task>, value: map<Task, nat>, t: Task)
    requires SortedBy(s, value) && multiset(s)[t] > 0
    ensures s != [] && ValueOf(value, s[0]) <= ValueOf(value, t)
  {
    assert t in s;
  }
}
