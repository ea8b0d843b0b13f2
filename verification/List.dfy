/**
  The circular doubly linked list itself (FreeRTOS/Source/list.c): list items with next and
  previous links, and a list that owns an end marker, a cursor and an item count.
*/
module Lists {
  import opened Rings

  const MAX_DELAY: nat := 0xFFFF_FFFF

  class ListItem {
    var value: nat
    var next: ListItem?
    var previous: ListItem?
    var container: List?

    constructor (value: nat)
      ensures this.value == value && container == null
    {
      this.value := value;
      next, previous, container := null, null, null;
    }
  }

  class List {
    const end: ListItem
    var index: ListItem
    var count: nat
    ghost var ring: seq<ListItem>  // the end marker, then the items from head to tail
    ghost var cursor: nat          // where index is in the ring
    ghost var repr: set<ListItem>  // the items of the ring

    ghost predicate Linked()
      reads this`ring, this`repr, repr
    {
      && |ring| > 0 && (forall i | 0 <= i < |ring| :: ring[i] in repr)
      && (forall i {:trigger ring[i].next} | 0 <= i < |ring| - 1 :: ring[i].next == ring[i + 1])
      && ring[|ring| - 1].next == ring[0]
      && (forall i {:trigger ring[i].previous} | 0 < i < |ring| :: ring[i].previous == ring[i - 1])
      && ring[0].previous == ring[|ring| - 1]
    }

    /** Everything but the place of the cursor. */
    ghost predicate Shape()
      reads this`ring, this`repr, this`count, repr
    {
      && Linked() && Distinct(ring)
      && ring[0] == end && end.value == MAX_DELAY
      && count == |ring| - 1
      && (forall i | 0 < i < |ring| :: ring[i].container == this && ring[i].value <= MAX_DELAY)
    }

    ghost predicate Valid()
      reads this, repr
    {
      Shape() && cursor < |ring| && ring[cursor] == index
    }

    /** The abstract value of the list. */
    ghost function View(): Ring<ListItem>
      requires Valid()
      reads this, repr
    {
      Ring(ring[1..], cursor)
    }

    /** `p` is behind the leading items with a value of at most `v` and before the first larger one. */
    ghost predicate PlaceFor(p: nat, v: nat)
      reads this`ring, this`repr, repr
    {
      && p < |ring| && Linked()
      && (forall i | 0 < i <= p :: ring[i].value <= v)
      && (p + 1 < |ring| ==> ring[p + 1].value > v)
    }

    /** The items are in ascending order of value. */
    ghost predicate Ascending()
      reads this`ring, this`repr, repr
    {
      Linked() && forall i, j | 0 < i < j < |ring| :: ring[i].value <= ring[j].value
    }

    /** The values of the nodes in the ring */
    ghost predicate HasValues(values: seq<nat>)
      reads this`ring, this`repr, repr
    {
      Linked() && |values| == |ring| && forall i | 0 <= i < |ring| :: ring[i].value == values[i]
    }

    constructor ()
      ensures Valid() && fresh(end) && ring == [end]
      ensures View() == Ring([], 0)
    {
      var marker := new ListItem(MAX_DELAY);
      end := marker;
      index := marker;
      count := 0;
      ring := [marker];
      repr := {marker};
      cursor := 0;
      new;
      marker.next := marker;
      marker.previous := marker;
    }

    /** The four link updates both insertions end in: `item` goes in between `after`, at place
        `p - 1` of the ring, and its successor. */
    method Splice(item: ListItem, after: ListItem, ghost p: nat)
      requires Linked() && item !in repr
      requires Distinct(ring)
      requires 0 < p <= |ring| && ring[p - 1] == after
      modifies this`ring, this`repr, repr`next, repr`previous, item`next, item`previous
      ensures ring == old(ring)[..p] + [item] + old(ring)[p..]
      ensures Linked() && Distinct(ring)
      ensures repr == old(repr) + {item}
    {
      DistinctIndices(ring);
      item.next := after.next;
      item.next.previous := item;
      item.previous := after;
      after.next := item;
      ghost var was := ring;
      ring := ring[..p] + [item] + ring[p..];
      repr := repr + {item};
      DistinctAfterInsertion(was, p, item);
      forall i | 0 <= i < |ring| - 1
        ensures ring[i].next == ring[i + 1]
      {
        if i < p - 1 { assert ring[i] == was[i] && ring[i + 1] == was[i + 1]; }
        else if i > p { assert ring[i] == was[i - 1] && ring[i + 1] == was[i]; }
      }
      forall i | 0 < i < |ring|
        ensures ring[i].previous == ring[i - 1]
      {
        if i < p { assert ring[i] == was[i] && ring[i - 1] == was[i - 1]; }
        else if i > p + 1 { assert ring[i] == was[i - 1] && ring[i - 1] == was[i - 2]; }
      }
    }

    method Attach(item: ListItem, after: ListItem, ghost p: nat)
      requires Shape() && item !in repr && item.value <= MAX_DELAY
      requires 0 < p <= |ring| && ring[p - 1] == after
      modifies this`count, this`ring, this`repr, repr`next, repr`previous, item`next, item`previous, item`container
      ensures repr == old(repr) + {item}
      ensures Shape() && ring == old(ring)[..p] + [item] + old(ring)[p..]
    {
      ghost var was := ring;
      Splice(item, after, p);
      item.container := this;
      count := count + 1;
      forall i | 0 < i < |ring|
        ensures ring[i].container == this && ring[i].value <= MAX_DELAY
      {
        if i < p { assert ring[i] == was[i]; }
        else if i > p { assert ring[i] == was[i - 1]; }
      }
    }

    method InsertBehind(item: ListItem, after: ListItem, ghost p: nat)
      requires Valid() && item !in repr && item.value <= MAX_DELAY
      requires p < |ring| && ring[p] == after
      modifies this`count, this`ring, this`repr, this`cursor
      modifies repr`next, repr`previous, item`next, item`previous, item`container
      ensures repr == old(repr) + {item} && ring == old(ring)[..p + 1] + [item] + old(ring)[p + 1..]
      ensures Valid() && View() == InsertAt(old(View()), p, item)
    {
      InsertionView(ring, p, item, cursor);
      cursor := if p < cursor then cursor + 1 else cursor;
      Attach(item, after, p + 1);
    }

    /** Insert just before the cursor: the new item is the last to be selected. */
    method InsertEnd(item: ListItem)
      requires Valid() && item !in repr && item.value <= MAX_DELAY
      modifies this`count, this`ring, this`repr, this`cursor
      modifies repr`next, repr`previous, item`next, item`previous, item`container
      ensures repr == old(repr) + {item}
      ensures Valid() && View() == Rings.InsertEnd(old(View()), item)
    {
      ghost var was := View();
      InsertBehind(item, index.previous, if cursor == 0 then |ring| - 1 else cursor - 1);
      assert was.cursor == 0 ==> was.items[..|was.items|] == was.items;
    }

    /** The item to insert behind: the last one of the leading items with a value of at most `v`.
        The highest value would run past the end marker, so it is placed at the tail outright. */
    method FindPlace(v: nat) returns (spot: ListItem, ghost p: nat)
      requires Valid() && v <= MAX_DELAY
      ensures PlaceFor(p, v) && ring[p] == spot
    {
      if v == MAX_DELAY {
        spot := end.previous;
        p := |ring| - 1;
      } else {
        spot := end;
        p := 0;
        while spot.next.value <= v
          invariant p < |ring| && ring[p] == spot
          invariant forall i | 0 < i <= p :: ring[i].value <= v
          decreases |ring| - p
        {
          spot := spot.next;
          p := p + 1;
        }
      }
    }

    /** Insert in ascending order of value: before the new item stand exactly the items whose value is no
        greater, so it goes behind every item with the same value. */
    method Insert(item: ListItem) returns (ghost p: nat)
      requires Valid() && item !in repr && item.value <= MAX_DELAY
      modifies this`count, this`ring, this`repr, this`cursor
      modifies repr`next, repr`previous, item`next, item`previous, item`container
      ensures repr == old(repr) + {item}
      ensures Valid() && old(PlaceFor(p, item.value)) && View() == InsertAt(old(View()), p, item)
      ensures old(Ascending()) ==> Ascending()
      ensures old(Ascending()) ==>
                forall i | 0 < i < |old(ring)| :: i <= p <==> old(ring[i].value) <= item.value
    {
      var spot;
      spot, p := FindPlace(item.value);
      ghost var values := Values();
      InOrder(values, item.value, p);
      PutAt(item, spot, p, values);
    }

    lemma Values() returns (values: seq<nat>)
      requires Linked()
      ensures HasValues(values)
    {
      values := [];
      while |values| < |ring|
        invariant |values| <= |ring| && forall i | 0 <= i < |values| :: ring[i].value == values[i]
      {
        values := values + [ring[|values|].value];
      }
    }

    lemma InOrder(values: seq<nat>, v: nat, p: nat)
      requires HasValues(values) && PlaceFor(p, v)
      ensures Ascending() ==> Sorted(values[1..]) && forall i | 0 < i < |ring| :: i <= p <==> ring[i].value <= v
    {
    }

    /** InsertBehind at a place in the order: an ascending list stays so. */
    method PutAt(item: ListItem, spot: ListItem, ghost p: nat, ghost values: seq<nat>)
      requires Valid() && item !in repr && item.value <= MAX_DELAY
      requires HasValues(values) && PlaceFor(p, item.value) && ring[p] == spot
      modifies this`count, this`ring, this`repr, this`cursor
      modifies repr`next, repr`previous, item`next, item`previous, item`container
      ensures repr == old(repr) + {item}
      ensures Valid() && View() == InsertAt(old(View()), p, item)
      ensures Sorted(values[1..]) ==> Ascending()
    {
      InsertBehind(item, spot, p);
      StaysSorted(values, item.value, p);
    }

    lemma StaysSorted(values: seq<nat>, v: nat, p: nat)
      requires p < |values| && HasValues(values[..p + 1] + [v] + values[p + 1..])
      requires forall i | 0 < i <= p :: values[i] <= v
      requires p + 1 < |values| ==> values[p + 1] > v
      ensures Sorted(values[1..]) ==> Ascending()
    {
      if Sorted(values[1..]) {
        SortedInsertion(values[1..], v, p);
      }
    }

    method Unsplice(item: ListItem, ghost p: nat)
      requires Linked() && Distinct(ring)
      requires 0 < p < |ring| && ring[p] == item
      modifies this`ring, this`repr, repr`next, repr`previous
      ensures ring == old(ring)[..p] + old(ring)[p + 1..]
      ensures Linked() && Distinct(ring) && repr == old(repr) - {item}
    {
      DistinctIndices(ring);
      item.next.previous := item.previous;
      item.previous.next := item.next;
      ghost var was := ring;
      ring := ring[..p] + ring[p + 1..];
      repr := repr - {item};
      DistinctAfterRemoval(was, p);
      forall i | 0 <= i < |ring| - 1
        ensures ring[i].next == ring[i + 1]
      {
        if i < p - 1 { assert ring[i] == was[i] && ring[i + 1] == was[i + 1]; }
        else if i >= p { assert ring[i] == was[i + 1] && ring[i + 1] == was[i + 2]; }
      }
      forall i | 0 < i < |ring|
        ensures ring[i].previous == ring[i - 1]
      {
        if i < p { assert ring[i] == was[i] && ring[i - 1] == was[i - 1]; }
        else if i > p { assert ring[i] == was[i + 1] && ring[i - 1] == was[i]; }
      }
    }

    method Detach(item: ListItem, ghost p: nat)
      requires Shape() && 0 < p < |ring| && ring[p] == item
      modifies this`count, this`ring, this`repr, repr`next, repr`previous, item`container
      ensures Shape() && repr == old(repr) - {item} && item.container == null
      ensures ring == old(ring)[..p] + old(ring)[p + 1..]
    {
      ghost var was := ring;
      Unsplice(item, p);
      item.container := null;
      count := count - 1;
      forall i | 0 < i < |ring|
        ensures ring[i].container == this && ring[i].value <= MAX_DELAY
      {
        assert ring[i] == was[if i < p then i else i + 1];
      }
    }

    /** A cursor on the item at place `p` moves to the place before. */
    method LeaveItem(item: ListItem, ghost p: nat)
      requires Valid() && p < count && ring[p + 1] == item
      modifies this`index, this`cursor
      ensures Shape() && cursor == (if p < old(cursor) then old(cursor) - 1 else old(cursor))
      ensures index == ring[if old(cursor) == p + 1 then p else old(cursor)]
    {
      DistinctIndices(ring);
      if index == item {
        index := item.previous;
      }
      cursor := if p < cursor then cursor - 1 else cursor;
    }

    method RemoveAt(item: ListItem, ghost p: nat)
      requires Valid() && p < count && ring[p + 1] == item
      modifies this`index, this`count, this`ring, this`repr, this`cursor
      modifies repr`next, repr`previous, item`container
      ensures repr == old(repr) - {item} && item.container == null
      ensures Valid() && View() == Rings.Remove(old(View()), p)
    {
      RemovalView(ring, p, cursor);
      LeaveItem(item, p);
      Detach(item, p + 1);
    }

    /** Unlink `item` and return the number of items left; an item that is in no list is left alone. */
    method Remove(item: ListItem) returns (left: nat, ghost p: nat)
      requires Valid() && item != end
      requires item in ring <==> item.container == this
      requires item.container == this || item.container == null
      modifies this`index, this`count, this`ring, this`repr, this`cursor
      modifies repr`next, repr`previous, item`container
      ensures Valid() && item.container == null
      ensures old(item.container) == null ==> left == 0 && View() == old(View())
      ensures old(item.container) == this ==>
                && left == count && repr == old(repr) - {item}
                && p < old(count) && old(View()).items[p] == item
                && View() == Rings.Remove(old(View()), p)
    {
      p := 0;
      if item.container == null {
        return 0, p;
      }
      p := Place(ring, item) - 1;
      RemoveAt(item, p);
      left := count;
    }

    /** listGET_OWNER_OF_NEXT_ENTRY: move the cursor to the next item, skipping the end marker. */
    method SelectNext() returns (item: ListItem)
      requires Valid() && count > 0
      modifies this`index, this`cursor
      ensures Valid() && View() == Select(old(View()))
      ensures item == Turns(old(View()))[0]
    {
      DistinctIndices(ring);
      index := index.next;
      if index == end {
        index := index.next;
      }
      cursor := if cursor == |ring| - 1 then 1 else cursor + 1;
      item := index;
    }
  }

  /** A ring of nodes and its view after an insertion behind place `p` */
  lemma InsertionView<T>(ring: seq<T>, p: nat, x: T, c: nat)
    requires p < |ring| && c < |ring|
    ensures var ring' := ring[..p + 1] + [x] + ring[p + 1..];
            var c' := if p < c then c + 1 else c;
            ring'[c'] == ring[c] && Ring(ring'[1..], c') == InsertAt(Ring(ring[1..], c), p, x)
  {
    assert (ring[..p + 1] + [x] + ring[p + 1..])[1..] == ring[1..][..p] + [x] + ring[1..][p..];
  }

  /** After a removal at place `p`; a cursor there goes to the place before. */
  lemma RemovalView<T>(ring: seq<T>, p: nat, c: nat)
    requires p + 1 < |ring| && c < |ring|
    ensures var ring' := ring[..p + 1] + ring[p + 1 + 1..];
            var c' := if p < c then c - 1 else c;
            && c' < |ring'| && ring'[c'] == ring[if c == p + 1 then p else c]
            && Ring(ring'[1..], c') == Rings.Remove(Ring(ring[1..], c), p)
  {
    assert (ring[..p + 1] + ring[p + 2..])[1..] == ring[1..][..p] + ring[1..][p + 1..];
  }
}
