/**
  Event groups (FreeRTOS/Source/event_groups.c): a word of event bits and a list of tasks that wait for some
  or all of their bits, with the details of the wait packed into the control bits of their list items.

  A 32-bit word is modelled by the set of positions of its one bits: OR is union, AND is intersection and
  AND NOT is difference.
*/
module EventGroups {
  import opened TaskLists

  type Bits = set<nat>

  const CLEAR_ON_EXIT: nat := 24
  const UNBLOCKED_BY_BITS: nat := 25
  const WAIT_FOR_ALL: nat := 26
  const IN_USE: nat := 31

  /** eventEVENT_BITS_CONTROL_BYTES, the bits 24 to 31 */
  const CONTROL: Bits := {24, 25, 26, 27, 28, 29, 30, 31}

  /** An item of the wait list, or of a task that was taken off it */
  datatype Item = Item(task: Task, value: Bits)

  /** The event bits, the waiting tasks in list order, and the tasks released so far */
  datatype Group = Group(bits: Bits, waiting: seq<Item>, released: seq<Item>)

  /** prvTestWaitCondition */
  predicate Met(bits: Bits, wanted: Bits, all: bool) {
    if all then bits * wanted == wanted else bits * wanted != {}
  }

  function Wanted(value: Bits): Bits {
    value - CONTROL
  }

  /** Is the wait that a list item describes over? */
  predicate Satisfied(value: Bits, bits: Bits) {
    Met(bits, Wanted(value), WAIT_FOR_ALL in value)
  }

  /** What a task stores in its list item when it blocks */
  function ItemValue(wanted: Bits, clear: bool, all: bool): Bits {
    wanted + (if clear then {CLEAR_ON_EXIT} else {}) + (if all then {WAIT_FOR_ALL} else {}) + {IN_USE}
  }

  /** What a released task finds in its list item */
  function ReleaseValue(bits: Bits): Bits {
    bits + {UNBLOCKED_BY_BITS} + {IN_USE}
  }

  /** The waiters that stay, those that are released, and the bits that these clear */
  function Kept(s: seq<Item>, bits: Bits): seq<Item> {
    if s == [] then []
    else Kept(s[..|s| - 1], bits) + if Satisfied(s[|s| - 1].value, bits) then [] else [s[|s| - 1]]
  }

  function Released(s: seq<Item>, bits: Bits): seq<Item> {
    if s == [] then []
    else
      Released(s[..|s| - 1], bits)
      + if Satisfied(s[|s| - 1].value, bits) then [Item(s[|s| - 1].task, ReleaseValue(bits))] else []
  }

  /** Bits of `value` that are cleared if the task is released */
  function ClearedBy(value: Bits, bits: Bits): Bits {
    if Satisfied(value, bits) && CLEAR_ON_EXIT in value then Wanted(value) else {}
  }

  function Cleared(s: seq<Item>, bits: Bits): Bits {
    if s == [] then {} else Cleared(s[..|s| - 1], bits) + ClearedBy(s[|s| - 1].value, bits)
  }

  /** xEventGroupSetBits */
  function SetBits(g: Group, bits: Bits): Group {
    var b := g.bits + bits;
    Group(b - Cleared(g.waiting, b), Kept(g.waiting, b), g.released + Released(g.waiting, b))
  }

  /** xEventGroupClearBits */
  function ClearBits(g: Group, bits: Bits): Group {
    g.(bits := g.bits - bits)
  }

  datatype Outcome = Returns(bits: Bits) | Blocks

  /** xEventGroupWaitBits up to the point where the task may block */
  function WaitBits(g: Group, t: Task, wanted: Bits, clear: bool, all: bool, mayBlock: bool): (Group, Outcome) {
    if Met(g.bits, wanted, all) then ((if clear then ClearBits(g, wanted) else g), Returns(g.bits))
    else if !mayBlock then (g, Returns(g.bits))
    else (g.(waiting := g.waiting + [Item(t, ItemValue(wanted, clear, all))]), Blocks)
  }

  /** xEventGroupSync up to the point where the task may block */
  function Sync(g: Group, t: Task, bits: Bits, wanted: Bits, mayBlock: bool): (Group, Outcome) {
    var g1 := SetBits(g, bits);
    if (g.bits + bits) * wanted == wanted then (ClearBits(g1, wanted), Returns(g.bits + bits))
    else if !mayBlock then (g1, Returns(g1.bits))
    else (g1.(waiting := g1.waiting + [Item(t, ItemValue(wanted, true, true))]), Blocks)
  }

  /** The critical section after a wait that timed out */
  function AfterTimeOut(g: Group, wanted: Bits, clear: bool, all: bool): (Group, Bits) {
    ((if Met(g.bits, wanted, all) && clear then ClearBits(g, wanted) else g), g.bits)
  }

  /** A wait for all bits is over when each of them is set, and a wait for any when one is. */
  lemma MetMeaning(bits: Bits, wanted: Bits, all: bool)
    ensures Met(bits, wanted, all) <==>
            if all then forall b | b in wanted :: b in bits else exists b :: b in wanted && b in bits
  {
    if all {
      if bits * wanted == wanted {
        assert forall b | b in wanted :: b in bits * wanted;
      }
      if forall b | b in wanted :: b in bits {
        assert bits * wanted == wanted;
      }
    } else {
      if bits * wanted != {} {
        var b :| b in bits * wanted;
        assert b in wanted && b in bits;
      }
      if b :| b in wanted && b in bits {
        assert b in bits * wanted;
      }
    }
  }

  // ---------- packing ----------

  lemma Apart(a: Bits, b: Bits)
    requires a * b == {}
    ensures forall x | x in a :: x !in b
  {
    forall x | x in a
      ensures x !in b
    {
      assert x !in a * b;
    }
  }

  lemma ItemValueParts(wanted: Bits, clear: bool, all: bool)
    requires wanted * CONTROL == {}
    ensures Wanted(ItemValue(wanted, clear, all)) == wanted
    ensures WAIT_FOR_ALL in ItemValue(wanted, clear, all) <==> all
    ensures CLEAR_ON_EXIT in ItemValue(wanted, clear, all) <==> clear
    ensures UNBLOCKED_BY_BITS !in ItemValue(wanted, clear, all)
  {
    Apart(wanted, CONTROL);
  }

  /** A released task can tell that it did not time out, and reads the event bits of that moment. */
  lemma ReleaseValueParts(bits: Bits)
    requires bits * CONTROL == {}
    ensures UNBLOCKED_BY_BITS in ReleaseValue(bits)
    ensures Wanted(ReleaseValue(bits)) == bits
  {
    Apart(bits, CONTROL);
  }

  // ---------- setting bits releases exactly the satisfied waiters ----------

  lemma {:induction false} KeptMembers(s: seq<Item>, bits: Bits, w: Item)
    ensures multiset(Kept(s, bits))[w] == if Satisfied(w.value, bits) then 0 else multiset(s)[w]
  {
    if s != [] {
      KeptMembers(s[..|s| - 1], bits, w);
      assert s == s[..|s| - 1] + [s[|s| - 1]];
    }
  }

  lemma {:induction false} ReleasedMembers(s: seq<Item>, bits: Bits)
    ensures |Kept(s, bits)| + |Released(s, bits)| == |s|
    ensures forall w | w in s && Satisfied(w.value, bits) :: Item(w.task, ReleaseValue(bits)) in Released(s, bits)
    ensures forall x | x in Released(s, bits) ::
              exists w :: w in s && Satisfied(w.value, bits) && x == Item(w.task, ReleaseValue(bits))
  {
    if s != [] {
      var s0, last := s[..|s| - 1], s[|s| - 1];
      ReleasedMembers(s0, bits);
      assert s == s0 + [last];
      forall x | x in Released(s, bits)
        ensures exists w :: w in s && Satisfied(w.value, bits) && x == Item(w.task, ReleaseValue(bits))
      {
        if x in Released(s0, bits) {
          var w :| w in s0 && Satisfied(w.value, bits) && x == Item(w.task, ReleaseValue(bits));
          assert w in s;
        } else {
          assert last in s;
        }
      }
    }
  }

  /** Is `item` a waiter that the bits release, that waits for bit `b` and wants its bits cleared? */
  predicate Clears(item: Item, bits: Bits, b: nat) {
    Satisfied(item.value, bits) && CLEAR_ON_EXIT in item.value && b in item.value && b !in CONTROL
  }

  /** A bit is cleared exactly when a released waiter that waited for it asked for its bits to be cleared. */
  lemma {:induction false} ClearedMembers(s: seq<Item>, bits: Bits, b: nat)
    ensures b in Cleared(s, bits) <==>
            exists w :: w in s && Satisfied(w.value, bits) && CLEAR_ON_EXIT in w.value && b in w.value && b !in CONTROL
  {
    if s != [] {
      var s0, last := s[..|s| - 1], s[|s| - 1];
      ClearedMembers(s0, bits, b);
      assert s == s0 + [last];
      assert last in s;
    }
  }

  /** The outcome of setting bits does not depend on the order of the wait list. */
  lemma OrderDoesNotMatter(s: seq<Item>, s': seq<Item>, bits: Bits)
    requires multiset(s) == multiset(s')
    ensures Cleared(s, bits) == Cleared(s', bits)
    ensures multiset(Kept(s, bits)) == multiset(Kept(s', bits))
    ensures forall x :: x in Released(s, bits) <==> x in Released(s', bits)
  {
    forall w
      ensures w in s <==> w in s'
    {
      assert w in s <==> w in multiset(s);
      assert w in s' <==> w in multiset(s');
    }
    forall b
      ensures b in Cleared(s, bits) <==> b in Cleared(s', bits)
    {
      ClearedMembers(s, bits, b);
      ClearedMembers(s', bits, b);
    }
    forall w
      ensures multiset(Kept(s, bits))[w] == multiset(Kept(s', bits))[w]
    {
      KeptMembers(s, bits, w);
      KeptMembers(s', bits, w);
    }
    ReleasedMembers(s, bits);
    ReleasedMembers(s', bits);
  }

  // ---------- no satisfied task waits ----------

  /** The event bits hold no control bits, and no task on the wait list has its wait condition met. */
  ghost predicate Inv(g: Group) {
    && g.bits * CONTROL == {}
    && forall w | w in g.waiting :: !Satisfied(w.value, g.bits)
  }

  lemma FewerBits(bits: Bits, clear: Bits, wanted: Bits, all: bool)
    requires !Met(bits, wanted, all)
    ensures !Met(bits - clear, wanted, all)
  {
    if all {
      assert (bits - clear) * wanted == wanted ==> bits * wanted == wanted;
    } else {
      assert forall x | x in (bits - clear) * wanted :: x in bits * wanted;
    }
  }

  lemma FewerBitsKeep(s: seq<Item>, bits: Bits, clear: Bits)
    requires forall w | w in s :: !Satisfied(w.value, bits)
    ensures forall w | w in s :: !Satisfied(w.value, bits - clear)
  {
    forall w | w in s
      ensures !Satisfied(w.value, bits - clear)
    {
      FewerBits(bits, clear, Wanted(w.value), WAIT_FOR_ALL in w.value);
    }
  }

  lemma NoControl(bits: Bits, more: Bits, clear: Bits)
    requires bits * CONTROL == {} && more * CONTROL == {}
    ensures (bits + more - clear) * CONTROL == {} && (bits - clear) * CONTROL == {}
  {
    Apart(bits, CONTROL);
    Apart(more, CONTROL);
  }

  lemma SetBitsKeeps(g: Group, bits: Bits)
    requires g.bits * CONTROL == {} && bits * CONTROL == {}
    ensures Inv(SetBits(g, bits))
  {
    var b := g.bits + bits;
    NoControl(g.bits, bits, Cleared(g.waiting, b));
    forall w | w in Kept(g.waiting, b)
      ensures !Satisfied(w.value, b)
    {
      KeptMembers(g.waiting, b, w);
      assert w in multiset(Kept(g.waiting, b));
    }
    FewerBitsKeep(Kept(g.waiting, b), b, Cleared(g.waiting, b));
  }

  lemma ClearBitsKeeps(g: Group, clear: Bits)
    requires Inv(g)
    ensures Inv(ClearBits(g, clear))
  {
    NoControl(g.bits, {}, clear);
    FewerBitsKeep(g.waiting, g.bits, clear);
  }

  datatype Step =
    | Set(bits: Bits)
    | Clear(mask: Bits)
    | Wait(t: Task, wanted: Bits, clear: bool, all: bool, mayBlock: bool)
    | Meet(t: Task, bits: Bits, wanted: Bits, mayBlock: bool)   // xEventGroupSync
    | Expire(p: nat)                                            // a waiter is taken off the list by the tick
    | Leave(wanted: Bits, clear: bool, all: bool)               // a task whose wait timed out runs again

  /** The assertions of the source: control bits are not used as event bits, and some bit is wanted. */
  predicate Enabled(g: Group, step: Step) {
    match step
    case Set(x) => x * CONTROL == {}
    case Clear(x) => x * CONTROL == {}
    case Wait(_, w, _, _, _) => w * CONTROL == {} && w != {}
    case Meet(_, x, w, _) => x * CONTROL == {} && w * CONTROL == {} && w != {}
    case Expire(p) => p < |g.waiting|
    case Leave(w, _, _) => w * CONTROL == {} && w != {}
  }

  function Next(g: Group, step: Step): Group
    requires Enabled(g, step)
  {
    match step
    case Set(x) => SetBits(g, x)
    case Clear(x) => ClearBits(g, x)
    case Wait(t, w, clear, all, mayBlock) => WaitBits(g, t, w, clear, all, mayBlock).0
    case Meet(t, x, w, mayBlock) => Sync(g, t, x, w, mayBlock).0
    case Expire(p) => g.(waiting := g.waiting[..p] + g.waiting[p + 1..])
    case Leave(w, clear, all) => AfterTimeOut(g, w, clear, all).0
  }

  lemma WaitKeeps(g: Group, t: Task, wanted: Bits, clear: bool, all: bool, mayBlock: bool)
    requires Inv(g) && wanted * CONTROL == {}
    ensures Inv(WaitBits(g, t, wanted, clear, all, mayBlock).0)
  {
    ClearBitsKeeps(g, wanted);
    ItemValueParts(wanted, clear, all);
  }

  lemma SyncKeeps(g: Group, t: Task, bits: Bits, wanted: Bits, mayBlock: bool)
    requires Inv(g) && bits * CONTROL == {} && wanted * CONTROL == {}
    ensures Inv(Sync(g, t, bits, wanted, mayBlock).0)
  {
    var g1 := SetBits(g, bits);
    SetBitsKeeps(g, bits);
    ClearBitsKeeps(g1, wanted);
    ItemValueParts(wanted, true, true);
    if (g.bits + bits) * wanted != wanted {
      FewerBits(g.bits + bits, Cleared(g.waiting, g.bits + bits), wanted, true);
    }
  }

  /** Every operation leaves no task waiting whose condition is met. */
  lemma StepKeeps(g: Group, step: Step)
    requires Inv(g) && Enabled(g, step)
    ensures Inv(Next(g, step))
  {
    match step
    case Set(x) => SetBitsKeeps(g, x);
    case Clear(x) => ClearBitsKeeps(g, x);
    case Wait(t, w, clear, all, mayBlock) => WaitKeeps(g, t, w, clear, all, mayBlock);
    case Meet(t, x, w, mayBlock) => SyncKeeps(g, t, x, w, mayBlock);
    case Expire(p) =>
    case Leave(w, clear, all) => ClearBitsKeeps(g, w);
  }

  ghost predicate Admissible(g: Group, steps: seq<Step>)
    decreases |steps|
  {
    steps == [] || (Enabled(g, steps[0]) && Admissible(Next(g, steps[0]), steps[1..]))
  }

  ghost function Run(g: Group, steps: seq<Step>): Group
    requires Admissible(g, steps)
    decreases |steps|
  {
    if steps == [] then g else Run(Next(g, steps[0]), steps[1..])
  }

  /** In every state of every run that starts with an empty wait list no task waits whose condition is met. */
  lemma {:induction false} NobodyWaitsSatisfied(g: Group, steps: seq<Step>)
    requires Inv(g) && Admissible(g, steps)
    ensures Inv(Run(g, steps))
    decreases |steps|
  {
    if steps != [] {
      StepKeeps(g, steps[0]);
      NobodyWaitsSatisfied(Next(g, steps[0]), steps[1..]);
    }
  }

  // ---------- rendezvous ----------

  /** The bits of the first k tasks */
  function Union(bs: seq<Bits>, k: nat): Bits
    requires k <= |bs|
  {
    if k == 0 then {} else Union(bs, k - 1) + bs[k - 1]
  }

  /** Each task has bits of its own. */
  ghost predicate Separate(bs: seq<Bits>) {
    && (forall i | 0 <= i < |bs| :: bs[i] != {})
    && (forall i, j | 0 <= i < j < |bs| :: bs[i] * bs[j] == {})
  }

  /** The first k tasks have called xEventGroupSync, one after the other, to wait for `all`. */
  function Arrived(g: Group, ts: seq<Task>, bs: seq<Bits>, all: Bits, k: nat): Group
    requires k <= |ts| == |bs|
  {
    if k == 0 then g else Sync(Arrived(g, ts, bs, all, k - 1), ts[k - 1], bs[k - 1], all, true).0
  }

  function Waiters(ts: seq<Task>, value: Bits): (r: seq<Item>)
    ensures |r| == |ts| && forall i | 0 <= i < |ts| :: r[i] == Item(ts[i], value)
  {
    seq(|ts|, i requires 0 <= i < |ts| => Item(ts[i], value))
  }

  lemma {:induction false} AllKept(s: seq<Item>, bits: Bits)
    requires forall i | 0 <= i < |s| :: !Satisfied(s[i].value, bits)
    ensures Kept(s, bits) == s
  {
    if s != [] {
      AllKept(s[..|s| - 1], bits);
    }
  }

  lemma {:induction false} NoneCleared(s: seq<Item>, bits: Bits)
    requires forall i | 0 <= i < |s| :: !Satisfied(s[i].value, bits)
    ensures Released(s, bits) == [] && Cleared(s, bits) == {}
  {
    if s != [] {
      NoneCleared(s[..|s| - 1], bits);
    }
  }

  lemma {:induction false} AllReleased(ts: seq<Task>, bits: Bits, value: Bits)
    requires Satisfied(value, bits) && CLEAR_ON_EXIT in value
    ensures var s := Waiters(ts, value);
            && Kept(s, bits) == []
            && Released(s, bits) == Waiters(ts, ReleaseValue(bits))
            && Cleared(s, bits) == if ts == [] then {} else Wanted(value)
  {
    if ts != [] {
      var ts0 := ts[..|ts| - 1];
      AllReleased(ts0, bits, value);
      var s := Waiters(ts, value);
      assert s[..|s| - 1] == Waiters(ts0, value);
    }
  }

  lemma {:induction false} UnionMisses(bs: seq<Bits>, k: nat, j: nat)
    requires Separate(bs) && k <= j < |bs|
    ensures bs[j] * Union(bs, k) == {}
  {
    if k > 0 {
      UnionMisses(bs, k - 1, j);
      assert bs[k - 1] * bs[j] == {};
      assert bs[j] * Union(bs, k) == bs[j] * Union(bs, k - 1) + bs[j] * bs[k - 1];
    }
  }

  lemma LastMissing(bits: Bits, some: Bits, b: Bits, all: Bits)
    requires bits * all == {} && b * some == {} && b <= all && b != {}
    ensures (bits + some) * all != all
  {
    var x :| x in b;
    assert x !in bits * all && x !in b * some;
    assert x !in (bits + some) * all;
  }

  ghost predicate MeetingReady(g: Group, ts: seq<Task>, bs: seq<Bits>, all: Bits) {
    && |ts| == |bs| > 0 && Separate(bs) && all == Union(bs, |bs|)
    && g.waiting == [] && g.bits * all == {} && all * CONTROL == {}
  }

  /** Before the last task arrives everyone waits, in order of arrival, and the bits add up. */
  lemma {:induction false} MeetingWaits(g: Group, ts: seq<Task>, bs: seq<Bits>, all: Bits, k: nat)
    requires MeetingReady(g, ts, bs, all) && k < |ts|
    ensures Arrived(g, ts, bs, all, k) ==
            Group(g.bits + Union(bs, k), Waiters(ts[..k], ItemValue(all, true, true)), g.released)
  {
    if k == 0 {
      assert g.bits + {} == g.bits;
      assert Waiters(ts[..0], ItemValue(all, true, true)) == [];
    } else {
      MeetingWaits(g, ts, bs, all, k - 1);
      Arrival(g, Arrived(g, ts, bs, all, k - 1), ts, bs, all, k - 1);
    }
  }

  lemma Arrival(g: Group, gk: Group, ts: seq<Task>, bs: seq<Bits>, all: Bits, k: nat)
    requires MeetingReady(g, ts, bs, all) && k + 1 < |ts|
    requires gk == Group(g.bits + Union(bs, k), Waiters(ts[..k], ItemValue(all, true, true)), g.released)
    ensures Sync(gk, ts[k], bs[k], all, true) ==
            (Group(g.bits + Union(bs, k + 1), Waiters(ts[..k + 1], ItemValue(all, true, true)), g.released), Blocks)
  {
    var b := gk.bits + bs[k];
    assert b == g.bits + Union(bs, k + 1);
    UnionMisses(bs, k + 1, |ts| - 1);
    LastMissing(g.bits, Union(bs, k + 1), bs[|ts| - 1], all);
    NobodyMet(gk, bs[k], ts[..k], all);
    assert ts[..k] + [ts[k]] == ts[..k + 1];
    OneMoreWaiter(ts[..k], ts[k], ItemValue(all, true, true));
  }

  lemma OneMoreWaiter(ts: seq<Task>, t: Task, value: Bits)
    ensures Waiters(ts, value) + [Item(t, value)] == Waiters(ts + [t], value)
  {
  }

  /** While bits of the meeting are missing, setting more of them releases nobody. */
  lemma NobodyMet(g: Group, bits: Bits, ts: seq<Task>, all: Bits)
    requires all * CONTROL == {} && (g.bits + bits) * all != all && g.waiting == Waiters(ts, ItemValue(all, true, true))
    ensures SetBits(g, bits) == g.(bits := g.bits + bits)
  {
    var b := g.bits + bits;
    ItemValueParts(all, true, true);
    AllKept(g.waiting, b);
    NoneCleared(g.waiting, b);
    assert b - {} == b && g.released + [] == g.released;
  }

  lemma LastArrival(g: Group, gk: Group, t: Task, others: seq<Task>, last: Bits, all: Bits)
    requires g.waiting == [] && g.bits * all == {} && all * CONTROL == {} && gk.bits + last == g.bits + all
    requires gk.waiting == Waiters(others, ItemValue(all, true, true)) && gk.released == g.released
    ensures Sync(gk, t, last, all, true) ==
            (Group(g.bits, [], g.released + Waiters(others, ReleaseValue(g.bits + all))), Returns(g.bits + all))
  {
    var b := g.bits + all;
    ItemValueParts(all, true, true);
    assert b * all == all;
    AllReleased(others, b, ItemValue(all, true, true));
    Apart(g.bits, all);
    assert (b - all) - all == g.bits && (b - {}) - all == g.bits;
  }

  /** The last task to arrive releases all others, each with all bits of the rendezvous set, gets the same
      bits itself, and leaves the group as it was before the rendezvous. */
  lemma RendezvousReleasesAll(g: Group, ts: seq<Task>, bs: seq<Bits>, all: Bits)
    requires MeetingReady(g, ts, bs, all)
    ensures var n := |ts|;
            Sync(Arrived(g, ts, bs, all, n - 1), ts[n - 1], bs[n - 1], all, true) ==
            (Group(g.bits, [], g.released + Waiters(ts[..n - 1], ReleaseValue(g.bits + all))), Returns(g.bits + all))
  {
    var n := |ts|;
    var gk := Arrived(g, ts, bs, all, n - 1);
    MeetingWaits(g, ts, bs, all, n - 1);
    assert gk.bits + bs[n - 1] == g.bits + all;
    LastArrival(g, gk, ts[n - 1], ts[..n - 1], bs[n - 1], all);
  }

  // ---------- one more item ----------

  lemma NextItem(s: seq<Item>, i: nat, bits: Bits)
    requires i < |s|
    ensures Kept(s[..i + 1], bits) == Kept(s[..i], bits) + if Satisfied(s[i].value, bits) then [] else [s[i]]
    ensures Released(s[..i + 1], bits) ==
            Released(s[..i], bits) + if Satisfied(s[i].value, bits) then [Item(s[i].task, ReleaseValue(bits))] else []
    ensures Cleared(s[..i + 1], bits) == Cleared(s[..i], bits) + ClearedBy(s[i].value, bits)
  {
    assert s[..i + 1][..i] == s[..i];
  }

  /** Item `i` of the original list stands at place |kept| of the list as it is; it may be taken out there. */
  lemma DropItem(kept: seq<Item>, s: seq<Item>, i: nat)
    requires i < |s|
    ensures |kept| < |kept + s[i..]| && (kept + s[i..])[|kept|] == s[i]
    ensures (kept + s[i..])[..|kept|] + (kept + s[i..])[|kept| + 1..] == kept + s[i + 1..]
    ensures kept + [s[i]] + s[i + 1..] == kept + s[i..]
  {
  }

  /** How far the walk along the list has come: the list as it is, the tasks released, the place of the next
      item and the bits to clear */
  datatype Walk = Walk(waiting: seq<Item>, released: seq<Item>, p: nat, clear: Bits)

  /** The walk after the first i items of the list `s` */
  ghost function WalkAt(s: seq<Item>, released: seq<Item>, bits: Bits, i: nat): Walk
    requires i <= |s|
  {
    var kept := Kept(s[..i], bits);
    Walk(kept + s[i..], released + Released(s[..i], bits), |kept|, Cleared(s[..i], bits))
  }

  /** What a visit of the next item does */
  function Visited(w: Walk, bits: Bits): Walk
    requires w.p < |w.waiting|
  {
    var item := w.waiting[w.p];
    var clear := w.clear + ClearedBy(item.value, bits);
    if Satisfied(item.value, bits) then
      Walk(w.waiting[..w.p] + w.waiting[w.p + 1..], w.released + [Item(item.task, ReleaseValue(bits))], w.p, clear)
    else w.(p := w.p + 1, clear := clear)
  }

  lemma WalkRange(s: seq<Item>, released: seq<Item>, bits: Bits)
    ensures WalkAt(s, released, bits, 0) == Walk(s, released, 0, {})
    ensures WalkAt(s, released, bits, |s|)
            == Walk(Kept(s, bits), released + Released(s, bits), |Kept(s, bits)|, Cleared(s, bits))
  {
    assert s[..0] == [] && s[0..] == s && s[..|s|] == s && s[|s|..] == [];
  }

  lemma WalkEnd(s: seq<Item>, released: seq<Item>, bits: Bits, i: nat)
    requires i <= |s|
    ensures var w := WalkAt(s, released, bits, i); w.p < |w.waiting| <==> i < |s|
  {
  }

  /** The visits go through the items of the original list one by one. */
  lemma WalkStep(s: seq<Item>, released: seq<Item>, bits: Bits, i: nat)
    requires i < |s|
    ensures var w := WalkAt(s, released, bits, i);
            w.p < |w.waiting| && Visited(w, bits) == WalkAt(s, released, bits, i + 1)
  {
    var kept, gone := Kept(s[..i], bits), Released(s[..i], bits);
    NextItem(s, i, bits);
    DropItem(kept, s, i);
    if Satisfied(s[i].value, bits) {
      assert released + gone + [Item(s[i].task, ReleaseValue(bits))]
          == released + (gone + [Item(s[i].task, ReleaseValue(bits))]);
    }
  }

  // ---------- what the callers get ----------

  /** The task joined the end of the list, with an item that says what it waits for. */
  ghost predicate Queued(g: Group, g': Group, t: Task, wanted: Bits, clear: bool, all: bool) {
    && |g'.waiting| == |g.waiting| + 1 && g'.waiting[..|g.waiting|] == g.waiting
    && var item := g'.waiting[|g.waiting|];
       && item.task == t && Wanted(item.value) == wanted
       && (WAIT_FOR_ALL in item.value <==> all) && (CLEAR_ON_EXIT in item.value <==> clear)
  }

  lemma Enqueued(g: Group, t: Task, wanted: Bits, clear: bool, all: bool)
    requires wanted * CONTROL == {}
    ensures Queued(g, g.(waiting := g.waiting + [Item(t, ItemValue(wanted, clear, all))]), t, wanted, clear, all)
  {
    ItemValueParts(wanted, clear, all);
  }

  /** Setting bits takes exactly those waiters off the list whose condition the new bits meet. */
  lemma SetResult(g: Group, bits: Bits, g': Group)
    requires Inv(g) && bits * CONTROL == {} && g' == SetBits(g, bits)
    ensures Inv(g') && g'.bits <= g.bits + bits
    ensures forall w | w in g.waiting :: w in g'.waiting <==> !Satisfied(w.value, g.bits + bits)
    ensures |g'.released| - |g.released| == |g.waiting| - |g'.waiting|
    ensures g.released <= g'.released
    ensures forall w | w in g.waiting && Satisfied(w.value, g.bits + bits) ::
              Item(w.task, ReleaseValue(g.bits + bits)) in g'.released
    ensures forall b :: b in g'.bits <==>
                        (b in g.bits || b in bits) && !exists w :: w in g.waiting && Clears(w, g.bits + bits, b)
  {
    var b := g.bits + bits;
    SetBitsKeeps(g, bits);
    forall x
      ensures x in g'.bits <==> x in b && !exists w :: w in g.waiting && Clears(w, b, x)
    {
      ClearedMembers(g.waiting, b, x);
    }
    ReleasedMembers(g.waiting, b);
    forall w | w in g.waiting
      ensures w in g'.waiting <==> !Satisfied(w.value, b)
    {
      KeptMembers(g.waiting, b, w);
      assert w in Kept(g.waiting, b) <==> w in multiset(Kept(g.waiting, b));
    }
  }

  /** A wait blocks exactly if the condition is not met and it may; otherwise it returns the bits as they were. */
  lemma WaitResult(g: Group, t: Task, wanted: Bits, clear: bool, all: bool, mayBlock: bool, g': Group, r: Outcome)
    requires Inv(g) && wanted * CONTROL == {} && (g', r) == WaitBits(g, t, wanted, clear, all, mayBlock)
    ensures Inv(g') && (r.Blocks? <==> !Met(g.bits, wanted, all) && mayBlock)
    ensures r.Blocks? ==> g'.bits == g.bits && Queued(g, g', t, wanted, clear, all)
    ensures r.Returns? ==> && r.bits == g.bits && g'.waiting == g.waiting
                           && g'.bits == if Met(g.bits, wanted, all) && clear then g.bits - wanted else g.bits
  {
    WaitKeeps(g, t, wanted, clear, all, mayBlock);
    Enqueued(g, t, wanted, clear, all);
  }

  /** A synchronising task blocks exactly if some bit is missing and it may; if none is, it gets all the bits
      and leaves those of the rendezvous clear. */
  lemma SyncResult(g: Group, t: Task, bits: Bits, wanted: Bits, mayBlock: bool, g': Group, r: Outcome)
    requires Inv(g) && bits * CONTROL == {} && wanted * CONTROL == {} && (g', r) == Sync(g, t, bits, wanted, mayBlock)
    ensures Inv(g') && (r.Blocks? <==> !Met(g.bits + bits, wanted, true) && mayBlock)
    ensures r.Blocks? ==> Queued(SetBits(g, bits), g', t, wanted, true, true)
    ensures Met(g.bits + bits, wanted, true) ==> r.bits == g.bits + bits && g'.bits * wanted == {}
    ensures forall w | w in g.waiting && Satisfied(w.value, g.bits + bits) ::
              Item(w.task, ReleaseValue(g.bits + bits)) in g'.released
    ensures !Met(g.bits + bits, wanted, true) && r.Returns? ==> r.bits == g'.bits && g' == SetBits(g, bits)
    ensures forall b :: b in g'.bits <==>
              && (b in g.bits || b in bits) && !(exists w :: w in g.waiting && Clears(w, g.bits + bits, b))
              && !(Met(g.bits + bits, wanted, true) && b in wanted)
  {
    SetResult(g, bits, SetBits(g, bits));
    SyncKeeps(g, t, bits, wanted, mayBlock);
    Enqueued(SetBits(g, bits), t, wanted, true, true);
    ReleasedMembers(g.waiting, g.bits + bits);
  }

  /** After a timeout the task gets the bits as they are, and if its condition is met after all and it asked for
      that, the bits it waited for are cleared. */
  lemma TimeOutResult(g: Group, wanted: Bits, clear: bool, all: bool, g': Group, r: Bits)
    requires Inv(g) && (g', r) == AfterTimeOut(g, wanted, clear, all)
    ensures Inv(g') && r == g.bits && g'.waiting == g.waiting && g'.released == g.released
    ensures forall b :: b in g'.bits <==> b in g.bits && !(clear && b in wanted && Met(g.bits, wanted, all))
  {
    ClearBitsKeeps(g, wanted);
  }

  // ---------- the object ----------

  class EventGroup {
    var bits: Bits
    var waiting: seq<Item>
    ghost var released: seq<Item>

    ghost function View(): Group
      reads this
    {
      Group(bits, waiting, released)
    }

    constructor ()
      ensures View() == Group({}, [], []) && Inv(View())
    {
      bits, waiting, released := {}, [], [];
    }

    /** xEventGroupSetBits: exactly the tasks whose condition is met then leave the list. */
    method Set(set_: Bits) returns (now: Bits)
      requires Inv(View()) && Enabled(View(), Step.Set(set_))
      modifies this
      ensures Inv(View()) && View() == Next(old(View()), Step.Set(set_)) && now == bits
      ensures forall w | w in old(waiting) :: w in waiting <==> !Satisfied(w.value, old(bits) + set_)
      ensures |released| - |old(released)| == |old(waiting)| - |waiting|
      ensures forall w | w in old(waiting) && Satisfied(w.value, old(bits) + set_) ::
                Item(w.task, ReleaseValue(old(bits) + set_)) in released
      ensures forall b :: b in bits <==>
                          b in old(bits) + set_ && !exists w :: w in old(waiting) && Clears(w, old(bits) + set_, b)
    {
      ghost var g := View();
      now := SetAndRelease(set_, g);
      SetResult(g, set_, View());
    }

    method SetAndRelease(set_: Bits, ghost g: Group) returns (now: Bits)
      requires g == View()
      modifies this
      ensures View() == SetBits(g, set_) && now == bits
    {
      bits := bits + set_;
      var clear := ReleaseWaiters();
      bits := bits - clear;
      now := bits;
    }

    /** The walk along the wait list, which takes satisfied items out as it goes */
    method ReleaseWaiters() returns (clear: Bits)
      modifies this`waiting, this`released
      ensures waiting == Kept(old(waiting), bits) && clear == Cleared(old(waiting), bits)
      ensures released == old(released) + Released(old(waiting), bits)
    {
      ghost var s, r := waiting, released;
      ghost var i: nat := 0;
      clear := {};
      var p: nat := 0;
      WalkRange(s, r, bits);
      while p < |waiting|
        invariant 0 <= i <= |s| && Walk(waiting, released, p, clear) == WalkAt(s, r, bits, i)
        decreases |s| - i
      {
        WalkEnd(s, r, bits, i);
        WalkStep(s, r, bits, i);
        p, clear := Visit(p, clear);
        i := i + 1;
      }
      WalkEnd(s, r, bits, i);
    }

    /** One item of the walk: its place in the list, and the bits to clear so far, before and after */
    method Visit(p: nat, clear: Bits) returns (next: nat, cleared: Bits)
      requires p < |waiting|
      modifies this`waiting, this`released
      ensures Walk(waiting, released, next, cleared) == Visited(Walk(old(waiting), old(released), p, clear), bits)
    {
      var item := waiting[p];
      var found := Match(item.value);
      next, cleared := p, clear;
      if found {
        if CLEAR_ON_EXIT in item.value * CONTROL {
          cleared := clear + (item.value - CONTROL);
        }
        released := released + [Item(item.task, ReleaseValue(bits))];
        waiting := waiting[..p] + waiting[p + 1..];
      } else {
        next := p + 1;
      }
    }

    /** The test on one item, with the control bits split from the bits waited for */
    method Match(value: Bits) returns (found: bool)
      ensures found <==> Satisfied(value, bits)
      ensures found <==> if WAIT_FOR_ALL in value then forall b | b in value && b !in CONTROL :: b in bits
                         else exists b :: b in value && b !in CONTROL && b in bits
    {
      MetMeaning(bits, Wanted(value), WAIT_FOR_ALL in value);
      var control, wanted := value * CONTROL, value - CONTROL;
      found := false;
      if WAIT_FOR_ALL !in control {
        if wanted * bits != {} {
          found := true;
        }
      } else if wanted * bits == wanted {
        found := true;
      }
      assert wanted * bits == bits * wanted;
    }

    /** xEventGroupClearBits: no condition becomes met by it, so nobody has to be released. */
    method Clear(mask: Bits) returns (before: Bits)
      requires Inv(View()) && Enabled(View(), Step.Clear(mask))
      modifies this`bits
      ensures Inv(View()) && View() == Next(old(View()), Step.Clear(mask))
      ensures before == old(bits) && bits <= before && bits * mask == {} && before <= bits + mask
    {
      ClearBitsKeeps(View(), mask);
      before := bits;
      bits := bits - mask;
    }

    /** xEventGroupWaitBits up to the point where the task may block */
    method Wait(t: Task, wanted: Bits, clear: bool, all: bool, mayBlock: bool) returns (r: Outcome)
      requires Inv(View()) && Enabled(View(), Step.Wait(t, wanted, clear, all, mayBlock))
      modifies this`bits, this`waiting
      ensures Inv(View()) && View() == Next(old(View()), Step.Wait(t, wanted, clear, all, mayBlock))
      ensures r.Blocks? <==> !Met(old(bits), wanted, all) && mayBlock
      ensures r.Blocks? ==> bits == old(bits) && Queued(old(View()), View(), t, wanted, clear, all)
      ensures r.Returns? ==> r.bits == old(bits) && waiting == old(waiting)
      ensures r.Returns? ==> bits == if Met(old(bits), wanted, all) && clear then old(bits) - wanted else old(bits)
    {
      ghost var g := View();
      r := AwaitBits(t, wanted, clear, all, mayBlock, g);
      WaitResult(g, t, wanted, clear, all, mayBlock, View(), r);
    }

    method AwaitBits(t: Task, wanted: Bits, clear: bool, all: bool, mayBlock: bool, ghost g: Group) returns (r: Outcome)
      requires g == View()
      modifies this`bits, this`waiting
      ensures (View(), r) == WaitBits(g, t, wanted, clear, all, mayBlock)
    {
      if Met(bits, wanted, all) {
        r := Returns(bits);
        if clear {
          bits := bits - wanted;
        }
      } else if !mayBlock {
        r := Returns(bits);
      } else {
        var control: Bits := {};
        if clear {
          control := control + {CLEAR_ON_EXIT};
        }
        if all {
          control := control + {WAIT_FOR_ALL};
        }
        assert wanted + control + {IN_USE} == ItemValue(wanted, clear, all);
        waiting := waiting + [Item(t, wanted + control + {IN_USE})];
        r := Blocks;
      }
    }

    /** xEventGroupSync up to the point where the task may block */
    method Synchronize(t: Task, set_: Bits, wanted: Bits, mayBlock: bool) returns (r: Outcome)
      requires Inv(View()) && Enabled(View(), Meet(t, set_, wanted, mayBlock))
      modifies this
      ensures Inv(View()) && View() == Next(old(View()), Meet(t, set_, wanted, mayBlock))
      ensures r.Blocks? <==> !Met(old(bits) + set_, wanted, true) && mayBlock
      ensures r.Blocks? ==> Queued(SetBits(old(View()), set_), View(), t, wanted, true, true)
      ensures Met(old(bits) + set_, wanted, true) ==> r.bits == old(bits) + set_ && bits * wanted == {}
      ensures forall w | w in old(waiting) && Satisfied(w.value, old(bits) + set_) ::
                Item(w.task, ReleaseValue(old(bits) + set_)) in released
      ensures forall b :: b in bits <==>
                && b in old(bits) + set_ && !(exists w :: w in old(waiting) && Clears(w, old(bits) + set_, b))
                && !(Met(old(bits) + set_, wanted, true) && b in wanted)
      ensures !Met(old(bits) + set_, wanted, true) && !mayBlock ==> r == Returns(bits)
    {
      ghost var g := View();
      r := SetAndAwait(t, set_, wanted, mayBlock, g);
      SyncResult(g, t, set_, wanted, mayBlock, View(), r);
    }

    method SetAndAwait(t: Task, set_: Bits, wanted: Bits, mayBlock: bool, ghost g: Group) returns (r: Outcome)
      requires g == View() && Inv(g) && set_ * CONTROL == {}
      modifies this
      ensures (View(), r) == Sync(g, t, set_, wanted, mayBlock)
    {
      var original := bits;
      var _ := Set(set_);
      if (original + set_) * wanted == wanted {
        r := Returns(original + set_);
        bits := bits - wanted;
      } else if mayBlock {
        waiting := waiting + [Item(t, wanted + {CLEAR_ON_EXIT} + {WAIT_FOR_ALL} + {IN_USE})];
        r := Blocks;
      } else {
        r := Returns(bits);
      }
    }
  }
}
