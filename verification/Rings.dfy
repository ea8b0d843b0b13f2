/**
  Turn order of the kernel's circular list (FreeRTOS/Source/list.c).

  A `Ring` is the abstract value of a list: its items from head to tail and the place of
  its cursor (pxIndex), where 0 is the end marker and c > 0 is the c-th item.
*/
module Rings {

  datatype Ring<T> = Ring(items: seq<T>, cursor: nat) {
    ghost predicate Valid() {
      && cursor <= |items|
      && Distinct(items)
    }
  }

  ghost predicate Distinct<T>(s: seq<T>) {
    forall x | x in s :: multiset(s)[x] == 1
  }

  lemma DistinctIndices<T>(s: seq<T>)
    ensures Distinct(s) <==> forall i, j | 0 <= i < j < |s| :: s[i] != s[j]
  {
    if Distinct(s) {
      forall i, j | 0 <= i < j < |s|
        ensures s[i] != s[j]
      {
        assert s == s[..j] + [s[j]] + s[j + 1..];
        assert s[i] in multiset(s[..j]) by { assert s[..j][i] == s[i]; }
        assert multiset(s)[s[j]] == 1;
      }
    } else {
      var x :| x in s && multiset(s)[x] != 1;
      var i :| 0 <= i < |s| && s[i] == x;
      var rest := s[..i] + s[i + 1..];
      assert s == s[..i] + [x] + s[i + 1..];
      assert x in multiset(rest);
      var j :| 0 <= j < |rest| && rest[j] == x;
      assert s[if j < i then j else j + 1] == x;
    }
  }

  lemma DistinctAfterInsertion<T>(s: seq<T>, p: nat, x: T)
    requires Distinct(s) && p <= |s| && x !in s
    ensures Distinct(s[..p] + [x] + s[p..])
  {
    assert s == s[..p] + s[p..];
    var u := s[..p] + [x] + s[p..];
    assert multiset(u) == multiset(s) + multiset{x};
    forall y | y in u
      ensures multiset(u)[y] == 1
    {
      assert y == x || y in s;
    }
  }

  lemma DistinctAfterRemoval<T>(s: seq<T>, p: nat)
    requires Distinct(s) && p < |s|
    ensures Distinct(s[..p] + s[p + 1..]) && s[p] !in s[..p] + s[p + 1..]
  {
    assert s == s[..p] + [s[p]] + s[p + 1..];
    var u := s[..p] + s[p + 1..];
    assert multiset(s) == multiset(u) + multiset{s[p]};
    assert multiset(s)[s[p]] == 1;
    forall y | y in u
      ensures multiset(u)[y] == 1
    {
      assert y in s && y in multiset(u);
    }
  }

  /** The items in the order in which the next |items| selections visit them. */
  function Turns<T>(r: Ring<T>): (turns: seq<T>)
    requires r.cursor <= |r.items|
  {
    r.items[r.cursor..] + r.items[..r.cursor]
  }

  /** Advance the cursor to the next item, skipping the end marker. */
  function Select<T>(r: Ring<T>): Ring<T>
    requires |r.items| > 0
  {
    r.(cursor := if r.cursor >= |r.items| then 1 else r.cursor + 1)
  }

  /** Link a new item in just before the cursor. */
  function InsertEnd<T>(r: Ring<T>, x: T): Ring<T> {
    if 0 < r.cursor <= |r.items| then Ring(r.items[..r.cursor - 1] + [x] + r.items[r.cursor - 1..], r.cursor + 1)
    else r.(items := r.items + [x])
  }

  /** Link a new item in at position `p`; the cursor stays on the item it was on. */
  function InsertAt<T>(r: Ring<T>, p: nat, x: T): Ring<T>
    requires p <= |r.items|
  {
    Ring(r.items[..p] + [x] + r.items[p..], if p < r.cursor then r.cursor + 1 else r.cursor)
  }

  /** Unlink the item at position `p`.  A cursor on that item moves back to its predecessor. */
  function Remove<T>(r: Ring<T>, p: nat): Ring<T>
    requires p < |r.items|
  {
    Ring(r.items[..p] + r.items[p + 1..], if p < r.cursor then r.cursor - 1 else r.cursor)
  }

  /** The place in the turn order of the item at position `p`. */
  function TurnOf<T>(r: Ring<T>, p: nat): (t: nat)
    requires p < |r.items| && r.cursor <= |r.items|
    ensures t < |Turns(r)| && Turns(r)[t] == r.items[p]
  {
    if p < r.cursor then |r.items| - r.cursor + p else p - r.cursor
  }

  /** A selection serves the first turn and sends that item to the back of the turn order. */
  lemma SelectServesFirstTurn<T>(r: Ring<T>)
    requires r.Valid() && |r.items| > 0
    ensures var s := Select(r);
            && s.Valid() && s.cursor > 0
            && s.items[s.cursor - 1] == Turns(r)[0]
            && Turns(s) == Turns(r)[1..] + [Turns(r)[0]]
  {
    var s := Select(r);
    if r.cursor < |r.items| {
      assert r.items[r.cursor..] == [r.items[r.cursor]] + r.items[s.cursor..];
      assert r.items[..s.cursor] == r.items[..r.cursor] + [r.items[r.cursor]];
    } else {
      assert Turns(r) == r.items;
    }
  }

  /** The ring after k selections */
  ghost function SelectMany<T>(r: Ring<T>, k: nat): Ring<T>
    requires r.Valid() && |r.items| > 0
    ensures SelectMany(r, k).Valid() && SelectMany(r, k).items == r.items
  {
    if k == 0 then r else Select(SelectMany(r, k - 1))
  }

  function Rotated<T>(t: seq<T>, k: nat): (r: seq<T>)
    requires k <= |t|
    ensures |r| == |t|
  {
    t[k..] + t[..k]
  }

  lemma RotatedAgain<T>(t: seq<T>, k: nat)
    requires k < |t|
    ensures Rotated(t, k)[0] == t[k] && Rotated(t, k)[1..] + [Rotated(t, k)[0]] == Rotated(t, k + 1)
  {
    assert t[k..] == [t[k]] + t[k + 1..];
    assert t[..k + 1] == t[..k] + [t[k]];
  }

  /** Selection k + 1 serves turn k, so |items| selections serve every item once, and after them the turn
      order is what it was. */
  lemma {:induction false} FullRound<T>(r: Ring<T>, k: nat)
    requires r.Valid() && |r.items| > 0 && k <= |r.items|
    ensures Turns(SelectMany(r, k)) == Rotated(Turns(r), k)
    ensures k < |r.items| ==> Turns(SelectMany(r, k))[0] == Turns(r)[k]
    ensures k == |r.items| ==> Turns(SelectMany(r, k)) == Turns(r)
  {
    if k > 0 {
      FullRound(r, k - 1);
      NextRound(Turns(r), k - 1, SelectMany(r, k - 1));
    }
  }

  lemma NextRound<T>(t: seq<T>, k: nat, r: Ring<T>)
    requires r.Valid() && |r.items| > 0 && k < |t| && Turns(r) == Rotated(t, k)
    ensures Turns(Select(r)) == Rotated(t, k + 1)
  {
    SelectServesFirstTurn(r);
    RotatedAgain(t, k);
  }

  /** The new item is served after every item except the one now holding the cursor. */
  lemma InsertEndTurn<T>(r: Ring<T>, x: T)
    requires r.Valid() && x !in r.items
    ensures var s := InsertEnd(r, x); var t := Turns(r);
            && s.Valid()
            && Turns(s) == if r.cursor == 0 then t + [x] else t[..|t| - 1] + [x] + [t[|t| - 1]]
  {
    var s := InsertEnd(r, x);
    var c := r.cursor;
    DistinctAfterInsertion(r.items, if c == 0 then |r.items| else c - 1, x);
    if c == 0 {
      assert s.items == r.items[..|r.items|] + [x] + r.items[|r.items|..];
    } else {
      assert s.items[s.cursor..] == r.items[c..];
      assert s.items[..s.cursor] == r.items[..c - 1] + [x] + [r.items[c - 1]];
    }
  }

  /** Removing an item takes it out of the turn order and leaves the order of the others alone,
      also when the cursor rests on the item removed. */
  lemma RemoveKeepsTurns<T>(r: Ring<T>, p: nat)
    requires r.Valid() && p < |r.items|
    ensures var s := Remove(r, p); var t := TurnOf(r, p);
            && s.Valid()
            && Turns(s) == Turns(r)[..t] + Turns(r)[t + 1..]
  {
    DistinctAfterRemoval(r.items, p);
    if p < r.cursor { RemoveServed(r.items, r.cursor, p); } else { RemoveUnserved(r.items, r.cursor, p); }
  }

  lemma RemoveServed<T>(a: seq<T>, c: nat, p: nat)
    requires p < c <= |a|
    ensures var b, k := a[..p] + a[p + 1..], |a| - c + p;
            b[c - 1..] + b[..c - 1] == (a[c..] + a[..c])[..k] + (a[c..] + a[..c])[k + 1..]
  {
    var b := a[..p] + a[p + 1..];
    assert b[c - 1..] == a[c..];
    assert b[..c - 1] == a[..p] + a[p + 1..c];
  }

  lemma RemoveUnserved<T>(a: seq<T>, c: nat, p: nat)
    requires c <= p < |a|
    ensures var b, k := a[..p] + a[p + 1..], p - c;
            b[c..] + b[..c] == (a[c..] + a[..c])[..k] + (a[c..] + a[..c])[k + 1..]
  {
    var b := a[..p] + a[p + 1..];
    assert b[..c] == a[..c];
    assert b[c..] == a[c..p] + a[p + 1..];
  }

  // ---------- runs ----------

  datatype Op<T> = SelectNext | Enter(item: T) | Leave(item: T)

  function Place<T(==)>(s: seq<T>, x: T): (p: nat)
    requires x in s
    ensures p < |s| && s[p] == x
  {
    if s[0] == x then 0 else 1 + Place(s[1..], x)
  }

  ghost predicate Enabled<T>(r: Ring<T>, op: Op<T>) {
    match op
    case SelectNext => |r.items| > 0
    case Enter(x) => x !in r.items
    case Leave(x) => x in r.items
  }

  ghost function Apply<T>(r: Ring<T>, op: Op<T>): Ring<T>
    requires r.Valid() && Enabled(r, op)
  {
    match op
    case SelectNext => Select(r)
    case Enter(x) => InsertEnd(r, x)
    case Leave(x) => Remove(r, Place(r.items, x))
  }

  lemma ApplyValid<T>(r: Ring<T>, op: Op<T>)
    requires r.Valid() && Enabled(r, op)
    ensures Apply(r, op).Valid()
    ensures multiset(Turns(r)) == multiset(r.items)
  {
    assert r.items == r.items[..r.cursor] + r.items[r.cursor..];
    match op
    case SelectNext => SelectServesFirstTurn(r);
    case Enter(x) => InsertEndTurn(r, x);
    case Leave(x) => RemoveKeepsTurns(r, Place(r.items, x));
  }

  /** The operations can be carried out one after the other, and none of them serves or removes `x`. */
  ghost predicate RunWithout<T>(r: Ring<T>, ops: seq<Op<T>>, x: T)
    requires r.Valid()
    decreases |ops|
  {
    ops == [] ||
    (&& Enabled(r, ops[0])
     && (ops[0].SelectNext? ==> Turns(r)[0] != x)
     && ops[0] != Leave(x)
     && (ApplyValid(r, ops[0]); RunWithout(Apply(r, ops[0]), ops[1..], x)))
  }

  /** How many selections of the run serve `y`. */
  ghost function Served<T>(r: Ring<T>, ops: seq<Op<T>>, x: T, y: T): nat
    requires r.Valid() && RunWithout(r, ops, x)
    decreases |ops|
  {
    if ops == [] then 0
    else
      ApplyValid(r, ops[0]);
      One(ops[0].SelectNext? && Turns(r)[0] == y) + Served(Apply(r, ops[0]), ops[1..], x, y)
  }

  /** The ring after the run */
  ghost function End<T>(r: Ring<T>, ops: seq<Op<T>>, x: T): (e: Ring<T>)
    requires r.Valid() && RunWithout(r, ops, x)
    ensures e.Valid()
    decreases |ops|
  {
    if ops == [] then r
    else
      ApplyValid(r, ops[0]);
      End(Apply(r, ops[0]), ops[1..], x)
  }

  /** The cursor rests on `x`. */
  predicate Under<T(==)>(r: Ring<T>, x: T)
    requires r.cursor <= |r.items|
  {
    0 < r.cursor && r.items[r.cursor - 1] == x
  }

  /** How often `y` enters while the cursor rests on `x`. */
  ghost function EntriesUnder<T>(r: Ring<T>, ops: seq<Op<T>>, x: T, y: T): nat
    requires r.Valid() && RunWithout(r, ops, x)
    decreases |ops|
  {
    if ops == [] then 0
    else
      ApplyValid(r, ops[0]);
      One(ops[0] == Enter(y) && Under(r, x)) + EntriesUnder(Apply(r, ops[0]), ops[1..], x, y)
  }

  /** How often `y` leaves while it has a turn coming before that of `x`. */
  ghost function LeavesAhead<T>(r: Ring<T>, ops: seq<Op<T>>, x: T, y: T): nat
    requires r.Valid() && RunWithout(r, ops, x)
    decreases |ops|
  {
    if ops == [] then 0
    else
      ApplyValid(r, ops[0]);
      One(ops[0] == Leave(y) && Ahead(r, x, y)) + LeavesAhead(Apply(r, ops[0]), ops[1..], x, y)
  }

  function One(b: bool): nat { if b then 1 else 0 }

  ghost predicate Before<T>(turns: seq<T>, y: T, x: T) {
    exists i, j :: 0 <= i < j < |turns| && turns[i] == y && turns[j] == x
  }

  /** `y` has a turn coming before the turn of `x`. */
  ghost predicate Ahead<T>(r: Ring<T>, x: T, y: T)
    requires r.Valid()
  {
    Before(Turns(r), y, x)
  }

  lemma TurnsDistinct<T>(r: Ring<T>)
    requires r.Valid()
    ensures forall i, j | 0 <= i < j < |Turns(r)| :: Turns(r)[i] != Turns(r)[j]
    ensures forall x :: x in Turns(r) <==> x in r.items
  {
    assert r.items == r.items[..r.cursor] + r.items[r.cursor..];
    assert multiset(Turns(r)) == multiset(r.items);
    DistinctIndices(Turns(r));
  }

  lemma BeforeAfterRotation<T>(t: seq<T>, x: T, y: T)
    requires |t| > 0 && t[0] != x && x in t
    requires forall i, j | 0 <= i < j < |t| :: t[i] != t[j]
    ensures var u := t[1..] + [t[0]];
            && (Before(u, y, x) <==> Before(t, y, x) && t[0] != y)
            && (t[0] == y ==> Before(t, y, x))
  {
    var u := t[1..] + [t[0]];
    if Before(u, y, x) {
      var i, j :| 0 <= i < j < |u| && u[i] == y && u[j] == x;
      assert t[i + 1] == y && t[j + 1] == x;
    }
    if Before(t, y, x) && t[0] != y {
      var i, j :| 0 <= i < j < |t| && t[i] == y && t[j] == x;
      assert u[i - 1] == y && u[j - 1] == x;
    }
    var j :| 0 <= j < |t| && t[j] == x;
    assert t[0] == y ==> Before(t, y, x);
  }

  lemma BeforeAfterInsertion<T>(t: seq<T>, k: nat, z: T, x: T, y: T)
    requires k <= |t| && x != z && y != z
    ensures Before(t[..k] + [z] + t[k..], y, x) <==> Before(t, y, x)
  {
    var u := t[..k] + [z] + t[k..];
    if Before(u, y, x) {
      var i, j :| 0 <= i < j < |u| && u[i] == y && u[j] == x;
      assert t[if i < k then i else i - 1] == y && t[if j < k then j else j - 1] == x;
    }
    if Before(t, y, x) {
      var i, j :| 0 <= i < j < |t| && t[i] == y && t[j] == x;
      assert u[if i < k then i else i + 1] == y && u[if j < k then j else j + 1] == x;
    }
  }

  lemma BeforeAfterRemoval<T>(t: seq<T>, k: nat, x: T, y: T)
    requires k < |t| && t[k] != x
    requires forall i, j | 0 <= i < j < |t| :: t[i] != t[j]
    ensures Before(t[..k] + t[k + 1..], y, x) <==> Before(t, y, x) && t[k] != y
  {
    var u := t[..k] + t[k + 1..];
    if Before(u, y, x) {
      var i, j :| 0 <= i < j < |u| && u[i] == y && u[j] == x;
      assert t[if i < k then i else i + 1] == y && t[if j < k then j else j + 1] == x;
    }
    if Before(t, y, x) && t[k] != y {
      var i, j :| 0 <= i < j < |t| && t[i] == y && t[j] == x;
      assert u[if i < k then i else i - 1] == y && u[if j < k then j else j - 1] == x;
    }
  }

  lemma MemberAfterInsertion<T>(s: seq<T>, k: nat, z: T, x: T)
    requires k <= |s| && x in s
    ensures x in s[..k] + [z] + s[k..]
  {
    assert s == s[..k] + s[k..];
  }

  lemma MemberAfterRemoval<T>(s: seq<T>, k: nat, x: T)
    requires k < |s| && x in s && x != s[k]
    ensures x in s[..k] + s[k + 1..]
  {
    assert s == s[..k] + [s[k]] + s[k + 1..];
  }

  lemma StillPresent<T>(r: Ring<T>, op: Op<T>, x: T)
    requires r.Valid() && Enabled(r, op) && x in r.items && op != Leave(x)
    ensures x in Apply(r, op).items
  {
    match op
    case SelectNext =>
    case Enter(z) =>
      MemberAfterInsertion(r.items, if r.cursor == 0 then |r.items| else r.cursor - 1, z, x);
    case Leave(z) =>
      MemberAfterRemoval(r.items, Place(r.items, z), x);
  }

  /** An item that enters gets a turn ahead of `x` exactly if the cursor rests on `x` at that moment. */
  lemma EnterAheadIff<T>(r: Ring<T>, x: T, y: T)
    requires r.Valid() && x in r.items && y !in r.items && InsertEnd(r, y).Valid()
    ensures Ahead(InsertEnd(r, y), x, y) <==> Under(r, x)
  {
    InsertEndTurn(r, y);
    TurnsDistinct(InsertEnd(r, y));
    TurnsDistinct(r);
    var t, u := Turns(r), Turns(InsertEnd(r, y));
    if r.cursor > 0 {
      assert t[|t| - 1] == r.items[r.cursor - 1];
      assert u[|t| - 1] == y && u[|t|] == t[|t| - 1];
    } else {
      assert u[|t|] == y;
    }
  }

  lemma EnterOther<T>(r: Ring<T>, z: T, x: T, y: T)
    requires r.Valid() && z !in r.items && z != y && z != x && InsertEnd(r, z).Valid()
    ensures Ahead(InsertEnd(r, z), x, y) <==> Ahead(r, x, y)
  {
    InsertEndTurn(r, z);
    var t := Turns(r);
    var k := if r.cursor == 0 then |t| else |t| - 1;
    assert t[k..] == if r.cursor == 0 then [] else [t[|t| - 1]];
    BeforeAfterInsertion(t, k, z, x, y);
  }

  lemma LeaveBalance<T>(r: Ring<T>, p: nat, x: T, y: T)
    requires r.Valid() && p < |r.items| && r.items[p] != x && Remove(r, p).Valid()
    ensures Ahead(Remove(r, p), x, y) <==> Ahead(r, x, y) && r.items[p] != y
  {
    RemoveKeepsTurns(r, p);
    TurnsDistinct(r);
    BeforeAfterRemoval(Turns(r), TurnOf(r, p), x, y);
  }

  lemma SelectBalance<T>(r: Ring<T>, x: T, y: T)
    requires r.Valid() && x in r.items && Turns(r)[0] != x && Select(r).Valid()
    ensures Ahead(Select(r), x, y) <==> Ahead(r, x, y) && Turns(r)[0] != y
    ensures Turns(r)[0] == y ==> Ahead(r, x, y)
  {
    TurnsDistinct(r);
    SelectServesFirstTurn(r);
    BeforeAfterRotation(Turns(r), x, y);
  }

  /** One step: serving `y` uses up its turn ahead of `x`, leaving gives it up, and only an entry while the
      cursor rests on `x` gives a new one. */
  lemma StepBalance<T>(r: Ring<T>, op: Op<T>, x: T, y: T)
    requires r.Valid() && Enabled(r, op) && x in r.items && x != y
    requires op.SelectNext? ==> Turns(r)[0] != x
    requires op != Leave(x)
    ensures Apply(r, op).Valid() && x in Apply(r, op).items
    ensures One(op.SelectNext? && Turns(r)[0] == y) + One(op == Leave(y) && Ahead(r, x, y)) + One(Ahead(Apply(r, op), x, y))
         == One(Ahead(r, x, y)) + One(op == Enter(y) && Under(r, x))
  {
    StillPresent(r, op, x);
    ApplyValid(r, op);
    match op
    case SelectNext => SelectBalance(r, x, y);
    case Enter(z) =>
      if z == y {
        AbsentNotAhead(r, x, y);
        EnterAheadIff(r, x, y);
      } else {
        EnterOther(r, z, x, y);
      }
    case Leave(z) => LeaveBalance(r, Place(r.items, z), x, y);
  }

  lemma AbsentNotAhead<T>(r: Ring<T>, x: T, y: T)
    requires r.Valid() && y !in r.items
    ensures !Ahead(r, x, y)
  {
    TurnsDistinct(r);
  }

  /** Over every run that has not yet served x, the turns ahead of x that y had at the start or won by an
      entry while the cursor rested on x are those it was served, those it gave up by leaving, and the one
      it still has. */
  lemma {:induction false} TurnsBeforeFirst<T>(r: Ring<T>, ops: seq<Op<T>>, x: T, y: T)
    requires r.Valid() && x in r.items && x != y
    requires RunWithout(r, ops, x)
    ensures Served(r, ops, x, y) + LeavesAhead(r, ops, x, y) + One(Ahead(End(r, ops, x), x, y))
         == One(Ahead(r, x, y)) + EntriesUnder(r, ops, x, y)
    decreases |ops|
  {
    if ops != [] {
      StepBalance(r, ops[0], x, y);
      TurnsBeforeFirst(Apply(r, ops[0]), ops[1..], x, y);
    }
  }

  lemma NewBefore<T>(t: seq<T>, k: nat, x: T, y: T)
    requires |t| - 1 <= k <= |t| && x !in t && y != x
    requires forall i, j | 0 <= i < j < |t| :: t[i] != t[j]
    ensures Before(t[..k] + [x] + t[k..], y, x) <==> y in t && !(k < |t| && t[k] == y)
  {
    var u := t[..k] + [x] + t[k..];
    if y in t && !(k < |t| && t[k] == y) {
      var i :| 0 <= i < |t| && t[i] == y;
      assert u[i] == y && u[k] == x;
    }
    if Before(u, y, x) {
      var i, j :| 0 <= i < j < |u| && u[i] == y && u[j] == x;
      assert j == k && t[i] == y;
    }
  }

  /** The place `k` in the turn order that an item gets when it is linked in */
  lemma NewTurn<T>(r: Ring<T>, x: T, t: seq<T>, k: nat)
    requires r.Valid() && x !in r.items && t == Turns(r) && k == if r.cursor == 0 then |t| else |t| - 1
    ensures Turns(InsertEnd(r, x)) == t[..k] + [x] + t[k..]
  {
    InsertEndTurn(r, x);
    assert t[k..] == if r.cursor == 0 then [] else [t[|t| - 1]];
  }

  /** The item under the cursor has the last turn. */
  lemma LastTurn<T>(r: Ring<T>, t: seq<T>, k: nat, y: T)
    requires r.Valid() && t == Turns(r) && k == if r.cursor == 0 then |t| else |t| - 1
    ensures (k < |t| && t[k] == y) <==> Under(r, y)
    ensures y in t <==> y in r.items
  {
    assert r.items == r.items[..r.cursor] + r.items[r.cursor..];
  }

  /** An item just linked in waits for every other item but the one the cursor rests on. */
  lemma AheadOfNew<T>(r: Ring<T>, x: T, y: T)
    requires r.Valid() && x !in r.items && x != y && InsertEnd(r, x).Valid()
    ensures x in InsertEnd(r, x).items
    ensures Ahead(InsertEnd(r, x), x, y) <==> y in r.items && !Under(r, y)
  {
    var t := Turns(r);
    var k := if r.cursor == 0 then |t| else |t| - 1;
    NewTurn(r, x, t, k);
    LastTurn(r, t, k, x);
    LastTurn(r, t, k, y);
    TurnsDistinct(r);
    NewBefore(t, k, x, y);
    LinkedIn(r, x);
  }

  lemma LinkedIn<T>(r: Ring<T>, x: T)
    requires r.cursor <= |r.items|
    ensures x in InsertEnd(r, x).items
  {
    assert InsertEnd(r, x).items[if r.cursor == 0 then |r.items| else r.cursor - 1] == x;
  }

  /** Before the first turn of an item just entered, y gets no second turn exactly if its entries while the
      cursor rested on x did not outnumber the turns ahead of x that it gave up or did not have: in particular
      if it made no such entry, however often it left and came back otherwise. */
  lemma NoSecondTurnIff<T>(r: Ring<T>, x: T, ops: seq<Op<T>>, y: T)
    requires r.Valid() && x !in r.items && x != y
    requires InsertEnd(r, x).Valid() && RunWithout(InsertEnd(r, x), ops, x)
    ensures var s := InsertEnd(r, x);
            && (Served(s, ops, x, y) <= 1 <==>
                  EntriesUnder(s, ops, x, y) <= LeavesAhead(s, ops, x, y) + One(Ahead(End(s, ops, x), x, y))
                                                + One(y !in r.items || Under(r, y)))
            && (EntriesUnder(s, ops, x, y) == 0 ==> Served(s, ops, x, y) <= One(y in r.items && !Under(r, y)))
  {
    AheadOfNew(r, x, y);
    TurnsBeforeFirst(InsertEnd(r, x), ops, x, y);
  }

  /** Unfolds the first operation of a run. */
  lemma FirstStep<T>(r: Ring<T>, op: Op<T>, rest: seq<Op<T>>, s: Ring<T>, x: T, y: T, n: nat)
    requires r.Valid() && s.Valid() && Enabled(r, op) && Apply(r, op) == s
    requires op.SelectNext? ==> Turns(r)[0] != x
    requires op != Leave(x)
    requires RunWithout(s, rest, x) && Served(s, rest, x, y) == n
    ensures RunWithout(r, [op] + rest, x)
    ensures Served(r, [op] + rest, x, y) == n + One(op.SelectNext? && Turns(r)[0] == y)
  {
    assert ([op] + rest)[1..] == rest;
  }

  lemma LeaveSecond()
    ensures Ring([7, 2], 2).Valid() && Enabled(Ring([7, 2], 2), Leave(2)) && Apply(Ring([7, 2], 2), Leave(2)) == Ring([7], 1)
  {
    DistinctIndices([7, 2]);
    assert Place([7, 2], 2) == 1;
  }

  lemma LeaveUnder()
    ensures InsertEnd(Ring([1, 2], 1), 7) == Ring([7, 1, 2], 2)
    ensures Ring([7, 1, 2], 2).Valid() && Enabled(Ring([7, 1, 2], 2), Leave(1))
    ensures Apply(Ring([7, 1, 2], 2), Leave(1)) == Ring([7, 2], 1)
  {
    DistinctIndices([7, 1, 2]);
    assert Place([7, 1, 2], 1) == 1;
  }

  lemma ReturnAndServe() returns (ops: seq<Op<int>>)
    ensures Ring([7, 2], 2).Valid() && RunWithout(Ring([7, 2], 2), ops, 7)
    ensures Served(Ring([7, 2], 2), ops, 7, 2) == 1
  {
    DistinctIndices([7]);
    DistinctIndices([2, 7]);
    DistinctIndices([7, 2]);
    var r := Ring([2, 7], 2);
    FirstStep(r, SelectNext, [], Ring([2, 7], 1), 7, 2, 0);
    FirstStep(Ring([7], 1), Enter(2), [SelectNext] + [], r, 7, 2, 1);
    LeaveSecond();
    FirstStep(Ring([7, 2], 2), Leave(2), [Enter(2)] + ([SelectNext] + []), Ring([7], 1), 7, 2, 1);
    ops := [Leave(2)] + ([Enter(2)] + ([SelectNext] + []));
  }

  lemma ServeThenReturn() returns (ops: seq<Op<int>>)
    ensures Ring([7, 2], 1).Valid() && RunWithout(Ring([7, 2], 1), ops, 7)
    ensures Served(Ring([7, 2], 1), ops, 7, 2) == 2
  {
    var tail := ReturnAndServe();
    DistinctIndices([7, 2]);
    assert Turns(Ring([7, 2], 1)) == [2, 7];
    FirstStep(Ring([7, 2], 1), SelectNext, tail, Ring([7, 2], 2), 7, 2, 1);
    ops := [SelectNext] + tail;
    assert ops[1..] == tail;
  }

  /** An item that leaves and comes back can be served twice.  Item 7 has just been linked in before
      the cursor's item 1; when 1 leaves, the cursor falls back onto the waiting 7, and when 2 leaves
      and returns it is linked in before 7.  The run is: 1 leaves, 2 is served, 2 leaves, 2 enters,
      2 is served. */
  lemma ReturningItemIsServedTwice() returns (ops: seq<Op<int>>)
    ensures InsertEnd(Ring([1, 2], 1), 7) == Ring([7, 1, 2], 2)
    ensures Ring([7, 1, 2], 2).Valid() && RunWithout(Ring([7, 1, 2], 2), ops, 7)
    ensures Served(Ring([7, 1, 2], 2), ops, 7, 2) == 2
  {
    var tail := ServeThenReturn();
    LeaveUnder();
    FirstStep(Ring([7, 1, 2], 2), Leave(1), tail, Ring([7, 2], 1), 7, 2, 2);
    ops := [Leave(1)] + tail;
  }

  // ---------- order ----------

  ghost predicate Sorted(values: seq<nat>) {
    forall i, j | 0 <= i < j < |values| :: values[i] <= values[j]
  }

  /** Insertion behind the leading values of at most `v` keeps a sequence sorted, and puts the new value
      behind every equal one. */
  lemma SortedInsertion(values: seq<nat>, v: nat, p: nat)
    requires Sorted(values) && p <= |values|
    requires forall i | 0 <= i < p :: values[i] <= v
    requires p < |values| ==> values[p] > v
    ensures Sorted(values[..p] + [v] + values[p..])
    ensures forall i | 0 <= i < |values| :: i < p <==> values[i] <= v
  {
  }
}
