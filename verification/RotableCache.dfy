/**
  The cache of read-only table entries (Lua/common/cache.c) and the scan that it must agree with
  (Lua/common/lrotable.c).
*/
module RotableCaches {
  import opened Options

  type TableId = nat

  /** An entry of a read-only table; the value stands for the address of the Lua value. */
  datatype Entry = Entry(key: string, value: int)

  type Tables = map<TableId, seq<Entry>>

  datatype Slot = Empty | Holds(table: TableId, index: nat)

  // ---------- the scan ----------

  /** The first entry with the key, or the length of the table */
  function FirstMatch(entries: seq<Entry>, key: string): (i: nat)
    ensures i <= |entries| && (i < |entries| ==> entries[i].key == key)
    ensures forall j | 0 <= j < i :: entries[j].key != key
  {
    if entries == [] || entries[0].key == key then 0 else 1 + FirstMatch(entries[1..], key)
  }

  lemma {:induction false} FirstMatchUnique(entries: seq<Entry>, key: string, i: nat)
    requires i < |entries| && entries[i].key == key && forall j | 0 <= j < i :: entries[j].key != key
    ensures FirstMatch(entries, key) == i
  {
  }

  /** The plain lookup, without a cache */
  function Lookup(tables: Tables, r: TableId, key: string): Option<int>
    requires r in tables
  {
    var i := FirstMatch(tables[r], key);
    if i < |tables[r]| then Some(tables[r][i].value) else None
  }

  /** It gives the value of the first entry with the key, and none exactly if there is no such entry. */
  lemma LookupMeaning(tables: Tables, r: TableId, key: string, v: int)
    requires r in tables
    ensures Lookup(tables, r, key) == Some(v) <==>
            exists i :: && 0 <= i < |tables[r]| && tables[r][i] == Entry(key, v)
                        && forall j | 0 <= j < i :: tables[r][j].key != key
    ensures Lookup(tables, r, key) == None <==> forall e | e in tables[r] :: e.key != key
  {
    var t, i := tables[r], FirstMatch(tables[r], key);
    if i < |t| {
      assert t[i] == Entry(key, t[i].value);
    }
    forall k | 0 <= k < |t| && t[k].key == key && forall j | 0 <= j < k :: t[j].key != key
      ensures k == i
    {
      FirstMatchUnique(t, key, k);
    }
  }

  // ---------- the cache as a list of slots, most recent first ----------

  function Promoted(c: seq<Slot>, i: nat): seq<Slot>
    requires i < |c|
  {
    [c[i]] + c[..i] + c[i + 1..]
  }

  function Recycled(c: seq<Slot>, s: Slot): seq<Slot>
    requires c != []
  {
    [s] + c[..|c| - 1]
  }

  predicate Matches(s: Slot, tables: Tables, r: TableId, key: string) {
    s.Holds? && s.table == r && r in tables && s.index < |tables[r]| && tables[r][s.index].key == key
  }

  /** The first slot that holds the key, or the length of the cache */
  function Cached(c: seq<Slot>, tables: Tables, r: TableId, key: string): (i: nat)
    ensures i <= |c| && (i < |c| ==> Matches(c[i], tables, r, key))
    ensures forall j | 0 <= j < i :: !Matches(c[j], tables, r, key)
  {
    if c == [] || Matches(c[0], tables, r, key) then 0 else 1 + Cached(c[1..], tables, r, key)
  }

  /** luaR_auxfind and luaR_findglobal on the list of slots: the new list and the result */
  function Find(c: seq<Slot>, tables: Tables, r: TableId, key: string): (seq<Slot>, Option<int>)
    requires r in tables && c != []
  {
    var h := Cached(c, tables, r, key);
    if h < |c| then (Promoted(c, h), Some(tables[r][c[h].index].value))
    else
      var i := FirstMatch(tables[r], key);
      if i < |tables[r]| then (Recycled(c, Holds(r, i)), Some(tables[r][i].value)) else (c, None)
  }

  // ---------- transparency ----------

  /** Each slot in use holds the first entry with its key. */
  ghost predicate Coherent(c: seq<Slot>, tables: Tables) {
    forall s | s in c && s.Holds? ::
      && s.table in tables && s.index < |tables[s.table]|
      && FirstMatch(tables[s.table], tables[s.table][s.index].key) == s.index
  }

  /** A cached lookup gives what the plain scan gives, and leaves the cache coherent. */
  lemma FindIsLookup(c: seq<Slot>, tables: Tables, r: TableId, key: string)
    requires r in tables && c != [] && Coherent(c, tables)
    ensures Find(c, tables, r, key).1 == Lookup(tables, r, key)
    ensures Coherent(Find(c, tables, r, key).0, tables) && |Find(c, tables, r, key).0| == |c|
  {
    var h := Cached(c, tables, r, key);
    var c' := Find(c, tables, r, key).0;
    if h < |c| {
      assert c[h] in c;
    }
    forall s | s in c' && s.Holds?
      ensures s.table in tables && s.index < |tables[s.table]|
      ensures FirstMatch(tables[s.table], tables[s.table][s.index].key) == s.index
    {
      assert s in c || s == Holds(r, FirstMatch(tables[r], key));
    }
  }

  datatype Query = Query(table: TableId, key: string)

  function Run(c: seq<Slot>, tables: Tables, qs: seq<Query>): (seq<Slot>, seq<Option<int>>)
    requires c != [] && forall q | q in qs :: q.table in tables
    decreases |qs|
  {
    if qs == [] then (c, [])
    else
      var (c1, v) := Find(c, tables, qs[0].table, qs[0].key);
      var (c2, vs) := Run(c1, tables, qs[1..]);
      (c2, [v] + vs)
  }

  function Cold(n: nat): seq<Slot> {
    seq(n, _ => Empty)
  }

  /** Any sequence of cached lookups answers each query as the plain scan does. */
  lemma {:induction false} RunIsTransparent(c: seq<Slot>, tables: Tables, qs: seq<Query>)
    requires c != [] && Coherent(c, tables) && forall q | q in qs :: q.table in tables
    ensures var vs := Run(c, tables, qs).1;
            |vs| == |qs| && forall i | 0 <= i < |qs| :: vs[i] == Lookup(tables, qs[i].table, qs[i].key)
    decreases |qs|
  {
    if qs != [] {
      FindIsLookup(c, tables, qs[0].table, qs[0].key);
      RunIsTransparent(Find(c, tables, qs[0].table, qs[0].key).0, tables, qs[1..]);
    }
  }

  // ---------- the order of the slots ----------

  /** The entry that a query finds */
  function Target(tables: Tables, q: Query): Slot
    requires q.table in tables
  {
    var i := FirstMatch(tables[q.table], q.key);
    if i < |tables[q.table]| then Holds(q.table, i) else Empty
  }

  function Drop(d: seq<Slot>, s: Slot): seq<Slot> {
    if d == [] then [] else if d[0] == s then Drop(d[1..], s) else [d[0]] + Drop(d[1..], s)
  }

  /** The entries found so far, each once, most recently found first */
  function Recent(tables: Tables, qs: seq<Query>): seq<Slot>
    requires forall q | q in qs :: q.table in tables
    decreases |qs|
  {
    if qs == [] then []
    else
      var s := Target(tables, qs[|qs| - 1]);
      var d := Recent(tables, qs[..|qs| - 1]);
      if s == Empty then d else [s] + Drop(d, s)
  }

  /** The first n of them, filled up with empty slots */
  function Padded(d: seq<Slot>, n: nat): seq<Slot> {
    if |d| >= n then d[..n] else d + Cold(n - |d|)
  }

  predicate Unique(d: seq<Slot>) {
    forall i, j | 0 <= i < j < |d| :: d[i] != d[j]
  }

  lemma {:induction false} DropAbsent(d: seq<Slot>, s: Slot)
    requires s !in d
    ensures Drop(d, s) == d
  {
    if d != [] {
      DropAbsent(d[1..], s);
    }
  }

  lemma {:induction false} DropAt(d: seq<Slot>, i: nat)
    requires Unique(d) && i < |d|
    ensures Drop(d, d[i]) == d[..i] + d[i + 1..]
  {
    if i == 0 {
      assert d[0] !in d[1..];
      DropAbsent(d[1..], d[0]);
    } else {
      assert d[1..][i - 1] == d[i];
      DropAt(d[1..], i - 1);
    }
  }

  lemma UniqueCons(x: Slot, d: seq<Slot>)
    requires Unique(d) && x !in d
    ensures Unique([x] + d)
  {
  }

  lemma {:induction false} DropMembers(d: seq<Slot>, s: Slot)
    ensures forall x :: x in Drop(d, s) <==> x in d && x != s
    ensures Unique(d) ==> Unique(Drop(d, s))
  {
    if d != [] {
      DropMembers(d[1..], s);
      if Unique(d) && d[0] != s {
        assert d[0] !in d[1..];
        assert d[0] !in Drop(d[1..], s);
        UniqueCons(d[0], Drop(d[1..], s));
      }
    }
  }

  lemma {:induction false} RecentUnique(tables: Tables, qs: seq<Query>)
    requires forall q | q in qs :: q.table in tables
    ensures Unique(Recent(tables, qs)) && Empty !in Recent(tables, qs)
    ensures Coherent(Recent(tables, qs), tables)
    decreases |qs|
  {
    if qs != [] {
      var s := Target(tables, qs[|qs| - 1]);
      var d := Recent(tables, qs[..|qs| - 1]);
      RecentUnique(tables, qs[..|qs| - 1]);
      DropMembers(d, s);
      if s != Empty {
        UniqueCons(s, Drop(d, s));
        CoherentCons(s, Drop(d, s), tables);
      }
    }
  }

  lemma CoherentCons(s: Slot, d: seq<Slot>, tables: Tables)
    requires Coherent(d, tables) && (s.Holds? ==> Coherent([s], tables))
    ensures Coherent([s] + d, tables)
  {
    assert s in [s];
  }

  lemma PromotedSlots(c: seq<Slot>, i: nat)
    requires i < |c|
    ensures |Promoted(c, i)| == |c|
    ensures forall j | 0 <= j < |c| :: Promoted(c, i)[j] == if j == 0 then c[i] else if j <= i then c[j - 1] else c[j]
  {
  }

  lemma PaddedSlots(d: seq<Slot>, n: nat)
    ensures |Padded(d, n)| == n
    ensures forall j | 0 <= j < n :: Padded(d, n)[j] == if j < |d| then d[j] else Empty
  {
  }

  lemma PromotePaddedAt(d: seq<Slot>, n: nat, i: nat, c: seq<Slot>, e: seq<Slot>, j: nat)
    requires i < n && i < |d| && j < n && c == Padded(d, n) && e == Promoted(d, i)
    ensures |c| == n && Promoted(c, i)[j] == Padded(e, n)[j]
  {
    PaddedSlots(d, n);
    PaddedSlots(e, n);
    PromotedSlots(d, i);
    PromotedSlots(c, i);
  }

  /** Moving an entry to the front of the list it is on */
  lemma PromotePadded(d: seq<Slot>, n: nat, i: nat)
    requires Unique(d) && i < n && i < |d|
    ensures Promoted(Padded(d, n), i) == Padded([d[i]] + Drop(d, d[i]), n)
  {
    PromotedDrop(d, i);
    PaddedSlots(d, n);
    PaddedSlots(Promoted(d, i), n);
    PromotedSlots(Padded(d, n), i);
    forall j | 0 <= j < n
      ensures Promoted(Padded(d, n), i)[j] == Padded(Promoted(d, i), n)[j]
    {
      PromotePaddedAt(d, n, i, Padded(d, n), Promoted(d, i), j);
    }
    SameSlots(Promoted(Padded(d, n), i), Padded(Promoted(d, i), n));
  }

  lemma PromotedDrop(d: seq<Slot>, i: nat)
    requires Unique(d) && i < |d|
    ensures [d[i]] + Drop(d, d[i]) == Promoted(d, i)
  {
    DropAt(d, i);
    Regroup([d[i]], d[..i], d[i + 1..]);
  }

  lemma Regroup(a: seq<Slot>, b: seq<Slot>, c: seq<Slot>)
    ensures a + (b + c) == a + b + c
  {
  }

  lemma SameSlots(x: seq<Slot>, y: seq<Slot>)
    requires |x| == |y| && forall j | 0 <= j < |x| :: x[j] == y[j]
    ensures x == y
  {
  }

  /** A new entry at the front, in place of what is last */
  lemma RecyclePadded(d: seq<Slot>, n: nat, s: Slot)
    requires n > 0
    ensures Recycled(Padded(d, n), s) == Padded([s] + d, n)
  {
  }

  /** An entry beyond the length of the cache does not matter. */
  lemma DropBeyond(d: seq<Slot>, n: nat, i: nat)
    requires Unique(d) && n <= i + 1 && i < |d| && n > 0
    ensures Padded([d[i]] + Drop(d, d[i]), n) == Padded([d[i]] + d, n)
  {
    DropAt(d, i);
    SameStart(d[i], d, d[..i] + d[i + 1..], n);
  }

  lemma SameStart(x: Slot, d: seq<Slot>, e: seq<Slot>, n: nat)
    requires 0 < n <= |d| && |e| == |d| - 1 && d[..n - 1] == e[..n - 1]
    ensures Padded([x] + e, n) == Padded([x] + d, n)
  {
    assert ([x] + e)[..n] == [x] + e[..n - 1];
    assert ([x] + d)[..n] == [x] + d[..n - 1];
  }

  lemma {:induction false} CachedUnique(c: seq<Slot>, tables: Tables, r: TableId, key: string, p: nat)
    requires p < |c| && Matches(c[p], tables, r, key) && forall j | 0 <= j < p :: !Matches(c[j], tables, r, key)
    ensures Cached(c, tables, r, key) == p
  {
  }

  /** A slot of a coherent list matches a query exactly when it is the query's target. */
  lemma MatchesTarget(d: seq<Slot>, tables: Tables, q: Query, j: nat)
    requires Coherent(d, tables) && q.table in tables && j < |d|
    ensures Matches(d[j], tables, q.table, q.key) <==> d[j] == Target(tables, q) && d[j] != Empty
  {
    assert d[j] in d;
  }

  /** One lookup keeps the cache the list of the entries found most recently. */
  lemma FindKeepsRecent(tables: Tables, d: seq<Slot>, q: Query, n: nat)
    requires n > 0 && q.table in tables && Unique(d) && Empty !in d && Coherent(d, tables)
    ensures var s := Target(tables, q);
            Find(Padded(d, n), tables, q.table, q.key).0 == Padded(if s == Empty then d else [s] + Drop(d, s), n)
  {
    var s, c := Target(tables, q), Padded(d, n);
    PaddedSlots(d, n);
    forall j | 0 <= j < n && j < |d|
      ensures Matches(c[j], tables, q.table, q.key) <==> d[j] == s && s != Empty
    {
      MatchesTarget(d, tables, q, j);
    }
    if p :| 0 <= p < n && p < |d| && d[p] == s {
      CachedUnique(c, tables, q.table, q.key, p);
      PromotePadded(d, n, p);
    } else if s != Empty {
      NotCached(c, tables, q);
      RecyclePadded(d, n, s);
      if p :| 0 <= p < |d| && d[p] == s {
        DropBeyond(d, n, p);
      } else {
        DropAbsent(d, s);
      }
    } else {
      NotCached(c, tables, q);
    }
  }

  lemma NotCached(c: seq<Slot>, tables: Tables, q: Query)
    requires forall j | 0 <= j < |c| :: !Matches(c[j], tables, q.table, q.key)
    ensures Cached(c, tables, q.table, q.key) == |c|
  {
  }

  /** After any sequence of lookups the cache holds, in this order, the n entries found most recently. */
  lemma {:induction false} OrderIsRecency(tables: Tables, qs: seq<Query>, n: nat)
    requires n > 0 && forall q | q in qs :: q.table in tables
    ensures RunTo(tables, qs, n) == Padded(Recent(tables, qs), n)
    decreases |qs|
  {
    if qs == [] {
      assert Padded([], n) == Cold(n);
    } else {
      var qs0, q := qs[..|qs| - 1], qs[|qs| - 1];
      OrderIsRecency(tables, qs0, n);
      RecentUnique(tables, qs0);
      FindKeepsRecent(tables, Recent(tables, qs0), q, n);
    }
  }

  /** The cache after the lookups `qs`, starting from a cold one of n slots */
  function RunTo(tables: Tables, qs: seq<Query>, n: nat): (c: seq<Slot>)
    requires n > 0 && forall q | q in qs :: q.table in tables
    ensures |c| == n
    decreases |qs|
  {
    if qs == [] then Cold(n)
    else
      var q := qs[|qs| - 1];
      Find(RunTo(tables, qs[..|qs| - 1], n), tables, q.table, q.key).0
  }

  // ---------- the linked list ----------

  const LENGTH: nat := 8

  const NULL: int := -1

  /** The nodes in `order` are linked forwards exactly, and backwards but for the first one. */
  ghost predicate Linked(order: seq<int>, first: int, last: int, previous: seq<int>, next: seq<int>) {
    && |previous| == |next| == |order| >= 2
    && (forall i | 0 <= i < |order| :: 0 <= order[i] < |order|)
    && (forall i, j | 0 <= i < j < |order| :: order[i] != order[j])
    && first == order[0] && last == order[|order| - 1]
    && (forall i | 0 <= i < |order| - 1 :: next[order[i]] == order[i + 1])
    && next[last] == NULL
    && (forall i | 0 < i < |order| :: previous[order[i]] == order[i - 1])
  }

  /** The order after the node at place `i` went to the front */
  function ToFront(order: seq<int>, i: nat): (r: seq<int>)
    requires i < |order|
    ensures |r| == |order|
    ensures forall j | 0 <= j < |order| :: r[j] == if j == 0 then order[i] else if j <= i then order[j - 1] else order[j]
  {
    [order[i]] + order[..i] + order[i + 1..]
  }

  lemma MiddleForward(order: seq<int>, first: int, last: int, previous: seq<int>, next: seq<int>, i: nat, j: nat)
    requires Linked(order, first, last, previous, next) && 0 < i < |order| - 1 && j < |order| - 1
    ensures next[order[i - 1] := order[i + 1]][order[i] := first][ToFront(order, i)[j]] == ToFront(order, i)[j + 1]
  {
    if 0 < j < i {
      assert next[order[j - 1]] == order[j];
    } else if j > i {
      assert next[order[j]] == order[j + 1];
    }
  }

  lemma MiddleBackward(order: seq<int>, first: int, last: int, previous: seq<int>, next: seq<int>, i: nat, j: nat)
    requires Linked(order, first, last, previous, next) && 0 < i < |order| - 1 && 0 < j < |order|
    ensures previous[order[i + 1] := order[i - 1]][first := order[i]][ToFront(order, i)[j]] == ToFront(order, i)[j - 1]
  {
    if 1 < j <= i {
      assert previous[order[j - 1]] == order[j - 2];
    } else if j > i + 1 {
      assert previous[order[j]] == order[j - 1];
    }
  }

  lemma MiddleToFront(order: seq<int>, first: int, last: int, previous: seq<int>, next: seq<int>, entry: int, i: nat)
    requires Linked(order, first, last, previous, next) && 0 < i < |order| - 1 && entry == order[i]
    ensures 0 <= previous[entry] < |order| && 0 <= next[entry] < |order|
    ensures var next1 := next[previous[entry] := next[entry]];
            var previous1 := previous[next[entry] := previous[entry]];
            Linked(ToFront(order, i), entry, last, previous1[first := entry], next1[entry := first])
  {
    assert previous[entry] == order[i - 1] && next[entry] == order[i + 1];
    var r := ToFront(order, i);
    var next2 := next[order[i - 1] := order[i + 1]][entry := first];
    var previous2 := previous[order[i + 1] := order[i - 1]][first := entry];
    forall j | 0 <= j < |order| - 1
      ensures next2[r[j]] == r[j + 1]
    {
      MiddleForward(order, first, last, previous, next, i, j);
    }
    forall j | 0 < j < |order|
      ensures previous2[r[j]] == r[j - 1]
    {
      MiddleBackward(order, first, last, previous, next, i, j);
    }
  }

  lemma LastToFront(order: seq<int>, first: int, last: int, previous: seq<int>, next: seq<int>)
    requires Linked(order, first, last, previous, next)
    ensures 0 <= previous[last] < |order|
    ensures Linked(ToFront(order, |order| - 1), last, previous[last],
                   previous[last := NULL][first := last], next[previous[last] := NULL][last := first])
  {
    var n := |order|;
    assert previous[last] == order[n - 2];
    var r := ToFront(order, n - 1);
    var next2 := next[order[n - 2] := NULL][last := first];
    var previous2 := previous[last := NULL][first := last];
    forall j | 0 <= j < n - 1
      ensures next2[r[j]] == r[j + 1]
    {
      assert 0 < j < n - 1 ==> next[order[j - 1]] == order[j];
    }
    forall j | 0 < j < n
      ensures previous2[r[j]] == r[j - 1]
    {
      assert 1 < j ==> previous[order[j - 1]] == order[j - 2];
    }
  }

  /** What the nodes hold, in order */
  ghost function SlotsIn(order: seq<int>, content: seq<Slot>): (c: seq<Slot>)
    requires forall i | 0 <= i < |order| :: 0 <= order[i] < |content|
    ensures |c| == |order| && forall i | 0 <= i < |order| :: c[i] == content[order[i]]
  {
    seq(|order|, i requires 0 <= i < |order| => content[order[i]])
  }

  lemma SlotsToFront(order: seq<int>, content: seq<Slot>, i: nat)
    requires (forall j | 0 <= j < |order| :: 0 <= order[j] < |content|) && i < |order|
    ensures forall j | 0 <= j < |order| :: 0 <= ToFront(order, i)[j] < |content|
    ensures SlotsIn(ToFront(order, i), content) == Promoted(SlotsIn(order, content), i)
  {
    PromotedSlots(SlotsIn(order, content), i);
  }

  /** One more use of an entry */
  predicate Counted(before: seq<nat>, after: seq<nat>, entry: int) {
    0 <= entry < |before| && after == before[entry := before[entry] + 1]
  }

  class Cache {
    const previous: array<int>
    const next: array<int>
    const content: array<Slot>   // the rotable and entry fields
    const used: array<nat>
    var first: int
    var last: int
    var hits: nat
    var misses: nat
    ghost var order: seq<int>    // the nodes from first to last

    ghost predicate Valid()
      reads this`first, this`last, this`order, previous, next
    {
      && content.Length == used.Length == |order| && previous != next
      && Linked(order, first, last, previous[..], next[..])
    }

    /** The slots from the first node to the last */
    ghost function Slots(): (c: seq<Slot>)
      requires Valid()
      reads this`first, this`last, this`order, previous, next, content
    {
      SlotsIn(order, content[..])
    }

    /** rotable_cache_init */
    constructor ()
      ensures Valid() && Slots() == Cold(LENGTH) && hits == 0 && misses == 0
      ensures fresh(previous) && fresh(next) && fresh(content) && fresh(used)
    {
      previous, next := new int[LENGTH], new int[LENGTH];
      content := new Slot[LENGTH](_ => Empty);
      used := new nat[LENGTH](_ => 0);
      first, last, hits, misses := 0, LENGTH - 1, 0, 0;
      order := seq(LENGTH, i => i);
      new;
      previous[0] := NULL;
      var i := 0;
      while i < LENGTH
        invariant i <= LENGTH
        invariant forall j | 0 <= j < i :: next[j] == j + 1 && (j > 0 ==> previous[j] == j - 1)
        modifies previous, next
      {
        next[i] := i + 1;
        if i > 0 {
          previous[i] := i - 1;
        }
        i := i + 1;
      }
      next[LENGTH - 1] := NULL;
    }

    /** Takes a node that is neither first nor last to the front; its own back link is left as it is. */
    method PromoteMiddle(entry: int, ghost i: nat)
      requires Valid() && 0 < i < |order| - 1 && entry == order[i]
      modifies this`first, this`order, previous, next
      ensures Valid() && order == ToFront(old(order), i)
    {
      MiddleToFront(order, first, last, previous[..], next[..], entry, i);
      next[previous[entry]] := next[entry];
      previous[next[entry]] := previous[entry];
      previous[first] := entry;
      next[entry] := first;
      first := entry;
      order := ToFront(order, i);
    }

    /** Takes the last node to the front. */
    method PromoteLast()
      requires Valid()
      modifies this`first, this`last, this`order, previous, next
      ensures Valid() && order == ToFront(old(order), |old(order)| - 1)
    {
      LastToFront(order, first, last, previous[..], next[..]);
      var entry := last;
      next[previous[last]] := NULL;
      last := previous[last];
      next[entry] := first;
      previous[entry] := NULL;
      previous[first] := entry;
      first := entry;
      order := ToFront(order, |order| - 1);
    }

    /** The test on one node */
    predicate Match(entry: int, tables: Tables, r: TableId, key: string)
      reads content
    {
      0 <= entry < content.Length && Matches(content[entry], tables, r, key)
    }

    /** rotable_cache_get: the cached entry, or nothing */
    method Get(tables: Tables, r: TableId, key: string) returns (found: Slot)
      requires Valid()
      modifies this, previous, next, used
      ensures Valid() && |order| == |old(order)|
      ensures var c := old(Slots());
              var h := Cached(c, tables, r, key);
              if h < |c| then found == c[h] && Slots() == Promoted(c, h) else found == Empty && Slots() == c
      ensures var hit := Cached(old(Slots()), tables, r, key) < |old(Slots())|;
              && hits == old(hits) + (if hit then 1 else 0) && misses == old(misses) + (if hit then 0 else 1)
              && if hit then Counted(old(used[..]), used[..], old(order)[Cached(old(Slots()), tables, r, key)])
                 else used[..] == old(used[..])
    {
      var entry := first;
      ghost var i := 0;
      ghost var c := Slots();
      while entry != NULL && !Match(entry, tables, r, key)
        invariant 0 <= i <= |order| && entry == if i < |order| then order[i] else NULL
        invariant forall j | 0 <= j < i :: !Matches(c[j], tables, r, key)
        decreases |order| - i
        modifies {}
      {
        entry := next[entry];
        i := i + 1;
      }
      if entry != NULL {
        CachedUnique(c, tables, r, key, i);
        found := content[entry];
        Hit(entry, i);
      } else {
        NotCached(c, tables, Query(r, key));
        misses := misses + 1;
        found := Empty;
      }
    }

    /** Takes the entry to the front unless it is there. */
    method Promote(entry: int, ghost i: nat)
      requires Valid() && i < |order| && entry == order[i]
      modifies this`first, this`last, this`order, previous, next
      ensures Valid() && order == ToFront(old(order), i)
    {
      if entry != first {
        if entry != last {
          PromoteMiddle(entry, i);
        } else {
          PromoteLast();
        }
      } else {
        assert ToFront(order, i) == order;
      }
    }

    /** The bookkeeping of a hit */
    method Hit(entry: int, ghost i: nat)
      requires Valid() && i < |order| && entry == order[i]
      modifies this`hits, this`first, this`last, this`order, previous, next, used
      ensures Valid() && Slots() == Promoted(old(Slots()), i) && |order| == |old(order)|
      ensures hits == old(hits) + 1 && Counted(old(used[..]), used[..], entry)
    {
      ghost var c := Slots();
      hits := hits + 1;
      CountUse(entry);
      assert Slots() == c;
      PromoteSlot(entry, i, c);
    }

    method PromoteSlot(entry: int, ghost i: nat, ghost c: seq<Slot>)
      requires Valid() && i < |order| && entry == order[i] && c == Slots()
      modifies this`first, this`last, this`order, previous, next
      ensures Valid() && Slots() == Promoted(c, i) && |order| == |old(order)|
      ensures used[..] == old(used[..])
    {
      SlotsToFront(order, content[..], i);
      Promote(entry, i);
      assert content[..] == old(content[..]);
    }

    method CountUse(entry: int)
      requires 0 <= entry < used.Length
      modifies used
      ensures Counted(old(used[..]), used[..], entry)
    {
      used[entry] := used[entry] + 1;
    }

    /** rotable_cache_put recycles the last node. */
    method Put(r: TableId, index: nat)
      requires Valid()
      modifies this`first, this`last, this`order, previous, next, content, used
      ensures Valid() && Slots() == Recycled(old(Slots()), Holds(r, index)) && |order| == |old(order)|
      ensures 0 <= old(last) < used.Length && used[..] == old(used[..])[old(last) := 1]
    {
      var node := last;
      PromoteLast();
      content[node] := Holds(r, index);
      used[node] := 1;
    }

    /** luaR_auxfind and luaR_findglobal with a string key */
    method AuxFind(tables: Tables, r: TableId, key: string) returns (value: Option<int>)
      requires Valid() && r in tables && Coherent(Slots(), tables)
      modifies this, previous, next, content, used
      ensures Valid() && (Slots(), value) == Find(old(Slots()), tables, r, key)
      ensures value == Lookup(tables, r, key) && Coherent(Slots(), tables)
      ensures hits + misses == old(hits) + old(misses) + 1
      ensures hits > old(hits) <==> Cached(old(Slots()), tables, r, key) < |old(Slots())|
    {
      FindIsLookup(Slots(), tables, r, key);
      var found := Get(tables, r, key);
      assert hits + misses == old(hits) + old(misses) + 1;
      if found.Holds? {
        return Some(tables[found.table][found.index].value);
      }
      var entries, i := tables[r], 0;
      while i < |entries|
        invariant i <= |entries| && forall j | 0 <= j < i :: entries[j].key != key
        modifies {}
      {
        if entries[i].key == key {
          break;
        }
        i := i + 1;
      }
      if i < |entries| {
        FirstMatchUnique(entries, key, i);
        Put(r, i);
        return Some(entries[i].value);
      }
      return None;
    }
  }
}
