/**
  The address-ordered, coalescing first-fit allocator (FreeRTOS/Source/heap_4.c), as operations on
  the sequence of blocks that tile the heap from its first aligned byte up to the end marker.
*/
module HeapBlocks {

  datatype Block = Block(addr: nat, size: nat, free: bool)

  /** Blocks follow one another without gap or overlap from `lo` up to `hi`. */
  ghost predicate Tiled(bs: seq<Block>, lo: nat, hi: nat) {
    if bs == [] then lo == hi
    else bs[0].addr == lo && bs[0].size > 0 && Tiled(bs[1..], lo + bs[0].size, hi)
  }

  ghost predicate NoAdjacentFree(bs: seq<Block>) {
    forall i, j | 0 <= i < |bs| && j == i + 1 && j < |bs| :: !(bs[i].free && bs[j].free)
  }

  /** The free blocks, lowest address first: the free list. */
  function FreeList(bs: seq<Block>): seq<Block> {
    if bs == [] then [] else (if bs[0].free then [bs[0]] else []) + FreeList(bs[1..])
  }

  function FreeBytes(bs: seq<Block>): nat {
    if bs == [] then 0 else (if bs[0].free then bs[0].size else 0) + FreeBytes(bs[1..])
  }

  /** Index of the lowest free block of at least `want` bytes; |bs| if there is none. */
  function FirstFit(bs: seq<Block>, want: nat): (i: nat)
    ensures i <= |bs|
    ensures i < |bs| ==> bs[i].free && bs[i].size >= want
    ensures forall j | 0 <= j < i :: !(bs[j].free && bs[j].size >= want)
  {
    if bs == [] || (bs[0].free && bs[0].size >= want) then 0 else 1 + FirstFit(bs[1..], want)
  }

  /** The blocks that replace free block `b` when `want` of its bytes are allocated. */
  function Parts(b: Block, want: nat, least: nat): (m: seq<Block>)
    requires 0 < want <= b.size
    ensures m != [] && !m[0].free && m[0].addr == b.addr && want <= m[0].size <= want + least
    ensures FreeBytes(m) == b.size - m[0].size && NoAdjacentFree(m)
    ensures Tiled(m, b.addr, b.addr + b.size)
  {
    if b.size - want > least
    then
      var m := [Block(b.addr, want, false), Block(b.addr + want, b.size - want, true)];
      assert m[1..] == [m[1]] && m[1..][1..] == [];
      assert FreeBytes(m[1..]) == b.size - want;
      m
    else
      var m := [Block(b.addr, b.size, false)];
      assert m[1..] == [];
      m
  }

  /** Allocate `want` bytes from free block `i`; the rest stays free if it is more than `least`. */
  function Take(bs: seq<Block>, i: nat, want: nat, least: nat): seq<Block>
    requires i < |bs| && 0 < want <= bs[i].size
  {
    bs[..i] + Parts(bs[i], want, least) + bs[i + 1..]
  }

  ghost predicate EndsFree(bs: seq<Block>) { bs != [] && bs[|bs| - 1].free }

  ghost predicate StartsFree(bs: seq<Block>) { bs != [] && bs[0].free }

  /** A free block `x` between `pre` and `post`, merged with its free neighbours. */
  ghost function Coalesce(pre: seq<Block>, x: Block, post: seq<Block>): seq<Block> {
    var l := if EndsFree(pre) then pre[|pre| - 1].size else 0;
    var r := if StartsFree(post) then post[0].size else 0;
    (if EndsFree(pre) then pre[..|pre| - 1] else pre)
    + [Block(if EndsFree(pre) then pre[|pre| - 1].addr else x.addr, l + x.size + r, true)]
    + (if StartsFree(post) then post[1..] else post)
  }

  /** Return block `i` to the free blocks. */
  ghost function Release(bs: seq<Block>, i: nat): seq<Block>
    requires i < |bs|
  {
    Coalesce(bs[..i], bs[i].(free := true), bs[i + 1..])
  }

  // ---------- concatenation ----------

  lemma {:induction false} TiledConcat(a: seq<Block>, b: seq<Block>, lo: nat, mid: nat, hi: nat)
    requires Tiled(a, lo, mid)
    ensures Tiled(a + b, lo, hi) <==> Tiled(b, mid, hi)
  {
    if a == [] {
      assert a + b == b;
    } else {
      TiledConcat(a[1..], b, lo + a[0].size, mid, hi);
      assert (a + b)[1..] == a[1..] + b;
    }
  }

  lemma {:induction false} TiledSplit(a: seq<Block>, b: seq<Block>, lo: nat, hi: nat) returns (mid: nat)
    requires Tiled(a + b, lo, hi)
    ensures Tiled(a, lo, mid) && Tiled(b, mid, hi) && lo <= mid <= hi
  {
    if a == [] {
      assert a + b == b;
      mid := lo;
      TiledBounds(b, lo, hi);
    } else {
      assert (a + b)[1..] == a[1..] + b;
      mid := TiledSplit(a[1..], b, lo + a[0].size, hi);
    }
  }

  lemma {:induction false} TiledBounds(bs: seq<Block>, lo: nat, hi: nat)
    requires Tiled(bs, lo, hi)
    ensures lo <= hi
    ensures forall i | 0 <= i < |bs| :: lo <= bs[i].addr && 0 < bs[i].size && bs[i].addr + bs[i].size <= hi
    ensures bs != [] ==> bs[|bs| - 1].addr + bs[|bs| - 1].size == hi
  {
    if bs != [] {
      TiledBounds(bs[1..], lo + bs[0].size, hi);
      forall i | 0 <= i < |bs|
        ensures lo <= bs[i].addr && 0 < bs[i].size && bs[i].addr + bs[i].size <= hi
      {
        if i > 0 { assert bs[i] == bs[1..][i - 1]; }
      }
    }
  }

  lemma {:induction false} FreeConcat(a: seq<Block>, b: seq<Block>)
    ensures FreeList(a + b) == FreeList(a) + FreeList(b)
    ensures FreeBytes(a + b) == FreeBytes(a) + FreeBytes(b)
  {
    if a == [] {
      assert a + b == b;
    } else {
      FreeConcat(a[1..], b);
      assert (a + b)[1..] == a[1..] + b;
    }
  }

  /** Blocks in ascending order, apart from one another, between `lo` and `hi`. */
  ghost predicate Sits(fs: seq<Block>, lo: nat, hi: nat) {
    && (forall i | 0 <= i < |fs| :: fs[i].free && lo <= fs[i].addr && fs[i].size > 0 && fs[i].addr + fs[i].size <= hi)
    && (forall i, j | 0 <= i < j < |fs| :: fs[i].addr + fs[i].size <= fs[j].addr)
  }

  lemma {:induction false} FreeListRange(bs: seq<Block>, lo: nat, hi: nat)
    requires Tiled(bs, lo, hi)
    ensures Sits(FreeList(bs), lo, hi)
  {
    if bs != [] {
      FreeListRange(bs[1..], lo + bs[0].size, hi);
      TiledBounds(bs, lo, hi);
    }
  }

  lemma {:induction false} NoAdjacentConcat(a: seq<Block>, b: seq<Block>)
    ensures NoAdjacentFree(a + b) <==>
              NoAdjacentFree(a) && NoAdjacentFree(b) && !(EndsFree(a) && StartsFree(b))
  {
    var c := a + b;
    if NoAdjacentFree(c) {
      forall i, j | 0 <= i < |a| && j == i + 1 && j < |a|
        ensures !(a[i].free && a[j].free)
      {
        assert c[i] == a[i] && c[j] == a[j];
      }
      forall i, j | 0 <= i < |b| && j == i + 1 && j < |b|
        ensures !(b[i].free && b[j].free)
      {
        assert c[|a| + i] == b[i] && c[|a| + j] == b[j];
      }
      if a != [] && b != [] { assert c[|a| - 1] == a[|a| - 1] && c[|a|] == b[0]; }
    }
    if NoAdjacentFree(a) && NoAdjacentFree(b) && !(EndsFree(a) && StartsFree(b)) {
      forall i, j | 0 <= i < |c| && j == i + 1 && j < |c|
        ensures !(c[i].free && c[j].free)
      {
        if i >= |a| { assert c[i] == b[i - |a|] && c[j] == b[j - |a|]; }
        else if j < |a| { assert c[i] == a[i] && c[j] == a[j]; }
      }
    }
  }

  /** Each free block is at most the sum, so a request beyond the sum fits nowhere. */
  lemma {:induction false} NoFitBeyondFreeBytes(bs: seq<Block>, want: nat)
    ensures forall i | 0 <= i < |bs| && bs[i].free :: bs[i].size <= FreeBytes(bs)
    ensures want > FreeBytes(bs) ==> FirstFit(bs, want) == |bs|
  {
    if bs != [] {
      NoFitBeyondFreeBytes(bs[1..], want);
      forall i | 0 <= i < |bs| && bs[i].free
        ensures bs[i].size <= FreeBytes(bs)
      {
        if i > 0 { assert bs[i] == bs[1..][i - 1]; }
      }
    }
  }

  // ---------- what the operations keep ----------

  ghost predicate Good(bs: seq<Block>, lo: nat, hi: nat) {
    Tiled(bs, lo, hi) && NoAdjacentFree(bs)
  }

  /** Allocation keeps the tiling, leaves no two free neighbours, and takes exactly the size of the
      allocated block from the free bytes. */
  lemma TakeKeepsGood(bs: seq<Block>, lo: nat, hi: nat, i: nat, want: nat, least: nat)
    requires Good(bs, lo, hi) && i < |bs| && bs[i].free && 0 < want <= bs[i].size
    ensures var t := Take(bs, i, want, least);
            && Good(t, lo, hi)
            && !t[i].free && t[i].addr == bs[i].addr && t[i].size >= want
            && FreeBytes(t) == FreeBytes(bs) - t[i].size
  {
    ReplaceKeepsGood(bs, lo, hi, i, Parts(bs[i], want, least));
  }

  lemma ReplaceKeepsGood(bs: seq<Block>, lo: nat, hi: nat, i: nat, m: seq<Block>)
    requires Good(bs, lo, hi) && i < |bs| && bs[i].free
    requires m != [] && !m[0].free && NoAdjacentFree(m)
    requires Tiled(m, bs[i].addr, bs[i].addr + bs[i].size) && FreeBytes(m) == bs[i].size - m[0].size
    ensures var t := bs[..i] + m + bs[i + 1..];
            Good(t, lo, hi) && t[i] == m[0] && FreeBytes(t) == FreeBytes(bs) - m[0].size
  {
    var b, pre, post := bs[i], bs[..i], bs[i + 1..];
    assert bs == pre + ([b] + post);
    assert pre + m + post == pre + (m + post);
    ReplaceTiled(pre, b, m, post, lo, hi);
    ReplaceApart(pre, b, m, post);
  }

  lemma ReplaceApart(pre: seq<Block>, b: Block, m: seq<Block>, post: seq<Block>)
    requires NoAdjacentFree(pre + ([b] + post)) && b.free
    requires NoAdjacentFree(m) && m != [] && !m[0].free
    ensures NoAdjacentFree(pre + (m + post))
  {
    NoAdjacentConcat(pre, [b] + post);
    NoAdjacentConcat([b], post);
    NoAdjacentConcat(m, post);
    NoAdjacentConcat(pre, m + post);
  }

  lemma ReplaceTiled(pre: seq<Block>, b: Block, m: seq<Block>, post: seq<Block>, lo: nat, hi: nat)
    requires Tiled(pre + ([b] + post), lo, hi) && b.free && m != [] && !m[0].free
    requires Tiled(m, b.addr, b.addr + b.size) && FreeBytes(m) == b.size - m[0].size
    ensures Tiled(pre + (m + post), lo, hi)
    ensures FreeBytes(pre + (m + post)) == FreeBytes(pre + ([b] + post)) - m[0].size
  {
    assert ([b] + post)[1..] == post;
    var mid := TiledSplit(pre, [b] + post, lo, hi);
    TiledConcat(m, post, mid, mid + b.size, hi);
    TiledConcat(pre, m + post, lo, mid, hi);
    FreeConcat(pre, [b] + post);
    FreeConcat(m, post);
    FreeConcat(pre, m + post);
  }

  /** Releasing a block keeps the tiling and gives its size back to the free bytes. */
  lemma ReleaseKeepsGood(bs: seq<Block>, lo: nat, hi: nat, i: nat)
    requires Good(bs, lo, hi) && i < |bs| && !bs[i].free
    ensures Good(Release(bs, i), lo, hi)
    ensures FreeBytes(Release(bs, i)) == FreeBytes(bs) + bs[i].size
  {
    var pre, x, post := bs[..i], bs[i].(free := true), bs[i + 1..];
    BothSides(bs, lo, hi, i);
    CoalesceTiled(pre, x, post, lo, x.addr, hi);
    CoalesceApart(pre, x, post);
  }

  lemma BothSides(bs: seq<Block>, lo: nat, hi: nat, i: nat)
    requires Good(bs, lo, hi) && i < |bs|
    ensures Tiled(bs[..i], lo, bs[i].addr) && Tiled(bs[i + 1..], bs[i].addr + bs[i].size, hi) && bs[i].size > 0
    ensures NoAdjacentFree(bs[..i]) && NoAdjacentFree(bs[i + 1..])
    ensures FreeBytes(bs) == FreeBytes(bs[..i]) + (if bs[i].free then bs[i].size else 0) + FreeBytes(bs[i + 1..])
  {
    var pre, rest := bs[..i], bs[i..];
    assert bs == pre + rest && rest[1..] == bs[i + 1..];
    var mid := TiledSplit(pre, rest, lo, hi);
    FreeConcat(pre, rest);
    NoAdjacentConcat(pre, rest);
    assert rest == [bs[i]] + bs[i + 1..];
    NoAdjacentConcat([bs[i]], bs[i + 1..]);
  }

  lemma CoalesceTiled(pre: seq<Block>, x: Block, post: seq<Block>, lo: nat, mid: nat, hi: nat)
    requires Tiled(pre, lo, mid) && x.addr == mid && x.size > 0 && Tiled(post, mid + x.size, hi)
    ensures Tiled(Coalesce(pre, x, post), lo, hi)
    ensures FreeBytes(Coalesce(pre, x, post)) == FreeBytes(pre) + x.size + FreeBytes(post)
  {
    var pre' := if EndsFree(pre) then pre[..|pre| - 1] else pre;
    var post' := if StartsFree(post) then post[1..] else post;
    var addr, l, r := mid, 0, if StartsFree(post) then post[0].size else 0;
    if EndsFree(pre) {
      l := pre[|pre| - 1].size;
      addr := LastTiled(pre, lo, mid);
    }
    var m := Block(addr, l + x.size + r, true);
    PlacedTiled(pre', m, post', lo, hi);
    assert Coalesce(pre, x, post) == pre' + [m] + post';
  }

  lemma LastTiled(pre: seq<Block>, lo: nat, mid: nat) returns (addr: nat)
    requires Tiled(pre, lo, mid) && EndsFree(pre)
    ensures var p, rest := pre[|pre| - 1], pre[..|pre| - 1];
            && addr == p.addr && Tiled(rest, lo, addr) && addr + p.size == mid
            && FreeBytes(pre) == FreeBytes(rest) + p.size
  {
    var p, rest := pre[|pre| - 1], pre[..|pre| - 1];
    assert pre == rest + [p] && [p][1..] == [];
    addr := TiledSplit(rest, [p], lo, mid);
    FreeConcat(rest, [p]);
  }

  lemma PlacedTiled(pre: seq<Block>, m: Block, post: seq<Block>, lo: nat, hi: nat)
    requires Tiled(pre, lo, m.addr) && m.free && m.size > 0 && Tiled(post, m.addr + m.size, hi)
    ensures Tiled(pre + [m] + post, lo, hi)
    ensures FreeBytes(pre + [m] + post) == FreeBytes(pre) + m.size + FreeBytes(post)
  {
    assert pre + [m] + post == pre + ([m] + post) && ([m] + post)[1..] == post;
    TiledConcat(pre, [m] + post, lo, m.addr, hi);
    FreeConcat(pre, [m] + post);
  }

  lemma CoalesceApart(pre: seq<Block>, x: Block, post: seq<Block>)
    requires NoAdjacentFree(pre) && NoAdjacentFree(post)
    ensures NoAdjacentFree(Coalesce(pre, x, post))
  {
    var pre', post' := if EndsFree(pre) then pre[..|pre| - 1] else pre, if StartsFree(post) then post[1..] else post;
    var c := Coalesce(pre, x, post);
    var m := c[|pre'|];
    assert c == pre' + ([m] + post');
    if EndsFree(pre) {
      assert pre == pre' + [pre[|pre| - 1]];
      NoAdjacentConcat(pre', [pre[|pre| - 1]]);
    }
    if StartsFree(post) {
      assert post == [post[0]] + post';
      NoAdjacentConcat([post[0]], post');
    }
    NoAdjacentConcat([m], post');
    NoAdjacentConcat(pre', [m] + post');
  }

  // ---------- malloc then free ----------

  lemma TakenParts(bs: seq<Block>, i: nat, want: nat, least: nat, pre: seq<Block>, m: seq<Block>, post: seq<Block>)
    requires i < |bs| && 0 < want <= bs[i].size
    requires pre == bs[..i] && m == Parts(bs[i], want, least) && post == bs[i + 1..]
    ensures var t := Take(bs, i, want, least);
            i < |t| && t[..i] == pre && t[i] == m[0] && t[i + 1..] == m[1..] + post
  {
    assert pre + m + post == pre + (m + post);
    assert (m + post)[1..] == m[1..] + post;
  }

  /** A block that was split off comes together again. */
  lemma PartsRejoin(pre: seq<Block>, b: Block, want: nat, least: nat, m: seq<Block>, post: seq<Block>)
    requires b.free && 0 < want <= b.size && m == Parts(b, want, least) && !EndsFree(pre) && !StartsFree(post)
    ensures Coalesce(pre, m[0].(free := true), m[1..] + post) == pre + [b] + post
  {
    if b.size - want > least {
      assert (m[1..] + post)[0] == m[1] && (m[1..] + post)[1..] == post;
    } else {
      assert m[1..] + post == post;
    }
  }

  lemma NeighboursUsed(bs: seq<Block>, i: nat, pre: seq<Block>, b: Block, post: seq<Block>)
    requires NoAdjacentFree(bs) && i < |bs| && bs[i].free && pre == bs[..i] && b == bs[i] && post == bs[i + 1..]
    ensures !EndsFree(pre) && !StartsFree(post) && bs == pre + [b] + post
  {
  }

  /** Freeing what was just allocated restores every block, split or not. */
  lemma TakeThenRelease(bs: seq<Block>, lo: nat, hi: nat, i: nat, want: nat, least: nat)
    requires Good(bs, lo, hi) && i < |bs| && bs[i].free && 0 < want <= bs[i].size
    ensures Release(Take(bs, i, want, least), i) == bs
  {
    var m := Parts(bs[i], want, least);
    NeighboursUsed(bs, i, bs[..i], bs[i], bs[i + 1..]);
    TakenParts(bs, i, want, least, bs[..i], m, bs[i + 1..]);
    PartsRejoin(bs[..i], bs[i], want, least, m, bs[i + 1..]);
  }
}
