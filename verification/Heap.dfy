/**
  The heap's memory (FreeRTOS/Source/heap_4.c): block headers at addresses, linked by address into
  the free list, with stale headers left behind.  `blocks` is the tiling that the memory represents.
*/
module Heap {
  import opened HeapBlocks

  const NULL: nat := 0
  const ALIGNMENT: nat := 8
  const HEADER_SIZE: nat := 8
  const MINIMUM_BLOCK_SIZE: nat := 2 * HEADER_SIZE
  const ALLOCATED_BIT: nat := 0x8000_0000
  const WORD: nat := 0x1_0000_0000

  datatype Header = Header(next: nat, size: nat)

  type Memory = map<nat, Header>

  function AlignUp(n: nat): (r: nat)
    ensures r % ALIGNMENT == 0 && n <= r < n + ALIGNMENT
  {
    if n % ALIGNMENT == 0 then n else n + (ALIGNMENT - n % ALIGNMENT)
  }

  function AlignDown(n: nat): (r: nat)
    ensures r % ALIGNMENT == 0 && r <= n < r + ALIGNMENT
  {
    n - n % ALIGNMENT
  }

  // ---------- the free list in memory ----------

  ghost function Before(fs: seq<Block>, start: nat, p: nat): nat
    requires p <= |fs|
  {
    if p == 0 then start else fs[p - 1].addr
  }

  ghost function After(fs: seq<Block>, end: nat, p: nat): nat {
    if p < |fs| then fs[p].addr else end
  }

  /** The links from `start` run through the blocks `fs` in order and on to `end`. */
  ghost predicate Linked(mem: Memory, start: nat, end: nat, fs: seq<Block>) {
    && (forall p | 0 <= p <= |fs| :: Before(fs, start, p) in mem && mem[Before(fs, start, p)].next == After(fs, end, p))
    && (forall p | 0 <= p < |fs| :: fs[p].addr in mem && mem[fs[p].addr].size == fs[p].size)
    && start in mem && mem[start].size == 0
    && end in mem && mem[end] == Header(NULL, 0)
  }

  /** Each block that is not free carries the allocated bit and no link. */
  ghost predicate Marked(mem: Memory, bs: seq<Block>) {
    forall i | 0 <= i < |bs| && !bs[i].free ::
      bs[i].addr in mem && mem[bs[i].addr] == Header(NULL, bs[i].size + ALLOCATED_BIT)
  }

  ghost predicate Aligned(bs: seq<Block>) {
    forall i | 0 <= i < |bs| :: bs[i].addr % ALIGNMENT == 0 && bs[i].size % ALIGNMENT == 0
  }

  ghost predicate Represents(mem: Memory, bs: seq<Block>, start: nat, lo: nat, hi: nat) {
    Good(bs, lo, hi) && Aligned(bs) && Linked(mem, start, hi, FreeList(bs)) && Marked(mem, bs)
  }

  /** Is `a` an address in block `j`, which is allocated? */
  predicate UsedAt(bs: seq<Block>, j: nat, a: nat) {
    j < |bs| && !bs[j].free && bs[j].addr <= a < bs[j].addr + bs[j].size
  }

  /** The last free block of a tiling reaches its end exactly if the last block is free. */
  lemma LastFree(pre: seq<Block>, lo: nat, mid: nat)
    requires Tiled(pre, lo, mid)
    ensures var fs := FreeList(pre);
            && (EndsFree(pre) ==> |fs| > 0 && fs[|fs| - 1] == pre[|pre| - 1] && FreeList(pre[..|pre| - 1]) == fs[..|fs| - 1])
            && (|fs| > 0 ==> (EndsFree(pre) <==> fs[|fs| - 1].addr + fs[|fs| - 1].size == mid))
  {
    if pre != [] {
      var rest, b := pre[..|pre| - 1], pre[|pre| - 1];
      assert pre == rest + [b];
      LastBlock(rest, b, lo, mid);
    }
  }

  lemma LastBlock(rest: seq<Block>, b: Block, lo: nat, mid: nat)
    requires Tiled(rest + [b], lo, mid)
    ensures FreeList(rest + [b]) == FreeList(rest) + if b.free then [b] else []
    ensures b.addr + b.size == mid && b.size > 0
    ensures Sits(FreeList(rest), lo, b.addr)
  {
    var m := TiledSplit(rest, [b], lo, mid);
    assert [b][1..] == [] && FreeList([b]) == if b.free then [b] else [];
    FreeConcat(rest, [b]);
    FreeListRange(rest, lo, m);
  }

  /** The first free block of a tiling starts at its start exactly if the first block is free. */
  lemma FirstFree(post: seq<Block>, mid: nat, hi: nat)
    requires Tiled(post, mid, hi)
    ensures var fs := FreeList(post);
            && (StartsFree(post) ==> |fs| > 0 && fs[0] == post[0] && FreeList(post[1..]) == fs[1..])
            && (|fs| > 0 ==> (StartsFree(post) <==> fs[0].addr == mid))
  {
    if post != [] {
      FreeListRange(post[1..], mid + post[0].size, hi);
    }
  }

  lemma {:induction false} NoneFits(bs: seq<Block>, want: nat)
    requires forall i | 0 <= i < |bs| && bs[i].free :: bs[i].size < want
    ensures forall k | 0 <= k < |FreeList(bs)| :: FreeList(bs)[k].size < want
  {
    if bs != [] {
      assert forall i | 0 <= i < |bs[1..]| :: bs[1..][i] == bs[i + 1];
      NoneFits(bs[1..], want);
    }
  }

  /** The first fitting entry of the free list is the first fitting block. */
  lemma FirstFitInList(bs: seq<Block>, want: nat, k: nat)
    requires k <= |FreeList(bs)|
    requires forall j | 0 <= j < k :: FreeList(bs)[j].size < want
    requires k < |FreeList(bs)| ==> FreeList(bs)[k].size >= want
    ensures var i := FirstFit(bs, want);
            && (i == |bs| <==> k == |FreeList(bs)|)
            && (i < |bs| ==> bs[i] == FreeList(bs)[k] && FreeList(bs[..i]) == FreeList(bs)[..k])
  {
    var i := FirstFit(bs, want);
    var pre, rest := bs[..i], bs[i..];
    assert bs == pre + rest;
    FreeConcat(pre, rest);
    NoneFits(pre, want);
    if i < |bs| {
      assert FreeList(rest)[0] == bs[i];
      assert FreeList(bs)[|FreeList(pre)|] == bs[i];
    }
  }

  lemma WholeHeap(lo: nat, hi: nat)
    requires lo < hi
    ensures var bs := [Block(lo, hi - lo, true)];
            Good(bs, lo, hi) && FreeList(bs) == bs && FreeBytes(bs) == hi - lo
  {
    assert [Block(lo, hi - lo, true)][1..] == [];
  }

  lemma WholeHeapLinked(mem: Memory, start: nat, lo: nat, hi: nat)
    requires lo < hi && lo % ALIGNMENT == 0 && hi % ALIGNMENT == 0 && start != lo && start != hi
    requires start in mem && mem[start] == Header(lo, 0)
    requires lo in mem && mem[lo] == Header(hi, hi - lo) && hi in mem && mem[hi] == Header(NULL, 0)
    ensures var bs := [Block(lo, hi - lo, true)];
            Represents(mem, bs, start, lo, hi) && FreeBytes(bs) == hi - lo
  {
    var bs := [Block(lo, hi - lo, true)];
    WholeHeap(lo, hi);
    assert Linked(mem, start, hi, bs);
  }

  lemma MinimumOfMore(history: seq<nat>, least: nat, x: nat, least': nat)
    requires least in history && (forall h | h in history :: least <= h) && least' == if x < least then x else least
    ensures least' in history + [x] && forall h | h in history + [x] :: least' <= h
  {
    assert (history + [x])[|history|] == x;
  }

  class Heap {
    const start: nat       // address of the sentinel xStart, outside the heap area
    const area: nat        // address of ucHeap
    const total: nat       // its size in bytes
    var mem: Memory
    var end: nat           // address of the end marker; NULL until the heap is initialised
    var freeBytes: nat
    var minimumEver: nat
    ghost var blocks: seq<Block>
    ghost var history: seq<nat>  // the free byte counts since initialisation

    /** The area has room for aligned storage, and its addresses and sizes fit in a word. */
    ghost predicate Sane()
    {
      && 0 < area && area + total < WORD && 4 * HEADER_SIZE <= total < ALLOCATED_BIT
      && start != NULL && !(area <= start <= area + total)
    }

    ghost function Low(): nat { AlignUp(area) }

    /** Memory represents the blocks. */
    ghost predicate Layout()
      reads this`mem, this`end, this`blocks
    {
      && Sane() && area <= Low() < end <= area + total
      && Represents(mem, blocks, start, Low(), end)
    }

    /** The counters say how many bytes are free and how few ever were. */
    ghost predicate Counted()
      reads this`freeBytes, this`minimumEver, this`blocks, this`history
    {
      && freeBytes == FreeBytes(blocks)
      && |history| > 0 && history[|history| - 1] == freeBytes
      && minimumEver in history && forall h | h in history :: minimumEver <= h
    }

    ghost predicate Valid()
      reads this
    {
      && Sane() && start in mem
      && (if end == NULL then blocks == [] && freeBytes == 0 && minimumEver == 0 && history == []
          else Layout() && Counted())
    }

    constructor (start: nat, area: nat, total: nat, mem: Memory)
      requires 0 < area && area + total < WORD && 4 * HEADER_SIZE <= total < ALLOCATED_BIT
      requires start != NULL && !(area <= start <= area + total) && start in mem
      ensures Valid() && end == NULL && this.start == start && this.area == area && this.total == total
      ensures this.mem == mem
    {
      this.start := start;
      this.area := area;
      this.total := total;
      this.mem := mem;
      end := NULL;
      freeBytes := 0;
      minimumEver := 0;
      blocks := [];
      history := [];
    }

    ghost function High(): nat
      requires Sane()
    {
      AlignDown(area + total - HEADER_SIZE)
    }

    /** The blocks an allocation works on: one free block over the whole heap before the first one. */
    ghost function Blocks(): seq<Block>
      requires Valid()
      reads this
    {
      if end == NULL then [Block(Low(), High() - Low(), true)] else blocks
    }

    lemma BlocksGood()
      requires Valid()
      ensures Good(Blocks(), Low(), if end == NULL then High() else end) && Aligned(Blocks())
    {
      if end == NULL { WholeHeap(Low(), High()); }
    }

    /** prvHeapInit */
    method Init()
      requires Valid() && end == NULL
      modifies this
      ensures Valid() && end == High() && end != NULL && blocks == old(Blocks())
      ensures history == [FreeBytes(blocks)]
    {
      var address := area;
      var size := total;
      if address % ALIGNMENT != 0 {
        address := AlignUp(address);
        size := size - (address - area);
      }
      end := AlignDown(address + size - HEADER_SIZE);
      mem := mem[start := Header(address, 0)];
      mem := mem[end := Header(NULL, 0)];
      mem := mem[address := Header(end, end - address)];
      minimumEver := end - address;
      freeBytes := end - address;
      blocks := [Block(address, end - address, true)];
      history := [freeBytes];
      assert address == Low() && address % ALIGNMENT == 0 && end % ALIGNMENT == 0;
      WholeHeapLinked(mem, start, address, end);
    }

    /** First fit: the first free list entry of at least `want` bytes, with the entry before it. */
    method Search(want: nat, ghost bs: seq<Block>) returns (previous: nat, block: nat)
      requires 0 < want && Sane() && Low() < end && Tiled(bs, Low(), end) && Linked(mem, start, end, FreeList(bs))
      ensures var i := FirstFit(bs, want);
              if i == |bs| then block == end
              else block == bs[i].addr && block != end && previous in mem && mem[previous].next == block
                   && previous == Before(FreeList(bs[..i]), start, |FreeList(bs[..i])|)
    {
      ghost var fs, k := FreeList(bs), 0;
      FreeListRange(bs, Low(), end);
      previous := start;
      block := mem[start].next;
      assert mem[Before(fs, start, 0)].next == After(fs, end, 0);
      while mem[block].size < want && mem[block].next != NULL
        invariant 0 <= k <= |fs| && previous == Before(fs, start, k) && block == After(fs, end, k) && block in mem
        invariant forall j | 0 <= j < k :: fs[j].size < want
        decreases |fs| - k
      {
        previous := block;
        block := mem[block].next;
        k := k + 1;
        assert mem[Before(fs, start, k)].next == After(fs, end, k);
      }
      assert k < |fs| ==> mem[Before(fs, start, k + 1)].next == After(fs, end, k + 1);
      FirstFitInList(bs, want, k);
    }

    /** The last free list entry below address `x`. */
    method FindSpot(x: nat, ghost f0: seq<Block>, ghost f1: seq<Block>) returns (spot: nat)
      requires Linked(mem, start, end, f0 + f1) && x < end
      requires forall i | 0 <= i < |f0| :: f0[i].addr < x
      requires |f1| > 0 ==> x <= f1[0].addr
      ensures spot == Before(f0 + f1, start, |f0|)
    {
      spot := start;
      ghost var p := 0;
      while mem[spot].next < x
        invariant 0 <= p <= |f0| && spot == Before(f0 + f1, start, p)
        decreases |f0| - p
      {
        assert mem[spot].next == After(f0 + f1, end, p);
        p := p + 1;
        spot := mem[spot].next;
      }
      assert mem[spot].next == After(f0 + f1, end, p);
    }

    /** prvInsertBlockIntoFreeList: link block `x` in at its address and merge it with a free
        neighbour on either side. */
    method InsertBlockIntoFreeList(x: nat, ghost pre: seq<Block>, ghost b: Block, ghost post: seq<Block>)
      requires Sane() && area <= Low() < end <= area + total
      requires Tiled(pre, Low(), b.addr) && b.addr == x && b.size > 0 && Tiled(post, x + b.size, end)
      requires Linked(mem, start, end, FreeList(pre) + FreeList(post))
      requires x in mem && mem[x].size == b.size
      modifies this`mem
      ensures Linked(mem, start, end, FreeList(Coalesce(pre, b, post)))
      ensures mem.Keys == old(mem.Keys) && mem[x].size <= end - x
      ensures forall a | a in mem && a != x && a != Before(FreeList(pre), start, |FreeList(pre)|) :: mem[a] == old(mem[a])
    {
      FindAndMerge(x, pre, b, post);
      MergedSize(old(mem), mem, start, end, FreeList(pre), b, post);
      MergeLinks(old(mem), mem, start, end, pre, b, post, Low());
    }

    method FindAndMerge(x: nat, ghost pre: seq<Block>, ghost b: Block, ghost post: seq<Block>)
      requires Sane() && area <= Low() < end <= area + total
      requires Tiled(pre, Low(), b.addr) && b.addr == x && b.size > 0 && Tiled(post, x + b.size, end)
      requires Linked(mem, start, end, FreeList(pre) + FreeList(post))
      requires x in mem && mem[x].size == b.size
      modifies this`mem
      ensures Before(FreeList(pre) + FreeList(post), start, |FreeList(pre)|) == Before(FreeList(pre), start, |FreeList(pre)|)
      ensures Merged(old(mem), mem, end, Before(FreeList(pre) + FreeList(post), start, |FreeList(pre)|), x)
    {
      ghost var f0, f1 := FreeList(pre), FreeList(post);
      FreeListRange(pre, Low(), x);
      FreeListRange(post, x + b.size, end);
      TiledBounds(pre, Low(), x);
      TiledBounds(post, x + b.size, end);
      SpotFacts(mem, start, end, f0, f1, Low(), x, x + b.size);
      var spot := FindSpot(x, f0, f1);
      Merge(spot, x);
    }

    method Merge(spot: nat, x: nat)
      requires spot in mem && x in mem && spot != x
      requires mem[spot].next in mem && mem[spot].next != spot && mem[spot].next != x
      modifies this`mem
      ensures Merged(old(mem), mem, end, spot, x)
    {
      var block := x;
      if spot + mem[spot].size == block {
        mem := mem[spot := mem[spot].(size := mem[spot].size + mem[block].size)];
        block := spot;
      }
      if block + mem[block].size == mem[spot].next {
        if mem[spot].next != end {
          var after := mem[spot].next;
          mem := mem[block := Header(mem[after].next, mem[block].size + mem[after].size)];
        } else {
          mem := mem[block := mem[block].(next := end)];
        }
      } else {
        mem := mem[block := mem[block].(next := mem[spot].next)];
      }
      if spot != block {
        mem := mem[spot := mem[spot].(next := block)];
      }
    }

    /** The size in bytes of a block that can hold `wanted` bytes. */
    static function Padded(wanted: nat): nat { AlignUp(wanted + HEADER_SIZE) }

    /** Take free block `i` out of the free list; what remains behind its first `want` bytes goes
        back, if it is large enough to be a block. */
    method TakeBlock(previous: nat, block: nat, want: nat, ghost bs: seq<Block>, ghost i: nat)
      requires Sane() && area <= Low() < end <= area + total && Good(bs, Low(), end)
      requires Linked(mem, start, end, FreeList(bs))
      requires i < |bs| && bs[i].free && bs[i].addr == block && 0 < want <= bs[i].size
      requires previous == Before(FreeList(bs[..i]), start, |FreeList(bs[..i])|)
      modifies this`mem
      ensures var t := Take(bs, i, want, MINIMUM_BLOCK_SIZE);
              && Linked(mem, start, end, FreeList(t))
              && block in mem && mem[block].size == t[i].size
      ensures forall a | a in old(mem) && a !in {previous, block, if want < bs[i].size then block + want else block} ::
                a in mem && mem[a] == old(mem[a])
    {
      ghost var pre, b, post := bs[..i], bs[i], bs[i + 1..];
      AtFreeBlock(bs, Low(), end, i);
      Unlink(previous, block, pre, b, post);
      if mem[block].size - want > MINIMUM_BLOCK_SIZE {
        SplitBlock(block, want, pre, b, post);
        TakeIsCoalesced(bs, Low(), end, i, want);
      } else {
        WholeList(bs, i, want);
      }
    }

    method Unlink(previous: nat, block: nat, ghost pre: seq<Block>, ghost b: Block, ghost post: seq<Block>)
      requires Sane() && area <= Low() < end <= area + total
      requires Tiled(pre, Low(), b.addr) && b.addr == block && b.size > 0 && Tiled(post, block + b.size, end)
      requires Linked(mem, start, end, FreeList(pre) + [b] + FreeList(post))
      requires previous == Before(FreeList(pre), start, |FreeList(pre)|)
      modifies this`mem
      ensures Linked(mem, start, end, FreeList(pre) + FreeList(post))
      ensures block in mem && mem[block].size == b.size
      ensures forall a | a in old(mem) && a != previous :: a in mem && mem[a] == old(mem[a])
    {
      UnlinkPlaces(previous, block, pre, b, post);
      mem := mem[previous := mem[previous].(next := mem[block].next)];
      Unlinked(old(mem), mem, start, end, FreeList(pre), b, FreeList(post), Low());
    }

    lemma UnlinkPlaces(previous: nat, block: nat, pre: seq<Block>, b: Block, post: seq<Block>)
      requires Sane() && area <= Low() < end <= area + total
      requires Tiled(pre, Low(), b.addr) && b.addr == block && b.size > 0 && Tiled(post, block + b.size, end)
      requires Linked(mem, start, end, FreeList(pre) + [b] + FreeList(post))
      requires previous == Before(FreeList(pre), start, |FreeList(pre)|)
      ensures previous in mem && block in mem && mem[block].size == b.size
              && previous != block && block < end && Low() <= block
      ensures var f0 := FreeList(pre);
              && (forall i | 0 <= i < |f0| :: Low() <= f0[i].addr < block)
              && (forall i, j | 0 <= i < j < |f0| :: f0[i].addr < f0[j].addr)
      ensures forall i | 0 <= i < |FreeList(post)| :: block < FreeList(post)[i].addr < end
    {
      LinkAt(mem, start, end, FreeList(pre), b, FreeList(post));
      FreeListRange(pre, Low(), block);
      FreeListRange(post, block + b.size, end);
      TiledBounds(post, block + b.size, end);
      TiledBounds(pre, Low(), block);
    }

    method SplitBlock(block: nat, want: nat, ghost pre: seq<Block>, ghost b: Block, ghost post: seq<Block>)
      requires Sane() && area <= Low() < end <= area + total
      requires Tiled(pre, Low(), b.addr) && b.addr == block && Tiled(post, block + b.size, end)
      requires Linked(mem, start, end, FreeList(pre) + FreeList(post)) && 0 < want < b.size
      requires block in mem && mem[block].size == b.size
      modifies this`mem
      ensures Linked(mem, start, end,
                FreeList(Coalesce(pre + [Block(block, want, false)], Block(block + want, b.size - want, true), post)))
      ensures block in mem && mem[block].size == want
      ensures forall a | a in old(mem) && a !in {Before(FreeList(pre), start, |FreeList(pre)|), block, block + want} ::
                a in mem && mem[a] == old(mem[a])
    {
      var rest := block + want;
      WriteSizes(block, want, pre, b, post);
      ghost var pre' := pre + [Block(block, want, false)];
      SplitTiled(pre, b, want, Low());
      NotBefore(pre, block, post, block + b.size);
      InsertBlockIntoFreeList(rest, pre', Block(rest, b.size - want, true), post);
    }

    lemma NotBefore(pre: seq<Block>, block: nat, post: seq<Block>, next: nat)
      requires Sane() && area <= Low() < end <= area + total
      requires Tiled(pre, Low(), block) && block < next && Tiled(post, next, end)
      ensures block != Before(FreeList(pre), start, |FreeList(pre)|)
    {
      FreeListRange(pre, Low(), block);
      TiledBounds(pre, Low(), block);
      TiledBounds(post, next, end);
    }

    method WriteSizes(block: nat, want: nat, ghost pre: seq<Block>, ghost b: Block, ghost post: seq<Block>)
      requires Sane() && area <= Low() < end <= area + total
      requires Tiled(pre, Low(), b.addr) && b.addr == block && Tiled(post, block + b.size, end)
      requires Linked(mem, start, end, FreeList(pre) + FreeList(post)) && 0 < want < b.size
      requires block in mem && mem[block].size == b.size
      modifies this`mem
      ensures Linked(mem, start, end, FreeList(pre) + FreeList(post))
      ensures block in mem && mem[block].size == want
      ensures block + want in mem && mem[block + want].size == b.size - want
      ensures forall a | a in old(mem) && a !in {block, block + want} :: a in mem && mem[a] == old(mem[a])
    {
      var rest := block + want;
      mem := mem[rest := Header(if rest in mem then mem[rest].next else NULL, mem[block].size - want)];
      mem := mem[block := mem[block].(size := want)];
      WrittenInside(old(mem), mem, block, rest, pre, b, post);
    }

    /** Headers written inside a block that is in no list do not touch the links. */
    lemma WrittenInside(m0: Memory, m1: Memory, block: nat, rest: nat, pre: seq<Block>, b: Block, post: seq<Block>)
      requires Sane() && area <= Low() < end <= area + total && block < rest < block + b.size
      requires Tiled(pre, Low(), b.addr) && b.addr == block && Tiled(post, block + b.size, end)
      requires Linked(m0, start, end, FreeList(pre) + FreeList(post))
      requires forall a | a in m0 && a !in {block, rest} :: a in m1 && m1[a] == m0[a]
      ensures Linked(m1, start, end, FreeList(pre) + FreeList(post))
    {
      FreeListRange(pre, Low(), block);
      FreeListRange(post, block + b.size, end);
      TiledBounds(post, block + b.size, end);
      TiledBounds(pre, Low(), block);
      LinkedElsewhere(m0, m1, start, end, FreeList(pre) + FreeList(post), {block, rest});
    }

    /** The answer `pv` to a request of `wanted` bytes and what it makes of the blocks: NULL exactly if
        the request is empty, too large for a block header, or fits no free block; otherwise the
        aligned address behind the header of the lowest-addressed fitting block. */
    static ghost predicate Answers(bs: seq<Block>, wanted: nat, pv: nat, bs': seq<Block>) {
      var i := FirstFit(bs, Padded(wanted));
      if wanted == 0 || wanted >= ALLOCATED_BIT || i == |bs|
      then pv == NULL && bs' == bs
      else
        && pv == bs[i].addr + HEADER_SIZE && pv % ALIGNMENT == 0
        && bs' == Take(bs, i, Padded(wanted), MINIMUM_BLOCK_SIZE)
    }

    /** pvPortMalloc */
    method Malloc(wanted: nat) returns (pv: nat)
      requires Valid() && wanted < WORD
      modifies this
      ensures Valid() && end != NULL
      ensures history == (if old(end) == NULL then [FreeBytes(old(Blocks()))] else old(history)) + More(pv)
      ensures end == if old(end) == NULL then High() else old(end)
      ensures Answers(old(Blocks()), wanted, pv, blocks)
      ensures pv == NULL <==> wanted == 0 || wanted >= ALLOCATED_BIT || NoRoom(old(Blocks()), wanted + HEADER_SIZE)
      ensures pv != NULL ==> Owns(pv) && HandedOut(old(Blocks()), blocks, wanted, pv)
      ensures forall a: nat, j: nat | a in old(mem) && UsedAt(old(Blocks()), j, a) :: a in mem && mem[a] == old(mem)[a]
    {
      BlocksGood();
      MallocMeaning(Blocks(), Low(), if end == NULL then High() else end, wanted);
      if end == NULL {
        Init();
      }
      pv := MallocInitialised(wanted);
    }

    /** What an allocation adds to the history */
    ghost function More(pv: nat): seq<nat>
      reads this`freeBytes
    {
      if pv == NULL then [] else [freeBytes]
    }

    method PaddedSize(wanted: nat) returns (want: nat)
      ensures want == if wanted == 0 then 0 else Padded(wanted)
      ensures want % ALIGNMENT == 0
    {
      want := wanted;
      if want > 0 {
        want := want + HEADER_SIZE;
        if want % ALIGNMENT != 0 {
          want := want + (ALIGNMENT - want % ALIGNMENT);
        }
      }
    }

    method MallocInitialised(wanted: nat) returns (pv: nat)
      requires Valid() && end != NULL && wanted < WORD
      modifies this`mem, this`freeBytes, this`minimumEver, this`blocks, this`history
      ensures Valid() && history == old(history) + More(pv)
      ensures Answers(old(blocks), wanted, pv, blocks)
      ensures pv != NULL ==> Owns(pv)
      ensures forall a: nat, j: nat | a in old(mem) && UsedAt(old(blocks), j, a) :: a in mem && mem[a] == old(mem)[a]
    {
      pv := NULL;
      if wanted < ALLOCATED_BIT {
        var want := PaddedSize(wanted);
        NoFitBeyondFreeBytes(blocks, want);
        if want > 0 && want <= freeBytes {
          var previous, block := Search(want, blocks);
          if block != end {
            AfterHeader(blocks[FirstFit(blocks, want)].addr);
            pv := mem[previous].next + HEADER_SIZE;
            Allocate(previous, block, want, FirstFit(blocks, want));
          }
        }
      }
    }

    lemma AfterHeader(a: nat)
      ensures a % ALIGNMENT == 0 ==> (a + HEADER_SIZE) % ALIGNMENT == 0
    {
    }

    /** The header before `pv` is that of an allocated block. */
    ghost predicate Owns(pv: nat)
      reads this`mem, this`blocks
    {
      && pv >= HEADER_SIZE && LooksAllocated(pv - HEADER_SIZE)
      && exists i | 0 <= i < |blocks| :: !blocks[i].free && blocks[i].addr == pv - HEADER_SIZE
    }

    method Allocate(previous: nat, block: nat, want: nat, ghost i: nat)
      requires Valid() && end != NULL && want % ALIGNMENT == 0
      requires i < |blocks| && blocks[i].free && blocks[i].addr == block && 0 < want <= blocks[i].size
      requires previous == Before(FreeList(blocks[..i]), start, |FreeList(blocks[..i])|)
      modifies this`mem, this`freeBytes, this`minimumEver, this`blocks, this`history
      ensures Valid() && blocks == Take(old(blocks), i, want, MINIMUM_BLOCK_SIZE)
      ensures Owns(block + HEADER_SIZE) && history == old(history) + [freeBytes]
      ensures forall a: nat, j: nat | a in old(mem) && UsedAt(old(blocks), j, a) :: a in mem && mem[a] == old(mem)[a]
    {
      ghost var bs := blocks;
      ghost var t := Take(bs, i, want, MINIMUM_BLOCK_SIZE);
      TakeKeepsGood(bs, Low(), end, i, want, MINIMUM_BLOCK_SIZE);
      TakeBlock(previous, block, want, bs, i);
      freeBytes := freeBytes - mem[block].size;
      if freeBytes < minimumEver {
        minimumEver := freeBytes;
      }
      ghost var m1 := mem;
      mem := mem[block := Header(NULL, mem[block].size + ALLOCATED_BIT)];
      TakeRepresented(old(mem), m1, mem, bs, Low(), end, i, want, start, previous);
      blocks := t;
      MinimumOfMore(history, old(minimumEver), freeBytes, minimumEver);
      history := history + [freeBytes];
      assert !blocks[i].free && blocks[i].addr == block;
    }

    /** vPortFree: a header that is not marked as allocated is left alone; an allocated block joins
        the free blocks. */
    method Free(pv: nat)
      requires Valid() && (pv != NULL ==> pv >= HEADER_SIZE && pv - HEADER_SIZE in mem)
      requires pv != NULL && LooksAllocated(pv - HEADER_SIZE) ==> Owns(pv)
      modifies this`mem, this`freeBytes, this`blocks, this`history
      ensures Valid() && minimumEver == old(minimumEver)
      ensures pv != NULL && old(LooksAllocated(pv - HEADER_SIZE)) ==> history == old(history) + [freeBytes]
      ensures pv == NULL || !old(LooksAllocated(pv - HEADER_SIZE)) ==> unchanged(this)
      ensures pv != NULL && old(Owns(pv)) ==>
                exists i | 0 <= i < |old(blocks)| ::
                  && !old(blocks)[i].free && old(blocks)[i].addr == pv - HEADER_SIZE
                  && blocks == Release(old(blocks), i)
      ensures pv != NULL ==> pv - HEADER_SIZE in mem && !LooksAllocated(pv - HEADER_SIZE)
      ensures forall a: nat, j: nat |
                a in old(mem) && UsedAt(old(blocks), j, a) && old(blocks)[j].addr + HEADER_SIZE != pv ::
                  a in mem && mem[a] == old(mem)[a]
    {
      if pv != NULL {
        var h := pv - HEADER_SIZE;
        if mem[h].size < ALLOCATED_BIT || mem[h].next != NULL {
          return;
        }
        assert LooksAllocated(h);
        ghost var i :| 0 <= i < |blocks| && !blocks[i].free && blocks[i].addr == h;
        SameAddress(blocks, Low(), end);
        FreeAllocated(h, i);
      }
    }

    method FreeAllocated(h: nat, ghost i: nat)
      requires Valid() && h in mem && i < |blocks| && !blocks[i].free && blocks[i].addr == h
      modifies this`mem, this`freeBytes, this`blocks, this`history
      ensures Valid() && history == old(history) + [freeBytes] && blocks == Release(old(blocks), i)
      ensures h in mem && mem[h].size < ALLOCATED_BIT
      ensures forall a: nat, j: nat |
                a in old(mem) && UsedAt(old(blocks), j, a) && j != i :: a in mem && mem[a] == old(mem)[a]
    {
      mem := mem[h := mem[h].(size := mem[h].size - ALLOCATED_BIT)];
      freeBytes := freeBytes + mem[h].size;
      assert history[|history| - 1] in history;
      ReturnBlock(h, i, old(mem));
      MinimumOfMore(history, minimumEver, freeBytes, minimumEver);
      history := history + [freeBytes];
    }

    method ReturnBlock(h: nat, ghost i: nat, ghost m0: Memory)
      requires Sane() && area <= Low() < end <= area + total && Represents(m0, blocks, start, Low(), end)
      requires i < |blocks| && !blocks[i].free && blocks[i].addr == h
      requires mem == m0[h := Header(NULL, blocks[i].size)]
      modifies this`mem, this`blocks
      ensures forall a: nat, j: nat | a in m0 && UsedAt(old(blocks), j, a) && j != i :: a in mem && mem[a] == m0[a]
      ensures blocks == Release(old(blocks), i) && Layout()
      ensures FreeBytes(blocks) == FreeBytes(old(blocks)) + old(blocks)[i].size
      ensures h in mem && mem[h].size < ALLOCATED_BIT && start in mem
    {
      ghost var bs := blocks;
      ReleaseKeepsGood(bs, Low(), end, i);
      LinkFreed(h, bs, i, m0);
      AtBlock(bs, Low(), end, i);
      BeforeIsFree(bs, i, start);
      ReleaseMarked(m0, mem, bs, Low(), end, i, {Before(FreeList(bs[..i]), start, |FreeList(bs[..i])|), h}, start);
      UsedKept(m0, mem, bs, Low(), end, i, {Before(FreeList(bs[..i]), start, |FreeList(bs[..i])|), h}, start);
      blocks := Release(bs, i);
    }

    method LinkFreed(h: nat, ghost bs: seq<Block>, ghost i: nat, ghost m0: Memory)
      requires Sane() && area <= Low() < end <= area + total && Represents(m0, bs, start, Low(), end)
      requires i < |bs| && !bs[i].free && bs[i].addr == h
      requires mem == m0[h := Header(NULL, bs[i].size)]
      modifies this`mem
      ensures Linked(mem, start, end, FreeList(Release(bs, i)))
      ensures h in mem && mem[h].size < ALLOCATED_BIT
      ensures forall a | a in m0 && a !in {Before(FreeList(bs[..i]), start, |FreeList(bs[..i])|), h} ::
                a in mem && mem[a] == m0[a]
    {
      AtBlock(bs, Low(), end, i);
      ReleasedList(bs, i);
      LinkedDespite(m0, mem, bs, Low(), end, i, start);
      TiledBounds(bs[..i], Low(), h);
      InsertBlockIntoFreeList(h, bs[..i], bs[i].(free := true), bs[i + 1..]);
    }

    /** Freeing what was just allocated gives back the blocks and the free byte count of before. */
    method MallocThenFree(wanted: nat) returns (pv: nat)
      requires Valid() && wanted < WORD
      modifies this
      ensures Valid() && blocks == old(Blocks()) && freeBytes == FreeBytes(old(Blocks()))
    {
      ghost var bs := Blocks();
      BlocksGood();
      pv := Malloc(wanted);
      ghost var t, i := blocks, FirstFit(bs, Padded(wanted));
      if pv != NULL {
        SameAddress(t, Low(), end);
        TakeThenRelease(bs, Low(), end, i, Padded(wanted), MINIMUM_BLOCK_SIZE);
      }
      Free(pv);
    }

    /** A second release of the same pointer changes nothing, even if the block has been merged. */
    method FreeTwice(pv: nat)
      requires Valid() && Owns(pv)
      modifies this`mem, this`freeBytes, this`blocks, this`history
      ensures Valid()
      ensures exists i | 0 <= i < |old(blocks)| ::
                && !old(blocks)[i].free && old(blocks)[i].addr == pv - HEADER_SIZE
                && blocks == Release(old(blocks), i)
    {
      Free(pv);
      Free(pv);
    }

    /** The application may overwrite the aligned words behind the header of its own block, stale headers
        included. */
    method ApplicationWrite(a: nat, header: Header, ghost i: nat)
      requires Valid() && i < |blocks| && !blocks[i].free && a % ALIGNMENT == 0
      requires blocks[i].addr + HEADER_SIZE <= a && a + HEADER_SIZE <= blocks[i].addr + blocks[i].size
      modifies this`mem
      ensures Valid()
    {
      TiledBounds(blocks, Low(), end);
      AddressesApart(blocks, Low(), end, i);
      FreeListApart(blocks, Low(), end, i);
      FreeListRange(blocks, Low(), end);
      mem := mem[a := header];
    }

    ghost predicate LooksAllocated(h: nat)
      reads this`mem
    {
      h in mem && mem[h].size >= ALLOCATED_BIT && mem[h].next == NULL
    }
  }

  /** What a step that works on block `i` may touch is in no other allocated block. */
  lemma UsedUntouched(bs: seq<Block>, lo: nat, hi: nat, i: nat, touched: set<nat>, start: nat, j: nat, a: nat)
    requires Tiled(bs, lo, hi) && i < |bs| && j != i && UsedAt(bs, j, a) && !(lo <= start <= hi)
    requires forall x | x in touched :: x == start || bs[i].addr <= x < bs[i].addr + bs[i].size
               || x in Addresses(FreeList(bs[..i]))
    ensures a !in touched
  {
    TiledBounds(bs, lo, hi);
    AddressesApart(bs, lo, hi, i);
    FreeListApart(bs, lo, hi, j);
    FreeConcat(bs[..i], bs[i..]);
    assert bs == bs[..i] + bs[i..];
    forall b | b in FreeList(bs[..i])
      ensures b.addr != a
    {
      assert b in FreeList(bs);
    }
  }

  lemma UsedKept(m0: Memory, m1: Memory, bs: seq<Block>, lo: nat, hi: nat, i: nat, touched: set<nat>, start: nat)
    requires Tiled(bs, lo, hi) && i < |bs| && !(lo <= start <= hi)
    requires forall a | a in m0 && a !in touched :: a in m1 && m1[a] == m0[a]
    requires forall x | x in touched :: x == start || bs[i].addr <= x < bs[i].addr + bs[i].size
               || x in Addresses(FreeList(bs[..i]))
    ensures forall a: nat, j: nat | a in m0 && UsedAt(bs, j, a) && j != i :: a in m1 && m1[a] == m0[a]
  {
    forall a: nat, j: nat | a in m0 && UsedAt(bs, j, a) && j != i
      ensures a in m1 && m1[a] == m0[a]
    {
      UsedUntouched(bs, lo, hi, i, touched, start, j, a);
    }
  }

  lemma LinkAt(mem: Memory, start: nat, end: nat, f0: seq<Block>, b: Block, f1: seq<Block>)
    requires Linked(mem, start, end, f0 + [b] + f1)
    ensures Before(f0, start, |f0|) in mem && b.addr in mem && mem[b.addr].size == b.size
  {
    var fs := f0 + [b] + f1;
    assert fs[|f0|] == b && Before(fs, start, |f0|) == Before(f0, start, |f0|);
  }

  /** No free block has `n` bytes. */
  ghost predicate NoRoom(bs: seq<Block>, n: nat) {
    forall j | 0 <= j < |bs| && bs[j].free :: bs[j].size < n
  }

  /** The lowest free block with room for a header and `wanted` bytes is allocated, with no more of it than that
      needs, up to the alignment and a rest that is too small for a block.  `pv` is the address behind its header. */
  ghost predicate HandedOut(bs: seq<Block>, bs': seq<Block>, wanted: nat, pv: nat) {
    exists i: nat | i < |bs| && i < |bs'| ::
      && bs[i].free && !bs'[i].free && bs[i].addr == bs'[i].addr && bs'[i].addr + HEADER_SIZE == pv
      && wanted + HEADER_SIZE <= bs'[i].size < wanted + HEADER_SIZE + ALIGNMENT + MINIMUM_BLOCK_SIZE
      && FreeBytes(bs') == FreeBytes(bs) - bs'[i].size
      && forall j | 0 <= j < i :: bs'[j] == bs[j] && !(bs[j].free && bs[j].size >= wanted + HEADER_SIZE)
  }

  /** The padded size is the least multiple of the alignment that holds the header and the bytes. */
  lemma PaddedIsLeast(wanted: nat)
    ensures var n := Heap.Padded(wanted);
            && n % ALIGNMENT == 0 && wanted + HEADER_SIZE <= n < wanted + HEADER_SIZE + ALIGNMENT
            && forall size: nat | size % ALIGNMENT == 0 :: size >= wanted + HEADER_SIZE <==> size >= n
  {
    forall size: nat | size % ALIGNMENT == 0
      ensures size >= wanted + HEADER_SIZE <==> size >= Heap.Padded(wanted)
    {
      if size < Heap.Padded(wanted) {
        Multiples(size, Heap.Padded(wanted));
      }
    }
  }

  lemma Multiples(a: nat, b: nat)
    requires a % ALIGNMENT == 0 && b % ALIGNMENT == 0 && a < b
    ensures a + ALIGNMENT <= b
  {
  }

  /** A block is handed out exactly if some free one has room for a header and the bytes, and it has that room. */
  lemma MallocMeaning(bs: seq<Block>, lo: nat, hi: nat, wanted: nat)
    requires Good(bs, lo, hi) && Aligned(bs)
    ensures forall pv: nat, bs' | Heap.Answers(bs, wanted, pv, bs') ::
              && (pv == NULL <==> wanted == 0 || wanted >= ALLOCATED_BIT || NoRoom(bs, wanted + HEADER_SIZE))
              && (pv != NULL ==> HandedOut(bs, bs', wanted, pv))
  {
    var n := Heap.Padded(wanted);
    var i := FirstFit(bs, n);
    PaddedIsLeast(wanted);
    SameFit(bs, wanted + HEADER_SIZE, n, i);
    if i < |bs| {
      TakeKeepsGood(bs, lo, hi, i, n, MINIMUM_BLOCK_SIZE);
      TakenHandedOut(bs, i, wanted, n, Take(bs, i, n, MINIMUM_BLOCK_SIZE));
    }
  }

  /** Among aligned sizes the first fit for the padded size is the first with room for header and bytes. */
  lemma SameFit(bs: seq<Block>, need: nat, n: nat, i: nat)
    requires Aligned(bs) && i == FirstFit(bs, n)
    requires forall size: nat | size % ALIGNMENT == 0 :: size >= need <==> size >= n
    ensures i == |bs| <==> NoRoom(bs, need)
    ensures forall j | 0 <= j < i :: !(bs[j].free && bs[j].size >= need)
  {
  }

  lemma TakenHandedOut(bs: seq<Block>, i: nat, wanted: nat, n: nat, t: seq<Block>)
    requires i < |bs| && bs[i].free && 0 < n <= bs[i].size && t == Take(bs, i, n, MINIMUM_BLOCK_SIZE)
    requires wanted + HEADER_SIZE <= n < wanted + HEADER_SIZE + ALIGNMENT
    requires i < |t| && FreeBytes(t) == FreeBytes(bs) - t[i].size
    requires forall j | 0 <= j < i :: !(bs[j].free && bs[j].size >= wanted + HEADER_SIZE)
    ensures HandedOut(bs, t, wanted, bs[i].addr + HEADER_SIZE)
  {
    assert t[i] == Parts(bs[i], n, MINIMUM_BLOCK_SIZE)[0];
    assert forall j | 0 <= j < i :: t[j] == bs[j];
  }

  lemma TakeRepresented(m0: Memory, m1: Memory, m2: Memory, bs: seq<Block>, lo: nat, hi: nat,
                        i: nat, want: nat, start: nat, previous: nat)
    requires Represents(m0, bs, start, lo, hi) && !(lo <= start <= hi) && want % ALIGNMENT == 0
    requires i < |bs| && bs[i].free && 0 < want <= bs[i].size
    requires previous == Before(FreeList(bs[..i]), start, |FreeList(bs[..i])|)
    requires forall a | a in m0 && a !in {previous, bs[i].addr, if want < bs[i].size then bs[i].addr + want else bs[i].addr} ::
               a in m1 && m1[a] == m0[a]
    requires var t := Take(bs, i, want, MINIMUM_BLOCK_SIZE);
             && Good(t, lo, hi) && Linked(m1, start, hi, FreeList(t))
             && m2 == m1[bs[i].addr := Header(NULL, t[i].size + ALLOCATED_BIT)]
    ensures Represents(m2, Take(bs, i, want, MINIMUM_BLOCK_SIZE), start, lo, hi)
    ensures forall a: nat, j: nat | a in m0 && UsedAt(bs, j, a) :: a in m2 && m2[a] == m0[a]
  {
    var t, b := Take(bs, i, want, MINIMUM_BLOCK_SIZE), bs[i];
    var m := Parts(b, want, MINIMUM_BLOCK_SIZE);
    assert t[i] == m[0];
    LinkedDespite(m1, m2, t, lo, hi, i, start);
    BeforeIsFree(bs, i, start);
    AtBlock(bs, lo, hi, i);
    TakenMarked(m2, b, want, m);
    PartsMarked(m0, m2, bs, lo, hi, i, m, {previous, b.addr, if want < b.size then b.addr + want else b.addr}, start);
    UsedKept(m0, m2, bs, lo, hi, i, {previous, b.addr, if want < b.size then b.addr + want else b.addr}, start);
  }

  lemma TakenMarked(mem: Memory, b: Block, want: nat, m: seq<Block>)
    requires Aligned([b]) && 0 < want <= b.size && want % ALIGNMENT == 0 && m == Parts(b, want, MINIMUM_BLOCK_SIZE)
    requires b.addr in mem && mem[b.addr] == Header(NULL, m[0].size + ALLOCATED_BIT)
    ensures Aligned(m) && Marked(mem, m)
  {
    assert [b][0] == b;
  }

  /** The header of an allocated block is no part of the free list. */
  lemma LinkedDespite(m1: Memory, m2: Memory, t: seq<Block>, lo: nat, hi: nat, i: nat, start: nat)
    requires Tiled(t, lo, hi) && i < |t| && !t[i].free && !(lo <= start <= hi)
    requires Linked(m1, start, hi, FreeList(t))
    requires forall a | a in m1 && a != t[i].addr :: a in m2 && m2[a] == m1[a]
    ensures Linked(m2, start, hi, FreeList(t))
  {
    UsedApart(t, lo, hi);
    TiledBounds(t, lo, hi);
    LinkedElsewhere(m1, m2, start, hi, FreeList(t), {t[i].addr});
  }

  lemma BeforeIsFree(bs: seq<Block>, i: nat, start: nat)
    requires i <= |bs|
    ensures var previous := Before(FreeList(bs[..i]), start, |FreeList(bs[..i])|);
            previous == start || previous in Addresses(FreeList(bs[..i]))
  {
    var fs := FreeList(bs[..i]);
    if |fs| > 0 { assert fs[|fs| - 1] in fs; }
  }

  lemma PartsMarked(m0: Memory, m1: Memory, bs: seq<Block>, lo: nat, hi: nat, i: nat, m: seq<Block>,
                    touched: set<nat>, start: nat)
    requires Tiled(bs, lo, hi) && i < |bs| && Aligned(bs) && Marked(m0, bs) && Aligned(m) && Marked(m1, m)
    requires forall a | a in m0 && a !in touched :: a in m1 && m1[a] == m0[a]
    requires !(lo <= start <= hi)
    requires forall a | a in touched :: a == start || bs[i].addr <= a < bs[i].addr + bs[i].size
               || a in Addresses(FreeList(bs[..i]))
    ensures Aligned(bs[..i] + m + bs[i + 1..]) && Marked(m1, bs[..i] + m + bs[i + 1..])
  {
    AroundMarked(m0, m1, bs, lo, hi, i, touched, start);
    ConcatThree(m1, bs[..i], m, bs[i + 1..], bs[..i] + m + bs[i + 1..]);
  }

  lemma TouchedApart(pre: seq<Block>, lo: nat, b: Block, post: seq<Block>, hi: nat, touched: set<nat>, start: nat)
    requires Tiled(pre, lo, b.addr) && Tiled(post, b.addr + b.size, hi) && !(lo <= start <= hi)
    requires forall a | a in touched :: a == start || b.addr <= a < b.addr + b.size || a in Addresses(FreeList(pre))
    ensures forall a | a in touched && lo <= a < b.addr :: a in Addresses(FreeList(pre))
    ensures forall a | a in touched :: !(b.addr + b.size <= a < hi)
  {
    TiledBounds(pre, lo, b.addr);
    TiledBounds(post, b.addr + b.size, hi);
    FreeListRange(pre, lo, b.addr);
  }

  lemma ConcatThree(mem: Memory, a: seq<Block>, m: seq<Block>, b: seq<Block>, all: seq<Block>)
    requires all == a + m + b
    ensures Aligned(all) <==> Aligned(a) && Aligned(m) && Aligned(b)
    ensures Marked(mem, all) <==> Marked(mem, a) && Marked(mem, m) && Marked(mem, b)
  {
    Concats(mem, a, m);
    Concats(mem, a + m, b);
  }

  lemma ReleasedList(bs: seq<Block>, i: nat)
    requires i < |bs| && !bs[i].free
    ensures FreeList(bs) == FreeList(bs[..i]) + FreeList(bs[i + 1..])
  {
    assert bs == bs[..i] + ([bs[i]] + bs[i + 1..]) && ([bs[i]] + bs[i + 1..])[1..] == bs[i + 1..];
    FreeConcat(bs[..i], [bs[i]] + bs[i + 1..]);
  }

  lemma ReleaseMarked(m0: Memory, m1: Memory, bs: seq<Block>, lo: nat, hi: nat, i: nat, touched: set<nat>, start: nat)
    requires Tiled(bs, lo, hi) && i < |bs| && Aligned(bs) && Marked(m0, bs)
    requires forall a | a in m0 && a !in touched :: a in m1 && m1[a] == m0[a]
    requires !(lo <= start <= hi)
    requires forall a | a in touched :: a == start || bs[i].addr <= a < bs[i].addr + bs[i].size
               || a in Addresses(FreeList(bs[..i]))
    ensures Aligned(Release(bs, i)) && Marked(m1, Release(bs, i))
  {
    AroundMarked(m0, m1, bs, lo, hi, i, touched, start);
    CoalesceMarked(m1, bs[..i], bs[i].(free := true), bs[i + 1..]);
  }

  /** The blocks on either side of block `i` keep their marks. */
  lemma AroundMarked(m0: Memory, m1: Memory, bs: seq<Block>, lo: nat, hi: nat, i: nat, touched: set<nat>, start: nat)
    requires Tiled(bs, lo, hi) && i < |bs| && Aligned(bs) && Marked(m0, bs)
    requires forall a | a in m0 && a !in touched :: a in m1 && m1[a] == m0[a]
    requires !(lo <= start <= hi)
    requires forall a | a in touched :: a == start || bs[i].addr <= a < bs[i].addr + bs[i].size
               || a in Addresses(FreeList(bs[..i]))
    ensures Aligned(bs[..i]) && Aligned([bs[i].(free := true)]) && Aligned(bs[i + 1..])
    ensures Marked(m1, bs[..i]) && Marked(m1, bs[i + 1..])
  {
    AtBlock(bs, lo, hi, i);
    PartsOfMarked(m0, bs, i);
    NeighboursMarked(m0, m1, bs[..i], bs[i], bs[i + 1..], lo, hi, touched, start);
  }

  lemma PartsOfMarked(mem: Memory, bs: seq<Block>, i: nat)
    requires i < |bs| && Aligned(bs) && Marked(mem, bs)
    ensures Aligned(bs[..i]) && Aligned([bs[i]]) && Aligned(bs[i + 1..])
    ensures Marked(mem, bs[..i]) && Marked(mem, bs[i + 1..])
  {
    SliceMarked(mem, bs, 0, i);
    SliceMarked(mem, bs, i + 1, |bs|);
    assert bs[0..i] == bs[..i] && bs[i + 1..|bs|] == bs[i + 1..];
  }

  lemma NeighboursMarked(m0: Memory, m1: Memory, pre: seq<Block>, b: Block, post: seq<Block>, lo: nat, hi: nat,
                         touched: set<nat>, start: nat)
    requires Tiled(pre, lo, b.addr) && b.size > 0 && Tiled(post, b.addr + b.size, hi) && !(lo <= start <= hi)
    requires Marked(m0, pre) && Marked(m0, post) && Aligned([b])
    requires forall a | a in m0 && a !in touched :: a in m1 && m1[a] == m0[a]
    requires forall a | a in touched :: a == start || b.addr <= a < b.addr + b.size || a in Addresses(FreeList(pre))
    ensures Marked(m1, pre) && Marked(m1, post) && Aligned([b.(free := true)])
  {
    TouchedApart(pre, lo, b, post, hi, touched, start);
    FramesMarked(m0, m1, pre, lo, b.addr, touched);
    FramesMarked(m0, m1, post, b.addr + b.size, hi, touched);
    assert [b][0] == b;
  }

  lemma CoalesceMarked(mem: Memory, pre: seq<Block>, x: Block, post: seq<Block>)
    requires Aligned(pre) && Aligned([x]) && Aligned(post) && Marked(mem, pre) && Marked(mem, post)
    ensures Aligned(Coalesce(pre, x, post)) && Marked(mem, Coalesce(pre, x, post))
  {
    var pre' := if EndsFree(pre) then pre[..|pre| - 1] else pre;
    var post' := if StartsFree(post) then post[1..] else post;
    SliceMarked(mem, pre, 0, |pre'|);
    SliceMarked(mem, post, |post| - |post'|, |post|);
    var m := Coalesce(pre, x, post)[|pre'|];
    MergedAligned(pre, x, post, m);
    assert Coalesce(pre, x, post) == pre' + [m] + post';
    ConcatThree(mem, pre', [m], post', pre' + [m] + post');
  }

  lemma MergedAligned(pre: seq<Block>, x: Block, post: seq<Block>, m: Block)
    requires Aligned(pre) && Aligned([x]) && Aligned(post)
    requires m == Coalesce(pre, x, post)[if EndsFree(pre) then |pre| - 1 else |pre|]
    ensures Aligned([m]) && m.free
  {
    AlignedSum(if EndsFree(pre) then [pre[|pre| - 1]] else [], x, if StartsFree(post) then [post[0]] else []);
  }

  lemma SliceMarked(mem: Memory, bs: seq<Block>, i: nat, j: nat)
    requires Aligned(bs) && Marked(mem, bs) && i <= j <= |bs|
    ensures Aligned(bs[i..j]) && Marked(mem, bs[i..j])
  {
  }

  lemma AlignedSum(l: seq<Block>, x: Block, r: seq<Block>)
    requires Aligned(l) && Aligned([x]) && Aligned(r) && |l| <= 1 && |r| <= 1
    ensures var size := (if l != [] then l[0].size else 0) + x.size + (if r != [] then r[0].size else 0);
            var addr := if l != [] then l[0].addr else x.addr;
            Aligned([Block(addr, size, true)])
  {
    assert [x][0] == x;
    MultiplesAdd(if l != [] then l[0].size else 0, x.size, if r != [] then r[0].size else 0);
  }

  lemma MultiplesAdd(a: nat, b: nat, c: nat)
    requires a % ALIGNMENT == 0 && b % ALIGNMENT == 0 && c % ALIGNMENT == 0
    ensures (a + b + c) % ALIGNMENT == 0
  {
  }

  lemma AddressesApart(bs: seq<Block>, lo: nat, hi: nat, i: nat)
    requires Tiled(bs, lo, hi) && i < |bs|
    ensures forall j | 0 <= j < |bs| && j != i ::
              bs[j].addr + bs[j].size <= bs[i].addr || bs[i].addr + bs[i].size <= bs[j].addr
  {
    var pre, post := bs[..i], bs[i + 1..];
    AtBlock(bs, lo, hi, i);
    TiledBounds(pre, lo, bs[i].addr);
    TiledBounds(post, bs[i].addr + bs[i].size, hi);
    forall j | 0 <= j < |bs| && j != i
      ensures bs[j].addr + bs[j].size <= bs[i].addr || bs[i].addr + bs[i].size <= bs[j].addr
    {
      if j < i { assert bs[j] == pre[j]; } else { assert bs[j] == post[j - i - 1]; }
    }
  }

  lemma FreeListApart(bs: seq<Block>, lo: nat, hi: nat, i: nat)
    requires Tiled(bs, lo, hi) && i < |bs| && !bs[i].free
    ensures forall k | 0 <= k < |FreeList(bs)| ::
              !(bs[i].addr <= FreeList(bs)[k].addr < bs[i].addr + bs[i].size)
  {
    AtBlock(bs, lo, hi, i);
    ReleasedList(bs, i);
    FreeListRange(bs[..i], lo, bs[i].addr);
    FreeListRange(bs[i + 1..], bs[i].addr + bs[i].size, hi);
  }

  lemma SameAddress(bs: seq<Block>, lo: nat, hi: nat)
    requires Tiled(bs, lo, hi)
    ensures forall i, j | 0 <= i < |bs| && 0 <= j < |bs| && bs[i].addr == bs[j].addr :: i == j
  {
    forall i | 0 <= i < |bs|
      ensures forall j | 0 <= j < |bs| && bs[i].addr == bs[j].addr :: i == j
    {
      AddressesApart(bs, lo, hi, i);
      TiledBounds(bs, lo, hi);
    }
  }

  lemma Concats(mem: Memory, a: seq<Block>, b: seq<Block>)
    ensures Aligned(a + b) <==> Aligned(a) && Aligned(b)
    ensures Marked(mem, a + b) <==> Marked(mem, a) && Marked(mem, b)
  {
    assert forall i | 0 <= i < |a| :: (a + b)[i] == a[i];
    assert forall i | 0 <= i < |b| :: (a + b)[|a| + i] == b[i];
  }

  ghost function Addresses(fs: seq<Block>): set<nat> {
    set b | b in fs :: b.addr
  }

  lemma FramesMarked(m0: Memory, m1: Memory, bs: seq<Block>, lo: nat, hi: nat, touched: set<nat>)
    requires Tiled(bs, lo, hi) && Marked(m0, bs)
    requires forall a | a in m0 && a !in touched :: a in m1 && m1[a] == m0[a]
    requires forall a | a in touched && lo <= a < hi :: a in Addresses(FreeList(bs))
    ensures Marked(m1, bs)
  {
    TiledBounds(bs, lo, hi);
    UsedApart(bs, lo, hi);
  }

  lemma TakeIsCoalesced(bs: seq<Block>, lo: nat, hi: nat, i: nat, want: nat)
    requires Good(bs, lo, hi) && i < |bs| && bs[i].free && 0 < want <= bs[i].size
    requires bs[i].size - want > MINIMUM_BLOCK_SIZE
    ensures var b := bs[i];
            Take(bs, i, want, MINIMUM_BLOCK_SIZE)
            == Coalesce(bs[..i] + [Block(b.addr, want, false)], Block(b.addr + want, b.size - want, true), bs[i + 1..])
  {
    var b := bs[i];
    AtFreeBlock(bs, lo, hi, i);
    CoalesceAlone(bs[..i] + [Block(b.addr, want, false)], Block(b.addr + want, b.size - want, true), bs[i + 1..]);
  }

  lemma LinkedElsewhere(mem: Memory, mem': Memory, start: nat, end: nat, fs: seq<Block>, touched: set<nat>)
    requires Linked(mem, start, end, fs)
    requires start !in touched && end !in touched && forall p | 0 <= p < |fs| :: fs[p].addr !in touched
    requires forall a | a in mem && a !in touched :: a in mem' && mem'[a] == mem[a]
    ensures Linked(mem', start, end, fs)
  {
  }

  lemma SplitTiled(pre: seq<Block>, b: Block, want: nat, lo: nat)
    requires Tiled(pre, lo, b.addr) && 0 < want
    ensures Tiled(pre + [Block(b.addr, want, false)], lo, b.addr + want)
    ensures FreeList(pre + [Block(b.addr, want, false)]) == FreeList(pre)
  {
    var used := Block(b.addr, want, false);
    assert [used][1..] == [];
    TiledConcat(pre, [used], lo, b.addr, b.addr + want);
    FreeConcat(pre, [used]);
  }

  lemma CoalesceAlone(pre: seq<Block>, x: Block, post: seq<Block>)
    requires !EndsFree(pre) && !StartsFree(post) && x.free
    ensures Coalesce(pre, x, post) == pre + [x] + post
  {
  }

  lemma WholeList(bs: seq<Block>, i: nat, want: nat)
    requires i < |bs| && 0 < want <= bs[i].size && bs[i].size - want <= MINIMUM_BLOCK_SIZE
    ensures FreeList(Take(bs, i, want, MINIMUM_BLOCK_SIZE)) == FreeList(bs[..i]) + FreeList(bs[i + 1..])
  {
    var used := Block(bs[i].addr, bs[i].size, false);
    assert Take(bs, i, want, MINIMUM_BLOCK_SIZE) == bs[..i] + ([used] + bs[i + 1..]);
    assert ([used] + bs[i + 1..])[1..] == bs[i + 1..];
    FreeConcat(bs[..i], [used] + bs[i + 1..]);
  }

  /** A free block among the others: its place in the tiling and in the free list. */
  lemma AtFreeBlock(bs: seq<Block>, lo: nat, hi: nat, i: nat)
    requires Good(bs, lo, hi) && i < |bs| && bs[i].free
    ensures var pre, b, post := bs[..i], bs[i], bs[i + 1..];
            && Tiled(pre, lo, b.addr) && Tiled(post, b.addr + b.size, hi) && b.size > 0
            && FreeList(bs) == FreeList(pre) + [b] + FreeList(post)
            && !EndsFree(pre) && !StartsFree(post)
  {
    var pre, b, post := bs[..i], bs[i], bs[i + 1..];
    AtBlock(bs, lo, hi, i);
    assert bs == pre + [b] + post && bs == pre + ([b] + post);
    FreeAround(pre, b, post);
    NoAdjacentConcat(pre, [b] + post);
    NoAdjacentConcat([b], post);
  }

  lemma AtBlock(bs: seq<Block>, lo: nat, hi: nat, i: nat)
    requires Tiled(bs, lo, hi) && i < |bs|
    ensures Tiled(bs[..i], lo, bs[i].addr) && Tiled(bs[i + 1..], bs[i].addr + bs[i].size, hi) && bs[i].size > 0
  {
    var pre, b, post := bs[..i], bs[i], bs[i + 1..];
    assert bs == pre + ([b] + post) && ([b] + post)[1..] == post;
    var mid := TiledSplit(pre, [b] + post, lo, hi);
  }

  /** Unlinking one block of the free list. */
  lemma Unlinked(mem: Memory, mem': Memory, start: nat, end: nat, f0: seq<Block>, b: Block, f1: seq<Block>, lo: nat)
    requires Linked(mem, start, end, f0 + [b] + f1) && !(lo <= start <= end) && b.addr < end
    requires forall i | 0 <= i < |f0| :: lo <= f0[i].addr < b.addr
    requires forall i, j | 0 <= i < j < |f0| :: f0[i].addr < f0[j].addr
    requires forall i | 0 <= i < |f1| :: b.addr < f1[i].addr < end
    requires lo <= b.addr
    requires var prev := Before(f0, start, |f0|);
             prev in mem && b.addr in mem && mem' == mem[prev := Header(mem[b.addr].next, mem[prev].size)]
    ensures Linked(mem', start, end, f0 + f1)
  {
    var fs, gs, k := f0 + [b] + f1, f0 + f1, |f0|;
    assert Before(fs, start, k + 1) == b.addr && After(fs, end, k + 1) == After(f1, end, 0);
    forall p | 0 <= p <= |gs|
      ensures Before(gs, start, p) in mem' && mem'[Before(gs, start, p)].next == After(gs, end, p)
    {
      if p < k {
        assert Before(gs, start, p) == Before(fs, start, p) == Before(f0, start, p) && After(gs, end, p) == After(fs, end, p);
      } else if p == k {
        assert Before(gs, start, p) == Before(f0, start, p) && After(gs, end, p) == After(f1, end, 0);
      } else {
        assert Before(gs, start, p) == Before(fs, start, p + 1) == f1[p - k - 1].addr && After(gs, end, p) == After(fs, end, p + 1);
      }
    }
    forall p | 0 <= p < |gs|
      ensures gs[p].addr in mem' && mem'[gs[p].addr].size == gs[p].size
    {
      if p < k { assert gs[p] == fs[p] == f0[p]; } else { assert gs[p] == fs[p + 1] == f1[p - k]; }
    }
  }

  /** Memory changed only at addresses that belong to no allocated block. */
  lemma {:induction false} UsedApart(bs: seq<Block>, lo: nat, hi: nat)
    requires Tiled(bs, lo, hi)
    ensures forall i, k | 0 <= i < |bs| && !bs[i].free && 0 <= k < |FreeList(bs)| :: FreeList(bs)[k].addr != bs[i].addr
    ensures forall i | 0 <= i < |bs| && !bs[i].free :: bs[i].addr !in Addresses(FreeList(bs))
  {
    if bs != [] {
      UsedApart(bs[1..], lo + bs[0].size, hi);
      FreeListRange(bs[1..], lo + bs[0].size, hi);
      TiledBounds(bs[1..], lo + bs[0].size, hi);
      forall i, k | 0 <= i < |bs| && !bs[i].free && 0 <= k < |FreeList(bs)|
        ensures FreeList(bs)[k].addr != bs[i].addr
      {
        var d := if bs[0].free then 1 else 0;
        if i > 0 { assert bs[i] == bs[1..][i - 1]; }
        if k >= d { assert FreeList(bs)[k] == FreeList(bs[1..])[k - d]; }
      }
    }
  }

  lemma SpotFacts(mem: Memory, start: nat, end: nat, f0: seq<Block>, f1: seq<Block>, lo: nat, x: nat, y: nat)
    requires Linked(mem, start, end, f0 + f1) && Sits(f0, lo, x) && Sits(f1, y, end)
    requires lo <= x < y <= end && !(lo <= start <= end)
    ensures var spot := Before(f0 + f1, start, |f0|);
            && spot == Before(f0, start, |f0|) && spot in mem && spot != x
            && mem[spot].next == After(f1, end, 0)
            && mem[spot].next in mem && mem[spot].next != spot && mem[spot].next != x
    ensures forall i | 0 <= i < |f0| :: f0[i].addr < x
  {
    var fs := f0 + f1;
    if |f0| > 0 { assert fs[|f0| - 1] == f0[|f0| - 1]; }
    if |f1| > 0 { assert fs[|f0|] == f1[0]; }
    assert mem[Before(fs, start, |f0|)].next == After(fs, end, |f0|);
  }

  /** The effect of merging block `x` into the memory behind free list entry `spot`. */
  ghost predicate Merged(m0: Memory, m1: Memory, end: nat, spot: nat, x: nat)
    requires spot in m0 && x in m0
  {
    var after := m0[spot].next;
    var left := spot + m0[spot].size == x;
    var block := if left then spot else x;
    var size := if left then m0[spot].size + m0[x].size else m0[x].size;
    var right := block + size == after && after != end;
    && m1.Keys == m0.Keys
    && (right ==> after in m0)
    && m1[block] == (if right then Header(m0[after].next, size + m0[after].size) else Header(after, size))
    && (!left ==> spot != x && m1[spot] == Header(x, m0[spot].size))
    && forall a | a in m0 && a != block && a != spot :: m1[a] == m0[a]
  }

  lemma MergedSize(m0: Memory, m1: Memory, start: nat, end: nat, f0: seq<Block>, b: Block, post: seq<Block>)
    requires Linked(m0, start, end, f0 + FreeList(post)) && Tiled(post, b.addr + b.size, end)
    requires b.addr in m0 && m0[b.addr].size == b.size
    requires Merged(m0, m1, end, Before(f0 + FreeList(post), start, |f0|), b.addr)
    ensures m1[b.addr].size <= end - b.addr
  {
    var f1 := FreeList(post);
    FreeListRange(post, b.addr + b.size, end);
    TiledBounds(post, b.addr + b.size, end);
    assert m0[Before(f0 + f1, start, |f0|)].next == After(f0 + f1, end, |f0|);
    if |f1| > 0 { assert (f0 + f1)[|f0|] == f1[0]; }
  }

  lemma MergeLinks(m0: Memory, m1: Memory, start: nat, end: nat, pre: seq<Block>, b: Block, post: seq<Block>, lo: nat)
    requires Tiled(pre, lo, b.addr) && b.size > 0 && Tiled(post, b.addr + b.size, end)
    requires !(lo <= start <= end)
    requires Linked(m0, start, end, FreeList(pre) + FreeList(post))
    requires b.addr in m0 && m0[b.addr].size == b.size
    requires Merged(m0, m1, end, Before(FreeList(pre) + FreeList(post), start, |FreeList(pre)|), b.addr)
    ensures Linked(m1, start, end, FreeList(Coalesce(pre, b, post)))
  {
    InsertedFreeList(pre, b, post, lo, end);
    Ends(pre, b, post, lo, end);
    MergeLists(m0, m1, start, end, FreeList(pre), b, FreeList(post), EndsFree(pre), StartsFree(post), lo);
  }

  lemma Ends(pre: seq<Block>, b: Block, post: seq<Block>, lo: nat, hi: nat)
    requires Tiled(pre, lo, b.addr) && b.size > 0 && Tiled(post, b.addr + b.size, hi)
    ensures Around(FreeList(pre), b, FreeList(post), EndsFree(pre), StartsFree(post), lo, hi)
  {
    FreeListRange(pre, lo, b.addr);
    FreeListRange(post, b.addr + b.size, hi);
    TiledBounds(pre, lo, b.addr);
    TiledBounds(post, b.addr + b.size, hi);
    LastFree(pre, lo, b.addr);
    FirstFree(post, b.addr + b.size, hi);
  }

  /** Free blocks `f0` below and `f1` above block `b`; `l` and `r` say whether they touch it. */
  ghost predicate Around(f0: seq<Block>, b: Block, f1: seq<Block>, l: bool, r: bool, lo: nat, hi: nat) {
    && b.size > 0 && lo <= b.addr && b.addr + b.size <= hi
    && Sits(f0, lo, b.addr) && Sits(f1, b.addr + b.size, hi)
    && (l ==> |f0| > 0) && (|f0| > 0 ==> (l <==> f0[|f0| - 1].addr + f0[|f0| - 1].size == b.addr))
    && (r ==> |f1| > 0) && (|f1| > 0 ==> (r <==> f1[0].addr == b.addr + b.size))
  }

  ghost function MergedBlock(f0: seq<Block>, b: Block, f1: seq<Block>, l: bool, r: bool): Block
    requires (l ==> |f0| > 0) && (r ==> |f1| > 0)
  {
    Block(if l then f0[|f0| - 1].addr else b.addr,
          (if l then f0[|f0| - 1].size else 0) + b.size + (if r then f1[0].size else 0), true)
  }

  lemma MergeLists(m0: Memory, m1: Memory, start: nat, end: nat,
                   f0: seq<Block>, b: Block, f1: seq<Block>, l: bool, r: bool, lo: nat)
    requires Linked(m0, start, end, f0 + f1) && !(lo <= start <= end) && Around(f0, b, f1, l, r, lo, end)
    requires b.addr in m0 && m0[b.addr].size == b.size
    requires Merged(m0, m1, end, Before(f0 + f1, start, |f0|), b.addr)
    ensures Linked(m1, start, end, (if l then f0[..|f0| - 1] else f0)
                                   + [MergedBlock(f0, b, f1, l, r)]
                                   + (if r then f1[1..] else f1))
  {
    var fs, p := f0 + f1, |f0|;
    var spot := Before(fs, start, p);
    assert m0[spot].next == After(fs, end, p);
    assert spot == Before(f0, start, p);
    assert l <==> spot + m0[spot].size == b.addr by {
      if p > 0 { assert fs[p - 1] == f0[p - 1]; }
    }
    if r {
      assert fs[p] == f1[0];
      assert Before(fs, start, p + 1) == f1[0].addr;
      assert m0[f1[0].addr] == Header(After(fs, end, p + 1), f1[0].size);
    }
    var m := MergedBlock(f0, b, f1, l, r);
    assert m1[m.addr] == Header(After(fs, end, if r then p + 1 else p), m.size);
    if l {
      var prev := Before(fs, start, p - 1);
      assert m0[prev].next == After(fs, end, p - 1) == f0[p - 1].addr;
    }
    MergedChain(m0, m1, start, end, f0, b, f1, l, r, lo, m);
  }

  lemma MergedChain(m0: Memory, m1: Memory, start: nat, end: nat,
                    f0: seq<Block>, b: Block, f1: seq<Block>, l: bool, r: bool, lo: nat, m: Block)
    requires Linked(m0, start, end, f0 + f1) && !(lo <= start <= end) && Around(f0, b, f1, l, r, lo, end)
    requires m.addr == if l then f0[|f0| - 1].addr else b.addr
    requires var p := |f0|;
             var prev := Before(f0 + f1, start, if l then p - 1 else p);
             && m.addr in m1 && m1[m.addr] == Header(After(f0 + f1, end, if r then p + 1 else p), m.size)
             && (forall a | a in m0 && a != prev && a != m.addr && a != b.addr :: a in m1 && m1[a] == m0[a])
             && prev in m0 && prev in m1 && m1[prev] == Header(m.addr, m0[prev].size)
    ensures Linked(m1, start, end, (if l then f0[..|f0| - 1] else f0) + [m] + (if r then f1[1..] else f1))
  {
    var front := if l then f0[..|f0| - 1] else f0;
    var back := if r then f1[1..] else f1;
    var mid := (if l then [f0[|f0| - 1]] else []) + (if r then [f1[0]] else []);
    Pieces(f0, f1, l, r, start, end);
    PiecesJoin(f0, f1, l, r);
    PiecesApart(f0, b, f1, l, r, lo, end, start, m.addr, front, back);
    Relink(m0, m1, start, end, front, mid, back, m, b.addr);
  }

  /** The entries of the free list that stay are apart from what is merged. */
  lemma PiecesApart(f0: seq<Block>, b: Block, f1: seq<Block>, l: bool, r: bool, lo: nat, end: nat, start: nat, x: nat,
                    front: seq<Block>, back: seq<Block>)
    requires Around(f0, b, f1, l, r, lo, end) && !(lo <= start <= end) && x == if l then f0[|f0| - 1].addr else b.addr
    requires front == (if l then f0[..|f0| - 1] else f0) && back == if r then f1[1..] else f1
    ensures start != end && x !in {start, end} && b.addr !in {start, end}
    ensures forall i | 0 <= i < |front| :: front[i].addr !in {x, b.addr, start, end}
    ensures forall j | 0 <= j < |back| :: back[j].addr !in {x, b.addr, start, end}
    ensures forall i, j | 0 <= i < j < |front| :: front[i].addr != front[j].addr
    ensures forall i, j | 0 <= i < |front| && 0 <= j < |back| :: front[i].addr != back[j].addr
  {
  }

  lemma PiecesJoin(f0: seq<Block>, f1: seq<Block>, l: bool, r: bool)
    requires (l ==> |f0| > 0) && (r ==> |f1| > 0)
    ensures (if l then f0[..|f0| - 1] else f0)
            + ((if l then [f0[|f0| - 1]] else []) + (if r then [f1[0]] else []))
            + (if r then f1[1..] else f1) == f0 + f1
  {
    var front, left := if l then f0[..|f0| - 1] else f0, if l then [f0[|f0| - 1]] else [];
    var right, back := if r then [f1[0]] else [], if r then f1[1..] else f1;
    assert front + left == f0;
    assert right + back == f1;
    assert front + (left + right) + back == (front + left) + (right + back);
  }

  lemma Pieces(f0: seq<Block>, f1: seq<Block>, l: bool, r: bool, start: nat, end: nat)
    requires (l ==> |f0| > 0) && (r ==> |f1| > 0)
    ensures var front := if l then f0[..|f0| - 1] else f0;
            var back := if r then f1[1..] else f1;
            && (forall i | 0 <= i < |front| :: front[i] == f0[i])
            && (forall i | 0 <= i < |back| :: back[i] == f1[if r then i + 1 else i])
            && After(back, end, 0) == After(f0 + f1, end, if r then |f0| + 1 else |f0|)
            && Before(front, start, |front|) == Before(f0 + f1, start, |front|)
  {
  }

  lemma InsertedFreeList(pre: seq<Block>, b: Block, post: seq<Block>, lo: nat, hi: nat)
    requires Tiled(pre, lo, b.addr) && Tiled(post, b.addr + b.size, hi)
    ensures var f0, f1, l, r := FreeList(pre), FreeList(post), EndsFree(pre), StartsFree(post);
            && (l ==> |f0| > 0) && (r ==> |f1| > 0)
            && FreeList(Coalesce(pre, b, post))
               == (if l then f0[..|f0| - 1] else f0) + [MergedBlock(f0, b, f1, l, r)] + (if r then f1[1..] else f1)
  {
    LastFree(pre, lo, b.addr);
    FirstFree(post, b.addr + b.size, hi);
    var pre' := if EndsFree(pre) then pre[..|pre| - 1] else pre;
    var post' := if StartsFree(post) then post[1..] else post;
    var m := MergedBlock(FreeList(pre), b, FreeList(post), EndsFree(pre), StartsFree(post));
    CoalesceParts(pre, b, post, pre', m, post');
    FreeAround(pre', m, post');
  }

  lemma CoalesceParts(pre: seq<Block>, b: Block, post: seq<Block>, pre': seq<Block>, m: Block, post': seq<Block>)
    requires pre' == (if EndsFree(pre) then pre[..|pre| - 1] else pre)
    requires post' == (if StartsFree(post) then post[1..] else post)
    requires m.addr == (if EndsFree(pre) then pre[|pre| - 1].addr else b.addr) && m.free
    requires m.size == (if EndsFree(pre) then pre[|pre| - 1].size else 0) + b.size
                       + (if StartsFree(post) then post[0].size else 0)
    ensures Coalesce(pre, b, post) == pre' + [m] + post'
  {
  }

  lemma FreeAround(a: seq<Block>, m: Block, b: seq<Block>)
    requires m.free
    ensures FreeList(a + [m] + b) == FreeList(a) + [m] + FreeList(b)
  {
    assert a + [m] + b == a + ([m] + b) && ([m] + b)[1..] == b;
    FreeConcat(a, [m] + b);
  }

  /** The blocks `mid` of the free list give way to one block `m`. */
  lemma Relink(mem: Memory, mem': Memory, start: nat, end: nat,
               front: seq<Block>, mid: seq<Block>, back: seq<Block>, m: Block, x: nat)
    requires Linked(mem, start, end, front + mid + back)
    requires start != end && m.addr !in {start, end} && x !in {start, end}
    requires forall i | 0 <= i < |front| :: front[i].addr !in {m.addr, x, start, end}
    requires forall j | 0 <= j < |back| :: back[j].addr !in {m.addr, x, start, end}
    requires forall i, j | 0 <= i < j < |front| :: front[i].addr != front[j].addr
    requires forall i, j | 0 <= i < |front| && 0 <= j < |back| :: front[i].addr != back[j].addr
    requires var prev := Before(front, start, |front|);
             && (forall a | a in mem && a != prev && a != m.addr && a != x :: a in mem' && mem'[a] == mem[a])
             && prev in mem && prev in mem' && mem'[prev] == Header(m.addr, mem[prev].size)
    requires m.addr in mem' && mem'[m.addr] == Header(After(back, end, 0), m.size)
    ensures Linked(mem', start, end, front + [m] + back)
  {
    var fs, gs := front + mid + back, front + [m] + back;
    var k, d := |front|, |mid|;
    forall p | 0 <= p <= |gs|
      ensures Before(gs, start, p) in mem' && mem'[Before(gs, start, p)].next == After(gs, end, p)
    {
      if p < k {
        assert Before(gs, start, p) == Before(fs, start, p) == Before(front, start, p) && After(gs, end, p) == After(fs, end, p);
      } else if p == k {
        assert Before(gs, start, p) == Before(front, start, p);
      } else if p > k + 1 {
        assert Before(gs, start, p) == Before(fs, start, p + d - 1) == back[p - k - 2].addr && After(gs, end, p) == After(fs, end, p + d - 1);
      }
    }
    forall p | 0 <= p < |gs|
      ensures gs[p].addr in mem' && mem'[gs[p].addr].size == gs[p].size
    {
      if p < k { assert gs[p] == fs[p] == front[p]; }
      else if p > k { assert gs[p] == fs[p + d - 1] == back[p - k - 1]; }
    }
  }
}
