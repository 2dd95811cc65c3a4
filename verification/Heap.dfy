/** The kernel heap: an intrusive free list over one region, kept sorted by address and
    coalesced. `blocks` is the ghost view of the region as a row of adjacent blocks. */
module Heap {
  import opened Arith
  import Words

  const HEADER := 24
  const MIN_SPLIT := 40
  const TWO_64 := 0x1_0000_0000_0000_0000

  datatype Header = Header(size: nat, next: nat, free: bool)

  /** A block starts with its header at `addr`, followed by `size` payload bytes. */
  datatype Block = Block(addr: nat, size: nat, free: bool)

  function End(b: Block): nat { b.addr + HEADER + b.size }

  /** 64-bit round-up to a multiple of 8, which wraps around near 2^64. */
  function AlignUp(x: nat): nat { (x + 7) % TWO_64 / 8 * 8 }

  // ---- the row of blocks ----

  /** The blocks cover [lo, hi) exactly, in address order. */
  ghost predicate Tiles(bs: seq<Block>, lo: nat, hi: nat) {
    if bs == [] then lo == hi
    else bs[0].addr == lo && Tiles(bs[1..], End(bs[0]), hi)
  }

  /** No two neighbours are both free. */
  ghost predicate Coalesced(bs: seq<Block>) {
    forall i :: 0 <= i < |bs| - 1 ==> !(bs[i].free && bs[i + 1].free)
  }

  ghost function Used(bs: seq<Block>): nat {
    if bs == [] then 0 else (if bs[0].free then 0 else HEADER + bs[0].size) + Used(bs[1..])
  }

  /** Address of the first free block, or 0. */
  ghost function First(bs: seq<Block>): nat {
    if bs == [] then 0 else if bs[0].free then bs[0].addr else First(bs[1..])
  }

  ghost predicate Positive(bs: seq<Block>) { forall i :: 0 <= i < |bs| ==> bs[i].addr > 0 }

  lemma {:induction false} TilesAppend(xs: seq<Block>, ys: seq<Block>, lo: nat, mid: nat, hi: nat)
    requires Tiles(xs, lo, mid) && Tiles(ys, mid, hi)
    ensures Tiles(xs + ys, lo, hi)
    decreases |xs|
  {
    if xs == [] { assert xs + ys == ys; } else {
      assert (xs + ys)[1..] == xs[1..] + ys;
      TilesAppend(xs[1..], ys, End(xs[0]), mid, hi);
    }
  }

  lemma {:induction false} TilesSplit(bs: seq<Block>, i: nat, lo: nat, hi: nat)
    requires Tiles(bs, lo, hi) && i < |bs|
    ensures Tiles(bs[..i], lo, bs[i].addr) && Tiles(bs[i + 1..], End(bs[i]), hi)
    ensures lo <= bs[i].addr && End(bs[i]) <= hi
    decreases i
  {
    if i == 0 {
      TilesBounds(bs[1..], End(bs[0]), hi);
    } else {
      TilesSplit(bs[1..], i - 1, End(bs[0]), hi);
      assert bs[1..][..i - 1] == bs[1..i] && bs[1..][i..] == bs[i + 1..];
      assert bs[..i][1..] == bs[1..i];
    }
  }

  lemma {:induction false} TilesBounds(bs: seq<Block>, lo: nat, hi: nat)
    requires Tiles(bs, lo, hi)
    ensures lo <= hi
  {
    if bs != [] { TilesBounds(bs[1..], End(bs[0]), hi); }
  }

  /** Later blocks start at or after the end of earlier ones. */
  lemma TilesOrder(bs: seq<Block>, i: nat, j: nat, lo: nat, hi: nat)
    requires Tiles(bs, lo, hi) && i < j < |bs|
    ensures End(bs[i]) <= bs[j].addr
    ensures j == i + 1 ==> End(bs[i]) == bs[j].addr
  {
    TilesSplit(bs, i, lo, hi);
    TilesSplit(bs[i + 1..], j - i - 1, End(bs[i]), hi);
  }

  lemma {:induction false} FirstAppend(xs: seq<Block>, ys: seq<Block>)
    requires Positive(xs)
    ensures First(xs + ys) == if First(xs) != 0 then First(xs) else First(ys)
  {
    if xs == [] { assert xs + ys == ys; } else {
      assert (xs + ys)[1..] == xs[1..] + ys;
      FirstAppend(xs[1..], ys);
    }
  }

  lemma {:induction false} UsedAppend(xs: seq<Block>, ys: seq<Block>)
    ensures Used(xs + ys) == Used(xs) + Used(ys)
  {
    if xs == [] { assert xs + ys == ys; } else {
      assert (xs + ys)[1..] == xs[1..] + ys;
      UsedAppend(xs[1..], ys);
    }
  }

  lemma {:induction false} FirstIs(bs: seq<Block>) returns (i: nat)
    requires First(bs) != 0
    ensures i < |bs| && bs[i].free && bs[i].addr == First(bs)
    ensures forall j :: 0 <= j < i ==> !bs[j].free
  {
    if bs[0].free { i := 0; } else { i := FirstIs(bs[1..]); i := i + 1; }
  }

  lemma {:induction false} FirstNone(bs: seq<Block>)
    requires First(bs) == 0 && Positive(bs)
    ensures forall j :: 0 <= j < |bs| ==> !bs[j].free
  {
    if bs != [] { FirstNone(bs[1..]); }
  }

  // ---- what allocation and release do to the row ----

  /** Replaces block `i` by the blocks `xs`. */
  function Splice(bs: seq<Block>, i: nat, xs: seq<Block>): seq<Block>
    requires i < |bs|
  {
    bs[..i] + xs + bs[i + 1..]
  }

  /** Block `b` after `n` of its bytes have been handed out. */
  function Carve(b: Block, n: nat): seq<Block>
    requires n <= b.size
  {
    if b.size - n >= MIN_SPLIT
    then [Block(b.addr, n, false), Block(b.addr + HEADER + n, b.size - n - HEADER, true)]
    else [Block(b.addr, b.size, false)]
  }

  /** Block `i` is the first free block with room for `n` bytes. */
  predicate Fits(bs: seq<Block>, i: nat, n: nat) {
    && i < |bs| && bs[i].free && bs[i].size >= n
    && forall j :: 0 <= j < i ==> !(bs[j].free && bs[j].size >= n)
  }

  function Allocated(bs: seq<Block>, i: nat, n: nat): seq<Block>
    requires Fits(bs, i, n)
  {
    Splice(bs, i, Carve(bs[i], n))
  }

  /** Two touching blocks become one free block. */
  function Join(a: Block, b: Block): Block { Block(a.addr, a.size + HEADER + b.size, true) }

  /** Block `i` is freed and merged with a free right neighbour, then with a free left one. */
  function Released(bs: seq<Block>, i: nat): seq<Block>
    requires i < |bs|
  {
    MergeLeft(MergeRight(bs[i := bs[i].(free := true)], i), i)
  }

  function MergeRight(bs: seq<Block>, i: nat): (r: seq<Block>)
    requires i < |bs|
    ensures i < |r|
  {
    if i + 1 < |bs| && bs[i + 1].free then bs[..i] + [Join(bs[i], bs[i + 1])] + bs[i + 2..] else bs
  }

  function MergeLeft(bs: seq<Block>, i: nat): seq<Block>
    requires i < |bs|
  {
    if i > 0 && bs[i - 1].free then bs[..i - 1] + [Join(bs[i - 1], bs[i])] + bs[i + 1..] else bs
  }

  /** What every reachable heap satisfies. */
  ghost predicate Inv(bs: seq<Block>, lo: nat, hi: nat) {
    Tiles(bs, lo, hi) && Coalesced(bs) && Positive(bs)
  }

  lemma SpliceTiles(bs: seq<Block>, i: nat, xs: seq<Block>, lo: nat, hi: nat)
    requires Tiles(bs, lo, hi) && i < |bs| && Tiles(xs, bs[i].addr, End(bs[i]))
    ensures Tiles(Splice(bs, i, xs), lo, hi)
  {
    TilesSplit(bs, i, lo, hi);
    TilesAppend(xs, bs[i + 1..], bs[i].addr, End(bs[i]), hi);
    TilesAppend(bs[..i], xs + bs[i + 1..], lo, bs[i].addr, hi);
    assert bs[..i] + xs + bs[i + 1..] == bs[..i] + (xs + bs[i + 1..]);
  }

  lemma AllocKeepsInv(bs: seq<Block>, i: nat, n: nat, lo: nat, hi: nat)
    requires Inv(bs, lo, hi) && Fits(bs, i, n)
    ensures Inv(Allocated(bs, i, n), lo, hi)
    ensures Used(Allocated(bs, i, n)) == Used(bs) + HEADER + Carve(bs[i], n)[0].size
  {
    var xs := Carve(bs[i], n);
    if |xs| == 2 {
      assert xs[1..] == [xs[1]] && xs[1..][1..] == [];
      assert Tiles(xs[1..], xs[1].addr, End(bs[i]));
    } else {
      assert xs[1..] == [];
    }
    SpliceTiles(bs, i, xs, lo, hi);
    SpliceUsed(bs, i, xs);
    assert Used([bs[i]]) == 0;
    assert Used(xs) == HEADER + xs[0].size;
  }

  lemma SpliceUsed(bs: seq<Block>, i: nat, xs: seq<Block>)
    requires i < |bs|
    ensures Used(Splice(bs, i, xs)) + Used([bs[i]]) == Used(bs) + Used(xs)
  {
    UsedAppend(bs[..i], xs);
    UsedAppend(bs[..i] + xs, bs[i + 1..]);
    assert bs == bs[..i] + [bs[i]] + bs[i + 1..];
    UsedAppend(bs[..i], [bs[i]]);
    UsedAppend(bs[..i] + [bs[i]], bs[i + 1..]);
  }

  lemma JoinTiles(bs: seq<Block>, i: nat, lo: nat, hi: nat)
    requires Tiles(bs, lo, hi) && i + 1 < |bs|
    ensures Tiles(bs[..i] + [Join(bs[i], bs[i + 1])] + bs[i + 2..], lo, hi)
  {
    TilesSplit(bs, i, lo, hi);
    TilesSplit(bs, i + 1, lo, hi);
    TilesOrder(bs, i, i + 1, lo, hi);
    var j := Join(bs[i], bs[i + 1]);
    assert Tiles([j], bs[i].addr, End(bs[i + 1])) by { assert [j][1..] == []; }
    TilesAppend([j], bs[i + 2..], bs[i].addr, End(bs[i + 1]), hi);
    TilesAppend(bs[..i], [j] + bs[i + 2..], lo, bs[i].addr, hi);
    assert bs[..i] + [j] + bs[i + 2..] == bs[..i] + ([j] + bs[i + 2..]);
  }

  lemma JoinUsed(bs: seq<Block>, i: nat)
    requires i + 1 < |bs| && bs[i].free && bs[i + 1].free
    ensures Used(bs[..i] + [Join(bs[i], bs[i + 1])] + bs[i + 2..]) == Used(bs)
  {
    var j := Join(bs[i], bs[i + 1]);
    UsedAppend(bs[..i], [j]);
    UsedAppend(bs[..i] + [j], bs[i + 2..]);
    assert bs == bs[..i] + [bs[i], bs[i + 1]] + bs[i + 2..];
    UsedAppend(bs[..i], [bs[i], bs[i + 1]]);
    UsedAppend(bs[..i] + [bs[i], bs[i + 1]], bs[i + 2..]);
    assert [bs[i], bs[i + 1]][1..] == [bs[i + 1]];
  }

  /** Only the pair that starts at `i` may be free on both sides. */
  ghost predicate CoalescedBut(bs: seq<Block>, i: int) {
    forall k :: 0 <= k < |bs| - 1 && k != i ==> !(bs[k].free && bs[k + 1].free)
  }

  lemma MergeLeftCoalesced(bs: seq<Block>, i: nat)
    requires CoalescedBut(bs, i - 1) && Positive(bs) && i < |bs| && bs[i].free
    ensures Coalesced(MergeLeft(bs, i)) && Positive(MergeLeft(bs, i))
  {
    var r := MergeLeft(bs, i);
    if i > 0 && bs[i - 1].free {
      assert forall k :: 0 <= k < i - 1 ==> r[k] == bs[k];
      assert forall k :: i <= k < |r| ==> r[k] == bs[k + 1];
    }
  }

  lemma MergeRightCoalesced(bs: seq<Block>, i: nat)
    requires Coalesced(bs) && Positive(bs) && i < |bs|
    ensures var r := MergeRight(bs[i := bs[i].(free := true)], i);
      CoalescedBut(r, i - 1) && Positive(r) && r[i].free
  {
    var b1 := bs[i := bs[i].(free := true)];
    var r := MergeRight(b1, i);
    assert forall k :: 0 <= k < i ==> r[k] == bs[k];
    if |r| != |b1| {
      assert forall k :: i < k < |r| ==> r[k] == bs[k + 1];
    }
  }

  lemma MergeTiles(bs: seq<Block>, i: nat, lo: nat, hi: nat)
    requires Tiles(bs, lo, hi) && i < |bs| && bs[i].free
    ensures Tiles(MergeLeft(MergeRight(bs, i), i), lo, hi)
    ensures Used(MergeLeft(MergeRight(bs, i), i)) == Used(bs)
  {
    hide Tiles, Used;
    var b2 := MergeRight(bs, i);
    if i + 1 < |bs| && bs[i + 1].free {
      JoinTiles(bs, i, lo, hi);
      JoinUsed(bs, i);
    }
    if i > 0 && b2[i - 1].free {
      JoinTiles(b2, i - 1, lo, hi);
      JoinUsed(b2, i - 1);
    }
  }

  lemma ReleaseKeepsInv(bs: seq<Block>, i: nat, lo: nat, hi: nat)
    requires Inv(bs, lo, hi) && i < |bs| && !bs[i].free
    ensures Inv(Released(bs, i), lo, hi)
    ensures Used(Released(bs, i)) == Used(bs) - HEADER - bs[i].size
  {
    var b := bs[i].(free := true);
    assert bs[i := b] == Splice(bs, i, [b]);
    assert Tiles([b], bs[i].addr, End(bs[i])) by { assert [b][1..] == []; }
    SpliceTiles(bs, i, [b], lo, hi);
    SpliceUsed(bs, i, [b]);
    assert Used([b]) == 0 && Used([bs[i]]) == HEADER + bs[i].size;
    hide Tiles, Used, Coalesced, Positive;
    MergeTiles(bs[i := b], i, lo, hi);
    MergeRightCoalesced(bs, i);
    MergeLeftCoalesced(MergeRight(bs[i := b], i), i);
  }

  // ---- consequences ----

  /** Payloads of different blocks never overlap. */
  lemma PayloadsDisjoint(bs: seq<Block>, i: nat, j: nat, lo: nat, hi: nat, x: nat)
    requires Tiles(bs, lo, hi) && i < |bs| && j < |bs| && i != j
    requires bs[i].addr + HEADER <= x < End(bs[i])
    ensures !(bs[j].addr <= x < End(bs[j]))
    ensures lo <= x < hi
  {
    if i < j { TilesOrder(bs, i, j, lo, hi); } else { TilesOrder(bs, j, i, lo, hi); }
    TilesSplit(bs, i, lo, hi);
  }

  lemma Neighbours(bs: seq<Block>, k: nat)
    requires Coalesced(bs) && k + 1 < |bs|
    ensures !(bs[k].free && bs[k + 1].free)
  {
  }

  /** When nothing is live, the whole region is one free block and nothing counts as used. */
  lemma AllFree(bs: seq<Block>, lo: nat, hi: nat)
    requires Inv(bs, lo, hi) && lo < hi && forall i :: 0 <= i < |bs| ==> bs[i].free
    ensures lo + HEADER <= hi && bs == [Block(lo, hi - lo - HEADER, true)] && Used(bs) == 0
  {
    if |bs| >= 2 { Neighbours(bs, 0); assert false; }
    assert bs == [bs[0]] && bs[1..] == [];
    assert Tiles(bs[1..], End(bs[0]), hi);
  }

  // ---- headers in memory ----

  /** Every block's header is in memory, and the free ones are linked in address order. */
  ghost predicate Linked(hdr: map<nat, Header>, bs: seq<Block>) {
    forall i :: 0 <= i < |bs| ==>
      && bs[i].addr in hdr
      && hdr[bs[i].addr].size == bs[i].size
      && hdr[bs[i].addr].free == bs[i].free
      && (bs[i].free ==> hdr[bs[i].addr].next == First(bs[i + 1..]))
  }

  /** Block `k` is the last free block before block `c`; `k == c` when there is none. */
  ghost predicate LastFreeBefore(bs: seq<Block>, k: nat, c: nat) {
    && k <= c <= |bs|
    && (k < c ==> bs[k].free)
    && forall j :: (if k < c then k + 1 else 0) <= j < c ==> !bs[j].free
  }

  lemma {:induction false} FirstFound(bs: seq<Block>, j: nat)
    requires j < |bs| && bs[j].free && Positive(bs)
    ensures First(bs) != 0
    decreases j
  {
    if j > 0 && !bs[0].free { FirstFound(bs[1..], j - 1); }
  }

  lemma {:induction false} FirstEmpty(bs: seq<Block>)
    requires forall j :: 0 <= j < |bs| ==> !bs[j].free
    ensures First(bs) == 0
  {
    if bs != [] { FirstEmpty(bs[1..]); }
  }

  /** Replacing the blocks from `c` on changes the link of the last free block before `c` only. */
  lemma LinkBefore(bs: seq<Block>, c: nat, tail: seq<Block>, k: nat, i: nat)
    requires c <= |bs| && Positive(bs) && LastFreeBefore(bs, k, c) && i < c && bs[i].free
    ensures i <= k < c
    ensures i < k ==> First((bs[..c] + tail)[i + 1..]) == First(bs[i + 1..])
    ensures i == k ==> First((bs[..c] + tail)[i + 1..]) == First(tail)
  {
    var mid := bs[i + 1..c];
    assert (bs[..c] + tail)[i + 1..] == mid + tail;
    assert bs[i + 1..] == mid + bs[c..];
    FirstAppend(mid, tail);
    FirstAppend(mid, bs[c..]);
    if i < k {
      assert mid[k - i - 1] == bs[k];
      FirstFound(mid, k - i - 1);
    } else {
      FirstEmpty(mid);
    }
  }

  lemma HeadBefore(bs: seq<Block>, c: nat, tail: seq<Block>, k: nat)
    requires c <= |bs| && Positive(bs) && LastFreeBefore(bs, k, c)
    ensures k < c ==> First(bs[..c] + tail) == First(bs)
    ensures k == c ==> First(bs[..c] + tail) == First(tail)
  {
    FirstAppend(bs[..c], tail);
    FirstAppend(bs[..c], bs[c..]);
    assert bs == bs[..c] + bs[c..];
    if k < c {
      assert bs[..c][k] == bs[k];
      FirstFound(bs[..c], k);
    } else {
      FirstEmpty(bs[..c]);
    }
  }

  /** Headers after blocks `c..e` have been replaced by `xs`: those of `xs` are right, the
      block before them is relinked, and the others are as they were. */
  ghost predicate Relinked(hdr: map<nat, Header>, hdr': map<nat, Header>, bs: seq<Block>, c: nat, e: nat,
                           xs: seq<Block>, k: nat)
    requires c <= e <= |bs| && k <= c
  {
    && LinkedTo(hdr', xs, bs[e..])
    && Kept(hdr, hdr', bs, c, e, k)
    && (k < c && bs[k].addr in hdr ==>
          bs[k].addr in hdr' && hdr'[bs[k].addr] == hdr[bs[k].addr].(next := First(xs + bs[e..])))
  }

  ghost predicate LinkedTo(h: map<nat, Header>, xs: seq<Block>, rest: seq<Block>) {
    forall i :: 0 <= i < |xs| ==>
      && xs[i].addr in h && h[xs[i].addr].size == xs[i].size && h[xs[i].addr].free == xs[i].free
      && (xs[i].free ==> h[xs[i].addr].next == First(xs[i + 1..] + rest))
  }

  ghost predicate Kept(h: map<nat, Header>, h': map<nat, Header>, bs: seq<Block>, c: nat, e: nat, k: nat)
    requires c <= e <= |bs| && k <= c
  {
    forall i :: (0 <= i < c || e <= i < |bs|) && (k < c ==> i != k) && bs[i].addr in h ==>
      bs[i].addr in h' && h'[bs[i].addr] == h[bs[i].addr]
  }

  lemma RelinkedIsLinked(hdr: map<nat, Header>, hdr': map<nat, Header>, bs: seq<Block>, c: nat, e: nat, xs: seq<Block>,
                         k: nat)
    requires c <= e <= |bs| && Positive(bs) && Linked(hdr, bs) && LastFreeBefore(bs, k, c)
    requires Relinked(hdr, hdr', bs, c, e, xs, k)
    ensures Linked(hdr', bs[..c] + xs + bs[e..])
  {
    var tail := xs + bs[e..];
    var r := bs[..c] + tail;
    assert r == bs[..c] + xs + bs[e..];
    forall i | 0 <= i < |r|
      ensures r[i].addr in hdr' && hdr'[r[i].addr].size == r[i].size && hdr'[r[i].addr].free == r[i].free
      ensures r[i].free ==> hdr'[r[i].addr].next == First(r[i + 1..])
    {
      if i < c {
        assert r[i] == bs[i];
        if bs[i].free { LinkBefore(bs, c, tail, k, i); }
      } else if i < c + |xs| {
        assert r[i] == xs[i - c];
        assert r[i + 1..] == xs[i - c + 1..] + bs[e..];
      } else {
        var j := i - c - |xs| + e;
        assert r[i] == bs[j] && r[i + 1..] == bs[j + 1..];
      }
    }
  }

  class Allocator {
    var hdr: map<nat, Header>
    var freeList: nat
    var used: nat
    var total: nat
    ghost var blocks: seq<Block>
    ghost var lo: nat
    ghost var hi: nat

    ghost predicate Valid()
      reads this
    {
      && Inv(blocks, lo, hi)
      && hi <= TWO_64
      && Linked(hdr, blocks)
      && freeList == First(blocks)
      && used == Used(blocks)
    }

    /** One region; a region too small for a header and 16 bytes gives an empty heap. */
    constructor (base: nat, size: nat)
      requires 0 < base && base + size <= TWO_64
      ensures Valid() && used == 0 && total == size
      ensures var aligned := (base + 7) / 8 * 8;
        if base + size < aligned + 40 then blocks == []
        else lo == aligned && hi == base + size && blocks == [Block(lo, hi - lo - 24, true)]
    {
      var aligned := AlignUp(base);
      used, total := 0, size;
      if size < MIN_SPLIT || size - (aligned - base) < MIN_SPLIT {
        hdr, freeList := map[], 0;
        blocks, lo, hi := [], 0, 0;
      } else {
        var n := size - (aligned - base) - HEADER;
        hdr := map[aligned := Header(n, 0, true)];
        freeList := aligned;
        blocks, lo, hi := [Block(aligned, n, true)], aligned, base + size;
        assert [Block(aligned, n, true)][1..] == [];
      }
    }

    /** First fit: the lowest free block with room, split when enough is left over. */
    method Kmalloc(size: nat) returns (p: nat)
      requires Valid() && size < TWO_64
      modifies this
      ensures Valid() && lo == old(lo) && hi == old(hi) && total == old(total)
      ensures blocks == Step(old(blocks), Malloc(size))
      ensures p == 0 <==> size == 0 || forall i: nat :: !Fits(old(blocks), i, AlignUp(size))
      ensures p != 0 ==> exists i: nat :: (
        Fits(old(blocks), i, AlignUp(size))
        && blocks == Allocated(old(blocks), i, AlignUp(size)) && p == old(blocks)[i].addr + HEADER)
    {
      if size == 0 {
        return 0;
      }
      hide Inv, Linked, First, Used, Allocated, AlignUp;
      var n := AlignUp(size);
      var prev, curr, c, k := Search(n);
      if curr != 0 {
        FitUnique(blocks, c, n);
        Take(prev, curr, n, c, k);
        return curr + HEADER;
      }
      return 0;
    }

    /** An allocation with alignment: the block for the total is taken, and `q` is its payload rounded up, behind a
        word that saves where the payload starts. It all lies in the block exactly when the address fits in
        32 bits and the total does not wrap. */
    method KmallocAligned(size: nat, alignment: Words.u32) returns (q: nat, ghost c: nat)
      requires Valid() && size < TWO_64
      modifies this
      ensures Valid() && lo == old(lo) && hi == old(hi) && total == old(total)
      ensures var n := AlignedTotal(size, alignment);
        && blocks == Step(old(blocks), Malloc(n)) && c <= |blocks|
        && (c == |blocks| <==> n == 0 || forall i: nat :: !Fits(old(blocks), i, AlignUp(n)))
        && (c == |blocks| ==> q == 0 && blocks == old(blocks))
      ensures c < |blocks| ==>
        && var p, a := blocks[c].addr + HEADER, Alignment(alignment);
        && !blocks[c].free && q == AlignedPtr(p, alignment)
        && (Within(blocks[c], q, size) <==> p + a + 8 < Words.TWO_32 && size + a + 8 <= TWO_64 - 8)
    {
      hide Inv, Linked, First, Used, AlignUp, AlignedPtr, Step;
      var p := Kmalloc(AlignedTotal(size, alignment));
      q, c := 0, |blocks|;
      if p == 0 {
        NothingTaken(old(blocks), AlignedTotal(size, alignment));
      } else {
        ghost var n := AlignUp(AlignedTotal(size, alignment));
        c :| Fits(old(blocks), c, n) && blocks == Allocated(old(blocks), c, n) && p == old(blocks)[c].addr + HEADER;
        Granted(old(blocks), c, n);
        AlignedInside(blocks[c], size, alignment);
        q := AlignedPtr(p, alignment);
      }
    }

    /** Walks the free list to the first block with room, remembering the one before it. */
    method Search(n: nat) returns (prev: nat, curr: nat, ghost c: nat, ghost k: nat)
      requires Valid()
      ensures curr == 0 ==> forall j: nat :: !Fits(blocks, j, n)
      ensures curr != 0 ==> Fits(blocks, c, n) && curr == blocks[c].addr && LastFreeBefore(blocks, k, c)
      ensures curr != 0 ==> if k < c then prev == blocks[k].addr else prev == 0
    {
      hide Tiles, Used, Coalesced, Linked;
      prev, curr, c, k := 0, freeList, 0, 0;
      ghost var i := 0;
      assert blocks[0..] == blocks;
      while curr != 0
        invariant 0 <= i <= |blocks| && curr == First(blocks[i..]) && LastFreeBefore(blocks, k, i)
        invariant if k < i then prev == blocks[k].addr else prev == 0
        invariant forall j :: 0 <= j < i ==> !(blocks[j].free && blocks[j].size >= n)
        decreases |blocks| - i
      {
        ghost var d := FirstIs(blocks[i..]);
        c := i + d;
        LinkedAt(hdr, blocks, c);
        assert blocks[c] == blocks[i..][d] && forall j :: i <= j < c ==> blocks[j] == blocks[i..][j - i];
        if hdr[curr].size >= n {
          k := if k < i then k else c;
          return;
        }
        prev, curr := curr, hdr[curr].next;
        i, k := c + 1, c;
      }
      NoneFrom(blocks, i);
    }

    /** Unlinks the chosen block `curr`, giving back what is left over. */
    method Take(prev: nat, curr: nat, n: nat, ghost c: nat, ghost k: nat)
      requires Valid() && Fits(blocks, c, n) && curr == blocks[c].addr
      requires LastFreeBefore(blocks, k, c) && (if k < c then prev == blocks[k].addr else prev == 0)
      modifies this
      ensures Valid() && lo == old(lo) && hi == old(hi) && total == old(total)
      ensures blocks == Allocated(old(blocks), c, n)
    {
      hide Tiles, Used, First, Coalesced, Positive;
      ghost var bs, h0 := blocks, hdr;
      AllocKeepsInv(bs, c, n, lo, hi);
      assert prev != 0 <==> k < c by { PositiveAt(bs, k); }
      var remaining := hdr[curr].size - n;
      if remaining >= MIN_SPLIT {
        var leftover := curr + HEADER + n;
        hdr := hdr[leftover := Header(remaining - HEADER, hdr[curr].next, true)];
        hdr := hdr[curr := Header(n, leftover, true)];
      }
      var next := hdr[curr].next;
      if prev != 0 {
        hdr := hdr[prev := hdr[prev].(next := next)];
      } else {
        freeList := next;
      }
      hdr := hdr[curr := Header(hdr[curr].size, 0, false)];
      used := used + hdr[curr].size + HEADER;
      blocks := Allocated(bs, c, n);
      TakeLinked(h0, hdr, bs, c, n, k, lo, hi);
    }

    /** The row is tiled and linked; it may have free neighbours. */
    ghost predicate Shape()
      reads this
    {
      && Tiles(blocks, lo, hi) && Positive(blocks) && hi <= TWO_64
      && Linked(hdr, blocks) && freeList == First(blocks)
    }

    /** Frees the block whose payload starts at `ptr`; null and a free block are left alone. */
    method Kfree(ptr: nat)
      requires Valid()
      requires ptr == 0 || BlockIndex(blocks, ptr) < |blocks|
      modifies this
      ensures Valid() && lo == old(lo) && hi == old(hi) && total == old(total)
      ensures blocks == Step(old(blocks), Free(ptr))
    {
      if ptr == 0 {
        return;
      }
      ghost var i := BlockIndex(blocks, ptr);
      var block := ptr - HEADER;
      if hdr[block].free {
        return;
      }
      ReleaseKeepsInv(blocks, i, lo, hi);
      TilesSplit(blocks, i, lo, hi);
      hide Tiles, Used, First, Coalesced, Linked, Released, BlockIndex;
      used := used - (hdr[block].size + HEADER);
      Insert(block, i);
      MergeNext(block, i);
      MergePrev(block, i);
      ReleasedIs(old(blocks), i);
    }

    /** Walks the list to the last free block below `block`; 0 if there is none. */
    method Before(block: nat, ghost i: nat) returns (prev: nat, ghost k: nat)
      requires Shape() && i < |blocks| && block == blocks[i].addr
      ensures LastFreeBefore(blocks, k, i) && if k < i then prev == blocks[k].addr else prev == 0
    {
      hide Tiles, First, Positive, Linked;
      var curr := freeList;
      prev, k := 0, i;
      ghost var j := 0;
      assert blocks[0..] == blocks;
      while curr != 0 && curr < block
        invariant 0 <= j <= i && curr == First(blocks[j..])
        invariant k == i ==> prev == 0 && forall m :: 0 <= m < j ==> !blocks[m].free
        invariant k != i ==>
          k < j && blocks[k].free && prev == blocks[k].addr && forall m :: k < m < j ==> !blocks[m].free
        decreases |blocks| - j
      {
        ghost var d := FirstIs(blocks[j..]);
        assert forall m :: 0 <= m < |blocks| - j ==> blocks[j..][m] == blocks[j + m];
        k := j + d;
        LinkedAt(hdr, blocks, k);
        if k > i { TilesOrder(blocks, i, k, lo, hi); }
        assert forall m :: j <= m < k ==> !blocks[m].free by {
          forall m | j <= m < k ensures !blocks[m].free { assert blocks[j..][m - j] == blocks[m]; }
        }
        prev, curr := curr, hdr[curr].next;
        j := k + 1;
      }
      assert forall m :: j <= m < i ==> !blocks[m].free by {
        forall m | j <= m < i ensures !blocks[m].free { StopsBefore(blocks, j, i, m, lo, hi); }
      }
    }

    method Insert(block: nat, ghost i: nat)
      requires Shape() && i < |blocks| && block == blocks[i].addr && !blocks[i].free
      modifies this`hdr, this`freeList, this`blocks
      ensures Shape() && blocks == old(blocks)[i := old(blocks)[i].(free := true)]
    {
      var prev, k := Before(block, i);
      ghost var h0, bs, b := hdr, blocks, blocks[i].(free := true);
      InsertTiles(bs, i, lo, hi);
      NextOf(h0, bs, k, i);
      assert prev != 0 <==> k < i by { PositiveAt(bs, k); }
      hide Tiles, First, Linked;
      var next := if prev != 0 then hdr[prev].next else freeList;
      hdr := hdr[block := Header(hdr[block].size, next, true)];
      if prev != 0 {
        hdr := hdr[prev := hdr[prev].(next := block)];
      } else {
        freeList := block;
      }
      blocks := bs[i := b];
      ReplaceLinked(h0, hdr, bs, i, i + 1, b, k, lo, hi);
      assert bs[i := b] == bs[..i] + [b] + bs[i + 1..];
    }

    method MergeNext(block: nat, ghost i: nat)
      requires Shape() && i < |blocks| && block == blocks[i].addr && blocks[i].free
      modifies this`hdr, this`blocks
      ensures Shape() && blocks == MergeRight(old(blocks), i)
    {
      ghost var h0, bs := hdr, blocks;
      NextTouches(h0, bs, i, lo, hi);
      var next := hdr[block].next;
      if next != 0 && block + HEADER + hdr[block].size == next {
        ghost var k := LastFree(bs, i);
        ghost var b := Join(bs[i], bs[i + 1]);
        JoinTiles(bs, i, lo, hi);
        LinkTo(h0, bs, k, i);
        hide Tiles, First, Linked;
        hdr := hdr[block := Header(hdr[block].size + HEADER + hdr[next].size, hdr[next].next, true)];
        blocks := bs[..i] + [b] + bs[i + 2..];
        ReplaceLinked(h0, hdr, bs, i, i + 2, b, k, lo, hi);
        PositiveJoin(bs, i);
      }
    }

    method MergePrev(block: nat, ghost i: nat)
      requires Shape() && i < |blocks| && block == blocks[i].addr && blocks[i].free
      modifies this`hdr, this`blocks
      ensures Shape() && blocks == MergeLeft(old(blocks), i)
    {
      var prev, j := Before(block, i);
      assert prev != 0 <==> j < i by { PositiveAt(blocks, j); }
      if prev != 0 {
        PrevTouches(hdr, blocks, j, i, lo, hi);
        hide Tiles, First, Linked;
        if prev + HEADER + hdr[prev].size == block {
          JoinPrev(prev, block, j, i);
        }
      }
    }

    /** Two free neighbours become one block. */
    method JoinPrev(prev: nat, block: nat, ghost j: nat, ghost i: nat)
      requires Shape() && i < |blocks| && j + 1 == i && blocks[j].free && blocks[i].free
      requires prev == blocks[j].addr && block == blocks[i].addr
      modifies this`hdr, this`blocks
      ensures Shape() && blocks == old(blocks)[..j] + [Join(old(blocks)[j], old(blocks)[i])] + old(blocks)[i + 1..]
    {
      ghost var h0, bs := hdr, blocks;
      ghost var k := LastFree(bs, j);
      ghost var b := Join(bs[j], bs[i]);
      JoinTiles(bs, j, lo, hi);
      LinkTo(h0, bs, k, j);
      LinkedAt(h0, bs, i);
      LinkedAt(h0, bs, j);
      hide Tiles, First, Linked;
      hdr := hdr[prev := Header(hdr[prev].size + HEADER + hdr[block].size, hdr[block].next, true)];
      blocks := bs[..j] + [b] + bs[i + 1..];
      ReplaceLinked(h0, hdr, bs, j, i + 1, b, k, lo, hi);
      PositiveJoin(bs, j);
    }
  }

  lemma InsertTiles(bs: seq<Block>, i: nat, lo: nat, hi: nat)
    requires Tiles(bs, lo, hi) && Positive(bs) && i < |bs|
    ensures Tiles(bs[i := bs[i].(free := true)], lo, hi) && Positive(bs[i := bs[i].(free := true)])
  {
    var b := bs[i].(free := true);
    assert Tiles([b], bs[i].addr, End(bs[i])) by { assert [b][1..] == []; }
    SpliceTiles(bs, i, [b], lo, hi);
    assert bs[i := b] == Splice(bs, i, [b]);
  }

  lemma PositiveJoin(bs: seq<Block>, i: nat)
    requires Positive(bs) && i + 1 < |bs|
    ensures Positive(bs[..i] + [Join(bs[i], bs[i + 1])] + bs[i + 2..])
  {
  }

  lemma LinkedAt(h: map<nat, Header>, bs: seq<Block>, i: nat)
    requires Linked(h, bs) && i < |bs|
    ensures bs[i].addr in h && h[bs[i].addr].size == bs[i].size && h[bs[i].addr].free == bs[i].free
    ensures bs[i].free ==> h[bs[i].addr].next == First(bs[i + 1..])
  {
  }

  /** Live blocks are skipped when looking for the first free one. */
  lemma {:induction false} FirstSkip(bs: seq<Block>, from: nat, end: nat)
    requires from <= end <= |bs| && forall m :: from <= m < end ==> !bs[m].free
    ensures First(bs[from..]) == First(bs[end..])
    decreases end
  {
    if from < end {
      FirstSkip(bs, from, end - 1);
      assert bs[end - 1..][0] == bs[end - 1] && bs[end - 1..][1..] == bs[end..];
    }
  }

  /** What the list says comes after a live block. */
  lemma NextOf(h: map<nat, Header>, bs: seq<Block>, k: nat, i: nat)
    requires Linked(h, bs) && i < |bs| && !bs[i].free && LastFreeBefore(bs, k, i)
    ensures bs[i].addr in h && h[bs[i].addr].size == bs[i].size && (k < i ==> bs[k].addr in h)
    ensures First(bs[i + 1..]) == if k < i then h[bs[k].addr].next else First(bs)
  {
    hide Linked, First;
    LinkedAt(h, bs, i);
    LinkedAt(h, bs, k);
    FirstSkip(bs, if k < i then k + 1 else 0, i + 1);
    assert bs[0..] == bs;
  }

  /** The last free block before a free block links to it. */
  lemma LinkTo(h: map<nat, Header>, bs: seq<Block>, k: nat, i: nat)
    requires Linked(h, bs) && i < |bs| && bs[i].free && LastFreeBefore(bs, k, i)
    ensures k < i ==> bs[k].addr in h && h[bs[k].addr].next == bs[i].addr
    ensures k == i ==> First(bs) == bs[i].addr
  {
    assert First(bs[i..]) == bs[i].addr;
    hide Linked, First;
    LinkedAt(h, bs, k);
    FirstSkip(bs, if k < i then k + 1 else 0, i);
    assert bs[0..] == bs;
  }

  /** A free block touches the next free one exactly when they are neighbours. */
  lemma NextTouches(h: map<nat, Header>, bs: seq<Block>, i: nat, lo: nat, hi: nat)
    requires Linked(h, bs) && Positive(bs) && Tiles(bs, lo, hi) && i < |bs| && bs[i].free
    ensures bs[i].addr in h && h[bs[i].addr].size == bs[i].size
    ensures var next := h[bs[i].addr].next;
      next != 0 && End(bs[i]) == next <==> i + 1 < |bs| && bs[i + 1].free
    ensures i + 1 < |bs| && bs[i + 1].free ==>
      && h[bs[i].addr].next == bs[i + 1].addr && bs[i + 1].addr in h
      && h[bs[i + 1].addr].size == bs[i + 1].size && h[bs[i + 1].addr].next == First(bs[i + 2..])
  {
    var rest := bs[i + 1..];
    if rest != [] {
      assert rest[0] == bs[i + 1] && rest[1..] == bs[i + 2..];
      TilesOrder(bs, i, i + 1, lo, hi);
      if !rest[0].free && First(rest) != 0 {
        var d := FirstIs(rest);
        assert rest[d] == bs[i + 1 + d];
        TilesOrder(bs, i + 1, i + 1 + d, lo, hi);
      }
    }
  }

  lemma PrevTouches(h: map<nat, Header>, bs: seq<Block>, j: nat, i: nat, lo: nat, hi: nat)
    requires Linked(h, bs) && Tiles(bs, lo, hi) && j < i < |bs| && bs[i].free && LastFreeBefore(bs, j, i)
    ensures bs[j].addr in h && bs[i].addr in h && h[bs[j].addr].size == bs[j].size && h[bs[i].addr].size == bs[i].size
    ensures h[bs[i].addr].next == First(bs[i + 1..])
    ensures End(bs[j]) == bs[i].addr <==> j == i - 1
    ensures i > 0 && bs[i - 1].free <==> j == i - 1
  {
    TilesOrder(bs, j, i, lo, hi);
    if j < i - 1 {
      TilesOrder(bs, j, i - 1, lo, hi);
      TilesOrder(bs, i - 1, i, lo, hi);
    }
  }

  ghost function Relink(h: map<nat, Header>, bs: seq<Block>, k: nat, c: nat, to: nat): map<nat, Header>
    requires k <= c <= |bs|
  {
    if k < c && bs[k].addr in h then h[bs[k].addr := h[bs[k].addr].(next := to)] else h
  }

  lemma ReplaceRelinks(h: map<nat, Header>, bs: seq<Block>, c: nat, e: nat, b: Block, k: nat, lo: nat, hi: nat)
    requires Tiles(bs, lo, hi) && LastFreeBefore(bs, k, c)
    requires c < e <= |bs| && b.addr == bs[c].addr && b.free
    ensures Relinked(h, Relink(h[b.addr := Header(b.size, First(bs[e..]), true)], bs, k, c, b.addr), bs, c, e, [b], k)
  {
    assert [b][1..] + bs[e..] == bs[e..];
    assert First([b] + bs[e..]) == b.addr;
    if k < c { Apart(bs, k, c, lo, hi); }
    var h' := Relink(h[b.addr := Header(b.size, First(bs[e..]), true)], bs, k, c, b.addr);
    hide Tiles, First, LastFreeBefore;
    assert Kept(h, h', bs, c, e, k) by {
      forall i | (0 <= i < c || e <= i < |bs|) && (k < c ==> i != k) && bs[i].addr in h
        ensures bs[i].addr in h' && h'[bs[i].addr] == h[bs[i].addr]
      {
        Apart(bs, i, c, lo, hi);
        if k < c { Apart(bs, i, k, lo, hi); }
      }
    }
    hide Kept;
  }

  /** Blocks `c..e` become one free block `b` at the same address. */
  lemma ReplaceLinked(h: map<nat, Header>, h': map<nat, Header>, bs: seq<Block>, c: nat, e: nat, b: Block, k: nat,
                      lo: nat, hi: nat)
    requires Linked(h, bs) && Positive(bs) && Tiles(bs, lo, hi) && LastFreeBefore(bs, k, c)
    requires c < e <= |bs| && b.addr == bs[c].addr && b.free
    requires h' == Relink(h[b.addr := Header(b.size, First(bs[e..]), true)], bs, k, c, b.addr)
    ensures Linked(h', bs[..c] + [b] + bs[e..])
    ensures First(bs[..c] + [b] + bs[e..]) == if k < c then First(bs) else b.addr
  {
    assert First([b] + bs[e..]) == b.addr;
    hide Tiles, First, Linked, Positive, Relinked, Relink, LastFreeBefore;
    LastFreeBound(bs, k, c);
    ReplaceRelinks(h, bs, c, e, b, k, lo, hi);
    RelinkedIsLinked(h, h', bs, c, e, [b], k);
    HeadBefore(bs, c, [b] + bs[e..], k);
    assert bs[..c] + [b] + bs[e..] == bs[..c] + ([b] + bs[e..]);
  }

  lemma LastFreeBound(bs: seq<Block>, k: nat, c: nat)
    requires LastFreeBefore(bs, k, c)
    ensures k <= c <= |bs|
  {
  }

  /** A link that is null or not below block `i` skips no free block in between. */
  lemma StopsBefore(bs: seq<Block>, j: nat, i: nat, m: nat, lo: nat, hi: nat)
    requires Tiles(bs, lo, hi) && Positive(bs) && j <= m < i < |bs|
    requires First(bs[j..]) == 0 || First(bs[j..]) >= bs[i].addr
    ensures !bs[m].free
  {
    assert bs[j..][m - j] == bs[m];
    if First(bs[j..]) == 0 {
      assert Positive(bs[j..]);
      FirstNone(bs[j..]);
    } else if bs[m].free {
      var d := FirstIs(bs[j..]);
      assert bs[j..][d] == bs[j + d];
      assert j + d <= m;
      TilesOrder(bs, j + d, i, lo, hi);
      assert false;
    }
  }

  lemma ReleasedIs(bs: seq<Block>, i: nat)
    requires i < |bs|
    ensures Released(bs, i) == MergeLeft(MergeRight(bs[i := bs[i].(free := true)], i), i)
  {
  }

  lemma NoneFrom(bs: seq<Block>, i: nat)
    requires i <= |bs| && First(bs[i..]) == 0 && Positive(bs)
    ensures forall j :: i <= j < |bs| ==> !bs[j].free
  {
    assert forall j :: 0 <= j < |bs| - i ==> bs[i..][j] == bs[i + j];
    FirstNone(bs[i..]);
    forall j | i <= j < |bs| ensures !bs[j].free { assert bs[i..][j - i] == bs[j]; }
  }

  lemma PositiveAt(bs: seq<Block>, k: nat)
    requires Positive(bs)
    ensures k < |bs| ==> bs[k].addr > 0
  {
  }

  /** The header writes of an allocation. */
  ghost function TakenHeaders(h: map<nat, Header>, bs: seq<Block>, c: nat, n: nat, k: nat): map<nat, Header>
    requires c < |bs| && n <= bs[c].size && k <= c && bs[c].addr in h && (k < c ==> bs[k].addr in h)
  {
    var xs, a := Carve(bs[c], n), bs[c].addr;
    var h1 := if |xs| == 2 then h[xs[1].addr := Header(xs[1].size, h[a].next, true)][a := Header(n, xs[1].addr, true)]
      else h;
    var next := h1[a].next;
    var h2 := if k < c && bs[k].addr in h1 then h1[bs[k].addr := h1[bs[k].addr].(next := next)] else h1;
    h2[a := Header(xs[0].size, 0, false)]
  }

  lemma TakenElsewhere(h: map<nat, Header>, bs: seq<Block>, c: nat, n: nat, k: nat, x: nat)
    requires c < |bs| && n <= bs[c].size && k <= c && bs[c].addr in h && (k < c ==> bs[k].addr in h)
    requires x in h && !(bs[c].addr <= x < End(bs[c])) && (k < c ==> x != bs[k].addr)
    ensures x in TakenHeaders(h, bs, c, n, k) && TakenHeaders(h, bs, c, n, k)[x] == h[x]
  {
  }

  lemma TakenHere(h: map<nat, Header>, bs: seq<Block>, c: nat, n: nat, k: nat)
    requires c < |bs| && n <= bs[c].size && k <= c && bs[c].addr in h && (k < c ==> bs[k].addr in h)
    requires k < c ==> !(bs[c].addr <= bs[k].addr < End(bs[c]))
    ensures var h', xs := TakenHeaders(h, bs, c, n, k), Carve(bs[c], n);
      && bs[c].addr in h' && h'[bs[c].addr] == Header(xs[0].size, 0, false)
      && (|xs| == 2 ==> xs[1].addr in h' && h'[xs[1].addr] == Header(xs[1].size, h[bs[c].addr].next, true))
      && (k < c ==>
            && bs[k].addr in h'
            && h'[bs[k].addr] == h[bs[k].addr].(next := if |xs| == 2 then xs[1].addr else h[bs[c].addr].next))
  {
  }

  lemma TakeKeeps(h: map<nat, Header>, bs: seq<Block>, c: nat, n: nat, k: nat, lo: nat, hi: nat)
    requires Tiles(bs, lo, hi) && c < |bs| && n <= bs[c].size && k <= c && bs[c].addr in h
    requires (k < c ==> bs[k].addr in h)
    ensures Kept(h, TakenHeaders(h, bs, c, n, k), bs, c, c + 1, k)
  {
    hide Tiles, TakenHeaders;
    forall i | (0 <= i < c || c + 1 <= i < |bs|) && (k < c ==> i != k) && bs[i].addr in h
      ensures bs[i].addr in TakenHeaders(h, bs, c, n, k) && TakenHeaders(h, bs, c, n, k)[bs[i].addr] == h[bs[i].addr]
    {
      Apart(bs, i, c, lo, hi);
      if k < c { Apart(bs, i, k, lo, hi); }
      TakenElsewhere(h, bs, c, n, k, bs[i].addr);
    }
  }

  lemma TakeRelinks(h: map<nat, Header>, bs: seq<Block>, c: nat, n: nat, k: nat, lo: nat, hi: nat)
    requires Tiles(bs, lo, hi) && Linked(h, bs) && Fits(bs, c, n) && LastFreeBefore(bs, k, c)
    ensures bs[c].addr in h && bs[k].addr in h
    ensures Relinked(h, TakenHeaders(h, bs, c, n, k), bs, c, c + 1, Carve(bs[c], n), k)
  {
    hide Tiles, First, Linked, TakenHeaders, Kept;
    CarveLinks(bs, c, n);
    LinkedAt(h, bs, c);
    LinkedAt(h, bs, k);
    if k < c { Apart(bs, k, c, lo, hi); }
    TakenHere(h, bs, c, n, k);
    TakeKeeps(h, bs, c, n, k, lo, hi);
  }

  lemma TakeLinked(h: map<nat, Header>, h': map<nat, Header>, bs: seq<Block>, c: nat, n: nat, k: nat, lo: nat, hi: nat)
    requires Inv(bs, lo, hi) && Linked(h, bs) && Fits(bs, c, n) && LastFreeBefore(bs, k, c)
    requires h' == TakenHeaders(h, bs, c, n, k)
    ensures Linked(h', Allocated(bs, c, n))
    ensures k < c ==> First(Allocated(bs, c, n)) == First(bs)
    ensures k == c ==>
      First(Allocated(bs, c, n)) == if |Carve(bs[c], n)| == 2 then Carve(bs[c], n)[1].addr else h[bs[c].addr].next
  {
    hide TakenHeaders, Tiles, First, Coalesced, Relinked, Linked, LastFreeBefore, Carve, Positive;
    LastFreeBound(bs, k, c);
    TakeRelinks(h, bs, c, n, k, lo, hi);
    LinkedAt(h, bs, c);
    var xs := Carve(bs[c], n);
    CarveLinks(bs, c, n);
    RelinkedIsLinked(h, h', bs, c, c + 1, xs, k);
    HeadBefore(bs, c, xs + bs[c + 1..], k);
    assert Allocated(bs, c, n) == bs[..c] + (xs + bs[c + 1..]);
  }

  lemma LastFree(bs: seq<Block>, c: nat) returns (k: nat)
    requires c <= |bs|
    ensures LastFreeBefore(bs, k, c)
    decreases c
  {
    if c == 0 { k := 0; }
    else if bs[c - 1].free { k := c - 1; }
    else {
      k := LastFree(bs, c - 1);
      if k == c - 1 { k := c; }
    }
  }

  /** Addresses inside one block are the address of no other block. */
  lemma Apart(bs: seq<Block>, i: nat, c: nat, lo: nat, hi: nat)
    requires Tiles(bs, lo, hi) && i < |bs| && c < |bs| && i != c
    ensures !(bs[c].addr <= bs[i].addr < End(bs[c]))
  {
    if i < c { TilesOrder(bs, i, c, lo, hi); } else { TilesOrder(bs, c, i, lo, hi); }
  }

  lemma CarveLinks(bs: seq<Block>, c: nat, n: nat)
    requires c < |bs| && n <= bs[c].size
    ensures var xs := Carve(bs[c], n);
      && First(xs + bs[c + 1..]) == (if |xs| == 2 then xs[1].addr else First(bs[c + 1..]))
      && (|xs| == 2 ==> First(xs[2..] + bs[c + 1..]) == First(bs[c + 1..]))
  {
    var xs := Carve(bs[c], n);
    assert (xs + bs[c + 1..])[1..] == xs[1..] + bs[c + 1..];
    if |xs| == 2 { assert xs[2..] + bs[c + 1..] == bs[c + 1..]; } else { assert xs[1..] + bs[c + 1..] == bs[c + 1..]; }
  }

  // ---- whole runs ----

  ghost function Live(bs: seq<Block>): set<Block> { set b | b in bs && !b.free }

  /** An allocation adds one live block and leaves the others where they are. */
  lemma AllocLive(bs: seq<Block>, i: nat, n: nat)
    requires Fits(bs, i, n)
    ensures Live(Allocated(bs, i, n)) == Live(bs) + {Carve(bs[i], n)[0]}
  {
    var r, xs := Allocated(bs, i, n), Carve(bs[i], n);
    assert r == bs[..i] + xs + bs[i + 1..];
    forall b | b in Live(bs) ensures b in r { InRow(bs, i, b); }
    assert xs[0] in r by { assert r[i] == xs[0]; }
  }

  lemma InRow(bs: seq<Block>, i: nat, b: Block)
    requires i < |bs| && b in bs && b != bs[i]
    ensures b in bs[..i] || b in bs[i + 1..]
  {
    var j :| 0 <= j < |bs| && bs[j] == b;
    if j < i { assert bs[..i][j] == b; } else { assert bs[i + 1..][j - i - 1] == b; }
  }

  /** A release removes one live block and leaves the others where they are. */
  lemma ReleaseLive(bs: seq<Block>, i: nat, lo: nat, hi: nat)
    requires Tiles(bs, lo, hi) && i < |bs| && !bs[i].free
    ensures Live(Released(bs, i)) == Live(bs) - {bs[i]}
  {
    var b1 := bs[i := bs[i].(free := true)];
    assert Live(b1) == Live(bs) - {bs[i]} by {
      forall b | b in Live(b1) ensures b in Live(bs) && b != bs[i] {
        var j :| 0 <= j < |b1| && b1[j] == b;
        Apart(bs, j, i, lo, hi);
      }
      forall b | b in Live(bs) && b != bs[i] ensures b in Live(b1) {
        var j :| 0 <= j < |bs| && bs[j] == b;
        assert b1[j] == b;
      }
    }
    var b2 := MergeRight(b1, i);
    if i + 1 < |b1| && b1[i + 1].free { JoinLive(b1, i); }
    if i > 0 && b2[i - 1].free { JoinLive(b2, i - 1); }
  }

  lemma JoinLive(bs: seq<Block>, i: nat)
    requires i + 1 < |bs| && bs[i].free && bs[i + 1].free
    ensures Live(bs[..i] + [Join(bs[i], bs[i + 1])] + bs[i + 2..]) == Live(bs)
  {
    var r := bs[..i] + [Join(bs[i], bs[i + 1])] + bs[i + 2..];
    forall b | b in Live(bs) ensures b in r {
      var j :| 0 <= j < |bs| && bs[j] == b;
      assert if j < i then r[j] == b else r[j - 1] == b;
    }
  }

  datatype Op = Malloc(size: nat) | Free(ptr: nat)

  function FitIndex(bs: seq<Block>, n: nat): (i: nat)
    ensures i <= |bs| && (i < |bs| ==> Fits(bs, i, n))
    ensures i == |bs| ==> forall j: nat :: !Fits(bs, j, n)
  {
    if bs == [] then 0
    else if bs[0].free && bs[0].size >= n then 0
    else
      var i := FitIndex(bs[1..], n);
      assert forall j :: 0 <= j < |bs| - 1 ==> bs[1..][j] == bs[j + 1];
      assert i == |bs[1..]| ==> forall j: nat :: Fits(bs, j, n) ==> j > 0 && Fits(bs[1..], j - 1, n);
      1 + i
  }

  function BlockIndex(bs: seq<Block>, ptr: nat): (i: nat)
    ensures i <= |bs| && (i < |bs| ==> bs[i].addr + HEADER == ptr)
  {
    if bs == [] then 0 else if bs[0].addr + HEADER == ptr then 0 else 1 + BlockIndex(bs[1..], ptr)
  }

  lemma FitUnique(bs: seq<Block>, i: nat, n: nat)
    requires Fits(bs, i, n)
    ensures FitIndex(bs, n) == i
  {
    assert FitIndex(bs, n) < |bs|;
  }

  /** One call, as the methods above perform it; pointers that are no payload are not allowed
      by the interface and are ignored here. */
  function Step(bs: seq<Block>, op: Op): seq<Block> {
    match op
    case Malloc(size) =>
      var i := FitIndex(bs, AlignUp(size));
      if size == 0 || i == |bs| then bs else Allocated(bs, i, AlignUp(size))
    case Free(ptr) =>
      var i := BlockIndex(bs, ptr);
      if ptr == 0 || i == |bs| || bs[i].free then bs else Released(bs, i)
  }

  function RunAll(bs: seq<Block>, ops: seq<Op>): seq<Block>
    decreases |ops|
  {
    if ops == [] then bs else RunAll(Step(bs, ops[0]), ops[1..])
  }

  lemma {:induction false} RunKeepsInv(bs: seq<Block>, ops: seq<Op>, lo: nat, hi: nat)
    requires Inv(bs, lo, hi)
    ensures Inv(RunAll(bs, ops), lo, hi)
    decreases |ops|
  {
    hide Inv, Allocated, Released;
    if ops != [] {
      match ops[0] {
        case Malloc(size) =>
          var i := FitIndex(bs, AlignUp(size));
          if i < |bs| { AllocKeepsInv(bs, i, AlignUp(size), lo, hi); }
        case Free(ptr) =>
          var i := BlockIndex(bs, ptr);
          if i < |bs| && !bs[i].free { ReleaseKeepsInv(bs, i, lo, hi); }
      }
      RunKeepsInv(Step(bs, ops[0]), ops[1..], lo, hi);
    }
  }

  /** Freeing everything, in any order and after any run, restores the original single block. */
  lemma FreeAllRestores(base: nat, size: nat, ops: seq<Op>)
    requires 0 < base
    ensures var start := [Block(base, size, true)];
      Live(RunAll(start, ops)) == {} ==> RunAll(start, ops) == start && Used(RunAll(start, ops)) == 0
  {
    var start := [Block(base, size, true)];
    assert start[1..] == [];
    assert Tiles(start, base, base + HEADER + size);
    RunKeepsInv(start, ops, base, base + HEADER + size);
    var r := RunAll(start, ops);
    if Live(r) == {} {
      forall i | 0 <= i < |r| ensures r[i].free { assert r[i] in r && r[i] !in Live(r); }
      AllFree(r, base, base + HEADER + size);
    }
  }

  /** A block that is handed out is larger than was asked for exactly if less than 40 bytes would have been left over,
      so fewer than 40 bytes are wasted; what is left over becomes a free block behind it. */
  lemma Waste(b: Block, n: nat)
    requires n <= b.size
    ensures var g := Carve(b, n)[0];
      && g.addr == b.addr && !g.free && n <= g.size < n + 40
      && (g.size == n <==> b.size == n || b.size >= n + 40)
      && (g.size != n ==> Carve(b, n) == [b.(free := false)])
      && (b.size >= n + 40 ==> Carve(b, n)[1..] == [Block(b.addr + 24 + n, b.size - n - 24, true)])
  {
  }

  ghost predicate Gained(bs: seq<Block>, bs': seq<Block>, n: nat, b: Block) {
    !b.free && n <= b.size < n + 40 && Live(bs') == Live(bs) + {b}
  }

  lemma {:induction false} NotThere(bs: seq<Block>, ptr: nat)
    requires BlockIndex(bs, ptr) == |bs|
    ensures forall b :: b in bs ==> b.addr + 24 != ptr
  {
    if bs != [] {
      NotThere(bs[1..], ptr);
      assert bs == [bs[0]] + bs[1..];
    }
  }

  /** A free takes away exactly the live block with that pointer; an allocation adds one block with room for the request
      if some free block has room, and does nothing otherwise. */
  lemma StepLive(bs: seq<Block>, op: Op, lo: nat, hi: nat)
    requires Inv(bs, lo, hi)
    ensures op.Free? ==> Live(Step(bs, op)) == set b | b in Live(bs) && (op.ptr == 0 || b.addr + 24 != op.ptr)
    ensures op.Malloc? && (op.size == 0 || forall i :: 0 <= i < |bs| ==> !(bs[i].free && bs[i].size >= AlignUp(op.size))) ==>
      Step(bs, op) == bs
    ensures op.Malloc? && op.size > 0 && (exists i :: 0 <= i < |bs| && bs[i].free && bs[i].size >= AlignUp(op.size)) ==>
      exists b :: Gained(bs, Step(bs, op), AlignUp(op.size), b)
  {
    hide Tiles, Coalesced, AlignUp, Allocated, Released;
    match op {
      case Free(ptr) =>
        var i := BlockIndex(bs, ptr);
        if ptr != 0 && i < |bs| {
          if !bs[i].free { ReleaseLive(bs, i, lo, hi); }
          forall b | b in bs && b.addr + 24 == ptr ensures b == bs[i] { SameStart(bs, i, b, lo, hi); }
        } else if ptr != 0 {
          NotThere(bs, ptr);
        }
      case Malloc(size) =>
        var i, n := FitIndex(bs, AlignUp(size)), AlignUp(size);
        if i < |bs| {
          AllocLive(bs, i, n);
          Waste(bs[i], n);
          assert size > 0 ==> Gained(bs, Step(bs, op), n, Carve(bs[i], n)[0]);
        } else {
          NoFit(bs, n);
        }
    }
  }

  lemma SameStart(bs: seq<Block>, i: nat, b: Block, lo: nat, hi: nat)
    requires Tiles(bs, lo, hi) && i < |bs| && b in bs && b.addr == bs[i].addr
    ensures b == bs[i]
  {
    var j :| 0 <= j < |bs| && bs[j] == b;
    if i < j { TilesOrder(bs, i, j, lo, hi); }
    if j < i { TilesOrder(bs, j, i, lo, hi); }
  }

  /** Where nothing is the first to fit, nothing fits. */
  lemma {:induction false} NoFit(bs: seq<Block>, n: nat)
    requires forall j: nat :: !Fits(bs, j, n)
    ensures forall j :: 0 <= j < |bs| ==> !(bs[j].free && bs[j].size >= n)
  {
    var k := 0;
    while k < |bs|
      invariant 0 <= k <= |bs| && forall j :: 0 <= j < k ==> !(bs[j].free && bs[j].size >= n)
    {
      assert !Fits(bs, k, n);
      k := k + 1;
    }
  }

  ghost predicate AtEights(bs: seq<Block>) { forall i :: 0 <= i < |bs| ==> bs[i].addr % 8 == 0 }

  lemma CarveAtEights(b: Block, n: nat)
    requires n <= b.size && b.addr % 8 == 0 && n % 8 == 0
    ensures AtEights(Carve(b, n))
  {
    assert b.addr + 24 + n == 8 * (b.addr / 8 + 3 + n / 8);
    MulMod(8, b.addr / 8 + 3 + n / 8);
  }

  lemma {:induction false} SpliceAtEights(bs: seq<Block>, i: nat, xs: seq<Block>)
    requires AtEights(bs) && AtEights(xs) && i < |bs|
    ensures AtEights(Splice(bs, i, xs))
  {
  }

  lemma RoundedSize(x: nat)
    ensures AlignUp(x) % 8 == 0
  {
  }

  /** In every run all headers are at multiples of 8, and so are all pointers that are handed out. */
  lemma {:induction false} RunAligned(bs: seq<Block>, ops: seq<Op>)
    requires AtEights(bs)
    ensures var r := RunAll(bs, ops); AtEights(r) && forall i :: 0 <= i < |r| ==> (r[i].addr + HEADER) % 8 == 0
    decreases |ops|
  {
    hide Allocated, Released, AlignUp;
    if ops != [] {
      match ops[0] {
        case Malloc(size) =>
          var i, n := FitIndex(bs, AlignUp(size)), AlignUp(size);
          RoundedSize(size);
          if i < |bs| { AllocAligned(bs, i, n); }
        case Free(ptr) =>
          var i := BlockIndex(bs, ptr);
          if i < |bs| { ReleaseAligned(bs, i); }
      }
      RunAligned(Step(bs, ops[0]), ops[1..]);
    }
  }

  lemma AllocAligned(bs: seq<Block>, i: nat, n: nat)
    requires AtEights(bs) && Fits(bs, i, n) && n % 8 == 0
    ensures AtEights(Allocated(bs, i, n))
  {
    CarveAtEights(bs[i], n);
    SpliceAtEights(bs, i, Carve(bs[i], n));
  }

  lemma ReleaseAligned(bs: seq<Block>, i: nat)
    requires AtEights(bs) && i < |bs|
    ensures AtEights(Released(bs, i))
  {
    var b := bs[i := bs[i].(free := true)];
    assert AtEights(MergeRight(b, i));
  }

  // ---- sizes and alignment ----

  /** The block handed out has room for the request exactly when rounding up did not wrap. */
  lemma RoomForRequest(size: nat)
    requires size < TWO_64
    ensures AlignUp(size) >= size <==> size <= TWO_64 - 8
    ensures size > TWO_64 - 8 ==> AlignUp(size) == 0
  {
  }

  /** The alignment used, at least 8. */
  function Alignment(alignment: Words.u32): nat { if alignment < 8 then 8 else alignment }

  /** What an aligned request asks for, in 64 bits: room for the padding and for a saved word. */
  function AlignedTotal(size: nat, alignment: Words.u32): nat { (size + Alignment(alignment) + 8) % TWO_64 }

  /** The pointer it returns for a payload at `ptr`. The mask that rounds down is 32 bits wide. */
  function AlignedPtr(ptr: nat, alignment: Words.u32): nat {
    var a := Alignment(alignment);
    Words.BitAnd((ptr + a + 8) % TWO_64, Words.TWO_32 - a)
  }

  /** The saved word before `q` and `size` bytes from `q` on lie in the payload of the block. */
  predicate Within(b: Block, q: nat, size: nat) { b.addr + HEADER + 8 <= q && q + size <= End(b) }

  /** Both ways for the request to go wrong: the block that is handed out has room for the aligned pointer, its
      saved word and `size` bytes exactly when the address fits in 32 bits and the total needs no wrapping. */
  lemma AlignedInside(b: Block, size: nat, alignment: Words.u32)
    requires size < TWO_64
    requires var n := AlignUp(AlignedTotal(size, alignment)); n <= b.size < n + MIN_SPLIT
    ensures var p, a := b.addr + HEADER, Alignment(alignment);
      Within(b, AlignedPtr(p, alignment), size) <==> p + a + 8 < Words.TWO_32 && size + a + 8 <= TWO_64 - 8
  {
    hide AlignedPtr, Words.BitAnd, AlignUp;
    var p, a := b.addr + HEADER, Alignment(alignment);
    var m := Words.BitAnd((p + a + 8) % Words.TWO_32, a - 1);
    AlignedIs(p, alignment);
    StartIff(p, a, m);
    TotalIff(size, a);
  }

  /** The pointer is behind the saved word exactly when the address fits. */
  lemma StartIff(ptr: nat, a: nat, m: nat)
    requires 8 <= a < Words.TWO_32 && m <= a - 1
    ensures var x := ptr + a + 8;
      if x < Words.TWO_32 then x % Words.TWO_32 == x else x % Words.TWO_32 - m < ptr + 8
  {
  }

  /** What is asked for is what is needed exactly when nothing wraps; otherwise it is far less. */
  lemma TotalIff(size: nat, a: nat)
    requires size < TWO_64 && 8 <= a < Words.TWO_32
    ensures var n := AlignUp((size + a + 8) % TWO_64);
      if size + a + 8 <= TWO_64 - 8 then n >= size + a + 8 else n + MIN_SPLIT <= size
  {
    var total := (size + a + 8) % TWO_64;
    if size + a + 8 >= TWO_64 { assert total == size + a + 8 - TWO_64; }
  }

  lemma NothingTaken(bs: seq<Block>, size: nat)
    requires size == 0 || forall i: nat :: !Fits(bs, i, AlignUp(size))
    ensures Step(bs, Malloc(size)) == bs
  {
  }

  /** The block handed out has the size asked for, or what was there and too little to split. */
  lemma Granted(bs: seq<Block>, i: nat, n: nat)
    requires Fits(bs, i, n)
    ensures i < |Allocated(bs, i, n)|
    ensures var b := Allocated(bs, i, n)[i]; b.addr == bs[i].addr && !b.free && n <= b.size < n + MIN_SPLIT
  {
  }

  /** A request whose total wraps to 8 bytes gets 8 bytes, at address 1024, and a pointer behind them. */
  method WrappedRequest() returns (h: Allocator, q: nat, ghost c: nat)
    ensures c < |h.blocks| && h.blocks[c] == Block(1000, 8, false) && q == 1040 && !Within(h.blocks[c], q, TWO_64 - 8)
  {
    hide AlignedPtr, Step, Allocated, Inv;
    h := new Allocator(1000, 4096);
    FirstGrant(h.blocks);
    q, c := h.KmallocAligned(TWO_64 - 8, 8);
    WrappedPtr();
  }

  lemma FirstGrant(bs: seq<Block>)
    requires bs == [Block(1000, 4072, true)]
    ensures Fits(bs, 0, 8) && AlignedTotal(TWO_64 - 8, 8) == AlignUp(8) == 8
    ensures Step(bs, Malloc(8)) == [Block(1000, 8, false), Block(1032, 4040, true)]
  {
    FitUnique(bs, 0, 8);
    assert bs[..0] == [] && bs[1..] == [];
  }

  lemma WrappedPtr()
    ensures AlignedPtr(1024, 8) == 1040
  {
    hide AlignedPtr, Words.BitAnd;
    AlignedIs(1024, 8);
    assert Words.Pow2(3) == 8;
    Words.Remainder(1040, 3);
  }

  /** For powers of two the pointer is aligned. */
  lemma AlignedPower(ptr: nat, alignment: Words.u32, k: nat)
    requires Alignment(alignment) == Words.Pow2(k)
    ensures AlignedPtr(ptr, alignment) % Alignment(alignment) == 0
  {
    hide AlignedPtr, Words.BitAnd, Words.Pow2;
    var a := Alignment(alignment);
    var low := (ptr + a + 8) % Words.TWO_32;
    AlignedIs(ptr, alignment);
    Words.Remainder(low, k);
    RoundsDown(low, a);
  }

  lemma AlignedIs(ptr: nat, alignment: Words.u32)
    ensures var a := Alignment(alignment);
      var low := (ptr + a + 8) % Words.TWO_32;
      && AlignedPtr(ptr, alignment) == low - Words.BitAnd(low, a - 1)
      && Words.BitAnd(low, a - 1) <= a - 1 && Words.BitAnd(low, a - 1) <= low
  {
    hide Words.BitAnd;
    var a := Alignment(alignment);
    var x := ptr + a + 8;
    Words.Power32();
    hide Words.Pow2;
    Words.LowBits(x % TWO_64, Words.TWO_32 - a, 32);
    assert x % TWO_64 % Words.TWO_32 == x % Words.TWO_32;
    Words.Complement(x % Words.TWO_32, a - 1, 32);
    Words.BitAndBound(x % Words.TWO_32, a - 1);
  }

  lemma RoundsDown(x: nat, a: nat)
    requires a > 0
    ensures (x - x % a) % a == 0
  {
    assert x == a * (x / a) + x % a;
    MulMod(a, x / a);
  }

  /** Other alignments are not kept: one of 12 bytes can give a pointer of remainder 8. */
  lemma NotAligned()
    ensures AlignedPtr(108, 12) == 128 && 128 % 12 == 8
  {
    Words.Power32();
    assert Words.Pow2(4) == 16;
    Words.LowBits(128, 11, 4);
    hide Words.Pow2;
    Words.Complement(128, 11, 32);
  }
}
