/** The physical page allocator: a bitmap at the start of its region and a cursor that goes
    round. Its abstract state is the set of pages that are out. */
module Pmm {
  import opened Bitmap

  const PAGE := 4096

  function RoundUp(x: nat): nat { (x + PAGE - 1) / PAGE * PAGE }

  /** Numbers of the pages whose bit is set. */
  ghost function OutPages(bits: seq<bv8>, total: nat): set<nat>
    requires total <= 8 * |bits|
  {
    set i: nat | i < total && Get(bits, i)
  }

  /** Pages that lie wholly in the region. */
  function WholePages(start: nat, size: nat): nat {
    var b, e := RoundUp(start), (start + size) / PAGE * PAGE;
    if e <= b then 0 else (e - b) / PAGE
  }

  /** They are the page numbers `k` from the first page boundary on. */
  lemma WholePagesAre(start: nat, size: nat, k: nat)
    ensures start <= 4096 * k && 4096 * k + 4096 <= start + size <==>
      RoundUp(start) <= 4096 * k < RoundUp(start) + 4096 * WholePages(start, size)
    ensures start <= RoundUp(start) < start + 4096 && RoundUp(start) % 4096 == 0
  {
  }

  lemma Region(start: nat, size: nat)
    ensures var b, e, pages := RoundUp(start), (start + size) / PAGE * PAGE, WholePages(start, size);
      && b % PAGE == 0 && start <= b < start + PAGE && (e <= b ==> pages == 0) && (e > b ==> pages == (e - b) / PAGE && pages > 0)
      && (e > b ==> b + pages * PAGE <= start + size < b + pages * PAGE + PAGE)
      && var bitmap := ((pages + 7) / 8 + PAGE - 1) / PAGE;
      && bitmap == (pages + 32767) / 32768 && (pages <= bitmap + 1 <==> pages < 3) && pages <= 8 * (bitmap * PAGE)
      && (b + bitmap * PAGE) % PAGE == 0 && (pages > 0 ==> 0 < bitmap * PAGE)
  {
    var b, e, pages := RoundUp(start), (start + size) / PAGE * PAGE, WholePages(start, size);
    BitmapPages(pages);
    if e > b { assert (e - b) / PAGE * PAGE == e - b; }
  }

  lemma BitmapPages(pages: nat)
    ensures ((pages + 7) / 8 + PAGE - 1) / PAGE == (pages + 32767) / 32768
    ensures pages <= (pages + 32767) / 32768 + 1 <==> pages < 3
  {
  }

  class Allocator {
    var ready: bool
    var bits: seq<bv8>
    var bitmapAddr: nat
    var base: nat
    var total: nat
    var cursor: nat

    ghost predicate Valid()
      reads this
    {
      ready ==>
        && total > 0 && cursor < total && total <= 8 * |bits|
        && 0 < base && base % PAGE == 0
        && bitmapAddr + |bits| <= base
    }

    ghost function Out(): set<nat>
      requires Valid()
      reads this
    {
      if ready then OutPages(bits, total) else {}
    }

    /** Before any region is given, every request fails. */
    constructor ()
      ensures Valid() && !ready
    {
      ready, bits, bitmapAddr, base, total, cursor := false, [], 0, 0, 0, 0;
    }

    /** The bitmap takes the first pages of the region, one for each 32768; the rest are handed out. The
        first region that has at least three whole pages is taken, all others are ignored. */
    method InitRegion(start: nat, size: nat)
      requires Valid()
      modifies this
      ensures Valid()
      ensures old(ready) ==> unchanged(this)
      ensures !old(ready) ==> (ready <==> WholePages(start, size) >= 3) && (!ready ==> unchanged(this))
      ensures !old(ready) && ready ==>
        && total == WholePages(start, size) - (WholePages(start, size) + 32767) / 32768
        && Out() == {} && cursor == 0
        && start <= bitmapAddr < start + 4096 && bitmapAddr % 4096 == 0
        && base == bitmapAddr + 4096 * ((WholePages(start, size) + 32767) / 32768)
        && base + total * PAGE <= start + size
        && start + size < base + total * PAGE + PAGE
    {
      if ready {
        return;
      }
      Region(start, size);
      hide RoundUp, WholePages;
      var b := RoundUp(start);
      var e := (start + size) / PAGE * PAGE;
      if e <= b {
        return;
      }
      var pages := (e - b) / PAGE;
      var bitmapBytes := (pages + 7) / 8;
      var bitmapPages := (bitmapBytes + PAGE - 1) / PAGE;
      if pages <= bitmapPages + 1 {
        return;
      }
      bits := seq(bitmapPages * PAGE, _ => 0);
      bitmapAddr := b;
      base := b + bitmapPages * PAGE;
      total := pages - bitmapPages;
      cursor := 0;
      ready := true;
      forall i: nat | i < total ensures !Get(bits, i) { GetZero(bits, i); }
    }

    /** Null exactly when all pages are out; otherwise a page that was not out, found by going
        round from the cursor. */
    method AllocPage() returns (p: nat)
      requires Valid()
      modifies this`bits, this`cursor
      ensures Valid()
      ensures p == 0 <==> !ready || (forall i: nat :: i < total ==> i in old(Out()))
      ensures p == 0 ==> Out() == old(Out()) && cursor == old(cursor)
      ensures p != 0 ==>
        && base <= p < base + total * PAGE && p % PAGE == 0
        && (p - base) / PAGE !in old(Out())
        && Out() == old(Out()) + {(p - base) / PAGE}
        && cursor == Around((p - base) / PAGE, 1, total)
        && (exists d: nat :: d < total && Around(old(cursor), d, total) == (p - base) / PAGE
              && forall k: nat :: k < d ==> Around(old(cursor), k, total) in old(Out()))
    {
      hide Around, Set;
      p := 0;
      if !ready {
        return;
      }
      var i := 0;
      while i < total
        invariant 0 <= i <= total && unchanged(this)
        invariant forall k: nat :: k < i ==> Around(cursor, k, total) in Out()
      {
        var idx := Around(cursor, i, total);
        if !Get(bits, idx) {
          p := base + idx * PAGE;
          PageNumber(base, idx);
          OutSet(bits, total, idx, true);
          assert idx < total && idx !in old(Out());
          bits := Set(bits, idx, true);
          cursor := Around(idx, 1, total);
          return;
        }
        i := i + 1;
      }
      forall j: nat | j < total ensures j in Out() { RoundTrip(cursor, total, j); }
    }

    /** Clears the bit of the page that holds the address; anything outside is ignored. */
    method FreePage(ptr: nat)
      requires Valid()
      modifies this`bits
      ensures Valid()
      ensures Out() == if ptr == 0 || ptr < base then old(Out()) else old(Out()) - {(ptr - base) / PAGE}
    {
      if !ready || ptr == 0 {
        return;
      }
      if ptr >= base {
        var idx := (ptr - base) / PAGE;
        if idx < total {
          OutSet(bits, total, idx, false);
          bits := Set(bits, idx, false);
        }
      }
    }
  }

  /** The `k`-th page looked at from the cursor. */
  function Around(cursor: nat, k: nat, total: nat): (r: nat)
    requires total > 0
    ensures r < total
  {
    (cursor + k) % total
  }

  lemma OutSet(bits: seq<bv8>, total: nat, idx: nat, v: bool)
    requires total <= 8 * |bits| && idx < total
    ensures OutPages(Set(bits, idx, v), total) == if v then OutPages(bits, total) + {idx}
      else OutPages(bits, total) - {idx}
    ensures idx in OutPages(bits, total) <==> Get(bits, idx)
  {
    forall j: nat | j < total ensures Get(Set(bits, idx, v), j) == if j == idx then v else Get(bits, j) {
      GetSet(bits, idx, v, j);
    }
    hide Get, Set;
  }

  lemma PageNumber(base: nat, idx: nat)
    ensures (base + idx * PAGE - base) / PAGE == idx
    ensures base % PAGE == 0 ==> (base + idx * PAGE) % PAGE == 0
  {
  }

  /** Going round from any cursor reaches every page. */
  lemma RoundTrip(cursor: nat, total: nat, j: nat)
    requires cursor < total && j < total
    ensures exists k: nat :: k < total && Around(cursor, k, total) == j
  {
    var k := if j >= cursor then j - cursor else total - cursor + j;
    if j < cursor { AddTotal(j, total); }
    assert cursor + k == j || cursor + k == total + j;
    assert Around(cursor, k, total) == j;
  }

  lemma AddTotal(j: nat, total: nat)
    requires j < total
    ensures (total + j) % total == j
  {
  }

  /** A page that is out is never handed out again before it is freed, and pages never overlap
      the bitmap or each other. */
  lemma PagesDisjoint(bitmapEnd: nat, base: nat, i: nat, j: nat)
    requires bitmapEnd <= base && i != j
    ensures bitmapEnd <= base + i * PAGE
    ensures base + i * PAGE + PAGE <= base + j * PAGE || base + j * PAGE + PAGE <= base + i * PAGE
  {
  }
}
