/** The ELF loader: places the PT_LOAD segments of a program in an address space. */
module Elf {
  import opened Words
  import opened Wrappers

  const PAGE := 0x1000
  const BASE := 0x4000_0000
  const LOW := 0x1_0000
  const TOP := 0xFFFF_FFFF_FFFF_FFFF
  const PT_LOAD := 1

  datatype Phdr = Phdr(kind: nat, offset: nat, vaddr: nat, filesz: nat, memsz: nat)

  datatype Header = Header(magic: nat, class_: nat, order: nat, kind: nat, machine: nat, entry: nat, phdrs: seq<Phdr>)

  predicate GoodHeader(h: Header) {
    h.magic == 0x464C457F && h.class_ == 2 && h.order == 1 && (h.kind == 2 || h.kind == 3) && h.machine == 0x3E
  }

  /** Segments that get pages. */
  predicate Loaded(ph: Phdr) { ph.kind == PT_LOAD && ph.memsz > 0 }

  /** `m` is the lowest address of a PT_LOAD segment, or 0 without one. */
  ghost predicate Lowest(phdrs: seq<Phdr>, m: nat) {
    && (forall i :: 0 <= i < |phdrs| && phdrs[i].kind == PT_LOAD ==> m <= phdrs[i].vaddr)
    && if exists i :: 0 <= i < |phdrs| && phdrs[i].kind == PT_LOAD
       then exists i :: 0 <= i < |phdrs| && phdrs[i].kind == PT_LOAD && phdrs[i].vaddr == m
       else m == 0
  }

  /** Where a segment goes: all are shifted so that the lowest starts at 1 GiB. */
  function Place(ph: Phdr, low: nat): int { ph.vaddr - low + BASE }

  /** The image lies in the address space: no sum wraps around, and the file holds the bytes. */
  ghost predicate Fits(data: seq<byte>, ph: Phdr, low: nat) {
    Loaded(ph) ==>
      && low <= ph.vaddr && Place(ph, low) + ph.memsz + PAGE <= TOP
      && ph.filesz <= ph.memsz && ph.offset + ph.filesz <= |data|
  }

  function FirstPage(ph: Phdr, low: nat): int { Place(ph, low) / PAGE }

  function EndPage(ph: Phdr, low: nat): int { (Place(ph, low) + ph.memsz + PAGE - 1) / PAGE }

  predicate InPages(ph: Phdr, low: nat, v: nat) { FirstPage(ph, low) <= v < EndPage(ph, low) }

  ghost predicate Apart(phdrs: seq<Phdr>, low: nat) {
    forall i, j, v: nat :: 0 <= i < j < |phdrs| && Loaded(phdrs[i]) && Loaded(phdrs[j]) && InPages(phdrs[i], low, v)
      ==> !InPages(phdrs[j], low, v)
  }

  /** Byte of the segment at an address; zero around the file's bytes. */
  function SegByte(data: seq<byte>, ph: Phdr, at: int, a: int): byte {
    if at <= a < at + ph.filesz && 0 <= ph.offset + a - at < |data| then data[ph.offset + a - at] else 0
  }

  /** Page `v` holds exactly the segment's bytes. */
  ghost predicate PageIs(page: seq<byte>, data: seq<byte>, ph: Phdr, at: int, v: nat) {
    |page| == PAGE && forall x :: 0 <= x < PAGE ==> page[x] == SegByte(data, ph, at, PAGE * v + x)
  }

  ghost predicate SegmentIn(pages: map<nat, seq<byte>>, data: seq<byte>, ph: Phdr, low: nat) {
    forall v: nat :: InPages(ph, low, v) ==> v in pages && PageIs(pages[v], data, ph, Place(ph, low), v)
  }

  /** The byte at a virtual address. */
  function ByteAt(pages: map<nat, seq<byte>>, a: nat): Option<byte> {
    var v, x := a / PAGE, a % PAGE;
    if v in pages && x < |pages[v]| then Some(pages[v][x]) else None
  }

  /** In terms of addresses: the file's bytes, then zeros up to the size in memory. */
  lemma SegmentBytes(pages: map<nat, seq<byte>>, data: seq<byte>, phdrs: seq<Phdr>, low: nat, i: nat, k: nat)
    requires AllIn(pages, data, phdrs, low) && i < |phdrs| && phdrs[i].kind == 1 && k < phdrs[i].memsz
    requires Fits(data, phdrs[i], low)
    ensures var ph := phdrs[i];
      ByteAt(pages, ph.vaddr - low + 0x4000_0000 + k) == Some(if k < ph.filesz then data[ph.offset + k] else 0)
  {
    var ph := phdrs[i];
    var a := Place(ph, low) + k;
    var v, x := a / PAGE, a % PAGE;
    assert InPages(ph, low, v);
    assert a == PAGE * v + x;
    assert pages[v][x] == SegByte(data, ph, Place(ph, low), PAGE * v + x);
  }

  /** The next `n` requests for a page succeed. */
  ghost predicate Granted(supply: seq<bool>, n: nat) { n <= |supply| && forall k :: 0 <= k < n ==> supply[k] }

  /** Pages that the first `n` segments ask for. */
  ghost function Total(phdrs: seq<Phdr>, low: nat, n: nat): nat
    requires n <= |phdrs|
  {
    if n == 0 then 0 else Total(phdrs, low, n - 1) + Asked(phdrs[n - 1], low)
  }

  ghost function Asked(ph: Phdr, low: nat): nat {
    if Loaded(ph) && FirstPage(ph, low) < EndPage(ph, low) then EndPage(ph, low) - FirstPage(ph, low) else 0
  }

  lemma {:induction false} TotalGrows(phdrs: seq<Phdr>, low: nat, m: nat, n: nat)
    requires m <= n <= |phdrs|
    ensures Total(phdrs, low, m) <= Total(phdrs, low, n)
    decreases n
  {
    if m < n { TotalGrows(phdrs, low, m, n - 1); }
  }

  lemma GrantedOn(supply: seq<bool>, a: nat, b: nat, c: nat)
    requires Granted(supply, a) && a + b <= c
    ensures Granted(supply[a..], b) <==> Granted(supply, a + b)
    ensures Granted(supply[a..], b) ==> supply[a..][b..] == supply[a + b..]
    ensures Granted(supply, c) ==> Granted(supply, a + b)
  {
    if Granted(supply[a..], b) {
      forall k | 0 <= k < a + b ensures supply[k] { if k >= a { assert supply[a..][k - a]; } }
    }
  }

  class Space {
    // pages by number, and whether each next request for a mapped page succeeds
    var pages: map<nat, seq<byte>>
    var supply: seq<bool>
    // frames that are neither mapped nor handed back
    ghost var lost: nat

    constructor (s: seq<bool>)
      ensures pages == map[] && supply == s && lost == 0
    {
      pages, supply, lost := map[], s, 0;
    }

    /** A fresh zeroed page, mapped at `v`; a frame that was mapped there is lost. */
    method NewPage(v: nat) returns (ok: bool)
      modifies this
      ensures ok <==> Granted(old(supply), 1)
      ensures ok ==> supply == old(supply)[1..]
      ensures ok ==> pages == old(pages)[v := seq(PAGE, _ => 0)] && lost == old(lost) + if v in old(pages) then 1 else 0
      ensures !ok ==> pages == old(pages) && lost == old(lost)
    {
      ok := supply != [] && supply[0];
      if supply != [] {
        supply := supply[1..];
      }
      if ok {
        lost := lost + if v in pages then 1 else 0;
        pages := pages[v := seq(PAGE, _ => 0)];
      }
    }

    /** Fills page `v` with the part of the segment's file bytes that lies in it. */
    method FillPage(v: nat, data: seq<byte>, ph: Phdr, at: nat)
      requires v in pages && pages[v] == seq(PAGE, _ => 0) && ph.offset + ph.filesz <= |data|
      modifies this`pages
      ensures v in pages && PageIs(pages[v], data, ph, at, v) && pages == old(pages)[v := pages[v]]
    {
      var virt := v * PAGE;
      var from, to_ := virt, virt + PAGE;
      if from < at {
        from := at;
      }
      if to_ > at + ph.filesz {
        to_ := at + ph.filesz;
      }
      if from < to_ {
        var src, dst, n := ph.offset + (from - at), from - virt, to_ - from;
        pages := pages[v := pages[v][..dst] + data[src..src + n] + pages[v][dst + n..]];
      }
    }

    /** Loads one segment page by page. */
    method LoadSegment(data: seq<byte>, ph: Phdr, ghost low: nat, vaddr: nat) returns (ok: bool)
      requires Loaded(ph) && Fits(data, ph, low) && vaddr == Place(ph, low)
      modifies this
      ensures ok <==> Granted(old(supply), Asked(ph, low))
      ensures ok ==> supply == old(supply)[Asked(ph, low)..]
      ensures ok ==>
        SegmentIn(pages, data, ph, low) && (lost == old(lost) <==> Unmapped(old(pages), ph, low))
      ensures SameOutside(old(pages), pages, [ph], low) && lost >= old(lost)
    {
      var first := vaddr / PAGE;
      var num := (vaddr + ph.memsz + PAGE - 1) / PAGE - first;
      var j := 0;
      while j < num
        invariant 0 <= j <= num
        invariant forall v: nat :: first <= v < first + j ==> v in pages && PageIs(pages[v], data, ph, vaddr, v)
        invariant SameOutside(old(pages), pages, [ph], low) && lost >= old(lost)
        invariant forall v: nat :: first + j <= v ==> (v in pages <==> v in old(pages))
        invariant lost == old(lost) <==> forall v: nat :: first <= v < first + j ==> v !in old(pages)
        invariant Granted(old(supply), j) && supply == old(supply)[j..]
      {
        hide PageIs, Granted;
        GrantedOn(old(supply), j, 1, num);
        ghost var was := pages;
        ok := NewPage(first + j);
        if !ok {
          KeepOutside(old(pages), was, pages, ph, low, first + j);
          return;
        }
        FillPage(first + j, data, ph, vaddr);
        KeepOutside(old(pages), was, pages, ph, low, first + j);
        j := j + 1;
      }
      ok := true;
    }
  }

  /** Pages of none of the segments are as before. */
  ghost predicate SameOutside(was: map<nat, seq<byte>>, now: map<nat, seq<byte>>, phdrs: seq<Phdr>, low: nat) {
    forall v: nat :: (forall i :: 0 <= i < |phdrs| && Loaded(phdrs[i]) ==> !InPages(phdrs[i], low, v)) ==>
      (v in now <==> v in was) && (v in now ==> now[v] == was[v])
  }

  lemma KeepOutside(m0: map<nat, seq<byte>>, m1: map<nat, seq<byte>>, m2: map<nat, seq<byte>>, ph: Phdr, low: nat,
                    v: nat)
    requires SameOutside(m0, m1, [ph], low) && InPages(ph, low, v) && Loaded(ph)
    requires forall w: nat :: w != v ==> (w in m2 <==> w in m1) && (w in m2 ==> m2[w] == m1[w])
    ensures SameOutside(m0, m2, [ph], low)
  {
    assert [ph][0] == ph;
  }

  /** The lowest address of a PT_LOAD segment. */
  method FindLowest(phdrs: seq<Phdr>) returns (low: nat)
    requires forall i :: 0 <= i < |phdrs| ==> phdrs[i].vaddr < TOP
    ensures Lowest(phdrs, low)
  {
    low := TOP;
    var i := 0;
    while i < |phdrs|
      invariant 0 <= i <= |phdrs| && low <= TOP
      invariant forall k :: 0 <= k < i && phdrs[k].kind == PT_LOAD ==> low <= phdrs[k].vaddr
      invariant low == TOP || exists k :: 0 <= k < i && phdrs[k].kind == PT_LOAD && phdrs[k].vaddr == low
    {
      if phdrs[i].kind == PT_LOAD && phdrs[i].vaddr < low {
        low := phdrs[i].vaddr;
      }
      i := i + 1;
    }
    if low == TOP {
      low := 0;
    }
  }

  // ---- which segment a page belongs to ----

  /** The last of the first `n` segments that has page `v`, or -1. */
  function LastOn(phdrs: seq<Phdr>, low: nat, v: nat, n: nat): (r: int)
    requires n <= |phdrs|
    ensures -1 <= r < n && (r >= 0 ==> Loaded(phdrs[r]) && InPages(phdrs[r], low, v))
    ensures forall i :: r < i < n && Loaded(phdrs[i]) ==> !InPages(phdrs[i], low, v)
  {
    if n == 0 then -1
    else if Loaded(phdrs[n - 1]) && InPages(phdrs[n - 1], low, v) then n - 1
    else LastOn(phdrs, low, v, n - 1)
  }

  /** Every page of the first `n` segments is there and holds the bytes of the last one that has it. */
  ghost predicate Image(pages: map<nat, seq<byte>>, data: seq<byte>, phdrs: seq<Phdr>, low: nat, n: nat)
    requires n <= |phdrs|
  {
    forall v: nat :: LastOn(phdrs, low, v, n) >= 0 ==>
      && v in pages
      && var ph := phdrs[LastOn(phdrs, low, v, n)];
      PageIs(pages[v], data, ph, Place(ph, low), v)
  }

  /** Where segments share a page they ask for the same bytes. */
  ghost predicate Agree(data: seq<byte>, phdrs: seq<Phdr>, low: nat) {
    forall i, j, v: nat, x :: 0 <= i < |phdrs| && 0 <= j < |phdrs| && Loaded(phdrs[i]) && Loaded(phdrs[j])
      && InPages(phdrs[i], low, v) && InPages(phdrs[j], low, v) && 0 <= x < PAGE
      ==> PageByte(data, phdrs[i], low, v, x) == PageByte(data, phdrs[j], low, v, x)
  }

  function PageByte(data: seq<byte>, ph: Phdr, low: nat, v: nat,
                    x: nat): byte { SegByte(data, ph, Place(ph, low), PAGE * v + x) }

  ghost predicate AllIn(pages: map<nat, seq<byte>>, data: seq<byte>, phdrs: seq<Phdr>, low: nat) {
    forall i :: 0 <= i < |phdrs| && Loaded(phdrs[i]) ==> SegmentIn(pages, data, phdrs[i], low)
  }

  /** Of what the loader leaves, all segments are in place exactly when they agree wherever they
      share a page. */
  lemma AllInIff(pages: map<nat, seq<byte>>, data: seq<byte>, phdrs: seq<Phdr>, low: nat)
    requires Image(pages, data, phdrs, low, |phdrs|)
    ensures AllIn(pages, data, phdrs, low) <==> Agree(data, phdrs, low)
  {
    if AllIn(pages, data, phdrs, low) {
      forall i, j, v: nat, x | 0 <= i < |phdrs| && 0 <= j < |phdrs| && Loaded(phdrs[i]) && Loaded(phdrs[j])
        && InPages(phdrs[i], low, v) && InPages(phdrs[j], low, v) && 0 <= x < PAGE
        ensures PageByte(data, phdrs[i], low, v, x) == PageByte(data, phdrs[j], low, v, x)
      {
        BothIn(pages, data, phdrs[i], phdrs[j], low, v, x);
      }
    }
    if Agree(data, phdrs, low) {
      forall i | 0 <= i < |phdrs| && Loaded(phdrs[i]) ensures SegmentIn(pages, data, phdrs[i], low) {
        forall v: nat | InPages(phdrs[i], low, v)
          ensures v in pages && PageIs(pages[v], data, phdrs[i], Place(phdrs[i], low), v)
        {
          SameBytes(pages, data, phdrs, low, i, v);
        }
      }
    }
  }

  lemma BothIn(pages: map<nat, seq<byte>>, data: seq<byte>, a: Phdr, b: Phdr, low: nat, v: nat, x: nat)
    requires SegmentIn(pages, data, a, low) && SegmentIn(pages, data, b, low) && InPages(a, low, v)
    requires InPages(b, low, v) && x < PAGE
    ensures PageByte(data, a, low, v, x) == PageByte(data, b, low, v, x)
  {
    assert pages[v][x] == PageByte(data, a, low, v, x);
    assert pages[v][x] == PageByte(data, b, low, v, x);
  }

  lemma SameBytes(pages: map<nat, seq<byte>>, data: seq<byte>, phdrs: seq<Phdr>, low: nat, i: nat, v: nat)
    requires Image(pages, data, phdrs, low, |phdrs|) && Agree(data, phdrs, low)
    requires i < |phdrs| && Loaded(phdrs[i]) && InPages(phdrs[i], low, v)
    ensures v in pages && PageIs(pages[v], data, phdrs[i], Place(phdrs[i], low), v)
  {
    var k := LastOn(phdrs, low, v, |phdrs|);
    assert k >= i;
    var ph := phdrs[k];
    forall x | 0 <= x < PAGE ensures pages[v][x] == SegByte(data, phdrs[i], Place(phdrs[i], low), PAGE * v + x) {
      assert pages[v][x] == PageByte(data, ph, low, v, x) == PageByte(data, phdrs[i], low, v, x);
    }
  }

  /** Segments on different pages agree. */
  lemma ApartAgree(data: seq<byte>, phdrs: seq<Phdr>, low: nat)
    requires Apart(phdrs, low)
    ensures Agree(data, phdrs, low)
  {
  }

  lemma ImageNone(pages: map<nat, seq<byte>>, data: seq<byte>, phdrs: seq<Phdr>, low: nat)
    ensures Image(pages, data, phdrs, low, 0)
  {
  }

  /** Loading segment `n` puts its pages over those of the earlier ones. */
  lemma ImageNext(was: map<nat, seq<byte>>, now: map<nat, seq<byte>>, data: seq<byte>, phdrs: seq<Phdr>, low: nat,
                  n: nat)
    requires n < |phdrs| && Image(was, data, phdrs, low, n)
    requires if Loaded(phdrs[n]) then SameOutside(was, now, [phdrs[n]], low) && SegmentIn(now, data, phdrs[n], low)
      else now == was
    ensures Image(now, data, phdrs, low, n + 1)
  {
    hide PageIs;
    forall v: nat | LastOn(phdrs, low, v, n + 1) >= 0
      ensures v in now && PageIs(now[v], data, phdrs[LastOn(phdrs, low, v, n + 1)],
                                 Place(phdrs[LastOn(phdrs, low, v, n + 1)], low), v)
    {
      if !(Loaded(phdrs[n]) && InPages(phdrs[n], low, v)) {
        assert LastOn(phdrs, low, v, n) >= 0;
      }
    }
  }

  /** Smallest page boundary above the ends of the first `n` loaded segments. */
  ghost predicate BoundIs(phdrs: seq<Phdr>, low: nat, n: nat, max: nat)
    requires n <= |phdrs|
  {
    && (forall i :: 0 <= i < n && Loaded(phdrs[i]) ==> Place(phdrs[i], low) + phdrs[i].memsz <= max)
    && (max == 0 || exists i :: 0 <= i < n && Loaded(phdrs[i]) && max == Place(phdrs[i], low) + phdrs[i].memsz)
  }

  function RoundUp(x: nat): nat { (x + PAGE - 1) / PAGE * PAGE }

  /** Loads the program. It works exactly if the header is good and all pages of the segments are to be had. On success
      every page belongs to the last segment that has it, so all segments are in place exactly when they agree on shared pages. No frame is lost exactly when they share no page and
      none of their pages was mapped before. Pages of no segment are left as they were, and the heap may start
      at the page boundary after the highest segment. */
  method Load(data: seq<byte>, h: Header, space: Space, ghost low: nat)
      returns (ok: bool, entry: nat, heap: nat, ghost max: nat)
    requires forall i :: 0 <= i < |h.phdrs| ==> h.phdrs[i].vaddr < TOP
    requires Lowest(h.phdrs, low) && forall i :: 0 <= i < |h.phdrs| ==> Fits(data, h.phdrs[i], low)
    modifies space
    ensures ok <==>
      && h.magic == 0x464C457F && h.class_ == 2 && h.order == 1 && h.kind in {2, 3} && h.machine == 0x3E
      && Granted(old(space.supply), Total(h.phdrs, low, |h.phdrs|))
    ensures ok ==> entry == (h.entry + 0x4000_0000 - low) % TWO_64
    ensures !ok ==> entry == 0
    ensures SameOutside(old(space.pages), space.pages, h.phdrs, low)
    ensures ok ==> BoundIs(h.phdrs, low, |h.phdrs|, max) && heap == RoundUp(max)
    ensures ok ==> Image(space.pages, data, h.phdrs, low, |h.phdrs|)
    ensures ok ==> (AllIn(space.pages, data, h.phdrs, low) <==> Agree(data, h.phdrs, low))
    ensures ok && Apart(h.phdrs, low) ==> AllIn(space.pages, data, h.phdrs, low)
    ensures space.lost >= old(space.lost)
    ensures ok ==>
      (space.lost == old(space.lost) <==> Apart(h.phdrs, low) && NewTo(old(space.pages), h.phdrs, low, |h.phdrs|))
  {
    hide SameOutside, Apart, Fits, Image, AllIn, Agree, NewTo, Granted, Total, BoundIs;
    entry, heap, max := 0, 0, 0;
    SameStart(space.pages, h.phdrs, low);
    if !GoodHeader(h) {
      return false, 0, 0, 0;
    }
    var min := FindLowest(h.phdrs);
    LowestIs(h.phdrs, min, low);
    var base, top := (BASE - min) % TWO_64, 0;
    ok, top := LoadSegments(data, h.phdrs, space, base, low);
    if !ok {
      return false, 0, 0, 0;
    }
    AllInIff(space.pages, data, h.phdrs, low);
    if Apart(h.phdrs, low) { ApartAgree(data, h.phdrs, low); }
    max := top;
    heap := (top + PAGE - 1) / PAGE * PAGE;
    return true, (h.entry + base) % TWO_64, heap, max;
  }

  lemma BoundNone(phdrs: seq<Phdr>, low: nat)
    ensures BoundIs(phdrs, low, 0, 0)
  {
  }

  lemma BoundNext(phdrs: seq<Phdr>, low: nat, n: nat, top: nat)
    requires n < |phdrs| && BoundIs(phdrs, low, n, top)
    ensures var e := Place(phdrs[n], low) + phdrs[n].memsz;
      if Loaded(phdrs[n]) && e > top then BoundIs(phdrs, low, n + 1, e) else BoundIs(phdrs, low, n + 1, top)
  {
  }

  /** The loop over the segments. */
  method LoadSegments(data: seq<byte>, phdrs: seq<Phdr>, space: Space, base: nat, ghost low: nat)
      returns (ok: bool, top: nat)
    requires base == (BASE - low) % TWO_64 && forall i :: 0 <= i < |phdrs| ==> Fits(data, phdrs[i], low)
    modifies space
    ensures ok <==> Granted(old(space.supply), Total(phdrs, low, |phdrs|))
    ensures SameOutside(old(space.pages), space.pages, phdrs, low) && space.lost >= old(space.lost)
    ensures ok ==>
      && BoundIs(phdrs, low, |phdrs|, top) && Image(space.pages, data, phdrs, low, |phdrs|)
      && (space.lost == old(space.lost) <==> Apart(phdrs, low) && NewTo(old(space.pages), phdrs, low, |phdrs|))
  {
    hide SameOutside, SegmentIn, Apart, Fits, Image, ApartTo, NewTo, Domain, Granted, Total, Asked, BoundIs, Unmapped,
      Beyond, Place;
    SameStart(space.pages, phdrs, low);
    BoundNone(phdrs, low);
    ImageNone(space.pages, data, phdrs, low);
    LostNone(space.pages, phdrs, low);
    NoneAsked(space.supply, phdrs, low);
    top := 0;
    var i := 0;
    while i < |phdrs|
      invariant 0 <= i <= |phdrs| && BoundIs(phdrs, low, i, top)
      invariant SameOutside(old(space.pages), space.pages, phdrs, low)
      invariant Image(space.pages, data, phdrs, low, i) && Domain(old(space.pages), space.pages, phdrs, low, i)
      invariant space.lost >= old(space.lost)
      invariant Granted(old(space.supply), Total(phdrs, low, i))
      invariant space.supply == Beyond(old(space.supply), Total(phdrs, low, i))
      invariant space.lost == old(space.lost) <==> ApartTo(phdrs, low, i) && NewTo(old(space.pages), phdrs, low, i)
    {
      var ph := phdrs[i];
      ghost var was := space.pages;
      BoundNext(phdrs, low, i, top);
      MoreAsked(old(space.supply), phdrs, low, i);
      if Loaded(ph) {
        ok, top := LoadOne(data, ph, space, base, low, top);
        OutsideAll(old(space.pages), was, space.pages, phdrs, i, low);
        if !ok {
          return;
        }
      }
      ImageNext(was, space.pages, data, phdrs, low, i);
      LostNext(old(space.pages), was, space.pages, data, phdrs, low, i);
      i := i + 1;
    }
    ApartAll(phdrs, low);
    ok := true;
  }

  ghost function Beyond(supply: seq<bool>, n: nat): seq<bool> { if n <= |supply| then supply[n..] else [] }

  lemma NoneAsked(supply: seq<bool>, phdrs: seq<Phdr>, low: nat)
    ensures Granted(supply, Total(phdrs, low, 0)) && Beyond(supply, Total(phdrs, low, 0)) == supply
  {
  }

  lemma MoreAsked(supply: seq<bool>, phdrs: seq<Phdr>, low: nat, n: nat)
    requires n < |phdrs| && Granted(supply, Total(phdrs, low, n))
    ensures var a, b := Total(phdrs, low, n), Asked(phdrs[n], low);
      && Total(phdrs, low, n + 1) == a + b
      && (Granted(Beyond(supply, a), b) <==> Granted(supply, a + b))
      && (Granted(supply, a + b) ==> Beyond(Beyond(supply, a), b) == Beyond(supply, a + b))
      && (Granted(supply, Total(phdrs, low, |phdrs|)) ==> Granted(supply, a + b))
    ensures !Loaded(phdrs[n]) ==> Asked(phdrs[n], low) == 0
  {
    TotalGrows(phdrs, low, n + 1, |phdrs|);
    GrantedOn(supply, Total(phdrs, low, n), Asked(phdrs[n], low), Total(phdrs, low, |phdrs|));
  }

  method LoadOne(data: seq<byte>, ph: Phdr, space: Space, base: nat, ghost low: nat, top: nat)
      returns (ok: bool, top': nat)
    requires Loaded(ph) && Fits(data, ph, low) && base == (BASE - low) % TWO_64
    modifies space
    ensures SameOutside(old(space.pages), space.pages, [ph], low)
    ensures ok <==> Granted(old(space.supply), Asked(ph, low))
    ensures ok ==> space.supply == Beyond(old(space.supply), Asked(ph, low))
    ensures ok ==>
      SegmentIn(space.pages, data, ph, low) && (space.lost == old(space.lost) <==> Unmapped(old(space.pages), ph, low))
    ensures space.lost >= old(space.lost)
    ensures top' == var e := Place(ph, low) + ph.memsz; if e > top then e else top
  {
    hide SameOutside, SegmentIn;
    var vaddr := (ph.vaddr + base) % TWO_64;
    Placed(data, ph, low);
    SameStart(space.pages, [ph], low);
    top' := if vaddr + ph.memsz > top then vaddr + ph.memsz else top;
    if vaddr < LOW {
      return false, top';
    }
    ok := space.LoadSegment(data, ph, low, vaddr);
  }

  /** No page of the segment is mapped yet. */
  ghost predicate Unmapped(pages: map<nat, seq<byte>>, ph: Phdr, low: nat) {
    forall v: nat :: InPages(ph, low, v) ==> v !in pages
  }

  /** No page of the first `n` segments was mapped before. */
  ghost predicate NewTo(pages: map<nat, seq<byte>>, phdrs: seq<Phdr>, low: nat, n: nat)
    requires n <= |phdrs|
  {
    forall i :: 0 <= i < n && Loaded(phdrs[i]) ==> Unmapped(pages, phdrs[i], low)
  }

  /** The first `n` segments share no page. */
  ghost predicate ApartTo(phdrs: seq<Phdr>, low: nat, n: nat)
    requires n <= |phdrs|
  {
    forall i, j, v: nat :: 0 <= i < j < n && Loaded(phdrs[i]) && Loaded(phdrs[j]) && InPages(phdrs[i], low, v) ==>
      !InPages(phdrs[j], low, v)
  }

  lemma ApartAll(phdrs: seq<Phdr>, low: nat)
    ensures ApartTo(phdrs, low, |phdrs|) <==> Apart(phdrs, low)
  {
  }

  /** What is mapped: what was, and the pages of the first `n` segments. */
  ghost predicate Domain(was: map<nat, seq<byte>>, now: map<nat, seq<byte>>, phdrs: seq<Phdr>, low: nat, n: nat)
    requires n <= |phdrs|
  {
    forall v: nat :: v in now <==> v in was || exists i :: 0 <= i < n && Loaded(phdrs[i]) && InPages(phdrs[i], low, v)
  }

  lemma LostNone(pages: map<nat, seq<byte>>, phdrs: seq<Phdr>, low: nat)
    ensures Domain(pages, pages, phdrs, low, 0) && NewTo(pages, phdrs, low, 0) && ApartTo(phdrs, low, 0)
  {
  }

  /** Segment `n` finds a page mapped exactly when it was before, or an earlier segment has it. */
  lemma LostNext(first: map<nat, seq<byte>>, was: map<nat, seq<byte>>, now: map<nat, seq<byte>>, data: seq<byte>,
                 phdrs: seq<Phdr>, low: nat, n: nat)
    requires n < |phdrs| && Domain(first, was, phdrs, low, n)
    requires if Loaded(phdrs[n]) then SameOutside(was, now, [phdrs[n]], low) && SegmentIn(now, data, phdrs[n], low)
      else now == was
    ensures Domain(first, now, phdrs, low, n + 1)
    ensures ApartTo(phdrs, low, n + 1) && NewTo(first, phdrs, low, n + 1) <==>
      ApartTo(phdrs, low, n) && NewTo(first, phdrs, low, n) && (Loaded(phdrs[n]) ==> Unmapped(was, phdrs[n], low))
  {
    hide PageIs, InPages, Loaded;
    assert [phdrs[n]][0] == phdrs[n];
    forall v: nat
      ensures v in now <==> v in first || exists i :: 0 <= i < n + 1 && Loaded(phdrs[i]) && InPages(phdrs[i], low, v)
    {
      if Loaded(phdrs[n]) && !InPages(phdrs[n], low, v) {
        assert v in now <==> v in was by { OutsideOne(was, now, phdrs[n], low, v); }
      }
    }
  }

  lemma OutsideOne(was: map<nat, seq<byte>>, now: map<nat, seq<byte>>, ph: Phdr, low: nat, v: nat)
    requires SameOutside(was, now, [ph], low) && !InPages(ph, low, v)
    ensures v in now <==> v in was
  {
  }

  lemma SameStart(m: map<nat, seq<byte>>, phdrs: seq<Phdr>, low: nat)
    ensures SameOutside(m, m, phdrs, low)
  {
  }

  /** The heap starts on a page boundary, above every segment and less than a page too high. */
  lemma HeapAbove(phdrs: seq<Phdr>, low: nat, max: nat, i: nat)
    requires BoundIs(phdrs, low, |phdrs|, max) && i < |phdrs| && Loaded(phdrs[i])
    ensures RoundUp(max) % PAGE == 0 && Place(phdrs[i], low) + phdrs[i].memsz <= RoundUp(max) < max + PAGE
  {
  }

  // Two segments on one page: eight bytes at 0 and eight bytes at 2048.
  const SHARED := [Phdr(PT_LOAD, 0, 0, 8, 8), Phdr(PT_LOAD, 0, 2048, 8, 8)]

  /** They do not agree, so the first one is not in place: its bytes have become zeros. */
  lemma SharedPageLost(pages: map<nat, seq<byte>>, data: seq<byte>)
    requires |data| >= 8 && data[0] != 0 && Image(pages, data, SHARED, 0, 2)
    ensures Lowest(SHARED, 0) && Fits(data, SHARED[0], 0) && Fits(data, SHARED[1], 0) && !Agree(data, SHARED, 0)
    ensures SegmentIn(pages, data, SHARED[1], 0) && !SegmentIn(pages, data, SHARED[0], 0)
    ensures ByteAt(pages, BASE) == Some(0)
  {
    var v := BASE / PAGE;
    var a, b := SHARED[0], SHARED[1];
    assert InPages(a, 0, v) && InPages(b, 0, v) && LastOn(SHARED, 0, v, 2) == 1;
    assert PageByte(data, a, 0, v, 0) == data[0] && PageByte(data, b, 0, v, 0) == 0;
    forall w: nat | InPages(b, 0, w) ensures w in pages && PageIs(pages[w], data, b, Place(b, 0), w) {
      assert LastOn(SHARED, 0, w, 2) == 1;
    }
    if SegmentIn(pages, data, a, 0) { BothIn(pages, data, a, b, 0, v, 0); }
    assert pages[v][0] == SegByte(data, b, Place(b, 0), PAGE * v + 0);
  }

  /** The loader run on them. */
  method LoadShared(data: seq<byte>, space: Space) returns (ok: bool)
    requires |data| >= 8 && data[0] != 0
    modifies space
    ensures ok ==>
      SegmentIn(space.pages, data, SHARED[1], 0) && !SegmentIn(space.pages, data, SHARED[0], 0)
      && space.lost > old(space.lost)
  {
    hide Apart, NewTo, Image, AllIn, Agree, SameOutside, BoundIs, SegmentIn;
    SharedShape(data);
    var entry, heap; ghost var max;
    ok, entry, heap, max := Load(data, Header(0x464C457F, 2, 1, 2, 0x3E, 0, SHARED), space, 0);
    if ok { SharedPageLost(space.pages, data); }
  }

  lemma SharedShape(data: seq<byte>)
    requires |data| >= 8
    ensures Lowest(SHARED, 0) && Fits(data, SHARED[0], 0) && Fits(data, SHARED[1], 0) && !Apart(SHARED, 0)
  {
    assert SHARED[0].vaddr == 0;
    assert InPages(SHARED[0], 0, BASE / PAGE) && InPages(SHARED[1], 0, BASE / PAGE);
  }

  lemma LowestIs(phdrs: seq<Phdr>, a: nat, b: nat)
    requires Lowest(phdrs, a) && Lowest(phdrs, b)
    ensures a == b
  {
  }

  lemma Placed(data: seq<byte>, ph: Phdr, low: nat)
    requires Loaded(ph) && Fits(data, ph, low)
    ensures (ph.vaddr + (BASE - low) % TWO_64) % TWO_64 == Place(ph, low)
  {
  }

  lemma OutsideAll(m0: map<nat, seq<byte>>, m1: map<nat, seq<byte>>, m2: map<nat, seq<byte>>, phdrs: seq<Phdr>, i: nat,
                   low: nat)
    requires SameOutside(m0, m1, phdrs, low) && i < |phdrs| && SameOutside(m1, m2, [phdrs[i]], low)
    ensures SameOutside(m0, m2, phdrs, low)
  {
  }
}
