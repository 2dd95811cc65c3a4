/** Which frames an address space holds outside the shared parts: its private tables and its pages. */
module PageOwn {
  import opened Wrappers
  import opened PageTree

  /** Pages of the space itself: the lower half without slots [0][0] and [0][3]. */
  predicate Private(i: nat, j: nat) { i < 256 && !(i == 0 && (j == 0 || j == 3)) }

  type Pages = map<nat, Path>

  /** The entry of a page in its page table, if the walk gets there. */
  function LeafEntry(mem: seq<Table>, root: nat, p: Path): Entry {
    var e4 := At(mem, root, p.i);
    if !Present(e4.flags) then NOTHING else
    var e3 := At(mem, e4.frame, p.j);
    if !Present(e3.flags) then NOTHING else
    var e2 := At(mem, e3.frame, p.k);
    if !Present(e2.flags) || Huge(e2.flags) then NOTHING else At(mem, e2.frame, p.l)
  }

  /** `pages` lists exactly the allocator's frames, numbered `lo` to `hi`, that are mapped privately,
      each at its one page. */
  ghost predicate PagesAre(mem: seq<Table>, root: nat, own: Owners, pages: Pages, lo: nat, hi: nat) {
    && (forall f :: f in pages ==> HeldAt(mem, root, own, pages, lo, hi, f))
    && forall p :: Valid(p) && Private(p.i, p.j) ==> Held(LeafEntry(mem, root, p), p, pages, lo, hi)
  }

  ghost predicate HeldAt(mem: seq<Table>, root: nat, own: Owners, pages: Pages, lo: nat, hi: nat, f: nat)
    requires f in pages
  {
    && lo <= f < hi && f !in own && Valid(pages[f]) && Private(pages[f].i, pages[f].j)
    && Points(LeafEntry(mem, root, pages[f]), f)
  }

  ghost predicate Held(e: Entry, p: Path, pages: Pages, lo: nat, hi: nat) {
    Present(e.flags) && lo <= e.frame < hi ==> e.frame in pages && pages[e.frame] == p
  }

  /** Leaves of a page table with a role. */
  lemma LeafAt(mem: seq<Table>, root: nat, own: Owners, pt: nat, i: nat, j: nat, k: nat, l: nat)
    requires Tree(mem, root, own) && Has(own, pt, L1(i, j, k)) && l < N
    ensures i < N && j < N && k < N && LeafEntry(mem, root, Path(i, j, k, l)) == At(mem, pt, l)
  {
    assert Reached(mem, root, pt, own[pt]);
  }

  // ---- what freeing takes back ----

  ghost function PagesIn(pages: Pages, i: nat, j: nat, k: nat, m: nat): (r: set<nat>)
  {
    set f | f in pages && pages[f].i == i && pages[f].j == j && pages[f].k == k && pages[f].l < m
  }

  /** Leaf `l` of the table adds its frame, or nothing. */
  lemma PagesInNext(mem: seq<Table>, root: nat, own: Owners, pages: Pages, lo: nat, hi: nat, pt: nat, i: nat, j: nat,
                    k: nat, l: nat)
    requires Tree(mem, root, own) && PagesAre(mem, root, own, pages, lo, hi) && Has(own, pt, L1(i, j, k))
    requires Private(i, j) && l < N
    ensures var e := At(mem, pt, l);
      && PagesIn(pages, i, j, k, l + 1) == PagesIn(pages, i, j, k, l) + (if Present(e.flags)
                                                                         && lo <= e.frame < hi then {e.frame} else {})
      && (Present(e.flags) && lo <= e.frame < hi ==> e.frame !in PagesIn(pages, i, j, k, l) && e.frame in pages)
      && PagesIn(pages, i, j, k, l + 1) <= PagesIn(pages, i, j, k, N)
  {
    LeafAt(mem, root, own, pt, i, j, k, l);
    var e, p := At(mem, pt, l), Path(i, j, k, l);
    assert Held(LeafEntry(mem, root, p), p, pages, lo, hi);
    var a, b := PagesIn(pages, i, j, k, l + 1), PagesIn(pages, i, j, k, l);
    forall f | f in a && f !in b ensures Present(e.flags) && lo <= e.frame < hi && f == e.frame {
      assert HeldAt(mem, root, own, pages, lo, hi, f);
      assert pages[f] == p;
    }
  }

  /** Frames of the first `m` regions below directory (i, j): page tables and pages. */
  ghost function TablesIn(own: Owners, pages: Pages, i: nat, j: nat, m: nat): (r: set<nat>) {
    (set f | f in own && own[f].L1? && own[f].i == i && own[f].j == j && own[f].k < m)
    + (set f | f in pages && pages[f].i == i && pages[f].j == j && pages[f].k < m)
  }

  /** Region `k` adds its table and the table's pages, or nothing when it has none. */
  lemma TablesInNext(mem: seq<Table>, root: nat, own: Owners, pages: Pages, lo: nat, hi: nat, pd: nat, i: nat, j: nat,
                     k: nat)
    requires Tree(mem, root, own) && PagesAre(mem, root, own, pages, lo, hi) && Has(own, pd, L2(i, j))
    requires Private(i, j) && k < N
    ensures var e := At(mem, pd, k);
      if Present(e.flags) && !Huge(e.flags) then
        && Has(own, e.frame, L1(i, j, k)) && e.frame !in TablesIn(own, pages, i, j, k)
        && PagesIn(pages, i, j, k, N) !! TablesIn(own, pages, i, j, k)
        && TablesIn(own, pages, i, j, k + 1) == TablesIn(own, pages, i, j, k) + PagesIn(pages, i, j, k, N) + {e.frame}
      else TablesIn(own, pages, i, j, k + 1) == TablesIn(own, pages, i, j, k)
    ensures TablesIn(own, pages, i, j, k + 1) <= TablesIn(own, pages, i, j, N)
    ensures PagesIn(pages, i, j, k, N) <= pages.Keys
  {
    var e := At(mem, pd, k);
    TreeLeads(mem, root, own, pd, k);
    assert Reached(mem, root, pd, own[pd]);
    var a, b, c := TablesIn(own, pages, i, j, k + 1), TablesIn(own, pages, i, j, k), PagesIn(pages, i, j, k, N);
    forall f | f in a && f !in b ensures Present(e.flags) && !Huge(e.flags) && (f in c || f == e.frame) {
      if f in own && own[f] == L1(i, j, k) {
        assert Reached(mem, root, f, own[f]);
      } else {
        assert HeldAt(mem, root, own, pages, lo, hi, f);
      }
    }
  }

  /** Frames of the first `m` directories below pdpt `i`. */
  ghost function DirsIn(own: Owners, pages: Pages, i: nat, m: nat): (r: set<nat>) {
    (set f | f in own && (own[f].L1? || own[f].L2?) && own[f].i == i && own[f].j < m && Private(i, own[f].j))
    + (set f | f in pages && pages[f].i == i && pages[f].j < m && Private(i, pages[f].j))
  }

  lemma DirsInNext(mem: seq<Table>, root: nat, own: Owners, pages: Pages, lo: nat, hi: nat, t: nat, i: nat, j: nat)
    requires Tree(mem, root, own) && PagesAre(mem, root, own, pages, lo, hi) && Has(own, t, L3(i)) && j < N
    ensures var e := At(mem, t, j);
      if Private(i, j) && Present(e.flags) then
        && Has(own, e.frame, L2(i, j)) && e.frame !in DirsIn(own, pages, i, j)
        && e.frame !in TablesIn(own, pages, i, j, N)
        && TablesIn(own, pages, i, j, N) !! DirsIn(own, pages, i, j)
        && DirsIn(own, pages, i, j + 1) == DirsIn(own, pages, i, j) + TablesIn(own, pages, i, j, N) + {e.frame}
      else DirsIn(own, pages, i, j + 1) == DirsIn(own, pages, i, j)
    ensures DirsIn(own, pages, i, j + 1) <= DirsIn(own, pages, i, N)
  {
    var e := At(mem, t, j);
    hide Tree, PagesAre, Has;
    forall f | f in DirsIn(own, pages, i, j + 1) && f !in DirsIn(own, pages, i, j)
      ensures Private(i, j) && Present(e.flags) && (f in TablesIn(own, pages, i, j, N) || f == e.frame)
    {
      DirsNew(mem, root, own, pages, lo, hi, t, i, j, f);
    }
    if Private(i, j) && Present(e.flags) {
      DirsHas(mem, root, own, pages, lo, hi, t, i, j);
      forall f | f in TablesIn(own, pages, i, j, N) ensures f in DirsIn(own, pages, i, j + 1) { }
    }
  }

  /** What directory `j` adds is its frame, or below it. */
  lemma DirsNew(mem: seq<Table>, root: nat, own: Owners, pages: Pages, lo: nat, hi: nat, t: nat, i: nat, j: nat, f: nat)
    requires Tree(mem, root, own) && PagesAre(mem, root, own, pages, lo, hi) && Has(own, t, L3(i)) && j < N
    requires f in DirsIn(own, pages, i, j + 1) && f !in DirsIn(own, pages, i, j)
    ensures var e := At(mem, t, j);
      Private(i, j) && Present(e.flags) && (f in TablesIn(own, pages, i, j, N) || f == e.frame)
  {
    TreeLeads(mem, root, own, t, j);
    assert Reached(mem, root, t, own[t]);
    if f in own { assert Reached(mem, root, f, own[f]); }
    if f in pages { assert HeldAt(mem, root, own, pages, lo, hi, f); }
  }

  lemma DirsHas(mem: seq<Table>, root: nat, own: Owners, pages: Pages, lo: nat, hi: nat, t: nat, i: nat, j: nat)
    requires Tree(mem, root, own) && PagesAre(mem, root, own, pages, lo, hi) && Has(own, t, L3(i)) && j < N
    requires Private(i, j) && Present(At(mem, t, j).flags)
    ensures var e := At(mem, t, j);
      && Has(own, e.frame, L2(i, j)) && e.frame !in DirsIn(own, pages, i, j)
      && e.frame !in TablesIn(own, pages, i, j, N)
      && e.frame in DirsIn(own, pages, i, j + 1) && TablesIn(own, pages, i, j, N) !! DirsIn(own, pages, i, j)
  {
    TreeLeads(mem, root, own, t, j);
    PagesNoTables(mem, root, own, pages, lo, hi);
    hide Tree, PagesAre;
  }

  /** Frames of the first `m` slots of the root. */
  ghost function SlotsIn(own: Owners, pages: Pages, m: nat): (r: set<nat>) {
    (set f | f in own && Freeable(own[f]) && !own[f].Root? && own[f].i < m) + (set f | f in pages && pages[f].i < m)
  }

  /** Tables that freeing the space takes back. */
  predicate Freeable(r: Role) {
    match r
    case Root => true
    case L3(i) => i < 256
    case L2(i, j) => Private(i, j)
    case L1(i, j, k) => Private(i, j)
  }

  /** All private frames: what freeing the space takes back. */
  ghost function AllPrivate(own: Owners, pages: Pages): set<nat> {
    (set f | f in own && Freeable(own[f])) + pages.Keys
  }

  lemma SlotsInNext(mem: seq<Table>, root: nat, own: Owners, pages: Pages, lo: nat, hi: nat, i: nat)
    requires Tree(mem, root, own) && PagesAre(mem, root, own, pages, lo, hi) && i < 256
    ensures var e := At(mem, root, i);
      if Present(e.flags) then
        && Has(own, e.frame, L3(i)) && e.frame !in SlotsIn(own, pages, i) && e.frame !in DirsIn(own, pages, i, N)
        && DirsIn(own, pages, i, N) !! SlotsIn(own, pages, i)
        && SlotsIn(own, pages, i + 1) == SlotsIn(own, pages, i) + DirsIn(own, pages, i, N) + {e.frame}
      else SlotsIn(own, pages, i + 1) == SlotsIn(own, pages, i)
    ensures SlotsIn(own, pages, i + 1) <= SlotsIn(own, pages, 256)
  {
    var e := At(mem, root, i);
    TreeLeads(mem, root, own, root, i);
    var a, b, c := SlotsIn(own, pages, i + 1), SlotsIn(own, pages, i), DirsIn(own, pages, i, N);
    forall f | f in a && f !in b ensures Present(e.flags) && (f in c || f == e.frame) {
      if f in own { assert Reached(mem, root, f, own[f]); }
      if f in pages { assert HeldAt(mem, root, own, pages, lo, hi, f); }
    }
    if Present(e.flags) {
      forall f | f in c ensures f in a && f !in b && f != e.frame {
        if f in own { assert Reached(mem, root, f, own[f]); }
        if f in pages { assert HeldAt(mem, root, own, pages, lo, hi, f); }
      }
    }
  }

  lemma SlotsInAll(mem: seq<Table>, root: nat, own: Owners, pages: Pages, lo: nat, hi: nat)
    requires Tree(mem, root, own) && PagesAre(mem, root, own, pages, lo, hi)
    ensures AllPrivate(own, pages) == SlotsIn(own, pages, 256) + {root} && root !in SlotsIn(own, pages, 256)
    ensures SlotsIn(own, pages, 0) == {}
  {
    forall f | f in AllPrivate(own, pages) ensures f in SlotsIn(own, pages, 256) || f == root {
      if f in own { assert Reached(mem, root, f, own[f]); }
      if f in pages { assert HeldAt(mem, root, own, pages, lo, hi, f); }
    }
    PagesNoTables(mem, root, own, pages, lo, hi);
  }

  lemma PagesNoTables(mem: seq<Table>, root: nat, own: Owners, pages: Pages, lo: nat, hi: nat)
    requires PagesAre(mem, root, own, pages, lo, hi)
    ensures pages.Keys !! own.Keys
  {
    forall f | f in pages ensures f !in own { assert HeldAt(mem, root, own, pages, lo, hi, f); }
  }

  lemma Nothing(own: Owners, pages: Pages, i: nat, j: nat, k: nat)
    ensures PagesIn(pages, i, j, k, 0) == {} && TablesIn(own, pages, i, j, 0) == {} && DirsIn(own, pages, i, 0) == {}
  {
  }

  // ---- mapping a private page ----

  predicate PrivatePath(p: Path) { Valid(p) && Private(p.i, p.j) }

  /** Private pages are small, and none has the bit that marks huge entries. */
  ghost predicate Small(mem: seq<Table>, root: nat) {
    forall p :: PrivatePath(p) && Translate(mem, root, p).Some? ==> !Huge(Translate(mem, root, p).value.flags)
  }

  /** For small pages the translation is the entry in the page table. */
  lemma LeafOrNone(mem: seq<Table>, root: nat, p: Path)
    requires PrivatePath(p) && Small(mem, root)
    ensures var m, e := Translate(mem, root, p), LeafEntry(mem, root, p);
      if m.Some? then Present(e.flags) && e.frame == m.value.frame && e.flags == m.value.flags else !Present(e.flags)
  {
    var m := Translate(mem, root, p);
    if m.Some? { assert !Huge(m.value.flags); }
  }

  /** The page at `p` now is frame `f`; a frame that was there is no longer mapped. */
  ghost function Reassign(pages: Pages, p: Path, f: nat): Pages { Vacate(pages, p)[f := p] }

  ghost function Vacate(pages: Pages, p: Path): Pages { map g | g in pages && pages[g] != p :: pages[g] }

  lemma MapKeepsPages(mem: seq<Table>, mem': seq<Table>, root: nat, own: Owners, own': Owners, pages: Pages, lo: nat,
                      hi: nat,
                      q: Path, e: Entry)
    requires PagesAre(mem, root, own, pages, lo, hi) && Small(mem, root) && PrivatePath(q)
    requires SameElsewhere(mem, mem', root, q) && LeafIs(Translate(mem', root, q), e) && Present(e.flags)
    requires !Huge(e.flags)
    requires lo <= e.frame < hi && e.frame !in own' && e.frame !in pages && pages.Keys !! own'.Keys
    ensures Small(mem', root) && PagesAre(mem', root, own', Reassign(pages, q, e.frame), lo, hi)
  {
    SmallKept(mem, mem', root, q, e);
    var pages' := Reassign(pages, q, e.frame);
    forall f | f in pages' ensures HeldAt(mem', root, own', pages', lo, hi, f) {
      if f != e.frame { assert HeldAt(mem, root, own, pages, lo, hi, f); LeafOrNone(mem, root, pages[f]); }
      LeafOrNone(mem', root, pages'[f]);
    }
    forall p | Valid(p) && Private(p.i, p.j) ensures Held(LeafEntry(mem', root, p), p, pages', lo, hi) {
      LeafOrNone(mem', root, p);
      LeafOrNone(mem, root, p);
      assert Held(LeafEntry(mem, root, p), p, pages, lo, hi);
    }
  }

  /** Mapping a frame that is not the allocator's, or clearing a page. */
  lemma DeviceKeepsPages(mem: seq<Table>, mem': seq<Table>, root: nat, own: Owners, own': Owners, pages: Pages,
                         lo: nat, hi: nat,
                         q: Path, e: Entry)
    requires PagesAre(mem, root, own, pages, lo, hi) && Small(mem, root) && Valid(q)
    requires SameElsewhere(mem, mem', root, q) && LeafIs(Translate(mem', root, q), e) && !Huge(e.flags)
    requires Present(e.flags) ==> !(lo <= e.frame < hi)
    requires pages.Keys !! own'.Keys
    ensures Small(mem', root) && PagesAre(mem', root, own', Vacate(pages, q), lo, hi)
  {
    SmallKept(mem, mem', root, q, e);
    var pages' := Vacate(pages, q);
    forall f | f in pages' ensures HeldAt(mem', root, own', pages', lo, hi, f) {
      assert HeldAt(mem, root, own, pages, lo, hi, f);
      LeafOrNone(mem, root, pages[f]);
      LeafOrNone(mem', root, pages'[f]);
    }
    forall p | Valid(p) && Private(p.i, p.j) ensures Held(LeafEntry(mem', root, p), p, pages', lo, hi) {
      LeafOrNone(mem', root, p);
      LeafOrNone(mem, root, p);
      assert Held(LeafEntry(mem, root, p), p, pages, lo, hi);
    }
  }

  lemma SmallKept(mem: seq<Table>, mem': seq<Table>, root: nat, q: Path, e: Entry)
    requires Small(mem, root) && SameElsewhere(mem, mem', root, q) && LeafIs(Translate(mem', root, q), e)
    requires !Huge(e.flags)
    ensures Small(mem', root)
  {
    forall p | PrivatePath(p) && Translate(mem', root, p).Some? ensures !Huge(Translate(mem', root, p).value.flags) {
      if p != q { assert Translate(mem, root, p) == Translate(mem', root, p); }
    }
  }

  /** Without a change of pages nothing changes hands. */
  lemma SameKeepsPages(mem: seq<Table>, mem': seq<Table>, root: nat, own: Owners, own': Owners, pages: Pages, lo: nat,
                       hi: nat)
    requires PagesAre(mem, root, own, pages, lo, hi) && Small(mem, root) && SameMap(mem, mem', root)
    requires pages.Keys !! own'.Keys
    ensures Small(mem', root) && PagesAre(mem', root, own', pages, lo, hi)
  {
    forall p | PrivatePath(p) && Translate(mem', root, p).Some? ensures !Huge(Translate(mem', root, p).value.flags) {
      assert Translate(mem, root, p) == Translate(mem', root, p);
    }
    forall f | f in pages ensures HeldAt(mem', root, own', pages, lo, hi, f) {
      assert HeldAt(mem, root, own, pages, lo, hi, f);
      LeafOrNone(mem, root, pages[f]);
      LeafOrNone(mem', root, pages[f]);
    }
    forall p | Valid(p) && Private(p.i, p.j) ensures Held(LeafEntry(mem', root, p), p, pages, lo, hi) {
      LeafOrNone(mem', root, p);
      LeafOrNone(mem, root, p);
      assert Held(LeafEntry(mem, root, p), p, pages, lo, hi);
    }
  }

  lemma NoHugeAt(mem: seq<Table>, root: nat, p: Path)
    requires Small(mem, root) && PrivatePath(p)
    ensures !HugeAt(mem, root, p)
  {
    assert Translate(mem, root, p).Some? ==> !Huge(Translate(mem, root, p).value.flags);
  }

  lemma VacateLess(pages: Pages, p: Path)
    ensures Vacate(pages, p).Keys <= pages.Keys
  {
  }

  // ---- a new address space ----

  /** Tables that all address spaces have in common: the upper half and the first GiB. */
  predicate Shared(r: Role) {
    match r
    case Root => false
    case L3(i) => i >= 256
    case L2(i, j) => i >= 256 || (i == 0 && j == 0)
    case L1(i, j, k) => i >= 256 || (i == 0 && j == 0)
  }

  ghost function SharedOf(own: Owners): Owners { map f | f in own && Shared(own[f]) :: own[f] }

  /** Own frames of a space: all but the shared tables. */
  ghost function Mine(own: Owners): set<nat> { set f | f in own && !Shared(own[f]) }

  /** The top table of a new space: its first slot leads to `t`, the upper half is the kernel's. */
  function NewRoot(kernel: Table, t: nat): (r: Table)
    requires |kernel| == N
    ensures |r| == N
  {
    [Entry(t, PWU)] + seq(255, _ => NOTHING) + kernel[256..]
  }

  /** Its table for the first slot has the kernel's first GiB. */
  function NewSlot(e: Entry): (r: Table)
    ensures |r| == N
  {
    [e] + seq(511, _ => NOTHING)
  }

  ghost predicate IsNew(mem: seq<Table>, kroot: nat, own: Owners, mem': seq<Table>, root: nat, t: nat) {
    && |mem'| == |mem| && root < |mem| && t < |mem| && root != t && root !in own && t !in own
    && kroot < |mem| && |mem[kroot]| == N && Present(mem[kroot][0].flags)
    && mem'[root] == NewRoot(mem[kroot], t) && mem'[t] == NewSlot(At(mem, mem[kroot][0].frame, 0))
    && forall f :: f in own && f < |mem| ==> mem'[f] == mem[f]
  }

  lemma NewSpace(mem: seq<Table>, kroot: nat, own: Owners, mem': seq<Table>, root: nat, t: nat)
    requires Tree(mem, kroot, own) && IsNew(mem, kroot, own, mem', root, t)
    ensures Tree(mem', root, SharedOf(own)[root := Root][t := L3(0)])
  {
    var own' := SharedOf(own)[root := Root][t := L3(0)];
    forall f | f in own' ensures f < |mem'| && |mem'[f]| == N && Reached(mem', root, f, own'[f]) {
      if f in own { NewReached(mem, kroot, own, mem', root, t, f); }
    }
    hide Reached;
    forall f, x: nat | f in own' && x < N
      ensures Leads(mem', own', f, x)
    {
      NewLeads(mem, kroot, own, mem', root, t, f, x);
    }
  }

  lemma NewReached(mem: seq<Table>, kroot: nat, own: Owners, mem': seq<Table>, root: nat, t: nat, f: nat)
    requires Tree(mem, kroot, own) && IsNew(mem, kroot, own, mem', root, t) && f in own && Shared(own[f])
    ensures f < |mem'| && |mem'[f]| == N && Reached(mem', root, f, own[f])
  {
    assert Reached(mem, kroot, f, own[f]);
    TreeLeads(mem, kroot, own, kroot, own[f].i);
    assert own[f].i >= 256 ==> At(mem', root, own[f].i) == At(mem, kroot, own[f].i);
    assert At(mem', root, 0) == Entry(t, PWU) && At(mem', t, 0) == At(mem, mem[kroot][0].frame, 0);
    match own[f] {
      case Root =>
      case L3(i) =>
      case L2(i, j) =>
      case L1(i, j, k) => TreeLeads(mem, kroot, own, At(mem, kroot, i).frame, j);
    }
  }

  lemma NewLeads(mem: seq<Table>, kroot: nat, own: Owners, mem': seq<Table>, root: nat, t: nat, f: nat, x: nat)
    requires Tree(mem, kroot, own) && IsNew(mem, kroot, own, mem', root, t) && x < N
    requires f == root || f == t || (f in own && Shared(own[f]))
    ensures Leads(mem', SharedOf(own)[root := Root][t := L3(0)], f, x)
  {
    TreeLeads(mem, kroot, own, kroot, 0);
    TreeLeads(mem, kroot, own, mem[kroot][0].frame, 0);
    if x >= 256 { TreeLeads(mem, kroot, own, kroot, x); }
    if f in own { TreeLeads(mem, kroot, own, f, x); }
  }

  /** No private page is mapped yet. */
  lemma NewEmpty(mem: seq<Table>, kroot: nat, own: Owners, mem': seq<Table>, root: nat, t: nat, lo: nat, hi: nat)
    requires Tree(mem, kroot, own) && IsNew(mem, kroot, own, mem', root, t)
    ensures Small(mem', root) && PagesAre(mem', root, SharedOf(own)[root := Root][t := L3(0)], map[], lo, hi)
  {
    forall p | PrivatePath(p) ensures Translate(mem', root, p).None? && LeafEntry(mem', root, p) == NOTHING {
      assert At(mem', root, p.i) == if p.i == 0 then Entry(t, PWU) else NOTHING;
      assert p.j > 0 ==> At(mem', t, p.j) == NOTHING;
    }
  }

  /** The pages outside the shared slots are exactly these. */
  ghost predicate Maps(mem: seq<Table>, root: nat, want: map<Path, Mapping>) {
    forall p :: Unshared(p) ==> Translate(mem, root, p) == if p in want then Some(want[p]) else None
  }

  /** No table outside the shared slots takes rights away from its pages. */
  ghost predicate Opens(mem: seq<Table>, root: nat) {
    forall p :: Unshared(p) ==> Above(mem, root, p) == Limits(ALL, ALL)
  }

  lemma NewNothing(mem: seq<Table>, kroot: nat, own: Owners, mem': seq<Table>, root: nat, t: nat)
    requires IsNew(mem, kroot, own, mem', root, t)
    ensures Maps(mem', root, map[]) && Opens(mem', root)
  {
    forall p | Unshared(p) ensures Translate(mem', root, p).None? && Above(mem', root, p) == Limits(ALL, ALL) {
      assert At(mem', root, p.i) == if p.i == 0 then Entry(t, PWU) else NOTHING;
      assert p.j > 0 ==> At(mem', t, p.j) == NOTHING;
    }
  }

  /** What a page leads to in the new space and in the kernel's: the same target and leaf flags. The new top-level entry
      allows everything, so at most the kernel's own one makes a difference to what is allowed. */
  ghost predicate AsKernel(m: Option<Mapping>, k: Option<Mapping>, top: Entry) {
    if k.None? then m.None?
    else
      && m.Some? && m.value.frame == k.value.frame && m.value.flags == k.value.flags
      && (k.value.writable <==> m.value.writable && Writable(top.flags))
      && (k.value.user <==> m.value.user && User(top.flags))
  }

  lemma OpensKept(mem: seq<Table>, mem': seq<Table>, root: nat, q: Path)
    requires Opens(mem, root) && (SameMap(mem, mem', root) || SameElsewhere(mem, mem', root, q))
    ensures Opens(mem', root)
  {
    hide Above, Translate;
  }

  /** There a small page allows what its own flags say. */
  lemma OpenRights(mem: seq<Table>, root: nat, p: Path, e: Entry)
    requires Opens(mem, root) && Unshared(p) && LeafIs(Translate(mem, root, p), e) && Present(e.flags) && !Huge(e.flags)
    ensures Translate(mem, root, p) == Some(Mapping(e.frame, e.flags, Writable(e.flags), User(e.flags)))
  {
    RightsOf(mem, root, p);
    hide Above, Translate;
  }

  /** A new mapping of page `q` is added to the others, or replaces one. */
  lemma MapsNext(mem: seq<Table>, mem': seq<Table>, root: nat, want: map<Path, Mapping>, q: Path, e: Entry)
    requires Maps(mem, root, want) && Opens(mem, root) && Unshared(q) && SameElsewhere(mem, mem', root, q)
    requires LeafIs(Translate(mem', root, q), e) && Present(e.flags) && !Huge(e.flags)
    ensures Maps(mem', root, want[q := Mapping(e.frame, e.flags, Writable(e.flags), User(e.flags))])
  {
    OpensKept(mem, mem', root, q);
    OpenRights(mem', root, q, e);
    hide Above, Translate, LeafIs;
  }

  lemma MapsSame(mem: seq<Table>, mem': seq<Table>, root: nat, want: map<Path, Mapping>)
    requires Maps(mem, root, want) && SameMap(mem, mem', root)
    ensures Maps(mem', root, want)
  {
    hide Above, Translate;
  }

  /** The upper half translates as the kernel's, and so does the first GiB; nothing else is held back by tables. */
  ghost predicate KernelPart(mem0: seq<Table>, kroot: nat, mem: seq<Table>, root: nat) {
    && (forall p :: Valid(p) && p.i >= 256 ==> Translate(mem, root, p) == Translate(mem0, kroot, p))
    && (forall p :: Valid(p) && p.i == 0 && p.j == 0 ==>
        AsKernel(Translate(mem, root, p), Translate(mem0, kroot, p), At(mem0, kroot, 0)))
    && Opens(mem, root)
  }

  lemma NewKernel(mem: seq<Table>, kroot: nat, own: Owners, mem': seq<Table>, root: nat, t: nat)
    requires Tree(mem, kroot, own) && IsNew(mem, kroot, own, mem', root, t)
    ensures KernelPart(mem, kroot, mem', root)
  {
    hide Tree, Translate, IsNew, Opens;
    NewNothing(mem, kroot, own, mem', root, t);
    forall p | Valid(p) && p.i >= 256 ensures Translate(mem', root, p) == Translate(mem, kroot, p) {
      NewUpper(mem, kroot, own, mem', root, t, p);
    }
    forall p | Valid(p) && p.i == 0 && p.j == 0
      ensures AsKernel(Translate(mem', root, p), Translate(mem, kroot, p), At(mem, kroot, 0))
    {
      NewFirst(mem, kroot, own, mem', root, t, p);
    }
  }

  lemma NewUpper(mem: seq<Table>, kroot: nat, own: Owners, mem': seq<Table>, root: nat, t: nat, p: Path)
    requires Tree(mem, kroot, own) && IsNew(mem, kroot, own, mem', root, t) && Valid(p) && p.i >= 256
    ensures Translate(mem', root, p) == Translate(mem, kroot, p)
  {
    var e4 := At(mem, kroot, p.i);
    TreeLeads(mem, kroot, own, kroot, p.i);
    assert At(mem', root, p.i) == e4;
    hide IsNew;
    if Present(e4.flags) {
      TableKept(mem, kroot, own, mem', root, t, e4.frame);
      TreeLeads(mem, kroot, own, e4.frame, p.j);
      BelowKept(mem, kroot, own, mem', root, t, e4.frame, p);
    }
  }

  lemma NewFirst(mem: seq<Table>, kroot: nat, own: Owners, mem': seq<Table>, root: nat, t: nat, p: Path)
    requires Tree(mem, kroot, own) && IsNew(mem, kroot, own, mem', root, t) && Valid(p) && p.i == 0 && p.j == 0
    ensures AsKernel(Translate(mem', root, p), Translate(mem, kroot, p), At(mem, kroot, 0))
  {
    var e4 := At(mem, kroot, 0);
    TreeLeads(mem, kroot, own, kroot, 0);
    assert At(mem', root, 0) == Entry(t, PWU) && At(mem', t, 0) == At(mem, e4.frame, 0);
    BelowKept(mem, kroot, own, mem', root, t, e4.frame, p);
  }

  lemma TableKept(mem: seq<Table>, kroot: nat, own: Owners, mem': seq<Table>, root: nat, t: nat, f: nat)
    requires Tree(mem, kroot, own) && IsNew(mem, kroot, own, mem', root, t) && f in own
    ensures forall x: nat :: At(mem', f, x) == At(mem, f, x)
  {
    assert f < |mem|;
  }

  /** Below a table of the kernel's tree nothing changed. */
  lemma BelowKept(mem: seq<Table>, kroot: nat, own: Owners, mem': seq<Table>, root: nat, t: nat, f: nat, p: Path)
    requires Tree(mem, kroot, own) && IsNew(mem, kroot, own, mem', root, t) && Valid(p) && Has(own, f, L3(p.i))
    ensures var e3 := At(mem, f, p.j);
      Present(e3.flags) ==>
        && At(mem', e3.frame, p.k) == At(mem, e3.frame, p.k)
        && forall w, u :: Below(mem', At(mem, e3.frame, p.k), p.l, w, u) == Below(mem, At(mem, e3.frame, p.k), p.l, w, u)
  {
    hide IsNew;
    var e3 := At(mem, f, p.j);
    TreeLeads(mem, kroot, own, f, p.j);
    if Present(e3.flags) {
      TableKept(mem, kroot, own, mem', root, t, e3.frame);
      TreeLeads(mem, kroot, own, e3.frame, p.k);
      var e2 := At(mem, e3.frame, p.k);
      if Present(e2.flags) && !Huge(e2.flags) { TableKept(mem, kroot, own, mem', root, t, e2.frame); }
    }
  }

  lemma KernelOpens(mem0: seq<Table>, kroot: nat, mem: seq<Table>, root: nat)
    requires KernelPart(mem0, kroot, mem, root)
    ensures Opens(mem, root)
  {
  }

  /** Changing a page outside both keeps it. */
  lemma KernelKept(mem0: seq<Table>, kroot: nat, mem: seq<Table>, mem': seq<Table>, root: nat, q: Path)
    requires KernelPart(mem0, kroot, mem, root) && Unshared(q)
    requires (SameMap(mem, mem', root) || SameElsewhere(mem, mem', root, q))
    ensures KernelPart(mem0, kroot, mem', root)
  {
    OpensKept(mem, mem', root, q);
    hide Translate, AsKernel, Opens;
  }

  /** Pages no table of which is shared. */
  predicate Unshared(p: Path) { Valid(p) && p.i < 256 && !(p.i == 0 && p.j == 0) }

  /** Mapping such a page adds own tables only, and writes own tables only. */
  lemma MineGrows(mem: seq<Table>, mem': seq<Table>, own: Owners, own': Owners, p: Path)
    requires Writes(mem, mem', own, own', p) && Unshared(p)
    ensures Mine(own') == Mine(own) + (own'.Keys - own.Keys)
    ensures |mem'| == |mem| && forall f :: 0 <= f < |mem| && mem'[f] != mem[f] ==> f in Mine(own')
  {
  }

  /** Frames that were out, and those that are not the allocator's, are as before. */
  ghost predicate OldKept(mem: seq<Table>, mem': seq<Table>, out: set<nat>, lo: nat, hi: nat) {
    |mem'| == |mem| && forall f :: 0 <= f < |mem| && (lo <= f < hi ==> f in out) ==> mem'[f] == mem[f]
  }

  lemma SameKept(mem: seq<Table>, out: set<nat>, lo: nat, hi: nat)
    ensures OldKept(mem, mem, out, lo, hi)
  {
  }

  lemma OldKeptOn(mem: seq<Table>, mem1: seq<Table>, mem2: seq<Table>, out: set<nat>, lo: nat, hi: nat, mine: set<nat>)
    requires OldKept(mem, mem1, out, lo, hi) && |mem2| == |mem1| && mine !! out
    requires forall f :: f in mine ==> lo <= f < hi
    requires forall f :: 0 <= f < |mem1| && mem2[f] != mem1[f] ==> f in mine
    ensures OldKept(mem, mem2, out, lo, hi)
  {
  }

  lemma NewMine(own: Owners, root: nat, t: nat)
    requires root !in own && t !in own
    ensures Mine(SharedOf(own)[root := Root][t := L3(0)]) == {root, t}
    ensures forall f :: f in SharedOf(own)[root := Root][t := L3(0)] ==> f in own || f == root || f == t
  {
  }

  lemma SharedKept(own: Owners, root: nat, t: nat)
    requires root !in own && t !in own
    ensures forall f :: f in SharedOf(own)[root := Root][t := L3(0)] && f != root && f != t ==>
      f in own && f !in Mine(own)
  {
  }

  lemma MineOwns(own: Owners)
    ensures Mine(own) <= own.Keys
  {
  }

  /** Own tables that freeing passes over: those of slot [0][3]. */
  ghost function Leaked(own: Owners): set<nat> { set f | f in own && !Shared(own[f]) && !Freeable(own[f]) }

  lemma LeakedIs(own: Owners, pages: Pages, out: set<nat>)
    requires Mine(own) !! out && pages.Keys !! out && pages.Keys !! own.Keys
    ensures out + Mine(own) + pages.Keys - AllPrivate(own, pages) == out + Leaked(own)
    ensures Leaked(own) <= Mine(own)
  {
  }

  /** Slot [0][3] has a directory. */
  predicate HasSlot3(mem: seq<Table>, root: nat) {
    var e4 := At(mem, root, 0);
    Present(e4.flags) && Present(At(mem, e4.frame, 3).flags)
  }

  /** The tables of slot [0][3], as the walk finds them: its directory and the page tables below. */
  ghost function Slot3(mem: seq<Table>, root: nat): set<nat> {
    if !HasSlot3(mem, root) then {}
    else
      var d := At(mem, At(mem, root, 0).frame, 3).frame;
      {d} + set k: nat | k < N && Present(At(mem, d, k).flags) && !Huge(At(mem, d, k).flags) :: At(mem, d, k).frame
  }

  ghost predicate HasRole(own: Owners, r: Role) { exists f :: Has(own, f, r) }

  /** Tables added for page `p` below slot 0: slot [0][3] gets some exactly if `p` is in it. */
  lemma Slot3Grows(mem: seq<Table>, mem': seq<Table>, root: nat, own: Owners, own': Owners, p: Path)
    requires Tree(mem, root, own) && Tree(mem', root, own') && Writes(mem, mem', own, own', p) && HasRole(own, L3(0))
    ensures HasRole(own', L3(0))
    ensures HasSlot3(mem', root) ==> HasSlot3(mem, root) || (p.i == 0 && p.j == 3)
    ensures HasSlot3(mem, root) ==> HasSlot3(mem', root)
    ensures p.i == 0 && p.j == 3 && (own' != own || Translate(mem', root, p).Some?) ==> HasSlot3(mem', root)
  {
    LeakedAre(mem, root, own);
    LeakedAre(mem', root, own');
    var t :| Has(own, t, L3(0));
    assert Has(own', t, L3(0));
    assert p.i == 0 && p.j == 3 && Translate(mem', root, p).Some? ==> HasSlot3(mem', root);
    TreeRoot(mem, root, own);
    hide Tree, HasSlot3, Slot3, Leaked, Translate;
    if g :| Has(own', g, L2(0, 3)) { assert g in own ==> Has(own, g, L2(0, 3)); }
    if g :| Has(own, g, L2(0, 3)) { assert Has(own', g, L2(0, 3)); }
    if p.i == 0 && p.j == 3 && own' != own { NewBelow(mem', root, own, own', p, t); }
  }

  lemma SameOwners(own: Owners, own': Owners)
    requires forall f :: f in own ==> f in own' && own'[f] == own[f]
    ensures own' == own || exists f :: f in own' && f !in own
  {
    if forall f :: f in own' ==> f in own { assert own' == own; }
  }

  lemma NewBelow(mem: seq<Table>, root: nat, own: Owners, own': Owners, p: Path, t: nat)
    requires Tree(mem, root, own') && p.i == 0 && p.j == 3 && own' != own && Has(own, t, L3(0))
    requires Has(own', root, Root) && root in own
    requires (forall f :: f in own ==> f in own' && own'[f] == own[f]) && forall f :: f in own' && f !in own ==>
      OnPath(own'[f], p)
    ensures HasSlot3(mem, root)
  {
    SameOwners(own, own');
    var g :| g in own' && g !in own;
    assert Reached(mem, root, g, own'[g]) && Reached(mem, root, t, own'[t]);
  }

  /** They are exactly the own tables that freeing passes over. */
  lemma LeakedAre(mem: seq<Table>, root: nat, own: Owners)
    requires Tree(mem, root, own)
    ensures Leaked(own) == Slot3(mem, root)
    ensures HasSlot3(mem, root) <==> exists f :: Has(own, f, L2(0, 3))
    ensures Slot3(mem, root) == {} <==> !HasSlot3(mem, root)
  {
    var e4 := At(mem, root, 0);
    TreeLeads(mem, root, own, root, 0);
    if Present(e4.flags) { TreeLeads(mem, root, own, e4.frame, 3); }
    forall f | f in Leaked(own) ensures f in Slot3(mem, root) {
      assert Reached(mem, root, f, own[f]);
      if own[f].L1? { assert At(mem, At(mem, e4.frame, 3).frame, own[f].k).frame == f; }
    }
    forall f | f in Slot3(mem, root) ensures f in Leaked(own) {
      var d := At(mem, e4.frame, 3).frame;
      if f != d {
        var k: nat :| k < N && Present(At(mem, d, k).flags) && !Huge(At(mem, d, k).flags) && At(mem, d, k).frame == f;
        TreeLeads(mem, root, own, d, k);
      }
    }
    forall f | Has(own, f, L2(0, 3)) ensures HasSlot3(mem, root) { assert Reached(mem, root, f, own[f]); }
  }

  lemma RootMine(root: nat, own: Owners)
    requires Has(own, root, Root)
    ensures root in Mine(own)
  {
  }

}
