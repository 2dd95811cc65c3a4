/** What copying an address space has achieved at each point of its walk over the parent. */
module PageCopy {
  import opened PageTree
  import opened PageOwn
  import opened Wrappers

  /** Order in which the copy visits pages. */
  predicate Before(p: Path, q: Path) {
    p.i < q.i || (p.i == q.i && (p.j < q.j || (p.j == q.j && (p.k < q.k || (p.k == q.k && p.l < q.l)))))
  }

  /** The child has the parent's page at the same address, with the same flags and contents, on a
      frame of its own. */
  ghost predicate CopiedAt(mem0: seq<Table>, src: nat, mem: seq<Table>, dst: nat, pages: Pages, p: Path) {
    var e, m := LeafEntry(mem0, src, p), Translate(mem, dst, p);
    Present(e.flags) ==>
      m.Some? && m.value.flags == e.flags && Load(mem, m.value.frame) == Load(mem0, e.frame)
      && m.value.frame in pages && pages[m.value.frame] == p
  }

  ghost predicate FromParent(mem0: seq<Table>, src: nat, p: Path) { Present(LeafEntry(mem0, src, p).flags) }

  ghost predicate Done(mem0: seq<Table>, src: nat, mem: seq<Table>, dst: nat, pages: Pages, at: Path) {
    && (forall p :: PrivatePath(p) && Before(p, at) ==> CopiedAt(mem0, src, mem, dst, pages, p))
    && forall f :: f in pages ==> Valid(pages[f]) && Before(pages[f], at) && FromParent(mem0, src, pages[f])
  }

  /** What the parent must be like: private page-table entries lead to frames that are out, or not
      the allocator's, and none has the bit that marks huge entries. */
  ghost predicate Copyable(mem: seq<Table>, root: nat, out: set<nat>, lo: nat, hi: nat) {
    forall p :: PrivatePath(p) ==> LeafOk(LeafEntry(mem, root, p), out, lo, hi)
  }

  ghost predicate LeafOk(e: Entry, out: set<nat>, lo: nat, hi: nat) {
    Present(e.flags) ==> !Huge(e.flags) && (lo <= e.frame < hi ==> e.frame in out)
  }

  /** The page at `q` was copied to frame `f`. */
  lemma DoneNext(mem0: seq<Table>, src: nat, mem: seq<Table>, mem': seq<Table>, dst: nat, pages: Pages, q: Path,
                 f: nat, e: Entry)
    requires Done(mem0, src, mem, dst, pages, q) && PrivatePath(q) && e == LeafEntry(mem0, src, q)
    requires SameElsewhere(mem, mem', dst, q) && LeafIs(Translate(mem', dst, q), Entry(f, e.flags)) && Present(e.flags)
    requires |mem'| == |mem| && f !in pages && f < |mem| && mem'[f] == Load(mem0, e.frame)
    requires forall g :: g in pages && g < |mem| ==> mem'[g] == mem[g]
    ensures Vacate(pages, q) == pages && Done(mem0, src, mem', dst, Reassign(pages, q, f), q.(l := q.l + 1))
  {
    assert forall g :: g in pages ==> pages[g] != q;
    assert Vacate(pages, q) == pages;
    var pages', at := Reassign(pages, q, f), q.(l := q.l + 1);
    forall p | PrivatePath(p) && Before(p, at) ensures CopiedAt(mem0, src, mem', dst, pages', p) {
      if p != q { assert CopiedAt(mem0, src, mem, dst, pages, p); }
    }
  }

  /** Nothing to copy between two points of the walk. */
  lemma DoneSkip(mem0: seq<Table>, src: nat, mem: seq<Table>, dst: nat, pages: Pages, a: Path, b: Path)
    requires Done(mem0, src, mem, dst, pages, a)
    requires forall p :: PrivatePath(p) && Before(p, b) && !Before(p, a) ==> !Present(LeafEntry(mem0, src, p).flags)
    requires forall p :: Valid(p) && Before(p, a) ==> Before(p, b)
    ensures Done(mem0, src, mem, dst, pages, b)
  {
    forall p | PrivatePath(p) && Before(p, b) ensures CopiedAt(mem0, src, mem, dst, pages, p) {
      if Before(p, a) { assert CopiedAt(mem0, src, mem, dst, pages, p); }
    }
  }

  /** An entry that leads nowhere leaves nothing to copy below it. */
  lemma NothingBelow(mem: seq<Table>, root: nat, own: Owners, f: nat, x: nat, p: Path)
    requires Tree(mem, root, own) && f in own && x < N && Valid(p) && Through(own[f], x, p)
    requires !Present(At(mem, f, x).flags) || (own[f].L2? && Huge(At(mem, f, x).flags))
    ensures !Present(LeafEntry(mem, root, p).flags)
  {
    assert Reached(mem, root, f, own[f]);
  }

  /** A process can be copied. */
  lemma ProcessCopyable(mem: seq<Table>, root: nat, own: Owners, pages: Pages, out: set<nat>, lo: nat, hi: nat)
    requires PagesAre(mem, root, own, pages, lo, hi) && Small(mem, root) && pages.Keys <= out
    ensures Copyable(mem, root, out, lo, hi)
  {
    forall p | PrivatePath(p) ensures LeafOk(LeafEntry(mem, root, p), out, lo, hi) {
      LeafOrNone(mem, root, p);
      assert Held(LeafEntry(mem, root, p), p, pages, lo, hi);
      assert Translate(mem, root, p).Some? ==> !Huge(Translate(mem, root, p).value.flags);
    }
  }

  lemma LeafIsOk(mem: seq<Table>, root: nat, out: set<nat>, lo: nat, hi: nat, p: Path)
    requires Copyable(mem, root, out, lo, hi) && PrivatePath(p)
    ensures LeafOk(LeafEntry(mem, root, p), out, lo, hi)
  {
  }

  lemma LoadKept(mem: seq<Table>, mem': seq<Table>, out: set<nat>, lo: nat, hi: nat, f: nat)
    requires OldKept(mem, mem', out, lo, hi) && (lo <= f < hi ==> f in out)
    ensures Load(mem', f) == Load(mem, f)
  {
  }

  /** Changes that touch neither a page of the child nor its mapping. */
  lemma DoneKept(mem0: seq<Table>, src: nat, mem: seq<Table>, mem': seq<Table>, dst: nat, pages: Pages, at: Path)
    requires Done(mem0, src, mem, dst, pages, at) && SameMap(mem, mem', dst) && |mem'| == |mem|
    requires forall f :: f in pages && f < |mem| ==> mem'[f] == mem[f]
    ensures Done(mem0, src, mem', dst, pages, at)
  {
    forall p | PrivatePath(p) && Before(p, at) ensures CopiedAt(mem0, src, mem', dst, pages, p) {
      assert CopiedAt(mem0, src, mem, dst, pages, p);
      assert Translate(mem', dst, p) == Translate(mem, dst, p);
    }
  }

  /** Writing tables leaves the pages alone. */
  lemma TablesOnly(mem: seq<Table>, mem': seq<Table>, own: Owners, own': Owners, p: Path, pages: Pages, g: nat)
    requires Writes(mem, mem', own, own', p) && pages.Keys !! own'.Keys && g !in own' && g < |mem|
    ensures |mem'| == |mem| && mem'[g] == mem[g] && forall f :: f in pages && f < |mem| ==> mem'[f] == mem[f]
  {
  }

  lemma VacateNone(mem0: seq<Table>, src: nat, mem: seq<Table>, dst: nat, pages: Pages, q: Path, g: nat)
    requires Done(mem0, src, mem, dst, pages, q)
    ensures Vacate(pages, q) == pages && Reassign(pages, q, g).Keys == pages.Keys + {g}
  {
    assert forall f :: f in pages ==> pages[f] != q;
    assert Vacate(pages, q) == pages;
  }

  /** The copy on frame `g` was mapped at `q`. */
  lemma Placed(mem0: seq<Table>, src: nat, mem: seq<Table>, mem': seq<Table>, dst: nat, own: Owners, own': Owners,
               pages: Pages,
               q: Path, g: nat, e: Entry)
    requires Done(mem0, src, mem, dst, pages, q) && PrivatePath(q) && e == LeafEntry(mem0, src, q) && Present(e.flags)
    requires Writes(mem, mem', own, own', q) && SameElsewhere(mem, mem', dst, q)
    requires LeafIs(Translate(mem', dst, q), Entry(g, e.flags))
    requires g !in pages && g < |mem| && mem[g] == Load(mem0, e.frame) && Reassign(pages, q, g).Keys !! own'.Keys
    ensures Done(mem0, src, mem', dst, Reassign(pages, q, g), q.(l := q.l + 1))
  {
    VacateNone(mem0, src, mem, dst, pages, q, g);
    TablesOnly(mem, mem', own, own', q, pages, g);
    DoneNext(mem0, src, mem, mem', dst, pages, q, g, e);
  }

  /** Where the walk is when it comes to entry `x` of a table. */
  function Start(r: Role, x: nat): Path {
    match r
    case Root => Path(x, 0, 0, 0)
    case L3(i) => Path(i, x, 0, 0)
    case L2(i, j) => Path(i, j, x, 0)
    case L1(i, j, k) => Path(i, j, k, x)
  }

  /** The pages between two entries are those below the first. */
  lemma Between(r: Role, x: nat, p: Path)
    requires Valid(p)
    ensures Before(p, Start(r, x)) ==> Before(p, Start(r, x + 1))
    ensures Before(p, Start(r, x + 1)) && !Before(p, Start(r, x)) ==> Through(r, x, p)
  {
  }

  /** An entry that leads nowhere is passed over. */
  lemma SkipEntry(mem0: seq<Table>, src: nat, ownS: Owners, f: nat, x: nat, mem: seq<Table>, dst: nat, pages: Pages)
    requires Tree(mem0, src, ownS) && f in ownS && x < N && Done(mem0, src, mem, dst, pages, Start(ownS[f], x))
    requires !Present(At(mem0, f, x).flags) || (ownS[f].L2? && Huge(At(mem0, f, x).flags))
    ensures Done(mem0, src, mem, dst, pages, Start(ownS[f], x + 1))
  {
    var a, b := Start(ownS[f], x), Start(ownS[f], x + 1);
    forall p | PrivatePath(p) && Before(p, b) && !Before(p, a) ensures !Present(LeafEntry(mem0, src, p).flags) {
      Between(ownS[f], x, p);
      NothingBelow(mem0, src, ownS, f, x, p);
    }
    forall p | Valid(p) && Before(p, a) ensures Before(p, b) { Between(ownS[f], x, p); }
    DoneSkip(mem0, src, mem, dst, pages, a, b);
  }

  /** So are the two slots that are not private. */
  lemma SkipSlot(mem0: seq<Table>, src: nat, mem: seq<Table>, dst: nat, pages: Pages, j: nat)
    requires Done(mem0, src, mem, dst, pages, Path(0, j, 0, 0)) && (j == 0 || j == 3)
    ensures Done(mem0, src, mem, dst, pages, Path(0, j + 1, 0, 0))
  {
    forall p | PrivatePath(p) && Before(p, Path(0, j + 1, 0, 0)) ensures Before(p, Path(0, j, 0, 0)) { }
    DoneSkip(mem0, src, mem, dst, pages, Path(0, j, 0, 0), Path(0, j + 1, 0, 0));
  }

  /** After the last entry of a table the walk goes on above it. */
  lemma Carry(mem0: seq<Table>, src: nat, mem: seq<Table>, dst: nat, pages: Pages, r: Role, x: nat)
    requires !r.L1? && Done(mem0, src, mem, dst, pages, Start(Child(r, x), N))
    ensures Done(mem0, src, mem, dst, pages, Start(r, x + 1))
  {
    var a, b := Start(Child(r, x), N), Start(r, x + 1);
    forall p | Valid(p) ensures Before(p, a) <==> Before(p, b) { }
    DoneSkip(mem0, src, mem, dst, pages, a, b);
  }

  lemma DoneNone(mem0: seq<Table>, src: nat, mem: seq<Table>, dst: nat)
    ensures Done(mem0, src, mem, dst, map[], Path(0, 0, 0, 0))
  {
  }

  /** At the end of the walk every private page is copied. */
  lemma DoneAll(mem0: seq<Table>, src: nat, mem: seq<Table>, dst: nat, pages: Pages)
    requires Done(mem0, src, mem, dst, pages, Path(256, 0, 0, 0))
    ensures forall p :: PrivatePath(p) ==> CopiedAt(mem0, src, mem, dst, pages, p)
    ensures forall f :: f in pages ==> FromParent(mem0, src, pages[f])
  {
    forall p | PrivatePath(p) ensures CopiedAt(mem0, src, mem, dst, pages, p) { assert Before(p, Path(256, 0, 0, 0)); }
  }
}
