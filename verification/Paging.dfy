/** Mapping pages of an address space, with table frames from the physical page allocator. */
module Paging {
  import opened Wrappers
  import opened PageTree
  import opened PageOwn
  import opened PageCopy
  import Pmm

  class Memory {
    const pmm: Pmm.Allocator
    var mem: seq<Table>
    // tables that all address spaces have in common
    ghost const common: set<nat>

    constructor (p: Pmm.Allocator, frames: seq<Table>, ghost shared: set<nat>)
      ensures pmm == p && mem == frames && common == shared
    {
      pmm, mem, common := p, frames, shared;
    }

    /** Every page the allocator hands out is a frame of this memory. */
    ghost predicate Ready()
      reads this, pmm
    {
      && pmm.Valid() && (forall f :: 0 <= f < |mem| ==> |mem[f]| == N)
      && (pmm.ready ==> pmm.base / Pmm.PAGE + pmm.total <= |mem|)
    }

    predicate Managed(f: nat)
      reads pmm`ready, pmm`base, pmm`total
    {
      pmm.ready && pmm.base / Pmm.PAGE <= f < pmm.base / Pmm.PAGE + pmm.total
    }

    /** No frame is left. */
    ghost predicate AllOut()
      requires pmm.Valid()
      reads pmm
    {
      forall h: nat :: Managed(h) ==> h in Outs()
    }

    /** Frames that are out. */
    ghost function Outs(): set<nat>
      requires pmm.Valid()
      reads pmm
    {
      Frames(pmm.base, pmm.Out())
    }

    /** A blank frame that was not out; none when all are out. */
    method AllocFrame() returns (f: Option<nat>)
      requires Ready()
      modifies this`mem, pmm`bits, pmm`cursor
      ensures Ready() && |mem| == |old(mem)|
      ensures f.None? ==> mem == old(mem) && Outs() == old(Outs()) && forall g: nat :: Managed(g) ==> g in Outs()
      ensures f.Some? ==>
        && f.value < |mem| && Managed(f.value) && f.value !in old(Outs())
        && mem == old(mem)[f.value := BLANK] && Outs() == old(Outs()) + {f.value}
    {
      hide Frames, Pmm.OutPages;
      var p := pmm.AllocPage();
      if p == 0 {
        FramesHas(pmm.base, pmm.Out());
        return None;
      }
      PageFrame(pmm.base, p);
      FramesAdd(pmm.base, old(pmm.Out()), (p - pmm.base) / Pmm.PAGE);
      f := Some(p / Pmm.PAGE);
      mem := mem[p / Pmm.PAGE := BLANK];
    }

    method FreeFrame(f: nat)
      requires Ready()
      modifies pmm`bits
      ensures Ready() && Outs() == old(Outs()) - {f}
    {
      hide Frames, Pmm.OutPages;
      if pmm.ready { FramePage(pmm.base, f); } else { FramesHas(pmm.base, {}); }
      FramesDrop(pmm.base, pmm.Out(), f);
      pmm.FreePage(f * Pmm.PAGE);
    }

    /** The address space at `root` has these tables, and none of them can be handed out again. */
    ghost predicate Space(root: nat, own: Owners)
      reads this, pmm
    {
      Ready() && Tree(mem, root, own) && forall f :: f in own && Managed(f) ==> f in Outs()
    }

    /** The table that entry `x` of table `f`, on the way to page `p`, leads to; a blank one is put in
        if there is none. No page changes. There is no result when no frame is left. */
    method Descend(f: nat, x: nat, ghost p: Path, ghost root: nat, ghost own: Owners)
        returns (g: Option<nat>, ghost own': Owners)
      requires Space(root, own) && f in own && x < N && !own[f].L1? && OnPath(own[f], p) && OnPath(Child(own[f], x), p)
      requires !(own[f].L2? && Present(mem[f][x].flags) && Huge(mem[f][x].flags))
      modifies this`mem, pmm`bits, pmm`cursor
      ensures Space(root, own') && SameMap(old(mem), mem, root) && Writes(old(mem), mem, own, own', p)
      ensures Outs() == old(Outs()) + (own'.Keys - own.Keys) && (own'.Keys - own.Keys) !! old(Outs())
      ensures g.None? ==> own' == own && mem == old(mem) && forall h: nat :: Managed(h) ==> h in Outs()
      ensures g.Some? ==> Has(own', g.value, Child(own[f], x))
      ensures forall h :: h in own' && h !in own ==> own'[h] == Child(own[f], x)
    {
      hide Tree, SameMap, Writes, Put, OnPath, Frames;
      own' := own;
      TreeLeads(mem, root, own, f, x);
      NoWrites(mem, root, own, p);
      if !Present(mem[f][x].flags) {
        g := AllocFrame();
        if g.Some? {
          AddTable(old(mem), root, own, f, x, g.value, p);
          mem := Put(mem, f, x, Entry(g.value, PWU));
          own' := own[g.value := Child(own[f], x)];
        }
      } else {
        g := Some(mem[f][x].frame);
      }
    }

    /** A huge entry on the way to page `p` gives way to a table of its 512 pages. No page changes. */
    method SplitHuge(f: nat, x: nat, ghost p: Path, ghost root: nat, ghost own: Owners)
        returns (ok: bool, ghost own': Owners)
      requires Space(root, own) && f in own && x < N && own[f].L2? && OnPath(own[f], p) && OnPath(Child(own[f], x), p)
      requires Present(mem[f][x].flags) && Huge(mem[f][x].flags)
      modifies this`mem, pmm`bits, pmm`cursor
      ensures Space(root, own') && SameMap(old(mem), mem, root) && Writes(old(mem), mem, own, own', p)
      ensures Outs() == old(Outs()) + (own'.Keys - own.Keys) && (own'.Keys - own.Keys) !! old(Outs())
      ensures ok ==> Present(mem[f][x].flags) && !Huge(mem[f][x].flags)
      ensures !ok ==> own' == own && mem == old(mem) && forall h: nat :: Managed(h) ==> h in Outs()
    {
      hide Tree, SameMap, Writes, Put, OnPath, SplitTable, SplitFlags, Frames;
      TreeLeads(mem, root, own, f, x);
      NoWrites(mem, root, own, p);
      own' := own;
      var e := mem[f][x];
      SplitLeads(e);
      var g := AllocFrame();
      ok := g.Some?;
      if ok {
        var t := PagesOf(e);
        AddSplit(old(mem), root, own, f, x, g.value, p);
        Twice(old(mem), g.value, BLANK, t);
        mem := mem[g.value := t];
        mem := Put(mem, f, x, Entry(g.value, SplitFlags(e)));
        own' := own[g.value := Child(own[f], x)];
      }
    }

    /** The page directory for page `p`, with the tables above it. */
    method ToDirectory(root: nat, p: Path, ghost own: Owners) returns (pd: Option<nat>, ghost own': Owners)
      requires Space(root, own) && Valid(p)
      modifies this`mem, pmm`bits, pmm`cursor
      ensures Space(root, own') && SameMap(old(mem), mem, root) && Writes(old(mem), mem, own, own', p)
      ensures Outs() == old(Outs()) + (own'.Keys - own.Keys) && (own'.Keys - own.Keys) !! old(Outs())
      ensures pd.Some? ==> Has(own', pd.value, L2(p.i, p.j)) && (HasTable(own', p) <==> HasTable(own, p))
      ensures pd.None? ==> forall h: nat :: Managed(h) ==> h in Outs()
    {
      hide Tree, SameMap, Writes, Frames;
      TreeRoot(mem, root, own);
      pd, own' := Descend(root, p.i, p, root, own);
      if pd.Some? {
        ghost var mem1, own1 := mem, own';
        pd, own' := Descend(pd.value, p.j, p, root, own1);
        WritesOn(old(mem), mem1, mem, own, own1, own', p);
        SameOn(old(mem), mem1, mem, root);
        assert HasTable(own', p) <==> HasTable(own, p) by { NoTableAdded(old(mem), mem1, mem, own, own1, own', p); }
      }
    }

    /** The page table for page `p` below its directory; a huge entry is split first. */
    method ToTable(root: nat, pd: nat, p: Path, ghost own: Owners) returns (pt: Option<nat>, ghost own': Owners)
      requires Space(root, own) && Valid(p) && Has(own, pd, L2(p.i, p.j))
      modifies this`mem, pmm`bits, pmm`cursor
      ensures Space(root, own') && SameMap(old(mem), mem, root) && Writes(old(mem), mem, own, own', p)
      ensures Outs() == old(Outs()) + (own'.Keys - own.Keys) && (own'.Keys - own.Keys) !! old(Outs())
      ensures pt.Some? ==> Has(own', pt.value, L1(p.i, p.j, p.k))
      ensures pt.None? ==> forall h: nat :: Managed(h) ==> h in Outs()
    {
      hide Tree, SameMap, Writes, Frames;
      TreeSizes(mem, root, own, pd);
      var e := mem[pd][p.k];
      own' := own;
      if Present(e.flags) && Huge(e.flags) {
        var ok;
        ok, own' := SplitHuge(pd, p.k, p, root, own);
        if !ok {
          return None, own';
        }
      } else {
        NoWrites(mem, root, own, p);
      }
      ghost var mem1, own1 := mem, own';
      WritesKeep(old(mem), mem, own, own', p, pd);
      pt, own' := Descend(pd, p.k, p, root, own1);
      WritesOn(old(mem), mem1, mem, own, own1, own', p);
      SameOn(old(mem), mem1, mem, root);
    }

    /** Maps one page, or a 2 MiB region when the flags say huge (bit 7). Exactly the requested page, or
        region, gets the given target and leaf flags, and allows what these and the tables above it, old and new, let
        through. It fails when no frame is left, or when the region is to be
        huge and has a table of single pages; a failure changes no page. */
    method MapPage(root: nat, phys: nat, virt: nat, flags: Flags, ghost own: Owners)
        returns (ok: bool, ghost own': Owners)
      requires Space(root, own)
      modifies this`mem, pmm`bits, pmm`cursor
      ensures Space(root, own') && Writes(old(mem), mem, own, own', PathOf(virt))
      ensures Outs() == old(Outs()) + (own'.Keys - own.Keys) && (own'.Keys - own.Keys) !! old(Outs())
      ensures !ok ==>
        SameMap(old(mem), mem, root) && ((Huge(flags) && HasTable(own, PathOf(virt))) || forall h: nat :: Managed(h) ==> h in Outs())
      ensures Huge(flags) && HasTable(own, PathOf(virt)) ==> !ok
      ensures ok && flags / 128 % 2 == 0 ==>
        && SameElsewhere(old(mem), mem, root, PathOf(virt))
        && LeafIs(Translate(mem, root, PathOf(virt)), Entry(phys / 0x1000, flags))
        && Allows(Translate(mem, root, PathOf(virt)), Above(old(mem), root, PathOf(virt)).table, flags)
      ensures ok && flags / 128 % 2 == 1 ==> HugeSet(old(mem), mem, root, PathOf(virt), Entry(phys / 0x20_0000 * N, flags))
    {
      hide Tree, SameMap, Writes, Frames, PathOf, SameElsewhere, LeafIs, HugeSet, HasTable;
      var p := PathOf(virt);
      var pd;
      pd, own' := ToDirectory(root, p, own);
      if pd.None? {
        return false, own';
      }
      ghost var mem1, own1 := mem, own';
      TreeSizes(mem, root, own', pd.value);
      if Huge(flags) {
        ok := SetHuge(root, pd.value, p, Entry(phys / 0x20_0000 * N, flags), own');
        WritesOn(old(mem), mem1, mem, own, own1, own1, p);
        if ok { HugeOn(old(mem), mem1, mem, root, p, Entry(phys / 0x20_0000 * N, flags)); }
      } else {
        ok, own' := SetPage(root, pd.value, p, Entry(phys / 0x1000, flags), own1);
        WritesOn(old(mem), mem1, mem, own, own1, own', p);
        if ok {
          ElseOn(old(mem), mem1, mem, root, p);
          NewRights(old(mem), mem, root, p, Entry(phys / 0x1000, flags));
        } else {
          SameOn(old(mem), mem1, mem, root);
        }
      }
    }

    /** The third-level entry becomes huge; an entry that leads to a table is left alone. */
    method SetHuge(root: nat, pd: nat, p: Path, e: Entry, ghost own: Owners) returns (ok: bool)
      requires Space(root, own) && Valid(p) && Has(own, pd, L2(p.i, p.j)) && Huge(e.flags) && e.frame % N == 0
      modifies this`mem
      ensures Space(root, own) && Writes(old(mem), mem, own, own, p)
      ensures ok <==> !HasTable(own, p)
      ensures !ok ==> mem == old(mem)
      ensures ok ==> HugeSet(old(mem), mem, root, p, e)
    {
      hide Tree, SameMap, Writes, Frames, HugeSet, HasTable;
      TableThere(mem, root, own, pd, p);
      TreeSizes(mem, root, own, pd);
      NoWrites(mem, root, own, p);
      var was := mem[pd][p.k];
      if Present(was.flags) && !Huge(was.flags) {
        return false;
      }
      EditHuge(mem, root, own, pd, p, e);
      PutWrites(mem, own, pd, p.k, e, p);
      HugeIs(mem, Put(mem, pd, p.k, e), root, p, e);
      mem := Put(mem, pd, p.k, e);
      ok := true;
    }

    method SetPage(root: nat, pd: nat, p: Path, e: Entry, ghost own: Owners) returns (ok: bool, ghost own': Owners)
      requires Space(root, own) && Valid(p) && Has(own, pd, L2(p.i, p.j))
      modifies this`mem, pmm`bits, pmm`cursor
      ensures Space(root, own') && Writes(old(mem), mem, own, own', p)
      ensures Outs() == old(Outs()) + (own'.Keys - own.Keys) && (own'.Keys - own.Keys) !! old(Outs())
      ensures !ok ==> SameMap(old(mem), mem, root) && forall h: nat :: Managed(h) ==> h in Outs()
      ensures ok ==> SameElsewhere(old(mem), mem, root, p) && LeafIs(Translate(mem, root, p), e)
    {
      hide Tree, SameMap, Writes, Frames, SameElsewhere, LeafIs;
      var pt;
      pt, own' := ToTable(root, pd, p, own);
      ok := pt.Some?;
      if ok {
        ghost var mem1 := mem;
        TreeSizes(mem, root, own', pt.value);
        EditPage(mem, root, own', pt.value, p, e);
        PutWrites(mem, own', pt.value, p.l, e, p);
        mem := Put(mem, pt.value, p.l, e);
        WritesOn(old(mem), mem1, mem, own, own', own', p);
        ElseOn(old(mem), mem1, mem, root, p);
      }
    }

    // ---- freeing ----

    /** A whole address space: tables, private pages, all of them out. */
    ghost predicate Process(root: nat, own: Owners, pages: Pages)
      reads this, pmm
    {
      && Space(root, own) && PagesAre(mem, root, own, pages, First(), First() + Count()) && Small(mem, root)
      && forall f :: f in pages ==> f in Outs()
    }

    ghost function First(): nat
      reads pmm`ready, pmm`base, pmm`total
    {
      pmm.base / Pmm.PAGE
    }

    ghost function Count(): nat
      reads pmm`ready, pmm`base, pmm`total
    {
      if pmm.ready then pmm.total else 0
    }

    /** What is needed to free below a table while `gone` has already been freed. */
    ghost predicate Freeing(root: nat, own: Owners, pages: Pages, out: set<nat>, gone: set<nat>)
      reads this, pmm
    {
      && Ready() && Tree(mem, root, own) && PagesAre(mem, root, own, pages, First(), First() + Count())
      && (forall f :: f in own && Managed(f) ==> f in out) && (forall f :: f in pages ==> f in out)
      && Outs() == out - gone
    }

    /** A frame of the space given back; its bit is set, so it is given back once. */
    method FreeOnce(f: nat, ghost root: nat, ghost own: Owners, ghost pages: Pages, ghost out: set<nat>,
                    ghost gone: set<nat>)
      requires Freeing(root, own, pages, out, gone) && (Managed(f) ==> f in Outs())
      modifies pmm`bits
      ensures Freeing(root, own, pages, out, gone + {f})
      ensures !Managed(f) ==> Freeing(root, own, pages, out, gone)
    {
      hide Tree, PagesAre, Frames;
      OutsManaged(f);
      FreeFrame(f);
      assert Outs() == out - (gone + {f});
    }

    lemma OutsManaged(f: nat)
      requires pmm.Valid()
      ensures f in Outs() ==> Managed(f)
    {
      FramesHas(pmm.base, pmm.Out());
    }

    /** The pages of one page table. */
    method FreeLeaves(pt: nat, i: nat, j: nat, k: nat, ghost root: nat, ghost own: Owners, ghost pages: Pages,
                      ghost out: set<nat>, ghost gone: set<nat>)
      requires Freeing(root, own, pages, out, gone) && Has(own, pt, L1(i, j, k)) && Private(i, j)
      requires PagesIn(pages, i, j, k, N) !! gone
      modifies pmm`bits
      ensures Freeing(root, own, pages, out, gone + PagesIn(pages, i, j, k, N))
    {
      hide Tree, PagesAre, Frames, Outs, PagesIn;
      TreeSizes(mem, root, own, pt);
      Nothing(own, pages, i, j, k);
      var l := 0;
      while l < N
        invariant 0 <= l <= N && Freeing(root, own, pages, out, gone + PagesIn(pages, i, j, k, l))
      {
        PagesInNext(mem, root, own, pages, First(), First() + Count(), pt, i, j, k, l);
        var e := mem[pt][l];
        if Present(e.flags) {
          FreeOnce(e.frame, root, own, pages, out, gone + PagesIn(pages, i, j, k, l));
          assert gone + PagesIn(pages, i, j, k, l) + {e.frame} == gone + (PagesIn(pages, i, j, k, l) + {e.frame});
        }
        l := l + 1;
      }
    }

    /** One page table with its pages. */
    method FreeTable(pt: nat, i: nat, j: nat, k: nat, ghost root: nat, ghost own: Owners, ghost pages: Pages,
                     ghost out: set<nat>, ghost gone: set<nat>)
      requires Freeing(root, own, pages, out, gone) && Has(own, pt, L1(i, j, k)) && Private(i, j)
      requires PagesIn(pages, i, j, k, N) !! gone && pt !in gone
      modifies pmm`bits
      ensures Freeing(root, own, pages, out, gone + PagesIn(pages, i, j, k, N) + {pt})
    {
      FreeLeaves(pt, i, j, k, root, own, pages, out, gone);
      PagesNoTables(mem, root, own, pages, First(), First() + Count());
      hide Tree, PagesAre, Frames, Outs;
      FreeOnce(pt, root, own, pages, out, gone + PagesIn(pages, i, j, k, N));
    }

    /** Everything below a page directory. */
    method FreeBelow(pd: nat, i: nat, j: nat, ghost root: nat, ghost own: Owners, ghost pages: Pages,
                     ghost out: set<nat>, ghost gone: set<nat>)
      requires Freeing(root, own, pages, out, gone) && Has(own, pd, L2(i, j)) && Private(i, j)
      requires TablesIn(own, pages, i, j, N) !! gone
      modifies pmm`bits
      ensures Freeing(root, own, pages, out, gone + TablesIn(own, pages, i, j, N))
    {
      hide Tree, PagesAre, Frames, Outs, PagesIn, TablesIn;
      TreeSizes(mem, root, own, pd);
      Nothing(own, pages, i, j, 0);
      var k := 0;
      while k < N
        invariant 0 <= k <= N && Freeing(root, own, pages, out, gone + TablesIn(own, pages, i, j, k))
      {
        TablesInNext(mem, root, own, pages, First(), First() + Count(), pd, i, j, k);
        var e := mem[pd][k];
        if Present(e.flags) && !Huge(e.flags) {
          ghost var past := TablesIn(own, pages, i, j, k);
          FreeTable(e.frame, i, j, k, root, own, pages, out, gone + past);
          Assoc(gone, past, PagesIn(pages, i, j, k, N), {e.frame});
        }
        k := k + 1;
      }
    }

    /** The private directories below a pdpt; slots [0][0] and [0][3] are passed over. */
    method FreeDirs(t: nat, i: nat, ghost root: nat, ghost own: Owners, ghost pages: Pages, ghost out: set<nat>,
                    ghost gone: set<nat>)
      requires Freeing(root, own, pages, out, gone) && Has(own, t, L3(i)) && i < 256 && DirsIn(own, pages, i, N) !! gone
      modifies pmm`bits
      ensures Freeing(root, own, pages, out, gone + DirsIn(own, pages, i, N))
    {
      hide Tree, PagesAre, Frames, Outs, TablesIn, DirsIn;
      TreeSizes(mem, root, own, t);
      Nothing(own, pages, i, 0, 0);
      var j := 0;
      while j < N
        invariant 0 <= j <= N && Freeing(root, own, pages, out, gone + DirsIn(own, pages, i, j))
      {
        DirsInNext(mem, root, own, pages, First(), First() + Count(), t, i, j);
        if !(i == 0 && (j == 0 || j == 3)) {
          var e := mem[t][j];
          if Present(e.flags) {
            ghost var past := DirsIn(own, pages, i, j);
            FreeBelow(e.frame, i, j, root, own, pages, out, gone + past);
            FreeOnce(e.frame, root, own, pages, out, gone + past + TablesIn(own, pages, i, j, N));
            Assoc(gone, past, TablesIn(own, pages, i, j, N), {e.frame});
          }
        }
        j := j + 1;
      }
    }

    /** Gives back exactly the private tables and pages of the space, each once: every frame handed to
        the allocator is out at that moment. Shared tables and all other frames stay as they are. */
    method FreeSpace(root: nat, ghost own: Owners, ghost pages: Pages)
      requires root != 0 && root != KERNEL_ROOT ==> Process(root, own, pages)
      modifies pmm`bits
      ensures root == 0 || root == 1 ==> pmm.bits == old(pmm.bits)
      ensures root != 0 && root != 1 ==> Ready() && Outs() == old(Outs()) - AllPrivate(own, pages)
    {
      if root == 0 || root == KERNEL_ROOT {
        return;
      }
      hide Tree, PagesAre, Frames, DirsIn, SlotsIn, AllPrivate;
      ghost var out := Outs();
      SlotsInAll(mem, root, own, pages, First(), First() + Count());
      TreeRoot(mem, root, own);
      assert out - SlotsIn(own, pages, 0) == out;
      var i := 0;
      while i < 256
        invariant 0 <= i <= 256 && Freeing(root, own, pages, out, SlotsIn(own, pages, i))
      {
        SlotsInNext(mem, root, own, pages, First(), First() + Count(), i);
        var e := mem[root][i];
        if Present(e.flags) {
          ghost var past := SlotsIn(own, pages, i);
          FreeDirs(e.frame, i, root, own, pages, out, past);
          FreeOnce(e.frame, root, own, pages, out, past + DirsIn(own, pages, i, N));
        }
        i := i + 1;
      }
      FreeOnce(root, root, own, pages, out, SlotsIn(own, pages, 256));
    }

    // ---- mapping in a process ----

    /** Maps a frame of the allocator that no table and no page of the space uses; the space owns it
        from then on, and no longer a frame that was mapped there. */
    method MapOwned(root: nat, f: nat, virt: nat, flags: Flags, ghost own: Owners, ghost pages: Pages)
        returns (ok: bool, ghost own': Owners, ghost pages': Pages)
      requires Process(root, own, pages) && Present(flags) && !Huge(flags) && PrivatePath(PathOf(virt))
      requires Managed(f) && f in Outs() && f !in own && f !in pages
      modifies this`mem, pmm`bits, pmm`cursor
      ensures Process(root, own', pages') && Writes(old(mem), mem, own, own', PathOf(virt))
      ensures Outs() == old(Outs()) + (own'.Keys - own.Keys) && (own'.Keys - own.Keys) !! old(Outs())
      ensures !ok ==> SameMap(old(mem), mem, root) && pages' == pages && AllOut()
      ensures ok ==>
        && SameElsewhere(old(mem), mem, root, PathOf(virt))
        && LeafIs(Translate(mem, root, PathOf(virt)), Entry(f, flags))
        && pages' == Reassign(pages, PathOf(virt), f)
    {
      hide Tree, PagesAre, Frames, Outs, SameMap, SameElsewhere, LeafIs, Writes, Small, PathOf;
      pages' := pages;
      PagesNoTables(mem, root, own, pages, First(), First() + Count());
      ok, own' := MapPage(root, f * 0x1000, virt, flags, own);
      if ok {
        MapKeepsPages(old(mem), mem, root, own, own', pages, First(), First() + Count(), PathOf(virt), Entry(f, flags));
        pages' := Reassign(pages, PathOf(virt), f);
      } else {
        SameKeepsPages(old(mem), mem, root, own, own', pages, First(), First() + Count());
      }
    }

    /** A frame that is displaced from its page belongs to nobody, and freeing the space does not hand it back. */
    method Displaced(root: nat, g: nat, f: nat, flags: Flags, virt: nat, ghost own: Owners, ghost pages: Pages)
        returns (ok: bool)
      requires root != 0 && root != KERNEL_ROOT && Process(root, own, pages) && Present(flags) && !Huge(flags)
      requires PrivatePath(PathOf(virt))
      requires g in pages && pages[g] == PathOf(virt) && Managed(f) && f in Outs() && f !in own && f !in pages
      modifies this`mem, pmm`bits, pmm`cursor
      ensures Ready() && (ok ==> g in Outs() && f !in Outs())
    {
      hide Tree, Frames, Outs, SameMap, SameElsewhere, LeafIs, Writes, Small, PathOf, AllOut, PagesAre, Translate;
      PagesNoTables(mem, root, own, pages, First(), First() + Count());
      ghost var own', pages';
      ok, own', pages' := MapOwned(root, f, virt, flags, own, pages);
      FreeSpace(root, own', pages');
    }

    /** Maps a device frame. */
    method MapDevice(root: nat, f: nat, virt: nat, flags: Flags, ghost own: Owners, ghost pages: Pages)
        returns (ok: bool, ghost own': Owners, ghost pages': Pages)
      requires Process(root, own, pages) && !Huge(flags) && !Managed(f)
      modifies this`mem, pmm`bits, pmm`cursor
      ensures Process(root, own', pages') && Writes(old(mem), mem, own, own', PathOf(virt))
      ensures Outs() == old(Outs()) + (own'.Keys - own.Keys) && (own'.Keys - own.Keys) !! old(Outs())
      ensures !ok ==> SameMap(old(mem), mem, root) && pages' == pages && AllOut()
      ensures ok ==>
        && SameElsewhere(old(mem), mem, root, PathOf(virt))
        && LeafIs(Translate(mem, root, PathOf(virt)), Entry(f, flags))
        && pages' == Vacate(pages, PathOf(virt))
    {
      hide Tree, PagesAre, Frames, Outs, SameMap, SameElsewhere, LeafIs, Writes, Small, PathOf;
      pages' := pages;
      PagesNoTables(mem, root, own, pages, First(), First() + Count());
      ok, own' := MapPage(root, f * 0x1000, virt, flags, own);
      if ok {
        DeviceKeepsPages(old(mem), mem, root, own, own', pages, First(), First() + Count(), PathOf(virt),
                         Entry(f, flags));
        pages' := Vacate(pages, PathOf(virt));
      } else {
        SameKeepsPages(old(mem), mem, root, own, own', pages, First(), First() + Count());
      }
    }

    /** Clears the entry that maps the page: its own, or the huge one of its region. It fails exactly
        when a table on the way is missing, and then the page was not mapped. */
    method Unmap(root: nat, virt: nat, ghost own: Owners) returns (ok: bool)
      requires Space(root, own)
      modifies this`mem
      ensures Space(root, own) && Writes(old(mem), mem, own, own, PathOf(virt))
      ensures Translate(mem, root, PathOf(virt)).None?
      ensures !ok ==> mem == old(mem)
      ensures ok ==>
        if HugeAt(old(mem), root, PathOf(virt)) then HugeSet(old(mem), mem, root, PathOf(virt), NOTHING)
        else SameElsewhere(old(mem), mem, root, PathOf(virt))
    {
      hide Tree, Frames, Outs, SameElsewhere, Writes, PathOf, HugeSet;
      var p := PathOf(virt);
      NoWrites(mem, root, own, p);
      TreeRoot(mem, root, own);
      TreeLeads(mem, root, own, root, p.i);
      var e4 := mem[root][p.i];
      if !Present(e4.flags) {
        return false;
      }
      TreeLeads(mem, root, own, e4.frame, p.j);
      var e3 := mem[e4.frame][p.j];
      if !Present(e3.flags) {
        return false;
      }
      TreeLeads(mem, root, own, e3.frame, p.k);
      var e2 := mem[e3.frame][p.k];
      if !Present(e2.flags) {
        return false;
      }
      if Huge(e2.flags) {
        ok := ClearHuge(root, e3.frame, p, own);
      } else {
        TreeSizes(mem, root, own, e2.frame);
        EditPage(mem, root, own, e2.frame, p, NOTHING);
        PutWrites(mem, own, e2.frame, p.l, NOTHING, p);
        mem := Put(mem, e2.frame, p.l, NOTHING);
        ok := true;
      }
    }

    method ClearHuge(root: nat, pd: nat, p: Path, ghost own: Owners) returns (ok: bool)
      requires Space(root, own) && Valid(p) && Has(own, pd, L2(p.i, p.j)) && Huge(At(mem, pd, p.k).flags)
      modifies this`mem
      ensures ok && Space(root, own) && Writes(old(mem), mem, own, own, p) && HugeSet(old(mem), mem, root, p, NOTHING)
      ensures Translate(mem, root, p).None?
    {
      hide Tree, Frames, Outs, Writes, HugeSet;
      TreeSizes(mem, root, own, pd);
      EditHuge(mem, root, own, pd, p, NOTHING);
      PutWrites(mem, own, pd, p.k, NOTHING, p);
      HugeIs(mem, Put(mem, pd, p.k, NOTHING), root, p, NOTHING);
      mem := Put(mem, pd, p.k, NOTHING);
      ok := true;
    }

    /** Unmapping a private page of a process; the frame is the caller's again. */
    method UnmapOwned(root: nat, virt: nat, ghost own: Owners, ghost pages: Pages)
        returns (ok: bool, ghost pages': Pages)
      requires Process(root, own, pages) && PrivatePath(PathOf(virt))
      modifies this`mem
      ensures Process(root, own, pages') && pages' == Vacate(pages, PathOf(virt))
      ensures Translate(mem, root, PathOf(virt)).None?
      ensures SameElsewhere(old(mem), mem, root, PathOf(virt)) && Writes(old(mem), mem, own, own, PathOf(virt))
    {
      hide Tree, PagesAre, Frames, Outs, SameElsewhere, Writes, PathOf, Vacate, Small;
      NoHugeAt(mem, root, PathOf(virt));
      PagesNoTables(mem, root, own, pages, First(), First() + Count());
      ok := Unmap(root, virt, own);
      if !ok { SameElse(mem, root, PathOf(virt)); }
      DeviceKeepsPages(old(mem), mem, root, own, own, pages, First(), First() + Count(), PathOf(virt), NOTHING);
      pages' := Vacate(pages, PathOf(virt));
      VacateLess(pages, PathOf(virt));
    }

    // ---- new address spaces ----

    /** The tables that are not the space's own are the common ones. */
    ghost predicate Shares(own: Owners) { forall f :: f in own && f !in Mine(own) ==> f in common }

    /** A space built from frames that were not out: it owns exactly the frames taken since, everything else in memory
        is
        as it was, and the upper half and the first GiB translate as the kernel's. */
    ghost predicate Built(root: nat, own: Owners, pages: Pages, mem0: seq<Table>, out0: set<nat>)
      reads this, pmm
    {
      && Process(root, own, pages) && Shares(own) && Mine(own) !! out0 && pages.Keys !! out0
      && (forall f :: f in Mine(own) ==> Managed(f))
      && Outs() == out0 + Mine(own) + pages.Keys && OldKept(mem0, mem, out0, First(), First() + Count())
      && KernelPart(mem0, KERNEL_ROOT, mem, root)
    }

    /** An address of a device: not the allocator's memory, and not in a shared slot. */
    ghost predicate Device(a: nat)
      reads pmm`ready, pmm`base, pmm`total
    {
      !Managed(a / 0x1000) && Unshared(PathOf(a))
    }

    /** Identity-maps a device region page by page, as far as frames last: its first `n` pages, and all of them unless
        no frame is left. Slot [0][3] gets tables only for pages in it, and for the first page if a frame is left. */
    method MapRegion(root: nat, r: Region, ghost own: Owners, ghost mem0: seq<Table>, ghost out0: set<nat>,
                     ghost want: map<Path, Mapping>)
        returns (ghost own': Owners, ghost n: nat)
      requires Built(root, own, map[], mem0, out0) && HasRole(own, L3(0)) && Maps(mem, root, want)
      requires forall a: nat :: r.base <= a < r.base + r.size ==> Device(a)
      modifies this`mem, pmm`bits, pmm`cursor
      ensures Built(root, own', map[], mem0, out0) && HasRole(own', L3(0)) && old(Outs()) <= Outs()
      ensures n <= PageCount(r.size) && Maps(mem, root, WithPages(want, r, n)) && (n < PageCount(r.size) ==> AllOut())
      ensures HasSlot3(mem, root) ==> HasSlot3(old(mem), root) || Touches(r)
      ensures HasSlot3(old(mem), root) || (r.size > 0 && InSlot3(r.base) && !old(AllOut())) ==> HasSlot3(mem, root)
    {
      hide Built, PathOf, Maps, HasRole, HasSlot3, Touches, Outs, Device, AllOut, PageCount, WithPages, RegionFlags;
      own', n := own, 0;
      var off := 0;
      assert pmm.Valid() by { BuiltValid(root, own, mem0, out0); }
      PagesNone(want, r);
      PagesLeft(r.size, 0);
      while off < r.size
        invariant Built(root, own', map[], mem0, out0) && HasRole(own', L3(0)) && pmm.Valid() && old(Outs()) <= Outs()
        invariant off == 0x1000 * n && n <= PageCount(r.size) && Maps(mem, root, WithPages(want, r, n))
        invariant HasSlot3(mem, root) ==> HasSlot3(old(mem), root) || Touches(r)
        invariant HasSlot3(old(mem), root) || (off > 0 && InSlot3(r.base) && !old(AllOut())) ==> HasSlot3(mem, root)
        invariant off == 0 ==> AllOut() == old(AllOut())
        invariant forall a: nat :: r.base <= a < r.base + r.size ==> Device(a)
        decreases r.size - off
      {
        var ok;
        TouchesAt(r, n);
        PagesLeft(r.size, n);
        ok, own' := MapBuilt(root, r.base + off, RegionFlags(r), own', mem0, out0, WithPages(want, r, n));
        if !ok {
          return;
        }
        PagesNext(want, r, n);
        off, n := off + 0x1000, n + 1;
      }
      PagesLeft(r.size, n);
    }

    lemma BuiltValid(root: nat, own: Owners, mem0: seq<Table>, out0: set<nat>)
      requires Built(root, own, map[], mem0, out0)
      ensures pmm.Valid()
    {
    }

    method MapBuilt(root: nat, addr: nat, flags: Flags, ghost own: Owners, ghost mem0: seq<Table>,
                    ghost out0: set<nat>, ghost want: map<Path, Mapping>) returns (ok: bool, ghost own': Owners)
      requires Built(root, own, map[], mem0, out0) && Present(flags) && !Huge(flags) && Device(addr)
      requires HasRole(own, L3(0)) && Maps(mem, root, want)
      modifies this`mem, pmm`bits, pmm`cursor
      ensures Built(root, own', map[], mem0, out0) && HasRole(own', L3(0)) && pmm.Valid() && old(Outs()) <= Outs()
      ensures ok ==>
        Maps(mem, root, want[PathOf(addr) := Mapping(addr / 0x1000, flags, Writable(flags), User(flags))])
      ensures !ok ==> Maps(mem, root, want) && AllOut()
      ensures HasSlot3(mem, root) ==> HasSlot3(old(mem), root) || InSlot3(addr)
      ensures HasSlot3(old(mem), root) || (InSlot3(addr) && !old(AllOut())) ==> HasSlot3(mem, root)
    {
      hide Tree, PagesAre, Frames, SameMap, SameElsewhere, LeafIs, Writes, Small, PathOf, Mine, OldKept, KernelPart,
        HasSlot3, HasRole, Maps, Opens;
      ghost var pages', mem1 := map[], mem;
      ok, own', pages' := MapDevice(root, addr / 0x1000, addr, flags, own, map[]);
      assert Vacate(map[], PathOf(addr)) == map[];
      MineGrows(mem1, mem, own, own', PathOf(addr));
      assert forall f :: f in own'.Keys - own.Keys ==> Managed(f) by { NewManaged(own, own', old(Outs())); }
      OldKeptOn(mem0, mem1, mem, out0, First(), First() + Count(), Mine(own'));
      KernelOpens(mem0, KERNEL_ROOT, mem1, root);
      KernelKept(mem0, KERNEL_ROOT, mem1, mem, root, PathOf(addr));
      Slot3Grows(mem1, mem, root, own, own', PathOf(addr));
      if ok {
        LeafSome(Translate(mem, root, PathOf(addr)), Entry(addr / 0x1000, flags));
        MapsNext(mem1, mem, root, want, PathOf(addr), Entry(addr / 0x1000, flags));
      } else {
        MapsSame(mem1, mem, root, want);
      }
    }

    /** Frames taken from the allocator are its own. */
    lemma NewManaged(own: Owners, own': Owners, out: set<nat>)
      requires pmm.Valid() && Outs() == out + (own'.Keys - own.Keys)
      ensures forall f :: f in own'.Keys - own.Keys ==> Managed(f)
    {
      forall f | f in own'.Keys - own.Keys ensures Managed(f) { OutsManaged(f); }
    }

    /** The two first tables of a new space; both frames go back when the second is missing. */
    method NewTop(ghost ownK: Owners) returns (root: Option<nat>, ghost own: Owners)
      requires Space(KERNEL_ROOT, ownK) && Shares(ownK) && Present(At(mem, KERNEL_ROOT, 0).flags)
      modifies this`mem, pmm`bits, pmm`cursor
      ensures root.None? ==>
        Ready() && Outs() == old(Outs()) && OldKept(old(mem), mem, old(Outs()), First(), First() + Count())
      ensures root.None? <==> |old(Left())| < 2
      ensures root.Some? ==>
        && Built(root.value, own, map[], old(mem), old(Outs())) && HasRole(own, L3(0)) && !HasSlot3(mem, root.value)
        && Maps(mem, root.value, map[])
        && |Left()| == |old(Left())| - 2
    {
      hide Tree, PagesAre, Frames, Outs, Small, Mine, SharedOf, OldKept, Built, HasRole, HasSlot3, Left, Maps, Opens;
      own := map[];
      TreeRoot(mem, KERNEL_ROOT, ownK);
      KernelFirst(mem, KERNEL_ROOT, ownK);
      var t;
      root, t := TwoFrames(mem[KERNEL_ROOT]);
      if root.Some? {
        own := FillTop(root.value, t, ownK, old(mem), old(Outs()));
      }
    }

    /** A frame with the kernel's half of the top table, and a blank one. */
    method TwoFrames(kernel: Table) returns (root: Option<nat>, t: nat)
      requires Ready() && |kernel| == N
      modifies this`mem, pmm`bits, pmm`cursor
      ensures Ready() && |mem| == |old(mem)| && OldKept(old(mem), mem, old(Outs()), First(), First() + Count())
      ensures root.None? ==> Outs() == old(Outs())
      ensures (root.None? <==> |old(Left())| < 2) && (root.Some? ==> |Left()| == |old(Left())| - 2)
      ensures root.Some? ==>
        && root.value < |mem| && t < |mem| && root.value != t && Managed(root.value) && Managed(t)
        && root.value !in old(Outs()) && t !in old(Outs()) && Outs() == old(Outs()) + {root.value, t}
        && (forall x :: 0 <= x < N ==> mem[root.value][x] == if x < 256 then NOTHING else kernel[x]) && mem[t] == BLANK
        && forall f :: 0 <= f < |mem| && f != root.value && f != t ==> mem[f] == old(mem)[f]
    {
      hide Frames, Outs, Left, OldKept;
      t := 0;
      SameKept(mem, Outs(), First(), First() + Count());
      root := AllocCounted();
      if root.None? {
        return;
      }
      var top := UpperHalf(kernel);
      mem := mem[root.value := top];
      OldKeptOn(old(mem), old(mem), mem, old(Outs()), First(), First() + Count(), {root.value});
      ghost var mem1 := mem;
      var s := AllocCounted();
      if s.None? {
        FreeFrame(root.value);
        assert old(Outs()) + {root.value} - {root.value} == old(Outs());
        return None, 0;
      }
      t := s.value;
      assert old(Outs()) + {root.value} + {t} == old(Outs()) + {root.value, t};
      OldKeptOn(old(mem), mem1, mem, old(Outs()), First(), First() + Count(), {t});
    }

    method AllocCounted() returns (f: Option<nat>)
      requires Ready()
      modifies this`mem, pmm`bits, pmm`cursor
      ensures Ready() && |mem| == |old(mem)|
      ensures f.None? ==> mem == old(mem) && Outs() == old(Outs()) && |old(Left())| == 0
      ensures f.Some? ==>
        && f.value < |mem| && Managed(f.value) && f.value !in old(Outs())
        && mem == old(mem)[f.value := BLANK] && Outs() == old(Outs()) + {f.value} && |Left()| == |old(Left())| - 1
    {
      hide Frames, Outs, LeftOf;
      f := AllocFrame();
      if f.None? {
        NoneLeft();
      } else {
        LeftTaken(First(), First() + Count(), old(Outs()), f.value);
      }
    }

    /** Entry 0 leads to the second table, and that to the kernel's first GiB. */
    method FillTop(root: nat, t: nat, ghost ownK: Owners, ghost mem0: seq<Table>, ghost out0: set<nat>)
        returns (ghost own: Owners)
      requires Ready() && Tree(mem0, KERNEL_ROOT, ownK) && Shares(ownK) && Present(At(mem0, KERNEL_ROOT, 0).flags)
      requires |mem| == |mem0| && root < |mem| && t < |mem| && root != t && Managed(root) && Managed(t)
      requires root !in out0 && t !in out0
      requires (forall f :: f in ownK && Managed(f) ==> f in out0) && Outs() == out0 + {root, t}
      requires KERNEL_ROOT < |mem0| && |mem0[KERNEL_ROOT]| == N && mem0[KERNEL_ROOT][0].frame in ownK
      requires KERNEL_ROOT in ownK
      requires mem0[KERNEL_ROOT][0].frame < |mem0| && |mem0[mem0[KERNEL_ROOT][0].frame]| == N
      requires (forall x :: 0 <= x < N ==> mem[root][x] == if x < 256 then NOTHING
                else mem0[KERNEL_ROOT][x]) && mem[t] == BLANK
      requires forall f :: 0 <= f < |mem| && f != root && f != t ==> mem[f] == mem0[f]
      modifies this`mem
      ensures Built(root, own, map[], mem0, out0) && HasRole(own, L3(0)) && !HasSlot3(mem, root) && Maps(mem, root, map[])
    {
      hide Tree, PagesAre, Frames, Outs, Small, Mine, SharedOf, NewRoot, NewSlot, IsNew, KernelPart, Maps, Opens;
      mem := mem[root := mem[root][0 := Entry(t, PWU)]];
      mem := mem[t := mem[t][0 := mem[mem[KERNEL_ROOT][0].frame][0]]];
      own := SharedOf(ownK)[root := Root][t := L3(0)];
      TopIsNew(mem0, mem, ownK, root, t);
      NewSpace(mem0, KERNEL_ROOT, ownK, mem, root, t);
      NewEmpty(mem0, KERNEL_ROOT, ownK, mem, root, t, First(), First() + Count());
      NewKernel(mem0, KERNEL_ROOT, ownK, mem, root, t);
      NewNothing(mem0, KERNEL_ROOT, ownK, mem, root, t);
      NewMine(ownK, root, t);
      SharedKept(ownK, root, t);
      assert Has(own, t, L3(0));
    }

    /** A new address space with the shared tables and the device regions, as far as frames last: of region `r` the first
        `counts[r]` pages, and no other page outside the shared slots. It fails exactly when
        fewer than two frames are left. Slot [0][3] gets tables only for devices in it; it gets them if frames
        last, and for a first region that starts in it if one more frame is left. */
    method CreateSpace(regions: seq<Region>, ghost ownK: Owners)
        returns (root: Option<nat>, ghost own: Owners, ghost counts: seq<nat>)
      requires Space(KERNEL_ROOT, ownK) && Shares(ownK) && Present(At(mem, KERNEL_ROOT, 0).flags) && AllDevices(regions)
      modifies this`mem, pmm`bits, pmm`cursor
      ensures root.None? ==>
        Ready() && Outs() == old(Outs()) && OldKept(old(mem), mem, old(Outs()), First(), First() + Count())
      ensures root.None? <==> |old(Left())| < 2
      ensures root.Some? ==>
        && Built(root.value, own, map[], old(mem), old(Outs()))
        && (HasSlot3(mem, root.value) ==> exists r :: 0 <= r < |regions| && Touches(regions[r]))
        && |counts| == |regions| && Counted(regions, counts) && Maps(mem, root.value, AllPages(regions, counts))
        && (!AllOut() ==>
            && Full(regions, counts)
            && (HasSlot3(mem, root.value) <==> exists r :: 0 <= r < |regions| && Touches(regions[r])))
        && (|regions| > 0 && regions[0].size > 0 && InSlot3(regions[0].base) && |old(Left())| >= 3 ==> HasSlot3(mem, root.value))
    {
      hide Tree, Built, OldKept, Outs, Device, HasRole, HasSlot3, Maps, Touches, Left, AllOut, AllPages, Counted, Full;
      ghost var mem0, out0 := mem, Outs();
      counts := [];
      root, own := NewTop(ownK);
      if root.None? {
        return;
      }
      assert pmm.Valid() by { BuiltValid(root.value, own, mem0, out0); }
      NoPages(regions);
      ghost var first := |regions| > 0 && regions[0].size > 0 && InSlot3(regions[0].base) && |old(Left())| >= 3;
      if |old(Left())| >= 3 { SomeLeft(); }
      for r := 0 to |regions|
        invariant Built(root.value, own, map[], mem0, out0) && AllDevices(regions) && HasRole(own, L3(0)) && pmm.Valid()
        invariant HasSlot3(mem, root.value) ==> exists q :: 0 <= q < r && Touches(regions[q])
        invariant |counts| == r && Counted(regions, counts) && Maps(mem, root.value, AllPages(regions, counts))
        invariant !AllOut() ==> Full(regions, counts)
        invariant first && r == 0 ==> !AllOut()
        invariant first && r > 0 ==> HasSlot3(mem, root.value)
      {
        DevicesOne(regions, r);
        ghost var outs, all, n := Outs(), AllOut(), 0;
        if all { OutsAll(); }
        own, n := MapRegion(root.value, regions[r], own, mem0, out0, AllPages(regions, counts));
        assert pmm.Valid() by { BuiltValid(root.value, own, mem0, out0); }
        if all { StillOut(outs); }
        MorePages(regions, counts, n);
        counts := counts + [n];
      }
      if !AllOut() { Slot3Covered(root.value, regions, counts); }
    }

    lemma NoneLeft()
      requires pmm.Valid() && forall h: nat :: Managed(h) ==> h in Outs()
      ensures |Left()| == 0
    {
      assert Left() == {};
    }

    lemma SomeLeft()
      requires pmm.Valid() && |Left()| > 0
      ensures !AllOut()
    {
      var h :| h in Left();
    }

    lemma DevicesOne(regions: seq<Region>, r: nat)
      requires AllDevices(regions) && r < |regions|
      ensures forall a: nat :: regions[r].base <= a < regions[r].base + regions[r].size ==> Device(a)
    {
    }

    lemma OutsAll()
      requires pmm.Valid() && AllOut()
      ensures forall h: nat :: Managed(h) ==> h in Outs()
    {
    }

    lemma StillOut(outs: set<nat>)
      requires pmm.Valid() && outs <= Outs() && forall h: nat :: Managed(h) ==> h in outs
      ensures AllOut()
    {
    }

    /** A mapped page in slot [0][3] needs tables there. */
    lemma Slot3Covered(root: nat, regions: seq<Region>, counts: seq<nat>)
      requires |counts| == |regions| && Counted(regions, counts) && Full(regions, counts)
      requires Maps(mem, root, AllPages(regions, counts)) && AllDevices(regions)
      ensures (exists r :: 0 <= r < |regions| && Touches(regions[r])) ==> HasSlot3(mem, root)
    {
      hide PathOf;
      if r :| 0 <= r < |regions| && Touches(regions[r]) {
        var k: nat :| 0x1000 * k < regions[r].size && InSlot3(regions[r].base + 0x1000 * k);
        PagesLeft(regions[r].size, k);
        InAll(regions, counts, r, k);
        assert Device(regions[r].base + 0x1000 * k);
        assert Translate(mem, root, PathOf(regions[r].base + 0x1000 * k)).Some?;
      }
    }

    /** A device page on which no later page was mapped leads to itself and may be written; programs may use it exactly
        if it is the framebuffer's. */
    lemma DeviceRights(root: nat, regions: seq<Region>, counts: seq<nat>, r: nat, k: nat)
      requires |counts| == |regions| && r < |regions| && k < counts[r] && Counted(regions, counts)
      requires AllDevices(regions) && Maps(mem, root, AllPages(regions, counts)) && NoneLater(regions, counts, r, k)
      ensures var a := regions[r].base + 0x1000 * k;
        Translate(mem, root, PathOf(a)) ==
        Some(if regions[r].user then Mapping(a / 0x1000, 7, true, true) else Mapping(a / 0x1000, 3, true, false))
    {
      hide PathOf, Translate, NoneLater, AllPages;
      PagesLeft(regions[r].size, k);
      LastPage(regions, counts, r, k);
      assert Device(regions[r].base + 0x1000 * k);
    }

    /** Frames that are left. */
    ghost function Left(): set<nat>
      requires pmm.Valid()
      reads pmm
    {
      LeftOf(First(), First() + Count(), Outs())
    }

    ghost predicate AllDevices(regions: seq<Region>)
      reads pmm`ready, pmm`base, pmm`total
    {
      forall r :: 0 <= r < |regions| ==> forall a: nat :: regions[r].base <= a < regions[r].base + regions[r].size ==> Device(a)
    }

    // ---- copying ----

    /** A parent that can be copied and a child built so far. */
    ghost predicate Copying(src: nat, ownS: Owners, dst: nat, own: Owners, pages: Pages, mem0: seq<Table>,
                            out0: set<nat>, at: Path)
      reads this, pmm
    {
      && Built(dst, own, pages, mem0, out0) && Done(mem0, src, mem, dst, pages, at)
      && Tree(mem0, src, ownS) && (forall f :: f in ownS && Managed(f) ==> f in out0)
      && Copyable(mem0, src, out0, First(), First() + Count())
    }

    /** A frame with a copy of another. */
    method CopyFrame(f: nat, ghost dst: nat, ghost own: Owners, ghost pages: Pages) returns (g: Option<nat>)
      requires Process(dst, own, pages) && (Managed(f) ==> f in Outs())
      modifies this`mem, pmm`bits, pmm`cursor
      ensures Process(dst, own, pages) && SameMap(old(mem), mem, dst)
      ensures g.None? ==> mem == old(mem) && Outs() == old(Outs())
      ensures g.Some? ==>
        && g.value < |mem| && Managed(g.value) && g.value !in old(Outs()) && Outs() == old(Outs()) + {g.value}
        && g.value !in own && g.value !in pages && mem == old(mem)[g.value := Load(old(mem), f)]
    {
      hide Tree, PagesAre, Frames, Outs, SameMap, Small;
      PagesNoTables(mem, dst, own, pages, First(), First() + Count());
      NoWrites(mem, dst, own, Path(0, 0, 0, 0));
      g := AllocFrame();
      if g.Some? {
        Twice(old(mem), g.value, BLANK, Load(old(mem), f));
        assert Load(mem, f) == Load(old(mem), f);
        mem := mem[g.value := Load(mem, f)];
        OutsidePut(old(mem), dst, own, g.value, Load(old(mem), f));
        SameKeepsPages(old(mem), mem, dst, own, own, pages, First(), First() + Count());
      }
    }

    /** The child as built so far, and one more frame taken. */
    ghost predicate BuiltPlus(root: nat, own: Owners, pages: Pages, mem0: seq<Table>, out0: set<nat>, g: nat)
      reads this, pmm
    {
      && Process(root, own, pages) && Shares(own) && Mine(own) !! out0 && pages.Keys !! out0
      && (forall f :: f in Mine(own) ==> Managed(f))
      && Outs() == out0 + Mine(own) + pages.Keys + {g} && OldKept(mem0, mem, out0, First(), First() + Count())
      && g < |mem| && Managed(g) && g !in out0 && g !in own && g !in pages && KernelPart(mem0, KERNEL_ROOT, mem, root)
    }

    /** Copies the page at `q`. When a frame is missing the child is left as built so far. */
    method CopyPage(e: Entry, q: Path, ghost src: nat, ghost ownS: Owners, dst: nat, ghost own: Owners,
                    ghost pages: Pages,
                    ghost mem0: seq<Table>, ghost out0: set<nat>)
                      returns (ok: bool, ghost own': Owners, ghost pages': Pages)
      requires Copying(src, ownS, dst, own, pages, mem0, out0, q) && PrivatePath(q)
      requires e == LeafEntry(mem0, src, q) && Present(e.flags)
      modifies this`mem, pmm`bits, pmm`cursor
      ensures Built(dst, own', pages', mem0, out0)
      ensures ok ==> Copying(src, ownS, dst, own', pages', mem0, out0, q.(l := q.l + 1))
    {
      hide Tree, PagesAre, Frames, Outs, SameMap, Small, Mine, Done, LeafEntry, Copyable, Load, OldKept, KernelPart, Translate,
        SameElsewhere, Above;
      own', pages' := own, pages;
      LeafIsOk(mem0, src, out0, First(), First() + Count(), q);
      LoadKept(mem0, mem, out0, First(), First() + Count(), e.frame);
      var g := CopyFrame(e.frame, dst, own, pages);
      if g.None? {
        return false, own, pages;
      }
      OldKeptOn(mem0, old(mem), mem, out0, First(), First() + Count(), {g.value});
      KernelKept(mem0, KERNEL_ROOT, old(mem), mem, dst, q);
      DoneKept(mem0, src, old(mem), mem, dst, pages, q);
      ok, own', pages' := PlaceCopy(g.value, e, q, src, dst, own, pages, mem0, out0);
    }

    /** Maps the copy, or gives its frame back. */
    method PlaceCopy(g: nat, e: Entry, q: Path, ghost src: nat, dst: nat, ghost own: Owners, ghost pages: Pages,
                     ghost mem0: seq<Table>, ghost out0: set<nat>)
                       returns (ok: bool, ghost own': Owners, ghost pages': Pages)
      requires BuiltPlus(dst, own, pages, mem0, out0, g) && Done(mem0, src, mem, dst, pages, q) && PrivatePath(q)
      requires e == LeafEntry(mem0, src, q) && Present(e.flags) && !Huge(e.flags) && mem[g] == Load(mem0, e.frame)
      modifies this`mem, pmm`bits, pmm`cursor
      ensures Built(dst, own', pages', mem0, out0)
      ensures ok ==> Done(mem0, src, mem, dst, pages', q.(l := q.l + 1))
    {
      hide Tree, PagesAre, Frames, Outs, SameMap, SameElsewhere, LeafIs, Writes, Small, Mine, Done, LeafEntry, Load,
        OldKept, PathOf, VirtOf,
        KernelPart, AllOut;
      PathOfVirt(q);
      ok, own', pages' := MapOwned(dst, g, VirtOf(q), e.flags, own, pages);
      KernelKept(mem0, KERNEL_ROOT, old(mem), mem, dst, q);
      NewManaged(own, own', old(Outs()));
      MineGrows(old(mem), mem, own, own', q);
      OldKeptOn(mem0, old(mem), mem, out0, First(), First() + Count(), Mine(own'));
      PagesNoTables(mem, dst, own', pages', First(), First() + Count());
      VacateNone(mem0, src, old(mem), dst, pages, q, g);
      if ok {
        Placed(mem0, src, old(mem), mem, dst, own, own', pages, q, g, e);
      } else {
        DropCopy(g, dst, own', pages, mem0, out0);
      }
    }

    method DropCopy(g: nat, ghost dst: nat, ghost own: Owners, ghost pages: Pages, ghost mem0: seq<Table>,
                    ghost out0: set<nat>)
      requires BuiltPlus(dst, own, pages, mem0, out0, g)
      modifies pmm`bits
      ensures Built(dst, own, pages, mem0, out0)
    {
      hide Tree, PagesAre, Frames, Outs, Small, Mine, OldKept, KernelPart;
      MineOwns(own);
      FreeFrame(g);
      assert out0 + Mine(own) + pages.Keys + {g} - {g} == out0 + Mine(own) + pages.Keys;
    }

    /** The parent's tables are still what they were. */
    lemma Source(src: nat, ownS: Owners, dst: nat, own: Owners, pages: Pages, mem0: seq<Table>, out0: set<nat>,
                 at: Path, f: nat)
      requires Copying(src, ownS, dst, own, pages, mem0, out0, at) && f in ownS
      ensures f < |mem| == |mem0| && mem[f] == mem0[f] && |mem[f]| == N && Tree(mem0, src, ownS)
    {
      TreeSizes(mem0, src, ownS, f);
    }

    /** Copies the pages of one page table of the parent. */
    method CopyTable(pt: nat, i: nat, j: nat, k: nat, ghost src: nat, ghost ownS: Owners, dst: nat, ghost own: Owners,
                     ghost pages: Pages,
                     ghost mem0: seq<Table>, ghost out0: set<nat>)
                       returns (ok: bool, ghost own': Owners, ghost pages': Pages)
      requires Has(ownS, pt, L1(i, j, k)) && Private(i, j)
      requires Copying(src, ownS, dst, own, pages, mem0, out0, Path(i, j, k, 0))
      modifies this`mem, pmm`bits, pmm`cursor
      ensures Built(dst, own', pages', mem0, out0)
      ensures ok ==> Copying(src, ownS, dst, own', pages', mem0, out0, Path(i, j, k, N))
    {
      hide Tree, Built, Done, Copyable, LeafEntry, Outs, Frames;
      own', pages' := own, pages;
      var l := 0;
      while l < N
        invariant 0 <= l <= N && Copying(src, ownS, dst, own', pages', mem0, out0, Path(i, j, k, l))
      {
        Source(src, ownS, dst, own', pages', mem0, out0, Path(i, j, k, l), pt);
        LeafAt(mem0, src, ownS, pt, i, j, k, l);
        var e := mem[pt][l];
        if Present(e.flags) {
          ok, own', pages' := CopyPage(e, Path(i, j, k, l), src, ownS, dst, own', pages', mem0, out0);
          if !ok {
            return;
          }
        } else {
          SkipEntry(mem0, src, ownS, pt, l, mem, dst, pages');
        }
        l := l + 1;
      }
      ok := true;
    }

    /** Copies what is below one page directory; huge entries are passed over. */
    method CopyDirectory(pd: nat, i: nat, j: nat, ghost src: nat, ghost ownS: Owners, dst: nat, ghost own: Owners,
                         ghost pages: Pages,
                         ghost mem0: seq<Table>, ghost out0: set<nat>)
                           returns (ok: bool, ghost own': Owners, ghost pages': Pages)
      requires Has(ownS, pd, L2(i, j)) && Private(i, j)
      requires Copying(src, ownS, dst, own, pages, mem0, out0, Path(i, j, 0, 0))
      modifies this`mem, pmm`bits, pmm`cursor
      ensures Built(dst, own', pages', mem0, out0)
      ensures ok ==> Copying(src, ownS, dst, own', pages', mem0, out0, Path(i, j, N, 0))
    {
      hide Tree, Built, Done, Copyable, Outs, Frames;
      own', pages' := own, pages;
      var k := 0;
      while k < N
        invariant 0 <= k <= N && Copying(src, ownS, dst, own', pages', mem0, out0, Path(i, j, k, 0))
      {
        Source(src, ownS, dst, own', pages', mem0, out0, Path(i, j, k, 0), pd);
        TreeLeads(mem0, src, ownS, pd, k);
        var e := mem[pd][k];
        if Present(e.flags) && !Huge(e.flags) {
          ok, own', pages' := CopyTable(e.frame, i, j, k, src, ownS, dst, own', pages', mem0, out0);
          if !ok {
            return;
          }
          Carry(mem0, src, mem, dst, pages', L2(i, j), k);
        } else {
          SkipEntry(mem0, src, ownS, pd, k, mem, dst, pages');
        }
        k := k + 1;
      }
      ok := true;
    }

    /** Copies what is below one slot of the top table, without slots [0][0] and [0][3]. */
    method CopySlot(t: nat, i: nat, ghost src: nat, ghost ownS: Owners, dst: nat, ghost own: Owners, ghost pages: Pages,
                    ghost mem0: seq<Table>, ghost out0: set<nat>)
                      returns (ok: bool, ghost own': Owners, ghost pages': Pages)
      requires Has(ownS, t, L3(i)) && i < 256 && Copying(src, ownS, dst, own, pages, mem0, out0, Path(i, 0, 0, 0))
      modifies this`mem, pmm`bits, pmm`cursor
      ensures Built(dst, own', pages', mem0, out0)
      ensures ok ==> Copying(src, ownS, dst, own', pages', mem0, out0, Path(i, N, 0, 0))
    {
      hide Tree, Built, Done, Copyable, Outs, Frames;
      own', pages' := own, pages;
      var j := 0;
      while j < N
        invariant 0 <= j <= N && Copying(src, ownS, dst, own', pages', mem0, out0, Path(i, j, 0, 0))
      {
        Source(src, ownS, dst, own', pages', mem0, out0, Path(i, j, 0, 0), t);
        TreeLeads(mem0, src, ownS, t, j);
        var e := mem[t][j];
        if i == 0 && (j == 0 || j == 3) {
          SkipSlot(mem0, src, mem, dst, pages', j);
        } else if Present(e.flags) {
          ok, own', pages' := CopyDirectory(e.frame, i, j, src, ownS, dst, own', pages', mem0, out0);
          if !ok {
            return;
          }
          Carry(mem0, src, mem, dst, pages', L3(i), j);
        } else {
          SkipEntry(mem0, src, ownS, t, j, mem, dst, pages');
        }
        j := j + 1;
      }
      ok := true;
    }

    method CopyAll(src: nat, ghost ownS: Owners, dst: nat, ghost own: Owners, ghost mem0: seq<Table>,
                   ghost out0: set<nat>)
        returns (ok: bool, ghost own': Owners, ghost pages': Pages)
      requires Has(ownS, src, Root) && Copying(src, ownS, dst, own, map[], mem0, out0, Path(0, 0, 0, 0))
      modifies this`mem, pmm`bits, pmm`cursor
      ensures Built(dst, own', pages', mem0, out0)
      ensures ok ==> Copying(src, ownS, dst, own', pages', mem0, out0, Path(256, 0, 0, 0))
    {
      hide Tree, Built, Done, Copyable, Outs, Frames;
      own', pages' := own, map[];
      var i := 0;
      while i < 256
        invariant 0 <= i <= 256 && Copying(src, ownS, dst, own', pages', mem0, out0, Path(i, 0, 0, 0))
      {
        Source(src, ownS, dst, own', pages', mem0, out0, Path(i, 0, 0, 0), src);
        TreeLeads(mem0, src, ownS, src, i);
        var e := mem[src][i];
        if Present(e.flags) {
          ok, own', pages' := CopySlot(e.frame, i, src, ownS, dst, own', pages', mem0, out0);
          if !ok {
            return;
          }
          Carry(mem0, src, mem, dst, pages', Root, i);
        } else {
          SkipEntry(mem0, src, ownS, src, i, mem, dst, pages');
        }
        i := i + 1;
      }
      ok := true;
    }

    /** Copies an address space. The child has every private 4 KiB page of the parent, with the same
        flags and contents, on a frame that was not out before. Everything that was in memory stays,
        so all translations of the parent stay. On failure the child `gone`, if there was one yet, is freed: all
        frames taken go back, except for the tables of its slot [0][3]. */
    method CopySpace(src: nat, regions: seq<Region>, ghost ownK: Owners, ghost ownS: Owners)
        returns (child: Option<nat>, ghost own: Owners, ghost pages: Pages, ghost gone: Option<nat>)
      requires Space(KERNEL_ROOT, ownK) && Shares(ownK) && Present(At(mem, KERNEL_ROOT, 0).flags) && AllDevices(regions)
      requires Space(src, ownS) && Copyable(mem, src, Outs(), First(), First() + Count())
      modifies this`mem, pmm`bits, pmm`cursor
      ensures Ready() && OldKept(old(mem), mem, old(Outs()), First(), First() + Count())
      ensures Tree(mem, src, ownS) && SameMap(old(mem), mem, src)
      ensures child.Some? ==>
        && Built(child.value, own, pages, old(mem), old(Outs()))
        && (forall p :: PrivatePath(p) ==> CopiedAt(old(mem), src, mem, child.value, pages, p))
        && forall f :: f in pages ==> FromParent(old(mem), src, pages[f])
      ensures child.None? ==>
        if gone.None? then |old(Left())| < 2 && Outs() == old(Outs())
          else gone.value !in old(Outs()) && Lost(old(Outs()), gone.value)
    {
      hide Tree, Done, Copyable, Outs, Frames, PagesAre, Small, SameMap, Mine, CopiedAt, FromParent, OldKept, Left, Lost,
        Slot3, HasSlot3, KernelPart;
      ghost var mem0, out0 := mem, Outs();
      TreeRoot(mem, src, ownS);
      KernelFirst(mem, KERNEL_ROOT, ownK);
      pages, gone := map[], None;
      ghost var counts;
      child, own, counts := CreateSpace(regions, ownK);
      if child.Some? {
        gone := child;
        assert gone.value !in out0 by { TreeRoot(mem, gone.value, own); RootMine(gone.value, own); }
        DoneNone(mem0, src, mem, child.value);
        child, own, pages := CopyInto(src, ownS, child.value, own, mem0, out0);
      }
      KeptOutside(mem0, mem, src, ownS, out0);
    }

    /** Of the frames taken since `out0` was out, the tables of slot [0][3] of the freed space are not back, and they
        alone:
        the allocator is as it was exactly when that slot has no directory. */
    ghost predicate Lost(out0: set<nat>, root: nat)
      requires pmm.Valid()
      reads this, pmm
    {
      && Outs() == out0 + Slot3(mem, root) && Slot3(mem, root) !! out0
      && (Outs() == out0 <==> !HasSlot3(mem, root))
    }

    /** Fills a new child, or discards it. */
    method CopyInto(src: nat, ghost ownS: Owners, dst: nat, ghost own: Owners, ghost mem0: seq<Table>,
                    ghost out0: set<nat>)
        returns (child: Option<nat>, ghost own': Owners, ghost pages': Pages)
      requires Has(ownS, src, Root) && Copying(src, ownS, dst, own, map[], mem0, out0, Path(0, 0, 0, 0))
      requires Managed(KERNEL_ROOT) ==> KERNEL_ROOT in out0
      modifies this`mem, pmm`bits, pmm`cursor
      ensures Ready() && OldKept(mem0, mem, out0, First(), First() + Count())
      ensures child.Some? ==>
        && Built(child.value, own', pages', mem0, out0)
        && (forall p :: PrivatePath(p) ==> CopiedAt(mem0, src, mem, child.value, pages', p))
        && forall f :: f in pages' ==> FromParent(mem0, src, pages'[f])
      ensures child.None? ==> Lost(out0, dst)
    {
      hide Tree, Done, Copyable, Outs, Frames, PagesAre, Small, Mine, CopiedAt, FromParent, OldKept, Lost, KernelPart;
      var ok;
      ok, own', pages' := CopyAll(src, ownS, dst, own, mem0, out0);
      if ok {
        DoneAll(mem0, src, mem, dst, pages');
        child := Some(dst);
      } else {
        FreeBuilt(dst, own', pages', mem0, out0);
        child := None;
      }
    }

    /** Frees a space that was built since `out0` was out. */
    method FreeBuilt(root: nat, ghost own: Owners, ghost pages: Pages, ghost mem0: seq<Table>, ghost out0: set<nat>)
      requires Built(root, own, pages, mem0, out0) && (Managed(KERNEL_ROOT) ==> KERNEL_ROOT in out0)
      modifies pmm`bits
      ensures Ready() && OldKept(mem0, mem, out0, First(), First() + Count()) && Lost(out0, root)
    {
      hide Tree, Outs, Frames, PagesAre, Small, Mine, Leaked, Slot3, HasSlot3, KernelPart;
      TreeRoot(mem, root, own);
      RootMine(root, own);
      PagesNoTables(mem, root, own, pages, First(), First() + Count());
      LeakedIs(own, pages, out0);
      LeakedAre(mem, root, own);
      FreeSpace(root, own, pages);
    }

    /** A space that is created and freed gives back all its frames exactly when its slot [0][3] has no directory. If
        frames last while it is created, that is when no device lies in the slot. */
    method CreateAndFree(regions: seq<Region>, ghost ownK: Owners) returns (root: Option<nat>, ghost lasted: bool)
      requires Space(KERNEL_ROOT, ownK) && Shares(ownK) && Present(At(mem, KERNEL_ROOT, 0).flags) && AllDevices(regions)
      modifies this`mem, pmm`bits, pmm`cursor
      ensures Ready() && (root.None? <==> |old(Left())| < 2) && (root.None? ==> Outs() == old(Outs()))
      ensures root.Some? ==> Lost(old(Outs()), root.value)
      ensures root.Some? && (forall r :: 0 <= r < |regions| ==> !Touches(regions[r])) ==> Outs() == old(Outs())
      ensures root.Some? && lasted ==>
        (Outs() == old(Outs()) <==> forall r :: 0 <= r < |regions| ==> !Touches(regions[r]))
      ensures |regions| > 0 && regions[0].size > 0 && InSlot3(regions[0].base) && |old(Left())| >= 3 ==>
        root.Some? && Outs() != old(Outs())
    {
      hide Tree, Outs, Frames, PagesAre, Small, Mine, Left, Slot3, HasSlot3, KernelPart, Touches, AllOut, Maps, Counted,
        Full, OldKept;
      assert Managed(KERNEL_ROOT) ==> KERNEL_ROOT in Outs() by { KernelFirst(mem, KERNEL_ROOT, ownK); }
      ghost var own, counts;
      root, own, counts := CreateSpace(regions, ownK);
      lasted := !AllOut();
      if root.Some? {
        FreeBuilt(root.value, own, map[], old(mem), old(Outs()));
      }
    }

    /** A framebuffer of one page at 3.9 GiB: with three frames left, creating and freeing a space loses some. */
    method FramebufferLost(ghost ownK: Owners)
      requires Space(KERNEL_ROOT, ownK) && Shares(ownK) && Present(At(mem, KERNEL_ROOT, 0).flags) && |Left()| >= 3
      requires !Managed(0xFD000)
      modifies this`mem, pmm`bits, pmm`cursor
      ensures pmm.Valid() && Outs() > old(Outs())
    {
      hide Outs, Frames, Left, Slot3, HasSlot3, Tree;
      assert PathOf(0xFD00_0000) == Path(0, 3, 488, 0);
      var fb := Region(0xFD00_0000, 0x1000, true);
      assert forall a: nat :: fb.base <= a < fb.base + fb.size ==> Device(a) by { FramebufferPage(); }
      var root, lasted := CreateAndFree([fb], ownK);
    }

    lemma FramebufferPage()
      ensures forall a: nat :: 0xFD00_0000 <= a < 0xFD00_1000 ==>
        a / 0x1000 == 0xFD000 && PathOf(a) == Path(0, 3, 488, 0)
    {
    }

    lemma KeptOutside(mem0: seq<Table>, mem1: seq<Table>, src: nat, ownS: Owners, out0: set<nat>)
      requires Tree(mem0, src, ownS) && (forall f :: f in ownS && Managed(f) ==> f in out0)
      requires OldKept(mem0, mem1, out0, First(), First() + Count())
      ensures Tree(mem1, src, ownS) && SameMap(mem0, mem1, src)
    {
      forall f | f in ownS ensures f < |mem0| && mem1[f] == mem0[f] { TreeSizes(mem0, src, ownS, f); }
      OutsideKeeps(mem0, mem1, src, ownS);
    }
  }

  /** A device region mapped into every address space: the framebuffer, which programs may use, then the others. */
  datatype Region = Region(base: nat, size: nat, user: bool)

  function RegionFlags(r: Region): (f: Flags)
    ensures Present(f) && !Huge(f)
  {
    if r.user then PWU else 3
  }

  /** Pages that a region takes. */
  function PageCount(size: nat): nat { (size + 0xFFF) / 0x1000 }

  lemma PagesLeft(size: nat, n: nat)
    ensures 0x1000 * n < size <==> n < PageCount(size)
  {
  }

  /** A device page leads to itself and may be written, by programs if it is the framebuffer's. */
  ghost function DevicePage(r: Region, a: nat): Mapping { Mapping(a / 0x1000, if r.user then 7 else 3, true, r.user) }

  /** With the first `n` pages of the region; a page that was there is replaced. */
  ghost function WithPages(want: map<Path, Mapping>, r: Region, n: nat): map<Path, Mapping> {
    if n == 0 then want
    else var a := r.base + 0x1000 * (n - 1); WithPages(want, r, n - 1)[PathOf(a) := DevicePage(r, a)]
  }

  lemma PagesNone(want: map<Path, Mapping>, r: Region)
    ensures WithPages(want, r, 0) == want
  {
  }

  lemma PagesNext(want: map<Path, Mapping>, r: Region, n: nat)
    ensures var a, f := r.base + 0x1000 * n, RegionFlags(r);
      WithPages(want, r, n + 1) == WithPages(want, r, n)[PathOf(a) := Mapping(a / 0x1000, f, Writable(f), User(f))]
  {
    hide PathOf;
  }

  /** After the first `counts[r]` pages of each region `r`, region by region. */
  ghost function AllPages(regions: seq<Region>, counts: seq<nat>): map<Path, Mapping>
    requires |counts| <= |regions|
  {
    if counts == [] then map[]
    else var r := |counts| - 1; WithPages(AllPages(regions, counts[..r]), regions[r], counts[r])
  }

  ghost predicate Counted(regions: seq<Region>, counts: seq<nat>) {
    |counts| <= |regions| && forall r :: 0 <= r < |counts| ==> counts[r] <= PageCount(regions[r].size)
  }

  ghost predicate Full(regions: seq<Region>, counts: seq<nat>) {
    |counts| <= |regions| && forall r :: 0 <= r < |counts| ==> counts[r] == PageCount(regions[r].size)
  }

  lemma NoPages(regions: seq<Region>)
    ensures AllPages(regions, []) == map[] && Counted(regions, []) && Full(regions, [])
  {
  }

  lemma MorePages(regions: seq<Region>, counts: seq<nat>, n: nat)
    requires |counts| < |regions| && Counted(regions, counts) && n <= PageCount(regions[|counts|].size)
    ensures AllPages(regions, counts + [n]) == WithPages(AllPages(regions, counts), regions[|counts|], n)
    ensures Counted(regions, counts + [n])
    ensures Full(regions, counts) && n == PageCount(regions[|counts|].size) ==> Full(regions, counts + [n])
  {
    hide WithPages, PageCount;
    MorePagesAre(regions, counts, n);
    hide AllPages;
  }

  lemma MorePagesAre(regions: seq<Region>, counts: seq<nat>, n: nat)
    requires |counts| < |regions|
    ensures AllPages(regions, counts + [n]) == WithPages(AllPages(regions, counts), regions[|counts|], n)
  {
    hide WithPages;
    assert (counts + [n])[..|counts|] == counts;
  }

  lemma {:induction false} InPages(want: map<Path, Mapping>, r: Region, n: nat, k: nat)
    requires k < n
    ensures PathOf(r.base + 0x1000 * k) in WithPages(want, r, n)
  {
    hide PathOf;
    if k < n - 1 { InPages(want, r, n - 1, k); }
  }

  lemma {:induction false} KeptPages(want: map<Path, Mapping>, r: Region, n: nat)
    ensures want.Keys <= WithPages(want, r, n).Keys
  {
    hide PathOf;
    if n > 0 { KeptPages(want, r, n - 1); }
  }

  lemma {:induction false} InAll(regions: seq<Region>, counts: seq<nat>, r: nat, k: nat)
    requires r < |counts| <= |regions| && k < counts[r]
    ensures PathOf(regions[r].base + 0x1000 * k) in AllPages(regions, counts)
    decreases |counts|
  {
    hide PathOf, WithPages;
    var n := |counts| - 1;
    if r < n {
      InAll(regions, counts[..n], r, k);
      KeptPages(AllPages(regions, counts[..n]), regions[n], counts[n]);
    } else {
      InPages(AllPages(regions, counts[..n]), regions[n], counts[n], k);
    }
  }

  function PageAt(r: Region, k: nat): nat { r.base + 0x1000 * k }

  /** No page that is mapped after page `k` of region `r` is at the same place. */
  ghost predicate NoneLater(regions: seq<Region>, counts: seq<nat>, r: nat, k: nat)
    requires r < |counts| <= |regions|
  {
    forall q, j: nat :: r <= q < |counts| && j < counts[q] && (q == r ==> k < j) ==>
      PathOf(PageAt(regions[q], j)) != PathOf(PageAt(regions[r], k))
  }

  lemma {:induction false} LastOfRegion(want: map<Path, Mapping>, r: Region, n: nat, p: Path, m: nat)
    requires m <= n && forall j: nat :: m <= j < n ==> PathOf(r.base + 0x1000 * j) != p
    ensures p in WithPages(want, r, n) <==> p in WithPages(want, r, m)
    ensures p in WithPages(want, r, n) ==> WithPages(want, r, n)[p] == WithPages(want, r, m)[p]
    decreases n
  {
    hide PathOf;
    if m < n { LastOfRegion(want, r, n - 1, p, m); }
  }

  lemma {:induction false} LastPage(regions: seq<Region>, counts: seq<nat>, r: nat, k: nat)
    requires r < |counts| <= |regions| && k < counts[r] && NoneLater(regions, counts, r, k)
    ensures var a := regions[r].base + 0x1000 * k;
      PathOf(a) in AllPages(regions, counts) && AllPages(regions, counts)[PathOf(a)] == DevicePage(regions[r], a)
    decreases |counts|
  {
    hide PathOf, DevicePage;
    var a, n := regions[r].base + 0x1000 * k, |counts| - 1;
    var before := AllPages(regions, counts[..n]);
    if r < n {
      LastPage(regions, counts[..n], r, k);
      forall j: nat | j < counts[n] ensures PathOf(regions[n].base + 0x1000 * j) != PathOf(a) {
        assert PathOf(PageAt(regions[n], j)) != PathOf(PageAt(regions[r], k));
      }
      LastOfRegion(before, regions[n], counts[n], PathOf(a), 0);
    } else {
      forall j: nat | k + 1 <= j < counts[n] ensures PathOf(regions[n].base + 0x1000 * j) != PathOf(a) {
        assert PathOf(PageAt(regions[n], j)) != PathOf(PageAt(regions[r], k));
      }
      LastOfRegion(before, regions[n], counts[n], PathOf(a), k + 1);
    }
  }

  predicate InSlot3(a: nat) { PathOf(a).i == 0 && PathOf(a).j == 3 }

  /** A page of the region lies in slot [0][3]. */
  ghost predicate Touches(r: Region) { exists k: nat :: 0x1000 * k < r.size && InSlot3(r.base + 0x1000 * k) }

  lemma TouchesAt(r: Region, k: nat)
    requires 0x1000 * k < r.size
    ensures InSlot3(r.base + 0x1000 * k) ==> Touches(r)
  {
  }

  /** Numbers from `lo` to `hi` that are not out. */
  ghost function LeftOf(lo: nat, hi: nat, out: set<nat>): set<nat> { set h: nat | lo <= h < hi && h !in out }

  lemma LeftTaken(lo: nat, hi: nat, out: set<nat>, f: nat)
    requires lo <= f < hi && f !in out
    ensures |LeftOf(lo, hi, out + {f})| == |LeftOf(lo, hi, out)| - 1
  {
    assert LeftOf(lo, hi, out) == LeftOf(lo, hi, out + {f}) + {f};
  }

  /** The kernel's half of a top table. */
  method UpperHalf(kernel: Table) returns (r: Table)
    requires |kernel| == N
    ensures |r| == N && forall x :: 0 <= x < N ==> r[x] == if x < 256 then NOTHING else kernel[x]
  {
    r := BLANK;
    var i := 256;
    while i < N
      invariant 256 <= i <= N && |r| == N
      invariant forall x :: 0 <= x < N ==> r[x] == if 256 <= x < i then kernel[x] else NOTHING
    {
      r := r[i := kernel[i]];
      i := i + 1;
    }
  }

  lemma KernelFirst(mem: seq<Table>, kroot: nat, own: Owners)
    requires Tree(mem, kroot, own) && Present(At(mem, kroot, 0).flags)
    ensures kroot < |mem| && |mem[kroot]| == N && mem[kroot][0].frame in own
    ensures mem[kroot][0].frame < |mem| && |mem[mem[kroot][0].frame]| == N && kroot in own
  {
    TreeLeads(mem, kroot, own, kroot, 0);
  }

  lemma TopIsNew(mem: seq<Table>, mem': seq<Table>, own: Owners, root: nat, t: nat)
    requires Tree(mem, KERNEL_ROOT, own) && Present(At(mem, KERNEL_ROOT, 0).flags) && KERNEL_ROOT < |mem|
    requires |mem[KERNEL_ROOT]| == N
    requires |mem'| == |mem| && root < |mem| && t < |mem| && root != t && root !in own && t !in own
    requires mem[KERNEL_ROOT][0].frame < |mem| && |mem[mem[KERNEL_ROOT][0].frame]| == N
    requires forall f :: 0 <= f < |mem| && f != root && f != t ==> mem'[f] == mem[f]
    requires |mem'[root]| == N && mem'[root][0] == Entry(t, PWU)
    requires forall x :: 1 <= x < N ==> mem'[root][x] == if x < 256 then NOTHING else mem[KERNEL_ROOT][x]
    requires mem'[t] == BLANK[0 := mem[mem[KERNEL_ROOT][0].frame][0]]
    ensures IsNew(mem, KERNEL_ROOT, own, mem', root, t)
  {
    assert mem'[root] == NewRoot(mem[KERNEL_ROOT], t);
    assert mem'[t] == NewSlot(At(mem, mem[KERNEL_ROOT][0].frame, 0));
  }

  // frame of the kernel's own top-level table
  const KERNEL_ROOT := 1

  lemma Assoc(a: set<nat>, b: set<nat>, c: set<nat>, d: set<nat>)
    ensures a + b + c + d == a + (b + c + d)
  {
  }

  /** The frames of pages numbered from `base`. */
  ghost function Frames(base: nat, pages: set<nat>): set<nat> { set i | i in pages :: base / Pmm.PAGE + i }

  lemma FramesHas(base: nat, pages: set<nat>)
    ensures forall f: nat :: f in Frames(base, pages) <==> f >= base / Pmm.PAGE && f - base / Pmm.PAGE in pages
  {
    forall f: nat ensures f in Frames(base, pages) <==> f >= base / Pmm.PAGE && f - base / Pmm.PAGE in pages {
      if f >= base / Pmm.PAGE && f - base / Pmm.PAGE in pages { assert f == base / Pmm.PAGE + (f - base / Pmm.PAGE); }
    }
  }

  lemma FramesAdd(base: nat, pages: set<nat>, i: nat)
    ensures Frames(base, pages + {i}) == Frames(base, pages) + {base / Pmm.PAGE + i}
    ensures i !in pages ==> base / Pmm.PAGE + i !in Frames(base, pages)
  {
    FramesHas(base, pages);
    FramesHas(base, pages + {i});
    hide Frames;
  }

  lemma FramesDrop(base: nat, pages: set<nat>, f: nat)
    ensures f >= base / Pmm.PAGE ==> Frames(base, pages - {f - base / Pmm.PAGE}) == Frames(base, pages) - {f}
    ensures f < base / Pmm.PAGE ==> Frames(base, pages) == Frames(base, pages) - {f}
  {
    FramesHas(base, pages);
    if f >= base / Pmm.PAGE { FramesHas(base, pages - {f - base / Pmm.PAGE}); }
    hide Frames;
  }

  lemma SplitLeads(e: Entry)
    ensures Present(SplitFlags(e)) && !Huge(SplitFlags(e))
  {
  }

  lemma Twice<T>(s: seq<T>, k: nat, v: T, w: T)
    requires k < |s|
    ensures s[k := v][k := w] == s[k := w]
  {
  }

  /** A table of the 512 pages of a huge entry. */
  method PagesOf(e: Entry) returns (t: Table)
    ensures t == SplitTable(e)
  {
    var i := 0;
    t := BLANK;
    while i < N
      invariant 0 <= i <= N && |t| == N && forall l :: 0 <= l < i ==> t[l] == Entry(e.frame - e.frame % N + l, e.flags)
    {
      t := t[i := Entry(e.frame - e.frame % N + i, e.flags)];
      i := i + 1;
    }
  }

  lemma PageFrame(base: nat, p: nat)
    requires base % Pmm.PAGE == 0 && p % Pmm.PAGE == 0 && base <= p
    ensures p / Pmm.PAGE == base / Pmm.PAGE + (p - base) / Pmm.PAGE
  {
  }

  lemma FramePage(base: nat, f: nat)
    requires base % Pmm.PAGE == 0
    ensures f * Pmm.PAGE >= base <==> f >= base / Pmm.PAGE
    ensures f >= base / Pmm.PAGE ==> (f * Pmm.PAGE - base) / Pmm.PAGE == f - base / Pmm.PAGE
  {
  }
}
