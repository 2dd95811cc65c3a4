/** Several address spaces at once: their own tables and pages stay apart. */
module PageSpaces {
  import opened Wrappers
  import opened PageTree
  import opened PageOwn
  import opened PageCopy
  import opened Paging

  /** Tables and private pages of a space. */
  datatype Holding = Holding(own: Owners, pages: Pages)

  /** Live spaces, by the frame of their top table. */
  type Spaces = map<nat, Holding>

  /** Frames that are a space's own. */
  ghost function FramesOf(h: Holding): set<nat> { Mine(h.own) + h.pages.Keys }

  /** All frames its page walks can end in or pass, except for device frames. */
  ghost function Reaches(h: Holding): set<nat> { h.own.Keys + h.pages.Keys }

  /** What one space holds by itself is used by no other, as a table or as a page. */
  ghost predicate Disjoint(spaces: Spaces) {
    forall r, s :: r in spaces && s in spaces && r != s ==> FramesOf(spaces[r]) !! Reaches(spaces[s])
  }

  /** A space in memory `mem`, with the frames `out` of the allocator's, numbered `lo` to `hi`, handed out. */
  ghost predicate Sound(mem: seq<Table>, out: set<nat>, lo: nat, hi: nat, common: set<nat>, h: Holding, root: nat) {
    && Tree(mem, root, h.own) && PagesAre(mem, root, h.own, h.pages, lo, hi) && Small(mem, root)
    && Opens(mem, root)
    && (forall f :: f in Reaches(h) && lo <= f < hi ==> f in out) && h.pages.Keys <= out
    && (forall f :: f in h.own && f !in Mine(h.own) ==> f in common) && forall f :: f in Mine(h.own) ==> lo <= f < hi
  }

  /** Each space is sound, the spaces are disjoint, and no one holds a common table. */
  ghost predicate AllSound(mem: seq<Table>, out: set<nat>, lo: nat, hi: nat, common: set<nat>, spaces: Spaces) {
    && Disjoint(spaces) && (forall r :: r in spaces ==> Sound(mem, out, lo, hi, common, spaces[r], r))
    && (forall r :: r in spaces ==> FramesOf(spaces[r]) !! common) && forall f :: f in common && lo <= f < hi ==>
      f in out
  }

  ghost predicate Apart(m: Memory, spaces: Spaces)
    reads m, m.pmm
  {
    m.Ready() && AllSound(m.mem, m.Outs(), m.First(), m.First() + m.Count(), m.common, spaces)
  }

  lemma SoundIs(m: Memory, h: Holding, root: nat)
    requires m.Ready()
    ensures Sound(m.mem, m.Outs(), m.First(), m.First() + m.Count(), m.common, h, root) <==>
            && m.Process(root, h.own, h.pages) && m.Shares(h.own) && Opens(m.mem, root)
            && forall f :: f in Mine(h.own) ==> m.Managed(f)
  {
    hide Tree, PagesAre, Small, Opens, Mine, Frames;
  }

  /** No two spaces have the same frame of the allocator at private pages. */
  lemma Isolated(m: Memory, spaces: Spaces, r: nat, s: nat, p: Path, q: Path)
    requires Apart(m, spaces) && r in spaces && s in spaces && r != s && PrivatePath(p) && PrivatePath(q)
    requires Present(LeafEntry(m.mem, r, p).flags) && m.Managed(LeafEntry(m.mem, r, p).frame)
    requires Present(LeafEntry(m.mem, s, q).flags)
    ensures LeafEntry(m.mem, r, p).frame != LeafEntry(m.mem, s, q).frame
  {
    hide LeafEntry, Small, Tree;
    assert Held(LeafEntry(m.mem, r, p), p, spaces[r].pages, m.First(), m.First() + m.Count());
    assert Held(LeafEntry(m.mem, s, q), q, spaces[s].pages, m.First(), m.First() + m.Count());
  }

  /** A space whose tables were not written, and whose frames are still out, is as it was. */
  lemma SpaceKept(mem: seq<Table>, mem': seq<Table>, out: set<nat>, out': set<nat>, lo: nat, hi: nat, common: set<nat>,
                  h: Holding, root: nat)
    requires Sound(mem, out, lo, hi, common, h, root) && |mem'| == |mem|
    requires forall f :: f in h.own && f < |mem| ==> mem'[f] == mem[f]
    requires forall f :: f in Reaches(h) && f in out ==> f in out'
    ensures Sound(mem', out', lo, hi, common, h, root) && SameMap(mem, mem', root)
  {
    hide PagesAre, Small, Opens, SameMap, Mine;
    forall f | f in h.own ensures f < |mem| { TreeSizes(mem, root, h.own, f); }
    OutsideKeeps(mem, mem', root, h.own);
    PagesNoTables(mem, root, h.own, h.pages, lo, hi);
    SameKeepsPages(mem, mem', root, h.own, h.own, h.pages, lo, hi);
    OpensKept(mem, mem', root, Path(0, 0, 0, 0));
    hide Tree;
  }

  /** A space took frames which no other reaches: it is still apart from the others. */
  lemma StillDisjoint(spaces: Spaces, root: nat, h: Holding, taken: set<nat>)
    requires Disjoint(spaces) && (forall s :: s in spaces && s != root ==> taken !! Reaches(spaces[s]))
    requires forall s :: s in spaces && s != root ==>
      FramesOf(h) - taken !! Reaches(spaces[s]) && FramesOf(spaces[s]) !! Reaches(h) - taken
    ensures Disjoint(spaces[root := h])
  {
    OwnReached(spaces);
    hide FramesOf, Reaches;
  }

  lemma OwnReached(spaces: Spaces)
    ensures forall s :: s in spaces ==> FramesOf(spaces[s]) <= Reaches(spaces[s])
  {
  }

  /** One space changed: it wrote only tables of its own, and took frames that no space reaches. */
  lemma OneChanged(mem: seq<Table>, mem': seq<Table>, out: set<nat>, out': set<nat>, lo: nat, hi: nat, common: set<nat>,
                   spaces: Spaces, root: nat, h: Holding, taken: set<nat>)
    requires AllSound(mem, out, lo, hi, common, spaces) && root in spaces && Sound(mem', out', lo, hi, common, h, root)
    requires |mem'| == |mem| && (forall f :: 0 <= f < |mem| && mem'[f] != mem[f] ==> f in Mine(h.own)) && out <= out'
    requires Reaches(h) <= Reaches(spaces[root]) + taken && FramesOf(h) <= FramesOf(spaces[root]) + taken
    requires taken !! common
    requires forall s :: s in spaces && s != root ==> taken !! Reaches(spaces[s])
    ensures AllSound(mem', out', lo, hi, common, spaces[root := h])
    ensures forall s :: s in spaces && s != root ==> SameMap(mem, mem', s)
  {
    hide Sound, SameMap, Mine, Reaches;
    forall s | s in spaces && s != root
      ensures Sound(mem', out', lo, hi, common, spaces[s], s) && SameMap(mem, mem', s)
    {
      Untouched(mem, mem', spaces, root, s, h, taken);
      SpaceKept(mem, mem', out, out', lo, hi, common, spaces[s], s);
    }
    StillDisjoint(spaces, root, h, taken);
  }

  /** Writes to a space's own tables, or to new ones, are no writes to another space's tables. */
  lemma Untouched(mem: seq<Table>, mem': seq<Table>, spaces: Spaces, root: nat, s: nat, h: Holding, taken: set<nat>)
    requires Disjoint(spaces) && root in spaces && s in spaces && s != root && taken !! Reaches(spaces[s])
    requires FramesOf(h) <= FramesOf(spaces[root]) + taken && |mem'| == |mem|
    requires forall f :: 0 <= f < |mem| && mem'[f] != mem[f] ==> f in Mine(h.own)
    ensures forall f :: f in spaces[s].own && f < |mem| ==> mem'[f] == mem[f]
  {
    hide Mine;
    assert FramesOf(spaces[root]) !! Reaches(spaces[s]);
  }

  lemma MineIn(h: Holding)
    ensures Mine(h.own) <= FramesOf(h)
  {
  }

  lemma ReassignKeys(pages: Pages, p: Path, f: nat)
    ensures Reassign(pages, p, f).Keys <= pages.Keys + {f} && f in Reassign(pages, p, f)
    ensures Vacate(pages, p).Keys <= pages.Keys
  {
  }

  /** Frames that were not out are reached by no space, and are not common. */
  lemma NotReached(mem: seq<Table>, out: set<nat>, lo: nat, hi: nat, common: set<nat>, spaces: Spaces, taken: set<nat>)
    requires AllSound(mem, out, lo, hi, common, spaces) && taken !! out && forall f :: f in taken ==> lo <= f < hi
    ensures taken !! common && forall s :: s in spaces ==> taken !! Reaches(spaces[s])
  {
    hide Tree, PagesAre, Small, Opens, Mine, Disjoint, Reaches, FramesOf;
  }

  /** Only frames of the space were written. */
  ghost predicate WritesOwn(mem: seq<Table>, mem': seq<Table>, h: Holding) {
    |mem'| == |mem| && forall f :: 0 <= f < |mem| && mem'[f] != mem[f] ==> f in FramesOf(h)
  }

  /** A space as it is now. */
  ghost predicate Lives(m: Memory, h: Holding, root: nat)
    reads m, m.pmm
  {
    m.Ready() && Sound(m.mem, m.Outs(), m.First(), m.First() + m.Count(), m.common, h, root)
  }

  /** The space changed from `h` to `h'`: it wrote only its own tables, and took the frames `taken`, which were not
      out. */
  ghost predicate Took(mem: seq<Table>, mem': seq<Table>, h: Holding, h': Holding, taken: set<nat>) {
    && |mem'| == |mem| && (forall f :: 0 <= f < |mem| && mem'[f] != mem[f] ==> f in Mine(h'.own))
    && Reaches(h') <= Reaches(h) + taken && FramesOf(h') <= FramesOf(h) + taken
  }

  /** Maps a frame in one space, without regard to the others. */
  method MapOne(m: Memory, root: nat, f: nat, virt: nat, flags: Flags, ghost h: Holding)
      returns (ok: bool, ghost h': Holding, ghost added: set<nat>)
    requires Lives(m, h, root) && Present(flags) && !Huge(flags) && PrivatePath(PathOf(virt))
    requires m.Managed(f) && f in m.Outs() && f !in Reaches(h)
    modifies m`mem, m.pmm`bits, m.pmm`cursor
    ensures Lives(m, h', root) && Took(old(m.mem), m.mem, h, h', added + {f})
    ensures added !! old(m.Outs()) && m.Outs() == old(m.Outs()) + added
    ensures forall g :: g in added ==> m.First() <= g < m.First() + m.Count()
    ensures ok ==>
      && Translate(m.mem, root, PathOf(virt)) == Some(Mapping(f, flags, Writable(flags), User(flags)))
      && f in h'.pages
    ensures !ok ==> f !in Reaches(h')
  {
    hide Tree, PagesAre, Small, Opens, SameMap, SameElsewhere, LeafIs, Writes, PathOf, Mine, Frames, Reassign, Vacate, Sound,
      Opens;
    SoundIs(m, h, root);
    ghost var own', pages';
    ok, own', pages' := m.MapOwned(root, f, virt, flags, h.own, h.pages);
    h', added := Holding(own', pages'), own'.Keys - h.own.Keys;
    m.NewManaged(h.own, own', old(m.Outs()));
    MineGrows(old(m.mem), m.mem, h.own, own', PathOf(virt));
    ReassignKeys(h.pages, PathOf(virt), f);
    OpensKept(old(m.mem), m.mem, root, PathOf(virt));
    if ok { OpenRights(m.mem, root, PathOf(virt), Entry(f, flags)); }
    SoundIs(m, h', root);
  }

  /** Maps a frame of the allocator that no space uses into one of them. The spaces stay apart, and all others
      translate as they did. */
  method MapIn(m: Memory, root: nat, f: nat, virt: nat, flags: Flags, ghost spaces: Spaces)
      returns (ok: bool, ghost h: Holding)
    requires Apart(m, spaces) && root in spaces && Present(flags) && !Huge(flags) && PrivatePath(PathOf(virt))
    requires m.Managed(f) && f in m.Outs() && f !in m.common && forall s :: s in spaces ==> f !in Reaches(spaces[s])
    modifies m`mem, m.pmm`bits, m.pmm`cursor
    ensures Apart(m, spaces[root := h]) && forall s :: s in spaces && s != root ==> SameMap(old(m.mem), m.mem, s)
    ensures old(m.Outs()) <= m.Outs() && WritesOwn(old(m.mem), m.mem, h)
    ensures ok ==>
      && Translate(m.mem, root, PathOf(virt)) == Some(Mapping(f, flags, Writable(flags), User(flags)))
      && f in h.pages
    ensures !ok ==> f !in Reaches(h)
  {
    hide SameMap, Translate, PathOf, Mine, Disjoint, Sound, AllSound, Reaches, FramesOf;
    SoundOne(m.mem, m.Outs(), m.First(), m.First() + m.Count(), m.common, spaces, root);
    ghost var added;
    ok, h, added := MapOne(m, root, f, virt, flags, spaces[root]);
    NotReached(old(m.mem), old(m.Outs()), m.First(), m.First() + m.Count(), m.common, spaces, added);
    MineIn(h);
    OneChanged(old(m.mem), m.mem, old(m.Outs()), m.Outs(), m.First(), m.First() + m.Count(), m.common, spaces, root, h,
               added + {f});
  }

  lemma SoundOne(mem: seq<Table>, out: set<nat>, lo: nat, hi: nat, common: set<nat>, spaces: Spaces, root: nat)
    requires AllSound(mem, out, lo, hi, common, spaces) && root in spaces
    ensures Sound(mem, out, lo, hi, common, spaces[root], root)
  {
    hide Sound;
  }

  /** Unmaps a private page of one space; its frame is the caller's again. */
  method UnmapIn(m: Memory, root: nat, virt: nat, ghost spaces: Spaces) returns (ok: bool, ghost h: Holding)
    requires Apart(m, spaces) && root in spaces && PrivatePath(PathOf(virt))
    modifies m`mem
    ensures Apart(m, spaces[root := h]) && forall s :: s in spaces && s != root ==> SameMap(old(m.mem), m.mem, s)
    ensures m.Outs() == old(m.Outs()) && WritesOwn(old(m.mem), m.mem, h)
    ensures Translate(m.mem, root, PathOf(virt)).None?
    ensures h == Holding(spaces[root].own, Vacate(spaces[root].pages, PathOf(virt)))
  {
    hide SameMap, PathOf, Mine, Disjoint, Sound, AllSound, Tree, PagesAre, Small, Writes, SameElsewhere, Vacate, Frames,
      Opens;
    ghost var was := spaces[root];
    SoundOne(m.mem, m.Outs(), m.First(), m.First() + m.Count(), m.common, spaces, root);
    SoundIs(m, was, root);
    ghost var pages;
    ok, pages := m.UnmapOwned(root, virt, was.own, was.pages);
    h := Holding(was.own, pages);
    MineGrows(old(m.mem), m.mem, was.own, was.own, PathOf(virt));
    ReassignKeys(was.pages, PathOf(virt), 0);
    OpensKept(old(m.mem), m.mem, root, PathOf(virt));
    MineIn(h);
    SoundIs(m, h, root);
    OneChanged(old(m.mem), m.mem, old(m.Outs()), m.Outs(), m.First(), m.First() + m.Count(), m.common, spaces, root, h,
               {});
  }

  // ---- new spaces ----

  /** Memory that was out, or not the allocator's, is as it was: so are all spaces. */
  lemma AllKept(mem: seq<Table>, mem': seq<Table>, out: set<nat>, out': set<nat>, lo: nat, hi: nat, common: set<nat>,
                spaces: Spaces)
    requires AllSound(mem, out, lo, hi, common, spaces) && OldKept(mem, mem', out, lo, hi) && out <= out'
    ensures AllSound(mem', out', lo, hi, common, spaces) && forall s :: s in spaces ==> SameMap(mem, mem', s)
  {
    hide SameMap, Mine, Disjoint, Tree, PagesAre, Small;
    forall s | s in spaces ensures Sound(mem', out', lo, hi, common, spaces[s], s) && SameMap(mem, mem', s) {
      SpaceKept(mem, mem', out, out', lo, hi, common, spaces[s], s);
    }
  }

  /** A space on frames that were not out is apart from all others. */
  lemma OneAdded(mem: seq<Table>, out: set<nat>, out0: set<nat>, lo: nat, hi: nat, common: set<nat>, spaces: Spaces,
                 root: nat, h: Holding)
    requires AllSound(mem, out, lo, hi, common, spaces) && Sound(mem, out, lo, hi, common, h, root)
    requires FramesOf(h) !! out0
    requires (forall f :: f in FramesOf(h) ==> lo <= f < hi) && (forall f :: f in common && lo <= f < hi ==> f in out0)
    requires forall s, f :: s in spaces && f in Reaches(spaces[s]) && lo <= f < hi ==> f in out0
    ensures AllSound(mem, out, lo, hi, common, spaces[root := h])
  {
    OwnReached(spaces);
    OwnOrCommon(mem, out, lo, hi, common, h, root);
    hide Sound, Mine, FramesOf, Reaches;
    StillDisjoint(spaces, root, h, {});
  }

  lemma OwnOrCommon(mem: seq<Table>, out: set<nat>, lo: nat, hi: nat, common: set<nat>, h: Holding, root: nat)
    requires Sound(mem, out, lo, hi, common, h, root)
    ensures Reaches(h) <= FramesOf(h) + common
  {
    hide Tree, PagesAre, Small, Opens, Mine;
  }

  lemma RootOwned(mem: seq<Table>, out: set<nat>, lo: nat, hi: nat, common: set<nat>, h: Holding, root: nat)
    requires Sound(mem, out, lo, hi, common, h, root)
    ensures root in FramesOf(h) && root in Reaches(h)
  {
    TreeRoot(mem, root, h.own);
    RootMine(root, h.own);
    hide Tree, PagesAre, Small, Opens, Mine;
  }

  lemma ReachesOut(mem: seq<Table>, out: set<nat>, lo: nat, hi: nat, common: set<nat>, spaces: Spaces)
    requires AllSound(mem, out, lo, hi, common, spaces)
    ensures forall s, f :: s in spaces && f in Reaches(spaces[s]) && lo <= f < hi ==> f in out
    ensures forall f :: f in common && lo <= f < hi ==> f in out
    ensures forall s :: s in spaces ==> s in Reaches(spaces[s])
  {
    hide Mine, Disjoint, Tree, PagesAre, Small, Opens, FramesOf, Reaches;
    forall s | s in spaces ensures s in Reaches(spaces[s]) { RootOwned(mem, out, lo, hi, common, spaces[s], s); }
  }

  /** Copies one of the spaces. The child holds frames that were not out, has every private page of its parent
      with the same contents, and is apart from all spaces, which translate as they did. */
  method CopyIn(m: Memory, src: nat, regions: seq<Region>, ghost ownK: Owners, ghost spaces: Spaces)
      returns (child: Option<nat>, ghost h: Holding)
    requires m.Space(KERNEL_ROOT, ownK) && m.Shares(ownK) && Present(At(m.mem, KERNEL_ROOT, 0).flags)
    requires m.AllDevices(regions)
    requires Apart(m, spaces) && src in spaces
    modifies m`mem, m.pmm`bits, m.pmm`cursor
    ensures forall s :: s in spaces ==> SameMap(old(m.mem), m.mem, s)
    ensures m.Ready() && old(m.Outs()) <= m.Outs()
    ensures OldKept(old(m.mem), m.mem, old(m.Outs()), m.First(), m.First() + m.Count())
    ensures child.None? ==> Apart(m, spaces)
    ensures child.Some? ==>
      && child.value !in spaces && Apart(m, spaces[child.value := h])
      && (forall p :: PrivatePath(p) ==> CopiedAt(old(m.mem), src, m.mem, child.value, h.pages, p))
      && forall f :: f in h.pages ==> FromParent(old(m.mem), src, h.pages[f])
  {
    hide SameMap, Mine, Disjoint, Sound, AllSound, Tree, PagesAre, Small, Opens, Frames, Copyable, CopiedAt, FromParent,
      OldKept, Reaches, Slot3, HasSlot3, KernelPart;
    ghost var mem0, out0, lo, hi := m.mem, m.Outs(), m.First(), m.First() + m.Count();
    SoundOne(mem0, out0, lo, hi, m.common, spaces, src);
    SoundIs(m, spaces[src], src);
    ProcessCopyable(mem0, src, spaces[src].own, spaces[src].pages, out0, lo, hi);
    ReachesOut(mem0, out0, lo, hi, m.common, spaces);
    ghost var own, pages;
    ghost var gone;
    child, own, pages, gone := m.CopySpace(src, regions, ownK, spaces[src].own);
    h := Holding(own, pages);
    AllKept(mem0, m.mem, out0, m.Outs(), lo, hi, m.common, spaces);
    if child.Some? {
      KernelOpens(mem0, KERNEL_ROOT, m.mem, child.value);
      SoundIs(m, h, child.value);
      RootOwned(m.mem, m.Outs(), lo, hi, m.common, h, child.value);
      PagesManaged(m.mem, child.value, own, pages, lo, hi);
      OneAdded(m.mem, m.Outs(), out0, lo, hi, m.common, spaces, child.value, h);
    }
  }

  /** Creates a space without pages of its own. */
  method CreateIn(m: Memory, regions: seq<Region>, ghost ownK: Owners, ghost spaces: Spaces)
      returns (root: Option<nat>, ghost h: Holding, ghost counts: seq<nat>)
    requires m.Space(KERNEL_ROOT, ownK) && m.Shares(ownK) && Present(At(m.mem, KERNEL_ROOT, 0).flags)
    requires m.AllDevices(regions)
    requires Apart(m, spaces)
    modifies m`mem, m.pmm`bits, m.pmm`cursor
    ensures forall s :: s in spaces ==> SameMap(old(m.mem), m.mem, s)
    ensures m.Ready() && old(m.Outs()) <= m.Outs()
    ensures OldKept(old(m.mem), m.mem, old(m.Outs()), m.First(), m.First() + m.Count())
    ensures root.None? <==> |old(m.Left())| < 2
    ensures root.None? ==> Apart(m, spaces)
    ensures root.Some? ==>
      && root.value !in spaces && Apart(m, spaces[root.value := h]) && h.pages == map[]
      && |counts| == |regions| && Counted(regions, counts) && Maps(m.mem, root.value, AllPages(regions, counts))
      && (!m.AllOut() ==> Full(regions, counts))
  {
    hide SameMap, Mine, Disjoint, Sound, AllSound, Tree, PagesAre, Small, Opens, Frames, OldKept, Reaches, KernelPart,
      Maps, Counted, Full;
    ghost var mem0, out0, lo, hi := m.mem, m.Outs(), m.First(), m.First() + m.Count();
    ReachesOut(mem0, out0, lo, hi, m.common, spaces);
    ghost var own;
    root, own, counts := m.CreateSpace(regions, ownK);
    h := Holding(own, map[]);
    AllKept(mem0, m.mem, out0, m.Outs(), lo, hi, m.common, spaces);
    if root.Some? {
      KernelOpens(mem0, KERNEL_ROOT, m.mem, root.value);
      SoundIs(m, h, root.value);
      RootOwned(m.mem, m.Outs(), lo, hi, m.common, h, root.value);
      OneAdded(m.mem, m.Outs(), out0, lo, hi, m.common, spaces, root.value, h);
    }
  }

  lemma PagesManaged(mem: seq<Table>, root: nat, own: Owners, pages: Pages, lo: nat, hi: nat)
    requires PagesAre(mem, root, own, pages, lo, hi)
    ensures forall f :: f in pages ==> lo <= f < hi
  {
  }

  // ---- freeing ----

  lemma PrivateOwned(h: Holding)
    ensures AllPrivate(h.own, h.pages) <= FramesOf(h)
  {
  }

  /** What one space held is handed back: all others still hold what they held. */
  lemma OneGone(mem: seq<Table>, out: set<nat>, lo: nat, hi: nat, common: set<nat>, spaces: Spaces, root: nat,
                gone: set<nat>)
    requires AllSound(mem, out, lo, hi, common, spaces) && root in spaces && gone <= FramesOf(spaces[root])
    ensures AllSound(mem, out - gone, lo, hi, common, spaces - {root})
  {
    hide Tree, PagesAre, Small, Opens, Mine, FramesOf, Reaches;
    var rest := spaces - {root};
    forall s | s in rest ensures Sound(mem, out - gone, lo, hi, common, rest[s], s) {
      assert FramesOf(spaces[root]) !! Reaches(spaces[s]);
      PagesReached(spaces[s]);
    }
  }

  lemma PagesReached(h: Holding)
    ensures h.pages.Keys <= Reaches(h)
  {
  }

  /** Frees one of the spaces; the others are as they were. */
  method FreeIn(m: Memory, root: nat, ghost spaces: Spaces)
    requires Apart(m, spaces) && root in spaces
    modifies m.pmm`bits
    ensures root == 0 || root == KERNEL_ROOT ==> Apart(m, spaces)
    ensures root != 0 && root != KERNEL_ROOT ==>
      Apart(m, spaces - {root}) && m.Outs() == old(m.Outs()) - AllPrivate(spaces[root].own, spaces[root].pages)
  {
    hide Mine, Disjoint, Sound, AllSound, Tree, PagesAre, Small, Opens, Frames, AllPrivate, FramesOf;
    ghost var h := spaces[root];
    SoundOne(m.mem, m.Outs(), m.First(), m.First() + m.Count(), m.common, spaces, root);
    SoundIs(m, h, root);
    PrivateOwned(h);
    OneGone(m.mem, m.Outs(), m.First(), m.First() + m.Count(), m.common, spaces, root, AllPrivate(h.own, h.pages));
    m.FreeSpace(root, h.own, h.pages);
  }
}
