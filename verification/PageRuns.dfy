/** Runs of address-space requests: spaces are created, forked and freed, and pages mapped and unmapped in them. */
module PageRuns {
  import opened Wrappers
  import opened PageTree
  import opened PageOwn
  import opened PageCopy
  import opened Paging
  import opened PageSpaces

  /** Requests name a live space by its place in the list of top tables. */
  datatype Request = NewSpace | MapFresh(i: nat, virt: nat, flags: Flags) | Clear(i: nat, virt: nat) | Fork(i: nat)
                   | Exit(i: nat)

  /** The kernel's own tables are among the common ones, and in place. */
  ghost predicate KernelOk(mem: seq<Table>, out: set<nat>, lo: nat, hi: nat, common: set<nat>, ownK: Owners) {
    && Tree(mem, KERNEL_ROOT, ownK) && Present(At(mem, KERNEL_ROOT, 0).flags) && ownK.Keys <= common
    && forall f :: f in ownK && lo <= f < hi ==> f in out
  }

  /** The spaces whose top tables are listed are apart from each other and from the kernel. */
  ghost predicate Running(m: Memory, live: seq<nat>, ownK: Owners, spaces: Spaces)
    reads m, m.pmm
  {
    && Apart(m, spaces) && KernelOk(m.mem, m.Outs(), m.First(), m.First() + m.Count(), m.common, ownK)
    && (forall r :: r in live <==> r in spaces) && forall i, j :: 0 <= i < j < |live| ==> live[i] != live[j]
  }

  lemma KernelStays(mem: seq<Table>, mem': seq<Table>, out: set<nat>, out': set<nat>, lo: nat, hi: nat,
                    common: set<nat>, ownK: Owners)
    requires KernelOk(mem, out, lo, hi, common, ownK) && |mem'| == |mem|
    requires forall f :: f in ownK && f < |mem| ==> mem'[f] == mem[f] && (f in out ==> f in out')
    ensures KernelOk(mem', out', lo, hi, common, ownK)
  {
    forall f | f in ownK ensures f < |mem| { TreeSizes(mem, KERNEL_ROOT, ownK, f); }
    OutsideKeeps(mem, mem', KERNEL_ROOT, ownK);
    TreeRoot(mem, KERNEL_ROOT, ownK);
    hide Tree;
  }

  /** A space wrote its own tables only. */
  lemma KernelSpared(m: Memory, mem0: seq<Table>, out0: set<nat>, ownK: Owners, spaces: Spaces, root: nat)
    requires Apart(m, spaces) && root in spaces && WritesOwn(mem0, m.mem, spaces[root]) && out0 <= m.Outs()
    requires KernelOk(mem0, out0, m.First(), m.First() + m.Count(), m.common, ownK)
    ensures KernelOk(m.mem, m.Outs(), m.First(), m.First() + m.Count(), m.common, ownK)
  {
    hide Tree, Sound, Disjoint, FramesOf;
    KernelStays(mem0, m.mem, out0, m.Outs(), m.First(), m.First() + m.Count(), m.common, ownK);
  }

  lemma KernelOld(m: Memory, mem0: seq<Table>, out0: set<nat>, ownK: Owners)
    requires m.Ready() && OldKept(mem0, m.mem, out0, m.First(), m.First() + m.Count()) && out0 <= m.Outs()
    requires KernelOk(mem0, out0, m.First(), m.First() + m.Count(), m.common, ownK)
    ensures KernelOk(m.mem, m.Outs(), m.First(), m.First() + m.Count(), m.common, ownK)
  {
    hide Tree;
    KernelStays(mem0, m.mem, out0, m.Outs(), m.First(), m.First() + m.Count(), m.common, ownK);
  }

  lemma KernelSpace(m: Memory, ownK: Owners)
    requires m.Ready() && KernelOk(m.mem, m.Outs(), m.First(), m.First() + m.Count(), m.common, ownK)
    ensures m.Space(KERNEL_ROOT, ownK) && m.Shares(ownK) && Present(At(m.mem, KERNEL_ROOT, 0).flags)
  {
    hide Tree;
  }

  // ---- requests ----

  /** The page is frame `f`, and allows what the flags say. */
  ghost predicate PageIs(mem: seq<Table>, root: nat, virt: nat, f: nat, flags: Flags) {
    Translate(mem, root, PathOf(virt)) == Some(Mapping(f, flags, Writable(flags), User(flags)))
  }

  /** A frame is taken for the page; it goes back when the page cannot be mapped. */
  method MapFreshIn(m: Memory, root: nat, virt: nat, flags: Flags, ghost ownK: Owners, ghost spaces: Spaces)
      returns (ok: bool, ghost h: Holding)
    requires Apart(m, spaces) && KernelOk(m.mem, m.Outs(), m.First(), m.First() + m.Count(), m.common, ownK)
    requires root in spaces && Present(flags) && !Huge(flags) && PrivatePath(PathOf(virt))
    modifies m`mem, m.pmm`bits, m.pmm`cursor
    ensures Apart(m, spaces[root := h]) && KernelOk(m.mem, m.Outs(), m.First(), m.First() + m.Count(), m.common, ownK)
    ensures forall s :: s in spaces && s != root ==> SameMap(old(m.mem), m.mem, s)
    ensures ok ==> exists f :: f !in old(m.Outs()) && PageIs(m.mem, root, virt, f, flags)
  {
    hide SameMap, PageIs, PathOf, AllSound, KernelOk, Reaches, FramesOf, Tree;
    h := spaces[root];
    var f := m.AllocFrame();
    if f.None? {
      SameSpaces(m.mem, spaces, root);
      return false, h;
    }
    ghost var mem1 := m.mem;
    Taken(old(m.mem), old(m.Outs()), m, f.value, spaces, ownK);
    ok, h := MapTaken(m, root, f.value, virt, flags, ownK, spaces);
    MapsOn(old(m.mem), mem1, m.mem, spaces, root);
  }

  method MapTaken(m: Memory, root: nat, f: nat, virt: nat, flags: Flags, ghost ownK: Owners, ghost spaces: Spaces)
      returns (ok: bool, ghost h: Holding)
    requires Apart(m, spaces) && KernelOk(m.mem, m.Outs(), m.First(), m.First() + m.Count(), m.common, ownK)
    requires root in spaces && Present(flags) && !Huge(flags) && PrivatePath(PathOf(virt))
    requires m.Managed(f) && f in m.Outs() && f !in m.common && forall s :: s in spaces ==> f !in Reaches(spaces[s])
    modifies m`mem, m.pmm`bits, m.pmm`cursor
    ensures Apart(m, spaces[root := h]) && KernelOk(m.mem, m.Outs(), m.First(), m.First() + m.Count(), m.common, ownK)
    ensures forall s :: s in spaces && s != root ==> SameMap(old(m.mem), m.mem, s)
    ensures ok ==> PageIs(m.mem, root, virt, f, flags)
  {
    hide SameMap, Translate, PathOf, AllSound, KernelOk, Reaches, FramesOf, Tree;
    ok, h := MapIn(m, root, f, virt, flags, spaces);
    ghost var spaces' := spaces[root := h];
    KernelSpared(m, old(m.mem), old(m.Outs()), ownK, spaces', root);
    if !ok {
      GiveUp(m, f, ownK, spaces');
    }
  }

  lemma SameSpaces(mem: seq<Table>, spaces: Spaces, root: nat)
    requires root in spaces
    ensures spaces[root := spaces[root]] == spaces && forall s :: s in spaces ==> SameMap(mem, mem, s)
  {
  }

  lemma MapsOn(mem: seq<Table>, mem1: seq<Table>, mem2: seq<Table>, spaces: Spaces, root: nat)
    requires forall s :: s in spaces ==> SameMap(mem, mem1, s)
    requires forall s :: s in spaces && s != root ==> SameMap(mem1, mem2, s)
    ensures forall s :: s in spaces && s != root ==> SameMap(mem, mem2, s)
  {
    hide Translate;
  }

  /** A frame that was not out is taken and wiped: nobody notices. */
  lemma Taken(mem0: seq<Table>, out0: set<nat>, m: Memory, f: nat, spaces: Spaces, ownK: Owners)
    requires m.Ready() && AllSound(mem0, out0, m.First(), m.First() + m.Count(), m.common, spaces) && f < |mem0|
    requires f !in out0
    requires KernelOk(mem0, out0, m.First(), m.First() + m.Count(), m.common, ownK)
    requires m.Managed(f) && m.mem == mem0[f := BLANK] && m.Outs() == out0 + {f}
    ensures Apart(m, spaces) && KernelOk(m.mem, m.Outs(), m.First(), m.First() + m.Count(), m.common, ownK)
    ensures f !in m.common && (forall s :: s in spaces ==> f !in Reaches(spaces[s]) && SameMap(mem0, m.mem, s))
  {
    hide AllSound, KernelOk, SameMap, Reaches;
    NotReached(mem0, out0, m.First(), m.First() + m.Count(), m.common, spaces, {f});
    OldKeptOn(mem0, mem0, m.mem, out0, m.First(), m.First() + m.Count(), {f});
    AllKept(mem0, m.mem, out0, m.Outs(), m.First(), m.First() + m.Count(), m.common, spaces);
    KernelOld(m, mem0, out0, ownK);
  }

  /** A frame nobody reaches goes back. */
  method GiveUp(m: Memory, f: nat, ghost ownK: Owners, ghost spaces: Spaces)
    requires Apart(m, spaces) && KernelOk(m.mem, m.Outs(), m.First(), m.First() + m.Count(), m.common, ownK)
    requires f !in m.common && forall s :: s in spaces ==> f !in Reaches(spaces[s])
    modifies m.pmm`bits
    ensures Apart(m, spaces) && KernelOk(m.mem, m.Outs(), m.First(), m.First() + m.Count(), m.common, ownK)
  {
    hide AllSound, KernelOk, Reaches;
    ghost var out := m.Outs();
    m.FreeFrame(f);
    WithoutFrame(m.mem, out, m.First(), m.First() + m.Count(), m.common, spaces, ownK, f);
  }

  lemma WithoutFrame(mem: seq<Table>, out: set<nat>, lo: nat, hi: nat, common: set<nat>, spaces: Spaces, ownK: Owners,
                     f: nat)
    requires AllSound(mem, out, lo, hi, common, spaces) && KernelOk(mem, out, lo, hi, common, ownK)
    requires f !in common && forall s :: s in spaces ==> f !in Reaches(spaces[s])
    ensures AllSound(mem, out - {f}, lo, hi, common, spaces) && KernelOk(mem, out - {f}, lo, hi, common, ownK)
  {
    hide Sound, Tree, SameMap, Disjoint;
    forall s | s in spaces ensures Sound(mem, out - {f}, lo, hi, common, spaces[s], s) {
      SpaceKept(mem, mem, out, out - {f}, lo, hi, common, spaces[s], s);
    }
  }

  /** Frees a live space; the kernel's tables stay. */
  method ExitIn(m: Memory, root: nat, ghost ownK: Owners, ghost spaces: Spaces)
    requires Apart(m, spaces) && KernelOk(m.mem, m.Outs(), m.First(), m.First() + m.Count(), m.common, ownK)
    requires root in spaces
    modifies m.pmm`bits
    ensures Apart(m, spaces - {root}) && KernelOk(m.mem, m.Outs(), m.First(), m.First() + m.Count(), m.common, ownK)
  {
    hide AllSound, KernelOk, Reaches, FramesOf, AllPrivate;
    RootIsOwn(m, ownK, spaces, root);
    ghost var out := m.Outs();
    FreeIn(m, root, spaces);
    KernelKeepsOut(m.mem, out, m.First(), m.First() + m.Count(), m.common, ownK, spaces, root);
  }

  lemma RootIsOwn(m: Memory, ownK: Owners, spaces: Spaces, root: nat)
    requires Apart(m, spaces) && KernelOk(m.mem, m.Outs(), m.First(), m.First() + m.Count(), m.common, ownK)
    requires root in spaces
    ensures root != 0 && root != KERNEL_ROOT
  {
    SoundOne(m.mem, m.Outs(), m.First(), m.First() + m.Count(), m.common, spaces, root);
    RootOwned(m.mem, m.Outs(), m.First(), m.First() + m.Count(), m.common, spaces[root], root);
    TreeRoot(m.mem, KERNEL_ROOT, ownK);
    TreeRoot(m.mem, root, spaces[root].own);
    RootMine(root, spaces[root].own);
    hide Tree, PagesAre, Small, Mine, FramesOf, Disjoint;
  }

  lemma KernelKeepsOut(mem: seq<Table>, out: set<nat>, lo: nat, hi: nat, common: set<nat>, ownK: Owners,
                       spaces: Spaces, root: nat)
    requires AllSound(mem, out, lo, hi, common, spaces) && root in spaces && KernelOk(mem, out, lo, hi, common, ownK)
    ensures KernelOk(mem, out - AllPrivate(spaces[root].own, spaces[root].pages), lo, hi, common, ownK)
  {
    PrivateOwned(spaces[root]);
    hide Sound, Disjoint, Tree, AllPrivate, FramesOf;
  }

  // ---- runs ----

  lemma Joined(live: seq<nat>, spaces: Spaces, r: nat, h: Holding)
    requires (forall x :: x in live <==> x in spaces) && r !in spaces && forall i, j :: 0 <= i < j < |live| ==>
      live[i] != live[j]
    ensures var live' := live + [r];
      (forall x :: x in live' <==> x in spaces[r := h]) && forall i, j :: 0 <= i < j < |live'| ==> live'[i] != live'[j]
  {
  }

  lemma Gone(live: seq<nat>, spaces: Spaces, i: nat)
    requires i < |live| && (forall x :: x in live <==> x in spaces) && forall i, j :: 0 <= i < j < |live| ==>
      live[i] != live[j]
    ensures var live' := live[..i] + live[i + 1..];
      (forall x :: x in live' <==> x in spaces - {live[i]}) && forall i, j :: 0 <= i < j < |live'| ==> live'[i] != live'[j]
  {
    var live' := live[..i] + live[i + 1..];
    assert forall j :: 0 <= j < |live'| ==> live'[j] == live[if j < i then j else j + 1];
    forall x | x in live && x != live[i] ensures x in live' {
      var j :| 0 <= j < |live| && live[j] == x;
      assert live'[if j < i then j else j - 1] == x;
    }
  }

  /** One request. Spaces that it does not name keep their translations, tables and pages. */
  method Perform(m: Memory, regions: seq<Region>, q: Request, live: seq<nat>, ghost ownK: Owners, ghost spaces: Spaces)
      returns (ok: bool, live': seq<nat>, ghost spaces': Spaces)
    requires Running(m, live, ownK, spaces) && m.AllDevices(regions)
    modifies m`mem, m.pmm`bits, m.pmm`cursor
    ensures Running(m, live', ownK, spaces')
    ensures forall s :: s in spaces && !Named(q, live, s) ==>
      s in spaces' && spaces'[s] == spaces[s] && SameMap(old(m.mem), m.mem, s)
    ensures Did(regions, q, ok, old(m.mem), old(m.Outs()), |old(m.Left())|, live, m.mem, |m.Left()|, live', spaces')
  {
    hide AllSound, KernelOk, SameMap, PathOf, Translate, FramesOf, Reaches, Copied, PageIs, Devices;
    ok, live', spaces' := false, live, spaces;
    SameAll(m.mem, spaces);
    match q {
      case NewSpace => ok, live', spaces' := StartSpace(m, regions, live, ownK, spaces);
      case MapFresh(i, virt, flags) =>
        if i < |live| && Present(flags) && !Huge(flags) && PrivatePath(PathOf(virt)) {
          ghost var h;
          ok, h := MapFreshIn(m, live[i], virt, flags, ownK, spaces);
          spaces' := spaces[live[i] := h];
        }
      case Clear(i, virt) =>
        if i < |live| && PrivatePath(PathOf(virt)) {
          ghost var mem0, out0 := m.mem, m.Outs();
          var found, h := UnmapIn(m, live[i], virt, spaces);
          ok, spaces' := true, spaces[live[i] := h];
          KernelSpared(m, mem0, out0, ownK, spaces', live[i]);
        }
      case Fork(i) => if i < |live| { ok, live', spaces' := ForkSpace(m, regions, i, live, ownK, spaces); }
      case Exit(i) =>
        if i < |live| {
          ExitIn(m, live[i], ownK, spaces);
          Gone(live, spaces, i);
          ok, live', spaces' := true, live[..i] + live[i + 1..], spaces - {live[i]};
        }
    }
  }

  /** What the parent's page allows the child's allows, and nothing else. */
  ghost predicate SameRights(mem: seq<Table>, src: nat, mem': seq<Table>, dst: nat, p: Path) {
    var m, c := Translate(mem, src, p), Translate(mem', dst, p);
    m.Some? ==> c == Some(m.value.(frame := if c.Some? then c.value.frame else 0))
  }

  lemma RightsCopied(mem: seq<Table>, src: nat, mem': seq<Table>, dst: nat, pages: Pages, p: Path)
    requires Opens(mem, src) && Opens(mem', dst) && Small(mem, src) && PrivatePath(p)
    requires CopiedAt(mem, src, mem', dst, pages, p)
    ensures SameRights(mem, src, mem', dst, p)
  {
    LeafOrNone(mem, src, p);
    RightsOf(mem, src, p);
    RightsOf(mem', dst, p);
    hide Translate, LeafEntry, Above;
  }

  ghost predicate Added(ok: bool, live: seq<nat>, live': seq<nat>) {
    if ok then |live'| == |live| + 1 && live'[..|live|] == live else live' == live
  }

  /** The first pages of each device region, all of them if frames are `left`, and no other page outside the shared
      slots. */
  ghost predicate Devices(mem: seq<Table>, root: nat, regions: seq<Region>, left: nat) {
    exists counts :: DevicesAre(mem, root, regions, left, counts)
  }

  ghost predicate DevicesAre(mem: seq<Table>, root: nat, regions: seq<Region>, left: nat, counts: seq<nat>) {
    && |counts| == |regions| && Counted(regions, counts) && Maps(mem, root, AllPages(regions, counts))
    && (left > 0 ==> Full(regions, counts))
  }

  /** The last space is a copy of `src`: every private page is there, with the same contents and rights, and each
      page it holds is one of them. */
  ghost predicate Copied(mem: seq<Table>, src: nat, mem': seq<Table>, live: seq<nat>, i: nat, spaces: Spaces) {
    && i < |live| && live[i] in spaces
    && (forall p :: PrivatePath(p) ==> CopiedAt(mem, src, mem', live[i], spaces[live[i]].pages, p))
    && (forall p :: PrivatePath(p) ==> SameRights(mem, src, mem', live[i], p))
    && forall f :: f in spaces[live[i]].pages ==> FromParent(mem, src, spaces[live[i]].pages[f])
  }

  /** What the request did: a space more or less, a copy of every private page, a page on a frame that was not out, or
      no page. */
  ghost predicate Did(regions: seq<Region>, q: Request, ok: bool, mem: seq<Table>, out: set<nat>, left: nat,
                      live: seq<nat>, mem': seq<Table>, left': nat, live': seq<nat>, spaces': Spaces)
  {
    match q
    case NewSpace => (ok <==> left >= 2) && Added(ok, live, live') && (ok ==> Devices(mem', live'[|live|], regions, left'))
    case Fork(i) => Added(ok, live, live') && (ok ==> i < |live| && Copied(mem, live[i], mem', live', |live|, spaces'))
    case Exit(i) => (ok <==> i < |live|) && live' == if ok then live[..i] + live[i + 1..] else live
    case Clear(i, virt) =>
      && (ok <==> i < |live| && PrivatePath(PathOf(virt))) && live' == live
      && (ok ==> Translate(mem', live[i], PathOf(virt)).None?)
    case MapFresh(i, virt, flags) =>
      && live' == live
      && (ok ==>
          && i < |live|
          && exists f :: f !in out && PageIs(mem', live[i], virt, f, flags))
  }

  predicate Named(q: Request, live: seq<nat>, s: nat) {
    (q.MapFresh? || q.Clear? || q.Exit?) && q.i < |live| && live[q.i] == s
  }

  lemma SameAll(mem: seq<Table>, spaces: Spaces)
    ensures forall s :: s in spaces ==> SameMap(mem, mem, s)
  {
  }

  method StartSpace(m: Memory, regions: seq<Region>, live: seq<nat>, ghost ownK: Owners, ghost spaces: Spaces)
      returns (ok: bool, live': seq<nat>, ghost spaces': Spaces)
    requires Running(m, live, ownK, spaces) && m.AllDevices(regions)
    modifies m`mem, m.pmm`bits, m.pmm`cursor
    ensures Running(m, live', ownK, spaces') && (ok <==> |old(m.Left())| >= 2) && Added(ok, live, live')
    ensures ok ==> Devices(m.mem, live'[|live|], regions, |m.Left()|)
    ensures forall s :: s in spaces ==> s in spaces' && spaces'[s] == spaces[s] && SameMap(old(m.mem), m.mem, s)
  {
    hide AllSound, KernelOk, SameMap, OldKept, Maps, AllPages, Full, Counted;
    live', spaces' := live, spaces;
    KernelSpace(m, ownK);
    var root, h, counts := CreateIn(m, regions, ownK, spaces);
    KernelOld(m, old(m.mem), old(m.Outs()), ownK);
    ok := root.Some?;
    if ok {
      if |m.Left()| > 0 { m.SomeLeft(); }
      assert DevicesAre(m.mem, root.value, regions, |m.Left()|, counts);
      Joined(live, spaces, root.value, h);
      live', spaces' := live + [root.value], spaces[root.value := h];
    }
  }

  lemma AllRightsCopied(m: Memory, src: nat, mem0: seq<Table>, out0: set<nat>, child: nat, spaces: Spaces, h: Holding)
    requires AllSound(mem0, out0, m.First(), m.First() + m.Count(), m.common, spaces) && src in spaces
    requires Apart(m, spaces[child := h])
    requires forall p :: PrivatePath(p) ==> CopiedAt(mem0, src, m.mem, child, h.pages, p)
    ensures forall p :: PrivatePath(p) ==> SameRights(mem0, src, m.mem, child, p)
  {
    hide CopiedAt, SameRights, Tree, PagesAre, Mine, Reaches, Disjoint, FramesOf, Opens, Small;
    SoundOne(m.mem, m.Outs(), m.First(), m.First() + m.Count(), m.common, spaces[child := h], child);
    SoundOne(mem0, out0, m.First(), m.First() + m.Count(), m.common, spaces, src);
    forall p | PrivatePath(p) ensures SameRights(mem0, src, m.mem, child, p) {
      RightsCopied(mem0, src, m.mem, child, h.pages, p);
    }
  }

  method ForkSpace(m: Memory, regions: seq<Region>, i: nat, live: seq<nat>, ghost ownK: Owners, ghost spaces: Spaces)
      returns (ok: bool, live': seq<nat>, ghost spaces': Spaces)
    requires Running(m, live, ownK, spaces) && m.AllDevices(regions) && i < |live|
    modifies m`mem, m.pmm`bits, m.pmm`cursor
    ensures Running(m, live', ownK, spaces')
    ensures Added(ok, live, live') && (ok ==> Copied(old(m.mem), live[i], m.mem, live', |live|, spaces'))
    ensures forall s :: s in spaces ==> s in spaces' && spaces'[s] == spaces[s] && SameMap(old(m.mem), m.mem, s)
  {
    hide AllSound, KernelOk, SameMap, OldKept, CopiedAt, SameRights, FromParent;
    live', spaces' := live, spaces;
    KernelSpace(m, ownK);
    var child, h := CopyIn(m, live[i], regions, ownK, spaces);
    KernelOld(m, old(m.mem), old(m.Outs()), ownK);
    ok := child.Some?;
    if ok {
      AllRightsCopied(m, live[i], old(m.mem), old(m.Outs()), child.value, spaces, h);
      Joined(live, spaces, child.value, h);
      live', spaces' := live + [child.value], spaces[child.value := h];
    }
  }

  /** Every run of requests keeps the live spaces apart from each other and from the kernel. */
  method RunAll(m: Memory, regions: seq<Region>, qs: seq<Request>, ghost ownK: Owners)
      returns (live: seq<nat>, ghost spaces: Spaces)
    requires Running(m, [], ownK, map[]) && m.AllDevices(regions)
    modifies m`mem, m.pmm`bits, m.pmm`cursor
    ensures Running(m, live, ownK, spaces)
  {
    hide AllSound, KernelOk;
    live, spaces := [], map[];
    for n := 0 to |qs|
      invariant Running(m, live, ownK, spaces) && m.AllDevices(regions)
    {
      var ok;
      ok, live, spaces := Perform(m, regions, qs[n], live, ownK, spaces);
    }
  }

  /** So at any time a frame of the allocator is at a private page of at most one of them. */
  lemma NeverShared(m: Memory, live: seq<nat>, ownK: Owners, spaces: Spaces, i: nat, j: nat, p: Path, q: Path)
    requires Running(m, live, ownK, spaces) && i < |live| && j < |live| && i != j && PrivatePath(p) && PrivatePath(q)
    requires Present(LeafEntry(m.mem, live[i], p).flags) && m.Managed(LeafEntry(m.mem, live[i], p).frame)
    requires Present(LeafEntry(m.mem, live[j], q).flags)
    ensures LeafEntry(m.mem, live[i], p).frame != LeafEntry(m.mem, live[j], q).frame
  {
    hide AllSound, KernelOk, LeafEntry;
    Isolated(m, spaces, live[i], live[j], p, q);
  }

  /** Before the first space is created, any memory whose kernel tables are in place will do. */
  lemma NoneRunning(m: Memory, ownK: Owners)
    requires m.Space(KERNEL_ROOT, ownK) && Present(At(m.mem, KERNEL_ROOT, 0).flags) && m.common == ownK.Keys
    ensures Running(m, [], ownK, map[])
  {
    hide Tree;
  }
}
