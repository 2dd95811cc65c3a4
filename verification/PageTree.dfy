/** Four-level page tables in physical memory. A table entry is a 64-bit word, taken apart into its
    frame number and its low 12 flag bits; every frame is 512 such words. */
module PageTree {
  import opened Wrappers

  const N := 512

  type Flags = x: nat | x < 0x1000

  datatype Entry = Entry(frame: nat, flags: Flags)

  type Table = seq<Entry>

  const NOTHING := Entry(0, 0)
  const BLANK: Table := Blanks(N)

  function Blanks(n: nat): (t: Table)
    ensures |t| == n && forall x :: 0 <= x < n ==> t[x] == NOTHING
  {
    seq(n, _ => NOTHING)
  }

  predicate Present(flags: nat) { flags % 2 == 1 }
  predicate Writable(flags: nat) { flags / 2 % 2 == 1 }
  predicate User(flags: nat) { flags / 4 % 2 == 1 }
  predicate Huge(flags: nat) { flags / 128 % 2 == 1 }

  // present, writable, user
  const PWU := 7

  /** The four indices of a virtual page. */
  datatype Path = Path(i: nat, j: nat, k: nat, l: nat)

  predicate Valid(p: Path) { p.i < N && p.j < N && p.k < N && p.l < N }

  function PathOf(virt: nat): (p: Path)
    ensures Valid(p)
  {
    Path(virt / 0x80_0000_0000 % N, virt / 0x4000_0000 % N, virt / 0x20_0000 % N, virt / 0x1000 % N)
  }

  function VirtOf(p: Path): nat { p.i * 0x80_0000_0000 + p.j * 0x4000_0000 + p.k * 0x20_0000 + p.l * 0x1000 }

  lemma PathOfVirt(p: Path)
    requires Valid(p)
    ensures PathOf(VirtOf(p)) == p
  {
    var v := VirtOf(p);
    assert v / 0x1000 == ((p.i * N + p.j) * N + p.k) * N + p.l;
    assert v / 0x20_0000 == v / 0x1000 / N && v / 0x4000_0000 == v / 0x20_0000 / N && v / 0x80_0000_0000 == v / 0x4000_0000 / N;
    assert v / 0x20_0000 == (p.i * N + p.j) * N + p.k;
    assert v / 0x4000_0000 == p.i * N + p.j;
  }

  // ---- what the tables mean ----

  function At(mem: seq<Table>, f: nat, x: nat): Entry {
    if f < |mem| && x < |mem[f]| then mem[f][x] else NOTHING
  }

  /** Contents of a frame; nothing is modelled beyond the end of memory. */
  function Load(mem: seq<Table>, f: nat): Table { if f < |mem| then mem[f] else BLANK }

  /** Target frame and leaf flags of a page, and what all levels together allow. */
  datatype Mapping = Mapping(frame: nat, flags: nat, writable: bool, user: bool)

  /** The walk a page goes through; a huge entry ends it one level early. */
  function Translate(mem: seq<Table>, root: nat, p: Path): Option<Mapping> {
    var e4 := At(mem, root, p.i);
    if !Present(e4.flags) then None else
    var e3 := At(mem, e4.frame, p.j);
    if !Present(e3.flags) then None else
    Below(mem, At(mem, e3.frame, p.k), p.l, Writable(e4.flags) && Writable(e3.flags), User(e4.flags) && User(e3.flags))
  }

  function Below(mem: seq<Table>, e2: Entry, l: nat, w: bool, u: bool): Option<Mapping> {
    if !Present(e2.flags) then None
    else if Huge(e2.flags) then Some(Mapping(e2.frame - e2.frame % N + l, e2.flags, w && Writable(e2.flags),
                                             u && User(e2.flags)))
    else
      var e1 := At(mem, e2.frame, l);
      if !Present(e1.flags) then None
      else Some(Mapping(e1.frame, e1.flags, w && Writable(e2.flags) && Writable(e1.flags),
                        u && User(e2.flags) && User(e1.flags)))
  }

  datatype Rights = Rights(writable: bool, user: bool)

  const ALL := Rights(true, true)

  /** What one entry lets through. */
  function Pass(r: Rights, flags: nat): Rights { Rights(r.writable && Writable(flags), r.user && User(flags)) }

  /** What the levels above a page let through: `dir` down to its directory, `table` down to its page table. A table
      that is still missing will let everything through, and a huge entry will give way to a table that lets through
      writes, and programs if the entry does. */
  datatype Limits = Limits(dir: Rights, table: Rights)

  function Above(mem: seq<Table>, root: nat, p: Path): Limits {
    var e4 := At(mem, root, p.i);
    if !Present(e4.flags) then Limits(ALL, ALL) else
    var e3 := At(mem, e4.frame, p.j);
    if !Present(e3.flags) then Limits(Pass(ALL, e4.flags), Pass(ALL, e4.flags)) else
    var dir := Pass(Pass(ALL, e4.flags), e3.flags);
    var e2 := At(mem, e3.frame, p.k);
    Limits(dir,
           if !Present(e2.flags) then dir
           else if Huge(e2.flags) then Rights(dir.writable, dir.user && User(e2.flags))
           else Pass(dir, e2.flags))
  }

  /** A page allows what its own entry and the levels above it let through. */
  ghost predicate Allows(m: Option<Mapping>, r: Rights, flags: nat) {
    m.Some? ==> Rights(m.value.writable, m.value.user) == Pass(r, flags)
  }

  lemma RightsOf(mem: seq<Table>, root: nat, p: Path)
    ensures var m := Translate(mem, root, p);
      m.Some? && !Huge(m.value.flags) ==> Allows(m, Above(mem, root, p).table, m.value.flags)
  {
  }

  /** A small page that was mapped is limited by what was above it before. */
  lemma NewRights(mem: seq<Table>, mem': seq<Table>, root: nat, p: Path, e: Entry)
    requires Valid(p) && SameElsewhere(mem, mem', root, p) && LeafIs(Translate(mem', root, p), e) && !Huge(e.flags)
    ensures Allows(Translate(mem', root, p), Above(mem, root, p).table, e.flags)
  {
    RightsOf(mem', root, p);
  }

  /** The page is mapped as before, and a new mapping of it would be limited as before. */
  ghost predicate Alike(mem: seq<Table>, mem': seq<Table>, root: nat, p: Path) {
    Translate(mem', root, p) == Translate(mem, root, p) && Above(mem', root, p) == Above(mem, root, p)
  }

  ghost predicate SameMap(mem: seq<Table>, mem': seq<Table>, root: nat) {
    forall p :: Valid(p) ==>
      Translate(mem', root, p) == Translate(mem, root, p) && Above(mem', root, p) == Above(mem, root, p)
  }

  /** Only page `q` may be mapped otherwise. */
  ghost predicate SameElsewhere(mem: seq<Table>, mem': seq<Table>, root: nat, q: Path) {
    && (forall p :: Valid(p) && p != q ==> Translate(mem', root, p) == Translate(mem, root, p))
    && forall p :: Valid(p) ==> Above(mem', root, p) == Above(mem, root, p)
  }

  // ---- ownership ----

  /** Which range of pages a table is for. */
  datatype Role = Root | L3(i: nat) | L2(i: nat, j: nat) | L1(i: nat, j: nat, k: nat)

  type Owners = map<nat, Role>

  ghost predicate Has(own: Owners, f: nat, r: Role) { f in own && own[f] == r }

  /** The role of the table that entry `x` of a table leads to. */
  function Child(r: Role, x: nat): Role
    requires !r.L1?
  {
    match r
    case Root => L3(x)
    case L3(i) => L2(i, x)
    case L2(i, j) => L1(i, j, x)
  }

  /** An entry of an upper table leads to the frame that has the role for it; only the third level
      has huge entries. */
  ghost predicate Leads(mem: seq<Table>, own: Owners, f: nat, x: nat)
    requires f in own
  {
    var e := At(mem, f, x);
    !Present(e.flags) || own[f].L1? || (own[f].L2? && Huge(e.flags)) || Has(own, e.frame, Child(own[f], x))
  }

  /** The walk for its role gets to the frame. */
  ghost predicate Reached(mem: seq<Table>, root: nat, f: nat, r: Role) {
    match r
    case Root => f == root
    case L3(i) => i < N && Points(At(mem, root, i), f)
    case L2(i, j) =>
      var e4 := At(mem, root, i);
      i < N && j < N && Present(e4.flags) && Points(At(mem, e4.frame, j), f)
    case L1(i, j, k) =>
      var e4 := At(mem, root, i);
      var e3 := At(mem, e4.frame, j);
      var e2 := At(mem, e3.frame, k);
      i < N && j < N && k < N && Present(e4.flags) && Present(e3.flags) && !Huge(e2.flags) && Points(e2, f)
  }

  predicate Points(e: Entry, f: nat) { Present(e.flags) && e.frame == f }

  /** The tables form a tree: every frame has one role and is reached for it, so no two entries
      share a table. */
  ghost predicate Tree(mem: seq<Table>, root: nat, own: Owners) {
    && Has(own, root, Root)
    && (forall f :: f in own ==> f < |mem| && |mem[f]| == N && Reached(mem, root, f, own[f]))
    && forall f, x: nat :: f in own && x < N ==> Leads(mem, own, f, x)
  }

  /** The walk of page `p` reads entry `x` of the table with this role. */
  predicate Through(r: Role, x: nat, p: Path) {
    match r
    case Root => p.i == x
    case L3(i) => p.i == i && p.j == x
    case L2(i, j) => p.i == i && p.j == j && p.k == x
    case L1(i, j, k) => p.i == i && p.j == j && p.k == k && p.l == x
  }

  /** Memory with one table entry replaced. */
  function Put(mem: seq<Table>, f: nat, x: nat, e: Entry): (r: seq<Table>)
    requires f < |mem| && |mem[f]| == N && x < N
    ensures |r| == |mem| && |r[f]| == N && r[f][x] == e && forall g :: 0 <= g < |mem| && g != f ==> r[g] == mem[g]
  {
    mem[f := mem[f][x := e]]
  }

  /** `mem'` agrees with `mem` on the tables of the space except for entry `x` of `f`. */
  ghost predicate DiffersAt(mem: seq<Table>, mem': seq<Table>, own: Owners, f: nat, x: nat) {
    forall g, y: nat :: g in own && y < N && (g != f || y != x) ==> At(mem', g, y) == At(mem, g, y)
  }

  lemma TreeLeads(mem: seq<Table>, root: nat, own: Owners, f: nat, x: nat)
    requires Tree(mem, root, own) && f in own && x < N
    ensures Leads(mem, own, f, x) && f < |mem| && |mem[f]| == N && At(mem, f, x) == mem[f][x]
  {
  }

  /** Pages whose walk does not read the changed entry are mapped as before. */
  lemma Unaffected(mem: seq<Table>, mem': seq<Table>, root: nat, own: Owners, f: nat, x: nat, p: Path)
    requires Tree(mem, root, own) && f in own && Valid(p) && !Through(own[f], x, p) && DiffersAt(mem, mem', own, f, x)
    ensures Alike(mem, mem', root, p)
  {
    var e4 := At(mem, root, p.i);
    TreeLeads(mem, root, own, root, p.i);
    assert At(mem', root, p.i) == e4;
    if Present(e4.flags) {
      var e3 := At(mem, e4.frame, p.j);
      TreeLeads(mem, root, own, e4.frame, p.j);
      assert At(mem', e4.frame, p.j) == e3;
      if Present(e3.flags) {
        var e2 := At(mem, e3.frame, p.k);
        TreeLeads(mem, root, own, e3.frame, p.k);
        assert At(mem', e3.frame, p.k) == e2;
        if Present(e2.flags) && !Huge(e2.flags) {
          assert At(mem', e2.frame, p.l) == At(mem, e2.frame, p.l);
        }
      }
    }
  }

  /** A blank table for an entry that led nowhere. */
  lemma NewTable(mem: seq<Table>, root: nat, own: Owners, f: nat, x: nat, g: nat)
    requires Tree(mem, root, own) && f in own && x < N && !own[f].L1? && !Present(mem[f][x].flags)
    requires g < |mem| && g !in own && mem[g] == BLANK
    ensures var mem' := Put(mem, f, x, Entry(g, PWU));
      Tree(mem', root, own[g := Child(own[f], x)]) && SameMap(mem, mem', root)
  {
    var mem', own' := Put(mem, f, x, Entry(g, PWU)), own[g := Child(own[f], x)];
    NewTree(mem, mem', root, own, own', f, x, g);
    forall p | Valid(p) ensures Alike(mem, mem', root, p) {
      if Through(own[f], x, p) {
        StillNothing(mem, mem', root, own, f, x, g, p);
      } else {
        Unaffected(mem, mem', root, own, f, x, p);
      }
    }
  }

  lemma StillNothing(mem: seq<Table>, mem': seq<Table>, root: nat, own: Owners, f: nat, x: nat, g: nat, p: Path)
    requires Tree(mem, root, own) && f in own && x < N && !own[f].L1? && !Present(mem[f][x].flags)
    requires g < |mem| && g !in own && mem[g] == BLANK && mem' == Put(mem, f, x, Entry(g, PWU)) && Valid(p)
    requires Through(own[f], x, p)
    ensures Translate(mem', root, p) == None == Translate(mem, root, p)
    ensures Above(mem', root, p) == Above(mem, root, p)
  {
    assert Reached(mem, root, f, own[f]);
    match own[f] {
      case Root =>
      case L3(i) => assert root != f;
      case L2(i, j) =>
        assert At(mem', root, i) == At(mem, root, i);
        assert At(mem', At(mem, root, i).frame, j) == At(mem, At(mem, root, i).frame, j);
    }
  }

  /** A table is reached through present entries, so changing another entry keeps it reached. */
  lemma ReachedKept(mem: seq<Table>, mem': seq<Table>, root: nat, own: Owners, f: nat, x: nat, h: nat)
    requires Tree(mem, root, own) && f in own && x < N && h in own
    requires !Present(At(mem, f, x).flags) || own[f].L1? || (own[f].L2? && Huge(At(mem, f, x).flags))
    requires DiffersAt(mem, mem', own, f, x)
    ensures Reached(mem', root, h, own[h])
  {
    assert Reached(mem, root, h, own[h]) && Reached(mem, root, f, own[f]);
    match own[h] {
      case Root =>
      case L3(i) =>
        assert At(mem', root, i) == At(mem, root, i);
      case L2(i, j) =>
        var e4 := At(mem, root, i);
        TreeLeads(mem, root, own, root, i);
        assert At(mem', root, i) == e4 && At(mem', e4.frame, j) == At(mem, e4.frame, j);
      case L1(i, j, k) =>
        var e4 := At(mem, root, i);
        TreeLeads(mem, root, own, root, i);
        var e3 := At(mem, e4.frame, j);
        TreeLeads(mem, root, own, e4.frame, j);
        assert At(mem', root, i) == e4 && At(mem', e4.frame, j) == e3 && At(mem', e3.frame, k) == At(mem, e3.frame, k);
    }
  }

  lemma NewTree(mem: seq<Table>, mem': seq<Table>, root: nat, own: Owners, own': Owners, f: nat, x: nat, g: nat)
    requires Tree(mem, root, own) && f in own && x < N && !own[f].L1? && !Present(mem[f][x].flags)
    requires g < |mem| && g !in own && mem[g] == BLANK
    requires mem' == Put(mem, f, x, Entry(g, PWU)) && own' == own[g := Child(own[f], x)]
    ensures Tree(mem', root, own')
  {
    forall h | h in own' ensures h < |mem'| && |mem'[h]| == N && Reached(mem', root, h, own'[h]) {
      if h in own {
        ReachedKept(mem, mem', root, own, f, x, h);
      } else {
        ReachedNew(mem, mem', root, own, f, x, Entry(g, PWU));
      }
    }
    hide Reached;
    forall h, y: nat | h in own' && y < N ensures Leads(mem', own', h, y) {
      if h in own { assert Leads(mem, own, h, y); }
    }
  }

  /** The new table is reached through its entry. */
  lemma ReachedNew(mem: seq<Table>, mem': seq<Table>, root: nat, own: Owners, f: nat, x: nat, e: Entry)
    requires Tree(mem, root, own) && f in own && x < N && !own[f].L1? && Present(e.flags) && !Huge(e.flags)
    requires !Present(mem[f][x].flags) || (own[f].L2? && Huge(mem[f][x].flags))
    requires mem' == Put(mem, f, x, e)
    ensures Reached(mem', root, e.frame, Child(own[f], x))
  {
    ReachedKept(mem, mem', root, own, f, x, f);
    assert At(mem', f, x) == e;
  }

  // ---- leaves ----

  /** The entry holds no table before and after. */
  ghost predicate LeafEdit(own: Owners, f: nat, was: Entry, e: Entry)
    requires f in own
  {
    own[f].L1? || (own[f].L2? && (!Present(was.flags) || Huge(was.flags)) && (!Present(e.flags) || Huge(e.flags)))
  }

  lemma EditTree(mem: seq<Table>, root: nat, own: Owners, f: nat, x: nat, e: Entry)
    requires Tree(mem, root, own) && f in own && x < N && LeafEdit(own, f, mem[f][x], e)
    ensures Tree(Put(mem, f, x, e), root, own)
  {
    var mem' := Put(mem, f, x, e);
    forall h | h in own ensures h < |mem'| && |mem'[h]| == N && Reached(mem', root, h, own[h]) {
      ReachedKept(mem, mem', root, own, f, x, h);
    }
    hide Reached;
    forall h, y: nat | h in own && y < N ensures Leads(mem', own, h, y) { assert Leads(mem, own, h, y); }
  }

  /** A page-table entry is the leaf of its page, and of no other. */
  lemma EditPage(mem: seq<Table>, root: nat, own: Owners, f: nat, q: Path, e: Entry)
    requires Tree(mem, root, own) && Valid(q) && Has(own, f, L1(q.i, q.j, q.k))
    ensures var mem' := Put(mem, f, q.l, e);
      && Tree(mem', root, own) && SameElsewhere(mem, mem', root, q)
      && LeafIs(Translate(mem', root, q), e)
  {
    var mem' := Put(mem, f, q.l, e);
    EditTree(mem, root, own, f, q.l, e);
    forall p | Valid(p) && p != q ensures Alike(mem, mem', root, p) {
      Unaffected(mem, mem', root, own, f, q.l, p);
    }
    assert Reached(mem, root, f, own[f]) && Reached(mem', root, f, own[f]) && At(mem', f, q.l) == e;
    LimitsKept(mem, mem', root, own, f, q);
  }

  /** Its page table is not above the page. */
  lemma LimitsKept(mem: seq<Table>, mem': seq<Table>, root: nat, own: Owners, f: nat, q: Path)
    requires Tree(mem, root, own) && Valid(q) && Has(own, f, L1(q.i, q.j, q.k)) && DiffersAt(mem, mem', own, f, q.l)
    ensures Above(mem', root, q) == Above(mem, root, q)
  {
    assert Reached(mem, root, f, own[f]);
    var e4 := At(mem, root, q.i);
    TreeLeads(mem, root, own, root, q.i);
    assert At(mem', root, q.i) == e4;
    TreeLeads(mem, root, own, e4.frame, q.j);
    var e3 := At(mem, e4.frame, q.j);
    assert At(mem', e4.frame, q.j) == e3;
    TreeLeads(mem, root, own, e3.frame, q.k);
    assert At(mem', e3.frame, q.k) == At(mem, e3.frame, q.k);
  }

  /** The page has exactly this target and these leaf flags, or none. */
  ghost predicate LeafIs(m: Option<Mapping>, e: Entry) {
    if Present(e.flags) then m.Some? && m.value.frame == e.frame && m.value.flags == e.flags else m.None?
  }

  lemma LeafSome(m: Option<Mapping>, e: Entry)
    requires LeafIs(m, e) && Present(e.flags)
    ensures m.Some?
  {
  }

  /** One of the 512 pages of a huge entry. */
  ghost predicate HugeIn(mem: seq<Table>, mem': seq<Table>, root: nat, p: Path, e: Entry) {
    var m, dir := Translate(mem', root, p), Above(mem, root, p).dir;
    LeafIs(m, Entry(e.frame + p.l, e.flags)) && Allows(m, dir, e.flags) && Above(mem', root, p).dir == dir
  }

  /** A huge entry, or clearing one, decides its 512 pages and no other. */
  lemma EditHuge(mem: seq<Table>, root: nat, own: Owners, f: nat, q: Path, e: Entry)
    requires Tree(mem, root, own) && Valid(q) && Has(own, f, L2(q.i, q.j)) && LeafEdit(own, f, mem[f][q.k], e)
    requires Present(e.flags) ==> e.frame % N == 0
    ensures var mem' := Put(mem, f, q.k, e);
      && Tree(mem', root, own)
      && (forall p :: Valid(p) && !SameHuge(p, q) ==> Alike(mem, mem', root, p))
      && (forall p :: Valid(p) && SameHuge(p, q) ==> HugeIn(mem, mem', root, p, e))
  {
    var mem' := Put(mem, f, q.k, e);
    EditTree(mem, root, own, f, q.k, e);
    forall p | Valid(p) && !SameHuge(p, q) ensures Alike(mem, mem', root, p) {
      Unaffected(mem, mem', root, own, f, q.k, p);
    }
    forall p | Valid(p) && SameHuge(p, q) ensures HugeIn(mem, mem', root, p, e) {
      HugePage(mem, mem', root, own, f, p, e);
    }
  }

  lemma HugePage(mem: seq<Table>, mem': seq<Table>, root: nat, own: Owners, f: nat, p: Path, e: Entry)
    requires Tree(mem, root, own) && Tree(mem', root, own) && Valid(p) && Has(own, f, L2(p.i, p.j))
    requires DiffersAt(mem, mem', own, f, p.k) && At(mem', f, p.k) == e && (!Present(e.flags) || Huge(e.flags))
    requires Present(e.flags) ==> e.frame % N == 0
    ensures HugeIn(mem, mem', root, p, e)
  {
    assert Reached(mem, root, f, own[f]) && Reached(mem', root, f, own[f]);
    var e4 := At(mem, root, p.i);
    TreeLeads(mem, root, own, root, p.i);
    assert At(mem', root, p.i) == e4;
    TreeLeads(mem, root, own, e4.frame, p.j);
    assert At(mem', e4.frame, p.j) == At(mem, e4.frame, p.j);
  }

  /** Pages of one 2 MiB region. */
  predicate SameHuge(p: Path, q: Path) { p.i == q.i && p.j == q.j && p.k == q.k }

  // ---- splitting a huge entry ----

  function SplitTable(e: Entry): (t: Table)
    ensures |t| == N && forall l :: 0 <= l < N ==> t[l] == Entry(e.frame - e.frame % N + l, e.flags)
  {
    seq(N, l requires 0 <= l < N => Entry(e.frame - e.frame % N + l, e.flags))
  }

  function SplitFlags(e: Entry): Flags { 3 + (if User(e.flags) then 4 else 0) }

  /** Replacing a huge entry by a table of its 512 pages changes no page: neither target, nor
      leaf flags, nor what the levels together allow. */
  lemma Split(mem: seq<Table>, root: nat, own: Owners, f: nat, x: nat, g: nat)
    requires Tree(mem, root, own) && f in own && x < N && own[f].L2? && Present(mem[f][x].flags)
    requires Huge(mem[f][x].flags)
    requires g < |mem| && g !in own && mem[g] == SplitTable(mem[f][x])
    ensures var mem' := Put(mem, f, x, Entry(g, SplitFlags(mem[f][x])));
      Tree(mem', root, own[g := Child(own[f], x)]) && SameMap(mem, mem', root)
  {
    var e := Entry(g, SplitFlags(mem[f][x]));
    var mem', own' := Put(mem, f, x, e), own[g := Child(own[f], x)];
    SplitTree(mem, mem', root, own, own', f, x, g);
    forall p | Valid(p) ensures Alike(mem, mem', root, p) {
      if Through(own[f], x, p) {
        SplitSame(mem, mem', root, own, f, x, g, p);
      } else {
        Unaffected(mem, mem', root, own, f, x, p);
      }
    }
  }

  lemma SplitSame(mem: seq<Table>, mem': seq<Table>, root: nat, own: Owners, f: nat, x: nat, g: nat, p: Path)
    requires Tree(mem, root, own) && f in own && x < N && own[f].L2? && Present(mem[f][x].flags)
    requires Huge(mem[f][x].flags)
    requires g < |mem| && g !in own && mem[g] == SplitTable(mem[f][x])
    requires mem' == Put(mem, f, x, Entry(g, SplitFlags(mem[f][x]))) && Valid(p) && Through(own[f], x, p)
    ensures Alike(mem, mem', root, p)
  {
    var i, j := own[f].i, own[f].j;
    assert Reached(mem, root, f, own[f]);
    var e4 := At(mem, root, i);
    TreeLeads(mem, root, own, root, i);
    assert At(mem', root, i) == e4 && At(mem', e4.frame, j) == At(mem, e4.frame, j);
    assert At(mem', f, x) == Entry(g, SplitFlags(mem[f][x]));
    assert At(mem', g, p.l) == SplitTable(mem[f][x])[p.l];
  }

  lemma SplitTree(mem: seq<Table>, mem': seq<Table>, root: nat, own: Owners, own': Owners, f: nat, x: nat, g: nat)
    requires Tree(mem, root, own) && f in own && x < N && own[f].L2? && Present(mem[f][x].flags)
    requires Huge(mem[f][x].flags)
    requires g < |mem| && g !in own && |mem[g]| == N
    requires mem' == Put(mem, f, x, Entry(g, SplitFlags(mem[f][x]))) && own' == own[g := Child(own[f], x)]
    ensures Tree(mem', root, own')
  {
    forall h | h in own' ensures h < |mem'| && |mem'[h]| == N && Reached(mem', root, h, own'[h]) {
      if h in own {
        ReachedKept(mem, mem', root, own, f, x, h);
      } else {
        ReachedNew(mem, mem', root, own, f, x, Entry(g, SplitFlags(mem[f][x])));
      }
    }
    hide Reached;
    forall h, y: nat | h in own' && y < N ensures Leads(mem', own', h, y) {
      if h in own { assert Leads(mem, own, h, y); }
    }
  }

  // ---- frames ----

  /** The table is one the walk of page `p` may use. */
  predicate OnPath(r: Role, p: Path) {
    match r
    case Root => true
    case L3(i) => i == p.i
    case L2(i, j) => i == p.i && j == p.j
    case L1(i, j, k) => i == p.i && j == p.j && k == p.k
  }

  /** Tables may have been added for page `p`, and only tables for it were written. */
  ghost predicate Writes(mem: seq<Table>, mem': seq<Table>, own: Owners, own': Owners, p: Path) {
    && |mem'| == |mem|
    && (forall f :: f in own ==> f in own' && own'[f] == own[f])
    && (forall f :: f in own' && f !in own ==> OnPath(own'[f], p))
    && forall f :: 0 <= f < |mem| && mem'[f] != mem[f] ==> f in own' && OnPath(own'[f], p)
  }

  lemma WritesOn(mem: seq<Table>, mem1: seq<Table>, mem2: seq<Table>, own: Owners, own1: Owners, own2: Owners, p: Path)
    requires Writes(mem, mem1, own, own1, p) && Writes(mem1, mem2, own1, own2, p)
    ensures Writes(mem, mem2, own, own2, p) && own.Keys <= own1.Keys <= own2.Keys
    ensures own2.Keys - own.Keys == (own1.Keys - own.Keys) + (own2.Keys - own1.Keys)
  {
  }

  lemma SameOn(mem: seq<Table>, mem1: seq<Table>, mem2: seq<Table>, root: nat)
    requires SameMap(mem, mem1, root) && SameMap(mem1, mem2, root)
    ensures SameMap(mem, mem2, root)
  {
  }

  /** Blanking a frame outside the space does not matter to it. */
  lemma BlankKeeps(mem: seq<Table>, root: nat, own: Owners, g: nat)
    requires Tree(mem, root, own) && g < |mem| && g !in own
    ensures Tree(mem[g := BLANK], root, own) && SameMap(mem, mem[g := BLANK], root)
  {
    OutsidePut(mem, root, own, g, BLANK);
  }

  lemma OutsidePut(mem: seq<Table>, root: nat, own: Owners, g: nat, t: Table)
    requires Tree(mem, root, own) && g < |mem| && g !in own
    ensures Tree(mem[g := t], root, own) && SameMap(mem, mem[g := t], root)
  {
    OutsideKeeps(mem, mem[g := t], root, own);
  }

  lemma OutsideKeeps(mem: seq<Table>, mem': seq<Table>, root: nat, own: Owners)
    requires Tree(mem, root, own) && |mem'| == |mem| && forall f :: f in own ==> mem'[f] == mem[f]
    ensures Tree(mem', root, own) && SameMap(mem, mem', root)
  {
    assert DiffersAt(mem, mem', own, root, N);
    forall p | Valid(p)
      ensures Alike(mem, mem', root, p)
    {
      Unaffected(mem, mem', root, own, root, N, p);
    }
    forall f | f in own ensures Reached(mem', root, f, own[f]) { ReachedSame(mem, mem', root, own, f); }
    hide Reached;
    forall f, x: nat | f in own && x < N ensures Leads(mem', own, f, x) { assert Leads(mem, own, f, x); }
  }

  lemma ReachedSame(mem: seq<Table>, mem': seq<Table>, root: nat, own: Owners, h: nat)
    requires Tree(mem, root, own) && h in own && |mem'| == |mem| && forall f :: f in own ==> mem'[f] == mem[f]
    ensures Reached(mem', root, h, own[h])
  {
    assert Reached(mem, root, h, own[h]);
    match own[h] {
      case Root =>
      case L3(i) => TreeLeads(mem, root, own, root, i);
      case L2(i, j) => TreeLeads(mem, root, own, root, i);
      case L1(i, j, k) =>
        TreeLeads(mem, root, own, root, i);
        TreeLeads(mem, root, own, At(mem, root, i).frame, j);
    }
  }

  /** A blank table added below entry `x` of `f`. */
  lemma AddTable(mem: seq<Table>, root: nat, own: Owners, f: nat, x: nat, g: nat, p: Path)
    requires Tree(mem, root, own) && f in own && x < N && !own[f].L1? && !Present(At(mem, f, x).flags)
    requires OnPath(own[f], p) && OnPath(Child(own[f], x), p) && g < |mem| && g !in own
    ensures f < |mem| && |mem[f]| == N && f != g
    ensures var mem', own' := Put(mem[g := BLANK], f, x, Entry(g, PWU)), own[g := Child(own[f], x)];
      Tree(mem', root, own') && SameMap(mem, mem', root) && Writes(mem, mem', own, own', p)
  {
    var mem1 := mem[g := BLANK];
    BlankKeeps(mem, root, own, g);
    NewTable(mem1, root, own, f, x, g);
    SameOn(mem, mem1, Put(mem1, f, x, Entry(g, PWU)), root);
    hide Tree, SameMap;
  }

  /** A huge entry replaced by a table of its pages. */
  lemma AddSplit(mem: seq<Table>, root: nat, own: Owners, f: nat, x: nat, g: nat, p: Path)
    requires Tree(mem, root, own) && f in own && x < N && own[f].L2? && Present(At(mem, f, x).flags)
    requires Huge(At(mem, f, x).flags)
    requires OnPath(own[f], p) && OnPath(Child(own[f], x), p) && g < |mem| && g !in own
    ensures f < |mem| && |mem[f]| == N && f != g
    ensures var e := mem[f][x];
      var mem', own' := Put(mem[g := SplitTable(e)], f, x, Entry(g, SplitFlags(e))), own[g := Child(own[f], x)];
      Tree(mem', root, own') && SameMap(mem, mem', root) && Writes(mem, mem', own, own', p)
  {
    var e := mem[f][x];
    var mem1 := mem[g := SplitTable(e)];
    OutsideKeeps(mem, mem1, root, own);
    Split(mem1, root, own, f, x, g);
    SameOn(mem, mem1, Put(mem1, f, x, Entry(g, SplitFlags(e))), root);
    hide Tree, SameMap, SplitTable;
  }

  /** The 2 MiB region of page `p` has a table of single pages. */
  ghost predicate HasTable(own: Owners, p: Path) { exists g :: Has(own, g, L1(p.i, p.j, p.k)) }

  lemma NoTableAdded(mem: seq<Table>, mem1: seq<Table>, mem2: seq<Table>, own: Owners, own1: Owners, own2: Owners,
                     p: Path)
    requires Writes(mem, mem1, own, own1, p) && Writes(mem1, mem2, own1, own2, p)
    requires (forall h :: h in own1 && h !in own ==> own1[h].L3?) && forall h :: h in own2 && h !in own1 ==> own2[h].L2?
    ensures HasTable(own2, p) <==> HasTable(own, p)
  {
    if g :| Has(own, g, L1(p.i, p.j, p.k)) { assert Has(own2, g, L1(p.i, p.j, p.k)); }
    if g :| Has(own2, g, L1(p.i, p.j, p.k)) { assert Has(own, g, L1(p.i, p.j, p.k)); }
  }

  /** That is so exactly when the directory entry leads to a table. */
  lemma TableThere(mem: seq<Table>, root: nat, own: Owners, pd: nat, p: Path)
    requires Tree(mem, root, own) && Valid(p) && Has(own, pd, L2(p.i, p.j))
    ensures pd < |mem| && |mem[pd]| == N
    ensures HasTable(own, p) <==> Present(mem[pd][p.k].flags) && !Huge(mem[pd][p.k].flags)
  {
    assert Reached(mem, root, pd, L2(p.i, p.j));
    TreeLeads(mem, root, own, pd, p.k);
    if g :| Has(own, g, L1(p.i, p.j, p.k)) {
      assert Reached(mem, root, g, L1(p.i, p.j, p.k));
    }
  }

  lemma TreeSizes(mem: seq<Table>, root: nat, own: Owners, f: nat)
    requires Tree(mem, root, own) && f in own
    ensures f < |mem| && |mem[f]| == N && Has(own, root, Root)
  {
  }

  lemma TreeRoot(mem: seq<Table>, root: nat, own: Owners)
    requires Tree(mem, root, own)
    ensures root < |mem| && |mem[root]| == N && Has(own, root, Root)
  {
  }

  lemma NoWrites(mem: seq<Table>, root: nat, own: Owners, p: Path)
    ensures Writes(mem, mem, own, own, p) && SameMap(mem, mem, root)
  {
  }

  /** Writing an entry of a table for page `p`. */
  lemma PutWrites(mem: seq<Table>, own: Owners, f: nat, x: nat, e: Entry, p: Path)
    requires f in own && OnPath(own[f], p) && f < |mem| && |mem[f]| == N && x < N
    ensures Writes(mem, Put(mem, f, x, e), own, own, p)
  {
  }

  lemma WritesKeep(mem: seq<Table>, mem': seq<Table>, own: Owners, own': Owners, p: Path, f: nat)
    requires Writes(mem, mem', own, own', p)
    ensures own.Keys <= own'.Keys && (f in own ==> f in own' && own'[f] == own[f])
  {
  }

  lemma ElseOn(mem: seq<Table>, mem1: seq<Table>, mem2: seq<Table>, root: nat, q: Path)
    requires SameMap(mem, mem1, root) && SameElsewhere(mem1, mem2, root, q)
    ensures SameElsewhere(mem, mem2, root, q)
  {
  }

  /** The 512 pages of the region have the entry's target, in order, and its flags; no other
      page changed. */
  ghost predicate HugeSet(mem: seq<Table>, mem': seq<Table>, root: nat, q: Path, e: Entry) {
    && (forall p :: Valid(p) && !SameHuge(p, q) ==> Alike(mem, mem', root, p))
    && (forall p :: Valid(p) && SameHuge(p, q) ==> HugeIn(mem, mem', root, p, e))
  }

  lemma HugeIs(mem: seq<Table>, mem': seq<Table>, root: nat, q: Path, e: Entry)
    requires forall p :: Valid(p) && !SameHuge(p, q) ==> Alike(mem, mem', root, p)
    requires forall p :: Valid(p) && SameHuge(p, q) ==> HugeIn(mem, mem', root, p, e)
    ensures HugeSet(mem, mem', root, q, e)
  {
  }

  lemma HugeOn(mem: seq<Table>, mem1: seq<Table>, mem2: seq<Table>, root: nat, q: Path, e: Entry)
    requires SameMap(mem, mem1, root) && HugeSet(mem1, mem2, root, q, e)
    ensures HugeSet(mem, mem2, root, q, e)
  {
    hide LeafIs, Translate;
  }

  /** The walk of the page ends at a huge entry. */
  predicate HugeAt(mem: seq<Table>, root: nat, p: Path) {
    var e4 := At(mem, root, p.i);
    var e3 := At(mem, e4.frame, p.j);
    var e2 := At(mem, e3.frame, p.k);
    Present(e4.flags) && Present(e3.flags) && Present(e2.flags) && Huge(e2.flags)
  }

  lemma SameElse(mem: seq<Table>, root: nat, q: Path)
    ensures SameElsewhere(mem, mem, root, q)
  {
  }
}
