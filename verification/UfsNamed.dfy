/** Which inodes in use have a name, over whole runs. */
module UfsNamed {
  import opened Words
  import opened Wrappers
  import opened Extents
  import opened UfsBooks
  import opened UfsFiles
  import opened UfsDir
  import opened UfsSpec
  import opened UfsTree
  import opened UfsRuns
  import opened UfsLimits
  import Ufs

  ghost predicate HasName(v: Vol, ino: nat) {
    exists b: nat, j: nat :: Names(v.own, v.data, v.view, b, j) && Target(v.data, b, j) == ino
  }

  /** Every inode in use but the root has a name. */
  ghost predicate EveryNamed(v: Vol) {
    |v.view| == INODES && forall i :: 1 <= i < INODES && v.view[i].mode != 0 ==> HasName(v, i + 1)
  }

  /** The request takes an inode, and then the directory has no place for the entry. */
  ghost predicate Orphans(op: Op, v: Vol, start: nat)
    requires |v.view| == INODES
  {
    match op
    case MakeFile(dir, name, mode) =>
      var d := DirAt(v, dir);
      && d.Some? && Lookup(v.data, v.view, d.value, name).None? && !AllLive(v.view)
      && !Takes(v.data, v.bits, start, v.view[d.value - 1])
    case MakeDir(dir, name, mode) =>
      var d := DirAt(v, dir);
      var nb := LowestFree(v.bits, start);
      && d.Some? && Lookup(v.data, v.view, d.value, name).None? && !AllLive(v.view) && nb < |v.bits|
      && !Takes(v.data, v.bits[nb := true], start, v.view[d.value - 1])
    case _ => false
  }

  // ---- used slots of a directory ----

  ghost predicate UsedAt(v: Vol, k: int, b: nat, j: nat) {
    b < |v.own| == |v.data| && v.own[b] == k + 1 && |v.data[b]| == BLOCK && j < PER_BLOCK
    && EntryIno(Slot(v.data[b], j)) != 0
  }

  ghost function UsedBy(v: Vol, k: int): set<(nat, nat)> {
    set b: nat, j: nat | b < |v.own| && j < PER_BLOCK && UsedAt(v, k, b, j) :: (b, j)
  }

  /** Slot `j` of block `b` is the place of "." or of ".." in a directory that starts with block `first`. */
  predicate DotPlace(first: nat, b: nat, j: nat) { b == first && j < 2 }

  /** A directory starts with its dots, has no others, and its size counts its used slots. */
  ghost predicate DirOk(v: Vol, k: nat)
    requires k < |v.view|
  {
    IsDir(v.view[k].mode) ==>
      && Blocks(v.view[k].extents) != []
      && var first := Blocks(v.view[k].extents)[0];
      && UsedAt(v, k, first, 0) && EntryName(Slot(v.data[first], 0)) == DOT
      && UsedAt(v, k, first, 1) && EntryName(Slot(v.data[first], 1)) == DOTS
      && (forall b: nat, j: nat :: UsedAt(v, k, b, j) && !DotPlace(first, b, j) ==> Names(v.own, v.data, v.view, b, j))
      && v.view[k].size == ENTRY * |UsedBy(v, k)|
  }

  ghost predicate AllDirs(v: Vol) { |v.view| == INODES && forall k :: 0 <= k < INODES ==> DirOk(v, k) }

  // ---- counting ----

  ghost function Upto(n: nat): (r: set<nat>)
    ensures |r| == n && forall x: nat :: x in r <==> x < n
  {
    if n == 0 then {} else Upto(n - 1) + {n - 1}
  }

  lemma {:induction false} Smaller<T>(a: set<T>, b: set<T>)
    requires a <= b
    ensures |a| <= |b|
    decreases |a|
  {
    if a != {} {
      var x :| x in a;
      Smaller(a - {x}, b - {x});
    }
  }

  lemma {:induction false} OneToOne(m: map<(nat, nat), nat>)
    requires forall p, q :: p in m && q in m && m[p] == m[q] ==> p == q
    ensures |m.Keys| <= |m.Values|
    decreases |m.Keys|
  {
    if m.Keys != {} {
      var p :| p in m;
      var r := m - {p};
      assert r.Keys == m.Keys - {p};
      assert m[p] !in r.Values && r.Values + {m[p]} <= m.Values;
      OneToOne(r);
      Smaller(r.Values + {m[p]}, m.Values);
    }
  }

  /** Different entries name different inodes, so there are not many. */
  lemma FewNames(v: Vol, slots: set<(nat, nat)>)
    requires Tree(v.own, v.data, v.view) && forall p :: p in slots ==> Names(v.own, v.data, v.view, p.0, p.1)
    ensures |slots| <= INODES + 1
  {
    hide EntryIno, EntryName, Slot, IsDir;
    var m := map p | p in slots :: Target(v.data, p.0, p.1);
    forall p, q | p in m && q in m && m[p] == m[q] ensures p == q {
      assert Names(v.own, v.data, v.view, p.0, p.1) && Names(v.own, v.data, v.view, q.0, q.1);
    }
    OneToOne(m);
    assert m.Keys == slots;
    forall x | x in m.Values ensures x in Upto(INODES + 1) {
      var p :| p in m && m[p] == x;
      assert Names(v.own, v.data, v.view, p.0, p.1);
    }
    Smaller(m.Values, Upto(INODES + 1));
  }

  lemma UsedBound(v: Vol, k: nat)
    requires Tree(v.own, v.data, v.view) && k < INODES && IsDir(v.view[k].mode) && DirOk(v, k)
    ensures |UsedBy(v, k)| <= INODES + 3
  {
    TreeShape(v.own, v.data, v.view);
    hide Blocks, EntryIno, EntryName, Slot, Tree, IsDir, Names;
    var first := Blocks(v.view[k].extents)[0];
    var dots := {(first, 0), (first, 1)};
    var rest := UsedBy(v, k) - dots;
    forall p | p in rest ensures Names(v.own, v.data, v.view, p.0, p.1) {
      assert UsedAt(v, k, p.0, p.1) && !DotPlace(first, p.0, p.1);
    }
    FewNames(v, rest);
    assert UsedBy(v, k) <= rest + dots;
    Smaller(UsedBy(v, k), rest + dots);
  }

  // ---- directories that did not change ----

  ghost predicate SameDir(v: Vol, v': Vol, k: int)
    requires |v.view| == |v'.view| == INODES && 0 <= k < INODES
  {
    && v'.view[k] == v.view[k] && |v'.own| == |v.own| == |v.data| == |v'.data|
    && forall b: nat :: b < |v.own| ==>
      (v'.own[b] == k + 1 <==> v.own[b] == k + 1) && (v.own[b] == k + 1 ==> v'.data[b] == v.data[b])
  }

  lemma DirKept(v: Vol, v': Vol, k: nat)
    requires |v.view| == |v'.view| == INODES && k < INODES && SameDir(v, v', k) && DirOk(v, k)
    ensures DirOk(v', k)
  {
    hide EntryIno, EntryName, Slot, Blocks;
    if IsDir(v.view[k].mode) {
      assert forall b: nat, j: nat :: UsedAt(v', k, b, j) <==> UsedAt(v, k, b, j);
      assert UsedBy(v', k) == UsedBy(v, k);
    }
  }

  /** Directories on both sides are the same ones, unchanged. */
  ghost predicate SameDirs(v: Vol, v': Vol) {
    && |v.view| == |v'.view| == INODES
    && forall k :: 0 <= k < INODES && (IsDir(v.view[k].mode) || IsDir(v'.view[k].mode)) ==> SameDir(v, v', k)
  }

  lemma DirsKept(v: Vol, v': Vol)
    requires SameDirs(v, v') && |v'.own| == |v.own| == |v.data| == |v'.data|
    ensures AllDirs(v) ==> AllDirs(v')
    ensures forall s: nat :: HasName(v', s) <==> HasName(v, s)
  {
    hide EntryIno, EntryName, Slot, Blocks, IsDir;
    if AllDirs(v) {
      forall k | 0 <= k < INODES ensures DirOk(v', k) {
        assert DirOk(v, k);
        if IsDir(v'.view[k].mode) { DirKept(v, v', k); }
      }
    }
    forall b: nat, j: nat
      ensures Names(v'.own, v'.data, v'.view, b, j) <==> Names(v.own, v.data, v.view, b, j)
    {
      NameKept(v, v', b, j);
    }
    forall b: nat, j: nat | Names(v.own, v.data, v.view, b, j)
      ensures Target(v'.data, b, j) == Target(v.data, b, j)
    {
      NameKept(v, v', b, j);
    }
    hide Names, Target;
    forall s: nat ensures HasName(v', s) <==> HasName(v, s) { }
  }

  lemma NameKept(v: Vol, v': Vol, b: nat, j: nat)
    requires SameDirs(v, v') && |v'.own| == |v.own| == |v.data| == |v'.data|
    ensures Names(v'.own, v'.data, v'.view, b, j) <==> Names(v.own, v.data, v.view, b, j)
    ensures Names(v.own, v.data, v.view, b, j) ==> Target(v'.data, b, j) == Target(v.data, b, j)
  {
    hide EntryIno, EntryName, Slot, IsDir;
    if b < |v.own| && 0 < v.own[b] <= INODES && IsDir(v.view[v.own[b] - 1].mode) {
      assert SameDir(v, v', v.own[b] - 1);
    }
    if b < |v.own| && 0 < v'.own[b] <= INODES && IsDir(v'.view[v'.own[b] - 1].mode) {
      assert SameDir(v, v', v'.own[b] - 1);
    }
  }

  // ---- an entry more ----

  /** "." and ".." are found, so no second one is made. */
  lemma DotsFound(v: Vol, k: nat)
    requires Owns(v.own, v.view) && |v.own| == |v.data| && Sized(v.data) && k < INODES && IsDir(v.view[k].mode)
    requires DirOk(v, k)
    ensures Lookup(v.data, v.view, k + 1, DOT).Some? && Lookup(v.data, v.view, k + 1, DOTS).Some?
    ensures v.view[k].size >= 2 * ENTRY
  {
    var n, first := v.view[k], Blocks(v.view[k].extents)[0];
    OwnStored(v.own, v.view, v.data, k);
    assert {(first, 0), (first, 1)} <= UsedBy(v, k);
    Smaller({(first, 0), (first, 1)}, UsedBy(v, k));
    FirstSlots(v, k, DOT, 0);
    FirstSlots(v, k, DOTS, 1);
  }

  lemma FirstSlots(v: Vol, k: nat, name: seq<byte>, j: nat)
    requires |v.view| == INODES && k < INODES && Stored(v.data, Blocks(v.view[k].extents))
    requires Blocks(v.view[k].extents) != [] && j < 2
    requires v.view[k].size > 0 && Fits(Slot(v.data[Blocks(v.view[k].extents)[0]], j), Named(name))
    ensures Lookup(v.data, v.view, k + 1, name).Some?
  {
    hide Blocks, Flat, Fits, Slot, EntryIno, Visible, FirstSlot;
    FoundEarly(v.data, v.view[k], Named(name), j);
  }

  /** A slot of the first block that fits is found, or one before it. */
  lemma FoundEarly(data: seq<seq<byte>>, n: Inode, want: Want, j: nat)
    requires Stored(data, Blocks(n.extents)) && Blocks(n.extents) != [] && j < PER_BLOCK && n.size > 0
    requires Fits(Slot(data[Blocks(n.extents)[0]], j), want)
    ensures Found(data, n, want) <= j < Visible(n)
  {
    hide Blocks, Flat, Fits, Slot;
    VisibleFits(data, n);
    SlotInBlock(data, Blocks(n.extents), 0, j);
    assert BlocksSeen(n) >= 1;
    assert Visible(n) >= PER_BLOCK;
  }

  lemma AppendFirst(es: seq<Extent>, b: nat)
    requires Shaped(es) && Append(es, b).Some? && Blocks(es) != []
    ensures Blocks(Append(es, b).value) != [] && Blocks(Append(es, b).value)[0] == Blocks(es)[0]
  {
    AppendInserts(es, b);
    assert Place(es, b) > 0;
  }

  /** The slots of directory `k + 1` after an entry was added to it. */
  lemma UsedMore(v: Vol, v': Vol, k: nat, b: nat, j: nat, ino: nat, name: seq<byte>)
    requires |v.own| == |v.data| && Entered(v.own, v'.own, v.data, v'.data, k, b, j, ino, name) && ino != 0
    ensures !UsedAt(v, k, b, j) && UsedAt(v', k, b, j) && UsedBy(v', k) == UsedBy(v, k) + {(b, j)}
    ensures |UsedBy(v', k)| == |UsedBy(v, k)| + 1
    ensures forall c: nat, i: nat :: UsedAt(v', k, c, i) && (c != b || i != j) ==>
      UsedAt(v, k, c, i) && Slot(v'.data[c], i) == Slot(v.data[c], i)
    ensures forall c: nat, i: nat :: UsedAt(v, k, c, i) ==>
      UsedAt(v', k, c, i) && Slot(v'.data[c], i) == Slot(v.data[c], i)
  {
    hide EntryIno, EntryName, Slot, StoredName;
    forall c: nat, i: nat | UsedAt(v', k, c, i) && (c != b || i != j)
      ensures UsedAt(v, k, c, i) && Slot(v'.data[c], i) == Slot(v.data[c], i)
    {
      if c != b { assert v'.data[c] == v.data[c] && v'.own[c] == v.own[c]; }
    }
    forall c: nat, i: nat | UsedAt(v, k, c, i)
      ensures UsedAt(v', k, c, i) && Slot(v'.data[c], i) == Slot(v.data[c], i)
    {
      if c != b { assert v'.data[c] == v.data[c] && v'.own[c] == v.own[c]; }
    }
    assert UsedBy(v', k) == UsedBy(v, k) + {(b, j)};
  }

  /** The directory is still in order. */
  lemma ListedDir(v: Vol, v': Vol, start: nat, k: nat, b: nat, j: nat, ino: nat, name: seq<byte>)
    requires |v.own| == |v.data| && Tree(v.own, v.data, v.view) && Owns(v.own, v.view)
    requires k < INODES && IsDir(v.view[k].mode) && DirOk(v, k) && ino != 0 && name != DOT && name != DOTS
    requires Listed(v.own, v.data, v.view, v'.own, v'.data, v'.view, k, b, j, ino, name)
    requires Spot(v.data, v.bits, start, v.view[k], v'.view[k].extents, b, j)
    ensures DirOk(v', k)
  {
    hide EntryIno, EntryName, Slot, Blocks, IsDir, Owns, Tree, Append, LowestFree, HasFree, At, Found;
    UsedBound(v, k);
    UsedMore(v, v', k, b, j, ino, name);
    OwnsOne(v.own, v.view, k);
    if v'.view[k].extents != v.view[k].extents { AppendFirst(v.view[k].extents, b); }
    var first := Blocks(v.view[k].extents)[0];
    NotDots(name);
    forall c: nat, i: nat | UsedAt(v', k, c, i) && !DotPlace(first, c, i)
      ensures Names(v'.own, v'.data, v'.view, c, i)
    {
      if c != b || i != j { assert UsedAt(v, k, c, i) && Names(v.own, v.data, v.view, c, i); }
    }
  }

  lemma NotDots(name: seq<byte>)
    requires name != DOT && name != DOTS
    ensures StoredName(name) != DOT && StoredName(name) != DOTS
  {
    if |name| >= NAME { assert |StoredName(name)| == NAME - 1; }
  }

  /** And the inode has a name more. */
  lemma ListedNames(v: Vol, v': Vol, k: nat, b: nat, j: nat, ino: nat, name: seq<byte>)
    requires |v.own| == |v.data| && |v.view| == INODES && k < INODES && IsDir(v.view[k].mode) && ino != 0
    requires name != DOT && name != DOTS
    requires Listed(v.own, v.data, v.view, v'.own, v'.data, v'.view, k, b, j, ino, name)
    ensures forall s: nat :: HasName(v', s) <==> HasName(v, s) || s == ino
  {
    hide EntryIno, EntryName, Slot, Blocks, IsDir;
    NotDots(name);
    assert Names(v'.own, v'.data, v'.view, b, j) && Target(v'.data, b, j) == ino;
    forall c: nat, i: nat | c != b || i != j
      ensures Names(v'.own, v'.data, v'.view, c, i) <==> Names(v.own, v.data, v.view, c, i)
      ensures Names(v.own, v.data, v.view, c, i) ==> Target(v'.data, c, i) == Target(v.data, c, i)
    {
      if c < |v.own| && c != b { assert v'.data[c] == v.data[c] && v'.own[c] == v.own[c]; }
    }
    assert !Names(v.own, v.data, v.view, b, j);
    hide Names, Target;
    forall s: nat ensures HasName(v', s) <==> HasName(v, s) || s == ino { }
  }

  lemma ListedDirs(v: Vol, v': Vol, start: nat, k: nat, b: nat, j: nat, ino: nat, name: seq<byte>)
    requires |v.own| == |v.data| && Tree(v.own, v.data, v.view) && Owns(v.own, v.view) && AllDirs(v)
    requires k < INODES && IsDir(v.view[k].mode) && ino != 0 && name != DOT && name != DOTS
    requires Listed(v.own, v.data, v.view, v'.own, v'.data, v'.view, k, b, j, ino, name)
    requires Spot(v.data, v.bits, start, v.view[k], v'.view[k].extents, b, j)
    ensures AllDirs(v')
  {
    hide EntryIno, EntryName, Slot, Blocks, IsDir, Owns, Tree, DirOk, Spot;
    forall i | 0 <= i < INODES ensures DirOk(v', i) {
      if i == k {
        ListedDir(v, v', start, k, b, j, ino, name);
      } else {
        DirKept(v, v', i);
      }
    }
  }

  // ---- an entry less ----

  /** A directory that is not busy has nothing but its dots. */
  lemma NotBusy(v: Vol, k: nat)
    requires Owns(v.own, v.view) && |v.own| == |v.data| && Sized(v.data) && k < INODES && DirOk(v, k)
    requires !Busy(v.data, v.view[k])
    ensures forall b: nat, j: nat :: Names(v.own, v.data, v.view, b, j) ==> v.own[b] != k + 1
  {
    hide EntryIno, EntryName, Slot, Owns, Blocks, Found, Visible, Stored;
    OwnsOne(v.own, v.view, k);
    var n := v.view[k];
    forall b: nat, j: nat | Names(v.own, v.data, v.view, b, j) && v.own[b] == k + 1 ensures false {
      var first := Blocks(n.extents)[0];
      OwnStored(v.own, v.view, v.data, k);
      var three := {(first, 0), (first, 1), (b, j)};
      assert UsedAt(v, k, b, j) && !(b == first && j < 2);
      assert three <= UsedBy(v, k) && |three| == 3;
      Smaller(three, UsedBy(v, k));
      FoundEarly(v.data, n, AnyEntry, 0);
    }
  }

  /** The slots of directory `k + 1` after an entry of it was cleared. */
  lemma UsedLess(v: Vol, v': Vol, k: nat, t: nat, b: nat, j: nat, name: seq<byte>)
    requires |v.own| == |v.data| && Freed(v.own, v'.own, t - 1) && k + 1 != t && 0 < t
    requires Struck(v'.own, v.data, v'.data, k, b, j, name)
    ensures UsedAt(v, k, b, j) && !UsedAt(v', k, b, j) && UsedBy(v', k) == UsedBy(v, k) - {(b, j)}
    ensures |UsedBy(v', k)| == |UsedBy(v, k)| - 1
    ensures forall c: nat, i: nat :: c != b || i != j ==> (UsedAt(v', k, c, i) <==> UsedAt(v, k, c, i))
    ensures forall c: nat, i: nat :: UsedAt(v', k, c, i) ==> Slot(v'.data[c], i) == Slot(v.data[c], i)
  {
    hide EntryIno, EntryName, Slot;
    forall c: nat, i: nat | c != b || i != j
      ensures UsedAt(v', k, c, i) <==> UsedAt(v, k, c, i)
      ensures UsedAt(v', k, c, i) ==> Slot(v'.data[c], i) == Slot(v.data[c], i)
    {
      if c < |v.own| && c != b { assert v'.data[c] == v.data[c]; }
    }
    assert UsedBy(v', k) == UsedBy(v, k) - {(b, j)};
  }

  lemma StruckDir(v: Vol, v': Vol, k: nat, t: nat, b: nat, j: nat, name: seq<byte>)
    requires |v.own| == |v.data| && Tree(v.own, v.data, v.view) && 0 < t <= INODES && k < INODES && k + 1 != t
    requires IsDir(v.view[k].mode)
    requires DirOk(v, k) && name != DOT && name != DOTS && Freed(v.own, v'.own, t - 1)
    requires Unlisted(v'.own, v.data, v.view[t - 1 := NO_INODE], v'.data, v'.view, k, b, j, name)
    ensures DirOk(v', k)
  {
    hide EntryIno, EntryName, Slot, Blocks, IsDir, Tree;
    UsedBound(v, k);
    UsedLess(v, v', k, t, b, j, name);
    var first := Blocks(v.view[k].extents)[0];
    assert EntryName(Slot(v.data[b], j)) == name;
    assert !DotPlace(first, b, j);
    forall c: nat, i: nat | UsedAt(v', k, c, i) && !DotPlace(first, c, i)
      ensures Names(v'.own, v'.data, v'.view, c, i)
    {
      assert UsedAt(v, k, c, i) && Names(v.own, v.data, v.view, c, i);
    }
  }

  lemma StruckDirs(v: Vol, v': Vol, k: nat, t: nat, b: nat, j: nat, name: seq<byte>)
    requires |v.own| == |v.data| && Tree(v.own, v.data, v.view) && 0 < t <= INODES && k < INODES && k + 1 != t
    requires IsDir(v.view[k].mode)
    requires AllDirs(v) && name != DOT && name != DOTS && Freed(v.own, v'.own, t - 1)
    requires Unlisted(v'.own, v.data, v.view[t - 1 := NO_INODE], v'.data, v'.view, k, b, j, name)
    ensures AllDirs(v')
  {
    hide EntryIno, EntryName, Slot, Blocks, Tree, DirOk;
    forall i | 0 <= i < INODES ensures DirOk(v', i) {
      if i == k {
        StruckDir(v, v', k, t, b, j, name);
      } else if i == t - 1 {
        NoDir(v', i);
      } else {
        DirKept(v, v', i);
      }
    }
  }

  lemma NoDir(v: Vol, k: nat)
    requires k < |v.view| && v.view[k].mode == 0
    ensures DirOk(v, k)
  {
  }

  lemma StruckNames(v: Vol, v': Vol, k: nat, t: nat, b: nat, j: nat, name: seq<byte>)
    requires |v.own| == |v.data| && Tree(v.own, v.data, v.view) && 0 < t <= INODES && k < INODES && k + 1 != t
    requires IsDir(v.view[k].mode)
    requires name != DOT && name != DOTS && Freed(v.own, v'.own, t - 1)
    requires Unlisted(v'.own, v.data, v.view[t - 1 := NO_INODE], v'.data, v'.view, k, b, j, name)
    requires EntryIno(Slot(v.data[b], j)) == t
    requires forall c: nat, i: nat :: Names(v.own, v.data, v.view, c, i) ==> v.own[c] != t
    ensures HasName(v, t) && forall s: nat :: HasName(v', s) <==> HasName(v, s) && s != t
  {
    hide EntryIno, EntryName, Slot;
    assert Names(v.own, v.data, v.view, b, j) && Target(v.data, b, j) == t;
    forall c: nat, i: nat
      ensures Names(v'.own, v'.data, v'.view, c, i) <==> Names(v.own, v.data, v.view, c, i) && (c != b || i != j)
    {
      if c < |v.own| && c != b { assert v'.data[c] == v.data[c]; }
    }
    forall c: nat, i: nat | Names(v'.own, v'.data, v'.view, c, i)
      ensures Target(v'.data, c, i) == Target(v.data, c, i)
    {
      if c != b { assert v'.data[c] == v.data[c]; }
    }
    hide Names, Target;
    forall s: nat ensures HasName(v', s) <==> HasName(v, s) && s != t { }
  }

  // ---- requests ----

  lemma SameNames(v: Vol, v': Vol)
    requires Unchanged(v, v') && |v.view| == INODES && |v.own| == |v.data|
    ensures (AllDirs(v) ==> AllDirs(v')) && (EveryNamed(v') <==> EveryNamed(v))
  {
    hide EntryIno, EntryName, Slot, Blocks, DirOk, HasName;
    DirsKept(v, v');
  }

  /** One more inode is in use: all have names if all had, and it has one. */
  lemma OneMore(v: Vol, v': Vol, ino: nat)
    requires |v.view| == |v'.view| == INODES && 1 < ino <= INODES && v.view[ino - 1].mode == 0 && !HasName(v, ino)
    requires forall i :: 0 <= i < INODES ==> (v'.view[i].mode != 0 <==> v.view[i].mode != 0 || i == ino - 1)
    requires forall s: nat :: s != ino ==> (HasName(v', s) <==> HasName(v, s))
    ensures EveryNamed(v') <==> EveryNamed(v) && HasName(v', ino)
  {
    hide HasName;
  }

  lemma NoBlocksOf(v: Vol, k: nat)
    requires Owns(v.own, v.view) && DeadEmpty(v.view) && k < INODES && v.view[k].mode == 0
    ensures forall b :: 0 <= b < |v.own| ==> v.own[b] != k + 1
  {
    OwnsOne(v.own, v.view, k);
    hide Blocks;
  }

  /** An inode that was not in use becomes a file: it has no name. */
  lemma FileHasNone(v: Vol, v': Vol, i: nat, mode: nat, start: nat)
    requires TidyVol(v, start) && AllDirs(v) && i < INODES && v.view[i].mode == 0
    requires v'.view == v.view[i := FileInode(mode)] && v'.own == v.own && Spared(v.own, v.data, v'.data, -1)
    ensures AllDirs(v') && (forall s: nat :: HasName(v', s) <==> HasName(v, s)) && !HasName(v', i + 1) && i != 0
  {
    NoBlocksOf(v, i);
    TreeBirth(v.own, v.data, v.view, i, FileInode(mode));
    hide Tree, DirOk, EntryIno, EntryName, Slot, Blocks;
    var w := Vol(v.own, v.data, v'.view, v.bits);
    assert SameDirs(v, w) && SameDirs(w, v');
    DirsKept(v, w);
    DirsKept(w, v');
    NoName(w, i + 1);
  }

  lemma NoName(v: Vol, ino: nat)
    requires Unnamed(v.own, v.data, v.view, ino)
    ensures !HasName(v, ino)
  {
  }

  /** What a new file does to the names. */
  lemma FileNames(v: Vol, v': Vol, start: nat, dir: nat, name: Name, mode: nat, r: int, ino: nat, b: nat, j: nat)
    requires TidyVol(v, start) && AllDirs(v) && FileStep(v, v', start, dir, name, mode, r, ino, b, j)
    requires IsDir(v.view[dir - 1].mode) && Lookup(v.data, v.view, dir, name).None?
    ensures AllDirs(v') && (EveryNamed(v') <==> EveryNamed(v) && r == 0)
    ensures (r == 0 <==> Takes(v.data, v.bits, start, v.view[dir - 1]))
  {
    hide Tree, DirOk, EntryIno, EntryName, Slot, Blocks, Takes, Listed, Spot, HasName, Lookup, Spared;
    var w := Vol(v.own, v.data, v.view[ino - 1 := FileInode(mode)], v.bits);
    assert Spared(v.own, v.data, v.data, -1) by { SparedSelf(v.own, v.data); }
    FileHasNone(v, w, ino - 1, mode, start);
    DotsFound(v, dir - 1);
    assert !HasName(v, ino);
    if r == 0 {
      TreeBorn(v, w, ino - 1, start, FileInode(mode));
      ListedDirs(w, v', start, dir - 1, b, j, ino, name);
      ListedNames(w, v', dir - 1, b, j, ino, name);
      ListedView(w.own, w.data, w.view, v'.own, v'.data, v'.view, dir - 1, b, j, ino, name);
    } else {
      FileHasNone(v, v', ino - 1, mode, start);
    }
    OneMore(v, v', ino);
  }

  lemma SparedSelf(own: seq<int>, data: seq<seq<byte>>)
    requires |own| == |data|
    ensures Spared(own, data, data, -1)
  {
  }

  /** Such a volume is still a tree with owners. */
  lemma TreeBorn(v: Vol, w: Vol, i: nat, start: nat, n: Inode)
    requires TidyVol(v, start) && i < INODES && v.view[i].mode == 0 && n.mode != 0 && n.extents == NO_EXTENTS
    requires w == Vol(v.own, v.data, v.view[i := n], v.bits)
    ensures Tree(w.own, w.data, w.view) && Owns(w.own, w.view)
  {
    NoBlocksOf(v, i);
    TreeBirth(v.own, v.data, v.view, i, n);
    OwnsBorn(v.own, v.view, i, n);
    hide Tree;
  }

  lemma OwnsBorn(own: seq<int>, view: seq<Inode>, i: nat, n: Inode)
    requires Owns(own, view) && i < INODES && n.extents == NO_EXTENTS && forall b :: 0 <= b < |own| ==> own[b] != i + 1
    ensures Owns(own, view[i := n])
  {
    NoBlocks();
    var w := view[i := n];
    forall j | 0 <= j < INODES ensures OwnsAt(own, w, j) { assert OwnsAt(own, view, j); }
  }

  /** A new directory: its dots are no names. */
  lemma DirHasNone(v: Vol, w: Vol, ino: nat, dir: nat, mode: nat, nb: nat, start: nat)
    requires TidyVol(v, start) && AllDirs(v) && 0 < dir <= INODES
    requires DirMade(v.own, v.data, v.view, w.own, w.data, w.view, ino, dir, mode, nb)
    ensures |w.view| == INODES && AllDirs(w)
    ensures (forall s: nat :: HasName(w, s) <==> HasName(v, s)) && !HasName(w, ino) && 1 < ino
  {
    NoBlocksOf(v, ino - 1);
    TreeMade(v.own, v.data, v.view, w.own, w.data, w.view, ino, dir, mode, nb);
    hide Tree, DirOk, EntryIno, EntryName, Slot, Blocks, DotsOnly;
    forall k | 0 <= k < INODES ensures DirOk(w, k) {
      if k == ino - 1 {
        NewDirOk(w, ino, dir, mode, nb);
      } else {
        DirKept(v, w, k);
      }
    }
    MadeNames(v, w, ino, dir, mode, nb);
    NoName(w, ino);
  }

  lemma NewDirOk(w: Vol, ino: nat, dir: nat, mode: nat, nb: nat)
    requires |w.view| == INODES && 0 < ino <= INODES && 0 < dir
    requires w.view[ino - 1] == DirInode(mode).(extents := OneBlock(nb))
    requires nb < |w.own| == |w.data| && DotsOnly(w.data[nb], ino, dir)
    requires forall b: nat :: b < |w.own| ==> (w.own[b] == ino <==> b == nb)
    ensures DirOk(w, ino - 1)
  {
    assert Blocks(OneBlock(nb)) == [nb] by { FirstAppend(nb); NoBlocks(); AppendInserts(NO_EXTENTS, nb); }
    hide Blocks, EntryIno, EntryName, Slot;
    var k := ino - 1;
    forall b: nat, j: nat ensures UsedAt(w, k, b, j) <==> b == nb && j < 2 { }
    assert UsedBy(w, k) == {(nb, 0), (nb, 1)};
  }

  lemma MadeNames(v: Vol, w: Vol, ino: nat, dir: nat, mode: nat, nb: nat)
    requires |v.own| == |v.data| && (forall b :: 0 <= b < |v.own| ==> v.own[b] != ino)
    requires DirMade(v.own, v.data, v.view, w.own, w.data, w.view, ino, dir, mode, nb)
    ensures forall s: nat :: HasName(w, s) <==> HasName(v, s)
  {
    hide EntryIno, EntryName, Slot, OneBlock, DirInode;
    forall c: nat, i: nat
      ensures Names(w.own, w.data, w.view, c, i) <==> Names(v.own, v.data, v.view, c, i)
      ensures Names(v.own, v.data, v.view, c, i) ==> Target(w.data, c, i) == Target(v.data, c, i)
    {
      if c < |v.own| && c != nb { assert w.data[c] == v.data[c] && w.own[c] == v.own[c]; }
    }
    hide Names, Target;
    forall s: nat ensures HasName(w, s) <==> HasName(v, s) { }
  }

  lemma OwnsMade(v: Vol, w: Vol, ino: nat, dir: nat, mode: nat, nb: nat)
    requires Owns(v.own, v.view) && DirMade(v.own, v.data, v.view, w.own, w.data, w.view, ino, dir, mode, nb)
    requires forall b :: 0 <= b < |v.own| ==> v.own[b] != ino
    ensures Owns(w.own, w.view)
  {
    hide Owns, DotsOnly;
    var own1, view1 := v.own[nb := PENDING], v.view[ino - 1 := DirInode(mode)];
    OwnsMove(v.own, v.view, nb, PENDING);
    OwnsBorn(own1, v.view, ino - 1, DirInode(mode));
    FirstAppend(nb);
    OwnsAttach(own1, view1, ino - 1, w.view[ino - 1], nb);
    assert own1[nb := ino] == w.own && view1[ino - 1 := w.view[ino - 1]] == w.view;
  }

  /** The parent has its blocks as before. */
  lemma ParentSame(v: Vol, w: Vol, ino: nat, dir: nat, mode: nat, nb: nat)
    requires Owns(v.own, v.view) && |v.own| == |v.data| && Sized(v.data) && 0 < dir <= INODES
    requires v.view[dir - 1].mode != 0
    requires DirMade(v.own, v.data, v.view, w.own, w.data, w.view, ino, dir, mode, nb)
    ensures |w.view| == INODES && w.view[dir - 1] == v.view[dir - 1]
    ensures HasFree(w.data, v.view[dir - 1]) <==> HasFree(v.data, v.view[dir - 1])
  {
    OwnStored(v.own, v.view, v.data, dir - 1);
    OwnsOne(v.own, v.view, dir - 1);
    var bs := Blocks(v.view[dir - 1].extents);
    hide Owns, DotsOnly, Blocks, Flat, OneBlock;
    forall i | 0 <= i < |bs| ensures w.data[bs[i]] == v.data[bs[i]] { assert bs[i] in bs; }
    FlatSame(v.data, w.data, bs);
  }

  /** What a new directory does to the names. */
  lemma DirNames(v: Vol, v': Vol, start: nat, dir: nat, name: Name, mode: nat, r: int, ino: nat, nb: nat, w: Vol,
                 b: nat, j: nat)
    requires TidyVol(v, start) && AllDirs(v) && DirStep(v, v', start, dir, name, mode, r, ino, nb, w, b, j)
    requires IsDir(v.view[dir - 1].mode) && Lookup(v.data, v.view, dir, name).None?
    ensures AllDirs(v') && (EveryNamed(v') <==> EveryNamed(v) && r == 0)
    ensures r == 0 <==> Takes(v.data, v.bits[nb := true], start, v.view[dir - 1])
  {
    hide Tree, AllDirs, TidyVol, DirStep, Listed, Spot, HasName, HasFree, NoRoom, Owns, Spared, Lookup, DirMade,
      EveryNamed, IsDir;
    DirStepIs(v, v', start, dir, name, mode, r, ino, nb, w, b, j);
    DirPrepared(v, w, start, dir, name, mode, ino, nb);
    if r == 0 {
      ListedDirs(w, v', start, dir - 1, b, j, ino, name);
      ListedNames(w, v', dir - 1, b, j, ino, name);
      ListedView(w.own, w.data, w.view, v'.own, v'.data, v'.view, dir - 1, b, j, ino, name);
    } else {
      SparedDirs(w, v');
    }
    OneMore(v, v', ino);
  }

  lemma DirStepIs(v: Vol, v': Vol, start: nat, dir: nat, name: Name, mode: nat, r: int, ino: nat, nb: nat, w: Vol,
                  b: nat, j: nat)
    requires DirStep(v, v', start, dir, name, mode, r, ino, nb, w, b, j)
    ensures DirMade(v.own, v.data, v.view, w.own, w.data, w.view, ino, dir, mode, nb)
    ensures |v.view| == |w.view| == |v'.view| == INODES && 0 < dir <= INODES && nb < |v.bits|
    ensures w.bits == v.bits[nb := true]
    ensures 0 < ino <= INODES && v.view[ino - 1].mode == 0 && w.view == v.view[ino - 1 := w.view[ino - 1]]
    ensures w.view[ino - 1].mode != 0
    ensures r == if HasFree(w.data, w.view[dir - 1]) || !NoRoom(w.bits, start, w.view[dir - 1].extents) then 0 else -1
    ensures r == 0 ==>
      && Listed(w.own, w.data, w.view, v'.own, v'.data, v'.view, dir - 1, b, j, ino, name)
      && Spot(w.data, w.bits, start, w.view[dir - 1], v'.view[dir - 1].extents, b, j)
    ensures r == -1 ==> v'.view == w.view && v'.own == w.own && Spared(w.own, w.data, v'.data, -1)
  {
    hide HasFree, NoRoom, Listed, Spot, Spared, DotsOnly, OneBlock;
  }

  /** The volume between the two halves of making a directory. */
  lemma DirPrepared(v: Vol, w: Vol, start: nat, dir: nat, name: Name, mode: nat, ino: nat, nb: nat)
    requires TidyVol(v, start) && AllDirs(v) && 0 < dir <= INODES && IsDir(v.view[dir - 1].mode)
    requires Lookup(v.data, v.view, dir, name).None?
    requires DirMade(v.own, v.data, v.view, w.own, w.data, w.view, ino, dir, mode, nb)
    ensures AllDirs(w) && forall s: nat :: HasName(w, s) <==> HasName(v, s)
    ensures !HasName(v, ino) && 1 < ino <= INODES && |w.view| == INODES
    ensures Tree(w.own, w.data, w.view) && Owns(w.own, w.view) && |w.own| == |w.data|
    ensures w.view[dir - 1] == v.view[dir - 1]
    ensures (HasFree(w.data, v.view[dir - 1]) <==> HasFree(v.data, v.view[dir - 1])) && name != DOT && name != DOTS
  {
    DotsFound(v, dir - 1);
    NoBlocksOf(v, ino - 1);
    DirHasNone(v, w, ino, dir, mode, nb, start);
    ParentSame(v, w, ino, dir, mode, nb);
    TreeMade(v.own, v.data, v.view, w.own, w.data, w.view, ino, dir, mode, nb);
    OwnsMade(v, w, ino, dir, mode, nb);
    hide Tree, DirOk, EntryIno, EntryName, Slot, Blocks, HasFree, HasName, Lookup, DotsOnly, Owns;
  }

  lemma SparedDirs(v: Vol, v': Vol)
    requires |v.view| == INODES && |v.own| == |v.data| && v'.view == v.view && v'.own == v.own
    requires Spared(v.own, v.data, v'.data, -1)
    ensures (AllDirs(v) ==> AllDirs(v')) && forall s: nat :: HasName(v', s) <==> HasName(v, s)
  {
    hide DirOk, HasName;
    DirsKept(v, v');
  }

  /** A removal takes the name and the inode. */
  lemma RemoveNames(v: Vol, v': Vol, start: nat, dir: nat, name: Name, t: nat, b: nat, j: nat)
    requires TidyVol(v, start) && AllDirs(v) && RemoveStep(v, v', dir, name, t, b, j) && IsDir(v.view[dir - 1].mode)
    requires name != DOT && name != DOTS && !Busy(v.data, v.view[t - 1])
    ensures AllDirs(v') && (EveryNamed(v') <==> EveryNamed(v))
  {
    hide Tree, EntryIno, EntryName, Slot, Blocks, HasName, Owns, Struck, Freed, Busy, DirOk;
    TreeShape(v.own, v.data, v.view);
    NotBusy(v, t - 1);
    StruckDirs(v, v', dir - 1, t, b, j, name);
    StruckNames(v, v', dir - 1, t, b, j, name);
    assert forall i :: 0 <= i < INODES ==> (v'.view[i].mode != 0 <==> v.view[i].mode != 0 && i != t - 1);
  }

  /** A write changes no directory. */
  lemma WriteNames(v: Vol, v': Vol, start: nat, ino: nat, bytes: seq<byte>, offset: nat, w: nat)
    requires TidyVol(v, start) && AllDirs(v) && 0 < ino <= INODES && !IsDir(v.view[ino - 1].mode)
    requires PutFile(v.own, v.data, v.view, v.bits, v'.own, v'.data, v'.view, start, ino - 1, offset, bytes, w)
    ensures AllDirs(v') && (EveryNamed(v') <==> EveryNamed(v))
  {
    hide Tree, DirOk, HasName, Gets, Written, Blocks, Covered, Orderly, Replaced, Owns;
    assert SameDirs(v, v');
    DirsKept(v, v');
    assert forall i :: 0 <= i < INODES ==> (v'.view[i].mode != 0 <==> v.view[i].mode != 0);
  }

  // ---- runs ----

  /** One request: all inodes in use have names if they had, and it does not leave one without. */
  lemma StepNames(op: Op, v: Vol, v': Vol, start: nat, r: int)
    requires TidyVol(v, start) && AllDirs(v) && Proper(op) && Did(op, v, v', start, r)
    ensures AllDirs(v') && (EveryNamed(v') <==> EveryNamed(v) && !Orphans(op, v, start))
  {
    hide TidyVol, AllDirs, EveryNamed, FileMade, MadeDirectory, Removed, WroteTo, Walk, Takes, Lookup, AllLive,
      LowestFree, IsDir, Unchanged;
    TidyFacts(v, start);
    match op {
      case MakeFile(dir, name, mode) =>
        if DirAt(v, dir).None? {
          SameNames(v, v');
        } else {
          FileCase(v, v', start, DirAt(v, dir).value, name, mode, r);
        }
      case MakeDir(dir, name, mode) =>
        if DirAt(v, dir).None? { SameNames(v, v'); } else { DirCase(v, v', start, DirAt(v, dir).value, name, mode, r); }
      case Remove(dir, name) =>
        if DirAt(v, dir).None? { SameNames(v, v'); } else { RemoveCase(v, v', start, DirAt(v, dir).value, name, r); }
      case WriteFile(path, bytes, back) =>
        var f := Walk(v.data, v.view, [1], path);
        if f.None? {
          SameNames(v, v');
        } else {
          var size := v.view[f.value - 1].size;
          WriteCase(v, v', start, f.value, bytes, if back < size then size - back else 0, r);
        }
      case Mounted => SameNames(v, v');
    }
  }

  lemma TidyFacts(v: Vol, start: nat)
    requires TidyVol(v, start)
    ensures |v.own| == |v.data| && |v.view| == INODES
  {
    TreeShape(v.own, v.data, v.view);
    hide Tree, Owns;
  }

  lemma FileCase(v: Vol, v': Vol, start: nat, dir: nat, name: Name, mode: nat, r: int)
    requires TidyVol(v, start) && AllDirs(v) && |v.view| == INODES && 0 < dir <= INODES && IsDir(v.view[dir - 1].mode)
    requires FileMade(v, v', start, dir, name, mode, r)
    ensures var orphan := Lookup(v.data, v.view, dir,
                                 name).None? && !AllLive(v.view) && !Takes(v.data, v.bits, start, v.view[dir - 1]);
      AllDirs(v') && (EveryNamed(v') <==> EveryNamed(v) && !orphan)
  {
    hide TidyVol, AllDirs, EveryNamed, FileStep, Takes, Lookup, AllLive, IsDir, Unchanged;
    TidyFacts(v, start);
    if Lookup(v.data, v.view, dir, name).Some? || AllLive(v.view) {
      SameNames(v, v');
    } else {
      var ino, b, j :| FileStep(v, v', start, dir, name, mode, r, ino, b, j);
      FileNames(v, v', start, dir, name, mode, r, ino, b, j);
    }
  }

  lemma DirCase(v: Vol, v': Vol, start: nat, dir: nat, name: Name, mode: nat, r: int)
    requires TidyVol(v, start) && AllDirs(v) && |v.view| == |v'.view| == INODES && 0 < dir <= INODES
    requires IsDir(v.view[dir - 1].mode)
    requires MadeDirectory(v, v', start, dir, name, mode, r)
    ensures var nb := LowestFree(v.bits, start);
      var orphan :=
        && Lookup(v.data, v.view, dir, name).None? && !AllLive(v.view) && nb < |v.bits|
        && !Takes(v.data, v.bits[nb := true], start, v.view[dir - 1]);
      AllDirs(v') && (EveryNamed(v') <==> EveryNamed(v) && !orphan)
  {
    hide TidyVol, AllDirs, EveryNamed, DirStep, Takes, Lookup, AllLive, IsDir, LowestFree, SameLive;
    TidyFacts(v, start);
    var nb := LowestFree(v.bits, start);
    if Lookup(v.data, v.view, dir, name).Some? || AllLive(v.view) || nb == |v.bits| {
      LiveNames(v, v');
    } else {
      var ino, at, w, b, j :| DirStep(v, v', start, dir, name, mode, r, ino, at, w, b, j);
      assert at == nb by { DirStepAt(v, v', start, dir, name, mode, r, ino, at, w, b, j); }
      DirNames(v, v', start, dir, name, mode, r, ino, at, w, b, j);
    }
  }

  lemma DirStepAt(v: Vol, v': Vol, start: nat, dir: nat, name: Name, mode: nat, r: int, ino: nat, nb: nat, w: Vol,
                  b: nat, j: nat)
    requires DirStep(v, v', start, dir, name, mode, r, ino, nb, w, b, j)
    ensures nb == LowestFree(v.bits, start)
  {
  }

  /** Only inodes that were not in use changed, and they are still not in use. */
  lemma LiveNames(v: Vol, v': Vol)
    requires |v.own| == |v.data| && |v.view| == INODES && v'.data == v.data && v'.own == v.own
    requires SameLive(v.view, v'.view)
    ensures (AllDirs(v) ==> AllDirs(v')) && (EveryNamed(v') <==> EveryNamed(v))
  {
    hide DirOk, HasName;
    assert SameDirs(v, v');
    DirsKept(v, v');
  }

  lemma RemoveCase(v: Vol, v': Vol, start: nat, dir: nat, name: Name, r: int)
    requires TidyVol(v, start) && AllDirs(v) && |v.view| == INODES && 0 < dir <= INODES && IsDir(v.view[dir - 1].mode)
    requires name != DOT && name != DOTS && Removed(v, v', dir, name, r)
    ensures AllDirs(v') && (EveryNamed(v') <==> EveryNamed(v))
  {
    hide TidyVol, AllDirs, EveryNamed, RemoveStep, Lookup, IsDir, Busy, Unchanged, Slot, EntryIno;
    TidyFacts(v, start);
    var t := Lookup(v.data, v.view, dir, name);
    if t.None? || Busy(v.data, v.view[t.value - 1]) {
      SameNames(v, v');
    } else {
      var b, j :| RemoveStep(v, v', dir, name, t.value, b, j);
      RemoveNames(v, v', start, dir, name, t.value, b, j);
    }
  }

  lemma WriteCase(v: Vol, v': Vol, start: nat, ino: nat, bytes: seq<byte>, offset: nat, r: int)
    requires TidyVol(v, start) && AllDirs(v) && WroteTo(v, v', start, ino, bytes, offset, r)
    ensures AllDirs(v') && (EveryNamed(v') <==> EveryNamed(v))
  {
    hide TidyVol, AllDirs, EveryNamed, PutFile, IsDir, Unchanged;
    TidyFacts(v, start);
    if IsDir(v.view[ino - 1].mode) {
      SameNames(v, v');
    } else {
      var w: nat :|
        r == AsInt(w) && PutFile(v.own, v.data, v.view, v.bits, v'.own, v'.data, v'.view, start, ino - 1, offset,
                   bytes, w);
      WriteNames(v, v', start, ino, bytes, offset, w);
    }
  }

  /** Whole runs: every inode in use has a name exactly when none was left without one on the way. */
  lemma {:induction false} RunNames(ops: seq<Op>, rs: seq<int>, vols: seq<Vol>, start: nat, n: nat)
    requires Trace(ops, rs, vols, start)
    requires (forall i :: 0 <= i < |ops| ==> Proper(ops[i])) && AllDirs(vols[0]) && n <= |ops|
    ensures AllDirs(vols[n])
    ensures forall i :: 0 <= i < n ==> |vols[i].view| == INODES
    ensures EveryNamed(vols[n]) <==> EveryNamed(vols[0]) && forall i :: 0 <= i < n ==> !Orphans(ops[i], vols[i], start)
  {
    hide AllDirs, EveryNamed, Orphans, Did, TidyVol;
    if n > 0 {
      RunNames(ops, rs, vols, start, n - 1);
      TidyFacts(vols[n - 1], start);
      assert Did(ops[n - 1], vols[n - 1], vols[n - 1 + 1], start, rs[n - 1]);
      StepNames(ops[n - 1], vols[n - 1], vols[n], start, rs[n - 1]);
    }
  }

  /** A new volume has only its root. */
  lemma NewNamed(v: Vol, start: nat)
    requires Formatted(v.own, v.data, v.view, v.bits, start)
    ensures AllDirs(v) && EveryNamed(v)
  {
    hide DotsOnly, OneBlock, DirInode, HasName, DirOk;
    NewDirOk(v, 1, 1, 0x1ED, start);
    forall k | 1 <= k < INODES ensures DirOk(v, k) { NoDir(v, k); }
  }

  /** From format on: every inode in use has a name exactly when no request took an inode for which its directory then
      had no place. */
  method FormatAndRun(m: Ufs.Mount, ops: seq<Op>) returns (rs: seq<int>, ghost vols: seq<Vol>)
    requires m.Shape() && 10 < m.dataStart < m.total < TWO_32 && forall i :: 0 <= i < |ops| ==> Proper(ops[i])
    modifies m
    ensures Tidy(m) && Trace(ops, rs, vols, m.dataStart) && vols[|ops|] == Snap(m)
    ensures forall i :: 0 <= i < |ops| ==> |vols[i].view| == INODES
    ensures EveryNamed(Snap(m)) <==> forall i :: 0 <= i < |ops| ==> !Orphans(ops[i], vols[i], m.dataStart)
  {
    hide Tree, AllCovered, Did, AllDirs, EveryNamed, Orphans, Formatted, Trace;
    var ok := NewVolume(m);
    NewNamed(Snap(m), m.dataStart);
    rs, vols := RunAll(m, ops);
    RunNames(ops, rs, vols, m.dataStart, |ops|);
  }

  // ---- a file without a name ----

  /** On a volume with one data block, the root has room for 62 files. One more is created, gets no name, and stays. */
  method NamelessFile(m: Ufs.Mount) returns (r: int, ghost ino: nat)
    requires m.Shape() && 10 < m.dataStart && m.dataStart + 1 == m.total < TWO_32
    modifies m
    ensures m.Valid() && r == -1 && 1 < ino <= INODES && m.inodes[ino - 1].mode != 0 && !HasName(Snap(m), ino)
  {
    hide Stage, DeadEmpty, NameOf, Takes, Listed, Spot, Clean, Unused, AllLive, Lookup, HasName, LowestFree, Typed;
    FillRoot(m);
    ghost var v := Snap(m);
    Crammed(v, m.dataStart);
    ghost var b, j;
    r, ino, b, j := m.Create(1, NameOf(FILES), 0);
    NotNamed(v, Snap(m), m.dataStart, ino);
  }

  /** The root is full and no block is free. */
  lemma Crammed(v: Vol, start: nat)
    requires Stage(v.own, v.data, v.view, start, FILES) && Marks(v.own, v.bits, start) && |v.bits| == start + 1
    ensures Lookup(v.data, v.view, 1, NameOf(FILES)).None? && !AllLive(v.view) && v.view[0].mode != 0
    ensures !Takes(v.data, v.bits, start, v.view[0])
  {
    StageScan(v.own, v.data, v.view, start, FILES);
    StageRoot(v.own, v.data, v.view, start, FILES);
    StageOwn(v.own, v.data, v.view, start, FILES);
    hide Stage, Lookup, HasFree, NameOf, AllLive;
    assert LowestFree(v.bits, start) == |v.bits|;
  }

  lemma NotNamed(v: Vol, v': Vol, start: nat, ino: nat)
    requires Stage(v.own, v.data, v.view, start, FILES) && Marks(v.own, v.bits, start) && |v.bits| == start + 1
    requires 1 < ino <= INODES && v.view[ino - 1].mode == 0 && v'.own == v.own && Spared(v.own, v.data, v'.data, -1)
    requires v'.view == v.view[ino - 1 := FileInode(0)]
    ensures !HasName(v', ino)
  {
    hide EntryIno, EntryName, Slot, OneBlock, Clear;
    forall b: nat, j: nat | Names(v'.own, v'.data, v'.view, b, j) ensures Target(v'.data, b, j) != ino {
      assert b == start && v'.data[b] == v.data[b];
      assert j >= 2;
    }
  }
}
