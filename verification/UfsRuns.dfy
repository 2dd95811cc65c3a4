/** Requests to a mounted volume, by path, and what whole runs of them keep. */
module UfsRuns {
  import opened Words
  import opened Wrappers
  import opened Extents
  import opened UfsBooks
  import opened UfsFiles
  import opened UfsDir
  import opened UfsSpec
  import opened UfsTree
  import opened Ufs

  type Name = s: seq<byte> | 0 !in s witness []

  /** Requests give a path to a directory and a name in it, or a path to a file. Writes give a distance
      back from the end of the file, at most to its start. */
  datatype Op = MakeFile(dir: seq<Name>, name: Name, mode: nat) | MakeDir(dir: seq<Name>, name: Name, mode: nat)
              | Remove(dir: seq<Name>, name: Name) | WriteFile(path: seq<Name>, bytes: seq<byte>, back: nat) | Mounted

  /** What a caller must see to: "." and ".." are not removed. */
  predicate Proper(op: Op) { op.Remove? ==> op.name != DOT && op.name != DOTS }

  /** The volume is consistent, files have no holes, and every entry but the dots names an inode in use, which no other
      entry names. */
  ghost predicate Tidy(m: Mount)
    reads m
  {
    m.Valid() && AllCovered(m.inodes) && Tree(m.own, m.data, m.inodes)
  }

  /** A volume at one moment. */
  datatype Vol = Vol(own: seq<int>, data: seq<seq<byte>>, view: seq<Inode>, bits: seq<bool>)

  ghost function Snap(m: Mount): Vol
    requires m.Shape()
    reads m
  {
    Vol(m.own, m.data, m.inodes, m.Bits())
  }

  /** What holds of a volume between requests. */
  ghost predicate TidyVol(v: Vol, start: nat) {
    && Owns(v.own, v.view) && |v.own| == |v.data| && Sized(v.data) && Marks(v.own, v.bits, start)
    && DeadEmpty(v.view) && Settled(v.own) && Tree(v.own, v.data, v.view)
  }

  lemma TidySnap(m: Mount)
    requires Tidy(m)
    ensures TidyVol(Snap(m), m.dataStart)
  {
    hide Tree, AllCovered, Owns, DeadEmpty;
  }

  // ---- paths ----

  /** The inodes passed on the way, after one more name; ".." goes back along the way. */
  ghost function Step(data: seq<seq<byte>>, view: seq<Inode>, trail: seq<nat>, name: Name): (r: Option<seq<nat>>)
    requires |view| == INODES && trail != [] && forall i :: 0 <= i < |trail| ==> 0 < trail[i] <= INODES
    ensures r.Some? ==> r.value != [] && forall i :: 0 <= i < |r.value| ==> 0 < r.value[i] <= INODES
  {
    var here := trail[|trail| - 1];
    if name == DOT then Some(trail)
    else if name == DOTS then Some(if |trail| > 1 then trail[..|trail| - 1] else trail)
    else if !IsDir(view[here - 1].mode) then None
    else match Lookup(data, view, here, name)
      case None => None
      case Some(t) => if t == 0 || t > INODES then None else Some(trail + [t])
  }

  /** The inode a path leads to. */
  ghost function Walk(data: seq<seq<byte>>, view: seq<Inode>, trail: seq<nat>, path: seq<Name>): Option<nat>
    requires |view| == INODES && trail != [] && forall i :: 0 <= i < |trail| ==> 0 < trail[i] <= INODES
    decreases |path|
  {
    if path == [] then Some(trail[|trail| - 1])
    else match Step(data, view, trail, path[0])
      case None => None
      case Some(t) => Walk(data, view, t, path[1..])
  }

  /** The entry a lookup finds. */
  lemma Looked(own: seq<int>, data: seq<seq<byte>>, view: seq<Inode>, dir: nat, name: seq<byte>)
      returns (b: nat, j: nat)
    requires Owns(own, view) && |own| == |data| && Sized(data) && Lookup(data, view, dir, name).Some?
    ensures 0 < dir <= INODES && Stored(data, Blocks(view[dir - 1].extents))
    ensures At(view[dir - 1], Found(data, view[dir - 1], Named(name)), b, j) && b < |own| && own[b] == dir
    ensures j < PER_BLOCK
    ensures Fits(Slot(data[b], j), Named(name)) && Lookup(data, view, dir, name) == Some(EntryIno(Slot(data[b], j)))
  {
    var n := view[dir - 1];
    var bs, e := Blocks(n.extents), Found(data, n, Named(name));
    OwnsOne(own, view, dir - 1);
    VisibleFits(data, n);
    hide Blocks, Flat, EntryIno, EntryName, Slot;
    assert e < PER_BLOCK * |bs|;
    b, j := bs[e / PER_BLOCK], e % PER_BLOCK;
    assert b in bs;
    SlotInBlock(data, bs, e / PER_BLOCK, j);
    assert SlotsIn(e / PER_BLOCK) + j == e;
  }

  /** Without removed dots a lookup only finds inodes in use. */
  lemma LookedLive(own: seq<int>, data: seq<seq<byte>>, view: seq<Inode>, dir: nat, name: seq<byte>)
    requires Owns(own, view) && Sized(data) && Tree(own, data, view) && 0 < dir <= INODES && IsDir(view[dir - 1].mode)
    requires name != DOT && name != DOTS && Lookup(data, view, dir, name).Some?
    ensures var t := Lookup(data, view, dir, name).value; 1 < t <= INODES && view[t - 1].mode != 0 && t != dir
  {
    hide EntryIno, EntryName, Slot, Blocks, Lookup, Found, At;
    var b, j := Looked(own, data, view, dir, name);
    assert Names(own, data, view, b, j);
  }

  method Resolve(m: Mount, path: seq<Name>) returns (r: Option<nat>)
    requires Tidy(m)
    modifies m`blkBuf
    ensures r == Walk(m.data, m.inodes, [1], path)
    ensures r.Some? ==> 0 < r.value <= INODES && m.inodes[r.value - 1].mode != 0
  {
    hide Walk, Good, Tree, AllCovered, DeadEmpty, Settled, Step;
    var trail, i := [1], 0;
    assert path[0..] == path;
    TreeShape(m.own, m.data, m.inodes);
    while i < |path|
      invariant 0 <= i <= |path| && OnTrail(m.inodes, trail)
      invariant Walk(m.data, m.inodes, [1], path) == Walk(m.data, m.inodes, trail, path[i..])
    {
      WalkNext(m.data, m.inodes, trail, path, i);
      var t := TakeStep(m, trail, path[i]);
      if t.None? {
        return None;
      }
      trail, i := t.value, i + 1;
    }
    WalkEnd(m.data, m.inodes, trail, path);
    return Some(trail[|trail| - 1]);
  }

  ghost predicate OnTrail(view: seq<Inode>, trail: seq<nat>) {
    |view| == INODES && trail != [] && forall x :: 0 <= x < |trail| ==> 0 < trail[x] <= INODES && view[trail[x] - 1].mode != 0
  }

  method TakeStep(m: Mount, trail: seq<nat>, name: Name) returns (r: Option<seq<nat>>)
    requires Tidy(m) && OnTrail(m.inodes, trail)
    modifies m`blkBuf
    ensures r == Step(m.data, m.inodes, trail, name) && (r.Some? ==> OnTrail(m.inodes, r.value))
  {
    hide Good, Laid, Tree, Lookup, AllCovered, DeadEmpty, Settled, OnTrail;
    TrailEnd(m.inodes, trail);
    var here, t := trail[|trail| - 1], None;
    if name != DOT && name != DOTS && IsDir(m.inodes[here - 1].mode) {
      t := LookIn(m, here, name);
    }
    r := if name == DOT then Some(trail)
         else if name == DOTS then Some(if |trail| > 1 then trail[..|trail| - 1] else trail)
         else if t.None? then None else Some(trail + [t.value]);
    StepIs(m.data, m.inodes, trail, name, t, r);
  }

  lemma TrailEnd(view: seq<Inode>, trail: seq<nat>)
    requires OnTrail(view, trail)
    ensures |view| == INODES && trail != [] && 0 < trail[|trail| - 1] <= INODES
  {
  }

  lemma StepIs(data: seq<seq<byte>>, view: seq<Inode>, trail: seq<nat>, name: Name, t: Option<nat>, r: Option<seq<nat>>)
    requires OnTrail(view, trail)
    requires var here := trail[|trail| - 1];
      t == if name != DOT && name != DOTS && IsDir(view[here - 1].mode) then Lookup(data, view, here, name) else None
    requires t.Some? ==> 0 < t.value <= INODES && view[t.value - 1].mode != 0
    requires r == if name == DOT then Some(trail)
                  else if name == DOTS then Some(if |trail| > 1 then trail[..|trail| - 1] else trail)
                  else if t.None? then None else Some(trail + [t.value])
    ensures r == Step(data, view, trail, name) && (r.Some? ==> OnTrail(view, r.value))
  {
    hide Lookup;
  }

  method LookIn(m: Mount, dir: nat, name: Name) returns (t: Option<nat>)
    requires Tidy(m) && 0 < dir <= INODES && |m.inodes| == INODES && IsDir(m.inodes[dir - 1].mode) && name != DOT
    requires name != DOTS
    modifies m`blkBuf
    ensures t == Lookup(m.data, m.inodes, dir, name)
    ensures (t.Some? ==> 1 < t.value <= INODES && m.inodes[t.value - 1].mode != 0)
  {
    hide Laid, Tree, Lookup, AllCovered, DeadEmpty, Settled;
    m.SoundLayout();
    t := m.FindInDir(dir, name);
    if t.Some? { StepLive(m, dir, name); }
  }

  lemma WalkNext(data: seq<seq<byte>>, view: seq<Inode>, trail: seq<nat>, path: seq<Name>, i: nat)
    requires OnTrail(view, trail) && i < |path|
    ensures var t := Step(data, view, trail, path[i]);
      Walk(data, view, trail, path[i..]) == if t.None? then None else Walk(data, view, t.value, path[i + 1..])
  {
    assert path[i..][0] == path[i] && path[i..][1..] == path[i + 1..];
  }

  lemma WalkEnd(data: seq<seq<byte>>, view: seq<Inode>, trail: seq<nat>, path: seq<Name>)
    requires OnTrail(view, trail)
    ensures Walk(data, view, trail, path[|path|..]) == Some(trail[|trail| - 1])
  {
  }

  lemma TreeShape(own: seq<int>, data: seq<seq<byte>>, view: seq<Inode>)
    requires Tree(own, data, view)
    ensures |view| == INODES && view[0].mode != 0 && |own| == |data|
  {
  }

  lemma StepLive(m: Mount, dir: nat, name: seq<byte>)
    requires Tidy(m) && 0 < dir <= INODES && IsDir(m.inodes[dir - 1].mode)
    requires name != DOT && name != DOTS && Lookup(m.data, m.inodes, dir, name).Some?
    ensures var t := Lookup(m.data, m.inodes, dir, name).value; 1 < t <= INODES && m.inodes[t - 1].mode != 0 && t != dir
  {
    hide Lookup, Tree, AllCovered, DeadEmpty;
    LookedLive(m.own, m.data, m.inodes, dir, name);
  }

  // ---- what requests do ----

  ghost predicate Unchanged(v: Vol, v': Vol) { v'.own == v.own && v'.data == v.data && v'.view == v.view }

  /** Inode `ino`, which was not in use, is an empty file; it has an entry exactly when the directory takes one. */
  ghost predicate FileStep(v: Vol, v': Vol, start: nat, dir: nat, name: Name, mode: nat, r: int, ino: nat, b: nat,
                           j: nat) {
    && |v.view| == |v'.view| == INODES && 0 < dir <= INODES && 0 < ino <= INODES && v.view[ino - 1].mode == 0
    && var view := v.view[ino - 1 := FileInode(mode)];
    && r == (if Takes(v.data, v.bits, start, view[dir - 1]) then 0 else -1)
    && (r == 0 ==>
        && Listed(v.own, v.data, view, v'.own, v'.data, v'.view, dir - 1, b, j, ino, name)
        && Spot(v.data, v.bits, start, view[dir - 1], v'.view[dir - 1].extents, b, j))
    && (r == -1 ==> v'.view == view && v'.own == v.own && Spared(v.own, v.data, v'.data, -1))
  }

  ghost predicate FileMade(v: Vol, v': Vol, start: nat, dir: nat, name: Name, mode: nat, r: int) {
    && |v.view| == INODES
    && if Lookup(v.data, v.view, dir, name).Some? then r == -EEXIST && Unchanged(v, v')
       else if AllLive(v.view) then r == -ENOSPC && Unchanged(v, v')
       else exists ino, b, j :: FileStep(v, v', start, dir, name, mode, r, ino, b, j)
  }

  /** Directory `ino` was made on block `nb`, as in `w`; it has an entry exactly when its parent then takes one. */
  ghost predicate DirStep(v: Vol, v': Vol, start: nat, dir: nat, name: Name, mode: nat, r: int, ino: nat, nb: nat,
                          w: Vol, b: nat, j: nat) {
    && DirMade(v.own, v.data, v.view, w.own, w.data, w.view, ino, dir, mode, nb) && |w.view| == |v'.view| == INODES
    && 0 < dir <= INODES
    && nb == LowestFree(v.bits, start) && nb < |v.bits| && w.bits == v.bits[nb := true]
    && r == (if Takes(w.data, w.bits, start, w.view[dir - 1]) then 0 else -1)
    && (r == 0 ==>
        && Listed(w.own, w.data, w.view, v'.own, v'.data, v'.view, dir - 1, b, j, ino, name)
        && Spot(w.data, w.bits, start, w.view[dir - 1], v'.view[dir - 1].extents, b, j))
    && (r == -1 ==> v'.view == w.view && v'.own == w.own && Spared(w.own, w.data, v'.data, -1))
  }

  ghost predicate MadeDirectory(v: Vol, v': Vol, start: nat, dir: nat, name: Name, mode: nat, r: int) {
    && |v.view| == INODES
    && if Lookup(v.data, v.view, dir, name).Some? || AllLive(v.view) || LowestFree(v.bits, start) == |v.bits|
       then r == -1 && v'.data == v.data && v'.own == v.own && SameLive(v.view, v'.view)
       else exists ino, nb, w, b, j :: DirStep(v, v', start, dir, name, mode, r, ino, nb, w, b, j)
  }

  /** Inode `t` and its blocks are free, and slot `j` of block `b`, which was its entry, is clear. */
  ghost predicate RemoveStep(v: Vol, v': Vol, dir: nat, name: Name, t: nat, b: nat, j: nat) {
    && |v.view| == INODES && 1 < t <= INODES && 0 < dir <= INODES && t != dir && Freed(v.own, v'.own, t - 1)
    && var gone := v.view[t - 1 := NO_INODE];
    && Unlisted(v'.own, v.data, gone, v'.data, v'.view, dir - 1, b, j, name) && EntryIno(Slot(v.data[b], j)) == t
  }

  ghost predicate Removed(v: Vol, v': Vol, dir: nat, name: Name, r: int) {
    && |v.view| == INODES
    && match Lookup(v.data, v.view, dir, name)
       case None => r == -1 && Unchanged(v, v')
       case Some(t) =>
         && 1 < t <= INODES
         && if Busy(v.data, v.view[t - 1]) then r == -ENOTEMPTY && Unchanged(v, v')
            else r == 0 && exists b, j :: RemoveStep(v, v', dir, name, t, b, j)
  }

  ghost predicate WroteTo(v: Vol, v': Vol, start: nat, ino: nat, bytes: seq<byte>, offset: nat, r: int) {
    && |v.view| == INODES && 0 < ino <= INODES
    && if IsDir(v.view[ino - 1].mode) then r == -1 && Unchanged(v, v')
       else exists w: nat ::
         r == AsInt(w) && PutFile(v.own, v.data, v.view, v.bits, v'.own, v'.data, v'.view, start, ino - 1, offset,
                                  bytes, w)
  }

  /** The directory a path leads to. */
  ghost function DirAt(v: Vol, path: seq<Name>): Option<nat>
    requires |v.view| == INODES
  {
    match Walk(v.data, v.view, [1], path)
    case None => None
    case Some(d) => if 0 < d <= INODES && IsDir(v.view[d - 1].mode) then Some(d) else None
  }

  /** What a request did. It fails, and changes nothing, when its path leads nowhere. */
  ghost predicate Did(op: Op, v: Vol, v': Vol, start: nat, r: int) {
    && |v.view| == |v'.view| == INODES
    && match op
       case MakeFile(dir, name, mode) =>
         var d := DirAt(v, dir); if d.None? then r == -1 && Unchanged(v, v')
           else FileMade(v, v', start, d.value, name, mode, r)
       case MakeDir(dir, name, mode) =>
         var d := DirAt(v, dir); if d.None? then r == -1 && Unchanged(v, v')
           else MadeDirectory(v, v', start, d.value, name, mode, r)
       case Remove(dir, name) =>
         var d := DirAt(v, dir); if d.None? then r == -1 && Unchanged(v, v') else Removed(v, v', d.value, name, r)
       case WriteFile(path, bytes, back) =>
         (match Walk(v.data, v.view, [1], path)
          case None => r == -1 && Unchanged(v, v')
          case Some(f) =>
            && 0 < f <= INODES
            && var size := v.view[f - 1].size;
               WroteTo(v, v', start, f, bytes, if back < size then size - back else 0, r))
       case Mounted => r == 0 && Unchanged(v, v')
  }

  // ---- requests ----

  lemma NoneOwned(k: Books, own: seq<int>, view: seq<Inode>, i: nat)
    requires Good(k, own, view) && DeadEmpty(view) && i < INODES && view[i].mode == 0
    ensures forall b :: 0 <= b < |own| ==> own[b] != i + 1
  {
    OwnsOne(own, view, i);
    hide Blocks;
  }

  method CreateIn(m: Mount, dir: u32, name: Name, mode: nat) returns (r: int)
    requires Tidy(m) && 0 < dir <= INODES && m.inodes[dir - 1].mode != 0 && IsDir(m.inodes[dir - 1].mode)
    modifies m
    ensures Tidy(m) && FileMade(old(Snap(m)), Snap(m), m.dataStart, dir, name, mode, r)
  {
    hide Good, Lookup, Takes, Listed, Spot, DeadEmpty, Tree, AllCovered, Settled, Clean, Unused, IsDir;
    ghost var own0, data0, view0, books := m.own, m.data, m.inodes, Books(m.Bits(), m.dataStart, m.freeBlocks,
                                                                          m.freeInodes, m.nextBlock);
    ghost var ino, b, j;
    r, ino, b, j := m.Create(dir, name, mode);
    if r == 0 || r == -1 {
      NoneOwned(books, own0, view0, ino - 1);
      FileBorn(own0, data0, view0, ino - 1, mode);
      ghost var view := view0[ino - 1 := FileInode(mode)];
      if r == 0 {
        TidyListed(own0, data0, view, m.own, m.data, m.inodes, dir - 1, b, j, ino, name);
      } else {
        TreeSpared(own0, data0, view, m.data, view);
      }
      assert FileStep(old(Snap(m)), Snap(m), m.dataStart, dir, name, mode, r, ino, b, j);
    }
  }

  lemma FileBorn(own: seq<int>, data: seq<seq<byte>>, view: seq<Inode>, i: nat, mode: nat)
    requires Tree(own, data, view) && AllCovered(view) && i < INODES && view[i].mode == 0
    requires forall b :: 0 <= b < |own| ==> own[b] != i + 1
    ensures var w := view[i := FileInode(mode)];
      Tree(own, data, w) && AllCovered(w) && Unnamed(own, data, w, i + 1) && i != 0 && SameLive(w, w)
  {
    TreeShape(own, data, view);
    hide Tree, AllCovered;
    TreeBirth(own, data, view, i, FileInode(mode));
    CoveredSet(view, i, FileInode(mode));
  }

  lemma TidyListed(own: seq<int>, data: seq<seq<byte>>, view: seq<Inode>, own': seq<int>, data': seq<seq<byte>>,
                   view': seq<Inode>,
                   k: int, b: nat, j: nat, ino: nat, name: seq<byte>)
    requires Tree(own, data, view) && AllCovered(view) && Unnamed(own, data, view, ino)
    requires Listed(own, data, view, own', data', view', k, b, j, ino, name)
    requires 1 < ino <= INODES && view[ino - 1].mode != 0 && ino != k + 1 && IsDir(view[k].mode)
    ensures Tree(own', data', view') && AllCovered(view')
  {
    hide Tree, AllCovered, Listed;
    TreeListed(own, data, view, own', data', view', k, b, j, ino, name);
    ListedView(own, data, view, own', data', view', k, b, j, ino, name);
    CoveredDir(view, k, view'[k]);
  }

  method MkdirIn(m: Mount, dir: u32, name: Name, mode: nat) returns (r: int)
    requires Tidy(m) && 0 < dir <= INODES && m.inodes[dir - 1].mode != 0 && IsDir(m.inodes[dir - 1].mode)
    modifies m
    ensures Tidy(m) && MadeDirectory(old(Snap(m)), Snap(m), m.dataStart, dir, name, mode, r)
  {
    hide Good, Lookup, Takes, Listed, Spot, DeadEmpty, Tree, AllCovered, Settled, Clean, Unused, IsDir, DirMade,
      LowestFree, SameLive;
    ghost var own0, data0, view0, books := m.own, m.data, m.inodes, Books(m.Bits(), m.dataStart, m.freeBlocks,
                                                                          m.freeInodes, m.nextBlock);
    ghost var ino, nb, b, j, own1, data1, view1, bits1;
    r, ino, nb, b, j, own1, data1, view1, bits1 := m.Mkdir(dir, name, mode);
    if ino == 0 {
      TidyKept(own0, data0, view0, m.inodes);
    } else {
      DirBorn(books, own0, data0, view0, own1, data1, view1, ino, dir, mode, nb);
      if r == 0 {
        TidyListed(own1, data1, view1, m.own, m.data, m.inodes, dir - 1, b, j, ino, name);
      } else {
        TreeSpared(own1, data1, view1, m.data, view1);
      }
      ghost var w := Vol(own1, data1, view1, bits1);
      assert DirStep(old(Snap(m)), Snap(m), m.dataStart, dir, name, mode, r, ino, nb, w, b, j);
    }
  }

  lemma TidyKept(own: seq<int>, data: seq<seq<byte>>, view: seq<Inode>, view': seq<Inode>)
    requires Tree(own, data, view) && AllCovered(view) && SameLive(view, view')
    ensures Tree(own, data, view') && AllCovered(view')
  {
    assert Spared(own, data, data, -1);
    TreeSpared(own, data, view, data, view');
    hide Tree;
  }

  lemma DirBorn(k: Books, own: seq<int>, data: seq<seq<byte>>, view: seq<Inode>, own': seq<int>, data': seq<seq<byte>>,
                view': seq<Inode>,
                ino: nat, dir: nat, mode: nat, b: nat)
    requires Good(k, own, view) && DeadEmpty(view) && Tree(own, data, view) && AllCovered(view) && 0 < dir <= INODES
    requires view[dir - 1].mode != 0
    requires DirMade(own, data, view, own', data', view', ino, dir, mode, b)
    ensures Tree(own', data', view') && AllCovered(view') && Unnamed(own', data', view', ino) && SameLive(view', view')
    ensures 1 < ino <= INODES && ino != dir && |view'| == INODES && view'[ino - 1].mode != 0
    ensures view'[dir - 1] == view[dir - 1]
  {
    NoneOwned(k, own, view, ino - 1);
    hide Good, Tree, AllCovered, DotsOnly;
    TreeMade(own, data, view, own', data', view', ino, dir, mode, b);
    CoveredDir(view, ino - 1, DirInode(mode).(extents := OneBlock(b)));
  }

  method UnlinkIn(m: Mount, dir: u32, name: Name) returns (r: int)
    requires Tidy(m) && 0 < dir <= INODES && IsDir(m.inodes[dir - 1].mode) && name != DOT && name != DOTS
    modifies m
    ensures Tidy(m) && Removed(old(Snap(m)), Snap(m), dir, name, r)
  {
    hide Good, Lookup, Unlisted, DeadEmpty, Tree, AllCovered, Settled, Clean, IsDir, Busy, Freed, At, Found, Stored,
      Blocks;
    ghost var own0, data0, view0 := m.own, m.data, m.inodes;
    ghost var t := Lookup(m.data, m.inodes, dir, name);
    if t.Some? { StepLive(m, dir, name); }
    ghost var b, j;
    assert Owns(own0, view0) && |own0| == |data0| && Sized(data0) by { Booked(m); }
    r, b, j := m.Unlink(dir, name);
    if r == 0 {
      TidyUnlisted(own0, data0, view0, m.own, m.data, m.inodes, dir - 1, b, j, name, t.value);
      assert RemoveStep(old(Snap(m)), Snap(m), dir, name, t.value, b, j);
    }
  }

  lemma Booked(m: Mount)
    requires m.Valid()
    ensures Owns(m.own, m.inodes) && |m.own| == |m.data| && Sized(m.data)
  {
  }

  lemma TidyUnlisted(own: seq<int>, data: seq<seq<byte>>, view: seq<Inode>, own': seq<int>, data': seq<seq<byte>>,
                     view': seq<Inode>,
                     k: nat, b: nat, j: nat, name: seq<byte>, t: nat)
    requires Owns(own, view) && Sized(data) && Tree(own, data, view) && AllCovered(view) && k < INODES
    requires IsDir(view[k].mode)
    requires name != DOT && name != DOTS && 0 < t <= INODES && Lookup(data, view, k + 1, name) == Some(t)
    requires k + 1 != t && Freed(own, own', t - 1)
    requires var gone := view[t - 1 := NO_INODE];
      Unlisted(own', data, gone, data', view', k, b, j, name)
      && Stored(data, Blocks(gone[k].extents)) && At(gone[k], Found(data, gone[k], Named(name)), b, j)
    ensures Tree(own', data', view') && AllCovered(view') && EntryIno(Slot(data[b], j)) == t
  {
    hide Tree, AllCovered, Lookup, Found, At, Blocks, Stored, Freed, EntryIno, Fits, Slot, Struck;
    var gone := view[t - 1 := NO_INODE];
    assert gone[k] == view[k];
    TreeShape(own, data, view);
    var c, i := Looked(own, data, view, k + 1, name);
    assert b == c && j == i by { AtOne(view[k], Found(data, view[k], Named(name)), b, j, c, i); }
    TreeUnlisted(own, data, view, own', data', view', k, b, j, name, t);
    CoveredDir(view, t - 1, NO_INODE);
    CoveredDir(gone, k, view'[k]);
  }

  lemma AtOne(n: Inode, e: nat, b: nat, j: nat, c: nat, i: nat)
    requires At(n, e, b, j) && At(n, e, c, i)
    ensures b == c && j == i
  {
  }

  /** A write that starts within the file or at its end. */
  method WriteIn(m: Mount, ino: nat, bytes: seq<byte>, offset: nat) returns (r: int)
    requires Tidy(m) && 0 < ino <= INODES && m.inodes[ino - 1].mode != 0 && offset <= m.inodes[ino - 1].size
    modifies m
    ensures Tidy(m) && WroteTo(old(Snap(m)), Snap(m), m.dataStart, ino, bytes, offset, r)
  {
    hide Good, DeadEmpty, Tree, AllCovered, Settled, Clean, IsDir, PutFile, Gets, Written, Covered;
    ghost var own0, data0, view0, bits0 := m.own, m.data, m.inodes, m.Bits();
    ghost var w;
    var isFile := !IsDir(m.inodes[ino - 1].mode);
    r, w := m.Write(isFile, ino, bytes, offset);
    if isFile {
      TidyPut(own0, data0, view0, bits0, m.own, m.data, m.inodes, m.dataStart, ino - 1, offset, bytes, w);
    }
  }

  lemma TidyPut(own: seq<int>, data: seq<seq<byte>>, view: seq<Inode>, bits: seq<bool>, own': seq<int>,
                data': seq<seq<byte>>,
                view': seq<Inode>, dataStart: nat, k: nat, offset: nat, buf: seq<byte>, w: nat)
    requires Tree(own, data, view) && AllCovered(view) && k < INODES && view[k].mode != 0 && !IsDir(view[k].mode)
    requires offset <= view[k].size
    requires PutFile(own, data, view, bits, own', data', view', dataStart, k, offset, buf, w)
    ensures Tree(own', data', view') && AllCovered(view')
    ensures Accounted(view[k], Gets(bits, dataStart, view[k], offset, |buf|), offset + w)
  {
    hide Tree, Gets, Written, Covered, Spared, Grown, Replaced, Orderly;
    assert Covered(view[k]);
    if Gets(bits, dataStart, view[k], offset, |buf|) > 0 { GrowsPast(bits, dataStart, view[k], offset, |buf|); }
    TreeWrote(own, data, view, own', data', view', k);
  }

  /** One request. The driver is called whenever the path leads to an object of the right kind. */
  method Perform(m: Mount, op: Op) returns (r: int)
    requires Tidy(m) && Proper(op)
    modifies m
    ensures Tidy(m) && Did(op, old(Snap(m)), Snap(m), m.dataStart, r)
  {
    hide Good, DeadEmpty, Tree, AllCovered, Settled, Walk, IsDir, FileMade, MadeDirectory, Removed, WroteTo;
    r := -1;
    match op {
      case MakeFile(dir, name, mode) =>
        var d := Resolve(m, dir);
        if d.Some? && IsDir(m.inodes[d.value - 1].mode) { r := CreateIn(m, d.value, name, mode); }
      case MakeDir(dir, name, mode) =>
        var d := Resolve(m, dir);
        if d.Some? && IsDir(m.inodes[d.value - 1].mode) { r := MkdirIn(m, d.value, name, mode); }
      case Remove(dir, name) =>
        var d := Resolve(m, dir);
        if d.Some? && IsDir(m.inodes[d.value - 1].mode) { r := UnlinkIn(m, d.value, name); }
      case WriteFile(path, bytes, back) =>
        var f := Resolve(m, path);
        if f.Some? {
          var size := m.inodes[f.value - 1].size;
          r := WriteIn(m, f.value, bytes, if back < size then size - back else 0);
        }
      case Mounted =>
        m.Remount();
        r := 0;
    }
  }

  /** Formatting gives a tidy volume. */
  method NewVolume(m: Mount) returns (ok: bool)
    requires m.Shape() && 10 < m.dataStart && m.total < TWO_32
    modifies m
    ensures ok <==> m.dataStart < m.total
    ensures ok ==> Tidy(m) && m.PassesAudit() && Formatted(m.own, m.data, m.inodes, m.Bits(), m.dataStart)
  {
    hide Good, Formatted, Tree, AllCovered;
    ok := m.Format();
    if ok {
      NewTree(m.own, m.data, m.inodes, m.Bits(), m.dataStart);
      m.Audit();
    }
  }

  /** The run leads through the volumes `vols`: each request did what it says, with its result. */
  ghost predicate Trace(ops: seq<Op>, rs: seq<int>, vols: seq<Vol>, start: nat) {
    && |rs| == |ops| && |vols| == |ops| + 1 && (forall i :: 0 <= i < |vols| ==> TidyVol(vols[i], start))
    && forall i :: 0 <= i < |ops| ==> Did(ops[i], vols[i], vols[i + 1], start, rs[i])
  }

  lemma TraceOn(ops: seq<Op>, rs: seq<int>, vols: seq<Vol>, start: nat, op: Op, r: int, v: Vol)
    requires Trace(ops, rs, vols, start) && Did(op, vols[|ops|], v, start, r) && TidyVol(v, start)
    ensures Trace(ops + [op], rs + [r], vols + [v], start)
  {
    hide Did, TidyVol;
  }

  /** Every run of proper requests on a tidy volume, such as a freshly formatted one, leaves it tidy: it passes its
      check. */
  method RunAll(m: Mount, ops: seq<Op>) returns (rs: seq<int>, ghost vols: seq<Vol>)
    requires Tidy(m) && forall i :: 0 <= i < |ops| ==> Proper(ops[i])
    modifies m
    ensures Tidy(m) && m.PassesAudit()
    ensures Trace(ops, rs, vols, m.dataStart) && vols[0] == old(Snap(m)) && vols[|ops|] == Snap(m)
  {
    hide Good, Tree, AllCovered, DeadEmpty, Settled, Clean, Did, Trace, TidyVol;
    TidySnap(m);
    rs, vols := [], [Snap(m)];
    assert Trace([], rs, vols, m.dataStart) by { TraceNone(Snap(m), m.dataStart); }
    assert ops[..0] == [];
    for i := 0 to |ops|
      invariant Tidy(m) && Trace(ops[..i], rs, vols, m.dataStart) && |vols| == i + 1 && vols[0] == old(Snap(m))
      invariant vols[i] == Snap(m)
    {
      var r := Perform(m, ops[i]);
      TidySnap(m);
      TraceOn(ops[..i], rs, vols, m.dataStart, ops[i], r, Snap(m));
      assert ops[..i + 1] == ops[..i] + [ops[i]];
      rs, vols := rs + [r], vols + [Snap(m)];
    }
    assert ops[..|ops|] == ops;
    m.Audit();
  }

  lemma TraceNone(v: Vol, start: nat)
    requires TidyVol(v, start)
    ensures Trace([], [], [v], start)
  {
  }
}
