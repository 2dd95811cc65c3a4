/** Runs that leave a volume inconsistent or a file without its name. */
module UfsLimits {
  import opened Words
  import opened Wrappers
  import opened Extents
  import opened UfsBooks
  import opened UfsFiles
  import opened UfsDir
  import opened UfsSpec
  import opened UfsNames
  import opened Ufs

  const D: seq<byte> := [100]
  const F: seq<byte> := [102]

  // ---- directories of one block ----

  lemma OneBlockIs(b: nat)
    ensures Blocks(OneBlock(b)) == [b] && |OneBlock(b)| == SLOTS && Shaped(OneBlock(b))
  {
    FirstAppend(b);
    NoBlocks();
    AppendInserts(NO_EXTENTS, b);
  }

  /** Scans of the directory go through one block, `b`. */
  ghost predicate Single(data: seq<seq<byte>>, n: Inode, b: nat) {
    Stored(data, Blocks(n.extents)) && BlocksSeen(n) == 1 && Blocks(n.extents)[0] == b
  }

  lemma SingleIs(data: seq<seq<byte>>, n: Inode, b: nat)
    requires n.extents == OneBlock(b) && 0 < n.size <= BLOCK && b < |data| && |data[b]| == BLOCK
    ensures Single(data, n, b)
  {
    OneBlockIs(b);
  }

  /** The first slot that fits is slot `e`. */
  ghost predicate FirstIs(block: seq<byte>, want: Want, e: nat) {
    && |block| == BLOCK && e <= PER_BLOCK && (forall x :: 0 <= x < e ==> !Fits(Slot(block, x), want))
    && (e < PER_BLOCK ==> Fits(Slot(block, e), want))
  }

  lemma SingleSlot(data: seq<seq<byte>>, n: Inode, b: nat, x: nat)
    requires Single(data, n, b) && x < PER_BLOCK
    ensures b < |data| && |data[b]| == BLOCK && |Flat(data, Blocks(n.extents))| >= BLOCK
    ensures Slot(Flat(data, Blocks(n.extents)), x) == Slot(data[b], x)
  {
    hide Blocks, Flat, Slot;
    SlotInBlock(data, Blocks(n.extents), 0, x);
  }

  lemma SingleFound(data: seq<seq<byte>>, n: Inode, b: nat, want: Want, e: nat)
    requires Single(data, n, b) && b < |data| && FirstIs(data[b], want, e)
    ensures Stored(data, Blocks(n.extents)) && Visible(n) == PER_BLOCK && Found(data, n, want) == e
  {
    hide Slot, Fits, Blocks, Flat;
    var f := Flat(data, Blocks(n.extents));
    forall x: nat | x < PER_BLOCK ensures |f| >= BLOCK && Slot(f, x) == Slot(data[b], x) { SingleSlot(data, n, b, x); }
    assert |f| >= BLOCK by { SingleSlot(data, n, b, 0); }
    FirstSlotIs(f, want, e, PER_BLOCK);
  }

  lemma SingleLookup(data: seq<seq<byte>>, view: seq<Inode>, dir: nat, b: nat, name: seq<byte>, e: nat)
    requires |view| == INODES && 0 < dir <= INODES && Single(data, view[dir - 1], b) && b < |data|
    requires FirstIs(data[b], Named(name), e)
    ensures Lookup(data, view, dir, name) == if e == PER_BLOCK then None else Some(EntryIno(Slot(data[b], e)))
  {
    hide Slot, Fits, Blocks, Flat, EntryIno, Found;
    SingleFound(data, view[dir - 1], b, Named(name), e);
    if e < PER_BLOCK { SingleSlot(data, view[dir - 1], b, e); }
  }

  /** A new directory: nothing but its dots is found, and the third slot is free. */
  lemma DotsScan(block: seq<byte>, ino: nat, dir: nat, name: seq<byte>)
    requires DotsOnly(block, ino, dir) && ino != 0 && dir != 0 && name != DOT && name != DOTS
    ensures FirstIs(block, Named(name), PER_BLOCK) && FirstIs(block, FreeSlot, 2)
  {
    hide Slot, EntryIno, EntryName;
    assert forall x: nat :: x < PER_BLOCK ==> (EntryIno(Slot(block, x)) == 0 <==> x >= 2);
    assert forall x: nat :: x < 2 ==> EntryName(Slot(block, x)) != name;
  }

  /** The root of a new volume. */
  lemma RootScan(own: seq<int>, data: seq<seq<byte>>, view: seq<Inode>, bits: seq<bool>, dataStart: nat,
                 name: seq<byte>)
    requires Formatted(own, data, view, bits, dataStart) && name != DOT && name != DOTS
    ensures |view| == INODES && Lookup(data, view, 1, name).None? && !AllLive(view)
  {
    hide Slot, EntryIno, EntryName, OneBlock, FirstIs, Lookup, Single;
    DotsScan(data[dataStart], 1, 1, name);
    SingleIs(data, view[0], dataStart);
    SingleLookup(data, view, 1, dataStart, name, PER_BLOCK);
    assert view[1].mode == 0;
  }

  lemma SingleFree(data: seq<seq<byte>>, n: Inode, b: nat, e: nat)
    requires Single(data, n, b) && b < |data| && FirstIs(data[b], FreeSlot, e)
    ensures HasFree(data, n) <==> e < PER_BLOCK
    ensures e < PER_BLOCK ==> Found(data, n, FreeSlot) == e && forall c, j :: At(n, e, c, j) ==> c == b && j == e
  {
    SingleFound(data, n, b, FreeSlot, e);
    hide Slot, Fits, Blocks;
  }

  /** After an entry was added to a directory of one block, with slot `e` the first free one. */
  lemma NextEntry(own: seq<int>, data: seq<seq<byte>>, view: seq<Inode>, bits: seq<bool>, dataStart: nat,
                  own': seq<int>, data': seq<seq<byte>>,
                  view': seq<Inode>, k: nat, root: nat, b: nat, j: nat, ino: nat, name: seq<byte>, e: nat)
    requires |view| == INODES && k < INODES && view[k].extents == OneBlock(root) && 0 < view[k].size < BLOCK
    requires root < |data| && |data[root]| == BLOCK && e < PER_BLOCK && FirstIs(data[root], FreeSlot, e)
    requires Listed(own, data, view, own', data', view', k, b, j, ino, name)
    requires Spot(data, bits, dataStart, view[k], view'[k].extents, b, j) && root < |own| && own[root] == k + 1
    ensures own' == own && |view'| == INODES && view' == view[k := view[k].(size := view[k].size + ENTRY)]
    ensures |data'| == |data| && (forall c: nat :: c < |data| && c != root ==> data'[c] == data[c]) && |data'[root]| == BLOCK
    ensures EntryIno(Slot(data'[root], e)) == ino && EntryName(Slot(data'[root], e)) == StoredName(name)
    ensures forall i :: 0 <= i < PER_BLOCK && i != e ==> Slot(data'[root], i) == Slot(data[root], i)
  {
    hide Slot, EntryIno, EntryName, OneBlock, At, HasFree, Found, FirstIs, Single, StoredName;
    SingleIs(data, view[k], root);
    SingleFree(data, view[k], root, e);
    assert b == root && j == e;
    Same(own, b);
  }

  /** The first entry of a new directory. */
  lemma FirstEntry(own: seq<int>, data: seq<seq<byte>>, view: seq<Inode>, bits: seq<bool>, dataStart: nat,
                   own': seq<int>, data': seq<seq<byte>>,
                   view': seq<Inode>, k: nat, root: nat, b: nat, j: nat, ino: nat, name: seq<byte>)
    requires |view| == INODES && k < INODES && view[k].extents == OneBlock(root) && view[k].size == 2 * ENTRY
    requires root < |data| && DotsOnly(data[root], 1, 1)
    requires Listed(own, data, view, own', data', view', k, b, j, ino, name)
    requires Spot(data, bits, dataStart, view[k], view'[k].extents, b, j) && root < |own| && own[root] == k + 1
    requires name != DOT && name != DOTS && |name| < NAME && ino != 0
    ensures own' == own && |view'| == INODES
    ensures (forall c: nat :: c < |data| && c != root ==> c < |data'| && data'[c] == data[c])
    ensures Lookup(data', view', k + 1, name) == Some(ino)
    ensures forall i :: 0 <= i < INODES && i != k ==> view'[i] == view[i]
  {
    hide Slot, EntryIno, EntryName, OneBlock, Lookup, Listed, Spot, Single;
    DotsScan(data[root], 1, 1, name);
    NextEntry(own, data, view, bits, dataStart, own', data', view', k, root, b, j, ino, name, 2);
    assert FirstIs(data'[root], Named(name), 2);
    SingleIs(data', view'[k], root);
    SingleLookup(data', view', k + 1, root, name, 2);
  }

  // ---- an inode freed twice ----

  /** A new volume with one directory in its root. */
  method OneDir(m: Mount) returns (d: u32, ghost nb: nat)
    requires m.Shape() && 10 < m.dataStart && m.dataStart + 1 < m.total < TWO_32
    modifies m
    ensures m.Valid() && 1 < d <= INODES && |m.inodes| == INODES && Lookup(m.data, m.inodes, 1, D) == Some(d)
    ensures m.inodes[d - 1] == DirInode(0).(extents := OneBlock(nb)) && nb < |m.data| && DotsOnly(m.data[nb], d, 1)
  {
    hide Good, Lookup, Takes, Listed, Spot, DeadEmpty, Settled, Clean, Unused, DirMade, LowestFree, SameLive,
      OneBlock, DotsOnly, AllLive, Single, FirstIs;
    var ok := m.Format();
    ghost var own0, data0, view0, bits0 := m.own, m.data, m.inodes, m.Bits();
    RootScan(own0, data0, view0, bits0, m.dataStart, D);
    SomeFree(own0, data0, view0, bits0, m.dataStart);
    ghost var r, ino, b, j, own1, data1, view1, bits1;
    r, ino, nb, b, j, own1, data1, view1, bits1 := m.Mkdir(1, D, 0);
    MadeFirst(own0, data0, view0, bits0, m.dataStart, own1, data1, view1, ino, nb, bits1);
    FirstEntry(own1, data1, view1, bits1, m.dataStart, m.own, m.data, m.inodes, 0, m.dataStart, b, j, ino, D);
    m.SoundLayout();
    var t := m.FindInDir(1, D);
    d := t.value;
  }

  lemma SomeFree(own: seq<int>, data: seq<seq<byte>>, view: seq<Inode>, bits: seq<bool>, dataStart: nat)
    requires Formatted(own, data, view, bits, dataStart) && dataStart + 1 < |bits|
    ensures LowestFree(bits, dataStart) == dataStart + 1
  {
    LowestFreeIs(bits, dataStart, dataStart + 1);
  }

  lemma MadeFirst(own: seq<int>, data: seq<seq<byte>>, view: seq<Inode>, bits: seq<bool>, dataStart: nat,
                  own1: seq<int>, data1: seq<seq<byte>>, view1: seq<Inode>, ino: nat, nb: nat, bits1: seq<bool>)
    requires Formatted(own, data, view, bits, dataStart) && DirMade(own, data, view, own1, data1, view1, ino, 1, 0, nb)
    ensures |view1| == INODES && view1[0].extents == OneBlock(dataStart) && DotsOnly(data1[dataStart], 1, 1)
    ensures view1[0].size == 2 * ENTRY
    ensures dataStart < |own1| && own1[dataStart] == 1 && nb != dataStart && 1 < ino <= INODES && view1[0].mode != 0
    ensures view1[ino - 1] == DirInode(0).(extents := OneBlock(nb)) && DotsOnly(data1[nb], ino, 1) && nb < |data1|
    ensures Takes(data1, bits1, dataStart, view1[0])
  {
    hide Slot, EntryIno, EntryName, OneBlock, FirstIs, HasFree;
    DotsScan(data1[dataStart], 1, 1, D);
    SingleIs(data1, view1[0], dataStart);
    SingleFree(data1, view1[0], dataStart, 2);
  }

  /** Removing "." of a directory frees the directory and clears no entry: the one in its parent stays, and
      names an inode that is not in use. Removing that one counts the inode as free a second time. */
  method FreedTwice(m: Mount)
    requires m.Shape() && 10 < m.dataStart && m.dataStart + 1 < m.total < TWO_32
    modifies m
    ensures !m.PassesAudit()
  {
    var d, nb := OneDir(m);
    hide Good, Lookup, DeadEmpty, Settled, Clean, OneBlock, DotsOnly, Unlisted, Busy, Freed, At, Found, Stored, Blocks;
    var r, b, j := UnlinkDot(m, d, nb, 1, 1, D);
    assert !Busy(m.data, m.inodes[d - 1]) by { DeadNotBusy(m.data); }
    r, b, j := m.Unlink(1, D);
  }

  lemma DeadNotBusy(data: seq<seq<byte>>)
    ensures !Busy(data, NO_INODE) && NO_INODE.mode == 0
  {
  }

  /** Unlinking "." of a new directory: it is freed, and the entry in its parent now names a free inode. */
  method UnlinkDot(m: Mount, ino: u32, ghost b: nat, ghost dots: nat, parent: u32, name: seq<byte>)
      returns (r: int, ghost b': nat, ghost j: nat)
    requires m.Valid() && 0 < ino <= INODES && |m.inodes| == INODES && m.inodes[ino - 1].mode != 0
    requires m.inodes[ino - 1].extents == OneBlock(b) && m.inodes[ino - 1].size == 2 * ENTRY && b < |m.data|
    requires DotsOnly(m.data[b], ino, dots)
    requires 0 < parent <= INODES && parent != ino && Lookup(m.data, m.inodes, parent, name) == Some(ino)
    modifies m
    ensures r == -1 && m.Valid() && m.data == old(m.data) && m.inodes == old(m.inodes)[ino - 1 := NO_INODE]
    ensures Freed(old(m.own), m.own, ino - 1)
    ensures |m.inodes| == INODES && Lookup(m.data, m.inodes, parent, name) == Some(ino) && m.inodes[ino - 1].mode == 0
  {
    hide Good, Settled, Lookup, Busy, DotsOnly, Unlisted, OneBlock, Clean, DeadEmpty, Freed;
    DotIsSelf(m.data, m.inodes, ino, b, dots);
    LookupAfter(m.data, m.inodes, ino, parent, name);
    r, b', j := m.Unlink(ino, DOT);
  }

  // ---- a block lost in a hole ----

  /** A new volume with one empty file in its root. */
  method OneFile(m: Mount) returns (f: u32)
    requires m.Shape() && 10 < m.dataStart && m.dataStart + 1 < m.total < TWO_32
    modifies m
    ensures m.Valid() && 1 < f <= INODES && |m.inodes| == INODES && m.inodes[f - 1] == FileInode(0)
    ensures Clear(m.Bits()) == m.total - m.dataStart - 1
  {
    hide Good, Lookup, Takes, Listed, Spot, DeadEmpty, Settled, Clean, Unused, LowestFree, OneBlock, DotsOnly,
      AllLive, Single, FirstIs, Clear;
    var ok := m.Format();
    ghost var own0, data0, view0, bits0 := m.own, m.data, m.inodes, m.Bits();
    RootScan(own0, data0, view0, bits0, m.dataStart, F);
    ghost var r, ino, b, j;
    r, ino, b, j := m.Create(1, F, 0);
    ghost var view1 := view0[ino - 1 := FileInode(0)];
    RootKept(own0, data0, view0, bits0, m.dataStart, ino);
    FirstEntry(own0, data0, view1, bits0, m.dataStart, m.own, m.data, m.inodes, 0, m.dataStart, b, j, ino, F);
    assert m.Bits() == bits0 by { BitsOfOwn(m, bits0); }
    ClearNone(bits0, m.dataStart + 1);
    m.SoundLayout();
    var t := m.FindInDir(1, F);
    f := t.value;
  }

  lemma RootKept(own: seq<int>, data: seq<seq<byte>>, view: seq<Inode>, bits: seq<bool>, dataStart: nat, ino: nat)
    requires Formatted(own, data, view, bits, dataStart) && 0 < ino <= INODES && view[ino - 1].mode == 0
    ensures ino != 1 && view[0].extents == OneBlock(dataStart) && view[0].size == 2 * ENTRY && view[0].mode != 0
    ensures own[dataStart] == 1 && DotsOnly(data[dataStart], 1, 1)
    ensures Takes(data, bits, dataStart, view[0])
    ensures (forall x :: 0 <= x < |bits| ==> bits[x] == (x < dataStart + 1)) && dataStart < |bits|
    ensures forall x :: 0 <= x < |bits| ==> (bits[x] <==> own[x] != FREE)
  {
    hide Slot, EntryIno, EntryName, OneBlock, FirstIs, HasFree;
    DotsScan(data[dataStart], 1, 1, F);
    SingleIs(data, view[0], dataStart);
    SingleFree(data, view[0], dataStart, 2);
  }

  lemma BitsOfOwn(m: Mount, bits: seq<bool>)
    requires m.Valid() && |bits| == |m.own| && forall x :: 0 <= x < |bits| ==> (bits[x] <==> m.own[x] != FREE)
    ensures m.Bits() == bits
  {
  }

  lemma {:induction false} ClearHas(s: seq<bool>)
    requires Clear(s) > 0
    ensures exists k :: 0 <= k < |s| && !s[k]
  {
    var n := |s| - 1;
    if s[n] { ClearHas(s[..n]); }
  }

  /** On a consistent volume with a free block, a file of at most one block gets another one. */
  lemma GetsOne(m: Mount, n: Inode, offset: nat)
    requires m.Valid() && Clear(m.Bits()) > 0 && Shaped(n.extents) && |n.extents| == SLOTS && |Blocks(n.extents)| <= 1
    requires Needed(n, offset, 1) == 1
    ensures Gets(m.Bits(), m.dataStart, n, offset, 1) == 1 && Written(m.Bits(), m.dataStart, n, offset, 1) == 1
  {
    var bits := m.Bits();
    ClearHas(bits);
    assert LowestFree(bits, m.dataStart) < |bits|;
    AppendFits(n.extents, LowestFree(bits, m.dataStart));
    RoomStep(bits, m.dataStart, n.extents, 1);
  }

  lemma AppendFits(es: seq<Extent>, b: nat)
    requires Shaped(es) && |es| == SLOTS && |Blocks(es)| <= 1
    ensures Append(es, b).Some?
  {
    if es[0].len > 0 {
      assert Blocks(es) == Run(es[0].start, es[0].len) + Blocks(es[1..]);
      assert es[1..][0] == es[1];
    }
  }

  /** A byte written beyond the end of a new file leaves a hole. */
  method MakeHole(m: Mount, x: byte) returns (f: u32)
    requires m.Shape() && 10 < m.dataStart && m.dataStart + 2 < m.total < TWO_32
    modifies m
    ensures m.Valid() && 1 < f <= INODES && |m.inodes| == INODES && Clear(m.Bits()) > 0
    ensures m.inodes[f - 1].size == 2 * BLOCK + 1 && |Blocks(m.inodes[f - 1].extents)| == 1
  {
    f := OneFile(m);
    hide Good, DeadEmpty, Settled, Clean, PutFile, Gets, Written, Blocks, Clear, Needed;
    NeedsFirst(m.inodes[f - 1]);
    GetsOne(m, m.inodes[f - 1], 2 * BLOCK);
    ghost var own0, data0, view0, bits0 := m.own, m.data, m.inodes, m.Bits();
    assert m.freeBlocks == Clear(bits0) by { Counted(m); }
    var r, w := m.Write(true, f, [x], 2 * BLOCK);
    PutOne(own0, data0, view0, bits0, m.own, m.data, m.inodes, m.dataStart, f - 1, [x]);
    Counted(m);
  }

  /** A byte written into the hole takes a block. The file does not get longer, so its inode is not
      written back, and no inode lists the block. */
  method LostBlock(m: Mount, x: byte)
    requires m.Shape() && 10 < m.dataStart && m.dataStart + 2 < m.total < TWO_32
    modifies m
    ensures !m.PassesAudit()
  {
    var f := MakeHole(m, x);
    hide Good, DeadEmpty, Settled, Clean, PutFile, Gets, Written, Blocks, Clear, Needed;
    m.SoundLayout();
    m.Scannable(f - 1);
    NeedsNext(m.inodes[f - 1]);
    GetsOne(m, m.inodes[f - 1], BLOCK);
    var r, w := m.Write(true, f, [x], BLOCK);
  }

  lemma NeedsFirst(n: Inode)
    requires n.extents == NO_EXTENTS
    ensures |Blocks(n.extents)| == 0 && Needed(n, 2 * BLOCK, 1) == 1 && |n.extents| == SLOTS && Shaped(n.extents)
  {
    NoBlocks();
  }

  lemma NeedsNext(n: Inode)
    requires |Blocks(n.extents)| == 1
    ensures Needed(n, BLOCK, 1) == 1
  {
  }

  lemma PutOne(own0: seq<int>, data0: seq<seq<byte>>, view0: seq<Inode>, bits0: seq<bool>, own: seq<int>,
               data: seq<seq<byte>>,
               view: seq<Inode>, dataStart: nat, k: nat, buf: seq<byte>)
    requires k < INODES && |view0| == INODES && view0[k] == FileInode(0) && |buf| == 1
    requires Gets(bits0, dataStart, view0[k], 2 * BLOCK, 1) == 1
    requires PutFile(own0, data0, view0, bits0, own, data, view, dataStart, k, 2 * BLOCK, buf, 1)
    ensures |view| == INODES && view[k].size == 2 * BLOCK + 1 && |Blocks(view[k].extents)| == 1 && view[k].mode != 0
  {
    NoBlocks();
    hide Gets, Written, Covered, Replaced, Orderly;
  }

  lemma Counted(m: Mount)
    requires m.Valid()
    ensures m.freeBlocks == Clear(m.Bits())
  {
  }

  // ---- a name out of sight ----

  const FILES := 62

  function NameOf(i: nat): (r: seq<byte>)
    requires i <= FILES
    ensures r != DOT && r != DOTS && |r| == 1 && 0 !in r
  {
    [128 + i]
  }

  /** A directory block with the dots and the first `i` of the names. */
  ghost predicate Rows(block: seq<byte>, i: nat) {
    && |block| == BLOCK && i <= FILES && EntryName(Slot(block, 0)) == DOT && EntryName(Slot(block, 1)) == DOTS
    && (forall x :: 0 <= x < PER_BLOCK ==> (EntryIno(Slot(block, x)) == 0 <==> x >= i + 2))
    && forall x :: 2 <= x < i + 2 ==> EntryName(Slot(block, x)) == NameOf(x - 2)
  }

  /** They name files. */
  ghost predicate RowsLive(block: seq<byte>, view: seq<Inode>, i: nat) {
    |block| == BLOCK && i <= FILES && forall x :: 2 <= x < i + 2 ==>
      var t := EntryIno(Slot(block, x)); 1 < t <= |view| && view[t - 1].mode != 0 && !IsDir(view[t - 1].mode)
  }

  /** A volume with the first `i` files in its root, and nothing else. */
  ghost predicate Stage(own: seq<int>, data: seq<seq<byte>>, view: seq<Inode>, root: nat, i: nat) {
    && |view| == INODES && |own| == |data| && root < |data| && i <= FILES
    && view[0].mode != 0 && view[0].extents == OneBlock(root) && view[0].size == ENTRY * (i + 2)
    && Rows(data[root], i) && RowsLive(data[root], view, i) && Clear(Live(view)) == INODES - 1 - i
    && own[root] == 1 && forall x :: root < x < |own| ==> own[x] == FREE
  }

  lemma RowsScan(block: seq<byte>, i: nat)
    requires Rows(block, i)
    ensures FirstIs(block, Named(NameOf(i)), PER_BLOCK) && FirstIs(block, FreeSlot, i + 2)
    ensures i > 0 ==> FirstIs(block, Named(NameOf(0)), 2)
  {
    hide Slot, EntryIno, EntryName;
  }

  lemma RowsNext(block: seq<byte>, block': seq<byte>, i: nat, ino: nat)
    requires Rows(block, i) && i < FILES && |block'| == BLOCK && ino != 0
    requires EntryIno(Slot(block', i + 2)) == ino && EntryName(Slot(block', i + 2)) == NameOf(i)
    requires forall x :: 0 <= x < PER_BLOCK && x != i + 2 ==> Slot(block', x) == Slot(block, x)
    ensures Rows(block', i + 1)
  {
    hide Slot, EntryIno, EntryName;
  }

  lemma StageStart(own: seq<int>, data: seq<seq<byte>>, view: seq<Inode>, bits: seq<bool>, dataStart: nat)
    requires Formatted(own, data, view, bits, dataStart)
    ensures Stage(own, data, view, dataStart, 0)
  {
    hide Slot, EntryIno, EntryName, OneBlock;
    var none := seq(INODES, _ => NO_INODE);
    ClearNone(Live(none), 0);
    LiveSet(none, 0, view[0]);
    assert Rows(data[dataStart], 0);
  }

  /** In the root of such a volume the next name is free, and there is a slot as long as the block has one. */
  lemma StageScan(own: seq<int>, data: seq<seq<byte>>, view: seq<Inode>, root: nat, i: nat)
    requires Stage(own, data, view, root, i)
    ensures Lookup(data, view, 1, NameOf(i)).None? && !AllLive(view) && Single(data, view[0], root)
    ensures FirstIs(data[root], FreeSlot, i + 2)
    ensures i > 0 ==> Lookup(data, view, 1, NameOf(0)) == Some(EntryIno(Slot(data[root], 2)))
    ensures HasFree(data, view[0]) <==> i < FILES
  {
    hide Slot, EntryIno, EntryName, OneBlock, Lookup, Single, FirstIs, HasFree, NameOf;
    RowsScan(data[root], i);
    SingleIs(data, view[0], root);
    SingleLookup(data, view, 1, root, NameOf(i), PER_BLOCK);
    if i > 0 { SingleLookup(data, view, 1, root, NameOf(0), 2); }
    SingleFree(data, view[0], root, i + 2);
    ClearHas(Live(view));
  }

  lemma StageNext(own: seq<int>, data: seq<seq<byte>>, view: seq<Inode>, bits: seq<bool>, dataStart: nat,
                  own': seq<int>, data': seq<seq<byte>>,
                  view': seq<Inode>, root: nat, i: nat, b: nat, j: nat, ino: nat)
    requires Stage(own, data, view, root, i) && i < FILES && 0 < ino <= INODES && view[ino - 1].mode == 0
    requires var view1 := view[ino - 1 := FileInode(0)];
      Listed(own, data, view1, own', data', view', 0, b, j, ino, NameOf(i))
      && Spot(data, bits, dataStart, view1[0], view'[0].extents, b, j)
    ensures Stage(own', data', view', root, i + 1)
  {
    hide Slot, EntryIno, EntryName, OneBlock, Listed, Spot, FirstIs, Clear, Live;
    var view1 := view[ino - 1 := FileInode(0)];
    RowsScan(data[root], i);
    NextEntry(own, data, view1, bits, dataStart, own', data', view', 0, root, b, j, ino, NameOf(i), i + 2);
    LiveSet(view, ino - 1, FileInode(0));
    LiveSet(view1, 0, view'[0]);
    RowsNext(data[root], data'[root], i, ino);
  }

  method AddFile(m: Mount, i: nat) returns (r: int)
    requires m.Valid() && i < FILES && Stage(m.own, m.data, m.inodes, m.dataStart, i)
    modifies m
    ensures m.Valid() && Stage(m.own, m.data, m.inodes, m.dataStart, i + 1)
  {
    hide Good, Lookup, Listed, Spot, DeadEmpty, Settled, Clean, Unused, AllLive, Single, FirstIs, Stage, NameOf,
      HasFree, NoRoom;
    ghost var own0, data0, view0, bits0 := m.own, m.data, m.inodes, m.Bits();
    StageScan(own0, data0, view0, m.dataStart, i);
    StageRoot(own0, data0, view0, m.dataStart, i);
    ghost var ino, b, j;
    r, ino, b, j := m.Create(1, NameOf(i), 0);
    StageNext(own0, data0, view0, bits0, m.dataStart, m.own, m.data, m.inodes, m.dataStart, i, b, j, ino);
  }

  lemma StageRoot(own: seq<int>, data: seq<seq<byte>>, view: seq<Inode>, root: nat, i: nat)
    requires Stage(own, data, view, root, i)
    ensures |view| == INODES && view[0].mode != 0 && view[0].size == ENTRY * (i + 2)
    ensures view[0].extents == OneBlock(root)
  {
  }

  /** The root has a second block with one more file, `f`. */
  ghost predicate Crowded(data: seq<seq<byte>>, view: seq<Inode>, root: nat, f: nat) {
    && |view| == INODES && root + 1 < |data| && view[0].mode != 0 && Blocks(view[0].extents) == [root, root + 1]
    && view[0].size == BLOCK + ENTRY
    && Rows(data[root], FILES) && RowsLive(data[root], view, FILES) && 1 < f <= INODES && view[f - 1].mode != 0
    && f != EntryIno(Slot(data[root], 2))
    && Lookup(data, view, 1, NameOf(FILES)) == Some(f)
    && Lookup(data, view, 1, NameOf(0)) == Some(EntryIno(Slot(data[root], 2)))
  }

  lemma OwnsBirth(own: seq<int>, view: seq<Inode>, i: nat, n: Inode)
    requires Owns(own, view) && DeadEmpty(view) && i < INODES && view[i].mode == 0 && n.extents == NO_EXTENTS
    ensures Owns(own, view[i := n])
  {
    NoBlocks();
    assert OwnsAt(own, view, i);
    var w := view[i := n];
    forall j | 0 <= j < INODES ensures OwnsAt(own, w, j) { assert OwnsAt(own, view, j); }
    hide OwnsAt;
  }

  lemma SecondBlock(root: nat)
    ensures Append(OneBlock(root), root + 1).Some? && !Steals(OneBlock(root), root + 1)
    ensures Blocks(Append(OneBlock(root), root + 1).value) == [root, root + 1]
  {
    OneBlockIs(root);
    AppendLast(OneBlock(root), root + 1);
  }

  lemma NextFree(own: seq<int>, bits: seq<bool>, dataStart: nat)
    requires Marks(own, bits, dataStart) && dataStart + 1 < |own| && own[dataStart] == 1 && own[dataStart + 1] == FREE
    ensures LowestFree(bits, dataStart) == dataStart + 1 && dataStart + 1 < |bits|
  {
    LowestFreeIs(bits, dataStart, dataStart + 1);
  }

  lemma NoneNamed(data: seq<seq<byte>>, n: Inode, b: nat, name: seq<byte>)
    requires Single(data, n, b) && |Blocks(n.extents)| == 1 && b < |data| && FirstIs(data[b], Named(name), PER_BLOCK)
    ensures NoEntry(data, n, name)
  {
    hide Slot, Fits, Blocks, Flat;
    forall x | 0 <= x < PER_BLOCK
      ensures !Fits(Slot(Entries(data, n.extents), x), Named(name))
    {
      SingleSlot(data, n, b, x);
    }
  }

  /** The block is full: the next file's entry goes to a second one. */
  lemma CrowdedIs(own: seq<int>, data: seq<seq<byte>>, view: seq<Inode>, bits: seq<bool>, root: nat, own': seq<int>,
                  data': seq<seq<byte>>,
                  view': seq<Inode>, b: nat, j: nat, ino: nat)
    requires Stage(own, data, view, root, FILES) && Owns(own, view) && DeadEmpty(view) && Marks(own, bits, root)
    requires Sized(data) && root + 1 < |own|
    requires 0 < ino <= INODES && view[ino - 1].mode == 0
    requires var view1 := view[ino - 1 := FileInode(0)];
      Listed(own, data, view1, own', data', view', 0, b, j, ino, NameOf(FILES))
      && Spot(data, bits, root, view1[0], view'[0].extents, b, j)
    ensures Crowded(data', view', root, ino)
  {
    hide Slot, EntryIno, EntryName, OneBlock, Lookup, Single, FirstIs, HasFree, NameOf, Owns, DeadEmpty, Steals,
      Append, Clear, Live, LowestFree, Blocks, BlocksSeen, NoEntry, NoneBefore;
    var view1 := view[ino - 1 := FileInode(0)];
    StageScan(own, data, view, root, FILES);
    NextFree(own, bits, root);
    SecondBlock(root);
    OneBlockIs(root);
    OwnsBirth(own, view, ino - 1, FileInode(0));
    RowsScan(data[root], FILES);
    NoneNamed(data, view[0], root, NameOf(FILES));
    AddedFound(own, data, view1, bits, root, own', data', view', 0, b, j, ino, NameOf(FILES));
    assert AllSeen(view1[0]) by { SingleSeen(data, view[0], root); }
    OtherName();
    AddedOthers(own, data, view1, bits, root, own', data', view', 0, b, j, ino, NameOf(FILES), NameOf(0));
    assert Lookup(data, view1, 1, NameOf(0)) == Lookup(data, view, 1, NameOf(0)) by {
      LookupSame(data, view, view1, 1, NameOf(0));
    }
    assert data'[root] == data[root];
  }

  lemma SingleSeen(data: seq<seq<byte>>, n: Inode, b: nat)
    requires Single(data, n, b) && |Blocks(n.extents)| == 1
    ensures AllSeen(n)
  {
  }

  lemma OtherName()
    ensures NameOf(0) != NameOf(FILES) && StoredName(NameOf(FILES)) == NameOf(FILES)
  {
  }

  lemma LookupSame(data: seq<seq<byte>>, view: seq<Inode>, view': seq<Inode>, dir: nat, name: seq<byte>)
    requires |view| == |view'| == INODES && (0 < dir <= INODES ==> view'[dir - 1] == view[dir - 1])
    ensures Lookup(data, view', dir, name) == Lookup(data, view, dir, name)
  {
    hide Found, Flat, Blocks, Slot, EntryIno;
  }

  method AddLast(m: Mount) returns (f: u32)
    requires m.Valid() && Stage(m.own, m.data, m.inodes, m.dataStart, FILES) && m.dataStart + 1 < m.total
    modifies m
    ensures m.Valid() && Crowded(m.data, m.inodes, m.dataStart, f)
  {
    hide Lookup, Listed, Spot, Clean, Unused, AllLive, Single, FirstIs, Stage, NameOf, HasFree, OneBlock, LowestFree,
      Append, Owns, DeadEmpty, Crowded;
    ghost var own0, data0, view0, bits0 := m.own, m.data, m.inodes, m.Bits();
    StageScan(own0, data0, view0, m.dataStart, FILES);
    StageRoot(own0, data0, view0, m.dataStart, FILES);
    StageOwn(own0, data0, view0, m.dataStart, FILES);
    NextFree(own0, bits0, m.dataStart);
    SecondBlock(m.dataStart);
    ghost var r, ino, b, j;
    r, ino, b, j := m.Create(1, NameOf(FILES), 0);
    CrowdedIs(own0, data0, view0, bits0, m.dataStart, m.own, m.data, m.inodes, b, j, ino);
    m.SoundLayout();
    var t := m.FindInDir(1, NameOf(FILES));
    assert t == Some(ino) by { CrowdedLookup(m.data, m.inodes, m.dataStart, ino); }
    f := t.value;
  }

  lemma StageOwn(own: seq<int>, data: seq<seq<byte>>, view: seq<Inode>, root: nat, i: nat)
    requires Stage(own, data, view, root, i)
    ensures root < |own| && own[root] == 1 && forall x :: root < x < |own| ==> own[x] == FREE
  {
  }

  lemma CrowdedLookup(data: seq<seq<byte>>, view: seq<Inode>, root: nat, f: nat)
    requires Crowded(data, view, root, f)
    ensures |view| == INODES && 1 < f <= INODES && view[f - 1].mode != 0
    ensures Lookup(data, view, 1, NameOf(FILES)) == Some(f)
    ensures exists t ::
      && Lookup(data, view, 1, NameOf(0)) == Some(t) && 1 < t <= INODES && t != f
      && view[t - 1].mode != 0 && !IsDir(view[t - 1].mode)
  {
    hide Lookup, Slot, EntryIno, EntryName;
    var t := EntryIno(Slot(data[root], 2));
    assert Lookup(data, view, 1, NameOf(0)) == Some(t);
  }

  /** Removing the first file leaves the root one block in sight, and the last file's entry is in the other. */
  method HideLast(m: Mount, f: u32)
    requires m.Valid() && Crowded(m.data, m.inodes, m.dataStart, f)
    modifies m
    ensures m.Valid() && |m.inodes| == INODES && Lookup(m.data, m.inodes, 1, NameOf(FILES)).None?
    ensures 1 < f <= INODES && m.inodes[f - 1] == old(m.inodes)[f - 1] && m.inodes[f - 1].mode != 0
  {
    hide Good, Lookup, DeadEmpty, Settled, Clean, Unlisted, Freed, At, Found, Stored, Blocks, Crowded, NameOf;
    ghost var data0, view0 := m.data, m.inodes;
    CrowdedLookup(data0, view0, m.dataStart, f);
    ghost var b, j;
    var r;
    r, b, j := m.Unlink(1, NameOf(0));
    HiddenIs(m.own, data0, view0, m.data, m.inodes, m.dataStart, f, b, j, Lookup(data0, view0, 1, NameOf(0)).value);
  }

  lemma HiddenIs(own: seq<int>, data: seq<seq<byte>>, view: seq<Inode>, data': seq<seq<byte>>, view': seq<Inode>,
                 root: nat, f: nat,
                 b: nat, j: nat, t: nat)
    requires Crowded(data, view, root, f) && 1 < t <= INODES && t != f && Sized(data')
    requires Unlisted(own, data, view[t - 1 := NO_INODE], data', view', 0, b, j, NameOf(0))
    ensures |view'| == INODES && Lookup(data', view', 1, NameOf(FILES)).None? && view'[f - 1] == view[f - 1]
  {
    hide Lookup, Slot, EntryIno, EntryName, NameOf, Fits, Flat, RowsLive;
    SightOne(data', view'[0], root);
    RowsScan(data[root], FILES);
    RowsCut(data[root], data'[root], NameOf(FILES));
    SingleLookup(data', view', 1, root, NameOf(FILES), PER_BLOCK);
  }

  lemma SightOne(data: seq<seq<byte>>, n: Inode, root: nat)
    requires Blocks(n.extents) == [root, root + 1] && n.size == BLOCK && root + 1 < |data| && Sized(data)
    ensures Single(data, n, root)
  {
  }

  lemma RowsCut(block: seq<byte>, block': seq<byte>, name: seq<byte>)
    requires FirstIs(block, Named(name), PER_BLOCK) && |block'| == BLOCK
    requires forall x: nat :: x < PER_BLOCK ==> Slot(block', x) == Slot(block, x) || EntryIno(Slot(block', x)) == 0
    ensures FirstIs(block', Named(name), PER_BLOCK)
  {
    hide Slot, EntryIno, EntryName;
  }

  /** A new volume with 62 files in its root. */
  method FillRoot(m: Mount)
    requires m.Shape() && 10 < m.dataStart < m.total < TWO_32
    modifies m
    ensures m.Valid() && Stage(m.own, m.data, m.inodes, m.dataStart, FILES)
  {
    hide Stage, Formatted, DeadEmpty, NameOf, Clean, LowestFree, Good, Settled;
    var ok := m.Format();
    StageStart(m.own, m.data, m.inodes, m.Bits(), m.dataStart);
    for i := 0 to FILES
      invariant m.Valid() && Stage(m.own, m.data, m.inodes, m.dataStart, i)
    {
      var q := AddFile(m, i);
    }
  }

  /** Sixty-three files are created in the root of a new volume and the first one is removed: the last
      one is still there, and is no longer found under its name. */
  method HiddenName(m: Mount) returns (f: u32)
    requires m.Shape() && 10 < m.dataStart && m.dataStart + 1 < m.total < TWO_32
    modifies m
    ensures m.Valid() && |m.inodes| == INODES && 1 < f <= INODES && m.inodes[f - 1].mode != 0
    ensures Lookup(m.data, m.inodes, 1, NameOf(FILES)).None?
  {
    hide Stage, Crowded, Good, DeadEmpty, Settled, Lookup, NameOf;
    FillRoot(m);
    f := AddLast(m);
    HideLast(m, f);
  }
}
