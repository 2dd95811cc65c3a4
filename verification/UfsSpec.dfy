/** What the operations of UFS do to a volume, stated on values: the bitmap area, inodes, directory
    blocks and the owner of each block. */
module UfsSpec {
  import opened Words
  import opened Wrappers
  import opened Bitmap
  import opened Extents
  import opened UfsBooks
  import opened UfsFiles
  import opened UfsDir

  const BITS := 32768
  const INODES_PER_BLOCK := 30
  const DIR_BIT := 0x4000
  const FILE_BIT := 0x8000

  const NO_BITS: seq<bv8> := NoBits(BLOCK)
  const ZEROS: seq<byte> := Zeros(BLOCK)

  function NoBits(n: nat): (r: seq<bv8>)
    ensures |r| == n && forall i :: 0 <= i < n ==> r[i] == 0
  {
    seq(n, _ => 0)
  }

  function Zeros(n: nat): (r: seq<byte>)
    ensures |r| == n && forall i :: 0 <= i < n ==> r[i] == 0
  {
    seq(n, _ => 0)
  }

  /** What the scratch buffer last held. */
  datatype Buffer = BitmapBuf(bits: seq<bv8>) | DataBuf(bytes: seq<byte>) | TableBuf(first: nat) | SuperBuf

  predicate IsDir(mode: nat) { mode / DIR_BIT % 2 == 1 }

  /** Every file has blocks for all its bytes. */
  ghost predicate AllCovered(view: seq<Inode>) {
    forall k :: 0 <= k < |view| && view[k].mode != 0 && !IsDir(view[k].mode) ==> Covered(view[k])
  }

  // ---- the bitmap area ----

  ghost predicate BitmapShape(bm: seq<seq<bv8>>, total: nat) {
    total <= BITS * |bm| && forall i :: 0 <= i < |bm| ==> |bm[i]| == BLOCK
  }

  predicate GetBit(bm: seq<seq<bv8>>, total: nat, b: nat)
    requires BitmapShape(bm, total) && b < total
  {
    Bit(bm[b / BITS][b % BITS / 8], b % 8)
  }

  function SetBit(bm: seq<seq<bv8>>, total: nat, b: nat, v: bool): (r: seq<seq<bv8>>)
    requires BitmapShape(bm, total) && b < total
    ensures BitmapShape(r, total)
  {
    var block := bm[b / BITS];
    var off := b % BITS / 8;
    bm[b / BITS := block[off := WithBit(block[off], b % 8, v)]]
  }

  ghost function BitsOf(bm: seq<seq<bv8>>, total: nat): (r: seq<bool>)
    requires BitmapShape(bm, total)
    ensures |r| == total && forall b :: 0 <= b < total ==> r[b] == GetBit(bm, total, b)
  {
    seq(total, b requires 0 <= b < total => GetBit(bm, total, b))
  }

  lemma GetSetBit(bm: seq<seq<bv8>>, total: nat, b: nat, v: bool, c: nat)
    requires BitmapShape(bm, total) && b < total && c < total
    ensures GetBit(SetBit(bm, total, b, v), total, c) == if c == b then v else GetBit(bm, total, c)
  {
    BitWithBit(bm[b / BITS][b % BITS / 8], b % 8, v, c % 8);
    SameBit(b, c);
    hide Bit, WithBit;
  }

  lemma SameBit(b: nat, c: nat)
    ensures b == c <==> b / BITS == c / BITS && b % BITS / 8 == c % BITS / 8 && b % 8 == c % 8
  {
    assert b % BITS % 8 == b % 8 && c % BITS % 8 == c % 8;
  }

  /** Setting a bit on disk sets that bit and no other. */
  lemma BitsSet(bm: seq<seq<bv8>>, total: nat, b: nat, v: bool)
    requires BitmapShape(bm, total) && b < total
    ensures BitsOf(SetBit(bm, total, b, v), total) == BitsOf(bm, total)[b := v]
  {
    var s, t := BitsOf(SetBit(bm, total, b, v), total), BitsOf(bm, total)[b := v];
    forall c | 0 <= c < total ensures s[c] == t[c] { GetSetBit(bm, total, b, v, c); }
  }

  /** Inode `k + 1` may have changed; all others and their bytes are the same. */
  ghost predicate Wrote(own: seq<int>, data: seq<seq<byte>>, view: seq<Inode>, data': seq<seq<byte>>,
                        view': seq<Inode>, k: int) {
    && |view| == |view'| == INODES && Spared(own, data, data', k)
    && (0 <= k < INODES ==> view'[k] == view[k].(size := view'[k].size, extents := view'[k].extents))
    && forall i :: 0 <= i < INODES && i != k ==> view'[i] == view[i]
  }

  const EEXIST := 17
  const ENOSPC := 28
  const ENOTEMPTY := 39

  function FileInode(mode: nat): (n: Inode)
    ensures n.mode == 0x8000 + mode % 512 && !IsDir(n.mode) && n.nlink == 1 && n.extents == NO_EXTENTS && n.size == 0
  {
    Inode(FILE_BIT + mode % 512, 1, 0, NO_EXTENTS)
  }

  function DirInode(mode: nat): (n: Inode)
    ensures n.mode == 0x4000 + mode % 512 && IsDir(n.mode) && n.nlink == 2 && n.extents == NO_EXTENTS && n.size == 128
  {
    Inode(DIR_BIT + mode % 512, 2, 2 * ENTRY, NO_EXTENTS)
  }

  function OneBlock(b: nat): seq<Extent> { NO_EXTENTS[0 := Extent(b, 1)] }

  lemma FirstAppend(b: nat)
    ensures Append(NO_EXTENTS, b) == Some(OneBlock(b))
  {
    assert [Extent(b, 1)] + NO_EXTENTS[1..] == OneBlock(b);
  }

  const DOT: seq<byte> := [46]
  const DOTS: seq<byte> := [46, 46]

  /** A directory block with just "." and "..". */
  ghost predicate DotsOnly(block: seq<byte>, ino: nat, dir: nat) {
    && |block| == BLOCK
    && EntryIno(Slot(block, 0)) == ino && EntryName(Slot(block, 0)) == [46] && EntryKind(Slot(block, 0)) == 2
    && EntryIno(Slot(block, 1)) == dir && EntryName(Slot(block, 1)) == [46, 46] && EntryKind(Slot(block, 1)) == 2
    && forall i :: 2 <= i < PER_BLOCK ==> EntryIno(Slot(block, i)) == 0
  }

  lemma DotsAre(block: seq<byte>, ino: u32, dir: u32)
    requires |block| == BLOCK
    requires Slot(block, 0) == NewEntry(Slot(ZEROS, 0), ino, 2, DOT)
    requires Slot(block, 1) == NewEntry(Slot(ZEROS, 1), dir, 2, DOTS)
    requires forall i :: 2 <= i < PER_BLOCK ==> Slot(block, i) == Slot(ZEROS, i)
    ensures DotsOnly(block, ino, dir)
  {
    NewEntryHolds(Slot(ZEROS, 0), ino, 2, DOT);
    NewEntryHolds(Slot(ZEROS, 1), dir, 2, DOTS);
    assert forall i :: 0 <= i < PER_BLOCK ==> EntryIno(Slot(ZEROS, i)) == 0;
    hide NewEntry, Slot, EntryIno, EntryName, EntryKind, EntryLen;
  }

  /** Inode `ino` is a directory with only its dots, on a block that was free; nothing else changed. */
  ghost predicate DirMade(own: seq<int>, data: seq<seq<byte>>, view: seq<Inode>, own': seq<int>, data': seq<seq<byte>>,
                          view': seq<Inode>, ino: nat, dir: nat, mode: nat, b: nat)
  {
    && |view| == INODES && 0 < ino <= INODES && view[ino - 1].mode == 0 && b < |own| == |data| == |data'|
    && own[b] == FREE && own' == own[b := ino] && data' == data[b := data'[b]] && DotsOnly(data'[b], ino, dir)
    && view' == view[ino - 1 := DirInode(mode).(extents := OneBlock(b))]
  }

  /** Inodes in use did not change, and no other came into use. */
  ghost predicate SameLive(view: seq<Inode>, view': seq<Inode>) {
    |view| == |view'| && forall k :: 0 <= k < |view| ==> view'[k] == view[k] || (view[k].mode == 0 && view'[k] == NO_INODE)
  }

  /** A directory that unlink refuses: larger than its dots, with an entry left. */
  ghost predicate Busy(data: seq<seq<byte>>, n: Inode) {
    IsDir(n.mode) && n.size > 2 * ENTRY && Stored(data, Blocks(n.extents)) && Found(data, n, AnyEntry) < Visible(n)
  }

  ghost predicate Freed(own: seq<int>, own': seq<int>, k: int) {
    |own'| == |own| && forall b :: 0 <= b < |own| ==> own'[b] == if own[b] == k + 1 then FREE else own[b]
  }

  /** A directory that is gone has no entries; any other is looked up as before. */
  lemma LookupAfter(data: seq<seq<byte>>, view: seq<Inode>, t: nat, dir: nat, name: seq<byte>)
    requires |view| == INODES && 0 < t <= INODES
    ensures var view' := view[t - 1 := NO_INODE];
      Lookup(data, view', dir, name) == if dir == t then None else Lookup(data, view, dir, name)
  {
    NoBlocks();
    hide Found, Flat, Slot, EntryIno;
    VisibleNone(data, Named(name));
  }

  lemma VisibleNone(data: seq<seq<byte>>, want: Want)
    ensures Stored(data, Blocks(NO_INODE.extents)) && Visible(NO_INODE) == 0 && Found(data, NO_INODE, want) == 0
  {
    NoBlocks();
  }

  lemma BlankBits(bm: seq<seq<bv8>>, total: nat)
    requires BitmapShape(bm, total) && forall i, j :: 0 <= i < |bm| && 0 <= j < BLOCK ==> bm[i][j] == 0
    ensures forall x :: 0 <= x < total ==> !BitsOf(bm, total)[x]
  {
    assert forall k: nat :: k < 8 ==> !Bit(0, k);
  }

  lemma BlankGood(bits: seq<bool>, dataStart: nat, own: seq<int>, view: seq<Inode>, freeBlocks: int)
    requires |bits| == |own| < TWO_32 && 0 < dataStart <= |bits| && view == seq(INODES, _ => NO_INODE)
    requires forall x :: 0 <= x < |bits| ==>
      bits[x] == (x < dataStart) && own[x] == if x < dataStart then META else FREE
    requires freeBlocks == (|bits| - dataStart) % TWO_32
    ensures Good(Books(bits, dataStart, freeBlocks, INODES, 0), own, view) && Settled(own)
  {
    NoBlocks();
    ClearNone(bits, dataStart);
    ClearNone(Live(view), 0);
    forall k | 0 <= k < INODES ensures OwnsAt(own, view, k) { }
  }

  lemma RootGood(k: Books, own: seq<int>, view: seq<Inode>, b: nat, root: Inode)
    requires Good(k, own, view) && view[0].mode == 0 && b < |own| && own[b] == PENDING
    requires root == DirInode(0x1ED).(extents := OneBlock(b)) && view == seq(INODES, _ => NO_INODE)
    ensures Good(k.(freeInodes := INODES - 1), own[b := 1], view[0 := root])
  {
    var n := DirInode(0x1ED);
    BirthGood(k, own, view, 0, n);
    FirstAppend(b);
    AttachGood(k.(freeInodes := k.freeInodes - 1), own, view[0 := n], 0, root, b);
    assert view[0 := n][0 := root] == view[0 := root];
    ClearNone(Live(view), 0);
  }

  /** "." in a fresh directory is the directory. */
  lemma DotIsSelf(data: seq<seq<byte>>, view: seq<Inode>, ino: nat, b: nat, dir: nat)
    requires |view| == INODES && 0 < ino <= INODES && view[ino - 1].extents == OneBlock(b)
    requires view[ino - 1].size == 2 * ENTRY
    requires b < |data| && DotsOnly(data[b], ino, dir)
    ensures Lookup(data, view, ino, DOT) == Some(ino) && !Busy(data, view[ino - 1])
  {
    var n := view[ino - 1];
    assert Blocks(OneBlock(b)) == [b] by { FirstAppend(b); NoBlocks(); AppendInserts(NO_EXTENTS, b); }
    SlotInBlock(data, [b], 0, 0);
    FirstSlotIs(Flat(data, [b]), Named(DOT), 0, Visible(n));
  }

  /** No inode is free. */
  ghost predicate AllLive(view: seq<Inode>) { forall k :: 0 <= k < |view| ==> view[k].mode != 0 }

  /** The size of a file after a write that ends at `end`; sizes are 32-bit. */
  function NewSize(n: Inode, end: nat): nat { if end > n.size then end % TWO_32 else n.size }

  /** Growth up to `bytes` bytes keeps the file's blocks in order and its size in 32 bits. */
  ghost predicate Orderly(bits: seq<bool>, dataStart: nat, n: Inode, bytes: nat) {
    bytes < TWO_32 && GrowsInOrder(bits, dataStart, n.extents, Missing(bytes, |Blocks(n.extents)|))
  }

  /** The file's bytes are the old ones with `bytes` written over them at `at`. */
  ghost predicate Replaced(data: seq<seq<byte>>, n: Inode, data': seq<seq<byte>>, n': Inode, at: nat,
                           bytes: seq<byte>) {
    && Stored(data, Blocks(n.extents)) && Covered(n) && Stored(data', Blocks(n'.extents)) && Covered(n') && at <= n.size
    && Content(data', n') == Splice(Content(data, n), at, bytes)
  }

  lemma WriteDone(own0: seq<int>, data0: seq<seq<byte>>, n0: Inode, own: seq<int>, data: seq<seq<byte>>,
                  bits: seq<bool>, dataStart: nat, n: Inode, k: int, off: nat, buf: seq<byte>, w: nat, ordered: bool)
    requires Halfway(own0, data0, n0, own, data, bits, dataStart, n, k, off, buf, w, ordered)
    ensures Spared(own0, data0, data, k) && Grown(own0, own, k) && n == n0.(extents := n.extents) && w <= |buf|
    ensures Covered(n0) && off <= n0.size ==> Covered(n.(size := NewSize(n, off + w)))
    ensures Covered(n0) && off <= n0.size && ordered && off + |buf| < TWO_32 ==>
      Replaced(data0, n0, data, n.(size := NewSize(n, off + w)), off, buf[..w])
  {
    HalfwayFacts(own0, data0, n0, own, data, bits, dataStart, n, k, off, buf, w, ordered);
    if Covered(n0) && off <= n0.size {
      HalfwayDone(own0, data0, n0, own, data, bits, dataStart, n, k, off, buf, w, ordered);
    }
    hide Halfway, Blocks, Flat, Content;
  }

  lemma CoveredSet(view: seq<Inode>, k: nat, n: Inode)
    requires AllCovered(view) && k < |view| && Covered(n)
    ensures AllCovered(view[k := n])
  {
  }

  /** The first `m` of the blocks `bs` are free again, the others pending; the rest is as before. */
  ghost predicate FreedTo(own0: seq<int>, own: seq<int>, bs: seq<nat>, m: nat) {
    && |own| == |own0| && (forall x :: 0 <= x < |bs| ==> bs[x] < |own|) && NoDup(bs)
    && (forall x :: 0 <= x < |bs| ==> own[bs[x]] == if x < m then FREE else PENDING)
    && forall b: nat :: b < |own| && b !in bs ==> own[b] == own0[b]
  }

  lemma FreedStart(own: seq<int>, bs: seq<nat>, k: int)
    requires NoDup(bs) && forall b: nat :: b in bs <==> b < |own| && own[b] == k + 1
    ensures FreedTo(own, Released(own, k), bs, 0)
  {
    var r := Released(own, k);
    forall x | 0 <= x < |bs| ensures bs[x] < |own| && r[bs[x]] == PENDING { assert bs[x] in bs; }
    hide Released;
  }

  lemma FreedNext(own0: seq<int>, own: seq<int>, bs: seq<nat>, m: nat)
    requires FreedTo(own0, own, bs, m) && m < |bs|
    ensures bs[m] < |own| && own[bs[m]] == PENDING && FreedTo(own0, own[bs[m] := FREE], bs, m + 1)
  {
    assert bs[m] in bs;
  }

  lemma FreedAll(own0: seq<int>, own: seq<int>, bs: seq<nat>, k: int)
    requires FreedTo(own0, own, bs, |bs|) && Settled(own0)
    requires forall b: nat :: b in bs <==> b < |own0| && own0[b] == k + 1
    ensures Settled(own) && forall b :: 0 <= b < |own| ==> own[b] == if own0[b] == k + 1 then FREE else own0[b]
  {
    forall b: nat | b < |own| ensures own[b] == if own0[b] == k + 1 then FREE else own0[b] {
      if b in bs { var x :| 0 <= x < |bs| && bs[x] == b; }
    }
  }

  /** The inode a name stands for in directory `dir`. */
  ghost function Lookup(data: seq<seq<byte>>, view: seq<Inode>, dir: nat, name: seq<byte>): Option<nat>
    requires |view| == INODES
  {
    if dir == 0 || dir > INODES || !Stored(data, Blocks(view[dir - 1].extents)) then None
    else
      var n := view[dir - 1];
      var e := Found(data, n, Named(name));
      if e == Visible(n) then None else Some(EntryIno(Slot(Flat(data, Blocks(n.extents)), e)))
  }

  lemma NoZero(k: Books, own: seq<int>, view: seq<Inode>, i: nat)
    requires Laid(k, own, view) && i < INODES
    ensures 0 !in Blocks(view[i].extents) && |view[i].extents| == SLOTS && Shaped(view[i].extents)
  {
    OwnsOne(own, view, i);
  }

  /** Slot `j` of block `b` now holds the entry; it was a free slot of the directory, or the
      block is new and otherwise empty. Nothing else changed. */
  ghost predicate Entered(own: seq<int>, own': seq<int>, data: seq<seq<byte>>, data': seq<seq<byte>>, k: int,
                          b: nat, j: nat, ino: nat, name: seq<byte>)
  {
    && b < |own| == |own'| == |data| == |data'| && own'[b] == k + 1 && own' == own[b := own'[b]]
    && data' == data[b := data'[b]]
    && j < PER_BLOCK && |data[b]| == |data'[b]| == BLOCK
    && EntryIno(Slot(data'[b], j)) == ino && EntryName(Slot(data'[b], j)) == StoredName(name)
    && (own[b] == k + 1 ==>
        EntryIno(Slot(data[b], j)) == 0 && forall i :: 0 <= i < PER_BLOCK && i != j ==> Slot(data'[b], i) == Slot(data[b], i))
    && (own[b] != k + 1 ==>
        own[b] == FREE && forall i :: 0 <= i < PER_BLOCK && i != j ==> EntryIno(Slot(data'[b], i)) == 0)
  }

  /** Slot `j` of block `b` is an entry of this kind, and records the length of its name. */
  ghost predicate Typed(data: seq<seq<byte>>, b: nat, j: nat, kind: byte, name: seq<byte>) {
    && b < |data| && j < PER_BLOCK && |data[b]| == BLOCK
    && EntryKind(Slot(data[b], j)) == kind && EntryLen(Slot(data[b], j)) == |StoredName(name)|
  }

  lemma EnteredHere(own: seq<int>, data: seq<seq<byte>>, data': seq<seq<byte>>, k: int, b: nat, j: nat, ino: nat,
                    name: seq<byte>)
    requires b < |own| == |data| == |data'| && own[b] == k + 1 && data' == data[b := data'[b]]
    requires j < PER_BLOCK && |data[b]| == |data'[b]| == BLOCK && EntryIno(Slot(data[b], j)) == 0
    requires EntryIno(Slot(data'[b], j)) == ino && EntryName(Slot(data'[b], j)) == StoredName(name)
    requires forall i :: 0 <= i < PER_BLOCK && i != j ==> Slot(data'[b], i) == Slot(data[b], i)
    ensures Entered(own, own, data, data', k, b, j, ino, name)
  {
    Same(own, b);
  }

  lemma EnteredNew(own: seq<int>, data: seq<seq<byte>>, data': seq<seq<byte>>, k: int, b: nat, ino: nat,
                   name: seq<byte>)
    requires b < |own| == |data| == |data'| && own[b] == FREE && k >= 0 && data' == data[b := data'[b]]
    requires |data[b]| == |data'[b]| == BLOCK
    requires EntryIno(Slot(data'[b], 0)) == ino && EntryName(Slot(data'[b], 0)) == StoredName(name)
    requires forall i :: 0 <= i < PER_BLOCK && i != 0 ==> Slot(data'[b], i) == Slot(ZEROS, i)
    ensures Entered(own, own[b := k + 1], data, data', k, b, 0, ino, name)
  {
    assert forall i :: 0 <= i < PER_BLOCK ==> EntryIno(Slot(ZEROS, i)) == 0;
  }

  /** Directory `k + 1` has one more entry, and no other inode changed. */
  ghost predicate Listed(own: seq<int>, data: seq<seq<byte>>, view: seq<Inode>, own': seq<int>, data': seq<seq<byte>>,
                         view': seq<Inode>, k: int, b: nat, j: nat, ino: nat, name: seq<byte>)
  {
    && Entered(own, own', data, data', k, b, j, ino, name) && |view| == |view'| == INODES && 0 <= k < INODES
    && view' == view[k := view[k].(size := (view[k].size + ENTRY) % TWO_32, extents := view'[k].extents)]
  }

  lemma ListedView(own: seq<int>, data: seq<seq<byte>>, view: seq<Inode>, own': seq<int>, data': seq<seq<byte>>,
                   view': seq<Inode>, k: int, b: nat, j: nat, ino: nat, name: seq<byte>)
    requires Listed(own, data, view, own', data', view', k, b, j, ino, name)
    ensures |view| == |view'| == INODES && 0 <= k < INODES
    ensures view' == view[k := view[k].(size := (view[k].size + ENTRY) % TWO_32, extents := view'[k].extents)]
  {
    hide Entered;
  }

  /** Slot `j` of block `b` held the name and is free now; nothing else changed. */
  ghost predicate Struck(own: seq<int>, data: seq<seq<byte>>, data': seq<seq<byte>>, k: int, b: nat, j: nat,
                         name: seq<byte>) {
    && b < |own| == |data| == |data'| && own[b] == k + 1 && data' == data[b := data'[b]]
    && j < PER_BLOCK && |data[b]| == |data'[b]| == BLOCK && Fits(Slot(data[b], j), Named(name))
    && EntryIno(Slot(data'[b], j)) == 0 && EntryName(Slot(data'[b], j)) == []
    && forall i :: 0 <= i < PER_BLOCK && i != j ==> Slot(data'[b], i) == Slot(data[b], i)
  }

  lemma StruckHere(own: seq<int>, data: seq<seq<byte>>, data': seq<seq<byte>>, k: int, b: nat, j: nat, name: seq<byte>)
    requires b < |own| == |data| == |data'| && own[b] == k + 1 && data' == data[b := data'[b]]
    requires j < PER_BLOCK && |data[b]| == |data'[b]| == BLOCK && Fits(Slot(data[b], j), Named(name))
    requires EntryIno(Slot(data'[b], j)) == 0 && EntryName(Slot(data'[b], j)) == []
    requires forall i :: 0 <= i < PER_BLOCK && i != j ==> Slot(data'[b], i) == Slot(data[b], i)
    ensures Struck(own, data, data', k, b, j, name)
  {
    hide Fits, EntryIno, EntryName, Slot;
  }

  /** Directory `k + 1` has one entry less, and no other inode changed. */
  ghost predicate Unlisted(own: seq<int>, data: seq<seq<byte>>, view: seq<Inode>, data': seq<seq<byte>>,
                           view': seq<Inode>,
                           k: int, b: nat, j: nat, name: seq<byte>)
  {
    && Struck(own, data, data', k, b, j, name) && |view| == |view'| == INODES && 0 <= k < INODES
    && view' == view[k := view[k].(size := (view[k].size - ENTRY) % TWO_32)]
  }

  lemma Same<T>(s: seq<T>, k: nat)
    requires k < |s|
    ensures s[k := s[k]] == s
  {
  }

  lemma CoveredDir(view: seq<Inode>, k: nat, n: Inode)
    requires AllCovered(view) && k < |view| && (n.mode == 0 || IsDir(n.mode))
    ensures AllCovered(view[k := n])
  {
  }

  lemma Undo<T>(s: seq<T>, k: nat, v: T)
    requires k < |s|
    ensures s[k := v][k := s[k]] == s
  {
  }

  // ---- consistency after an operation ----

  /** The blocks a write took are listed by an inode in use: it took none, or the inode is in use and is
      written back because the file got longer. */
  ghost predicate Accounted(n: Inode, got: nat, end: nat) { got == 0 || (n.mode != 0 && end > n.size) }

  /** The inode table after a write that ends at `end`: the inode is written back only when the file got longer. */
  ghost function WrittenBack(view: seq<Inode>, i: nat, n: Inode, end: nat): seq<Inode>
    requires i < |view|
  {
    if end > view[i].size then view[i := n.(size := end % TWO_32)] else view
  }

  lemma WriteKeeps(k: Books, own: seq<int>, view: seq<Inode>, i: nat, n: Inode, end: nat)
    requires |view| == INODES && i < INODES && Good(k, own, view[i := n]) && n == view[i].(extents := n.extents)
    requires end > view[i].size || n == view[i]
    ensures Good(k, own, WrittenBack(view, i, n, end))
  {
    var n' := n.(size := end % TWO_32);
    ChangeGood(k, own, view[i := n], i, n');
    assert view[i := n][i := n'] == view[i := n'];
    if n == view[i] { Same(view, i); }
    hide Good, Laid;
  }

  /** A write leaves a volume that passes the check exactly when the blocks it took are accounted for. */
  lemma WriteExact(k: Books, own: seq<int>, view: seq<Inode>, i: nat, n: Inode, got: nat, end: nat)
    requires |view| == INODES && i < INODES && Good(k, own, view[i := n]) && Settled(own) && DeadEmpty(view)
    requires n == view[i].(extents := n.extents) && (got == 0 ==> n == view[i])
    requires got > 0 ==> exists b :: b in Blocks(n.extents) && b !in Blocks(view[i].extents)
    ensures Accounted(view[i], got, end) ==>
      Good(k, own, WrittenBack(view, i, n, end)) && DeadEmpty(WrittenBack(view, i, n, end))
    ensures Clean(k, WrittenBack(view, i, n, end)) <==> Accounted(view[i], got, end)
  {
    hide Good, Laid, Clean;
    var view' := WrittenBack(view, i, n, end);
    if Accounted(view[i], got, end) {
      WriteKeeps(k, own, view, i, n, end);
      Consistent(k, own, view');
    } else {
      var b :| b in Blocks(n.extents) && b !in Blocks(view[i].extents);
      GoodIsLaid(k, own, view[i := n]);
      if end > view[i].size {
        WriteKeeps(k, own, view, i, n, end);
        GoodIsLaid(k, own, view');
        DeadOwner(k, own, view', i, b);
      } else {
        Unwritten(k, own, view, i, n, b);
      }
    }
  }

  lemma WroteBack(own: seq<int>, data: seq<seq<byte>>, view: seq<Inode>, data': seq<seq<byte>>, i: nat, n: Inode,
                  end: nat)
    requires |view| == INODES && i < INODES && Spared(own, data, data', i) && n == view[i].(extents := n.extents)
    ensures Wrote(own, data, view, data', WrittenBack(view, i, n, end), i)
  {
    hide Spared;
  }

  lemma GoodCounts(k: Books, own: seq<int>, view: seq<Inode>)
    requires Good(k, own, view)
    ensures k.freeBlocks == Clear(k.bits) && k.freeInodes == Clear(Live(view))
  {
  }

  lemma PendingInside(k: Books, own: seq<int>, view: seq<Inode>, b: nat)
    requires Good(k, own, view) && b < |own| && own[b] == PENDING
    ensures |own| == |k.bits| && 0 < b
  {
  }

  lemma DeadSet(view: seq<Inode>, k: nat, n: Inode)
    requires DeadEmpty(view) && k < |view| && (n.mode != 0 || n == NO_INODE)
    ensures DeadEmpty(view[k := n])
  {
    NoBlocks();
    hide Blocks;
  }

  lemma GoodIsLaid(k: Books, own: seq<int>, view: seq<Inode>)
    requires Good(k, own, view)
    ensures Laid(k, own, view)
  {
  }

  /** An entry added to a directory leaves a volume that passes the check exactly when the directory's inode is in use.
      */
  lemma ListExact(k: Books, own: seq<int>, view: seq<Inode>, view': seq<Inode>, i: nat)
    requires |view| == INODES && i < INODES && Good(k, own, view') && Settled(own) && DeadEmpty(view)
    requires view' == view[i := view[i].(size := (view[i].size + ENTRY) % TWO_32, extents := view'[i].extents)]
    requires Blocks(view'[i].extents) != []
    ensures view[i].mode != 0 ==> DeadEmpty(view')
    ensures Clean(k, view') <==> view[i].mode != 0
  {
    hide Good, Laid, Clean, Blocks;
    if view[i].mode != 0 {
      Consistent(k, own, view');
    } else {
      GoodIsLaid(k, own, view');
      DeadOwner(k, own, view', i, Blocks(view'[i].extents)[0]);
    }
  }

  // ---- places in a directory ----

  /** Slot `e` of the directory is slot `j` of block `b`. */
  ghost predicate At(n: Inode, e: nat, b: nat, j: nat) {
    e / PER_BLOCK < |Blocks(n.extents)| && b == Blocks(n.extents)[e / PER_BLOCK] && j == e % PER_BLOCK
  }

  lemma AtIs(n: Inode, i: nat, j: nat)
    requires i < |Blocks(n.extents)| && j < PER_BLOCK
    ensures At(n, SlotsIn(i) + j, Blocks(n.extents)[i], j)
  {
  }

  ghost predicate HasFree(data: seq<seq<byte>>, n: Inode) {
    Stored(data, Blocks(n.extents)) && Found(data, n, FreeSlot) < Visible(n)
  }

  /** There is a place for one more entry: a free slot in sight, or a block for a new one. */
  ghost predicate Takes(data: seq<seq<byte>>, bits: seq<bool>, dataStart: nat, n: Inode) {
    HasFree(data, n) || !NoRoom(bits, dataStart, n.extents)
  }

  /** The entry goes to the first free slot in sight, or to the first slot of the lowest free block,
      which the directory takes. */
  ghost predicate Spot(data: seq<seq<byte>>, bits: seq<bool>, dataStart: nat, n: Inode, es: seq<Extent>, b: nat,
                       j: nat) {
    if HasFree(data, n) then es == n.extents && At(n, Found(data, n, FreeSlot), b, j)
    else b == LowestFree(bits, dataStart) && b < |bits| && j == 0 && Append(n.extents, b) == Some(es)
  }

  lemma SpotHas(data: seq<seq<byte>>, bits: seq<bool>, dataStart: nat, n: Inode, es: seq<Extent>, b: nat, j: nat)
    requires Spot(data, bits, dataStart, n, es, b, j) && Shaped(n.extents)
    ensures Blocks(es) != []
  {
    if !HasFree(data, n) { AppendHas(n.extents, b); }
  }

  // ---- unused inodes ----

  function InodeFrom(start: nat, k: nat): nat {
    var s := if start < 1 || start > INODES then 1 else start;
    if s + k > INODES then s + k - INODES else s + k
  }

  /** The first unused inode from `start` on, going round the table once. */
  ghost function Unused(view: seq<Inode>, start: nat, k: nat): (r: nat)
    requires |view| == INODES && k <= INODES
    ensures r <= INODES && (r != 0 ==> view[r - 1].mode == 0)
    decreases INODES - k
  {
    if k == INODES then 0
    else
      var i := InodeFrom(start, k);
      if view[i - 1].mode == 0 then i else Unused(view, start, k + 1)
  }

  lemma UnusedNext(view: seq<Inode>, start: nat, k: nat)
    requires |view| == INODES && k < INODES
    ensures 0 < InodeFrom(start, k) <= INODES
    ensures Unused(view, start, k) == if view[InodeFrom(start, k) - 1].mode == 0 then InodeFrom(start, k)
      else Unused(view, start, k + 1)
  {
  }

  lemma UnusedEnd(view: seq<Inode>, start: nat)
    requires |view| == INODES
    ensures Unused(view, start, INODES) == 0
  {
  }

  // ---- a write ----

  /** The files after a write of `buf` at `offset` to inode `k + 1`. */
  ghost predicate PutFile(own0: seq<int>, data0: seq<seq<byte>>, view0: seq<Inode>, bits0: seq<bool>, own: seq<int>,
                          data: seq<seq<byte>>,
                          view: seq<Inode>, dataStart: nat, k: nat, offset: nat, buf: seq<byte>, w: nat)
  {
    && |view0| == INODES && k < INODES && Wrote(own0, data0, view0, data, view, k) && Grown(own0, own, k)
    && var n0 := view0[k];
    && w == Written(bits0, dataStart, n0, offset, |buf|) && w <= |buf| && view[k].size == NewSize(n0, offset + w)
    && |Blocks(view[k].extents)| ==
        |Blocks(n0.extents)| + (if offset + w > n0.size then Gets(bits0, dataStart, n0, offset, |buf|) else 0)
    && (Gets(bits0, dataStart, n0, offset, |buf|) == 0 ==> view[k].extents == n0.extents)
    && (Covered(n0) && offset <= n0.size ==> Covered(view[k]))
    && (Covered(n0) && offset <= n0.size && Orderly(bits0, dataStart, n0, offset + |buf|) ==>
        Replaced(data0, n0, data, view[k], offset, buf[..w]))
  }

  lemma FileAfter(own0: seq<int>, data0: seq<seq<byte>>, view0: seq<Inode>, bits0: seq<bool>, own: seq<int>,
                  data: seq<seq<byte>>,
                  bits: seq<bool>, dataStart: nat, k: nat, n: Inode, offset: nat, buf: seq<byte>, w: nat, ordered: bool)
    requires |view0| == INODES && k < INODES && ordered == InOrder(bits0, dataStart, view0[k], offset, |buf|)
    requires Halfway(own0, data0, view0[k], own, data, bits, dataStart, n, k, offset, buf, w, ordered)
    requires Filled(bits0, view0[k], bits, n, dataStart, offset, |buf|, w)
    ensures PutFile(own0, data0, view0, bits0, own, data, WrittenBack(view0, k, n, offset + w), dataStart, k, offset,
                    buf, w)
  {
    hide *;
    WriteDone(own0, data0, view0[k], own, data, bits, dataStart, n, k, offset, buf, w, ordered);
    FilledFacts(bits0, view0[k], bits, n, dataStart, offset, |buf|, w);
    FileIs(own0, data0, view0, bits0, own, data, dataStart, k, n, offset, buf, w);
  }

  lemma FileIs(own0: seq<int>, data0: seq<seq<byte>>, view0: seq<Inode>, bits0: seq<bool>, own: seq<int>,
               data: seq<seq<byte>>,
               dataStart: nat, k: nat, n: Inode, offset: nat, buf: seq<byte>, w: nat)
    requires |view0| == INODES && k < INODES && Spared(own0, data0, data, k) && Grown(own0, own, k)
    requires n == view0[k].(extents := n.extents)
    requires w <= |buf| && w == Written(bits0, dataStart, view0[k], offset, |buf|)
    requires |Blocks(n.extents)| == |Blocks(view0[k].extents)| + Gets(bits0, dataStart, view0[k], offset, |buf|)
    requires Gets(bits0, dataStart, view0[k], offset, |buf|) == 0 ==> n == view0[k]
    requires Covered(view0[k]) ==> offset + w > view0[k].size || n == view0[k]
    requires Covered(view0[k]) && offset <= view0[k].size ==> Covered(n.(size := NewSize(n, offset + w)))
    requires Covered(view0[k]) && offset <= view0[k].size && InOrder(bits0, dataStart, view0[k], offset, |buf|) && offset + |buf| < TWO_32 ==>
      Replaced(data0, view0[k], data, n.(size := NewSize(n, offset + w)), offset, buf[..w])
    ensures PutFile(own0, data0, view0, bits0, own, data, WrittenBack(view0, k, n, offset + w), dataStart, k, offset,
                    buf, w)
  {
    hide Gets, Written, Blocks, Covered, Replaced, Spared, Grown, InOrder, Missing, GrowsInOrder, Wrote;
    var n0 := view0[k];
    WroteBack(own0, data0, view0, data, k, n, offset + w);
    if Covered(n0) && offset <= n0.size && Orderly(bits0, dataStart, n0, offset + |buf|) {
      CoveredInOrder(bits0, dataStart, n0, offset, |buf|);
    }
    if Covered(n0) { assert WrittenBack(view0, k, n, offset + w)[k] == n.(size := NewSize(n, offset + w)); }
  }

  // ---- a new volume ----

  /** Only the root directory, with its dots, on the first data block. */
  ghost predicate Formatted(own: seq<int>, data: seq<seq<byte>>, view: seq<Inode>, bits: seq<bool>, dataStart: nat) {
    && |own| == |data| == |bits| && dataStart < |bits| && DotsOnly(data[dataStart], 1, 1)
    && view == seq(INODES, _ => NO_INODE)[0 := DirInode(0x1ED).(extents := OneBlock(dataStart))]
    && forall x :: 0 <= x < |bits| ==>
        bits[x] == (x <= dataStart) && own[x] == if x < dataStart then META else if x == dataStart then 1 else FREE
  }
}
