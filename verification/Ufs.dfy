/** UFS over a disk split into typed areas: superblock, bitmap, inode table and data blocks.
    Operations share one scratch buffer, as the driver's do. */
module Ufs {
  import opened Words
  import opened Wrappers
  import opened Bitmap
  import opened Extents
  import opened UfsBooks
  import opened UfsFiles
  import opened UfsDir
  import opened UfsSpec

  class Mount {
    const total: nat
    const dataStart: nat
    // superblock in memory, its copy on disk, and the search cursors
    var freeBlocks: int
    var freeInodes: int
    var savedBlocks: int
    var savedInodes: int
    var nextBlock: nat
    var nextInode: nat
    // the other areas of the disk
    var bitmap: seq<seq<bv8>>
    var inodes: seq<Inode>
    var data: seq<seq<byte>>
    var blkBuf: Buffer
    ghost var own: seq<int>

    ghost predicate Shape()
      reads this`bitmap, this`inodes, this`data
    {
      && BitmapShape(bitmap, total) && |inodes| == INODES && dataStart > 0
      && |data| == total && Sized(data)
    }

    ghost function Bits(): seq<bool>
      requires BitmapShape(bitmap, total)
      reads this`bitmap
    {
      BitsOf(bitmap, total)
    }

    /** The books agree with `view`, the inode table as the running operation sees it, except perhaps for
        the number of free inodes. */
    ghost predicate Layout(view: seq<Inode>)
      reads this`bitmap, this`inodes, this`data, this`own, this`freeBlocks, this`freeInodes, this`nextBlock
    {
      Shape() && Laid(Books(Bits(), dataStart, freeBlocks, freeInodes, nextBlock), own, view)
    }

    /** The books agree with `view`, and the superblock on disk with the one in memory. */
    ghost predicate Holds(view: seq<Inode>)
      reads this`bitmap, this`inodes, this`data, this`own, this`freeBlocks, this`freeInodes,
        this`savedBlocks, this`savedInodes, this`nextBlock
    {
      && Shape() && Good(Books(Bits(), dataStart, freeBlocks, freeInodes, nextBlock), own, view)
      && savedBlocks == freeBlocks && savedInodes == freeInodes
    }

    /** The books agree with the disk and no operation is in progress. */
    ghost predicate Sound()
      reads this`bitmap, this`inodes, this`data, this`own, this`freeBlocks, this`freeInodes,
        this`savedBlocks, this`savedInodes, this`nextBlock
    {
      Holds(inodes) && Settled(own)
    }

    /** The volume is consistent: moreover, unused inodes have no blocks. */
    ghost predicate Valid()
      reads this`bitmap, this`inodes, this`data, this`own, this`freeBlocks, this`freeInodes,
        this`savedBlocks, this`savedInodes, this`nextBlock
    {
      Sound() && DeadEmpty(inodes)
    }

    /** What a check of the volume on disk finds, whatever the model knows about owners. */
    ghost predicate PassesAudit()
      reads this`bitmap, this`inodes, this`data, this`freeBlocks, this`freeInodes, this`nextBlock
    {
      Shape() && Clean(Books(Bits(), dataStart, freeBlocks, freeInodes, nextBlock), inodes)
    }

    lemma SoundLayout()
      requires Sound()
      ensures Layout(inodes)
    {
      hide Laid;
    }

    lemma Audit()
      requires Valid()
      ensures PassesAudit()
    {
      Consistent(Books(Bits(), dataStart, freeBlocks, freeInodes, nextBlock), own, inodes);
    }

    // ---- blocks ----

    method BitmapGet(b: nat) returns (r: int)
      requires BitmapShape(bitmap, total)
      modifies this`blkBuf
      ensures r == if b >= total then -1 else if Bits()[b] then 1 else 0
    {
      if b >= total {
        return -1;
      }
      blkBuf := BitmapBuf(bitmap[b / BITS]);
      r := if Bit(blkBuf.bits[b % BITS / 8], b % 8) then 1 else 0;
    }

    method BitmapSet(b: nat, v: bool)
      requires BitmapShape(bitmap, total)
      modifies this`blkBuf, this`bitmap
      ensures BitmapShape(bitmap, total)
      ensures Bits() == if b < total then old(Bits())[b := v] else old(Bits())
    {
      if b >= total {
        return;
      }
      BitsSet(bitmap, total, b, v);
      var off := b % BITS / 8;
      blkBuf := BitmapBuf(bitmap[b / BITS]);
      blkBuf := BitmapBuf(blkBuf.bits[off := WithBit(blkBuf.bits[off], b % 8, v)]);
      bitmap := bitmap[b / BITS := blkBuf.bits];
    }

    method WriteSuperblock()
      modifies this`blkBuf, this`savedBlocks, this`savedInodes
      ensures savedBlocks == freeBlocks && savedInodes == freeInodes
    {
      blkBuf := SuperBuf;
      savedBlocks, savedInodes := freeBlocks, freeInodes;
    }

    /** The search that starts at the cursor and goes round: it finds the lowest free data block,
        or 0 when none is free, because nothing below the cursor is free. */
    method CursorScan() returns (b: nat)
      requires BitmapShape(bitmap, total) && dataStart > 0
      requires (dataStart <= total ==> Behind(Bits(), dataStart, nextBlock))
      modifies this`blkBuf
      ensures b == (var f := LowestFree(Bits(), dataStart); if f < total then f else 0)
    {
      var start := if nextBlock < dataStart then dataStart else nextBlock;
      var i := 0;
      while i < total
        invariant 0 <= i <= total
        invariant forall x :: dataStart <= x < total && x < start + i ==> Bits()[x]
      {
        b := start + i;
        if b >= total {
          b := dataStart + (b - total);
        }
        var bit := BitmapGet(b);
        if bit == 0 {
          LowestFreeIs(Bits(), dataStart, b);
          return;
        }
        i := i + 1;
      }
      return 0;
    }

    /** The plain scan of the reference driver finds the same block. */
    method PlainScan() returns (b: nat)
      requires BitmapShape(bitmap, total) && dataStart > 0
      ensures b == (var f := LowestFree(Bits(), dataStart); if f < total then f else 0)
    {
      var i := dataStart;
      while i < total
        invariant dataStart <= i && forall x :: dataStart <= x < i && x < total ==> Bits()[x]
      {
        if !Bit(bitmap[i / BITS][i % BITS / 8], i % 8) {
          LowestFreeIs(Bits(), dataStart, i);
          return i;
        }
        i := i + 1;
      }
      return 0;
    }

    /** Takes the lowest free data block, zeroed; 0 when none is free. */
    method AllocBlock(ghost view: seq<Inode>) returns (b: nat)
      requires Shape() && (dataStart <= total ==> Holds(view))
      modifies this`bitmap, this`freeBlocks, this`savedBlocks, this`savedInodes, this`nextBlock, this`data,
        this`blkBuf, this`own
      ensures Shape() && (dataStart <= total ==> Holds(view))
      ensures b == (var f := LowestFree(old(Bits()), dataStart); if f < total then f else 0)
      ensures b == 0 ==> data == old(data) && own == old(own) && Bits() == old(Bits())
      ensures b != 0 ==>
        && dataStart <= b < total && old(own)[b] == FREE && own == old(own)[b := PENDING]
        && data == old(data)[b := ZEROS] && Bits() == old(Bits())[b := true]
    {
      b := CursorScan();
      if b != 0 {
        TakeBlock(b, view);
      }
    }

    method TakeBlock(b: nat, ghost view: seq<Inode>)
      requires Holds(view) && dataStart <= b < total && !Bits()[b] && forall x :: dataStart <= x < b ==> Bits()[x]
      modifies this`bitmap, this`freeBlocks, this`savedBlocks, this`savedInodes, this`nextBlock, this`data,
        this`blkBuf, this`own
      ensures Holds(view) && old(own)[b] == FREE && own == old(own)[b := PENDING]
      ensures data == old(data)[b := ZEROS] && Bits() == old(Bits())[b := true]
    {
      TakeGood(Books(Bits(), dataStart, freeBlocks, freeInodes, nextBlock), own, view, b);
      hide Good, BitmapShape;
      BitmapSet(b, true);
      freeBlocks := freeBlocks - 1;
      nextBlock := b + 1;
      blkBuf := DataBuf(ZEROS);
      data := data[b := blkBuf.bytes];
      own := own[b := PENDING];
      WriteSuperblock();
    }

    /** Clears the block's bit and counts it, whatever its state was. By `GiveExact` books that agreed still
        do exactly when the block was taken and belonged to no inode. */
    method FreeBlock(b: nat)
      requires Shape() && |own| == total
      modifies this`bitmap, this`freeBlocks, this`savedBlocks, this`savedInodes, this`nextBlock, this`blkBuf, this`own
      ensures Shape()
      ensures b == 0 || b >= total ==>
        own == old(own) && Bits() == old(Bits()) && freeBlocks == old(freeBlocks) && savedBlocks == old(savedBlocks)
        && savedInodes == old(savedInodes) && nextBlock == old(nextBlock)
      ensures 0 < b < total ==>
        && own == old(own)[b := FREE]
        && Books(Bits(), dataStart, freeBlocks, freeInodes,
                 nextBlock) == Given(old(Books(Bits(), dataStart, freeBlocks, freeInodes, nextBlock)),
                                     b) && savedBlocks == freeBlocks && savedInodes == freeInodes
    {
      if b == 0 || b >= total {
        return;
      }
      hide BitmapShape;
      BitmapSet(b, false);
      freeBlocks := freeBlocks + 1;
      if b < nextBlock {
        nextBlock := b;
      }
      own := own[b := FREE];
      WriteSuperblock();
    }

    // ---- inodes ----

    method ReadInode(ino: nat) returns (r: Option<Inode>)
      requires |inodes| == INODES
      ensures r == if ino == 0 || ino > INODES then None else Some(inodes[ino - 1])
    {
      r := if ino == 0 || ino > INODES then None else Some(inodes[ino - 1]);
    }

    method WriteInode(ino: nat, n: Inode)
      requires |inodes| == INODES
      modifies this`inodes
      ensures inodes == if ino == 0 || ino > INODES then old(inodes) else old(inodes)[ino - 1 := n]
    {
      if 0 < ino <= INODES {
        inodes := inodes[ino - 1 := n];
      }
    }

    /** Searches the table from the cursor, going round, for an unused inode. */
    method InodeScan() returns (ino: nat)
      requires |inodes| == INODES
      modifies this`blkBuf
      ensures ino <= INODES
      ensures ino != 0 ==> inodes[ino - 1].mode == 0
      ensures ino == 0 <==> forall k :: 0 <= k < INODES ==> inodes[k].mode != 0
      ensures ino == Unused(inodes, nextInode, 0)
    {
      hide Unused;
      var start := if nextInode < 1 || nextInode > INODES then 1 else nextInode;
      var k := 0;
      while k < INODES
        invariant 0 <= k <= INODES && Unused(inodes, nextInode, 0) == Unused(inodes, nextInode, k)
        invariant forall j :: 0 <= j < INODES && (start <= j + 1 < start + k || j + 1 + INODES < start + k) ==>
          inodes[j].mode != 0
      {
        ino := start + k;
        if ino > INODES {
          ino := 1 + (ino - INODES - 1);
        }
        assert ino == InodeFrom(nextInode, k);
        UnusedNext(inodes, nextInode, k);
        blkBuf := TableBuf((ino - 1) / INODES_PER_BLOCK);
        if inodes[ino - 1].mode == 0 {
          return;
        }
        k := k + 1;
      }
      UnusedEnd(inodes, nextInode);
      return 0;
    }

    /** Reserves an unused inode for `n`, which has no blocks; 0 when all are in use. */
    method AllocInode(ghost n: Inode) returns (ino: nat)
      requires Holds(inodes) && DeadEmpty(inodes) && n.mode != 0 && n.extents == NO_EXTENTS
      modifies this`inodes, this`freeInodes, this`savedBlocks, this`savedInodes, this`nextInode, this`blkBuf
      ensures ino <= INODES && |inodes| == INODES && ino == Unused(old(inodes), old(nextInode), 0)
      ensures ino == 0 <==> forall k :: 0 <= k < INODES ==> old(inodes)[k].mode != 0
      ensures ino == 0 ==> Holds(inodes) && inodes == old(inodes)
      ensures nextInode == if ino == 0 then old(nextInode) else ino + 1
      ensures ino != 0 ==>
        && old(inodes)[ino - 1].mode == 0 && inodes == old(inodes)[ino - 1 := NO_INODE]
        && Holds(inodes[ino - 1 := n])
    {
      hide Unused, Good, DeadEmpty;
      ino := InodeScan();
      if ino != 0 {
        Reserve(ino, n);
      }
    }

    method Reserve(ino: nat, ghost n: Inode)
      requires 0 < ino <= INODES && Holds(inodes) && DeadEmpty(inodes) && inodes[ino - 1].mode == 0 && n.mode != 0
      requires n.extents == NO_EXTENTS
      modifies this`inodes, this`freeInodes, this`savedBlocks, this`savedInodes, this`nextInode, this`blkBuf
      ensures |inodes| == INODES && inodes == old(inodes)[ino - 1 := NO_INODE] && Holds(inodes[ino - 1 := n])
      ensures nextInode == ino + 1
    {
      BirthGood(Books(Bits(), dataStart, freeBlocks, freeInodes, nextBlock), own, inodes, ino - 1, n);
      hide Good, BitmapShape;
      inodes := inodes[ino - 1 := NO_INODE];
      freeInodes := freeInodes - 1;
      nextInode := ino + 1;
      WriteSuperblock();
      assert inodes[ino - 1 := n] == old(inodes)[ino - 1 := n];
    }

    /** Clears an inode that has no blocks left and counts it as free. Books that agreed still do exactly
        when the inode was in use; otherwise the count is one too high. */
    method FreeInode(ino: nat, ghost n: Inode)
      requires |inodes| == INODES
      requires 0 < ino <= INODES ==> Holds(inodes[ino - 1 := n]) && n.extents == NO_EXTENTS
      modifies this`inodes, this`freeInodes, this`savedBlocks, this`savedInodes, this`nextInode, this`blkBuf
      ensures ino == 0 || ino > INODES ==> inodes == old(inodes) && freeInodes == old(freeInodes)
      ensures nextInode == if 0 < ino <= INODES && ino < old(nextInode) then ino else old(nextInode)
      ensures 0 < ino <= INODES ==>
        && inodes == old(inodes)[ino - 1 := NO_INODE] && Layout(inodes) && (Holds(inodes) <==> n.mode != 0)
        && freeInodes == old(freeInodes) + 1 && (n.mode == 0 ==> freeInodes == Clear(Live(inodes)) + 1)
    {
      if ino == 0 || ino > INODES {
        return;
      }
      ghost var view := inodes[ino - 1 := n];
      FreeInodeExact(Books(Bits(), dataStart, freeBlocks, freeInodes, nextBlock), own, view, ino - 1);
      hide Good, BitmapShape, Laid;
      assert view[ino - 1 := NO_INODE] == inodes[ino - 1 := NO_INODE];
      assert n.mode == 0 ==> freeInodes == Clear(Live(inodes[ino - 1 := NO_INODE])) by {
        GoodCounts(Books(Bits(), dataStart, freeBlocks, freeInodes, nextBlock), own, view);
      }
      WriteInode(ino, NO_INODE);
      freeInodes := freeInodes + 1;
      if ino < nextInode {
        nextInode := ino;
      }
      WriteSuperblock();
    }

    // ---- file data ----

    /** Copies up to `want` bytes, block by block, and stops at the first block the file does not have. */
    method ReadBlocks(n: Inode, want: nat, offset: nat) returns (r: seq<byte>)
      requires |n.extents| == SLOTS && Shaped(n.extents) && Stored(data, Blocks(n.extents)) && |data| == total
      requires 0 !in Blocks(n.extents)
      modifies this`blkBuf
      ensures r == Taken(Flat(data, Blocks(n.extents)), offset, want)
    {
      hide Blocks, Flat, Shaped, Taken;
      ghost var bs := Blocks(n.extents);
      ghost var f := Flat(data, bs);
      var block, so := offset / BLOCK, offset % BLOCK;
      r := [];
      TakenNone(f, offset);
      while |r| < want
        invariant |r| <= want && (|r| < want ==> offset + |r| == BLOCK * block + so)
        invariant 0 <= so < BLOCK && r == Taken(f, offset, |r|)
        decreases want - |r|
      {
        var b := GetBlock(n.extents, block);
        assert block < |bs| ==> b == bs[block] && b in bs;
        if b == 0 {
          TakenAll(f, offset, |r|, want);
          return;
        }
        blkBuf := DataBuf(data[b]);
        var chunk := if BLOCK - so > want - |r| then want - |r| else BLOCK - so;
        TakenOn(data, bs, offset, r, block, so, chunk);
        r := r + blkBuf.bytes[so..so + chunk];
        block, so := block + 1, 0;
      }
    }

    /** The bytes of a file from `offset` on, at most `size` of them, as far as it has bytes and blocks. The
        returned count is their number exactly when that is below 2^31. */
    method Read(isFile: bool, ino: nat, size: nat, offset: nat) returns (count: int, r: Option<seq<byte>>)
      requires Layout(inodes)
      modifies this`blkBuf
      ensures r.None? <==> !isFile || ino == 0 || ino > INODES
      ensures r.Some? ==>
        && var n := inodes[ino - 1];
        && Stored(data, Blocks(n.extents)) && r.value == Taken(Held(data, n), offset, size)
      ensures count == if r.None? then -1 else AsInt(|r.value|)
      ensures r.Some? ==> (count == |r.value| <==> |r.value| < TWO_31)
    {
      hide Laid, Blocks, Flat, Stored, Shaped, Held, AsInt;
      AsIntExact(0);
      if !isFile {
        return -1, None;
      }
      var m := ReadInode(ino);
      if m.None? {
        return -1, None;
      }
      Scannable(ino - 1);
      HeldSlice(data, m.value, offset, size);
      if offset >= m.value.size {
        return 0, Some([]);
      }
      var want := if size < m.value.size - offset then size else m.value.size - offset;
      var bytes := ReadBlocks(m.value, want, offset);
      AsIntExact(|bytes|);
      return AsInt(|bytes|), Some(bytes);
    }

    /** Allocates a block and appends it to inode `k + 1` in memory; 0 when the disk is full or
        the inode has no extent for it. */
    method GrowFile(k: nat, n: Inode) returns (b: nat, n': Inode)
      requires k < INODES && |inodes| == INODES && Holds(inodes[k := n]) && Settled(own)
      modifies this`bitmap, this`freeBlocks, this`savedBlocks, this`savedInodes, this`nextBlock, this`data,
        this`blkBuf, this`own
      ensures Holds(inodes[k := n']) && Settled(own)
      ensures b == 0 ==>
        && n' == n && own == old(own) && Bits() == old(Bits())
        && NoRoom(Bits(), dataStart, n.extents) && Spared(own, old(data), data, -1)
      ensures b != 0 ==>
        && b == LowestFree(old(Bits()), dataStart) && b < total && old(own)[b] == FREE
        && Append(n.extents, b) == Some(n'.extents) && n' == n.(extents := n'.extents)
        && own == old(own)[b := k + 1] && data == old(data)[b := ZEROS] && Bits() == old(Bits())[b := true]
    {
      ghost var view := inodes[k := n];
      assert |n.extents| == SLOTS by { OwnsOne(own, view, k); }
      n' := n;
      b := AllocBlock(view);
      if b == 0 {
        return;
      }
      var es := AppendBlock(n.extents, b);
      if es.None? {
        GiveBack(b, view, old(own), old(Bits()));
        b := 0;
      } else {
        n' := n.(extents := es.value);
        Attach(b, k, n, n');
      }
    }

    /** Undoes the allocation of a block that found no place. */
    method GiveBack(b: nat, ghost view: seq<Inode>, ghost own0: seq<int>, ghost bits0: seq<bool>)
      requires Holds(view) && 0 < b < total && own[b] == PENDING
      requires |own0| == total == |bits0| && own == own0[b := PENDING] && own0[b] == FREE
      requires Bits() == bits0[b := true] && !bits0[b]
      modifies this`bitmap, this`freeBlocks, this`savedBlocks, this`savedInodes, this`nextBlock, this`blkBuf, this`own
      ensures Holds(view) && own == own0 && Bits() == bits0
    {
      Undo(own0, b, PENDING);
      Undo(bits0, b, true);
      GiveExact(Books(Bits(), dataStart, freeBlocks, freeInodes, nextBlock), own, view, b);
      hide Good;
      FreeBlock(b);
    }

    /** The block now belongs to inode `k + 1`. */
    ghost method Attach(b: nat, k: nat, n: Inode, n': Inode)
      requires k < INODES && |inodes| == INODES && Holds(inodes[k := n]) && b < total && own[b] == PENDING
      requires n.mode == n'.mode && Append(n.extents, b) == Some(n'.extents)
      modifies this`own
      ensures Holds(inodes[k := n']) && own == old(own)[b := k + 1]
    {
      ghost var view := inodes[k := n];
      AttachGood(Books(Bits(), dataStart, freeBlocks, freeInodes, nextBlock), own, view, k, n', b);
      assert view[k := n'] == inodes[k := n'];
      own := own[b := k + 1];
    }

    /** Overwrites part of a block through the scratch buffer. */
    method PutChunk(b: nat, so: nat, bytes: seq<byte>)
      requires b < total && |data| == total && Sized(data) && so + |bytes| <= BLOCK
      modifies this`data, this`blkBuf
      ensures |data| == total && |data[b]| == BLOCK && data == old(data)[b := data[b]] && Sized(data)
      ensures forall x :: 0 <= x < BLOCK ==>
        data[b][x] == if so <= x < so + |bytes| then bytes[x - so] else old(data)[b][x]
    {
      blkBuf := DataBuf(data[b]);
      blkBuf := DataBuf(blkBuf.bytes[..so] + bytes + blkBuf.bytes[so + |bytes|..]);
      data := data[b := blkBuf.bytes];
    }

    /** A file that is being written takes its next block; 0 when there is none. */
    method NextBlock(k: nat, n: Inode, ghost own0: seq<int>, ghost data0: seq<seq<byte>>, ghost n0: Inode,
                     ghost offset: nat, ghost buf: seq<byte>, ghost w: nat, ghost ordered: bool)
                       returns (b: nat, n': Inode)
      requires k < INODES && |inodes| == INODES && Holds(inodes[k := n]) && Settled(own)
      requires Halfway(own0, data0, n0, own, data, Bits(), dataStart, n, k, offset, buf, w, ordered) && w < |buf|
      requires ordered ==> offset + w == BLOCK * |Blocks(n.extents)|
      modifies this`bitmap, this`freeBlocks, this`savedBlocks, this`savedInodes, this`nextBlock, this`data,
        this`blkBuf, this`own
      ensures Holds(inodes[k := n']) && Settled(own)
      ensures Halfway(own0, data0, n0, own, data, Bits(), dataStart, n', k, offset, buf, w, ordered)
      ensures b == 0 ==> n' == n && Bits() == old(Bits()) && NoRoom(Bits(), dataStart, n.extents)
      ensures b != 0 ==>
        && b < total && own[b] == k + 1 && |Blocks(n'.extents)| == |Blocks(n.extents)| + 1
        && (ordered ==> b == Blocks(n'.extents)[|Blocks(n.extents)|])
        && b == LowestFree(old(Bits()), dataStart) && Bits() == old(Bits())[b := true]
        && Append(n.extents, b) == Some(n'.extents) && Shaped(n.extents) && b !in Blocks(n.extents)
      ensures n' == n.(extents := n'.extents)
    {
      OwnsOne(own, inodes[k := n], k);
      b, n' := GrowFile(k, n);
      hide Halfway, Good, Append, Blocks;
      if b != 0 {
        HalfwayGrow(own0, data0, n0, old(own), old(data), old(Bits()), dataStart, n, k, offset, buf, w, ordered, b, n',
                    ZEROS);
      } else {
        HalfwayKept(own0, data0, n0, old(own), old(data), old(Bits()), dataStart, n, k, offset, buf, w, ordered, data);
      }
    }

    method GetBlockOf(k: nat, n: Inode, block: nat) returns (b: nat)
      requires k < INODES && |inodes| == INODES && Holds(inodes[k := n])
      ensures b == 0 <==> block >= |Blocks(n.extents)|
      ensures b != 0 ==> b < total && own[b] == k + 1 && b == Blocks(n.extents)[block]
    {
      OwnsOne(own, inodes[k := n], k);
      b := GetBlock(n.extents, block);
      if block < |Blocks(n.extents)| { assert b in Blocks(n.extents); }
    }

    /** One chunk of a write, within one block. */
    method WriteChunk(ghost k: nat, ghost n: Inode, b: nat, ghost block: nat, so: nat, chunk: nat, ghost own0: seq<int>,
                      ghost data0: seq<seq<byte>>, ghost n0: Inode, ghost offset: nat, buf: seq<byte>, w: nat,
                      ghost ordered: bool)
      requires k < INODES && |inodes| == INODES && Holds(inodes[k := n])
      requires Halfway(own0, data0, n0, own, data, Bits(), dataStart, n, k, offset, buf, w, ordered)
      requires b < total && own[b] == k + 1
      requires offset <= BLOCK * |Blocks(n0.extents)| ==> block < |Blocks(n.extents)|
      requires ordered ==> block < |Blocks(n.extents)| && b == Blocks(n.extents)[block]
      requires so + chunk <= BLOCK && w + chunk <= |buf| && offset + w == BLOCK * block + so
      modifies this`data, this`blkBuf
      ensures Holds(inodes[k := n])
      ensures Halfway(own0, data0, n0, own, data, Bits(), dataStart, n, k, offset, buf, w + chunk, ordered)
    {
      OwnsOne(own, inodes[k := n], k);
      PutChunk(b, so, buf[w..w + chunk]);
      hide Halfway, Good, Blocks;
      HalfwayPut(own0, data0, n0, own, old(data), Bits(), dataStart, n, k, offset, buf, w, ordered, b, block, so,
                 chunk, data[b]);
    }

    /** One step of a write: finds or adds the block, and writes the chunk that fits in it. The
        result is 0 when there is no block. */
    method WriteStep(k: nat, n: Inode, block: nat, so: nat, ghost own0: seq<int>, ghost data0: seq<seq<byte>>,
                     ghost n0: Inode,
                     ghost bits0: seq<bool>, ghost offset: nat, buf: seq<byte>, w: nat, ghost ordered: bool)
                       returns (chunk: nat, n': Inode)
      requires k < INODES && |inodes| == INODES && Holds(inodes[k := n]) && Settled(own) && w < |buf|
      requires Halfway(own0, data0, n0, own, data, Bits(), dataStart, n, k, offset, buf, w, ordered)
      requires Filling(bits0, n0, Bits(), n, dataStart, offset, |buf|, block, so, w) && so < BLOCK
      requires offset + w == BLOCK * block + so
      modifies this`bitmap, this`freeBlocks, this`savedBlocks, this`savedInodes, this`nextBlock, this`data,
        this`blkBuf, this`own
      ensures Holds(inodes[k := n']) && Settled(own) && w + chunk <= |buf|
      ensures Halfway(own0, data0, n0, own, data, Bits(), dataStart, n', k, offset, buf, w + chunk, ordered)
      ensures chunk == 0 ==> Filled(bits0, n0, Bits(), n', dataStart, offset, |buf|, w)
      ensures chunk > 0 ==> Filling(bits0, n0, Bits(), n', dataStart, offset, |buf|, block + 1, 0, w + chunk)
    {
      hide Good, Halfway, Blocks, GrowsInOrder, Missing, NoRoom, Append, Filling, Filled, Shaped, Clear, Room,
        LowestFree;
      HalfwayFacts(own0, data0, n0, own, data, Bits(), dataStart, n, k, offset, buf, w, ordered);
      n' := n;
      var b := GetBlockOf(k, n, block);
      chunk := if BLOCK - so > |buf| - w then |buf| - w else BLOCK - so;
      if b == 0 {
        b, n' := NextBlock(k, n, own0, data0, n0, offset, buf, w, ordered);
        if b == 0 {
          FillDone(bits0, n0, Bits(), n, dataStart, offset, |buf|, block, so, w);
          return 0, n';
        }
        FillGrow(bits0, n0, old(Bits()), n, dataStart, offset, |buf|, block, so, w, b, n', chunk);
      } else {
        FillKeep(bits0, n0, Bits(), n, dataStart, offset, |buf|, block, so, w, chunk);
      }
      WriteChunk(k, n', b, block, so, chunk, own0, data0, n0, offset, buf, w, ordered);
    }

    /** The loop of a write: block by block, through the scratch buffer, until the bytes are
        written or no block is left. The inode on disk is not touched. */
    method WriteBlocks(k: nat, n0: Inode, buf: seq<byte>, offset: nat, ghost ordered: bool) returns (n: Inode, w: nat)
      requires k < INODES && |inodes| == INODES && Holds(inodes[k := n0]) && Settled(own)
      requires Halfway(own, data, n0, own, data, Bits(), dataStart, n0, k, offset, buf, 0, ordered)
      modifies this`bitmap, this`freeBlocks, this`savedBlocks, this`savedInodes, this`nextBlock, this`data,
        this`blkBuf, this`own
      ensures Holds(inodes[k := n]) && Settled(own)
      ensures Halfway(old(own), old(data), n0, own, data, Bits(), dataStart, n, k, offset, buf, w, ordered)
      ensures Filled(old(Bits()), n0, Bits(), n, dataStart, offset, |buf|, w)
    {
      hide Good, Halfway, Blocks, GrowsInOrder, Missing, NoRoom, Settled, Filling, Filled;
      ghost var own0, data0, bits0 := own, data, Bits();
      n, w := n0, 0;
      var block: nat, so: nat := offset / BLOCK, offset % BLOCK;
      FillStart(Bits(), n0, dataStart, offset, |buf|);
      while w < |buf|
        invariant Holds(inodes[k := n]) && Settled(own)
        invariant Halfway(own0, data0, n0, own, data, Bits(), dataStart, n, k, offset, buf, w, ordered)
        invariant Filling(bits0, n0, Bits(), n, dataStart, offset, |buf|, block, so, w) && 0 <= w <= |buf| && 0 <= so
        decreases |buf| - w
      {
        FillFacts(bits0, n0, Bits(), n, dataStart, offset, |buf|, block, so, w);
        var chunk;
        chunk, n := WriteStep(k, n, block, so, own0, data0, n0, bits0, offset, buf, w, ordered);
        if chunk == 0 {
          return;
        }
        w := w + chunk;
        block, so := block + 1, 0;
      }
      FillDone(bits0, n0, Bits(), n, dataStart, offset, |buf|, block, so, w);
    }

    /** Writes the inode back if the file got longer. */
    method FinishWrite(k: nat, n: Inode, end: nat)
      requires k < INODES && |inodes| == INODES && n.size == inodes[k].size
      modifies this`inodes
      ensures |inodes| == INODES && inodes == WrittenBack(old(inodes), k, n, end)
    {
      if end > n.size {
        WriteInode(k + 1, n.(size := end % TWO_32));
      }
    }

    method WriteFile(k: nat, buf: seq<byte>, offset: nat) returns (w: nat)
      requires Valid() && k < INODES
      modifies this
      ensures Put(old(own), old(data), old(inodes), old(Bits()), old(freeBlocks), k, offset, buf, w)
    {
      var n0 := inodes[k];
      ghost var ordered := InOrder(Bits(), dataStart, n0, offset, |buf|);
      OwnStored(own, inodes, data, k);
      HalfwayStart(own, data, Bits(), dataStart, n0, k, offset, buf);
      assert inodes[k := n0] == inodes;
      w := WriteAll(k, n0, buf, offset, ordered);
    }

    /** The state after a write of `buf` at `offset` to inode `k + 1`. */
    ghost predicate Put(own0: seq<int>, data0: seq<seq<byte>>, view0: seq<Inode>, bits0: seq<bool>, freeBlocks0: int,
                        k: nat, offset: nat, buf: seq<byte>, w: nat)
      reads this
    {
      && PutFile(own0, data0, view0, bits0, own, data, inodes, dataStart, k, offset, buf, w)
      && PutBooks(view0[k], bits0, freeBlocks0, offset, |buf|, offset + w)
    }

    /** The books after a write that ends at `end`: the blocks it got are taken, and the volume passes its
        check exactly when they are accounted for. */
    ghost predicate PutBooks(n0: Inode, bits0: seq<bool>, freeBlocks0: int, offset: nat, len: nat, end: nat)
      reads this
    {
      var got := Gets(bits0, dataStart, n0, offset, len);
      && Shape() && freeBlocks == freeBlocks0 - got && (got == 0 ==> Bits() == bits0)
      && (got == 0 || end > n0.size ==> Sound())
      && (Accounted(n0, got, end) ==> Valid())
      && (PassesAudit() <==> Accounted(n0, got, end))
    }

    lemma BooksAfter(view0: seq<Inode>, bits0: seq<bool>, k: nat, n: Inode, offset: nat, len: nat, w: nat)
      requires Shape() && |view0| == INODES && k < INODES && inodes == WrittenBack(view0, k, n, offset + w)
      requires DeadEmpty(view0)
      requires Good(Books(Bits(), dataStart, freeBlocks, freeInodes, nextBlock), own, view0[k := n]) && Settled(own)
      requires savedBlocks == freeBlocks && savedInodes == freeInodes
      requires Filled(bits0, view0[k], Bits(), n, dataStart, offset, len, w) && n == view0[k].(extents := n.extents)
      ensures PutBooks(view0[k], bits0, Clear(bits0), offset, len, offset + w)
    {
      hide Good, Clean, Filled, Gets, Written, WrittenBack, Accounted, Blocks, Clear, Settled, DeadEmpty, Covered;
      ghost var got := Gets(bits0, dataStart, view0[k], offset, len);
      FilledFacts(bits0, view0[k], Bits(), n, dataStart, offset, len, w);
      GoodCounts(Books(Bits(), dataStart, freeBlocks, freeInodes, nextBlock), own, view0[k := n]);
      WriteExact(Books(Bits(), dataStart, freeBlocks, freeInodes, nextBlock), own, view0, k, n, got, offset + w);
      if got == 0 || offset + w > view0[k].size {
        WriteKeeps(Books(Bits(), dataStart, freeBlocks, freeInodes, nextBlock), own, view0, k, n, offset + w);
      }
    }

    method WriteAll(k: nat, n0: Inode, buf: seq<byte>, offset: nat, ghost ordered: bool) returns (w: nat)
      requires Valid() && k < INODES && n0 == inodes[k] && inodes[k := n0] == inodes
      requires ordered == InOrder(Bits(), dataStart, n0, offset, |buf|)
      requires Halfway(own, data, n0, own, data, Bits(), dataStart, n0, k, offset, buf, 0, ordered)
      modifies this
      ensures Put(old(own), old(data), old(inodes), old(Bits()), old(freeBlocks), k, offset, buf, w)
    {
      hide Good, Halfway, Filled, PutFile, PutBooks, DeadEmpty, Settled, WrittenBack, InOrder, Clear;
      assert freeBlocks == Clear(Bits()) by {
        GoodCounts(Books(Bits(), dataStart, freeBlocks, freeInodes, nextBlock), own, inodes);
      }
      var n;
      n, w := WriteBlocks(k, n0, buf, offset, ordered);
      HalfwayFacts(old(own), old(data), n0, own, data, Bits(), dataStart, n, k, offset, buf, w, ordered);
      FinishWrite(k, n, offset + w);
      BooksAfter(old(inodes), old(Bits()), k, n, offset, |buf|, w);
      FileAfter(old(own), old(data), old(inodes), old(Bits()), own, data, Bits(), dataStart, k, n, offset, buf, w,
                ordered);
    }

    /** Writes `buf` at `offset`. All other files keep their bytes, and the number `w` of bytes written is short
        only by the blocks that could not be had. The volume passes its check afterwards exactly when the
        blocks taken are accounted for. In a file without holes that grows in order and stays below 4 GiB,
        exactly `w` bytes are replaced. The returned count is `w` exactly when that is below 2^31. */
    method Write(isFile: bool, ino: nat, buf: seq<byte>, offset: nat) returns (count: int, ghost w: nat)
      requires Valid()
      modifies this
      ensures !isFile || ino == 0 || ino > INODES ==>
        count == -1 && Valid() && data == old(data) && inodes == old(inodes) && own == old(own)
      ensures isFile && 0 < ino <= INODES ==>
        && Put(old(own), old(data), old(inodes), old(Bits()), old(freeBlocks), ino - 1, offset, buf, w)
        && count == AsInt(w) && (count == w <==> w < TWO_31)
    {
      hide AsInt, Put;
      w := 0;
      if !isFile {
        return -1, 0;
      }
      var m := ReadInode(ino);
      if m.None? {
        return -1, 0;
      }
      var written := WriteFile(ino - 1, buf, offset);
      AsIntExact(written);
      count, w := AsInt(written), written;
    }

    // ---- removal ----

    /** Frees the blocks of inode `k + 1`, extent by extent; the inode on disk still lists them. */
    method FreeInodeBlocks(k: nat)
      requires Sound() && k < INODES
      modifies this`bitmap, this`freeBlocks, this`savedBlocks, this`savedInodes, this`nextBlock, this`blkBuf, this`own
      ensures Holds(inodes[k := inodes[k].(extents := NO_EXTENTS)]) && Settled(own)
      ensures |own| == |old(own)|
      ensures forall b :: 0 <= b < |own| ==> own[b] == if old(own)[b] == k + 1 then FREE else old(own)[b]
    {
      var es := inodes[k].extents;
      ghost var bs, own0 := Blocks(es), own;
      ghost var view := inodes[k := inodes[k].(extents := NO_EXTENTS)];
      OwnsOne(own, inodes, k);
      Detach(k);
      FreeExtents(es, view, own0);
      FreedAll(own0, own, bs, k);
    }

    method FreeExtents(es: seq<Extent>, ghost view: seq<Inode>, ghost own0: seq<int>)
      requires Holds(view) && |es| == SLOTS && Shaped(es) && FreedTo(own0, own, Blocks(es), 0)
      modifies this`bitmap, this`freeBlocks, this`savedBlocks, this`savedInodes, this`nextBlock, this`blkBuf, this`own
      ensures Holds(view) && FreedTo(own0, own, Blocks(es), |Blocks(es)|)
    {
      ghost var bs := Blocks(es);
      hide Holds, Blocks, FreedTo, Shaped;
      var i := 0;
      while i < SLOTS
        invariant 0 <= i <= SLOTS && Holds(view) && FreedTo(own0, own, bs, Before(es, i))
      {
        var j := 0;
        while j < es[i].len
          invariant 0 <= j <= es[i].len && Holds(view) && FreedTo(own0, own, bs, Before(es, i) + j)
        {
          BlockOf(es, i, j);
          FreePending(es[i].start + j, view, own0, bs, Before(es, i) + j);
          j := j + 1;
        }
        i := i + 1;
      }
      BeforeAll(es);
    }

    method FreePending(b: nat, ghost view: seq<Inode>, ghost own0: seq<int>, ghost bs: seq<nat>, ghost m: nat)
      requires Holds(view) && FreedTo(own0, own, bs, m) && m < |bs| && b == bs[m]
      modifies this`bitmap, this`freeBlocks, this`savedBlocks, this`savedInodes, this`nextBlock, this`blkBuf, this`own
      ensures Holds(view) && FreedTo(own0, own, bs, m + 1)
    {
      FreedNext(own0, own, bs, m);
      assert |own| == total && 0 < b < total by {
        PendingInside(Books(Bits(), dataStart, freeBlocks, freeInodes, nextBlock), own, view, b);
      }
      GiveExact(Books(Bits(), dataStart, freeBlocks, freeInodes, nextBlock), own, view, b);
      hide Good;
      FreeBlock(b);
    }

    /** The inode's blocks are handed over to the operation in progress. */
    ghost method Detach(k: nat)
      requires Sound() && k < INODES
      modifies this`own
      ensures Holds(inodes[k := inodes[k].(extents := NO_EXTENTS)])
      ensures FreedTo(old(own), own, Blocks(inodes[k].extents), 0)
    {
      OwnsOne(own, inodes, k);
      DetachGood(Books(Bits(), dataStart, freeBlocks, freeInodes, nextBlock), own, inodes, k,
                 inodes[k].(extents := NO_EXTENTS));
      FreedStart(own, Blocks(inodes[k].extents), k);
      own := Released(own, k);
    }

    // ---- directories ----

    /** The first slot of the directory that fits, as slot `j` of its block number `i`; block 0 when
        there is none. */
    method Scan(n: Inode, want: Want) returns (b: nat, j: nat, ghost i: nat)
      requires |n.extents| == SLOTS && Shaped(n.extents) && Stored(data, Blocks(n.extents)) && 0 !in Blocks(n.extents)
      modifies this`blkBuf
      ensures b == 0 ==> Found(data, n, want) == Visible(n)
      ensures b != 0 ==>
        && i < |Blocks(n.extents)| && b == Blocks(n.extents)[i] && j < PER_BLOCK && blkBuf == DataBuf(data[b])
        && Fits(Slot(data[b], j), want) && Found(data, n, want) == SlotsIn(i) + j < Visible(n)
    {
      hide Blocks, Flat, NoneBefore, SlotsIn, Fits, Slot, Shaped, Stored, BlocksSeen, FirstSlot;
      VisibleFits(data, n);
      b, j, i := ScanLoop(n, want, Blocks(n.extents), BlocksSeen(n));
      if b == 0 {
        FirstSlotIs(Flat(data, Blocks(n.extents)), want, Visible(n), Visible(n));
      } else {
        SlotsBelow(i, BlocksSeen(n), j);
        FirstSlotIs(Flat(data, Blocks(n.extents)), want, SlotsIn(i) + j, Visible(n));
      }
    }

    method ScanLoop(n: Inode, want: Want, ghost bs: seq<nat>, ghost m: nat) returns (b: nat, j: nat, ghost i: nat)
      requires |n.extents| == SLOTS && Shaped(n.extents) && bs == Blocks(n.extents) && Stored(data, bs) && 0 !in bs
      requires m == BlocksSeen(n)
      modifies this`blkBuf
      ensures b == 0 ==> NoneBefore(Flat(data, bs), want, SlotsIn(m))
      ensures b != 0 ==>
        && i < m <= |bs| && b == bs[i] && j < PER_BLOCK && blkBuf == DataBuf(data[b])
        && NoneBefore(Flat(data, bs), want, SlotsIn(i) + j)
        && ENTRY * (SlotsIn(i) + j) + ENTRY <= |Flat(data, bs)| && Fits(Slot(Flat(data, bs), SlotsIn(i) + j), want)
        && Fits(Slot(data[b], j), want)
    {
      var blocks := DirBlocks(n);
      var at := 0;
      hide Blocks, Flat, Shaped, NoneBefore, Stored, SlotsIn, Fits, Slot;
      NoneYet(Flat(data, bs), want);
      SlotsBelow(0, 1, 0);
      while at < blocks
        invariant 0 <= at <= blocks && NoneBefore(Flat(data, bs), want, SlotsIn(if at < m then at else m))
      {
        b := GetBlock(n.extents, at);
        assert at < |bs| ==> b == bs[at] && b in bs;
        if b != 0 {
          i := at;
          j := ReadAndScan(b, want, bs, i);
          SlotsBelow(i, m, j);
          if j < PER_BLOCK {
            return;
          }
        }
        at := at + 1;
      }
      return 0, 0, 0;
    }

    method ReadAndScan(b: nat, want: Want, ghost bs: seq<nat>, ghost i: nat) returns (j: nat)
      requires Stored(data, bs) && i < |bs| && b == bs[i] && NoneBefore(Flat(data, bs), want, SlotsIn(i))
      modifies this`blkBuf
      ensures j <= PER_BLOCK && NoneBefore(Flat(data, bs), want, SlotsIn(i) + j) && blkBuf == DataBuf(data[b])
      ensures j < PER_BLOCK ==>
        && ENTRY * (SlotsIn(i) + j) + ENTRY <= |Flat(data, bs)| && Fits(Slot(Flat(data, bs), SlotsIn(i) + j), want)
        && Fits(Slot(data[b], j), want)
    {
      hide NoneBefore, Flat, Fits, Slot;
      blkBuf := DataBuf(data[b]);
      j := ScanBlock(blkBuf.bytes, want);
      BlockSlots(data, bs, i, j, want);
    }

    lemma Lengths()
      requires Layout(inodes)
      ensures |own| == |data| == total && dataStart <= total && |inodes| == INODES
    {
    }

    /** What a scan of inode `k + 1` may rely on. */
    lemma Scannable(k: nat)
      requires Layout(inodes) && k < INODES
      ensures |inodes[k].extents| == SLOTS && Shaped(inodes[k].extents) && 0 !in Blocks(inodes[k].extents)
      ensures Stored(data, Blocks(inodes[k].extents))
      ensures forall j :: 0 <= j < |Blocks(inodes[k].extents)| ==>
        0 < Blocks(inodes[k].extents)[j] < total && own[Blocks(inodes[k].extents)[j]] == k + 1
    {
      NoZero(Books(Bits(), dataStart, freeBlocks, freeInodes, nextBlock), own, inodes, k);
      OwnStored(own, inodes, data, k);
      OwnsOne(own, inodes, k);
      var bs := Blocks(inodes[k].extents);
      forall j | 0 <= j < |bs| ensures 0 < bs[j] < total && own[bs[j]] == k + 1 { assert bs[j] in bs; }
    }

    method FindInDir(dir: nat, name: seq<byte>) returns (r: Option<nat>)
      requires Layout(inodes)
      modifies this`blkBuf
      ensures r == Lookup(data, inodes, dir, name)
    {
      var m := ReadInode(dir);
      if m.None? {
        return None;
      }
      Scannable(dir - 1);
      hide Laid, Blocks, Flat, Stored;
      var b, j, i := Scan(m.value, Named(name));
      if b == 0 {
        return None;
      }
      SlotInBlock(data, Blocks(m.value.extents), i, j);
      return Some(EntryIno(Slot(blkBuf.bytes, j)));
    }

    /** Writes entry `j` of block `b`, which is in the scratch buffer. */
    method PutEntry(b: nat, j: nat, e: Entry)
      requires b < total && |data| == total && Sized(data) && j < PER_BLOCK && blkBuf == DataBuf(data[b])
      modifies this`data, this`blkBuf
      ensures |data| == total && Sized(data) && data == old(data)[b := data[b]] && Slot(data[b], j) == e
      ensures blkBuf == DataBuf(data[b])
      ensures forall i :: 0 <= i < PER_BLOCK && i != j ==> Slot(data[b], i) == Slot(old(data)[b], i)
    {
      ghost var was := data[b];
      var now := blkBuf.bytes[..ENTRY * j] + e + blkBuf.bytes[ENTRY * j + ENTRY..];
      assert Slot(now, j) == e;
      forall i | 0 <= i < PER_BLOCK && i != j ensures Slot(now, i) == Slot(was, i) { OtherSlot(was, j, e, i); }
      blkBuf := DataBuf(now);
      data := data[b := blkBuf.bytes];
    }

    /** Writes an inode back; the running operation has it as `m`, with the same mode and blocks. */
    method SaveInode(k: nat, n: Inode, ghost m: Inode)
      requires k < INODES && |inodes| == INODES && Layout(inodes[k := m]) && n.mode == m.mode && n.extents == m.extents
      modifies this`inodes
      ensures inodes == old(inodes)[k := n] && Layout(inodes) && Live(inodes) == Live(old(inodes)[k := m])
      ensures old(Holds(inodes[k := m])) ==> Holds(inodes)
    {
      ghost var view := inodes[k := m];
      ChangeGood(Books(Bits(), dataStart, freeBlocks, freeInodes, nextBlock), own, view, k, n);
      assert view[k := n] == inodes[k := n];
      hide Good, Laid;
      WriteInode(k + 1, n);
    }

    /** Fills a free slot of the directory. */
    method AddInPlace(k: nat, b: nat, j: nat, ino: u32, kind: byte, name: seq<byte>)
      requires Sound() && k < INODES && 0 !in name
      requires b < total && own[b] == k + 1 && j < PER_BLOCK && blkBuf == DataBuf(data[b])
      requires Fits(Slot(data[b], j), FreeSlot)
      modifies this`data, this`blkBuf, this`inodes
      ensures Sound() && Listed(own, old(data), old(inodes), own, data, inodes, k, b, j, ino, name)
      ensures inodes[k].extents == old(inodes[k]).extents && Typed(data, b, j, kind, name)
    {
      hide Good, Laid, Entered, Fits, Slot, Typed;
      GoodIsLaid(Books(Bits(), dataStart, freeBlocks, freeInodes, nextBlock), own, inodes);
      Lengths();
      Same(inodes, k);
      EnterHere(k, b, j, ino, kind, name);
      SaveInode(k, inodes[k].(size := (inodes[k].size + ENTRY) % TWO_32), inodes[k]);
    }

    method EnterHere(ghost k: nat, b: nat, j: nat, ino: u32, kind: byte, name: seq<byte>)
      requires |own| == total == |data| && Sized(data) && 0 !in name
      requires b < total && own[b] == k + 1 && j < PER_BLOCK && blkBuf == DataBuf(data[b])
      requires Fits(Slot(data[b], j), FreeSlot)
      modifies this`data, this`blkBuf
      ensures |data| == total && Sized(data) && Entered(own, own, old(data), data, k, b, j, ino, name)
      ensures Typed(data, b, j, kind, name)
    {
      var e := NewEntry(Slot(data[b], j), ino, kind, name);
      NewEntryHolds(Slot(data[b], j), ino, kind, name);
      hide NewEntry, EntryIno, EntryName, EntryKind, EntryLen, StoredName, Slot, Entered;
      PutEntry(b, j, e);
      EnteredHere(own, old(data), data, k, b, j, ino, name);
    }

    /** Adds a block with the entry in its first slot; the block is given back when the inode has
        no extent for it. */
    method AddNewBlock(k: nat, ino: u32, kind: byte, name: seq<byte>) returns (b: nat)
      requires Sound() && k < INODES && 0 !in name
      modifies this
      ensures Sound() && (b == 0 <==> NoRoom(old(Bits()), dataStart, old(inodes[k]).extents))
      ensures b == 0 ==>
        inodes == old(inodes) && own == old(own) && Bits() == old(Bits()) && Spared(own, old(data), data, -1)
      ensures b != 0 ==>
        && Listed(old(own), old(data), old(inodes), own, data, inodes, k, b, 0, ino, name)
        && b == LowestFree(old(Bits()), dataStart) && b < total && Typed(data, b, 0, kind, name)
        && Append(old(inodes[k]).extents, b) == Some(inodes[k].extents)
    {
      hide Good, Entered, Settled, LowestFree, Append, Typed;
      b := AllocFor(inodes);
      if b != 0 {
        b := PlaceEntry(k, b, ino, kind, name, old(own), old(data), old(Bits()));
      }
    }

    /** Allocation on a consistent volume. */
    method AllocFor(ghost view: seq<Inode>) returns (b: nat)
      requires Holds(view) && Settled(own)
      modifies this`bitmap, this`freeBlocks, this`savedBlocks, this`savedInodes, this`nextBlock, this`data,
        this`blkBuf, this`own
      ensures Holds(view) && b == (var f := LowestFree(old(Bits()), dataStart); if f < total then f else 0)
      ensures b == 0 ==> data == old(data) && own == old(own) && Bits() == old(Bits())
      ensures |own| == |data| == total
      ensures b != 0 ==> Allocated(b, old(own), old(data), old(Bits())) && data == old(data)[b := ZEROS]
    {
      b := AllocBlock(view);
    }

    /** A block was allocated and zeroed; the rest of the state is `own0`, `data0`, `bits0`. */
    ghost predicate Allocated(b: nat, own0: seq<int>, data0: seq<seq<byte>>, bits0: seq<bool>)
      reads this`own, this`bitmap
    {
      && BitmapShape(bitmap, total) && |own0| == |data0| == |bits0| == total && 0 < b < total
      && own0[b] == FREE && !bits0[b] && Settled(own0) && Sized(data0)
      && own == own0[b := PENDING] && Bits() == bits0[b := true]
    }

    method PlaceEntry(k: nat, nb: nat, ino: u32, kind: byte, name: seq<byte>,
                      ghost own0: seq<int>, ghost data0: seq<seq<byte>>, ghost bits0: seq<bool>) returns (b: nat)
      requires Holds(inodes) && k < INODES && 0 !in name
      requires Allocated(nb, own0, data0, bits0) && data == data0[nb := ZEROS]
      modifies this
      ensures Sound() && (b == 0 || b == nb) && (b == 0 <==> Append(old(inodes[k]).extents, nb).None?)
      ensures b == 0 ==> inodes == old(inodes) && own == own0 && Bits() == bits0 && Spared(own, data0, data, -1)
      ensures b != 0 ==>
        Listed(own0, data0, old(inodes), own, data, inodes, k, b, 0, ino, name)
        && Append(old(inodes[k]).extents, nb) == Some(inodes[k].extents) && Typed(data, b, 0, kind, name)
    {
      FirstEntry(nb, ino, kind, name, data0);
      EnteredNew(own0, data0, data, k, nb, ino, name);
      hide Good, Entered, EntryIno, EntryName, Append, Typed;
      b := LinkOrReturn(k, nb, own0, bits0);
    }

    method LinkOrReturn(k: nat, nb: nat, ghost own0: seq<int>, ghost bits0: seq<bool>) returns (b: nat)
      requires Holds(inodes) && k < INODES
      requires Allocated(nb, own0, data, bits0)
      modifies this`bitmap, this`freeBlocks, this`savedBlocks, this`savedInodes, this`nextBlock, this`blkBuf,
        this`own, this`inodes
      ensures Sound() && (b == 0 || b == nb) && |inodes| == |old(inodes)| == INODES
      ensures (b == 0 <==> Append(old(inodes[k]).extents, nb).None?)
      ensures b == 0 ==> inodes == old(inodes) && own == own0 && Bits() == bits0
      ensures b != 0 ==>
        && own == own0[b := k + 1] && Append(old(inodes[k]).extents, nb) == Some(inodes[k].extents)
        && inodes == old(inodes)[k := old(inodes[k]).(size := (old(inodes[k]).size + ENTRY) % TWO_32,
                                                      extents := inodes[k].extents)]
    {
      b := nb;
      assert |inodes[k].extents| == SLOTS by { Scannable(k); }
      var es := AppendBlock(inodes[k].extents, b);
      hide Good, Append;
      if es.None? {
        GiveBack(b, inodes, own0, bits0);
        b := 0;
      } else {
        LinkNew(k, b, es.value, own0);
      }
    }

    /** The directory takes the block over. */
    method LinkNew(k: nat, b: nat, es: seq<Extent>, ghost own0: seq<int>)
      requires Holds(inodes) && k < INODES
      requires b < total && |own0| == total && Settled(own0) && own == own0[b := PENDING]
      requires Append(inodes[k].extents, b) == Some(es)
      modifies this`own, this`inodes
      ensures Sound() && own == own0[b := k + 1]
      ensures inodes == old(inodes)[k := old(inodes[k]).(size := (old(inodes[k]).size + ENTRY) % TWO_32, extents := es)]
    {
      var n := inodes[k];
      Same(inodes, k);
      hide Good, Laid;
      Attach(b, k, n, n.(extents := es));
      GoodIsLaid(Books(Bits(), dataStart, freeBlocks, freeInodes, nextBlock), own, inodes[k := n.(extents := es)]);
      SaveInode(k, n.(extents := es, size := (n.size + ENTRY) % TWO_32), n.(extents := es));
    }

    /** The zeroed block gets one entry. */
    method FirstEntry(b: nat, ino: u32, kind: byte, name: seq<byte>, ghost data0: seq<seq<byte>>)
      requires b < total && |data0| == total && data == data0[b := ZEROS] && Sized(data) && 0 !in name
      modifies this`data, this`blkBuf
      ensures |data| == total && Sized(data) && data == data0[b := data[b]]
      ensures EntryIno(Slot(data[b], 0)) == ino && EntryName(Slot(data[b], 0)) == StoredName(name)
      ensures Typed(data, b, 0, kind, name)
      ensures forall i :: 0 <= i < PER_BLOCK && i != 0 ==> Slot(data[b], i) == Slot(ZEROS, i)
    {
      blkBuf := DataBuf(ZEROS);
      NewEntryHolds(Slot(ZEROS, 0), ino, kind, name);
      hide NewEntry, EntryIno, EntryName, EntryKind, EntryLen, StoredName;
      PutEntry(b, 0, NewEntry(Slot(ZEROS, 0), ino, kind, name));
    }

    /** The state after an entry was added to directory `k + 1`: the volume is consistent exactly when the
        directory's inode is in use. */
    ghost predicate Added(own0: seq<int>, data0: seq<seq<byte>>, view0: seq<Inode>, bits0: seq<bool>, k: int, b: nat,
                          j: nat,
                          ino: nat, name: seq<byte>)
      reads this
    {
      && Listed(own0, data0, view0, own, data, inodes, k, b, j, ino, name)
      && Spot(data0, bits0, dataStart, view0[k], inodes[k].extents, b, j)
      && (view0[k].mode != 0 ==> Valid()) && (PassesAudit() <==> view0[k].mode != 0)
    }

    lemma AddedIs(own0: seq<int>, data0: seq<seq<byte>>, view0: seq<Inode>, bits0: seq<bool>, k: int, b: nat, j: nat,
                  ino: nat, name: seq<byte>)
      requires Sound() && Listed(own0, data0, view0, own, data, inodes, k, b, j, ino, name) && DeadEmpty(view0)
      requires Shaped(view0[k].extents)
      requires Spot(data0, bits0, dataStart, view0[k], inodes[k].extents, b, j)
      ensures Added(own0, data0, view0, bits0, k, b, j, ino, name)
    {
      hide Good, Spot, Settled, Clean, DeadEmpty, Shaped, Entered;
      SpotHas(data0, bits0, dataStart, view0[k], inodes[k].extents, b, j);
      ListExact(Books(Bits(), dataStart, freeBlocks, freeInodes, nextBlock), own, view0, inodes, k);
    }

    /** Adds an entry for inode `ino`: the first free slot in sight is filled, or the directory grows. */
    method AddToDir(dir: nat, ino: u32, kind: byte, name: seq<byte>) returns (ok: bool, ghost b: nat, ghost j: nat)
      requires Valid() && 0 !in name
      modifies this
      ensures ok <==> 0 < dir <= INODES && Takes(old(data), old(Bits()), dataStart, old(inodes)[dir - 1])
      ensures !ok ==>
        Valid() && inodes == old(inodes) && own == old(own) && Bits() == old(Bits()) && Spared(own, old(data), data, -1)
      ensures ok ==>
        Added(old(own), old(data), old(inodes), old(Bits()), dir - 1, b, j, ino, name) && Typed(data, b, j, kind, name)
    {
      SoundLayout();
      hide Good, Listed, Spot, Takes, Clean, DeadEmpty, Settled, Added, Laid, Typed;
      Lengths();
      var m := ReadInode(dir);
      ok, b, j := false, 0, 0;
      if m.Some? {
        ok, b, j := AddEntry(dir - 1, ino, kind, name);
        if ok {
          AddedIs(old(own), old(data), old(inodes), old(Bits()), dir - 1, b, j, ino, name);
        }
      }
    }

    method AddEntry(k: nat, ino: u32, kind: byte, name: seq<byte>) returns (ok: bool, ghost b: nat, ghost j: nat)
      requires Sound() && 0 !in name && k < INODES
      modifies this
      ensures Sound() && (ok <==> Takes(old(data), old(Bits()), dataStart, old(inodes[k])))
      ensures Shaped(old(inodes[k]).extents)
      ensures !ok ==>
        inodes == old(inodes) && own == old(own) && Bits() == old(Bits()) && Spared(own, old(data), data, -1)
      ensures ok ==>
        && Listed(old(own), old(data), old(inodes), own, data, inodes, k, b, j, ino, name)
        && Spot(old(data), old(Bits()), dataStart, old(inodes[k]), inodes[k].extents, b, j) && Typed(data, b, j, kind, name)
    {
      SoundLayout();
      hide Good, Entered, Settled, Blocks, Flat, Fits, Slot, HasFree, At, NoRoom, Append, LowestFree, Typed;
      Scannable(k);
      var at, slot := FindFree(k);
      if at != 0 {
        AddInPlace(k, at, slot, ino, kind, name);
      } else {
        at := AddNewBlock(k, ino, kind, name);
      }
      ok, b, j := at != 0, at, slot;
    }

    /** The first free slot of the directory, with its block in the scratch buffer. */
    method FindFree(k: nat) returns (b: nat, j: nat)
      requires Sound() && k < INODES
      modifies this`blkBuf
      ensures b != 0 <==> HasFree(data, inodes[k])
      ensures b != 0 ==>
        && b < total && own[b] == k + 1 && j < PER_BLOCK && blkBuf == DataBuf(data[b])
        && Fits(Slot(data[b], j), FreeSlot)
        && At(inodes[k], Found(data, inodes[k], FreeSlot), b, j)
      ensures b == 0 ==> j == 0
    {
      SoundLayout();
      hide Good, Settled, Blocks, Flat, Fits, Slot, Stored, Shaped, Found, Visible, SlotsIn, Laid;
      Scannable(k);
      ghost var i;
      b, j, i := Scan(inodes[k], FreeSlot);
      if b == 0 {
        j := 0;
      } else {
        AtIs(inodes[k], i, j);
      }
    }

    /** The first entry of that name, with its block in the scratch buffer. */
    method FindNamed(k: nat, name: seq<byte>) returns (b: nat, j: nat)
      requires Layout(inodes) && k < INODES
      modifies this`blkBuf
      ensures b != 0 ==>
        && b < total && own[b] == k + 1 && j < PER_BLOCK
        && blkBuf == DataBuf(data[b]) && Fits(Slot(data[b], j), Named(name))
        && Stored(data, Blocks(inodes[k].extents)) && At(inodes[k], Found(data, inodes[k], Named(name)), b, j)
      ensures b == 0 <==> Lookup(data, inodes, k + 1, name).None?
    {
      hide Laid, Settled, Blocks, Flat, Fits, Slot, Stored, Shaped, Found, Visible, SlotsIn;
      Scannable(k);
      ghost var i;
      b, j, i := Scan(inodes[k], Named(name));
      if b != 0 {
        AtIs(inodes[k], i, j);
      }
    }

    method StrikeHere(ghost k: nat, b: nat, j: nat, ghost name: seq<byte>)
      requires |own| == total == |data| && Sized(data)
      requires b < total && own[b] == k + 1 && j < PER_BLOCK && blkBuf == DataBuf(data[b])
      requires Fits(Slot(data[b], j), Named(name))
      modifies this`data, this`blkBuf
      ensures |data| == total && Sized(data) && Struck(own, old(data), data, k, b, j, name)
    {
      hide ClearedEntry, EntryIno, EntryName, Slot, Fits, Struck;
      var e := ClearedEntry(Slot(data[b], j));
      ClearedEntryHolds(Slot(data[b], j));
      PutEntry(b, j, e);
      StruckHere(own, old(data), data, k, b, j, name);
    }

    /** Clears the first entry of that name. */
    method RemoveFromDir(dir: nat, name: seq<byte>) returns (ok: bool, ghost b: nat, ghost j: nat)
      requires Layout(inodes)
      modifies this`data, this`blkBuf, this`inodes
      ensures Layout(inodes) && Live(inodes) == Live(old(inodes)) && (old(Holds(inodes)) ==> Holds(inodes))
      ensures ok <==> Lookup(old(data), old(inodes), dir, name).Some?
      ensures ok ==>
        && Unlisted(own, old(data), old(inodes), data, inodes, dir - 1, b, j, name)
        && Stored(old(data), Blocks(old(inodes)[dir - 1].extents))
        && At(old(inodes)[dir - 1], Found(old(data), old(inodes)[dir - 1], Named(name)), b, j)
      ensures !ok ==> inodes == old(inodes) && data == old(data)
    {
      hide Good, Laid, Fits, Slot, Found, At, Stored, Struck;
      var m := ReadInode(dir);
      ok, b, j := false, 0, 0;
      if m.Some? {
        var at, slot := FindNamed(dir - 1, name);
        if at != 0 {
          Strike(dir - 1, at, slot, name);
          ok, b, j := true, at, slot;
        }
      }
    }

    method Strike(k: nat, b: nat, j: nat, ghost name: seq<byte>)
      requires Layout(inodes) && k < INODES
      requires b < total && own[b] == k + 1 && j < PER_BLOCK && blkBuf == DataBuf(data[b])
      requires Fits(Slot(data[b], j), Named(name))
      modifies this`data, this`blkBuf, this`inodes
      ensures Layout(inodes) && Live(inodes) == Live(old(inodes)) && (old(Holds(inodes)) ==> Holds(inodes))
      ensures Unlisted(own, old(data), old(inodes), data, inodes, k, b, j, name)
    {
      hide Good, Laid, Struck, Fits, Slot;
      Lengths();
      Same(inodes, k);
      StrikeHere(k, b, j, name);
      SaveInode(k, inodes[k].(size := (inodes[k].size - ENTRY) % TWO_32), inodes[k]);
    }

    // ---- files and directories ----

    /** Creates an empty file. When the directory cannot take the entry, the new inode stays in use
        without a name and the volume is still consistent. It is consistent in every case but one: the
        entry went to a directory whose inode is not in use. */
    method Create(dir: u32, name: seq<byte>, mode: nat) returns (r: int, ghost ino: nat, ghost b: nat, ghost j: nat)
      requires Valid() && 0 !in name
      modifies this
      ensures r == -17 <==> Lookup(old(data), old(inodes), dir, name).Some?
      ensures r == -28 <==> Lookup(old(data), old(inodes), dir, name).None? && AllLive(old(inodes))
      ensures r == -EEXIST || r == -ENOSPC ==> Valid() && inodes == old(inodes) && data == old(data) && own == old(own)
      ensures r != -EEXIST && r != -ENOSPC ==>
        && ino == Unused(old(inodes), old(nextInode), 0) && 0 < ino <= INODES && old(inodes)[ino - 1].mode == 0
        && (r == 0 || r == -1)
        && var view := old(inodes)[ino - 1 := FileInode(mode)];
        && (r == 0 <==> 0 < dir <= INODES && Takes(old(data), old(Bits()), dataStart, view[dir - 1]))
        && (r == 0 ==> Added(old(own), old(data), view, old(Bits()), dir - 1, b, j, ino, name) && Typed(data, b, j, 1, name))
        && (r == -1 ==> Valid() && inodes == view && own == old(own) && Bits() == old(Bits()) && Spared(own, old(data), data, -1))
    {
      hide Good, Added, Lookup, Settled, Takes, Clean, DeadEmpty, Unused, Typed;
      GoodIsLaid(Books(Bits(), dataStart, freeBlocks, freeInodes, nextBlock), own, inodes);
      b, j := 0, 0;
      var found := FindInDir(dir, name);
      if found.Some? {
        return -EEXIST, 0, 0, 0;
      }
      var i := NewFile(mode);
      ino := i;
      if i == 0 {
        return -ENOSPC, 0, 0, 0;
      }
      var ok;
      ok, b, j := AddToDir(dir, i, 1, name);
      r := if ok then 0 else -1;
    }

    /** An inode for an empty file; 0 when all are in use. */
    method NewFile(mode: nat) returns (ino: nat)
      requires Valid()
      modifies this`inodes, this`freeInodes, this`savedBlocks, this`savedInodes, this`nextInode, this`blkBuf
      ensures Valid() && ino <= INODES && |inodes| == |old(inodes)| == INODES
      ensures ino == Unused(old(inodes), old(nextInode), 0)
      ensures ino == 0 <==> AllLive(old(inodes))
      ensures ino == 0 ==> inodes == old(inodes)
      ensures ino != 0 ==> old(inodes)[ino - 1].mode == 0 && inodes == old(inodes)[ino - 1 := FileInode(mode)]
    {
      hide Good, DeadEmpty, Settled, Unused;
      ino := AllocInode(FileInode(mode));
      if ino != 0 {
        DeadSet(old(inodes), ino - 1, FileInode(mode));
        assert inodes[ino - 1 := FileInode(mode)] == old(inodes)[ino - 1 := FileInode(mode)];
        WriteInode(ino, FileInode(mode));
      }
    }

    method WriteDots(b: nat, ino: u32, dir: u32, ghost data0: seq<seq<byte>>)
      requires b < total && |data0| == total && data == data0[b := ZEROS] && Sized(data)
      modifies this`data, this`blkBuf
      ensures |data| == total && Sized(data) && data == data0[b := data[b]] && DotsOnly(data[b], ino, dir)
    {
      hide NewEntry, Slot, EntryIno, EntryName, EntryKind, EntryLen, DotsOnly;
      blkBuf := DataBuf(ZEROS);
      PutEntry(b, 0, NewEntry(Slot(ZEROS, 0), ino, 2, DOT));
      PutEntry(b, 1, NewEntry(Slot(ZEROS, 1), dir, 2, DOTS));
      DotsAre(data[b], ino, dir);
    }

    /** Makes a directory. Nothing is left behind when there is no inode or no block; when the parent
        cannot take the entry, the new directory stays without a name. Consistency is as for a file. */
    method Mkdir(dir: u32, name: seq<byte>, mode: nat)
        returns (r: int, ghost ino: nat, ghost nb: nat, ghost b: nat, ghost j: nat, ghost own1: seq<int>,
                 ghost data1: seq<seq<byte>>,
                 ghost inodes1: seq<Inode>, ghost bits1: seq<bool>)
      requires Valid() && 0 !in name
      modifies this
      ensures r == 0 || r == -1
      ensures ino == 0 <==>
        Lookup(old(data), old(inodes), dir, name).Some? || AllLive(old(inodes)) || LowestFree(old(Bits()), dataStart) == total
      ensures ino == 0 ==> r == -1 && Valid() && data == old(data) && own == old(own) && SameLive(old(inodes), inodes)
      ensures ino != 0 ==>
        && ino == Unused(old(inodes), old(nextInode), 0)
        && DirMade(old(own), old(data), old(inodes), own1, data1, inodes1, ino, dir, mode, nb)
        && nb == LowestFree(old(Bits()), dataStart) && nb < total && bits1 == old(Bits())[nb := true]
        && |inodes1| == INODES
        && (r == 0 <==> 0 < dir <= INODES && Takes(data1, bits1, dataStart, inodes1[dir - 1]))
        && (r == 0 ==> Added(own1, data1, inodes1, bits1, dir - 1, b, j, ino, name) && Typed(data, b, j, 2, name))
        && (r == -1 ==> Valid() && inodes == inodes1 && own == own1 && Bits() == bits1 && Spared(own, data1, data, -1))
    {
      hide Good, Added, Lookup, Settled, DirMade, Takes, Clean, DeadEmpty, Unused, LowestFree, Typed;
      GoodIsLaid(Books(Bits(), dataStart, freeBlocks, freeInodes, nextBlock), own, inodes);
      r, ino, nb, b, j, own1, data1, inodes1, bits1 := -1, 0, 0, 0, 0, own, data, inodes, Bits();
      var found := FindInDir(dir, name);
      if found.Some? {
        return;
      }
      var i;
      i, nb := NewDir(dir, mode);
      ino, own1, data1, inodes1, bits1 := i, own, data, inodes, Bits();
      if i != 0 {
        var ok;
        ok, b, j := AddToDir(dir, i, 2, name);
        r := if ok then 0 else -1;
      }
    }

    method NewDir(dir: u32, mode: nat) returns (ino: nat, ghost nb: nat)
      requires Valid()
      modifies this
      ensures Valid() && ino <= INODES && |inodes| == INODES
      ensures ino == 0 <==> AllLive(old(inodes)) || LowestFree(old(Bits()), dataStart) == total
      ensures ino == 0 ==> data == old(data) && own == old(own) && SameLive(old(inodes), inodes)
      ensures ino != 0 ==>
        && ino == Unused(old(inodes), old(nextInode), 0)
        && DirMade(old(own), old(data), old(inodes), own, data, inodes, ino, dir, mode, nb)
        && nb == LowestFree(old(Bits()), dataStart) && nb < total && Bits() == old(Bits())[nb := true]
    {
      hide Good, DirMade, Settled, DeadEmpty, LowestFree, Unused;
      ghost var n := DirInode(mode);
      nb := 0;
      ino := AllocInode(n);
      if ino == 0 {
        return;
      }
      ghost var view := inodes[ino - 1 := n];
      var b := AllocFor(view);
      nb := b;
      if b == 0 {
        DeadSet(old(inodes), ino - 1, NO_INODE);
        Same(inodes, ino - 1);
        FreeInode(ino, n);
        ino := 0;
      } else {
        FillDir(ino, b, dir, mode, old(own), old(data), old(inodes), old(Bits()));
      }
    }

    /** The new directory gets its block, its dots and its inode. */
    method FillDir(ino: nat, b: nat, dir: u32, mode: nat, ghost own0: seq<int>, ghost data0: seq<seq<byte>>,
                   ghost view0: seq<Inode>, ghost bits0: seq<bool>)
      requires |inodes| == |view0| == INODES && 0 < ino <= INODES && Holds(inodes[ino - 1 := DirInode(mode)])
      requires DeadEmpty(view0)
      requires Allocated(b, own0, data0, bits0) && data == data0[b := ZEROS]
      requires view0[ino - 1].mode == 0 && inodes == view0[ino - 1 := NO_INODE]
      modifies this
      ensures Valid() && DirMade(own0, data0, view0, own, data, inodes, ino, dir, mode, b) && Bits() == bits0[b := true]
    {
      hide Good, DotsOnly, DeadEmpty;
      FirstAppend(b);
      var n := DirInode(mode).(extents := OneBlock(b));
      Attach(b, ino - 1, DirInode(mode), n);
      WriteDots(b, ino, dir, data0);
      assert inodes[ino - 1 := n] == view0[ino - 1 := n];
      DeadSet(view0, ino - 1, n);
      WriteInode(ino, n);
    }

    /** Removes a name, its inode and its blocks. The volume is consistent afterwards exactly when the inode
        was in use or nothing was removed; otherwise the count of free inodes is one too high. Unlinking "."
        removes the directory itself and leaves no entry to clear. */
    method Unlink(dir: u32, name: seq<byte>) returns (r: int, ghost b: nat, ghost j: nat)
      requires Valid()
      modifies this
      ensures var t := Lookup(old(data), old(inodes), dir, name);
        if t.None? || t.value == 0 || t.value > INODES then
          r == -1 && Valid() && inodes == old(inodes) && data == old(data) && own == old(own)
        else if Busy(old(data), old(inodes)[t.value - 1]) then
          r == -39 && Valid() && inodes == old(inodes) && data == old(data) && own == old(own)
        else
          && Freed(old(own), own, t.value - 1)
          && (old(inodes)[t.value - 1].mode != 0 ==> Valid()) && (PassesAudit() <==> old(inodes)[t.value - 1].mode != 0)
          && var gone := old(inodes)[t.value - 1 := NO_INODE];
          && (dir == t.value ==> r == -1 && data == old(data) && inodes == gone)
          && (dir != t.value ==>
              && r == 0 && 0 < dir <= INODES && Unlisted(own, old(data), gone, data, inodes, dir - 1, b, j, name)
              && Stored(old(data), Blocks(gone[dir - 1].extents))
              && At(gone[dir - 1], Found(old(data), gone[dir - 1], Named(name)), b, j))
    {
      hide Good, Laid, Unlisted, Lookup, Settled, Freed, Busy, At, Found, Clean, DeadEmpty, Stored, Blocks;
      GoodIsLaid(Books(Bits(), dataStart, freeBlocks, freeInodes, nextBlock), own, inodes);
      Lengths();
      r, b, j := -1, 0, 0;
      var found := FindInDir(dir, name);
      if found.None? {
        return;
      }
      var m := ReadInode(found.value);
      if m.None? {
        return;
      }
      var busy := CheckBusy(found.value - 1);
      if busy {
        return -ENOTEMPTY, 0, 0;
      }
      LookupAfter(data, inodes, found.value, dir, name);
      Destroy(found.value);
      r, b, j := Disown(dir, name);
    }

    /** The last step of a removal: the entry goes, and the number of free inodes stays right or wrong. */
    method Disown(dir: u32, name: seq<byte>) returns (r: int, ghost b: nat, ghost j: nat)
      requires Layout(inodes) && Settled(own) && DeadEmpty(inodes)
      requires (Holds(inodes) || freeInodes == Clear(Live(inodes)) + 1)
      modifies this`data, this`blkBuf, this`inodes
      ensures (old(Holds(inodes)) ==> Valid()) && (PassesAudit() <==> old(Holds(inodes)))
      ensures r == if Lookup(old(data), old(inodes), dir, name).Some? then 0 else -1
      ensures r == -1 ==> inodes == old(inodes) && data == old(data)
      ensures r == 0 ==>
        && 0 < dir <= INODES && Unlisted(own, old(data), old(inodes), data, inodes, dir - 1, b, j, name)
        && Stored(old(data), Blocks(old(inodes)[dir - 1].extents))
        && At(old(inodes)[dir - 1], Found(old(data), old(inodes)[dir - 1], Named(name)), b, j)
    {
      hide Good, Laid, Lookup, Settled, At, Found, Stored, Blocks, Struck, Live, Clear;
      var ok;
      ok, b, j := RemoveFromDir(dir, name);
      r := if ok then 0 else -1;
      if Holds(inodes) { Audit(); }
    }

    method CheckBusy(k: nat) returns (busy: bool)
      requires Sound() && k < INODES
      modifies this`blkBuf
      ensures busy <==> Busy(data, inodes[k])
    {
      SoundLayout();
      hide Good, Settled, Blocks, Flat, Fits, Slot;
      Scannable(k);
      busy := false;
      if IsDir(inodes[k].mode) && inodes[k].size > 2 * ENTRY {
        var b, j, i := Scan(inodes[k], AnyEntry);
        busy := b != 0;
      }
    }

    /** Frees an inode together with its blocks, whether it was in use or not. */
    method Destroy(ino: nat)
      requires Valid() && 0 < ino <= INODES
      modifies this`bitmap, this`freeBlocks, this`freeInodes, this`savedBlocks, this`savedInodes, this`nextBlock,
        this`nextInode,
        this`inodes, this`blkBuf, this`own
      ensures inodes == old(inodes)[ino - 1 := NO_INODE] && Freed(old(own), own, ino - 1)
      ensures Layout(inodes) && Settled(own) && DeadEmpty(inodes)
      ensures if old(inodes)[ino - 1].mode != 0 then Holds(inodes)
        else !Holds(inodes) && freeInodes == Clear(Live(inodes)) + 1
    {
      hide Good, Laid, Settled, DeadEmpty, Live, Clear;
      DeadSet(inodes, ino - 1, NO_INODE);
      FreeInodeBlocks(ino - 1);
      FreeInode(ino, inodes[ino - 1].(extents := NO_EXTENTS));
    }

    // ---- formatting and mounting ----

    /** A device with arbitrary contents. */
    constructor (contents: seq<seq<byte>>, bm: seq<seq<bv8>>, table: seq<Inode>)
      requires Sized(contents) && BitmapShape(bm, |contents|) && |table| == INODES
      ensures Shape() && total == |contents|
      ensures dataStart == 1 + (total + 32767) / 32768 + 35
    {
      total := |contents|;
      dataStart := 1 + (|contents| + BITS - 1) / BITS + (INODES + INODES_PER_BLOCK - 1) / INODES_PER_BLOCK;
      freeBlocks, freeInodes, savedBlocks, savedInodes, nextBlock, nextInode := 0, 0, 0, 0, 0, 0;
      bitmap, inodes, data, blkBuf, own := bm, table, contents, SuperBuf, [];
    }

    /** Formats the device: it works exactly when there is a data block, and leaves a consistent
        volume with an empty root directory. */
    method Format() returns (ok: bool)
      requires Shape() && 10 < dataStart && total < TWO_32
      modifies this
      ensures ok <==> dataStart < total
      ensures ok ==> Valid() && Formatted(own, data, inodes, Bits(), dataStart)
      ensures ok ==> |inodes| == 1024 && freeInodes == 1023
    {
      hide Good, LowestFree, DotsOnly;
      if total < 10 {
        return false;
      }
      Wipe();
      ghost var bits0 := Bits();
      var at := AllocBlock(inodes);
      if dataStart < total { LowestFreeIs(bits0, dataStart, dataStart); }
      if at == 0 {
        return false;
      }
      MakeRoot(at);
      ok := true;
    }

    /** Zeroed metadata, its blocks marked. The superblock on disk becomes current with the
        allocation that follows; nothing reads it before. */
    method Wipe()
      requires Shape()
      modifies this`bitmap, this`inodes, this`freeBlocks, this`freeInodes, this`savedBlocks, this`savedInodes,
        this`nextBlock,
        this`blkBuf, this`own
      ensures Shape() && inodes == seq(INODES, _ => NO_INODE)
      ensures forall x :: 0 <= x < total ==> Bits()[x] == (x < dataStart)
      ensures dataStart <= total < TWO_32 ==> Holds(inodes)
      ensures own == seq(total, x => if x < dataStart then META else FREE)
    {
      hide Good;
      freeBlocks, freeInodes, nextBlock := (total - dataStart) % TWO_32, INODES, 0;
      savedBlocks, savedInodes := freeBlocks, freeInodes;
      bitmap := seq(|bitmap|, _ => NO_BITS);
      inodes := seq(INODES, _ => NO_INODE);
      own := seq(total, x => if x < dataStart then META else FREE);
      BlankBits(bitmap, total);
      MarkMetadata();
      if dataStart <= total < TWO_32 {
        BlankGood(Bits(), dataStart, own, inodes, freeBlocks);
      }
    }

    method MarkMetadata()
      requires BitmapShape(bitmap, total) && forall x :: 0 <= x < total ==> !Bits()[x]
      modifies this`bitmap, this`blkBuf
      ensures BitmapShape(bitmap, total) && forall x :: 0 <= x < total ==> Bits()[x] == (x < dataStart)
    {
      var i := 0;
      while i < dataStart
        invariant 0 <= i <= dataStart && BitmapShape(bitmap, total)
        invariant forall x :: 0 <= x < total ==> Bits()[x] == (x < i)
      {
        BitmapSet(i, true);
        i := i + 1;
      }
    }

    /** The first data block becomes the root directory. */
    method MakeRoot(b: nat)
      requires Holds(inodes) && inodes == seq(INODES, _ => NO_INODE) && 0 < b < total && own[b] == PENDING
      requires data[b] == ZEROS
      requires forall x :: 0 <= x < total && x != b ==> own[x] != PENDING
      modifies this`inodes, this`data, this`blkBuf, this`own, this`freeInodes, this`savedBlocks, this`savedInodes
      ensures Valid() && inodes == seq(INODES, _ => NO_INODE)[0 := DirInode(0x1ED).(extents := OneBlock(b))]
      ensures own == old(own)[b := 1] && DotsOnly(data[b], 1, 1) && freeInodes == INODES - 1
    {
      hide Good, DotsOnly, OneBlock, DirInode, Laid;
      GoodIsLaid(Books(Bits(), dataStart, freeBlocks, freeInodes, nextBlock), own, inodes);
      Lengths();
      RootInode(b, DirInode(0x1ED).(extents := OneBlock(b)));
      Same(data, b);
      WriteDots(b, 1, 1, data);
      WriteSuperblock();
    }

    method RootInode(b: nat, root: Inode)
      requires Holds(inodes) && inodes == seq(INODES, _ => NO_INODE) && 0 < b < total && own[b] == PENDING
      requires root == DirInode(0x1ED).(extents := OneBlock(b))
      modifies this`inodes, this`own, this`freeInodes
      ensures Shape() && Good(Books(Bits(), dataStart, freeBlocks, freeInodes, nextBlock), own, inodes)
      ensures inodes == seq(INODES, _ => NO_INODE)[0 := root] && DeadEmpty(inodes)
      ensures own == old(own)[b := 1] && freeInodes == INODES - 1
    {
      hide Good, OneBlock, DirInode, Laid;
      GoodIsLaid(Books(Bits(), dataStart, freeBlocks, freeInodes, nextBlock), own, inodes);
      Lengths();
      RootGood(Books(Bits(), dataStart, freeBlocks, freeInodes, nextBlock), own, inodes, b, root);
      DeadSet(inodes, 0, root);
      own := own[b := 1];
      WriteInode(1, root);
      freeInodes := INODES - 1;
    }

    /** Mounting again reads the superblock back and restarts both searches. */
    method Remount()
      requires Valid()
      modifies this`freeBlocks, this`freeInodes, this`nextBlock, this`nextInode, this`blkBuf
      ensures Valid() && freeBlocks == old(freeBlocks) && freeInodes == old(freeInodes)
      ensures nextBlock == 0 && nextInode == 2
    {
      nextBlock, nextInode := 0, 2;
      blkBuf := SuperBuf;
      freeBlocks, freeInodes := savedBlocks, savedInodes;
    }

    /** What is written can be read back, from a file without holes whose new blocks come in order. */
    method WriteThenRead(ino: nat, buf: seq<byte>, offset: nat, size: nat)
        returns (count: int, ghost w: nat, back: Option<seq<byte>>)
      requires Valid() && 0 < ino <= INODES && offset <= inodes[ino - 1].size && Covered(inodes[ino - 1])
      requires Orderly(Bits(), dataStart, inodes[ino - 1], offset + |buf|)
      modifies this
      ensures w == Written(old(Bits()), dataStart, old(inodes[ino - 1]), offset, |buf|) && w <= |buf|
      ensures count == AsInt(w)
      ensures size <= w ==> back == Some(buf[..size])
    {
      hide Good, Settled, Spared, Orderly, Blocks, Flat, Stored, Content, Gets, Written, Clean, Covered, Held, Taken;
      ghost var was := inodes[ino - 1];
      count, w := Write(true, ino, buf, offset);
      if Gets(old(Bits()), dataStart, was, offset, |buf|) > 0 { GrowsPast(old(Bits()), dataStart, was, offset, |buf|); }
      SpliceAt(Content(old(data), was), offset, buf[..w]);
      SoundLayout();
      if size <= w {
        TakenSlice(Content(data, inodes[ino - 1]), offset, size);
        assert Content(data, inodes[ino - 1])[offset..offset + size] == buf[..size] by {
          SubSlice(Content(data, inodes[ino - 1]), offset, w, size);
        }
      }
      HeldContent(data, inodes[ino - 1]);
      var n;
      n, back := Read(true, ino, size, offset);
    }
  }
}
