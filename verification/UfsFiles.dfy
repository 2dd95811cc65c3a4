/** What a UFS file holds: the bytes of its blocks in file order, up to its size. */
module UfsFiles {
  import opened Words
  import opened Wrappers
  import opened Extents
  import opened UfsBooks

  const BLOCK := 4096

  ghost predicate Stored(data: seq<seq<byte>>, bs: seq<nat>) {
    forall k :: 0 <= k < |bs| ==> bs[k] < |data| && |data[bs[k]]| == BLOCK
  }

  /** The bytes of the blocks, one block after the other. */
  ghost function Flat(data: seq<seq<byte>>, bs: seq<nat>): (r: seq<byte>)
    requires Stored(data, bs)
    ensures |r| == BLOCK * |bs| && forall x :: 0 <= x < |r| ==> r[x] == data[bs[x / BLOCK]][x % BLOCK]
  {
    seq(BLOCK * |bs|, x requires 0 <= x < BLOCK * |bs| => data[bs[x / BLOCK]][x % BLOCK])
  }

  ghost predicate Covered(n: Inode) { n.size <= BLOCK * |Blocks(n.extents)| }

  ghost function Content(data: seq<seq<byte>>, n: Inode): (r: seq<byte>)
    requires Stored(data, Blocks(n.extents)) && Covered(n)
    ensures |r| == n.size
  {
    Flat(data, Blocks(n.extents))[..n.size]
  }

  lemma SubSlice(s: seq<byte>, at: nat, n: nat, m: nat)
    requires m <= n && at + n <= |s|
    ensures s[at..at + n][..m] == s[at..at + m]
  {
    var u, v := s[at..at + n][..m], s[at..at + m];
    assert |u| == |v| && forall k :: 0 <= k < |v| ==> u[k] == v[k];
  }

  /** `s` with `t` written over it at `at`. */
  function Splice(s: seq<byte>, at: nat, t: seq<byte>): (r: seq<byte>)
    requires at <= |s|
  {
    s[..at] + t + (if at + |t| < |s| then s[at + |t|..] else [])
  }

  lemma SpliceAt(s: seq<byte>, at: nat, t: seq<byte>)
    requires at <= |s|
    ensures at + |t| <= |Splice(s, at, t)| && Splice(s, at, t)[at..at + |t|] == t
  {
  }

  lemma FlatPut(data: seq<seq<byte>>, bs: seq<nat>, k: nat, block: seq<byte>, x: nat)
    requires Stored(data, bs) && NoDup(bs) && k < |bs| && |block| == BLOCK && x < BLOCK * |bs|
    ensures Stored(data[bs[k] := block], bs)
    ensures Flat(data[bs[k] := block], bs)[x] == if x / BLOCK == k then block[x % BLOCK] else Flat(data, bs)[x]
  {
    var j := x / BLOCK;
    assert j != k ==> bs[j] != bs[k];
  }

  /** A piece of the file that lies in one block. */
  lemma FlatSlice(data: seq<seq<byte>>, bs: seq<nat>, k: nat, so: nat, n: nat)
    requires Stored(data, bs) && k < |bs| && so + n <= BLOCK
    ensures BLOCK * k + so + n <= |Flat(data, bs)|
    ensures Flat(data, bs)[BLOCK * k + so..BLOCK * k + so + n] == data[bs[k]][so..so + n]
  {
    var u, v := Flat(data, bs)[BLOCK * k + so..BLOCK * k + so + n], data[bs[k]][so..so + n];
    forall x | 0 <= x < n ensures u[x] == v[x] {
      assert (BLOCK * k + so + x) / BLOCK == k && (BLOCK * k + so + x) % BLOCK == so + x;
    }
  }

  /** Reading on: the bytes read so far and the next piece of block `k`. */
  lemma ReadOn(data: seq<seq<byte>>, bs: seq<nat>, a: nat, b: nat, k: nat, so: nat, n: nat)
    requires Stored(data, bs) && k < |bs| && so + n <= BLOCK && a <= b == BLOCK * k + so
    ensures b + n <= |Flat(data, bs)| && Flat(data, bs)[a..b] + data[bs[k]][so..so + n] == Flat(data, bs)[a..b + n]
  {
    FlatSlice(data, bs, k, so, n);
  }

  lemma FlatSame(data: seq<seq<byte>>, data': seq<seq<byte>>, bs: seq<nat>)
    requires Stored(data, bs) && |data'| == |data| && forall k :: 0 <= k < |bs| ==> data'[bs[k]] == data[bs[k]]
    ensures Stored(data', bs) && Flat(data', bs) == Flat(data, bs)
  {
  }

  lemma FlatMore(data: seq<seq<byte>>, bs: seq<nat>, b: nat, x: nat)
    requires Stored(data, bs) && b < |data| && |data[b]| == BLOCK && x < BLOCK * |bs|
    ensures Stored(data, bs + [b]) && Flat(data, bs + [b])[x] == Flat(data, bs)[x]
  {
    assert x / BLOCK < |bs|;
    assert (bs + [b])[x / BLOCK] == bs[x / BLOCK];
  }

  /** A write of `buf` at `off` that has got `w` bytes far. */
  ghost predicate Progress(before: seq<byte>, off: nat, buf: seq<byte>, w: nat, now: seq<byte>) {
    && off <= |before| <= |now| && w <= |buf| && off + w <= |now|
    && (forall x :: 0 <= x < off ==> now[x] == before[x])
    && (forall x :: off <= x < off + w ==> now[x] == buf[x - off])
    && (forall x :: off + w <= x < |before| ==> now[x] == before[x])
  }

  lemma Finished(before: seq<byte>, off: nat, buf: seq<byte>, w: nat, now: seq<byte>, size: nat, size': nat)
    requires Progress(before, off, buf, w, now) && off <= size <= |before|
    requires size' == if off + w > size then off + w else size
    ensures size' <= |now| && now[..size'] == Splice(before[..size], off, buf[..w])
  {
  }

  /** Growth by up to `n` blocks puts each new block last: the lowest free block never follows
      an extent of the file that is not its last. */
  ghost predicate GrowsInOrder(bits: seq<bool>, dataStart: nat, es: seq<Extent>, n: nat)
    decreases n
  {
    var b := LowestFree(bits, dataStart);
    n == 0 || b == |bits| || Append(es, b).None?
      || (!Steals(es, b) && GrowsInOrder(bits[b := true], dataStart, Append(es, b).value, n - 1))
  }

  /** The lowest clear bit from `from` on: the plain scan of the reference driver. */
  ghost function LowestFree(bits: seq<bool>, from: nat): (r: nat)
    ensures r <= |bits| && (r < |bits| ==> from <= r && !bits[r])
    ensures forall b :: from <= b < r ==> bits[b]
    decreases |bits| - from
  {
    if from >= |bits| then |bits| else if !bits[from] then from else LowestFree(bits, from + 1)
  }

  lemma LowestFreeIs(bits: seq<bool>, from: nat, b: nat)
    requires from <= b < |bits| && !bits[b] && forall x :: from <= x < b ==> bits[x]
    ensures LowestFree(bits, from) == b
  {
  }

  /** Blocks of inodes other than `k + 1` keep their contents. */
  ghost predicate Spared(own: seq<int>, data: seq<seq<byte>>, data': seq<seq<byte>>, k: int) {
    && |own| == |data| == |data'|
    && forall b :: 0 <= b < |own| && own[b] > 0 && own[b] != k + 1 ==> data'[b] == data[b]
  }

  /** Only free blocks changed hands, to inode `k + 1`. */
  ghost predicate Grown(own: seq<int>, own': seq<int>, k: int) {
    |own'| == |own| && forall b :: 0 <= b < |own| ==> own'[b] == own[b] || (own[b] == FREE && own'[b] == k + 1)
  }

  ghost predicate Sized(data: seq<seq<byte>>) { forall b :: 0 <= b < |data| ==> |data[b]| == BLOCK }

  lemma OwnStored(own: seq<int>, view: seq<Inode>, data: seq<seq<byte>>, k: int)
    requires Owns(own, view) && 0 <= k < INODES && |own| == |data| && Sized(data)
    ensures |view| == INODES && Stored(data, Blocks(view[k].extents))
  {
    OwnsOne(own, view, k);
    var bs := Blocks(view[k].extents);
    forall j | 0 <= j < |bs| ensures bs[j] < |data| && |data[bs[j]]| == BLOCK { assert bs[j] in bs; }
  }

  /** Sparing an inode's blocks keeps its file. */
  lemma FileKept(own: seq<int>, view: seq<Inode>, data: seq<seq<byte>>, data': seq<seq<byte>>, k: int, i: int)
    requires Owns(own, view) && 0 <= i < INODES && i != k && Spared(own, data, data', k) && Sized(data)
    requires Covered(view[i])
    ensures Stored(data, Blocks(view[i].extents)) && Stored(data', Blocks(view[i].extents))
    ensures Content(data', view[i]) == Content(data, view[i])
  {
    OwnStored(own, view, data, i);
    OwnsOne(own, view, i);
    var bs := Blocks(view[i].extents);
    forall j | 0 <= j < |bs| ensures data'[bs[j]] == data[bs[j]] { assert bs[j] in bs; }
    FlatSame(data, data', bs);
  }

  /** Writing part of block `j` of the file moves the write on. */
  lemma ProgressPut(before: seq<byte>, off: nat, buf: seq<byte>, w: nat, data: seq<seq<byte>>, bs: seq<nat>,
                    j: nat, so: nat, n: nat, block: seq<byte>)
    requires Stored(data, bs) && NoDup(bs) && j < |bs| && so + n <= BLOCK && w + n <= |buf| && off + w == BLOCK * j + so
    requires Progress(before, off, buf, w, Flat(data, bs))
    requires |block| == BLOCK
    requires forall x :: 0 <= x < BLOCK ==> block[x] == if so <= x < so + n then buf[w + x - so] else data[bs[j]][x]
    ensures Stored(data[bs[j] := block], bs) && Progress(before, off, buf, w + n, Flat(data[bs[j] := block], bs))
  {
    var f, g := Flat(data, bs), Flat(data[bs[j] := block], bs);
    FlatPut(data, bs, j, block, BLOCK * j);
    forall x | 0 <= x < |g| ensures g[x] == if off + w <= x < off + w + n then buf[x - off] else f[x] {
      FlatPut(data, bs, j, block, x);
      if x / BLOCK == j { assert x == BLOCK * j + x % BLOCK; }
    }
    hide Flat, Stored, NoDup;
  }

  /** A new block at the end changes no byte of the file. */
  lemma ProgressGrow(before: seq<byte>, off: nat, buf: seq<byte>, w: nat, data: seq<seq<byte>>, bs: seq<nat>, b: nat)
    requires Stored(data, bs) && b < |data| && |data[b]| == BLOCK && Progress(before, off, buf, w, Flat(data, bs))
    ensures Stored(data, bs + [b]) && Progress(before, off, buf, w, Flat(data, bs + [b]))
  {
    var f, g := Flat(data, bs), Flat(data, bs + [b]);
    forall x | 0 <= x < |f| ensures g[x] == f[x] { FlatMore(data, bs, b, x); }
    hide Flat, Stored;
  }

  /** Blocks still to be added to hold `bytes` bytes. */
  function Missing(bytes: nat, have: nat): nat {
    var need := (bytes + BLOCK - 1) / BLOCK;
    if need > have then need - have else 0
  }

  /** State of a write to inode `k + 1`: other files are spared; when the file grows in order, its
      blocks hold the old bytes with the first `w` bytes of `buf` written over them. */
  ghost predicate Halfway(own0: seq<int>, data0: seq<seq<byte>>, n0: Inode, own: seq<int>, data: seq<seq<byte>>,
                          bits: seq<bool>, dataStart: nat, n: Inode, k: int, off: nat, buf: seq<byte>, w: nat,
                          ordered: bool)
  {
    && Spared(own0, data0, data, k) && Grown(own0, own, k)
    && n == n0.(extents := n.extents) && |Blocks(n0.extents)| <= |Blocks(n.extents)|
    && w <= |buf| && (off <= BLOCK * |Blocks(n0.extents)| ==> off + w <= BLOCK * |Blocks(n.extents)|)
    && (ordered ==>
        && off <= BLOCK * |Blocks(n0.extents)|
        && Stored(data0, Blocks(n0.extents)) && Stored(data, Blocks(n.extents))
        && GrowsInOrder(bits, dataStart, n.extents, Missing(off + |buf|, |Blocks(n.extents)|))
        && Progress(Flat(data0, Blocks(n0.extents)), off, buf, w, Flat(data, Blocks(n.extents))))
  }

  /** The write starts within the blocks of the file, and each block it adds becomes the last. */
  ghost predicate InOrder(bits: seq<bool>, dataStart: nat, n: Inode, off: nat, len: nat) {
    off <= BLOCK * |Blocks(n.extents)|
    && GrowsInOrder(bits, dataStart, n.extents, Missing(off + len, |Blocks(n.extents)|))
  }

  lemma HalfwayStart(own: seq<int>, data: seq<seq<byte>>, bits: seq<bool>, dataStart: nat, n: Inode, k: int, off: nat,
                     buf: seq<byte>)
    requires |own| == |data| && Stored(data, Blocks(n.extents))
    ensures Halfway(own, data, n, own, data, bits, dataStart, n, k, off, buf, 0,
                    InOrder(bits, dataStart, n, off, |buf|))
  {
    hide Blocks, Flat, GrowsInOrder, Missing, Stored;
  }

  lemma HalfwayFacts(own0: seq<int>, data0: seq<seq<byte>>, n0: Inode, own: seq<int>, data: seq<seq<byte>>,
                     bits: seq<bool>, dataStart: nat, n: Inode, k: int, off: nat, buf: seq<byte>, w: nat, ordered: bool)
    requires Halfway(own0, data0, n0, own, data, bits, dataStart, n, k, off, buf, w, ordered)
    ensures n == n0.(extents := n.extents) && |Blocks(n0.extents)| <= |Blocks(n.extents)|
    ensures w <= |buf| && (off <= BLOCK * |Blocks(n0.extents)| ==> off + w <= BLOCK * |Blocks(n.extents)|)
    ensures ordered ==> off <= BLOCK * |Blocks(n0.extents)|
  {
  }

  /** What a finished write leaves, given the new size. */
  lemma HalfwayDone(own0: seq<int>, data0: seq<seq<byte>>, n0: Inode, own: seq<int>, data: seq<seq<byte>>,
                    bits: seq<bool>, dataStart: nat, n: Inode, k: int, off: nat, buf: seq<byte>, w: nat, ordered: bool)
    requires Halfway(own0, data0, n0, own, data, bits, dataStart, n, k, off, buf, w, ordered) && Covered(n0)
    requires off <= n0.size
    ensures Spared(own0, data0, data, k)
    ensures ordered ==>
      && var n' := n.(size := if off + w > n0.size then off + w else n0.size);
      && Stored(data0, Blocks(n0.extents)) && Stored(data, Blocks(n'.extents)) && Covered(n')
      && Content(data, n') == Splice(Content(data0, n0), off, buf[..w])
  {
    if ordered {
      Finished(Flat(data0, Blocks(n0.extents)), off, buf, w, Flat(data, Blocks(n.extents)), n0.size,
               if off + w > n0.size then off + w else n0.size);
    }
  }

  /** A chunk written to block `b` of the file. */
  lemma HalfwayPut(own0: seq<int>, data0: seq<seq<byte>>, n0: Inode, own: seq<int>, data: seq<seq<byte>>,
                   bits: seq<bool>, dataStart: nat, n: Inode, k: int, off: nat, buf: seq<byte>, w: nat, ordered: bool,
                   b: nat, j: nat, so: nat, m: nat, block: seq<byte>)
    requires Halfway(own0, data0, n0, own, data, bits, dataStart, n, k, off, buf, w, ordered)
    requires NoDup(Blocks(n.extents)) && b < |data| && own[b] == k + 1 && |data[b]| == BLOCK
    requires off <= BLOCK * |Blocks(n0.extents)| ==> j < |Blocks(n.extents)|
    requires ordered ==> j < |Blocks(n.extents)| && b == Blocks(n.extents)[j]
    requires so + m <= BLOCK && w + m <= |buf| && off + w == BLOCK * j + so && |block| == BLOCK
    requires forall x :: 0 <= x < BLOCK ==> block[x] == if so <= x < so + m then buf[w + x - so] else data[b][x]
    ensures Halfway(own0, data0, n0, own, data[b := block], bits, dataStart, n, k, off, buf, w + m, ordered)
  {
    hide Blocks, Flat, GrowsInOrder, Missing, Stored, Progress;
    if ordered {
      ProgressPut(Flat(data0, Blocks(n0.extents)), off, buf, w, data, Blocks(n.extents), j, so, m, block);
    }
  }

  /** The file grows by block `b`, zeroed. */
  lemma HalfwayGrow(own0: seq<int>, data0: seq<seq<byte>>, n0: Inode, own: seq<int>, data: seq<seq<byte>>,
                    bits: seq<bool>, dataStart: nat, n: Inode, k: int, off: nat, buf: seq<byte>, w: nat, ordered: bool,
                    b: nat, n': Inode, block: seq<byte>)
    requires Halfway(own0, data0, n0, own, data, bits, dataStart, n, k, off, buf, w, ordered)
    requires b < |own| && own[b] == FREE && b == LowestFree(bits, dataStart) && b < |bits| && |block| == BLOCK
    requires Shaped(n.extents) && b !in Blocks(n.extents)
    requires Append(n.extents, b) == Some(n'.extents) && n' == n.(extents := n'.extents)
    requires (ordered ==> off + w == BLOCK * |Blocks(n.extents)|) && w < |buf|
    ensures Halfway(own0, data0, n0, own[b := k + 1], data[b := block], bits[b := true], dataStart, n', k, off, buf, w,
                    ordered)
    ensures |Blocks(n'.extents)| == |Blocks(n.extents)| + 1
    ensures ordered ==> Blocks(n'.extents) == Blocks(n.extents) + [b]
  {
    AppendLast(n.extents, b);
    if ordered { MissingStep(off + |buf|, |Blocks(n.extents)|); }
    hide Blocks, Flat, Stored, Progress, Missing, Append, Shaped, Steals;
    if ordered {
      GrowKeeps(Flat(data0, Blocks(n0.extents)), off, buf, w, data, Blocks(n.extents), b, block);
    }
  }

  /** Changes to blocks without an owner do not show. */
  lemma HalfwayKept(own0: seq<int>, data0: seq<seq<byte>>, n0: Inode, own: seq<int>, data: seq<seq<byte>>,
                    bits: seq<bool>, dataStart: nat, n: Inode, k: int, off: nat, buf: seq<byte>, w: nat, ordered: bool,
                    data': seq<seq<byte>>)
    requires Halfway(own0, data0, n0, own, data, bits, dataStart, n, k, off, buf, w, ordered)
    requires Spared(own, data, data', -1) && forall b: nat :: b in Blocks(n.extents) ==> b < |own| && own[b] > 0
    ensures Halfway(own0, data0, n0, own, data', bits, dataStart, n, k, off, buf, w, ordered)
  {
    var bs := Blocks(n.extents);
    if ordered {
      forall j | 0 <= j < |bs| ensures data'[bs[j]] == data[bs[j]] { assert bs[j] in bs; }
      FlatSame(data, data', bs);
    }
    hide Blocks, Flat, GrowsInOrder, Missing, Stored, Progress;
  }

  lemma AppendLast(es: seq<Extent>, b: nat)
    requires Shaped(es) && Append(es, b).Some?
    ensures var t := Append(es, b).value;
      |Blocks(t)| == |Blocks(es)| + 1 && (!Steals(es, b) ==> Blocks(t) == Blocks(es) + [b])
  {
    AppendHas(es, b);
    AppendInserts(es, b);
    AppendInOrder(es, b);
    var bs := Blocks(es);
    assert bs[..|bs|] == bs && bs[|bs|..] == [];
  }

  lemma MissingStep(bytes: nat, have: nat)
    requires BLOCK * have < bytes
    ensures Missing(bytes, have) > 0 && Missing(bytes, have + 1) == Missing(bytes, have) - 1
  {
  }

  lemma GrowKeeps(before: seq<byte>, off: nat, buf: seq<byte>, w: nat, data: seq<seq<byte>>, bs: seq<nat>, b: nat,
                  block: seq<byte>)
    requires Stored(data, bs) && b < |data| && |block| == BLOCK && b !in bs
    requires Progress(before, off, buf, w, Flat(data, bs))
    ensures Stored(data[b := block], bs + [b]) && Progress(before, off, buf, w, Flat(data[b := block], bs + [b]))
  {
    FlatSame(data, data[b := block], bs);
    ProgressGrow(before, off, buf, w, data[b := block], bs, b);
  }

  // ---- how far a write gets ----

  /** How many of `want` further blocks the file can get. */
  ghost function Room(bits: seq<bool>, dataStart: nat, es: seq<Extent>, want: nat): (r: nat)
    ensures r <= want
    decreases want
  {
    var b := LowestFree(bits, dataStart);
    if want == 0 || b == |bits| || Append(es, b).None? then 0
    else 1 + Room(bits[b := true], dataStart, Append(es, b).value, want - 1)
  }

  /** The block of the file from which on a write at `off` needs new blocks. */
  function FirstNew(n: Inode, off: nat): nat {
    if off / BLOCK > |Blocks(n.extents)| then off / BLOCK else |Blocks(n.extents)|
  }

  /** How many it needs. */
  function Needed(n: Inode, off: nat, len: nat): nat {
    var last := (off + len + BLOCK - 1) / BLOCK;
    if len > 0 && last > FirstNew(n, off) then last - FirstNew(n, off) else 0
  }

  /** How many it gets. */
  ghost function Gets(bits: seq<bool>, dataStart: nat, n: Inode, off: nat, len: nat): (r: nat) {
    Room(bits, dataStart, n.extents, Needed(n, off, len))
  }

  /** How many bytes are written: all, or those up to the first block that cannot be had. */
  ghost function Written(bits: seq<bool>, dataStart: nat, n: Inode, off: nat, len: nat): (r: nat) {
    var got := Gets(bits, dataStart, n, off, len);
    if got == Needed(n, off, len) then len
    else if BLOCK * (FirstNew(n, off) + got) <= off then 0
    else BLOCK * (FirstNew(n, off) + got) - off
  }

  /** A file without holes that got blocks also got longer. */
  lemma GrowsPast(bits: seq<bool>, dataStart: nat, n: Inode, off: nat, len: nat)
    requires Gets(bits, dataStart, n, off, len) > 0 && Covered(n)
    ensures off + Written(bits, dataStart, n, off, len) > n.size
  {
    var f := FirstNew(n, off);
    hide Room, Blocks;
    assert off + Written(bits, dataStart, n, off, len) > BLOCK * f;
  }

  /** The lowest free block, if there is one, fits in no extent of the file. */
  ghost predicate NoRoom(bits: seq<bool>, dataStart: nat, es: seq<Extent>) {
    var b := LowestFree(bits, dataStart);
    b == |bits| || Append(es, b).None?
  }

  /** New blocks so far when the write has come to block `block` of the file. */
  function Fresh(n0: Inode, off: nat, block: nat): nat {
    if block > FirstNew(n0, off) then block - FirstNew(n0, off) else 0
  }

  /** The write has come to byte `so` of block `block`, with `w` bytes written. */
  ghost predicate Filling(bits0: seq<bool>, n0: Inode, bits: seq<bool>, n: Inode, dataStart: nat, off: nat, len: nat,
                          block: nat, so: nat, w: nat)
  {
    var g := Fresh(n0, off, block);
    && w <= len && so < BLOCK && off / BLOCK <= block && (w < len ==> off + w == BLOCK * block + so)
    && (w == len ==> g == Needed(n0, off, len)) && (w == 0 ==> block == off / BLOCK) && (w > 0 ==> so == 0)
    && g <= Needed(n0, off, len)
    && Gets(bits0, dataStart, n0, off, len) == g + Room(bits, dataStart, n.extents, Needed(n0, off, len) - g)
    && |Blocks(n.extents)| == |Blocks(n0.extents)| + g && Clear(bits) + g == Clear(bits0)
    && (g == 0 ==> bits == bits0 && n == n0)
    && (g > 0 ==> exists b :: b in Blocks(n.extents) && b !in Blocks(n0.extents))
  }

  lemma FillStart(bits: seq<bool>, n: Inode, dataStart: nat, off: nat, len: nat)
    ensures Filling(bits, n, bits, n, dataStart, off, len, off / BLOCK, off % BLOCK, 0)
  {
    hide Blocks, Room, Clear;
  }

  /** The block is there exactly below the first new one; otherwise one is still needed. */
  lemma FillHas(bits0: seq<bool>, n0: Inode, bits: seq<bool>, n: Inode, dataStart: nat, off: nat, len: nat, block: nat,
                so: nat, w: nat)
    requires Filling(bits0, n0, bits, n, dataStart, off, len, block, so, w) && w < len
    ensures block < |Blocks(n.extents)| <==> block < FirstNew(n0, off)
    ensures block >= FirstNew(n0, off) ==> Fresh(n0, off, block) < Needed(n0, off, len)
  {
    hide Blocks, Room, Clear, Gets;
  }

  /** A chunk was written to a block the file had. */
  lemma FillKeep(bits0: seq<bool>, n0: Inode, bits: seq<bool>, n: Inode, dataStart: nat, off: nat, len: nat,
                 block: nat, so: nat, w: nat, m: nat)
    requires Filling(bits0, n0, bits, n, dataStart, off, len, block, so, w) && w < len && block < |Blocks(n.extents)|
    requires m == if BLOCK - so > len - w then len - w else BLOCK - so
    ensures Filling(bits0, n0, bits, n, dataStart, off, len, block + 1, 0, w + m)
  {
    hide Blocks, Room, Clear, Gets;
    FillEnd(n0, off, len, block, so, w, m);
  }

  lemma FillEnd(n0: Inode, off: nat, len: nat, block: nat, so: nat, w: nat, m: nat)
    requires w < len && so < BLOCK && off + w == BLOCK * block + so
    requires m == if BLOCK - so > len - w then len - w else BLOCK - so
    ensures 0 < m && w + m <= len && (w + m < len ==> off + w + m == BLOCK * (block + 1))
    ensures w + m == len ==> (off + len + BLOCK - 1) / BLOCK == block + 1
    ensures w + m < len ==> (off + len + BLOCK - 1) / BLOCK > block + 1
  {
  }

  /** The file got a block and the chunk was written to it. */
  lemma FillGrow(bits0: seq<bool>, n0: Inode, bits: seq<bool>, n: Inode, dataStart: nat, off: nat, len: nat,
                 block: nat, so: nat, w: nat,
                 b: nat, n': Inode, m: nat)
    requires Filling(bits0, n0, bits, n, dataStart, off, len, block, so, w) && w < len && block >= |Blocks(n.extents)|
    requires b == LowestFree(bits, dataStart) && b < |bits| && Append(n.extents, b) == Some(n'.extents)
    requires Shaped(n.extents) && b !in Blocks(n.extents)
    requires m == if BLOCK - so > len - w then len - w else BLOCK - so
    ensures Filling(bits0, n0, bits[b := true], n', dataStart, off, len, block + 1, 0, w + m)
  {
    hide Blocks, Clear, Gets, Append, Room, Shaped;
    ClearSet(bits, b, true);
    FillHas(bits0, n0, bits, n, dataStart, off, len, block, so, w);
    FillEnd(n0, off, len, block, so, w, m);
    NewBlock(n0.extents, n.extents, b, Fresh(n0, off, block) == 0);
    RoomStep(bits, dataStart, n.extents, Needed(n0, off, len) - Fresh(n0, off, block));
  }

  lemma RoomStep(bits: seq<bool>, dataStart: nat, es: seq<Extent>, want: nat)
    requires want > 0 && LowestFree(bits, dataStart) < |bits| && Append(es, LowestFree(bits, dataStart)).Some?
    ensures var b := LowestFree(bits, dataStart);
      Room(bits, dataStart, es, want) == 1 + Room(bits[b := true], dataStart, Append(es, b).value, want - 1)
  {
  }

  lemma NewBlock(es0: seq<Extent>, es: seq<Extent>, b: nat, first: bool)
    requires Shaped(es) && Append(es, b).Some? && b !in Blocks(es)
    requires if first then es == es0 else exists x :: x in Blocks(es) && x !in Blocks(es0)
    ensures |Blocks(Append(es, b).value)| == |Blocks(es)| + 1
    ensures exists x :: x in Blocks(Append(es, b).value) && x !in Blocks(es0)
  {
    AppendHas(es, b);
    hide Blocks, Append;
    var x :| if first then x == b else x in Blocks(es) && x !in Blocks(es0);
    assert x in Blocks(Append(es, b).value) && x !in Blocks(es0);
  }

  /** The write is over: everything is written, or a block is missing. */
  lemma FillDone(bits0: seq<bool>, n0: Inode, bits: seq<bool>, n: Inode, dataStart: nat, off: nat, len: nat,
                 block: nat, so: nat, w: nat)
    requires Filling(bits0, n0, bits, n, dataStart, off, len, block, so, w)
    requires w == len || (w < len && block >= |Blocks(n.extents)| && NoRoom(bits, dataStart, n.extents))
    ensures Filled(bits0, n0, bits, n, dataStart, off, len, w)
  {
    if w < len { FillHas(bits0, n0, bits, n, dataStart, off, len, block, so, w); }
    hide Blocks, Clear, Append;
  }

  /** What the whole write did to the bitmap and the inode in memory. */
  ghost predicate Filled(bits0: seq<bool>, n0: Inode, bits: seq<bool>, n: Inode, dataStart: nat, off: nat, len: nat,
                         w: nat) {
    var got := Gets(bits0, dataStart, n0, off, len);
    && w == Written(bits0, dataStart, n0, off, len) && w <= len
    && |Blocks(n.extents)| == |Blocks(n0.extents)| + got && Clear(bits) + got == Clear(bits0)
    && (got == 0 ==> bits == bits0 && n == n0)
    && (got > 0 ==> exists b :: b in Blocks(n.extents) && b !in Blocks(n0.extents))
  }

  lemma FillFacts(bits0: seq<bool>, n0: Inode, bits: seq<bool>, n: Inode, dataStart: nat, off: nat, len: nat,
                  block: nat, so: nat, w: nat)
    requires Filling(bits0, n0, bits, n, dataStart, off, len, block, so, w)
    ensures w <= len && so < BLOCK && (w < len ==> off + w == BLOCK * block + so)
  {
  }

  lemma FilledFacts(bits0: seq<bool>, n0: Inode, bits: seq<bool>, n: Inode, dataStart: nat, off: nat, len: nat, w: nat)
    requires Filled(bits0, n0, bits, n, dataStart, off, len, w)
    ensures var got := Gets(bits0, dataStart, n0, off, len);
      && w == Written(bits0, dataStart, n0, off, len) && w <= len
      && |Blocks(n.extents)| == |Blocks(n0.extents)| + got && Clear(bits) + got == Clear(bits0)
      && (got == 0 ==> bits == bits0 && n == n0)
      && (got > 0 ==> exists b :: b in Blocks(n.extents) && b !in Blocks(n0.extents))
      && (Covered(n0) ==> off + w > n0.size || n == n0)
  {
    var got := Gets(bits0, dataStart, n0, off, len);
    if got > 0 && Covered(n0) { GrowsPast(bits0, dataStart, n0, off, len); }
    hide Gets, Written, Blocks, Clear;
  }

  lemma CoveredInOrder(bits: seq<bool>, dataStart: nat, n: Inode, off: nat, len: nat)
    requires Covered(n) && off <= n.size
    requires GrowsInOrder(bits, dataStart, n.extents, Missing(off + len, |Blocks(n.extents)|))
    ensures InOrder(bits, dataStart, n, off, len)
  {
  }

  // ---- what a read returns ----

  /** At most `n` elements from `at` on. */
  function Taken(s: seq<byte>, at: nat, n: nat): seq<byte> {
    if at >= |s| then [] else s[at..if n < |s| - at then at + n else |s|]
  }

  /** The bytes a read can return: those within the size for which there are blocks. */
  ghost function Held(data: seq<seq<byte>>, n: Inode): seq<byte>
    requires Stored(data, Blocks(n.extents))
  {
    var f := Flat(data, Blocks(n.extents));
    if n.size < |f| then f[..n.size] else f
  }

  lemma HeldContent(data: seq<seq<byte>>, n: Inode)
    requires Stored(data, Blocks(n.extents)) && Covered(n)
    ensures Held(data, n) == Content(data, n)
  {
  }

  lemma HeldSlice(data: seq<seq<byte>>, n: Inode, at: nat, len: nat)
    requires Stored(data, Blocks(n.extents))
    ensures Taken(Held(data, n), at, len) ==
            if at >= n.size then []
            else Taken(Flat(data, Blocks(n.extents)), at, if len < n.size - at then len else n.size - at)
  {
    var f := Flat(data, Blocks(n.extents));
    hide Flat, Blocks, Stored;
    if at < n.size {
      var want := if len < n.size - at then len else n.size - at;
      assert Taken(Held(data, n), at, len) == Taken(f, at, want);
    }
  }

  lemma TakenSlice(s: seq<byte>, at: nat, n: nat)
    requires at + n <= |s|
    ensures Taken(s, at, n) == s[at..at + n]
  {
  }

  /** The next piece, from block `k`. */
  lemma TakenOn(data: seq<seq<byte>>, bs: seq<nat>, at: nat, r: seq<byte>, k: nat, so: nat, n: nat)
    requires Stored(data, bs) && k < |bs| && so + n <= BLOCK && at + |r| == BLOCK * k + so
    requires r == Taken(Flat(data, bs), at, |r|) && so < BLOCK
    ensures r + data[bs[k]][so..so + n] == Taken(Flat(data, bs), at, |r| + n)
  {
    hide Flat, Taken, Stored;
    var f := Flat(data, bs);
    ReadOn(data, bs, at, at + |r|, k, so, n);
    TakenSlice(f, at, |r|);
    TakenSlice(f, at, |r| + n);
  }

  lemma TakenAll(s: seq<byte>, at: nat, n: nat, want: nat)
    requires n <= want && at + n >= |s|
    ensures Taken(s, at, n) == Taken(s, at, want)
  {
  }

  lemma TakenNone(s: seq<byte>, at: nat)
    ensures Taken(s, at, 0) == []
  {
  }
}
