/** Byte-wise access to a partition of a disk of 512-byte sectors. */
module Devfs {
  import opened Words
  import opened Wrappers

  const SECTOR := 512

  type Disk = seq<seq<byte>>

  ghost predicate Sized(disk: Disk) { forall s :: 0 <= s < |disk| ==> |disk[s]| == SECTOR }

  /** The disk as one sequence of bytes. */
  ghost function Flat(disk: Disk): (r: seq<byte>)
    requires Sized(disk)
    ensures |r| == SECTOR * |disk| && forall x :: 0 <= x < |r| ==> r[x] == disk[x / SECTOR][x % SECTOR]
  {
    seq(SECTOR * |disk|, x requires 0 <= x < SECTOR * |disk| => disk[x / SECTOR][x % SECTOR])
  }

  /** `s` with `t` written over it at `at`. */
  function Over(s: seq<byte>, at: nat, t: seq<byte>): (r: seq<byte>)
    requires at + |t| <= |s|
    ensures |r| == |s|
  {
    s[..at] + t + s[at + |t|..]
  }

  /** A piece that lies in one sector. */
  lemma FlatSlice(disk: Disk, s: nat, off: nat, n: nat)
    requires Sized(disk) && s < |disk| && off + n <= SECTOR
    ensures SECTOR * s + off + n <= |Flat(disk)|
    ensures Flat(disk)[SECTOR * s + off..SECTOR * s + off + n] == disk[s][off..off + n]
  {
    var u, v := Flat(disk)[SECTOR * s + off..SECTOR * s + off + n], disk[s][off..off + n];
    forall x | 0 <= x < n ensures u[x] == v[x] {
      assert (SECTOR * s + off + x) / SECTOR == s && (SECTOR * s + off + x) % SECTOR == off + x;
    }
  }

  /** Replacing part of a sector replaces that part of the disk. */
  lemma FlatPut(disk: Disk, s: nat, off: nat, t: seq<byte>)
    requires Sized(disk) && s < |disk| && off + |t| <= SECTOR
    ensures Sized(disk[s := Over(disk[s], off, t)]) && SECTOR * s + off + |t| <= |Flat(disk)|
    ensures Flat(disk[s := Over(disk[s], off, t)]) == Over(Flat(disk), SECTOR * s + off, t)
  {
    var a, b := Flat(disk[s := Over(disk[s], off, t)]), Over(Flat(disk), SECTOR * s + off, t);
    forall x | 0 <= x < |a| ensures a[x] == b[x] {
      var q, r := x / SECTOR, x % SECTOR;
      assert x == SECTOR * q + r;
    }
  }

  /** Two writes side by side are one. */
  lemma OverOver(s: seq<byte>, at: nat, t: seq<byte>, u: seq<byte>)
    requires at + |t| + |u| <= |s|
    ensures Over(Over(s, at, t), at + |t|, u) == Over(s, at, t + u)
  {
  }

  class BlockDevice {
    const start: nat
    var disk: Disk

    constructor (first: nat, sectors: Disk)
      requires Sized(sectors)
      ensures start == first && disk == sectors
    {
      start, disk := first, sectors;
    }

    /** One sector; the number is cut to 32 bits. */
    method ReadSector(lba: nat) returns (r: Option<seq<byte>>)
      ensures r == var s := (start + lba) % TWO_32; if s < |disk| then Some(disk[s]) else None
    {
      var s := (start + lba) % TWO_32;
      r := if s < |disk| then Some(disk[s]) else None;
    }

    method WriteSector(lba: nat, sector: seq<byte>) returns (ok: bool)
      requires |sector| == SECTOR
      modifies this
      ensures ok <==> (start + lba) % TWO_32 < |disk|
      ensures disk == var s := (start + lba) % TWO_32; if s < |old(disk)| then old(disk)[s := sector] else old(disk)
    {
      var s := (start + lba) % TWO_32;
      ok := s < |disk|;
      if ok {
        disk := disk[s := sector];
      }
    }

    /** Reads sector by sector, up to the end of the disk. */
    method ReadPieces(size: nat, offset: nat) returns (r: seq<byte>)
      requires Sized(disk) && SECTOR * start + offset + size <= SECTOR * TWO_32
      ensures Got(Flat(disk), SECTOR * start + offset, r)
      ensures |r| == Least(size, Room(|Flat(disk)|, SECTOR * start + offset))
    {
      hide Flat, Got, Room;
      ghost var at := SECTOR * start + offset;
      var lba, off := offset / SECTOR, offset % SECTOR;
      r := [];
      GotNone(Flat(disk), at);
      while |r| < size
        invariant |r| <= size && 0 <= off < SECTOR && (|r| < size ==> at + |r| == SECTOR * (start + lba) + off)
        invariant Got(Flat(disk), at, r)
        decreases size - |r|
      {
        InRange(start + lba, off, at + |r|);
        var sector := ReadSector(lba);
        SectorThere(disk, start + lba, off, at, r);
        if sector.None? {
          return;
        }
        var chunk := if SECTOR - off > size - |r| then size - |r| else SECTOR - off;
        GotMore(disk, at, r, start + lba, off, chunk);
        r := r + sector.value[off..off + chunk];
        lba, off := lba + 1, 0;
      }
      GotAll(Flat(disk), at, r);
    }

    /** Whole sectors at once, or nothing when they are not all there. */
    method ReadSectors(lba: nat, count: nat) returns (r: Option<seq<byte>>)
      requires Sized(disk) && start + lba < TWO_32
      ensures r.Some? <==> start + lba + count <= |disk|
      ensures r.Some? ==> |r.value| == SECTOR * count && Got(Flat(disk), SECTOR * (start + lba), r.value)
    {
      hide Flat, Got;
      var s := (start + lba) % TWO_32;
      if s + count > |disk| {
        return None;
      }
      var bytes, i := [], 0;
      GotNone(Flat(disk), SECTOR * s);
      while i < count
        invariant 0 <= i <= count && |bytes| == SECTOR * i && Got(Flat(disk), SECTOR * s, bytes)
      {
        GotMore(disk, SECTOR * s, bytes, s + i, 0, SECTOR);
        bytes := bytes + disk[s + i][0..SECTOR];
        i := i + 1;
      }
      return Some(bytes);
    }

    /** Reads `size` bytes at `offset` of the partition: exactly that slice, as far as the disk goes. An
        aligned request is all or nothing. The returned count is cut to a signed 32-bit one: it is the number
        of bytes read exactly when that is below 2^31. */
    method Read(size: nat, offset: nat) returns (count: int, r: seq<byte>)
      requires Sized(disk) && SECTOR * start + offset + size <= SECTOR * TWO_32
      requires SECTOR * start + offset < SECTOR * TWO_32
      ensures |r| == Moved(size, offset, Room(|Flat(disk)|, SECTOR * start + offset))
      ensures Got(Flat(disk), SECTOR * start + offset, r)
      ensures count == AsInt(|r|) && (count == |r| <==> |r| < TWO_31)
    {
      hide Flat, Got, AsInt;
      ghost var at := SECTOR * start + offset;
      var copied := 0;
      if offset % SECTOR != 0 || size % SECTOR != 0 {
        r := ReadPieces(size, offset);
        copied := |r|;
      } else {
        var bytes := ReadSectors(offset / SECTOR, size / SECTOR % TWO_32);
        GotNone(Flat(disk), at);
        FlatSize(disk);
        WholeCount(size, start + offset / SECTOR, |disk|);
        r := if bytes.Some? then bytes.value else [];
        copied := if bytes.Some? then size else 0;
      }
      AsIntExact(|r|);
      count := AsInt(copied);
    }

    /** Changes part of one sector; unless all of it is replaced, it is read first. */
    method WritePiece(lba: nat, off: nat, bytes: seq<byte>) returns (ok: bool)
      requires Sized(disk) && off + |bytes| <= SECTOR && start + lba < TWO_32
      modifies this
      ensures ok <==> start + lba < |old(disk)|
      ensures disk == if ok then old(disk)[start + lba := Over(old(disk)[start + lba], off, bytes)] else old(disk)
    {
      var sector := bytes;
      if |bytes| < SECTOR {
        var was := ReadSector(lba);
        if was.None? {
          return false;
        }
        sector := Over(was.value, off, bytes);
      }
      assert start + lba < |disk| ==> sector == Over(disk[start + lba], off, bytes);
      ok := WriteSector(lba, sector);
    }

    /** Writes sector by sector, up to the end of the disk. */
    method WritePieces(buf: seq<byte>, offset: nat) returns (written: nat)
      requires Sized(disk) && SECTOR * start + offset + |buf| <= SECTOR * TWO_32
      modifies this
      ensures Sized(disk) && written == Least(|buf|, Room(|Flat(old(disk))|, SECTOR * start + offset))
      ensures Wrote(Flat(old(disk)), Flat(disk), SECTOR * start + offset, buf[..written])
    {
      hide Flat, Wrote, Room, Sized, Over;
      ghost var at, f := SECTOR * start + offset, Flat(disk);
      var lba, off := offset / SECTOR, offset % SECTOR;
      written := 0;
      WroteNone(f, at);
      assert buf[..0] == [];
      while written < |buf|
        invariant written <= |buf| && 0 <= off < SECTOR
        invariant (written < |buf| ==> at + written == SECTOR * (start + lba) + off)
        invariant Sized(disk) && Wrote(f, Flat(disk), at, buf[..written])
        decreases |buf| - written
      {
        InRange(start + lba, off, at + written);
        SectorLeft(f, disk, start + lba, off, at, buf[..written]);
        var chunk := if SECTOR - off > |buf| - written then |buf| - written else SECTOR - off;
        ghost var was := disk;
        var ok := WritePiece(lba, off, buf[written..written + chunk]);
        if !ok {
          return;
        }
        WroteMore(f, was, at, buf[..written], start + lba, off, buf[written..written + chunk]);
        assert buf[..written] + buf[written..written + chunk] == buf[..written + chunk];
        written := written + chunk;
        lba, off := lba + 1, 0;
      }
      WroteAll(f, Flat(disk), at, buf[..written]);
      assert buf[..written] == buf;
    }

    /** Whole sectors at once, or nothing when they are not all there. */
    method WriteSectors(lba: nat, count: nat, buf: seq<byte>) returns (ok: bool)
      requires Sized(disk) && start + lba < TWO_32 && |buf| == SECTOR * count
      modifies this
      ensures Sized(disk) && (ok <==> start + lba + count <= |old(disk)|)
      ensures Wrote(Flat(old(disk)), Flat(disk), SECTOR * (start + lba), if ok then buf else [])
    {
      hide Flat, Wrote, Sized, Over;
      ghost var f := Flat(disk);
      var s, i := (start + lba) % TWO_32, 0;
      WroteNone(f, SECTOR * s);
      if s + count > |disk| {
        return false;
      }
      assert buf[..0] == [];
      while i < count
        invariant 0 <= i <= count && Sized(disk) && |disk| == |old(disk)|
        invariant Wrote(f, Flat(disk), SECTOR * s, buf[..SECTOR * i])
      {
        ghost var t, u := buf[..SECTOR * i], buf[SECTOR * i..SECTOR * i + SECTOR];
        WroteMore(f, disk, SECTOR * s, t, s + i, 0, u);
        WholeSector(disk, s + i, u);
        assert t + u == buf[..SECTOR * (i + 1)];
        disk := disk[s + i := buf[SECTOR * i..SECTOR * i + SECTOR]];
        i := i + 1;
      }
      assert buf[..SECTOR * count] == buf;
      ok := true;
    }

    /** Writes at `offset` of the partition: exactly the bytes moved are replaced, and no other byte of the disk.
        An aligned request is all or nothing. The returned count is the number of bytes exactly when that is
        below 2^31. */
    method Write(buf: seq<byte>, offset: nat) returns (count: int)
      requires Sized(disk) && SECTOR * start + offset + |buf| <= SECTOR * TWO_32
      requires SECTOR * start + offset < SECTOR * TWO_32
      modifies this
      ensures Sized(disk)
      ensures var n := Moved(|buf|, offset, Room(|Flat(old(disk))|, SECTOR * start + offset));
        && n <= |buf| && Wrote(Flat(old(disk)), Flat(disk), SECTOR * start + offset, buf[..n])
        && count == AsInt(n) && (count == n <==> n < TWO_31)
    {
      hide Flat, Sized, AsInt, Wrote;
      ghost var n := Moved(|buf|, offset, Room(|Flat(disk)|, SECTOR * start + offset));
      var written := 0;
      if offset % SECTOR != 0 || |buf| % SECTOR != 0 {
        written := WritePieces(buf, offset);
      } else {
        var sectors := |buf| / SECTOR % TWO_32;
        FlatSize(disk);
        WholeCount(|buf|, start + offset / SECTOR, |disk|);
        var ok := WriteSectors(offset / SECTOR, sectors, buf[..SECTOR * sectors]);
        written := if ok then |buf| else 0;
        assert buf[..n] == if ok then buf[..SECTOR * sectors] else [];
      }
      AsIntExact(n);
      count := AsInt(written);
    }
  }

  // ---- counts ----

  /** A request in whole sectors moves all or, at the end of the disk, nothing; any other moves as much as there is. */
  lemma AllOrNothing(size: nat, offset: nat, room: nat)
    ensures offset % 512 != 0 || size % 512 != 0 ==> Moved(size, offset, room) == if size < room then size else room
    ensures offset % 512 == 0 && size % 512 == 0 && size < 512 * TWO_32 ==>
      Moved(size, offset, room) == if size <= room then size else 0
  {
  }

  /** Bytes moved by a request, with `room` bytes from its start to the end of the disk. The number of whole
      sectors is cut to 32 bits. */
  function Moved(size: nat, offset: nat, room: nat): (n: nat)
    ensures n <= size && n <= room
  {
    if offset % SECTOR != 0 || size % SECTOR != 0 then Least(size, room)
    else
      var whole := SECTOR * (size / SECTOR % TWO_32);
      if whole <= room then whole else 0
  }

  /** Cutting the number of whole sectors loses 2^32 of them, which the returned count does not show. */
  lemma WholeCount(size: nat, s: nat, sectors: nat)
    requires size % SECTOR == 0 && SECTOR * s + size <= SECTOR * TWO_32 && s < TWO_32
    ensures var count := size / SECTOR % TWO_32;
      && SECTOR * count == (if size < SECTOR * TWO_32 then size else 0)
      && AsInt(size) == AsInt(SECTOR * count)
      && (s + count <= sectors ==> SECTOR * count <= Room(SECTOR * sectors, SECTOR * s))
      && (SECTOR * count <= Room(SECTOR * sectors, SECTOR * s) ==> s + count <= sectors || count == 0)
  {
  }

  /** Two failing inputs: 2 GiB are read and the count is negative; 4 GiB are read and it is 0. */
  method ReadHuge(d: BlockDevice, gib: nat) returns (count: int, r: seq<byte>)
    requires (gib == 2 || gib == 4) && Sized(d.disk) && d.start + 0x80_0000 <= |d.disk| <= TWO_32
    ensures |r| == gib * 0x4000_0000 && count == if gib == 2 then -TWO_31 else 0
  {
    FlatSize(d.disk);
    count, r := d.Read(gib * 0x4000_0000, 0);
  }

  /** Likewise for writes: all of the buffer is on the disk. */
  method WriteHuge(d: BlockDevice, buf: seq<byte>) returns (count: int)
    requires |buf| == TWO_32 && Sized(d.disk) && d.start + 0x80_0000 <= |d.disk| <= TWO_32
    modifies d
    ensures Sized(d.disk) && Wrote(Flat(old(d.disk)), Flat(d.disk), SECTOR * d.start, buf) && count == 0
  {
    FlatSize(d.disk);
    assert buf[..|buf|] == buf;
    count := d.Write(buf, 0);
  }

  /** `g` is `f` with `t` written over it at `at`. */
  ghost predicate Wrote(f: seq<byte>, g: seq<byte>, at: nat, t: seq<byte>) {
    if t == [] then g == f else at + |t| <= |f| && g == Over(f, at, t)
  }

  lemma FlatSize(disk: Disk)
    requires Sized(disk)
    ensures |Flat(disk)| == SECTOR * |disk|
  {
  }

  lemma WroteNone(f: seq<byte>, at: nat)
    ensures Wrote(f, f, at, [])
  {
  }

  lemma WroteAll(f: seq<byte>, g: seq<byte>, at: nat, t: seq<byte>)
    requires Wrote(f, g, at, t)
    ensures |t| <= Room(|f|, at)
  {
  }

  lemma WroteMore(f: seq<byte>, disk: Disk, at: nat, t: seq<byte>, s: nat, off: nat, u: seq<byte>)
    requires Sized(disk) && Wrote(f, Flat(disk), at, t) && s < |disk| && off + |u| <= SECTOR
    requires at + |t| == SECTOR * s + off && u != []
    ensures |disk[s]| == SECTOR && Sized(disk[s := Over(disk[s], off, u)])
    ensures Wrote(f, Flat(disk[s := Over(disk[s], off, u)]), at, t + u)
  {
    FlatPut(disk, s, off, u);
    if t == [] { assert t + u == u; } else { OverOver(f, at, t, u); }
  }

  lemma WholeSector(disk: Disk, s: nat, u: seq<byte>)
    requires Sized(disk) && s < |disk| && |u| == SECTOR
    ensures |disk[s]| == SECTOR && Over(disk[s], 0, u) == u
  {
  }

  /** Beyond the last sector there is no room left. */
  lemma SectorLeft(f: seq<byte>, disk: Disk, s: nat, off: nat, at: nat, t: seq<byte>)
    requires Sized(disk) && off < SECTOR && at + |t| == SECTOR * s + off && Wrote(f, Flat(disk), at, t)
    ensures s >= |disk| ==> |t| == Room(|f|, at)
  {
  }

  /** What is written can be read back, by either path. */
  lemma WriteThenRead(f: seq<byte>, g: seq<byte>, at: nat, t: seq<byte>, r: seq<byte>)
    requires Wrote(f, g, at, t) && Got(g, at, r) && |r| == |t|
    ensures r == t
  {
  }

  function Least(a: nat, b: nat): nat { if a < b then a else b }

  /** Bytes from `at` to the end. */
  function Room(size: nat, at: nat): nat { if at < size then size - at else 0 }

  /** `r` is what stands at `at`. */
  ghost predicate Got(f: seq<byte>, at: nat, r: seq<byte>) { r == [] || (at + |r| <= |f| && r == f[at..at + |r|]) }

  lemma GotNone(f: seq<byte>, at: nat)
    ensures Got(f, at, [])
  {
  }

  lemma GotAll(f: seq<byte>, at: nat, r: seq<byte>)
    requires Got(f, at, r)
    ensures |r| <= Room(|f|, at)
  {
  }

  lemma GotMore(disk: Disk, at: nat, r: seq<byte>, s: nat, off: nat, n: nat)
    requires Sized(disk) && Got(Flat(disk), at, r) && s < |disk| && off + n <= SECTOR && at + |r| == SECTOR * s + off
    ensures Got(Flat(disk), at, r + disk[s][off..off + n])
  {
    FlatSlice(disk, s, off, n);
    hide Flat;
    var f := Flat(disk);
    assert r == f[at..at + |r|] && f[at..at + |r|] + f[at + |r|..at + |r| + n] == f[at..at + |r| + n];
  }

  /** Beyond the last sector there is nothing left to read. */
  lemma SectorThere(disk: Disk, s: nat, off: nat, at: nat, r: seq<byte>)
    requires Sized(disk) && off < SECTOR && at + |r| == SECTOR * s + off && Got(Flat(disk), at, r)
    ensures s >= |disk| ==> |r| == Room(|Flat(disk)|, at)
  {
  }

  lemma InRange(s: nat, off: nat, pos: nat)
    requires pos == SECTOR * s + off && pos < SECTOR * TWO_32
    ensures s % TWO_32 == s
  {
  }
}
