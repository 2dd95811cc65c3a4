/** UFS directories: 64-byte entries, one after the other in the directory's blocks. */
module UfsDir {
  import opened Words
  import opened UfsBooks
  import opened UfsFiles
  import opened Extents

  const ENTRY := 64
  const PER_BLOCK := 64
  const NAME := 56

  type Entry = e: seq<byte> | |e| == ENTRY witness seq(ENTRY, _ => 0)

  function EntryIno(e: Entry): nat { FromLE32(e[0], e[1], e[2], e[3]) }

  /** 1 for a file, 2 for a directory. */
  function EntryKind(e: Entry): byte { e[4] }

  /** The recorded length of the name. */
  function EntryLen(e: Entry): nat { e[5] }

  /** The bytes before the first NUL. */
  function CString(s: seq<byte>): (r: seq<byte>)
    ensures |r| <= |s| && 0 !in r && r == s[..|r|] && (|r| < |s| ==> s[|r|] == 0)
  {
    if s == [] || s[0] == 0 then []
    else
      var r := CString(s[1..]);
      assert s[..1 + |r|] == [s[0]] + s[1..][..|r|];
      [s[0]] + r
  }

  function EntryName(e: Entry): seq<byte> { CString(e[8..]) }

  /** A name as stored: at most 55 bytes, padded with NULs. */
  function Stored56(name: seq<byte>): (r: seq<byte>)
    ensures |r| == NAME
  {
    var n := if |name| < NAME then |name| else NAME - 1;
    name[..n] + seq(NAME - n, _ => 0)
  }

  /** Names are cut to 55 bytes. */
  function StoredName(name: seq<byte>): seq<byte> { if |name| < NAME then name else name[..NAME - 1] }

  function NewEntry(e0: Entry, ino: u32, kind: byte, name: seq<byte>): (r: Entry) {
    var s := Stored56(name);
    LE32(ino) + [kind, |CString(s)|] + e0[6..8] + s
  }

  function ClearedEntry(e0: Entry): Entry { [0, 0, 0, 0] + e0[4..8] + [0] + e0[9..] }

  lemma {:induction false} CStringIs(s: seq<byte>, n: nat)
    requires n < |s| && s[n] == 0 && 0 !in s[..n]
    ensures CString(s) == s[..n]
  {
    if n > 0 {
      assert s[0] == s[..n][0] && s[1..][..n - 1] == s[..n][1..];
      CStringIs(s[1..], n - 1);
      assert s[..n] == [s[0]] + s[1..][..n - 1];
    }
  }

  /** A new entry holds its inode, and its name up to 55 bytes. */
  lemma NewEntryHolds(e0: Entry, ino: u32, kind: byte, name: seq<byte>)
    requires 0 !in name
    ensures EntryIno(NewEntry(e0, ino, kind, name)) == ino
    ensures EntryName(NewEntry(e0, ino, kind, name)) == StoredName(name)
    ensures EntryKind(NewEntry(e0, ino, kind, name)) == kind
    ensures EntryLen(NewEntry(e0, ino, kind, name)) == |StoredName(name)|
  {
    var e, s := NewEntry(e0, ino, kind, name), Stored56(name);
    var n := if |name| < NAME then |name| else NAME - 1;
    LE32RoundTrip(ino);
    assert e[8..] == s;
    assert s[..n] == name[..n];
    CStringIs(s, n);
  }

  lemma ClearedEntryHolds(e0: Entry)
    ensures EntryIno(ClearedEntry(e0)) == 0 && EntryName(ClearedEntry(e0)) == []
  {
  }

  /** What a scan of a directory looks for. */
  datatype Want = FreeSlot | AnyEntry | Named(name: seq<byte>)

  predicate Fits(e: Entry, want: Want) {
    match want
    case FreeSlot => EntryIno(e) == 0
    case AnyEntry => EntryIno(e) != 0
    case Named(name) => EntryIno(e) != 0 && EntryName(e) == name
  }

  function Slot(f: seq<byte>, i: nat): Entry
    requires ENTRY * i + ENTRY <= |f|
  {
    f[ENTRY * i..ENTRY * i + ENTRY]
  }

  lemma OtherSlot(block: seq<byte>, j: nat, e: Entry, i: nat)
    requires |block| == BLOCK && j < PER_BLOCK && i < PER_BLOCK && i != j
    ensures |block[..ENTRY * j] + e + block[ENTRY * j + ENTRY..]| == BLOCK
    ensures Slot(block[..ENTRY * j] + e + block[ENTRY * j + ENTRY..], i) == Slot(block, i)
  {
    if i < j { assert ENTRY * i + ENTRY <= ENTRY * j; } else { assert ENTRY * j + ENTRY <= ENTRY * i; }
  }

  /** The first slot from `i` on that fits, or `limit`. */
  ghost function FirstSlot(f: seq<byte>, want: Want, i: nat, limit: nat): (r: nat)
    requires i <= limit && ENTRY * limit <= |f|
    ensures i <= r <= limit && (r < limit ==> Fits(Slot(f, r), want))
    ensures forall k :: i <= k < r ==> !Fits(Slot(f, k), want)
    decreases limit - i
  {
    if i == limit || Fits(Slot(f, i), want) then i else FirstSlot(f, want, i + 1, limit)
  }

  lemma FirstSlotIs(f: seq<byte>, want: Want, r: nat, limit: nat)
    requires r <= limit && ENTRY * limit <= |f| && (r < limit ==> Fits(Slot(f, r), want))
    requires NoneBefore(f, want, r)
    ensures FirstSlot(f, want, 0, limit) == r
  {
  }

  ghost function SlotsIn(blocks: nat): nat { PER_BLOCK * blocks }

  lemma SlotsBelow(i: nat, m: nat, j: nat)
    requires i < m && j <= PER_BLOCK
    ensures SlotsIn(i) + j <= SlotsIn(m) && (j < PER_BLOCK ==> SlotsIn(i) + j < SlotsIn(m))
    ensures SlotsIn(i) + PER_BLOCK == SlotsIn(i + 1) && SlotsIn(0) == 0
  {
  }

  function DirBlocks(n: Inode): nat { (n.size + BLOCK - 1) / BLOCK }

  /** Number of slots a scan of the directory visits: those in the blocks its size accounts for. */
  ghost function Visible(n: Inode): nat {
    SlotsIn(BlocksSeen(n))
  }

  ghost function BlocksSeen(n: Inode): nat {
    if DirBlocks(n) < |Blocks(n.extents)| then DirBlocks(n) else |Blocks(n.extents)|
  }

  lemma VisibleFits(data: seq<seq<byte>>, n: Inode)
    requires Stored(data, Blocks(n.extents))
    ensures ENTRY * Visible(n) <= |Flat(data, Blocks(n.extents))|
  {
    assert ENTRY * PER_BLOCK == BLOCK;
  }

  /** Slot `i` of the directory is slot `i % 64` of its block `i / 64`. */
  lemma SlotInBlock(data: seq<seq<byte>>, bs: seq<nat>, b: nat, j: nat)
    requires Stored(data, bs) && b < |bs| && j < PER_BLOCK
    ensures ENTRY * (SlotsIn(b) + j) + ENTRY <= |Flat(data, bs)|
    ensures |data[bs[b]]| == BLOCK && Slot(Flat(data, bs), SlotsIn(b) + j) == Slot(data[bs[b]], j)
  {
    FlatSlice(data, bs, b, ENTRY * j, ENTRY);
    assert ENTRY * (SlotsIn(b) + j) == BLOCK * b + ENTRY * j;
  }

  ghost predicate NoneBefore(f: seq<byte>, want: Want, m: nat) {
    ENTRY * m <= |f| && forall k :: 0 <= k < m ==> !Fits(Slot(f, k), want)
  }

  lemma NoneYet(f: seq<byte>, want: Want)
    ensures NoneBefore(f, want, 0)
  {
  }

  /** Having looked through the first `j` slots of block `b`. */
  lemma BlockSlots(data: seq<seq<byte>>, bs: seq<nat>, b: nat, j: nat, want: Want)
    requires Stored(data, bs) && b < |bs| && j <= PER_BLOCK && |data[bs[b]]| == BLOCK
    requires NoneBefore(Flat(data, bs), want, SlotsIn(b))
    requires (j < PER_BLOCK ==> Fits(Slot(data[bs[b]], j), want)) && forall k :: 0 <= k < j ==>
      !Fits(Slot(data[bs[b]], k), want)
    ensures NoneBefore(Flat(data, bs), want, SlotsIn(b) + j)
    ensures j < PER_BLOCK ==>
      ENTRY * (SlotsIn(b) + j) + ENTRY <= |Flat(data, bs)| && Fits(Slot(Flat(data, bs), SlotsIn(b) + j), want)
  {
    var f := Flat(data, bs);
    if j < PER_BLOCK { SlotInBlock(data, bs, b, j); }
    hide Flat, Fits, Slot;
    forall k | SlotsIn(b) <= k < SlotsIn(b) + j ensures !Fits(Slot(f, k), want) {
      SlotInBlock(data, bs, b, k - SlotsIn(b));
    }
  }

  /** A name looked up in a directory: the inode of the first entry of that name. */
  ghost function Found(data: seq<seq<byte>>, n: Inode, want: Want): (r: nat)
    requires Stored(data, Blocks(n.extents))
    ensures r <= Visible(n)
  {
    FirstSlot(Flat(data, Blocks(n.extents)), want, 0, Visible(n))
  }

  /** Looks through one block. */
  method ScanBlock(block: seq<byte>, want: Want) returns (j: nat)
    requires |block| == BLOCK
    ensures j <= PER_BLOCK && (j < PER_BLOCK ==> Fits(Slot(block, j), want))
    ensures forall k :: 0 <= k < j ==> !Fits(Slot(block, k), want)
  {
    j := 0;
    while j < PER_BLOCK
      invariant j <= PER_BLOCK && forall k :: 0 <= k < j ==> !Fits(Slot(block, k), want)
    {
      if Fits(Slot(block, j), want) {
        return;
      }
      j := j + 1;
    }
  }
}
