/** The books of a UFS volume: which block belongs to whom, the bitmap, the free counters and the
    search cursor, and what each step on them keeps. */
module UfsBooks {
  import opened Extents
  import opened Wrappers

  const INODES := 1024

  datatype Inode = Inode(mode: nat, nlink: nat, size: nat, extents: seq<Extent>)

  const NO_EXTENTS := [Extent(0, 0), Extent(0, 0), Extent(0, 0), Extent(0, 0),
                       Extent(0, 0), Extent(0, 0), Extent(0, 0), Extent(0, 0)]
  const NO_INODE := Inode(0, 0, 0, NO_EXTENTS)

  // Owner of a block: metadata, nobody, an operation in progress, or the inode of that number.
  const META := -2
  const FREE := -1
  const PENDING := 0

  // ---- counting ----

  /** Number of clear entries. */
  ghost function Clear(s: seq<bool>): nat {
    if s == [] then 0 else Clear(s[..|s| - 1]) + (if s[|s| - 1] then 0 else 1)
  }

  lemma {:induction false} ClearSet(s: seq<bool>, k: nat, v: bool)
    requires k < |s|
    ensures Clear(s[k := v]) == Clear(s) + (if s[k] then 1 else 0) - (if v then 1 else 0)
  {
    var t, n := s[k := v], |s| - 1;
    if k == n {
      assert t[..n] == s[..n];
    } else {
      assert t[..n] == s[..n][k := v];
      ClearSet(s[..n], k, v);
    }
  }

  lemma {:induction false} ClearBound(s: seq<bool>, k: nat)
    requires k < |s| && !s[k]
    ensures Clear(s) >= 1
  {
    if k < |s| - 1 { ClearBound(s[..|s| - 1], k); }
  }

  lemma {:induction false} ClearAll(s: seq<bool>)
    requires forall k :: 0 <= k < |s| ==> s[k]
    ensures Clear(s) == 0
  {
    if s != [] { ClearAll(s[..|s| - 1]); }
  }

  lemma {:induction false} ClearNone(s: seq<bool>, from: nat)
    requires from <= |s| && (forall k :: 0 <= k < from ==> s[k]) && forall k :: from <= k < |s| ==> !s[k]
    ensures Clear(s) == |s| - from
  {
    if |s| > from { ClearNone(s[..|s| - 1], from); } else { ClearAll(s); }
  }

  ghost function Live(view: seq<Inode>): (r: seq<bool>)
    ensures |r| == |view| && forall k :: 0 <= k < |view| ==> r[k] == (view[k].mode != 0)
  {
    seq(|view|, k requires 0 <= k < |view| => view[k].mode != 0)
  }

  // ---- the invariant ----

  /** Inode `k + 1` has well-formed extents that list exactly the blocks it owns. */
  ghost predicate OwnsAt(own: seq<int>, view: seq<Inode>, k: int)
    requires 0 <= k < |view|
  {
    var es := view[k].extents;
    && |es| == SLOTS && Shaped(es) && NoDup(Blocks(es))
    && forall b: nat :: b in Blocks(es) <==> b < |own| && own[b] == k + 1
  }

  ghost predicate Owns(own: seq<int>, view: seq<Inode>) {
    |view| == INODES && forall k :: 0 <= k < INODES ==> OwnsAt(own, view, k)
  }

  /** The bitmap marks exactly the blocks that have an owner; the metadata area comes first. */
  ghost predicate Marks(own: seq<int>, bits: seq<bool>, dataStart: nat) {
    && |own| == |bits| && 0 < dataStart <= |bits|
    && forall b :: 0 <= b < |own| ==>
        META <= own[b] <= INODES && (own[b] == META <==> b < dataStart) && (bits[b] <==> own[b] != FREE)
  }

  /** Every data block below the cursor is in use. */
  ghost predicate Behind(bits: seq<bool>, dataStart: nat, cursor: nat) {
    cursor <= |bits| && forall b :: dataStart <= b < cursor ==> bits[b]
  }

  datatype Books = Books(bits: seq<bool>, dataStart: nat, freeBlocks: int, freeInodes: int, cursor: nat)

  /** The books apart from the inode counter. */
  ghost predicate Laid(k: Books, own: seq<int>, view: seq<Inode>) {
    && Owns(own, view) && Marks(own, k.bits, k.dataStart) && Behind(k.bits, k.dataStart, k.cursor)
    && k.freeBlocks == Clear(k.bits)
  }

  ghost predicate Good(k: Books, own: seq<int>, view: seq<Inode>) {
    Laid(k, own, view) && k.freeInodes == Clear(Live(view))
  }

  /** Nothing is in progress. */
  ghost predicate Settled(own: seq<int>) { forall b :: 0 <= b < |own| ==> own[b] != PENDING }

  /** Inodes that are not in use have no blocks. */
  ghost predicate DeadEmpty(view: seq<Inode>) {
    forall k :: 0 <= k < |view| && view[k].mode == 0 ==> Blocks(view[k].extents) == []
  }

  ghost predicate LiveCovers(view: seq<Inode>, b: nat) {
    exists i :: 0 <= i < |view| && view[i].mode != 0 && b in Blocks(view[i].extents)
  }

  /** What a check of the volume looks for, without knowledge of owners: a data block is marked exactly when a
      live inode's extents cover it, no block is covered twice, and both counters are exact. */
  ghost predicate Clean(k: Books, view: seq<Inode>) {
    && |view| == INODES
    && (forall b :: k.dataStart <= b < |k.bits| ==> (k.bits[b] <==> LiveCovers(view, b)))
    && (forall i, j, b: nat ::
          0 <= i < INODES && 0 <= j < INODES && b in Blocks(view[i].extents) && b in Blocks(view[j].extents) ==> i == j)
    && (forall i :: 0 <= i < INODES ==> NoDup(Blocks(view[i].extents)))
    && (forall i, b: nat :: 0 <= i < INODES && b in Blocks(view[i].extents) ==> k.dataStart <= b < |k.bits|)
    && k.freeBlocks == Clear(k.bits) && k.freeInodes == Clear(Live(view))
  }

  /** A settled volume whose unused inodes have no blocks passes the check. */
  lemma Consistent(k: Books, own: seq<int>, view: seq<Inode>)
    requires Good(k, own, view) && Settled(own) && DeadEmpty(view)
    ensures Clean(k, view)
  {
    forall b | k.dataStart <= b < |k.bits| ensures k.bits[b] <==> LiveCovers(view, b) {
      if k.bits[b] {
        assert OwnsAt(own, view, own[b] - 1);
        assert b in Blocks(view[own[b] - 1].extents);
      }
      if i :| 0 <= i < INODES && view[i].mode != 0 && b in Blocks(view[i].extents) {
        assert OwnsAt(own, view, i);
      }
    }
    forall i, j, b: nat | 0 <= i < INODES && 0 <= j < INODES && b in Blocks(view[i].extents) && b in Blocks(view[j].extents)
      ensures i == j
    {
      assert OwnsAt(own, view, i) && OwnsAt(own, view, j);
    }
    forall i | 0 <= i < INODES ensures NoDup(Blocks(view[i].extents)) { assert OwnsAt(own, view, i); }
    forall i, b: nat | 0 <= i < INODES && b in Blocks(view[i].extents) ensures k.dataStart <= b < |k.bits| {
      assert OwnsAt(own, view, i);
    }
  }

  /** An unused inode with a block fails it: the block is marked, and no live inode covers it. */
  lemma DeadOwner(k: Books, own: seq<int>, view: seq<Inode>, i: nat, b: nat)
    requires Laid(k, own, view) && i < INODES && view[i].mode == 0 && b in Blocks(view[i].extents)
    ensures !Clean(k, view)
  {
    assert OwnsAt(own, view, i);
    forall j | 0 <= j < INODES && view[j].mode != 0
      ensures b !in Blocks(view[j].extents)
    {
      assert OwnsAt(own, view, j);
    }
  }

  /** So does a block that was appended to an inode which was not written back. */
  lemma Unwritten(k: Books, own: seq<int>, view: seq<Inode>, i: nat, n: Inode, b: nat)
    requires |view| == INODES && i < INODES && Laid(k, own, view[i := n]) && b in Blocks(n.extents)
    requires b !in Blocks(view[i].extents)
    ensures !Clean(k, view)
  {
    var w := view[i := n];
    assert OwnsAt(own, w, i);
    forall j | 0 <= j < INODES && j != i
      ensures b !in Blocks(view[j].extents)
    {
      assert OwnsAt(own, w, j) && w[j] == view[j];
    }
  }

  // ---- steps ----

  /** Giving a block that belongs to no inode another owner that is no inode. */
  lemma OwnsMove(own: seq<int>, view: seq<Inode>, b: nat, o: int)
    requires Owns(own, view) && b < |own| && own[b] <= 0 && o <= 0
    ensures Owns(own[b := o], view)
  {
    var r := own[b := o];
    forall k | 0 <= k < INODES ensures OwnsAt(r, view, k) { assert OwnsAt(own, view, k); }
  }

  lemma OwnsOne(own: seq<int>, view: seq<Inode>, k: int)
    requires Owns(own, view) && 0 <= k < INODES
    ensures |view| == INODES && |view[k].extents| == SLOTS && Shaped(view[k].extents) && NoDup(Blocks(view[k].extents))
    ensures forall b: nat :: b in Blocks(view[k].extents) <==> b < |own| && own[b] == k + 1
  {
    assert OwnsAt(own, view, k);
  }

  /** An inode changes but keeps its blocks. */
  lemma OwnsSame(own: seq<int>, view: seq<Inode>, k: int, n: Inode)
    requires Owns(own, view) && 0 <= k < INODES && n.extents == view[k].extents
    ensures Owns(own, view[k := n])
  {
    var w := view[k := n];
    forall i | 0 <= i < INODES ensures OwnsAt(own, w, i) { assert OwnsAt(own, view, i); }
  }

  /** A pending block joins an inode. */
  lemma OwnsAttach(own: seq<int>, view: seq<Inode>, k: int, n: Inode, b: nat)
    requires Owns(own, view) && 0 <= k < INODES && b < |own| && own[b] == PENDING
    requires Append(view[k].extents, b) == Some(n.extents)
    ensures Owns(own[b := k + 1], view[k := n])
  {
    var w, o := view[k := n], own[b := k + 1];
    OwnsOne(own, view, k);
    AppendHas(view[k].extents, b);
    AppendInserts(view[k].extents, b);
    forall i | 0 <= i < INODES ensures OwnsAt(o, w, i) {
      assert OwnsAt(own, view, i);
      assert i != k ==> w[i] == view[i];
    }
  }

  /** All blocks of inode `k + 1` handed over to the operation in progress. */
  ghost function Released(own: seq<int>, k: int): (r: seq<int>)
    ensures |r| == |own| && forall b :: 0 <= b < |own| ==> r[b] == if own[b] == k + 1 then PENDING else own[b]
  {
    seq(|own|, b requires 0 <= b < |own| => if own[b] == k + 1 then PENDING else own[b])
  }

  lemma OwnsDetach(own: seq<int>, view: seq<Inode>, k: int, n: Inode)
    requires Owns(own, view) && 0 <= k < INODES && n.extents == NO_EXTENTS
    ensures Owns(Released(own, k), view[k := n])
  {
    var w, o := view[k := n], Released(own, k);
    NoBlocks();
    hide Released;
    forall i | 0 <= i < INODES ensures OwnsAt(o, w, i) {
      assert OwnsAt(own, view, i);
    }
  }

  lemma NoBlocks()
    ensures |NO_EXTENTS| == SLOTS && Shaped(NO_EXTENTS) && Blocks(NO_EXTENTS) == []
  {
  }

  lemma LiveSet(view: seq<Inode>, k: nat, n: Inode)
    requires k < |view|
    ensures Clear(Live(view[k := n])) == Clear(Live(view)) + (if view[k].mode != 0 then 1
                                                              else 0) - (if n.mode != 0 then 1 else 0)
  {
    assert Live(view[k := n]) == Live(view)[k := n.mode != 0];
    ClearSet(Live(view), k, n.mode != 0);
  }

  /** Taking a free block. */
  lemma TakeGood(k: Books, own: seq<int>, view: seq<Inode>, b: nat)
    requires Good(k, own, view) && b < |own| && own[b] == FREE && forall x :: k.dataStart <= x < b ==> k.bits[x]
    ensures b < |k.bits| && !k.bits[b] && k.dataStart <= b && k.freeBlocks >= 1
    ensures Good(k.(bits := k.bits[b := true], freeBlocks := k.freeBlocks - 1, cursor := b + 1), own[b := PENDING],
                 view)
  {
    hide Owns, Clear;
    OwnsMove(own, view, b, PENDING);
    ClearSet(k.bits, b, true);
    ClearBound(k.bits, b);
  }

  /** The books after block `b` was released. */
  ghost function Given(k: Books, b: nat): Books
    requires b < |k.bits|
  {
    k.(bits := k.bits[b := false], freeBlocks := k.freeBlocks + 1, cursor := if b < k.cursor then b else k.cursor)
  }

  /** Releasing a block keeps the books exactly when the block was taken and belongs to no inode. */
  lemma GiveExact(k: Books, own: seq<int>, view: seq<Inode>, b: nat)
    requires Good(k, own, view) && b < |own|
    ensures Good(Given(k, b), own[b := FREE], view) <==> own[b] == PENDING
  {
    var own' := own[b := FREE];
    ClearSet(k.bits, b, false);
    assert own'[b] == FREE;
    if own[b] == PENDING {
      OwnsMove(own, view, b, FREE);
    } else if own[b] > 0 {
      assert OwnsAt(own, view, own[b] - 1) && !OwnsAt(own', view, own[b] - 1);
      assert !Owns(own', view);
    } else if own[b] == META {
      assert !Marks(own', Given(k, b).bits, k.dataStart);
    }
    hide Clear, OwnsAt, Live;
  }

  lemma AttachGood(k: Books, own: seq<int>, view: seq<Inode>, i: nat, n: Inode, b: nat)
    requires Good(k, own, view) && i < INODES && b < |own| && own[b] == PENDING && n.mode == view[i].mode
    requires Append(view[i].extents, b) == Some(n.extents)
    ensures Good(k, own[b := i + 1], view[i := n])
  {
    OwnsAttach(own, view, i, n, b);
    LiveSet(view, i, n);
    hide Owns, Clear, Live;
  }

  lemma DetachGood(k: Books, own: seq<int>, view: seq<Inode>, i: nat, n: Inode)
    requires Good(k, own, view) && i < INODES && n.extents == NO_EXTENTS && (n.mode == 0 <==> view[i].mode == 0)
    ensures Good(k, Released(own, i), view[i := n])
  {
    OwnsDetach(own, view, i, n);
    LiveSet(view, i, n);
    hide Owns, Clear, Live;
  }

  /** An inode changes its size. */
  lemma ChangeGood(k: Books, own: seq<int>, view: seq<Inode>, i: nat, n: Inode)
    requires Laid(k, own, view) && i < INODES && n.extents == view[i].extents && n.mode == view[i].mode
    ensures Laid(k, own, view[i := n]) && Live(view[i := n]) == Live(view)
    ensures Good(k, own, view) ==> Good(k, own, view[i := n])
  {
    OwnsSame(own, view, i, n);
    assert Live(view[i := n]) == Live(view);
    hide Owns, Clear, Live;
  }

  /** A free inode comes into use without blocks. */
  lemma BirthGood(k: Books, own: seq<int>, view: seq<Inode>, i: nat, n: Inode)
    requires Good(k, own, view) && i < INODES && view[i].mode == 0 && Blocks(view[i].extents) == []
    requires n.mode != 0 && n.extents == NO_EXTENTS
    ensures Good(k.(freeInodes := k.freeInodes - 1), own, view[i := n]) && k.freeInodes >= 1
  {
    NoBlocks();
    assert OwnsAt(own, view, i);
    var w := view[i := n];
    forall j | 0 <= j < INODES ensures OwnsAt(own, w, j) { assert OwnsAt(own, view, j); }
    LiveSet(view, i, n);
    ClearBound(Live(view), i);
    hide Clear, Live, OwnsAt;
  }

  /** Clearing an inode without blocks and counting it as freed keeps the books exactly when the
      inode was in use: freeing an inode twice leaves the counter one too high. */
  lemma FreeInodeExact(k: Books, own: seq<int>, view: seq<Inode>, i: nat)
    requires Good(k, own, view) && i < INODES && view[i].extents == NO_EXTENTS
    ensures Laid(k.(freeInodes := k.freeInodes + 1), own, view[i := NO_INODE])
    ensures Good(k.(freeInodes := k.freeInodes + 1), own, view[i := NO_INODE]) <==> view[i].mode != 0
    ensures view[i].mode == 0 ==> Live(view[i := NO_INODE]) == Live(view)
  {
    OwnsSame(own, view, i, NO_INODE);
    LiveSet(view, i, NO_INODE);
    hide Owns, Clear, Live;
  }
}
