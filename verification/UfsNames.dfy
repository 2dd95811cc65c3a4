/** What a name stands for after an entry was added to a directory or taken from it. */
module UfsNames {
  import opened Words
  import opened Wrappers
  import opened Extents
  import opened UfsBooks
  import opened UfsFiles
  import opened UfsDir
  import opened UfsSpec

  ghost function Entries(data: seq<seq<byte>>, es: seq<Extent>): (f: seq<byte>)
    requires Stored(data, Blocks(es))
    ensures |f| == ENTRY * SlotsIn(|Blocks(es)|)
  {
    Flat(data, Blocks(es))
  }

  /** No entry has the name, in sight or not. */
  ghost predicate NoEntry(data: seq<seq<byte>>, n: Inode, name: seq<byte>)
    requires Stored(data, Blocks(n.extents))
  {
    NoneBefore(Entries(data, n.extents), Named(name), SlotsIn(|Blocks(n.extents)|))
  }

  /** A scan goes through all blocks of the directory. */
  ghost predicate AllSeen(n: Inode) { BlocksSeen(n) == |Blocks(n.extents)| }

  // ---- adding ----

  /** Among `m` slots, now `m2`, slot `e` has got an entry: it was free, or it is the first of the new ones. */
  ghost predicate SlotPut(f: seq<byte>, f2: seq<byte>, m: nat, m2: nat, e: nat, ino: nat, name: seq<byte>) {
    && |f| == ENTRY * m && |f2| == ENTRY * m2 && m <= m2 && e < m2 && e <= m && (e < m ==> EntryIno(Slot(f, e)) == 0)
    && EntryIno(Slot(f2, e)) == ino && EntryName(Slot(f2, e)) == name
    && (forall x :: 0 <= x < m && x != e ==> Slot(f2, x) == Slot(f, x))
    && (forall x :: m <= x < m2 && x != e ==> EntryIno(Slot(f2, x)) == 0)
  }

  /** What the slots hold after an entry was added. */
  ghost predicate Grew(data: seq<seq<byte>>, n: Inode, data': seq<seq<byte>>, n': Inode, e: nat, ino: nat,
                       name: seq<byte>) {
    && Stored(data, Blocks(n.extents)) && Stored(data', Blocks(n'.extents))
    && SlotPut(Entries(data, n.extents), Entries(data', n'.extents), SlotsIn(|Blocks(n.extents)|),
               SlotsIn(|Blocks(n'.extents)|), e, ino, name)
    && n'.size == (n.size + ENTRY) % TWO_32
  }

  /** The slot of the directory that a new entry gets. */
  ghost function NewSlot(data: seq<seq<byte>>, n: Inode): nat {
    if HasFree(data, n) then Found(data, n, FreeSlot) else SlotsIn(|Blocks(n.extents)|)
  }

  /** It is one that scans go through. */
  ghost predicate InSight(data: seq<seq<byte>>, n: Inode) {
    HasFree(data, n) || n.size + ENTRY > BLOCK * |Blocks(n.extents)|
  }

  lemma SlotIs(data: seq<seq<byte>>, n: Inode, x: nat)
    requires Stored(data, Blocks(n.extents)) && x < SlotsIn(|Blocks(n.extents)|)
    ensures var bs := Blocks(n.extents);
      x / PER_BLOCK < |bs| && bs[x / PER_BLOCK] < |data| && |data[bs[x / PER_BLOCK]]| == BLOCK
      && Slot(Entries(data, n.extents), x) == Slot(data[bs[x / PER_BLOCK]], x % PER_BLOCK)
  {
    SlotInBlock(data, Blocks(n.extents), x / PER_BLOCK, x % PER_BLOCK);
  }

  /** A slot of a block changed: that slot of the directory changed. */
  lemma OneSlot(data: seq<seq<byte>>, n: Inode, data': seq<seq<byte>>, e: nat, b: nat, j: nat, x: nat)
    requires Stored(data, Blocks(n.extents)) && NoDup(Blocks(n.extents)) && At(n, e, b, j) && |data'| == |data|
    requires data' == data[b := data'[b]] && |data'[b]| == BLOCK
    requires forall i :: 0 <= i < PER_BLOCK && i != j ==> Slot(data'[b], i) == Slot(data[b], i)
    requires x < SlotsIn(|Blocks(n.extents)|)
    ensures Stored(data', Blocks(n.extents))
    ensures Slot(Entries(data', n.extents), x) == if x == e then Slot(data'[b], j)
      else Slot(Entries(data, n.extents), x)
  {
    hide Entries, Slot, Blocks;
    SlotIs(data, n, x);
    SlotIs(data', n, x);
    var bs := Blocks(n.extents);
    var i := x / PER_BLOCK;
    assert x == PER_BLOCK * i + x % PER_BLOCK && e == PER_BLOCK * (e / PER_BLOCK) + j;
    if i != e / PER_BLOCK { assert bs[i] != b; }
  }

  lemma PutInPlace(data: seq<seq<byte>>, n: Inode, data': seq<seq<byte>>, e: nat, b: nat, j: nat, ino: nat,
                   name: seq<byte>)
    requires Stored(data, Blocks(n.extents)) && NoDup(Blocks(n.extents)) && At(n, e, b, j) && |data'| == |data|
    requires data' == data[b := data'[b]] && |data'[b]| == BLOCK && b < |data| && |data[b]| == BLOCK
    requires forall i :: 0 <= i < PER_BLOCK && i != j ==> Slot(data'[b], i) == Slot(data[b], i)
    requires EntryIno(Slot(data[b], j)) == 0 && EntryIno(Slot(data'[b], j)) == ino
    requires EntryName(Slot(data'[b], j)) == name
    ensures Stored(data', Blocks(n.extents)) && e < SlotsIn(|Blocks(n.extents)|)
    ensures SlotPut(Entries(data, n.extents), Entries(data', n.extents), SlotsIn(|Blocks(n.extents)|),
                    SlotsIn(|Blocks(n.extents)|), e, ino, name)
  {
    hide Entries, Slot, Blocks, EntryIno, EntryName;
    assert e < SlotsIn(|Blocks(n.extents)|);
    forall x: nat | x < SlotsIn(|Blocks(n.extents)|)
      ensures Stored(data', Blocks(n.extents))
      ensures Slot(Entries(data', n.extents), x) == if x == e then Slot(data'[b], j)
        else Slot(Entries(data, n.extents), x)
    {
      OneSlot(data, n, data', e, b, j, x);
    }
    SlotIs(data, n, e);
  }

  lemma GrewInPlace(own: seq<int>, data: seq<seq<byte>>, view: seq<Inode>, own': seq<int>, data': seq<seq<byte>>,
                    view': seq<Inode>,
                    k: nat, b: nat, j: nat, ino: nat, name: seq<byte>)
    requires Owns(own, view) && k < INODES && Listed(own, data, view, own', data', view', k, b, j, ino, name)
    requires HasFree(data, view[k]) && view'[k].extents == view[k].extents
    requires At(view[k], Found(data, view[k], FreeSlot), b, j)
    ensures Grew(data, view[k], data', view'[k], NewSlot(data, view[k]), ino, StoredName(name))
  {
    hide Entries, Slot, Blocks, Found, EntryIno, EntryName, StoredName, SlotPut, At;
    OwnsOne(own, view, k);
    assert own[b] == k + 1 by { AtOwned(own, view, k, Found(data, view[k], FreeSlot), b, j); }
    PutInPlace(data, view[k], data', Found(data, view[k], FreeSlot), b, j, ino, StoredName(name));
  }

  lemma AtOwned(own: seq<int>, view: seq<Inode>, k: nat, e: nat, b: nat, j: nat)
    requires Owns(own, view) && k < INODES && At(view[k], e, b, j)
    ensures b < |own| && own[b] == k + 1
  {
    OwnsOne(own, view, k);
    assert b in Blocks(view[k].extents);
  }

  lemma PutAtEnd(data: seq<seq<byte>>, es: seq<Extent>, data': seq<seq<byte>>, es': seq<Extent>, b: nat, ino: nat,
                 name: seq<byte>)
    requires Stored(data, Blocks(es)) && Blocks(es') == Blocks(es) + [b] && b !in Blocks(es) && b < |data| == |data'|
    requires data' == data[b := data'[b]] && |data'[b]| == BLOCK
    requires forall i :: 0 <= i < PER_BLOCK && i != 0 ==> EntryIno(Slot(data'[b], i)) == 0
    requires EntryIno(Slot(data'[b], 0)) == ino && EntryName(Slot(data'[b], 0)) == name
    ensures Stored(data', Blocks(es'))
    ensures SlotPut(Entries(data, es), Entries(data', es'), SlotsIn(|Blocks(es)|), SlotsIn(|Blocks(es')|),
                    SlotsIn(|Blocks(es)|), ino, name)
  {
    hide Slot, Blocks, EntryIno, EntryName, Entries;
    EndStored(data, Blocks(es), data', b);
    forall x: nat | x < SlotsIn(|Blocks(es)|) ensures Slot(Entries(data', es'), x) == Slot(Entries(data, es), x) {
      EndOld(data, es, data', es', b, x);
    }
    forall x: nat | SlotsIn(|Blocks(es)|) <= x < SlotsIn(|Blocks(es')|)
      ensures Slot(Entries(data', es'), x) == Slot(data'[b], x - SlotsIn(|Blocks(es)|))
    {
      SlotInBlock(data', Blocks(es'), |Blocks(es)|, x - SlotsIn(|Blocks(es)|));
      assert Entries(data', es') == Flat(data', Blocks(es')) by { EntriesAre(data', es'); }
    }
  }

  lemma EntriesAre(data: seq<seq<byte>>, es: seq<Extent>)
    requires Stored(data, Blocks(es))
    ensures Entries(data, es) == Flat(data, Blocks(es))
  {
  }

  lemma EndStored(data: seq<seq<byte>>, bs: seq<nat>, data': seq<seq<byte>>, b: nat)
    requires Stored(data, bs) && b !in bs && b < |data| == |data'| && data' == data[b := data'[b]]
    requires |data'[b]| == BLOCK
    ensures Stored(data', bs + [b]) && forall i :: 0 <= i < |bs| ==> data'[bs[i]] == data[bs[i]]
  {
    forall i | 0 <= i < |bs| ensures data'[bs[i]] == data[bs[i]] { assert bs[i] in bs; }
  }

  lemma EndOld(data: seq<seq<byte>>, es: seq<Extent>, data': seq<seq<byte>>, es': seq<Extent>, b: nat, x: nat)
    requires Stored(data, Blocks(es)) && Blocks(es') == Blocks(es) + [b] && b !in Blocks(es) && b < |data| == |data'|
    requires data' == data[b := data'[b]] && |data'[b]| == BLOCK && x < SlotsIn(|Blocks(es)|)
    ensures Stored(data', Blocks(es')) && Slot(Entries(data', es'), x) == Slot(Entries(data, es), x)
  {
    hide Slot, Blocks;
    EndStored(data, Blocks(es), data', b);
    SlotInBlock(data, Blocks(es), x / PER_BLOCK, x % PER_BLOCK);
    SlotInBlock(data', Blocks(es'), x / PER_BLOCK, x % PER_BLOCK);
    hide Flat;
    assert Blocks(es')[x / PER_BLOCK] == Blocks(es)[x / PER_BLOCK];
  }

  lemma GrewAtEnd(own: seq<int>, data: seq<seq<byte>>, view: seq<Inode>, own': seq<int>, data': seq<seq<byte>>,
                  view': seq<Inode>,
                  k: nat, b: nat, ino: nat, name: seq<byte>)
    requires Owns(own, view) && k < INODES && |own| == |data| && Sized(data)
    requires Listed(own, data, view, own', data', view', k, b, 0, ino, name)
    requires !HasFree(data, view[k]) && Append(view[k].extents, b) == Some(view'[k].extents)
    requires !Steals(view[k].extents, b)
    requires own[b] == FREE
    ensures Grew(data, view[k], data', view'[k], NewSlot(data, view[k]), ino, StoredName(name))
    ensures |Blocks(view'[k].extents)| == |Blocks(view[k].extents)| + 1
  {
    hide Entries, Slot, Blocks, EntryIno, EntryName, StoredName, SlotPut, Append, Found, Visible, Steals;
    OwnsOne(own, view, k);
    OwnStored(own, view, data, k);
    AppendLast(view[k].extents, b);
    PutAtEnd(data, view[k].extents, data', view'[k].extents, b, ino, StoredName(name));
  }

  // ---- lookups after adding ----

  /** Where the first entry of a name is, when scans went through all slots or still end at the same one. */
  lemma FirstPut(f: seq<byte>, f2: seq<byte>, m: nat, m2: nat, e: nat, ino: nat, name: seq<byte>, q: seq<byte>, v: nat,
                 v2: nat)
    requires SlotPut(f, f2, m, m2, e, ino, name) && ino != 0 && v <= m && v2 <= m2 && (v2 == v || (v == m && v2 == m2))
    ensures var at := FirstSlot(f, Named(q), 0, v);
      FirstSlot(f2, Named(q), 0, v2) == if q == name && e < v2 && e <= at then e else if at < v then at else v2
  {
    hide Slot, EntryIno, EntryName;
    var at := FirstSlot(f, Named(q), 0, v);
    var r := if q == name && e < v2 && e <= at then e else if at < v then at else v2;
    FirstSlotIs(f2, Named(q), r, v2);
  }

  /** Where it is when no slot had the name. */
  lemma OnlyPut(f: seq<byte>, f2: seq<byte>, m: nat, m2: nat, e: nat, ino: nat, name: seq<byte>, q: seq<byte>, v2: nat)
    requires SlotPut(f, f2, m, m2, e, ino, name) && ino != 0 && v2 <= m2 && NoneBefore(f, Named(q), m)
    ensures FirstSlot(f2, Named(q), 0, v2) == if q == name && e < v2 then e else v2
  {
    hide Slot, EntryIno, EntryName;
    FirstSlotIs(f2, Named(q), if q == name && e < v2 then e else v2, v2);
  }

  lemma SightAfter(n: Inode, n': Inode)
    requires n'.size == n.size + ENTRY
    requires (|Blocks(n'.extents)| == |Blocks(n.extents)| || |Blocks(n'.extents)| == |Blocks(n.extents)| + 1)
    ensures |Blocks(n'.extents)| == |Blocks(n.extents)| ==>
      BlocksSeen(n) <= BlocksSeen(n') && (AllSeen(n) ==> BlocksSeen(n') == BlocksSeen(n))
    ensures |Blocks(n'.extents)| == |Blocks(n.extents)| + 1 ==>
      if n.size + ENTRY > BLOCK * |Blocks(n.extents)| then BlocksSeen(n') == |Blocks(n'.extents)|
      else BlocksSeen(n') <= |Blocks(n.extents)| && (AllSeen(n) ==> BlocksSeen(n') == BlocksSeen(n))
  {
    hide Blocks;
  }

  lemma LookupIs(data: seq<seq<byte>>, view: seq<Inode>, dir: nat, name: seq<byte>)
    requires |view| == INODES && 0 < dir <= INODES && Stored(data, Blocks(view[dir - 1].extents))
    ensures var n := view[dir - 1];
      && ENTRY * Visible(n) <= |Entries(data, n.extents)|
      && var e := FirstSlot(Entries(data, n.extents), Named(name), 0, Visible(n));
      && Found(data, n, Named(name)) == e
      && Lookup(data, view, dir, name) == if e == Visible(n) then None
        else Some(EntryIno(Slot(Entries(data, n.extents), e)))
  {
    VisibleFits(data, view[dir - 1]);
    hide Blocks, Flat, EntryIno, Slot;
  }

  /** An entry of directory `k + 1` was added in place, or in a new block that became its last. */
  ghost predicate AddedTo(own: seq<int>, data: seq<seq<byte>>, view: seq<Inode>, bits: seq<bool>, dataStart: nat,
                          own': seq<int>,
                          data': seq<seq<byte>>, view': seq<Inode>, k: nat, b: nat, j: nat, ino: nat, name: seq<byte>)
  {
    && Owns(own, view) && |own| == |data| && Sized(data) && Marks(own, bits, dataStart) && k < INODES && ino != 0
    && Listed(own, data, view, own', data', view', k, b, j, ino, name)
    && Spot(data, bits, dataStart, view[k], view'[k].extents, b, j)
    && (HasFree(data, view[k]) || !Steals(view[k].extents, b)) && view[k].size + ENTRY < TWO_32
  }

  lemma GrewOf(own: seq<int>, data: seq<seq<byte>>, view: seq<Inode>, bits: seq<bool>, dataStart: nat, own': seq<int>,
               data': seq<seq<byte>>, view': seq<Inode>, k: nat, b: nat, j: nat, ino: nat, name: seq<byte>)
    requires AddedTo(own, data, view, bits, dataStart, own', data', view', k, b, j, ino, name)
    ensures |view| == |view'| == INODES
    ensures Grew(data, view[k], data', view'[k], NewSlot(data, view[k]), ino, StoredName(name))
    ensures view'[k].size == view[k].size + ENTRY
    ensures |Blocks(view'[k].extents)| == |Blocks(view[k].extents)| + if HasFree(data, view[k]) then 0 else 1
  {
    hide Grew, HasFree, At, Append, Steals, Found, Entered, Blocks, LowestFree;
    if HasFree(data, view[k]) {
      GrewInPlace(own, data, view, own', data', view', k, b, j, ino, name);
    } else {
      assert own[b] == FREE;
      GrewAtEnd(own, data, view, own', data', view', k, b, ino, name);
    }
  }

  /** After an entry was added under a name the directory did not have, the name is found exactly when it
      has at most 55 bytes and the slot is in sight: it was a free one, or the size accounts for the new block. */
  lemma AddedFound(own: seq<int>, data: seq<seq<byte>>, view: seq<Inode>, bits: seq<bool>, dataStart: nat,
                   own': seq<int>,
                   data': seq<seq<byte>>, view': seq<Inode>, k: nat, b: nat, j: nat, ino: nat, name: seq<byte>)
    requires AddedTo(own, data, view, bits, dataStart, own', data', view', k, b, j, ino, name)
    requires Stored(data, Blocks(view[k].extents)) && NoEntry(data, view[k], name)
    ensures |view'| == INODES
    ensures Lookup(data', view', k + 1, name) == if |name| < NAME && InSight(data, view[k]) then Some(ino) else None
  {
    GrewOf(own, data, view, bits, dataStart, own', data', view', k, b, j, ino, name);
    hide AddedTo;
    FoundAfter(data, view, data', view', k, ino, name);
  }

  lemma FoundAfter(data: seq<seq<byte>>, view: seq<Inode>, data': seq<seq<byte>>, view': seq<Inode>, k: nat, ino: nat,
                   name: seq<byte>)
    requires |view| == |view'| == INODES && k < INODES && ino != 0
    requires Grew(data, view[k], data', view'[k], NewSlot(data, view[k]), ino, StoredName(name))
    requires view'[k].size == view[k].size + ENTRY && NoEntry(data, view[k], name)
    requires |Blocks(view'[k].extents)| == |Blocks(view[k].extents)| + if HasFree(data, view[k]) then 0 else 1
    ensures Lookup(data', view', k + 1, name) == if |name| < NAME && InSight(data, view[k]) then Some(ino) else None
  {
    hide Entries, Lookup, Slot, EntryIno, EntryName, Blocks, SlotPut, NoneBefore, Found;
    var n, n' := view[k], view'[k];
    SightAfter(n, n');
    LookupIs(data', view', k + 1, name);
    OnlyPut(Entries(data, n.extents), Entries(data', n'.extents), SlotsIn(|Blocks(n.extents)|),
            SlotsIn(|Blocks(n'.extents)|),
            NewSlot(data, n), ino, StoredName(name), name, Visible(n'));
    PutHolds(Entries(data, n.extents), Entries(data', n'.extents), SlotsIn(|Blocks(n.extents)|),
             SlotsIn(|Blocks(n'.extents)|),
             NewSlot(data, n), ino, StoredName(name));
  }

  lemma PutHolds(f: seq<byte>, f2: seq<byte>, m: nat, m2: nat, e: nat, ino: nat, name: seq<byte>)
    requires SlotPut(f, f2, m, m2, e, ino, name)
    ensures e < m2 && |f2| == ENTRY * m2 && EntryIno(Slot(f2, e)) == ino
  {
  }

  /** Where scans go through the whole directory, every other name stands for what it stood for. */
  lemma AddedOthers(own: seq<int>, data: seq<seq<byte>>, view: seq<Inode>, bits: seq<bool>, dataStart: nat,
                    own': seq<int>,
                    data': seq<seq<byte>>, view': seq<Inode>, k: nat, b: nat, j: nat, ino: nat, name: seq<byte>,
                    q: seq<byte>)
    requires AddedTo(own, data, view, bits, dataStart, own', data', view', k, b, j, ino, name) && AllSeen(view[k])
    requires q != StoredName(name)
    ensures |view| == |view'| == INODES && Lookup(data', view', k + 1, q) == Lookup(data, view, k + 1, q)
  {
    GrewOf(own, data, view, bits, dataStart, own', data', view', k, b, j, ino, name);
    hide AddedTo;
    OthersAfter(data, view, data', view', k, ino, StoredName(name), q);
  }

  lemma OthersAfter(data: seq<seq<byte>>, view: seq<Inode>, data': seq<seq<byte>>, view': seq<Inode>, k: nat, ino: nat,
                    name: seq<byte>, q: seq<byte>)
    requires |view| == |view'| == INODES && k < INODES && ino != 0
    requires Grew(data, view[k], data', view'[k], NewSlot(data, view[k]), ino, name)
    requires view'[k].size == view[k].size + ENTRY && AllSeen(view[k]) && q != name
    requires |Blocks(view'[k].extents)| == |Blocks(view[k].extents)| + if HasFree(data, view[k]) then 0 else 1
    ensures Lookup(data', view', k + 1, q) == Lookup(data, view, k + 1, q)
  {
    hide Entries, Lookup, Slot, EntryIno, EntryName, Blocks, SlotPut, Found, NewSlot, HasFree;
    var n, n', e := view[k], view'[k], NewSlot(data, view[k]);
    SightAfter(n, n');
    LookupIs(data, view, k + 1, q);
    LookupIs(data', view', k + 1, q);
    var f, f', m, m' := Entries(data, n.extents), Entries(data',
                                n'.extents), SlotsIn(|Blocks(n.extents)|), SlotsIn(|Blocks(n'.extents)|);
    FirstPut(f, f', m, m', e, ino, name, q, Visible(n), Visible(n'));
    var at := FirstSlot(f, Named(q), 0, Visible(n));
    if at < Visible(n) { PutSame(f, f', m, m', e, ino, name, at, q); }
  }

  lemma PutSame(f: seq<byte>, f2: seq<byte>, m: nat, m2: nat, e: nat, ino: nat, name: seq<byte>, at: nat, q: seq<byte>)
    requires SlotPut(f, f2, m, m2, e, ino, name) && at < m && Fits(Slot(f, at), Named(q))
    ensures Slot(f2, at) == Slot(f, at)
  {
    hide Slot, EntryIno, EntryName;
  }

  // ---- lookups after taking away ----

  /** Among `m` slots, slot `e` was cleared. */
  ghost predicate SlotCut(f: seq<byte>, f2: seq<byte>, m: nat, e: nat) {
    && |f| == |f2| == ENTRY * m && e < m && EntryIno(Slot(f2, e)) == 0
    && forall x :: 0 <= x < m && x != e ==> Slot(f2, x) == Slot(f, x)
  }

  lemma CutInPlace(data: seq<seq<byte>>, n: Inode, data': seq<seq<byte>>, e: nat, b: nat, j: nat)
    requires Stored(data, Blocks(n.extents)) && NoDup(Blocks(n.extents)) && At(n, e, b, j) && |data'| == |data|
    requires data' == data[b := data'[b]] && |data'[b]| == BLOCK && b < |data| && |data[b]| == BLOCK
    requires EntryIno(Slot(data'[b], j)) == 0
    requires forall i :: 0 <= i < PER_BLOCK && i != j ==> Slot(data'[b], i) == Slot(data[b], i)
    ensures Stored(data', Blocks(n.extents))
    ensures SlotCut(Entries(data, n.extents), Entries(data', n.extents), SlotsIn(|Blocks(n.extents)|), e)
  {
    hide Entries, Slot, Blocks, EntryIno, EntryName;
    assert e < SlotsIn(|Blocks(n.extents)|);
    forall x: nat | x < SlotsIn(|Blocks(n.extents)|)
      ensures Stored(data', Blocks(n.extents))
      ensures Slot(Entries(data', n.extents), x) == if x == e then Slot(data'[b], j)
        else Slot(Entries(data, n.extents), x)
    {
      OneSlot(data, n, data', e, b, j, x);
    }
  }

  /** The next entry of a name after slot `e`, or the end. */
  ghost function Next(f: seq<byte>, name: seq<byte>, e: nat, v: nat): (r: nat)
    requires e < v && ENTRY * v <= |f|
    ensures e < r <= v
  {
    FirstSlot(f, Named(name), e + 1, v)
  }

  lemma FirstCut(f: seq<byte>, f2: seq<byte>, m: nat, e: nat, name: seq<byte>, q: seq<byte>, v: nat, v2: nat)
    requires SlotCut(f, f2, m, e) && v2 <= v <= m && e < v && FirstSlot(f, Named(name), 0, v) == e
    ensures ENTRY * v2 <= |f2| && ENTRY * v <= |f|
    ensures Entry(f2, FirstSlot(f2, Named(q), 0, v2), v2) == Entry(f, if q == name then Next(f, name, e, v)
                                                                   else FirstSlot(f, Named(q), 0, v), v2)
  {
    hide Slot, EntryIno, EntryName;
    var at := if q == name then Next(f, name, e, v) else FirstSlot(f, Named(q), 0, v);
    FirstSlotIs(f2, Named(q), if at < v2 then at else v2, v2);
  }

  /** The inode of entry `at`, if it is below `v`. */
  ghost function Entry(f: seq<byte>, at: nat, v: nat): Option<nat>
    requires ENTRY * v <= |f|
  {
    if at < v then Some(EntryIno(Slot(f, at))) else None
  }

  /** The first entry of `q` in sight of a scan, once the first entry of `name` is gone. */
  ghost function Remaining(data: seq<seq<byte>>, n: Inode, name: seq<byte>, q: seq<byte>): nat
    requires Stored(data, Blocks(n.extents)) && Found(data, n, Named(name)) < Visible(n)
  {
    VisibleFits(data, n);
    if q == name then Next(Flat(data, Blocks(n.extents)), name, Found(data, n, Named(name)), Visible(n))
      else Found(data, n, Named(q))
  }

  /** After the first entry of a name was cleared, the name stands for its next entry; every other name
      stands for what it stood for. This holds as far as scans still go: one block less may be in sight. */
  lemma RemovedLookup(own: seq<int>, data: seq<seq<byte>>, view: seq<Inode>, data': seq<seq<byte>>, view': seq<Inode>,
                      k: nat, b: nat, j: nat, name: seq<byte>, q: seq<byte>)
    requires Unlisted(own, data, view, data', view', k, b, j, name) && NoDup(Blocks(view[k].extents))
    requires ENTRY <= view[k].size < TWO_32
    requires Stored(data, Blocks(view[k].extents)) && At(view[k], Found(data, view[k], Named(name)), b, j)
    requires Found(data, view[k], Named(name)) < Visible(view[k])
    ensures Visible(view'[k]) <= Visible(view[k]) && ENTRY * Visible(view'[k]) <= |Entries(data, view[k].extents)|
    ensures Lookup(data', view', k + 1, q) ==
      Entry(Entries(data, view[k].extents), Remaining(data, view[k], name, q), Visible(view'[k]))
  {
    hide Entries, Lookup, Slot, EntryIno, EntryName, Blocks, SlotCut, Found, At, Fits, FirstSlot, Struck, Flat,
      Visible, Next;
    var n, n', e := view[k], view'[k], Found(data, view[k], Named(name));
    assert Struck(own, data, data', k, b, j, name);
    StruckCut(own, data, n, data', k, e, b, j, name);
    SightLess(n, n');
    LookupIs(data, view, k + 1, name);
    LookupIs(data, view, k + 1, q);
    LookupIs(data', view', k + 1, q);
    EntriesAre(data, n.extents);
    FirstCut(Entries(data, n.extents), Entries(data', n.extents), SlotsIn(|Blocks(n.extents)|), e, name, q, Visible(n),
             Visible(n'));
  }

  lemma StruckCut(own: seq<int>, data: seq<seq<byte>>, n: Inode, data': seq<seq<byte>>, k: nat, e: nat, b: nat, j: nat,
                  name: seq<byte>)
    requires Stored(data, Blocks(n.extents)) && NoDup(Blocks(n.extents)) && At(n, e, b, j)
    requires Struck(own, data, data', k, b, j, name)
    ensures Stored(data', Blocks(n.extents))
    ensures SlotCut(Entries(data, n.extents), Entries(data', n.extents), SlotsIn(|Blocks(n.extents)|), e)
  {
    hide Entries, Slot, EntryIno, EntryName, Blocks, SlotCut, At;
    CutInPlace(data, n, data', e, b, j);
  }

  lemma SightLess(n: Inode, n': Inode)
    requires n'.size <= n.size && n'.extents == n.extents
    ensures Visible(n') <= Visible(n) <= SlotsIn(|Blocks(n.extents)|)
  {
    hide Blocks;
  }
}
