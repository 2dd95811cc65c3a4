/** The entries of a UFS volume: each one but the dots names an inode in use, and no two name the same. */
module UfsTree {
  import opened Words
  import opened Wrappers
  import opened Extents
  import opened UfsBooks
  import opened UfsFiles
  import opened UfsDir
  import opened UfsSpec

  /** Slot `j` of block `b` is an entry of a directory, other than "." and "..". */
  ghost predicate Names(own: seq<int>, data: seq<seq<byte>>, view: seq<Inode>, b: nat, j: nat) {
    && b < |own| == |data| && |data[b]| == BLOCK && j < PER_BLOCK && 0 < own[b] <= |view|
    && IsDir(view[own[b] - 1].mode)
    && EntryIno(Slot(data[b], j)) != 0 && EntryName(Slot(data[b], j)) != DOT && EntryName(Slot(data[b], j)) != DOTS
  }

  /** The inode it names. */
  ghost function Target(data: seq<seq<byte>>, b: nat, j: nat): nat
    requires b < |data| && |data[b]| == BLOCK && j < PER_BLOCK
  {
    EntryIno(Slot(data[b], j))
  }

  ghost predicate Unnamed(own: seq<int>, data: seq<seq<byte>>, view: seq<Inode>, ino: nat) {
    forall b: nat, j: nat :: Names(own, data, view, b, j) ==> Target(data, b, j) != ino
  }

  /** Every entry names an inode in use, neither the root nor its own directory. */
  ghost predicate AllNamed(own: seq<int>, data: seq<seq<byte>>, view: seq<Inode>) {
    forall b: nat, j: nat :: Names(own, data, view, b, j) ==>
      var t := Target(data, b, j); 1 < t <= |view| && view[t - 1].mode != 0 && t != own[b]
  }

  ghost predicate NamedOnce(own: seq<int>, data: seq<seq<byte>>, view: seq<Inode>) {
    forall b: nat, j: nat, c: nat, i: nat ::
      Names(own, data, view, b, j) && Names(own, data, view, c, i) && Target(data, b, j) == Target(data, c, i) ==> b == c && j == i
  }

  ghost predicate Tree(own: seq<int>, data: seq<seq<byte>>, view: seq<Inode>) {
    && |view| == INODES && view[0].mode != 0 && IsDir(view[0].mode) && |own| == |data|
    && AllNamed(own, data, view) && NamedOnce(own, data, view)
  }

  /** All entries of the new state are entries of the old one, and the inodes they name are still in use. */
  lemma FewerNames(own: seq<int>, data: seq<seq<byte>>, view: seq<Inode>, own': seq<int>, data': seq<seq<byte>>,
                   view': seq<Inode>)
    requires Tree(own, data, view) && |view'| == INODES && view'[0].mode != 0 && IsDir(view'[0].mode)
    requires |own'| == |data'|
    requires forall b: nat, j: nat :: Names(own', data', view', b, j) ==>
      Names(own, data, view, b, j) && own'[b] == own[b] && Target(data', b, j) == Target(data, b, j)
      && view'[Target(data', b, j) - 1].mode != 0
    ensures Tree(own', data', view')
  {
    hide Names, Target;
  }

  /** A new volume has no entries but the dots. */
  lemma NewTree(own: seq<int>, data: seq<seq<byte>>, view: seq<Inode>, bits: seq<bool>, dataStart: nat)
    requires Formatted(own, data, view, bits, dataStart)
    ensures Tree(own, data, view) && AllCovered(view)
  {
    hide EntryIno, EntryName, Slot, OneBlock, DirInode;
    forall b: nat, j: nat ensures !Names(own, data, view, b, j) { }
  }

  /** An inode that is not in use is named by no entry, and may come into use. */
  lemma TreeBirth(own: seq<int>, data: seq<seq<byte>>, view: seq<Inode>, i: nat, n: Inode)
    requires Tree(own, data, view) && i < INODES && view[i].mode == 0 && n.mode != 0
    requires forall b :: 0 <= b < |own| ==> own[b] != i + 1
    ensures Tree(own, data, view[i := n]) && Unnamed(own, data, view[i := n], i + 1) && i != 0
  {
    var w := view[i := n];
    forall b: nat, j: nat | Names(own, data, w, b, j) ensures Names(own, data, view, b,
                                                                    j) && Target(data, b, j) != i + 1 { }
    FewerNames(own, data, view, own, data, w);
  }

  /** A directory was made: it only has its dots. */
  lemma TreeMade(own: seq<int>, data: seq<seq<byte>>, view: seq<Inode>, own': seq<int>, data': seq<seq<byte>>,
                 view': seq<Inode>,
                 ino: nat, dir: nat, mode: nat, b: nat)
    requires Tree(own, data, view) && DirMade(own, data, view, own', data', view', ino, dir, mode, b)
    requires forall x :: 0 <= x < |own| ==> own[x] != ino
    ensures Tree(own', data', view') && Unnamed(own', data', view', ino) && ino != 1
  {
    hide EntryIno, EntryName, Slot, OneBlock, DirInode;
    forall c: nat, j: nat | Names(own', data', view', c, j)
      ensures Names(own, data, view, c, j) && own'[c] == own[c] && Target(data', c, j) == Target(data, c, j)
      ensures Target(data', c, j) != ino
    {
      if c != b { assert data'[c] == data[c] && own'[c] == own[c]; }
    }
    FewerNames(own, data, view, own', data', view');
  }

  /** An entry was added for an inode that had none. */
  lemma TreeListed(own: seq<int>, data: seq<seq<byte>>, view: seq<Inode>, own': seq<int>, data': seq<seq<byte>>,
                   view': seq<Inode>,
                   k: int, b: nat, j: nat, ino: nat, name: seq<byte>)
    requires Tree(own, data, view) && Listed(own, data, view, own', data', view', k, b, j, ino, name)
    requires Unnamed(own, data, view, ino)
    requires 1 < ino <= INODES && view[ino - 1].mode != 0 && ino != k + 1
    ensures Tree(own', data', view')
  {
    hide EntryIno, EntryName, Slot, StoredName;
    forall c: nat, i: nat | Names(own', data', view', c, i) && (c != b || i != j)
      ensures Names(own, data, view, c, i) && own'[c] == own[c] && Target(data', c, i) == Target(data, c, i)
    {
      if c != b { assert data'[c] == data[c] && own'[c] == own[c]; }
    }
    hide Names;
  }

  /** Only blocks without an owner changed, and only inodes that were not in use. */
  lemma TreeSpared(own: seq<int>, data: seq<seq<byte>>, view: seq<Inode>, data': seq<seq<byte>>, view': seq<Inode>)
    requires Tree(own, data, view) && Spared(own, data, data', -1) && SameLive(view, view')
    ensures Tree(own, data', view')
  {
    hide EntryIno, EntryName, Slot;
    forall b: nat, j: nat | Names(own, data', view', b, j)
      ensures Names(own, data, view, b, j) && Target(data', b, j) == Target(data, b, j)
      ensures view'[Target(data', b, j) - 1].mode != 0
    {
      assert data'[b] == data[b];
    }
    FewerNames(own, data, view, own, data', view');
  }

  /** A file was written. */
  lemma TreeWrote(own: seq<int>, data: seq<seq<byte>>, view: seq<Inode>, own': seq<int>, data': seq<seq<byte>>,
                  view': seq<Inode>, k: nat)
    requires Tree(own, data, view) && k < INODES && !IsDir(view[k].mode) && Wrote(own, data, view, data', view', k)
    requires Grown(own, own', k)
    ensures Tree(own', data', view')
  {
    hide EntryIno, EntryName, Slot;
    forall b: nat, j: nat | Names(own', data', view', b, j)
      ensures Names(own, data, view, b, j) && own'[b] == own[b] && Target(data', b, j) == Target(data, b, j)
      ensures view'[Target(data', b, j) - 1].mode != 0
    {
      assert own'[b] == own[b] && data'[b] == data[b];
    }
    FewerNames(own, data, view, own', data', view');
  }

  /** A name was removed together with the inode it named. */
  lemma TreeUnlisted(own: seq<int>, data: seq<seq<byte>>, view: seq<Inode>, own': seq<int>, data': seq<seq<byte>>,
                     view': seq<Inode>,
                     k: nat, b: nat, j: nat, name: seq<byte>, t: nat)
    requires Tree(own, data, view) && 0 < t <= INODES && k < INODES && Freed(own, own', t - 1)
    requires Unlisted(own', data, view[t - 1 := NO_INODE], data', view', k, b, j, name)
    requires name != DOT && name != DOTS && IsDir(view[k].mode) && EntryIno(Slot(data[b], j)) == t && k + 1 != t
    ensures Tree(own', data', view') && t != 1
  {
    hide EntryIno, EntryName, Slot;
    assert own[b] == k + 1;
    assert Names(own, data, view, b, j) && Target(data, b, j) == t;
    forall c: nat, i: nat | Names(own', data', view', c, i)
      ensures Names(own, data, view, c, i) && own'[c] == own[c] && Target(data', c, i) == Target(data, c, i)
      ensures view'[Target(data', c, i) - 1].mode != 0
    {
      assert c != b || i != j;
      assert c != b ==> data'[c] == data[c];
      assert Names(own, data, view, c, i);
    }
    FewerNames(own, data, view, own', data', view');
  }
}
