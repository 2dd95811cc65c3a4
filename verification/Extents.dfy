/** The extent list of a UFS inode: up to eight runs of consecutive blocks, the unused ones
    last. */
module Extents {
  import opened Wrappers

  const SLOTS := 8

  datatype Extent = Extent(start: nat, len: nat)

  function Run(start: nat, len: nat): (r: seq<nat>)
    ensures |r| == len && forall k :: 0 <= k < len ==> r[k] == start + k
  {
    seq(len, k requires 0 <= k < len => start + k)
  }

  /** The blocks of a file, in file order. */
  function Blocks(es: seq<Extent>): seq<nat> {
    if es == [] || es[0].len == 0 then [] else Run(es[0].start, es[0].len) + Blocks(es[1..])
  }

  /** Unused slots come last. */
  ghost predicate Shaped(es: seq<Extent>) {
    forall i, j :: 0 <= i < j < |es| && es[i].len == 0 ==> es[j].len == 0
  }

  lemma ShapedTail(es: seq<Extent>)
    requires Shaped(es) && es != []
    ensures Shaped(es[1..])
    ensures es[0].len == 0 ==> Blocks(es[1..]) == []
  {
    var r := es[1..];
    assert r != [] ==> r[0] == es[1];
    forall i, j | 0 <= i < j < |r| && r[i].len == 0 ensures r[j].len == 0 {
      assert r[i] == es[i + 1] && r[j] == es[j + 1];
    }
  }

  ghost predicate NoDup(s: seq<nat>) { forall i, j :: 0 <= i < j < |s| ==> s[i] != s[j] }

  /** The first extent that ends right before `b` grows; else the first unused slot is taken. */
  function Append(es: seq<Extent>, b: nat): (r: Option<seq<Extent>>)
    ensures r.Some? ==> |r.value| == |es|
  {
    if es == [] then None
    else if es[0].len == 0 then Some([Extent(b, 1)] + es[1..])
    else if es[0].start + es[0].len == b then Some([Extent(es[0].start, es[0].len + 1)] + es[1..])
    else match Append(es[1..], b)
      case None => None
      case Some(t) => Some([es[0]] + t)
  }

  /** Where `Append` puts the new block in file order. */
  ghost function Place(es: seq<Extent>, b: nat): (p: nat)
    ensures p <= |Blocks(es)|
  {
    if es == [] || es[0].len == 0 then 0
    else if es[0].start + es[0].len == b then es[0].len
    else es[0].len + Place(es[1..], b)
  }

  /** Appending inserts the block at that place and changes nothing else. */
  lemma {:induction false} AppendInserts(es: seq<Extent>, b: nat)
    requires Shaped(es) && Append(es, b).Some?
    ensures var t := Append(es, b).value;
      && Shaped(t)
      && Blocks(t) == Blocks(es)[..Place(es, b)] + [b] + Blocks(es)[Place(es, b)..]
  {
    var t, bs := Append(es, b).value, Blocks(es);
    ShapedTail(es);
    if es[0].len == 0 {
      assert t[1..] == es[1..];
      assert Run(b, 1) == [b];
      TailBlocks(t);
    } else if es[0].start + es[0].len == b {
      var e := es[0];
      assert t[1..] == es[1..];
      assert Run(e.start, e.len + 1) == Run(e.start, e.len) + [b];
      assert bs[..e.len] == Run(e.start, e.len) && bs[e.len..] == Blocks(es[1..]);
      TailBlocks(t);
    } else {
      var u := Append(es[1..], b).value;
      AppendInserts(es[1..], b);
      assert t[1..] == u;
      var r, q, k := Blocks(es[1..]), Place(es[1..], b), es[0].len;
      assert bs[..k + q] == Run(es[0].start, k) + r[..q] && bs[k + q..] == r[q..];
      TailBlocks(t);
    }
  }

  lemma TailBlocks(t: seq<Extent>)
    requires t != [] && t[0].len > 0 && Shaped(t[1..])
    ensures Shaped(t) && Blocks(t) == Run(t[0].start, t[0].len) + Blocks(t[1..])
  {
    forall i, j | 0 <= i < j < |t| && t[i].len == 0 ensures t[j].len == 0 {
      assert t[i] == t[1..][i - 1] && t[j] == t[1..][j - 1];
    }
  }

  /** Some extent that is not the last used one ends right before `b`. */
  ghost predicate Steals(es: seq<Extent>, b: nat) {
    exists i :: 0 <= i && i + 1 < |es| && es[i].len > 0 && es[i + 1].len > 0 && es[i].start + es[i].len == b
  }

  /** The new block becomes the last one of the file exactly when no earlier extent takes it. */
  lemma {:induction false} AppendInOrder(es: seq<Extent>, b: nat)
    requires Shaped(es)
    ensures Place(es, b) == |Blocks(es)| <==> !Steals(es, b)
  {
    if es != [] && es[0].len > 0 {
      ShapedTail(es);
      AppendInOrder(es[1..], b);
      var r := es[1..];
      assert |Blocks(es)| == es[0].len + |Blocks(r)|;
      if es[0].start + es[0].len == b {
        if r != [] && r[0].len > 0 {
          assert Steals(es, b) by { assert es[1] == r[0] && es[0].len > 0 && es[0 + 1].len > 0; }
        }
      } else {
        if Steals(es, b) {
          var i :| 0 <= i && i + 1 < |es| && es[i].len > 0 && es[i + 1].len > 0 && es[i].start + es[i].len == b;
          assert r[i - 1] == es[i] && r[i - 1 + 1] == es[i + 1];
        }
        if Steals(r, b) {
          var i :| 0 <= i && i + 1 < |r| && r[i].len > 0 && r[i + 1].len > 0 && r[i].start + r[i].len == b;
          assert r[i] == es[i + 1] && r[i + 1] == es[i + 1 + 1];
        }
      }
    } else {
      assert forall i :: 0 <= i < |es| ==> es[i].len == 0;
    }
  }

  /** A file on blocks 4 and 8 that grows by block 5 is read back in the order 4, 5, 8. */
  lemma AppendOutOfOrder()
    ensures var es := [Extent(4, 1), Extent(8, 1)];
      Append(es, 5) == Some([Extent(4, 2), Extent(8, 1)]) && Blocks(es) == [4, 8]
      && Blocks([Extent(4, 2), Extent(8, 1)]) == [4, 5, 8]
  {
    var es, t := [Extent(4, 1), Extent(8, 1)], [Extent(4, 2), Extent(8, 1)];
    assert es[1..] == t[1..] == [Extent(8, 1)];
    assert [Extent(8, 1)][1..] == [];
    assert Append(es, 5) == Some([Extent(4, 2)] + es[1..]);
    assert [Extent(4, 2)] + es[1..] == t;
    assert Run(8, 1) == [8] && Run(4, 1) == [4] && Run(4, 2) == [4, 5];
  }

  /** What the file's blocks are after an append, as a set. */
  lemma AppendHas(es: seq<Extent>, b: nat)
    requires Shaped(es) && Append(es, b).Some?
    ensures var t := Append(es, b).value;
      && |Blocks(t)| == |Blocks(es)| + 1
      && (forall x :: x in Blocks(t) <==> x == b || x in Blocks(es))
      && (NoDup(Blocks(es)) && b !in Blocks(es) ==> NoDup(Blocks(t)))
  {
    AppendInserts(es, b);
    InsertHas(Blocks(es), Place(es, b), b);
    if NoDup(Blocks(es)) && b !in Blocks(es) { InsertNoDup(Blocks(es), Place(es, b), b); }
  }

  lemma InsertHas(s: seq<nat>, p: nat, b: nat)
    requires p <= |s|
    ensures forall x :: x in s[..p] + [b] + s[p..] <==> x == b || x in s
  {
    forall x | x in s ensures x in s[..p] || x in s[p..] {
      var k :| 0 <= k < |s| && s[k] == x;
      assert if k < p then s[..p][k] == x else s[p..][k - p] == x;
    }
  }

  lemma InsertNoDup(s: seq<nat>, p: nat, b: nat)
    requires p <= |s| && NoDup(s) && b !in s
    ensures NoDup(s[..p] + [b] + s[p..])
  {
    var t := s[..p] + [b] + s[p..];
    assert forall k :: 0 <= k < |t| ==> t[k] == if k < p then s[k] else if k == p then b else s[k - 1];
  }

  /** Number of blocks in the first `i` extents. */
  ghost function Before(es: seq<Extent>, i: nat): nat
    requires i <= |es|
  {
    if i == 0 then 0 else Before(es, i - 1) + es[i - 1].len
  }

  lemma {:induction false} BeforeTail(es: seq<Extent>, i: nat)
    requires 0 < i <= |es|
    ensures Before(es, i) == es[0].len + Before(es[1..], i - 1)
  {
    if i > 1 {
      BeforeTail(es, i - 1);
      assert es[1..][i - 2] == es[i - 1];
    }
  }

  /** Block `j` of extent `i` is block `Before(es, i) + j` of the file. */
  lemma {:induction false} BlockOf(es: seq<Extent>, i: nat, j: nat)
    requires Shaped(es) && i < |es| && j < es[i].len
    ensures Before(es, i) + j < |Blocks(es)| && Blocks(es)[Before(es, i) + j] == es[i].start + j
  {
    if i > 0 {
      assert es[0].len > 0;
      ShapedTail(es);
      BlockOf(es[1..], i - 1, j);
      BeforeTail(es, i);
    }
  }

  lemma {:induction false} BeforeAll(es: seq<Extent>)
    requires Shaped(es)
    ensures Before(es, |es|) == |Blocks(es)|
  {
    if es != [] {
      ShapedTail(es);
      BeforeAll(es[1..]);
      BeforeTail(es, |es|);
    }
  }

  lemma {:induction false} BeforeStops(es: seq<Extent>, i: nat)
    requires Shaped(es) && i <= |es| && (i < |es| ==> es[i].len == 0)
    ensures Before(es, i) == |Blocks(es)|
    decreases |es| - i
  {
    if i < |es| { BeforeStops(es, i + 1); } else { BeforeAll(es); }
  }

  /** Block `idx` of the file; 0 beyond its end. */
  method GetBlock(es: seq<Extent>, idx: nat) returns (b: nat)
    requires Shaped(es) && |es| == SLOTS
    ensures b == if idx < |Blocks(es)| then Blocks(es)[idx] else 0
  {
    hide Blocks;
    var i, left := 0, idx;
    while i < SLOTS
      invariant 0 <= i <= SLOTS && 0 <= left && idx == Before(es, i) + left
    {
      if es[i].len == 0 {
        break;
      }
      if left < es[i].len {
        BlockOf(es, i, left);
        return es[i].start + left;
      }
      left := left - es[i].len;
      i := i + 1;
    }
    BeforeStops(es, i);
    return 0;
  }

  function Join(p: seq<Extent>, r: Option<seq<Extent>>): Option<seq<Extent>> {
    match r case None => None case Some(t) => Some(p + t)
  }

  lemma JoinStep(es: seq<Extent>, i: nat, b: nat)
    requires i < |es| && es[i].len > 0 && es[i].start + es[i].len != b
    ensures Join(es[..i], Append(es[i..], b)) == Join(es[..i + 1], Append(es[i + 1..], b))
  {
    assert es[i..][1..] == es[i + 1..];
    match Append(es[i + 1..], b) {
      case None =>
      case Some(t) => assert es[..i] + ([es[i]] + t) == es[..i + 1] + t;
    }
  }

  lemma JoinHere(es: seq<Extent>, i: nat, b: nat, e: Extent)
    requires i < |es| && Append(es[i..], b) == Some([e] + es[i..][1..])
    ensures Join(es[..i], Append(es[i..], b)) == Some(es[i := e])
  {
    assert es[..i] + ([e] + es[i..][1..]) == es[i := e];
  }

  /** Takes one more block; fails when all slots are used and none ends right before it. */
  method AppendBlock(es: seq<Extent>, b: nat) returns (r: Option<seq<Extent>>)
    requires |es| == SLOTS
    ensures r == Append(es, b)
  {
    var i := 0;
    assert es[0..] == es;
    assert Join(es[..0], Append(es, b)) == Append(es, b) by {
      match Append(es, b) { case None => case Some(t) => assert es[..0] + t == t; }
    }
    while i < SLOTS
      invariant 0 <= i <= SLOTS && Append(es, b) == Join(es[..i], Append(es[i..], b))
    {
      if es[i].len == 0 {
        JoinHere(es, i, b, Extent(b, 1));
        return Some(es[i := Extent(b, 1)]);
      }
      if es[i].start + es[i].len == b {
        JoinHere(es, i, b, Extent(es[i].start, es[i].len + 1));
        return Some(es[i := Extent(es[i].start, es[i].len + 1)]);
      }
      JoinStep(es, i, b);
      i := i + 1;
    }
    return None;
  }
}
