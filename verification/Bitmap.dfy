/** A bitmap stored in bytes, least significant bit first. */
module Bitmap {

  /** The byte `1 << k`. */
  function Mask(k: nat): bv8
    requires k < 8
  {
    if k == 0 then 0x01 else if k == 1 then 0x02 else if k == 2 then 0x04 else if k == 3 then 0x08
    else if k == 4 then 0x10 else if k == 5 then 0x20 else if k == 6 then 0x40 else 0x80
  }

  predicate Bit(b: bv8, k: nat)
    requires k < 8
  {
    b & Mask(k) != 0
  }

  function WithBit(b: bv8, k: nat, v: bool): bv8
    requires k < 8
  {
    if v then b | Mask(k) else b & !Mask(k)
  }

  lemma BitWithBit(b: bv8, k: nat, v: bool, j: nat)
    requires k < 8 && j < 8
    ensures Bit(WithBit(b, k, v), j) == if j == k then v else Bit(b, j)
  {
    var m, n := Mask(k), Mask(j);
    assert n != 0 && (k != j ==> m & n == 0);
    assert if v then (b | m) & n == (b & n) | (m & n) else (b & !m) & n == (b & n) & !m;
    if k != j { assert (b & n) & !m == b & n; }
  }

  /** Bits are numbered from the least significant one: in an empty byte bit `k` makes the value 2^k. */
  lemma OneBit(k: nat)
    requires k < 8
    ensures WithBit(0, k, true) == [0x01, 0x02, 0x04, 0x08, 0x10, 0x20, 0x40, 0x80][k]
  {
  }

  predicate Get(bits: seq<bv8>, i: nat)
    requires i / 8 < |bits|
  {
    Bit(bits[i / 8], i % 8)
  }

  function Set(bits: seq<bv8>, i: nat, v: bool): (r: seq<bv8>)
    requires i / 8 < |bits|
    ensures |r| == |bits|
  {
    bits[i / 8 := WithBit(bits[i / 8], i % 8, v)]
  }

  /** Writing one bit changes that bit and no other. */
  lemma GetSet(bits: seq<bv8>, i: nat, v: bool, j: nat)
    requires i / 8 < |bits| && j / 8 < |bits|
    ensures Get(Set(bits, i, v), j) == if j == i then v else Get(bits, j)
  {
    BitWithBit(bits[i / 8], i % 8, v, j % 8);
    hide Bit, WithBit;
    assert i == j <==> i / 8 == j / 8 && i % 8 == j % 8;
  }

  lemma {:induction false} GetZero(bits: seq<bv8>, i: nat)
    requires i / 8 < |bits| && forall k :: 0 <= k < |bits| ==> bits[k] == 0
    ensures !Get(bits, i)
  {
    assert forall k: nat :: k < 8 ==> !Bit(0, k);
  }
}
