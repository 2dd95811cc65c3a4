/** Facts about multiplication and remainders. */
module Arith {
  lemma MulMod(a: nat, q: nat)
    requires a > 0
    ensures (a * q) % a == 0
  {
    ModUnique(a * q, a, q, 0);
  }

  lemma ModUnique(x: nat, a: nat, q: nat, r: nat)
    requires a > 0 && x == a * q + r && r < a
    ensures x % a == r
  {
    var q', r' := x / a, x % a;
    assert x == a * q' + r' && 0 <= r' < a;
    if q' < q { assert a * (q - q') >= a by { MulGe(a, q - q'); } assert false; }
    if q < q' { assert a * (q' - q) >= a by { MulGe(a, q' - q); } assert false; }
  }

  lemma MulGe(a: nat, q: nat)
    requires q >= 1
    ensures a * q >= a
  {
  }
}
