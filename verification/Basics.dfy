/** Small notions that several modules share. */
module Basics {

  datatype Option<T> = None | Some(value: T)

  function MinNat(a: nat, b: nat): nat {
    if a <= b then a else b
  }

  function MaxNat(a: nat, b: nat): nat {
    if a < b then b else a
  }

  /** `saturating_sub` */
  function SubSat(a: nat, b: nat): nat {
    if a < b then 0 else a - b
  }

  lemma MulMono(a: nat, b: nat, d: nat)
    requires a <= b
    ensures a * d <= b * d
  {
  }

  lemma {:induction false} MultipleMod(a: nat, q: nat)
    requires a > 0
    ensures (a * q) % a == 0
  {
    if q > 0 {
      MultipleMod(a, q - 1);
      assert a * q == a * (q - 1) + a;
      AddMod(a * (q - 1), a);
    }
  }

  lemma AddMod(x: nat, a: nat)
    requires a > 0
    ensures (x + a) % a == x % a
  {
    var q, r, q', r' := x / a, x % a, (x + a) / a, (x + a) % a;
    assert (q' - q - 1) * a == r - r';
    Zero(q' - q - 1, a);
  }

  lemma BetweenMultiples(x: nat, t: nat, a: nat)
    requires 0 < t < a && x % a == 0
    ensures (x + t) % a != 0
  {
    if (x + t) % a == 0 {
      var q, q' := x / a, (x + t) / a;
      assert (q' - q) * a == t;
      Zero(q' - q, a);
    }
  }

  lemma Zero(d: int, a: nat)
    requires d * a < a && d * a + a > 0
    ensures d == 0
  {
  }
}
