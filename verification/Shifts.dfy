/** The C shift operators on unbounded naturals, one bit at a time, so that every
    fact below is linear arithmetic. */
module Shifts {

  /** x << k */
  function Shl(x: nat, k: nat): (r: nat)
    ensures r >= x
    decreases k
  {
    if k == 0 then x else Shl(2 * x, k - 1)
  }

  /** x >> k */
  function Shr(x: nat, k: nat): (r: nat)
    ensures r <= x
    decreases k
  {
    if k == 0 then x else Shr(x / 2, k - 1)
  }

  lemma {:induction false} ShrShl(x: nat, k: nat)
    ensures Shr(Shl(x, k), k) == x
    decreases k
  {
    if k > 0 {
      ShlTop(x, k);
      ShrShl(x, k - 1);
    }
  }

  /** The last bit shifted in is a zero at the bottom. */
  lemma {:induction false} ShlTop(x: nat, k: nat)
    requires k > 0
    ensures Shl(x, k) == 2 * Shl(x, k - 1)
    decreases k
  {
    if k > 1 { ShlTop(2 * x, k - 1); }
  }

  lemma {:induction false} ShrTop(x: nat, k: nat)
    requires k > 0
    ensures Shr(x, k) == Shr(x, k - 1) / 2
    decreases k
  {
    if k > 1 { ShrTop(x / 2, k - 1); }
  }

  lemma {:induction false} ShrShr(x: nat, j: nat, k: nat)
    ensures Shr(Shr(x, j), k) == Shr(x, j + k)
    decreases j
  {
    if j > 0 { ShrShr(x / 2, j - 1, k); }
  }

  /** Shl adds up: neighbouring blocks of order k are 1 << k apart. */
  lemma {:induction false} ShlAdd(x: nat, y: nat, k: nat)
    ensures Shl(x + y, k) == Shl(x, k) + Shl(y, k)
    decreases k
  {
    if k > 0 { ShlAdd(2 * x, 2 * y, k - 1); }
  }

  lemma {:induction false} ShlMono(x: nat, y: nat, k: nat)
    requires x < y
    ensures Shl(x, k) < Shl(y, k)
    decreases k
  {
    if k > 0 { ShlMono(2 * x, 2 * y, k - 1); }
  }

  lemma {:induction false} ShrMono(x: nat, y: nat, k: nat)
    requires x <= y
    ensures Shr(x, k) <= Shr(y, k)
    decreases k
  {
    if k > 0 { ShrMono(x / 2, y / 2, k - 1); }
  }

  /** x >> k is the only i with i << k <= x < (i + 1) << k. */
  lemma {:induction false} ShrBounds(x: nat, k: nat)
    ensures Shl(Shr(x, k), k) <= x < Shl(Shr(x, k) + 1, k)
    decreases k
  {
    if k > 0 {
      ShrBounds(x / 2, k - 1);
      ShlTop(Shr(x, k), k);
      ShlTop(Shr(x, k) + 1, k);
    }
  }

  lemma ShrUnique(x: nat, i: nat, k: nat)
    requires Shl(i, k) <= x < Shl(i + 1, k)
    ensures Shr(x, k) == i
  {
    ShrMono(Shl(i, k), x, k);
    ShrShl(i, k);
    ShrBounds(x, k);
    if Shr(x, k) > i {
      if Shr(x, k) > i + 1 { ShlMono(i + 1, Shr(x, k), k); }
    }
  }
}
