/** `Packet_WORDALIGN` of Packet32.h, computed with masks on 32-bit words. */
module WordAlign {
  import opened Common

  /** Bitwise and. */
  function And(a: nat, b: nat): nat {
    if a == 0 then 0 else (a % 2) * (b % 2) + 2 * And(a / 2, b / 2)
  }

  /** Bitwise complement of a 32-bit word. */
  function Not(a: nat): nat
    requires a < UINT_RANGE
  {
    UINT_RANGE - 1 - a
  }

  function Align(x: nat): nat
    requires x < UINT_RANGE
  {
    And((x + 3) % UINT_RANGE, Not(3))
  }

  function Pow2(k: nat): (p: nat)
    ensures p > 0
  {
    if k == 0 then 1 else 2 * Pow2(k - 1)
  }

  lemma {:induction false} AndLowBits(a: nat, k: nat)
    requires a < Pow2(k)
    ensures And(a, Pow2(k) - 1) == a
  {
    if a > 0 {
      assert (Pow2(k) - 1) % 2 == 1 && (Pow2(k) - 1) / 2 == Pow2(k - 1) - 1;
      AndLowBits(a / 2, k - 1);
    }
  }

  lemma {:induction false} Pow2Of30()
    ensures Pow2(30) == 0x4000_0000
  {
    assert Pow2(10) == 1024;
    assert Pow2(20) == 1024 * 1024;
  }

  /** The mask clears the two low bits. */
  lemma {:induction false} ClearsLowBits(y: nat)
    requires y < UINT_RANGE
    ensures And(y, Not(3)) == y / 4 * 4
  {
    Pow2Of30();
    AndLowBits(y / 4, 30);
    assert And(y / 2, 0x7FFF_FFFE) == 2 * And(y / 4, 0x3FFF_FFFF);
    assert And(y, 0xFFFF_FFFC) == 2 * And(y / 2, 0x7FFF_FFFE);
  }

  predicate LeastMultipleAbove(r: nat, x: nat) {
    r % 4 == 0 && x <= r && forall m: nat | m % 4 == 0 && x <= m :: r <= m
  }

  /** Rounding up is right exactly when the addition inside the macro does not wrap. */
  lemma {:induction false} AlignExactly(x: nat)
    requires x < UINT_RANGE
    ensures LeastMultipleAbove(Align(x), x) <==> x <= UINT_RANGE - 4
    ensures x <= UINT_RANGE - 4 ==> Align(x) == (x + 3) / 4 * 4
  {
    ClearsLowBits((x + 3) % UINT_RANGE);
    if x <= UINT_RANGE - 4 {
      assert (x + 3) % UINT_RANGE == x + 3;
      LeastMultiple((x + 3) / 4 * 4, x);
    } else {
      assert (x + 3) % UINT_RANGE == x + 3 - UINT_RANGE < 3;
      assert Align(x) == 0;
    }
  }

  lemma {:induction false} LeastMultiple(r: nat, x: nat)
    requires r % 4 == 0 && x <= r < x + 4
    ensures LeastMultipleAbove(r, x)
  {
    forall m: nat | m % 4 == 0 && x <= m ensures r <= m {
      assert r == r / 4 * 4 && m == m / 4 * 4;
    }
  }

  lemma {:induction false} AlignIdempotentAndMonotone(x: nat, y: nat)
    requires x <= y <= UINT_RANGE - 4
    ensures Align(x) <= UINT_RANGE - 4 && Align(Align(x)) == Align(x)
    ensures Align(x) <= Align(y)
  {
    AlignExactly(x);
    AlignExactly(y);
    AlignExactly(Align(x));
  }

  /** From an aligned offset, alignment only concerns what is added. */
  lemma {:induction false} AlignFrom(off: nat, n: nat)
    requires off % 4 == 0 && off + n <= UINT_RANGE - 4
    ensures Align(off + n) == off + (n + 3) / 4 * 4
  {
    AlignExactly(off + n);
    RoundFrom(off / 4, n);
  }

  lemma {:induction false} RoundFrom(q: nat, n: nat)
    ensures (4 * q + n + 3) / 4 * 4 == 4 * q + (n + 3) / 4 * 4
  {
  }
}
