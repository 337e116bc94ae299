// Powers of two and the two bitwise operators the buddy allocator applies to
// block offsets.  The operators are given bit by bit, as the machine computes
// them; the lemmas say what they do to an offset that is a multiple of 2^k:
// XOR with 2^k moves to its sibling inside the same multiple of 2^(k+1), clearing
// bit k gives the lower of the two, and XOR undoes itself.  They go by induction
// on k: an even number and its half have the same bits, one place apart, and an
// odd one differs from the even one below it in the last bit only.
module Bits {

  function Pow2(k: nat): (r: nat)
    ensures r > 0
  {
    if k == 0 then 1 else 2 * Pow2(k - 1)
  }

  lemma {:induction false} Pow2Monotone(j: nat, k: nat)
    requires j < k
    ensures Pow2(j) < Pow2(k)
    decreases k
  {
    if j < k - 1 {
      Pow2Monotone(j, k - 1);
    }
  }

  // Bitwise exclusive or.
  function Xor(a: nat, b: nat): nat
    decreases a + b
  {
    if a == 0 && b == 0 then 0 else (if a % 2 == b % 2 then 0 else 1) + 2 * Xor(a / 2, b / 2)
  }

  // Bitwise and of a with the complement of b.
  function AndNot(a: nat, b: nat): nat
  {
    if a == 0 then 0 else (if b % 2 == 1 then 0 else a % 2) + 2 * AndNot(a / 2, b / 2)
  }

  lemma LowBit(bit: nat, h: nat)
    requires bit <= 1
    ensures (bit + 2 * h) % 2 == bit && (bit + 2 * h) / 2 == h
  {
  }

  lemma XorBits(a: nat, b: nat)
    ensures Xor(a, b) == (if a % 2 == b % 2 then 0 else 1) + 2 * Xor(a / 2, b / 2)
  {
  }

  // The lowest bit of a xor, and what is left above it.
  lemma XorParts(a: nat, b: nat)
    ensures Xor(a, b) % 2 == (if a % 2 == b % 2 then 0 else 1)
    ensures Xor(a, b) / 2 == Xor(a / 2, b / 2)
  {
    XorBits(a, b);
    hide Xor;
    LowBit(if a % 2 == b % 2 then 0 else 1, Xor(a / 2, b / 2));
  }

  lemma {:induction false} XorSelfInverse(a: nat, b: nat)
    ensures Xor(Xor(a, b), b) == a
    decreases a + b
  {
    if a != 0 || b != 0 {
      XorSelfInverse(a / 2, b / 2);
      XorParts(a, b);
      XorParts(Xor(a, b), b);
    }
  }

  lemma {:induction false} XorZero(a: nat)
    ensures Xor(a, 0) == a
  {
    if a != 0 {
      XorZero(a / 2);
    }
  }

  lemma {:induction false} AndNotZero(a: nat)
    ensures AndNot(a, 0) == a
  {
    if a != 0 {
      AndNotZero(a / 2);
    }
  }

  lemma {:induction false} HalveMultiple(m: nat, k: nat)
    requires k > 0
    ensures (m * Pow2(k)) % 2 == 0 && (m * Pow2(k)) / 2 == m * Pow2(k - 1)
  {
    assert m * Pow2(k) == 2 * (m * Pow2(k - 1));
  }

  // One bit lower, everything is halved.
  lemma XorHalved(m: nat, n: nat, k: nat)
    requires k > 0 && Xor(m * Pow2(k - 1), Pow2(k - 1)) == n * Pow2(k - 1)
    ensures Xor(m * Pow2(k), Pow2(k)) == n * Pow2(k)
  {
    hide Pow2, Xor;
    HalveMultiple(m, k);
    HalveMultiple(n, k);
    HalveMultiple(1, k);
    XorParts(m * Pow2(k), Pow2(k));
  }

  lemma XorOne(m: nat)
    ensures Xor(m * Pow2(0), Pow2(0)) == (if m % 2 == 0 then m + 1 else m - 1) * Pow2(0)
  {
    assert Pow2(0) == 1;
    hide Pow2, Xor;
    XorZero(m / 2);
    XorParts(m, 1);
  }

  // Flipping bit k of a multiple of 2^k moves to the neighbouring multiple
  // inside the same multiple of 2^(k+1).
  lemma {:induction false} XorAligned(m: nat, k: nat)
    ensures Xor(m * Pow2(k), Pow2(k)) == (if m % 2 == 0 then m + 1 else m - 1) * Pow2(k)
    decreases k
  {
    hide Pow2, Xor;
    if k == 0 {
      XorOne(m);
    } else {
      XorAligned(m, k - 1);
      XorHalved(m, if m % 2 == 0 then m + 1 else m - 1, k);
    }
  }

  lemma AndNotParts(a: nat, b: nat)
    ensures AndNot(a, b) % 2 == (if b % 2 == 1 then 0 else a % 2)
    ensures AndNot(a, b) / 2 == AndNot(a / 2, b / 2)
  {
    var bit := if b % 2 == 1 then 0 else a % 2;
    assert AndNot(a, b) == bit + 2 * AndNot(a / 2, b / 2);
    hide AndNot;
    LowBit(bit, AndNot(a / 2, b / 2));
  }

  lemma AndNotHalved(m: nat, n: nat, k: nat)
    requires k > 0 && AndNot(m * Pow2(k - 1), Pow2(k - 1)) == n * Pow2(k - 1)
    ensures AndNot(m * Pow2(k), Pow2(k)) == n * Pow2(k)
  {
    hide Pow2, AndNot;
    HalveMultiple(m, k);
    HalveMultiple(n, k);
    HalveMultiple(1, k);
    AndNotParts(m * Pow2(k), Pow2(k));
  }

  lemma AndNotOne(m: nat)
    ensures AndNot(m * Pow2(0), Pow2(0)) == (m - m % 2) * Pow2(0)
  {
    assert Pow2(0) == 1;
    hide Pow2, AndNot;
    AndNotZero(m / 2);
    AndNotParts(m, 1);
  }

  // Clearing bit k of a multiple of 2^k rounds it down to a multiple of 2^(k+1).
  lemma {:induction false} AndNotAligned(m: nat, k: nat)
    ensures AndNot(m * Pow2(k), Pow2(k)) == (m - m % 2) * Pow2(k)
    decreases k
  {
    hide Pow2, AndNot;
    if k == 0 {
      AndNotOne(m);
    } else {
      AndNotAligned(m, k - 1);
      AndNotHalved(m, m - m % 2, k);
    }
  }
}
