/** Bit strings as naturals: shift, low bits, packing two fields into one word, and exclusive or,
    all one bit at a time so that nothing here multiplies two variables. */
module Bits {

  function Pow2(k: nat): (r: nat)
    ensures r >= 1
  {
    if k == 0 then 1 else 2 * Pow2(k - 1)
  }

  /** x >> k */
  function Shr(x: nat, k: nat): nat
    decreases k
  {
    if k == 0 then x else Shr(x / 2, k - 1)
  }

  /** x & (2^k - 1) */
  function Low(x: nat, k: nat): nat
    decreases k
  {
    if k == 0 then 0 else 2 * Low(x / 2, k - 1) + x % 2
  }

  /** The word whose bits below k are those of l and whose bits from k up are h. */
  function Pack(k: nat, h: nat, l: nat): nat
  {
    if k == 0 then h else 2 * Pack(k - 1, h, l / 2) + l % 2
  }

  function Xor(a: nat, b: nat): nat
    decreases a + b
  {
    if a == 0 && b == 0 then 0
    else 2 * Xor(a / 2, b / 2) + (if a % 2 == b % 2 then 0 else 1)
  }

  lemma XorStep(a: nat, b: nat)
    ensures Xor(a, b) == 2 * Xor(a / 2, b / 2) + (if a % 2 == b % 2 then 0 else 1)
  {
  }

  lemma {:induction false} Unpack(k: nat, h: nat, l: nat)
    ensures Shr(Pack(k, h, l), k) == h
    ensures Low(Pack(k, h, l), k) == Low(l, k)
  {
    if k > 0 { Unpack(k - 1, h, l / 2); }
  }

  lemma {:induction false} Repack(k: nat, x: nat)
    ensures Pack(k, Shr(x, k), x) == x
  {
    if k > 0 { Repack(k - 1, x / 2); }
  }

  lemma {:induction false} LowSmall(x: nat, k: nat)
    requires x < Pow2(k)
    ensures Low(x, k) == x && Pack(k, 0, x) == x
    decreases k
  {
    if k > 0 { LowSmall(x / 2, k - 1); }
  }

  lemma {:induction false} Pow2Monotone(a: nat, b: nat)
    requires a <= b
    ensures Pow2(a) <= Pow2(b)
  {
    if a < b { Pow2Monotone(a, b - 1); }
  }

  /** Cutting a packed word above its low field cuts its high field. */
  lemma {:induction false} LowPack(k: nat, h: nat, l: nat, r: nat)
    requires k <= r
    ensures Low(Pack(k, h, l), r) == Pack(k, Low(h, r - k), l)
  {
    if k > 0 { LowPack(k - 1, h, l / 2, r - 1); }
  }

  lemma {:induction false} LowAllOnes(x: nat, m: nat, r: nat)
    requires x + 1 == Pow2(m) && r <= m
    ensures Low(x, r) + 1 == Pow2(r)
    decreases r
  {
    if r > 0 { LowAllOnes(x / 2, m - 1, r - 1); }
  }

  lemma {:induction false} XorZero(a: nat)
    ensures Xor(a, 0) == a && Xor(0, a) == a
  {
    if a > 0 { XorZero(a / 2); }
  }

  lemma {:induction false} XorIsZero(a: nat, b: nat)
    ensures Xor(a, b) == 0 <==> a == b
    decreases a + b
  {
    if a + b > 0 { XorIsZero(a / 2, b / 2); }
  }

  /** Exclusive or with the same word twice changes nothing. */
  lemma {:induction false} XorCancels(a: nat, b: nat)
    ensures Xor(a, Xor(b, a)) == b
    decreases a + b
  {
    if a + b > 0 {
      XorCancels(a / 2, b / 2);
      XorStep(a, Xor(b, a));
    }
  }

  lemma PackHalves(k: nat, h: nat, l: nat)
    requires k > 0
    ensures Pack(k, h, l) / 2 == Pack(k - 1, h, l / 2) && Pack(k, h, l) % 2 == l % 2
  {
  }

  /** Exclusive or acts on a high and a low field separately. */
  lemma {:induction false} XorPack(k: nat, h1: nat, l1: nat, h2: nat, l2: nat)
    ensures Xor(Pack(k, h1, l1), Pack(k, h2, l2)) == Pack(k, Xor(h1, h2), Xor(l1, l2))
  {
    if k > 0 {
      XorPack(k - 1, h1, l1 / 2, h2, l2 / 2);
      PackHalves(k, h1, l1);
      PackHalves(k, h2, l2);
      XorStep(Pack(k, h1, l1), Pack(k, h2, l2));
      XorStep(l1, l2);
      PackHalves(k, Xor(h1, h2), Xor(l1, l2));
    }
  }
}
