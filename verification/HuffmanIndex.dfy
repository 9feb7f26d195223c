/** The two hash functions of scripts/LECHash.c and scripts/LOMHash.c, as instances of the two-level scheme. */
module HuffmanIndex {
  import opened Bits
  import opened Common
  import opened TwoLevelHash

  function SlotAt(tab: seq<nat>, i: nat): Option<nat> { if i < |tab| then Some(tab[i]) else None }

  function LecHash(key: nat): nat { Xor(Xor(Xor(Low(key, 9), Shr(key, 9)), Shr(key, 4)), Shr(key, 7)) }

  /** The complement is taken in 16 bits. */
  function LecMiniHash(key: nat): nat
  {
    var h: int := Low(Shr(Xor(Shr(key, 8), Low(key, 8)), 2), 4);
    (if Shr(key, 9) != 0 && h <= 0xffff then 0xffff - h else h) % 12
  }

  function LecSlot(key: nat): Option<nat> { SlotAt([511, 0, 508, 448, 494, 347, 486, 482], LecMiniHash(key)) }

  const Lec := Scheme(9, 16, LecHash, LecSlot)

  function LomHash(key: nat): nat { Xor(Xor(Low(key, 5), Shr(key, 5)), Shr(key, 9)) }

  function LomMiniHash(key: nat): nat
  {
    var h := Low(Shr(key, 4), 4);
    Low(Xor(Xor(h, Shr(h, 2)), Shr(h, 3)), 2)
  }

  function LomSlot(key: nat): Option<nat> { SlotAt([0, 4, 10, 19], LomMiniHash(key)) }

  const Lom := Scheme(5, 8, LomHash, LomSlot)

  // --- Shifts ---

  lemma {:induction false} ShrShr(x: nat, a: nat, b: nat)
    ensures Shr(Shr(x, a), b) == Shr(x, a + b)
    decreases a
  {
    if a > 0 { ShrShr(x / 2, a - 1, b); }
  }

  lemma {:induction false} ShrXor(a: nat, b: nat, k: nat)
    ensures Shr(Xor(a, b), k) == Xor(Shr(a, k), Shr(b, k))
    decreases k
  {
    if k > 0 {
      XorStep(a, b);
      ShrXor(a / 2, b / 2, k - 1);
    }
  }

  lemma {:induction false} ShrLarge(x: nat, k: nat)
    requires Shr(x, k) > 0
    ensures x >= Pow2(k)
    decreases k
  {
    if k > 0 { ShrLarge(x / 2, k - 1); }
  }

  lemma {:induction false} ShrLow(x: nat, k: nat)
    ensures Shr(Low(x, k), k) == 0
    decreases k
  {
    if k > 0 { ShrLow(x / 2, k - 1); }
  }

  // --- With these hashes no code masquerades ---

  /** A code with all seven high bits set has no bucket in the table. */
  lemma LecHighBits(key: nat)
    requires Shr(key, 9) == 127
    ensures LecHash(key) >= 512
  {
    var low, mid, top := Xor(Low(key, 9), Shr(key, 9)), Shr(key, 4), Shr(key, 7);
    ShrLow(key, 9);
    ShrXor(Low(key, 9), Shr(key, 9), 9);
    ShrXor(low, mid, 9);
    ShrXor(Xor(low, mid), top, 9);
    ShrShr(key, 4, 9);
    ShrShr(key, 7, 9);
    ShrShr(key, 9, 4);
    ShrShr(key, 9, 7);
    assert Shr(127, 4) == 7 && Shr(127, 7) == 0 && Shr(127, 9) == 0;
    assert Xor(Xor(Xor(0, 0), 7), 0) == 7;
    ShrLarge(LecHash(key), 9);
    assert Pow2(9) == 512;
  }

  lemma LomHighBits(key: nat)
    requires Shr(key, 5) == 127
    ensures LomHash(key) >= 32
  {
    var low := Xor(Low(key, 5), Shr(key, 5));
    ShrLow(key, 5);
    ShrXor(Low(key, 5), Shr(key, 5), 5);
    ShrXor(low, Shr(key, 9), 5);
    ShrShr(key, 9, 5);
    ShrShr(key, 5, 9);
    assert Shr(127, 5) == 3 && Shr(127, 9) == 0;
    assert Xor(Xor(0, 3), 0) == 3;
    ShrLarge(LomHash(key), 5);
    assert Pow2(5) == 32;
  }

  /** For every code table that fits, the 9-bit index built from it finds every code. */
  lemma LecLookup(codes: seq<nat>, t: seq<nat>)
    requires Fits(Lec, codes) && Contents(Lec, codes, t, |codes|)
    ensures forall i: nat :: i < |codes| ==> GetValue(Lec, t, codes[i]) == Some(i)
  {
    LookupAfterBuild(Lec, codes, t);
    forall i: nat | i < |codes| ensures !Masquerades(Lec, codes, i) {
      assert Pow2(9) == 512;
      assert Lec.hash(codes[i]) < Lec.Size();
      if Lec.High(codes[i]) == 127 { LecHighBits(codes[i]); }
    }
  }

  /** For every code table that fits, the 5-bit index built from it finds every code. */
  lemma LomLookup(codes: seq<nat>, t: seq<nat>)
    requires Fits(Lom, codes) && Contents(Lom, codes, t, |codes|)
    ensures forall i: nat :: i < |codes| ==> GetValue(Lom, t, codes[i]) == Some(i)
  {
    LookupAfterBuild(Lom, codes, t);
    forall i: nat | i < |codes| ensures !Masquerades(Lom, codes, i) {
      assert Pow2(5) == 32;
      assert Lom.hash(codes[i]) < Lom.Size();
      if Lom.High(codes[i]) == 127 { LomHighBits(codes[i]); }
    }
  }

  // --- The small hashes and the slots they lead to ---

  lemma Low4(x: nat)
    ensures Low(x, 4) == x % 16
  {
    assert Low(x / 2 / 2 / 2, 1) == x / 2 / 2 / 2 % 2;
    assert Low(x / 2 / 2, 2) == 2 * (x / 2 / 2 / 2 % 2) + x / 2 / 2 % 2;
    assert Low(x / 2, 3) == 2 * (2 * (x / 2 / 2 / 2 % 2) + x / 2 / 2 % 2) + x / 2 % 2;
  }

  lemma Quarter(x: nat)
    ensures Shr(x, 2) == x / 4 && Shr(x, 3) == x / 8 && Shr(x, 4) == x / 16
  {
    assert Shr(x, 2) == x / 2 / 2 && Shr(x, 3) == x / 2 / 2 / 2 && Shr(x, 4) == x / 2 / 2 / 2 / 2;
  }

  lemma {:induction false} ShrSmall(x: nat, k: nat)
    requires x < Pow2(k)
    ensures Shr(x, k) == 0
    decreases k
  {
    if k > 0 { ShrSmall(x / 2, k - 1); }
  }

  lemma SmallMix(key: nat)
    requires key < 256
    ensures Xor(Shr(key, 8), Low(key, 8)) == key && Shr(key, 9) == 0
  {
    assert Pow2(8) == 256 && Pow2(9) == 512;
    ShrSmall(key, 8);
    ShrSmall(key, 9);
    LowSmall(key, 8);
    XorZero(key);
  }

  lemma LecMiniOf(key: nat, m: nat, h: nat)
    requires m == Xor(Shr(key, 8), Low(key, 8)) && h == Low(Shr(m, 2), 4)
    ensures LecMiniHash(key) == (if Shr(key, 9) != 0 && h <= 0xffff then 0xffff - h else h) % 12
  {
  }

  lemma Complement(h: nat)
    requires h < 16
    ensures (0xffff - h) % 12 == (15 - h) % 12
  {
  }

  /** The small hash takes four bits of the code folded to a byte, backwards for codes with bits above the index. */
  lemma LecMini(key: nat, m: nat)
    requires m == Xor(Shr(key, 8), Low(key, 8))
    ensures LecMiniHash(key) == (if Shr(key, 9) != 0 then 15 - m / 4 % 16 else m / 4 % 16) % 12
  {
    Quarter(m);
    Low4(m / 4);
    LecMiniOf(key, m, m / 4 % 16);
    Complement(m / 4 % 16);
  }

  /** For a code below 256 these are its bits 2 to 5. */
  lemma LecMiniSmall(key: nat)
    requires key < 256
    ensures LecMiniHash(key) == key / 4 % 16 % 12
  {
    SmallMix(key);
    LecMini(key, key);
  }

  predicate Odd(x: nat) { x % 2 == 1 }

  lemma Halved(v: nat, q: nat, bit: nat)
    requires v == 2 * q + bit && bit < 2
    ensures v / 2 == q && (Odd(v) <==> bit == 1)
  {
  }

  lemma XorHalves(x: nat, y: nat)
    ensures Xor(x, y) / 2 == Xor(x / 2, y / 2) && (Odd(Xor(x, y)) <==> Odd(x) != Odd(y))
  {
    XorStep(x, y);
    Halved(Xor(x, y), Xor(x / 2, y / 2), if x % 2 == y % 2 then 0 else 1);
  }

  lemma Low2(x: nat)
    ensures Low(x, 2) == 2 * (x / 2 % 2) + x % 2
  {
    assert Low(x / 2, 1) == x / 2 % 2;
  }

  lemma LomMiniOf(key: nat, h: nat)
    requires h == Low(Shr(key, 4), 4)
    ensures LomMiniHash(key) == Low(Xor(Xor(h, Shr(h, 2)), Shr(h, 3)), 2)
  {
  }

  lemma LomMix(h: nat, x: nat, y: nat)
    requires x == Xor(h, h / 4) && y == Xor(x, h / 8)
    ensures Odd(y) <==> (Odd(h) != Odd(h / 4)) != Odd(h / 8)
    ensures Odd(y / 2) <==> (Odd(h / 2) != Odd(h / 4 / 2)) != Odd(h / 8 / 2)
  {
    XorHalves(h, h / 4);
    XorHalves(h / 2, h / 4 / 2);
    XorHalves(x, h / 8);
    XorHalves(x / 2, h / 8 / 2);
  }

  /** The small hash of the other script, bit by bit. */
  lemma LomMini(key: nat)
    ensures var h := key / 16 % 16;
            LomMiniHash(key) == (if Odd(h / 2) != Odd(h / 8) then 2 else 0)
                                + if (Odd(h) != Odd(h / 4)) != Odd(h / 8) then 1 else 0
  {
    var h := key / 16 % 16;
    Quarter(key);
    Low4(key / 16);
    Quarter(h);
    LomMiniOf(key, h);
    var x := Xor(h, h / 4);
    var y := Xor(x, h / 8);
    LomMix(h, x, y);
    Low2(y);
    assert h / 4 / 2 == h / 8 && h / 8 / 2 == 0;
  }

  function OneBucket(key: nat): nat { 0 }
  function NoSlot(key: nat): Option<nat> { None }

  const Flat := Scheme(5, 8, OneBucket, NoSlot)

  lemma LoneCodeFits(c: nat)
    requires Shr(c, 5) == 127
    ensures Fits(Flat, [c]) && Masquerades(Flat, [c], 0)
  {
    assert Pow2(7) == 128 && Pow2(5) == 32 && Pack(5, 127, 0) == 0xfe0;
  }

  /** With another hash the condition is needed: a table of one code with all seven high bits set fits, and the code
      is not found. */
  lemma MasqueradeNotFound(c: nat, t: seq<nat>)
    requires Shr(c, 5) == 127 && Contents(Flat, [c], t, 1)
    ensures Fits(Flat, [c]) && GetValue(Flat, t, c) != Some(0)
  {
    LoneCodeFits(c);
    LookupMasquerade(Flat, [c], t, 0);
  }
}
