/**
 The index tables generated for the two Huffman alphabets (scripts/LECHash.c, scripts/LOMHash.c).
 A table of 2^k words of 16 bits maps a code to its index.  The word of a bucket packs the index of the
 first code of that bucket (low k bits) with the high bits of the colliding code (the seven bits above);
 the index of the colliding code sits in a fallback slot of the same table.  The development is parametric
 in k (9 and 5 in the scripts), in the two hash functions and in the fallback table.
 */
module TwoLevelHash {
  import opened Bits
  import opened Common

  const EMPTY: nat := 0xffff

  /** `slot` is the fallback table after the small hash; None where the small hash runs past that table.
      `resultBits` is the width of the type that the lookup returns. */
  datatype Scheme = Scheme(k: nat, resultBits: nat, hash: nat -> nat, slot: nat -> Option<nat>) {

    function Size(): nat { Pow2(k) }

    /** The seven bits above the index: 0xfe00 for k = 9, 0xfe0 for k = 5. */
    function Mask(): nat { Pack(k, 127, 0) }

    /** The code's bits under that mask. */
    function Masked(code: nat): nat { Pack(k, Low(High(code), 7), 0) }

    function High(code: nat): nat { Shr(code, k) }
  }

  /** A later code of the same bucket as an earlier one. */
  ghost predicate IsSecond(sc: Scheme, codes: seq<nat>, j: nat)
  {
    j < |codes| && exists i: nat :: i < j && sc.hash(codes[i]) == sc.hash(codes[j])
  }

  ghost predicate IsLone(sc: Scheme, codes: seq<nat>, i: nat)
  {
    i < |codes| && forall j: nat :: j < |codes| && j != i ==> sc.hash(codes[j]) != sc.hash(codes[i])
  }

  /** The fallback slot of a second code lies in the table and is no code's bucket. */
  ghost predicate SlotFree(sc: Scheme, codes: seq<nat>, j: nat)
    requires j < |codes|
  {
    var s := sc.slot(codes[j]);
    && s.Some?
    && s.value < sc.Size()
    && forall i: nat :: i < |codes| ==> sc.hash(codes[i]) != s.value
  }

  /** What the scripts' code tables satisfy. */
  ghost predicate Fits(sc: Scheme, codes: seq<nat>)
  {
    && sc.k + 7 <= 16 && sc.k < sc.resultBits <= 16
    && |codes| <= sc.Size()
    && (forall i: nat :: i < |codes| ==> sc.hash(codes[i]) < sc.Size() && sc.High(codes[i]) < Pow2(7))
    && (forall i: nat, j: nat, l: nat :: i < j < l < |codes| && sc.hash(codes[i]) == sc.hash(codes[j]) ==>
          sc.hash(codes[l]) != sc.hash(codes[j]))
    && (forall i: nat, j: nat :: i < j < |codes| && sc.hash(codes[i]) == sc.hash(codes[j]) ==>
          sc.High(codes[i]) != sc.High(codes[j]))
    && (forall j: nat :: IsSecond(sc, codes, j) ==> SlotFree(sc, codes, j))
    && (forall j: nat, j': nat :: IsSecond(sc, codes, j) && IsSecond(sc, codes, j') && j != j' ==>
          sc.slot(codes[j]) != sc.slot(codes[j']))
  }

  /** One round of the building loop. */
  ghost function Insert(sc: Scheme, codes: seq<nat>, t: seq<nat>, i: nat): (r: seq<nat>)
    requires i < |codes| && |t| == sc.Size() && sc.hash(codes[i]) < |t|
    requires t[sc.hash(codes[i])] != EMPTY ==> sc.slot(codes[i]).Some? && sc.slot(codes[i]).value < |t|
    ensures |r| == |t|
  {
    var h := sc.hash(codes[i]);
    if t[h] != EMPTY then
      t[h := Xor(t[h], Xor(sc.Masked(codes[i]), sc.Mask()))][sc.slot(codes[i]).value := i]
    else
      t[h := Xor(i, sc.Mask())]
  }

  /** The lookup; None where it would read outside the fallback table or the index table. */
  function GetValue(sc: Scheme, t: seq<nat>, code: nat): Option<nat>
  {
    if sc.hash(code) >= |t| then None
    else
      var h := t[sc.hash(code)];
      if Shr(Xor(h, code), sc.k) != 0 then
        Some(Low(Low(h, sc.k), sc.resultBits))
      else
        var s := sc.slot(code);
        if s.Some? && s.value < |t| then Some(Low(t[s.value], sc.resultBits)) else None
  }

  // --- The packed words ---

  lemma FirstWord(sc: Scheme, i: nat)
    requires i < sc.Size()
    ensures Xor(i, sc.Mask()) == Pack(sc.k, 127, i)
  {
    LowSmall(i, sc.k);
    XorPack(sc.k, 0, i, 127, 0);
    XorZero(127);
    XorZero(i);
  }

  /** Only the word of the last index can look empty, and no round follows that one. */
  lemma FirstWordNotEmpty(sc: Scheme, i: nat)
    requires sc.k + 7 <= 16 && i + 1 < sc.Size()
    ensures Pack(sc.k, 127, i) < EMPTY
  {
    PackAllOnes(sc.k, i);
    Pow2Monotone(sc.k + 7, 16);
    assert Pow2(8) == 256;
    assert EMPTY + 1 == Pow2(16);
  }

  lemma {:induction false} PackAllOnes(k: nat, l: nat)
    requires l < Pow2(k)
    ensures Pack(k, 127, l) - l == Pow2(k + 7) - Pow2(k)
  {
    if k == 0 {
      assert Pow2(7) == 128;
    } else {
      PackAllOnes(k - 1, l / 2);
    }
  }

  lemma SecondWord(sc: Scheme, i: nat, code: nat)
    requires sc.High(code) < Pow2(7)
    ensures Xor(Pack(sc.k, 127, i), Xor(sc.Masked(code), sc.Mask())) == Pack(sc.k, sc.High(code), i)
  {
    var k, h := sc.k, sc.High(code);
    LowSmall(h, 7);
    XorPack(k, h, 0, 127, 0);
    XorPack(k, 127, i, Xor(h, 127), Xor(0, 0));
    XorCancels(127, h);
    XorZero(i);
  }

  /** Comparing a packed word with a code above bit k compares their high fields. */
  lemma HighFieldTest(sc: Scheme, h: nat, i: nat, code: nat)
    ensures Shr(Xor(Pack(sc.k, h, i), code), sc.k) == 0 <==> h == sc.High(code)
  {
    Repack(sc.k, code);
    XorPack(sc.k, h, i, sc.High(code), code);
    Unpack(sc.k, Xor(h, sc.High(code)), Xor(i, code));
    XorIsZero(h, sc.High(code));
  }

  // --- Which codes share a bucket or a slot, among the first n ---

  ghost function First(sc: Scheme, codes: seq<nat>, n: nat, p: nat): (r: Option<nat>)
    requires n <= |codes|
    ensures r.Some? ==> r.value < n && sc.hash(codes[r.value]) == p
    ensures forall i: nat :: i < n && sc.hash(codes[i]) == p ==> r.Some? && r.value <= i
  {
    if n == 0 then None
    else if First(sc, codes, n - 1, p).Some? then First(sc, codes, n - 1, p)
    else if sc.hash(codes[n - 1]) == p then Some(n - 1)
    else None
  }

  ghost function Second(sc: Scheme, codes: seq<nat>, n: nat, p: nat): (r: Option<nat>)
    requires n <= |codes|
    ensures r.Some? ==> r.value < n && sc.hash(codes[r.value]) == p
    ensures r.Some? ==> First(sc, codes, n, p).Some? && First(sc, codes, n, p).value < r.value
    ensures forall i: nat :: i < n && sc.hash(codes[i]) == p && First(sc, codes, n, p) != Some(i) ==> r.Some?
  {
    if n == 0 then None
    else if Second(sc, codes, n - 1, p).Some? then Second(sc, codes, n - 1, p)
    else if First(sc, codes, n - 1, p).Some? && sc.hash(codes[n - 1]) == p then Some(n - 1)
    else None
  }

  /** The last second code whose fallback slot is p. */
  ghost function SlotOwner(sc: Scheme, codes: seq<nat>, n: nat, p: nat): (r: Option<nat>)
    requires n <= |codes|
    ensures r.Some? ==> r.value < n && IsSecond(sc, codes, r.value) && sc.slot(codes[r.value]) == Some(p)
    ensures forall j: nat :: j < n && IsSecond(sc, codes, j) && sc.slot(codes[j]) == Some(p) ==> r.Some?
  {
    if n == 0 then None
    else if First(sc, codes, n - 1, sc.hash(codes[n - 1])).Some? && sc.slot(codes[n - 1]) == Some(p) then Some(n - 1)
    else SlotOwner(sc, codes, n - 1, p)
  }

  /** What the building loop leaves at position p after n rounds. */
  ghost function Entry(sc: Scheme, codes: seq<nat>, n: nat, p: nat): nat
    requires n <= |codes|
  {
    match First(sc, codes, n, p)
    case Some(i) =>
      (match Second(sc, codes, n, p)
       case Some(j) => Pack(sc.k, sc.High(codes[j]), i)
       case None => Pack(sc.k, 127, i))
    case None =>
      match SlotOwner(sc, codes, n, p)
      case Some(j) => j
      case None => EMPTY
  }

  ghost predicate Contents(sc: Scheme, codes: seq<nat>, t: seq<nat>, n: nat)
    requires n <= |codes|
  {
    |t| == sc.Size() && forall p: nat :: p < |t| ==> t[p] == Entry(sc, codes, n, p)
  }

  /** Round n finds its bucket occupied exactly when n is a second code, and then its slot is usable. */
  lemma BucketTest(sc: Scheme, codes: seq<nat>, t: seq<nat>, n: nat)
    requires Fits(sc, codes) && n < |codes| && Contents(sc, codes, t, n)
    ensures t[sc.hash(codes[n])] != EMPTY <==> First(sc, codes, n, sc.hash(codes[n])).Some?
    ensures First(sc, codes, n, sc.hash(codes[n])).Some? ==>
              Second(sc, codes, n, sc.hash(codes[n])).None? && SlotFree(sc, codes, n)
  {
    var p := sc.hash(codes[n]);
    match First(sc, codes, n, p) {
      case Some(i) =>
        assert IsSecond(sc, codes, n);
        FirstWordNotEmpty(sc, i);
      case None =>
        assert forall j: nat :: IsSecond(sc, codes, j) ==> SlotFree(sc, codes, j);
    }
  }

  /** How the expected contents change in round n. */
  lemma EntryStep(sc: Scheme, codes: seq<nat>, n: nat, p: nat)
    requires Fits(sc, codes) && n < |codes|
    ensures var first := First(sc, codes, n, sc.hash(codes[n]));
            Entry(sc, codes, n + 1, p) ==
              if first.None? then
                if p == sc.hash(codes[n]) then Pack(sc.k, 127, n) else Entry(sc, codes, n, p)
              else
                if p == sc.hash(codes[n]) then Pack(sc.k, sc.High(codes[n]), first.value)
                else if sc.slot(codes[n]) == Some(p) then n
                else Entry(sc, codes, n, p)
  {
    if First(sc, codes, n, sc.hash(codes[n])).Some? {
      assert IsSecond(sc, codes, n);
      assert SlotFree(sc, codes, n);
    }
  }

  lemma InsertStep(sc: Scheme, codes: seq<nat>, t: seq<nat>, n: nat)
    requires Fits(sc, codes) && n < |codes| && Contents(sc, codes, t, n)
    requires t[sc.hash(codes[n])] != EMPTY ==> SlotFree(sc, codes, n)
    ensures Contents(sc, codes, Insert(sc, codes, t, n), n + 1)
  {
    BucketTest(sc, codes, t, n);
    var h, c := sc.hash(codes[n]), codes[n];
    var first := First(sc, codes, n, h);
    var r := Insert(sc, codes, t, n);
    if first.None? {
      FirstWord(sc, n);
      assert r == t[h := Pack(sc.k, 127, n)];
    } else {
      SecondWord(sc, first.value, c);
      assert t[h] == Entry(sc, codes, n, h);
      assert r == t[h := Pack(sc.k, sc.High(c), first.value)][sc.slot(c).value := n];
    }
    forall p: nat | p < |t| ensures r[p] == Entry(sc, codes, n + 1, p) {
      EntryStep(sc, codes, n, p);
    }
  }

  /** One round of the scripts' building loop, in place on the table. */
  method BuildRound(sc: Scheme, codes: seq<nat>, table: array<nat>, i: nat)
    requires i < |codes| && table.Length == sc.Size() && sc.hash(codes[i]) < table.Length
    requires table[sc.hash(codes[i])] != EMPTY ==> sc.slot(codes[i]).Some? && sc.slot(codes[i]).value < table.Length
    modifies table
    ensures table[..] == Insert(sc, codes, old(table[..]), i)
  {
    var h := sc.hash(codes[i]);
    if table[h] != EMPTY {
      table[h] := Xor(table[h], Xor(sc.Masked(codes[i]), sc.Mask()));
      table[sc.slot(codes[i]).value] := i;
    } else {
      table[h] := i;
      table[h] := Xor(table[h], sc.Mask());
    }
  }

  /** The scripts' building loop. */
  method BuildHashTable(sc: Scheme, codes: seq<nat>, table: array<nat>)
    requires Fits(sc, codes)
    requires table.Length == sc.Size() && forall p :: 0 <= p < table.Length ==> table[p] == EMPTY
    modifies table
    ensures Contents(sc, codes, table[..], |codes|)
  {
    for i := 0 to |codes|
      invariant Contents(sc, codes, table[..], i)
    {
      BucketTest(sc, codes, table[..], i);
      InsertStep(sc, codes, table[..], i);
      BuildRound(sc, codes, table, i);
    }
  }

  // --- Lookup after build ---

  /** The code whose lookup goes wrong: alone in its bucket, with all seven high bits set. */
  ghost predicate Masquerades(sc: Scheme, codes: seq<nat>, i: nat)
  {
    IsLone(sc, codes, i) && sc.High(codes[i]) == 127
  }

  lemma LookupFirstOrSecond(sc: Scheme, codes: seq<nat>, t: seq<nat>, i: nat)
    requires Fits(sc, codes) && Contents(sc, codes, t, |codes|) && i < |codes|
    requires !Masquerades(sc, codes, i)
    ensures GetValue(sc, t, codes[i]) == Some(i)
  {
    var n, p, c := |codes|, sc.hash(codes[i]), codes[i];
    var f := First(sc, codes, n, p).value;
    Pow2Monotone(sc.k, sc.resultBits);
    LowSmall(i, sc.resultBits);
    LowSmall(f, sc.k);
    match Second(sc, codes, n, p) {
      case Some(j) =>
        HighFieldTest(sc, sc.High(codes[j]), f, c);
        Unpack(sc.k, sc.High(codes[j]), f);
        assert i == f || i == j;
        if i == j {
          assert IsSecond(sc, codes, j);
          assert SlotFree(sc, codes, j);
          var s := sc.slot(c).value;
          assert SlotOwner(sc, codes, n, s) == Some(j);
          assert First(sc, codes, n, s).None?;
        }
      case None =>
        assert i == f;
        assert IsLone(sc, codes, i);
        HighFieldTest(sc, 127, f, c);
        Unpack(sc.k, 127, f);
    }
  }

  /** Cutting a packed word to more than k bits keeps its low field, and does not clear seven set bits above it. */
  lemma TruncatedWord(sc: Scheme, h: nat, f: nat, i: nat)
    requires sc.k < sc.resultBits && f < sc.Size() && i < sc.Size()
    requires f != i || h == 127
    ensures Low(Pack(sc.k, h, f), sc.resultBits) != i
  {
    var g := Low(h, sc.resultBits - sc.k);
    LowPack(sc.k, h, f, sc.resultBits);
    LowSmall(i, sc.k);
    LowSmall(f, sc.k);
    Unpack(sc.k, g, f);
    Unpack(sc.k, 0, i);
  }

  lemma EmptyMark(sc: Scheme, i: nat)
    requires sc.k < sc.resultBits <= 16 && i < sc.Size()
    ensures Low(EMPTY, sc.resultBits) != i
  {
    assert Pow2(8) == 256;
    assert EMPTY + 1 == Pow2(16);
    LowAllOnes(EMPTY, 16, sc.resultBits);
    Pow2Monotone(sc.k + 1, sc.resultBits);
  }

  /** No word of the table, cut to the result type, is the index of a code that masquerades. */
  lemma LookupMasquerade(sc: Scheme, codes: seq<nat>, t: seq<nat>, i: nat)
    requires Fits(sc, codes) && Contents(sc, codes, t, |codes|)
    requires Masquerades(sc, codes, i)
    ensures GetValue(sc, t, codes[i]) != Some(i)
  {
    var n, p, c := |codes|, sc.hash(codes[i]), codes[i];
    assert First(sc, codes, n, p) == Some(i);
    assert Second(sc, codes, n, p).None?;
    HighFieldTest(sc, 127, i, c);
    var s := sc.slot(c);
    if s.Some? && s.value < |t| {
      var q := s.value;
      match First(sc, codes, n, q) {
        case Some(f) =>
          var h := if Second(sc, codes, n, q).Some? then sc.High(codes[Second(sc, codes, n, q).value]) else 127;
          TruncatedWord(sc, h, f, i);
        case None =>
          if SlotOwner(sc, codes, n, q).Some? {
            Pow2Monotone(sc.k, sc.resultBits);
            LowSmall(SlotOwner(sc, codes, n, q).value, sc.resultBits);
          } else {
            EmptyMark(sc, i);
          }
      }
    }
  }

  /** Looking up every code returns its index exactly when no lone code has all seven high bits set. */
  lemma LookupAfterBuild(sc: Scheme, codes: seq<nat>, t: seq<nat>)
    requires Fits(sc, codes) && Contents(sc, codes, t, |codes|)
    ensures (forall i: nat :: i < |codes| ==> GetValue(sc, t, codes[i]) == Some(i))
       <==> (forall i: nat :: i < |codes| ==> !Masquerades(sc, codes, i))
  {
    forall i: nat | i < |codes|
      ensures GetValue(sc, t, codes[i]) == Some(i) <==> !Masquerades(sc, codes, i)
    {
      if Masquerades(sc, codes, i) {
        LookupMasquerade(sc, codes, t, i);
      } else {
        LookupFirstOrSecond(sc, codes, t, i);
      }
    }
  }
}
