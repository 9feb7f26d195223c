/**
 The variable-length integers of the touch input channel (channels/rdpei/rdpei_common.c; sections 2.2.2.1
 to 2.2.2.5 of MS-RDPEI).  The leading byte holds a count of following bytes, for signed kinds a sign bit,
 and the top bits of the magnitude; the rest follows in big-endian order.  Masks and shifts on contiguous
 bit fields are written as division and remainder, and the or of disjoint fields as a sum.
 */
module TouchInput {
  import opened Common

  datatype Kind = Unsigned2 | Signed2 | Unsigned4 | Signed4 | Unsigned8 {

    /** Values of the argument's C type. */
    predicate HasType(v: int)
    {
      match this
      case Unsigned2 => 0 <= v < U16
      case Signed2 => -0x8000 <= v < 0x8000
      case Unsigned4 => 0 <= v < U32
      case Signed4 => -0x8000_0000 <= v < 0x8000_0000
      case Unsigned8 => 0 <= v < U64
    }

    /** Values the wire format can carry. */
    predicate InRange(v: int)
    {
      match this
      case Unsigned2 => 0 <= v <= 0x7FFF
      case Signed2 => -0x3FFF <= v <= 0x3FFF
      case Unsigned4 => 0 <= v <= 0x3FFF_FFFF
      case Signed4 => -0x1FFF_FFFF <= v <= 0x1FFF_FFFF
      case Unsigned8 => 0 <= v <= 0x1FFF_FFFF_FFFF_FFFF
    }

    predicate HasSign() { Signed2? || Signed4? }

    /** How many values the magnitude field of the leading byte has; for signed kinds also the weight of the sign. */
    function Field(): nat
    {
      match this
      case Unsigned2 => 0x80 case Signed2 => 0x40
      case Unsigned4 => 0x40 case Signed4 => 0x20
      case Unsigned8 => 0x20
    }

    function MaxCount(): nat { if Unsigned8? then 7 else if Unsigned2? || Signed2? then 1 else 3 }

    /** The leading byte made of a count, a sign and a field, and its parts again. */
    function Lead(count: nat, negative: bool, field: nat): (b: byte)
      requires count <= MaxCount() && field < Field() && (negative ==> HasSign())
    {
      match this
      case Unsigned2 => 0x80 * count + field
      case Signed2 => 0x80 * count + (if negative then 0x40 else 0) + field
      case Unsigned4 => 0x40 * count + field
      case Signed4 => 0x40 * count + (if negative then 0x20 else 0) + field
      case Unsigned8 => 0x20 * count + field
    }

    lemma LeadParts(count: nat, negative: bool, field: nat)
      requires count <= MaxCount() && field < Field() && (negative ==> HasSign())
      ensures var b := Lead(count, negative, field);
              CountOf(b) == count && FieldOf(b) == field && NegativeOf(b) == negative
    {
    }

    function CountOf(b: byte): nat
    {
      match this
      case Unsigned2 => b / 0x80 case Signed2 => b / 0x80
      case Unsigned4 => b / 0x40 case Signed4 => b / 0x40
      case Unsigned8 => b / 0x20
    }

    function FieldOf(b: byte): nat
    {
      match this
      case Unsigned2 => b % 0x80 case Signed2 => b % 0x40
      case Unsigned4 => b % 0x40 case Signed4 => b % 0x20
      case Unsigned8 => b % 0x20
    }

    predicate NegativeOf(b: byte)
    {
      (Signed2? && b / 0x40 % 2 == 1) || (Signed4? && b / 0x20 % 2 == 1)
    }
  }

  // --- Reference definitions ---

  /** v >> 8 * j */
  function Shift(v: nat, j: nat): nat
    decreases j
  {
    if j == 0 then v else Shift(v / 256, j - 1)
  }

  /** What becomes of byte j of the magnitude below the leading byte: the eight-byte writer cuts every byte
      from index 3 up to five bits. */
  function Kept(kind: Kind, b: byte, j: nat): byte
  {
    if kind.Unsigned8? && j >= 3 then b % 32 else b
  }

  function Tail(kind: Kind, m: nat, n: nat): (r: bytes)
    ensures |r| == n
  {
    if n == 0 then [] else [Kept(kind, Shift(m, n - 1) % 256, n - 1)] + Tail(kind, m, n - 1)
  }

  lemma TailStep(kind: Kind, m: nat, n: nat)
    requires n > 0
    ensures Tail(kind, m, n) == [Kept(kind, Shift(m, n - 1) % 256, n - 1)] + Tail(kind, m, n - 1)
  {
  }

  /** The least number of following bytes that leaves the leading field large enough. */
  function Count(m: nat, field: nat): nat
    requires field > 0
  {
    if m < field then 0 else 1 + Count(m / 256, field)
  }

  function Following(kind: Kind, m: nat): nat
  {
    if kind.MaxCount() == 1 then (if m >= kind.Field() - 1 then 1 else 0) else Count(m, kind.Field())
  }

  function Magnitude(v: int): nat { if v < 0 then -v else v }

  /** The wire form of an in-range value. */
  function Wire(kind: Kind, v: int): bytes
    requires kind.InRange(v)
  {
    var m := Magnitude(v);
    var n := Following(kind, m);
    LeadFits(kind, m);
    [kind.Lead(n, v < 0, Shift(m, n))] + Tail(kind, m, n)
  }

  lemma WireParts(kind: Kind, v: int)
    requires kind.InRange(v)
    ensures var m, n := Magnitude(v), Following(kind, Magnitude(v));
            && n <= kind.MaxCount() && Shift(m, n) < kind.Field()
            && Wire(kind, v) == [kind.Lead(n, v < 0, Shift(m, n))] + Tail(kind, m, n)
  {
    LeadFits(kind, Magnitude(v));
  }

  lemma {:induction false} CountFits(m: nat, field: nat, max: nat)
    requires field > 0 && Shift(m, max) < field
    ensures Count(m, field) <= max && Shift(m, Count(m, field)) < field
  {
    if m >= field { CountFits(m / 256, field, max - 1); }
  }

  lemma LeadFits(kind: Kind, m: nat)
    requires kind.InRange(m)
    ensures Following(kind, m) <= kind.MaxCount()
    ensures Shift(m, Following(kind, m)) < kind.Field()
  {
    assert Shift(m, 3) == m / 256 / 256 / 256;
    assert Shift(m, 7) == Shift(m / 256 / 256 / 256 / 256, 3);
    if kind.MaxCount() != 1 {
      CountFits(m, kind.Field(), kind.MaxCount());
    }
  }

  function Fold(t: bytes, acc: nat): nat
  {
    if |t| == 0 then acc else Fold(t[1..], 256 * acc + t[0])
  }

  /** The value a reader returns and the number of bytes it consumes, or None where the data is too short. */
  function Decode(kind: Kind, s: bytes): Option<(int, nat)>
  {
    if |s| == 0 then None
    else
      var count: nat := kind.CountOf(s[0]);
      if |s| < 1 + count then None
      else
        var m: int := Fold(s[1..1 + count], kind.FieldOf(s[0]));
        Some((if kind.NegativeOf(s[0]) then -m else m, 1 + count))
  }

  /** m with byte i, for j <= i < j + n, replaced by what the writer keeps of it; j is the index of m's lowest byte. */
  function Clipped(kind: Kind, m: nat, n: nat, j: nat): nat
    decreases n
  {
    if n == 0 then m else 256 * Clipped(kind, m / 256, n - 1, j + 1) + Kept(kind, m % 256, j)
  }

  /** What survives a write followed by a read. */
  function Survives(kind: Kind, v: int): int
  {
    var c: int := Clipped(kind, Magnitude(v), Following(kind, Magnitude(v)), 0);
    if v < 0 then -c else c
  }

  // --- Round trips ---

  lemma {:induction false} ShiftStep(v: nat, j: nat)
    ensures Shift(v, j + 1) == Shift(v, j) / 256
    decreases j
  {
    if j > 0 { ShiftStep(v / 256, j - 1); }
  }

  lemma {:induction false} FoldTail(kind: Kind, v: nat, n: nat, q: nat)
    ensures Fold(Tail(kind, v, n), Clipped(kind, Shift(v, n), q, n)) == Clipped(kind, v, n + q, 0)
    decreases n
  {
    if n > 0 {
      ShiftStep(v, n - 1);
      TailStep(kind, v, n);
      assert Tail(kind, v, n)[1..] == Tail(kind, v, n - 1);
      FoldTail(kind, v, n - 1, q + 1);
    }
  }

  lemma DecodeLead(kind: Kind, s: bytes, lead: byte, tail: bytes)
    requires |s| > |tail| == kind.CountOf(lead) && s[0] == lead && s[1..1 + |tail|] == tail
    ensures var m: int := Fold(tail, kind.FieldOf(lead));
            Decode(kind, s) == Some((if kind.NegativeOf(lead) then -m else m, 1 + |tail|))
  {
  }

  lemma DecodeParts(kind: Kind, n: nat, negative: bool, field: nat, tail: bytes, rest: bytes)
    requires n <= kind.MaxCount() && field < kind.Field() && (negative ==> kind.HasSign()) && |tail| == n
    ensures var m: int := Fold(tail, field);
            Decode(kind, [kind.Lead(n, negative, field)] + tail + rest) == Some((if negative then -m else m, 1 + n))
  {
    var lead := kind.Lead(n, negative, field);
    var s := [lead] + tail + rest;
    kind.LeadParts(n, negative, field);
    assert s[1..1 + n] == tail;
    DecodeLead(kind, s, lead, tail);
  }

  /** Reading what was written consumes exactly those bytes and returns what survives of the value. */
  lemma DecodeWire(kind: Kind, v: int, rest: bytes)
    requires kind.InRange(v)
    ensures Decode(kind, Wire(kind, v) + rest) == Some((Survives(kind, v), |Wire(kind, v)|))
  {
    var m := Magnitude(v);
    var n := Following(kind, m);
    LeadFits(kind, m);
    FoldTail(kind, m, n, 0);
    var tail := Tail(kind, m, n);
    DecodeParts(kind, n, v < 0, Shift(m, n), tail, rest);
    assert Fold(tail, Shift(m, n)) == Clipped(kind, m, n, 0);
    WireParts(kind, v);
  }

  /** No byte above index 2 and below the leading byte uses its top three bits. */
  ghost predicate Sparse(m: nat, n: nat, j: nat)
  {
    forall i: nat :: i < n && j + i >= 3 ==> Shift(m, i) % 256 < 32
  }

  lemma {:induction false} ClippedIsIdentity(kind: Kind, m: nat, n: nat, j: nat)
    ensures Clipped(kind, m, n, j) <= m
    ensures Clipped(kind, m, n, j) == m <==> !kind.Unsigned8? || Sparse(m, n, j)
    decreases n
  {
    if n > 0 {
      ClippedIsIdentity(kind, m / 256, n - 1, j + 1);
      if Sparse(m, n, j) {
        forall i: nat | i < n - 1 && j + 1 + i >= 3 ensures Shift(m / 256, i) % 256 < 32 {
          assert Shift(m, i + 1) == Shift(m / 256, i);
        }
        assert j >= 3 ==> Shift(m, 0) % 256 < 32;
      } else {
        var i: nat :| i < n && j + i >= 3 && Shift(m, i) % 256 >= 32;
        if i > 0 { assert Shift(m / 256, i - 1) % 256 >= 32; }
      }
    }
  }

  /** The two- and four-byte kinds lose nothing; the eight-byte kind loses nothing exactly on sparse values. */
  lemma SurvivesIsIdentity(kind: Kind, v: int)
    requires kind.InRange(v)
    ensures Survives(kind, v) == v <==> !kind.Unsigned8? || Sparse(v, Following(kind, v), 0)
    ensures kind.Unsigned8? && v < 0x2000_0000 ==> Survives(kind, v) == v
  {
    var m := Magnitude(v);
    ClippedIsIdentity(kind, m, Following(kind, m), 0);
    if kind.Unsigned8? && v < 0x2000_0000 {
      assert Shift(m, 3) == m / 256 / 256 / 256;
      CountFits(m, 0x20, 3);
    }
  }

  /** 2^29 is the least value that does not survive. */
  lemma EightByteLoss()
    ensures Survives(Unsigned8, 0x2000_0000) != 0x2000_0000
    ensures forall v: nat :: v < 0x2000_0000 ==> Survives(Unsigned8, v) == v
  {
    forall v: nat | v < 0x2000_0000 ensures Survives(Unsigned8, v) == v {
      SurvivesIsIdentity(Unsigned8, v);
    }
    var m := 0x2000_0000;
    assert Limit(0x20, 1) == 0x2000 && Limit(0x20, 2) == 0x20_0000 && Limit(0x20, 3) == m;
    CountIs(m, 0x20, 4);
    assert Shift(m, 3) == Shift(0x20_0000, 2) == Shift(0x2000, 1) == 0x20;
    SurvivesIsIdentity(Unsigned8, m);
  }

  // --- The wire form as a number ---

  function Pow256(n: nat): nat { if n == 0 then 1 else 256 * Pow256(n - 1) }

  /** Bytes as a number, highest first. */
  function Number(t: bytes): nat
  {
    if |t| == 0 then 0 else 256 * Number(t[..|t| - 1]) + t[|t| - 1]
  }

  lemma {:induction false} NumberCons(b: byte, t: bytes)
    ensures Number([b] + t) == b * Pow256(|t|) + Number(t)
  {
    if |t| == 0 {
      assert [b] + t == [b] && [b][..0] == [];
    } else {
      var n := |t| - 1;
      NumberCons(b, t[..n]);
      assert ([b] + t)[..n + 1] == [b] + t[..n];
      Regroup(b, Pow256(n));
    }
  }

  lemma Regroup(a: nat, p: nat)
    ensures a * (256 * p) == 256 * (a * p)
  {
  }

  lemma Distribute(a: nat, b: nat, p: nat)
    ensures (a + b) * p == a * p + b * p
  {
  }

  lemma CarryByte(acc: nat, b: nat, p: nat)
    ensures (256 * acc + b) * p == acc * (256 * p) + b * p
  {
    Distribute(256 * acc, b, p);
  }

  lemma {:induction false} FoldIsNumber(t: bytes, acc: nat)
    ensures Fold(t, acc) == acc * Pow256(|t|) + Number(t)
  {
    if |t| > 0 {
      FoldIsNumber(t[1..], 256 * acc + t[0]);
      NumberCons(t[0], t[1..]);
      assert [t[0]] + t[1..] == t;
      CarryByte(acc, t[0], Pow256(|t| - 1));
    }
  }

  /** The weights of the count and of the sign in the leading byte. */
  function CountWeight(kind: Kind): nat
  {
    match kind
    case Unsigned2 => 0x80 case Signed2 => 0x80
    case Unsigned4 => 0x40 case Signed4 => 0x40
    case Unsigned8 => 0x20
  }

  function SignWeight(kind: Kind): nat { if kind.Signed2? then 0x40 else 0x20 }

  lemma LeadWeights(kind: Kind, n: nat, negative: bool, field: nat)
    requires n <= kind.MaxCount() && field < kind.Field() && (negative ==> kind.HasSign())
    ensures kind.Lead(n, negative, field) == CountWeight(kind) * n + (if negative then SignWeight(kind) else 0) + field
  {
  }

  lemma TailNumber(kind: Kind, m: nat, n: nat)
    ensures Shift(m, n) * Pow256(n) + Number(Tail(kind, m, n)) == Clipped(kind, m, n, 0)
  {
    FoldTail(kind, m, n, 0);
    FoldIsNumber(Tail(kind, m, n), Shift(m, n));
  }

  lemma SplitLead(lead: nat, high: nat, field: nat, p: nat)
    requires lead == high + field
    ensures lead * p == high * p + field * p
  {
    Distribute(high, field, p);
  }

  lemma LeadNumber(lead: byte, high: nat, field: nat, tail: bytes)
    requires lead == high + field
    ensures Number([lead] + tail) == high * Pow256(|tail|) + (field * Pow256(|tail|) + Number(tail))
  {
    NumberCons(lead, tail);
    SplitLead(lead, high, field, Pow256(|tail|));
  }

  /** The wire form, read as one number, is the magnitude that survives with the count of the bytes behind the leading
      one, and the sign, above it. */
  lemma WireIsNumber(kind: Kind, v: int)
    requires kind.InRange(v)
    ensures var w, n := Wire(kind, v), |Wire(kind, v)| - 1;
            && n >= 0
            && Number(w) == (CountWeight(kind) * n + if v < 0 then SignWeight(kind) else 0) * Pow256(n)
                            + Magnitude(Survives(kind, v))
  {
    var m := Magnitude(v);
    var n := Following(kind, m);
    var tail := Tail(kind, m, n);
    var high := CountWeight(kind) * n + if v < 0 then SignWeight(kind) else 0;
    WireParts(kind, v);
    LeadWeights(kind, n, v < 0, Shift(m, n));
    LeadNumber(kind.Lead(n, v < 0, Shift(m, n)), high, Shift(m, n), tail);
    TailNumber(kind, m, n);
  }

  /** The magnitudes up to which n bytes follow the leading one. */
  function Most(kind: Kind, n: nat): int
  {
    match kind
    case Unsigned2 => if n == 0 then 0x7E else 0x7FFF
    case Signed2 => if n == 0 then 0x3E else 0x3FFF
    case Unsigned4 => 0x40 * Pow256(n) - 1
    case _ => 0x20 * Pow256(n) - 1
  }

  lemma {:induction false} LimitIsPower(f: nat, n: nat)
    ensures Limit(f, n) == f * Pow256(n)
  {
    if n > 0 {
      LimitIsPower(f, n - 1);
      assert f * (256 * Pow256(n - 1)) == 256 * (f * Pow256(n - 1));
    }
  }

  lemma {:induction false} CountBounds(m: nat, f: nat)
    requires f > 0
    ensures m < Limit(f, Count(m, f)) && (Count(m, f) > 0 ==> m >= Limit(f, Count(m, f) - 1))
  {
    if m >= f { CountBounds(m / 256, f); }
  }

  /** The number of bytes is the least that holds the magnitude; the two-byte kinds write their limit with one more. */
  lemma WireLength(kind: Kind, v: int)
    requires kind.InRange(v)
    ensures var n := |Wire(kind, v)| - 1;
            && 0 <= n <= kind.MaxCount()
            && Magnitude(v) <= Most(kind, n) && (n > 0 ==> Magnitude(v) > Most(kind, n - 1))
  {
    WireParts(kind, v);
    var m, f := Magnitude(v), kind.Field();
    if kind.MaxCount() != 1 {
      var n := Count(m, f);
      CountBounds(m, f);
      LimitIsPower(f, n);
      if n > 0 { LimitIsPower(f, n - 1); }
    }
  }

  lemma {:induction false} NumberBound(t: bytes)
    ensures Number(t) < Pow256(|t|)
  {
    if |t| > 0 { NumberBound(t[..|t| - 1]); }
  }

  lemma FoldBound(t: bytes, field: nat, limit: nat)
    requires field < limit
    ensures Fold(t, field) < limit * Pow256(|t|)
  {
    FoldIsNumber(t, field);
    NumberBound(t);
    Distribute(field, 1, Pow256(|t|));
    Scales(field + 1, limit, Pow256(|t|));
  }

  lemma Scales(a: nat, b: nat, p: nat)
    requires a <= b
    ensures a * p <= b * p
  {
  }

  lemma {:induction false} PowerMonotone(a: nat, b: nat)
    requires a <= b
    ensures Pow256(a) <= Pow256(b)
  {
    if a < b { PowerMonotone(a, b - 1); }
  }

  lemma Powers()
    ensures Pow256(1) == 0x100 && Pow256(3) == 0x100_0000 && Pow256(7) == 0x100_0000_0000_0000
  {
    assert Pow256(2) == 0x1_0000 && Pow256(4) == 0x1_0000_0000 && Pow256(5) == 0x100_0000_0000;
    assert Pow256(6) == 0x1_0000_0000_0000;
  }

  /** The range of a kind is all that its wire form can hold: whatever a reader returns lies in it. */
  lemma DecodedInRange(kind: Kind, s: bytes)
    ensures Decode(kind, s).Some? ==> kind.InRange(Decode(kind, s).value.0)
  {
    if Decode(kind, s).Some? {
      var count := kind.CountOf(s[0]);
      FoldBound(s[1..1 + count], kind.FieldOf(s[0]), kind.Field());
      PowerMonotone(count, kind.MaxCount());
      Scales(Pow256(count), Pow256(kind.MaxCount()), kind.Field());
      Powers();
    }
  }

  datatype Item = Item(kind: Kind, value: int)

  function WireAll(items: seq<Item>): bytes
    requires forall x :: x in items ==> x.kind.InRange(x.value)
  {
    if |items| == 0 then [] else Wire(items[0].kind, items[0].value) + WireAll(items[1..])
  }

  /** Reads one integer of each given kind in turn. */
  function DecodeAll(items: seq<Item>, s: bytes): Option<(seq<int>, nat)>
  {
    if |items| == 0 then Some(([], 0))
    else
      var head := Decode(items[0].kind, s);
      if head.None? || head.value.1 > |s| then None
      else
        var tail := DecodeAll(items[1..], s[head.value.1..]);
        if tail.None? then None
        else Some(([head.value.0] + tail.value.0, head.value.1 + tail.value.1))
  }

  function Values(items: seq<Item>): seq<int>
  {
    if |items| == 0 then [] else [items[0].value] + Values(items[1..])
  }

  /** A value that its kind carries without loss. */
  ghost predicate Carried(x: Item)
  {
    && x.kind.InRange(x.value)
    && (x.kind.Unsigned8? ==> Sparse(Magnitude(x.value), Following(x.kind, Magnitude(x.value)), 0))
  }

  lemma DecodeOne(x: Item, rest: bytes)
    requires Carried(x)
    ensures Decode(x.kind, Wire(x.kind, x.value) + rest) == Some((x.value, |Wire(x.kind, x.value)|))
  {
    DecodeWire(x.kind, x.value, rest);
    SurvivesIsIdentity(x.kind, x.value);
  }

  /** Integers written back to back, in any mix of kinds, read back as the same sequence with exact consumption. */
  lemma {:induction false} DecodeWireAll(items: seq<Item>, rest: bytes)
    requires forall x :: x in items ==> x.kind.InRange(x.value)
    requires forall x :: x in items && x.kind.Unsigned8? ==>
               Sparse(Magnitude(x.value), Following(x.kind, Magnitude(x.value)), 0)
    ensures DecodeAll(items, WireAll(items) + rest) == Some((Values(items), |WireAll(items)|))
  {
    if |items| > 0 {
      var x, tail := items[0], items[1..];
      var w, more := Wire(x.kind, x.value), WireAll(tail) + rest;
      DecodeOne(x, more);
      DecodeWireAll(tail, rest);
      assert (w + more)[|w|..] == more;
      Associates(w, WireAll(tail), rest);
    }
  }

  // --- The writers and readers on a stream ---

  /** The bytes of m below the leading byte, highest first. */
  method WriteTail(s: Stream, kind: Kind, m: nat, n: nat)
    requires s.Valid() && s.position + n <= |s.buffer|
    modifies s
    ensures s.Valid() && s.Written() == old(s.Written()) + Tail(kind, m, n)
  {
    var j := n;
    ghost var done: bytes := [];
    while j > 0
      invariant 0 <= j <= n && s.Valid() && s.position + j <= |s.buffer|
      invariant s.Written() == old(s.Written()) + done
      invariant done + Tail(kind, m, j) == Tail(kind, m, n)
    {
      j := j - 1;
      var b := Kept(kind, Shift(m, j) % 256, j);
      s.WriteU8(b);
      TailStep(kind, m, j + 1);
      Associates(done, [b], Tail(kind, m, j));
      done := done + [b];
    }
  }

  /** The leading byte, its fields joined as in the writers. */
  method WriteLead(s: Stream, kind: Kind, n: nat, negative: bool, field: nat)
    requires s.Valid() && s.position < |s.buffer|
    requires n <= kind.MaxCount() && field < kind.Field() && (negative ==> kind.HasSign())
    modifies s
    ensures s.Valid() && |s.buffer| == old(|s.buffer|) && s.position == old(s.position) + 1
    ensures s.Written() == old(s.Written()) + [kind.Lead(n, negative, field)]
  {
    var unit := if kind.MaxCount() == 1 then 0x80 else if kind.MaxCount() == 3 then 0x40 else 0x20;
    s.WriteU8(field % kind.Field() + (if negative then kind.Field() else 0) + unit * n);
  }

  /** The leading byte and the bytes behind it. */
  method WriteParts(s: Stream, kind: Kind, v: int, n: nat)
    requires kind.InRange(v) && n == Following(kind, Magnitude(v))
    requires s.Valid() && s.position + 1 + n <= |s.buffer|
    modifies s
    ensures s.Valid() && s.Written() == old(s.Written()) + Wire(kind, v)
  {
    ghost var before := s.Written();
    WireParts(kind, v);
    var m := Magnitude(v);
    WriteLead(s, kind, n, v < 0, Shift(m, n));
    WriteTail(s, kind, m, n);
    Associates(before, [kind.Lead(n, v < 0, Shift(m, n))], Tail(kind, m, n));
  }

  method Write2ByteUnsigned(s: Stream, value: nat, more: bytes) returns (ok: bool)
    requires s.Valid() && Unsigned2.HasType(value)
    modifies s
    ensures s.Valid() && ok == Unsigned2.InRange(value)
    ensures s.Written() == old(s.Written()) + if ok then Wire(Unsigned2, value) else []
  {
    s.EnsureRemainingCapacity(2, more);
    if value > 0x7FFF { return false; }
    if value >= 0x7F {
      WriteLead(s, Unsigned2, 1, false, value / 256 % 128);
      WriteTail(s, Unsigned2, value, 1);
      assert Shift(value, 1) == value / 256;
    } else {
      WriteLead(s, Unsigned2, 0, false, value % 128);
    }
    return true;
  }

  /** The least integer is the one argument outside the wire range that is not refused: its negation is itself. */
  method Write2ByteSigned(s: Stream, value: int, more: bytes) returns (ok: bool)
    requires s.Valid() && Signed2.HasType(value)
    modifies s
    ensures s.Valid() && ok == (Signed2.InRange(value) || value == -0x8000)
    ensures s.Written() == old(s.Written()) +
                           if Signed2.InRange(value) then Wire(Signed2, value) else if ok then [0x40] else []
  {
    s.EnsureRemainingCapacity(2, more);
    var negative := value < 0;
    var v := if value == -0x8000 then value else Magnitude(value);
    if v > 0x3FFF { return false; }
    if v >= 0x3F {
      WriteLead(s, Signed2, 1, negative, v / 256 % 64);
      WriteTail(s, Signed2, v, 1);
      assert Shift(v, 1) == v / 256;
    } else {
      WriteLead(s, Signed2, 0, negative, v % 64);
    }
    return true;
  }

  method Write4ByteUnsigned(s: Stream, value: nat, more: bytes) returns (ok: bool)
    requires s.Valid() && Unsigned4.HasType(value)
    modifies s
    ensures s.Valid() && ok == Unsigned4.InRange(value)
    ensures s.Written() == old(s.Written()) + if ok then Wire(Unsigned4, value) else []
  {
    s.EnsureRemainingCapacity(4, more);
    var n;
    if value <= 0x3F { n := 0; }
    else if value <= 0x3FFF { n := 1; }
    else if value <= 0x3F_FFFF { n := 2; }
    else if value <= 0x3FFF_FFFF { n := 3; }
    else { return false; }
    CountIs(value, 0x40, n);
    WriteParts(s, Unsigned4, value, n);
    return true;
  }

  /** The chain of limits for a magnitude. */
  method WriteMagnitude4(s: Stream, value: int) returns (ok: bool)
    requires s.Valid() && s.position + 4 <= |s.buffer|
    modifies s
    ensures s.Valid() && ok == Signed4.InRange(value)
    ensures s.Written() == old(s.Written()) + if ok then Wire(Signed4, value) else []
  {
    var v, n := Magnitude(value), 0;
    if v <= 0x1F { n := 0; }
    else if v <= 0x1FFF { n := 1; }
    else if v <= 0x1F_FFFF { n := 2; }
    else if v <= 0x1FFF_FFFF { n := 3; }
    else { return false; }
    CountIs(v, 0x20, n);
    WriteParts(s, Signed4, value, n);
    return true;
  }

  /** As in the two-byte writer, with the negation of the least integer wrapping around. */
  method Write4ByteSigned(s: Stream, value: int, more: bytes) returns (ok: bool)
    requires s.Valid() && Signed4.HasType(value)
    modifies s
    ensures s.Valid() && ok == (Signed4.InRange(value) || value == -0x8000_0000)
    ensures s.Written() == old(s.Written()) +
                           if Signed4.InRange(value) then Wire(Signed4, value) else if ok then [0x20] else []
  {
    s.EnsureRemainingCapacity(4, more);
    if value == -0x8000_0000 {
      WriteLead(s, Signed4, 0, true, 0);
      return true;
    }
    ok := WriteMagnitude4(s, value);
  }

  /** The number of bytes behind the leading one, None for a value out of range. */
  method Following8(value: nat) returns (n: Option<nat>)
    ensures n.Some? == Unsigned8.InRange(value)
    ensures n.Some? ==> n.value == Count(value, 0x20) <= 7 && Shift(value, n.value) < 0x20
  {
    var k := 0;
    if value <= 0x1F { k := 0; }
    else if value <= 0x1FFF { k := 1; }
    else if value <= 0x1F_FFFF { k := 2; }
    else if value <= 0x1FFF_FFFF { k := 3; }
    else if value <= 0x1F_FFFF_FFFF { k := 4; }
    else if value <= 0x1FFF_FFFF_FFFF { k := 5; }
    else if value <= 0x1F_FFFF_FFFF_FFFF { k := 6; }
    else if value <= 0x1FFF_FFFF_FFFF_FFFF { k := 7; }
    else { return None; }
    CountIs(value, 0x20, k);
    return Some(k);
  }

  method Write8ByteUnsigned(s: Stream, value: nat, more: bytes) returns (ok: bool)
    requires s.Valid() && Unsigned8.HasType(value)
    modifies s
    ensures s.Valid() && ok == Unsigned8.InRange(value)
    ensures s.Written() == old(s.Written()) + if ok then Wire(Unsigned8, value) else []
  {
    s.EnsureRemainingCapacity(8, more);
    var n := Following8(value);
    if n.None? { return false; }
    WriteParts(s, Unsigned8, value, n.value);
    return true;
  }

  /** The chain of limits in the writers: f * 256^n, for n up to 7. */
  function Limit(f: nat, n: nat): nat
  {
    if n == 0 then f else 256 * Limit(f, n - 1)
  }

  lemma {:induction false} CountIs(m: nat, f: nat, n: nat)
    requires f > 0 && m < Limit(f, n) && (n > 0 ==> m >= Limit(f, n - 1))
    ensures Count(m, f) == n && Shift(m, n) < f
    decreases n
  {
    if n > 0 {
      assert n > 1 ==> Limit(f, n - 1) == 256 * Limit(f, n - 2);
      LimitGrows(f, n - 1);
      CountIs(m / 256, f, n - 1);
    }
  }

  lemma {:induction false} LimitGrows(f: nat, n: nat)
    ensures Limit(f, n) >= f
  {
    if n > 0 { LimitGrows(f, n - 1); }
  }

  /** The leading field followed by `count` more bytes. */
  method ReadFollowing(s: Stream, field: nat, count: nat) returns (value: nat)
    requires s.Valid() && s.position + count <= |s.buffer|
    modifies s`position
    ensures s.Valid() && value == Fold(old(s.Rest())[..count], field) && s.Rest() == old(s.Rest())[count..]
  {
    value := field;
    ghost var all := s.Rest();
    for k := 0 to count
      invariant s.Valid() && s.position == old(s.position) + k && s.Rest() == all[k..]
      invariant Fold(all[k..count], value) == Fold(all[..count], field)
    {
      var b := s.ReadU8();
      assert all[k..count][1..] == all[k + 1..count] && b == all[k];
      value := 256 * value + b;
    }
  }

  /** Every reader: the leading byte tells how many bytes follow. */
  method ReadInteger(s: Stream, kind: Kind) returns (ok: bool, value: int)
    requires s.Valid()
    modifies s`position
    ensures s.Valid()
    ensures var d := Decode(kind, old(s.Rest()));
            ok == d.Some? && (ok ==> value == d.value.0 && s.Rest() == old(s.Rest())[d.value.1..])
  {
    value := 0;
    if |s.buffer| - s.position < 1 { return false, value; }
    ghost var all := s.Rest();
    var b := s.ReadU8();
    assert all[0] == b && s.Rest() == all[1..];
    var count := kind.CountOf(b);
    if |s.buffer| - s.position < count { return false, value; }
    var m := ReadFollowing(s, kind.FieldOf(b), count);
    assert all[1..][..count] == all[1..1 + count] && all[1..][count..] == all[1 + count..];
    value := m;
    if kind.NegativeOf(b) { value := -value; }
    ok := true;
  }
}
