/**
 The clipboard format list on the wire (channels/cliprdr/cliprdr_common.c; section 2.2.3.1 of MS-RDPECLIP).
 Long form: a 4-byte id and a null-terminated UTF-16 name per format.  Short form: records of 36 bytes.
 Names inside the program are C strings; the model writes ASCII names, where one byte is one UTF-16 unit,
 and reads any data, with the conversion of names to UTF-8 left abstract.
 */
module FormatList {
  import opened Common

  predicate Ascii(name: bytes) { forall i :: 0 <= i < |name| ==> 0 < name[i] < 128 }

  predicate WellTyped(fs: seq<Format>)
  {
    forall f :: f in fs ==> f.id < U32 && (f.name.Some? ==> Ascii(f.name.value))
  }

  /** ConvertWCharNToUtf8Alloc on a name without terminator. */
  type Conversion = seq<u16> -> Option<bytes>

  function AsUnits(name: bytes): (r: seq<u16>)
    ensures |r| == |name|
  {
    seq(|name|, i requires 0 <= i < |name| => name[i])
  }

  /** Of the conversion only this is needed: it yields an ASCII name for the very units of that name alone. */
  ghost predicate AsciiExact(conv: Conversion)
  {
    forall u: seq<u16>, n: bytes :: NoZero(u) && n != [] && Ascii(n) ==> (conv(u) == Some(n) <==> u == AsUnits(n))
  }

  /** Names are converted up to their terminator, so no unit is zero. */
  predicate NoZero(u: seq<u16>) { forall i :: 0 <= i < |u| ==> u[i] != 0 }

  // --- Records of the long form ---

  /** A record as the wire has it. */
  datatype Raw = Raw(id: nat, units: seq<u16>) {
    predicate Valid() { id < U32 && NoZero(units) }
  }

  function RawBytes(r: Raw): bytes
    requires r.Valid()
  {
    Le32(r.id) + Halves(r.units) + [0, 0]
  }

  predicate AllValid(rs: seq<Raw>) { forall r :: r in rs ==> r.Valid() }

  function Partition(rs: seq<Raw>): bytes
    requires AllValid(rs)
  {
    if |rs| == 0 then [] else RawBytes(rs[0]) + Partition(rs[1..])
  }

  lemma PartitionCons(r: Raw, rs: seq<Raw>)
    requires r.Valid() && AllValid(rs)
    ensures AllValid([r] + rs) && Partition([r] + rs) == RawBytes(r) + Partition(rs)
  {
    assert ([r] + rs)[1..] == rs;
  }

  /** _wcsnlen over all whole units that are left. */
  function NameLength(t: bytes): (n: nat)
    ensures n <= |t| / 2
  {
    if |t| < 2 || U16At(t, 0) == 0 then 0 else 1 + NameLength(t[2..])
  }

  function Units(t: bytes, n: nat): (u: seq<u16>)
    requires 2 * n <= |t|
    ensures |u| == n
  {
    if n == 0 then [] else [U16At(t, 0)] + Units(t[2..], n - 1)
  }

  /** The bytes of the first record of s, or None where it is cut short. */
  function FirstRecord(s: bytes): (r: Option<nat>)
    ensures r.Some? ==> 6 <= r.value <= |s|
  {
    if |s| < 4 then None
    else
      var n := NameLength(s[4..]);
      if |s| < 4 + 2 * (n + 1) then None else Some(4 + 2 * (n + 1))
  }

  /** The first record of s. */
  function Head(s: bytes): Raw
    requires FirstRecord(s).Some?
  {
    Raw(U32At(s, 0), Units(s[4..], NameLength(s[4..])))
  }

  /** The records of the data, or None where it does not end with a whole record. */
  function Parse(s: bytes): Option<seq<Raw>>
  {
    if |s| == 0 then Some([])
    else
      var k := FirstRecord(s);
      if k.None? then None
      else
        var more := Parse(s[k.value..]);
        if more.None? then None
        else Some([Head(s)] + more.value)
  }

  /** How many whole records precede the first that is cut short. */
  function WholeRecords(s: bytes): nat
  {
    var k := FirstRecord(s);
    if k.None? then 0 else 1 + WholeRecords(s[k.value..])
  }

  lemma {:induction false} ReadName(u: seq<u16>, rest: bytes)
    requires forall i :: 0 <= i < |u| ==> u[i] != 0
    ensures var t := Halves(u) + [0, 0] + rest;
            NameLength(t) == |u| && Units(t, |u|) == u
  {
    var t := Halves(u) + [0, 0] + rest;
    if |u| > 0 {
      assert t[0..2] == Le16(u[0]);
      Le16Value(u[0], t, 0);
      assert t[2..] == Halves(u[1..]) + [0, 0] + rest;
      ReadName(u[1..], rest);
    } else {
      assert t[0..2] == Le16(0);
      Le16Value(0, t, 0);
    }
  }

  lemma {:induction false} NameBytes(t: bytes)
    requires |t| >= 2 * (NameLength(t) + 1)
    ensures var n := NameLength(t);
            && t[..2 * (n + 1)] == Halves(Units(t, n)) + [0, 0]
            && forall i :: 0 <= i < n ==> Units(t, n)[i] != 0
  {
    var n := NameLength(t);
    U16AtBytes(t, 0);
    if n == 0 {
      assert t[0..2] == Le16(0);
    } else {
      NameBytes(t[2..]);
      assert Units(t, n)[1..] == Units(t[2..], n - 1);
      assert t[..2 * (n + 1)] == t[0..2] + t[2..][..2 * n];
    }
  }

  lemma HeadBytes(s: bytes)
    requires FirstRecord(s).Some?
    ensures Head(s).Valid() && RawBytes(Head(s)) == s[..FirstRecord(s).value]
  {
    var k := FirstRecord(s).value;
    NameBytes(s[4..]);
    U32AtBytes(s, 0);
    assert s[..k] == s[0..4] + s[4..][..k - 4];
  }

  lemma HeadOfBytes(r: Raw, more: bytes)
    requires r.Valid()
    ensures var s := RawBytes(r) + more;
            FirstRecord(s) == Some(|RawBytes(r)|) && Head(s) == r
  {
    var s := RawBytes(r) + more;
    assert s[0..4] == Le32(r.id);
    Le32Value(r.id, s, 0);
    assert s[4..] == Halves(r.units) + [0, 0] + more;
    ReadName(r.units, more);
  }

  /** Parsing undoes partitioning. */
  lemma {:induction false} ParsePartition(rs: seq<Raw>)
    requires AllValid(rs)
    ensures Parse(Partition(rs)) == Some(rs)
  {
    if |rs| > 0 {
      var r, s, more := rs[0], Partition(rs), Partition(rs[1..]);
      assert s == RawBytes(r) + more;
      HeadOfBytes(r, more);
      assert s[|RawBytes(r)|..] == more;
      ParsePartition(rs[1..]);
      ParseStep(s, |RawBytes(r)|, more);
      assert [r] + rs[1..] == rs;
    }
  }

  lemma HeadThenRest(s: bytes, k: nat, more: seq<Raw>)
    requires FirstRecord(s) == Some(k) && AllValid(more) && Partition(more) == s[k..]
    ensures AllValid([Head(s)] + more) && Partition([Head(s)] + more) == s
  {
    HeadBytes(s);
    PartitionCons(Head(s), more);
  }

  /** Data that parses is exactly partitioned into its records. */
  lemma {:induction false} PartitionParse(s: bytes, rs: seq<Raw>)
    requires Parse(s) == Some(rs)
    ensures AllValid(rs) && Partition(rs) == s && |rs| == WholeRecords(s)
  {
    if |s| > 0 {
      var k := FirstRecord(s).value;
      ParseStep(s, k, s[k..]);
      PartitionParse(s[k..], rs[1..]);
      HeadThenRest(s, k, rs[1..]);
      assert rs == [Head(s)] + rs[1..];
    }
  }

  // --- Writing the long form ---

  /** The bytes of one record as the second pass writes them.  A name that is present but empty gets no
      terminator: Stream_Write_UTF16_String_From_UTF8 returns before writing anything. */
  function LongRecord(f: Format): bytes
    requires f.id < U32
  {
    Le32(f.id) +
    match f.name
    case None => [0, 0]
    case Some(n) => if n == [] then [] else Halves(AsUnits(n)) + [0, 0]
  }

  function LongBody(fs: seq<Format>): bytes
    requires WellTyped(fs)
  {
    if |fs| == 0 then [] else LongBody(fs[..|fs| - 1]) + LongRecord(fs[|fs| - 1])
  }

  /** The first pass's share of one format. */
  function Counted(f: Format): nat
  {
    4 + match f.name case None => 2 case Some(n) => 2 * (|n| + 1)
  }

  function CountedAll(fs: seq<Format>): nat
  {
    if |fs| == 0 then 0 else CountedAll(fs[..|fs| - 1]) + Counted(fs[|fs| - 1])
  }

  predicate EmptyName(f: Format) { f.name == Some([]) }

  /** What the first pass counts is what the second pass writes exactly when no name is present but empty;
      otherwise it is more, so the packet never outgrows its allocation. */
  lemma {:induction false} CountedIsWritten(fs: seq<Format>)
    requires WellTyped(fs)
    ensures |LongBody(fs)| <= CountedAll(fs)
    ensures |LongBody(fs)| == CountedAll(fs) <==> forall f :: f in fs ==> !EmptyName(f)
  {
    if |fs| > 0 {
      var before, f := fs[..|fs| - 1], fs[|fs| - 1];
      assert fs == before + [f] && f in fs;
      assert forall g :: g in before ==> g in fs;
      CountedIsWritten(before);
    }
  }

  lemma {:induction false} CountedMonotone(fs: seq<Format>, k: nat)
    requires k <= |fs|
    ensures CountedAll(fs[..k]) <= CountedAll(fs)
    decreases |fs|
  {
    if k < |fs| {
      assert fs[..|fs| - 1][..k] == fs[..k];
      CountedMonotone(fs[..|fs| - 1], k);
    } else {
      assert fs[..k] == fs;
    }
  }

  /** Stream_Write_UTF16_String_From_UTF8 with fill, for an ASCII source. */
  method WriteUtf16(s: Stream, dlen: nat, src: bytes, length: nat) returns (ok: bool)
    requires s.Valid() && length <= |src| && length < dlen && Ascii(src)
    modifies s
    ensures s.Valid() && |s.buffer| == old(|s.buffer|)
    ensures ok <==> length == 0 || old(s.position) + 2 * dlen <= |s.buffer|
    ensures ok ==> s.Written() == old(s.Written()) +
                                  if length == 0 then []
                                  else Halves(AsUnits(src[..length])) + Zeros(2 * (dlen - length))
    ensures !ok ==> s.Written() == old(s.Written())
  {
    if length == 0 { return true; }
    if |s.buffer| - s.position < 2 * dlen { return false; }
    UnitBytesAppend(src, 0);
    assert src[..0] == [];
    for i := 0 to length
      invariant s.Valid() && |s.buffer| == old(|s.buffer|) && s.position == old(s.position) + 2 * i
      invariant s.Written() == old(s.Written()) + Halves(AsUnits(src[..i]))
    {
      s.WriteU16(src[i]);
      UnitBytesAppend(src, i);
    }
    s.Write(Zeros(2 * (dlen - length)));
    ok := true;
  }

  function Strnlen(s: bytes, max: nat): nat { if |s| < max then |s| else max }

  function Zeros(n: nat): (r: bytes)
    ensures |r| == n
  {
    seq(n, _ => 0)
  }

  lemma {:induction false} UnitBytesConcat(a: seq<u16>, b: seq<u16>)
    ensures Halves(a + b) == Halves(a) + Halves(b)
  {
    if |a| == 0 {
      assert a + b == b;
    } else {
      assert (a + b)[1..] == a[1..] + b;
      UnitBytesConcat(a[1..], b);
    }
  }

  lemma OneUnit(u: u16)
    ensures Halves([u]) == Le16(u)
  {
    assert Halves([u]) == Le16(u) + Halves([]);
  }

  lemma UnitBytesAppend(src: bytes, i: nat)
    ensures Halves(AsUnits([])) == []
    ensures i < |src| ==> Halves(AsUnits(src[..i + 1])) == Halves(AsUnits(src[..i])) + Le16(src[i])
  {
    if i < |src| {
      var last: seq<u16> := [src[i]];
      assert AsUnits(src[..i + 1]) == AsUnits(src[..i]) + last;
      UnitBytesConcat(AsUnits(src[..i]), last);
      OneUnit(src[i]);
    }
  }

  lemma AddWraps(a: nat, b: nat)
    ensures (a % 0x1_0000_0000 + b) % 0x1_0000_0000 == (a + b) % 0x1_0000_0000
  {
  }

  /** The first pass; the sum is kept in 32 bits. */
  method CountLongList(fs: seq<Format>) returns (length: nat)
    ensures length == CountedAll(fs) % U32
  {
    length := 0;
    for index := 0 to |fs|
      invariant length == CountedAll(fs[..index]) % U32
    {
      assert fs[..index + 1][..index] == fs[..index];
      var nameSize := 2;
      if fs[index].name.Some? { nameSize := (|fs[index].name.value| + 1) * 2; }
      AddWraps(CountedAll(fs[..index]), 4 + nameSize);
      length := (length + 4 + nameSize) % U32;
    }
    assert fs[..|fs|] == fs;
  }

  const HEADER: nat := 8

  /** The room for the body of a packet: its length and the eight bytes in front are added in 32 bits.  None where that
      leaves no room for the eight bytes. */
  function Room(length: nat): Option<nat>
  {
    var capacity := (length % U32 + HEADER) % U32;
    if capacity < HEADER then None else Some(capacity - HEADER)
  }

  lemma RoomExact(length: nat)
    ensures length + HEADER < U32 ==> Room(length) == Some(length)
    ensures length + HEADER >= U32 && Room(length).Some? ==>
              Room(length).value < length && length - Room(length).value >= U32
  {
  }

  /** One round of the second pass.  It fails where a write has no room: the stream asserts that, and a name without
      room makes the list be given up. */
  method WriteLongRecord(s: Stream, f: Format) returns (ok: bool)
    requires s.Valid() && f.id < U32 && (f.name.Some? ==> Ascii(f.name.value))
    modifies s
    ensures s.Valid() && |s.buffer| == old(|s.buffer|)
    ensures old(s.position) + Counted(f) <= |s.buffer| ==> ok && s.Written() == old(s.Written()) + LongRecord(f)
  {
    if |s.buffer| - s.position < 4 { return false; }
    s.WriteU32(f.id);
    if f.name.Some? {
      var n, rem := f.name.value, |s.buffer| - s.position;
      var len := Strnlen(n, rem / 2);
      ok := WriteUtf16(s, len + 1, n, len);
      assert len == |n| ==> n[..len] == n;
    } else {
      if |s.buffer| - s.position < 2 { return false; }
      s.WriteU16(0);
      ok := true;
    }
  }

  lemma {:induction false} CountedGap(fs: seq<Format>)
    requires WellTyped(fs)
    ensures CountedAll(fs) - |LongBody(fs)| <= 2 * |fs| && CountedAll(fs) >= 6 * |fs|
  {
    if |fs| > 0 {
      assert fs[|fs| - 1] in fs;
      CountedGap(fs[..|fs| - 1]);
    }
  }

  /** A body whose counted length wraps around does not fit. */
  lemma WrappedDoesNotFit(fs: seq<Format>)
    requires WellTyped(fs) && |fs| < U32 && CountedAll(fs) + HEADER >= U32 && Room(CountedAll(fs)).Some?
    ensures |LongBody(fs)| > Room(CountedAll(fs)).value
  {
    CountedGap(fs);
    var k := (CountedAll(fs) % U32 + HEADER) / U32 + CountedAll(fs) / U32;
    assert Room(CountedAll(fs)).value == CountedAll(fs) - k * 0x1_0000_0000;
  }

  lemma NextRecordFits(fs: seq<Format>, index: nat)
    requires WellTyped(fs) && index < |fs|
    ensures WellTyped(fs[..index]) && WellTyped(fs[..index + 1]) && WellTyped([fs[index]])
    ensures |LongBody(fs[..index])| + Counted(fs[index]) <= CountedAll(fs)
    ensures LongBody(fs[..index + 1]) == LongBody(fs[..index]) + LongRecord(fs[index])
  {
    assert fs[index] in fs && fs[..index + 1] == fs[..index] + [fs[index]];
    CountedMonotone(fs, index + 1);
    CountedIsWritten(fs[..index]);
  }

  /** The whole list is written exactly when its counted length and the header stay below 2^32. */
  method WriteLongList(fs: seq<Format>) returns (ok: bool, s: Stream)
    requires WellTyped(fs) && |fs| < U32
    ensures fresh(s) && s.Valid()
    ensures ok && s.Written() == LongBody(fs) <==> CountedAll(fs) + HEADER < U32
    ensures CountedAll(fs) + HEADER < U32 ==> |s.buffer| == CountedAll(fs)
  {
    var length := CountLongList(fs);
    var room := Room(length);
    RoomExact(CountedAll(fs));
    assert room == Room(CountedAll(fs));
    if room.None? {
      s := new Stream([]);
      return false, s;
    }
    s := new Stream(Zeros(room.value));
    ok := true;
    for index := 0 to |fs|
      invariant fresh(s) && s.Valid() && |s.buffer| == room.value
      invariant WellTyped(fs[..index])
      invariant CountedAll(fs) + HEADER < U32 ==> ok && s.Written() == LongBody(fs[..index])
    {
      NextRecordFits(fs, index);
      ok := WriteLongRecord(s, fs[index]);
      if !ok { break; }
    }
    assert fs[..|fs|] == fs;
    if CountedAll(fs) + HEADER >= U32 { WrappedDoesNotFit(fs); }
  }

  // --- Reading the long form ---

  datatype Error = Success | InvalidData | InternalError

  /** What the caller finds: on a failing exit there are no formats, but the count may be left behind. */
  datatype Reading = Reading(error: Error, numFormats: nat, formats: Option<seq<Format>>)

  function Convert(r: Raw, conv: Conversion): Option<Format>
  {
    if r.units == [] then Some(Format(r.id, None))
    else if conv(r.units).None? then None
    else Some(Format(r.id, conv(r.units)))
  }

  function ConvertAll(rs: seq<Raw>, conv: Conversion): (r: Option<seq<Format>>)
    ensures r.Some? ==> |r.value| == |rs|
  {
    if |rs| == 0 then Some([])
    else
      var before, last := ConvertAll(rs[..|rs| - 1], conv), Convert(rs[|rs| - 1], conv);
      if before.None? || last.None? then None else Some(before.value + [last.value])
  }

  lemma ConvertStep(rs: seq<Raw>, conv: Conversion, i: nat)
    requires i < |rs|
    ensures var before, last := ConvertAll(rs[..i], conv), Convert(rs[i], conv);
            ConvertAll(rs[..i + 1], conv) ==
              if before.None? || last.None? then None else Some(before.value + [last.value])
  {
    assert rs[..i + 1][..i] == rs[..i];
  }

  lemma {:induction false} ConvertPrefix(rs: seq<Raw>, conv: Conversion, k: nat)
    requires k <= |rs| && ConvertAll(rs[..k], conv).None?
    ensures ConvertAll(rs, conv).None?
    decreases |rs|
  {
    if k < |rs| {
      assert rs[..|rs| - 1][..k] == rs[..k];
      ConvertPrefix(rs[..|rs| - 1], conv, k);
    } else {
      assert rs[..k] == rs;
    }
  }

  function LongReading(data: bytes, conv: Conversion): Reading
  {
    if |data| == 0 then Reading(Success, 0, None)
    else match Parse(data)
      case None => Reading(InternalError, WholeRecords(data), None)
      case Some(rs) =>
        match ConvertAll(rs, conv)
        case None => Reading(InternalError, 0, None)
        case Some(fs) => Reading(Success, |fs|, Some(fs))
  }

  /** The long reader succeeds exactly on data that is partitioned into records whose names all convert; where it is not
      partitioned it leaves the number of whole records behind. */
  lemma LongReadingExact(data: bytes, conv: Conversion)
    ensures var r := LongReading(data, conv);
            && (r.error == Success <==>
                  exists rs :: AllValid(rs) && Partition(rs) == data && ConvertAll(rs, conv).Some?)
            && r.error in {Success, InternalError}
            && r.numFormats == (if r.error == Success || Parse(data).None? then WholeRecords(data) else 0)
            && (r.formats.Some? <==> r.error == Success && data != [])
  {
    if Parse(data).Some? {
      var rs := Parse(data).value;
      PartitionParse(data, rs);
      assert ConvertAll(rs, conv).Some? ==> AllValid(rs) && Partition(rs) == data;
    }
    if r: seq<Raw> :| AllValid(r) && Partition(r) == data && ConvertAll(r, conv).Some? { ParsePartition(r); }
  }

  lemma ParseStep(s: bytes, k: nat, rest: bytes)
    requires FirstRecord(s) == Some(k) && rest == s[k..]
    ensures WholeRecords(s) == 1 + WholeRecords(rest)
    ensures Parse(s).Some? == Parse(rest).Some?
    ensures Parse(s).Some? ==> Parse(s).value == [Head(s)] + Parse(rest).value
  {
  }

  lemma ParsedData(s: bytes)
    requires Parse(s).Some?
    ensures |s| < 4 ==> s == [] && Parse(s).value == []
    ensures |s| >= 4 ==> FirstRecord(s).Some?
  {
  }

  /** Steps over the record at pos: its name length, or None where it is cut short. */
  method SkipRecord(data: bytes, pos: nat) returns (name: Option<nat>)
    requires pos <= |data|
    ensures name.Some? ==> pos + 4 + 2 * (name.value + 1) <= |data| && name.value == NameLength(data[pos..][4..])
    ensures FirstRecord(data[pos..]) == if name.Some? then Some(4 + 2 * (name.value + 1)) else None
  {
    if |data| - pos < 4 { return None; }
    assert data[pos..][4..] == data[pos + 4..];
    var n := NameLength(data[pos + 4..]);
    if |data| - (pos + 4) < (n + 1) * 2 { return None; }
    return Some(n);
  }

  /** The first pass: counts the whole records, and fails on one that is cut short. */
  method CountRecords(data: bytes) returns (ok: bool, numFormats: nat)
    ensures ok == Parse(data).Some? && numFormats == WholeRecords(data)
  {
    numFormats := 0;
    var pos := 0;
    ghost var rest := data;
    while |data| - pos > 0
      invariant 0 <= pos <= |data| && rest == data[pos..]
      invariant numFormats + WholeRecords(rest) == WholeRecords(data)
      invariant Parse(rest).Some? == Parse(data).Some?
      decreases |data| - pos
    {
      var name := SkipRecord(data, pos);
      if name.None? { return false, numFormats; }
      var k := 4 + (name.value + 1) * 2;
      ParseStep(rest, k, rest[k..]);
      pos := pos + k;
      rest := rest[k..];
      numFormats := numFormats + 1;
    }
    ok := true;
  }

  /** One record of the second pass, and where the next one starts. */
  method TakeRecord(data: bytes, pos: nat, conv: Conversion, ghost rest: bytes) returns (f: Option<Format>, next: nat)
    requires pos <= |data| && rest == data[pos..] && FirstRecord(rest).Some?
    ensures f == Convert(Head(rest), conv) && next == pos + FirstRecord(rest).value
  {
    var name := SkipRecord(data, pos);
    var n := name.value;
    next := pos + 4 + (n + 1) * 2;
    var id := U32At(data, pos);
    var units := Units(data[pos + 4..], n);
    assert rest[4..] == data[pos + 4..] && U32At(rest, 0) == id;
    if n == 0 { return Some(Format(id, None)), next; }
    var converted := conv(units);
    if converted.None? { return None, next; }
    return Some(Format(id, converted)), next;
  }

  lemma FillStep(rest: bytes, rs: seq<Raw>, index: nat, conv: Conversion)
    requires |rest| >= 4 && index <= |rs| && Parse(rest) == Some(rs[index..])
    ensures FirstRecord(rest).Some? && index < |rs| && Head(rest) == rs[index]
    ensures Parse(rest[FirstRecord(rest).value..]) == Some(rs[index + 1..])
    ensures var before, last := ConvertAll(rs[..index], conv), Convert(rs[index], conv);
            ConvertAll(rs[..index + 1], conv) ==
              if before.None? || last.None? then None else Some(before.value + [last.value])
  {
    ParsedData(rest);
    var k := FirstRecord(rest).value;
    ParseStep(rest, k, rest[k..]);
    assert rs[index..][0] == rs[index] && rs[index..][1..] == rs[index + 1..];
    ConvertStep(rs, conv, index);
  }

  /** The second pass: every record goes to its own place in the array, and the array is filled. */
  method FillRecords(data: bytes, conv: Conversion, formats: array<Format>, ghost rs: seq<Raw>) returns (ok: bool)
    requires Parse(data) == Some(rs) && formats.Length == |rs|
    modifies formats
    ensures ok == ConvertAll(rs, conv).Some?
    ensures ok ==> formats[..] == ConvertAll(rs, conv).value
  {
    var pos, index := 0, 0;
    ghost var rest := data;
    while |data| - pos >= 4
      invariant 0 <= pos <= |data| && rest == data[pos..]
      invariant 0 <= index <= formats.Length == |rs| && Parse(rest) == Some(rs[index..])
      invariant ConvertAll(rs[..index], conv) == Some(formats[..index])
      decreases |data| - pos
    {
      FillStep(rest, rs, index, conv);
      var f, next := TakeRecord(data, pos, conv, rest);
      if f.None? {
        ConvertPrefix(rs, conv, index + 1);
        return false;
      }
      formats[index] := f.value;
      assert formats[..index + 1] == formats[..index] + [f.value];
      rest := rest[FirstRecord(rest).value..];
      pos, index := next, index + 1;
    }
    ParsedData(rest);
    assert rs[..index] == rs && formats[..index] == formats[..];
    ok := true;
  }

  method ReadLongList(data: bytes, conv: Conversion) returns (r: Reading)
    ensures r == LongReading(data, conv)
  {
    if |data| == 0 { return Reading(Success, 0, None); }
    var ok, numFormats := CountRecords(data);
    if !ok { return Reading(InternalError, numFormats, None); }
    PartitionParse(data, Parse(data).value);
    var formats := new Format[numFormats](_ => Format(0, None));
    ok := FillRecords(data, conv, formats, Parse(data).value);
    if !ok { return Reading(InternalError, 0, None); }
    return Reading(Success, numFormats, Some(formats[..]));
  }

  // --- Round trip of the long form ---

  /** Empty names made absent. */
  function Normalized(f: Format): Format
  {
    if EmptyName(f) then f.(name := None) else f
  }

  function NormalizedAll(fs: seq<Format>): (r: seq<Format>)
    ensures |r| == |fs|
  {
    if |fs| == 0 then [] else NormalizedAll(fs[..|fs| - 1]) + [Normalized(fs[|fs| - 1])]
  }

  function RawOf(f: Format): Raw { Raw(f.id, if f.name.None? then [] else AsUnits(f.name.value)) }

  function RawAll(fs: seq<Format>): (r: seq<Raw>)
    ensures |r| == |fs|
  {
    if |fs| == 0 then [] else RawAll(fs[..|fs| - 1]) + [RawOf(fs[|fs| - 1])]
  }

  lemma {:induction false} PartitionSnoc(rs: seq<Raw>, r: Raw)
    requires AllValid(rs) && r.Valid()
    ensures AllValid(rs + [r]) && Partition(rs + [r]) == Partition(rs) + RawBytes(r)
  {
    if |rs| == 0 {
      PartitionCons(r, []);
      assert rs + [r] == [r] + [];
    } else {
      PartitionSnoc(rs[1..], r);
      PartitionCons(rs[0], rs[1..] + [r]);
      assert rs + [r] == [rs[0]] + (rs[1..] + [r]);
      Associates(RawBytes(rs[0]), Partition(rs[1..]), RawBytes(r));
    }
  }

  lemma RecordIsRaw(f: Format, conv: Conversion)
    requires WellTyped([f]) && AsciiExact(conv) && !EmptyName(f)
    ensures RawOf(f).Valid() && LongRecord(f) == RawBytes(RawOf(f)) && Convert(RawOf(f), conv) == Some(Normalized(f))
  {
    assert f in [f];
    match f.name {
      case None =>
        assert Halves([]) == [];
      case Some(n) =>
        assert NoZero(AsUnits(n)) && conv(AsUnits(n)) == Some(n);
    }
  }

  lemma {:induction false} LongBodyIsPartition(fs: seq<Format>, conv: Conversion)
    requires WellTyped(fs) && AsciiExact(conv) && forall f :: f in fs ==> !EmptyName(f)
    ensures AllValid(RawAll(fs)) && LongBody(fs) == Partition(RawAll(fs))
    ensures ConvertAll(RawAll(fs), conv) == Some(NormalizedAll(fs))
  {
    if |fs| > 0 {
      var before, f := fs[..|fs| - 1], fs[|fs| - 1];
      assert f in fs && forall g :: g in before ==> g in fs;
      LongBodyIsPartition(before, conv);
      RecordIsRaw(f, conv);
      PartitionSnoc(RawAll(before), RawOf(f));
      ConvertStep(RawAll(fs), conv, |fs| - 1);
      assert RawAll(fs)[..|fs| - 1] == RawAll(before) && RawAll(fs)[..|fs|] == RawAll(fs);
    }
  }

  lemma ConvertedRecord(r: Raw, g: Format, conv: Conversion)
    requires r.Valid() && AsciiExact(conv) && Convert(r, conv) == Some(g)
    requires g.name.Some? ==> Ascii(g.name.value) && g.name.value != []
    ensures |RawBytes(r)| == Counted(g)
  {
    if g.name.Some? {
      assert r.units == AsUnits(g.name.value);
    }
  }

  /** The bytes of records whose names convert to these formats. */
  lemma {:induction false} ConvertedLength(rs: seq<Raw>, gs: seq<Format>, conv: Conversion)
    requires AllValid(rs) && AsciiExact(conv) && ConvertAll(rs, conv) == Some(gs)
    requires forall g :: g in gs && g.name.Some? ==> Ascii(g.name.value) && g.name.value != []
    ensures |Partition(rs)| == CountedAll(gs)
  {
    if |rs| > 0 {
      var n := |rs| - 1;
      var before, r, g := rs[..n], rs[n], gs[n];
      assert rs == before + [r] && gs == gs[..n] + [g] && g in gs;
      ConvertStep(rs, conv, n);
      assert rs[..n + 1] == rs;
      ConvertedLength(before, gs[..n], conv);
      ConvertedRecord(r, g, conv);
      PartitionSnoc(before, r);
    }
  }

  lemma {:induction false} NormalizedNames(fs: seq<Format>)
    requires WellTyped(fs)
    ensures forall g :: g in NormalizedAll(fs) && g.name.Some? ==> Ascii(g.name.value) && g.name.value != []
    ensures CountedAll(NormalizedAll(fs)) == CountedAll(fs)
  {
    if |fs| > 0 {
      var before, f := fs[..|fs| - 1], fs[|fs| - 1];
      assert fs == before + [f] && f in fs && forall g :: g in before ==> g in fs;
      NormalizedNames(before);
      assert NormalizedAll(fs)[..|fs| - 1] == NormalizedAll(before);
    }
  }

  /** What a faithful reader finds: the formats with empty names made absent, and nothing at all for no formats. */
  function Faithful(fs: seq<Format>): Reading
  {
    if |fs| == 0 then Reading(Success, 0, None) else Reading(Success, |fs|, Some(NormalizedAll(fs)))
  }

  /** Writing a list of ASCII names in the long form and reading it back gives the list with empty names made
      absent exactly when no name is present but empty. */
  lemma LongRoundTrip(fs: seq<Format>, conv: Conversion)
    requires WellTyped(fs) && AsciiExact(conv)
    ensures LongReading(LongBody(fs), conv) == Faithful(fs) <==> forall f :: f in fs ==> !EmptyName(f)
  {
    var data := LongBody(fs);
    if forall f :: f in fs ==> !EmptyName(f) {
      LongBodyIsPartition(fs, conv);
      ParsePartition(RawAll(fs));
      CountedIsWritten(fs);
    } else if LongReading(data, conv) == Faithful(fs) {
      var rs := Parse(data).value;
      PartitionParse(data, rs);
      NormalizedNames(fs);
      ConvertedLength(rs, NormalizedAll(fs), conv);
      CountedIsWritten(fs);
    }
  }

  /** A present but empty name gets no terminator, and the reader finds no record at all. */
  lemma EmptyNameNotReadBack(id: nat, conv: Conversion)
    requires id < U32
    ensures LongReading(LongBody([Format(id, Some([]))]), conv) == Reading(InternalError, 0, None)
  {
    var f := Format(id, Some([]));
    assert [f][..0] == [];
    assert LongBody([f]) == [] + LongRecord(f) == LongRecord(f) && |LongRecord(f)| == 4;
    assert LongRecord(f)[4..] == [];
    assert FirstRecord(LongRecord(f)).None?;
  }

  // --- The short form ---

  /** The units written of a name and its terminator: at most fifteen. */
  function ShortUnits(name: bytes): (u: seq<u16>)
    ensures |u| <= 15
  {
    var all := AsUnits(name + [0]);
    if |all| > 15 then all[..15] else all
  }

  function NameBlock(name: Option<bytes>): (r: bytes)
    ensures |r| == 32
  {
    if name.None? then Zeros(32) else Halves(ShortUnits(name.value)) + Zeros(32 - 2 * |ShortUnits(name.value)|)
  }

  function ShortRecord(f: Format): (r: bytes)
    requires f.id < U32
    ensures |r| == 36
  {
    Le32(f.id) + NameBlock(f.name)
  }

  function ShortBody(fs: seq<Format>): (r: bytes)
    requires WellTyped(fs)
    ensures |r| == 36 * |fs|
  {
    if |fs| == 0 then [] else ShortBody(fs[..|fs| - 1]) + ShortRecord(fs[|fs| - 1])
  }

  /** The records one after the other, as long as there is room; a write without room is one the stream asserts. */
  method WriteShortBody(s: Stream, fs: seq<Format>) returns (ok: bool)
    requires WellTyped(fs) && s.Valid() && s.position == 0
    modifies s
    ensures s.Valid() && |s.buffer| == old(|s.buffer|)
    ensures ok <==> 36 * |fs| <= |s.buffer|
    ensures ok ==> s.Written() == ShortBody(fs)
  {
    for index := 0 to |fs|
      invariant s.Valid() && |s.buffer| == old(|s.buffer|) && s.position == 36 * index
      invariant WellTyped(fs[..index]) && s.Written() == ShortBody(fs[..index])
    {
      assert fs[index] in fs && fs[..index + 1] == fs[..index] + [fs[index]];
      if |s.buffer| - s.position < 36 { return false; }
      WriteShortRecord(s, fs[index]);
    }
    assert fs[..|fs|] == fs;
    ok := true;
  }

  /** The list is written exactly when its length and the header stay below 2^32. */
  method WriteShortList(fs: seq<Format>) returns (ok: bool, s: Stream)
    requires WellTyped(fs)
    ensures fresh(s) && s.Valid() && (ok <==> 36 * |fs| + HEADER < U32)
    ensures ok ==> |s.buffer| == 36 * |fs| && s.Written() == ShortBody(fs)
  {
    var length := |fs| * 36;
    var room := Room(length);
    RoomExact(length);
    if room.None? {
      s := new Stream([]);
      return false, s;
    }
    s := new Stream(Zeros(room.value));
    ok := WriteShortBody(s, fs);
  }

  method WriteShortRecord(s: Stream, f: Format)
    requires s.Valid() && s.position + 36 <= |s.buffer| && f.id < U32
    modifies s
    ensures s.Valid() && |s.buffer| == old(|s.buffer|) && s.position == old(s.position) + 36
    ensures s.Written() == old(s.Written()) + ShortRecord(f)
  {
    ghost var before := s.Written();
    s.WriteU32(f.id);
    var size := 0;
    if f.name.Some? {
      size := |f.name.value| + 1;
      if size > 15 { size := 15; }
      var units := AsUnits(f.name.value + [0])[..size];
      assert units == ShortUnits(f.name.value);
      s.Write(Halves(units));
    }
    s.Write(Zeros(32 - 2 * size));
    assert s.Written() == before + Le32(f.id) + NameBlock(f.name);
  }

  /** strndup: up to the first null byte, at most max bytes. */
  function CString(t: bytes, max: nat): bytes
    decreases max
  {
    if max == 0 || |t| == 0 || t[0] == 0 then [] else [t[0]] + CString(t[1..], max - 1)
  }

  /** The format in one record of 36 bytes, or None where its name does not convert. */
  function ShortFormat(record: bytes, ascii: bool, conv: Conversion): Option<Format>
    requires |record| == 36
  {
    var id, block := U32At(record, 0), record[4..];
    if ascii then
      if block[0] == 0 then Some(Format(id, None)) else Some(Format(id, Some(CString(block, 31))))
    else if U16At(block, 0) == 0 then Some(Format(id, None))
    else
      var name := conv(Units(block, NameLength(block)));
      if name.None? then None else Some(Format(id, name))
  }

  lemma {:induction false} CStringIs(t: bytes, max: nat)
    ensures var n := CString(t, max);
            n <= t && |n| <= max && 0 !in n && (|n| == max || n == t || t[|n|] == 0)
    decreases max
  {
    if max > 0 && |t| > 0 && t[0] != 0 { CStringIs(t[1..], max - 1); }
  }

  /** A record with an ASCII name: no name where the first byte is null, otherwise the bytes up to the first null byte,
      of which the last byte of the block does not count. */
  lemma AsciiShortFormat(record: bytes, conv: Conversion)
    requires |record| == 36
    ensures var f := ShortFormat(record, true, conv);
            && f.Some? && f.value.id == U32At(record, 0)
            && (f.value.name.None? <==> record[4] == 0)
            && (f.value.name.Some? ==>
                  var n := f.value.name.value;
                  0 < |n| <= 31 && n == record[4..4 + |n|] && 0 !in n && (|n| == 31 || record[4 + |n|] == 0))
  {
    CStringIs(record[4..], 31);
  }

  function ShortFormats(data: bytes, n: nat, ascii: bool, conv: Conversion): (r: Option<seq<Format>>)
    requires |data| >= 36 * n
    ensures r.Some? ==> |r.value| == n
  {
    if n == 0 then Some([])
    else
      var before := ShortFormats(data, n - 1, ascii, conv);
      var last := ShortFormat(data[36 * (n - 1)..36 * n], ascii, conv);
      if before.None? || last.None? then None else Some(before.value + [last.value])
  }

  function ShortReading(data: bytes, ascii: bool, conv: Conversion): Reading
  {
    if |data| == 0 then Reading(Success, 0, None)
    else if |data| % 36 != 0 then Reading(InternalError, |data| / 36, None)
    else match ShortFormats(data, |data| / 36, ascii, conv)
      case None => Reading(InternalError, 0, None)
      case Some(fs) => Reading(Success, |data| / 36, Some(fs))
  }

  lemma {:induction false} ShortPrefix(data: bytes, n: nat, k: nat, ascii: bool, conv: Conversion)
    requires k <= n && |data| >= 36 * n && ShortFormats(data, k, ascii, conv).None?
    ensures ShortFormats(data, n, ascii, conv).None?
    decreases n
  {
    if k < n { ShortPrefix(data, n - 1, k, ascii, conv); }
  }

  lemma ShortStep(data: bytes, n: nat, i: nat, ascii: bool, conv: Conversion, done: seq<Format>, record: bytes)
    requires i < n && |data| == 36 * n && ShortFormats(data, i, ascii, conv) == Some(done)
    requires record == data[36 * i..36 * i + 36]
    ensures match ShortFormat(record, ascii, conv)
            case Some(f) => ShortFormats(data, i + 1, ascii, conv) == Some(done + [f])
            case None => ShortFormats(data, n, ascii, conv).None?
  {
    if ShortFormat(record, ascii, conv).None? { ShortPrefix(data, n, i + 1, ascii, conv); }
  }

  method FillShort(data: bytes, n: nat, ascii: bool, conv: Conversion, formats: array<Format>) returns (ok: bool)
    requires |data| == 36 * n && formats.Length == n
    modifies formats
    ensures ok == ShortFormats(data, n, ascii, conv).Some?
    ensures ok ==> formats[..] == ShortFormats(data, n, ascii, conv).value
  {
    var pos, index := 0, 0;
    ghost var done: seq<Format> := [];
    while |data| - pos >= 4
      invariant 0 <= index <= n && pos == 36 * index
      invariant ShortFormats(data, index, ascii, conv) == Some(done) && done == formats[..index]
      decreases |data| - pos
    {
      var f := TakeShort(data, n, pos, index, ascii, conv, done);
      if f.None? { return false; }
      formats[index] := f.value;
      done := done + [f.value];
      pos, index := pos + 36, index + 1;
    }
    assert index == n && formats[..index] == formats[..];
    ok := true;
  }

  /** The record at `pos`. */
  method TakeShort(data: bytes, n: nat, pos: nat, index: nat, ascii: bool, conv: Conversion, ghost done: seq<Format>)
    returns (f: Option<Format>)
    requires index < n && |data| == 36 * n && pos == 36 * index && ShortFormats(data, index, ascii, conv) == Some(done)
    ensures f.Some? ==> ShortFormats(data, index + 1, ascii, conv) == Some(done + [f.value])
    ensures f.None? ==> ShortFormats(data, n, ascii, conv).None?
  {
    var record := data[pos..pos + 36];
    ShortStep(data, n, index, ascii, conv, done, record);
    f := ShortFormat(record, ascii, conv);
  }

  method ReadShortList(data: bytes, ascii: bool, conv: Conversion) returns (r: Reading)
    ensures r == ShortReading(data, ascii, conv)
  {
    if |data| == 0 { return Reading(Success, 0, None); }
    var numFormats := |data| / 36;
    if numFormats * 36 != |data| { return Reading(InternalError, numFormats, None); }
    assert |data| % 36 == 0;
    var formats := new Format[numFormats](_ => Format(0, None));
    var ok := FillShort(data, numFormats, ascii, conv, formats);
    if !ok { return Reading(InternalError, 0, None); }
    return Reading(Success, numFormats, Some(formats[..]));
  }

  /** Names cut to fifteen units, and empty names made absent. */
  function Cut(f: Format): Format
  {
    if f.name.None? || f.name.value == [] then f.(name := None)
    else if |f.name.value| > 15 then f.(name := Some(f.name.value[..15]))
    else f
  }

  function CutAll(fs: seq<Format>): (r: seq<Format>)
    ensures |r| == |fs|
  {
    if |fs| == 0 then [] else CutAll(fs[..|fs| - 1]) + [Cut(fs[|fs| - 1])]
  }

  /** The reader finds in the block the first fifteen units of the name. */
  lemma BlockName(n: bytes)
    requires Ascii(n)
    ensures var block, cut := NameBlock(Some(n)), if |n| > 15 then n[..15] else n;
            NameLength(block) == |cut| && Units(block, |cut|) == AsUnits(cut)
  {
    var block, cut := NameBlock(Some(n)), if |n| > 15 then n[..15] else n;
    var u := AsUnits(cut);
    var rest := Zeros(30 - 2 * |u|);
    if |n| >= 15 {
      assert ShortUnits(n) == u;
      assert block == Halves(u) + [0, 0] + rest;
    } else {
      var zero: seq<u16> := [0];
      assert ShortUnits(n) == u + zero;
      UnitBytesConcat(u, zero);
      OneUnit(0);
      assert block == Halves(u) + [0, 0] + rest;
    }
    ReadName(u, rest);
  }

  lemma ShortRecordBack(f: Format, conv: Conversion)
    requires WellTyped([f]) && AsciiExact(conv)
    ensures ShortFormat(ShortRecord(f), false, conv) == Some(Cut(f))
  {
    var record := ShortRecord(f);
    assert f in [f];
    assert record[0..4] == Le32(f.id) && record[4..] == NameBlock(f.name);
    Le32Value(f.id, record, 0);
    if f.name.Some? {
      var n := f.name.value;
      BlockName(n);
      var cut := if |n| > 15 then n[..15] else n;
      if n != [] {
        assert Ascii(cut) && cut != [];
        assert NoZero(AsUnits(cut)) && conv(AsUnits(cut)) == Some(cut);
      }
    } else {
      assert U16At(Zeros(32), 0) == 0;
    }
  }

  lemma {:induction false} ShortFormatsBack(fs: seq<Format>, more: bytes, conv: Conversion)
    requires WellTyped(fs) && AsciiExact(conv)
    ensures ShortFormats(ShortBody(fs) + more, |fs|, false, conv) == Some(CutAll(fs))
  {
    if |fs| > 0 {
      var n := |fs| - 1;
      var before, f := fs[..n], fs[n];
      assert f in fs && forall g :: g in before ==> g in fs;
      var data := ShortBody(fs) + more;
      assert data == ShortBody(before) + (ShortRecord(f) + more);
      ShortFormatsBack(before, ShortRecord(f) + more, conv);
      assert data[36 * n..36 * (n + 1)] == ShortRecord(f);
      ShortRecordBack(f, conv);
    }
  }

  /** The record at place k converts. */
  predicate ShortConverts(data: bytes, k: nat, ascii: bool, conv: Conversion)
    requires 36 * (k + 1) <= |data|
  {
    ShortFormat(data[36 * k..36 * (k + 1)], ascii, conv).Some?
  }

  lemma {:induction false} ShortConvertsAll(data: bytes, n: nat, ascii: bool, conv: Conversion)
    requires |data| >= 36 * n
    ensures ShortFormats(data, n, ascii, conv).Some? <==> forall k: nat :: k < n ==> ShortConverts(data, k, ascii, conv)
  {
    if n > 0 {
      ShortConvertsAll(data, n - 1, ascii, conv);
      if ShortFormats(data, n, ascii, conv).None? && ShortFormats(data, n - 1, ascii, conv).Some? {
        assert !ShortConverts(data, n - 1, ascii, conv);
      }
    }
  }

  /** The short reader succeeds exactly on whole records whose names all convert; where the last record is cut short it
      leaves the number of whole ones behind. */
  lemma ShortReadingExact(data: bytes, ascii: bool, conv: Conversion)
    ensures var r, n := ShortReading(data, ascii, conv), |data| / 36;
            && (r.error == Success <==>
                  |data| % 36 == 0 && forall k: nat :: k < n ==> ShortConverts(data, k, ascii, conv))
            && r.error in {Success, InternalError}
            && r.numFormats == (if r.error == Success || |data| % 36 != 0 then n else 0)
            && (r.formats.Some? <==> r.error == Success && n > 0)
  {
    ShortConvertsAll(data, |data| / 36, ascii, conv);
  }

  lemma WholeShortRecords(n: nat)
    ensures 36 * n % 36 == 0 && 36 * n / 36 == n
  {
  }

  /** Writing any list of ASCII names in the short form and reading it back gives the same list with names cut to
      fifteen units and empty names made absent. */
  lemma ShortRoundTrip(fs: seq<Format>, conv: Conversion)
    requires WellTyped(fs) && AsciiExact(conv)
    ensures ShortReading(ShortBody(fs), false, conv) ==
              if |fs| == 0 then Reading(Success, 0, None) else Reading(Success, |fs|, Some(CutAll(fs)))
  {
    if |fs| > 0 {
      var data := ShortBody(fs);
      ShortFormatsBack(fs, [], conv);
      assert data + [] == data;
      ReadingOf(data, |fs|, CutAll(fs), conv);
    }
  }

  lemma ReadingOf(data: bytes, n: nat, fs: seq<Format>, conv: Conversion)
    requires n > 0 && |data| == 36 * n && ShortFormats(data, n, false, conv) == Some(fs)
    ensures ShortReading(data, false, conv) == Reading(Success, n, Some(fs))
  {
    WholeShortRecords(n);
  }

  // --- The reader on a stream ---

  /** Takes the announced number of bytes off the stream and reads exactly those; fails before reading where the
      stream is shorter. */
  method ReadFormatList(s: Stream, dataLen: nat, useLongNames: bool, asciiNames: bool, conv: Conversion)
    returns (r: Reading)
    requires s.Valid()
    modifies s`position
    ensures s.Valid()
    ensures |old(s.Rest())| < dataLen ==> r == Reading(InvalidData, 0, None) && s.Rest() == old(s.Rest())
    ensures |old(s.Rest())| >= dataLen ==>
              && s.Rest() == old(s.Rest())[dataLen..]
              && r == if useLongNames then LongReading(old(s.Rest())[..dataLen], conv)
                      else ShortReading(old(s.Rest())[..dataLen], asciiNames, conv)
  {
    if s.position + dataLen > |s.buffer| { return Reading(InvalidData, 0, None); }
    var data := s.Read(dataLen);
    assert data == old(s.Rest())[..dataLen];
    if useLongNames { r := ReadLongList(data, conv); } else { r := ReadShortList(data, asciiNames, conv); }
  }
}
