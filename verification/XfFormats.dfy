/**
 Format lists in the X11 clipboard (client/X11/xf_cliprdr.c): the list of server formats kept as a window
 property, and its parser.
 */
module XfFormats {
  import opened Common

  const MAX_CLIPBOARD_FORMATS: nat := 255
  const CF_RAW: nat := 0

  /** xfCliprdrFormat. */
  datatype ClientFormat = ClientFormat(atom: nat, toRequest: nat, local: nat, name: Option<bytes>)

  predicate NoNull(s: bytes) { forall i :: 0 <= i < |s| ==> s[i] != 0 }

  /** An id is a 32-bit word, and a name is a C string, so it holds no null byte. */
  predicate Valid(f: Format) { f.id < U32 && (f.name.Some? ==> NoNull(f.name.value)) }

  predicate AllValid(fs: seq<Format>) { forall f :: f in fs ==> Valid(f) }

  // --- The server format list as a window property ---

  function Text(f: Format): bytes { if f.name.Some? then f.name.value else [] }

  function EntryBytes(f: Format): bytes
    requires Valid(f)
  {
    Le32(f.id) + Text(f) + [0]
  }

  function Entries(fs: seq<Format>): bytes
    requires AllValid(fs)
  {
    if |fs| == 0 then [] else EntryBytes(fs[0]) + Entries(fs[1..])
  }

  /** The last format is the synthetic raw one and is left out. */
  function Real(fs: seq<Format>): seq<Format>
  {
    if |fs| == 0 then [] else fs[..|fs| - 1]
  }

  function Serialized(fs: seq<Format>): bytes
    requires AllValid(fs) && |fs| <= U32
  {
    Le32(|Real(fs)|) + Entries(Real(fs))
  }

  /** strnlen over what is left. */
  function NullAt(t: bytes): (n: nat)
    ensures n <= |t|
  {
    if |t| == 0 || t[0] == 0 then 0 else 1 + NullAt(t[1..])
  }

  lemma {:induction false} NullAtIsFirst(t: bytes)
    ensures NoNull(t[..NullAt(t)]) && (NullAt(t) < |t| ==> t[NullAt(t)] == 0)
  {
    if |t| > 0 && t[0] != 0 {
      NullAtIsFirst(t[1..]);
      assert t[..NullAt(t)] == [t[0]] + t[1..][..NullAt(t) - 1];
    }
  }

  /** The bytes of the first entry, or None where it is cut short. */
  function FirstEntry(t: bytes): (r: Option<nat>)
    ensures r.Some? ==> 5 <= r.value <= |t|
  {
    if |t| < 4 || NullAt(t[4..]) == |t| - 4 then None else Some(4 + NullAt(t[4..]) + 1)
  }

  function HeadEntry(t: bytes): Format
    requires FirstEntry(t).Some?
  {
    Format(U32At(t, 0), Some(t[4..][..NullAt(t[4..])]))
  }

  /** The first n entries of t. */
  function ParseEntries(t: bytes, n: nat): (r: Option<seq<Format>>)
    ensures r.Some? ==> |r.value| == n
    decreases n
  {
    if n == 0 then Some([])
    else
      var k := FirstEntry(t);
      if k.None? then None
      else
        var more := ParseEntries(t[k.value..], n - 1);
        if more.None? then None else Some([HeadEntry(t)] + more.value)
  }

  function Parse(data: bytes): Option<seq<Format>>
  {
    if |data| < 4 || U32At(data, 0) > MAX_CLIPBOARD_FORMATS then None
    else ParseEntries(data[4..], U32At(data, 0))
  }

  /** Absent names become empty. */
  function Named(f: Format): Format { f.(name := Some(Text(f))) }

  function NamedAll(fs: seq<Format>): (r: seq<Format>)
    ensures |r| == |fs|
  {
    if |fs| == 0 then [] else [Named(fs[0])] + NamedAll(fs[1..])
  }

  lemma {:induction false} FindNull(a: bytes, rest: bytes)
    requires NoNull(a)
    ensures NullAt(a + [0] + rest) == |a|
  {
    var t := a + [0] + rest;
    if |a| > 0 {
      assert t[1..] == a[1..] + [0] + rest;
      FindNull(a[1..], rest);
    }
  }

  lemma EntryHead(f: Format, rest: bytes)
    requires Valid(f)
    ensures var t := EntryBytes(f) + rest;
            FirstEntry(t) == Some(|EntryBytes(f)|) && HeadEntry(t) == Named(f)
  {
    var t := EntryBytes(f) + rest;
    assert t[0..4] == Le32(f.id);
    Le32Value(f.id, t, 0);
    assert t[4..] == Text(f) + [0] + rest;
    FindNull(Text(f), rest);
    assert t[4..][..|Text(f)|] == Text(f);
  }

  lemma {:induction false} ParseSerializedEntries(fs: seq<Format>, rest: bytes)
    requires AllValid(fs)
    ensures ParseEntries(Entries(fs) + rest, |fs|) == Some(NamedAll(fs))
  {
    if |fs| > 0 {
      var more := Entries(fs[1..]) + rest;
      var t := EntryBytes(fs[0]) + more;
      assert Entries(fs) + rest == t;
      EntryHead(fs[0], more);
      assert t[|EntryBytes(fs[0])|..] == more;
      ParseSerializedEntries(fs[1..], rest);
    }
  }

  /** Parsing the property gives back the list without its last entry, absent names made empty, exactly when that
      is at most 255 entries. */
  lemma ParseSerialized(fs: seq<Format>)
    requires AllValid(fs) && |fs| <= U32
    ensures Parse(Serialized(fs)) == Some(NamedAll(Real(fs))) <==> |Real(fs)| <= MAX_CLIPBOARD_FORMATS
  {
    var data, n := Serialized(fs), |Real(fs)|;
    assert data[0..4] == Le32(n);
    Le32Value(n, data, 0);
    assert data[4..] == Entries(Real(fs)) + [];
    ParseSerializedEntries(Real(fs), []);
  }

  lemma HeadEntryBytes(t: bytes)
    requires FirstEntry(t).Some?
    ensures Valid(HeadEntry(t)) && EntryBytes(HeadEntry(t)) == t[..FirstEntry(t).value]
  {
    var n := NullAt(t[4..]);
    NullAtIsFirst(t[4..]);
    U32AtBytes(t, 0);
    assert t[..4 + n + 1] == t[0..4] + t[4..][..n] + [t[4..][n]];
  }

  lemma HeadThenRest(t: bytes, k: nat, more: seq<Format>)
    requires FirstEntry(t) == Some(k) && AllValid(more) && Entries(more) <= t[k..]
    ensures AllValid([HeadEntry(t)] + more) && Entries([HeadEntry(t)] + more) <= t
  {
    HeadEntryBytes(t);
    assert ([HeadEntry(t)] + more)[1..] == more;
    assert t == t[..k] + t[k..];
  }

  lemma {:induction false} SerializeParsedEntries(t: bytes, n: nat, fs: seq<Format>)
    requires ParseEntries(t, n) == Some(fs)
    ensures AllValid(fs) && Entries(fs) <= t
    decreases n
  {
    if n > 0 {
      var k := FirstEntry(t).value;
      assert ParseEntries(t[k..], n - 1).Some? && fs == [HeadEntry(t)] + ParseEntries(t[k..], n - 1).value;
      var more := fs[1..];
      SerializeParsedEntries(t[k..], n - 1, more);
      HeadThenRest(t, k, more);
      assert fs == [HeadEntry(t)] + more;
    }
  }

  /** Whatever parses is the serialized form of the parsed list up to where parsing stopped. */
  lemma SerializeParsed(data: bytes)
    requires Parse(data).Some?
    ensures var fs := Parse(data).value + [Format(CF_RAW, None)];
            AllValid(fs) && |fs| <= U32 && Serialized(fs) <= data
  {
    var gs := Parse(data).value;
    var fs := gs + [Format(CF_RAW, None)];
    SerializeParsedEntries(data[4..], U32At(data, 0), gs);
    U32AtBytes(data, 0);
    assert Real(fs) == gs;
    assert data == data[0..4] + data[4..];
  }

  method WriteEntry(s: Stream, f: Format, more: bytes)
    requires s.Valid() && Valid(f)
    modifies s
    ensures s.Valid() && s.Written() == old(s.Written()) + EntryBytes(f)
  {
    var nameLength := if f.name.Some? then |f.name.value| else 0;
    s.EnsureRemainingCapacity(4 + nameLength + 1, more);
    s.WriteU32(f.id);
    if f.name.Some? { s.Write(f.name.value); }
    s.WriteU8(0);
  }

  method SerializeServerFormatList(fs: seq<Format>, more: bytes) returns (s: Stream)
    requires AllValid(fs) && |fs| <= U32
    ensures fresh(s) && s.Valid() && s.Written() == Serialized(fs)
  {
    s := new Stream(seq(128, _ => 0));
    var formatCount := if |fs| > 0 then |fs| - 1 else 0;
    s.WriteU32(formatCount);
    ghost var todo := Real(fs);
    for i := 0 to formatCount
      invariant fresh(s) && s.Valid() && todo == fs[i..formatCount]
      invariant s.Written() + Entries(todo) == Serialized(fs)
    {
      assert todo[0] == fs[i] && fs[i] in fs;
      Associates(s.Written(), EntryBytes(fs[i]), Entries(todo[1..]));
      WriteEntry(s, fs[i], more);
      todo := todo[1..];
    }
  }

  /** The whole result is what is done followed by what is still to do, and fails with it. */
  ghost predicate Continues(whole: Option<seq<Format>>, done: seq<Format>, todo: Option<seq<Format>>)
  {
    if todo.None? then whole.None? else whole == Some(done + todo.value)
  }

  lemma ParseStep(t: bytes, n: nat, whole: Option<seq<Format>>, done: seq<Format>)
    requires n > 0
    requires Continues(whole, done, ParseEntries(t, n))
    ensures FirstEntry(t).None? ==> whole.None?
    ensures FirstEntry(t).Some? ==>
              Continues(whole, done + [HeadEntry(t)], ParseEntries(t[FirstEntry(t).value..], n - 1))
  {
    if FirstEntry(t).Some? && ParseEntries(t[FirstEntry(t).value..], n - 1).Some? {
      var more := ParseEntries(t[FirstEntry(t).value..], n - 1).value;
      assert done + ([HeadEntry(t)] + more) == done + [HeadEntry(t)] + more;
    }
  }

  /** The entry at pos and where the next one starts, or None where it is cut short. */
  method TakeEntry(data: bytes, pos: nat, ghost rest: bytes) returns (r: Option<(Format, nat)>)
    requires pos <= |data| && rest == data[pos..]
    ensures r == if FirstEntry(rest).None? then None else Some((HeadEntry(rest), pos + FirstEntry(rest).value))
  {
    if |data| - pos < 4 { return None; }
    var id := U32At(data, pos);
    assert rest[4..] == data[pos + 4..] && U32At(rest, 0) == id;
    var length := NullAt(data[pos + 4..]);
    if length == |data| - (pos + 4) { return None; }
    return Some((Format(id, Some(data[pos + 4..][..length])), pos + 4 + length + 1));
  }

  /** None stands for the error exit. */
  method ParseServerFormatList(data: bytes) returns (r: Option<seq<Format>>)
    ensures r == Parse(data)
  {
    if |data| < 4 { return None; }
    var numFormats := U32At(data, 0);
    if numFormats > MAX_CLIPBOARD_FORMATS { return None; }
    var formats, pos := [], 4;
    ghost var rest, whole := data[4..], Parse(data);
    assert whole.Some? ==> formats + whole.value == whole.value;
    for i := 0 to numFormats
      invariant 4 <= pos <= |data| && rest == data[pos..]
      invariant Continues(whole, formats, ParseEntries(rest, numFormats - i))
    {
      ParseStep(rest, numFormats - i, whole, formats);
      var entry := TakeEntry(data, pos, rest);
      if entry.None? { return None; }
      formats := formats + [entry.value.0];
      rest := rest[FirstEntry(rest).value..];
      pos := entry.value.1;
    }
    assert formats + [] == formats;
    return Some(formats);
  }
}
