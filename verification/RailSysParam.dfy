/**
 The system parameter order of the remote programs channel (channels/rail/rail_common.c; sections 2.2.2.4.1
 and 2.2.2.5.1 of MS-RDPERP).  A parameter code selects which field of the order follows it on the wire.
 */
module RailSysParam {
  import opened Common

  const DRAG_FULL_WINDOWS: nat := 0x25
  const KEYBOARD_CUES: nat := 0x100B
  const KEYBOARD_PREF: nat := 0x45
  const MOUSE_BUTTON_SWAP: nat := 0x21
  const WORK_AREA: nat := 0x2F
  const DISPLAY_CHANGE: nat := 0xF001
  const TASKBAR_POS: nat := 0xF000
  const HIGH_CONTRAST: nat := 0x43
  const CARET_WIDTH: nat := 0x2007
  const STICKY_KEYS: nat := 0x3B
  const TOGGLE_KEYS: nat := 0x35
  const FILTER_KEYS: nat := 0x33
  const SCREEN_SAVE_ACTIVE: nat := 0x11
  const SCREEN_SAVE_SECURE: nat := 0x77

  datatype Rect = Rect(left: u16, top: u16, right: u16, bottom: u16)
  datatype FilterKeys = FilterKeys(flags: u32, waitTime: u32, delayTime: u32, repeatTime: u32, bounceTime: u32)
  datatype HighContrast = HighContrast(flags: u32, colorSchemeLength: u32, colorScheme: bytes)

  /** The order; its BOOL members are C integers. */
  datatype SysParam = SysParam(
    param: u32, params: u32,
    dragFullWindows: int, keyboardCues: int, keyboardPref: int, mouseButtonSwap: int,
    workArea: Rect, displayChange: Rect, taskbarPos: Rect,
    highContrast: HighContrast,
    caretWidth: u32, stickyKeys: u32, toggleKeys: u32, filterKeys: FilterKeys,
    setScreenSaveActive: int, setScreenSaveSecure: int)

  datatype Error = Success | InvalidData | InvalidParameter | InternalError

  // --- Reference: which field a code selects, and its wire form ---

  datatype Field = Flag(on: bool) | Area(rect: Rect) | Word(word: u32) | Keys(keys: FilterKeys)
    | Contrast(flags: u32, scheme: bytes)

  /** The field that a code selects; None for an unknown code. */
  function Selected(o: SysParam, param: nat): Option<Field>
  {
    if param == DRAG_FULL_WINDOWS then Some(Flag(o.dragFullWindows != 0))
    else if param == KEYBOARD_CUES then Some(Flag(o.keyboardCues != 0))
    else if param == KEYBOARD_PREF then Some(Flag(o.keyboardPref != 0))
    else if param == MOUSE_BUTTON_SWAP then Some(Flag(o.mouseButtonSwap != 0))
    else if param == WORK_AREA then Some(Area(o.workArea))
    else if param == DISPLAY_CHANGE then Some(Area(o.displayChange))
    else if param == TASKBAR_POS then Some(Area(o.taskbarPos))
    else if param == HIGH_CONTRAST then Some(Contrast(o.highContrast.flags, o.highContrast.colorScheme))
    else if param == CARET_WIDTH then Some(Word(o.caretWidth))
    else if param == STICKY_KEYS then Some(Word(o.stickyKeys))
    else if param == TOGGLE_KEYS then Some(Word(o.toggleKeys))
    else if param == FILTER_KEYS then Some(Keys(o.filterKeys))
    else if param == SCREEN_SAVE_ACTIVE then Some(Flag(o.setScreenSaveActive != 0))
    else if param == SCREEN_SAVE_SECURE then Some(Flag(o.setScreenSaveSecure != 0))
    else None
  }

  /** The mask bit of a code. */
  function MaskBit(param: nat): u32
  {
    if param == DRAG_FULL_WINDOWS then 0x1
    else if param == KEYBOARD_CUES then 0x2
    else if param == KEYBOARD_PREF then 0x4
    else if param == MOUSE_BUTTON_SWAP then 0x8
    else if param == WORK_AREA then 0x10
    else if param == DISPLAY_CHANGE then 0x20
    else if param == TASKBAR_POS then 0x40
    else if param == HIGH_CONTRAST then 0x80
    else if param == SCREEN_SAVE_ACTIVE then 0x100
    else if param == SCREEN_SAVE_SECURE then 0x200
    else if param == CARET_WIDTH then 0x400
    else if param == STICKY_KEYS then 0x800
    else if param == TOGGLE_KEYS then 0x1000
    else if param == FILTER_KEYS then 0x2000
    else 0
  }

  function Bit(k: nat): nat { if k == 0 then 1 else 2 * Bit(k - 1) }

  /** The codes in the order of their mask bits. */
  const CODES: seq<nat> :=
    [DRAG_FULL_WINDOWS, KEYBOARD_CUES, KEYBOARD_PREF, MOUSE_BUTTON_SWAP, WORK_AREA, DISPLAY_CHANGE, TASKBAR_POS,
     HIGH_CONTRAST, SCREEN_SAVE_ACTIVE, SCREEN_SAVE_SECURE, CARET_WIDTH, STICKY_KEYS, TOGGLE_KEYS, FILTER_KEYS]

  /** Each known code has a mask bit of its own, and no other code has one. */
  lemma MaskBitsApart(p: nat, q: nat)
    ensures MaskBit(p) != 0 <==> p in CODES
    ensures MaskBit(p) == MaskBit(q) != 0 ==> p == q
    ensures p in CODES ==> exists k :: 0 <= k < |CODES| && CODES[k] == p && MaskBit(p) == Bit(k)
  {
    assert Bit(0) == 1 && Bit(1) == 2 && Bit(2) == 4 && Bit(3) == 8 && Bit(4) == 16 && Bit(5) == 32 && Bit(6) == 64;
    assert Bit(7) == 128 && Bit(8) == 256 && Bit(9) == 512 && Bit(10) == 1024 && Bit(11) == 2048 && Bit(12) == 4096;
    assert Bit(13) == 8192;
  }

  predicate NeedsExtended(param: nat)
  {
    param == CARET_WIDTH || param == STICKY_KEYS || param == TOGGLE_KEYS || param == FILTER_KEYS
  }

  predicate IsFlag(p: nat)
  {
    p in {DRAG_FULL_WINDOWS, KEYBOARD_CUES, KEYBOARD_PREF, MOUSE_BUTTON_SWAP, SCREEN_SAVE_ACTIVE, SCREEN_SAVE_SECURE}
  }

  function Words(ws: seq<u32>): (r: bytes)
    ensures |r| == 4 * |ws|
  {
    if |ws| == 0 then [] else Le32(ws[0]) + Words(ws[1..])
  }

  function FieldBytes(f: Field): bytes
    requires f.Contrast? ==> |f.scheme| < U16
  {
    match f
    case Flag(on) => [if on then 1 else 0]
    case Area(r) => Halves([r.left, r.top, r.right, r.bottom])
    case Word(w) => Le32(w)
    case Keys(k) => Words([k.flags, k.waitTime, k.delayTime, k.repeatTime, k.bounceTime])
    case Contrast(flags, scheme) => Le32(flags) + (Le32(|scheme| + 2) + (Le16(|scheme|) + scheme))
  }

  /** What the writer appends, or None where it reports an error. */
  function Wire(o: SysParam, extended: bool): Option<bytes>
    requires |o.highContrast.colorScheme| < U16
  {
    var f := Selected(o, o.param);
    if f.None? || (NeedsExtended(o.param) && !extended) || (o.param == CARET_WIDTH && o.caretWidth < 1) then None
    else Some(Le32(o.param) + FieldBytes(f.value))
  }

  /** The order `o0` after the field of `o` that `o.param` selects has been read into it: that field, the code and
      the mask, and nothing else; booleans become 0 or 1 and the scheme length is counted afresh. */
  function Received(o0: SysParam, o: SysParam): SysParam
    requires |o.highContrast.colorScheme| < U16
  {
    var p := o.param;
    var r := o0.(param := p, params := MaskBit(p));
    var flag := (x: int) => if x != 0 then 1 else 0;
    if p == DRAG_FULL_WINDOWS then r.(dragFullWindows := flag(o.dragFullWindows))
    else if p == KEYBOARD_CUES then r.(keyboardCues := flag(o.keyboardCues))
    else if p == KEYBOARD_PREF then r.(keyboardPref := flag(o.keyboardPref))
    else if p == MOUSE_BUTTON_SWAP then r.(mouseButtonSwap := flag(o.mouseButtonSwap))
    else if p == WORK_AREA then r.(workArea := o.workArea)
    else if p == DISPLAY_CHANGE then r.(displayChange := o.displayChange)
    else if p == TASKBAR_POS then r.(taskbarPos := o.taskbarPos)
    else if p == HIGH_CONTRAST then
      r.(highContrast := o.highContrast.(colorSchemeLength := |o.highContrast.colorScheme| + 2))
    else if p == CARET_WIDTH then r.(caretWidth := o.caretWidth)
    else if p == STICKY_KEYS then r.(stickyKeys := o.stickyKeys)
    else if p == TOGGLE_KEYS then r.(toggleKeys := o.toggleKeys)
    else if p == FILTER_KEYS then r.(filterKeys := o.filterKeys)
    else if p == SCREEN_SAVE_ACTIVE then r.(setScreenSaveActive := flag(o.setScreenSaveActive))
    else if p == SCREEN_SAVE_SECURE then r.(setScreenSaveSecure := flag(o.setScreenSaveSecure))
    else r
  }

  // --- The writer ---

  method WriteUnicodeString(s: Stream, text: bytes, more: bytes)
    requires s.Valid() && |text| < U16
    modifies s
    ensures s.Valid() && s.Written() == old(s.Written()) + Le16(|text|) + text
  {
    s.EnsureRemainingCapacity(2 + |text|, more);
    s.WriteU16(|text|);
    s.Write(text);
  }

  method WriteHighContrast(s: Stream, h: HighContrast, more: bytes)
    requires s.Valid() && |h.colorScheme| < U16
    modifies s
    ensures s.Valid() && s.Written() == old(s.Written()) + FieldBytes(Contrast(h.flags, h.colorScheme))
  {
    s.EnsureRemainingCapacity(8, more);
    var colorSchemeLength := |h.colorScheme| + 2;
    s.WriteU32(h.flags);
    s.WriteU32(colorSchemeLength);
    WriteUnicodeString(s, h.colorScheme, more);
  }

  lemma FiveWords(w: bytes, a: u32, b: u32, c: u32, d: u32, e: u32)
    ensures w + Le32(a) + Le32(b) + Le32(c) + Le32(d) + Le32(e) == w + Words([a, b, c, d, e])
  {
    assert Words([e]) == Le32(e) + Words([]);
    assert Words([d, e]) == Le32(d) + Words([e]);
    assert Words([c, d, e]) == Le32(c) + Words([d, e]);
    assert Words([b, c, d, e]) == Le32(b) + Words([c, d, e]);
    assert Words([a, b, c, d, e]) == Le32(a) + Words([b, c, d, e]);
  }

  lemma FourHalves(w: bytes, a: u16, b: u16, c: u16, d: u16)
    ensures w + Le16(a) + Le16(b) + Le16(c) + Le16(d) == w + Halves([a, b, c, d])
  {
    assert Halves([d]) == Le16(d) + Halves([]);
    assert Halves([c, d]) == Le16(c) + Halves([d]);
    assert Halves([b, c, d]) == Le16(b) + Halves([c, d]);
    assert Halves([a, b, c, d]) == Le16(a) + Halves([b, c, d]);
  }

  method WriteFilterKeys(s: Stream, k: FilterKeys, more: bytes)
    requires s.Valid()
    modifies s
    ensures s.Valid() && s.Written() == old(s.Written()) + FieldBytes(Keys(k))
  {
    s.EnsureRemainingCapacity(20, more);
    ghost var w := s.Written();
    s.WriteU32(k.flags);
    s.WriteU32(k.waitTime);
    s.WriteU32(k.delayTime);
    s.WriteU32(k.repeatTime);
    s.WriteU32(k.bounceTime);
    FiveWords(w, k.flags, k.waitTime, k.delayTime, k.repeatTime, k.bounceTime);
  }

  method WriteRect(s: Stream, r: Rect)
    requires s.Valid() && s.position + 8 <= |s.buffer|
    modifies s
    ensures s.Valid() && s.Written() == old(s.Written()) + FieldBytes(Area(r))
  {
    ghost var w := s.Written();
    s.WriteU16(r.left);
    s.WriteU16(r.top);
    s.WriteU16(r.right);
    s.WriteU16(r.bottom);
    FourHalves(w, r.left, r.top, r.right, r.bottom);
  }

  method WriteFlag(s: Stream, b: int)
    requires s.Valid() && s.position < |s.buffer|
    modifies s
    ensures s.Valid() && s.Written() == old(s.Written()) + FieldBytes(Flag(b != 0))
  {
    var body: byte := if b != 0 then 1 else 0;
    s.WriteU8(body);
  }

  /** The cases of the switch whose body is one byte. */
  method WriteFlagField(s: Stream, o: SysParam)
    requires s.Valid() && s.position < |s.buffer| && IsFlag(o.param)
    modifies s
    ensures s.Valid() && s.Written() == old(s.Written()) + FieldBytes(Selected(o, o.param).value)
  {
    if o.param == DRAG_FULL_WINDOWS { WriteFlag(s, o.dragFullWindows); }
    else if o.param == KEYBOARD_CUES { WriteFlag(s, o.keyboardCues); }
    else if o.param == KEYBOARD_PREF { WriteFlag(s, o.keyboardPref); }
    else if o.param == MOUSE_BUTTON_SWAP { WriteFlag(s, o.mouseButtonSwap); }
    else if o.param == SCREEN_SAVE_ACTIVE { WriteFlag(s, o.setScreenSaveActive); }
    else { WriteFlag(s, o.setScreenSaveSecure); }
  }

  /** The cases that need the extended parameters. */
  method WriteExtendedField(s: Stream, o: SysParam, extended: bool, more: bytes) returns (error: Error)
    requires s.Valid() && s.position + 4 <= |s.buffer| && NeedsExtended(o.param)
    modifies s
    ensures s.Valid() && (error.Success? <==> extended && !(o.param == CARET_WIDTH && o.caretWidth < 1))
    ensures error.Success? ==> s.Written() == old(s.Written()) + FieldBytes(Selected(o, o.param).value)
  {
    if !extended { return InvalidData; }
    if o.param == CARET_WIDTH {
      if o.caretWidth < 1 { return InvalidData; }
      s.WriteU32(o.caretWidth);
    }
    else if o.param == STICKY_KEYS { s.WriteU32(o.stickyKeys); }
    else if o.param == TOGGLE_KEYS { s.WriteU32(o.toggleKeys); }
    else { WriteFilterKeys(s, o.filterKeys, more); }
    error := Success;
  }

  /** The switch of the writer, with twelve bytes ensured of which the code took four. */
  method WriteSelected(s: Stream, o: SysParam, extended: bool, more: bytes) returns (error: Error)
    requires s.Valid() && s.position + 8 <= |s.buffer| && |o.highContrast.colorScheme| < U16
    modifies s
    ensures s.Valid() && (error.Success? <==> Wire(o, extended).Some?)
    ensures error.Success? ==> s.Written() == old(s.Written()) + FieldBytes(Selected(o, o.param).value)
  {
    error := Success;
    if IsFlag(o.param) { WriteFlagField(s, o); }
    else if o.param == WORK_AREA { WriteRect(s, o.workArea); }
    else if o.param == DISPLAY_CHANGE { WriteRect(s, o.displayChange); }
    else if o.param == TASKBAR_POS { WriteRect(s, o.taskbarPos); }
    else if o.param == HIGH_CONTRAST { WriteHighContrast(s, o.highContrast, more); }
    else if NeedsExtended(o.param) { error := WriteExtendedField(s, o, extended, more); }
    else { error := InvalidParameter; }
  }

  method WriteSysParamOrder(s: Stream, o: SysParam, extended: bool, more: bytes) returns (error: Error)
    requires s.Valid() && |o.highContrast.colorScheme| < U16
    modifies s
    ensures s.Valid() && (error.Success? <==> Wire(o, extended).Some?)
    ensures error.Success? ==> s.Written() == old(s.Written()) + Wire(o, extended).value
  {
    s.EnsureRemainingCapacity(12, more);
    s.WriteU32(o.param);
    error := WriteSelected(s, o, extended, more);
    if error.Success? {
      Associates(old(s.Written()), Le32(o.param), FieldBytes(Selected(o, o.param).value));
    }
  }

  // --- The reader ---

  /** The outcome of a read: an error, or the order and the number of bytes consumed. */
  datatype Outcome = Failed(error: Error) | Got(order: SysParam, consumed: nat)

  function ReadFlag(s: bytes): int
    requires |s| >= 5
  {
    if s[4] != 0 then 1 else 0
  }

  function ReadRect(s: bytes): Rect
    requires |s| >= 12
  {
    Rect(U16At(s, 4), U16At(s, 6), U16At(s, 8), U16At(s, 10))
  }

  function ReadFilterKeys(s: bytes): FilterKeys
    requires |s| >= 24
  {
    FilterKeys(U32At(s, 4), U32At(s, 8), U32At(s, 12), U32At(s, 16), U32At(s, 20))
  }

  function StoreFlag(r: SysParam, p: nat, b: int): SysParam
  {
    if p == DRAG_FULL_WINDOWS then r.(dragFullWindows := b)
    else if p == KEYBOARD_CUES then r.(keyboardCues := b)
    else if p == KEYBOARD_PREF then r.(keyboardPref := b)
    else if p == MOUSE_BUTTON_SWAP then r.(mouseButtonSwap := b)
    else if p == SCREEN_SAVE_ACTIVE then r.(setScreenSaveActive := b)
    else if p == SCREEN_SAVE_SECURE then r.(setScreenSaveSecure := b)
    else r
  }

  /** The reader of the order, into `o`. */
  function ReadOrder(o: SysParam, s: bytes, extended: bool): Outcome
  {
    if |s| < 5 then Failed(InvalidData)
    else
      var p := U32At(s, 0);
      var r := o.(param := p, params := MaskBit(p));
      if IsFlag(p) then Got(StoreFlag(r, p, ReadFlag(s)), 5)
      else if p == WORK_AREA || p == DISPLAY_CHANGE || p == TASKBAR_POS then
        if |s| < 12 then Failed(InvalidData)
        else if p == WORK_AREA then Got(r.(workArea := ReadRect(s)), 12)
        else if p == DISPLAY_CHANGE then Got(r.(displayChange := ReadRect(s)), 12)
        else Got(r.(taskbarPos := ReadRect(s)), 12)
      else if p == HIGH_CONTRAST then
        if |s| < 12 then Failed(InvalidData)
        else if |s| < 14 || |s| < 14 + U16At(s, 12) then Failed(InternalError)
        else Got(r.(highContrast := HighContrast(U32At(s, 4), U32At(s, 8), s[14..14 + U16At(s, 12)])),
                 14 + U16At(s, 12))
      else if NeedsExtended(p) then
        if !extended || |s| < 8 || (p == FILTER_KEYS && |s| < 24) then Failed(InvalidData)
        else if p == CARET_WIDTH then
          if U32At(s, 4) < 1 then Failed(InvalidData) else Got(r.(caretWidth := U32At(s, 4)), 8)
        else if p == STICKY_KEYS then Got(r.(stickyKeys := U32At(s, 4)), 8)
        else if p == TOGGLE_KEYS then Got(r.(toggleKeys := U32At(s, 4)), 8)
        else Got(r.(filterKeys := ReadFilterKeys(s)), 24)
      else Got(r, 4)
  }

  /** The readers below start behind the code, four bytes into the order `all`. */
  method ReadRectField(s: Stream, ghost all: bytes) returns (rect: Rect)
    requires s.Valid() && |all| >= 12 && s.Rest() == all[4..]
    modifies s`position
    ensures s.Valid() && rect == ReadRect(all) && s.Rest() == all[12..]
  {
    assert forall i :: 0 <= i < 8 ==> s.buffer[s.position + i] == all[4..][i];
    var x0 := s.ReadU16();
    var x1 := s.ReadU16();
    var x2 := s.ReadU16();
    var x3 := s.ReadU16();
    rect := Rect(x0, x1, x2, x3);
  }

  method ReadHighContrastField(s: Stream, ghost all: bytes) returns (error: Error, h: Option<HighContrast>)
    requires s.Valid() && |all| >= 12 && s.Rest() == all[4..]
    modifies s`position
    ensures s.Valid() && error == if |all| < 14 || |all| < 14 + U16At(all, 12) then InternalError else Success
    ensures error == Success ==>
              && h == Some(HighContrast(U32At(all, 4), U32At(all, 8), all[14..14 + U16At(all, 12)]))
              && s.Rest() == all[14 + U16At(all, 12)..]
  {
    var left := |s.buffer| - s.position;
    h := None;
    ghost var buffer, at := s.buffer, s.position;
    assert buffer[at..] == all[4..] && left == |all| - 4;
    SameWords(buffer, at, all, 4, 0);
    SameWords(buffer, at, all, 4, 4);
    var flags := s.ReadU32();
    var length := s.ReadU32();
    if left < 10 { return InternalError, h; }
    SameWords(buffer, at, all, 4, 8);
    var n := s.ReadU16();
    if left < 10 + n { return InternalError, h; }
    var scheme := s.Read(n);
    assert scheme == buffer[at..][10..10 + n] == all[4..][10..10 + n] == all[14..14 + n];
    assert s.Rest() == buffer[at..][10 + n..] == all[4..][10 + n..] == all[14 + n..];
    error, h := Success, Some(HighContrast(flags, length, scheme));
  }

  method ReadFilterKeysField(s: Stream, ghost all: bytes) returns (keys: FilterKeys)
    requires s.Valid() && |all| >= 24 && s.Rest() == all[4..]
    modifies s`position
    ensures s.Valid() && keys == ReadFilterKeys(all) && s.Rest() == all[24..]
  {
    assert forall i :: 0 <= i < 20 ==> s.buffer[s.position + i] == all[4..][i];
    var k0 := s.ReadU32();
    var k1 := s.ReadU32();
    var k2 := s.ReadU32();
    var k3 := s.ReadU32();
    var k4 := s.ReadU32();
    keys := FilterKeys(k0, k1, k2, k3, k4);
  }

  method ReadWordField(s: Stream, ghost all: bytes) returns (w: u32)
    requires s.Valid() && |all| >= 8 && s.Rest() == all[4..]
    modifies s`position
    ensures s.Valid() && w == U32At(all, 4) && s.Rest() == all[8..]
  {
    assert forall i :: 0 <= i < 4 ==> s.buffer[s.position + i] == all[4..][i];
    w := s.ReadU32();
  }

  method ReadSysParamOrder(s: Stream, o: SysParam, extended: bool) returns (error: Error, r: SysParam)
    requires s.Valid()
    modifies s`position
    ensures s.Valid()
    ensures match ReadOrder(o, old(s.Rest()), extended)
            case Failed(e) => error == e
            case Got(order, n) => error == Success && r == order && s.Rest() == old(s.Rest())[n..]
  {
    error, r := Success, o;
    ghost var all := s.Rest();
    var left := |s.buffer| - s.position;
    if left < 5 { return InvalidData, r; }
    var p := s.ReadU32();
    assert p == U32At(all, 0) && s.Rest() == all[4..];
    r := r.(param := p, params := MaskBit(p));
    if IsFlag(p) {
      var body := s.ReadU8();
      r := StoreFlag(r, p, if body != 0 then 1 else 0);
    } else if p == WORK_AREA || p == DISPLAY_CHANGE || p == TASKBAR_POS {
      if left - 4 < 8 { return InvalidData, r; }
      var rect := ReadRectField(s, all);
      if p == WORK_AREA { r := r.(workArea := rect); }
      else if p == DISPLAY_CHANGE { r := r.(displayChange := rect); }
      else { r := r.(taskbarPos := rect); }
    } else if p == HIGH_CONTRAST {
      if left - 4 < 8 { return InvalidData, r; }
      var h;
      error, h := ReadHighContrastField(s, all);
      if error == Success { r := r.(highContrast := h.value); }
    } else if NeedsExtended(p) {
      if !extended { return InvalidData, r; }
      if left - 4 < (if p == FILTER_KEYS then 20 else 4) { return InvalidData, r; }
      if p == FILTER_KEYS {
        var keys := ReadFilterKeysField(s, all);
        r := r.(filterKeys := keys);
      } else {
        var w := ReadWordField(s, all);
        if p == STICKY_KEYS { r := r.(stickyKeys := w); }
        else if p == TOGGLE_KEYS { r := r.(toggleKeys := w); }
        else {
          r := r.(caretWidth := w);
          if w < 1 { return InvalidData, r; }
        }
      }
    }
  }

  // --- Round trip ---

  lemma ReadAfterCode(p: u32, t: bytes)
    ensures var s := Le32(p) + t;
            && U32At(s, 0) == p
            && forall i: nat :: i < |t| ==> s[4 + i] == t[i]
  {
    var s := Le32(p) + t;
    assert s[0..4] == Le32(p);
    Le32Value(p, s, 0);
  }

  lemma NextWord(s: bytes, i: nat, v: u32, t: bytes)
    requires i <= |s| && s[i..] == Le32(v) + t
    ensures i + 4 <= |s| && U32At(s, i) == v && s[i + 4..] == t
  {
    assert s[i..i + 4] == s[i..][..4] == Le32(v);
    Le32Value(v, s, i);
    assert s[i + 4..] == s[i..][4..];
  }

  lemma NextHalf(s: bytes, i: nat, v: u16, t: bytes)
    requires i <= |s| && s[i..] == Le16(v) + t
    ensures i + 2 <= |s| && U16At(s, i) == v && s[i + 2..] == t
  {
    assert s[i..i + 2] == s[i..][..2] == Le16(v);
    Le16Value(v, s, i);
    assert s[i + 2..] == s[i..][2..];
  }

  lemma {:induction false} ReadWords(s: bytes, i: nat, ws: seq<u32>, rest: bytes)
    requires i <= |s| && s[i..] == Words(ws) + rest
    ensures i + 4 * |ws| <= |s|
    ensures forall j: nat :: j < |ws| ==> U32At(s, i + 4 * j) == ws[j]
    decreases |ws|
  {
    if |ws| > 0 {
      assert s[i..] == Le32(ws[0]) + (Words(ws[1..]) + rest);
      NextWord(s, i, ws[0], Words(ws[1..]) + rest);
      ReadWords(s, i + 4, ws[1..], rest);
      forall j: nat | j < |ws| ensures U32At(s, i + 4 * j) == ws[j] {
        if j > 0 { assert U32At(s, i + 4 + 4 * (j - 1)) == ws[1..][j - 1]; }
      }
    }
  }

  lemma {:induction false} ReadHalves(s: bytes, i: nat, hs: seq<u16>, rest: bytes)
    requires i <= |s| && s[i..] == Halves(hs) + rest
    ensures i + 2 * |hs| <= |s|
    ensures forall j: nat :: j < |hs| ==> U16At(s, i + 2 * j) == hs[j]
    decreases |hs|
  {
    if |hs| > 0 {
      assert s[i..] == Le16(hs[0]) + (Halves(hs[1..]) + rest);
      NextHalf(s, i, hs[0], Halves(hs[1..]) + rest);
      ReadHalves(s, i + 2, hs[1..], rest);
      forall j: nat | j < |hs| ensures U16At(s, i + 2 * j) == hs[j] {
        if j > 0 { assert U16At(s, i + 2 + 2 * (j - 1)) == hs[1..][j - 1]; }
      }
    }
  }

  lemma ReadRectBack(s: bytes, r: Rect, rest: bytes)
    requires |s| >= 4 && s[4..] == FieldBytes(Area(r)) + rest
    ensures |s| >= 12 && ReadRect(s) == r
  {
    var hs := [r.left, r.top, r.right, r.bottom];
    ReadHalves(s, 4, hs, rest);
    assert U16At(s, 4 + 2 * 0) == hs[0] && U16At(s, 4 + 2 * 1) == hs[1];
    assert U16At(s, 4 + 2 * 2) == hs[2] && U16At(s, 4 + 2 * 3) == hs[3];
  }

  lemma ReadFilterKeysBack(s: bytes, k: FilterKeys, rest: bytes)
    requires |s| >= 4 && s[4..] == FieldBytes(Keys(k)) + rest
    ensures |s| >= 24 && ReadFilterKeys(s) == k
  {
    var ws := [k.flags, k.waitTime, k.delayTime, k.repeatTime, k.bounceTime];
    ReadWords(s, 4, ws, rest);
    assert U32At(s, 4 + 4 * 0) == ws[0] && U32At(s, 4 + 4 * 1) == ws[1] && U32At(s, 4 + 4 * 2) == ws[2];
    assert U32At(s, 4 + 4 * 3) == ws[3] && U32At(s, 4 + 4 * 4) == ws[4];
  }

  lemma ReadHighContrastBack(s: bytes, flags: u32, scheme: bytes, rest: bytes)
    requires |scheme| < U16 && |s| >= 4 && s[4..] == FieldBytes(Contrast(flags, scheme)) + rest
    ensures |s| >= 14 + |scheme| && U32At(s, 4) == flags && U32At(s, 8) == |scheme| + 2
    ensures U16At(s, 12) == |scheme| && s[14..14 + |scheme|] == scheme
  {
    var t2 := Le16(|scheme|) + scheme;
    var t1 := Le32(|scheme| + 2) + t2;
    assert s[4..] == Le32(flags) + (t1 + rest) by { Associates(Le32(flags), t1, rest); }
    NextWord(s, 4, flags, t1 + rest);
    assert s[8..] == Le32(|scheme| + 2) + (t2 + rest) by { Associates(Le32(|scheme| + 2), t2, rest); }
    NextWord(s, 8, |scheme| + 2, t2 + rest);
    assert s[12..] == Le16(|scheme|) + (scheme + rest) by { Associates(Le16(|scheme|), scheme, rest); }
    NextHalf(s, 12, |scheme|, scheme + rest);
    assert s[14..14 + |scheme|] == s[14..][..|scheme|] == scheme;
  }

  /** Whenever writing succeeds, reading with the same flag succeeds, consumes exactly the written bytes, sets
      exactly that parameter's mask bit, recovers its field and leaves every other field as it was. */
  lemma ReadBack(o: SysParam, extended: bool, o0: SysParam, rest: bytes)
    requires |o.highContrast.colorScheme| < U16 && Wire(o, extended).Some?
    ensures var w := Wire(o, extended).value;
            ReadOrder(o0, w + rest, extended) == Got(Received(o0, o), |w|)
  {
    var w := Wire(o, extended).value;
    var f := Selected(o, o.param).value;
    var s := w + rest;
    assert s == Le32(o.param) + (FieldBytes(f) + rest);
    ReadAfterCode(o.param, FieldBytes(f) + rest);
    assert s[4..] == FieldBytes(f) + rest;
    match f {
      case Flag(on) =>
        assert s[4] == s[4..][0];
      case Area(r) => ReadRectBack(s, r, rest);
      case Word(v) => NextWord(s, 4, v, rest);
      case Keys(k) => ReadFilterKeysBack(s, k, rest);
      case Contrast(flags, scheme) => ReadHighContrastBack(s, flags, scheme, rest);
    }
  }

  /** Where each field lies in the order, in little-endian words of four and two bytes. */
  predicate LaidOut(w: bytes, f: Field)
  {
    match f
    case Flag(on) => |w| == 5 && w[4] == if on then 1 else 0
    case Area(r) =>
      |w| == 12 && U16At(w, 4) == r.left && U16At(w, 6) == r.top && U16At(w, 8) == r.right && U16At(w, 10) == r.bottom
    case Word(v) => |w| == 8 && U32At(w, 4) == v
    case Keys(k) =>
      && |w| == 24 && U32At(w, 4) == k.flags && U32At(w, 8) == k.waitTime && U32At(w, 12) == k.delayTime
      && U32At(w, 16) == k.repeatTime && U32At(w, 20) == k.bounceTime
    case Contrast(flags, scheme) =>
      && |w| == 14 + |scheme| && U32At(w, 4) == flags && U32At(w, 8) == |scheme| + 2 && U16At(w, 12) == |scheme|
      && w[14..] == scheme
  }

  /** The wire form holds the code and behind it the field that the code selects. */
  lemma WireLayout(o: SysParam, extended: bool)
    requires |o.highContrast.colorScheme| < U16 && Wire(o, extended).Some?
    ensures var w, f := Wire(o, extended).value, Selected(o, o.param);
            f.Some? && |w| >= 4 && U32At(w, 0) == o.param && LaidOut(w, f.value)
  {
    var w, f := Wire(o, extended).value, Selected(o, o.param).value;
    ReadAfterCode(o.param, FieldBytes(f));
    assert w[4..] == FieldBytes(f) && w[4..] == FieldBytes(f) + [];
    match f {
      case Flag(on) => assert w[4] == w[4..][0];
      case Area(r) => ReadRectBack(w, r, []);
      case Word(v) => NextWord(w, 4, v, []);
      case Keys(k) => ReadFilterKeysBack(w, k, []);
      case Contrast(flags, scheme) => ReadHighContrastBack(w, flags, scheme, []);
    }
  }

  /** The bytes that a code asks for before its field is looked at. */
  function Needed(p: nat): nat
  {
    if p in {0x2F, 0xF001, 0xF000, 0x43} then 12
    else if p in {0x2007, 0x3B, 0x35} then 8
    else if p == 0x33 then 24
    else 5
  }

  predicate SchemeCut(s: bytes) { 12 <= |s| && (|s| < 14 || |s| < 14 + U16At(s, 12)) }

  /** Reading fails exactly where data is short, an extended code comes without the extension, or a caret has no width.
      A scheme cut short is an internal error and everything else is invalid data.  An unknown code is taken without a
      field. */
  lemma ReadFailsExactly(o: SysParam, s: bytes, extended: bool)
    ensures var r := ReadOrder(o, s, extended);
            if |s| < 5 then r == Failed(InvalidData)
            else
              var p := U32At(s, 0);
              && (r == Failed(InternalError) <==> p == 0x43 && SchemeCut(s))
              && (r == Failed(InvalidData) <==>
                    || |s| < Needed(p)
                    || (p in {0x2007, 0x3B, 0x35, 0x33} && !extended)
                    || (p == 0x2007 && U32At(s, 4) == 0))
              && (r.Failed? ==> r.error in {InvalidData, InternalError})
              && (p !in CODES ==> r == Got(o.(param := p, params := 0), 4))
  {
    if |s| >= 5 { MaskBitsApart(U32At(s, 0), 0); }
  }

  /** Writing fails exactly for an unknown code, an extended code without the extension and a caret without width. */
  lemma WriteFailsExactly(o: SysParam, extended: bool)
    requires |o.highContrast.colorScheme| < U16
    ensures Wire(o, extended).None? <==>
            || o.param !in CODES
            || (o.param in {0x2007, 0x3B, 0x35, 0x33} && !extended)
            || (o.param == 0x2007 && o.caretWidth == 0)
  {
    MaskBitsApart(o.param, 0);
  }
}
