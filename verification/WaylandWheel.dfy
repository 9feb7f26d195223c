/**
 Wheel rotation in the Wayland client (client/Wayland/wlf_input.c): a scroll value of any size is sent as a
 series of pointer events that each carry a rotation of nine bits in two's complement.
 */
module WaylandWheel {
  import opened Common

  const PTR_FLAGS_HWHEEL: nat := 0x0400
  const PTR_FLAGS_WHEEL: nat := 0x0200
  const PTR_FLAGS_WHEEL_NEGATIVE: nat := 0x0100
  const INT32_MIN: int := -0x8000_0000
  const INT32_MAX: int := 0x7FFF_FFFF

  type i32 = x: int | INT32_MIN <= x <= INT32_MAX

  /** A product as it is left in 32 bits. */
  function Wrap32(x: int): i32 { (x + 0x8000_0000) % 0x1_0000_0000 - 0x8000_0000 }

  datatype Axis = Vertical | Horizontal | OtherAxis

  /** The axis flag of a scroll event; None for an axis that is not handled. */
  function AxisFlag(axis: Axis): Option<nat>
  {
    match axis
    case Vertical => Some(PTR_FLAGS_WHEEL)
    case Horizontal => Some(PTR_FLAGS_HWHEEL)
    case OtherAxis => None
  }

  /** Scrolling down or left turns the wheel backwards. */
  predicate Backwards(axis: Axis, value: int)
  {
    (axis == Vertical && value > 0) || (axis == Horizontal && value < 0)
  }

  function Abs(value: int): nat { if value < 0 then -value else value }

  /** The event for one step of magnitude c. */
  function Event(flag: nat, backwards: bool, c: nat): nat
    requires c <= 0x100
  {
    if backwards then flag + PTR_FLAGS_WHEEL_NEGATIVE + (0x100 - c) else flag + c
  }

  /** The events for a remaining magnitude. */
  function Events(flag: nat, backwards: bool, remaining: nat): seq<nat>
    decreases remaining
  {
    if remaining == 0 then []
    else
      var c := if remaining > 0xFF then 0xFF else remaining;
      [Event(flag, backwards, c)] + Events(flag, backwards, remaining - c)
  }

  function WheelEvents(axis: Axis, value: int): seq<nat>
  {
    if axis == OtherAxis then [] else Events(AxisFlag(axis).value, Backwards(axis, value), Abs(value))
  }

  // --- What a peer makes of the events ---

  /** The low nine bits as two's complement. */
  function Rotation(event: nat): int
  {
    if event % 0x200 >= 0x100 then event % 0x200 - 0x200 else event % 0x200
  }

  function Total(events: seq<nat>): int
  {
    if |events| == 0 then 0 else Rotation(events[0]) + Total(events[1..])
  }

  lemma StepRotation(flag: nat, backwards: bool, c: nat)
    requires flag in {PTR_FLAGS_WHEEL, PTR_FLAGS_HWHEEL} && 1 <= c <= 255
    ensures Rotation(Event(flag, backwards, c)) == if backwards then -(c as int) else c
    ensures Event(flag, backwards, c) / 0x200 == flag / 0x200
  {
  }

  lemma {:induction false} StepsAddUp(flag: nat, backwards: bool, remaining: nat)
    requires flag in {PTR_FLAGS_WHEEL, PTR_FLAGS_HWHEEL}
    ensures Total(Events(flag, backwards, remaining)) == if backwards then -(remaining as int) else remaining
    ensures |Events(flag, backwards, remaining)| == (remaining + 254) / 255
    ensures forall e :: e in Events(flag, backwards, remaining) ==> IsStep(e, flag)
    decreases remaining
  {
    if remaining > 0 {
      var c := if remaining > 0xFF then 0xFF else remaining;
      StepRotation(flag, backwards, c);
      StepsAddUp(flag, backwards, remaining - c);
      assert Events(flag, backwards, remaining)[1..] == Events(flag, backwards, remaining - c);
    }
  }

  /** An event of the axis with this flag that turns its wheel by 1 to 255. */
  predicate IsStep(e: nat, flag: nat)
  {
    1 <= Abs(Rotation(e)) <= 255 && e / 0x200 == flag / 0x200
  }

  /** Every scroll: the rotations add up to minus the value vertically and to the value horizontally, each step
      turns by 1 to 255 under the flag of its axis alone, and there are as few steps as possible. */
  lemma WheelRotation(axis: Axis, value: int)
    requires axis != OtherAxis
    ensures Total(WheelEvents(axis, value)) == if axis == Vertical then -value else value
    ensures |WheelEvents(axis, value)| == (Abs(value) + 254) / 255
    ensures forall e :: e in WheelEvents(axis, value) ==> IsStep(e, AxisFlag(axis).value)
  {
    StepsAddUp(AxisFlag(axis).value, Backwards(axis, value), Abs(value));
  }

  // --- A pointer frame ---

  datatype Source = Wheel | WheelTilt | Finger | Continuous | OtherSource

  /** Queued pointer events; an axis value of a finger is fixed point with eight fraction bits. */
  datatype PointerEvent =
    | SourceEvent(source: Source)
    | AxisEvent(axis: Axis, value: i32)
    | DiscreteEvent(axis: Axis, value: i32)

  /** The source of the frame: the last one named. */
  function FrameSource(events: seq<PointerEvent>): Option<Source>
  {
    if |events| == 0 then None
    else if events[|events| - 1].SourceEvent? then Some(events[|events| - 1].source)
    else FrameSource(events[..|events| - 1])
  }

  /** That is, the source of the frame is named by one of its events, and by none after it. */
  lemma {:induction false} FrameSourceIsLast(events: seq<PointerEvent>)
    ensures match FrameSource(events)
            case None => forall e :: e in events ==> !e.SourceEvent?
            case Some(source) =>
              exists k :: 0 <= k < |events| && events[k] == SourceEvent(source)
                          && forall j :: k < j < |events| ==> !events[j].SourceEvent?
  {
    if |events| > 0 {
      var n := |events| - 1;
      FrameSourceIsLast(events[..n]);
      if events[n].SourceEvent? {
        assert events[n] == SourceEvent(events[n].source);
      } else if FrameSource(events).Some? {
        var source := FrameSource(events).value;
        var before := events[..n];
        var k :| 0 <= k < n && before[k] == SourceEvent(source) && forall j :: k < j < n ==> !before[j].SourceEvent?;
        assert events[k] == SourceEvent(source);
      }
    }
  }

  /** Division that truncates towards zero. */
  function Over64(a: int): (q: int)
    ensures 64 * Abs(q) <= Abs(a) < 64 * Abs(q) + 64
  {
    if a < 0 then -((-a) / 64) else a / 64
  }

  /** The scroll value of an event under a source.  value / 256 * 120 / 10 is exactly 3 * value / 64 in binary
      floating point, and the conversion to an integer truncates. */
  function ScrollValue(source: Source, e: PointerEvent): (r: Option<int>)
    ensures r.Some? ==> INT32_MIN <= r.value <= INT32_MAX
  {
    match e
    case DiscreteEvent(_, v) => if source == Wheel || source == WheelTilt then Some(Wrap32(v * 0x78)) else None
    case AxisEvent(_, v) => if source == Finger || source == Continuous then Some(Over64(3 * v)) else None
    case SourceEvent(_) => None
  }

  /** A wheel turns 120 for each step up to 17895697 steps, and by a wrapped product beyond that. */
  lemma WholeSteps(source: Source, axis: Axis, steps: i32)
    requires source == Wheel || source == WheelTilt
    ensures var v := ScrollValue(source, DiscreteEvent(axis, steps));
            v.Some? && (v.value == steps * 0x78 <==> Abs(steps) <= 17895697)
  {
    assert steps * 0x78 <= INT32_MAX <==> steps <= 17895697;
  }

  /** A finger moves the wheel by twelve times its way, cut to a whole number towards zero; a wheel reports no way. */
  lemma FingerTurns(source: Source, axis: Axis, value: i32)
    ensures var v, way := ScrollValue(source, AxisEvent(axis, value)), value as real / 256.0 * 120.0 / 10.0;
            && (v.Some? <==> source == Finger || source == Continuous)
            && (v.Some? && value >= 0 ==> v.value as real <= way < v.value as real + 1.0)
            && (v.Some? && value <= 0 ==> v.value as real - 1.0 < way <= v.value as real)
  {
    var way := value as real / 256.0 * 120.0 / 10.0;
    assert way == (3 * value) as real / 64.0;
  }

  function ScrollEvents(source: Source, e: PointerEvent): seq<nat>
  {
    var v := ScrollValue(source, e);
    if v.None? then [] else WheelEvents(e.axis, v.value)
  }

  predicate Understood(source: Source, e: PointerEvent)
  {
    ScrollValue(source, e).Some? ==> e.axis != OtherAxis
  }

  /** The events that frame handling sends when every send succeeds. */
  function FrameEvents(source: Source, events: seq<PointerEvent>): seq<nat>
  {
    if |events| == 0 then []
    else
      FrameEvents(source, events[..|events| - 1]) + ScrollEvents(source, events[|events| - 1])
  }

  /** The signed scroll along one axis that the frame asks for. */
  function Requested(source: Source, events: seq<PointerEvent>, axis: Axis): int
  {
    if |events| == 0 then 0
    else
      var e := events[|events| - 1];
      var v := ScrollValue(source, e);
      Requested(source, events[..|events| - 1], axis) +
      if v.None? || e.axis != axis then 0 else if axis == Vertical then -v.value else v.value
  }

  predicate OnAxis(event: nat, axis: Axis)
  {
    AxisFlag(axis).Some? && event / 0x200 == AxisFlag(axis).value / 0x200
  }

  /** The rotation that the events carry along one axis. */
  function AxisTotal(events: seq<nat>, axis: Axis): int
  {
    if |events| == 0 then 0
    else
      (if OnAxis(events[0], axis) then Rotation(events[0]) else 0) + AxisTotal(events[1..], axis)
  }

  lemma {:induction false} AxisTotalConcat(a: seq<nat>, b: seq<nat>, axis: Axis)
    ensures AxisTotal(a + b, axis) == AxisTotal(a, axis) + AxisTotal(b, axis)
  {
    if |a| == 0 {
      assert a + b == b;
    } else {
      AxisTotalConcat(a[1..], b, axis);
      assert (a + b)[1..] == a[1..] + b;
    }
  }

  lemma {:induction false} AxisTotalUniform(events: seq<nat>, axis: Axis, same: bool)
    requires forall e :: e in events ==> OnAxis(e, axis) == same
    ensures AxisTotal(events, axis) == if same then Total(events) else 0
  {
    if |events| > 0 {
      assert events[0] in events && forall e :: e in events[1..] ==> e in events;
      AxisTotalUniform(events[1..], axis, same);
    }
  }

  /** A frame of any length turns each wheel by exactly the sum of what its events ask for on that axis. */
  lemma {:induction false} FrameRotation(source: Source, events: seq<PointerEvent>, axis: Axis)
    requires axis != OtherAxis
    ensures AxisTotal(FrameEvents(source, events), axis) == Requested(source, events, axis)
  {
    if |events| > 0 {
      var e := events[|events| - 1];
      var v := ScrollValue(source, e);
      FrameRotation(source, events[..|events| - 1], axis);
      if v.Some? && e.axis != OtherAxis {
        var w := WheelEvents(e.axis, v.value);
        WheelRotation(e.axis, v.value);
        AxisTotalUniform(w, axis, e.axis == axis);
        AxisTotalConcat(FrameEvents(source, events[..|events| - 1]), w, axis);
      } else {
        assert FrameEvents(source, events) == FrameEvents(source, events[..|events| - 1]);
      }
    }
  }

  /** The flags of one step; a backwards step is converted to nine bits of two's complement. */
  function StepFlags(flags: nat, cval: nat): nat
    requires cval <= 0xFF
  {
    if flags / 0x100 % 2 == 1 then flags / 0x100 * 0x100 + (0x100 - cval) else flags + cval
  }

  lemma StepFlagsAre(flag: nat, back: bool, cval: nat)
    requires (flag == PTR_FLAGS_WHEEL || flag == PTR_FLAGS_HWHEEL) && cval <= 0xFF
    ensures StepFlags(flag + (if back then PTR_FLAGS_WHEEL_NEGATIVE else 0), cval) == Event(flag, back, cval)
  {
  }

  /** Of `all`, everything up to and including the first event that cannot be sent; sendOk is indexed by place. */
  function UpToFailure(at: nat, all: seq<nat>, sendOk: nat -> bool): seq<nat>
    decreases |all|
  {
    if |all| == 0 then [] else [all[0]] + if sendOk(at) then UpToFailure(at + 1, all[1..], sendOk) else []
  }

  predicate AllSent(at: nat, all: seq<nat>, sendOk: nat -> bool)
    decreases |all|
  {
    |all| == 0 || (sendOk(at) && AllSent(at + 1, all[1..], sendOk))
  }

  /** The places of the events that are sent all succeed but the last, which fails exactly when not all are sent. */
  lemma {:induction false} FailureIsLast(at: nat, all: seq<nat>, sendOk: nat -> bool)
    ensures var part := UpToFailure(at, all, sendOk);
            && part <= all && (forall p :: at <= p < at + |part| - 1 ==> sendOk(p))
            && (AllSent(at, all, sendOk) ==> part == all)
            && (!AllSent(at, all, sendOk) ==> |part| > 0 && !sendOk(at + |part| - 1))
    decreases |all|
  {
    if |all| > 0 {
      FailureIsLast(at + 1, all[1..], sendOk);
      assert all == [all[0]] + all[1..];
    }
  }

  /** What an event asks for once its coordinates are scaled: nothing, something that cannot be done, or steps. */
  datatype Scroll = NoScroll | Refused | Steps(all: seq<nat>)

  function ScrollOf(source: Source, e: PointerEvent, scaleOk: bool): Scroll
  {
    if ScrollValue(source, e).None? then NoScroll
    else if !scaleOk || e.axis == OtherAxis then Refused
    else Steps(ScrollEvents(source, e))
  }

  function Scrolls(source: Source, events: seq<PointerEvent>, scaleOk: nat -> bool): (r: seq<Scroll>)
    ensures |r| == |events|
  {
    seq(|events|, i requires 0 <= i < |events| => ScrollOf(source, events[i], scaleOk(i)))
  }

  function ScrollSent(scroll: Scroll, sendOk: nat -> bool, at: nat): seq<nat>
  {
    if scroll.Steps? then UpToFailure(at, scroll.all, sendOk) else []
  }

  predicate ScrollOk(scroll: Scroll, sendOk: nat -> bool, at: nat)
  {
    scroll.NoScroll? || (scroll.Steps? && AllSent(at, scroll.all, sendOk))
  }

  /** All events sent after a frame, behind those sent before: a scroll that fails does not keep the later ones back. */
  function FrameSent(scrolls: seq<Scroll>, sendOk: nat -> bool, sent: seq<nat>): seq<nat>
  {
    if |scrolls| == 0 then sent
    else FrameSent(scrolls[1..], sendOk, sent + ScrollSent(scrolls[0], sendOk, |sent|))
  }

  predicate FrameOk(scrolls: seq<Scroll>, sendOk: nat -> bool, sent: seq<nat>)
  {
    |scrolls| == 0
    || (ScrollOk(scrolls[0], sendOk, |sent|) &&
        FrameOk(scrolls[1..], sendOk, sent + ScrollSent(scrolls[0], sendOk, |sent|)))
  }

  /** A frame succeeds only where every scroll in it is on a known axis and its coordinates could be scaled; for the
      others nothing is sent. */
  lemma {:induction false} FrameNeedsScaling(scrolls: seq<Scroll>, sendOk: nat -> bool, sent: seq<nat>)
    ensures FrameOk(scrolls, sendOk, sent) ==> forall i :: 0 <= i < |scrolls| ==> !scrolls[i].Refused?
  {
    if |scrolls| > 0 { FrameNeedsScaling(scrolls[1..], sendOk, sent + ScrollSent(scrolls[0], sendOk, |sent|)); }
  }

  lemma RefusedExactly(source: Source, e: PointerEvent, scaleOk: bool, sendOk: nat -> bool, at: nat)
    ensures var scroll := ScrollOf(source, e, scaleOk);
            && (scroll.Refused? <==> ScrollValue(source, e).Some? && (!scaleOk || e.axis == OtherAxis))
            && (scroll.Refused? ==> ScrollSent(scroll, sendOk, at) == [] && !ScrollOk(scroll, sendOk, at))
  {
  }

  predicate AllUnderstood(source: Source, events: seq<PointerEvent>)
  {
    |events| == 0 || (Understood(source, events[0]) && AllUnderstood(source, events[1..]))
  }

  lemma {:induction false} AllSucceed(at: nat, all: seq<nat>, sendOk: nat -> bool)
    requires forall i :: sendOk(i)
    ensures AllSent(at, all, sendOk) && UpToFailure(at, all, sendOk) == all
    decreases |all|
  {
    if |all| > 0 { AllSucceed(at + 1, all[1..], sendOk); }
  }

  lemma ScrollSucceeds(source: Source, e: PointerEvent, sendOk: nat -> bool, at: nat)
    requires forall i :: sendOk(i)
    ensures ScrollSent(ScrollOf(source, e, true), sendOk, at) == ScrollEvents(source, e)
    ensures ScrollOk(ScrollOf(source, e, true), sendOk, at) == Understood(source, e)
  {
    AllSucceed(at, ScrollEvents(source, e), sendOk);
  }

  lemma {:induction false} FrameEventsHead(source: Source, events: seq<PointerEvent>)
    requires |events| > 0
    ensures FrameEvents(source, events) == ScrollEvents(source, events[0]) + FrameEvents(source, events[1..])
  {
    if |events| > 1 {
      var n := |events| - 1;
      FrameEventsHead(source, events[..n]);
      assert events[..n][1..] == events[1..][..n - 1];
      Behind(ScrollEvents(source, events[0]), FrameEvents(source, events[1..][..n - 1]),
             ScrollEvents(source, events[n]));
    } else {
      assert events[..0] == [];
    }
  }

  lemma Behind(a: seq<nat>, b: seq<nat>, c: seq<nat>)
    ensures (a + b) + c == a + (b + c)
  {
  }

  lemma FrameHead(scrolls: seq<Scroll>, scroll: Scroll, rest: seq<Scroll>, sendOk: nat -> bool, sent: seq<nat>)
    requires |scrolls| > 0 && scrolls[0] == scroll && scrolls[1..] == rest
    ensures var now := sent + ScrollSent(scroll, sendOk, |sent|);
            && FrameSent(scrolls, sendOk, sent) == FrameSent(rest, sendOk, now)
            && FrameOk(scrolls, sendOk, sent) == (ScrollOk(scroll, sendOk, |sent|) && FrameOk(rest, sendOk, now))
  {
  }

  lemma ScrollsHead(source: Source, events: seq<PointerEvent>, scaleOk: nat -> bool)
    requires |events| > 0 && forall i :: scaleOk(i)
    ensures Scrolls(source, events, scaleOk)[0] == ScrollOf(source, events[0], true)
    ensures Scrolls(source, events, scaleOk)[1..] == Scrolls(source, events[1..], scaleOk)
  {
    var all, rest := Scrolls(source, events, scaleOk), Scrolls(source, events[1..], scaleOk);
    assert scaleOk(0);
    forall i | 0 <= i < |rest| ensures all[1..][i] == rest[i] {
      assert scaleOk(i) && scaleOk(i + 1);
    }
  }

  /** While scaling and sending succeed a frame sends all its events, and reports failure exactly for an unknown
      axis. */
  lemma {:induction false} FrameSucceeds(source: Source, events: seq<PointerEvent>, scaleOk: nat -> bool,
                                         sendOk: nat -> bool, sent: seq<nat>)
    requires (forall i :: scaleOk(i)) && (forall i :: sendOk(i))
    ensures FrameSent(Scrolls(source, events, scaleOk), sendOk, sent) == sent + FrameEvents(source, events)
    ensures FrameOk(Scrolls(source, events, scaleOk), sendOk, sent) == AllUnderstood(source, events)
    decreases |events|
  {
    if |events| == 0 {
      assert sent + [] == sent;
    } else {
      var e, rest := events[0], events[1..];
      var more := ScrollEvents(source, e);
      ScrollsHead(source, events, scaleOk);
      ScrollSucceeds(source, e, sendOk, |sent|);
      FrameHead(Scrolls(source, events, scaleOk), ScrollOf(source, e, true),
                Scrolls(source, rest, scaleOk), sendOk, sent);
      FrameSucceeds(source, rest, scaleOk, sendOk, sent + more);
      FrameEventsHead(source, events);
      Behind(sent, more, FrameEvents(source, rest));
    }
  }

  lemma FirstEvent(flag: nat, back: bool, value: nat, cval: nat)
    requires value > 0 && cval == if value > 0xFF then 0xFF else value
    ensures Events(flag, back, value) == [Event(flag, back, cval)] + Events(flag, back, value - cval)
  {
  }

  /** One more event behind those sent. */
  lemma SendOne(sent: seq<nat>, e: nat, rest: seq<nat>, sendOk: nat -> bool)
    ensures var at := |sent|;
            && sent + UpToFailure(at, [e] + rest, sendOk) ==
               (sent + [e]) + (if sendOk(at) then UpToFailure(at + 1, rest, sendOk) else [])
            && AllSent(at, [e] + rest, sendOk) == (sendOk(at) && AllSent(at + 1, rest, sendOk))
  {
    assert ([e] + rest)[1..] == rest;
  }

  // --- The client ---

  class WheelInput {
    var pending: seq<PointerEvent>  // context->events
    var sent: seq<nat>              // pointer events handed to the core, successful or not

    constructor ()
      ensures pending == [] && sent == []
    {
      pending, sent := [], [];
    }

    method HandlePointerEvent(e: PointerEvent)
      modifies this`pending
      ensures pending == old(pending) + [e]
    {
      pending := pending + [e];
    }

    /** The loop that sends the steps and stops at the first one that fails. */
    method SendSteps(flags: nat, value: nat, sendOk: nat -> bool, ghost flag: nat, ghost back: bool) returns (ok: bool)
      requires flag == PTR_FLAGS_WHEEL || flag == PTR_FLAGS_HWHEEL
      requires flags == flag + if back then PTR_FLAGS_WHEEL_NEGATIVE else 0
      modifies this`sent
      ensures sent == old(sent) + UpToFailure(|old(sent)|, Events(flag, back, value), sendOk)
      ensures ok == AllSent(|old(sent)|, Events(flag, back, value), sendOk)
    {
      var avalue := value;
      ghost var rest := Events(flag, back, value);
      ghost var all, good := sent + UpToFailure(|sent|, rest, sendOk), AllSent(|sent|, rest, sendOk);
      while avalue > 0
        invariant 0 <= avalue && rest == Events(flag, back, avalue)
        invariant sent + UpToFailure(|sent|, rest, sendOk) == all && AllSent(|sent|, rest, sendOk) == good
        decreases avalue
      {
        var cval := if avalue > 0xFF then 0xFF else avalue;
        var cflags := StepFlags(flags, cval);
        StepFlagsAre(flag, back, cval);
        FirstEvent(flag, back, avalue, cval);
        rest := Events(flag, back, avalue - cval);
        SendOne(sent, cflags, rest, sendOk);
        var sentOk := sendOk(|sent|);
        sent := sent + [cflags];
        if !sentOk { return false; }
        avalue := avalue - cval;
      }
      return true;
    }

    /** `scaleOk` is the outcome of scaling the coordinates. */
    method HandleWheel(axis: Axis, value: i32, scaleOk: bool, sendOk: nat -> bool) returns (ok: bool)
      modifies this`sent
      ensures !scaleOk || axis == OtherAxis ==> !ok && sent == old(sent)
      ensures scaleOk && axis != OtherAxis ==>
                && sent == old(sent) + UpToFailure(|old(sent)|, WheelEvents(axis, value), sendOk)
                && ok == AllSent(|old(sent)|, WheelEvents(axis, value), sendOk)
    {
      var avalue := Abs(value);
      if !scaleOk { return false; }
      var flags := 0;
      match axis {
        case Vertical =>
          flags := flags + PTR_FLAGS_WHEEL;
          if value > 0 { flags := flags + PTR_FLAGS_WHEEL_NEGATIVE; }
        case Horizontal =>
          flags := flags + PTR_FLAGS_HWHEEL;
          if value < 0 { flags := flags + PTR_FLAGS_WHEEL_NEGATIVE; }
        case OtherAxis =>
          return false;
      }
      ok := SendSteps(flags, avalue, sendOk, AxisFlag(axis).value, Backwards(axis, value));
    }

    /** The first pass over the frame. */
    method FindSource() returns (source: Option<Source>)
      ensures source == FrameSource(pending)
    {
      source := None;
      for x := 0 to |pending|
        invariant source == FrameSource(pending[..x])
      {
        assert pending[..x + 1][..x] == pending[..x];
        if pending[x].SourceEvent? { source := Some(pending[x].source); }
      }
      assert pending[..|pending|] == pending;
    }

    /** One event of the second pass. */
    method HandleScroll(source: Source, e: PointerEvent, scaleOk: bool, sendOk: nat -> bool) returns (ok: bool)
      modifies this`sent
      ensures sent == old(sent) + ScrollSent(ScrollOf(source, e, scaleOk), sendOk, |old(sent)|)
      ensures ok == ScrollOk(ScrollOf(source, e, scaleOk), sendOk, |old(sent)|)
    {
      ok := true;
      var v := ScrollValue(source, e);
      if v.Some? { ok := HandleWheel(e.axis, v.value, scaleOk, sendOk); }
    }

    /** The second pass; `scaleOk` tells for each event whether scaling its coordinates succeeds. */
    method HandleScrolls(source: Source, events: seq<PointerEvent>, scaleOk: nat -> bool, sendOk: nat -> bool)
      returns (ok: bool)
      modifies this`sent
      ensures sent == FrameSent(Scrolls(source, events, scaleOk), sendOk, old(sent))
      ensures ok == FrameOk(Scrolls(source, events, scaleOk), sendOk, old(sent))
    {
      ok := true;
      ghost var scrolls := Scrolls(source, events, scaleOk);
      ghost var rest := scrolls;
      ghost var all, good := FrameSent(scrolls, sendOk, sent), FrameOk(scrolls, sendOk, sent);
      for x := 0 to |events|
        invariant rest == scrolls[x..]
        invariant FrameSent(rest, sendOk, sent) == all && (ok && FrameOk(rest, sendOk, sent)) == good
      {
        assert rest[0] == ScrollOf(source, events[x], scaleOk(x)) && rest[1..] == scrolls[x + 1..];
        rest := rest[1..];
        var done := HandleScroll(source, events[x], scaleOk(x), sendOk);
        if !done { ok := false; }
      }
    }

    /** A frame: its events are sent under the source it names last, and forgotten. */
    method HandlePointerFrame(scaleOk: nat -> bool, sendOk: nat -> bool) returns (ok: bool)
      modifies this
      ensures pending == []
      ensures match FrameSource(old(pending))
              case None => ok && sent == old(sent)
              case Some(source) =>
                && sent == FrameSent(Scrolls(source, old(pending), scaleOk), sendOk, old(sent))
                && ok == FrameOk(Scrolls(source, old(pending), scaleOk), sendOk, old(sent))
    {
      ok := true;
      var handle := FindSource();
      if handle.Some? { ok := HandleScrolls(handle.value, pending, scaleOk, sendOk); }
      pending := [];
    }
  }
}
