/**
 Reassembly of virtual channel messages and the worker that handles them (channels/client/addin.c; section
 3.1.5.2.2.1 of MS-RDPBCGR).  Fragments are collected in a stream; a complete message goes to the handler
 directly, or through a queue to a worker thread that a quit message ends.
 */
module ChannelWorker {
  import opened Common

  // --- Reassembly ---

  /** One call of channel_client_post_message; of its flags only these are looked at, `paused` being either of suspend
      and resume.  How far a stream grows beyond what is needed is up to the environment, and so is failing to grow:
      `growTotal` and `growData` are what it picks at the two places. */
  datatype Fragment = Fragment(
    data: bytes, total: nat, first: bool, last: bool, paused: bool, growTotal: Option<nat>, growData: Option<nat>)

  /** The stream being filled: its capacity and what has been written. */
  datatype Partial = Partial(capacity: nat, content: bytes)

  datatype Outcome =
    | Ignored                  // suspend or resume
    | Refused                  // no stream, or it could not grow to the announced total; nothing changed
    | Discarded                // the stream could not take the data and was dropped
    | Kept(mismatch: bool)     // appended; at the end of a message also a length error
    | Delivered(buffer: bytes) // appended, complete and handed over

  function Grow(capacity: nat, need: nat, extra: Option<nat>): Option<nat>
  {
    if capacity >= need then Some(capacity)
    else if extra.None? then None
    else Some(need + extra.value)
  }

  /** The stream after the first-fragment step; None where the call gives up without a change. */
  function Open(input: Option<Partial>, f: Fragment): Option<Partial>
  {
    if !f.first then input
    else match input
      case Some(p) =>
        var c := Grow(p.capacity, f.total, f.growTotal);
        if c.None? then None else Some(p.(capacity := c.value))
      case None =>
        if f.total == 0 then None else Some(Partial(f.total, []))
  }

  function Accept(input: Option<Partial>, f: Fragment): (Option<Partial>, Outcome)
  {
    if f.paused then (input, Ignored)
    else
      var stream := Open(input, f);
      if stream.None? then (input, Refused)
      else
        var p := stream.value;
        var c := Grow(p.capacity, |p.content| + |f.data|, f.growData);
        if c.None? then (None, Discarded)
        else
          var content := p.content + f.data;
          if !f.last then (Some(Partial(c.value, content)), Kept(false))
          else if c.value != |content| then (Some(Partial(c.value, content)), Kept(true))
          else (None, Delivered(content))
  }

  /** A call is refused exactly where there is no stream to add to: a later fragment without a first one, a first one
      that announces nothing, or a stream that cannot grow to the total.  It then leaves everything as it was. */
  lemma RefusedExactly(input: Option<Partial>, f: Fragment)
    ensures Accept(input, f).1 == Refused <==>
            && !f.paused
            && if input.None? then !f.first || f.total == 0
               else f.first && input.value.capacity < f.total && f.growTotal.None?
    ensures Accept(input, f).1 == Refused || f.paused ==> Accept(input, f).0 == input
  {
  }

  /** The stream after a run, from an empty start. */
  function After(input: Option<Partial>, fs: seq<Fragment>): Option<Partial>
  {
    if |fs| == 0 then input else Accept(After(input, fs[..|fs| - 1]), fs[|fs| - 1]).0
  }

  /** The outcome of the last call of a run. */
  function LastOutcome(input: Option<Partial>, fs: seq<Fragment>): Outcome
    requires |fs| > 0
  {
    Accept(After(input, fs[..|fs| - 1]), fs[|fs| - 1]).1
  }

  /** The buffers handed over during a run, in order. */
  function Deliveries(input: Option<Partial>, fs: seq<Fragment>): seq<bytes>
  {
    if |fs| == 0 then []
    else
      Deliveries(input, fs[..|fs| - 1]) +
      match LastOutcome(input, fs)
      case Delivered(b) => [b]
      case _ => []
  }

  /** The data accepted since the last hand-over or reset, told from the outcomes of the calls alone. */
  function Since(fs: seq<Fragment>): bytes
  {
    if |fs| == 0 then []
    else
      var before := Since(fs[..|fs| - 1]);
      match LastOutcome(None, fs)
      case Kept(_) => before + fs[|fs| - 1].data
      case Delivered(_) => []
      case Discarded => []
      case _ => before
  }

  ghost predicate Holds(input: Option<Partial>, content: bytes)
  {
    content == if input.Some? then input.value.content else []
  }

  lemma {:induction false} StreamHoldsSince(fs: seq<Fragment>)
    ensures Holds(After(None, fs), Since(fs))
  {
    if |fs| > 0 { StreamHoldsSince(fs[..|fs| - 1]); }
  }

  /** In every run, malformed ones included, a buffer that is handed over is the concatenation of the fragments
      accepted since the previous hand-over or reset. */
  lemma DeliveredIsConcatenation(fs: seq<Fragment>)
    requires |fs| > 0 && LastOutcome(None, fs).Delivered?
    ensures LastOutcome(None, fs).buffer == Since(fs[..|fs| - 1]) + fs[|fs| - 1].data
  {
    StreamHoldsSince(fs[..|fs| - 1]);
  }

  /** One more call of a run. */
  lemma PostOne(input: Option<Partial>, fs: seq<Fragment>, f: Fragment)
    ensures var (stream, outcome) := Accept(After(input, fs), f);
            && After(input, fs + [f]) == stream
            && Deliveries(input, fs + [f]) == Deliveries(input, fs) +
                if outcome.Delivered? then [outcome.buffer] else []
  {
    assert (fs + [f])[..|fs|] == fs;
  }

  /** The calls of a run without those that suspend or resume. */
  function Active(fs: seq<Fragment>): seq<Fragment>
  {
    if |fs| == 0 then []
    else Active(fs[..|fs| - 1]) + if fs[|fs| - 1].paused then [] else [fs[|fs| - 1]]
  }

  /** Suspending and resuming make no difference: the stream and all that is handed over are those of the other
      calls. */
  lemma {:induction false} PausesIgnored(input: Option<Partial>, fs: seq<Fragment>)
    ensures After(input, fs) == After(input, Active(fs)) && Deliveries(input, fs) == Deliveries(input, Active(fs))
  {
    if |fs| > 0 {
      var before, f := fs[..|fs| - 1], fs[|fs| - 1];
      PausesIgnored(input, before);
      assert fs == before + [f];
      PostOne(input, before, f);
      if f.paused { assert Active(before) + [] == Active(before); } else { PostOne(input, Active(before), f); }
    }
  }

  // --- Well-formed messages ---

  function Payload(fs: seq<Fragment>): bytes
  {
    if |fs| == 0 then [] else Payload(fs[..|fs| - 1]) + fs[|fs| - 1].data
  }

  /** A message cut into fragments as the protocol asks. */
  predicate WellFormed(m: seq<Fragment>)
  {
    && |m| > 0 && |Payload(m)| > 0
    && forall i :: 0 <= i < |m| ==>
         && !m[i].paused && (m[i].first <==> i == 0) && (m[i].last <==> i == |m| - 1)
         && m[i].total == |Payload(m)|
  }

  lemma {:induction false} PayloadPrefix(m: seq<Fragment>, k: nat)
    requires k <= |m|
    ensures |Payload(m[..k])| <= |Payload(m)|
    decreases |m|
  {
    if k < |m| {
      assert m[..|m| - 1][..k] == m[..k];
      PayloadPrefix(m[..|m| - 1], k);
    } else {
      assert m[..k] == m;
    }
  }

  /** The stream within a message that started clean: its capacity is the announced total throughout. */
  lemma {:induction false} WithinMessage(m: seq<Fragment>, k: nat)
    requires WellFormed(m) && 0 < k < |m|
    ensures After(None, m[..k]) == Some(Partial(|Payload(m)|, Payload(m[..k])))
    ensures Deliveries(None, m[..k]) == []
  {
    assert m[..k][..k - 1] == m[..k - 1];
    PayloadPrefix(m, k);
    if k > 1 {
      WithinMessage(m, k - 1);
    } else {
      assert m[..0] == [];
    }
    assert Payload(m[..k]) == Payload(m[..k - 1]) + m[k - 1].data;
  }

  /** From a clean start a well-formed message is handed over once, whole, and leaves a clean start behind. */
  lemma MessageDelivered(m: seq<Fragment>)
    requires WellFormed(m)
    ensures After(None, m) == None && Deliveries(None, m) == [Payload(m)]
  {
    var n := |m| - 1;
    assert m[..n] == m[..|m| - 1];
    if n > 0 { WithinMessage(m, n); }
  }

  function Flatten(ms: seq<seq<Fragment>>): seq<Fragment>
  {
    if |ms| == 0 then [] else Flatten(ms[..|ms| - 1]) + ms[|ms| - 1]
  }

  function Payloads(ms: seq<seq<Fragment>>): seq<bytes>
  {
    if |ms| == 0 then [] else Payloads(ms[..|ms| - 1]) + [Payload(ms[|ms| - 1])]
  }

  lemma {:induction false} RunConcat(input: Option<Partial>, a: seq<Fragment>, b: seq<Fragment>)
    ensures After(input, a + b) == After(After(input, a), b)
    ensures Deliveries(input, a + b) == Deliveries(input, a) + Deliveries(After(input, a), b)
    decreases |b|
  {
    if |b| == 0 {
      assert a + b == a;
    } else {
      var b' := b[..|b| - 1];
      assert (a + b)[..|a + b| - 1] == a + b';
      RunConcat(input, a, b');
    }
  }

  /** Any sequence of well-formed messages arrives as exactly those messages in order. */
  lemma {:induction false} MessagesDelivered(ms: seq<seq<Fragment>>)
    requires forall m :: m in ms ==> WellFormed(m)
    ensures After(None, Flatten(ms)) == None && Deliveries(None, Flatten(ms)) == Payloads(ms)
  {
    if |ms| > 0 {
      MessagesDelivered(ms[..|ms| - 1]);
      MessageDelivered(ms[|ms| - 1]);
      RunConcat(None, Flatten(ms[..|ms| - 1]), ms[|ms| - 1]);
    }
  }

  /** Nothing is left over from an earlier message, and the stream ends up with the announced capacity. */
  predicate CleanFor(input: Option<Partial>, f: Fragment)
  {
    input.Some? ==> input.value.content == [] && Grow(input.value.capacity, f.total, f.growTotal) == Some(f.total)
  }

  /** The fragments of a message behind its first one. */
  predicate Tail(fs: seq<Fragment>)
  {
    |fs| > 0 && forall i :: 0 <= i < |fs| ==> !fs[i].paused && !fs[i].first && (fs[i].last <==> i == |fs| - 1)
  }

  /** The number of bytes in the fragments. */
  function Size(fs: seq<Fragment>): (n: nat)
    ensures n == |Payload(fs)|
  {
    if |fs| == 0 then 0 else Size(fs[..|fs| - 1]) + |fs[|fs| - 1].data|
  }

  /** The capacity after the fragments have been appended to `have` bytes; None where the stream could not grow. */
  function Capacity(capacity: nat, have: nat, fs: seq<Fragment>): Option<nat>
  {
    if |fs| == 0 then Some(capacity)
    else
      var before := Capacity(capacity, have, fs[..|fs| - 1]);
      if before.None? then None else Grow(before.value, have + Size(fs), fs[|fs| - 1].growData)
  }

  /** The stream after its fragments but the last. */
  function Appended(p: Partial, fs: seq<Fragment>): Option<Partial>
  {
    var c := Capacity(p.capacity, |p.content|, fs);
    if c.None? then None else Some(Partial(c.value, p.content + Payload(fs)))
  }

  lemma AcceptTail(input: Option<Partial>, f: Fragment)
    requires !f.paused && !f.first
    ensures Accept(input, f) ==
            if input.None? then (None, Refused)
            else
              var content := input.value.content + f.data;
              var c := Grow(input.value.capacity, |content|, f.growData);
              if c.None? then (None, Discarded)
              else if f.last && c.value == |content| then (None, Delivered(content))
              else (Some(Partial(c.value, content)), Kept(f.last))
  {
  }

  lemma {:induction false} WithinTail(p: Partial, fs: seq<Fragment>, k: nat)
    requires Tail(fs) && k < |fs|
    ensures After(Some(p), fs[..k]) == Appended(p, fs[..k]) && Deliveries(Some(p), fs[..k]) == []
  {
    if k == 0 {
      assert p.content + [] == p.content;
    } else {
      assert fs[..k][..k - 1] == fs[..k - 1] && fs[..k][k - 1] == fs[k - 1];
      WithinTail(p, fs, k - 1);
      AcceptTail(Appended(p, fs[..k - 1]), fs[k - 1]);
      AppendPayload(p.content, fs, k);
    }
  }

  /** The fragments fill the stream to its capacity. */
  predicate Fills(p: Partial, fs: seq<Fragment>)
  {
    Capacity(p.capacity, |p.content|, fs) == Some(|p.content| + |Payload(fs)|)
  }

  lemma CapacitySnoc(capacity: nat, have: nat, all: seq<Fragment>, fs: seq<Fragment>, f: Fragment)
    requires |all| == |fs| + 1 && all[..|fs|] == fs && all[|fs|] == f
    ensures var before := Capacity(capacity, have, fs);
            Capacity(capacity, have, all) ==
              if before.None? then None else Grow(before.value, have + Size(all), f.growData)
  {
  }

  /** What the last fragment hands over. */
  lemma LastHandsOver(p: Partial, fs: seq<Fragment>, f: Fragment)
    requires !f.paused && !f.first && f.last
    ensures var o, all := Accept(Appended(p, fs), f).1, p.content + Payload(fs + [f]);
            if Fills(p, fs + [f]) then o == Delivered(all) else !o.Delivered?
  {
    PayloadSnoc(fs, f);
    CapacitySnoc(p.capacity, |p.content|, fs + [f], fs, f);
    AcceptTail(Appended(p, fs), f);
    Associates(p.content, Payload(fs), f.data);
  }

  /** On any stream the fragments behind the first are handed over exactly when the stream is full at the end. */
  lemma TailDelivered(p: Partial, fs: seq<Fragment>)
    requires Tail(fs)
    ensures Deliveries(Some(p), fs) ==
            if Fills(p, fs) then [p.content + Payload(fs)] else []
  {
    var n := |fs| - 1;
    var before, last := fs[..n], fs[n];
    assert fs == before + [last];
    WithinTail(p, fs, n);
    PostOne(Some(p), before, last);
    LastHandsOver(p, before, last);
  }

  /** A stream with room for everything does not grow. */
  lemma {:induction false} RoomyCapacity(capacity: nat, have: nat, fs: seq<Fragment>)
    requires capacity >= have + |Payload(fs)|
    ensures Capacity(capacity, have, fs) == Some(capacity)
  {
    if |fs| > 0 { RoomyCapacity(capacity, have, fs[..|fs| - 1]); }
  }

  lemma RoomyFills(p: Partial, fs: seq<Fragment>)
    requires p.capacity >= |p.content| + |Payload(fs)|
    ensures Fills(p, fs) <==> p.capacity == |p.content| + |Payload(fs)|
  {
    RoomyCapacity(p.capacity, |p.content|, fs);
  }

  lemma AppendPayload(before: bytes, m: seq<Fragment>, k: nat)
    requires 0 < k <= |m|
    ensures before + Payload(m[..k]) == before + Payload(m[..k - 1]) + m[k - 1].data
  {
    assert m[..k][..k - 1] == m[..k - 1];
  }

  lemma {:induction false} PayloadConcat(a: seq<Fragment>, b: seq<Fragment>)
    ensures Payload(a + b) == Payload(a) + Payload(b)
  {
    if |b| == 0 {
      assert a + b == a;
    } else {
      assert (a + b)[..|a + b| - 1] == a + b[..|b| - 1];
      PayloadConcat(a, b[..|b| - 1]);
    }
  }

  lemma PayloadHead(f: Fragment, rest: seq<Fragment>)
    ensures Payload([f] + rest) == f.data + Payload(rest)
  {
    var none: seq<Fragment> := [];
    assert [f] == none + [f];
    PayloadSnoc(none, f);
    PayloadConcat([f], rest);
    assert [] + f.data == f.data;
  }

  lemma PayloadSnoc(fs: seq<Fragment>, f: Fragment)
    ensures Payload(fs + [f]) == Payload(fs) + f.data
  {
    assert (fs + [f])[..|fs|] == fs;
  }

  /** A message as its first fragment and the others. */
  predicate Splits(m: seq<Fragment>, f: Fragment, rest: seq<Fragment>)
  {
    && m == [f] + rest && !f.paused && f.first && (f.last <==> rest == []) && (rest != [] ==> Tail(rest))
    && f.total == |f.data| + |Payload(rest)|
  }

  lemma SplitMessage(m: seq<Fragment>)
    requires WellFormed(m)
    ensures Splits(m, m[0], m[1..]) && Payload(m) == m[0].data + Payload(m[1..])
  {
    var rest := m[1..];
    assert m == [m[0]] + rest;
    PayloadHead(m[0], rest);
    forall i | 0 <= i < |rest| ensures !rest[i].paused && !rest[i].first && (rest[i].last <==> i == |rest| - 1) {
      assert rest[i] == m[i + 1];
    }
  }

  function HandedOver(o: Outcome): seq<bytes> { if o.Delivered? then [o.buffer] else [] }

  lemma FirstThenRest(input: Option<Partial>, f: Fragment, rest: seq<Fragment>)
    ensures var (stream, outcome) := Accept(input, f);
            Deliveries(input, [f] + rest) == HandedOver(outcome) + Deliveries(stream, rest)
  {
    var none: seq<Fragment> := [];
    assert [f] == none + [f];
    PostOne(input, none, f);
    RunConcat(input, [f], rest);
  }

  lemma {:induction false} NoneTail(fs: seq<Fragment>)
    requires forall f :: f in fs ==> !f.paused && !f.first
    ensures After(None, fs) == None && Deliveries(None, fs) == []
  {
    if |fs| > 0 {
      NoneTail(fs[..|fs| - 1]);
      AcceptTail(None, fs[|fs| - 1]);
    }
  }

  /** The first fragment is refused for want of memory, and what is left over from before just equals its data and ends
      up filling the stream. */
  predicate Coincides(input: Option<Partial>, m: seq<Fragment>)
  {
    && |m| > 1 && input.Some? && Grow(input.value.capacity, m[0].total, m[0].growTotal) == None
    && input.value.content == m[0].data && Fills(input.value, m[1..])
  }

  /** The first fragment on a stream that can take the total. */
  lemma AcceptFirst(p: Partial, f: Fragment, c: nat)
    requires !f.paused && f.first && Grow(p.capacity, f.total, f.growTotal) == Some(c)
    ensures Accept(Some(p), f) ==
            var content := p.content + f.data;
            var c' := Grow(c, |content|, f.growData);
            if c'.None? then (None, Discarded)
            else if f.last && c'.value == |content| then (None, Delivered(content))
            else (Some(Partial(c'.value, content)), Kept(f.last))
  {
  }

  lemma Longer(a: bytes, b: bytes, c: bytes)
    requires a != []
    ensures [(a + b) + c] != [b + c]
  {
    assert |(a + b) + c| > |b + c|;
    assert [(a + b) + c][0] == (a + b) + c && [b + c][0] == b + c;
  }

  /** On a stream with something left over a message is not handed over as it was sent. */
  lemma LeftOver(p: Partial, m: seq<Fragment>, f: Fragment, rest: seq<Fragment>, c: nat)
    requires Splits(m, f, rest) && Grow(p.capacity, f.total, f.growTotal) == Some(c) && p.content != []
    ensures Deliveries(Some(p), m) != [f.data + Payload(rest)]
  {
    FirstThenRest(Some(p), f, rest);
    AcceptFirst(p, f, c);
    var content := p.content + f.data;
    var c' := Grow(c, |content|, f.growData);
    Longer(p.content, f.data, Payload(rest));
    if rest == [] {
      assert content + Payload(rest) == content;
    } else if c'.None? {
      NoneTail(rest);
    } else {
      TailDelivered(Partial(c'.value, content), rest);
    }
  }

  lemma EmptyTakesFirst(p: Partial, f: Fragment, c: nat)
    requires !f.paused && f.first && Grow(p.capacity, f.total, f.growTotal) == Some(c)
             && p.content == [] && |f.data| <= f.total
    ensures Accept(Some(p), f) ==
            if f.last && c == |f.data| then (None, Delivered(f.data)) else (Some(Partial(c, f.data)), Kept(f.last))
  {
    AcceptFirst(p, f, c);
    assert p.content + f.data == f.data;
  }

  /** On a stream with nothing left over a message is handed over exactly when the stream has its total as capacity. */
  lemma NothingLeftOver(p: Partial, m: seq<Fragment>, f: Fragment, rest: seq<Fragment>, c: nat)
    requires Splits(m, f, rest) && Grow(p.capacity, f.total, f.growTotal) == Some(c) && p.content == []
    ensures Deliveries(Some(p), m) == [f.data + Payload(rest)] <==> c == f.total
  {
    FirstThenRest(Some(p), f, rest);
    EmptyTakesFirst(p, f, c);
    if rest == [] {
      assert f.data + Payload(rest) == f.data;
    } else {
      assert Deliveries(Some(p), m) == Deliveries(Some(Partial(c, f.data)), rest);
      RoomyDelivered(Partial(c, f.data), rest);
    }
  }

  lemma RoomyDelivered(p: Partial, fs: seq<Fragment>)
    requires Tail(fs) && p.capacity >= |p.content| + |Payload(fs)|
    ensures Deliveries(Some(p), fs) == [p.content + Payload(fs)] <==> p.capacity == |p.content| + |Payload(fs)|
  {
    TailDelivered(p, fs);
    RoomyFills(p, fs);
    AllOrNone(Deliveries(Some(p), fs), Fills(p, fs), p.content, p.content, Payload(fs));
  }

  /** The first fragment is refused, and the others go to the stream as it was. */
  lemma FirstRefused(p: Partial, m: seq<Fragment>, f: Fragment, rest: seq<Fragment>)
    requires Splits(m, f, rest) && Grow(p.capacity, f.total, f.growTotal) == None
    ensures Deliveries(Some(p), m) == [f.data + Payload(rest)] <==>
            rest != [] && p.content == f.data && Fills(p, rest)
  {
    FirstThenRest(Some(p), f, rest);
    assert Deliveries(Some(p), m) == Deliveries(Some(p), rest) by { assert Accept(Some(p), f) == (Some(p), Refused); }
    if rest != [] {
      TailDelivered(p, rest);
      AllOrNone(Deliveries(Some(p), rest), Fills(p, rest), p.content, f.data, Payload(rest));
    }
  }

  lemma AllOrNone(deliveries: seq<bytes>, full: bool, a: bytes, b: bytes, c: bytes)
    requires deliveries == if full then [a + c] else []
    ensures deliveries == [b + c] <==> full && a == b
  {
    SameEnd(a, b, c);
    if deliveries == [b + c] { assert deliveries[0] == b + c; }
  }

  lemma SameEnd(a: bytes, b: bytes, c: bytes)
    ensures a + c == b + c <==> a == b
  {
    if a + c == b + c { assert |a| == |b| && a == (a + c)[..|a|] == (b + c)[..|b|] == b; }
  }

  /** After any history, and whether or not memory lasts: a well-formed message is handed over as it was sent exactly
      when the stream it starts on is clean and takes its total, or what is left over happens to stand in for the first
      fragment.  A message broken by a length mismatch leaves a stream that is not clean. */
  lemma DeliveredIntact(input: Option<Partial>, m: seq<Fragment>)
    requires WellFormed(m)
    ensures Deliveries(input, m) == [Payload(m)] <==> CleanFor(input, m[0]) || Coincides(input, m)
  {
    SplitMessage(m);
    if input.None? {
      MessageDelivered(m);
    } else {
      var p, f, rest := input.value, m[0], m[1..];
      var c := Grow(p.capacity, f.total, f.growTotal);
      if c.None? { FirstRefused(p, m, f, rest); }
      else if p.content == [] { NothingLeftOver(p, m, f, rest, c.value); }
      else { LeftOver(p, m, f, rest, c.value); }
    }
  }

  /** A message one byte short of its total leaves that byte to the next message. */
  lemma MismatchSpoilsNext(a: byte, b: byte)
    ensures var short := Fragment([a], 2, true, true, false, Some(0), Some(0));
            var whole := Fragment([b], 1, true, true, false, Some(0), Some(0));
            WellFormed([whole]) && Deliveries(None, [short] + [whole]) == [[a] + [b]]
  {
    var short := Fragment([a], 2, true, true, false, Some(0), Some(0));
    var whole := Fragment([b], 1, true, true, false, Some(0), Some(0));
    var none: seq<Fragment> := [];
    assert [short] == none + [short];
    PostOne(None, none, short);
    assert [] + [a] == [a];
    PostOne(None, [short], whole);
    assert [whole][..0] == [];
    assert Payload([whole]) == [] + [b];
  }

  /** A stream that has to grow for a message holds it exactly only where it grows to just its total; any slack keeps
      the message back. */
  lemma SlackKeepsMessage(capacity: nat, f: Fragment, slack: nat)
    requires WellFormed([f]) && capacity < f.total && f.growTotal == Some(slack)
    ensures Deliveries(Some(Partial(capacity, [])), [f]) == if slack == 0 then [f.data] else []
  {
    var none: seq<Fragment> := [];
    assert [f] == none + [f] && [f][..0] == none;
    assert Payload([f]) == [] + f.data == f.data;
    PostOne(Some(Partial(capacity, [])), none, f);
    assert [] + f.data == f.data;
  }

  // --- The worker ---

  datatype Message = Data(buffer: bytes) | Quit

  datatype Worker = Running | Exited(error: nat)

  /** The channel's handler: its error code may depend on everything it has handled before. */
  type Handler = (seq<bytes>, bytes) -> nat

  datatype System = System(input: Option<Partial>, queue: seq<Message>, handled: seq<bytes>, worker: Worker)

  const Start: System := System(None, [], [], Running)

  /** Producer and worker steps, in any order a scheduler may choose. */
  datatype Action = Post(fragment: Fragment) | Work | Shut

  function Act(h: Handler, s: System, a: Action): System
  {
    match a
    case Post(f) =>
      var (input, outcome) := Accept(s.input, f);
      s.(input := input, queue := s.queue + if outcome.Delivered? then [Data(outcome.buffer)] else [])
    case Shut => s.(queue := s.queue + [Quit])
    case Work =>
      if s.worker.Exited? || |s.queue| == 0 then s
      else
        match s.queue[0]
        case Quit => s.(queue := s.queue[1..], worker := Exited(0))
        case Data(b) =>
          var e := h(s.handled, b);
          s.(queue := s.queue[1..], handled := s.handled + [b], worker := if e != 0 then Exited(e) else Running)
  }

  function Run(h: Handler, acts: seq<Action>): System
  {
    if |acts| == 0 then Start else Act(h, Run(h, acts[..|acts| - 1]), acts[|acts| - 1])
  }

  function Posts(acts: seq<Action>): seq<Fragment>
  {
    if |acts| == 0 then []
    else
      Posts(acts[..|acts| - 1]) +
      if acts[|acts| - 1].Post? then [acts[|acts| - 1].fragment] else []
  }

  /** Without threads the handler is called at each hand-over, whatever it returned before. */
  function Unthreaded(fs: seq<Fragment>): seq<bytes>
  {
    Deliveries(None, fs)
  }

  function DataOf(q: seq<Message>): seq<bytes>
  {
    if |q| == 0 then [] else DataOf(q[..|q| - 1]) + if q[|q| - 1].Data? then [q[|q| - 1].buffer] else []
  }

  lemma {:induction false} DataOfPop(q: seq<Message>)
    requires |q| > 0
    ensures DataOf(q) == (if q[0].Data? then [q[0].buffer] else []) + DataOf(q[1..])
  {
    if |q| > 1 {
      assert q[..|q| - 1][1..] == q[1..][..|q| - 2];
      DataOfPop(q[..|q| - 1]);
    }
  }

  /** The handle is freed by quitting: nothing is posted after it. */
  predicate Orderly(acts: seq<Action>)
  {
    forall i, j :: 0 <= i < j < |acts| && acts[i].Shut? ==> acts[j].Work?
  }

  predicate IsShut(acts: seq<Action>)
  {
    exists i :: 0 <= i < |acts| && acts[i].Shut?
  }

  /** No handler call before the last of `seen` failed, and the last one failed exactly with `error`. */
  ghost predicate FailsOnlyAtEnd(h: Handler, seen: seq<bytes>, error: nat)
  {
    && (forall i :: 0 <= i < |seen| - 1 ==> h(seen[..i], seen[i]) == 0)
    && (if |seen| == 0 then error == 0 else error == h(seen[..|seen| - 1], seen[|seen| - 1]))
  }

  ghost predicate Invariant(h: Handler, acts: seq<Action>, s: System)
  {
    && s.input == After(None, Posts(acts))
    && s.handled + DataOf(s.queue) == Unthreaded(Posts(acts))
    && FailsOnlyAtEnd(h, s.handled, if s.worker.Running? then 0 else s.worker.error)
    && (forall i :: 0 <= i < |s.queue| && s.queue[i] == Quit ==> i == |s.queue| - 1 && IsShut(acts))
    && (s.worker == Exited(0) ==> s.queue == [] && IsShut(acts))
    && (IsShut(acts) && s.worker.Running? ==> |s.queue| > 0 && s.queue[|s.queue| - 1] == Quit)
  }

  lemma SeeOneMore(h: Handler, seen: seq<bytes>, b: bytes)
    requires FailsOnlyAtEnd(h, seen, 0)
    ensures FailsOnlyAtEnd(h, seen + [b], h(seen, b))
  {
    var more := seen + [b];
    assert more[..|seen|] == seen;
    forall i | 0 <= i < |seen| ensures h(more[..i], more[i]) == 0 {
      assert more[..i] == seen[..i];
    }
  }

  lemma PostKeepsInvariant(h: Handler, acts: seq<Action>, s: System)
    requires |acts| > 0 && acts[|acts| - 1].Post? && !IsShut(acts) && Invariant(h, acts[..|acts| - 1], s)
    ensures Invariant(h, acts, Act(h, s, acts[|acts| - 1]))
  {
    var before, f := acts[..|acts| - 1], acts[|acts| - 1].fragment;
    var (input, outcome) := Accept(s.input, f);
    PostOne(None, Posts(before), f);
    assert !IsShut(before);
    if outcome.Delivered? {
      DataOfAppend(s.handled, s.queue, outcome.buffer);
    } else {
      assert s.queue + [] == s.queue;
    }
  }

  lemma DataOfAppend(handled: seq<bytes>, q: seq<Message>, b: bytes)
    ensures handled + DataOf(q + [Data(b)]) == handled + DataOf(q) + [b]
  {
    assert (q + [Data(b)])[..|q|] == q;
  }

  lemma WorkKeepsInvariant(h: Handler, acts: seq<Action>, s: System)
    requires |acts| > 0 && acts[|acts| - 1].Work? && Invariant(h, acts[..|acts| - 1], s)
    requires IsShut(acts) <==> IsShut(acts[..|acts| - 1])
    ensures Invariant(h, acts, Act(h, s, Work))
  {
    assert Posts(acts) == Posts(acts[..|acts| - 1]);
    if s.worker.Running? && |s.queue| > 0 {
      DataOfPop(s.queue);
      var s' := Act(h, s, Work);
      assert s'.handled + DataOf(s'.queue) == s.handled + DataOf(s.queue);
      assert forall i :: 0 <= i < |s'.queue| ==> s'.queue[i] == s.queue[i + 1];
      if s.queue[0].Data? {
        SeeOneMore(h, s.handled, s.queue[0].buffer);
      }
    }
  }

  lemma {:induction false} RunInvariant(h: Handler, acts: seq<Action>)
    requires Orderly(acts)
    ensures Invariant(h, acts, Run(h, acts))
  {
    if |acts| > 0 {
      var n := |acts| - 1;
      var before, a := acts[..n], acts[n];
      RunInvariant(h, before);
      var s := Run(h, before);
      assert IsShut(acts) <==> IsShut(before) || a.Shut?;
      match a {
        case Post(f) => PostKeepsInvariant(h, acts, s);
        case Shut =>
          assert !IsShut(before);
          assert DataOf(s.queue + [Quit]) == DataOf(s.queue) by { assert (s.queue + [Quit])[..|s.queue|] == s.queue; }
          assert Posts(acts) == Posts(before);
        case Work => WorkKeepsInvariant(h, acts, s);
      }
    }
  }

  /** For every interleaving: what the worker has handled is a prefix of the sequence that direct calls would
      handle, each once and in order, and no call before the last one failed; after a quit without a handler
      error the two sequences are the same. */
  lemma ThreadedAsUnthreaded(h: Handler, acts: seq<Action>)
    requires Orderly(acts)
    ensures var s, direct := Run(h, acts), Unthreaded(Posts(acts));
            && s.handled <= direct
            && FailsOnlyAtEnd(h, s.handled, if s.worker.Running? then 0 else s.worker.error)
            && (s.worker == Exited(0) ==> s.handled == direct)
  {
    RunInvariant(h, acts);
  }

  function Works(n: nat): seq<Action>
  {
    seq(n, _ => Work)
  }

  /** Once quit is posted the worker exits after at most as many steps as there are messages. */
  lemma {:induction false} WorkerExits(h: Handler, acts: seq<Action>)
    requires Orderly(acts) && IsShut(acts)
    ensures Run(h, acts + Works(|Run(h, acts).queue|)).worker.Exited?
    decreases |Run(h, acts).queue|
  {
    var s := Run(h, acts);
    RunInvariant(h, acts);
    var n := |s.queue|;
    if n == 0 || s.worker.Exited? {
      WorkAfterExit(h, acts, n);
    } else {
      var acts' := acts + [Work];
      assert acts'[..|acts|] == acts;
      assert exists i :: 0 <= i < |acts'| && acts'[i].Shut?;
      WorkerExits(h, acts');
      assert acts' + Works(n - 1) == acts + Works(n);
    }
  }

  lemma {:induction false} WorkAfterExit(h: Handler, acts: seq<Action>, n: nat)
    requires Run(h, acts).worker.Exited?
    ensures Run(h, acts + Works(n)) == Run(h, acts)
  {
    if n == 0 {
      assert acts + Works(0) == acts;
    } else {
      assert (acts + Works(n))[..|acts| + n - 1] == acts + Works(n - 1);
      WorkAfterExit(h, acts, n - 1);
    }
  }

  // --- The handler object ---

  datatype Code = RcOk | RcNoMemory | RcInternalError

  class MsgProc {
    const threaded: bool
    const handler: Handler
    var dataIn: Option<Partial>
    var queue: seq<Message>
    var handled: seq<bytes>
    var worker: Worker

    ghost function View(): System
      reads this
    {
      System(dataIn, queue, handled, worker)
    }

    constructor (threaded: bool, handler: Handler)
      ensures View() == Start && this.threaded == threaded && this.handler == handler
    {
      this.threaded, this.handler := threaded, handler;
      dataIn, queue, handled, worker := None, [], [], Running;
    }

    method PostMessage(f: Fragment) returns (rc: Code)
      modifies `dataIn, `queue, `handled
      ensures var (input, outcome) := Accept(old(dataIn), f);
              && dataIn == input
              && queue == old(queue) + (if threaded && outcome.Delivered? then [Data(outcome.buffer)] else [])
              && handled == old(handled) + (if !threaded && outcome.Delivered? then [outcome.buffer] else [])
              && rc == match outcome
                       case Ignored => RcOk
                       case Refused => RcNoMemory
                       case Discarded => RcNoMemory
                       case Kept(mismatch) => if mismatch then RcInternalError else RcOk
                       case Delivered(b) => if !threaded && handler(old(handled), b) != 0 then RcInternalError else RcOk
    {
      if f.paused { return RcOk; }
      var stream := dataIn;
      if f.first {
        if stream.Some? {
          var capacity := Grow(stream.value.capacity, f.total, f.growTotal);
          if capacity.None? { return RcNoMemory; }
          stream := Some(stream.value.(capacity := capacity.value));
        } else if f.total != 0 {
          stream := Some(Partial(f.total, []));
        }
      }
      if stream.None? { return RcNoMemory; }
      var capacity := Grow(stream.value.capacity, |stream.value.content| + |f.data|, f.growData);
      if capacity.None? {
        dataIn := None;
        return RcNoMemory;
      }
      var content := stream.value.content + f.data;
      dataIn := Some(Partial(capacity.value, content));
      if f.last {
        if capacity.value != |content| { return RcInternalError; }
        dataIn := None;
        if !threaded {
          var error := handler(handled, content);
          handled := handled + [content];
          if error != 0 { return RcInternalError; }
        } else {
          queue := queue + [Data(content)];
        }
      }
      return RcOk;
    }

    method QuitHandler()
      requires threaded
      modifies `queue
      ensures View() == Act(handler, old(View()), Shut)
    {
      queue := queue + [Quit];
    }

    /** One round of the thread's loop; waiting on an empty queue leaves everything as it is. */
    method WorkRound()
      requires worker.Running?
      modifies `queue, `handled, `worker
      ensures View() == Act(handler, old(View()), Work)
    {
      if |queue| == 0 { return; }
      var message := queue[0];
      queue := queue[1..];
      if message == Quit {
        worker := Exited(0);
      } else {
        var error := handler(handled, message.buffer);
        handled := handled + [message.buffer];
        if error != 0 { worker := Exited(error); }
      }
    }

    /** The thread's loop under any schedule: each Work lets it go through one round, and the other actions are calls of
        the producer in between.  It ends when the worker exits, after `n` actions. */
    method ThreadProc(schedule: seq<Action>) returns (n: nat)
      requires threaded && View() == Start
      modifies this
      ensures n <= |schedule| && View() == Run(handler, schedule[..n])
      ensures n < |schedule| ==> worker.Exited?
    {
      n := 0;
      while n < |schedule| && worker.Running?
        invariant n <= |schedule| && View() == Run(handler, schedule[..n])
      {
        assert schedule[..n + 1][..n] == schedule[..n];
        match schedule[n] {
          case Post(f) => var rc := PostMessage(f);
          case Shut => QuitHandler();
          case Work => WorkRound();
        }
        n := n + 1;
      }
    }
  }
}
