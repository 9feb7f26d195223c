/**
 Incremental (INCR) transfers of the X11 clipboard engine: when the pieces give the server what one property would have
 given it.
 */
module XfIncremental {
  import opened Common
  import opened XfFormats
  import opened XfAnnounce
  import opened XfClipboard
  import opened XfClipboardRuns

  /** A run from a given state: the state after it and all that was sent. */
  function Ran(cfg: Config, s: State, es: seq<Event>): Result
    decreases |es|
  {
    if |es| == 0 then Result(s, [])
    else
      var before := Ran(cfg, s, es[..|es| - 1]);
      var r := Step(cfg, before.state, es[|es| - 1]);
      Result(r.state, before.out + r.out)
  }

  /** The runs of the engine are those from its initial state. */
  lemma {:induction false} RanFromInit(cfg: Config, es: seq<Event>)
    ensures Ran(cfg, Init(cfg), es) == Result(After(cfg, es), Sent(cfg, es))
  {
    if |es| > 0 { RanFromInit(cfg, es[..|es| - 1]); }
  }

  /** A new piece of the property. */
  predicate Piece(e: Event)
  {
    e.OnPropertyChunk? && !e.property.incr && |e.property.data| > 0 && e.property.readOk
  }

  /** What may happen between two pieces: requests of X clients, and responses and lists of the server. */
  predicate Apart(e: Event) { e.OnSelectionRequest? || e.OnServerDataResponse? || e.OnServerFormatList? }

  ghost predicate Transferring(es: seq<Event>) { forall i :: 0 <= i < |es| ==> Piece(es[i]) || Apart(es[i]) }

  function Grown(data: Option<bytes>, e: Event): Option<bytes>
  {
    if Piece(e) then Some((if data.Some? then data.value else []) + e.property.data) else data
  }

  /** The pieces put together, if there are any. */
  function Assembled(es: seq<Event>): Option<bytes>
  {
    if |es| == 0 then None else Grown(Assembled(es[..|es| - 1]), es[|es| - 1])
  }

  /** The transfer of client format `c` is under way with `data` so far. */
  predicate UnderWay(cfg: Config, s: State, c: ClientFormat, data: Option<bytes>)
  {
    Open(s) && RequestedClient(cfg, s) == Some(c) && s.incrStarts && s.incrData == data
  }

  lemma ApartKeeps(cfg: Config, s: State, e: Event)
    requires Apart(e)
    ensures var r := Step(cfg, s, e);
            && r.state.requestedFormatId == s.requestedFormatId
            && r.state.incrStarts == s.incrStarts && r.state.incrData == s.incrData
            && |r.out| <= 1 && (|r.out| == 1 ==> !r.out[0].DataResponse?)
  {
  }

  lemma PieceAdds(cfg: Config, s: State, c: ClientFormat, data: Option<bytes>, e: Event)
    requires UnderWay(cfg, s, c, data) && Piece(e)
    ensures var r := Step(cfg, s, e);
            r.out == [] && UnderWay(cfg, r.state, c, Grown(data, e))
  {
  }

  lemma RanAppend(cfg: Config, s: State, es: seq<Event>, e: Event)
    ensures var before := Ran(cfg, s, es);
            var r := Step(cfg, before.state, e);
            Ran(cfg, s, es + [e]) == Result(r.state, before.out + r.out)
  {
    assert (es + [e])[..|es|] == es;
  }

  /** The owner announces that the data of the open request comes in pieces. */
  predicate Starts(cfg: Config, s: State, c: ClientFormat, e: Event)
  {
    && Open(s) && RequestedClient(cfg, s) == Some(c) && c.atom != cfg.targets
    && e.OnSelectionNotify? && e.target == c.atom && e.property.incr && |e.property.data| > 0
  }

  /** An empty property ends the transfer. */
  predicate Ends(e: Event) { e.OnPropertyChunk? && !e.property.incr && |e.property.data| == 0 }

  lemma StartUnderWay(cfg: Config, s: State, c: ClientFormat, e: Event)
    requires Starts(cfg, s, c, e)
    ensures Step(cfg, s, e) == Result(s.(incrStarts := true, incrData := None), [])
    ensures UnderWay(cfg, Step(cfg, s, e).state, c, None)
  {
  }

  lemma EndAnswers(cfg: Config, s: State, c: ClientFormat, data: Option<bytes>, e: Event)
    requires UnderWay(cfg, s, c, data) && Ends(e)
    ensures var r := Step(cfg, s, e);
            && !Open(r.state) && !r.state.incrStarts && r.state.incrData == None
            && r.out == EndOutput(cfg.lib, c, data, e.property.behind)
  {
  }

  /** What the server gets for assembled data, after a read past the buffer where a text has no null byte. */
  function EndOutput(lib: Library, c: ClientFormat, data: Option<bytes>, behind: bytes): seq<Output>
  {
    if data.None? then [DataResponse(None)]
    else
      var b := Bare(data.value, behind);
      (if Overreads(c, b) then [Overread] else []) + [DataResponse(ResponseFor(lib, c, Reached(c, b)))]
  }

  /** One more event of the transfer. */
  lemma TransferStep(cfg: Config, s: State, c: ClientFormat, data: Option<bytes>, e: Event)
    requires UnderWay(cfg, s, c, data) && (Piece(e) || Apart(e))
    ensures Responses(Step(cfg, s, e).out) == 0 && UnderWay(cfg, Step(cfg, s, e).state, c, Grown(data, e))
  {
    if Piece(e) { PieceAdds(cfg, s, c, data, e); } else { ApartKeeps(cfg, s, e); }
    ShortOutput(Step(cfg, s, e).out);
  }

  /** After this run the transfer has `data` and the server has had no response. */
  ghost predicate Progress(cfg: Config, s: State, c: ClientFormat, run: seq<Event>, data: Option<bytes>)
  {
    UnderWay(cfg, Ran(cfg, s, run).state, c, data) && Responses(Ran(cfg, s, run).out) == 0
  }

  lemma ProgressStarts(cfg: Config, s: State, c: ClientFormat, start: Event)
    requires Starts(cfg, s, c, start)
    ensures Progress(cfg, s, c, [start], None)
  {
    StartUnderWay(cfg, s, c, start);
    assert [start] == [] + [start];
    RanAppend(cfg, s, [], start);
  }

  lemma ProgressStep(cfg: Config, s: State, c: ClientFormat, run: seq<Event>, data: Option<bytes>, e: Event)
    requires Progress(cfg, s, c, run, data) && (Piece(e) || Apart(e))
    ensures Progress(cfg, s, c, run + [e], Grown(data, e))
  {
    var r := Ran(cfg, s, run);
    TransferStep(cfg, r.state, c, data, e);
    RanAppend(cfg, s, run, e);
    ResponsesConcat(r.out, Step(cfg, r.state, e).out);
  }

  lemma {:induction false} PiecesAdd(cfg: Config, s: State, c: ClientFormat, start: Event, es: seq<Event>)
    requires Starts(cfg, s, c, start) && Transferring(es)
    ensures Progress(cfg, s, c, [start] + es, Assembled(es))
    decreases |es|
  {
    if |es| == 0 {
      ProgressStarts(cfg, s, c, start);
      assert [start] + es == [start];
    } else {
      var before, e := es[..|es| - 1], es[|es| - 1];
      PiecesAdd(cfg, s, c, start, before);
      assert Piece(e) || Apart(e);
      ProgressStep(cfg, s, c, [start] + before, Assembled(before), e);
      assert [start] + es == ([start] + before) + [e];
    }
  }

  /** From the start of a transfer to its end, whatever lies between its pieces, the server gets exactly one
      response, at the end.  It is the one for all the pieces put together and, where they are a text without a null
      byte, for what lies behind them in memory. */
  lemma IncrementalTransfer(cfg: Config, s: State, c: ClientFormat, start: Event, es: seq<Event>, end: Event)
    requires Starts(cfg, s, c, start) && Transferring(es) && Ends(end)
    ensures var r, before := Ran(cfg, s, [start] + es + [end]), Ran(cfg, s, [start] + es);
            && Responses(before.out) == 0
            && r.out == before.out + EndOutput(cfg.lib, c, Assembled(es), end.property.behind)
            && !Open(r.state) && !r.state.incrStarts && r.state.incrData == None
  {
    PiecesAdd(cfg, s, c, start, es);
    EndAnswers(cfg, Ran(cfg, s, [start] + es).state, c, Assembled(es), end);
    RanAppend(cfg, s, [start] + es, end);
  }

  /** The property in one piece. */
  predicate OnePiece(c: ClientFormat, e: Event)
  {
    e.OnSelectionNotify? && e.target == c.atom && !e.property.incr && e.property.readOk && |e.property.data| > 0
  }

  /** A transfer in pieces gives the server what one piece with the same bytes gives it, exactly when the format is no
      text or the pieces hold a null byte. */
  lemma PiecesAsOne(cfg: Config, s: State, c: ClientFormat, start: Event, es: seq<Event>, end: Event, whole: Property)
    requires Starts(cfg, s, c, start) && Transferring(es) && Ends(end) && !s.incrStarts
    requires !whole.incr && whole.readOk && Assembled(es) == Some(whole.data)
    ensures var one := Step(cfg, s, start.(property := whole));
            && Responses(one.out) == 1
            && (Ran(cfg, s, [start] + es + [end]).out == Ran(cfg, s, [start] + es).out + one.out <==>
                !IsText(c.toRequest) || 0 in Assembled(es).value)
  {
    var one, before := Step(cfg, s, start.(property := whole)), Ran(cfg, s, [start] + es).out;
    IncrementalTransfer(cfg, s, c, start, es, end);
    AssembledNotEmpty(es);
    WholeAnswer(cfg, s, c, start.(property := whole));
    ShortOutput(one.out);
    HoldsNull(whole.data);
    var last := EndOutput(cfg.lib, c, Assembled(es), end.property.behind);
    assert before + last == before + one.out <==> last == one.out by {
      if before + last == before + one.out {
        assert last == (before + last)[|before|..] == (before + one.out)[|before|..] == one.out;
      }
    }
  }

  lemma WholeAnswer(cfg: Config, s: State, c: ClientFormat, e: Event)
    requires Open(s) && RequestedClient(cfg, s) == Some(c) && c.atom != cfg.targets && OnePiece(c, e) && !s.incrStarts
    ensures Step(cfg, s, e).out == [DataResponse(ResponseFor(cfg.lib, c, e.property.data))]
            && !Open(Step(cfg, s, e).state)
  {
  }

  lemma {:induction false} HoldsNull(data: bytes)
    ensures NullAt(data) < |data| <==> 0 in data
  {
    if |data| > 0 && data[0] != 0 {
      HoldsNull(data[1..]);
      assert data == [data[0]] + data[1..];
    }
  }

  /** A text of one piece without a null byte is read past its end, and the response is made from what lies there. */
  lemma TextWithoutNull(cfg: Config, s: State, c: ClientFormat, start: Event, piece: Event, end: Event)
    requires Starts(cfg, s, c, start) && Piece(piece) && Ends(end)
    requires IsText(c.toRequest) && NoNull(piece.property.data)
    ensures var text := piece.property.data + end.property.behind;
            Ran(cfg, s, [start] + [piece] + [end]).out ==
            Ran(cfg, s, [start] + [piece]).out + [Overread, DataResponse(ResponseFor(cfg.lib, c, text))]
  {
    IncrementalTransfer(cfg, s, c, start, [piece], end);
    AssembledOne(piece);
    OverreadOutput(cfg.lib, c, piece.property.data, end.property.behind);
  }

  lemma AssembledOne(piece: Event)
    requires Piece(piece)
    ensures Assembled([piece]) == Some(piece.property.data)
  {
    assert [piece][..0] == [];
    assert [] + piece.property.data == piece.property.data;
  }

  lemma OverreadOutput(lib: Library, c: ClientFormat, text: bytes, behind: bytes)
    requires IsText(c.toRequest) && NoNull(text)
    ensures EndOutput(lib, c, Some(text), behind) == [Overread, DataResponse(ResponseFor(lib, c, text + behind))]
  {
    NoNullAt(text);
  }

  lemma {:induction false} AssembledNotEmpty(es: seq<Event>)
    ensures Assembled(es).Some? ==> |Assembled(es).value| > 0
  {
    if |es| > 0 { AssembledNotEmpty(es[..|es| - 1]); }
  }

  // --- Transfers that are broken off ---

  /** Data in one piece is answered exactly when no transfer in pieces is under way. */
  lemma OnePieceAnswered(cfg: Config, s: State, c: ClientFormat, e: Event)
    requires Open(s) && RequestedClient(cfg, s) == Some(c) && c.atom != cfg.targets && OnePiece(c, e)
    ensures Responses(Step(cfg, s, e).out) == 1 <==> !s.incrStarts
    ensures s.incrStarts ==>
              Step(cfg, s, e).out == [] && Open(Step(cfg, s, e).state) && Step(cfg, s, e).state.incrStarts
  {
    if !s.incrStarts { WholeAnswer(cfg, s, c, e); }
    ShortOutput(Step(cfg, s, e).out);
  }

  lemma AnnounceBreaksOff(cfg: Config, s: State, e: Event)
    requires Open(s) && e.OnAnnounce? && !Same(s.lastSent, ClientFormats(cfg, e.source))
    ensures var r := Step(cfg, s, e);
            && Responses(r.out) == 1
            && r.state.incrStarts == s.incrStarts && r.state.incrData == s.incrData
  {
    ListEffect(s, ClientFormats(cfg, e.source), false, e.notifyOk);
  }

  lemma RequestReopens(cfg: Config, s: State, c: ClientFormat, id: u32)
    requires id < 0x8000_0000 && ById(cfg.clients, id) == Some(c)
    ensures var r := Step(cfg, s, OnServerDataRequest(id, false));
            && Responses(r.out) == 0 && r.state == s.(requestedFormatId := id)
            && Open(r.state) && RequestedClient(cfg, r.state) == Some(c)
  {
    ShortOutput(Step(cfg, s, OnServerDataRequest(id, false)).out);
  }

  lemma RanResponds(cfg: Config, s: State, es: seq<Event>, e: Event)
    ensures Responses(Ran(cfg, s, es + [e]).out) ==
            Responses(Ran(cfg, s, es).out) + Responses(Step(cfg, Ran(cfg, s, es).state, e).out)
    ensures Ran(cfg, s, es + [e]).state == Step(cfg, Ran(cfg, s, es).state, e).state
  {
    RanAppend(cfg, s, es, e);
    ResponsesConcat(Ran(cfg, s, es).out, Step(cfg, Ran(cfg, s, es).state, e).out);
  }

  /** An announcement that breaks off a transfer answers the server with failure and leaves the transfer under way, so
      the next request for that format gets no response to its data. */
  lemma BrokenOffTransfer(cfg: Config, s: State, c: ClientFormat, start: Event, announce: Event, id: u32, whole: Event)
    requires Starts(cfg, s, c, start) && OnePiece(c, whole) && id == s.requestedFormatId
    requires announce.OnAnnounce? && !Same(s.lastSent, ClientFormats(cfg, announce.source))
    ensures var r := Ran(cfg, s, [start] + [announce] + [OnServerDataRequest(id, false)] + [whole]);
            Responses(r.out) == 1 && Open(r.state) && r.state.incrStarts
  {
    var run1, run2 := [start], [start] + [announce];
    var run3 := run2 + [OnServerDataRequest(id, false)];
    ProgressStarts(cfg, s, c, start);
    StartUnderWay(cfg, s, c, start);
    assert run1 == [] + [start];
    RanAppend(cfg, s, [], start);
    AnnounceBreaksOff(cfg, Ran(cfg, s, run1).state, announce);
    RanResponds(cfg, s, run1, announce);
    RequestReopens(cfg, Ran(cfg, s, run2).state, c, id);
    RanResponds(cfg, s, run2, OnServerDataRequest(id, false));
    OnePieceAnswered(cfg, Ran(cfg, s, run3).state, c, whole);
    RanResponds(cfg, s, run3, whole);
  }
}
