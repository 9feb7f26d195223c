/**
 What X clients and the server are given by the X11 clipboard engine, over every run, told in terms of the clipboard
 library alone: which data it was handed under which id, and what it was asked to convert it to.
 */
module XfReplies {
  import opened Common
  import opened XfFormats
  import opened XfAnnounce
  import opened XfClipboard
  import opened XfClipboardRuns
  import opened XfClipboardCache
  import opened XfTargets
  import Incr = XfIncremental

  /** `d` is `full` up to its first null byte. */
  predicate UpToNull(full: bytes, d: bytes)
  {
    d <= full && 0 !in d && (d == full || full[|d|] == 0)
  }

  lemma {:induction false} NullEnds(full: bytes)
    ensures UpToNull(full, full[..NullAt(full)])
  {
    if |full| > 0 && full[0] != 0 {
      var rest := full[1..];
      NullEnds(rest);
      assert full[..NullAt(full)] == [full[0]] + rest[..NullAt(rest)];
    }
  }

  lemma UpToNullOnce(full: bytes, d: bytes, d': bytes)
    requires UpToNull(full, d) && UpToNull(full, d')
    ensures d == d'
  {
    assert d == full[..|d|] && d' == full[..|d'|];
    assert |d| < |d'| ==> d'[|d|] == full[|d|];
    assert |d'| < |d| ==> d[|d'|] == full[|d'|];
  }

  // --- Data of the server for X clients ---

  predicate Text(id: nat) { id == 1 || id == 7 || id == 13 }

  /** For client format `c` data of the server is handed to the library under `src` and fetched as `dst`; `cut` tells
      whether the result ends at its first null byte. */
  predicate Reads(lib: Library, c: ClientFormat, src: nat, dst: nat, cut: bool)
  {
    && (c.name.None? ==> src == c.toRequest && dst == c.local && cut == Text(c.toRequest))
    && (c.name == Some(Ascii("HTML Format")) ==>
          src == lib.formatId(Ascii("HTML Format")) && dst == lib.formatId(Ascii("text/html")) && cut)
    && (c.name == Some(Ascii("FileGroupDescriptorW")) ==>
          src == lib.formatId(Ascii("FileGroupDescriptorW")) && dst == c.local && cut)
    && (c.name.Some? && c.name.value !in {Ascii("HTML Format"), Ascii("FileGroupDescriptorW")} ==>
          src == 0 && dst == 0 && !cut)
  }

  lemma TwoNames()
    ensures Ascii("HTML Format") != Ascii("FileGroupDescriptorW")
  {
    assert |Ascii("HTML Format")| == 11 && |Ascii("FileGroupDescriptorW")| == 20;
  }

  lemma RuleReads(lib: Library, c: ClientFormat)
    ensures var r := ClientRule(lib, c);
            Reads(lib, c, r.src, r.dst, r.nullTerminated)
  {
    TwoNames();
  }

  lemma ReadsOne(lib: Library, c: ClientFormat, src: nat, dst: nat, cut: bool)
    requires Reads(lib, c, src, dst, cut)
    ensures ClientRule(lib, c) == Rule(src, dst, cut)
  {
    TwoNames();
  }

  predicate Ends(cut: bool, full: bytes, d: bytes) { if cut then UpToNull(full, d) else d == full }

  /** The library makes `d` of `data` between these two ids. */
  ghost predicate Makes(lib: Library, src: nat, dst: nat, cut: bool, data: bytes, d: bytes)
  {
    lib.accepts(src, data) && exists full :: lib.convert(src, dst, data) == Some(full) && Ends(cut, full, d)
  }

  lemma ConvertedMakes(lib: Library, r: Rule, data: bytes, d: bytes)
    ensures Converted(lib, r, data) == Some(d) <==> Makes(lib, r.src, r.dst, r.nullTerminated, data, d)
  {
    var full := lib.convert(r.src, r.dst, data);
    if full.Some? && r.nullTerminated {
      NullEnds(full.value);
      if UpToNull(full.value, d) { UpToNullOnce(full.value, d, full.value[..NullAt(full.value)]); }
    }
    if Converted(lib, r, data) == Some(d) { assert Ends(r.nullTerminated, full.value, d); }
  }

  /** `d` is made for client format `c` of data taken under `src`. */
  ghost predicate MadeFor(lib: Library, c: ClientFormat, src: nat, dst: nat, data: bytes, d: bytes)
  {
    exists cut :: Reads(lib, c, src, dst, cut) && Makes(lib, src, dst, cut, data, d)
  }

  lemma SourcedIsMade(lib: Library, c: ClientFormat, t: Taken, dst: nat, d: bytes)
    ensures SourcedBy(lib, ClientRule(lib, c), t, dst, d) <==> MadeFor(lib, c, t.src, dst, t.data, d)
  {
    var r := ClientRule(lib, c);
    ConvertedMakes(lib, r, t.data, d);
    RuleReads(lib, c);
    if MadeFor(lib, c, t.src, dst, t.data, d) {
      var cut :| Reads(lib, c, t.src, dst, cut) && Makes(lib, t.src, dst, cut, t.data, d);
      ReadsOne(lib, c, t.src, dst, cut);
    }
  }

  /** Data given at once was made by the library of a response taken since the caches were last cleared, for a client
      format with the same destination as the one that the target selects.  For a raw request it is the response. */
  lemma GivenAtOnce(cfg: Config, es: seq<Event>, req: XRequest, rawProperty: Option<nat>, p: nat, d: bytes)
    requires Reply(req, p, Data(d)) in Step(cfg, After(cfg, es), OnSelectionRequest(req, rawProperty)).out
    ensures p == req.property != 0 && ByAtom(cfg.clients, req.target).Some?
    ensures if AsksRaw(cfg, After(cfg, es), req, rawProperty) then
              Taken(rawProperty.value, d) in TakenSinceClear(cfg, es)
            else
              exists c, t, src, dst, cut ::
                && c in cfg.clients && t in TakenSinceClear(cfg, es) && MadeFor(cfg.lib, c, t.src, dst, t.data, d)
                && Reads(cfg.lib, ByAtom(cfg.clients, req.target).value, src, dst, cut)
  {
    ImmediateData(cfg, es, req, rawProperty, d);
    if !AsksRaw(cfg, After(cfg, es), req, rawProperty) {
      var own := ByAtom(cfg.clients, req.target).value;
      var taken, dst := TakenSinceClear(cfg, es), LocalDst(cfg.lib, own);
      var c, t :| c in cfg.clients && t in taken && SourcedBy(cfg.lib, ClientRule(cfg.lib, c), t, dst, d);
      SourcedIsMade(cfg.lib, c, t, dst, d);
      RuleReads(cfg.lib, own);
      assert MadeFor(cfg.lib, c, t.src, dst, t.data, d);
    }
  }

  /** Data given later is made of the response for the client format that the target selects, and is empty where the
      library makes nothing of it.  A raw response is answered only where the library makes nothing of it. */
  lemma GivenLater(cfg: Config, es: seq<Event>, data: bytes, o: Output)
    requires o in Step(cfg, After(cfg, es), OnServerDataResponse(false, data)).out
    ensures var s := After(cfg, es);
            && s.respond.Some? && ByAtom(cfg.clients, s.respond.value.target).Some?
            && o.Reply? && o.request == s.respond.value && o.property == o.request.property
            && (o.property == 0 ==> o.content == NoContent)
            && (o.property != 0 ==> o.content.Data?)
            && (o.property != 0 && s.rawTransfer ==>
                  o.content == Data([]) && forall d :: !Makes(cfg.lib, 0, 0, false, data, d))
            && (o.property != 0 && !s.rawTransfer ==>
                  exists src, dst, cut ::
                    && Reads(cfg.lib, ByAtom(cfg.clients, s.respond.value.target).value, src, dst, cut)
                    && (Makes(cfg.lib, src, dst, cut, data, o.content.data)
                        || (o.content.data == [] && forall d :: !Makes(cfg.lib, src, dst, cut, data, d))))
  {
    var s := After(cfg, es);
    DeferredData(cfg, es, data, o);
    PendingHasFormat(cfg, es);
    var c := ByAtom(cfg.clients, s.respond.value.target).value;
    var r := if s.rawTransfer then RawRule else ClientRule(cfg.lib, c);
    RuleReads(cfg.lib, c);
    forall d
      ensures Converted(cfg.lib, r, data) == Some(d) <==> Makes(cfg.lib, r.src, r.dst, r.nullTerminated, data, d)
    {
      ConvertedMakes(cfg.lib, r, data, d);
    }
    if s.rawTransfer { RawUnmade(cfg, s, data, o); }
  }

  lemma RawUnmade(cfg: Config, s: State, data: bytes, o: Output)
    requires s.respond.Some? && s.rawTransfer && o in Step(cfg, s, OnServerDataResponse(false, data)).out
    ensures Converted(cfg.lib, RawRule, data).None?
  {
    if Converted(cfg.lib, RawRule, data).Some? { RawHeldUnanswered(cfg, s, data); }
  }

  /** A request is held, and the next response is handed to the library under `src`. */
  ghost predicate AwaitedUnder(cfg: Config, s: State, src: nat)
  {
    && s.respond.Some? && ByAtom(cfg.clients, s.respond.value.target).Some?
    && (s.rawTransfer ==> src == 0)
    && (!s.rawTransfer ==>
          exists dst, cut :: Reads(cfg.lib, ByAtom(cfg.clients, s.respond.value.target).value, src, dst, cut))
  }

  lemma TakenNow(cfg: Config, s: State, e: Event, t: Taken)
    requires HeldWithFormat(cfg, s) && t in TakenBy(cfg, s, e)
    ensures e == OnServerDataResponse(false, t.data) && AwaitedUnder(cfg, s, t.src)
  {
    AnswerRuleIs(cfg, s);
    RuleReads(cfg.lib, ByAtom(cfg.clients, s.respond.value.target).value);
  }

  /** Event k of the run is the response `t`, and the caches were not cleared after it. */
  ghost predicate TakenAt(cfg: Config, es: seq<Event>, t: Taken, k: nat)
  {
    && k < |es| && es[k] == OnServerDataResponse(false, t.data) && AwaitedUnder(cfg, After(cfg, es[..k]), t.src)
    && forall j :: k < j < |es| ==> !Clears(cfg, After(cfg, es[..j]), es[j])
  }

  lemma TakenBefore(cfg: Config, es: seq<Event>, t: Taken, k: nat)
    requires |es| > 0 && TakenAt(cfg, es[..|es| - 1], t, k) && !Clears(cfg, After(cfg, es[..|es| - 1]), es[|es| - 1])
    ensures TakenAt(cfg, es, t, k)
  {
    var n := |es| - 1;
    assert es[..n][..k] == es[..k];
    forall j | k < j < |es| ensures !Clears(cfg, After(cfg, es[..j]), es[j]) {
      if j < n { assert es[..n][..j] == es[..j]; }
    }
  }

  /** What was taken is a response of the server, under the id that belongs to the client format selected by the target
      of the request held at that time, or under the raw id. */
  lemma {:induction false} TakenFrom(cfg: Config, es: seq<Event>, t: Taken) returns (k: nat)
    requires t in TakenSinceClear(cfg, es)
    ensures TakenAt(cfg, es, t, k)
    decreases |es|
  {
    var before := es[..|es| - 1];
    if t in TakenSinceClear(cfg, before) {
      k := TakenFrom(cfg, before, t);
      TakenBefore(cfg, es, t, k);
    } else {
      k := |es| - 1;
      PendingHasFormat(cfg, before);
      TakenNow(cfg, After(cfg, before), es[k], t);
    }
  }

  // --- Replies without data, and what the server is asked for ---

  /** The requests for the time and for the targets.  The targets are those for the last list of the server notified. */
  lemma PlainReplies(cfg: Config, es: seq<Event>, req: XRequest, rawProperty: Option<nat>)
    requires req.owner == cfg.drawable && (req.target == cfg.timestamp || req.target == cfg.targets)
    ensures var lists := ListsOf(es);
            var atoms := if lists.notified.None? then [cfg.timestamp, cfg.targets]
                         else Offer(cfg, lists.notified.value.0, lists.notified.value.1);
            var content := if req.property == 0 then NoContent
                           else if req.target == cfg.timestamp then Timestamp
                           else Targets(atoms);
            Step(cfg, After(cfg, es), OnSelectionRequest(req, rawProperty)) ==
            Result(After(cfg, es), [Reply(req, req.property, content)])
  {
    OfferedInRuns(cfg, es);
  }

  /** A request for data is refused only where its target stands for no format of the server, it comes from the client's
      own window, or another request is held; otherwise it is answered or put to the server under the id of a format in
      its last list that a client format with that target stands for. */
  lemma DataRequests(cfg: Config, es: seq<Event>, req: XRequest, rawProperty: Option<nat>)
    requires req.owner == cfg.drawable && req.target != cfg.timestamp && req.target != cfg.targets
    ensures var s := After(cfg, es);
            var r := Step(cfg, s, OnSelectionRequest(req, rawProperty));
            && |r.out| == 1
            && match r.out[0] {
                 case Reply(q, p, content) =>
                   && q == req
                   && (content.NoContent? <==> p == 0)
                   && (p == 0 ==> req.property == 0 || s.respond.Some? || req.requestor == cfg.drawable
                                  || ServerByAtom(cfg.clients, s.serverFormats, req.target).None?)
                   && (p != 0 ==> content.Data?)
                   && (ServerByAtom(cfg.clients, s.serverFormats, req.target).None? || req.requestor == cfg.drawable ==>
                         p == 0)
                 case DataRequest(id) =>
                   && req.requestor != cfg.drawable && s.respond.None?
                   && r.state == s.(respond := Some(req), requestedFormat := ByAtom(cfg.clients, req.target),
                                    rawTransfer := AsksRaw(cfg, s, req, rawProperty))
                   && exists w, f ::
                        && w in cfg.clients && w.atom == req.target && f in s.serverFormats && FormatsEqual(f, w)
                        && id == if AsksRaw(cfg, s, req, rawProperty) then rawProperty.value else f.id
                 case _ => false
               }
  {
    var s := After(cfg, es);
    var f := ServerByAtom(cfg.clients, s.serverFormats, req.target);
    if f.Some? {
      ServedTargetHasClient(cfg.clients, s.serverFormats, req.target);
      ServedBy(cfg.clients, s.serverFormats, req.target, f.value);
    }
  }

  /** A format of the server stands for a client format without a name by its id alone, and for one with a name by any
      beginning of that name, as it may have been cut short on its way; a longer name does not match. */
  lemma MatchesExactly(f: Format, c: ClientFormat)
    ensures FormatsEqual(f, c) <==>
            || (f.name.None? && c.name.None? && f.id == c.toRequest)
            || (f.name.Some? && c.name.Some? && |f.name.value| <= |c.name.value|
                && forall i :: 0 <= i < |f.name.value| ==> f.name.value[i] == c.name.value[i])
  {
    if f.name.Some? && c.name.Some? && |f.name.value| <= |c.name.value| {
      var n, m := f.name.value, c.name.value;
      if forall i :: 0 <= i < |n| ==> n[i] == m[i] { assert n == m[..|n|]; }
    }
  }

  // --- Local data for the server ---

  /** What the library is handed of the owner's data: a text up to its first null byte, and a null byte. */
  predicate Handed(c: ClientFormat, data: bytes, source: bytes)
  {
    if Text(c.toRequest) then |source| > 0 && source[|source| - 1] == 0 && UpToNull(data, source[..|source| - 1])
    else source == data
  }

  /** `x` is what the server is to get: the owner's data handed over under the local id and fetched under the requested
      one, in its wire form for a file list. */
  ghost predicate MadeForServer(lib: Library, c: ClientFormat, data: bytes, x: bytes)
  {
    && c.toRequest != 0 && c.local != 0
    && exists source :: Handed(c, data, source) && lib.accepts(c.local, source) && Fetched(lib, c, source, x)
  }

  predicate Fetched(lib: Library, c: ClientFormat, source: bytes, x: bytes)
  {
    var full := lib.convert(c.local, c.toRequest, source);
    && full.Some?
    && if c.toRequest == lib.formatId(Ascii("FileGroupDescriptorW")) then lib.fileList(full.value) == Some(x)
       else x == full.value
  }

  lemma HandedOnce(c: ClientFormat, data: bytes, source: bytes)
    ensures Handed(c, data, source) <==>
            source == if Text(c.toRequest) then data[..NullAt(data)] + [0] else data
  {
    NullEnds(data);
    var text := data[..NullAt(data)];
    if Text(c.toRequest) {
      assert (text + [0])[..|text|] == text;
      if Handed(c, data, source) {
        UpToNullOnce(data, source[..|source| - 1], text);
        assert source == source[..|source| - 1] + [0];
      }
    }
  }

  /** The response holds data exactly where the library makes it. */
  lemma ResponseIsMade(lib: Library, c: ClientFormat, data: bytes, x: bytes)
    ensures ResponseFor(lib, c, data) == Some(x) <==> MadeForServer(lib, c, data, x)
  {
    var source := if Text(c.toRequest) then data[..NullAt(data)] + [0] else data;
    HandedOnce(c, data, source);
    if MadeForServer(lib, c, data, x) {
      var source' :| Handed(c, data, source') && lib.accepts(c.local, source') && Fetched(lib, c, source', x);
      HandedOnce(c, data, source');
    }
    if ResponseFor(lib, c, data) == Some(x) { assert Fetched(lib, c, source, x); }
  }

  /** The id the server asked for last, the raw one where the owner is another client of this kind. */
  function LastAsked(es: seq<Event>): Option<nat>
  {
    if |es| == 0 then None
    else
      var e := es[|es| - 1];
      if e.OnServerDataRequest? then Some(if e.rawAvailable then 0 else e.id) else LastAsked(es[..|es| - 1])
  }

  /** The owner's data that an event brings for the client format `c`: a whole property, or at the end of a transfer in
      pieces all of them and, for a text without a null byte, what lies behind them. */
  function Brought(s: State, c: ClientFormat, p: Property): Option<bytes>
  {
    if p.incr then None
    else if |p.data| > 0 then if s.incrStarts || !p.readOk then None else Some(p.data)
    else if !s.incrStarts || s.incrData.None? then None
    else if Text(c.toRequest) && 0 !in s.incrData.value then Some(s.incrData.value + p.behind)
    else s.incrData
  }

  predicate IsFor(cfg: Config, s: State, c: ClientFormat, e: Event)
  {
    || (e.OnSelectionNotify? && e.target != cfg.targets && e.target == c.atom)
    || (e.OnPropertyChunk? && s.incrStarts)
  }

  predicate KeepsId(s: State, s': State) { s'.requestedFormatId == s.requestedFormatId || s'.requestedFormatId < 0 }

  lemma GetKeepsId(cfg: Config, s: State, target: nat, p: Property)
    ensures KeepsId(s, GetRequestedData(cfg, s, target, p).state)
  {
  }

  lemma ListKeepsId(s: State, formats: seq<Format>, force: bool, notifyOk: bool)
    ensures KeepsId(s, SendFormatList(s, formats, force, notifyOk).state)
  {
  }

  lemma LocalKeepsId(cfg: Config, s: State, e: Event)
    requires Local(e)
    ensures KeepsId(s, Step(cfg, s, e).state)
  {
    match e
    case OnSelectionNotify(target, p, source, notifyOk) =>
      if target == cfg.targets { ListKeepsId(s, ClientFormats(cfg, source), false, notifyOk); }
      else { GetKeepsId(cfg, s, target, p); }
    case OnPropertyChunk(p) =>
      if RequestedClient(cfg, s).Some? { GetKeepsId(cfg, s, RequestedClient(cfg, s).value.atom, p); }
    case OnAnnounce(source, notifyOk) => ListKeepsId(s, ClientFormats(cfg, source), false, notifyOk);
    case OnMonitorReady(source, notifyOk) =>
      ListKeepsId(s.(lastSent := []), ClientFormats(cfg, source), true, notifyOk);
  }

  /** In every run an open request of the server is the last one it made. */
  lemma {:induction false} OpenIsLast(cfg: Config, es: seq<Event>)
    ensures Open(After(cfg, es)) ==> LastAsked(es) == Some(After(cfg, es).requestedFormatId)
  {
    if |es| > 0 {
      var before, e := es[..|es| - 1], es[|es| - 1];
      var s := After(cfg, before);
      OpenIsLast(cfg, before);
      PendingHasFormat(cfg, before);
      match e
      case OnSelectionRequest(req, rawProperty) => RequestEffect(cfg, s, req, rawProperty);
      case OnServerDataResponse(failed, data) => ResponseEffect(cfg, s, failed, data);
      case OnServerDataRequest(id, rawAvailable) =>
      case OnServerFormatList(formats, files, notifyOk) =>
      case _ => LocalKeepsId(cfg, s, e);
    }
  }

  /** The response to the server that an event brings about: data exactly where the library makes it of what the event
      brings for client format `c`. */
  ghost predicate RightResponse(cfg: Config, s: State, c: Option<ClientFormat>, brought: Option<bytes>, o: Output)
  {
    o.DataResponse? ==>
      && Open(s)
      && forall x ::
           o.data == Some(x) <==> c.Some? && brought.Some? && MadeForServer(cfg.lib, c.value, brought.value, x)
  }

  ghost predicate RightOutput(cfg: Config, s: State, c: Option<ClientFormat>, brought: Option<bytes>, out: seq<Output>)
  {
    forall o :: o in out ==> RightResponse(cfg, s, c, brought, o)
  }

  lemma SendRight(cfg: Config, s: State, c: Option<ClientFormat>, brought: Option<bytes>)
    requires c.None? || brought.None?
    ensures RightOutput(cfg, s, c, brought, SendDataResponse(s, None).out)
  {
  }

  lemma RespondRight(cfg: Config, s: State, c: ClientFormat, b: Buffer)
    ensures RightOutput(cfg, s, Some(c), Some(Reached(c, b)), RespondWith(cfg.lib, s, c, b).out)
  {
    var data := Reached(c, b);
    forall x ensures ResponseFor(cfg.lib, c, data) == Some(x) <==> MadeForServer(cfg.lib, c, data, x) {
      ResponseIsMade(cfg.lib, c, data, x);
    }
  }

  lemma BroughtIsReached(s: State, c: ClientFormat, p: Property)
    requires s.incrStarts && s.incrData.Some? && !p.incr && |p.data| == 0
    ensures Brought(s, c, p) == Some(Reached(c, Bare(s.incrData.value, p.behind)))
  {
    var data := s.incrData.value;
    NullEnds(data);
    assert NullAt(data) == |data| <==> 0 !in data by {
      if NullAt(data) == |data| { assert data[..|data|] == data; }
    }
  }

  lemma GetRight(cfg: Config, s: State, c: ClientFormat, p: Property)
    requires RequestedClient(cfg, s) == Some(c)
    ensures RightOutput(cfg, s, Some(c), Brought(s, c, p), GetRequestedData(cfg, s, c.atom, p).out)
  {
    if p.incr || (|p.data| > 0 && (s.incrStarts || !p.readOk)) || (|p.data| == 0 && !s.incrStarts) {
      SendRight(cfg, s, Some(c), Brought(s, c, p));
    } else if |p.data| > 0 {
      RespondRight(cfg, s, c, Ended(p.data));
    } else {
      var ended := s.(incrStarts := false, incrData := None);
      if s.incrData.Some? {
        BroughtIsReached(s, c, p);
        RespondRight(cfg, ended, c, Bare(s.incrData.value, p.behind));
      } else {
        SendRight(cfg, ended, Some(c), None);
      }
    }
  }

  lemma ListRight(cfg: Config, s: State, formats: seq<Format>, force: bool, notifyOk: bool, c: Option<ClientFormat>)
    ensures RightOutput(cfg, s, c, None, SendFormatList(s, formats, force, notifyOk).out)
  {
  }

  /** What an event brings for the request that is open. */
  function BroughtBy(cfg: Config, s: State, e: Event): Option<bytes>
  {
    var c := RequestedClient(cfg, s);
    if c.Some? && IsFor(cfg, s, c.value, e) then Brought(s, c.value, e.property) else None
  }

  lemma LocalRight(cfg: Config, s: State, e: Event)
    requires Local(e)
    ensures RightOutput(cfg, s, RequestedClient(cfg, s), BroughtBy(cfg, s, e), Step(cfg, s, e).out)
  {
    var c := RequestedClient(cfg, s);
    match e
    case OnSelectionNotify(target, p, source, notifyOk) =>
      if target == cfg.targets { ListRight(cfg, s, ClientFormats(cfg, source), false, notifyOk, c); }
      else if c.None? || c.value.atom != target { SendRight(cfg, s, c, None); }
      else { GetRight(cfg, s, c.value, p); }
    case OnPropertyChunk(p) => if s.incrStarts && c.Some? { GetRight(cfg, s, c.value, p); }
    case OnAnnounce(source, notifyOk) => ListRight(cfg, s, ClientFormats(cfg, source), false, notifyOk, c);
    case OnMonitorReady(source, notifyOk) =>
      ListRight(cfg, s.(lastSent := []), ClientFormats(cfg, source), true, notifyOk, c);
  }

  lemma OthersAreSilent(cfg: Config, s: State, e: Event, o: Output)
    requires HeldWithFormat(cfg, s) && o in Step(cfg, s, e).out && o.DataResponse? && !Local(e)
    ensures e.OnServerDataRequest? && o.data == None && ById(cfg.clients, if e.rawAvailable then 0 else e.id).None?
  {
    match e
    case OnSelectionRequest(req, rawProperty) => RequestEffect(cfg, s, req, rawProperty);
    case OnServerDataResponse(failed, data) => ResponseEffect(cfg, s, failed, data);
    case _ =>
  }

  /** In every run: a response to the server answers the last id that it asked for.  It holds data exactly where the
      event brings the owner's data for the client format with that id and the library makes the response of it. */
  lemma ServerGiven(cfg: Config, es: seq<Event>, e: Event, o: Output)
    requires o in Step(cfg, After(cfg, es), e).out && o.DataResponse?
    ensures e.OnServerDataRequest? ==> o.data == None && ById(cfg.clients, if e.rawAvailable then 0 else e.id).None?
    ensures !e.OnServerDataRequest? ==>
              && LastAsked(es).Some?
              && var s, c := After(cfg, es), ById(cfg.clients, LastAsked(es).value);
                 forall x ::
                   o.data == Some(x) <==>
                   && c.Some? && IsFor(cfg, s, c.value, e) && Brought(s, c.value, e.property).Some?
                   && MadeForServer(cfg.lib, c.value, Brought(s, c.value, e.property).value, x)
  {
    var s := After(cfg, es);
    PendingHasFormat(cfg, es);
    OpenIsLast(cfg, es);
    if Local(e) {
      LocalRight(cfg, s, e);
      assert RightResponse(cfg, s, RequestedClient(cfg, s), BroughtBy(cfg, s, e), o);
    } else {
      OthersAreSilent(cfg, s, e, o);
    }
  }

  /** The owner is asked for the target of a client format with the id that the server asks for, and what comes for that
      target is taken for the request. */
  lemma OwnerAsked(cfg: Config, es: seq<Event>, id: u32, rawAvailable: bool, atom: nat)
    requires var e := OnServerDataRequest(id, rawAvailable); ConvertSelection(atom) in Step(cfg, After(cfg, es), e).out
    ensures var more := es + [OnServerDataRequest(id, rawAvailable)];
            && LastAsked(more) == Some(if rawAvailable then 0 else id)
            && var c := ById(cfg.clients, LastAsked(more).value);
               && c.Some? && c.value in cfg.clients && c.value.toRequest == LastAsked(more).value
               && forall e: Event :: e.OnSelectionNotify? && e.target == atom != cfg.targets ==>
                    IsFor(cfg, After(cfg, more), c.value, e)
  {
  }

  /** A transfer in pieces, from its start to its end: its one response holds data exactly where the library makes it of
      all the pieces in order, with what lies behind them where they are a text without a null byte. */
  lemma TransferGiven(cfg: Config, s: State, c: ClientFormat, start: Event, es: seq<Event>, end: Event)
    requires Incr.Starts(cfg, s, c, start) && Incr.Transferring(es) && Incr.Ends(end)
    ensures var r, before := Incr.Ran(cfg, s, [start] + es + [end]).out, Incr.Ran(cfg, s, [start] + es).out;
            var all := Incr.Assembled(es);
            && Responses(before) == 0 && |r| > |before| && before <= r && r[|r| - 1].DataResponse?
            && forall x ::
                 r[|r| - 1].data == Some(x) <==>
                 && all.Some?
                 && var over := Text(c.toRequest) && 0 !in all.value;
                    MadeForServer(cfg.lib, c, if over then all.value + end.property.behind else all.value, x)
  {
    Incr.IncrementalTransfer(cfg, s, c, start, es, end);
    var all := Incr.Assembled(es);
    if all.Some? {
      var b := Bare(all.value, end.property.behind);
      Incr.HoldsNull(all.value);
      var data := Reached(c, b);
      forall x ensures ResponseFor(cfg.lib, c, data) == Some(x) <==> MadeForServer(cfg.lib, c, data, x) {
        ResponseIsMade(cfg.lib, c, data, x);
      }
    }
  }

  /** The owner's answer has to be waited for: it comes in pieces, and this is the start or one of them. */
  predicate Waits(s: State, p: Property)
  {
    if p.incr then s.incrStarts || |p.data| > 0 else s.incrStarts && |p.data| > 0 && p.readOk
  }

  lemma ProcessResponds(cfg: Config, s: State, hasData: bool, data: Option<Buffer>)
    ensures Responses(ProcessRequestedData(cfg, s, hasData, data).out) ==
            if Open(s) && !(s.incrStarts && hasData) then 1 else 0
  {
    ProcessEffect(cfg, s, hasData, data);
    ShortOutput([]);
    var c := RequestedClient(cfg, s);
    if data.Some? && c.Some? { RespondEffect(cfg.lib, s, c.value, data.value); }
    SendEffect(s, None);
  }

  lemma GetResponds(cfg: Config, s: State, target: nat, p: Property)
    ensures var c := RequestedClient(cfg, s);
            Responses(GetRequestedData(cfg, s, target, p).out) ==
            if Open(s) && (c.None? || c.value.atom != target || !Waits(s, p)) then 1 else 0
  {
    var grown := s.(incrData := Some((if s.incrData.Some? then s.incrData.value else []) + p.data));
    SendEffect(s, None);
    ProcessResponds(cfg, s, false, None);
    ProcessResponds(cfg, s, true, Some(Ended(p.data)));
    ProcessResponds(cfg, s.(incrStarts := true, incrData := None), true, None);
    ProcessResponds(cfg, s.(incrStarts := false, incrData := None), true, Assembly(s.incrData, p.behind));
    ProcessResponds(cfg, grown, true, None);
  }

  /** What comes from the owner answers an open request of the server exactly once, also with failure, unless the rest
      of the data is still to come. */
  lemma OwnerResponds(cfg: Config, s: State, e: Event)
    requires e.OnPropertyChunk? || (e.OnSelectionNotify? && e.target != cfg.targets)
    ensures var c := RequestedClient(cfg, s);
            Responses(Step(cfg, s, e).out) ==
            if !Open(s) then 0
            else if e.OnPropertyChunk? then (if s.incrStarts && c.Some? && !Waits(s, e.property) then 1 else 0)
            else if c.None? || c.value.atom != e.target || !Waits(s, e.property) then 1 else 0
  {
    var c := RequestedClient(cfg, s);
    match e
    case OnSelectionNotify(target, p, source, notifyOk) => GetResponds(cfg, s, target, p);
    case OnPropertyChunk(p) => if c.Some? { GetResponds(cfg, s, c.value.atom, p); }
  }
}
