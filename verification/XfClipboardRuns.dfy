/** What every run of the X11 clipboard engine keeps. */
module XfClipboardRuns {
  import opened Common
  import opened XfFormats
  import opened XfAnnounce
  import opened XfClipboard

  // --- Every accepted request of an X client is accounted for ---

  function AcceptedBy(cfg: Config, e: Event): multiset<XRequest>
  {
    if e.OnSelectionRequest? && e.req.owner == cfg.drawable then multiset{e.req} else multiset{}
  }

  function Accepted(cfg: Config, es: seq<Event>): multiset<XRequest>
  {
    if |es| == 0 then multiset{} else Accepted(cfg, es[..|es| - 1]) + AcceptedBy(cfg, es[|es| - 1])
  }

  function AnsweredBy(o: Output): multiset<XRequest>
  {
    if o.Reply? then multiset{o.request} else multiset{}
  }

  function Answered(out: seq<Output>): multiset<XRequest>
  {
    if |out| == 0 then multiset{} else Answered(out[..|out| - 1]) + AnsweredBy(out[|out| - 1])
  }

  function Pending(s: State): multiset<XRequest>
  {
    if s.respond.Some? then multiset{s.respond.value} else multiset{}
  }

  /** The rule under which the next response is taken. */
  function AnswerRule(cfg: Config, s: State): Option<Rule>
  {
    if s.respond.None? then None
    else if s.rawTransfer then Some(RawRule)
    else if s.requestedFormat.None? then None
    else Some(ResponseRule(cfg, s.requestedFormat.value, s.respond.value.target))
  }

  /** The server's answer is empty and the library takes it. */
  predicate EmptyAnswer(cfg: Config, s: State, data: bytes)
  {
    && |data| == 0 && AnswerRule(cfg, s).Some?
    && cfg.lib.accepts(AnswerRule(cfg, s).value.src, data)
  }

  /** The answer can be converted, but to the id 0, for which the cache takes no entry. */
  predicate Uncacheable(cfg: Config, s: State, data: bytes)
  {
    && |data| > 0 && AnswerRule(cfg, s).Some?
    && AnswerRule(cfg, s).value.dst == 0 && Converted(cfg.lib, AnswerRule(cfg, s).value, data).Some?
  }

  /** The held request is given up only for a new server list, a failed answer or an empty one. */
  function DroppedBy(cfg: Config, s: State, e: Event): multiset<XRequest>
  {
    match e
    case OnServerFormatList(_, _, _) => Pending(s)
    case OnServerDataResponse(failed, data) => if failed || EmptyAnswer(cfg, s, data) then Pending(s) else multiset{}
    case _ => multiset{}
  }

  function Dropped(cfg: Config, es: seq<Event>): multiset<XRequest>
  {
    if |es| == 0 then multiset{}
    else Dropped(cfg, es[..|es| - 1]) + DroppedBy(cfg, After(cfg, es[..|es| - 1]), es[|es| - 1])
  }

  /** A held request has a requested format, the one its target selects. */
  ghost predicate HeldWithFormat(cfg: Config, s: State)
  {
    s.respond.Some? ==> s.requestedFormat.Some? && s.requestedFormat == ByAtom(cfg.clients, s.respond.value.target)
  }

  /** A target that stands for a server format selects a client format. */
  lemma {:induction false} ServedTargetHasClient(clients: seq<ClientFormat>, server: seq<Format>, atom: nat)
    requires ServerByAtom(clients, server, atom).Some?
    ensures ByAtom(clients, atom).Some?
  {
    if clients[0].atom != atom { ServedTargetHasClient(clients[1..], server, atom); }
  }

  // --- What each handler does to the requests, in short ---

  /** A request not meant for us changes nothing; any other one is answered at once or held. */
  lemma RequestEffect(cfg: Config, s: State, req: XRequest, rawProperty: Option<nat>)
    ensures var r := SelectionRequest(cfg, s, req, rawProperty);
            && r.state.requestedFormatId == s.requestedFormatId
            && (req.owner != cfg.drawable ==> r == Result(s, []))
            && (req.owner == cfg.drawable ==>
                  || (|r.out| == 1 && r.out[0].Reply? && r.out[0].request == req
                      && r.state.respond == s.respond && r.state.requestedFormat == s.requestedFormat)
                  || (|r.out| == 1 && r.out[0].DataRequest? && s.respond.None? && r.state.respond == Some(req)
                      && ByAtom(cfg.clients, req.target).Some?
                      && r.state.requestedFormat == ByAtom(cfg.clients, req.target)))
  {
  }

  /** A response answers the held request exactly when it neither fails nor is empty nor is uncacheable; an
      uncacheable one leaves it held. */
  lemma ResponseEffect(cfg: Config, s: State, failed: bool, data: bytes)
    requires HeldWithFormat(cfg, s)
    ensures var r := ServerDataResponse(cfg, s, failed, data);
            && r.state.requestedFormatId == s.requestedFormatId && r.state.requestedFormat == s.requestedFormat
            && (failed || EmptyAnswer(cfg, s, data) ==> r.state.respond.None? && r.out == [])
            && (!failed && (s.respond.None? || Uncacheable(cfg, s, data)) ==> r == Result(s, []))
            && (s.respond.Some? && !failed && !EmptyAnswer(cfg, s, data) && !Uncacheable(cfg, s, data) ==>
                  r.state.respond.None? && |r.out| == 1 && r.out[0].Reply? && r.out[0].request == s.respond.value)
  {
  }

  /** Nothing happens to the requests of X clients, and an open request of the server stays open or is answered. */
  predicate OnlyServer(s: State, r: Result)
  {
    && r.state.respond == s.respond && r.state.requestedFormat == s.requestedFormat
    && |r.out| <= 2 && Answered(r.out) == multiset{}
    && (if Open(s) then 1 else 0) == Responses(r.out) + if Open(r.state) then 1 else 0
  }

  lemma ShortOutput(out: seq<Output>)
    requires |out| <= 2
    ensures Responses(out) == (if |out| > 0 && out[0].DataResponse? then 1 else 0) +
            (if |out| > 1 && out[1].DataResponse? then 1 else 0)
    ensures Answered(out) == (if |out| > 0 then AnsweredBy(out[0]) else multiset{}) +
            if |out| > 1 then AnsweredBy(out[1]) else multiset{}
  {
    if |out| == 2 { assert out[..1] == [out[0]] && out[..1][..0] == []; }
    if |out| == 1 { assert out[..0] == []; }
  }

  lemma SendEffect(s: State, data: Option<bytes>)
    ensures OnlyServer(s, SendDataResponse(s, data))
  {
    ShortOutput(SendDataResponse(s, data).out);
  }

  lemma RespondEffect(lib: Library, s: State, c: ClientFormat, b: Buffer)
    ensures OnlyServer(s, RespondWith(lib, s, c, b))
  {
    var d := ResponseFor(lib, c, Reached(c, b));
    var over := if Overreads(c, b) then [Overread] else [];
    SendEffect(s, d);
    ShortOutput(over);
    AnsweredConcat(over, SendDataResponse(s, d).out);
    ResponsesConcat(over, SendDataResponse(s, d).out);
  }

  lemma ProcessEffect(cfg: Config, s: State, hasData: bool, data: Option<Buffer>)
    ensures OnlyServer(s, ProcessRequestedData(cfg, s, hasData, data))
  {
    SendEffect(s, None);
    ShortOutput([]);
    var c := RequestedClient(cfg, s);
    if data.Some? && c.Some? { RespondEffect(cfg.lib, s, c.value, data.value); }
  }

  lemma GetEffect(cfg: Config, s: State, target: nat, p: Property)
    ensures OnlyServer(s, GetRequestedData(cfg, s, target, p))
  {
    var starts, ends := s.(incrStarts := true, incrData := None), s.(incrStarts := false, incrData := None);
    var grows := s.(incrData := Some((if s.incrData.Some? then s.incrData.value else []) + p.data));
    SendEffect(s, None);
    ProcessEffect(cfg, s, false, None);
    ProcessEffect(cfg, s, true, Some(Ended(p.data)));
    ProcessEffect(cfg, starts, true, None);
    ProcessEffect(cfg, ends, true, Assembly(s.incrData, p.behind));
    ProcessEffect(cfg, grows, true, None);
  }

  lemma ListEffect(s: State, formats: seq<Format>, force: bool, notifyOk: bool)
    ensures OnlyServer(s, SendFormatList(s, formats, force, notifyOk))
  {
    var r := SendDataResponse(s.(lastSent := formats), None);
    var more := if notifyOk then [FormatListSent(formats)] else [];
    SendEffect(s.(lastSent := formats), None);
    ShortOutput(more);
    AnsweredConcat(r.out, more);
    ResponsesConcat(r.out, more);
    ShortOutput([]);
  }

  /** The events that are neither a request of an X client, nor a request, a response or a list of the server. */
  predicate Local(e: Event) { e.OnSelectionNotify? || e.OnPropertyChunk? || e.OnAnnounce? || e.OnMonitorReady? }

  lemma LocalEffect(cfg: Config, s: State, e: Event)
    requires Local(e)
    ensures OnlyServer(s, Step(cfg, s, e))
  {
    match e
    case OnSelectionNotify(target, p, source, notifyOk) =>
      if target == cfg.targets { ListEffect(s, ClientFormats(cfg, source), false, notifyOk); }
      else { GetEffect(cfg, s, target, p); }
    case OnPropertyChunk(p) =>
      var c := RequestedClient(cfg, s);
      if c.Some? { GetEffect(cfg, s, c.value.atom, p); }
    case OnAnnounce(source, notifyOk) => ListEffect(s, ClientFormats(cfg, source), false, notifyOk);
    case OnMonitorReady(source, notifyOk) => ListEffect(s.(lastSent := []), ClientFormats(cfg, source), true, notifyOk);
  }

  /** The request overwrites an open one, and is open, answered or lost afterwards. */
  lemma DataRequestEffect(cfg: Config, s: State, id: u32, rawAvailable: bool)
    ensures var r := ServerDataRequest(cfg, s, id, rawAvailable);
            && r.state.respond == s.respond && r.state.requestedFormat == s.requestedFormat
            && Answered(r.out) == multiset{}
            && Responses(r.out) + (if Open(r.state) then 1 else 0) ==
              if !rawAvailable && id >= 0x8000_0000 then 0 else 1
  {
    ShortOutput(ServerDataRequest(cfg, s, id, rawAvailable).out);
  }

  // --- Requests of X clients over whole runs ---

  lemma StepKeepsHeld(cfg: Config, s: State, e: Event)
    requires HeldWithFormat(cfg, s)
    ensures HeldWithFormat(cfg, Step(cfg, s, e).state)
  {
    match e
    case OnSelectionRequest(req, rawProperty) => RequestEffect(cfg, s, req, rawProperty);
    case OnServerDataResponse(failed, data) => ResponseEffect(cfg, s, failed, data);
    case OnServerDataRequest(id, rawAvailable) => DataRequestEffect(cfg, s, id, rawAvailable);
    case OnServerFormatList(formats, files, notifyOk) =>
    case _ => LocalEffect(cfg, s, e);
  }

  /** In every run a held request has a requested format, so the response handler never meets its error case. */
  lemma {:induction false} PendingHasFormat(cfg: Config, es: seq<Event>)
    ensures HeldWithFormat(cfg, After(cfg, es))
  {
    if |es| > 0 {
      PendingHasFormat(cfg, es[..|es| - 1]);
      StepKeepsHeld(cfg, After(cfg, es[..|es| - 1]), es[|es| - 1]);
    }
  }

  lemma {:induction false} AnsweredConcat(a: seq<Output>, b: seq<Output>)
    ensures Answered(a + b) == Answered(a) + Answered(b)
  {
    if |b| == 0 {
      assert a + b == a;
    } else {
      assert (a + b)[..|a + b| - 1] == a + b[..|b| - 1];
      AnsweredConcat(a, b[..|b| - 1]);
    }
  }

  /** What was held or comes in is given up, answered or held afterwards. */
  predicate Balances(cfg: Config, s: State, e: Event, r: Result)
  {
    Pending(s) + AcceptedBy(cfg, e) == DroppedBy(cfg, s, e) + Answered(r.out) + Pending(r.state)
  }

  lemma RequestAccounts(cfg: Config, s: State, req: XRequest, rawProperty: Option<nat>)
    ensures var e := OnSelectionRequest(req, rawProperty); Balances(cfg, s, e, Step(cfg, s, e))
  {
    RequestEffect(cfg, s, req, rawProperty);
    ShortOutput(SelectionRequest(cfg, s, req, rawProperty).out);
  }

  lemma ResponseAccounts(cfg: Config, s: State, failed: bool, data: bytes)
    requires HeldWithFormat(cfg, s)
    ensures var e := OnServerDataResponse(failed, data); Balances(cfg, s, e, Step(cfg, s, e))
  {
    ResponseEffect(cfg, s, failed, data);
    ShortOutput(ServerDataResponse(cfg, s, failed, data).out);
  }

  lemma ServerListAccounts(cfg: Config, s: State, formats: seq<Format>, files: bool, notifyOk: bool)
    ensures var e := OnServerFormatList(formats, files, notifyOk); Balances(cfg, s, e, Step(cfg, s, e))
  {
    ShortOutput(ServerFormatList(cfg, s, formats, files, notifyOk).out);
  }

  lemma DataRequestAccounts(cfg: Config, s: State, id: u32, rawAvailable: bool)
    ensures var e := OnServerDataRequest(id, rawAvailable); Balances(cfg, s, e, Step(cfg, s, e))
  {
    DataRequestEffect(cfg, s, id, rawAvailable);
  }

  lemma LocalAccounts(cfg: Config, s: State, e: Event, r: Result)
    requires Local(e) && OnlyServer(s, r)
    ensures Balances(cfg, s, e, r)
  {
  }

  lemma LocalStepAccounts(cfg: Config, s: State, e: Event)
    requires Local(e)
    ensures Balances(cfg, s, e, Step(cfg, s, e))
  {
    LocalEffect(cfg, s, e);
    LocalAccounts(cfg, s, e, Step(cfg, s, e));
  }

  lemma StepAccounts(cfg: Config, s: State, e: Event)
    requires HeldWithFormat(cfg, s)
    ensures Balances(cfg, s, e, Step(cfg, s, e))
  {
    match e
    case OnSelectionRequest(req, rawProperty) => RequestAccounts(cfg, s, req, rawProperty);
    case OnServerDataResponse(failed, data) => ResponseAccounts(cfg, s, failed, data);
    case OnServerDataRequest(id, rawAvailable) => DataRequestAccounts(cfg, s, id, rawAvailable);
    case OnServerFormatList(formats, files, notifyOk) => ServerListAccounts(cfg, s, formats, files, notifyOk);
    case _ => LocalStepAccounts(cfg, s, e);
  }

  lemma Carry(a: multiset<XRequest>, d: multiset<XRequest>, p: multiset<XRequest>, accepted: multiset<XRequest>,
              answered: multiset<XRequest>, dropped: multiset<XRequest>, pending: multiset<XRequest>)
    requires p + accepted == dropped + answered + pending
    ensures a + d + p + accepted == (a + answered) + (d + dropped) + pending
  {
    assert a + d + p + accepted == a + d + (p + accepted);
  }

  /** Every accepted request, counted with its repetitions, has been answered, has been given up, or is held:
      none is answered twice and none is lost. */
  lemma {:induction false} RequestsAccounted(cfg: Config, es: seq<Event>)
    ensures Accepted(cfg, es) == Answered(Sent(cfg, es)) + Dropped(cfg, es) + Pending(After(cfg, es))
  {
    if |es| > 0 {
      var before, e := es[..|es| - 1], es[|es| - 1];
      var s := After(cfg, before);
      var r := Step(cfg, s, e);
      RequestsAccounted(cfg, before);
      PendingHasFormat(cfg, before);
      StepAccounts(cfg, s, e);
      AnsweredConcat(Sent(cfg, before), r.out);
      Carry(Answered(Sent(cfg, before)), Dropped(cfg, before), Pending(s), AcceptedBy(cfg, e), Answered(r.out),
            DroppedBy(cfg, s, e), Pending(r.state));
    }
  }

  // --- Every data request of the server is accounted for ---

  predicate Open(s: State) { s.requestedFormatId >= 0 }

  function Received(es: seq<Event>): nat
  {
    if |es| == 0 then 0 else Received(es[..|es| - 1]) + if es[|es| - 1].OnServerDataRequest? then 1 else 0
  }

  function Responses(out: seq<Output>): nat
  {
    if |out| == 0 then 0 else Responses(out[..|out| - 1]) + if out[|out| - 1].DataResponse? then 1 else 0
  }

  /** A request that finds another one open overwrites it. */
  predicate Overlaps(s: State, e: Event) { e.OnServerDataRequest? && Open(s) }

  /** An id of 2^31 or more reads as no request at all. */
  predicate Unanswerable(e: Event) { e.OnServerDataRequest? && !e.rawAvailable && e.id >= 0x8000_0000 }

  function Lost(cfg: Config, es: seq<Event>): nat
  {
    if |es| == 0 then 0
    else
      var before, e := es[..|es| - 1], es[|es| - 1];
      Lost(cfg, before) + (if Overlaps(After(cfg, before), e) then 1 else 0) + (if Unanswerable(e) then 1 else 0)
  }

  lemma {:induction false} ResponsesConcat(a: seq<Output>, b: seq<Output>)
    ensures Responses(a + b) == Responses(a) + Responses(b)
  {
    if |b| == 0 {
      assert a + b == a;
    } else {
      assert (a + b)[..|a + b| - 1] == a + b[..|b| - 1];
      ResponsesConcat(a, b[..|b| - 1]);
    }
  }

  lemma StepResponds(cfg: Config, s: State, e: Event)
    requires HeldWithFormat(cfg, s)
    ensures var r := Step(cfg, s, e);
            (if Open(s) then 1 else 0) + (if e.OnServerDataRequest? then 1 else 0) ==
            Responses(r.out) + (if Open(r.state) then 1 else 0)
            + (if Overlaps(s, e) then 1 else 0) + (if Unanswerable(e) then 1 else 0)
  {
    match e
    case OnSelectionRequest(req, rawProperty) =>
      RequestEffect(cfg, s, req, rawProperty);
      ShortOutput(SelectionRequest(cfg, s, req, rawProperty).out);
    case OnServerDataResponse(failed, data) =>
      ResponseEffect(cfg, s, failed, data);
      ShortOutput(ServerDataResponse(cfg, s, failed, data).out);
    case OnServerDataRequest(id, rawAvailable) => DataRequestEffect(cfg, s, id, rawAvailable);
    case OnServerFormatList(formats, files, notifyOk) =>
      ShortOutput(ServerFormatList(cfg, s, formats, files, notifyOk).out);
    case _ => LocalEffect(cfg, s, e);
  }

  /** Over every run: requests received are responses sent, plus one while a request is open, plus the lost ones. */
  lemma {:induction false} ResponsesBalanced(cfg: Config, es: seq<Event>)
    ensures Received(es) == Responses(Sent(cfg, es)) + (if Open(After(cfg, es)) then 1 else 0) + Lost(cfg, es)
  {
    if |es| > 0 {
      var before, e := es[..|es| - 1], es[|es| - 1];
      ResponsesBalanced(cfg, before);
      PendingHasFormat(cfg, before);
      StepResponds(cfg, After(cfg, before), e);
      ResponsesConcat(Sent(cfg, before), Step(cfg, After(cfg, before), e).out);
    }
  }

  /** No request of the run overlaps another or has an unanswerable id. */
  predicate NoneLost(cfg: Config, es: seq<Event>)
  {
    |es| == 0
    || (NoneLost(cfg, es[..|es| - 1]) && !Overlaps(After(cfg, es[..|es| - 1]), es[|es| - 1])
        && !Unanswerable(es[|es| - 1]))
  }

  lemma {:induction false} LostExactly(cfg: Config, es: seq<Event>)
    ensures Lost(cfg, es) == 0 <==> NoneLost(cfg, es)
  {
    if |es| > 0 { LostExactly(cfg, es[..|es| - 1]); }
  }

  /** Responses and the open request never exceed the requests, and equal them exactly when none is lost. */
  lemma ResponsesMatchRequests(cfg: Config, es: seq<Event>)
    ensures var handled := Responses(Sent(cfg, es)) + if Open(After(cfg, es)) then 1 else 0;
            handled <= Received(es) && (handled == Received(es) <==> NoneLost(cfg, es))
  {
    ResponsesBalanced(cfg, es);
    LostExactly(cfg, es);
  }

  /** The lost requests are real: one with the high bit set gets no answer. */
  lemma HighIdUnanswered(cfg: Config)
    ensures var es := [OnServerDataRequest(0x8000_0000, false)];
            Received(es) == 1 && Responses(Sent(cfg, es)) == 0 && !Open(After(cfg, es))
  {
    var es := [OnServerDataRequest(0x8000_0000, false)];
    var r := ServerDataRequest(cfg, Init(cfg), 0x8000_0000, false);
    assert es[..0] == [];
    ShortOutput(r.out);
    assert Sent(cfg, es) == [] + r.out == r.out;
  }

  lemma RequestOpens(cfg: Config, es: seq<Event>, id: u32)
    requires id < 0x8000_0000 && ById(cfg.clients, id).Some?
    ensures var more := es + [OnServerDataRequest(id, false)];
            && Open(After(cfg, more)) && Received(more) == Received(es) + 1
            && Responses(Sent(cfg, more)) == Responses(Sent(cfg, es))
  {
    var more, r := es + [OnServerDataRequest(id, false)], ServerDataRequest(cfg, After(cfg, es), id, false);
    assert more[..|es|] == es;
    ShortOutput(r.out);
    ResponsesConcat(Sent(cfg, es), r.out);
  }

  /** And of two that overlap only one can still be answered. */
  lemma OverlapLosesOne(cfg: Config, id: u32)
    requires id < 0x8000_0000 && ById(cfg.clients, id).Some?
    ensures var es := [OnServerDataRequest(id, false), OnServerDataRequest(id, false)];
            Received(es) == 2 && Responses(Sent(cfg, es)) == 0 && Open(After(cfg, es))
  {
    var es := [OnServerDataRequest(id, false), OnServerDataRequest(id, false)];
    var none: seq<Event> := [];
    assert es[..1] == none + [es[0]] && es == es[..1] + [es[1]];
    RequestOpens(cfg, none, id);
    RequestOpens(cfg, es[..1], id);
  }

  /** Where the library keeps raw data as it is, a response to a raw request never answers it. */
  lemma RawHeldUnanswered(cfg: Config, s: State, data: bytes)
    requires s.respond.Some? && s.rawTransfer && Converted(cfg.lib, RawRule, data).Some?
    ensures ServerDataResponse(cfg, s, false, data).out == []
    ensures |data| > 0 ==> ServerDataResponse(cfg, s, false, data).state == s
  {
  }

  // --- Announcements ---

  predicate Quiet(s: State, formats: seq<Format>, notifyOk: bool)
  {
    SendFormatList(s, formats, false, notifyOk) == Result(s, [])
  }

  lemma QuietIsSame(s: State, formats: seq<Format>, notifyOk: bool)
    ensures Quiet(s, formats, notifyOk) <==> Same(s.lastSent, formats)
  {
    if formats == s.lastSent { PermutationIsSame(s.lastSent, formats); }
  }

  /** Unforced announcements change and send nothing for exactly the permutations of the list sent last, if and only if
      that list holds no format twice. */
  lemma QuietReannouncement(s: State, notifyOk: bool)
    ensures (forall formats :: Quiet(s, formats, notifyOk) <==> multiset(formats) == multiset(s.lastSent)) <==>
            Distinct(s.lastSent)
  {
    forall formats ensures Quiet(s, formats, notifyOk) <==> Same(s.lastSent, formats) {
      QuietIsSame(s, formats, notifyOk);
    }
    if Distinct(s.lastSent) {
      forall formats ensures Quiet(s, formats, notifyOk) <==> multiset(formats) == multiset(s.lastSent) {
        SameIsPermutation(s.lastSent, formats);
      }
    } else {
      var formats := RepetitionHidesChange(s.lastSent);
      assert Quiet(s, formats, notifyOk);
    }
  }

  /** The list an event announces, if it changes. */
  function Announced(cfg: Config, e: Event): Option<seq<Format>>
  {
    match e
    case OnAnnounce(source, _) => Some(ClientFormats(cfg, source))
    case OnMonitorReady(source, _) => Some(ClientFormats(cfg, source))
    case OnSelectionNotify(target, _, source, _) =>
      if target == cfg.targets then Some(ClientFormats(cfg, source)) else None
    case _ => None
  }

  /** The event announces a list made from targets, or the list of another client of this kind without repetition. */
  predicate AnnouncesDistinct(cfg: Config, e: Event)
  {
    Announced(cfg, e).Some? && e.source.raw.Some? && Parse(e.source.raw.value).Some? ==>
      Distinct(Parse(e.source.raw.value).value)
  }

  lemma AnnouncedDistinct(cfg: Config, source: Source)
    requires source.raw.Some? && Parse(source.raw.value).Some? ==> Distinct(Parse(source.raw.value).value)
    ensures Distinct(ClientFormats(cfg, source))
  {
    FromTargetsIds(cfg.clients, source.atoms, 0);
  }

  lemma RequestedDataKeepsLast(cfg: Config, s: State, target: nat, p: Property)
    ensures GetRequestedData(cfg, s, target, p).state.lastSent == s.lastSent
  {
  }

  /** The list sent last is kept, forgotten, or the one announced. */
  lemma StepLastSent(cfg: Config, s: State, e: Event)
    ensures var last := Step(cfg, s, e).state.lastSent;
            last == s.lastSent || last == [] || Announced(cfg, e) == Some(last)
  {
    match e
    case OnSelectionNotify(target, p, source, notifyOk) =>
      if target != cfg.targets { RequestedDataKeepsLast(cfg, s, target, p); }
    case OnPropertyChunk(p) =>
      var c := RequestedClient(cfg, s);
      if c.Some? { RequestedDataKeepsLast(cfg, s, c.value.atom, p); }
    case _ =>
  }

  /** In every run whose announcements come from targets, or from lists without repetition, the list sent last holds no
      format twice. */
  lemma {:induction false} LastSentDistinct(cfg: Config, es: seq<Event>)
    requires forall e :: e in es ==> AnnouncesDistinct(cfg, e)
    ensures Distinct(After(cfg, es).lastSent)
  {
    if |es| > 0 {
      var before, e := es[..|es| - 1], es[|es| - 1];
      LastSentDistinct(cfg, before);
      assert e in es;
      StepLastSent(cfg, After(cfg, before), e);
      if Announced(cfg, e).Some? { AnnouncedDistinct(cfg, e.source); }
    }
  }

  /** So in every such run a list is announced again exactly when it is no permutation of the one sent last. */
  lemma QuietInRuns(cfg: Config, es: seq<Event>, formats: seq<Format>, notifyOk: bool)
    requires forall e :: e in es ==> AnnouncesDistinct(cfg, e)
    ensures Quiet(After(cfg, es), formats, notifyOk) <==> multiset(formats) == multiset(After(cfg, es).lastSent)
  {
    LastSentDistinct(cfg, es);
    QuietIsSame(After(cfg, es), formats, notifyOk);
    SameIsPermutation(After(cfg, es).lastSent, formats);
  }

  /** A list of another client of this kind may hold a format twice, and after announcing it some change goes unseen. */
  lemma RawListHidesChange(cfg: Config, source: Source, notifyOk: bool) returns (formats: seq<Format>)
    requires source.raw.Some? && Parse(source.raw.value).Some? && !Distinct(Parse(source.raw.value).value)
    ensures var s := After(cfg, [OnMonitorReady(source, true)]);
            Quiet(s, formats, notifyOk) && multiset(formats) != multiset(s.lastSent)
  {
    var s := After(cfg, [OnMonitorReady(source, true)]);
    var last := Parse(source.raw.value).value;
    assert [OnMonitorReady(source, true)][..0] == [];
    assert s.lastSent == ClientFormats(cfg, source) == last;
    formats := RepetitionHidesChange(last);
    QuietIsSame(s, formats, notifyOk);
  }

  // --- What the server is given ---

  /** Data asked for as raw is refused: the raw id is 0, the mark for a format without a local id. */
  lemma RawRequestFails(lib: Library, c: ClientFormat, data: bytes)
    requires c.toRequest == CF_RAW
    ensures ResponseFor(lib, c, data) == None
  {
  }

  /** No open request but a raw one, and no response with data. */
  ghost predicate Refuses(r: Result)
  {
    r.state.requestedFormatId <= 0 && forall o :: o in r.out ==> o.DataResponse? ==> o.data == None
  }

  lemma ProcessRefuses(cfg: Config, s: State, hasData: bool, data: Option<Buffer>)
    requires s.requestedFormatId <= 0
    ensures Refuses(ProcessRequestedData(cfg, s, hasData, data))
  {
    var c := RequestedClient(cfg, s);
    if data.Some? && c.Some? && s.requestedFormatId == 0 {
      RawRequestFails(cfg.lib, c.value, Reached(c.value, data.value));
    }
  }

  lemma GetRefuses(cfg: Config, s: State, target: nat, p: Property)
    requires s.requestedFormatId <= 0
    ensures Refuses(GetRequestedData(cfg, s, target, p))
  {
    ProcessRefuses(cfg, s, false, None);
    ProcessRefuses(cfg, s, true, Some(Ended(p.data)));
    ProcessRefuses(cfg, s.(incrStarts := true, incrData := None), true, None);
    ProcessRefuses(cfg, s.(incrStarts := false, incrData := None), true, Assembly(s.incrData, p.behind));
    ProcessRefuses(cfg, s.(incrData := Some((if s.incrData.Some? then s.incrData.value else []) + p.data)), true, None);
  }

  lemma ListRefuses(s: State, formats: seq<Format>, force: bool, notifyOk: bool)
    requires s.requestedFormatId <= 0
    ensures Refuses(SendFormatList(s, formats, force, notifyOk))
  {
  }

  lemma StepRefuses(cfg: Config, s: State, e: Event)
    requires s.requestedFormatId <= 0 && HeldWithFormat(cfg, s) && (e.OnServerDataRequest? ==> e.rawAvailable)
    ensures Refuses(Step(cfg, s, e))
  {
    match e
    case OnSelectionRequest(req, rawProperty) => RequestEffect(cfg, s, req, rawProperty);
    case OnServerDataResponse(failed, data) => ResponseEffect(cfg, s, failed, data);
    case OnSelectionNotify(target, p, source, notifyOk) =>
      if target == cfg.targets { ListRefuses(s, ClientFormats(cfg, source), false, notifyOk); }
      else { GetRefuses(cfg, s, target, p); }
    case OnPropertyChunk(p) =>
      var c := RequestedClient(cfg, s);
      if c.Some? { GetRefuses(cfg, s, c.value.atom, p); }
    case OnAnnounce(source, notifyOk) => ListRefuses(s, ClientFormats(cfg, source), false, notifyOk);
    case OnMonitorReady(source, notifyOk) =>
      ListRefuses(s.(lastSent := []), ClientFormats(cfg, source), true, notifyOk);
    case _ =>
  }

  /** In every run in which the selection is owned by another client of this kind whenever the server asks for data, no
      response to the server holds data. */
  lemma {:induction false} RawRunsRefused(cfg: Config, es: seq<Event>)
    requires forall e :: e in es && e.OnServerDataRequest? ==> e.rawAvailable
    ensures Refuses(Result(After(cfg, es), Sent(cfg, es)))
  {
    if |es| > 0 {
      var before, e := es[..|es| - 1], es[|es| - 1];
      RawRunsRefused(cfg, before);
      PendingHasFormat(cfg, before);
      assert e in es;
      StepRefuses(cfg, After(cfg, before), e);
    }
  }

  /** Text counts up to its first null byte only. */
  lemma TextEndsAtNull(lib: Library, c: ClientFormat, text: bytes, more: bytes)
    requires IsText(c.toRequest) && NoNull(text)
    ensures ResponseFor(lib, c, text + [0] + more) == ResponseFor(lib, c, text)
  {
    FindNull(text, more);
    NoNullAt(text);
    assert (text + [0] + more)[..|text|] == text == text[..|text|];
  }

  lemma {:induction false} NoNullAt(text: bytes)
    requires NoNull(text)
    ensures NullAt(text) == |text|
  {
    if |text| > 0 { NoNullAt(text[1..]); }
  }
}
