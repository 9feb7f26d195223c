/** Where the data that the X11 clipboard engine hands out comes from, over every run. */
module XfClipboardCache {
  import opened Common
  import opened XfFormats
  import opened XfAnnounce
  import opened XfClipboard
  import opened XfClipboardRuns

  /** The rule by which a request for this client format is served from the caches. */
  function ClientRule(lib: Library, c: ClientFormat): Rule
  {
    Rule(LocalSrc(lib, c).0, LocalDst(lib, c), LocalSrc(lib, c).1)
  }

  /** The request path and the response path agree on ids and null rule. */
  lemma RulesAgree(cfg: Config, c: ClientFormat, target: nat)
    requires ByAtom(cfg.clients, target) == Some(c)
    ensures ResponseRule(cfg, c, target) == ClientRule(cfg.lib, c)
  {
  }

  // --- What the server has sent since the caches were last cleared ---

  predicate ListClears(s: State, formats: seq<Format>) { !Same(s.lastSent, formats) }

  predicate Clears(cfg: Config, s: State, e: Event)
  {
    match e
    case OnServerFormatList(_, _, _) => true
    case OnMonitorReady(_, _) => true
    case OnAnnounce(source, _) => ListClears(s, ClientFormats(cfg, source))
    case OnSelectionNotify(target, _, source, _) => target == cfg.targets && ListClears(s, ClientFormats(cfg, source))
    case _ => false
  }

  /** A response with the source id under which it was taken. */
  datatype Taken = Taken(src: nat, data: bytes)

  function TakenBy(cfg: Config, s: State, e: Event): set<Taken>
  {
    if e.OnServerDataResponse? && !e.failed && AnswerRule(cfg, s).Some? then
      {Taken(AnswerRule(cfg, s).value.src, e.data)}
    else {}
  }

  function TakenSinceClear(cfg: Config, es: seq<Event>): set<Taken>
  {
    if |es| == 0 then {}
    else
      var before, e := es[..|es| - 1], es[|es| - 1];
      var s := After(cfg, before);
      if Clears(cfg, s, e) then {} else TakenSinceClear(cfg, before) + TakenBy(cfg, s, e)
  }

  // --- The caches hold nothing else ---

  /** `d` is a response of `taken`, converted by the rule of a client format with destination `dst` from the id it was
      taken under. */
  ghost predicate Sourced(cfg: Config, taken: set<Taken>, dst: nat, d: bytes)
  {
    exists c, t :: c in cfg.clients && t in taken && SourcedBy(cfg.lib, ClientRule(cfg.lib, c), t, dst, d)
  }

  predicate SourcedBy(lib: Library, r: Rule, t: Taken, dst: nat, d: bytes)
  {
    r.dst == dst && t.src == r.src && Converted(lib, r, t.data) == Some(d)
  }

  ghost predicate CacheSound(cfg: Config, s: State, taken: set<Taken>)
  {
    && (forall dst :: dst in s.cached ==> dst != 0 && Sourced(cfg, taken, dst, s.cached[dst]))
    && (forall src :: src in s.cachedRaw ==> src != 0 && Taken(src, s.cachedRaw[src]) in taken)
  }

  lemma SourcedGrows(cfg: Config, taken: set<Taken>, more: set<Taken>, dst: nat, d: bytes)
    requires Sourced(cfg, taken, dst, d) && taken <= more
    ensures Sourced(cfg, more, dst, d)
  {
    var c, t :| c in cfg.clients && t in taken && SourcedBy(cfg.lib, ClientRule(cfg.lib, c), t, dst, d);
    assert t in more;
  }

  lemma SoundGrows(cfg: Config, s: State, taken: set<Taken>, more: set<Taken>)
    requires CacheSound(cfg, s, taken) && taken <= more
    ensures CacheSound(cfg, s, more)
  {
    forall dst | dst in s.cached ensures Sourced(cfg, more, dst, s.cached[dst]) {
      SourcedGrows(cfg, taken, more, dst, s.cached[dst]);
    }
  }

  lemma LookupSound(cfg: Config, s: State, taken: set<Taken>, c: ClientFormat)
    requires CacheSound(cfg, s, taken) && c in cfg.clients
    ensures var (data, cache) := Lookup(cfg, s, c);
            && CacheSound(cfg, s.(cached := cache), taken)
            && (data.Some? ==> Sourced(cfg, taken, LocalDst(cfg.lib, c), data.value))
  {
    var (data, cache) := Lookup(cfg, s, c);
    var dst, src := LocalDst(cfg.lib, c), LocalSrc(cfg.lib, c).0;
    if dst !in s.cached && data.Some? {
      var t := Taken(src, s.cachedRaw[src]);
      assert SourcedBy(cfg.lib, ClientRule(cfg.lib, c), t, dst, data.value);
      assert cache == s.cached[dst := data.value];
    }
  }

  lemma RequestKeepsSound(cfg: Config, s: State, taken: set<Taken>, req: XRequest, rawProperty: Option<nat>)
    requires CacheSound(cfg, s, taken)
    ensures CacheSound(cfg, SelectionRequest(cfg, s, req, rawProperty).state, taken)
  {
    var c := ByAtom(cfg.clients, req.target);
    if c.Some? { LookupSound(cfg, s, taken, c.value); }
  }

  /** The next response is taken under the rule of the client format that the held request's target selects, or under
      the raw rule. */
  lemma AnswerRuleIs(cfg: Config, s: State)
    requires HeldWithFormat(cfg, s) && s.respond.Some?
    ensures var c := ByAtom(cfg.clients, s.respond.value.target);
            c.Some? && AnswerRule(cfg, s) == Some(if s.rawTransfer then RawRule else ClientRule(cfg.lib, c.value))
  {
    if !s.rawTransfer { RulesAgree(cfg, s.requestedFormat.value, s.respond.value.target); }
  }

  /** Caching an answer and its conversion by a client format's rule, or by the raw rule, for which no entry is made. */
  lemma AnswerSound(cfg: Config, s: State, taken: set<Taken>, c: ClientFormat, r: Rule, data: bytes)
    requires CacheSound(cfg, s, taken) && c in cfg.clients && (r == RawRule || r == ClientRule(cfg.lib, c))
    requires Taken(r.src, data) in taken
    ensures var d := Converted(cfg.lib, r, data);
            CacheSound(cfg, s.(cached := if d.Some? && r.dst != 0 then s.cached[r.dst := d.value] else s.cached,
                               cachedRaw := if r.src != 0 then s.cachedRaw[r.src := data] else s.cachedRaw,
                               respond := None), taken)
  {
    var t, d := Taken(r.src, data), Converted(cfg.lib, r, data);
    if d.Some? { assert SourcedBy(cfg.lib, r, t, r.dst, d.value); }
  }

  lemma ResponseKeepsSound(cfg: Config, s: State, taken: set<Taken>, failed: bool, data: bytes)
    requires CacheSound(cfg, s, taken) && HeldWithFormat(cfg, s)
    ensures CacheSound(cfg, ServerDataResponse(cfg, s, failed, data).state,
                       taken + TakenBy(cfg, s, OnServerDataResponse(failed, data)))
  {
    var more := taken + TakenBy(cfg, s, OnServerDataResponse(failed, data));
    SoundGrows(cfg, s, taken, more);
    if s.respond.Some? && !failed {
      AnswerRuleIs(cfg, s);
      AnswerSound(cfg, s, more, ByAtom(cfg.clients, s.respond.value.target).value, AnswerRule(cfg, s).value, data);
    }
  }

  predicate SameCaches(s: State, t: State) { t.cached == s.cached && t.cachedRaw == s.cachedRaw }

  lemma RequestedDataKeepsCaches(cfg: Config, s: State, target: nat, p: Property)
    ensures SameCaches(s, GetRequestedData(cfg, s, target, p).state)
  {
  }

  lemma ListClearsCaches(s: State, formats: seq<Format>, force: bool, notifyOk: bool)
    ensures var t := SendFormatList(s, formats, force, notifyOk).state;
            if force || ListClears(s, formats) then t.cached == map[] && t.cachedRaw == map[] else SameCaches(s, t)
  {
  }

  /** The caches are untouched, or emptied by an event that clears them. */
  lemma OtherEventsKeepCaches(cfg: Config, s: State, e: Event)
    requires !e.OnSelectionRequest? && !e.OnServerDataResponse?
    ensures var t := Step(cfg, s, e).state;
            if Clears(cfg, s, e) then t.cached == map[] && t.cachedRaw == map[]
            else SameCaches(s, t)
  {
    match e
    case OnSelectionNotify(target, p, source, notifyOk) =>
      if target == cfg.targets { ListClearsCaches(s, ClientFormats(cfg, source), false, notifyOk); }
      else { RequestedDataKeepsCaches(cfg, s, target, p); }
    case OnPropertyChunk(p) =>
      var c := RequestedClient(cfg, s);
      if c.Some? { RequestedDataKeepsCaches(cfg, s, c.value.atom, p); }
    case OnAnnounce(source, notifyOk) => ListClearsCaches(s, ClientFormats(cfg, source), false, notifyOk);
    case OnMonitorReady(source, notifyOk) =>
      ListClearsCaches(s.(lastSent := []), ClientFormats(cfg, source), true, notifyOk);
    case _ =>
  }

  lemma StepKeepsSound(cfg: Config, s: State, taken: set<Taken>, e: Event)
    requires CacheSound(cfg, s, taken) && HeldWithFormat(cfg, s)
    ensures CacheSound(cfg, Step(cfg, s, e).state, if Clears(cfg, s, e) then {} else taken + TakenBy(cfg, s, e))
  {
    match e
    case OnSelectionRequest(req, rawProperty) =>
      RequestKeepsSound(cfg, s, taken, req, rawProperty);
      assert taken + TakenBy(cfg, s, e) == taken;
    case OnServerDataResponse(failed, data) => ResponseKeepsSound(cfg, s, taken, failed, data);
    case _ =>
      OtherEventsKeepCaches(cfg, s, e);
      assert taken + TakenBy(cfg, s, e) == taken;
  }

  /** In every run the caches hold only responses taken since the caches were last cleared, and conversions of them. */
  lemma {:induction false} CachesSound(cfg: Config, es: seq<Event>)
    ensures CacheSound(cfg, After(cfg, es), TakenSinceClear(cfg, es))
  {
    if |es| > 0 {
      var before, e := es[..|es| - 1], es[|es| - 1];
      CachesSound(cfg, before);
      PendingHasFormat(cfg, before);
      StepKeepsSound(cfg, After(cfg, before), TakenSinceClear(cfg, before), e);
    }
  }

  // --- What X clients are given ---

  /** Whether a request is one for the raw data under the id its window names. */
  predicate AsksRaw(cfg: Config, s: State, req: XRequest, rawProperty: Option<nat>)
  {
    var format := ServerByAtom(cfg.clients, s.serverFormats, req.target);
    format.Some? && format.value.id == CF_RAW && rawProperty.Some?
  }

  /** Data given at once was taken from the server since the caches were last cleared: as it came for a raw request,
      and otherwise converted to the destination of the client format that the target selects. */
  lemma ImmediateData(cfg: Config, es: seq<Event>, req: XRequest, rawProperty: Option<nat>, d: bytes)
    requires Reply(req, req.property, Data(d)) in SelectionRequest(cfg, After(cfg, es), req, rawProperty).out
    ensures ByAtom(cfg.clients, req.target).Some?
    ensures if AsksRaw(cfg, After(cfg, es), req, rawProperty) then
              Taken(rawProperty.value, d) in TakenSinceClear(cfg, es)
            else Sourced(cfg, TakenSinceClear(cfg, es), LocalDst(cfg.lib, ByAtom(cfg.clients, req.target).value), d)
  {
    var s, c := After(cfg, es), ByAtom(cfg.clients, req.target);
    CachesSound(cfg, es);
    if c.Some? { LookupSound(cfg, s, TakenSinceClear(cfg, es), c.value); }
  }

  /** Data given later is the response itself, converted by the rule of the client format that the target selects;
      a conversion that fails gives no bytes. */
  lemma DeferredData(cfg: Config, es: seq<Event>, data: bytes, o: Output)
    requires o in ServerDataResponse(cfg, After(cfg, es), false, data).out
    ensures var s := After(cfg, es);
            && s.respond.Some? && ByAtom(cfg.clients, s.respond.value.target).Some?
            && var req, c := s.respond.value, ByAtom(cfg.clients, s.respond.value.target).value;
               var d := Converted(cfg.lib, if s.rawTransfer then RawRule else ClientRule(cfg.lib, c), data);
               o == Reply(req, req.property, Provided(req.property, Data(if d.Some? then d.value else [])))
  {
    var s := After(cfg, es);
    PendingHasFormat(cfg, es);
    if s.respond.Some? { RulesAgree(cfg, s.requestedFormat.value, s.respond.value.target); }
  }

  // --- The id requested and the id the answer is read under ---

  /** The client format through which a target stands for a server format. */
  function Served(clients: seq<ClientFormat>, server: seq<Format>, atom: nat): Option<ClientFormat>
  {
    if |clients| == 0 then None
    else if clients[0].atom == atom && FirstEqual(server, clients[0]).Some? then Some(clients[0])
    else Served(clients[1..], server, atom)
  }

  lemma {:induction false} FirstEqualIsEqual(server: seq<Format>, c: ClientFormat)
    requires FirstEqual(server, c).Some?
    ensures FirstEqual(server, c).value in server && FormatsEqual(FirstEqual(server, c).value, c)
  {
    if !FormatsEqual(server[0], c) { FirstEqualIsEqual(server[1..], c); }
  }

  lemma {:induction false} ServedBy(clients: seq<ClientFormat>, server: seq<Format>, atom: nat, f: Format)
    requires ServerByAtom(clients, server, atom) == Some(f)
    ensures var w := Served(clients, server, atom);
            w.Some? && w.value in clients && w.value.atom == atom && f in server && FormatsEqual(f, w.value)
  {
    if clients[0].atom == atom && FirstEqual(server, clients[0]).Some? { FirstEqualIsEqual(server, clients[0]); }
    else { ServedBy(clients[1..], server, atom, f); }
  }

  /** For formats without a name the answer is read under the id that was requested exactly when the client format
      that found the server's format and the one that the target selects request the same id. */
  lemma RequestedIdIsSource(cfg: Config, s: State, req: XRequest, rawProperty: Option<nat>, id: nat)
    requires HeldWithFormat(cfg, s) && !AsksRaw(cfg, s, req, rawProperty)
    requires DataRequest(id) in SelectionRequest(cfg, s, req, rawProperty).out
    ensures var c, w := ByAtom(cfg.clients, req.target), Served(cfg.clients, s.serverFormats, req.target);
            && c.Some? && w.Some?
            && (c.value.name.None? && w.value.name.None? ==>
                  var rule := AnswerRule(cfg, SelectionRequest(cfg, s, req, rawProperty).state);
                  rule.Some? && (rule.value.src == id <==> c.value.toRequest == w.value.toRequest))
  {
    var f := ServerByAtom(cfg.clients, s.serverFormats, req.target);
    if f.Some? { ServedBy(cfg.clients, s.serverFormats, req.target, f.value); }
  }

  /** With distinct atoms the two are the same client format. */
  lemma {:induction false} DistinctAtomsAgree(clients: seq<ClientFormat>, server: seq<Format>, atom: nat)
    requires forall i, j :: 0 <= i < j < |clients| ==> clients[i].atom != clients[j].atom
    requires Served(clients, server, atom).Some?
    ensures Served(clients, server, atom) == ByAtom(clients, atom)
  {
    if clients[0].atom != atom {
      DistinctAtomsAgree(clients[1..], server, atom);
    } else if FirstEqual(server, clients[0]).None? {
      forall i | 0 <= i < |clients[1..]| ensures clients[1..][i].atom != atom {
        assert clients[0].atom != clients[i + 1].atom;
      }
      NoneServed(clients[1..], server, atom);
    }
  }

  lemma {:induction false} NoneServed(clients: seq<ClientFormat>, server: seq<Format>, atom: nat)
    requires forall i :: 0 <= i < |clients| ==> clients[i].atom != atom
    ensures Served(clients, server, atom).None?
  {
    if |clients| > 0 { NoneServed(clients[1..], server, atom); }
  }
}
