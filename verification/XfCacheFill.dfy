/** Which response and which rule an entry of the converted cache comes from, over every run of the X11 clipboard. */
module XfCacheFill {
  import opened Common
  import opened XfFormats
  import opened XfAnnounce
  import opened XfClipboard
  import opened XfClipboardRuns
  import opened XfClipboardCache
  import opened XfTargets

  /** A conversion that went into the cache: the rule and the response it was applied to. */
  datatype Fill = Fill(rule: Rule, data: bytes)

  function FillWith(lib: Library, rule: Rule, data: bytes): Option<Fill>
  {
    if rule.dst == 0 || Converted(lib, rule, data).None? then None else Some(Fill(rule, data))
  }

  /** A request for a client format rebuilds a missing entry from raw data that is still there. */
  function Rebuilds(cfg: Config, s: State, c: ClientFormat): Option<Fill>
  {
    var rule := ClientRule(cfg.lib, c);
    var raw := Fetch(s.cachedRaw, rule.src);
    if Fetch(s.cached, rule.dst).Some? || raw.None? || |raw.value| == 0 then None
    else FillWith(cfg.lib, rule, raw.value)
  }

  /** The client format whose data a request asks for, other than raw. */
  function Wanted(cfg: Config, s: State, req: XRequest, rawProperty: Option<nat>): Option<ClientFormat>
  {
    if req.owner != cfg.drawable || req.target == cfg.timestamp || req.target == cfg.targets then None
    else if ServerByAtom(cfg.clients, s.serverFormats, req.target).None? || req.requestor == cfg.drawable then None
    else if AsksRaw(cfg, s, req, rawProperty) then None
    else ByAtom(cfg.clients, req.target)
  }

  function FilledBy(cfg: Config, s: State, e: Event): Option<Fill>
  {
    match e
    case OnSelectionRequest(req, rawProperty) =>
      var c := Wanted(cfg, s, req, rawProperty);
      if c.None? then None else Rebuilds(cfg, s, c.value)
    case OnServerDataResponse(failed, data) =>
      if failed || AnswerRule(cfg, s).None? || EmptyAnswer(cfg, s, data) then None
      else FillWith(cfg.lib, AnswerRule(cfg, s).value, data)
    case _ => None
  }

  /** What last went into the cache for a destination since it was cleared. */
  function LastFill(cfg: Config, es: seq<Event>, dst: nat): Option<Fill>
  {
    if |es| == 0 then None
    else
      var before, e := es[..|es| - 1], es[|es| - 1];
      var s := After(cfg, before);
      var f := FilledBy(cfg, s, e);
      if Clears(cfg, s, e) then None
      else if f.Some? && f.value.rule.dst == dst then f
      else LastFill(cfg, before, dst)
  }

  function Cache(lib: Library, cached: map<nat, bytes>, f: Option<Fill>): map<nat, bytes>
  {
    if f.None? || Converted(lib, f.value.rule, f.value.data).None? then cached
    else cached[f.value.rule.dst := Converted(lib, f.value.rule, f.value.data).value]
  }

  // --- The cache is the last fills ---

  lemma LookupFills(cfg: Config, s: State, c: ClientFormat)
    ensures var (data, cache) := Lookup(cfg, s, c);
            && cache == Cache(cfg.lib, s.cached, Rebuilds(cfg, s, c))
            && data == Fetch(cache, LocalDst(cfg.lib, c))
  {
  }

  lemma ServeFills(cfg: Config, s: State, req: XRequest, c: ClientFormat, id: nat, raw: bool)
    ensures Serve(cfg, s, req, c, id, raw).state.cached ==
            Cache(cfg.lib, s.cached, if raw then None else Rebuilds(cfg, s, c))
  {
    LookupFills(cfg, s, c);
  }

  lemma RequestFills(cfg: Config, s: State, req: XRequest, rawProperty: Option<nat>)
    ensures SelectionRequest(cfg, s, req, rawProperty).state.cached ==
            Cache(cfg.lib, s.cached, FilledBy(cfg, s, OnSelectionRequest(req, rawProperty)))
  {
    var format, c := ServerByAtom(cfg.clients, s.serverFormats, req.target), ByAtom(cfg.clients, req.target);
    if format.Some? && c.Some? {
      var raw := AsksRaw(cfg, s, req, rawProperty);
      ServeFills(cfg, s, req, c.value, if raw then rawProperty.value else format.value.id, raw);
    }
  }

  lemma ResponseFills(cfg: Config, s: State, failed: bool, data: bytes)
    requires HeldWithFormat(cfg, s)
    ensures ServerDataResponse(cfg, s, failed, data).state.cached ==
            Cache(cfg.lib, s.cached, FilledBy(cfg, s, OnServerDataResponse(failed, data)))
  {
  }

  /** One event: the converted cache is emptied, gets exactly what the event fills in, or stays as it is. */
  lemma StepFills(cfg: Config, s: State, e: Event)
    requires HeldWithFormat(cfg, s)
    ensures Step(cfg, s, e).state.cached ==
            if Clears(cfg, s, e) then map[] else Cache(cfg.lib, s.cached, FilledBy(cfg, s, e))
  {
    match e
    case OnSelectionRequest(req, rawProperty) => RequestFills(cfg, s, req, rawProperty);
    case OnServerDataResponse(failed, data) => ResponseFills(cfg, s, failed, data);
    case _ => OtherEventsKeepCaches(cfg, s, e);
  }

  /** What a fill leaves in the cache. */
  function Entry(lib: Library, f: Option<Fill>): Option<bytes>
  {
    if f.None? then None else Converted(lib, f.value.rule, f.value.data)
  }

  lemma CacheEntry(lib: Library, cached: map<nat, bytes>, f: Option<Fill>, dst: nat)
    requires f.Some? ==> f == FillWith(lib, f.value.rule, f.value.data)
    ensures Fetch(Cache(lib, cached, f), dst) ==
            if f.Some? && f.value.rule.dst == dst then Entry(lib, f) else Fetch(cached, dst)
  {
  }

  /** In every run an entry of the cache is there exactly when something was filled in since it was cleared, and is the
      conversion of the response that was filled in last, by the rule it was filled in with. */
  lemma {:induction false} CacheIsLastFill(cfg: Config, es: seq<Event>, dst: nat)
    ensures Fetch(After(cfg, es).cached, dst) == Entry(cfg.lib, LastFill(cfg, es, dst))
    ensures LastFill(cfg, es, dst).Some? ==> Entry(cfg.lib, LastFill(cfg, es, dst)).Some?
  {
    if |es| > 0 {
      var before, e := es[..|es| - 1], es[|es| - 1];
      var s := After(cfg, before);
      CacheIsLastFill(cfg, before, dst);
      PendingHasFormat(cfg, before);
      StepFills(cfg, s, e);
      CacheEntry(cfg.lib, s.cached, FilledBy(cfg, s, e), dst);
    }
  }

  /** The fill is by the rule of a client format, of a response taken since the caches were cleared. */
  ghost predicate FillIsSourced(cfg: Config, taken: set<Taken>, f: Fill)
  {
    Taken(f.rule.src, f.data) in taken && exists c :: c in cfg.clients && f.rule == ClientRule(cfg.lib, c)
  }

  lemma FilledIsSourced(cfg: Config, s: State, taken: set<Taken>, e: Event)
    requires CacheSound(cfg, s, taken) && HeldWithFormat(cfg, s) && FilledBy(cfg, s, e).Some?
    ensures FillIsSourced(cfg, taken + TakenBy(cfg, s, e), FilledBy(cfg, s, e).value)
  {
    if e.OnServerDataResponse? {
      AnswerRuleIs(cfg, s);
      assert ByAtom(cfg.clients, s.respond.value.target).value in cfg.clients;
    } else {
      var c := Wanted(cfg, s, e.req, e.rawProperty).value;
      assert c in cfg.clients;
    }
  }

  lemma {:induction false} LastFillIsSourced(cfg: Config, es: seq<Event>, dst: nat)
    requires LastFill(cfg, es, dst).Some?
    ensures LastFill(cfg, es, dst).value.rule.dst == dst
    ensures FillIsSourced(cfg, TakenSinceClear(cfg, es), LastFill(cfg, es, dst).value)
  {
    var before, e := es[..|es| - 1], es[|es| - 1];
    var s := After(cfg, before);
    var f := FilledBy(cfg, s, e);
    if f.Some? && f.value.rule.dst == dst {
      CachesSound(cfg, before);
      PendingHasFormat(cfg, before);
      FilledIsSourced(cfg, s, TakenSinceClear(cfg, before), e);
    } else {
      LastFillIsSourced(cfg, before, dst);
    }
  }

  // --- What a request is served ---

  lemma AfterSnoc(cfg: Config, es: seq<Event>, e: Event)
    ensures After(cfg, es + [e]) == Step(cfg, After(cfg, es), e).state
    ensures Sent(cfg, es + [e]) == Sent(cfg, es) + Step(cfg, After(cfg, es), e).out
  {
    assert (es + [e])[..|es|] == es;
  }

  /** The request as one more event of the run. */
  function Requested(es: seq<Event>, req: XRequest, rawProperty: Option<nat>): seq<Event>
  {
    es + [OnSelectionRequest(req, rawProperty)]
  }

  /** The run `es` ends before a request that is served `d` at once, for client format `c`. */
  predicate ServedAtOnce(cfg: Config, es: seq<Event>, req: XRequest, rawProperty: Option<nat>,
                         c: ClientFormat, d: bytes)
  {
    && Wanted(cfg, After(cfg, es), req, rawProperty) == Some(c)
    && Reply(req, req.property, Data(d)) in SelectionRequest(cfg, After(cfg, es), req, rawProperty).out
  }

  /** In every run, data served at once is the conversion filled in last for the destination of the format asked for. */
  lemma ServedIsLastFill(cfg: Config, es: seq<Event>, req: XRequest, rawProperty: Option<nat>,
                         c: ClientFormat, d: bytes)
    requires ServedAtOnce(cfg, es, req, rawProperty, c, d)
    ensures Entry(cfg.lib, LastFill(cfg, Requested(es, req, rawProperty), LocalDst(cfg.lib, c))) == Some(d)
    ensures TakenSinceClear(cfg, Requested(es, req, rawProperty)) == TakenSinceClear(cfg, es)
  {
    var s, run := After(cfg, es), Requested(es, req, rawProperty);
    LookupFills(cfg, s, c);
    RequestFills(cfg, s, req, rawProperty);
    AfterSnoc(cfg, es, OnSelectionRequest(req, rawProperty));
    CacheIsLastFill(cfg, run, LocalDst(cfg.lib, c));
    assert run[..|es|] == es;
  }

  /** Some response taken since the caches were cleared, under the id that `c` asks for, gives `d` by the rule of
      `c`. */
  ghost predicate AsIfAsked(cfg: Config, taken: set<Taken>, c: ClientFormat, d: bytes)
  {
    exists t :: t in taken && SourcedBy(cfg.lib, ClientRule(cfg.lib, c), t, LocalDst(cfg.lib, c), d)
  }

  /** Of the responses taken, none converts under another rule for the destination of `c` to what one of its own
      converts to. */
  ghost predicate TellsApart(cfg: Config, taken: set<Taken>, c: ClientFormat)
  {
    forall c', t, t' ::
      c' in cfg.clients && t in taken && t' in taken && OtherRule(cfg.lib, c', c)
      && t.src == ClientRule(cfg.lib, c').src && t'.src == ClientRule(cfg.lib, c).src
      && Converted(cfg.lib, ClientRule(cfg.lib, c'), t.data).Some? ==>
        Converted(cfg.lib, ClientRule(cfg.lib, c'), t.data) != Converted(cfg.lib, ClientRule(cfg.lib, c), t'.data)
  }

  predicate OtherRule(lib: Library, c': ClientFormat, c: ClientFormat)
  {
    LocalDst(lib, c') == LocalDst(lib, c) && ClientRule(lib, c') != ClientRule(lib, c)
  }

  /** Data served at once is as if the request had been put to the server when the last fill was by the format's own
      rule, and only then unless two responses taken happen to convert alike. */
  lemma ServedAsIfAsked(cfg: Config, es: seq<Event>, req: XRequest, rawProperty: Option<nat>, c: ClientFormat, d: bytes)
    requires ServedAtOnce(cfg, es, req, rawProperty, c, d)
    ensures var f := LastFill(cfg, Requested(es, req, rawProperty), LocalDst(cfg.lib, c));
            var taken := TakenSinceClear(cfg, es);
            && f.Some?
            && (f.value.rule == ClientRule(cfg.lib, c) ==> AsIfAsked(cfg, taken, c, d))
            && (TellsApart(cfg, taken, c) ==> (AsIfAsked(cfg, taken, c, d) <==> f.value.rule == ClientRule(cfg.lib, c)))
  {
    ServedIsLastFill(cfg, es, req, rawProperty, c, d);
    var run, taken := Requested(es, req, rawProperty), TakenSinceClear(cfg, es);
    LastFillIsSourced(cfg, run, LocalDst(cfg.lib, c));
    var f := LastFill(cfg, run, LocalDst(cfg.lib, c)).value;
    var t := Taken(f.rule.src, f.data);
    assert t in taken;
    if f.rule == ClientRule(cfg.lib, c) {
      assert SourcedBy(cfg.lib, ClientRule(cfg.lib, c), t, LocalDst(cfg.lib, c), d);
    } else {
      var c' :| c' in cfg.clients && f.rule == ClientRule(cfg.lib, c');
      assert OtherRule(cfg.lib, c', c);
    }
  }

  /** Every response taken under the id of a client format with the destination of `c` falls under the rule of `c`. */
  ghost predicate SourcesOwn(cfg: Config, taken: set<Taken>, c: ClientFormat)
  {
    forall c', t ::
      c' in cfg.clients && t in taken && LocalDst(cfg.lib, c') == LocalDst(cfg.lib, c)
      && t.src == ClientRule(cfg.lib, c').src ==>
        ClientRule(cfg.lib, c') == ClientRule(cfg.lib, c)
  }

  /** No other client format shares the destination of `c` under another rule. */
  ghost predicate DestinationOwn(cfg: Config, c: ClientFormat)
  {
    forall c' :: c' in cfg.clients && LocalDst(cfg.lib, c') == LocalDst(cfg.lib, c) ==>
      ClientRule(cfg.lib, c') == ClientRule(cfg.lib, c)
  }

  /** Data served at once is as if the request had been put to the server, where no response taken since the caches were
      cleared falls under another rule for that destination; a destination of one rule is always such a case. */
  lemma CachedAsIfAsked(cfg: Config, es: seq<Event>, req: XRequest, rawProperty: Option<nat>, c: ClientFormat, d: bytes)
    requires ServedAtOnce(cfg, es, req, rawProperty, c, d)
    requires SourcesOwn(cfg, TakenSinceClear(cfg, es), c) || DestinationOwn(cfg, c)
    ensures AsIfAsked(cfg, TakenSinceClear(cfg, es), c, d)
  {
    ServedAsIfAsked(cfg, es, req, rawProperty, c, d);
    ServedIsLastFill(cfg, es, req, rawProperty, c, d);
    var run := Requested(es, req, rawProperty);
    LastFillIsSourced(cfg, run, LocalDst(cfg.lib, c));
    var f := LastFill(cfg, run, LocalDst(cfg.lib, c)).value;
    var c' :| c' in cfg.clients && f.rule == ClientRule(cfg.lib, c');
    assert Taken(f.rule.src, f.data) in TakenSinceClear(cfg, es);
    assert f.rule == ClientRule(cfg.lib, c);
  }

  // --- Two runs in which a request is not served its own data ---

  /** A request for data of the client format `c`, selected by its atom. */
  predicate Asks(cfg: Config, req: XRequest, c: ClientFormat)
  {
    && req.owner == cfg.drawable && req.requestor != cfg.drawable && req.property != NONE
    && req.target == c.atom && c.atom != cfg.timestamp && c.atom != cfg.targets
    && ByAtom(cfg.clients, c.atom) == Some(c)
  }

  /** The server offers something for `c`, and nothing is cached or held. */
  predicate Idle(cfg: Config, s: State, c: ClientFormat)
  {
    s.cached == map[] && s.cachedRaw == map[] && s.respond == None
    && ServerByAtom(cfg.clients, s.serverFormats, c.atom).Some?
  }

  /** A request that finds nothing cached is held, and the response to it is cached and served. */
  lemma AskedAndAnswered(cfg: Config, s: State, req: XRequest, c: ClientFormat, data: bytes, d: bytes)
    requires Asks(cfg, req, c) && Idle(cfg, s, c) && LocalDst(cfg.lib, c) != 0
    requires |data| > 0 && Converted(cfg.lib, ClientRule(cfg.lib, c), data) == Some(d)
    ensures var format := ServerByAtom(cfg.clients, s.serverFormats, c.atom).value;
            var held := SelectionRequest(cfg, s, req, None);
            var answered := ServerDataResponse(cfg, held.state, false, data);
            && held.out == [DataRequest(format.id)]
            && answered.out == [Reply(req, req.property, Data(d))]
            && answered.state.cached == map[LocalDst(cfg.lib, c) := d]
            && answered.state.serverFormats == s.serverFormats
  {
    RulesAgree(cfg, c, c.atom);
  }

  /** A request for a format whose destination is cached is served what is there. */
  lemma ServedFromCache(cfg: Config, s: State, req: XRequest, c: ClientFormat, d: bytes)
    requires Asks(cfg, req, c) && ServerByAtom(cfg.clients, s.serverFormats, c.atom).Some?
    requires LocalDst(cfg.lib, c) != 0 && Fetch(s.cached, LocalDst(cfg.lib, c)) == Some(d)
    ensures SelectionRequest(cfg, s, req, None).out == [Reply(req, req.property, Data(d))]
    ensures Wanted(cfg, s, req, None) == Some(c)
  {
  }

  function Offering(fs: seq<Format>): Event { OnServerFormatList(fs, true, true) }

  lemma IdleAfterList(cfg: Config, fs: seq<Format>)
    ensures var s := After(cfg, [Offering(fs)]);
            s.cached == map[] && s.cachedRaw == map[] && s.respond == None
            && s.serverFormats == fs + [Format(CF_RAW, None)]
  {
    assert [Offering(fs)][..0] == [];
  }

  lemma Offered(cfg: Config, server: seq<Format>, c: ClientFormat, f: Format)
    requires c in cfg.clients && f in server && FormatsEqual(f, c)
    ensures ServerByAtom(cfg.clients, server, c.atom).Some?
  {
    FirstEqualFinds(server, c, f);
    ServerByAtomFinds(cfg.clients, server, c);
  }

  // --- The raw cache ---

  /** The response that an event puts into the raw cache: any that answers the held request, under an id other than
      0. */
  function RawFill(cfg: Config, s: State, e: Event): Option<Taken>
  {
    if !e.OnServerDataResponse? || e.failed || AnswerRule(cfg, s).None? then None
    else if EmptyAnswer(cfg, s, e.data) || Uncacheable(cfg, s, e.data) || AnswerRule(cfg, s).value.src == 0 then None
    else Some(Taken(AnswerRule(cfg, s).value.src, e.data))
  }

  /** The last such response under `src` since the caches were cleared. */
  function LastRaw(cfg: Config, es: seq<Event>, src: nat): Option<bytes>
  {
    if |es| == 0 then None
    else
      var before, e := es[..|es| - 1], es[|es| - 1];
      var s := After(cfg, before);
      var fill := RawFill(cfg, s, e);
      if Clears(cfg, s, e) then None
      else if fill.Some? && fill.value.src == src then Some(fill.value.data)
      else LastRaw(cfg, before, src)
  }

  lemma RequestKeepsRaw(cfg: Config, s: State, req: XRequest, rawProperty: Option<nat>)
    ensures SelectionRequest(cfg, s, req, rawProperty).state.cachedRaw == s.cachedRaw
  {
  }

  lemma ResponseFillsRaw(cfg: Config, s: State, failed: bool, data: bytes)
    requires HeldWithFormat(cfg, s)
    ensures var fill := RawFill(cfg, s, OnServerDataResponse(failed, data));
            ServerDataResponse(cfg, s, failed, data).state.cachedRaw ==
            if fill.Some? then s.cachedRaw[fill.value.src := fill.value.data] else s.cachedRaw
  {
  }

  /** In every run the raw cache holds under each id the last response that came under it. */
  lemma {:induction false} RawIsLastTaken(cfg: Config, es: seq<Event>, src: nat)
    requires src != 0
    ensures Fetch(After(cfg, es).cachedRaw, src) == LastRaw(cfg, es, src)
  {
    if |es| > 0 {
      var before, e := es[..|es| - 1], es[|es| - 1];
      var s := After(cfg, before);
      RawIsLastTaken(cfg, before, src);
      PendingHasFormat(cfg, before);
      match e
      case OnSelectionRequest(req, rawProperty) => RequestKeepsRaw(cfg, s, req, rawProperty);
      case OnServerDataResponse(failed, data) => ResponseFillsRaw(cfg, s, failed, data);
      case _ => OtherEventsKeepCaches(cfg, s, e);
    }
  }

  lemma TakenSnoc(cfg: Config, es: seq<Event>, e: Event)
    ensures var s := After(cfg, es);
            TakenSinceClear(cfg, es + [e]) ==
              if Clears(cfg, s, e) then {} else TakenSinceClear(cfg, es) + TakenBy(cfg, s, e)
  {
    assert (es + [e])[..|es|] == es;
  }

  /** A list of the server, a request for `c` and its answer. */
  function AskedRun(fs: seq<Format>, req: XRequest, data: bytes): seq<Event>
  {
    [Offering(fs)] + [OnSelectionRequest(req, None)] + [OnServerDataResponse(false, data)]
  }

  /** After that run nothing is taken but the answer, under the id that `c` asks for. */
  lemma AskedRunTakes(cfg: Config, fs: seq<Format>, req: XRequest, c: ClientFormat, data: bytes)
    requires Asks(cfg, req, c) && Idle(cfg, After(cfg, [Offering(fs)]), c)
    ensures TakenSinceClear(cfg, AskedRun(fs, req, data)) == {Taken(ClientRule(cfg.lib, c).src, data)}
  {
    var none: seq<Event> := [];
    var es1 := [Offering(fs)];
    var es2 := es1 + [OnSelectionRequest(req, None)];
    assert es1 == none + [Offering(fs)];
    TakenSnoc(cfg, none, Offering(fs));
    TakenSnoc(cfg, es1, OnSelectionRequest(req, None));
    AfterSnoc(cfg, es1, OnSelectionRequest(req, None));
    HeldUnderRule(cfg, After(cfg, es1), req, c);
    TakenSnoc(cfg, es2, OnServerDataResponse(false, data));
  }

  /** It is not what another format asks for under another id. */
  lemma AskedRunIsNotFor(cfg: Config, fs: seq<Format>, req: XRequest, c: ClientFormat, v: ClientFormat, data: bytes,
                         d: bytes)
    requires Asks(cfg, req, c) && Idle(cfg, After(cfg, [Offering(fs)]), c)
    ensures ClientRule(cfg.lib, c).src != ClientRule(cfg.lib, v).src ==>
              !AsIfAsked(cfg, TakenSinceClear(cfg, AskedRun(fs, req, data)), v, d)
  {
    AskedRunTakes(cfg, fs, req, c, data);
  }

  lemma HeldUnderRule(cfg: Config, s: State, req: XRequest, c: ClientFormat)
    requires Asks(cfg, req, c) && Idle(cfg, s, c)
    ensures AnswerRule(cfg, SelectionRequest(cfg, s, req, None).state) == Some(ClientRule(cfg.lib, c))
  {
    RulesAgree(cfg, c, c.atom);
  }

  lemma BothOffered(cfg: Config, u: ClientFormat, v: ClientFormat)
    requires u in cfg.clients && v in cfg.clients && u.name.None? && v.name.None?
    ensures var s := After(cfg, [Offering([Format(u.toRequest, None), Format(v.toRequest, None)])]);
            Idle(cfg, s, u) && Idle(cfg, s, v)
  {
    var fs := [Format(u.toRequest, None), Format(v.toRequest, None)];
    var server := fs + [Format(CF_RAW, None)];
    IdleAfterList(cfg, fs);
    assert server[0] == Format(u.toRequest, None) && server[1] == Format(v.toRequest, None);
    Offered(cfg, server, u, server[0]);
    Offered(cfg, server, v, server[1]);
  }

  /** Two unnamed client formats that share a local id, as UTF8_STRING and STRING do: after a request for the first was
      answered, a request for the second is served the answer to the first, converted by the rule of the first.  It is
      not what the second asks for where the two request different formats. */
  lemma SharedDestination(cfg: Config, u: ClientFormat, v: ClientFormat, first: XRequest, second: XRequest,
                          data: bytes, d: bytes)
    requires u.name.None? && v.name.None? && u.local == v.local != 0
    requires Asks(cfg, first, u) && Asks(cfg, second, v)
    requires |data| > 0 && Converted(cfg.lib, ClientRule(cfg.lib, u), data) == Some(d)
    ensures var es := AskedRun([Format(u.toRequest, None), Format(v.toRequest, None)], first, data);
            && ServedAtOnce(cfg, es, second, None, v, d)
            && (u.toRequest != v.toRequest ==> !AsIfAsked(cfg, TakenSinceClear(cfg, es), v, d))
  {
    var fs := [Format(u.toRequest, None), Format(v.toRequest, None)];
    var es1 := [Offering(fs)];
    var es2 := es1 + [OnSelectionRequest(first, None)];
    BothOffered(cfg, u, v);
    AskedAndAnswered(cfg, After(cfg, es1), first, u, data, d);
    AfterSnoc(cfg, es1, OnSelectionRequest(first, None));
    AfterSnoc(cfg, es2, OnServerDataResponse(false, data));
    ServedFromCache(cfg, After(cfg, AskedRun(fs, first, data)), second, v, d);
    AskedRunIsNotFor(cfg, fs, first, u, v, data, d);
  }

  /** The client formats with the atom of `c` have no name and do not stand for the raw format. */
  ghost predicate PlainAtom(cfg: Config, c: ClientFormat)
  {
    forall x :: x in cfg.clients && x.atom == c.atom ==> x.name.None? && x.toRequest != CF_RAW
  }

  /** A target whose client formats are `c`, which its atom selects, and others: where the server offers only what `w`
      stands for, that is requested, and the answer is read and served by the rule of `c`. */
  lemma ReadsAnotherFormat(cfg: Config, c: ClientFormat, w: ClientFormat, req: XRequest, data: bytes, d: bytes)
    requires Asks(cfg, req, c) && PlainAtom(cfg, c) && LocalDst(cfg.lib, c) != 0
    requires w in cfg.clients && w.atom == c.atom
    requires |data| > 0 && Converted(cfg.lib, ClientRule(cfg.lib, c), data) == Some(d)
    ensures var fs := [Format(w.toRequest, None)];
            var es := [Offering(fs)] + [OnSelectionRequest(req, None)];
            && Sent(cfg, es) == Sent(cfg, [Offering(fs)]) + [DataRequest(w.toRequest)]
            && Sent(cfg, AskedRun(fs, req, data)) == Sent(cfg, es) + [Reply(req, req.property, Data(d))]
            && TakenSinceClear(cfg, AskedRun(fs, req, data)) == {Taken(c.toRequest, data)}
  {
    var fs := [Format(w.toRequest, None)];
    var server := fs + [Format(CF_RAW, None)];
    var es1 := [Offering(fs)];
    IdleAfterList(cfg, fs);
    assert server[0] == Format(w.toRequest, None);
    assert w.name.None? && c in cfg.clients;
    Offered(cfg, server, w, server[0]);
    var f := ServerByAtom(cfg.clients, server, c.atom).value;
    ServedBy(cfg.clients, server, c.atom, f);
    assert f == server[0];
    AskedAndAnswered(cfg, After(cfg, es1), req, c, data, d);
    AfterSnoc(cfg, es1, OnSelectionRequest(req, None));
    AfterSnoc(cfg, es1 + [OnSelectionRequest(req, None)], OnServerDataResponse(false, data));
    AskedRunTakes(cfg, fs, req, c, data);
  }

  /** image/tiff is registered for CF_TIFF, which its atom selects, and again for CF_DIB.  In the run where the server
      offers only CF_DIB, CF_DIB is requested and the answer is read, and served, as CF_TIFF. */
  lemma TiffReadsDib(cfg: Config, c: ClientFormat, w: ClientFormat, req: XRequest, data: bytes, d: bytes)
    requires Asks(cfg, req, c) && PlainAtom(cfg, c) && c.toRequest == c.local == CF_TIFF
    requires w in cfg.clients && w.atom == c.atom && w.toRequest == CF_DIB
    requires |data| > 0 && Converted(cfg.lib, Rule(CF_TIFF, CF_TIFF, false), data) == Some(d)
    ensures var fs := [Format(CF_DIB, None)];
            var es := [Offering(fs)] + [OnSelectionRequest(req, None)];
            && Sent(cfg, es) == Sent(cfg, [Offering(fs)]) + [DataRequest(CF_DIB)]
            && Sent(cfg, AskedRun(fs, req, data)) == Sent(cfg, es) + [Reply(req, req.property, Data(d))]
            && TakenSinceClear(cfg, AskedRun(fs, req, data)) == {Taken(CF_TIFF, data)}
  {
    assert c in cfg.clients && c.name.None?;
    ReadsAnotherFormat(cfg, c, w, req, data, d);
  }
}
