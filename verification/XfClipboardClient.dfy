/**
 The X11 clipboard engine as it runs (client/X11/xf_cliprdr.c): one object whose fields the handlers update.  Every
 handler is proved against its function in XfClipboard, and a run of handlers against the runs of that machine.
 */
module XfClipboardClient {
  import opened Common
  import opened XfFormats
  import opened XfAnnounce
  import opened XfClipboard

  method FormatsMatch(server: Format, client: ClientFormat) returns (equal: bool)
    ensures equal == FormatsEqual(server, client)
  {
    if server.name.Some? && client.name.Some? { return server.name.value <= client.name.value; }
    if server.name.None? && client.name.None? { return server.id == client.toRequest; }
    return false;
  }

  method FindEqual(server: seq<Format>, client: ClientFormat) returns (r: Option<Format>)
    ensures r == FirstEqual(server, client)
  {
    for j := 0 to |server|
      invariant FirstEqual(server, client) == FirstEqual(server[j..], client)
    {
      assert server[j..][1..] == server[j + 1..];
      var equal := FormatsMatch(server[j], client);
      if equal { return Some(server[j]); }
    }
    return None;
  }

  method FindServerFormat(clients: seq<ClientFormat>, server: seq<Format>, atom: nat) returns (r: Option<Format>)
    ensures r == ServerByAtom(clients, server, atom)
  {
    for i := 0 to |clients|
      invariant ServerByAtom(clients, server, atom) == ServerByAtom(clients[i..], server, atom)
    {
      assert clients[i..][1..] == clients[i + 1..];
      if clients[i].atom == atom {
        var f := FindEqual(server, clients[i]);
        if f.Some? { return f; }
      }
    }
    return None;
  }

  /** memchr for the null byte, as a length to keep. */
  method LengthToNull(d: bytes) returns (n: nat)
    ensures n == NullAt(d)
  {
    n := 0;
    while n < |d| && d[n] != 0
      invariant n <= |d| && NullAt(d) == n + NullAt(d[n..])
    {
      assert d[n..][1..] == d[n + 1..];
      n := n + 1;
    }
  }

  /** Sets the data in the library and gets it back in the other format. */
  method Convert(lib: Library, r: Rule, data: bytes) returns (d: Option<bytes>)
    ensures d == Converted(lib, r, data)
  {
    if !lib.accepts(r.src, data) { return None; }
    d := lib.convert(r.src, r.dst, data);
    if d.Some? && r.nullTerminated {
      var n := LengthToNull(d.value);
      d := Some(d.value[..n]);
    }
  }

  class Clipboard {
    const cfg: Config
    const targets: array<nat>
    var numTargets: nat
    var serverFormats: seq<Format>
    var lastSentFormats: seq<Format>
    var cachedData: map<nat, bytes>
    var cachedRawData: map<nat, bytes>
    var respond: Option<XRequest>
    var requestedFormat: Option<ClientFormat>
    var dataRawFormat: bool
    var requestedFormatId: int32
    var incrStarts: bool
    var incrData: Option<bytes>
    var sent: seq<Output>  // to X clients, to the owner of the selection and to the server

    ghost predicate Valid()
      reads this, targets
    {
      targets.Length == 20 && 2 <= numTargets <= 20 && targets[0] == cfg.timestamp && targets[1] == cfg.targets
    }

    ghost function View(): State
      requires Valid()
      reads this, targets
    {
      State(serverFormats, lastSentFormats, targets[..numTargets], cachedData, cachedRawData, respond, requestedFormat,
            dataRawFormat, requestedFormatId, incrStarts, incrData)
    }

    constructor (cfg: Config)
      ensures Valid() && this.cfg == cfg && fresh(targets) && View() == Init(cfg) && sent == []
    {
      this.cfg := cfg;
      var ts := new nat[20];
      ts[0], ts[1] := cfg.timestamp, cfg.targets;
      assert ts[..2] == [cfg.timestamp, cfg.targets];
      targets, numTargets := ts, 2;
      serverFormats, lastSentFormats, cachedData, cachedRawData := [], [], map[], map[];
      respond, requestedFormat, dataRawFormat, requestedFormatId := None, None, false, -1;
      incrStarts, incrData, sent := false, None, [];
    }

    // --- Requests of X clients ---

    /** Data for a non-raw request, from the cache or from raw data that is still there. */
    method LookupCached(c: ClientFormat) returns (data: Option<bytes>)
      requires Valid()
      modifies `cachedData
      ensures Valid() && data == Lookup(cfg, old(View()), c).0
      ensures View() == old(View()).(cached := Lookup(cfg, old(View()), c).1)
    {
      var dst := LocalDst(cfg.lib, c);
      data := Fetch(cachedData, dst);
      if data.None? {
        var (src, nullTerminated) := LocalSrc(cfg.lib, c);
        var raw := Fetch(cachedRawData, src);
        if raw.Some? && |raw.value| != 0 {
          data := Convert(cfg.lib, Rule(src, dst, nullTerminated), raw.value);
          if data.Some? {
            var cache := Insert(cachedData, dst, data.value);
            if cache.None? { return None; }
            cachedData := cache.value;
          }
        }
      }
    }

    method ServeRequest(req: XRequest, c: ClientFormat, id: nat, raw: bool)
      requires Valid()
      modifies `cachedData, `respond, `requestedFormat, `dataRawFormat, `sent
      ensures Valid() && View() == Serve(cfg, old(View()), req, c, id, raw).state
      ensures sent == old(sent) + Serve(cfg, old(View()), req, c, id, raw).out
    {
      var data: Option<bytes>;
      if raw { data := Fetch(cachedRawData, id); } else { data := LookupCached(c); }
      if data.Some? {
        sent := sent + [Reply(req, req.property, Provided(req.property, Data(data.value)))];
      } else if respond.Some? {
        sent := sent + [Reply(req, NONE, NoContent)];
      } else {
        respond, requestedFormat, dataRawFormat := Some(req), Some(c), raw;
        sent := sent + [DataRequest(id)];
      }
    }

    method HandleSelectionRequest(req: XRequest, rawProperty: Option<nat>)
      requires Valid()
      modifies `cachedData, `respond, `requestedFormat, `dataRawFormat, `sent
      ensures Valid() && View() == SelectionRequest(cfg, old(View()), req, rawProperty).state
      ensures sent == old(sent) + SelectionRequest(cfg, old(View()), req, rawProperty).out
    {
      if req.owner != cfg.drawable { return; }
      if req.target == targets[0] {
        sent := sent + [Reply(req, req.property, Provided(req.property, Timestamp))];
      } else if req.target == targets[1] {
        sent := sent + [Reply(req, req.property, Provided(req.property, Targets(targets[..numTargets])))];
      } else {
        var format := FindServerFormat(cfg.clients, serverFormats, req.target);
        var c := ClientFormatByAtom(cfg.clients, req.target);
        if format.None? || c.None? || req.requestor == cfg.drawable {
          sent := sent + [Reply(req, NONE, NoContent)];
        } else {
          var raw := format.value.id == CF_RAW && rawProperty.Some?;
          ServeRequest(req, c.value, if raw then rawProperty.value else format.value.id, raw);
        }
      }
    }

    /** The rule for the answer to the held request. */
    method RuleForAnswer(c: ClientFormat, target: nat) returns (r: Rule)
      ensures r == ResponseRule(cfg, c, target)
    {
      var lib := cfg.lib;
      if c.name.Some? {
        r := Rule(0, 0, false);
        if c.name.value == FILE_GROUP_DESCRIPTOR {
          var t := ClientFormatByAtom(cfg.clients, target);
          r := Rule(lib.formatId(FILE_GROUP_DESCRIPTOR),
                    if t.None? then lib.formatId(Ascii("text/uri-list")) else t.value.local, true);
        } else if c.name.value == HTML_FORMAT {
          r := Rule(lib.formatId(HTML_FORMAT), lib.formatId(MIME_HTML), true);
        }
      } else {
        r := Rule(c.toRequest, c.local, IsText(c.toRequest));
      }
    }

    method HandleServerDataResponse(failed: bool, data: bytes)
      requires Valid()
      modifies `cachedData, `cachedRawData, `respond, `sent
      ensures Valid() && View() == ServerDataResponse(cfg, old(View()), failed, data).state
      ensures sent == old(sent) + ServerDataResponse(cfg, old(View()), failed, data).out
    {
      if failed {
        respond := None;
        return;
      }
      if respond.None? { return; }
      var req, r := respond.value, RawRule;
      if !dataRawFormat {
        if requestedFormat.None? { return; }
        r := RuleForAnswer(requestedFormat.value, req.target);
      }
      if |data| == 0 && cfg.lib.accepts(r.src, data) {
        respond := None;
        return;
      }
      var d := Convert(cfg.lib, r, data);
      if d.Some? {
        var cache := Insert(cachedData, r.dst, d.value);
        if cache.None? { return; }
        cachedData := cache.value;
      }
      var raw := Insert(cachedRawData, r.src, data);
      if raw.Some? { cachedRawData := raw.value; }
      sent := sent + [Reply(req, req.property, Provided(req.property, Data(if d.Some? then d.value else [])))];
      respond := None;
    }

    // --- Requests of the server ---

    method RespondToServer(data: Option<bytes>)
      requires Valid()
      modifies `requestedFormatId, `sent
      ensures Valid() && View() == SendDataResponse(old(View()), data).state
      ensures sent == old(sent) + SendDataResponse(old(View()), data).out
    {
      if requestedFormatId < 0 { return; }
      requestedFormatId := -1;
      sent := sent + [DataResponse(data)];
    }

    method HandleServerDataRequest(id: u32, rawAvailable: bool)
      requires Valid()
      modifies `requestedFormatId, `sent
      ensures Valid() && View() == ServerDataRequest(cfg, old(View()), id, rawAvailable).state
      ensures sent == old(sent) + ServerDataRequest(cfg, old(View()), id, rawAvailable).out
    {
      var c := ClientFormatById(cfg.clients, if rawAvailable then CF_RAW else id);
      requestedFormatId := if rawAvailable then CF_RAW else Signed(id);
      if c.None? {
        RespondToServer(None);
      } else {
        sent := sent + [ConvertSelection(c.value.atom)];
      }
    }

    /** `over`: the search for the null byte ran past the buffer. */
    method DataForServer(c: ClientFormat, b: Buffer) returns (over: bool, d: Option<bytes>)
      ensures over == Overreads(c, b) && d == ResponseFor(cfg.lib, c, Reached(c, b))
    {
      var src, source := c.local, b.data;
      over := false;
      if c.toRequest == CF_RAW {
        src := CF_RAW;
      } else if IsText(c.toRequest) {
        var n := LengthToNull(b.data);
        if n == |b.data| && b.Bare? {
          over, source := true, b.data + b.behind;
          n := LengthToNull(source);
        }
        source := source[..n] + [0];
      }
      if src == 0 || !cfg.lib.accepts(src, source) { return over, None; }
      d := cfg.lib.convert(src, c.toRequest, source);
      if d.Some? && c.toRequest != 0 && c.toRequest == cfg.lib.formatId(FILE_GROUP_DESCRIPTOR) {
        d := cfg.lib.fileList(d.value);
      }
    }

    method ProcessData(hasData: bool, data: Option<Buffer>)
      requires Valid()
      modifies `requestedFormatId, `sent
      ensures Valid() && View() == ProcessRequestedData(cfg, old(View()), hasData, data).state
      ensures sent == old(sent) + ProcessRequestedData(cfg, old(View()), hasData, data).out
    {
      if incrStarts && hasData { return; }
      var c := ClientFormatById(cfg.clients, Unsigned(requestedFormatId));
      if !hasData || data.None? || c.None? {
        RespondToServer(None);
      } else {
        var over, d := DataForServer(c.value, data.value);
        if over { sent := sent + [Overread]; }
        RespondToServer(d);
      }
    }

    method FetchRequestedData(target: nat, p: Property)
      requires Valid()
      modifies `requestedFormatId, `incrStarts, `incrData, `sent
      ensures Valid() && View() == GetRequestedData(cfg, old(View()), target, p).state
      ensures sent == old(sent) + GetRequestedData(cfg, old(View()), target, p).out
    {
      var c := ClientFormatById(cfg.clients, Unsigned(requestedFormatId));
      if c.None? || c.value.atom != target {
        RespondToServer(None);
        return;
      }
      var hasData, data := false, None;
      if |p.data| == 0 && !incrStarts {
      } else if p.incr {
        incrStarts, incrData := true, None;
        hasData := true;
      } else if |p.data| == 0 {
        data, incrData, incrStarts := Assembly(incrData, p.behind), None, false;
        hasData := true;
      } else if p.readOk {
        if incrStarts {
          incrData := Some((if incrData.Some? then incrData.value else []) + p.data);
        } else {
          data := Some(Ended(p.data));
        }
        hasData := true;
      }
      ProcessData(hasData, data);
    }

    // --- Announcements ---

    method FormatsToAnnounce(source: Source) returns (formats: seq<Format>)
      ensures formats == ClientFormats(cfg, source)
    {
      formats := [];
      if source.raw.Some? {
        var parsed := ParseServerFormatList(source.raw.value);
        if parsed.Some? { formats := parsed.value; }
      }
      if |formats| == 0 { formats := FormatsFromTargets(cfg.clients, source.atoms); }
    }

    method AnnounceFormats(formats: seq<Format>, force: bool, notifyOk: bool)
      requires Valid()
      modifies `lastSentFormats, `requestedFormatId, `cachedData, `cachedRawData, `sent
      ensures Valid() && View() == SendFormatList(old(View()), formats, force, notifyOk).state
      ensures sent == old(sent) + SendFormatList(old(View()), formats, force, notifyOk).out
    {
      if !force {
        var changed := Changed(lastSentFormats, formats);
        if !changed { return; }
      }
      lastSentFormats := formats;
      RespondToServer(None);
      cachedData, cachedRawData := map[], map[];
      if notifyOk { sent := sent + [FormatListSent(formats)]; }
    }

    method AppendToTargets(atom: nat)
      requires Valid()
      modifies `numTargets, targets
      ensures Valid() && targets[..numTargets] == AppendTarget(old(targets[..numTargets]), atom)
    {
      if numTargets >= targets.Length { return; }
      for i := 0 to numTargets
        invariant atom !in targets[..i]
      {
        if targets[i] == atom { return; }
      }
      targets[numTargets] := atom;
      numTargets := numTargets + 1;
    }

    method AppendTargetsFor(f: Format, files: bool)
      requires Valid()
      modifies `numTargets, targets
      ensures Valid() && targets[..numTargets] == OfferFor(cfg.clients, old(targets[..numTargets]), f, files)
    {
      var clients := cfg.clients;
      for j := 0 to |clients|
        invariant Valid() && targets[..numTargets] == OfferFor(clients[..j], old(targets[..numTargets]), f, files)
      {
        assert clients[..j + 1][..j] == clients[..j];
        var equal := FormatsMatch(f, clients[j]);
        if equal && (clients[j].name == Some(FILE_GROUP_DESCRIPTOR) ==> files) { AppendToTargets(clients[j].atom); }
      }
      assert clients[..|clients|] == clients;
    }

    method HandleServerFormatList(formats: seq<Format>, files: bool, notifyOk: bool)
      requires Valid()
      modifies `respond, `lastSentFormats, `requestedFormat, `cachedData, `cachedRawData, `serverFormats,
        `numTargets, `sent, targets
      ensures Valid() && View() == ServerFormatList(cfg, old(View()), formats, files, notifyOk).state
      ensures sent == old(sent) + ServerFormatList(cfg, old(View()), formats, files, notifyOk).out
    {
      respond, lastSentFormats, requestedFormat := None, [], None;
      cachedData, cachedRawData := map[], map[];
      serverFormats := formats + [Format(CF_RAW, None)];
      if !notifyOk { return; }
      OfferTargets(formats, files);
      sent := sent + [FormatListResponse];
    }

    method OfferTargets(formats: seq<Format>, files: bool)
      requires Valid()
      modifies `numTargets, targets
      ensures Valid() && targets[..numTargets] == Offer(cfg, formats, files)
    {
      numTargets := 2;
      for i := 0 to |formats|
        invariant Valid() && targets[..numTargets] == Offer(cfg, formats[..i], files)
      {
        assert formats[..i + 1][..i] == formats[..i];
        AppendTargetsFor(formats[i], files);
      }
      assert formats[..|formats|] == formats;
    }

    // --- Events ---

    method HandleSelectionNotify(target: nat, p: Property, source: Source, notifyOk: bool)
      requires Valid()
      modifies this
      ensures Valid() && View() == Step(cfg, old(View()), OnSelectionNotify(target, p, source, notifyOk)).state
      ensures sent == old(sent) + Step(cfg, old(View()), OnSelectionNotify(target, p, source, notifyOk)).out
    {
      if target == targets[1] {
        var formats := FormatsToAnnounce(source);
        AnnounceFormats(formats, false, notifyOk);
      } else {
        FetchRequestedData(target, p);
      }
    }

    method HandlePropertyChunk(p: Property)
      requires Valid()
      modifies this
      ensures Valid() && View() == Step(cfg, old(View()), OnPropertyChunk(p)).state
      ensures sent == old(sent) + Step(cfg, old(View()), OnPropertyChunk(p)).out
    {
      if !incrStarts { return; }
      var c := ClientFormatById(cfg.clients, Unsigned(requestedFormatId));
      if c.Some? { FetchRequestedData(c.value.atom, p); }
    }

    method Handle(e: Event)
      requires Valid()
      modifies this, targets
      ensures Valid() && View() == Step(cfg, old(View()), e).state && sent == old(sent) + Step(cfg, old(View()), e).out
    {
      match e {
        case OnSelectionRequest(req, rawProperty) => HandleSelectionRequest(req, rawProperty);
        case OnSelectionNotify(target, p, source, notifyOk) => HandleSelectionNotify(target, p, source, notifyOk);
        case OnPropertyChunk(p) => HandlePropertyChunk(p);
        case OnAnnounce(source, notifyOk) =>
          var formats := FormatsToAnnounce(source);
          AnnounceFormats(formats, false, notifyOk);
        case OnMonitorReady(source, notifyOk) =>
          lastSentFormats := [];
          var formats := FormatsToAnnounce(source);
          AnnounceFormats(formats, true, notifyOk);
        case OnServerFormatList(formats, files, notifyOk) => HandleServerFormatList(formats, files, notifyOk);
        case OnServerDataRequest(id, rawAvailable) => HandleServerDataRequest(id, rawAvailable);
        case OnServerDataResponse(failed, data) => HandleServerDataResponse(failed, data);
      }
    }

    /** A whole run: the object is the machine of XfClipboard. */
    method HandleAll(es: seq<Event>)
      requires Valid() && View() == Init(cfg) && sent == []
      modifies this, targets
      ensures Valid() && View() == After(cfg, es) && sent == Sent(cfg, es)
    {
      for i := 0 to |es|
        invariant Valid() && View() == After(cfg, es[..i]) && sent == Sent(cfg, es[..i])
      {
        assert es[..i + 1][..i] == es[..i];
        Handle(es[i]);
      }
      assert es[..|es|] == es;
    }
  }
}
