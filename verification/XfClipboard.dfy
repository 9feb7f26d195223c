/**
 The X11 clipboard engine (client/X11/xf_cliprdr.c) as a state machine between an X selection and the RDP
 clipboard channel.  Each handler is a function from the state and what the environment supplies to the new
 state and what is sent.  The clipboard library appears as four functions: registered ids, whether data is
 accepted, conversion of the data last accepted, and the wire form of a file list.
 */
module XfClipboard {
  import opened Common
  import opened XfFormats
  import opened XfAnnounce

  const CF_TEXT: nat := 1
  const CF_TIFF: nat := 6
  const CF_OEMTEXT: nat := 7
  const CF_DIB: nat := 8
  const CF_UNICODETEXT: nat := 13
  const NONE: nat := 0  // no X property

  type int32 = x: int | -0x8000_0000 <= x < 0x8000_0000

  function Ascii(s: string): bytes { seq(|s|, i requires 0 <= i < |s| => s[i] as int % 256) }

  const HTML_FORMAT: bytes := Ascii("HTML Format")
  const FILE_GROUP_DESCRIPTOR: bytes := Ascii("FileGroupDescriptorW")
  const MIME_HTML: bytes := Ascii("text/html")

  datatype Library = Library(
    formatId: bytes -> nat,                       // ClipboardGetFormatId
    accepts: (nat, bytes) -> bool,                // ClipboardSetData
    convert: (nat, nat, bytes) -> Option<bytes>,  // ClipboardGetData: source, destination, data
    fileList: bytes -> Option<bytes>)             // cliprdr_serialize_file_list_ex

  datatype Config = Config(clients: seq<ClientFormat>, drawable: nat, timestamp: nat, targets: nat, lib: Library)

  /** An X selection request; `time` tells requests of one client apart. */
  datatype XRequest = XRequest(owner: nat, requestor: nat, target: nat, property: nat, time: nat)

  datatype State = State(
    serverFormats: seq<Format>,            // what the server offers, with the raw format last
    lastSent: seq<Format>,                 // what was last announced to the server
    offered: seq<nat>,                     // the atoms in TARGETS
    cached: map<nat, bytes>,               // converted data by destination id
    cachedRaw: map<nat, bytes>,            // data from the server by source id
    respond: Option<XRequest>,             // the one request held back
    requestedFormat: Option<ClientFormat>,
    rawTransfer: bool,
    requestedFormatId: int32,              // the server's open request, negative for none
    incrStarts: bool,
    incrData: Option<bytes>)

  datatype Content = NoContent | Timestamp | Targets(atoms: seq<nat>) | Data(data: bytes)

  datatype Output =
    | Reply(request: XRequest, property: nat, content: Content)  // selection notify and the property set before it
    | DataRequest(id: nat)                                       // to the server
    | DataResponse(data: Option<bytes>)                          // to the server, None for failure
    | Overread                                                   // a read past the end of a buffer
    | ConvertSelection(atom: nat)                                // to the selection owner
    | FormatListSent(formats: seq<Format>)
    | FormatListResponse

  datatype Result = Result(state: State, out: seq<Output>)

  function Init(cfg: Config): State
  {
    State([], [], [cfg.timestamp, cfg.targets], map[], map[], None, None, false, -1, false, None)
  }

  // --- Formats ---

  /** A name from the server may be cut short, so it only has to begin the client's. */
  predicate FormatsEqual(server: Format, client: ClientFormat)
  {
    if server.name.Some? && client.name.Some? then server.name.value <= client.name.value
    else server.name.None? && client.name.None? && server.id == client.toRequest
  }

  function FirstEqual(server: seq<Format>, client: ClientFormat): Option<Format>
  {
    if |server| == 0 then None
    else if FormatsEqual(server[0], client) then Some(server[0])
    else FirstEqual(server[1..], client)
  }

  /** The server format that some client format with this atom stands for. */
  function ServerByAtom(clients: seq<ClientFormat>, server: seq<Format>, atom: nat): Option<Format>
  {
    if |clients| == 0 then None
    else if clients[0].atom == atom && FirstEqual(server, clients[0]).Some? then FirstEqual(server, clients[0])
    else ServerByAtom(clients[1..], server, atom)
  }

  predicate IsText(id: nat) { id == CF_TEXT || id == CF_OEMTEXT || id == CF_UNICODETEXT }

  /** Ids and the null rule under which server data becomes local data. */
  datatype Rule = Rule(src: nat, dst: nat, nullTerminated: bool)

  /** get_dst_format_id_for_local_request */
  function LocalDst(lib: Library, c: ClientFormat): nat
  {
    if c.name.None? then c.local
    else if c.name.value == FILE_GROUP_DESCRIPTOR then c.local
    else if c.name.value == HTML_FORMAT then lib.formatId(MIME_HTML)
    else 0
  }

  /** get_src_format_info_for_local_request */
  function LocalSrc(lib: Library, c: ClientFormat): (nat, bool)
  {
    if c.name.Some? then
      if c.name.value == HTML_FORMAT then (lib.formatId(HTML_FORMAT), true)
      else if c.name.value == FILE_GROUP_DESCRIPTOR then (lib.formatId(FILE_GROUP_DESCRIPTOR), true)
      else (0, false)
    else (c.toRequest, IsText(c.toRequest))
  }

  /** The rule of the response handler for the requested format; `target` is what the held request asked for. */
  function ResponseRule(cfg: Config, c: ClientFormat, target: nat): Rule
  {
    var lib := cfg.lib;
    if c.name.Some? then
      if c.name.value == FILE_GROUP_DESCRIPTOR then
        var t := ByAtom(cfg.clients, target);
        Rule(lib.formatId(FILE_GROUP_DESCRIPTOR),
             if t.None? then lib.formatId(Ascii("text/uri-list")) else t.value.local, true)
      else if c.name.value == HTML_FORMAT then Rule(lib.formatId(HTML_FORMAT), lib.formatId(MIME_HTML), true)
      else Rule(0, 0, false)
    else Rule(c.toRequest, c.local, IsText(c.toRequest))
  }

  const RawRule := Rule(CF_RAW, CF_RAW, false)

  function Truncated(nullTerminated: bool, d: bytes): bytes
  {
    if nullTerminated then d[..NullAt(d)] else d
  }

  function Converted(lib: Library, r: Rule, data: bytes): Option<bytes>
  {
    if !lib.accepts(r.src, data) || lib.convert(r.src, r.dst, data).None? then None
    else Some(Truncated(r.nullTerminated, lib.convert(r.src, r.dst, data).value))
  }

  /** The hash tables behind the caches take no key 0 and find none. */
  function Fetch(m: map<nat, bytes>, k: nat): Option<bytes> { if k != 0 && k in m then Some(m[k]) else None }

  function Insert(m: map<nat, bytes>, k: nat, v: bytes): Option<map<nat, bytes>>
  {
    if k == 0 then None else Some(m[k := v])
  }

  // --- Requests of X clients ---

  function Provided(property: nat, c: Content): Content { if property == NONE then NoContent else c }

  /** The cached data for a non-raw request, and the cache after looking it up or rebuilding it from raw data. */
  function Lookup(cfg: Config, s: State, c: ClientFormat): (Option<bytes>, map<nat, bytes>)
  {
    var dst := LocalDst(cfg.lib, c);
    if Fetch(s.cached, dst).Some? then (Fetch(s.cached, dst), s.cached)
    else
      var (src, nullTerminated) := LocalSrc(cfg.lib, c);
      var raw := Fetch(s.cachedRaw, src);
      if raw.None? || |raw.value| == 0 then (None, s.cached)
      else
        var d := Converted(cfg.lib, Rule(src, dst, nullTerminated), raw.value);
        if d.None? || Insert(s.cached, dst, d.value).None? then (None, s.cached)
        else (d, Insert(s.cached, dst, d.value).value)
  }

  /** A request for data: from the caches, or from the server unless another request is held. */
  function Serve(cfg: Config, s: State, req: XRequest, c: ClientFormat, id: nat, raw: bool): Result
  {
    var (data, cache) := if raw then (Fetch(s.cachedRaw, id), s.cached) else Lookup(cfg, s, c);
    if data.Some? then
      Result(s.(cached := cache), [Reply(req, req.property, Provided(req.property, Data(data.value)))])
    else if s.respond.Some? then Result(s, [Reply(req, NONE, NoContent)])
    else Result(s.(respond := Some(req), requestedFormat := Some(c), rawTransfer := raw), [DataRequest(id)])
  }

  /** `rawProperty` is the id that a raw transfer names on the requestor's window. */
  function SelectionRequest(cfg: Config, s: State, req: XRequest, rawProperty: Option<nat>): Result
  {
    if req.owner != cfg.drawable then Result(s, [])
    else if req.target == cfg.timestamp then Result(s, [Reply(req, req.property, Provided(req.property, Timestamp))])
    else if req.target == cfg.targets then
      Result(s, [Reply(req, req.property, Provided(req.property, Targets(s.offered)))])
    else
      var format, c := ServerByAtom(cfg.clients, s.serverFormats, req.target), ByAtom(cfg.clients, req.target);
      if format.None? || c.None? || req.requestor == cfg.drawable then Result(s, [Reply(req, NONE, NoContent)])
      else
        var raw := format.value.id == CF_RAW && rawProperty.Some?;
        Serve(cfg, s, req, c.value, if raw then rawProperty.value else format.value.id, raw)
  }

  /** The server's answer to a data request. */
  function ServerDataResponse(cfg: Config, s: State, failed: bool, data: bytes): Result
  {
    if failed then Result(s.(respond := None), [])
    else if s.respond.None? then Result(s, [])
    else if !s.rawTransfer && s.requestedFormat.None? then Result(s, [])
    else
      var req := s.respond.value;
      var r := if s.rawTransfer then RawRule else ResponseRule(cfg, s.requestedFormat.value, req.target);
      if cfg.lib.accepts(r.src, data) && |data| == 0 then Result(s.(respond := None), [])
      else
        var d := Converted(cfg.lib, r, data);
        var cache := if d.None? then Some(s.cached) else Insert(s.cached, r.dst, d.value);
        var raw := Insert(s.cachedRaw, r.src, data);
        if cache.None? then Result(s, [])  // the request stays held
        else
          Result(s.(cached := cache.value, cachedRaw := if raw.None? then s.cachedRaw else raw.value, respond := None),
                 [Reply(req, req.property, Provided(req.property, Data(if d.Some? then d.value else [])))])
  }

  // --- Requests of the server ---

  /** A 32-bit id stored in a signed integer, and back. */
  function Signed(id: u32): int32 { if id >= 0x8000_0000 then id as int - 0x1_0000_0000 else id }
  function Unsigned(i: int32): u32 { if i < 0 then i as int + 0x1_0000_0000 else i }

  function RequestedClient(cfg: Config, s: State): Option<ClientFormat>
  {
    ById(cfg.clients, Unsigned(s.requestedFormatId))
  }

  function SendDataResponse(s: State, data: Option<bytes>): Result
  {
    if s.requestedFormatId < 0 then Result(s, []) else Result(s.(requestedFormatId := -1), [DataResponse(data)])
  }

  /** `rawAvailable`: the selection owner is another client of this kind. */
  function ServerDataRequest(cfg: Config, s: State, id: u32, rawAvailable: bool): Result
  {
    var c := ById(cfg.clients, if rawAvailable then CF_RAW else id);
    var s' := s.(requestedFormatId := if rawAvailable then CF_RAW else Signed(id));
    if c.None? then SendDataResponse(s', None) else Result(s', [ConvertSelection(c.value.atom)])
  }

  /** Local data: X puts a null byte behind every property, and nothing ends a buffer assembled from pieces.  `behind`
      is what memory holds there, up to a null byte. */
  datatype Buffer = Ended(data: bytes) | Bare(data: bytes, behind: bytes)

  /** Whether looking for the null byte that ends a text runs past the buffer. */
  predicate Overreads(c: ClientFormat, b: Buffer)
  {
    IsText(c.toRequest) && b.Bare? && NullAt(b.data) == |b.data|
  }

  /** What the search for the null byte runs over. */
  function Reached(c: ClientFormat, b: Buffer): bytes
  {
    if Overreads(c, b) then b.data + b.behind else b.data
  }

  /** Local data as the server wants it; text ends at its first null byte. */
  function ResponseFor(lib: Library, c: ClientFormat, data: bytes): Option<bytes>
  {
    var src := if c.toRequest == CF_RAW then CF_RAW else c.local;
    var source := if IsText(c.toRequest) then data[..NullAt(data)] + [0] else data;
    if src == 0 || !lib.accepts(src, source) then None
    else
      var d := lib.convert(src, c.toRequest, source);
      if d.None? then None
      else if c.toRequest != 0 && c.toRequest == lib.formatId(FILE_GROUP_DESCRIPTOR) then lib.fileList(d.value)
      else d
  }

  function RespondWith(lib: Library, s: State, c: ClientFormat, b: Buffer): Result
  {
    var r := SendDataResponse(s, ResponseFor(lib, c, Reached(c, b)));
    Result(r.state, (if Overreads(c, b) then [Overread] else []) + r.out)
  }

  function ProcessRequestedData(cfg: Config, s: State, hasData: bool, data: Option<Buffer>): Result
  {
    if s.incrStarts && hasData then Result(s, [])
    else
      var c := RequestedClient(cfg, s);
      if !hasData || data.None? || c.None? then SendDataResponse(s, None)
      else RespondWith(cfg.lib, s, c.value, data.value)
  }

  /** The property read from our own window: the INCR type, its data, and whether reading it succeeded.  `behind` is
      what lies behind the buffer assembled so far. */
  datatype Property = Property(incr: bool, data: bytes, readOk: bool, behind: bytes)

  function Assembly(data: Option<bytes>, behind: bytes): Option<Buffer>
  {
    if data.None? then None else Some(Bare(data.value, behind))
  }

  function GetRequestedData(cfg: Config, s: State, target: nat, p: Property): Result
  {
    var c := RequestedClient(cfg, s);
    if c.None? || c.value.atom != target then SendDataResponse(s, None)
    else if |p.data| == 0 && !s.incrStarts then ProcessRequestedData(cfg, s, false, None)
    else if p.incr then ProcessRequestedData(cfg, s.(incrStarts := true, incrData := None), true, None)
    else if |p.data| == 0 then
      ProcessRequestedData(cfg, s.(incrStarts := false, incrData := None), true, Assembly(s.incrData, p.behind))
    else if !p.readOk then ProcessRequestedData(cfg, s, false, None)
    else if s.incrStarts then
      var before := if s.incrData.Some? then s.incrData.value else [];
      ProcessRequestedData(cfg, s.(incrData := Some(before + p.data)), true, None)
    else ProcessRequestedData(cfg, s, true, Some(Ended(p.data)))
  }

  // --- Announcements ---

  /** What there is to announce: the property of another client of this kind, if any, and the owner's targets. */
  datatype Source = Source(raw: Option<bytes>, atoms: seq<nat>)

  function ClientFormats(cfg: Config, source: Source): seq<Format>
  {
    var raw := if source.raw.None? || Parse(source.raw.value).None? then [] else Parse(source.raw.value).value;
    if raw == [] then FromTargets(cfg.clients, source.atoms) else raw
  }

  function ClearCache(s: State): State { s.(cached := map[], cachedRaw := map[]) }

  /** `notifyOk`: the file context took notice of the new list. */
  function SendFormatList(s: State, formats: seq<Format>, force: bool, notifyOk: bool): Result
  {
    if !force && Same(s.lastSent, formats) then Result(s, [])
    else
      var r := SendDataResponse(s.(lastSent := formats), None);
      Result(ClearCache(r.state), r.out + if notifyOk then [FormatListSent(formats)] else [])
  }

  /** The targets offered for a server list; `files`: file transfer is available. */
  function Offer(cfg: Config, formats: seq<Format>, files: bool): seq<nat>
  {
    if |formats| == 0 then [cfg.timestamp, cfg.targets]
    else OfferFor(cfg.clients, Offer(cfg, formats[..|formats| - 1], files), formats[|formats| - 1], files)
  }

  function OfferFor(clients: seq<ClientFormat>, offered: seq<nat>, f: Format, files: bool): seq<nat>
  {
    if |clients| == 0 then offered
    else
      var c, before := clients[|clients| - 1], OfferFor(clients[..|clients| - 1], offered, f, files);
      if FormatsEqual(f, c) && (c.name == Some(FILE_GROUP_DESCRIPTOR) ==> files) then
        AppendTarget(before, c.atom) else before
  }

  function AppendTarget(offered: seq<nat>, atom: nat): seq<nat>
  {
    if |offered| >= 20 || atom in offered then offered else offered + [atom]
  }

  function ServerFormatList(cfg: Config, s: State, formats: seq<Format>, files: bool, notifyOk: bool): Result
  {
    var s' := ClearCache(s).(respond := None, lastSent := [], requestedFormat := None,
                             serverFormats := formats + [Format(CF_RAW, None)]);
    if !notifyOk then Result(s', [])
    else Result(s'.(offered := Offer(cfg, formats, files)), [FormatListResponse])
  }

  // --- Events ---

  datatype Event =
    | OnSelectionRequest(req: XRequest, rawProperty: Option<nat>)
    | OnSelectionNotify(target: nat, property: Property, source: Source, notifyOk: bool)
    | OnPropertyChunk(property: Property)                    // new value of our property on our window
    | OnAnnounce(source: Source, notifyOk: bool)             // new owner, or a change on the root window
    | OnMonitorReady(source: Source, notifyOk: bool)
    | OnServerFormatList(formats: seq<Format>, files: bool, notifyOk: bool)
    | OnServerDataRequest(id: u32, rawAvailable: bool)
    | OnServerDataResponse(failed: bool, data: bytes)

  function Step(cfg: Config, s: State, e: Event): Result
  {
    match e
    case OnSelectionRequest(req, rawProperty) => SelectionRequest(cfg, s, req, rawProperty)
    case OnSelectionNotify(target, p, source, notifyOk) =>
      if target == cfg.targets then SendFormatList(s, ClientFormats(cfg, source), false, notifyOk)
      else GetRequestedData(cfg, s, target, p)
    case OnPropertyChunk(p) =>
      var c := RequestedClient(cfg, s);
      if !s.incrStarts || c.None? then Result(s, []) else GetRequestedData(cfg, s, c.value.atom, p)
    case OnAnnounce(source, notifyOk) => SendFormatList(s, ClientFormats(cfg, source), false, notifyOk)
    case OnMonitorReady(source, notifyOk) =>
      SendFormatList(s.(lastSent := []), ClientFormats(cfg, source), true, notifyOk)
    case OnServerFormatList(formats, files, notifyOk) => ServerFormatList(cfg, s, formats, files, notifyOk)
    case OnServerDataRequest(id, rawAvailable) => ServerDataRequest(cfg, s, id, rawAvailable)
    case OnServerDataResponse(failed, data) => ServerDataResponse(cfg, s, failed, data)
  }

  /** The state after a run from the start. */
  function After(cfg: Config, es: seq<Event>): State
  {
    if |es| == 0 then Init(cfg) else Step(cfg, After(cfg, es[..|es| - 1]), es[|es| - 1]).state
  }

  /** Everything sent during a run. */
  function Sent(cfg: Config, es: seq<Event>): seq<Output>
  {
    if |es| == 0 then []
    else Sent(cfg, es[..|es| - 1]) + Step(cfg, After(cfg, es[..|es| - 1]), es[|es| - 1]).out
  }
}
