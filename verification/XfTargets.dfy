/** The targets that the X11 clipboard engine offers for a list of the server. */
module XfTargets {
  import opened Common
  import opened XfFormats
  import opened XfAnnounce
  import opened XfClipboard

  /** Whether a client format makes its atom a target for a format of the server. */
  predicate Offers(c: ClientFormat, f: Format, files: bool)
  {
    FormatsEqual(f, c) && (c.name == Some(FILE_GROUP_DESCRIPTOR) ==> files)
  }

  ghost predicate OfferedFor(clients: seq<ClientFormat>, f: Format, files: bool, atom: nat)
  {
    exists c :: c in clients && c.atom == atom && Offers(c, f, files)
  }

  ghost predicate OfferedForSome(clients: seq<ClientFormat>, formats: seq<Format>, files: bool, atom: nat)
  {
    exists f :: f in formats && OfferedFor(clients, f, files, atom)
  }

  /** What holds of the targets while they are put together. */
  predicate WellFormed(offered: seq<nat>) { |offered| <= 20 && Distinct(offered) }

  lemma {:induction false} OfferForWellFormed(clients: seq<ClientFormat>, offered: seq<nat>, f: Format, files: bool)
    requires WellFormed(offered)
    ensures WellFormed(OfferFor(clients, offered, f, files)) && offered <= OfferFor(clients, offered, f, files)
    decreases |clients|
  {
    if |clients| > 0 { OfferForWellFormed(clients[..|clients| - 1], offered, f, files); }
  }

  /** The targets never exceed the array that holds them, none is there twice, and the first two stay. */
  lemma {:induction false} OfferWellFormed(cfg: Config, formats: seq<Format>, files: bool)
    requires cfg.timestamp != cfg.targets
    ensures WellFormed(Offer(cfg, formats, files)) && [cfg.timestamp, cfg.targets] <= Offer(cfg, formats, files)
    decreases |formats|
  {
    if |formats| > 0 {
      var before := formats[..|formats| - 1];
      OfferWellFormed(cfg, before, files);
      OfferForWellFormed(cfg.clients, Offer(cfg, before, files), formats[|formats| - 1], files);
    }
  }

  /** One format of the server adds atoms of client formats that offer it, and all of them while there is room. */
  lemma {:induction false} OfferForExact(clients: seq<ClientFormat>, offered: seq<nat>, f: Format,
                                         files: bool, atom: nat)
    ensures var now := OfferFor(clients, offered, f, files);
            && (atom in now ==> atom in offered || OfferedFor(clients, f, files, atom))
            && (atom in offered ==> atom in now) && |offered| <= |now|
            && (|now| < 20 && OfferedFor(clients, f, files, atom) ==> atom in now)
    decreases |clients|
  {
    if |clients| > 0 {
      var before, c := clients[..|clients| - 1], clients[|clients| - 1];
      OfferForExact(before, offered, f, files, atom);
      OfferedForStep(clients, f, files, atom);
    }
  }

  lemma OfferedForStep(clients: seq<ClientFormat>, f: Format, files: bool, atom: nat)
    requires |clients| > 0
    ensures OfferedFor(clients, f, files, atom) <==>
            OfferedFor(clients[..|clients| - 1], f, files, atom)
            || (clients[|clients| - 1].atom == atom && Offers(clients[|clients| - 1], f, files))
  {
    var before, last := clients[..|clients| - 1], clients[|clients| - 1];
    assert clients == before + [last];
    if OfferedFor(before, f, files, atom) {
      var c :| c in before && c.atom == atom && Offers(c, f, files);
      assert c in clients;
    }
    if last.atom == atom && Offers(last, f, files) { assert last in clients; }
  }

  lemma OfferedForSomeStep(clients: seq<ClientFormat>, formats: seq<Format>, files: bool, atom: nat)
    requires |formats| > 0
    ensures OfferedForSome(clients, formats, files, atom) <==>
            OfferedForSome(clients, formats[..|formats| - 1], files, atom)
            || OfferedFor(clients, formats[|formats| - 1], files, atom)
  {
    var before, last := formats[..|formats| - 1], formats[|formats| - 1];
    assert formats == before + [last];
    if OfferedForSome(clients, before, files, atom) {
      var f :| f in before && OfferedFor(clients, f, files, atom);
      assert f in formats;
    }
    if OfferedFor(clients, last, files, atom) { assert last in formats; }
  }

  /** A target beyond the first two is offered only for a format of the server that its client format stands for,
      and every such target is offered while the array has room. */
  lemma {:induction false} OfferExact(cfg: Config, formats: seq<Format>, files: bool, atom: nat)
    requires atom != cfg.timestamp && atom != cfg.targets
    ensures var offered := Offer(cfg, formats, files);
            && (atom in offered ==> OfferedForSome(cfg.clients, formats, files, atom))
            && (|offered| < 20 && OfferedForSome(cfg.clients, formats, files, atom) ==> atom in offered)
    decreases |formats|
  {
    if |formats| > 0 {
      var before, f := formats[..|formats| - 1], formats[|formats| - 1];
      OfferExact(cfg, before, files, atom);
      OfferForExact(cfg.clients, Offer(cfg, before, files), f, files, atom);
      OfferedForSomeStep(cfg.clients, formats, files, atom);
    }
  }

  lemma {:induction false} FirstEqualFinds(server: seq<Format>, c: ClientFormat, f: Format)
    requires f in server && FormatsEqual(f, c)
    ensures FirstEqual(server, c).Some?
  {
    if !FormatsEqual(server[0], c) { FirstEqualFinds(server[1..], c, f); }
  }

  lemma {:induction false} ServerByAtomFinds(clients: seq<ClientFormat>, server: seq<Format>, c: ClientFormat)
    requires c in clients && FirstEqual(server, c).Some?
    ensures ServerByAtom(clients, server, c.atom).Some?
  {
    if !(clients[0].atom == c.atom && FirstEqual(server, clients[0]).Some?) {
      ServerByAtomFinds(clients[1..], server, c);
    }
  }

  /** Every target offered for a list of the server stands for one of its formats. */
  lemma OfferStandsForFormat(cfg: Config, formats: seq<Format>, files: bool, atom: nat)
    requires atom in Offer(cfg, formats, files) && atom != cfg.timestamp && atom != cfg.targets
    ensures ServerByAtom(cfg.clients, formats + [Format(CF_RAW, None)], atom).Some?
  {
    OfferExact(cfg, formats, files, atom);
    var f :| f in formats && OfferedFor(cfg.clients, f, files, atom);
    var c :| c in cfg.clients && c.atom == atom && Offers(c, f, files);
    var server := formats + [Format(CF_RAW, None)];
    assert f in server;
    FirstEqualFinds(server, c, f);
    ServerByAtomFinds(cfg.clients, server, c);
  }

  // --- Over runs ---

  /** The server's last list, and its last list of which the desktop was notified, with whether files were available. */
  datatype Lists = Lists(last: Option<seq<Format>>, notified: Option<(seq<Format>, bool)>)

  function ListsOf(es: seq<Event>): Lists
  {
    if |es| == 0 then Lists(None, None)
    else
      var before, e := ListsOf(es[..|es| - 1]), es[|es| - 1];
      if !e.OnServerFormatList? then before
      else Lists(Some(e.formats), if e.notifyOk then Some((e.formats, e.files)) else before.notified)
  }

  /** The desktop was notified of the server's last list. */
  predicate Notified(es: seq<Event>)
  {
    var lists := ListsOf(es);
    lists.last.Some? ==> lists.notified.Some? && lists.notified.value.0 == lists.last.value
  }

  predicate SameOffer(s: State, s': State) { s'.offered == s.offered && s'.serverFormats == s.serverFormats }

  lemma ResponseKeepsOffer(cfg: Config, s: State, failed: bool, data: bytes)
    ensures SameOffer(s, ServerDataResponse(cfg, s, failed, data).state)
  {
  }

  lemma SelectionKeepsOffer(cfg: Config, s: State, req: XRequest, rawProperty: Option<nat>)
    ensures SameOffer(s, SelectionRequest(cfg, s, req, rawProperty).state)
  {
  }

  lemma RequestedDataKeepsOffer(cfg: Config, s: State, target: nat, p: Property)
    ensures SameOffer(s, GetRequestedData(cfg, s, target, p).state)
  {
  }

  lemma DataRequestKeepsOffer(cfg: Config, s: State, id: u32, rawAvailable: bool)
    ensures SameOffer(s, ServerDataRequest(cfg, s, id, rawAvailable).state)
  {
  }

  lemma AnnounceKeepsOffer(cfg: Config, s: State, source: Source, force: bool, notifyOk: bool)
    ensures SameOffer(s, SendFormatList(s, ClientFormats(cfg, source), force, notifyOk).state)
  {
  }

  lemma StepOffered(cfg: Config, s: State, e: Event)
    requires !e.OnServerFormatList?
    ensures SameOffer(s, Step(cfg, s, e).state)
  {
    match e
    case OnSelectionRequest(req, rawProperty) => SelectionKeepsOffer(cfg, s, req, rawProperty);
    case OnSelectionNotify(target, p, source, notifyOk) =>
      if target == cfg.targets { AnnounceKeepsOffer(cfg, s, source, false, notifyOk); }
      else { RequestedDataKeepsOffer(cfg, s, target, p); }
    case OnPropertyChunk(p) =>
      if RequestedClient(cfg, s).Some? { RequestedDataKeepsOffer(cfg, s, RequestedClient(cfg, s).value.atom, p); }
    case OnAnnounce(source, notifyOk) => AnnounceKeepsOffer(cfg, s, source, false, notifyOk);
    case OnMonitorReady(source, notifyOk) => AnnounceKeepsOffer(cfg, s.(lastSent := []), source, true, notifyOk);
    case OnServerDataRequest(id, rawAvailable) => DataRequestKeepsOffer(cfg, s, id, rawAvailable);
    case OnServerDataResponse(failed, data) => ResponseKeepsOffer(cfg, s, failed, data);
  }

  /** In every run the targets offered are those for the last list notified, and a target is looked up in the last
      list. */
  lemma {:induction false} OfferedInRuns(cfg: Config, es: seq<Event>)
    ensures var s, lists := After(cfg, es), ListsOf(es);
            && s.serverFormats == (if lists.last.None? then [] else lists.last.value + [Format(CF_RAW, None)])
            && s.offered == (if lists.notified.None? then Offer(cfg, [], false)
                             else Offer(cfg, lists.notified.value.0, lists.notified.value.1))
            && (lists.notified.Some? ==> lists.last.Some?)
  {
    if |es| > 0 {
      OfferedInRuns(cfg, es[..|es| - 1]);
      if !es[|es| - 1].OnServerFormatList? { StepOffered(cfg, After(cfg, es[..|es| - 1]), es[|es| - 1]); }
    }
  }

  /** In every run in which the desktop was notified of the server's last list, each target offered stands for a
      format of the server. */
  lemma OfferedIsServed(cfg: Config, es: seq<Event>, atom: nat)
    requires Notified(es)
    requires atom in After(cfg, es).offered && atom != cfg.timestamp && atom != cfg.targets
    ensures ServerByAtom(cfg.clients, After(cfg, es).serverFormats, atom).Some?
  {
    OfferedInRuns(cfg, es);
    var lists := ListsOf(es);
    if lists.last.Some? {
      OfferStandsForFormat(cfg, lists.last.value, lists.notified.value.1, atom);
    }
  }

  lemma {:induction false} NothingByAtom(clients: seq<ClientFormat>, f: Format, atom: nat)
    requires forall c :: c in clients && c.atom == atom ==> !FormatsEqual(f, c)
    ensures ServerByAtom(clients, [f], atom).None?
  {
    if |clients| > 0 {
      assert clients[0] in clients && FirstEqual([f][1..], clients[0]).None?;
      NothingByAtom(clients[1..], f, atom);
    }
  }

  /** A list of the server that empties the clipboard, and of which the desktop could not be notified: every target
      offered before stays offered, and those that do not stand for the raw format stand for nothing. */
  lemma OfferOutlivesList(cfg: Config, formats: seq<Format>, files: bool, atom: nat)
    requires atom in Offer(cfg, formats, files)
    requires forall c :: c in cfg.clients && c.atom == atom ==> !FormatsEqual(Format(CF_RAW, None), c)
    ensures var es := [OnServerFormatList(formats, files, true), OnServerFormatList([], files, false)];
            atom in After(cfg, es).offered && ServerByAtom(cfg.clients, After(cfg, es).serverFormats, atom).None?
  {
    var es := [OnServerFormatList(formats, files, true), OnServerFormatList([], files, false)];
    OfferedInRuns(cfg, es);
    assert ListsOf(es[..1]) == Lists(Some(formats), Some((formats, files)));
    assert After(cfg, es).serverFormats == [Format(CF_RAW, None)];
    NothingByAtom(cfg.clients, Format(CF_RAW, None), atom);
  }
}
