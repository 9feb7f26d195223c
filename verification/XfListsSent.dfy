/** The format lists that the X11 clipboard engine sends to the server, over every run. */
module XfListsSent {
  import opened Common
  import opened XfFormats
  import opened XfAnnounce
  import opened XfClipboard
  import opened XfClipboardRuns

  /** The format lists in an output, in order. */
  function Lists(out: seq<Output>): seq<seq<Format>>
  {
    if |out| == 0 then []
    else Lists(out[..|out| - 1]) + if out[|out| - 1].FormatListSent? then [out[|out| - 1].formats] else []
  }

  lemma {:induction false} ListsConcat(a: seq<Output>, b: seq<Output>)
    ensures Lists(a + b) == Lists(a) + Lists(b)
  {
    if |b| == 0 {
      assert a + b == a;
    } else {
      assert (a + b)[..|a + b| - 1] == a + b[..|b| - 1];
      ListsConcat(a, b[..|b| - 1]);
    }
  }

  lemma OneList(o: Output)
    ensures Lists([o]) == if o.FormatListSent? then [o.formats] else []
  {
    assert [o][..0] == [];
  }

  lemma ShortLists(out: seq<Output>)
    requires |out| <= 2
    ensures Lists(out) == (if |out| > 0 && out[0].FormatListSent? then [out[0].formats] else []) +
                          if |out| > 1 && out[1].FormatListSent? then [out[1].formats] else []
  {
    if |out| == 1 {
      assert out == [out[0]];
      OneList(out[0]);
    } else if |out| == 2 {
      assert out == [out[0]] + [out[1]];
      ListsConcat([out[0]], [out[1]]);
      OneList(out[0]);
      OneList(out[1]);
    }
  }

  /** The event announces its list: it has one, and it is forced or the list is new. */
  predicate Announces(cfg: Config, s: State, e: Event)
  {
    Announced(cfg, e).Some? && (e.OnMonitorReady? || !Same(s.lastSent, Announced(cfg, e).value))
  }

  lemma ListSent(s: State, formats: seq<Format>, force: bool, notifyOk: bool)
    ensures var r := SendFormatList(s, formats, force, notifyOk);
            && |r.out| <= 2
            && Lists(r.out) == (if (force || !Same(s.lastSent, formats)) && notifyOk then [formats] else [])
            && r.state.lastSent == if force || !Same(s.lastSent, formats) then formats else s.lastSent
  {
    ShortLists(SendFormatList(s, formats, force, notifyOk).out);
  }

  predicate NoList(out: seq<Output>)
  {
    |out| <= 2 && forall o :: o in out ==> !o.FormatListSent?
  }

  lemma NoLists(out: seq<Output>)
    requires NoList(out)
    ensures Lists(out) == []
  {
    ShortLists(out);
  }

  lemma GetSendsNoList(cfg: Config, s: State, target: nat, p: Property)
    ensures NoList(GetRequestedData(cfg, s, target, p).out)
    ensures GetRequestedData(cfg, s, target, p).state.lastSent == s.lastSent
  {
  }

  lemma OthersSendNoList(cfg: Config, s: State, e: Event)
    requires HeldWithFormat(cfg, s) && Announced(cfg, e).None?
    ensures NoList(Step(cfg, s, e).out)
    ensures Step(cfg, s, e).state.lastSent == if e.OnServerFormatList? then [] else s.lastSent
  {
    match e
    case OnSelectionRequest(req, rawProperty) => RequestEffect(cfg, s, req, rawProperty);
    case OnServerDataResponse(failed, data) => ResponseEffect(cfg, s, failed, data);
    case OnSelectionNotify(target, p, source, notifyOk) => GetSendsNoList(cfg, s, target, p);
    case OnPropertyChunk(p) =>
      if RequestedClient(cfg, s).Some? { GetSendsNoList(cfg, s, RequestedClient(cfg, s).value.atom, p); }
    case _ =>
  }

  /** In every run an event sends at most one list, the one it announces, exactly where it announces it and the file
      context was notified; and that list is then the one sent last. */
  lemma StepSends(cfg: Config, es: seq<Event>, e: Event)
    ensures var s := After(cfg, es);
            var r := Step(cfg, s, e);
            && Lists(r.out) == (if Announces(cfg, s, e) && e.notifyOk then [Announced(cfg, e).value] else [])
            && r.state.lastSent == if Announces(cfg, s, e) then Announced(cfg, e).value
                                   else if e.OnServerFormatList? then [] else s.lastSent
  {
    var s := After(cfg, es);
    if Announced(cfg, e).None? {
      PendingHasFormat(cfg, es);
      OthersSendNoList(cfg, s, e);
      NoLists(Step(cfg, s, e).out);
    } else if e.OnMonitorReady? {
      ListSent(s.(lastSent := []), ClientFormats(cfg, e.source), true, e.notifyOk);
    } else {
      ListSent(s, ClientFormats(cfg, e.source), false, e.notifyOk);
    }
  }

  lemma RunSends(cfg: Config, es: seq<Event>, e: Event)
    ensures var s, sends := After(cfg, es), Announces(cfg, After(cfg, es), e);
            && Lists(Sent(cfg, es + [e])) ==
               Lists(Sent(cfg, es)) + (if sends && e.notifyOk then [Announced(cfg, e).value] else [])
            && After(cfg, es + [e]).lastSent == if sends then Announced(cfg, e).value
                                                else if e.OnServerFormatList? then [] else s.lastSent
  {
    assert (es + [e])[..|es|] == es;
    StepSends(cfg, es, e);
    ListsConcat(Sent(cfg, es), Step(cfg, After(cfg, es), e).out);
  }

  /** In every run whose lists come from targets, or hold no format twice, an event sends its list exactly when it is
      forced or the list is no permutation of the one sent last. */
  lemma SendsChanges(cfg: Config, es: seq<Event>, e: Event)
    requires forall x :: x in es ==> AnnouncesDistinct(cfg, x)
    requires Announced(cfg, e).Some? && e.notifyOk
    ensures var last, formats := After(cfg, es).lastSent, Announced(cfg, e).value;
            Lists(Step(cfg, After(cfg, es), e).out) ==
            if e.OnMonitorReady? || multiset(formats) != multiset(last) then [formats] else []
  {
    LastSentDistinct(cfg, es);
    StepSends(cfg, es, e);
    SameIsPermutation(After(cfg, es).lastSent, Announced(cfg, e).value);
  }

  /** The server has the list that is recorded as sent last: since a list was sent, the server sent none itself and no
      notification failed. */
  predicate UpToDate(cfg: Config, es: seq<Event>)
  {
    && |es| > 0
    && var before, e := es[..|es| - 1], es[|es| - 1];
       if Announces(cfg, After(cfg, before), e) then e.notifyOk
       else !e.OnServerFormatList? && UpToDate(cfg, before)
  }

  /** In every run in which that is so, the last list that the server was sent is the one the next is compared with. */
  lemma {:induction false} LastListSent(cfg: Config, es: seq<Event>)
    requires UpToDate(cfg, es)
    ensures var lists := Lists(Sent(cfg, es)); |lists| > 0 && lists[|lists| - 1] == After(cfg, es).lastSent
    decreases |es|
  {
    var before, e := es[..|es| - 1], es[|es| - 1];
    assert es == before + [e];
    RunSends(cfg, before, e);
    if !Announces(cfg, After(cfg, before), e) { LastListSent(cfg, before); }
  }

  lemma AnnouncedOnce(cfg: Config, es: seq<Event>, source: Source, notifyOk: bool)
    ensures var more := es + [OnAnnounce(source, notifyOk)];
            var fs, last := ClientFormats(cfg, source), After(cfg, es).lastSent;
            && Lists(Sent(cfg, more)) == Lists(Sent(cfg, es)) + (if !Same(last, fs) && notifyOk then [fs] else [])
            && After(cfg, more).lastSent == if Same(last, fs) then last else fs
  {
    RunSends(cfg, es, OnAnnounce(source, notifyOk));
  }

  /** A failed notification, after any run: the list counts as sent, was not, and the same list is not sent again. */
  lemma FailedNotification(cfg: Config, es: seq<Event>, source: Source)
    requires !Same(After(cfg, es).lastSent, ClientFormats(cfg, source))
    ensures var more := es + [OnAnnounce(source, false)] + [OnAnnounce(source, true)];
            Lists(Sent(cfg, more)) == Lists(Sent(cfg, es)) && After(cfg, more).lastSent == ClientFormats(cfg, source)
  {
    AnnouncedOnce(cfg, es, source, false);
    AnnouncedOnce(cfg, es + [OnAnnounce(source, false)], source, true);
    PermutationIsSame(ClientFormats(cfg, source), ClientFormats(cfg, source));
  }

  // --- Lists of the server ---

  /** How many lists of the server were acknowledged. */
  function Acknowledged(out: seq<Output>): nat
  {
    if |out| == 0 then 0
    else Acknowledged(out[..|out| - 1]) + if out[|out| - 1].FormatListResponse? then 1 else 0
  }

  function Notifications(es: seq<Event>): nat
  {
    if |es| == 0 then 0
    else
      var e := es[|es| - 1];
      Notifications(es[..|es| - 1]) + if e.OnServerFormatList? && e.notifyOk then 1 else 0
  }

  lemma {:induction false} AcknowledgedConcat(a: seq<Output>, b: seq<Output>)
    ensures Acknowledged(a + b) == Acknowledged(a) + Acknowledged(b)
  {
    if |b| == 0 {
      assert a + b == a;
    } else {
      assert (a + b)[..|a + b| - 1] == a + b[..|b| - 1];
      AcknowledgedConcat(a, b[..|b| - 1]);
    }
  }

  lemma {:induction false} NoneAcknowledged(out: seq<Output>)
    requires forall o :: o in out ==> !o.FormatListResponse?
    ensures Acknowledged(out) == 0
  {
    if |out| > 0 {
      assert out[|out| - 1] in out;
      NoneAcknowledged(out[..|out| - 1]);
    }
  }

  ghost predicate Silent(out: seq<Output>) { forall o :: o in out ==> !o.FormatListResponse? }

  lemma GetIsSilent(cfg: Config, s: State, target: nat, p: Property)
    ensures Silent(GetRequestedData(cfg, s, target, p).out)
  {
  }

  lemma OthersAreSilent(cfg: Config, s: State, e: Event)
    requires HeldWithFormat(cfg, s) && !e.OnServerFormatList?
    ensures Silent(Step(cfg, s, e).out)
  {
    match e
    case OnSelectionRequest(req, rawProperty) => RequestEffect(cfg, s, req, rawProperty);
    case OnServerDataResponse(failed, data) => ResponseEffect(cfg, s, failed, data);
    case OnSelectionNotify(target, p, source, notifyOk) =>
      if target != cfg.targets { GetIsSilent(cfg, s, target, p); }
    case OnPropertyChunk(p) =>
      if RequestedClient(cfg, s).Some? { GetIsSilent(cfg, s, RequestedClient(cfg, s).value.atom, p); }
    case _ =>
  }

  lemma StepAcknowledges(cfg: Config, s: State, e: Event)
    requires HeldWithFormat(cfg, s)
    ensures Acknowledged(Step(cfg, s, e).out) == if e.OnServerFormatList? && e.notifyOk then 1 else 0
  {
    if e.OnServerFormatList? {
      if e.notifyOk { assert [FormatListResponse][..0] == []; }
    } else {
      OthersAreSilent(cfg, s, e);
      NoneAcknowledged(Step(cfg, s, e).out);
    }
  }

  /** In every run the server gets one acknowledgement for each of its lists of which the file context was notified. */
  lemma {:induction false} ListsAcknowledged(cfg: Config, es: seq<Event>)
    ensures Acknowledged(Sent(cfg, es)) == Notifications(es)
  {
    if |es| > 0 {
      var before, e := es[..|es| - 1], es[|es| - 1];
      ListsAcknowledged(cfg, before);
      PendingHasFormat(cfg, before);
      StepAcknowledges(cfg, After(cfg, before), e);
      AcknowledgedConcat(Sent(cfg, before), Step(cfg, After(cfg, before), e).out);
    }
  }
}
