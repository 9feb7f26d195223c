/**
 Throttled resizing in the X11 and Wayland clients (client/X11/xf_disp.c, client/Wayland/wlf_disp.c): monitor
 layouts are announced at most every 200 ms, and the last size asked for is announced in the end.
 The two clients differ in when they stamp the date, and in what a new window size does.
 */
module DisplayResize {
  import opened Common

  const RESIZE_MIN_DELAY: nat := 200

  datatype Backend = X11 | Wayland

  /** What an announcement depends on. */
  datatype Layout = Layout(width: int, height: int, orientation: nat, desktopScale: nat,
                           deviceScale: nat, fullscreen: bool)

  /** Layouts handed to the channel and new sizes queued, with the date stamped on each. */
  datatype Entry =
    | Sent(at: nat, layout: Layout, monitors: nat)
    | Resized(at: nat)

  /** `want` joins the target size with the current settings, `last` is what was last announced successfully. */
  datatype State = State(
    backend: Backend, connected: bool, activated: bool, lastDate: nat, last: Layout, want: Layout,
    settingFullscreen: bool, monitorCount: nat, log: seq<Entry>)

  /** Unsigned difference of two 64-bit tick counts. */
  function Elapsed(now: nat, since: nat): nat
    requires now < U64 && since < U64
  {
    if now >= since then now - since else now + U64 - since
  }

  lemma ElapsedIs(now: nat, since: nat)
    requires now < U64 && since < U64
    ensures Elapsed(now, since) < U64 && (since + Elapsed(now, since)) % U64 == now
  {
  }

  // --- The handlers; t1 and t2 are the two readings of the clock, ok the outcome of the send ---

  function Announce(s: State, t2: nat, ok: bool): State
  {
    var monitors := if s.backend.X11? && s.want.fullscreen && s.monitorCount > 0 then s.monitorCount else 1;
    var s := s.(log := s.log + [Sent(t2, s.want, monitors)]);
    if ok then s.(last := s.want) else s
  }

  function Throttle(s: State, t1: nat, t2: nat, ok: bool): State
    requires t1 < U64 && s.lastDate < U64
  {
    if !s.activated || !s.connected then s
    else if Elapsed(t1, s.lastDate) < RESIZE_MIN_DELAY then s
    else
      match s.backend
      case X11 => if s.last == s.want then s else Announce(s.(lastDate := t2), t2, ok)
      case Wayland => if s.last == s.want then s.(lastDate := t2) else Announce(s.(lastDate := t2), t2, ok)
  }

  /** A new window size; t0 is the reading that X11 stamps. */
  function Configure(s: State, width: int, height: int, t0: nat, t1: nat, t2: nat, ok: bool): State
    requires t0 < U64 && t1 < U64 && s.lastDate < U64
  {
    var s' := s.(want := s.want.(width := width, height := height));
    match s.backend
    case Wayland => Throttle(s', t1, t2, ok)
    case X11 =>
      if s'.want == s.want then s
      else Throttle(s'.(lastDate := t0, log := s.log + [Resized(t0)]), t1, t2, ok)
  }

  datatype Event =
    | Timer(t1: nat, t2: nat, ok: bool)
    | Activated(first: bool, t1: nat, t2: nat, ok: bool)
    | GraphicsReset(t1: nat, t2: nat, ok: bool)
    | WindowStateChange(t1: nat, t2: nat, ok: bool)
    | NewSize(width: int, height: int, t0: nat, t1: nat, t2: nat, ok: bool)
    | Settings(orientation: nat, desktopScale: nat, deviceScale: nat, fullscreen: bool,
               settingFullscreen: bool, monitorCount: nat)
    | Capabilities
    | Connected(connected: bool)
  {
    predicate ReadsClock() { Timer? || Activated? || GraphicsReset? || WindowStateChange? || NewSize? }

    /** The clock is monotone: the event's readings follow t in order and fit 64 bits. */
    predicate OnTime(t: nat)
    {
      ReadsClock() ==> t <= t1 <= t2 < U64 && (NewSize? ==> t <= t0 <= t1)
    }

    function Until(t: nat): nat { if ReadsClock() then t2 else t }
  }

  /** Whether the handler of a periodic or server event goes on to the throttled send. */
  predicate Forwards(s: State, e: Event)
  {
    match e
    case Timer(_, _, _) => s.activated && !(if s.backend.X11? then s.want.fullscreen else s.settingFullscreen)
    case Activated(first, _, _, _) =>
      s.activated && !first && !(if s.backend.X11? then s.want.fullscreen else s.settingFullscreen)
    case GraphicsReset(_, _, _) => s.activated && !s.settingFullscreen
    case WindowStateChange(_, _, _) => s.backend.X11? && s.activated && s.want.fullscreen
    case _ => false
  }

  function Step(s: State, e: Event, t: nat): (s': State)
    requires s.lastDate <= t < U64 && e.OnTime(t)
    ensures s'.backend == s.backend && s'.lastDate <= e.Until(t) < U64
  {
    match e
    case NewSize(w, h, t0, t1, t2, ok) => Configure(s, w, h, t0, t1, t2, ok)
    case Settings(o, ds, vs, f, sf, n) =>
      s.(want := s.want.(orientation := o, desktopScale := ds, deviceScale := vs, fullscreen := f),
         settingFullscreen := sf, monitorCount := n)
    case Capabilities => s.(activated := true)
    case Connected(c) => s.(connected := c)
    case _ => if Forwards(s, e) then Throttle(s, e.t1, e.t2, e.ok) else s
  }

  /** A run whose readings of the clock never decrease, starting at t. */
  predicate Timed(t: nat, es: seq<Event>)
    decreases |es|
  {
    |es| == 0 || (es[0].OnTime(t) && Timed(es[0].Until(t), es[1..]))
  }

  function Run(s: State, es: seq<Event>, t: nat): State
    requires s.lastDate <= t < U64 && Timed(t, es)
    decreases |es|
  {
    if |es| == 0 then s else Run(Step(s, es[0], t), es[1..], es[0].Until(t))
  }

  // --- Safety: announcements keep their distance ---

  /** Entries that the next announcement must keep away from: announcements, and on X11 new sizes too. */
  predicate Throttles(b: Backend, x: Entry) { x.Sent? || b.X11? }

  ghost predicate Spaced(b: Backend, log: seq<Entry>)
  {
    forall i, j :: 0 <= i < j < |log| && log[j].Sent? && Throttles(b, log[i]) ==>
      log[i].at + RESIZE_MIN_DELAY <= log[j].at
  }

  ghost predicate Safe(s: State)
  {
    && Spaced(s.backend, s.log)
    && forall x :: x in s.log && Throttles(s.backend, x) ==> x.at <= s.lastDate
  }

  lemma AppendKeepsSpaced(b: Backend, log: seq<Entry>, x: Entry)
    requires Spaced(b, log)
    requires x.Sent? ==> forall y :: y in log && Throttles(b, y) ==> y.at + RESIZE_MIN_DELAY <= x.at
    ensures Spaced(b, log + [x])
  {
    forall i, j | 0 <= i < j < |log| + 1 && (log + [x])[j].Sent? && Throttles(b, (log + [x])[i])
      ensures (log + [x])[i].at + RESIZE_MIN_DELAY <= (log + [x])[j].at
    {
      if j == |log| { assert log[i] in log; }
    }
  }

  lemma SendKeepsSafe(s: State, t1: nat, t2: nat, ok: bool)
    requires Safe(s) && s.lastDate <= t1 <= t2 < U64
    ensures Safe(Throttle(s, t1, t2, ok))
  {
    var s' := Throttle(s, t1, t2, ok);
    if s'.log != s.log {
      AppendKeepsSpaced(s.backend, s.log, s'.log[|s.log|]);
    }
  }

  lemma StepKeepsSafe(s: State, e: Event, t: nat)
    requires Safe(s) && s.lastDate <= t < U64 && e.OnTime(t)
    ensures Safe(Step(s, e, t))
  {
    if e.NewSize? {
      var s' := s.(want := s.want.(width := e.width, height := e.height));
      if s.backend.X11? {
        var s'' := s'.(lastDate := e.t0, log := s.log + [Resized(e.t0)]);
        AppendKeepsSpaced(s.backend, s.log, Resized(e.t0));
        SendKeepsSafe(s'', e.t1, e.t2, e.ok);
      } else {
        SendKeepsSafe(s', e.t1, e.t2, e.ok);
      }
    } else if Forwards(s, e) {
      SendKeepsSafe(s, e.t1, e.t2, e.ok);
    }
  }

  /** In every run, any two announcements are at least 200 ms apart, and on X11 each also comes at least 200 ms
      after every size change queued before it. */
  lemma {:induction false} AnnouncementsSpaced(s: State, es: seq<Event>, t: nat)
    requires Safe(s) && s.lastDate <= t < U64 && Timed(t, es)
    ensures Spaced(s.backend, Run(s, es, t).log)
    decreases |es|
  {
    if |es| > 0 {
      StepKeepsSafe(s, es[0], t);
      AnnouncementsSpaced(Step(s, es[0], t), es[1..], es[0].Until(t));
    }
  }

  // --- What announcements hold ---

  /** An announcement of the layout wanted in state `s`: one monitor, or all of them in fullscreen on X11. */
  predicate TellsWanted(s: State, x: Entry)
  {
    && x.Sent? && x.layout == s.want
    && (s.backend.X11? && s.want.fullscreen && s.monitorCount > 0 ==> x.monitors == s.monitorCount)
    && (s.backend.Wayland? || !s.want.fullscreen || s.monitorCount == 0 ==> x.monitors == 1)
  }

  /** The log grows at its end, by announcements of what is wanted after the event, dated with its last reading. */
  lemma StepLogs(s: State, e: Event, t: nat, i: nat)
    requires s.lastDate <= t < U64 && e.OnTime(t)
    ensures var s' := Step(s, e, t);
            && s.log <= s'.log
            && (|s.log| <= i < |s'.log| && s'.log[i].Sent? ==>
                  e.ReadsClock() && s'.log[i].at == e.t2 && TellsWanted(s', s'.log[i]))
  {
  }

  lemma {:induction false} LogGrows(s: State, es: seq<Event>, t: nat)
    requires s.lastDate <= t < U64 && Timed(t, es)
    ensures s.log <= Run(s, es, t).log
    decreases |es|
  {
    if |es| > 0 {
      StepLogs(s, es[0], t, 0);
      LogGrows(Step(s, es[0], t), es[1..], es[0].Until(t));
    }
  }

  /** In every run each announcement holds the layout that was wanted when it was sent. */
  lemma {:induction false} AnnouncedIsWanted(s: State, es: seq<Event>, t: nat, i: nat) returns (k: nat)
    requires s.lastDate <= t < U64 && Timed(t, es)
    requires |s.log| <= i < |Run(s, es, t).log| && Run(s, es, t).log[i].Sent?
    ensures k < |es| && Timed(t, es[..k + 1]) && es[k].ReadsClock()
    ensures var x := Run(s, es, t).log[i]; x.at == es[k].t2 && TellsWanted(Run(s, es[..k + 1], t), x)
    decreases |es|
  {
    var s', rest := Step(s, es[0], t), es[1..];
    if i < |s'.log| {
      k := 0;
      StepLogs(s, es[0], t, i);
      LogGrows(s', rest, es[0].Until(t));
      assert es[..1][0] == es[0] && es[..1][1..] == [];
    } else {
      var j := AnnouncedIsWanted(s', rest, es[0].Until(t), i);
      k := j + 1;
      assert es[..k + 1][0] == es[0] && es[..k + 1][1..] == rest[..j + 1];
    }
  }

  /** An event after which the client looks whether there is something to announce.  The timer and activation, the first
      one aside, count while there is a window, and a new window state while there is none. */
  predicate Looks(s: State, e: Event)
  {
    var window := if s.backend.X11? then !s.want.fullscreen else !s.settingFullscreen;
    || (e.Timer? && window)
    || (e.Activated? && window && !e.first)
    || (e.GraphicsReset? && !s.settingFullscreen)
    || (e.WindowStateChange? && s.backend.X11? && s.want.fullscreen)
    || (e.NewSize? && (s.backend.Wayland? || e.width != s.want.width || e.height != s.want.height))
  }

  /** 200 ms have passed since the last stamp; on X11 a new size is such a stamp itself. */
  predicate Due(s: State, e: Event)
    requires e.ReadsClock()
  {
    e.t1 - (if e.NewSize? && s.backend.X11? then e.t0 else s.lastDate) >= 200
  }

  predicate Announces(s: State, e: Event)
  {
    && e.ReadsClock() && s.activated && s.connected && Looks(s, e) && Due(s, e)
    && s.last != if e.NewSize? then s.want.(width := e.width, height := e.height) else s.want
  }

  /** An event announces exactly where the channel is there, the client looks, 200 ms have passed and the layout is new.
      The layout then counts as announced if the send succeeds, and only then. */
  lemma AnnouncesExactly(s: State, e: Event, t: nat)
    requires s.lastDate <= t < U64 && e.OnTime(t)
    ensures var s' := Step(s, e, t);
            && (Announces(s, e) <==> |s'.log| > |s.log| && s'.log[|s'.log| - 1].Sent?)
            && s'.last == if Announces(s, e) && e.ok then s'.want else s.last
  {
  }

  /** The next 200 ms count from an announcement, on X11 also from a new size, and on Wayland from every look that is
      due. */
  lemma StampsExactly(s: State, e: Event, t: nat)
    requires s.lastDate <= t < U64 && e.OnTime(t)
    ensures var looks := e.ReadsClock() && s.activated && s.connected && Looks(s, e) && Due(s, e);
            Step(s, e, t).lastDate ==
            if Announces(s, e) || (s.backend.Wayland? && looks) then e.t2
            else if s.backend.X11? && e.NewSize? && Looks(s, e) then e.t0
            else s.lastDate
  {
  }

  /** What a run asks for: the last size, the last settings, and whether the channel is there. */
  predicate Asked(s: State, es: seq<Event>, r: State)
    decreases |es|
  {
    if |es| == 0 then
      && r.want == s.want && r.settingFullscreen == s.settingFullscreen && r.monitorCount == s.monitorCount
      && r.activated == s.activated && r.connected == s.connected
    else
      match es[0]
      case NewSize(w, h, _, _, _, _) => Asked(s.(want := s.want.(width := w, height := h)), es[1..], r)
      case Settings(o, ds, vs, f, sf, n) =>
        Asked(s.(want := Layout(s.want.width, s.want.height, o, ds, vs, f), settingFullscreen := sf, monitorCount := n),
              es[1..], r)
      case Capabilities => Asked(s.(activated := true), es[1..], r)
      case Connected(c) => Asked(s.(connected := c), es[1..], r)
      case _ => Asked(s, es[1..], r)
  }

  lemma {:induction false} AskedAgrees(s: State, s': State, es: seq<Event>, r: State)
    requires s'.want == s.want && s'.settingFullscreen == s.settingFullscreen && s'.monitorCount == s.monitorCount
    requires s'.activated == s.activated && s'.connected == s.connected
    ensures Asked(s, es, r) <==> Asked(s', es, r)
    decreases |es|
  {
    if |es| > 0 {
      match es[0]
      case NewSize(w, h, _, _, _, _) =>
        var want := s.want.(width := w, height := h);
        AskedAgrees(s.(want := want), s'.(want := want), es[1..], r);
      case Settings(o, ds, vs, f, sf, n) =>
        var want := Layout(s.want.width, s.want.height, o, ds, vs, f);
        AskedAgrees(s.(want := want, settingFullscreen := sf, monitorCount := n),
                    s'.(want := want, settingFullscreen := sf, monitorCount := n), es[1..], r);
      case Capabilities => AskedAgrees(s.(activated := true), s'.(activated := true), es[1..], r);
      case Connected(c) => AskedAgrees(s.(connected := c), s'.(connected := c), es[1..], r);
      case _ => AskedAgrees(s, s', es[1..], r);
    }
  }

  /** In every run the wanted layout is the last one asked for. */
  lemma {:induction false} RunAsks(s: State, es: seq<Event>, t: nat)
    requires s.lastDate <= t < U64 && Timed(t, es)
    ensures Asked(s, es, Run(s, es, t))
    decreases |es|
  {
    if |es| > 0 {
      var e, s', r := es[0], Step(s, es[0], t), Run(s, es, t);
      RunAsks(s', es[1..], e.Until(t));
      match e
      case NewSize(w, h, _, _, _, _) => AskedAgrees(s.(want := s.want.(width := w, height := h)), s', es[1..], r);
      case Settings(o, ds, vs, f, sf, n) =>
      case Capabilities =>
      case Connected(c) =>
      case _ => AskedAgrees(s, s', es[1..], r);
    }
  }

  /** The layout announced last. */
  function LastLayout(log: seq<Entry>): Option<Layout>
  {
    if |log| == 0 then None
    else if log[|log| - 1].Sent? then Some(log[|log| - 1].layout)
    else LastLayout(log[..|log| - 1])
  }

  // --- Convergence: a target that stays is announced ---

  predicate Windowed(s: State)
  {
    s.activated && s.connected && !s.want.fullscreen && !s.settingFullscreen
  }

  /** Events that leave the target and the settings alone and whose sends succeed. */
  predicate Steady(s: State, e: Event)
  {
    match e
    case Settings(o, ds, vs, f, sf, _) =>
      s.want == s.want.(orientation := o, desktopScale := ds, deviceScale := vs, fullscreen := f) && !sf
    case NewSize(w, h, _, _, _, ok) => s.want == s.want.(width := w, height := h) && ok
    case Capabilities => true
    case Connected(c) => c
    case _ => e.ok
  }

  predicate AllSteady(s: State, es: seq<Event>)
  {
    forall e :: e in es ==> Steady(s, e)
  }

  /** No reading of the clock is more than d after the timer last fired. */
  predicate TimersWithin(d: nat, fired: nat, es: seq<Event>)
    decreases |es|
  {
    |es| > 0 ==>
      && (es[0].ReadsClock() ==> es[0].t1 <= fired + d)
      && TimersWithin(d, if es[0].Timer? then es[0].t1 else fired, es[1..])
  }

  /** Some reading of the clock in the run is at `when` or later. */
  ghost predicate Reaches(es: seq<Event>, when: nat)
  {
    exists e :: e in es && e.ReadsClock() && e.t1 >= when
  }

  /** While the target stays since `since`, either it has been announced or nothing was stamped after `since`. */
  lemma SteadyStep(s: State, e: Event, t: nat, since: nat)
    requires s.lastDate <= t < U64 && e.OnTime(t) && Windowed(s) && Steady(s, e)
    requires s.last == s.want || s.lastDate <= since <= t
    ensures var s' := Step(s, e, t);
            && s'.want == s.want && Windowed(s')
            && (s'.last == s'.want || s'.lastDate <= since)
            && (e.Timer? && e.t1 >= since + RESIZE_MIN_DELAY ==> s'.last == s'.want)
            && (s.last == s.want ==> s'.log == s.log)
            && (s.last != s.want && s'.last == s'.want ==> LastLayout(s'.log) == Some(s.want))
  {
  }

  /** If the target stays fixed from `since` on while the client is active and windowed, the timer fires at least
      every d ms and sends succeed, then in every run that gets to 200 + d ms after `since` the layout announced last is
      the wanted one, and it still is at the end. */
  lemma {:induction false} TargetAnnounced(s: State, es: seq<Event>, t: nat, since: nat, fired: nat, d: nat)
    requires s.lastDate <= t < U64 && Timed(t, es) && Windowed(s) && AllSteady(s, es)
    requires since <= t && TimersWithin(d, fired, es)
    requires s.last == s.want || (s.lastDate <= since && fired < since + RESIZE_MIN_DELAY)
    ensures Run(s, es, t).want == s.want
    ensures s.last == s.want || Reaches(es, since + RESIZE_MIN_DELAY + d) ==> Run(s, es, t).last == s.want
    ensures s.last != s.want && Reaches(es, since + RESIZE_MIN_DELAY + d) ==>
              LastLayout(Run(s, es, t).log) == Some(s.want)
    ensures s.last == s.want ==> Run(s, es, t).log == s.log
    decreases |es|
  {
    if |es| > 0 {
      var e := es[0];
      assert e in es && forall x :: x in es[1..] ==> x in es;
      SteadyStep(s, e, t, since);
      var s' := Step(s, e, t);
      assert AllSteady(s', es[1..]);
      TargetAnnounced(s', es[1..], e.Until(t), since, if e.Timer? then e.t1 else fired, d);
      if Reaches(es, since + RESIZE_MIN_DELAY + d) && s'.last != s'.want {
        var x :| x in es && x.ReadsClock() && x.t1 >= since + RESIZE_MIN_DELAY + d;
        assert x in es[1..];
      }
    }
  }

  // --- The client's context ---

  class DispContext {
    const backend: Backend
    var connected: bool
    var activated: bool
    var lastSentDate: nat
    var lastSentWidth: int
    var lastSentHeight: int
    var lastSentOrientation: nat
    var lastSentDesktopScale: nat
    var lastSentDeviceScale: nat
    var lastSentFullscreen: bool
    var targetWidth: int
    var targetHeight: int
    // the settings, and the window state of the client
    var orientation: nat
    var desktopScale: nat
    var deviceScale: nat
    var fullscreen: bool
    var settingFullscreen: bool
    var monitorCount: nat
    // what the channel and the window were told
    var log: seq<Entry>

    ghost function View(): State
      reads this
    {
      State(backend, connected, activated, lastSentDate,
            Layout(lastSentWidth, lastSentHeight, lastSentOrientation, lastSentDesktopScale,
                   lastSentDeviceScale, lastSentFullscreen),
            Layout(targetWidth, targetHeight, orientation, desktopScale, deviceScale, fullscreen),
            settingFullscreen, monitorCount, log)
    }

    constructor (backend: Backend, width: int, height: int)
      ensures Safe(View()) && View().lastDate == 0 && View().log == [] && View().backend == backend
      ensures View().last.width == View().want.width == width && View().last.height == View().want.height == height
    {
      this.backend := backend;
      connected, activated, lastSentDate, log := false, false, 0, [];
      lastSentWidth, targetWidth, lastSentHeight, targetHeight := width, width, height, height;
      lastSentOrientation, lastSentDesktopScale, lastSentDeviceScale, lastSentFullscreen := 0, 0, 0, false;
      orientation, desktopScale, deviceScale, fullscreen, settingFullscreen, monitorCount := 0, 0, 0, false, false, 0;
    }

    method SettingsChanged() returns (changed: bool)
      ensures changed == (View().last != View().want)
    {
      if lastSentWidth != targetWidth { return true; }
      if lastSentHeight != targetHeight { return true; }
      if lastSentOrientation != orientation { return true; }
      if lastSentDesktopScale != desktopScale { return true; }
      if lastSentDeviceScale != deviceScale { return true; }
      if lastSentFullscreen != fullscreen { return true; }
      return false;
    }

    method UpdateLastSent()
      modifies `lastSentWidth, `lastSentHeight, `lastSentOrientation, `lastSentDesktopScale, `lastSentDeviceScale,
        `lastSentFullscreen
      ensures View() == old(View()).(last := old(View()).want)
    {
      lastSentWidth := targetWidth;
      lastSentHeight := targetHeight;
      lastSentOrientation := orientation;
      lastSentDesktopScale := desktopScale;
      lastSentDeviceScale := deviceScale;
      lastSentFullscreen := fullscreen;
    }

    method SendLayout(t2: nat, ok: bool)
      modifies this
      ensures View() == Announce(old(View()), t2, ok)
    {
      var monitors := 1;
      if backend.X11? && fullscreen && monitorCount > 0 { monitors := monitorCount; }
      var layout := Layout(targetWidth, targetHeight, orientation, desktopScale, deviceScale, fullscreen);
      log := log + [Sent(t2, layout, monitors)];
      if ok { UpdateLastSent(); }
    }

    method SendResize(t1: nat, t2: nat, ok: bool)
      requires t1 < U64 && lastSentDate < U64
      modifies this
      ensures View() == Throttle(old(View()), t1, t2, ok)
    {
      if !activated || !connected { return; }
      if Elapsed(t1, lastSentDate) < RESIZE_MIN_DELAY { return; }
      if backend.Wayland? { lastSentDate := t2; }
      var changed := SettingsChanged();
      if !changed { return; }
      lastSentDate := t2;
      SendLayout(t2, ok);
    }

    /** xf_disp_queueResize and wlf_disp_handle_configure. */
    method HandleConfigure(width: int, height: int, t0: nat, t1: nat, t2: nat, ok: bool)
      requires t0 < U64 && t1 < U64 && lastSentDate < U64
      modifies this
      ensures View() == Configure(old(View()), width, height, t0, t1, t2, ok)
    {
      if backend.X11? && targetWidth == width && targetHeight == height { return; }
      targetWidth := width;
      targetHeight := height;
      if backend.X11? {
        lastSentDate := t0;
        log := log + [Resized(t0)];
      }
      SendResize(t1, t2, ok);
    }

    method OnTimer(t1: nat, t2: nat, ok: bool, ghost t: nat)
      requires lastSentDate <= t < U64 && Timer(t1, t2, ok).OnTime(t)
      modifies this
      ensures View() == Step(old(View()), Timer(t1, t2, ok), t)
    {
      if !activated || (if backend.X11? then fullscreen else settingFullscreen) { return; }
      SendResize(t1, t2, ok);
    }

    method OnActivated(first: bool, t1: nat, t2: nat, ok: bool, ghost t: nat)
      requires lastSentDate <= t < U64 && Activated(first, t1, t2, ok).OnTime(t)
      modifies this
      ensures View() == Step(old(View()), Activated(first, t1, t2, ok), t)
    {
      if activated && !(if backend.X11? then fullscreen else settingFullscreen) {
        if first { return; }
        SendResize(t1, t2, ok);
      }
    }

    method OnGraphicsReset(t1: nat, t2: nat, ok: bool, ghost t: nat)
      requires lastSentDate <= t < U64 && GraphicsReset(t1, t2, ok).OnTime(t)
      modifies this
      ensures View() == Step(old(View()), GraphicsReset(t1, t2, ok), t)
    {
      if activated && !settingFullscreen { SendResize(t1, t2, ok); }
    }

    method OnWindowStateChange(t1: nat, t2: nat, ok: bool, ghost t: nat)
      requires backend.X11? && lastSentDate <= t < U64 && WindowStateChange(t1, t2, ok).OnTime(t)
      modifies this
      ensures View() == Step(old(View()), WindowStateChange(t1, t2, ok), t)
    {
      if !activated || !fullscreen { return; }
      SendResize(t1, t2, ok);
    }

    method SetLayout(orientation: nat, desktopScale: nat, deviceScale: nat, fullscreen: bool)
      modifies `orientation, `desktopScale, `deviceScale, `fullscreen
      ensures var want := Layout(targetWidth, targetHeight, orientation, desktopScale, deviceScale, fullscreen);
              View() == old(View()).(want := want)
    {
      this.orientation := orientation;
      this.desktopScale := desktopScale;
      this.deviceScale := deviceScale;
      this.fullscreen := fullscreen;
    }

    /** The settings and the window state, which the core and the window change. */
    method OnSettings(orientation: nat, desktopScale: nat, deviceScale: nat, fullscreen: bool, settingFullscreen: bool,
                      monitorCount: nat, ghost t: nat)
      requires lastSentDate <= t < U64
      modifies this
      ensures var e := Settings(orientation, desktopScale, deviceScale, fullscreen, settingFullscreen, monitorCount);
              View() == Step(old(View()), e, t)
    {
      SetLayout(orientation, desktopScale, deviceScale, fullscreen);
      this.settingFullscreen := settingFullscreen;
      this.monitorCount := monitorCount;
    }

    /** The server's display control capabilities. */
    method OnCapabilities(ghost t: nat)
      requires lastSentDate <= t < U64
      modifies this
      ensures View() == Step(old(View()), Capabilities, t)
    {
      activated := true;
    }

    method OnConnected(connected: bool, ghost t: nat)
      requires lastSentDate <= t < U64
      modifies this
      ensures View() == Step(old(View()), Connected(connected), t)
    {
      this.connected := connected;
    }

    method HandleEvent(e: Event, ghost t: nat)
      requires lastSentDate <= t < U64 && e.OnTime(t)
      modifies this
      ensures View() == Step(old(View()), e, t)
    {
      match e
      case Timer(t1, t2, ok) => OnTimer(t1, t2, ok, t);
      case Activated(first, t1, t2, ok) => OnActivated(first, t1, t2, ok, t);
      case GraphicsReset(t1, t2, ok) => OnGraphicsReset(t1, t2, ok, t);
      case WindowStateChange(t1, t2, ok) => if backend.X11? { OnWindowStateChange(t1, t2, ok, t); }
      case NewSize(width, height, t0, t1, t2, ok) => HandleConfigure(width, height, t0, t1, t2, ok);
      case Settings(o, ds, vs, f, sf, n) => OnSettings(o, ds, vs, f, sf, n, t);
      case Capabilities => OnCapabilities(t);
      case Connected(c) => OnConnected(c, t);
    }

    /** A run whose readings of the clock start at t. */
    method HandleAll(es: seq<Event>, ghost t: nat)
      requires lastSentDate <= t < U64 && Timed(t, es)
      modifies this
      ensures View() == Run(old(View()), es, t)
    {
      ghost var now: nat, rest := t, es;
      ghost var end := Run(View(), es, t);
      for i := 0 to |es|
        invariant rest == es[i..] && Timed(now, rest)
        invariant lastSentDate <= now < U64 && Run(View(), rest, now) == end
      {
        assert rest[0] == es[i] && rest[1..] == es[i + 1..];
        HandleEvent(es[i], now);
        now, rest := es[i].Until(now), rest[1..];
      }
    }
  }
}
