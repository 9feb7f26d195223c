/**
 The request queue of the Wayland clipboard (client/Wayland/wlf_cliprdr.c): a file is opened for each transfer that a
 Wayland client asks for, the request goes to the server and into a queue, and each response of the server is taken for
 the request at the head of the queue.
 */
module WaylandClipboard {
  import opened Common
  import X = XfClipboard

  const CF_DIBV5: nat := 17

  function TextMimes(): set<bytes>
  {
    {X.Ascii("text/plain"), X.Ascii("text/plain;charset=utf-8"), X.Ascii("UTF8_STRING"), X.Ascii("COMPOUND_TEXT"),
     X.Ascii("TEXT"), X.Ascii("STRING")}
  }

  function ImageMimes(): set<bytes>
  {
    {X.Ascii("image/png"), X.Ascii("image/webp"), X.Ascii("image/jpeg"), X.Ascii("image/tiff"), X.Ascii("image/bmp"),
     X.Ascii("image/x-bmp"), X.Ascii("image/x-MS-bmp"), X.Ascii("image/x-win-bitmap")}
  }

  function FileMimes(): set<bytes>
  {
    {X.Ascii("text/uri-list"), X.Ascii("x-special/gnome-copied-files"), X.Ascii("x-special/mate-copied-files")}
  }

  /** A request for a format of the server, whose data goes to `file` as `mime`.  A file stands for one opening of
      it. */
  datatype Request = Request(file: nat, format: nat, mime: bytes)

  datatype State = State(serverFormats: seq<Format>, queue: seq<Request>)

  datatype Action =
    | Ask(format: nat)                // a data request handed to the channel
    | Write(file: nat, data: bytes)
    | Close(file: nat)
    | Respond(reply: Option<bytes>)   // to a data request of the server, None for failure

  datatype Result = Result(state: State, actions: seq<Action>)

  const Init := State([], [])

  // --- Transfers that Wayland clients ask for ---

  /** The id of the first server format with this name, 0 for none. */
  function IdOf(formats: seq<Format>, name: bytes): nat
  {
    if |formats| == 0 then 0
    else if formats[0].name == Some(name) then formats[0].id
    else IdOf(formats[1..], name)
  }

  /** What to request for a mime type, and what to convert the answer to. */
  function Wanted(formats: seq<Format>, mime: bytes): Option<(nat, bytes)>
  {
    if mime == X.MIME_HTML then Some((IdOf(formats, X.HTML_FORMAT), X.MIME_HTML))
    else if mime in FileMimes() then Some((IdOf(formats, X.FILE_GROUP_DESCRIPTOR), mime))
    else if mime in TextMimes() then Some((X.CF_UNICODETEXT, X.Ascii("text/plain")))
    else if mime in ImageMimes() then Some((if mime == X.Ascii("image/tiff") then X.CF_TIFF else X.CF_DIB, mime))
    else None
  }

  /** `file` is None where opening it fails; `queued` and `sent` say whether queueing and sending succeed. */
  function NewRequest(s: State, mime: bytes, file: Option<nat>, queued: bool): Option<Request>
  {
    var w := Wanted(s.serverFormats, mime);
    if w.Some? && file.Some? && queued then Some(Request(file.value, w.value.0, w.value.1)) else None
  }

  function Transfer(s: State, mime: bytes, file: Option<nat>, queued: bool, sent: bool): Result
  {
    var rq := NewRequest(s, mime, file, queued);
    if rq.None? then Result(s, [])
    else Result(s.(queue := s.queue + [rq.value]), if sent then [Ask(rq.value.format)] else [])
  }

  // --- Responses of the server ---

  function NameOf(formats: seq<Format>, id: nat): Option<bytes>
  {
    if |formats| == 0 then None
    else if formats[0].id == id then formats[0].name
    else NameOf(formats[1..], id)
  }

  /** Source and destination id of the conversion, 0 and 0 where the format has none. */
  function Ids(lib: X.Library, formats: seq<Format>, rq: Request): (nat, nat)
  {
    if X.IsText(rq.format) || rq.format == X.CF_DIB || rq.format == CF_DIBV5 then (rq.format, lib.formatId(rq.mime))
    else
      var name := NameOf(formats, rq.format);
      if name == Some(X.FILE_GROUP_DESCRIPTOR) then (lib.formatId(X.FILE_GROUP_DESCRIPTOR), lib.formatId(rq.mime))
      else if name == Some(X.HTML_FORMAT) then (lib.formatId(X.HTML_FORMAT), lib.formatId(rq.mime))
      else (0, 0)
  }

  predicate IsFileList(formats: seq<Format>, rq: Request)
  {
    && !X.IsText(rq.format) && rq.format != X.CF_DIB && rq.format != CF_DIBV5
    && NameOf(formats, rq.format) == Some(X.FILE_GROUP_DESCRIPTOR)
  }

  /** A response; whether the file context takes the file list in it, and how many bytes the file takes. */
  datatype Response = Response(failed: bool, data: bytes, filesOk: bool, room: nat)

  function Front(d: bytes, n: nat): bytes { if n < |d| then d[..n] else d }

  /** What a response writes for a request. */
  function Payload(lib: X.Library, formats: seq<Format>, rq: Request, a: Response): Option<bytes>
  {
    var d := Content(lib, formats, rq, a);
    if d.None? then None else Some(Front(d.value, a.room))
  }

  /** Whether the handler reports success. */
  predicate Reported(lib: X.Library, s: State, a: Response)
  {
    && |s.queue| > 0
    && (a.failed || var d := Content(lib, s.serverFormats, s.queue[0], a); d.Some? && |d.value| <= a.room)
  }

  /** A response converted for a request. */
  function Content(lib: X.Library, formats: seq<Format>, rq: Request, a: Response): Option<bytes>
  {
    var (src, dst) := Ids(lib, formats, rq);
    if a.failed || (IsFileList(formats, rq) && !a.filesOk) || !lib.accepts(src, a.data) then None
    else lib.convert(src, dst, a.data)
  }

  /** What is done with a request and the response taken for it: at most one write, then the close. */
  function Settle(lib: X.Library, formats: seq<Format>, rq: Request, a: Response): seq<Action>
  {
    var d := Payload(lib, formats, rq, a);
    (if d.Some? then [Write(rq.file, d.value)] else []) + [Close(rq.file)]
  }

  function TakeResponse(lib: X.Library, s: State, a: Response): Result
  {
    if |s.queue| == 0 then Result(s, [])
    else Result(s.(queue := s.queue[1..]), Settle(lib, s.serverFormats, s.queue[0], a))
  }

  // --- Runs ---

  datatype Event =
    | OnTransfer(mime: bytes, file: Option<nat>, queued: bool, sent: bool)
    | OnResponse(response: Response)
    | OnServerList(formats: seq<Format>)
    | OnDataRequest(id: nat, data: Option<bytes>, filesOk: bool)  // `data` is what the local clipboard holds

  function Step(lib: X.Library, s: State, e: Event): Result
  {
    match e
    case OnTransfer(mime, file, queued, sent) => Transfer(s, mime, file, queued, sent)
    case OnResponse(a) => TakeResponse(lib, s, a)
    case OnServerList(formats) => Result(s.(serverFormats := formats), [])
    case OnDataRequest(id, data, filesOk) => Result(s, [Respond(Answer(lib, id, data, filesOk))])
  }

  function After(lib: X.Library, es: seq<Event>): State
  {
    if |es| == 0 then Init else Step(lib, After(lib, es[..|es| - 1]), es[|es| - 1]).state
  }

  predicate OnFile(a: Action) { a.Write? || a.Close? }

  /** Writes and closes of a run, in order. */
  function FileActions(actions: seq<Action>): seq<Action>
  {
    if |actions| == 0 then []
    else FileActions(actions[..|actions| - 1]) + if OnFile(actions[|actions| - 1]) then [actions[|actions| - 1]] else []
  }

  function Done(lib: X.Library, es: seq<Event>): seq<Action>
  {
    if |es| == 0 then []
    else Done(lib, es[..|es| - 1]) + FileActions(Step(lib, After(lib, es[..|es| - 1]), es[|es| - 1]).actions)
  }

  /** A request that went into the queue, whether it was sent, and what it was made from: the server's formats at that
      time and the mime type asked for. */
  datatype Entry = Entry(request: Request, sent: bool, formats: seq<Format>, asked: bytes)

  function EnqueuedBy(s: State, e: Event): seq<Entry>
  {
    if e.OnTransfer? && NewRequest(s, e.mime, e.file, e.queued).Some? then
      [Entry(NewRequest(s, e.mime, e.file, e.queued).value, e.sent, s.serverFormats, e.mime)]
    else []
  }

  function Enqueued(lib: X.Library, es: seq<Event>): seq<Entry>
  {
    if |es| == 0 then [] else Enqueued(lib, es[..|es| - 1]) + EnqueuedBy(After(lib, es[..|es| - 1]), es[|es| - 1])
  }

  /** A response that found a request, with the server's formats at that time. */
  datatype Taken = Taken(formats: seq<Format>, response: Response)

  function TakenBy(s: State, e: Event): seq<Taken>
  {
    if e.OnResponse? && |s.queue| > 0 then [Taken(s.serverFormats, e.response)] else []
  }

  function AllTaken(lib: X.Library, es: seq<Event>): seq<Taken>
  {
    if |es| == 0 then [] else AllTaken(lib, es[..|es| - 1]) + TakenBy(After(lib, es[..|es| - 1]), es[|es| - 1])
  }

  /** The i-th response taken settles the i-th request enqueued. */
  function Paired(lib: X.Library, qs: seq<Entry>, ts: seq<Taken>): seq<Action>
    requires |ts| <= |qs|
    decreases |ts|
  {
    if |ts| == 0 then []
    else
      var n := |ts| - 1;
      Paired(lib, qs, ts[..n]) + Settle(lib, ts[n].formats, qs[n].request, ts[n].response)
  }

  function Requests(qs: seq<Entry>): (r: seq<Request>)
    ensures |r| == |qs|
  {
    if |qs| == 0 then [] else Requests(qs[..|qs| - 1]) + [qs[|qs| - 1].request]
  }

  lemma {:induction false} RequestsAt(qs: seq<Entry>)
    ensures forall i :: 0 <= i < |qs| ==> Requests(qs)[i] == qs[i].request
  {
    if |qs| > 0 { RequestsAt(qs[..|qs| - 1]); }
  }

  lemma {:induction false} PairedGrows(lib: X.Library, qs: seq<Entry>, more: seq<Entry>, ts: seq<Taken>)
    requires |ts| <= |qs|
    ensures Paired(lib, qs + more, ts) == Paired(lib, qs, ts)
    decreases |ts|
  {
    if |ts| > 0 { PairedGrows(lib, qs, more, ts[..|ts| - 1]); }
  }

  lemma SettleHasNoAsk(lib: X.Library, formats: seq<Format>, rq: Request, a: Response)
    ensures FileActions(Settle(lib, formats, rq, a)) == Settle(lib, formats, rq, a)
  {
    var d := Payload(lib, formats, rq, a);
    OneAction(Close(rq.file));
    if d.Some? {
      var t := [Write(rq.file, d.value)] + [Close(rq.file)];
      assert t[..1] == [Write(rq.file, d.value)];
      OneAction(Write(rq.file, d.value));
    } else {
      assert Settle(lib, formats, rq, a) == [Close(rq.file)];
    }
  }

  lemma OneAction(a: Action)
    ensures FileActions([a]) == if OnFile(a) then [a] else []
  {
    assert [a][..0] == [];
  }

  /** How one step adds to the record of the run. */
  lemma StepRecord(lib: X.Library, s: State, e: Event)
    ensures var r := Step(lib, s, e);
            && (|TakenBy(s, e)| == 0 ==>
                  r.state.queue == s.queue + Requests(EnqueuedBy(s, e)) && FileActions(r.actions) == [])
            && (|TakenBy(s, e)| > 0 ==>
                  && |s.queue| > 0 && r.state.queue == s.queue[1..] && EnqueuedBy(s, e) == []
                  && FileActions(r.actions) == Settle(lib, s.serverFormats, s.queue[0], e.response))
  {
    match e
    case OnTransfer(mime, file, queued, sent) =>
      var rq := NewRequest(s, mime, file, queued);
      if rq.Some? {
        var entry := Entry(rq.value, sent, s.serverFormats, mime);
        RequestsAt([entry]);
        assert Requests([entry]) == [rq.value];
        OneAction(Ask(rq.value.format));
      }
    case OnResponse(a) => if |s.queue| > 0 { SettleHasNoAsk(lib, s.serverFormats, s.queue[0], a); }
    case OnServerList(formats) =>
    case OnDataRequest(id, data, filesOk) => OneAction(Respond(Answer(lib, id, data, filesOk)));
  }

  lemma {:induction false} RequestsConcat(a: seq<Entry>, b: seq<Entry>)
    ensures Requests(a + b) == Requests(a) + Requests(b)
  {
    if |b| == 0 {
      assert a + b == a;
    } else {
      assert (a + b)[..|a + b| - 1] == a + b[..|b| - 1];
      RequestsConcat(a, b[..|b| - 1]);
    }
  }

  /** The queue is what was enqueued and not yet taken, and the files were written and closed pairing the i-th response
      taken with the i-th request enqueued. */
  ghost predicate InStep(lib: X.Library, queue: seq<Request>, done: seq<Action>, qs: seq<Entry>, ts: seq<Taken>)
  {
    |ts| <= |qs| && queue == Requests(qs)[|ts|..] && done == Paired(lib, qs, ts)
  }

  lemma EnqueueKeepsInStep(lib: X.Library, queue: seq<Request>, done: seq<Action>, qs: seq<Entry>,
                           ts: seq<Taken>, more: seq<Entry>)
    requires InStep(lib, queue, done, qs, ts)
    ensures InStep(lib, queue + Requests(more), done, qs + more, ts)
  {
    RequestsConcat(qs, more);
    PairedGrows(lib, qs, more, ts);
    DropOfConcat(Requests(qs), Requests(more), |ts|);
  }

  lemma DropOfConcat(a: seq<Request>, b: seq<Request>, n: nat)
    requires n <= |a|
    ensures (a + b)[n..] == a[n..] + b
  {
  }

  lemma TakeKeepsInStep(lib: X.Library, queue: seq<Request>, done: seq<Action>, qs: seq<Entry>,
                        ts: seq<Taken>, t: Taken)
    requires InStep(lib, queue, done, qs, ts) && |queue| > 0
    ensures InStep(lib, queue[1..], done + Settle(lib, t.formats, queue[0], t.response), qs, ts + [t])
  {
    RequestsAt(qs);
    assert (ts + [t])[..|ts|] == ts;
    assert Requests(qs)[|ts|..][1..] == Requests(qs)[|ts| + 1..];
  }

  /** In every run the i-th response that finds a request settles the i-th request enqueued, and the queue holds the
      requests enqueued after those. */
  lemma {:induction false} FifoPairing(lib: X.Library, es: seq<Event>)
    ensures InStep(lib, After(lib, es).queue, Done(lib, es), Enqueued(lib, es), AllTaken(lib, es))
  {
    if |es| > 0 {
      var before, e := es[..|es| - 1], es[|es| - 1];
      var s, qs, ts, done := After(lib, before), Enqueued(lib, before), AllTaken(lib, before), Done(lib, before);
      FifoPairing(lib, before);
      StepRecord(lib, s, e);
      if |TakenBy(s, e)| > 0 {
        TakeKeepsInStep(lib, s.queue, done, qs, ts, TakenBy(s, e)[0]);
        assert ts + TakenBy(s, e) == ts + [TakenBy(s, e)[0]];
        assert qs + EnqueuedBy(s, e) == qs;
      } else {
        EnqueueKeepsInStep(lib, s.queue, done, qs, ts, EnqueuedBy(s, e));
        assert ts + TakenBy(s, e) == ts;
        assert done + [] == done;
      }
    }
  }

  // --- Files ---

  function Files(rqs: seq<Request>): multiset<nat>
  {
    if |rqs| == 0 then multiset{} else Files(rqs[..|rqs| - 1]) + multiset{rqs[|rqs| - 1].file}
  }

  function Closed(actions: seq<Action>): multiset<nat>
  {
    if |actions| == 0 then multiset{}
    else Closed(actions[..|actions| - 1]) +
         if actions[|actions| - 1].Close? then multiset{actions[|actions| - 1].file} else multiset{}
  }

  lemma {:induction false} FilesConcat(a: seq<Request>, b: seq<Request>)
    ensures Files(a + b) == Files(a) + Files(b)
  {
    if |b| == 0 {
      assert a + b == a;
    } else {
      assert (a + b)[..|a + b| - 1] == a + b[..|b| - 1];
      FilesConcat(a, b[..|b| - 1]);
    }
  }

  lemma {:induction false} ClosedConcat(a: seq<Action>, b: seq<Action>)
    ensures Closed(a + b) == Closed(a) + Closed(b)
  {
    if |b| == 0 {
      assert a + b == a;
    } else {
      assert (a + b)[..|a + b| - 1] == a + b[..|b| - 1];
      ClosedConcat(a, b[..|b| - 1]);
    }
  }

  lemma SettleCloses(lib: X.Library, formats: seq<Format>, rq: Request, a: Response)
    ensures Closed(Settle(lib, formats, rq, a)) == multiset{rq.file}
  {
    var d := Payload(lib, formats, rq, a);
    OneClosed(Close(rq.file));
    if d.Some? {
      OneClosed(Write(rq.file, d.value));
      ClosedConcat([Write(rq.file, d.value)], [Close(rq.file)]);
    } else {
      assert Settle(lib, formats, rq, a) == [Close(rq.file)];
    }
  }

  lemma OneClosed(a: Action)
    ensures Closed([a]) == if a.Close? then multiset{a.file} else multiset{}
  {
    assert [a][..0] == [];
  }

  lemma {:induction false} PairedCloses(lib: X.Library, qs: seq<Entry>, ts: seq<Taken>)
    requires |ts| <= |qs|
    ensures Closed(Paired(lib, qs, ts)) == Files(Requests(qs)[..|ts|])
    decreases |ts|
  {
    if |ts| > 0 {
      var n := |ts| - 1;
      PairedCloses(lib, qs, ts[..n]);
      RequestsAt(qs);
      SettleCloses(lib, ts[n].formats, qs[n].request, ts[n].response);
      ClosedConcat(Paired(lib, qs, ts[..n]), Settle(lib, ts[n].formats, qs[n].request, ts[n].response));
      assert Requests(qs)[..|ts|][..n] == Requests(qs)[..n];
    }
  }

  lemma InStepFiles(lib: X.Library, queue: seq<Request>, done: seq<Action>, qs: seq<Entry>, ts: seq<Taken>)
    requires InStep(lib, queue, done, qs, ts)
    ensures Files(Requests(qs)) == Closed(done) + Files(queue)
  {
    PairedCloses(lib, qs, ts);
    var rqs := Requests(qs);
    assert rqs == rqs[..|ts|] + rqs[|ts|..];
    FilesConcat(rqs[..|ts|], rqs[|ts|..]);
  }

  /** Each file of an enqueued request has been closed exactly once or its request is still queued. */
  lemma ClosedOnceOrQueued(lib: X.Library, es: seq<Event>)
    ensures Files(Requests(Enqueued(lib, es))) == Closed(Done(lib, es)) + Files(After(lib, es).queue)
  {
    FifoPairing(lib, es);
    InStepFiles(lib, After(lib, es).queue, Done(lib, es), Enqueued(lib, es), AllTaken(lib, es));
  }

  // --- A server that answers in order ---

  /** The requests the server gets. */
  function SentOf(qs: seq<Entry>): seq<Request>
  {
    if |qs| == 0 then []
    else SentOf(qs[..|qs| - 1]) + if qs[|qs| - 1].sent then [qs[|qs| - 1].request] else []
  }

  function Responses(es: seq<Event>): nat
  {
    if |es| == 0 then 0 else Responses(es[..|es| - 1]) + if es[|es| - 1].OnResponse? then 1 else 0
  }

  /** The server answers no more than it was asked; its i-th response is for the i-th request it got. */
  ghost predicate AnswersAsked(lib: X.Library, es: seq<Event>)
  {
    forall i :: 0 <= i <= |es| ==> Responses(es[..i]) <= |SentOf(Enqueued(lib, es[..i]))|
  }

  lemma {:induction false} SentAtMost(qs: seq<Entry>)
    ensures |SentOf(qs)| <= |qs|
  {
    if |qs| > 0 { SentAtMost(qs[..|qs| - 1]); }
  }

  /** Every response of such a server finds a request. */
  lemma {:induction false} EveryResponseTaken(lib: X.Library, es: seq<Event>)
    requires AnswersAsked(lib, es)
    ensures |AllTaken(lib, es)| == Responses(es)
  {
    if |es| > 0 {
      var n := |es| - 1;
      var before, s := es[..n], After(lib, es[..n]);
      assert forall i :: 0 <= i <= n ==> before[..i] == es[..i];
      EveryResponseTaken(lib, before);
      if es[n].OnResponse? {
        FifoPairing(lib, before);
        SentAtMost(Enqueued(lib, before));
        assert es[..|es|] == es;
        assert EnqueuedBy(s, es[n]) == [] && Enqueued(lib, es) == Enqueued(lib, before);
      }
    }
  }

  ghost predicate DistinctFiles(qs: seq<Entry>)
  {
    forall i, j :: 0 <= i < j < |qs| ==> qs[i].request.file != qs[j].request.file
  }

  /** As long as everything was sent, the server got what was enqueued. */
  lemma {:induction false} AllSentAgree(qs: seq<Entry>)
    requires forall i :: 0 <= i < |qs| ==> qs[i].sent
    ensures SentOf(qs) == Requests(qs)
  {
    if |qs| > 0 { AllSentAgree(qs[..|qs| - 1]); }
  }

  lemma {:induction false} SentPrefix(qs: seq<Entry>, n: nat)
    requires n <= |qs|
    ensures SentOf(qs[..n]) <= SentOf(qs)
    decreases |qs|
  {
    if n < |qs| {
      assert qs[..|qs| - 1][..n] == qs[..n];
      SentPrefix(qs[..|qs| - 1], n);
    } else {
      assert qs[..n] == qs;
    }
  }

  /** The i-th request sent was enqueued at place i or later, and later if place i was not sent. */
  lemma {:induction false} SentComesFrom(qs: seq<Entry>, i: nat) returns (k: nat)
    requires i < |SentOf(qs)|
    ensures k < |qs| && qs[k].sent && qs[k].request == SentOf(qs)[i] && i <= k
    ensures SentOf(qs[..k]) == SentOf(qs)[..i]
  {
    SentAtMost(qs);
    var before, last := qs[..|qs| - 1], qs[|qs| - 1];
    if i < |SentOf(before)| {
      k := SentComesFrom(before, i);
      assert qs[..k] == before[..k];
      assert SentOf(qs)[..i] == SentOf(before)[..i];
    } else {
      k := |qs| - 1;
      SentAtMost(before);
    }
  }

  /** The first n requests sent are the first n enqueued exactly when those were all sent. */
  lemma SentAgree(qs: seq<Entry>, n: nat)
    requires DistinctFiles(qs) && n <= |SentOf(qs)| && n <= |qs|
    ensures (forall i :: 0 <= i < n ==> SentOf(qs)[i] == qs[i].request) <==> (forall i :: 0 <= i < n ==> qs[i].sent)
  {
    if forall i :: 0 <= i < n ==> qs[i].sent {
      AllSentAgree(qs[..n]);
      RequestsAt(qs[..n]);
      SentPrefix(qs, n);
    } else {
      var i :| 0 <= i < n && !qs[i].sent;
      var k := SentComesFrom(qs, i);
      assert SentOf(qs)[i] != qs[i].request;
    }
  }

  /** The responses each reach the file that was opened for the request they answer exactly when the requests they
      are taken for were all sent. */
  lemma RightFiles(lib: X.Library, es: seq<Event>)
    requires AnswersAsked(lib, es) && DistinctFiles(Enqueued(lib, es))
    ensures var qs, n := Enqueued(lib, es), Responses(es);
            && n <= |SentOf(qs)| <= |qs|
            && |AllTaken(lib, es)| == n && Done(lib, es) == Paired(lib, qs, AllTaken(lib, es))
            && ((forall i :: 0 <= i < n ==> SentOf(qs)[i] == qs[i].request) <==>
                (forall i :: 0 <= i < n ==> qs[i].sent))
  {
    var qs, n := Enqueued(lib, es), Responses(es);
    assert es[..|es|] == es;
    FifoPairing(lib, es);
    EveryResponseTaken(lib, es);
    SentAtMost(qs);
    SentAgree(qs, n);
  }

  lemma RunSnoc(lib: X.Library, es: seq<Event>, e: Event)
    ensures var r := Step(lib, After(lib, es), e);
            After(lib, es + [e]) == r.state && Done(lib, es + [e]) == Done(lib, es) + FileActions(r.actions)
  {
    assert (es + [e])[..|es|] == es;
  }

  /** A step with a new request for a file. */
  lemma RequestSnoc(lib: X.Library, es: seq<Event>, mime: bytes, file: nat, sent: bool, format: nat, target: bytes)
    requires Wanted(After(lib, es).serverFormats, mime) == Some((format, target))
    ensures var e := OnTransfer(mime, Some(file), true, sent);
            && After(lib, es + [e]) == After(lib, es).(queue := After(lib, es).queue + [Request(file, format, target)])
            && Done(lib, es + [e]) == Done(lib, es)
  {
    var e := OnTransfer(mime, Some(file), true, sent);
    RunSnoc(lib, es, e);
    StepRecord(lib, After(lib, es), e);
  }

  /** A request that was queued but not sent moves every later answer to the file before: here the answer for the second
      file goes to the first. */
  lemma FailedSendMovesAnswers(lib: X.Library, mime: bytes, format: nat, target: bytes, a: Response, d: bytes)
    requires Wanted([], mime) == Some((format, target))
    requires Payload(lib, [], Request(1, format, target), a) == Some(d)
    ensures var es := [OnTransfer(mime, Some(1), true, false)] + [OnTransfer(mime, Some(2), true, true)]
                      + [OnResponse(a)];
            Done(lib, es) == [Write(1, d), Close(1)]
  {
    var first, second := [OnTransfer(mime, Some(1), true, false)], OnTransfer(mime, Some(2), true, true);
    assert [] + first == first;
    RequestSnoc(lib, [], mime, 1, false, format, target);
    RequestSnoc(lib, first, mime, 2, true, format, target);
    TakeSnoc(lib, first + [second], a);
  }

  // --- Data requests of the server ---

  /** The id under which local data is set for a requested format, None for a format that is not served. */
  function LocalId(lib: X.Library, id: nat): Option<nat>
  {
    if X.IsText(id) then Some(lib.formatId(X.Ascii("text/plain")))
    else if id == X.CF_DIB || id == CF_DIBV5 || id == X.CF_TIFF then Some(id)
    else if id == lib.formatId(X.FILE_GROUP_DESCRIPTOR) then Some(lib.formatId(X.Ascii("text/uri-list")))
    else if id == lib.formatId(X.HTML_FORMAT) then Some(lib.formatId(X.MIME_HTML))
    else None
  }

  /** The local data in the requested format. */
  function LocalData(lib: X.Library, id: nat, data: Option<bytes>, filesOk: bool): Option<bytes>
  {
    var local := LocalId(lib, id);
    if local.None? || data.None? || (id == lib.formatId(X.FILE_GROUP_DESCRIPTOR) && !filesOk) then None
    else if !lib.accepts(local.value, data.value) then None
    else lib.convert(local.value, id, data.value)
  }

  /** The response, None for failure: the handler fills it in for file lists only. */
  function Answer(lib: X.Library, id: nat, data: Option<bytes>, filesOk: bool): Option<bytes>
  {
    var d := LocalData(lib, id, data, filesOk);
    if d.Some? && id == lib.formatId(X.FILE_GROUP_DESCRIPTOR) then lib.fileList(d.value) else None
  }

  /** The response that the request asks for: the converted data, put into wire form for a file list. */
  function Expected(lib: X.Library, id: nat, data: Option<bytes>, filesOk: bool): Option<bytes>
  {
    var d := LocalData(lib, id, data, filesOk);
    if d.None? then None
    else if id == lib.formatId(X.FILE_GROUP_DESCRIPTOR) then lib.fileList(d.value)
    else d
  }

  /** The server gets the data it asks for exactly for file lists and where there is no data. */
  lemma OnlyFileListsAnswered(lib: X.Library, id: nat, data: Option<bytes>, filesOk: bool)
    ensures Answer(lib, id, data, filesOk) == Expected(lib, id, data, filesOk) <==>
            id == lib.formatId(X.FILE_GROUP_DESCRIPTOR) || LocalData(lib, id, data, filesOk) == None
  {
    var d := LocalData(lib, id, data, filesOk);
    if id != lib.formatId(X.FILE_GROUP_DESCRIPTOR) && d.Some? {
      assert Expected(lib, id, data, filesOk) == d != Answer(lib, id, data, filesOk);
    }
  }

  /** What the server was asked for and told over a run. */
  function Requested(es: seq<Event>): seq<Event>
  {
    if |es| == 0 then [] else Requested(es[..|es| - 1]) + if es[|es| - 1].OnDataRequest? then [es[|es| - 1]] else []
  }

  function RespondedBy(actions: seq<Action>): seq<Option<bytes>>
  {
    if |actions| == 0 then []
    else RespondedBy(actions[..|actions| - 1]) +
         if actions[|actions| - 1].Respond? then [actions[|actions| - 1].reply] else []
  }

  function Replies(lib: X.Library, es: seq<Event>): seq<Option<bytes>>
  {
    if |es| == 0 then []
    else Replies(lib, es[..|es| - 1]) + RespondedBy(Step(lib, After(lib, es[..|es| - 1]), es[|es| - 1]).actions)
  }

  predicate RepliesRight(lib: X.Library, s: State, e: Event)
  {
    RespondedBy(Step(lib, s, e).actions) == if e.OnDataRequest? then [Answer(lib, e.id, e.data, e.filesOk)] else []
  }

  lemma TransferReplies(lib: X.Library, s: State, e: Event)
    requires e.OnTransfer?
    ensures RepliesRight(lib, s, e)
  {
    var rq := NewRequest(s, e.mime, e.file, e.queued);
    if rq.Some? { OneReply(Ask(rq.value.format)); }
  }

  lemma ResponseReplies(lib: X.Library, s: State, e: Event)
    requires e.OnResponse?
    ensures RepliesRight(lib, s, e)
  {
    if |s.queue| > 0 { SettleRepliesNothing(lib, s.serverFormats, s.queue[0], e.response); }
  }

  lemma DataRequestReplies(lib: X.Library, s: State, e: Event)
    requires e.OnDataRequest?
    ensures RepliesRight(lib, s, e)
  {
    OneReply(Respond(Answer(lib, e.id, e.data, e.filesOk)));
  }

  lemma StepReplies(lib: X.Library, s: State, e: Event)
    ensures RepliesRight(lib, s, e)
  {
    match e
    case OnTransfer(_, _, _, _) => TransferReplies(lib, s, e);
    case OnResponse(_) => ResponseReplies(lib, s, e);
    case OnServerList(_) =>
    case OnDataRequest(_, _, _) => DataRequestReplies(lib, s, e);
  }

  lemma SettleRepliesNothing(lib: X.Library, formats: seq<Format>, rq: Request, a: Response)
    ensures RespondedBy(Settle(lib, formats, rq, a)) == []
  {
    var d := Payload(lib, formats, rq, a);
    OneReply(Close(rq.file));
    if d.Some? {
      var t := [Write(rq.file, d.value)] + [Close(rq.file)];
      assert t[..1] == [Write(rq.file, d.value)];
      OneReply(Write(rq.file, d.value));
    } else {
      assert Settle(lib, formats, rq, a) == [Close(rq.file)];
    }
  }

  lemma OneReply(a: Action)
    ensures RespondedBy([a]) == if a.Respond? then [a.reply] else []
  {
    assert [a][..0] == [];
  }

  ghost predicate Answers(lib: X.Library, e: Event, reply: Option<bytes>)
  {
    e.OnDataRequest? && reply == Answer(lib, e.id, e.data, e.filesOk)
  }

  /** A reply holds data exactly where the server asked for a file list, the local clipboard has one that the file
      context takes, and the library makes it of that. */
  lemma FileListReply(lib: X.Library, id: nat, data: Option<bytes>, filesOk: bool, x: bytes)
    requires !HasOwnRule(lib.formatId(X.FILE_GROUP_DESCRIPTOR)) && lib.formatId(X.FILE_GROUP_DESCRIPTOR) != X.CF_TIFF
    ensures Answer(lib, id, data, filesOk) == Some(x) <==>
            && id == lib.formatId(X.FILE_GROUP_DESCRIPTOR) && data.Some? && filesOk
            && var local := lib.formatId(X.Ascii("text/uri-list"));
               && lib.accepts(local, data.value)
               && exists full :: lib.convert(local, id, data.value) == Some(full) && lib.fileList(full) == Some(x)
  {
    var local := lib.formatId(X.Ascii("text/uri-list"));
    if data.Some? && lib.convert(local, id, data.value).Some? {
      var full := lib.convert(local, id, data.value).value;
      assert lib.fileList(full) == Some(x) || lib.fileList(full) != Some(x);
    }
  }

  /** In every run each data request of the server gets one response, in order, and a response holds data only where the
      request was for a file list. */
  lemma {:induction false} RepliesInOrder(lib: X.Library, es: seq<Event>)
    ensures |Replies(lib, es)| == |Requested(es)|
    ensures forall i :: 0 <= i < |Requested(es)| ==>
              && Answers(lib, Requested(es)[i], Replies(lib, es)[i])
              && (Replies(lib, es)[i].Some? ==> Requested(es)[i].id == lib.formatId(X.FILE_GROUP_DESCRIPTOR))
  {
    if |es| > 0 {
      RepliesInOrder(lib, es[..|es| - 1]);
      StepReplies(lib, After(lib, es[..|es| - 1]), es[|es| - 1]);
    }
  }

  // --- What is requested and what the answer is read as ---

  ghost predicate DistinctIds(formats: seq<Format>)
  {
    forall i, j :: 0 <= i < j < |formats| ==> formats[i].id != formats[j].id
  }

  /** With distinct ids the id looked up for a name leads back to that name. */
  lemma {:induction false} NameReadsBack(formats: seq<Format>, name: bytes, i: nat)
    requires DistinctIds(formats) && i < |formats| && formats[i].name == Some(name)
    ensures NameOf(formats, IdOf(formats, name)) == Some(name)
  {
    if formats[0].name != Some(name) {
      NameReadsBack(formats[1..], name, i - 1);
      IdFound(formats[1..], name, i - 1);
    }
  }

  /** The first k formats do not have the name. */
  predicate Nameless(formats: seq<Format>, k: nat, name: bytes)
    requires k <= |formats|
  {
    forall j :: 0 <= j < k ==> formats[j].name != Some(name)
  }

  /** The id looked up is that of the first format with the name, and 0 where there is none. */
  lemma {:induction false} IdOfIsFirst(formats: seq<Format>, k: nat, name: bytes)
    requires k <= |formats| && Nameless(formats, k, name) && (k < |formats| ==> formats[k].name == Some(name))
    ensures IdOf(formats, name) == if k < |formats| then formats[k].id else 0
    decreases k
  {
    if k > 0 {
      assert Nameless(formats[1..], k - 1, name) by {
        assert forall j :: 0 <= j < k - 1 ==> formats[1..][j] == formats[j + 1];
      }
      IdOfIsFirst(formats[1..], k - 1, name);
    }
  }

  lemma {:induction false} IdFound(formats: seq<Format>, name: bytes, i: nat)
    requires i < |formats| && formats[i].name == Some(name)
    ensures exists j :: 0 <= j < |formats| && formats[j].id == IdOf(formats, name)
  {
    if formats[0].name != Some(name) {
      IdFound(formats[1..], name, i - 1);
      var j :| 0 <= j < |formats[1..]| && formats[1..][j].id == IdOf(formats[1..], name);
      assert formats[j + 1].id == IdOf(formats, name);
    } else {
      assert formats[0].id == IdOf(formats, name);
    }
  }

  /** The name under which a format is looked up for a mime type. */
  function NameFor(mime: bytes): Option<bytes>
  {
    if mime == X.MIME_HTML then Some(X.HTML_FORMAT)
    else if mime in FileMimes() then Some(X.FILE_GROUP_DESCRIPTOR)
    else None
  }

  predicate HasOwnRule(id: nat) { X.IsText(id) || id == X.CF_DIB || id == CF_DIBV5 }

  /** An id that a list of the server gives this name, and that is not one of a text or bitmap format. */
  predicate Names(formats: seq<Format>, id: nat, name: bytes)
  {
    !HasOwnRule(id) && NameOf(formats, id) == Some(name)
  }

  /** The registered ids of the two named formats differ from each other, from 0 and from those of text and bitmaps. */
  predicate IdsApart(lib: X.Library)
  {
    var html, files := lib.formatId(X.HTML_FORMAT), lib.formatId(X.FILE_GROUP_DESCRIPTOR);
    html != files && html != 0 && files != 0 && !HasOwnRule(html) && !HasOwnRule(files)
  }

  lemma {:induction false} EnqueuedWanted(lib: X.Library, es: seq<Event>, i: nat)
    requires i < |Enqueued(lib, es)|
    ensures var q := Enqueued(lib, es)[i]; Wanted(q.formats, q.asked) == Some((q.request.format, q.request.mime))
  {
    if |es| > 0 && i < |Enqueued(lib, es[..|es| - 1])| { EnqueuedWanted(lib, es[..|es| - 1], i); }
  }

  /** In every run the answer to an HTML or file request is read under the registered id of its own format exactly where
      the server's list at the time of the answer gives the id requested that name. */
  lemma NamedRequestIds(lib: X.Library, es: seq<Event>, i: nat, name: bytes)
    requires i < |AllTaken(lib, es)| && i < |Enqueued(lib, es)| && NameFor(Enqueued(lib, es)[i].asked) == Some(name)
    ensures var q, t := Enqueued(lib, es)[i], AllTaken(lib, es)[i];
            var ids := (lib.formatId(name), lib.formatId(q.request.mime));
            && q.request.format == IdOf(q.formats, name)
            && (Names(t.formats, q.request.format, name) ==> Ids(lib, t.formats, q.request) == ids)
            && (IdsApart(lib) ==> (Ids(lib, t.formats, q.request) == ids <==> Names(t.formats, q.request.format, name)))
  {
    EnqueuedWanted(lib, es, i);
  }

  // --- What is written for a request ---

  /** What is done with a file where its answer is handed to the library under `src` and fetched as `dst`: nothing is
      written where the answer fails, its files are refused or the library does not convert it, and otherwise the
      result as far as the file takes it; in the end the file is closed. */
  predicate Writes(lib: X.Library, a: Response, file: nat, src: nat, dst: nat, files: bool, actions: seq<Action>)
  {
    if a.failed || (files && !a.filesOk) || !lib.accepts(src, a.data) || lib.convert(src, dst, a.data).None? then
      actions == [Close(file)]
    else
      && |actions| == 2 && actions[0].Write? && actions[0].file == file && actions[1] == Close(file)
      && var d, full := actions[0].data, lib.convert(src, dst, a.data).value;
         d <= full && (d == full || |d| == a.room) && |d| <= a.room
  }

  lemma SettleWrites(lib: X.Library, formats: seq<Format>, rq: Request, a: Response)
    ensures var ids := Ids(lib, formats, rq);
            Writes(lib, a, rq.file, ids.0, ids.1, IsFileList(formats, rq), Settle(lib, formats, rq, a))
  {
  }

  /** The handler reports success exactly for a response that was taken and either says failure, in which case there is
      nothing to write, or was converted and written in full. */
  lemma ReportedExactly(lib: X.Library, s: State, a: Response)
    ensures Reported(lib, s, a) <==>
            && |s.queue| > 0
            && (a.failed ||
                var actions, ids := TakeResponse(lib, s, a).actions, Ids(lib, s.serverFormats, s.queue[0]);
                |actions| == 2 && actions[0].Write? && Some(actions[0].data) == lib.convert(ids.0, ids.1, a.data))
  {
    if |s.queue| > 0 { SettleWrites(lib, s.serverFormats, s.queue[0], a); }
  }

  // --- What the server is asked for ---

  function AskedBy(actions: seq<Action>): seq<nat>
  {
    if |actions| == 0 then []
    else AskedBy(actions[..|actions| - 1]) + if actions[|actions| - 1].Ask? then [actions[|actions| - 1].format] else []
  }

  /** The formats that the server was asked for during a run. */
  function Asked(lib: X.Library, es: seq<Event>): seq<nat>
  {
    if |es| == 0 then []
    else Asked(lib, es[..|es| - 1]) + AskedBy(Step(lib, After(lib, es[..|es| - 1]), es[|es| - 1]).actions)
  }

  function Formats(rqs: seq<Request>): seq<nat>
  {
    if |rqs| == 0 then [] else Formats(rqs[..|rqs| - 1]) + [rqs[|rqs| - 1].format]
  }

  lemma OneAsk(a: Action)
    ensures AskedBy([a]) == if a.Ask? then [a.format] else []
  {
    assert [a][..0] == [];
  }

  lemma SettleAsksNothing(lib: X.Library, formats: seq<Format>, rq: Request, a: Response)
    ensures AskedBy(Settle(lib, formats, rq, a)) == []
  {
    var actions := Settle(lib, formats, rq, a);
    SettleWrites(lib, formats, rq, a);
    if |actions| == 2 {
      assert actions[..1] == [actions[0]];
      OneAsk(actions[0]);
    } else {
      OneAsk(Close(rq.file));
    }
  }

  function AskedFor(s: State, e: Event): seq<nat> { Formats(SentOf(EnqueuedBy(s, e))) }

  lemma OneSent(q: Entry)
    ensures Formats(SentOf([q])) == if q.sent then [q.request.format] else []
  {
    assert [q][..0] == [];
    if q.sent { assert SentOf([q]) == [q.request] && [q.request][..0] == []; }
  }

  predicate AsksRight(lib: X.Library, s: State, e: Event) { AskedBy(Step(lib, s, e).actions) == AskedFor(s, e) }

  lemma TransferAsks(lib: X.Library, s: State, e: Event)
    requires e.OnTransfer?
    ensures AsksRight(lib, s, e)
  {
    var rq := NewRequest(s, e.mime, e.file, e.queued);
    if rq.Some? {
      OneSent(Entry(rq.value, e.sent, s.serverFormats, e.mime));
      OneAsk(Ask(rq.value.format));
    }
  }

  lemma OthersAskNothing(lib: X.Library, s: State, e: Event)
    requires !e.OnTransfer?
    ensures AsksRight(lib, s, e)
  {
    match e
    case OnResponse(a) => if |s.queue| > 0 { SettleAsksNothing(lib, s.serverFormats, s.queue[0], a); }
    case OnServerList(formats) =>
    case OnDataRequest(id, data, filesOk) => OneAsk(Respond(Answer(lib, id, data, filesOk)));
  }

  lemma {:induction false} FormatsConcat(a: seq<Request>, b: seq<Request>)
    ensures Formats(a + b) == Formats(a) + Formats(b)
  {
    if |b| == 0 {
      assert a + b == a;
    } else {
      assert (a + b)[..|a + b| - 1] == a + b[..|b| - 1];
      FormatsConcat(a, b[..|b| - 1]);
    }
  }

  lemma {:induction false} SentConcat(a: seq<Entry>, b: seq<Entry>)
    ensures SentOf(a + b) == SentOf(a) + SentOf(b)
  {
    if |b| == 0 {
      assert a + b == a;
    } else {
      assert (a + b)[..|a + b| - 1] == a + b[..|b| - 1];
      SentConcat(a, b[..|b| - 1]);
    }
  }

  /** In every run the server is asked for the formats of the requests that were queued and sent, in that order. */
  lemma {:induction false} AskedInOrder(lib: X.Library, es: seq<Event>)
    ensures Asked(lib, es) == Formats(SentOf(Enqueued(lib, es)))
  {
    if |es| > 0 {
      var before, e := es[..|es| - 1], es[|es| - 1];
      var s, qs := After(lib, before), Enqueued(lib, before);
      AskedInOrder(lib, before);
      if e.OnTransfer? { TransferAsks(lib, s, e); } else { OthersAskNothing(lib, s, e); }
      SentConcat(qs, EnqueuedBy(s, e));
      FormatsConcat(SentOf(qs), SentOf(EnqueuedBy(s, e)));
    }
  }

  lemma TextMimesApart(mime: bytes)
    requires mime in TextMimes()
    ensures mime != X.MIME_HTML && mime !in FileMimes()
  {
    assert X.Ascii("COMPOUND_TEXT")[0] == 'C' as int && X.Ascii("text/uri-list")[0] == 't' as int;
  }

  lemma ImageFirst(mime: bytes)
    requires mime in ImageMimes()
    ensures |mime| > 0 && mime[0] == 'i' as int
  {
  }

  lemma TextFirst(mime: bytes)
    requires mime in TextMimes() || mime == X.MIME_HTML
    ensures |mime| > 0 && mime[0] != 'i' as int
  {
  }

  lemma FileFirst(mime: bytes)
    requires mime in FileMimes()
    ensures |mime| > 0 && mime[0] != 'i' as int
  {
  }

  lemma ImageMimesApart(mime: bytes)
    requires mime in ImageMimes()
    ensures mime != X.MIME_HTML && mime !in FileMimes() && mime !in TextMimes()
  {
    ImageFirst(mime);
    if mime in TextMimes() || mime == X.MIME_HTML { TextFirst(mime); }
    if mime in FileMimes() { FileFirst(mime); }
  }

  /** In every run, for the i-th response taken and the i-th request enqueued: text is handed over as CF_UNICODETEXT and
      fetched as text/plain, an image as CF_DIB and fetched as the type asked for, and an HTML or file answer under the
      registered id of its format while the server's list still names it. */
  lemma AnswerWritten(lib: X.Library, es: seq<Event>, i: nat)
    requires i < |AllTaken(lib, es)| && i < |Enqueued(lib, es)|
    ensures var q, t := Enqueued(lib, es)[i], AllTaken(lib, es)[i];
            var a, file, actions := t.response, q.request.file, Settle(lib, t.formats, q.request, t.response);
            && (q.asked in TextMimes() ==>
                  Writes(lib, a, file, 13, lib.formatId(X.Ascii("text/plain")), false, actions))
            && (q.asked in ImageMimes() && q.asked != X.Ascii("image/tiff") ==>
                  Writes(lib, a, file, 8, lib.formatId(q.asked), false, actions))
            && (forall name :: NameFor(q.asked) == Some(name) && Names(t.formats, q.request.format, name) ==>
                  var files := name == X.FILE_GROUP_DESCRIPTOR;
                  Writes(lib, a, file, lib.formatId(name), lib.formatId(q.asked), files, actions))
  {
    var q, t := Enqueued(lib, es)[i], AllTaken(lib, es)[i];
    EnqueuedWanted(lib, es, i);
    SettleWrites(lib, t.formats, q.request, t.response);
    if q.asked in TextMimes() { TextMimesApart(q.asked); }
    if q.asked in ImageMimes() { ImageMimesApart(q.asked); }
    assert |X.HTML_FORMAT| == 11 && |X.FILE_GROUP_DESCRIPTOR| == 20;
  }

  /** While the list stays as it was and its ids are distinct, that is where the id is not one of text or bitmaps. */
  lemma SameListNames(formats: seq<Format>, name: bytes, i: nat)
    requires DistinctIds(formats) && i < |formats| && formats[i].name == Some(name)
    ensures Names(formats, IdOf(formats, name), name) <==> !HasOwnRule(IdOf(formats, name))
  {
    NameReadsBack(formats, name, i);
  }

  /** A TIFF request has no rule of its own: the answer is set and fetched under the id 0. */
  lemma TiffHasNoIds(lib: X.Library, formats: seq<Format>, file: nat, mime: bytes)
    requires NameOf(formats, X.CF_TIFF) == None
    ensures Ids(lib, formats, Request(file, X.CF_TIFF, mime)) == (0, 0)
  {
  }

  lemma NoIdsSettle(lib: X.Library, formats: seq<Format>, rq: Request, a: Response, d: bytes)
    requires !HasOwnRule(rq.format) && NameOf(formats, rq.format) == None
    requires !a.failed && lib.accepts(0, a.data) && lib.convert(0, 0, a.data) == Some(d)
    ensures Settle(lib, formats, rq, a) == [Write(rq.file, Front(d, a.room)), Close(rq.file)]
  {
    assert Ids(lib, formats, rq) == (0, 0);
  }

  lemma ListSnoc(lib: X.Library, formats: seq<Format>)
    ensures After(lib, [OnServerList(formats)]) == State(formats, []) && Done(lib, [OnServerList(formats)]) == []
  {
    var none: seq<Event> := [];
    assert [OnServerList(formats)] == none + [OnServerList(formats)];
    RunSnoc(lib, none, OnServerList(formats));
  }

  lemma TakeSnoc(lib: X.Library, es: seq<Event>, a: Response)
    requires |After(lib, es).queue| > 0
    ensures Done(lib, es + [OnResponse(a)]) ==
            Done(lib, es) + Settle(lib, After(lib, es).serverFormats, After(lib, es).queue[0], a)
  {
    RunSnoc(lib, es, OnResponse(a));
    StepRecord(lib, After(lib, es), OnResponse(a));
  }

  /** A run in which a TIFF image is asked for: its answer is handed on by a conversion from id 0 to id 0. */
  lemma TiffConvertedAsRaw(lib: X.Library, formats: seq<Format>, mime: bytes, file: nat, a: Response, d: bytes)
    requires Wanted(formats, mime) == Some((X.CF_TIFF, mime)) && NameOf(formats, X.CF_TIFF) == None
    requires !a.failed && lib.accepts(0, a.data) && lib.convert(0, 0, a.data) == Some(d)
    ensures var es := [OnServerList(formats)] + [OnTransfer(mime, Some(file), true, true)] + [OnResponse(a)];
            Done(lib, es) == [Write(file, Front(d, a.room)), Close(file)]
  {
    var list, transfer := [OnServerList(formats)], OnTransfer(mime, Some(file), true, true);
    ListSnoc(lib, formats);
    RequestSnoc(lib, list, mime, file, true, X.CF_TIFF, mime);
    TakeSnoc(lib, list + [transfer], a);
    NoIdsSettle(lib, formats, Request(file, X.CF_TIFF, mime), a, d);
  }

  lemma ListAgainSnoc(lib: X.Library, es: seq<Event>, formats: seq<Format>)
    ensures var s := After(lib, es);
            && After(lib, es + [OnServerList(formats)]) == State(formats, s.queue)
            && Done(lib, es + [OnServerList(formats)]) == Done(lib, es)
  {
    RunSnoc(lib, es, OnServerList(formats));
  }

  /** A run in which the server's list is emptied between an HTML request and its answer: the answer is no longer known
      as HTML, and is handed on by a conversion from id 0 to id 0. */
  lemma ListChangeLosesName(lib: X.Library, formats: seq<Format>, file: nat, a: Response, d: bytes)
    requires !HasOwnRule(IdOf(formats, X.HTML_FORMAT))
    requires !a.failed && lib.accepts(0, a.data) && lib.convert(0, 0, a.data) == Some(d)
    ensures var es := [OnServerList(formats)] + [OnTransfer(X.MIME_HTML, Some(file), true, true)] + [OnServerList([])]
                      + [OnResponse(a)];
            Done(lib, es) == [Write(file, Front(d, a.room)), Close(file)]
  {
    var list, transfer := [OnServerList(formats)], OnTransfer(X.MIME_HTML, Some(file), true, true);
    var id := IdOf(formats, X.HTML_FORMAT);
    ListSnoc(lib, formats);
    RequestSnoc(lib, list, X.MIME_HTML, file, true, id, X.MIME_HTML);
    ListAgainSnoc(lib, list + [transfer], []);
    TakeSnoc(lib, list + [transfer] + [OnServerList([])], a);
    NoIdsSettle(lib, [], Request(file, id, X.MIME_HTML), a, d);
  }

  class Clipboard {
    const lib: X.Library
    var serverFormats: seq<Format>
    var requestQueue: seq<Request>
    var actions: seq<Action>  // what was asked of the channel and done to files

    ghost function View(): State
      reads this
    {
      State(serverFormats, requestQueue)
    }

    constructor (lib: X.Library)
      ensures this.lib == lib && View() == Init && actions == []
    {
      this.lib, serverFormats, requestQueue, actions := lib, [], [], [];
    }

    method ServerFormatId(name: bytes) returns (id: nat)
      ensures id == IdOf(serverFormats, name)
    {
      for x := 0 to |serverFormats|
        invariant IdOf(serverFormats, name) == IdOf(serverFormats[x..], name)
      {
        assert serverFormats[x..][1..] == serverFormats[x + 1..];
        if serverFormats[x].name == Some(name) { return serverFormats[x].id; }
      }
      return 0;
    }

    method ServerFormatName(id: nat) returns (name: Option<bytes>)
      ensures name == NameOf(serverFormats, id)
    {
      for x := 0 to |serverFormats|
        invariant NameOf(serverFormats, id) == NameOf(serverFormats[x..], id)
      {
        assert serverFormats[x..][1..] == serverFormats[x + 1..];
        if serverFormats[x].id == id { return serverFormats[x].name; }
      }
      return None;
    }

    /** The request is queued before it is sent, and stays queued when sending fails. */
    method SendDataRequest(rq: Request, queued: bool, sent: bool) returns (ok: bool)
      modifies this
      ensures ok == (queued && sent) && serverFormats == old(serverFormats)
      ensures requestQueue == old(requestQueue) + if queued then [rq] else []
      ensures actions == old(actions) + if queued && sent then [Ask(rq.format)] else []
    {
      if !queued { return false; }
      requestQueue := requestQueue + [rq];
      if sent { actions := actions + [Ask(rq.format)]; }
      return sent;
    }

    method ClassifyMime(mime: bytes) returns (wanted: Option<(nat, bytes)>)
      ensures wanted == Wanted(serverFormats, mime)
    {
      if mime == X.MIME_HTML {
        var id := ServerFormatId(X.HTML_FORMAT);
        return Some((id, X.MIME_HTML));
      }
      if mime in FileMimes() {
        var id := ServerFormatId(X.FILE_GROUP_DESCRIPTOR);
        return Some((id, mime));
      }
      if mime in TextMimes() { return Some((X.CF_UNICODETEXT, X.Ascii("text/plain"))); }
      if mime in ImageMimes() { return Some((if mime == X.Ascii("image/tiff") then X.CF_TIFF else X.CF_DIB, mime)); }
      return None;
    }

    method TransferData(mime: bytes, file: Option<nat>, queued: bool, sent: bool)
      modifies this
      ensures View() == Transfer(old(View()), mime, file, queued, sent).state
      ensures actions == old(actions) + Transfer(old(View()), mime, file, queued, sent).actions
    {
      var wanted := ClassifyMime(mime);
      if wanted.Some? && file.Some? {
        var ok := SendDataRequest(Request(file.value, wanted.value.0, wanted.value.1), queued, sent);
      }
    }

    /** Source and destination id for a response, and whether it is a file list. */
    method ResponseIds(rq: Request) returns (src: nat, dst: nat, files: bool)
      ensures (src, dst) == Ids(lib, serverFormats, rq) && files == IsFileList(serverFormats, rq)
    {
      src, dst, files := 0, 0, false;
      if X.IsText(rq.format) || rq.format == X.CF_DIB || rq.format == CF_DIBV5 {
        src, dst := rq.format, lib.formatId(rq.mime);
      } else {
        var name := ServerFormatName(rq.format);
        if name == Some(X.FILE_GROUP_DESCRIPTOR) {
          src, dst, files := lib.formatId(X.FILE_GROUP_DESCRIPTOR), lib.formatId(rq.mime), true;
        } else if name == Some(X.HTML_FORMAT) {
          src, dst := lib.formatId(X.HTML_FORMAT), lib.formatId(rq.mime);
        }
      }
    }

    method ServerDataResponse(a: Response) returns (ok: bool)
      modifies this
      ensures ok == Reported(lib, old(View()), a)
      ensures View() == TakeResponse(lib, old(View()), a).state
      ensures actions == old(actions) + TakeResponse(lib, old(View()), a).actions
    {
      if |requestQueue| == 0 { return false; }
      var rq := requestQueue[0];
      requestQueue := requestQueue[1..];
      var data := None;
      if !a.failed {
        var src, dst, files := ResponseIds(rq);
        if (files ==> a.filesOk) && lib.accepts(src, a.data) { data := lib.convert(src, dst, a.data); }
      }
      assert data == Content(lib, serverFormats, rq, a);
      ok := a.failed;
      if data.Some? {
        var written := Front(data.value, a.room);
        ok := |written| == |data.value|;
        actions := actions + [Write(rq.file, written)];
      }
      actions := actions + [Close(rq.file)];
    }

    method Handle(e: Event)
      modifies this
      ensures View() == Step(lib, old(View()), e).state && actions == old(actions) + Step(lib, old(View()), e).actions
    {
      match e {
        case OnTransfer(mime, file, queued, sent) => TransferData(mime, file, queued, sent);
        case OnResponse(a) => var ok := ServerDataResponse(a);
        case OnServerList(formats) => serverFormats := formats;
        case OnDataRequest(id, data, filesOk) =>
          var answer := AnswerDataRequest(id, data, filesOk);
          actions := actions + [Respond(answer)];
      }
    }

    /** A whole run: what the object does to files and answers the server is that of the runs above. */
    method HandleAll(es: seq<Event>)
      requires View() == Init && actions == []
      modifies this
      ensures View() == After(lib, es) && FileActions(actions) == Done(lib, es)
              && RespondedBy(actions) == Replies(lib, es)
    {
      for i := 0 to |es|
        invariant View() == After(lib, es[..i])
        invariant FileActions(actions) == Done(lib, es[..i]) && RespondedBy(actions) == Replies(lib, es[..i])
      {
        assert es[..i + 1][..i] == es[..i];
        FileActionsConcat(actions, Step(lib, View(), es[i]).actions);
        RespondedConcat(actions, Step(lib, View(), es[i]).actions);
        Handle(es[i]);
      }
      assert es[..|es|] == es;
    }

    /** The handler for a data request of the server; `data` is what the local clipboard holds. */
    method AnswerDataRequest(id: nat, data: Option<bytes>, filesOk: bool) returns (answer: Option<bytes>)
      ensures answer == Answer(lib, id, data, filesOk)
    {
      var fileId, htmlId := lib.formatId(X.FILE_GROUP_DESCRIPTOR), lib.formatId(X.HTML_FORMAT);
      var local := id;
      if X.IsText(id) {
        local := lib.formatId(X.Ascii("text/plain"));
      } else if id != X.CF_DIB && id != CF_DIBV5 && id != X.CF_TIFF {
        if id == fileId {
          local := lib.formatId(X.Ascii("text/uri-list"));
        } else if id == htmlId {
          local := lib.formatId(X.MIME_HTML);
        } else {
          return None;
        }
      }
      if data.None? || (id == fileId && !filesOk) { return None; }
      var d := None;
      if lib.accepts(local, data.value) { d := lib.convert(local, id, data.value); }
      if d.None? { return None; }
      answer := None;
      if id == fileId { answer := lib.fileList(d.value); }
    }
  }

  lemma {:induction false} FileActionsConcat(a: seq<Action>, b: seq<Action>)
    ensures FileActions(a + b) == FileActions(a) + FileActions(b)
  {
    if |b| == 0 {
      assert a + b == a;
    } else {
      assert (a + b)[..|a + b| - 1] == a + b[..|b| - 1];
      FileActionsConcat(a, b[..|b| - 1]);
    }
  }

  lemma {:induction false} RespondedConcat(a: seq<Action>, b: seq<Action>)
    ensures RespondedBy(a + b) == RespondedBy(a) + RespondedBy(b)
  {
    if |b| == 0 {
      assert a + b == a;
    } else {
      assert (a + b)[..|a + b| - 1] == a + b[..|b| - 1];
      RespondedConcat(a, b[..|b| - 1]);
    }
  }
}
