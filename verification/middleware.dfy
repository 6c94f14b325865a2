/** `RequestResponseLoggingMiddleware.InvokeAsync`: one exchange as a pure
    function from the options, the request, the downstream stage's outcome and
    the values the runtime supplies (a fresh identifier, the elapsed time) to
    the trace of what the middleware did and what it left behind. */
module Middleware {
  import opened Wrappers
  import opened Headers
  import opened Capture
  import Ascii
  import Correlation
  import Masker
  import Options

  /** `IgnoredPaths.Any(p => path.StartsWith(p, OrdinalIgnoreCase))`. */
  function IsIgnored(prefixes: seq<string>, path: string): (r: bool)
    ensures r <==> exists i :: 0 <= i < |prefixes| && Ascii.StartsWithIgnoreCase(path, prefixes[i])
  {
    if |prefixes| == 0 then false
    else
      assert forall i :: 1 <= i < |prefixes| ==> prefixes[i] == prefixes[1..][i - 1];
      Ascii.StartsWithIgnoreCase(path, prefixes[0]) || IsIgnored(prefixes[1..], path)
  }

  /** What the downstream stage did: it returned, having set a status code and
      written `written` to the response body, with an exception-handler feature
      carrying `handledError` possibly present afterwards; or it threw `error`
      after writing `written`. */
  datatype Outcome =
    | Returned(status: int, written: string, handledError: Option<string>)
    | Threw(error: string, written: string)

  datatype Level = Information | Error

  /** The arguments of the one logging call. */
  datatype LogRecord = LogRecord(level: Level, error: Option<string>, verb: string, path: string,
                                 status: int, elapsedMs: nat, correlationId: string,
                                 request: string, response: string)

  /** The observable steps of an exchange. `DownstreamCalled` records the
      request body the downstream stage receives and whether its response body
      is the capture buffer. */
  datatype Event =
    | CorrelationResolved(id: string)
    | TimerStarted
    | RequestCaptured(text: string)
    | BodySwapped
    | DownstreamCalled(requestBody: Stream, buffered: bool)
    | TimerStopped
    | ResponseCaptured(text: string)
    | Logged(record: LogRecord)
    | BodyCopied(bytes: string)

  datatype Kind = ResolveId | Start | CaptureReq | Swap | Call | Stop | CaptureResp | Log | Copy

  function KindOf(e: Event): Kind {
    match e
    case CorrelationResolved(_) => ResolveId
    case TimerStarted => Start
    case RequestCaptured(_) => CaptureReq
    case BodySwapped => Swap
    case DownstreamCalled(_, _) => Call
    case TimerStopped => Stop
    case ResponseCaptured(_) => CaptureResp
    case Logged(_) => Log
    case BodyCopied(_) => Copy
  }

  function Kinds(trace: seq<Event>): (r: seq<Kind>)
    ensures |r| == |trace|
  {
    seq(|trace|, i requires 0 <= i < |trace| => KindOf(trace[i]))
  }

  /** The state an exchange leaves behind: the trace, the response headers,
      `Items["CorrelationId"]`, everything the real response body received
      (starting from `served`, what it held before), and the exception that
      leaves the middleware, if any. */
  datatype Exchange = Exchange(trace: seq<Event>, responseHeaders: seq<Header>,
                               correlationItem: Option<string>, servedBody: string,
                               propagated: Option<string>)

  /** Where copying the capture buffer to the real body starts: at the
      buffer's current position, as `Stream.CopyToAsync` does, or at its start. */
  datatype CopyFrom = CurrentPosition | BufferStart

  function Run(copy: CopyFrom, o: Options.LoggerOptions, codec: Masker.Codec, req: Request,
               response: seq<Header>, served: string, newId: string, outcome: Outcome,
               elapsedMs: nat): (x: Exchange)
    ensures x.propagated.Some? <==> outcome.Threw?
    ensures outcome.Threw? ==> x.propagated == Some(outcome.error)
    ensures IsIgnored(o.ignoredPaths, req.path.GetOr("")) ==>
              x.servedBody == served + outcome.written && x.correlationItem.None?
              && x.responseHeaders == response
    ensures served <= x.servedBody
  {
    var path := req.path.GetOr("");
    if IsIgnored(o.ignoredPaths, path) then
      Exchange([DownstreamCalled(req.body, false)], response, None, served + outcome.written,
               if outcome.Threw? then Some(outcome.error) else None)
    else
      var res := Correlation.Resolve(o, req.headers, response, newId);
      var item := if |res.id| > 0 then Some(res.id) else None;
      var rc := CaptureRequest(o, codec, req);
      var before := [CorrelationResolved(res.id), TimerStarted, RequestCaptured(rc.text), BodySwapped,
                     DownstreamCalled(rc.body, true)];
      match outcome
      case Threw(e, _) =>
        Exchange(before, res.responseHeaders, item, served, Some(e))
      case Returned(status, written, handled) =>
        var cr := CaptureResponse(o, codec, Stream(written, |written|));
        var level := if handled.Some? then Error else Information;
        var record := LogRecord(level, handled, req.verb, path, status, elapsedMs, res.id, rc.text, cr.text);
        var bytes := ReadToEnd(if copy == BufferStart then Stream(cr.buffer.data, 0) else cr.buffer);
        Exchange(before + [TimerStopped, ResponseCaptured(cr.text), Logged(record), BodyCopied(bytes)],
                 res.responseHeaders, item, served + bytes, None)
  }

  /** The exchange as the middleware performs it, copying the buffer from its
      current position. */
  function InvokeAsWritten(o: Options.LoggerOptions, codec: Masker.Codec, req: Request,
                           response: seq<Header>, served: string, newId: string, outcome: Outcome,
                           elapsedMs: nat): (x: Exchange)
    ensures !IsIgnored(o.ignoredPaths, req.path.GetOr("")) && !o.logResponseBody && outcome.Returned? ==>
              x.servedBody == served
    ensures o.logResponseBody && outcome.Returned? ==> x.servedBody == served + outcome.written
  {
    Run(CurrentPosition, o, codec, req, response, served, newId, outcome, elapsedMs)
  }

  /** The exchange with the buffer copied from its start. */
  function Invoke(o: Options.LoggerOptions, codec: Masker.Codec, req: Request,
                  response: seq<Header>, served: string, newId: string, outcome: Outcome,
                  elapsedMs: nat): (x: Exchange)
    ensures outcome.Returned? ==> x.servedBody == served + outcome.written
  {
    Run(BufferStart, o, codec, req, response, served, newId, outcome, elapsedMs)
  }

  /** An ignored path is a full bypass: downstream is called once with the
      untouched request body and the real response body, and nothing else
      happens: no correlation id, no capture, no swap, no log record. */
  lemma IgnoredPathBypasses(copy: CopyFrom, o: Options.LoggerOptions, codec: Masker.Codec, req: Request,
                            response: seq<Header>, served: string, newId: string, outcome: Outcome,
                            elapsedMs: nat)
    requires IsIgnored(o.ignoredPaths, req.path.GetOr(""))
    ensures var x := Run(copy, o, codec, req, response, served, newId, outcome, elapsedMs);
            && x.trace == [DownstreamCalled(req.body, false)]
            && x.responseHeaders == response
            && x.correlationItem.None?
            && x.servedBody == served + outcome.written
  {
  }

  /** An empty prefix in the ignore list bypasses every path. */
  lemma EmptyPrefixIgnoresAll(prefixes: seq<string>, path: string)
    requires "" in prefixes
    ensures IsIgnored(prefixes, path)
  {
    var i :| 0 <= i < |prefixes| && prefixes[i] == "";
    Ascii.EmptyPrefixMatchesEverything(path);
  }

  /** By default no path is ignored. */
  lemma DefaultsIgnoreNothing(path: string)
    ensures !IsIgnored(Options.Defaults().ignoredPaths, path)
  {
  }

  /** Otherwise, when downstream returns: the correlation id is resolved, the
      timer started, the request captured and the body swapped, downstream
      called, the timer stopped, the response captured, one record logged and
      the buffer copied, in that order. */
  lemma ReturnedOrder(copy: CopyFrom, o: Options.LoggerOptions, codec: Masker.Codec, req: Request,
                      response: seq<Header>, served: string, newId: string, outcome: Outcome,
                      elapsedMs: nat)
    requires !IsIgnored(o.ignoredPaths, req.path.GetOr(""))
    requires outcome.Returned?
    ensures var x := Run(copy, o, codec, req, response, served, newId, outcome, elapsedMs);
            && Kinds(x.trace) == [ResolveId, Start, CaptureReq, Swap, Call, Stop, CaptureResp, Log, Copy]
            && x.propagated.None?
  {
  }

  /** When downstream throws, nothing after the call happens: no response
      capture, no log record, no copy, and the exception leaves the middleware. */
  lemma ThrewStopsAtCall(copy: CopyFrom, o: Options.LoggerOptions, codec: Masker.Codec, req: Request,
                         response: seq<Header>, served: string, newId: string, outcome: Outcome,
                         elapsedMs: nat)
    requires !IsIgnored(o.ignoredPaths, req.path.GetOr(""))
    requires outcome.Threw?
    ensures var x := Run(copy, o, codec, req, response, served, newId, outcome, elapsedMs);
            && Kinds(x.trace) == [ResolveId, Start, CaptureReq, Swap, Call]
            && x.propagated == Some(outcome.error)
            && x.servedBody == served
  {
    var x := Run(copy, o, codec, req, response, served, newId, outcome, elapsedMs);
    var res := Correlation.Resolve(o, req.headers, response, newId);
    var rc := CaptureRequest(o, codec, req);
    assert x.trace == [CorrelationResolved(res.id), TimerStarted, RequestCaptured(rc.text), BodySwapped,
                       DownstreamCalled(rc.body, true)];
  }

  /** Downstream is called exactly once on every path, and at most one record
      is logged: one exactly when the path is not ignored and downstream
      returns. */
  lemma CallOnceLogAtMostOnce(copy: CopyFrom, o: Options.LoggerOptions, codec: Masker.Codec, req: Request,
                              response: seq<Header>, served: string, newId: string, outcome: Outcome,
                              elapsedMs: nat)
    ensures var x := Run(copy, o, codec, req, response, served, newId, outcome, elapsedMs);
            && multiset(Kinds(x.trace))[Call] == 1
            && (multiset(Kinds(x.trace))[Log] == 1 <==>
                  !IsIgnored(o.ignoredPaths, req.path.GetOr("")) && outcome.Returned?)
            && multiset(Kinds(x.trace))[Log] <= 1
  {
    var x := Run(copy, o, codec, req, response, served, newId, outcome, elapsedMs);
    if IsIgnored(o.ignoredPaths, req.path.GetOr("")) {
      IgnoredPathBypasses(copy, o, codec, req, response, served, newId, outcome, elapsedMs);
      assert Kinds(x.trace) == [Call];
      CountKinds(Kinds(x.trace), 0);
    } else if outcome.Threw? {
      ThrewStopsAtCall(copy, o, codec, req, response, served, newId, outcome, elapsedMs);
      CountKinds(Kinds(x.trace), 1);
    } else {
      ReturnedOrder(copy, o, codec, req, response, served, newId, outcome, elapsedMs);
      CountKinds(Kinds(x.trace), 2);
    }
  }

  /** How often the call and the log step occur in each of the three traces. */
  lemma CountKinds(ks: seq<Kind>, shape: nat)
    requires shape == 0 ==> ks == [Call]
    requires shape == 1 ==> ks == [ResolveId, Start, CaptureReq, Swap, Call]
    requires shape == 2 ==> ks == [ResolveId, Start, CaptureReq, Swap, Call, Stop, CaptureResp, Log, Copy]
    requires shape <= 2
    ensures multiset(ks)[Call] == 1
    ensures multiset(ks)[Log] == if shape == 2 then 1 else 0
  {
    if shape == 0 {
      assert multiset(ks) == multiset{Call};
    } else if shape == 1 {
      assert multiset(ks) == multiset{ResolveId, Start, CaptureReq, Swap, Call};
    } else {
      assert multiset(ks) == multiset{ResolveId, Start, CaptureReq, Swap, Call, Stop, CaptureResp, Log, Copy};
    }
  }

  /** The record logged: at Error with the handled exception attached exactly
      when an exception-handler feature is present, at Information otherwise;
      carrying the status, the elapsed time, the resolved correlation id and
      the captured request and response texts. */
  lemma LoggedRecord(copy: CopyFrom, o: Options.LoggerOptions, codec: Masker.Codec, req: Request,
                     response: seq<Header>, served: string, newId: string, outcome: Outcome,
                     elapsedMs: nat)
    requires !IsIgnored(o.ignoredPaths, req.path.GetOr(""))
    requires outcome.Returned?
    ensures var x := Run(copy, o, codec, req, response, served, newId, outcome, elapsedMs);
            var r := x.trace[7].record;
            && x.trace[7].Logged?
            && (r.level == Error <==> outcome.handledError.Some?)
            && r.error == outcome.handledError
            && r.verb == req.verb
            && r.path == req.path.GetOr("")
            && r.status == outcome.status
            && r.elapsedMs == elapsedMs
            && r.correlationId == Correlation.Resolve(o, req.headers, response, newId).id
            && r.request == CaptureRequest(o, codec, req).text
            && r.response == CaptureResponse(o, codec, Stream(outcome.written, |outcome.written|)).text
  {
  }

  /** The downstream stage reads the same request body content, rewound to
      its start whenever the body was logged. */
  lemma DownstreamSeesRequestBody(copy: CopyFrom, o: Options.LoggerOptions, codec: Masker.Codec, req: Request,
                                  response: seq<Header>, served: string, newId: string, outcome: Outcome,
                                  elapsedMs: nat)
    requires !IsIgnored(o.ignoredPaths, req.path.GetOr(""))
    ensures var x := Run(copy, o, codec, req, response, served, newId, outcome, elapsedMs);
            && x.trace[4].DownstreamCalled?
            && x.trace[4].requestBody.data == req.body.data
            && (o.logRequestBody ==> x.trace[4].requestBody.position == 0)
            && x.trace[4].buffered
  {
  }

  /** `Items["CorrelationId"]` holds the resolved id exactly when it is not
      empty; with nothing to reuse and correlation disabled, it is unset and
      the response headers are untouched. */
  lemma CorrelationItem(copy: CopyFrom, o: Options.LoggerOptions, codec: Masker.Codec, req: Request,
                        response: seq<Header>, served: string, newId: string, outcome: Outcome,
                        elapsedMs: nat)
    requires !IsIgnored(o.ignoredPaths, req.path.GetOr(""))
    ensures var x := Run(copy, o, codec, req, response, served, newId, outcome, elapsedMs);
            var id := Correlation.Resolve(o, req.headers, response, newId).id;
            && x.trace[0] == CorrelationResolved(id)
            && (x.correlationItem.Some? <==> id != "")
            && (x.correlationItem.Some? ==> x.correlationItem.value == id)
            && (Correlation.Existing(o, req.headers).None? && !o.enableCorrelationId ==>
                  x.correlationItem.None? && x.responseHeaders == response)
  {
  }

  /** When downstream returns, the real response body receives exactly the
      bytes downstream wrote, once, whatever the options: logging and masking
      never alter the served response. */
  lemma ServedBodyUnchanged(o: Options.LoggerOptions, codec: Masker.Codec, req: Request,
                            response: seq<Header>, served: string, newId: string, outcome: Outcome,
                            elapsedMs: nat)
    requires outcome.Returned?
    ensures Invoke(o, codec, req, response, served, newId, outcome, elapsedMs).servedBody
            == served + outcome.written
    ensures !IsIgnored(o.ignoredPaths, req.path.GetOr("")) ==>
              Invoke(o, codec, req, response, served, newId, outcome, elapsedMs).trace[8]
              == BodyCopied(outcome.written)
  {
  }

  /** As written, with response-body logging off the buffer is never rewound,
      so the copy starts at its end and the real body receives nothing. */
  lemma AsWrittenDropsBodyWhenResponseNotLogged(o: Options.LoggerOptions, codec: Masker.Codec, req: Request,
                                                response: seq<Header>, served: string, newId: string,
                                                outcome: Outcome, elapsedMs: nat)
    requires !IsIgnored(o.ignoredPaths, req.path.GetOr(""))
    requires !o.logResponseBody && outcome.Returned?
    ensures InvokeAsWritten(o, codec, req, response, served, newId, outcome, elapsedMs).servedBody == served
  {
  }

  /** A concrete exchange that shows it: default options with response-body
      logging turned off, downstream writing `ok`. */
  lemma AsWrittenCounterexample(codec: Masker.Codec)
    ensures var o := Options.Defaults().(logResponseBody := false);
            var req := Request("GET", Some("/orders"), "", [], Stream("", 0));
            var outcome := Returned(200, "ok", None);
            && InvokeAsWritten(o, codec, req, [], "", "id", outcome, 0).servedBody == ""
            && Invoke(o, codec, req, [], "", "id", outcome, 0).servedBody == "ok"
  {
    var o := Options.Defaults().(logResponseBody := false);
    DefaultsIgnoreNothing("/orders");
  }
}
