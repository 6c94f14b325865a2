/** `CaptureRequest` and `CaptureResponse`: the texts logged for a request and
    for a response. Bodies are character sequences with a read position, the
    way the middleware sees a buffered request body and its `MemoryStream`
    response buffer once decoded. */
module Capture {
  import opened Wrappers
  import opened Headers
  import Masker
  import Options

  /** A seekable body: its content and the current read/write position. */
  datatype Stream = Stream(data: string, position: nat)

  /** Reads from the current position to the end; a position past the end
      reads nothing. */
  function ReadToEnd(s: Stream): (r: string)
    ensures s.position == 0 ==> r == s.data
    ensures s.position <= |s.data| ==> r == s.data[s.position..]
    ensures |r| + s.position == |s.data| || (r == [] && s.position >= |s.data|)
  {
    if s.position <= |s.data| then s.data[s.position..] else []
  }

  /** The line terminator `AppendLine` writes. */
  const NewLine: string := "\n"

  /** The placeholder logged when response bodies are not logged. */
  const ResponseDisabled: string := "Response body logging disabled"

  function HeaderLine(h: Header): string {
    "Header: " + h.name + "=" + h.value + " "
  }

  /** One `Header: name=value ` per header, in collection order. */
  function HeadersText(hs: seq<Header>): string {
    if |hs| == 0 then "" else HeaderLine(hs[0]) + HeadersText(hs[1..])
  }

  lemma {:induction false} HeadersTextAppend(hs: seq<Header>, h: Header)
    ensures HeadersText(hs + [h]) == HeadersText(hs) + HeaderLine(h)
  {
    if |hs| == 0 {
      assert HeadersText([h]) == HeaderLine(h) + HeadersText([]);
    } else {
      assert (hs + [h])[1..] == hs[1..] + [h];
      HeadersTextAppend(hs[1..], h);
    }
  }

  /** The `foreach` over the request headers appending to the builder: the
      loop builds exactly `HeadersText`, the header section `HeaderPart`
      logs, which the rest of the model uses directly. */
  method RenderHeaders(hs: seq<Header>) returns (text: string)
    ensures text == HeadersText(hs)
  {
    text := "";
    for i := 0 to |hs|
      invariant text == HeadersText(hs[..i])
    {
      HeadersTextAppend(hs[..i], hs[i]);
      assert hs[..i + 1] == hs[..i] + [hs[i]];
      text := text + HeaderLine(hs[i]);
    }
    assert hs[..|hs|] == hs;
  }

  /** The text that goes into the log for a body: masked only when the options
      ask for it. */
  function LoggedText(o: Options.LoggerOptions, codec: Masker.Codec, text: string): (r: string)
    ensures !o.maskSensitiveData ==> r == text
    ensures o.maskSensitiveData ==> r == Masker.Mask(text, o.sensitiveFields, codec)
    ensures o.maskSensitiveData && codec.parse(text).None? ==> r == text
  {
    if o.maskSensitiveData then Masker.Mask(text, o.sensitiveFields, codec) else text
  }

  /** The request as the middleware sees it; `verb` is the HTTP method. The
      query string includes its leading `?`, and the empty string means there
      is none. */
  datatype Request = Request(verb: string, path: Option<string>, query: string,
                             headers: seq<Header>, body: Stream)

  /** The logged request text and the request body left for downstream. */
  datatype RequestCapture = RequestCapture(text: string, body: Stream)

  function CaptureRequest(o: Options.LoggerOptions, codec: Masker.Codec, req: Request): (r: RequestCapture)
    ensures r.body.data == req.body.data
    ensures o.logRequestBody ==> r.body.position == 0
    ensures !o.logRequestBody ==> r.body == req.body
    ensures !o.logHeaders && !o.logQueryString && !o.logRequestBody ==> r.text == ""
    ensures o.logHeaders ==> HeadersText(req.headers) <= r.text
    ensures o.logRequestBody ==>
              |r.text| >= |NewLine| && r.text[|r.text| - |NewLine|..] == NewLine
  {
    var text := HeaderPart(o, req) + QueryPart(o, req) + BodyPart(o, codec, req);
    assert o.logHeaders ==> text[..|HeadersText(req.headers)|] == HeadersText(req.headers);
    RequestCapture(text, if o.logRequestBody then Stream(req.body.data, 0) else req.body)
  }

  function HeaderPart(o: Options.LoggerOptions, req: Request): string {
    if o.logHeaders then HeadersText(req.headers) else ""
  }

  function QueryPart(o: Options.LoggerOptions, req: Request): string {
    if o.logQueryString && |req.query| > 0 then "QueryString: " + req.query + " " else ""
  }

  /** The request body is read from its current position to the end. */
  function BodyPart(o: Options.LoggerOptions, codec: Masker.Codec, req: Request): string {
    if o.logRequestBody then "Body: " + LoggedText(o, codec, ReadToEnd(req.body)) + NewLine else ""
  }

  /** Turning `LogHeaders` on puts exactly the header lines in front of what
      is logged otherwise. */
  lemma HeaderSection(o: Options.LoggerOptions, codec: Masker.Codec, req: Request)
    ensures CaptureRequest(o.(logHeaders := true), codec, req).text
            == HeadersText(req.headers) + CaptureRequest(o.(logHeaders := false), codec, req).text
  {
    var on, off := o.(logHeaders := true), o.(logHeaders := false);
    assert QueryPart(on, req) == QueryPart(off, req) && BodyPart(on, codec, req) == BodyPart(off, codec, req);
    assert HeaderPart(on, req) == HeadersText(req.headers) && HeaderPart(off, req) == "";
  }

  /** Turning `LogQueryString` on adds the query right after the header
      lines when there is a query... */
  lemma QuerySectionPresent(o: Options.LoggerOptions, codec: Masker.Codec, req: Request)
    requires |req.query| > 0
    ensures CaptureRequest(o.(logQueryString := true), codec, req).text
            == HeaderPart(o, req) + ("QueryString: " + req.query + " ") + BodyPart(o, codec, req)
    ensures CaptureRequest(o.(logQueryString := false), codec, req).text
            == HeaderPart(o, req) + BodyPart(o, codec, req)
  {
    var on, off := o.(logQueryString := true), o.(logQueryString := false);
    assert HeaderPart(on, req) == HeaderPart(o, req) && HeaderPart(off, req) == HeaderPart(o, req);
    assert BodyPart(on, codec, req) == BodyPart(o, codec, req);
    assert BodyPart(off, codec, req) == BodyPart(o, codec, req);
    assert QueryPart(off, req) == "";
    assert QueryPart(on, req) == "QueryString: " + req.query + " ";
  }

  /** ...and nothing when there is none. */
  lemma QuerySectionAbsent(o: Options.LoggerOptions, codec: Masker.Codec, req: Request)
    requires |req.query| == 0
    ensures CaptureRequest(o.(logQueryString := true), codec, req).text
            == CaptureRequest(o.(logQueryString := false), codec, req).text
  {
    var on, off := o.(logQueryString := true), o.(logQueryString := false);
    assert HeaderPart(on, req) == HeaderPart(off, req);
    assert BodyPart(on, codec, req) == BodyPart(off, codec, req);
    assert QueryPart(on, req) == "" && QueryPart(off, req) == "";
  }

  /** Turning `LogRequestBody` on appends the (possibly masked) unread part of
      the body and a line break after everything else. */
  lemma BodySection(o: Options.LoggerOptions, codec: Masker.Codec, req: Request)
    ensures CaptureRequest(o.(logRequestBody := true), codec, req).text
            == CaptureRequest(o.(logRequestBody := false), codec, req).text
               + "Body: " + LoggedText(o, codec, ReadToEnd(req.body)) + NewLine
  {
    var on, off := o.(logRequestBody := true), o.(logRequestBody := false);
    assert HeaderPart(on, req) == HeaderPart(off, req) && QueryPart(on, req) == QueryPart(off, req);
    assert LoggedText(on, codec, ReadToEnd(req.body)) == LoggedText(o, codec, ReadToEnd(req.body));
    assert BodyPart(off, codec, req) == "";
  }

  /** Masking changes the logged text only: the body handed on is the same. */
  lemma MaskingLeavesBodyAlone(o: Options.LoggerOptions, codec: Masker.Codec, req: Request)
    ensures CaptureRequest(o.(maskSensitiveData := true), codec, req).body
            == CaptureRequest(o.(maskSensitiveData := false), codec, req).body
  {
  }

  /** The logged response text and the buffer afterwards. */
  datatype ResponseCapture = ResponseCapture(text: string, buffer: Stream)

  function CaptureResponse(o: Options.LoggerOptions, codec: Masker.Codec, buffer: Stream): (r: ResponseCapture)
    ensures !o.logResponseBody ==> r.text == ResponseDisabled && r.buffer == buffer
    ensures o.logResponseBody ==> r.buffer == Stream(buffer.data, 0)
    ensures o.logResponseBody && !o.maskSensitiveData ==> r.text == buffer.data
    ensures o.logResponseBody && o.maskSensitiveData ==>
              r.text == Masker.Mask(buffer.data, o.sensitiveFields, codec)
  {
    if !o.logResponseBody then ResponseCapture(ResponseDisabled, buffer)
    else
      var text := ReadToEnd(Stream(buffer.data, 0));
      ResponseCapture(LoggedText(o, codec, text), Stream(buffer.data, 0))
  }

  /** Masking is off by default: with the default options the logged
      response text is the buffer's content as it stands. */
  lemma DefaultsLogUnmaskedResponse(codec: Masker.Codec, buffer: Stream)
    ensures CaptureResponse(Options.Defaults(), codec, buffer).text == buffer.data
  {
  }
}
