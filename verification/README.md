# Request/response logging middleware, modelled in Dafny

This project models the core of `TLib.Logging.RequestResponseLogging`, an ASP.NET Core middleware. For every exchange that is not on an ignored path, it does the following:

- resolves a correlation id;
- captures the request text (headers, query string, body), masking sensitive JSON fields if configured;
- redirects the response body into a buffer;
- calls the next pipeline stage;
- captures the response text from the buffer;
- writes one log record, at Information or at Error;
- copies the buffer to the real response body.

Everything is modelled as pure functions over immutable datatypes:

- `Masker` (`SensitiveDataMasker`) is a recursive transform from a tagged JSON tree (`JObject` / `JArray` / `JScalar`) to the object graph the masker builds (`MDict` / `MList` / `MString`). A dictionary is filled through its indexer, which is modelled in `Dict` as an insertion-ordered map with ordinal keys.
- `Options` holds `RequestResponseLoggerOptions` and its defaults.
- `Headers` is a case-insensitive header collection. `Lookup` models `TryGetValue`; `Set` models the indexer assignment.
- `Correlation` models `GetOrCreateCorrelationId`.
- `Capture` models `CaptureRequest` and `CaptureResponse`. A body is a `Stream`: a character sequence plus a position.
- `Middleware` models `InvokeAsync`. It maps the options, the request, the downstream stage's `Outcome`, a supplied fresh id and a supplied elapsed time to an `Exchange`. The `Exchange` holds:
  - the event trace;
  - the response headers;
  - `Items["CorrelationId"]`;
  - the bytes served;
  - the exception that propagates, if any.
- `Ascii` supplies the case folding that stands for `StringComparison.OrdinalIgnoreCase`.

When `_next` throws, nothing after the call runs: no response capture, no log record, no copy (`Middleware.ThrewStopsAtCall`).

## Model

| member | source | states |
|---|---|---|
| Options.Defaults | src/TLib.Logging.RequestResponseLogging/RequestResponseLoggerOptions.cs:5-27 | all four log flags default on; masking defaults off; the sensitive fields default to exactly password, token, authorization, apiKey; correlation is enabled and reuses existing ids; the header defaults to X-Correlation-ID; no ignored paths |
| Capture.DefaultsLogUnmaskedResponse | src/TLib.Logging.RequestResponseLogging/RequestResponseLoggerOptions.cs:9 | masking is off by default, so with the default options the logged response text is the buffer content itself |
| Middleware.DefaultsIgnoreNothing | src/TLib.Logging.RequestResponseLogging/RequestResponseLoggerOptions.cs:27 | with the default options no path is bypassed |
| Masker.IsSensitive | src/TLib.Logging.RequestResponseLogging/SensitiveDataMasker.cs:29 | a name is sensitive exactly when some field equals it ignoring case |
| Masker.SensitiveByFolding | src/TLib.Logging.RequestResponseLogging/SensitiveDataMasker.cs:29 | sensitivity is membership of the case-folded name among the case-folded fields |
| Masker.FieldCaseIgnored | src/TLib.Logging.RequestResponseLogging/SensitiveDataMasker.cs:22-50 | two field lists holding the same names up to case mask every document identically |
| Masker.MaskElement | src/TLib.Logging.RequestResponseLogging/SensitiveDataMasker.cs:22-50 | an object becomes a dictionary, an array a list and any other element a string; the node kind is preserved |
| Masker.MaskProps | src/TLib.Logging.RequestResponseLogging/SensitiveDataMasker.cs:27-37 | the loop assigns one entry per property, in document order, keyed by the property's name |
| Masker.Mask | src/TLib.Logging.RequestResponseLogging/SensitiveDataMasker.cs:7-20 | when parsing fails, the input text is returned unchanged; otherwise the result is the serialised masked tree |
| Masker.MaskedObjectKeys | src/TLib.Logging.RequestResponseLogging/SensitiveDataMasker.cs:26-39 | the key set of a masked object equals the set of input property names, compared case-sensitively, each present once |
| Masker.MaskedPropertyValue | src/TLib.Logging.RequestResponseLogging/SensitiveDataMasker.cs:27-37 | for the last property of each name, its key holds the sentinel when the name is sensitive, whatever the value's kind; otherwise it holds the masked value. A later duplicate therefore wins |
| Masker.SensitiveValuesIgnored | src/TLib.Logging.RequestResponseLogging/SensitiveDataMasker.cs:29-32 | the value of a sensitive property is never looked into: objects that differ only there mask identically |
| Masker.MaskedArray | src/TLib.Logging.RequestResponseLogging/SensitiveDataMasker.cs:42-47 | an array maps element-wise: same length, same order, each element masked without any name comparison |
| Masker.MaskedScalar | src/TLib.Logging.RequestResponseLogging/SensitiveDataMasker.cs:49 | a scalar becomes a string holding its raw JSON text |
| Masker.NoFieldsMasksNothing | src/TLib.Logging.RequestResponseLogging/SensitiveDataMasker.cs:22-50 | with an empty field list the result equals the plain conversion: no sentinel; only scalars turn into their raw text |
| Dict.Get | src/TLib.Logging.RequestResponseLogging/SensitiveDataMasker.cs:26 | a key has a value exactly when it is among the keys, and the value is one stored under it |
| Dict.Put | src/TLib.Logging.RequestResponseLogging/SensitiveDataMasker.cs:31-35 | after `dict[k] = v` the key set gains k and k maps to v; a new key is appended at the end |
| Dict.PutOther | src/TLib.Logging.RequestResponseLogging/SensitiveDataMasker.cs:31-35 | assigning a key leaves every other key's value unchanged |
| Dict.PutDistinct | src/TLib.Logging.RequestResponseLogging/SensitiveDataMasker.cs:31-35 | assigning never creates a second entry for a key |
| Dict.PutAllKeys | src/TLib.Logging.RequestResponseLogging/SensitiveDataMasker.cs:27-37 | after a run of assignments the key set is the old one plus every assigned key |
| Dict.PutAllDistinct | src/TLib.Logging.RequestResponseLogging/SensitiveDataMasker.cs:27-37 | a run of assignments keeps keys distinct |
| Dict.PutAllUntouched | src/TLib.Logging.RequestResponseLogging/SensitiveDataMasker.cs:27-37 | a key never assigned keeps its old value |
| Dict.PutAllLastWins | src/TLib.Logging.RequestResponseLogging/SensitiveDataMasker.cs:27-37 | the last assignment to a key determines its value |
| Ascii.Fold | src/TLib.Logging.RequestResponseLogging/RequestResponseLoggingMiddleware.cs:32 | case folding keeps the length and lower-cases each character |
| Ascii.StartsWithIgnoreCaseIsFoldedPrefix | src/TLib.Logging.RequestResponseLogging/RequestResponseLoggingMiddleware.cs:32 | a prefix test ignoring case is a prefix test on the foldings |
| Middleware.IsIgnored | src/TLib.Logging.RequestResponseLogging/RequestResponseLoggingMiddleware.cs:31-32 | a path is ignored exactly when some configured prefix starts it, ignoring case |
| Middleware.EmptyPrefixIgnoresAll | src/TLib.Logging.RequestResponseLogging/RequestResponseLoggingMiddleware.cs:31-32 | an empty entry in the ignore list matches every path |
| Middleware.IgnoredPathBypasses | src/TLib.Logging.RequestResponseLogging/RequestResponseLoggingMiddleware.cs:28-36 | on an ignored path (a null path read as empty) the trace is exactly one downstream call with the untouched body and no buffer; there is no correlation id, no header change, no log record, and the served body gets what downstream wrote |
| Headers.Lookup | src/TLib.Logging.RequestResponseLogging/RequestResponseLoggingMiddleware.cs:143-149 | a name is found exactly when some header has that name ignoring case |
| Headers.Set | src/TLib.Logging.RequestResponseLogging/RequestResponseLoggingMiddleware.cs:158 | after setting a header, looking it up gives the new value; every header with a different name reads as before |
| Correlation.FirstPresentIndex | src/TLib.Logging.RequestResponseLogging/RequestResponseLoggingMiddleware.cs:146-151 | the index of the first name the request carries: every earlier name is absent |
| Correlation.Existing | src/TLib.Logging.RequestResponseLogging/RequestResponseLoggingMiddleware.cs:141-152 | with reuse off there is no existing id; with reuse on, the configured header's value when present; otherwise an id exactly when some well-known header is present (which one: `Correlation.ExistingIsFirstOfAll`) |
| Correlation.Resolve | src/TLib.Logging.RequestResponseLogging/RequestResponseLoggingMiddleware.cs:139-160 | an existing id is returned with the response headers unchanged; with nothing to reuse and correlation disabled the id is empty and the headers are unchanged; otherwise the fresh id is returned and set under the configured header; no other header changes |
| Correlation.ExistingIsFirstOfAll | src/TLib.Logging.RequestResponseLogging/RequestResponseLoggingMiddleware.cs:141-152 | reuse takes the first present header among the configured one followed by X-Request-ID, Correlation-Id, Request-Id, traceparent |
| Correlation.ConfiguredHeaderWins | src/TLib.Logging.RequestResponseLogging/RequestResponseLoggingMiddleware.cs:141-144 | when reuse is on and the configured header is present, its value is the id and no response header is written |
| Correlation.FallbackInOrder | src/TLib.Logging.RequestResponseLogging/RequestResponseLoggingMiddleware.cs:146-151 | without the configured header, the first present well-known header wins and no response header is written |
| Correlation.RequestIgnoredWithoutReuse | src/TLib.Logging.RequestResponseLogging/RequestResponseLoggingMiddleware.cs:141 | with reuse off the request headers never influence the result |
| Correlation.DisabledGivesEmpty | src/TLib.Logging.RequestResponseLogging/RequestResponseLoggingMiddleware.cs:154-155 | with nothing to reuse and correlation disabled the id is empty and the response headers are unchanged |
| Middleware.CorrelationItem | src/TLib.Logging.RequestResponseLogging/RequestResponseLoggingMiddleware.cs:38-40 | `Items["CorrelationId"]` is set, to the resolved id, exactly when that id is not empty; with correlation disabled and no id to reuse it stays unset and the headers are unchanged |
| Capture.ReadToEnd | src/TLib.Logging.RequestResponseLogging/RequestResponseLoggingMiddleware.cs:111-113 | reading from position 0 yields the whole content; from a position within the content it yields exactly the content from that position on; from past the end it yields nothing |
| Capture.HeadersTextAppend | src/TLib.Logging.RequestResponseLogging/RequestResponseLoggingMiddleware.cs:99-100 | the header text of a list extended by one header is the old text plus that header's line |
| Capture.RenderHeaders | src/TLib.Logging.RequestResponseLogging/RequestResponseLoggingMiddleware.cs:97-101 | the loop over the headers yields one `Header: k=v ` line per header, in order |
| Capture.LoggedText | src/TLib.Logging.RequestResponseLogging/RequestResponseLoggingMiddleware.cs:115-116 | logged text is masked exactly when masking is on: then it is the masked text, which is the text itself when it does not parse; with masking off it is the text itself |
| Capture.CaptureRequest | src/TLib.Logging.RequestResponseLogging/RequestResponseLoggingMiddleware.cs:92-122 | the request body keeps its content and is rewound to 0 when it was read; it is untouched otherwise; with every flag off the text is empty; the header lines lead; the body section ends with a line break |
| Capture.HeaderSection | src/TLib.Logging.RequestResponseLogging/RequestResponseLoggingMiddleware.cs:97-101 | turning LogHeaders on prefixes exactly the header lines to the rest of the text |
| Capture.QuerySectionPresent | src/TLib.Logging.RequestResponseLogging/RequestResponseLoggingMiddleware.cs:103-106 | with a query, LogQueryString puts `QueryString: q ` between the header and body sections; without the flag nothing sits there |
| Capture.QuerySectionAbsent | src/TLib.Logging.RequestResponseLogging/RequestResponseLoggingMiddleware.cs:103 | without a query, LogQueryString changes nothing |
| Capture.BodySection | src/TLib.Logging.RequestResponseLogging/RequestResponseLoggingMiddleware.cs:108-119 | turning LogRequestBody on appends `Body: ` plus the possibly masked unread body plus a line break |
| Capture.MaskingLeavesBodyAlone | src/TLib.Logging.RequestResponseLogging/RequestResponseLoggingMiddleware.cs:113-116 | masking affects the logged text only; the body passed downstream is the same either way |
| Capture.CaptureResponse | src/TLib.Logging.RequestResponseLogging/RequestResponseLoggingMiddleware.cs:124-137 | with LogResponseBody off the text is exactly the placeholder and the buffer is untouched; otherwise the whole buffer is read from 0 and left at position 0 with its bytes unchanged; the text is masked only when masking is on |
| Middleware.Run | src/TLib.Logging.RequestResponseLogging/RequestResponseLoggingMiddleware.cs:26-90 | one exchange: an exception propagates exactly when downstream throws, and it is downstream's exception; an ignored path serves what downstream wrote and sets no id or header; the real body only ever grows. The trace is pinned by `Middleware.ReturnedOrder`, `Middleware.ThrewStopsAtCall` and `Middleware.CallOnceLogAtMostOnce` |
| Middleware.InvokeAsWritten | src/TLib.Logging.RequestResponseLogging/RequestResponseLoggingMiddleware.cs:26-90 | `InvokeAsync` as written: with response logging on the real body receives what downstream wrote; with it off, on a logged path, it receives nothing (`Middleware.AsWrittenCounterexample`) |
| Middleware.Invoke | src/TLib.Logging.RequestResponseLogging/RequestResponseLoggingMiddleware.cs:89 | the exchange with the buffer copied from its start: whenever downstream returns, the real body receives exactly what downstream wrote (`Middleware.ServedBodyUnchanged`) |
| Middleware.ReturnedOrder | src/TLib.Logging.RequestResponseLogging/RequestResponseLoggingMiddleware.cs:38-89 | when downstream returns, the steps run in this order: resolve id, start timer, capture request, swap body, call downstream, stop timer, capture response, log, copy; nothing propagates |
| Middleware.ThrewStopsAtCall | src/TLib.Logging.RequestResponseLogging/RequestResponseLoggingMiddleware.cs:52 | when downstream throws, the trace ends at the call; the exception propagates and nothing is copied to the real body |
| Middleware.CountKinds | src/TLib.Logging.RequestResponseLogging/RequestResponseLoggingMiddleware.cs:31-89 | each of the three trace shapes holds one call, and only the full one holds a log step |
| Middleware.CallOnceLogAtMostOnce | src/TLib.Logging.RequestResponseLogging/RequestResponseLoggingMiddleware.cs:31-89 | downstream is called exactly once on every path; exactly one record is logged when the path is not ignored and downstream returns, and none otherwise |
| Middleware.LoggedRecord | src/TLib.Logging.RequestResponseLogging/RequestResponseLoggingMiddleware.cs:59-87 | the record is at Error with the handler feature's error attached exactly when that feature is present, otherwise at Information; it carries the request method and path (a null path as empty), the status, the elapsed time, the resolved id and the captured request and response texts |
| Middleware.DownstreamSeesRequestBody | src/TLib.Logging.RequestResponseLogging/RequestResponseLoggingMiddleware.cs:48-52 | downstream receives the same request body content, rewound when it was logged, and writes into the buffer |
| Middleware.ServedBodyUnchanged | src/TLib.Logging.RequestResponseLogging/RequestResponseLoggingMiddleware.cs:89 | with the copy starting at the buffer's start, the real body receives exactly what downstream wrote, once, whatever the options |
| Middleware.AsWrittenDropsBodyWhenResponseNotLogged | src/TLib.Logging.RequestResponseLogging/RequestResponseLoggingMiddleware.cs:89 | as written, with LogResponseBody off the real body receives nothing: the early return at lines 126-127 never rewinds the buffer |
| Middleware.AsWrittenCounterexample | src/TLib.Logging.RequestResponseLogging/RequestResponseLoggingMiddleware.cs:89 | with the default options and LogResponseBody off, a downstream that writes `ok` serves an empty body as written, and `ok` with the copy from the start |

## Left out

- JSON text parsing and serialisation (`JsonDocument.Parse`, `JsonSerializer.Serialize`) are the two function values of `Masker.Codec`. No grammar or escaping is modelled, and serialising is taken never to throw. Only a parse failure leads to the passthrough.
- `Guid.NewGuid()` is the `newId` parameter. Randomness and uniqueness across exchanges cannot be stated.
- The `Stopwatch` reading is the `elapsedMs` parameter. The trace shows only that the timer starts before request capture and stops right after downstream returns.
- `ILogger` message-template rendering is out. The logging call is the `LogRecord` datatype.
- UTF-8 decoding by `StreamReader`, including byte-order-mark detection, is out. Bodies are character sequences.
- `MemoryStream` disposal is out, and so is the fact that `Response.Body` is never restored to the original stream.
- Full Unicode `OrdinalIgnoreCase` is out. Case-insensitive comparison folds ASCII letters only.
- A header's `StringValues` is one string, so multi-valued headers and their comma joining are out. The header collection is a list searched for its first case-insensitive match, not a dictionary with unique keys.
- `Environment.NewLine` is `"\n"`.
- Downstream is a fixed `Outcome`. Its reads of the request, its changes to response headers and anything it does to `Items` are out.
- Faults while reading a body or capturing are out. The code does not handle them, so they would propagate like a downstream exception.
- `async`/`await` and concurrency across exchanges are out. One exchange is a sequential function.
- `RequestResponseLoggingExtensions.cs` is out. Configuration-section binding and middleware registration have no logic to model.
- Masker: the key order of a masked object is modelled (order of first assignment) but no property about it is proved. Serialised key order is not part of what the masker promises.

## Findings

| source | as written | input that shows it | evidently intended | confidence | as-written member | corrected member |
|---|---|---|---|---|---|---|
| src/TLib.Logging.RequestResponseLogging/RequestResponseLoggingMiddleware.cs:89 | `newBody.CopyToAsync(originalBody)` copies from the buffer's current position. With `LogResponseBody` false, `CaptureResponse` returns at lines 126-127 without rewinding, so the position is still at the end of what downstream wrote | default options with `LogResponseBody = false`, path `/orders`, downstream returns 200 having written `ok`: the client is served an empty body | the client is served `ok`, as when response logging is on | high (not executed) | Middleware.AsWrittenCounterexample | Middleware.ServedBodyUnchanged |
