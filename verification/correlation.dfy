/** `GetOrCreateCorrelationId`: reuses an identifier the request already carries,
    or generates one and announces it on the response. The freshly generated
    identifier (`Guid.NewGuid()`) is a parameter. */
module Correlation {
  import opened Wrappers
  import opened Headers
  import Options
  import Ascii

  /** Well-known request headers consulted, in this order, after the
      configured one. */
  const CommonHeaders: seq<string> := ["X-Request-ID", "Correlation-Id", "Request-Id", "traceparent"]

  /** The index of the first name in `names` that the headers carry, or
      `|names|` when they carry none of them. */
  function FirstPresentIndex(hs: seq<Header>, names: seq<string>): (k: nat)
    ensures k <= |names|
    ensures forall j :: 0 <= j < k ==> Lookup(hs, names[j]).None?
    ensures k < |names| ==> Lookup(hs, names[k]).Some?
  {
    if |names| == 0 || Lookup(hs, names[0]).Some? then 0
    else
      var k := FirstPresentIndex(hs, names[1..]);
      assert forall j :: 1 <= j < |names| ==> names[j] == names[1..][j - 1];
      1 + k
  }

  /** The value of the first name in `names` that the headers carry. */
  function FirstPresent(hs: seq<Header>, names: seq<string>): Option<string> {
    var k := FirstPresentIndex(hs, names);
    if k < |names| then Lookup(hs, names[k]) else None
  }

  /** The identifier the request already carries, if the options allow
      reusing one: the configured header first, then the well-known ones. */
  function Existing(o: Options.LoggerOptions, request: seq<Header>): (r: Option<string>)
    ensures !o.useExistingCorrelationId ==> r.None?
    ensures o.useExistingCorrelationId && Lookup(request, o.correlationIdHeader).Some? ==>
              r == Lookup(request, o.correlationIdHeader)
    ensures o.useExistingCorrelationId && Lookup(request, o.correlationIdHeader).None? ==>
              (r.None? <==> forall i :: 0 <= i < |CommonHeaders| ==> Lookup(request, CommonHeaders[i]).None?)
  {
    if !o.useExistingCorrelationId then None
    else
      match Lookup(request, o.correlationIdHeader)
      case Some(v) => Some(v)
      case None => FirstPresent(request, CommonHeaders)
  }

  /** The identifier chosen and the response headers afterwards. */
  datatype Resolution = Resolution(id: string, responseHeaders: seq<Header>)

  function Resolve(o: Options.LoggerOptions, request: seq<Header>, response: seq<Header>, newId: string)
    : (r: Resolution)
    ensures Existing(o, request).Some? ==>
              r.id == Existing(o, request).value && r.responseHeaders == response
    ensures Existing(o, request).None? && !o.enableCorrelationId ==>
              r.id == "" && r.responseHeaders == response
    ensures Existing(o, request).None? && o.enableCorrelationId ==>
              r.id == newId && Lookup(r.responseHeaders, o.correlationIdHeader) == Some(newId)
    ensures forall n :: !Ascii.EqualsIgnoreCase(n, o.correlationIdHeader) ==>
              Lookup(r.responseHeaders, n) == Lookup(response, n)
  {
    match Existing(o, request)
    case Some(id) => Resolution(id, response)
    case None =>
      if !o.enableCorrelationId then Resolution("", response)
      else Resolution(newId, Set(response, o.correlationIdHeader, newId))
  }

  /** Reusing an identifier is taking the first present header among the
      configured one followed by the well-known ones. */
  lemma ExistingIsFirstOfAll(o: Options.LoggerOptions, request: seq<Header>)
    requires o.useExistingCorrelationId
    ensures Existing(o, request) == FirstPresent(request, [o.correlationIdHeader] + CommonHeaders)
  {
    assert ([o.correlationIdHeader] + CommonHeaders)[1..] == CommonHeaders;
  }

  /** The configured header wins over every well-known one, and no response
      header is written. */
  lemma ConfiguredHeaderWins(o: Options.LoggerOptions, request: seq<Header>, response: seq<Header>,
                             newId: string, v: string)
    requires o.useExistingCorrelationId
    requires Lookup(request, o.correlationIdHeader) == Some(v)
    ensures Resolve(o, request, response, newId) == Resolution(v, response)
  {
  }

  /** Without the configured header, the first well-known header present wins. */
  lemma FallbackInOrder(o: Options.LoggerOptions, request: seq<Header>, response: seq<Header>,
                        newId: string, i: int)
    requires o.useExistingCorrelationId
    requires Lookup(request, o.correlationIdHeader).None?
    requires 0 <= i < |CommonHeaders| && Lookup(request, CommonHeaders[i]).Some?
    requires forall j :: 0 <= j < i ==> Lookup(request, CommonHeaders[j]).None?
    ensures Resolve(o, request, response, newId)
            == Resolution(Lookup(request, CommonHeaders[i]).value, response)
  {
    var k := FirstPresentIndex(request, CommonHeaders);
    assert k == i;
  }

  /** When reuse is off, the request headers are never consulted. */
  lemma RequestIgnoredWithoutReuse(o: Options.LoggerOptions, r1: seq<Header>, r2: seq<Header>,
                                   response: seq<Header>, newId: string)
    requires !o.useExistingCorrelationId
    ensures Resolve(o, r1, response, newId) == Resolve(o, r2, response, newId)
  {
  }

  /** Nothing to reuse and generation disabled: the empty identifier, and the
      response headers untouched. */
  lemma DisabledGivesEmpty(o: Options.LoggerOptions, request: seq<Header>, response: seq<Header>,
                           newId: string)
    requires !o.enableCorrelationId
    requires o.useExistingCorrelationId ==> Lookup(request, o.correlationIdHeader).None?
    requires o.useExistingCorrelationId ==>
               forall i :: 0 <= i < |CommonHeaders| ==> Lookup(request, CommonHeaders[i]).None?
    ensures Resolve(o, request, response, newId) == Resolution("", response)
  {
  }
}
