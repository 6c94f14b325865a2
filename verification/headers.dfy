/** A request or response header collection. Names are compared ignoring case,
    as ASP.NET's header dictionary does; a header's values are one string. */
module Headers {
  import opened Wrappers
  import Ascii

  datatype Header = Header(name: string, value: string)

  /** `headers.TryGetValue(name, out value)`: the value of the first header
      whose name equals `name` ignoring case. */
  function Lookup(hs: seq<Header>, name: string): (r: Option<string>)
    ensures r.None? <==> forall i :: 0 <= i < |hs| ==> !Ascii.EqualsIgnoreCase(hs[i].name, name)
    ensures r.Some? ==> exists i :: 0 <= i < |hs| && Ascii.EqualsIgnoreCase(hs[i].name, name)
                                    && hs[i].value == r.value
                                    && forall j :: 0 <= j < i ==> !Ascii.EqualsIgnoreCase(hs[j].name, name)
  {
    if |hs| == 0 then None
    else if Ascii.EqualsIgnoreCase(hs[0].name, name) then Some(hs[0].value)
    else
      assert forall i :: 1 <= i < |hs| ==> hs[i] == hs[1..][i - 1];
      Lookup(hs[1..], name)
  }

  /** `headers[name] = value`: the first header of that name (ignoring case)
      keeps its spelling and takes the new value; without one, a header is
      appended. */
  function Set(hs: seq<Header>, name: string, value: string): (r: seq<Header>)
    ensures Lookup(r, name) == Some(value)
    ensures forall n :: !Ascii.EqualsIgnoreCase(n, name) ==> Lookup(r, n) == Lookup(hs, n)
  {
    if |hs| == 0 then [Header(name, value)]
    else if Ascii.EqualsIgnoreCase(hs[0].name, name) then
      assert ([Header(hs[0].name, value)] + hs[1..])[1..] == hs[1..];
      [Header(hs[0].name, value)] + hs[1..]
    else
      var rest := Set(hs[1..], name, value);
      assert ([hs[0]] + rest)[1..] == rest;
      [hs[0]] + rest
  }
}
