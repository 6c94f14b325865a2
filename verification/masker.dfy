/** `SensitiveDataMasker`: replaces the values of configured property names in a
    JSON document by a fixed sentinel before the document is written to a log.

    The document tree is what `JsonDocument.Parse` yields; the result tree is the
    object graph `MaskElement` builds (dictionaries, lists and strings) that
    `JsonSerializer.Serialize` then writes out. Parsing and serialising are left
    abstract: they are the two function values of a `Codec`. */
module Masker {
  import opened Wrappers
  import Ascii
  import Dict

  /** The value every sensitive property is replaced by. */
  const Sentinel: string := "***MASKED***"

  /** A parsed JSON element. A scalar (string, number, `true`, `false`, `null`)
      keeps its raw text exactly as it appears in the document, quotes included. */
  datatype Json = JObject(props: seq<Prop>) | JArray(items: seq<Json>) | JScalar(raw: string)

  /** One property of an object, in document order; names may repeat. */
  datatype Prop = Prop(name: string, value: Json)

  /** The masked object graph: a dictionary, a list, or a string. There is no
      other kind of leaf, so every leaf of a masked document is a string. */
  datatype Masked = MString(text: string) | MDict(entries: seq<Dict.Entry<Masked>>) | MList(items: seq<Masked>)

  /** JSON text conversion, supplied from outside the model. */
  datatype Codec = Codec(parse: string -> Option<Json>, serialize: Masked -> string)

  /** `fields.Contains(name, StringComparer.OrdinalIgnoreCase)`. */
  function IsSensitive(name: string, fields: seq<string>): (r: bool)
    ensures r <==> exists i :: 0 <= i < |fields| && Ascii.EqualsIgnoreCase(fields[i], name)
  {
    if |fields| == 0 then false
    else
      assert forall i :: 1 <= i < |fields| ==> fields[i] == fields[1..][i - 1];
      Ascii.EqualsIgnoreCase(fields[0], name) || IsSensitive(name, fields[1..])
  }

  /** The set of property names of an object, compared case-sensitively. */
  function Names(props: seq<Prop>): set<string> {
    set i | 0 <= i < |props| :: props[i].name
  }

  /** Property `i` is the last one of its name. */
  ghost predicate IsLastOfName(props: seq<Prop>, i: int)
    requires 0 <= i < |props|
  {
    forall j :: i < j < |props| ==> props[j].name != props[i].name
  }

  /** `MaskElement`: an object becomes a dictionary filled property by property
      through its indexer, a sensitive property's value becoming the sentinel and
      any other value being masked in turn; an array becomes the list of its
      masked elements; any other element becomes its raw text. */
  function MaskElement(j: Json, fields: seq<string>): (r: Masked)
    ensures j.JObject? <==> r.MDict?
    ensures j.JArray? <==> r.MList?
    ensures j.JScalar? <==> r.MString?
  {
    match j
    case JObject(props) =>
      MDict(Dict.PutAll([], MaskProps(props, fields)))
    case JArray(items) =>
      MList(seq(|items|, i requires 0 <= i < |items| => MaskElement(items[i], fields)))
    case JScalar(raw) =>
      MString(raw)
  }

  /** The assignments the loop over an object's properties performs, in order. */
  function MaskProps(props: seq<Prop>, fields: seq<string>): (r: seq<Dict.Entry<Masked>>)
    ensures |r| == |props|
    ensures forall i :: 0 <= i < |props| ==> r[i].key == props[i].name
    decreases props
  {
    seq(|props|, i requires 0 <= i < |props| =>
      Dict.Entry(props[i].name,
        if IsSensitive(props[i].name, fields) then MString(Sentinel)
        else MaskElement(props[i].value, fields)))
  }

  /** `Mask`: masks the parsed document and serialises the result; when the text
      does not parse, the text is returned unchanged. */
  function Mask(json: string, fields: seq<string>, codec: Codec): (r: string)
    ensures codec.parse(json).None? ==> r == json
    ensures codec.parse(json).Some? ==>
              r == codec.serialize(MaskElement(codec.parse(json).value, fields))
  {
    match codec.parse(json)
    case None => json
    case Some(doc) => codec.serialize(MaskElement(doc, fields))
  }

  /** The keys of a masked object are exactly the property names of the input,
      compared case-sensitively, each present once. */
  lemma MaskedObjectKeys(props: seq<Prop>, fields: seq<string>)
    ensures MaskElement(JObject(props), fields).MDict?
    ensures Dict.Keys(MaskElement(JObject(props), fields).entries) == Names(props)
    ensures Dict.DistinctKeys(MaskElement(JObject(props), fields).entries)
  {
    var xs := MaskProps(props, fields);
    Dict.PutAllKeys([], xs);
    Dict.PutAllDistinct([], xs);
    forall k | k in Names(props) ensures k in Dict.Keys(xs) {
      var i :| 0 <= i < |props| && props[i].name == k;
      assert xs[i].key == k;
    }
    forall k | k in Dict.Keys(xs) ensures k in Names(props) {
      var i :| 0 <= i < |xs| && xs[i].key == k;
      assert props[i].name == k;
    }
  }

  /** The value stored under a property's name is decided by the last property
      of that name: the sentinel when the name is sensitive, whatever the value's
      kind and without looking into it; otherwise the masked value. */
  lemma MaskedPropertyValue(props: seq<Prop>, fields: seq<string>, i: int)
    requires 0 <= i < |props| && IsLastOfName(props, i)
    ensures IsSensitive(props[i].name, fields) ==>
              Dict.Get(MaskElement(JObject(props), fields).entries, props[i].name) == Some(MString(Sentinel))
    ensures !IsSensitive(props[i].name, fields) ==>
              Dict.Get(MaskElement(JObject(props), fields).entries, props[i].name)
              == Some(MaskElement(props[i].value, fields))
  {
    var xs := MaskProps(props, fields);
    Dict.PutAllLastWins([], xs, i);
  }

  /** An array maps element by element: same length, same order, each element
      masked on its own; no element is ever compared with the field list. */
  lemma MaskedArray(items: seq<Json>, fields: seq<string>)
    ensures MaskElement(JArray(items), fields).MList?
    ensures |MaskElement(JArray(items), fields).items| == |items|
    ensures forall i :: 0 <= i < |items| ==>
              MaskElement(JArray(items), fields).items[i] == MaskElement(items[i], fields)
  {
  }

  /** Every scalar becomes a string holding its raw JSON text. */
  lemma MaskedScalar(raw: string, fields: seq<string>)
    ensures MaskElement(JScalar(raw), fields) == MString(raw)
  {
  }

  /** The plain conversion to the object graph, masking nothing: the reference
      that masking with an empty field list is compared with. */
  function Plain(j: Json): Masked {
    match j
    case JObject(props) =>
      MDict(Dict.PutAll([], PlainProps(props)))
    case JArray(items) =>
      MList(seq(|items|, i requires 0 <= i < |items| => Plain(items[i])))
    case JScalar(raw) =>
      MString(raw)
  }

  function PlainProps(props: seq<Prop>): (r: seq<Dict.Entry<Masked>>)
    decreases props
  {
    seq(|props|, i requires 0 <= i < |props| => Dict.Entry(props[i].name, Plain(props[i].value)))
  }

  /** With no sensitive fields nothing becomes the sentinel: the result differs
      from the input only by scalars turning into their raw text. */
  lemma {:induction false} NoFieldsMasksNothing(j: Json)
    ensures MaskElement(j, []) == Plain(j)
    decreases j
  {
    match j
    case JObject(props) =>
      forall i | 0 <= i < |props| ensures MaskElement(props[i].value, []) == Plain(props[i].value) {
        NoFieldsMasksNothing(props[i].value);
      }
      assert MaskProps(props, []) == PlainProps(props);
    case JArray(items) =>
      forall i | 0 <= i < |items| ensures MaskElement(items[i], []) == Plain(items[i]) {
        NoFieldsMasksNothing(items[i]);
      }
    case JScalar(_) =>
  }

  /** The case-folded field names. */
  function FoldedFields(fields: seq<string>): set<string> {
    set i | 0 <= i < |fields| :: Ascii.Fold(fields[i])
  }

  /** A name is sensitive exactly when its folding is among the folded fields. */
  lemma SensitiveByFolding(name: string, fields: seq<string>)
    ensures IsSensitive(name, fields) <==> Ascii.Fold(name) in FoldedFields(fields)
  {
  }

  /** The field list is compared ignoring case: two lists that hold the same
      names up to case mask every document alike. */
  lemma {:induction false} FieldCaseIgnored(j: Json, f1: seq<string>, f2: seq<string>)
    requires FoldedFields(f1) == FoldedFields(f2)
    ensures MaskElement(j, f1) == MaskElement(j, f2)
    decreases j
  {
    match j
    case JObject(props) =>
      forall i | 0 <= i < |props|
        ensures IsSensitive(props[i].name, f1) == IsSensitive(props[i].name, f2)
        ensures MaskElement(props[i].value, f1) == MaskElement(props[i].value, f2)
      {
        SensitiveByFolding(props[i].name, f1);
        SensitiveByFolding(props[i].name, f2);
        FieldCaseIgnored(props[i].value, f1, f2);
      }
      assert MaskProps(props, f1) == MaskProps(props, f2);
    case JArray(items) =>
      forall i | 0 <= i < |items| ensures MaskElement(items[i], f1) == MaskElement(items[i], f2) {
        FieldCaseIgnored(items[i], f1, f2);
      }
    case JScalar(_) =>
  }

  /** A sensitive property's value is never looked into: objects that differ
      only in the values of sensitive properties mask to the same result. */
  lemma SensitiveValuesIgnored(p1: seq<Prop>, p2: seq<Prop>, fields: seq<string>)
    requires |p1| == |p2|
    requires forall i :: 0 <= i < |p1| ==> p1[i].name == p2[i].name
    requires forall i :: 0 <= i < |p1| && !IsSensitive(p1[i].name, fields) ==> p1[i].value == p2[i].value
    ensures MaskElement(JObject(p1), fields) == MaskElement(JObject(p2), fields)
  {
    assert MaskProps(p1, fields) == MaskProps(p2, fields);
  }
}
