/** The values the rule passes around: loaded documents, the findings it
    reports, and the reasons processing of a call site can stop early. */
module Findings {
  import opened JsValues

  /** One loaded locale document: where it came from and its parsed content. */
  datatype Document = Document(path: string, content: Json)

  /** One report, identified by its message template and its data. */
  datatype Finding =
    | InvalidJson(jsonFilePath: string)
    | MissingKey(key: Json, jsonPath: string)
    | FailedParsingComment(comment: string)
    | MissingTemplateKey(templateKey: string, json: map<string, Json>)

  /** Why the handler for a call site stops before it reports its key findings:
      a TypeError thrown by the JavaScript host, or a rendering whose result
      depends on the template library's handling of an unbound placeholder. */
  datatype Abort =
    | NullContent(jsonPath: string)
    | ShadowedHasOwnProperty(jsonPath: string)
    | ShadowedInTemplateValues
    | NothingToCombine
    | NotIterable(templateKey: string)
    | NoFirstArgument
    | RenderingUnmodelled(templateKey: string)

  datatype Outcome<+T> = Ok(value: T) | Aborted(reason: Abort)

  /** `prefix` followed by the outcome's sequence; an abort stays an abort. */
  function Prefixed<T>(prefix: seq<T>, o: Outcome<seq<T>>): (r: Outcome<seq<T>>)
    ensures r.Ok? <==> o.Ok?
    ensures r.Ok? ==> r.value == prefix + o.value
    ensures r.Aborted? ==> r == o
  {
    match o
    case Ok(v) => Ok(prefix + v)
    case Aborted(reason) => Aborted(reason)
  }

  lemma PrefixedNil<T>(o: Outcome<seq<T>>)
    ensures Prefixed([], o) == o
  {
    if o.Ok? {
      assert [] + o.value == o.value;
    }
  }

  lemma PrefixedTwice<T>(first: seq<T>, second: seq<T>, o: Outcome<seq<T>>)
    ensures Prefixed(first, Prefixed(second, o)) == Prefixed(first + second, o)
  {
    if o.Ok? {
      assert first + (second + o.value) == (first + second) + o.value;
    }
  }
}
