/** The locale resolver: for each locale, `<locale>.json` is fetched over
    HTTP when the base address has a protocol and read from disk otherwise,
    then parsed; each locale yields one document or one error message. */
module BaseResolver {
  import opened JsValues
  import opened Findings

  /** A foreign call that returns a value or throws an exception, given by its text. */
  datatype Attempt<+T> = Success(value: T) | Failure(error: string)

  /** The foreign calls the resolver makes. */
  datatype Env = Env(
    hasProtocol: string -> Attempt<bool>,             // `url.parse(baseURI).protocol` is truthy
    urlResolve: (string, string) -> Attempt<string>,  // `url.resolve(baseURI, name)`
    pathResolve: (string, string) -> Attempt<string>, // `path.resolve(baseURI, name)`
    httpGet: string -> Attempt<string>,               // `request('GET', uri).getBody('utf8')`
    readFile: string -> Attempt<string>,              // `fs.readFileSync(uri, 'utf8')`
    parse: string -> Attempt<Json>)                   // `JSON.parse(text)`

  /** What one locale yields: its document, or the address computed so far
      (`None` while it is still `undefined`) and the exception. */
  datatype Entry = Pushed(doc: Document) | Caught(address: Option<string>, error: string)

  function FileName(locale: string): string {
    locale + ".json"
  }

  /** The body of the `try` for one locale. A document's path is the address
      resolved from the base and `<locale>.json`, over HTTP exactly when the
      base has a protocol, and its content is the parse of the text fetched
      from there. A failure names the resolved address, or none when the
      protocol test or the resolution itself threw. */
  function Fetch(locale: string, baseURI: string, env: Env): (r: Entry)
    ensures r.Pushed? ==>
      env.hasProtocol(baseURI).Success? &&
      var remote := env.hasProtocol(baseURI).value;
      var fetched := if remote then env.httpGet(r.doc.path) else env.readFile(r.doc.path);
      (if remote then env.urlResolve(baseURI, locale + ".json") else env.pathResolve(baseURI, locale + ".json")) == Success(r.doc.path) &&
      fetched.Success? && env.parse(fetched.value) == Success(r.doc.content)
    ensures r.Caught? ==>
      (r.address.None? <==>
        (env.hasProtocol(baseURI).Failure? ||
         (env.hasProtocol(baseURI) == Success(true) && env.urlResolve(baseURI, locale + ".json").Failure?) ||
         (env.hasProtocol(baseURI) == Success(false) && env.pathResolve(baseURI, locale + ".json").Failure?)))
    ensures r.Caught? && r.address.Some? ==>
      env.hasProtocol(baseURI).Success? &&
      var remote := env.hasProtocol(baseURI).value;
      var fetched := if remote then env.httpGet(r.address.value) else env.readFile(r.address.value);
      (if remote then env.urlResolve(baseURI, locale + ".json") else env.pathResolve(baseURI, locale + ".json")) == Success(r.address.value) &&
      (fetched == Failure(r.error) || (fetched.Success? && env.parse(fetched.value) == Failure(r.error)))
  {
    match env.hasProtocol(baseURI)
    case Failure(e) => Caught(None, e)
    case Success(remote) =>
      var address := if remote then env.urlResolve(baseURI, FileName(locale)) else env.pathResolve(baseURI, FileName(locale));
      match address
      case Failure(e) => Caught(None, e)
      case Success(uri) =>
        var text := if remote then env.httpGet(uri) else env.readFile(uri);
        match text
        case Failure(e) => Caught(Some(uri), e)
        case Success(body) =>
          match env.parse(body)
          case Failure(e) => Caught(Some(uri), e)
          case Success(content) => Pushed(Document(uri, content))
  }

  const ErrorPrefix: string := "Error reading or parsing: "

  /** `Error reading or parsing: ${jsonFileURI} ${e}`. */
  function ErrorText(address: Option<string>, error: string): string {
    ErrorPrefix + (if address.Some? then address.value else "undefined") + " " + error
  }

  /** A message reads back as the prefix, the address or `undefined`, a space
      and the exception's text. */
  lemma ErrorTextParts(address: Option<string>, error: string)
    ensures var s := ErrorText(address, error);
      |s| > |ErrorPrefix| + |error| &&
      s[..|ErrorPrefix|] == ErrorPrefix &&
      s[|s| - |error|..] == error && s[|s| - |error| - 1] == ' ' &&
      s[|ErrorPrefix|..|s| - |error| - 1] == if address.Some? then address.value else "undefined"
  {
    var shown := if address.Some? then address.value else "undefined";
    var s := ErrorText(address, error);
    assert s == ErrorPrefix + shown + " " + error;
    assert s[..|ErrorPrefix|] == ErrorPrefix;
    assert s[|s| - |error|..] == error;
    assert s[|ErrorPrefix|..|s| - |error| - 1] == shown;
  }

  /** `{jsons, errors}`. */
  datatype Resolved = Resolved(jsons: seq<Document>, errors: seq<string>)

  function ResolvedFrom(locales: seq<string>, baseURI: string, env: Env): Resolved {
    if locales == [] then Resolved([], [])
    else
      var n := |locales|;
      Recorded(ResolvedFrom(locales[..n - 1], baseURI, env), Fetch(locales[n - 1], baseURI, env))
  }

  /** What is resolved so far, with one more locale's entry pushed. */
  function Recorded(prev: Resolved, entry: Entry): Resolved {
    match entry
    case Pushed(doc) => Resolved(prev.jsons + [doc], prev.errors)
    case Caught(address, e) => Resolved(prev.jsons, prev.errors + [ErrorText(address, e)])
  }

  /** The exported resolver, `function(locales, jsonURIObj)`. */
  method Resolve(locales: seq<string>, baseURI: string, env: Env) returns (jsons: seq<Document>, errors: seq<string>)
    ensures Resolved(jsons, errors) == ResolvedFrom(locales, baseURI, env)
  {
    jsons := [];
    errors := [];
    for i := 0 to |locales|
      invariant Resolved(jsons, errors) == ResolvedFrom(locales[..i], baseURI, env)
    {
      assert locales[..i + 1][..i] == locales[..i];
      var entry := Fetch(locales[i], baseURI, env);
      match entry
      case Pushed(doc) =>
        jsons := jsons + [doc];
      case Caught(address, e) =>
        errors := errors + [ErrorText(address, e)];
    }
    assert locales[..|locales|] == locales;
  }

  /** Every locale contributes exactly one document or one error. */
  lemma {:induction false} OneEntryPerLocale(locales: seq<string>, baseURI: string, env: Env)
    ensures |ResolvedFrom(locales, baseURI, env).jsons| + |ResolvedFrom(locales, baseURI, env).errors| == |locales|
  {
    if locales != [] {
      OneEntryPerLocale(locales[..|locales| - 1], baseURI, env);
    }
  }

  /** Resolving two runs of locales resolves each in turn: a failure does not
      stop the later locales, and documents keep the order of their locales. */
  lemma {:induction false} ResolvedAppend(first: seq<string>, second: seq<string>, baseURI: string, env: Env)
    ensures ResolvedFrom(first + second, baseURI, env) ==
      Resolved(ResolvedFrom(first, baseURI, env).jsons + ResolvedFrom(second, baseURI, env).jsons,
               ResolvedFrom(first, baseURI, env).errors + ResolvedFrom(second, baseURI, env).errors)
    decreases |second|
  {
    var all := first + second;
    var a := ResolvedFrom(first, baseURI, env);
    if second == [] {
      assert all == first;
      assert a.jsons + [] == a.jsons && a.errors + [] == a.errors;
    } else {
      var n := |second|;
      assert all[..|all| - 1] == first + second[..n - 1];
      assert all[|all| - 1] == second[n - 1];
      ResolvedAppend(first, second[..n - 1], baseURI, env);
      RecordedAppend(a, ResolvedFrom(second[..n - 1], baseURI, env), Fetch(second[n - 1], baseURI, env));
    }
  }

  /** Pushing an entry after two concatenated results pushes it after the second. */
  lemma RecordedAppend(a: Resolved, b: Resolved, entry: Entry)
    ensures Recorded(Resolved(a.jsons + b.jsons, a.errors + b.errors), entry) ==
      Resolved(a.jsons + Recorded(b, entry).jsons, a.errors + Recorded(b, entry).errors)
  {
    match entry
    case Pushed(doc) =>
      assert (a.jsons + b.jsons) + [doc] == a.jsons + (b.jsons + [doc]);
    case Caught(address, e) =>
      assert (a.errors + b.errors) + [ErrorText(address, e)] == a.errors + (b.errors + [ErrorText(address, e)]);
  }

  /** The documents of the locales that load, in locale order. */
  function DocumentsOf(locales: seq<string>, baseURI: string, env: Env): seq<Document> {
    if locales == [] then []
    else
      (match Fetch(locales[0], baseURI, env)
       case Pushed(doc) => [doc]
       case Caught(_, _) => [])
      + DocumentsOf(locales[1..], baseURI, env)
  }

  /** The messages of the locales that fail, in locale order. */
  function MessagesOf(locales: seq<string>, baseURI: string, env: Env): seq<string> {
    if locales == [] then []
    else
      (match Fetch(locales[0], baseURI, env)
       case Pushed(_) => []
       case Caught(address, e) => [ErrorText(address, e)])
      + MessagesOf(locales[1..], baseURI, env)
  }

  /** `jsons` holds the documents of the locales that load and `errors` the
      messages of those that fail, each in locale order. */
  lemma {:induction false} ResolvedPartition(locales: seq<string>, baseURI: string, env: Env)
    ensures ResolvedFrom(locales, baseURI, env) == Resolved(DocumentsOf(locales, baseURI, env), MessagesOf(locales, baseURI, env))
  {
    if locales != [] {
      ResolvedPartition(locales[1..], baseURI, env);
      ResolvedAppend([locales[0]], locales[1..], baseURI, env);
      assert [locales[0]] + locales[1..] == locales;
      assert [locales[0]][..0] == [];
    }
  }

  /** The choice between HTTP and the file system depends only on whether the
      base address has a protocol: with one, the path and file calls are never
      made; without one, the URL and HTTP calls are never made. */
  lemma {:induction false} BranchByProtocol(locales: seq<string>, baseURI: string, env: Env, other: Env)
    requires env.hasProtocol == other.hasProtocol && env.parse == other.parse
    requires env.hasProtocol(baseURI) == Success(true) ==> env.urlResolve == other.urlResolve && env.httpGet == other.httpGet
    requires env.hasProtocol(baseURI) == Success(false) ==> env.pathResolve == other.pathResolve && env.readFile == other.readFile
    ensures ResolvedFrom(locales, baseURI, env) == ResolvedFrom(locales, baseURI, other)
  {
    if locales != [] {
      BranchByProtocol(locales[..|locales| - 1], baseURI, env, other);
      assert Fetch(locales[|locales| - 1], baseURI, env) == Fetch(locales[|locales| - 1], baseURI, other);
    }
  }
}
