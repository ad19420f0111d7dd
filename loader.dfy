/** Loading the configured JSON files when the rule is created: each path
    that cannot be read or parsed is reported and skipped. */
module Loader {
  import opened JsValues
  import opened Findings

  /** `JSON.parse(fs.readFileSync(path, 'utf8'))`, with `None` where either call throws. */
  function LoadOne(path: string, read: string -> Option<string>, parse: string -> Option<Json>): Option<Json> {
    match read(path)
    case None => None
    case Some(text) => parse(text)
  }

  /** The documents pushed onto `jsons` and the "Invalid JSON" reports. */
  datatype Loaded = Loaded(jsons: seq<Document>, reports: seq<Finding>)

  function LoadedFrom(paths: seq<string>, read: string -> Option<string>, parse: string -> Option<Json>): Loaded {
    if paths == [] then Loaded([], [])
    else
      var n := |paths|;
      var prev := LoadedFrom(paths[..n - 1], read, parse);
      match LoadOne(paths[n - 1], read, parse)
      case None => Loaded(prev.jsons, prev.reports + [InvalidJson(paths[n - 1])])
      case Some(content) => Loaded(prev.jsons + [Document(paths[n - 1], content)], prev.reports)
  }

  /** `jsonFilePaths.forEach(...)` in `create`. */
  method LoadDocuments(jsonFilePaths: seq<string>, read: string -> Option<string>, parse: string -> Option<Json>)
    returns (jsons: seq<Document>, reports: seq<Finding>)
    ensures Loaded(jsons, reports) == LoadedFrom(jsonFilePaths, read, parse)
  {
    jsons := [];
    reports := [];
    for i := 0 to |jsonFilePaths|
      invariant Loaded(jsons, reports) == LoadedFrom(jsonFilePaths[..i], read, parse)
    {
      assert jsonFilePaths[..i + 1][..i] == jsonFilePaths[..i];
      var jsonFilePath := jsonFilePaths[i];
      var text := read(jsonFilePath);
      var jsonContent := if text.Some? then parse(text.value) else None;
      if jsonContent.None? {
        reports := reports + [InvalidJson(jsonFilePath)];
      } else {
        jsons := jsons + [Document(jsonFilePath, jsonContent.value)];
      }
    }
    assert jsonFilePaths[..|jsonFilePaths|] == jsonFilePaths;
  }

  /** Every path yields exactly one document or one report. */
  lemma {:induction false} OneEntryPerPath(paths: seq<string>, read: string -> Option<string>, parse: string -> Option<Json>)
    ensures |LoadedFrom(paths, read, parse).jsons| + |LoadedFrom(paths, read, parse).reports| == |paths|
  {
    if paths != [] {
      OneEntryPerPath(paths[..|paths| - 1], read, parse);
    }
  }

  /** Loading two runs of paths loads each in turn: a failing path does not
      stop the later ones, and documents keep the order of their paths. */
  lemma {:induction false} LoadedAppend(first: seq<string>, second: seq<string>, read: string -> Option<string>, parse: string -> Option<Json>)
    ensures LoadedFrom(first + second, read, parse) ==
      Loaded(LoadedFrom(first, read, parse).jsons + LoadedFrom(second, read, parse).jsons,
             LoadedFrom(first, read, parse).reports + LoadedFrom(second, read, parse).reports)
    decreases |second|
  {
    var all := first + second;
    var a := LoadedFrom(first, read, parse);
    if second == [] {
      assert all == first;
      assert a.jsons + [] == a.jsons && a.reports + [] == a.reports;
    } else {
      var n := |second|;
      assert all[..|all| - 1] == first + second[..n - 1];
      assert all[|all| - 1] == second[n - 1];
      LoadedAppend(first, second[..n - 1], read, parse);
      var b := LoadedFrom(second[..n - 1], read, parse);
      match LoadOne(second[n - 1], read, parse)
      case None =>
        assert (a.reports + b.reports) + [InvalidJson(second[n - 1])] == a.reports + (b.reports + [InvalidJson(second[n - 1])]);
      case Some(content) =>
        assert (a.jsons + b.jsons) + [Document(second[n - 1], content)] == a.jsons + (b.jsons + [Document(second[n - 1], content)]);
    }
  }

  /** Each document is the parsed content of its own path, and each report
      names a path that failed; both are drawn from `paths`. */
  lemma {:induction false} EntriesFromPaths(paths: seq<string>, read: string -> Option<string>, parse: string -> Option<Json>)
    ensures forall j :: 0 <= j < |LoadedFrom(paths, read, parse).jsons| ==>
      var d := LoadedFrom(paths, read, parse).jsons[j];
      d.path in paths && LoadOne(d.path, read, parse) == Some(d.content)
    ensures forall j :: 0 <= j < |LoadedFrom(paths, read, parse).reports| ==>
      var r := LoadedFrom(paths, read, parse).reports[j];
      r.InvalidJson? && r.jsonFilePath in paths && LoadOne(r.jsonFilePath, read, parse).None?
  {
    if paths != [] {
      var n := |paths|;
      EntriesFromPaths(paths[..n - 1], read, parse);
      assert forall p :: p in paths[..n - 1] ==> p in paths;
    }
  }

  /** When every path loads, the documents are the paths in order with their contents. */
  lemma {:induction false} AllPathsLoad(paths: seq<string>, read: string -> Option<string>, parse: string -> Option<Json>)
    requires forall j :: 0 <= j < |paths| ==> LoadOne(paths[j], read, parse).Some?
    ensures LoadedFrom(paths, read, parse).reports == []
    ensures |LoadedFrom(paths, read, parse).jsons| == |paths|
    ensures forall j :: 0 <= j < |paths| ==>
      LoadedFrom(paths, read, parse).jsons[j] == Document(paths[j], LoadOne(paths[j], read, parse).value)
  {
    if paths != [] {
      var n := |paths|;
      assert forall j :: 0 <= j < n - 1 ==> paths[..n - 1][j] == paths[j];
      AllPathsLoad(paths[..n - 1], read, parse);
    }
  }
}
