/** The handler for an `I18n.t(...)` or `I18n.translate(...)` call: read the
    annotation comments, derive the candidate keys from the first argument,
    and check every candidate against every loaded document. */
module CallSite {
  import opened JsValues
  import opened Findings
  import opened KeyCheck
  import opened Templates
  import opened Comments

  /** The shapes of the first argument the handler distinguishes. */
  datatype Arg =
    | Literal(value: Json)
    | TemplateLiteral(template: Template)
    | Conditional(consequent: Arg, alternate: Arg)
    | OtherExpression

  /** The reports made while producing candidate keys, and the keys or why producing them threw. */
  datatype Candidates = Candidates(reports: seq<Finding>, keys: Outcome<seq<Json>>)

  function AsKeys(rendered: seq<string>): (keys: seq<Json>)
    ensures |keys| == |rendered|
    ensures forall j :: 0 <= j < |keys| ==> keys[j] == JStr(rendered[j])
  {
    if rendered == [] then [] else [JStr(rendered[0])] + AsKeys(rendered[1..])
  }

  /** The keys of a literal or template literal; anything else yields none.
      Only a template literal reports or throws, and it keeps the rendered
      keys' order, each as a string value. */
  function BranchKeys(arg: Arg, dict: map<string, Json>): (r: Candidates)
    ensures arg.Literal? ==> r == Candidates([], Ok([arg.value]))
    ensures !arg.Literal? && !arg.TemplateLiteral? ==> r == Candidates([], Ok([]))
    ensures arg.TemplateLiteral? ==>
      r.reports == Rendered(arg.template, dict).reports &&
      r.keys.Ok? == Rendered(arg.template, dict).keys.Ok?
    ensures r.keys.Aborted? ==> arg.TemplateLiteral? && r.keys.reason == Rendered(arg.template, dict).keys.reason
    ensures arg.TemplateLiteral? && r.keys.Ok? ==>
      |r.keys.value| == |Rendered(arg.template, dict).keys.value| &&
      forall j :: 0 <= j < |r.keys.value| ==> r.keys.value[j] == JStr(Rendered(arg.template, dict).keys.value[j])
  {
    match arg
    case Literal(v) => Candidates([], Ok([v]))
    case TemplateLiteral(t) =>
      var r := Rendered(t, dict);
      Candidates(r.reports, match r.keys case Aborted(reason) => Aborted(reason) case Ok(ks) => Ok(AsKeys(ks)))
    case _ => Candidates([], Ok([]))
  }

  /** The `switch (firstArg.type)`: a conditional contributes its consequent's
      keys, then its alternate's. */
  function ArgumentKeys(arg: Arg, dict: map<string, Json>): Candidates {
    match arg
    case Conditional(consequent, alternate) =>
      var first := BranchKeys(consequent, dict);
      (match first.keys
       case Aborted(reason) => first
       case Ok(ks) =>
         var second := BranchKeys(alternate, dict);
         Candidates(first.reports + second.reports, Prefixed(ks, second.keys)))
    case _ => BranchKeys(arg, dict)
  }

  /** The findings for each key in turn, each over the documents in order. */
  function CheckEach(keys: seq<Json>, jsons: seq<Document>): Outcome<seq<Finding>> {
    if keys == [] then Ok([])
    else
      match CheckAll(jsons, keys[0])
      case Aborted(reason) => Aborted(reason)
      case Ok(errors) => Prefixed(errors, CheckEach(keys[1..], jsons))
  }

  /** Everything one call site reports, in order, and the reason it threw, if it did. */
  datatype Verdict = Verdict(reports: seq<Finding>, thrown: Option<Abort>)

  /** The handler's behaviour. `firstArg` is `None` when the call has no argument. */
  function Handled(comments: seq<string>, parse: string -> Option<map<string, Json>>, firstArg: Option<Arg>,
                   jsons: seq<Document>): Verdict
  {
    var parsed := ParsedComments(comments, parse);
    if parsed.errors != [] then Verdict(parsed.errors, None)
    else
      match firstArg
      case None => Verdict([], Some(NoFirstArgument))
      case Some(arg) =>
        var candidates := ArgumentKeys(arg, parsed.dict);
        match candidates.keys
        case Aborted(reason) => Verdict(candidates.reports, Some(reason))
        case Ok(keys) =>
          match CheckEach(keys, jsons)
          case Aborted(reason) => Verdict(candidates.reports, Some(reason))
          case Ok(errors) => Verdict(candidates.reports + errors, None)
  }

  /** Adds a branch's keys to `keys`, rendering a template literal. */
  method AddBranchKeys(arg: Arg, dict: map<string, Json>, keys: seq<Json>)
    returns (reports: seq<Finding>, grown: Outcome<seq<Json>>)
    ensures Candidates(reports, grown) ==
      var b := BranchKeys(arg, dict); Candidates(b.reports, Prefixed(keys, b.keys))
  {
    reports := [];
    match arg
    case Literal(v) =>
      grown := Ok(keys + [v]);
    case TemplateLiteral(t) =>
      var rendered;
      reports, rendered := RenderTemplatedKey(t, dict);
      if rendered.Aborted? {
        return reports, Aborted(rendered.reason);
      }
      grown := Ok(keys + AsKeys(rendered.value));
    case _ =>
      assert keys + [] == keys;
      grown := Ok(keys);
  }

  /** The `CallExpression` handler. */
  method Handle(comments: seq<string>, parse: string -> Option<map<string, Json>>, firstArg: Option<Arg>,
                jsons: seq<Document>)
    returns (reports: seq<Finding>, thrown: Option<Abort>)
    ensures Verdict(reports, thrown) == Handled(comments, parse, firstArg, jsons)
  {
    var templatingValuesDict, templatingErrors := ParseComments(comments, parse);
    if |templatingErrors| > 0 {
      return templatingErrors, None;
    }
    if firstArg.None? {
      return [], Some(NoFirstArgument);
    }
    var keys;
    reports, keys := CollectKeys(firstArg.value, templatingValuesDict);
    if keys.Aborted? {
      return reports, Some(keys.reason);
    }
    var errors := CheckKeys(keys.value, jsons);
    if errors.Aborted? {
      return reports, Some(errors.reason);
    }
    reports := reports + errors.value;
    thrown := None;
  }

  /** The `switch (firstArg.type)`, growing `keys` branch by branch. */
  method CollectKeys(arg: Arg, dict: map<string, Json>) returns (reports: seq<Finding>, keys: Outcome<seq<Json>>)
    ensures Candidates(reports, keys) == ArgumentKeys(arg, dict)
  {
    if arg.Conditional? {
      var more, grown := AddBranchKeys(arg.consequent, dict, []);
      reports := more;
      if grown.Aborted? {
        return reports, Aborted(grown.reason);
      }
      PrefixedNil(BranchKeys(arg.consequent, dict).keys);
      more, keys := AddBranchKeys(arg.alternate, dict, grown.value);
      reports := reports + more;
    } else {
      reports, keys := AddBranchKeys(arg, dict, []);
      PrefixedNil(BranchKeys(arg, dict).keys);
    }
  }

  /** The loop that checks each candidate key against the documents in turn. */
  method CheckKeys(keys: seq<Json>, jsons: seq<Document>) returns (r: Outcome<seq<Finding>>)
    ensures r == CheckEach(keys, jsons)
  {
    var errors: seq<Finding> := [];
    assert keys[0..] == keys;
    PrefixedNil(CheckEach(keys, jsons));
    for i := 0 to |keys|
      invariant CheckEach(keys, jsons) == Prefixed(errors, CheckEach(keys[i..], jsons))
    {
      assert keys[i..][0] == keys[i] && keys[i..][1..] == keys[i + 1..];
      var found := CheckKeyExists(jsons, keys[i]);
      if found.Aborted? {
        return Aborted(found.reason);
      }
      PrefixedTwice(errors, found.value, CheckEach(keys[i + 1..], jsons));
      errors := errors + found.value;
    }
    assert keys[|keys|..] == [];
    assert errors + [] == errors;
    r := Ok(errors);
  }
}

module CallSiteProperties {
  import opened JsValues
  import opened Findings
  import opened KeyCheck
  import opened Templates
  import TemplateProperties
  import opened Comments
  import opened CallSite

  /** With a templating error only the templating errors are reported: the
      argument and the documents play no part. */
  lemma TemplatingErrorsOnly(comments: seq<string>, parse: string -> Option<map<string, Json>>,
                             firstArg: Option<Arg>, jsons: seq<Document>, otherArg: Option<Arg>, otherJsons: seq<Document>)
    requires ParsedComments(comments, parse).errors != []
    ensures Handled(comments, parse, firstArg, jsons) == Handled(comments, parse, otherArg, otherJsons)
    ensures Handled(comments, parse, firstArg, jsons) == Verdict(ParsedComments(comments, parse).errors, None)
  {
  }

  /** Findings for two runs of keys are the findings for each run, in order. */
  lemma {:induction false} CheckEachAppend(first: seq<Json>, second: seq<Json>, jsons: seq<Document>)
    ensures CheckEach(first + second, jsons) ==
      match CheckEach(first, jsons)
      case Aborted(reason) => Aborted(reason)
      case Ok(errors) => Prefixed(errors, CheckEach(second, jsons))
  {
    if first == [] {
      assert first + second == second;
      PrefixedNil(CheckEach(second, jsons));
    } else {
      assert (first + second)[0] == first[0];
      assert (first + second)[1..] == first[1..] + second;
      CheckEachAppend(first[1..], second, jsons);
      match CheckAll(jsons, first[0])
      case Aborted(_) =>
      case Ok(errors) =>
        match CheckEach(first[1..], jsons)
        case Aborted(_) =>
        case Ok(more) =>
          PrefixedTwice(errors, more, CheckEach(second, jsons));
    }
  }

  /** Checking keys throws exactly when there is a key and a document whose
      content cannot be checked (null, or an own `hasOwnProperty` field); otherwise there are no findings exactly when every
      document holds every key. */
  lemma {:induction false} CheckEachFindings(keys: seq<Json>, jsons: seq<Document>)
    ensures CheckEach(keys, jsons).Ok? <==> keys == [] || AllCheckable(jsons)
    ensures CheckEach(keys, jsons).Ok? ==>
      (CheckEach(keys, jsons).value == [] <==>
        forall k, i :: 0 <= k < |keys| && 0 <= i < |jsons| ==> Contains(jsons[i].content, keys[k]))
  {
    if keys != [] {
      var later := keys[1..];
      CheckAllFindings(jsons, keys[0]);
      CheckEachFindings(later, jsons);
      if AllCheckable(jsons) {
        AtMostOnePerDocument(jsons, keys[0]);
        var head := CheckAll(jsons, keys[0]).value;
        var tail := CheckEach(later, jsons).value;
        assert CheckEach(keys, jsons) == Ok(head + tail);
        assert head + tail == [] <==> head == [] && tail == [];
        AllKeysSplit(keys, jsons);
      }
    }
  }

  /** Every document holds every key exactly when every document holds the
      first key and every later one. */
  lemma AllKeysSplit(keys: seq<Json>, jsons: seq<Document>)
    requires keys != []
    ensures (forall k, i :: 0 <= k < |keys| && 0 <= i < |jsons| ==> Contains(jsons[i].content, keys[k])) <==>
      (forall i :: 0 <= i < |jsons| ==> Contains(jsons[i].content, keys[0])) &&
      (forall k, i :: 0 <= k < |keys[1..]| && 0 <= i < |jsons| ==> Contains(jsons[i].content, keys[1..][k]))
  {
    if (forall i :: 0 <= i < |jsons| ==> Contains(jsons[i].content, keys[0])) &&
       (forall k, i :: 0 <= k < |keys[1..]| && 0 <= i < |jsons| ==> Contains(jsons[i].content, keys[1..][k]))
    {
      forall k, i | 0 <= k < |keys| && 0 <= i < |jsons| ensures Contains(jsons[i].content, keys[k]) {
        if k > 0 {
          assert keys[k] == keys[1..][k - 1];
        }
      }
    }
  }

  /** A literal key: its findings are one per document lacking it, in document order. */
  lemma LiteralCall(comments: seq<string>, parse: string -> Option<map<string, Json>>, value: Json, jsons: seq<Document>)
    requires ParsedComments(comments, parse).errors == []
    requires AllCheckable(jsons)
    ensures Handled(comments, parse, Some(Literal(value)), jsons) ==
      Verdict(MissingKeyFindings(MissingFrom(jsons, value), value), None)
  {
    CheckAllFindings(jsons, value);
    var errors := CheckAll(jsons, value).value;
    assert [value][1..] == [];
    assert errors + [] == errors;
    assert CheckEach([value], jsons) == Ok(errors);
    assert ArgumentKeys(Literal(value), ParsedComments(comments, parse).dict) == Candidates([], Ok([value]));
    assert [] + errors == errors;
  }

  /** A conditional's keys are its consequent's followed by its alternate's,
      and its reports likewise; the alternate is not rendered once the
      consequent throws. */
  lemma ConditionalKeys(consequent: Arg, alternate: Arg, dict: map<string, Json>)
    ensures var c := BranchKeys(consequent, dict);
      var a := BranchKeys(alternate, dict);
      var r := ArgumentKeys(Conditional(consequent, alternate), dict);
      (r.keys.Ok? <==> c.keys.Ok? && a.keys.Ok?) &&
      (c.keys.Aborted? ==> r == c) &&
      (c.keys.Ok? ==> r.reports == c.reports + a.reports) &&
      (r.keys.Ok? ==> r.keys.value == c.keys.value + a.keys.value)
  {
  }

  /** A template literal's "Missing template key" reports come before the
      key findings, and each rendered key is checked against every document. */
  lemma TemplateCall(comments: seq<string>, parse: string -> Option<map<string, Json>>, t: Template, jsons: seq<Document>)
    requires ParsedComments(comments, parse).errors == []
    requires Rendered(t, ParsedComments(comments, parse).dict).keys.Ok?
    ensures var r := Rendered(t, ParsedComments(comments, parse).dict);
      var v := Handled(comments, parse, Some(TemplateLiteral(t)), jsons);
      var checked := CheckEach(AsKeys(r.keys.value), jsons);
      (checked.Aborted? ==> v == Verdict(r.reports, Some(checked.reason))) &&
      (checked.Ok? ==> v == Verdict(r.reports + checked.value, None))
  {
  }

  /** A call with a key present in every document reports nothing; a key
      absent from every document is reported once per document, in document
      order (tests/lib/rules/json-key-exists.js:25 and 43-47). */
  lemma LiteralScenarios(value: Json, jsons: seq<Document>)
    requires AllCheckable(jsons)
    ensures (forall i :: 0 <= i < |jsons| ==> Contains(jsons[i].content, value)) ==>
      Handled([], s => None, Some(Literal(value)), jsons) == Verdict([], None)
    ensures (forall i :: 0 <= i < |jsons| ==> !Contains(jsons[i].content, value)) ==>
      Handled([], s => None, Some(Literal(value)), jsons) == Verdict(MissingKeyFindings(jsons, value), None)
  {
    LiteralCall([], s => None, value, jsons);
    MissingFromEmpty(jsons, value);
    if forall i :: 0 <= i < |jsons| ==> !Contains(jsons[i].content, value) {
      MissingFromAll(jsons, value);
    }
  }

  /** The call of tests/lib/rules/json-key-exists.js:64: the annotation lists
      two values, the first rendered key is in every document and the second
      in none, so the second is reported once per document. */
  lemma ListedValuesCall(comments: seq<string>, parse: string -> Option<map<string, Json>>, jsons: seq<Document>)
    requires ParsedComments(comments, parse) ==
      Parsed(map["dynamic" := JArr([JStr("dynamic_1"), JStr("invalid_value_2")])], [])
    requires AllCheckable(jsons)
    requires forall i :: 0 <= i < |jsons| ==> Contains(jsons[i].content, JStr("valid_key_dynamic_1"))
    requires forall i :: 0 <= i < |jsons| ==> !Contains(jsons[i].content, JStr("valid_key_invalid_value_2"))
    ensures Handled(comments, parse, Some(TemplateLiteral([Text("valid_key_"), Hole("dynamic")])), jsons) ==
      Verdict(MissingKeyFindings(jsons, JStr("valid_key_invalid_value_2")), None)
  {
    var dict := ParsedComments(comments, parse).dict;
    var t := [Text("valid_key_"), Hole("dynamic")];
    TemplateProperties.ListedValuesScenario(t, dict);
    FoundThenMissing(comments, parse, t, jsons, "valid_key_dynamic_1", "valid_key_invalid_value_2");
  }

  /** A template rendered to two keys, the first held by every document and
      the second by none: the second is reported once per document. */
  lemma FoundThenMissing(comments: seq<string>, parse: string -> Option<map<string, Json>>, t: Template,
                         jsons: seq<Document>, first: string, second: string)
    requires ParsedComments(comments, parse).errors == []
    requires Rendered(t, ParsedComments(comments, parse).dict) == Rendering([], Ok([first, second]))
    requires AllCheckable(jsons)
    requires forall i :: 0 <= i < |jsons| ==> Contains(jsons[i].content, JStr(first))
    requires forall i :: 0 <= i < |jsons| ==> !Contains(jsons[i].content, JStr(second))
    ensures Handled(comments, parse, Some(TemplateLiteral(t)), jsons) ==
      Verdict(MissingKeyFindings(jsons, JStr(second)), None)
  {
    var keys := AsKeys([first, second]);
    assert keys == [JStr(first), JStr(second)];
    AtMostOnePerDocument(jsons, JStr(first));
    MissingEverywhere(jsons, JStr(second));
    var missing := MissingKeyFindings(jsons, JStr(second));
    assert CheckEach(keys[1..], jsons) == Ok(missing) by {
      assert keys[1..][0] == JStr(second) && keys[1..][1..] == [];
      assert missing + [] == missing;
    }
    assert CheckEach(keys, jsons) == Ok(missing) by {
      assert [] + missing == missing;
    }
    TemplateCall(comments, parse, t, jsons);
    assert [] + missing == missing;
  }
}
