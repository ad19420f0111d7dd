/** Expanding a template-literal key (`renderTemplatedKey`): placeholders are
    looked up in the annotation dictionary, the missing ones are reported,
    and the template is rendered once per combination of the found values. */
module Templates {
  import opened JsValues
  import Dotty
  import opened Findings
  import opened Combinations

  /** A piece of a template literal's source text: literal text, or a `${...}`
      placeholder named by the source text of its expression. */
  datatype Part = Text(text: string) | Hole(name: string)

  type Template = seq<Part>

  /** The template's expressions: every placeholder of the template, and
      nothing else (their order is that of `HolesAppend`). */
  function Holes(t: Template): (names: seq<string>)
    ensures |names| <= |t|
    ensures forall j :: 0 <= j < |names| ==> Hole(names[j]) in t
    ensures forall i :: 0 <= i < |t| && t[i].Hole? ==> t[i].name in names
  {
    if t == [] then []
    else
      assert forall i :: 1 <= i < |t| ==> t[i] == t[1..][i - 1];
      (if t[0].Hole? then [t[0].name] else []) + Holes(t[1..])
  }

  /** The expressions of a concatenation are those of its parts, in order. */
  lemma {:induction false} HolesAppend(first: Template, second: Template)
    ensures Holes(first + second) == Holes(first) + Holes(second)
  {
    if first == [] {
      assert first + second == second;
    } else {
      assert (first + second)[0] == first[0] && (first + second)[1..] == first[1..] + second;
      HolesAppend(first[1..], second);
      var head := if first[0].Hole? then [first[0].name] else [];
      assert head + (Holes(first[1..]) + Holes(second)) == (head + Holes(first[1..])) + Holes(second);
    }
  }

  /** A placeholder is known when the dictionary owns it or its dotted path
      exists. A name without a dot is known exactly when the dictionary owns it. */
  function Found(dict: map<string, Json>, name: string): (b: bool)
    ensures name in dict ==> b
    ensures '.' !in name ==> (b <==> name in dict)
  {
    name in dict || Dotty.Exists(JObj(dict), name)
  }

  /** `dict[name] || dotty.get(dict, name)`, with `None` for `undefined`: a
      truthy own value first, else the value at the path, which for a name
      without a dot is the own value, truthy or not. */
  function Lookup(dict: map<string, Json>, name: string): (r: Option<Json>)
    ensures r.Some? ==> Found(dict, name)
    ensures name in dict && Truthy(dict[name]) ==> r == Some(dict[name])
    ensures '.' !in name ==> r == if name in dict then Some(dict[name]) else None
  {
    if name in dict && Truthy(dict[name]) then Some(dict[name]) else Dotty.Get(JObj(dict), name)
  }

  /** `templateKeys[name] = v`: an existing key keeps its position, a new one goes last. */
  function Put(options: Options, name: string, v: Option<Json>): (r: Options)
    ensures Names(r) == Names(options) + {name}
    ensures DistinctNames(options) ==> DistinctNames(r)
    ensures forall j :: 0 <= j < |r| && r[j].0 == name ==> r[j].1 == v
    ensures forall j :: 0 <= j < |options| ==> j < |r| && r[j].0 == options[j].0 && (options[j].0 != name ==> r[j] == options[j])
    ensures name in Names(options) ==> |r| == |options|
    ensures name !in Names(options) ==> r == options + [(name, v)]
  {
    if name in Names(options) then
      var r := seq(|options|, j requires 0 <= j < |options| => if options[j].0 == name then (name, v) else options[j]);
      assert forall j :: 0 <= j < |r| ==> r[j].0 == options[j].0;
      assert Names(r) == Names(options) by {
        forall k | k in Names(r) ensures k in Names(options) {
          var j :| 0 <= j < |r| && r[j].0 == k;
          assert options[j].0 == k;
        }
        forall k | k in Names(options) ensures k in Names(r) {
          var j :| 0 <= j < |options| && options[j].0 == k;
          assert r[j].0 == k;
        }
      }
      r
    else
      var r := options + [(name, v)];
      assert Names(r) == Names(options) + {name} by {
        forall k | k in Names(r) ensures k in Names(options) + {name} {
          var j :| 0 <= j < |r| && r[j].0 == k;
          if j < |options| {
            assert options[j].0 == k;
          }
        }
        forall k | k in Names(options) ensures k in Names(r) {
          var j :| 0 <= j < |options| && options[j].0 == k;
          assert r[j].0 == k;
        }
        assert r[|options|].0 == name;
      }
      assert DistinctNames(options) ==> DistinctNames(r) by {
        if DistinctNames(options) {
          forall x, y | 0 <= x < y < |r| ensures r[x].0 != r[y].0 {
            if y == |options| {
              assert options[x].0 in Names(options);
            }
          }
        }
      }
      r
  }

  /** The placeholder names among `names` that are known. */
  function FoundNames(dict: map<string, Json>, names: seq<string>): set<string> {
    set j | 0 <= j < |names| && Found(dict, names[j]) :: names[j]
  }

  /** `templateKeys` after the loop over the expressions `names`: the known
      placeholders, each once, with its looked-up value. */
  function TemplateKeys(dict: map<string, Json>, names: seq<string>): (r: Options)
    ensures DistinctNames(r)
    ensures Names(r) == FoundNames(dict, names)
    ensures forall j :: 0 <= j < |r| ==> r[j].1 == Lookup(dict, r[j].0)
  {
    if names == [] then []
    else
      var n := |names|;
      var prev := TemplateKeys(dict, names[..n - 1]);
      var last := names[n - 1];
      FoundNamesSnoc(dict, names);
      if Found(dict, last) then Put(prev, last, Lookup(dict, last)) else prev
  }

  lemma FoundNamesSnoc(dict: map<string, Json>, names: seq<string>)
    requires names != []
    ensures FoundNames(dict, names) ==
      FoundNames(dict, names[..|names| - 1]) + (if Found(dict, names[|names| - 1]) then {names[|names| - 1]} else {})
  {
    var n := |names|;
    var front := names[..n - 1];
    forall k | k in FoundNames(dict, names)
      ensures k in FoundNames(dict, front) + (if Found(dict, names[n - 1]) then {names[n - 1]} else {})
    {
      var j :| 0 <= j < n && Found(dict, names[j]) && names[j] == k;
      if j < n - 1 {
        assert front[j] == k;
      }
    }
    forall k | k in FoundNames(dict, front) ensures k in FoundNames(dict, names) {
      var j :| 0 <= j < n - 1 && Found(dict, front[j]) && front[j] == k;
      assert names[j] == k;
    }
  }

  /** The "Missing template key" reports for the expressions `names`, in order. */
  function MissingReports(dict: map<string, Json>, names: seq<string>): (r: seq<Finding>)
    ensures |r| <= |names|
    ensures forall j :: 0 <= j < |r| ==>
      r[j].MissingTemplateKey? && r[j].json == dict && r[j].templateKey in names && !Found(dict, r[j].templateKey)
  {
    if names == [] then []
    else
      var n := |names|;
      var prev := MissingReports(dict, names[..n - 1]);
      assert forall k :: k in names[..n - 1] ==> k in names;
      prev + (if Found(dict, names[n - 1]) then [] else [MissingTemplateKey(names[n - 1], dict)])
  }

  /** Every name is undotted and bound in `c`. */
  predicate AllBound(names: seq<string>, c: Combination) {
    forall j :: 0 <= j < |names| ==> '.' !in names[j] && names[j] in c
  }

  lemma AllBoundCons(name: string, rest: seq<string>, c: Combination)
    ensures AllBound([name] + rest, c) <==> '.' !in name && name in c && AllBound(rest, c)
  {
    var all := [name] + rest;
    assert all[0] == name;
    assert forall j :: 0 <= j < |rest| ==> all[j + 1] == rest[j];
  }

  lemma AllBoundUnfold(t: Template, c: Combination)
    requires t != []
    ensures AllBound(Holes(t), c) <==>
      (t[0].Hole? ==> '.' !in t[0].name && t[0].name in c) && AllBound(Holes(t[1..]), c)
  {
    if t[0].Hole? {
      AllBoundCons(t[0].name, Holes(t[1..]), c);
    } else {
      assert Holes(t) == [] + Holes(t[1..]);
    }
  }

  /** Our substitution in place of `es6-template-render`: each placeholder
      becomes `String()` of its value in the combination. A placeholder
      without a value, or with a dotted name, is not modelled. Rendering
      succeeds exactly when every placeholder is undotted and bound. */
  function Render(t: Template, c: Combination): (r: Outcome<string>)
    ensures r.Ok? <==> AllBound(Holes(t), c)
  {
    if t == [] then Ok([])
    else
      var head: Outcome<string> :=
        match t[0]
        case Text(s) => Ok(s)
        case Hole(name) =>
          if '.' !in name && name in c then Ok(ToText(c[name])) else Aborted(RenderingUnmodelled(name));
      AllBoundUnfold(t, c);
      match head
      case Aborted(reason) => Aborted(reason)
      case Ok(s) => Prefixed(s, Render(t[1..], c))
  }

  /** `renderedKeys` after rendering the template for each combination in order. */
  function RenderAll(t: Template, combinations: seq<Combination>): Outcome<seq<string>> {
    if combinations == [] then Ok([])
    else
      match Render(t, combinations[0])
      case Aborted(reason) => Aborted(reason)
      case Ok(key) => Prefixed([key], RenderAll(t, combinations[1..]))
  }

  /** What `renderTemplatedKey` reports, and the keys it returns or why it throws. */
  datatype Rendering = Rendering(reports: seq<Finding>, keys: Outcome<seq<string>>)

  /** An own `hasOwnProperty` field of the dictionary makes the first
      expression's test throw, before anything is reported. */
  function Rendered(t: Template, dict: map<string, Json>): Rendering {
    var names := Holes(t);
    if names != [] && ShadowsHasOwnProperty(JObj(dict)) then Rendering([], Aborted(ShadowedInTemplateValues))
    else
      var options := TemplateKeys(dict, names);
      Rendering(
        MissingReports(dict, names),
        if options == [] then Aborted(NothingToCombine)
        else
          match Assignments(options)
          case Aborted(reason) => Aborted(reason)
          case Ok(assignments) => RenderAll(t, Clones(assignments)))
  }

  /** `renderTemplatedKey(key, templatingValuesDict)`. */
  method RenderTemplatedKey(t: Template, dict: map<string, Json>) returns (reports: seq<Finding>, keys: Outcome<seq<string>>)
    ensures Rendering(reports, keys) == Rendered(t, dict)
  {
    var collected;
    collected, reports := CollectTemplateKeys(dict, Holes(t));
    if collected.Aborted? {
      return reports, Aborted(collected.reason);
    }
    var templateKeys := collected.value;
    var combinations, _ := GetCombinations(templateKeys, 0, [], map[]);
    if combinations.Aborted? {
      return reports, Aborted(combinations.reason);
    }
    assert templateKeys[0..] == templateKeys;
    LayerOverEmpty(Assignments(templateKeys).value);
    assert [] + Layer(map[], Assignments(templateKeys).value) == Clones(Assignments(templateKeys).value);
    keys := RenderEach(t, combinations.value);
  }

  /** The loop over the template's expressions: report each unknown one,
      record each known one with its value; the first test throws when the
      dictionary's `hasOwnProperty` is a data field. */
  method CollectTemplateKeys(dict: map<string, Json>, expressions: seq<string>)
    returns (templateKeys: Outcome<Options>, reports: seq<Finding>)
    ensures expressions != [] && ShadowsHasOwnProperty(JObj(dict)) ==>
      templateKeys == Aborted(ShadowedInTemplateValues) && reports == []
    ensures !(expressions != [] && ShadowsHasOwnProperty(JObj(dict))) ==>
      templateKeys == Ok(TemplateKeys(dict, expressions)) && reports == MissingReports(dict, expressions)
  {
    var keys: Options := [];
    reports := [];
    for i := 0 to |expressions|
      invariant keys == TemplateKeys(dict, expressions[..i])
      invariant reports == MissingReports(dict, expressions[..i])
      invariant ShadowsHasOwnProperty(JObj(dict)) ==> i == 0
    {
      if ShadowsHasOwnProperty(JObj(dict)) {
        return Aborted(ShadowedInTemplateValues), reports;
      }
      assert expressions[..i + 1][..i] == expressions[..i];
      var templateKey := expressions[i];
      if !Found(dict, templateKey) {
        reports := reports + [MissingTemplateKey(templateKey, dict)];
      } else {
        keys := Put(keys, templateKey, Lookup(dict, templateKey));
      }
    }
    assert expressions[..|expressions|] == expressions;
    templateKeys := Ok(keys);
  }

  /** The loop that renders the template once per combination, in order. */
  method RenderEach(t: Template, all: seq<Combination>) returns (keys: Outcome<seq<string>>)
    ensures keys == RenderAll(t, all)
  {
    var renderedKeys: seq<string> := [];
    assert all[0..] == all;
    PrefixedNil(RenderAll(t, all));
    for j := 0 to |all|
      invariant RenderAll(t, all) == Prefixed(renderedKeys, RenderAll(t, all[j..]))
    {
      assert all[j..][0] == all[j] && all[j..][1..] == all[j + 1..];
      var keyText := Render(t, all[j]);
      if keyText.Aborted? {
        return Aborted(keyText.reason);
      }
      PrefixedTwice(renderedKeys, [keyText.value], RenderAll(t, all[j + 1..]));
      renderedKeys := renderedKeys + [keyText.value];
    }
    assert all[|all|..] == [];
    assert renderedKeys + [] == renderedKeys;
    keys := Ok(renderedKeys);
  }

}

module TemplateProperties {
  import opened JsValues
  import Dotty
  import opened Findings
  import opened Combinations
  import opened CombinationProperties
  import opened Templates

  /** A dotted name is looked up by its exact spelling first, and only when
      that yields nothing truthy by descending along its path. */
  lemma DottedLookup(dict: map<string, Json>, head: string, tail: string)
    requires '.' !in head
    ensures Found(dict, head + "." + tail) <==>
      head + "." + tail in dict || (head in dict && Dotty.Exists(dict[head], tail))
    ensures Lookup(dict, head + "." + tail) ==
      if head + "." + tail in dict && Truthy(dict[head + "." + tail]) then Some(dict[head + "." + tail])
      else if head in dict then Dotty.Get(dict[head], tail)
      else None
  {
    Dotty.DottedPath(dict, head, tail);
  }

  /** A repeated placeholder changes neither the keys nor their order. */
  lemma RepeatedPlaceholder(dict: map<string, Json>, names: seq<string>, n: string)
    requires n in names
    ensures TemplateKeys(dict, names + [n]) == TemplateKeys(dict, names)
  {
    var all := names + [n];
    assert all[..|all| - 1] == names && all[|all| - 1] == n;
    var prev := TemplateKeys(dict, names);
    if Found(dict, n) {
      var i :| 0 <= i < |names| && names[i] == n;
      assert n in FoundNames(dict, names);
      PutSame(prev, n, Lookup(dict, n));
    }
  }

  /** Putting a name again with the value it already has changes nothing. */
  lemma PutSame(options: Options, name: string, v: Option<Json>)
    requires name in Names(options)
    requires forall j :: 0 <= j < |options| && options[j].0 == name ==> options[j].1 == v
    ensures Put(options, name, v) == options
  {
    var r := Put(options, name, v);
    forall j | 0 <= j < |r| ensures r[j] == options[j] {
      if options[j].0 == name {
        assert r[j].1 == v;
      }
    }
  }

  /** A placeholder seen for the first time goes last, when it is known. */
  lemma NewPlaceholder(dict: map<string, Json>, names: seq<string>, n: string)
    requires n !in names
    ensures TemplateKeys(dict, names + [n]) ==
      TemplateKeys(dict, names) + (if Found(dict, n) then [(n, Lookup(dict, n))] else [])
  {
    var all := names + [n];
    assert all[..|all| - 1] == names && all[|all| - 1] == n;
    assert n !in FoundNames(dict, names);
  }

  /** The reports for a sequence of expressions are the reports for its parts, in order. */
  lemma {:induction false} MissingReportsAppend(dict: map<string, Json>, first: seq<string>, second: seq<string>)
    ensures MissingReports(dict, first + second) == MissingReports(dict, first) + MissingReports(dict, second)
    decreases |second|
  {
    var all := first + second;
    if second == [] {
      assert all == first;
    } else {
      var n := |second|;
      assert all[..|all| - 1] == first + second[..n - 1];
      assert all[|all| - 1] == second[n - 1];
      MissingReportsAppend(dict, first, second[..n - 1]);
    }
  }

  /** No report exactly when every expression is known. */
  lemma {:induction false} MissingReportsNone(dict: map<string, Json>, names: seq<string>)
    ensures MissingReports(dict, names) == [] <==> forall j :: 0 <= j < |names| ==> Found(dict, names[j])
  {
    if names != [] {
      var n := |names|;
      var front := names[..n - 1];
      MissingReportsNone(dict, front);
      assert forall j :: 0 <= j < n - 1 ==> front[j] == names[j];
      var last := if Found(dict, names[n - 1]) then [] else [MissingTemplateKey(names[n - 1], dict)];
      assert MissingReports(dict, names) == MissingReports(dict, front) + last;
    }
  }

  /** When no expression is known, each one is reported, in order. */
  lemma {:induction false} MissingReportsAll(dict: map<string, Json>, names: seq<string>)
    requires forall j :: 0 <= j < |names| ==> !Found(dict, names[j])
    ensures |MissingReports(dict, names)| == |names|
    ensures forall j :: 0 <= j < |names| ==> MissingReports(dict, names)[j] == MissingTemplateKey(names[j], dict)
  {
    if names != [] {
      var n := |names|;
      var front := names[..n - 1];
      assert forall j :: 0 <= j < n - 1 ==> front[j] == names[j];
      MissingReportsAll(dict, front);
      var prev := MissingReports(dict, front);
      var r := MissingReports(dict, names);
      assert r == prev + [MissingTemplateKey(names[n - 1], dict)];
      forall j | 0 <= j < n ensures r[j] == MissingTemplateKey(names[j], dict) {
        if j < n - 1 {
          assert r[j] == prev[j];
        }
      }
    }
  }

  /** Rendering a concatenation renders the parts in turn. */
  lemma {:induction false} RenderAppend(first: Template, second: Template, c: Combination)
    ensures Render(first + second, c) ==
      match Render(first, c)
      case Aborted(reason) => Aborted(reason)
      case Ok(s) => Prefixed(s, Render(second, c))
  {
    if first == [] {
      assert first + second == second;
      PrefixedNil(Render(second, c));
    } else {
      assert (first + second)[0] == first[0] && (first + second)[1..] == first[1..] + second;
      RenderAppend(first[1..], second, c);
      match Render(first[1..], c)
      case Aborted(_) =>
      case Ok(rest) =>
        if first[0].Text? {
          PrefixedTwice(first[0].text, rest, Render(second, c));
        } else if '.' !in first[0].name && first[0].name in c {
          PrefixedTwice(ToText(c[first[0].name]), rest, Render(second, c));
        }
    }
  }

  /** Combinations that agree on the placeholders render the same. */
  lemma {:induction false} RenderReadsOnlyPlaceholders(t: Template, c1: Combination, c2: Combination)
    requires forall j :: 0 <= j < |Holes(t)| ==>
      (Holes(t)[j] in c1 <==> Holes(t)[j] in c2) && (Holes(t)[j] in c1 ==> c1[Holes(t)[j]] == c2[Holes(t)[j]])
    ensures Render(t, c1) == Render(t, c2)
  {
    if t != [] {
      var rest := Holes(t[1..]);
      if t[0].Hole? {
        assert Holes(t) == [t[0].name] + rest;
        assert Holes(t)[0] == t[0].name;
        assert forall j :: 0 <= j < |rest| ==> rest[j] == Holes(t)[j + 1];
      } else {
        assert Holes(t) == rest;
      }
      RenderReadsOnlyPlaceholders(t[1..], c1, c2);
    }
  }

  /** Rendering all combinations yields one key per combination, in order,
      when each renders; otherwise it throws. */
  lemma {:induction false} RenderAllKeys(t: Template, combinations: seq<Combination>)
    ensures RenderAll(t, combinations).Ok? <==> forall j :: 0 <= j < |combinations| ==> Render(t, combinations[j]).Ok?
    ensures RenderAll(t, combinations).Ok? ==>
      |RenderAll(t, combinations).value| == |combinations| &&
      forall j :: 0 <= j < |combinations| ==> RenderAll(t, combinations).value[j] == Render(t, combinations[j]).value
  {
    if combinations != [] {
      RenderAllKeys(t, combinations[1..]);
      assert forall j :: 1 <= j < |combinations| ==> combinations[j] == combinations[1..][j - 1];
    }
  }

  /** With no known placeholder (in particular with none at all) every
      expression is reported and the product over the empty `templateKeys`
      throws. */
  lemma NothingFoundThrows(t: Template, dict: map<string, Json>)
    requires !ShadowsHasOwnProperty(JObj(dict))
    requires forall j :: 0 <= j < |Holes(t)| ==> !Found(dict, Holes(t)[j])
    ensures Rendered(t, dict).keys == Aborted(NothingToCombine)
    ensures |Rendered(t, dict).reports| == |Holes(t)|
    ensures forall j :: 0 <= j < |Holes(t)| ==> Rendered(t, dict).reports[j] == MissingTemplateKey(Holes(t)[j], dict)
  {
    var options := TemplateKeys(dict, Holes(t));
    assert FoundNames(dict, Holes(t)) == {};
    NoNames(options);
    MissingReportsAll(dict, Holes(t));
  }

  /** When the dictionary's `hasOwnProperty` is the inherited method and
      every placeholder is an undotted key of it whose values the loop visits
      without `undefined`, nothing is reported and one key is rendered per
      combination: as many as the product of the value-list lengths. */
  lemma RenderedCount(t: Template, dict: map<string, Json>)
    requires Holes(t) != [] && !ShadowsHasOwnProperty(JObj(dict))
    requires forall j :: 0 <= j < |Holes(t)| ==>
      '.' !in Holes(t)[j] && Holes(t)[j] in dict && Dense(Some(dict[Holes(t)[j]]))
    ensures Rendered(t, dict).reports == []
    ensures AllIterable(TemplateKeys(dict, Holes(t)))
    ensures Rendered(t, dict).keys.Ok?
    ensures |Rendered(t, dict).keys.value| == LengthProduct(TemplateKeys(dict, Holes(t)))
  {
    var names := Holes(t);
    var options := TemplateKeys(dict, names);
    ListedPlaceholders(dict, names);
    MissingReportsNone(dict, names);
    CountIsProduct(options);
    var assignments := Assignments(options).value;
    EveryCombinationRenders(t, options, assignments);
    RenderAllKeys(t, Clones(assignments));
  }

  /** Placeholders that are undotted keys are all known, and each one's
      value is the dictionary's, so its values are visited without `undefined`. */
  lemma ListedPlaceholders(dict: map<string, Json>, names: seq<string>)
    requires names != []
    requires forall j :: 0 <= j < |names| ==> '.' !in names[j] && names[j] in dict && Dense(Some(dict[names[j]]))
    ensures forall j :: 0 <= j < |names| ==> Found(dict, names[j]) && names[j] in Names(TemplateKeys(dict, names))
    ensures TemplateKeys(dict, names) != []
    ensures forall i :: 0 <= i < |TemplateKeys(dict, names)| ==> Dense(TemplateKeys(dict, names)[i].1)
    ensures AllIterable(TemplateKeys(dict, names))
  {
    var options := TemplateKeys(dict, names);
    assert forall j :: 0 <= j < |names| ==> names[j] in FoundNames(dict, names);
    assert names[0] in Names(options);
    forall i | 0 <= i < |options| ensures Dense(options[i].1) {
      assert options[i].0 in Names(options);
    }
  }

  /** Every clone binds each undotted placeholder that is a known key, when
      no key's values include `undefined`, so the template renders. */
  lemma EveryCombinationRenders(t: Template, options: Options, assignments: seq<Assignment>)
    requires options != [] && DistinctNames(options) && Assignments(options) == Ok(assignments)
    requires forall i :: 0 <= i < |options| ==> Dense(options[i].1)
    requires forall j :: 0 <= j < |Holes(t)| ==> '.' !in Holes(t)[j] && Holes(t)[j] in Names(options)
    ensures forall k :: 0 <= k < |assignments| ==> Render(t, Clone(assignments[k])).Ok?
  {
    forall k | 0 <= k < |assignments| ensures Render(t, Clone(assignments[k])).Ok? {
      DenseClones(options, k);
    }
  }


  /** The placeholder of tests/lib/rules/json-key-exists.js:57 is reported;
      the product over the then empty `templateKeys` throws. */
  lemma UnknownPlaceholderScenario(t: Template, dict: map<string, Json>)
    requires t == [Text("valid_key_"), Hole("invalid_dynamic")]
    requires dict == map["dynamic" := JArr([JStr("dynamic_1"), JStr("dynamic_2")])]
    ensures Rendered(t, dict) == Rendering([MissingTemplateKey("invalid_dynamic", dict)], Aborted(NothingToCombine))
  {
    var p, n := "valid_key_", "invalid_dynamic";
    assert t == [Text(p), Hole(n)] && '.' !in n && n !in dict;
    UnlistedPlaceholder(p, n, dict);
  }

  /** A template whose one placeholder is undotted and not in the dictionary:
      the placeholder is reported and the product throws. */
  lemma UnlistedPlaceholder(prefix: string, name: string, dict: map<string, Json>)
    requires '.' !in name && name !in dict && !ShadowsHasOwnProperty(JObj(dict))
    ensures Rendered([Text(prefix), Hole(name)], dict) ==
      Rendering([MissingTemplateKey(name, dict)], Aborted(NothingToCombine))
  {
    var t := [Text(prefix), Hole(name)];
    assert Holes(t) == [name] by {
      assert Holes(t[1..][1..]) == [];
    }
    NothingFoundThrows(t, dict);
  }


  /** A template with one undotted placeholder listed with two strings
      renders its text followed by each string, in list order. */
  lemma TwoValueRendering(prefix: string, name: string, first: string, second: string)
    requires '.' !in name && name != "hasOwnProperty"
    ensures var dict := map[name := JArr([JStr(first), JStr(second)])];
      Rendered([Text(prefix), Hole(name)], dict) == Rendering([], Ok([prefix + first, prefix + second]))
  {
    var vals := [JStr(first), JStr(second)];
    var dict := map[name := JArr(vals)];
    var t := [Text(prefix), Hole(name)];
    var combinations := TwoCombinations(name, vals);
    OneListedPlaceholder(t, dict, name);
    TwoRenderAll(t, prefix, name, combinations, first, second);
  }

  /** A template whose only placeholder is an undotted key: no report, and
      the rendering of each clone of that key's assignments. */
  lemma OneListedPlaceholder(t: Template, dict: map<string, Json>, name: string)
    requires '.' !in name && name in dict && !ShadowsHasOwnProperty(JObj(dict))
    requires Holes(t) == [name]
    ensures Assignments([(name, Some(dict[name]))]).Ok? ==>
      Rendered(t, dict) == Rendering([], RenderAll(t, Clones(Assignments([(name, Some(dict[name]))]).value)))
  {
    OneKnownPlaceholder(dict, name);
  }

  lemma TwoRenderAll(t: Template, prefix: string, name: string, combinations: seq<Combination>, first: string, second: string)
    requires t == [Text(prefix), Hole(name)] && '.' !in name
    requires combinations == [map[name := JStr(first)], map[name := JStr(second)]]
    ensures RenderAll(t, combinations) == Ok([prefix + first, prefix + second])
  {
    TwoRender(t, prefix, name, combinations[0], first);
    TwoRender(t, prefix, name, combinations[1], second);
    assert combinations[1..][0] == combinations[1] && combinations[1..][1..] == [];
    assert [prefix + second] + [] == [prefix + second];
    assert RenderAll(t, combinations[1..]) == Ok([prefix + second]);
    assert [prefix + first] + [prefix + second] == [prefix + first, prefix + second];
  }

  lemma OneKnownPlaceholder(dict: map<string, Json>, name: string)
    requires '.' !in name && name in dict
    ensures TemplateKeys(dict, [name]) == [(name, Some(dict[name]))]
    ensures MissingReports(dict, [name]) == []
  {
    assert [name][..0] == [];
    assert Names([]) == {};
  }

  lemma TwoCombinations(name: string, vals: seq<Json>) returns (combinations: seq<Combination>)
    requires |vals| == 2
    ensures Assignments([(name, Some(JArr(vals)))]).Ok?
    ensures Clones(Assignments([(name, Some(JArr(vals)))]).value) == combinations
    ensures combinations == [map[name := vals[0]], map[name := vals[1]]]
  {
    var held := Some(JArr(vals));
    VisitedValues(held);
    assert ValuesOf(held).value == [Some(vals[0]), Some(vals[1])];
    OneKey(name, held);
    var row := Row(name, [Some(vals[0]), Some(vals[1])], map[]);
    assert row == [map[name := Some(vals[0])], map[name := Some(vals[1])]] by {
      assert row[0] == map[name := Some(vals[0])] && row[1] == map[name := Some(vals[1])];
    }
    assert Clone(row[0]) == map[name := vals[0]] && Clone(row[1]) == map[name := vals[1]];
    combinations := Clones(row);
    assert combinations == [map[name := vals[0]], map[name := vals[1]]] by {
      assert combinations[0] == Clone(row[0]) && combinations[1] == Clone(row[1]);
    }
  }

  lemma TwoRender(t: Template, prefix: string, name: string, c: Combination, value: string)
    requires t == [Text(prefix), Hole(name)] && '.' !in name
    requires c == map[name := JStr(value)]
    ensures Render(t, c) == Ok(prefix + value)
  {
    assert t[1..][0] == Hole(name) && t[1..][1..] == [];
    assert value + [] == value;
    assert Render(t[1..], c) == Ok(value);
  }

  /** The template of tests/lib/rules/json-key-exists.js:64 renders once per listed value. */
  lemma ListedValuesScenario(t: Template, dict: map<string, Json>)
    requires t == [Text("valid_key_"), Hole("dynamic")]
    requires dict == map["dynamic" := JArr([JStr("dynamic_1"), JStr("invalid_value_2")])]
    ensures Rendered(t, dict) == Rendering([], Ok(["valid_key_dynamic_1", "valid_key_invalid_value_2"]))
  {
    var p, n, a, b := "valid_key_", "dynamic", "dynamic_1", "invalid_value_2";
    ListedValuesParts(t, dict, p, n, a, b);
    TwoValueRendering(p, n, a, b);
  }

  /** The test's literals written as prefix, placeholder and listed values. */
  lemma ListedValuesParts(t: Template, dict: map<string, Json>, p: string, n: string, a: string, b: string)
    requires t == [Text("valid_key_"), Hole("dynamic")]
    requires dict == map["dynamic" := JArr([JStr("dynamic_1"), JStr("invalid_value_2")])]
    requires p == "valid_key_" && n == "dynamic" && a == "dynamic_1" && b == "invalid_value_2"
    ensures '.' !in n
    ensures t == [Text(p), Hole(n)] && dict == map[n := JArr([JStr(a), JStr(b)])]
    ensures [p + a, p + b] == ["valid_key_dynamic_1", "valid_key_invalid_value_2"]
  {
    assert p + a == "valid_key_dynamic_1";
    assert p + b == "valid_key_invalid_value_2";
  }

}
