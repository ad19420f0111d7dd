/** Checking one candidate key against the loaded documents
    (`checkKeyExistsInJSON` and `checkKeyExists`). */
module KeyCheck {
  import opened JsValues
  import Dotty
  import opened Findings

  /** A key is present in a document when it is an own property of the
      content, or when it is a string whose dotted path resolves to a value. */
  predicate Contains(content: Json, key: Json) {
    HasOwn(content, ToText(key)) || (key.JStr? && Dotty.Get(content, key.s).Some?)
  }

  /** A document whose content `hasOwnProperty` can be called on: not null,
      and not an object whose own `hasOwnProperty` field hides the method. */
  predicate Checkable(content: Json) {
    !content.JNull? && !ShadowsHasOwnProperty(content)
  }

  /** `checkKeyExistsInJSON`: one "Missing key" finding exactly when the key
      is absent. Null content, and content whose `hasOwnProperty` is a data
      field, make the call throw. A key that is not a string is never looked
      up as a path. */
  function CheckKeyExistsInJSON(json: Document, key: Json): (r: Outcome<seq<Finding>>)
    ensures r.Aborted? <==> !Checkable(json.content)
    ensures json.content.JNull? ==> r == Aborted(NullContent(json.path))
    ensures ShadowsHasOwnProperty(json.content) ==> r == Aborted(ShadowedHasOwnProperty(json.path))
    ensures r.Ok? ==> (r.value == [] <==> Contains(json.content, key))
    ensures r.Ok? && r.value != [] ==> r.value == [MissingKey(key, json.path)]
  {
    if json.content.JNull? then Aborted(NullContent(json.path))
    else if ShadowsHasOwnProperty(json.content) then Aborted(ShadowedHasOwnProperty(json.path))
    else if !HasOwn(json.content, ToText(key)) && !(key.JStr? && Dotty.Exists(json.content, key.s))
    then Ok([MissingKey(key, json.path)])
    else Ok([])
  }

  /** What `checkKeyExists` computes: the per-document findings concatenated
      in document order; the first document that cannot be checked aborts. */
  function CheckAll(jsons: seq<Document>, key: Json): Outcome<seq<Finding>> {
    if jsons == [] then Ok([])
    else
      match CheckKeyExistsInJSON(jsons[0], key)
      case Aborted(reason) => Aborted(reason)
      case Ok(errors) => Prefixed(errors, CheckAll(jsons[1..], key))
  }

  /** `checkKeyExists`: the loop that concatenates each document's findings. */
  method CheckKeyExists(jsons: seq<Document>, key: Json) returns (r: Outcome<seq<Finding>>)
    ensures r == CheckAll(jsons, key)
  {
    var errors: seq<Finding> := [];
    var i := 0;
    assert jsons[0..] == jsons;
    PrefixedNil(CheckAll(jsons, key));
    while i < |jsons|
      invariant 0 <= i <= |jsons|
      invariant CheckAll(jsons, key) == Prefixed(errors, CheckAll(jsons[i..], key))
    {
      assert jsons[i..][0] == jsons[i] && jsons[i..][1..] == jsons[i + 1..];
      var found := CheckKeyExistsInJSON(jsons[i], key);
      if found.Aborted? {
        return Aborted(found.reason);
      }
      assert CheckAll(jsons[i..], key) == Prefixed(found.value, CheckAll(jsons[i + 1..], key));
      PrefixedTwice(errors, found.value, CheckAll(jsons[i + 1..], key));
      errors := errors + found.value;
      i := i + 1;
    }
    assert jsons[i..] == [];
    assert errors + [] == errors;
    r := Ok(errors);
  }

  predicate AllCheckable(jsons: seq<Document>) {
    forall i :: 0 <= i < |jsons| ==> Checkable(jsons[i].content)
  }

  /** The documents that lack `key`, in order. */
  function MissingFrom(jsons: seq<Document>, key: Json): (r: seq<Document>)
    ensures |r| <= |jsons|
    ensures forall j :: 0 <= j < |r| ==> r[j] in jsons && !Contains(r[j].content, key)
  {
    if jsons == [] then []
    else (if Contains(jsons[0].content, key) then [] else [jsons[0]]) + MissingFrom(jsons[1..], key)
  }

  lemma {:induction false} MissingFromEmpty(jsons: seq<Document>, key: Json)
    ensures MissingFrom(jsons, key) == [] <==> forall i :: 0 <= i < |jsons| ==> Contains(jsons[i].content, key)
  {
    if jsons != [] {
      MissingFromEmpty(jsons[1..], key);
      assert forall i :: 1 <= i < |jsons| ==> jsons[i] == jsons[1..][i - 1];
    }
  }

  /** One "Missing key" finding for each of `jsons`, in order. */
  function MissingKeyFindings(jsons: seq<Document>, key: Json): (r: seq<Finding>)
    ensures |r| == |jsons|
    ensures forall j :: 0 <= j < |r| ==> r[j] == MissingKey(key, jsons[j].path)
  {
    if jsons == [] then [] else [MissingKey(key, jsons[0].path)] + MissingKeyFindings(jsons[1..], key)
  }

  /** `checkKeyExists` aborts exactly when some document cannot be checked;
      otherwise it reports one "Missing key" finding per document lacking the
      key, carrying that document's path, in document order. */
  lemma CheckAllFindings(jsons: seq<Document>, key: Json)
    ensures CheckAll(jsons, key).Ok? <==> AllCheckable(jsons)
    ensures AllCheckable(jsons) ==> CheckAll(jsons, key) == Ok(MissingKeyFindings(MissingFrom(jsons, key), key))
  {
    if AllCheckable(jsons) {
      FindingsWithoutNull(jsons, key);
    } else {
      UncheckableAborts(jsons, key);
    }
  }

  lemma {:induction false} FindingsWithoutNull(jsons: seq<Document>, key: Json)
    requires AllCheckable(jsons)
    ensures CheckAll(jsons, key) == Ok(MissingKeyFindings(MissingFrom(jsons, key), key))
  {
    if jsons != [] {
      var tail := jsons[1..];
      assert AllCheckable(tail) by {
        assert forall i :: 0 <= i < |tail| ==> tail[i] == jsons[i + 1];
      }
      FindingsWithoutNull(tail, key);
      var rest := MissingFrom(tail, key);
      var found := MissingKeyFindings(rest, key);
      assert Checkable(jsons[0].content);
      if Contains(jsons[0].content, key) {
        assert MissingFrom(jsons, key) == rest;
        assert CheckAll(jsons, key) == Prefixed([], Ok(found));
        PrefixedNil(CheckAll(tail, key));
      } else {
        assert MissingFrom(jsons, key) == [jsons[0]] + rest;
        assert ([jsons[0]] + rest)[1..] == rest;
        assert CheckAll(jsons, key) == Prefixed([MissingKey(key, jsons[0].path)], Ok(found));
      }
    }
  }

  lemma {:induction false} UncheckableAborts(jsons: seq<Document>, key: Json)
    requires !AllCheckable(jsons)
    ensures CheckAll(jsons, key).Aborted?
  {
    var k :| 0 <= k < |jsons| && !Checkable(jsons[k].content);
    if k > 0 {
      var tail := jsons[1..];
      assert !Checkable(tail[k - 1].content);
      UncheckableAborts(tail, key);
    }
  }

  /** At most one finding per document, and none exactly when every document holds the key. */
  lemma AtMostOnePerDocument(jsons: seq<Document>, key: Json)
    requires AllCheckable(jsons)
    ensures CheckAll(jsons, key).Ok? && |CheckAll(jsons, key).value| <= |jsons|
    ensures CheckAll(jsons, key).value == [] <==> forall i :: 0 <= i < |jsons| ==> Contains(jsons[i].content, key)
  {
    CheckAllFindings(jsons, key);
    MissingFromEmpty(jsons, key);
  }

  /** Findings over two document lists are the findings over each, in order. */
  lemma {:induction false} CheckAllAppend(first: seq<Document>, second: seq<Document>, key: Json)
    ensures CheckAll(first + second, key) ==
      match CheckAll(first, key)
      case Aborted(reason) => Aborted(reason)
      case Ok(errors) => Prefixed(errors, CheckAll(second, key))
  {
    if first == [] {
      assert first + second == second;
      PrefixedNil(CheckAll(second, key));
    } else {
      assert (first + second)[0] == first[0];
      assert (first + second)[1..] == first[1..] + second;
      CheckAllAppend(first[1..], second, key);
      match CheckKeyExistsInJSON(first[0], key)
      case Aborted(reason) =>
      case Ok(errors) =>
        match CheckAll(first[1..], key)
        case Aborted(reason) =>
        case Ok(more) =>
          PrefixedTwice(errors, more, CheckAll(second, key));
    }
  }

  /** A key that no document holds yields one finding per document, in document order. */
  lemma {:induction false} MissingEverywhere(jsons: seq<Document>, key: Json)
    requires AllCheckable(jsons)
    requires forall i :: 0 <= i < |jsons| ==> !Contains(jsons[i].content, key)
    ensures CheckAll(jsons, key) == Ok(MissingKeyFindings(jsons, key))
  {
    CheckAllFindings(jsons, key);
    MissingFromAll(jsons, key);
  }

  lemma {:induction false} MissingFromAll(jsons: seq<Document>, key: Json)
    requires forall i :: 0 <= i < |jsons| ==> !Contains(jsons[i].content, key)
    ensures MissingFrom(jsons, key) == jsons
  {
    if jsons != [] {
      var tail := jsons[1..];
      assert forall i :: 0 <= i < |tail| ==> tail[i] == jsons[i + 1];
      MissingFromAll(tail, key);
      assert MissingFrom(jsons, key) == [jsons[0]] + tail;
      assert [jsons[0]] + tail == jsons;
    }
  }
}
