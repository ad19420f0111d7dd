/** Reading placeholder values from annotation comments (`parseComments`):
    every comment that carries the rule's marker holds a JSON object between
    braces; the objects are merged in comment order, and each comment whose
    object cannot be read yields one error. */
module Comments {
  import opened JsValues
  import opened Findings

  /** The text that marks an annotation comment. */
  const Marker: string := "eslint-plugin-i18n-validator/json-key-exists"

  /** The characters a regular-expression `.` does not match. */
  predicate IsLineTerminator(c: char) {
    c == '\n' || c == '\r' || c == '\U{2028}' || c == '\U{2029}'
  }

  /** The longest prefix of `s` without a line terminator. */
  function Line(s: string): (r: string)
    ensures r <= s
    ensures forall i :: 0 <= i < |r| ==> !IsLineTerminator(r[i])
    ensures |r| < |s| ==> IsLineTerminator(s[|r|])
  {
    if s == [] || IsLineTerminator(s[0]) then [] else [s[0]] + Line(s[1..])
  }

  /** The position of the last `}` in `s`. */
  function LastClose(s: string): (r: Option<nat>)
    ensures r.Some? ==> r.value < |s| && s[r.value] == '}' && forall i :: r.value < i < |s| ==> s[i] != '}'
    ensures r.None? ==> forall i :: 0 <= i < |s| ==> s[i] != '}'
  {
    if s == [] then None
    else if s[|s| - 1] == '}' then Some(|s| - 1)
    else LastClose(s[..|s| - 1])
  }

  /** No line terminator strictly between positions `i` and `j`. */
  predicate SameLine(s: string, i: nat, j: nat)
    requires i <= j <= |s|
  {
    forall k :: i < k < j ==> !IsLineTerminator(s[k])
  }

  /** `s.match(/\{.*\}/)`: from the first `{` that is followed by a `}` on its
      line, up to the last `}` on that line. */
  function BraceMatch(s: string): (r: Option<string>)
    ensures r.Some? ==> |r.value| >= 2 && r.value[0] == '{' && r.value[|r.value| - 1] == '}'
    ensures r.Some? ==> forall i :: 0 <= i < |r.value| ==> !IsLineTerminator(r.value[i])
  {
    if s == [] then None
    else if s[0] == '{' then
      var line := Line(s[1..]);
      match LastClose(line)
      case Some(k) =>
        var m := [s[0]] + line[..k + 1];
        assert m[|m| - 1] == line[k];
        assert forall i :: 0 < i < |m| ==> m[i] == line[i - 1];
        Some(m)
      case None => BraceMatch(s[1..])
    else BraceMatch(s[1..])
  }

  /** What one comment adds: nothing without the marker, the object it holds,
      or an error when there is no braced text or the text does not parse. */
  datatype Contribution = Ignored | Merged(values: map<string, Json>) | Failed

  /** A braced text that `JSON.parse` accepts starts with `{`, so it denotes
      an object; `parse` gives that object's fields, or `None` on a syntax error. */
  function Contribute(comment: string, parse: string -> Option<map<string, Json>>): (r: Contribution)
    ensures r.Ignored? <==> !Includes(comment, Marker)
    ensures r.Merged? <==>
      Includes(comment, Marker) && BraceMatch(comment).Some? && parse(BraceMatch(comment).value).Some?
    ensures r.Merged? ==> r.values == parse(BraceMatch(comment).value).value
  {
    if !Includes(comment, Marker) then Ignored
    else
      match BraceMatch(comment)
      case None => Failed
      case Some(text) =>
        match parse(text)
        case None => Failed
        case Some(values) => Merged(values)
  }

  /** `{templatingValuesDict, templatingErrors}`. */
  datatype Parsed = Parsed(dict: map<string, Json>, errors: seq<Finding>)

  /** The result of `parseComments` over `comments`, one comment at a time. */
  function ParsedComments(comments: seq<string>, parse: string -> Option<map<string, Json>>): Parsed {
    if comments == [] then Parsed(map[], [])
    else
      var n := |comments|;
      Added(ParsedComments(comments[..n - 1], parse), comments[n - 1], Contribute(comments[n - 1], parse))
  }

  /** What is parsed so far, with one more comment's contribution. */
  function Added(prev: Parsed, comment: string, contribution: Contribution): Parsed {
    match contribution
    case Ignored => prev
    case Merged(values) => Parsed(prev.dict + values, prev.errors)
    case Failed => Parsed(prev.dict, prev.errors + [FailedParsingComment(comment)])
  }

  /** `parseComments(comments)`. */
  method ParseComments(comments: seq<string>, parse: string -> Option<map<string, Json>>)
    returns (templatingValuesDict: map<string, Json>, templatingErrors: seq<Finding>)
    ensures Parsed(templatingValuesDict, templatingErrors) == ParsedComments(comments, parse)
  {
    templatingValuesDict := map[];
    templatingErrors := [];
    for i := 0 to |comments|
      invariant Parsed(templatingValuesDict, templatingErrors) == ParsedComments(comments[..i], parse)
    {
      assert comments[..i + 1][..i] == comments[..i];
      var comment := comments[i];
      if Includes(comment, Marker) {
        var matched := BraceMatch(comment);
        var templatingValues := if matched.Some? then parse(matched.value) else None;
        if templatingValues.Some? {
          templatingValuesDict := templatingValuesDict + templatingValues.value;
        } else {
          templatingErrors := templatingErrors + [FailedParsingComment(comment)];
        }
      }
    }
    assert comments[..|comments|] == comments;
  }
}

module CommentProperties {
  import opened JsValues
  import opened Findings
  import opened Comments

  /** The braced text exists exactly when some `{` has a `}` after it on the same line. */
  lemma {:induction false} BraceMatchExists(s: string)
    ensures BraceMatch(s).Some? <==>
      exists i, j :: 0 <= i < j < |s| && s[i] == '{' && s[j] == '}' && SameLine(s, i, j)
  {
    if s != [] {
      BraceMatchExists(s[1..]);
      var t := s[1..];
      if (exists i, j :: 0 <= i < j < |t| && t[i] == '{' && t[j] == '}' && SameLine(t, i, j)) {
        var i, j :| 0 <= i < j < |t| && t[i] == '{' && t[j] == '}' && SameLine(t, i, j);
        assert s[i + 1] == '{' && s[j + 1] == '}';
        assert SameLine(s, i + 1, j + 1) by {
          forall k | i + 1 < k < j + 1 ensures !IsLineTerminator(s[k]) {
            assert s[k] == t[k - 1];
          }
        }
      }
      if s[0] == '{' {
        var line := Line(t);
        if LastClose(line).Some? {
          var k := LastClose(line).value;
          assert s[k + 1] == line[k];
          assert SameLine(s, 0, k + 1) by {
            forall x | 0 < x < k + 1 ensures !IsLineTerminator(s[x]) {
              assert s[x] == line[x - 1];
            }
          }
        } else {
          ShiftedWitness(s);
        }
      } else {
        ShiftedWitness(s);
      }
    }
  }

  /** A witness in `s` that does not start at a `{` with a `}` on its line is a witness in `s[1..]`. */
  lemma ShiftedWitness(s: string)
    requires s != []
    requires s[0] == '{' ==> LastClose(Line(s[1..])).None?
    ensures (exists i, j :: 0 <= i < j < |s| && s[i] == '{' && s[j] == '}' && SameLine(s, i, j)) ==>
      exists i, j :: 0 <= i < j < |s[1..]| && s[1..][i] == '{' && s[1..][j] == '}' && SameLine(s[1..], i, j)
  {
    var t := s[1..];
    if exists i, j :: 0 <= i < j < |s| && s[i] == '{' && s[j] == '}' && SameLine(s, i, j) {
      var i, j :| 0 <= i < j < |s| && s[i] == '{' && s[j] == '}' && SameLine(s, i, j);
      if i == 0 {
        var line := Line(t);
        assert j - 1 < |line|;
        assert line[j - 1] == '}';
      } else {
        assert t[i - 1] == '{' && t[j - 1] == '}';
        assert SameLine(t, i - 1, j - 1) by {
          forall k | i - 1 < k < j - 1 ensures !IsLineTerminator(t[k]) {
            assert t[k] == s[k + 1];
          }
        }
      }
    }
  }

  /** The results over two runs of comments combine: the later objects are
      merged over the earlier ones, and the errors are concatenated. */
  lemma {:induction false} ParsedAppend(first: seq<string>, second: seq<string>, parse: string -> Option<map<string, Json>>)
    ensures ParsedComments(first + second, parse) ==
      Parsed(ParsedComments(first, parse).dict + ParsedComments(second, parse).dict,
             ParsedComments(first, parse).errors + ParsedComments(second, parse).errors)
    decreases |second|
  {
    var all := first + second;
    if second == [] {
      assert all == first;
      assert ParsedComments(first, parse).dict + map[] == ParsedComments(first, parse).dict;
      assert ParsedComments(first, parse).errors + [] == ParsedComments(first, parse).errors;
    } else {
      var n := |second|;
      assert all[..|all| - 1] == first + second[..n - 1];
      assert all[|all| - 1] == second[n - 1];
      ParsedAppend(first, second[..n - 1], parse);
      AddedAppend(ParsedComments(first, parse), ParsedComments(second[..n - 1], parse), second[n - 1],
                  Contribute(second[n - 1], parse));
    }
  }

  /** A contribution added after two combined results is added after the second. */
  lemma AddedAppend(a: Parsed, b: Parsed, comment: string, contribution: Contribution)
    ensures Added(Parsed(a.dict + b.dict, a.errors + b.errors), comment, contribution) ==
      Parsed(a.dict + Added(b, comment, contribution).dict, a.errors + Added(b, comment, contribution).errors)
  {
    match contribution
    case Ignored =>
    case Merged(values) =>
      assert (a.dict + b.dict) + values == a.dict + (b.dict + values);
    case Failed =>
      assert (a.errors + b.errors) + [FailedParsingComment(comment)] ==
        a.errors + (b.errors + [FailedParsingComment(comment)]);
  }

  /** What one comment yields on its own. */
  lemma ParsedSingle(comment: string, parse: string -> Option<map<string, Json>>)
    ensures ParsedComments([comment], parse) ==
      match Contribute(comment, parse)
      case Ignored => Parsed(map[], [])
      case Merged(values) => Parsed(values, [])
      case Failed => Parsed(map[], [FailedParsingComment(comment)])
  {
    assert [comment][..0] == [];
    if Contribute(comment, parse).Merged? {
      assert map[] + Contribute(comment, parse).values == Contribute(comment, parse).values;
    }
  }

  /** A comment without the marker changes nothing. */
  lemma UnmarkedIgnored(first: seq<string>, comment: string, second: seq<string>, parse: string -> Option<map<string, Json>>)
    requires !Includes(comment, Marker)
    ensures ParsedComments(first + [comment] + second, parse) == ParsedComments(first + second, parse)
  {
    ParsedAppend(first + [comment], second, parse);
    ParsedAppend(first, [comment], parse);
    ParsedAppend(first, second, parse);
    ParsedSingle(comment, parse);
    assert ParsedComments(first, parse).dict + map[] == ParsedComments(first, parse).dict;
    assert ParsedComments(first, parse).errors + [] == ParsedComments(first, parse).errors;
  }

  /** A comment that fails adds its one error and does not stop the later
      comments from being merged. */
  lemma FailureDoesNotStop(first: seq<string>, comment: string, second: seq<string>, parse: string -> Option<map<string, Json>>)
    requires Contribute(comment, parse) == Failed
    ensures ParsedComments(first + [comment] + second, parse) ==
      Parsed(ParsedComments(first, parse).dict + ParsedComments(second, parse).dict,
             ParsedComments(first, parse).errors + [FailedParsingComment(comment)] + ParsedComments(second, parse).errors)
  {
    ParsedAppend(first + [comment], second, parse);
    ParsedAppend(first, [comment], parse);
    ParsedSingle(comment, parse);
    assert ParsedComments(first, parse).dict + map[] == ParsedComments(first, parse).dict;
  }

  /** A later comment's value for a name replaces an earlier one's. */
  lemma LaterOverwrites(first: seq<string>, second: seq<string>, parse: string -> Option<map<string, Json>>, name: string)
    ensures var later := ParsedComments(second, parse).dict;
      var all := ParsedComments(first + second, parse).dict;
      (name in later ==> name in all && all[name] == later[name]) &&
      (name !in later ==> (name in all <==> name in ParsedComments(first, parse).dict))
  {
    ParsedAppend(first, second, parse);
  }

  /** There are no errors exactly when every marked comment holds a parsable object. */
  lemma {:induction false} NoErrorsIff(comments: seq<string>, parse: string -> Option<map<string, Json>>)
    ensures ParsedComments(comments, parse).errors == [] <==>
      forall i :: 0 <= i < |comments| ==> Contribute(comments[i], parse) != Failed
  {
    if comments != [] {
      var n := |comments|;
      NoErrorsIff(comments[..n - 1], parse);
      assert forall i :: 0 <= i < n - 1 ==> comments[..n - 1][i] == comments[i];
    }
  }
}
