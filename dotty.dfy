/** Dotted-path access into a JSON value, as the `dotty` package provides it:
    the path is split on "." and the value is descended one own property at a
    time; descent stops with failure at anything that is not an object. */
module Dotty {
  import opened JsValues

  /** `s.split(".")`: never empty, and no piece contains a dot. */
  function Split(s: string): (parts: seq<string>)
    ensures |parts| >= 1
    ensures forall i :: 0 <= i < |parts| ==> '.' !in parts[i]
  {
    if s == [] then [""]
    else
      var rest := Split(s[1..]);
      if s[0] == '.' then [""] + rest
      else [[s[0]] + rest[0]] + rest[1..]
  }

  /** `parts.join(".")`. */
  function Join(parts: seq<string>): string
    requires |parts| >= 1
  {
    if |parts| == 1 then parts[0] else parts[0] + "." + Join(parts[1..])
  }

  lemma {:induction false} JoinSplit(s: string)
    ensures Join(Split(s)) == s
  {
    if s != [] {
      JoinSplit(s[1..]);
      var rest := Split(s[1..]);
      if s[0] != '.' && |rest| > 1 {
        assert Join(rest) == rest[0] + "." + Join(rest[1..]);
        assert rest[1..] == Split(s)[1..];
      }
    }
  }

  lemma {:induction false} SplitJoin(parts: seq<string>)
    requires |parts| >= 1
    requires forall i :: 0 <= i < |parts| ==> '.' !in parts[i]
    ensures Split(Join(parts)) == parts
  {
    if |parts| == 1 {
      SplitUndotted(parts[0]);
    } else {
      SplitJoin(parts[1..]);
      SplitPrefix(parts[0], Join(parts[1..]));
    }
  }

  lemma {:induction false} SplitUndotted(s: string)
    ensures '.' !in s ==> Split(s) == [s]
  {
    if s != [] && '.' !in s {
      assert s[0] != '.' && '.' !in s[1..];
      SplitUndotted(s[1..]);
      assert [s[0]] + s[1..] == s;
    }
  }

  lemma {:induction false} SplitPrefix(head: string, tail: string)
    requires '.' !in head
    ensures Split(head + "." + tail) == [head] + Split(tail)
  {
    if head != [] {
      assert (head + "." + tail)[1..] == head[1..] + "." + tail;
      assert head[0] != '.' && '.' !in head[1..];
      SplitPrefix(head[1..], tail);
      assert (head + "." + tail)[0] == head[0];
      assert [head[0]] + head[1..] == head;
    } else {
      assert head + "." + tail == "." + tail;
      assert ("." + tail)[1..] == tail;
    }
  }

  /** Whether `path` resolves below `v`; `v` is `None` where JavaScript has `undefined`. */
  function ExistsAt(v: Option<Json>, path: seq<string>): bool
    requires |path| >= 1
    decreases path
  {
    if v.None? || !IsObject(v.value) then false
    else if |path| == 1 then HasOwn(v.value, path[0])
    else ExistsAt(OwnProperty(v.value, path[0]), path[1..])
  }

  /** The value `path` resolves to below `v`, or `None` for `undefined`. */
  function GetAt(v: Option<Json>, path: seq<string>): Option<Json>
    requires |path| >= 1
    decreases path
  {
    if v.None? || !IsObject(v.value) then None
    else if |path| == 1 then OwnProperty(v.value, path[0])
    else GetAt(OwnProperty(v.value, path[0]), path[1..])
  }

  /** `dotty.exists(v, path)`: a path exists exactly when it resolves to a value. */
  function Exists(v: Json, path: string): (b: bool)
    ensures b <==> Get(v, path).Some?
  {
    ExistsAtIffGetAt(Some(v), Split(path));
    ExistsAt(Some(v), Split(path))
  }

  /** `dotty.get(v, path)`: nothing lies below a value that is not an object
      or array, and a path without a dot names one own property. */
  function Get(v: Json, path: string): (r: Option<Json>)
    ensures r.Some? ==> IsObject(v)
    ensures '.' !in path ==> r == if IsObject(v) then OwnProperty(v, path) else None
  {
    SplitUndotted(path);
    GetAt(Some(v), Split(path))
  }

  /** Whether the path resolves, at every depth of the descent. */
  lemma {:induction false} ExistsAtIffGetAt(v: Option<Json>, path: seq<string>)
    requires |path| >= 1
    ensures ExistsAt(v, path) <==> GetAt(v, path).Some?
    decreases path
  {
    if v.Some? && IsObject(v.value) && |path| > 1 {
      ExistsAtIffGetAt(OwnProperty(v.value, path[0]), path[1..]);
    }
  }

  /** `head.tail` exists in an object exactly when `head` is a field whose value has `tail`. */
  lemma DottedPath(m: map<string, Json>, head: string, tail: string)
    requires '.' !in head
    ensures Exists(JObj(m), head + "." + tail) <==> head in m && Exists(m[head], tail)
    ensures Get(JObj(m), head + "." + tail) == if head in m then Get(m[head], tail) else None
  {
    SplitPrefix(head, tail);
    var parts := Split(head + "." + tail);
    assert |parts| > 1 && parts[0] == head && parts[1..] == Split(tail);
    assert Exists(JObj(m), head + "." + tail) == ExistsAt(OwnProperty(JObj(m), head), Split(tail));
    assert Get(JObj(m), head + "." + tail) == GetAt(OwnProperty(JObj(m), head), Split(tail));
  }
}
