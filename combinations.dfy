/** The cross product of placeholder values (`getCombinations`): every way of
    giving each placeholder one of its values, first placeholder slowest. */
module Combinations {
  import opened JsValues
  import opened Findings

  /** One clone pushed into `results`: the value of each placeholder it holds. */
  type Combination = map<string, Json>

  /** The object `current`, and the assignments a level makes to it: a value
      per property, `None` where the property holds `undefined`. */
  type Assignment = map<string, Option<Json>>

  /** `JSON.parse(JSON.stringify(current))`: `JSON.stringify` leaves out the
      properties that hold `undefined`; every other value comes back as it was. */
  function Clone(current: Assignment): (c: Combination)
    ensures forall k :: k in c <==> k in current && current[k].Some?
    ensures forall k :: k in c ==> current[k] == Some(c[k])
  {
    map k | k in current && current[k].Some? :: current[k].value
  }

  /** The `templateKeys` object in key order: a placeholder name and the
      value stored under it, `None` where JavaScript stored `undefined`. */
  type Options = seq<(string, Option<Json>)>

  function Names(options: Options): set<string> {
    set i | 0 <= i < |options| :: options[i].0
  }

  /** Only the empty list of options has no names. */
  lemma NoNames(options: Options)
    ensures Names(options) == {} <==> options == []
  {
    if options != [] {
      assert options[0].0 in Names(options);
    }
  }

  /** Object keys are distinct. */
  predicate DistinctNames(options: Options) {
    forall i, j :: 0 <= i < j < |options| ==> options[i].0 != options[j].0
  }

  /** What `for (i = 0; i < vals.length; i++) ... vals[i]` visits, `None`
      for an element that is `undefined`; `None` as a whole where reading
      `vals.length` throws (`vals` null or undefined) or comparing `i` with it
      does (a `length` object whose own `toString` field hides the method). */
  function ValuesOf(held: Option<Json>): (r: Option<seq<Option<Json>>>)
    ensures r.None? <==>
      held.None? || held == Some(JNull) || (held.value.JObj? && LoopCount(OwnProperty(held.value, "length")).None?)
  {
    if held.None? || held.value.JNull? then None
    else
      var vals := held.value;
      match LoopCount(OwnProperty(vals, "length"))
      case None => None
      case Some(n) => Some(seq(n, i requires 0 <= i < n => OwnProperty(vals, NatText(i))))
  }

  /** An array is visited element by element and a string character by
      character; a number or boolean has no `length`, so the loop never runs;
      an object is visited as far as its own `length` field says, index `i`
      being its property named by the numeral of `i`, `undefined` where it
      has none. */
  lemma VisitedValues(held: Option<Json>)
    ensures held.Some? && held.value.JArr? ==>
      ValuesOf(held).Some? && |ValuesOf(held).value| == |held.value.items| &&
      forall i :: 0 <= i < |held.value.items| ==> ValuesOf(held).value[i] == Some(held.value.items[i])
    ensures held.Some? && held.value.JStr? ==>
      ValuesOf(held).Some? && |ValuesOf(held).value| == |held.value.s| &&
      forall i :: 0 <= i < |held.value.s| ==> ValuesOf(held).value[i] == Some(JStr([held.value.s[i]]))
    ensures held.Some? && (held.value.JNum? || held.value.JBool?) ==> ValuesOf(held) == Some([])
    ensures held.Some? && held.value.JObj? && ValuesOf(held).Some? ==>
      |ValuesOf(held).value| == LoopCount(OwnProperty(held.value, "length")).value &&
      forall i :: 0 <= i < |ValuesOf(held).value| ==>
        ValuesOf(held).value[i] == if NatText(i) in held.value.fields then Some(held.value.fields[NatText(i)]) else None
  {
    if held.Some? {
      match held.value
      case JArr(items) =>
        forall i | 0 <= i < |items| ensures ValuesOf(held).value[i] == Some(items[i]) {
          IndexName(i);
        }
      case JStr(s) =>
        forall i | 0 <= i < |s| ensures ValuesOf(held).value[i] == Some(JStr([s[i]])) {
          IndexName(i);
        }
      case JNum(_) => assert |ValuesOf(held).value| == 0;
      case JBool(_) => assert |ValuesOf(held).value| == 0;
      case _ =>
    }
  }

  /** `rest` with `key` set to `v` in each element. */
  function Bind(key: string, v: Option<Json>, rest: seq<Assignment>): (r: seq<Assignment>)
    ensures |r| == |rest|
    ensures forall j :: 0 <= j < |r| ==> r[j] == rest[j][key := v]
  {
    if rest == [] then [] else [rest[0][key := v]] + Bind(key, v, rest[1..])
  }

  /** One block of `rest` per value of `vals`, in the order of `vals`. */
  function Extend(key: string, vals: seq<Option<Json>>, rest: seq<Assignment>): seq<Assignment> {
    if vals == [] then []
    else Extend(key, vals[..|vals| - 1], rest) + Bind(key, vals[|vals| - 1], rest)
  }

  /** One block of `|rest|` elements per value. */
  lemma {:induction false} ExtendLength(key: string, vals: seq<Option<Json>>, rest: seq<Assignment>)
    ensures |Extend(key, vals, rest)| == |vals| * |rest|
  {
    if vals != [] {
      ExtendLength(key, vals[..|vals| - 1], rest);
      assert |vals[..|vals| - 1]| * |rest| + |rest| == |vals| * |rest|;
    }
  }

  /** The element at `a * |rest| + b` of `Extend` gives `key` the value
      `vals[a]` and the other keys the values of `rest[b]`. */
  lemma ExtendAt(key: string, vals: seq<Option<Json>>, rest: seq<Assignment>, a: nat, b: nat)
    requires a < |vals| && b < |rest|
    ensures a * |rest| + b < |Extend(key, vals, rest)|
    ensures Extend(key, vals, rest)[a * |rest| + b] == rest[b][key := vals[a]]
  {
    ExtendBlockAt(key, vals, rest, a, b);
    var front := vals[..a];
    assert |front| == a;
    ExtendLength(key, front, rest);
  }

  /** The block of `vals[a]` starts after the blocks of the values before it. */
  lemma ExtendBlockAt(key: string, vals: seq<Option<Json>>, rest: seq<Assignment>, a: nat, b: nat)
    requires a < |vals| && b < |rest|
    ensures |Extend(key, vals[..a], rest)| + b < |Extend(key, vals, rest)|
    ensures Extend(key, vals, rest)[|Extend(key, vals[..a], rest)| + b] == rest[b][key := vals[a]]
  {
    var before := Extend(key, vals[..a], rest);
    var block := Bind(key, vals[a], rest);
    ExtendPrefix(key, vals, rest, a + 1);
    ExtendSnoc(key, vals, a, rest);
    assert (before + block)[|before| + b] == block[b];
  }

  /** The blocks of the first `i` values begin the blocks of all of them. */
  lemma {:induction false} ExtendPrefix(key: string, vals: seq<Option<Json>>, rest: seq<Assignment>, i: nat)
    requires i <= |vals|
    ensures Extend(key, vals[..i], rest) <= Extend(key, vals, rest)
    decreases |vals|
  {
    if i == |vals| {
      assert vals[..i] == vals;
    } else {
      var n := |vals|;
      ExtendPrefix(key, vals[..n - 1], rest, i);
      assert vals[..n - 1][..i] == vals[..i];
    }
  }

  lemma ExtendIndex(key: string, vals: seq<Option<Json>>, rest: seq<Assignment>, j: nat) returns (a: nat, b: nat)
    requires j < |Extend(key, vals, rest)|
    ensures a < |vals| && b < |rest| && a * |rest| + b == j
    ensures Extend(key, vals, rest)[j] == rest[b][key := vals[a]]
  {
    var p := |rest|;
    var n := |vals|;
    ExtendLength(key, vals, rest);
    a, b := DivMod(j, n, p);
    ExtendAt(key, vals, rest, a, b);
  }

  lemma DivMod(j: nat, n: nat, p: nat) returns (a: nat, b: nat)
    requires p > 0 && j < n * p
    ensures a < n && b < p && a * p + b == j
  {
    a, b := j / p, j % p;
    if a >= n {
      MulMonotone(n, a, p);
    }
  }

  lemma {:induction false} MulMonotone(x: nat, y: nat, p: nat)
    requires x <= y
    ensures x * p <= y * p
  {
    if x < y {
      MulMonotone(x, y - 1, p);
    }
  }

  /** The value assignments `getCombinations` produces for `options`, first
      key slowest. A key whose values cannot be iterated throws when the
      recursion reaches it; once a key has no values the deeper keys are
      never reached. */
  function Assignments(options: Options): Outcome<seq<Assignment>>
    requires |options| >= 1
    decreases |options|
  {
    var key := options[0].0;
    match ValuesOf(options[0].1)
    case None => Aborted(NotIterable(key))
    case Some(vals) =>
      if |options| == 1 then Ok(Extend(key, vals, [map[]]))
      else if vals == [] then Ok([])
      else
        match Assignments(options[1..])
        case Aborted(reason) => Aborted(reason)
        case Ok(rest) => Ok(Extend(key, vals, rest))
  }

  /** `current` overlaid with each of `assignments`: the clones pushed into `results`. */
  function Layer(current: Assignment, assignments: seq<Assignment>): (r: seq<Combination>)
    ensures |r| == |assignments|
    ensures forall j :: 0 <= j < |r| ==> r[j] == Clone(current + assignments[j])
  {
    if assignments == [] then [] else [Clone(current + assignments[0])] + Layer(current, assignments[1..])
  }

  /** The assignments of the keys after `optionIndex`; at the last key, the
      single empty assignment. */
  function Deeper(options: Options, optionIndex: nat): Outcome<seq<Assignment>>
    requires optionIndex < |options|
  {
    if optionIndex + 1 < |options| then Assignments(options[optionIndex + 1..]) else Ok([map[]])
  }

  /** `getCombinations(options, optionIndex, results, current)`: sets
      `current[optionKey]` to each value in turn, recursing into the next key
      or pushing a clone of `current` at the last key. It returns the grown
      `results` and leaves `current` changed only at keys from
      `optionIndex` on. With no keys at all `vals` is undefined and the loop
      throws. */
  method GetCombinations(options: Options, optionIndex: nat, results: seq<Combination>, current: Assignment)
    returns (outcome: Outcome<seq<Combination>>, after: Assignment)
    requires optionIndex == 0 || optionIndex < |options|
    requires DistinctNames(options)
    ensures optionIndex >= |options| ==> outcome == Aborted(NothingToCombine)
    ensures optionIndex < |options| && Assignments(options[optionIndex..]).Aborted? ==>
      outcome == Aborted(Assignments(options[optionIndex..]).reason)
    ensures optionIndex < |options| && Assignments(options[optionIndex..]).Ok? ==>
      outcome == Ok(results + Layer(current, Assignments(options[optionIndex..]).value))
    ensures optionIndex < |options| && outcome.Ok? ==>
      after - Names(options[optionIndex..]) == current - Names(options[optionIndex..])
    decreases |options| - optionIndex, 1
  {
    if optionIndex >= |options| {
      return Aborted(NothingToCombine), current;
    }
    var optionKey := options[optionIndex].0;
    var held := ValuesOf(options[optionIndex].1);
    if held.None? {
      assert options[optionIndex..][0] == options[optionIndex];
      return Aborted(NotIterable(optionKey)), current;
    }
    var vals := held.value;
    AssignmentsUnfold(options, optionIndex);
    NamesSplit(options, optionIndex);
    ghost var names := Names(options[optionIndex..]);
    ghost var deeper := Names(options[optionIndex + 1..]);
    ghost var rest: seq<Assignment> := if Deeper(options, optionIndex).Ok? then Deeper(options, optionIndex).value else [];
    DeeperKeys(options, optionIndex);
    var res := results;
    var cur := current;
    for i := 0 to |vals|
      invariant i > 0 ==> Deeper(options, optionIndex).Ok?
      invariant res == results + Layer(current, Extend(optionKey, vals[..i], rest))
      invariant cur - names == current - names
    {
      var before := cur;
      var inner;
      inner, cur := VisitValue(options, optionIndex, vals[i], res, cur);
      if inner.Aborted? {
        return inner, cur;
      }
      DeeperLayer(options, optionIndex, current, before, vals[i], rest);
      CurrentStep(before, cur, current, optionKey, vals[i], names, deeper);
      StepResults(results, res, current, optionKey, vals, i, rest, Layer(current, Bind(optionKey, vals[i], rest)));
      res := inner.value;
    }
    assert vals[..|vals|] == vals;
    return Ok(res), cur;
  }

  /** One turn of the loop: `current[optionKey] = v`, then either the deeper
      keys' combinations over it or, at the last key, one clone of it. */
  method VisitValue(options: Options, optionIndex: nat, v: Option<Json>, results: seq<Combination>, current: Assignment)
    returns (outcome: Outcome<seq<Combination>>, after: Assignment)
    requires optionIndex < |options|
    requires DistinctNames(options)
    ensures Deeper(options, optionIndex).Aborted? ==> outcome == Aborted(Deeper(options, optionIndex).reason)
    ensures Deeper(options, optionIndex).Ok? ==>
      outcome == Ok(results + Layer(current[options[optionIndex].0 := v], Deeper(options, optionIndex).value))
    ensures Deeper(options, optionIndex).Ok? ==>
      after - Names(options[optionIndex + 1..]) == current[options[optionIndex].0 := v] - Names(options[optionIndex + 1..])
    decreases |options| - optionIndex, 0
  {
    var optionKey := options[optionIndex].0;
    var cur := current[optionKey := v];
    if optionIndex + 1 < |options| {
      outcome, after := GetCombinations(options, optionIndex + 1, results, cur);
    } else {
      var res := Clone(cur);
      assert Layer(cur, [map[]]) == [res] by {
        assert cur + map[] == cur;
      }
      outcome, after := Ok(results + [res]), cur;
    }
  }

  /** The product over the keys from `optionIndex` on, one level unfolded. */
  lemma AssignmentsUnfold(options: Options, optionIndex: nat)
    requires optionIndex < |options| && ValuesOf(options[optionIndex].1).Some?
    ensures ValuesOf(options[optionIndex].1).value == [] ==> Assignments(options[optionIndex..]) == Ok([])
    ensures ValuesOf(options[optionIndex].1).value != [] && Deeper(options, optionIndex).Aborted? ==>
      Assignments(options[optionIndex..]) == Aborted(Deeper(options, optionIndex).reason)
    ensures ValuesOf(options[optionIndex].1).value != [] && Deeper(options, optionIndex).Ok? ==>
      Assignments(options[optionIndex..]) ==
        Ok(Extend(options[optionIndex].0, ValuesOf(options[optionIndex].1).value, Deeper(options, optionIndex).value))
  {
    var suffix := options[optionIndex..];
    assert suffix[0] == options[optionIndex];
    if optionIndex + 1 < |options| {
      assert suffix[1..] == options[optionIndex + 1..];
    }
  }

  /** The deeper assignments name exactly the deeper keys. */
  lemma DeeperKeys(options: Options, optionIndex: nat)
    requires optionIndex < |options|
    ensures Deeper(options, optionIndex).Ok? ==>
      forall j :: 0 <= j < |Deeper(options, optionIndex).value| ==>
        Deeper(options, optionIndex).value[j].Keys == Names(options[optionIndex + 1..])
  {
    if optionIndex + 1 < |options| && Assignments(options[optionIndex + 1..]).Ok? {
      AssignmentKeys(options[optionIndex + 1..]);
    } else if optionIndex + 1 >= |options| {
      assert options[optionIndex + 1..] == [];
    }
  }

  /** One more turn of the loop adds one block of `Extend`. */
  lemma {:induction false} StepResults(results: seq<Combination>, res: seq<Combination>, current: Assignment, key: string,
                    vals: seq<Option<Json>>, i: nat, rest: seq<Assignment>, added: seq<Combination>)
    requires i < |vals|
    requires res == results + Layer(current, Extend(key, vals[..i], rest))
    requires added == Layer(current, Bind(key, vals[i], rest))
    ensures res + added == results + Layer(current, Extend(key, vals[..i + 1], rest))
  {
    var front := Extend(key, vals[..i], rest);
    var step := Bind(key, vals[i], rest);
    ExtendSnoc(key, vals, i, rest);
    LayerAppend(current, front, step);
    Associative(results, Layer(current, front), Layer(current, step));
  }

  /** Sequence concatenation is associative. Stated once, generically: the
      same fact asserted inline at `seq<Combination>` is far costlier to prove
      than this call. */
  lemma Associative<T>(a: seq<T>, b: seq<T>, c: seq<T>)
    ensures (a + b) + c == a + (b + c)
  {
  }

  lemma {:induction false} ExtendSnoc(key: string, vals: seq<Option<Json>>, i: nat, rest: seq<Assignment>)
    requires i < |vals|
    ensures Extend(key, vals[..i + 1], rest) == Extend(key, vals[..i], rest) + Bind(key, vals[i], rest)
  {
    assert vals[..i + 1][..i] == vals[..i] && vals[..i + 1][i] == vals[i];
  }

  /** Setting `key` and then changing only deeper keys leaves the keys outside `names` alone. */
  lemma CurrentStep(before: Assignment, after: Assignment, current: Assignment, key: string, v: Option<Json>,
                    names: set<string>, deeper: set<string>)
    requires names == {key} + deeper
    requires before - names == current - names
    requires after - deeper == before[key := v] - deeper
    ensures after - names == current - names
  {
    assert after - names == (after - deeper) - {key};
    assert before - names == (before[key := v] - deeper) - {key};
  }

  lemma NamesSplit(options: Options, index: nat)
    requires index < |options|
    ensures Names(options[index..]) == {options[index].0} + Names(options[index + 1..])
    ensures DistinctNames(options) ==> options[index].0 !in Names(options[index + 1..])
  {
    var suffix := options[index..];
    var tail := options[index + 1..];
    forall k | k in Names(suffix) ensures k in {options[index].0} + Names(tail) {
      var i :| 0 <= i < |suffix| && suffix[i].0 == k;
      if i > 0 {
        assert tail[i - 1] == suffix[i];
      }
    }
    forall k | k in Names(tail) ensures k in Names(suffix) {
      var i :| 0 <= i < |tail| && tail[i].0 == k;
      assert suffix[i + 1] == tail[i];
    }
    assert suffix[0] == options[index];
  }

  /** Every assignment names exactly the keys of `options`. */
  lemma {:induction false} AssignmentKeys(options: Options)
    requires |options| >= 1
    requires Assignments(options).Ok?
    ensures forall j :: 0 <= j < |Assignments(options).value| ==> Assignments(options).value[j].Keys == Names(options)
    decreases |options|
  {
    var key := options[0].0;
    var vals := ValuesOf(options[0].1).value;
    var r := Assignments(options).value;
    NamesSplit(options, 0);
    assert options[0..] == options;
    if |options| == 1 {
      assert Names(options[1..]) == {};
      forall j | 0 <= j < |r| ensures r[j].Keys == Names(options) {
        var a, b := ExtendIndex(key, vals, [map[]], j);
      }
    } else if vals != [] {
      AssignmentKeys(options[1..]);
      var rest := Assignments(options[1..]).value;
      forall j | 0 <= j < |r| ensures r[j].Keys == Names(options) {
        var a, b := ExtendIndex(key, vals, rest, j);
      }
    }
  }

  /** What the recursive call pushes for one value of `optionKey` is one block of `Extend`. */
  lemma DeeperLayer(options: Options, index: nat, current: Assignment, before: Assignment, v: Option<Json>, rest: seq<Assignment>)
    requires index < |options|
    requires DistinctNames(options)
    requires before - Names(options[index..]) == current - Names(options[index..])
    requires forall j :: 0 <= j < |rest| ==> rest[j].Keys == Names(options[index + 1..])
    ensures Layer(before[options[index].0 := v], rest) == Layer(current, Bind(options[index].0, v, rest))
  {
    var key := options[index].0;
    NamesSplit(options, index);
    var l := Layer(before[key := v], rest);
    var r := Layer(current, Bind(key, v, rest));
    forall j | 0 <= j < |rest| ensures l[j] == r[j] {
      Overlay(before, current, Names(options[index..]), key, v, rest[j]);
    }
  }

  lemma Overlay(before: Assignment, current: Assignment, names: set<string>, key: string, v: Option<Json>, a: Assignment)
    requires key in names && key !in a
    requires before - names == current - names
    requires a.Keys + {key} == names
    ensures before[key := v] + a == current + a[key := v]
  {
    var x := before[key := v] + a;
    var y := current + a[key := v];
    forall k | k !in names ensures (k in before <==> k in current) && (k in before ==> before[k] == current[k]) {
      assert k in before <==> k in before - names;
      assert k in current <==> k in current - names;
      if k in before {
        assert (before - names)[k] == before[k];
        assert (current - names)[k] == current[k];
      }
    }
    assert x.Keys == y.Keys;
    forall k | k in x ensures x[k] == y[k] {
      if k in a {
      } else if k == key {
      } else {
        assert k !in names;
      }
    }
  }

  lemma {:induction false} LayerAppend(current: Assignment, first: seq<Assignment>, second: seq<Assignment>)
    ensures Layer(current, first + second) == Layer(current, first) + Layer(current, second)
  {
    if first == [] {
      assert first + second == second;
    } else {
      assert (first + second)[0] == first[0];
      assert (first + second)[1..] == first[1..] + second;
      LayerAppend(current, first[1..], second);
      Associative([Clone(current + first[0])], Layer(current, first[1..]), Layer(current, second));
    }
  }
  /** The clones of `assignments`, one for one. */
  function Clones(assignments: seq<Assignment>): (r: seq<Combination>)
    ensures |r| == |assignments|
    ensures forall j :: 0 <= j < |r| ==> r[j] == Clone(assignments[j])
  {
    if assignments == [] then [] else [Clone(assignments[0])] + Clones(assignments[1..])
  }

  /** Over the empty starting object, the clones pushed are those of the assignments. */
  lemma LayerOverEmpty(assignments: seq<Assignment>)
    ensures Layer(map[], assignments) == Clones(assignments)
  {
    var l := Layer(map[], assignments);
    forall j | 0 <= j < |l| ensures l[j] == Clones(assignments)[j] {
      assert map[] + assignments[j] == assignments[j];
    }
  }
}

module CombinationProperties {
  import opened JsValues
  import opened Findings
  import opened Combinations

  /** Every key's values can be iterated. */
  predicate AllIterable(options: Options) {
    forall i :: 0 <= i < |options| ==> ValuesOf(options[i].1).Some?
  }

  /** The recursion reaches key `j`: every earlier key has at least one value. */
  predicate Reached(options: Options, j: nat) {
    j <= |options| &&
    forall i :: 0 <= i < j ==> ValuesOf(options[i].1).Some? && ValuesOf(options[i].1).value != []
  }

  /** The product of the lengths of the keys' value lists. */
  function LengthProduct(options: Options): nat
    requires AllIterable(options)
  {
    if options == [] then 1 else |ValuesOf(options[0].1).value| * LengthProduct(options[1..])
  }

  lemma ReachedTail(options: Options, j: nat)
    requires 1 <= j && Reached(options, j)
    ensures Reached(options[1..], j - 1)
  {
    forall i | 0 <= i < j - 1 ensures ValuesOf(options[1..][i].1) == ValuesOf(options[i + 1].1) {
    }
  }

  /** The loop over the key's values visits a value at every index: none is `undefined`. */
  predicate Dense(held: Option<Json>) {
    ValuesOf(held).Some? && forall u :: 0 <= u < |ValuesOf(held).value| ==> ValuesOf(held).value[u].Some?
  }

  /** Arrays, strings, numbers and booleans never yield an `undefined` element. */
  lemma NonObjectsDense(v: Json)
    requires v.JArr? || v.JStr? || v.JNum? || v.JBool?
    ensures Dense(Some(v))
  {
    VisitedValues(Some(v));
  }

  /** When no key's values include `undefined`, every clone holds every key. */
  lemma DenseClones(options: Options, j: nat)
    requires |options| >= 1 && DistinctNames(options)
    requires Assignments(options).Ok? && j < |Assignments(options).value|
    requires forall i :: 0 <= i < |options| ==> Dense(options[i].1)
    ensures Clone(Assignments(options).value[j]).Keys == Names(options)
  {
    var a := Assignments(options).value[j];
    AssignmentKeys(options);
    ValuesFromOwnLists(options, j);
    forall k | k in a ensures a[k].Some? {
      var i :| 0 <= i < |options| && options[i].0 == k;
      var u :| 0 <= u < |ValuesOf(options[i].1).value| && ValuesOf(options[i].1).value[u] == a[k];
    }
  }

  /** With one key, the assignments give it each of its values in turn. */
  lemma OneKey(name: string, held: Option<Json>)
    requires ValuesOf(held).Some?
    ensures Assignments([(name, held)]) == Ok(Row(name, ValuesOf(held).value, map[]))
  {
    var options := [(name, held)];
    var vals := ValuesOf(held).value;
    assert options[0] == (name, held) && |options| == 1;
    assert Assignments(options) == Ok(Extend(name, vals, [map[]]));
    RowOfEmpty(name, vals);
    assert Row(name, vals, map[]) == Extend(name, vals, [map[]]);
  }

  /** An object whose `length` field is 2 is iterated like an array: its
      properties "0" and "1" are the values, in that order. */
  lemma ArrayLikeObject(name: string, first: Json, second: Json)
    ensures var vals := JObj(map["length" := JNum(2), "0" := first, "1" := second]);
      Assignments([(name, Some(vals))]) == Ok([map[name := Some(first)], map[name := Some(second)]])
  {
    var m := map["length" := JNum(2), "0" := first, "1" := second];
    var held := Some(JObj(m));
    VisitedValues(held);
    assert NatText(0) == "0" && NatText(1) == "1";
    assert ValuesOf(held).value == [Some(first), Some(second)];
    OneKey(name, held);
    var row := Row(name, [Some(first), Some(second)], map[]);
    assert row[0] == map[name := Some(first)] && row[1] == map[name := Some(second)];
    assert row == [map[name := Some(first)], map[name := Some(second)]];
  }

  /** An index the object lacks is `undefined`: the assignment holds
      `undefined` and the clone leaves the placeholder out. */
  lemma MissingIndexIsUndefined(name: string)
    ensures Assignments([(name, Some(JObj(map["length" := JNum(1)])))]) == Ok([map[name := None]])
    ensures Clones([map[name := None]]) == [map[]]
  {
    var held := Some(JObj(map["length" := JNum(1)]));
    VisitedValues(held);
    assert NatText(0) == "0";
    assert ValuesOf(held).value == [None];
    OneKey(name, held);
    assert Row(name, [None], map[])[0] == map[name := None];
    assert Row(name, [None], map[]) == [map[name := None]];
    assert Clone(map[name := None]) == map[];
    assert Clones([map[name := None]])[0] == map[];
  }

  /** The product throws at the first reached key whose values cannot be iterated. */
  lemma {:induction false} AbortsAtReachedKey(options: Options, j: nat)
    requires j < |options| && Reached(options, j) && ValuesOf(options[j].1).None?
    ensures Assignments(options) == Aborted(NotIterable(options[j].0))
  {
    if j > 0 {
      ReachedTail(options, j);
      assert options[1..][j - 1] == options[j];
      AbortsAtReachedKey(options[1..], j - 1);
    }
  }

  /** The product succeeds when every key the recursion reaches can be iterated. */
  lemma {:induction false} SucceedsWhenReachedKeysIterable(options: Options)
    requires |options| >= 1
    requires forall j :: 0 <= j < |options| && Reached(options, j) ==> ValuesOf(options[j].1).Some?
    ensures Assignments(options).Ok?
  {
    assert Reached(options, 0);
    var vals := ValuesOf(options[0].1).value;
    if |options| > 1 && vals != [] {
      forall j | 0 <= j < |options| - 1 && Reached(options[1..], j)
        ensures ValuesOf(options[1..][j].1).Some?
      {
        assert Reached(options, j + 1) by {
          forall i | 0 <= i < j + 1
            ensures ValuesOf(options[i].1).Some? && ValuesOf(options[i].1).value != []
          {
            if i > 0 {
              assert options[1..][i - 1] == options[i];
            }
          }
        }
        assert options[1..][j] == options[j + 1];
      }
      SucceedsWhenReachedKeysIterable(options[1..]);
    }
  }

  /** A reached key without values yields no combinations. */
  lemma {:induction false} EmptyListYieldsNone(options: Options, j: nat)
    requires j < |options| && Reached(options, j) && ValuesOf(options[j].1) == Some([])
    ensures Assignments(options) == Ok([])
  {
    if j > 0 {
      ReachedTail(options, j);
      assert options[1..][j - 1] == options[j];
      EmptyListYieldsNone(options[1..], j - 1);
      ExtendLength(options[0].0, ValuesOf(options[0].1).value, []);
    } else if |options| == 1 {
      assert Extend(options[0].0, [], [map[]]) == [];
    }
  }

  /** With every key iterable the product has exactly the product of the list lengths. */
  lemma {:induction false} CountIsProduct(options: Options)
    requires |options| >= 1 && AllIterable(options)
    ensures Assignments(options).Ok?
    ensures |Assignments(options).value| == LengthProduct(options)
  {
    var vals := ValuesOf(options[0].1).value;
    assert AllIterable(options[1..]) by {
      forall i | 0 <= i < |options| - 1 ensures ValuesOf(options[1..][i].1).Some? {
        assert options[1..][i] == options[i + 1];
      }
    }
    if |options| == 1 {
      assert options[1..] == [];
      ExtendLength(options[0].0, vals, [map[]]);
    } else if vals != [] {
      CountIsProduct(options[1..]);
      ExtendLength(options[0].0, vals, Assignments(options[1..]).value);
    }
  }

  /** Each combination gives every key one of that key's own values. */
  lemma {:induction false} ValuesFromOwnLists(options: Options, j: nat)
    requires |options| >= 1 && DistinctNames(options)
    requires Assignments(options).Ok? && j < |Assignments(options).value|
    ensures forall i :: 0 <= i < |options| ==>
      ValuesOf(options[i].1).Some? &&
      options[i].0 in Assignments(options).value[j] &&
      Assignments(options).value[j][options[i].0] in ValuesOf(options[i].1).value
  {
    var key := options[0].0;
    var vals := ValuesOf(options[0].1).value;
    var r := Assignments(options).value;
    if |options| == 1 {
      var a, b := ExtendIndex(key, vals, [map[]], j);
    } else {
      var rest := Assignments(options[1..]).value;
      var a, b := ExtendIndex(key, vals, rest, j);
      assert DistinctNames(options[1..]) by {
        forall x, y | 0 <= x < y < |options| - 1 ensures options[1..][x].0 != options[1..][y].0 {
          assert options[1..][x] == options[x + 1] && options[1..][y] == options[y + 1];
        }
      }
      ValuesFromOwnLists(options[1..], b);
      forall i | 1 <= i < |options|
        ensures ValuesOf(options[i].1).Some? && options[i].0 in r[j] && r[j][options[i].0] in ValuesOf(options[i].1).value
      {
        assert options[1..][i - 1] == options[i];
        assert options[i].0 != key;
      }
    }
  }

  /** Element `b` of block `a`, in blocks of `width` elements. */
  function Position(a: nat, width: nat, b: nat): nat {
    a * width + b
  }

  /** The first key varies slowest: the combinations come in one block per
      value of the first key, in list order, and each block lists the
      combinations of the remaining keys in their own order. */
  lemma FirstVariesSlowest(options: Options, a: nat, b: nat)
    requires |options| >= 2
    requires Assignments(options).Ok?
    requires ValuesOf(options[0].1).Some? && a < |ValuesOf(options[0].1).value|
    requires Assignments(options[1..]).Ok? && b < |Assignments(options[1..]).value|
    ensures var rest := Assignments(options[1..]).value;
      Position(a, |rest|, b) < |Assignments(options).value| &&
      Assignments(options).value[Position(a, |rest|, b)] == rest[b][options[0].0 := ValuesOf(options[0].1).value[a]]
  {
    ExtendAt(options[0].0, ValuesOf(options[0].1).value, Assignments(options[1..]).value, a, b);
  }

  /** `c` with `key` set to each of `vals` in turn. */
  function Row(key: string, vals: seq<Option<Json>>, c: Assignment): (r: seq<Assignment>)
    ensures |r| == |vals|
    ensures forall u :: 0 <= u < |r| ==> r[u] == c[key := vals[u]]
  {
    if vals == [] then [] else [c[key := vals[0]]] + Row(key, vals[1..], c)
  }

  /** For each element of `front` in order, one run of `key` through all of `vals`. */
  function ExtendLast(key: string, vals: seq<Option<Json>>, front: seq<Assignment>): seq<Assignment> {
    if front == [] then []
    else Row(key, vals, front[0]) + ExtendLast(key, vals, front[1..])
  }

  /** One row of `|vals|` elements per element of `front`. */
  lemma {:induction false} ExtendLastLength(key: string, vals: seq<Option<Json>>, front: seq<Assignment>)
    ensures |ExtendLast(key, vals, front)| == |front| * |vals|
  {
    if front != [] {
      ExtendLastLength(key, vals, front[1..]);
      assert |vals| + |front[1..]| * |vals| == |front| * |vals|;
    }
  }

  lemma ExtendLastAt(key: string, vals: seq<Option<Json>>, front: seq<Assignment>, t: nat, u: nat)
    requires t < |front| && u < |vals|
    ensures t * |vals| + u < |ExtendLast(key, vals, front)|
    ensures ExtendLast(key, vals, front)[t * |vals| + u] == front[t][key := vals[u]]
  {
    var before := ExtendLast(key, vals, front[..t]);
    var from := front[t..];
    assert front[..t] + from == front;
    ExtendLastAppend(key, vals, front[..t], from);
    assert |front[..t]| == t;
    ExtendLastLength(key, vals, front[..t]);
    var row := Row(key, vals, from[0]);
    assert ExtendLast(key, vals, from) == row + ExtendLast(key, vals, from[1..]);
    assert (before + (row + ExtendLast(key, vals, from[1..])))[|before| + u] == row[u];
  }

  lemma BindAppend(key: string, v: Option<Json>, first: seq<Assignment>, second: seq<Assignment>)
    ensures Bind(key, v, first + second) == Bind(key, v, first) + Bind(key, v, second)
  {
    var l := Bind(key, v, first + second);
    var r := Bind(key, v, first) + Bind(key, v, second);
    forall j | 0 <= j < |l| ensures l[j] == r[j] {
      if j >= |first| {
        assert (first + second)[j] == second[j - |first|];
      }
    }
  }

  lemma BindRow(k0: string, v: Option<Json>, key: string, vals: seq<Option<Json>>, c: Assignment)
    requires k0 != key
    ensures Bind(k0, v, Row(key, vals, c)) == Row(key, vals, c[k0 := v])
  {
    var l := Bind(k0, v, Row(key, vals, c));
    var r := Row(key, vals, c[k0 := v]);
    forall u | 0 <= u < |l| ensures l[u] == r[u] {
      assert c[key := vals[u]][k0 := v] == c[k0 := v][key := vals[u]];
    }
  }

  lemma {:induction false} BindExtendLast(k0: string, v: Option<Json>, key: string, vals: seq<Option<Json>>, front: seq<Assignment>)
    requires k0 != key
    ensures Bind(k0, v, ExtendLast(key, vals, front)) == ExtendLast(key, vals, Bind(k0, v, front))
  {
    if front != [] {
      var bound := Bind(k0, v, front);
      assert bound[0] == front[0][k0 := v] && bound[1..] == Bind(k0, v, front[1..]);
      BindAppend(k0, v, Row(key, vals, front[0]), ExtendLast(key, vals, front[1..]));
      BindRow(k0, v, key, vals, front[0]);
      BindExtendLast(k0, v, key, vals, front[1..]);
    }
  }

  lemma {:induction false} ExtendLastAppend(key: string, vals: seq<Option<Json>>, first: seq<Assignment>, second: seq<Assignment>)
    ensures ExtendLast(key, vals, first + second) == ExtendLast(key, vals, first) + ExtendLast(key, vals, second)
  {
    if first == [] {
      assert first + second == second;
    } else {
      assert (first + second)[0] == first[0] && (first + second)[1..] == first[1..] + second;
      ExtendLastAppend(key, vals, first[1..], second);
    }
  }

  /** Setting the first key and running the last key commute. */
  lemma {:induction false} ExtendCommutes(k0: string, vals0: seq<Option<Json>>, key: string, vals: seq<Option<Json>>, front: seq<Assignment>)
    requires k0 != key
    ensures Extend(k0, vals0, ExtendLast(key, vals, front)) == ExtendLast(key, vals, Extend(k0, vals0, front))
    decreases |vals0|
  {
    var n := |vals0|;
    if n > 0 {
      ExtendCommutes(k0, vals0[..n - 1], key, vals, front);
      BindExtendLast(k0, vals0[n - 1], key, vals, front);
      ExtendLastAppend(key, vals, Extend(k0, vals0[..n - 1], front), Bind(k0, vals0[n - 1], front));
    }
  }

  lemma RowOfEmpty(key: string, vals: seq<Option<Json>>)
    ensures Row(key, vals, map[]) == Extend(key, vals, [map[]])
  {
    var l := Row(key, vals, map[]);
    var r := Extend(key, vals, [map[]]);
    forall u | 0 <= u < |l| ensures l[u] == r[u] {
      ExtendAt(key, vals, [map[]], u, 0);
    }
  }

  /** The last key varies fastest: the combinations are those of every key
      but the last, in their order, each followed through all of the last
      key's values in list order. */
  lemma {:induction false} LastVariesFastest(options: Options)
    requires |options| >= 2 && DistinctNames(options)
    requires ValuesOf(options[|options| - 1].1).Some?
    requires Assignments(options[..|options| - 1]).Ok?
    ensures Assignments(options) == Ok(ExtendLast(options[|options| - 1].0, ValuesOf(options[|options| - 1].1).value,
                                                  Assignments(options[..|options| - 1]).value))
    decreases |options|
  {
    var n := |options|;
    var key := options[n - 1].0;
    var vals := ValuesOf(options[n - 1].1).value;
    var front := options[..n - 1];
    assert front[0] == options[0];
    var k0 := options[0].0;
    var vals0 := ValuesOf(options[0].1).value;
    assert k0 != key;
    if vals0 == [] {
      if n - 1 == 1 {
        assert Extend(k0, vals0, [map[]]) == [];
      }
    } else if n == 2 {
      assert options[1..] == [options[n - 1]];
      assert ExtendLast(key, vals, [map[]]) == Row(key, vals, map[]);
      RowOfEmpty(key, vals);
      ExtendCommutes(k0, vals0, key, vals, [map[]]);
    } else {
      var tail := options[1..];
      assert front[1..] == tail[..|tail| - 1];
      assert tail[|tail| - 1] == options[n - 1];
      assert DistinctNames(tail) by {
        forall x, y | 0 <= x < y < |tail| ensures tail[x].0 != tail[y].0 {
          assert tail[x] == options[x + 1] && tail[y] == options[y + 1];
        }
      }
      LastVariesFastest(tail);
      ExtendCommutes(k0, vals0, key, vals, Assignments(tail[..|tail| - 1]).value);
    }
  }

  /** The element at `t * |vals| + u` pairs the `t`-th combination of the
      other keys with the `u`-th value of the last key. */
  lemma LastVariesFastestAt(options: Options, t: nat, u: nat)
    requires |options| >= 2 && DistinctNames(options)
    requires ValuesOf(options[|options| - 1].1).Some? && u < |ValuesOf(options[|options| - 1].1).value|
    requires Assignments(options[..|options| - 1]).Ok? && t < |Assignments(options[..|options| - 1]).value|
    ensures var vals := ValuesOf(options[|options| - 1].1).value;
      Assignments(options).Ok? &&
      t * |vals| + u < |Assignments(options).value| &&
      Assignments(options).value[t * |vals| + u] ==
        Assignments(options[..|options| - 1]).value[t][options[|options| - 1].0 := vals[u]]
  {
    LastVariesFastest(options);
    ExtendLastAt(options[|options| - 1].0, ValuesOf(options[|options| - 1].1).value,
                 Assignments(options[..|options| - 1]).value, t, u);
  }
}
