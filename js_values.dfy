/** JSON values as JSON.parse produces them, and the small part of JavaScript's
    object semantics the rule relies on: own properties, truthiness and
    the String() conversion used when a value is spliced into a key. */
module JsValues {

  datatype Option<+T> = None | Some(value: T)

  /** A parsed JSON value. Numbers are restricted to integers. */
  datatype Json =
    | JNull
    | JBool(b: bool)
    | JNum(n: int)
    | JStr(s: string)
    | JArr(items: seq<Json>)
    | JObj(fields: map<string, Json>)

  /** `typeof v === "object" && v !== null`: the values a property path can descend into. */
  predicate IsObject(v: Json) {
    v.JArr? || v.JObj?
  }

  /** JavaScript truthiness, as used by `a || b`: among parsed JSON values
      the falsy ones are exactly `null`, `false`, `0` and `""`. */
  function Truthy(v: Json): (b: bool)
    ensures !b <==> v == JNull || v == JBool(false) || v == JNum(0) || v == JStr("")
  {
    match v
    case JNull => false
    case JBool(b) => b
    case JNum(n) => n != 0
    case JStr(s) => s != ""
    case JArr(_) => true
    case JObj(_) => true
  }

  predicate IsDigit(c: char) {
    '0' <= c <= '9'
  }

  function DigitsValue(s: string): (n: nat)
    requires forall i :: 0 <= i < |s| ==> IsDigit(s[i])
  {
    if s == [] then 0
    else
      assert IsDigit(s[|s| - 1]);
      10 * DigitsValue(s[..|s| - 1]) + (s[|s| - 1] as int - '0' as int)
  }

  /** The array index a property name denotes: a decimal numeral without
      leading zeros ("0", "1", "17", but not "01" or "-1"). */
  function CanonicalIndex(key: string): (r: Option<nat>)
    ensures r.Some? ==> key != [] && (forall i :: 0 <= i < |key| ==> IsDigit(key[i]))
    ensures r.Some? ==> (key[0] == '0' <==> key == "0")
  {
    if key != [] && (forall i :: 0 <= i < |key| ==> IsDigit(key[i])) && (key[0] != '0' || key == "0")
    then Some(DigitsValue(key))
    else None
  }

  /** `Object.hasOwnProperty.call(v, key) ? v[key] : undefined`. Arrays and
      strings own their indices and `length`; objects own their fields;
      numbers, booleans and null own nothing. */
  function OwnProperty(v: Json, key: string): (r: Option<Json>)
    ensures v.JObj? ==> (r.Some? <==> key in v.fields)
    ensures v.JObj? && key in v.fields ==> r == Some(v.fields[key])
    ensures v.JArr? && key == "length" ==> r == Some(JNum(|v.items|))
    ensures (v.JNull? || v.JBool? || v.JNum?) ==> r.None?
  {
    match v
    case JObj(m) => if key in m then Some(m[key]) else None
    case JArr(items) =>
      if key == "length" then Some(JNum(|items|))
      else (match CanonicalIndex(key)
            case Some(i) => if i < |items| then Some(items[i]) else None
            case None => None)
    case JStr(s) =>
      if key == "length" then Some(JNum(|s|))
      else (match CanonicalIndex(key)
            case Some(i) => if i < |s| then Some(JStr([s[i]])) else None
            case None => None)
    case _ => None
  }

  /** The own properties of arrays and strings: `length`, and each
      canonical index below it, holding the element or the one-character
      string there. */
  lemma OwnPropertyByKind(v: Json, key: string)
    ensures v.JArr? && key != "length" ==> (OwnProperty(v, key) ==
      (if CanonicalIndex(key).Some? && CanonicalIndex(key).value < |v.items| then Some(v.items[CanonicalIndex(key).value]) else None))
    ensures v.JStr? && key == "length" ==> OwnProperty(v, key) == Some(JNum(|v.s|))
    ensures v.JStr? && key != "length" ==> (OwnProperty(v, key) ==
      (if CanonicalIndex(key).Some? && CanonicalIndex(key).value < |v.s| then Some(JStr([v.s[CanonicalIndex(key).value]])) else None))
    ensures v.JArr? ==> forall i :: 0 <= i < |v.items| ==> OwnProperty(v, NatText(i)) == Some(v.items[i])
    ensures v.JStr? ==> forall i :: 0 <= i < |v.s| ==> OwnProperty(v, NatText(i)) == Some(JStr([v.s[i]]))
  {
    forall i: nat {
      IndexName(i);
    }
  }

  predicate HasOwn(v: Json, key: string) {
    OwnProperty(v, key).Some?
  }

  /** A parsed object with its own `hasOwnProperty` field: the field is data,
      not a function, so calling `v.hasOwnProperty(...)` throws. */
  predicate ShadowsHasOwnProperty(v: Json) {
    v.JObj? && "hasOwnProperty" in v.fields
  }

  /** The number of turns `for (i = 0; i < n; i++)` makes when `n` is the
      value `length` yields (`None` for `undefined`), or `None` where the
      comparison throws. `i < n` converts `n` to a number: `undefined` and
      non-numeric text give NaN, `null` and `false` give 0, `true` gives 1,
      an array its joined text; an object gives "[object Object]", unless its
      own `toString` field hides the inherited method, and then it throws. */
  function LoopCount(length: Option<Json>): Option<nat>
  {
    match length
    case None => Some(0)
    case Some(JNull) => Some(0)
    case Some(JBool(b)) => Some(if b then 1 else 0)
    case Some(JNum(n)) => Some(if n > 0 then n else 0)
    case Some(JStr(s)) => Some(TextCount(s))
    case Some(JArr(items)) => Some(TextCount(ToText(JArr(items))))
    case Some(JObj(m)) => if "toString" in m then None else Some(0)
  }

  /** What `LoopCount` gives for each kind of value `length` can yield. */
  lemma LoopCountByKind(length: Option<Json>)
    ensures LoopCount(length).None? <==> length.Some? && length.value.JObj? && "toString" in length.value.fields
    ensures length.None? || length == Some(JNull) || length == Some(JBool(false)) ==> LoopCount(length) == Some(0)
    ensures length == Some(JBool(true)) ==> LoopCount(length) == Some(1)
    ensures length.Some? && length.value.JNum? ==> LoopCount(length) == Some(if length.value.n > 0 then length.value.n else 0)
    ensures length.Some? && length.value.JStr? ==> LoopCount(length) == Some(TextCount(length.value.s))
    ensures length.Some? && length.value.JArr? ==> LoopCount(length) == Some(TextCount(ToText(length.value)))
    ensures length.Some? && length.value.JObj? && "toString" !in length.value.fields ==> LoopCount(length) == Some(0)
  {
  }

  /** The number a text of decimal digits converts to; any other text is
      taken as NaN. */
  function TextCount(s: string): nat {
    if forall i :: 0 <= i < |s| ==> IsDigit(s[i]) then DigitsValue(s) else 0
  }

  /** A digit text counts its value; a text with any other character counts 0. */
  lemma TextCountByKind(s: string)
    ensures (forall i :: 0 <= i < |s| ==> IsDigit(s[i])) ==> TextCount(s) == DigitsValue(s)
    ensures (exists i :: 0 <= i < |s| && !IsDigit(s[i])) ==> TextCount(s) == 0
  {
  }

  /** The decimal numeral of `n`, which names array index `n`. */
  function NatText(n: nat): (s: string)
    ensures s != [] && forall i :: 0 <= i < |s| ==> IsDigit(s[i])
    ensures DigitsValue(s) == n
    ensures s[0] == '0' <==> n == 0
  {
    if n < 10 then
      var s := [('0' as int + n) as char];
      assert s[..0] == [];
      s
    else
      var front := NatText(n / 10);
      var s := front + [('0' as int + n % 10) as char];
      assert s[..|s| - 1] == front;
      s
  }

  function IntText(n: int): string {
    if n < 0 then "-" + NatText(-n) else NatText(n)
  }

  /** The numeral of `i` names index `i`, and never `length`. */
  lemma IndexName(i: nat)
    ensures CanonicalIndex(NatText(i)) == Some(i)
    ensures NatText(i) != "length"
  {
    var s := NatText(i);
    assert IsDigit(s[0]) && !IsDigit("length"[0]);
    if i < 10 {
      assert |s| == 1;
    }
  }

  /** A text of zeros only has value 0, and only such a text. */
  lemma {:induction false} ZeroDigits(s: string)
    requires forall i :: 0 <= i < |s| ==> IsDigit(s[i])
    requires DigitsValue(s) == 0
    ensures forall i :: 0 <= i < |s| ==> s[i] == '0'
  {
    if s != [] {
      var front := s[..|s| - 1];
      assert forall i :: 0 <= i < |front| ==> IsDigit(front[i]) by {
        forall i | 0 <= i < |front| ensures IsDigit(front[i]) {
          assert front[i] == s[i];
        }
      }
      ZeroDigits(front);
      assert forall i :: 0 <= i < |front| ==> s[i] == front[i];
    }
  }

  /** A name denotes index `n` exactly when it is the numeral of `n`. */
  lemma IndexNumeral(key: string, n: nat)
    ensures CanonicalIndex(key) == Some(n) <==> key == NatText(n)
  {
    if key == NatText(n) {
      IndexName(n);
    }
    if CanonicalIndex(key) == Some(n) {
      NumeralOfIndex(key);
    }
  }

  /** An index name is the numeral of the index it denotes. */
  lemma {:induction false} NumeralOfIndex(key: string)
    requires CanonicalIndex(key).Some?
    ensures key == NatText(CanonicalIndex(key).value)
    decreases |key|
  {
    var n := CanonicalIndex(key).value;
    if |key| == 1 {
      assert n == DigitsValue(key);
      assert key[..0] == [] && DigitsValue(key[..0]) == 0;
      assert n == key[0] as int - '0' as int;
      assert key == [key[0]];
    } else {
      var front := key[..|key| - 1];
      IndexFront(key);
      NumeralOfIndex(front);
      var m := DigitsValue(front);
      var d := key[|key| - 1] as int - '0' as int;
      assert n / 10 == m && n % 10 == d;
      assert key == front + [key[|key| - 1]];
    }
  }

  /** Dropping the last digit of a longer index name leaves the name of a
      nonzero index, a tenth of the whole. */
  lemma IndexFront(key: string)
    requires CanonicalIndex(key).Some? && |key| >= 2
    ensures var front := key[..|key| - 1]; var d := key[|key| - 1] as int - '0' as int;
      CanonicalIndex(front) == Some(DigitsValue(front)) && DigitsValue(front) >= 1 &&
      0 <= d < 10 && CanonicalIndex(key).value == 10 * DigitsValue(front) + d
  {
    var front := key[..|key| - 1];
    assert front[0] == key[0] && key[0] != '0';
    assert forall i :: 0 <= i < |front| ==> IsDigit(front[i]) by {
      forall i | 0 <= i < |front| ensures IsDigit(front[i]) {
        assert front[i] == key[i];
      }
    }
    if DigitsValue(front) == 0 {
      ZeroDigits(front);
      assert false;
    }
    assert IsDigit(key[|key| - 1]);
  }

  /** `String(v)`: what a value looks like when used as a property name or
      spliced into text. Array elements that are null become empty text. */
  function ToText(v: Json): (s: string)
    ensures v.JStr? ==> s == v.s
    ensures v.JNum? && v.n >= 0 ==> CanonicalIndex(s) == Some(v.n)
    ensures v.JNum? && v.n < 0 ==> s != [] && s[0] == '-' && CanonicalIndex(s).None?
    ensures v.JObj? ==> s == "[object Object]"
  {
    match v
    case JNull => "null"
    case JBool(b) => if b then "true" else "false"
    case JNum(n) => IntText(n)
    case JStr(s) => s
    case JArr(items) =>
      JoinComma(seq(|items|, i requires 0 <= i < |items| => if items[i].JNull? then "" else ToText(items[i])))
    case JObj(_) => "[object Object]"
  }

  /** `String(v)` for each kind of value: `null`, `true`/`false`, the signed
      decimal numeral of a number, and an array's element texts joined by
      commas, with `null` elements empty. */
  lemma ToTextByKind(v: Json)
    ensures v.JNull? ==> ToText(v) == "null"
    ensures v.JBool? ==> ToText(v) == if v.b then "true" else "false"
    ensures v.JNum? && v.n >= 0 ==> ToText(v) == NatText(v.n)
    ensures v.JNum? && v.n < 0 ==> ToText(v) == "-" + NatText(-v.n)
    ensures v.JArr? ==> (ToText(v) ==
      JoinComma(seq(|v.items|, i requires 0 <= i < |v.items| => if v.items[i].JNull? then "" else ToText(v.items[i]))))
    ensures v.JArr? && v.items == [] ==> ToText(v) == ""
    ensures v.JArr? && |v.items| == 1 ==> ToText(v) == if v.items[0].JNull? then "" else ToText(v.items[0])
  {
  }

  function JoinComma(parts: seq<string>): string {
    if parts == [] then ""
    else if |parts| == 1 then parts[0]
    else parts[0] + "," + JoinComma(parts[1..])
  }

  /** `sub` occurs in `s` starting at position `i`. */
  predicate OccursAt(s: string, sub: string, i: nat) {
    i + |sub| <= |s| && s[i..i + |sub|] == sub
  }

  /** `s.includes(sub)`: `sub` occurs somewhere in `s`. */
  function Includes(s: string, sub: string): (b: bool)
    ensures b <==> exists i: nat :: OccursAt(s, sub, i)
    decreases |s|
  {
    if |sub| <= |s| && s[..|sub|] == sub then
      assert OccursAt(s, sub, 0);
      true
    else if s == [] then false
    else
      OccursShifted(s, sub);
      Includes(s[1..], sub)
  }

  /** When `sub` does not start `s`, it occurs in `s` exactly when it occurs in `s[1..]`. */
  lemma OccursShifted(s: string, sub: string)
    requires s != [] && !OccursAt(s, sub, 0)
    ensures (exists i: nat :: OccursAt(s, sub, i)) <==> (exists i: nat :: OccursAt(s[1..], sub, i))
  {
    if exists i: nat :: OccursAt(s, sub, i) {
      var i: nat :| OccursAt(s, sub, i);
      assert s[1..][i - 1..i - 1 + |sub|] == s[i..i + |sub|];
      assert OccursAt(s[1..], sub, i - 1);
    }
    if exists i: nat :: OccursAt(s[1..], sub, i) {
      var i: nat :| OccursAt(s[1..], sub, i);
      assert s[1..][i..i + |sub|] == s[i + 1..i + 1 + |sub|];
      assert OccursAt(s, sub, i + 1);
    }
  }

  /** A numeral read back as a count gives its number. */
  lemma NumeralCount(n: nat)
    ensures TextCount(NatText(n)) == n
  {
    TextCountByKind(NatText(n));
  }

  /** A one-element array `[n]` as `length` counts `n` turns, as its text is the numeral of `n`. */
  lemma SingletonArrayCount(n: nat)
    ensures LoopCount(Some(JArr([JNum(n)])))  == Some(n)
  {
    var parts := seq(1, i requires 0 <= i < 1 => if [JNum(n)][i].JNull? then "" else ToText([JNum(n)][i]));
    assert parts == [NatText(n)];
  }
}
