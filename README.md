# eslint-plugin-i18n-validator: the `json-key-exists` rule, modelled in Dafny

`json-key-exists` is an ESLint rule. It checks that every translation key
passed to `I18n.t(...)` or `I18n.translate(...)` exists in each of a set of
JSON locale files. The key can be given in three ways:

- a string literal;
- a template literal such as `` `valid_key_${dynamic}` ``: the
  placeholders' values come from a
  `/* eslint-plugin-i18n-validator/json-key-exists {...} */` comment inside
  the call, and every combination of those values is rendered and checked;
- a conditional expression whose branches are literals or template
  literals.

A key is present in a locale document when it is an own property of the
document, or when it resolves as a dotted path (`a.b.c`, through the
`dotty` package). The project also models the base resolver. It loads one
JSON document per locale from a base URI, over HTTP when the URI has a
protocol and from the file system otherwise. It collects the documents and
one error message per locale that fails.

Modules, in dependency order:

| module | file | models |
|---|---|---|
| `JsValues` | `js_values.dfy` | parsed JSON values, own properties, truthiness, `String(v)` |
| `Dotty` | `dotty.dfy` | `dotty.exists` / `dotty.get`: split on `.`, then descend one own property at a time |
| `Findings` | `findings.dfy` | locale documents, the rule's reports, and the exceptions the rule can throw (`Abort`) |
| `KeyCheck` | `key_check.dfy` | `checkKeyExistsInJSON`, `checkKeyExists` |
| `Combinations`, `CombinationProperties` | `combinations.dfy` | `getCombinations`, specified by a recursive function, and its order and count |
| `Templates`, `TemplateProperties` | `templates.dfy` | `renderTemplatedKey`: placeholder lookup, the "Missing template key" reports, rendering |
| `Comments`, `CommentProperties` | `comments.dfy` | `parseComments`: the marker, the `{...}` match, the merge |
| `Loader` | `loader.dfy` | the locale-file loading loop in `create` |
| `CallSite`, `CallSiteProperties` | `call_site.dfy` | the `CallExpression` handler |
| `BaseResolver` | `base_resolver.dfy` | `lib/resolvers/baseResolver.js` |

Each loop in the source becomes a Dafny `method` with a loop. Its `ensures`
ties the result to a recursive specification function (`CheckAll`,
`Assignments`, `TemplateKeys`/`MissingReports`, `RenderAll`,
`ParsedComments`, `LoadedFrom`, `ResolvedFrom`, `Handled`). The lemmas state
what the source promises about those functions.

A JavaScript exception is not made a precondition. It is a value
`Aborted(reason)` that the caller passes on. The model has one such value
per cause of an exception it models:

- `null` document content, where `hasOwnProperty` throws;
- document content with its own `hasOwnProperty` field, where calling that
  field throws (line 102), and likewise a comment dictionary with one
  (line 143);
- a placeholder whose value is `null` or `undefined`, where reading
  `.length` throws, or an object whose `length` is an object with its own
  `toString` field, where comparing `i` with it throws;
- an empty `templateKeys`, where `getCombinations` reads
  `options[undefined].length`;
- a call with no argument.

The file system, HTTP, `JSON.parse`, `url` and `path` are parameters of
function type (oracles). One such parameter, `parse: string -> Option<...>`,
returns `None` where `JSON.parse` throws.

Where the code's behaviour differs from what a reader of the rule's
description might expect, the model follows the code:

- When none of a template's placeholders is listed in the comment, or the
  template has no placeholders, `templateKeys` is empty and
  `getCombinations` throws. This happens after the "Missing template key"
  reports have been made (`TemplateProperties.NothingFoundThrows`). The
  test at tests/lib/rules/json-key-exists.js:57-62 checks only that
  report.
- A comment whose JSON fails to parse does not stop the loop over the
  comments. Later comments are still merged
  (`CommentProperties.FailureDoesNotStop`).
- A conditional's candidate keys are concatenated in order: consequent,
  then alternate. Duplicates are kept.

## Model

| member | source | states |
|---|---|---|
| JsValues.OwnProperty | lib/rules/json-key-exists.js:102 | which properties `hasOwnProperty` sees: an object's fields, an array's `length`, and nothing on null, booleans or numbers |
| JsValues.OwnPropertyByKind | lib/rules/json-key-exists.js:102 | an array owns each canonical index below its length, holding the element there; a string owns `length` and each index below it, holding the one-character string there; no other name is owned |
| JsValues.CanonicalIndex | lib/rules/json-key-exists.js:102 | a property name denotes an array index only when it is a decimal numeral without a leading zero |
| JsValues.IndexNumeral | lib/rules/json-key-exists.js:102 | a name denotes index `n` exactly when it is the decimal numeral of `n` |
| JsValues.NumeralOfIndex | lib/rules/json-key-exists.js:102 | every index name is the numeral of the index it denotes |
| JsValues.NatText | lib/rules/json-key-exists.js:18 | the decimal numeral of an index: digits only, denoting that number, with a leading zero only for 0 |
| JsValues.IndexName | lib/rules/json-key-exists.js:18 | the property name `vals[i]` reads denotes index `i`, and is never `length` |
| JsValues.ToText | lib/rules/json-key-exists.js:160 | `String(v)`: a string is itself, a non-negative number is its index numeral, a negative one starts with `-`, an object is `[object Object]` |
| JsValues.ToTextByKind | lib/rules/json-key-exists.js:160 | `String(v)` of `null` is `null`, of a boolean `true` or `false`, of a number its signed decimal numeral, and of an array its element texts joined by commas with `null` elements empty (so `[]` gives the empty text and a one-element array the text of its element) |
| JsValues.Truthy | lib/rules/json-key-exists.js:154 | the falsy JSON values, which make the logical or fall through to its right operand, are exactly `null`, `false`, `0` and `""` |
| JsValues.LoopCountByKind | lib/rules/json-key-exists.js:17 | the number of turns `i < vals.length` allows: 0 for `undefined`, `null` and `false`, 1 for `true`, a number itself when positive, a string or an array through its text, 0 for any other object, and a throw exactly when `length` is an object with its own `toString` field |
| JsValues.TextCountByKind | lib/rules/json-key-exists.js:17 | a text of decimal digits converts to its value; any other text is NaN and allows no turn |
| JsValues.NumeralCount | lib/rules/json-key-exists.js:17 | the numeral of a count converts back to that count |
| JsValues.SingletonArrayCount | lib/rules/json-key-exists.js:17 | a `length` that is the array `[n]` allows `n` turns, as its text is the numeral of `n` |
| JsValues.Includes | lib/rules/json-key-exists.js:119 | `.includes` holds exactly when the marker occurs in the comment at some position |
| Dotty.Split | lib/rules/json-key-exists.js:102 | a dotted path splits into at least one segment, none of which contains a dot |
| Dotty.JoinSplit | lib/rules/json-key-exists.js:102 | joining the segments with `.` gives the path back |
| Dotty.SplitJoin | lib/rules/json-key-exists.js:102 | splitting a join of dot-free segments gives the segments back |
| Dotty.Exists | lib/rules/json-key-exists.js:102 | `dotty.exists` holds exactly when `dotty.get` yields a value |
| Dotty.Get | lib/rules/json-key-exists.js:154 | only an object or array yields a value, and for a path without a dot the value is that own property |
| Dotty.ExistsAtIffGetAt | lib/rules/json-key-exists.js:143-154 | the same equivalence for every path segment sequence and starting value |
| Dotty.DottedPath | lib/rules/json-key-exists.js:102 | `head.tail` exists in an object exactly when `head` is a field whose value has `tail`, and `get` descends the same way |
| KeyCheck.CheckKeyExistsInJSON | lib/rules/json-key-exists.js:101-112 | aborts exactly when the content cannot be checked: it is null, or an object with its own `hasOwnProperty` field, where the call throws; otherwise no finding when the key is an own property or an existing dotted path, and else exactly one "Missing key" finding for this document's path |
| KeyCheck.CheckKeyExists | lib/rules/json-key-exists.js:91-99 | the loop's concatenated findings equal the document-by-document specification `CheckAll`, including the abort |
| KeyCheck.CheckAllFindings | lib/rules/json-key-exists.js:91-112 | aborts exactly when some document's content is null or has its own `hasOwnProperty` field; otherwise the findings are one "Missing key" per document lacking the key, in document order |
| KeyCheck.UncheckableAborts | lib/rules/json-key-exists.js:91-102 | a document list holding null content or an own `hasOwnProperty` field makes the loop throw |
| KeyCheck.AtMostOnePerDocument | lib/rules/json-key-exists.js:91-112 | at most one finding per document, and none exactly when every document holds the key |
| KeyCheck.MissingEverywhere | lib/rules/json-key-exists.js:91-112 | a key that no document holds yields one finding per document, carrying that document's path |
| KeyCheck.CheckAllAppend | lib/rules/json-key-exists.js:94-96 | the findings over two document lists are the first list's findings followed by the second's |
| KeyCheck.MissingFromEmpty | lib/rules/json-key-exists.js:102 | no document lacks the key exactly when every document contains it |
| Combinations.Clone | lib/rules/json-key-exists.js:24 | `JSON.parse(JSON.stringify(current))` keeps exactly the keys whose value is defined, with their values |
| Combinations.ValuesOf | lib/rules/json-key-exists.js:15-18 | the loop over `vals` throws exactly when `vals` is null or undefined, or an object whose `length` has its own `toString` field |
| Combinations.VisitedValues | lib/rules/json-key-exists.js:15-18 | an array visits its elements, a string its one-character strings, a number or boolean nothing, and an object its `length` own indices, `undefined` where an index is absent |
| Combinations.GetCombinations | lib/rules/json-key-exists.js:11-30 | aborts on an empty `templateKeys` or on the first placeholder reached whose value is null or undefined, or an object whose `length` has its own `toString` field; otherwise appends to `results` one clone of `current` (without the keys that hold `undefined`), overlaid with each assignment of the remaining keys, in the order of the specification `Assignments`; `current` changes only at those keys |
| Combinations.VisitValue | lib/rules/json-key-exists.js:18-26 | one loop step: set the key, then recurse into the next key, or push a clone at the last key; the results grow by the deeper assignments overlaid on the updated `current` |
| Combinations.ExtendAt | lib/rules/json-key-exists.js:17-21 | element `a * |rest| + b` of a level's output is the deeper assignment `b` with this key set to value `a` |
| Combinations.ExtendIndex | lib/rules/json-key-exists.js:17-21 | every element of a level's output is some deeper assignment with this key set to one of its values |
| Combinations.AssignmentKeys | lib/rules/json-key-exists.js:18 | every combination binds exactly the placeholder names |
| CombinationProperties.CountIsProduct | lib/rules/json-key-exists.js:11-30 | when no value is null or undefined or an object whose `length` has its own `toString`, the number of combinations is the product of the loop counts |
| CombinationProperties.ValuesFromOwnLists | lib/rules/json-key-exists.js:15-18 | every combination binds each key to one of that key's own values |
| CombinationProperties.FirstVariesSlowest | lib/rules/json-key-exists.js:17-21 | the first key's value `a` fills the contiguous block `a * |rest|` through that plus `|rest| - 1` |
| CombinationProperties.LastVariesFastest | lib/rules/json-key-exists.js:17-25 | the combinations are those of all keys but the last, each followed at once by one copy per value of the last key |
| CombinationProperties.LastVariesFastestAt | lib/rules/json-key-exists.js:17-25 | element `t * |vals| + u` is combination `t` of the shorter key list with the last key set to its value `u` |
| CombinationProperties.EmptyListYieldsNone | lib/rules/json-key-exists.js:17 | a reached key with an empty value list yields no combinations at all |
| CombinationProperties.AbortsAtReachedKey | lib/rules/json-key-exists.js:15-17 | the first reached key whose value is null or undefined, or an object whose `length` has its own `toString`, makes the function throw, naming that key |
| CombinationProperties.SucceedsWhenReachedKeysIterable | lib/rules/json-key-exists.js:11-30 | no throw when no reached key's value is null or undefined or an object whose `length` has its own `toString` |
| CombinationProperties.NonObjectsDense | lib/rules/json-key-exists.js:17-18 | an array, string, number or boolean never yields an `undefined` element |
| CombinationProperties.DenseClones | lib/rules/json-key-exists.js:17-25 | when no key yields an `undefined` element, every clone binds exactly the placeholder names |
| CombinationProperties.OneKey | lib/rules/json-key-exists.js:11-30 | a single key yields one assignment per visited value, in order |
| CombinationProperties.ArrayLikeObject | lib/rules/json-key-exists.js:15-18 | an object `{"length": 2, "0": a, "1": b}` is iterated like the array `[a, b]` |
| CombinationProperties.MissingIndexIsUndefined | lib/rules/json-key-exists.js:18-24 | an object with `length` 1 and no index `0` assigns `undefined`, and the clone then drops the key |
| Templates.Holes | lib/rules/json-key-exists.js:141-142 | the placeholder expressions in order: each occurs in the template, and every placeholder of the template is listed |
| Templates.HolesAppend | lib/rules/json-key-exists.js:141-142 | the placeholders of a concatenated template are the first part's followed by the second's |
| Templates.Found | lib/rules/json-key-exists.js:143 | a placeholder passes the test when it is a key of the dictionary, and, when it has no dot, only then |
| Templates.Lookup | lib/rules/json-key-exists.js:154 | a looked-up value implies the placeholder passed the test; a truthy literal key wins; an undotted placeholder yields exactly its key's value |
| Templates.Put | lib/rules/json-key-exists.js:154 | assigning to `templateKeys` keeps key order and distinctness: an existing key keeps its place and takes the new value, a new key goes last |
| Templates.TemplateKeys | lib/rules/json-key-exists.js:141-155 | `templateKeys` holds each known placeholder once, with its looked-up value, and only known placeholders |
| Templates.MissingReports | lib/rules/json-key-exists.js:143-153 | each report ("Missing template key") names an unknown placeholder and the comment dictionary |
| Templates.Render | lib/rules/json-key-exists.js:160 | rendering succeeds exactly when every placeholder is undotted and bound in the combination |
| Templates.CollectTemplateKeys | lib/rules/json-key-exists.js:141-155 | the loop builds exactly `TemplateKeys` and makes exactly the reports `MissingReports` |
| Templates.RenderEach | lib/rules/json-key-exists.js:157-161 | the rendered keys are the template rendered for each combination in order, or the first rendering's abort |
| Templates.RenderTemplatedKey | lib/rules/json-key-exists.js:136-164 | the reports and the returned keys (or the throw) are those of the specification `Rendered` |
| TemplateProperties.DottedLookup | lib/rules/json-key-exists.js:143-154 | a dotted placeholder is known when it is a literal key or resolves by path; lookup prefers a truthy literal key, then the path |
| TemplateProperties.RepeatedPlaceholder | lib/rules/json-key-exists.js:154 | a placeholder repeated in the template leaves `templateKeys` unchanged |
| TemplateProperties.NewPlaceholder | lib/rules/json-key-exists.js:143-154 | a new placeholder is appended when known and ignored otherwise |
| TemplateProperties.MissingReportsAppend | lib/rules/json-key-exists.js:141-153 | the reports over two placeholder lists are the first list's reports followed by the second's |
| TemplateProperties.MissingReportsNone | lib/rules/json-key-exists.js:143-153 | no "Missing template key" report exactly when every placeholder is known |
| TemplateProperties.MissingReportsAll | lib/rules/json-key-exists.js:143-153 | with no placeholder known, one report per placeholder, in order |
| TemplateProperties.RenderReadsOnlyPlaceholders | lib/rules/json-key-exists.js:160 | two combinations that agree on the placeholders render alike |
| TemplateProperties.RenderAppend | lib/rules/json-key-exists.js:160 | rendering a concatenated template concatenates the two renderings |
| TemplateProperties.RenderAllKeys | lib/rules/json-key-exists.js:157-161 | one rendered key per combination, in combination order, when every combination renders |
| TemplateProperties.NothingFoundThrows | lib/rules/json-key-exists.js:141-157 | when no placeholder is known, each placeholder is reported in order and then the rendering throws |
| TemplateProperties.RenderedCount | lib/rules/json-key-exists.js:136-164 | when the dictionary has no own `hasOwnProperty` field and every placeholder is an undotted comment key whose value yields no `undefined` element, nothing is reported and the number of rendered keys is the product of the value lists' lengths |
| TemplateProperties.EveryCombinationRenders | lib/rules/json-key-exists.js:157-161 | a template whose placeholders are all undotted and all in `templateKeys` renders for every combination |
| TemplateProperties.UnknownPlaceholderScenario | tests/lib/rules/json-key-exists.js:57-62 | `valid_key_${invalid_dynamic}` against `{"dynamic": [...]}`: one "Missing template key" report naming `invalid_dynamic` with that dictionary, then the throw |
| TemplateProperties.UnlistedPlaceholder | lib/rules/json-key-exists.js:141-157 | the same for any text, any unlisted undotted placeholder and any dictionary |
| TemplateProperties.TwoValueRendering | lib/rules/json-key-exists.js:136-164 | text and one placeholder listed with two string values render to the two keys, in list order, with no report |
| TemplateProperties.ListedValuesScenario | tests/lib/rules/json-key-exists.js:64-70 | `valid_key_${dynamic}` with `["dynamic_1","invalid_value_2"]` renders `valid_key_dynamic_1` then `valid_key_invalid_value_2` |
| Comments.Line | lib/rules/json-key-exists.js:121 | the longest prefix without a line terminator, which is where `.` stops |
| Comments.LastClose | lib/rules/json-key-exists.js:121 | the position of the last `}`, after which no `}` follows |
| Comments.BraceMatch | lib/rules/json-key-exists.js:121 | the match of `/\{.*\}/` starts with `{`, ends with `}` and lies within one line |
| Comments.Contribute | lib/rules/json-key-exists.js:119-130 | an unmarked comment is ignored; a marked one merges the parsed object of its braced text, and fails when there is no braced text or it does not parse |
| CommentProperties.BraceMatchExists | lib/rules/json-key-exists.js:121 | the pattern matches exactly when some `{` precedes a `}` on the same line |
| Comments.ParseComments | lib/rules/json-key-exists.js:114-134 | the loop's dictionary and errors equal the comment-by-comment specification `ParsedComments` |
| CommentProperties.ParsedAppend | lib/rules/json-key-exists.js:118-131 | parsing two comment lists merges their dictionaries in order and concatenates their errors |
| CommentProperties.UnmarkedIgnored | lib/rules/json-key-exists.js:119 | a comment without the rule's marker changes nothing |
| CommentProperties.FailureDoesNotStop | lib/rules/json-key-exists.js:123-130 | a marked comment that fails to parse adds one error and the comments after it are still merged |
| CommentProperties.LaterOverwrites | lib/rules/json-key-exists.js:122 | a name defined by a later comment takes that comment's value; other names keep the earlier value |
| CommentProperties.NoErrorsIff | lib/rules/json-key-exists.js:118-131 | no templating error exactly when no marked comment fails to match or parse |
| Loader.LoadDocuments | lib/rules/json-key-exists.js:63-85 | the loop's documents and "Invalid JSON" reports equal the path-by-path specification `LoadedFrom` |
| Loader.OneEntryPerPath | lib/rules/json-key-exists.js:63-85 | every path yields exactly one document or one report |
| Loader.LoadedAppend | lib/rules/json-key-exists.js:63-85 | loading two path lists concatenates their documents and their reports |
| Loader.EntriesFromPaths | lib/rules/json-key-exists.js:64-83 | each document comes from a listed path whose read and parse gave its content; each report names a listed path that failed |
| Loader.AllPathsLoad | lib/rules/json-key-exists.js:63-85 | when every file reads and parses, there are no reports and one document per path, in path order |
| CallSite.AsKeys | lib/rules/json-key-exists.js:200 | rendered keys become string keys, one for one |
| CallSite.BranchKeys | lib/rules/json-key-exists.js:196-210 | a literal gives its value; a template literal gives the template's reports and its rendered keys as strings in order, or its throw; anything else gives nothing |
| CallSite.AddBranchKeys | lib/rules/json-key-exists.js:196-210 | one branch adds its literal's value, or its rendered keys, or nothing, after the keys so far |
| CallSite.CollectKeys | lib/rules/json-key-exists.js:195-211 | the `switch` yields the reports and keys of the specification `ArgumentKeys` |
| CallSite.CheckKeys | lib/rules/json-key-exists.js:213-215 | the loop's findings are those of `CheckEach`: each key's findings over the documents, key by key |
| CallSite.Handle | lib/rules/json-key-exists.js:179-218 | the handler's reports and throw are those of the specification `Handled` |
| CallSiteProperties.TemplatingErrorsOnly | lib/rules/json-key-exists.js:190-193 | with templating errors, exactly those errors are reported, whatever the argument and the documents |
| CallSiteProperties.CheckEachAppend | lib/rules/json-key-exists.js:213-215 | the findings over two key lists are the first list's findings followed by the second's |
| CallSiteProperties.CheckEachFindings | lib/rules/json-key-exists.js:213-215 | no abort exactly when there is no key or every document can be checked (not null, no own `hasOwnProperty` field); then no finding exactly when every document holds every key |
| CallSiteProperties.LiteralCall | lib/rules/json-key-exists.js:196-198 | a literal key reports one "Missing key" per document lacking it, in document order |
| CallSiteProperties.ConditionalKeys | lib/rules/json-key-exists.js:202-211 | a conditional's keys are the consequent's then the alternate's, with their reports in that order; a throw in the consequent comes first |
| CallSiteProperties.TemplateCall | lib/rules/json-key-exists.js:199-201 | a template call reports its template reports, then the findings for its rendered keys |
| CallSiteProperties.LiteralScenarios | tests/lib/rules/json-key-exists.js:25 | a literal key that every document holds reports nothing, and (tests/lib/rules/json-key-exists.js:43-47) one that no document holds reports once per document in document order |
| CallSiteProperties.FoundThenMissing | lib/rules/json-key-exists.js:199-217 | a template rendering to a present key and then a missing one reports the missing key once per document |
| CallSiteProperties.ListedValuesCall | tests/lib/rules/json-key-exists.js:64-70 | the listed-values template reports `valid_key_invalid_value_2` as missing once per document, in document order |
| BaseResolver.Resolve | lib/resolvers/baseResolver.js:6-38 | the loop's `jsons` and `errors` equal the locale-by-locale specification `ResolvedFrom` |
| BaseResolver.OneEntryPerLocale | lib/resolvers/baseResolver.js:10-35 | every locale yields exactly one document or one error |
| BaseResolver.ResolvedAppend | lib/resolvers/baseResolver.js:10-35 | resolving two locale lists concatenates their documents and their errors |
| BaseResolver.ResolvedPartition | lib/resolvers/baseResolver.js:10-35 | `jsons` holds the documents of the locales that load and `errors` the messages of those that fail, each in locale order |
| BaseResolver.Fetch | lib/resolvers/baseResolver.js:14-32 | a document's path is the resolved `<locale>.json` address, over HTTP exactly when a protocol is present, and its content is the parse of the text fetched there; a failure names no address exactly when the protocol test or the resolution threw, and otherwise the resolved address and the read's or the parse's exception |
| BaseResolver.ErrorTextParts | lib/resolvers/baseResolver.js:32 | the message is the prefix `Error reading or parsing: `, the address or `undefined`, a space and the exception |
| BaseResolver.BranchByProtocol | lib/resolvers/baseResolver.js:15-24 | with a protocol only `url.resolve` and HTTP matter, without one only `path.resolve` and the file system |

## Left out

- File reading, HTTP requests, `JSON.parse`, `url.parse`, `url.resolve` and `path.resolve` are oracles passed as parameters. Their own behaviour is not modelled, and neither is the `sync-request` cache option.
- ESLint plumbing is not modelled: `context.report` and its message templating, `reportErrors` attaching the node, `getSourceCode`, `getCommentsInside`, `getText`, the selector and `meta`. Comments arrive as their text and template literals as a list of text and placeholder parts.
- The `.substring(1, keyText.length - 1)` of the template's source text is not modelled, because the template arrives already without its backticks.
- `es6-template-render` is not modelled. Its place is taken by `Templates.Render`, which splices `String(value)` for an undotted placeholder bound in the combination. Any other placeholder renders to an `Aborted(RenderingUnmodelled)` outcome, with no guess at the library's behaviour.
- JavaScript's prototype chain is not modelled. Lookups see only own properties, and `templateKeys` has no inherited members.
- `Object.keys` ordering puts array-index-like keys first. The model keeps `templateKeys` in insertion order, and a `__proto__` key is an ordinary key.
- JSON numbers are integers. Floating point, exponents and the `String()` of non-integers are not modelled.
- Regular-expression and BigInt literal values are not modelled. A `Literal` key carries a JSON value.
- `Combinations.GetCombinations` shares one mutable `current` object across the recursion. The model passes `current` as a value and returns it, so the JSON deep clone at lines 23-25 is an ordinary copy.
- A property name containing `.` inside `dotty` paths is taken from the behaviour of `dotty.exists`/`dotty.get`: split on every dot, then descend one own property at a time. The `dotty` package is not part of this model.
- lib/index.js is not part of this model: only the rule and the base resolver are. The tests pass their options in a shape that differs from the rule's schema, and that is not modelled either.
- JavaScript strings are UTF-16, so `length`, indexing and the one-character strings a string value visits count code units. `JsValues.OwnProperty` and `Combinations.ValuesOf` count Unicode scalar values instead, and agree only on text without characters outside the Basic Multilingual Plane.
- JsValues.LoopCount: a `length` string is a count only when it is all decimal digits. Other numeric strings (surrounding whitespace, a sign, a fraction, an exponent, hexadecimal, `Infinity`) are treated as `NaN`, which stops the loop at once.
- JsValues.ToText: an object with its own `toString` field renders as `[object Object]`. In JavaScript that field, parsed from JSON, is not a function, so `String` falls back to the inherited `valueOf`, which returns the object itself, and the conversion throws.
- The scenario lemmas (`UnknownPlaceholderScenario`, `ListedValuesScenario`, `ListedValuesCall`) take the comment dictionary from the test's annotation. In those tests the annotation follows the call, so `getCommentsInside` (line 188) would not collect it; the lemmas state what the rule does when the dictionary does reach it.
- The JSON value in a "Missing template key" report is the comment dictionary itself, not its `JSON.stringify` text.
