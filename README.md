# temme interpreter core, modelled in Dafny

temme extracts JSON from HTML with selectors that combine CSS sections and captures. This
project models its interpreter: it takes an already parsed selector tree and an abstract
document, and its pieces are as follows.

- **The scope accumulator** `CaptureResult` (capture_result.dfy). This is a class whose
  `result` field is the key→value mapping of one scope.
  - `add`, `forceAdd` and `exec` route each captured value through the capture's filter
    chain (pipeline.dfy), then hand it to a named merge modifier.
  - `getResult` collapses the mapping into the scope's output value.
- **The merge modifiers** `add`, `forceAdd`, `candidate`, `array` and `spread`.
  - modifiers.dfy states each one as an update of a mapping.
  - The `Modify…` methods of the accumulator class perform the update with `set` and are
    proved to produce exactly that mapping.
- **The procedures** `text`, `html`, `node`, `find` and `assign` (procedures.dfy).
  - `find` is anchor-based substring extraction. It is specified by a pure function over the
    node's text, and its three argument shapes are proved correct.
- **Snippet expansion** (snippets.dfy), with cycle detection.
- **The evaluator** (temme.dfy). It includes:
  - the per-call registries;
  - the definitions pass;
  - the second pass: first-match capture, array capture over all matches in fresh scopes,
    parent references and assignments.

  The pure functions `Scope`, `EvalList`, `EvalOne`, `EvalMatches`, `CaptureStep` and
  `AttributeCaptures` say what each step yields. The class `Call` holds the shared mutable
  registries and performs the steps. Its methods are proved to yield exactly what those
  functions say.

Failures of the source's `invariant(...)` checks are `Error` values, without message text.
JavaScript TypeErrors that the source runs into without a guard are `Error.TypeError`:
- `array` on a truthy non-array;
- a filter member read on null;
- `text` given a non-capture argument;
- a normal selector with no sections.

The document is the datatype `DomAdapter.Dom`, a record of functions supplied by the host:
- `queryAll` (ordered matches);
- `matches`;
- `attr`, which may be absent;
- `text` and `html`;
- a node `height`.

Its predicate `Valid()` says that matches found under a node lie strictly lower in the tree.
Evaluation terminates by that height. Recursion cannot be bounded by the size of the selector
tree, because a snippet is shared by every scope and can re-enter itself from inside
array-capture children with a fresh expansion chain.

Two behaviours worth knowing:
- `getResult` unwraps the self key whenever it is stored, whatever other keys exist (the
  `hasOwnProperty` test at temme/CaptureResult.ts:57). It does not require the self key to
  be the only key.
- An array capture with no matches merges an empty array via `add`. Whether it lands depends
  on `isEmptyObject` from utils.ts, which is not part of this model. The model takes it to
  mean "an object with no keys", so an empty array is kept and `[]` is stored. If
  `isEmptyObject([])` holds in the source, `add` drops the empty array and the key stays
  absent instead.

## Model

| member | source | states |
|---|---|---|
| Pipeline.ApplyFilter | temme/CaptureResult.ts:66-71 | The registered filter of that name wins. Otherwise the value's own same-named operation applies. When neither exists it fails: with a TypeError on null/undefined, otherwise with an invalid-filter error. A filter that throws fails with what it throws. |
| Pipeline.MapFilter | temme/CaptureResult.ts:80 | Mapping a filter over a list succeeds exactly when it succeeds on every element. It gives one result per element, in order. On failure the error is that of the first failing element. |
| Pipeline.FilterStep | temme/CaptureResult.ts:74-83 | An array filter on a non-array fails with the array-filter error. On an array it maps element-wise, keeping the length. A plain filter is applied once. |
| Pipeline.FilterChain | temme/CaptureResult.ts:73-85 | An empty filter list leaves the value unchanged. |
| Pipeline.FilterChainAppend | temme/CaptureResult.ts:73-85 | The chain is a left fold in list order: running `a + b` is running `a`, then `b` on its result, and the first failure stops it. |
| Pipeline.ArrayFilterBroadcast | temme/CaptureResult.ts:75-80 | An array filter applied to n values gives n results, the k-th being the filter applied to the k-th value. |
| Modifiers.Add | temme/modifiers.ts:11-15 | Stores the value only when it is neither null/undefined nor an empty object. Otherwise the mapping is unchanged. No other key changes. |
| Modifiers.ForceAdd | temme/modifiers.ts:16-18 | Always stores the value, null included. No other key changes. |
| Modifiers.Candidate | temme/modifiers.ts:19-24 | Stores the value exactly when the current value is falsy. No other key changes. |
| Modifiers.Array | temme/modifiers.ts:25-29 | A falsy current value gives `[v]`. A stored array gets `v` appended. A truthy non-array fails, and only then. No other key changes. |
| Modifiers.SpreadPrefix | temme/modifiers.ts:30-36 | The prefix is the first argument if given, else the key. The self key gives the empty prefix. |
| Modifiers.Prefixed | temme/modifiers.ts:37-39 | Every entry `k` appears under `prefix + k` with its value, and nothing else appears. |
| Modifiers.Spread | temme/modifiers.ts:30-40 | A null/undefined value changes nothing. Otherwise every own key `k` of the value is stored under `prefix + k`. Every other key keeps its value, and no key is removed. |
| Modifiers.CandidateKeepsTruthy | temme/modifiers.ts:19-24 | Once a truthy value is stored, any further `candidate` merges leave the mapping unchanged. |
| Modifiers.CandidateFirstTruthyWins | temme/modifiers.ts:19-24 | Starting from a falsy value, the first truthy value merged is the one that remains after all merges. |
| Modifiers.ArrayAppendsInOrder | temme/modifiers.ts:25-29 | Merges onto a stored array append the values in merge order. |
| Modifiers.ArrayAccumulates | temme/modifiers.ts:25-29 | N merges into a key holding a falsy value give a list of length N holding the values in merge order. |
| CaptureResult.EffectiveModifier | temme/CaptureResult.ts:39 | The capture's own modifier when present, otherwise the default. |
| CaptureResult.Merge | temme/CaptureResult.ts:38-53 | An unknown modifier name fails with invalid-modifier before any filter runs. Otherwise the filter chain runs, then the modifier is invoked exactly once with the capture's name, the filtered value and the modifier's arguments. |
| CaptureResult.Collapse | temme/CaptureResult.ts:55-64 | The self key's value when it is stored, whatever else is stored. Otherwise the mapping. The result is null exactly when that value is null or an empty object, and it is never an empty object. |
| CaptureResult.DefaultModifiers | temme/CaptureResult.ts:11-36 | Without its own modifier, `add` merges through `add`, so null is dropped. `forceAdd` merges through `forceAdd`, so null is written. |
| CaptureResult.CaptureResult.constructor | temme/CaptureResult.ts:15-20 | A new accumulator is empty and shares the call's filter and modifier registries. |
| Modifiers.ApplyModifier | temme/CaptureResult.ts:47-52 | Of the built-in modifiers only `array` can fail, with a TypeError. `add`, `forceAdd`, `candidate` and `array` touch no key but their own. `spread` always succeeds and keeps every key. |
| CaptureResult.CaptureResult.Get | temme/CaptureResult.ts:22-24 | The stored value, or undefined for a key never set. |
| CaptureResult.CaptureResult.Set | temme/CaptureResult.ts:26-28 | After `set(k, v)`, `get(k)` is `v`, and every other key is unchanged. |
| CaptureResult.CaptureResult.Add | temme/CaptureResult.ts:30-32 | Performs `Merge` with default `add`. On failure the mapping is untouched. |
| CaptureResult.CaptureResult.ForceAdd | temme/CaptureResult.ts:34-36 | Performs `Merge` with default `forceAdd`. On failure the mapping is untouched. |
| CaptureResult.CaptureResult.Exec | temme/CaptureResult.ts:38-53 | The new mapping is exactly the one `Merge` specifies, and an error is reported exactly when `Merge` fails. |
| CaptureResult.CaptureResult.GetResult | temme/CaptureResult.ts:55-64 | The self key's value when stored, else the mapping. The output is never an empty object. |
| CaptureResult.CaptureResult.ModifyAdd | temme/modifiers.ts:11-15 | The new mapping is `Modifiers.Add` of the old one. |
| CaptureResult.CaptureResult.ModifyForceAdd | temme/modifiers.ts:16-18 | The new mapping is `Modifiers.ForceAdd` of the old one. |
| CaptureResult.CaptureResult.ModifyCandidate | temme/modifiers.ts:19-24 | The new mapping is `Modifiers.Candidate` of the old one. |
| CaptureResult.CaptureResult.ModifyArray | temme/modifiers.ts:25-29 | The new mapping is `Modifiers.Array` of the old one. It fails, leaving the mapping untouched, exactly when that does. |
| CaptureResult.CaptureResult.ModifySpread | temme/modifiers.ts:30-40 | The loop that sets one key per own key gives exactly `Modifiers.Spread` of the old mapping, whatever the visiting order. |
| Procedures.DefaultProcedureTable | temme/procedures.ts:81-87 | The table holds exactly the default name (`text`), the assign name (`assign`), `html`, `node` and `find`, bound to those procedures. |
| Procedures.IndexOf | temme/procedures.ts:65-69 | `indexOf(t, from)` finds an occurrence at or after `from` with none before it, and finds none only when there is none. |
| Procedures.IndexOfIsFirst | temme/procedures.ts:65-69 | The first occurrence after `from` is what `indexOf` returns. |
| Procedures.FindCapture | temme/procedures.ts:33-75 | Fails exactly on malformed arguments, with invalid-arguments, before anything is merged. A successful capture is one of the arguments. |
| Procedures.FindAfterAnchor | temme/procedures.ts:43-49 | With `before` first at `i`, the text after it is captured, and `s[..i] + before + captured == s`. |
| Procedures.FindBeforeAnchor | temme/procedures.ts:50-56 | With `after` first at `i`, `s[..i]` is captured, and `captured + after` is a prefix of `s`. |
| Procedures.FindBetweenAnchors | temme/procedures.ts:65-73 | The capture runs from just after the first `before` to the first `after` after it. The pieces make up `s`, and a non-empty `after` does not occur inside the capture. |
| Procedures.NoAnchorInside | temme/procedures.ts:69-73 | A stretch with no occurrence starting in it does not contain the anchor. |
| Procedures.FindShape | temme/procedures.ts:36-64 | An accepted argument list has two or three entries: exactly one capture, every other entry a string. |
| Procedures.FindAfterAnchorMissing | temme/procedures.ts:65-72 | When `before` occurs but `after` does not occur after its first occurrence, nothing is captured, even if `after` occurs earlier in the text. |
| Procedures.FindMissingAnchor | temme/procedures.ts:43-72 | In every well-formed shape, a missing anchor captures nothing and is not an error. |
| Procedures.Run | temme/procedures.ts:15-79 | `text`, `html`, `node` and `assign` given a first argument that is not a capture fail with a TypeError. `find` with a malformed argument list fails with invalid-arguments, and with a missing anchor leaves the mapping unchanged. |
| Procedures.Invoke | temme/temme.ts:183-188 | Running a procedure changes the accumulator exactly as its specification `Run` says, and fails exactly when that does. |
| Procedures.Text | temme/procedures.ts:15-17 | Merges the node's text via `add`. |
| Procedures.Html | temme/procedures.ts:19-21 | Merges the node's inner markup via `add`. |
| Procedures.Node | temme/procedures.ts:23-25 | Merges an opaque sub-document made from the node via `add`. |
| Procedures.Find | temme/procedures.ts:33-75 | Merges via `add` exactly what `FindCapture` selects. Nothing is merged for a missing anchor, and it fails on malformed arguments. |
| Procedures.Assign | temme/procedures.ts:77-79 | Merges its literal via `forceAdd`. |
| Procedures.AssignWritesNull | temme/procedures.ts:15-79 | `assign` of null writes null. `text` and `html` write the node's text and markup. |
| Snippets.Expand | temme/temme.ts:135-159 | A successful expansion contains no expand site. |
| Snippets.ExpandSite | temme/temme.ts:141-155 | An expand site yields its snippet's expanded body, with no expand site left in it. |
| Snippets.UnexpandedShrinks | temme/temme.ts:147-152 | Each nested expansion removes a name from the finite set of names not yet on the chain, so expansion terminates. |
| Snippets.ExpandIdentity | temme/temme.ts:154-156 | A list with no expand sites expands to itself. |
| Snippets.ExpandAppend | temme/temme.ts:139-158 | Expansion works site by site: expanding `a + b` is expanding `a` and `b` and joining them, and the first failure wins. |
| Snippets.ExpandInPlace | temme/temme.ts:141-156 | An expand site is replaced in place by its snippet's expanded body, and the selectors around it keep their order. An undefined name fails with not-defined. A name already on the chain fails with the chain extended by that name. |
| Snippets.FailingSiteFails | temme/temme.ts:140-153 | A list fails to expand as soon as one of its selectors does. |
| Snippets.CycleFailsFrom | temme/temme.ts:147-151 | Along a cycle of snippets, expansion from any point with the earlier names on the chain fails. |
| Snippets.CycleFails | temme/temme.ts:147-151 | A snippet that reaches itself through expand sites always fails to expand, and never loops. |
| Snippets.SelfExpansionReportsChain | temme/temme.ts:147-151 | A snippet whose body starts by expanding itself fails with the chain `[name, name]`. |
| Syntax.LastSection | temme/temme.ts:167-170 | The last section, which is absent only for an empty list. |
| Temme.InitialTables | temme/temme.ts:54-69 | Each registry holds the defaults and the extras, the extras winning. There are no snippets. |
| Temme.DefineOne | temme/temme.ts:79-100 | A define fails exactly when its name is already in its registry. Otherwise it registers the name, keeps every earlier registration, and makes any later define of the same name clash. |
| Temme.DefinePass | temme/temme.ts:78-101 | The definitions pass fails only with an already-defined error. A list with no define selectors leaves the registries as they were. |
| Temme.DefinePassRegisters | temme/temme.ts:78-101 | A successful definitions pass keeps every earlier registration and registers every define of the list. So it met no name already in its registry (built-in, extra or defined earlier in the call) and no two defines of the same name. |
| Temme.QualifierStep | temme/temme.ts:172-181 | A qualifier that is not an attribute capture, or whose attribute the node lacks, merges nothing. Otherwise the attribute's text is merged via `add`. |
| Temme.AttributeCaptures | temme/temme.ts:172-181 | The attribute captures can fail only if some qualifier captures on the node, that is, it is an attribute capture and the node has the attribute. |
| Temme.CaptureStep | temme/temme.ts:162-189 | A missing section is a TypeError. A capture with a procedure succeeds only when the procedure's name is in the call's procedure registry. |
| Temme.AbsentAttributesCaptureNothing | temme/temme.ts:172-181 | When no attribute capture finds its attribute on the node, nothing is merged. |
| Temme.CaptureProcedure | temme/temme.ts:183-188 | Without a procedure only attribute captures apply. An unknown procedure name fails with invalid-procedure once the attribute captures have merged. A missing section is a TypeError. |
| Temme.Scope | temme/temme.ts:71-130 | An empty selector list yields the registries unchanged and an empty accumulator, so each scope starts fresh. A scope that succeeds met no define whose name was already registered. |
| Temme.EvalList | temme/temme.ts:104-128 | In the second pass, a list made only of define selectors changes neither the registries nor the accumulator. |
| Temme.EvalOne | temme/temme.ts:104-128 | A define selector does nothing in the second pass. Only a normal selector with an array capture can change the registries, through its child scopes. The scalar capture runs on the first match only. The array capture merges via `add`, with the registries as the child scopes leave them. |
| Temme.EvalMatches | temme/temme.ts:112-118 | The child scopes append one item per remaining match after the items already collected, which they keep. No appended item is an empty object. |
| Temme.ScopeExtends | temme/temme.ts:71-130 | A scope only adds registrations: the registries it leaves extend those it started with. |
| Temme.EvalListExtends | temme/temme.ts:104-128 | The second pass only adds registrations. |
| Temme.EvalOneExtends | temme/temme.ts:104-128 | One selector only adds registrations. |
| Temme.EvalMatchesExtends | temme/temme.ts:112-118 | The child scopes of an array capture only add registrations. |
| Temme.SnippetDefinedPerMatchFails | temme/temme.ts:78-118 | The registries are per call, so a snippet defined among an array capture's children is registered again on the second match. With two or more matches the selector fails. |
| Temme.ArrayCaptureCollectsMatches | temme/temme.ts:112-118 | When child scopes register nothing, the array capture holds exactly one item per match, in match order. Each item is the collapsed result of the children evaluated on that match in a fresh accumulator. |
| Temme.SelectorsWithoutMatch | temme/temme.ts:104-127 | A normal selector with no match captures nothing, and an array capture then merges `[]`. A parent reference whose node does not match captures nothing. An assignment of null writes null. |
| Temme.Evaluate | temme/temme.ts:50-52 | An empty selector list gives null whatever the document. The output is never an empty object. |
| Temme.Call.constructor | temme/temme.ts:54-69 | The call's registries are the defaults overridden by the extras, with no snippets. |
| Temme.Call.Helper | temme/temme.ts:71-130 | The outcome and the new registries and accumulator are exactly what `Scope` specifies: the definitions pass, then expansion, then the second pass into a fresh accumulator. |
| Temme.Call.EvalSelector | temme/temme.ts:104-128 | One selector's effect on the registries and the accumulator is exactly `EvalOne`. This covers first-match capture, array capture through recursive scopes, parent references and assignments. |
| Temme.Call.CaptureNode | temme/temme.ts:162-189 | The attribute-capture loop and the procedure call yield exactly `CaptureStep`. |
| Temme.Temme | temme/temme.ts:28-192 | The result is exactly `Evaluate` with the call's initial registries. |

## Left out

- Loading HTML and parsing selector strings (temme/temme.ts:35-49). The model takes the
  parsed selector list and a root node of an abstract document.
- Running user code. Defined filters, modifiers and procedures are compiled by host functions
  (`Host.compileFilter` and the others), so their bodies are opaque functions. Each returns a
  `Result`, so a body that throws is a failure carrying the thrown error. What a body does
  to anything beyond its returned mapping or value is not modelled. The same holds for the
  filters of filters.ts, which is not part of this model: they are a parameter.
- The reflective filter fallback `value[filter.name]`. It is the host-supplied table
  `Members`.
- CaptureResult.CaptureResult.Get: the result mapping has no inherited keys. In the source
  `get('constructor')` or `get('toString')` on a fresh result returns a function. `candidate`
  on such a key then writes nothing, and `array` on it throws.
- CaptureResult.CaptureResult.Set: `set('__proto__', v)` stores no key in the source; in the
  model it stores `v` under that key.
- CaptureResult.Collapse: the self-key test uses the mapping's own keys only. In the source a
  stored key `hasOwnProperty` shadows the method and makes `getResult` throw.
- CaptureResult.CaptureResult.GetResult: as for `Collapse`, a stored `hasOwnProperty` key
  makes the source throw, and the model does not.
- Keys inherited from `Object.prototype`. In the source a name such as `toString` is found in
  every registry and counts as already defined. The model's registries hold only their own
  entries.
- `defineProcedure` and `defineModifier`. They mutate the process-wide tables
  `defaultProcedureDict` and `defaultModifierDict`. The model keeps those tables as the
  constants of the built-ins. A process-wide registration made before a call is passed to
  `InitialTables` as one of its extras (`extraModifiers`, `extraProcedures`).
- The messages of temme/invariant.ts and check.ts. Only the error kind is modelled.
- The utils.ts helpers, which are not part of this model. `makeNormalCssSelector` is
  `Host.makeCss`. `isEmptyObject` is taken to be "a mapping with no keys". The constants of
  constants.ts are taken to be `@@default-capture@@`, `text` and `assign`.
- The `node` procedure's sub-document is the opaque value `Document(node)`.
- Numbers are integers. Floating point, NaN and string conversion of non-integers are not
  modelled.
- Procedures.AssignedValue: a capture in the value position of `assign` is merged as
  undefined. The source would merge the capture object itself.
- Modifiers.Spread: the key order of `Object.keys` is not modelled, because the keys are
  distinct and order cannot change the outcome. Own keys of values other than objects, arrays
  and strings are taken to be none.
- Modifiers.Array: the source pushes into the stored array in place, so other holders of that
  array would see the push. The model stores a new list value, so aliasing is not captured.
- The insertion order of keys in result objects is not modelled: a mapping is a `map`.
- Strings are sequences of characters. UTF-16 code units are not modelled.
- Termination relies on `Dom.Valid()`: matches found under a node lie strictly lower in the
  tree.
