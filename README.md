# Dive patterns in Dafny

This project models the structural pattern matcher of Dive (`dive/patterns.py`)
and proves what it promises.

A pattern is matched against a value with `unify(value, cont, fail)`. The
matcher calls the success continuation `cont` zero or more times. It calls
the failure continuation `fail(subpattern, value)` when some node does not
match. The model records these calls, in the order they fire, as a trace of
events (`Patterns.Event`):

- `Succ(env)` is one call of `cont`;
- `Fail(q, w, env)` is one call of `fail(q, w)`;
- `Abort(env)` is an exception other than `IndexError`, `KeyError` or
  `AttributeError` (for example a `TypeError` from subscripting a number or
  iterating one). It propagates out of the match, so nothing runs after it.

`env` is the state of the pattern variables while that call runs: a variable
is bound exactly when its id is a key.

A continuation is modelled by what it produces. `Patterns.Continue(t, cont, fail)`
runs a trace against a pair of continuations, and `And` and `Or` are defined
with it exactly as the source nests its lambdas.

The modules:

- `values.dfy` (`Values`): the part of Python's object model the matcher
  touches: values, `getattr`, subscripting (including negative indices and
  which errors are soft), iteration and `isinstance`.
- `patterns.dfy` (`Patterns`): the pattern nodes `Anything`, `Nothing`,
  `Constant`, `Var` (a variable), `And`, `Or`, `Match`, `Ensure` and `MatchAny`, and
  `Unify`, their trace semantics.
- `traces.dfy` (`TraceLaws`): how running traces against continuations composes.
- `laws.dfy` (`PatternLaws`): the laws of the leaves and combinators. It also
  holds three whole-tree facts:
  - a fault is always the last event;
  - matching never loses or changes a caller's binding and binds only the
    pattern's own variables;
  - a failure always reports a node of the pattern.
- `builders.dfy` (`Builders`): the chainable patterns (`Attribute`,
  `Subtype`, `Index`, `Get`, `If`, `Any`, and a variable as `ChainVar`), what `a ** b`
  builds from them, and right-associative chaining.
- `quantifiers.dfy` (`Quantifiers`): `MatchAny` and its presets `Some`,
  `First` and `Each`, including the `for` loop of `MatchAny.unify` as an
  imperative method proved equal to the trace semantics.
- `variable.dfy` (`Variables`): `Variable` as a class with `bound` and `value`
  fields. It shows the bind / run continuation / unbind discipline and
  proves that the fields are restored afterwards.
- `examples.dfy` (`Scenarios`): the unit tests' scenarios and the module
  documentation's examples, with their exact events.

Where the code and its documentation disagree, the model follows the code:

- **`If` and `Subtype` do not continue.** `Ensure.unify`
  (`dive/patterns.py:234-238`) calls `cont()` directly and never runs
  `into`.
  - So `If(c) ** p` and `Subtype(t) ** p` ignore `p`.
  - The module documentation (`dive/patterns.py:91-100`) says that
    `Each ** If(lambda x: x < 3) ** var` on `[1, 2, 3, 4]` calls `cont` with
    `var` bound to 1 and then 2.
  - As written, it calls `cont` twice with `var` unbound
    (`Scenarios.EachIfExample`, `Builders.IfIgnoresContinuation`).
- **`Or` does not undo the first alternative's bindings.** `Or.unify`
  (`dive/patterns.py:264-267`) runs the second alternative from inside the
  first one's failure callback.
  - A variable that the first alternative bound before it failed is
    therefore still bound while the second runs.
  - Example: `v ** Nothing | Index(0) ** v` on `[7]` fails, where undoing the
    binding would succeed with `v = 7` (`PatternLaws.OrSecondSeesFirstBinding`,
    `Scenarios.OrKeepsFailedBranchBinding`).
- **A fault leaves a binding behind.** `Variable.unify`
  (`dive/patterns.py:189-192`) has no `try`/`finally`.
  - An exception raised inside its continuation skips `unbind()`, so the
    variable stays bound.
  - `Abort(env)` keeps the bindings live at the raise, and
    `Variables.Variable.Unify` states the leak (`Scenarios.LeakedBinding`).

## Model

| member | source | states |
|---|---|---|
| Values.GetAttr | dive/patterns.py:332-333 | on the modelled values only objects carry attributes; the lookup finds a value iff the object has that attribute, and is otherwise an AttributeError, a fault `Match` turns into a failure |
| Values.Position | dive/patterns.py:352-353 | a negative index counts from the end; the position is in range and is `i` or `i + n` |
| Values.DictGet | dive/patterns.py:352-353 | a dictionary lookup finds a value iff some entry has the key, and then it is the value of the first entry with that key; otherwise it is a KeyError |
| Values.GetItem | dive/patterns.py:352-353 | subscripting raises a propagating fault exactly for numbers, objects, sequences indexed by a non-integer and dictionaries looked up with an unhashable key; an in-range index selects the list item or the one-character string at its position (counting from the end when negative), an out-of-range index is a soft fault, a string key is looked up in the dictionary, and an integer or object key is a missing key (a soft fault) |
| Values.Elements | dive/patterns.py:288 | lists, strings and dictionaries are iterable and anything else raises; a list yields its items, a string its characters as one-character strings, a dictionary its keys, each in order |
| Values.IsInstance | dive/patterns.py:343 | the type test of `Subtype`: the value's class name is the given one (its behaviour under a pattern is stated by `Builders.SubtypeChecks`) |
| Patterns.Unify | dive/patterns.py:142-295 | the events of each node's `unify`; what they are is stated by the laws below (`AnythingSucceedsOnce` to `BoundVarCompares` for the leaves, the `And`, `Or` and quantifier laws for the rest, and the whole-tree facts `UnifyWellFormed`, `UnifyWithin`, `FailuresReportSubpatterns` and `FailuresReplayed`) |
| Patterns.ElementTrace | dive/patterns.py:284-289 | one element's contribution to `MatchAny`: its successes forwarded, its failures dropped (stated by `PatternLaws.ElementNeverFails` and `Quantifiers.ElementTraceShape`) |
| Patterns.AnyLoop | dive/patterns.py:281-295 | the quantifier's loop (stated by `Quantifiers.AnyLoopOutcome`, `FirstTakesFirstMatch`, `AnyLoopGathersAll`, and proved equal to the imperative `Quantifiers.RunMatchAny`) |
| PatternLaws.AnythingSucceedsOnce | dive/patterns.py:142-143 | `Anything` calls the success continuation once, with the caller's bindings, and never fails |
| PatternLaws.NothingFailsOnce | dive/patterns.py:153-154 | `Nothing` calls `fail(itself, value)` once and never succeeds |
| PatternLaws.ConstantMatchesIffEqual | dive/patterns.py:207-211 | `Constant(k)` answers once: success iff the value equals `k`, otherwise a failure reporting the constant and the value; no binding changes |
| PatternLaws.UnboundVarBinds | dive/patterns.py:189-192 | an unbound variable runs the continuation once with itself bound to the value and never fails |
| PatternLaws.BoundVarCompares | dive/patterns.py:184-188 | a bound variable succeeds iff the value equals the bound one, otherwise reports itself and the value; no binding changes |
| PatternLaws.UnifyWellFormed | dive/patterns.py:224-228 | a propagating fault is always the last event of a match: nothing runs after it |
| PatternLaws.UnifyWithin | dive/patterns.py:183-192 | every continuation runs with all of the caller's bindings unchanged, plus bindings of variables of the pattern only |
| PatternLaws.AndWithin | dive/patterns.py:248-251 | a conjunction keeps the caller's bindings and binds only the variables of its two parts |
| PatternLaws.OrWithin | dive/patterns.py:264-267 | a disjunction keeps the caller's bindings and binds only the variables of its two parts |
| PatternLaws.AnyLoopWithin | dive/patterns.py:281-295 | the quantifier's loop keeps the caller's bindings and binds only variables of the element pattern |
| PatternLaws.ClosedPatternKeepsEnv | dive/patterns.py:183-192 | a pattern without variables runs every continuation with exactly the caller's bindings |
| PatternLaws.FailuresReportSubpatterns | dive/patterns.py:10-12 | the failure continuation always receives a node of the matched pattern (that it receives the value that node failed on is `FailuresReplayed`) |
| PatternLaws.FailuresReplayed | dive/patterns.py:10-12 | a failure reports the node that did not match together with the value it did not match: matching that node again against that value, under the bindings live at the report, reports the same failure |
| PatternLaws.AndReplays | dive/patterns.py:248-251 | every failure of a conjunction replays on its reported node and value |
| PatternLaws.OrReplays | dive/patterns.py:264-267 | every failure of a disjunction replays on its reported node and value |
| PatternLaws.AndFailures | dive/patterns.py:248-251 | a conjunction reports only failures of nodes inside it |
| PatternLaws.OrFailures | dive/patterns.py:264-267 | a disjunction reports only failures of nodes inside it |
| PatternLaws.ElementNeverFails | dive/patterns.py:289 | an element is matched with `fail_silent`, so its contribution never calls the failure continuation |
| PatternLaws.ElementWithin | dive/patterns.py:284-289 | forwarding an element's successes keeps the bindings the element's own match keeps |
| PatternLaws.AnyLoopWellFormed | dive/patterns.py:288-295 | the quantifier's loop stops at the first fault: a fault is its last event when it is the last event of every contribution |
| PatternLaws.AnyLoopFailsAsWhole | dive/patterns.py:288-295 | the element failures are swallowed: the only failure the quantifier reports is itself with the whole collection |
| PatternLaws.AndFirstOnlyFails | dive/patterns.py:248-251 | when the first pattern never succeeds the second never runs and the conjunction's events are the first pattern's |
| PatternLaws.AndSecondSeesBinding | dive/patterns.py:248-251 | the second pattern runs inside the first one's success continuation, with the first one's binding live |
| PatternLaws.AndAnythingUnit | dive/patterns.py:248-251 | `Anything` is a unit of `And` on either side |
| PatternLaws.AndAssoc | dive/patterns.py:248-251 | `And` is associative |
| PatternLaws.OrFirstNeverFails | dive/patterns.py:264-267 | when the first alternative never fails, the second never runs and its successes pass straight on |
| PatternLaws.OrRetriesOnFailure | dive/patterns.py:264-267 | a failure of the first alternative is discarded and the second runs on the same value with the caller's continuations |
| PatternLaws.OrRetriesEachFailure | dive/patterns.py:264-267 | when the first alternative only fails, the second runs once per failure, in the order reported, under the bindings live at each, until a fault |
| PatternLaws.OrNothingNothingFails | dive/patterns.py:264-267 | `Or(Nothing, Nothing)` fails once |
| PatternLaws.OrAssoc | dive/patterns.py:264-267 | `Or` is associative |
| PatternLaws.OrSecondSeesFirstBinding | dive/patterns.py:264-267 | the second alternative runs with a binding the failed first alternative made still live |
| TraceLaws.ContinueHalts | dive/patterns.py:224-228 | once a fault occurred, running continuations ends in a fault |
| TraceLaws.ContinueAssoc | dive/patterns.py:248-251 | passing a continuation that itself runs continuations is running both stages in turn |
| TraceLaws.ContinueIdentity | dive/patterns.py:249-251 | handing on the caller's own `cont` and `fail` leaves a match's events unchanged |
| TraceLaws.ContinueAll | dive/patterns.py:248-251 | a property of every event survives continuations whose events all have it |
| Builders.Bind | dive/patterns.py:172-386 | what each chainable's `bind` builds (stated case by case by `AttributeLookup`, `SubtypeChecks`, `IndexLookup`, `GetExtracts`, `IfIgnoresContinuation`, `VariableThen` and the quantifier lemmas) |
| Builders.AsPattern | dive/patterns.py:135-136 | a chainable used as a pattern is `c ** Return`, except a variable, which matches as itself (stated by `VariableAsPatternIsBindReturn`) |
| Builders.ChainAppend | dive/patterns.py:20-23 | `**` chains associate to the right: splitting a chain anywhere gives the same pattern |
| Builders.ChainVars | dive/patterns.py:132-133 | a chain binds no variable other than its chained variables and those of its last pattern |
| Builders.VariableAsPatternIsBindReturn | dive/patterns.py:135-136 | a variable matched on its own behaves as the default `variable ** Return` |
| Builders.AttributeLookup | dive/patterns.py:332-333 | `Attribute(name) ** p` runs `p` on the attribute's value and fails once, with the object, when it is missing |
| Builders.AttributePath | dive/patterns.py:326-333 | a chain of attribute lookups runs its last pattern on the value at the end of the path, and fails once when an attribute is missing |
| Builders.IndexLookup | dive/patterns.py:352-353 | `Index(k) ** p` runs `p` on the item, fails once on a missing item, and faults when the value cannot be subscripted with `k` |
| Builders.ListIndex | dive/patterns.py:352-353 | on a list, `Index(i)` selects item `i`, or `len + i` for a negative `i`, and fails out of range |
| Builders.SubtypeChecks | dive/patterns.py:342-343 | `Subtype(cls) ** p` succeeds once iff the value is an instance of `cls` and otherwise fails once; what follows it is ignored |
| Builders.IfIgnoresContinuation | dive/patterns.py:372-373 | `If(c) ** p` succeeds once iff `c` holds and otherwise fails once; what follows it is ignored |
| Builders.VariableThen | dive/patterns.py:172-173 | `v ** p` runs `p` on the same value with `v` bound to it, or fails once when `v` holds a different value |
| Builders.GetExtracts | dive/patterns.py:362-363 | `Get(f) ** p` runs `p` on what `f` extracts, fails once on a soft fault, faults otherwise |
| Builders.AttributeIsGet | dive/patterns.py:85-89 | `Attribute(name)` is `Get` of the attribute lookup |
| Quantifiers.ElementTraceShape | dive/patterns.py:284-289 | an element's contribution holds no failure, and a fault in it can only be its last event |
| Quantifiers.EmptyContribution | dive/patterns.py:284-289 | a contribution that neither reached the success continuation nor faulted is empty |
| Quantifiers.AnyLoopOutcome | dive/patterns.py:281-295 | without a fault, the loop fails iff a match was required and none matched, and then reports that one failure only |
| Quantifiers.MustExistAddsOneFailure | dive/patterns.py:293-295 | requiring a match adds exactly one failure at the end when nothing matched, and changes nothing else |
| Quantifiers.AnyLoopSkips | dive/patterns.py:288-291 | leading elements that neither match nor fault contribute nothing |
| Quantifiers.FirstTakesFirstMatch | dive/patterns.py:288-291 | with `only_once`, the events are the first matching element's successes and no later element is tried |
| Quantifiers.AnyLoopGathersAll | dive/patterns.py:288-295 | without the cut and without faults, every element's successes are passed on in order, then the failure when required and nothing matched |
| Quantifiers.OnlyWholeFails | dive/patterns.py:289 | element failures go to `fail_silent`: the only failure reported is the quantifier with the whole collection |
| Quantifiers.EachNeverFails | dive/patterns.py:390 | `Each` never calls the failure continuation |
| Quantifiers.EmptyCollection | dive/patterns.py:76-79 | on an empty collection `Each` calls neither continuation, while `Some` and `First` fail once |
| Quantifiers.MustExistFailsIffNoneMatched | dive/patterns.py:293-295 | with a match required and no fault, the quantifier fails iff no element matched, and then that failure is its only event |
| Quantifiers.NotIterableFaults | dive/patterns.py:288 | iterating a value that is not a collection is a fault that ends the match |
| Quantifiers.SomeGathersAll | dive/patterns.py:388 | `Some` passes on every element's successes in order and fails once at the end iff there were none |
| Quantifiers.SomeIsEachOrFail | dive/patterns.py:388-390 | `Some` is `Each` plus one failure when nothing matched |
| Quantifiers.EnsureElement | dive/patterns.py:234-238 | under a quantifier a condition contributes one success for an element satisfying it, and nothing otherwise |
| Quantifiers.AnyLoopCounts | dive/patterns.py:281-295 | looping a condition over the elements gives one success per satisfying element |
| Quantifiers.AnyLoopFirstWhere | dive/patterns.py:288-291 | with the cut, looping a condition gives one success iff some element satisfies it |
| Quantifiers.QuantifiedConditionCounts | dive/patterns.py:388-390 | `Each`/`Some` `** If(c)` succeed once per element satisfying `c` with the caller's bindings; `Some` fails once when none does |
| Quantifiers.FirstConditionOnce | dive/patterns.py:389 | `First ** If(c)` succeeds exactly once when some element satisfies `c`, otherwise fails once |
| Quantifiers.RunMatchAny | dive/patterns.py:281-295 | the `for` loop with its `matched_once` flag and `break` produces exactly the quantifier's events |
| Variables.Variable.constructor | dive/patterns.py:166-170 | a new variable is unbound with no value |
| Variables.Variable.BindTo | dive/patterns.py:175-177 | binding sets the flag and stores the value |
| Variables.Variable.Unbind | dive/patterns.py:179-181 | unbinding clears the flag and the value |
| Variables.Variable.Unify | dive/patterns.py:183-192 | the events are those of the variable node under the current bindings; the flag and value are restored afterwards unless the continuation faulted, in which case an unbound variable stays bound to the value |
| Variables.Variable.UnifyTwice | dive/patterns.py:189-192 | matching the same value twice in a row gives the same events and leaves the variable as before, unless the first run faulted |
| Scenarios.PathBindsItem | dive/test.py:140-141 | `Attribute('bar') ** Index(1) ** v1` on the test object binds `v1` to 2 and succeeds once |
| Scenarios.ConjoinedPathsAgree | dive/test.py:143-146 | the conjunction of three paths succeeds once with `v1 = 2` and `v2 = 42` |
| Scenarios.IndexThenCompare | dive/test.py:119-127 | `Index(1) ** v` binds 2; with `v` bound, `Index(0) ** v` fails on 1 |
| Scenarios.AttributeAndSubtype | dive/test.py:73-86 | present attribute and right type succeed; missing attribute and wrong type fail once |
| Scenarios.AndTests | dive/test.py:88-100 | a variable beside `Anything` binds 42; a conjunction with `Nothing` fails |
| Scenarios.OrTests | dive/test.py:102-114 | a variable beside `Nothing` binds 42; after `Anything` succeeds the variable stays unbound |
| Scenarios.OrKeepsFailedBranchBinding | dive/patterns.py:264-267 | `Or(v ** Nothing, Index(0) ** v)` on `[7]` fails because `v` is still bound to the list |
| Scenarios.OrRetriesPerElement | dive/patterns.py:264-267 | `Or(Each & Nothing(), Anything())` on `[1, 2]` fails once per element on the left and so succeeds twice |
| Scenarios.EachIfExample | dive/patterns.py:95-100 | `Each ** If(x < 3) ** var` on `[1, 2, 3, 4]` succeeds twice with `var` unbound |
| Scenarios.FirstAndSome | dive/patterns.py:61-73 | `First ** If(x < 3)` on `[5, 1, 2]` succeeds once; `Some ** If(x < 3)` on `[5, 6]` fails once with the whole list |
| Scenarios.EmptyLists | dive/patterns.py:76-79 | on `[]`, `First` fails once and `Each` calls neither continuation |
| Scenarios.Faults | dive/patterns.py:225-228 | iterating a number and indexing a list with a string fault |
| Scenarios.LeakedBinding | dive/patterns.py:189-192 | a continuation that raises leaves the variable bound to the value |
| Scenarios.RestoredBinding | dive/patterns.py:189-192 | a continuation that returns leaves the variable unbound again |

## Left out

- `MatchAll` and `All` (`dive/patterns.py:298-315`, `393-397`) are not modelled. Line 312 calls the undefined `self.each`, which raises on the first element. The `global failed_once` at line 308 never updates the local flag at line 305. There is no coherent behaviour to state.
- Exceptions raised by the caller's continuations, by `If` predicates and by `Get` extractors beyond the lookup errors are not modelled. Continuations are effect-free trace producers, predicates are total, and extractors report `Found`, a soft fault or a hard fault. The one exception is `Variables.Variable.Unify`, where a continuation whose events end in a fault models a raise.
- Patterns.Unify: `Match` catches `IndexError`, `KeyError` and `AttributeError` raised anywhere inside its `try`, including by the caller's continuation. Here only the extraction raises them, because continuations never raise.
- `Variable._max_id` and every `__repr__` (`dive/patterns.py:145-146`, `164-168`, `194-198`) are for display only. Variable ids are given explicitly.
- The `Unifiable` error stubs (`dive/patterns.py:114-120`) are not modelled. The `|`, `&` and `**` operators are written as the constructors `Or`, `And` and `Builders.Bind` / `Builders.Chain`. A left-nested `(a ** b) ** c`, which raises in Python, cannot be written.
- Values.Value: there are no booleans, floats or `None`, and dictionary keys are strings. Objects compare structurally, whereas Python compares plain objects by identity. `isinstance` has no subclassing.
- Values.Value: a dictionary is its list of entries in iteration order and compares structurally. So two dictionaries with the same items in a different order are unequal here, and `Constant` and a bound variable (`dive/patterns.py:185`, `208`) fail on them where Python's `==` succeeds. Duplicate keys are representable; lookup takes the first.
- Values.GetAttr: the attributes and methods of built-in values (`(5).real`, `[].append`) are not modelled: only objects carry attributes, so `Attribute` on a number, string, list or dictionary always fails.
- Values.Elements: infinite iterables and generators are not modelled. Collections are finite sequences.
- Quantifiers.RunMatchAny: each element's events are computed by `Patterns.ElementTrace` and the flag is derived from them. The source instead passes a closure that sets `matched_once` before calling `cont`.
- The source's `fail_silent` default failure continuation is `Patterns.Swallow`. A top-level call passes the continuations explicitly.
