# Oak evaluator core, modelled in Dafny

This project models the runtime core of the Oak interpreter's `eval.go`. It covers three parts:

- **The value model.** Empty, Null, String, Int, Float, Bool, Atom, List, Object and function values. Each has an `Eq`, with its wildcard rule for Empty and deep equality for lists and objects, and a `String` display form.
- **The scope chain.** It has three operations: `get`, `put` and `update`.
- **The evaluator.** This is `Context.evalExpr`, which dispatches on the kind of syntax node.

The byte helpers `zeroExtend` and `maxLen` are modelled alongside.

Modules:

- `Bytes` has the Go `byte`, plus `ZeroExtend` and `MaxLen`.
- `Errors` has the two tiers of failure:
  - `RuntimeError`, the source's `runtimeError`.
  - `InternalFault`, for each Go `panic`.
  - A third outcome, `OutOfFuel`, belongs to the model itself.
- `Ast` has the syntax nodes that `evalExpr` switches on.
- `Values` has the values, `Eq`, and the display form `Display`.
- `Scopes` has the scope chain.
  - A Go `scope` is copied by value, but every copy shares its `vars` map, so scopes behave as references.
  - The model keeps every scope in a store (`seq<Frame>`) and refers to it by index.
  - A closure holds the index of its defining scope. A block or a call allocates a new frame whose parent is an older one.
- `Evaluation` has `Eval`, the evaluator as functions. It maps a state (the store of scopes and a count of function literals) to a result and a new state. Fuel bounds the depth of nesting: evaluating a node takes one unit, and each of its sub-expressions, like the body of a closure it calls, starts from what is left.
- `Interpreter` has the class `Context`.
  - Its fields are the store and the function-literal count.
  - Its methods run the source's loops: the list elements, object entries, call arguments, parameter binding, `if` branches and block body.
  - Each method is proved to produce exactly the result and the new state that the `Evaluation` function gives.
- `EvalProperties` and `Scoping` hold the properties of evaluation:
  - sequences fail fast;
  - in `if`, the first match wins;
  - blocks get their own scope;
  - `:=` and `<-` behave differently;
  - function literals get identity and bind their own name;
  - closures see their defining scope as it is when they are called.

Function identity: `FnValue.Eq` compares `defn` pointers, and every evaluation of a function literal takes the address of a fresh copy of the node. So the model gives each evaluation of a literal a fresh `FnDefn.id`, drawn from the `nextFn` counter.

Where the source panics, the model returns `InternalFault`:

- an index equal to the length of a string or list, where the guard is `>` rather than `>=`;
- a call with fewer arguments than parameters, on the slice `args[:len(fn.defn.args)]`;
- destructuring, property assignment and an illegal left-hand side;
- unary and binary operators.

The model follows the code here. It does not follow a reading in which these cases yield `Null` or pad the arguments.

The one place where the model departs from the code is the object lookup of a property access. As written, a string never finds the entry that an object literal files under that same string. The model uses the corrected lookup and keeps the written one beside it (see "## Findings").

## Model

The per-node functions of `Evaluation` (`Step`, `ListLiteral`, `ObjectLiteral`, `EvalEntry`, `EvalEntries`, `Assignment`, `PropertyAccess`, `LookupKey`, `FnCall`, `Apply`, `ApplyClosure`, `IfExpr`, `EvalBranches`, `Block`) state only that the store grows. Each is the specification of the `Interpreter.Context` method whose row names it, and the `EvalProperties` and `Scoping` rows state what they compute.

| member | source | states |
|---|---|---|
| Bytes.Chars | eval.go:77 | Go's `string(b)`: one char per byte, each with that byte's value |
| Bytes.ZeroExtend | eval.go:15-23 | input of at least `max` bytes comes back unchanged; otherwise the result has exactly `max` bytes, starts with the input and is zero after it |
| Bytes.MaxLen | eval.go:26-32 | the result is at least each length and equal to one of them |
| Values.Eq | eval.go:47-246 | two values of different kinds are never equal unless one of them is `Empty` |
| Values.ElemsEqFromIff | eval.go:183-188 | the early-exit element loop of `ListValue.Eq` accepts exactly when every remaining pair of positions is `Eq` |
| Values.EmptyIsWildcard | eval.go:47-246 | `Empty` equals every value; every value other than a closure or a builtin equals `Empty`; a closure or a builtin does not |
| Values.NullEquality | eval.go:61-70 | `Null` equals exactly `Empty` and `Null`; no other value accepts `Null` |
| Values.ListEqIff | eval.go:173-192 | a list equals `w` iff `w` is `Empty` or a list of the same length whose elements are pairwise `Eq` |
| Values.ListOrderMatters | eval.go:183-187 | `[1, 2]` equals itself but not `[2, 1]` |
| Values.ObjectEqIff | eval.go:206-230 | an object equals `w` iff `w` is `Empty` or an object with the same key set whose values are `Eq` key by key; insertion order plays no part |
| Values.EqReflexive | eval.go:47-246 | every value is `Eq` to itself |
| Values.EqSymmetric | eval.go:47-230 | on values with no function inside, `Eq` is commutative |
| Values.EqNotSymmetric | eval.go:240-246 | with a function inside, `Eq` is not commutative, even nested in lists |
| Values.FormatInt | eval.go:92-94 | the decimal form is non-empty and made of digits, with at most a leading minus sign |
| Values.DigitsRoundTrip | eval.go:92-94 | reading back the digits of a natural number gives that number |
| Values.FormatIntRoundTrip | eval.go:92-94 | reading back the decimal form of an integer gives that integer |
| Values.FormatIntInjective | eval.go:397-398 | distinct integers have distinct decimal forms, so integer object keys never collide |
| Values.Display | eval.go:44-171 | `Empty` displays as `_`, `Null` as `?`, a string as its chars in single quotes, an integer as its decimal form, a Boolean as `true` or `false`, an atom as its name after a colon, and a list as the display forms of its elements joined by `, ` between brackets |
| Values.DisplayIntRoundTrip | eval.go:92-94 | the display form of an `int64` reads back as that number |
| Scopes.Get | eval.go:253-263 | a failed lookup is the "is undefined" error for that name |
| Scopes.Put | eval.go:265-267 | only the scope's own map changes, with `name` now bound to the value; every other scope and every parent link stays the same |
| Scopes.Update | eval.go:269-280 | a successful update keeps the number of scopes and every parent link; a failed one is the "is undefined" error for that name |
| Scopes.AncestorsChain | eval.go:248-251 | the chain of a scope follows parent links from the scope itself and ends at a root |
| Scopes.GetNearest | eval.go:253-263 | `get` returns the binding of the nearest scope on the chain that defines the name; it fails with "is undefined" exactly when no scope on the chain does |
| Scopes.UpdateNearest | eval.go:269-280 | `update` is a `put` into that same nearest defining scope; it fails with "is undefined" exactly when none defines the name |
| Scopes.UpdateNeverCreates | eval.go:269-280 | `update` succeeds exactly when `get` does, and no scope gains or loses a name |
| Scopes.GetAfterUpdate | eval.go:253-280 | after a successful `update`, `get` from the same scope returns the new value |
| Scopes.GetAfterPut | eval.go:253-267 | after a `put`, `get` from that scope returns the new value |
| Scopes.GetUnaffectedByPut | eval.go:253-267 | a `put` is invisible from every scope whose chain does not pass through the written scope |
| Scopes.PutInvisibleToParent | eval.go:253-267 | a `put` leaves everything that the scope's parent chain sees unchanged |
| Scopes.GetAfterAppend | eval.go:528-531 | allocating a new scope changes nothing that an existing scope sees |
| Scopes.UpdateStaysBelow | eval.go:269-280 | an `update` writes no scope younger than the one it starts from |
| Scopes.UpdateAfterAppend | eval.go:562-565 | allocating a new scope does not change what an `update` from an existing scope does to the existing scopes, nor whether it fails |
| Evaluation.BindParams | eval.go:527-534 | the call scope binds exactly the declared parameters, each to the argument at its position (the last position for a repeated name) |
| Evaluation.KeyString | eval.go:394-405 | a computed key must be a string, integer or float, and is otherwise an error; a string files under its chars and an integer under its decimal form |
| Evaluation.IndexString | eval.go:466-478 | a non-integer index is an error; a negative index or one past the length gives `Null`; an index in range gives the one-byte string; the index equal to the length faults |
| Evaluation.IndexList | eval.go:479-491 | the same cases as for strings, giving the element |
| Evaluation.ObjectKey | eval.go:394-405 | corrected lookup key: the name an object literal files the same key under, and the display form for any key that is not a string |
| Evaluation.IndexObject | eval.go:492-499 | corrected lookup: it never fails, and gives the entry filed under `ObjectKey` of the key, or `Null` when there is none |
| Evaluation.IndexObjectAsWritten | eval.go:492-499 | the lookup as written: it never fails, and gives the entry filed under the key's display form, or `Null` when there is none |
| Evaluation.StringKeyMissedAsWritten | eval.go:395-396 | as written, an object holding one entry filed under a string's chars gives `Null` for that string, where the corrected lookup gives the entry |
| Evaluation.Index | eval.go:465-504 | indexing an object never fails; any base that is not a string, list or object is a runtime error |
| Evaluation.NotIndexable | eval.go:502-504 | indexing any other base is a runtime error |
| Evaluation.FnLiteral | eval.go:416-424 | a closure over the current scope whose identity is the count before it, which goes up by one; a named literal is `put` under its name into the current scope, with every other scope unchanged, and is then readable there; an unnamed one changes no scope |
| Evaluation.BindName | eval.go:433-442 | `:=` is exactly a `put` into the current scope and `<-` exactly what `update` writes; on success the result is the assigned value and the name reads as it from the current scope; it fails exactly for `<-` on a name that `get` does not find, with the "is undefined" error and the state unchanged |
| Evaluation.AssignTo | eval.go:432-453 | only an assignment to a name succeeds, with the assigned value; any other left-hand side is an internal fault that changes nothing |
| Evaluation.Eval | eval.go:355-578 | evaluation never removes a scope, keeps every parent link pointing to an older scope, and never lowers the function-literal count |
| Evaluation.EvalSeq | eval.go:374-380 | a successful evaluation of a node list yields exactly one value per node; `EvalSeqAppend` and `EvalSeqAt` state the values |
| Interpreter.Context.constructor | eval.go:292-301 | a new context has a single root scope with no bindings and has counted no function literal |
| Interpreter.Context.Put | eval.go:265-267 | the store becomes `Scopes.Put` of the old store |
| Interpreter.Context.Update | eval.go:269-280 | the store becomes the result of `Scopes.Update`, or stays unchanged with the "is undefined" error |
| Interpreter.Context.EvalProgram | eval.go:350-353 | a program runs as one block under the root scope |
| Interpreter.Context.EvalExpr | eval.go:355-578 | the result and the new state are exactly `Evaluation.Eval`'s |
| Interpreter.Context.EvalSimple | eval.go:357-426 | literals, function literals, names and the unary and binary stubs, exactly as `Evaluation.Step` |
| Interpreter.Context.EvalCompound | eval.go:372-575 | the cases that evaluate sub-expressions, exactly as `Evaluation.Step` |
| Interpreter.Context.EvalFnLiteral | eval.go:416-424 | the closure, and the binding of its name, exactly as `Evaluation.FnLiteral` |
| Interpreter.Context.EvalExprs | eval.go:517-523 | the argument and element loop yields exactly `Evaluation.EvalSeq` |
| Interpreter.Context.EvalList | eval.go:372-381 | exactly `Evaluation.ListLiteral` |
| Interpreter.Context.EvalObject | eval.go:382-415 | exactly `Evaluation.ObjectLiteral` |
| Interpreter.Context.EvalEntryList | eval.go:384-414 | the entry loop yields exactly `Evaluation.EvalEntries` |
| Interpreter.Context.EvalEntryStep | eval.go:385-413 | one entry, key then value, exactly as `Evaluation.EvalEntry` |
| Interpreter.Context.EvalAssignment | eval.go:427-453 | exactly `Evaluation.Assignment` |
| Interpreter.Context.AssignTarget | eval.go:432-453 | the store by left-hand side, exactly as `Evaluation.AssignTo` |
| Interpreter.Context.AssignName | eval.go:433-442 | `put` for `:=` and `update` for `<-`, exactly as `Evaluation.BindName` |
| Interpreter.Context.EvalPropertyAccess | eval.go:454-504 | exactly `Evaluation.PropertyAccess` |
| Interpreter.Context.EvalLookup | eval.go:460-504 | exactly `Evaluation.LookupKey` |
| Interpreter.Context.EvalCall | eval.go:511-542 | exactly `Evaluation.FnCall` |
| Interpreter.Context.Call | eval.go:525-542 | exactly `Evaluation.Apply` |
| Interpreter.Context.CallClosure | eval.go:525-535 | exactly `Evaluation.ApplyClosure` |
| Interpreter.Context.BindArgs | eval.go:528-534 | the store gains one scope under the closure's scope, binding the parameters as `Evaluation.BindParams` does |
| Interpreter.Context.EvalIf | eval.go:543-559 | the subject is evaluated once, then the branches, exactly as `Evaluation.IfExpr` |
| Interpreter.Context.EvalBranchList | eval.go:549-559 | the branch loop yields exactly `Evaluation.EvalBranches` |
| Interpreter.Context.EvalBlock | eval.go:560-575 | exactly `Evaluation.Block` |
| Interpreter.Context.EvalBlockBody | eval.go:567-575 | the block loop yields the last value, or `Null` for none, after `Evaluation.EvalSeq` in the block scope |
| EvalProperties.EvalSeqStops | eval.go:374-380 | once a prefix of a node list fails, the nodes after it are not evaluated and do not change the outcome |
| EvalProperties.EvalEntriesStops | eval.go:384-414 | the same for the entries of an object literal |
| EvalProperties.EvalSeqAppend | eval.go:374-380 | evaluating `a + b` is evaluating `a`, then `b` from the state `a` left, with the values concatenated in order and the first error winning |
| EvalProperties.EvalSeqAt | eval.go:374-380 | value `i` of a successful node list is node `i`'s value, evaluated in the state the nodes before it left |
| EvalProperties.ListLiteralAt | eval.go:372-381 | element `i` of a list literal's value is the value of element expression `i`, evaluated after those before it |
| EvalProperties.ListOrderExample | eval.go:372-381 | `[1, 2]` gives `[1, 2]` and leaves the state unchanged |
| EvalProperties.EvalEntriesAppend | eval.go:383-414 | the entries `a + b` are `a`, then `b` from the state `a` left; the resulting map is `a`'s overridden by `b`'s, so a later entry wins a repeated key; the first error wins |
| EvalProperties.RepeatedKeyExample | eval.go:413 | `{a: 1, a: 2}` gives the object `{a: 2}` |
| EvalProperties.EvalLiteral | eval.go:357-371 | a literal evaluates to its constant and leaves the state unchanged |
| EvalProperties.FirstMatch | eval.go:549-558 | the scan's bounds: a found position lies within the branches, and the state only grows |
| EvalProperties.BranchesByFirstMatch | eval.go:549-559 | the branches give the body of the first matching branch, `Null` when none matches, or the error of a failing target |
| EvalProperties.FirstMatchDecided | eval.go:549-558 | once a match or an error decides the scan, later branches are never evaluated |
| EvalProperties.LaterBranchesIgnored | eval.go:549-559 | after the first match, the later branches are neither evaluated nor able to change the result |
| EvalProperties.NoMatchIff | eval.go:549-558 | the scan finds nothing exactly when every target, each evaluated in the state the earlier ones left, evaluates without error and does not match |
| EvalProperties.FoundIsFirstHit | eval.go:549-558 | when the scan finds branch `k`, every earlier target evaluates and misses, target `k` evaluates and matches, and the state is the one after target `k` |
| EvalProperties.FirstHitIsFound | eval.go:549-558 | when every target before branch `k` evaluates and misses and target `k` matches, the scan finds `k` |
| EvalProperties.FirstMatchIff | eval.go:549-558 | the scan finds branch `k` exactly when every earlier target misses and target `k` matches |
| EvalProperties.NoMatchIsNull | eval.go:549-559 | an `if` in which every target, in turn, evaluates and misses gives `Null` |
| EvalProperties.IfFirstMatchExample | eval.go:543-559 | `if 2 { 1 -> :one, 2 -> :two, 2 -> :again }` gives `:two` |
| EvalProperties.IfWildcardExample | eval.go:543-559 | `_` as a branch target matches: `if 3 { 1 -> :one, _ -> :other }` gives `:other` |
| Scoping.EmptyBlockIsNull | eval.go:567-575 | an empty block gives `Null` and opens its own scope |
| Scoping.BlockIsLast | eval.go:560-575 | a block gives the value of its last expression, evaluated in the block's scope after the others; an earlier error is the block's error |
| Scoping.BlockOfOne | eval.go:560-575 | a block of one expression is that expression evaluated in a fresh child scope of the current one |
| Scoping.AssignLiteral | eval.go:427-442 | assigning a literal to a name is binding its value with `put` or `update` |
| Scoping.LocalAssignStaysInBlock | eval.go:433-435 | `{ x := e }`, a one-expression block assigning a literal `e`, binds `x` to `e`'s value in the block's own scope; every scope that existed before is exactly as it was |
| Scoping.LocalAssignInvisibleOutside | eval.go:433-435 | after `{ x := e }` with a literal `e`, no scope that existed before sees a change |
| Scoping.NonlocalAssignReachesOuter | eval.go:436-441 | `{ x <- e }` with a literal `e`, for a name defined outside, rebinds it there, exactly as `update` from the outer scope; the block's scope stays empty |
| Scoping.NonlocalAssignUndefined | eval.go:436-441 | `{ x <- e }` with a literal `e`, for a name nowhere defined, fails with "x is undefined" and changes no existing scope |
| Scoping.FnLiteralBindsName | eval.go:416-424 | a function literal gives a closure over the current scope with the next identity; a named one is `put` under its name into that scope, every other scope unchanged, and an unnamed one binds nothing |
| Scoping.FnLiteralsDistinct | eval.go:240-246 | two evaluations of the same function literal give values that are not `Eq`, while each equals itself |
| Scoping.BindParamsPrefix | eval.go:527 | binding looks at no argument past the declared parameters |
| Scoping.ExtraArgsIgnored | eval.go:527 | arguments beyond the parameters are dropped |
| Scoping.TooFewArgs | eval.go:527 | a call with fewer arguments than parameters faults |
| Scoping.CallStore | eval.go:528-534 | the call store adds one scope under the closure's scope, binding exactly the parameters |
| Scoping.CallRunsBody | eval.go:525-535 | a closure call evaluates the body from the new scope in that store |
| Scoping.CallBindsParam | eval.go:532-535 | a closure whose body is just a parameter's name (the last parameter of that name) returns the argument at that parameter's position |
| Scoping.ClosureSeesCurrentBinding | eval.go:528-535 | a closure whose body is just a name that is not a parameter returns that name's binding from the closure's scope, as the store is at the call |
| Scoping.ClosureSeesLaterPut | eval.go:232-235 | for a closure whose body is just a name that is not a parameter, a binding of that name made in the closure's scope after the closure was created is what the call returns |

## Left out

- `Context.Eval` reads the program text and calls a tokenizer and parser. Neither is part of this model, so a program is given as syntax nodes.
- Float formatting (`strconv.FormatFloat`) is not modelled. A float is an opaque 64-bit token, and `Eq` on floats compares tokens. This means NaN equals itself and the two zeros differ, unlike Go's `==`. The display forms of floats, objects (whose entry order is unspecified), functions and builtins come from `Host.show`.
- Builtin functions are not defined in `eval.go`. Calling one runs the host's `native` function. Their `Eq` is taken to be name identity, with no `Empty` case, like function values.
- Stack traces, `generateStackTrace`, `vmError` and the `Cwd` and `SourcePath` fields carry no behaviour and are left out. Error values carry only their reason, without the "Runtime error: " prefix that `Error()` adds.
- Go panics become `InternalFault` results. The panic message for an illegal left-hand side omits the formatted node.
- Fuel bounds evaluation, since calls may not terminate. A run deeper than the fuel gives `OutOfFuel`. The model says nothing about programs that need more fuel than they are given.
- Evaluation.ApplyClosure: the model has one extra fault case, a closure whose scope index is outside the store. A function literal always closes over an existing scope, but the host's `native` may return any value, so that fault is reachable only through a builtin's result. The model does not prove that evaluation keeps every stored closure's scope in range.
- Evaluation.KeyString: names and keys are strings of chars, and a string value's bytes become one char each (`Bytes.Chars`). Go keys objects by the bytes of the UTF-8 encoding, so a non-ASCII identifier key and the same text as a string key file under the same entry in Go but under different entries here. The model is faithful for ASCII names and keys.
- Lists and objects are values here. The source's slices and maps could in principle be shared and mutated in place, but this core never mutates one after building it.
- Bytes.ZeroExtend: the model does not capture that the result aliases the input when the input is long enough.
- Evaluation.Eval: its contract states that the store stays linked and only grows. It does not state that existing scopes keep their parents. `Scopes.Put` and `Scopes.Update` state that for each single write.
- The `return null, nil` after the node switch is unreachable here, because the node type is closed.

## Findings

| source | as written | input that shows it | evidently intended | confidence | as-written member | corrected member |
|---|---|---|---|---|---|---|
| eval.go:492-499 | an object lookup uses the key's display form, which quotes a string, while an object literal files a string key under its bare chars (eval.go:395-396) | `{('a'): 1}.('a')` gives `?` | the lookup uses the same key form as the literal, so that it gives `1` | likely; not executed | Evaluation.StringKeyMissedAsWritten | Evaluation.IndexObject |
