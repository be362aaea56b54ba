# Chi: checker and evaluator

A Dafny model of the core of Chi, a small functional language with fixed-size integers:

- the static type checker `getTypeOf`, which annotates every node with a `typeHint`;
- the tree-walking evaluator `interpret`, which reads those hints;
- the run-time classes and type tags both of them share.

The syntax tree is taken as given input.

The checker and the evaluator are modelled as methods over heap objects, because that is how
the source works:

- `Environment` and `Store` are mutable maps.
- Every new location comes from one shared counter (`Store.location`).
- A closure keeps the very environment object it was created in. A later `let` in that
  environment binds the closure's own name, so at run time a closure can reach itself.
  The checker, however, refuses a function literal that calls itself by its own name on a tree
  as the parser builds it, without hints: the call reads the name's hint before the `let`
  writes it. `Driver.SelfCallingRefused` states this for `let f = (x) => f(x)`, so `Run` never
  evaluates such a call.
- The one mutable field of a node, its `typeHint` (and the `to` field of a cast), lives in an
  `Annotations` object keyed by node identity.

The value methods, the typing rules and the binding step of a call are pure functions. The
methods are proved against them.

Every checker and evaluator step keeps one invariant, `Threaded` (module `InterpreterClasses`):

- the counter only grows;
- the store handed in only gains entries, all at issued locations;
- the store answered is that store or a new one, and holds every entry the handed store held
  on entry.

The files:

- `outcomes.dfy`: the error classes as one outcome datatype.
- `types.dfy`: the type tags, the signed/unsigned counterparts, and how types print.
- `typed_arrays.dfy`: the typed-array conversions. These are ToInt8 to ToUint32 of ECMA-262
  (6th edition), sections 7.1.5 to 7.1.10.
- `parse_int.dfy`: `parseInt` (section 18.2.5 of ECMA-262) and the decimal text of an integer.
- `classes.dfy`: environments, stores, the counter, the syntax tree, values and their methods.
- `type_system_rules.dfy`: the pure typing judgements.
- `checker_semantics.dfy`: a reference semantics of the checker as functions over the part of
  the heap it reads and writes (environment bindings, store entries, counter, hints, cast
  targets).
- `type_system.dfy`: the checker. Every method is proved to compute its case of the reference
  semantics exactly.
- `interpreter_values.dfy`: the pure evaluation steps.
- `evaluator_semantics.dfy`: a reference semantics of the evaluator for call-free expressions,
  with its properties (block sequencing, reading back a `let`, what a step keeps).
- `interpreter.dfy`: the evaluator. Every method is proved to compute the reference semantics
  whenever the expression is call-free.
- `driver.dfy`: check, then interpret.

There are two copies of the run-time classes, `src/` and the newer `src/language/`. The model
follows the newer copy wherever the two differ:

- The checker's cast rule calls `makeSigned`/`makeUnsigned`, which only `src/language/Types.js`
  defines.
- Only the newer `Value.equals` and `StringValue.to` behave as the checker assumes.

The older behaviours are kept beside the model under names ending in `OlderCopy`; see
"## Findings".

## Model

| member | source | states |
|---|---|---|
| Types.MakeSigned | src/language/Types.js:39-66 | signed-family types answer themselves, a concrete unsigned type answers the signed type of its width, and it fails exactly for `u?` |
| Types.MakeUnsigned | src/language/Types.js:45-66 | the mirror image: it fails exactly for `i?` and otherwise answers an unsigned type of the same width |
| Types.CounterpartRoundTrip | src/language/Types.js:100-105 | `makeUnsigned(makeSigned(t)) == t` for every concrete unsigned `t`, and symmetrically for the signed types |
| Types.InspectIntegerInjective | src/language/Types.js:51-53 | integer types print as abbreviation plus width (`?` for the generic markers), and distinct integer tags print differently |
| TypedArrays.Wrap | src/InterpreterClasses.js:193-195 | storing a number in a typed array gives the value in range that is congruent to it modulo 2^width |
| TypedArrays.WrapIdentity | src/InterpreterClasses.js:193-195 | a value already in range is stored unchanged |
| TypedArrays.WrapCongruent | src/InterpreterClasses.js:193-195 | numbers that agree modulo 2^width are stored as the same value |
| TypedArrays.WrapNarrowing | src/InterpreterClasses.js:214-236 | storing into a wider array and then into a narrower one equals storing into the narrower one directly |
| NumberParsing.DecimalTextRoundTrip | src/language/InterpreterClasses.js:273 | `parseInt` of an integer's decimal text gives that integer back |
| InterpreterClasses.Environment.constructor | src/InterpreterClasses.js:18-23 | a new environment is empty |
| InterpreterClasses.Environment.Extend | src/Interpreter.js:160 | `new Environment(parent)` holds a copy of the parent's bindings |
| InterpreterClasses.Environment.Set | src/InterpreterClasses.js:19-22 | `set` binds the name and answers the location it was given |
| InterpreterClasses.Environment.Delete | src/Interpreter.js:162-166 | `delete` removes exactly that name |
| InterpreterClasses.Store.Extend | src/TypeSystem.js:133 | `new Store(parent)` holds a copy of the parent's entries |
| InterpreterClasses.Store.Set | src/InterpreterClasses.js:29-32 | `set` stores the payload and answers the location it was given |
| InterpreterClasses.LocationCounter.NextLocation | src/InterpreterClasses.js:24-36 | it answers the shared counter and increments it, so no two calls answer the same location |
| InterpreterClasses.Annotations.Hint | src/TypeSystem.js:200 | a hint counts as present only when it is set and not undefined |
| InterpreterClasses.Annotations.Infer | src/TypeSystem.js:54-63 | `infer` always overwrites the node's hint, and a different earlier hint only draws a warning |
| InterpreterClasses.LiteralValue | src/Interpreter.js:44-46 | a literal is its own value, an integer held wrapped in its typed array |
| InterpreterClasses.TruncatedDivideBounds | src/InterpreterClasses.js:16 | division followed by the integer conversion truncates toward zero: quotient magnitude and sign |
| InterpreterClasses.Arithmetic | src/InterpreterClasses.js:183-213 | arithmetic succeeds exactly on a number left operand and a defined right operand; the result has the LEFT operand's class and is the exact result wrapped to it; a non-number right operand gives 0 |
| InterpreterClasses.TypeToValue | src/language/InterpreterClasses.js:109-126 | exactly the six concrete integer types have a value class; any other type throws |
| InterpreterClasses.NumberTo | src/language/InterpreterClasses.js:223-226 | `to(t)` succeeds exactly for a concrete integer `t` and re-wraps the number to `t` |
| InterpreterClasses.NumberToRoundTrip | src/language/InterpreterClasses.js:223-226 | converting to a type that holds the number and back gives the number back |
| InterpreterClasses.StringTo | src/language/InterpreterClasses.js:259-282 | string to string is the same value; to an integer type (`i?`/`u?` made 32-bit) it parses and wraps, or raises a RuntimeError for NaN; anything else is a TypeError |
| InterpreterClasses.StringToOlderCopy | src/InterpreterClasses.js:145-152 | the older `to` accepts only string |
| InterpreterClasses.StringCastOfDecimalText | src/language/InterpreterClasses.js:273-278 | the decimal text of any integer casts to that integer wrapped to the target |
| InterpreterClasses.BoolTo | src/language/InterpreterClasses.js:180-187 | a bool casts only to bool, as itself |
| InterpreterClasses.ValueEquals | src/language/InterpreterClasses.js:76-81 | `equals` answers a bool for any two defined operands; numbers compare their numbers; two values of one primitive type are equal exactly when their payloads are |
| InterpreterClasses.EqualsOlderCopy | src/InterpreterClasses.js:67-69 | the older `equals` works only for a number on the left, where it agrees with the newer one |
| InterpreterClasses.OlderEqualsRejectsBoolsAndStrings | src/InterpreterClasses.js:67-69 | the older `equals` fails on two bools and on two strings |
| InterpreterClasses.EqualsComparesPayloads | src/language/InterpreterClasses.js:79-81 | the newer `equals` compares bools and strings by value |
| InterpreterClasses.NotValue | src/language/InterpreterClasses.js:171-173 | `not` exists only on bools and negates |
| InterpreterClasses.AndValue | src/language/InterpreterClasses.js:174-176 | on two bools `and` is their conjunction; a false left operand gives false; a non-bool left operand has no `and` |
| InterpreterClasses.OrValue | src/language/InterpreterClasses.js:177-179 | on two bools `or` is their disjunction; a true left operand gives true; a non-bool left operand has no `or` |
| InterpreterClasses.Concatenate | src/language/InterpreterClasses.js:283-285 | only a string concatenates; two strings give the joined text, and the result always starts with the left text |
| TypeRules.GreaterDomain | src/TypeSystem.js:64-77 | two concrete integer types of one signedness promote to one of the two, at least as wide as both (the left one on equal width); anything else throws |
| TypeRules.GreaterDomainSymmetric | src/TypeSystem.js:64-77 | promotion does not depend on the order of the operands |
| TypeRules.GreaterDomainHoldsOperands | src/TypeSystem.js:64-77 | every value of either operand type is a value of the promoted type |
| TypeRules.BinaryRuleLeavesHint | src/TypeSystem.js:164-251 | after an accepted binary node whose type is not `any`, the node's hint is its type |
| TypeRules.EqualsRule | src/TypeSystem.js:171-180 | `==` accepts exactly identical operand types (a generic marker fails promotion first) and gives bool |
| TypeRules.BooleanRule | src/TypeSystem.js:181-198 | `∧`/`∨` accept exactly two bools and give bool, whatever the hint |
| TypeRules.ArithmeticRule | src/TypeSystem.js:203-242 | without a hint, `+ - · /` accept exactly what promotion accepts and give the promotion |
| TypeRules.PowerRule | src/TypeSystem.js:243-251 | without a hint, `**` gives the base's type; it needs an integer base, and an integer exponent must promote with it |
| TypeRules.PowerWithOtherSignednessRefused | src/TypeSystem.js:243-251 | `i8 ** u8` is refused by the eager promotion |
| TypeRules.StringShortcut | src/TypeSystem.js:167-170 | two strings give string for every operator |
| TypeRules.HintShortcut | src/TypeSystem.js:199-202 | an arithmetic node with a hint takes the hint once the earlier checks pass |
| TypeRules.NotRule | src/TypeSystem.js:253-262 | `¬` needs a bool and gives bool; anything else is a TypeError |
| TypeRules.LiteralType | src/TypeSystem.js:265-303 | each literal gets its own tag |
| TypeRules.LiteralTypeAsWritten | src/TypeSystem.js:265-303 | the literal branch as written agrees with `LiteralType` wherever it succeeds |
| TypeRules.UnsignedLiteralsRefusedAsWritten | src/TypeSystem.js:286-293 | as written, exactly the `u16` and `u32` literals are refused |
| TypeRules.LiteralTypeDescribesValue | src/TypeSystem.js:265-303 | a literal's type is the type of the value it evaluates to |
| TypeRules.FunctionDomain | src/TypeSystem.js:307-313 | the domain is `[void]` without parameters, otherwise one `any` per parameter |
| TypeRules.FunctionDomainVoid | src/TypeSystem.js:307-313 | the domain is `[void]` exactly when there are no parameters |
| TypeRules.ValueMatchesType | src/TypeSystem.js:81-109 | `any` accepts every argument; undefined accepts none |
| TypeRules.ValueMatchesTypeCases | src/TypeSystem.js:81-96 | a literal matches exactly `any` and its own tag; other non-function arguments match only `any` |
| TypeRules.ChainLookupReachesOnlyFirstEntries | src/TypeSystem.js:343-363 | the walk fails exactly when a walk by offset fails; otherwise it finds the same entry or undefined |
| TypeRules.ChainLookupMissesSecondParameter | src/TypeSystem.js:356 | for `(x) => (y, z) => …` with three arguments, the third argument's expected type is undefined, where the offset gives `any` |
| TypeRules.ImagesOfCurried | src/TypeSystem.js:375-380 | taking `k` images of a curried type strips its first `k` layers |
| TypeRules.ApplyResultCases | src/TypeSystem.js:375-380 | one argument gives the image; one argument per layer of a curried function gives the type past the last layer |
| TypeRules.ExpectedAt | src/TypeSystem.js:340-364 | a present domain entry is the expected type; a missing domain cannot be indexed |
| TypeRules.CastRule | src/TypeSystem.js:446-492 | the cast is accepted exactly for the same type, for integer to integer (except `i?`/`u?` between the two markers), and for string to integer; the result is the target or a resolved marker |
| TypeRules.CastResolvesGenericMarkers | src/TypeSystem.js:458-471 | from a concrete integer type every integer cast succeeds with a concrete type; `i?`/`u?` take the source's width |
| TypeRules.CastFromString | src/TypeSystem.js:473-484 | a string casts to every integer type, `i?`/`u?` becoming 32-bit |
| CheckerSemantics.Typing | src/TypeSystem.js:78-496 | the reference checker over the handed environment's bindings, the handed store's entries, the counter and the nodes' hints and `to` fields; every step keeps `Grows`: the counter only grows; from issued entries, the handed store only gains entries at issued locations and the store answered holds every entry of the current one |
| CheckerSemantics.TypingOn | src/TypeSystem.js:113-114 | checking with the store a previous step answered, seen from the store handed before; keeps `GrowsOn` relative to that store |
| CheckerSemantics.Moved | src/TypeSystem.js:113-114 | a step handed a new store, seen from the earlier store: the same answer with its store named, and the earlier store's entries kept |
| CheckerSemantics.TypingStatements | src/TypeSystem.js:110-119 | a block's statements in order, each with the store the previous one answered; the last type or undefined; keeps `GrowsOn` |
| CheckerSemantics.TypingLet | src/TypeSystem.js:120-159 | on success the name is bound to the next location, a copy of the answered store holds the type there, and both nodes are hinted; a ReferenceError for the name itself is retried only for a function literal and is a ReferenceError otherwise; other errors pass on; keeps `Grows` |
| CheckerSemantics.TypingLetRetry | src/TypeSystem.js:141-149 | the retry binds the name to the next location of the handed store, which holds `RecursiveType`, checks the bound expression again and hints both nodes; keeps `Grows` |
| CheckerSemantics.TypingBinary | src/TypeSystem.js:161-252 | left operand with the handed store, right operand with the store the left answered, then `BinaryRule` under the hint at that point; keeps `Grows` |
| CheckerSemantics.TypingNot | src/TypeSystem.js:253-262 | the operand, then `NotRule`; keeps `Grows` |
| CheckerSemantics.FilledExtends | src/TypeSystem.js:314-318 | writing `any` at the next locations keeps every issued entry, issues the new ones, and holds `any` at each |
| CheckerSemantics.TypingFunction | src/TypeSystem.js:305-323 | the parameters bound in a copy of the environment to new locations of the handed store holding `any`, the body checked there; the function type, hinted, with the handed store; the bindings are those before; keeps `Grows` |
| CheckerSemantics.TypingId | src/TypeSystem.js:435-445 | a name changes neither bindings, entries nor counter, and answers the handed store |
| CheckerSemantics.TypingCast | src/TypeSystem.js:446-492 | the current `to` recorded again unless generic, the operand, then `CastRule`; an accepted cast of another type records the result in `to`, and every accepted cast hints it; keeps `Grows` |
| CheckerSemantics.TypingApply | src/TypeSystem.js:324-433 | the target, then a function call, a call through the placeholder, or a TypeError; keeps `Grows` |
| CheckerSemantics.TypingFunctionCall | src/TypeSystem.js:388-419 | the branches of a call of a function type, from the store the target answered; keeps `GrowsOn` |
| CheckerSemantics.TypingRecursiveCall | src/TypeSystem.js:420-430 | a call through the placeholder takes domain and image from the identifier's current hint, and hints the call only when it has none; keeps `Grows` |
| CheckerSemantics.TypingArguments | src/TypeSystem.js:327-387 | zero arguments need a `[void]` domain, otherwise the arguments in turn; keeps `Grows` |
| CheckerSemantics.TypingArgumentsFrom | src/TypeSystem.js:338-386 | the arguments from the `i`-th, each with the store the previous one answered; keeps `GrowsOn` |
| CheckerSemantics.TypingNextArgument | src/TypeSystem.js:339-384 | one argument, and after the last one the call's type from the image (`ApplyResult`); keeps `GrowsOn` |
| CheckerSemantics.TypingArgument | src/TypeSystem.js:339-369 | the argument's type, then its expected type, which it must match; hinted with its own type; keeps `GrowsOn` |
| CheckerSemantics.ArgumentMoved | src/TypeSystem.js:340 | checking an argument with the store the previous one answered is checking it with that store handed |
| CheckerSemantics.NextArgumentMoved | src/TypeSystem.js:340 | the same for an argument together with the call type after it |
| CheckerSemantics.NextArgumentSucceeds | src/TypeSystem.js:367-381 | an accepted argument matched its expected type; before the last one the call type is unchanged, after it the call type is `ApplyResult` of the image |
| CheckerSemantics.ArgumentsFromResult | src/TypeSystem.js:338-386 | a successful pass over the arguments from the `i`-th ends with `ApplyResult` of the image, or the running type when none are left |
| CheckerSemantics.ArgumentsSucceed | src/TypeSystem.js:327-387 | accepted arguments give `ApplyResult` of the image; accepted zero arguments had a `[void]` domain and give the image |
| CheckerSemantics.LetThenReadType | src/TypeSystem.js:120-135 | after a successful `let`, reading its name in the next statement gives the bound expression's type |
| TypeSystem.TypeOf | src/TypeSystem.js:78-496 | it computes `Typing` exactly: the same type or error, the same environment bindings, store entries, counter, hints and cast targets; every step keeps `Threaded`; a literal answers its type by the corrected literal rule `LiteralType` (see "## Findings"), with the same store and the hint written; `Id` fails exactly for an unbound name, with a ReferenceError for it; a function literal leaves the environment alone |
| TypeSystem.TypeOfBlock | src/TypeSystem.js:110-119 | the loop computes `TypingStatements` from the first statement: each statement checked in order with the store the previous one answered, the last type answered, undefined and the handed store for an empty block |
| TypeSystem.TypeOfLet | src/TypeSystem.js:120-159 | it computes `TypingLet`; on success the name is bound to a location issued by this step, holding the type or the placeholder in the store answered, and both nodes are hinted with the type |
| TypeSystem.RetryLet | src/TypeSystem.js:141-149 | it computes `TypingLetRetry`; on success the name is bound to a location issued by this step, holding the type or the placeholder, and both nodes are hinted |
| TypeSystem.TypeOfBinary | src/TypeSystem.js:161-252 | it computes `TypingBinary`: left then right operand with the threaded store, then `BinaryRule` under the hint at that moment; accepted non-`any` nodes carry their type as hint |
| TypeSystem.TypeOfNot | src/TypeSystem.js:253-262 | it computes `TypingNot`; an accepted `¬` answers bool |
| TypeSystem.TypeOfFunction | src/TypeSystem.js:305-323 | it computes `TypingFunction`: parameters bound to new locations holding `any`, the body checked there; it answers `FunctionType(FunctionDomain, body type)` with the handed store, hints it, and leaves the caller's environment unchanged |
| TypeSystem.BindParameterTypes | src/TypeSystem.js:314-318 | a new environment holding `BindAll` of the caller's bindings, the store holding `any` at one new location per parameter, and the counter advanced by the number of parameters |
| TypeSystem.TypeOfId | src/TypeSystem.js:435-445 | it fails exactly for an unbound name; otherwise it answers the stored type (undefined if missing) and hints it |
| TypeSystem.TypeOfCast | src/TypeSystem.js:446-492 | it computes `TypingCast`: the answer and the error are `CastRule`'s for the operand type and the current `to`; an accepted cast hints the result and records it in `to` |
| TypeSystem.TypeOfApply | src/TypeSystem.js:324-433 | it computes `TypingApply`: the target, then a function call, a call through the placeholder, or a TypeError for any other target type |
| TypeSystem.ApplyFunction | src/TypeSystem.js:388-419 | it computes `TypingFunctionCall`; zero arguments work exactly for `[void]`; arguments to `[void]` fail; a partial call answers the rest of the domain with the same image; otherwise `ApplyResult` of the image; the node is hinted |
| TypeSystem.ApplyWithoutArguments | src/TypeSystem.js:391-399 | the same contract as `ApplyFunction`, for a call without arguments: it answers the image, with the store the target answered, exactly when the domain is `[void]`, and otherwise fails |
| TypeSystem.RefuseArguments | src/TypeSystem.js:400-404 | the same contract as `ApplyFunction`, for arguments given to a `[void]` function: the target is checked once more, a failure of that check is the answer, and otherwise the call is a TypeError |
| TypeSystem.ApplyWithArguments | src/TypeSystem.js:405-417 | the same contract as `ApplyFunction`, for arguments given to any other domain: a partial call answers the rest of the domain with the same image, a full one `ApplyResult` of the image, and the node is hinted with the answer |
| TypeSystem.ApplyRecursive | src/TypeSystem.js:420-430 | it computes `TypingRecursiveCall`; reading the domain and image of the identifier's missing hint is a TypeError |
| TypeSystem.CheckArguments | src/TypeSystem.js:327-387 | it computes `TypingArguments`: zero arguments need `[void]`, otherwise the arguments in turn |
| TypeSystem.CheckEachArgument | src/TypeSystem.js:338-386 | the loop computes `TypingArgumentsFrom` from the first argument |
| TypeSystem.CheckNextArgumentOn | src/TypeSystem.js:339-384 | it computes `TypingNextArgument` with the store the previous argument answered, and keeps the store the target answered |
| TypeSystem.CheckNextArgument | src/TypeSystem.js:339-384 | it computes `TypingNextArgument` with the store it is handed |
| TypeSystem.CheckArgument | src/TypeSystem.js:339-369 | it computes `TypingArgument`; an accepted argument matched its expected type (`ExpectedAt`) and is hinted with its own type |
| TypeSystem.ExpectedType | src/TypeSystem.js:340-364 | it computes `ExpectedAt` |
| TypeSystem.ExpectedTypeWalk | src/TypeSystem.js:343-363 | the loop computes `ChainLookup` from index 0 |
| TypeSystem.ApplyType | src/TypeSystem.js:375-380 | the loop over images computes `ApplyResult` |
| EvaluationRules.BinaryValue | src/Interpreter.js:61-127 | a generic hint throws; arithmetic under a concrete hint gives a well-formed value of the hint's type; other arithmetic without such a hint fails, except `+` |
| EvaluationRules.ArithmeticWrapsAtLeftWidth | src/Interpreter.js:98-122 | under a hint the result is the exact result wrapped to the left operand's class, then to the hint |
| EvaluationRules.LeftWrapInvisibleWhenNotWidening | src/Interpreter.js:98-122 | when the hint is no wider than the left operand, the first wrap makes no difference |
| EvaluationRules.LeftWrapExample | src/Interpreter.js:98 | `i8` 100 + `i16` 100 is typed `i16` but evaluates to -56 |
| EvaluationRules.ArithmeticPreservation | src/Interpreter.js:98-122 | arithmetic the checker accepts gives, under the checker's hint, a well-formed value of the promoted type |
| EvaluationRules.BooleanPreservation | src/Interpreter.js:90-95 | `∧`/`∨` on two bools give the boolean result |
| EvaluationRules.EqualsPreservation | src/Interpreter.js:87-89 | `==` on two primitives of one type gives whether they are equal |
| EvaluationRules.StringShortcutDisagrees | src/Interpreter.js:87-108 | the checker types string `==` and `-` as string; the evaluator gives a bool and an error |
| EvaluationRules.AddWithoutHintConcatenates | src/Interpreter.js:96-103 | `+` without an integer hint concatenates two strings |
| EvaluationRules.CastValue | src/Interpreter.js:212-221 | undefined cannot be cast (Error) and a closure has no `to` (TypeError) |
| EvaluationRules.CastPreservation | src/Interpreter.js:212-221 | a cast the checker accepts gives a well-formed value of the resolved type, or a RuntimeError for a string without a number |
| EvaluationRules.OlderStringCastRefusesAcceptedCast | src/InterpreterClasses.js:145-152 | the checker types the decimal text of an `i32` cast to `i32` as `i32`; the older `to` refuses it; the newer one gives the number |
| EvaluationRules.DecimalCastToInt32 | src/language/InterpreterClasses.js:273-278 | the newer conversion of the decimal text of an `i32` number to `i32` gives the number back |
| EvaluationRules.CallBindsParameters | src/Interpreter.js:160-184 | a call binds every parameter name to one of its new locations and keeps every other name of the closure's environment |
| EvaluationRules.PartialClosureKeepsNoParameters | src/Interpreter.js:185-188 | the filter for the closure of a partial call keeps no parameters |
| EvaluationRules.StoredArgumentsWrites | src/Interpreter.js:175-184 | binding keeps every earlier store entry and writes each argument (undefined when missing) at its parameter's location |
| EvaluatorSemantics.Evaluation | src/Interpreter.js:42-225 | the reference evaluator for call-free expressions, over the environment's bindings, the store's entries and the counter; the counter only grows, and after a successful `let` its name reads back the value |
| EvaluatorSemantics.Statements | src/Interpreter.js:47-56 | a block's statements in order in the block's environment, each with the store the previous one answered; the counter only grows |
| EvaluatorSemantics.ArgumentValues | src/Interpreter.js:150-157 | the arguments in order with the threaded store: one value per argument after those already gathered |
| EvaluatorSemantics.Gathering | src/Interpreter.js:149-157 | the target's value followed by one value per argument |
| EvaluatorSemantics.EvaluationKeeps | src/Interpreter.js:42-225 | a successful call-free evaluation keeps every stored entry, stores only at issued locations, and keeps every bound name readable |
| EvaluatorSemantics.StatementsKeep | src/Interpreter.js:47-56 | the same for the statements of a block |
| EvaluatorSemantics.BlockSequencing | src/Interpreter.js:47-56 | the block of `a + b` evaluates `a`, then the statements of `b` from where `a` left the machine and its value; names bound in `a` are visible in `b` |
| EvaluatorSemantics.StatementsAppend | src/Interpreter.js:50-54 | the statement loop over `a + b` from index `i` in `a` is the loop over `a` followed by the loop over `b` |
| EvaluatorSemantics.StatementsShift | src/Interpreter.js:50-54 | the statement loop over `a + b` past `a` is the loop over `b` |
| EvaluatorSemantics.LetThenRead | src/Interpreter.js:198-211 | a name a `let` binds reads back the value it was bound to |
| EvaluatorSemantics.DoubleNegation | src/Interpreter.js:128-136 | `¬¬x` is `x` for a bool; for any other value it is the TypeError of a missing `not` |
| EvaluatorSemantics.Lookup | src/Interpreter.js:207-211 | a defined result is the store entry at the name's location |
| Interpreter.Interpret | src/Interpreter.js:42-225 | for a call-free expression it computes `Evaluation` exactly: the same value or error, and the same environment bindings, answered store entries and counter; every step keeps `Threaded`; a literal is itself; `Id` reads the store unchecked; a function literal answers a closure over the current environment object, with the node's hint, and changes nothing |
| Interpreter.EvalBlock | src/Interpreter.js:47-56 | for a call-free block the loop computes `Statements` from the first statement; an empty block answers undefined and the handed store |
| Interpreter.EvalLet | src/Interpreter.js:198-206 | the name is bound in the current environment to a new location of a new store holding the value, and reads it back; a bound function literal is a closure over that same environment; for a call-free bound expression it computes `Evaluation` |
| Interpreter.EvalBinary | src/Interpreter.js:57-127 | for call-free operands it computes `Evaluation`: left then right with the threaded store, then `BinaryValue` under the node's hint |
| Interpreter.EvalNot | src/Interpreter.js:128-136 | for a call-free operand it computes `Evaluation`: `NotValue` of the operand |
| Interpreter.EvalCast | src/Interpreter.js:212-221 | for a call-free operand it computes `Evaluation`: `CastValue` under the node's hint |
| Interpreter.EvalApply | src/Interpreter.js:147-197 | the target's value (`callee`, the first value `Gathering` answers when the target and arguments are call-free) must be a closure, else a TypeError; a partial call answers a closure with no parameters over a new environment holding `CallBindings`, with the argument store holding `StoredArguments`; a full call without fuel is `StackExhausted`; an error while gathering is the answer; for a call-free target, call-free arguments and a call-free body, a full call with fuel answers the body's `Evaluation` in `frame`, a new environment holding `CallBindings` of the closure environment's bindings (the gathered bindings when the closure was made in the caller's environment), with `StoredArguments` of the gathered store and the counter past the parameters |
| Interpreter.GatherCall | src/Interpreter.js:149-157 | for a call-free target and arguments it computes `Gathering`: the target, then the arguments with the threaded store |
| Interpreter.Call | src/Interpreter.js:158-196 | the parameters are bound in `frame`, a new environment holding `CallBindings` of the closure's environment; a partial call answers a closure over it and the argument store holding `StoredArguments`; a full call with fuel and a call-free body computes `Evaluation` of the body in `frame` from that machine |
| Interpreter.EvalArguments | src/Interpreter.js:150-157 | for call-free arguments the loop computes `ArgumentValues`: each argument in order, with the threaded store, one value each |
| Interpreter.BindParameters | src/Interpreter.js:158-184 | the new environment is `CallBindings` of the closure's environment; the counter advances by the number of parameters; the argument store is `StoredArguments` |
| Driver.Run | src/index.js:31-62 | the checker runs from empty maps and a zero counter and computes `Typing`; its error is the run's error; otherwise the nodes carry the hints and cast targets it wrote, and a call-free program answers `Evaluation` in a new top-level environment from an empty store at the counter the check left |
| Driver.SelfCallingRefused | src/TypeSystem.js:139-150 | the check of `let f = (x) => f(x)` on a tree without hints is a TypeError, for any node identities and distinct names: the retry reaches the call through the placeholder, which reads the identifier's hint before the `let` writes it |
| Driver.SelfCallUnbound | src/TypeSystem.js:435-438 | the first attempt at the literal fails with a ReferenceError for the name, leaving only the parameter's `any` entry in the store |
| Driver.SelfCallThroughPlaceholder | src/TypeSystem.js:305-323 | with the name holding the placeholder whose identifier has no hint, the literal's check fails with the missing-hint TypeError |
| Driver.PlaceholderCallRefused | src/TypeSystem.js:420-423 | a call through a name holding the placeholder, whose identifier has no hint, is the missing-hint TypeError |

## Left out

- TypeSystem.TypeOf: the literal case uses the corrected rule `LiteralType`, which answers `u16` and `u32` for unsigned literals where the source refuses them (see "## Findings"). The difference is unreachable from source text: the parser makes only `Int32Value` literal nodes (src/Parser.js:500,547).
- Interpreter.Interpret: the reference semantics `Evaluation` covers call-free expressions, where every `Apply` node sits inside a function literal's body. A call allocates a new environment object, and a function cannot allocate, so for an expression that makes a call the contract states only `Threaded` and the facts listed for literals, names and function literals.
- Interpreter.EvalBlock: a block that makes a call is stated only by `Threaded` and the empty-block answer, for the reason given for `Interpret`.
- Interpreter.EvalLet: a bound expression that makes a call is stated by the binding facts, not by `Evaluation`, for the reason given for `Interpret`.
- Interpreter.EvalBinary: operands that make a call are stated only by `Threaded`, for the reason given for `Interpret`.
- Interpreter.EvalNot: an operand that makes a call is stated only by `Threaded`, for the reason given for `Interpret`.
- Interpreter.EvalCast: an operand that makes a call is stated only by `Threaded`, for the reason given for `Interpret`.
- Interpreter.EvalApply: the target, the arguments and a full call's value are tied to the reference semantics only when the target, the arguments and the closure's body are call-free, for the reason given for `Interpret`.
- Interpreter.GatherCall: a target or arguments that make a call are stated only by `Threaded` and the count of values, for the reason given for `Interpret`.
- Interpreter.Call: the value of a full call is stated only when the closure's body is call-free.
- Interpreter.EvalArguments: arguments that make a call are stated only by `Threaded` and their count.
- Driver.Run: the evaluation is stated only for a call-free program. The check is stated for every program.
- No type-soundness theorem links the checker to the evaluator. The value-level lemmas (`ArithmeticPreservation`, `BooleanPreservation`, `EqualsPreservation`, `CastPreservation`, `LiteralTypeDescribesValue`) state the matching steps one by one.
- The lexer, the parser and the CST-to-AST transform are not part of this model, and the syntax tree is given. The model assumes the parser gives every node its own identity (`nid`).
- Logging (`warn`, `err`, `debug`), the driver's `inspect` output, `getHint`, `toString` of nodes and values, `Locatable.location` and `Store.at` are not modelled. They carry no behaviour.
- Type identity (`===` on type objects) is modelled as structural equality. This matters only for function types compared by `==` and cast rules.
- JavaScript numbers are modelled as exact integers. Products, powers and parsed numbers are assumed to stay below 2^53. Beyond that, the source rounds before wrapping.
- InterpreterClasses.AndValue: a non-bool right operand is a TypeError in the model. The source builds a `BoolValue` whose payload is the right operand's payload (or undefined).
- InterpreterClasses.OrValue: a non-bool right operand is a TypeError in the model, for the same reason as `AndValue`.
- InterpreterClasses.LooselyEqual: a bool compared with a string is always false. JavaScript's `==` converts both to numbers, so `"1" == true` holds there.
- InterpreterClasses.Concatenate: a closure's payload is appended as `null`, as in the newer classes. The older ones append `undefined`.
- EvaluationRules.BinaryValue: arithmetic other than `+` without a concrete integer hint makes `interpret` return undefined, and the caller's destructuring then throws. The model gives a TypeError at once, so a top-level program ending in such a node is an error here.
- Interpreter.Interpret: the source has no bound on the depth of calls. The model carries a `fuel` bound standing for the call stack, and a call made with none left fails with `StackExhausted`. This is the only error the source cannot produce, and it stands for a stack overflow.
- `valueMatchesType` for a function literal (src/TypeSystem.js:97-107): each parameter is an identifier node, so it matches only `any`; the model states that and nothing more.
- The checker's `Block` answers undefined for an empty block, and `Undefined` is a type in the model for that reason. An undefined hint counts as absent, as the source's truthiness tests do.
- The shared counter is a single object passed to every step, not a static field.

## Findings

| source | as written | input that shows it | evidently intended | confidence | as-written member | corrected member |
|---|---|---|---|---|---|---|
| src/InterpreterClasses.js:67-69 | `Value.equals` calls a static `compute` that no value class defines, so only numbers can be compared | `true == true`: the checker types it bool, the evaluator throws a TypeError | compare the payloads with `==`, as src/language/InterpreterClasses.js:79-81 does | not executed | InterpreterClasses.OlderEqualsRejectsBoolsAndStrings | InterpreterClasses.EqualsComparesPayloads |
| src/TypeSystem.js:286-293 | the `u16` and `u32` cases test for `Int16Value` and `Int32Value`, which an unsigned literal is not | a `Uint16Value` literal node (the parser itself makes only `Int32Value` literals) falls through to "Unable to determine type" | test for `Uint16Value` and `Uint32Value` and answer `u16` and `u32` | not executed | TypeRules.UnsignedLiteralsRefusedAsWritten | TypeRules.LiteralTypeDescribesValue |
| src/InterpreterClasses.js:145-152 | `StringValue.to` accepts only `string`, but the checker accepts a cast from string to any integer type (src/TypeSystem.js:473-484) | the string `"42"` cast to `i32`: typed `i32`, refused at run time | parse the text and wrap it, as src/language/InterpreterClasses.js:264-278 does | not executed | EvaluationRules.OlderStringCastRefusesAcceptedCast | InterpreterClasses.StringCastOfDecimalText |
