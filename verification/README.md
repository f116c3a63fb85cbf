# Verified model of the Twinkle stage-0 backend

Twinkle's stage-0 compiler lowers A-normal form to Wasm GC. This project models the parts of it with the most
branching and state, and proves them correct against specifications that do not mention the code:

- **Match compilation** (`Match`, `StepPatterns`, `MatchBindings`, `MatchChain`, `PatternSlots`, `MatchSlots`): patterns
  become stack code that tests and projects values in five layouts. The specification is pattern matching on values.
  `Typing` says what the type of a value is without the backend's bookkeeping; `TypedMatches`, `TypedSlots` and
  `ArmTypes` show what the backend knows about values of a type.
- **Typed and erased sums** (`Sums`, `SumLiterals`, `Coercions`, `Values`): Option and Result have a typed struct and an
  erased `$Variant`; literals, conversions and the `ref.test` dispatch must preserve the value.
- **Iterators** (`Iterators`, `IteratorNext`, `IteratorStream`): the typed `next` helper refines the universal one.
- **Closures** (`Closures`, `CalleeFrames`): capture layouts, closure creation and the two trampolines.
- **Emitted helper programs** (`Utf8Helpers`, `Slices`, `IntText`): loops over Wasm locals, written as Dafny loops with
  one variable per local, against the grammar of RFC 3629 (`Utf8`) and decimal notation.
- **Emission** (`Emission`, `Runs`, `Divergence`, `Skeletons`): the emitter of expressions with its scoped metadata and
  label stacks, against a semantics of A-normal form: the code does what the expression does.
- **Planning** (`TypeOrder`, `CaptureTypes`, `LocalSlots`, `Symbols`, `TypedSymbols`, `ClosureSymbols`): Kahn ordering,
  the capture-type fixpoint, slot allocation, and mangled symbols.
- **Module graph** (`DependencyGraph`) and **core-library generator** (`CoreLibrary`).

`Wasm` is a loop-free GC stack machine and `CodeCalculus` the rules for composing code on it. Code whose execution is
proved correct is a function from the emitter's inputs to instruction sequences. `Emission` and `LocalSlots` keep the
emitter's mutable context as a class and treat type inference as an arbitrary function, whose answers may even change
from one question to the next.

Check the project with `dafny verify dfyconfig.toml`.

## Properties that turned out false

Where the code breaks a promise, the model keeps the code, shows an input, and proves when the promise holds:

- The `ref.test` dispatch mistakes a typed Result for `$Variant` when the two struct definitions coincide
  (`Sums.DispatchErasesTypedIff`): the binary writer puts each non-recursive definition into a group of its own
  (src/wasm/binary.rs:394-447), so Wasm compares content.
- In a program with concrete closure signatures an UnfoldStep keeps its typed struct as a component of another value
  (src/codegen/emit.rs:4273-4287, 4342-4346). A variant sub-pattern there takes the erased path and traps on the cast to
  `$Variant`, as soon as the enclosing tag matches (`StepPatterns.DecidesUnlessStepMet`, `StepPatterns.StepFieldTraps`,
  `MatchChain.TakenIsFirstMatchIff`). If the struct of the step passes for `$Variant`, the sub-pattern never matches
  instead (`StepPatterns.ConditionDecidesIff`).
- For the same reason converting a typed Option or Result does not erase it throughout
  (`StepPatterns.ErasesThroughoutIff`).
- A Byte literal in a position whose type is not tracked traps (`MatchChain.ByteLiteralIff`; as part of any pattern,
  `StepPatterns.ConditionDecidesIff`). For a scrutinee of known type these are the positions below user enums, and no
  others (`TypedMatches.TypedConditionIff`).
- `String.slice` wraps offsets of 2^32 and more before clamping them, against its comment
  (`Slices.UsedIsClampedIff`, `Slices.SliceKeepsPromiseIff`).
- A variable as a whole arm on a typed Option or Result traps, because its slot is of the erased type
  (`MatchChain.TypedArmBindsIff`, `MatchChain.VariableArmTraps`).
- A variable whose slot is for typed steps cannot take an erased one, and the other way round
  (`PatternSlots.ComponentsFitIff`); a variable that already has a slot keeps its type, whatever the match at hand needs
  (`MatchSlots.SlotsServeMatches`).
- Symbol keys of types with several functions can collide (`Symbols.KeyHasOneReadingIff`,
  `TypedSymbols.SymHasOneReadingIff`), and then the table lookup can return another type
  (`TypedSymbols.LookupReliableIff`). So can the symbols of closure signatures (`ClosureSymbols.SameClosureSymIff`).
- The chunk loop of the core-library generator cuts a finished pair of backslashes in two
  (`CoreLibrary.LiteralsRoundTripIff`).

## Model

| member | source | states |
|---|---|---|
| `Coercions.BoxCodeBoxes` | src/codegen/emit.rs:3395-3409 | boxing a typed value on the stack leaves its `anyref` form, for every value type |
| `Coercions.UnboxCodeUnboxes` | src/codegen/emit.rs:3795-3832 | unboxing undoes boxing for every value type the unboxer supports |
| `Coercions.RefCoerces` | src/codegen/emit.rs:3843-3866 | coercing a reference keeps it if it is of the target type and traps if it is not |
| `Sums.TypedSumErases` | src/codegen/emit.rs:3025-3153 | converting a typed Option or Result local yields the erased variant of the value it represents, for both variants of both types, with the payload as it is |
| `StepPatterns.ErasesThroughoutIff` | src/codegen/emit.rs:3067-3086 | the result is erased throughout if and only if no component is a typed UnfoldStep |
| `Sums.DispatchKeepsErased` | src/codegen/emit.rs:2982-3012 | an already erased value passes through the `ref.test` dispatch unchanged |
| `Sums.DispatchErasesTypedIff` | src/codegen/emit.rs:2982-3012 | a typed value leaves the dispatch in erased form if and only if its struct is not, field for field, the definition of `$Variant`; Wasm struct types are structural, so the test cannot tell such a struct apart |
| `Sums.LookalikeIsVariant` | src/codegen/emit.rs:8840-8890 | the struct of a typed sum is a subtype of `$Variant` exactly for a Result with an i32 Ok slot and an `(ref null $Array)` Err slot |
| `Sums.LookalikeExample` | src/codegen/ctx.rs:2525-2578 | `Result<Bool, Cell<Int>>` without concrete closure signatures is such a type; no Option ever is |
| `Sums.LookalikeErrReadsAsOk` | src/codegen/emit.rs:2982-3012 | for such a type, `Err(cell)` comes out of the dispatch with the tag of `Ok` |
| `SumLiterals.SumLiteralBuilds` | src/codegen/emit.rs:4327-4384 | a typed Option or Result literal is the typed struct of the value, payload in the slot of its variant and a default of the right type in the other |
| `SumLiterals.ErasedLiteralBuilds` | src/codegen/emit.rs:4298-4309 | an erased literal is the erased form of the value, for any number of arguments |
| `SumLiterals.LiteralsAgree` | src/codegen/emit.rs:4289-4309 | built typed and converted, or built erased at once: the same value |
| `SumLiterals.StepLiteralBuilds` | src/codegen/emit.rs:4386-4420 | the literal of an UnfoldStep is the typed struct of the step |
| `Match.CombineAndsAnswers` | src/codegen/emit.rs:2484-2494 | the combined conditions yield 1 exactly when every one of them does, and trap exactly when one of them traps |
| `Match.FieldYields` | src/codegen/emit.rs:2187-2275 | once the tag is right, the projection code of every layout pushes the boxed component of the matched value |
| `Match.ConditionAnswers` | src/codegen/emit.rs:1711-2077 | for every well-typed pattern and value, nested to any depth, in the erased, tuple, typed Option/Result, UnfoldStep and iterator layouts: the condition yields the truth value of the match, or traps on a typed step or on a Byte read as an Int below matching tags |
| `StepPatterns.ConditionDecidesIff` | src/codegen/emit.rs:1711-2077 | it traps if and only if it meets such a step or Byte, and decides the match if and only if moreover it does not overlook a step that passes for `$Variant` |
| `StepPatterns.DecidesUnlessStepMet` | src/codegen/emit.rs:1711-2077 | where no step passes for `$Variant`: it decides the match if and only if no variant sub-pattern meets a typed step and no literal reads a Byte as an Int; otherwise it traps |
| `StepPatterns.StepFieldTraps` | src/codegen/emit.rs:1910-1989 | every variant sub-pattern at a field of type UnfoldStep of a typed Option or Result traps when the enclosing tag matches, for all types of value and seed |
| `StepPatterns.StepFieldExample` | src/codegen/emit.rs:4330-4349 | such a value exists: `Some(Yield(a, b))` of type `Option<UnfoldStep<Int, Int>>` |
| `Match.MatchesErased` | src/codegen/emit.rs:4267-4287 | whether a step has been built in typed or erased form makes no difference to what a pattern means |
| `Match.ConditionCorrect` | src/codegen/emit.rs:1711-2077 | if the pattern meets no typed step and reads no Byte as an Int, the condition never traps and yields 1 if and only if the pattern matches |
| `Typing.TypedFits` | src/codegen/emit.rs:1711-2077 | for a value of a concrete type, a pattern of its type is all the condition emitter relies on, whatever layout the flow metadata tells |
| `Typing.ReadsByteIff` | src/codegen/emit.rs:1722-1733 | to any depth, the backend knows the type of a Byte below tuples and the built-in sums and does not below user enums: a literal reads a Byte as an Int exactly there |
| `Typing.NoEnumsTracked` | src/codegen/emit.rs:2466-2478 | so it never does in a pattern of tuples and built-in sums alone |
| `TypedMatches.TypedConditionIff` | src/codegen/emit.rs:1711-2077 | on every value of a concrete type the condition traps if and only if the pattern meets a typed step that does not pass for `$Variant`, or a literal stands at a Byte below a user enum; otherwise it decides the match, unless it overlooks a step that does pass |
| `TypedMatches.TrackedConditionDecides` | src/codegen/emit.rs:1711-2077 | a pattern of tuples and built-in sums alone decides the match on every value of a concrete type without steps |
| `TypedMatches.TupleByteDecides` | src/codegen/emit.rs:2004-2016 | for instance a Byte literal in a pair of an Int and a Byte |
| `MatchBindings.BindFieldAgrees` | src/codegen/emit.rs:2079-2185 | the binding emitter, which picks a layout and passes on types by other tests than the condition emitter, projects the same code on well-typed values |
| `MatchBindings.BindingsCorrect` | src/codegen/emit.rs:2079-2185 | the binding code of a pattern whose condition yields 1 stores exactly the components of its variables, in order, and leaves the stack as it was |
| `MatchBindings.StoreHolds` | src/codegen/emit.rs:2079-2102 | with linear variables and distinct slots, the local of every pattern variable ends up holding the component of that variable |
| `MatchBindings.StoreFrame` | src/codegen/emit.rs:2079-2102 | no local other than those of the pattern variables changes |
| `MatchChain.TakenIsFirstMatchIff` | src/codegen/emit.rs:1568-1653 | the arm whose condition is the first not to yield 0 is the first matching arm if and only if no earlier arm gets stuck and that arm meets no typed step and reads no Byte as an Int |
| `MatchChain.ChainRuns` | src/codegen/emit.rs:1568-1653 | for all well-typed arms the chain runs the body of the arm its conditions take, with the variables bound, and traps if they take none |
| `MatchChain.ChainCorrect` | src/codegen/emit.rs:1568-1653 | under that condition the chain runs the body of the first matching arm with its variables bound, and traps if no arm matches; the closing `unreachable` is never executed |
| `MatchChain.ChainStumbles` | src/codegen/emit.rs:1568-1653 | without it the chain traps, unless a step passes for `$Variant` |
| `MatchChain.FallbackTraps` | src/codegen/emit.rs:2496-2509 | the fallback traps from every state |
| `MatchChain.ChainSelects` | src/codegen/emit.rs:1568-1653 | whatever the slots are, the chain executes the bindings and the body of the arm its conditions take and nothing of any other, or traps |
| `MatchChain.TypedMatchAgreesWithErased` | src/codegen/emit.rs:1910-1989 | matching the typed struct of an Option or Result has the same outcome as matching its erased form, traps included, for all arms, unless the arm taken is a variable |
| `MatchChain.VariableArmOutcome` | src/codegen/emit.rs:1530-1566 | if the arm taken is a variable, a match on the typed struct runs the body with the struct in the local or traps, depending on the type of the local |
| `MatchChain.TypedArmBindsIff` | src/codegen/emit.rs:2079-2102 | the bindings of an arm that is taken complete on the typed struct if and only if the pattern is no variable or its slot can hold the struct |
| `MatchChain.VariableSlotIsTooNarrow` | src/codegen/ctx.rs:2916-2952 | the slot type chosen for such a variable cannot hold the typed struct, except when the struct passes for `$Variant` |
| `MatchChain.VariableArmTraps` | src/codegen/emit.rs:1530-1566 | so on that slot the whole match traps, for every typed Option and every Result whose struct does not pass for `$Variant` |
| `MatchChain.ByteLiteralIff` | src/codegen/emit.rs:1722-1733 | a Byte literal decides the match if and only if the Byte type is tracked at its position; everywhere else it traps |
| `MatchChain.UserEnumByteLiteralTraps` | src/codegen/emit.rs:1722-1733 | the failing family: a Byte literal in a field of a user enum always traps when its tag matches |
| `TypedMatches.TypedMatchRuns` | src/codegen/emit.rs:1530-1653 | a whole match on the slots of the allocator, first to bind its variables, on a value of a concrete type without steps: it runs the first matching arm with its variables stored and traps if there is none, provided no literal up to that arm stands at a Byte below a user enum; otherwise it traps |
| `Iterators.UnboxStepYields` | src/codegen/emit.rs:3589-3641 | unboxing an erased UnfoldStep gives the typed struct the compiler builds, defaults included |
| `Iterators.BoxStepYields` | src/codegen/emit.rs:3533-3574 | boxing a typed UnfoldStep gives its erased form |
| `IteratorNext.BoxStateYields` | src/codegen/emit.rs:3474-3495 | boxing a typed iterator state gives the universal state |
| `IteratorNext.UnboxStateYields` | src/codegen/emit.rs:3497-3521 | unboxing the universal state gives the typed state back |
| `IteratorNext.BoxOptionYields` | src/codegen/emit.rs:3643-3702 | boxing a typed iterator option gives the erased option, item record and state |
| `IteratorNext.UnboxOptionYields` | src/codegen/emit.rs:3704-3793 | unboxing the erased option gives the typed one back |
| `IteratorNext.UniversalNextReturns` | src/codegen/emit.rs:6198-6337 | the universal `next` helper returns the erased option of one step, and never traps |
| `IteratorNext.TypedNextReturns` | src/codegen/emit.rs:6339-6493 | the typed `next` helper returns the typed option of one step, and never traps |
| `IteratorStream.NextRefines` | src/codegen/emit.rs:6198-6493 | the boxed result of typed `next` is the result of universal `next` on the boxed state, and the other way round |
| `IteratorStream.TypedItemsAreUnfold` | src/codegen/emit.rs:6339-6493 | the first n items of the typed iterator are those of the unfold, for every step function, seed and n |
| `IteratorStream.UniversalItemsAreUnfold` | src/codegen/emit.rs:6198-6337 | the same for the universal iterator, boxed |
| `IteratorStream.TypedIterationRefinesUniversal` | src/codegen/emit.rs:6198-6493 | for every n the universal iterator delivers the boxed items of the typed one |
| `Sorting.SortDedup` | src/codegen/emit.rs:4794-4812 | the sorted list without duplicates is ascending and has the same elements |
| `Sorting.AscendingUnique` | src/codegen/emit.rs:633-639 | a set has only one ascending list, so order and repetition of free variables cannot show in a layout |
| `Closures.SiteMatchesLayoutIff` | src/codegen/emit.rs:627-666 | the environment of a creation site has the layout of the callee if and only if the site captures all variables any site captures for it |
| `Closures.LayoutsAgreeIff` | src/codegen/emit.rs:627-666 | all environments of a function have its layout if and only if all sites capture the same set |
| `Closures.MakeTypedYields` | src/codegen/emit.rs:4794-4853 | closure creation yields both entry points and the captured values in ascending order of their locals |
| `Closures.MakeUniversalYields` | src/codegen/emit.rs:4794-4853 | the same for a closure without a typed entry |
| `Closures.UniversalTrampolineCalls` | src/codegen/emit.rs:4855-4924 | the universal trampoline calls the function with the unboxed arguments followed by the captured values, and boxes the result |
| `Closures.VoidTrampolineCalls` | src/codegen/emit.rs:4855-4924 | for a function without a result it returns `Void` |
| `Closures.StepTrampolineCalls` | src/codegen/emit.rs:4855-4924 | a typed UnfoldStep result is boxed on the way out |
| `Closures.TypedTrampolineCalls` | src/codegen/emit.rs:9041-9104 | the typed trampoline calls it with the same arguments, unboxed |
| `Closures.TrampolineShows` | src/codegen/emit.rs:4855-4924 | for every kind of result at once: the universal trampoline returns the `anyref` form of what the function returns |
| `Closures.TypedTrampolinePasses` | src/codegen/emit.rs:9041-9104 | the typed trampoline ends as the function does: with its value, with nothing, or with its trap |
| `Closures.CaptureRoundTrip` | src/codegen/emit.rs:4794-4924 | through either trampoline the callee receives for each captured local the value it had at creation, whatever the order or repetition of the free variables and whatever the function returns |
| `CalleeFrames.SlotsOfCall` | src/codegen/ctx.rs:522-549 | a call puts arguments and captured values into the slots of parameters and captured variables |
| `CalleeFrames.CaptureReachesCallee` | src/codegen/emit.rs:4794-4924 | from creation to use, whatever the function returns: in the frame of the callee the slot of every captured local holds the value it had when the closure was made |
| `Closures.ShortEnvironment` | src/codegen/emit.rs:627-641 | a site that captures too little builds an environment shorter than the callee reads |
| `Closures.ClosureIsStep` | src/codegen/emit.rs:9041-9104 | a typed closure over a step function meets what the iterator helpers assume of it: both entry points agree |
| `Utf8.WellFormedIffSplits` | src/codegen/emit.rs:7354-7631 | a byte string is a concatenation of characters of the grammar in section 4 of RFC 3629 exactly when it can be split from the front |
| `Utf8.UniqueSplit` | src/codegen/emit.rs:7561-7613 | it can be divided into characters in one way only |
| `Utf8.EncodeRoundTrip` | src/codegen/emit.rs:7093-7283 | every scalar value has an encoding that is a character and decodes to it |
| `Utf8.DecodeRoundTrip` | src/codegen/emit.rs:7093-7283 | every character is the encoding of the number it decodes to |
| `Utf8.WellFormedIffScalars` | src/codegen/emit.rs:7093-7283 | a byte string is well formed if and only if it encodes a sequence of scalar values, and that sequence is unique |
| `Utf8.SliceWellFormed` | src/codegen/emit.rs:6538-6660 | between two boundaries of a well-formed string lies a well-formed string |
| `Utf8Helpers.ValidateMultibyte` | src/codegen/emit.rs:7636-7820 | the code for three- and four-byte leads accepts exactly when a character starts at the index, without reading past the end |
| `Utf8Helpers.ValidateUtf8` | src/codegen/emit.rs:7354-7560 | the validation loop terminates, stays in bounds and accepts exactly the well-formed byte strings: no overlong forms, no surrogates, nothing above U+10FFFF |
| `Utf8Helpers.Utf8Bytes` | src/codegen/emit.rs:7288-7349 | a fresh array with the bytes of the string |
| `Utf8Helpers.FromUtf8` | src/codegen/emit.rs:7354-7631 | a copy of the bytes if and only if they are well formed |
| `Utf8Helpers.FromUtf8OfBytes` | src/codegen/emit.rs:7288-7631 | `from_utf8(utf8_bytes(s))` is `Some(s)` for well-formed `s` and `None` for every other |
| `Utf8Helpers.FromCodePointEncodes` | src/codegen/emit.rs:6763-6806 | `from_code_point` returns a string for exactly the Unicode scalar values among all integers, and its bytes are the well-formed encoding that decodes to the argument |
| `Utf8Helpers.HelperEncodes` | src/codegen/emit.rs:7093-7283 | the shifts and masks of the helper compute the encoding |
| `Slices.Substring` | src/runtime/str.rs:99-175 | a fresh copy between the clamped offsets, the end never before the start |
| `Slices.StringEq` | src/runtime/str.rs:177-242 | the comparison loop decides equality of contents |
| `Slices.Slice` | src/codegen/emit.rs:6538-6660 | traps exactly when an offset it uses lands on a continuation byte, otherwise yields the bytes between the two; of a well-formed string the result is well formed |
| `Slices.SliceOfText` | src/codegen/emit.rs:6538-6660 | of a well-formed string the slice is refused if and only if one of the offsets splits a character, and is well formed otherwise |
| `Slices.UsedIsClampedIff` | src/codegen/emit.rs:6565-6585 | the offset used is the promised clamped one if and only if it is below 2^32 or its low 32 bits are not below the length |
| `Slices.SliceKeepsPromiseIff` | src/codegen/emit.rs:6538-6660 | the whole slice is the promised one if and only if no offset wraps or none of the wrapping shows |
| `Slices.NarrowSliceKeepsPromise` | src/codegen/emit.rs:6538-6660 | for offsets below 2^32 it is |
| `Slices.WideOffsetWraps` | src/codegen/emit.rs:6565-6585 | a slice of a one-byte string from 0 to 2^32 is empty where the promise is the whole string |
| `IntText.ParseInt` | src/codegen/emit.rs:6892-7087 | `Some` exactly for an optional sign and one or more digits, with the denoted integer modulo 2^64 |
| `IntText.FillDigits` | src/runtime/str.rs:441-474 | the digit loop leaves the decimal digits right-aligned in the buffer and room for a sign |
| `IntText.FromI64` | src/runtime/str.rs:364-517 | the decimal text of every 64-bit integer |
| `IntText.MinimumText` | src/runtime/str.rs:393-424 | the literal written out for the least integer is its decimal text |
| `IntText.DecimalDenotes` | src/codegen/emit.rs:6892-7087 | the decimal text of an integer is a numeral that denotes it |
| `IntText.FormatThenParse` | src/codegen/emit.rs:6892-7087 | formatting and parsing gives every 64-bit integer back, the least one included |
| `TypeOrder.NameToIndex` | src/codegen/emit.rs:8929-8934 | each name maps to the last definition of that name |
| `TypeOrder.NamesAreMentioned` | src/codegen/emit.rs:8985-9032 | the names the pass collects from a definition are exactly those at its positions: supertype, every field, element, every parameter and result |
| `TypeOrder.CollectDeps` | src/codegen/emit.rs:8936-8946 | the dependency sets are exactly the other local definitions whose names stand at some position of a definition |
| `TypeOrder.BuildDependents` | src/codegen/emit.rs:8936-8946 | every node is listed once with each node that depends on it, and counts its dependencies |
| `TypeOrder.VisitDependents` | src/codegen/emit.rs:8956-8964 | after the visit every indegree is again the number of dependencies not yet ordered, and exactly the nodes with none left are queued or ordered |
| `TypeOrder.KahnOrder` | src/codegen/emit.rs:8948-8964 | the order has no duplicates and puts dependencies first; it is complete if and only if the graph has no cycle |
| `TypeOrder.OrderTypes` | src/codegen/emit.rs:8929-8985 | on the definitions themselves: the result has every definition once, and if one mentions at any position a name that stands for another, that one is at an earlier index; the panic is reached if and only if definitions mention one another in a circle |
| `Graphs.StuckIsCyclic` | src/codegen/emit.rs:8966-8979 | a non-empty set of nodes that all wait for one another contains a cycle |
| `Graphs.OrderedIsAcyclic` | src/codegen/emit.rs:8948-8985 | an order of all nodes with dependencies first rules cycles out |
| `CaptureTypes.Collector.CollectExpr` | src/codegen/emit.rs:725-780 | the traversal adds the creation sites of the expression in source order |
| `CaptureTypes.Collector.CollectSite` | src/codegen/emit.rs:745-757 | a site makes the entry of its function and types exactly the captured variables that are known and have no type yet, by `local_mono` first and the operation results second |
| `CaptureTypes.RoundExtends` | src/codegen/emit.rs:697-723 | a round only adds entries, and afterwards every captured variable has a type if inference has one for it at its site or it is the result of an operation |
| `CaptureTypes.RoundsExtend` | src/codegen/emit.rs:697-723 | an assigned type never changes in any later round |
| `CaptureTypes.RoundsSource` | src/codegen/emit.rs:740-757 | every type in the table is what inference says at some creation site of some round, or the type of an operation result about which inference says nothing |
| `CaptureTypes.CollectCaptureTypes` | src/codegen/emit.rs:697-723 | for any inference the loop ends, after at most as many rounds as there are functions and (function, captured variable) pairs, in a table that one more round would not change; under it every captured variable that inference or the operation results know has a type, and every type in it comes from a creation site |
| `LocalSlots.Allocator.AssignPatternLocals` | src/codegen/ctx.rs:1290-1346 | the pattern locals of a match get slots of their joined types, in ascending order; those that have one keep it |
| `LocalSlots.Allocator.AssignLet` | src/codegen/ctx.rs:1083-1187 | a let-bound local gets a slot of the type that inference answers, unless it has one |
| `LocalSlots.Allocator.AssignExpr` | src/codegen/ctx.rs:1074-1187 | exactly the let- and pattern-bound locals of the expression are added, each in a slot of its own, and no earlier slot changes |
| `LocalSlots.Allocator.AssignOp` | src/codegen/ctx.rs:1278-1354 | the same for the expressions nested in an operation |
| `LocalSlots.SitesOfExpr` | src/codegen/ctx.rs:1074-1187 | the places that bind locals, in order: together they bind exactly the locals of the expression, and before each the earlier ones have slots |
| `LocalSlots.Allocator.MergeTypes` | src/codegen/ctx.rs:1294-1330 | the table holds for every variable the join of the types of all its occurrences |
| `PatternSlots.JoinedMeaning` | src/codegen/ctx.rs:1310-1328 | occurrences that agree keep their type, others get `anyref` |
| `LocalSlots.Allocator.CollectPatternLocals` | src/codegen/ctx.rs:2916-2987 | every variable of a pattern is collected in order, with the slot type that follows from the type matched against |
| `TypedSlots.BuiltinSlots` | src/codegen/ctx.rs:3054-3083 | `Some(x)` has the slot type of the payload, `Ok(x)` that of the first and `Err(x)` that of the second argument, and `Yield(x, y)` those of both |
| `TypedSlots.ItemSlots` | src/codegen/ctx.rs:2916-2952 | the item of an iterator-next Option has the slot of its own struct, and no other payload inherits the iterator state |
| `TypedSlots.TypedStepSlotIff` | src/codegen/ctx.rs:2525-2578 | slots hold typed steps if and only if the program has concrete closure signatures and value and seed have concrete types |
| `TypedSlots.TypedConforms` | src/codegen/ctx.rs:2916-2987 | every value of a type, in the form it has at run time, is what the slots of a match on that type are chosen for, components included |
| `LocalSlots.Allocator.SetupLocals` | src/codegen/ctx.rs:494-571 | parameters and captures have their slots in order, every local is mapped, no two share a slot, each non-parameter slot addresses its own type in the vector of locals, the scratch slot is nobody's, and every let and every match of the body that is the first to bind a local has it in a slot of the type chosen there |
| `PatternSlots.ComponentsFitIff` | src/codegen/ctx.rs:2916-2987 | every component that a matching pattern stores fits the slot type chosen for its variable if and only if no variable stands at a step in the other form, typed or erased, than its slot holds |
| `TypedMatches.TypedComponentsFitIff` | src/codegen/ctx.rs:2916-2987 | the same from the type of the value alone; without steps every component fits |
| `MatchSlots.SlotsServeMatches` | src/codegen/ctx.rs:494-571 | the variables of the arm that a match takes can be stored, each in its own slot of the frame, if and only if the slots of variables bound earlier, and of those whose own type does not fit, take their components; the scrutinee lives in none of them |
| `MatchSlots.FirstBindingServed` | src/codegen/ctx.rs:494-571 | a match that is the first to bind its variables meets that condition when no variable stands at a step in the other form |
| `TypedMatches.TypedMatchServed` | src/codegen/ctx.rs:494-571 | and always, on a value of the type the slots are chosen for, if it has no steps |
| `MatchSlots.AllocatedMatchRuns` | src/codegen/emit.rs:1530-1653 | on any frame of the function and under that condition alone, a match on a value in any layout, pushed by code that reads no slot of the match, runs the arm its conditions take with the variables in their slots, and traps if they take none |
| `MatchSlots.ScrutineeYields` | src/codegen/emit.rs:1530-1553 | reading a local that the match does not bind is such code |
| `LocalSlots.AllocatedMeaning` | src/codegen/ctx.rs:1183-1187 | slots in use are below the next index, injective, and in step with the vector of locals |
| `FlowContext.PutInfo` | src/codegen/ctx.rs:164-216 | writing back an entry keeps the map free of empty entries and touches one local only |
| `FlowContext.EndOfLog` | src/codegen/emit.rs:1221-1239 | when the restore stacks are empty the metadata is exactly the old one, given that no empty entry is stored |
| `FlowContext.PopRepr` | src/codegen/ctx.rs:1002-1004 | taking the last entry off a restore stack and writing it back keeps the way back to the old state |
| `Emission.BindingBinds` | src/codegen/emit.rs:1156-1198 | seen from its body, the local of a let has the inferred facts, a builder operation overrides the element type of its target, and nothing else changes |
| `Emission.LetBinds` | src/codegen/emit.rs:1156-1219 | the same for every operation: an assignment comes last, and a local that nothing writes to is as before |
| `Emission.AssignBinds` | src/codegen/emit.rs:1199-1219 | an assignment gives its target the facts of the assigned value and changes nothing else |
| `Emission.Emitter.PushLet` | src/codegen/emit.rs:1156-1219 | the metadata for the body is exactly that of the let, a builder mutation and an assignment, and undoing the five logged stacks leads back |
| `Emission.Emitter.Restore` | src/codegen/emit.rs:1221-1239 | the five restore loops bring back the state before the let, whatever was pushed in between |
| `Emission.Emitter.PushPattern` | src/codegen/emit.rs:1655-1700 | exactly the variables of the pattern are bound, in order, to the types that follow from the scrutinee type, and all are logged |
| `ArmTypes.ArmAssumes` | src/codegen/emit.rs:1655-1700 | for every value of the scrutinee type that the pattern matches, these are the types of the components as far as built-in sums tell, and nothing below tuples and user enums |
| `ArmTypes.ArmTypesRight` | src/codegen/emit.rs:1655-1700 | the components that the arm stores have the types its body is emitted under |
| `ArmTypes.ItemAssumed` | src/codegen/emit.rs:1674-1688 | the payload of an iterator-next Option counts as an iterator item |
| `Emission.PutAllBinds` | src/codegen/emit.rs:1655-1700 | in the arm every variable has the type of its last occurrence and every other local is as before |
| `Emission.Emitter.EmitExpr` | src/codegen/emit.rs:1114-1242 | for any answers of inference, emitting an expression leaves all flow metadata and both label stacks as they were; of the panics modelled it has exactly those on a `break` or `continue` outside of loops and on an unsupported operation; its branches resolve to the jumps of the source and its labels are the next fresh ones; run from any state, for any results of operations and tests, the code performs the operations of the expression in the same order on the same locals, ends the same way with the same value and locals, and at the end of a function with a result returns the value |
| `Emission.Emitter.EmitLet` | src/codegen/emit.rs:1148-1242 | the same for a let and its body |
| `Emission.Emitter.EmitLast` | src/codegen/emit.rs:1126-1146 | the same for an atom, `return`, `break` and `continue`, in each of the three modes |
| `Emission.Emitter.EmitLetOrCall` | src/codegen/emit.rs:1114-1125 | the same for a call in tail position, which stands for the call and the return of its result |
| `Emission.Emitter.EmitSimple` | src/codegen/emit.rs:1327-1390 | operations, initialisations and assignments store what they compute, an assignment into its target and Void into its own local |
| `Emission.Emitter.EmitArms` | src/codegen/emit.rs:1568-1653 | the same for a chain of match arms |
| `Emission.Emitter.EmitArm` | src/codegen/emit.rs:1592-1625 | the same for an arm: its bindings, then its body, with the pattern bindings undone before the next one |
| `Emission.Emitter.Padded` | src/codegen/emit.rs:1626-1641 | the `unreachable` behind an else branch is emitted only where no run of the code gets to it |
| `Emission.Emitter.EmitNested` | src/codegen/emit.rs:1405-1450 | the value of an `if`, match or loop is stored in the local; the store is left out only for code that no run falls through |
| `Emission.Emitter.EmitLoop` | src/codegen/emit.rs:2511-2546 | the same for a loop: fresh labels, both stacks one deeper for the body only; no run gets from the loop to the `unreachable` behind it |
| `Emission.EmitFunction` | src/codegen/emit.rs:602-625 | the code of a function does what its body does: the same operations in the same order, and the same result; every `break` and `continue` reaches the innermost loop of the source, no label is defined twice, and control never falls off the end of a function with a result |
| `Skeletons.EmittedJumps` | src/codegen/emit.rs:2607-2638 | a branch to the labels on top of the stack skips 1 level for `break` and 0 for `continue` |
| `Skeletons.EmittedLoop` | src/codegen/emit.rs:2511-2546 | a block around a loop whose body ends in a branch to its own start |
| `Runs.LetCode` | src/codegen/emit.rs:1148-1242 | code for an operation that stores its value, then code for the body: code for the let |
| `Runs.IfCode` | src/codegen/emit.rs:1405-1435 | both branches of a conditional, and the one that the condition selects |
| `Runs.ChainCode` | src/codegen/emit.rs:1568-1653 | a test, the arm behind it and the other arms: the first arm whose pattern matches |
| `Runs.LoopCode` | src/codegen/emit.rs:2511-2546 | a block around a loop iterates at the end of the body and at `continue`, and is left by `break` with its value, for any number of iterations |
| `Runs.TailCallCode` | src/codegen/emit.rs:2640-2715 | a tail call ends the function with what the call and the return of its result would |
| `Divergence.ImplementsNeverFalls` | src/ir/anf/analysis.rs:87-105 | what the divergence analysis says: no run of such code reaches its end |
| `Divergence.NeverYields` | src/ir/anf/analysis.rs:87-105 | an expression that is said to diverge has no run that comes to a value |
| `Divergence.LoopNeverFalls` | src/codegen/emit.rs:2511-2546 | no run of such a loop, with any number of iterations, falls out of its end |
| `Skeletons.FreshAreDistinct` | src/codegen/ctx.rs:757-761 | no label is handed out twice |
| `Skeletons.LabelTextInjective` | src/codegen/ctx.rs:757-761 | different labels have different names |
| `Symbols.SplitJoin` | src/codegen/ctx.rs:2748-2752 | joining words with underscores is undone by splitting at them |
| `Readings.TokensDetermine` | src/codegen/ctx.rs:2732-2767 | heads and numbers of children in preorder determine a concrete type, and every type can be read back from them |
| `Readings.ConcreteIffNoVariable` | src/codegen/ctx.rs:2664-2682 | a type counts as concrete if and only if no type variable stands at any of its nodes |
| `Ambiguity.ReadingUnique` | src/codegen/ctx.rs:2758-2765 | heads whose numbers of parameters are pinned down have one reading |
| `Ambiguity.OtherReading` | src/codegen/ctx.rs:2758-2765 | all other heads have a second reading, by moving one parameter to or from the first function |
| `Ambiguity.OneReadingIff` | src/codegen/ctx.rs:2732-2767 | on types: no other concrete type has the same heads if and only if the counting condition holds |
| `Symbols.KeyHasOneReadingIff` | src/codegen/ctx.rs:2732-2767 | for every concrete type with a fixed number of arguments per type id, functions nested at will: no other type has its key if and only if the counting condition holds |
| `Symbols.DecodeKeyInverts` | src/codegen/ctx.rs:2732-2767 | a decoder finds a type with the given key for every such type, and the type itself when there is no other |
| `Symbols.FlatFunctionKeysDiffer` | src/codegen/ctx.rs:2758-2765 | a type with at most one function that has parameters shares its key with no other type |
| `Symbols.FunctionKeysCollide` | src/codegen/ctx.rs:2758-2765 | nested function types read two ways: a whole family of pairs of different types with one key |
| `Symbols.RecordSymInjective` | src/codegen/ctx.rs:2657-2659 | record types with different ids have different structs |
| `Symbols.DictKeysCollide` | src/codegen/ctx.rs:2746-2765 | two functions side by side in a Dict collide as well |
| `TypedSymbols.SameSymIff` | src/codegen/ctx.rs:2769-2852 | two cell, Option, Result, UnfoldStep or iterator shapes have one symbol if and only if they agree in kind and in the heads of their types |
| `TypedSymbols.SymHasOneReadingIff` | src/codegen/ctx.rs:2769-2852 | no other shape of any kind has the symbol if and only if each type in the shape has a key with one reading |
| `TypedSymbols.DecodeSymInverts` | src/codegen/ctx.rs:2769-2852 | a decoder inverts the symbols of those shapes |
| `TypedSymbols.TypeTable.Request` | src/codegen/ctx.rs:360-444 | the table is the one determined by the row of requests so far |
| `TypedSymbols.EntriesAreRequests` | src/codegen/ctx.rs:360-444 | every entry is a request, filed under its own symbol, and exactly the requested symbols have entries |
| `TypedSymbols.EntriesKept` | src/codegen/ctx.rs:360-444 | later requests replace nothing |
| `TypedSymbols.LookupReturnsRequested` | src/codegen/emit.rs:3432-3472 | a lookup by such a symbol returns the shape if it was requested and nothing otherwise, whatever else was requested |
| `TypedSymbols.LookupConfuses` | src/codegen/emit.rs:3432-3472 | for every other shape there is a different one whose earlier request the lookup returns instead |
| `TypedSymbols.LookupReliableIff` | src/codegen/emit.rs:3432-3472 | the lookup after a request returns the shape in every history of requests if and only if each type in it has a key with one reading |
| `ClosureSymbols.SameClosureSymIff` | src/codegen/ctx.rs:2854-2900 | two signatures share the symbols of closure struct and function type if and only if both or neither have parameters and the heads of parameters and result agree in one row, scalars counting by their tag |
| `ClosureSymbols.FlatClosureSymIff` | src/codegen/ctx.rs:2854-2900 | without functions that have parameters among the types: if and only if they differ at most in Bool for Byte and Void for Never |
| `ClosureSymbols.ClosureSymsCollide` | src/codegen/ctx.rs:2854-2900 | a function parameter can take over the next parameter: a family of pairs of signatures with different numbers of parameters and the same symbols |
| `DependencyGraph.Graph.SetDependencies` | src/query/graph.rs:13-39 | the module has the given set, every other one keeps its own; the reverse index stays the exact converse and no empty set is stored |
| `DependencyGraph.Graph.RemoveDependent` | src/query/graph.rs:18-25 | the module is taken out of exactly the given sets, and sets that become empty are dropped |
| `DependencyGraph.Graph.AddDependent` | src/query/graph.rs:27-32 | the module is put into exactly the given sets |
| `DependencyGraph.Replay` | src/query/graph.rs:13-39 | after any sequence of calls forward holds the last set given for each module and reverse is its converse |
| `DependencyGraph.IndexesDetermined` | src/query/graph.rs:13-39 | both indexes are functions of the sets last given |
| `DependencyGraph.Graph.ReverseDependentsClosure` | src/query/graph.rs:41-58 | the worklist ends with exactly the changed module and all modules with a dependency path to it |
| `CoreLibrary.Escape` | tools/generate_core_lib.py:78-92 | the loop produces the piece of every character in order |
| `CoreLibrary.EscapedIsLiteral` | tree-sitter-twinkle/grammar.js:657-683 | between quotes the escaped text is one whole literal whose value is the text, whatever follows in the file |
| `CoreLibrary.NumericEscapes` | src/syntax/lexer.rs:719-790 | in the lexer every character has a `\u{...}` escape that reads as it, and every ASCII character a `\x` escape |
| `CoreLibrary.LetterEscapes` | src/syntax/lexer.rs:702-709 | the seven escapes of a single letter read as their characters |
| `CoreLibrary.OpenEscapeIsNoLiteral` | src/syntax/lexer.rs:430-469 | a body that ends in an open escape is no literal of any value |
| `CoreLibrary.Literals` | tools/generate_core_lib.py:119-134 | the chunk loop always progresses and its chunks concatenate to the escaped text |
| `CoreLibrary.ChunksJoin` | tools/generate_core_lib.py:124-133 | no chunk is empty or longer than the limit |
| `CoreLibrary.LiteralsRoundTripIff` | tools/generate_core_lib.py:119-134 | the literals of a file are complete and read back as the file if and only if no cut falls behind an even, positive number of backslashes |
| `CoreLibrary.NoBackslashNoBadCut` | tools/generate_core_lib.py:126-131 | for a source without backslashes every cut is good |
| `CoreLibrary.BackslashesBreak` | tools/generate_core_lib.py:126-131 | for every source that starts with more than 2000 backslashes the first cut is bad |

## Left out

- The linker, the optimizer, the WAT and Wasm writers, and the runtime modules apart from the string functions above.
- Task, channel, extern and host-call emission; `ExternRef` values are opaque references.
- Float arithmetic, formatting and parsing.
- Record, array, vector and dictionary operations, and user calls: their code is straight-line and would add easy
  members.
- Iterator step functions and user functions called by emitted code are pure functions of their arguments; effects, and
  sharing of mutable cells, are not modelled. References are values without identity.
- Nested struct types are told apart by symbol: two definitions that differ only in the names of equal field types count
  as different.
- Type ids, lengths and loop counters of the emitted helpers are unbounded integers; an array of nearly 2^32 elements is
  not considered. Functions that read a length as a signed word require it below 2^31.
- The emitted bodies of match arms are a parameter of `MatchChain`, where an arm that claims to diverge is taken at its
  word. `Emission` proves such claims for the code it emits.
- The step function of an iterator returns the erased step.
- Which type inference answers; every pass that asks takes the answers as given.
- Missing slots: emission panics on a local without a slot. `Emission` assumes one for every local, which
  `LocalSlots.Allocator.SetupLocals` provides for the function's own.
- `Runs` leaves open what operations, patterns and constants mean; that the coercions around an atom keep its value is
  the subject of `Coercions`, `Sums` and `Match`. Reading a local of type Never, which no run assigns, is emitted as
  `unreachable` (src/codegen/emit.rs:2871-2879) and modelled as any other read; a dropped Void is modelled as a push and
  a drop. Writes to module globals are not modelled.
- Emission.Emitter.EmitExpr: the other panics of the emitter are not modelled: a function without an ABI
  (src/codegen/emit.rs:615), unsupported literals and coercions (src/codegen/emit.rs:3247-3296, 3386-3390, 3867), and an
  UnfoldStep literal without concrete types (src/codegen/emit.rs:4283-4287).
- Utf8Helpers.FromCodePointEncodes: the helper is straight-line code and is modelled as a function on numbers; the
  variant struct around its result is not.
- Closures.CaptureRoundTrip: assumes that the code of a captured atom pushes the value of its local as `anyref`.
- MatchBindings.BindingsCorrect: speaks of patterns that meet no typed step, since the bindings run only after the
  condition has yielded 1.
- Type aliases in patterns are taken as resolved, and the field types of user sums are given by a function of type and
  variant.
- LocalSlots.Allocator.SetupLocals: requires distinct parameters and captures, as the source does without checking.
- CoreLibrary.Literals: covers the literals of one file, not the surrounding generated module.
