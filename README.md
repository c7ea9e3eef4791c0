# A Dafny model of selected parts of the Kotlin compiler, IDE plug-in and tools

This project models 33 source files of the Kotlin repository and proves properties about them.
The files fall into six groups. Each Kotlin file becomes one Dafny module, built on four shared
modules: `Wrappers` (Option and Result), `Ints` (32-bit, 64-bit and `Char` wrap-around),
`Text` (Kotlin's string functions on `seq<char>`) and `StringOrder` (`String.compareTo` and
`sorted()`).

- **JVM code generation.**
  - `JvmStack` gives the operand stack as a sequence of 32-bit slots, with each emitted
    instruction's effect as section 6.5 of the Java Virtual Machine Specification states it.
  - `StackValue` covers the stack discipline of `StackValue1.kt`: moving a buried value to the
    top, `dup` under a write receiver, post- and pre-increment, the complex-receiver protocol,
    and the local-variable checks.
  - `TypeSignatureMapping` covers internal class names and the descriptor type writer.
  - `SwitchGenerator` covers `when`-to-`tableswitch`/`lookupswitch` lowering.
  - `UntilHandler` covers the not-empty guard of `until` loops and the lowered loop.
- **Wasm back end and runtime.**
  - `WasmLayout` covers the little-endian layout elements of `ClassInfo.kt`.
  - `WasmModule` covers `collectTypeInfo`: ids, v-tables and type-info structs.
  - `WasmRuntime` covers the run-time readers of `typeInfo.kt` over the memory image that
    `collectTypeInfo` writes.
- **Descriptors and IR.**
  - `IntegerLiteralType` covers the possible types of integer literals and how they fold.
  - `ConstantValues` covers constant values, their equality and their renderings.
  - `FunctionClass` covers the `FunctionN`/`KFunctionN` class descriptors.
  - `IrModuleDeserializer` covers the built-ins deserializer's symbol lookup.
  - `TargetPlatform` covers platforms and their descriptions.
- **FIR.**
  - names, fq-names and callable ids;
  - standard class ids;
  - the scope processor protocol;
  - Java nullability annotations;
  - the JVM mapped scope's signature filtering.
- **Kotlin/Native library manifest.** `KonanLibrary` covers `isInterop` and
  `exportForwardDeclarations`.
- **Decompiler, IDE, debugger, REPL and Gradle.**
  - the decompiler's text helpers, the "magic box" import store and its per-node infos;
  - the call nodes and custom expression nodes;
  - the IDE's per-file analysis cache;
  - the debugger's evaluation status;
  - the JS REPL's message collector and its line reader;
  - the Gradle plugin's npm project name.

**Form of the model.**
- Pure Kotlin code becomes datatypes and functions with named results.
- Code that updates fields becomes a class whose methods have `modifies` clauses. Examples are
  `MagicBoxImpl`, `PerFileAnalysisCache`, `EvaluationStatus`, `ReplMessageCollector`,
  `KotlinJsCompilation`, `JvmDescriptorTypeWriter`, `FirFqName`'s cached hash and the decompiler's
  named-call node.
- Loops in the source become `while` or `for` loops proved against specification functions.
- A thrown exception becomes an `Err` result, and a nullable result becomes an `Option`.
- Objects the code only reads become plain values: IR, PSI and FIR nodes, types, and the
  annotations it inspects.

**Where the code and its documentation disagree, the model follows the code:**
- `TargetPlatform.presentableDescription` joins the components with "/" and not " / "
  (`TargetPlatform.PresentableDescriptionSeparators`). Its doc comment also gives
  'JVM (1.8) / JS / Native' as an example (`TargetPlatform.kt:42`). The code renders a JDK
  platform as "JVM" followed by its `JvmTarget` in parentheses, and a `JvmTarget` prints as its
  enum constant's name, such as `JVM_1_8` (`TargetPlatform.PlatformToString`).
- `FunctionClassDescriptor.Kind` has three kinds: `Function`, `SuspendFunction` and `KFunction`.
  There is no `KSuspendFunction` kind. `IrModuleDeserializer.kt` still tells four kinds apart
  by class name.
- `FirName.compareTo` compares only the text and ignores the special flag. So an identifier and
  a special name with the same text tie but are not equal (`FirName.CompareToIgnoresSpecialFlag`).
- `JvmMappedScope.prepareSignatures` uses a `substring` that throws for a listed signature equal
  to the class prefix (`JvmMappedScope.StripPrefix`).
- The `removeSuffix(".$defaultName")` in `TypeClassInfo` never applies to a class in its own
  package. The class's own name therefore stays in its import path
  (`MagicBoxInfo.TypeClassSuffixIsNeverRemoved`).
- `IntegerLiteralTypeConstructor` asserts that the unsigned types are on the classpath whenever
  unsigned candidates are wanted. The model makes that a precondition of
  `IntegerLiteralType.NewLiteralConstructor`.

## Model

| member | source | states |
|---|---|---|
| StackValue.Coerce | compiler/backend/src/org/jetbrains/kotlin/codegen/StackValue1.kt:1621-1680 | emits nothing exactly for equal types, `java/lang/Void` to `Unit`, a reference to `Object`, or an array to an array of the same dimensions with `Object` elements; otherwise at most two instructions; a value coerced to void is popped with `pop` or, for a two-slot value, `pop2`; a primitive coerced to `Unit` is popped and the Unit instance pushed; `Object` to `Unit` is one `checkcast` |
| StackValue.CoercePrimitiveToUnitEffect | compiler/backend/src/org/jetbrains/kotlin/codegen/StackValue1.kt:1634-1640 | a primitive value coerced to `Unit` leaves the Unit instance in its place on the stack, with the locals unchanged |
| StackValue.CoerceEffect | compiler/backend/src/org/jetbrains/kotlin/codegen/StackValue1.kt:1621-1633 | for equal types nothing changes, a value coerced to void is popped, and from void the Unit instance, `null` or the primitive zero is pushed (JVMS section 6.5 effects) |
| StackValue.MoveToTopOfStack | compiler/backend/src/org/jetbrains/kotlin/codegen/StackValue1.kt:244-275 | code exists exactly for depth 0, or depth 1 or 2 with a one- or two-slot value; every other size or depth throws |
| StackValue.SwapMoves | compiler/backend/src/org/jetbrains/kotlin/codegen/StackValue1.kt:249-250 | `swap` with one slot above a one-slot value puts the value on top and the other slot beneath it |
| StackValue.DupX2PopMoves | compiler/backend/src/org/jetbrains/kotlin/codegen/StackValue1.kt:251-253 | `dup_x2` then `pop` moves a two-slot value above the one slot pushed after it |
| StackValue.Dup2X1Pop2Moves | compiler/backend/src/org/jetbrains/kotlin/codegen/StackValue1.kt:261-263 | `dup2_x1` then `pop2` moves a one-slot value above the two slots pushed after it |
| StackValue.Dup2X2Pop2Moves | compiler/backend/src/org/jetbrains/kotlin/codegen/StackValue1.kt:264-266 | `dup2_x2` then `pop2` moves a two-slot value above the two slots pushed after it |
| StackValue.MoveToTopPutsValueOnTop | compiler/backend/src/org/jetbrains/kotlin/codegen/StackValue1.kt:53-60 | the documented promise: with 1 or 2 slots pushed after a one- or two-slot value, the emitted code leaves the value on top and the pushed slots beneath it in their order |
| StackValue.DupWithReceiver | compiler/backend/src/org/jetbrains/kotlin/codegen/StackValue1.kt:1011-1034 | without a write receiver it is the plain value dup; with one it fails exactly when the access is non-static and the receiver size is -1 |
| StackValue.DupLandsBeneathReceiver | compiler/backend/src/org/jetbrains/kotlin/codegen/StackValue1.kt:1011-1034 | with the receiver's 0, 1 or 2 slots under the value, the chosen dup form puts a copy of the value just beneath the receiver |
| StackValue.PostIncrementEffect | compiler/backend/src/org/jetbrains/kotlin/codegen/StackValue1.kt:942-951 | leaves the old local value on the stack (nothing for void) and the 32-bit wrapped sum in the local |
| StackValue.PostIncrement | compiler/backend/src/org/jetbrains/kotlin/codegen/StackValue1.kt:942-951 | the old value is loaded before the closing `iinc`, and for a void target the `iinc` is the whole code |
| StackValue.PreIncrementEffect | compiler/backend/src/org/jetbrains/kotlin/codegen/StackValue1.kt:953-963 | stores the 32-bit wrapped sum first and leaves that new value on the stack (nothing for void) |
| StackValue.PreIncrement | compiler/backend/src/org/jetbrains/kotlin/codegen/StackValue1.kt:953-963 | the `iinc` comes first and the new value is loaded right after it, and for a void target the `iinc` is the whole code |
| StackValue.ComplexReceiverPutSelector | compiler/backend/src/org/jetbrains/kotlin/codegen/StackValue1.kt:1064-1083 | the `wasPut` loop emits exactly the receiver protocol: one evaluation at the first non-static operation, a dup per further one, a void evaluation only when none needs it but it has side effects |
| StackValue.ReceiverProtocol | compiler/backend/src/org/jetbrains/kotlin/codegen/StackValue1.kt:1064-1083 | one step per non-static operation, the receiver evaluated in its type at the first and duplicated at every other; one void evaluation when none needs it and it has side effects; nothing otherwise |
| StackValue.ReceiverEvaluatedAtMostOnce | compiler/backend/src/org/jetbrains/kotlin/codegen/StackValue1.kt:1064-1083 | no two steps of the protocol evaluate the receiver |
| StackValue.NewLocal | compiler/backend/src/org/jetbrains/kotlin/codegen/StackValue1.kt:137-144 | a local is created exactly for a non-negative index, with that index and type |
| StackValue.NewLateinitLocal | compiler/backend/src/org/jetbrains/kotlin/codegen/StackValue1.kt:157-170 | created exactly when the index is non-negative and a name is present |
| StackValue.NewShared | compiler/backend/src/org/jetbrains/kotlin/codegen/StackValue1.kt:858-870 | fails exactly for a negative index, which the receiver `local(index, OBJECT_TYPE)` (lines 1200-1202, 139-143) refuses first, or for a lateinit shared local without a name; otherwise it keeps its inputs and that receiver local |
| StackValue.RefType | compiler/backend/src/org/jetbrains/kotlin/codegen/StackValue1.kt:2005-2010 | object and array types become `java/lang/Object`, all others are unchanged |
| StackValue.IntegerConstant | compiler/backend/src/org/jetbrains/kotlin/codegen/StackValue1.kt:1255-1265 | LONG boxes as Long, BYTE/SHORT/INT as Integer, CHAR as the low 16 bits in a Character, and any other type fails |
| TypeSignatureMapping.GetContainer | core/descriptors.jvm/src/org/jetbrains/kotlin/load/kotlin/typeSignatureMapping.kt:392-393 | the result is a class or a package fragment; a class or package is its own container; a class container found lies strictly outside the start |
| TypeSignatureMapping.ComputeInternalName | core/descriptors.jvm/src/org/jetbrains/kotlin/load/kotlin/typeSignatureMapping.kt:367-390 | in a package the name is `p/q/Name` (just `Name` in the root package); outside IR mode a container that is neither class nor package is an error |
| TypeSignatureMapping.NestedStep | core/descriptors.jvm/src/org/jetbrains/kotlin/load/kotlin/typeSignatureMapping.kt:385-390 | a nested class's internal name is its container's internal name, then `$`, then its own name |
| TypeSignatureMapping.InternalNameOfNestedClass | core/descriptors.jvm/src/org/jetbrains/kotlin/load/kotlin/typeSignatureMapping.kt:367-390 | without predefined names, a class nested in `C1 … Ck` of package `p.q` is named `p/q/C1$…$Ck$Name` |
| TypeSignatureMapping.IrModeSkipsLocalContainers | core/descriptors.jvm/src/org/jetbrains/kotlin/load/kotlin/typeSignatureMapping.kt:372-393 | in IR mode a non-class declaration between a class and its container does not change the name |
| TypeSignatureMapping.BoxTypeIfNeeded | core/descriptors.jvm/src/org/jetbrains/kotlin/load/kotlin/typeSignatureMapping.kt:84-85 | the boxed type exactly when boxing is needed, else the type itself |
| TypeSignatureMapping.HasVoidReturnType | core/descriptors.jvm/src/org/jetbrains/kotlin/load/kotlin/typeSignatureMapping.kt:265-269 | constructors are void; a getter never is; otherwise exactly a non-nullable Unit; an unknown return type throws |
| TypeSignatureMapping.FirstWriteWins | core/descriptors.jvm/src/org/jetbrains/kotlin/load/kotlin/typeSignatureMapping.kt:395-432 | from a fresh writer, array events before the first written type give one `[` each before it, and everything written afterwards (without a clear) is ignored |
| TypeSignatureMapping.ReplayArrays | core/descriptors.jvm/src/org/jetbrains/kotlin/load/kotlin/typeSignatureMapping.kt:405-409 | before any type is written, array events only raise the array level |
| TypeSignatureMapping.ReplayKeepsWritten | core/descriptors.jvm/src/org/jetbrains/kotlin/load/kotlin/typeSignatureMapping.kt:405-427 | once a type is written, no event except a clear changes the writer |
| TypeSignatureMapping.ClearResets | core/descriptors.jvm/src/org/jetbrains/kotlin/load/kotlin/typeSignatureMapping.kt:400-403 | a clear returns the writer to its initial state whatever came before |
| TypeSignatureMapping.JvmDescriptorTypeWriter.constructor | core/descriptors.jvm/src/org/jetbrains/kotlin/load/kotlin/typeSignatureMapping.kt:395-398 | a new writer has no type and array level 0 |
| TypeSignatureMapping.JvmDescriptorTypeWriter.ClearCurrentType | core/descriptors.jvm/src/org/jetbrains/kotlin/load/kotlin/typeSignatureMapping.kt:400-403 | forgets the type and resets the array level |
| TypeSignatureMapping.JvmDescriptorTypeWriter.WriteArrayType | core/descriptors.jvm/src/org/jetbrains/kotlin/load/kotlin/typeSignatureMapping.kt:405-409 | raises the array level only while no type is written |
| TypeSignatureMapping.JvmDescriptorTypeWriter.WriteArrayEnd | core/descriptors.jvm/src/org/jetbrains/kotlin/load/kotlin/typeSignatureMapping.kt:411-412 | changes nothing |
| TypeSignatureMapping.JvmDescriptorTypeWriter.WriteJvmTypeAsIs | core/descriptors.jvm/src/org/jetbrains/kotlin/load/kotlin/typeSignatureMapping.kt:418-427 | keeps an already written type; otherwise stores the type prefixed by one `[` per array level |
| TypeSignatureMapping.JvmDescriptorTypeWriter.WriteClass | core/descriptors.jvm/src/org/jetbrains/kotlin/load/kotlin/typeSignatureMapping.kt:414-416 | writes the class type as is |
| TypeSignatureMapping.JvmDescriptorTypeWriter.WriteTypeVariable | core/descriptors.jvm/src/org/jetbrains/kotlin/load/kotlin/typeSignatureMapping.kt:429-431 | writes the type variable's upper type as is |
| SwitchGenerator.Generator.constructor | compiler/ir/backend.jvm/src/org/jetbrains/kotlin/backend/jvm/codegen/SwitchGenerator.kt:20-26 | a new generator has no cases, no then expressions, no subject, no else, and the default label is the end label |
| SwitchGenerator.Generator.NewLabel | compiler/ir/backend.jvm/src/org/jetbrains/kotlin/backend/jvm/codegen/SwitchGenerator.kt:35-37 | hands out a label different from all earlier ones |
| SwitchGenerator.Generator.MatchConditions | compiler/ir/backend.jvm/src/org/jetbrains/kotlin/backend/jvm/codegen/SwitchGenerator.kt:70-128 | succeeds exactly when the condition is an acceptable tree of Int equality tests on one subject, and then appends one case per tested constant under the branch's label |
| SwitchGenerator.Generator.MatchLeaf | compiler/ir/backend.jvm/src/org/jetbrains/kotlin/backend/jvm/codegen/SwitchGenerator.kt:71-95 | an `EQEQ` call on the common Int subject and an Int constant is accepted and records exactly its one case |
| SwitchGenerator.Generator.MatchComma | compiler/ir/backend.jvm/src/org/jetbrains/kotlin/backend/jvm/codegen/SwitchGenerator.kt:96-125 | a `WHEN_COMMA` condition is accepted exactly when every branch has a `true` guard or result in the right place and every part is accepted; its cases are those of its parts in order |
| SwitchGenerator.LeafAccepts | compiler/ir/backend.jvm/src/org/jetbrains/kotlin/backend/jvm/codegen/SwitchGenerator.kt:71-95 | a call is accepted exactly when it is an Int-constant equality test on the current subject |
| SwitchGenerator.CommaGuardFails | compiler/ir/backend.jvm/src/org/jetbrains/kotlin/backend/jvm/codegen/SwitchGenerator.kt:111-118 | a comma branch whose `true` constant is missing rejects the whole condition |
| SwitchGenerator.CommaPartFails | compiler/ir/backend.jvm/src/org/jetbrains/kotlin/backend/jvm/codegen/SwitchGenerator.kt:114-120 | a part that is rejected rejects the whole comma condition |
| SwitchGenerator.Generator.Match | compiler/ir/backend.jvm/src/org/jetbrains/kotlin/backend/jvm/codegen/SwitchGenerator.kt:31-49 | succeeds exactly when the `when` is switchable; it then holds every branch's cases and then expressions in order, the subject, and the default label and else expression of the last else branch |
| SwitchGenerator.TopPartFails | compiler/ir/backend.jvm/src/org/jetbrains/kotlin/backend/jvm/codegen/SwitchGenerator.kt:39-40 | one rejected branch condition makes the whole `when` not switchable |
| SwitchGenerator.DefaultIsEndIffNoElse | compiler/ir/backend.jvm/src/org/jetbrains/kotlin/backend/jvm/codegen/SwitchGenerator.kt:22-35 | the default label stays the end label exactly when there is no else branch, and otherwise belongs to the last else branch |
| SwitchGenerator.CasesTargetThenBranches | compiler/ir/backend.jvm/src/org/jetbrains/kotlin/backend/jvm/codegen/SwitchGenerator.kt:37-93 | every case jumps to the then label of a non-else branch whose condition tests that constant, never to the default label |
| SwitchGenerator.ThenExprsLabels | compiler/ir/backend.jvm/src/org/jetbrains/kotlin/backend/jvm/codegen/SwitchGenerator.kt:37-38 | each non-else branch gives one then expression with its own result and label, in branch order |
| SwitchGenerator.SortCases | compiler/ir/backend.jvm/src/org/jetbrains/kotlin/backend/jvm/codegen/SwitchGenerator.kt:136 | a stable sort: a permutation in ascending order of constant that keeps the cases of every constant in their recorded order |
| SwitchGenerator.InsertStable | compiler/ir/backend.jvm/src/org/jetbrains/kotlin/backend/jvm/codegen/SwitchGenerator.kt:136 | one insertion step of the sort puts the new case after the cases with its constant and leaves the other constants' cases as they were |
| SwitchGenerator.SortKeepsDistinct | compiler/ir/backend.jvm/src/org/jetbrains/kotlin/backend/jvm/codegen/SwitchGenerator.kt:136 | sorting keeps distinct constants distinct |
| SwitchGenerator.RangeLength | compiler/ir/backend.jvm/src/org/jetbrains/kotlin/backend/jvm/codegen/SwitchGenerator.kt:145-147 | the table range computed on 64-bit integers is at least 1 and fits a Long |
| SwitchGenerator.Table | compiler/ir/backend.jvm/src/org/jetbrains/kotlin/backend/jvm/codegen/SwitchGenerator.kt:151-153 | entry `i` of the filled table is the label of the case for `caseMin + i`, the default label when there is none |
| SwitchGenerator.SwitchFor | compiler/ir/backend.jvm/src/org/jetbrains/kotlin/backend/jvm/codegen/SwitchGenerator.kt:145-155 | a `lookupswitch` exactly when the 64-bit range is more than twice the number of cases, keyed by the constants in their order; otherwise a `tableswitch` from the least to the greatest constant whose entry for each value is the label of the last case with it |
| SwitchGenerator.DispatchSelectsCase | compiler/ir/backend.jvm/src/org/jetbrains/kotlin/backend/jvm/codegen/SwitchGenerator.kt:148-155 | for any sorted cases, the emitted `tableswitch` (JVMS section 6.5) sends a value to the label of the last case with it, because a later write into the label array overwrites an earlier one; the `lookupswitch` sends it to the first case with it; both send a value no case has to the default label, and with distinct constants both send it to the one case that has it |
| SwitchGenerator.SortedDispatchSelectsCase | compiler/ir/backend.jvm/src/org/jetbrains/kotlin/backend/jvm/codegen/SwitchGenerator.kt:136-155 | stated over the cases in the order `match` recorded them, repeated constants included: after the stable sort a `tableswitch` sends a value to the last recorded case with it and a `lookupswitch` to the first; a value no case has goes to the default label; with distinct constants, to its own case |
| SwitchGenerator.FirstTargetIsFirstBranch | compiler/ir/backend.jvm/src/org/jetbrains/kotlin/backend/jvm/codegen/SwitchGenerator.kt:31-49 | the branch `when` takes for a value: the case with that constant that no earlier recorded case shares, or the default label when no case has it |
| SwitchGenerator.DuplicateConstantMiscompiles | compiler/ir/backend.jvm/src/org/jetbrains/kotlin/backend/jvm/codegen/SwitchGenerator.kt:148-154 | as written, `when (x) { 1 -> a; 1 -> b; else -> c }` gives a `tableswitch` that sends 1 to `b`'s label where `when` takes `a`, and `when (x) { 1 -> a; 1 -> b; 9 -> c }` gives a `lookupswitch` whose keys 1, 1, 9 do not strictly increase |
| SwitchGenerator.SortTwoDuplicates | compiler/ir/backend.jvm/src/org/jetbrains/kotlin/backend/jvm/codegen/SwitchGenerator.kt:136 | the stable sort leaves the two cases of constant 1 in their recorded order |
| SwitchGenerator.SortThreeCases | compiler/ir/backend.jvm/src/org/jetbrains/kotlin/backend/jvm/codegen/SwitchGenerator.kt:136 | the stable sort leaves cases 1, 1, 9 in their recorded order |
| SwitchGenerator.FirstOfEachKeepsFirst | compiler/ir/backend.jvm/src/org/jetbrains/kotlin/backend/jvm/codegen/SwitchGenerator.kt:148-154 | the corrected emission keeps, for each constant, exactly the first of its cases |
| SwitchGenerator.FirstOfEachKeeps | compiler/ir/backend.jvm/src/org/jetbrains/kotlin/backend/jvm/codegen/SwitchGenerator.kt:148-154 | the kept cases have distinct constants and stay sorted and within Int |
| SwitchGenerator.FirstWinsSwitch | compiler/ir/backend.jvm/src/org/jetbrains/kotlin/backend/jvm/codegen/SwitchGenerator.kt:145-155 | the corrected switch over sorted cases sends every value to the first case that carries it, or to the default label, and its `lookupswitch` keys strictly increase |
| SwitchGenerator.FirstWinsDispatch | compiler/ir/backend.jvm/src/org/jetbrains/kotlin/backend/jvm/codegen/SwitchGenerator.kt:135-155 | the corrected switch sends every value to the first recorded case with that constant, which is `when`'s first matching branch, and any other value to the default label; its `lookupswitch` keys strictly increase |
| SwitchGenerator.EmitSwitch | compiler/ir/backend.jvm/src/org/jetbrains/kotlin/backend/jvm/codegen/SwitchGenerator.kt:145-155 | emits the switch `SwitchFor` describes, filling the label table in place; the range length is computed on 64-bit integers, the corrected form of the 32-bit subtraction at line 147 (see Findings) |
| SwitchGenerator.EmitThenExpressions | compiler/ir/backend.jvm/src/org/jetbrains/kotlin/backend/jvm/codegen/SwitchGenerator.kt:157-163 | each then expression is its label, its code and a jump to the end, in order |
| SwitchGenerator.Generator.Gen | compiler/ir/backend.jvm/src/org/jetbrains/kotlin/backend/jvm/codegen/SwitchGenerator.kt:135-179 | sorts the cases in place, loads the subject, emits the switch over the first case of each constant, with the range length computed on 64-bit integers (both corrections, see Findings, lines 147 and 148-154), then the then branches, the else part (or Unit), and marks the end |
| SwitchGenerator.RangeLengthAsWritten | compiler/ir/backend.jvm/src/org/jetbrains/kotlin/backend/jvm/codegen/SwitchGenerator.kt:147 | the range length as written: the subtraction wraps in 32 bits before the widening |
| SwitchGenerator.RangeLengthOverflows | compiler/ir/backend.jvm/src/org/jetbrains/kotlin/backend/jvm/codegen/SwitchGenerator.kt:147-153 | for cases `Int.MIN_VALUE` and `Int.MAX_VALUE` the range as written is 0, the table is empty and the first write fails, where the intended range chooses `lookupswitch` |
| SwitchGenerator.RangeLengthAgrees | compiler/ir/backend.jvm/src/org/jetbrains/kotlin/backend/jvm/codegen/SwitchGenerator.kt:147 | whenever `caseMax - caseMin` fits in an Int, both computations agree |
| UntilHandler.Wrap | compiler/ir/backend.common/src/org/jetbrains/kotlin/backend/common/lower/loops/handlers/UntilHandler.kt:33-34 | arithmetic in the progression's element type stays in its range and leaves in-range values alone; `B - 1` of MIN_VALUE wraps |
| UntilHandler.GuardNeededIffNotWider | compiler/ir/backend.common/src/org/jetbrains/kotlin/backend/common/lower/loops/handlers/UntilHandler.kt:128-167 | the extra "not empty" condition is needed exactly for the overloads whose range element type is not strictly wider than the argument type, and for every combination that is not an overload |
| UntilHandler.GuardFor | compiler/ir/backend.common/src/org/jetbrains/kotlin/backend/common/lower/loops/handlers/UntilHandler.kt:94-114 | a runtime test `B != MIN_VALUE` exactly when `B` is not a constant and the types need it; the constant `false` exactly when `B` is the constant MIN_VALUE; otherwise no condition |
| UntilHandler.GuardHoldsIffNotMin | compiler/ir/backend.common/src/org/jetbrains/kotlin/backend/common/lower/loops/handlers/UntilHandler.kt:94-167 | for every overload, the chosen condition holds exactly when `B` is not MIN_VALUE of the element type |
| UntilHandler.Build | compiler/ir/backend.common/src/org/jetbrains/kotlin/backend/common/lower/loops/handlers/UntilHandler.kt:69-125 | the header has step 1, cannot overflow, has `untilArg` as a temporary exactly when `B` has side effects and `untilReceiverValue` exactly when both have; first and last read the temporaries when they exist |
| UntilHandler.BuildKeepsEvaluationOrder | compiler/ir/backend.common/src/org/jetbrains/kotlin/backend/common/lower/loops/handlers/UntilHandler.kt:52-57 | `A` is evaluated before `B`: with two temporaries the receiver's comes first, and `B` alone is hoisted only when `A` has no side effects |
| UntilHandler.Until | compiler/ir/backend.common/src/org/jetbrains/kotlin/backend/common/lower/loops/handlers/UntilHandler.kt:33-34 | `A until B` is `A, A+1, …, B-1`, empty when `B <= A` |
| UntilHandler.LoweredLoop | compiler/ir/backend.common/src/org/jetbrains/kotlin/backend/common/lower/loops/handlers/UntilHandler.kt:56-68 | the documented lowered loop with wrapping arithmetic visits exactly `A until B` whenever its guard holds exactly when `B` is not MIN_VALUE |
| UntilHandler.LowerUntilLoop | compiler/ir/backend.common/src/org/jetbrains/kotlin/backend/common/lower/loops/handlers/UntilHandler.kt:31-125 | with the condition `build` chooses, the lowered loop over `A until B` visits exactly `A..B-1` for every overload |
| UntilHandler.UnguardedMinWraps | compiler/ir/backend.common/src/org/jetbrains/kotlin/backend/common/lower/loops/handlers/UntilHandler.kt:33-34 | without the condition, `last` of `A until MIN_VALUE` would wrap to MAX_VALUE although the range is empty |
| WasmLayout.ToByte | compiler/ir/backend.wasm/src/org/jetbrains/kotlin/backend/wasm/codegen/ClassInfo.kt:29 | `toByte()` yields a signed 8-bit value |
| WasmLayout.ToUByte | compiler/ir/backend.wasm/src/org/jetbrains/kotlin/backend/wasm/codegen/ClassInfo.kt:33 | `toUByte()` yields a value below 256 |
| WasmLayout.Bits | compiler/ir/backend.wasm/src/org/jetbrains/kotlin/backend/wasm/codegen/ClassInfo.kt:29 | the unsigned reading of an `Int`'s 32 bits is below 2^32 |
| WasmLayout.ToLittleEndianBytes | compiler/ir/backend.wasm/src/org/jetbrains/kotlin/backend/wasm/codegen/ClassInfo.kt:27-31 | `toLittleEndianBytes()` yields exactly four signed bytes |
| WasmLayout.FromLittleEndianBytes | compiler/ir/backend.wasm/src/org/jetbrains/kotlin/backend/wasm/codegen/ClassInfo.kt:27-31 | four little-endian bytes read back as a 32-bit `Int` |
| WasmLayout.LittleEndianRoundTrip | compiler/ir/backend.wasm/src/org/jetbrains/kotlin/backend/wasm/codegen/ClassInfo.kt:27-31 | re-assembling the four bytes gives back the `Int` |
| WasmLayout.BytesSumToBits | compiler/ir/backend.wasm/src/org/jetbrains/kotlin/backend/wasm/codegen/ClassInfo.kt:27-31 | the unsigned bytes, weighted by 1, 2^8, 2^16 and 2^24, add up to the bit pattern |
| WasmLayout.WrapBits | compiler/ir/backend.wasm/src/org/jetbrains/kotlin/backend/wasm/codegen/ClassInfo.kt:29 | the bit pattern wrapped to 32 bits is the value again |
| WasmLayout.LittleEndianBytesAreBits | compiler/ir/backend.wasm/src/org/jetbrains/kotlin/backend/wasm/codegen/ClassInfo.kt:27-31 | byte `i` holds bits `8i .. 8i+7` |
| WasmLayout.WordsToBytes | compiler/ir/backend.wasm/src/org/jetbrains/kotlin/backend/wasm/codegen/ClassInfo.kt:53-55 | an array's encoding has four bytes per word |
| WasmLayout.WordsToBytesAt | compiler/ir/backend.wasm/src/org/jetbrains/kotlin/backend/wasm/codegen/ClassInfo.kt:53-55 | word `k` sits at bytes `4k .. 4k+3`, in its little-endian encoding |
| WasmLayout.HexString | compiler/ir/backend.wasm/src/org/jetbrains/kotlin/backend/wasm/codegen/ClassInfo.kt:33 | `toString(16)` has one digit below 16 and two below 256 |
| WasmLayout.PadStart | compiler/ir/backend.wasm/src/org/jetbrains/kotlin/backend/wasm/codegen/ClassInfo.kt:33 | `padStart` pads on the left to the length, keeps the text at the end and leaves longer text alone |
| WasmLayout.ByteToWatData | compiler/ir/backend.wasm/src/org/jetbrains/kotlin/backend/wasm/codegen/ClassInfo.kt:33 | a byte in WAT data is a backslash followed by two characters |
| WasmLayout.ByteToWatDataDigits | compiler/ir/backend.wasm/src/org/jetbrains/kotlin/backend/wasm/codegen/ClassInfo.kt:33 | the two characters are the lower-case hex digits of the byte's unsigned value, high digit first, with a leading zero below 16 |
| WasmLayout.BytesToWatData | compiler/ir/backend.wasm/src/org/jetbrains/kotlin/backend/wasm/codegen/ClassInfo.kt:34 | a byte array in WAT data has three characters per byte |
| WasmLayout.BytesToWatDataAt | compiler/ir/backend.wasm/src/org/jetbrains/kotlin/backend/wasm/codegen/ClassInfo.kt:34 | byte `i` is written at characters `3i .. 3i+2` |
| WasmLayout.BytesMatchSize | compiler/ir/backend.wasm/src/org/jetbrains/kotlin/backend/wasm/codegen/ClassInfo.kt:36-83 | for every element, field, array and struct, `toBytes().size == sizeInBytes` |
| WasmLayout.ElementsBytesMatchSize | compiler/ir/backend.wasm/src/org/jetbrains/kotlin/backend/wasm/codegen/ClassInfo.kt:66-68 | the bytes of a struct's first `n` elements are as many as their sizes add up to |
| WasmLayout.DumpStruct | compiler/ir/backend.wasm/src/org/jetbrains/kotlin/backend/wasm/codegen/ClassInfo.kt:70-80 | `LMStruct.dump` is the header line followed by the elements' dumps, one indent deeper, each at its running address |
| WasmLayout.DumpStructElements | compiler/ir/backend.wasm/src/org/jetbrains/kotlin/backend/wasm/codegen/ClassInfo.kt:72-77 | the loop's running address for element `i` is the struct's start plus the sizes of the elements before it |
| WasmLayout.SumSizesSplit | compiler/ir/backend.wasm/src/org/jetbrains/kotlin/backend/wasm/codegen/ClassInfo.kt:82 | a struct's size covers each element after the elements before it |
| WasmLayout.EmptyArrayDumpsNothing | compiler/ir/backend.wasm/src/org/jetbrains/kotlin/backend/wasm/codegen/ClassInfo.kt:57-62 | an empty `LMArrayI32` dumps nothing and has size 0 |
| WasmLayout.Signatures | compiler/ir/backend.wasm/src/org/jetbrains/kotlin/backend/wasm/codegen/ClassInfo.kt:19-20 | `virtualMethodsSignatures` is exactly the set of the virtual methods' signatures |
| WasmModule.Bytes | compiler/ir/backend.wasm/src/org/jetbrains/kotlin/backend/wasm/codegen/ModuleTransformer.kt:173 | a data segment holds as many bytes as its struct's size |
| WasmModule.IndexOf | compiler/ir/backend.wasm/src/org/jetbrains/kotlin/backend/wasm/codegen/ModuleTransformer.kt:152 | the id of a numbered function is the position of its first occurrence |
| WasmModule.NumberFunctions | compiler/ir/backend.wasm/src/org/jetbrains/kotlin/backend/wasm/codegen/ModuleTransformer.kt:124-129 | numbering keeps the earlier ids, adds every function, adds nothing else, and keeps the ids distinct |
| WasmModule.IdsAreStable | compiler/ir/backend.wasm/src/org/jetbrains/kotlin/backend/wasm/codegen/ModuleTransformer.kt:124-129 | a function numbered before keeps its id |
| WasmModule.NewIdIsSize | compiler/ir/backend.wasm/src/org/jetbrains/kotlin/backend/wasm/codegen/ModuleTransformer.kt:125-128 | a function not numbered before gets the current size of the map as its id |
| WasmModule.FindSignature | compiler/ir/backend.wasm/src/org/jetbrains/kotlin/backend/wasm/codegen/ModuleTransformer.kt:133-134 | the slot found has the signature looked for, and none is found only when no slot has it |
| WasmModule.LastWithSignature | compiler/ir/backend.wasm/src/org/jetbrains/kotlin/backend/wasm/codegen/ModuleTransformer.kt:131 | the function found has the signature and is among the class's functions; none only when no function has it |
| WasmModule.Put | compiler/ir/backend.wasm/src/org/jetbrains/kotlin/backend/wasm/codegen/ModuleTransformer.kt:131 | one insertion into the signature map keeps signatures distinct, replaces the entry of the same signature in place, and keeps every other entry |
| WasmModule.AssociateBy | compiler/ir/backend.wasm/src/org/jetbrains/kotlin/backend/wasm/codegen/ModuleTransformer.kt:131 | `associateBy` has one entry per signature, each made of one of the class's functions, and an entry for every signature present |
| WasmModule.AssociateByKeepsLast | compiler/ir/backend.wasm/src/org/jetbrains/kotlin/backend/wasm/codegen/ModuleTransformer.kt:131 | for a repeated signature, the entry kept is the last function with it |
| WasmModule.InheritedMethods | compiler/ir/backend.wasm/src/org/jetbrains/kotlin/backend/wasm/codegen/ModuleTransformer.kt:133-135 | the inherited slots succeed exactly when the class has a function for every superclass signature (the `!!`), and keep the superclass's slots in order |
| WasmModule.NewMethods | compiler/ir/backend.wasm/src/org/jetbrains/kotlin/backend/wasm/codegen/ModuleTransformer.kt:137-141 | the new slots are exactly the class's entries whose signatures the superclass lacks |
| WasmModule.Vtable | compiler/ir/backend.wasm/src/org/jetbrains/kotlin/backend/wasm/codegen/ModuleTransformer.kt:150-153 | the v-table has one word per slot: the slot function's id |
| WasmModule.Repeat | compiler/ir/backend.wasm/src/org/jetbrains/kotlin/backend/wasm/codegen/ModuleTransformer.kt:155-158 | the signature stub is one `-1` per slot |
| WasmModule.InterfaceListBytes | compiler/ir/backend.wasm/src/org/jetbrains/kotlin/backend/wasm/codegen/ModuleTransformer.kt:106-117 | the interface list is its size followed by the interface ids, four bytes each |
| WasmModule.ClassElementsBytes | compiler/ir/backend.wasm/src/org/jetbrains/kotlin/backend/wasm/codegen/ModuleTransformer.kt:171 | the class elements in order: super id, v-table length, v-table, signature stubs, interface list |
| WasmModule.ClassWordsBytes | compiler/ir/backend.wasm/src/org/jetbrains/kotlin/backend/wasm/codegen/ModuleTransformer.kt:171 | the words of the type info encode to the same bytes as the five elements in order |
| WasmModule.ClassStructBytes | compiler/ir/backend.wasm/src/org/jetbrains/kotlin/backend/wasm/codegen/ModuleTransformer.kt:171-173 | the class struct's bytes are its words, four little-endian bytes each, and its size is four per word |
| WasmModule.InterfaceIds | compiler/ir/backend.wasm/src/org/jetbrains/kotlin/backend/wasm/codegen/ModuleTransformer.kt:104-109 | the interface ids succeed exactly when every implemented interface was numbered, and are those numbers in order |
| WasmModule.FunctionsOf | compiler/ir/backend.wasm/src/org/jetbrains/kotlin/backend/wasm/codegen/ModuleTransformer.kt:119-122 | the functions of a class, in declaration order |
| WasmModule.ClassMethods | compiler/ir/backend.wasm/src/org/jetbrains/kotlin/backend/wasm/codegen/ModuleTransformer.kt:143 | every v-table entry is one of the entries of the signature map |
| WasmModule.MethodsAreNumbered | compiler/ir/backend.wasm/src/org/jetbrains/kotlin/backend/wasm/codegen/ModuleTransformer.kt:124-152 | every v-table function has an id, so the `!!` at the v-table lookup never fails |
| WasmModule.SuperInfo | compiler/ir/backend.wasm/src/org/jetbrains/kotlin/backend/wasm/codegen/ModuleTransformer.kt:90-99 | the superclass metadata is found exactly when the class is `Any` or its superclass was laid out before |
| WasmModule.LayOutClass | compiler/ir/backend.wasm/src/org/jetbrains/kotlin/backend/wasm/codegen/ModuleTransformer.kt:90-172 | a class's layout keeps the earlier function ids, gets the current class id, numbers every slot function, and builds its struct from the v-table of ids |
| WasmModule.AddClass | compiler/ir/backend.wasm/src/org/jetbrains/kotlin/backend/wasm/codegen/ModuleTransformer.kt:169-177 | recording a class stores its metadata, appends its data at the current id and advances the id by the struct's size |
| WasmModule.Step | compiler/ir/backend.wasm/src/org/jetbrains/kotlin/backend/wasm/codegen/ModuleTransformer.kt:84-178 | one iteration keeps function ids distinct and only adds to them |
| WasmModule.Collect | compiler/ir/backend.wasm/src/org/jetbrains/kotlin/backend/wasm/codegen/ModuleTransformer.kt:79-178 | the whole loop keeps function ids distinct |
| WasmModule.ContiguousAt | compiler/ir/backend.wasm/src/org/jetbrains/kotlin/backend/wasm/codegen/ModuleTransformer.kt:79-177 | segment `j` starts at 1 if it is the first, else just past segment `j - 1` |
| WasmModule.ClassDataBytes | compiler/ir/backend.wasm/src/org/jetbrains/kotlin/backend/wasm/codegen/ModuleTransformer.kt:171-173 | a class's data segment is its words, four little-endian bytes each |
| WasmModule.StepLaysOutContiguously | compiler/ir/backend.wasm/src/org/jetbrains/kotlin/backend/wasm/codegen/ModuleTransformer.kt:84-178 | one iteration keeps the segments back to back and advances the interface counter by one exactly for an interface |
| WasmModule.StepOfInterface | compiler/ir/backend.wasm/src/org/jetbrains/kotlin/backend/wasm/codegen/ModuleTransformer.kt:85-87 | an interface gets the next interface id and nothing else changes |
| WasmModule.StepOfClass | compiler/ir/backend.wasm/src/org/jetbrains/kotlin/backend/wasm/codegen/ModuleTransformer.kt:90-177 | a class is laid out and recorded |
| WasmModule.CollectSnoc | compiler/ir/backend.wasm/src/org/jetbrains/kotlin/backend/wasm/codegen/ModuleTransformer.kt:84 | the loop over a list is the loop over its prefix and one more iteration |
| WasmModule.CollectLaysOutContiguously | compiler/ir/backend.wasm/src/org/jetbrains/kotlin/backend/wasm/codegen/ModuleTransformer.kt:79-178 | the first class is at 1, each later class just past the previous struct, and the interface counter is one more than the number of interfaces |
| WasmModule.StepNumbersInterfaces | compiler/ir/backend.wasm/src/org/jetbrains/kotlin/backend/wasm/codegen/ModuleTransformer.kt:85-87 | one iteration keeps interfaces numbered 1, 2, 3, … in the order they are met |
| WasmModule.InterfacesNumberedInOrder | compiler/ir/backend.wasm/src/org/jetbrains/kotlin/backend/wasm/codegen/ModuleTransformer.kt:80-87 | interfaces get ids 1, 2, 3, … in sorted order, and only interfaces get them |
| WasmModule.InterfacesComeFrom | compiler/ir/backend.wasm/src/org/jetbrains/kotlin/backend/wasm/codegen/ModuleTransformer.kt:85-87 | every numbered interface is one of the sorted declarations |
| WasmModule.ClassLayoutShape | compiler/ir/backend.wasm/src/org/jetbrains/kotlin/backend/wasm/codegen/ModuleTransformer.kt:133-171 | the v-table keeps the superclass's slots in order before the new ones, the new ones have signatures the superclass lacks, fields are the superclass's followed by the class's own, and the struct is its words |
| WasmModule.LayoutIsNonEmpty | compiler/ir/backend.wasm/src/org/jetbrains/kotlin/backend/wasm/codegen/ModuleTransformer.kt:171 | a class struct holds at least three words, so ids strictly increase |
| WasmModule.StepOrdersIds | compiler/ir/backend.wasm/src/org/jetbrains/kotlin/backend/wasm/codegen/ModuleTransformer.kt:84-178 | one iteration keeps class ids in `[1, classId)` with every superclass id below its class's id |
| WasmModule.CollectOrdersIds | compiler/ir/backend.wasm/src/org/jetbrains/kotlin/backend/wasm/codegen/ModuleTransformer.kt:79-178 | after the loop every class id lies in `[1, classId)` and every superclass id is below its class's id (`Any`'s is 0) |
| WasmModule.StepPlacesClass | compiler/ir/backend.wasm/src/org/jetbrains/kotlin/backend/wasm/codegen/ModuleTransformer.kt:161-173 | a class's iteration stores its metadata at the current id and appends its struct: super id (0 for `Any`), v-table of function ids, interface ids |
| WasmModule.VirtFuns | compiler/ir/backend.wasm/src/org/jetbrains/kotlin/backend/wasm/codegen/ModuleTransformer.kt:180-183 | when entry `i` carries id `i`, `virtFuns.add(id, f)` succeeds and puts function `i` at index `i` |
| WasmModule.IdEntries | compiler/ir/backend.wasm/src/org/jetbrains/kotlin/backend/wasm/codegen/ModuleTransformer.kt:181 | the id map in insertion order: function `ids[i]` with id `i` |
| WasmModule.WasmTypeInfo.constructor | compiler/ir/backend.wasm/src/org/jetbrains/kotlin/backend/wasm/codegen/ModuleTransformer.kt:72 | the type info starts empty |
| WasmModule.WasmTypeInfo.CollectTypeInfo | compiler/ir/backend.wasm/src/org/jetbrains/kotlin/backend/wasm/codegen/ModuleTransformer.kt:68-178 | the loop fails exactly when the functional collection fails, and otherwise leaves the type info and the next class id it describes |
| WasmModule.CollectStaysFailed | compiler/ir/backend.wasm/src/org/jetbrains/kotlin/backend/wasm/codegen/ModuleTransformer.kt:97 | once a `!!` lookup fails, the whole collection fails |
| WasmRuntime.SegmentMemoryAt | compiler/ir/backend.wasm/src/org/jetbrains/kotlin/backend/wasm/codegen/ModuleTransformer.kt:173 | in a segment's memory, word `k` loads the little-endian value of bytes `4k .. 4k+3` |
| WasmRuntime.SegmentHoldsWords | compiler/ir/backend.wasm/src/org/jetbrains/kotlin/backend/wasm/codegen/ModuleTransformer.kt:173 | a segment holding the encoding of some words loads back those words, one by one |
| WasmRuntime.FirstSlot | libraries/stdlib/wasm/runtime/typeInfo.kt:33-39 | the slot found is the first one from the start, below the v-table length, whose signature word matches; none is found only when no slot matches |
| WasmRuntime.GetInterfaceMethodId | libraries/stdlib/wasm/runtime/typeInfo.kt:30-41 | the loop returns the method id of the first slot with the signature, and traps (`None`) when none has it |
| WasmRuntime.ListContains | libraries/stdlib/wasm/runtime/typeInfo.kt:68-76 | the list search answers true exactly when one of the listed words is the id |
| WasmRuntime.IsInterface | libraries/stdlib/wasm/runtime/typeInfo.kt:54-77 | `isInterface` answers true exactly when the id is in the interface list that follows the v-table and its signatures |
| WasmRuntime.SuperChain | libraries/stdlib/wasm/runtime/typeInfo.kt:44-48 | the super chain runs from the class to `Any` (id 1), each step the super id read at offset 0 |
| WasmRuntime.IsSubClassOfImpl | libraries/stdlib/wasm/runtime/typeInfo.kt:44-48 | `isSubClassOfImpl(c, o)` holds exactly when `o` is on `c`'s super chain |
| WasmRuntime.SubClassOfAny | libraries/stdlib/wasm/runtime/typeInfo.kt:44-47 | every class is a subclass of itself and of `Any`, and `Any` is a subclass of nothing else |
| WasmRuntime.ClassWordsAt | libraries/stdlib/wasm/runtime/typeInfo.kt:9-11 | the type info words: super id at word 0, v-table length at word 1, slots from word 2, one `-1` per slot after them, then the interface list |
| WasmRuntime.ReadsHeader | libraries/stdlib/wasm/runtime/typeInfo.kt:9-28 | the readers `getSuperClassId` (offset 0), `getVtableLength` (offset 4) and `getVirtualMethodId` (from `getVtablePtr`, offset 8) get back the super id, the v-table length and each slot as `collectTypeInfo` wrote them |
| WasmRuntime.ReadsSlots | libraries/stdlib/wasm/runtime/typeInfo.kt:26-28 | `getVirtualMethodId` reads the slot at `vtablePtr + 4·slot` |
| WasmRuntime.ReadsSignatures | libraries/stdlib/wasm/runtime/typeInfo.kt:30-41 | since every signature word is `-1`, a real signature always traps, and `-1` finds the first slot |
| WasmRuntime.ReadsInterfaces | libraries/stdlib/wasm/runtime/typeInfo.kt:54-77 | the interface-list length, read as intended (`GetInterfaceListLength`), is the number of interfaces; the ids read back too, so `isInterface` finds exactly the listed ids |
| WasmRuntime.InterfaceListLengthReadsVtableLength | libraries/stdlib/wasm/runtime/typeInfo.kt:20-21 | `getInterfaceListLength` as written returns the v-table length: one virtual method and no interfaces reports one interface |
| WasmRuntime.SegmentKeysInside | compiler/ir/backend.wasm/src/org/jetbrains/kotlin/backend/wasm/codegen/ModuleTransformer.kt:173 | a segment's memory lies within its bytes |
| WasmRuntime.ImageKeysBelow | compiler/ir/backend.wasm/src/org/jetbrains/kotlin/backend/wasm/codegen/ModuleTransformer.kt:79-177 | the memory image lies in `[1, classId)` |
| WasmRuntime.OffsetsGrow | compiler/ir/backend.wasm/src/org/jetbrains/kotlin/backend/wasm/codegen/ModuleTransformer.kt:177 | later segments start after earlier ones end |
| WasmRuntime.ImageHoldsWords | compiler/ir/backend.wasm/src/org/jetbrains/kotlin/backend/wasm/codegen/ModuleTransformer.kt:173-177 | words a segment holds within its extent are in the memory image at the same addresses, since no other segment overlaps it |
| WasmRuntime.ImageHoldsClass | compiler/ir/backend.wasm/src/org/jetbrains/kotlin/backend/wasm/codegen/ModuleTransformer.kt:171-173 | a class struct among the segments is in memory word for word at its id |
| IntegerLiteralType.NewLiteralConstructor | core/descriptors/src/org/jetbrains/kotlin/resolve/constants/IntegerLiteralTypeConstructor.kt:88-136 | a type is possible exactly when its signedness is allowed (both for a convertible constant, unsigned for an unsigned literal, signed otherwise) and it is `Long`/`ULong` or the value is within its bounds |
| IntegerLiteralType.AddSignedPossibleTypes | core/descriptors/src/org/jetbrains/kotlin/resolve/constants/IntegerLiteralTypeConstructor.kt:101-106 | adds exactly the signed types the value may take: `Long` always, `Int`, `Byte` and `Short` when the value is within their bounds |
| IntegerLiteralType.AddUnsignedPossibleTypes | core/descriptors/src/org/jetbrains/kotlin/resolve/constants/IntegerLiteralTypeConstructor.kt:108-113 | adds exactly the unsigned types the value may take: `ULong` always, `UInt`, `UByte` and `UShort` when the value is within their bounds |
| IntegerLiteralType.FoldLiterals | core/descriptors/src/org/jetbrains/kotlin/resolve/constants/IntegerLiteralTypeConstructor.kt:55-62 | two literal types fold to a literal type with the left value whose possible types are the intersection (common supertype) or the union (intersection type) |
| IntegerLiteralType.FoldWithPlain | core/descriptors/src/org/jetbrains/kotlin/resolve/constants/IntegerLiteralTypeConstructor.kt:64-65 | a literal type with a plain type gives that plain type exactly when it is possible, else `null` |
| IntegerLiteralType.Fold | core/descriptors/src/org/jetbrains/kotlin/resolve/constants/IntegerLiteralTypeConstructor.kt:41-53 | `null` on either side gives `null`, and so do two plain types |
| IntegerLiteralType.FindCommonSuperTypeOrIntersectionType | core/descriptors/src/org/jetbrains/kotlin/resolve/constants/IntegerLiteralTypeConstructor.kt:36-39 | no types give `null`; one type gives itself |
| IntegerLiteralType.FoldOfLiterals | core/descriptors/src/org/jetbrains/kotlin/resolve/constants/IntegerLiteralTypeConstructor.kt:27-39 | folding literal types only keeps the first value and gives the types every literal allows (common supertype) or some literal allows (intersection type) |
| IntegerLiteralType.NullStaysNull | core/descriptors/src/org/jetbrains/kotlin/resolve/constants/IntegerLiteralTypeConstructor.kt:38-42 | once a partial fold is `null`, the whole reduction is `null` |
| IntegerLiteralType.ApproximatedType | core/descriptors/src/org/jetbrains/kotlin/resolve/constants/IntegerLiteralTypeConstructor.kt:156 | the approximation is the first of `Int, Long, Byte, Short, UInt, ULong, UByte, UShort` that is possible, and `null` only when none is |
| IntegerLiteralType.FirstPossible | core/descriptors/src/org/jetbrains/kotlin/resolve/constants/IntegerLiteralTypeConstructor.kt:156 | `firstOrNull` finds the first listed type that is possible, and `null` only when none is |
| IntegerLiteralType.SignedApproximation | core/descriptors/src/org/jetbrains/kotlin/resolve/constants/IntegerLiteralTypeConstructor.kt:101-156 | a signed literal is approximated by `Int` when it fits, otherwise by `Long` |
| IntegerLiteralType.Supertypes | core/descriptors/src/org/jetbrains/kotlin/resolve/constants/IntegerLiteralTypeConstructor.kt:146-154 | the supertypes start with `Comparable` of the literal type, and include `Number` exactly when some signed type is possible |
| IntegerLiteralType.FindCommonSuperType | core/descriptors/src/org/jetbrains/kotlin/resolve/constants/IntegerLiteralTypeConstructor.kt:17-18 | no types give `null`; literal types give a literal type with the first value whose possible types are those every literal allows |
| IntegerLiteralType.FindIntersectionType | core/descriptors/src/org/jetbrains/kotlin/resolve/constants/IntegerLiteralTypeConstructor.kt:20-21 | no types give `null`; literal types give a literal type with the first value whose possible types are those some literal allows |
| ConstantValues.Value | core/descriptors/src/org/jetbrains/kotlin/resolve/constants/constantValues.kt:31-124 | reading `value` throws exactly for an error value, and gives `null` exactly for the null constant |
| ConstantValues.Equals | core/descriptors/src/org/jetbrains/kotlin/resolve/constants/constantValues.kt:36 | the same object is equal to itself; otherwise reading an error value's `value` throws, and other constants are equal exactly when their values are |
| ConstantValues.HashCode | core/descriptors/src/org/jetbrains/kotlin/resolve/constants/constantValues.kt:38 | the null constant hashes to 0, and only an error value throws |
| ConstantValues.EqualsImpliesEqualHash | core/descriptors/src/org/jetbrains/kotlin/resolve/constants/constantValues.kt:36-38 | constants that are equal have equal hash codes |
| ConstantValues.Hex4 | core/descriptors/src/org/jetbrains/kotlin/resolve/constants/constantValues.kt:79 | `%04X` of a char code is exactly four digits |
| ConstantValues.UpperHexDigitValue | core/descriptors/src/org/jetbrains/kotlin/resolve/constants/constantValues.kt:79 | each upper-case hex digit reads back as its value |
| ConstantValues.Hex4RoundTrip | core/descriptors/src/org/jetbrains/kotlin/resolve/constants/constantValues.kt:79 | the four digits read back as hexadecimal give the code |
| ConstantValues.PrintablePart | core/descriptors/src/org/jetbrains/kotlin/resolve/constants/constantValues.kt:81-100 | two-character escapes exactly for backspace, tab, newline, form feed and carriage return; `?` exactly for the other unprintable characters (surrogates included) and for `?` itself |
| ConstantValues.Render | core/descriptors/src/org/jetbrains/kotlin/resolve/constants/constantValues.kt:40-191 | `toString` of each constant: a Boolean is "true" exactly when it is set, a string is its value between double quotes, the null constant is "null" and an error value is its message (the integer, Char and enum forms are stated by the lemmas that follow) |
| ConstantValues.RenderIsDigitsThenSuffix | core/descriptors/src/org/jetbrains/kotlin/resolve/constants/constantValues.kt:67-183 | an integer constant renders as its decimal digits followed by the suffix of its kind |
| ConstantValues.IntToStringEndsInDigit | core/descriptors/src/org/jetbrains/kotlin/resolve/constants/constantValues.kt:40 | a rendered integer ends in a digit |
| ConstantValues.IntegerRenderingIsInjective | core/descriptors/src/org/jetbrains/kotlin/resolve/constants/constantValues.kt:67-183 | two `Byte`/`Short`/`Int`/`Long` constants with the same text are the same constant |
| ConstantValues.SameSuffix | core/descriptors/src/org/jetbrains/kotlin/resolve/constants/constantValues.kt:71-183 | equal integer texts have equal kind suffixes |
| ConstantValues.CharRendering | core/descriptors/src/org/jetbrains/kotlin/resolve/constants/constantValues.kt:79 | a `Char` renders as `\\u` with four upper-case digits that read back as its code, then its printable part in `('…')` |
| ConstantValues.StringRenderingRoundTrip | core/descriptors/src/org/jetbrains/kotlin/resolve/constants/constantValues.kt:191 | a string constant renders between double quotes, so its value reads back |
| ConstantValues.EnumRendering | core/descriptors/src/org/jetbrains/kotlin/resolve/constants/constantValues.kt:118 | an enum constant renders as its class's short name, a dot and the entry's name, so the name before the first dot is the class's |
| FunctionClass.NumberedClassName | core/descriptors/src/org/jetbrains/kotlin/builtins/functions/FunctionClassDescriptor.kt:44 | a numbered class name is the kind's prefix followed by the decimal arity |
| FunctionClass.ByClassNamePrefix | core/descriptors/src/org/jetbrains/kotlin/builtins/functions/FunctionClassDescriptor.kt:46-48 | the kind found is the first in declaration order whose package matches and whose prefix starts the name; none only when no kind matches |
| FunctionClass.FirstKind | core/descriptors/src/org/jetbrains/kotlin/builtins/functions/FunctionClassDescriptor.kt:48 | `firstOrNull` over the kinds finds the first matching one, and none only when no kind matches |
| FunctionClass.ByClassNamePrefixOfNumbered | core/descriptors/src/org/jetbrains/kotlin/builtins/functions/FunctionClassDescriptor.kt:44-48 | the numbered class name of a kind is recognised as that kind again |
| FunctionClass.TypeParameters | core/descriptors/src/org/jetbrains/kotlin/builtins/functions/FunctionClassDescriptor.kt:57-73 | the type parameters are `P1..Pn` (in-variant) then `R` (out-variant), each indexed by its position; a negative arity gives only `R` |
| FunctionClass.TakeLast | core/descriptors/src/org/jetbrains/kotlin/builtins/functions/FunctionClassDescriptor.kt:113 | `takeLast(n)` is the last `n` elements, or all when there are fewer |
| FunctionClass.Supertypes | core/descriptors/src/org/jetbrains/kotlin/builtins/functions/FunctionClassDescriptor.kt:103-139 | `SuspendFunctionN` extends `Any`; `FunctionN` extends `Function`; `KFunctionN` extends `KFunction` and `FunctionN`; every class supertype takes our last type parameters; it fails exactly when a class is not found |
| FunctionClass.SupertypeIn | core/descriptors/src/org/jetbrains/kotlin/builtins/functions/FunctionClassDescriptor.kt:106-118 | the local `add` fails exactly when the class is not found, and otherwise applies it to our last type parameters |
| FunctionClass.SupertypeArguments | core/descriptors/src/org/jetbrains/kotlin/builtins/functions/FunctionClassDescriptor.kt:112-136 | with the built-ins' shapes, the unnumbered base class takes `R`, and `KFunctionN`'s `FunctionN` takes all of `P1..PN, R` |
| FunctionClass.Shape | core/descriptors/src/org/jetbrains/kotlin/builtins/functions/FunctionClassDescriptor.kt:84-87 | a function class is an abstract interface without constructors |
| IrModuleDeserializer.KindOf | compiler/ir/serialization.common/src/org/jetbrains/kotlin/backend/common/serialization/IrModuleDeserializer.kt:24-34 | every listed symbol class has a kind, and any other symbol is an error |
| IrModuleDeserializer.KindOfInjective | compiler/ir/serialization.common/src/org/jetbrains/kotlin/backend/common/serialization/IrModuleDeserializer.kt:25-31 | distinct symbol classes have distinct kinds |
| IrModuleDeserializer.IndexOfFirstDigit | compiler/ir/serialization.common/src/org/jetbrains/kotlin/backend/common/serialization/IrModuleDeserializer.kt:112 | `indexOfFirst { it.isDigit() }` finds the first digit, and -1 exactly when there is none |
| IrModuleDeserializer.ParseDecimal | compiler/ir/serialization.common/src/org/jetbrains/kotlin/backend/common/serialization/IrModuleDeserializer.kt:112 | `toInt(10)` succeeds exactly for a non-empty run of digits within `Int`, and gives its value |
| IrModuleDeserializer.ComputeFunctionDescriptor | compiler/ir/serialization.common/src/org/jetbrains/kotlin/backend/common/serialization/IrModuleDeserializer.kt:108-121 | a leading `K` marks a reflection kind, an `S` after it (or first) a suspend kind, the arity is the number from the first digit on; an empty name fails |
| IrModuleDeserializer.PrefixHasNoDigit | compiler/ir/serialization.common/src/org/jetbrains/kotlin/backend/common/serialization/IrModuleDeserializer.kt:112 | no kind's class-name prefix contains a digit |
| IrModuleDeserializer.ComputeFunctionDescriptorOfName | compiler/ir/serialization.common/src/org/jetbrains/kotlin/backend/common/serialization/IrModuleDeserializer.kt:108-121 | each function interface's class name parses back to its kind and arity |
| IrModuleDeserializer.SuffixOfName | compiler/ir/serialization.common/src/org/jetbrains/kotlin/backend/common/serialization/IrModuleDeserializer.kt:112 | the arity's digits start right after the prefix |
| IrModuleDeserializer.FirstDigitAt | compiler/ir/serialization.common/src/org/jetbrains/kotlin/backend/common/serialization/IrModuleDeserializer.kt:112 | a digit with no digit before it is the first digit |
| IrModuleDeserializer.DeserializeSource | compiler/ir/serialization.common/src/org/jetbrains/kotlin/backend/common/serialization/IrModuleDeserializer.kt:170-176 | a built-in signature is served from the built-ins map first; otherwise a function-interface signature is resolved here, and the rest goes to the delegate |
| IrModuleDeserializer.ContainsAgreesWithDeserialize | compiler/ir/serialization.common/src/org/jetbrains/kotlin/backend/common/serialization/IrModuleDeserializer.kt:98-176 | `contains` holds exactly when the signature is served here or the delegate knows it |
| IrModuleDeserializer.MatchingIndices | compiler/ir/serialization.common/src/org/jetbrains/kotlin/backend/common/serialization/IrModuleDeserializer.kt:151-160 | the matching declarations from a position on, all of them, in order |
| IrModuleDeserializer.Single | compiler/ir/serialization.common/src/org/jetbrains/kotlin/backend/common/serialization/IrModuleDeserializer.kt:151-160 | `single` gives the only matching declaration, and fails when none or several match |
| IrModuleDeserializer.ResolveMember | compiler/ir/serialization.common/src/org/jetbrains/kotlin/backend/common/serialization/IrModuleDeserializer.kt:147-167 | one part is the class, and an assertion failure unless the symbol is a class symbol; two parts the single member of that name; three parts an assertion failure unless the signature is an accessor signature and the symbol a function symbol, and otherwise a property accessor, the getter tried before the setter; any other count fails |
| IrModuleDeserializer.ResolveFunctionalInterface | compiler/ir/serialization.common/src/org/jetbrains/kotlin/backend/common/serialization/IrModuleDeserializer.kt:123-167 | a resolved function interface had a public signature with a class name, whose kind and arity it parsed and whose member it looked up; it fails exactly when the signature is not public, has no class name, or the descriptor or the member lookup fails |
| TargetPlatform.FromString | core/descriptors/src/org/jetbrains/kotlin/resolve/TargetPlatform.kt:126-127 | `fromString` finds a target with that description, and null exactly when none has it |
| TargetPlatform.FromStringOfDescription | core/descriptors/src/org/jetbrains/kotlin/resolve/TargetPlatform.kt:117-127 | each target's description parses back to that target |
| TargetPlatform.PlatformToString | core/descriptors/src/org/jetbrains/kotlin/resolve/TargetPlatform.kt:50-57 | a platform prints its name, and a JDK platform adds its target in parentheses |
| TargetPlatform.NewPlatform | core/descriptors/src/org/jetbrains/kotlin/resolve/TargetPlatform.kt:8-11 | a platform set is refused exactly when it is empty, and otherwise kept |
| TargetPlatform.ToTargetPlatform | core/descriptors/src/org/jetbrains/kotlin/resolve/TargetPlatform.kt:102 | `toTargetPlatform` is the one-element platform set |
| TargetPlatform.SingleOrNull | core/descriptors/src/org/jetbrains/kotlin/resolve/TargetPlatform.kt:30 | `singleOrNull` gives the component exactly when there is one |
| TargetPlatform.ClassificationIsExclusive | core/descriptors/src/org/jetbrains/kotlin/resolve/TargetPlatform.kt:91-100 | a common platform is none of JVM, JS and Native; those three exclude one another; every platform is one of the four |
| TargetPlatform.OldFashionedDescription | core/descriptors/src/org/jetbrains/kotlin/resolve/TargetPlatform.kt:29-36 | a multiplatform is "Common (experimental) ", and a JDK platform is "JVM " and its target's description |
| TargetPlatform.OldFashionedDescriptionDeterminesCategory | core/descriptors/src/org/jetbrains/kotlin/resolve/TargetPlatform.kt:29-36 | the old-fashioned description tells the categories apart, and for JDK platforms the targets |
| TargetPlatform.PresentableDescription | core/descriptors/src/org/jetbrains/kotlin/resolve/TargetPlatform.kt:44-45 | a single platform's presentable description is its own string |
| TargetPlatform.Strings | core/descriptors/src/org/jetbrains/kotlin/resolve/TargetPlatform.kt:45 | one string per component, in order |
| TargetPlatform.NoSlashInPlatformString | core/descriptors/src/org/jetbrains/kotlin/resolve/TargetPlatform.kt:50-57 | no platform's string contains "/" |
| TargetPlatform.PresentableDescriptionSeparators | core/descriptors/src/org/jetbrains/kotlin/resolve/TargetPlatform.kt:44-45 | the description has one "/" fewer than components |
| TargetPlatform.JoinCount | core/descriptors/src/org/jetbrains/kotlin/resolve/TargetPlatform.kt:45 | joining with "/" strings free of it gives one separator fewer than parts |
| TargetPlatform.JvmPlatformByTargetVersion | core/descriptors/src/org/jetbrains/kotlin/resolve/TargetPlatform.kt:83-86 | the platform for a target is the single JDK platform of that target, a JVM platform |
| TargetPlatform.NewCommonPlatform | core/descriptors/src/org/jetbrains/kotlin/resolve/TargetPlatform.kt:88 | the common platform has three distinct components, is common and none of the others, and is described as "Common (experimental) " |
| TargetPlatform.IsNative | core/descriptors/src/org/jetbrains/kotlin/resolve/TargetPlatform.kt:91-92 | a platform is Native exactly when it has one component and that component is a Konan platform |
| TargetPlatform.IsJvm | core/descriptors/src/org/jetbrains/kotlin/resolve/TargetPlatform.kt:94-95 | a platform is JVM exactly when it has one component and that component is a JVM platform |
| TargetPlatform.IsJs | core/descriptors/src/org/jetbrains/kotlin/resolve/TargetPlatform.kt:97-98 | a platform is JS exactly when it has one component and that component is a JS platform |
| TargetPlatform.IsCommon | core/descriptors/src/org/jetbrains/kotlin/resolve/TargetPlatform.kt:100 | a platform is common exactly when `singleOrNull` finds no single component and it is not empty |
| FirName.Identifier | compiler/fir/cones/src/org/jetbrains/kotlin/fir/names/FirName.kt:40-43 | `identifier` keeps the text and is never special, whatever the text |
| FirName.Special | compiler/fir/cones/src/org/jetbrains/kotlin/fir/names/FirName.kt:57-63 | `special` is refused exactly when the text does not start with '<', and otherwise is a special name with that text |
| FirName.GuessByFirstCharacter | compiler/fir/cones/src/org/jetbrains/kotlin/fir/names/FirName.kt:65-68 | the guessed name is special exactly when the text starts with '<' |
| FirName.GetIdentifier | compiler/fir/cones/src/org/jetbrains/kotlin/fir/names/FirName.kt:10-16 | the `identifier` getter throws exactly for special names, and otherwise gives the text |
| FirName.IsValidIdentifier | compiler/fir/cones/src/org/jetbrains/kotlin/fir/names/FirName.kt:45-55 | the scan accepts exactly the non-empty names not starting with '<' and free of '.', '/' and '\\' |
| FirName.StringHash | compiler/fir/cones/src/org/jetbrains/kotlin/fir/names/FirName.kt:33 | the string hash is a 32-bit `Int` |
| FirName.HashCode | compiler/fir/cones/src/org/jetbrains/kotlin/fir/names/FirName.kt:32-36 | the name hash is a 32-bit `Int` |
| FirName.EqualNamesHashEqually | compiler/fir/cones/src/org/jetbrains/kotlin/fir/names/FirName.kt:24-36 | names that are equal hash equally |
| FirName.SpecialFlagChangesHash | compiler/fir/cones/src/org/jetbrains/kotlin/fir/names/FirName.kt:34 | the same text as identifier and as special name hashes differently |
| FirName.CompareTo | compiler/fir/cones/src/org/jetbrains/kotlin/fir/names/FirName.kt:20 | `compareTo` ties exactly when the texts are equal |
| FirName.CompareToAntisymmetric | compiler/fir/cones/src/org/jetbrains/kotlin/fir/names/FirName.kt:20 | the ordering is antisymmetric |
| FirName.CompareToIgnoresSpecialFlag | compiler/fir/cones/src/org/jetbrains/kotlin/fir/names/FirName.kt:20-30 | an identifier and a special name with the same text tie under `compareTo` but are not equal |
| FirName.BuildCache | compiler/fir/cones/src/org/jetbrains/kotlin/fir/names/FirName.kt:126-130 | the cache has exactly the common names as keys, each the guess of its text |
| FirName.CachedIsGuess | compiler/fir/cones/src/org/jetbrains/kotlin/fir/names/FirName.kt:70-72 | `cached(n)` always equals `guessByFirstCharacter(n)` |
| FirFqName.SegmentsHash | compiler/fir/cones/src/org/jetbrains/kotlin/fir/names/FirFqName.kt:52-54 | the segments' fold is a 32-bit `Int`, 0 for no segments |
| FirFqName.SegmentStrings | compiler/fir/cones/src/org/jetbrains/kotlin/fir/names/FirFqName.kt:60 | the segments' texts, in order |
| FirFqName.FqName.constructor | compiler/fir/cones/src/org/jetbrains/kotlin/fir/names/FirFqName.kt:14-67 | a new name holds the given segments and nothing cached |
| FirFqName.FqName.Child | compiler/fir/cones/src/org/jetbrains/kotlin/fir/names/FirFqName.kt:18-26 | `child` is a fresh name with the new segment appended |
| FirFqName.FqName.Parent | compiler/fir/cones/src/org/jetbrains/kotlin/fir/names/FirFqName.kt:28-30 | `parent` throws exactly on the root, and otherwise drops the last segment |
| FirFqName.FqName.IsRoot | compiler/fir/cones/src/org/jetbrains/kotlin/fir/names/FirFqName.kt:34 | the root is the name without segments |
| FirFqName.FqName.ShortName | compiler/fir/cones/src/org/jetbrains/kotlin/fir/names/FirFqName.kt:36 | `shortName` is the last segment, and fails exactly on the root |
| FirFqName.FqName.Equals | compiler/fir/cones/src/org/jetbrains/kotlin/fir/names/FirFqName.kt:38-46 | the comparison from the last segment down answers true exactly when the segments are equal |
| FirFqName.FqName.HashCode | compiler/fir/cones/src/org/jetbrains/kotlin/fir/names/FirFqName.kt:48-57 | the hash is the fold of the segments; once cached non-zero it never changes |
| FirFqName.FqName.ToString | compiler/fir/cones/src/org/jetbrains/kotlin/fir/names/FirFqName.kt:59-61 | the root prints as "" and a one-segment name as its text |
| FirFqName.ChildThenParent | compiler/fir/cones/src/org/jetbrains/kotlin/fir/names/FirFqName.kt:24-36 | `child(n).parent()` has the original segments and `child(n).shortName()` is `n` |
| FirFqName.ToStringOfChild | compiler/fir/cones/src/org/jetbrains/kotlin/fir/names/FirFqName.kt:59-61 | a child prints as its parent, ".", then the short name |
| FirFqName.EqualSegmentsHashEqually | compiler/fir/cones/src/org/jetbrains/kotlin/fir/names/FirFqName.kt:38-57 | names whose segments are equal hash equally |
| Callables.ClassIdOf | compiler/fir/cones/src/org/jetbrains/kotlin/fir/symbols/Callables.kt:18 | `classId` exists exactly when there is a class name, and pairs the package with it |
| Callables.TopLevel | compiler/fir/cones/src/org/jetbrains/kotlin/fir/symbols/Callables.kt:20 | the two-argument constructor gives a top-level callable without a class id |
| Callables.Local | compiler/fir/cones/src/org/jetbrains/kotlin/fir/symbols/Callables.kt:22-23 | the one-argument constructor puts the callable in the local package, without a class |
| Callables.PackagePath | compiler/fir/cones/src/org/jetbrains/kotlin/fir/symbols/Callables.kt:28 | the package path has no '.', every dot having become '/' |
| Callables.ToString | compiler/fir/cones/src/org/jetbrains/kotlin/fir/symbols/Callables.kt:26-36 | the string is the package path, "/", then "Class." when there is a class, then the callable name |
| Callables.ToStringSeparatesCallables | compiler/fir/cones/src/org/jetbrains/kotlin/fir/symbols/Callables.kt:26-36 | within one package and class, equal strings mean equal callable names |
| Callables.TopLevelStringHasNoDot | compiler/fir/cones/src/org/jetbrains/kotlin/fir/symbols/Callables.kt:26-36 | a top-level callable's string has no '.' when its name has none |
| FirScope.Not | compiler/fir/tree/src/org/jetbrains/kotlin/fir/scopes/FirScope.kt:58-63 | `!action` is true exactly for `STOP` |
| FirScope.StopAndNextPartition | compiler/fir/tree/src/org/jetbrains/kotlin/fir/scopes/FirScope.kt:58-66 | every action is exactly one of `stop()` and `next()`, and `!` agrees with `stop()` |
| FirScope.ProcessClassifiersByNameWithAction | compiler/fir/tree/src/org/jetbrains/kotlin/fir/scopes/FirScope.kt:38-47 | the wrapper answers `NEXT` exactly when the Boolean scope answers true for the callback `processor(it).next()` |
| FirScope.DefaultProcessClassifiers | compiler/fir/tree/src/org/jetbrains/kotlin/fir/scopes/FirScope.kt:20-24 | the default classifier lookup answers true |
| FirScope.DefaultProcessByName | compiler/fir/tree/src/org/jetbrains/kotlin/fir/scopes/FirScope.kt:26-34 | the default function and property lookups answer `NEXT` |
| FirScope.DefaultScopeGoesOn | compiler/fir/tree/src/org/jetbrains/kotlin/fir/scopes/FirScope.kt:20-47 | over the default scope the wrapper always answers `NEXT` |
| FirScope.ListScopeStopsIffProcessorStops | compiler/fir/tree/src/org/jetbrains/kotlin/fir/scopes/FirScope.kt:38-47 | over a scope that stops at the first false callback, the wrapper answers `STOP` exactly when the processor stops at some symbol |
| FirScope.ListProcessIsForall | compiler/fir/tree/src/org/jetbrains/kotlin/fir/scopes/FirScope.kt:20-24 | a scope that stops at the first false callback answers true exactly when every callback is true |
| StandardClassIds.BaseId | compiler/fir/cones/src/org/jetbrains/kotlin/fir/symbols/StandardClassIds.kt:15 | a base id is in package "kotlin" with the name as its short name |
| StandardClassIds.ByName | compiler/fir/cones/src/org/jetbrains/kotlin/fir/symbols/StandardClassIds.kt:36 | `byName` is the class of that name in package "kotlin" |
| StandardClassIds.ArrayId | compiler/fir/cones/src/org/jetbrains/kotlin/fir/symbols/StandardClassIds.kt:16 | `arrayId` throws exactly for a special name, and otherwise is `<name>Array` in `Array`'s package |
| StandardClassIds.ArrayOfBase | compiler/fir/cones/src/org/jetbrains/kotlin/fir/symbols/StandardClassIds.kt:39-41 | `addPrimitive` maps a base id to the array id of its short name |
| StandardClassIds.PutAll | compiler/fir/cones/src/org/jetbrains/kotlin/fir/symbols/StandardClassIds.kt:38-51 | the map's keys are exactly the base ids of the primitives, each mapped to its array id |
| StandardClassIds.Invert | compiler/fir/cones/src/org/jetbrains/kotlin/fir/symbols/StandardClassIds.kt:53 | the turned-around map's keys are exactly the array ids, each mapped back to its base id |
| StandardClassIds.AllInKotlinPackage | compiler/fir/cones/src/org/jetbrains/kotlin/fir/symbols/StandardClassIds.kt:38-51 | every key and value of `primitiveArrayTypeByElementType` is in package "kotlin" |
| StandardClassIds.PrimitiveArrayNames | compiler/fir/cones/src/org/jetbrains/kotlin/fir/symbols/StandardClassIds.kt:38-51 | each primitive maps to `<Name>Array` |
| StandardClassIds.MapsAreInverse | compiler/fir/cones/src/org/jetbrains/kotlin/fir/symbols/StandardClassIds.kt:38-53 | `primitiveArrayTypeByElementType` and `elementTypeByPrimitiveArrayType` are inverse to each other |
| StandardClassIds.EightEntries | compiler/fir/cones/src/org/jetbrains/kotlin/fir/symbols/StandardClassIds.kt:38-53 | both maps have exactly eight entries, so no `toMap` entry is lost |
| StandardClassIds.BaseIdInjective | compiler/fir/cones/src/org/jetbrains/kotlin/fir/symbols/StandardClassIds.kt:15 | distinct names give distinct base ids |
| StandardClassIds.ArrayOfBaseInjective | compiler/fir/cones/src/org/jetbrains/kotlin/fir/symbols/StandardClassIds.kt:16 | distinct names give distinct array ids |
| StandardClassIds.ArrayOfBaseIsInjective | compiler/fir/cones/src/org/jetbrains/kotlin/fir/symbols/StandardClassIds.kt:16 | equal array ids come from equal element names |
| Nullability.FromArgument | compiler/fir/java/src/org/jetbrains/kotlin/fir/java/enhancement/nullabilityUtils.kt:74-85 | `@Nonnull` without argument or with `ALWAYS` is not-null, `MAYBE`/`NEVER` nullable, `UNKNOWN` flexible, and any other argument gives nothing; none is for warnings only |
| Nullability.FromKnownAnnotations | compiler/fir/java/src/org/jetbrains/kotlin/fir/java/enhancement/nullabilityUtils.kt:46-72 | no resolved name gives nothing; a nullable name gives nullable before a not-null name gives not-null; only the androidx names are for warnings only; with compatqual disabled, an unlisted name gives nothing; for a name in neither list, javax `Nonnull` reads the annotation's argument, then an enabled compatqual name gives nullable or not-null, then an androidx name gives not-null or nullable for warnings only |
| Nullability.ExtractNullability | compiler/fir/java/src/org/jetbrains/kotlin/fir/java/enhancement/nullabilityUtils.kt:26-40 | a known annotation answers directly; otherwise the type-qualifier annotation answers exactly when it resolves, is not ignored and is known, with the warning flag of the report level |
| Nullability.ExtractNullabilityOfList | compiler/fir/java/src/org/jetbrains/kotlin/fir/java/enhancement/nullabilityUtils.kt:17-23 | the list's answer is the first annotation's non-null answer, and null exactly when none gives one |
| Nullability.FirstOfRest | compiler/fir/java/src/org/jetbrains/kotlin/fir/java/enhancement/nullabilityUtils.kt:21 | an annotation that answers nothing passes the search to the rest |
| Nullability.NullableComesFromNullableNames | compiler/fir/java/src/org/jetbrains/kotlin/fir/java/enhancement/nullabilityUtils.kt:46-85 | a nullable answer comes only from a nullable name, an enabled compatqual nullable name, the androidx nullable name, or `@Nonnull(MAYBE or NEVER)` |
| JvmMappedScope.IsEmptyIffBothEmpty | compiler/fir/jvm/src/org/jetbrains/kotlin/fir/scopes/jvm/JvmMappedScope.kt:65-68 | `isEmpty` holds exactly when both tables are empty, and `isNotEmpty` is its negation |
| JvmMappedScope.ReplaceAllWithoutOccurrence | compiler/fir/jvm/src/org/jetbrains/kotlin/fir/scopes/jvm/JvmMappedScope.kt:28-30 | `replace` leaves a string without the target unchanged |
| JvmMappedScope.ReplaceAllFirstOccurrence | compiler/fir/jvm/src/org/jetbrains/kotlin/fir/scopes/jvm/JvmMappedScope.kt:28-30 | `replace` substitutes the replacement for the first occurrence of the target and goes on scanning after it |
| JvmMappedScope.NormalizedSignatureOfAnyType | compiler/fir/jvm/src/org/jetbrains/kotlin/fir/scopes/jvm/JvmMappedScope.kt:28-30 | a descriptor holding `kotlin/Any` once and no other 'k' is normalised with `java/lang/Object` in its place, so `(Lkotlin/Any;)Z` becomes `(Ljava/lang/Object;)Z` |
| JvmMappedScope.NormalizedSignatureOfJavaDescriptor | compiler/fir/jvm/src/org/jetbrains/kotlin/fir/scopes/jvm/JvmMappedScope.kt:28-30 | a descriptor already in Java terms is unchanged by the normalisation |
| JvmMappedScope.Filter | compiler/fir/jvm/src/org/jetbrains/kotlin/fir/scopes/jvm/JvmMappedScope.kt:31-33 | the filter keeps exactly the symbols that pass |
| JvmMappedScope.ProcessFunctionsByName | compiler/fir/jvm/src/org/jetbrains/kotlin/fir/scopes/jvm/JvmMappedScope.kt:24-38 | without white-listed signatures for the name only the declared functions are processed; with them, the Java functions whose normalised signature is listed come first, then the declared ones |
| JvmMappedScope.ProcessDeclaredConstructors | compiler/fir/jvm/src/org/jetbrains/kotlin/fir/scopes/jvm/JvmMappedScope.kt:40-54 | with an empty black list only the declared constructors; otherwise the Java constructors not black-listed come first, then the declared ones |
| JvmMappedScope.ProcessPropertiesByName | compiler/fir/jvm/src/org/jetbrains/kotlin/fir/scopes/jvm/JvmMappedScope.kt:56-62 | properties and classifiers come from the declared scope only |
| JvmMappedScope.StripPrefix | compiler/fir/jvm/src/org/jetbrains/kotlin/fir/scopes/jvm/JvmMappedScope.kt:73-84 | the stage throws exactly when a listed signature equals the prefix, and otherwise yields the text after the prefix and one more character |
| JvmMappedScope.GroupByNameMembership | compiler/fir/jvm/src/org/jetbrains/kotlin/fir/scopes/jvm/JvmMappedScope.kt:78-80 | the grouping's keys are exactly the names occurring, each holding exactly the signatures of that name |
| JvmMappedScope.GroupByNameStep | compiler/fir/jvm/src/org/jetbrains/kotlin/fir/scopes/jvm/JvmMappedScope.kt:79 | one more signature regroups as one more `getOrPut(...).add(it)` |
| JvmMappedScope.GroupSignatures | compiler/fir/jvm/src/org/jetbrains/kotlin/fir/scopes/jvm/JvmMappedScope.kt:78-80 | the loop builds exactly the grouping |
| JvmMappedScope.PrepareSignatures | compiler/fir/jvm/src/org/jetbrains/kotlin/fir/scopes/jvm/JvmMappedScope.kt:70-86 | `prepareSignatures` throws exactly when a list holds the prefix itself; otherwise the white list is grouped by name and the black list holds exactly the stripped constructor signatures |
| KonanLibrary.IsInterop | konan/library-reader/src/org/jetbrains/kotlin/konan/library/KonanLibraryForIde.kt:19-20 | `isInterop` holds exactly when the property is present and is "true" |
| KonanLibrary.CleanMembership | konan/library-reader/src/org/jetbrains/kotlin/konan/library/KonanLibraryForIde.kt:24-26 | the tokens are exactly the non-empty trimmed pieces |
| KonanLibrary.ExportForwardDeclarations | konan/library-reader/src/org/jetbrains/kotlin/konan/library/KonanLibraryForIde.kt:22-27 | the property's absence throws; otherwise the result is the property's value split at spaces with empty tokens dropped, and every token is non-empty, free of spaces and trimmed |
| KonanLibrary.TokensHaveNoSpace | konan/library-reader/src/org/jetbrains/kotlin/konan/library/KonanLibraryForIde.kt:24-26 | no token has a space, and none starts or ends with whitespace |
| KonanLibrary.PiecesJoinBack | konan/library-reader/src/org/jetbrains/kotlin/konan/library/KonanLibraryForIde.kt:24 | `split(' ')` loses nothing: the pieces joined by single spaces give the value back |
| KonanLibrary.CleanConcat | konan/library-reader/src/org/jetbrains/kotlin/konan/library/KonanLibraryForIde.kt:25-26 | the trim-and-filter stage works piece by piece |
| KonanLibrary.TokensConcat | konan/library-reader/src/org/jetbrains/kotlin/konan/library/KonanLibraryForIde.kt:22-27 | the tokens of `a + " " + b` are those of `a` followed by those of `b` |
| KonanLibrary.LeadingSpaceGivesNoEntry | konan/library-reader/src/org/jetbrains/kotlin/konan/library/KonanLibraryForIde.kt:24-26 | a leading space produces no entry |
| KonanLibrary.TrailingSpaceGivesNoEntry | konan/library-reader/src/org/jetbrains/kotlin/konan/library/KonanLibraryForIde.kt:24-26 | a trailing space produces no entry |
| KonanLibrary.DoubledSpaceGivesNoEntry | konan/library-reader/src/org/jetbrains/kotlin/konan/library/KonanLibraryForIde.kt:24-26 | a doubled space produces no entry |
| KonanLibrary.EmptyHasNoToken | konan/library-reader/src/org/jetbrains/kotlin/konan/library/KonanLibraryForIde.kt:24-26 | an empty value has no token |
| KonanLibrary.SingleWord | konan/library-reader/src/org/jetbrains/kotlin/konan/library/KonanLibraryForIde.kt:24-26 | a word without whitespace is the one token |
| DecompilerUtils.PresentFlags | compiler/decompiler/src/org/jetbrains/kotlin/decompiler/util/Utils.kt:111-112 | the flags kept are exactly the present, non-empty ones, never more than were given |
| DecompilerUtils.ConcatenateNonEmptyWithSpace | compiler/decompiler/src/org/jetbrains/kotlin/decompiler/util/Utils.kt:110-118 | the text is empty exactly when no flag is present and non-empty |
| DecompilerUtils.AbsentOrEmptyFlagIsSkipped | compiler/decompiler/src/org/jetbrains/kotlin/decompiler/util/Utils.kt:111-112 | a null or empty flag does not change the joined text |
| DecompilerUtils.PresentFlagIsAppended | compiler/decompiler/src/org/jetbrains/kotlin/decompiler/util/Utils.kt:114-117 | a further present flag is appended after a single space, or stands alone when nothing came before |
| DecompilerUtils.SingleFlag | compiler/decompiler/src/org/jetbrains/kotlin/decompiler/util/Utils.kt:110-118 | one present flag is the whole text, with no separator |
| DecompilerUtils.PrependFlag | compiler/decompiler/src/org/jetbrains/kotlin/decompiler/util/Utils.kt:110-118 | a flag in front of flags that render adds itself and exactly one space in front of their text |
| DecompilerUtils.PresentFlagsPrepend | compiler/decompiler/src/org/jetbrains/kotlin/decompiler/util/Utils.kt:111-112 | filtering keeps the order of the flags: a leading present flag comes first |
| DecompilerUtils.ObtainVariableFlags | compiler/decompiler/src/org/jetbrains/kotlin/decompiler/util/Utils.kt:382-387 | variable flags read "const ", then "lateinit ", then exactly one of "var" or "val" |
| DecompilerUtils.ObtainPropertyFlags | compiler/decompiler/src/org/jetbrains/kotlin/decompiler/util/Utils.kt:389-395 | property flags read "external " when external, followed by the variable flags |
| DecompilerUtils.ObtainVisibility | compiler/decompiler/src/org/jetbrains/kotlin/decompiler/util/Utils.kt:306-310 | public and local declarations have no visibility text; every other visibility is its name in lower case |
| DecompilerUtils.ObtainTypeParameters | compiler/decompiler/src/org/jetbrains/kotlin/decompiler/util/Utils.kt:405-411 | no type parameters give the empty text |
| DecompilerUtils.TypeParametersInAngleBrackets | compiler/decompiler/src/org/jetbrains/kotlin/decompiler/util/Utils.kt:405-411 | type parameters are joined by ", " inside angle brackets, and the trim cuts nothing |
| DecompilerUtils.TypeArgumentsText | compiler/decompiler/src/org/jetbrains/kotlin/decompiler/util/Utils.kt:176-178 | the type-argument text is empty exactly when there are no type arguments, and otherwise is bracketed by '<' and '>' |
| DecompilerUtils.NullableTexts | compiler/decompiler/src/org/jetbrains/kotlin/decompiler/util/Utils.kt:176-177 | each type argument keeps its position; an absent one is written "null" |
| DecompilerUtils.PresentTexts | compiler/decompiler/src/org/jetbrains/kotlin/decompiler/util/Utils.kt:204-206 | the present arguments' texts in order; when all are present, one text per argument |
| DecompilerUtils.CountPresent | compiler/decompiler/src/org/jetbrains/kotlin/decompiler/util/Utils.kt:186 | the number of non-null arguments equals the argument count exactly when all arguments are given |
| DecompilerUtils.NamedArgumentsStep | compiler/decompiler/src/org/jetbrains/kotlin/decompiler/util/Utils.kt:188-192 | one more argument adds its "name = value" entry exactly when it is present |
| DecompilerUtils.CollectNamedArguments | compiler/decompiler/src/org/jetbrains/kotlin/decompiler/util/Utils.kt:187-193 | the loop collects the named entries of the present arguments, in parameter order |
| DecompilerUtils.ObtainNameWithArgs | compiler/decompiler/src/org/jetbrains/kotlin/decompiler/util/Utils.kt:175-208 | the call text is the callee's name, its type arguments and its value-argument part |
| DecompilerUtils.NamedArgumentsOfPresent | compiler/decompiler/src/org/jetbrains/kotlin/decompiler/util/Utils.kt:186-193 | there is one named entry per present argument, each its parameter's name, " = " and the argument's text, and no other |
| DecompilerUtils.AllArgumentsPresent | compiler/decompiler/src/org/jetbrains/kotlin/decompiler/util/Utils.kt:194-207 | with every argument given, a single lambda argument is written alone and otherwise the texts go in parentheses |
| DecompilerUtils.SomeArgumentAbsent | compiler/decompiler/src/org/jetbrains/kotlin/decompiler/util/Utils.kt:186-193 | one defaulted argument makes the call use named arguments for every argument that is given |
| DecompilerUtils.LineEnd | compiler/decompiler/src/org/jetbrains/kotlin/decompiler/util/Utils.kt:266 | the position found is the first line terminator at or after the start, or the end of the text |
| DecompilerUtils.LastGreater | compiler/decompiler/src/org/jetbrains/kotlin/decompiler/util/Utils.kt:266 | the greedy group ends at the last '>' of the searched range, or nowhere when it holds none |
| DecompilerUtils.ObtainGetPropertyCall | compiler/decompiler/src/org/jetbrains/kotlin/decompiler/util/Utils.kt:264-271 | a receiver comes first followed by "."; without one the text is the matched property name, or "null" when the name does not match |
| DecompilerUtils.GetPropertyOfGetterName | compiler/decompiler/src/org/jetbrains/kotlin/decompiler/util/Utils.kt:264-271 | a getter named "<get-p>" gives back the property name p, after the receiver and "." when there is one |
| DecompilerUtils.NoGetterWithoutPrefix | compiler/decompiler/src/org/jetbrains/kotlin/decompiler/util/Utils.kt:266-268 | a name with no "<get-" in it yields no group |
| MagicBoxInfo.WordSegments | compiler/decompiler/src/org/jetbrains/kotlin/decompiler/util/magicbox/info/DeclarationReferenceInfo.kt:28 | a segment is kept exactly when it is one of the pieces and is a whole word of `\w` characters; all-word pieces are kept as they are |
| MagicBoxInfo.ImportPath | compiler/decompiler/src/org/jetbrains/kotlin/decompiler/util/magicbox/info/DeclarationReferenceInfo.kt:24-30 | the import path starts with the package when it is known, then only word segments; without an fq-name it is the package alone |
| MagicBoxInfo.ImportPathOfNestedClass | compiler/decompiler/src/org/jetbrains/kotlin/decompiler/util/magicbox/info/TypeInfo.kt:30-35 | a class "pkg.A.B" imports as the package followed by its class-name chain |
| MagicBoxInfo.RemovePackagePrefix | compiler/decompiler/src/org/jetbrains/kotlin/decompiler/util/magicbox/info/DeclarationReferenceInfo.kt:28 | removing "pkg." from "pkg.rest" leaves "rest" |
| MagicBoxInfo.SplitNestedChain | compiler/decompiler/src/org/jetbrains/kotlin/decompiler/util/magicbox/info/DeclarationReferenceInfo.kt:28 | splitting a dot-joined chain of words gives back the chain |
| MagicBoxInfo.TypeClassImportPath | compiler/decompiler/src/org/jetbrains/kotlin/decompiler/util/magicbox/info/TypeClassInfo.kt:24-34 | the import path starts with the package when it is known, then only word segments |
| MagicBoxInfo.TypeClassSuffixIsNeverRemoved | compiler/decompiler/src/org/jetbrains/kotlin/decompiler/util/magicbox/info/TypeClassInfo.kt:27-33 | the ".name" suffix removal never applies to a class inside its package: its own name stays in the import path |
| MagicBoxInfo.ObtainNestedName | compiler/decompiler/src/org/jetbrains/kotlin/decompiler/util/magicbox/info/TypeInfo.kt:38-48 | the loop prefixes each enclosing class, so the name is the enclosing classes outermost first and then the class, joined with "." |
| MagicBoxInfo.NestedNameSplitsBack | compiler/decompiler/src/org/jetbrains/kotlin/decompiler/util/magicbox/info/DeclarationReferenceInfo.kt:37-45 | the nested name splits back into the enclosing classes and the class's own name; a top-level class is its plain name |
| MagicBoxInfo.ReferenceImportPath | compiler/decompiler/src/org/jetbrains/kotlin/decompiler/util/magicbox/info/DeclarationReferenceInfo.kt:24-30 | a reference whose owner has no name imports nothing |
| MagicBoxInfo.ReferenceDefaultName | compiler/decompiler/src/org/jetbrains/kotlin/decompiler/util/magicbox/info/DeclarationReferenceInfo.kt:32-57 | constructors name their class, enum entries and type aliases their own name, classes their nested name, functions and properties their name only when top-level or in a companion; every other owner fails |
| MagicBoxInfo.MemberName | compiler/decompiler/src/org/jetbrains/kotlin/decompiler/util/magicbox/info/DeclarationReferenceInfo.kt:48-54 | a function or property has a name exactly when its parent is a file or a companion object, and then it is its own name |
| MagicBoxInfo.DeclarationReferenceInfoOf | compiler/decompiler/src/org/jetbrains/kotlin/decompiler/util/magicbox/info/DeclarationReferenceInfo.kt:18-21 | construction fails exactly when the name cannot be computed; otherwise the fields are the inputs, the import path and the default name |
| MagicBoxInfo.NewDeclarationReferenceInfo | compiler/decompiler/src/org/jetbrains/kotlin/decompiler/util/magicbox/info/DeclarationReferenceInfo.kt:18-57 | the constructor with its loop builds the same info as the field initialisers describe |
| MagicBoxInfo.TypeImportPath | compiler/decompiler/src/org/jetbrains/kotlin/decompiler/util/magicbox/info/TypeInfo.kt:30-35 | a type without a class imports nothing |
| MagicBoxInfo.TypeDefaultName | compiler/decompiler/src/org/jetbrains/kotlin/decompiler/util/magicbox/info/TypeInfo.kt:38-48 | the name fails exactly for a type without a class, and is otherwise the class's nested name |
| MagicBoxInfo.TypeInfoOf | compiler/decompiler/src/org/jetbrains/kotlin/decompiler/util/magicbox/info/TypeInfo.kt:25-27 | construction fails exactly for a type without a class; otherwise the fields are the inputs, the import path and the nested name |
| MagicBoxInfo.NewTypeInfo | compiler/decompiler/src/org/jetbrains/kotlin/decompiler/util/magicbox/info/TypeInfo.kt:25-48 | the constructor with its loop builds the same info as the field initialisers describe |
| MagicBoxInfo.TypeClassImportPathOf | compiler/decompiler/src/org/jetbrains/kotlin/decompiler/util/magicbox/info/TypeClassInfo.kt:24-34 | a type without a class imports nothing |
| MagicBoxInfo.TypeClassInfoOf | compiler/decompiler/src/org/jetbrains/kotlin/decompiler/util/magicbox/info/TypeClassInfo.kt:19-21 | construction fails exactly for a type without a class; otherwise the fields are the inputs, the import path and the nested name |
| MagicBoxInfo.NewTypeClassInfo | compiler/decompiler/src/org/jetbrains/kotlin/decompiler/util/magicbox/info/TypeClassInfo.kt:19-46 | the constructor with its loop builds the same info as the field initialisers describe |
| MagicBox.ScopeKeysCollide | compiler/decompiler/src/org/jetbrains/kotlin/decompiler/util/magicbox/MagicBoxImpl.kt:131-137 | two different scope lists can be stored under the same joined key, so a lookup must compare the scope list as well |
| MagicBox.AddToValueSet | compiler/decompiler/src/org/jetbrains/kotlin/decompiler/util/magicbox/MagicBoxImpl.kt:131-137 | a new key gets a singleton set, an existing key gets one more element, and every other key keeps its set |
| MagicBox.AddToValueSeq | compiler/decompiler/src/org/jetbrains/kotlin/decompiler/util/magicbox/MagicBoxImpl.kt:131-137 | a new key gets a one-element sequence, an existing key gets the element appended, and every other key is unchanged |
| MagicBox.FindFirst | compiler/decompiler/src/org/jetbrains/kotlin/decompiler/util/magicbox/MagicBoxImpl.kt:55 | the index found is the first one whose element satisfies the predicate, and none is found exactly when no element does |
| MagicBox.ReferenceDescription | compiler/decompiler/src/org/jetbrains/kotlin/decompiler/util/magicbox/MagicBoxImpl.kt:52-57 | a description exists exactly when the scope's key is stored and holds an info for that reference and that scope list; it is that info's name |
| MagicBox.TypeDescription | compiler/decompiler/src/org/jetbrains/kotlin/decompiler/util/magicbox/MagicBoxImpl.kt:87-90 | a description exists exactly when the scope's key is stored and holds an info for that type and that scope list; it is that info's name |
| MagicBox.FilterImportsSpec | compiler/decompiler/src/org/jetbrains/kotlin/decompiler/util/magicbox/MagicBoxImpl.kt:82-83 | the filter keeps exactly the non-empty imports not starting with "kotlin", and keeps a sorted list sorted |
| MagicBox.ImportList | compiler/decompiler/src/org/jetbrains/kotlin/decompiler/util/magicbox/MagicBoxImpl.kt:59-83 | the imports are in strictly ascending order, and each is kept by the filter and is not a local declaration |
| MagicBox.ImportListSpec | compiler/decompiler/src/org/jetbrains/kotlin/decompiler/util/magicbox/MagicBoxImpl.kt:59-83 | the imports are sorted without repeats and are exactly the joined import paths of at least two parts that are not local declarations, are non-empty and do not start with "kotlin" |
| MagicBox.ImportText | compiler/decompiler/src/org/jetbrains/kotlin/decompiler/util/magicbox/MagicBoxImpl.kt:84 | the import block starts and ends with a line break, and is "\n\n" when there is nothing to import |
| MagicBox.ImportTextOfOne | compiler/decompiler/src/org/jetbrains/kotlin/decompiler/util/magicbox/MagicBoxImpl.kt:84 | one import is written as "import x" on its own line |
| MagicBox.ReferenceDescriptionAfterPut | compiler/decompiler/src/org/jetbrains/kotlin/decompiler/util/magicbox/MagicBoxImpl.kt:38-57 | after a reference is put under a scope, asking for it under that scope gives its default name, and the table stays consistent |
| MagicBox.TypeDescriptionAfterPut | compiler/decompiler/src/org/jetbrains/kotlin/decompiler/util/magicbox/MagicBoxImpl.kt:44-90 | after a type is put under a scope, asking for it under that scope gives its nested name, and the table stays consistent |
| MagicBox.MagicBoxImpl.constructor | compiler/decompiler/src/org/jetbrains/kotlin/decompiler/util/magicbox/MagicBoxImpl.kt:20-23 | all three tables start empty and the state is fresh |
| MagicBox.MagicBoxImpl.PutDeclarationWithName | compiler/decompiler/src/org/jetbrains/kotlin/decompiler/util/magicbox/MagicBoxImpl.kt:32-36 | the declaration is added under its scope's key, the other tables are unchanged and the state is stale |
| MagicBox.MagicBoxImpl.PutCalledDeclarationReferenceWithScope | compiler/decompiler/src/org/jetbrains/kotlin/decompiler/util/magicbox/MagicBoxImpl.kt:38-42 | the reference's info is added under its scope's key and the state is stale; when the info cannot be built the call fails and nothing changes |
| MagicBox.MagicBoxImpl.PutExplicitTypeWithScope | compiler/decompiler/src/org/jetbrains/kotlin/decompiler/util/magicbox/MagicBoxImpl.kt:44-50 | a KClass type changes nothing; any other type's info is added under its scope's key and the state goes stale, and a type without a class fails with nothing changed |
| MagicBox.MagicBoxImpl.RefreshState | compiler/decompiler/src/org/jetbrains/kotlin/decompiler/util/magicbox/MagicBoxImpl.kt:92-96 | the state is fresh again and the tables are unchanged |
| MagicBox.MagicBoxImpl.ObtainDeclarationReferenceDescription | compiler/decompiler/src/org/jetbrains/kotlin/decompiler/util/magicbox/MagicBoxImpl.kt:52-57 | the state is fresh afterwards and the result is the stored reference's description, an error when it is missing |
| MagicBox.MagicBoxImpl.ObtainTypeDescriptionForScope | compiler/decompiler/src/org/jetbrains/kotlin/decompiler/util/magicbox/MagicBoxImpl.kt:87-90 | the state is fresh afterwards and the result is the stored type's description, an error when it is missing |
| MagicBox.MagicBoxImpl.ObtainImportStatementsList | compiler/decompiler/src/org/jetbrains/kotlin/decompiler/util/magicbox/MagicBoxImpl.kt:59-85 | the state is fresh afterwards and the result is the import block of the stored references minus the local declarations |
| DecompilerCalls.UnaryOperator | libraries/tools/kotlin-decompiler/src/org/jetbrains/kotlin/decompiler/tree/expressions/DecompilerTreeCalls.kt:169-174 | exactly the four unary origins have an operator text, of one or two characters |
| DecompilerCalls.BinaryOperator | libraries/tools/kotlin-decompiler/src/org/jetbrains/kotlin/decompiler/tree/expressions/DecompilerTreeCalls.kt:217-238 | exactly the twenty binary origins have an operator text; each compound assignment's ends in '=' |
| DecompilerCalls.BuildCall | libraries/tools/kotlin-decompiler/src/org/jetbrains/kotlin/decompiler/tree/expressions/DecompilerTreeCalls.kt:26-82 | each origin picks its node kind in the order of the branches; the when-subject flag reaches only the binary and `in` nodes; infix and named calls are chosen only without an operator origin |
| DecompilerCalls.OperatorTablesDisjoint | libraries/tools/kotlin-decompiler/src/org/jetbrains/kotlin/decompiler/tree/expressions/DecompilerTreeCalls.kt:35-48 | no origin is both unary and binary, and neither table holds one of the later branches' origins, so the branch order decides nothing |
| DecompilerCalls.InfixOnlyWithoutOperatorOrigin | libraries/tools/kotlin-decompiler/src/org/jetbrains/kotlin/decompiler/tree/expressions/DecompilerTreeCalls.kt:74-81 | whether the callee is infix matters only for a call without an operator origin |
| DecompilerCalls.GetOrNull | libraries/tools/kotlin-decompiler/src/org/jetbrains/kotlin/decompiler/tree/expressions/DecompilerTreeCalls.kt:139-144 | an element is found exactly when the index is in range, and it is the one at that index |
| DecompilerCalls.OperandPositions | libraries/tools/kotlin-decompiler/src/org/jetbrains/kotlin/decompiler/tree/expressions/DecompilerTreeCalls.kt:138-144 | with a receiver, the receiver is the left operand and the first argument the right one; without one, the first two arguments are |
| DecompilerCalls.OperandsAreDistinctSlots | libraries/tools/kotlin-decompiler/src/org/jetbrains/kotlin/decompiler/tree/expressions/DecompilerTreeCalls.kt:138-144 | without receivers, the left and right operands are the first and the second argument |
| DecompilerCalls.WithoutBracketsOfBracketed | libraries/tools/kotlin-decompiler/src/org/jetbrains/kotlin/decompiler/tree/expressions/DecompilerTreeCalls.kt:122 | a bracketed name loses exactly its two brackets |
| DecompilerCalls.Bracketed | libraries/tools/kotlin-decompiler/src/org/jetbrains/kotlin/decompiler/tree/DecompilerTreeContainers.kt:42 | a bracketed text exists exactly when there are items, and between its brackets it is the items joined by ", " |
| DecompilerCalls.ValueArgumentsInsideParentheses | libraries/tools/kotlin-decompiler/src/org/jetbrains/kotlin/decompiler/tree/expressions/DecompilerTreeExpression.kt:27-31 | there is a parenthesised text exactly when there are arguments, and it is '(', the arguments joined by ", ", then ')' |
| DecompilerCalls.TypeArgumentsForPrint | libraries/tools/kotlin-decompiler/src/org/jetbrains/kotlin/decompiler/tree/DecompilerTreeContainers.kt:41-42 | there is a bracketed text exactly when there are type arguments, and it is '<', the type arguments joined by ", ", then '>' |
| DecompilerCalls.CallString | libraries/tools/kotlin-decompiler/src/org/jetbrains/kotlin/decompiler/tree/expressions/DecompilerTreeCalls.kt:95-99 | the call string starts with the callee's name and ends with ')' |
| DecompilerCalls.CallStringWithoutArguments | libraries/tools/kotlin-decompiler/src/org/jetbrains/kotlin/decompiler/tree/expressions/DecompilerTreeCalls.kt:95-99 | a call without arguments is its name followed by "()" |
| DecompilerCalls.ReceiverText | libraries/tools/kotlin-decompiler/src/org/jetbrains/kotlin/decompiler/tree/expressions/DecompilerTreeCalls.kt:102-104 | a super-qualified call prints "super<Q>", any other receiver loses its angle brackets |
| DecompilerCalls.NamedCallText | libraries/tools/kotlin-decompiler/src/org/jetbrains/kotlin/decompiler/tree/expressions/DecompilerTreeCalls.kt:94-109 | a dispatch receiver and the separator come first, else an extension receiver and ".", else nothing, then the call string |
| DecompilerCalls.NamedCallEndsWithCallString | libraries/tools/kotlin-decompiler/src/org/jetbrains/kotlin/decompiler/tree/expressions/DecompilerTreeCalls.kt:94-109 | every named call ends in its call string, whatever its receiver |
| DecompilerCalls.NamedCallNode.constructor | libraries/tools/kotlin-decompiler/src/org/jetbrains/kotlin/decompiler/tree/expressions/DecompilerTreeCalls.kt:84-92 | the node keeps the call's receivers and arguments, and its separator starts as "." |
| DecompilerCalls.NamedCallNode.Source | libraries/tools/kotlin-decompiler/src/org/jetbrains/kotlin/decompiler/tree/expressions/DecompilerTreeCalls.kt:94-109 | the node prints the named-call text of its current receivers, arguments and separator |
| DecompilerCalls.GetPropertyText | libraries/tools/kotlin-decompiler/src/org/jetbrains/kotlin/decompiler/tree/expressions/DecompilerTreeCalls.kt:124-130 | the getter's name without "<get-" and ">", after the receiver without brackets and "." when there is one |
| DecompilerCalls.GetPropertyOfGetter | libraries/tools/kotlin-decompiler/src/org/jetbrains/kotlin/decompiler/tree/expressions/DecompilerTreeCalls.kt:124-130 | the getter "<get-p>" on "<this>" prints "this.p", and without a receiver prints p |
| DecompilerCalls.UnaryText | libraries/tools/kotlin-decompiler/src/org/jetbrains/kotlin/decompiler/tree/expressions/DecompilerTreeCalls.kt:155-166 | the origin check fails exactly for a non-unary origin; "l!!" for a not-null assertion, the operator before l otherwise, nothing without an operand |
| DecompilerCalls.BinaryText | libraries/tools/kotlin-decompiler/src/org/jetbrains/kotlin/decompiler/tree/expressions/DecompilerTreeCalls.kt:187-214 | the origin check fails exactly for a non-binary origin; a shortened equality prints its right operand; `!=` and `!==` without value arguments print the left operand alone; any other non-assignment operator prints "l op r", or nothing when an operand is missing |
| DecompilerCalls.CompoundAssignmentToProperty | libraries/tools/kotlin-decompiler/src/org/jetbrains/kotlin/decompiler/tree/expressions/DecompilerTreeCalls.kt:190-198 | a compound assignment through a property accessor prints "p op= v", with v the first argument |
| DecompilerCalls.AssignmentText | libraries/tools/kotlin-decompiler/src/org/jetbrains/kotlin/decompiler/tree/expressions/DecompilerTreeCalls.kt:249-260 | the check fails exactly for a call that is not a default accessor; otherwise "recv.p = v", or "p = recv" when there is no right operand |
| DecompilerCalls.InOperands | libraries/tools/kotlin-decompiler/src/org/jetbrains/kotlin/decompiler/tree/expressions/DecompilerTreeCalls.kt:273-295 | the operands exist exactly when both the left and the right operand do |
| DecompilerCalls.InText | libraries/tools/kotlin-decompiler/src/org/jetbrains/kotlin/decompiler/tree/expressions/DecompilerTreeCalls.kt:271-277 | "e in c", or "in c" as a when branch; it fails exactly when an operand is missing |
| DecompilerCalls.NotInText | libraries/tools/kotlin-decompiler/src/org/jetbrains/kotlin/decompiler/tree/expressions/DecompilerTreeCalls.kt:287-298 | the receiver alone without arguments, else "e !in c"; it fails exactly when what it needs is missing |
| DecompilerCalls.InvokeText | libraries/tools/kotlin-decompiler/src/org/jetbrains/kotlin/decompiler/tree/expressions/DecompilerTreeCalls.kt:309-319 | the receiver followed by the arguments in parentheses, or "()"; it fails exactly when there is no receiver |
| DecompilerCalls.RangeText | libraries/tools/kotlin-decompiler/src/org/jetbrains/kotlin/decompiler/tree/expressions/DecompilerTreeCalls.kt:329-335 | "a..b" without brackets; it fails exactly when the dispatch receiver or the right operand is missing |
| DecompilerCalls.InfixText | libraries/tools/kotlin-decompiler/src/org/jetbrains/kotlin/decompiler/tree/expressions/DecompilerTreeCalls.kt:345-351 | "a name b" without brackets; it fails exactly when the extension receiver or the right operand is missing |
| DecompilerCalls.BuiltOperatorPassesCheck | libraries/tools/kotlin-decompiler/src/org/jetbrains/kotlin/decompiler/tree/expressions/DecompilerTreeCalls.kt:35-188 | a unary or binary node made by buildCall never fails its origin check |
| DecompilerCalls.ShortenedEqualityPrintsRightOperand | libraries/tools/kotlin-decompiler/src/org/jetbrains/kotlin/decompiler/tree/expressions/DecompilerTreeCalls.kt:47-204 | as a when-subject member, "x == c" prints just c |
| DecompilerCalls.EqualityPrintsBothOperands | libraries/tools/kotlin-decompiler/src/org/jetbrains/kotlin/decompiler/tree/expressions/DecompilerTreeCalls.kt:209-213 | outside a when subject, a == b prints with " == " between the operands |
| DecompilerCustom.ValueArgumentText | libraries/tools/kotlin-decompiler/src/org/jetbrains/kotlin/decompiler/tree/expressions/DecompilerTreeCustomExpression.kt:24-31 | an absent argument prints nothing; a present one prints its value, or "name = value" when printed with its parameter's name, which fails for a nameless parameter |
| DecompilerCustom.NamedArgumentEndsWithValue | libraries/tools/kotlin-decompiler/src/org/jetbrains/kotlin/decompiler/tree/expressions/DecompilerTreeCustomExpression.kt:27 | a named argument is the name, " = ", and then exactly the value |
| DecompilerCustom.PresentNames | libraries/tools/kotlin-decompiler/src/org/jetbrains/kotlin/decompiler/tree/expressions/DecompilerTreeCustomExpression.kt:52 | the names of the variables, skipping nameless ones; with all named, one name per variable in order |
| DecompilerCustom.DestructuringText | libraries/tools/kotlin-decompiler/src/org/jetbrains/kotlin/decompiler/tree/expressions/DecompilerTreeCustomExpression.kt:49-56 | the declaration fails exactly when the temporary has no initializer |
| DecompilerCustom.DestructuringShape | libraries/tools/kotlin-decompiler/src/org/jetbrains/kotlin/decompiler/tree/expressions/DecompilerTreeCustomExpression.kt:50-55 | the declaration reads "val (a, b, …) = init" over the named variables |
| DecompilerCustom.DestructuringOfTwo | libraries/tools/kotlin-decompiler/src/org/jetbrains/kotlin/decompiler/tree/expressions/DecompilerTreeCustomExpression.kt:50-55 | two named variables destructure as "val (a, b) = init" |
| DecompilerCustom.ElvisText | libraries/tools/kotlin-decompiler/src/org/jetbrains/kotlin/decompiler/tree/expressions/DecompilerTreeCustomExpression.kt:65-71 | "lhs ?: rhs" from the initializer and the first branch's result; nothing when either is missing; reading a first branch that does not exist fails |
| DecompilerCustom.SafeCallSource | libraries/tools/kotlin-decompiler/src/org/jetbrains/kotlin/decompiler/tree/expressions/DecompilerTreeCustomExpression.kt:81-90 | a named call in the second branch gets separator "?." and the initializer as its dispatch receiver, and is printed; another result prints nothing; without a second branch it fails |
| DecompilerCustom.SafeCallPrintsQuestionDot | libraries/tools/kotlin-decompiler/src/org/jetbrains/kotlin/decompiler/tree/expressions/DecompilerTreeCustomExpression.kt:81-90 | after the rewrite, a call f(…) on receiver x prints "x?.f(…)" |
| DecompilerCustom.IncDecText | libraries/tools/kotlin-decompiler/src/org/jetbrains/kotlin/decompiler/tree/expressions/DecompilerTreeCustomExpression.kt:101-109 | the operator "++" or "--" follows the operand when postfix and precedes it otherwise |
| PerFileAnalysisCache.ScannedLength | idea/idea-analysis/src/org/jetbrains/kotlin/idea/caches/resolve/PerFileAnalysisCache.kt:74-85 | the scan looks at elements up to and including the first modified named function, and at every element when there is none |
| PerFileAnalysisCache.LastCached | idea/idea-analysis/src/org/jetbrains/kotlin/idea/caches/resolve/PerFileAnalysisCache.kt:75-80 | the index found is the last cached one, and there is none exactly when no element is cached |
| PerFileAnalysisCache.LookUpResult | idea/idea-analysis/src/org/jetbrains/kotlin/idea/caches/resolve/PerFileAnalysisCache.kt:67-90 | the lookup misses exactly when no scanned element is cached |
| PerFileAnalysisCache.LastCachedStep | idea/idea-analysis/src/org/jetbrains/kotlin/idea/caches/resolve/PerFileAnalysisCache.kt:75-80 | one more element becomes the topmost cached one exactly when it is cached |
| PerFileAnalysisCache.ReachesFileFirstSpec | idea/idea-analysis/src/org/jetbrains/kotlin/idea/caches/resolve/PerFileAnalysisCache.kt:177-183 | a diagnostic is kept exactly when its parent walk meets a file before it meets the element |
| PerFileAnalysisCache.IsOutsideElement | idea/idea-analysis/src/org/jetbrains/kotlin/idea/caches/resolve/PerFileAnalysisCache.kt:175-184 | the loop over the parent walk keeps a diagnostic exactly when a file comes before the element |
| PerFileAnalysisCache.OutsideDiagnostics | idea/idea-analysis/src/org/jetbrains/kotlin/idea/caches/resolve/PerFileAnalysisCache.kt:171-185 | the copied parent diagnostics are exactly those whose walk reaches a file before the element |
| PerFileAnalysisCache.FilterOutside | idea/idea-analysis/src/org/jetbrains/kotlin/idea/caches/resolve/PerFileAnalysisCache.kt:174-184 | the filter loop returns those outside diagnostics, in their original order |
| PerFileAnalysisCache.MergedDepth | idea/idea-analysis/src/org/jetbrains/kotlin/idea/caches/resolve/PerFileAnalysisCache.kt:190-193 | the same element keeps the stacked parent's depth, another element adds one, and a plain parent gives depth one |
| PerFileAnalysisCache.MergedDepthBounds | idea/idea-analysis/src/org/jetbrains/kotlin/idea/caches/resolve/PerFileAnalysisCache.kt:190-193 | the merged depth is at least one and at most one more than a stacked parent's |
| PerFileAnalysisCache.Ctx | idea/idea-analysis/src/org/jetbrains/kotlin/idea/caches/resolve/PerFileAnalysisCache.kt:256-260 | no element gives no context; an element among the children goes to the element context, any other to the parent context |
| PerFileAnalysisCache.GetRouting | idea/idea-analysis/src/org/jetbrains/kotlin/idea/caches/resolve/PerFileAnalysisCache.kt:266-279 | a key with an element is answered by the context that element routes to; without one, the element context's answer wins and the parent context is asked otherwise |
| PerFileAnalysisCache.GetWithoutElementPrefersElementContext | idea/idea-analysis/src/org/jetbrains/kotlin/idea/caches/resolve/PerFileAnalysisCache.kt:277-278 | without an element, the first non-null answer wins, and there is none only when both delegates have none |
| PerFileAnalysisCache.ScanStep | idea/idea-analysis/src/org/jetbrains/kotlin/idea/caches/resolve/PerFileAnalysisCache.kt:74-85 | one step of the loop keeps the result, the removal set and the pending descendants in step with the elements seen |
| PerFileAnalysisCache.ScanComplete | idea/idea-analysis/src/org/jetbrains/kotlin/idea/caches/resolve/PerFileAnalysisCache.kt:74-87 | after the scan, the result is the lookup's answer and the removal set is the elements scanned below the topmost cached one |
| PerFileAnalysisCache.PerFileCache.constructor | idea/idea-analysis/src/org/jetbrains/kotlin/idea/caches/resolve/PerFileAnalysisCache.kt:65 | the cache starts empty |
| PerFileAnalysisCache.ScanChain | idea/idea-analysis/src/org/jetbrains/kotlin/idea/caches/resolve/PerFileAnalysisCache.kt:70-84 | the walk up `parentsWithSelf` yields the value of the topmost cached element scanned and queues exactly the scanned elements below it |
| PerFileAnalysisCache.PerFileCache.LookUp | idea/idea-analysis/src/org/jetbrains/kotlin/idea/caches/resolve/PerFileAnalysisCache.kt:67-90 | the answer is the value of the topmost cached scanned element, and exactly the scanned elements below it leave the cache |
| PerFileAnalysisCache.PerFileCache.MergeContexts | idea/idea-analysis/src/org/jetbrains/kotlin/idea/caches/resolve/PerFileAnalysisCache.kt:154-203 | a stacked parent for another element is dropped from the cache; the new context has the merged depth, the element, its children and this context; the same element reuses the parent's context and diagnostics, otherwise the outside diagnostics are copied; its diagnostics are the parent's followed by this context's |
| PerFileAnalysisCache.LastCachedIs | idea/idea-analysis/src/org/jetbrains/kotlin/idea/caches/resolve/PerFileAnalysisCache.kt:75-80 | a cached element with nothing cached above it is the topmost cached one |
| PerFileAnalysisCache.LookUpIsIdempotent | idea/idea-analysis/src/org/jetbrains/kotlin/idea/caches/resolve/PerFileAnalysisCache.kt:67-90 | along a chain without repeats, a second lookup returns the same value and removes nothing more |
| PerFileAnalysisCache.LookUpKeepsOthers | idea/idea-analysis/src/org/jetbrains/kotlin/idea/caches/resolve/PerFileAnalysisCache.kt:87 | a cached entry that was not scanned stays in the cache |
| PerFileAnalysisCache.LookUpMissRemovesNothing | idea/idea-analysis/src/org/jetbrains/kotlin/idea/caches/resolve/PerFileAnalysisCache.kt:67-90 | with nothing cached among the scanned elements, the lookup misses and the cache is unchanged |
| EvaluationStatus.BoolName | idea/jvm-debugger/jvm-debugger-evaluation/src/org/jetbrains/kotlin/idea/debugger/evaluate/EvaluationStatus.kt:18-20 | a flag is stored as "true" exactly when it is set and as "false" exactly when it is not |
| EvaluationStatus.EvaluatorTypeName | idea/jvm-debugger/jvm-debugger-evaluation/src/org/jetbrains/kotlin/idea/debugger/evaluate/EvaluationStatus.kt:35-37 | each evaluator type is stored under its own constant name, and no two share one |
| EvaluationStatus.LanguageName | idea/jvm-debugger/jvm-debugger-evaluation/src/org/jetbrains/kotlin/idea/debugger/evaluate/EvaluationStatus.kt:39-41 | each context language is stored under its own constant name, and no two share one |
| EvaluationStatus.FirstErrorWins | idea/jvm-debugger/jvm-debugger-evaluation/src/org/jetbrains/kotlin/idea/debugger/evaluate/EvaluationStatus.kt:12-16 | over any series of error reports, the status keeps the first error, and has none only when none was reported |
| EvaluationStatus.Status.constructor | idea/jvm-debugger/jvm-debugger-evaluation/src/org/jetbrains/kotlin/idea/debugger/evaluate/EvaluationStatus.kt:8-10 | a new status has no error and no values |
| EvaluationStatus.Status.Error | idea/jvm-debugger/jvm-debugger-evaluation/src/org/jetbrains/kotlin/idea/debugger/evaluate/EvaluationStatus.kt:12-16 | an error is recorded only when none was recorded before; the values are untouched |
| EvaluationStatus.Status.Flag | idea/jvm-debugger/jvm-debugger-evaluation/src/org/jetbrains/kotlin/idea/debugger/evaluate/EvaluationStatus.kt:18-20 | the flag's text replaces any earlier value under that name; the error is untouched |
| EvaluationStatus.Status.Value | idea/jvm-debugger/jvm-debugger-evaluation/src/org/jetbrains/kotlin/idea/debugger/evaluate/EvaluationStatus.kt:22-24 | the constant's name replaces any earlier value under that name; the error is untouched |
| EvaluationStatus.Status.Send | idea/jvm-debugger/jvm-debugger-evaluation/src/org/jetbrains/kotlin/idea/debugger/evaluate/EvaluationStatus.kt:26-33 | sending changes nothing |
| EvaluationStatus.Status.ClassLoadingFailed | idea/jvm-debugger/jvm-debugger-evaluation/src/org/jetbrains/kotlin/idea/debugger/evaluate/EvaluationStatus.kt:60-62 | "classLoadingFailed" is set to "true" |
| EvaluationStatus.Status.CompilingEvaluatorFailed | idea/jvm-debugger/jvm-debugger-evaluation/src/org/jetbrains/kotlin/idea/debugger/evaluate/EvaluationStatus.kt:64-66 | "compilingEvaluatorFailed" is set to "true" |
| EvaluationStatus.Status.UsedEvaluator | idea/jvm-debugger/jvm-debugger-evaluation/src/org/jetbrains/kotlin/idea/debugger/evaluate/EvaluationStatus.kt:68-70 | "evaluator" is set to the evaluator type's name |
| EvaluationStatus.Status.ContextLanguage | idea/jvm-debugger/jvm-debugger-evaluation/src/org/jetbrains/kotlin/idea/debugger/evaluate/EvaluationStatus.kt:72-74 | "contextLanguage" is set to the language's name |
| EvaluationStatus.Status.EvaluationType | idea/jvm-debugger/jvm-debugger-evaluation/src/org/jetbrains/kotlin/idea/debugger/evaluate/EvaluationStatus.kt:76-77 | "evaluationType" is set to the evaluation type's name |
| ReplMessages.SeverityNameIsOneWord | libraries/scripting/js/src/kotlin/script/jsrepl/KJsReplCompiler.kt:201-207 | a severity prints as one upper-case word, so it never holds a line break |
| ReplMessages.MakeReplCodeLine | plugins/scripting/scripting-compiler/src/org/jetbrains/kotlin/scripting/repl/js/JsReplUtils.kt:62 | the code line keeps its number and code, and is always in generation 0 |
| ReplMessages.MessageLinesAppend | libraries/scripting/js/src/kotlin/script/jsrepl/KJsReplCompiler.kt:188-191 | a further message adds exactly its own line at the end of the printed messages |
| ReplMessages.PrintedPrefixStep | plugins/scripting/scripting-compiler/src/org/jetbrains/kotlin/scripting/repl/js/JsReplUtils.kt:89-91 | one more turn of the loop prints the next message's line |
| ReplMessages.OneLinePerMessage | libraries/scripting/js/src/kotlin/script/jsrepl/KJsReplCompiler.kt:201-207 | when no message text holds a line break, there is exactly one line per message |
| ReplMessages.MessageTextShape | libraries/scripting/js/src/kotlin/script/jsrepl/KJsReplCompiler.kt:201-207 | the message is the "Found n problems:" header followed by the printed messages |
| ReplMessages.ReplMessageCollector.constructor | plugins/scripting/scripting-compiler/src/org/jetbrains/kotlin/scripting/repl/js/JsReplUtils.kt:64-66 | a new collector has no errors and no messages |
| ReplMessages.ReplMessageCollector.Clear | plugins/scripting/scripting-compiler/src/org/jetbrains/kotlin/scripting/repl/js/JsReplUtils.kt:68-71 | clearing forgets the flag and the messages |
| ReplMessages.ReplMessageCollector.Report | plugins/scripting/scripting-compiler/src/org/jetbrains/kotlin/scripting/repl/js/JsReplUtils.kt:73-76 | the message is appended, and the flag is set when it was an error or was already set, so it still tells whether any message is an error |
| ReplMessages.ReplMessageCollector.HasErrors | plugins/scripting/scripting-compiler/src/org/jetbrains/kotlin/scripting/repl/js/JsReplUtils.kt:78-80 | the answer is whether some collected message is an error |
| ReplMessages.ReplMessageCollector.HasNotErrors | plugins/scripting/scripting-compiler/src/org/jetbrains/kotlin/scripting/repl/js/JsReplUtils.kt:82-84 | the answer is whether no collected message is an error |
| ReplMessages.ReplMessageCollector.GetMessage | plugins/scripting/scripting-compiler/src/org/jetbrains/kotlin/scripting/repl/js/JsReplUtils.kt:86-92 | the loop builds the header and one line per message, in the order reported |
| ReplReader.ReadLengthFrom | libraries/scripting/js-test/test/Repl.kt:28-35 | when the braces balance, the count is a later line within the input |
| ReplReader.ReadLength | libraries/scripting/js-test/test/Repl.kt:24-38 | the number of lines `read` consumes is at least one and at most the lines there are; an empty input gives none |
| ReplReader.ReadLengthSpec | libraries/scripting/js-test/test/Repl.kt:24-38 | read takes the shortest non-empty prefix whose braces balance, and finds none exactly when no prefix balances |
| ReplReader.WithSeparatorsIsJoin | libraries/scripting/js-test/test/Repl.kt:30-31 | the collected input is the lines joined by the separator, with one more separator at the end |
| ReplReader.Read | libraries/scripting/js-test/test/Repl.kt:24-38 | read returns the balanced lines, each followed by the separator, and leaves the rest unread; at the end of the input it fails with nothing left |
| ReplReader.StopIsNeverEvaluated | libraries/scripting/js-test/test/Repl.kt:56-58 | the main loop never evaluates the stop command |
| ReplReader.StopLineEndsSession | libraries/scripting/js-test/test/Repl.kt:56-58 | a "stop" line at the prompt ends the session before anything is evaluated |
| ReplReader.MainLoop | libraries/scripting/js-test/test/Repl.kt:56-58 | the loop evaluates the inputs of the session, in order, and ends by the stop command or the end of the input |
| NpmProjectName.NameParts | libraries/tools/kotlin-gradle-plugin/src/main/kotlin/org/jetbrains/kotlin/gradle/targets/js/KotlinJsCompilation.kt:40-61 | the name's parts always start with the root project's name |
| NpmProjectName.BuildNpmProjectName | libraries/tools/kotlin-gradle-plugin/src/main/kotlin/org/jetbrains/kotlin/gradle/targets/js/KotlinJsCompilation.kt:40-61 | the builder joins the root project's name, the project's name unless it is the root, the target's name unless it is empty or "js", and the compilation's name unless it is "main", with "-" |
| NpmProjectName.NpmName | libraries/tools/kotlin-gradle-plugin/src/main/kotlin/org/jetbrains/kotlin/gradle/targets/js/KotlinJsCompilation.kt:40-61 | the npm name starts with the root project's name, and for a subproject is longer than it |
| NpmProjectName.NpmNameSpec | libraries/tools/kotlin-gradle-plugin/src/main/kotlin/org/jetbrains/kotlin/gradle/targets/js/KotlinJsCompilation.kt:40-61 | the name starts with the root project's name, and is exactly that name when the project is the root, the target's name is not shown and the compilation is the main one |
| NpmProjectName.JoinStartsWithFirst | libraries/tools/kotlin-gradle-plugin/src/main/kotlin/org/jetbrains/kotlin/gradle/targets/js/KotlinJsCompilation.kt:40-61 | a join starts with its first part, and is longer when there are more parts |
| NpmProjectName.SubprojectName | libraries/tools/kotlin-gradle-plugin/src/main/kotlin/org/jetbrains/kotlin/gradle/targets/js/KotlinJsCompilation.kt:40-61 | the main compilation of a subproject's "js" target is named "root-project" |
| NpmProjectName.KotlinJsCompilation.constructor | libraries/tools/kotlin-gradle-plugin/src/main/kotlin/org/jetbrains/kotlin/gradle/targets/js/KotlinJsCompilation.kt:22-29 | a new compilation's package name is the npm project name, and no package is resolved yet |
| NpmProjectName.KotlinJsCompilation.SetPackageName | libraries/tools/kotlin-gradle-plugin/src/main/kotlin/org/jetbrains/kotlin/gradle/targets/js/KotlinJsCompilation.kt:22-26 | setting the package name fails and changes nothing when the project may no longer change; otherwise it sets the name only |
| NpmProjectName.KotlinJsCompilation.NpmPackage | libraries/tools/kotlin-gradle-plugin/src/main/kotlin/org/jetbrains/kotlin/gradle/targets/js/KotlinJsCompilation.kt:31-32 | the package is an error exactly before npm resolution has run, and is otherwise the resolved one |
| StringOrder.CompareStrings | compiler/decompiler/src/org/jetbrains/kotlin/decompiler/util/magicbox/MagicBoxImpl.kt:81 | the `String.compareTo` that `sorted()` uses answers zero exactly for equal strings |
| StringOrder.CompareStringsAntisymmetric | compiler/decompiler/src/org/jetbrains/kotlin/decompiler/util/magicbox/MagicBoxImpl.kt:81 | comparing the other way round negates the answer |
| StringOrder.LessTransitive | compiler/decompiler/src/org/jetbrains/kotlin/decompiler/util/magicbox/MagicBoxImpl.kt:81 | the order `compareTo` gives is transitive |
| StringOrder.LessTotal | compiler/decompiler/src/org/jetbrains/kotlin/decompiler/util/magicbox/MagicBoxImpl.kt:81 | of two different strings exactly one is below the other, and no string is below itself |
| StringOrder.SortedOf | compiler/decompiler/src/org/jetbrains/kotlin/decompiler/util/magicbox/MagicBoxImpl.kt:76-81 | sorting the import set lists each of its elements exactly once, in strictly ascending string order |
| StringOrder.StrictlySortedUnique | compiler/decompiler/src/org/jetbrains/kotlin/decompiler/util/magicbox/MagicBoxImpl.kt:80-81 | a set has only one strictly ascending arrangement, so the sorted import list is fully determined by the set |

## Left out

- ASM emission itself is not modelled. Emitted code is a list of instructions with the stack effect of section 6.5 of the Java Virtual Machine Specification, and the operand stack is checked in slots, not verified by category. `AsmUtil` is not part of this model.
- StackValue.CoerceEffect: states the stack effect only of the identity branch and of the branches to and from `void`; `CoercePrimitiveToUnitEffect` adds the primitive-to-`Unit` branch. The effect of the other branches is not stated.
- StackValue.Coerce: follows every branch of `coerce`, but a `checkcast` and the calls to `box`, `unbox` and `cast` are each one opaque instruction whose stack effect is left open, because those helpers and `AsmUtil` are not part of this model. `unboxPrimitiveTypeOrNull` is taken as the standard mapping from the eight `java/lang` wrapper classes to their primitive types.
- `mapType`'s main body in `typeSignatureMapping.kt` is not modelled, because it depends on a `TypeSystemContext` that is not part of this model.
- Only the name and the class-or-package skeleton of descriptors and IR declarations is modelled. `getPredefinedInternalNameForClass` and the IR-mode flag are inputs.
- Strings are sequences of Unicode scalar values, not UTF-16 code units.
- `toLowerCase` is modelled on ASCII letters only, and so is `Text.IsDigit`: Kotlin's `isDigit` and `toInt(10)`, as used by `IrModuleDeserializer.kt:112`, also accept non-ASCII Unicode digits, which the model treats as non-digits.
- `trim()` uses a fixed set of whitespace characters.
- There is no Unicode case folding or normalisation.
- `Character.getType` in the `Char` constant rendering is a `printable` parameter, because the Unicode category table is not part of this model.
- `FirClassId`, `FirNameFactory.LOCAL` and `JvmAnnotationNames` are represented by the components the modelled code reads.
- The JSR-305 type-qualifier resolver, the white and black signature lists, and `functionPattern`/`functionalPackages` are inputs, because their definitions are not part of this model.
- The order in which `collectTypeInfo` visits classes, a depth-first order over the class hierarchy, is an input list. The DFS utility is not part of this model.
- The `println` calls in `typeInfo.kt` and `ModuleTransformer.kt` are not modelled, because they only produce output.
- `getInterfaceMethodId` traps through `wasm_unreachable` when no slot matches. That trap is a `None` result. `isInterface` does not trap: it answers false when nothing matches.
- MagicBox.MagicBoxImpl.RefreshState: `doResolveStep` of the magic-box infos is not part of this model. `RefreshState` therefore only marks the state fresh, and names are never renamed to resolve conflicts.
- Kotlin's `LinkedHashSet` per scope is a sequence in insertion order. A freshly built info is a new object, so it is always added.
- `obtainImportStatementsList`'s `typeImports` is commented out in the source and is left out here too.
- A decompiled sub-expression (`decompile()`) is represented by the text it produces, and the printer by the string printed.
- Of `obtainCall`, `obtainOperatorEqCall`, `obtainValueParameterTypes` and the other text helpers of `Utils.kt`, only those listed in the table are modelled. The rest dispatch over IR node classes that are not part of this model.
- In `PerFileAnalysisCache`, `getAnalysisResults`, `analyze`, `findAllChildren`, `getType`, `getKeys` and `getSliceContents` are not modelled. Analysis results and plain binding contexts are opaque values, and a child set is an input.
- The cache's `synchronized` block and `CachedValue` invalidation are not modelled, because they concern concurrency and modification tracking.
- `KotlinDebuggerEvaluator.EvaluationType` is not part of this model. `EvaluationStatus.Status.EvaluationType` takes the constant's name.
- `send()` has an empty body in the source, and stays empty here.
- `ReplMessageCollector.report`'s `location` argument is dropped, because nothing reads it.
- In the REPL main loop, evaluation (`eval`, the JS engine, printing the result) is not modelled. The loop records the inputs it would evaluate.
- `readLine()` returning null at the end of the input makes `count` throw. That is an `Err` result.
- `System.lineSeparator()` is a parameter.
- `NpmResolver.checkModification` becomes the input `modificationAllowed`.
- The rest of the Gradle compilation (tasks, `packageJson`) is not modelled.
- Kotlin's name cache in `FirName.cached` is modelled by the value it returns, not by its map.
- Kotlin `assert` calls are modelled as enabled (the JVM's `-ea` flag): a failed assertion is an `Err("AssertionError")` result. With assertions disabled the code would go on past them. Two assertions are exceptions. `assert(condition.type.isBoolean())` at `SwitchGenerator.kt:98` is not modelled, because the model's conditions carry no type. The assertion at `IntegerLiteralTypeConstructor.kt:119` becomes the precondition `isUnsigned || isConvertable ==> unsignedOnClasspath` of `IntegerLiteralType.NewLiteralConstructor` rather than an `Err` (see the start of this document).
- TypeSignatureMapping.ComputeInternalName: takes the class name as an identifier. `SpecialNames.safeIdentifier` replaces a special name, such as that of an anonymous object, by a placeholder identifier; it is not part of this model.
- WasmRuntime.IsSubClassOfImpl: takes as a precondition that the super-class chain in memory is closed and descending (`ChainClosed`). It is not derived from the image `collectTypeInfo` writes: the id order of the class metadata and the class structs in the memory image are each proved, but the invariant that ties every class's metadata to its data segment is not.
- Of the constant values in `constantValues.kt`, only the Boolean, integer, `Char`, String, enum, null and error values are modelled. The `Double`, `Float`, annotation, array and `KClass` values are left out: they need floating point, annotation descriptors and Kotlin types, none of which is part of this model.
- WasmLayout and WasmModule: struct sizes, running addresses and class ids are unbounded integers. In the source they are 32-bit `Int`s, which are assumed here never to wrap.
- SwitchGenerator.Generator.Gen: emits the corrected switch in two ways, both listed under Findings. The range length is computed on 64-bit integers, not by the throwing 32-bit subtraction at `SwitchGenerator.kt:147`. For each constant the first case is kept, where lines 148-154 keep the last. `EmitThenExpressions` and `Gen` also do not represent the `coerceNotToUnit` at lines 161 and 174: each then and else expression is one opaque generation step, and the conversion of its value to the `when`'s type is left out.
- SwitchGenerator.EmitSwitch: computes the range length on 64-bit integers (`RangeLength`). It does not reproduce the 32-bit subtraction at `SwitchGenerator.kt:147`, which throws for the cases `Int.MIN_VALUE` and `Int.MAX_VALUE`. `RangeLengthAsWritten` models that form (see Findings).

## Findings

| source | as written | input that shows it | evidently intended | confidence | as-written member | corrected member |
|---|---|---|---|---|---|---|
| compiler/ir/backend.jvm/src/org/jetbrains/kotlin/backend/jvm/codegen/SwitchGenerator.kt:147 | `caseMax - caseMin + 1L` subtracts in 32-bit `Int` and widens only afterwards, so the difference wraps | cases `Int.MIN_VALUE` and `Int.MAX_VALUE`: the range length is 0, `tableswitch` is chosen, and the label array is empty, so the first write is out of bounds | the range length computed in 64 bits (`caseMax.toLong() - caseMin + 1`), which chooses `lookupswitch` for that input | not executed | SwitchGenerator.RangeLengthOverflows | SwitchGenerator.RangeLength |
| libraries/stdlib/wasm/runtime/typeInfo.kt:20-21 | `getInterfaceListLength` loads the word at `TYPE_INFO_VTABLE_LENGTH_OFFSET`, the same word as `getVtableLength` | a class with one virtual method and no interfaces: the function returns 1 | the size word of the interface list, the one `isInterface` reads at v-table pointer plus 8 times the v-table length | not executed | WasmRuntime.InterfaceListLengthReadsVtableLength | WasmRuntime.ReadsInterfaces |
| compiler/ir/backend.jvm/src/org/jetbrains/kotlin/backend/jvm/codegen/SwitchGenerator.kt:148-154 | `match` records a case for every tested constant, repeated ones included; `gen` writes every case into the label array (the last write wins) and every key into the `lookupswitch` | `when (x) { 1 -> a; 1 -> b; else -> c }`: the `tableswitch` sends 1 to `b`; `when (x) { 1 -> a; 1 -> b; 9 -> c }`: the `lookupswitch` keys are 1, 1, 9 | each value goes to the first branch that tests it, as `when` does, which keeps only the first case of each constant, so `lookupswitch` keys strictly increase | not executed | SwitchGenerator.DuplicateConstantMiscompiles | SwitchGenerator.FirstWinsDispatch |
