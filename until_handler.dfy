/**
 * `UntilHandler`: lowering `for (i in A until B)` to a loop from `A` to `B - 1`, with an extra
 * "not empty" condition where `B - 1` could wrap around because `B` is the element type's MIN_VALUE.
 */
module UntilHandler {
  import opened Wrappers
  import Ints

  /** The IR types an `until` receiver or argument can have. */
  datatype ElemType = CharType | ByteType | ShortType | IntType | LongType | OtherType

  datatype ProgressionType = IntProgression | CharProgression | LongProgression

  /** `MIN_VALUE` of the progression's element type. */
  function MinValue(pt: ProgressionType): int
  {
    match pt
    case IntProgression => Ints.INT_MIN
    case CharProgression => Ints.CHAR_MIN
    case LongProgression => Ints.LONG_MIN
  }

  function MaxValue(pt: ProgressionType): int
  {
    match pt
    case IntProgression => Ints.INT_MAX
    case CharProgression => Ints.CHAR_MAX
    case LongProgression => Ints.LONG_MAX
  }

  predicate InRange(pt: ProgressionType, x: int) { MinValue(pt) <= x <= MaxValue(pt) }

  /** Arithmetic in the element type, wrapping around like Kotlin's `Int`, `Char` and `Long`. */
  function Wrap(pt: ProgressionType, x: int): (r: int)
    ensures InRange(pt, r)
    ensures InRange(pt, x) ==> r == x
  {
    match pt
    case IntProgression => Ints.WrapInt(x)
    case CharProgression => Ints.WrapChar(x)
    case LongProgression => Ints.WrapLong(x)
  }

  /** `isAdditionalNotEmptyConditionNeeded(receiverType, argType)`. */
  function GuardNeeded(receiverType: ElemType, argType: ElemType): bool
  {
    match receiverType
    case CharType => true
    case ByteType | ShortType | IntType => !(argType == ByteType || argType == ShortType)
    case LongType => !(argType == ByteType || argType == ShortType || argType == IntType)
    case OtherType => true
  }

  predicate IsIntegral(t: ElemType) { t == ByteType || t == ShortType || t == IntType || t == LongType }

  /** The `until` overloads of the standard library: integral with integral, and `Char until Char`. */
  predicate IsUntilOverload(receiverType: ElemType, argType: ElemType)
  {
    (IsIntegral(receiverType) && IsIntegral(argType)) || (receiverType == CharType && argType == CharType)
  }

  /** The element type of the range an overload returns. */
  function ElementType(receiverType: ElemType, argType: ElemType): ProgressionType
    requires IsUntilOverload(receiverType, argType)
  {
    if receiverType == CharType then CharProgression
    else if receiverType == LongType || argType == LongType then LongProgression
    else IntProgression
  }

  function Width(t: ElemType): nat
    requires t != OtherType
  {
    match t
    case ByteType => 8
    case ShortType => 16
    case CharType => 16
    case IntType => 32
    case LongType => 64
  }

  function ProgressionWidth(pt: ProgressionType): nat
  {
    match pt
    case IntProgression => 32
    case CharProgression => 16
    case LongProgression => 64
  }

  /**
   * The guard is needed for every overload whose range element type is not strictly wider than
   * the argument type, and for every combination that is not an overload.
   */
  lemma GuardNeededIffNotWider(receiverType: ElemType, argType: ElemType)
    ensures IsUntilOverload(receiverType, argType) ==>
      (GuardNeeded(receiverType, argType) <==> ProgressionWidth(ElementType(receiverType, argType)) <= Width(argType))
    ensures !IsUntilOverload(receiverType, argType) ==> GuardNeeded(receiverType, argType)
  {
  }

  /** The values an expression of type `t` can have, once cast to the element type. */
  predicate ValueOfType(t: ElemType, x: int)
  {
    match t
    case ByteType => Ints.BYTE_MIN <= x <= Ints.BYTE_MAX
    case ShortType => Ints.SHORT_MIN <= x <= Ints.SHORT_MAX
    case IntType => Ints.IsInt(x)
    case CharType => Ints.CHAR_MIN <= x <= Ints.CHAR_MAX
    case LongType => Ints.IsLong(x)
    case OtherType => true
  }

  /** `additionalNotEmptyCondition`: `untilArg != MIN_VALUE`, the constant `false`, or none. */
  datatype Guard = ArgNotMin(minConst: int) | FalseConst | NoGuard

  function GuardFor(argConst: Option<int>, receiverType: ElemType, argType: ElemType, pt: ProgressionType): (g: Guard)
    ensures g.ArgNotMin? <==> argConst.None? && GuardNeeded(receiverType, argType)
    ensures g.ArgNotMin? ==> g.minConst == MinValue(pt)
    ensures g == FalseConst <==> argConst == Some(MinValue(pt))
  {
    if argConst.None? && GuardNeeded(receiverType, argType) then ArgNotMin(MinValue(pt))
    else if argConst == Some(MinValue(pt)) then FalseConst
    else NoGuard
  }

  /** Whether the guard lets the loop header run, for the argument value `b`. */
  function GuardHolds(g: Guard, b: int): bool
  {
    match g
    case ArgNotMin(m) => b != m
    case FalseConst => false
    case NoGuard => true
  }

  /**
   * For every overload, the chosen guard holds exactly when `B` is not MIN_VALUE: either it
   * tests for it, or `B` is a constant known to be MIN_VALUE, or `B`'s type cannot reach it.
   */
  lemma GuardHoldsIffNotMin(receiverType: ElemType, argType: ElemType, argConst: Option<int>, b: int)
    requires IsUntilOverload(receiverType, argType)
    requires ValueOfType(argType, b) && (argConst.Some? ==> argConst.value == b)
    ensures var pt := ElementType(receiverType, argType);
      GuardHolds(GuardFor(argConst, receiverType, argType, pt), b) <==> b != MinValue(pt)
  {
  }

  /** The temporaries `build` introduces, in declaration order. */
  datatype Temporary = UntilReceiverValue | UntilArg

  /** Where the header's `first` and `last` come from: the expression itself or its temporary. */
  datatype Operand = Expression | TemporaryOf(temp: Temporary)

  datatype HeaderInfo = HeaderInfo(
    progression: ProgressionType,
    first: Operand,
    last: Operand,
    step: int,
    canOverflow: bool,
    additionalVariables: seq<Temporary>,
    additionalNotEmptyCondition: Guard)

  /** The `until` call as `build` sees it. */
  datatype UntilCall = UntilCall(
    receiverType: ElemType, receiverHasSideEffects: bool,
    argType: ElemType, argHasSideEffects: bool, argConst: Option<int>)

  function Build(call: UntilCall, pt: ProgressionType): (h: HeaderInfo)
    ensures h.step == 1 && !h.canOverflow && h.progression == pt
    ensures UntilArg in h.additionalVariables <==> call.argHasSideEffects
    ensures UntilReceiverValue in h.additionalVariables <==> call.argHasSideEffects && call.receiverHasSideEffects
    ensures h.first == (if UntilReceiverValue in h.additionalVariables then TemporaryOf(UntilReceiverValue) else Expression)
    ensures h.last == (if UntilArg in h.additionalVariables then TemporaryOf(UntilArg) else Expression)
    ensures h.additionalNotEmptyCondition == GuardFor(call.argConst, call.receiverType, call.argType, pt)
  {
    var receiverVar := call.argHasSideEffects && call.receiverHasSideEffects;
    var vars := if !call.argHasSideEffects then []
      else if receiverVar then [UntilReceiverValue, UntilArg] else [UntilArg];
    HeaderInfo(
      pt,
      if receiverVar then TemporaryOf(UntilReceiverValue) else Expression,
      if call.argHasSideEffects then TemporaryOf(UntilArg) else Expression,
      1, false, vars,
      GuardFor(call.argConst, call.receiverType, call.argType, pt))
  }

  /**
   * `A` is evaluated before `B`: the receiver's temporary, when there is one, is declared first,
   * and the receiver is read after `B`'s temporary only when it has no side effects.
   */
  lemma BuildKeepsEvaluationOrder(call: UntilCall, pt: ProgressionType)
    ensures var vars := Build(call, pt).additionalVariables;
      (|vars| == 2 ==> vars == [UntilReceiverValue, UntilArg])
      && (vars == [UntilArg] ==> !call.receiverHasSideEffects)
      && |vars| <= 2
  {
  }

  /** `A, A + 1, …, B - 1`. */
  function Until(a: int, b: int): (r: seq<int>)
    ensures |r| == if a < b then b - a else 0
    ensures forall k :: 0 <= k < |r| ==> r[k] == a + k
    decreases b - a
  {
    if a < b then [a] + Until(a + 1, b) else []
  }

  lemma {:induction false} UntilSnoc(a: int, x: int)
    requires a <= x
    ensures Until(a, x + 1) == Until(a, x) + [x]
  {
    var l, r := Until(a, x + 1), Until(a, x) + [x];
    assert |l| == |r|;
    forall k | 0 <= k < |l| ensures l[k] == r[k] { }
  }

  /**
   * The documented lowered loop: `var inductionVar = A; val last = B - 1;` then, when
   * `inductionVar <= last` and the guard holds, a do-while visiting `inductionVar` and
   * incrementing it while `inductionVar <= last`. Arithmetic wraps in the element type.
   */
  method LoweredLoop(pt: ProgressionType, a: int, b: int, g: Guard) returns (visited: seq<int>)
    requires InRange(pt, a) && InRange(pt, b)
    requires GuardHolds(g, b) <==> b != MinValue(pt)
    ensures visited == Until(a, b)
  {
    var inductionVar := a;
    var last := Wrap(pt, b - 1);
    visited := [];
    if inductionVar <= last && GuardHolds(g, b) {
      assert last == b - 1;
      visited := visited + [inductionVar];
      UntilSnoc(a, inductionVar);
      inductionVar := Wrap(pt, inductionVar + 1);
      while inductionVar <= last
        invariant a < inductionVar <= last + 1
        invariant visited == Until(a, inductionVar)
        decreases last - inductionVar
      {
        visited := visited + [inductionVar];
        UntilSnoc(a, inductionVar);
        inductionVar := Wrap(pt, inductionVar + 1);
      }
    }
  }

  /** With the guard `build` chooses, the lowered loop over `A until B` visits exactly `A..B-1`. */
  method LowerUntilLoop(call: UntilCall, a: int, b: int) returns (visited: seq<int>)
    requires IsUntilOverload(call.receiverType, call.argType)
    requires InRange(ElementType(call.receiverType, call.argType), a)
    requires ValueOfType(call.argType, b) && (call.argConst.Some? ==> call.argConst.value == b)
    ensures visited == Until(a, b)
  {
    var pt := ElementType(call.receiverType, call.argType);
    var header := Build(call, pt);
    GuardHoldsIffNotMin(call.receiverType, call.argType, call.argConst, b);
    visited := LoweredLoop(pt, a, b, header.additionalNotEmptyCondition);
  }

  /** Without the guard, `A until MIN_VALUE` would not be empty: `last` wraps to MAX_VALUE. */
  lemma UnguardedMinWraps(pt: ProgressionType)
    ensures Wrap(pt, MinValue(pt) - 1) == MaxValue(pt)
    ensures Until(MinValue(pt), MinValue(pt)) == []
  {
  }
}
