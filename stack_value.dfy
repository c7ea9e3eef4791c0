/**
 * Stack discipline of the JVM code generator's `StackValue` hierarchy: moving a buried value to the
 * top of the operand stack, duplicating a value beneath its write receiver, post- and
 * pre-increment of an `Int` local, receiver evaluation for compound operations, the
 * constructor checks of locals and shared locals, and the pure type decisions
 * `refType`, `integerConstant` and the identity and `void` branches of `coerce`.
 */
module StackValue {
  import opened Wrappers
  import opened JvmStack
  import Ints

  /** AsmUtil.dup: one `dup` or `dup2` by the value's size. */
  function DupValue(t: JvmType): (code: seq<Insn>)
    ensures t.Size() == 0 ==> code == []
  {
    if t.Size() == 2 then [Dup2] else if t.Size() == 1 then [Dup] else []
  }

  /** AsmUtil.pop: one `pop` or `pop2` by the value's size. */
  function PopValue(t: JvmType): seq<Insn>
  {
    if t.Size() == 2 then [Pop2] else if t.Size() == 1 then [Pop] else []
  }

  const VOID_WRAPPER_TYPE: JvmType := ObjectType("java/lang/Void")
  const NUMBER_TYPE: JvmType := ObjectType("java/lang/Number")
  const BOOLEAN_WRAPPER_TYPE: JvmType := ObjectType("java/lang/Boolean")
  const CHARACTER_WRAPPER_TYPE: JvmType := ObjectType("java/lang/Character")

  predicate IsPrimitive(t: JvmType) { t != VoidType && !t.IsReference() }

  /** `Type.getDimensions`: how many array levels the type has. */
  function Dimensions(t: JvmType): nat
  {
    if t.ArrayType? then 1 + Dimensions(t.element) else 0
  }

  /** `Type.getElementType`: the type under all the array levels. */
  function ElementType(t: JvmType): (r: JvmType)
    ensures !r.ArrayType?
  {
    if t.ArrayType? then ElementType(t.element) else t
  }

  /** `unboxPrimitiveTypeOrNull`: the primitive type a `java.lang` wrapper class boxes. */
  function UnboxedType(t: JvmType): (r: Option<JvmType>)
    ensures r.Some? ==> IsPrimitive(r.value) && t.ObjectType?
  {
    if t == BOOLEAN_WRAPPER_TYPE then Some(BooleanType)
    else if t == CHARACTER_WRAPPER_TYPE then Some(CharType)
    else if t == ObjectType("java/lang/Byte") then Some(ByteType)
    else if t == ObjectType("java/lang/Short") then Some(ShortType)
    else if t == ObjectType("java/lang/Integer") then Some(IntType)
    else if t == ObjectType("java/lang/Float") then Some(FloatType)
    else if t == ObjectType("java/lang/Long") then Some(LongType)
    else if t == ObjectType("java/lang/Double") then Some(DoubleType)
    else None
  }

  /**
   * `coerce(fromType, toType)`, branch by branch. Checkcasts, boxing, unboxing and primitive casts
   * are single instructions whose effect is left open; an unboxing is followed by the coercion of
   * the unboxed primitive, and a non-wrapper object is first cast to the wrapper it is unboxed from.
   */
  function Coerce(from: JvmType, to: JvmType): (r: seq<Insn>)
    ensures r == [] <==>
      to == from || (to == UNIT_TYPE && from == VOID_WRAPPER_TYPE)
      || (from.IsReference() && to == OBJECT_TYPE)
      || (from.ArrayType? && to.ArrayType? && Dimensions(from) == Dimensions(to) && ElementType(to) == OBJECT_TYPE)
    ensures |r| <= 2
    ensures to == VoidType ==> r == PopValue(from)
    ensures from == VoidType && to != VoidType ==> |r| == 1
    ensures to == UNIT_TYPE && IsPrimitive(from) ==> r == PopValue(from) + [PushUnit]
    ensures to == UNIT_TYPE && from == OBJECT_TYPE ==> r == [Checkcast(UNIT_TYPE)]
    decreases if from.ObjectType? && IsPrimitive(to) then 1 else 0
  {
    if to == from then []
    else if to == VoidType then PopValue(from)
    else if from == VoidType then
      (if to == UNIT_TYPE || to == OBJECT_TYPE then [PushUnit]
       else if to.IsReference() then [AconstNull]
       else [PushDefault(to)])
    else if to == UNIT_TYPE then
      (if from == OBJECT_TYPE then [Checkcast(UNIT_TYPE)]
       else if from != VOID_WRAPPER_TYPE then PopValue(from) + [PushUnit]
       else [])
    else if to.ArrayType? then
      (if !from.ArrayType? || Dimensions(to) != Dimensions(from) || ElementType(to) != OBJECT_TYPE then [Checkcast(to)]
       else [])
    else if to.ObjectType? then
      (if from.IsReference() then (if to != OBJECT_TYPE then [Checkcast(to)] else [])
       else [Box(from, to)])
    else if from.ObjectType? then
      match UnboxedType(from)
      case Some(unboxed) => [Unbox(from, unboxed)] + Coerce(unboxed, to)
      case None =>
        if to == BooleanType then Coerce(from, BOOLEAN_WRAPPER_TYPE) + [Unbox(BOOLEAN_WRAPPER_TYPE, BooleanType)]
        else if to == CharType then
          (if from == NUMBER_TYPE then [Unbox(NUMBER_TYPE, IntType), I2C]
           else Coerce(from, CHARACTER_WRAPPER_TYPE) + [Unbox(CHARACTER_WRAPPER_TYPE, CharType)])
        else Coerce(from, NUMBER_TYPE) + [Unbox(NUMBER_TYPE, to)]
    else [Cast(from, to)]
  }

  /**
   * The modelled branches of `coerce` replace a `from` value on top of the stack by a `to`
   * value: nothing for equal types, nothing left for `void`, and from `void` the Unit
   * instance, `null` or the primitive zero.
   */
  lemma CoerceEffect(from: JvmType, to: JvmType, below: seq<Slot>, v: seq<Slot>, locals: map<nat, Slot>)
    requires |v| == from.Size()
    requires to == from || to == VoidType || from == VoidType
    ensures Exec(Coerce(from, to), Frame(below + v, locals)) ==
      Some(Frame(
        if to == from then below + v
        else if to == VoidType then below
        else if to == UNIT_TYPE || to == OBJECT_TYPE then below + [UnitInstance]
        else if to.IsReference() then below + [NullRef]
        else below + Zeros(to.Size()),
        locals))
  {
    if to == from {
    } else if to == VoidType {
      PopValueEffect(from, below, v, locals);
    } else {
      assert v == [] && below + v == below;
      PushFromVoidEffect(to, below, locals);
    }
  }

  /** A primitive coerced to `Unit` is popped and replaced by the Unit instance. */
  lemma CoercePrimitiveToUnitEffect(from: JvmType, below: seq<Slot>, v: seq<Slot>, locals: map<nat, Slot>)
    requires IsPrimitive(from) && |v| == from.Size()
    ensures Exec(Coerce(from, UNIT_TYPE), Frame(below + v, locals)) == Some(Frame(below + [UnitInstance], locals))
  {
    ExecAppend(PopValue(from), [PushUnit], Frame(below + v, locals));
    PopValueEffect(from, below, v, locals);
    ExecSingle(PushUnit, Frame(below, locals));
  }

  /** Popping a value of type `t` removes exactly its slots. */
  lemma PopValueEffect(t: JvmType, below: seq<Slot>, v: seq<Slot>, locals: map<nat, Slot>)
    requires |v| == t.Size()
    ensures Exec(PopValue(t), Frame(below + v, locals)) == Some(Frame(below, locals))
  {
    var f := Frame(below + v, locals);
    if t.Size() == 2 {
      ExecSingle(Pop2, f);
      assert (below + v)[..|below + v| - 2] == below;
    } else if t.Size() == 1 {
      ExecSingle(Pop, f);
      assert (below + v)[..|below + v| - 1] == below;
    } else {
      assert below + v == below;
    }
  }

  /** Coercing from `void` pushes the Unit instance, `null` or the primitive zero. */
  lemma PushFromVoidEffect(to: JvmType, below: seq<Slot>, locals: map<nat, Slot>)
    requires to != VoidType
    ensures Exec(Coerce(VoidType, to), Frame(below, locals)) ==
      Some(Frame(
        if to == UNIT_TYPE || to == OBJECT_TYPE then below + [UnitInstance]
        else if to.IsReference() then below + [NullRef]
        else below + Zeros(to.Size()),
        locals))
  {
    var code := Coerce(VoidType, to);
    ExecSingle(code[0], Frame(below, locals));
  }

  /**
   * `OnStack.moveToTopOfStack`: bring a value of type `t` to the top when `depth` slots
   * were pushed after it, then coerce it to `target`.
   */
  function MoveToTopOfStack(t: JvmType, target: JvmType, depth: int): (r: Result<seq<Insn>>)
    ensures r.Ok? <==> depth == 0 || ((depth == 1 || depth == 2) && (t.Size() == 1 || t.Size() == 2))
  {
    if depth == 0 then Ok(Coerce(t, target))
    else if depth == 1 then
      (if t.Size() == 1 then Ok([Swap] + Coerce(t, target))
       else if t.Size() == 2 then Ok([DupX2, Pop] + Coerce(t, target))
       else Err("don't know how to move type to top of stack"))
    else if depth == 2 then
      (if t.Size() == 1 then Ok([Dup2X1, Pop2] + Coerce(t, target))
       else if t.Size() == 2 then Ok([Dup2X2, Pop2] + Coerce(t, target))
       else Err("don't know how to move type to top of stack"))
    else Err("unsupported move-to-top depth")
  }

  /**
   * The promise of `moveToTopOfStack`: with `depth` (1 or 2) slots above a one- or two-slot
   * value, the emitted code leaves the value on top and the other slots beneath it in
   * their original order.
   */
  /** `swap` with one slot above a one-slot value. */
  lemma SwapMoves(below: seq<Slot>, v: seq<Slot>, above: seq<Slot>, locals: map<nat, Slot>)
    requires |v| == 1 && |above| == 1
    ensures Exec([Swap], Frame(below + v + above, locals)) == Some(Frame(below + above + v, locals))
  {
    var st := below + v + above;
    ExecSingle(Swap, Frame(st, locals));
    assert st[..|st| - 2] == below;
    assert st[|st| - 1] == above[0] && st[|st| - 2] == v[0];
    assert [st[|st| - 1], st[|st| - 2]] == above + v;
    assert below + [st[|st| - 1], st[|st| - 2]] == below + above + v;
  }

  /** `dupX2` then `pop` with one slot above a two-slot value. */
  lemma DupX2PopMoves(below: seq<Slot>, v: seq<Slot>, above: seq<Slot>, locals: map<nat, Slot>)
    requires |v| == 2 && |above| == 1
    ensures Exec([DupX2, Pop], Frame(below + v + above, locals)) == Some(Frame(below + above + v, locals))
  {
    var st := below + v + above;
    ExecPair(DupX2, Pop, Frame(st, locals));
    var st1 := CopyUnder(st, 1, 2);
    assert st[..|st| - 3] == below && st[|st| - 1..] == above && st[|st| - 3..] == v + above;
    assert st1 == below + above + v + above;
    assert st1[..|st1| - 1] == below + above + v;
  }

  /** `dup2X1` then `pop2` with two slots above a one-slot value. */
  lemma Dup2X1Pop2Moves(below: seq<Slot>, v: seq<Slot>, above: seq<Slot>, locals: map<nat, Slot>)
    requires |v| == 1 && |above| == 2
    ensures Exec([Dup2X1, Pop2], Frame(below + v + above, locals)) == Some(Frame(below + above + v, locals))
  {
    var st := below + v + above;
    ExecPair(Dup2X1, Pop2, Frame(st, locals));
    var st1 := CopyUnder(st, 2, 1);
    assert st[..|st| - 3] == below && st[|st| - 2..] == above && st[|st| - 3..] == v + above;
    assert st1 == below + above + v + above;
    assert st1[..|st1| - 2] == below + above + v;
  }

  /** `dup2X2` then `pop2` with two slots above a two-slot value. */
  lemma Dup2X2Pop2Moves(below: seq<Slot>, v: seq<Slot>, above: seq<Slot>, locals: map<nat, Slot>)
    requires |v| == 2 && |above| == 2
    ensures Exec([Dup2X2, Pop2], Frame(below + v + above, locals)) == Some(Frame(below + above + v, locals))
  {
    var st := below + v + above;
    ExecPair(Dup2X2, Pop2, Frame(st, locals));
    var st1 := CopyUnder(st, 2, 2);
    assert st[..|st| - 4] == below && st[|st| - 2..] == above && st[|st| - 4..] == v + above;
    assert st1 == below + above + v + above;
    assert st1[..|st1| - 2] == below + above + v;
  }

  /**
   * The promise of `moveToTopOfStack`: with `depth` (1 or 2) slots above a one- or two-slot
   * value, the emitted code leaves the value on top and the other slots beneath it in
   * their original order.
   */
  lemma MoveToTopPutsValueOnTop(
    t: JvmType, depth: int, below: seq<Slot>, v: seq<Slot>, above: seq<Slot>, locals: map<nat, Slot>)
    requires depth == 1 || depth == 2
    requires t.Size() == 1 || t.Size() == 2
    requires |v| == t.Size() && |above| == depth
    ensures MoveToTopOfStack(t, t, depth).Ok?
    ensures Exec(MoveToTopOfStack(t, t, depth).value, Frame(below + v + above, locals)) ==
      Some(Frame(below + above + v, locals))
  {
    var code := MoveToTopOfStack(t, t, depth).value;
    if depth == 1 && t.Size() == 1 {
      assert code == [Swap];
      SwapMoves(below, v, above, locals);
    } else if depth == 1 {
      assert code == [DupX2, Pop];
      DupX2PopMoves(below, v, above, locals);
    } else if t.Size() == 1 {
      assert code == [Dup2X1, Pop2];
      Dup2X1Pop2Moves(below, v, above, locals);
    } else {
      assert code == [Dup2X2, Pop2];
      Dup2X2Pop2Moves(below, v, above, locals);
    }
  }

  /** The receiver-related flags of a `StackValueWithSimpleReceiver`. */
  datatype SimpleReceiver = SimpleReceiver(
    valueType: JvmType, isStaticPut: bool, isStaticStore: bool,
    receiverType: JvmType, receiverHasSideEffects: bool)
  {
    /** A read is non-static unless the put is static; a write unless the store is static. */
    predicate IsNonStaticAccess(isRead: bool)
    {
      if isRead then !isStaticPut else !isStaticStore
    }
  }

  /**
   * `StackValueWithSimpleReceiver.dup`; `receiverSize` is what `receiverSize()` returns
   * (the receiver type's size unless a subclass overrides it).
   */
  function DupWithReceiver(sv: SimpleReceiver, withWriteReceiver: bool, receiverSize: int): (r: Result<seq<Insn>>)
    ensures !withWriteReceiver ==> r == Ok(if sv.valueType == VoidType then [] else DupValue(sv.valueType))
    ensures r.Err? <==> withWriteReceiver && sv.IsNonStaticAccess(false) && receiverSize == -1
  {
    if !withWriteReceiver then
      Ok(if sv.valueType == VoidType then [] else DupValue(sv.valueType))
    else
      var size := if sv.IsNonStaticAccess(false) then receiverSize else 0;
      if size == 0 then Ok(DupValue(sv.valueType))
      else if size == 1 then Ok(if sv.valueType.Size() == 2 then [Dup2X1] else [DupX1])
      else if size == 2 then Ok(if sv.valueType.Size() == 2 then [Dup2X2] else [DupX2])
      else if size == -1 then Err("UnsupportedOperationException")
      else Ok([])
  }

  /**
   * With the write receiver's slots `recv` beneath a one- or two-slot value `v`, `dup` puts a
   * copy of the value just beneath the receiver, ready for a store after the read.
   */
  lemma {:induction false} DupLandsBeneathReceiver(
    sv: SimpleReceiver, receiverSize: int, below: seq<Slot>, recv: seq<Slot>, v: seq<Slot>, locals: map<nat, Slot>)
    requires sv.valueType.Size() == 1 || sv.valueType.Size() == 2
    requires |v| == sv.valueType.Size()
    requires |recv| == (if sv.IsNonStaticAccess(false) then receiverSize else 0)
    requires |recv| <= 2
    ensures DupWithReceiver(sv, true, receiverSize).Ok?
    ensures Exec(DupWithReceiver(sv, true, receiverSize).value, Frame(below + recv + v, locals)) ==
      Some(Frame(below + v + recv + v, locals))
  {
    var st := below + recv + v;
    var f := Frame(st, locals);
    var code := DupWithReceiver(sv, true, receiverSize).value;
    assert code == [DupInsn(|v|, |recv|)];
    ExecSingle(code[0], f);
    StepDupInsn(|v|, |recv|, f);
    CopyUnderSplit(below, recv, v);
  }

  /** The `dup` form that copies the top `n` slots under the next `m`. */
  function DupInsn(n: nat, m: nat): Insn
    requires 1 <= n <= 2 && m <= 2
  {
    if n == 1 then (if m == 0 then Dup else if m == 1 then DupX1 else DupX2)
    else (if m == 0 then Dup2 else if m == 1 then Dup2X1 else Dup2X2)
  }

  lemma StepDupInsn(n: nat, m: nat, f: Frame)
    requires 1 <= n <= 2 && m <= 2 && n + m <= |f.stack|
    ensures Step(DupInsn(n, m), f) == Some(f.(stack := CopyUnder(f.stack, n, m)))
  {
    if n == 1 {
      StepDupOne(m, f);
    } else {
      StepDupTwo(m, f);
    }
  }

  lemma StepDupOne(m: nat, f: Frame)
    requires m <= 2 && 1 + m <= |f.stack|
    ensures Step(DupInsn(1, m), f) == Some(f.(stack := CopyUnder(f.stack, 1, m)))
  {
    if m == 0 {
      assert DupInsn(1, m) == Dup;
    } else if m == 1 {
      assert DupInsn(1, m) == DupX1;
    } else {
      assert DupInsn(1, m) == DupX2;
    }
  }

  lemma StepDupTwo(m: nat, f: Frame)
    requires m <= 2 && 2 + m <= |f.stack|
    ensures Step(DupInsn(2, m), f) == Some(f.(stack := CopyUnder(f.stack, 2, m)))
  {
    if m == 0 {
      assert DupInsn(2, m) == Dup2;
    } else if m == 1 {
      assert DupInsn(2, m) == Dup2X1;
    } else {
      assert DupInsn(2, m) == Dup2X2;
    }
  }

  lemma CopyUnderSplit(below: seq<Slot>, recv: seq<Slot>, v: seq<Slot>)
    ensures CopyUnder(below + recv + v, |v|, |recv|) == below + v + recv + v
  {
    var st := below + recv + v;
    assert st[..|st| - |v| - |recv|] == below;
    assert st[|st| - |v|..] == v;
    assert st[|st| - |v| - |recv|..] == recv + v;
  }

  /** `PostIncrement.putSelector`: load the old value unless the target is void, then `iinc`. */
  function PostIncrement(index: nat, increment: int, target: JvmType): (r: seq<Insn>)
    ensures r != [] && r[|r| - 1] == Iinc(index, increment)
    ensures target == VoidType <==> r == [Iinc(index, increment)]
    ensures target != VoidType ==> r[0] == Load(index, IntType)
  {
    (if target != VoidType then [Load(index, IntType)] + Coerce(IntType, target) else []) + [Iinc(index, increment)]
  }

  /** `PreIncrementForLocalVar.putSelector`: `iinc` first, then load the new value unless void. */
  function PreIncrement(index: nat, increment: int, target: JvmType): (r: seq<Insn>)
    ensures r != [] && r[0] == Iinc(index, increment)
    ensures target == VoidType <==> r == [Iinc(index, increment)]
    ensures target != VoidType ==> r[1] == Load(index, IntType)
  {
    [Iinc(index, increment)] + (if target != VoidType then [Load(index, IntType)] + Coerce(IntType, target) else [])
  }

  /** Post-increment leaves the OLD value on the stack (none for void) and the wrapped sum in the local. */
  lemma {:induction false} PostIncrementEffect(
    index: nat, increment: int, target: JvmType, st: seq<Slot>, locals: map<nat, Slot>)
    requires target == IntType || target == VoidType
    requires index in locals && locals[index].Word? && Ints.IsInt(locals[index].bits)
    ensures Exec(PostIncrement(index, increment, target), Frame(st, locals)) ==
      Some(Frame(if target == IntType then st + [locals[index]] else st,
                 locals[index := Word(Ints.WrapInt(locals[index].bits + increment))]))
  {
    var f := Frame(st, locals);
    if target == IntType {
      assert PostIncrement(index, increment, target) == [Load(index, IntType), Iinc(index, increment)];
      ExecPair(Load(index, IntType), Iinc(index, increment), f);
    } else {
      assert PostIncrement(index, increment, target) == [Iinc(index, increment)];
      ExecSingle(Iinc(index, increment), f);
    }
  }

  /** Pre-increment leaves the NEW (wrapped) value on the stack (none for void). */
  lemma {:induction false} PreIncrementEffect(
    index: nat, increment: int, target: JvmType, st: seq<Slot>, locals: map<nat, Slot>)
    requires target == IntType || target == VoidType
    requires index in locals && locals[index].Word? && Ints.IsInt(locals[index].bits)
    ensures var updated := Word(Ints.WrapInt(locals[index].bits + increment));
      Exec(PreIncrement(index, increment, target), Frame(st, locals)) ==
      Some(Frame(if target == IntType then st + [updated] else st, locals[index := updated]))
  {
    var f := Frame(st, locals);
    if target == IntType {
      assert PreIncrement(index, increment, target) == [Iinc(index, increment), Load(index, IntType)];
      ExecPair(Iinc(index, increment), Load(index, IntType), f);
    } else {
      assert PreIncrement(index, increment, target) == [Iinc(index, increment)];
      ExecSingle(Iinc(index, increment), f);
    }
  }

  /** What `ComplexReceiver.putSelector` asks of the receiver, in order. */
  datatype ReceiverStep = EvalReceiver(asType: JvmType) | DupReceiver

  function NonStaticCount(sv: SimpleReceiver, ops: seq<bool>): (k: nat)
    ensures k <= |ops|
  {
    if ops == [] then 0
    else NonStaticCount(sv, ops[..|ops| - 1]) + (if sv.IsNonStaticAccess(ops[|ops| - 1]) then 1 else 0)
  }

  function Dups(k: nat): (r: seq<ReceiverStep>)
    ensures |r| == k && forall i :: 0 <= i < k ==> r[i] == DupReceiver
  {
    seq(k, _ => DupReceiver)
  }

  /**
   * The intended receiver protocol: evaluated once at the first non-static operation,
   * one dup for every further non-static operation, and evaluated as void only when no
   * operation needs it but it has side effects.
   */
  function ReceiverProtocol(sv: SimpleReceiver, ops: seq<bool>): (r: seq<ReceiverStep>)
    ensures r == [] <==> NonStaticCount(sv, ops) == 0 && !sv.receiverHasSideEffects
    ensures r != [] ==> r[0].EvalReceiver? && forall i :: 1 <= i < |r| ==> r[i] == DupReceiver
    ensures NonStaticCount(sv, ops) > 0 ==> |r| == NonStaticCount(sv, ops) && r[0] == EvalReceiver(sv.receiverType)
    ensures NonStaticCount(sv, ops) == 0 && sv.receiverHasSideEffects ==> r == [EvalReceiver(VoidType)]
  {
    var k := NonStaticCount(sv, ops);
    if k > 0 then [EvalReceiver(sv.receiverType)] + Dups(k - 1)
    else if sv.receiverHasSideEffects then [EvalReceiver(VoidType)]
    else []
  }

  /** `ComplexReceiver.putSelector`: the `wasPut` loop over the read/write operations. */
  method ComplexReceiverPutSelector(sv: SimpleReceiver, isReadOperations: seq<bool>) returns (steps: seq<ReceiverStep>)
    ensures steps == ReceiverProtocol(sv, isReadOperations)
  {
    var wasPut := false;
    steps := [];
    var i := 0;
    while i < |isReadOperations|
      invariant 0 <= i <= |isReadOperations|
      invariant wasPut <==> NonStaticCount(sv, isReadOperations[..i]) > 0
      invariant wasPut ==> steps == [EvalReceiver(sv.receiverType)] + Dups(NonStaticCount(sv, isReadOperations[..i]) - 1)
      invariant !wasPut ==> steps == []
    {
      assert isReadOperations[..i + 1][..i] == isReadOperations[..i];
      if sv.IsNonStaticAccess(isReadOperations[i]) {
        if !wasPut {
          steps := steps + [EvalReceiver(sv.receiverType)];
          wasPut := true;
        } else {
          steps := steps + [DupReceiver];
        }
      }
      i := i + 1;
    }
    assert isReadOperations[..i] == isReadOperations;
    if !wasPut && sv.receiverHasSideEffects {
      steps := steps + [EvalReceiver(VoidType)];
    }
  }

  /** The receiver is evaluated at most once, whatever the operations. */
  lemma ReceiverEvaluatedAtMostOnce(sv: SimpleReceiver, ops: seq<bool>, i: int, j: int)
    requires 0 <= i < j < |ReceiverProtocol(sv, ops)|
    ensures !(ReceiverProtocol(sv, ops)[i].EvalReceiver? && ReceiverProtocol(sv, ops)[j].EvalReceiver?)
  {
  }

  /** A local variable slot as `Local` / `LateinitLocal` construct it. */
  datatype Local = Local(index: nat, localType: JvmType, lateinitName: Option<string>)

  /** `Local(index, type)`: a negative index throws. */
  function NewLocal(index: int, t: JvmType): (r: Result<Local>)
    ensures r.Ok? <==> index >= 0
    ensures r.Ok? ==> r.value.index == index && r.value.localType == t && r.value.lateinitName == None
  {
    if index < 0 then Err("local variable index must be non-negative") else Ok(Local(index, t, None))
  }

  /** `LateinitLocal(index, type, name)`: a negative index or a missing name throws. */
  function NewLateinitLocal(index: int, t: JvmType, name: Option<string>): (r: Result<Local>)
    ensures r.Ok? <==> index >= 0 && name.Some?
    ensures r.Ok? ==> r.value == Local(index, t, name)
  {
    if index < 0 then Err("local variable index must be non-negative")
    else if name.None? then Err("Lateinit local variable should have name")
    else Ok(Local(index, t, name))
  }

  /** A shared local: its receiver is the `Local` of the shared-variable object. */
  datatype Shared = Shared(index: nat, sharedType: JvmType, isLateinit: bool, name: Option<string>, receiver: Local)

  /**
   * `Shared(index, type, isLateinit, name)`: the super-constructor argument `local(index, OBJECT_TYPE)`
   * is built first, so a negative index throws before a lateinit shared local without a name does.
   */
  function NewShared(index: int, t: JvmType, isLateinit: bool, name: Option<string>): (r: Result<Shared>)
    ensures r.Err? <==> index < 0 || (isLateinit && name.None?)
    ensures index < 0 ==> r == Err("local variable index must be non-negative")
    ensures r.Ok? ==> r.value.index == index && r.value.sharedType == t && r.value.isLateinit == isLateinit
                      && r.value.name == name && r.value.receiver == Local(index, OBJECT_TYPE, None)
  {
    match NewLocal(index, OBJECT_TYPE)
    case Err(e) => Err(e)
    case Ok(receiver) =>
      if isLateinit && name.None? then Err("Lateinit shared local variable should have name")
      else Ok(Shared(index, t, isLateinit, name, receiver))
  }

  /** `refType`: every object or array type is erased to `java/lang/Object`. */
  function RefType(t: JvmType): (r: JvmType)
    ensures t.IsReference() ==> r == OBJECT_TYPE
    ensures !t.IsReference() ==> r == t
  {
    if t.IsReference() then OBJECT_TYPE else t
  }

  /** The boxed constant `integerConstant` builds. */
  datatype BoxedConstant = BoxedLong(long: int) | BoxedInteger(integer: int) | BoxedCharacter(code: int)

  /** `integerConstant(value, type)`; `Int.toChar()` keeps the low 16 bits. */
  function IntegerConstant(value: int, t: JvmType): (r: Result<BoxedConstant>)
    requires Ints.IsInt(value)
    ensures r.Ok? <==> t in {LongType, ByteType, ShortType, IntType, CharType}
    ensures t == LongType ==> r == Ok(BoxedLong(value))
    ensures t in {ByteType, ShortType, IntType} ==> r == Ok(BoxedInteger(value))
    ensures t == CharType ==>
      r.Ok? && r.value.BoxedCharacter? && 0 <= r.value.code <= Ints.CHAR_MAX && (r.value.code - value) % 0x1_0000 == 0
  {
    if t == LongType then Ok(BoxedLong(value))
    else if t == ByteType || t == ShortType || t == IntType then Ok(BoxedInteger(value))
    else if t == CharType then Ok(BoxedCharacter(value % 0x1_0000))
    else Err("Unexpected integer type")
  }
}
