/**
 * The part of the JVM that the code generator's stack discipline relies on: value types with
 * their slot sizes, the operand stack as a sequence of 32-bit slots (top is the last element),
 * local variables, and the effect of each emitted instruction as given in section 6.5 of the
 * Java Virtual Machine Specification.
 */
module JvmStack {
  import opened Wrappers
  import Ints

  datatype JvmType =
    | VoidType | BooleanType | CharType | ByteType | ShortType | IntType | FloatType | LongType | DoubleType
    | ObjectType(internalName: string)
    | ArrayType(element: JvmType)
  {
    /** Number of stack slots a value of this type occupies. */
    function Size(): nat
    {
      if this == VoidType then 0 else if this == LongType || this == DoubleType then 2 else 1
    }

    predicate IsReference() { ObjectType? || ArrayType? }
  }

  const OBJECT_TYPE: JvmType := ObjectType("java/lang/Object")
  const UNIT_TYPE: JvmType := ObjectType("kotlin/Unit")

  /** One 32-bit stack or local-variable slot. */
  datatype Slot = Word(bits: int) | UnitInstance | NullRef | Ref(id: int)

  datatype Insn =
    | Swap | Pop | Pop2 | Dup | DupX1 | DupX2 | Dup2 | Dup2X1 | Dup2X2
    | Load(index: nat, loaded: JvmType)
    | Iinc(local: nat, increment: int)
    | PushUnit
    | AconstNull
    | PushDefault(primitive: JvmType)
    | I2C
    /** `checkcast`, and the boxing, unboxing and primitive-cast helpers `coerce` calls: their effect is left open. */
    | Checkcast(castTo: JvmType)
    | Box(boxFrom: JvmType, boxTo: JvmType)
    | Unbox(unboxFrom: JvmType, unboxTo: JvmType)
    | Cast(castFrom: JvmType, castTarget: JvmType)

  datatype Frame = Frame(stack: seq<Slot>, locals: map<nat, Slot>)

  /** Copy the top `n` slots beneath the `m` slots below them (dup, dup_x1, dup_x2, dup2, dup2_x1, dup2_x2). */
  function CopyUnder(st: seq<Slot>, n: nat, m: nat): seq<Slot>
    requires n + m <= |st|
  {
    st[..|st| - n - m] + st[|st| - n..] + st[|st| - n - m..]
  }

  function Zeros(n: nat): (r: seq<Slot>)
    ensures |r| == n
  {
    seq(n, _ => Word(0))
  }

  /** One instruction; `None` when the instruction cannot execute (stack underflow, missing local). */
  function Step(insn: Insn, f: Frame): Option<Frame>
  {
    var st := f.stack;
    var n := |st|;
    match insn
    case Swap => if n < 2 then None else Some(f.(stack := st[..n - 2] + [st[n - 1], st[n - 2]]))
    case Pop => if n < 1 then None else Some(f.(stack := st[..n - 1]))
    case Pop2 => if n < 2 then None else Some(f.(stack := st[..n - 2]))
    case Dup => if n < 1 then None else Some(f.(stack := CopyUnder(st, 1, 0)))
    case DupX1 => if n < 2 then None else Some(f.(stack := CopyUnder(st, 1, 1)))
    case DupX2 => if n < 3 then None else Some(f.(stack := CopyUnder(st, 1, 2)))
    case Dup2 => if n < 2 then None else Some(f.(stack := CopyUnder(st, 2, 0)))
    case Dup2X1 => if n < 3 then None else Some(f.(stack := CopyUnder(st, 2, 1)))
    case Dup2X2 => if n < 4 then None else Some(f.(stack := CopyUnder(st, 2, 2)))
    case Load(index, t) =>
      if t.Size() == 1 && index in f.locals then Some(f.(stack := st + [f.locals[index]]))
      else if t.Size() == 2 && index in f.locals && index + 1 in f.locals then
        Some(f.(stack := st + [f.locals[index], f.locals[index + 1]]))
      else None
    case Iinc(index, inc) =>
      if index in f.locals && f.locals[index].Word? && Ints.IsInt(f.locals[index].bits) then
        Some(f.(locals := f.locals[index := Word(Ints.WrapInt(f.locals[index].bits + inc))]))
      else None
    case PushUnit => Some(f.(stack := st + [UnitInstance]))
    case AconstNull => Some(f.(stack := st + [NullRef]))
    case PushDefault(t) => Some(f.(stack := st + Zeros(t.Size())))
    case I2C =>
      if n >= 1 && st[n - 1].Word? then Some(f.(stack := st[..n - 1] + [Word(st[n - 1].bits % 0x1_0000)])) else None
    case Checkcast(_) => None
    case Box(_, _) => None
    case Unbox(_, _) => None
    case Cast(_, _) => None
  }

  function Exec(code: seq<Insn>, f: Frame): Option<Frame>
    decreases |code|
  {
    if code == [] then Some(f)
    else match Step(code[0], f)
      case None => None
      case Some(g) => Exec(code[1..], g)
  }

  /** Running `a + b` is running `a`, then `b` on the frame it leaves. */
  lemma {:induction false} ExecAppend(a: seq<Insn>, b: seq<Insn>, f: Frame)
    ensures Exec(a + b, f) == (match Exec(a, f) case None => None case Some(g) => Exec(b, g))
    decreases |a|
  {
    if a == [] {
      assert a + b == b;
    } else {
      assert (a + b)[0] == a[0];
      assert (a + b)[1..] == a[1..] + b;
      match Step(a[0], f)
      case None =>
      case Some(g) => ExecAppend(a[1..], b, g);
    }
  }

  lemma ExecSingle(i: Insn, f: Frame)
    ensures Exec([i], f) == Step(i, f)
  {
    assert [i][1..] == [];
  }

  lemma ExecPair(i: Insn, j: Insn, f: Frame)
    ensures Exec([i, j], f) == (match Step(i, f) case None => None case Some(g) => Step(j, g))
  {
    assert [i, j][1..] == [j];
    match Step(i, f)
    case None =>
    case Some(g) => ExecSingle(j, g);
  }
}
