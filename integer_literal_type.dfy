/**
 * `IntegerLiteralTypeConstructor`: the set of integer types an integer literal may take, and how
 * two such literal types (or a literal type and a plain type) fold into a common supertype or an
 * intersection type.
 */
module IntegerLiteralType {
  import opened Wrappers
  import Ints

  datatype IntegerType = IntT | LongT | ByteT | ShortT | UIntT | ULongT | UByteT | UShortT

  predicate IsSigned(t: IntegerType) { t.IntT? || t.LongT? || t.ByteT? || t.ShortT? }

  /** `minValue()..maxValue()` of the bounded literal types (`Long` and `ULong` are always added). */
  predicate InBounds(value: int, t: IntegerType)
  {
    match t
    case IntT => Ints.INT_MIN <= value <= Ints.INT_MAX
    case ByteT => Ints.BYTE_MIN <= value <= Ints.BYTE_MAX
    case ShortT => Ints.SHORT_MIN <= value <= Ints.SHORT_MAX
    case UIntT => 0 <= value < Ints.TWO_32
    case UByteT => 0 <= value <= 0xff
    case UShortT => 0 <= value <= 0xffff
    case _ => true
  }

  /** `allSignedLiteralTypes`, in declaration order. */
  const SIGNED_TYPES: seq<IntegerType> := [IntT, LongT, ByteT, ShortT]

  /** `allUnsignedLiteralTypes`: empty when the unsigned types are not on the classpath. */
  function UnsignedTypes(unsignedOnClasspath: bool): seq<IntegerType>
  {
    if unsignedOnClasspath then [UIntT, ULongT, UByteT, UShortT] else []
  }

  /** `allIntegerLiteralTypes`: the signed types, then the unsigned ones. */
  function AllTypes(unsignedOnClasspath: bool): seq<IntegerType>
  {
    SIGNED_TYPES + UnsignedTypes(unsignedOnClasspath)
  }

  /** A type other than the integer types (it is never among a literal's possible types). */
  datatype KotlinType = Integer(t: IntegerType) | Other(name: string)

  /** An integer-literal type constructor: its `Long` value and its possible types. */
  datatype LiteralConstructor = LiteralConstructor(value: int, unsignedOnClasspath: bool, possibleTypes: set<IntegerType>)

  /** A `SimpleType` whose constructor is either an integer-literal constructor or something else. */
  datatype SimpleType = LiteralType(c: LiteralConstructor) | PlainType(k: KotlinType)

  /**
   * The public constructor: `Long` always, `Int`/`Byte`/`Short` when the value fits (signed
   * literals); `ULong` always, `UInt`/`UByte`/`UShort` when it fits (unsigned literals); both for a
   * convertible constant. The source asserts that unsigned types are on the classpath whenever
   * unsigned types are asked for.
   */
  method NewLiteralConstructor(value: int, unsignedOnClasspath: bool, isUnsigned: bool, isConvertable: bool)
    returns (c: LiteralConstructor)
    requires Ints.IsLong(value)
    requires isUnsigned || isConvertable ==> unsignedOnClasspath
    ensures c.value == value && c.unsignedOnClasspath == unsignedOnClasspath
    ensures forall t :: t in c.possibleTypes <==>
      (if IsSigned(t) then isConvertable || !isUnsigned else isConvertable || isUnsigned)
      && (t.LongT? || t.ULongT? || InBounds(value, t))
  {
    var all := AllTypes(unsignedOnClasspath);
    var possibleTypes: set<IntegerType> := {};
    if isConvertable {
      possibleTypes := AddSignedPossibleTypes(value, all, possibleTypes);
      possibleTypes := AddUnsignedPossibleTypes(value, all, possibleTypes);
    } else if isUnsigned {
      possibleTypes := AddUnsignedPossibleTypes(value, all, possibleTypes);
    } else {
      possibleTypes := AddSignedPossibleTypes(value, all, possibleTypes);
    }
    c := LiteralConstructor(value, unsignedOnClasspath, possibleTypes);
  }

  /** `addSignedPossibleTypes`: `Long`, and `Int`, `Byte` and `Short` when the value is within their bounds. */
  method AddSignedPossibleTypes(value: int, all: seq<IntegerType>, possibleTypes: set<IntegerType>) returns (r: set<IntegerType>)
    requires |all| >= 4 && all[..4] == SIGNED_TYPES
    ensures forall t :: t in r <==> t in possibleTypes || (IsSigned(t) && (t.LongT? || InBounds(value, t)))
  {
    assert all[0] == IntT && all[1] == LongT && all[2] == ByteT && all[3] == ShortT by {
      assert all[..4][0] == all[0] && all[..4][1] == all[1] && all[..4][2] == all[2] && all[..4][3] == all[3];
    }
    r := possibleTypes;
    if InBounds(value, all[0]) { r := r + {all[0]}; }
    r := r + {all[1]};
    if InBounds(value, all[2]) { r := r + {all[2]}; }
    if InBounds(value, all[3]) { r := r + {all[3]}; }
  }

  /** `addUnsignedPossibleTypes`: `ULong`, and `UInt`, `UByte` and `UShort` when the value is within their bounds. */
  method AddUnsignedPossibleTypes(value: int, all: seq<IntegerType>, possibleTypes: set<IntegerType>) returns (r: set<IntegerType>)
    requires |all| == 8 && all[4..] == UnsignedTypes(true)
    ensures forall t :: t in r <==> t in possibleTypes || (!IsSigned(t) && (t.ULongT? || InBounds(value, t)))
  {
    assert all[4] == UIntT && all[5] == ULongT && all[6] == UByteT && all[7] == UShortT by {
      assert all[4..][0] == all[4] && all[4..][1] == all[5] && all[4..][2] == all[6] && all[4..][3] == all[7];
    }
    r := possibleTypes;
    if InBounds(value, all[4]) { r := r + {all[4]}; }
    r := r + {all[5]};
    if InBounds(value, all[6]) { r := r + {all[6]}; }
    if InBounds(value, all[7]) { r := r + {all[7]}; }
  }

  datatype Mode = CommonSuperType | IntersectionType

  /** Two literal types: intersection of the possible types (common supertype) or union (intersection type). */
  function FoldLiterals(left: LiteralConstructor, right: LiteralConstructor, mode: Mode): (r: SimpleType)
    ensures r.LiteralType? && r.c.value == left.value && r.c.unsignedOnClasspath == left.unsignedOnClasspath
    ensures mode.CommonSuperType? ==> forall t :: t in r.c.possibleTypes <==> t in left.possibleTypes && t in right.possibleTypes
    ensures mode.IntersectionType? ==> forall t :: t in r.c.possibleTypes <==> t in left.possibleTypes || t in right.possibleTypes
  {
    var possible := match mode
      case CommonSuperType => left.possibleTypes * right.possibleTypes
      case IntersectionType => left.possibleTypes + right.possibleTypes;
    LiteralType(LiteralConstructor(left.value, left.unsignedOnClasspath, possible))
  }

  /** A literal type with a plain type: the plain type if the literal may take it, else `null`. */
  function FoldWithPlain(left: LiteralConstructor, right: KotlinType): (r: Option<SimpleType>)
    ensures r.Some? <==> right.Integer? && right.t in left.possibleTypes
    ensures r.Some? ==> r.value == PlainType(right)
  {
    if right.Integer? && right.t in left.possibleTypes then Some(PlainType(right)) else None
  }

  /** `fold` on two nullable types. */
  function Fold(left: Option<SimpleType>, right: Option<SimpleType>, mode: Mode): (r: Option<SimpleType>)
    ensures left.None? || right.None? ==> r.None?
    ensures left.Some? && right.Some? && left.value.PlainType? && right.value.PlainType? ==> r.None?
  {
    if left.None? || right.None? then None
    else match (left.value, right.value)
      case (LiteralType(l), LiteralType(rc)) => Some(FoldLiterals(l, rc, mode))
      case (LiteralType(l), PlainType(k)) => FoldWithPlain(l, k)
      case (PlainType(k), LiteralType(rc)) => FoldWithPlain(rc, k)
      case (PlainType(_), PlainType(_)) => None
  }

  /** `findCommonSuperTypeOrIntersectionType`: `null` for no types, else `reduce` with `fold`. */
  function FindCommonSuperTypeOrIntersectionType(types: seq<SimpleType>, mode: Mode): (r: Option<SimpleType>)
    ensures |types| == 1 ==> r == Some(types[0])
    ensures types == [] ==> r.None?
  {
    if types == [] then None
    else if |types| == 1 then Some(types[0])
    else Fold(FindCommonSuperTypeOrIntersectionType(types[..|types| - 1], mode), Some(types[|types| - 1]), mode)
  }

  /** `findCommonSuperType`: of literal types only, the first value and the types every literal allows. */
  function FindCommonSuperType(types: seq<SimpleType>): (r: Option<SimpleType>)
    ensures types == [] ==> r.None?
    ensures types != [] && AllLiterals(types) ==>
      r.Some? && r.value.LiteralType? && r.value.c.value == types[0].c.value
      && forall t :: t in r.value.c.possibleTypes <==> forall i :: 0 <= i < |types| ==> t in types[i].c.possibleTypes
  {
    if types != [] && AllLiterals(types) then
      FoldOfLiterals(types, CommonSuperType);
      FindCommonSuperTypeOrIntersectionType(types, CommonSuperType)
    else FindCommonSuperTypeOrIntersectionType(types, CommonSuperType)
  }

  /** `findIntersectionType`: of literal types only, the first value and the types some literal allows. */
  function FindIntersectionType(types: seq<SimpleType>): (r: Option<SimpleType>)
    ensures types == [] ==> r.None?
    ensures types != [] && AllLiterals(types) ==>
      r.Some? && r.value.LiteralType? && r.value.c.value == types[0].c.value
      && forall t :: t in r.value.c.possibleTypes <==> exists i :: 0 <= i < |types| && t in types[i].c.possibleTypes
  {
    if types != [] && AllLiterals(types) then
      FoldOfLiterals(types, IntersectionType);
      FindCommonSuperTypeOrIntersectionType(types, IntersectionType)
    else FindCommonSuperTypeOrIntersectionType(types, IntersectionType)
  }

  predicate AllLiterals(types: seq<SimpleType>)
  {
    forall i :: 0 <= i < |types| ==> types[i].LiteralType?
  }

  /**
   * Folding literal types only: the first literal's value, and the possible types that every
   * literal allows (common supertype) or that some literal allows (intersection type).
   */
  lemma {:induction false} FoldOfLiterals(types: seq<SimpleType>, mode: Mode)
    requires types != [] && AllLiterals(types)
    ensures var r := FindCommonSuperTypeOrIntersectionType(types, mode);
      r.Some? && r.value.LiteralType? && r.value.c.value == types[0].c.value
      && (mode.CommonSuperType? ==> forall t :: t in r.value.c.possibleTypes <==>
            forall i :: 0 <= i < |types| ==> t in types[i].c.possibleTypes)
      && (mode.IntersectionType? ==> forall t :: t in r.value.c.possibleTypes <==>
            exists i :: 0 <= i < |types| && t in types[i].c.possibleTypes)
    decreases |types|
  {
    if |types| > 1 {
      var init := types[..|types| - 1];
      var last := types[|types| - 1];
      FoldOfLiterals(init, mode);
      var acc := FindCommonSuperTypeOrIntersectionType(init, mode);
      var r := FindCommonSuperTypeOrIntersectionType(types, mode);
      assert r == Some(FoldLiterals(acc.value.c, last.c, mode));
      if mode.CommonSuperType? {
        forall t ensures t in r.value.c.possibleTypes <==> forall i :: 0 <= i < |types| ==> t in types[i].c.possibleTypes {
          if forall i :: 0 <= i < |types| ==> t in types[i].c.possibleTypes {
            assert forall i :: 0 <= i < |init| ==> t in init[i].c.possibleTypes by {
              forall i | 0 <= i < |init| ensures t in init[i].c.possibleTypes { assert init[i] == types[i]; }
            }
          }
        }
      } else {
        forall t ensures t in r.value.c.possibleTypes <==> exists i :: 0 <= i < |types| && t in types[i].c.possibleTypes {
          if exists i :: 0 <= i < |types| && t in types[i].c.possibleTypes {
            var i :| 0 <= i < |types| && t in types[i].c.possibleTypes;
            if i < |init| { assert init[i] == types[i]; }
          }
          if t in acc.value.c.possibleTypes {
            var i :| 0 <= i < |init| && t in init[i].c.possibleTypes;
            assert types[i] == init[i];
          }
        }
      }
    }
  }

  /** Once an intermediate fold is `null`, the whole reduction is `null`. */
  lemma {:induction false} NullStaysNull(types: seq<SimpleType>, n: nat, mode: Mode)
    requires 1 <= n <= |types| && FindCommonSuperTypeOrIntersectionType(types[..n], mode).None?
    ensures FindCommonSuperTypeOrIntersectionType(types, mode).None?
    decreases |types| - n
  {
    if n == |types| {
      assert types[..n] == types;
    } else {
      assert types[..n + 1][..n] == types[..n];
      NullStaysNull(types, n + 1, mode);
    }
  }

  /** `getApproximatedType`: the first of `Int, Long, Byte, Short, UInt, ULong, UByte, UShort` that is possible. */
  function ApproximatedType(c: LiteralConstructor): (r: Option<IntegerType>)
    ensures r.Some? ==> r.value in c.possibleTypes && r.value in AllTypes(c.unsignedOnClasspath)
    ensures r.Some? ==> exists i :: (0 <= i < |AllTypes(c.unsignedOnClasspath)| && AllTypes(c.unsignedOnClasspath)[i] == r.value
      && forall j :: 0 <= j < i ==> AllTypes(c.unsignedOnClasspath)[j] !in c.possibleTypes)
    ensures r.None? <==> forall t :: t in AllTypes(c.unsignedOnClasspath) ==> t !in c.possibleTypes
  {
    FirstPossible(AllTypes(c.unsignedOnClasspath), c.possibleTypes)
  }

  /** `firstOrNull { it in possible }`. */
  function FirstPossible(order: seq<IntegerType>, possible: set<IntegerType>): (r: Option<IntegerType>)
    ensures r.Some? ==> exists i :: (0 <= i < |order| && order[i] == r.value && r.value in possible
      && forall j :: 0 <= j < i ==> order[j] !in possible)
    ensures r.None? <==> forall t :: t in order ==> t !in possible
  {
    if order == [] then None
    else if order[0] in possible then Some(order[0])
    else
      var r := FirstPossible(order[1..], possible);
      if r.Some? then
        var i :| 0 <= i < |order[1..]| && order[1..][i] == r.value && r.value in possible
          && forall j :: 0 <= j < i ==> order[1..][j] !in possible;
        assert order[i + 1] == r.value;
        r
      else r
  }

  /** A signed literal that fits in an `Int` is approximated by `Int`; one that does not, by `Long`. */
  lemma SignedApproximation(c: LiteralConstructor)
    requires LongT in c.possibleTypes && forall t :: t in c.possibleTypes ==> IsSigned(t)
    ensures ApproximatedType(c) == if IntT in c.possibleTypes then Some(IntT) else Some(LongT)
  {
    var all := AllTypes(c.unsignedOnClasspath);
    assert all[0] == IntT && all[1] == LongT;
  }

  datatype Supertype = ComparableOfSelf | Number

  /** `supertypes`: `Comparable<Self>`, then `Number` unless only unsigned types are possible. */
  function Supertypes(c: LiteralConstructor): (r: seq<Supertype>)
    ensures |r| >= 1 && r[0] == ComparableOfSelf
    ensures Number in r <==> exists t :: t in c.possibleTypes && IsSigned(t)
  {
    var onlyUnsigned := forall t :: t in SIGNED_TYPES ==> t !in c.possibleTypes;
    assert onlyUnsigned <==> forall t :: t in c.possibleTypes ==> !IsSigned(t) by {
      assert forall t :: IsSigned(t) <==> t in SIGNED_TYPES;
    }
    [ComparableOfSelf] + (if onlyUnsigned then [] else [Number])
  }
}
