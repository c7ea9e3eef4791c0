/**
 * `StandardClassIds`: the class ids of the built-in types in package `kotlin`, and the two maps
 * between the primitive types and their primitive array types.
 */
module StandardClassIds {
  import opened Wrappers
  import FirName
  import Callables

  const BASE_KOTLIN_PACKAGE: Callables.FqSegments := [FirName.Identifier("kotlin")]

  /** `String.baseId()`. */
  function BaseId(name: string): (r: Callables.ClassId)
    ensures r.packageFqName == BASE_KOTLIN_PACKAGE
    ensures Callables.ShortClassName(r) == Some(FirName.Identifier(name))
  {
    Callables.ClassId(BASE_KOTLIN_PACKAGE, [FirName.Identifier(name)])
  }

  /** `byName(name)`: the class of that name in package "kotlin", the same id the constants use. */
  function ByName(name: string): (r: Callables.ClassId)
    ensures r.packageFqName == BASE_KOTLIN_PACKAGE && r.relativeClassName == [FirName.Identifier(name)]
  {
    BaseId(name)
  }

  const ARRAY: Callables.ClassId := BaseId("Array")

  /** The eight primitive types, in the order `addPrimitive` is called. */
  const PRIMITIVE_NAMES: seq<string> := ["Boolean", "Char", "Byte", "Short", "Int", "Long", "Float", "Double"]

  /**
   * `FirName.arrayId()`: `identifier + Array.shortClassName.identifier` in `Array`'s package; the
   * `identifier` getter throws on a special name.
   */
  function ArrayId(n: FirName.Name): (r: Result<Callables.ClassId>)
    ensures r.Err? <==> n.isSpecial
    ensures r.Ok? ==> (r.value.packageFqName == ARRAY.packageFqName
      && r.value.relativeClassName == [FirName.Identifier(n.name + "Array")])
  {
    match FirName.GetIdentifier(n)
    case Err(e) => Err(e)
    case Ok(element) => Ok(Callables.ClassId(ARRAY.packageFqName, [FirName.Identifier(element + "Array")]))
  }

  /** `addPrimitive(id)`'s value for a base id: its short name turned into the array id. */
  function ArrayOfBase(name: string): (r: Callables.ClassId)
    ensures ArrayId(FirName.Identifier(name)) == Ok(r)
  {
    Callables.ClassId(BASE_KOTLIN_PACKAGE, [FirName.Identifier(name + "Array")])
  }

  /** The base ids of the given names. */
  function BaseIds(names: seq<string>): set<Callables.ClassId>
  {
    set n | n in names :: BaseId(n)
  }

  /** The array ids of the given names. */
  function ArrayIds(names: seq<string>): set<Callables.ClassId>
  {
    set n | n in names :: ArrayOfBase(n)
  }

  lemma BaseIdsSnoc(names: seq<string>, n: string)
    ensures BaseIds(names + [n]) == BaseIds(names) + {BaseId(n)}
  {
    forall y | y in BaseIds(names + [n])
      ensures y in BaseIds(names) + {BaseId(n)}
    {
      var x :| x in names + [n] && y == BaseId(x);
      if x != n { assert x in names; }
    }
    forall x | x in names ensures BaseId(x) in BaseIds(names + [n]) {
      assert x in names + [n];
    }
    assert n in names + [n];
  }

  lemma ArrayIdsSnoc(names: seq<string>, n: string)
    ensures ArrayIds(names + [n]) == ArrayIds(names) + {ArrayOfBase(n)}
  {
    forall y | y in ArrayIds(names + [n])
      ensures y in ArrayIds(names) + {ArrayOfBase(n)}
    {
      var x :| x in names + [n] && y == ArrayOfBase(x);
      if x != n { assert x in names; }
    }
    forall x | x in names ensures ArrayOfBase(x) in ArrayIds(names + [n]) {
      assert x in names + [n];
    }
    assert n in names + [n];
  }

  /** The `apply` block: one `put` per primitive, in order. */
  function PutAll(names: seq<string>): (r: map<Callables.ClassId, Callables.ClassId>)
    ensures r.Keys == BaseIds(names)
    ensures forall n :: n in names ==> BaseId(n) in r && r[BaseId(n)] == ArrayOfBase(n)
  {
    if names == [] then map[]
    else
      var n := names[|names| - 1];
      var init := PutAll(names[..|names| - 1]);
      PutStep(init, names);
      init[BaseId(n) := ArrayOfBase(n)]
  }

  /** One more `put` adds the last name's base id as a key, mapped to its array id, and leaves the other entries. */
  lemma PutStep(m: map<Callables.ClassId, Callables.ClassId>, names: seq<string>)
    requires names != []
    requires m.Keys == BaseIds(names[..|names| - 1])
    requires forall x :: x in names[..|names| - 1] ==> BaseId(x) in m && m[BaseId(x)] == ArrayOfBase(x)
    ensures var n := names[|names| - 1]; var m' := m[BaseId(n) := ArrayOfBase(n)];
      m'.Keys == BaseIds(names) && forall x :: x in names ==> BaseId(x) in m' && m'[BaseId(x)] == ArrayOfBase(x)
  {
    var init, n := names[..|names| - 1], names[|names| - 1];
    var m' := m[BaseId(n) := ArrayOfBase(n)];
    assert names == init + [n];
    BaseIdsSnoc(init, n);
    forall x | x in names
      ensures BaseId(x) in m' && m'[BaseId(x)] == ArrayOfBase(x)
    {
      if x != n {
        assert x in init;
        assert BaseId(x) != BaseId(n) by {
          assert BaseId(x).relativeClassName[0] != BaseId(n).relativeClassName[0];
        }
      }
    }
  }

  /** `primitiveArrayTypeByElementType`. */
  function PrimitiveArrayTypeByElementType(): map<Callables.ClassId, Callables.ClassId>
  {
    PutAll(PRIMITIVE_NAMES)
  }

  /** `elementTypeByPrimitiveArrayType`: each entry of the first map turned around. */
  function ElementTypeByPrimitiveArrayType(): map<Callables.ClassId, Callables.ClassId>
  {
    Invert(PRIMITIVE_NAMES)
  }

  /** The `map { (k, v) -> v to k }.toMap()` of `PutAll(names)`, by the same names. */
  function Invert(names: seq<string>): (r: map<Callables.ClassId, Callables.ClassId>)
    ensures r.Keys == ArrayIds(names)
    ensures forall n :: n in names ==> ArrayOfBase(n) in r && r[ArrayOfBase(n)] == BaseId(n)
  {
    if names == [] then map[]
    else
      var n := names[|names| - 1];
      var init := Invert(names[..|names| - 1]);
      InvertStep(init, names);
      init[ArrayOfBase(n) := BaseId(n)]
  }

  /** One more name adds its array id as a key, mapped to its base id, and leaves the other entries. */
  lemma InvertStep(m: map<Callables.ClassId, Callables.ClassId>, names: seq<string>)
    requires names != []
    requires m.Keys == ArrayIds(names[..|names| - 1])
    requires forall x :: x in names[..|names| - 1] ==> ArrayOfBase(x) in m && m[ArrayOfBase(x)] == BaseId(x)
    ensures var n := names[|names| - 1]; var m' := m[ArrayOfBase(n) := BaseId(n)];
      m'.Keys == ArrayIds(names) && forall x :: x in names ==> ArrayOfBase(x) in m' && m'[ArrayOfBase(x)] == BaseId(x)
  {
    var init, n := names[..|names| - 1], names[|names| - 1];
    var m' := m[ArrayOfBase(n) := BaseId(n)];
    assert names == init + [n];
    ArrayIdsSnoc(init, n);
    forall x | x in names
      ensures ArrayOfBase(x) in m' && m'[ArrayOfBase(x)] == BaseId(x)
    {
      if x != n {
        assert x in init;
        ArrayOfBaseIsInjective();
      }
    }
  }

  /** Every base id lives in package "kotlin", and so does every primitive array id. */
  lemma AllInKotlinPackage()
    ensures forall k :: k in PrimitiveArrayTypeByElementType() ==> (k.packageFqName == BASE_KOTLIN_PACKAGE
      && PrimitiveArrayTypeByElementType()[k].packageFqName == BASE_KOTLIN_PACKAGE)
  {
  }

  /** Each primitive maps to "<Name>Array". */
  lemma PrimitiveArrayNames(name: string)
    requires name in PRIMITIVE_NAMES
    ensures PrimitiveArrayTypeByElementType()[BaseId(name)] == ArrayOfBase(name)
    ensures Callables.ShortClassName(PrimitiveArrayTypeByElementType()[BaseId(name)]) == Some(FirName.Identifier(name + "Array"))
  {
  }

  /** The two maps are inverse to each other. */
  lemma MapsAreInverse()
    ensures forall k :: k in PrimitiveArrayTypeByElementType() ==>
      PrimitiveArrayTypeByElementType()[k] in ElementTypeByPrimitiveArrayType()
      && ElementTypeByPrimitiveArrayType()[PrimitiveArrayTypeByElementType()[k]] == k
    ensures forall v :: v in ElementTypeByPrimitiveArrayType() ==>
      ElementTypeByPrimitiveArrayType()[v] in PrimitiveArrayTypeByElementType()
      && PrimitiveArrayTypeByElementType()[ElementTypeByPrimitiveArrayType()[v]] == v
  {
  }

  /** Both maps have exactly eight entries. */
  lemma EightEntries()
    ensures |PrimitiveArrayTypeByElementType()| == 8
    ensures |ElementTypeByPrimitiveArrayType()| == 8
  {
    PrimitiveNamesDistinct();
    EntryCounts(PRIMITIVE_NAMES);
  }

  lemma PrimitiveNamesDistinct()
    ensures forall i, j :: 0 <= i < j < |PRIMITIVE_NAMES| ==> PRIMITIVE_NAMES[i] != PRIMITIVE_NAMES[j]
  {
    forall i, j | 0 <= i < j < |PRIMITIVE_NAMES|
      ensures PRIMITIVE_NAMES[i] != PRIMITIVE_NAMES[j]
    {
      assert PRIMITIVE_NAMES[i][0] != PRIMITIVE_NAMES[j][0] || |PRIMITIVE_NAMES[i]| != |PRIMITIVE_NAMES[j]|;
    }
  }

  /** Distinct names give one entry each in both maps. */
  lemma EntryCounts(names: seq<string>)
    requires forall i, j :: 0 <= i < j < |names| ==> names[i] != names[j]
    ensures |PutAll(names)| == |names| && |Invert(names)| == |names|
  {
    BaseIdInjective(names);
    ArrayOfBaseInjective(names);
  }

  lemma {:induction false} BaseIdInjective(names: seq<string>)
    requires forall i, j :: 0 <= i < j < |names| ==> names[i] != names[j]
    ensures |BaseIds(names)| == |names|
  {
    if names != [] {
      var init := names[..|names| - 1];
      var n := names[|names| - 1];
      BaseIdInjective(init);
      assert names == init + [n];
      var before := BaseIds(init);
      BaseIdsSnoc(init, n);
      forall x | x in init
        ensures BaseId(x) != BaseId(n)
      {
        var i :| 0 <= i < |init| && init[i] == x;
        assert names[i] == x;
      }
      assert BaseId(n) !in before;
      assert |before + {BaseId(n)}| == |before| + 1;
    }
  }

  lemma {:induction false} ArrayOfBaseInjective(names: seq<string>)
    requires forall i, j :: 0 <= i < j < |names| ==> names[i] != names[j]
    ensures |ArrayIds(names)| == |names|
  {
    if names != [] {
      var init := names[..|names| - 1];
      var n := names[|names| - 1];
      ArrayOfBaseInjective(init);
      assert names == init + [n];
      var before := ArrayIds(init);
      ArrayIdsSnoc(init, n);
      forall x | x in init
        ensures ArrayOfBase(x) != ArrayOfBase(n)
      {
        var i :| 0 <= i < |init| && init[i] == x;
        assert names[i] == x;
        ArrayOfBaseIsInjective();
      }
      assert ArrayOfBase(n) !in before;
      assert |before + {ArrayOfBase(n)}| == |before| + 1;
    }
  }

  /** Different element names give different array ids. */
  lemma ArrayOfBaseIsInjective()
    ensures forall x, n :: ArrayOfBase(x) == ArrayOfBase(n) ==> x == n
  {
    forall x, n | ArrayOfBase(x) == ArrayOfBase(n)
      ensures x == n
    {
      assert x + "Array" == n + "Array";
      assert x == (x + "Array")[..|x|] && n == (n + "Array")[..|n|];
    }
  }
}
