/**
 * `MagicBoxImpl`: the decompiler's store of what each scope declares, references and writes as an
 * explicit type, keyed by the scope list joined with ".", with a flag telling whether the names
 * have been refreshed since the last insertion.
 */
module MagicBox {
  import opened Wrappers
  import Text
  import StringOrder
  import opened MagicBoxInfo

  /** An `IrDeclarationWithName`, compared by identity (`id`), with its `fqNameWhenAvailable`. */
  datatype NamedDeclaration = NamedDeclaration(id: nat, name: string, fqName: Option<string>)

  /** The key a scope list is stored under. */
  function ScopeKey(scopeList: seq<string>): string
  {
    Text.Join(scopeList, ".")
  }

  /** Two different scope lists can share a key, which is why lookups also compare the scope list. */
  lemma ScopeKeysCollide()
    ensures ["a.b"] != ["a", "b"] && ScopeKey(["a.b"]) == ScopeKey(["a", "b"])
  {
    assert ScopeKey(["a", "b"]) == "a" + "." + ScopeKey(["b"]);
  }

  /** `addToValueSetOrInitializeIt` on a table of sets: a singleton under a new key, one more element under an old one. */
  function AddToValueSet<T>(m: map<string, set<T>>, key: string, element: T): (r: map<string, set<T>>)
    ensures r.Keys == m.Keys + {key}
    ensures key !in m ==> r[key] == {element}
    ensures key in m ==> r[key] == m[key] + {element}
    ensures forall k :: k in m && k != key ==> r[k] == m[k]
  {
    if key in m then m[key := m[key] + {element}] else m[key := {element}]
  }

  /**
   * The same on a table of freshly created infos: each is a new object, so it is always added, and
   * the set keeps insertion order.
   */
  function AddToValueSeq<T>(m: map<string, seq<T>>, key: string, element: T): (r: map<string, seq<T>>)
    ensures r.Keys == m.Keys + {key}
    ensures key !in m ==> r[key] == [element]
    ensures key in m ==> r[key] == m[key] + [element]
    ensures forall k :: k in m && k != key ==> r[k] == m[k]
  {
    if key in m then m[key := m[key] + [element]] else m[key := [element]]
  }

  /** Kotlin's `find`: the index of the first element satisfying `p`. */
  function FindFirst<T>(s: seq<T>, p: T -> bool): (r: Option<nat>)
    ensures r.None? <==> forall j :: 0 <= j < |s| ==> !p(s[j])
    ensures r.Some? ==> r.value < |s| && p(s[r.value]) && forall j :: 0 <= j < r.value ==> !p(s[j])
  {
    if s == [] then None
    else if p(s[0]) then Some(0)
    else
      match FindFirst(s[1..], p)
      case None => None
      case Some(i) => Some(i + 1)
  }

  /** The name `obtainDeclarationReferenceDescription` returns; `!!` on a missing key or no match throws. */
  function ReferenceDescription(m: map<string, seq<DeclarationReferenceInfo>>, scopeList: seq<string>, reference: DeclarationReference)
    : (r: Result<string>)
    ensures r.Ok? <==> ScopeKey(scopeList) in m && exists j :: (0 <= j < |m[ScopeKey(scopeList)]|
      && m[ScopeKey(scopeList)][j].reference == reference && m[ScopeKey(scopeList)][j].scopeList == scopeList)
    ensures r.Ok? ==> exists j :: (0 <= j < |m[ScopeKey(scopeList)]| && m[ScopeKey(scopeList)][j].calculatedName == r.value
      && m[ScopeKey(scopeList)][j].reference == reference && m[ScopeKey(scopeList)][j].scopeList == scopeList)
  {
    var key := ScopeKey(scopeList);
    if key !in m then Err("NullPointerException")
    else
      match FindFirst(m[key], (x: DeclarationReferenceInfo) => x.reference == reference && x.scopeList == scopeList)
      case None => Err("NullPointerException")
      case Some(j) => Ok(m[key][j].calculatedName)
  }

  /** The name `obtainTypeDescriptionForScope` returns. */
  function TypeDescription(m: map<string, seq<TypeInfo>>, scopeList: seq<string>, t: IrType): (r: Result<string>)
    ensures r.Ok? <==> ScopeKey(scopeList) in m && exists j :: (0 <= j < |m[ScopeKey(scopeList)]|
      && m[ScopeKey(scopeList)][j].irType == t && m[ScopeKey(scopeList)][j].scopeList == scopeList)
    ensures r.Ok? ==> exists j :: (0 <= j < |m[ScopeKey(scopeList)]| && m[ScopeKey(scopeList)][j].calculatedName == r.value
      && m[ScopeKey(scopeList)][j].irType == t && m[ScopeKey(scopeList)][j].scopeList == scopeList)
  {
    var key := ScopeKey(scopeList);
    if key !in m then Err("NullPointerException")
    else
      match FindFirst(m[key], (x: TypeInfo) => x.irType == t && x.scopeList == scopeList)
      case None => Err("NullPointerException")
      case Some(j) => Ok(m[key][j].calculatedName)
  }

  /** The joined import paths of the references whose path has at least two parts. */
  function DeclarationImports(m: map<string, seq<DeclarationReferenceInfo>>): set<string>
  {
    set k, j | k in m.Keys && 0 <= j < |m[k]| && |m[k][j].calculatedListForImport| > 1 :: Text.Join(m[k][j].calculatedListForImport, ".")
  }

  /** The fq-names of the declarations made locally. */
  function LocalDeclarations(m: map<string, set<NamedDeclaration>>): set<string>
  {
    set k, d | k in m.Keys && d in m[k] && d.fqName.Some? :: d.fqName.value
  }

  /** The `filter { isNotEmpty() }.filterNot { startsWith("kotlin") }` stage. */
  predicate KeepImport(x: string)
  {
    x != "" && !("kotlin" <= x)
  }

  function FilterImports(s: seq<string>): seq<string>
  {
    if s == [] then [] else (if KeepImport(s[0]) then [s[0]] else []) + FilterImports(s[1..])
  }

  /** The filter keeps exactly the wanted elements, and keeps them in order. */
  lemma {:induction false} FilterImportsSpec(s: seq<string>)
    ensures forall x :: x in FilterImports(s) <==> x in s && KeepImport(x)
    ensures StringOrder.StrictlySorted(s) ==> StringOrder.StrictlySorted(FilterImports(s))
  {
    if s != [] {
      var rest := FilterImports(s[1..]);
      FilterImportsSpec(s[1..]);
      assert forall x :: x in s <==> x == s[0] || x in s[1..];
      if StringOrder.StrictlySorted(s) && KeepImport(s[0]) {
        assert StringOrder.StrictlySorted(s[1..]) by {
          forall i, j | 0 <= i < j < |s[1..]|
            ensures StringOrder.Less(s[1..][i], s[1..][j])
          {
            assert s[1..][i] == s[i + 1] && s[1..][j] == s[j + 1];
          }
        }
        forall y | y in rest
          ensures StringOrder.Less(s[0], y)
        {
          var k :| 1 <= k < |s| && s[k] == y;
        }
        var r := [s[0]] + rest;
        forall i, j | 0 <= i < j < |r|
          ensures StringOrder.Less(r[i], r[j])
        {
          assert r[j] == rest[j - 1] && r[j] in rest;
          if i > 0 {
            assert r[i] == rest[i - 1];
          }
        }
      }
    }
  }

  /** The imports, in the order they are written. */
  function ImportList(references: map<string, seq<DeclarationReferenceInfo>>, declarations: map<string, set<NamedDeclaration>>)
    : (r: seq<string>)
    ensures StringOrder.StrictlySorted(r)
    ensures forall x :: x in r ==> KeepImport(x) && x !in LocalDeclarations(declarations)
  {
    var sorted := StringOrder.SortedOf(DeclarationImports(references) - LocalDeclarations(declarations));
    FilterImportsSpec(sorted);
    FilterImports(sorted)
  }

  /**
   * The listed imports are sorted, without repeats, and are exactly the joined paths of at least
   * two parts that are not declared locally, are non-empty and do not start with "kotlin".
   */
  lemma ImportListSpec(references: map<string, seq<DeclarationReferenceInfo>>, declarations: map<string, set<NamedDeclaration>>)
    ensures StringOrder.StrictlySorted(ImportList(references, declarations))
    ensures forall x :: x in ImportList(references, declarations) <==>
      x in DeclarationImports(references) && x !in LocalDeclarations(declarations) && KeepImport(x)
  {
    FilterImportsSpec(StringOrder.SortedOf(DeclarationImports(references) - LocalDeclarations(declarations)));
  }

  /** `joinToString("\n", "\n", "\n") { "import $it" }`. */
  function ImportText(imports: seq<string>): (r: string)
    ensures imports == [] ==> r == "\n\n"
    ensures |r| >= 2 && r[0] == '\n' && r[|r| - 1] == '\n'
  {
    "\n" + Text.Join(seq(|imports|, i requires 0 <= i < |imports| => "import " + imports[i]), "\n") + "\n"
  }

  /** One import is written on its own line. */
  lemma ImportTextOfOne(x: string)
    ensures ImportText([x]) == "\nimport " + x + "\n"
  {
    assert seq(1, i requires 0 <= i < 1 => "import " + [x][i]) == ["import " + x];
  }

  /** The text `obtainImportStatementsList` returns. */
  function ImportStatements(references: map<string, seq<DeclarationReferenceInfo>>, declarations: map<string, set<NamedDeclaration>>)
    : string
  {
    ImportText(ImportList(references, declarations))
  }

  /** Every stored reference info is the one its scope list and reference give, under its scope's key. */
  predicate ReferencesConsistent(m: map<string, seq<DeclarationReferenceInfo>>)
  {
    forall k, j :: k in m && 0 <= j < |m[k]| ==>
      ScopeKey(m[k][j].scopeList) == k && DeclarationReferenceInfoOf(m[k][j].scopeList, m[k][j].reference) == Ok(m[k][j])
  }

  /** Every stored type info is the one its scope list and type give, under its scope's key. */
  predicate TypesConsistent(m: map<string, seq<TypeInfo>>)
  {
    forall k, j :: k in m && 0 <= j < |m[k]| ==>
      ScopeKey(m[k][j].scopeList) == k && TypeInfoOf(m[k][j].scopeList, m[k][j].irType) == Ok(m[k][j])
  }

  /** Putting a reference's info under its scope's key keeps the table consistent. */
  lemma ReferencesConsistentAfterPut(m: map<string, seq<DeclarationReferenceInfo>>, scopeList: seq<string>, reference: DeclarationReference)
    requires ReferencesConsistent(m)
    requires DeclarationReferenceInfoOf(scopeList, reference).Ok?
    ensures ReferencesConsistent(AddToValueSeq(m, ScopeKey(scopeList), DeclarationReferenceInfoOf(scopeList, reference).value))
  {
    var info := DeclarationReferenceInfoOf(scopeList, reference).value;
    var key := ScopeKey(scopeList);
    var m': map<string, seq<DeclarationReferenceInfo>> := AddToValueSeq(m, key, info);
    forall k: string, j: int | k in m' && 0 <= j < |m'[k]|
      ensures ScopeKey(m'[k][j].scopeList) == k && DeclarationReferenceInfoOf(m'[k][j].scopeList, m'[k][j].reference) == Ok(m'[k][j])
    {
      if k == key && j == |m'[k]| - 1 {
        assert m'[k][j] == info;
      } else {
        assert m'[k][j] == m[k][j];
      }
    }
  }

  /** A reference put under a scope is then described by its default name. */
  lemma ReferenceDescriptionAfterPut(m: map<string, seq<DeclarationReferenceInfo>>, scopeList: seq<string>, reference: DeclarationReference)
    requires ReferencesConsistent(m)
    requires DeclarationReferenceInfoOf(scopeList, reference).Ok?
    ensures ReferencesConsistent(AddToValueSeq(m, ScopeKey(scopeList), DeclarationReferenceInfoOf(scopeList, reference).value))
    ensures ReferenceDescription(AddToValueSeq(m, ScopeKey(scopeList), DeclarationReferenceInfoOf(scopeList, reference).value), scopeList, reference)
      == Ok(ReferenceDefaultName(reference).value)
  {
    ReferencesConsistentAfterPut(m, scopeList, reference);
    var info := DeclarationReferenceInfoOf(scopeList, reference).value;
    var key := ScopeKey(scopeList);
    var m' := AddToValueSeq(m, key, info);
    assert m'[key][|m'[key]| - 1] == info;
    var r := ReferenceDescription(m', scopeList, reference);
    var j :| 0 <= j < |m'[key]| && m'[key][j].calculatedName == r.value && m'[key][j].reference == reference && m'[key][j].scopeList == scopeList;
    assert DeclarationReferenceInfoOf(scopeList, reference) == Ok(m'[key][j]);
  }

  /** Putting a type's info under its scope's key keeps the table consistent. */
  lemma TypesConsistentAfterPut(m: map<string, seq<TypeInfo>>, scopeList: seq<string>, t: IrType)
    requires TypesConsistent(m)
    requires TypeInfoOf(scopeList, t).Ok?
    ensures TypesConsistent(AddToValueSeq(m, ScopeKey(scopeList), TypeInfoOf(scopeList, t).value))
  {
    var info := TypeInfoOf(scopeList, t).value;
    var key := ScopeKey(scopeList);
    var m': map<string, seq<TypeInfo>> := AddToValueSeq(m, key, info);
    forall k: string, j: int | k in m' && 0 <= j < |m'[k]|
      ensures ScopeKey(m'[k][j].scopeList) == k && TypeInfoOf(m'[k][j].scopeList, m'[k][j].irType) == Ok(m'[k][j])
    {
      if k == key && j == |m'[k]| - 1 {
        assert m'[k][j] == info;
      } else {
        assert m'[k][j] == m[k][j];
      }
    }
  }

  /** A type put under a scope is then described by its nested name. */
  lemma TypeDescriptionAfterPut(m: map<string, seq<TypeInfo>>, scopeList: seq<string>, t: IrType)
    requires TypesConsistent(m)
    requires TypeInfoOf(scopeList, t).Ok?
    ensures TypesConsistent(AddToValueSeq(m, ScopeKey(scopeList), TypeInfoOf(scopeList, t).value))
    ensures TypeDescription(AddToValueSeq(m, ScopeKey(scopeList), TypeInfoOf(scopeList, t).value), scopeList, t)
      == Ok(TypeDefaultName(t).value)
  {
    TypesConsistentAfterPut(m, scopeList, t);
    var info := TypeInfoOf(scopeList, t).value;
    var key := ScopeKey(scopeList);
    var m' := AddToValueSeq(m, key, info);
    assert m'[key][|m'[key]| - 1] == info;
    var r := TypeDescription(m', scopeList, t);
    var j :| 0 <= j < |m'[key]| && m'[key][j].calculatedName == r.value && m'[key][j].irType == t && m'[key][j].scopeList == scopeList;
    assert TypeInfoOf(scopeList, t) == Ok(m'[key][j]);
  }

  class MagicBoxImpl {
    var declarationsWithNameByScopeMap: map<string, set<NamedDeclaration>>
    var declarationReferencesByScopeMap: map<string, seq<DeclarationReferenceInfo>>
    var explicitTypesByScopeMap: map<string, seq<TypeInfo>>
    var isFreshState: bool

    /** The tables hold only infos built from their own scope and node, each under its scope's key. */
    predicate Valid()
      reads this
    {
      ReferencesConsistent(declarationReferencesByScopeMap) && TypesConsistent(explicitTypesByScopeMap)
    }

    constructor()
      ensures Valid()
      ensures declarationsWithNameByScopeMap == map[] && declarationReferencesByScopeMap == map[] && explicitTypesByScopeMap == map[]
      ensures isFreshState
    {
      declarationsWithNameByScopeMap := map[];
      declarationReferencesByScopeMap := map[];
      explicitTypesByScopeMap := map[];
      isFreshState := true;
    }

    /** `putDeclarationWithName`: recorded under its scope, and the state goes stale. */
    method PutDeclarationWithName(scopeList: seq<string>, declaration: NamedDeclaration)
      requires Valid()
      modifies this
      ensures Valid()
      ensures declarationsWithNameByScopeMap == AddToValueSet(old(declarationsWithNameByScopeMap), ScopeKey(scopeList), declaration)
      ensures declarationReferencesByScopeMap == old(declarationReferencesByScopeMap)
      ensures explicitTypesByScopeMap == old(explicitTypesByScopeMap)
      ensures !isFreshState
    {
      declarationsWithNameByScopeMap := AddToValueSet(declarationsWithNameByScopeMap, ScopeKey(scopeList), declaration);
      isFreshState := false;
    }

    /**
     * `putCalledDeclarationReferenceWithScope`: the new info is recorded under its scope and the
     * state goes stale; when the info cannot be built, the exception leaves everything as it was.
     */
    method PutCalledDeclarationReferenceWithScope(scopeList: seq<string>, reference: DeclarationReference) returns (r: Result<()>)
      requires Valid()
      modifies this
      ensures Valid()
      ensures r.Err? <==> DeclarationReferenceInfoOf(scopeList, reference).Err?
      ensures r.Err? ==> unchanged(this)
      ensures r.Ok? ==> (declarationReferencesByScopeMap ==
        AddToValueSeq(old(declarationReferencesByScopeMap), ScopeKey(scopeList), DeclarationReferenceInfoOf(scopeList, reference).value))
      ensures r.Ok? ==> (declarationsWithNameByScopeMap == old(declarationsWithNameByScopeMap)
        && explicitTypesByScopeMap == old(explicitTypesByScopeMap) && !isFreshState)
    {
      var info := NewDeclarationReferenceInfo(scopeList, reference);
      if info.Err? {
        return Err(info.error);
      }
      ReferencesConsistentAfterPut(declarationReferencesByScopeMap, scopeList, reference);
      declarationReferencesByScopeMap := AddToValueSeq(declarationReferencesByScopeMap, ScopeKey(scopeList), info.value);
      isFreshState := false;
      r := Ok(());
    }

    /** `putExplicitTypeWithScope`: a `KClass` type is ignored; any other is recorded and the state goes stale. */
    method PutExplicitTypeWithScope(scopeList: seq<string>, t: IrType) returns (r: Result<()>)
      requires Valid()
      modifies this
      ensures Valid()
      ensures r.Err? <==> !t.isKClass && t.clazz.None?
      ensures t.isKClass || r.Err? ==> unchanged(this)
      ensures !t.isKClass && r.Ok? ==> (explicitTypesByScopeMap ==
        AddToValueSeq(old(explicitTypesByScopeMap), ScopeKey(scopeList), TypeInfoOf(scopeList, t).value))
      ensures !t.isKClass && r.Ok? ==> (declarationsWithNameByScopeMap == old(declarationsWithNameByScopeMap)
        && declarationReferencesByScopeMap == old(declarationReferencesByScopeMap) && !isFreshState)
    {
      if t.isKClass {
        return Ok(());
      }
      var info := NewTypeInfo(scopeList, t);
      if info.Err? {
        return Err(info.error);
      }
      TypesConsistentAfterPut(explicitTypesByScopeMap, scopeList, t);
      explicitTypesByScopeMap := AddToValueSeq(explicitTypesByScopeMap, ScopeKey(scopeList), info.value);
      isFreshState := false;
      r := Ok(());
    }

    /** `refreshState`: the state is fresh again (the conflict-resolution passes are not part of this model). */
    method RefreshState()
      modifies this
      ensures isFreshState
      ensures declarationsWithNameByScopeMap == old(declarationsWithNameByScopeMap)
      ensures declarationReferencesByScopeMap == old(declarationReferencesByScopeMap)
      ensures explicitTypesByScopeMap == old(explicitTypesByScopeMap)
    {
      isFreshState := true;
    }

    /** `obtainDeclarationReferenceDescription`: refresh when stale, then the name of the first matching info. */
    method ObtainDeclarationReferenceDescription(scopeList: seq<string>, reference: DeclarationReference) returns (r: Result<string>)
      modifies this
      ensures isFreshState
      ensures declarationsWithNameByScopeMap == old(declarationsWithNameByScopeMap)
      ensures declarationReferencesByScopeMap == old(declarationReferencesByScopeMap)
      ensures explicitTypesByScopeMap == old(explicitTypesByScopeMap)
      ensures r == ReferenceDescription(declarationReferencesByScopeMap, scopeList, reference)
    {
      if !isFreshState {
        RefreshState();
      }
      r := ReferenceDescription(declarationReferencesByScopeMap, scopeList, reference);
    }

    /** `obtainTypeDescriptionForScope`: refresh when stale, then the name of the first matching info. */
    method ObtainTypeDescriptionForScope(scopeList: seq<string>, t: IrType) returns (r: Result<string>)
      modifies this
      ensures isFreshState
      ensures declarationsWithNameByScopeMap == old(declarationsWithNameByScopeMap)
      ensures declarationReferencesByScopeMap == old(declarationReferencesByScopeMap)
      ensures explicitTypesByScopeMap == old(explicitTypesByScopeMap)
      ensures r == TypeDescription(explicitTypesByScopeMap, scopeList, t)
    {
      if !isFreshState {
        RefreshState();
      }
      r := TypeDescription(explicitTypesByScopeMap, scopeList, t);
    }

    /** `obtainImportStatementsList`: refresh when stale, then the import block. */
    method ObtainImportStatementsList() returns (r: string)
      modifies this
      ensures isFreshState
      ensures declarationsWithNameByScopeMap == old(declarationsWithNameByScopeMap)
      ensures declarationReferencesByScopeMap == old(declarationReferencesByScopeMap)
      ensures explicitTypesByScopeMap == old(explicitTypesByScopeMap)
      ensures r == ImportStatements(declarationReferencesByScopeMap, declarationsWithNameByScopeMap)
    {
      if !isFreshState {
        RefreshState();
      }
      r := ImportStatements(declarationReferencesByScopeMap, declarationsWithNameByScopeMap);
    }
  }
}
