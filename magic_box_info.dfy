/**
 * The decompiler's per-node records for import bookkeeping (`magicbox/info`): for a reference to a
 * declaration, an explicit type, or a type's class, the fq-name parts to import and the name to
 * print. The IR nodes are reduced to the fields the two computations read.
 */
module MagicBoxInfo {
  import opened Wrappers
  import Text

  /** Java's `\w`: an ASCII letter, digit or '_'. */
  predicate IsWordChar(c: char)
  {
    ('a' <= c <= 'z') || ('A' <= c <= 'Z') || ('0' <= c <= '9') || c == '_'
  }

  /** `matches("\\w+")`: the whole string is one or more word characters. */
  predicate IsWord(s: string)
  {
    |s| > 0 && forall i :: 0 <= i < |s| ==> IsWordChar(s[i])
  }

  /** The `filter { it.matches("\\w+".toRegex()) }` stage. */
  function WordSegments(pieces: seq<string>): (r: seq<string>)
    ensures forall x :: x in r <==> x in pieces && IsWord(x)
    ensures (forall i :: 0 <= i < |pieces| ==> IsWord(pieces[i])) ==> r == pieces
  {
    if pieces == [] then []
    else
      assert forall x :: x in pieces <==> x == pieces[0] || x in pieces[1..];
      (if IsWord(pieces[0]) then [pieces[0]] else []) + WordSegments(pieces[1..])
  }

  /** The prefix "$ownerPackage." of the template: a null package is written "null". */
  function PackagePrefix(packageFqName: Option<string>): string
  {
    (if packageFqName.Some? then packageFqName.value else "null") + "."
  }

  /**
   * `obtainDefaultImportStatement` of a declaration reference and of a type: the package (when
   * known), then the word segments of the fq-name after "package.".
   */
  function ImportPath(packageFqName: Option<string>, fqName: Option<string>): (r: seq<string>)
    ensures packageFqName.Some? ==> |r| >= 1 && r[0] == packageFqName.value
    ensures forall i :: (if packageFqName.Some? then 1 else 0) <= i < |r| ==> IsWord(r[i])
    ensures fqName.None? ==> r == (if packageFqName.Some? then [packageFqName.value] else [])
  {
    var rest := if fqName.Some? then WordSegments(Text.Split(Text.RemovePrefix(fqName.value, PackagePrefix(packageFqName)), '.')) else [];
    assert forall x :: x in rest ==> IsWord(x);
    (if packageFqName.Some? then [packageFqName.value] else []) + rest
  }

  /** A class `pkg.A.B` imports as the package followed by its class-name chain. */
  lemma ImportPathOfNestedClass(pkg: string, chain: seq<string>)
    requires chain != [] && forall i :: 0 <= i < |chain| ==> IsWord(chain[i])
    ensures ImportPath(Some(pkg), Some(pkg + "." + Text.Join(chain, "."))) == [pkg] + chain
  {
    var joined := Text.Join(chain, ".");
    RemovePackagePrefix(pkg, joined);
    SplitNestedChain(chain);
  }

  /** Removing "pkg." from "pkg.rest" leaves "rest". */
  lemma RemovePackagePrefix(pkg: string, rest: string)
    ensures Text.RemovePrefix(pkg + "." + rest, PackagePrefix(Some(pkg))) == rest
  {
    var fq := pkg + "." + rest;
    assert PackagePrefix(Some(pkg)) == pkg + ".";
    assert fq[..|pkg| + 1] == pkg + ".";
    assert fq[|pkg| + 1..] == rest;
  }

  lemma SplitNestedChain(chain: seq<string>)
    requires chain != [] && forall i :: 0 <= i < |chain| ==> IsWord(chain[i])
    ensures Text.Split(Text.Join(chain, "."), '.') == chain
  {
    forall i | 0 <= i < |chain|
      ensures '.' !in chain[i]
    {
      assert !IsWordChar('.');
    }
    Text.SplitOfJoin(chain, '.');
  }

  /** `TypeClassInfo.obtainDefaultImportStatement`: also `removeSuffix(".$defaultName")` before splitting. */
  function TypeClassImportPath(packageFqName: Option<string>, fqName: Option<string>, defaultName: string): (r: seq<string>)
    ensures packageFqName.Some? ==> |r| >= 1 && r[0] == packageFqName.value
    ensures forall i :: (if packageFqName.Some? then 1 else 0) <= i < |r| ==> IsWord(r[i])
  {
    var rest := if fqName.Some? then
      WordSegments(Text.Split(Text.RemoveSuffix(Text.RemovePrefix(fqName.value, PackagePrefix(packageFqName)), "." + defaultName), '.'))
      else [];
    assert forall x :: x in rest ==> IsWord(x);
    (if packageFqName.Some? then [packageFqName.value] else []) + rest
  }

  /**
   * For a class whose fq-name is its package followed by its class-name chain, the removed prefix
   * already leaves exactly that chain, so the ".chain" suffix is never found: the class's own name
   * stays in the import path.
   */
  lemma TypeClassSuffixIsNeverRemoved(pkg: string, chain: seq<string>)
    requires chain != [] && forall i :: 0 <= i < |chain| ==> IsWord(chain[i])
    ensures TypeClassImportPath(Some(pkg), Some(pkg + "." + Text.Join(chain, ".")), Text.Join(chain, ".")) == [pkg] + chain
  {
    var joined := Text.Join(chain, ".");
    RemovePackagePrefix(pkg, joined);
    assert !Text.EndsWith(joined, "." + joined);
    SplitNestedChain(chain);
  }

  /** The printed name of a class: its enclosing classes, outermost first, and its own name, joined with ".". */
  function NestedName(enclosingClasses: seq<string>, name: string): string
  {
    Text.Join(enclosingClasses + [name], ".")
  }

  /** The `while (parent is IrClass)` loop: each enclosing class, innermost first, is put in front. */
  method ObtainNestedName(enclosingClasses: seq<string>, name: string) returns (defaultName: string)
    ensures defaultName == NestedName(enclosingClasses, name)
  {
    defaultName := name;
    var i := |enclosingClasses|;
    while i > 0
      invariant 0 <= i <= |enclosingClasses|
      invariant defaultName == Text.Join(enclosingClasses[i..] + [name], ".")
    {
      i := i - 1;
      var parts := enclosingClasses[i..] + [name];
      assert parts[0] == enclosingClasses[i] && parts[1..] == enclosingClasses[i + 1..] + [name];
      defaultName := enclosingClasses[i] + "." + defaultName;
    }
    assert enclosingClasses[0..] == enclosingClasses;
  }

  /** The nested name ends in the class's own name and splits back into the chain. */
  lemma NestedNameSplitsBack(enclosingClasses: seq<string>, name: string)
    requires forall i :: 0 <= i < |enclosingClasses| ==> IsWord(enclosingClasses[i])
    requires IsWord(name)
    ensures Text.Split(NestedName(enclosingClasses, name), '.') == enclosingClasses + [name]
    ensures enclosingClasses == [] ==> NestedName(enclosingClasses, name) == name
  {
    var chain := enclosingClasses + [name];
    assert forall i :: 0 <= i < |chain| ==> IsWord(chain[i]);
    SplitNestedChain(chain);
  }

  /** Where a function or property is declared. */
  datatype Parent = FileParent | ClassParent(className: string, isCompanion: bool) | OtherParent

  /** The kinds of declaration the name computation tells apart. */
  datatype OwnerKind =
    | ConstructorOwner(constructedClassName: string)
    | EnumEntryOwner
    | TypeAliasOwner
    | ClassOwner(enclosingClasses: seq<string>)
    | FunctionOwner(functionParent: Parent)
    | PropertyOwner(propertyParent: Parent)
    | OtherNamedOwner

  /** A reference's `symbol.owner`: an `IrDeclarationWithName` or something else. */
  datatype Owner =
    | UnnamedOwner
    | NamedOwner(name: string, kind: OwnerKind, packageFqName: Option<string>, fqName: Option<string>)

  /** An `IrDeclarationReference`, compared by identity (`id`). */
  datatype DeclarationReference = DeclarationReference(id: nat, owner: Owner)

  /** `DeclarationReferenceInfo.obtainDefaultImportStatement`. */
  function ReferenceImportPath(reference: DeclarationReference): (r: seq<string>)
    ensures reference.owner.UnnamedOwner? ==> r == []
  {
    match reference.owner
    case UnnamedOwner => []
    case NamedOwner(_, _, packageFqName, fqName) => ImportPath(packageFqName, fqName)
  }

  /** Whether a function or property may be referred to by its plain name. */
  predicate ImportableMember(parent: Parent)
  {
    parent.FileParent? || (parent.ClassParent? && parent.isCompanion)
  }

  /** `DeclarationReferenceInfo.obtainDefaultName`; the `TODO()` branches and `parentAsClass` on a non-class throw. */
  function ReferenceDefaultName(reference: DeclarationReference): (r: Result<string>)
    ensures reference.owner.UnnamedOwner? ==> r.Err?
    ensures reference.owner.NamedOwner? ==> match reference.owner.kind
      case ConstructorOwner(c) => r == Ok(c)
      case EnumEntryOwner => r == Ok(reference.owner.name)
      case TypeAliasOwner => r == Ok(reference.owner.name)
      case ClassOwner(enclosing) => r == Ok(NestedName(enclosing, reference.owner.name))
      case FunctionOwner(p) => (r.Ok? <==> ImportableMember(p)) && (r.Ok? ==> r.value == reference.owner.name)
      case PropertyOwner(p) => (r.Ok? <==> ImportableMember(p)) && (r.Ok? ==> r.value == reference.owner.name)
      case OtherNamedOwner => r.Err?
  {
    match reference.owner
    case UnnamedOwner => Err("NotImplementedError: Implemented only for node IrDeclarationWithName owner!")
    case NamedOwner(name, kind, _, _) =>
      match kind
      case ConstructorOwner(c) => Ok(c)
      case EnumEntryOwner => Ok(name)
      case TypeAliasOwner => Ok(name)
      case ClassOwner(enclosing) => Ok(NestedName(enclosing, name))
      case FunctionOwner(p) => MemberName(name, p)
      case PropertyOwner(p) => MemberName(name, p)
      case OtherNamedOwner => Err("NotImplementedError: Not implemented yet for node")
  }

  function MemberName(name: string, parent: Parent): (r: Result<string>)
    ensures r.Ok? <==> ImportableMember(parent)
    ensures r.Ok? ==> r.value == name
  {
    match parent
    case FileParent => Ok(name)
    case ClassParent(_, isCompanion) =>
      if isCompanion then Ok(name) else Err("NotImplementedError: Not implemented yet for non top-level or companion object's member!")
    case OtherParent => Err("IllegalStateException: not a class")
  }

  /** A `DeclarationReferenceInfo`: its scope, its reference, and the two calculated fields. */
  datatype DeclarationReferenceInfo = DeclarationReferenceInfo(
    scopeList: seq<string>, reference: DeclarationReference, calculatedListForImport: seq<string>, calculatedName: string)

  /** The constructor's field initialisers; it throws when the name cannot be computed. */
  function DeclarationReferenceInfoOf(scopeList: seq<string>, reference: DeclarationReference): (r: Result<DeclarationReferenceInfo>)
    ensures r.Err? <==> ReferenceDefaultName(reference).Err?
    ensures r.Ok? ==> (r.value.scopeList == scopeList && r.value.reference == reference
      && r.value.calculatedListForImport == ReferenceImportPath(reference)
      && r.value.calculatedName == ReferenceDefaultName(reference).value)
  {
    match ReferenceDefaultName(reference)
    case Err(e) => Err(e)
    case Ok(name) => Ok(DeclarationReferenceInfo(scopeList, reference, ReferenceImportPath(reference), name))
  }

  /** `DeclarationReferenceInfo(scopeList, reference)`, with the class case's loop. */
  method NewDeclarationReferenceInfo(scopeList: seq<string>, reference: DeclarationReference) returns (r: Result<DeclarationReferenceInfo>)
    ensures r == DeclarationReferenceInfoOf(scopeList, reference)
  {
    var importList := ReferenceImportPath(reference);
    if reference.owner.NamedOwner? && reference.owner.kind.ClassOwner? {
      var name := ObtainNestedName(reference.owner.kind.enclosingClasses, reference.owner.name);
      r := Ok(DeclarationReferenceInfo(scopeList, reference, importList, name));
    } else {
      match ReferenceDefaultName(reference)
      case Err(e) => r := Err(e);
      case Ok(name) => r := Ok(DeclarationReferenceInfo(scopeList, reference, importList, name));
    }
  }

  /** The class of a type: its name, enclosing classes, package and fq-name. */
  datatype ClassRef = ClassRef(name: string, enclosingClasses: seq<string>, packageFqName: Option<string>, fqName: Option<string>)

  /** An `IrType`, compared by identity (`id`); `clazz` is `getClass()`. */
  datatype IrType = IrType(id: nat, isKClass: bool, clazz: Option<ClassRef>)

  /** `TypeInfo.obtainDefaultImportStatement`. */
  function TypeImportPath(t: IrType): (r: seq<string>)
    ensures t.clazz.None? ==> r == []
  {
    match t.clazz
    case None => []
    case Some(c) => ImportPath(c.packageFqName, c.fqName)
  }

  /** `obtainDefaultName` of `TypeInfo` and `TypeClassInfo`: a type without a class reaches `TODO()`. */
  function TypeDefaultName(t: IrType): (r: Result<string>)
    ensures r.Err? <==> t.clazz.None?
    ensures r.Ok? ==> r.value == NestedName(t.clazz.value.enclosingClasses, t.clazz.value.name)
  {
    match t.clazz
    case None => Err("NotImplementedError: Cannot obtain name for the type without class!")
    case Some(c) => Ok(NestedName(c.enclosingClasses, c.name))
  }

  /** A `TypeInfo`: its scope, its type, and the two calculated fields. */
  datatype TypeInfo = TypeInfo(scopeList: seq<string>, irType: IrType, calculatedListForImport: seq<string>, calculatedName: string)

  /** The `TypeInfo` constructor's field initialisers. */
  function TypeInfoOf(scopeList: seq<string>, t: IrType): (r: Result<TypeInfo>)
    ensures r.Err? <==> t.clazz.None?
    ensures r.Ok? ==> (r.value.scopeList == scopeList && r.value.irType == t
      && r.value.calculatedListForImport == TypeImportPath(t) && r.value.calculatedName == TypeDefaultName(t).value)
  {
    match TypeDefaultName(t)
    case Err(e) => Err(e)
    case Ok(name) => Ok(TypeInfo(scopeList, t, TypeImportPath(t), name))
  }

  /** `TypeInfo(scopeList, irType)`, with the nested-name loop. */
  method NewTypeInfo(scopeList: seq<string>, t: IrType) returns (r: Result<TypeInfo>)
    ensures r == TypeInfoOf(scopeList, t)
  {
    if t.clazz.None? {
      return Err("NotImplementedError: Cannot obtain name for the type without class!");
    }
    var name := ObtainNestedName(t.clazz.value.enclosingClasses, t.clazz.value.name);
    r := Ok(TypeInfo(scopeList, t, TypeImportPath(t), name));
  }

  /** `TypeClassInfo.obtainDefaultImportStatement`: `defaultName` is only computed when the class exists. */
  function TypeClassImportPathOf(t: IrType): (r: seq<string>)
    ensures t.clazz.None? ==> r == []
  {
    match t.clazz
    case None => []
    case Some(c) => TypeClassImportPath(c.packageFqName, c.fqName, NestedName(c.enclosingClasses, c.name))
  }

  /** A `TypeClassInfo`: its scope, its simple type, and the two calculated fields. */
  datatype TypeClassInfo = TypeClassInfo(scopeList: seq<string>, irSimpleType: IrType, calculatedListForImport: seq<string>, calculatedName: string)

  /** The `TypeClassInfo` constructor's field initialisers. */
  function TypeClassInfoOf(scopeList: seq<string>, t: IrType): (r: Result<TypeClassInfo>)
    ensures r.Err? <==> t.clazz.None?
    ensures r.Ok? ==> (r.value.scopeList == scopeList && r.value.irSimpleType == t
      && r.value.calculatedListForImport == TypeClassImportPathOf(t) && r.value.calculatedName == TypeDefaultName(t).value)
  {
    match TypeDefaultName(t)
    case Err(e) => Err(e)
    case Ok(name) => Ok(TypeClassInfo(scopeList, t, TypeClassImportPathOf(t), name))
  }

  /** `TypeClassInfo(scopeList, irSimpleType)`, with the nested-name loop. */
  method NewTypeClassInfo(scopeList: seq<string>, t: IrType) returns (r: Result<TypeClassInfo>)
    ensures r == TypeClassInfoOf(scopeList, t)
  {
    if t.clazz.None? {
      return Err("NotImplementedError: Cannot obtain name for the type without class!");
    }
    var name := ObtainNestedName(t.clazz.value.enclosingClasses, t.clazz.value.name);
    r := Ok(TypeClassInfo(scopeList, t, TypeClassImportPathOf(t), name));
  }
}
