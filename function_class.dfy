/**
 * `FunctionClassDescriptor`: the fictitious classes `kotlin.FunctionN`,
 * `kotlin.SuspendFunctionN` and `kotlin.reflect.KFunctionN` — their names, their type
 * parameters `P1..PN, R`, and their supertypes.
 */
module FunctionClass {
  import opened Wrappers
  import Text

  const BUILT_INS_PACKAGE: seq<string> := ["kotlin"]
  const KOTLIN_REFLECT: seq<string> := ["kotlin", "reflect"]

  datatype Kind = Function | SuspendFunction | KFunction

  /** `Kind.values()`, in declaration order. */
  const KINDS: seq<Kind> := [Function, SuspendFunction, KFunction]

  function PackageFqName(k: Kind): seq<string>
  {
    match k
    case Function => BUILT_INS_PACKAGE
    case SuspendFunction => BUILT_INS_PACKAGE
    case KFunction => KOTLIN_REFLECT
  }

  function ClassNamePrefix(k: Kind): string
  {
    match k
    case Function => "Function"
    case SuspendFunction => "SuspendFunction"
    case KFunction => "KFunction"
  }

  /** `numberedClassName(arity)`: the prefix followed by the decimal arity. */
  function NumberedClassName(k: Kind, arity: int): (r: string)
    ensures ClassNamePrefix(k) <= r
    ensures r[|ClassNamePrefix(k)|..] == Text.IntToString(arity)
  {
    var p := ClassNamePrefix(k);
    var r := p + Text.IntToString(arity);
    assert r[|p|..] == Text.IntToString(arity);
    r
  }

  /** Whether kind `k` is one `byClassNamePrefix` accepts: its package is the given one and its prefix starts the name. */
  predicate Selects(k: Kind, packageFqName: seq<string>, className: string)
  {
    PackageFqName(k) == packageFqName && ClassNamePrefix(k) <= className
  }

  /** `byClassNamePrefix`: the first kind whose package matches and whose prefix starts the name. */
  function ByClassNamePrefix(packageFqName: seq<string>, className: string): (r: Option<Kind>)
    ensures r.Some? ==> Selects(r.value, packageFqName, className)
    ensures r.Some? ==> exists i :: (0 <= i < |KINDS| && KINDS[i] == r.value
      && forall j :: 0 <= j < i ==> !Selects(KINDS[j], packageFqName, className))
    ensures r.None? <==> forall k :: k in KINDS ==> !Selects(k, packageFqName, className)
  {
    FirstKind(KINDS, packageFqName, className)
  }

  function FirstKind(kinds: seq<Kind>, packageFqName: seq<string>, className: string): (r: Option<Kind>)
    ensures r.Some? ==> r.value in kinds && Selects(r.value, packageFqName, className)
    ensures r.Some? ==> exists i :: (0 <= i < |kinds| && kinds[i] == r.value
      && forall j :: 0 <= j < i ==> !Selects(kinds[j], packageFqName, className))
    ensures r.None? <==> forall k :: k in kinds ==> !Selects(k, packageFqName, className)
  {
    if kinds == [] then None
    else if Selects(kinds[0], packageFqName, className) then Some(kinds[0])
    else
      var r := FirstKind(kinds[1..], packageFqName, className);
      FirstOfTail(kinds, packageFqName, className, r);
      r
  }

  lemma FirstOfTail(kinds: seq<Kind>, packageFqName: seq<string>, className: string, r: Option<Kind>)
    requires kinds != [] && !Selects(kinds[0], packageFqName, className)
    requires r.Some? ==> exists i :: (0 <= i < |kinds[1..]| && kinds[1..][i] == r.value
      && forall j :: 0 <= j < i ==> !Selects(kinds[1..][j], packageFqName, className))
    ensures r.Some? ==> exists i :: (0 <= i < |kinds| && kinds[i] == r.value
      && forall j :: 0 <= j < i ==> !Selects(kinds[j], packageFqName, className))
  {
    if r.Some? {
      var i :| 0 <= i < |kinds[1..]| && kinds[1..][i] == r.value
        && forall j :: 0 <= j < i ==> !Selects(kinds[1..][j], packageFqName, className);
      assert kinds[i + 1] == r.value;
      assert forall j :: 1 <= j < i + 1 ==> kinds[j] == kinds[1..][j - 1];
    }
  }

  /** A numbered class name is recognised as its own kind. */
  lemma ByClassNamePrefixOfNumbered(k: Kind, arity: int)
    ensures ByClassNamePrefix(PackageFqName(k), NumberedClassName(k, arity)) == Some(k)
  {
    var name := NumberedClassName(k, arity);
    var pkg := PackageFqName(k);
    assert Selects(k, pkg, name);
    assert KINDS[0] == Function && KINDS[1] == SuspendFunction && KINDS[2] == KFunction;
    match k
    case Function =>
    case SuspendFunction =>
      assert name[0] == 'S';
      assert !Selects(Function, pkg, name);
    case KFunction =>
      assert pkg != BUILT_INS_PACKAGE;
  }

  datatype Variance = InVariance | OutVariance

  datatype TypeParameter = TypeParameter(variance: Variance, name: string, index: nat)

  /** The intended type parameters: `Pi` (in-variant, index `i-1`) for each argument, then `R` (out-variant). */
  function ExpectedParameter(arity: int, i: nat): TypeParameter
  {
    if i < arity then TypeParameter(InVariance, "P" + Text.IntToString(i + 1), i)
    else TypeParameter(OutVariance, "R", i)
  }

  /** The `init` block: one `typeParameter` call per argument and one for `R`, each indexed by `result.size`. */
  method TypeParameters(arity: int) returns (result: seq<TypeParameter>)
    ensures |result| == (if arity < 0 then 0 else arity) + 1
    ensures forall i :: 0 <= i < |result| ==> result[i] == ExpectedParameter(arity, i)
    ensures result[|result| - 1] == TypeParameter(OutVariance, "R", |result| - 1)
  {
    result := [];
    var i := 1;
    while i <= arity
      invariant 1 <= i && (arity >= 0 ==> i <= arity + 1) && (arity < 0 ==> i == 1)
      invariant |result| == i - 1
      invariant forall j :: 0 <= j < |result| ==> result[j] == ExpectedParameter(arity, j)
    {
      result := result + [TypeParameter(InVariance, "P" + Text.IntToString(i), |result|)];
      i := i + 1;
    }
    result := result + [TypeParameter(OutVariance, "R", |result|)];
  }

  /** Kotlin's `takeLast(n)`. */
  function TakeLast<T>(s: seq<T>, n: nat): (r: seq<T>)
    ensures |r| == if n <= |s| then n else |s|
    ensures r <= s[|s| - |r|..] && s[|s| - |r|..] == r
  {
    if n >= |s| then s else s[|s| - n..]
  }

  datatype KotlinType = AnyType | ClassType(packageFqName: seq<string>, name: string, arguments: seq<TypeParameter>)

  /**
   * `computeSupertypes`. `typeParameterCount(package, name)` stands for looking the class up in the
   * package fragment: its number of type parameters, or `None` when the class is not found.
   */
  function Supertypes(k: Kind, arity: int, parameters: seq<TypeParameter>,
                      typeParameterCount: (seq<string>, string) -> Option<nat>): (r: Result<seq<KotlinType>>)
    ensures r.Ok? && k == SuspendFunction ==> r.value == [AnyType]
    ensures r.Ok? && k == Function ==> |r.value| == 1 && r.value[0].ClassType? && r.value[0].name == "Function"
    ensures r.Ok? && k == KFunction ==> (|r.value| == 2
      && r.value[0].ClassType? && r.value[0].name == "KFunction" && r.value[0].packageFqName == KOTLIN_REFLECT
      && r.value[1].ClassType? && r.value[1].name == NumberedClassName(Function, arity) && r.value[1].packageFqName == BUILT_INS_PACKAGE)
    ensures r.Ok? ==> forall i :: 0 <= i < |r.value| && r.value[i].ClassType? ==>
      typeParameterCount(r.value[i].packageFqName, r.value[i].name).Some?
      && r.value[i].arguments == TakeLast(parameters, typeParameterCount(r.value[i].packageFqName, r.value[i].name).value)
    ensures r.Err? <==> ((k != SuspendFunction && typeParameterCount(PackageFqName(k), ClassNamePrefix(k)).None?)
      || (k == KFunction && typeParameterCount(BUILT_INS_PACKAGE, NumberedClassName(Function, arity)).None?))
  {
    var first := if k == SuspendFunction then Ok(AnyType)
      else SupertypeIn(PackageFqName(k), ClassNamePrefix(k), parameters, typeParameterCount);
    if first.Err? then Err(first.error)
    else if k == KFunction then
      var second := SupertypeIn(BUILT_INS_PACKAGE, NumberedClassName(Function, arity), parameters, typeParameterCount);
      if second.Err? then Err(second.error) else Ok([first.value, second.value])
    else Ok([first.value])
  }

  /** The local `add`: the class found by name, applied to our last type parameters. */
  function SupertypeIn(packageFqName: seq<string>, name: string, parameters: seq<TypeParameter>,
                       typeParameterCount: (seq<string>, string) -> Option<nat>): (r: Result<KotlinType>)
    ensures r.Err? <==> typeParameterCount(packageFqName, name).None?
    ensures r.Ok? ==> r.value == ClassType(packageFqName, name, TakeLast(parameters, typeParameterCount(packageFqName, name).value))
  {
    match typeParameterCount(packageFqName, name)
    case None => Err("Class " + name + " not found")
    case Some(n) => Ok(ClassType(packageFqName, name, TakeLast(parameters, n)))
  }

  /**
   * With the built-ins' shapes (`Function` and `KFunction` take `R` only, `FunctionN` takes
   * `P1..PN, R`), `FunctionN` extends `Function<R>` and `KFunctionN` extends `KFunction<R>` and
   * `FunctionN<P1..PN, R>`.
   */
  lemma SupertypeArguments(k: Kind, arity: nat, parameters: seq<TypeParameter>,
                           typeParameterCount: (seq<string>, string) -> Option<nat>)
    requires |parameters| == arity + 1
    requires typeParameterCount(BUILT_INS_PACKAGE, "Function") == Some(1)
    requires typeParameterCount(KOTLIN_REFLECT, "KFunction") == Some(1)
    requires typeParameterCount(BUILT_INS_PACKAGE, NumberedClassName(Function, arity)) == Some(arity + 1)
    ensures var r := Supertypes(k, arity, parameters, typeParameterCount);
      r.Ok? && (k != SuspendFunction ==> r.value[0].arguments == [parameters[arity]])
      && (k == KFunction ==> r.value[1].arguments == parameters)
  {
  }

  /** `getKind()`, `getModality()` and `getConstructors()` of every function class. */
  datatype ClassShape = ClassShape(isInterface: bool, isAbstract: bool, constructors: seq<string>)

  function Shape(k: Kind, arity: int): (r: ClassShape)
    ensures r.isInterface && r.isAbstract && r.constructors == []
  {
    ClassShape(true, true, [])
  }
}
