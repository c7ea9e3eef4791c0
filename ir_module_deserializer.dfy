/**
 * `IrModuleDeserializerWithBuiltIns`: symbols are looked up among the built-ins first, then among
 * the function interfaces (`kotlin.FunctionN` and friends, parsed from their class name), then in
 * the delegate deserializer.
 */
module IrModuleDeserializer {
  import opened Wrappers
  import Ints
  import Text

  /** The IR symbol classes `IrSymbol.kind()` distinguishes. */
  datatype SymbolClass = ClassSymbol | ConstructorSymbol | SimpleFunctionSymbol | PropertySymbol
    | EnumEntrySymbol | TypeAliasSymbol | OtherSymbol

  datatype SymbolKind = CLASS_SYMBOL | CONSTRUCTOR_SYMBOL | FUNCTION_SYMBOL | PROPERTY_SYMBOL
    | ENUM_ENTRY_SYMBOL | TYPEALIAS_SYMBOL

  /** `IrSymbol.kind()`: one kind per symbol class; any other symbol is an error. */
  function KindOf(s: SymbolClass): (r: Result<SymbolKind>)
    ensures r.Err? <==> s.OtherSymbol?
  {
    match s
    case ClassSymbol => Ok(CLASS_SYMBOL)
    case ConstructorSymbol => Ok(CONSTRUCTOR_SYMBOL)
    case SimpleFunctionSymbol => Ok(FUNCTION_SYMBOL)
    case PropertySymbol => Ok(PROPERTY_SYMBOL)
    case EnumEntrySymbol => Ok(ENUM_ENTRY_SYMBOL)
    case TypeAliasSymbol => Ok(TYPEALIAS_SYMBOL)
    case OtherSymbol => Err("Unexpected symbol kind")
  }

  /** Distinct symbol classes have distinct kinds. */
  lemma KindOfInjective(s: SymbolClass, t: SymbolClass)
    requires KindOf(s).Ok? && KindOf(s) == KindOf(t)
    ensures s == t
  {
  }

  /** The four function-interface kinds this deserializer creates. */
  datatype FunctionKind = KSuspendFunction | KFunction | SuspendFunction | Function

  function Prefix(k: FunctionKind): string
  {
    match k
    case KSuspendFunction => "KSuspendFunction"
    case KFunction => "KFunction"
    case SuspendFunction => "SuspendFunction"
    case Function => "Function"
  }

  /** The index of the first decimal digit, or -1 (`indexOfFirst { it.isDigit() }`). */
  function IndexOfFirstDigit(s: string): (r: int)
    ensures -1 <= r < |s|
    ensures r >= 0 ==> Text.IsDigit(s[r]) && forall i :: 0 <= i < r ==> !Text.IsDigit(s[i])
    ensures r == -1 <==> forall i :: 0 <= i < |s| ==> !Text.IsDigit(s[i])
  {
    if s == [] then -1
    else if Text.IsDigit(s[0]) then 0
    else var k := IndexOfFirstDigit(s[1..]); if k == -1 then -1 else k + 1
  }

  predicate AllDigits(s: string) { forall i :: 0 <= i < |s| ==> Text.IsDigit(s[i]) }

  /**
   * `toInt(10)` of a string that starts with a digit: its value when it is all digits and fits in
   * an `Int`, else `NumberFormatException`.
   */
  function ParseDecimal(s: string): (r: Result<int>)
    ensures r.Ok? <==> AllDigits(s) && s != [] && Text.DecimalValue(s) <= Ints.INT_MAX
    ensures r.Ok? ==> r.value == Text.DecimalValue(s)
  {
    if s != [] && AllDigits(s) && Text.DecimalValue(s) <= Ints.INT_MAX then Ok(Text.DecimalValue(s))
    else Err("NumberFormatException")
  }

  /**
   * `computeFunctionDescriptor`: `K` first marks a reflection kind, an `S` next (or first) marks a
   * suspend kind, and the arity is the decimal suffix from the first digit. Names too short or
   * without a valid suffix throw.
   */
  function ComputeFunctionDescriptor(name: string): (r: Result<(FunctionKind, int)>)
    ensures r.Ok? ==> |name| >= 1 && (r.value.0.KSuspendFunction? || r.value.0.KFunction? <==> name[0] == 'K')
    ensures r.Ok? ==> (r.value.0.KSuspendFunction? || r.value.0.SuspendFunction? <==>
      (if name[0] == 'K' then |name| >= 2 && name[1] == 'S' else name[0] == 'S'))
    ensures r.Ok? ==> var d := IndexOfFirstDigit(name); d >= 0 && ParseDecimal(name[d..]) == Ok(r.value.1)
    ensures |name| == 0 ==> r.Err?
  {
    if |name| == 0 then Err("StringIndexOutOfBoundsException")
    else
      var isK := name[0] == 'K';
      if isK && |name| < 2 then Err("StringIndexOutOfBoundsException")
      else
        var isSuspend := (if isK then name[1] else name[0]) == 'S';
        var d := IndexOfFirstDigit(name);
        if d < 0 then Err("StringIndexOutOfBoundsException")
        else match ParseDecimal(name[d..])
          case Err(e) => Err(e)
          case Ok(arity) =>
            var kind := if isK && isSuspend then KSuspendFunction
              else if isK then KFunction
              else if isSuspend then SuspendFunction
              else Function;
            Ok((kind, arity))
  }

  lemma PrefixHasNoDigit(k: FunctionKind)
    ensures forall i :: 0 <= i < |Prefix(k)| ==> !Text.IsDigit(Prefix(k)[i])
  {
  }

  /** The class name of each function interface parses back to its kind and arity. */
  lemma ComputeFunctionDescriptorOfName(k: FunctionKind, arity: nat)
    requires arity <= Ints.INT_MAX
    ensures ComputeFunctionDescriptor(Prefix(k) + Text.NatToString(arity)) == Ok((k, arity))
  {
    FunctionKindOfPrefix(k);
    NameParts(k, arity);
    DescriptorOfConcat(Prefix(k), Text.NatToString(arity), k, arity);
  }

  /** The digits start right after the prefix and read back as the arity. */
  lemma NameParts(k: FunctionKind, arity: nat)
    requires arity <= Ints.INT_MAX
    ensures IndexOfFirstDigit(Prefix(k) + Text.NatToString(arity)) == |Prefix(k)|
    ensures ParseDecimal(Text.NatToString(arity)) == Ok(arity)
  {
    SuffixOfName(k, arity);
    Text.DecimalValueOfNatToString(arity);
  }

  /** A prefix whose first two letters select `k`, followed by a valid decimal suffix. */
  lemma DescriptorOfConcat(p: string, t: string, k: FunctionKind, arity: nat)
    requires |p| >= 2 && FunctionKindOf(p[0], p[1]) == k
    requires IndexOfFirstDigit(p + t) == |p| && ParseDecimal(t) == Ok(arity)
    ensures ComputeFunctionDescriptor(p + t) == Ok((k, arity))
  {
    HeadsOfConcat(p, t);
    var name := p + t;
    assert name[|p|..] == t;
    DescriptorOfHeads(name, arity);
  }

  lemma HeadsOfConcat(p: string, t: string)
    requires |p| >= 2
    ensures |p + t| >= 2 && (p + t)[0] == p[0] && (p + t)[1] == p[1]
  {
  }

  /** The kind the first two letters of a name select. */
  function FunctionKindOf(c0: char, c1: char): FunctionKind
  {
    if c0 == 'K' then (if c1 == 'S' then KSuspendFunction else KFunction)
    else if c0 == 'S' then SuspendFunction
    else Function
  }

  lemma FunctionKindOfPrefix(k: FunctionKind)
    ensures |Prefix(k)| >= 2 && FunctionKindOf(Prefix(k)[0], Prefix(k)[1]) == k
  {
  }

  /** A name of two or more letters with a valid decimal suffix is decoded from its first two letters and that suffix. */
  lemma DescriptorOfHeads(name: string, arity: int)
    requires |name| >= 2 && IndexOfFirstDigit(name) >= 0 && ParseDecimal(name[IndexOfFirstDigit(name)..]) == Ok(arity)
    ensures ComputeFunctionDescriptor(name) == Ok((FunctionKindOf(name[0], name[1]), arity))
  {
  }

  /** The arity's digits start right after the prefix. */
  lemma SuffixOfName(k: FunctionKind, arity: nat)
    ensures var name := Prefix(k) + Text.NatToString(arity);
      IndexOfFirstDigit(name) == |Prefix(k)| && name[|Prefix(k)|..] == Text.NatToString(arity)
  {
    var p := Prefix(k);
    var name := p + Text.NatToString(arity);
    PrefixHasNoDigit(k);
    assert forall i :: 0 <= i < |p| ==> name[i] == p[i];
    assert Text.IsDigit(name[|p|]);
    FirstDigitAt(name, |p|);
    assert name[|p|..] == Text.NatToString(arity);
  }

  lemma FirstDigitAt(s: string, k: nat)
    requires k < |s| && Text.IsDigit(s[k]) && forall i :: 0 <= i < k ==> !Text.IsDigit(s[i])
    ensures IndexOfFirstDigit(s) == k
  {
  }

  /** A public signature: package, declaration fq-name and mask. */
  datatype PublicSignature = PublicSignature(packageFqn: seq<string>, declarationFqn: seq<string>, mask: int)

  datatype IdSignature =
    | Public(sig: PublicSignature)
    | Accessor(propertySignature: PublicSignature, accessorSignature: PublicSignature)
    | Local(id: int)

  /** `asPublic()`: an accessor signature answers with the accessor's public signature. */
  function AsPublic(s: IdSignature): Option<PublicSignature>
  {
    match s
    case Public(p) => Some(p)
    case Accessor(_, a) => Some(a)
    case Local(_) => None
  }

  /**
   * `checkIsFunctionInterface`: a public signature in one of `functionalPackages`, with a non-root
   * fq-name whose first segment matches `functionPattern` (taken as the predicate `matchesPattern`).
   */
  predicate IsFunctionInterface(s: IdSignature, functionalPackages: set<seq<string>>, matchesPattern: string -> bool)
  {
    AsPublic(s).Some? && AsPublic(s).value.packageFqn in functionalPackages
    && AsPublic(s).value.declarationFqn != [] && matchesPattern(AsPublic(s).value.declarationFqn[0])
  }

  /** The inputs of the deserializer: the built-ins' signatures, the function-interface test, the delegate. */
  datatype Context = Context(
    builtIns: set<IdSignature>,
    functionalPackages: set<seq<string>>,
    matchesPattern: string -> bool,
    delegateContains: IdSignature -> bool)

  /** `contains`. */
  predicate Contains(ctx: Context, s: IdSignature)
  {
    s in ctx.builtIns || IsFunctionInterface(s, ctx.functionalPackages, ctx.matchesPattern) || ctx.delegateContains(s)
  }

  /** Where `deserializeIrSymbol` takes a symbol from. */
  datatype Source = FromBuiltIns | FromFunctionInterface | FromDelegate

  function DeserializeSource(ctx: Context, s: IdSignature): (r: Source)
    ensures r == FromBuiltIns <==> s in ctx.builtIns
    ensures r == FromFunctionInterface <==> s !in ctx.builtIns && IsFunctionInterface(s, ctx.functionalPackages, ctx.matchesPattern)
  {
    if s in ctx.builtIns then FromBuiltIns
    else if IsFunctionInterface(s, ctx.functionalPackages, ctx.matchesPattern) then FromFunctionInterface
    else FromDelegate
  }

  /** A signature the deserializer contains is served locally unless only the delegate knows it. */
  lemma ContainsAgreesWithDeserialize(ctx: Context, s: IdSignature)
    ensures Contains(ctx, s) <==> DeserializeSource(ctx, s) != FromDelegate || ctx.delegateContains(s)
  {
  }

  /** A declaration of the function class: a named member or a property with its accessors. */
  datatype Declaration =
    | Member(name: string)
    | Property(propertyName: string, getter: Option<string>, setter: Option<string>)

  function DeclName(d: Declaration): string
  {
    match d
    case Member(n) => n
    case Property(n, _, _) => n
  }

  datatype Resolved = ClassSym | MemberSym(index: nat) | GetterSym(property: nat) | SetterSym(property: nat)

  /** The indices from `k` on whose declaration satisfies `p`, in increasing order. */
  function MatchingIndices(decls: seq<Declaration>, p: Declaration -> bool, k: nat): (r: seq<nat>)
    requires k <= |decls|
    ensures forall i :: 0 <= i < |r| ==> k <= r[i] < |decls| && p(decls[r[i]])
    ensures forall i :: k <= i < |decls| && p(decls[i]) ==> i in r
    ensures forall i, j :: 0 <= i < j < |r| ==> r[i] < r[j]
    decreases |decls| - k
  {
    if k == |decls| then []
    else
      var rest := MatchingIndices(decls, p, k + 1);
      if p(decls[k]) then [k] + rest else rest
  }

  /** Kotlin's `single { p }`: the only matching declaration, else `IllegalArgumentException`/`NoSuchElementException`. */
  function Single(decls: seq<Declaration>, p: Declaration -> bool): (r: Result<nat>)
    ensures r.Ok? ==> (r.value < |decls| && p(decls[r.value])
      && forall j :: 0 <= j < |decls| && p(decls[j]) ==> j == r.value)
    ensures r.Err? ==> forall i :: 0 <= i < |decls| && p(decls[i]) ==> exists j :: 0 <= j < |decls| && j != i && p(decls[j])
  {
    var m := MatchingIndices(decls, p, 0);
    if |m| == 1 then Ok(m[0])
    else if m == [] then Err("NoSuchElementException")
    else
      assert m[0] in m && m[1] in m;
      Err("IllegalArgumentException")
  }

  /**
   * The `when (fqnParts.size)` step of `resolveFunctionalInterface`: the class itself; a member of
   * that name; or a property accessor, the getter tried before the setter. `isAccessor` says
   * whether the signature is an accessor signature; failed `assert`s are `AssertionError`s.
   */
  function ResolveMember(fqnParts: seq<string>, decls: seq<Declaration>, symbolKind: SymbolKind, isAccessor: bool)
    : (r: Result<Resolved>)
    ensures r.Ok? && r.value.MemberSym? ==> r.value.index < |decls|
    ensures r.Ok? && (r.value.GetterSym? || r.value.SetterSym?) ==> r.value.property < |decls|
    ensures |fqnParts| == 1 ==> (r.Ok? <==> symbolKind == CLASS_SYMBOL) && (r.Ok? ==> r.value == ClassSym)
    ensures |fqnParts| == 1 && symbolKind != CLASS_SYMBOL ==> r == Err("AssertionError")
    ensures |fqnParts| == 2 && r.Ok? ==> r.value.MemberSym? && DeclName(decls[r.value.index]) == fqnParts[1]
    ensures |fqnParts| == 3 && (!isAccessor || symbolKind != FUNCTION_SYMBOL) ==> r == Err("AssertionError")
    ensures |fqnParts| == 3 && r.Ok? ==> (isAccessor && symbolKind == FUNCTION_SYMBOL
      && (r.value.GetterSym? || r.value.SetterSym?))
    ensures |fqnParts| == 3 && r.Ok? && r.value.GetterSym? ==> var d := decls[r.value.property];
      d.Property? && d.propertyName == fqnParts[1] && d.getter == Some(fqnParts[2])
    ensures |fqnParts| == 3 && r.Ok? && r.value.SetterSym? ==> var d := decls[r.value.property];
      d.Property? && d.propertyName == fqnParts[1] && d.getter != Some(fqnParts[2]) && d.setter == Some(fqnParts[2])
    ensures !(1 <= |fqnParts| <= 3) ==> r.Err?
  {
    if |fqnParts| == 1 then
      if symbolKind == CLASS_SYMBOL then Ok(ClassSym) else Err("AssertionError")
    else if |fqnParts| == 2 then
      match Single(decls, (d: Declaration) => DeclName(d) == fqnParts[1])
      case Err(e) => Err(e)
      case Ok(i) => Ok(MemberSym(i))
    else if |fqnParts| == 3 then
      if !isAccessor || symbolKind != FUNCTION_SYMBOL then Err("AssertionError")
      else match Single(decls, (d: Declaration) => d.Property? && d.propertyName == fqnParts[1])
        case Err(e) => Err(e)
        case Ok(i) =>
          var p := decls[i];
          if p.getter == Some(fqnParts[2]) then Ok(GetterSym(i))
          else if p.setter == Some(fqnParts[2]) then Ok(SetterSym(i))
          else Err("No accessor found for signature")
    else Err("No member found for signature")
  }

  /**
   * `resolveFunctionalInterface` up to the member lookup: the signature must be public with a
   * class name, which determines the function kind and arity.
   */
  function ResolveFunctionalInterface(s: IdSignature, decls: seq<Declaration>, symbolKind: SymbolKind)
    : (r: Result<(FunctionKind, int, Resolved)>)
    ensures r.Ok? ==> (AsPublic(s).Some? && AsPublic(s).value.declarationFqn != []
      && ComputeFunctionDescriptor(AsPublic(s).value.declarationFqn[0]) == Ok((r.value.0, r.value.1))
      && ResolveMember(AsPublic(s).value.declarationFqn, decls, symbolKind, s.Accessor?) == Ok(r.value.2))
    ensures r.Err? <==> (AsPublic(s).None? || AsPublic(s).value.declarationFqn == []
      || ComputeFunctionDescriptor(AsPublic(s).value.declarationFqn[0]).Err?
      || ResolveMember(AsPublic(s).value.declarationFqn, decls, symbolKind, s.Accessor?).Err?)
  {
    match AsPublic(s)
    case None => Err("has to be public")
    case Some(p) =>
      if p.declarationFqn == [] then Err("Expected class name")
      else match ComputeFunctionDescriptor(p.declarationFqn[0])
        case Err(e) => Err(e)
        case Ok(kd) =>
          match ResolveMember(p.declarationFqn, decls, symbolKind, s.Accessor?)
          case Err(e) => Err(e)
          case Ok(m) => Ok((kd.0, kd.1, m))
  }
}
