/**
 * JVM internal names of classes and the descriptor type writer's array-level bookkeeping
 * (`typeSignatureMapping.kt`).
 */
module TypeSignatureMapping {
  import opened Wrappers
  import Text

  /** A declaration with only what `computeInternalName` reads: its kind, name and container. */
  datatype Decl =
    | PackageFragment(fqName: seq<string>)
    | ClassDecl(name: string, containing: Decl)
    /** A function, property or other non-class declaration; `None` when it has no container. */
    | OtherDecl(containingOrNull: Option<Decl>)

  /** `getContainer`: the nearest class or package, skipping every other enclosing declaration. */
  function GetContainer(d: Option<Decl>): (r: Option<Decl>)
    ensures r.Some? ==> r.value.ClassDecl? || r.value.PackageFragment?
    ensures d.Some? && !d.value.OtherDecl? ==> r == d
    ensures d.Some? && r.Some? && r.value.ClassDecl? ==> r.value.containing < d.value
    decreases d
  {
    match d
    case None => None
    case Some(decl) =>
      match decl
      case OtherDecl(parent) => GetContainer(parent)
      case _ => d
  }

  function PackagePath(fqName: seq<string>): string
  {
    Text.ReplaceChar(Text.Join(fqName, "."), '.', '/')
  }

  /**
   * `computeInternalName`; `predefined` is the configuration's
   * `getPredefinedInternalNameForClass`. The class name is taken as an identifier.
   */
  function ComputeInternalName(name: string, containing: Decl, predefined: Decl -> Option<string>, isIrBackend: bool)
    : (r: Result<string>)
    ensures containing.PackageFragment? ==>
      r == Ok(if containing.fqName == [] then name else PackagePath(containing.fqName) + "/" + name)
    ensures !isIrBackend && containing.OtherDecl? ==> r.Err?
    decreases containing
  {
    var container := if isIrBackend then GetContainer(Some(containing)) else Some(containing);
    match container
    case Some(PackageFragment(fq)) => Ok(if fq == [] then name else PackagePath(fq) + "/" + name)
    case Some(ClassDecl(outerName, outerContaining)) =>
      var outer :=
        match predefined(ClassDecl(outerName, outerContaining))
        case Some(p) => Ok(p)
        case None => ComputeInternalName(outerName, outerContaining, predefined, isIrBackend);
      (match outer
       case Ok(o) => Ok(o + "$" + name)
       case Err(e) => Err(e))
    case _ => Err("Unexpected container")
  }

  /** No declaration in the chain has a predefined name. */
  function NoPredefined(d: Decl): Option<string> { None }

  /** The package a class lives in, and its enclosing classes' names from the outermost. */
  datatype Nesting = Nesting(fqName: seq<string>, outerNames: seq<string>)

  /** The chain of containers as an independent description: `None` when it meets a non-class. */
  function NestingOf(d: Decl): Option<Nesting>
  {
    match d
    case PackageFragment(fq) => Some(Nesting(fq, []))
    case ClassDecl(n, c) =>
      (match NestingOf(c)
       case Some(Nesting(fq, outer)) => Some(Nesting(fq, outer + [n]))
       case None => None)
    case OtherDecl(_) => None
  }

  /** `p/q/` + `simple`, or just `simple` in the root package. */
  function InPackage(fqName: seq<string>, simple: string): string
  {
    if fqName == [] then simple else PackagePath(fqName) + "/" + simple
  }

  /** One level of nesting appends `$` and the class name to the container's internal name. */
  lemma NestedStep(name: string, outerName: string, outerContaining: Decl, isIrBackend: bool)
    ensures ComputeInternalName(name, ClassDecl(outerName, outerContaining), NoPredefined, isIrBackend) ==
      match ComputeInternalName(outerName, outerContaining, NoPredefined, isIrBackend)
      case Ok(o) => Ok(o + "$" + name)
      case Err(e) => Err(e)
  {
    assert NoPredefined(ClassDecl(outerName, outerContaining)) == None;
  }

  lemma InPackageSnoc(fqName: seq<string>, outer: seq<string>, name: string)
    requires outer != []
    ensures InPackage(fqName, Text.Join(outer, "$")) + "$" + name == InPackage(fqName, Text.Join(outer + [name], "$"))
  {
    Text.JoinSnoc(outer, name, "$");
  }

  /**
   * Without predefined names, a class nested in classes `C1 … Ck` of package `p.q` is named
   * `p/q/C1$…$Ck$Name` (just `C1$…$Name` in the root package).
   */
  lemma {:induction false} InternalNameOfNestedClass(name: string, containing: Decl, isIrBackend: bool)
    requires NestingOf(containing).Some?
    ensures ComputeInternalName(name, containing, NoPredefined, isIrBackend) ==
      Ok(InPackage(NestingOf(containing).value.fqName, Text.Join(NestingOf(containing).value.outerNames + [name], "$")))
    decreases containing
  {
    match containing
    case PackageFragment(fq) =>
      assert [] + [name] == [name];
    case ClassDecl(outerName, outerContaining) =>
      InternalNameOfNestedClass(outerName, outerContaining, isIrBackend);
      NestedStep(name, outerName, outerContaining, isIrBackend);
      var n := NestingOf(outerContaining).value;
      InPackageSnoc(n.fqName, n.outerNames + [outerName], name);
  }

  /** In IR mode non-class declarations between a class and its container are skipped. */
  lemma IrModeSkipsLocalContainers(name: string, parent: Decl, predefined: Decl -> Option<string>)
    ensures ComputeInternalName(name, OtherDecl(Some(parent)), predefined, true) ==
      ComputeInternalName(name, parent, predefined, true)
  {
  }

  /** `boxTypeIfNeeded`. */
  function BoxTypeIfNeeded<T>(t: T, needBoxedType: bool, boxType: T -> T): (r: T)
    ensures needBoxedType ==> r == boxType(t)
    ensures !needBoxedType ==> r == t
  {
    if needBoxedType then boxType(t) else t
  }

  /** What `hasVoidReturnType` reads of a callable; `returnType` is `None` when it is unknown. */
  datatype ReturnType = ReturnType(isUnit: bool, isNullable: bool)
  datatype Callable =
    | ConstructorCallable
    | PropertyGetter(getterReturn: Option<ReturnType>)
    | OtherCallable(returnType: Option<ReturnType>)

  /** `hasVoidReturnType`; an unknown return type (`returnType!!`) throws. */
  function HasVoidReturnType(c: Callable): (r: Result<bool>)
    ensures c.ConstructorCallable? ==> r == Ok(true)
    ensures c.PropertyGetter? && c.getterReturn.Some? ==> r == Ok(false)
    ensures c.OtherCallable? && c.returnType.Some? ==>
      r == Ok(c.returnType.value.isUnit && !c.returnType.value.isNullable)
    ensures !c.ConstructorCallable? && (if c.PropertyGetter? then c.getterReturn else c.returnType).None? ==> r.Err?
  {
    match c
    case ConstructorCallable => Ok(true)
    case PropertyGetter(rt) => if rt.None? then Err("NullPointerException") else Ok(false)
    case OtherCallable(rt) => if rt.None? then Err("NullPointerException") else Ok(rt.value.isUnit && !rt.value.isNullable)
  }

  /** "[" repeated `n` times. */
  function Brackets(n: nat): (r: string)
    ensures |r| == n && forall i :: 0 <= i < n ==> r[i] == '['
  {
    seq(n, _ => '[')
  }

  /** The two fields of `JvmDescriptorTypeWriter`, with types written as their descriptor strings. */
  datatype WriterState = WriterState(arrayLevel: nat, currentType: Option<string>)

  const INITIAL_WRITER: WriterState := WriterState(0, None)

  datatype WriterEvent = ArrayTypeEvent | ArrayEndEvent | ClassEvent(objectType: string)
    | TypeVariableEvent(name: string, variableType: string) | ClearEvent

  /** `writeJvmTypeAsIs`: only the first type is kept, prefixed by one '[' per array level. */
  function WriteAsIs(s: WriterState, t: string): WriterState
  {
    if s.currentType.None? then
      s.(currentType := Some(if s.arrayLevel > 0 then Brackets(s.arrayLevel) + t else t))
    else s
  }

  /** The effect of each writer method on the two fields. */
  function WriterStep(s: WriterState, e: WriterEvent): WriterState
  {
    match e
    case ArrayTypeEvent => if s.currentType.None? then s.(arrayLevel := s.arrayLevel + 1) else s
    case ArrayEndEvent => s
    case ClassEvent(t) => WriteAsIs(s, t)
    case TypeVariableEvent(_, t) => WriteAsIs(s, t)
    case ClearEvent => INITIAL_WRITER
  }

  function Replay(s: WriterState, events: seq<WriterEvent>): WriterState
    decreases |events|
  {
    if events == [] then s else Replay(WriterStep(s, events[0]), events[1..])
  }

  function TypeOf(e: WriterEvent): Option<string>
  {
    match e
    case ClassEvent(t) => Some(t)
    case TypeVariableEvent(_, t) => Some(t)
    case _ => None
  }

  function ArrayCount(events: seq<WriterEvent>): nat
  {
    if events == [] then 0 else (if events[0] == ArrayTypeEvent then 1 else 0) + ArrayCount(events[1..])
  }

  lemma {:induction false} ReplayAppend(s: WriterState, a: seq<WriterEvent>, b: seq<WriterEvent>)
    ensures Replay(s, a + b) == Replay(Replay(s, a), b)
    decreases |a|
  {
    if a == [] {
      assert a + b == b;
    } else {
      assert (a + b)[0] == a[0] && (a + b)[1..] == a[1..] + b;
      ReplayAppend(WriterStep(s, a[0]), a[1..], b);
    }
  }

  /** Before any type is written, array events only raise the level. */
  lemma {:induction false} ReplayArrays(s: WriterState, events: seq<WriterEvent>)
    requires s.currentType.None?
    requires forall i :: 0 <= i < |events| ==> events[i] == ArrayTypeEvent || events[i] == ArrayEndEvent
    ensures Replay(s, events) == WriterState(s.arrayLevel + ArrayCount(events), None)
    decreases |events|
  {
    if events != [] {
      ReplayArrays(WriterStep(s, events[0]), events[1..]);
    }
  }

  /** Once a type is written, nothing but a clear changes the writer. */
  lemma {:induction false} ReplayKeepsWritten(s: WriterState, events: seq<WriterEvent>)
    requires s.currentType.Some?
    requires forall i :: 0 <= i < |events| ==> events[i] != ClearEvent
    ensures Replay(s, events) == s
    decreases |events|
  {
    if events != [] {
      ReplayKeepsWritten(WriterStep(s, events[0]), events[1..]);
    }
  }

  /**
   * From a fresh writer, with no clear in between: when only array and array-end events
   * come before the first written type, the result is one '[' per array event followed by
   * that first type, and everything written later is ignored.
   */
  lemma {:induction false} FirstWriteWins(prefix: seq<WriterEvent>, first: WriterEvent, rest: seq<WriterEvent>)
    requires forall i :: 0 <= i < |prefix| ==> prefix[i] == ArrayTypeEvent || prefix[i] == ArrayEndEvent
    requires TypeOf(first).Some?
    requires forall i :: 0 <= i < |rest| ==> rest[i] != ClearEvent
    ensures var k := ArrayCount(prefix);
      Replay(INITIAL_WRITER, prefix + [first] + rest) ==
        WriterState(k, Some(if k > 0 then Brackets(k) + TypeOf(first).value else TypeOf(first).value))
  {
    var k := ArrayCount(prefix);
    ReplayArrays(INITIAL_WRITER, prefix);
    var s := WriteAsIs(WriterState(k, None), TypeOf(first).value);
    assert WriterStep(WriterState(k, None), first) == s;
    assert prefix + [first] + rest == prefix + ([first] + rest);
    ReplayAppend(INITIAL_WRITER, prefix, [first] + rest);
    assert ([first] + rest)[0] == first && ([first] + rest)[1..] == rest;
    ReplayKeepsWritten(s, rest);
  }

  /** `clearCurrentType` returns the writer to its initial state whatever came before. */
  lemma ClearResets(events: seq<WriterEvent>, s: WriterState)
    ensures Replay(s, events + [ClearEvent]) == INITIAL_WRITER
  {
    ReplayAppend(s, events, [ClearEvent]);
  }

  /** `JvmDescriptorTypeWriter`: the two mutable fields and its writing methods. */
  class JvmDescriptorTypeWriter {
    var jvmCurrentTypeArrayLevel: nat
    var jvmCurrentType: Option<string>

    function State(): WriterState
      reads this
    {
      WriterState(jvmCurrentTypeArrayLevel, jvmCurrentType)
    }

    constructor ()
      ensures State() == INITIAL_WRITER
    {
      jvmCurrentTypeArrayLevel := 0;
      jvmCurrentType := None;
    }

    method ClearCurrentType()
      modifies this
      ensures State() == WriterStep(old(State()), ClearEvent)
      ensures jvmCurrentType == None && jvmCurrentTypeArrayLevel == 0
    {
      jvmCurrentType := None;
      jvmCurrentTypeArrayLevel := 0;
    }

    method WriteArrayType()
      modifies this
      ensures State() == WriterStep(old(State()), ArrayTypeEvent)
      ensures jvmCurrentType == old(jvmCurrentType)
    {
      if jvmCurrentType == None {
        jvmCurrentTypeArrayLevel := jvmCurrentTypeArrayLevel + 1;
      }
    }

    method WriteArrayEnd()
      ensures State() == WriterStep(old(State()), ArrayEndEvent)
    {
    }

    method WriteJvmTypeAsIs(t: string)
      modifies this
      ensures State() == WriteAsIs(old(State()), t)
      ensures old(jvmCurrentType).Some? ==> jvmCurrentType == old(jvmCurrentType)
    {
      if jvmCurrentType == None {
        jvmCurrentType := Some(if jvmCurrentTypeArrayLevel > 0 then Brackets(jvmCurrentTypeArrayLevel) + t else t);
      }
    }

    method WriteClass(objectType: string)
      modifies this
      ensures State() == WriterStep(old(State()), ClassEvent(objectType))
    {
      WriteJvmTypeAsIs(objectType);
    }

    method WriteTypeVariable(name: string, t: string)
      modifies this
      ensures State() == WriterStep(old(State()), TypeVariableEvent(name, t))
    {
      WriteJvmTypeAsIs(t);
    }
  }
}
