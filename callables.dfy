/**
 * `CallableId`: a package, an optional class and a callable name. A `FirFqName` is represented
 * here by its segments; `FirClassId` is not part of this model beyond its two components.
 */
module Callables {
  import opened Wrappers
  import Text
  import FirName
  import FirFqName

  type FqSegments = seq<FirName.Name>

  /** A class id: its package and its (possibly nested) class name. */
  datatype ClassId = ClassId(packageFqName: FqSegments, relativeClassName: FqSegments)

  /** `shortClassName`: the last segment of the relative class name. */
  function ShortClassName(id: ClassId): Option<FirName.Name>
  {
    if id.relativeClassName == [] then None else Some(id.relativeClassName[|id.relativeClassName| - 1])
  }

  /** `FirFqName.toString()`. */
  function FqString(segments: FqSegments): (r: string)
  {
    Text.Join(FirFqName.SegmentStrings(segments), ".")
  }

  /** "NB: with className == null we are at top level". */
  datatype CallableId = CallableId(packageName: FqSegments, className: Option<FqSegments>, callableName: FirName.Name)

  /** `classId`: defined exactly when there is a class name. */
  function ClassIdOf(c: CallableId): (r: Option<ClassId>)
    ensures r.Some? <==> c.className.Some?
    ensures r.Some? ==> r.value.packageFqName == c.packageName && r.value.relativeClassName == c.className.value
  {
    match c.className
    case None => None
    case Some(cls) => Some(ClassId(c.packageName, cls))
  }

  /** The two-argument constructor: a top-level callable. */
  function TopLevel(packageName: FqSegments, callableName: FirName.Name): (r: CallableId)
    ensures r.className.None? && ClassIdOf(r).None?
    ensures r.packageName == packageName && r.callableName == callableName
  {
    CallableId(packageName, None, callableName)
  }

  /** The one-argument constructor: package `FirNameFactory.LOCAL` (taken as `local`), no class. */
  function Local(local: FirName.Name, callableName: FirName.Name): (r: CallableId)
    ensures r.packageName == [local] && r.className.None? && r.callableName == callableName
  {
    CallableId([local], None, callableName)
  }

  /** The package written with '/' instead of '.'. */
  function PackagePath(packageName: FqSegments): (r: string)
    ensures '.' !in r
  {
    var r := Text.ReplaceChar(FqString(packageName), '.', '/');
    assert forall i :: 0 <= i < |r| ==> r[i] != '.';
    r
  }

  /** The part after the package path and its "/": "Class." when present, then the callable name. */
  function MemberPart(c: CallableId): string
  {
    (if c.className.Some? then FqString(c.className.value) + "." else "") + c.callableName.name
  }

  /** `toString()`. */
  function ToString(c: CallableId): (r: string)
    ensures PackagePath(c.packageName) + "/" <= r
    ensures r[|PackagePath(c.packageName)| + 1..] == MemberPart(c)
    ensures Text.EndsWith(r, c.callableName.name)
  {
    var r := PackagePath(c.packageName) + "/" + MemberPart(c);
    assert r[|PackagePath(c.packageName)| + 1..] == MemberPart(c);
    assert r[|r| - |c.callableName.name|..] == c.callableName.name;
    r
  }

  /** Within one package and class, the string tells callables apart (by their text). */
  lemma ToStringSeparatesCallables(a: CallableId, b: CallableId)
    requires a.packageName == b.packageName && a.className == b.className
    requires ToString(a) == ToString(b)
    ensures a.callableName.name == b.callableName.name
  {
    var k := |PackagePath(a.packageName)| + 1;
    assert MemberPart(a) == MemberPart(b);
    var prefix := if a.className.Some? then FqString(a.className.value) + "." else "";
    assert MemberPart(a) == prefix + a.callableName.name;
    assert MemberPart(a)[|prefix|..] == a.callableName.name;
    assert MemberPart(b)[|prefix|..] == b.callableName.name;
  }

  /** A top-level callable's string has no '.' when its name has none: the package's dots became '/'. */
  lemma TopLevelStringHasNoDot(packageName: FqSegments, callableName: FirName.Name)
    requires '.' !in callableName.name
    ensures '.' !in ToString(TopLevel(packageName, callableName))
  {
    var c := TopLevel(packageName, callableName);
    assert ToString(c) == PackagePath(packageName) + "/" + callableName.name;
  }
}
