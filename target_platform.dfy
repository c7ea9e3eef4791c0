/**
 * `TargetPlatform`: a non-empty set of simple platforms (JVM with a target version, JS, Native),
 * the single/common classification, and the two descriptions.
 */
module TargetPlatform {
  import opened Wrappers
  import Text

  datatype JvmTarget = JVM_1_6 | JVM_1_8

  /** `JvmTarget.values()` in declaration order. */
  const JVM_TARGETS: seq<JvmTarget> := [JVM_1_6, JVM_1_8]

  const DEFAULT_JVM_TARGET: JvmTarget := JVM_1_6

  function Description(t: JvmTarget): string
  {
    match t
    case JVM_1_6 => "1.6"
    case JVM_1_8 => "1.8"
  }

  /** The enum constant's name, which is what `toString()` of a `JvmTarget` gives. */
  function EnumName(t: JvmTarget): string
  {
    match t
    case JVM_1_6 => "JVM_1_6"
    case JVM_1_8 => "JVM_1_8"
  }

  /** `JvmTarget.fromString`: the first target whose description is `s`, else null. */
  function FromString(s: string): (r: Option<JvmTarget>)
    ensures r.Some? ==> Description(r.value) == s
    ensures r.None? <==> forall t :: t in JVM_TARGETS ==> Description(t) != s
  {
    if s == "1.6" then Some(JVM_1_6) else if s == "1.8" then Some(JVM_1_8) else None
  }

  lemma FromStringOfDescription(t: JvmTarget)
    ensures FromString(Description(t)) == Some(t)
  {
  }

  /**
   * A simple platform. JDK platforms are data objects (equal by target version); the other JVM,
   * JS and Native platforms are anonymous objects, told apart by `id`.
   */
  datatype SimplePlatform =
    | JdkPlatform(targetVersion: JvmTarget)
    | OtherJvmPlatform(id: nat)
    | JsPlatform(id: nat)
    | KonanPlatform(id: nat)

  predicate IsJvmPlatform(p: SimplePlatform) { p.JdkPlatform? || p.OtherJvmPlatform? }

  function PlatformName(p: SimplePlatform): string
  {
    match p
    case JdkPlatform(_) => "JVM"
    case OtherJvmPlatform(_) => "JVM"
    case JsPlatform(_) => "JS"
    case KonanPlatform(_) => "Native"
  }

  /** `toString()`: the platform name, and for a JDK platform its target in parentheses. */
  function PlatformToString(p: SimplePlatform): (r: string)
    ensures PlatformName(p) <= r
    ensures p.JdkPlatform? ==> r == PlatformName(p) + " (" + EnumName(p.targetVersion) + ")"
    ensures !p.JdkPlatform? ==> r == PlatformName(p)
  {
    if p.JdkPlatform? then PlatformName(p) + " (" + EnumName(p.targetVersion) + ")" else PlatformName(p)
  }

  /** The components in the set's iteration order; a set holds each platform once. */
  datatype Platform = Platform(components: seq<SimplePlatform>)

  predicate Distinct(cs: seq<SimplePlatform>)
  {
    forall i, j :: 0 <= i < j < |cs| ==> cs[i] != cs[j]
  }

  /** The constructor's `init` check: an empty set of platforms is rejected. */
  function NewPlatform(cs: seq<SimplePlatform>): (r: Result<Platform>)
    requires Distinct(cs)
    ensures r.Err? <==> cs == []
    ensures r.Ok? ==> r.value.components == cs
  {
    if cs == [] then Err("Don't instantiate TargetPlatform with empty set of platforms")
    else Ok(Platform(cs))
  }

  /** `toTargetPlatform()`. */
  function ToTargetPlatform(p: SimplePlatform): (r: Platform)
    ensures r.components == [p]
  {
    Platform([p])
  }

  function SingleOrNull(p: Platform): (r: Option<SimplePlatform>)
    ensures r.Some? <==> |p.components| == 1
    ensures r.Some? ==> r.value == p.components[0]
  {
    if |p.components| == 1 then Some(p.components[0]) else None
  }

  /** The nullable-receiver predicates: `isJvm`, `isJs`, `isNative`, `isCommon`. */
  predicate IsJvm(p: Option<Platform>): (b: bool)
    ensures b <==> p.Some? && |p.value.components| == 1 && IsJvmPlatform(p.value.components[0])
  {
    p.Some? && SingleOrNull(p.value).Some? && IsJvmPlatform(SingleOrNull(p.value).value)
  }

  predicate IsJs(p: Option<Platform>): (b: bool)
    ensures b <==> p.Some? && |p.value.components| == 1 && p.value.components[0].JsPlatform?
  {
    p.Some? && SingleOrNull(p.value).Some? && SingleOrNull(p.value).value.JsPlatform?
  }

  predicate IsNative(p: Option<Platform>): (b: bool)
    ensures b <==> p.Some? && |p.value.components| == 1 && p.value.components[0].KonanPlatform?
  {
    p.Some? && SingleOrNull(p.value).Some? && SingleOrNull(p.value).value.KonanPlatform?
  }

  /** A common platform is one with no single component, the empty platform excepted. */
  predicate IsCommon(p: Option<Platform>): (b: bool)
    ensures b <==> p.Some? && SingleOrNull(p.value).None? && p.value.components != []
  {
    p.Some? && |p.value.components| > 1
  }

  /** A common platform is none of JVM, JS and Native, and those three exclude one another. */
  lemma ClassificationIsExclusive(p: Option<Platform>)
    ensures IsCommon(p) ==> !IsJvm(p) && !IsJs(p) && !IsNative(p)
    ensures !(IsJvm(p) && IsJs(p)) && !(IsJvm(p) && IsNative(p)) && !(IsJs(p) && IsNative(p))
    ensures p.Some? && p.value.components != [] ==> (IsCommon(p) || IsJvm(p) || IsJs(p) || IsNative(p))
  {
  }

  /** `oldFashionedDescription`. */
  function OldFashionedDescription(p: Platform): (r: string)
    ensures SingleOrNull(p).None? ==> r == "Common (experimental) "
    ensures SingleOrNull(p).Some? && SingleOrNull(p).value.JdkPlatform? ==>
      r == "JVM " + Description(SingleOrNull(p).value.targetVersion)
  {
    match SingleOrNull(p)
    case None => "Common (experimental) "
    case Some(JdkPlatform(t)) => "JVM " + Description(t)
    case Some(OtherJvmPlatform(_)) => "JVM "
    case Some(JsPlatform(_)) => "JavaScript "
    case Some(KonanPlatform(_)) => "Kotlin/Native "
  }

  /** Which of the four classes a platform falls in. */
  datatype Category = JvmCategory | JsCategory | NativeCategory | CommonCategory

  function CategoryOf(p: Platform): Category
  {
    if IsJvm(Some(p)) then JvmCategory
    else if IsJs(Some(p)) then JsCategory
    else if IsNative(Some(p)) then NativeCategory
    else CommonCategory
  }

  /** The old-fashioned description tells the category apart, and for a JDK platform its target. */
  lemma OldFashionedDescriptionDeterminesCategory(p: Platform, q: Platform)
    requires OldFashionedDescription(p) == OldFashionedDescription(q)
    ensures CategoryOf(p) == CategoryOf(q)
    ensures SingleOrNull(p).Some? && SingleOrNull(p).value.JdkPlatform? && SingleOrNull(q).Some? && SingleOrNull(q).value.JdkPlatform? ==>
      SingleOrNull(p).value.targetVersion == SingleOrNull(q).value.targetVersion
  {
    var a, b := OldFashionedDescription(p), OldFashionedDescription(q);
    assert a[0] == b[0];
    if a[0] == 'J' {
      assert a[1] == b[1];
      if a[1] == 'V' && |a| > 4 {
        assert |b| > 4 && a[6] == b[6];
      }
    }
  }

  /** `presentableDescription`: the components' strings joined with "/". */
  function PresentableDescription(p: Platform): (r: string)
    ensures |p.components| == 1 ==> r == PlatformToString(p.components[0])
  {
    Text.Join(Strings(p.components), "/")
  }

  function Strings(cs: seq<SimplePlatform>): (r: seq<string>)
    ensures |r| == |cs|
    ensures forall i :: 0 <= i < |cs| ==> r[i] == PlatformToString(cs[i])
  {
    if cs == [] then [] else Strings(cs[..|cs| - 1]) + [PlatformToString(cs[|cs| - 1])]
  }

  lemma NoSlashInPlatformString(p: SimplePlatform)
    ensures Text.Count(PlatformToString(p), '/') == 0
  {
    var s := PlatformToString(p);
    Text.CountZero(s, '/');
  }

  /** Each component contributes one "/" separator: the description has one less than components. */
  lemma {:induction false} PresentableDescriptionSeparators(p: Platform)
    requires p.components != []
    ensures Text.Count(PresentableDescription(p), '/') == |p.components| - 1
  {
    JoinCount(Strings(p.components), p.components);
  }

  lemma {:induction false} JoinCount(parts: seq<string>, cs: seq<SimplePlatform>)
    requires parts != [] && |parts| == |cs|
    requires forall i :: 0 <= i < |cs| ==> parts[i] == PlatformToString(cs[i])
    ensures Text.Count(Text.Join(parts, "/"), '/') == |parts| - 1
    decreases |parts|
  {
    NoSlashInPlatformString(cs[0]);
    if |parts| > 1 {
      JoinCount(parts[1..], cs[1..]);
      Text.CountAppend(parts[0] + "/", Text.Join(parts[1..], "/"), '/');
      Text.CountAppend(parts[0], "/", '/');
      assert Text.Count("/", '/') == 1 by {
        assert ("/")[..0] == "";
      }
    }
  }


  /** `jvmPlatformByTargetVersion`: the built-in single JDK platform of that target. */
  function JvmPlatformByTargetVersion(t: JvmTarget): (r: Platform)
    ensures SingleOrNull(r) == Some(JdkPlatform(t))
    ensures IsJvm(Some(r))
  {
    match t
    case JVM_1_6 => ToTargetPlatform(JdkPlatform(JVM_1_6))
    case JVM_1_8 => ToTargetPlatform(JdkPlatform(JVM_1_8))
  }

  /** `newCommonPlatform`: JDK 1.8, the built-in JS and the built-in Native platform. */
  function NewCommonPlatform(): (r: Platform)
    ensures |r.components| == 3 && Distinct(r.components)
    ensures IsCommon(Some(r)) && !IsJvm(Some(r)) && !IsJs(Some(r)) && !IsNative(Some(r))
    ensures OldFashionedDescription(r) == "Common (experimental) "
  {
    Platform([JdkPlatform(JVM_1_8), JsPlatform(0), KonanPlatform(0)])
  }
}
