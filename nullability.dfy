/**
 * Java nullability annotations (`nullabilityUtils.kt`): the known-annotation table, the
 * `javax.annotation.Nonnull(when = …)` argument, and the fallback through type-qualifier
 * nicknames with their JSR-305 report level.
 */
module Nullability {
  import opened Wrappers

  datatype NullabilityQualifier = NULLABLE | NOT_NULL | FORCE_FLEXIBILITY

  /** `NullabilityQualifierWithMigrationStatus`. */
  datatype Qualifier = Qualifier(qualifier: NullabilityQualifier, isForWarningOnly: bool)

  /**
   * An annotation call: its resolved fq-name (absent when unresolved) and the callable name of its
   * first argument's resolved symbol (absent when there is no such argument).
   */
  datatype Annotation = Annotation(fqName: Option<string>, firstArgumentName: Option<string>)

  /**
   * The annotation names of `JvmAnnotationNames`, which is not part of this model: the two lists
   * and the five single names.
   */
  datatype KnownNames = KnownNames(
    nullable: seq<string>, notNull: seq<string>,
    javaxNonnull: string, compatqualNullable: string, compatqualNonnull: string,
    androidxRecentlyNonNull: string, androidxRecentlyNullable: string)

  /** `extractNullabilityTypeFromArgument`: the `when` value of `@Nonnull`. */
  function FromArgument(a: Annotation): (r: Option<Qualifier>)
    ensures a.firstArgumentName.None? ==> r == Some(Qualifier(NOT_NULL, false))
    ensures a.firstArgumentName == Some("ALWAYS") ==> r == Some(Qualifier(NOT_NULL, false))
    ensures a.firstArgumentName == Some("MAYBE") || a.firstArgumentName == Some("NEVER") ==> r == Some(Qualifier(NULLABLE, false))
    ensures a.firstArgumentName == Some("UNKNOWN") ==> r == Some(Qualifier(FORCE_FLEXIBILITY, false))
    ensures r.None? <==> a.firstArgumentName.Some? && a.firstArgumentName.value !in {"ALWAYS", "MAYBE", "NEVER", "UNKNOWN"}
    ensures r.Some? ==> !r.value.isForWarningOnly
  {
    match a.firstArgumentName
    case None => Some(Qualifier(NOT_NULL, false))
    case Some(v) =>
      if v == "ALWAYS" then Some(Qualifier(NOT_NULL, false))
      else if v == "MAYBE" || v == "NEVER" then Some(Qualifier(NULLABLE, false))
      else if v == "UNKNOWN" then Some(Qualifier(FORCE_FLEXIBILITY, false))
      else None
  }

  /** The name is in neither annotation list, so the table's later rows decide. */
  predicate Unlisted(n: string, names: KnownNames)
  {
    n !in names.nullable && n !in names.notNull
  }

  /** `extractNullabilityFromKnownAnnotations`: the first matching row of the table. */
  function FromKnownAnnotations(a: Annotation, names: KnownNames, enableCompatqual: bool): (r: Option<Qualifier>)
    ensures a.fqName.None? ==> r.None?
    ensures a.fqName.Some? && a.fqName.value in names.nullable ==> r == Some(Qualifier(NULLABLE, false))
    ensures a.fqName.Some? && a.fqName.value !in names.nullable && a.fqName.value in names.notNull ==>
      r == Some(Qualifier(NOT_NULL, false))
    ensures r.Some? && r.value.isForWarningOnly ==> (a.fqName == Some(names.androidxRecentlyNonNull)
      || a.fqName == Some(names.androidxRecentlyNullable))
    ensures (!enableCompatqual && a.fqName.Some? && a.fqName.value !in names.nullable && a.fqName.value !in names.notNull
      && a.fqName.value !in {names.javaxNonnull, names.androidxRecentlyNonNull, names.androidxRecentlyNullable}) ==> r.None?
    ensures a.fqName == Some(names.javaxNonnull) && Unlisted(names.javaxNonnull, names) ==> r == FromArgument(a)
    ensures (a.fqName.Some? && Unlisted(a.fqName.value, names) && a.fqName.value != names.javaxNonnull && enableCompatqual) ==>
      (a.fqName.value == names.compatqualNullable ==> r == Some(Qualifier(NULLABLE, false)))
      && (a.fqName.value == names.compatqualNonnull && a.fqName.value != names.compatqualNullable ==>
            r == Some(Qualifier(NOT_NULL, false)))
    ensures (a.fqName.Some? && Unlisted(a.fqName.value, names) && a.fqName.value != names.javaxNonnull
      && (enableCompatqual ==> a.fqName.value !in {names.compatqualNullable, names.compatqualNonnull})) ==>
      (a.fqName.value == names.androidxRecentlyNonNull ==> r == Some(Qualifier(NOT_NULL, true)))
      && (a.fqName.value == names.androidxRecentlyNullable && a.fqName.value != names.androidxRecentlyNonNull ==>
            r == Some(Qualifier(NULLABLE, true)))
  {
    match a.fqName
    case None => None
    case Some(n) =>
      if n in names.nullable then Some(Qualifier(NULLABLE, false))
      else if n in names.notNull then Some(Qualifier(NOT_NULL, false))
      else if n == names.javaxNonnull then FromArgument(a)
      else if n == names.compatqualNullable && enableCompatqual then Some(Qualifier(NULLABLE, false))
      else if n == names.compatqualNonnull && enableCompatqual then Some(Qualifier(NOT_NULL, false))
      else if n == names.androidxRecentlyNonNull then Some(Qualifier(NOT_NULL, true))
      else if n == names.androidxRecentlyNullable then Some(Qualifier(NULLABLE, true))
      else None
  }

  datatype ReportLevel = Ignore | Warn | Strict

  /**
   * `FirAnnotationTypeQualifierResolver`, which is not part of this model: the type-qualifier
   * annotation an annotation stands for, and the JSR-305 report level that applies to it.
   */
  datatype Resolver = Resolver(
    resolveTypeQualifierAnnotation: Annotation -> Option<Annotation>,
    resolveJsr305ReportLevel: Annotation -> ReportLevel)

  /** `FirAnnotationCall.extractNullability`. */
  function ExtractNullability(a: Annotation, names: KnownNames, enableCompatqual: bool, resolver: Resolver): (r: Option<Qualifier>)
    ensures FromKnownAnnotations(a, names, enableCompatqual).Some? ==> r == FromKnownAnnotations(a, names, enableCompatqual)
    ensures FromKnownAnnotations(a, names, enableCompatqual).None? ==>
      (r.Some? <==> (resolver.resolveTypeQualifierAnnotation(a).Some? && resolver.resolveJsr305ReportLevel(a) != Ignore
        && FromKnownAnnotations(resolver.resolveTypeQualifierAnnotation(a).value, names, enableCompatqual).Some?))
    ensures FromKnownAnnotations(a, names, enableCompatqual).None? && r.Some? ==> (
      r.value.qualifier == FromKnownAnnotations(resolver.resolveTypeQualifierAnnotation(a).value, names, enableCompatqual).value.qualifier
      && (r.value.isForWarningOnly <==> resolver.resolveJsr305ReportLevel(a) == Warn))
  {
    var known := FromKnownAnnotations(a, names, enableCompatqual);
    if known.Some? then known
    else match resolver.resolveTypeQualifierAnnotation(a)
      case None => None
      case Some(typeQualifier) =>
        var level := resolver.resolveJsr305ReportLevel(a);
        if level == Ignore then None
        else match FromKnownAnnotations(typeQualifier, names, enableCompatqual)
          case None => None
          case Some(q) => Some(q.(isForWarningOnly := level == Warn))
  }

  /** `List<FirAnnotationCall>.extractNullability`: `firstNotNullResult`. */
  function ExtractNullabilityOfList(annotations: seq<Annotation>, names: KnownNames, enableCompatqual: bool, resolver: Resolver)
    : (r: Option<Qualifier>)
    ensures r.None? <==> forall i :: 0 <= i < |annotations| ==> ExtractNullability(annotations[i], names, enableCompatqual, resolver).None?
    ensures r.Some? ==> exists i :: (0 <= i < |annotations| && ExtractNullability(annotations[i], names, enableCompatqual, resolver) == r
      && forall j :: 0 <= j < i ==> ExtractNullability(annotations[j], names, enableCompatqual, resolver).None?)
  {
    if annotations == [] then None
    else
      var first := ExtractNullability(annotations[0], names, enableCompatqual, resolver);
      if first.Some? then first
      else
        var r := ExtractNullabilityOfList(annotations[1..], names, enableCompatqual, resolver);
        FirstOfRest(annotations, names, enableCompatqual, resolver, r);
        r
  }

  lemma FirstOfRest(annotations: seq<Annotation>, names: KnownNames, enableCompatqual: bool, resolver: Resolver, r: Option<Qualifier>)
    requires annotations != [] && ExtractNullability(annotations[0], names, enableCompatqual, resolver).None?
    requires r.None? <==> forall i :: 0 <= i < |annotations[1..]| ==> ExtractNullability(annotations[1..][i], names, enableCompatqual, resolver).None?
    requires r.Some? ==> exists i :: (0 <= i < |annotations[1..]| && ExtractNullability(annotations[1..][i], names, enableCompatqual, resolver) == r
      && forall j :: 0 <= j < i ==> ExtractNullability(annotations[1..][j], names, enableCompatqual, resolver).None?)
    ensures r.None? <==> forall i :: 0 <= i < |annotations| ==> ExtractNullability(annotations[i], names, enableCompatqual, resolver).None?
    ensures r.Some? ==> exists i :: (0 <= i < |annotations| && ExtractNullability(annotations[i], names, enableCompatqual, resolver) == r
      && forall j :: 0 <= j < i ==> ExtractNullability(annotations[j], names, enableCompatqual, resolver).None?)
  {
    assert forall i :: 1 <= i < |annotations| ==> annotations[i] == annotations[1..][i - 1];
    if r.Some? {
      var i :| 0 <= i < |annotations[1..]| && ExtractNullability(annotations[1..][i], names, enableCompatqual, resolver) == r
        && forall j :: 0 <= j < i ==> ExtractNullability(annotations[1..][j], names, enableCompatqual, resolver).None?;
      assert ExtractNullability(annotations[i + 1], names, enableCompatqual, resolver) == r;
    }
  }

  /**
   * Reading the table back: a qualifier taken from the known names is `NULLABLE` only through a
   * nullable name, a nullable compatqual (when enabled) or androidx name, or `@Nonnull(MAYBE|NEVER)`.
   */
  lemma NullableComesFromNullableNames(a: Annotation, names: KnownNames, enableCompatqual: bool)
    requires FromKnownAnnotations(a, names, enableCompatqual) == Some(Qualifier(NULLABLE, false))
      || FromKnownAnnotations(a, names, enableCompatqual) == Some(Qualifier(NULLABLE, true))
    ensures a.fqName.Some?
    ensures a.fqName.value in names.nullable
      || (a.fqName.value == names.compatqualNullable && enableCompatqual)
      || a.fqName.value == names.androidxRecentlyNullable
      || (a.fqName.value == names.javaxNonnull && (a.firstArgumentName == Some("MAYBE") || a.firstArgumentName == Some("NEVER")))
  {
  }
}
