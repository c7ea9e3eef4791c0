/**
 * The debugger evaluator's status record (`EvaluationStatus`): the first error reported, and
 * named string values set by flags and enum constants. `send` reports nothing.
 */
module EvaluationStatus {
  import opened Wrappers

  datatype EvaluationError =
    | NoFrameProxy | ThreadNotAvailable | ThreadNotSuspended
    | ProcessCancelledException | InterpretingException | EvaluateException | SpecialException | GenericException
    | FrontendException | BackendException | ErrorsInCode

  datatype EvaluatorType = Bytecode | Eval4j

  datatype EvaluationContextLanguage = Java | Kotlin | Other

  /** `Boolean.toString()`. */
  function BoolName(b: bool): (r: string)
    ensures r == "true" <==> b
    ensures r == "false" <==> !b
  {
    if b then "true" else "false"
  }

  /** The enum constant's `name`. */
  function EvaluatorTypeName(t: EvaluatorType): (r: string)
    ensures r == "Bytecode" <==> t == Bytecode
    ensures r == "Eval4j" <==> t == Eval4j
  {
    match t
    case Bytecode => "Bytecode"
    case Eval4j => "Eval4j"
  }

  /** The enum constant's `name`. */
  function LanguageName(l: EvaluationContextLanguage): (r: string)
    ensures r == "Java" <==> l == Java
    ensures r == "Kotlin" <==> l == Kotlin
    ensures r == "Other" <==> l == Other
  {
    match l
    case Java => "Java"
    case Kotlin => "Kotlin"
    case Other => "Other"
  }

  /** The error kept after one more `error(kind)` call. */
  function ErrorAfter(error: Option<EvaluationError>, kind: EvaluationError): Option<EvaluationError>
  {
    if error.None? then Some(kind) else error
  }

  /** The error kept after a series of `error` calls. */
  function ErrorAfterAll(error: Option<EvaluationError>, kinds: seq<EvaluationError>): Option<EvaluationError>
    decreases |kinds|
  {
    if kinds == [] then error else ErrorAfterAll(ErrorAfter(error, kinds[0]), kinds[1..])
  }

  /** The first error wins: whatever is reported afterwards, the status keeps the first one. */
  lemma {:induction false} FirstErrorWins(error: Option<EvaluationError>, kinds: seq<EvaluationError>)
    ensures error.Some? ==> ErrorAfterAll(error, kinds) == error
    ensures error.None? && kinds != [] ==> ErrorAfterAll(error, kinds) == Some(kinds[0])
    ensures error.None? && kinds == [] ==> ErrorAfterAll(error, kinds) == None
    decreases |kinds|
  {
    if kinds != [] {
      FirstErrorWins(ErrorAfter(error, kinds[0]), kinds[1..]);
    }
  }

  class Status {
    var error: Option<EvaluationError>
    var values: map<string, string>

    constructor()
      ensures error == None && values == map[]
    {
      error := None;
      values := map[];
    }

    /** `error(kind)`: records `kind` only if no error was recorded before. */
    method Error(kind: EvaluationError)
      modifies this
      ensures error == ErrorAfter(old(error), kind)
      ensures old(error).Some? ==> error == old(error)
      ensures old(error).None? ==> error == Some(kind)
      ensures values == old(values)
    {
      if error == None {
        error := Some(kind);
      }
    }

    /** `flag(name, value)`: stores "true" or "false" under `name`, replacing any earlier value. */
    method Flag(name: string, value: bool)
      modifies this
      ensures values == old(values)[name := BoolName(value)]
      ensures error == old(error)
    {
      values := values[name := BoolName(value)];
    }

    /** `value(name, value)`: stores the enum constant's name (`constantName`) under `name`. */
    method Value(name: string, constantName: string)
      modifies this
      ensures values == old(values)[name := constantName]
      ensures error == old(error)
    {
      values := values[name := constantName];
    }

    /** `send()`: reporting is not implemented; nothing changes. */
    method Send()
      ensures unchanged(this)
    {
    }

    /** `classLoadingFailed()`. */
    method ClassLoadingFailed()
      modifies this
      ensures values == old(values)["classLoadingFailed" := "true"] && error == old(error)
    {
      Flag("classLoadingFailed", true);
    }

    /** `compilingEvaluatorFailed()`. */
    method CompilingEvaluatorFailed()
      modifies this
      ensures values == old(values)["compilingEvaluatorFailed" := "true"] && error == old(error)
    {
      Flag("compilingEvaluatorFailed", true);
    }

    /** `usedEvaluator(evaluator)`. */
    method UsedEvaluator(evaluator: EvaluatorType)
      modifies this
      ensures values == old(values)["evaluator" := EvaluatorTypeName(evaluator)] && error == old(error)
    {
      Value("evaluator", EvaluatorTypeName(evaluator));
    }

    /** `contextLanguage(language)`. */
    method ContextLanguage(language: EvaluationContextLanguage)
      modifies this
      ensures values == old(values)["contextLanguage" := LanguageName(language)] && error == old(error)
    {
      Value("contextLanguage", LanguageName(language));
    }

    /** `evaluationType(type)`, with `typeName` the constant's name. */
    method EvaluationType(typeName: string)
      modifies this
      ensures values == old(values)["evaluationType" := typeName] && error == old(error)
    {
      Value("evaluationType", typeName);
    }
  }
}
