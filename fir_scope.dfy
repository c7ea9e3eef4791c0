/**
 * `FirScope`: the `ProcessorAction` protocol (`STOP`/`NEXT`) and the conversion between it and the
 * older Boolean callbacks ("true" meaning "go on").
 */
module FirScope {
  datatype ProcessorAction = STOP | NEXT

  /** `operator fun not()`: true exactly for `STOP`. */
  function Not(a: ProcessorAction): (r: bool)
    ensures r <==> a == STOP
  {
    match a
    case STOP => true
    case NEXT => false
  }

  predicate Stop(a: ProcessorAction) { a == STOP }
  predicate Next(a: ProcessorAction) { a == NEXT }

  lemma StopAndNextPartition(a: ProcessorAction)
    ensures Stop(a) != Next(a)
    ensures Not(a) == Stop(a)
  {
  }

  /**
   * `processClassifiersByName` of a scope, as a function of the Boolean callback: the scope hands
   * symbols to the callback and answers whether it went on to the end.
   */
  type BooleanProcess<!T> = (T -> bool) -> bool

  /** `processClassifiersByNameWithAction`: `processor(it).next()` as the callback, and the Boolean answer back as an action. */
  function ProcessClassifiersByNameWithAction<T>(process: BooleanProcess<T>, processor: T -> ProcessorAction): (r: ProcessorAction)
    ensures r == NEXT <==> process((s: T) => Next(processor(s)))
  {
    if process((s: T) => Next(processor(s))) then NEXT else STOP
  }

  /** The interface's default `processClassifiersByName`: true, without calling the processor. */
  function DefaultProcessClassifiers<T>(processor: T -> bool): (r: bool)
    ensures r
  {
    true
  }

  /** The default `processFunctionsByName` and `processPropertiesByName`: `NEXT`, without calling the processor. */
  function DefaultProcessByName<T>(processor: T -> ProcessorAction): (r: ProcessorAction)
    ensures r == NEXT
  {
    NEXT
  }

  /** A scope that holds `symbols` and stops at the first callback answering false. */
  function ListProcess<T>(symbols: seq<T>, callback: T -> bool): bool
  {
    if symbols == [] then true else callback(symbols[0]) && ListProcess(symbols[1..], callback)
  }

  /** The default scope, seen through the action-based wrapper, goes on. */
  lemma DefaultScopeGoesOn<T>(processor: T -> ProcessorAction)
    ensures ProcessClassifiersByNameWithAction((cb: T -> bool) => DefaultProcessClassifiers(cb), processor) == NEXT
  {
  }

  /** Over a list scope, the wrapper answers `STOP` exactly when the processor stops at some symbol. */
  lemma {:induction false} ListScopeStopsIffProcessorStops<T>(symbols: seq<T>, processor: T -> ProcessorAction)
    ensures ProcessClassifiersByNameWithAction((cb: T -> bool) => ListProcess(symbols, cb), processor) == STOP
      <==> exists i :: 0 <= i < |symbols| && processor(symbols[i]) == STOP
  {
    ListProcessIsForall(symbols, (s: T) => Next(processor(s)));
  }

  lemma {:induction false} ListProcessIsForall<T>(symbols: seq<T>, callback: T -> bool)
    ensures ListProcess(symbols, callback) <==> forall i :: 0 <= i < |symbols| ==> callback(symbols[i])
  {
    if symbols != [] {
      ListProcessIsForall(symbols[1..], callback);
      assert forall i :: 1 <= i < |symbols| ==> symbols[i] == symbols[1..][i - 1];
    }
  }
}
