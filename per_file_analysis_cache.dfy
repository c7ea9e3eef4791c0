/**
 * The IDE's per-file analysis cache (`PerFileAnalysisCache`): the lookup that finds the topmost
 * analysed ancestor of an element and prunes the cached entries below it, the stacking of a
 * function's re-analysis over the file's context, and how a stacked binding context routes reads
 * to its two delegates. PSI elements are identified values; analysis results and plain binding
 * contexts are opaque.
 */
module PerFileAnalysisCache {
  import opened Wrappers

  datatype ElementKind = File | NamedFunction(inBlockModificationCount: int) | OtherElement

  /** A PSI element, compared by identity (`id`). */
  datatype Element = Element(id: nat, kind: ElementKind)

  /** An opaque `AnalysisResult`. */
  datatype AnalysisResult = AnalysisResult(id: nat)

  /** `current is KtNamedFunction && current.inBlockModificationCount > 0`: the scan stops after such an element. */
  predicate StopsScan(e: Element)
  {
    e.kind.NamedFunction? && e.kind.inBlockModificationCount > 0
  }

  /** How many elements of `parentsWithSelf` the scan looks at: up to and including the first that stops it. */
  function ScannedLength(chain: seq<Element>): (n: nat)
    ensures n <= |chain|
    ensures forall j :: 0 <= j < n - 1 ==> !StopsScan(chain[j])
    ensures n < |chain| ==> n >= 1 && StopsScan(chain[n - 1])
    ensures chain != [] ==> n >= 1
  {
    if chain == [] then 0
    else if StopsScan(chain[0]) then 1
    else
      var rest := ScannedLength(chain[1..]);
      assert forall j :: 1 <= j < 1 + rest - 1 ==> chain[j] == chain[1..][j - 1];
      1 + rest
  }

  /** The scan goes past an element that does not stop it, and ends just after one that does. */
  lemma ScannedLengthStep(chain: seq<Element>, i: nat)
    requires i < |chain| && forall j :: 0 <= j < i ==> !StopsScan(chain[j])
    ensures i < ScannedLength(chain)
    ensures StopsScan(chain[i]) ==> ScannedLength(chain) == i + 1
    ensures !StopsScan(chain[i]) ==> forall j :: 0 <= j < i + 1 ==> !StopsScan(chain[j])
  {
  }

  /** The index of the last element of `s` that is cached: the topmost analysed ancestor. */
  function LastCached(cache: map<Element, AnalysisResult>, s: seq<Element>): (r: Option<nat>)
    ensures r.None? <==> forall j :: 0 <= j < |s| ==> s[j] !in cache
    ensures r.Some? ==> r.value < |s| && s[r.value] in cache && forall j :: r.value < j < |s| ==> s[j] !in cache
  {
    if s == [] then None
    else if s[|s| - 1] in cache then Some(|s| - 1)
    else
      var r := LastCached(cache, s[..|s| - 1]);
      assert forall j :: 0 <= j < |s| - 1 ==> s[..|s| - 1][j] == s[j];
      r
  }

  /** `lookUp`'s result: the cached value of the topmost cached element among those scanned. */
  function LookUpResult(cache: map<Element, AnalysisResult>, chain: seq<Element>): (r: Option<AnalysisResult>)
    ensures r.None? <==> forall j :: 0 <= j < ScannedLength(chain) ==> chain[j] !in cache
  {
    var scanned := chain[..ScannedLength(chain)];
    match LastCached(cache, scanned)
    case None => None
    case Some(t) => Some(cache[scanned[t]])
  }

  /** The elements of a list, as a set. */
  function Elements(s: seq<Element>): set<Element>
  {
    set x | x in s
  }

  /** The elements scanned before the topmost cached one (none when nothing is cached). */
  function Pruned(cache: map<Element, AnalysisResult>, chain: seq<Element>, n: nat): set<Element>
    requires n <= |chain|
  {
    match LastCached(cache, chain[..n])
    case None => {}
    case Some(t) => Elements(chain[..t])
  }

  /** Where the current run of descendants starts: just at the last cached element, or at the beginning. */
  function RunStart(cache: map<Element, AnalysisResult>, chain: seq<Element>, n: nat): nat
    requires n <= |chain|
  {
    match LastCached(cache, chain[..n])
    case None => 0
    case Some(t) => t
  }

  lemma LastCachedStep(cache: map<Element, AnalysisResult>, chain: seq<Element>, i: nat)
    requires i < |chain|
    ensures LastCached(cache, chain[..i + 1]) == if chain[i] in cache then Some(i) else LastCached(cache, chain[..i])
  {
    assert chain[..i + 1][..i] == chain[..i];
  }

  /** The facts about one contiguous run of elements the loop joins into its removal set. */
  lemma RunJoins(chain: seq<Element>, t: nat, i: nat)
    requires t <= i <= |chain|
    ensures Elements(chain[..t]) + Elements(chain[t..i]) == Elements(chain[..i])
  {
    assert chain[..i] == chain[..t] + chain[t..i];
  }

  /** Whether a diagnostic's parent walk reaches a file before it reaches `element` (the `filter` lambda's answer). */
  function ReachesFileFirst(parents: seq<Element>, element: Element): bool
  {
    if parents == [] then false
    else if parents[0] == element then false
    else if parents[0].kind.File? then true
    else ReachesFileFirst(parents[1..], element)
  }

  /** `parents[k]` is a file other than `element`, and `element` does not occur before it. */
  predicate FirstFileBefore(parents: seq<Element>, element: Element, k: int)
  {
    0 <= k < |parents| && parents[k].kind.File? && parents[k] != element && forall j :: 0 <= j < k ==> parents[j] != element
  }

  /** The walk keeps a diagnostic exactly when some file comes before any occurrence of `element`. */
  lemma {:induction false} ReachesFileFirstSpec(parents: seq<Element>, element: Element)
    ensures ReachesFileFirst(parents, element) <==> (exists k :: FirstFileBefore(parents, element, k))
  {
    if parents == [] {
    } else if parents[0] == element {
      forall k | 0 <= k < |parents|
        ensures !FirstFileBefore(parents, element, k)
      {
        if k > 0 {
          assert parents[0] == element;
        }
      }
    } else if parents[0].kind.File? {
      assert FirstFileBefore(parents, element, 0);
    } else {
      ReachesFileFirstSpec(parents[1..], element);
      if ReachesFileFirst(parents, element) {
        var k :| FirstFileBefore(parents[1..], element, k);
        assert parents[k + 1] == parents[1..][k];
        assert forall j :: 1 <= j < k + 1 ==> parents[j] == parents[1..][j - 1];
        assert FirstFileBefore(parents, element, k + 1);
      } else {
        forall k | 0 <= k < |parents|
          ensures !FirstFileBefore(parents, element, k)
        {
          if FirstFileBefore(parents, element, k) {
            assert k >= 1;
            assert parents[1..][k - 1] == parents[k];
            assert FirstFileBefore(parents[1..], element, k - 1);
          }
        }
      }
    }
  }

  /** The `for (diagnosticParent in generateSequence(d.psiElement) { it.parent })` walk. */
  method IsOutsideElement(parents: seq<Element>, element: Element) returns (keep: bool)
    ensures keep == ReachesFileFirst(parents, element)
  {
    var i := 0;
    while i < |parents|
      invariant 0 <= i <= |parents|
      invariant ReachesFileFirst(parents, element) == ReachesFileFirst(parents[i..], element)
    {
      if parents[i] == element {
        return false;
      }
      if parents[i].kind.File? {
        return true;
      }
      assert parents[i..][1..] == parents[i + 1..];
      i := i + 1;
    }
    return false;
  }

  /** A diagnostic and the parent chain of its PSI element, innermost first. */
  datatype Diagnostic = Diagnostic(id: nat, parents: seq<Element>)

  /** A binding context: an opaque one with its diagnostics, or a `StackedCompositeBindingContext`. */
  datatype BindingContext =
    | PlainContext(id: nat, plainDiagnostics: seq<Diagnostic>)
    | StackedContext(depth: int, element: Element, children: set<Element>, elementContext: BindingContext,
        parentContext: BindingContext, parentDiagnostics: seq<Diagnostic>, diagnostics: seq<Diagnostic>)

  /** `diagnostics.all()`. */
  function AllDiagnostics(c: BindingContext): seq<Diagnostic>
  {
    if c.PlainContext? then c.plainDiagnostics else c.diagnostics
  }

  /** The parent diagnostics that are copied: those whose walk reaches a file before `element`. */
  function OutsideDiagnostics(ds: seq<Diagnostic>, element: Element): (r: seq<Diagnostic>)
    ensures forall d :: d in r <==> d in ds && ReachesFileFirst(d.parents, element)
  {
    if ds == [] then []
    else
      var init := OutsideDiagnostics(ds[..|ds| - 1], element);
      assert forall d :: d in ds <==> d in ds[..|ds| - 1] || d == ds[|ds| - 1];
      init + (if ReachesFileFirst(ds[|ds| - 1].parents, element) then [ds[|ds| - 1]] else [])
  }

  /** `parentCtx.diagnostics.all().filter { … }`: the diagnostics whose walk reaches a file before `element`. */
  method FilterOutside(all: seq<Diagnostic>, element: Element) returns (kept: seq<Diagnostic>)
    ensures kept == OutsideDiagnostics(all, element)
  {
    kept := [];
    for k := 0 to |all|
      invariant kept == OutsideDiagnostics(all[..k], element)
    {
      var keep := IsOutsideElement(all[k].parents, element);
      assert all[..k + 1][..k] == all[..k];
      if keep {
        kept := kept + [all[k]];
      }
    }
    assert all[..|all|] == all;
  }

  /** The merged context's depth. */
  function MergedDepth(parentCtx: BindingContext, element: Element): (r: int)
    ensures parentCtx.StackedContext? && parentCtx.element == element ==> r == parentCtx.depth
    ensures parentCtx.StackedContext? && parentCtx.element != element ==> r == parentCtx.depth + 1
    ensures parentCtx.PlainContext? ==> r == 1
  {
    match parentCtx
    case StackedContext(depth, e, _, _, _, _, _) => if e == element then depth else depth + 1
    case PlainContext(_, _) => 1
  }

  /** Every stacked context in `c`, down the parent side, has positive depth. */
  predicate WellStacked(c: BindingContext)
  {
    c.StackedContext? ==> c.depth >= 1 && WellStacked(c.parentContext)
  }

  /** Merging never produces a depth below one, and the depth never exceeds the parent's by more than one. */
  lemma MergedDepthBounds(parentCtx: BindingContext, element: Element)
    requires WellStacked(parentCtx)
    ensures MergedDepth(parentCtx, element) >= 1
    ensures parentCtx.StackedContext? ==> parentCtx.depth <= MergedDepth(parentCtx, element) <= parentCtx.depth + 1
  {
  }

  /** A key of `get`: a PSI element, a call, a descriptor with (maybe) a source element, or anything else. */
  datatype Key = PsiKey(psi: Element) | CallKey(callElement: Element) | DescriptorKey(sourcePsi: Option<Element>) | OtherKey(id: nat)

  /** The element a key is routed by. */
  function KeyElement(key: Key): Option<Element>
  {
    match key
    case PsiKey(e) => Some(e)
    case CallKey(e) => Some(e)
    case DescriptorKey(source) => source
    case OtherKey(_) => None
  }

  /** `ctx(ktElement)`: the element context for the element's children, the parent context for anything else. */
  function Ctx(c: BindingContext, e: Option<Element>): (r: Option<BindingContext>)
    requires c.StackedContext?
    ensures r.None? <==> e.None?
    ensures e.Some? ==> r.value == (if e.value in c.children then c.elementContext else c.parentContext)
  {
    match e
    case None => None
    case Some(x) => Some(if x in c.children then c.elementContext else c.parentContext)
  }

  /**
   * `get(slice, key)` for a fixed slice: a plain context answers through `plainGet`; a stacked one
   * routes by the key's element, or asks its delegates in order when the key has none.
   */
  function Get(c: BindingContext, key: Key, plainGet: (nat, Key) -> Option<nat>): Option<nat>
  {
    match c
    case PlainContext(id, _) => plainGet(id, key)
    case StackedContext(_, _, children, elementContext, parentContext, _, _) =>
      match KeyElement(key)
      case Some(e) => if e in children then Get(elementContext, key, plainGet) else Get(parentContext, key, plainGet)
      case None =>
        var first := Get(elementContext, key, plainGet);
        if first.Some? then first else Get(parentContext, key, plainGet)
  }

  /** Reads about the element's children go to the element context, others to the parent context; `!!` never throws. */
  lemma GetRouting(c: BindingContext, key: Key, plainGet: (nat, Key) -> Option<nat>)
    requires c.StackedContext?
    ensures KeyElement(key).Some? ==> (Ctx(c, KeyElement(key)).Some?
      && Get(c, key, plainGet) == Get(Ctx(c, KeyElement(key)).value, key, plainGet))
    ensures KeyElement(key).None? ==> (Get(c, key, plainGet) ==
      if Get(c.elementContext, key, plainGet).Some? then Get(c.elementContext, key, plainGet) else Get(c.parentContext, key, plainGet))
  {
  }

  /** The first non-null answer wins: the parent context is consulted only when the element context has none. */
  lemma {:induction false} GetWithoutElementPrefersElementContext(c: BindingContext, key: Key, plainGet: (nat, Key) -> Option<nat>)
    requires c.StackedContext? && KeyElement(key).None?
    ensures Get(c.elementContext, key, plainGet).Some? ==> Get(c, key, plainGet) == Get(c.elementContext, key, plainGet)
    ensures Get(c, key, plainGet).None? <==> Get(c.elementContext, key, plainGet).None? && Get(c.parentContext, key, plainGet).None?
  {
    assert KeyElement(key) == None;
  }

  /** What `lookUp`'s loop knows after looking at the first `i` elements of the chain. */
  predicate ScanState(cache: map<Element, AnalysisResult>, chain: seq<Element>, i: nat, result: Option<AnalysisResult>,
                      toRemove: set<Element>, descendants: seq<Element>)
    requires i <= |chain|
  {
    && result == (match LastCached(cache, chain[..i]) case None => None case Some(t) => Some(cache[chain[t]]))
    && toRemove == Pruned(cache, chain, i)
    && RunStart(cache, chain, i) <= i
    && descendants == chain[RunStart(cache, chain, i)..i]
  }

  /** One iteration of `lookUp`'s loop keeps `ScanState`. */
  lemma ScanStep(cache: map<Element, AnalysisResult>, chain: seq<Element>, i: nat, result: Option<AnalysisResult>,
                 toRemove: set<Element>, descendants: seq<Element>,
                 result': Option<AnalysisResult>, toRemove': set<Element>, descendants': seq<Element>)
    requires i < |chain| && ScanState(cache, chain, i, result, toRemove, descendants)
    requires result' == if chain[i] in cache then Some(cache[chain[i]]) else result
    requires toRemove' == if chain[i] in cache then toRemove + Elements(descendants) else toRemove
    requires descendants' == (if chain[i] in cache then [] else descendants) + [chain[i]]
    ensures ScanState(cache, chain, i + 1, result', toRemove', descendants')
  {
    LastCachedStep(cache, chain, i);
    if chain[i] in cache {
      RunJoins(chain, RunStart(cache, chain, i), i);
      assert chain[i..i + 1] == [chain[i]];
    } else {
      assert chain[RunStart(cache, chain, i)..i + 1] == chain[RunStart(cache, chain, i)..i] + [chain[i]];
    }
  }

  /** Once the whole scanned prefix has been looked at, the loop holds `lookUp`'s answer and removals. */
  lemma ScanComplete(cache: map<Element, AnalysisResult>, chain: seq<Element>, result: Option<AnalysisResult>,
                     toRemove: set<Element>, descendants: seq<Element>)
    requires ScanState(cache, chain, ScannedLength(chain), result, toRemove, descendants)
    ensures result == LookUpResult(cache, chain) && toRemove == Pruned(cache, chain, ScannedLength(chain))
  {
    var n := ScannedLength(chain);
    match LastCached(cache, chain[..n])
    case None =>
    case Some(t) =>
      assert chain[..n][t] == chain[t];
  }

  /**
   * `lookUp`'s loop over `parentsWithSelf`: up to and including the first element that stops the
   * walk, it remembers the value of each cached element met and queues the elements below it.
   */
  method ScanChain(cache: map<Element, AnalysisResult>, chain: seq<Element>) returns (result: Option<AnalysisResult>, toRemove: set<Element>)
    ensures result == LookUpResult(cache, chain)
    ensures toRemove == Pruned(cache, chain, ScannedLength(chain))
  {
    var descendantsOfCurrent: seq<Element> := [];
    ghost var run: seq<Element> := [];
    toRemove := {};
    result := None;
    var i := 0;
    var stopped := false;
    while i < |chain| && !stopped
      invariant 0 <= i <= ScannedLength(chain)
      invariant stopped ==> i == ScannedLength(chain)
      invariant !stopped ==> forall j :: 0 <= j < i ==> !StopsScan(chain[j])
      invariant !stopped ==> descendantsOfCurrent == run
      invariant ScanState(cache, chain, i, result, toRemove, run)
    {
      var current := chain[i];
      ghost var result0, toRemove0, run0 := result, toRemove, run;
      if current in cache {
        result := Some(cache[current]);
        toRemove := toRemove + Elements(descendantsOfCurrent);
        descendantsOfCurrent := [];
      }
      run := descendantsOfCurrent + [current];
      ScanStep(cache, chain, i, result0, toRemove0, run0, result, toRemove, run);
      ScannedLengthStep(chain, i);
      if StopsScan(current) {
        stopped := true;
      } else {
        descendantsOfCurrent := descendantsOfCurrent + [current];
      }
      i := i + 1;
    }
    ScanComplete(cache, chain, result, toRemove, run);
  }

  class PerFileCache {
    var cache: map<Element, AnalysisResult>

    constructor()
      ensures cache == map[]
    {
      cache := map[];
    }

    /**
     * `lookUp(analyzableElement)`, with `chain` its `parentsWithSelf`: the value of the topmost cached
     * element scanned, after removing every scanned element below it from the cache.
     */
    method LookUp(chain: seq<Element>) returns (result: Option<AnalysisResult>)
      modifies this
      ensures result == LookUpResult(old(cache), chain)
      ensures cache == old(cache) - Pruned(old(cache), chain, ScannedLength(chain))
    {
      var toRemove;
      result, toRemove := ScanChain(cache, chain);
      cache := cache - toRemove;
    }

    /**
     * The part of `mergeContexts` that is not analysis: the stacked context built over `parentCtx`
     * for a re-analysed `element` (`thisCtx`, whose diagnostics it adds, and the element's `children`).
     * A stacked parent for some other element has its element dropped from the cache.
     */
    method MergeContexts(thisCtx: BindingContext, parentCtx: BindingContext, element: Element,
                         children: set<Element>) returns (r: BindingContext)
      modifies this
      ensures cache == if parentCtx.StackedContext? && parentCtx.element != element then old(cache) - {parentCtx.element} else old(cache)
      ensures r.StackedContext? && r.depth == MergedDepth(parentCtx, element)
      ensures r.element == element && r.children == children && r.elementContext == thisCtx
      ensures parentCtx.StackedContext? && parentCtx.element == element ==>
        r.parentContext == parentCtx.parentContext && r.parentDiagnostics == parentCtx.parentDiagnostics
      ensures !(parentCtx.StackedContext? && parentCtx.element == element) ==>
        r.parentContext == parentCtx && r.parentDiagnostics == OutsideDiagnostics(AllDiagnostics(parentCtx), element)
      ensures r.diagnostics == r.parentDiagnostics + AllDiagnostics(thisCtx)
    {
      var sameElement := parentCtx.StackedContext? && parentCtx.element == element;
      if parentCtx.StackedContext? && parentCtx.element != element {
        cache := cache - {parentCtx.element};
      }
      var parentDiagnostics: seq<Diagnostic>;
      if sameElement {
        parentDiagnostics := parentCtx.parentDiagnostics;
      } else {
        parentDiagnostics := FilterOutside(AllDiagnostics(parentCtx), element);
      }
      var depth := if parentCtx.StackedContext? then (if parentCtx.element == element then parentCtx.depth else parentCtx.depth + 1) else 1;
      var ctx := if sameElement then parentCtx.parentContext else parentCtx;
      var thisDiagnostics := AllDiagnostics(thisCtx);
      r := StackedContext(depth, element, children, thisCtx, ctx, parentDiagnostics, parentDiagnostics + thisDiagnostics);
    }
  }

  /** `LookUpResult` and `Pruned` pin the topmost cached element down by its two defining facts. */
  lemma LastCachedIs(cache: map<Element, AnalysisResult>, s: seq<Element>, t: nat)
    requires t < |s| && s[t] in cache && forall j :: t < j < |s| ==> s[j] !in cache
    ensures LastCached(cache, s) == Some(t)
  {
  }

  /**
   * Along a parent chain without repeats, a second `lookUp` right after the first returns the same
   * value and removes nothing more: the topmost cached element itself is never pruned.
   */
  lemma LookUpIsIdempotent(cache: map<Element, AnalysisResult>, chain: seq<Element>)
    requires forall i, j :: 0 <= i < j < |chain| ==> chain[i] != chain[j]
    ensures var after := cache - Pruned(cache, chain, ScannedLength(chain));
      (LookUpResult(after, chain) == LookUpResult(cache, chain)
        && after - Pruned(after, chain, ScannedLength(chain)) == after)
  {
    var n := ScannedLength(chain);
    var scanned := chain[..n];
    var removed := Pruned(cache, chain, n);
    var after := cache - removed;
    match LastCached(cache, scanned)
    case None =>
      assert LastCached(after, scanned).None?;
    case Some(t) =>
      PruningKeepsTopmost(cache, chain, t);
      SamePrunedAgain(cache, after, chain, t);
      MinusDisjoint(after, removed);
  }

  /** When pruning keeps the topmost cached element, looking up again finds it and prunes the same elements. */
  lemma SamePrunedAgain(cache: map<Element, AnalysisResult>, after: map<Element, AnalysisResult>, chain: seq<Element>, t: nat)
    requires t < ScannedLength(chain) && LastCached(cache, chain[..ScannedLength(chain)]) == Some(t)
    requires LastCached(after, chain[..ScannedLength(chain)]) == Some(t)
    requires chain[t] in after && after[chain[t]] == cache[chain[t]]
    ensures LookUpResult(after, chain) == LookUpResult(cache, chain)
    ensures Pruned(after, chain, ScannedLength(chain)) == Pruned(cache, chain, ScannedLength(chain))
  {
    assert chain[..ScannedLength(chain)][t] == chain[t];
  }

  /** Removing keys a map does not have leaves it as it is. */
  lemma MinusDisjoint(m: map<Element, AnalysisResult>, removed: set<Element>)
    requires forall x :: x in removed ==> x !in m
    ensures m - removed == m
  {
    assert (m - removed).Keys == m.Keys;
  }

  /** The elements pruned below the topmost cached one do not include it, so it is still the topmost after pruning. */
  lemma PruningKeepsTopmost(cache: map<Element, AnalysisResult>, chain: seq<Element>, t: nat)
    requires forall i, j :: 0 <= i < j < |chain| ==> chain[i] != chain[j]
    requires LastCached(cache, chain[..ScannedLength(chain)]) == Some(t)
    ensures var after := cache - Pruned(cache, chain, ScannedLength(chain));
      t < ScannedLength(chain) && LastCached(after, chain[..ScannedLength(chain)]) == Some(t)
      && chain[t] in after && after[chain[t]] == cache[chain[t]]
  {
    var n := ScannedLength(chain);
    var scanned := chain[..n];
    var removed := Pruned(cache, chain, n);
    var after := cache - removed;
    assert removed == Elements(chain[..t]);
    assert chain[t] !in removed by {
      forall k | 0 <= k < t ensures chain[..t][k] != chain[t] {
        assert chain[..t][k] == chain[k];
      }
    }
    assert scanned[t] == chain[t] && scanned[t] in after;
    LastCachedIs(after, scanned, t);
  }

  /** A cached entry that the scan did not reach stays in the cache. */
  lemma LookUpKeepsOthers(cache: map<Element, AnalysisResult>, chain: seq<Element>, x: Element)
    requires x in cache && x !in chain[..ScannedLength(chain)]
    ensures x in cache - Pruned(cache, chain, ScannedLength(chain))
  {
    var n := ScannedLength(chain);
    match LastCached(cache, chain[..n])
    case None =>
    case Some(t) =>
      assert chain[..n][..t] == chain[..t];
  }

  /** With nothing cached among the scanned elements, `lookUp` misses and removes nothing. */
  lemma LookUpMissRemovesNothing(cache: map<Element, AnalysisResult>, chain: seq<Element>)
    requires forall j :: 0 <= j < ScannedLength(chain) ==> chain[j] !in cache
    ensures LookUpResult(cache, chain) == None
    ensures cache - Pruned(cache, chain, ScannedLength(chain)) == cache
  {
    var n := ScannedLength(chain);
    assert forall j :: 0 <= j < n ==> chain[..n][j] == chain[j];
  }
}
