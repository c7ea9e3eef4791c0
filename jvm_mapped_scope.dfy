/**
 * `JvmMappedScope`: the member scope of a Kotlin built-in class that maps to a JDK class. Java
 * members are let through by a signature white list (and Java constructors by a black list),
 * followed by the class's own declared members.
 */
module JvmMappedScope {
  import opened Wrappers
  import Text

  /** A member symbol and its computed JVM descriptor. */
  datatype Symbol = Symbol(id: nat, jvmDescriptor: string)

  /** `Signatures`: white-listed method signatures by name, and black-listed constructor signatures. */
  datatype Signatures = Signatures(whiteListSignaturesByName: map<string, set<string>>, constructorBlackList: set<string>)

  predicate IsEmpty(s: Signatures)
  {
    |s.whiteListSignaturesByName| == 0 && |s.constructorBlackList| == 0
  }

  predicate IsNotEmpty(s: Signatures) { !IsEmpty(s) }

  lemma IsEmptyIffBothEmpty(s: Signatures)
    ensures IsEmpty(s) <==> s.whiteListSignaturesByName == map[] && s.constructorBlackList == {}
    ensures IsNotEmpty(s) != IsEmpty(s)
  {
    if |s.whiteListSignaturesByName| == 0 {
      assert s.whiteListSignaturesByName.Keys == {};
    }
  }

  /** `String.replace(target, replacement)`: every occurrence of `target`, scanning left to right, replaced. */
  function ReplaceAll(s: string, target: string, replacement: string): (r: string)
    requires target != []
    decreases |s|
  {
    if |s| < |target| then s
    else if target <= s then replacement + ReplaceAll(s[|target|..], target, replacement)
    else [s[0]] + ReplaceAll(s[1..], target, replacement)
  }

  predicate OccursAt(s: string, t: string, i: nat)
  {
    i + |t| <= |s| && s[i..i + |t|] == t
  }

  predicate Occurs(s: string, t: string)
  {
    exists i: nat :: i <= |s| && OccursAt(s, t, i)
  }

  /** A string in which `target` does not occur is left unchanged. */
  lemma {:induction false} ReplaceAllWithoutOccurrence(s: string, target: string, replacement: string)
    requires target != [] && !Occurs(s, target)
    ensures ReplaceAll(s, target, replacement) == s
    decreases |s|
  {
    if |s| >= |target| {
      assert !OccursAt(s, target, 0);
      assert s[0..|target|] == s[..|target|];
      assert !(target <= s);
      assert !Occurs(s[1..], target) by {
        forall i: nat | OccursAt(s[1..], target, i)
          ensures false
        {
          assert s[1..][i..i + |target|] == s[i + 1..i + 1 + |target|];
          assert OccursAt(s, target, i + 1);
        }
      }
      ReplaceAllWithoutOccurrence(s[1..], target, replacement);
      assert [s[0]] + s[1..] == s;
    }
  }

  /** The first occurrence of `target` is replaced by `replacement`, and the scan goes on after it. */
  lemma {:induction false} ReplaceAllFirstOccurrence(p: string, target: string, q: string, replacement: string)
    requires target != [] && forall i: nat :: i < |p| ==> !OccursAt(p + target + q, target, i)
    ensures ReplaceAll(p + target + q, target, replacement) == p + replacement + ReplaceAll(q, target, replacement)
    decreases |p|
  {
    var s := p + target + q;
    if p == [] {
      assert s == target + q;
      assert s[|target|..] == q;
    } else {
      assert !OccursAt(s, target, 0);
      assert s[0..|target|] == s[..|target|];
      assert s[1..] == p[1..] + target + q;
      forall i: nat | i < |p[1..]|
        ensures !OccursAt(p[1..] + target + q, target, i)
      {
        assert !OccursAt(s, target, i + 1);
        assert s[1..][i..i + |target|] == s[i + 1..i + 1 + |target|];
      }
      ReplaceAllFirstOccurrence(p[1..], target, q, replacement);
      assert [s[0]] + (p[1..] + replacement + ReplaceAll(q, target, replacement)) == p + replacement + ReplaceAll(q, target, replacement);
    }
  }

  /** The descriptor with `kotlin/Any` and `kotlin/String` written as their Java classes. */
  function NormalizedSignature(d: string): string
  {
    ReplaceAll(ReplaceAll(d, "kotlin/Any", "java/lang/Object"), "kotlin/String", "java/lang/String")
  }

  lemma NormalizedSignatureOfJavaDescriptor(d: string)
    requires !Occurs(d, "kotlin/Any") && !Occurs(d, "kotlin/String")
    ensures NormalizedSignature(d) == d
  {
    ReplaceAllWithoutOccurrence(d, "kotlin/Any", "java/lang/Object");
    ReplaceAllWithoutOccurrence(d, "kotlin/String", "java/lang/String");
  }

  /** A string without the first character of `target` holds no occurrence of it. */
  lemma NoOccurrenceWithoutFirstChar(s: string, target: string)
    requires target != [] && target[0] !in s
    ensures !Occurs(s, target)
  {
  }

  /**
   * A descriptor holding `kotlin/Any` once, and no other 'k', has it written as `java/lang/Object`:
   * `(Lkotlin/Any;)Z` is matched as `(Ljava/lang/Object;)Z`.
   */
  lemma {:induction false} NormalizedSignatureOfAnyType(p: string, q: string)
    requires 'k' !in p && 'k' !in q
    ensures NormalizedSignature(p + "kotlin/Any" + q) == p + "java/lang/Object" + q
  {
    var s := p + "kotlin/Any" + q;
    forall i: nat | i < |p|
      ensures !OccursAt(s, "kotlin/Any", i)
    {
      assert s[i] == p[i];
    }
    ReplaceAllFirstOccurrence(p, "kotlin/Any", q, "java/lang/Object");
    NoOccurrenceWithoutFirstChar(q, "kotlin/Any");
    ReplaceAllWithoutOccurrence(q, "kotlin/Any", "java/lang/Object");
    var t := p + "java/lang/Object" + q;
    assert 'k' !in "java/lang/Object";
    NoOccurrenceWithoutFirstChar(t, "kotlin/String");
    ReplaceAllWithoutOccurrence(t, "kotlin/String", "java/lang/String");
  }

  /** Kotlin's `filter`. */
  function Filter(s: seq<Symbol>, p: Symbol -> bool): (r: seq<Symbol>)
    ensures |r| <= |s|
    ensures forall x :: x in r <==> x in s && p(x)
  {
    if s == [] then [] else (if p(s[0]) then [s[0]] else []) + Filter(s[1..], p)
  }

  /**
   * `processFunctionsByName`: the symbols handed to the processor, in order. `declared` and `java`
   * are what the declared member scope and the mapped Java class's scope hold under `name`.
   */
  function ProcessFunctionsByName(signatures: Signatures, name: string, declared: seq<Symbol>, java: seq<Symbol>): (r: seq<Symbol>)
    ensures name !in signatures.whiteListSignaturesByName ==> r == declared
    ensures name in signatures.whiteListSignaturesByName ==> (|r| >= |declared| && r[|r| - |declared|..] == declared
      && forall x :: x in r[..|r| - |declared|] <==>
        x in java && NormalizedSignature(x.jvmDescriptor) in signatures.whiteListSignaturesByName[name])
  {
    if name !in signatures.whiteListSignaturesByName then declared
    else
      var whiteList := signatures.whiteListSignaturesByName[name];
      var fromJava := Filter(java, (x: Symbol) => NormalizedSignature(x.jvmDescriptor) in whiteList);
      assert (fromJava + declared)[..|fromJava|] == fromJava;
      fromJava + declared
  }

  /** `processDeclaredConstructors`: Java constructors only when the black list is non-empty, minus black-listed ones; then the declared ones. */
  function ProcessDeclaredConstructors(signatures: Signatures, declared: seq<Symbol>, java: seq<Symbol>): (r: seq<Symbol>)
    ensures |r| >= |declared| && r[|r| - |declared|..] == declared
    ensures signatures.constructorBlackList == {} ==> r == declared
    ensures forall x :: x in r[..|r| - |declared|] <==>
      signatures.constructorBlackList != {} && x in java && NormalizedSignature(x.jvmDescriptor) !in signatures.constructorBlackList
  {
    var blackList := signatures.constructorBlackList;
    var fromJava := if |blackList| != 0 then Filter(java, (x: Symbol) => NormalizedSignature(x.jvmDescriptor) !in blackList) else [];
    assert (fromJava + declared)[..|fromJava|] == fromJava;
    fromJava + declared
  }

  /** `processPropertiesByName` and `processClassifiersByNameWithSubstitution` go to the declared scope only. */
  function ProcessPropertiesByName(declared: seq<Symbol>): (r: seq<Symbol>)
    ensures r == declared
  {
    declared
  }

  /** The `filter { startsWith(prefix) }.map { substring(prefix.length + 1) }` stage; the substring throws on the prefix itself. */
  function StripPrefix(prefix: string, signatures: seq<string>): (r: Result<seq<string>>)
    ensures r.Err? <==> prefix in signatures
    ensures r.Ok? ==> forall x :: x in r.value <==> exists s :: s in signatures && prefix <= s && |s| > |prefix| && s[|prefix| + 1..] == x
  {
    if signatures == [] then Ok([])
    else
      var s := signatures[0];
      var rest := StripPrefix(prefix, signatures[1..]);
      if prefix <= s && |s| == |prefix| then
        assert s == prefix;
        Err("StringIndexOutOfBoundsException")
      else if rest.Err? then Err(rest.error)
      else if prefix <= s then Ok([s[|prefix| + 1..]] + rest.value)
      else Ok(rest.value)
  }

  /** The signatures grouped under the text before their '(' (the effect of the `getOrPut(...).add(it)` loop). */
  function GroupByName(rests: seq<string>): map<string, set<string>>
  {
    if rests == [] then map[]
    else
      var m := GroupByName(rests[..|rests| - 1]);
      var key := Text.SubstringBefore(rests[|rests| - 1], '(');
      m[key := (if key in m then m[key] else {}) + {rests[|rests| - 1]}]
  }

  /** The grouping's keys are exactly the names occurring, and each key holds exactly the signatures of that name. */
  lemma {:induction false} GroupByNameMembership(rests: seq<string>)
    ensures forall k :: k in GroupByName(rests) <==> exists x :: x in rests && Text.SubstringBefore(x, '(') == k
    ensures forall k, x :: k in GroupByName(rests) ==> (x in GroupByName(rests)[k] <==> x in rests && Text.SubstringBefore(x, '(') == k)
  {
    if rests != [] {
      var init := rests[..|rests| - 1];
      var last := rests[|rests| - 1];
      GroupByNameMembership(init);
      assert forall x :: x in rests <==> x in init || x == last;
    }
  }

  /** One more signature regroups as one more `getOrPut(...).add(it)`. */
  lemma GroupByNameStep(rests: seq<string>, i: nat)
    requires i < |rests|
    ensures var m := GroupByName(rests[..i]); var key := Text.SubstringBefore(rests[i], '(');
      GroupByName(rests[..i + 1]) == m[key := (if key in m then m[key] else {}) + {rests[i]}]
  {
    assert rests[..i + 1][..i] == rests[..i];
  }

  /** The `forEach { getOrPut(name) { mutableSetOf() }.add(it) }` loop. */
  method GroupSignatures(rests: seq<string>) returns (m: map<string, set<string>>)
    ensures m == GroupByName(rests)
  {
    m := map[];
    var i := 0;
    while i < |rests|
      invariant 0 <= i <= |rests|
      invariant m == GroupByName(rests[..i])
    {
      var key := Text.SubstringBefore(rests[i], '(');
      var signatures := if key in m then m[key] else {};
      GroupByNameStep(rests, i);
      m := m[key := signatures + {rests[i]}];
      i := i + 1;
    }
    assert rests[..i] == rests;
  }

  /** `prepareSignatures(klass)`, with the class id's string as `signaturePrefix` and the two JDK lists as inputs. */
  method PrepareSignatures(signaturePrefix: string, whiteList: seq<string>, blackList: seq<string>) returns (r: Result<Signatures>)
    ensures r.Err? <==> signaturePrefix in whiteList || signaturePrefix in blackList
    ensures r.Ok? ==> r.value.whiteListSignaturesByName == GroupByName(StripPrefix(signaturePrefix, whiteList).value)
    ensures r.Ok? ==> forall x :: x in r.value.constructorBlackList <==>
      exists s :: s in blackList && signaturePrefix <= s && |s| > |signaturePrefix| && s[|signaturePrefix| + 1..] == x
  {
    var stripped := StripPrefix(signaturePrefix, whiteList);
    if stripped.Err? {
      return Err(stripped.error);
    }
    var whiteListSignaturesByName := GroupSignatures(stripped.value);
    var black := StripPrefix(signaturePrefix, blackList);
    if black.Err? {
      return Err(black.error);
    }
    var constructorBlackList := set x | x in black.value;
    return Ok(Signatures(whiteListSignaturesByName, constructorBlackList));
  }
}
