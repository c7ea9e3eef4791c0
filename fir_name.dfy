/**
 * `FirName`: a name that is either an identifier or a special name such as `<init>`; special
 * names always start with '<'.
 */
module FirName {
  import opened Wrappers
  import Ints
  import StringOrder

  /** The private constructor's two fields. */
  datatype Name = Name(name: string, isSpecial: bool)

  predicate StartsWithAngle(s: string) { |s| > 0 && s[0] == '<' }

  /** Every name the factories can build: a special name starts with '<'. */
  predicate WellFormed(n: Name) { n.isSpecial ==> StartsWithAngle(n.name) }

  /** `identifier(name)`: never special, whatever the text. */
  function Identifier(name: string): (r: Name)
    ensures !r.isSpecial && r.name == name && WellFormed(r)
  {
    Name(name, false)
  }

  /** `special(name)`: rejected unless the name starts with '<'. */
  function Special(name: string): (r: Result<Name>)
    ensures r.Ok? <==> StartsWithAngle(name)
    ensures r.Ok? ==> r.value.isSpecial && r.value.name == name && WellFormed(r.value)
  {
    if !StartsWithAngle(name) then Err("special name must start with '<': " + name)
    else Ok(Name(name, true))
  }

  /** `guessByFirstCharacter(name)`: special exactly when the name starts with '<'. */
  function GuessByFirstCharacter(name: string): (r: Name)
    ensures r.name == name && (r.isSpecial <==> StartsWithAngle(name)) && WellFormed(r)
  {
    if StartsWithAngle(name) then Special(name).value else Identifier(name)
  }

  /** The `identifier` getter: the text of an identifier; special names throw. */
  function GetIdentifier(n: Name): (r: Result<string>)
    ensures r.Err? <==> n.isSpecial
    ensures r.Ok? ==> r.value == n.name
  {
    if n.isSpecial then Err("not identifier: " + n.name) else Ok(n.name)
  }

  predicate IsForbiddenChar(c: char) { c == '.' || c == '/' || c == '\\' }

  /** What `isValidIdentifier` accepts. */
  predicate ValidIdentifier(name: string)
  {
    name != [] && !StartsWithAngle(name) && forall i :: 0 <= i < |name| ==> !IsForbiddenChar(name[i])
  }

  /** `isValidIdentifier`: the early returns of the source, then a scan of every character. */
  method IsValidIdentifier(name: string) returns (r: bool)
    ensures r <==> ValidIdentifier(name)
  {
    if |name| == 0 || name[0] == '<' {
      return false;
    }
    var i := 0;
    while i < |name|
      invariant 0 <= i <= |name|
      invariant forall j :: 0 <= j < i ==> !IsForbiddenChar(name[j])
    {
      if name[i] == '.' || name[i] == '/' || name[i] == '\\' {
        return false;
      }
      i := i + 1;
    }
    return true;
  }

  /** `String.hashCode()` on the JVM: `31 * h + c` over the characters, in 32-bit arithmetic. */
  function StringHash(s: string): (r: int)
    ensures Ints.IsInt(r)
  {
    if s == [] then 0 else Ints.WrapInt(31 * StringHash(s[..|s| - 1]) + s[|s| - 1] as int)
  }

  /** `hashCode()`: the string's hash times 31, plus one for a special name. */
  function HashCode(n: Name): (r: int)
    ensures Ints.IsInt(r)
  {
    Ints.WrapInt(31 * StringHash(n.name) + if n.isSpecial then 1 else 0)
  }

  /** `equals` compares the flag and the text, i.e. the two fields. */
  predicate NameEquals(a: Name, b: Name)
  {
    a.isSpecial == b.isSpecial && a.name == b.name
  }

  lemma EqualNamesHashEqually(a: Name, b: Name)
    requires NameEquals(a, b)
    ensures HashCode(a) == HashCode(b)
  {
  }

  /** The same text as identifier and as special name hashes differently. */
  lemma SpecialFlagChangesHash(s: string)
    ensures HashCode(Name(s, true)) != HashCode(Name(s, false))
  {
    var h := 31 * StringHash(s);
    assert (Ints.WrapInt(h + 1) - Ints.WrapInt(h)) % Ints.TWO_32 == 1 by {
      ModDifference(h, Ints.WrapInt(h + 1), Ints.WrapInt(h));
    }
  }

  lemma ModDifference(h: int, a: int, b: int)
    requires (a - (h + 1)) % Ints.TWO_32 == 0 && (b - h) % Ints.TWO_32 == 0
    ensures (a - b) % Ints.TWO_32 == 1
  {
    var p := (a - (h + 1)) / Ints.TWO_32;
    var q := (b - h) / Ints.TWO_32;
    assert a - b == (p - q) * Ints.TWO_32 + 1;
  }

  /** `compareTo` looks at the text only. */
  function CompareTo(a: Name, b: Name): (r: int)
    ensures r == 0 <==> a.name == b.name
  {
    StringOrder.CompareStrings(a.name, b.name)
  }

  /** The ordering is antisymmetric. */
  lemma CompareToAntisymmetric(a: Name, b: Name)
    ensures CompareTo(a, b) == -CompareTo(b, a)
  {
    StringOrder.CompareStringsAntisymmetric(a.name, b.name);
  }

  /** The ordering does not agree with `equals`: an identifier and a special name may tie. */
  lemma CompareToIgnoresSpecialFlag()
    ensures CompareTo(Identifier("<init>"), Special("<init>").value) == 0
    ensures !NameEquals(Identifier("<init>"), Special("<init>").value)
  {
  }

  /** `commonNames`. */
  const COMMON_NAMES: seq<string> := [
    "component1", "component2", "component3", "component4", "component5", "copy", "hasNext", "it",
    "iterator", "next", "plus", "reflect", "value", "test", "KClass", "Nothing", "Unit", "Any",
    "Enum", "Annotation", "Array", "Byte", "Short", "Int", "Long", "Float", "Double", "Char",
    "Boolean", "ByteArray", "ShortArray", "IntArray", "LongArray", "FloatArray", "DoubleArray",
    "CharArray", "BooleanArray", "KotlinNullPointerException", "<anonymous-init>",
    "<anonymous Java parameter>", "<array-set>", "<default-setter-parameter>", "<destruct>",
    "<error>", "<init>", "<local>", "<range>", "<unary>", "<unary-result>"]

  /** The `apply` block filling `commonNameCache`: each name guessed by its first character. */
  function BuildCache(names: seq<string>): (r: map<string, Name>)
    ensures r.Keys == set n | n in names
    ensures forall n :: n in r ==> r[n] == GuessByFirstCharacter(n)
  {
    if names == [] then map[]
    else BuildCache(names[..|names| - 1])[names[|names| - 1] := GuessByFirstCharacter(names[|names| - 1])]
  }

  /** `cached(name)`: the cache entry, else a fresh guess. */
  function Cached(name: string): Name
  {
    var cache := BuildCache(COMMON_NAMES);
    if name in cache then cache[name] else GuessByFirstCharacter(name)
  }

  /** The cache is transparent: `cached(n)` equals `guessByFirstCharacter(n)`. */
  lemma CachedIsGuess(name: string)
    ensures Cached(name) == GuessByFirstCharacter(name)
  {
  }
}
