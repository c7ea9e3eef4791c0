/**
 * `FirFqName`: a fully-qualified name as an array of `FirName` segments. The segment array is
 * never written after construction; the hash code is computed on first use and cached in a
 * mutable field.
 */
module FirFqName {
  import opened Wrappers
  import Ints
  import Text
  import FirName

  /** The `foldRight(0) { segment, acc -> 31 * acc + segment.hashCode() }` of the segments. */
  function SegmentsHash(segments: seq<FirName.Name>): (r: int)
    ensures Ints.IsInt(r)
    ensures segments == [] ==> r == 0
  {
    if segments == [] then 0
    else Ints.WrapInt(31 * SegmentsHash(segments[1..]) + FirName.HashCode(segments[0]))
  }

  function SegmentStrings(segments: seq<FirName.Name>): (r: seq<string>)
    ensures |r| == |segments| && forall i :: 0 <= i < |r| ==> r[i] == segments[i].name
  {
    if segments == [] then [] else SegmentStrings(segments[..|segments| - 1]) + [segments[|segments| - 1].name]
  }

  class FqName {
    const segments: seq<FirName.Name>
    /** The cached hash code; 0 means "not computed yet". */
    var hashCode: int

    /** Either nothing is cached, or the cache holds the hash of the segments. */
    ghost predicate Valid()
      reads this
    {
      hashCode == 0 || hashCode == SegmentsHash(segments)
    }

    /** `FirFqName(segments)` and `create(vararg segments)`. */
    constructor (segments: seq<FirName.Name>)
      ensures this.segments == segments && hashCode == 0 && Valid()
    {
      this.segments := segments;
      hashCode := 0;
    }

    /** `child(name)`: the private constructor's array of size + 1, the new name last. */
    method Child(name: FirName.Name) returns (r: FqName)
      ensures fresh(r) && r.Valid() && r.hashCode == 0
      ensures r.segments == segments + [name]
    {
      var s := seq(|segments| + 1, i requires 0 <= i <= |segments| => if i < |segments| then segments[i] else name);
      r := new FqName(s);
    }

    /** `parent()`: `copyOf(size - 1)`, which throws on the root. */
    method Parent() returns (r: Result<FqName>)
      ensures r.Err? <==> segments == []
      ensures r.Ok? ==> fresh(r.value) && r.value.Valid() && r.value.segments == segments[..|segments| - 1]
    {
      if |segments| == 0 {
        return Err("NegativeArraySizeException");
      }
      var p := new FqName(segments[..|segments| - 1]);
      return Ok(p);
    }

    predicate IsRoot()
      ensures IsRoot() <==> segments == []
    {
      |segments| == 0
    }

    /** `shortName()`: the last segment; the root has none. */
    function ShortName(): (r: Result<FirName.Name>)
      ensures r.Err? <==> segments == []
      ensures r.Ok? ==> r.value == segments[|segments| - 1]
    {
      if |segments| == 0 then Err("root") else Ok(segments[|segments| - 1])
    }

    /** `equals`: same length, then the segments compared from the last one down. */
    method Equals(other: FqName) returns (r: bool)
      ensures r <==> segments == other.segments
    {
      if this == other {
        return true;
      }
      if |segments| != |other.segments| {
        return false;
      }
      var index := |segments|;
      while index > 0
        invariant 0 <= index <= |segments|
        invariant forall k :: index <= k < |segments| ==> segments[k] == other.segments[k]
      {
        index := index - 1;
        if !FirName.NameEquals(segments[index], other.segments[index]) {
          return false;
        }
      }
      return true;
    }

    /** `hashCode()`: computed when the cache is 0 and the name is not the root, then cached. */
    method HashCode() returns (r: int)
      requires Valid()
      modifies this
      ensures Valid() && r == SegmentsHash(segments)
      ensures hashCode == r && (old(hashCode) != 0 ==> hashCode == old(hashCode))
    {
      if hashCode == 0 && |segments| != 0 {
        hashCode := SegmentsHash(segments);
      }
      r := hashCode;
    }

    /** `toString()`: the segments joined with ".". */
    function ToString(): (r: string)
      ensures segments == [] ==> r == ""
      ensures |segments| == 1 ==> r == segments[0].name
    {
      Text.Join(SegmentStrings(segments), ".")
    }
  }

  /** `child(n).parent()` has the original segments and `child(n).shortName()` is `n`. */
  method ChildThenParent(q: FqName, n: FirName.Name) returns (p: FqName, short: Result<FirName.Name>)
    ensures p.segments == q.segments
    ensures short == Ok(n)
  {
    var c := q.Child(n);
    short := c.ShortName();
    var r := c.Parent();
    p := r.value;
  }

  /** `toString()` of a child is its parent's string, ".", then the short name. */
  lemma ToStringOfChild(segments: seq<FirName.Name>, n: FirName.Name)
    requires segments != []
    ensures Text.Join(SegmentStrings(segments + [n]), ".") == Text.Join(SegmentStrings(segments), ".") + "." + n.name
  {
    assert SegmentStrings(segments + [n]) == SegmentStrings(segments) + [n.name] by {
      assert (segments + [n])[..|segments + [n]| - 1] == segments;
    }
    Text.JoinSnoc(SegmentStrings(segments), n.name, ".");
  }

  /** Names with equal segments hash equally, cached or not. */
  lemma EqualSegmentsHashEqually(a: seq<FirName.Name>, b: seq<FirName.Name>)
    requires |a| == |b| && forall k :: 0 <= k < |a| ==> FirName.NameEquals(a[k], b[k])
    ensures SegmentsHash(a) == SegmentsHash(b)
  {
    assert a == b;
  }
}
