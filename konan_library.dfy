/**
 * The two manifest properties of a Kotlin/Native library read by the IDE: `interop`, and the
 * space-separated `exportForwardDeclarations` list. The manifest is a map from property names to
 * values; `getProperty` of a missing name is null.
 */
module KonanLibrary {
  import opened Wrappers
  import Text

  const KONAN_KLIB_PROPERTY_INTEROP := "interop"
  const KONAN_KLIB_PROPERTY_EXPORT_FORWARD_DECLARATIONS := "exportForwardDeclarations"

  type Manifest = map<string, string>

  /** `isInterop`: a missing property compares unequal to "true". */
  function IsInterop(manifest: Manifest): (r: bool)
    ensures r <==> KONAN_KLIB_PROPERTY_INTEROP in manifest && manifest[KONAN_KLIB_PROPERTY_INTEROP] == "true"
  {
    if KONAN_KLIB_PROPERTY_INTEROP in manifest then manifest[KONAN_KLIB_PROPERTY_INTEROP] == "true" else false
  }

  /** The `map { trim() }.filter { isNotEmpty() }` stage. */
  function Clean(pieces: seq<string>): seq<string>
  {
    if pieces == [] then []
    else (if Text.Trim(pieces[0]) == "" then [] else [Text.Trim(pieces[0])]) + Clean(pieces[1..])
  }

  /** The tokens are exactly the non-empty trimmed pieces. */
  lemma {:induction false} CleanMembership(pieces: seq<string>)
    ensures forall t :: t in Clean(pieces) <==> t != "" && exists p :: p in pieces && Text.Trim(p) == t
  {
    if pieces != [] {
      CleanMembership(pieces[1..]);
      assert forall p :: p in pieces <==> p == pieces[0] || p in pieces[1..];
    }
  }

  /** The tokens of a property value. */
  function Tokens(value: string): seq<string>
  {
    Clean(Text.Split(value, ' '))
  }

  /** `exportForwardDeclarations`: `split` on the missing property throws. */
  function ExportForwardDeclarations(manifest: Manifest): (r: Result<seq<string>>)
    ensures r.Err? <==> KONAN_KLIB_PROPERTY_EXPORT_FORWARD_DECLARATIONS !in manifest
    ensures r.Ok? ==> r.value == Tokens(manifest[KONAN_KLIB_PROPERTY_EXPORT_FORWARD_DECLARATIONS])
    ensures r.Ok? ==> forall t :: t in r.value ==> t != "" && ' ' !in t && !Text.IsWhitespace(t[0]) && !Text.IsWhitespace(t[|t| - 1])
  {
    if KONAN_KLIB_PROPERTY_EXPORT_FORWARD_DECLARATIONS !in manifest then Err("NullPointerException")
    else
      TokensHaveNoSpace(manifest[KONAN_KLIB_PROPERTY_EXPORT_FORWARD_DECLARATIONS]);
      Ok(Tokens(manifest[KONAN_KLIB_PROPERTY_EXPORT_FORWARD_DECLARATIONS]))
  }

  lemma TokensHaveNoSpace(value: string)
    ensures forall t :: t in Tokens(value) ==> ' ' !in t && t != "" && !Text.IsWhitespace(t[0]) && !Text.IsWhitespace(t[|t| - 1])
  {
    CleanMembership(Text.Split(value, ' '));
    forall t | t in Tokens(value)
      ensures ' ' !in t && t != "" && !Text.IsWhitespace(t[0]) && !Text.IsWhitespace(t[|t| - 1])
    {
      var p :| p in Text.Split(value, ' ') && Text.Trim(p) == t;
      TrimKeepsNoSpace(p);
      Text.TrimIsSlice(p);
    }
  }

  lemma TrimKeepsNoSpace(p: string)
    requires ' ' !in p
    ensures ' ' !in Text.Trim(p)
  {
    Text.TrimIsSlice(p);
    var i := |p| - |Text.TrimStart(p)|;
    var t := Text.Trim(p);
    forall k | 0 <= k < |t|
      ensures t[k] != ' '
    {
      assert t[k] == p[i + k];
      assert p[i + k] in p;
    }
  }

  /** Joining the pieces with single spaces gives the value back. */
  lemma PiecesJoinBack(s: string)
    ensures Text.Join(Text.Split(s, ' '), " ") == s
  {
    Text.SplitJoin(s, ' ');
  }

  lemma {:induction false} CleanConcat(x: seq<string>, y: seq<string>)
    ensures Clean(x + y) == Clean(x) + Clean(y)
  {
    if x != [] {
      var head := if Text.Trim(x[0]) == "" then [] else [Text.Trim(x[0])];
      assert (x + y)[0] == x[0];
      assert (x + y)[1..] == x[1..] + y;
      CleanConcat(x[1..], y);
      assert Clean(x + y) == head + Clean(x[1..] + y);
      assert Clean(x) == head + Clean(x[1..]);
    } else {
      assert x + y == y;
    }
  }

  /** Token order is kept: the tokens of `a + " " + b` are those of `a` followed by those of `b`. */
  lemma TokensConcat(a: string, b: string)
    ensures Tokens(a + " " + b) == Tokens(a) + Tokens(b)
  {
    Text.SplitConcat(a, b, ' ');
    assert a + [' '] + b == a + " " + b;
    CleanConcat(Text.Split(a, ' '), Text.Split(b, ' '));
  }

  /** A leading space produces no entry. */
  lemma LeadingSpaceGivesNoEntry(a: string)
    ensures Tokens(" " + a) == Tokens(a)
  {
    EmptyHasNoToken();
    TokensConcat("", a);
    assert "" + " " + a == " " + a;
  }

  /** A trailing space produces no entry. */
  lemma TrailingSpaceGivesNoEntry(a: string)
    ensures Tokens(a + " ") == Tokens(a)
  {
    EmptyHasNoToken();
    TokensConcat(a, "");
    assert a + " " + "" == a + " ";
  }

  /** A doubled space produces no entry. */
  lemma DoubledSpaceGivesNoEntry(a: string, b: string)
    ensures Tokens(a + "  " + b) == Tokens(a + " " + b)
  {
    TokensConcat(a + " ", b);
    assert a + " " + " " + b == a + "  " + b;
    TrailingSpaceGivesNoEntry(a);
    TokensConcat(a, b);
  }

  lemma EmptyHasNoToken()
    ensures Tokens("") == []
  {
    assert Text.Split("", ' ') == [""];
    assert Text.Trim("") == "";
  }

  /** A single word without whitespace is the one token. */
  lemma SingleWord(w: string)
    requires w != [] && forall i :: 0 <= i < |w| ==> !Text.IsWhitespace(w[i])
    ensures Tokens(w) == [w]
  {
    assert Text.IsWhitespace(' ');
    Text.SplitOfSeparatorFree(w, ' ');
    assert Text.TrimStart(w) == w;
    assert Text.TrimEnd(w) == w;
    assert Clean([w]) == [w] + Clean([]);
  }
}
