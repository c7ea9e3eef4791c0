/**
 * The decompiler's text helpers (`util/Utils.kt`): space-joined modifier lists, the rendering of a
 * call's name with its type and value arguments, property-getter calls, visibilities and type
 * parameters. Decompiled sub-expressions arrive as text; an absent one as `None`.
 */
module DecompilerUtils {
  import opened Wrappers
  import Text

  const EMPTY_TOKEN := ""

  /** The present, non-empty flags, in order. */
  function PresentFlags(flags: seq<Option<string>>): (r: seq<string>)
    ensures forall i :: 0 <= i < |r| ==> r[i] != ""
    ensures |r| <= |flags|
  {
    if flags == [] then []
    else
      var init := PresentFlags(flags[..|flags| - 1]);
      var last := flags[|flags| - 1];
      if last.Some? && last.value != "" then init + [last.value] else init
  }

  /** `concatenateNonEmptyWithSpace(vararg flags)`. */
  function ConcatenateNonEmptyWithSpace(flags: seq<Option<string>>): (r: string)
    ensures r == "" <==> PresentFlags(flags) == []
  {
    var present := PresentFlags(flags);
    if |present| > 0 then
      JoinNonEmpty(present);
      Text.Join(present, " ")
    else EMPTY_TOKEN
  }

  lemma {:induction false} JoinNonEmpty(parts: seq<string>)
    requires parts != [] && parts[0] != ""
    ensures Text.Join(parts, " ") != ""
  {
    assert Text.Join(parts, " ")[0] == parts[0][0];
  }

  /** An absent or empty flag leaves the text as it is. */
  lemma AbsentOrEmptyFlagIsSkipped(flags: seq<Option<string>>, f: Option<string>)
    requires f.None? || f == Some("")
    ensures ConcatenateNonEmptyWithSpace(flags + [f]) == ConcatenateNonEmptyWithSpace(flags)
  {
    assert (flags + [f])[..|flags|] == flags;
  }

  /** A present, non-empty flag is appended after one space, or stands alone when nothing came before. */
  lemma PresentFlagIsAppended(flags: seq<Option<string>>, x: string)
    requires x != ""
    ensures var before := ConcatenateNonEmptyWithSpace(flags);
      ConcatenateNonEmptyWithSpace(flags + [Some(x)]) == if before == "" then x else before + " " + x
  {
    assert (flags + [Some(x)])[..|flags|] == flags;
    var present := PresentFlags(flags);
    assert PresentFlags(flags + [Some(x)]) == present + [x];
    if present != [] {
      Text.JoinSnoc(present, x, " ");
    }
  }

  /** `IrVariable.obtainVariableFlags`: "const ", then "lateinit ", then exactly one of "var"/"val". */
  function ObtainVariableFlags(isConst: bool, isLateinit: bool, isVar: bool): (r: string)
    ensures r == (if isConst then "const " else "") + (if isLateinit then "lateinit " else "") + (if isVar then "var" else "val")
  {
    var c := if isConst then Some("const") else None;
    var l := if isLateinit then Some("lateinit") else None;
    ThreeFlags(c, l, if isVar then "var" else "val");
    assert Prefix(c) == (if isConst then "const " else "");
    assert Prefix(l) == (if isLateinit then "lateinit " else "");
    ConcatenateNonEmptyWithSpace([c, l, Some(if isVar then "var" else "val")])
  }

  /** `IrProperty.obtainPropertyFlags`: "external " first, then the variable flags. */
  function ObtainPropertyFlags(isExternal: bool, isConst: bool, isLateinit: bool, isVar: bool): (r: string)
    ensures r == (if isExternal then "external " else "") + ObtainVariableFlags(isConst, isLateinit, isVar)
  {
    var e := if isExternal then Some("external") else None;
    var c := if isConst then Some("const") else None;
    var l := if isLateinit then Some("lateinit") else None;
    FourFlags(e, c, l, if isVar then "var" else "val");
    assert Prefix(e) == (if isExternal then "external " else "");
    ConcatenateNonEmptyWithSpace([e, c, l, Some(if isVar then "var" else "val")])
  }

  /** A single present flag is the whole text. */
  lemma SingleFlag(x: string)
    requires x != ""
    ensures ConcatenateNonEmptyWithSpace([Some(x)]) == x
  {
    assert [Some(x)][..0] == [];
  }

  /** A flag as it appears in front of later ones: its text and a space, or nothing when absent. */
  function Prefix(f: Option<string>): string
  {
    if f.Some? then f.value + " " else ""
  }

  /** Two optional flags in front of a present one. */
  lemma ThreeFlags(c: Option<string>, l: Option<string>, v: string)
    requires c.None? || c.value != ""
    requires l.None? || l.value != ""
    requires v != ""
    ensures ConcatenateNonEmptyWithSpace([c, l, Some(v)]) == Prefix(c) + Prefix(l) + v
  {
    var last := [Some(v)];
    var tail := [l] + last;
    var pc, pl := Prefix(c), Prefix(l);
    assert ConcatenateNonEmptyWithSpace(last) == v by { SingleFlag(v); }
    assert ConcatenateNonEmptyWithSpace(tail) == pl + v by { PrependFlag(l, last); }
    assert PresentFlags(tail) != [] by { PresentFlagsPrepend(l, last); }
    assert ConcatenateNonEmptyWithSpace([c] + tail) == pc + (pl + v) by { PrependFlag(c, tail); }
    assert [c, l, Some(v)] == [c] + tail;
    assert pc + (pl + v) == pc + pl + v;
  }

  /** A fourth optional flag in front of three others, the last of them present. */
  lemma FourFlags(e: Option<string>, c: Option<string>, l: Option<string>, v: string)
    requires e.None? || e.value != ""
    requires v != ""
    ensures ConcatenateNonEmptyWithSpace([e, c, l, Some(v)]) == Prefix(e) + ConcatenateNonEmptyWithSpace([c, l, Some(v)])
  {
    var rest := [c, l, Some(v)];
    assert [e] + rest == [e, c, l, Some(v)];
    assert rest[..2] + [rest[2]] == rest;
    assert PresentFlags(rest) != [];
    PrependFlag(e, rest);
  }

  /** A flag put in front of others that render to something. */
  lemma {:induction false} PrependFlag(f: Option<string>, rest: seq<Option<string>>)
    requires f.None? || f.value != ""
    requires PresentFlags(rest) != []
    ensures ConcatenateNonEmptyWithSpace([f] + rest) == Prefix(f) + ConcatenateNonEmptyWithSpace(rest)
  {
    PresentFlagsPrepend(f, rest);
    var p := PresentFlags(rest);
    assert ConcatenateNonEmptyWithSpace(rest) == Text.Join(p, " ");
    if f.Some? {
      var q := [f.value] + p;
      assert |q| >= 2 && q[0] == f.value && q[1..] == p;
      assert PresentFlags([f] + rest) == q;
      assert ConcatenateNonEmptyWithSpace([f] + rest) == Text.Join(q, " ");
    } else {
      assert PresentFlags([f] + rest) == p;
    }
  }

  lemma {:induction false} PresentFlagsPrepend(f: Option<string>, rest: seq<Option<string>>)
    ensures PresentFlags([f] + rest) == (if f.Some? && f.value != "" then [f.value] else []) + PresentFlags(rest)
    decreases |rest|
  {
    if rest == [] {
      assert [f] + rest == [f];
      assert [f][..0] == [];
    } else {
      var init := rest[..|rest| - 1];
      assert ([f] + rest)[..|rest|] == [f] + init;
      PresentFlagsPrepend(f, init);
    }
  }

  /** Kotlin's `Visibilities`: the two rendered as nothing, and the others by their name. */
  datatype Visibility = PUBLIC | LOCAL | Other(name: string)

  /** `obtainVisibility`. */
  function ObtainVisibility(v: Visibility): (r: string)
    ensures v.PUBLIC? || v.LOCAL? ==> r == ""
    ensures v.Other? ==> r == Text.ToLower(v.name)
  {
    match v
    case PUBLIC => EMPTY_TOKEN
    case LOCAL => EMPTY_TOKEN
    case Other(name) => Text.ToLower(name)
  }

  /** `obtainTypeParameters`, from each type parameter's rendering. */
  function ObtainTypeParameters(typeParameters: seq<string>): (r: string)
    ensures typeParameters == [] ==> r == ""
  {
    if typeParameters == [] then EMPTY_TOKEN
    else Text.Trim("<" + Text.Join(typeParameters, ", ") + ">")
  }

  /** With parameters, the list is written in angle brackets; `trim` has nothing to cut. */
  lemma TypeParametersInAngleBrackets(typeParameters: seq<string>)
    requires typeParameters != []
    ensures ObtainTypeParameters(typeParameters) == "<" + Text.Join(typeParameters, ", ") + ">"
  {
    var s := "<" + Text.Join(typeParameters, ", ") + ">";
    assert !Text.IsWhitespace(s[0]);
    assert Text.TrimStart(s) == s;
    assert !Text.IsWhitespace(s[|s| - 1]);
  }

  /** A value argument: its rendering, and for a `LAMBDA` function expression, its rendering in the "lambda" scope. */
  datatype Argument = Argument(text: string, lambdaText: Option<string>)

  /** The type arguments' text: "<…>" when there are any, each absent one as "null". */
  function TypeArgumentsText(typeArguments: seq<Option<string>>): (r: string)
    ensures |typeArguments| == 0 <==> r == ""
    ensures |typeArguments| > 0 ==> r[0] == '<' && r[|r| - 1] == '>'
  {
    if |typeArguments| > 0 then "<" + Text.Join(NullableTexts(typeArguments), ", ") + ">" else EMPTY_TOKEN
  }

  /** String templates render null as "null". */
  function NullableTexts(xs: seq<Option<string>>): (r: seq<string>)
    ensures |r| == |xs|
    ensures forall i :: 0 <= i < |xs| ==> r[i] == (if xs[i].Some? then xs[i].value else "null")
  {
    if xs == [] then [] else [if xs[0].Some? then xs[0].value else "null"] + NullableTexts(xs[1..])
  }

  /** A named argument entry: the parameter's name, " = ", and the argument's text. */
  function NamedEntry(parameterName: string, a: Argument): string
  {
    parameterName + " = " + a.text
  }

  /** The `"name = value"` entries for the present arguments, in parameter order. */
  function NamedArguments(parameterNames: seq<string>, arguments: seq<Option<Argument>>): (r: seq<string>)
    requires |parameterNames| == |arguments|
  {
    if arguments == [] then []
    else
      var n := |arguments| - 1;
      NamedArguments(parameterNames[..n], arguments[..n])
      + (if arguments[n].Some? then [NamedEntry(parameterNames[n], arguments[n].value)] else [])
  }

  /** The texts of the present arguments, in order (`mapNotNull`). */
  function PresentTexts(arguments: seq<Option<Argument>>): (r: seq<string>)
    ensures |r| <= |arguments|
    ensures (forall i :: 0 <= i < |arguments| ==> arguments[i].Some?) ==> (|r| == |arguments|
      && forall i :: 0 <= i < |arguments| ==> r[i] == arguments[i].value.text)
  {
    if arguments == [] then []
    else
      var n := |arguments| - 1;
      PresentTexts(arguments[..n]) + (if arguments[n].Some? then [arguments[n].value.text] else [])
  }

  function CountPresent(arguments: seq<Option<Argument>>): (r: nat)
    ensures r <= |arguments|
    ensures r == |arguments| <==> forall i :: 0 <= i < |arguments| ==> arguments[i].Some?
  {
    if arguments == [] then 0
    else
      var n := |arguments| - 1;
      CountPresent(arguments[..n]) + (if arguments[n].Some? then 1 else 0)
  }

  /** The value-argument part: named entries when some are defaulted, the lambda alone, or the plain list. */
  function ValueArgumentsText(parameterNames: seq<string>, arguments: seq<Option<Argument>>): (r: string)
    requires |parameterNames| == |arguments|
  {
    if |arguments| != CountPresent(arguments) then
      "(" + Text.Join(NamedArguments(parameterNames, arguments), ", ") + ")"
    else if |arguments| == 1 && arguments[0].value.lambdaText.Some? then
      arguments[0].value.lambdaText.value
    else
      "(" + Text.Join(PresentTexts(arguments), ", ") + ")"
  }

  /** `IrCall.obtainNameWithArgs`'s result, as a function of the call's parts. */
  function NameWithArgs(name: string, typeArguments: seq<Option<string>>, parameterNames: seq<string>,
                        arguments: seq<Option<Argument>>): string
    requires |parameterNames| == |arguments|
  {
    name + TypeArgumentsText(typeArguments) + ValueArgumentsText(parameterNames, arguments)
  }

  /** One more argument adds its entry exactly when it is present. */
  lemma NamedArgumentsStep(parameterNames: seq<string>, arguments: seq<Option<Argument>>, i: nat)
    requires |parameterNames| == |arguments| && i < |arguments|
    ensures NamedArguments(parameterNames[..i + 1], arguments[..i + 1]) == NamedArguments(parameterNames[..i], arguments[..i])
      + (if arguments[i].Some? then [NamedEntry(parameterNames[i], arguments[i].value)] else [])
  {
    assert parameterNames[..i + 1][..i] == parameterNames[..i];
    assert arguments[..i + 1][..i] == arguments[..i];
  }

  /** The `ArrayList().apply { for (i in indices) … add(…) }` block. */
  method CollectNamedArguments(parameterNames: seq<string>, arguments: seq<Option<Argument>>) returns (named: seq<string>)
    requires |parameterNames| == |arguments|
    ensures named == NamedArguments(parameterNames, arguments)
  {
    named := [];
    for i := 0 to |arguments|
      invariant named == NamedArguments(parameterNames[..i], arguments[..i])
    {
      NamedArgumentsStep(parameterNames, arguments, i);
      if arguments[i].Some? {
        named := named + [NamedEntry(parameterNames[i], arguments[i].value)];
      }
    }
    assert parameterNames[..|arguments|] == parameterNames;
    assert arguments[..|arguments|] == arguments;
  }

  /** `IrCall.obtainNameWithArgs`. */
  method ObtainNameWithArgs(name: string, typeArguments: seq<Option<string>>, parameterNames: seq<string>,
                            arguments: seq<Option<Argument>>) returns (r: string)
    requires |parameterNames| == |arguments|
    ensures r == NameWithArgs(name, typeArguments, parameterNames, arguments)
  {
    var result := name + TypeArgumentsText(typeArguments);
    var valueArguments;
    if |arguments| != CountPresent(arguments) {
      var named := CollectNamedArguments(parameterNames, arguments);
      valueArguments := "(" + Text.Join(named, ", ") + ")";
    } else if |arguments| == 1 && arguments[0].value.lambdaText.Some? {
      valueArguments := arguments[0].value.lambdaText.value;
    } else {
      valueArguments := "(" + Text.Join(PresentTexts(arguments), ", ") + ")";
    }
    r := result + valueArguments;
  }

  /** The named entries are one per present argument, each its parameter's name, " = ", and its text. */
  lemma {:induction false} NamedArgumentsOfPresent(parameterNames: seq<string>, arguments: seq<Option<Argument>>)
    requires |parameterNames| == |arguments|
    ensures |NamedArguments(parameterNames, arguments)| == CountPresent(arguments)
    ensures forall x :: x in NamedArguments(parameterNames, arguments) <==>
      exists i :: 0 <= i < |arguments| && arguments[i].Some? && x == NamedEntry(parameterNames[i], arguments[i].value)
  {
    if arguments != [] {
      var n := |arguments| - 1;
      var ps, args := parameterNames[..n], arguments[..n];
      NamedArgumentsOfPresent(ps, args);
      var init := NamedArguments(ps, args);
      var last := if arguments[n].Some? then [NamedEntry(parameterNames[n], arguments[n].value)] else [];
      assert NamedArguments(parameterNames, arguments) == init + last;
      forall x | x in init + last
        ensures exists i :: 0 <= i < |arguments| && arguments[i].Some? && x == NamedEntry(parameterNames[i], arguments[i].value)
      {
        if x in init {
          var i :| 0 <= i < n && args[i].Some? && x == NamedEntry(ps[i], args[i].value);
          assert args[i] == arguments[i] && ps[i] == parameterNames[i];
        } else {
          assert arguments[n].Some? && x == NamedEntry(parameterNames[n], arguments[n].value);
        }
      }
      forall x, i | 0 <= i < |arguments| && arguments[i].Some? && x == NamedEntry(parameterNames[i], arguments[i].value)
        ensures x in init + last
      {
        if i < n {
          assert args[i] == arguments[i] && ps[i] == parameterNames[i];
          assert x in init;
        } else {
          assert x in last;
        }
      }
    }
  }

  /** When every argument is given, the call renders "(a, b, …)", or the lambda alone when it is the single argument. */
  lemma AllArgumentsPresent(name: string, typeArguments: seq<Option<string>>, parameterNames: seq<string>,
                            arguments: seq<Option<Argument>>)
    requires |parameterNames| == |arguments|
    requires forall i :: 0 <= i < |arguments| ==> arguments[i].Some?
    ensures var prefix := name + TypeArgumentsText(typeArguments);
      NameWithArgs(name, typeArguments, parameterNames, arguments) == prefix +
        if |arguments| == 1 && arguments[0].value.lambdaText.Some? then arguments[0].value.lambdaText.value
        else "(" + Text.Join(PresentTexts(arguments), ", ") + ")"
  {
    assert CountPresent(arguments) == |arguments|;
  }

  /** A defaulted argument makes every given one named, in parameter order. */
  lemma SomeArgumentAbsent(name: string, typeArguments: seq<Option<string>>, parameterNames: seq<string>,
                           arguments: seq<Option<Argument>>, k: nat)
    requires |parameterNames| == |arguments|
    requires k < |arguments| && arguments[k].None?
    ensures NameWithArgs(name, typeArguments, parameterNames, arguments)
      == name + TypeArgumentsText(typeArguments) + ("(" + Text.Join(NamedArguments(parameterNames, arguments), ", ") + ")")
  {
  }

  /** Java's `.` in a regular expression: any character but a line terminator. */
  predicate IsLineTerminator(c: char)
  {
    c == '\n' || c == '\r' || c == '\U{85}' || c == '\U{2028}' || c == '\U{2029}'
  }

  /** The first line terminator at or after `from`, or the end. */
  function LineEnd(s: string, from: nat): (r: nat)
    requires from <= |s|
    ensures from <= r <= |s|
    ensures forall k :: from <= k < r ==> !IsLineTerminator(s[k])
    ensures r < |s| ==> IsLineTerminator(s[r])
    decreases |s| - from
  {
    if from == |s| || IsLineTerminator(s[from]) then from else LineEnd(s, from + 1)
  }

  /** The last '>' in `s[lo..hi]`. */
  function LastGreater(s: string, lo: nat, hi: nat): (r: int)
    requires lo <= hi <= |s|
    ensures r == -1 || (lo <= r < hi && s[r] == '>')
    ensures r == -1 ==> forall k :: lo <= k < hi ==> s[k] != '>'
    ensures r >= 0 ==> forall k :: r < k < hi ==> s[k] != '>'
    decreases hi - lo
  {
    if hi == lo then -1 else if s[hi - 1] == '>' then hi - 1 else LastGreater(s, lo, hi - 1)
  }

  predicate GetPrefixAt(s: string, k: nat)
  {
    k + 5 <= |s| && s[k..k + 5] == "<get-"
  }

  /**
   * `Regex("<get-(.+)>").find(fullName)?.groups?.get(1)?.value`, the search starting at `i`: the
   * leftmost start, and from there the greedy group up to the last '>' on the same line.
   */
  function GetterGroup(s: string, i: nat): (r: Option<string>)
    requires i <= |s|
    decreases |s| - i
  {
    if i + 7 > |s| then None
    else if GetPrefixAt(s, i) && LineEnd(s, i + 5) > i + 5 && LastGreater(s, i + 6, LineEnd(s, i + 5)) >= 0 then
      Some(s[i + 5..LastGreater(s, i + 6, LineEnd(s, i + 5))])
    else GetterGroup(s, i + 1)
  }

  /** `IrCall.obtainGetPropertyCall`: "null" where the name does not match. */
  function ObtainGetPropertyCall(fullName: string, receiver: Option<string>): (r: string)
    ensures receiver.Some? ==> receiver.value + "." <= r
    ensures receiver.None? ==> r == (if GetterGroup(fullName, 0).Some? then GetterGroup(fullName, 0).value else "null")
  {
    var propName := if GetterGroup(fullName, 0).Some? then GetterGroup(fullName, 0).value else "null";
    (if receiver.Some? then receiver.value + "." else EMPTY_TOKEN) + propName
  }

  /** A getter's name `<get-p>` gives back the property name `p`, with the receiver in front when there is one. */
  lemma GetPropertyOfGetterName(p: string, receiver: Option<string>)
    requires p != [] && forall k :: 0 <= k < |p| ==> !IsLineTerminator(p[k])
    ensures GetterGroup("<get-" + p + ">", 0) == Some(p)
    ensures ObtainGetPropertyCall("<get-" + p + ">", receiver) == (if receiver.Some? then receiver.value + "." else "") + p
  {
    var s := "<get-" + p + ">";
    assert s[0..5] == "<get-";
    GetterNameHasOneLine(p);
    assert s[|s| - 1] == '>';
    GetterGroupAtStart(s);
    assert s[5..|s| - 1] == p;
  }

  /** A name that starts with "<get-" and ends with '>' on one line has the text in between as its group. */
  lemma GetterGroupAtStart(s: string)
    requires 7 <= |s| && s[0..5] == "<get-" && s[|s| - 1] == '>'
    requires forall k :: 5 <= k < |s| ==> !IsLineTerminator(s[k])
    ensures GetterGroup(s, 0) == Some(s[5..|s| - 1])
  {
    LineEndIsEnd(s, 5);
    assert LastGreater(s, 6, |s|) == |s| - 1;
  }

  lemma GetterNameHasOneLine(p: string)
    requires forall k :: 0 <= k < |p| ==> !IsLineTerminator(p[k])
    ensures var s := "<get-" + p + ">"; forall k :: 5 <= k < |s| ==> !IsLineTerminator(s[k])
  {
    var s := "<get-" + p + ">";
    forall k | 5 <= k < |s|
      ensures !IsLineTerminator(s[k])
    {
      if k < |s| - 1 {
        assert s[k] == p[k - 5];
      }
    }
  }

  lemma {:induction false} LineEndIsEnd(s: string, from: nat)
    requires from <= |s|
    requires forall k :: from <= k < |s| ==> !IsLineTerminator(s[k])
    ensures LineEnd(s, from) == |s|
    decreases |s| - from
  {
    if from < |s| {
      LineEndIsEnd(s, from + 1);
    }
  }

  /** A name that holds no "<get-" has no group, whatever follows. */
  lemma {:induction false} NoGetterWithoutPrefix(s: string, i: nat)
    requires i <= |s|
    requires forall k: nat :: i <= k ==> !GetPrefixAt(s, k)
    ensures GetterGroup(s, i) == None
    decreases |s| - i
  {
    if i + 7 <= |s| {
      NoGetterWithoutPrefix(s, i + 1);
    }
  }
}
