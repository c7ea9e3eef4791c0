/**
 * The decompiler's custom expression nodes (`DecompilerTreeCustomExpression.kt`): value arguments,
 * destructuring declarations, the elvis and safe-call operators rebuilt from their lowered form,
 * and increments and decrements. Sub-expressions are represented by the text they decompile to.
 */
module DecompilerCustom {
  import opened Wrappers
  import Text
  import DecompilerCalls

  /**
   * `DecompilerTreeValueArgument.produceSources`: nothing for an absent argument, "name = v" when
   * it is printed with its parameter's name (whose `!!` throws on a nameless parameter), else v.
   */
  function ValueArgumentText(parameterName: Option<string>, argumentValue: Option<string>, toPrintWithParameterName: bool)
    : (r: Result<string>)
    ensures argumentValue.None? ==> r == Ok("")
    ensures argumentValue.Some? && !toPrintWithParameterName ==> r == Ok(argumentValue.value)
    ensures argumentValue.Some? && toPrintWithParameterName ==> (r.Err? <==> parameterName.None?)
    ensures argumentValue.Some? && toPrintWithParameterName && r.Ok? ==> r.value == parameterName.value + " = " + argumentValue.value
  {
    match argumentValue
    case None => Ok("")
    case Some(v) =>
      if !toPrintWithParameterName then Ok(v)
      else if parameterName.None? then Err("NullPointerException")
      else Ok(parameterName.value + " = " + v)
  }

  /** A named argument ends in its value, after " = ". */
  lemma NamedArgumentEndsWithValue(name: string, v: string)
    ensures var r := ValueArgumentText(Some(name), Some(v), true).value;
      (|r| == |name| + 3 + |v| && r[|name|..|name| + 3] == " = " && r[|name| + 3..] == v)
  {
    var r := name + " = " + v;
    assert r[|name|..|name| + 3] == " = ";
    assert r[|name| + 3..] == v;
  }

  /** The names of the declared variables, skipping nameless ones (`mapNotNull { it.nameIfExists }`). */
  function PresentNames(names: seq<Option<string>>): (r: seq<string>)
    ensures |r| <= |names|
    ensures (forall i :: 0 <= i < |names| ==> names[i].Some?) ==> (|r| == |names| && forall i :: 0 <= i < |r| ==> r[i] == names[i].value)
  {
    if names == [] then []
    else
      var rest := PresentNames(names[1..]);
      (if names[0].Some? then [names[0].value] else []) + rest
  }

  /**
   * `DecompilerTreeDestructingDeclaration.produceSources`: "val", the names in parentheses, "=" and
   * the temporary's initializer, joined by spaces; a temporary without an initializer throws.
   */
  function DestructuringText(names: seq<Option<string>>, initializer: Option<string>): (r: Result<string>)
    ensures r.Err? <==> initializer.None?
  {
    match initializer
    case None => Err("NullPointerException")
    case Some(init) => Ok(Text.Join(["val", "(" + Text.Join(PresentNames(names), ", ") + ")", "=", init], " "))
  }

  /** The declaration reads "val (a, b, …) = init". */
  lemma DestructuringShape(names: seq<Option<string>>, init: string)
    ensures DestructuringText(names, Some(init)) == Ok("val (" + Text.Join(PresentNames(names), ", ") + ") = " + init)
  {
    var parens := "(" + Text.Join(PresentNames(names), ", ") + ")";
    var parts := ["val", parens, "=", init];
    assert parts[1..] == [parens, "=", init];
    assert ["=", init][1..] == [init];
    assert [parens, "=", init][1..] == ["=", init];
    assert Text.Join(["=", init], " ") == "=" + " " + init;
    assert Text.Join([parens, "=", init], " ") == parens + " " + ("=" + " " + init);
    assert Text.Join(parts, " ") == "val" + " " + (parens + " " + ("=" + " " + init));
    ValDeclarationText(Text.Join(PresentNames(names), ", "), init);
  }

  lemma ValDeclarationText(inner: string, init: string)
    ensures "val" + " " + (("(" + inner + ")") + " " + ("=" + " " + init)) == "val (" + inner + ") = " + init
  {
    var lhs := "val" + " " + (("(" + inner + ")") + " " + ("=" + " " + init));
    var rhs := "val (" + inner + ") = " + init;
    assert |lhs| == |rhs|;
    forall k | 0 <= k < |lhs| ensures lhs[k] == rhs[k] {
      if k < 5 {
      } else if k < 5 + |inner| {
        assert lhs[k] == inner[k - 5] && rhs[k] == inner[k - 5];
      } else if k < 9 + |inner| {
      } else {
        assert lhs[k] == init[k - 9 - |inner|] && rhs[k] == init[k - 9 - |inner|];
      }
    }
  }

  /** Two named variables destructure as "val (a, b) = init". */
  lemma DestructuringOfTwo(a: string, b: string, init: string)
    ensures DestructuringText([Some(a), Some(b)], Some(init)) == Ok("val (" + a + ", " + b + ") = " + init)
  {
    DestructuringShape([Some(a), Some(b)], init);
    assert [Some(a), Some(b)][1..] == [Some(b)];
    assert PresentNames([Some(a), Some(b)]) == [a, b];
    assert [a, b][1..] == [b];
    assert Text.Join([a, b], ", ") == a + ", " + b;
    assert "val (" + (a + ", " + b) + ") = " + init == "val (" + a + ", " + b + ") = " + init;
  }

  /**
   * `DecompilerTreeElvisOperatorCallExpression.produceSources`: "lhs ?: rhs" from the temporary's
   * initializer and the first branch's result; nothing when either is missing. The branch results
   * are `None` where a result is not an expression; reading branch 0 of no branches throws.
   */
  function ElvisText(initializer: Option<string>, branchResults: seq<Option<string>>): (r: Result<string>)
    ensures initializer.None? ==> r == Ok("")
    ensures initializer.Some? ==> (r.Err? <==> branchResults == [])
    ensures initializer.Some? && r.Ok? ==>
      r.value == (if branchResults[0].Some? then initializer.value + " ?: " + branchResults[0].value else "")
  {
    match initializer
    case None => Ok("")
    case Some(lhs) =>
      if branchResults == [] then Err("IndexOutOfBoundsException")
      else Ok(if branchResults[0].Some? then lhs + " ?: " + branchResults[0].value else "")
  }

  /**
   * `DecompilerTreeSafeCallOperatorExpression.produceSources`: when the second branch's result is a
   * named call, that node's separator becomes "?." and its dispatch receiver the temporary's
   * initializer (null included), and the node is printed. `branchCalls[i]` is `None` where the
   * result is not a named call; reading branch 1 of fewer than two branches throws.
   */
  method SafeCallSource(initializer: Option<string>, branchCalls: seq<Option<DecompilerCalls.NamedCallNode>>) returns (r: Result<string>)
    modifies if |branchCalls| >= 2 && branchCalls[1].Some? then {branchCalls[1].value} else {}
    ensures r.Err? <==> |branchCalls| < 2
    ensures |branchCalls| >= 2 && branchCalls[1].None? ==> r == Ok("")
    ensures |branchCalls| >= 2 && branchCalls[1].Some? ==> (branchCalls[1].value.separator == "?."
      && branchCalls[1].value.dispatchReceiver == initializer
      && r == Ok(branchCalls[1].value.Source()))
  {
    if |branchCalls| < 2 {
      return Err("IndexOutOfBoundsException");
    }
    match branchCalls[1]
    case None =>
      r := Ok("");
    case Some(call) =>
      call.separator := "?.";
      call.dispatchReceiver := initializer;
      r := Ok(call.Source());
  }

  /** After the rewrite, a call `f(…)` on receiver `x` prints "x?.f(…)". */
  lemma SafeCallPrintsQuestionDot(info: DecompilerCalls.CallInfo, parts: DecompilerCalls.CallParts, x: string)
    requires info.superQualifierName.None? && parts.dispatchReceiver == Some(x)
    requires forall k :: 0 <= k < |x| ==> x[k] != '<' && x[k] != '>'
    ensures DecompilerCalls.NamedCallText(info, parts, "?.")
      == x + "?." + DecompilerCalls.CallString(info.calleeName, parts.typeArguments, parts.valueArguments)
  {
    assert !("<" <= x) by {
      if |x| > 0 {
        assert x[0] != '<';
      }
    }
    if |x| > 0 {
      assert x[|x| - 1..] != ">" by {
        assert x[|x| - 1..][0] == x[|x| - 1];
      }
    }
    assert Text.RemovePrefix(x, "<") == x;
    assert !Text.EndsWith(x, ">");
  }

  /** `DecompilerTreeIncDecOperatorCall.produceSources`: the operator after the operand when postfix, before it otherwise. */
  function IncDecText(operand: string, isPostfix: bool, isInc: bool): (r: string)
    ensures |r| == |operand| + 2
    ensures isPostfix ==> r[..|operand|] == operand && r[|operand|..] == (if isInc then "++" else "--")
    ensures !isPostfix ==> r[..2] == (if isInc then "++" else "--") && r[2..] == operand
  {
    var operatorStr := if isInc then "++" else "--";
    if isPostfix then operand + operatorStr else operatorStr + operand
  }
}
