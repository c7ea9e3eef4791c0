/**
 * The decompiler's call nodes (`DecompilerTreeCalls.kt`): which node `buildCall` makes for an
 * `IrCall`, how operator calls pick their operands, and the text each node prints. A
 * sub-expression is represented by the text its own `decompile()` gives.
 */
module DecompilerCalls {
  import opened Wrappers
  import Text

  /** The `IrStatementOrigin`s the call nodes look at; any other origin is `OtherOrigin`. */
  datatype Origin =
    | EXCLEXCL | UPLUS | UMINUS | EXCL
    | PLUS | PLUSEQ | MINUS | MINUSEQ | MUL | MULTEQ | DIV | DIVEQ | PERC | PERCEQ
    | ANDAND | OROR | EQEQ | GT | LT | GTEQ | LTEQ | EXCLEQ | EQEQEQ | EXCLEQEQ
    | IN | NOT_IN | EQ | INVOKE | GET_PROPERTY | RANGE
    | OtherOrigin(name: string)

  /** `DecompilerTreeCallUnaryOp.originMap`. */
  function UnaryOperator(o: Origin): (r: Option<string>)
    ensures r.Some? <==> o in {EXCLEXCL, UPLUS, UMINUS, EXCL}
    ensures r.Some? ==> 1 <= |r.value| <= 2
  {
    match o
    case EXCLEXCL => Some("!!")
    case UPLUS => Some("+")
    case UMINUS => Some("-")
    case EXCL => Some("!")
    case _ => None
  }

  /** `DecompilerTreeCallBinaryOp.originMap`. */
  function BinaryOperator(o: Origin): (r: Option<string>)
    ensures r.Some? <==> o in {PLUS, PLUSEQ, MINUS, MINUSEQ, MUL, MULTEQ, DIV, DIVEQ, PERC, PERCEQ,
      ANDAND, OROR, EQEQ, GT, LT, GTEQ, LTEQ, EXCLEQ, EQEQEQ, EXCLEQEQ}
    ensures IsCompoundAssignment(o) ==> r.Some? && |r.value| == 2 && r.value[1] == '='
  {
    match o
    case PLUS => Some("+")
    case PLUSEQ => Some("+=")
    case MINUS => Some("-")
    case MINUSEQ => Some("-=")
    case MUL => Some("*")
    case MULTEQ => Some("*=")
    case DIV => Some("/")
    case DIVEQ => Some("/=")
    case PERC => Some("%")
    case PERCEQ => Some("%=")
    case ANDAND => Some("&&")
    case OROR => Some("||")
    case EQEQ => Some("==")
    case GT => Some(">")
    case LT => Some("<")
    case GTEQ => Some(">=")
    case LTEQ => Some("<=")
    case EXCLEQ => Some("!=")
    case EQEQEQ => Some("===")
    case EXCLEQEQ => Some("!==")
    case _ => None
  }

  /** `PLUSEQ, MINUSEQ, DIVEQ, MULTEQ, PERCEQ`. */
  predicate IsCompoundAssignment(o: Origin)
  {
    o in {PLUSEQ, MINUSEQ, DIVEQ, MULTEQ, PERCEQ}
  }

  /** The node classes `buildCall` chooses among. */
  datatype CallKind =
    | UnaryOp | BinaryOp(isShorten: bool) | InOperator(isInShortForm: bool) | NotInOperator
    | AssignmentOp | InvokeOp | GetPropertyCall | RangeOp | InfixFunCall | NamedCall

  /** An origin that one of the first eight branches of `buildCall` claims. */
  predicate HasOperatorOrigin(origin: Option<Origin>)
  {
    origin.Some? && (UnaryOperator(origin.value).Some? || BinaryOperator(origin.value).Some?
      || origin.value in {IN, NOT_IN, EQ, INVOKE, GET_PROPERTY, RANGE})
  }

  /** `IrCall.buildCall`: the first matching branch, in source order. */
  function BuildCall(origin: Option<Origin>, isInfix: bool, isWhenSubjectMember: bool): (r: CallKind)
    ensures r == UnaryOp <==> origin.Some? && UnaryOperator(origin.value).Some?
    ensures r.BinaryOp? <==> origin.Some? && BinaryOperator(origin.value).Some?
    ensures r.BinaryOp? ==> r.isShorten == isWhenSubjectMember
    ensures r.InOperator? <==> origin == Some(IN)
    ensures r.InOperator? ==> r.isInShortForm == isWhenSubjectMember
    ensures r == NotInOperator <==> origin == Some(NOT_IN)
    ensures r == AssignmentOp <==> origin == Some(EQ)
    ensures r == InvokeOp <==> origin == Some(INVOKE)
    ensures r == GetPropertyCall <==> origin == Some(GET_PROPERTY)
    ensures r == RangeOp <==> origin == Some(RANGE)
    ensures r == InfixFunCall <==> isInfix && !HasOperatorOrigin(origin)
    ensures r == NamedCall <==> !isInfix && !HasOperatorOrigin(origin)
  {
    if origin.Some? && UnaryOperator(origin.value).Some? then UnaryOp
    else if origin.Some? && BinaryOperator(origin.value).Some? then BinaryOp(isWhenSubjectMember)
    else if origin == Some(IN) then InOperator(isWhenSubjectMember)
    else if origin == Some(NOT_IN) then NotInOperator
    else if origin == Some(EQ) then AssignmentOp
    else if origin == Some(INVOKE) then InvokeOp
    else if origin == Some(GET_PROPERTY) then GetPropertyCall
    else if origin == Some(RANGE) then RangeOp
    else if isInfix then InfixFunCall
    else NamedCall
  }

  /** No origin is both unary and binary, so the order of the origin branches never decides anything. */
  lemma OperatorTablesDisjoint(o: Origin)
    ensures !(UnaryOperator(o).Some? && BinaryOperator(o).Some?)
    ensures UnaryOperator(o).Some? || BinaryOperator(o).Some? ==> o !in {IN, NOT_IN, EQ, INVOKE, GET_PROPERTY, RANGE}
  {
  }

  /** Whether the callee is infix matters only for a call without an operator origin. */
  lemma InfixOnlyWithoutOperatorOrigin(origin: Option<Origin>, isWhenSubjectMember: bool)
    requires HasOperatorOrigin(origin)
    ensures BuildCall(origin, true, isWhenSubjectMember) == BuildCall(origin, false, isWhenSubjectMember)
    ensures BuildCall(origin, true, isWhenSubjectMember) !in {InfixFunCall, NamedCall}
  {
  }

  /** Kotlin's `getOrNull`. */
  function GetOrNull(s: seq<string>, i: nat): (r: Option<string>)
    ensures r.Some? <==> i < |s|
    ensures r.Some? ==> r.value == s[i]
  {
    if i < |s| then Some(s[i]) else None
  }

  /** `leftOperand`: `dispatchReceiver ?: extensionReceiver ?: valueArguments.getOrNull(0)`. */
  function LeftOperand(dispatchReceiver: Option<string>, extensionReceiver: Option<string>, valueArguments: seq<string>): Option<string>
  {
    if dispatchReceiver.Some? then dispatchReceiver
    else if extensionReceiver.Some? then extensionReceiver
    else GetOrNull(valueArguments, 0)
  }

  /** `rightOperand`: the chain of `?.let { … } ?:` over the two receivers, then `getOrNull(1)`. */
  function RightOperand(dispatchReceiver: Option<string>, extensionReceiver: Option<string>, valueArguments: seq<string>): Option<string>
  {
    var viaDispatch := if dispatchReceiver.Some? then GetOrNull(valueArguments, 0) else None;
    if viaDispatch.Some? then viaDispatch
    else
      var viaExtension := if extensionReceiver.Some? then GetOrNull(valueArguments, 0) else None;
      if viaExtension.Some? then viaExtension else GetOrNull(valueArguments, 1)
  }

  /**
   * With a receiver, the receiver is the left operand and the first argument the right one;
   * without one, the first two arguments are.
   */
  lemma OperandPositions(dispatchReceiver: Option<string>, extensionReceiver: Option<string>, valueArguments: seq<string>)
    ensures dispatchReceiver.Some? ==> LeftOperand(dispatchReceiver, extensionReceiver, valueArguments) == dispatchReceiver
    ensures dispatchReceiver.None? && extensionReceiver.Some? ==> LeftOperand(dispatchReceiver, extensionReceiver, valueArguments) == extensionReceiver
    ensures dispatchReceiver.None? && extensionReceiver.None? ==> LeftOperand(dispatchReceiver, extensionReceiver, valueArguments) == GetOrNull(valueArguments, 0)
    ensures RightOperand(dispatchReceiver, extensionReceiver, valueArguments) ==
      GetOrNull(valueArguments, if dispatchReceiver.Some? || extensionReceiver.Some? then 0 else 1)
  {
  }

  /** The two operands never come from the same argument slot. */
  lemma OperandsAreDistinctSlots(dispatchReceiver: Option<string>, extensionReceiver: Option<string>, valueArguments: seq<string>)
    requires dispatchReceiver.None? && extensionReceiver.None? && |valueArguments| >= 2
    ensures LeftOperand(dispatchReceiver, extensionReceiver, valueArguments) == Some(valueArguments[0])
    ensures RightOperand(dispatchReceiver, extensionReceiver, valueArguments) == Some(valueArguments[1])
  {
  }

  /** `removePrefix("<").removeSuffix(">")`, used on receivers such as `<this>`. */
  function WithoutBrackets(x: string): string
  {
    Text.RemoveSuffix(Text.RemovePrefix(x, "<"), ">")
  }

  /** A bracketed name loses exactly its brackets. */
  lemma WithoutBracketsOfBracketed(x: string)
    ensures WithoutBrackets("<" + x + ">") == x
  {
    var s := "<" + x + ">";
    assert s[..1] == "<" && s[1..] == x + ">";
    assert Text.RemovePrefix(s, "<") == x + ">";
    var t := x + ">";
    assert t[|t| - 1..] == ">" && t[..|t| - 1] == x;
    assert Text.EndsWith(t, ">");
  }

  /** The items joined by ", " between two brackets, or nothing for no items. */
  function Bracketed(open: char, close: char, items: seq<string>): (r: Option<string>)
    ensures r.None? <==> items == []
    ensures r.Some? ==> (|r.value| >= 2 && r.value[0] == open && r.value[|r.value| - 1] == close
      && r.value[1..|r.value| - 1] == Text.Join(items, ", "))
  {
    if items == [] then None else Some([open] + Text.Join(items, ", ") + [close])
  }

  /** `valueArgumentsInsideParenthesesOrNull`. */
  function ValueArgumentsInsideParentheses(valueArguments: seq<string>): (r: Option<string>)
    ensures r.None? <==> valueArguments == []
    ensures r.Some? ==> (|r.value| >= 2 && r.value[0] == '(' && r.value[|r.value| - 1] == ')'
      && r.value[1..|r.value| - 1] == Text.Join(valueArguments, ", "))
  {
    Bracketed('(', ')', valueArguments)
  }

  /** `typeArgumentsForPrint`. */
  function TypeArgumentsForPrint(typeArguments: seq<string>): (r: Option<string>)
    ensures r.None? <==> typeArguments == []
    ensures r.Some? ==> (|r.value| >= 2 && r.value[0] == '<' && r.value[|r.value| - 1] == '>'
      && r.value[1..|r.value| - 1] == Text.Join(typeArguments, ", "))
  {
    Bracketed('<', '>', typeArguments)
  }

  /** The facts about the `IrCall` the renderings read. */
  datatype CallInfo = CallInfo(
    origin: Option<Origin>, calleeName: string, isDefaultPropertyAccessor: bool,
    correspondingPropertyName: Option<string>, superQualifierName: Option<string>)

  /** The call's sub-expressions, as rendered texts. */
  datatype CallParts = CallParts(
    dispatchReceiver: Option<string>, extensionReceiver: Option<string>, valueArguments: seq<string>, typeArguments: seq<string>)

  /** The call string: name, type arguments when there are any, then the arguments in parentheses or "()". */
  function CallString(name: string, typeArguments: seq<string>, valueArguments: seq<string>): (r: string)
    ensures name <= r
    ensures |r| >= |name| + 2 && r[|r| - 1] == ')'
  {
    var typeText := if TypeArgumentsForPrint(typeArguments).Some? then TypeArgumentsForPrint(typeArguments).value else "";
    var argsText := if valueArguments == [] then "()" else ValueArgumentsInsideParentheses(valueArguments).value;
    assert (name + typeText + argsText)[..|name|] == name;
    name + typeText + argsText
  }

  /** A call without arguments or type arguments is its name followed by "()". */
  lemma CallStringWithoutArguments(name: string)
    ensures CallString(name, [], []) == name + "()"
  {
  }

  /** The receiver of a named or invoke call: `super<Q>` for a super-qualified call, else the receiver without brackets. */
  function ReceiverText(superQualifierName: Option<string>, dispatchReceiver: string): (r: string)
    ensures superQualifierName.Some? ==> r == "super<" + superQualifierName.value + ">"
    ensures superQualifierName.None? ==> r == WithoutBrackets(dispatchReceiver)
  {
    if superQualifierName.Some? then "super<" + superQualifierName.value + ">" else WithoutBrackets(dispatchReceiver)
  }

  /** `DecompilerTreeNamedCall.produceSources` with the given separator and receivers. */
  function NamedCallText(info: CallInfo, parts: CallParts, separator: string): (r: string)
    ensures parts.dispatchReceiver.Some? ==>
      r == ReceiverText(info.superQualifierName, parts.dispatchReceiver.value) + separator + CallString(info.calleeName, parts.typeArguments, parts.valueArguments)
    ensures parts.dispatchReceiver.None? && parts.extensionReceiver.Some? ==>
      r == parts.extensionReceiver.value + "." + CallString(info.calleeName, parts.typeArguments, parts.valueArguments)
    ensures parts.dispatchReceiver.None? && parts.extensionReceiver.None? ==>
      r == CallString(info.calleeName, parts.typeArguments, parts.valueArguments)
  {
    var callString := CallString(info.calleeName, parts.typeArguments, parts.valueArguments);
    if parts.dispatchReceiver.Some? then ReceiverText(info.superQualifierName, parts.dispatchReceiver.value) + separator + callString
    else if parts.extensionReceiver.Some? then parts.extensionReceiver.value + "." + callString
    else callString
  }

  /** Every named call ends in its call string, whatever its receiver. */
  lemma NamedCallEndsWithCallString(info: CallInfo, parts: CallParts, separator: string)
    ensures var callString := CallString(info.calleeName, parts.typeArguments, parts.valueArguments);
      var r := NamedCallText(info, parts, separator);
      (|r| >= |callString| && r[|r| - |callString|..] == callString)
  {
    var callString := CallString(info.calleeName, parts.typeArguments, parts.valueArguments);
    var r := NamedCallText(info, parts, separator);
    var prefix := if parts.dispatchReceiver.Some? then ReceiverText(info.superQualifierName, parts.dispatchReceiver.value) + separator
      else if parts.extensionReceiver.Some? then parts.extensionReceiver.value + "." else "";
    assert r == prefix + callString;
    assert (prefix + callString)[|prefix|..] == callString;
  }

  /** `DecompilerTreeNamedCall`: the node whose separator and dispatch receiver a safe call rewrites. */
  class NamedCallNode {
    const info: CallInfo
    const extensionReceiver: Option<string>
    const valueArguments: seq<string>
    const typeArguments: seq<string>
    var dispatchReceiver: Option<string>
    var separator: string

    constructor(info: CallInfo, parts: CallParts)
      ensures this.info == info && dispatchReceiver == parts.dispatchReceiver && extensionReceiver == parts.extensionReceiver
      ensures valueArguments == parts.valueArguments && typeArguments == parts.typeArguments
      ensures separator == "."
    {
      this.info := info;
      dispatchReceiver := parts.dispatchReceiver;
      extensionReceiver := parts.extensionReceiver;
      valueArguments := parts.valueArguments;
      typeArguments := parts.typeArguments;
      separator := ".";
    }

    /** The node's current parts. */
    function Parts(): CallParts
      reads this
    {
      CallParts(dispatchReceiver, extensionReceiver, valueArguments, typeArguments)
    }

    /** `produceSources`, on the node's current state. */
    function Source(): (r: string)
      reads this
      ensures r == NamedCallText(info, Parts(), separator)
    {
      NamedCallText(info, Parts(), separator)
    }
  }

  /** `DecompilerTreeGetPropertyCall.produceSources`. */
  function GetPropertyText(info: CallInfo, parts: CallParts): (r: string)
    ensures var callString := Text.RemoveSuffix(Text.RemovePrefix(info.calleeName, "<get-"), ">");
      (r == if parts.dispatchReceiver.Some? then WithoutBrackets(parts.dispatchReceiver.value) + "." + callString
        else if parts.extensionReceiver.Some? then WithoutBrackets(parts.extensionReceiver.value) + "." + callString
        else callString)
  {
    var callString := Text.RemoveSuffix(Text.RemovePrefix(info.calleeName, "<get-"), ">");
    var receiver := if parts.dispatchReceiver.Some? then parts.dispatchReceiver else parts.extensionReceiver;
    if receiver.Some? then WithoutBrackets(receiver.value) + "." + callString else callString
  }

  /** A getter `<get-p>` called on `<this>` prints `this.p`. */
  lemma GetPropertyOfGetter(p: string, info: CallInfo, parts: CallParts)
    requires info.calleeName == "<get-" + p + ">"
    ensures parts.dispatchReceiver == Some("<this>") ==> GetPropertyText(info, parts) == "this." + p
    ensures parts.dispatchReceiver.None? && parts.extensionReceiver.None? ==> GetPropertyText(info, parts) == p
  {
    var s := "<get-" + p + ">";
    assert s[..5] == "<get-" && s[5..] == p + ">";
    assert Text.RemovePrefix(s, "<get-") == p + ">";
    var t := p + ">";
    assert t[|t| - 1..] == ">" && t[..|t| - 1] == p;
    assert Text.EndsWith(t, ">");
    WithoutBracketsOfBracketed("this");
  }

  /** `DecompilerTreeCallUnaryOp.produceSources`: "l!!" for `EXCLEXCL`, the operator before `l` otherwise, nothing without an operand. */
  function UnaryText(info: CallInfo, parts: CallParts): (r: Result<string>)
    ensures r.Err? <==> info.origin.None? || UnaryOperator(info.origin.value).None?
    ensures r.Ok? ==> var l := LeftOperand(parts.dispatchReceiver, parts.extensionReceiver, parts.valueArguments);
      (if l.None? then r.value == ""
       else if info.origin == Some(EXCLEXCL) then r.value == l.value + "!!"
       else r.value == UnaryOperator(info.origin.value).value + l.value)
  {
    if info.origin.None? || UnaryOperator(info.origin.value).None? then Err("IllegalStateException: not a unary operation")
    else
      var op := UnaryOperator(info.origin.value).value;
      match LeftOperand(parts.dispatchReceiver, parts.extensionReceiver, parts.valueArguments)
      case None => Ok("")
      case Some(l) => Ok(if info.origin == Some(EXCLEXCL) then l + op else op + l)
  }

  /** `DecompilerTreeCallBinaryOp.produceSources`. */
  function BinaryText(info: CallInfo, parts: CallParts, isShorten: bool): (r: Result<string>)
    ensures r.Err? <==> info.origin.None? || BinaryOperator(info.origin.value).None?
    ensures r.Ok? && isShorten && info.origin == Some(EQEQ) ==>
      var right := RightOperand(parts.dispatchReceiver, parts.extensionReceiver, parts.valueArguments);
      r.value == (if right.Some? then right.value else "")
    ensures r.Ok? && info.origin.value in {EXCLEQ, EXCLEQEQ} && parts.valueArguments == [] ==>
      var left := LeftOperand(parts.dispatchReceiver, parts.extensionReceiver, parts.valueArguments);
      r.value == (if left.Some? then left.value else "")
    ensures (r.Ok? && !IsCompoundAssignment(info.origin.value) && !(isShorten && info.origin == Some(EQEQ))
      && !(info.origin.value in {EXCLEQ, EXCLEQEQ} && parts.valueArguments == [])) ==>
      var left := LeftOperand(parts.dispatchReceiver, parts.extensionReceiver, parts.valueArguments);
      var right := RightOperand(parts.dispatchReceiver, parts.extensionReceiver, parts.valueArguments);
      r.value == (if left.Some? && right.Some? then left.value + " " + BinaryOperator(info.origin.value).value + " " + right.value else "")
  {
    if info.origin.None? || BinaryOperator(info.origin.value).None? then Err("IllegalStateException: not a binary operation")
    else
      var o := info.origin.value;
      var op := BinaryOperator(o).value;
      var left := LeftOperand(parts.dispatchReceiver, parts.extensionReceiver, parts.valueArguments);
      var right := RightOperand(parts.dispatchReceiver, parts.extensionReceiver, parts.valueArguments);
      if IsCompoundAssignment(o) then
        var rhs := GetOrNull(parts.valueArguments, 0);
        if info.isDefaultPropertyAccessor then
          Ok(if info.correspondingPropertyName.Some? then
            info.correspondingPropertyName.value + " " + op + " " + (if rhs.Some? then rhs.value else "null")
            else "")
        else Ok(if rhs.Some? then rhs.value else "")
      else if isShorten && o == EQEQ then Ok(if right.Some? then right.value else "")
      else if o in {EXCLEQ, EXCLEQEQ} && parts.valueArguments == [] then Ok(if left.Some? then left.value else "")
      else Ok(if left.Some? && right.Some? then left.value + " " + op + " " + right.value else "")
  }

  /** A compound assignment to a property prints "p op= v", taking `v` from the first argument. */
  lemma CompoundAssignmentToProperty(info: CallInfo, parts: CallParts, p: string, v: string)
    requires info.origin.Some? && IsCompoundAssignment(info.origin.value)
    requires info.isDefaultPropertyAccessor && info.correspondingPropertyName == Some(p)
    requires parts.valueArguments != [] && parts.valueArguments[0] == v
    ensures BinaryText(info, parts, false) == Ok(p + " " + BinaryOperator(info.origin.value).value + " " + v)
  {
  }

  /** `DecompilerTreeCallAssignmentOp.produceSources`; the `check` on the accessor origin throws. */
  function AssignmentText(info: CallInfo, parts: CallParts): (r: Result<string>)
    ensures r.Err? <==> !info.isDefaultPropertyAccessor
    ensures r.Ok? ==>
      var left := LeftOperand(parts.dispatchReceiver, parts.extensionReceiver, parts.valueArguments);
      var right := RightOperand(parts.dispatchReceiver, parts.extensionReceiver, parts.valueArguments);
      var disp := if left.Some? then WithoutBrackets(left.value) + "." else "";
      var lhs := Text.RemoveSuffix(Text.RemovePrefix(info.calleeName, "<set-"), ">");
      r.value == (if right.None? then lhs + " = " + Text.SubstringBefore(disp, '.') else disp + lhs + " = " + right.value)
  {
    if !info.isDefaultPropertyAccessor then Err("IllegalStateException: Unexpected arguments in assignment operator!")
    else
      var left := LeftOperand(parts.dispatchReceiver, parts.extensionReceiver, parts.valueArguments);
      var right := RightOperand(parts.dispatchReceiver, parts.extensionReceiver, parts.valueArguments);
      var disp := if left.Some? then WithoutBrackets(left.value) + "." else "";
      var lhs := Text.RemoveSuffix(Text.RemovePrefix(info.calleeName, "<set-"), ">");
      Ok(if right.None? then lhs + " = " + Text.SubstringBefore(disp, '.') else disp + lhs + " = " + right.value)
  }

  /** The two operands of `in`/`!in`: the element from the right operand, the container from the left; `!!` throws. */
  function InOperands(parts: CallParts): (r: Result<(string, string)>)
    ensures r.Err? <==> (LeftOperand(parts.dispatchReceiver, parts.extensionReceiver, parts.valueArguments).None?
      || RightOperand(parts.dispatchReceiver, parts.extensionReceiver, parts.valueArguments).None?)
  {
    var left := LeftOperand(parts.dispatchReceiver, parts.extensionReceiver, parts.valueArguments);
    var right := RightOperand(parts.dispatchReceiver, parts.extensionReceiver, parts.valueArguments);
    if left.None? || right.None? then Err("NullPointerException")
    else Ok((Text.RemoveSuffix(Text.RemovePrefix(right.value, "<set-"), ">"), WithoutBrackets(left.value)))
  }

  /** `DecompilerTreeInOperatorCall.produceSources`: "e in c", or "in c" as a `when` branch. */
  function InText(parts: CallParts, isShorten: bool): (r: Result<string>)
    ensures r.Err? <==> InOperands(parts).Err?
    ensures r.Ok? ==> r.value == (if isShorten then "" else InOperands(parts).value.0 + " ") + "in " + InOperands(parts).value.1
  {
    match InOperands(parts)
    case Err(e) => Err(e)
    case Ok((element, container)) => Ok((if isShorten then "" else element + " ") + "in " + container)
  }

  /** `DecompilerTreeNotInOperatorCall.produceSources`: the receiver alone without arguments, else "e !in c". */
  function NotInText(parts: CallParts): (r: Result<string>)
    ensures parts.valueArguments == [] ==> (r.Err? <==> parts.dispatchReceiver.None?)
    ensures parts.valueArguments == [] && r.Ok? ==> r.value == parts.dispatchReceiver.value
    ensures parts.valueArguments != [] ==> (r.Err? <==> InOperands(parts).Err?)
    ensures parts.valueArguments != [] && r.Ok? ==> r.value == InOperands(parts).value.0 + " !in " + InOperands(parts).value.1
  {
    if parts.valueArguments == [] then
      if parts.dispatchReceiver.None? then Err("NullPointerException") else Ok(parts.dispatchReceiver.value)
    else
      match InOperands(parts)
      case Err(e) => Err(e)
      case Ok((element, container)) => Ok(element + " !in " + container)
  }

  /** `DecompilerTreeCallInvokeOp.produceSources`: the receiver followed by the arguments in parentheses. */
  function InvokeText(info: CallInfo, parts: CallParts): (r: Result<string>)
    ensures r.Err? <==> parts.dispatchReceiver.None? && parts.extensionReceiver.None?
    ensures r.Ok? ==>
      var argsText := if parts.valueArguments == [] then "()" else ValueArgumentsInsideParentheses(parts.valueArguments).value;
      r.value == (if parts.dispatchReceiver.Some? then ReceiverText(info.superQualifierName, parts.dispatchReceiver.value)
        else parts.extensionReceiver.value) + argsText
  {
    var argsText := if parts.valueArguments == [] then "()" else ValueArgumentsInsideParentheses(parts.valueArguments).value;
    if parts.dispatchReceiver.Some? then Ok(ReceiverText(info.superQualifierName, parts.dispatchReceiver.value) + argsText)
    else if parts.extensionReceiver.Some? then Ok(parts.extensionReceiver.value + argsText)
    else Err("IllegalStateException: INVOKE operator has no dispatcher or extension receiver!")
  }

  /** `DecompilerTreeCallRangeOp.produceSources`: "a..b"; a missing dispatch receiver or right operand throws. */
  function RangeText(parts: CallParts): (r: Result<string>)
    ensures r.Err? <==> parts.dispatchReceiver.None? || RightOperand(parts.dispatchReceiver, parts.extensionReceiver, parts.valueArguments).None?
    ensures r.Ok? ==> (r.value == WithoutBrackets(parts.dispatchReceiver.value) + ".."
      + WithoutBrackets(RightOperand(parts.dispatchReceiver, parts.extensionReceiver, parts.valueArguments).value))
  {
    var right := RightOperand(parts.dispatchReceiver, parts.extensionReceiver, parts.valueArguments);
    if parts.dispatchReceiver.None? || right.None? then Err("NullPointerException")
    else Ok(WithoutBrackets(parts.dispatchReceiver.value) + ".." + WithoutBrackets(right.value))
  }

  /** `DecompilerTreeInfixFunCall.produceSources`: "a name b"; a missing extension receiver or right operand throws. */
  function InfixText(info: CallInfo, parts: CallParts): (r: Result<string>)
    ensures r.Err? <==> parts.extensionReceiver.None? || RightOperand(parts.dispatchReceiver, parts.extensionReceiver, parts.valueArguments).None?
    ensures r.Ok? ==> (r.value == WithoutBrackets(parts.extensionReceiver.value) + " " + info.calleeName + " "
      + WithoutBrackets(RightOperand(parts.dispatchReceiver, parts.extensionReceiver, parts.valueArguments).value))
  {
    var right := RightOperand(parts.dispatchReceiver, parts.extensionReceiver, parts.valueArguments);
    if parts.extensionReceiver.None? || right.None? then Err("NullPointerException")
    else Ok(WithoutBrackets(parts.extensionReceiver.value) + " " + info.calleeName + " " + WithoutBrackets(right.value))
  }

  /** The text of the node `buildCall` makes, printed straight away (a fresh named call has separator "."). */
  function CallText(info: CallInfo, parts: CallParts, isInfix: bool, isWhenSubjectMember: bool): Result<string>
  {
    match BuildCall(info.origin, isInfix, isWhenSubjectMember)
    case UnaryOp => UnaryText(info, parts)
    case BinaryOp(isShorten) => BinaryText(info, parts, isShorten)
    case InOperator(isShorten) => InText(parts, isShorten)
    case NotInOperator => NotInText(parts)
    case AssignmentOp => AssignmentText(info, parts)
    case InvokeOp => InvokeText(info, parts)
    case GetPropertyCall => Ok(GetPropertyText(info, parts))
    case RangeOp => RangeText(parts)
    case InfixFunCall => InfixText(info, parts)
    case NamedCall => Ok(NamedCallText(info, parts, "."))
  }

  /** A unary or binary node made by `buildCall` never fails its origin `check`. */
  lemma BuiltOperatorPassesCheck(info: CallInfo, parts: CallParts, isInfix: bool, isWhenSubjectMember: bool)
    requires BuildCall(info.origin, isInfix, isWhenSubjectMember) == UnaryOp
      || BuildCall(info.origin, isInfix, isWhenSubjectMember).BinaryOp?
    ensures CallText(info, parts, isInfix, isWhenSubjectMember).Ok?
  {
  }

  /** The `when`-subject form of `x == c` prints just `c`. */
  lemma ShortenedEqualityPrintsRightOperand(info: CallInfo, parts: CallParts, isInfix: bool)
    requires info.origin == Some(EQEQ)
    ensures var right := RightOperand(parts.dispatchReceiver, parts.extensionReceiver, parts.valueArguments);
      CallText(info, parts, isInfix, true) == Ok(if right.Some? then right.value else "")
  {
  }

  /** Outside a `when` subject, `a == b` prints with the operator between its operands. */
  lemma EqualityPrintsBothOperands(info: CallInfo, a: string, b: string, isInfix: bool)
    requires info.origin == Some(EQEQ)
    ensures CallText(info, CallParts(Some(a), None, [b], []), isInfix, false) == Ok(a + " == " + b)
  {
    assert a + " " + "==" + " " + b == a + " == " + b;
  }
}
