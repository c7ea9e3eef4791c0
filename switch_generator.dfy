/**
 * `SwitchGenerator`: recognising a `when` whose conditions are `==` tests of one Int subject
 * against Int constants, and emitting it as a `lookupswitch` or a `tableswitch`
 * (sections 3.10 and 6.5 of the Java Virtual Machine Specification).
 */
module SwitchGenerator {
  import opened Wrappers
  import Ints

  type Label = nat

  datatype ConstKind = IntKind | BooleanKind | OtherKind

  /** The IR shapes `matchConditions` looks at; everything else is `OtherExpr`. */
  datatype IrExpr =
    | Call(isEqeqSymbol: bool, arg0: Option<IrExpr>, arg1: Option<IrExpr>)
    | GetValue(symbol: nat, isIntType: bool)
    | Const(kind: ConstKind, value: int)
    | When(isWhenComma: bool, branches: seq<IrBranch>)
    | OtherExpr(id: nat)

  datatype IrBranch = IrBranch(isElse: bool, condition: IrExpr, result: IrExpr)

  predicate IsTrueConst(e: IrExpr) { e == Const(BooleanKind, 1) }

  /** A leaf `subject == constant`, accepted when it reads an Int value and compares with an Int constant. */
  predicate IsLeaf(c: IrExpr)
  {
    c.Call? && c.isEqeqSymbol
    && c.arg0.Some? && c.arg0.value.GetValue? && c.arg0.value.isIntType
    && c.arg1.Some? && c.arg1.value.Const? && c.arg1.value.kind == IntKind && Ints.IsInt(c.arg1.value.value)
  }

  datatype Leaf = Leaf(symbol: nat, value: int)

  /** A condition tree made of accepted leaves and WHEN_COMMA disjunctions. */
  predicate Shaped(c: IrExpr)
    decreases c, 1
  {
    match c
    case Call(_, _, _) => IsLeaf(c)
    case When(comma, bs) => comma && BranchesShaped(c, |bs|)
    case _ => false
  }

  /** The part of a WHEN_COMMA branch holding a further condition ... */
  function Part(b: IrBranch): (r: IrExpr)
    ensures r < b
  {
    if b.isElse then b.result else b.condition
  }

  /** ... and the part that must be the constant `true`. */
  function Guard(b: IrBranch): IrExpr
  {
    if b.isElse then b.condition else b.result
  }

  /** The first `n` branches of a WHEN_COMMA: `cond -> true` or `else -> cond`. */
  predicate BranchesShaped(w: IrExpr, n: nat)
    requires w.When? && n <= |w.branches|
    decreases w, 0, n
  {
    n == 0 ||
    (BranchesShaped(w, n - 1) && IsTrueConst(Guard(w.branches[n - 1])) && Shaped(Part(w.branches[n - 1])))
  }

  /** The leaves of a condition tree in the order they are visited. */
  function Leaves(c: IrExpr): seq<Leaf>
    decreases c, 1
  {
    match c
    case Call(_, _, _) => if IsLeaf(c) then [Leaf(c.arg0.value.symbol, c.arg1.value.value)] else []
    case When(_, bs) => BranchLeaves(c, |bs|)
    case _ => []
  }

  function BranchLeaves(w: IrExpr, n: nat): seq<Leaf>
    requires w.When? && n <= |w.branches|
    decreases w, 0, n
  {
    if n == 0 then []
    else
      BranchLeaves(w, n - 1) + Leaves(Part(w.branches[n - 1]))
  }

  /** Every leaf reads the subject: the one already recorded, otherwise the first leaf's. */
  predicate AllMatch(leaves: seq<Leaf>, subject: Option<nat>)
  {
    forall i :: 0 <= i < |leaves| ==>
      leaves[i].symbol == (if subject.Some? then subject.value else leaves[0].symbol)
  }

  /** The subject recorded after visiting `leaves`. */
  function NextSubject(subject: Option<nat>, leaves: seq<Leaf>): Option<nat>
  {
    if subject.Some? then subject else if leaves == [] then None else Some(leaves[0].symbol)
  }

  lemma AllMatchAppend(a: seq<Leaf>, b: seq<Leaf>, s: Option<nat>)
    ensures AllMatch(a + b, s) <==> AllMatch(a, s) && AllMatch(b, NextSubject(s, a))
    ensures NextSubject(s, a + b) == NextSubject(NextSubject(s, a), b)
  {
    if s.None? && a == [] {
      assert a + b == b;
    } else if s.None? {
      assert (a + b)[0] == a[0];
      if AllMatch(a, s) && AllMatch(b, NextSubject(s, a)) {
        forall i | 0 <= i < |a + b| ensures (a + b)[i].symbol == a[0].symbol {
          if i >= |a| { assert (a + b)[i] == b[i - |a|]; }
        }
      }
      if AllMatch(a + b, s) {
        forall i | 0 <= i < |a| ensures a[i].symbol == a[0].symbol {
          assert (a + b)[i] == a[i];
        }
        forall i | 0 <= i < |b| ensures b[i].symbol == a[0].symbol {
          assert (a + b)[|a| + i] == b[i];
        }
      }
    } else {
      if AllMatch(a, s) && AllMatch(b, s) {
        forall i | 0 <= i < |a + b| ensures (a + b)[i].symbol == s.value {
          if i >= |a| { assert (a + b)[i] == b[i - |a|]; }
        }
      }
      if AllMatch(a + b, s) {
        forall i | 0 <= i < |a| ensures a[i].symbol == s.value {
          assert (a + b)[i] == a[i];
        }
        forall i | 0 <= i < |b| ensures b[i].symbol == s.value {
          assert (a + b)[|a| + i] == b[i];
        }
      }
    }
  }

  lemma {:induction false} BranchesShapedPrefix(w: IrExpr, m: nat, n: nat)
    requires w.When? && m <= n <= |w.branches|
    requires BranchesShaped(w, n)
    ensures BranchesShaped(w, m)
    decreases n
  {
    if m < n { BranchesShapedPrefix(w, m, n - 1); }
  }

  lemma {:induction false} BranchLeavesPrefix(w: IrExpr, m: nat, n: nat)
    requires w.When? && m <= n <= |w.branches|
    ensures BranchLeaves(w, m) <= BranchLeaves(w, n)
    decreases n
  {
    if m < n { BranchLeavesPrefix(w, m, n - 1); }
  }

  /** An accepted condition, given the subject recorded so far. */
  predicate Accepts(c: IrExpr, subject: Option<nat>)
  {
    Shaped(c) && AllMatch(Leaves(c), subject)
  }

  lemma LeafAccepts(c: IrExpr, s: Option<nat>)
    requires c.Call?
    ensures Accepts(c, s) <==> IsLeaf(c) && (s.Some? ==> c.arg0.value.symbol == s.value)
    ensures IsLeaf(c) ==> Leaves(c) == [Leaf(c.arg0.value.symbol, c.arg1.value.value)]
  {
    if IsLeaf(c) {
      var leaves := Leaves(c);
      assert leaves == [Leaf(c.arg0.value.symbol, c.arg1.value.value)];
      assert AllMatch(leaves, s) <==> (s.Some? ==> leaves[0].symbol == s.value);
    }
  }

  lemma AllMatchMiddle(a: seq<Leaf>, b: seq<Leaf>, rest: seq<Leaf>, s: Option<nat>)
    requires AllMatch(a + b + rest, s)
    ensures AllMatch(b, NextSubject(s, a))
  {
    AllMatchAppend(a + b, rest, s);
    AllMatchAppend(a, b, s);
  }

  lemma CommaGuardFails(c: IrExpr, i: nat, s: Option<nat>)
    requires c.When? && i < |c.branches| && !IsTrueConst(Guard(c.branches[i]))
    ensures !Accepts(c, s)
  {
    if Accepts(c, s) { BranchesShapedPrefix(c, i + 1, |c.branches|); }
  }

  lemma CommaPartFails(c: IrExpr, i: nat, s: Option<nat>)
    requires c.When? && i < |c.branches|
    requires !Accepts(Part(c.branches[i]), NextSubject(s, BranchLeaves(c, i)))
    ensures !Accepts(c, s)
  {
    if Accepts(c, s) {
      var n := |c.branches|;
      var part := Part(c.branches[i]);
      CommaAccepted(c, s);
      BranchesShapedPrefix(c, i + 1, n);
      assert Shaped(part);
      BranchLeavesPrefix(c, i + 1, n);
      var prefix := BranchLeaves(c, i + 1);
      AllMatchPrefix(prefix, BranchLeaves(c, n), s);
      assert prefix == BranchLeaves(c, i) + Leaves(part);
      AllMatchAppend(BranchLeaves(c, i), Leaves(part), s);
    }
  }

  /** An accepted WHEN_COMMA has all its branches shaped and its leaves matching. */
  lemma CommaAccepted(c: IrExpr, s: Option<nat>)
    requires c.When? && Accepts(c, s)
    ensures c.isWhenComma && BranchesShaped(c, |c.branches|) && AllMatch(BranchLeaves(c, |c.branches|), s)
  {
  }

  lemma AllMatchPrefix(a: seq<Leaf>, b: seq<Leaf>, s: Option<nat>)
    requires a <= b && AllMatch(b, s)
    ensures AllMatch(a, s)
  {
    if a != [] {
      assert a[0] == b[0];
      forall k | 0 <= k < |a| ensures a[k].symbol == (if s.Some? then s.value else a[0].symbol) {
        assert a[k] == b[k];
      }
    }
  }

  datatype Case = Case(value: int, target: Label)

  function Labeled(leaves: seq<Leaf>, target: Label): (r: seq<Case>)
    ensures |r| == |leaves|
    ensures forall i :: 0 <= i < |leaves| ==> r[i] == Case(leaves[i].value, target)
  {
    seq(|leaves|, i requires 0 <= i < |leaves| => Case(leaves[i].value, target))
  }

  /** A comma branch whose guard is `true` and whose part matches extends the matched prefix. */
  lemma CommaStep(c: IrExpr, i: nat, s: Option<nat>, target: Label)
    requires c.When? && i < |c.branches| && IsTrueConst(Guard(c.branches[i]))
    requires BranchesShaped(c, i) && AllMatch(BranchLeaves(c, i), s)
    requires Accepts(Part(c.branches[i]), NextSubject(s, BranchLeaves(c, i)))
    ensures BranchesShaped(c, i + 1) && AllMatch(BranchLeaves(c, i + 1), s)
    ensures NextSubject(s, BranchLeaves(c, i + 1)) == NextSubject(NextSubject(s, BranchLeaves(c, i)), Leaves(Part(c.branches[i])))
    ensures Labeled(BranchLeaves(c, i + 1), target) == Labeled(BranchLeaves(c, i), target) + Labeled(Leaves(Part(c.branches[i])), target)
  {
    var part := Part(c.branches[i]);
    assert BranchLeaves(c, i + 1) == BranchLeaves(c, i) + Leaves(part);
    AllMatchAppend(BranchLeaves(c, i), Leaves(part), s);
    LabeledAppend(BranchLeaves(c, i), Leaves(part), target);
  }

  /** Appending the cases of one more part to those recorded so far. */
  lemma CasesAppendAssoc(cases0: seq<Case>, a: seq<Case>, b: seq<Case>, before: seq<Case>, after: seq<Case>)
    requires before == cases0 + a && after == before + b
    ensures after == cases0 + (a + b)
  {
  }

  lemma LabeledAppend(a: seq<Leaf>, b: seq<Leaf>, target: Label)
    ensures Labeled(a + b, target) == Labeled(a, target) + Labeled(b, target)
  {
  }

  /** What the generator emits; `EvalExpr(e)` stands for the code generated for `e`. */
  datatype SwitchInsn =
    | LookupSwitch(defaultTarget: Label, keys: seq<int>, targets: seq<Label>)
    | TableSwitch(min: int, max: int, tableDefault: Label, table: seq<Label>)

  datatype GenStep =
    | LoadSubject(subjectSymbol: nat)
    | Switch(insn: SwitchInsn)
    | VisitLabel(at: Label)
    | EvalExpr(expr: IrExpr)
    | GoTo(target: Label)
    | PutUnitInstance
    | MarkLabel(mark: Label)

  /** The value `gen` returns: Unit on the stack when there is no else branch, else the else value. */
  datatype GenValue = UnitOnStack | ElseValue(elseExpr: IrExpr)

  // ---------------------------------------------------------------------------
  // The top level of `match`: every branch, in order, takes the next fresh label
  // (an else branch as the default label, any other as its then label).

  /** Label 0 is `endLabel`; branch `i` (0-based) takes label `i + 1`. */
  const END_LABEL: Label := 0

  datatype ThenExpr = ThenExpr(body: IrExpr, target: Label)

  predicate TopShaped(bs: seq<IrBranch>, n: nat)
    requires n <= |bs|
  {
    n == 0 || (TopShaped(bs, n - 1) && (bs[n - 1].isElse || Shaped(bs[n - 1].condition)))
  }

  function TopLeaves(bs: seq<IrBranch>, n: nat): seq<Leaf>
    requires n <= |bs|
  {
    if n == 0 then [] else TopLeaves(bs, n - 1) + (if bs[n - 1].isElse then [] else Leaves(bs[n - 1].condition))
  }

  function TopCases(bs: seq<IrBranch>, n: nat): (r: seq<Case>)
    requires n <= |bs|
    ensures |r| == |TopLeaves(bs, n)|
  {
    if n == 0 then [] else TopCases(bs, n - 1) + (if bs[n - 1].isElse then [] else Labeled(Leaves(bs[n - 1].condition), n))
  }

  function ThenExprs(bs: seq<IrBranch>, n: nat): seq<ThenExpr>
    requires n <= |bs|
  {
    if n == 0 then [] else ThenExprs(bs, n - 1) + (if bs[n - 1].isElse then [] else [ThenExpr(bs[n - 1].result, n)])
  }

  /** The label of the last else branch among the first `n`, or `END_LABEL`. */
  function DefaultAfter(bs: seq<IrBranch>, n: nat): Label
    requires n <= |bs|
  {
    if n == 0 then END_LABEL else if bs[n - 1].isElse then n else DefaultAfter(bs, n - 1)
  }

  function ElseAfter(bs: seq<IrBranch>, n: nat): Option<IrExpr>
    requires n <= |bs|
  {
    if n == 0 then None else if bs[n - 1].isElse then Some(bs[n - 1].result) else ElseAfter(bs, n - 1)
  }

  /** An else branch adds no leaf, case or then expression, and becomes the default. */
  lemma TopStepElse(bs: seq<IrBranch>, i: nat)
    requires i < |bs| && bs[i].isElse
    ensures TopShaped(bs, i + 1) == TopShaped(bs, i)
    ensures TopLeaves(bs, i + 1) == TopLeaves(bs, i) && TopCases(bs, i + 1) == TopCases(bs, i)
    ensures ThenExprs(bs, i + 1) == ThenExprs(bs, i)
    ensures DefaultAfter(bs, i + 1) == i + 1 && ElseAfter(bs, i + 1) == Some(bs[i].result)
  {
    assert TopLeaves(bs, i + 1) == TopLeaves(bs, i) + [];
    assert TopCases(bs, i + 1) == TopCases(bs, i) + [];
    assert ThenExprs(bs, i + 1) == ThenExprs(bs, i) + [];
  }

  /** Any other branch adds its condition's leaves and cases and one then expression. */
  lemma TopStepCondition(bs: seq<IrBranch>, i: nat)
    requires i < |bs| && !bs[i].isElse
    ensures TopShaped(bs, i + 1) == (TopShaped(bs, i) && Shaped(bs[i].condition))
    ensures TopLeaves(bs, i + 1) == TopLeaves(bs, i) + Leaves(bs[i].condition)
    ensures TopCases(bs, i + 1) == TopCases(bs, i) + Labeled(Leaves(bs[i].condition), i + 1)
    ensures ThenExprs(bs, i + 1) == ThenExprs(bs, i) + [ThenExpr(bs[i].result, i + 1)]
    ensures DefaultAfter(bs, i + 1) == DefaultAfter(bs, i) && ElseAfter(bs, i + 1) == ElseAfter(bs, i)
  {
  }

  /** The whole `when` can be emitted as a switch. */
  predicate Switchable(bs: seq<IrBranch>)
  {
    TopShaped(bs, |bs|) && AllMatch(TopLeaves(bs, |bs|), None) && |TopLeaves(bs, |bs|)| > 1
  }

  /** Once every branch has matched, the `when` is a switch exactly when it has more than one case. */
  lemma SwitchableIffSeveralCases(bs: seq<IrBranch>)
    requires TopShaped(bs, |bs|) && AllMatch(TopLeaves(bs, |bs|), None)
    ensures Switchable(bs) <==> |TopCases(bs, |bs|)| > 1
  {
  }

  lemma {:induction false} TopShapedPrefix(bs: seq<IrBranch>, m: nat, n: nat)
    requires m <= n <= |bs| && TopShaped(bs, n)
    ensures TopShaped(bs, m)
    decreases n
  {
    if m < n { TopShapedPrefix(bs, m, n - 1); }
  }

  lemma TopPartFails(bs: seq<IrBranch>, i: nat)
    requires i < |bs| && !bs[i].isElse
    requires !Accepts(bs[i].condition, NextSubject(None, TopLeaves(bs, i)))
    ensures !Switchable(bs)
  {
    if Switchable(bs) {
      TopShapedPrefix(bs, i + 1, |bs|);
    }
  }

  lemma {:induction false} TopLeavesPrefix(bs: seq<IrBranch>, m: nat, n: nat)
    requires m <= n <= |bs|
    ensures TopLeaves(bs, m) <= TopLeaves(bs, n)
    decreases n
  {
    if m < n { TopLeavesPrefix(bs, m, n - 1); }
  }

  /** `defaultLabel` stays `endLabel` exactly when the `when` has no else branch. */
  lemma {:induction false} DefaultIsEndIffNoElse(bs: seq<IrBranch>, n: nat)
    requires n <= |bs|
    ensures DefaultAfter(bs, n) == END_LABEL <==> forall i :: 0 <= i < n ==> !bs[i].isElse
    ensures DefaultAfter(bs, n) == END_LABEL <==> ElseAfter(bs, n).None?
    ensures DefaultAfter(bs, n) != END_LABEL ==> DefaultAfter(bs, n) <= n && bs[DefaultAfter(bs, n) - 1].isElse
  {
    if n > 0 { DefaultIsEndIffNoElse(bs, n - 1); }
  }

  /**
   * Every recorded case jumps to the then label of a non-else branch, carries a constant that
   * branch's condition tests, and so never jumps to the default label.
   */
  lemma CasesTargetThenBranches(bs: seq<IrBranch>, n: nat, k: nat)
    requires n <= |bs| && k < |TopCases(bs, n)|
    ensures var c := TopCases(bs, n)[k];
      1 <= c.target <= n && !bs[c.target - 1].isElse
      && HasLeafValue(Leaves(bs[c.target - 1].condition), c.value)
      && c.target != DefaultAfter(bs, n)
  {
    CaseTargetsCondition(bs, n, k);
    DefaultIsEndIffNoElse(bs, n);
  }

  /** The case jumps to a non-else branch among the first `n` whose condition tests the case's constant. */
  predicate TargetsCondition(bs: seq<IrBranch>, n: nat, c: Case)
    requires n <= |bs|
  {
    1 <= c.target <= n && !bs[c.target - 1].isElse && HasLeafValue(Leaves(bs[c.target - 1].condition), c.value)
  }

  /** A recorded case jumps to a non-else branch whose condition tests the case's constant. */
  lemma {:induction false} CaseTargetsCondition(bs: seq<IrBranch>, n: nat, k: nat)
    requires n <= |bs| && k < |TopCases(bs, n)|
    ensures TargetsCondition(bs, n, TopCases(bs, n)[k])
  {
    assert n > 0;
    if k < |TopCases(bs, n - 1)| {
      CaseTargetsCondition(bs, n - 1, k);
      EarlierCase(bs, n, k);
      TargetsConditionLater(bs, n, TopCases(bs, n - 1)[k]);
    } else {
      LastBranchCase(bs, n, k);
    }
  }

  /** A case that targets one of the first `n - 1` branches targets one of the first `n`. */
  lemma TargetsConditionLater(bs: seq<IrBranch>, n: nat, c: Case)
    requires 0 < n <= |bs| && TargetsCondition(bs, n - 1, c)
    ensures TargetsCondition(bs, n, c)
  {
  }

  /** The cases recorded before branch `n` are kept as they were. */
  lemma EarlierCase(bs: seq<IrBranch>, n: nat, k: nat)
    requires 0 < n <= |bs| && k < |TopCases(bs, n - 1)|
    ensures k < |TopCases(bs, n)| && TopCases(bs, n)[k] == TopCases(bs, n - 1)[k]
  {
  }

  /** A case recorded by branch `n` jumps to that branch and carries one of its constants. */
  lemma LastBranchCase(bs: seq<IrBranch>, n: nat, k: nat)
    requires 0 < n <= |bs| && |TopCases(bs, n - 1)| <= k < |TopCases(bs, n)|
    ensures TargetsCondition(bs, n, TopCases(bs, n)[k])
  {
    var prev := TopCases(bs, n - 1);
    var leaves := Leaves(bs[n - 1].condition);
    assert TopCases(bs, n) == prev + (if bs[n - 1].isElse then [] else Labeled(leaves, n));
    assert !bs[n - 1].isElse;
    var cs := Labeled(leaves, n);
    assert TopCases(bs, n)[k] == cs[k - |prev|] by {
      assert TopCases(bs, n) == prev + cs;
    }
    LabeledTargets(leaves, n, k - |prev|);
  }

  lemma LabeledTargets(leaves: seq<Leaf>, target: Label, i: nat)
    requires i < |leaves|
    ensures Labeled(leaves, target)[i].target == target
    ensures HasLeafValue(leaves, Labeled(leaves, target)[i].value)
  {
    assert leaves[i].value == Labeled(leaves, target)[i].value;
  }

  predicate HasLeafValue(leaves: seq<Leaf>, v: int)
  {
    exists j :: 0 <= j < |leaves| && leaves[j].value == v
  }

  /** Each non-else branch contributes one then expression, in order, under its own label. */
  lemma {:induction false} ThenExprsLabels(bs: seq<IrBranch>, n: nat, k: nat)
    requires n <= |bs| && k < |ThenExprs(bs, n)|
    ensures var t := ThenExprs(bs, n)[k];
      1 <= t.target <= n && !bs[t.target - 1].isElse && t.body == bs[t.target - 1].result
    ensures forall j :: k < j < |ThenExprs(bs, n)| ==> ThenExprs(bs, n)[k].target < ThenExprs(bs, n)[j].target
  {
    var prev := ThenExprs(bs, n - 1);
    if k < |prev| {
      ThenExprsLabels(bs, n - 1, k);
      forall j | k < j < |ThenExprs(bs, n)| ensures ThenExprs(bs, n)[k].target < ThenExprs(bs, n)[j].target {
        if j < |prev| {
          assert ThenExprs(bs, n)[j] == prev[j];
        } else {
          ThenExprsLabels(bs, n - 1, k);
        }
      }
    }
  }

  // ---------------------------------------------------------------------------
  // `cases.sortBy { it.first }`: a stable sort by constant.

  predicate Sorted(cs: seq<Case>)
  {
    forall i, j :: 0 <= i < j < |cs| ==> cs[i].value <= cs[j].value
  }

  function Insert(s: seq<Case>, c: Case): (r: seq<Case>)
    ensures multiset(r) == multiset(s) + multiset{c} && |r| == |s| + 1
    decreases |s|
  {
    if s == [] then [c]
    else if s[|s| - 1].value <= c.value then s + [c]
    else
      assert s == s[..|s| - 1] + [s[|s| - 1]];
      Insert(s[..|s| - 1], c) + [s[|s| - 1]]
  }

  lemma {:induction false} InsertSorted(s: seq<Case>, c: Case)
    requires Sorted(s)
    ensures Sorted(Insert(s, c))
    decreases |s|
  {
    if s != [] && s[|s| - 1].value > c.value {
      var init, last := s[..|s| - 1], s[|s| - 1];
      SortedInit(s);
      InsertSorted(init, c);
      var r0 := Insert(init, c);
      assert forall x :: x in r0 ==> x.value <= last.value by {
        forall x | x in r0 ensures x.value <= last.value {
          assert x in multiset(r0);
          if x != c { assert x in multiset(init); }
        }
      }
      SortedSnoc(r0, last);
    }
  }

  /** Dropping the last case keeps the order, and the dropped case is at least every other. */
  lemma SortedInit(s: seq<Case>)
    requires Sorted(s) && s != []
    ensures Sorted(s[..|s| - 1]) && forall x :: x in s[..|s| - 1] ==> x.value <= s[|s| - 1].value
  {
    var init := s[..|s| - 1];
    forall i, j | 0 <= i < j < |init| ensures init[i].value <= init[j].value {
      assert init[i] == s[i] && init[j] == s[j];
    }
    forall x | x in init ensures x.value <= s[|s| - 1].value {
      var i :| 0 <= i < |init| && init[i] == x;
      assert s[i] == x;
    }
  }

  /** A case at least every other one may be appended. */
  lemma SortedSnoc(r: seq<Case>, last: Case)
    requires Sorted(r) && forall x :: x in r ==> x.value <= last.value
    ensures Sorted(r + [last])
  {
    var t := r + [last];
    forall i, j | 0 <= i < j < |t| ensures t[i].value <= t[j].value {
      assert t[i] == r[i];
      if j < |r| {
        assert t[j] == r[j];
      } else {
        assert r[i] in r;
      }
    }
  }

  lemma {:induction false} InsertDistinct(s: seq<Case>, c: Case)
    requires Distinct(s) && forall x :: x in s ==> x.value != c.value
    ensures Distinct(Insert(s, c))
    decreases |s|
  {
    if s != [] && s[|s| - 1].value > c.value {
      var init, last := s[..|s| - 1], s[|s| - 1];
      DistinctInit(s);
      assert forall x :: x in init ==> x.value != c.value by {
        forall x | x in init ensures x.value != c.value { assert x in s; }
      }
      InsertDistinct(init, c);
      var r0 := Insert(init, c);
      assert forall x :: x in r0 ==> x.value != last.value by {
        forall x | x in r0 ensures x.value != last.value {
          assert x in multiset(r0);
          if x != c { assert x in multiset(init); }
        }
      }
      DistinctSnoc(r0, last);
    }
  }

  /** Dropping the last case keeps the constants distinct, and none of the others has the dropped one's. */
  lemma DistinctInit(s: seq<Case>)
    requires Distinct(s) && s != []
    ensures Distinct(s[..|s| - 1]) && forall x :: x in s[..|s| - 1] ==> x.value != s[|s| - 1].value
  {
    var init := s[..|s| - 1];
    forall i, j | 0 <= i < |init| && 0 <= j < |init| && i != j ensures init[i].value != init[j].value {
      assert init[i] == s[i] && init[j] == s[j];
    }
    forall x | x in init ensures x.value != s[|s| - 1].value {
      var i :| 0 <= i < |init| && init[i] == x;
      assert s[i] == x;
    }
  }

  /** A case whose constant none of the others has may be appended. */
  lemma DistinctSnoc(r: seq<Case>, last: Case)
    requires Distinct(r) && forall x :: x in r ==> x.value != last.value
    ensures Distinct(r + [last])
  {
    var t := r + [last];
    forall i, j | 0 <= i < |t| && 0 <= j < |t| && i != j ensures t[i].value != t[j].value {
      if i < |r| && j < |r| {
        assert t[i] == r[i] && t[j] == r[j];
      } else if i < |r| {
        assert t[i] == r[i] && r[i] in r;
      } else if j < |r| {
        assert t[j] == r[j] && r[j] in r;
      }
    }
  }

  /** The cases in ascending order of constant, equal constants keeping their relative order. */
  function SortCases(s: seq<Case>): (r: seq<Case>)
    ensures multiset(r) == multiset(s) && |r| == |s|
    ensures Sorted(r)
    ensures forall v :: WithConstant(r, v) == WithConstant(s, v)
  {
    if s == [] then []
    else
      var init, last := s[..|s| - 1], s[|s| - 1];
      assert s == init + [last];
      var sorted := SortCases(init);
      InsertSorted(sorted, last);
      InsertKeepsOrder(init, last, sorted);
      Insert(sorted, last)
  }

  // ---------------------------------------------------------------------------
  // The cases of one constant, in order: what a stable sort keeps.

  /** The cases whose constant is `v`, in their order. */
  function WithConstant(cs: seq<Case>, v: int): seq<Case>
  {
    if cs == [] then []
    else WithConstant(cs[..|cs| - 1], v) + (if cs[|cs| - 1].value == v then [cs[|cs| - 1]] else [])
  }

  lemma WithConstantSnoc(cs: seq<Case>, c: Case, v: int)
    ensures WithConstant(cs + [c], v) == WithConstant(cs, v) + (if c.value == v then [c] else [])
  {
    assert (cs + [c])[..|cs|] == cs;
  }

  lemma {:induction false} WithConstantConcat(a: seq<Case>, b: seq<Case>, v: int)
    ensures WithConstant(a + b, v) == WithConstant(a, v) + WithConstant(b, v)
    decreases |b|
  {
    if b == [] {
      assert a + b == a;
    } else {
      var init, last := b[..|b| - 1], b[|b| - 1];
      assert b == init + [last];
      assert a + b == (a + init) + [last];
      WithConstantSnoc(a + init, last, v);
      WithConstantSnoc(init, last, v);
      WithConstantConcat(a, init, v);
    }
  }

  /** None is kept exactly when no case has the constant. */
  lemma {:induction false} WithConstantEmpty(cs: seq<Case>, v: int)
    ensures WithConstant(cs, v) == [] <==> forall i :: 0 <= i < |cs| ==> cs[i].value != v
    decreases |cs|
  {
    if cs != [] {
      var init := cs[..|cs| - 1];
      WithConstantEmpty(init, v);
      assert forall i :: 0 <= i < |init| ==> init[i] == cs[i];
    }
  }

  /** With distinct constants at most one case has a given constant. */
  lemma {:induction false} DistinctHasOneWithConstant(cs: seq<Case>, v: int)
    requires Distinct(cs)
    ensures |WithConstant(cs, v)| <= 1
    decreases |cs|
  {
    if cs != [] {
      var init := cs[..|cs| - 1];
      DistinctInit(cs);
      DistinctHasOneWithConstant(init, v);
      if cs[|cs| - 1].value == v {
        assert forall i :: 0 <= i < |init| ==> init[i] in init;
        WithConstantEmpty(init, v);
      }
    }
  }

  /** Inserting a case puts it after the cases with its constant and leaves every other constant's cases alone. */
  lemma {:induction false} InsertStable(s: seq<Case>, c: Case, v: int)
    ensures WithConstant(Insert(s, c), v) == WithConstant(s, v) + (if c.value == v then [c] else [])
    decreases |s|
  {
    if s == [] || s[|s| - 1].value <= c.value {
      InsertStableAppend(s, c, v);
    } else {
      InsertStable(s[..|s| - 1], c, v);
      InsertStableShift(s, c, v);
    }
  }

  /** A case no smaller than the last goes at the end. */
  lemma InsertStableAppend(s: seq<Case>, c: Case, v: int)
    requires s == [] || s[|s| - 1].value <= c.value
    ensures WithConstant(Insert(s, c), v) == WithConstant(s, v) + (if c.value == v then [c] else [])
  {
    if s == [] {
      WithConstantSnoc([], c, v);
      assert [] + [c] == [c];
    } else {
      WithConstantSnoc(s, c, v);
    }
  }

  /** A case smaller than the last goes into the rest, in front of the last. */
  lemma InsertStableShift(s: seq<Case>, c: Case, v: int)
    requires s != [] && c.value < s[|s| - 1].value
    requires WithConstant(Insert(s[..|s| - 1], c), v) == WithConstant(s[..|s| - 1], v) + (if c.value == v then [c] else [])
    ensures WithConstant(Insert(s, c), v) == WithConstant(s, v) + (if c.value == v then [c] else [])
  {
    var init, last := s[..|s| - 1], s[|s| - 1];
    var ins := Insert(init, c);
    assert Insert(s, c) == ins + [last];
    WithConstantSnoc(ins, last, v);
    assert WithConstant(s, v) == WithConstant(init, v) + (if last.value == v then [last] else []);
    SwapSingletons(WithConstant(init, v), c, last, v);
  }

  /** Of two cases with different constants, at most one has constant `v`, so their order does not matter to it. */
  lemma SwapSingletons(w: seq<Case>, c: Case, last: Case, v: int)
    requires c.value < last.value
    ensures (w + (if c.value == v then [c] else [])) + (if last.value == v then [last] else [])
      == (w + (if last.value == v then [last] else [])) + (if c.value == v then [c] else [])
  {
    if c.value == v {
      assert (w + [c]) + [] == (w + []) + [c];
    } else if last.value == v {
      assert (w + []) + [last] == (w + [last]) + [];
    } else {
      assert (w + []) + [] == w;
    }
  }

  lemma InsertKeepsOrder(init: seq<Case>, last: Case, sorted: seq<Case>)
    requires forall v :: WithConstant(sorted, v) == WithConstant(init, v)
    ensures forall v :: WithConstant(Insert(sorted, last), v) == WithConstant(init + [last], v)
  {
    forall v ensures WithConstant(Insert(sorted, last), v) == WithConstant(init + [last], v) {
      InsertStable(sorted, last, v);
      WithConstantSnoc(init, last, v);
    }
  }

  lemma SortKeepsInts(s: seq<Case>)
    requires IntCases(s)
    ensures IntCases(SortCases(s))
  {
    var r := SortCases(s);
    forall i | 0 <= i < |r| ensures Ints.IsInt(r[i].value) {
      assert r[i] in multiset(r);
    }
  }

  lemma {:induction false} SortKeepsDistinct(s: seq<Case>)
    requires Distinct(s)
    ensures Distinct(SortCases(s))
    decreases |s|
  {
    if s != [] {
      var init, last := s[..|s| - 1], s[|s| - 1];
      assert s == init + [last];
      assert Distinct(init) by {
        forall i, j | 0 <= i < |init| && 0 <= j < |init| && i != j ensures init[i].value != init[j].value {
          assert init[i] == s[i] && init[j] == s[j];
        }
      }
      SortKeepsDistinct(init);
      var sorted := SortCases(init);
      forall x | x in sorted ensures x.value != last.value {
        assert x in multiset(sorted);
        var i :| 0 <= i < |init| && init[i] == x;
        assert s[i] == x;
      }
      InsertDistinct(sorted, last);
    }
  }

  // ---------------------------------------------------------------------------
  // Choosing and filling the switch instruction.

  predicate IntCases(cs: seq<Case>) { forall i :: 0 <= i < |cs| ==> Ints.IsInt(cs[i].value) }

  predicate Distinct(cs: seq<Case>)
  {
    forall i, j :: 0 <= i < |cs| && 0 <= j < |cs| && i != j ==> cs[i].value != cs[j].value
  }

  /** The number of table entries from `min` to `max`, computed on 64-bit integers. */
  function RangeLength(min: int, max: int): (r: int)
    requires Ints.IsInt(min) && Ints.IsInt(max) && min <= max
    ensures Ints.IsLong(r) && r >= 1
  {
    max - min + 1
  }

  /** The target of the last case whose constant is `v`, or `d`. */
  function LastTarget(cs: seq<Case>, v: int, d: Label): Label
  {
    if cs == [] then d
    else if cs[|cs| - 1].value == v then cs[|cs| - 1].target
    else LastTarget(cs[..|cs| - 1], v, d)
  }

  /** Entry `i` is the target for the value `min + i`. */
  function Table(cs: seq<Case>, min: int, len: nat, d: Label): (r: seq<Label>)
    ensures |r| == len
    ensures forall i :: 0 <= i < len ==> r[i] == LastTarget(cs, min + i, d)
  {
    if len == 0 then [] else Table(cs, min, len - 1, d) + [LastTarget(cs, min + len - 1, d)]
  }

  function Keys(cs: seq<Case>): (r: seq<int>)
    ensures |r| == |cs| && forall i :: 0 <= i < |cs| ==> r[i] == cs[i].value
  {
    seq(|cs|, i requires 0 <= i < |cs| => cs[i].value)
  }

  function Targets(cs: seq<Case>): (r: seq<Label>)
    ensures |r| == |cs| && forall i :: 0 <= i < |cs| ==> r[i] == cs[i].target
  {
    seq(|cs|, i requires 0 <= i < |cs| => cs[i].target)
  }

  /**
   * lookupswitch when the range is more than twice the number of cases, with the constants as keys in
   * their order; tableswitch otherwise, from the least to the greatest constant, each entry the label
   * of the last case with that value.
   */
  function SwitchFor(cs: seq<Case>, d: Label): (r: SwitchInsn)
    requires |cs| > 0 && Sorted(cs) && IntCases(cs)
    ensures r.LookupSwitch? <==> RangeLength(cs[0].value, cs[|cs| - 1].value) > 2 * |cs|
    ensures r.LookupSwitch? ==>
      r.defaultTarget == d && |r.keys| == |r.targets| == |cs|
      && forall i :: 0 <= i < |cs| ==> r.keys[i] == cs[i].value && r.targets[i] == cs[i].target
    ensures r.TableSwitch? ==>
      r.min == cs[0].value && r.max == cs[|cs| - 1].value && r.tableDefault == d
      && |r.table| == r.max - r.min + 1
      && forall i :: 0 <= i < |r.table| ==> r.table[i] == LastTarget(cs, r.min + i, d)
  {
    var min, max := cs[0].value, cs[|cs| - 1].value;
    var range := RangeLength(min, max);
    if range > 2 * |cs| then LookupSwitch(d, Keys(cs), Targets(cs))
    else TableSwitch(min, max, d, Table(cs, min, range, d))
  }

  /** Where the instruction sends the value `x` (section 6.5 of the JVM specification). */
  function Dispatch(insn: SwitchInsn, x: int): Label
  {
    match insn
    case LookupSwitch(d, keys, targets) => KeyTarget(keys, targets, x, d)
    case TableSwitch(lo, hi, d, table) =>
      if lo <= x <= hi && x - lo < |table| then table[x - lo] else d
  }

  /** The target paired with the first key equal to `x`, or `d`. */
  function KeyTarget(keys: seq<int>, targets: seq<Label>, x: int, d: Label): Label
  {
    if keys == [] || targets == [] then d
    else if keys[0] == x then targets[0]
    else KeyTarget(keys[1..], targets[1..], x, d)
  }

  /** How `when` picks a branch for `v`: the target of the first case with constant `v`, or `d`. */
  function FirstTarget(cs: seq<Case>, v: int, d: Label): Label
  {
    var w := WithConstant(cs, v);
    if w == [] then d else w[0].target
  }

  /** `FirstTarget` is the target of the case with constant `v` that no earlier case shares, or `d` when no case has it. */
  lemma FirstTargetIsFirstBranch(cs: seq<Case>, v: int, d: Label)
    ensures forall i :: 0 <= i < |cs| && cs[i].value == v && (forall j :: 0 <= j < i ==> cs[j].value != v) ==>
      FirstTarget(cs, v, d) == cs[i].target
    ensures (forall i :: 0 <= i < |cs| ==> cs[i].value != v) ==> FirstTarget(cs, v, d) == d
  {
    WithConstantEmpty(cs, v);
    forall i | 0 <= i < |cs| && cs[i].value == v && (forall j :: 0 <= j < i ==> cs[j].value != v)
      ensures FirstTarget(cs, v, d) == cs[i].target
    {
      var before, after := cs[..i], cs[i + 1..];
      assert cs == before + ([cs[i]] + after);
      assert forall j :: 0 <= j < |before| ==> before[j] == cs[j];
      WithConstantEmpty(before, v);
      WithConstantConcat(before, [cs[i]] + after, v);
      WithConstantConcat([cs[i]], after, v);
      WithConstantSnoc([], cs[i], v);
      assert [] + [cs[i]] == [cs[i]];
    }
  }

  /** The last case with constant `v` decides `LastTarget`. */
  lemma {:induction false} LastTargetOfConstant(cs: seq<Case>, v: int, d: Label)
    ensures var w := WithConstant(cs, v); LastTarget(cs, v, d) == if w == [] then d else w[|w| - 1].target
    decreases |cs|
  {
    if cs != [] {
      LastTargetOfConstant(cs[..|cs| - 1], v, d);
    }
  }

  /** A `lookupswitch` over the cases' keys goes to the first case with the value. */
  lemma {:induction false} KeyTargetIsFirst(cs: seq<Case>, x: int, d: Label)
    ensures KeyTarget(Keys(cs), Targets(cs), x, d) == FirstTarget(cs, x, d)
    decreases |cs|
  {
    if cs != [] {
      assert cs == [cs[0]] + cs[1..];
      WithConstantConcat([cs[0]], cs[1..], x);
      WithConstantSnoc([], cs[0], x);
      assert [] + [cs[0]] == [cs[0]];
      if cs[0].value != x {
        assert Keys(cs)[1..] == Keys(cs[1..]) && Targets(cs)[1..] == Targets(cs[1..]);
        KeyTargetIsFirst(cs[1..], x, d);
      }
    }
  }

  /** With distinct constants, the last (and only) case with constant `x` decides, else `d`. */
  lemma {:induction false} LastTargetOfMember(cs: seq<Case>, x: int, d: Label)
    requires Distinct(cs)
    ensures forall i :: 0 <= i < |cs| && cs[i].value == x ==> LastTarget(cs, x, d) == cs[i].target
    ensures (forall i :: 0 <= i < |cs| ==> cs[i].value != x) ==> LastTarget(cs, x, d) == d
    decreases |cs|
  {
    if cs != [] {
      var init := cs[..|cs| - 1];
      assert Distinct(init);
      LastTargetOfMember(init, x, d);
    }
  }

  /**
   * Where the switch for sorted cases sends `x`: a `tableswitch` to the last case with that constant
   * (a later write into the table overwrites an earlier one), a `lookupswitch` to the first (its
   * first matching key), and both to the default label when no case has it. With distinct
   * constants both go to the one case carrying `x`.
   */
  lemma DispatchSelectsCase(cs: seq<Case>, d: Label, x: int)
    requires |cs| > 0 && Sorted(cs) && IntCases(cs)
    ensures SwitchFor(cs, d).TableSwitch? ==> Dispatch(SwitchFor(cs, d), x) == LastTarget(cs, x, d)
    ensures SwitchFor(cs, d).LookupSwitch? ==> Dispatch(SwitchFor(cs, d), x) == FirstTarget(cs, x, d)
    ensures (forall i :: 0 <= i < |cs| ==> cs[i].value != x) ==> Dispatch(SwitchFor(cs, d), x) == d
    ensures Distinct(cs) ==> forall i :: 0 <= i < |cs| && cs[i].value == x ==> Dispatch(SwitchFor(cs, d), x) == cs[i].target
  {
    DispatchIsLastOrFirst(cs, d, x);
    TargetsOfAbsentOrDistinct(cs, x, d);
  }

  /** Without a case for `x` both choices give `d`; with distinct constants both give the case carrying `x`. */
  lemma TargetsOfAbsentOrDistinct(cs: seq<Case>, x: int, d: Label)
    ensures (forall i :: 0 <= i < |cs| ==> cs[i].value != x) ==> LastTarget(cs, x, d) == d && FirstTarget(cs, x, d) == d
    ensures Distinct(cs) ==> forall i :: 0 <= i < |cs| && cs[i].value == x ==>
      LastTarget(cs, x, d) == cs[i].target && FirstTarget(cs, x, d) == cs[i].target
  {
    LastTargetOfConstant(cs, x, d);
    WithConstantEmpty(cs, x);
    FirstTargetIsFirstBranch(cs, x, d);
    if Distinct(cs) {
      LastTargetOfMember(cs, x, d);
    }
  }

  /** Both choices depend only on the cases with constant `x`. */
  lemma SameConstantSameTargets(a: seq<Case>, b: seq<Case>, x: int, d: Label)
    requires WithConstant(a, x) == WithConstant(b, x)
    ensures LastTarget(a, x, d) == LastTarget(b, x, d) && FirstTarget(a, x, d) == FirstTarget(b, x, d)
  {
    LastTargetOfConstant(a, x, d);
    LastTargetOfConstant(b, x, d);
  }

  lemma DispatchIsLastOrFirst(cs: seq<Case>, d: Label, x: int)
    requires |cs| > 0 && Sorted(cs) && IntCases(cs)
    ensures SwitchFor(cs, d).TableSwitch? ==> Dispatch(SwitchFor(cs, d), x) == LastTarget(cs, x, d)
    ensures SwitchFor(cs, d).LookupSwitch? ==> Dispatch(SwitchFor(cs, d), x) == FirstTarget(cs, x, d)
  {
    if RangeLength(cs[0].value, cs[|cs| - 1].value) > 2 * |cs| {
      LookupBranch(cs, d, x);
    } else {
      TableBranch(cs, d, x);
    }
  }

  /** A wide range gives a `lookupswitch`, which goes to the first case with the value. */
  lemma LookupBranch(cs: seq<Case>, d: Label, x: int)
    requires |cs| > 0 && Sorted(cs) && IntCases(cs)
    requires RangeLength(cs[0].value, cs[|cs| - 1].value) > 2 * |cs|
    ensures SwitchFor(cs, d).LookupSwitch? && Dispatch(SwitchFor(cs, d), x) == FirstTarget(cs, x, d)
  {
    assert SwitchFor(cs, d) == LookupSwitch(d, Keys(cs), Targets(cs));
    KeyTargetIsFirst(cs, x, d);
  }

  /** A narrow range gives a `tableswitch`, which goes to the last case with the value. */
  lemma TableBranch(cs: seq<Case>, d: Label, x: int)
    requires |cs| > 0 && Sorted(cs) && IntCases(cs)
    requires RangeLength(cs[0].value, cs[|cs| - 1].value) <= 2 * |cs|
    ensures SwitchFor(cs, d).TableSwitch? && Dispatch(SwitchFor(cs, d), x) == LastTarget(cs, x, d)
  {
    var min, max := cs[0].value, cs[|cs| - 1].value;
    assert SwitchFor(cs, d) == TableSwitch(min, max, d, Table(cs, min, RangeLength(min, max), d));
    SortedWithinEnds(cs);
    TableDispatch(cs, min, max, d, x);
  }

  /** Sorted cases lie between the first constant and the last. */
  lemma SortedWithinEnds(cs: seq<Case>)
    requires |cs| > 0 && Sorted(cs)
    ensures forall i :: 0 <= i < |cs| ==> cs[0].value <= cs[i].value <= cs[|cs| - 1].value
  {
  }

  /** A table over `[min, max]` holding every case's constant sends `x` where `LastTarget` says. */
  lemma TableDispatch(cs: seq<Case>, min: int, max: int, d: Label, x: int)
    requires min <= max && forall i :: 0 <= i < |cs| ==> min <= cs[i].value <= max
    ensures Dispatch(TableSwitch(min, max, d, Table(cs, min, max - min + 1, d)), x) == LastTarget(cs, x, d)
  {
    if !(min <= x <= max) {
      WithConstantEmpty(cs, x);
      LastTargetOfConstant(cs, x, d);
    }
  }

  /**
   * The switch `gen` emits, stated over the cases in the order `match` recorded them: sorting
   * keeps each constant's cases in order, so a `tableswitch` goes to the last recorded case with
   * the value and a `lookupswitch` to the first; with distinct constants, to the one that has it.
   */
  lemma SortedDispatchSelectsCase(cs: seq<Case>, d: Label, x: int)
    requires |cs| > 0 && IntCases(cs)
    ensures IntCases(SortCases(cs))
    ensures SwitchFor(SortCases(cs), d).TableSwitch? ==> Dispatch(SwitchFor(SortCases(cs), d), x) == LastTarget(cs, x, d)
    ensures SwitchFor(SortCases(cs), d).LookupSwitch? ==> Dispatch(SwitchFor(SortCases(cs), d), x) == FirstTarget(cs, x, d)
    ensures (forall i :: 0 <= i < |cs| ==> cs[i].value != x) ==> Dispatch(SwitchFor(SortCases(cs), d), x) == d
    ensures Distinct(cs) ==> forall i :: 0 <= i < |cs| && cs[i].value == x ==> Dispatch(SwitchFor(SortCases(cs), d), x) == cs[i].target
  {
    SortKeepsInts(cs);
    var sc := SortCases(cs);
    DispatchIsLastOrFirst(sc, d, x);
    SameConstantSameTargets(sc, cs, x, d);
    TargetsOfAbsentOrDistinct(cs, x, d);
  }

  /** The keys of a `lookupswitch` strictly increase, as section 4.10.1.9 of the JVM specification requires. */
  predicate KeysIncrease(insn: SwitchInsn)
  {
    insn.LookupSwitch? ==> forall i, j :: 0 <= i < j < |insn.keys| ==> insn.keys[i] < insn.keys[j]
  }

  /** `when (x) { 1 -> a; 1 -> b; else -> c }` and `when (x) { 1 -> a; 1 -> b; 9 -> c }` as `gen` emits them. */
  lemma DuplicateConstantMiscompiles()
    ensures var cs := [Case(1, 1), Case(1, 2)];
      SwitchFor(cs, 3).TableSwitch? && Dispatch(SwitchFor(cs, 3), 1) == 2 && FirstTarget(cs, 1, 3) == 1
    ensures var cs := [Case(1, 1), Case(1, 2), Case(9, 3)];
      SwitchFor(cs, END_LABEL) == LookupSwitch(END_LABEL, [1, 1, 9], [1, 2, 3])
      && !KeysIncrease(SwitchFor(cs, END_LABEL))
  {
    SortTwoDuplicates();
    DuplicatesTable();
    SortThreeCases();
    DuplicatesLookup();
  }

  lemma SortTwoDuplicates()
    ensures SortCases([Case(1, 1), Case(1, 2)]) == [Case(1, 1), Case(1, 2)]
  {
    var one, two := [Case(1, 1)], [Case(1, 1), Case(1, 2)];
    assert one[..0] == [];
    assert SortCases(one) == Insert([], Case(1, 1)) == one;
    assert two[..1] == one;
    assert SortCases(two) == Insert(one, Case(1, 2));
  }

  lemma DuplicatesTable()
    ensures var cs := [Case(1, 1), Case(1, 2)];
      SwitchFor(cs, 3) == TableSwitch(1, 1, 3, [2]) && FirstTarget(cs, 1, 3) == 1
  {
    var one, two := [Case(1, 1)], [Case(1, 1), Case(1, 2)];
    assert two[..1] == one && one[..0] == [];
    assert LastTarget(two, 1, 3) == 2;
    assert Table(two, 1, 1, 3) == [2];
    assert WithConstant(one, 1) == [Case(1, 1)];
    assert WithConstant(two, 1) == two;
  }

  lemma SortThreeCases()
    ensures SortCases([Case(1, 1), Case(1, 2), Case(9, 3)]) == [Case(1, 1), Case(1, 2), Case(9, 3)]
  {
    var two, three := [Case(1, 1), Case(1, 2)], [Case(1, 1), Case(1, 2), Case(9, 3)];
    SortTwoDuplicates();
    assert three[..2] == two;
    assert SortCases(three) == Insert(two, Case(9, 3));
  }

  lemma DuplicatesLookup()
    ensures var cs := [Case(1, 1), Case(1, 2), Case(9, 3)];
      SwitchFor(cs, END_LABEL) == LookupSwitch(END_LABEL, [1, 1, 9], [1, 2, 3])
      && !KeysIncrease(SwitchFor(cs, END_LABEL))
  {
    var three := [Case(1, 1), Case(1, 2), Case(9, 3)];
    assert Keys(three) == [1, 1, 9] && Targets(three) == [1, 2, 3];
    assert RangeLength(1, 9) == 9;
    var keys := SwitchFor(three, END_LABEL).keys;
    assert keys[0] == keys[1];
  }

  // ---------------------------------------------------------------------------
  // The corrected emission: only the first case of each constant goes into the switch.

  /** The cases without those whose constant an earlier case already has. */
  function FirstOfEach(cs: seq<Case>): (r: seq<Case>)
    ensures forall i :: 0 <= i < |r| ==> r[i] in cs
    ensures cs != [] ==> r != []
  {
    if cs == [] then []
    else
      var init, last := cs[..|cs| - 1], cs[|cs| - 1];
      var rest := FirstOfEach(init);
      assert forall i :: 0 <= i < |rest| ==> rest[i] in cs by {
        forall i | 0 <= i < |rest| ensures rest[i] in cs {
          var k :| 0 <= k < |init| && init[k] == rest[i];
          assert cs[k] == init[k];
        }
      }
      rest + (if WithConstant(init, last.value) == [] then [last] else [])
  }

  /** Of each constant's cases, only the first is kept. */
  lemma {:induction false} FirstOfEachKeepsFirst(cs: seq<Case>, v: int)
    ensures var w := WithConstant(cs, v); WithConstant(FirstOfEach(cs), v) == if w == [] then [] else [w[0]]
    decreases |cs|
  {
    if cs != [] {
      var init, last := cs[..|cs| - 1], cs[|cs| - 1];
      FirstOfEachKeepsFirst(init, v);
      var kept := if WithConstant(init, last.value) == [] then [last] else [];
      WithConstantConcat(FirstOfEach(init), kept, v);
      if kept != [] {
        WithConstantSnoc([], last, v);
        assert [] + [last] == [last];
      }
    }
  }

  /** The kept cases have distinct constants, and keep the order and the Int range of the cases. */
  lemma FirstOfEachKeeps(cs: seq<Case>)
    ensures Distinct(FirstOfEach(cs))
    ensures Sorted(cs) ==> Sorted(FirstOfEach(cs))
    ensures IntCases(cs) ==> IntCases(FirstOfEach(cs))
  {
    var r := FirstOfEach(cs);
    forall i, j | 0 <= i < |r| && 0 <= j < |r| && i != j ensures r[i].value != r[j].value {
      FirstOfEachPositions(cs, i, j);
    }
    if Sorted(cs) {
      FirstOfEachSorted(cs);
    }
    if IntCases(cs) {
      forall i | 0 <= i < |r| ensures Ints.IsInt(r[i].value) {
        var k :| 0 <= k < |cs| && cs[k] == r[i];
      }
    }
  }

  lemma FirstOfEachPositions(cs: seq<Case>, i: nat, j: nat)
    requires i < |FirstOfEach(cs)| && j < |FirstOfEach(cs)| && i != j
    ensures FirstOfEach(cs)[i].value != FirstOfEach(cs)[j].value
  {
    var r := FirstOfEach(cs);
    var v := r[i].value;
    FirstOfEachKeepsFirst(cs, v);
    WithConstantCounts(r, i, j);
  }

  /** Two cases with the same constant both show among that constant's cases. */
  lemma {:induction false} WithConstantCounts(cs: seq<Case>, i: nat, j: nat)
    requires i < |cs| && j < |cs| && i != j
    ensures cs[i].value == cs[j].value ==> |WithConstant(cs, cs[i].value)| >= 2
    decreases |cs|
  {
    var init, last := cs[..|cs| - 1], cs[|cs| - 1];
    var v := cs[i].value;
    if cs[j].value == v {
      if i == |cs| - 1 || j == |cs| - 1 {
        var k := if i == |cs| - 1 then j else i;
        assert init[k] == cs[k];
        WithConstantEmpty(init, v);
      } else {
        assert init[i] == cs[i] && init[j] == cs[j];
        WithConstantCounts(init, i, j);
      }
    }
  }

  lemma {:induction false} FirstOfEachSorted(cs: seq<Case>)
    requires Sorted(cs)
    ensures Sorted(FirstOfEach(cs))
    decreases |cs|
  {
    if cs != [] {
      var init, last := cs[..|cs| - 1], cs[|cs| - 1];
      var rest := FirstOfEach(init);
      assert Sorted(init) by {
        forall i, j | 0 <= i < j < |init| ensures init[i].value <= init[j].value {
          assert init[i] == cs[i] && init[j] == cs[j];
        }
      }
      FirstOfEachSorted(init);
      forall i | 0 <= i < |rest| ensures rest[i].value <= last.value {
        var k :| 0 <= k < |init| && init[k] == rest[i];
        assert cs[k] == init[k];
      }
    }
  }

  /**
   * `gen` with only the first case of each constant in the switch: every value goes to the first
   * of the sorted cases that carries it, or to `d`, and the `lookupswitch` keys strictly increase.
   */
  function FirstWinsSwitch(sorted: seq<Case>, d: Label): (r: SwitchInsn)
    requires |sorted| > 0 && Sorted(sorted) && IntCases(sorted)
    ensures KeysIncrease(r)
    ensures forall x :: Dispatch(r, x) == FirstTarget(sorted, x, d)
  {
    FirstOfEachKeeps(sorted);
    var kept := FirstOfEach(sorted);
    DistinctKeysIncrease(kept, d);
    var r := SwitchFor(kept, d);
    assert forall x :: Dispatch(r, x) == FirstTarget(sorted, x, d) by {
      forall x ensures Dispatch(r, x) == FirstTarget(sorted, x, d) {
        OneCaseDispatch(kept, d, x);
        FirstOfEachKeepsFirst(sorted, x);
      }
    }
    r
  }

  /**
   * The corrected switch sends every value to the first case, in the order `match` recorded the
   * cases, that carries it, which is `when`'s first matching branch, and every other value to the
   * default label; its `lookupswitch` keys strictly increase.
   */
  lemma FirstWinsDispatch(cs: seq<Case>, d: Label, x: int)
    requires |cs| > 0 && IntCases(cs)
    ensures |SortCases(cs)| > 0 && IntCases(SortCases(cs))
    ensures Dispatch(FirstWinsSwitch(SortCases(cs), d), x) == FirstTarget(cs, x, d)
    ensures KeysIncrease(FirstWinsSwitch(SortCases(cs), d))
  {
    SortKeepsInts(cs);
    var sc := SortCases(cs);
    FirstOfEachKeeps(sc);
    var r := FirstOfEach(sc);
    OneCaseDispatch(r, d, x);
    FirstOfEachKeepsFirst(sc, x);
    assert WithConstant(sc, x) == WithConstant(cs, x);
    DistinctKeysIncrease(r, d);
  }

  /** With distinct sorted cases both kinds of switch send `x` to its first (and only) case. */
  lemma OneCaseDispatch(r: seq<Case>, d: Label, x: int)
    requires |r| > 0 && Sorted(r) && IntCases(r) && Distinct(r)
    ensures Dispatch(SwitchFor(r, d), x) == FirstTarget(r, x, d)
  {
    DispatchIsLastOrFirst(r, d, x);
    DistinctHasOneWithConstant(r, x);
    LastTargetOfConstant(r, x, d);
  }

  lemma DistinctKeysIncrease(r: seq<Case>, d: Label)
    requires |r| > 0 && Sorted(r) && IntCases(r) && Distinct(r)
    ensures KeysIncrease(SwitchFor(r, d))
  {
    var insn := SwitchFor(r, d);
    if insn.LookupSwitch? {
      assert insn.keys == Keys(r);
      forall i, j | 0 <= i < j < |insn.keys| ensures insn.keys[i] < insn.keys[j] {
        assert insn.keys[i] == r[i].value && insn.keys[j] == r[j].value;
      }
    }
  }

  // ---------------------------------------------------------------------------
  // The range length as written: `caseMax - caseMin` is an Int subtraction, widened only afterwards.

  function RangeLengthAsWritten(min: int, max: int): (r: int)
    requires Ints.IsInt(min) && Ints.IsInt(max)
    ensures r == Ints.WrapInt(max - min) + 1
  {
    Ints.WrapInt(max - min) + 1
  }

  /** `gen` with the Int-wrapped range: the label array and its writes may fail. */
  function SwitchForAsWritten(cs: seq<Case>, d: Label): Result<SwitchInsn>
    requires |cs| > 0 && Sorted(cs) && IntCases(cs)
  {
    var min, max := cs[0].value, cs[|cs| - 1].value;
    var range := RangeLengthAsWritten(min, max);
    if range > 2 * |cs| then Ok(LookupSwitch(d, Keys(cs), Targets(cs)))
    else if range < 0 then Err("NegativeArraySizeException")
    else if forall i :: 0 <= i < |cs| ==> 0 <= Ints.WrapInt(cs[i].value - min) < range then
      Ok(TableSwitch(min, max, d, Table(cs, min, range, d)))
    else Err("ArrayIndexOutOfBoundsException")
  }

  /** `when (x) { Int.MIN_VALUE -> a; Int.MAX_VALUE -> b }`: the wrapped range is 0 and the first write fails. */
  lemma RangeLengthOverflows()
    ensures var cs := [Case(Ints.INT_MIN, 1), Case(Ints.INT_MAX, 2)];
      RangeLengthAsWritten(Ints.INT_MIN, Ints.INT_MAX) == 0
      && SwitchForAsWritten(cs, END_LABEL) == Err("ArrayIndexOutOfBoundsException")
      && SwitchFor(cs, END_LABEL).LookupSwitch?
  {
    var cs := [Case(Ints.INT_MIN, 1), Case(Ints.INT_MAX, 2)];
    assert Ints.WrapInt(Ints.INT_MIN - Ints.INT_MIN) == 0;
  }

  /** Whenever the 64-bit range fits in an Int the two computations agree. */
  lemma RangeLengthAgrees(min: int, max: int)
    requires Ints.IsInt(min) && Ints.IsInt(max) && min <= max && Ints.IsInt(max - min)
    ensures RangeLengthAsWritten(min, max) == RangeLength(min, max)
  {
  }

  // ---------------------------------------------------------------------------
  // Code emitted after the switch instruction.

  function ThenCode(tes: seq<ThenExpr>, end: Label): seq<GenStep>
  {
    if tes == [] then []
    else ThenCode(tes[..|tes| - 1], end) + [VisitLabel(tes[|tes| - 1].target), EvalExpr(tes[|tes| - 1].body), GoTo(end)]
  }

  function ElseCode(defaultLabel: Label, end: Label, elseExpr: Option<IrExpr>): seq<GenStep>
  {
    if defaultLabel == end || elseExpr.None? then [PutUnitInstance]
    else [VisitLabel(defaultLabel), EvalExpr(elseExpr.value)]
  }

  /** The switch instruction for sorted cases, filling the label table in place. */
  method EmitSwitch(cases: seq<Case>, defaultLabel: Label) returns (insn: SwitchInsn)
    requires |cases| > 0 && Sorted(cases) && IntCases(cases)
    ensures insn == SwitchFor(cases, defaultLabel)
  {
    var caseMin := cases[0].value;
    var caseMax := cases[|cases| - 1].value;
    var rangeLength := RangeLength(caseMin, caseMax);
    if rangeLength > 2 * |cases| {
      insn := LookupSwitch(defaultLabel, Keys(cases), Targets(cases));
    } else {
      var labels := new Label[rangeLength](_ => defaultLabel);
      var k := 0;
      while k < |cases|
        invariant 0 <= k <= |cases|
        invariant forall i :: 0 <= i < rangeLength ==> labels[i] == LastTarget(cases[..k], caseMin + i, defaultLabel)
      {
        var v := cases[k].value;
        assert caseMin <= v <= caseMax by { assert cases[0].value <= v <= cases[|cases| - 1].value; }
        labels[v - caseMin] := cases[k].target;
        assert cases[..k + 1][..k] == cases[..k];
        k := k + 1;
      }
      assert cases[..|cases|] == cases;
      insn := TableSwitch(caseMin, caseMax, defaultLabel, labels[..]);
    }
  }

  /** For each then expression: its label, its code, and a jump to the end. */
  method EmitThenExpressions(tes: seq<ThenExpr>, end: Label) returns (steps: seq<GenStep>)
    ensures steps == ThenCode(tes, end)
  {
    steps := [];
    var i := 0;
    while i < |tes|
      invariant 0 <= i <= |tes|
      invariant steps == ThenCode(tes[..i], end)
    {
      steps := steps + [VisitLabel(tes[i].target), EvalExpr(tes[i].body), GoTo(end)];
      assert tes[..i + 1][..i] == tes[..i];
      i := i + 1;
    }
    assert tes[..|tes|] == tes;
  }

  class Generator {
    const branches: seq<IrBranch>
    const endLabel: Label
    var defaultLabel: Label
    var elseExpression: Option<IrExpr>
    var cases: seq<Case>
    var thenExpressions: seq<ThenExpr>
    var subject: Option<nat>
    var nextLabel: Label

    constructor(branches: seq<IrBranch>)
      ensures this.branches == branches && endLabel == END_LABEL && defaultLabel == END_LABEL
      ensures elseExpression == None && cases == [] && thenExpressions == [] && subject == None
      ensures nextLabel == END_LABEL + 1
    {
      this.branches := branches;
      endLabel := END_LABEL;
      defaultLabel := END_LABEL;
      elseExpression := None;
      cases := [];
      thenExpressions := [];
      subject := None;
      nextLabel := END_LABEL + 1;
    }

    /** `Label()`: a label distinct from every label handed out before. */
    method NewLabel() returns (l: Label)
      modifies this`nextLabel
      ensures l == old(nextLabel) && nextLabel == l + 1
    {
      l := nextLabel;
      nextLabel := nextLabel + 1;
    }

    /** `matchConditions`: record the cases of one condition under `thenLabel`. */
    method MatchConditions(c: IrExpr, thenLabel: Label) returns (ok: bool)
      modifies this`cases, this`subject
      ensures ok <==> Accepts(c, old(subject))
      ensures ok ==> subject == NextSubject(old(subject), Leaves(c))
      ensures ok ==> cases == old(cases) + Labeled(Leaves(c), thenLabel)
      decreases c, 2
    {
      if c.Call? {
        ok := MatchLeaf(c, thenLabel);
      } else if c.When? && c.isWhenComma {
        ok := MatchComma(c, thenLabel);
      } else {
        ok := false;
      }
    }

    method MatchLeaf(c: IrExpr, thenLabel: Label) returns (ok: bool)
      requires c.Call?
      modifies this`cases, this`subject
      ensures ok <==> Accepts(c, old(subject))
      ensures ok ==> subject == NextSubject(old(subject), Leaves(c))
      ensures ok ==> cases == old(cases) + Labeled(Leaves(c), thenLabel)
    {
      LeafAccepts(c, subject);
      if !c.isEqeqSymbol { return false; }
      if c.arg0.None? || !c.arg0.value.GetValue? { return false; }
      var candidate := c.arg0.value;
      if subject.None? { subject := Some(candidate.symbol); }
      if candidate.symbol != subject.value { return false; }
      if !candidate.isIntType { return false; }
      if c.arg1.None? || !c.arg1.value.Const? { return false; }
      if c.arg1.value.kind != IntKind || !Ints.IsInt(c.arg1.value.value) { return false; }
      cases := cases + [Case(c.arg1.value.value, thenLabel)];
      return true;
    }

    /** What `matchConditions` has recorded after the first `n` branches of a WHEN_COMMA. */
    ghost predicate CommaMatchedUpTo(c: IrExpr, n: nat, subject0: Option<nat>, cases0: seq<Case>, thenLabel: Label)
      requires c.When? && n <= |c.branches|
      reads this
    {
      BranchesShaped(c, n) && AllMatch(BranchLeaves(c, n), subject0)
      && subject == NextSubject(subject0, BranchLeaves(c, n))
      && cases == cases0 + Labeled(BranchLeaves(c, n), thenLabel)
    }

    method MatchComma(c: IrExpr, thenLabel: Label) returns (ok: bool)
      requires c.When? && c.isWhenComma
      modifies this`cases, this`subject
      ensures ok <==> Accepts(c, old(subject))
      ensures ok ==> subject == NextSubject(old(subject), Leaves(c))
      ensures ok ==> cases == old(cases) + Labeled(Leaves(c), thenLabel)
      decreases c, 1
    {
      var i := 0;
      while i < |c.branches|
        invariant 0 <= i <= |c.branches| && CommaMatchedUpTo(c, i, old(subject), old(cases), thenLabel)
      {
        var r := MatchCommaBranch(c, i, thenLabel, old(subject), old(cases));
        if !r { return false; }
        i := i + 1;
      }
      return true;
    }

    /** One iteration of the WHEN_COMMA loop: the guard must be `true` and the part must match. */
    method MatchCommaBranch(c: IrExpr, i: nat, thenLabel: Label, ghost subject0: Option<nat>, ghost cases0: seq<Case>)
        returns (ok: bool)
      requires c.When? && i < |c.branches| && CommaMatchedUpTo(c, i, subject0, cases0, thenLabel)
      modifies this`cases, this`subject
      ensures ok ==> CommaMatchedUpTo(c, i + 1, subject0, cases0, thenLabel)
      ensures !ok ==> !Accepts(c, subject0)
      decreases c, 0
    {
      var b := c.branches[i];
      var part, guard := Part(b), Guard(b);
      if !IsTrueConst(guard) {
        CommaGuardFails(c, i, subject0);
        return false;
      }
      ghost var casesBefore := cases;
      var r := MatchConditions(part, thenLabel);
      if !r {
        CommaPartFails(c, i, subject0);
        return false;
      }
      CommaStep(c, i, subject0, thenLabel);
      CasesAppendAssoc(cases0, Labeled(BranchLeaves(c, i), thenLabel), Labeled(Leaves(part), thenLabel), casesBefore, cases);
      return true;
    }

    /** What `match()` has built after the first `n` branches. */
    predicate MatchedUpTo(n: nat)
      requires n <= |branches|
      reads this
    {
      nextLabel == n + 1
      && TopShaped(branches, n) && AllMatch(TopLeaves(branches, n), None)
      && subject == NextSubject(None, TopLeaves(branches, n))
      && cases == TopCases(branches, n) && thenExpressions == ThenExprs(branches, n)
      && defaultLabel == DefaultAfter(branches, n) && elseExpression == ElseAfter(branches, n)
    }

    /** One iteration of `match()`'s loop: branch `i` takes the next label and records its cases. */
    method MatchBranch(i: nat) returns (ok: bool)
      requires i < |branches| && MatchedUpTo(i)
      modifies this`defaultLabel, this`elseExpression, this`cases, this`thenExpressions, this`subject, this`nextLabel
      ensures ok ==> MatchedUpTo(i + 1)
      ensures !ok ==> !Switchable(branches)
    {
      var b := branches[i];
      if b.isElse {
        TopStepElse(branches, i);
        elseExpression := Some(b.result);
        defaultLabel := NewLabel();
      } else {
        TopStepCondition(branches, i);
        var thenLabel := NewLabel();
        thenExpressions := thenExpressions + [ThenExpr(b.result, thenLabel)];
        ghost var before := TopLeaves(branches, i);
        var r := MatchConditions(b.condition, thenLabel);
        AllMatchAppend(before, Leaves(b.condition), None);
        if !r {
          TopPartFails(branches, i);
          return false;
        }
      }
      return true;
    }

    /** `match()`, on a freshly constructed generator. */
    method Match() returns (ok: bool)
      requires defaultLabel == endLabel == END_LABEL && nextLabel == END_LABEL + 1
      requires elseExpression == None && cases == [] && thenExpressions == [] && subject == None
      modifies this
      ensures ok <==> Switchable(branches)
      ensures ok ==> cases == TopCases(branches, |branches|) && thenExpressions == ThenExprs(branches, |branches|)
      ensures ok ==> defaultLabel == DefaultAfter(branches, |branches|) && elseExpression == ElseAfter(branches, |branches|)
      ensures ok ==> subject == NextSubject(None, TopLeaves(branches, |branches|))
    {
      var i := 0;
      while i < |branches|
        invariant 0 <= i <= |branches| && MatchedUpTo(i)
      {
        var r := MatchBranch(i);
        if !r { return false; }
        i := i + 1;
      }
      SwitchableIffSeveralCases(branches);
      if |cases| <= 1 { return false; }
      return true;
    }

    /** The state `gen()` may be called in: a successful `match()`. */
    predicate Matched()
      reads this
    {
      |cases| > 1 && subject.Some? && IntCases(cases)
    }

    /** `gen()`: sort the cases, emit the switch over the first case of each constant, then every then branch, then the else part. */
    method Gen() returns (steps: seq<GenStep>, value: GenValue)
      requires Matched()
      modifies this`cases
      ensures cases == SortCases(old(cases)) && IntCases(cases)
      ensures steps == [LoadSubject(subject.value), Switch(FirstWinsSwitch(cases, defaultLabel))]
        + ThenCode(thenExpressions, endLabel) + ElseCode(defaultLabel, endLabel, elseExpression) + [MarkLabel(endLabel)]
      ensures value == if defaultLabel == endLabel || elseExpression.None? then UnitOnStack else ElseValue(elseExpression.value)
    {
      SortKeepsInts(cases);
      cases := SortCases(cases);
      FirstOfEachKeeps(cases);
      var insn := EmitSwitch(FirstOfEach(cases), defaultLabel);
      var thenCode := EmitThenExpressions(thenExpressions, endLabel);
      steps := [LoadSubject(subject.value), Switch(insn)] + thenCode;
      if defaultLabel == endLabel || elseExpression.None? {
        steps := steps + [PutUnitInstance];
        value := UnitOnStack;
      } else {
        steps := steps + [VisitLabel(defaultLabel), EvalExpr(elseExpression.value)];
        value := ElseValue(elseExpression.value);
      }
      steps := steps + [MarkLabel(endLabel)];
    }
  }
}
