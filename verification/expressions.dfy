/** The alarm expression tree (`AlarmExpression`), its operator tokens and
    its four-valued evaluation.

    A C++ node owns up to two child expressions and shares up to two values
    with the alarm that registered them. Here the sharing is explicit: a
    comparison leaf names its two values by their position in the alarm's
    value list (a `ValueRef`), and evaluation reads the current values from
    that list. A position outside the list plays the part of a null pointer.
 */
module Expressions {
  import opened Wrappers
  import opened Qualities
  import opened Values

  /** The four outcomes of an evaluation. */
  datatype AlarmReturn = True | False | Outdated | Undefined

  datatype ExpressionOp = Or | And | Xor | Not

  datatype ValueOp = Eq | Neq | Lt | LtEq | Gt | GtEq

  /** Position of a value in the owning alarm's value list. */
  type ValueRef = nat

  /** The node shapes the constructors build. Every node carries the
      `lifetime` field, 0 (unlimited) unless set; evaluation never reads it.
      `Empty` is a node with neither children nor values, the state the
      declared default constructor would leave. */
  datatype Expr =
    | Empty(lifetime: int)
    | Binary(op: ExpressionOp, left: Expr, right: Expr, lifetime: int)
    | Unary(op: ExpressionOp, child: Expr, lifetime: int)
    | Comparison(valueOp: ValueOp, lhs: ValueRef, rhs: ValueRef, lifetime: int)

  const UnlimitedLifetime: int := 0

  const CompareTypeError: Error := FatalException("Compare objects are different")
  const EmptyExpressionError: Error := FatalException("Neither value nor expression set - empty expression")
  const EvaluationError: Error := FatalException("Expression evaluation error")

  // ---------------------------------------------------------------------------
  // Operator tokens

  /** The token a relational operator is written with. */
  function ValueOpToken(op: ValueOp): string {
    match op
    case Eq => "=="
    case Neq => "!="
    case Lt => "<"
    case LtEq => "<="
    case Gt => ">"
    case GtEq => ">="
  }

  /** `parseValueOp`. Only `"=="` gives equality; `"!="` and all four
      ordering tokens give inequality. */
  function ParseValueOp(token: string): (r: Result<ValueOp>)
    ensures r.Ok? <==> exists op :: token == ValueOpToken(op)
    ensures r.Ok? ==> (r.value == Eq <==> token == "==") && (r.value == Eq || r.value == Neq)
    ensures r.Err? ==> r.error == FatalException("Unknown value operator '" + token + "'")
  {
    if token == "==" then assert token == ValueOpToken(Eq); Ok(Eq)
    else if token == "!=" then assert token == ValueOpToken(Neq); Ok(Neq)
    else if token == "<" then assert token == ValueOpToken(Lt); Ok(Neq)
    else if token == "<=" then assert token == ValueOpToken(LtEq); Ok(Neq)
    else if token == ">" then assert token == ValueOpToken(Gt); Ok(Neq)
    else if token == ">=" then assert token == ValueOpToken(GtEq); Ok(Neq)
    else Err(FatalException("Unknown value operator '" + token + "'"))
  }

  /** Printing then parsing a relational operator gives it back only for
      `==` and `!=`; every ordering operator comes back as `!=`. */
  lemma ValueOpTokenRoundTrip(op: ValueOp)
    ensures ParseValueOp(ValueOpToken(op)) == Ok(if op == Eq then Eq else Neq)
    ensures ParseValueOp(ValueOpToken(op)) == Ok(op) <==> op == Eq || op == Neq
  {
  }

  /** The token a boolean operator is written with. */
  function ExpressionOpToken(op: ExpressionOp): string {
    match op
    case Or => "|"
    case And => "&"
    case Xor => "^"
    case Not => "!"
  }

  /** `parseExpresionOp`. */
  function ParseExpressionOp(token: string): (r: Result<ExpressionOp>)
    ensures r.Ok? <==> exists op :: token == ExpressionOpToken(op)
    ensures r.Err? ==> r.error == FatalException("Unknown expression operator '" + token + "'")
  {
    if token == "|" then assert token == ExpressionOpToken(Or); Ok(Or)
    else if token == "&" then assert token == ExpressionOpToken(And); Ok(And)
    else if token == "^" then assert token == ExpressionOpToken(Xor); Ok(Xor)
    else if token == "!" then assert token == ExpressionOpToken(Not); Ok(Not)
    else Err(FatalException("Unknown expression operator '" + token + "'"))
  }

  /** Boolean operator tokens and operators are in one-to-one correspondence. */
  lemma ExpressionOpTokenRoundTrip(op: ExpressionOp, token: string)
    ensures ParseExpressionOp(ExpressionOpToken(op)) == Ok(op)
    ensures ParseExpressionOp(token) == Ok(op) ==> token == ExpressionOpToken(op)
  {
  }

  // ---------------------------------------------------------------------------
  // Node constructors

  /** `AlarmExpression(op, left, right)`: a binary boolean node. */
  function MakeBinary(token: string, left: Expr, right: Expr): (r: Result<Expr>)
    ensures r.Ok? <==> ParseExpressionOp(token).Ok?
    ensures r.Ok? ==> r.value.Binary? && r.value.left == left && r.value.right == right
    ensures r.Ok? ==> token == ExpressionOpToken(r.value.op) && r.value.lifetime == UnlimitedLifetime
    ensures r.Err? ==> r == Err(ParseExpressionOp(token).error)
  {
    var op :- ParseExpressionOp(token);
    Ok(Binary(op, left, right, UnlimitedLifetime))
  }

  /** `AlarmExpression(op, left)`: a unary boolean node. */
  function MakeUnary(token: string, child: Expr): (r: Result<Expr>)
    ensures r.Ok? <==> ParseExpressionOp(token).Ok?
    ensures r.Ok? ==> r.value.Unary? && r.value.child == child
    ensures r.Ok? ==> token == ExpressionOpToken(r.value.op) && r.value.lifetime == UnlimitedLifetime
    ensures r.Err? ==> r == Err(ParseExpressionOp(token).error)
  {
    var op :- ParseExpressionOp(token);
    Ok(Unary(op, child, UnlimitedLifetime))
  }

  /** `AlarmExpression(op, left, right)` over two values. The operator is
      parsed first (it is the first member initialised); then two values of
      different type hashes are refused and no node is built. The values must
      exist: the constructor dereferences both pointers. */
  function MakeComparison(token: string, vals: seq<Value>, lhs: ValueRef, rhs: ValueRef): (r: Result<Expr>)
    requires lhs < |vals| && rhs < |vals|
    ensures r.Ok? <==> ParseValueOp(token).Ok? && TypeHash(vals[lhs]) == TypeHash(vals[rhs])
    ensures ParseValueOp(token).Err? ==> r == Err(ParseValueOp(token).error)
    ensures ParseValueOp(token).Ok? && TypeHash(vals[lhs]) != TypeHash(vals[rhs]) ==> r == Err(CompareTypeError)
    ensures r.Ok? ==> r.value == Comparison(ParseValueOp(token).value, lhs, rhs, UnlimitedLifetime)
  {
    var op :- ParseValueOp(token);
    if TypeHash(vals[lhs]) != TypeHash(vals[rhs]) then Err(CompareTypeError)
    else Ok(Comparison(op, lhs, rhs, UnlimitedLifetime))
  }

  /** Any two parsed values, a literal and a check value included, pass the
      type check. */
  lemma ParsedValuesComparable(token: string, vals: seq<Value>, lhs: ValueRef, rhs: ValueRef, s: string, t: string)
    requires lhs < |vals| && rhs < |vals|
    requires ParseValue(s) == Ok(vals[lhs]) && ParseValue(t) == Ok(vals[rhs])
    requires ParseValueOp(token).Ok?
    ensures MakeComparison(token, vals, lhs, rhs).Ok?
  {
  }

  /** A base value cannot be compared with a concrete one. */
  lemma BaseValueNotComparable(vals: seq<Value>, lhs: ValueRef, rhs: ValueRef)
    requires lhs < |vals| && rhs < |vals|
    requires vals[lhs].BaseValue? && !vals[rhs].BaseValue?
    ensures MakeComparison("==", vals, lhs, rhs) == Err(CompareTypeError)
  {
  }

  /** The ordering tokens build exactly the node `"!="` builds. */
  lemma OrderingTokensBuildInequality(token: string, vals: seq<Value>, lhs: ValueRef, rhs: ValueRef)
    requires lhs < |vals| && rhs < |vals|
    requires token == "<" || token == "<=" || token == ">" || token == ">="
    ensures MakeComparison(token, vals, lhs, rhs) == MakeComparison("!=", vals, lhs, rhs)
  {
  }

  /** `setValueLifetime`: stores the lifetime and nothing else. */
  function SetValueLifetime(e: Expr, lifetime: int): (r: Expr)
    ensures r.lifetime == lifetime
    ensures r.(lifetime := e.lifetime) == e
  {
    e.(lifetime := lifetime)
  }

  // ---------------------------------------------------------------------------
  // Evaluation

  /** Whether a relational operator accepts a three-way comparison result. */
  predicate OpHolds(op: ValueOp, comp: int) {
    match op
    case Eq => comp == 0
    case Neq => comp != 0
    case Lt => comp < 0
    case LtEq => comp <= 0
    case Gt => comp > 0
    case GtEq => comp >= 0
  }

  /** `evalValues`: readiness is checked before validity, and only two ready,
      valid values are compared. */
  function EvalValues(scale: LevelScale, op: ValueOp, a: Value, b: Value): (r: AlarmReturn)
    ensures !IsReady(scale, a) || !IsReady(scale, b) ==> r == Undefined
    ensures IsReady(scale, a) && IsReady(scale, b) && (!IsValid(a) || !IsValid(b)) ==> r == Outdated
    ensures IsReady(scale, a) && IsReady(scale, b) && IsValid(a) && IsValid(b) ==>
              (r == True || r == False) && (r == True <==> OpHolds(op, Compare(scale, a, b)))
  {
    if !IsReady(scale, a) || !IsReady(scale, b) then Undefined
    else if !IsValid(a) || !IsValid(b) then Outdated
    else
      var comp := Compare(scale, a, b);
      if comp < 0 then
        (if op == Neq || op == Lt || op == LtEq then True else False)
      else if comp == 0 then
        (if op == Eq || op == LtEq || op == GtEq then True else False)
      else
        (if op == Neq || op == Gt || op == GtEq then True else False)
  }

  /** The `xor` combination of two evaluated operands. */
  function XorOf(l: AlarmReturn, r: AlarmReturn): AlarmReturn {
    if (l == True && r == False) || (l == False && r == True) then True
    else if l == r then l
    else if l == Undefined || l == Outdated then l
    else r
  }

  /** The `not` combination: True and False swap, the rest pass through. */
  function NotOf(v: AlarmReturn): AlarmReturn {
    if v == True then False else if v == False then True else v
  }

  /** `eval`. Children are evaluated left to right; `or` and `and` skip the
      right child when the left one decides. A node shape the evaluator does
      not handle raises a fatal error. Nothing can make the result Outdated:
      no value kind is ready without being valid. */
  function Eval(scale: LevelScale, e: Expr, vals: seq<Value>): (r: Result<AlarmReturn>)
    ensures r.Ok? ==> r.value != Outdated
    decreases e
  {
    match e
    case Comparison(op, lhs, rhs, _) =>
      if lhs < |vals| && rhs < |vals| then Ok(EvalValues(scale, op, vals[lhs], vals[rhs]))
      else Err(EmptyExpressionError)
    case Binary(op, left, right, _) =>
      (match op
       case Or =>
         var l :- Eval(scale, left, vals);
         if l == True then Ok(True) else Eval(scale, right, vals)
       case And =>
         var l :- Eval(scale, left, vals);
         if l != True then Ok(l) else Eval(scale, right, vals)
       case Xor =>
         var l :- Eval(scale, left, vals);
         var r :- Eval(scale, right, vals);
         Ok(XorOf(l, r))
       case Not => Err(EvaluationError))
    case Unary(op, child, _) =>
      if op == Not then
        var v :- Eval(scale, child, vals);
        Ok(NotOf(v))
      else Err(EvaluationError)
    case Empty(_) => Err(EmptyExpressionError)
  }

  // ---------------------------------------------------------------------------
  // Laws of evaluation

  /** The value positions the comparison leaves of `e` read. */
  function Refs(e: Expr): set<ValueRef>
    decreases e
  {
    match e
    case Empty(_) => {}
    case Binary(_, l, r, _) => Refs(l) + Refs(r)
    case Unary(_, c, _) => Refs(c)
    case Comparison(_, lhs, rhs, _) => {lhs, rhs}
  }

  /** Every node has a shape the evaluator handles: no empty node, no binary
      `not`, no unary operator other than `not`. */
  predicate WellShaped(e: Expr)
    decreases e
  {
    match e
    case Empty(_) => false
    case Binary(op, l, r, _) => op != Not && WellShaped(l) && WellShaped(r)
    case Unary(op, c, _) => op == Not && WellShaped(c)
    case Comparison(_, _, _, _) => true
  }

  /** True and False are the definite outcomes. */
  predicate Definite(v: AlarmReturn) {
    v == True || v == False
  }

  /** A well-shaped tree whose values all exist never raises. */
  lemma {:induction false} WellShapedNeverFails(scale: LevelScale, e: Expr, vals: seq<Value>)
    requires WellShaped(e)
    requires forall k :: k in Refs(e) ==> k < |vals|
    ensures Eval(scale, e, vals).Ok?
    decreases e
  {
    match e
    case Binary(_, l, r, _) =>
      assert Refs(e) == Refs(l) + Refs(r);
      WellShapedNeverFails(scale, l, vals);
      WellShapedNeverFails(scale, r, vals);
    case Unary(_, c, _) =>
      assert Refs(e) == Refs(c);
      WellShapedNeverFails(scale, c, vals);
    case Comparison(_, lhs, rhs, _) =>
      assert lhs in Refs(e) && rhs in Refs(e);
  }

  /** Once every value the tree reads is ready, its outcome is definite. */
  lemma {:induction false} DefiniteWhenAllReady(scale: LevelScale, e: Expr, vals: seq<Value>)
    requires WellShaped(e)
    requires forall k :: k in Refs(e) ==> k < |vals| && IsReady(scale, vals[k])
    ensures Eval(scale, e, vals).Ok? && Definite(Eval(scale, e, vals).value)
    decreases e
  {
    match e
    case Binary(_, l, r, _) =>
      assert Refs(e) == Refs(l) + Refs(r);
      DefiniteWhenAllReady(scale, l, vals);
      DefiniteWhenAllReady(scale, r, vals);
    case Unary(_, c, _) =>
      assert Refs(e) == Refs(c);
      DefiniteWhenAllReady(scale, c, vals);
    case Comparison(_, lhs, rhs, _) =>
      assert lhs in Refs(e) && rhs in Refs(e);
  }

  /** Undefined can only come from a value the tree reads that is not ready. */
  lemma {:induction false} UndefinedNeedsUnreadyValue(scale: LevelScale, e: Expr, vals: seq<Value>)
    requires Eval(scale, e, vals) == Ok(Undefined)
    ensures exists k :: k in Refs(e) && k < |vals| && !IsReady(scale, vals[k])
    decreases e
  {
    match e
    case Binary(op, l, r, _) =>
      var lv := Eval(scale, l, vals);
      if lv == Ok(Undefined) {
        UndefinedNeedsUnreadyValue(scale, l, vals);
      } else {
        assert Eval(scale, r, vals) == Ok(Undefined);
        UndefinedNeedsUnreadyValue(scale, r, vals);
      }
    case Unary(_, c, _) =>
      UndefinedNeedsUnreadyValue(scale, c, vals);
    case Comparison(op, lhs, rhs, _) =>
      assert lhs in Refs(e) && rhs in Refs(e);
  }

  /** `or` answers True as soon as its left child does, whatever the right
      child is, even one that would raise. */
  lemma OrShortCircuits(scale: LevelScale, left: Expr, vals: seq<Value>, lifetime: int)
    requires Eval(scale, left, vals) == Ok(True)
    ensures forall right :: Eval(scale, Binary(Or, left, right, lifetime), vals) == Ok(True)
  {
  }

  /** Otherwise `or` hands back the right child's outcome unchanged, so
      Undefined is not swallowed. */
  lemma OrPassesRight(scale: LevelScale, left: Expr, right: Expr, vals: seq<Value>, lifetime: int)
    requires Eval(scale, left, vals).Ok? && Eval(scale, left, vals).value != True
    ensures Eval(scale, Binary(Or, left, right, lifetime), vals) == Eval(scale, right, vals)
  {
  }

  /** `and` returns its left child's outcome, without looking at the right
      child, whenever that outcome is not True. */
  lemma AndShortCircuits(scale: LevelScale, left: Expr, vals: seq<Value>, lifetime: int)
    requires Eval(scale, left, vals).Ok? && Eval(scale, left, vals).value != True
    ensures forall right :: Eval(scale, Binary(And, left, right, lifetime), vals) == Eval(scale, left, vals)
  {
  }

  /** After a True left child, `and` hands back the right child's outcome. */
  lemma AndPassesRight(scale: LevelScale, left: Expr, right: Expr, vals: seq<Value>, lifetime: int)
    requires Eval(scale, left, vals) == Ok(True)
    ensures Eval(scale, Binary(And, left, right, lifetime), vals) == Eval(scale, right, vals)
  {
  }

  /** `xor` evaluates both children, left first, and combines them with `XorOf`. */
  lemma XorEvaluatesBoth(scale: LevelScale, left: Expr, right: Expr, vals: seq<Value>, lifetime: int)
    ensures Eval(scale, Binary(Xor, left, right, lifetime), vals) ==
              if Eval(scale, left, vals).Err? then Eval(scale, left, vals)
              else if Eval(scale, right, vals).Err? then Eval(scale, right, vals)
              else Ok(XorOf(Eval(scale, left, vals).value, Eval(scale, right, vals).value))
  {
  }

  /** The `xor` table on literal operand pairs. Two Trues give True: identical
      operands return their shared value. */
  lemma XorTable()
    ensures XorOf(True, False) == True && XorOf(False, True) == True
    ensures XorOf(True, True) == True && XorOf(False, False) == False
    ensures XorOf(Undefined, False) == Undefined && XorOf(False, Undefined) == Undefined
    ensures XorOf(Undefined, Outdated) == Undefined && XorOf(Outdated, Undefined) == Outdated
  {
  }

  /** `xor` always returns one of its operands; an indefinite operand makes
      the result indefinite, the left one taking priority; and on definite
      operands it is False only when both are False. */
  lemma XorProperties(l: AlarmReturn, r: AlarmReturn)
    ensures XorOf(l, r) == l || XorOf(l, r) == r
    ensures !Definite(l) ==> XorOf(l, r) == l
    ensures Definite(l) && !Definite(r) ==> XorOf(l, r) == r
    ensures Definite(l) && Definite(r) ==> (XorOf(l, r) == False <==> l == False && r == False)
  {
  }

  /** `not` swaps True and False, passes Undefined and Outdated through, and
      undoes itself. */
  lemma NotProperties(v: AlarmReturn)
    ensures NotOf(True) == False && NotOf(False) == True
    ensures NotOf(Undefined) == Undefined && NotOf(Outdated) == Outdated
    ensures NotOf(NotOf(v)) == v
  {
  }

  /** Node shapes the evaluator does not handle raise, whatever their children. */
  lemma MisshapenNodesFail(scale: LevelScale, e: Expr, vals: seq<Value>)
    requires e.Empty? || (e.Binary? && e.op == Not) || (e.Unary? && e.op != Not)
    ensures e.Empty? ==> Eval(scale, e, vals) == Err(EmptyExpressionError)
    ensures !e.Empty? ==> Eval(scale, e, vals) == Err(EvaluationError)
  {
  }

  /** `"!"` is accepted by the binary constructor, but the node it builds can
      never be evaluated. */
  lemma BinaryNotNodeFails(scale: LevelScale, left: Expr, right: Expr, vals: seq<Value>)
    ensures MakeBinary("!", left, right).Ok?
    ensures Eval(scale, MakeBinary("!", left, right).value, vals) == Err(EvaluationError)
  {
    assert "!" == ExpressionOpToken(Not);
  }

  /** A comparison with a value that is not ready is Undefined, whatever the operator. */
  lemma UnreadyComparisonUndefined(scale: LevelScale, op: ValueOp, lhs: ValueRef, rhs: ValueRef, vals: seq<Value>, lifetime: int)
    requires lhs < |vals| && rhs < |vals|
    requires !IsReady(scale, vals[lhs]) || !IsReady(scale, vals[rhs])
    ensures Eval(scale, Comparison(op, lhs, rhs, lifetime), vals) == Ok(Undefined)
  {
  }

  /** `!=` is the negation of `==`, `<` of `>=` and `>` of `<=`, in all four outcomes. */
  lemma ComparisonsNegate(scale: LevelScale, lhs: ValueRef, rhs: ValueRef, vals: seq<Value>)
    ensures Eval(scale, Comparison(Neq, lhs, rhs, 0), vals) == Eval(scale, Unary(Not, Comparison(Eq, lhs, rhs, 0), 0), vals)
    ensures Eval(scale, Comparison(Lt, lhs, rhs, 0), vals) == Eval(scale, Unary(Not, Comparison(GtEq, lhs, rhs, 0), 0), vals)
    ensures Eval(scale, Comparison(Gt, lhs, rhs, 0), vals) == Eval(scale, Unary(Not, Comparison(LtEq, lhs, rhs, 0), 0), vals)
  {
  }

  /** On a scale with distinct levels, `==` between two ready values is True
      exactly when they hold the same quality. */
  lemma EqualityMeansSameQuality(scale: LevelScale, lhs: ValueRef, rhs: ValueRef, vals: seq<Value>, lifetime: int)
    requires scale.Distinct()
    requires lhs < |vals| && rhs < |vals|
    requires IsReady(scale, vals[lhs]) && IsReady(scale, vals[rhs])
    ensures Eval(scale, Comparison(Eq, lhs, rhs, lifetime), vals) == Ok(True) <==> Held(vals[lhs]) == Held(vals[rhs])
  {
  }

  /** The lifetime of a node is never consulted. */
  lemma LifetimeNotConsulted(scale: LevelScale, e: Expr, lifetime: int, vals: seq<Value>)
    ensures Eval(scale, SetValueLifetime(e, lifetime), vals) == Eval(scale, e, vals)
  {
  }

  /** `Quality::Good == Quality::Good` builds a comparison that is True at
      once, with no update needed. */
  lemma LiteralEqualityScenario(scale: LevelScale)
    requires scale.Distinct()
    ensures var vals := [QualityValue("Good", Good), QualityValue("Good", Good)];
            MakeComparison("==", vals, 0, 1) == Ok(Comparison(Eq, 0, 1, 0))
            && Eval(scale, Comparison(Eq, 0, 1, 0), vals) == Ok(True)
  {
    assert "==" == ValueOpToken(Eq);
  }

  /** `Check::taskA != Quality::Bad` is Undefined while `taskA` has published nothing. */
  lemma UnpublishedCheckScenario(scale: LevelScale)
    requires scale.Distinct()
    ensures var vals := [MakeCheckValue("taskA"), QualityValue("Bad", Bad)];
            MakeComparison("!=", vals, 0, 1) == Ok(Comparison(Neq, 0, 1, 0))
            && Eval(scale, Comparison(Neq, 0, 1, 0), vals) == Ok(Undefined)
  {
    assert "!=" == ValueOpToken(Neq);
  }
}
