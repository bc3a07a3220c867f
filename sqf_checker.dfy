/**
 * The SQF syntax checker: a visitor that walks the statements of a file, computes a value type
 * for every operator expression (or none, "unknown", for the other expressions) and registers
 * type problems on a shared problems holder. `CheckExpr` and `CheckStatement` say what a visit
 * yields; the class `SyntaxChecker` is the visitor itself, proved to yield exactly that.
 */
module SqfChecker {
  import opened Common
  import opened SqfRules

  /** The expressions whose visit returns unknown without looking inside them. */
  datatype LeafKind = ConfigFetch | Exponent | Literal | Paren | CommandCall | CodeBlock | Signed

  /** An expression node, identified by `id`; a parsed operator may lack an operand. */
  datatype Expr =
    | Leaf(id: nat, kind: LeafKind)
    | Binary(id: nat, op: BinaryOp, left: Option<Expr>, right: Option<Expr>)
    | Not(id: nat, operand: Option<Expr>)

  /**
   * A statement. A case statement's `scope` holds the statements of its block's local scope,
   * empty when the block or the scope is missing.
   */
  datatype Statement =
    | Assignment(assignedExpr: Option<Expr>)
    | Case(condition: Option<Expr>, scope: seq<Statement>)
    | ExpressionStatement(expr: Expr)
    | Quest(questCondition: Option<Expr>, ifTrue: Option<Expr>)

  /** A visit's result: the type it returns (`None` for unknown) and the problems it registers, in order. */
  datatype Outcome = Outcome(typ: Option<ValueType>, problems: seq<Problem>)

  /** The nodes of an expression tree. */
  function Ids(e: Expr): (ids: set<nat>)
    ensures e.id in ids
  {
    match e
    case Leaf(id, _) => {id}
    case Binary(id, _, left, right) =>
      {id} + (if left.Some? then Ids(left.value) else {}) + (if right.Some? then Ids(right.value) else {})
    case Not(id, operand) => {id} + (if operand.Some? then Ids(operand.value) else {})
  }

  /** The number of operator nodes (binary or negation) of an expression tree. */
  function Operators(e: Expr): nat
  {
    match e
    case Leaf(_, _) => 0
    case Binary(_, _, left, right) =>
      1 + (if left.Some? then Operators(left.value) else 0) + (if right.Some? then Operators(right.value) else 0)
    case Not(_, operand) => 1 + (if operand.Some? then Operators(operand.value) else 0)
  }

  /** The node an operand's problems are registered on; a missing operand registers none. */
  function NodeOf(operand: Option<Expr>): nat
  {
    if operand.Some? then operand.value.id else 0
  }

  function OperandOutcome(e: Expr, operand: Option<Expr>): Outcome
    requires operand.Some? ==> operand.value < e
    decreases e, 0
  {
    if operand.Some? then CheckExpr(operand.value) else Outcome(None, [])
  }

  /**
   * The visit of an expression: operands left to right, then the operator's own checks, which
   * run only when both operand types are known.
   */
  function CheckExpr(e: Expr): (r: Outcome)
    decreases e, 1
    ensures r.typ.None? <==> e.Leaf?
    ensures r.typ != Some(NOTHING)
    ensures e.Not? ==> r.typ == Some(BOOLEAN)
  {
    match e
    case Leaf(_, _) => Outcome(None, [])
    case Not(_, operand) =>
      var o := OperandOutcome(e, operand);
      if o.typ.None? then Outcome(Some(BOOLEAN), o.problems)
      else Outcome(Some(BOOLEAN), o.problems + TypeCheck(o.typ.value, BOOLEAN, operand.value.id))
    case Binary(_, op, left, right) =>
      var lo := OperandOutcome(e, left);
      var ro := OperandOutcome(e, right);
      var own := BinaryRule(op, lo.typ, ro.typ, NodeOf(left), NodeOf(right));
      Outcome(Some(own.typ), lo.problems + ro.problems + own.problems)
  }

  /** Every problem an expression's visit registers is on a node of that expression. */
  lemma {:induction false} ProblemsWithinTree(e: Expr)
    ensures forall p :: p in CheckExpr(e).problems ==> p.node in Ids(e)
  {
    match e
    case Leaf(_, _) =>
    case Not(_, operand) =>
      if operand.Some? {
        ProblemsWithinTree(operand.value);
      }
    case Binary(_, op, left, right) =>
      if left.Some? {
        ProblemsWithinTree(left.value);
      }
      if right.Some? {
        ProblemsWithinTree(right.value);
      }
      var lo, ro := OperandOutcome(e, left), OperandOutcome(e, right);
      BinaryRuleNodes(op, lo.typ, ro.typ, NodeOf(left), NodeOf(right));
  }

  /** A visit registers at most two problems per operator node; leaves register none. */
  lemma {:induction false} ProblemCountBound(e: Expr)
    ensures |CheckExpr(e).problems| <= 2 * Operators(e)
  {
    match e
    case Leaf(_, _) =>
    case Not(_, operand) =>
      if operand.Some? {
        ProblemCountBound(operand.value);
      }
    case Binary(_, op, left, right) =>
      if left.Some? {
        ProblemCountBound(left.value);
      }
      if right.Some? {
        ProblemCountBound(right.value);
      }
  }

  /** An operator applied to leaves, or to missing operands, registers nothing. */
  lemma LeafOperandsRegisterNothing(e: Expr)
    requires e.Binary? ==> (e.left.None? || e.left.value.Leaf?) && (e.right.None? || e.right.value.Leaf?)
    requires e.Not? ==> e.operand.None? || e.operand.value.Leaf?
    ensures CheckExpr(e).problems == []
  {
  }

  /**
   * Unknown is not a wildcard: a `*` node whose operands are bare `+` nodes over leaves (no
   * parenthesis node between them) gets `ANYTHING` from each and registers one problem on each.
   */
  lemma AnythingOperandsAreReported(id: nat, l: Expr, r: Expr)
    requires l.Binary? && l.op == AddOp && l.left.Some? && l.left.value.Leaf? && l.right.Some? && l.right.value.Leaf?
    requires r.Binary? && r.op == AddOp && r.left.Some? && r.left.value.Leaf? && r.right.Some? && r.right.value.Leaf?
    requires l.id != r.id
    ensures CheckExpr(Binary(id, MultOp, Some(l), Some(r))).problems ==
      [Problem(l.id, TypeExpected(NUMBER, ANYTHING)), Problem(r.id, TypeExpected(NUMBER, ANYTHING))]
  {
    LeafOperandsRegisterNothing(l);
    LeafOperandsRegisterNothing(r);
    assert OperandOutcome(l, l.left).typ == None;
    assert OperandOutcome(r, r.left).typ == None;
  }

  /**
   * Parenthesised operands are leaves to the checker: the `*` of `(a + b) * (c + d)` sees two
   * unknown operands, so it is typed `ANYTHING` and registers nothing.
   */
  lemma ParenthesisedOperandsAreSilent(id: nat, l: Expr, r: Expr)
    requires l.Leaf? && l.kind == Paren && r.Leaf? && r.kind == Paren
    ensures CheckExpr(Binary(id, MultOp, Some(l), Some(r))) == Outcome(Some(ANYTHING), [])
  {
    var e := Binary(id, MultOp, Some(l), Some(r));
    assert OperandOutcome(e, Some(l)) == Outcome(None, []);
    assert OperandOutcome(e, Some(r)) == Outcome(None, []);
    assert UnknownOperandResult(MultOp) == ANYTHING;
  }

  /** The visit of a statement. */
  function CheckStatement(s: Statement): (r: Outcome)
    decreases s
    ensures !s.ExpressionStatement? ==> r.typ == Some(NOTHING)
    ensures s.ExpressionStatement? ==> r.typ == CheckExpr(s.expr).typ
  {
    match s
    case Assignment(assignedExpr) =>
      Outcome(Some(NOTHING), if assignedExpr.Some? then CheckExpr(assignedExpr.value).problems else [])
    case Case(condition, scope) =>
      Outcome(Some(NOTHING), (if condition.Some? then CheckExpr(condition.value).problems else []) + CheckStatements(scope))
    case ExpressionStatement(expr) => CheckExpr(expr)
    case Quest(condition, ifTrue) =>
      Outcome(Some(NOTHING),
        (if condition.Some? then CheckExpr(condition.value).problems else [])
        + (if ifTrue.Some? then CheckExpr(ifTrue.value).problems else []))
  }

  /** The problems registered by visiting `ss` in list order. */
  function CheckStatements(ss: seq<Statement>): seq<Problem>
    decreases ss
  {
    if ss == [] then [] else CheckStatements(ss[..|ss| - 1]) + CheckStatement(ss[|ss| - 1]).problems
  }

  /** Visiting two runs of statements one after the other registers their problems one after the other. */
  lemma {:induction false} CheckStatementsAppend(a: seq<Statement>, b: seq<Statement>)
    ensures CheckStatements(a + b) == CheckStatements(a) + CheckStatements(b)
  {
    if b == [] {
      assert a + b == a;
    } else {
      var front, last := b[..|b| - 1], b[|b| - 1];
      assert (a + b)[..|a + b| - 1] == a + front;
      assert (a + b)[|a + b| - 1] == last;
      CheckStatementsAppend(a, front);
      AppendAssoc(CheckStatements(a), CheckStatements(front), CheckStatement(last).problems);
    }
  }

  /** A statement list made only of leaf expression statements registers nothing. */
  lemma {:induction false} LeafStatementsRegisterNothing(ss: seq<Statement>)
    requires forall i :: 0 <= i < |ss| ==> ss[i].ExpressionStatement? && ss[i].expr.Leaf?
    ensures CheckStatements(ss) == []
  {
    if ss != [] {
      LeafStatementsRegisterNothing(ss[..|ss| - 1]);
    }
  }

  /** The problems holder: problems are only ever appended. */
  class ProblemsHolder {
    var problems: seq<Problem>

    constructor(initial: seq<Problem>)
      ensures problems == initial
    {
      problems := initial;
    }

    method RegisterProblem(p: Problem)
      modifies this
      ensures problems == old(problems) + [p]
    {
      problems := problems + [p];
    }
  }

  class SyntaxChecker {
    const statements: seq<Statement>
    const holder: ProblemsHolder

    constructor(statements: seq<Statement>, holder: ProblemsHolder)
      ensures this.statements == statements && this.holder == holder
    {
      this.statements := statements;
      this.holder := holder;
    }

    /** begin: visit the statements in list order. */
    method Begin()
      modifies holder
      ensures holder.problems == old(holder.problems) + CheckStatements(statements)
    {
      for i := 0 to |statements|
        invariant holder.problems == old(holder.problems) + CheckStatements(statements[..i])
      {
        var _ := VisitStatement(statements[i]);
        assert statements[..i + 1][..i] == statements[..i];
        assert CheckStatements(statements[..i + 1]) == CheckStatements(statements[..i]) + CheckStatement(statements[i]).problems;
        AppendAssoc(old(holder.problems), CheckStatements(statements[..i]), CheckStatement(statements[i]).problems);
      }
      assert statements[..|statements|] == statements;
    }

    method VisitStatement(s: Statement) returns (t: Option<ValueType>)
      modifies holder
      decreases s, 2
      ensures t == CheckStatement(s).typ
      ensures holder.problems == old(holder.problems) + CheckStatement(s).problems
    {
      match s
      case Assignment(assignedExpr) =>
        if assignedExpr.Some? {
          var _ := VisitExpr(assignedExpr.value);
        }
        return Some(NOTHING);
      case Case(_, _) =>
        VisitCase(s);
        return Some(NOTHING);
      case ExpressionStatement(expr) =>
        t := VisitExpr(expr);
      case Quest(condition, ifTrue) =>
        if condition.Some? {
          var _ := VisitExpr(condition.value);
        }
        if ifTrue.Some? {
          var _ := VisitExpr(ifTrue.value);
        }
        AppendAssoc(old(holder.problems), if condition.Some? then CheckExpr(condition.value).problems else [],
          if ifTrue.Some? then CheckExpr(ifTrue.value).problems else []);
        return Some(NOTHING);
    }

    /** A case statement: its condition, then the statements of its block's scope. */
    method VisitCase(s: Statement)
      requires s.Case?
      modifies holder
      decreases s, 1
      ensures holder.problems == old(holder.problems) + CheckStatement(s).problems
    {
      if s.condition.Some? {
        var _ := VisitExpr(s.condition.value);
      }
      VisitScope(s);
      AppendAssoc(old(holder.problems), if s.condition.Some? then CheckExpr(s.condition.value).problems else [],
        CheckStatements(s.scope));
    }

    /** The statements of a case block's scope, in order. */
    method VisitScope(s: Statement)
      requires s.Case?
      modifies holder
      decreases s, 0
      ensures holder.problems == old(holder.problems) + CheckStatements(s.scope)
    {
      var scope := s.scope;
      for i := 0 to |scope|
        invariant holder.problems == old(holder.problems) + CheckStatements(scope[..i])
      {
        var _ := VisitStatement(scope[i]);
        assert scope[..i + 1][..i] == scope[..i];
        assert CheckStatements(scope[..i + 1]) == CheckStatements(scope[..i]) + CheckStatement(scope[i]).problems;
        AppendAssoc(old(holder.problems), CheckStatements(scope[..i]), CheckStatement(scope[i]).problems);
      }
      assert scope[..|scope|] == scope;
    }

    method VisitOperand(e: Expr, operand: Option<Expr>) returns (t: Option<ValueType>)
      requires operand.Some? ==> operand.value < e
      modifies holder
      decreases e, 0
      ensures t == OperandOutcome(e, operand).typ
      ensures holder.problems == old(holder.problems) + OperandOutcome(e, operand).problems
    {
      if operand.Some? {
        t := VisitExpr(operand.value);
      } else {
        t := None;
      }
    }

    /** The visitor's dispatch on the expression kind. */
    method VisitExpr(e: Expr) returns (t: Option<ValueType>)
      modifies holder
      decreases e, 2
      ensures t == CheckExpr(e).typ
      ensures holder.problems == old(holder.problems) + CheckExpr(e).problems
    {
      match e
      case Leaf(_, _) =>
        return None;
      case Not(_, _) =>
        t := VisitNot(e);
      case Binary(_, _, _, _) =>
        t := VisitBinary(e);
    }

    /** `!`: the operand, which must be BOOLEAN when its type is known; the result is BOOLEAN. */
    method VisitNot(e: Expr) returns (t: Option<ValueType>)
      requires e.Not?
      modifies holder
      decreases e, 1
      ensures t == CheckExpr(e).typ
      ensures holder.problems == old(holder.problems) + CheckExpr(e).problems
    {
      var typ := VisitOperand(e, e.operand);
      if typ.Some? {
        var _ := AssertIsType(typ.value, BOOLEAN, e.operand.value.id);
      }
      return Some(BOOLEAN);
    }

    /** A binary operator: left operand, right operand, then the operator's checks if both are known. */
    method VisitBinary(e: Expr) returns (t: Option<ValueType>)
      requires e.Binary?
      modifies holder
      decreases e, 1
      ensures t == CheckExpr(e).typ
      ensures holder.problems == old(holder.problems) + CheckExpr(e).problems
    {
      var l := VisitOperand(e, e.left);
      var r := VisitOperand(e, e.right);
      var typ := ApplyBinary(e.op, l, r, NodeOf(e.left), NodeOf(e.right));
      AppendRegroup(old(holder.problems), OperandOutcome(e, e.left).problems, OperandOutcome(e, e.right).problems,
        BinaryRule(e.op, l, r, NodeOf(e.left), NodeOf(e.right)).problems);
      return Some(typ);
    }

    /** The operator's own part: nothing when an operand's type is unknown, else its checks. */
    method ApplyBinary(op: BinaryOp, left: Option<ValueType>, right: Option<ValueType>, leftNode: nat, rightNode: nat)
      returns (t: ValueType)
      modifies holder
      ensures t == BinaryRule(op, left, right, leftNode, rightNode).typ
      ensures holder.problems == old(holder.problems) + BinaryRule(op, left, right, leftNode, rightNode).problems
    {
      if left.None? || right.None? {
        return UnknownOperandResult(op);
      }
      t := ApplyOperator(op, left.value, right.value, leftNode, rightNode);
    }

    /** The operator's own checks, once both operand types are known. */
    method ApplyOperator(op: BinaryOp, left: ValueType, right: ValueType, leftNode: nat, rightNode: nat)
      returns (t: ValueType)
      modifies holder
      ensures t == OperatorRule(op, left, right, leftNode, rightNode).typ
      ensures holder.problems == old(holder.problems) + OperatorRule(op, left, right, leftNode, rightNode).problems
    {
      if op.AddOp? || op.SubOp? || op.MultOp? || op.DivOp? || op.ModOp? {
        t := ApplyArithmetic(op, left, right, leftNode, rightNode);
      } else {
        t := ApplyLogical(op, left, right, leftNode, rightNode);
      }
    }

    /** `+`, `-`, `*`, `/` and `%`. */
    method ApplyArithmetic(op: BinaryOp, left: ValueType, right: ValueType, leftNode: nat, rightNode: nat)
      returns (t: ValueType)
      requires op.AddOp? || op.SubOp? || op.MultOp? || op.DivOp? || op.ModOp?
      modifies holder
      ensures t == OperatorRule(op, left, right, leftNode, rightNode).typ
      ensures holder.problems == old(holder.problems) + OperatorRule(op, left, right, leftNode, rightNode).problems
    {
      match op
      case AddOp => t := Add(left, right, rightNode);
      case SubOp => t := Sub(left, right, rightNode);
      case MultOp => t := SameTypeHelper(NUMBER, left, right, leftNode, rightNode);
      case DivOp => t := Div(left, right, rightNode);
      case ModOp => t := SameTypeHelper(NUMBER, left, right, leftNode, rightNode);
    }

    /** `&&`, `||` and the comparisons. */
    method ApplyLogical(op: BinaryOp, left: ValueType, right: ValueType, leftNode: nat, rightNode: nat)
      returns (t: ValueType)
      requires op.AndOp? || op.OrOp? || op.CompOp?
      modifies holder
      ensures t == OperatorRule(op, left, right, leftNode, rightNode).typ
      ensures holder.problems == old(holder.problems) + OperatorRule(op, left, right, leftNode, rightNode).problems
    {
      match op
      case AndOp => t := BoolOperator(left, right, leftNode, rightNode);
      case OrOp => t := BoolOperator(left, right, leftNode, rightNode);
      case CompOp(c) =>
        if c != Equals {
          var _ := SameTypeHelper(NUMBER, left, right, leftNode, rightNode);
          return BOOLEAN;
        }
        t := EqualsOperator(left, right, leftNode, rightNode);
    }

    method Add(left: ValueType, right: ValueType, rightNode: nat) returns (t: ValueType)
      modifies holder
      ensures t == AddRule(left, right, rightNode).typ
      ensures holder.problems == old(holder.problems) + AddRule(left, right, rightNode).problems
    {
      if left == NUMBER || left == STRING {
        var _ := AssertIsType(right, left, rightNode);
        return NUMBER;
      }
      if IsArray(left) && !IsArray(right) {
        holder.RegisterProblem(Problem(rightNode, NotAnArrayType));
        return ARRAY;
      }
      NotOfType(AddOperands, right, rightNode);
      return ANYTHING;
    }

    method Sub(left: ValueType, right: ValueType, rightNode: nat) returns (t: ValueType)
      modifies holder
      ensures t == SubRule(left, right, rightNode).typ
      ensures holder.problems == old(holder.problems) + SubRule(left, right, rightNode).problems
    {
      if left == NUMBER {
        assert SubRule(left, right, rightNode) == Ruled(NUMBER, TypeCheck(right, NUMBER, rightNode));
        var _ := AssertIsType(right, NUMBER, rightNode);
        return left;
      }
      if IsArray(left) && !IsArray(right) {
        assert SubRule(left, right, rightNode) == Ruled(ARRAY, [Problem(rightNode, NotAnArrayType)]);
        holder.RegisterProblem(Problem(rightNode, NotAnArrayType));
        return ARRAY;
      }
      assert SubRule(left, right, rightNode) == Ruled(ANYTHING, [NotOfTypeProblem(SubOperands, right, rightNode)]);
      NotOfType(SubOperands, right, rightNode);
      return ANYTHING;
    }

    method Div(left: ValueType, right: ValueType, rightNode: nat) returns (t: ValueType)
      modifies holder
      ensures t == DivRule(left, right, rightNode).typ
      ensures holder.problems == old(holder.problems) + DivRule(left, right, rightNode).problems
    {
      if left == NUMBER {
        var _ := AssertIsType(right, NUMBER, rightNode);
        return NUMBER;
      } else if left == CONFIG {
        var _ := AssertIsType(right, STRING, rightNode);
        return CONFIG;
      }
      NotOfType(DivOperands, right, rightNode);
      return ANYTHING;
    }

    method BoolOperator(left: ValueType, right: ValueType, leftNode: nat, rightNode: nat) returns (t: ValueType)
      modifies holder
      ensures t == BoolRule(left, right, leftNode, rightNode).typ
      ensures holder.problems == old(holder.problems) + BoolRule(left, right, leftNode, rightNode).problems
    {
      var _ := AssertIsType(left, BOOLEAN, leftNode);
      var _ := AssertIsOneOf(right, BoolRightOperands, rightNode);
      AppendAssoc(old(holder.problems), TypeCheck(left, BOOLEAN, leftNode), OneOfCheck(right, BoolRightOperands, rightNode));
      return BOOLEAN;
    }

    /** `==`: the left type is looked up in the allowed list, then the right type is checked against it. */
    method EqualsOperator(left: ValueType, right: ValueType, leftNode: nat, rightNode: nat) returns (t: ValueType)
      modifies holder
      ensures t == EqualsRule(left, right, leftNode, rightNode).typ
      ensures holder.problems == old(holder.problems) + EqualsRule(left, right, leftNode, rightNode).problems
    {
      var allowed := EqualityOperands;
      for i := 0 to |allowed|
        invariant left !in allowed[..i]
        invariant holder.problems == old(holder.problems)
      {
        if left == allowed[i] {
          assert left in EqualityOperands;
          var _ := AssertIsOneOf(right, allowed, rightNode);
          return BOOLEAN;
        }
      }
      assert allowed[..|allowed|] == allowed;
      assert left !in EqualityOperands;
      NotOfType(allowed, left, leftNode);
      var _ := AssertIsOneOf(right, allowed, rightNode);
      AppendAssoc(old(holder.problems), [NotOfTypeProblem(allowed, left, leftNode)], OneOfCheck(right, allowed, rightNode));
      return BOOLEAN;
    }

    method SameTypeHelper(expected: ValueType, left: ValueType, right: ValueType, leftNode: nat, rightNode: nat)
      returns (t: ValueType)
      modifies holder
      ensures t == SameTypeRule(expected, left, right, leftNode, rightNode).typ
      ensures holder.problems == old(holder.problems) + SameTypeRule(expected, left, right, leftNode, rightNode).problems
    {
      var _ := AssertIsType(left, expected, leftNode);
      var _ := AssertIsType(right, expected, rightNode);
      AppendAssoc(old(holder.problems), TypeCheck(left, expected, leftNode), TypeCheck(right, expected, rightNode));
      return expected;
    }

    method NotOfType(expected: seq<ValueType>, got: ValueType, at: nat)
      modifies holder
      ensures holder.problems == old(holder.problems) + [NotOfTypeProblem(expected, got, at)]
    {
      holder.RegisterProblem(Problem(at, TypesExpected(expected, got)));
    }

    /** assertIsType, array overload: true when `check` is one of `expected`, else one problem. */
    method AssertIsOneOf(check: ValueType, expected: seq<ValueType>, at: nat) returns (ok: bool)
      modifies holder
      ensures ok <==> check in expected
      ensures holder.problems == old(holder.problems) + OneOfCheck(check, expected, at)
    {
      for i := 0 to |expected|
        invariant check !in expected[..i]
        invariant holder.problems == old(holder.problems)
      {
        if check == expected[i] {
          return true;
        }
      }
      assert expected[..|expected|] == expected;
      holder.RegisterProblem(Problem(at, TypesExpected(expected, check)));
      return false;
    }

    /** assertIsType, single overload: true when `check` is `expected`, else one problem. */
    method AssertIsType(check: ValueType, expected: ValueType, at: nat) returns (ok: bool)
      modifies holder
      ensures ok <==> check == expected
      ensures holder.problems == old(holder.problems) + TypeCheck(check, expected, at)
    {
      if check != expected {
        holder.RegisterProblem(Problem(at, TypeExpected(expected, check)));
        return false;
      }
      return true;
    }
  }
}
