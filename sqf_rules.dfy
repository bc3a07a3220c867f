/**
 * The typing rules of the SQF syntax checker, one per operator, over value types. A rule
 * receives the operand types (both known, except in BinaryRule) and the nodes the operands come
 * from, and gives the operator's type and the problems it registers, in registration order.
 */
module SqfRules {
  import opened Common

  /**
   * The value types the checker names. The remaining types of the type enumeration are
   * `Other`, each with its own answer to "is this an array type".
   */
  datatype ValueType =
    | NUMBER | STRING | BOOLEAN | ARRAY | CODE | CONFIG | GROUP | SIDE | OBJECT
    | STRUCTURED_TEXT | DISPLAY | CONTROL | LOCATION | NOTHING | ANYTHING
    | Other(name: string, arrayLike: bool)

  predicate IsArray(t: ValueType)
  {
    t == ARRAY || (t.Other? && t.arrayLike)
  }

  /** What a registered problem says: the array message, or the two type-mismatch messages. */
  datatype ProblemKind =
    | NotAnArrayType
    | TypeExpected(expected: ValueType, got: ValueType)
    | TypesExpected(expectedAny: seq<ValueType>, got: ValueType)

  /** A problem and the expression node it is registered on. */
  datatype Problem = Problem(node: nat, kind: ProblemKind)

  /** A rule's result: the operator's type and the problems it registered. */
  datatype Ruled = Ruled(typ: ValueType, problems: seq<Problem>)

  /** The problems registered by the single-type check: one exactly when the types differ. */
  function TypeCheck(check: ValueType, expected: ValueType, at: nat): (ps: seq<Problem>)
    ensures ps == [] <==> check == expected
    ensures |ps| <= 1 && (ps != [] ==> ps[0].node == at)
  {
    if check != expected then [Problem(at, TypeExpected(expected, check))] else []
  }

  /** The problems registered by the any-of check: one exactly when `check` is none of them. */
  function OneOfCheck(check: ValueType, expected: seq<ValueType>, at: nat): (ps: seq<Problem>)
    ensures ps == [] <==> check in expected
    ensures |ps| <= 1 && (ps != [] ==> ps[0].node == at)
  {
    if check in expected then [] else [Problem(at, TypesExpected(expected, check))]
  }

  /** The problem `notOfType` registers, whatever `got` is. */
  function NotOfTypeProblem(expected: seq<ValueType>, got: ValueType, at: nat): (p: Problem)
    ensures p.node == at && p.kind.TypesExpected? && p.kind.got == got
  {
    Problem(at, TypesExpected(expected, got))
  }

  /** 1 when `t` is not `expected`, else 0. */
  function Miss(t: ValueType, expected: ValueType): nat
  {
    if t == expected then 0 else 1
  }

  const AddOperands: seq<ValueType> := [NUMBER, STRING, ARRAY]
  const SubOperands: seq<ValueType> := [NUMBER, ARRAY]
  const DivOperands: seq<ValueType> := [NUMBER, STRING]
  const BoolRightOperands: seq<ValueType> := [BOOLEAN, CODE]
  /** The types the equality operator accepts on either side. */
  const EqualityOperands: seq<ValueType> :=
    [NUMBER, GROUP, SIDE, STRING, OBJECT, STRUCTURED_TEXT, CONFIG, DISPLAY, CONTROL, LOCATION]

  /** `+` with both operand types known. */
  function AddRule(left: ValueType, right: ValueType, rightNode: nat): (r: Ruled)
    ensures (left == NUMBER || left == STRING) ==>
      r.typ == NUMBER && (r.problems == [] <==> right == left) && |r.problems| <= 1
    ensures left != NUMBER && left != STRING && IsArray(left) && !IsArray(right) ==>
      r == Ruled(ARRAY, [Problem(rightNode, NotAnArrayType)])
    ensures left != NUMBER && left != STRING && !(IsArray(left) && !IsArray(right)) ==>
      r.typ == ANYTHING && |r.problems| == 1
    ensures left == STRING && right == STRING ==> r == Ruled(NUMBER, [])
    ensures left == ARRAY && right == ARRAY ==> r.typ == ANYTHING && |r.problems| == 1
    ensures |r.problems| <= 1 && (r.problems != [] ==> r.problems[0].node == rightNode)
  {
    if left == NUMBER || left == STRING then Ruled(NUMBER, TypeCheck(right, left, rightNode))
    else if IsArray(left) && !IsArray(right) then Ruled(ARRAY, [Problem(rightNode, NotAnArrayType)])
    else Ruled(ANYTHING, [NotOfTypeProblem(AddOperands, right, rightNode)])
  }

  /** `-` with both operand types known. */
  function SubRule(left: ValueType, right: ValueType, rightNode: nat): (r: Ruled)
    ensures left == NUMBER ==> r.typ == NUMBER && (r.problems == [] <==> right == NUMBER) && |r.problems| <= 1
    ensures left != NUMBER && IsArray(left) && !IsArray(right) ==>
      r == Ruled(ARRAY, [Problem(rightNode, NotAnArrayType)])
    ensures left != NUMBER && !(IsArray(left) && !IsArray(right)) ==>
      r.typ == ANYTHING && |r.problems| == 1
    ensures |r.problems| <= 1 && (r.problems != [] ==> r.problems[0].node == rightNode)
  {
    if left == NUMBER then Ruled(left, TypeCheck(right, NUMBER, rightNode))
    else if IsArray(left) && !IsArray(right) then Ruled(ARRAY, [Problem(rightNode, NotAnArrayType)])
    else Ruled(ANYTHING, [NotOfTypeProblem(SubOperands, right, rightNode)])
  }

  /** `/` with both operand types known: numbers divide, and a config divided by a string is a config. */
  function DivRule(left: ValueType, right: ValueType, rightNode: nat): (r: Ruled)
    ensures left == NUMBER ==> r.typ == NUMBER && (r.problems == [] <==> right == NUMBER)
    ensures left == CONFIG ==> r.typ == CONFIG && (r.problems == [] <==> right == STRING)
    ensures left != NUMBER && left != CONFIG ==> r.typ == ANYTHING && |r.problems| == 1
    ensures |r.problems| <= 1 && (r.problems != [] ==> r.problems[0].node == rightNode)
  {
    if left == NUMBER then Ruled(NUMBER, TypeCheck(right, NUMBER, rightNode))
    else if left == CONFIG then Ruled(CONFIG, TypeCheck(right, STRING, rightNode))
    else Ruled(ANYTHING, [NotOfTypeProblem(DivOperands, right, rightNode)])
  }

  /** The same-type helper (`*`, `%`, ordering comparisons): both operands must be `expected`. */
  function SameTypeRule(expected: ValueType, left: ValueType, right: ValueType, leftNode: nat, rightNode: nat): (r: Ruled)
    ensures r.typ == expected
    ensures |r.problems| == Miss(left, expected) + Miss(right, expected)
    ensures left != expected ==> r.problems[0].node == leftNode
    ensures right != expected ==> r.problems[|r.problems| - 1].node == rightNode
  {
    Ruled(expected, TypeCheck(left, expected, leftNode) + TypeCheck(right, expected, rightNode))
  }

  /** `&&` and `||` with both operand types known. */
  function BoolRule(left: ValueType, right: ValueType, leftNode: nat, rightNode: nat): (r: Ruled)
    ensures r.typ == BOOLEAN
    ensures r.problems == [] <==> left == BOOLEAN && (right == BOOLEAN || right == CODE)
    ensures |r.problems| == Miss(left, BOOLEAN) + (if right == BOOLEAN || right == CODE then 0 else 1)
    ensures left != BOOLEAN ==> r.problems[0].node == leftNode
    ensures right != BOOLEAN && right != CODE ==> r.problems[|r.problems| - 1].node == rightNode
  {
    Ruled(BOOLEAN, TypeCheck(left, BOOLEAN, leftNode) + OneOfCheck(right, BoolRightOperands, rightNode))
  }

  /** `==` with both operand types known. */
  function EqualsRule(left: ValueType, right: ValueType, leftNode: nat, rightNode: nat): (r: Ruled)
    ensures r.typ == BOOLEAN
    ensures r.problems == [] <==> left in EqualityOperands && right in EqualityOperands
    ensures |r.problems| == (if left in EqualityOperands then 0 else 1) + (if right in EqualityOperands then 0 else 1)
    ensures left !in EqualityOperands ==> r.problems[0].node == leftNode
    ensures right !in EqualityOperands ==> r.problems[|r.problems| - 1].node == rightNode
  {
    if left in EqualityOperands then Ruled(BOOLEAN, OneOfCheck(right, EqualityOperands, rightNode))
    else Ruled(BOOLEAN, [NotOfTypeProblem(EqualityOperands, left, leftNode)] + OneOfCheck(right, EqualityOperands, rightNode))
  }

  /** The comparison kinds; all but `Equals` go through the same-type helper. */
  datatype Comparison = Equals | NotEquals | LessThan | LessThanOrEqual | GreaterThan | GreaterThanOrEqual

  datatype BinaryOp = AddOp | SubOp | MultOp | DivOp | ModOp | AndOp | OrOp | CompOp(comparison: Comparison)

  /** The operator's type when an operand is missing or its type unknown; nothing is registered then. */
  function UnknownOperandResult(op: BinaryOp): (t: ValueType)
    ensures t == BOOLEAN <==> op.AndOp? || op.OrOp? || (op.CompOp? && op.comparison != Equals)
    ensures t != BOOLEAN ==> t == ANYTHING
  {
    match op
    case AndOp => BOOLEAN
    case OrOp => BOOLEAN
    case CompOp(c) => if c == Equals then ANYTHING else BOOLEAN
    case _ => ANYTHING
  }

  /** The rule of each binary operator once both operand types are known. */
  function OperatorRule(op: BinaryOp, left: ValueType, right: ValueType, leftNode: nat, rightNode: nat): (r: Ruled)
    ensures r.typ != NOTHING
    ensures |r.problems| <= 2
    ensures |r.problems| >= 1 ==> r.problems[0].node == leftNode || r.problems[0].node == rightNode
    ensures |r.problems| == 2 ==> r.problems[1].node == leftNode || r.problems[1].node == rightNode
    ensures op.CompOp? ==> r.typ == BOOLEAN
  {
    match op
    case AddOp => AddRule(left, right, rightNode)
    case SubOp => SubRule(left, right, rightNode)
    case MultOp => SameTypeRule(NUMBER, left, right, leftNode, rightNode)
    case DivOp => DivRule(left, right, rightNode)
    case ModOp => SameTypeRule(NUMBER, left, right, leftNode, rightNode)
    case AndOp => BoolRule(left, right, leftNode, rightNode)
    case OrOp => BoolRule(left, right, leftNode, rightNode)
    case CompOp(c) =>
      if c == Equals then EqualsRule(left, right, leftNode, rightNode)
      else Ruled(BOOLEAN, SameTypeRule(NUMBER, left, right, leftNode, rightNode).problems)
  }

  /** At most two problems, each on one of two nodes: every problem is on one of them. */
  lemma PairOnOperands(ps: seq<Problem>, leftNode: nat, rightNode: nat)
    requires |ps| <= 2
    requires |ps| >= 1 ==> ps[0].node == leftNode || ps[0].node == rightNode
    requires |ps| == 2 ==> ps[1].node == leftNode || ps[1].node == rightNode
    ensures forall p :: p in ps ==> p.node == leftNode || p.node == rightNode
  {
    if |ps| == 2 {
      assert ps == [ps[0], ps[1]];
    } else if |ps| == 1 {
      assert ps == [ps[0]];
    }
  }

  /**
   * A binary operator's own part of the visit: with an operand of unknown type it registers nothing
   * and gives its fallback type, otherwise it applies its rule.
   */
  function BinaryRule(op: BinaryOp, left: Option<ValueType>, right: Option<ValueType>, leftNode: nat, rightNode: nat): (r: Ruled)
    ensures left.None? || right.None? ==> r.typ == UnknownOperandResult(op) && r.problems == []
    ensures left.Some? && right.Some? ==> r == OperatorRule(op, left.value, right.value, leftNode, rightNode)
    ensures r.typ != NOTHING
    ensures |r.problems| <= 2
    ensures |r.problems| >= 1 ==> r.problems[0].node == leftNode || r.problems[0].node == rightNode
    ensures |r.problems| == 2 ==> r.problems[1].node == leftNode || r.problems[1].node == rightNode
  {
    if left.None? || right.None? then Ruled(UnknownOperandResult(op), [])
    else OperatorRule(op, left.value, right.value, leftNode, rightNode)
  }

  /** Every problem a binary operator's own checks register is on one of its operands. */
  lemma BinaryRuleNodes(op: BinaryOp, left: Option<ValueType>, right: Option<ValueType>, leftNode: nat, rightNode: nat)
    ensures forall p :: p in BinaryRule(op, left, right, leftNode, rightNode).problems ==>
      p.node == leftNode || p.node == rightNode
  {
    PairOnOperands(BinaryRule(op, left, right, leftNode, rightNode).problems, leftNode, rightNode);
  }
}
