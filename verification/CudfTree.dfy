/** The device library's expression trees: an append-only sequence of nodes in which an
    operation refers to its operands by position, and what such a tree computes. */
module CudfTree {
  import opened Common
  import opened SiriusAst

  datatype Table = LeftTable | RightTable

  datatype Op1 = NOT | IS_NULL | CAST_TO_INT64 | CAST_TO_UINT64 | CAST_TO_FLOAT64

  datatype Op2 =
    | EQUAL | NOT_EQUAL | LESS | GREATER | LESS_EQUAL | GREATER_EQUAL
    | LOGICAL_AND | LOGICAL_OR
    | ADD | SUB | MUL | DIV | MOD

  datatype CNode =
    | Column(index: nat, table: Table)
    | Literal(payload: Value, typ: LogicalType)
    | Apply1(op1: Op1, a: nat)
    | Apply2(op2: Op2, a: nat, b: nat)

  type Tree = seq<CNode>

  predicate RefersBack(n: CNode, i: nat) {
    match n
    case Apply1(_, a) => a < i
    case Apply2(_, a, b) => a < i && b < i
    case _ => true
  }

  /** Every operand was appended before the operation that uses it. */
  predicate OperandsFirst(tree: Tree) {
    forall i :: 0 <= i < |tree| ==> RefersBack(tree[i], i)
  }

  // ---- Values ------------------------------------------------------------------------------

  datatype Datum = Bool(b: bool) | Scalar(s: int)

  datatype Val = Null | Known(d: Datum)

  /** The primitives shared by the device library and SQL: literals and comparisons; and
      the arithmetic and casts of each. They are total; a cast of SQL can give null. */
  datatype Ops = Ops(
    literal: (Value, LogicalType) -> Datum,
    compare: (Comparison, Datum, Datum) -> bool,
    arith: (Op2, Datum, Datum) -> Datum,
    cast: (Op1, Datum) -> Datum,
    sqlArith: (FunctionId, Datum, Datum) -> Datum,
    sqlCast: (LogicalType, bool, Datum) -> Val)

  type Env = (Table, nat) -> Val

  function Truth(d: Datum): bool { match d case Bool(b) => b case Scalar(s) => s != 0 }

  function Truthy(b: bool): Val { Known(Bool(b)) }

  function Run1(op: Op1, a: Val, ops: Ops): Val {
    match op
    case IS_NULL => Truthy(a.Null?)
    case NOT => if a.Null? then Null else Truthy(!Truth(a.d))
    case _ => if a.Null? then Null else Known(ops.cast(op, a.d))
  }

  function ComparisonOf(op: Op2): Option<Comparison> {
    match op
    case EQUAL => Some(Equal)
    case NOT_EQUAL => Some(NotEqual)
    case LESS => Some(Lt)
    case GREATER => Some(Gt)
    case LESS_EQUAL => Some(Le)
    case GREATER_EQUAL => Some(Ge)
    case _ => None
  }

  /** Every binary operation gives null when an operand is null, LOGICAL_AND and
      LOGICAL_OR included. */
  function Run2(op: Op2, a: Val, b: Val, ops: Ops): Val {
    if a.Null? || b.Null? then Null
    else if op == LOGICAL_AND then Truthy(Truth(a.d) && Truth(b.d))
    else if op == LOGICAL_OR then Truthy(Truth(a.d) || Truth(b.d))
    else match ComparisonOf(op)
      case Some(c) => Truthy(ops.compare(c, a.d, b.d))
      case None => Known(ops.arith(op, a.d, b.d))
  }

  /** What node `i` of a tree computes on one row. */
  function Run(tree: Tree, i: nat, env: Env, ops: Ops): Val
    requires i < |tree| && OperandsFirst(tree)
    decreases i
  {
    match tree[i]
    case Column(index, table) => env(table, index)
    case Literal(p, t) => Known(ops.literal(p, t))
    case Apply1(op, a) =>
      assert RefersBack(tree[i], i);
      Run1(op, Run(tree, a, env, ops), ops)
    case Apply2(op, a, b) =>
      assert RefersBack(tree[i], i);
      Run2(op, Run(tree, a, env, ops), Run(tree, b, env, ops), ops)
  }

  /** Appending to a tree changes nothing it computes. */
  lemma {:induction false} RunAppend(tree: Tree, more: Tree, i: nat, env: Env, ops: Ops)
    requires i < |tree| && OperandsFirst(tree) && OperandsFirst(tree + more)
    ensures Run(tree + more, i, env, ops) == Run(tree, i, env, ops)
    decreases i
  {
    assert (tree + more)[i] == tree[i] && RefersBack(tree[i], i);
    match tree[i]
    case Apply1(_, a) => RunAppend(tree, more, a, env, ops);
    case Apply2(_, a, b) => RunAppend(tree, more, a, env, ops); RunAppend(tree, more, b, env, ops);
    case _ =>
  }
}
