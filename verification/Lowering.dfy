/** Lowering of the engine's expressions to device-library trees. */
module Lowering {
  import opened Common
  import opened SiriusAst
  import opened CudfTree

  // ---- Device expressions as terms, and how a term is laid out in a tree ----------------------

  /** A device expression as a term. `Ranged` is the lowered BETWEEN, whose input node is
      used by both comparisons. */
  datatype Term =
    | ColumnOf(index: nat, table: Table)
    | LiteralOf(payload: Value, typ: LogicalType)
    | Op1Of(op1: Op1, a: Term)
    | Op2Of(op2: Op2, a: Term, b: Term)
    | Ranged(x: Term, lo: Term, hi: Term)

  function Eval(c: Term, env: Env, ops: Ops): Val {
    match c
    case ColumnOf(i, t) => env(t, i)
    case LiteralOf(p, t) => Known(ops.literal(p, t))
    case Op1Of(op, a) => Run1(op, Eval(a, env, ops), ops)
    case Op2Of(op, a, b) => Run2(op, Eval(a, env, ops), Eval(b, env, ops), ops)
    case Ranged(x, lo, hi) =>
      var v := Eval(x, env, ops);
      Run2(LOGICAL_AND, Run2(GREATER_EQUAL, v, Eval(lo, env, ops), ops),
        Run2(LESS_EQUAL, v, Eval(hi, env, ops), ops), ops)
  }

  /** The tree extended by a term: operands first, the term's own node last. */
  function Put(c: Term, tree: Tree): (tree': Tree)
    ensures tree <= tree' && |tree| < |tree'|
    decreases c
  {
    match c
    case ColumnOf(i, t) => tree + [Column(i, t)]
    case LiteralOf(p, t) => tree + [Literal(p, t)]
    case Op1Of(op, a) => var t := Put(a, tree); t + [Apply1(op, |t| - 1)]
    case Op2Of(op, a, b) =>
      var t := Put(a, tree);
      var u := Put(b, t);
      u + [Apply2(op, |t| - 1, |u| - 1)]
    case Ranged(x, lo, hi) =>
      var t := Put(x, tree);
      var u := Put(lo, t);
      var w := Put(hi, u);
      w + RangeNodes(w, |t| - 1, |u| - 1)
  }

  /** The three nodes of a lowered BETWEEN, with its upper bound at the back of `w`. */
  function RangeNodes(w: Tree, ix: nat, il: nat): Tree
    requires |w| > 0
  {
    [Apply2(GREATER_EQUAL, ix, il), Apply2(LESS_EQUAL, ix, |w| - 1), Apply2(LOGICAL_AND, |w|, |w| + 1)]
  }

  /** The tree's back computes what the term means, and every operand precedes its
      operation. */
  ghost predicate Computes(tree: Tree, c: Term, env: Env, ops: Ops) {
    tree != [] && OperandsFirst(tree) && Run(tree, |tree| - 1, env, ops) == Eval(c, env, ops)
  }

  lemma {:induction false} PutComputes(c: Term, tree: Tree, env: Env, ops: Ops)
    requires OperandsFirst(tree)
    ensures Computes(Put(c, tree), c, env, ops) && OperandsFirst(Put(c, tree))
    decreases c
  {
    match c
    case ColumnOf(_, _) => LeafComputes(c, tree, env, ops); hide *;
    case LiteralOf(_, _) => LeafComputes(c, tree, env, ops); hide *;
    case Op1Of(op, a) =>
      var t := Put(a, tree);
      assert Put(c, tree) == t + [Apply1(op, |t| - 1)];
      hide *;
      PutComputes(a, tree, env, ops);
      Join1(t, op, a, env, ops);
    case Op2Of(op, a, b) =>
      var t := Put(a, tree);
      var u := Put(b, t);
      assert Put(c, tree) == u + [Apply2(op, |t| - 1, |u| - 1)];
      hide *;
      PutComputes(a, tree, env, ops);
      PutComputes(b, t, env, ops);
      Join2(t, u, op, a, b, env, ops);
    case Ranged(x, lo, hi) =>
      var t := Put(x, tree);
      var u := Put(lo, t);
      var w := Put(hi, u);
      assert Put(c, tree) == w + RangeNodes(w, |t| - 1, |u| - 1);
      hide *;
      PutComputes(x, tree, env, ops);
      PutComputes(lo, t, env, ops);
      PutComputes(hi, u, env, ops);
      Join3(t, u, w, x, lo, hi, env, ops);
  }

  lemma LeafComputes(c: Term, tree: Tree, env: Env, ops: Ops)
    requires OperandsFirst(tree)
    ensures c.ColumnOf? || c.LiteralOf? ==> Computes(Put(c, tree), c, env, ops) && OperandsFirst(Put(c, tree))
  {
  }

  lemma Join1(t: Tree, op: Op1, a: Term, env: Env, ops: Ops)
    requires Computes(t, a, env, ops)
    ensures Computes(t + [Apply1(op, |t| - 1)], Op1Of(op, a), env, ops) && OperandsFirst(t + [Apply1(op, |t| - 1)])
  {
    Append1(t, Apply1(op, |t| - 1), env, ops);
  }

  lemma Join2(t: Tree, u: Tree, op: Op2, a: Term, b: Term, env: Env, ops: Ops)
    requires t <= u && Computes(t, a, env, ops) && Computes(u, b, env, ops)
    ensures Computes(u + [Apply2(op, |t| - 1, |u| - 1)], Op2Of(op, a, b), env, ops) &&
            OperandsFirst(u + [Apply2(op, |t| - 1, |u| - 1)])
  {
    hide OperandsFirst, Run;
    assert u == t + u[|t|..];
    RunAppend(t, u[|t|..], |t| - 1, env, ops);
    Append1(u, Apply2(op, |t| - 1, |u| - 1), env, ops);
  }

  lemma Join3(t: Tree, u: Tree, w: Tree, x: Term, lo: Term, hi: Term, env: Env, ops: Ops)
    requires t <= u <= w && Computes(t, x, env, ops) && Computes(u, lo, env, ops) && Computes(w, hi, env, ops)
    ensures Computes(w + RangeNodes(w, |t| - 1, |u| - 1), Ranged(x, lo, hi), env, ops) &&
            OperandsFirst(w + RangeNodes(w, |t| - 1, |u| - 1))
  {
    hide OperandsFirst, Run;
    assert u == t + u[|t|..] && w == u + w[|u|..];
    RunAppend(t, u[|t|..], |t| - 1, env, ops);
    RunAppend(u, w[|u|..], |t| - 1, env, ops);
    RunAppend(u, w[|u|..], |u| - 1, env, ops);
    AppendRange(w, |t| - 1, |u| - 1, env, ops);
  }

  lemma Append1(t: Tree, n: CNode, env: Env, ops: Ops)
    requires OperandsFirst(t) && RefersBack(n, |t|)
    ensures OperandsFirst(t + [n])
    ensures n.Apply1? ==> Run(t + [n], |t|, env, ops) == Run1(n.op1, Run(t, n.a, env, ops), ops)
    ensures n.Apply2? ==> Run(t + [n], |t|, env, ops) == Run2(n.op2, Run(t, n.a, env, ops), Run(t, n.b, env, ops), ops)
  {
    match n
    case Apply1(_, a) => RunAppend(t, [n], a, env, ops);
    case Apply2(_, a, b) => RunAppend(t, [n], a, env, ops); RunAppend(t, [n], b, env, ops);
    case _ =>
  }

  lemma AppendRange(w: Tree, ix: nat, il: nat, env: Env, ops: Ops)
    requires |w| > 0 && OperandsFirst(w) && ix < |w| && il < |w|
    ensures var tree := w + RangeNodes(w, ix, il);
            && OperandsFirst(tree)
            && Run(tree, |w| + 2, env, ops) ==
                 Run2(LOGICAL_AND, Run2(GREATER_EQUAL, Run(w, ix, env, ops), Run(w, il, env, ops), ops),
                      Run2(LESS_EQUAL, Run(w, ix, env, ops), Run(w, |w| - 1, env, ops), ops), ops)
  {
    var n1, n2, n3 := Apply2(GREATER_EQUAL, ix, il), Apply2(LESS_EQUAL, ix, |w| - 1), Apply2(LOGICAL_AND, |w|, |w| + 1);
    Append1(w, n1, env, ops);
    var w1 := w + [n1];
    RunAppend(w, [n1], ix, env, ops);
    RunAppend(w, [n1], |w| - 1, env, ops);
    Append1(w1, n2, env, ops);
    var w2 := w1 + [n2];
    RunAppend(w1, [n2], |w|, env, ops);
    Append1(w2, n3, env, ops);
    assert w + RangeNodes(w, ix, il) == w2 + [n3];
  }

  // ---- Which expressions are lowered, and to what ----------------------------------------------

  datatype Outcome<T> = Done(value: T) | Rejected | Thrown

  datatype DeviceType =
    | D_INT8 | D_INT16 | D_INT32 | D_INT64 | D_UINT8 | D_UINT16 | D_UINT32 | D_UINT64
    | D_FLOAT32 | D_FLOAT64 | D_BOOL8 | D_DAYS | D_SECONDS | D_MILLISECONDS | D_MICROSECONDS | D_NANOSECONDS
    | D_STRING | D_STRUCT | D_DECIMAL32 | D_DECIMAL64 | D_DECIMAL128

  /** The device type of an SQL type; None where the mapping throws. */
  function DeviceTypeOf(t: LogicalType): Option<DeviceType> {
    match t.id
    case TINYINT => Some(D_INT8)
    case SMALLINT => Some(D_INT16)
    case INTEGER => Some(D_INT32)
    case BIGINT => Some(D_INT64)
    case HUGEINT => Some(D_INT64)
    case UTINYINT => Some(D_UINT8)
    case USMALLINT => Some(D_UINT16)
    case UINTEGER => Some(D_UINT32)
    case UBIGINT => Some(D_UINT64)
    case UHUGEINT => Some(D_UINT64)
    case FLOAT => Some(D_FLOAT32)
    case DOUBLE => Some(D_FLOAT64)
    case BOOLEAN => Some(D_BOOL8)
    case DATE => Some(D_DAYS)
    case TIMESTAMP_SEC => Some(D_SECONDS)
    case TIMESTAMP_MS => Some(D_MILLISECONDS)
    case TIMESTAMP => Some(D_MICROSECONDS)
    case TIMESTAMP_NS => Some(D_NANOSECONDS)
    case VARCHAR => Some(D_STRING)
    case STRUCT => Some(D_STRUCT)
    case DECIMAL =>
      if t.precision <= MAX_PRECISION_INT16 then None
      else if t.precision <= MAX_PRECISION_INT32 then Some(D_DECIMAL32)
      else if t.precision <= MAX_PRECISION_INT64 then Some(D_DECIMAL64)
      else Some(D_DECIMAL128)
    case _ => None
  }

  /** The literal's payload is the alternative its device type is read from. */
  predicate Holds(p: Value, d: DeviceType) {
    match d
    case D_INT8 => p.Int8?
    case D_INT16 => p.Int16?
    case D_INT32 => p.Int32?
    case D_INT64 => p.Int64?
    case D_UINT8 => p.UInt8?
    case D_UINT16 => p.UInt16?
    case D_UINT32 => p.UInt32?
    case D_UINT64 => p.UInt64?
    case D_FLOAT32 => p.Float32?
    case D_FLOAT64 => p.Float64?
    case D_BOOL8 => p.BoolValue?
    case D_DAYS => p.DateValue?
    case D_SECONDS => p.TimestampSec?
    case D_MILLISECONDS => p.TimestampMs?
    case D_MICROSECONDS => p.TimestampUs?
    case D_NANOSECONDS => p.TimestampNs?
    case D_STRING => p.Text?
    case D_DECIMAL32 => p.Decimal32?
    case D_DECIMAL64 => p.Decimal64?
    case D_DECIMAL128 => p.Decimal128?
    case D_STRUCT => false
  }

  function LowerConstant(p: Value, t: LogicalType): Outcome<Term> {
    if p.NullValue? then Rejected
    else match DeviceTypeOf(t)
      case None => Thrown
      case Some(d) =>
        if d == D_STRUCT then Rejected else if Holds(p, d) then Done(LiteralOf(p, t)) else Thrown
  }

  function ComparisonOp(c: Comparison): Option<Op2> {
    match c
    case Equal => Some(EQUAL)
    case NotEqual => Some(NOT_EQUAL)
    case Lt => Some(LESS)
    case Gt => Some(GREATER)
    case Le => Some(LESS_EQUAL)
    case Ge => Some(GREATER_EQUAL)
    case _ => None
  }

  function ConjunctionOp(k: ConjunctionKind): Option<Op2> {
    match k case And => Some(LOGICAL_AND) case Or => Some(LOGICAL_OR) case _ => None
  }

  function CastOp(t: LogicalType): Outcome<Op1> {
    match DeviceTypeOf(t)
    case None => Thrown
    case Some(D_INT64) => Done(CAST_TO_INT64)
    case Some(D_UINT64) => Done(CAST_TO_UINT64)
    case Some(D_FLOAT64) => Done(CAST_TO_FLOAT64)
    case Some(_) => Rejected
  }

  function ArithOp(f: FunctionId): Option<Op2> {
    match f
    case Add => Some(ADD)
    case Sub => Some(SUB)
    case Mul => Some(MUL)
    case Div => Some(DIV)
    case IntDiv => Some(DIV)
    case Mod => Some(MOD)
    case _ => None
  }

  /** Both operands are lowered before either failure is looked at. */
  function Pair(op: Option<Op2>, a: Outcome<Term>, b: Outcome<Term>): Outcome<Term> {
    if a.Thrown? || b.Thrown? then Thrown
    else if a.Rejected? || b.Rejected? || op.None? then Rejected
    else Done(Op2Of(op.value, a.value, b.value))
  }

  function Triple(a: Outcome<Term>, b: Outcome<Term>, c: Outcome<Term>): Outcome<Term> {
    if a.Thrown? || b.Thrown? || c.Thrown? then Thrown
    else if a.Rejected? || b.Rejected? || c.Rejected? then Rejected
    else Done(Ranged(a.value, b.value, c.value))
  }

  function Lower(e: Node, t: Table): Outcome<Term>
    decreases e, 0
  {
    match e
    case Reference(i, _) => Done(ColumnOf(i, t))
    case Constant(p, typ) => LowerConstant(p, typ)
    case Compare(c, l, r) => Pair(ComparisonOp(c), Lower(l, t), Lower(r, t))
    case Conjunction(k, cs) =>
      if cs == [] || ConjunctionOp(k).None? then Rejected
      else LowerFold(ConjunctionOp(k).value, e, |cs|, t)
    case Between(x, lo, hi, _, _) =>
      Triple(Lower(x, t), Lower(lo, t), Lower(hi, t))
    case CaseOf(_, _, _) => Rejected
    case Cast(child, target, _) =>
      (match Lower(child, t)
       case Done(a) =>
         (match CastOp(target)
          case Done(op) => Done(Op1Of(op, a))
          case Rejected => Rejected
          case Thrown => Thrown)
       case failed => failed)
    case Unary(k, child) =>
      (match Lower(child, t)
       case Done(a) =>
         (match k
          case Not => Done(Op1Of(NOT, a))
          case IsNull => Done(Op1Of(IS_NULL, a))
          case IsNotNull => Done(Op1Of(NOT, Op1Of(IS_NULL, a)))
          case _ => Rejected)
       case failed => failed)
    case Coalesce(_, _) => Rejected
    case InList(probe, values, negated) =>
      if values == [] then Rejected
      else
        (match LowerIn(e, |values|, t)
         case Done(c) => if negated then Done(Op1Of(NOT, c)) else Done(c)
         case failed => failed)
    case Call(f, args, _) =>
      if exists i :: 0 <= i < |args| && CarriedType(args[i]) == DECIMAL then Rejected
      else if ArithOp(f).None? || |args| != 2 then Rejected
      else Pair(ArithOp(f), Lower(args[0], t), Lower(args[1], t))
    case Aggregate(_, _, _, _) => Thrown
  }

  /** The first `n` children of a conjunction, folded from the left. */
  function LowerFold(op: Op2, e: Node, n: nat, t: Table): Outcome<Term>
    requires e.Conjunction? && 1 <= n <= |e.children|
    decreases e, 0, n
  {
    if n == 1 then Lower(e.children[0], t)
    else
      match LowerFold(op, e, n - 1, t)
      case Done(acc) =>
        (match Lower(e.children[n - 1], t)
         case Done(c) => Done(Op2Of(op, acc, c))
         case failed => failed)
      case failed => failed
  }

  /** One comparison of an IN: the probe is lowered anew for every value. */
  function LowerTest(e: Node, i: nat, t: Table): Outcome<Term>
    requires e.InList? && i < |e.values|
    decreases e, 0, 0
  {
    match Lower(e.probe, t)
    case Done(p) =>
      (match Lower(e.values[i], t)
       case Done(v) => Done(Op2Of(EQUAL, p, v))
       case failed => failed)
    case failed => failed
  }

  function LowerIn(e: Node, n: nat, t: Table): Outcome<Term>
    requires e.InList? && 1 <= n <= |e.values|
    decreases e, 0, n
  {
    if n == 1 then LowerTest(e, 0, t)
    else
      match LowerIn(e, n - 1, t)
      case Done(acc) =>
        (match LowerTest(e, n - 1, t)
         case Done(c) => Done(Op2Of(LOGICAL_OR, acc, c))
         case failed => failed)
      case failed => failed
  }

  // ---- Join conditions --------------------------------------------------------------------------

  /** One comparison between the two sides; a side that could not be translated is absent. */
  datatype JoinCondition = JoinCondition(left: Option<Node>, right: Option<Node>, cmp: Comparison)

  function Side(left: bool, swap: bool): Table { if left != swap then LeftTable else RightTable }

  /** One side lowered, if it is there. */
  function LowerSide(side: Option<Node>, t: Table): Option<Outcome<Term>> {
    if side.None? then None else Some(Lower(side.value, t))
  }

  /** The sides are looked at one after the other. */
  function Joined(op: Option<Op2>, l: Option<Outcome<Term>>, r: Option<Outcome<Term>>): Outcome<Term> {
    if l.None? then Rejected
    else if !l.value.Done? then l.value
    else if r.None? then Rejected
    else if !r.value.Done? then r.value
    else if op.None? then Rejected
    else Done(Op2Of(op.value, l.value.value, r.value.value))
  }

  function LowerCondition(c: JoinCondition, swap: bool): Outcome<Term> {
    Joined(ComparisonOp(c.cmp), LowerSide(c.left, Side(true, swap)), LowerSide(c.right, Side(false, swap)))
  }

  /** The conditions `start` up to `end`, joined by AND. */
  function LowerConditions(cs: seq<JoinCondition>, start: nat, end: nat, swap: bool): Outcome<Term>
    requires start < end <= |cs|
  {
    if end == start + 1 then LowerCondition(cs[start], swap)
    else
      match LowerConditions(cs, start, end - 1, swap)
      case Done(acc) =>
        (match LowerCondition(cs[end - 1], swap)
         case Done(c) => Done(Op2Of(LOGICAL_AND, acc, c))
         case failed => failed)
      case failed => failed
  }
}
