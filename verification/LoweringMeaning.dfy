/** What SQL says an expression means, and how far the lowered tree agrees with it. */
module LoweringMeaning {
  import opened Common
  import opened SiriusAst
  import opened CudfTree
  import opened Lowering

  // ---- SQL's meaning: three-valued logic -----------------------------------------------------

  function SqlNot(a: Val): Val { if a.Null? then Null else Truthy(!Truth(a.d)) }

  predicate False(a: Val) { a.Known? && !Truth(a.d) }

  predicate True(a: Val) { a.Known? && Truth(a.d) }

  function SqlAnd(a: Val, b: Val): Val {
    if False(a) || False(b) then Truthy(false) else if a.Null? || b.Null? then Null else Truthy(true)
  }

  function SqlOr(a: Val, b: Val): Val {
    if True(a) || True(b) then Truthy(true) else if a.Null? || b.Null? then Null else Truthy(false)
  }

  function SqlCompare(c: Comparison, a: Val, b: Val, ops: Ops): Val {
    if a.Null? || b.Null? then Null else Truthy(ops.compare(c, a.d, b.d))
  }

  type SqlRow = nat -> Val

  /** The meaning of the expressions that can be lowered; the other kinds are never
      compared with a tree. */
  function Sql(e: Node, row: SqlRow, ops: Ops): Val
    decreases e, 0
  {
    match e
    case Reference(i, _) => row(i)
    case Constant(p, t) => if p.NullValue? then Null else Known(ops.literal(p, t))
    case Compare(c, l, r) => SqlCompare(c, Sql(l, row, ops), Sql(r, row, ops), ops)
    case Conjunction(k, cs) => if cs == [] then Null else SqlFold(k, e, |cs|, row, ops)
    case Between(x, lo, hi, li, ui) =>
      var v := Sql(x, row, ops);
      SqlAnd(SqlCompare(if li then Ge else Gt, v, Sql(lo, row, ops), ops),
             SqlCompare(if ui then Le else Lt, v, Sql(hi, row, ops), ops))
    case Cast(child, target, try_) =>
      var v := Sql(child, row, ops);
      if v.Null? then Null else ops.sqlCast(target, try_, v.d)
    case Unary(k, child) =>
      var v := Sql(child, row, ops);
      (match k
       case Not => SqlNot(v)
       case IsNull => Truthy(v.Null?)
       case IsNotNull => Truthy(v.Known?)
       case _ => v)
    case InList(_, values, negated) =>
      if values == [] then Null
      else if negated then SqlNot(SqlIn(e, |values|, row, ops)) else SqlIn(e, |values|, row, ops)
    case Call(f, args, _) =>
      if |args| != 2 then Null
      else
        var a, b := Sql(args[0], row, ops), Sql(args[1], row, ops);
        if a.Null? || b.Null? then Null else Known(ops.sqlArith(f, a.d, b.d))
    case _ => Null
  }

  function SqlFold(k: ConjunctionKind, e: Node, n: nat, row: SqlRow, ops: Ops): Val
    requires e.Conjunction? && 1 <= n <= |e.children|
    decreases e, 0, n
  {
    if n == 1 then Sql(e.children[0], row, ops)
    else
      var acc, v := SqlFold(k, e, n - 1, row, ops), Sql(e.children[n - 1], row, ops);
      if k == Or then SqlOr(acc, v) else SqlAnd(acc, v)
  }

  function SqlIn(e: Node, n: nat, row: SqlRow, ops: Ops): Val
    requires e.InList? && 1 <= n <= |e.values|
    decreases e, 0, n
  {
    var v := SqlCompare(Equal, Sql(e.probe, row, ops), Sql(e.values[n - 1], row, ops), ops);
    if n == 1 then v else SqlOr(SqlIn(e, n - 1, row, ops), v)
  }

  /** SQL's function has the value of the device operator it stands for, on two operands. */
  predicate SameValue(f: FunctionId, a: Datum, b: Datum, ops: Ops) {
    match f
    case Add => ops.sqlArith(Add, a, b) == ops.arith(ADD, a, b)
    case Sub => ops.sqlArith(Sub, a, b) == ops.arith(SUB, a, b)
    case Mul => ops.sqlArith(Mul, a, b) == ops.arith(MUL, a, b)
    case Div => ops.sqlArith(Div, a, b) == ops.arith(DIV, a, b)
    case IntDiv => ops.sqlArith(IntDiv, a, b) == ops.arith(DIV, a, b)
    case Mod => ops.sqlArith(Mod, a, b) == ops.arith(MOD, a, b)
    case _ => true
  }

  /** SQL's cast has the value of the device cast to the type's width and kind. */
  predicate SameCast(target: LogicalType, try_: bool, a: Datum, ops: Ops) {
    match target.id
    case BIGINT => ops.sqlCast(target, try_, a) == Known(ops.cast(CAST_TO_INT64, a))
    case HUGEINT => ops.sqlCast(target, try_, a) == Known(ops.cast(CAST_TO_INT64, a))
    case UBIGINT => ops.sqlCast(target, try_, a) == Known(ops.cast(CAST_TO_UINT64, a))
    case UHUGEINT => ops.sqlCast(target, try_, a) == Known(ops.cast(CAST_TO_UINT64, a))
    case DOUBLE => ops.sqlCast(target, try_, a) == Known(ops.cast(CAST_TO_FLOAT64, a))
    case _ => true
  }

  /** SQL computes this function as the device library does. */
  ghost predicate SharedCall(f: FunctionId, ops: Ops) {
    forall a: Datum, b: Datum :: SameValue(f, a, b, ops)
  }

  /** SQL casts to this type, with this flag, as the device library does. */
  ghost predicate SharedCast(target: LogicalType, try_: bool, ops: Ops) {
    forall a: Datum :: SameCast(target, try_, a, ops)
  }

  /** SQL computes the functions and casts of `e` as the device library does. */
  ghost predicate Shared(e: Node, ops: Ops) {
    match e
    case Compare(_, l, r) => Shared(l, ops) && Shared(r, ops)
    case Conjunction(_, cs) => forall i :: 0 <= i < |cs| ==> Shared(cs[i], ops)
    case Between(x, lo, hi, _, _) => Shared(x, ops) && Shared(lo, ops) && Shared(hi, ops)
    case Cast(a, target, try_) => SharedCast(target, try_, ops) && Shared(a, ops)
    case Unary(_, a) => Shared(a, ops)
    case InList(p, vs, _) => Shared(p, ops) && forall i :: 0 <= i < |vs| ==> Shared(vs[i], ops)
    case Call(f, args, _) => SharedCall(f, ops) && forall i :: 0 <= i < |args| ==> Shared(args[i], ops)
    case _ => true
  }

  // ---- The fragments -----------------------------------------------------------------------

  /** No BETWEEN leaves out a bound. */
  predicate Inclusive(e: Node) {
    match e
    case Compare(_, l, r) => Inclusive(l) && Inclusive(r)
    case Conjunction(_, cs) => forall i :: 0 <= i < |cs| ==> Inclusive(cs[i])
    case Between(x, lo, hi, li, ui) => li && ui && Inclusive(x) && Inclusive(lo) && Inclusive(hi)
    case Cast(a, _, _) => Inclusive(a)
    case Unary(_, a) => Inclusive(a)
    case InList(p, vs, _) => Inclusive(p) && forall i :: 0 <= i < |vs| ==> Inclusive(vs[i])
    case Call(_, args, _) => forall i :: 0 <= i < |args| ==> Inclusive(args[i])
    case _ => true
  }

  /** Nothing is joined by AND or OR, openly or inside IN and BETWEEN. */
  predicate Plain(e: Node) {
    match e
    case Compare(_, l, r) => Plain(l) && Plain(r)
    case Conjunction(_, cs) => |cs| == 1 && Plain(cs[0])
    case Between(_, _, _, _, _) => false
    case Cast(a, _, _) => Plain(a)
    case Unary(_, a) => Plain(a)
    case InList(p, vs, _) => |vs| == 1 && Plain(p) && Plain(vs[0])
    case Call(_, args, _) => forall i :: 0 <= i < |args| ==> Plain(args[i])
    case _ => true
  }

  /** IS NULL and IS NOT NULL stand above plain expressions only. */
  predicate Guarded(e: Node) {
    match e
    case Compare(_, l, r) => Guarded(l) && Guarded(r)
    case Conjunction(_, cs) => forall i :: 0 <= i < |cs| ==> Guarded(cs[i])
    case Between(x, lo, hi, _, _) => Guarded(x) && Guarded(lo) && Guarded(hi)
    case Cast(a, _, _) => Guarded(a)
    case Unary(k, a) => if k == IsNull || k == IsNotNull then Plain(a) else Guarded(a)
    case InList(p, vs, _) => Guarded(p) && forall i :: 0 <= i < |vs| ==> Guarded(vs[i])
    case Call(_, args, _) => forall i :: 0 <= i < |args| ==> Guarded(args[i])
    case _ => true
  }

  /** How the lowered value `a` and SQL's value `b` agree: exactly; exactly and known, on a
      row without nulls; or `a` is null or SQL's value. */
  datatype Mode = Exactly | WithoutNulls | Soundly

  predicate Agree(m: Mode, a: Val, b: Val) {
    match m
    case Exactly => a == b
    case WithoutNulls => a == b && a.Known?
    case Soundly => a.Null? || a == b
  }

  ghost predicate Within(m: Mode, e: Node, row: SqlRow) {
    match m
    case Exactly => Plain(e)
    case WithoutNulls => Inclusive(e) && forall i: nat :: row(i).Known?
    case Soundly => Inclusive(e) && Guarded(e)
  }

  ghost predicate Feeds(env: Env, t: Table, row: SqlRow) {
    forall i: nat :: env(t, i) == row(i)
  }

  // ---- Agreement, operation by operation ------------------------------------------------------

  lemma AgreeConnective(m: Mode, op: Op2, a: Val, a': Val, b: Val, b': Val, ops: Ops)
    requires m != Exactly && Agree(m, a, a') && Agree(m, b, b')
    ensures op == LOGICAL_AND ==> Agree(m, Run2(op, a, b, ops), SqlAnd(a', b'))
    ensures op == LOGICAL_OR ==> Agree(m, Run2(op, a, b, ops), SqlOr(a', b'))
  {
  }

  lemma AgreeCompare(m: Mode, c: Comparison, a: Val, a': Val, b: Val, b': Val, ops: Ops)
    requires ComparisonOp(c).Some? && Agree(m, a, a') && Agree(m, b, b')
    ensures Agree(m, Run2(ComparisonOp(c).value, a, b, ops), SqlCompare(c, a', b', ops))
  {
  }

  // ---- Agreement for whole expressions ---------------------------------------------------------

  /** The lowered term agrees with SQL, in each mode on that mode's fragment. */
  lemma {:induction false} Meaning(m: Mode, e: Node, t: Table, row: SqlRow, env: Env, ops: Ops)
    requires Lower(e, t).Done? && Within(m, e, row) && Feeds(env, t, row) && Shared(e, ops)
    ensures Agree(m, Eval(Lower(e, t).value, env, ops), Sql(e, row, ops))
    decreases e, 1
  {
    hide Within, Feeds, Shared, LowerFold, SqlFold, LowerIn, SqlIn;
    match e
    case Reference(_, _) => LeafMeaning(m, e, t, row, env, ops);
    case Constant(_, _) => LeafMeaning(m, e, t, row, env, ops);
    case Compare(_, _, _) => CompareMeaning(m, e, t, row, env, ops);
    case Conjunction(_, cs) => FoldMeaning(m, e, |cs|, t, row, env, ops);
    case Between(_, _, _, _, _) => BetweenMeaning(m, e, t, row, env, ops);
    case Cast(_, _, _) => CastMeaning(m, e, t, row, env, ops);
    case Unary(_, _) => UnaryMeaning(m, e, t, row, env, ops);
    case InList(_, vs, _) => InMeaning(m, e, |vs|, t, row, env, ops);
    case Call(_, _, _) => CallMeaning(m, e, t, row, env, ops);
    case _ =>
  }

  lemma LeafMeaning(m: Mode, e: Node, t: Table, row: SqlRow, env: Env, ops: Ops)
    requires e.Reference? || e.Constant?
    requires Lower(e, t).Done? && Within(m, e, row) && Feeds(env, t, row) && Shared(e, ops)
    ensures Agree(m, Eval(Lower(e, t).value, env, ops), Sql(e, row, ops))
  {
  }

  lemma {:induction false} CompareMeaning(m: Mode, e: Node, t: Table, row: SqlRow, env: Env, ops: Ops)
    requires e.Compare?
    requires Lower(e, t).Done? && Within(m, e, row) && Feeds(env, t, row) && Shared(e, ops)
    ensures Agree(m, Eval(Lower(e, t).value, env, ops), Sql(e, row, ops))
    decreases e, 0
  {
    var l, r := e.left, e.right;
    Meaning(m, l, t, row, env, ops);
    Meaning(m, r, t, row, env, ops);
    AgreeCompare(m, e.cmp, Eval(Lower(l, t).value, env, ops), Sql(l, row, ops), Eval(Lower(r, t).value, env, ops),
      Sql(r, row, ops), ops);
    hide Within, Feeds, Shared, Run2, SqlCompare, Agree;
  }

  lemma {:induction false} CastMeaning(m: Mode, e: Node, t: Table, row: SqlRow, env: Env, ops: Ops)
    requires e.Cast?
    requires Lower(e, t).Done? && Within(m, e, row) && Feeds(env, t, row) && Shared(e, ops)
    ensures Agree(m, Eval(Lower(e, t).value, env, ops), Sql(e, row, ops))
    decreases e, 0
  {
    Meaning(m, e.child, t, row, env, ops);
    var a := Sql(e.child, row, ops);
    if a.Known? { assert SameCast(e.target, e.tryCast, a.d, ops); }
    hide Within, Feeds, Shared, SharedCast;
  }

  lemma {:induction false} UnaryMeaning(m: Mode, e: Node, t: Table, row: SqlRow, env: Env, ops: Ops)
    requires e.Unary?
    requires Lower(e, t).Done? && Within(m, e, row) && Feeds(env, t, row) && Shared(e, ops)
    ensures Agree(m, Eval(Lower(e, t).value, env, ops), Sql(e, row, ops))
    decreases e, 0
  {
    if m == Soundly && (e.unary == IsNull || e.unary == IsNotNull) {
      Meaning(Exactly, e.child, t, row, env, ops);
    } else {
      Meaning(m, e.child, t, row, env, ops);
    }
    hide Within, Feeds, Shared;
  }

  lemma {:induction false} CallMeaning(m: Mode, e: Node, t: Table, row: SqlRow, env: Env, ops: Ops)
    requires e.Call?
    requires Lower(e, t).Done? && Within(m, e, row) && Feeds(env, t, row) && Shared(e, ops)
    ensures Agree(m, Eval(Lower(e, t).value, env, ops), Sql(e, row, ops))
    decreases e, 0
  {
    var args := e.arguments;
    Meaning(m, args[0], t, row, env, ops);
    Meaning(m, args[1], t, row, env, ops);
    var a, b := Sql(args[0], row, ops), Sql(args[1], row, ops);
    if a.Known? && b.Known? { assert SameValue(e.function_, a.d, b.d, ops); }
    hide Within, Feeds, Shared, SharedCall;
  }

  lemma {:induction false} FoldMeaning(m: Mode, e: Node, n: nat, t: Table, row: SqlRow, env: Env, ops: Ops)
    requires e.Conjunction? && ConjunctionOp(e.conj).Some? && 1 <= n <= |e.children|
    requires LowerFold(ConjunctionOp(e.conj).value, e, n, t).Done?
    requires Within(m, e, row) && Feeds(env, t, row) && Shared(e, ops)
    ensures Agree(m, Eval(LowerFold(ConjunctionOp(e.conj).value, e, n, t).value, env, ops),
            SqlFold(e.conj, e, n, row, ops))
    decreases e, 0, n
  {
    var op := ConjunctionOp(e.conj).value;
    Meaning(m, e.children[n - 1], t, row, env, ops);
    if n > 1 {
      FoldMeaning(m, e, n - 1, t, row, env, ops);
      AgreeConnective(m, op, Eval(LowerFold(op, e, n - 1, t).value, env, ops), SqlFold(e.conj, e, n - 1, row, ops),
                      Eval(Lower(e.children[n - 1], t).value, env, ops), Sql(e.children[n - 1], row, ops), ops);
    }
  }

  lemma BetweenOperands(m: Mode, e: Node, row: SqlRow, ops: Ops)
    requires e.Between? && Within(m, e, row) && Shared(e, ops)
    ensures Within(m, e.input, row) && Within(m, e.lower, row) && Within(m, e.upper, row)
    ensures Shared(e.input, ops) && Shared(e.lower, ops) && Shared(e.upper, ops)
    ensures m != Exactly && e.lowerInclusive && e.upperInclusive
  {
  }

  lemma {:induction false} BetweenMeaning(m: Mode, e: Node, t: Table, row: SqlRow, env: Env, ops: Ops)
    requires e.Between? && Lower(e, t).Done? && Within(m, e, row) && Feeds(env, t, row) && Shared(e, ops)
    ensures Agree(m, Eval(Lower(e, t).value, env, ops), Sql(e, row, ops))
    decreases e, 0
  {
    hide Within, Feeds, Shared, Run2, SqlCompare, SqlAnd, Agree;
    BetweenOperands(m, e, row, ops);
    Meaning(m, e.input, t, row, env, ops);
    Meaning(m, e.lower, t, row, env, ops);
    Meaning(m, e.upper, t, row, env, ops);
    var x, lo := Eval(Lower(e.input, t).value, env, ops), Eval(Lower(e.lower, t).value, env, ops);
    var hi := Eval(Lower(e.upper, t).value, env, ops);
    var x', lo', hi' := Sql(e.input, row, ops), Sql(e.lower, row, ops), Sql(e.upper, row, ops);
    AgreeCompare(m, Ge, x, x', lo, lo', ops);
    AgreeCompare(m, Le, x, x', hi, hi', ops);
    AgreeConnective(m, LOGICAL_AND, Run2(GREATER_EQUAL, x, lo, ops), SqlCompare(Ge, x', lo', ops),
                    Run2(LESS_EQUAL, x, hi, ops), SqlCompare(Le, x', hi', ops), ops);
  }

  lemma InOperands(m: Mode, e: Node, i: nat, row: SqlRow, ops: Ops)
    requires e.InList? && i < |e.values| && Within(m, e, row) && Shared(e, ops)
    ensures Within(m, e.probe, row) && Within(m, e.values[i], row)
    ensures Shared(e.probe, ops) && Shared(e.values[i], ops) && (m == Exactly ==> |e.values| == 1)
  {
  }

  lemma {:induction false} InMeaning(m: Mode, e: Node, n: nat, t: Table, row: SqlRow, env: Env, ops: Ops)
    requires e.InList? && 1 <= n <= |e.values| && LowerIn(e, n, t).Done?
    requires Within(m, e, row) && Feeds(env, t, row) && Shared(e, ops)
    ensures Agree(m, Eval(LowerIn(e, n, t).value, env, ops), SqlIn(e, n, row, ops))
    decreases e, 0, n
  {
    hide Within, Feeds, Shared, Run2, SqlCompare, SqlOr, Agree, Lower, Sql;
    InOperands(m, e, n - 1, row, ops);
    Meaning(m, e.probe, t, row, env, ops);
    Meaning(m, e.values[n - 1], t, row, env, ops);
    var p, v := Eval(Lower(e.probe, t).value, env, ops), Eval(Lower(e.values[n - 1], t).value, env, ops);
    var p', v' := Sql(e.probe, row, ops), Sql(e.values[n - 1], row, ops);
    AgreeCompare(m, Equal, p, p', v, v', ops);
    if n > 1 {
      InMeaning(m, e, n - 1, t, row, env, ops);
      AgreeConnective(m, LOGICAL_OR, Eval(LowerIn(e, n - 1, t).value, env, ops), SqlIn(e, n - 1, row, ops),
                      Run2(EQUAL, p, v, ops), SqlCompare(Equal, p', v', ops), ops);
    }
  }
}
