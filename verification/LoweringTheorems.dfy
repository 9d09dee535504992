/** Main results about lowering: what a lowered filter keeps, where it differs from SQL, and
    joins with their sides swapped. */
module LoweringTheorems {
  import opened Common
  import opened SiriusAst
  import opened CudfTree
  import opened Lowering
  import opened LoweringMeaning

  /** The value a lowered expression's tree gives at its back. */
  function Lowered(e: Node, t: Table, env: Env, ops: Ops): Val
    requires Lower(e, t).Done?
  {
    var tree := Put(Lower(e, t).value, []);
    PutComputes(Lower(e, t).value, [], env, ops);
    Run(tree, |tree| - 1, env, ops)
  }

  lemma LoweredIsEval(e: Node, t: Table, env: Env, ops: Ops)
    requires Lower(e, t).Done?
    ensures Lowered(e, t, env, ops) == Eval(Lower(e, t).value, env, ops)
  {
    PutComputes(Lower(e, t).value, [], env, ops);
  }

  /** On a row without nulls the tree gives SQL's value, provided BETWEEN is inclusive. */
  lemma SameWithoutNulls(e: Node, t: Table, row: SqlRow, env: Env, ops: Ops)
    requires Lower(e, t).Done? && Inclusive(e) && (forall i: nat :: row(i).Known?) && Feeds(env, t, row) &&
             Shared(e, ops)
    ensures Lowered(e, t, env, ops) == Sql(e, row, ops)
  {
    LoweredIsEval(e, t, env, ops);
    Meaning(WithoutNulls, e, t, row, env, ops);
  }

  /** On any row the tree gives SQL's value or null, and a filter on it keeps no row that
      SQL drops, provided IS [NOT] NULL stands above plain expressions only. */
  lemma FilterKeepsNothingExtra(e: Node, t: Table, row: SqlRow, env: Env, ops: Ops)
    requires Lower(e, t).Done? && Inclusive(e) && Guarded(e) && Feeds(env, t, row) && Shared(e, ops)
    ensures Lowered(e, t, env, ops).Known? ==> Lowered(e, t, env, ops) == Sql(e, row, ops)
    ensures True(Lowered(e, t, env, ops)) ==> True(Sql(e, row, ops))
  {
    LoweredIsEval(e, t, env, ops);
    Meaning(Soundly, e, t, row, env, ops);
  }

  /** Without AND and OR the tree gives SQL's value on every row. */
  lemma PlainIsExact(e: Node, t: Table, row: SqlRow, env: Env, ops: Ops)
    requires Lower(e, t).Done? && Plain(e) && Feeds(env, t, row) && Shared(e, ops)
    ensures Lowered(e, t, env, ops) == Sql(e, row, ops)
  {
    LoweredIsEval(e, t, env, ops);
    Meaning(Exactly, e, t, row, env, ops);
  }

  /** ANDs of plain expressions and of inclusive BETWEENs over plain expressions. */
  predicate Conjunctive(e: Node) {
    match e
    case Conjunction(k, cs) => k == And && forall i :: 0 <= i < |cs| ==> Conjunctive(cs[i])
    case Between(x, lo, hi, li, ui) => li && ui && Plain(x) && Plain(lo) && Plain(hi)
    case _ => Plain(e)
  }

  /** For such a filter the tree keeps exactly the rows SQL keeps, nulls or not. */
  lemma {:induction false} ConjunctiveFilterIsExact(e: Node, t: Table, row: SqlRow, env: Env, ops: Ops)
    requires Lower(e, t).Done? && Conjunctive(e) && Feeds(env, t, row) && Shared(e, ops)
    ensures True(Eval(Lower(e, t).value, env, ops)) <==> True(Sql(e, row, ops))
    decreases e, 1
  {
    match e
    case Conjunction(_, cs) => ConjunctiveFold(e, |cs|, t, row, env, ops);
    case Between(_, _, _, _, _) => BetweenFilterIsExact(e, t, row, env, ops); hide *;
    case _ => Meaning(Exactly, e, t, row, env, ops); hide Sql, Lower, Eval, Feeds, Shared, Plain, Conjunctive;
  }

  lemma BetweenFilterIsExact(e: Node, t: Table, row: SqlRow, env: Env, ops: Ops)
    requires e.Between? && Lower(e, t).Done? && Conjunctive(e) && Feeds(env, t, row) && Shared(e, ops)
    ensures True(Eval(Lower(e, t).value, env, ops)) <==> True(Sql(e, row, ops))
  {
    BetweenValues(e, t, row, env, ops);
    hide Feeds, Shared, Plain, Lower, Eval, Sql;
  }

  lemma {:induction false} ConjunctiveFold(e: Node, n: nat, t: Table, row: SqlRow, env: Env, ops: Ops)
    requires e.Conjunction? && e.conj == And && 1 <= n <= |e.children| && LowerFold(LOGICAL_AND, e, n, t).Done?
    requires Conjunctive(e) && Feeds(env, t, row) && Shared(e, ops)
    ensures True(Eval(LowerFold(LOGICAL_AND, e, n, t).value, env, ops)) <==> True(SqlFold(And, e, n, row, ops))
    decreases e, 0, n
  {
    ConjunctiveFilterIsExact(e.children[n - 1], t, row, env, ops);
    if n > 1 {
      ConjunctiveFold(e, n - 1, t, row, env, ops);
    }
  }

  // ---- Where the tree and SQL differ -------------------------------------------------------------

  /** The value that settles an AND or an OR whatever else is joined. */
  predicate Decides(k: ConjunctionKind, v: Val) { if k == Or then True(v) else False(v) }

  predicate SomeNull(vals: seq<Val>) { exists i :: 0 <= i < |vals| && vals[i].Null? }

  predicate SomeDecides(k: ConjunctionKind, vals: seq<Val>) { exists i :: 0 <= i < |vals| && Decides(k, vals[i]) }

  /** A null meets the value that decides. */
  predicate Clash(k: ConjunctionKind, vals: seq<Val>) { SomeNull(vals) && SomeDecides(k, vals) }

  function DeviceJoin(k: ConjunctionKind, vals: seq<Val>, ops: Ops): Val
    requires vals != [] && ConjunctionOp(k).Some?
  {
    var n := |vals| - 1;
    if n == 0 then vals[0] else Run2(ConjunctionOp(k).value, DeviceJoin(k, vals[..n], ops), vals[n], ops)
  }

  function SqlJoin(k: ConjunctionKind, vals: seq<Val>): Val
    requires vals != []
  {
    var n := |vals| - 1;
    if n == 0 then vals[0]
    else if k == Or then SqlOr(SqlJoin(k, vals[..n]), vals[n]) else SqlAnd(SqlJoin(k, vals[..n]), vals[n])
  }

  /** Null or a boolean. */
  predicate Flat(v: Val) { v.Known? ==> v.d.Bool? }

  lemma SplitLast(k: ConjunctionKind, vals: seq<Val>)
    requires |vals| > 1
    ensures var n := |vals| - 1;
            && (SomeNull(vals) <==> SomeNull(vals[..n]) || vals[n].Null?)
            && (SomeDecides(k, vals) <==> SomeDecides(k, vals[..n]) || Decides(k, vals[n]))
  {
    var n := |vals| - 1;
    assert vals == vals[..n] + [vals[n]];
  }

  lemma {:induction false} JoinFacts(k: ConjunctionKind, vals: seq<Val>, ops: Ops)
    requires vals != [] && ConjunctionOp(k).Some?
    ensures var d := DeviceJoin(k, vals, ops);
            && (d.Null? <==> SomeNull(vals)) && (d.Known? ==> (Decides(k, d) <==> SomeDecides(k, vals)))
            && (|vals| > 1 ==> Flat(d))
    ensures var q := SqlJoin(k, vals);
            && (Decides(k, q) <==> SomeDecides(k, vals)) && (q.Null? <==> SomeNull(vals) && !SomeDecides(k, vals))
            && (|vals| > 1 ==> Flat(q))
  {
    if |vals| > 1 {
      SplitLast(k, vals);
      JoinFacts(k, vals[..|vals| - 1], ops);
    } else {
      assert vals == [vals[0]];
    }
    hide SomeNull, SomeDecides;
  }

  /** The device's AND and OR of any number of values is SQL's exactly when no null meets the
      value that decides; otherwise it is null where SQL's is that value. */
  lemma JoinsAgreeIff(k: ConjunctionKind, vals: seq<Val>, ops: Ops)
    requires vals != [] && ConjunctionOp(k).Some?
    ensures DeviceJoin(k, vals, ops) == SqlJoin(k, vals) <==> !Clash(k, vals)
    ensures Clash(k, vals) ==> DeviceJoin(k, vals, ops).Null? && Decides(k, SqlJoin(k, vals))
  {
    JoinFacts(k, vals, ops);
    hide SomeNull, SomeDecides;
  }

  // What AND, OR, IN and BETWEEN join.

  predicate Joins(e: Node) { e.Conjunction? || e.InList? || e.Between? }

  function JoinKind(e: Node): ConjunctionKind
    requires Joins(e)
  {
    if e.Conjunction? then e.conj else if e.InList? then Or else And
  }

  /** SQL's values of the joined parts. */
  function Parts(e: Node, row: SqlRow, ops: Ops): (r: seq<Val>)
    requires Joins(e)
    ensures |r| == if e.Conjunction? then |e.children| else if e.InList? then |e.values| else 2
  {
    if e.Conjunction? then seq(|e.children|, i requires 0 <= i < |e.children| => Sql(e.children[i], row, ops))
    else if e.InList? then
      seq(|e.values|, i requires 0 <= i < |e.values| =>
        SqlCompare(Equal, Sql(e.probe, row, ops), Sql(e.values[i], row, ops), ops))
    else
      [SqlCompare(if e.lowerInclusive then Ge else Gt, Sql(e.input, row, ops), Sql(e.lower, row, ops), ops),
       SqlCompare(if e.upperInclusive then Le else Lt, Sql(e.input, row, ops), Sql(e.upper, row, ops), ops)]
  }

  /** The operands below are joined by nothing themselves. */
  predicate PlainBelow(e: Node)
    requires Joins(e)
  {
    if e.Conjunction? then forall i :: 0 <= i < |e.children| ==> Plain(e.children[i])
    else if e.InList? then Plain(e.probe) && forall i :: 0 <= i < |e.values| ==> Plain(e.values[i])
    else Plain(e.input) && Plain(e.lower) && Plain(e.upper)
  }

  lemma {:induction false} FoldIsJoin(e: Node, n: nat, t: Table, row: SqlRow, env: Env, ops: Ops)
    requires e.Conjunction? && ConjunctionOp(e.conj).Some? && 1 <= n <= |e.children|
    requires LowerFold(ConjunctionOp(e.conj).value, e, n, t).Done?
    requires PlainBelow(e) && Feeds(env, t, row) && Shared(e, ops)
    ensures Eval(LowerFold(ConjunctionOp(e.conj).value, e, n, t).value, env, ops)
            == DeviceJoin(e.conj, Parts(e, row, ops)[..n], ops)
    ensures SqlFold(e.conj, e, n, row, ops) == SqlJoin(e.conj, Parts(e, row, ops)[..n])
  {
    hide PlainBelow, Feeds, Shared, Lower, Sql, Run2, SqlAnd, SqlOr, Parts;
    ChildIsPart(e, n - 1, t, row, env, ops);
    var parts := Parts(e, row, ops);
    if n > 1 {
      assert parts[..n][..n - 1] == parts[..n - 1];
      FoldIsJoin(e, n - 1, t, row, env, ops);
    }
  }

  lemma ChildIsPart(e: Node, i: nat, t: Table, row: SqlRow, env: Env, ops: Ops)
    requires e.Conjunction? && i < |e.children| && Lower(e.children[i], t).Done?
    requires PlainBelow(e) && Feeds(env, t, row) && Shared(e, ops)
    ensures Eval(Lower(e.children[i], t).value, env, ops) == Sql(e.children[i], row, ops) == Parts(e, row, ops)[i]
  {
    Meaning(Exactly, e.children[i], t, row, env, ops);
    hide PlainBelow, Feeds, Shared, Lower, Sql;
  }

  lemma {:induction false} InIsJoin(e: Node, n: nat, t: Table, row: SqlRow, env: Env, ops: Ops)
    requires e.InList? && 1 <= n <= |e.values| && LowerIn(e, n, t).Done?
    requires PlainBelow(e) && Feeds(env, t, row) && Shared(e, ops)
    ensures Eval(LowerIn(e, n, t).value, env, ops) == DeviceJoin(Or, Parts(e, row, ops)[..n], ops)
    ensures SqlIn(e, n, row, ops) == SqlJoin(Or, Parts(e, row, ops)[..n])
  {
    hide PlainBelow, Feeds, Shared, Lower, LowerTest, Sql, Run2, SqlAnd, SqlOr, SqlCompare, Parts;
    TestIsPart(e, n - 1, t, row, env, ops);
    var parts := Parts(e, row, ops);
    if n > 1 {
      assert parts[..n][..n - 1] == parts[..n - 1];
      InIsJoin(e, n - 1, t, row, env, ops);
    }
  }

  lemma TestIsPart(e: Node, i: nat, t: Table, row: SqlRow, env: Env, ops: Ops)
    requires e.InList? && i < |e.values| && LowerTest(e, i, t).Done?
    requires PlainBelow(e) && Feeds(env, t, row) && Shared(e, ops)
    ensures Eval(LowerTest(e, i, t).value, env, ops) == Parts(e, row, ops)[i]
            == SqlCompare(Equal, Sql(e.probe, row, ops), Sql(e.values[i], row, ops), ops)
  {
    Meaning(Exactly, e.probe, t, row, env, ops);
    Meaning(Exactly, e.values[i], t, row, env, ops);
    hide PlainBelow, Feeds, Shared, Lower, Sql;
  }

  /** AND and OR over plain operands agree with SQL exactly when no operand is null while
      another has the value that decides; a filter on OR drops a row SQL keeps otherwise. */
  lemma ConjunctionAgreesIff(e: Node, t: Table, row: SqlRow, env: Env, ops: Ops)
    requires e.Conjunction? && Lower(e, t).Done? && PlainBelow(e) && Feeds(env, t, row) && Shared(e, ops)
    ensures var a, b := Eval(Lower(e, t).value, env, ops), Sql(e, row, ops);
            && (a == b <==> !Clash(e.conj, Parts(e, row, ops)))
            && (a.Null? == b.Null? <==> !Clash(e.conj, Parts(e, row, ops)))
            && (e.conj == Or ==> ((True(a) <==> True(b)) <==> !Clash(Or, Parts(e, row, ops))))
  {
    var parts := Parts(e, row, ops);
    FoldIsJoin(e, |e.children|, t, row, env, ops);
    assert parts[..|e.children|] == parts;
    JoinsAgreeIff(e.conj, parts, ops);
    hide PlainBelow, Feeds, Shared, LowerFold, SqlFold, Clash, Parts, Eval, DeviceJoin, SqlJoin;
  }

  /** IN over plain operands agrees with SQL exactly when no comparison is null while another
      is true, negated or not. */
  lemma InAgreesIff(e: Node, t: Table, row: SqlRow, env: Env, ops: Ops)
    requires e.InList? && Lower(e, t).Done? && PlainBelow(e) && Feeds(env, t, row) && Shared(e, ops)
    ensures var a, b := Eval(Lower(e, t).value, env, ops), Sql(e, row, ops);
            && (a == b <==> !Clash(Or, Parts(e, row, ops)))
            && (a.Null? == b.Null? <==> !Clash(Or, Parts(e, row, ops)))
  {
    var parts := Parts(e, row, ops);
    InIsJoin(e, |e.values|, t, row, env, ops);
    assert parts[..|e.values|] == parts;
    JoinsAgreeIff(Or, parts, ops);
    hide PlainBelow, Feeds, Shared, LowerIn, SqlIn, Clash, Parts, DeviceJoin, SqlJoin;
  }

  /** IS [NOT] NULL above AND, OR, IN or BETWEEN agrees with SQL exactly when no null meets
      the value that decides. */
  lemma NullTestAgreesIff(e: Node, t: Table, row: SqlRow, env: Env, ops: Ops)
    requires e.Unary? && (e.unary == IsNull || e.unary == IsNotNull) && Joins(e.child) && PlainBelow(e.child)
    requires Lower(e, t).Done? && Feeds(env, t, row) && Shared(e, ops)
    ensures Eval(Lower(e, t).value, env, ops) == Sql(e, row, ops) <==>
            !Clash(JoinKind(e.child), Parts(e.child, row, ops))
  {
    var x := e.child;
    var a, b := Eval(Lower(x, t).value, env, ops), Sql(x, row, ops);
    NullTestIff(e, t, row, env, ops);
    if x.Conjunction? {
      ConjunctionAgreesIff(x, t, row, env, ops);
    } else if x.InList? {
      InAgreesIff(x, t, row, env, ops);
    } else {
      BetweenNullIff(x, t, row, env, ops);
    }
    hide *;
  }

  lemma NullTestIff(e: Node, t: Table, row: SqlRow, env: Env, ops: Ops)
    requires e.Unary? && (e.unary == IsNull || e.unary == IsNotNull) && Lower(e, t).Done?
    ensures Lower(e.child, t).Done?
    ensures Eval(Lower(e, t).value, env, ops) == Sql(e, row, ops) <==>
            Eval(Lower(e.child, t).value, env, ops).Null? == Sql(e.child, row, ops).Null?
  {
  }

  const Flag := LogicalType(BOOLEAN, 0, 0)

  /** IS NULL above AND: the tree keeps a row on which SQL's value is false. */
  lemma NullTestKeepsExtra(t: Table, ops: Ops) returns (e: Node, row: SqlRow, env: Env)
    ensures Lower(e, t).Done? && Inclusive(e) && !Guarded(e) && Feeds(env, t, row)
    ensures True(Eval(Lower(e, t).value, env, ops)) && False(Sql(e, row, ops))
  {
    var both := Conjunction(And, [Reference(0, Flag), Reference(1, Flag)]);
    e := Unary(IsNull, both);
    row := (i: nat) => if i == 0 then Null else Truthy(false);
    env := (_, i: nat) => if i == 0 then Null else Truthy(false);
    assert LowerFold(LOGICAL_AND, both, 1, t) == Done(ColumnOf(0, t));
    assert LowerFold(LOGICAL_AND, both, 2, t) == Done(Op2Of(LOGICAL_AND, ColumnOf(0, t), ColumnOf(1, t)));
    assert Lower(both, t) == Done(Op2Of(LOGICAL_AND, ColumnOf(0, t), ColumnOf(1, t)));
    assert SqlFold(And, both, 1, row, ops) == Null;
    assert SqlFold(And, both, 2, row, ops) == SqlAnd(Null, Truthy(false));
    assert Sql(both, row, ops) == Truthy(false);
    assert Eval(ColumnOf(0, t), env, ops) == Null;
    assert Eval(Lower(both, t).value, env, ops) == Null;
    assert Lower(e, t).value == Op1Of(IS_NULL, Lower(both, t).value);
  }

  /** OR: the tree drops a row SQL keeps. */
  lemma OrDropsRow(t: Table, ops: Ops) returns (e: Node, row: SqlRow, env: Env)
    ensures Lower(e, t).Done? && Inclusive(e) && Guarded(e) && Feeds(env, t, row)
    ensures !True(Eval(Lower(e, t).value, env, ops)) && True(Sql(e, row, ops))
  {
    e := Conjunction(Or, [Reference(0, Flag), Reference(1, Flag)]);
    row := (i: nat) => if i == 0 then Null else Truthy(true);
    env := (_, i: nat) => if i == 0 then Null else Truthy(true);
    assert LowerFold(LOGICAL_OR, e, 1, t) == Done(ColumnOf(0, t));
    assert LowerFold(LOGICAL_OR, e, 2, t) == Done(Op2Of(LOGICAL_OR, ColumnOf(0, t), ColumnOf(1, t)));
    assert SqlFold(Or, e, 1, row, ops) == Null;
    assert SqlFold(Or, e, 2, row, ops) == SqlOr(Null, Truthy(true));
    assert Sql(e, row, ops) == Truthy(true);
  }

  ghost predicate Ordered(ops: Ops) {
    forall a: Datum, b: Datum ::
      && (ops.compare(Ge, a, b) <==> ops.compare(Gt, a, b) || ops.compare(Equal, a, b))
      && (ops.compare(Le, a, b) <==> ops.compare(Lt, a, b) || ops.compare(Equal, a, b))
      && !(ops.compare(Gt, a, b) && ops.compare(Equal, a, b)) && !(ops.compare(Lt, a, b) && ops.compare(Equal, a, b))
  }

  lemma BetweenValues(e: Node, t: Table, row: SqlRow, env: Env, ops: Ops)
    requires e.Between? && PlainBelow(e) && Lower(e, t).Done? && Feeds(env, t, row) && Shared(e, ops)
    ensures var x, lo, hi := Sql(e.input, row, ops), Sql(e.lower, row, ops), Sql(e.upper, row, ops);
            Eval(Lower(e, t).value, env, ops)
              == Run2(LOGICAL_AND, Run2(GREATER_EQUAL, x, lo, ops), Run2(LESS_EQUAL, x, hi, ops), ops)
    ensures Sql(e, row, ops) == SqlAnd(Parts(e, row, ops)[0], Parts(e, row, ops)[1])
  {
    Meaning(Exactly, e.input, t, row, env, ops);
    Meaning(Exactly, e.lower, t, row, env, ops);
    Meaning(Exactly, e.upper, t, row, env, ops);
    hide Plain, Feeds, Shared, Run2, SqlCompare, SqlAnd;
  }

  lemma BetweenNullIff(e: Node, t: Table, row: SqlRow, env: Env, ops: Ops)
    requires e.Between? && PlainBelow(e) && Lower(e, t).Done? && Feeds(env, t, row) && Shared(e, ops)
    ensures Eval(Lower(e, t).value, env, ops).Null? == Sql(e, row, ops).Null? <==> !Clash(And, Parts(e, row, ops))
  {
    BetweenValues(e, t, row, env, ops);
    var parts := Parts(e, row, ops);
    assert |parts| == 2 && Decides(And, parts[0]) == False(parts[0]);
    hide PlainBelow, Feeds, Shared, Lower, Eval, Sql;
  }

  /** The input is a bound that is left out, and within the other one. */
  ghost predicate OnExcludedBound(e: Node, x: Datum, lo: Datum, hi: Datum, ops: Ops)
    requires e.Between?
  {
    || (!e.lowerInclusive && ops.compare(Equal, x, lo) && ops.compare(Le, x, hi))
    || (!e.upperInclusive && ops.compare(Equal, x, hi) && ops.compare(Ge, x, lo))
  }

  /** A BETWEEN is lowered as if both bounds were included. With a null among the operands it
      agrees with SQL exactly when the other bound does not decide; on known values, exactly
      when the input is not an excluded bound within the other one. */
  lemma BetweenAgreesIff(e: Node, t: Table, row: SqlRow, env: Env, ops: Ops)
    requires e.Between? && PlainBelow(e) && Lower(e, t).Done?
    requires Feeds(env, t, row) && Shared(e, ops) && Ordered(ops)
    ensures var x, lo, hi := Sql(e.input, row, ops), Sql(e.lower, row, ops), Sql(e.upper, row, ops);
            Eval(Lower(e, t).value, env, ops) == Sql(e, row, ops) <==>
              if x.Known? && lo.Known? && hi.Known? then !OnExcludedBound(e, x.d, lo.d, hi.d, ops)
              else !Clash(And, Parts(e, row, ops))
  {
    BetweenValues(e, t, row, env, ops);
    BetweenNullIff(e, t, row, env, ops);
    hide PlainBelow, Feeds, Shared, Lower, Eval, Sql, Clash;
  }

  // ---- Divisions and casts -----------------------------------------------------------------------

  /** The two division functions lower to the same term, and so do the two kinds of cast. */
  lemma SameTerm(a: Node, b: Node, typ: LogicalType, typ': LogicalType, target: LogicalType, t: Table)
    ensures Lower(Call(Div, [a, b], typ), t) == Lower(Call(IntDiv, [a, b], typ'), t)
    ensures Lower(Cast(a, target, true), t) == Lower(Cast(a, target, false), t)
  {
    assert forall i :: 0 <= i < 2 ==> Call(Div, [a, b], typ).arguments[i] == Call(IntDiv, [a, b], typ').arguments[i];
  }

  /** An arithmetic call of plain operands agrees with SQL exactly when an operand is null or
      SQL's function has the device operator's value on them. */
  lemma CallAgreesIff(e: Node, t: Table, row: SqlRow, env: Env, ops: Ops)
    requires e.Call? && Lower(e, t).Done? && Feeds(env, t, row)
    requires forall i :: 0 <= i < |e.arguments| ==> Plain(e.arguments[i]) && Shared(e.arguments[i], ops)
    ensures |e.arguments| == 2
    ensures var a, b := Sql(e.arguments[0], row, ops), Sql(e.arguments[1], row, ops);
            Eval(Lower(e, t).value, env, ops) == Sql(e, row, ops) <==>
              (a.Known? && b.Known? ==> SameValue(e.function_, a.d, b.d, ops))
  {
    Meaning(Exactly, e.arguments[0], t, row, env, ops);
    Meaning(Exactly, e.arguments[1], t, row, env, ops);
    hide Plain, Feeds, Shared;
  }

  /** A cast of a plain operand agrees with SQL exactly when the operand is null or SQL's
      cast, with the flag the tree does not show, has the device cast's value on it. */
  lemma CastAgreesIff(e: Node, t: Table, row: SqlRow, env: Env, ops: Ops)
    requires e.Cast? && Lower(e, t).Done? && Feeds(env, t, row) && Plain(e.child) && Shared(e.child, ops)
    ensures var a := Sql(e.child, row, ops);
            Eval(Lower(e, t).value, env, ops) == Sql(e, row, ops) <==>
              (a.Known? ==> SameCast(e.target, e.tryCast, a.d, ops))
  {
    Meaning(Exactly, e.child, t, row, env, ops);
    hide Plain, Feeds, Shared;
  }

  /** The tree gives SQL's value. */
  ghost predicate Right(e: Node, t: Table, row: SqlRow, env: Env, ops: Ops) {
    Lower(e, t).Done? && Eval(Lower(e, t).value, env, ops) == Sql(e, row, ops)
  }

  /** Where SQL tells the two divisions apart, the tree is wrong about one of them. */
  lemma OneDivisionWrong(a: Node, b: Node, typ: LogicalType, t: Table, row: SqlRow, env: Env, ops: Ops)
    ensures var div, intDiv := Call(Div, [a, b], typ), Call(IntDiv, [a, b], typ);
            Sql(div, row, ops) != Sql(intDiv, row, ops) ==>
              !Right(div, t, row, env, ops) || !Right(intDiv, t, row, env, ops)
  {
    SameTerm(a, b, typ, typ, Wide, t);
    hide Lower, Sql, Eval;
  }

  /** Where SQL's TRY_CAST and CAST differ, the tree is wrong about one of them. */
  lemma OneCastWrong(a: Node, target: LogicalType, t: Table, row: SqlRow, env: Env, ops: Ops)
    ensures var try_, plain := Cast(a, target, true), Cast(a, target, false);
            Sql(try_, row, ops) != Sql(plain, row, ops) ==>
              !Right(try_, t, row, env, ops) || !Right(plain, t, row, env, ops)
  {
    SameTerm(a, a, Wide, Wide, target, t);
    hide Lower, Sql, Eval;
  }

  const Wide := LogicalType(BIGINT, 0, 0)

  /** TRY_CAST: where SQL's gives null, the tree gives what the device's cast gives. */
  lemma TryCastKeepsValue(t: Table, literal: (Value, LogicalType) -> Datum, compare: (Comparison, Datum, Datum) -> bool)
    returns (e: Node, row: SqlRow, env: Env, ops: Ops)
    ensures Lower(e, t).Done? && Feeds(env, t, row)
    ensures Eval(Lower(e, t).value, env, ops).Known? && Sql(e, row, ops).Null?
  {
    e := Cast(Reference(0, LogicalType(DOUBLE, 0, 0)), Wide, true);
    row := (i: nat) => Known(Scalar(0));
    env := (_, i: nat) => Known(Scalar(0));
    ops := Ops(literal, compare, (op, a, b) => a, (op, a) => a, (f, a, b) => a,
               (target, try_, a) => if try_ then Null else Known(a));
    assert Lower(e.child, t) == Done(ColumnOf(0, t));
    assert CastOp(Wide) == Done(CAST_TO_INT64);
    assert Lower(e, t) == Done(Op1Of(CAST_TO_INT64, ColumnOf(0, t)));
    assert Eval(ColumnOf(0, t), env, ops) == Known(Scalar(0));
    assert Sql(e.child, row, ops) == Known(Scalar(0));
  }

  // ---- Joins ---------------------------------------------------------------------------------------

  function Other(t: Table): Table { match t case LeftTable => RightTable case RightTable => LeftTable }

  /** The rows of the two sides, exchanged. */
  function Exchanged(env: Env): Env { (t, i: nat) => env(Other(t), i) }

  function Mirror(c: Term): Term {
    match c
    case ColumnOf(i, t) => ColumnOf(i, Other(t))
    case LiteralOf(_, _) => c
    case Op1Of(op, a) => Op1Of(op, Mirror(a))
    case Op2Of(op, a, b) => Op2Of(op, Mirror(a), Mirror(b))
    case Ranged(x, lo, hi) => Ranged(Mirror(x), Mirror(lo), Mirror(hi))
  }

  function MirrorOutcome(o: Outcome<Term>): Outcome<Term> {
    match o case Done(c) => Done(Mirror(c)) case failed => failed
  }

  lemma {:induction false} EvalMirror(c: Term, env: Env, ops: Ops)
    ensures Eval(Mirror(c), Exchanged(env), ops) == Eval(c, env, ops)
  {
    match c
    case ColumnOf(_, t) => assert Other(Other(t)) == t;
    case LiteralOf(_, _) =>
    case Op1Of(_, a) => EvalMirror(a, env, ops);
    case Op2Of(_, a, b) => EvalMirror(a, env, ops); EvalMirror(b, env, ops);
    case Ranged(x, lo, hi) => EvalMirror(x, env, ops); EvalMirror(lo, env, ops); EvalMirror(hi, env, ops);
  }

  /** Lowering for the other table mirrors the term. */
  lemma {:induction false} LowerMirror(e: Node, t: Table)
    ensures Lower(e, Other(t)) == MirrorOutcome(Lower(e, t))
    decreases e, 1
  {
    hide *;
    if e.Compare? || e.Between? || e.Call? {
      OperandsMirror(e, t);
    } else if e.Cast? || e.Unary? {
      LowerMirror(e.child, t);
      ChildMirror(e, t);
    } else if e.Conjunction? || e.InList? {
      ListMirror(e, t);
    } else {
      LeafMirror(e, t);
    }
  }

  lemma LeafMirror(e: Node, t: Table)
    requires e.Reference? || e.Constant? || e.CaseOf? || e.Coalesce? || e.Aggregate?
    ensures Lower(e, Other(t)) == MirrorOutcome(Lower(e, t))
  {
  }

  lemma {:induction false} ChildMirror(e: Node, t: Table)
    requires (e.Cast? || e.Unary?) && Lower(e.child, Other(t)) == MirrorOutcome(Lower(e.child, t))
    ensures Lower(e, Other(t)) == MirrorOutcome(Lower(e, t))
  {
    if Lower(e.child, t).Done? {
      var c := Op1Of(IS_NULL, Lower(e.child, t).value);
      assert Mirror(Op1Of(NOT, c)) == Op1Of(NOT, Mirror(c));
    }
  }

  lemma {:induction false} OperandsMirror(e: Node, t: Table)
    requires e.Compare? || e.Between? || e.Call?
    ensures Lower(e, Other(t)) == MirrorOutcome(Lower(e, t))
    decreases e, 0
  {
    if e.Compare? {
      LowerMirror(e.left, t);
      LowerMirror(e.right, t);
      PairMirror(ComparisonOp(e.cmp), Lower(e.left, t), Lower(e.right, t));
    } else if e.Between? {
      LowerMirror(e.input, t);
      LowerMirror(e.lower, t);
      LowerMirror(e.upper, t);
    } else if |e.arguments| == 2 {
      LowerMirror(e.arguments[0], t);
      LowerMirror(e.arguments[1], t);
      PairMirror(ArithOp(e.function_), Lower(e.arguments[0], t), Lower(e.arguments[1], t));
    }
    hide Pair;
  }

  lemma PairMirror(op: Option<Op2>, a: Outcome<Term>, b: Outcome<Term>)
    ensures Pair(op, MirrorOutcome(a), MirrorOutcome(b)) == MirrorOutcome(Pair(op, a, b))
  {
  }

  lemma {:induction false} ListMirror(e: Node, t: Table)
    requires e.Conjunction? || e.InList?
    ensures Lower(e, Other(t)) == MirrorOutcome(Lower(e, t))
    decreases e, 0
  {
    hide LowerFold, LowerIn;
    if e.Conjunction? {
      if e.children != [] && ConjunctionOp(e.conj).Some? {
        FoldMirror(ConjunctionOp(e.conj).value, e, |e.children|, t);
      }
    } else if e.values != [] {
      InMirror(e, |e.values|, t);
    }
  }

  lemma {:induction false} FoldMirror(op: Op2, e: Node, n: nat, t: Table)
    requires e.Conjunction? && 1 <= n <= |e.children|
    ensures LowerFold(op, e, n, Other(t)) == MirrorOutcome(LowerFold(op, e, n, t))
    decreases e, 0, n
  {
    LowerMirror(e.children[n - 1], t);
    if n > 1 { FoldMirror(op, e, n - 1, t); }
  }

  lemma {:induction false} InMirror(e: Node, n: nat, t: Table)
    requires e.InList? && 1 <= n <= |e.values|
    ensures LowerIn(e, n, Other(t)) == MirrorOutcome(LowerIn(e, n, t))
    decreases e, 0, n
  {
    TestMirror(e, n - 1, t);
    if n > 1 { InMirror(e, n - 1, t); }
  }

  lemma {:induction false} TestMirror(e: Node, i: nat, t: Table)
    requires e.InList? && i < |e.values|
    ensures LowerTest(e, i, Other(t)) == MirrorOutcome(LowerTest(e, i, t))
    decreases e, 0, 0
  {
    LowerMirror(e.probe, t);
    LowerMirror(e.values[i], t);
  }

  lemma ConditionMirror(c: JoinCondition)
    ensures LowerCondition(c, true) == MirrorOutcome(LowerCondition(c, false))
  {
    if c.left.Some? { LowerMirror(c.left.value, LeftTable); }
    if c.right.Some? { LowerMirror(c.right.value, RightTable); }
  }

  lemma {:induction false} ConditionsMirror(cs: seq<JoinCondition>, start: nat, end: nat)
    requires start < end <= |cs|
    ensures LowerConditions(cs, start, end, true) == MirrorOutcome(LowerConditions(cs, start, end, false))
  {
    ConditionMirror(cs[end - 1]);
    if start + 1 < end { ConditionsMirror(cs, start, end - 1); }
  }

  /** Conditions translated with the sides swapped succeed exactly when the unswapped ones
      do, and on the exchanged rows they give the same value. */
  lemma SwappedSidesAgree(cs: seq<JoinCondition>, start: nat, end: nat, env: Env, ops: Ops)
    requires start < end <= |cs|
    ensures var s, u := LowerConditions(cs, start, end, true), LowerConditions(cs, start, end, false);
            && (s.Done? <==> u.Done?) && (s.Thrown? <==> u.Thrown?)
            && (s.Done? ==> Eval(s.value, Exchanged(env), ops) == Eval(u.value, env, ops))
  {
    ConditionsMirror(cs, start, end);
    var u := LowerConditions(cs, start, end, false);
    if u.Done? { EvalMirror(u.value, env, ops); }
  }

  /** What SQL says of one condition on a pair of rows. */
  ghost predicate Matches(c: JoinCondition, left: SqlRow, right: SqlRow, ops: Ops) {
    && c.left.Some? && c.right.Some?
    && True(SqlCompare(c.cmp, Sql(c.left.value, left, ops), Sql(c.right.value, right, ops), ops))
  }

  /** A pair of rows that passes the combined conditions passes each of them; and the other
      way round, unless the agreement of a side with SQL is only sound. */
  lemma {:induction false} ConditionsMatch(m: Mode, cs: seq<JoinCondition>, start: nat, end: nat,
                                           left: SqlRow, right: SqlRow, env: Env, ops: Ops)
    requires start < end <= |cs| && LowerConditions(cs, start, end, false).Done?
    requires forall i :: start <= i < end ==> SidesWithin(m, cs[i], left, right, ops)
    requires Feeds(env, LeftTable, left) && Feeds(env, RightTable, right)
    ensures var passes := True(Eval(LowerConditions(cs, start, end, false).value, env, ops));
            && (passes ==> forall i :: start <= i < end ==> Matches(cs[i], left, right, ops))
            && (m != Soundly && (forall i :: start <= i < end ==> Matches(cs[i], left, right, ops)) ==> passes)
  {
    hide Matches, Feeds, LowerCondition, SidesWithin;
    ConditionMatches(m, cs[end - 1], left, right, env, ops);
    if start + 1 < end { ConditionsMatch(m, cs, start, end - 1, left, right, env, ops); }
  }

  /** The sides of a condition are in the mode's fragment. */
  ghost predicate SidesWithin(m: Mode, c: JoinCondition, left: SqlRow, right: SqlRow, ops: Ops) {
    && (c.left.Some? ==> Within(m, c.left.value, left) && Shared(c.left.value, ops))
    && (c.right.Some? ==> Within(m, c.right.value, right) && Shared(c.right.value, ops))
  }

  lemma ConditionMatches(m: Mode, c: JoinCondition, left: SqlRow, right: SqlRow, env: Env, ops: Ops)
    requires LowerCondition(c, false).Done? && SidesWithin(m, c, left, right, ops)
    requires Feeds(env, LeftTable, left) && Feeds(env, RightTable, right)
    ensures True(Eval(LowerCondition(c, false).value, env, ops)) ==> Matches(c, left, right, ops)
    ensures m != Soundly && Matches(c, left, right, ops) ==> True(Eval(LowerCondition(c, false).value, env, ops))
  {
    Meaning(m, c.left.value, LeftTable, left, env, ops);
    Meaning(m, c.right.value, RightTable, right, env, ops);
    hide Within, Lower, Sql, Feeds, Shared;
  }
}
