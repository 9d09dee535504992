/** Which expressions are lowered, which are rejected and which throw, told by their parts. */
module LoweringScope {
  import opened Common
  import opened SiriusAst
  import opened CudfTree
  import opened Lowering

  /** What becomes of a literal of a type: it is taken, left to the host, or is an error. */
  datatype Literals = Takes(fits: bool) | Leaves | Fails

  /** The payload each SQL type stores. */
  function LiteralOfType(p: Value, t: LogicalType): Literals {
    match t.id
    case BOOLEAN => Takes(p.BoolValue?)
    case TINYINT => Takes(p.Int8?)
    case SMALLINT => Takes(p.Int16?)
    case INTEGER => Takes(p.Int32?)
    case BIGINT => Takes(p.Int64?)
    case HUGEINT => Takes(p.Int64?)
    case UTINYINT => Takes(p.UInt8?)
    case USMALLINT => Takes(p.UInt16?)
    case UINTEGER => Takes(p.UInt32?)
    case UBIGINT => Takes(p.UInt64?)
    case UHUGEINT => Takes(p.UInt64?)
    case FLOAT => Takes(p.Float32?)
    case DOUBLE => Takes(p.Float64?)
    case DATE => Takes(p.DateValue?)
    case TIMESTAMP_SEC => Takes(p.TimestampSec?)
    case TIMESTAMP_MS => Takes(p.TimestampMs?)
    case TIMESTAMP => Takes(p.TimestampUs?)
    case TIMESTAMP_NS => Takes(p.TimestampNs?)
    case VARCHAR => Takes(p.Text?)
    case DECIMAL =>
      if t.precision <= 4 then Fails
      else Takes(if t.precision <= 9 then p.Decimal32? else if t.precision <= 18 then p.Decimal64? else p.Decimal128?)
    case STRUCT => Leaves
    case LIST => Fails
    case INVALID => Fails
    case SQLNULL => Fails
  }

  /** The types whose mapping to a device type throws. */
  predicate Unmapped(t: LogicalType) {
    t.id == LIST || t.id == INVALID || t.id == SQLNULL || (t.id == DECIMAL && t.precision <= 4)
  }

  predicate IsArithmetic(f: FunctionId) { f == Add || f == Sub || f == Mul || f == Div || f == IntDiv || f == Mod }

  predicate IsWide(id: TypeId) { id == BIGINT || id == HUGEINT || id == UBIGINT || id == UHUGEINT || id == DOUBLE }

  /** The node says itself that it is a decimal: a column, a literal, a cast or a call. */
  predicate IsDecimal(e: Node) {
    || (e.Reference? && e.typ.id == DECIMAL) || (e.Constant? && e.typ.id == DECIMAL)
    || (e.Cast? && e.target.id == DECIMAL) || (e.Call? && e.typ.id == DECIMAL)
  }

  predicate CarriesDecimal(args: seq<Node>) { exists i :: 0 <= i < |args| && IsDecimal(args[i]) }

  lemma {:induction false} CarriedIff(args: seq<Node>)
    ensures CarriesDecimal(args) <==> exists i :: 0 <= i < |args| && CarriedType(args[i]) == DECIMAL
  {
  }

  /** Everything in the expression has a counterpart in the device library. */
  predicate Lowerable(e: Node) {
    match e
    case Reference(_, _) => true
    case Constant(p, t) => !p.NullValue? && LiteralOfType(p, t) == Takes(true)
    case Compare(c, l, r) => c != DistinctFrom && c != NotDistinctFrom && Lowerable(l) && Lowerable(r)
    case Conjunction(k, cs) =>
      k != InvalidConjunction && cs != [] && forall i :: 0 <= i < |cs| ==> Lowerable(cs[i])
    case Between(x, lo, hi, _, _) => Lowerable(x) && Lowerable(lo) && Lowerable(hi)
    case Cast(a, target, _) => Lowerable(a) && IsWide(target.id)
    case Unary(k, a) => (k == Not || k == IsNull || k == IsNotNull) && Lowerable(a)
    case InList(p, vs, _) => vs != [] && Lowerable(p) && forall i :: 0 <= i < |vs| ==> Lowerable(vs[i])
    case Call(f, args, _) =>
      IsArithmetic(f) && |args| == 2 && !CarriesDecimal(args) && Lowerable(args[0]) && Lowerable(args[1])
    case CaseOf(_, _, _) => false
    case Coalesce(_, _) => false
    case Aggregate(_, _, _, _) => false
  }

  /** Lowering the expression throws: a part that is reached is an aggregate, a literal that is
      not of its type, or of an unmapped type. */
  predicate Throws(e: Node) {
    match e
    case Constant(p, t) => !p.NullValue? && (LiteralOfType(p, t) == Takes(false) || LiteralOfType(p, t) == Fails)
    case Compare(_, l, r) => Throws(l) || Throws(r)
    case Conjunction(k, cs) =>
      && k != InvalidConjunction
      && exists i :: 0 <= i < |cs| && Throws(cs[i]) && forall j :: 0 <= j < i ==> Lowerable(cs[j])
    case Between(x, lo, hi, _, _) => Throws(x) || Throws(lo) || Throws(hi)
    case Cast(a, target, _) => Throws(a) || (Lowerable(a) && Unmapped(target))
    case Unary(_, a) => Throws(a)
    case InList(p, vs, _) =>
      && vs != []
      && (|| Throws(p)
          || (Lowerable(p) && exists i :: 0 <= i < |vs| && Throws(vs[i]) && forall j :: 0 <= j < i ==>
            Lowerable(vs[j])))
    case Call(f, args, _) =>
      IsArithmetic(f) && |args| == 2 && !CarriesDecimal(args) && (Throws(args[0]) || Throws(args[1]))
    case Aggregate(_, _, _, _) => true
    case _ => false
  }

  /** The outcome is what the parts say. */
  predicate Told(o: Outcome<Term>, lowerable: bool, throws: bool) {
    (o.Done? <==> lowerable) && (o.Thrown? <==> throws)
  }

  lemma {:induction false} ConstantTold(p: Value, t: LogicalType, table: Table)
    ensures Told(Lower(Constant(p, t), table), Lowerable(Constant(p, t)), Throws(Constant(p, t)))
  {
    hide DeviceTypeOf, Holds, LiteralOfType, Lower, Lowerable, Throws;
    LiteralTold(p, t);
    ConstantParts(p, t, table);
  }

  lemma {:induction false} ConstantParts(p: Value, t: LogicalType, table: Table)
    ensures Lower(Constant(p, t), table) == LowerConstant(p, t)
    ensures Lowerable(Constant(p, t)) <==> !p.NullValue? && LiteralOfType(p, t) == Takes(true)
    ensures Throws(Constant(p, t)) <==>
            !p.NullValue? && (LiteralOfType(p, t) == Takes(false) || LiteralOfType(p, t) == Fails)
  {
    hide LiteralOfType, LowerConstant;
  }

  /** The two tables, from SQL type to device type and from that to the payload, agree. */
  lemma {:induction false} LiteralTold(p: Value, t: LogicalType)
    ensures match LiteralOfType(p, t)
            case Takes(fits) =>
              && DeviceTypeOf(t).Some? && DeviceTypeOf(t).value != D_STRUCT
              && Holds(p, DeviceTypeOf(t).value) == fits
            case Leaves => DeviceTypeOf(t) == Some(D_STRUCT)
            case Fails => DeviceTypeOf(t).None?
  {
  }

  lemma CastTold(t: LogicalType)
    ensures CastOp(t).Done? <==> IsWide(t.id)
    ensures CastOp(t).Thrown? <==> Unmapped(t)
  {
  }

  /** An expression is lowered exactly when all of it has a counterpart, and throws exactly
      when a part that is reached throws; otherwise it is left to the host. */
  lemma {:induction false} LowersIff(e: Node, t: Table)
    ensures Told(Lower(e, t), Lowerable(e), Throws(e))
    decreases e, 1
  {
    hide Told;
    if e.Conjunction? || e.InList? {
      ListTold(e, t);
    } else if e.Compare? || e.Between? || e.Call? {
      OperandsTold(e, t);
    } else if e.Cast? || e.Unary? {
      LowersIff(e.child, t);
      ChildTold(e, t);
    } else {
      LeafTold(e, t);
    }
  }

  lemma {:induction false} LeafTold(e: Node, t: Table)
    requires e.Reference? || e.Constant? || e.CaseOf? || e.Coalesce? || e.Aggregate?
    ensures Told(Lower(e, t), Lowerable(e), Throws(e))
  {
    if e.Constant? { ConstantTold(e.payload, e.typ, t); }
    hide LowerConstant, LiteralOfType;
  }

  lemma {:induction false} ChildParts(e: Node, t: Table)
    requires e.Cast? || e.Unary?
    ensures e.Cast? ==>
              && (Lowerable(e) <==> Lowerable(e.child) && IsWide(e.target.id))
              && (Throws(e) <==> Throws(e.child) || (Lowerable(e.child) && Unmapped(e.target)))
    ensures e.Unary? ==>
              && (Lowerable(e) <==> (e.unary == Not || e.unary == IsNull || e.unary == IsNotNull) && Lowerable(e.child))
              && (Throws(e) <==> Throws(e.child))
    ensures Lower(e.child, t).Rejected? ==> Lower(e, t).Rejected?
    ensures Lower(e.child, t).Thrown? ==> Lower(e, t).Thrown?
    ensures e.Cast? && Lower(e.child, t).Done? ==>
              (Lower(e, t).Done? <==> CastOp(e.target).Done?) && (Lower(e, t).Thrown? <==> CastOp(e.target).Thrown?)
    ensures e.Unary? && Lower(e.child, t).Done? ==>
              !Lower(e, t).Thrown? &&
                (Lower(e, t).Done? <==> e.unary == Not || e.unary == IsNull || e.unary == IsNotNull)
  {
    hide CastOp, IsWide, Unmapped;
  }

  lemma {:induction false} ChildTold(e: Node, t: Table)
    requires (e.Cast? || e.Unary?) && Told(Lower(e.child, t), Lowerable(e.child), Throws(e.child))
    ensures Told(Lower(e, t), Lowerable(e), Throws(e))
  {
    hide CastOp, IsWide, Unmapped, Lower, Lowerable, Throws;
    ChildParts(e, t);
    if e.Cast? { CastTold(e.target); }
  }

  lemma {:induction false} OperandParts(e: Node, t: Table)
    requires e.Compare? || e.Between? || (e.Call? && |e.arguments| == 2)
    ensures e.Compare? ==>
              && Lower(e, t) == Pair(ComparisonOp(e.cmp), Lower(e.left, t), Lower(e.right, t))
              && (Lowerable(e) <==>
                    e.cmp != DistinctFrom && e.cmp != NotDistinctFrom && Lowerable(e.left) && Lowerable(e.right))
              && (Throws(e) <==> Throws(e.left) || Throws(e.right))
    ensures e.Between? ==>
              && Lower(e, t) == Triple(Lower(e.input, t), Lower(e.lower, t), Lower(e.upper, t))
              && (Lowerable(e) <==> Lowerable(e.input) && Lowerable(e.lower) && Lowerable(e.upper))
              && (Throws(e) <==> Throws(e.input) || Throws(e.lower) || Throws(e.upper))
  {
    hide Pair, Triple, ComparisonOp, CarriesDecimal, IsArithmetic;
  }

  lemma {:induction false} CallParts(e: Node, t: Table)
    requires e.Call?
    ensures var args := e.arguments;
            var goes := IsArithmetic(e.function_) && |args| == 2 && !CarriesDecimal(args);
            && (!goes ==> Lower(e, t).Rejected? && !Lowerable(e) && !Throws(e))
            && (goes ==>
                  && Lower(e, t) == Pair(ArithOp(e.function_), Lower(args[0], t), Lower(args[1], t))
                  && (Lowerable(e) <==> Lowerable(args[0]) && Lowerable(args[1]))
                  && (Throws(e) <==> Throws(args[0]) || Throws(args[1])))
  {
    CarriedIff(e.arguments);
    hide Pair, CarriesDecimal, CarriedType;
  }

  lemma {:induction false} OperandsTold(e: Node, t: Table)
    requires e.Compare? || e.Between? || e.Call?
    ensures Told(Lower(e, t), Lowerable(e), Throws(e))
    decreases e, 0
  {
    hide Lower, Lowerable, Throws, CarriesDecimal;
    if e.Compare? {
      OperandParts(e, t);
      LowersIff(e.left, t);
      LowersIff(e.right, t);
    } else if e.Between? {
      OperandParts(e, t);
      LowersIff(e.input, t);
      LowersIff(e.lower, t);
      LowersIff(e.upper, t);
    } else {
      CallParts(e, t);
      if |e.arguments| == 2 {
        LowersIff(e.arguments[0], t);
        LowersIff(e.arguments[1], t);
      }
    }
  }

  predicate AllLowerable(parts: seq<Node>, n: nat)
    requires n <= |parts|
  {
    forall i :: 0 <= i < n ==> Lowerable(parts[i])
  }

  /** The first of the parts that is not lowered throws. */
  predicate FirstThrows(parts: seq<Node>, n: nat)
    requires n <= |parts|
  {
    exists i :: 0 <= i < n && Throws(parts[i]) && forall j :: 0 <= j < i ==> Lowerable(parts[j])
  }

  lemma FirstThrowsMore(parts: seq<Node>, n: nat)
    requires n < |parts|
    ensures AllLowerable(parts, n + 1) <==> AllLowerable(parts, n) && Lowerable(parts[n])
    ensures FirstThrows(parts, n + 1) <==> FirstThrows(parts, n) || (AllLowerable(parts, n) && Throws(parts[n]))
  {
  }

  lemma {:induction false} FoldTold(op: Op2, e: Node, n: nat, t: Table)
    requires e.Conjunction? && 1 <= n <= |e.children|
    ensures Told(LowerFold(op, e, n, t), AllLowerable(e.children, n), FirstThrows(e.children, n))
    decreases e, 0, n
  {
    hide Lowerable, Throws, AllLowerable, FirstThrows, Lower;
    LowersIff(e.children[n - 1], t);
    FirstThrowsMore(e.children, n - 1);
    if n > 1 { FoldTold(op, e, n - 1, t); } else { NoParts(e.children); }
  }

  lemma NoParts(parts: seq<Node>)
    ensures AllLowerable(parts, 0) && !FirstThrows(parts, 0)
  {
  }

  lemma {:induction false} TestTold(e: Node, i: nat, t: Table)
    requires e.InList? && i < |e.values|
    ensures Told(LowerTest(e, i, t), Lowerable(e.probe) && Lowerable(e.values[i]),
                 Throws(e.probe) || (Lowerable(e.probe) && Throws(e.values[i])))
    decreases e, 0, 0
  {
    hide Lowerable, Throws, Lower;
    LowersIff(e.probe, t);
    LowersIff(e.values[i], t);
  }

  lemma {:induction false} InTold(e: Node, n: nat, t: Table)
    requires e.InList? && 1 <= n <= |e.values|
    ensures Told(LowerIn(e, n, t), Lowerable(e.probe) && AllLowerable(e.values, n),
                 Throws(e.probe) || (Lowerable(e.probe) && FirstThrows(e.values, n)))
    ensures !(Lowerable(e.probe) && Throws(e.probe))
    decreases e, 0, n
  {
    hide Lowerable, Throws, AllLowerable, FirstThrows, Lower, LowerTest;
    LowersIff(e.probe, t);
    TestTold(e, n - 1, t);
    FirstThrowsMore(e.values, n - 1);
    if n > 1 { InTold(e, n - 1, t); } else { NoParts(e.values); }
  }

  lemma {:induction false} ListParts(e: Node, t: Table)
    requires (e.Conjunction? && e.children != [] && e.conj != InvalidConjunction) || (e.InList? && e.values != [])
    ensures e.Conjunction? ==>
              && ConjunctionOp(e.conj).Some?
              && Lower(e, t) == LowerFold(ConjunctionOp(e.conj).value, e, |e.children|, t)
              && (Lowerable(e) <==> AllLowerable(e.children, |e.children|))
              && (Throws(e) <==> FirstThrows(e.children, |e.children|))
    ensures e.InList? ==>
              && (Lower(e, t).Done? <==> LowerIn(e, |e.values|, t).Done?)
              && (Lower(e, t).Thrown? <==> LowerIn(e, |e.values|, t).Thrown?)
              && (Lowerable(e) <==> Lowerable(e.probe) && AllLowerable(e.values, |e.values|))
              && (Throws(e) <==> Throws(e.probe) || (Lowerable(e.probe) && FirstThrows(e.values, |e.values|)))
  {
    hide LowerFold, LowerIn;
  }

  lemma {:induction false} NothingListed(e: Node, t: Table)
    requires (e.Conjunction? && (e.children == [] || e.conj == InvalidConjunction)) || (e.InList? && e.values == [])
    ensures Lower(e, t).Rejected? && !Lowerable(e) && !Throws(e)
  {
  }

  lemma {:induction false} ListTold(e: Node, t: Table)
    requires e.Conjunction? || e.InList?
    ensures Told(Lower(e, t), Lowerable(e), Throws(e))
    decreases e, 0
  {
    hide Lower, LowerFold, LowerIn, Lowerable, Throws, AllLowerable, FirstThrows;
    if e.Conjunction? && e.children != [] && e.conj != InvalidConjunction {
      ListParts(e, t);
      FoldTold(ConjunctionOp(e.conj).value, e, |e.children|, t);
    } else if e.InList? && e.values != [] {
      ListParts(e, t);
      InTold(e, |e.values|, t);
    } else {
      NothingListed(e, t);
    }
  }

  // ---- Join conditions ------------------------------------------------------------------------

  predicate SideLowerable(side: Option<Node>) { side.Some? && Lowerable(side.value) }

  predicate SideThrows(side: Option<Node>) { side.Some? && Throws(side.value) }

  /** Both sides are there and can be lowered, and so can the comparison. */
  predicate ConditionLowerable(c: JoinCondition) {
    SideLowerable(c.left) && SideLowerable(c.right) && c.cmp != DistinctFrom && c.cmp != NotDistinctFrom
  }

  /** The first side that is not lowered throws. */
  predicate ConditionThrows(c: JoinCondition) { SideThrows(c.left) || (SideLowerable(c.left) && SideThrows(c.right)) }

  lemma ConditionTold(c: JoinCondition, swap: bool)
    ensures Told(LowerCondition(c, swap), ConditionLowerable(c), ConditionThrows(c))
  {
    hide Lower, Lowerable, Throws, LowerSide, Side, Joined;
    var l, r := LowerSide(c.left, Side(true, swap)), LowerSide(c.right, Side(false, swap));
    SideTold(c.left, Side(true, swap));
    SideTold(c.right, Side(false, swap));
    JoinedTold(ComparisonOp(c.cmp), l, r);
  }

  lemma SideTold(side: Option<Node>, t: Table)
    ensures var o := LowerSide(side, t);
            && (o.Some? && o.value.Done? <==> SideLowerable(side)) && (o.Some? && o.value.Thrown? <==> SideThrows(side))
  {
    hide Lower, Lowerable, Throws;
    if side.Some? { LowersIff(side.value, t); }
  }

  lemma JoinedTold(op: Option<Op2>, l: Option<Outcome<Term>>, r: Option<Outcome<Term>>)
    ensures var goes := l.Some? && l.value.Done?;
            && (Joined(op, l, r).Done? <==> goes && r.Some? && r.value.Done? && op.Some?)
            && (Joined(op, l, r).Thrown? <==>
                (l.Some? && l.value.Thrown?) || (goes && r.Some? && r.value.Thrown?))
  {
  }

  predicate AllConditions(cs: seq<JoinCondition>, start: nat, end: nat)
    requires start <= end <= |cs|
  {
    forall i :: start <= i < end ==> ConditionLowerable(cs[i])
  }

  /** The first condition that is not lowered throws. */
  predicate FirstConditionThrows(cs: seq<JoinCondition>, start: nat, end: nat)
    requires start <= end <= |cs|
  {
    exists i :: start <= i < end && ConditionThrows(cs[i]) && AllConditions(cs, start, i)
  }

  lemma ConditionsMore(cs: seq<JoinCondition>, start: nat, end: nat)
    requires start <= end < |cs|
    ensures AllConditions(cs, start, end + 1) <==> AllConditions(cs, start, end) && ConditionLowerable(cs[end])
    ensures FirstConditionThrows(cs, start, end + 1) <==>
            FirstConditionThrows(cs, start, end) || (AllConditions(cs, start, end) && ConditionThrows(cs[end]))
  {
    hide ConditionThrows, ConditionLowerable;
  }

  /** Conditions are translated exactly when each of them can be, and throw exactly when the
      first that cannot be throws. */
  lemma {:induction false} ConditionsTold(cs: seq<JoinCondition>, start: nat, end: nat, swap: bool)
    requires start < end <= |cs|
    ensures Told(LowerConditions(cs, start, end, swap), AllConditions(cs, start, end),
            FirstConditionThrows(cs, start, end))
    decreases end
  {
    hide LowerCondition, ConditionThrows, ConditionLowerable, AllConditions, FirstConditionThrows;
    ConditionTold(cs[end - 1], swap);
    ConditionsMore(cs, start, end - 1);
    if end == start + 1 { NoConditions(cs, start); } else { ConditionsTold(cs, start, end - 1, swap); }
  }

  lemma NoConditions(cs: seq<JoinCondition>, start: nat)
    requires start <= |cs|
    ensures AllConditions(cs, start, start) && !FirstConditionThrows(cs, start, start)
  {
  }
}
