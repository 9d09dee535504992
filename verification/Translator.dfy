/** The translator object: it appends to one tree and answers with the position of the node
    it added last. */
module Translator {
  import opened Common
  import opened SiriusAst
  import opened CudfTree
  import opened Lowering

  /** What a call left behind: the term's nodes appended and its root at the back, or a
      failure with whatever was appended before it. */
  ghost predicate Did(o: Outcome<Term>, before: Tree, after: Tree, r: Outcome<nat>) {
    match o
    case Done(c) => after == Put(c, before) && r == Done(|after| - 1)
    case Rejected => before <= after && r == Rejected
    case Thrown => before <= after && r == Thrown
  }

  class Translator {
    var tree: Tree

    constructor ()
      ensures tree == []
    {
      tree := [];
    }

    method Emplace(n: CNode) returns (r: Outcome<nat>)
      modifies this
      ensures tree == old(tree) + [n] && r == Done(|old(tree)|)
    {
      r := Done(|tree|);
      tree := tree + [n];
    }

    method AddExpression(e: Node, t: Table) returns (r: Outcome<nat>)
      modifies this
      ensures Did(Lower(e, t), old(tree), tree, r)
      decreases e, 2
    {
      match e
      case Reference(i, _) => r := Emplace(Column(i, t));
      case Constant(_, _) => r := AddConstant(e, t);
      case Compare(c, l, r_) => r := AddPair(ComparisonOp(c), l, r_, e, t);
      case Conjunction(_, _) => r := AddConjunction(e, t);
      case Between(_, _, _, _, _) => r := AddBetween(e, t);
      case CaseOf(_, _, _) => r := Rejected;
      case Cast(_, _, _) => r := AddCast(e, t);
      case Unary(_, _) => r := AddUnary(e, t);
      case Coalesce(_, _) => r := Rejected;
      case InList(_, _, _) => r := AddInList(e, t);
      case Call(_, _, _) => r := AddCall(e, t);
      case Aggregate(_, _, _, _) => r := Thrown;
    }

    method AddConstant(e: Node, t: Table) returns (r: Outcome<nat>)
      requires e.Constant?
      modifies this
      ensures Did(Lower(e, t), old(tree), tree, r)
    {
      if e.payload.NullValue? { return Rejected; }
      match DeviceTypeOf(e.typ)
      case None => r := Thrown;
      case Some(d) =>
        if d == D_STRUCT {
          r := Rejected;
        } else if Holds(e.payload, d) {
          r := Emplace(Literal(e.payload, e.typ));
        } else {
          r := Thrown;
        }
    }

    /** Both children are added before a failure of either is looked at. */
    method AddPair(op: Option<Op2>, a: Node, b: Node, ghost e: Node, t: Table) returns (r: Outcome<nat>)
      requires a < e && b < e
      modifies this
      ensures Did(Pair(op, Lower(a, t), Lower(b, t)), old(tree), tree, r)
      decreases e, 0
    {
      var ra := AddExpression(a, t);
      if ra.Thrown? { return Thrown; }
      var rb := AddExpression(b, t);
      if rb.Thrown? { return Thrown; }
      if ra.Rejected? || rb.Rejected? || op.None? { return Rejected; }
      r := Emplace(Apply2(op.value, ra.value, rb.value));
    }

    method AddConjunction(e: Node, t: Table) returns (r: Outcome<nat>)
      requires e.Conjunction?
      modifies this
      ensures Did(Lower(e, t), old(tree), tree, r)
      decreases e, 0
    {
      if e.children == [] || ConjunctionOp(e.conj).None? { return Rejected; }
      var op := ConjunctionOp(e.conj).value;
      r := AddExpression(e.children[0], t);
      var i := 1;
      while i < |e.children|
        invariant 1 <= i <= |e.children|
        invariant Did(LowerFold(op, e, i, t), old(tree), tree, r)
      {
        hide Lower;
        if r.Done? {
          var c := AddExpression(e.children[i], t);
          if c.Done? {
            r := Emplace(Apply2(op, r.value, c.value));
          } else {
            r := c;
          }
        }
        i := i + 1;
      }
    }

    method AddBetween(e: Node, t: Table) returns (r: Outcome<nat>)
      requires e.Between?
      modifies this
      ensures Did(Lower(e, t), old(tree), tree, r)
      decreases e, 0
    {
      hide Lower, Put;
      BetweenIs(e, t);
      var x := AddExpression(e.input, t);
      if x.Thrown? {
        r := Thrown;
      } else {
        var lo := AddExpression(e.lower, t);
        if lo.Thrown? {
          r := Thrown;
        } else {
          var hi := AddExpression(e.upper, t);
          if hi.Thrown? {
            r := Thrown;
          } else if x.Rejected? || lo.Rejected? || hi.Rejected? {
            r := Rejected;
          } else {
            r := EmplaceRange(x.value, lo.value, hi.value);
            PutRanged(Lower(e.input, t).value, Lower(e.lower, t).value, Lower(e.upper, t).value, old(tree));
          }
        }
      }
    }

    method EmplaceRange(x: nat, lo: nat, hi: nat) returns (r: Outcome<nat>)
      requires tree != [] && hi == |tree| - 1
      modifies this
      ensures tree == old(tree) + RangeNodes(old(tree), x, lo) && r == Done(|tree| - 1)
    {
      var lowerCmp := Emplace(Apply2(GREATER_EQUAL, x, lo));
      var upperCmp := Emplace(Apply2(LESS_EQUAL, x, hi));
      r := Emplace(Apply2(LOGICAL_AND, lowerCmp.value, upperCmp.value));
    }

    method AddCast(e: Node, t: Table) returns (r: Outcome<nat>)
      requires e.Cast?
      modifies this
      ensures Did(Lower(e, t), old(tree), tree, r)
      decreases e, 0
    {
      r := AddExpression(e.child, t);
      if r.Done? {
        match CastOp(e.target)
        case Done(op) => r := Emplace(Apply1(op, r.value));
        case Rejected => r := Rejected;
        case Thrown => r := Thrown;
      }
    }

    method AddUnary(e: Node, t: Table) returns (r: Outcome<nat>)
      requires e.Unary?
      modifies this
      ensures Did(Lower(e, t), old(tree), tree, r)
      decreases e, 0
    {
      r := AddExpression(e.child, t);
      if r.Done? {
        match e.unary
        case Not => r := Emplace(Apply1(NOT, r.value));
        case IsNull => r := Emplace(Apply1(IS_NULL, r.value));
        case IsNotNull =>
          r := Emplace(Apply1(IS_NULL, r.value));
          r := Emplace(Apply1(NOT, r.value));
        case _ => r := Rejected;
      }
    }

    method AddTest(e: Node, i: nat, t: Table) returns (r: Outcome<nat>)
      requires e.InList? && i < |e.values|
      modifies this
      ensures Did(LowerTest(e, i, t), old(tree), tree, r)
      decreases e, 0
    {
      var p := AddExpression(e.probe, t);
      if !p.Done? { return p; }
      var v := AddExpression(e.values[i], t);
      if !v.Done? { return v; }
      r := Emplace(Apply2(EQUAL, p.value, v.value));
    }

    method AddInList(e: Node, t: Table) returns (r: Outcome<nat>)
      requires e.InList?
      modifies this
      ensures Did(Lower(e, t), old(tree), tree, r)
      decreases e, 1
    {
      if e.values == [] { return Rejected; }
      r := AddTest(e, 0, t);
      var i := 1;
      while i < |e.values|
        invariant 1 <= i <= |e.values|
        invariant Did(LowerIn(e, i, t), old(tree), tree, r)
      {
        hide Lower, LowerTest;
        if r.Done? {
          var next := AddTest(e, i, t);
          if next.Done? {
            r := Emplace(Apply2(LOGICAL_OR, r.value, next.value));
          } else {
            r := next;
          }
        }
        i := i + 1;
      }
      if r.Done? && e.negated {
        r := Emplace(Apply1(NOT, r.value));
      }
    }

    method AddCall(e: Node, t: Table) returns (r: Outcome<nat>)
      requires e.Call?
      modifies this
      ensures Did(Lower(e, t), old(tree), tree, r)
      decreases e, 1
    {
      var args := e.arguments;
      if exists i :: 0 <= i < |args| && CarriedType(args[i]) == DECIMAL { return Rejected; }
      if ArithOp(e.function_).None? || |args| != 2 { return Rejected; }
      r := AddPair(ArithOp(e.function_), args[0], args[1], e, t);
    }

    /** A fresh tree for the expression. On success the root is the tree's back, every
        operand precedes its operation, and the tree computes what the term means. */
    method TranslateExpression(e: Node, t: Table) returns (r: Outcome<Tree>)
      modifies this
      ensures match Lower(e, t)
              case Done(c) => r == Done(Put(c, []))
                && forall env: Env, ops: Ops :: Computes(r.value, c, env, ops)
              case Rejected => r == Rejected
              case Thrown => r == Thrown
    {
      tree := [];
      var root := AddExpression(e, t);
      match root
      case Done(_) =>
        forall env: Env, ops: Ops ensures Computes(tree, Lower(e, t).value, env, ops) {
          PutComputes(Lower(e, t).value, [], env, ops);
        }
        r := Done(tree);
      case Rejected => r := Rejected;
      case Thrown => r := Thrown;
    }

    method AddJoinCondition(c: JoinCondition, swap: bool) returns (r: Outcome<nat>)
      modifies this
      ensures Did(LowerCondition(c, swap), old(tree), tree, r)
    {
      if c.left.None? { return Rejected; }
      var l := AddExpression(c.left.value, Side(true, swap));
      if !l.Done? { return l; }
      if c.right.None? { return Rejected; }
      var x := AddExpression(c.right.value, Side(false, swap));
      if !x.Done? { return x; }
      match ComparisonOp(c.cmp)
      case Some(op) => r := Emplace(Apply2(op, l.value, x.value));
      case None => r := Rejected;
    }

    /** The tree of the conditions `start` up to `end`; none for an empty range. */
    method TranslateJoinConditions(cs: seq<JoinCondition>, start: nat, end: nat, swap: bool) returns (r: Outcome<Tree>)
      requires end <= |cs|
      modifies this
      ensures start >= end ==> r == Rejected
      ensures start < end ==>
                match LowerConditions(cs, start, end, swap)
                case Done(c) => r == Done(Put(c, []))
                case Rejected => r == Rejected
                case Thrown => r == Thrown
    {
      if start >= end { return Rejected; }
      tree := [];
      var combined := AddJoinCondition(cs[start], swap);
      if !combined.Done? {
        LowerConditionsFail(cs, start, start + 1, end, swap);
        return if combined.Rejected? then Rejected else Thrown;
      }
      var i := start + 1;
      while i < end
        invariant start < i <= end && combined.Done?
        invariant Did(LowerConditions(cs, start, i, swap), [], tree, combined)
      {
        var next := AddJoinCondition(cs[i], swap);
        if !next.Done? {
          LowerConditionsFail(cs, start, i + 1, end, swap);
          return if next.Rejected? then Rejected else Thrown;
        }
        combined := Emplace(Apply2(LOGICAL_AND, combined.value, next.value));
        i := i + 1;
      }
      r := Done(tree);
    }
  }

  lemma BetweenIs(e: Node, t: Table)
    requires e.Between?
    ensures Lower(e, t) == Triple(Lower(e.input, t), Lower(e.lower, t), Lower(e.upper, t))
  {
  }

  lemma PutRanged(x: Term, lo: Term, hi: Term, tree: Tree)
    ensures var t, u, w := Put(x, tree), Put(lo, Put(x, tree)), Put(hi, Put(lo, Put(x, tree)));
            Put(Ranged(x, lo, hi), tree) == w + RangeNodes(w, |t| - 1, |u| - 1)
  {
  }

  /** Once a condition fails, so does every longer range. */
  lemma {:induction false} LowerConditionsFail(cs: seq<JoinCondition>, start: nat, mid: nat, end: nat, swap: bool)
    requires start < mid <= end <= |cs| && !LowerConditions(cs, start, mid, swap).Done?
    ensures LowerConditions(cs, start, end, swap) == LowerConditions(cs, start, mid, swap)
  {
    if mid < end {
      LowerConditionsFail(cs, start, mid, end - 1, swap);
    }
  }
}
