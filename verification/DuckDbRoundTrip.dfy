/** Whole expressions to the host database's form and back. */
module DuckDbRoundTrip {
  import opened Common
  import opened SiriusAst
  import opened DuckDb

  // ---- Nodes as a head and its children --------------------------------------------------------

  function Arity(e: Node): nat {
    match e
    case Reference(_, _) => 0
    case Constant(_, _) => 0
    case Compare(_, _, _) => 2
    case Conjunction(_, cs) => |cs|
    case Between(_, _, _, _, _) => 3
    case CaseOf(cases, _, _) => 2 * |cases| + 1
    case Cast(_, _, _) => 1
    case Unary(_, _) => 1
    case Coalesce(cs, _) => |cs|
    case InList(_, vs, _) => |vs| + 1
    case Call(_, args, _) => |args|
    case Aggregate(_, args, _, _) => |args|
  }

  function Kid(e: Node, i: nat): (k: Node)
    requires i < Arity(e)
    ensures k < e
  {
    match e
    case Compare(_, l, r) => if i == 0 then l else r
    case Conjunction(_, cs) => cs[i]
    case Between(x, lo, hi, _, _) => if i == 0 then x else if i == 1 then lo else hi
    case CaseOf(cases, otherwise, _) =>
      if i == 2 * |cases| then otherwise else if i % 2 == 0 then cases[i / 2].when else cases[i / 2].then_
    case Cast(c, _, _) => c
    case Unary(_, c) => c
    case Coalesce(cs, _) => cs[i]
    case InList(p, vs, _) => if i == 0 then p else vs[i - 1]
    case Call(_, args, _) => args[i]
    case Aggregate(_, args, _, _) => args[i]
  }

  /** The same head over other children. */
  function Build(e: Node, ks: seq<Node>): Node
    requires |ks| == Arity(e)
  {
    match e
    case Reference(_, _) => e
    case Constant(_, _) => e
    case Compare(c, _, _) => Compare(c, ks[0], ks[1])
    case Conjunction(k, _) => Conjunction(k, ks)
    case Between(_, _, _, li, ui) => Between(ks[0], ks[1], ks[2], li, ui)
    case CaseOf(cases, _, t) =>
      CaseOf(seq(|cases|, i requires 0 <= i < |cases| => WhenThen(ks[2 * i], ks[2 * i + 1])), ks[2 * |cases|], t)
    case Cast(_, t, try_) => Cast(ks[0], t, try_)
    case Unary(k, _) => Unary(k, ks[0])
    case Coalesce(_, t) => Coalesce(ks, t)
    case InList(_, _, negated) => InList(ks[0], ks[1..], negated)
    case Call(f, _, t) => Call(f, ks, t)
    case Aggregate(n, _, t, d) => Aggregate(n, ks, t, d)
  }

  /** Building keeps the head and puts every child in its place. */
  lemma BuildKids(e: Node, ks: seq<Node>)
    requires |ks| == Arity(e)
    ensures Arity(Build(e, ks)) == Arity(e) && forall i: nat :: i < Arity(e) ==> Kid(Build(e, ks), i) == ks[i]
  {
    if e.CaseOf? {
      forall i: nat | i < Arity(e) ensures Kid(Build(e, ks), i) == ks[i] {
        if i < 2 * |e.cases| { assert i == 2 * (i / 2) + i % 2; }
      }
    }
  }

  lemma BuildSame(e: Node, ks: seq<Node>)
    requires |ks| == Arity(e) && forall i: nat :: i < Arity(e) ==> ks[i] == Kid(e, i)
    ensures Build(e, ks) == e
  {
    match e
    case Conjunction(_, cs) => assert ks == cs;
    case Coalesce(cs, _) => assert ks == cs;
    case Call(_, args, _) => assert ks == args;
    case Aggregate(_, args, _, _) => assert ks == args;
    case InList(_, vs, _) => InListSame(e, ks); hide *;
    case CaseOf(_, _, _) => CaseSame(e, ks); hide *;
    case _ =>
  }

  lemma InListSame(e: Node, ks: seq<Node>)
    requires e.InList? && |ks| == Arity(e) && forall i: nat :: i < Arity(e) ==> ks[i] == Kid(e, i)
    ensures Build(e, ks) == e
  {
    forall i: nat | i < |e.values| ensures ks[1..][i] == e.values[i] {
      assert ks[i + 1] == Kid(e, i + 1);
    }
    assert ks[1..] == e.values;
  }

  lemma CaseSame(e: Node, ks: seq<Node>)
    requires e.CaseOf? && |ks| == Arity(e) && forall i: nat :: i < Arity(e) ==> ks[i] == Kid(e, i)
    ensures Build(e, ks) == e
  {
    var b := Build(e, ks);
    assert ks[2 * |e.cases|] == Kid(e, 2 * |e.cases|);
    assert |b.cases| == |e.cases| && b.otherwise == e.otherwise && b.typ == e.typ;
    forall i: nat | i < |e.cases| ensures b.cases[i] == e.cases[i] {
      CaseKids(e, i);
      assert ks[2 * i] == Kid(e, 2 * i) && ks[2 * i + 1] == Kid(e, 2 * i + 1);
    }
    hide Kid, Build, Arity;
    assert b.cases == e.cases;
  }

  lemma CaseKids(e: Node, i: nat)
    requires e.CaseOf? && i < |e.cases|
    ensures 2 * i + 1 < Arity(e) && Kid(e, 2 * i) == e.cases[i].when && Kid(e, 2 * i + 1) == e.cases[i].then_
  {
    assert (2 * i) / 2 == i && (2 * i) % 2 == 0 && (2 * i + 1) / 2 == i && (2 * i + 1) % 2 == 1;
  }

  // ---- To the host database --------------------------------------------------------------------

  /** Whether the host leaves out a cast of this child to this type. */
  type Elision = (Duck, DuckType) -> bool

  const INTEGER_TYPE := DuckType(T_INTEGER, 0, 0)
  const BOOLEAN_TYPE := DuckType(T_BOOLEAN, 0, 0)

  function WithType(t: LogicalType, f: DuckType -> Duck): Option<Duck> {
    match ToType(t) case Some(d) => Some(f(d)) case None => None
  }

  /** None where the conversion throws. */
  function ToHead(e: Node, ds: seq<Duck>, elides: Elision): Option<Duck>
    requires |ds| == Arity(e)
  {
    match e
    case Reference(i, t) => if t.id == SQLNULL then Some(B_REF(i, INTEGER_TYPE)) else WithType(t, d => B_REF(i, d))
    case Constant(p, t) => (match ToValue(p, t) case Some(v) => Some(B_CONSTANT(v)) case None => None)
    case Compare(c, _, _) => Some(B_COMPARISON(ToComparison(c), ds[0], ds[1]))
    case Conjunction(k, _) =>
      (match k
       case And => Some(B_CONJUNCTION(E_AND, ds))
       case Or => Some(B_CONJUNCTION(E_OR, ds))
       case InvalidConjunction => None)
    case Between(_, _, _, li, ui) => Some(B_BETWEEN(ds[0], ds[1], ds[2], li, ui))
    case CaseOf(cases, _, t) =>
      var checks := seq(|cases|, i requires 0 <= i < |cases| => DuckCheck(ds[2 * i], ds[2 * i + 1]));
      (match ToType(t) case Some(d) => Some(B_CASE(checks, ds[2 * |cases|], d)) case None => None)
    case Cast(_, t, try_) =>
      (match ToType(t)
       case Some(d) => if !try_ && elides(ds[0], d) then Some(ds[0]) else Some(B_CAST(ds[0], d, try_))
       case None => None)
    case Unary(k, _) => (match ToUnary(k) case Some(op) => Some(B_OPERATOR(op, ds, BOOLEAN_TYPE)) case None => None)
    case Coalesce(_, t) => WithType(t, d => B_OPERATOR(E_COALESCE, ds, d))
    case InList(_, _, negated) => Some(B_OPERATOR(if negated then E_NOT_IN else E_IN, ds, BOOLEAN_TYPE))
    case Call(f, _, t) => WithType(t, d => B_FUNCTION(NameOf(f), ds, d))
    case Aggregate(_, _, _, _) => None
  }

  function ToDuck(e: Node, elides: Elision): Option<Duck>
    decreases e, 1
  {
    var ds := ToKids(e, elides);
    if exists i :: 0 <= i < |ds| && ds[i].None? then None
    else ToHead(e, seq(|ds|, i requires 0 <= i < |ds| => (assert ds[i].Some?; ds[i].value)), elides)
  }

  function ToKids(e: Node, elides: Elision): (ds: seq<Option<Duck>>)
    ensures |ds| == Arity(e) && forall i: nat :: i < |ds| ==> ds[i] == ToDuck(Kid(e, i), elides)
    decreases e, 0
  {
    seq(Arity(e), i requires 0 <= i < Arity(e) => ToDuck(Kid(e, i), elides))
  }

  // ---- From the host database ----------------------------------------------------------------------

  function DuckArity(d: Duck): nat {
    match d
    case B_COMPARISON(_, _, _) => 2
    case B_CONJUNCTION(_, cs) => |cs|
    case B_BETWEEN(_, _, _, _, _) => 3
    case B_CASE(checks, _, _) => 2 * |checks| + 1
    case B_CAST(_, _, _) => 1
    case B_OPERATOR(_, cs, _) => |cs|
    case B_FUNCTION(_, cs, _) => |cs|
    case _ => 0
  }

  function DuckKid(d: Duck, i: nat): (k: Duck)
    requires i < DuckArity(d)
    ensures k < d
  {
    match d
    case B_COMPARISON(_, l, r) => if i == 0 then l else r
    case B_CONJUNCTION(_, cs) => cs[i]
    case B_BETWEEN(x, lo, hi, _, _) => if i == 0 then x else if i == 1 then lo else hi
    case B_CASE(checks, otherwise, _) =>
      if i == 2 * |checks| then otherwise else if i % 2 == 0 then checks[i / 2].when else checks[i / 2].then_
    case B_CAST(c, _, _) => c
    case B_OPERATOR(_, cs, _) => cs[i]
    case B_FUNCTION(_, cs, _) => cs[i]
  }

  predicate AllDone(ks: seq<Conversion<Node>>) { forall i :: 0 <= i < |ks| ==> ks[i].Done? }

  function Values(ks: seq<Conversion<Node>>): (vs: seq<Node>)
    requires AllDone(ks)
    ensures |vs| == |ks| && forall i :: 0 <= i < |ks| ==> vs[i] == ks[i].value
  {
    seq(|ks|, i requires 0 <= i < |ks| => ks[i].value)
  }

  /** Children translated one by one: the first failure decides. */
  function InOrder(ks: seq<Conversion<Node>>, i: nat): (r: Conversion<seq<Node>>)
    requires i <= |ks| && forall j :: 0 <= j < i ==> ks[j].Done?
    ensures AllDone(ks) ==> r == Done(Values(ks))
    ensures r.Done? ==> AllDone(ks)
    decreases |ks| - i
  {
    if i == |ks| then Done(Values(ks))
    else match ks[i]
      case Done(_) => InOrder(ks, i + 1)
      case Refused => Refused
      case Thrown => Thrown
  }

  /** Children all translated before a failure is looked at. */
  function Together(ks: seq<Conversion<Node>>): Conversion<seq<Node>> {
    if exists i :: 0 <= i < |ks| && ks[i].Thrown? then Thrown
    else if exists i :: 0 <= i < |ks| && ks[i].Refused? then Refused
    else Done(Values(ks))
  }

  /** A CASE: each condition together with its result, then the default. */
  function InPairs(ks: seq<Conversion<Node>>, i: nat): (r: Conversion<seq<Node>>)
    requires i % 2 == 0 && i < |ks| && |ks| % 2 == 1 && forall j :: 0 <= j < i ==> ks[j].Done?
    ensures AllDone(ks) ==> r == Done(Values(ks))
    ensures r.Done? ==> AllDone(ks)
    decreases |ks| - i
  {
    if i == |ks| - 1 then InOrder(ks, i)
    else match Together([ks[i], ks[i + 1]])
      case Done(_) =>
        assert !([ks[i], ks[i + 1]][0].Thrown?) && !([ks[i], ks[i + 1]][1].Thrown?);
        InPairs(ks, i + 2)
      case Refused => Refused
      case Thrown => Thrown
  }

  function Finish(ks: Conversion<seq<Node>>, t: DuckType, f: (seq<Node>, LogicalType) -> Node): Conversion<Node> {
    match ks
    case Done(vs) => (match FromType(t) case Some(l) => Conversion.Done(f(vs, l)) case None => Thrown)
    case Refused => Refused
    case Thrown => Thrown
  }

  const COLUMNS: int := 0x1_0000_0000

  function FromOperator(op: DuckOp, ks: seq<Conversion<Node>>, t: DuckType): Conversion<Node> {
    if FromUnary(op) != InvalidUnary then
      if ks == [] then Thrown
      else (match ks[0] case Done(c) => Conversion.Done(Unary(FromUnary(op), c)) case failed => failed)
    else if op == E_COALESCE then Finish(InOrder(ks, 0), t, (vs, l) => Coalesce(vs, l))
    else if op == E_IN || op == E_NOT_IN then
      if ks == [] then Thrown
      else (match InOrder(ks, 0)
            case Done(vs) => Conversion.Done(InList(vs[0], vs[1..], op == E_NOT_IN))
            case Refused => Refused
            case Thrown => Thrown)
    else Refused
  }

  function FromHead(d: Duck, ks: seq<Conversion<Node>>): Conversion<Node>
    requires |ks| == DuckArity(d)
  {
    match d
    case B_REF(i, t) => Finish(Done([]), t, (_, l) => Reference(i % COLUMNS, l))
    case B_CONSTANT(v) =>
      (match FromType(ValueType(v))
       case Some(t) => (match FromValue(v, t) case Some(p) => Conversion.Done(Constant(p, t)) case None => Thrown)
       case None => Thrown)
    case B_COMPARISON(op, _, _) =>
      (match FromComparison(op)
       case Some(c) =>
         (match Together(ks) case Done(vs) => Conversion.Done(Compare(c, vs[0], vs[1])) case Refused => Refused
           case Thrown => Thrown)
       case None => Refused)
    case B_CONJUNCTION(op, _) =>
      if op != E_AND && op != E_OR then Refused
      else (match InOrder(ks, 0)
            case Done(vs) => Conversion.Done(Conjunction(if op == E_AND then And else Or, vs))
            case Refused => Refused
            case Thrown => Thrown)
    case B_BETWEEN(_, _, _, li, ui) =>
      (match Together(ks) case Done(vs) => Conversion.Done(Between(vs[0], vs[1], vs[2], li, ui))
        case Refused => Refused case Thrown => Thrown)
    case B_CASE(checks, _, t) =>
      var n := |checks|;
      (match InPairs(ks, 0)
       case Done(vs) =>
         (match FromType(t)
          case Some(l) =>
            Conversion.Done(CaseOf(seq(n, i requires 0 <= i < n => WhenThen(vs[2 * i], vs[2 * i + 1])), vs[2 * n], l))
          case None => Thrown)
       case Refused => Refused
       case Thrown => Thrown)
    case B_CAST(_, t, try_) =>
      (match ks[0]
       case Done(c) => (match FromType(t) case Some(l) => Conversion.Done(Cast(c, l, try_)) case None => Thrown)
       case failed => failed)
    case B_OPERATOR(op, _, t) => FromOperator(op, ks, t)
    case B_FUNCTION(name, _, t) =>
      (match Lookup(name, 0)
       case Some(f) => Finish(InOrder(ks, 0), t, (vs, l) => Call(f, vs, l))
       case None => Refused)
    case B_PARAMETER => Refused
    case B_UNKNOWN => Thrown
  }

  function FromDuck(d: Duck): Conversion<Node>
    decreases d, 1
  {
    FromHead(d, FromKids(d))
  }

  function FromKids(d: Duck): (ks: seq<Conversion<Node>>)
    ensures |ks| == DuckArity(d) && forall i: nat :: i < |ks| ==> ks[i] == FromDuck(DuckKid(d, i))
    decreases d, 0
  {
    seq(DuckArity(d), i requires 0 <= i < DuckArity(d) => FromDuck(DuckKid(d, i)))
  }

  // ---- There and back -----------------------------------------------------------------------------

  /** What the engine's own constructors and carriers guarantee of a node. */
  predicate HeadValid(e: Node) {
    match e
    case Reference(i, t) => i < COLUMNS && WellFormed(t)
    case Constant(p, t) => InRange(p) && WellFormed(t)
    case CaseOf(_, _, t) => WellFormed(t)
    case Cast(_, t, _) => WellFormed(t)
    case Coalesce(_, t) => WellFormed(t)
    case Call(_, _, t) => WellFormed(t)
    case _ => true
  }

  predicate NodeValid(e: Node) {
    HeadValid(e) && forall i: nat :: i < Arity(e) ==> NodeValid(Kid(e, i))
  }

  /** The host leaves out the cast at the root. */
  predicate Elided(e: Node, elides: Elision) {
    && e.Cast? && !e.tryCast && ToDuck(e.child, elides).Some? && ToType(e.target).Some?
    && elides(ToDuck(e.child, elides).value, ToType(e.target).value)
  }

  /** What comes back: untyped references typed INTEGER, literals as their types store
      them, and no cast the host left out. */
  function Normal(e: Node, elides: Elision): Node
    decreases e, 1
  {
    match e
    case Reference(i, t) => if t.id == SQLNULL then Reference(i, LogicalType(INTEGER, 0, 0)) else e
    case Constant(p, t) => Constant(NormalValue(p, t), t)
    case Cast(c, _, _) => if Elided(e, elides) then Normal(c, elides) else Build(e, NormalKids(e, elides))
    case _ => Build(e, NormalKids(e, elides))
  }

  function NormalKids(e: Node, elides: Elision): (ks: seq<Node>)
    ensures |ks| == Arity(e) && forall i: nat :: i < |ks| ==> ks[i] == Normal(Kid(e, i), elides)
    decreases e, 0
  {
    seq(Arity(e), i requires 0 <= i < Arity(e) => Normal(Kid(e, i), elides))
  }

  /** The converted node's children are the converted children. */
  lemma HeadKids(e: Node, ds: seq<Duck>, elides: Elision)
    requires |ds| == Arity(e) && Arity(e) > 0 && ToHead(e, ds, elides).Some?
    requires e.Cast? ==> e.tryCast || !elides(ds[0], ToType(e.target).value)
    ensures var d := ToHead(e, ds, elides).value;
            DuckArity(d) == Arity(e) && forall i: nat :: i < Arity(e) ==> DuckKid(d, i) == ds[i]
  {
    if e.CaseOf? {
      var d := ToHead(e, ds, elides).value;
      forall i: nat | i < Arity(e) ensures DuckKid(d, i) == ds[i] {
        if i < 2 * |e.cases| { assert i == 2 * (i / 2) + i % 2; }
      }
    }
  }

  lemma CaseBack(e: Node, ds: seq<Duck>, ks: seq<Conversion<Node>>, elides: Elision)
    requires e.CaseOf? && HeadValid(e) && |ds| == |ks| == Arity(e) && ToHead(e, ds, elides).Some? && AllDone(ks)
    requires DuckArity(ToHead(e, ds, elides).value) == Arity(e)
    ensures FromHead(ToHead(e, ds, elides).value, ks) == Conversion.Done(Build(e, Values(ks)))
  {
    TypeRoundTrip(e.typ);
    assert InPairs(ks, 0) == Done(Values(ks));
  }

  lemma UntypedBack(e: Node, ds: seq<Duck>, ks: seq<Conversion<Node>>, elides: Elision)
    requires e.Compare? || e.Conjunction? || e.Between? || e.Unary? || e.InList?
    requires |ds| == |ks| == Arity(e) > 0 && ToHead(e, ds, elides).Some? && AllDone(ks)
    requires DuckArity(ToHead(e, ds, elides).value) == Arity(e)
    ensures FromHead(ToHead(e, ds, elides).value, ks) == Conversion.Done(Build(e, Values(ks)))
  {
  }

  lemma CastBack(e: Node, ds: seq<Duck>, ks: seq<Conversion<Node>>, elides: Elision)
    requires e.Cast? && HeadValid(e) && |ds| == |ks| == Arity(e) && ToHead(e, ds, elides).Some? && AllDone(ks)
    requires e.tryCast || !elides(ds[0], ToType(e.target).value)
    ensures FromHead(ToHead(e, ds, elides).value, ks) == Conversion.Done(Build(e, Values(ks)))
  {
    TypeRoundTrip(e.target);
  }

  lemma TypedBack(e: Node, ds: seq<Duck>, ks: seq<Conversion<Node>>, elides: Elision)
    requires e.Coalesce? || e.Call?
    requires HeadValid(e) && |ds| == |ks| == Arity(e) > 0 && ToHead(e, ds, elides).Some? && AllDone(ks)
    requires DuckArity(ToHead(e, ds, elides).value) == Arity(e)
    ensures FromHead(ToHead(e, ds, elides).value, ks) == Conversion.Done(Build(e, Values(ks)))
  {
    TypeRoundTrip(e.typ);
    if e.Call? { NameRoundTrip(e.function_); }
  }

  /** Reading the head back over children that were read back. */
  lemma HeadBack(e: Node, ds: seq<Duck>, ks: seq<Conversion<Node>>, elides: Elision)
    requires HeadValid(e) && |ds| == |ks| == Arity(e) > 0 && ToHead(e, ds, elides).Some? && AllDone(ks)
    requires e.Cast? ==> e.tryCast || !elides(ds[0], ToType(e.target).value)
    requires DuckArity(ToHead(e, ds, elides).value) == Arity(e)
    ensures FromHead(ToHead(e, ds, elides).value, ks) == Conversion.Done(Build(e, Values(ks)))
  {
    hide HeadValid, ToHead, FromHead, DuckArity, Build, AllDone, Values;
    if e.CaseOf? {
      CaseBack(e, ds, ks, elides);
    } else if e.Cast? {
      CastBack(e, ds, ks, elides);
    } else if e.Coalesce? || e.Call? {
      TypedBack(e, ds, ks, elides);
    } else {
      HasKids(e, ds, elides);
      UntypedBack(e, ds, ks, elides);
    }
  }

  lemma HasKids(e: Node, ds: seq<Duck>, elides: Elision)
    requires |ds| == Arity(e) > 0 && ToHead(e, ds, elides).Some?
    ensures !e.Reference? && !e.Constant? && !e.Aggregate?
  {
  }

  /** Every valid node that converts comes back as its normal form. */
  lemma {:induction false} RoundTrip(e: Node, elides: Elision)
    requires NodeValid(e) && ToDuck(e, elides).Some?
    ensures FromDuck(ToDuck(e, elides).value) == Conversion.Done(Normal(e, elides))
    decreases e
  {
    if e.Reference? || e.Constant? {
      LeafBack(e, elides);
    } else {
      var os := ToKids(e, elides);
      assert forall i :: 0 <= i < |os| ==> os[i].Some?;
      var ds := seq(|os|, i requires 0 <= i < |os| => os[i].value);
      forall i: nat | i < Arity(e) ensures FromDuck(ds[i]) == Conversion.Done(Normal(Kid(e, i), elides)) {
        RoundTrip(Kid(e, i), elides);
      }
      InnerBack(e, ds, elides);
    }
  }

  lemma LeafBack(e: Node, elides: Elision)
    requires NodeValid(e) && (e.Reference? || e.Constant?) && ToDuck(e, elides).Some?
    ensures FromDuck(ToDuck(e, elides).value) == Conversion.Done(Normal(e, elides))
  {
    TypeRoundTrip(e.typ);
    if e.Constant? { ValueRoundTrip(e.payload, e.typ); }
  }

  lemma InnerBack(e: Node, ds: seq<Duck>, elides: Elision)
    requires HeadValid(e) && !e.Reference? && !e.Constant? && |ds| == Arity(e) && ToHead(e, ds, elides).Some?
    requires forall i: nat :: i < Arity(e) ==> ToDuck(Kid(e, i), elides) == Some(ds[i])
    requires forall i: nat :: i < Arity(e) ==> FromDuck(ds[i]) == Conversion.Done(Normal(Kid(e, i), elides))
    ensures FromDuck(ToHead(e, ds, elides).value) == Conversion.Done(Normal(e, elides))
  {
    if e.Cast? && Elided(e, elides) {
      assert Kid(e, 0) == e.child;
    } else if Arity(e) > 0 {
      HeadKids(e, ds, elides);
      var d := ToHead(e, ds, elides).value;
      var ks := FromKids(d);
      assert AllDone(ks);
      HeadBack(e, ds, ks, elides);
      assert Values(ks) == NormalKids(e, elides);
    } else {
      EmptyBack(e, ds, elides);
    }
  }

  lemma EmptyBack(e: Node, ds: seq<Duck>, elides: Elision)
    requires HeadValid(e) && !e.Reference? && !e.Constant? && |ds| == Arity(e) == 0 && ToHead(e, ds, elides).Some?
    ensures FromDuck(ToHead(e, ds, elides).value) == Conversion.Done(Normal(e, elides))
  {
    assert e.Conjunction? || e.Coalesce? || e.Call?;
    if e.Coalesce? || e.Call? { TypeRoundTrip(e.typ); }
    if e.Call? { NameRoundTrip(e.function_); }
    assert NormalKids(e, elides) == [];
  }

  // ---- Exactly when the trip succeeds and is faithful ----------------------------------------------

  predicate HeadConverts(e: Node) {
    match e
    case Reference(_, t) => t.id != LIST && t.id != INVALID
    case Constant(p, t) => ToValue(p, t).Some?
    case Conjunction(k, _) => k != InvalidConjunction
    case CaseOf(_, _, t) => t.id != LIST && t.id != INVALID
    case Cast(_, t, _) => t.id != LIST && t.id != INVALID
    case Unary(k, _) => k != InvalidUnary
    case Coalesce(_, t) => t.id != LIST && t.id != INVALID
    case Call(_, _, t) => t.id != LIST && t.id != INVALID
    case Aggregate(_, _, _, _) => false
    case _ => true
  }

  predicate Converts(e: Node) {
    HeadConverts(e) && forall i: nat :: i < Arity(e) ==> Converts(Kid(e, i))
  }

  lemma HeadConvertsIff(e: Node, ds: seq<Duck>, elides: Elision)
    requires HeadValid(e) && |ds| == Arity(e)
    ensures ToHead(e, ds, elides).Some? <==> HeadConverts(e)
  {
    match e
    case Reference(_, t) => TypeRoundTrip(t);
    case CaseOf(_, _, t) => TypeRoundTrip(t);
    case Cast(_, t, _) => TypeRoundTrip(t);
    case Coalesce(_, t) => TypeRoundTrip(t);
    case Call(_, _, t) => TypeRoundTrip(t);
    case _ =>
  }

  /** The conversion throws exactly on aggregates, unset operators, LIST and INVALID types,
      and literals whose payload is not what their type asks for. */
  lemma {:induction false} ConvertsIff(e: Node, elides: Elision)
    requires NodeValid(e)
    ensures ToDuck(e, elides).Some? <==> Converts(e)
    decreases e
  {
    hide ToHead, HeadConverts, HeadValid, Kid, Arity;
    var os := ToKids(e, elides);
    forall i: nat | i < Arity(e) ensures os[i].Some? <==> Converts(Kid(e, i)) {
      ConvertsIff(Kid(e, i), elides);
    }
    if forall i: nat :: i < Arity(e) ==> os[i].Some? {
      var ds := seq(|os|, i requires 0 <= i < |os| => os[i].value);
      assert ToDuck(e, elides) == ToHead(e, ds, elides);
      HeadConvertsIff(e, ds, elides);
    }
  }

  predicate HeadFaithful(e: Node, elides: Elision) {
    match e
    case Reference(_, t) => t.id != SQLNULL
    case Constant(p, t) =>
      t.id == DECIMAL ==>
        (match p
         case Decimal32(i, s) => s == t.scale && (t.precision <= MAX_PRECISION_INT16 ==> -TWO15 <= i < TWO15)
         case Decimal64(_, s) => s == t.scale
         case Decimal128(_, s) => s == t.scale
         case _ => true)
    case Cast(_, _, _) => !Elided(e, elides)
    case _ => true
  }

  predicate Faithful(e: Node, elides: Elision) {
    HeadFaithful(e, elides) && forall i: nat :: i < Arity(e) ==> Faithful(Kid(e, i), elides)
  }

  function Size(e: Node): nat
    decreases e, Arity(e) + 1
  {
    1 + SizeKids(e, Arity(e))
  }

  function SizeKids(e: Node, n: nat): nat
    requires n <= Arity(e)
    decreases e, n
  {
    if n == 0 then 0 else SizeKids(e, n - 1) + Size(Kid(e, n - 1))
  }

  lemma {:induction false} SizeKidsGrow(e: Node, e': Node, n: nat)
    requires n <= Arity(e') == Arity(e) && forall i: nat :: i < n ==> Size(Kid(e', i)) <= Size(Kid(e, i))
    ensures SizeKids(e', n) <= SizeKids(e, n)
  {
    if n > 0 { SizeKidsGrow(e, e', n - 1); }
  }

  lemma {:induction false} NormalNotLarger(e: Node, elides: Elision)
    ensures Size(Normal(e, elides)) <= Size(e)
    decreases e
  {
    if e.Reference? || e.Constant? {
    } else if Elided(e, elides) {
      NormalNotLarger(e.child, elides);
      assert Kid(e, 0) == e.child && SizeKids(e, 1) == SizeKids(e, 0) + Size(Kid(e, 0));
    } else {
      var ks := NormalKids(e, elides);
      var e' := Build(e, ks);
      BuildKids(e, ks);
      forall i: nat | i < Arity(e) ensures Size(Kid(e', i)) <= Size(Kid(e, i)) {
        NormalNotLarger(Kid(e, i), elides);
      }
      hide Kid, Build, Arity;
      SizeKidsGrow(e, e', Arity(e));
    }
  }

  /** A node comes back unchanged exactly when its references have types, its decimals have
      their type's scale and fit its storage, and the host leaves out none of its casts. */
  lemma {:induction false} NormalSameIff(e: Node, elides: Elision)
    ensures Normal(e, elides) == e <==> Faithful(e, elides)
    decreases e
  {
    if e.Reference? {
    } else if e.Constant? {
      NormalConstantIff(e, elides);
    } else if Elided(e, elides) {
      NormalNotLarger(e.child, elides);
      assert Kid(e, 0) == e.child && SizeKids(e, 1) == SizeKids(e, 0) + Size(Kid(e, 0));
    } else {
      var ks := NormalKids(e, elides);
      BuildKids(e, ks);
      forall i: nat | i < Arity(e) ensures ks[i] == Kid(e, i) <==> Faithful(Kid(e, i), elides) {
        NormalSameIff(Kid(e, i), elides);
      }
      if forall i: nat :: i < Arity(e) ==> ks[i] == Kid(e, i) { BuildSame(e, ks); }
    }
  }

  lemma NormalConstantIff(e: Node, elides: Elision)
    requires e.Constant?
    ensures Normal(e, elides) == e <==> Faithful(e, elides)
  {
    if e.payload.Decimal32? { Int16Iff(e.payload.d32); }
  }

  /** The round trip: it succeeds exactly on convertible nodes and is then the identity
      exactly on faithful ones. */
  lemma RoundTripIff(e: Node, elides: Elision)
    requires NodeValid(e)
    ensures ToDuck(e, elides).Some? <==> Converts(e)
    ensures Converts(e) ==>
              (FromDuck(ToDuck(e, elides).value) == Conversion.Done(e) <==> Faithful(e, elides))
  {
    ConvertsIff(e, elides);
    NormalSameIff(e, elides);
    if Converts(e) { RoundTrip(e, elides); }
  }
}
