/** Which expressions of the host database can be read, which are refused and on which reading
    throws, told by their parts. */
module DuckDbReads {
  import opened Common
  import opened SiriusAst
  import opened DuckDb
  import opened DuckDbNames
  import opened DuckDbRoundTrip

  predicate IsUnaryOp(op: DuckOp) { op == E_NOT || op == E_IS_NULL || op == E_IS_NOT_NULL || op == E_TRY }

  predicate IsListOp(op: DuckOp) { op == E_COALESCE || op == E_IN || op == E_NOT_IN }

  predicate IsComparisonOp(op: DuckOp) { exists c :: SameComparison(c, op) }

  predicate IsFunctionName(name: string) { name == "substr" || exists f :: name == NameOf(f) }

  /** The literal has a type and a payload of the engine. */
  predicate LiteralReads(v: DuckValue) {
    FromType(ValueType(v)).Some? && FromValue(v, FromType(ValueType(v)).value).Some?
  }

  /** The expression can be read. */
  predicate Reads(d: Duck) {
    match d
    case B_REF(_, t) => t.id != T_OTHER
    case B_CONSTANT(v) => LiteralReads(v)
    case B_COMPARISON(op, _, _) => IsComparisonOp(op) && KidsRead(d)
    case B_CONJUNCTION(op, _) => (op == E_AND || op == E_OR) && KidsRead(d)
    case B_BETWEEN(_, _, _, _, _) => KidsRead(d)
    case B_CASE(_, _, t) => KidsRead(d) && t.id != T_OTHER
    case B_CAST(_, t, _) => KidsRead(d) && t.id != T_OTHER
    case B_OPERATOR(op, cs, t) =>
      if IsUnaryOp(op) then cs != [] && Reads(cs[0])
      else IsListOp(op) && KidsRead(d) && if op == E_COALESCE then t.id != T_OTHER else cs != []
    case B_FUNCTION(name, _, t) => IsFunctionName(name) && KidsRead(d) && t.id != T_OTHER
    case B_PARAMETER => false
    case B_UNKNOWN => false
  }

  predicate KidsRead(d: Duck)
    decreases d, 0
  {
    forall i: nat :: i < DuckArity(d) ==> Reads(DuckKid(d, i))
  }

  /** Reading throws: on an expression of an unknown class, a type or literal the engine does
      not have, an operator without operands, or a part of this kind that is reached. */
  predicate Breaks(d: Duck) {
    match d
    case B_REF(_, t) => t.id == T_OTHER
    case B_CONSTANT(v) => !LiteralReads(v)
    case B_COMPARISON(op, _, _) => IsComparisonOp(op) && SomeBreaks(d)
    case B_CONJUNCTION(op, _) => (op == E_AND || op == E_OR) && FirstBreaks(d)
    case B_BETWEEN(_, _, _, _, _) => SomeBreaks(d)
    case B_CASE(_, _, t) => PairBreaks(d) || (KidsRead(d) && t.id == T_OTHER)
    case B_CAST(_, t, _) => SomeBreaks(d) || (KidsRead(d) && t.id == T_OTHER)
    case B_OPERATOR(op, cs, t) =>
      if IsUnaryOp(op) then cs == [] || Breaks(cs[0])
      else if op == E_COALESCE then FirstBreaks(d) || (KidsRead(d) && t.id == T_OTHER)
      else IsListOp(op) && (cs == [] || FirstBreaks(d))
    case B_FUNCTION(name, _, t) => IsFunctionName(name) && (FirstBreaks(d) || (KidsRead(d) && t.id == T_OTHER))
    case B_PARAMETER => false
    case B_UNKNOWN => true
  }

  predicate SomeBreaks(d: Duck)
    decreases d, 0
  {
    exists i: nat :: i < DuckArity(d) && Breaks(DuckKid(d, i))
  }

  /** The first child that cannot be read throws. */
  predicate FirstBreaks(d: Duck)
    decreases d, 0
  {
    exists i: nat :: i < DuckArity(d) && Breaks(DuckKid(d, i)) && forall j: nat :: j < i ==> Reads(DuckKid(d, j))
  }

  /** Where the pair of child `i` starts. */
  function PairOf(i: nat): nat { i - i % 2 }

  /** The first pair of a condition and its result that cannot be read throws. */
  predicate PairBreaks(d: Duck)
    decreases d, 0
  {
    exists i: nat :: i < DuckArity(d) && Breaks(DuckKid(d, i)) && forall j: nat :: j < PairOf(i) ==>
      Reads(DuckKid(d, j))
  }

  // ---- The children, once translated --------------------------------------------------------------

  predicate SomeThrown(ks: seq<Conversion<Node>>) { exists i: nat :: i < |ks| && ks[i].Thrown? }

  predicate DoneUpTo(ks: seq<Conversion<Node>>, n: int) { forall j: nat :: j < n && j < |ks| ==> ks[j].Done? }

  predicate FirstThrown(ks: seq<Conversion<Node>>) { exists i: nat :: i < |ks| && ks[i].Thrown? && DoneUpTo(ks, i) }

  predicate PairThrown(ks: seq<Conversion<Node>>) {
    exists i: nat :: i < |ks| && ks[i].Thrown? && DoneUpTo(ks, PairOf(i))
  }

  lemma {:induction false} OrderTold(ks: seq<Conversion<Node>>, i: nat)
    requires i <= |ks| && forall j :: 0 <= j < i ==> ks[j].Done?
    ensures InOrder(ks, i).Done? <==> AllDone(ks)
    ensures InOrder(ks, i).Thrown? <==> FirstThrown(ks)
    decreases |ks| - i
  {
    if i < |ks| {
      if ks[i].Done? {
        OrderTold(ks, i + 1);
      } else {
        assert FirstThrown(ks) <==> ks[i].Thrown? by { OnlyThere(ks, i); }
      }
    }
  }

  lemma OnlyThere(ks: seq<Conversion<Node>>, i: nat)
    requires i < |ks| && !ks[i].Done? && forall j :: 0 <= j < i ==> ks[j].Done?
    ensures FirstThrown(ks) <==> ks[i].Thrown?
  {
    if k: nat :| k < |ks| && ks[k].Thrown? && DoneUpTo(ks, k) {
      assert k == i;
    }
    if ks[i].Thrown? { assert DoneUpTo(ks, i); }
  }

  lemma TogetherTold(ks: seq<Conversion<Node>>)
    ensures Together(ks).Done? <==> AllDone(ks)
    ensures Together(ks).Thrown? <==> SomeThrown(ks)
  {
  }

  lemma {:induction false} PairsTold(ks: seq<Conversion<Node>>, i: nat)
    requires i % 2 == 0 && i < |ks| && |ks| % 2 == 1 && forall j :: 0 <= j < i ==> ks[j].Done?
    ensures InPairs(ks, i).Done? <==> AllDone(ks)
    ensures InPairs(ks, i).Thrown? <==> PairThrown(ks)
    decreases |ks| - i
  {
    if i == |ks| - 1 {
      OrderTold(ks, i);
      LastThere(ks);
    } else {
      var pair := [ks[i], ks[i + 1]];
      TogetherTold(pair);
      assert pair[0] == ks[i] && pair[1] == ks[i + 1];
      if ks[i].Done? && ks[i + 1].Done? {
        PairsTold(ks, i + 2);
      } else {
        PairThere(ks, i);
      }
    }
  }

  lemma LastThere(ks: seq<Conversion<Node>>)
    requires |ks| % 2 == 1 && forall j :: 0 <= j < |ks| - 1 ==> ks[j].Done?
    ensures FirstThrown(ks) <==> PairThrown(ks)
  {
    var n := |ks| - 1;
    if ks[n].Thrown? { assert DoneUpTo(ks, n) && PairOf(n) == n; }
  }

  lemma PairStart(i: nat, k: nat)
    requires i % 2 == 0
    ensures k > i + 1 ==> PairOf(k) > i + 1
  {
  }

  lemma PairThere(ks: seq<Conversion<Node>>, i: nat)
    requires i % 2 == 0 && i + 1 < |ks| && !(ks[i].Done? && ks[i + 1].Done?)
    requires forall j :: 0 <= j < i ==> ks[j].Done?
    ensures PairThrown(ks) <==> ks[i].Thrown? || ks[i + 1].Thrown?
  {
    if k: nat :| k < |ks| && ks[k].Thrown? && DoneUpTo(ks, PairOf(k)) {
      PairStart(i, k);
      assert k == i || k == i + 1;
    }
    if ks[i].Thrown? { assert DoneUpTo(ks, PairOf(i)); }
    if ks[i + 1].Thrown? { assert PairOf(i + 1) == i && DoneUpTo(ks, PairOf(i + 1)); }
  }

  // ---- The outcome of a whole expression -------------------------------------------------------------

  predicate Told(r: Conversion<Node>, goes: bool, throws: bool) { (r.Done? <==> goes) && (r.Thrown? <==> throws) }

  /** The children's outcomes are what their parts say. */
  ghost predicate KidsTold(d: Duck, ks: seq<Conversion<Node>>) {
    |ks| == DuckArity(d) && forall i: nat :: i < |ks| ==> Told(ks[i], Reads(DuckKid(d, i)), Breaks(DuckKid(d, i)))
  }

  lemma KidsSummed(d: Duck, ks: seq<Conversion<Node>>)
    requires KidsTold(d, ks)
    ensures AllDone(ks) <==> KidsRead(d)
    ensures SomeThrown(ks) <==> SomeBreaks(d)
    ensures FirstThrown(ks) <==> FirstBreaks(d)
    ensures PairThrown(ks) <==> PairBreaks(d)
  {
    hide Reads, Breaks, DuckKid, DuckArity;
    SomeSummed(d, ks);
    FirstSummed(d, ks);
    PairSummed(d, ks);
  }

  lemma SomeSummed(d: Duck, ks: seq<Conversion<Node>>)
    requires KidsTold(d, ks)
    ensures AllDone(ks) <==> KidsRead(d)
    ensures SomeThrown(ks) <==> SomeBreaks(d)
  {
    hide Reads, Breaks, DuckKid, DuckArity;
    if i: nat :| i < |ks| && ks[i].Thrown? { assert Breaks(DuckKid(d, i)); }
    if i: nat :| i < DuckArity(d) && Breaks(DuckKid(d, i)) { assert ks[i].Thrown?; }
    if AllDone(ks) {
      forall i: nat | i < DuckArity(d) ensures Reads(DuckKid(d, i)) { assert ks[i].Done?; }
    }
    if KidsRead(d) {
      forall i | 0 <= i < |ks| ensures ks[i].Done? { assert Reads(DuckKid(d, i)); }
    }
  }

  lemma UpTo(d: Duck, ks: seq<Conversion<Node>>, n: int)
    requires KidsTold(d, ks) && n <= |ks|
    ensures DoneUpTo(ks, n) <==> forall j: nat :: j < n ==> Reads(DuckKid(d, j))
  {
    hide Reads, Breaks, DuckKid, DuckArity;
    if DoneUpTo(ks, n) {
      forall j: nat | j < n ensures Reads(DuckKid(d, j)) { assert ks[j].Done?; }
    }
  }

  lemma FirstSummed(d: Duck, ks: seq<Conversion<Node>>)
    requires KidsTold(d, ks)
    ensures FirstThrown(ks) <==> FirstBreaks(d)
  {
    hide Reads, Breaks, DuckKid, DuckArity, DoneUpTo;
    if i: nat :| i < |ks| && ks[i].Thrown? && DoneUpTo(ks, i) { UpTo(d, ks, i); assert Breaks(DuckKid(d, i)); }
    if i: nat :| i < DuckArity(d) && Breaks(DuckKid(d, i)) && forall j: nat :: j < i ==> Reads(DuckKid(d, j)) {
      UpTo(d, ks, i);
      assert ks[i].Thrown?;
    }
  }

  lemma PairSummed(d: Duck, ks: seq<Conversion<Node>>)
    requires KidsTold(d, ks)
    ensures PairThrown(ks) <==> PairBreaks(d)
  {
    hide Reads, Breaks, DuckKid, DuckArity, DoneUpTo, PairOf, Told;
    PairInside(|ks|);
    if i: nat :| i < |ks| && ks[i].Thrown? && DoneUpTo(ks, PairOf(i)) {
      UpTo(d, ks, PairOf(i));
      KidThrown(d, ks, i);
    }
    if i: nat :| i < DuckArity(d) && Breaks(DuckKid(d, i))
                 && forall j: nat :: j < PairOf(i) ==> Reads(DuckKid(d, j)) {
      UpTo(d, ks, PairOf(i));
      KidThrown(d, ks, i);
    }
  }

  lemma KidThrown(d: Duck, ks: seq<Conversion<Node>>, i: nat)
    requires KidsTold(d, ks) && i < |ks|
    ensures i < DuckArity(d) && (ks[i].Thrown? <==> Breaks(DuckKid(d, i)))
  {
    hide Reads, Breaks, DuckKid, DuckArity;
  }

  lemma PairInside(n: nat)
    ensures forall i: nat :: i < n ==> PairOf(i) <= n
  {
  }

  /** An expression of the host is read exactly when all of it can be, and reading it throws
      exactly when a part that is reached does; otherwise it is refused. */
  lemma {:induction false} ReadsIff(d: Duck)
    ensures Told(FromDuck(d), Reads(d), Breaks(d))
    decreases d
  {
    hide Reads, Breaks, FromHead;
    var ks := FromKids(d);
    forall i: nat | i < |ks| ensures Told(ks[i], Reads(DuckKid(d, i)), Breaks(DuckKid(d, i))) {
      ReadsIff(DuckKid(d, i));
    }
    HeadTold(d, ks);
  }

  lemma HeadTold(d: Duck, ks: seq<Conversion<Node>>)
    requires KidsTold(d, ks)
    ensures Told(FromHead(d, ks), Reads(d), Breaks(d))
  {
    hide Reads, Breaks, FromHead, KidsTold, Told;
    if d.B_OPERATOR? {
      OperatorTold(d, ks);
    } else if d.B_COMPARISON? || d.B_CONJUNCTION? || d.B_BETWEEN? {
      JoinedTold(d, ks);
    } else if d.B_CASE? || d.B_CAST? || d.B_FUNCTION? {
      TypedTold(d, ks);
    } else {
      LeafTold(d, ks);
    }
  }

  lemma LeafTold(d: Duck, ks: seq<Conversion<Node>>)
    requires (d.B_REF? || d.B_CONSTANT? || d.B_PARAMETER? || d.B_UNKNOWN?) && KidsTold(d, ks)
    ensures Told(FromHead(d, ks), Reads(d), Breaks(d))
  {
    hide FromType, ToType, FromValue, ValueType, Reads, Breaks, FromHead;
    LeafParts(d, ks);
    if d.B_REF? { TypesKept(LogicalType(INVALID, 0, 0), d.typ); }
  }

  lemma LeafParts(d: Duck, ks: seq<Conversion<Node>>)
    requires (d.B_REF? || d.B_CONSTANT? || d.B_PARAMETER? || d.B_UNKNOWN?) && |ks| == DuckArity(d)
    ensures d.B_REF? ==>
              && (Reads(d) <==> d.typ.id != T_OTHER) && (Breaks(d) <==> d.typ.id == T_OTHER)
              && (FromHead(d, ks).Done? <==> FromType(d.typ).Some?) && !FromHead(d, ks).Refused?
    ensures d.B_CONSTANT? ==>
              && (Reads(d) <==> LiteralReads(d.value)) && (Breaks(d) <==> !LiteralReads(d.value))
              && (FromHead(d, ks).Done? <==> LiteralReads(d.value)) && !FromHead(d, ks).Refused?
    ensures d.B_PARAMETER? ==> !Reads(d) && !Breaks(d) && FromHead(d, ks).Refused?
    ensures d.B_UNKNOWN? ==> !Reads(d) && Breaks(d) && FromHead(d, ks).Thrown?
  {
    hide FromType, FromValue, ValueType;
  }

  lemma JoinedTold(d: Duck, ks: seq<Conversion<Node>>)
    requires (d.B_COMPARISON? || d.B_CONJUNCTION? || d.B_BETWEEN?) && KidsTold(d, ks)
    ensures Told(FromHead(d, ks), Reads(d), Breaks(d))
  {
    hide AllDone, KidsRead, SomeThrown, SomeBreaks, FirstThrown, FirstBreaks, PairThrown, PairBreaks, InOrder, Together;
    KidsSummed(d, ks);
    TogetherTold(ks);
    OrderTold(ks, 0);
    if d.B_COMPARISON? { ComparisonIff(d.op); }
  }

  lemma ComparisonIff(op: DuckOp)
    ensures IsComparisonOp(op) <==> FromComparison(op).Some?
  {
    if c :| SameComparison(c, op) { OperatorsKept(c, InvalidUnary, op); }
    if FromComparison(op).Some? { OperatorsKept(FromComparison(op).value, InvalidUnary, op); }
    hide FromComparison, SameComparison;
  }

  lemma NameIff(name: string)
    ensures IsFunctionName(name) <==> Lookup(name, 0).Some?
  {
    hide Lookup, NameOf, FORWARD;
    LookupIff(name, Substring);
    if f :| name == NameOf(f) { LookupIff(name, f); }
    if Lookup(name, 0).Some? { LookupIff(name, Lookup(name, 0).value); }
  }

  lemma TypedTold(d: Duck, ks: seq<Conversion<Node>>)
    requires (d.B_CASE? || d.B_CAST? || d.B_FUNCTION?) && KidsTold(d, ks)
    ensures Told(FromHead(d, ks), Reads(d), Breaks(d))
  {
    hide AllDone, KidsRead, SomeThrown, SomeBreaks, FirstThrown, FirstBreaks, PairThrown, PairBreaks, InOrder, InPairs,
         FromType, ToType, Lookup, IsFunctionName;
    TypesKept(LogicalType(INVALID, 0, 0), d.typ);
    KidsSummed(d, ks);
    OrderTold(ks, 0);
    if d.B_CASE? { PairsTold(ks, 0); }
    if d.B_FUNCTION? { NameIff(d.name); }
    if d.B_CAST? { OneKid(d, ks); }
  }

  lemma OneKid(d: Duck, ks: seq<Conversion<Node>>)
    requires KidsTold(d, ks) && |ks| == 1
    ensures AllDone(ks) <==> ks[0].Done?
    ensures SomeThrown(ks) <==> ks[0].Thrown?
  {
  }

  lemma OperatorTold(d: Duck, ks: seq<Conversion<Node>>)
    requires d.B_OPERATOR? && KidsTold(d, ks)
    ensures Told(FromHead(d, ks), Reads(d), Breaks(d))
  {
    hide AllDone, KidsRead, SomeThrown, SomeBreaks, FirstThrown, FirstBreaks, PairThrown, PairBreaks, InOrder,
         FromType, ToType;
    TypesKept(LogicalType(INVALID, 0, 0), d.typ);
    KidsSummed(d, ks);
    OrderTold(ks, 0);
    if d.children != [] { assert Told(ks[0], Reads(DuckKid(d, 0)), Breaks(DuckKid(d, 0))); }
  }

  // ---- What is read says the same -------------------------------------------------------------------

  predicate SameFullType(t: LogicalType, u: DuckType) {
    SameType(t.id, u.id) && (t.id == DECIMAL ==> t.precision == u.width && t.scale == u.scale)
  }

  /** The two nodes say the same, their children aside. */
  predicate SameHead(e: Node, d: Duck) {
    match d
    case B_REF(i, u) => e.Reference? && e.column == i % COLUMNS && SameFullType(e.typ, u)
    case B_CONSTANT(v) => e.Constant? && SameFullType(e.typ, ValueType(v))
    case B_COMPARISON(op, _, _) => e.Compare? && SameComparison(e.cmp, op)
    case B_CONJUNCTION(op, _) => e.Conjunction? && ((op == E_AND && e.conj == And) || (op == E_OR && e.conj == Or))
    case B_BETWEEN(_, _, _, li, ui) => e.Between? && e.lowerInclusive == li && e.upperInclusive == ui
    case B_CASE(checks, _, u) => e.CaseOf? && |e.cases| == |checks| && SameFullType(e.typ, u)
    case B_CAST(_, u, try_) => e.Cast? && SameFullType(e.target, u) && e.tryCast == try_
    case B_OPERATOR(op, _, u) =>
      || (e.Unary? && SameUnary(e.unary, op))
      || (e.Coalesce? && op == E_COALESCE && SameFullType(e.typ, u))
      || (e.InList? && op == if e.negated then E_NOT_IN else E_IN)
    case B_FUNCTION(name, _, u) =>
      && e.Call? && (name == NameOf(e.function_) || (name == "substr" && e.function_ == Substring))
      && SameFullType(e.typ, u)
    case B_PARAMETER => false
    case B_UNKNOWN => false
  }

  lemma WrittenType(t: LogicalType)
    ensures ToType(t).Some? ==> SameFullType(t, ToType(t).value)
  {
    TypesKept(t, DuckType(T_OTHER, 0, 0));
  }

  lemma TypeSame(d: DuckType)
    ensures FromType(d).Some? ==> SameFullType(FromType(d).value, d)
  {
    TypesKept(LogicalType(INVALID, 0, 0), d);
  }

  /** A node that is read has the head of the host's and the children that were read. */
  lemma HeadSame(d: Duck, ks: seq<Conversion<Node>>)
    requires |ks| == DuckArity(d) && FromHead(d, ks).Done?
    ensures var e := FromHead(d, ks).value;
            && SameHead(e, d) && Arity(e) <= |ks| && forall i: nat :: i < Arity(e) ==>
              ks[i] == Conversion.Done(Kid(e, i))
  {
    hide FromType, ToType, Lookup, NameOf, FromValue, ValueType, SameFullType;
    if d.B_REF? || d.B_CONSTANT? || d.B_PARAMETER? || d.B_UNKNOWN? {
      LeafSame(d, ks);
    } else if d.B_COMPARISON? || d.B_CONJUNCTION? || d.B_BETWEEN? {
      JoinedSame(d, ks);
    } else if d.B_CASE? {
      CaseSameAs(d, ks);
    } else if d.B_CAST? || d.B_FUNCTION? {
      TypedSame(d, ks);
    } else {
      OperatorSame(d, ks);
    }
  }

  lemma LeafSame(d: Duck, ks: seq<Conversion<Node>>)
    requires (d.B_REF? || d.B_CONSTANT? || d.B_PARAMETER? || d.B_UNKNOWN?)
    requires |ks| == DuckArity(d) && FromHead(d, ks).Done?
    ensures SameHead(FromHead(d, ks).value, d) && Arity(FromHead(d, ks).value) == 0
  {
    if d.B_REF? { TypeSame(d.typ); }
    if d.B_CONSTANT? { TypeSame(ValueType(d.value)); }
    hide FromType, FromValue, ValueType, SameFullType;
  }

  lemma JoinedSame(d: Duck, ks: seq<Conversion<Node>>)
    requires (d.B_COMPARISON? || d.B_CONJUNCTION? || d.B_BETWEEN?) && |ks| == DuckArity(d) && FromHead(d, ks).Done?
    ensures var e := FromHead(d, ks).value;
            && SameHead(e, d) && Arity(e) == |ks| && forall i: nat :: i < Arity(e) ==>
              ks[i] == Conversion.Done(Kid(e, i))
  {
    hide FromComparison, SameComparison, InOrder;
    OrderTold(ks, 0);
    TogetherTold(ks);
    if d.B_COMPARISON? && FromComparison(d.op).Some? { OperatorsKept(FromComparison(d.op).value, InvalidUnary, d.op); }
  }

  lemma TypedSame(d: Duck, ks: seq<Conversion<Node>>)
    requires (d.B_CAST? || d.B_FUNCTION?) && |ks| == DuckArity(d) && FromHead(d, ks).Done?
    ensures var e := FromHead(d, ks).value;
            && SameHead(e, d) && Arity(e) == |ks| && forall i: nat :: i < Arity(e) ==>
              ks[i] == Conversion.Done(Kid(e, i))
  {
    hide FromType, Lookup, NameOf, SameFullType, InOrder;
    TypeSame(d.typ);
    OrderTold(ks, 0);
    if d.B_FUNCTION? && Lookup(d.name, 0).Some? { LookupIff(d.name, Lookup(d.name, 0).value); }
  }

  lemma OperatorSame(d: Duck, ks: seq<Conversion<Node>>)
    requires d.B_OPERATOR? && |ks| == DuckArity(d) && FromHead(d, ks).Done?
    ensures var e := FromHead(d, ks).value;
            && SameHead(e, d) && Arity(e) <= |ks| && forall i: nat :: i < Arity(e) ==>
              ks[i] == Conversion.Done(Kid(e, i))
  {
    hide FromType, SameFullType, InOrder, FromUnary, SameUnary;
    TypeSame(d.typ);
    OrderTold(ks, 0);
    OperatorsKept(Equal, FromUnary(d.op), d.op);
  }

  lemma CaseSameAs(d: Duck, ks: seq<Conversion<Node>>)
    requires d.B_CASE? && |ks| == DuckArity(d) && FromHead(d, ks).Done?
    ensures var e := FromHead(d, ks).value;
            && SameHead(e, d) && Arity(e) == |ks| && forall i: nat :: i < Arity(e) ==>
              ks[i] == Conversion.Done(Kid(e, i))
  {
    hide FromType, SameFullType, InPairs;
    TypeSame(d.typ);
    PairsTold(ks, 0);
    var e := FromHead(d, ks).value;
    assert InPairs(ks, 0) == Done(Values(ks));
    forall i: nat | i < Arity(e) ensures ks[i] == Conversion.Done(Kid(e, i)) {
      if i < 2 * |e.cases| { assert i == 2 * (i / 2) + i % 2; }
    }
  }

  /** The two trees say the same, node by node. */
  ghost predicate SameTree(e: Node, d: Duck) {
    && SameHead(e, d) && Arity(e) <= DuckArity(d)
    && forall i: nat :: i < Arity(e) && i < DuckArity(d) ==> SameTree(Kid(e, i), DuckKid(d, i))
  }

  /** Whatever is read from the host says what the host's expression said: the same operators,
      types, flags and names, in the same places. */
  lemma {:induction false} ReadSaysTheSame(d: Duck)
    requires FromDuck(d).Done?
    ensures SameTree(FromDuck(d).value, d)
    decreases d
  {
    hide FromHead, SameHead, Kid, DuckKid, Arity, DuckArity;
    var ks := FromKids(d);
    HeadSame(d, ks);
    var e := FromDuck(d).value;
    forall i: nat | i < Arity(e) && i < DuckArity(d) ensures SameTree(Kid(e, i), DuckKid(d, i)) {
      ReadSaysTheSame(DuckKid(d, i));
    }
  }

  /** What is written says the same as the node, a cast the host leaves out and a reference
      without a type aside; the truth operators are boolean. */
  lemma WrittenSaysTheSame(e: Node, ds: seq<Duck>, elides: Elision)
    requires HeadValid(e) && |ds| == Arity(e) && ToHead(e, ds, elides).Some?
    requires e.Cast? ==> e.tryCast || !elides(ds[0], ToType(e.target).value)
    requires e.Reference? ==> e.typ.id != SQLNULL
    ensures var d := ToHead(e, ds, elides).value;
            SameHead(e, d) && (e.Unary? || e.InList? ==> d.B_OPERATOR? && d.typ == DuckType(T_BOOLEAN, 0, 0))
  {
    hide FromType, ToType, ToValue, ValueType, NameOf, SameFullType, ToComparison, ToUnary, SameComparison, SameUnary;
    if e.Compare? { OperatorsKept(e.cmp, InvalidUnary, ToComparison(e.cmp)); }
    if e.Unary? && ToUnary(e.unary).Some? { OperatorsKept(Equal, e.unary, ToUnary(e.unary).value); }
    if e.Reference? || e.Constant? || e.CaseOf? || e.Coalesce? || e.Call? { WrittenType(e.typ); }
    if e.Cast? { WrittenType(e.target); }
    if e.Constant? { ValueRoundTrip(e.payload, e.typ); TypeSame(ValueType(ToValue(e.payload, e.typ).value)); }
  }
}
