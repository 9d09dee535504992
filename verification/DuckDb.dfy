/** The host database's bound expressions, as far as the engine reads and writes them, and
    the conversions of types, literals, function names and comparisons in both directions. */
module DuckDb {
  import opened Common
  import opened SiriusAst

  datatype Conversion<T> = Done(value: T) | Refused | Thrown

  // ---- Types -----------------------------------------------------------------------------

  datatype DuckTypeId =
    | T_SQLNULL | T_BOOLEAN | T_TINYINT | T_SMALLINT | T_INTEGER | T_BIGINT | T_HUGEINT
    | T_UTINYINT | T_USMALLINT | T_UINTEGER | T_UBIGINT | T_UHUGEINT | T_FLOAT | T_DOUBLE | T_DATE
    | T_TIMESTAMP_SEC | T_TIMESTAMP_MS | T_TIMESTAMP | T_TIMESTAMP_NS | T_VARCHAR | T_STRUCT | T_LIST
    | T_DECIMAL | T_OTHER

  datatype DuckType = DuckType(id: DuckTypeId, width: nat, scale: nat)

  function PlainDuck(id: DuckTypeId): Option<DuckType> { Some(DuckType(id, 0, 0)) }

  /** None where the conversion throws. */
  function ToType(t: LogicalType): Option<DuckType> {
    match t.id
    case SQLNULL => PlainDuck(T_SQLNULL)
    case BOOLEAN => PlainDuck(T_BOOLEAN)
    case TINYINT => PlainDuck(T_TINYINT)
    case SMALLINT => PlainDuck(T_SMALLINT)
    case INTEGER => PlainDuck(T_INTEGER)
    case BIGINT => PlainDuck(T_BIGINT)
    case HUGEINT => PlainDuck(T_HUGEINT)
    case UTINYINT => PlainDuck(T_UTINYINT)
    case USMALLINT => PlainDuck(T_USMALLINT)
    case UINTEGER => PlainDuck(T_UINTEGER)
    case UBIGINT => PlainDuck(T_UBIGINT)
    case UHUGEINT => PlainDuck(T_UHUGEINT)
    case FLOAT => PlainDuck(T_FLOAT)
    case DOUBLE => PlainDuck(T_DOUBLE)
    case DATE => PlainDuck(T_DATE)
    case TIMESTAMP_SEC => PlainDuck(T_TIMESTAMP_SEC)
    case TIMESTAMP_MS => PlainDuck(T_TIMESTAMP_MS)
    case TIMESTAMP => PlainDuck(T_TIMESTAMP)
    case TIMESTAMP_NS => PlainDuck(T_TIMESTAMP_NS)
    case VARCHAR => PlainDuck(T_VARCHAR)
    case STRUCT => PlainDuck(T_STRUCT)
    case DECIMAL => Some(DuckType(T_DECIMAL, t.precision, t.scale))
    case LIST => None
    case INVALID => None
  }

  function PlainSirius(id: TypeId): Option<LogicalType> { Some(LogicalType(id, 0, 0)) }

  function FromType(t: DuckType): Option<LogicalType> {
    match t.id
    case T_SQLNULL => PlainSirius(SQLNULL)
    case T_BOOLEAN => PlainSirius(BOOLEAN)
    case T_TINYINT => PlainSirius(TINYINT)
    case T_SMALLINT => PlainSirius(SMALLINT)
    case T_INTEGER => PlainSirius(INTEGER)
    case T_BIGINT => PlainSirius(BIGINT)
    case T_HUGEINT => PlainSirius(HUGEINT)
    case T_UTINYINT => PlainSirius(UTINYINT)
    case T_USMALLINT => PlainSirius(USMALLINT)
    case T_UINTEGER => PlainSirius(UINTEGER)
    case T_UBIGINT => PlainSirius(UBIGINT)
    case T_UHUGEINT => PlainSirius(UHUGEINT)
    case T_FLOAT => PlainSirius(FLOAT)
    case T_DOUBLE => PlainSirius(DOUBLE)
    case T_DATE => PlainSirius(DATE)
    case T_TIMESTAMP_SEC => PlainSirius(TIMESTAMP_SEC)
    case T_TIMESTAMP_MS => PlainSirius(TIMESTAMP_MS)
    case T_TIMESTAMP => PlainSirius(TIMESTAMP)
    case T_TIMESTAMP_NS => PlainSirius(TIMESTAMP_NS)
    case T_VARCHAR => PlainSirius(VARCHAR)
    case T_STRUCT => PlainSirius(STRUCT)
    case T_LIST => PlainSirius(LIST)
    case T_DECIMAL => Some(LogicalType(DECIMAL, t.width, t.scale))
    case T_OTHER => None
  }

  /** As the engine's constructors make them: precision and scale only for DECIMAL. */
  predicate WellFormed(t: LogicalType) { t.id == DECIMAL || (t.precision == 0 && t.scale == 0) }

  /** A type comes back unchanged exactly when it converts at all; LIST and INVALID do not. */
  lemma TypeRoundTrip(t: LogicalType)
    requires WellFormed(t)
    ensures ToType(t).Some? <==> t.id != LIST && t.id != INVALID
    ensures ToType(t).Some? ==> FromType(ToType(t).value) == Some(t)
  {
  }

  // ---- Literals -----------------------------------------------------------------------------

  const TWO15: int := 0x8000
  const TWO16: int := 0x1_0000
  const TWO31: int := 0x8000_0000
  const TWO63: int := 0x8000_0000_0000_0000
  const TWO127: int := 0x8000_0000_0000_0000_0000_0000_0000_0000

  /** A DECIMAL's unscaled number in the storage its width selects; 128 bits as two words. */
  datatype DecimalStore = S16(i16: int) | S32(i32: int) | S64(i64: int) | S128(upper: int, lower: int)

  datatype DuckValue =
    | V_NULL(typ: DuckType)
    | V_BOOLEAN(b: bool)
    | V_INTEGRAL(id: DuckTypeId, i: int)
    | V_FLOAT(bits: nat) | V_DOUBLE(bits: nat)
    | V_DATE(days: int)
    | V_INSTANT(id: DuckTypeId, t: int)
    | V_VARCHAR(s: string)
    | V_DECIMAL(width: nat, scale: nat, store: DecimalStore)

  function ValueType(v: DuckValue): DuckType {
    match v
    case V_NULL(t) => t
    case V_BOOLEAN(_) => DuckType(T_BOOLEAN, 0, 0)
    case V_INTEGRAL(id, _) => DuckType(id, 0, 0)
    case V_FLOAT(_) => DuckType(T_FLOAT, 0, 0)
    case V_DOUBLE(_) => DuckType(T_DOUBLE, 0, 0)
    case V_DATE(_) => DuckType(T_DATE, 0, 0)
    case V_INSTANT(id, _) => DuckType(id, 0, 0)
    case V_VARCHAR(_) => DuckType(T_VARCHAR, 0, 0)
    case V_DECIMAL(w, s, _) => DuckType(T_DECIMAL, w, s)
  }

  /** Conversion to 16 bits, modulo 2^16. */
  function ToInt16(x: int): int {
    var m := x % TWO16;
    if m < TWO15 then m else m - TWO16
  }

  function DecimalToDuck(v: Value, t: LogicalType): Option<DuckValue> {
    if t.precision <= MAX_PRECISION_INT16 then
      if v.Decimal32? then Some(V_DECIMAL(t.precision, t.scale, S16(ToInt16(v.d32)))) else None
    else if t.precision <= MAX_PRECISION_INT32 then
      if v.Decimal32? then Some(V_DECIMAL(t.precision, t.scale, S32(v.d32))) else None
    else if t.precision <= MAX_PRECISION_INT64 then
      if v.Decimal64? then Some(V_DECIMAL(t.precision, t.scale, S64(v.d64))) else None
    else
      if v.Decimal128? then Some(V_DECIMAL(t.precision, t.scale, S128(v.d128 / WORD, v.d128 % WORD))) else None
  }

  /** None where the payload is not the alternative the type asks for, or the type has no
      literals. */
  function ToValue(v: Value, t: LogicalType): Option<DuckValue> {
    if v.NullValue? then (match ToType(t) case Some(d) => Some(V_NULL(d)) case None => None)
    else match t.id
      case BOOLEAN => if v.BoolValue? then Some(V_BOOLEAN(v.b)) else None
      case TINYINT => if v.Int8? then Some(V_INTEGRAL(T_TINYINT, v.i8)) else None
      case SMALLINT => if v.Int16? then Some(V_INTEGRAL(T_SMALLINT, v.i16)) else None
      case INTEGER => if v.Int32? then Some(V_INTEGRAL(T_INTEGER, v.i32)) else None
      case BIGINT => if v.Int64? then Some(V_INTEGRAL(T_BIGINT, v.i64)) else None
      case HUGEINT => if v.Int64? then Some(V_INTEGRAL(T_HUGEINT, v.i64)) else None
      case UTINYINT => if v.UInt8? then Some(V_INTEGRAL(T_UTINYINT, v.u8)) else None
      case USMALLINT => if v.UInt16? then Some(V_INTEGRAL(T_USMALLINT, v.u16)) else None
      case UINTEGER => if v.UInt32? then Some(V_INTEGRAL(T_UINTEGER, v.u32)) else None
      case UBIGINT => if v.UInt64? then Some(V_INTEGRAL(T_UBIGINT, v.u64)) else None
      case UHUGEINT => if v.UInt64? then Some(V_INTEGRAL(T_UHUGEINT, v.u64)) else None
      case FLOAT => if v.Float32? then Some(V_FLOAT(v.f32)) else None
      case DOUBLE => if v.Float64? then Some(V_DOUBLE(v.f64)) else None
      case DATE => if v.DateValue? then Some(V_DATE(v.days)) else None
      case TIMESTAMP_SEC => if v.TimestampSec? then Some(V_INSTANT(T_TIMESTAMP_SEC, v.sec)) else None
      case TIMESTAMP_MS => if v.TimestampMs? then Some(V_INSTANT(T_TIMESTAMP_MS, v.ms)) else None
      case TIMESTAMP => if v.TimestampUs? then Some(V_INSTANT(T_TIMESTAMP, v.us)) else None
      case TIMESTAMP_NS => if v.TimestampNs? then Some(V_INSTANT(T_TIMESTAMP_NS, v.ns)) else None
      case VARCHAR => if v.Text? then Some(V_VARCHAR(v.s)) else None
      case DECIMAL => DecimalToDuck(v, t)
      case _ => None
  }

  function DecimalFromDuck(store: DecimalStore, t: LogicalType): Option<Value> {
    if t.precision <= MAX_PRECISION_INT16 then
      if store.S16? then Some(Decimal32(store.i16, t.scale)) else None
    else if t.precision <= MAX_PRECISION_INT32 then
      if store.S32? then Some(Decimal32(store.i32, t.scale)) else None
    else if t.precision <= MAX_PRECISION_INT64 then
      if store.S64? then Some(Decimal64(store.i64, t.scale)) else None
    else
      if store.S128? then Some(Decimal128(store.upper * WORD + store.lower, t.scale)) else None
  }

  /** Reading a literal whose type is `t`; a 128-bit integer that does not fit 64 bits
      throws. */
  function FromValue(v: DuckValue, t: LogicalType): Option<Value> {
    if v.V_NULL? then Some(NullValue)
    else match t.id
      case BOOLEAN => if v.V_BOOLEAN? then Some(BoolValue(v.b)) else None
      case TINYINT => if v.V_INTEGRAL? then Some(Int8(v.i)) else None
      case SMALLINT => if v.V_INTEGRAL? then Some(Int16(v.i)) else None
      case INTEGER => if v.V_INTEGRAL? then Some(Int32(v.i)) else None
      case BIGINT => if v.V_INTEGRAL? then Some(Int64(v.i)) else None
      case HUGEINT => if v.V_INTEGRAL? && -TWO63 <= v.i < TWO63 then Some(Int64(v.i)) else None
      case UTINYINT => if v.V_INTEGRAL? then Some(UInt8(v.i)) else None
      case USMALLINT => if v.V_INTEGRAL? then Some(UInt16(v.i)) else None
      case UINTEGER => if v.V_INTEGRAL? then Some(UInt32(v.i)) else None
      case UBIGINT => if v.V_INTEGRAL? then Some(UInt64(v.i)) else None
      case UHUGEINT => if v.V_INTEGRAL? && 0 <= v.i < WORD then Some(UInt64(v.i)) else None
      case FLOAT => if v.V_FLOAT? then Some(Float32(v.bits)) else None
      case DOUBLE => if v.V_DOUBLE? then Some(Float64(v.bits)) else None
      case DATE => if v.V_DATE? then Some(DateValue(v.days)) else None
      case TIMESTAMP_SEC => if v.V_INSTANT? then Some(TimestampSec(v.t)) else None
      case TIMESTAMP_MS => if v.V_INSTANT? then Some(TimestampMs(v.t)) else None
      case TIMESTAMP => if v.V_INSTANT? then Some(TimestampUs(v.t)) else None
      case TIMESTAMP_NS => if v.V_INSTANT? then Some(TimestampNs(v.t)) else None
      case VARCHAR => if v.V_VARCHAR? then Some(Text(v.s)) else None
      case DECIMAL => if v.V_DECIMAL? then DecimalFromDuck(v.store, t) else None
      case _ => None
  }

  /** The numbers the engine's carriers can hold, where the conversions depend on it. */
  predicate InRange(v: Value) {
    match v
    case Int64(i) => -TWO63 <= i < TWO63
    case UInt64(i) => 0 <= i < WORD
    case Decimal32(i, _) => -TWO31 <= i < TWO31
    case Decimal64(i, _) => -TWO63 <= i < TWO63
    case Decimal128(i, _) => -TWO127 <= i < TWO127
    case _ => true
  }

  /** What a literal is after the round trip: a DECIMAL takes the scale of its type, and
      one of at most four digits is cut to 16 bits. */
  function NormalValue(v: Value, t: LogicalType): Value {
    match v
    case Decimal32(i, s) =>
      if t.id == DECIMAL then Decimal32(if t.precision <= MAX_PRECISION_INT16 then ToInt16(i) else i, t.scale) else v
    case Decimal64(i, s) => if t.id == DECIMAL then Decimal64(i, t.scale) else v
    case Decimal128(i, s) => if t.id == DECIMAL then Decimal128(i, t.scale) else v
    case _ => v
  }

  /** Splitting a signed 128-bit number into its upper and lower word loses nothing, and
      both words are in range. */
  lemma SplitJoins(x: int)
    requires -TWO127 <= x < TWO127
    ensures (x / WORD) * WORD + x % WORD == x
    ensures -TWO63 <= x / WORD < TWO63 && 0 <= x % WORD < WORD
  {
  }

  lemma ValueRoundTrip(v: Value, t: LogicalType)
    requires InRange(v) && WellFormed(t) && ToValue(v, t).Some?
    ensures var d := ToValue(v, t).value;
            FromType(ValueType(d)) == Some(t) && FromValue(d, t) == Some(NormalValue(v, t))
  {
    hide DecimalToDuck, DecimalFromDuck;
    if v.NullValue? {
      TypeRoundTrip(t);
    } else if t.id == DECIMAL {
      DecimalRoundTrip(v, t);
    }
  }

  lemma DecimalRoundTrip(v: Value, t: LogicalType)
    requires InRange(v) && t.id == DECIMAL && DecimalToDuck(v, t).Some?
    ensures var d := DecimalToDuck(v, t).value;
            && d.V_DECIMAL? && d.width == t.precision && d.scale == t.scale
            && DecimalFromDuck(d.store, t) == Some(NormalValue(v, t))
  {
    if v.Decimal128? { SplitJoins(v.d128); }
  }

  /** A DECIMAL of at most four digits survives exactly when it fits 16 bits. */
  lemma Int16Iff(x: int)
    ensures ToInt16(x) == x <==> -TWO15 <= x < TWO15
  {
  }

  // ---- Function names and comparisons ---------------------------------------------------------

  const FORWARD: seq<(string, FunctionId)> := [
    ("+", Add), ("-", Sub), ("*", Mul), ("/", Div), ("//", IntDiv), ("%", Mod),
    ("substring", Substring), ("substr", Substring), ("~~", Like), ("!~~", NotLike), ("contains", Contains),
    ("prefix", Prefix), ("suffix", Suffix), ("strlen", StrLen), ("length", Length), ("regexp_replace", RegexpReplace),
    ("year", Year), ("month", Month), ("day", Day), ("hour", Hour), ("minute", Minute), ("second", Second),
    ("millisecond", Millisecond), ("microsecond", Microsecond), ("date_trunc", DateTrunc),
    ("row", Row), ("struct_pack", StructPack), ("error", Error)]

  function NameOf(f: FunctionId): string {
    match f
    case Add => "+" case Sub => "-" case Mul => "*" case Div => "/" case IntDiv => "//" case Mod => "%"
    case Substring => "substring" case Like => "~~" case NotLike => "!~~" case Contains => "contains"
    case Prefix => "prefix" case Suffix => "suffix" case StrLen => "strlen" case Length => "length"
    case RegexpReplace => "regexp_replace"
    case Year => "year" case Month => "month" case Day => "day" case Hour => "hour" case Minute => "minute"
    case Second => "second" case Millisecond => "millisecond" case Microsecond => "microsecond"
    case DateTrunc => "date_trunc"
    case Row => "row" case StructPack => "struct_pack" case Error => "error"
  }

  /** The id of the first entry with the name. */
  function Lookup(name: string, i: nat): Option<FunctionId>
    requires i <= |FORWARD|
    decreases |FORWARD| - i
  {
    if i == |FORWARD| then None
    else if FORWARD[i].0 == name then Some(FORWARD[i].1)
    else Lookup(name, i + 1)
  }

  /** The linear scan over the table. */
  method FindFunction(name: string) returns (f: Option<FunctionId>)
    ensures f == Lookup(name, 0)
    ensures f.None? <==> forall i :: 0 <= i < |FORWARD| ==> FORWARD[i].0 != name
  {
    var i := 0;
    while i < |FORWARD|
      invariant 0 <= i <= |FORWARD| && Lookup(name, 0) == Lookup(name, i)
      invariant forall j :: 0 <= j < i ==> FORWARD[j].0 != name
    {
      if FORWARD[i].0 == name { return Some(FORWARD[i].1); }
      i := i + 1;
    }
    f := None;
  }

  /** The table position a name of the table has, told from its length and two characters. */
  function Place(s: string): int {
    match |s|
    case 1 => (match s[0] case '+' => 0 case '-' => 1 case '*' => 2 case '/' => 3 case _ => 5)
    case 2 => if s[0] == '/' then 4 else 8
    case 3 => (match s[0] case '!' => 9 case 'd' => 18 case _ => 25)
    case 4 => if s[0] == 'y' then 16 else 19
    case 5 => if s[0] == 'm' then 17 else 27
    case 6 =>
      (match s[2] case 'b' => 7 case 'e' => 11 case 'f' => 12 case 'r' => 13
        case 'n' => if s[0] == 'l' then 14 else 20 case _ => 21)
    case 8 => 10
    case 9 => 6
    case 10 => 24
    case 11 => (match s[2] case 'l' => 22 case 'c' => 23 case _ => 26)
    case 14 => 15
    case _ => -1
  }

  lemma PlaceHolds(j: nat)
    requires j < |FORWARD|
    ensures Place(FORWARD[j].0) == j
  {
  }

  function Slot(f: FunctionId): nat {
    match f
    case Add => 0 case Sub => 1 case Mul => 2 case Div => 3 case IntDiv => 4 case Mod => 5
    case Substring => 6 case Like => 8 case NotLike => 9 case Contains => 10
    case Prefix => 11 case Suffix => 12 case StrLen => 13 case Length => 14
    case RegexpReplace => 15
    case Year => 16 case Month => 17 case Day => 18 case Hour => 19 case Minute => 20
    case Second => 21 case Millisecond => 22 case Microsecond => 23
    case DateTrunc => 24
    case Row => 25 case StructPack => 26 case Error => 27
  }

  lemma SlotHolds(f: FunctionId)
    ensures FORWARD[Slot(f)] == (NameOf(f), f)
  {
  }

  lemma {:induction false} LookupFinds(name: string, i: nat, k: nat)
    requires i <= k < |FORWARD| && FORWARD[k].0 == name
    ensures Lookup(name, i) == Some(FORWARD[k].1)
    decreases k - i
  {
    PlaceHolds(i);
    PlaceHolds(k);
    hide Place, FORWARD;
    if i < k { LookupFinds(name, i + 1, k); }
  }

  lemma {:induction false} LookupIsEntry(name: string, i: nat) returns (k: nat)
    requires i <= |FORWARD| && Lookup(name, i).Some?
    ensures k < |FORWARD| && FORWARD[k] == (name, Lookup(name, i).value)
    decreases |FORWARD| - i
  {
    hide FORWARD;
    if FORWARD[i].0 == name { k := i; } else { k := LookupIsEntry(name, i + 1); }
  }

  /** Every entry is a function under its own name, except the one alias. */
  lemma EntryIsName(k: nat)
    requires k < |FORWARD|
    ensures FORWARD[k].0 == NameOf(FORWARD[k].1) || FORWARD[k] == ("substr", Substring)
  {
    hide FORWARD, NameOf, Slot;
    EntrySlot(k);
    SlotHolds(FORWARD[k].1);
    AliasListed();
  }

  lemma EntrySlot(k: nat)
    requires k < |FORWARD|
    ensures Slot(FORWARD[k].1) == k || k == 7
  {
  }

  lemma AliasListed()
    ensures |FORWARD| > 7 && FORWARD[7] == ("substr", Substring)
  {
  }

  /** A name finds a function exactly when it is the function's own name, or the alias of
      substring. */
  lemma LookupIff(name: string, f: FunctionId)
    ensures Lookup(name, 0) == Some(f) <==> name == NameOf(f) || (name == "substr" && f == Substring)
  {
    hide FORWARD, NameOf;
    if Lookup(name, 0) == Some(f) {
      var k := LookupIsEntry(name, 0);
      EntryIsName(k);
    }
    if name == NameOf(f) { NameRoundTrip(f); }
    AliasListed();
    if name == "substr" { LookupFinds(name, 0, 7); }
  }

  /** Every function's name finds the function again, the alias notwithstanding. */
  lemma NameRoundTrip(f: FunctionId)
    ensures Lookup(NameOf(f), 0) == Some(f)
  {
    SlotHolds(f);
    LookupFinds(NameOf(f), 0, Slot(f));
  }

  /** The expression kinds an operator node can carry. */
  datatype DuckOp =
    | E_EQUAL | E_NOTEQUAL | E_LESS | E_LESSEQUAL | E_GREATER | E_GREATEREQUAL
    | E_DISTINCT_FROM | E_NOT_DISTINCT_FROM
    | E_AND | E_OR
    | E_NOT | E_IS_NULL | E_IS_NOT_NULL | E_TRY | E_COALESCE | E_IN | E_NOT_IN
    | E_OTHER

  function ToComparison(c: Comparison): DuckOp {
    match c
    case Equal => E_EQUAL
    case NotEqual => E_NOTEQUAL
    case Lt => E_LESS
    case Le => E_LESSEQUAL
    case Gt => E_GREATER
    case Ge => E_GREATEREQUAL
    case DistinctFrom => E_DISTINCT_FROM
    case NotDistinctFrom => E_NOT_DISTINCT_FROM
  }

  function FromComparison(op: DuckOp): Option<Comparison> {
    match op
    case E_EQUAL => Some(Equal)
    case E_NOTEQUAL => Some(NotEqual)
    case E_LESS => Some(Lt)
    case E_LESSEQUAL => Some(Le)
    case E_GREATER => Some(Gt)
    case E_GREATEREQUAL => Some(Ge)
    case E_DISTINCT_FROM => Some(DistinctFrom)
    case E_NOT_DISTINCT_FROM => Some(NotDistinctFrom)
    case _ => None
  }

  function ToUnary(k: UnaryKind): Option<DuckOp> {
    match k
    case Not => Some(E_NOT)
    case IsNull => Some(E_IS_NULL)
    case IsNotNull => Some(E_IS_NOT_NULL)
    case Try => Some(E_TRY)
    case InvalidUnary => None
  }

  function FromUnary(op: DuckOp): UnaryKind {
    match op
    case E_NOT => Not
    case E_IS_NULL => IsNull
    case E_IS_NOT_NULL => IsNotNull
    case E_TRY => Try
    case _ => InvalidUnary
  }

  // ---- Expressions ------------------------------------------------------------------------------

  datatype DuckCheck = DuckCheck(when: Duck, then_: Duck)

  datatype Duck =
    | B_REF(index: nat, typ: DuckType)
    | B_CONSTANT(value: DuckValue)
    | B_COMPARISON(op: DuckOp, left: Duck, right: Duck)
    | B_CONJUNCTION(op: DuckOp, children: seq<Duck>)
    | B_BETWEEN(input: Duck, lower: Duck, upper: Duck, lowerInclusive: bool, upperInclusive: bool)
    | B_CASE(checks: seq<DuckCheck>, otherwise: Duck, typ: DuckType)
    | B_CAST(child: Duck, typ: DuckType, tryCast: bool)
    | B_OPERATOR(op: DuckOp, children: seq<Duck>, typ: DuckType)
    | B_FUNCTION(name: string, children: seq<Duck>, typ: DuckType)
    | B_PARAMETER
    | B_UNKNOWN
}
