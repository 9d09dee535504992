/** Which types and operators of the engine and of the host database stand for each other. */
module DuckDbNames {
  import opened Common
  import opened SiriusAst
  import opened DuckDb

  /** The two type names are one. */
  predicate SameType(id: TypeId, d: DuckTypeId) {
    match d
    case T_SQLNULL => id == SQLNULL
    case T_BOOLEAN => id == BOOLEAN
    case T_TINYINT => id == TINYINT
    case T_SMALLINT => id == SMALLINT
    case T_INTEGER => id == INTEGER
    case T_BIGINT => id == BIGINT
    case T_HUGEINT => id == HUGEINT
    case T_UTINYINT => id == UTINYINT
    case T_USMALLINT => id == USMALLINT
    case T_UINTEGER => id == UINTEGER
    case T_UBIGINT => id == UBIGINT
    case T_UHUGEINT => id == UHUGEINT
    case T_FLOAT => id == FLOAT
    case T_DOUBLE => id == DOUBLE
    case T_DATE => id == DATE
    case T_TIMESTAMP_SEC => id == TIMESTAMP_SEC
    case T_TIMESTAMP_MS => id == TIMESTAMP_MS
    case T_TIMESTAMP => id == TIMESTAMP
    case T_TIMESTAMP_NS => id == TIMESTAMP_NS
    case T_VARCHAR => id == VARCHAR
    case T_STRUCT => id == STRUCT
    case T_LIST => id == LIST
    case T_DECIMAL => id == DECIMAL
    case T_OTHER => false
  }

  /** Types convert to their namesakes, decimals with their width and scale; nothing else of
      the host's is refused. */
  lemma TypesKept(t: LogicalType, d: DuckType)
    ensures ToType(t).Some? ==>
              && SameType(t.id, ToType(t).value.id)
              && (t.id == DECIMAL ==> ToType(t).value.width == t.precision && ToType(t).value.scale == t.scale)
    ensures FromType(d).Some? ==>
              && SameType(FromType(d).value.id, d.id)
              && (d.id == T_DECIMAL ==> FromType(d).value.precision == d.width && FromType(d).value.scale == d.scale)
    ensures FromType(d).None? <==> d.id == T_OTHER
  {
  }

  /** The operator of the host that stands for a comparison or a unary operator. */
  predicate SameComparison(c: Comparison, op: DuckOp) {
    match c
    case Equal => op == E_EQUAL
    case NotEqual => op == E_NOTEQUAL
    case Lt => op == E_LESS
    case Le => op == E_LESSEQUAL
    case Gt => op == E_GREATER
    case Ge => op == E_GREATEREQUAL
    case DistinctFrom => op == E_DISTINCT_FROM
    case NotDistinctFrom => op == E_NOT_DISTINCT_FROM
  }

  predicate SameUnary(k: UnaryKind, op: DuckOp) {
    match k
    case Not => op == E_NOT
    case IsNull => op == E_IS_NULL
    case IsNotNull => op == E_IS_NOT_NULL
    case Try => op == E_TRY
    case InvalidUnary => false
  }

  /** Operators convert to their counterparts in both directions, and to nothing else. */
  lemma OperatorsKept(c: Comparison, k: UnaryKind, op: DuckOp)
    ensures ToComparison(c) == op <==> SameComparison(c, op)
    ensures FromComparison(op) == Some(c) <==> SameComparison(c, op)
    ensures ToUnary(k) == Some(op) <==> SameUnary(k, op)
    ensures k != InvalidUnary ==> (FromUnary(op) == k <==> SameUnary(k, op))
  {
  }

  // ---- Literals ---------------------------------------------------------------------------

  /** What a literal says, its storage aside. */
  datatype Content = Nothing | Truth(b: bool) | Number(i: int) | Bits(n: nat) | Chars(s: string)

  function ContentOf(v: Value): Content {
    match v
    case NullValue => Nothing
    case BoolValue(b) => Truth(b)
    case Int8(i) => Number(i)
    case Int16(i) => Number(i)
    case Int32(i) => Number(i)
    case Int64(i) => Number(i)
    case UInt8(i) => Number(i)
    case UInt16(i) => Number(i)
    case UInt32(i) => Number(i)
    case UInt64(i) => Number(i)
    case Float32(n) => Bits(n)
    case Float64(n) => Bits(n)
    case DateValue(i) => Number(i)
    case TimestampSec(i) => Number(i)
    case TimestampMs(i) => Number(i)
    case TimestampUs(i) => Number(i)
    case TimestampNs(i) => Number(i)
    case Decimal32(i, _) => Number(i)
    case Decimal64(i, _) => Number(i)
    case Decimal128(i, _) => Number(i)
    case Text(s) => Chars(s)
  }

  function ContentOfDuck(v: DuckValue): Content {
    match v
    case V_NULL(_) => Nothing
    case V_BOOLEAN(b) => Truth(b)
    case V_INTEGRAL(_, i) => Number(i)
    case V_FLOAT(n) => Bits(n)
    case V_DOUBLE(n) => Bits(n)
    case V_DATE(i) => Number(i)
    case V_INSTANT(_, i) => Number(i)
    case V_VARCHAR(s) => Chars(s)
    case V_DECIMAL(_, _, store) =>
      (match store
       case S16(i) => Number(i)
       case S32(i) => Number(i)
       case S64(i) => Number(i)
       case S128(upper, lower) => Number(upper * WORD + lower))
  }

  /** The payload is the one that literals of the type have in the engine. */
  predicate IsPayload(v: Value, t: LogicalType) {
    match v
    case NullValue => true
    case BoolValue(_) => t.id == BOOLEAN
    case Int8(_) => t.id == TINYINT
    case Int16(_) => t.id == SMALLINT
    case Int32(_) => t.id == INTEGER
    case Int64(_) => t.id == BIGINT || t.id == HUGEINT
    case UInt8(_) => t.id == UTINYINT
    case UInt16(_) => t.id == USMALLINT
    case UInt32(_) => t.id == UINTEGER
    case UInt64(_) => t.id == UBIGINT || t.id == UHUGEINT
    case Float32(_) => t.id == FLOAT
    case Float64(_) => t.id == DOUBLE
    case DateValue(_) => t.id == DATE
    case TimestampSec(_) => t.id == TIMESTAMP_SEC
    case TimestampMs(_) => t.id == TIMESTAMP_MS
    case TimestampUs(_) => t.id == TIMESTAMP
    case TimestampNs(_) => t.id == TIMESTAMP_NS
    case Decimal32(_, _) => t.id == DECIMAL && t.precision <= 9
    case Decimal64(_, _) => t.id == DECIMAL && 9 < t.precision <= 18
    case Decimal128(_, _) => t.id == DECIMAL && 18 < t.precision
    case Text(_) => t.id == VARCHAR
  }

  /** A literal is written exactly when its payload is its type's, and says the same then,
      unless a short decimal does not fit 16 bits. */
  lemma LiteralWritten(v: Value, t: LogicalType)
    ensures !v.NullValue? ==> (ToValue(v, t).Some? <==> IsPayload(v, t))
    ensures ToValue(v, t).Some? && !(v.Decimal32? && t.precision <= 4 && !(-TWO15 <= v.d32 < TWO15)) ==>
              ContentOfDuck(ToValue(v, t).value) == ContentOf(v)
  {
    hide DecimalToDuck, ToValue, IsPayload, ContentOf, ContentOfDuck;
    if v.NullValue? {
      NullWritten(t);
    } else if t.id == DECIMAL {
      DecimalWritten(v, t);
      DecimalTaken(v, t);
    } else {
      PlainWritten(v, t);
    }
  }

  lemma NullWritten(t: LogicalType)
    ensures ToValue(NullValue, t).Some? ==> ContentOfDuck(ToValue(NullValue, t).value) == ContentOf(NullValue)
  {
  }

  lemma DecimalTaken(v: Value, t: LogicalType)
    requires t.id == DECIMAL && !v.NullValue?
    ensures ToValue(v, t) == DecimalToDuck(v, t)
    ensures IsPayload(v, t) ==> v.Decimal32? || v.Decimal64? || v.Decimal128?
  {
    hide DecimalToDuck;
  }

  lemma PlainWritten(v: Value, t: LogicalType)
    requires t.id != DECIMAL && !v.NullValue?
    ensures ToValue(v, t).Some? <==> IsPayload(v, t)
    ensures ToValue(v, t).Some? ==> ContentOfDuck(ToValue(v, t).value) == ContentOf(v)
  {
    hide DecimalToDuck;
  }

  lemma DecimalWritten(v: Value, t: LogicalType)
    requires t.id == DECIMAL
    ensures DecimalToDuck(v, t).Some? <==> (v.Decimal32? || v.Decimal64? || v.Decimal128?) && IsPayload(v, t)
    ensures DecimalToDuck(v, t).Some? && !(v.Decimal32? && t.precision <= 4 && !(-TWO15 <= v.d32 < TWO15)) ==>
              ContentOfDuck(DecimalToDuck(v, t).value) == ContentOf(v)
  {
    if v.Decimal128? { assert (v.d128 / WORD) * WORD + v.d128 % WORD == v.d128; }
  }

  /** A literal that is read has its type's payload, says the same, and a decimal has its
      type's scale. */
  lemma LiteralRead(d: DuckValue, t: LogicalType)
    ensures FromValue(d, t).Some? ==>
              var v := FromValue(d, t).value;
              && IsPayload(v, t) && ContentOf(v) == ContentOfDuck(d)
              && (v.Decimal32? || v.Decimal64? || v.Decimal128? ==> v.scale == t.scale)
  {
  }
}
