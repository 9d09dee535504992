/** The engine's expression trees, with their types and literal values. */
module SiriusAst {
  import opened Common

  datatype TypeId =
    | INVALID | SQLNULL | BOOLEAN | TINYINT | SMALLINT | INTEGER | BIGINT | HUGEINT
    | UTINYINT | USMALLINT | UINTEGER | UBIGINT | UHUGEINT | FLOAT | DOUBLE | DATE
    | TIMESTAMP_SEC | TIMESTAMP_MS | TIMESTAMP | TIMESTAMP_NS | VARCHAR | STRUCT | LIST | DECIMAL

  /** Precision and scale are meaningful for DECIMAL only and zero otherwise. */
  datatype LogicalType = LogicalType(id: TypeId, precision: nat, scale: nat)

  const MAX_PRECISION_INT16 := 4
  const MAX_PRECISION_INT32 := 9
  const MAX_PRECISION_INT64 := 18

  /** A literal. Floating-point literals are carried as their bit patterns. */
  datatype Value =
    | NullValue
    | BoolValue(b: bool)
    | Int8(i8: int) | Int16(i16: int) | Int32(i32: int) | Int64(i64: int)
    | UInt8(u8: int) | UInt16(u16: int) | UInt32(u32: int) | UInt64(u64: int)
    | Float32(f32: nat) | Float64(f64: nat)
    | DateValue(days: int)
    | TimestampSec(sec: int) | TimestampMs(ms: int) | TimestampUs(us: int) | TimestampNs(ns: int)
    | Decimal32(d32: int, scale: nat) | Decimal64(d64: int, scale: nat) | Decimal128(d128: int, scale: nat)
    | Text(s: string)

  datatype Comparison = Equal | NotEqual | Lt | Le | Gt | Ge | DistinctFrom | NotDistinctFrom

  datatype ConjunctionKind = InvalidConjunction | And | Or

  datatype UnaryKind = InvalidUnary | Not | IsNull | IsNotNull | Try

  datatype FunctionId =
    | Add | Sub | Mul | Div | IntDiv | Mod
    | Substring | Like | NotLike | Contains | Prefix | Suffix | StrLen | Length | RegexpReplace
    | Year | Month | Day | Hour | Minute | Second | Millisecond | Microsecond | DateTrunc
    | Row | StructPack | Error

  datatype WhenThen = WhenThen(when: Node, then_: Node)

  datatype Node =
    | Reference(column: nat, typ: LogicalType)
    | Constant(payload: Value, typ: LogicalType)
    | Compare(cmp: Comparison, left: Node, right: Node)
    | Conjunction(conj: ConjunctionKind, children: seq<Node>)
    | Between(input: Node, lower: Node, upper: Node, lowerInclusive: bool, upperInclusive: bool)
    | CaseOf(cases: seq<WhenThen>, otherwise: Node, typ: LogicalType)
    | Cast(child: Node, target: LogicalType, tryCast: bool)
    | Unary(unary: UnaryKind, child: Node)
    | Coalesce(children: seq<Node>, typ: LogicalType)
    | InList(probe: Node, values: seq<Node>, negated: bool)
    | Call(function_: FunctionId, arguments: seq<Node>, typ: LogicalType)
    | Aggregate(name: nat, arguments: seq<Node>, typ: LogicalType, distinct: bool)

  /** The type a node carries, INVALID for the kinds that carry none. */
  function CarriedType(e: Node): TypeId {
    match e
    case Reference(_, typ) => typ.id
    case Constant(_, typ) => typ.id
    case Cast(_, target, _) => target.id
    case Call(_, _, typ) => typ.id
    case _ => INVALID
  }
}
