/** SQL values, rows and the comparisons of the in-memory store. */
module Values {
  import opened Common
  import opened Decimal

  datatype Value =
    | Null
    | Boolean(b: bool)
    | Integer(i: i64)
    | Blob(bytes: seq<byte>)
    | Text(text: string)

  type Row = seq<Value>
  type Key = seq<Value>

  datatype CompareOp = Eq | Ne | Gt | Gte | Lt | Lte

  /** The parts of the surroundings the modelled code calls but this model does not contain: the numeric
      conversions of STRICT tables, lossy UTF-8 decoding and the CHECK tests of other kinds (LIKE, IS TRUE,
      comparisons of function values and the like), plus the flag that switches CHECK constraints off. */
  datatype Env = Env(
    ignoreChecks: bool,
    convert: (ColumnType, Value) -> Option<Value>,
    lossy: seq<byte> -> string,
    otherTest: (string, Value) -> Result<Option<bool>>)

  datatype ColumnType = AnyType | BooleanType | IntegerType | NumericType | RealType | BlobType | TextType

  predicate MatchesValue(ty: ColumnType, v: Value) {
    match ty
    case AnyType => true
    case BooleanType => v.Boolean?
    case IntegerType => v.Integer?
    case NumericType => v.Integer?
    case RealType => false
    case BlobType => v.Blob?
    case TextType => v.Text?
  }

  /** Whether an ordering outcome satisfies an operator. */
  predicate Satisfies(o: Ordering, op: CompareOp) {
    match op
    case Eq => o == Equal
    case Ne => o != Equal
    case Gt => o == Greater
    case Gte => o != Less
    case Lt => o == Less
    case Lte => o != Greater
  }

  function CompareBools(a: bool, b: bool): Ordering {
    if a == b then Equal else if b then Less else Greater
  }

  /** `compare_values` of the store: only like classes compare, and blobs never do. */
  function StoreCompare(left: Value, right: Value): Option<Ordering> {
    match (left, right)
    case (Null, Null) => Some(Equal)
    case (Boolean(a), Boolean(b)) => Some(CompareBools(a, b))
    case (Integer(a), Integer(b)) => Some(CompareInts(a, b))
    case (Text(a), Text(b)) => Some(CompareText(a, b))
    case _ => None
  }

  /** `matches_compare` of the store. */
  predicate StoreMatches(left: Value, op: CompareOp, right: Value) {
    match op
    case Eq => left == right
    case Ne => left != right
    case _ => var o := StoreCompare(left, right); o.Some? && Satisfies(o.value, op)
  }

  /** How a value reads as text for pattern matching. */
  function TextLike(env: Env, v: Value): string {
    match v
    case Null => ""
    case Boolean(b) => if b then "1" else "0"
    case Integer(i) => IntText(i)
    case Blob(bytes) => env.lossy(bytes)
    case Text(t) => t
  }
}
