/** Small shared definitions: optional values, results, orderings and bytes. */
module Common {

  datatype Option<+T> = None | Some(value: T)

  datatype Result<+T> = Ok(value: T) | Err(error: Error)

  /** The kinds of failure the modelled code reports; message texts are not modelled. */
  datatype Error =
    | UnknownTable
    | TableExists
    | UnknownColumn
    | ColumnExists
    | UnknownIndex
    | IndexExists
    | IndexWithoutColumns
    | WrongWidth
    | MissingValue
    | BadRowId
    | TypeMismatch
    | NullNotAllowed
    | CheckFailed
    | DuplicatePrimaryKey
    | UniqueFailed
    | DuplicateRowId
    | BadMetadata
    | DropRefused
    | BadIndexPrefix
    | TransactionError
    | NoSuchSavepoint
    | Malformed
    | Syntax

  datatype Ordering = Less | Equal | Greater

  type byte = x: int | 0 <= x < 256

  const MAX_I64: int := 0x7fff_ffff_ffff_ffff
  const MIN_I64: int := -0x8000_0000_0000_0000

  type i64 = x: int | MIN_I64 <= x <= MAX_I64

  function LowerChar(c: char): char { if 'A' <= c <= 'Z' then (c as int + 32) as char else c }

  /** Rust's `eq_ignore_ascii_case`. */
  predicate SameName(a: string, b: string) {
    |a| == |b| && forall i | 0 <= i < |a| :: LowerChar(a[i]) == LowerChar(b[i])
  }

  /** Rust's `cmp` on integers. */
  function CompareInts(a: int, b: int): Ordering {
    if a < b then Less else if a == b then Equal else Greater
  }

  /** Rust's `cmp` on slices: lexicographic, a proper prefix being smaller. */
  function CompareSeqs(a: seq<int>, b: seq<int>): Ordering {
    if a == [] then (if b == [] then Equal else Less)
    else if b == [] then Greater
    else if a[0] != b[0] then CompareInts(a[0], b[0])
    else CompareSeqs(a[1..], b[1..])
  }

  /** Rust's `cmp` on `str`: UTF-8 bytes compare as the code points do. */
  function CompareText(a: string, b: string): Ordering {
    if a == [] then (if b == [] then Equal else Less)
    else if b == [] then Greater
    else if a[0] != b[0] then CompareInts(a[0] as int, b[0] as int)
    else CompareText(a[1..], b[1..])
  }

  function Reverse(o: Ordering): Ordering {
    match o
    case Less => Greater
    case Equal => Equal
    case Greater => Less
  }

  /** The order on texts is total: one of the three outcomes, consistently from both sides. */
  lemma {:induction false} CompareTextAntisymmetric(a: string, b: string)
    ensures CompareText(a, b) == Equal <==> a == b
    ensures CompareText(b, a) == Reverse(CompareText(a, b))
  {
    if a != [] && b != [] && a[0] == b[0] {
      CompareTextAntisymmetric(a[1..], b[1..]);
      assert a == [a[0]] + a[1..] && b == [b[0]] + b[1..];
    }
  }

  lemma {:induction false} CompareTextTransitive(a: string, b: string, c: string)
    requires CompareText(a, b) != Greater && CompareText(b, c) != Greater
    ensures CompareText(a, c) != Greater
    ensures CompareText(a, b) == Less || CompareText(b, c) == Less ==> CompareText(a, c) == Less
  {
    if a != [] && b != [] && c != [] && a[0] == b[0] == c[0] {
      CompareTextTransitive(a[1..], b[1..], c[1..]);
    }
  }

  lemma {:induction false} CompareSeqsAntisymmetric(a: seq<int>, b: seq<int>)
    ensures CompareSeqs(a, b) == Equal <==> a == b
    ensures CompareSeqs(b, a) == Reverse(CompareSeqs(a, b))
  {
    if a != [] && b != [] && a[0] == b[0] {
      CompareSeqsAntisymmetric(a[1..], b[1..]);
      assert a == [a[0]] + a[1..] && b == [b[0]] + b[1..];
    }
  }
}
