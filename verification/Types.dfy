/** Values, statements and results shared by the parser, the storage engine and the executor.
    A byte of the C program is a Dafny `char`; a C string or a file is a `string`. */
module SqlTypes {

  datatype Option<+T> = None | Some(value: T)

  datatype ErrorCode = Argument | Io | Lex | Parse | Unsupported

  datatype Result<+T> = Ok(value: T) | Err(code: ErrorCode)

  const INT64_MIN: int := -0x8000_0000_0000_0000
  const INT64_MAX: int := 0x7fff_ffff_ffff_ffff
  const UINT64_MAX: int := 0xffff_ffff_ffff_ffff

  /** `long long` and `unsigned long long`: a value outside the range is a proof failure, never a wrap. */
  type Int64 = x: int | INT64_MIN <= x <= INT64_MAX
  type UInt64 = x: int | 0 <= x <= UINT64_MAX

  datatype SqlValue = IntValue(n: Int64) | StringValue(s: string)

  datatype Statement =
    | Insert(schema: Option<string>, table: string, columns: seq<string>, values: seq<SqlValue>)
    | Select(schema: Option<string>, table: string, selectAll: bool, columns: seq<string>)

  // Character classes of the C locale.

  predicate IsSpace(c: char) {
    c == ' ' || '\t' <= c <= '\r'
  }

  predicate IsDigit(c: char) {
    '0' <= c <= '9'
  }

  predicate IsIdentStart(c: char) {
    'a' <= c <= 'z' || 'A' <= c <= 'Z' || c == '_'
  }

  predicate IsIdentChar(c: char) {
    IsIdentStart(c) || IsDigit(c)
  }

  function ToLower(c: char): char {
    if 'A' <= c <= 'Z' then (c as int + 32) as char else c
  }

  predicate IsIdentifier(s: string) {
    s != [] && IsIdentStart(s[0]) && forall i :: 0 <= i < |s| ==> IsIdentChar(s[i])
  }

  predicate Distinct<T(==)>(s: seq<T>) {
    forall i, j :: 0 <= i < j < |s| ==> s[i] != s[j]
  }

  /** The UTF-8 byte order mark (RFC 3629, section 6), one char a byte. */
  const BOM: string := ['\U{EF}', '\U{BB}', '\U{BF}']

  predicate HasBom(s: string) {
    BOM <= s
  }

  function StripBom(s: string): string {
    if HasBom(s) then s[3..] else s
  }

  /** What the parser promises about a statement it accepts, and all that the printer needs of one. */
  predicate WellFormed(stmt: Statement) {
    && (stmt.schema.Some? ==> IsIdentifier(stmt.schema.value))
    && IsIdentifier(stmt.table)
    && (forall i :: 0 <= i < |stmt.columns| ==> IsIdentifier(stmt.columns[i]))
    && Distinct(stmt.columns)
    && match stmt {
         case Insert(_, _, columns, values) => |values| > 0 && (columns == [] || |columns| == |values|)
         case Select(_, _, selectAll, columns) => selectAll <==> columns == []
       }
  }

  // Facts about sequences, stated once so that proofs can cite them.

  lemma Associative<T>(a: seq<T>, b: seq<T>, c: seq<T>)
    ensures a + b + c == a + (b + c)
  {
  }

  lemma Split<T>(a: seq<T>, b: seq<T>)
    ensures (a + b)[..|a|] == a && (a + b)[|a|..] == b
  {
  }

  lemma SliceOfConcat<T>(a: seq<T>, b: seq<T>, n: nat)
    requires n <= |a|
    ensures (a + b)[..n] == a[..n] && (a + b)[n..] == a[n..] + b
  {
  }
}
