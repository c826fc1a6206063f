/** The SQL grammar of src/parser.c as functions on the unread input. The cursor that computes them is in
    SqlParser. In a result, rest is the input from the reached (or reported) position on. */
module Grammar {
  import opened SqlTypes
  import opened Decimal

  datatype Parsed<+T> =
    | Match(value: T, rest: string)
    | Fail(code: ErrorCode, rest: string)

  /** A step consumes input when it succeeds and reports a position in its input when it fails. */
  predicate Consumes<T>(s: string, r: Parsed<T>) {
    if r.Match? then |r.rest| < |s| else |r.rest| <= |s|
  }

  function SkipSpace(s: string): (r: string)
    ensures |r| <= |s| && (r != [] ==> !IsSpace(r[0]))
  {
    if s != [] && IsSpace(s[0]) then SkipSpace(s[1..]) else s
  }

  predicate StartsWith(s: string, c: char) {
    s != [] && s[0] == c
  }

  predicate KeywordAt(s: string, keyword: string) {
    && |keyword| <= |s|
    && (forall i :: 0 <= i < |keyword| ==> ToLower(s[i]) == ToLower(keyword[i]))
    && (|keyword| < |s| ==> !IsIdentChar(s[|keyword|]))
  }

  /** expect_keyword */
  function Keyword(s: string, keyword: string): (r: Parsed<()>)
    requires keyword != ""
    ensures Consumes(s, r)
  {
    var t := SkipSpace(s);
    if KeywordAt(t, keyword) then Match((), t[|keyword|..]) else Fail(Parse, t)
  }

  function IdentLength(s: string): (n: nat)
    ensures n <= |s| && (n < |s| ==> !IsIdentChar(s[n]))
    ensures forall i :: 0 <= i < n ==> IsIdentChar(s[i])
  {
    if s != [] && IsIdentChar(s[0]) then 1 + IdentLength(s[1..]) else 0
  }

  /** parse_identifier */
  function Identifier(s: string): (r: Parsed<string>)
    ensures Consumes(s, r)
    ensures r.Match? ==> IsIdentifier(r.value)
  {
    var t := SkipSpace(s);
    if t == [] || !IsIdentStart(t[0]) then Fail(Lex, t)
    else Match(t[..IdentLength(t)], t[IdentLength(t)..])
  }

  datatype TableName = TableName(schema: Option<string>, table: string)

  /** parse_qualified_name */
  function QualifiedName(s: string): (r: Parsed<TableName>)
    ensures Consumes(s, r)
  {
    match Identifier(s)
    case Fail(code, rest) => Fail(code, rest)
    case Match(first, rest) =>
      var t := SkipSpace(rest);
      if StartsWith(t, '.') then
        match Identifier(t[1..])
        case Fail(code, rest) => Fail(code, rest)
        case Match(second, rest) => Match(TableName(Some(first), second), rest)
      else Match(TableName(None, first), t)
  }

  function DigitLength(s: string): (n: nat)
    ensures n <= |s| && AllDigits(s[..n]) && (n < |s| ==> !IsDigit(s[n]))
  {
    if s != [] && IsDigit(s[0]) then 1 + DigitLength(s[1..]) else 0
  }

  function SignLength(s: string): nat {
    if s != [] && IsSign(s[0]) then 1 else 0
  }

  lemma DigitPrefix(s: string)
    requires DigitLength(s[SignLength(s)..]) > 0
    ensures IsIntegerText(s[..SignLength(s) + DigitLength(s[SignLength(s)..])])
  {
    var k, n := SignLength(s), DigitLength(s[SignLength(s)..]);
    assert s[..k + n][k..] == s[k..][..n];
  }

  /** The length of the optional sign and the digits at the head of s, or 0 when there is no digit. */
  function IntegerLength(s: string): (n: nat)
    ensures n <= |s| && (n > 0 ==> IsIntegerText(s[..n]))
  {
    var k := SignLength(s);
    var n := DigitLength(s[k..]);
    if n == 0 then 0 else DigitPrefix(s); k + n
  }

  /** parse_integer_value */
  function IntegerLiteral(s: string): (r: Parsed<SqlValue>)
    ensures Consumes(s, r)
  {
    var n := IntegerLength(s);
    if n == 0 then Fail(Lex, s)
    else
      match Strtoll(s[..n])
      case None => Fail(Lex, s)
      case Some(v) => Match(IntValue(v), s[n..])
  }

  /** The contents of a string literal whose opening quote has been read; '' stands for one quote
      (section 5.3 of SQL-92). */
  function StringBody(s: string): (r: Parsed<string>)
    ensures Consumes(s, r)
    decreases |s|
  {
    if s == [] then Fail(Lex, s)
    else if s[0] != '\'' then
      match StringBody(s[1..])
      case Fail(code, rest) => Fail(code, rest)
      case Match(text, rest) => Match([s[0]] + text, rest)
    else if |s| > 1 && s[1] == '\'' then
      match StringBody(s[2..])
      case Fail(code, rest) => Fail(code, rest)
      case Match(text, rest) => Match("'" + text, rest)
    else Match("", s[1..])
  }

  /** parse_value */
  function Literal(s: string): (r: Parsed<SqlValue>)
    ensures Consumes(s, r)
  {
    var t := SkipSpace(s);
    if StartsWith(t, '\'') then
      match StringBody(t[1..])
      case Fail(code, rest) => Fail(code, rest)
      case Match(text, rest) => Match(StringValue(text), rest)
    else if t != [] && (IsSign(t[0]) || IsDigit(t[0])) then IntegerLiteral(t)
    else Fail(Lex, t)
  }

  /** The loop of parse_parenthesized_identifier_list; names have been read before. */
  function ColumnsFrom(s: string, names: seq<string>): (r: Parsed<seq<string>>)
    ensures Consumes(s, r)
    decreases |s|
  {
    match Identifier(s)
    case Fail(code, rest) => Fail(code, rest)
    case Match(name, rest) =>
      if name in names then Fail(Parse, rest)
      else
        var t := SkipSpace(rest);
        if StartsWith(t, ')') then Match(names + [name], t[1..])
        else if !StartsWith(t, ',') then Fail(Parse, t)
        else
          var u := SkipSpace(t[1..]);
          if StartsWith(u, ')') then Fail(Parse, u) else ColumnsFrom(u, names + [name])
  }

  /** parse_parenthesized_identifier_list */
  function ColumnList(s: string): (r: Parsed<seq<string>>)
    ensures Consumes(s, r)
  {
    var t := SkipSpace(s);
    if !StartsWith(t, '(') then Fail(Parse, t)
    else
      var u := SkipSpace(t[1..]);
      if StartsWith(u, ')') then Fail(Parse, u) else ColumnsFrom(u, [])
  }

  /** parse_identifier_sequence */
  function SelectedFrom(s: string, names: seq<string>): (r: Parsed<seq<string>>)
    ensures Consumes(s, r)
    decreases |s|
  {
    match Identifier(s)
    case Fail(code, rest) => Fail(code, rest)
    case Match(name, rest) =>
      if name in names then Fail(Parse, rest)
      else
        var t := SkipSpace(rest);
        if !StartsWith(t, ',') then Match(names + [name], t)
        else
          var u := SkipSpace(t[1..]);
          if u == [] || StartsWith(u, ';') then Fail(Parse, u) else SelectedFrom(u, names + [name])
  }

  /** The loop of parse_values_list */
  function ValuesFrom(s: string, values: seq<SqlValue>): (r: Parsed<seq<SqlValue>>)
    ensures Consumes(s, r)
    decreases |s|
  {
    match Literal(s)
    case Fail(code, rest) => Fail(code, rest)
    case Match(value, rest) =>
      var t := SkipSpace(rest);
      if StartsWith(t, ')') then Match(values + [value], t[1..])
      else if !StartsWith(t, ',') then Fail(Parse, t)
      else
        var u := SkipSpace(t[1..]);
        if StartsWith(u, ')') then Fail(Parse, u) else ValuesFrom(u, values + [value])
  }

  /** parse_values_list */
  function ValueList(s: string): (r: Parsed<seq<SqlValue>>)
    ensures Consumes(s, r)
  {
    var t := SkipSpace(s);
    if !StartsWith(t, '(') then Fail(Parse, t)
    else
      var u := SkipSpace(t[1..]);
      if StartsWith(u, ')') then Fail(Unsupported, u) else ValuesFrom(u, [])
  }

  /** The optional column list of parse_insert */
  function OptionalColumns(s: string): (r: Parsed<seq<string>>)
    ensures |r.rest| <= |s|
  {
    var t := SkipSpace(s);
    if StartsWith(t, '(') then ColumnList(t) else Match([], t)
  }

  /** The VALUES clause of parse_insert */
  function InsertValues(s: string, name: TableName, columns: seq<string>): (r: Parsed<Statement>)
    ensures Consumes(s, r)
  {
    match Keyword(s, "VALUES")
    case Fail(code, rest) => Fail(code, rest)
    case Match(_, rest) =>
      match ValueList(rest)
      case Fail(code, rest) => Fail(code, rest)
      case Match(values, rest) =>
        if columns != [] && |columns| != |values| then Fail(Parse, rest)
        else Match(Insert(name.schema, name.table, columns, values), rest)
  }

  /** parse_insert, from behind the table name */
  function InsertTail(s: string, name: TableName): (r: Parsed<Statement>)
    ensures Consumes(s, r)
  {
    match OptionalColumns(s)
    case Fail(code, rest) => Fail(code, rest)
    case Match(columns, rest) => InsertValues(rest, name, columns)
  }

  /** parse_insert, from behind INSERT */
  function InsertBody(s: string): (r: Parsed<Statement>)
    ensures Consumes(s, r)
  {
    match Keyword(s, "INTO")
    case Fail(code, rest) => Fail(code, rest)
    case Match(_, rest) =>
      match QualifiedName(rest)
      case Fail(code, rest) => Fail(code, rest)
      case Match(name, rest) => InsertTail(rest, name)
  }

  /** parse_select_columns; an empty list stands for the asterisk. */
  function Selection(s: string): (r: Parsed<seq<string>>)
    ensures Consumes(s, r)
  {
    var t := SkipSpace(s);
    if StartsWith(t, '*') then Match([], t[1..]) else SelectedFrom(t, [])
  }

  /** parse_select, from behind SELECT */
  function SelectBody(s: string): (r: Parsed<Statement>)
    ensures Consumes(s, r)
  {
    match Selection(s)
    case Fail(code, rest) => Fail(code, rest)
    case Match(columns, rest) =>
      match Keyword(rest, "FROM")
      case Fail(code, rest) => Fail(code, rest)
      case Match(_, rest) =>
        match QualifiedName(rest)
        case Fail(code, rest) => Fail(code, rest)
        case Match(name, rest) => Match(Select(name.schema, name.table, columns == [], columns), rest)
  }

  /** parse_statement_core */
  function StatementAt(s: string): (r: Parsed<Statement>)
    ensures Consumes(s, r)
  {
    var t := SkipSpace(s);
    if KeywordAt(t, "INSERT") then InsertBody(t[6..])
    else if KeywordAt(t, "SELECT") then SelectBody(t[6..])
    else Fail(Unsupported, t)
  }

  /** One round of parse_sql_script: a statement and its semicolon. */
  function TerminatedStatement(s: string): (r: Parsed<Statement>)
    ensures Consumes(s, r)
  {
    match StatementAt(s)
    case Fail(code, rest) => Fail(code, rest)
    case Match(stmt, rest) =>
      var t := SkipSpace(rest);
      if StartsWith(t, ';') then Match(stmt, t[1..]) else Fail(Parse, t)
  }

  /** The statement loop of parse_sql_script; script has been read before. */
  function StatementsFrom(s: string, script: seq<Statement>): (r: Parsed<seq<Statement>>)
    ensures |r.rest| <= |s| && (r.Match? ==> r.rest == [])
    decreases |s|
  {
    var t := SkipSpace(s);
    if t == [] then Match(script, t)
    else
      match TerminatedStatement(t)
      case Fail(code, rest) => Fail(code, rest)
      case Match(stmt, rest) => StatementsFrom(rest, script + [stmt])
  }

  /** parse_sql_script */
  function ParseScript(sql: string): (r: Parsed<seq<Statement>>)
    ensures |r.rest| <= |sql|
  {
    match StatementsFrom(StripBom(sql), [])
    case Fail(code, rest) => Fail(code, rest)
    case Match(script, rest) => if script == [] then Fail(Parse, rest) else Match(script, rest)
  }
}
