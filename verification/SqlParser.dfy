/** The cursor of src/parser.c: every method moves pos over the input and is proved against Grammar. */
module SqlParser {
  import opened SqlTypes
  import opened Decimal
  import opened Grammar

  datatype Answer<+T> = Got(value: T) | Error(code: ErrorCode, position: nat)

  /** A method's answer for the grammar's answer: the same value, or the same code and position. */
  function Reported<T>(r: Parsed<T>, length: nat): Answer<T>
    requires |r.rest| <= length
  {
    match r
    case Match(value, _) => Got(value)
    case Fail(code, rest) => Error(code, length - |rest|)
  }

  /** What one round of a list loop yields: the list so far with more to come, the whole list, or an error. */
  datatype Item<+T> = More(items: seq<T>) | Last(items: seq<T>) | Bad(code: ErrorCode, position: nat)

  /** The grammar's answer for the whole loop, after one round that left unread input. */
  ghost predicate Continues<T>(whole: Parsed<seq<T>>, item: Item<T>, length: nat, unread: string,
                               continued: Parsed<seq<T>>)
  {
    match item
    case More(_) => whole == continued
    case Last(items) => whole == Match(items, unread)
    case Bad(code, position) => whole.Fail? && whole.code == code && position == length - |whole.rest|
  }

  class Parser {
    const input: string
    var pos: nat

    ghost predicate Valid()
      reads this
    {
      pos <= |input|
    }

    ghost function Unread(): string
      reads this
      requires Valid()
    {
      input[pos..]
    }

    constructor (input: string)
      ensures this.input == input && pos == 0
    {
      this.input := input;
      pos := 0;
    }

    /** current_char(parser) == c, for a c that is not NUL */
    function At(c: char): (b: bool)
      reads this
      requires Valid()
    {
      pos < |input| && input[pos] == c
    }

    method Advance()
      requires Valid() && pos < |input|
      modifies this
      ensures Valid() && pos == old(pos) + 1 && Unread() == old(Unread())[1..]
    {
      assert Unread()[1..] == input[pos + 1..];
      pos := pos + 1;
    }

    /** skip_utf8_bom */
    method SkipUtf8Bom()
      requires pos == 0
      modifies this
      ensures Valid() && Unread() == StripBom(input)
    {
      assert input[0..] == input;
      assert |input| >= 3 ==> (HasBom(input) <==> input[..3] == BOM);
      assert |input| >= 3 ==> input[..3] == [input[0], input[1], input[2]];
      if |input| >= 3 && input[0] == BOM[0] && input[1] == BOM[1] && input[2] == BOM[2] {
        pos := 3;
      }
    }

    /** skip_whitespace */
    method SkipWhitespace()
      requires Valid()
      modifies this
      ensures Valid() && pos >= old(pos) && Unread() == SkipSpace(old(Unread()))
    {
      while pos < |input| && IsSpace(input[pos])
        invariant Valid() && pos >= old(pos)
        invariant SkipSpace(old(Unread())) == SkipSpace(Unread())
        decreases |input| - pos
      {
        Advance();
      }
    }

    /** match_keyword: moves only when the whole keyword is there and no identifier goes on behind it. */
    method MatchKeyword(keyword: string) returns (matched: bool)
      requires Valid()
      modifies this
      ensures Valid() && matched == KeywordAt(old(Unread()), keyword)
      ensures pos == old(pos) + (if matched then |keyword| else 0)
    {
      var start := pos;
      ghost var s := Unread();
      var i := 0;
      while i < |keyword|
        invariant 0 <= i <= |keyword| && pos == start == old(pos) && start + i <= |input|
        invariant forall k :: 0 <= k < i ==> ToLower(s[k]) == ToLower(keyword[k])
      {
        if start + i >= |input| { return false; }
        if ToLower(input[start + i]) != ToLower(keyword[i]) {
          assert s[i] == input[start + i];
          return false;
        }
        i := i + 1;
      }
      if start + i < |input| && IsIdentChar(input[start + i]) {
        assert s[i] == input[start + i];
        return false;
      }
      pos := start + i;
      matched := true;
    }

    /** expect_keyword */
    method ExpectKeyword(keyword: string) returns (r: Answer<()>)
      requires Valid() && keyword != ""
      modifies this
      ensures Valid() && pos >= old(pos)
      ensures r == Reported(Keyword(old(Unread()), keyword), |input|)
      ensures r.Got? ==> Unread() == Keyword(old(Unread()), keyword).rest
    {
      SkipWhitespace();
      var position := pos;
      ghost var t := Unread();
      var matched := MatchKeyword(keyword);
      if !matched { return Error(Parse, position); }
      assert Unread() == t[|keyword|..];
      r := Got(());
    }

    /** The character loop of parse_identifier */
    method SkipIdentChars()
      requires Valid()
      modifies this
      ensures Valid() && pos == old(pos) + IdentLength(old(Unread()))
    {
      while pos < |input| && IsIdentChar(input[pos])
        invariant Valid() && pos >= old(pos)
        invariant IdentLength(old(Unread())) == pos - old(pos) + IdentLength(Unread())
        decreases |input| - pos
      {
        Advance();
      }
    }

    /** parse_identifier */
    method ParseIdentifier() returns (r: Answer<string>)
      requires Valid()
      modifies this
      ensures Valid() && pos >= old(pos)
      ensures r == Reported(Identifier(old(Unread())), |input|)
      ensures r.Got? ==> Unread() == Identifier(old(Unread())).rest
    {
      SkipWhitespace();
      var start := pos;
      ghost var t := Unread();
      if pos == |input| || !IsIdentStart(input[pos]) { return Error(Lex, pos); }
      Advance();
      SkipIdentChars();
      assert IdentLength(t) == pos - start;
      assert t[..pos - start] == input[start..pos] && t[pos - start..] == Unread();
      r := Got(input[start..pos]);
    }

    /** parse_qualified_name */
    method ParseQualifiedName() returns (r: Answer<TableName>)
      requires Valid()
      modifies this
      ensures Valid() && pos >= old(pos)
      ensures r == Reported(QualifiedName(old(Unread())), |input|)
      ensures r.Got? ==> Unread() == QualifiedName(old(Unread())).rest
    {
      var first := ParseIdentifier();
      if first.Error? { return Error(first.code, first.position); }
      SkipWhitespace();
      if At('.') {
        Advance();
        var second := ParseIdentifier();
        if second.Error? { return Error(second.code, second.position); }
        return Got(TableName(Some(first.value), second.value));
      }
      r := Got(TableName(None, first.value));
    }

    /** consume_char */
    method ConsumeChar(c: char) returns (r: Answer<()>)
      requires Valid()
      modifies this
      ensures Valid() && pos >= old(pos)
      ensures var t := SkipSpace(old(Unread()));
              r == (if StartsWith(t, c) then Got(()) else Error(Parse, |input| - |t|))
              && (r.Got? ==> Unread() == t[1..])
    {
      SkipWhitespace();
      if !At(c) { return Error(Parse, pos); }
      Advance();
      r := Got(());
    }

    static lemma Slices(input: string, start: nat, n: nat)
      requires start + n <= |input|
      ensures input[start..][..n] == input[start..start + n] && input[start..][n..] == input[start + n..]
    {
    }

    /** The digit loop of parse_integer_value */
    method SkipDigits()
      requires Valid()
      modifies this
      ensures Valid() && pos == old(pos) + DigitLength(old(Unread()))
    {
      while pos < |input| && IsDigit(input[pos])
        invariant Valid() && pos >= old(pos)
        invariant DigitLength(old(Unread())) == pos - old(pos) + DigitLength(Unread())
        decreases |input| - pos
      {
        Advance();
      }
    }

    /** The sign and digits of parse_integer_value */
    method SkipInteger() returns (found: bool)
      requires Valid()
      modifies this
      ensures Valid() && pos >= old(pos) && found == (IntegerLength(old(Unread())) > 0)
      ensures found ==> pos == old(pos) + IntegerLength(old(Unread()))
    {
      if At('+') || At('-') { Advance(); }
      if pos == |input| || !IsDigit(input[pos]) { return false; }
      SkipDigits();
      found := true;
    }

    /** parse_integer_value */
    method ParseIntegerValue() returns (r: Answer<SqlValue>)
      requires Valid()
      modifies this
      ensures Valid() && pos >= old(pos)
      ensures r == Reported(IntegerLiteral(old(Unread())), |input|)
      ensures r.Got? ==> Unread() == IntegerLiteral(old(Unread())).rest
    {
      hide IsIntegerText, IntegerLength, SignedValue;
      var start := pos;
      var found := SkipInteger();
      if !found { return Error(Lex, start); }
      Slices(input, start, pos - start);
      var parsed := Strtoll(input[start..pos]);
      if parsed == None { return Error(Lex, start); }
      r := Got(IntValue(parsed.value));
    }

    static function Prepended(head: string, r: Parsed<string>): Parsed<string> {
      match r
      case Fail(code, rest) => Fail(code, rest)
      case Match(text, rest) => Match(head + text, rest)
    }

    static lemma PrependedFacts(head: string, c: string, r: Parsed<string>)
      ensures Prepended("", r) == r
      ensures Prepended(head, Prepended(c, r)) == Prepended(head + c, r)
    {
      if r.Match? {
        assert "" + r.value == r.value;
        assert head + (c + r.value) == head + c + r.value;
      }
    }

    /** One round of the loop of parse_string_value, for a cursor that has not reached the end */
    method ParseStringChar(buffer: string) returns (item: Item<char>)
      requires Valid() && pos < |input|
      modifies this
      ensures Valid() && pos > old(pos) && !item.Bad?
      ensures Continues(Prepended(buffer, StringBody(old(Unread()))), item, |input|, Unread(),
                        if item.More? then Prepended(item.items, StringBody(Unread())) else Match(buffer, ""))
    {
      var ch := input[pos];
      ghost var s := Unread();
      Advance();
      if ch != '\'' {
        PrependedFacts(buffer, [ch], StringBody(s[1..]));
        return More(buffer + [ch]);
      }
      if At('\'') {
        Advance();
        assert s[1..][1..] == s[2..];
        PrependedFacts(buffer, "'", StringBody(s[2..]));
        return More(buffer + ['\'']);
      }
      assert buffer + "" == buffer;
      item := Last(buffer);
    }

    /** parse_string_value */
    method ParseStringValue() returns (r: Answer<string>)
      requires Valid() && StartsWith(Unread(), '\'')
      modifies this
      ensures Valid() && pos >= old(pos)
      ensures r == Reported(StringBody(old(Unread())[1..]), |input|)
      ensures r.Got? ==> Unread() == StringBody(old(Unread())[1..]).rest
    {
      Advance();
      var buffer := "";
      ghost var all := StringBody(Unread());
      PrependedFacts("", "", all);
      while pos < |input|
        invariant Valid() && old(pos) < pos && all == Prepended(buffer, StringBody(Unread()))
        decreases |input| - pos
      {
        var item := ParseStringChar(buffer);
        buffer := item.items;
        if item.Last? { return Got(buffer); }
      }
      r := Error(Lex, pos);
    }

    /** parse_value */
    method ParseValue() returns (r: Answer<SqlValue>)
      requires Valid()
      modifies this
      ensures Valid() && pos >= old(pos)
      ensures r == Reported(Literal(old(Unread())), |input|)
      ensures r.Got? ==> Unread() == Literal(old(Unread())).rest
    {
      SkipWhitespace();
      if At('\'') {
        var text := ParseStringValue();
        return match text case Got(s) => Got(StringValue(s)) case Error(code, position) => Error(code, position);
      }
      if At('+') || At('-') || (pos < |input| && IsDigit(input[pos])) {
        r := ParseIntegerValue();
        return;
      }
      r := Error(Lex, pos);
    }

    /** append_name */
    method AppendName(names: seq<string>, name: string) returns (r: Answer<seq<string>>)
      requires Valid()
      ensures r == if name in names then Error(Parse, pos) else Got(names + [name])
    {
      for i := 0 to |names|
        invariant name !in names[..i]
      {
        if names[i] == name { return Error(Parse, pos); }
      }
      r := Got(names + [name]);
    }

    /** One round of the loop of parse_parenthesized_identifier_list */
    method ParseColumn(names: seq<string>) returns (item: Item<string>)
      requires Valid()
      modifies this
      ensures Valid() && pos >= old(pos) && (item.More? ==> pos > old(pos))
      ensures Continues(ColumnsFrom(old(Unread()), names), item, |input|, Unread(),
                        if item.More? then ColumnsFrom(Unread(), item.items) else Match(names, ""))
    {
      var name := ParseIdentifier();
      if name.Error? { return Bad(name.code, name.position); }
      var appended := AppendName(names, name.value);
      if appended.Error? { return Bad(appended.code, appended.position); }
      SkipWhitespace();
      if At(')') {
        Advance();
        return Last(appended.value);
      }
      if !At(',') { return Bad(Parse, pos); }
      Advance();
      SkipWhitespace();
      item := if At(')') then Bad(Parse, pos) else More(appended.value);
    }

    /** parse_parenthesized_identifier_list */
    method ParseParenthesizedIdentifierList() returns (r: Answer<seq<string>>)
      requires Valid()
      modifies this
      ensures Valid() && pos >= old(pos)
      ensures r == Reported(ColumnList(old(Unread())), |input|)
      ensures r.Got? ==> Unread() == ColumnList(old(Unread())).rest
    {
      ghost var all := ColumnList(Unread());
      var bracket := ConsumeChar('(');
      if bracket.Error? { return Error(bracket.code, bracket.position); }
      SkipWhitespace();
      if At(')') { return Error(Parse, pos); }
      var names: seq<string> := [];
      while true
        invariant Valid() && pos >= old(pos) && all == ColumnsFrom(Unread(), names)
        decreases |input| - pos
      {
        var item := ParseColumn(names);
        match item
        case Bad(code, position) => return Error(code, position);
        case Last(items) => return Got(items);
        case More(items) => names := items;
      }
    }

    /** One round of the loop of parse_identifier_sequence */
    method ParseSelected(names: seq<string>) returns (item: Item<string>)
      requires Valid()
      modifies this
      ensures Valid() && pos >= old(pos) && (item.More? ==> pos > old(pos))
      ensures Continues(SelectedFrom(old(Unread()), names), item, |input|, Unread(),
                        if item.More? then SelectedFrom(Unread(), item.items) else Match(names, ""))
    {
      var name := ParseIdentifier();
      if name.Error? { return Bad(name.code, name.position); }
      var appended := AppendName(names, name.value);
      if appended.Error? { return Bad(appended.code, appended.position); }
      SkipWhitespace();
      if !At(',') { return Last(appended.value); }
      Advance();
      SkipWhitespace();
      item := if pos == |input| || At(';') then Bad(Parse, pos) else More(appended.value);
    }

    /** parse_identifier_sequence */
    method ParseIdentifierSequence() returns (r: Answer<seq<string>>)
      requires Valid()
      modifies this
      ensures Valid() && pos >= old(pos)
      ensures r == Reported(SelectedFrom(old(Unread()), []), |input|)
      ensures r.Got? ==> Unread() == SelectedFrom(old(Unread()), []).rest
    {
      ghost var all := SelectedFrom(Unread(), []);
      var names: seq<string> := [];
      while true
        invariant Valid() && pos >= old(pos) && all == SelectedFrom(Unread(), names)
        decreases |input| - pos
      {
        var item := ParseSelected(names);
        match item
        case Bad(code, position) => return Error(code, position);
        case Last(items) => return Got(items);
        case More(items) => names := items;
      }
    }

    /** One round of the loop of parse_values_list */
    method ParseListedValue(values: seq<SqlValue>) returns (item: Item<SqlValue>)
      requires Valid()
      modifies this
      ensures Valid() && pos >= old(pos) && (item.More? ==> pos > old(pos))
      ensures Continues(ValuesFrom(old(Unread()), values), item, |input|, Unread(),
                        if item.More? then ValuesFrom(Unread(), item.items) else Match(values, ""))
    {
      var value := ParseValue();
      if value.Error? { return Bad(value.code, value.position); }
      SkipWhitespace();
      if At(')') {
        Advance();
        return Last(values + [value.value]);
      }
      if At(',') {
        Advance();
        SkipWhitespace();
        return if At(')') then Bad(Parse, pos) else More(values + [value.value]);
      }
      item := Bad(Parse, pos);
    }

    /** parse_values_list */
    method ParseValuesList() returns (r: Answer<seq<SqlValue>>)
      requires Valid()
      modifies this
      ensures Valid() && pos >= old(pos)
      ensures r == Reported(ValueList(old(Unread())), |input|)
      ensures r.Got? ==> Unread() == ValueList(old(Unread())).rest
    {
      ghost var all := ValueList(Unread());
      var bracket := ConsumeChar('(');
      if bracket.Error? { return Error(bracket.code, bracket.position); }
      SkipWhitespace();
      if At(')') { return Error(Unsupported, pos); }
      var values: seq<SqlValue> := [];
      while true
        invariant Valid() && pos >= old(pos) && all == ValuesFrom(Unread(), values)
        decreases |input| - pos
      {
        var item := ParseListedValue(values);
        match item
        case Bad(code, position) => return Error(code, position);
        case Last(items) => return Got(items);
        case More(items) => values := items;
      }
    }

    /** The optional column list of parse_insert */
    method ParseOptionalColumns() returns (r: Answer<seq<string>>)
      requires Valid()
      modifies this
      ensures Valid() && pos >= old(pos)
      ensures r == Reported(OptionalColumns(old(Unread())), |input|)
      ensures r.Got? ==> Unread() == OptionalColumns(old(Unread())).rest
    {
      SkipWhitespace();
      if At('(') {
        r := ParseParenthesizedIdentifierList();
      } else {
        r := Got([]);
      }
    }

    /** The VALUES clause of parse_insert */
    method ParseInsertValues(name: TableName, columns: seq<string>) returns (r: Answer<Statement>)
      requires Valid()
      modifies this
      ensures Valid() && pos >= old(pos)
      ensures r == Reported(InsertValues(old(Unread()), name, columns), |input|)
      ensures r.Got? ==> Unread() == InsertValues(old(Unread()), name, columns).rest
    {
      var keyword := ExpectKeyword("VALUES");
      if keyword.Error? { return Error(Parse, keyword.position); }
      var values := ParseValuesList();
      if values.Error? { return Error(values.code, values.position); }
      if |columns| > 0 && |columns| != |values.value| { return Error(Parse, pos); }
      r := Got(Insert(name.schema, name.table, columns, values.value));
    }

    /** parse_insert */
    method ParseInsert() returns (r: Answer<Statement>)
      requires Valid()
      modifies this
      ensures Valid() && pos >= old(pos)
      ensures r == Reported(InsertBody(old(Unread())), |input|)
      ensures r.Got? ==> Unread() == InsertBody(old(Unread())).rest
    {
      var keyword := ExpectKeyword("INTO");
      if keyword.Error? { return Error(keyword.code, keyword.position); }
      var name := ParseQualifiedName();
      if name.Error? { return Error(name.code, name.position); }
      var columns := ParseOptionalColumns();
      if columns.Error? { return Error(columns.code, columns.position); }
      r := ParseInsertValues(name.value, columns.value);
    }

    /** parse_select_columns */
    method ParseSelectColumns() returns (r: Answer<seq<string>>)
      requires Valid()
      modifies this
      ensures Valid() && pos >= old(pos)
      ensures r == Reported(Selection(old(Unread())), |input|)
      ensures r.Got? ==> Unread() == Selection(old(Unread())).rest
    {
      SkipWhitespace();
      if At('*') {
        Advance();
        return Got([]);
      }
      r := ParseIdentifierSequence();
    }

    /** parse_select */
    method ParseSelect() returns (r: Answer<Statement>)
      requires Valid()
      modifies this
      ensures Valid() && pos >= old(pos)
      ensures r == Reported(SelectBody(old(Unread())), |input|)
      ensures r.Got? ==> Unread() == SelectBody(old(Unread())).rest
    {
      var columns := ParseSelectColumns();
      if columns.Error? { return Error(columns.code, columns.position); }
      var keyword := ExpectKeyword("FROM");
      if keyword.Error? { return Error(keyword.code, keyword.position); }
      var name := ParseQualifiedName();
      if name.Error? { return Error(name.code, name.position); }
      r := Got(Select(name.value.schema, name.value.table, columns.value == [], columns.value));
    }

    /** parse_statement_core */
    method ParseStatementCore() returns (r: Answer<Statement>)
      requires Valid()
      modifies this
      ensures Valid() && pos >= old(pos)
      ensures r == Reported(StatementAt(old(Unread())), |input|)
      ensures r.Got? ==> Unread() == StatementAt(old(Unread())).rest
    {
      SkipWhitespace();
      ghost var t := Unread();
      var insert := MatchKeyword("INSERT");
      if insert {
        assert Unread() == t[6..];
        r := ParseInsert();
        return;
      }
      var select := MatchKeyword("SELECT");
      if select {
        assert Unread() == t[6..];
        r := ParseSelect();
        return;
      }
      r := Error(Unsupported, pos);
    }

    /** One round of parse_sql_script */
    method ParseTerminatedStatement() returns (r: Answer<Statement>)
      requires Valid()
      modifies this
      ensures Valid() && pos >= old(pos) && (r.Got? ==> pos > old(pos))
      ensures r == Reported(TerminatedStatement(old(Unread())), |input|)
      ensures r.Got? ==> Unread() == TerminatedStatement(old(Unread())).rest
    {
      hide StatementAt;
      r := ParseStatementCore();
      if r.Error? { return; }
      SkipWhitespace();
      if !At(';') { return Error(Parse, pos); }
      Advance();
    }
  }

  /** parse_sql_script: the same statements as the grammar, or its error at its position, which lies in
      the input. */
  method ParseSqlScript(sql: string) returns (r: Answer<seq<Statement>>)
    ensures r == Reported(ParseScript(sql), |sql|)
    ensures r.Error? ==> r.position <= |sql|
  {
    hide TerminatedStatement;
    var parser := new Parser(sql);
    parser.SkipUtf8Bom();
    var script: seq<Statement> := [];
    ghost var all := StatementsFrom(StripBom(sql), []);
    while true
      invariant fresh(parser) && parser.input == sql && parser.Valid()
      invariant all == StatementsFrom(parser.Unread(), script)
      decreases |sql| - parser.pos
    {
      parser.SkipWhitespace();
      if parser.pos >= |parser.input| { break; }
      var stmt := parser.ParseTerminatedStatement();
      if stmt.Error? { return Error(stmt.code, stmt.position); }
      script := script + [stmt.value];
    }
    r := if script == [] then Error(Parse, parser.pos) else Got(script);
  }
}
