/** The canonical rendering of a script, and the proof that the parser reads it back. */
module RoundTrip {
  import opened SqlTypes
  import opened Decimal
  import opened Grammar
  import opened ParseTheorems

  // ---------- the printer ----------

  function RenderName(schema: Option<string>, table: string): string {
    (if schema.Some? then schema.value + "." else "") + table
  }

  function RenderNames(names: seq<string>): string {
    if names == [] then ""
    else if |names| == 1 then names[0]
    else names[0] + ", " + RenderNames(names[1..])
  }

  function EscapeQuotes(s: string): string {
    if s == [] then [] else (if s[0] == '\'' then "''" else [s[0]]) + EscapeQuotes(s[1..])
  }

  function RenderValue(v: SqlValue): string {
    match v
    case IntValue(n) => IntText(n)
    case StringValue(s) => "'" + EscapeQuotes(s) + "'"
  }

  function RenderValues(values: seq<SqlValue>): string {
    if values == [] then ""
    else if |values| == 1 then RenderValue(values[0])
    else RenderValue(values[0]) + ", " + RenderValues(values[1..])
  }

  function RenderColumns(columns: seq<string>): string {
    if columns == [] then " " else " (" + RenderNames(columns) + ") "
  }

  function RenderStatement(stmt: Statement): string {
    match stmt
    case Insert(schema, table, columns, values) =>
      "INSERT INTO " + RenderName(schema, table) + RenderColumns(columns) + "VALUES (" + RenderValues(values) + ")"
    case Select(schema, table, selectAll, columns) =>
      "SELECT " + (if selectAll then "*" else RenderNames(columns)) + " FROM " + RenderName(schema, table)
  }

  function RenderScript(script: seq<Statement>): string {
    if script == [] then "" else RenderStatement(script[0]) + ";\n" + RenderScript(script[1..])
  }

  // ---------- tokens ----------

  lemma SkipOneSpace(s: string)
    requires s == [] || !IsSpace(s[0])
    ensures SkipSpace(s) == s && SkipSpace(" " + s) == s
  {
    assert (" " + s)[1..] == s;
  }

  lemma KeywordPrinted(keyword: string, rest: string)
    requires keyword != "" && !IsSpace(keyword[0]) && rest != [] && !IsIdentChar(rest[0])
    ensures KeywordAt(keyword + rest, keyword) && (keyword + rest)[|keyword|..] == rest
    ensures Keyword(keyword + rest, keyword) == Match((), rest)
    ensures Keyword(" " + (keyword + rest), keyword) == Match((), rest)
  {
    SkipOneSpace(keyword + rest);
  }

  lemma {:induction false} IdentLengthPrinted(name: string, rest: string)
    requires forall i :: 0 <= i < |name| ==> IsIdentChar(name[i])
    requires rest == [] || !IsIdentChar(rest[0])
    ensures IdentLength(name + rest) == |name|
  {
    if name == [] {
      assert name + rest == rest;
    } else {
      assert (name + rest)[1..] == name[1..] + rest;
      IdentLengthPrinted(name[1..], rest);
    }
  }

  lemma IdentifierPrinted(name: string, rest: string)
    requires IsIdentifier(name) && (rest == [] || !IsIdentChar(rest[0]))
    ensures Identifier(name + rest) == Match(name, rest)
    ensures Identifier(" " + (name + rest)) == Match(name, rest)
  {
    SkipOneSpace(name + rest);
    IdentLengthPrinted(name, rest);
    assert (name + rest)[..|name|] == name && (name + rest)[|name|..] == rest;
  }

  /** A printed name is read back; without a schema part the white space behind it is consumed too. */
  lemma NamePrinted(schema: Option<string>, table: string, rest: string)
    requires IsIdentifier(table) && (schema.Some? ==> IsIdentifier(schema.value))
    requires rest != [] && !IsIdentChar(rest[0]) && !StartsWith(SkipSpace(rest), '.')
    ensures QualifiedName(" " + (RenderName(schema, table) + rest))
         == Match(TableName(schema, table), if schema.Some? then rest else SkipSpace(rest))
  {
    match schema
    case None =>
      assert RenderName(schema, table) == table;
      IdentifierPrinted(table, rest);
    case Some(name) =>
      assert RenderName(schema, table) + rest == name + ("." + (table + rest));
      IdentifierPrinted(name, "." + (table + rest));
      SkipOneSpace("." + (table + rest));
      IdentifierPrinted(table, rest);
      assert ("." + (table + rest))[1..] == table + rest;
  }

  lemma {:induction false} StringBodyPrinted(s: string, rest: string)
    requires rest == [] || rest[0] != '\''
    ensures StringBody(EscapeQuotes(s) + ("'" + rest)) == Match(s, rest)
  {
    var t := EscapeQuotes(s) + ("'" + rest);
    if s == [] {
      assert t == "'" + rest && t[1..] == rest;
    } else {
      StringBodyPrinted(s[1..], rest);
      var tail := EscapeQuotes(s[1..]) + ("'" + rest);
      if s[0] == '\'' {
        assert t == "''" + tail && t[2..] == tail;
      } else {
        assert t == [s[0]] + tail && t[1..] == tail;
      }
      assert s == [s[0]] + s[1..];
    }
  }

  lemma {:induction false} DigitLengthPrinted(digits: string, rest: string)
    requires AllDigits(digits) && (rest == [] || !IsDigit(rest[0]))
    ensures DigitLength(digits + rest) == |digits|
  {
    if digits == [] {
      assert digits + rest == rest;
    } else {
      assert (digits + rest)[1..] == digits[1..] + rest;
      DigitLengthPrinted(digits[1..], rest);
    }
  }

  lemma IntegerPrinted(n: Int64, rest: string)
    requires rest == [] || !IsDigit(rest[0])
    ensures IntegerLiteral(IntText(n) + rest) == Match(IntValue(n), rest)
  {
    hide SignedValue, DecimalValue;
    var text := IntText(n);
    var s := text + rest;
    IntRoundTrip(n);
    if n < 0 {
      var digits := Digits(0 - n);
      DigitLengthPrinted(digits, rest);
      assert s[1..] == digits + rest;
      assert SignLength(s) == 1;
    } else {
      DigitLengthPrinted(text, rest);
      assert IsDigit(text[0]);
      assert SignLength(s) == 0 && s[0..] == s;
    }
    assert IntegerLength(s) == |text|;
    Split(text, rest);
  }

  /** Behind a value comes a comma or a closing bracket. */
  predicate EndsValue(rest: string) {
    rest != [] && (rest[0] == ',' || rest[0] == ')')
  }

  lemma ValuePrinted(v: SqlValue, rest: string)
    requires EndsValue(rest)
    ensures Literal(RenderValue(v) + rest) == Match(v, rest)
    ensures RenderValue(v) != "" && !IsSpace(RenderValue(v)[0]) && RenderValue(v)[0] != ')'
  {
    hide EscapeQuotes, StringBody;
    match v
    case IntValue(n) =>
      var d := Digits(if n < 0 then 0 - n else n);
      assert IsDigit(d[0]);
      assert IntText(n)[0] == '-' || IntText(n)[0] == d[0];
      SkipOneSpace(IntText(n) + rest);
      IntegerPrinted(n, rest);
    case StringValue(s) =>
      assert RenderValue(v) + rest == "'" + (EscapeQuotes(s) + ("'" + rest));
      SkipOneSpace(RenderValue(v) + rest);
      StringBodyPrinted(s, rest);
      assert (RenderValue(v) + rest)[1..] == EscapeQuotes(s) + ("'" + rest);
  }

  // ---------- lists ----------

  lemma NamesStart(names: seq<string>, rest: string)
    requires names != [] && IsIdentifier(names[0])
    ensures var s := RenderNames(names) + rest; s != [] && IsIdentStart(s[0])
  {
  }

  lemma CommaSpace(tail: string)
    requires tail == [] || !IsSpace(tail[0])
    ensures SkipSpace(", " + tail) == ", " + tail && SkipSpace((", " + tail)[1..]) == tail
  {
    assert (", " + tail)[1..] == " " + tail;
    SkipOneSpace(tail);
  }

  lemma NamesText(names: seq<string>, rest: string)
    requires |names| > 1
    ensures RenderNames(names) + rest == names[0] + (", " + (RenderNames(names[1..]) + rest))
  {
    Associative(names[0] + ", ", RenderNames(names[1..]), rest);
    Associative(names[0], ", ", RenderNames(names[1..]) + rest);
  }

  lemma ValuesText(values: seq<SqlValue>, rest: string)
    requires |values| > 1
    ensures RenderValues(values) + rest == RenderValue(values[0]) + (", " + (RenderValues(values[1..]) + rest))
  {
    var head, tail := RenderValue(values[0]), RenderValues(values[1..]);
    assert RenderValues(values) == head + ", " + tail;
    Associative(head + ", ", tail, rest);
    Associative(head, ", ", tail + rest);
  }

  /** The next of several columns: an identifier that has not occurred, with columns behind it again. */
  lemma NextColumn(before: seq<string>, names: seq<string>)
    requires names != [] && AreColumns(before + names)
    ensures IsIdentifier(names[0]) && names[0] !in before
    ensures before + [names[0]] + names[1..] == before + names
    ensures |names| > 1 ==> IsIdentifier(names[1..][0])
  {
    var all := before + names;
    assert all[|before|] == names[0];
    assert |names| > 1 ==> all[|before| + 1] == names[1..][0];
    forall i | 0 <= i < |before|
      ensures before[i] != names[0]
    {
      assert all[i] == before[i];
    }
  }

  lemma {:induction false} ColumnsPrinted(names: seq<string>, before: seq<string>, rest: string)
    requires names != [] && AreColumns(before + names)
    ensures ColumnsFrom(RenderNames(names) + (")" + rest), before) == Match(before + names, rest)
    decreases |names|
  {
    NextColumn(before, names);
    if |names| == 1 {
      IdentifierPrinted(names[0], ")" + rest);
      SkipOneSpace(")" + rest);
      assert names == [names[0]];
    } else {
      var tail := RenderNames(names[1..]) + (")" + rest);
      NamesText(names, ")" + rest);
      NamesStart(names[1..], ")" + rest);
      IdentifierPrinted(names[0], ", " + tail);
      CommaSpace(tail);
      ColumnsPrinted(names[1..], before + [names[0]], rest);
    }
  }

  lemma {:induction false} SelectedPrinted(names: seq<string>, before: seq<string>, rest: string)
    requires names != [] && AreColumns(before + names)
    requires rest != [] && !IsIdentChar(rest[0]) && !StartsWith(SkipSpace(rest), ',')
    ensures SelectedFrom(RenderNames(names) + rest, before) == Match(before + names, SkipSpace(rest))
    decreases |names|
  {
    NextColumn(before, names);
    if |names| == 1 {
      IdentifierPrinted(names[0], rest);
      assert names == [names[0]];
    } else {
      var tail := RenderNames(names[1..]) + rest;
      NamesText(names, rest);
      NamesStart(names[1..], rest);
      IdentifierPrinted(names[0], ", " + tail);
      CommaSpace(tail);
      SelectedPrinted(names[1..], before + [names[0]], rest);
    }
  }

  lemma ValuesStart(values: seq<SqlValue>, rest: string)
    requires values != []
    ensures var s := RenderValues(values) + rest; s != [] && !IsSpace(s[0]) && s[0] != ')'
  {
    ValuePrinted(values[0], ")");
  }

  lemma {:induction false} ValuesPrinted(values: seq<SqlValue>, before: seq<SqlValue>, rest: string)
    requires values != []
    ensures ValuesFrom(RenderValues(values) + (")" + rest), before) == Match(before + values, rest)
    decreases |values|
  {
    if |values| == 1 {
      ValuePrinted(values[0], ")" + rest);
      SkipOneSpace(")" + rest);
      assert values == [values[0]];
    } else {
      var tail := RenderValues(values[1..]) + (")" + rest);
      ValuesText(values, ")" + rest);
      ValuesStart(values[1..], ")" + rest);
      ValuePrinted(values[0], ", " + tail);
      CommaSpace(tail);
      ValuesPrinted(values[1..], before + [values[0]], rest);
      assert before + [values[0]] + values[1..] == before + values;
    }
  }

  // ---------- statements ----------

  lemma BracketOpens(body: string)
    requires body != [] && !IsSpace(body[0])
    ensures SkipSpace("(" + body) == "(" + body && SkipSpace(" " + ("(" + body)) == "(" + body
    ensures SkipSpace(("(" + body)[1..]) == body
  {
    SkipOneSpace("(" + body);
    assert ("(" + body)[1..] == body;
  }

  lemma ValueListPrinted(values: seq<SqlValue>, rest: string)
    requires values != []
    ensures ValueList(" (" + (RenderValues(values) + (")" + rest))) == Match(values, rest)
  {
    ValuesPrinted(values, [], rest);
    var body := RenderValues(values) + (")" + rest);
    ValuesStart(values, ")" + rest);
    BracketOpens(body);
    assert " (" == " " + "(";
    Associative(" ", "(", body);
    assert [] + values == values;
  }

  lemma InsertValuesPrinted(name: TableName, columns: seq<string>, values: seq<SqlValue>, s: string, rest: string)
    requires values != [] && (columns == [] || |columns| == |values|)
    requires SkipSpace(s) == "VALUES" + (" (" + (RenderValues(values) + (")" + rest)))
    ensures InsertValues(s, name, columns) == Match(Insert(name.schema, name.table, columns, values), rest)
  {
    var body := " (" + (RenderValues(values) + (")" + rest));
    KeywordPrinted("VALUES", body);
    ValueListPrinted(values, rest);
  }

  lemma ColumnListPrinted(columns: seq<string>, rest: string)
    requires columns != [] && AreColumns(columns)
    ensures ColumnList("(" + (RenderNames(columns) + (")" + rest))) == Match(columns, rest)
  {
    assert [] + columns == columns;
    ColumnsPrinted(columns, [], rest);
    var body := RenderNames(columns) + (")" + rest);
    NamesStart(columns, ")" + rest);
    SkipOneSpace("(" + body);
    SkipOneSpace(body);
    assert ("(" + body)[1..] == body;
  }

  lemma SkipTwice(s: string)
    ensures SkipSpace(SkipSpace(s)) == SkipSpace(s)
  {
  }

  /** What is printed behind the table name of an INSERT, from the column list on */
  function InsertRest(columns: seq<string>, values: seq<SqlValue>, rest: string): string {
    var clause := "VALUES" + (" (" + (RenderValues(values) + (")" + rest)));
    if columns == [] then " " + clause else " " + ("(" + (RenderNames(columns) + (")" + (" " + clause))))
  }

  lemma InsertTailPrinted(name: TableName, columns: seq<string>, values: seq<SqlValue>, s: string, rest: string)
    requires values != [] && AreColumns(columns) && (columns == [] || |columns| == |values|)
    requires SkipSpace(s) == SkipSpace(InsertRest(columns, values, rest))
    ensures InsertTail(s, name) == Match(Insert(name.schema, name.table, columns, values), rest)
  {
    var clause := "VALUES" + (" (" + (RenderValues(values) + (")" + rest)));
    SkipOneSpace(clause);
    if columns == [] {
      InsertValuesPrinted(name, columns, values, clause, rest);
    } else {
      var list := "(" + (RenderNames(columns) + (")" + (" " + clause)));
      SkipOneSpace(list);
      ColumnListPrinted(columns, " " + clause);
      InsertValuesPrinted(name, columns, values, " " + clause, rest);
    }
  }

  lemma InsertPrinted(stmt: Statement, rest: string)
    requires stmt.Insert? && WellFormed(stmt)
    ensures var name := RenderName(stmt.schema, stmt.table);
            InsertBody(" INTO" + (" " + (name + InsertRest(stmt.columns, stmt.values, rest)))) == Match(stmt, rest)
  {
    hide InsertRest, InsertTail;
    var tail := InsertRest(stmt.columns, stmt.values, rest);
    var name := " " + (RenderName(stmt.schema, stmt.table) + tail);
    assert " INTO" + name == " " + ("INTO" + name);
    KeywordPrinted("INTO", name);
    InsertRestStart(stmt.columns, stmt.values, rest);
    NamePrinted(stmt.schema, stmt.table, tail);
    SkipTwice(tail);
    InsertTailPrinted(TableName(stmt.schema, stmt.table), stmt.columns, stmt.values,
                      if stmt.schema.Some? then tail else SkipSpace(tail), rest);
  }

  lemma InsertRestStart(columns: seq<string>, values: seq<SqlValue>, rest: string)
    ensures var tail := InsertRest(columns, values, rest);
            tail != [] && !IsIdentChar(tail[0]) && !StartsWith(SkipSpace(tail), '.')
  {
    var clause := "VALUES" + (" (" + (RenderValues(values) + (")" + rest)));
    if columns == [] {
      SkipOneSpace(clause);
    } else {
      SkipOneSpace("(" + (RenderNames(columns) + (")" + (" " + clause))));
    }
  }

  lemma SelectionPrinted(selectAll: bool, columns: seq<string>, rest: string)
    requires (selectAll <==> columns == []) && AreColumns(columns)
    requires rest != [] && !IsSpace(rest[0]) && rest[0] != ','
    ensures var r := Selection(" " + ((if selectAll then "*" else RenderNames(columns)) + (" " + rest)));
            r.Match? && r.value == columns && SkipSpace(r.rest) == rest
  {
    SkipOneSpace(rest);
    if selectAll {
      SkipOneSpace("*" + (" " + rest));
      assert ("*" + (" " + rest))[1..] == " " + rest;
    } else {
      assert [] + columns == columns;
      NamesStart(columns, " " + rest);
      SkipOneSpace(RenderNames(columns) + (" " + rest));
      SelectedPrinted(columns, [], " " + rest);
    }
  }

  lemma SelectPrinted(stmt: Statement, rest: string)
    requires stmt.Select? && WellFormed(stmt)
    requires StartsWith(rest, ';')
    ensures var tail := "FROM" + (" " + (RenderName(stmt.schema, stmt.table) + rest));
            SelectBody(" " + ((if stmt.selectAll then "*" else RenderNames(stmt.columns)) + (" " + tail)))
            == Match(stmt, rest)
  {
    var name := " " + (RenderName(stmt.schema, stmt.table) + rest);
    SelectionPrinted(stmt.selectAll, stmt.columns, "FROM" + name);
    var r := Selection(" " + ((if stmt.selectAll then "*" else RenderNames(stmt.columns)) + (" " + ("FROM" + name))));
    KeywordPrinted("FROM", name);
    SkipOneSpace(rest);
    SkipOneSpace("FROM" + name);
    NamePrinted(stmt.schema, stmt.table, rest);
  }

  lemma SelectText(columns: string, name: string, rest: string)
    ensures "SELECT " + columns + " FROM " + name + rest
         == "SELECT" + (" " + (columns + (" " + ("FROM" + (" " + (name + rest))))))
  {
    assert "SELECT " == "SELECT" + " ";
    assert " FROM " == " " + "FROM" + " ";
  }

  lemma ValuesClause(values: string, rest: string)
    ensures "VALUES (" + values + ")" + rest == "VALUES" + (" (" + (values + (")" + rest)))
  {
    assert "VALUES (" == "VALUES" + " (";
  }

  lemma ColumnsClause(columns: seq<string>, clause: string)
    ensures RenderColumns(columns) + clause ==
            if columns == [] then " " + clause else " " + ("(" + (RenderNames(columns) + (")" + (" " + clause))))
  {
    if columns != [] {
      hide RenderNames;
      var names := RenderNames(columns);
      assert " (" + names == " " + ("(" + names) && ") " == ")" + " ";
      Associative("(", names, ") " + clause);
      Associative(names, ")", " " + clause);
      Associative(" (", names, ") ");
    }
  }

  lemma Regroup(a: string, b: string, c: string, d: string, e: string, f: string, g: string, h: string, i: string)
    ensures a + b + c + d + e + f + g + h + i == a + (b + (c + (d + (e + (f + g + h + i)))))
  {
  }

  lemma InsertText(name: string, columns: seq<string>, values: seq<SqlValue>, rest: string)
    ensures "INSERT INTO " + name + RenderColumns(columns) + "VALUES (" + RenderValues(values) + ")" + rest
         == "INSERT" + (" INTO" + (" " + (name + InsertRest(columns, values, rest))))
  {
    var vals := RenderValues(values);
    ValuesClause(vals, rest);
    ColumnsClause(columns, "VALUES (" + vals + ")" + rest);
    Regroup("INSERT", " INTO", " ", name, RenderColumns(columns), "VALUES (", vals, ")", rest);
    assert "INSERT INTO " == "INSERT" + " INTO" + " ";
  }

  lemma StatementPrinted(stmt: Statement, rest: string)
    requires WellFormed(stmt) && StartsWith(rest, ';')
    ensures StatementAt(RenderStatement(stmt) + rest) == Match(stmt, rest)
    ensures RenderStatement(stmt) != "" && !IsSpace(RenderStatement(stmt)[0]) && RenderStatement(stmt)[0] != BOM[0]
  {
    var s := RenderStatement(stmt) + rest;
    match stmt
    case Insert(schema, table, columns, values) =>
      var body := " INTO" + (" " + (RenderName(schema, table) + InsertRest(columns, values, rest)));
      InsertText(RenderName(schema, table), columns, values, rest);
      KeywordPrinted("INSERT", body);
      SkipOneSpace(s);
      InsertPrinted(stmt, rest);
    case Select(schema, table, selectAll, columns) =>
      var tail := "FROM" + (" " + (RenderName(schema, table) + rest));
      var body := " " + ((if selectAll then "*" else RenderNames(columns)) + (" " + tail));
      SelectText(if selectAll then "*" else RenderNames(columns), RenderName(schema, table), rest);
      KeywordPrinted("SELECT", body);
      SkipOneSpace(s);
      assert ToLower(s[0]) != ToLower("INSERT"[0]);
      SelectPrinted(stmt, rest);
  }

  lemma TerminatedPrinted(stmt: Statement, rest: string)
    requires WellFormed(stmt)
    ensures TerminatedStatement(RenderStatement(stmt) + (";" + rest)) == Match(stmt, rest)
    ensures SkipSpace(RenderStatement(stmt) + (";" + rest)) == RenderStatement(stmt) + (";" + rest) != []
  {
    StatementPrinted(stmt, ";" + rest);
    SkipOneSpace(RenderStatement(stmt) + (";" + rest));
    SkipOneSpace(";" + rest);
    assert (";" + rest)[1..] == rest;
  }

  lemma RenderFirst(script: seq<Statement>)
    requires script != []
    ensures RenderScript(script) == RenderStatement(script[0]) + (";" + ("\n" + RenderScript(script[1..])))
  {
    assert ";\n" == ";" + "\n";
  }

  /** The white space between statements is skipped. */
  lemma NewlineSkipped(s: string, script: seq<Statement>)
    ensures StatementsFrom("\n" + s, script) == StatementsFrom(s, script)
  {
    assert ("\n" + s)[1..] == s;
    assert SkipSpace("\n" + s) == SkipSpace(s);
  }

  lemma FirstStatementPrinted(stmt: Statement, rest: string, before: seq<Statement>)
    requires WellFormed(stmt)
    ensures StatementsFrom(RenderStatement(stmt) + (";" + rest), before) == StatementsFrom(rest, before + [stmt])
  {
    TerminatedPrinted(stmt, rest);
  }

  lemma StatementsStep(script: seq<Statement>, before: seq<Statement>)
    requires script != [] && WellFormed(script[0])
    ensures StatementsFrom(RenderScript(script), before)
         == StatementsFrom(RenderScript(script[1..]), before + [script[0]])
  {
    RenderFirst(script);
    FirstStatementPrinted(script[0], "\n" + RenderScript(script[1..]), before);
    NewlineSkipped(RenderScript(script[1..]), before + [script[0]]);
  }

  /** A loop that takes one printed statement a round takes them all. */
  lemma {:induction false} RoundsTakeAll(loop: (string, seq<Statement>) -> Parsed<seq<Statement>>,
                                         script: seq<Statement>, k: nat, before: seq<Statement>)
    requires k <= |script|
    requires forall b :: loop(RenderScript([]), b) == Match(b, [])
    requires forall i, b :: 0 <= i < |script| ==>
               loop(RenderScript(script[i..]), b) == loop(RenderScript(script[i + 1..]), b + [script[i]])
    ensures loop(RenderScript(script[k..]), before) == Match(before + script[k..], [])
    decreases |script| - k
  {
    hide RenderScript;
    if k == |script| {
      assert script[k..] == [] && before + [] == before;
    } else {
      RoundsTakeAll(loop, script, k + 1, before + [script[k]]);
      Associative(before, [script[k]], script[k + 1..]);
      assert script[k..] == [script[k]] + script[k + 1..];
    }
  }

  lemma StatementsPrinted(script: seq<Statement>)
    requires forall i :: 0 <= i < |script| ==> WellFormed(script[i])
    ensures StatementsFrom(RenderScript(script), []) == Match(script, [])
  {
    forall i, b: seq<Statement> | 0 <= i < |script|
      ensures StatementsFrom(RenderScript(script[i..]), b)
           == StatementsFrom(RenderScript(script[i + 1..]), b + [script[i]])
    {
      StatementsStep(script[i..], b);
      assert script[i..][1..] == script[i + 1..];
    }
    RoundsTakeAll(StatementsFrom, script, 0, []);
    assert script[0..] == script && [] + script == script;
  }

  /** Parsing the canonical rendering of a well-formed script gives exactly that script back: names equal to
      keywords, any string, any 64-bit integer, optional schema and column list included. */
  lemma ScriptRoundTrip(script: seq<Statement>)
    requires script != [] && forall i :: 0 <= i < |script| ==> WellFormed(script[i])
    ensures ParseScript(RenderScript(script)) == Match(script, [])
  {
    StatementsPrinted(script);
    StatementPrinted(script[0], ";");
    assert RenderScript(script)[0] == RenderStatement(script[0])[0];
    assert !HasBom(RenderScript(script));
  }

  /** Rendering loses nothing: different well-formed scripts have different renderings. */
  lemma RenderingIsInjective(a: seq<Statement>, b: seq<Statement>)
    requires a != [] && forall i :: 0 <= i < |a| ==> WellFormed(a[i])
    requires b != [] && forall i :: 0 <= i < |b| ==> WellFormed(b[i])
    requires RenderScript(a) == RenderScript(b)
    ensures a == b
  {
    ScriptRoundTrip(a);
    ScriptRoundTrip(b);
  }

  /** What is accepted survives printing: parse, render, parse gives the same script. */
  lemma ParsePrintParse(sql: string)
    requires ParseScript(sql).Match?
    ensures ParseScript(RenderScript(ParseScript(sql).value)) == Match(ParseScript(sql).value, [])
  {
    ParserIsSound(sql);
    ScriptRoundTrip(ParseScript(sql).value);
  }
}
