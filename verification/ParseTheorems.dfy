/** What holds of everything the parser accepts, and how it behaves when one input follows another. */
module ParseTheorems {
  import opened SqlTypes
  import opened Grammar

  // ---------- soundness ----------

  predicate AreColumns(names: seq<string>) {
    Distinct(names) && forall i :: 0 <= i < |names| ==> IsIdentifier(names[i])
  }

  predicate NameIsSound(name: TableName) {
    IsIdentifier(name.table) && (name.schema.Some? ==> IsIdentifier(name.schema.value))
  }

  lemma ColumnsGrow(names: seq<string>, name: string)
    requires AreColumns(names) && IsIdentifier(name) && name !in names
    ensures AreColumns(names + [name])
  {
  }

  lemma {:induction false} ColumnsFromSound(s: string, names: seq<string>)
    requires AreColumns(names)
    ensures ColumnsFrom(s, names).Match? ==>
              AreColumns(ColumnsFrom(s, names).value) && ColumnsFrom(s, names).value != []
    decreases |s|
  {
    var id := Identifier(s);
    if id.Match? && id.value !in names {
      ColumnsGrow(names, id.value);
      var t := SkipSpace(id.rest);
      if StartsWith(t, ',') { ColumnsFromSound(SkipSpace(t[1..]), names + [id.value]); }
    }
  }

  lemma {:induction false} SelectedFromSound(s: string, names: seq<string>)
    requires AreColumns(names)
    ensures SelectedFrom(s, names).Match? ==>
              AreColumns(SelectedFrom(s, names).value) && SelectedFrom(s, names).value != []
    decreases |s|
  {
    var id := Identifier(s);
    if id.Match? && id.value !in names {
      ColumnsGrow(names, id.value);
      var t := SkipSpace(id.rest);
      if StartsWith(t, ',') { SelectedFromSound(SkipSpace(t[1..]), names + [id.value]); }
    }
  }

  lemma {:induction false} ValuesFromSound(s: string, values: seq<SqlValue>)
    ensures ValuesFrom(s, values).Match? ==> ValuesFrom(s, values).value != []
    decreases |s|
  {
    var value := Literal(s);
    if value.Match? {
      var t := SkipSpace(value.rest);
      if StartsWith(t, ',') { ValuesFromSound(SkipSpace(t[1..]), values + [value.value]); }
    }
  }

  lemma NameSound(s: string)
    ensures QualifiedName(s).Match? ==> NameIsSound(QualifiedName(s).value)
  {
  }

  lemma OptionalColumnsSound(s: string)
    ensures OptionalColumns(s).Match? ==> AreColumns(OptionalColumns(s).value)
  {
    var t := SkipSpace(s);
    if StartsWith(t, '(') {
      var t' := SkipSpace(t);
      ColumnsFromSound(SkipSpace(t'[1..]), []);
    }
  }

  lemma InsertValuesSound(s: string, name: TableName, columns: seq<string>)
    requires NameIsSound(name) && AreColumns(columns)
    ensures InsertValues(s, name, columns).Match? ==> WellFormed(InsertValues(s, name, columns).value)
  {
    var keyword := Keyword(s, "VALUES");
    if keyword.Match? {
      var t := SkipSpace(keyword.rest);
      if StartsWith(t, '(') { ValuesFromSound(SkipSpace(t[1..]), []); }
    }
  }

  lemma InsertSound(s: string)
    ensures InsertBody(s).Match? ==> WellFormed(InsertBody(s).value)
  {
    var keyword := Keyword(s, "INTO");
    if keyword.Match? && QualifiedName(keyword.rest).Match? {
      NameSound(keyword.rest);
      var name, rest := QualifiedName(keyword.rest).value, QualifiedName(keyword.rest).rest;
      OptionalColumnsSound(rest);
      if OptionalColumns(rest).Match? {
        InsertValuesSound(OptionalColumns(rest).rest, name, OptionalColumns(rest).value);
      }
    }
  }

  lemma SelectSound(s: string)
    ensures SelectBody(s).Match? ==> WellFormed(SelectBody(s).value)
  {
    var selection := Selection(s);
    SelectedFromSound(SkipSpace(s), []);
    if selection.Match? && Keyword(selection.rest, "FROM").Match? {
      NameSound(Keyword(selection.rest, "FROM").rest);
    }
  }

  lemma TerminatedSound(s: string)
    ensures TerminatedStatement(s).Match? ==> WellFormed(TerminatedStatement(s).value)
  {
    var u := SkipSpace(s);
    if KeywordAt(u, "INSERT") {
      InsertSound(u[6..]);
    } else if KeywordAt(u, "SELECT") {
      SelectSound(u[6..]);
    }
  }

  ghost predicate AllWellFormed(script: seq<Statement>) {
    forall i :: 0 <= i < |script| ==> WellFormed(script[i])
  }

  lemma AllWellFormedGrows(script: seq<Statement>, stmt: Statement)
    requires AllWellFormed(script) && WellFormed(stmt)
    ensures AllWellFormed(script + [stmt])
  {
  }

  lemma {:induction false} StatementsSound(s: string, script: seq<Statement>)
    requires AllWellFormed(script)
    ensures StatementsFrom(s, script).Match? ==> AllWellFormed(StatementsFrom(s, script).value)
    decreases |s|
  {
    var t := SkipSpace(s);
    if t != [] {
      var r := TerminatedStatement(t);
      TerminatedSound(t);
      if r.Match? {
        AllWellFormedGrows(script, r.value);
        StatementsSound(r.rest, script + [r.value]);
      }
    }
  }

  /** Every accepted script is non-empty, and each statement has well-shaped names, distinct columns,
      matching counts and (by the type of IntValue) integers in range. */
  lemma ParserIsSound(sql: string)
    requires ParseScript(sql).Match?
    ensures ParseScript(sql).value != []
    ensures forall i :: 0 <= i < |ParseScript(sql).value| ==> WellFormed(ParseScript(sql).value[i])
  {
    StatementsSound(StripBom(sql), []);
  }

  // ---------- keywords ----------

  /** The same letter in either case, or the same byte. */
  predicate SameLetter(a: char, b: char) {
    || a == b
    || ('A' <= a <= 'Z' && b as int - 'a' as int == a as int - 'A' as int)
    || ('A' <= b <= 'Z' && a as int - 'a' as int == b as int - 'A' as int)
  }

  lemma LowerMeansSameLetter(a: char, b: char)
    ensures ToLower(a) == ToLower(b) <==> SameLetter(a, b)
  {
  }

  /** A keyword is accepted in any mixture of cases, and nothing else is, when no identifier goes on
      behind it. */
  lemma KeywordAnyCase(spelled: string, keyword: string, rest: string)
    requires spelled != "" && |spelled| == |keyword| && !IsSpace(spelled[0])
    ensures Keyword(spelled + rest, keyword) == Match((), rest)
       <==> (forall i :: 0 <= i < |keyword| ==> SameLetter(spelled[i], keyword[i]))
            && (rest == "" || !IsIdentChar(rest[0]))
  {
    var s := spelled + rest;
    Split(spelled, rest);
    assert s[0] == spelled[0] && SkipSpace(s) == s;
    assert forall i :: 0 <= i < |keyword| ==> s[i] == spelled[i];
    forall i | 0 <= i < |keyword|
      ensures ToLower(spelled[i]) == ToLower(keyword[i]) <==> SameLetter(spelled[i], keyword[i])
    {
      LowerMeansSameLetter(spelled[i], keyword[i]);
    }
  }

  // ---------- more input behind an accepted one ----------

  /** An answer that left unread input stays the same when more input follows. */
  ghost predicate Stable<T>(r: Parsed<T>, extended: Parsed<T>, t: string) {
    r.Match? && r.rest != [] ==> extended == Match(r.value, r.rest + t)
  }

  lemma {:induction false} SkipSpaceExtends(s: string, t: string)
    ensures SkipSpace(s + t) == if SkipSpace(s) == [] then SkipSpace(t) else SkipSpace(s) + t
  {
    if s == [] {
      assert s + t == t;
    } else if IsSpace(s[0]) {
      assert (s + t)[1..] == s[1..] + t;
      SkipSpaceExtends(s[1..], t);
    }
  }

  lemma KeywordAtExtends(s: string, keyword: string, t: string)
    requires |keyword| < |s|
    ensures KeywordAt(s + t, keyword) <==> KeywordAt(s, keyword)
  {
    assert forall i :: 0 <= i < |s| ==> (s + t)[i] == s[i];
  }

  lemma KeywordExtends(s: string, keyword: string, t: string)
    requires keyword != ""
    ensures Stable(Keyword(s, keyword), Keyword(s + t, keyword), t)
  {
    SkipSpaceExtends(s, t);
    var u := SkipSpace(s);
    if |keyword| < |u| {
      KeywordAtExtends(u, keyword, t);
      assert (u + t)[|keyword|..] == u[|keyword|..] + t;
    }
  }

  lemma {:induction false} IdentLengthExtends(s: string, t: string)
    requires IdentLength(s) < |s|
    ensures IdentLength(s + t) == IdentLength(s)
  {
    if IsIdentChar(s[0]) {
      assert (s + t)[1..] == s[1..] + t;
      IdentLengthExtends(s[1..], t);
    }
  }

  lemma IdentifierExtends(s: string, t: string)
    ensures Stable(Identifier(s), Identifier(s + t), t)
  {
    SkipSpaceExtends(s, t);
    var u := SkipSpace(s);
    if u != [] && IsIdentStart(u[0]) && IdentLength(u) < |u| {
      IdentLengthExtends(u, t);
      var n := IdentLength(u);
      SliceOfConcat(u, t, n);
    }
  }

  lemma DropHead(s: string, t: string)
    requires s != []
    ensures (s + t)[1..] == s[1..] + t && (s + t)[0] == s[0]
  {
  }

  lemma NameExtends(s: string, t: string)
    ensures Stable(QualifiedName(s), QualifiedName(s + t), t)
  {
    var r := QualifiedName(s);
    if r.Match? && r.rest != [] {
      IdentifierExtends(s, t);
      var rest := Identifier(s).rest;
      SkipSpaceExtends(rest, t);
      var u := SkipSpace(rest);
      if StartsWith(u, '.') {
        DropHead(u, t);
        IdentifierExtends(u[1..], t);
      }
    }
  }

  lemma {:induction false} DigitLengthExtends(s: string, t: string)
    requires DigitLength(s) < |s|
    ensures DigitLength(s + t) == DigitLength(s)
  {
    if IsDigit(s[0]) {
      assert (s + t)[1..] == s[1..] + t;
      DigitLengthExtends(s[1..], t);
    }
  }

  lemma IntegerExtends(s: string, t: string)
    requires s != []
    ensures Stable(IntegerLiteral(s), IntegerLiteral(s + t), t)
  {
    var n := IntegerLength(s);
    if 0 < n < |s| {
      var k := SignLength(s);
      SliceOfConcat(s, t, k);
      DigitLengthExtends(s[k..], t);
      SliceOfConcat(s, t, n);
      assert IntegerLength(s + t) == n;
    }
  }

  lemma {:induction false} StringBodyExtends(s: string, t: string)
    ensures Stable(StringBody(s), StringBody(s + t), t)
    decreases |s|
  {
    if s != [] {
      assert (s + t)[0] == s[0] && (s + t)[1..] == s[1..] + t;
      if s[0] != '\'' {
        StringBodyExtends(s[1..], t);
      } else if |s| > 1 && s[1] == '\'' {
        assert (s + t)[2..] == s[2..] + t;
        StringBodyExtends(s[2..], t);
      }
    }
  }

  lemma LiteralExtends(s: string, t: string)
    ensures Stable(Literal(s), Literal(s + t), t)
  {
    SkipSpaceExtends(s, t);
    var u := SkipSpace(s);
    if u != [] {
      DropHead(u, t);
      StringBodyExtends(u[1..], t);
      IntegerExtends(u, t);
    }
  }

  lemma {:induction false} ColumnsFromExtends(s: string, names: seq<string>, t: string)
    ensures Stable(ColumnsFrom(s, names), ColumnsFrom(s + t, names), t)
    decreases |s|
  {
    var r := ColumnsFrom(s, names);
    if r.Match? && r.rest != [] {
      IdentifierExtends(s, t);
      var name, rest := Identifier(s).value, Identifier(s).rest;
      SkipSpaceExtends(rest, t);
      var u := SkipSpace(rest);
      DropHead(u, t);
      if StartsWith(u, ',') {
        SkipSpaceExtends(u[1..], t);
        var v := SkipSpace(u[1..]);
        ColumnsFromExtends(v, names + [name], t);
      }
    }
  }

  lemma ColumnListExtends(s: string, t: string)
    ensures Stable(ColumnList(s), ColumnList(s + t), t)
  {
    var r := ColumnList(s);
    if r.Match? && r.rest != [] {
      SkipSpaceExtends(s, t);
      var u := SkipSpace(s);
      DropHead(u, t);
      SkipSpaceExtends(u[1..], t);
      ColumnsFromExtends(SkipSpace(u[1..]), [], t);
    }
  }

  lemma {:induction false} SelectedFromExtends(s: string, names: seq<string>, t: string)
    ensures Stable(SelectedFrom(s, names), SelectedFrom(s + t, names), t)
    decreases |s|
  {
    var r := SelectedFrom(s, names);
    if r.Match? && r.rest != [] {
      IdentifierExtends(s, t);
      var name, rest := Identifier(s).value, Identifier(s).rest;
      SkipSpaceExtends(rest, t);
      var u := SkipSpace(rest);
      DropHead(u, t);
      if StartsWith(u, ',') {
        SkipSpaceExtends(u[1..], t);
        var v := SkipSpace(u[1..]);
        SelectedFromExtends(v, names + [name], t);
      }
    }
  }

  lemma {:induction false} ValuesFromExtends(s: string, values: seq<SqlValue>, t: string)
    ensures Stable(ValuesFrom(s, values), ValuesFrom(s + t, values), t)
    decreases |s|
  {
    var r := ValuesFrom(s, values);
    if r.Match? && r.rest != [] {
      LiteralExtends(s, t);
      var value, rest := Literal(s).value, Literal(s).rest;
      SkipSpaceExtends(rest, t);
      var u := SkipSpace(rest);
      DropHead(u, t);
      if StartsWith(u, ',') {
        SkipSpaceExtends(u[1..], t);
        var v := SkipSpace(u[1..]);
        ValuesFromExtends(v, values + [value], t);
      }
    }
  }

  lemma ValueListExtends(s: string, t: string)
    ensures Stable(ValueList(s), ValueList(s + t), t)
  {
    var r := ValueList(s);
    if r.Match? && r.rest != [] {
      SkipSpaceExtends(s, t);
      var u := SkipSpace(s);
      DropHead(u, t);
      SkipSpaceExtends(u[1..], t);
      ValuesFromExtends(SkipSpace(u[1..]), [], t);
    }
  }

  lemma OptionalColumnsExtends(s: string, t: string)
    ensures Stable(OptionalColumns(s), OptionalColumns(s + t), t)
  {
    SkipSpaceExtends(s, t);
    ColumnListExtends(SkipSpace(s), t);
  }

  lemma InsertValuesExtends(s: string, name: TableName, columns: seq<string>, t: string)
    ensures Stable(InsertValues(s, name, columns), InsertValues(s + t, name, columns), t)
  {
    var r := InsertValues(s, name, columns);
    if r.Match? && r.rest != [] {
      KeywordExtends(s, "VALUES", t);
      ValueListExtends(Keyword(s, "VALUES").rest, t);
    }
  }

  lemma InsertExtends(s: string, t: string)
    ensures Stable(InsertBody(s), InsertBody(s + t), t)
  {
    var r := InsertBody(s);
    if r.Match? && r.rest != [] {
      KeywordExtends(s, "INTO", t);
      var afterInto := Keyword(s, "INTO").rest;
      NameExtends(afterInto, t);
      var name, afterName := QualifiedName(afterInto).value, QualifiedName(afterInto).rest;
      OptionalColumnsExtends(afterName, t);
      var columns, afterColumns := OptionalColumns(afterName).value, OptionalColumns(afterName).rest;
      InsertValuesExtends(afterColumns, name, columns, t);
    }
  }

  lemma SelectionExtends(s: string, t: string)
    ensures Stable(Selection(s), Selection(s + t), t)
  {
    SkipSpaceExtends(s, t);
    var u := SkipSpace(s);
    if u != [] {
      DropHead(u, t);
      SelectedFromExtends(u, [], t);
    }
  }

  lemma SelectExtends(s: string, t: string)
    ensures Stable(SelectBody(s), SelectBody(s + t), t)
  {
    var r := SelectBody(s);
    if r.Match? && r.rest != [] {
      SelectionExtends(s, t);
      var rest := Selection(s).rest;
      KeywordExtends(rest, "FROM", t);
      NameExtends(Keyword(rest, "FROM").rest, t);
    }
  }

  lemma InsertStatementExtends(u: string, t: string)
    requires u != [] && !IsSpace(u[0]) && |u| > 6 && KeywordAt(u, "INSERT")
    ensures Stable(StatementAt(u), StatementAt(u + t), t)
  {
    SkipSpaceExtends(u, t);
    KeywordAtExtends(u, "INSERT", t);
    assert (u + t)[6..] == u[6..] + t;
    InsertExtends(u[6..], t);
  }

  lemma SelectStatementExtends(u: string, t: string)
    requires u != [] && !IsSpace(u[0]) && |u| > 6 && !KeywordAt(u, "INSERT") && KeywordAt(u, "SELECT")
    ensures Stable(StatementAt(u), StatementAt(u + t), t)
  {
    SkipSpaceExtends(u, t);
    KeywordAtExtends(u, "INSERT", t);
    KeywordAtExtends(u, "SELECT", t);
    assert (u + t)[6..] == u[6..] + t;
    SelectExtends(u[6..], t);
  }

  lemma StatementAtSkips(s: string)
    ensures StatementAt(SkipSpace(s)) == StatementAt(s)
  {
    assert SkipSpace(SkipSpace(s)) == SkipSpace(s);
  }

  lemma StatementExtends(s: string, t: string)
    ensures Stable(StatementAt(s), StatementAt(s + t), t)
  {
    var u := SkipSpace(s);
    if StatementAt(s).Match? && StatementAt(s).rest != [] {
      SkipSpaceExtends(s, t);
      SkipSpaceExtends(u, t);
      StatementAtSkips(s);
      StatementAtSkips(s + t);
      StatementAtSkips(u + t);
      if KeywordAt(u, "INSERT") {
        InsertStatementExtends(u, t);
      } else {
        SelectStatementExtends(u, t);
      }
    }
  }

  lemma TerminatedExtends(s: string, t: string)
    requires TerminatedStatement(s).Match?
    ensures TerminatedStatement(s + t) == Match(TerminatedStatement(s).value, TerminatedStatement(s).rest + t)
  {
    StatementExtends(s, t);
    var rest := StatementAt(s).rest;
    SkipSpaceExtends(rest, t);
    DropHead(SkipSpace(rest), t);
  }

  /** The statement loop over s and then t is the loop over t with the statements of s already read. */
  lemma {:induction false} StatementsExtend(s: string, t: string, script: seq<Statement>)
    requires StatementsFrom(s, script).Match?
    ensures StatementsFrom(s + t, script) == StatementsFrom(t, StatementsFrom(s, script).value)
    decreases |s|
  {
    SkipSpaceExtends(s, t);
    var u := SkipSpace(s);
    if u != [] {
      TerminatedExtends(u, t);
      var stmt, rest := TerminatedStatement(u).value, TerminatedStatement(u).rest;
      StatementsExtend(rest, t, script + [stmt]);
    }
  }

  lemma {:induction false} StatementsAppend(s: string, before: seq<Statement>, script: seq<Statement>)
    ensures match StatementsFrom(s, script)
            case Fail(code, rest) => StatementsFrom(s, before + script) == Fail(code, rest)
            case Match(all, rest) => StatementsFrom(s, before + script) == Match(before + all, rest)
    decreases |s|
  {
    var u := SkipSpace(s);
    if u != [] && TerminatedStatement(u).Match? {
      var stmt, rest := TerminatedStatement(u).value, TerminatedStatement(u).rest;
      StatementsAppend(rest, before, script + [stmt]);
      assert before + (script + [stmt]) == before + script + [stmt];
    }
  }

  lemma BomIsNoStatement(s: string, script: seq<Statement>)
    requires HasBom(s)
    ensures StatementsFrom(s, script).Fail?
  {
    assert BOM[0] == '\U{EF}';
    assert s[0] == BOM[0];
    assert SkipSpace(s) == s;
    assert ToLower("INSERT"[0]) == 'i' && ToLower("SELECT"[0]) == 's';
  }

  /** Accepted input is longer than a byte order mark, so following input cannot complete one. */
  lemma AcceptedIsLong(sql: string)
    requires ParseScript(sql).Match?
    ensures |sql| >= 3
  {
    var s := SkipSpace(StripBom(sql));
    assert s != [];
    assert TerminatedStatement(s).Match?;
    assert |SkipSpace(s)| >= 6;
  }

  lemma StripBomConcat(a: string, b: string)
    requires |a| >= 3
    ensures StripBom(a + b) == StripBom(a) + b
  {
    assert HasBom(a + b) <==> a[..3] == BOM by { assert (a + b)[..3] == a[..3]; }
    assert HasBom(a) <==> a[..3] == BOM;
    assert (a + b)[3..] == a[3..] + b;
  }

  /** Two accepted inputs in a row parse to their statement lists in a row exactly when the second has no
      byte order mark; with one, the whole is refused. */
  lemma ConcatenatedInputs(a: string, b: string)
    requires ParseScript(a).Match? && ParseScript(b).Match?
    ensures if HasBom(b) then ParseScript(a + b).Fail?
            else ParseScript(a + b) == Match(ParseScript(a).value + ParseScript(b).value, [])
  {
    AcceptedIsLong(a);
    StripBomConcat(a, b);
    var script := ParseScript(a).value;
    StatementsExtend(StripBom(a), b, []);
    if HasBom(b) {
      BomIsNoStatement(b, script);
    } else {
      StatementsAppend(b, script, []);
      assert script + [] == script;
      assert script + ParseScript(b).value != [];
    }
  }

  /** Behind an accepted input the first error decides, with its code and the input from its position on; white space
      changes nothing. */
  lemma ErrorBehindAccepted(a: string, b: string)
    requires ParseScript(a).Match? && ParseScript(b).Fail? && !HasBom(b)
    ensures ParseScript(a + b) == if SkipSpace(b) == [] then ParseScript(a) else ParseScript(b)
  {
    AcceptedIsLong(a);
    StripBomConcat(a, b);
    var script := ParseScript(a).value;
    StatementsExtend(StripBom(a), b, []);
    StatementsAppend(b, script, []);
    assert script + [] == script;
    if SkipSpace(b) != [] && StatementsFrom(b, []).Match? { StatementsGrow(b); }
  }

  lemma StatementsGrow(s: string)
    requires SkipSpace(s) != [] && StatementsFrom(s, []).Match?
    ensures StatementsFrom(s, []).value != []
  {
    hide TerminatedStatement;
    var t := SkipSpace(s);
    var stmt, rest := TerminatedStatement(t).value, TerminatedStatement(t).rest;
    assert [] + [stmt] == [stmt] == [stmt] + [];
    assert StatementsFrom(s, []) == StatementsFrom(rest, [stmt]);
    StatementsAppend(rest, [stmt], []);
  }
}
