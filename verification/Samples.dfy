/** The queries and the data that come with the engine. */
module Samples {
  import opened SqlTypes
  import opened Decimal
  import opened Csv
  import opened Schema
  import opened SchemaFiles
  import opened Storage
  import opened StorageTheorems
  import opened Files
  import opened Semantics
  import opened Grammar
  import opened RoundTrip
  import opened EndToEnd
  import opened Inserts
  import opened Statements
  import opened FreshTable

  const ID := Column("id", IntColumn)
  const NAME := Column("name", StringColumn)
  const AGE := Column("age", IntColumn)
  const USERS := [ID, NAME, AGE]

  // data/users.csv and data/users.schema.csv
  const USERS_CSV := "id,name,age\n" + ("1,\"alice\",20" + "\n")
  const USERS_SCHEMA := "name,type\n" + ("id,INT\n" + ("name,STRING\n" + "age,INT\n"))
  const SHIPPED := map["users.csv" := USERS_CSV, "users.schema.csv" := USERS_SCHEMA]

  // queries/script_users_roundtrip.sql and queries/insert_users_with_columns.sql
  const BOB_LINE := "INSERT INTO users (id, name, age) VALUES (2, 'bob', 30)" + ";\n"
  const SELECT_LINE := "SELECT name, age FROM users" + ";\n"
  const ROUNDTRIP := BOB_LINE + SELECT_LINE
  const WITH_COLUMNS := "INSERT INTO users (name, id, age) VALUES ('bob', 2, 30)" + ";\n"

  const ALICE: seq<SqlValue> := [IntValue(1), StringValue("alice"), IntValue(20)]
  const BOB: seq<SqlValue> := [IntValue(2), StringValue("bob"), IntValue(30)]

  const INSERT_BOB := Insert(None, "users", ["id", "name", "age"], BOB)
  const SELECT_NAMES := Select(None, "users", false, ["name", "age"])
  const REORDERED := Insert(None, "users", ["name", "id", "age"], [BOB[1], BOB[0], BOB[2]])

  lemma UsersIsSchema()
    ensures ValidSchema(USERS) && Names(USERS) == ["id", "name", "age"]
    ensures forall i :: 0 <= i < |USERS| ==> IsIdentifier(USERS[i].name)
    ensures IdentifierName(None, "users")
    ensures |USERS| == |ALICE| == |BOB| && TypesMatch(USERS, ALICE) && TypesMatch(USERS, BOB)
  {
    assert "id"[0] != "name"[0] && "id"[0] != "age"[0] && "name"[0] != "age"[0];
  }

  lemma SchemaLoads()
    ensures LoadSchema(USERS_SCHEMA) == Ok(USERS)
  {
    hide LoadSchema, RenderCells;
    var names, types := [Plain("id"), Plain("name"), Plain("age")], ["INT", "STRING", "INT"];
    UsersIsSchema();
    assert SpellsType("INT", IntColumn) && SpellsType("STRING", StringColumn);
    WrittenSchemaLoads(USERS, names, types);
    forall i | 0 <= i < |USERS|
      ensures !HasBom(USERS[i].name)
    {
      IdentifierIsPlain(USERS[i].name);
    }
    LinesAre(names, types);
  }

  lemma LinesAre(names: seq<Cell>, types: seq<string>)
    requires names == [Plain("id"), Plain("name"), Plain("age")] && types == ["INT", "STRING", "INT"]
    ensures RenderRecords(["name,type"] + ColumnLines(names, types)) == USERS_SCHEMA
  {
    hide RenderRecords, RenderCells, ColumnLine;
    LineIs("id", "INT");
    LineIs("name", "STRING");
    LineIs("age", "INT");
    TwoParts();
    assert ["name,type"] + ColumnLines(names, types) == ["name,type", "id,INT", "name,STRING", "age,INT"];
    FourLines("name,type", "id,INT", "name,STRING", "age,INT");
  }

  lemma TwoParts()
    ensures "id" + "," + "INT" == "id,INT" && "name" + "," + "STRING" == "name,STRING"
    ensures "age" + "," + "INT" == "age,INT"
    ensures "name,type" + "\n" == "name,type\n" && "id,INT" + "\n" == "id,INT\n"
    ensures "name,STRING" + "\n" == "name,STRING\n" && "age,INT" + "\n" == "age,INT\n"
  {
  }

  lemma LineIs(name: string, t: string)
    ensures ColumnLine(Plain(name), t) == name + "," + t
  {
    var cells := [Plain(name), Plain(t)];
    assert cells[1..] == [Plain(t)];
    assert RenderCells(cells) == RenderCell(cells[0]) + "," + RenderCells(cells[1..]);
  }

  lemma FourLines(a: string, b: string, c: string, d: string)
    ensures RenderRecords([a, b, c, d]) == a + "\n" + (b + "\n" + (c + "\n" + (d + "\n")))
  {
    hide RenderRecords;
    LineFirst(a, [b, c, d]);
    LineFirst(b, [c, d]);
    LineFirst(c, [d]);
    LineFirst(d, []);
    assert [a] + [b, c, d] == [a, b, c, d] && [b] + [c, d] == [b, c, d] && [c] + [d] == [c, d] && [d] + [] == [d];
    assert d + "\n" + "" == d + "\n";
  }

  lemma LineFirst(line: string, lines: seq<string>)
    ensures RenderRecords([line] + lines) == line + "\n" + RenderRecords(lines)
    ensures RenderRecords([]) == ""
  {
    assert ([line] + lines)[1..] == lines;
  }

  // ---------- the texts ----------

  lemma NumbersAre()
    ensures IntText(1) == "1" && IntText(2) == "2" && IntText(20) == "20" && IntText(30) == "30"
  {
    assert Digits(2) == "2" && Digits(3) == "3";
  }

  lemma {:induction false} NoQuotesToEscape(t: string)
    requires '\'' !in t
    ensures EscapeQuotes(t) == t
  {
    if t != "" { NoQuotesToEscape(t[1..]); }
  }

  lemma ThreeNames(a: string, b: string, c: string)
    ensures RenderNames([b, c]) == b + ", " + c
    ensures RenderNames([a, b, c]) == a + ", " + (b + ", " + c)
  {
    assert [b, c][1..] == [c] && [a, b, c][1..] == [b, c];
    assert RenderNames([b, c]) == b + ", " + RenderNames([c]);
    assert RenderNames([a, b, c]) == a + ", " + RenderNames([b, c]);
  }

  lemma ThreeValues(a: SqlValue, b: SqlValue, c: SqlValue)
    ensures RenderValues([a, b, c]) == RenderValue(a) + ", " + (RenderValue(b) + ", " + RenderValue(c))
  {
    hide RenderValue;
    assert [b, c][1..] == [c] && [a, b, c][1..] == [b, c];
    assert RenderValues([b, c]) == RenderValue(b) + ", " + RenderValues([c]);
    assert RenderValues([a, b, c]) == RenderValue(a) + ", " + RenderValues([b, c]);
  }

  lemma BobIs()
    ensures RenderValue(BOB[0]) == "2" && RenderValue(BOB[1]) == "'bob'" && RenderValue(BOB[2]) == "30"
  {
    NumbersAre();
    NoQuotesToEscape("bob");
    assert "'" + "bob" + "'" == "'bob'";
  }

  lemma InsertText(columns: seq<string>, values: seq<SqlValue>, names: string, row: string)
    requires columns != [] && RenderNames(columns) == names && RenderValues(values) == row
    ensures RenderStatement(Insert(None, "users", columns, values))
         == "INSERT INTO users (" + names + ") VALUES (" + row + ")"
  {
    hide RenderNames, RenderValues;
    assert RenderName(None, "users") == "users";
    assert "INSERT INTO " + "users" + (" (" + names + ") ") == "INSERT INTO users (" + names + ") ";
  }

  lemma BobText()
    ensures RenderStatement(INSERT_BOB) == "INSERT INTO users (id, name, age) VALUES (2, 'bob', 30)"
  {
    hide RenderNames, RenderValues, RenderValue, RenderStatement;
    BobIs();
    ThreeNames("id", "name", "age");
    ThreeValues(BOB[0], BOB[1], BOB[2]);
    InsertText(["id", "name", "age"], BOB, "id, name, age", "2, 'bob', 30");
  }

  lemma ReorderedText()
    ensures RenderStatement(REORDERED) == "INSERT INTO users (name, id, age) VALUES ('bob', 2, 30)"
  {
    hide RenderNames, RenderValues, RenderValue, RenderStatement;
    BobIs();
    ThreeNames("name", "id", "age");
    ThreeValues(BOB[1], BOB[0], BOB[2]);
    InsertText(["name", "id", "age"], [BOB[1], BOB[0], BOB[2]], "name, id, age", "'bob', 2, 30");
  }

  lemma SelectText()
    ensures RenderStatement(SELECT_NAMES) == "SELECT name, age FROM users"
  {
    hide RenderNames;
    ThreeNames("", "name", "age");
    assert RenderName(None, "users") == "users";
  }

  lemma AreWellFormed()
    ensures WellFormed(INSERT_BOB) && WellFormed(SELECT_NAMES) && WellFormed(REORDERED)
  {
    UsersIsSchema();
    assert forall c :: c in ["id", "name", "age"] ==> IsIdentifier(c);
    assert "id"[0] != "name"[0] && "id"[0] != "age"[0] && "name"[0] != "age"[0];
  }

  lemma OneLineText(stmt: Statement)
    ensures RenderScript([stmt]) == RenderStatement(stmt) + ";\n"
  {
    assert [stmt][1..] == [];
    assert RenderScript([stmt]) == RenderStatement(stmt) + ";\n" + "";
  }

  lemma TwoLineText(first: Statement, second: Statement)
    ensures RenderScript([first, second]) == RenderStatement(first) + ";\n" + (RenderStatement(second) + ";\n")
  {
    hide RenderStatement;
    OneLineText(second);
    assert [first, second][1..] == [second];
  }

  /** The shipped texts parse to these statements. */
  lemma TextsParse()
    ensures ParseScript(ROUNDTRIP) == Match([INSERT_BOB, SELECT_NAMES], [])
    ensures ParseScript(WITH_COLUMNS) == Match([REORDERED], [])
  {
    hide ParseScript, RenderStatement, RenderScript, WellFormed;
    AreWellFormed();
    BobText();
    ReorderedText();
    SelectText();
    TwoLineText(INSERT_BOB, SELECT_NAMES);
    OneLineText(REORDERED);
    ScriptRoundTrip([INSERT_BOB, SELECT_NAMES]);
    ScriptRoundTrip([REORDERED]);
  }

  // ---------- the runs ----------

  const SCHEMA_ONLY := map["users.schema.csv" := USERS_SCHEMA]
  const WITH_BOB := "id,name,age\n" + ("1,\"alice\",20" + "\n" + ("2,\"bob\",30" + "\n"))
  const NAMES_AND_AGES := "name,age\n" + ("\"alice\",20" + "\n" + ("\"bob\",30" + "\n"))

  lemma {:induction false} NothingToEscape(t: string)
    requires '"' !in t
    ensures Escape(t) == t
  {
    if t != "" { NothingToEscape(t[1..]); }
  }

  lemma ThreeCells(a: Cell, b: Cell, c: Cell)
    ensures RenderCells([b, c]) == RenderCell(b) + "," + RenderCell(c)
    ensures RenderCells([a, b, c]) == RenderCell(a) + "," + (RenderCell(b) + "," + RenderCell(c))
  {
    hide RenderCell;
    assert [b, c][1..] == [c] && [a, b, c][1..] == [b, c];
    assert RenderCells([b, c]) == RenderCell(b) + "," + RenderCells([c]);
    assert RenderCells([a, b, c]) == RenderCell(a) + "," + RenderCells([b, c]);
  }

  lemma RowIs(id: Int64, name: string, age: Int64)
    requires '"' !in name
    ensures RenderRow([StringValue(name), IntValue(age)]) == "\"" + name + "\"" + "," + IntText(age)
    ensures RenderRow([IntValue(id), StringValue(name), IntValue(age)])
         == IntText(id) + "," + ("\"" + name + "\"" + "," + IntText(age))
  {
    hide RenderCells;
    NothingToEscape(name);
    var a, b, c := Plain(IntText(id)), Quoted(name), Plain(IntText(age));
    ThreeCells(a, b, c);
    assert RowCells([StringValue(name), IntValue(age)]) == [b, c];
    assert RowCells([IntValue(id), StringValue(name), IntValue(age)]) == [a, b, c];
  }

  lemma RowsAre()
    ensures RenderRow(ALICE) == "1,\"alice\",20" && RenderRow(BOB) == "2,\"bob\",30"
    ensures RenderRow([StringValue("alice"), IntValue(20)]) == "\"alice\",20"
    ensures RenderRow([StringValue("bob"), IntValue(30)]) == "\"bob\",30"
  {
    hide RenderRow, IntText;
    NumbersAre();
    RowIs(1, "alice", 20);
    RowIs(2, "bob", 30);
    assert "\"" + "alice" + "\"" + "," + "20" == "\"alice\",20" && "1" + "," + "\"alice\",20" == "1,\"alice\",20";
    assert "\"" + "bob" + "\"" + "," + "30" == "\"bob\",30" && "2" + "," + "\"bob\",30" == "2,\"bob\",30";
  }

  lemma HeadersAre()
    ensures HeaderLine(["id", "name", "age"]) == "id,name,age\n" && HeaderLine(["name", "age"]) == "name,age\n"
  {
    hide RenderCells;
    var a, b, c := Plain("id"), Plain("name"), Plain("age");
    ThreeCells(a, b, c);
    assert NameCells(["id", "name", "age"]) == [a, b, c] && NameCells(["name", "age"]) == [b, c];
    assert "name" + "," + "age" == "name,age" && "id" + "," + "name,age" == "id,name,age";
    assert "name,age" + "\n" == "name,age\n" && "id,name,age" + "\n" == "id,name,age\n";
  }

  lemma TwoRecords(a: string, b: string)
    ensures RenderRecords([a]) == a + "\n" && RenderRecords([a, b]) == a + "\n" + (b + "\n")
  {
    assert [a][1..] == [] && [a, b][1..] == [b];
    assert RenderRecords([a]) == a + "\n" + "" && RenderRecords([b]) == b + "\n" + "";
  }

  lemma TablesAre()
    ensures TableText(USERS, [ALICE]) == USERS_CSV && TableText(USERS, [ALICE, BOB]) == WITH_BOB
  {
    hide RenderRow, HeaderLine, RenderRecords;
    UsersIsSchema();
    HeadersAre();
    RowsAre();
    assert RenderedRows([ALICE]) == [RenderRow(ALICE)];
    assert RenderedRows([ALICE, BOB]) == [RenderRow(ALICE), RenderRow(BOB)];
    TwoRecords(RenderRow(ALICE), RenderRow(BOB));
  }

  lemma FilesAre()
    ensures CsvName(None, "users") == "users.csv" && SchemaName(None, "users") == "users.schema.csv"
  {
  }

  lemma UsersIsFresh()
    ensures Fresh(SCHEMA_ONLY, None, "users", USERS)
    ensures WithTable(SCHEMA_ONLY, None, "users", USERS, [ALICE]) == SHIPPED
    ensures WithTable(SCHEMA_ONLY, None, "users", USERS, [ALICE, BOB]) == SHIPPED["users.csv" := WITH_BOB]
  {
    hide LoadSchema, TableText;
    UsersIsSchema();
    SchemaLoads();
    TablesAre();
    FilesAre();
    CsvIsNoSchema(None, "users", None, "users");
    assert CsvName(None, "users") !in SCHEMA_ONLY;
  }

  lemma BobIsInserted()
    ensures RunStatement(SHIPPED, INSERT_BOB) == Ok(Ran(SHIPPED["users.csv" := WITH_BOB], "INSERT 1 INTO users\n"))
  {
    hide RunStatement, Fresh, WithTable, InsertMessage;
    UsersIsSchema();
    UsersIsFresh();
    InsertStep(SCHEMA_ONLY, None, "users", USERS, [ALICE], BOB);
    assert [ALICE] + [BOB] == [ALICE, BOB];
    InsertMessageText("", "users");
    assert "INSERT 1 INTO " + "users" + "\n" == "INSERT 1 INTO users\n";
  }

  lemma NamesArePicked()
    ensures FitRows(USERS, [ALICE, BOB]) && ValidSelection(Names(USERS), ["name", "age"]) && NoFirstBoms([ALICE, BOB])
    ensures RenderedRows(PickRows(USERS, [ALICE, BOB], ["name", "age"])) == ["\"alice\",20", "\"bob\",30"]
  {
    hide RenderRow, ValidSchema;
    UsersIsSchema();
    RowsAre();
    assert "name"[0] != "age"[0] && "id"[0] != "name"[0] && "id"[0] != "age"[0];
    var names, columns := ["id", "name", "age"], ["name", "age"];
    assert names[1] == "name" && names[2] == "age";
    IndexOfDistinct(names, 1);
    IndexOfDistinct(names, 2);
    assert PickRow(USERS, ALICE, columns) == [StringValue("alice"), IntValue(20)];
    assert PickRow(USERS, BOB, columns) == [StringValue("bob"), IntValue(30)];
  }

  lemma NamesAreSelected()
    ensures SelectRows(Some(USERS_SCHEMA), Some(WITH_BOB), false, ["name", "age"]) == Ok(NAMES_AND_AGES)
  {
    hide SelectRows, TableText, LoadSchema, ValidSchema, RenderRecords, HeaderLine, FitRows, NoFirstBoms;
    hide ValidSelection;
    UsersIsSchema();
    SchemaLoads();
    TablesAre();
    HeadersAre();
    NamesArePicked();
    SelectColumns(Some(USERS_SCHEMA), USERS, [ALICE, BOB], ["name", "age"]);
    TwoRecords("\"alice\",20", "\"bob\",30");
  }

  /** The shipped round trip on the shipped table stores the row and prints the two columns of both rows. */
  lemma RoundtripRuns()
    ensures ParseScript(ROUNDTRIP) == Match([INSERT_BOB, SELECT_NAMES], [])
    ensures RunScript(SHIPPED, [INSERT_BOB, SELECT_NAMES])
         == Ok(Ran(SHIPPED["users.csv" := WITH_BOB], "INSERT 1 INTO users\n" + NAMES_AND_AGES))
  {
    hide ParseScript, SelectRows, AppendRow, RunSteps;
    TextsParse();
    BobIsInserted();
    FilesAre();
    NamesAreSelected();
    TwoSteps(RunStatement, SHIPPED, INSERT_BOB, SELECT_NAMES);
  }

  lemma SamePairs()
    ensures multiset(Pairs(INSERT_BOB.columns, INSERT_BOB.values))
         == multiset(Pairs(REORDERED.columns, REORDERED.values))
  {
    assert Pairs(INSERT_BOB.columns, INSERT_BOB.values) == [("id", BOB[0]), ("name", BOB[1]), ("age", BOB[2])];
    assert Pairs(REORDERED.columns, REORDERED.values) == [("name", BOB[1]), ("id", BOB[0]), ("age", BOB[2])];
  }

  /** The shipped INSERT that lists the columns in another order stores the same row. */
  lemma ReorderedRuns()
    ensures ParseScript(WITH_COLUMNS) == Match([REORDERED], [])
    ensures RunScript(SHIPPED, [REORDERED]) == Ok(Ran(SHIPPED["users.csv" := WITH_BOB], "INSERT 1 INTO users\n"))
  {
    hide ParseScript, AppendRow, RunSteps;
    TextsParse();
    BobIsInserted();
    FilesAre();
    SamePairs();
    OrderDoesNotMatter(Some(USERS_SCHEMA), Some(USERS_CSV), INSERT_BOB.columns, INSERT_BOB.values,
                       REORDERED.columns, REORDERED.values);
    OneStep(RunStatement, SHIPPED, REORDERED);
  }
}
