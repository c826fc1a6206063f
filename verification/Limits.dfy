/** SQL texts and directories at which the code does not do what one would like. */
module Limits {
  import opened SqlTypes
  import opened Decimal
  import opened Csv
  import opened Schema
  import opened SchemaFiles
  import opened Storage
  import opened StorageTheorems
  import opened Files
  import opened Commit
  import opened Collision
  import opened Semantics
  import opened Execute
  import opened Script
  import opened Grammar
  import opened RoundTrip
  import opened FreshTable

  /** INSERT INTO table VALUES (1) */
  function InsertOne(table: string): Statement {
    Insert(None, table, [], [IntValue(1)])
  }

  lemma InsertOneText(table: string)
    requires IsIdentifier(table)
    ensures WellFormed(InsertOne(table))
    ensures RenderStatement(InsertOne(table)) == "INSERT INTO " + table + " VALUES (1)"
  {
    assert IntText(1) == "1";
    assert RenderName(None, table) == table;
    assert RenderValues([IntValue(1)]) == "1";
    assert " " + "VALUES (" == " VALUES (";
    assert "VALUES (" + "1" + ")" == "VALUES (1)";
  }

  lemma RenderNext(stmt: Statement, rest: seq<Statement>)
    ensures RenderScript([stmt] + rest) == RenderStatement(stmt) + ";\n" + RenderScript(rest)
    ensures RenderScript([]) == ""
  {
    assert ([stmt] + rest)[1..] == rest;
  }

  /** Without a schema file, on a CSV of the one column x without rows. */
  lemma InsertOneRuns(dir: Dir, table: string)
    requires SchemaName(None, table) !in dir && Lookup(dir, CsvName(None, table)) == Some("x\n")
    ensures RunStatement(dir, InsertOne(table)) ==
            Ok(Ran(dir[CsvName(None, table) := "x\n1\n"], InsertMessage(None, table)))
  {
    hide RenderCells, ParseFields, ReadRecord, InsertMessage;
    HeaderOfX();
    RowOfOne();
    assert LoadHeader("x\n") == Ok(Header(["x"], ""));
    assert CheckHeader(None, ["x"], 1) == None;
    assert WithRow("x\n", [IntValue(1)]) == "x\n1\n";
  }

  lemma HeaderOfX()
    ensures ReadRecord("x\n") == Record("x", "\n", "") && ParseFields("x") == Some(["x"])
  {
    hide ParseFields, ReadRecord;
    HeaderReads(["x"], "");
    assert RenderCells(NameCells(["x"])) == "x";
    assert HeaderLine(["x"]) + "" == "x\n";
  }

  lemma RowOfOne()
    ensures RenderRow([IntValue(1)]) == "1"
  {
    assert IntText(1) == "1";
    assert RowCells([IntValue(1)]) == [Plain("1")];
  }

  // ---------- the early exits of the commit ----------

  const INTO_A := "INSERT INTO a VALUES (1);\n"
  const INTO_B := "INSERT INTO b VALUES (1);\n"
  const TWO_TABLES := INTO_A + INTO_B

  lemma TwoTablesText()
    ensures ParseScript(TWO_TABLES) == Match([InsertOne("a"), InsertOne("b")], [])
  {
    hide ParseScript, RenderStatement, RenderScript, WellFormed;
    var a, b := InsertOne("a"), InsertOne("b");
    InsertOneText("a");
    InsertOneText("b");
    RenderNext(a, [b]);
    RenderNext(b, []);
    assert [a] + [b] == [a, b] && [b] + [] == [b];
    assert "INSERT INTO " + "a" + " VALUES (1)" + ";\n" == INTO_A;
    assert "INSERT INTO " + "b" + " VALUES (1)" + ";\n" + "" == INTO_B;
    ScriptRoundTrip([a, b]);
  }

  lemma TwoTablesRun(dir: Dir)
    requires dir == map["a.csv" := "x\n", "b.csv" := "x\n"]
    ensures var script := [InsertOne("a"), InsertOne("b")];
            && Tables(script) == ["a.csv", "b.csv"]
            && RunScript(dir, script).Ok?
            && RunScript(dir, script).value.dir == map["a.csv" := "x\n1\n", "b.csv" := "x\n1\n"]
  {
    hide RunStatement;
    var script := [InsertOne("a"), InsertOne("b")];
    assert CsvName(None, "a") == "a.csv" && CsvName(None, "b") == "b.csv";
    assert SchemaName(None, "a") == "a.schema.csv" && SchemaName(None, "b") == "b.schema.csv";
    assert Touched(script, 0) == [] && Touched(script, 1) == ["a.csv"] && Touched(script, 2) == ["a.csv", "b.csv"];
    var dir1 := dir["a.csv" := "x\n1\n"];
    InsertOneRuns(dir, "a");
    InsertOneRuns(dir1, "b");
    assert RunSteps(RunStatement, dir, script, 0) == Ok(Ran(dir, ""));
    assert RunSteps(RunStatement, dir, script, 1).Ok? && RunSteps(RunStatement, dir, script, 1).value.dir == dir1;
  }

  /** On two tables, an exit of the commit at the second one leaves the first one written: the text fails and has
      changed the data directory, though no name collides. */
  lemma EarlyExitKeepsFirstTable(dir: Dir)
    requires dir == map["a.csv" := "x\n", "b.csv" := "x\n"]
    ensures var script := [InsertOne("a"), InsertOne("b")];
            && ParseScript(TWO_TABLES) == Match(script, [])
            && RunScript(dir, script).Ok?
            && CommittedTo(dir, RunScript(dir, script).value.dir, Tables(script), 1, dir["a.csv" := "x\n1\n"])
            && dir["a.csv" := "x\n1\n"] != dir
  {
    TwoTablesText();
    TwoTablesRun(dir);
    var names, final := ["a.csv", "b.csv"], map["a.csv" := "x\n1\n", "b.csv" := "x\n1\n"];
    FirstRoundData(World(dir, final), names);
    assert dir["a.csv" := "x\n1\n"]["a.csv"] != dir["a.csv"];
  }

  lemma FirstRoundData(w: World, names: seq<string>)
    requires names != [] && names[0] in w.stage && names[0] != TempName(0)
    ensures var run := CommitRun(w, names, HadOriginal(w.data, names), 1);
            run.done == 1 && run.world.data == w.data[names[0] := w.stage[names[0]]]
  {
    var had := HadOriginal(w.data, names);
    assert CommitRun(w, names, had, 0) == Run(w, 0);
    SwapWrites(w, names[0], 0, had[0]);
  }

  // ---------- a table with the name of a temp ----------

  const TEMP_NAMED := "INSERT INTO __commit_0 VALUES (1)" + ";\n"

  lemma TempNamedStatement()
    ensures WellFormed(InsertOne("__commit_0"))
    ensures RenderStatement(InsertOne("__commit_0")) == "INSERT INTO __commit_0 VALUES (1)"
  {
    hide RenderStatement;
    InsertOneText("__commit_0");
  }

  lemma TempNamedText()
    ensures ParseScript(TEMP_NAMED) == Match([InsertOne("__commit_0")], [])
  {
    hide ParseScript, RenderStatement, RenderScript, WellFormed;
    var s := InsertOne("__commit_0");
    TempNamedStatement();
    RenderNext(s, []);
    assert [s] + [] == [s];
    assert TEMP_NAMED + "" == TEMP_NAMED;
    ScriptRoundTrip([s]);
  }

  lemma TempNamedFiles()
    ensures CsvName(None, "__commit_0") == TempName(0) == "__commit_0.csv"
    ensures SchemaName(None, "__commit_0") == "__commit_0.schema.csv"
  {
    assert Digits(0) == "0";
  }

  /** A run of this text in which no call fails and no probe misses a file reports success and empties the table. */
  lemma TempNamedTextEmptiesTable(dir: Dir, d: Dir, outcome: Outcome)
    requires dir == map["__commit_0.csv" := "x\n"]
    ensures var script := [InsertOne("__commit_0")];
            && ParseScript(TEMP_NAMED) == Match(script, [])
            && RunScript(dir, script).Ok?
            && Lookup(RunScript(dir, script).value.dir, "__commit_0.csv") == Some("x\n1\n")
            && (Faultless(dir, script, outcome) ==> outcome == Done)
            && (Settled(dir, script, Done, d) ==> Lookup(d, "__commit_0.csv") == Some(""))
  {
    hide RunStatement;
    TempNamedText();
    TempNamedFiles();
    var script := [InsertOne("__commit_0")];
    InsertOneRuns(dir, "__commit_0");
    assert RunSteps(RunStatement, dir, script, 0) == Ok(Ran(dir, ""));
    assert Touched(script, 0) == [] && Touched(script, 1) == [TempName(0)];
    var final := RunScript(dir, script).value.dir;
    assert final == dir["__commit_0.csv" := "x\n1\n"];
    TempNamedTableIsEmptied(World(dir, final), [TempName(0)]);
  }

  // ---------- a missed file while a table is staged ----------

  /** A table of these rows in the data directory, and its schema in the stage. */
  ghost predicate Tabled(w: World, schema: seq<Column>, rows: seq<seq<SqlValue>>) {
    && Lookup(w.data, "t.csv") == Some(TableText(schema, rows))
    && Lookup(w.stage, "t.schema.csv") == Some(RenderSchema(schema))
    && ValidSchema(schema) && forall i :: 0 <= i < |schema| ==> IsIdentifier(schema[i].name)
  }

  lemma TableNames()
    ensures CsvName(None, "t") == "t.csv" && SchemaName(None, "t") == "t.schema.csv"
  {
  }

  /** An INSERT of one row into the table that the stage holds; None: it holds none. */
  lemma InsertStaged(stage: Dir, schema: seq<Column>, rows: Option<seq<seq<SqlValue>>>, row: seq<SqlValue>)
    requires Lookup(stage, "t.schema.csv") == Some(RenderSchema(schema)) && ValidSchema(schema)
    requires forall i :: 0 <= i < |schema| ==> IsIdentifier(schema[i].name)
    requires |row| == |schema| && TypesMatch(schema, row)
    requires Lookup(stage, "t.csv") == if rows.Some? then Some(TableText(schema, rows.value)) else None
    ensures var ran := RunStatement(stage, InsertInto(None, "t", schema, row));
            && ran.Ok?
            && ran.value.dir == stage["t.csv" := TableText(schema, (if rows.Some? then rows.value else []) + [row])]
  {
    hide AppendRow, TableText, RenderSchema, LoadSchema;
    TableNames();
    NoBoms(schema);
    SchemaRoundTrip(schema);
    AppendToTable(Some(RenderSchema(schema)), schema, if rows.Some? then rows.value else [], row);
    assert [] + [row] == [row];
  }

  lemma NoBoms(schema: seq<Column>)
    requires forall i :: 0 <= i < |schema| ==> IsIdentifier(schema[i].name)
    ensures forall i :: 0 <= i < |schema| ==> !HasBom(schema[i].name)
  {
    forall i | 0 <= i < |schema|
      ensures !HasBom(schema[i].name)
    {
      IdentifierIsPlain(schema[i].name);
    }
  }

  /** One INSERT is in the stage, and the probe of the staged CSV misses it when the next INSERT is to be run: the
      data version is copied over it, and both INSERTs succeed with one row stored. */
  lemma MissedStagedCsvDropsInsert(w: World, schema: seq<Column>, rows: seq<seq<SqlValue>>,
                                   a: seq<SqlValue>, b: seq<SqlValue>)
    requires Tabled(w, schema, rows) && Lookup(w.stage, "t.csv") == Some(TableText(schema, rows + [a]))
    requires |a| == |b| == |schema| && TypesMatch(schema, a) && TypesMatch(schema, b)
    ensures var missed, seen := StagedAs(w, "t.csv", false, true).stage, StagedAs(w, "t.csv", true, false).stage;
            var insert := InsertInto(None, "t", schema, b);
            && RunStatement(missed, insert).Ok? && RunStatement(seen, insert).Ok?
            && Lookup(RunStatement(seen, insert).value.dir, "t.csv") == Some(TableText(schema, rows + [a] + [b]))
            && Lookup(RunStatement(missed, insert).value.dir, "t.csv") == Some(TableText(schema, rows + [b]))
  {
    hide RunStatement, TableText, RenderSchema;
    InsertStaged(StagedAs(w, "t.csv", true, false).stage, schema, Some(rows + [a]), b);
    InsertStaged(StagedAs(w, "t.csv", false, true).stage, schema, Some(rows), b);
  }

  /** The table is not staged yet, and the probe of the CSV in the data directory misses it: an INSERT with a
      column list succeeds on a fresh CSV, and the rows that were there are not in what is committed. */
  lemma MissedDataCsvDropsRows(w: World, schema: seq<Column>, rows: seq<seq<SqlValue>>, row: seq<SqlValue>)
    requires Tabled(w, schema, rows) && "t.csv" !in w.stage && |row| == |schema| && TypesMatch(schema, row)
    ensures var missed, seen := StagedAs(w, "t.csv", false, false).stage, StagedAs(w, "t.csv", false, true).stage;
            var insert := InsertInto(None, "t", schema, row);
            && RunStatement(missed, insert).Ok? && RunStatement(seen, insert).Ok?
            && Lookup(RunStatement(seen, insert).value.dir, "t.csv") == Some(TableText(schema, rows + [row]))
            && Lookup(RunStatement(missed, insert).value.dir, "t.csv") == Some(TableText(schema, [row]))
  {
    hide RunStatement, TableText, RenderSchema;
    InsertStaged(StagedAs(w, "t.csv", false, true).stage, schema, Some(rows), row);
    InsertStaged(StagedAs(w, "t.csv", false, false).stage, schema, None, row);
    assert [] + [row] == [row];
  }
}
