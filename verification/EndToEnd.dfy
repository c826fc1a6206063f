/** Theorems that join the parser, the storage engine and the executor. */
module EndToEnd {
  import opened SqlTypes
  import opened Decimal
  import opened Csv
  import opened Schema
  import opened Storage
  import opened StorageTheorems
  import opened Files
  import opened Commit
  import opened Semantics
  import opened Script
  import opened Grammar
  import opened ParseTheorems

  // ---------- values survive storage ----------

  /** A stored row is read back with its types: integer fields convert to the same 64-bit integers and
      string fields are the same bytes. */
  lemma StoredRowReadsBack(stored: seq<SqlValue>, rest: string)
    requires stored != [] && NoBomValue(stored[0])
    ensures ReadRecord(RenderRow(stored) + "\n" + rest) == Record(RenderRow(stored), "\n", rest)
    ensures var fields := ParseFields(RenderRow(stored));
            && fields.Some? && |fields.value| == |stored|
            && forall i :: 0 <= i < |stored| ==>
                 match stored[i]
                 case IntValue(n) => IsIntegerText(fields.value[i]) && Strtoll(fields.value[i]) == Some(n)
                 case StringValue(s) => fields.value[i] == s
  {
    RowCellsPrintable(stored);
    RowRoundTrip(RowCells(stored), rest);
    RowFields(stored);
    forall i | 0 <= i < |stored| && stored[i].IntValue?
      ensures IsIntegerText(IntText(stored[i].n)) && Strtoll(IntText(stored[i].n)) == Some(stored[i].n)
    {
      IntRoundTrip(stored[i].n);
    }
  }

  /** INSERT followed by SELECT * prints the rows from before and then the inserted row. */
  lemma InsertThenSelect(dir: Dir, insert: Statement)
    requires insert.Insert? && CsvName(insert.schema, insert.table) in dir
    requires CsvName(insert.schema, insert.table) != SchemaName(insert.schema, insert.table)
    requires RunStatement(dir, insert).Ok?
    ensures var all := Select(insert.schema, insert.table, true, []);
            var schema := LoadOptionalSchema(Lookup(dir, SchemaName(insert.schema, insert.table))).value;
            var stored := StoredValues(schema, insert.columns, insert.values).value;
            match RunStatement(dir, all)
            case Err(code) => RunScript(dir, [insert, all]) == Err(code)
            case Ok(before) =>
              && RunScript(dir, [insert, all]).Ok?
              && RunScript(dir, [insert, all]).value.output
                 == InsertMessage(insert.schema, insert.table) + (before.output + RenderRow(stored) + "\n")
  {
    var all := Select(insert.schema, insert.table, true, []);
    var csvName, schemaName := CsvName(insert.schema, insert.table), SchemaName(insert.schema, insert.table);
    var after := RunStatement(dir, insert).value.dir;
    assert Lookup(after, schemaName) == Lookup(dir, schemaName);
    SelectSeesInsert(Lookup(dir, schemaName), dir[csvName], insert.columns, insert.values);
    TwoSteps(RunStatement, dir, insert, all);
  }

  lemma TwoSteps(step: (Dir, Statement) -> Result<Ran>, dir: Dir, a: Statement, b: Statement)
    requires step(dir, a).Ok?
    ensures RunSteps(step, dir, [a, b], 2) ==
            match step(step(dir, a).value.dir, b)
            case Err(code) => Err(code)
            case Ok(ran) => Ok(Ran(ran.dir, step(dir, a).value.output + ran.output))
  {
    assert RunSteps(step, dir, [a, b], 0) == Ok(Ran(dir, ""));
    assert "" + step(dir, a).value.output == step(dir, a).value.output;
    assert RunSteps(step, dir, [a, b], 1) == Ok(step(dir, a).value);
  }

  // ---------- texts one after the other ----------

  /** One file with two accepted SQL texts in a row does what running the two files in a row does. */
  lemma TextsInARow(dir: Dir, a: string, b: string)
    requires ParseScript(a).Match? && ParseScript(b).Match? && !HasBom(b)
    ensures ParseScript(a + b).Match?
    ensures var first, whole := RunScript(dir, ParseScript(a).value), RunScript(dir, ParseScript(a + b).value);
            if first.Err? then whole == first
            else RunsAfter(first, RunScript(first.value.dir, ParseScript(b).value), whole)
  {
    ConcatenatedInputs(a, b);
    RunConcat(dir, ParseScript(a).value, ParseScript(b).value);
  }

  // ---------- names ----------

  function BaseName(schema: Option<string>, table: string): string {
    (if schema.Some? then schema.value + "__" else "") + table
  }

  ghost predicate IdentifierName(schema: Option<string>, table: string) {
    IsIdentifier(table) && (schema.Some? ==> IsIdentifier(schema.value))
  }

  lemma BaseIsIdentifier(schema: Option<string>, table: string)
    requires IdentifierName(schema, table)
    ensures '.' !in BaseName(schema, table)
    ensures CsvName(schema, table) == BaseName(schema, table) + ".csv"
    ensures SchemaName(schema, table) == BaseName(schema, table) + ".schema.csv"
  {
    assert !IsIdentChar('.');
  }

  /** No parsed table's CSV is the schema file of any table. */
  lemma CsvIsNoSchema(schema: Option<string>, table: string, schema': Option<string>, table': string)
    requires IdentifierName(schema, table)
    ensures CsvName(schema, table) != SchemaName(schema', table')
  {
    BaseIsIdentifier(schema, table);
    var c, s := CsvName(schema, table), SchemaName(schema', table');
    assert s == BaseName(schema', table') + ".schema.csv";
    assert s[|s| - 11] == '.';
    assert |c| >= 11 ==> c[|c| - 11] == BaseName(schema, table)[|c| - 11];
  }

  /** Tables that share a CSV share their schema file, so they are one table. */
  lemma SameCsvSameSchema(schema: Option<string>, table: string, schema': Option<string>, table': string)
    requires CsvName(schema, table) == CsvName(schema', table')
    ensures SchemaName(schema, table) == SchemaName(schema', table')
  {
    var b, b' := BaseName(schema, table), BaseName(schema', table');
    assert b + ".csv" == b' + ".csv";
    assert b == (b + ".csv")[..|b + ".csv"| - 4] && b' == (b' + ".csv")[..|b' + ".csv"| - 4];
    assert SchemaName(schema, table) == b + ".schema.csv";
    assert SchemaName(schema', table') == b' + ".schema.csv";
  }

  /** No other name that the parser accepts has this CSV. */
  ghost predicate OwnsCsv(schema: Option<string>, table: string) {
    forall schema', table' | IdentifierName(schema', table') && CsvName(schema', table') == CsvName(schema, table) ::
      schema' == schema && table' == table
  }

  /** The identifier is two identifiers with two underscores between them. */
  ghost predicate Splits(table: string) {
    exists s, t :: IsIdentifier(s) && IsIdentifier(t) && table == BaseName(Some(s), t)
  }

  lemma SameCsvSameBase(schema: Option<string>, table: string, schema': Option<string>, table': string)
    ensures CsvName(schema, table) == CsvName(schema', table') <==> BaseName(schema, table) == BaseName(schema', table')
  {
    var b, b' := BaseName(schema, table), BaseName(schema', table');
    assert CsvName(schema, table) == b + ".csv" && CsvName(schema', table') == b' + ".csv";
    assert b == (b + ".csv")[..|b + ".csv"| - 4] && b' == (b' + ".csv")[..|b' + ".csv"| - 4];
  }

  /** A name has its CSV for itself exactly when it is unqualified and does not split: s.t and s__t are always
      the same file. */
  lemma OwnsCsvIff(schema: Option<string>, table: string)
    requires IdentifierName(schema, table)
    ensures OwnsCsv(schema, table) <==> schema == None && !Splits(table)
  {
    if schema.Some? {
      var base := BaseName(schema, table);
      assert IdentifierName(None, base) && BaseName(None, base) == base;
      SameCsvSameBase(schema, table, None, base);
    } else {
      if Splits(table) {
        var s, t :| IsIdentifier(s) && IsIdentifier(t) && table == BaseName(Some(s), t);
        assert IdentifierName(Some(s), t) && BaseName(None, table) == table;
        SameCsvSameBase(None, table, Some(s), t);
      }
      forall schema', table' | IdentifierName(schema', table') && CsvName(schema', table') == CsvName(schema, table)
        ensures if schema'.Some? then Splits(table) else table' == table
      {
        SameCsvSameBase(schema, table, schema', table');
        assert BaseName(None, table) == table;
        if schema'.Some? {
          assert BaseName(Some(schema'.value), table') == table;
        } else {
          assert BaseName(None, table') == table';
        }
      }
    }
  }

  /** A script whose inserted tables have no name beginning with a reserved prefix is committed right, on every
      directory on which it runs. */
  lemma OrdinaryTablesCommit(initial: Dir, script: seq<Statement>)
    requires RunScript(initial, script).Ok?
    requires forall i :: 0 <= i < |script| && script[i].Insert? ==>
               !("__commit_" <= BaseName(script[i].schema, script[i].table)) &&
               !("__rollback_" <= BaseName(script[i].schema, script[i].table)) &&
               IdentifierName(script[i].schema, script[i].table)
    ensures CommitsRight(initial, RunScript(initial, script).value.dir, Tables(script))
  {
    hide RunScript, Touched;
    TouchedFacts(script, |script|);
    TablesAreStaged(initial, script);
    forall k, i: nat | 0 <= k < |Tables(script)|
      ensures Tables(script)[k] != TempName(i) && Tables(script)[k] != BackupName(i)
    {
      var n := Tables(script)[k];
      assert n in Tables(script);
      var j :| 0 <= j < |script| && script[j].Insert? && n == CsvName(script[j].schema, script[j].table);
      ReservedPrefix(script[j].schema, script[j].table, i);
    }
  }

  lemma ReservedPrefix(schema: Option<string>, table: string, i: nat)
    requires IdentifierName(schema, table)
    ensures CsvName(schema, table) == TempName(i) ==> "__commit_" <= BaseName(schema, table)
    ensures CsvName(schema, table) == BackupName(i) ==> "__rollback_" <= BaseName(schema, table)
  {
    var b, d := BaseName(schema, table), Digits(i);
    assert CsvName(schema, table) == b + ".csv";
    assert CsvName(schema, table)[..|CsvName(schema, table)| - 4] == b;
    assert TempName(i)[..|TempName(i)| - 4] == "__commit_" + d;
    assert BackupName(i)[..|BackupName(i)| - 4] == "__rollback_" + d;
  }

  // ---------- every run keeps tables clean ----------

  /** The table's schema loads and its CSV, if it exists, is clean: both SELECT paths work on it and agree. */
  ghost predicate TableIsClean(dir: Dir, schemaPart: Option<string>, table: string) {
    var loaded := LoadOptionalSchema(Lookup(dir, SchemaName(schemaPart, table)));
    && loaded.Ok? && loaded.value.Some?
    && (CsvName(schemaPart, table) in dir ==> CleanTable(loaded.value.value, dir[CsvName(schemaPart, table)]))
  }

  lemma {:induction false} NewTableIsClean(schemaFile: Option<string>, columns: seq<string>, values: seq<SqlValue>)
    requires LoadOptionalSchema(schemaFile).Ok? && LoadOptionalSchema(schemaFile).value.Some?
    requires forall i :: 0 <= i < |columns| ==> IsIdentifier(columns[i])
    requires forall i :: 0 <= i < |values| ==> NoBomValue(values[i])
    requires AppendRow(schemaFile, None, columns, values).Ok?
    ensures CleanTable(LoadOptionalSchema(schemaFile).value.value, AppendRow(schemaFile, None, columns, values).value)
  {
    var schema := LoadOptionalSchema(schemaFile).value.value;
    var names := Names(schema);
    NamesAreIdentifiers(schema, columns);
    HeaderReads(names, "");
    var csv := HeaderLine(names);
    assert csv + "" == csv;
    SingleLine(RenderCells(NameCells(names)));
    assert CleanTable(schema, csv);
    assert AppendRow(schemaFile, Some(csv), columns, values) == AppendRow(schemaFile, None, columns, values);
    AppendKeepsClean(schemaFile, csv, columns, values);
  }

  ghost predicate OrdinaryStatement(stmt: Statement) {
    WellFormed(stmt) && (stmt.Insert? ==> forall i :: 0 <= i < |stmt.values| ==> NoBomValue(stmt.values[i]))
  }

  lemma InsertKeepsClean(dir: Dir, stmt: Statement)
    requires OrdinaryStatement(stmt) && stmt.Insert? && RunStatement(dir, stmt).Ok?
    requires TableIsClean(dir, stmt.schema, stmt.table)
    requires CsvName(stmt.schema, stmt.table) != SchemaName(stmt.schema, stmt.table)
    ensures TableIsClean(RunStatement(dir, stmt).value.dir, stmt.schema, stmt.table)
  {
    var csvName, schemaFile := CsvName(stmt.schema, stmt.table), Lookup(dir, SchemaName(stmt.schema, stmt.table));
    if csvName in dir {
      AppendKeepsClean(schemaFile, dir[csvName], stmt.columns, stmt.values);
    } else {
      NewTableIsClean(schemaFile, stmt.columns, stmt.values);
    }
  }

  lemma TableIsCleanAt(dir: Dir, schema: Option<string>, table: string, schema': Option<string>, table': string)
    requires CsvName(schema, table) == CsvName(schema', table')
    requires SchemaName(schema, table) == SchemaName(schema', table')
    ensures TableIsClean(dir, schema, table) <==> TableIsClean(dir, schema', table')
  {
    hide LoadOptionalSchema, CleanTable;
  }

  lemma SameFilesSameClean(dir: Dir, after: Dir, schemaPart: Option<string>, table: string)
    requires TableIsClean(dir, schemaPart, table)
    requires Lookup(after, CsvName(schemaPart, table)) == Lookup(dir, CsvName(schemaPart, table))
    requires Lookup(after, SchemaName(schemaPart, table)) == Lookup(dir, SchemaName(schemaPart, table))
    ensures TableIsClean(after, schemaPart, table)
  {
    hide LoadOptionalSchema, CleanTable;
  }

  lemma StatementKeepsClean(dir: Dir, stmt: Statement, schemaPart: Option<string>, table: string)
    requires OrdinaryStatement(stmt) && RunStatement(dir, stmt).Ok? && TableIsClean(dir, schemaPart, table)
    ensures TableIsClean(RunStatement(dir, stmt).value.dir, schemaPart, table)
  {
    hide RunStatement, TableIsClean;
    StatementChanges(dir, stmt);
    CsvIsNoSchema(stmt.schema, stmt.table, schemaPart, table);
    if stmt.Insert? && CsvName(stmt.schema, stmt.table) == CsvName(schemaPart, table) {
      SameCsvSameSchema(stmt.schema, stmt.table, schemaPart, table);
      TableIsCleanAt(dir, stmt.schema, stmt.table, schemaPart, table);
      InsertKeepsClean(dir, stmt);
      TableIsCleanAt(RunStatement(dir, stmt).value.dir, stmt.schema, stmt.table, schemaPart, table);
    } else {
      SameFilesSameClean(dir, RunStatement(dir, stmt).value.dir, schemaPart, table);
    }
  }

  lemma {:induction false} StepsKeep(step: (Dir, Statement) -> Result<Ran>, holds: Dir -> bool,
                                     dir: Dir, script: seq<Statement>, k: nat)
    requires k <= |script| && RunSteps(step, dir, script, k).Ok? && holds(dir)
    requires forall d, i :: 0 <= i < |script| && holds(d) && step(d, script[i]).Ok? ==>
               holds(step(d, script[i]).value.dir)
    ensures holds(RunSteps(step, dir, script, k).value.dir)
  {
    if k > 0 { StepsKeep(step, holds, dir, script, k - 1); }
  }

  /** Whatever a script of parsed statements does, a clean table stays clean, so after every prefix of every
      run SELECT * and a projection of it agree. */
  lemma RunsKeepTablesClean(dir: Dir, script: seq<Statement>, k: nat, schemaPart: Option<string>, table: string)
    requires k <= |script| && forall i :: 0 <= i < |script| ==> OrdinaryStatement(script[i])
    requires TableIsClean(dir, schemaPart, table) && RunPrefix(dir, script, k).Ok?
    ensures TableIsClean(RunPrefix(dir, script, k).value.dir, schemaPart, table)
  {
    forall d, i | 0 <= i < |script| && TableIsClean(d, schemaPart, table) && RunStatement(d, script[i]).Ok?
      ensures TableIsClean(RunStatement(d, script[i]).value.dir, schemaPart, table)
    {
      StatementKeepsClean(d, script[i], schemaPart, table);
    }
    StepsKeep(RunStatement, d => TableIsClean(d, schemaPart, table), dir, script, k);
  }
}
