/** Single statements and pairs of them at the level of whole scripts, in the terms of their writer. */
module Statements {
  import opened SqlTypes
  import opened Csv
  import opened Schema
  import opened Storage
  import opened StorageTheorems
  import opened Files
  import opened Semantics
  import opened EndToEnd
  import opened Inserts

  lemma OneStep(step: (Dir, Statement) -> Result<Ran>, dir: Dir, stmt: Statement)
    ensures RunSteps(step, dir, [stmt], 1) == step(dir, stmt)
  {
    assert RunSteps(step, dir, [stmt], 0) == Ok(Ran(dir, ""));
    if step(dir, stmt).Ok? { assert "" + step(dir, stmt).value.output == step(dir, stmt).value.output; }
  }

  // ---------- INSERT ----------

  /** What an INSERT prints: the table as it was named. */
  lemma InsertMessageText(schema: string, table: string)
    ensures InsertMessage(None, table) == "INSERT 1 INTO " + table + "\n"
    ensures InsertMessage(Some(schema), table) == "INSERT 1 INTO " + schema + "." + table + "\n"
  {
    assert "INSERT 1 INTO " + "" + table == "INSERT 1 INTO " + table;
    assert "INSERT 1 INTO " + (schema + ".") + table == "INSERT 1 INTO " + schema + "." + table;
  }

  /** A script of one INSERT into a table that has a CSV prints its message and adds one record, in which each value
      is under its column; no other file changes. */
  lemma InsertRuns(dir: Dir, stmt: Statement) returns (row: string)
    requires stmt.Insert? && CsvName(stmt.schema, stmt.table) in dir && RunScript(dir, [stmt]).Ok?
    ensures var csvName := CsvName(stmt.schema, stmt.table);
            var ran := RunScript(dir, [stmt]).value;
            && csvName in ran.dir && ran.dir == dir[csvName := ran.dir[csvName]]
            && ran.output == InsertMessage(stmt.schema, stmt.table)
            && OneMore(dir[csvName], ran.dir[csvName], row) && HeaderOf(dir[csvName]).Some?
            && RowHolds(row, HeaderOf(dir[csvName]).value, stmt.columns, stmt.values)
  {
    hide AppendRow, OneMore, RowHolds, HeaderOf;
    OneStep(RunStatement, dir, stmt);
    var csvName := CsvName(stmt.schema, stmt.table);
    var schemaFile := Lookup(dir, SchemaName(stmt.schema, stmt.table));
    row := InsertPlacesValues(schemaFile, dir[csvName], stmt.columns, stmt.values);
  }

  /** Which INSERTs a script may hold, and with which code it fails on the others. */
  lemma InsertRunsIff(dir: Dir, stmt: Statement)
    requires stmt.Insert?
    ensures var csvName, schemaName := CsvName(stmt.schema, stmt.table), SchemaName(stmt.schema, stmt.table);
            match LoadOptionalSchema(Lookup(dir, schemaName))
            case Err(code) => RunScript(dir, [stmt]) == Err(code)
            case Ok(schema) =>
              IsOutcome(RunScript(dir, [stmt]), schema, Lookup(dir, csvName), stmt.columns, stmt.values)
  {
    hide AppendRow, AcceptsRow, LoadSchema, HeaderOf;
    OneStep(RunStatement, dir, stmt);
    var schemaFile := Lookup(dir, SchemaName(stmt.schema, stmt.table));
    var csvFile := Lookup(dir, CsvName(stmt.schema, stmt.table));
    InsertOutcome(schemaFile, csvFile, stmt.columns, stmt.values);
  }

  // ---------- which SELECTs succeed ----------

  /** Every record has one field for each name of the header. */
  ghost predicate IsRegular(csv: string, width: nat) {
    && ReadAll(csv).Some?
    && forall k :: 0 <= k < |ReadAll(csv).value| ==>
         ParseFields(ReadAll(csv).value[k]).Some? && |ParseFields(ReadAll(csv).value[k]).value| == width
  }

  /** Which SELECTs succeed, and with which code the others are refused. */
  ghost predicate IsSelectOutcome<T>(r: Result<T>, schema: Option<seq<Column>>, csvFile: Option<string>,
                                  selectAll: bool, columns: seq<string>)
  {
    match csvFile
    case None => r == Err(Io)
    case Some(csv) =>
      match HeaderOf(csv)
      case None => r == Err(Parse)
      case Some(names) =>
        if schema.Some? && names != Names(schema.value) then r == Err(Parse)
        else if !selectAll && schema == None then r == Err(Unsupported)
        else if !selectAll && (columns == [] || !Distinct(columns)) then r == Err(Argument)
        else if !selectAll && exists m :: 0 <= m < |columns| && columns[m] !in names then r == Err(Argument)
        else if IsRegular(csv, |names|) then r.Ok?
        else r == Err(Parse)
  }

  lemma RegularFromHeader(csv: string)
    requires LoadHeader(csv).Ok?
    ensures var header := LoadHeader(csv).value;
            IsRegular(csv, |header.fields|) <==>
            ReadAll(header.rest).Some? && RowsHaveWidth(ReadAll(header.rest).value, |header.fields|)
  {
    hide ParseFields, ReadRecord;
    ReadAllFromHeader(csv);
    var header := LoadHeader(csv).value;
    if ReadAll(csv).Some? {
      var records, rows := ReadAll(csv).value, ReadAll(header.rest).value;
      assert forall k :: 0 <= k < |rows| ==> rows[k] == records[k + 1];
      if RowsHaveWidth(rows, |header.fields|) {
        forall k | 0 <= k < |records|
          ensures HasWidth(records[k], |header.fields|)
        {
          if k > 0 { assert HasWidth(rows[k - 1], |header.fields|); }
        }
      }
    }
  }

  lemma SelectOutcome(schemaFile: Option<string>, csvFile: Option<string>, selectAll: bool, columns: seq<string>)
    ensures match LoadOptionalSchema(schemaFile)
            case Err(code) => SelectRows(schemaFile, csvFile, selectAll, columns) == Err(code)
            case Ok(schema) =>
              IsSelectOutcome(SelectRows(schemaFile, csvFile, selectAll, columns), schema, csvFile, selectAll, columns)
  {
    hide LoadSchema, ParseFields, ReadRecord, CopyRecords, ProjectRecords, IsRegular, ReadAll, RenderCells;
    if LoadOptionalSchema(schemaFile).Ok? && csvFile.Some? && LoadHeader(csvFile.value).Ok? {
      var schema, csv := LoadOptionalSchema(schemaFile).value, csvFile.value;
      RegularFromHeader(csv);
      if selectAll {
        CopyRendered(csv, |LoadHeader(csv).value.fields|, true);
        ReadAllFromHeader(csv);
      } else if schema.Some? && ValidSelection(Names(schema.value), columns) {
        ProjectRendered(LoadHeader(csv).value.rest, schema.value, Indices(Names(schema.value), columns));
      }
    }
  }

  /** Which SELECTs a script may hold, and with which code it fails on the others; no file changes. */
  lemma SelectRunsIff(dir: Dir, stmt: Statement)
    requires stmt.Select?
    ensures var csvName, schemaName := CsvName(stmt.schema, stmt.table), SchemaName(stmt.schema, stmt.table);
            match LoadOptionalSchema(Lookup(dir, schemaName))
            case Err(code) => RunScript(dir, [stmt]) == Err(code)
            case Ok(schema) =>
              && IsSelectOutcome(RunScript(dir, [stmt]), schema, Lookup(dir, csvName), stmt.selectAll, stmt.columns)
              && (RunScript(dir, [stmt]).Ok? ==> RunScript(dir, [stmt]).value.dir == dir)
  {
    hide SelectRows, LoadSchema, HeaderOf, IsRegular;
    OneStep(RunStatement, dir, stmt);
    SelectOutcome(Lookup(dir, SchemaName(stmt.schema, stmt.table)), Lookup(dir, CsvName(stmt.schema, stmt.table)),
                  stmt.selectAll, stmt.columns);
  }

  // ---------- SELECT c1, .., ck ----------

  /** picked has, for each listed column, the field that is under it in fields. */
  ghost predicate PicksColumns(fields: Option<seq<string>>, picked: Option<seq<string>>, header: seq<string>,
                               columns: seq<string>)
  {
    && fields.Some? && picked.Some? && |fields.value| == |header| && |picked.value| == |columns|
    && forall m, j :: 0 <= m < |columns| && 0 <= j < |header| && header[j] == columns[m] ==>
         picked.value[m] == fields.value[j]
  }

  /** out has a record for every record of csv, the header included, with the listed columns of it. */
  ghost predicate Projects(csv: string, out: string, columns: seq<string>) {
    && HeaderOf(csv).Some? && ReadAll(csv).Some? && ReadAll(out).Some? && |ReadAll(out).value| == |ReadAll(csv).value|
    && forall k :: 0 <= k < |ReadAll(csv).value| ==>
         PicksColumns(ParseFields(ReadAll(csv).value[k]), ParseFields(ReadAll(out).value[k]),
                      HeaderOf(csv).value, columns)
  }

  lemma PickPicks(names: seq<string>, fields: seq<string>, columns: seq<string>)
    requires Distinct(names) && |fields| == |names| && ValidSelection(names, columns)
    ensures PicksColumns(Some(fields), Some(Pick(fields, Indices(names, columns))), names, columns)
  {
  }

  lemma CleanTableProjects(schemaFile: Option<string>, csv: string, columns: seq<string>)
    requires LoadOptionalSchema(schemaFile).Ok? && LoadOptionalSchema(schemaFile).value.Some?
    requires CleanTable(LoadOptionalSchema(schemaFile).value.value, csv)
    requires columns != [] && forall i :: 0 <= i < |columns| ==> IsIdentifier(columns[i])
    requires ValidSelection(Names(LoadOptionalSchema(schemaFile).value.value), columns)
    ensures var result := SelectRows(schemaFile, Some(csv), false, columns);
            result.Ok? && Projects(csv, result.value, columns)
  {
    hide SelectRows, ParseFields, RenderCells, PicksColumns, ReadRecord;
    var schema := LoadOptionalSchema(schemaFile).value.value;
    var names, indices := Names(schema), Indices(Names(schema), columns);
    ProjectionReads(schemaFile, csv, columns);
    HeaderIs(csv);
    var records, rows := ReadAll(csv).value, ReadAll(SelectRows(schemaFile, Some(csv), false, columns).value).value;
    PickPicks(names, names, columns);
    assert Pick(names, indices) == columns;
    forall k | 0 <= k < |records|
      ensures PicksColumns(ParseFields(records[k]), ParseFields(rows[k]), names, columns)
    {
      if k > 0 {
        CleanRow(schema, csv, k);
        PickPicks(names, ParseFields(records[k]).value, columns);
      }
    }
  }

  lemma HeaderIs(csv: string)
    requires LoadHeader(csv).Ok? && ReadAll(csv).Some?
    ensures HeaderOf(csv) == Some(LoadHeader(csv).value.fields)
    ensures ReadAll(csv).value != [] && ParseFields(ReadAll(csv).value[0]) == HeaderOf(csv)
  {
  }

  /** A script of one projection of a clean table succeeds, changes no file, and prints the listed columns of every
      record, the header included. */
  lemma ProjectionRuns(dir: Dir, schemaPart: Option<string>, table: string, columns: seq<string>)
    requires TableIsClean(dir, schemaPart, table) && CsvName(schemaPart, table) in dir
    requires columns != [] && forall i :: 0 <= i < |columns| ==> IsIdentifier(columns[i])
    requires var schema := LoadOptionalSchema(Lookup(dir, SchemaName(schemaPart, table))).value.value;
             ValidSelection(Names(schema), columns)
    ensures var ran := RunScript(dir, [Select(schemaPart, table, false, columns)]);
            ran.Ok? && ran.value.dir == dir && Projects(dir[CsvName(schemaPart, table)], ran.value.output, columns)
  {
    hide SelectRows, Projects, LoadSchema, CleanTable;
    OneStep(RunStatement, dir, Select(schemaPart, table, false, columns));
    CleanTableProjects(Lookup(dir, SchemaName(schemaPart, table)), dir[CsvName(schemaPart, table)], columns);
  }

  /** An INSERT and a projection behind it: the message, and then the listed columns of the rows from before and of
      the inserted row, which has each value under its column. */
  lemma InsertThenProject(dir: Dir, insert: Statement, columns: seq<string>)
    returns (csv: string, out: string, row: string)
    requires OrdinaryStatement(insert) && insert.Insert? && RunStatement(dir, insert).Ok?
    requires TableIsClean(dir, insert.schema, insert.table) && CsvName(insert.schema, insert.table) in dir
    requires columns != [] && forall i :: 0 <= i < |columns| ==> IsIdentifier(columns[i])
    requires var schema := LoadOptionalSchema(Lookup(dir, SchemaName(insert.schema, insert.table))).value.value;
             ValidSelection(Names(schema), columns)
    ensures var csvName := CsvName(insert.schema, insert.table);
            && OneMore(dir[csvName], csv, row) && HeaderOf(dir[csvName]).Some?
            && RowHolds(row, HeaderOf(dir[csvName]).value, insert.columns, insert.values)
            && Projects(csv, out, columns)
            && RunScript(dir, [insert, Select(insert.schema, insert.table, false, columns)])
               == Ok(Ran(dir[csvName := csv], InsertMessage(insert.schema, insert.table) + out))
  {
    hide RunStatement, Projects, OneMore, RowHolds, HeaderOf, LoadSchema, CleanTable;
    var csvName, schemaName := CsvName(insert.schema, insert.table), SchemaName(insert.schema, insert.table);
    var select := Select(insert.schema, insert.table, false, columns);
    OneStep(RunStatement, dir, insert);
    row := InsertRuns(dir, insert);
    var after := RunStatement(dir, insert).value.dir;
    csv := after[csvName];
    CsvIsNoSchema(insert.schema, insert.table, insert.schema, insert.table);
    assert Lookup(after, schemaName) == Lookup(dir, schemaName);
    StatementKeepsClean(dir, insert, insert.schema, insert.table);
    ProjectionRuns(after, insert.schema, insert.table, columns);
    OneStep(RunStatement, after, select);
    out := RunStatement(after, select).value.output;
    TwoSteps(RunStatement, dir, insert, select);
  }
}
