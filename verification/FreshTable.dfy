/** A table's whole life in one statement: schema file, SQL text, INSERTs, stored bytes, SELECT. */
module FreshTable {
  import opened SqlTypes
  import opened Csv
  import opened Schema
  import opened SchemaFiles
  import opened Storage
  import opened StorageTheorems
  import opened Files
  import opened Semantics
  import opened Grammar
  import opened RoundTrip
  import opened EndToEnd

  // ---------- the table after each INSERT ----------

  /** A schema of identifiers whose file is there, and no CSV yet. */
  ghost predicate Fresh(dir: Dir, schemaPart: Option<string>, table: string, schema: seq<Column>) {
    && IdentifierName(schemaPart, table)
    && ValidSchema(schema) && (forall i :: 0 <= i < |schema| ==> IsIdentifier(schema[i].name))
    && SchemaName(schemaPart, table) in dir && LoadSchema(dir[SchemaName(schemaPart, table)]) == Ok(schema)
    && CsvName(schemaPart, table) !in dir
  }

  /** There is such a directory for every schema of identifiers. */
  lemma SchemaFileIsEnough(schemaPart: Option<string>, table: string, schema: seq<Column>)
    requires IdentifierName(schemaPart, table) && ValidSchema(schema)
    requires forall i :: 0 <= i < |schema| ==> IsIdentifier(schema[i].name)
    ensures Fresh(map[SchemaName(schemaPart, table) := RenderSchema(schema)], schemaPart, table, schema)
  {
    hide LoadSchema, RenderSchema;
    CsvIsNoSchema(schemaPart, table, schemaPart, table);
    forall i | 0 <= i < |schema|
      ensures !HasBom(schema[i].name)
    {
      IdentifierIsPlain(schema[i].name);
    }
    SchemaRoundTrip(schema);
  }

  predicate FitRows(schema: seq<Column>, rows: seq<seq<SqlValue>>) {
    forall i :: 0 <= i < |rows| ==> |rows[i]| == |schema| && TypesMatch(schema, rows[i])
  }

  function RenderedRows(rows: seq<seq<SqlValue>>): seq<string> {
    seq(|rows|, i requires 0 <= i < |rows| => RenderRow(rows[i]))
  }

  /** The CSV bytes of a table with these rows. */
  function TableText(schema: seq<Column>, rows: seq<seq<SqlValue>>): string {
    HeaderLine(Names(schema)) + RenderRecords(RenderedRows(rows))
  }

  lemma IndexOfDistinct(names: seq<string>, i: nat)
    requires Distinct(names) && i < |names|
    ensures IndexOf(names, names[i]) == i
  {
    assert names[i] in names;
  }

  lemma StoredInOrder(schema: seq<Column>, row: seq<SqlValue>)
    requires ValidSchema(schema) && |row| == |schema| && TypesMatch(schema, row)
    ensures StoredValues(Some(schema), Names(schema), row) == Ok(row)
  {
    var names := Names(schema);
    forall i | 0 <= i < |schema|
      ensures Mapped(schema, names, row)[i] == row[i]
    {
      IndexOfDistinct(names, i);
      assert names[i] == schema[i].name;
    }
    assert Mapped(schema, names, row) == row;
  }

  lemma TableTextGrows(schema: seq<Column>, rows: seq<seq<SqlValue>>, row: seq<SqlValue>)
    ensures WithRow(TableText(schema, rows), row) == TableText(schema, rows + [row])
  {
    var text := TableText(schema, rows);
    EndsInNewline(RenderedRows(rows), HeaderLine(Names(schema)));
    assert RenderedRows(rows + [row]) == RenderedRows(rows) + [RenderRow(row)];
    RenderMore(RenderedRows(rows), RenderRow(row));
    var header, body, line := HeaderLine(Names(schema)), RenderRecords(RenderedRows(rows)), RenderRow(row);
    Associative(header, body, line);
    Associative(header, body + line, "\n");
  }

  lemma {:induction false} EndsInNewline(records: seq<string>, start: string)
    requires start != "" && start[|start| - 1] == '\n'
    ensures NormalizeTail(start + RenderRecords(records)) == start + RenderRecords(records)
  {
    if records == [] {
      assert start + "" == start;
    } else {
      var first := records[0] + "\n";
      Associative(start, first, RenderRecords(records[1..]));
      EndsInNewline(records[1..], start + first);
    }
  }

  lemma AppendToTable(schemaFile: Option<string>, schema: seq<Column>, rows: seq<seq<SqlValue>>, row: seq<SqlValue>)
    requires LoadOptionalSchema(schemaFile) == Ok(Some(schema)) && ValidSchema(schema)
    requires forall i :: 0 <= i < |schema| ==> IsIdentifier(schema[i].name)
    requires |row| == |schema| && TypesMatch(schema, row)
    ensures AppendRow(schemaFile, Some(TableText(schema, rows)), Names(schema), row)
         == Ok(TableText(schema, rows + [row]))
    ensures AppendRow(schemaFile, None, Names(schema), row) == Ok(TableText(schema, [row]))
  {
    hide LoadOptionalSchema, WithRow, HeaderLine;
    StoredInOrder(schema, row);
    HeaderReads(Names(schema), RenderRecords(RenderedRows(rows)));
    TableTextGrows(schema, rows, row);
    HeaderReads(Names(schema), "");
    TableTextGrows(schema, [], row);
    assert RenderRecords(RenderedRows([])) == "" && HeaderLine(Names(schema)) + "" == HeaderLine(Names(schema));
    assert [] + [row] == [row];
  }

  // ---------- the whole run ----------

  function InsertInto(schemaPart: Option<string>, table: string, schema: seq<Column>, row: seq<SqlValue>): Statement {
    Insert(schemaPart, table, Names(schema), row)
  }

  /** One INSERT for each row and a SELECT behind them; an empty list stands for the asterisk. */
  function FillScript(schemaPart: Option<string>, table: string, schema: seq<Column>,
                      rows: seq<seq<SqlValue>>, columns: seq<string>): seq<Statement>
  {
    seq(|rows|, i requires 0 <= i < |rows| => InsertInto(schemaPart, table, schema, rows[i]))
    + [Select(schemaPart, table, columns == [], columns)]
  }

  function Times(s: string, n: nat): string {
    if n == 0 then "" else Times(s, n - 1) + s
  }

  function WithTable(dir: Dir, schemaPart: Option<string>, table: string, schema: seq<Column>,
                     rows: seq<seq<SqlValue>>): Dir
  {
    if rows == [] then dir else dir[CsvName(schemaPart, table) := TableText(schema, rows)]
  }

  lemma InsertStep(dir: Dir, schemaPart: Option<string>, table: string, schema: seq<Column>,
                   rows: seq<seq<SqlValue>>, row: seq<SqlValue>)
    requires Fresh(dir, schemaPart, table, schema) && |row| == |schema| && TypesMatch(schema, row)
    ensures RunStatement(WithTable(dir, schemaPart, table, schema, rows), InsertInto(schemaPart, table, schema, row))
         == Ok(Ran(WithTable(dir, schemaPart, table, schema, rows + [row]), InsertMessage(schemaPart, table)))
  {
    hide AppendRow, TableText, InsertMessage, LoadSchema;
    var csvName, schemaName := CsvName(schemaPart, table), SchemaName(schemaPart, table);
    CsvIsNoSchema(schemaPart, table, schemaPart, table);
    var now := WithTable(dir, schemaPart, table, schema, rows);
    assert Lookup(now, schemaName) == Some(dir[schemaName]);
    AppendToTable(Some(dir[schemaName]), schema, rows, row);
    if rows == [] { assert [] + [row] == [row]; }
    assert now[csvName := TableText(schema, rows + [row])] == WithTable(dir, schemaPart, table, schema, rows + [row]);
  }

  lemma SelectStep(dir: Dir, schemaPart: Option<string>, table: string, schema: seq<Column>, rows: seq<seq<SqlValue>>)
    requires Fresh(dir, schemaPart, table, schema) && FitRows(schema, rows) && rows != []
    ensures var now := WithTable(dir, schemaPart, table, schema, rows);
            RunStatement(now, Select(schemaPart, table, true, [])) == Ok(Ran(now, TableText(schema, rows)))
  {
    hide SelectRows, TableText, LoadSchema;
    var csvName, schemaName := CsvName(schemaPart, table), SchemaName(schemaPart, table);
    CsvIsNoSchema(schemaPart, table, schemaPart, table);
    var now := WithTable(dir, schemaPart, table, schema, rows);
    assert Lookup(now, schemaName) == Some(dir[schemaName]);
    SelectTable(Some(dir[schemaName]), schema, rows);
  }

  lemma RowsRead(schema: seq<Column>, rows: seq<seq<SqlValue>>)
    requires schema != [] && FitRows(schema, rows)
    ensures forall i :: 0 <= i < |rows| ==> IsRecordText(RenderedRows(rows)[i])
    ensures RowsHaveWidth(RenderedRows(rows), |schema|)
  {
    forall i | 0 <= i < |rows|
      ensures IsRecordText(RenderedRows(rows)[i]) && HasWidth(RenderedRows(rows)[i], |schema|)
    {
      RowFields(rows[i]);
    }
  }

  lemma TableReads(schema: seq<Column>, rows: seq<seq<SqlValue>>)
    requires ValidSchema(schema) && FitRows(schema, rows)
    requires forall i :: 0 <= i < |schema| ==> IsIdentifier(schema[i].name)
    ensures LoadHeader(TableText(schema, rows)) == Ok(Header(Names(schema), RenderRecords(RenderedRows(rows))))
    ensures ReadAll(TableText(schema, rows)) == Some([RenderCells(NameCells(Names(schema)))] + RenderedRows(rows))
  {
    hide RenderCells, ParseFields;
    var rendered := RenderedRows(rows);
    HeaderReads(Names(schema), RenderRecords(rendered));
    RowsRead(schema, rows);
    ReadRendered(rendered);
  }

  lemma SelectTable(schemaFile: Option<string>, schema: seq<Column>, rows: seq<seq<SqlValue>>)
    requires LoadOptionalSchema(schemaFile) == Ok(Some(schema)) && ValidSchema(schema) && FitRows(schema, rows)
    requires forall i :: 0 <= i < |schema| ==> IsIdentifier(schema[i].name)
    ensures SelectRows(schemaFile, Some(TableText(schema, rows)), true, []) == Ok(TableText(schema, rows))
  {
    hide RenderCells, ParseFields, LoadOptionalSchema;
    var title, rendered := RenderCells(NameCells(Names(schema))), RenderedRows(rows);
    TableReads(schema, rows);
    RowsRead(schema, rows);
    CopyRendered(TableText(schema, rows), |schema|, true);
    assert ([title] + rendered)[1..] == rendered;
    SelectAllCopies(schemaFile, TableText(schema, rows));
  }

  /** A run that takes one planned step a statement goes through the planned directories. */
  lemma {:induction false} StepsFollowPlan(step: (Dir, Statement) -> Result<Ran>, plan: seq<Dir>,
                                           script: seq<Statement>, message: string, k: nat)
    requires k < |plan| && k <= |script|
    requires forall i :: 0 <= i < k ==> step(plan[i], script[i]) == Ok(Ran(plan[i + 1], message))
    ensures RunSteps(step, plan[0], script, k) == Ok(Ran(plan[k], Times(message, k)))
  {
    if k > 0 { StepsFollowPlan(step, plan, script, message, k - 1); }
  }

  /** From an SQL text to the printed table: over a schema of identifiers, any rows of matching types that
      one text inserts into a table without CSV are stored and selected as those rows, all of them and in
      order, behind the header. */
  lemma FilledTableIsSelected(dir: Dir, schemaPart: Option<string>, table: string, schema: seq<Column>,
                              rows: seq<seq<SqlValue>>)
    requires Fresh(dir, schemaPart, table, schema) && FitRows(schema, rows) && rows != []
    ensures var script := FillScript(schemaPart, table, schema, rows, []);
            && ParseScript(RenderScript(script)) == Match(script, [])
            && RunScript(dir, script) ==
               Ok(Ran(dir[CsvName(schemaPart, table) := TableText(schema, rows)],
                      Times(InsertMessage(schemaPart, table), |rows|) + TableText(schema, rows)))
    ensures ReadAll(TableText(schema, rows)) == Some([RenderCells(NameCells(Names(schema)))] + RenderedRows(rows))
  {
    hide RunSteps, RunStatement, ParseScript, RenderScript, TableText, RenderCells;
    SelectStep(dir, schemaPart, table, schema, rows);
    FilledAndSelected(dir, schemaPart, table, schema, rows, [], TableText(schema, rows));
    TableReads(schema, rows);
  }

  lemma FilledAndSelected(dir: Dir, schemaPart: Option<string>, table: string, schema: seq<Column>,
                          rows: seq<seq<SqlValue>>, columns: seq<string>, output: string)
    requires Fresh(dir, schemaPart, table, schema) && FitRows(schema, rows) && rows != []
    requires Distinct(columns) && forall i :: 0 <= i < |columns| ==> IsIdentifier(columns[i])
    requires var now := WithTable(dir, schemaPart, table, schema, rows);
             RunStatement(now, Select(schemaPart, table, columns == [], columns)) == Ok(Ran(now, output))
    ensures var script := FillScript(schemaPart, table, schema, rows, columns);
            && ParseScript(RenderScript(script)) == Match(script, [])
            && RunScript(dir, script) ==
               Ok(Ran(dir[CsvName(schemaPart, table) := TableText(schema, rows)],
                      Times(InsertMessage(schemaPart, table), |rows|) + output))
  {
    hide RunSteps, RunStatement, ParseScript, RenderScript, TableText;
    var script := FillScript(schemaPart, table, schema, rows, columns);
    FillScriptIsWellFormed(schemaPart, table, schema, rows, columns);
    ScriptRoundTrip(script);
    InsertsRun(dir, schemaPart, table, schema, rows, columns);
    LastStep(RunStatement, dir, script);
  }

  // ---------- a projection at the end ----------

  /** The selected values of a row, in the order of the selection. */
  function PickRow(schema: seq<Column>, row: seq<SqlValue>, columns: seq<string>): (picked: seq<SqlValue>)
    requires |row| == |schema| && ValidSelection(Names(schema), columns)
    ensures |picked| == |columns|
  {
    seq(|columns|, m requires 0 <= m < |columns| => row[IndexOf(Names(schema), columns[m])])
  }

  function PickRows(schema: seq<Column>, rows: seq<seq<SqlValue>>, columns: seq<string>): (picked: seq<seq<SqlValue>>)
    requires FitRows(schema, rows) && ValidSelection(Names(schema), columns)
    ensures |picked| == |rows|
  {
    seq(|rows|, k requires 0 <= k < |rows| => PickRow(schema, rows[k], columns))
  }

  /** The first field of a record would lose a byte order mark. */
  ghost predicate NoFirstBoms(rows: seq<seq<SqlValue>>) {
    forall k :: 0 <= k < |rows| ==> rows[k] != [] && NoBomValue(rows[k][0])
  }

  lemma ProjectedCellsOf(schema: seq<Column>, row: seq<SqlValue>, columns: seq<string>)
    requires schema != [] && |row| == |schema| && TypesMatch(schema, row) && NoBomValue(row[0])
    requires ValidSelection(Names(schema), columns)
    ensures ParseFields(RenderRow(row)) == Some(Texts(RowCells(row)))
    ensures ProjectCells(schema, Texts(RowCells(row)), Indices(Names(schema), columns))
         == RowCells(PickRow(schema, row, columns))
  {
    hide ParseFields, RenderRow;
    RowFields(row);
    var indices := Indices(Names(schema), columns);
    forall m | 0 <= m < |columns|
      ensures indices[m] == IndexOf(Names(schema), columns[m])
      ensures ProjectCells(schema, Texts(RowCells(row)), indices)[m] == RowCells(PickRow(schema, row, columns))[m]
    {
      assert schema[indices[m]].kind == StringColumn <==> row[indices[m]].StringValue?;
    }
  }

  lemma SelectProjects(schemaFile: Option<string>, schema: seq<Column>, csv: string, columns: seq<string>, out: string)
    requires LoadOptionalSchema(schemaFile) == Ok(Some(schema))
    requires LoadHeader(csv).Ok? && LoadHeader(csv).value.fields == Names(schema)
    requires columns != [] && ValidSelection(Names(schema), columns)
    requires ProjectRecords(LoadHeader(csv).value.rest, schema, Indices(Names(schema), columns)) == Ok(out)
    ensures SelectRows(schemaFile, Some(csv), false, columns) == Ok(HeaderLine(columns) + out)
  {
    hide ProjectRecords, LoadHeader, ValidSelection, Indices, Names;
  }

  lemma ProjectsToPicked(schema: seq<Column>, rows: seq<seq<SqlValue>>, columns: seq<string>)
    requires ValidSchema(schema) && FitRows(schema, rows) && NoFirstBoms(rows)
    requires ValidSelection(Names(schema), columns)
    ensures ProjectRecords(RenderRecords(RenderedRows(rows)), schema, Indices(Names(schema), columns))
         == Ok(RenderRecords(RenderedRows(PickRows(schema, rows, columns))))
  {
    hide RenderCells, ParseFields, RenderRow, ValidSelection, ProjectRecords, ReadRecord;
    var rendered, indices := RenderedRows(rows), Indices(Names(schema), columns);
    RowsRead(schema, rows);
    ReadRendered(rendered);
    ProjectRendered(RenderRecords(rendered), schema, indices);
    forall k | 0 <= k < |rows|
      ensures ProjectRows(rendered, schema, indices)[k] == RenderedRows(PickRows(schema, rows, columns))[k]
    {
      ProjectedCellsOf(schema, rows[k], columns);
      RowIsCells(PickRow(schema, rows[k], columns));
    }
    assert ProjectRows(rendered, schema, indices) == RenderedRows(PickRows(schema, rows, columns));
  }

  lemma SelectColumns(schemaFile: Option<string>, schema: seq<Column>, rows: seq<seq<SqlValue>>, columns: seq<string>)
    requires LoadOptionalSchema(schemaFile) == Ok(Some(schema)) && ValidSchema(schema) && FitRows(schema, rows)
    requires forall i :: 0 <= i < |schema| ==> IsIdentifier(schema[i].name)
    requires NoFirstBoms(rows) && columns != [] && ValidSelection(Names(schema), columns)
    ensures SelectRows(schemaFile, Some(TableText(schema, rows)), false, columns)
         == Ok(HeaderLine(columns) + RenderRecords(RenderedRows(PickRows(schema, rows, columns))))
  {
    hide SelectRows, LoadOptionalSchema, ProjectRecords, TableText, LoadHeader, RenderRecords, ValidSelection, Indices;
    TableReads(schema, rows);
    ProjectsToPicked(schema, rows, columns);
    SelectProjects(schemaFile, schema, TableText(schema, rows), columns,
                   RenderRecords(RenderedRows(PickRows(schema, rows, columns))));
  }

  lemma RowIsCells(values: seq<SqlValue>)
    ensures RenderRow(values) == RenderCells(RowCells(values))
  {
  }

  /** The same with a projection at the end: it prints the selected names and the selected values of every row, in
      the order of the selection. */
  lemma FilledTableIsProjected(dir: Dir, schemaPart: Option<string>, table: string, schema: seq<Column>,
                               rows: seq<seq<SqlValue>>, columns: seq<string>)
    requires Fresh(dir, schemaPart, table, schema) && FitRows(schema, rows) && rows != [] && NoFirstBoms(rows)
    requires columns != [] && ValidSelection(Names(schema), columns)
    ensures var script := FillScript(schemaPart, table, schema, rows, columns);
            && ParseScript(RenderScript(script)) == Match(script, [])
            && RunScript(dir, script) ==
               Ok(Ran(dir[CsvName(schemaPart, table) := TableText(schema, rows)],
                      Times(InsertMessage(schemaPart, table), |rows|)
                      + (HeaderLine(columns) + RenderRecords(RenderedRows(PickRows(schema, rows, columns))))))
  {
    hide SelectRows, TableText, LoadSchema, ParseScript, RenderScript, RunSteps;
    var csvName, schemaName := CsvName(schemaPart, table), SchemaName(schemaPart, table);
    CsvIsNoSchema(schemaPart, table, schemaPart, table);
    var now := WithTable(dir, schemaPart, table, schema, rows);
    assert Lookup(now, schemaName) == Some(dir[schemaName]);
    SelectColumns(Some(dir[schemaName]), schema, rows, columns);
    SelectedAreIdentifiers(schema, columns);
    FilledAndSelected(dir, schemaPart, table, schema, rows, columns,
                      HeaderLine(columns) + RenderRecords(RenderedRows(PickRows(schema, rows, columns))));
  }

  lemma SelectedAreIdentifiers(schema: seq<Column>, columns: seq<string>)
    requires forall i :: 0 <= i < |schema| ==> IsIdentifier(schema[i].name)
    requires ValidSelection(Names(schema), columns)
    ensures forall i :: 0 <= i < |columns| ==> IsIdentifier(columns[i])
  {
    forall i | 0 <= i < |columns|
      ensures IsIdentifier(columns[i])
    {
      var j :| 0 <= j < |schema| && Names(schema)[j] == columns[i];
    }
  }

  lemma LastStep(step: (Dir, Statement) -> Result<Ran>, dir: Dir, script: seq<Statement>)
    requires script != [] && RunSteps(step, dir, script, |script| - 1).Ok?
    requires step(RunSteps(step, dir, script, |script| - 1).value.dir, script[|script| - 1]).Ok?
    ensures var before := RunSteps(step, dir, script, |script| - 1).value;
            var last := step(before.dir, script[|script| - 1]).value;
            RunSteps(step, dir, script, |script|) == Ok(Ran(last.dir, before.output + last.output))
  {
  }

  lemma InsertsRun(dir: Dir, schemaPart: Option<string>, table: string, schema: seq<Column>,
                   rows: seq<seq<SqlValue>>, columns: seq<string>)
    requires Fresh(dir, schemaPart, table, schema) && FitRows(schema, rows)
    ensures RunSteps(RunStatement, dir, FillScript(schemaPart, table, schema, rows, columns), |rows|)
         == Ok(Ran(WithTable(dir, schemaPart, table, schema, rows), Times(InsertMessage(schemaPart, table), |rows|)))
  {
    hide RunSteps, RunStatement, TableText, InsertMessage, Fresh;
    var script, n := FillScript(schemaPart, table, schema, rows, columns), |rows|;
    var plan := seq(n + 1, i requires 0 <= i <= n => WithTable(dir, schemaPart, table, schema, rows[..i]));
    forall i | 0 <= i < n
      ensures RunStatement(plan[i], script[i]) == Ok(Ran(plan[i + 1], InsertMessage(schemaPart, table)))
    {
      assert rows[..i + 1] == rows[..i] + [rows[i]];
      InsertStep(dir, schemaPart, table, schema, rows[..i], rows[i]);
    }
    assert rows[..0] == [] && rows[..n] == rows;
    StepsFollowPlan(RunStatement, plan, script, InsertMessage(schemaPart, table), n);
  }

  lemma FillScriptIsWellFormed(schemaPart: Option<string>, table: string, schema: seq<Column>,
                               rows: seq<seq<SqlValue>>, columns: seq<string>)
    requires IdentifierName(schemaPart, table) && ValidSchema(schema) && FitRows(schema, rows)
    requires forall i :: 0 <= i < |schema| ==> IsIdentifier(schema[i].name)
    requires Distinct(columns) && forall i :: 0 <= i < |columns| ==> IsIdentifier(columns[i])
    ensures forall i :: 0 <= i <= |rows| ==> WellFormed(FillScript(schemaPart, table, schema, rows, columns)[i])
  {
    forall i | 0 <= i < |rows|
      ensures WellFormed(InsertInto(schemaPart, table, schema, rows[i]))
    {
      assert |rows[i]| == |schema|;
    }
  }
}
