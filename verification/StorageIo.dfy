/** The methods of src/storage.c over streams and directories, proved against Storage. */
module StorageIo {
  import opened SqlTypes
  import opened Csv
  import opened CsvIo
  import opened Schema
  import opened Storage

  // ---------- schema ----------

  /** find_schema_index */
  method FindSchemaIndex(schema: seq<Column>, name: string) returns (index: Option<nat>)
    ensures index == if name in Names(schema) then Some(IndexOf(Names(schema), name)) else None
  {
    var names := Names(schema);
    assert names[0..] == names;
    for i := 0 to |schema|
      invariant name !in names[..i]
      invariant IndexOf(names, name) == i + IndexOf(names[i..], name)
    {
      assert names[i..][1..] == names[i + 1..];
      if schema[i].name == name { return Some(i); }
    }
    index := None;
  }

  /** One row of a schema file */
  method ParseSchemaRow(record: string, schema: seq<Column>) returns (column: Option<Column>)
    ensures column == SchemaRow(record, schema)
  {
    var row := ParseCsvRecord(record);
    if row == None || |row.value| != 2 || row.value[0] == "" { return None; }
    var kind := ParseType(row.value[1]);
    if kind == None { return None; }
    var known := FindSchemaIndex(schema, row.value[0]);
    column := if known.Some? then None else Some(Column(row.value[0], kind.value));
  }

  /** load_table_schema, once the file has been opened */
  method LoadTableSchema(file: File) returns (result: Result<seq<Column>>)
    requires file.Valid() && file.pos == 0
    modifies file`pos
    ensures result == LoadSchema(file.bytes)
  {
    assert file.bytes[0..] == file.bytes;
    var read := ReadCsvRecord(file);
    if !read.GotRecord? { return Err(Parse); }
    var row := ParseCsvRecord(read.record);
    if row != Some(["name", "type"]) { return Err(Parse); }
    var schema: seq<Column> := [];
    while true
      invariant file.Valid() && (schema != [] ==> ValidSchema(schema))
      invariant LoadSchema(file.bytes) == LoadRows(file.Unread(), schema)
      decreases |file.bytes| - file.pos
    {
      read := ReadCsvRecord(file);
      if read.NoRecord? { break; }
      if read.BadRecord? { return Err(Parse); }
      var column := ParseSchemaRow(read.record, schema);
      if column == None { return Err(Parse); }
      ExtendSchema(schema, column.value);
      schema := schema + [column.value];
    }
    result := if schema == [] then Err(Parse) else Ok(schema);
  }

  /** load_csv_header: on success the stream stands behind the header. */
  method LoadCsvHeader(file: File) returns (fields: Option<seq<string>>)
    requires file.Valid() && file.pos == 0
    modifies file`pos
    ensures file.Valid()
    ensures match LoadHeader(file.bytes)
            case Err(_) => fields == None
            case Ok(header) => fields == Some(header.fields) && file.Unread() == header.rest
  {
    assert file.bytes[0..] == file.bytes;
    var read := ReadCsvRecord(file);
    if !read.GotRecord? { return None; }
    fields := ParseCsvRecord(read.record);
  }

  /** header_matches_schema */
  method HeaderMatchesSchema(header: seq<string>, schema: seq<Column>) returns (matches: bool)
    ensures matches <==> header == Names(schema)
  {
    if |header| != |schema| { return false; }
    for i := 0 to |schema|
      invariant header[..i] == Names(schema)[..i]
    {
      if header[i] != schema[i].name {
        assert Names(schema)[i] == schema[i].name;
        return false;
      }
    }
    matches := true;
  }

  // ---------- mapping ----------

  /** validate_value_types */
  method ValidateValueTypes(schema: seq<Column>, values: seq<SqlValue>) returns (valid: bool)
    requires |schema| == |values|
    ensures valid <==> TypesMatch(schema, values)
  {
    for i := 0 to |schema|
      invariant forall k :: 0 <= k < i ==> (schema[k].kind == StringColumn <==> values[k].StringValue?)
    {
      if schema[i].kind == IntColumn && !values[i].IntValue? { return false; }
      if schema[i].kind == StringColumn && !values[i].StringValue? { return false; }
    }
    valid := true;
  }

  /** The first i listed columns are known and distinct, and their slots hold their values. */
  ghost predicate Assigned(names: seq<string>, columns: seq<string>, values: seq<SqlValue>, i: nat,
                           taken: seq<bool>, ordered: seq<SqlValue>) {
    && |taken| == |ordered| == |names| && i <= |columns| == |values|
    && (forall k :: 0 <= k < i ==> columns[k] in names && taken[IndexOf(names, columns[k])])
    && (forall k :: 0 <= k < i ==> ordered[IndexOf(names, columns[k])] == values[k])
    && (forall k, l :: 0 <= k < l < i ==> columns[k] != columns[l])
    && (forall s :: 0 <= s < |names| && taken[s] ==> names[s] in columns[..i])
  }

  lemma AllAssigned(schema: seq<Column>, columns: seq<string>, values: seq<SqlValue>,
                    taken: seq<bool>, ordered: seq<SqlValue>)
    requires ValidSchema(schema) && |columns| == |schema| == |values|
    requires Assigned(Names(schema), columns, values, |columns|, taken, ordered)
    ensures Fits(schema, columns, values) && ordered == Mapped(schema, columns, values)
  {
    var names := Names(schema);
    assert forall c :: c in columns ==> c in names;
    Pigeonhole(schema, columns);
    forall s | 0 <= s < |schema|
      ensures ordered[s] == Mapped(schema, columns, values)[s]
    {
      PermutationShape(schema, columns);
      assert names[s] in names;
      var k := IndexOf(columns, names[s]);
      assert IndexOf(names, columns[k]) == s;
    }
  }

  lemma Refused(schema: seq<Column>, columns: seq<string>, i: nat)
    requires ValidSchema(schema) && i < |columns| == |schema|
    requires columns[i] !in Names(schema) || columns[i] in columns[..i]
    ensures multiset(columns) != multiset(Names(schema))
  {
    Pigeonhole(schema, columns);
    if columns[i] in columns[..i] {
      var k :| 0 <= k < i && columns[k] == columns[i];
      assert !Distinct(columns);
    }
  }

  lemma AssignNext(names: seq<string>, columns: seq<string>, values: seq<SqlValue>, i: nat,
                   taken: seq<bool>, ordered: seq<SqlValue>, slot: nat)
    requires Distinct(names) && Assigned(names, columns, values, i, taken, ordered) && i < |columns|
    requires columns[i] in names && slot == IndexOf(names, columns[i]) && !taken[slot]
    ensures Assigned(names, columns, values, i + 1, taken[slot := true], ordered[slot := values[i]])
  {
    assert columns[..i + 1] == columns[..i] + [columns[i]];
    forall k | 0 <= k < i
      ensures columns[k] != columns[i] && IndexOf(names, columns[k]) != slot
    {
      assert taken[IndexOf(names, columns[k])];
    }
  }

  /** map_values_to_schema: succeeds exactly when the INSERT fits, and then fills every slot once. */
  method MapValuesToSchema(schema: seq<Column>, columns: seq<string>, values: seq<SqlValue>)
    returns (result: Result<seq<SqlValue>>)
    requires ValidSchema(schema)
    ensures result == if Fits(schema, columns, values) then Ok(Mapped(schema, columns, values)) else Err(Argument)
  {
    if |values| != |schema| { return Err(Argument); }
    var ordered := new SqlValue[|schema|](_ => IntValue(0));
    var taken := new bool[|schema|](_ => false);
    if |columns| == 0 {
      for i := 0 to |schema|
        invariant ordered[..i] == values[..i]
      {
        ordered[i] := values[i];
      }
      assert ordered[..] == ordered[..|schema|] && values == values[..|schema|];
    } else {
      if |columns| != |schema| {
        if multiset(columns) == multiset(Names(schema)) { PermutationShape(schema, columns); }
        return Err(Argument);
      }
      for i := 0 to |columns|
        invariant Assigned(Names(schema), columns, values, i, taken[..], ordered[..])
      {
        var index := FindSchemaIndex(schema, columns[i]);
        if index == None || taken[index.value] {
          Refused(schema, columns, i);
          return Err(Argument);
        }
        AssignNext(Names(schema), columns, values, i, taken[..], ordered[..], index.value);
        taken[index.value] := true;
        ordered[index.value] := values[i];
      }
      AllAssigned(schema, columns, values, taken[..], ordered[..]);
    }
    result := Ok(ordered[..]);
  }

  // ---------- append ----------

  /** write_csv_value: the union is only read as a string when it holds one. */
  method WriteCsvValue(file: File, value: SqlValue, column: Option<Column>)
    requires file.AtEnd()
    requires column.Some? && column.value.kind == StringColumn ==> value.StringValue?
    modifies file
    ensures file.AtEnd() && file.bytes == old(file.bytes) + RenderCell(ValueCell(value))
  {
    if column.Some? && column.value.kind == StringColumn {
      WriteCsvString(file, value.s);
      return;
    }
    match value
    case StringValue(s) => WriteCsvString(file, s);
    case IntValue(n) => WriteSignedInteger(file, n);
  }

  /** append_newline_if_needed */
  method AppendNewlineIfNeeded(file: File)
    requires file.Valid()
    modifies file
    ensures file.AtEnd() && file.bytes == NormalizeTail(old(file.bytes))
  {
    file.SeekFromEnd(0);
    if file.pos > 0 {
      file.SeekFromEnd(1);
      var last := file.Getc();
      if last != Some('\n') && last != Some('\r') {
        file.SeekFromEnd(0);
        file.Putc('\n');
      } else {
        file.SeekFromEnd(0);
      }
    }
  }

  function Separator(i: nat): string {
    if i > 0 then "," else ""
  }

  /** A stream that held start once the first i cells of a row are written. */
  function Written(start: string, cells: seq<Cell>, i: nat): string
    requires i <= |cells|
  {
    if i == 0 then start
    else Written(start, cells, i - 1) + Separator(i - 1) + RenderCell(cells[i - 1])
  }

  function Unwritten(cells: seq<Cell>, i: nat): string
    requires i <= |cells|
  {
    if i == |cells| then "" else Separator(i) + RenderCells(cells[i..])
  }

  lemma UnwrittenStep(cells: seq<Cell>, i: nat)
    requires i < |cells|
    ensures Unwritten(cells, i) == Separator(i) + (RenderCell(cells[i]) + Unwritten(cells, i + 1))
  {
    assert cells[i..][1..] == cells[i + 1..];
    if i + 1 < |cells| {
      Associative(RenderCell(cells[i]), ",", RenderCells(cells[i + 1..]));
    } else {
      assert RenderCell(cells[i]) + "" == RenderCell(cells[i]);
    }
  }

  lemma NothingWritten(start: string, cells: seq<Cell>)
    ensures Written(start, cells, 0) + Unwritten(cells, 0) == start + RenderCells(cells)
  {
    assert cells[0..] == cells;
    assert "" + RenderCells(cells) == RenderCells(cells);
  }

  lemma OneMoreWritten(start: string, cells: seq<Cell>, i: nat, next: nat)
    requires next == i + 1 <= |cells|
    ensures Written(start, cells, next) + Unwritten(cells, next) == Written(start, cells, i) + Unwritten(cells, i)
  {
    var before, cell, rest := Written(start, cells, i), RenderCell(cells[i]), Unwritten(cells, next);
    UnwrittenStep(cells, i);
    assert Written(start, cells, next) == before + Separator(i) + cell;
    Associative(before + Separator(i), cell, rest);
    Associative(before, Separator(i), cell + rest);
  }

  lemma {:induction false} WrittenSoFar(start: string, cells: seq<Cell>, i: nat)
    requires i <= |cells|
    ensures Written(start, cells, i) + Unwritten(cells, i) == start + RenderCells(cells)
  {
    if i == 0 {
      NothingWritten(start, cells);
    } else {
      var before := i - 1;
      WrittenSoFar(start, cells, before);
      OneMoreWritten(start, cells, before, i);
    }
  }

  lemma AllWritten(start: string, cells: seq<Cell>)
    ensures Written(start, cells, |cells|) == start + RenderCells(cells)
  {
    WrittenSoFar(start, cells, |cells|);
    assert Written(start, cells, |cells|) + "" == Written(start, cells, |cells|);
  }

  method WriteSeparator(file: File, i: nat)
    requires file.AtEnd()
    modifies file
    ensures file.AtEnd() && file.bytes == old(file.bytes) + Separator(i)
  {
    if i > 0 { file.Putc(','); }
  }

  /** append_row_to_file */
  method AppendRowToFile(file: File, schema: Option<seq<Column>>, values: seq<SqlValue>)
    requires file.Valid()
    requires schema.Some? ==> |schema.value| == |values| && TypesMatch(schema.value, values)
    modifies file
    ensures file.AtEnd() && file.bytes == WithRow(old(file.bytes), values)
  {
    AppendNewlineIfNeeded(file);
    ghost var start, cells := file.bytes, RowCells(values);
    for i := 0 to |values|
      invariant file.AtEnd() && file.bytes == Written(start, cells, i)
    {
      WriteSeparator(file, i);
      WriteCsvValue(file, values[i], if schema.Some? then Some(schema.value[i]) else None);
    }
    AllWritten(start, cells);
    file.Putc('\n');
  }

  /** create_csv_from_schema and the header loop of storage_select_projection */
  method WriteHeader(file: File, names: seq<string>)
    requires file.AtEnd()
    modifies file
    ensures file.AtEnd() && file.bytes == old(file.bytes) + HeaderLine(names)
  {
    ghost var start, cells := file.bytes, NameCells(names);
    for i := 0 to |names|
      invariant file.AtEnd() && file.bytes == Written(start, cells, i)
    {
      WriteSeparator(file, i);
      file.Puts(names[i]);
    }
    AllWritten(start, cells);
    file.Putc('\n');
    assert start + RenderCells(cells) + "\n" == start + HeaderLine(names);
  }

  // ---------- select ----------

  lemma Emitted(start: string, before: string, line: string, rest: string, all: string)
    requires before + (line + rest) == start + all
    ensures before + line + rest == start + all
  {
    assert before + line + rest == before + (line + rest);
  }

  method WriteLine(out: File, record: string)
    requires out.AtEnd()
    modifies out
    ensures out.AtEnd() && out.bytes == old(out.bytes) + (record + "\n")
  {
    out.Puts(record);
    out.Putc('\n');
  }

  /** copy_stream_validated */
  method CopyStreamValidated(input: File, out: File, width: nat) returns (ok: bool)
    requires input != out && input.Valid() && out.AtEnd()
    modifies input`pos, out
    ensures out.AtEnd()
    ensures match CopyRecords(old(input.Unread()), width, true)
            case Err(_) => !ok
            case Ok(copied) => ok && out.bytes == old(out.bytes) + copied
  {
    var recordIndex := 0;
    ghost var start, all := out.bytes, CopyRecords(input.Unread(), width, true);
    while true
      invariant input.Valid() && out.AtEnd()
      invariant match CopyRecords(input.Unread(), width, recordIndex == 0)
                case Err(_) => all.Err?
                case Ok(copied) => all.Ok? && out.bytes + copied == start + all.value
      decreases |input.bytes| - input.pos
    {
      var read := ReadCsvRecord(input);
      if read.BadRecord? { return false; }
      if read.NoRecord? { break; }
      if recordIndex > 0 {
        var row := ParseCsvRecord(read.record);
        if row == None || |row.value| != width { return false; }
      }
      ghost var before, rest := out.bytes, CopyRecords(input.Unread(), width, false);
      WriteLine(out, read.record);
      if rest.Ok? { Emitted(start, before, read.record + "\n", rest.value, all.value); }
      recordIndex := recordIndex + 1;
    }
    assert out.bytes + "" == out.bytes;
    ok := true;
  }

  /** write_projection_row */
  method WriteProjectionRow(out: File, schema: seq<Column>, row: seq<string>, indices: seq<nat>)
    requires out.AtEnd() && |row| == |schema| && ValidIndices(indices, |schema|)
    modifies out
    ensures out.AtEnd() && out.bytes == old(out.bytes) + (RenderCells(ProjectCells(schema, row, indices)) + "\n")
  {
    ghost var start, cells := out.bytes, ProjectCells(schema, row, indices);
    for i := 0 to |indices|
      invariant out.AtEnd() && out.bytes == Written(start, cells, i)
    {
      WriteSeparator(out, i);
      if schema[indices[i]].kind == StringColumn {
        WriteCsvString(out, row[indices[i]]);
      } else {
        out.Puts(row[indices[i]]);
      }
    }
    AllWritten(start, cells);
    out.Putc('\n');
    assert start + RenderCells(cells) + "\n" == start + (RenderCells(cells) + "\n");
  }

  /** The index loop of storage_select_projection. */
  method SelectIndices(schema: seq<Column>, columns: seq<string>) returns (indices: Option<seq<nat>>)
    requires ValidSchema(schema)
    ensures indices.Some? <==> ValidSelection(Names(schema), columns)
    ensures indices.Some? ==> indices.value == Indices(Names(schema), columns)
  {
    var names := Names(schema);
    var selected: seq<nat> := [];
    for i := 0 to |columns|
      invariant |selected| == i && ValidSelection(names, columns[..i])
      invariant selected == Indices(names, columns[..i])
    {
      var index := FindSchemaIndex(schema, columns[i]);
      if index == None { return None; }
      for j := 0 to i
        invariant forall k :: 0 <= k < j ==> columns[k] != columns[i]
      {
        assert columns[..i][j] == columns[j];
        if selected[j] == index.value {
          assert columns[j] == columns[i];
          return None;
        }
      }
      selected := selected + [index.value];
      assert columns[..i + 1] == columns[..i] + [columns[i]];
    }
    assert columns[..|columns|] == columns;
    indices := Some(selected);
  }

  /** The row loop of storage_select_projection. */
  method ProjectStream(input: File, out: File, schema: seq<Column>, indices: seq<nat>) returns (ok: bool)
    requires input != out && input.Valid() && out.AtEnd() && ValidIndices(indices, |schema|)
    modifies input`pos, out
    ensures out.AtEnd()
    ensures match ProjectRecords(old(input.Unread()), schema, indices)
            case Err(_) => !ok
            case Ok(rows) => ok && out.bytes == old(out.bytes) + rows
  {
    ghost var start, all := out.bytes, ProjectRecords(input.Unread(), schema, indices);
    while true
      invariant input.Valid() && out.AtEnd()
      invariant match ProjectRecords(input.Unread(), schema, indices)
                case Err(_) => all.Err?
                case Ok(rows) => all.Ok? && out.bytes + rows == start + all.value
      decreases |input.bytes| - input.pos
    {
      var read := ReadCsvRecord(input);
      if read.BadRecord? { return false; }
      if read.NoRecord? { break; }
      var row := ParseCsvRecord(read.record);
      if row == None || |row.value| != |schema| { return false; }
      ghost var before, rest := out.bytes, ProjectRecords(input.Unread(), schema, indices);
      WriteProjectionRow(out, schema, row.value, indices);
      ghost var line := RenderCells(ProjectCells(schema, row.value, indices)) + "\n";
      if rest.Ok? { Emitted(start, before, line, rest.value, all.value); }
    }
    assert out.bytes + "" == out.bytes;
    ok := true;
  }
}
