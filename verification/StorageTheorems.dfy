/** What INSERT and SELECT guarantee about the records of a table, over every file and every row. */
module StorageTheorems {
  import opened SqlTypes
  import opened Csv
  import opened CsvExact
  import opened Schema
  import opened Storage

  predicate RowsHaveWidth(records: seq<string>, width: nat) {
    forall i :: 0 <= i < |records| ==> HasWidth(records[i], width)
  }

  lemma RowsWidthConcat(a: seq<string>, b: seq<string>, width: nat)
    ensures RowsHaveWidth(a + b, width) <==> RowsHaveWidth(a, width) && RowsHaveWidth(b, width)
  {
    assert forall i :: 0 <= i < |a| ==> (a + b)[i] == a[i];
    assert forall i :: 0 <= i < |b| ==> (a + b)[|a| + i] == b[i];
  }

  // ---------- INSERT ----------

  lemma RowFields(values: seq<SqlValue>)
    requires values != []
    ensures IsRecordText(RenderRow(values)) && RenderRow(values) != "" && RenderRow(values)[0] != '\n'
    ensures HasWidth(RenderRow(values), |values|)
    ensures ParseFields(RenderRow(values)) == Some(Texts(RowCells(values)))
       <==> !(values[0].StringValue? && HasBom(values[0].s))
  {
    var cells := RowCells(values);
    RowCellsPrintable(values);
    RowIsRecordText(cells);
    RowStart(values);
    RowRoundTrip(cells, "");
    PrintableIsBare(cells);
    ParseRendered(cells, true);
    assert |Texts(cells[1..])| == |values| - 1;
    match values[0]
    case IntValue(n) => IntTextIsPlain(n);
    case StringValue(_) =>
  }

  lemma StoredCount(schema: Option<seq<Column>>, csv: string, columns: seq<string>, values: seq<SqlValue>)
    requires schema.Some? ==> ValidSchema(schema.value)
    requires StoredValues(schema, columns, values).Ok? && LoadHeader(csv).Ok?
    requires CheckHeader(schema, LoadHeader(csv).value.fields, |values|) == None
    ensures |StoredValues(schema, columns, values).value| == |LoadHeader(csv).value.fields| > 0
  {
  }

  /** A successful INSERT into an existing CSV adds exactly one record and nothing else: the records
      before are unchanged, whether the file ended in LF, CR, CRLF or no newline. The new record has the
      header's width, and its fields are the texts of the stored values exactly when the first of
      them does not start with a byte order mark. An unreadable file stays unreadable. */
  lemma AppendAddsOneRecord(schemaFile: Option<string>, csv: string, columns: seq<string>, values: seq<SqlValue>)
    requires AppendRow(schemaFile, Some(csv), columns, values).Ok?
    ensures var out := AppendRow(schemaFile, Some(csv), columns, values).value;
            var stored := StoredValues(LoadOptionalSchema(schemaFile).value, columns, values).value;
            && ReadAll(out) == (match ReadAll(csv)
                                case None => None
                                case Some(records) => Some(records + [RenderRow(stored)]))
            && HasWidth(RenderRow(stored), |LoadHeader(csv).value.fields|)
            && stored != []
            && (ParseFields(RenderRow(stored)) == Some(Texts(RowCells(stored)))
                <==> !(stored[0].StringValue? && HasBom(stored[0].s)))
            && multiset(stored) == multiset(values)
  {
    var schema := LoadOptionalSchema(schemaFile).value;
    var stored := StoredValues(schema, columns, values).value;
    StoredCount(schema, csv, columns, values);
    RowFields(stored);
    AppendRecord(csv, RenderRow(stored));
    if schema.Some? { MappedKeepsValues(schema.value, columns, values); }
  }

  /** Appending never loses a byte of the old file, and always makes it longer. */
  lemma AppendExtends(schemaFile: Option<string>, csv: string, columns: seq<string>, values: seq<SqlValue>)
    requires AppendRow(schemaFile, Some(csv), columns, values).Ok?
    ensures csv < AppendRow(schemaFile, Some(csv), columns, values).value
  {
    WithRowExtends(csv, StoredValues(LoadOptionalSchema(schemaFile).value, columns, values).value);
  }

  lemma WithRowExtends(csv: string, values: seq<SqlValue>)
    ensures csv < WithRow(csv, values)
  {
    var n := NormalizeTail(csv);
    assert csv <= n;
    Associative(n, RenderRow(values), "\n");
    assert n <= WithRow(csv, values) && |n| < |WithRow(csv, values)|;
  }

  // ---------- auto-create ----------

  lemma {:induction false} IdentifierIsPlain(name: string)
    requires IsIdentifier(name)
    ensures IsPlain(name) && !HasBom(name)
  {
    assert IsIdentStart(name[0]);
    assert BOM[0] == '\U{EF}';
  }

  lemma HeaderReads(names: seq<string>, rest: string)
    requires names != [] && forall i :: 0 <= i < |names| ==> IsIdentifier(names[i])
    ensures ReadRecord(HeaderLine(names) + rest) == Record(RenderCells(NameCells(names)), "\n", rest)
    ensures ParseFields(RenderCells(NameCells(names))) == Some(names)
    ensures IsRecordText(RenderCells(NameCells(names)))
  {
    var cells := NameCells(names);
    forall i | 0 <= i < |names|
      ensures IsPlain(names[i]) && !HasBom(names[i])
    {
      IdentifierIsPlain(names[i]);
    }
    RowRoundTrip(cells, rest);
    RowIsRecordText(cells);
    assert Texts(cells) == names;
  }

  /** Pigeonhole makes every schema name one of the listed identifiers. */
  lemma NamesAreIdentifiers(schema: seq<Column>, columns: seq<string>)
    requires multiset(columns) == multiset(Names(schema))
    requires forall i :: 0 <= i < |columns| ==> IsIdentifier(columns[i])
    ensures forall i :: 0 <= i < |schema| ==> IsIdentifier(Names(schema)[i])
  {
    PermutationShape(schema, columns);
    forall i | 0 <= i < |schema|
      ensures IsIdentifier(Names(schema)[i])
    {
      assert Names(schema)[i] in Names(schema);
      assert Names(schema)[i] in columns;
    }
  }

  /** A parsed INSERT whose column list fits the schema always creates the missing CSV: the raw header
      written re-reads as the schema's names, so the clean-up for a bad header is never reached. */
  lemma AutoCreateSucceeds(schemaFile: Option<string>, columns: seq<string>, values: seq<SqlValue>)
    requires columns != [] && forall i :: 0 <= i < |columns| ==> IsIdentifier(columns[i])
    requires LoadOptionalSchema(schemaFile).Ok?
    ensures var schema := LoadOptionalSchema(schemaFile).value;
            && (AppendRow(schemaFile, None, columns, values).Ok? <==>
                schema.Some? && StoredValues(schema, columns, values).Ok?)
            && (AppendRow(schemaFile, None, columns, values).Ok? ==>
                ReadAll(AppendRow(schemaFile, None, columns, values).value)
                == Some([RenderCells(NameCells(Names(schema.value))),
                         RenderRow(StoredValues(schema, columns, values).value)]))
  {
    hide RenderCells, LoadSchema, Mapped;
    var schema := LoadOptionalSchema(schemaFile).value;
    if schema.Some? && StoredValues(schema, columns, values).Ok? {
      var names := Names(schema.value);
      NamesAreIdentifiers(schema.value, columns);
      HeaderReads(names, "");
      var header := RenderCells(NameCells(names));
      var csv := HeaderLine(names);
      assert csv + "" == csv;
      SingleLine(header);
      var stored := StoredValues(schema, columns, values).value;
      RowFields(stored);
      AppendRecord(csv, RenderRow(stored));
      assert [header] + [RenderRow(stored)] == [header, RenderRow(stored)];
    }
  }

  // ---------- the two SELECT loops on record lists ----------

  /** What SELECT * prints for a record list, of which the rows must have the header's width. */
  function CopiedRecords(records: seq<string>, width: nat, isHeader: bool): Result<string> {
    if RowsHaveWidth(if isHeader && records != [] then records[1..] else records, width)
    then Ok(RenderRecords(records)) else Err(Parse)
  }

  lemma CopiedCons(text: string, records: seq<string>, width: nat, isHeader: bool)
    ensures CopiedRecords([text] + records, width, isHeader) ==
            if !isHeader && !HasWidth(text, width) then Err(Parse)
            else match CopiedRecords(records, width, false) {
              case Err(code) => Err(code)
              case Ok(out) => Ok(text + "\n" + out)
            }
  {
    assert ([text] + records)[1..] == records;
    RowsWidthConcat([text], records, width);
    assert RowsHaveWidth([text], width) <==> HasWidth([text][0], width);
  }

  lemma {:induction false} CopyRendered(s: string, width: nat, isHeader: bool)
    ensures CopyRecords(s, width, isHeader) ==
            match ReadAll(s)
            case None => Err(Parse)
            case Some(records) => CopiedRecords(records, width, isHeader)
    decreases |s|
  {
    match ReadRecord(s)
    case EndOfFile =>
    case Unterminated =>
    case Record(text, _, rest) =>
      CopyRendered(rest, width, false);
      if ReadAll(rest).Some? { CopiedCons(text, ReadAll(rest).value, width, isHeader); }
  }

  function ProjectRows(records: seq<string>, schema: seq<Column>, indices: seq<nat>): (rows: seq<string>)
    requires ValidIndices(indices, |schema|) && RowsHaveWidth(records, |schema|)
    ensures |rows| == |records|
  {
    seq(|records|, i requires 0 <= i < |records| =>
      RenderCells(ProjectCells(schema, ParseFields(records[i]).value, indices)))
  }

  /** What a projection prints for a record list. */
  function ProjectedRecords(records: seq<string>, schema: seq<Column>, indices: seq<nat>): Result<string>
    requires ValidIndices(indices, |schema|)
  {
    if RowsHaveWidth(records, |schema|) then Ok(RenderRecords(ProjectRows(records, schema, indices))) else Err(Parse)
  }

  lemma ProjectedCons(text: string, records: seq<string>, schema: seq<Column>, indices: seq<nat>)
    requires ValidIndices(indices, |schema|)
    ensures ProjectedRecords([text] + records, schema, indices) ==
            if !HasWidth(text, |schema|) then Err(Parse)
            else match ProjectedRecords(records, schema, indices) {
              case Err(code) => Err(code)
              case Ok(out) => Ok(RenderCells(ProjectCells(schema, ParseFields(text).value, indices)) + "\n" + out)
            }
  {
    hide ProjectCells, RenderCells, ParseFields;
    RowsWidthConcat([text], records, |schema|);
    assert RowsHaveWidth([text], |schema|) <==> HasWidth([text][0], |schema|);
    if RowsHaveWidth([text] + records, |schema|) {
      var rows := ProjectRows([text] + records, schema, indices);
      assert rows[1..] == ProjectRows(records, schema, indices);
    }
  }

  lemma {:induction false} ProjectRendered(s: string, schema: seq<Column>, indices: seq<nat>)
    requires ValidIndices(indices, |schema|)
    ensures ProjectRecords(s, schema, indices) ==
            match ReadAll(s)
            case None => Err(Parse)
            case Some(records) => ProjectedRecords(records, schema, indices)
    decreases |s|
  {
    match ReadRecord(s)
    case EndOfFile =>
    case Unterminated =>
    case Record(text, _, rest) =>
      ProjectRendered(rest, schema, indices);
      if ReadAll(rest).Some? { ProjectedCons(text, ReadAll(rest).value, schema, indices); }
  }

  // ---------- SELECT * ----------

  lemma ReadAllFromHeader(csv: string)
    requires LoadHeader(csv).Ok?
    ensures ReadAll(csv).Some? <==> ReadAll(LoadHeader(csv).value.rest).Some?
    ensures ReadAll(csv).Some? ==>
              && ReadAll(csv).value != []
              && ReadAll(csv).value[1..] == ReadAll(LoadHeader(csv).value.rest).value
              && ParseFields(ReadAll(csv).value[0]) == Some(LoadHeader(csv).value.fields)
  {
  }

  /** SELECT * keeps the record sequence, and its output selects to itself. */
  lemma SelectAllIsNormalForm(schemaFile: Option<string>, csv: string, columns: seq<string>)
    requires SelectRows(schemaFile, Some(csv), true, columns).Ok?
    ensures var out := SelectRows(schemaFile, Some(csv), true, columns).value;
            && ReadAll(csv).Some?
            && ReadAll(out) == ReadAll(csv)
            && SelectRows(schemaFile, Some(out), true, columns) == Ok(out)
  {
    var header := LoadHeader(csv).value;
    CopyRendered(csv, |header.fields|, true);
    var records := ReadAll(csv).value;
    var out := RenderRecords(records);
    ScanLossless(csv);
    ReadRendered(records);
    ReadAllFromHeader(csv);
    ReadRecordOf(records[0], "\n", RenderRecords(records[1..]));
    CopyRendered(out, |header.fields|, true);
  }

  /** SELECT * after INSERT shows the rows SELECT * showed before, and then the new row. */
  lemma SelectSeesInsert(schemaFile: Option<string>, csv: string, columns: seq<string>, values: seq<SqlValue>)
    requires AppendRow(schemaFile, Some(csv), columns, values).Ok?
    ensures var after := AppendRow(schemaFile, Some(csv), columns, values).value;
            var stored := StoredValues(LoadOptionalSchema(schemaFile).value, columns, values).value;
            SelectRows(schemaFile, Some(after), true, []) ==
            match SelectRows(schemaFile, Some(csv), true, [])
            case Err(code) => Err(code)
            case Ok(out) => Ok(out + RenderRow(stored) + "\n")
  {
    AppendAddsOneRecord(schemaFile, csv, columns, values);
    var stored := StoredValues(LoadOptionalSchema(schemaFile).value, columns, values).value;
    var row := RenderRow(stored);
    HeaderSurvives(csv, row, stored);
    CopyAfterAppend(csv, WithLine(csv, row), row, |LoadHeader(csv).value.fields|);
    SelectAllCopies(schemaFile, csv);
    SelectAllCopies(schemaFile, WithLine(csv, row));
  }

  lemma SelectAllCopies(schemaFile: Option<string>, csv: string)
    requires LoadHeader(csv).Ok? && LoadOptionalSchema(schemaFile).Ok?
    ensures var fields, schema := LoadHeader(csv).value.fields, LoadOptionalSchema(schemaFile).value;
            SelectRows(schemaFile, Some(csv), true, []) ==
            if schema.Some? && fields != Names(schema.value) then Err(Parse) else CopyRecords(csv, |fields|, true)
  {
  }

  lemma CopyAfterAppend(csv: string, after: string, row: string, width: nat)
    requires LoadHeader(csv).Ok? && HasWidth(row, width)
    requires ReadAll(after) == match ReadAll(csv) {
                                 case None => None
                                 case Some(records) => Some(records + [row])
                               }
    ensures CopyRecords(after, width, true) ==
            match CopyRecords(csv, width, true)
            case Err(code) => Err(code)
            case Ok(out) => Ok(out + row + "\n")
  {
    CopyRendered(csv, width, true);
    CopyRendered(after, width, true);
    if ReadAll(csv).Some? {
      ReadAllFromHeader(csv);
      CopiedSnoc(ReadAll(csv).value, row, width);
    }
  }

  lemma CopiedSnoc(records: seq<string>, row: string, width: nat)
    requires records != [] && HasWidth(row, width)
    ensures CopiedRecords(records + [row], width, true) ==
            match CopiedRecords(records, width, true)
            case Err(code) => Err(code)
            case Ok(out) => Ok(out + row + "\n")
  {
    RenderMore(records, row);
    assert (records + [row])[1..] == records[1..] + [row];
    RowsWidthConcat(records[1..], [row], width);
  }

  lemma {:induction false} RenderMore(records: seq<string>, row: string)
    ensures RenderRecords(records + [row]) == RenderRecords(records) + row + "\n"
  {
    if records == [] {
      assert [] + [row] == [row];
      assert RenderRecords([row]) == row + "\n" + RenderRecords([]);
    } else {
      assert (records + [row])[1..] == records[1..] + [row];
      RenderMore(records[1..], row);
    }
  }

  lemma HeaderSurvives(csv: string, row: string, stored: seq<SqlValue>)
    requires LoadHeader(csv).Ok? && stored != [] && row == RenderRow(stored)
    ensures LoadHeader(WithLine(csv, row)).Ok?
    ensures LoadHeader(WithLine(csv, row)).value.fields == LoadHeader(csv).value.fields
  {
    var r := ReadRecord(csv);
    RowStart(stored);
    RecordShape(csv);
    WithLineSplits(csv, row);
    if r.rest == "" {
      ReadRecordOf(r.text, if r.eol == "" then "\n" else r.eol, row + "\n");
    } else {
      WithLineHead(r.rest, row);
      ReadRecordOf(r.text, r.eol, WithLine(r.rest, row));
    }
  }

  // ---------- projection ----------

  /** A field list that survives every projection: INT fields need no quotes, no field starts with a
      byte order mark. */
  predicate CleanFields(schema: seq<Column>, fields: seq<string>) {
    && |fields| == |schema|
    && forall i :: 0 <= i < |schema| ==>
         (schema[i].kind == IntColumn ==> IsPlain(fields[i])) && !HasBom(fields[i])
  }

  predicate CleanRecord(schema: seq<Column>, record: string) {
    ParseFields(record).Some? && CleanFields(schema, ParseFields(record).value)
  }

  /** A readable CSV with the schema's header and only clean rows. */
  predicate CleanTable(schema: seq<Column>, csv: string) {
    && LoadHeader(csv).Ok? && LoadHeader(csv).value.fields == Names(schema)
    && ReadAll(csv).Some?
    && forall i :: 0 < i < |ReadAll(csv).value| ==> CleanRecord(schema, ReadAll(csv).value[i])
  }

  function Pick(fields: seq<string>, indices: seq<nat>): (picked: seq<string>)
    requires ValidIndices(indices, |fields|)
    ensures |picked| == |indices|
  {
    seq(|indices|, i requires 0 <= i < |indices| => fields[indices[i]])
  }

  /** The selected fields, printed as they are, make one record; no INT field among them has a comma or a leading
      quote, and the first of them no byte order mark. */
  predicate RowSurvives(schema: seq<Column>, fields: seq<string>, indices: seq<nat>)
    requires |fields| == |schema| && indices != [] && ValidIndices(indices, |schema|)
  {
    && IsRecordText(RenderCells(ProjectCells(schema, fields, indices))) && !HasBom(fields[indices[0]])
    && forall i :: 0 <= i < |indices| && schema[indices[i]].kind == IntColumn ==> IsBare(fields[indices[i]])
  }

  lemma SurvivesIffExact(schema: seq<Column>, fields: seq<string>, indices: seq<nat>)
    requires |fields| == |schema| && indices != [] && ValidIndices(indices, |schema|)
    ensures RowSurvives(schema, fields, indices) <==> ExactRow(ProjectCells(schema, fields, indices))
    ensures Texts(ProjectCells(schema, fields, indices)) == Pick(fields, indices)
  {
    hide IsRecordText, RenderCells, IsBare;
    var cells := ProjectCells(schema, fields, indices);
    assert Texts(cells) == Pick(fields, indices);
    forall i | 0 <= i < |indices|
      ensures cells[i].Plain? <==> schema[indices[i]].kind == IntColumn
      ensures cells[i].text == fields[indices[i]]
    {
    }
  }

  /** A projected row is read back as the selected fields exactly when it survives. */
  lemma ProjectedRowReadsIff(schema: seq<Column>, fields: seq<string>, indices: seq<nat>, rest: string)
    requires |fields| == |schema| && indices != [] && ValidIndices(indices, |schema|)
    ensures var row := RenderCells(ProjectCells(schema, fields, indices));
            ReadRecord(row + "\n" + rest) == Record(row, "\n", rest) && ParseFields(row) == Some(Pick(fields, indices))
            <==> RowSurvives(schema, fields, indices)
  {
    hide RenderCells, ParseFields, ReadRecord, RowSurvives, ExactRow;
    SurvivesIffExact(schema, fields, indices);
    RowReadsIff(ProjectCells(schema, fields, indices), rest);
  }

  // ---------- a whole projected output ----------

  /** What a projection that succeeds has found: valid columns, and rows of the schema's width. */
  ghost predicate Projectable(schema: seq<Column>, csv: string, columns: seq<string>) {
    && columns != [] && ValidSelection(Names(schema), columns)
    && ReadAll(csv).Some? && ReadAll(csv).value != [] && RowsHaveWidth(ReadAll(csv).value[1..], |schema|)
  }

  /** The fields of the k-th record. */
  function FieldsOf(records: seq<string>, k: nat, width: nat): (fields: seq<string>)
    requires RowsHaveWidth(records, width) && k < |records|
    ensures |fields| == width
  {
    ParseFields(records[k]).value
  }

  function ProjectedCells(records: seq<string>, schema: seq<Column>, indices: seq<nat>): (rows: seq<seq<Cell>>)
    requires ValidIndices(indices, |schema|) && RowsHaveWidth(records, |schema|)
    ensures |rows| == |records|
  {
    seq(|records|, k requires 0 <= k < |records| => ProjectCells(schema, FieldsOf(records, k, |schema|), indices))
  }

  function PickedRows(records: seq<string>, schema: seq<Column>, indices: seq<nat>): (rows: seq<seq<string>>)
    requires ValidIndices(indices, |schema|) && RowsHaveWidth(records, |schema|)
    ensures |rows| == |records|
  {
    seq(|records|, k requires 0 <= k < |records| => Pick(FieldsOf(records, k, |schema|), indices))
  }

  /** Every row of the table survives the projection, and so do the selected names. */
  ghost predicate TableSurvives(records: seq<string>, schema: seq<Column>, columns: seq<string>)
    requires columns != [] && ValidSelection(Names(schema), columns) && RowsHaveWidth(records, |schema|)
  {
    && ExactRow(NameCells(columns))
    && forall k :: 0 <= k < |records| ==>
         RowSurvives(schema, FieldsOf(records, k, |schema|), Indices(Names(schema), columns))
  }

  lemma PrintedLines(records: seq<string>, schema: seq<Column>, columns: seq<string>)
    requires columns != [] && ValidSelection(Names(schema), columns) && RowsHaveWidth(records, |schema|)
    ensures var indices := Indices(Names(schema), columns);
            var rows := [NameCells(columns)] + ProjectedCells(records, schema, indices);
            && RenderRecords(Lines(rows)) == HeaderLine(columns) + RenderRecords(ProjectRows(records, schema, indices))
            && TextRows(rows) == [columns] + PickedRows(records, schema, indices)
  {
    hide RenderCells, ParseFields;
    var indices := Indices(Names(schema), columns);
    var cells := ProjectedCells(records, schema, indices);
    var rows := [NameCells(columns)] + cells;
    assert Lines(rows)[1..] == ProjectRows(records, schema, indices);
    assert Texts(NameCells(columns)) == columns;
    forall k | 0 <= k < |records|
      ensures Texts(cells[k]) == Pick(FieldsOf(records, k, |schema|), indices)
    {
      SurvivesIffExact(schema, FieldsOf(records, k, |schema|), indices);
    }
    assert TextRows(rows) == [columns] + PickedRows(records, schema, indices);
  }

  lemma OutputReadsIff(records: seq<string>, schema: seq<Column>, columns: seq<string>)
    requires columns != [] && ValidSelection(Names(schema), columns) && RowsHaveWidth(records, |schema|)
    ensures var indices := Indices(Names(schema), columns);
            TableSurvives(records, schema, columns) <==>
            ReadsAs(HeaderLine(columns) + RenderRecords(ProjectRows(records, schema, indices)),
                    [columns] + PickedRows(records, schema, indices))
  {
    hide RenderCells, ParseFields, ReadsAs, ExactRow, RowSurvives, HeaderLine;
    var indices := Indices(Names(schema), columns);
    var cells := ProjectedCells(records, schema, indices);
    var rows := [NameCells(columns)] + cells;
    PrintedLines(records, schema, columns);
    forall k | 0 <= k < |records|
      ensures RowSurvives(schema, FieldsOf(records, k, |schema|), indices) <==> ExactRow(cells[k])
    {
      SurvivesIffExact(schema, FieldsOf(records, k, |schema|), indices);
    }
    FileReadsIff(rows);
    assert rows[0] == NameCells(columns) && forall k :: 0 <= k < |cells| ==> rows[k + 1] == cells[k];
    assert forall k :: 0 < k < |rows| ==> rows[k] == cells[k - 1];
  }

  /** On any file, the output of a projection that succeeds reads back as the selected names and the selected
      fields of every record, in order, exactly when the names and all rows survive. */
  lemma ProjectionReadsIff(schemaFile: Option<string>, csv: string, columns: seq<string>)
    requires LoadOptionalSchema(schemaFile).Ok? && LoadOptionalSchema(schemaFile).value.Some?
    requires SelectRows(schemaFile, Some(csv), false, columns).Ok?
    ensures var schema := LoadOptionalSchema(schemaFile).value.value;
            && Projectable(schema, csv, columns)
            && var records := ReadAll(csv).value[1..];
               TableSurvives(records, schema, columns) <==>
               ReadsAs(SelectRows(schemaFile, Some(csv), false, columns).value,
                       [columns] + PickedRows(records, schema, Indices(Names(schema), columns)))
  {
    hide RenderCells, ParseFields, ReadsAs, TableSurvives, HeaderLine;
    var schema := LoadOptionalSchema(schemaFile).value.value;
    var indices := Indices(Names(schema), columns);
    ReadAllFromHeader(csv);
    ProjectRendered(LoadHeader(csv).value.rest, schema, indices);
    OutputReadsIff(ReadAll(csv).value[1..], schema, columns);
  }

  lemma ProjectedRowReads(schema: seq<Column>, fields: seq<string>, indices: seq<nat>)
    requires CleanFields(schema, fields) && indices != [] && ValidIndices(indices, |schema|)
    ensures var row := RenderCells(ProjectCells(schema, fields, indices));
            IsRecordText(row) && ParseFields(row) == Some(Pick(fields, indices))
  {
    var cells := ProjectCells(schema, fields, indices);
    RowIsRecordText(cells);
    RowRoundTrip(cells, "");
    assert Texts(cells) == Pick(fields, indices);
  }

  lemma ProjectedRowsRead(schema: seq<Column>, records: seq<string>, columns: seq<string>)
    requires columns != [] && forall i :: 0 <= i < |columns| ==> IsIdentifier(columns[i])
    requires ValidSelection(Names(schema), columns)
    requires forall i :: 0 <= i < |records| ==> CleanRecord(schema, records[i])
    ensures RowsHaveWidth(records, |schema|)
    ensures var indices := Indices(Names(schema), columns);
            var rows := ProjectRows(records, schema, indices);
            && ReadAll(HeaderLine(columns) + RenderRecords(rows)) == Some([RenderCells(NameCells(columns))] + rows)
            && ParseFields(RenderCells(NameCells(columns))) == Some(columns)
            && forall k :: 0 <= k < |rows| ==>
                 ParseFields(rows[k]) == Some(Pick(ParseFields(records[k]).value, indices))
  {
    hide RenderCells, ParseFields;
    var indices := Indices(Names(schema), columns);
    forall i | 0 <= i < |records|
      ensures HasWidth(records[i], |schema|)
    {
      assert CleanRecord(schema, records[i]);
    }
    var rows := ProjectRows(records, schema, indices);
    forall i | 0 <= i < |rows|
      ensures IsRecordText(rows[i]) && ParseFields(rows[i]) == Some(Pick(ParseFields(records[i]).value, indices))
    {
      assert CleanRecord(schema, records[i]);
      ProjectedRowReads(schema, ParseFields(records[i]).value, indices);
    }
    HeaderReads(columns, "");
    var title := RenderCells(NameCells(columns));
    ReadRendered([title] + rows);
    assert ([title] + rows)[1..] == rows;
  }

  /** On a clean table every valid projection succeeds, and its output reads back as the selected
      fields of every record in order, under a header of the selected names. */
  lemma ProjectionReads(schemaFile: Option<string>, csv: string, columns: seq<string>)
    requires LoadOptionalSchema(schemaFile).Ok? && LoadOptionalSchema(schemaFile).value.Some?
    requires CleanTable(LoadOptionalSchema(schemaFile).value.value, csv)
    requires columns != [] && forall i :: 0 <= i < |columns| ==> IsIdentifier(columns[i])
    requires ValidSelection(Names(LoadOptionalSchema(schemaFile).value.value), columns)
    ensures var schema := LoadOptionalSchema(schemaFile).value.value;
            var indices := Indices(Names(schema), columns);
            var records := ReadAll(csv).value;
            var result := SelectRows(schemaFile, Some(csv), false, columns);
            && result.Ok? && ReadAll(result.value).Some?
            && var rows := ReadAll(result.value).value;
            && |rows| == |records| > 0
            && ParseFields(rows[0]) == Some(columns)
            && forall k :: 0 < k < |rows| ==> ParseFields(rows[k]) == Some(Pick(ParseFields(records[k]).value, indices))
  {
    hide RenderCells, ParseFields, ReadRecord;
    var schema := LoadOptionalSchema(schemaFile).value.value;
    var rest := LoadHeader(csv).value.rest;
    var records := ReadAll(csv).value;
    ReadAllFromHeader(csv);
    assert forall i :: 0 <= i < |records[1..]| ==> records[1..][i] == records[i + 1];
    ProjectedRowsRead(schema, records[1..], columns);
    ProjectRendered(rest, schema, Indices(Names(schema), columns));
  }

  /** The two outputs hold the same rows: record for record, they read back as the same fields. */
  ghost predicate SameRows(a: string, b: string) {
    && ReadAll(a).Some? && ReadAll(b).Some? && |ReadAll(a).value| == |ReadAll(b).value|
    && forall k :: 0 <= k < |ReadAll(a).value| ==>
         ParseFields(ReadAll(a).value[k]).Some? && ParseFields(ReadAll(b).value[k]) == ParseFields(ReadAll(a).value[k])
  }

  lemma SameRowsOfClean(schema: seq<Column>, csv: string, a: string, b: string)
    requires CleanTable(schema, csv) && Distinct(Names(schema)) && ValidSelection(Names(schema), Names(schema))
    requires ReadAll(a) == ReadAll(csv) && ReadAll(b).Some? && |ReadAll(b).value| == |ReadAll(csv).value| > 0
    requires ParseFields(ReadAll(b).value[0]) == Some(Names(schema))
    requires forall k :: 0 < k < |ReadAll(b).value| ==>
               ParseFields(ReadAll(csv).value[k]).Some? && |ParseFields(ReadAll(csv).value[k]).value| == |schema| &&
               ParseFields(ReadAll(b).value[k])
               == Some(Pick(ParseFields(ReadAll(csv).value[k]).value, Indices(Names(schema), Names(schema))))
    ensures SameRows(a, b)
  {
    hide ReadRecord;
    ReadAllFromHeader(csv);
    forall k | 0 < k < |ReadAll(a).value|
      ensures ParseFields(ReadAll(b).value[k]) == ParseFields(ReadAll(a).value[k])
    {
      PickAll(Names(schema), ParseFields(ReadAll(csv).value[k]).value);
    }
  }

  /** SELECT * succeeds on a clean table too, and a projection on all names in schema order reads back as
      the very rows that SELECT * prints. */
  lemma SelectPathsAgree(schemaFile: Option<string>, csv: string)
    requires LoadOptionalSchema(schemaFile).Ok? && LoadOptionalSchema(schemaFile).value.Some?
    requires CleanTable(LoadOptionalSchema(schemaFile).value.value, csv)
    requires var names := Names(LoadOptionalSchema(schemaFile).value.value);
             forall i :: 0 <= i < |names| ==> IsIdentifier(names[i])
    ensures var names := Names(LoadOptionalSchema(schemaFile).value.value);
            var all := SelectRows(schemaFile, Some(csv), true, []);
            var projected := SelectRows(schemaFile, Some(csv), false, names);
            all.Ok? && projected.Ok? && SameRows(all.value, projected.value)
  {
    var schema := LoadOptionalSchema(schemaFile).value.value;
    var names := Names(schema);
    assert forall i :: 0 <= i < |names| ==> names[i] in names;
    ProjectionReads(schemaFile, csv, names);
    SelectPathsFailTogether(schemaFile, Some(csv), names);
    SelectAllIsNormalForm(schemaFile, csv, []);
    forall k | 0 < k < |ReadAll(csv).value|
      ensures ParseFields(ReadAll(csv).value[k]).Some? && |ParseFields(ReadAll(csv).value[k]).value| == |schema|
    {
      CleanRow(schema, csv, k);
    }
    SameRowsOfClean(schema, csv, SelectRows(schemaFile, Some(csv), true, []).value,
                    SelectRows(schemaFile, Some(csv), false, names).value);
  }

  lemma AllPicked(records: seq<string>, schema: seq<Column>)
    requires Distinct(Names(schema)) && ValidSelection(Names(schema), Names(schema)) && RowsHaveWidth(records, |schema|)
    ensures forall k :: 0 <= k < |records| ==>
              PickedRows(records, schema, Indices(Names(schema), Names(schema)))[k] == FieldsOf(records, k, |schema|)
  {
    forall k | 0 <= k < |records|
      ensures PickedRows(records, schema, Indices(Names(schema), Names(schema)))[k] == FieldsOf(records, k, |schema|)
    {
      PickAll(Names(schema), FieldsOf(records, k, |schema|));
    }
  }

  /** Two outputs hold the same rows exactly when the second reads as the fields of the first. */
  lemma SameRowsIffReadsAs(a: string, b: string, texts: seq<seq<string>>)
    requires ReadsAs(a, texts)
    ensures SameRows(a, b) <==> ReadsAs(b, texts)
  {
    hide ReadAll, ParseFields;
    if SameRows(a, b) {
      forall k | 0 <= k < |texts|
        ensures ParseFields(ReadAll(b).value[k]) == Some(texts[k])
      {
        assert ParseFields(ReadAll(a).value[k]) == Some(texts[k]);
      }
    }
  }

  lemma TableReadsAs(csv: string, schema: seq<Column>, out: string)
    requires schema != [] && Distinct(Names(schema)) && Projectable(schema, csv, Names(schema))
    requires ReadAll(out) == ReadAll(csv) && ParseFields(ReadAll(csv).value[0]) == Some(Names(schema))
    ensures var records := ReadAll(csv).value[1..];
            ReadsAs(out, [Names(schema)] + PickedRows(records, schema, Indices(Names(schema), Names(schema))))
  {
    hide ParseFields, ReadAll;
    var all := ReadAll(csv).value;
    var records := all[1..];
    AllPicked(records, schema);
    var texts := [Names(schema)] + PickedRows(records, schema, Indices(Names(schema), Names(schema)));
    forall k | 0 <= k < |all|
      ensures ParseFields(all[k]) == Some(texts[k])
    {
      if k > 0 { assert all[k] == records[k - 1] && HasWidth(records[k - 1], |schema|); }
    }
  }

  /** On any file that SELECT * accepts, the projection on all columns succeeds too, and its output holds the very
      rows of SELECT * exactly when the names and all rows survive being printed. */
  lemma SelectPathsAgreeIff(schemaFile: Option<string>, csv: string)
    requires LoadOptionalSchema(schemaFile).Ok? && LoadOptionalSchema(schemaFile).value.Some?
    requires SelectRows(schemaFile, Some(csv), true, []).Ok?
    ensures var schema := LoadOptionalSchema(schemaFile).value.value;
            var projected := SelectRows(schemaFile, Some(csv), false, Names(schema));
            && projected.Ok? && Projectable(schema, csv, Names(schema))
            && (SameRows(SelectRows(schemaFile, Some(csv), true, []).value, projected.value)
                <==> TableSurvives(ReadAll(csv).value[1..], schema, Names(schema)))
  {
    hide ParseFields, RenderCells, ReadsAs, SameRows, TableSurvives, LoadSchema, CopyRecords, ProjectRecords;
    var schema := LoadOptionalSchema(schemaFile).value.value;
    var names := Names(schema);
    assert forall i :: 0 <= i < |names| ==> names[i] in names;
    SelectPathsFailTogether(schemaFile, Some(csv), names);
    SelectAllIsNormalForm(schemaFile, csv, []);
    ProjectionReadsIff(schemaFile, csv, names);
    ReadAllFromHeader(csv);
    var all := SelectRows(schemaFile, Some(csv), true, []).value;
    var projected := SelectRows(schemaFile, Some(csv), false, names).value;
    TableReadsAs(csv, schema, all);
    SameRowsIffReadsAs(all, projected, [names] + PickedRows(ReadAll(csv).value[1..], schema, Indices(names, names)));
  }

  lemma CleanRow(schema: seq<Column>, csv: string, k: nat)
    requires CleanTable(schema, csv) && 0 < k < |ReadAll(csv).value|
    ensures CleanRecord(schema, ReadAll(csv).value[k]) && HasWidth(ReadAll(csv).value[k], |schema|)
  {
  }

  lemma PickAll(names: seq<string>, fields: seq<string>)
    requires Distinct(names) && |fields| == |names| && ValidSelection(names, names)
    ensures Pick(fields, Indices(names, names)) == fields
  {
    var indices := Indices(names, names);
    forall i | 0 <= i < |names|
      ensures indices[i] == i
    {
      assert names[indices[i]] == names[i];
    }
  }

  /** With a schema and a valid column list, the two paths fail on exactly the same files. */
  lemma SelectPathsFailTogether(schemaFile: Option<string>, csvFile: Option<string>, columns: seq<string>)
    requires LoadOptionalSchema(schemaFile).Ok? && LoadOptionalSchema(schemaFile).value.Some?
    requires columns != [] && ValidSelection(Names(LoadOptionalSchema(schemaFile).value.value), columns)
    ensures SelectRows(schemaFile, csvFile, true, []).Ok? <==> SelectRows(schemaFile, csvFile, false, columns).Ok?
  {
    var schema := LoadOptionalSchema(schemaFile).value.value;
    if csvFile.Some? && LoadHeader(csvFile.value).Ok? && LoadHeader(csvFile.value).value.fields == Names(schema) {
      var csv, indices := csvFile.value, Indices(Names(schema), columns);
      ReadAllFromHeader(csv);
      CopyRendered(csv, |schema|, true);
      ProjectRendered(LoadHeader(csv).value.rest, schema, indices);
    }
  }

  predicate NoBomValue(v: SqlValue) {
    v.StringValue? ==> !HasBom(v.s)
  }

  /** The engine keeps its tables clean: an INSERT of values without byte order mark preserves CleanTable. */
  lemma AppendKeepsClean(schemaFile: Option<string>, csv: string, columns: seq<string>, values: seq<SqlValue>)
    requires LoadOptionalSchema(schemaFile).Ok? && LoadOptionalSchema(schemaFile).value.Some?
    requires CleanTable(LoadOptionalSchema(schemaFile).value.value, csv)
    requires AppendRow(schemaFile, Some(csv), columns, values).Ok?
    requires forall i :: 0 <= i < |values| ==> NoBomValue(values[i])
    ensures CleanTable(LoadOptionalSchema(schemaFile).value.value,
                       AppendRow(schemaFile, Some(csv), columns, values).value)
  {
    var schema := LoadOptionalSchema(schemaFile).value.value;
    var stored := StoredValues(Some(schema), columns, values).value;
    AppendAddsOneRecord(schemaFile, csv, columns, values);
    HeaderSurvives(csv, RenderRow(stored), stored);
    forall i | 0 <= i < |stored|
      ensures NoBomValue(stored[i])
    {
      assert stored[i] in multiset(stored);
      assert stored[i] in multiset(values);
    }
    StoredRowIsClean(schema, stored);
    CleanWithRow(schema, csv, WithRow(csv, stored), RenderRow(stored));
  }

  lemma StoredRowIsClean(schema: seq<Column>, stored: seq<SqlValue>)
    requires |schema| == |stored| > 0 && TypesMatch(schema, stored)
    requires forall i :: 0 <= i < |stored| ==> NoBomValue(stored[i])
    ensures CleanRecord(schema, RenderRow(stored))
  {
    RowFields(stored);
    var fields := Texts(RowCells(stored));
    forall i | 0 <= i < |schema|
      ensures (schema[i].kind == IntColumn ==> IsPlain(fields[i])) && !HasBom(fields[i])
    {
      match stored[i]
      case IntValue(n) => IntTextIsPlain(n);
      case StringValue(_) =>
    }
  }

  lemma CleanWithRow(schema: seq<Column>, csv: string, after: string, row: string)
    requires CleanTable(schema, csv) && CleanRecord(schema, row)
    requires LoadHeader(after).Ok? && LoadHeader(after).value.fields == Names(schema)
    requires ReadAll(after) == Some(ReadAll(csv).value + [row])
    ensures CleanTable(schema, after)
  {
    var records := ReadAll(csv).value;
    ReadAllFromHeader(csv);
    forall i | 0 < i < |records + [row]|
      ensures CleanRecord(schema, (records + [row])[i])
    {
      if i < |records| { assert CleanRecord(schema, records[i]); }
    }
  }
}
