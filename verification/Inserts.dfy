/** What an INSERT does, in the terms of its writer: which ones are accepted, with which code the others are refused,
    and which value goes under which column. */
module Inserts {
  import opened SqlTypes
  import opened Decimal
  import opened Csv
  import opened Schema
  import opened Storage
  import opened StorageTheorems
  import opened Files

  function TextOf(v: SqlValue): string {
    match v
    case IntValue(n) => IntText(n)
    case StringValue(s) => s
  }

  function KindOf(v: SqlValue): ColumnType {
    if v.IntValue? then IntColumn else StringColumn
  }

  // ---------- which INSERTs are accepted ----------

  /** There is one value of the right kind for each column: in schema order, or under the listed names, each of which
      is a column of the schema and is listed once. */
  ghost predicate AcceptsRow(schema: seq<Column>, columns: seq<string>, values: seq<SqlValue>) {
    && |values| == |schema|
    && if columns == [] then forall i :: 0 <= i < |schema| ==> KindOf(values[i]) == schema[i].kind
       else |columns| == |values| && Distinct(columns)
            && forall k :: 0 <= k < |columns| ==> Column(columns[k], KindOf(values[k])) in schema
  }

  lemma ColumnAt(schema: seq<Column>, name: string, kind: ColumnType)
    requires ValidSchema(schema)
    ensures Column(name, kind) in schema <==> name in Names(schema) && schema[IndexOf(Names(schema), name)].kind == kind
  {
    var names := Names(schema);
    if Column(name, kind) in schema {
      var j :| 0 <= j < |schema| && schema[j] == Column(name, kind);
      assert names[j] == name;
    }
    if name in names {
      var i := IndexOf(names, name);
      assert names[i] == schema[i].name && schema[i] == Column(name, schema[i].kind);
    }
  }

  lemma FitsIffListed(schema: seq<Column>, columns: seq<string>, values: seq<SqlValue>)
    requires ValidSchema(schema) && columns != []
    ensures Fits(schema, columns, values) <==>
            && |values| == |schema| == |columns| && Distinct(columns)
            && forall k :: 0 <= k < |columns| ==> columns[k] in Names(schema)
  {
    if |columns| == |schema| { Pigeonhole(schema, columns); }
    if Fits(schema, columns, values) { PermutationShape(schema, columns); }
  }

  /** A value sits in the slot of its column. */
  lemma SlotOf(schema: seq<Column>, columns: seq<string>, values: seq<SqlValue>, k: nat)
    requires ValidSchema(schema) && columns != [] && Fits(schema, columns, values) && k < |columns|
    ensures |columns| == |values| == |schema| && columns[k] in Names(schema)
    ensures Mapped(schema, columns, values)[IndexOf(Names(schema), columns[k])] == values[k]
  {
    FitsIffListed(schema, columns, values);
    var j := IndexOf(Names(schema), columns[k]);
    assert Names(schema)[j] == schema[j].name == columns[k];
    assert IndexOf(columns, columns[k]) == k;
  }

  lemma KindAt(schema: seq<Column>, columns: seq<string>, values: seq<SqlValue>, k: nat)
    requires ValidSchema(schema) && columns != [] && Fits(schema, columns, values) && k < |columns|
    ensures |columns| == |values| == |schema| && columns[k] in Names(schema)
    ensures var j := IndexOf(Names(schema), columns[k]);
            Column(columns[k], KindOf(values[k])) in schema <==>
            (schema[j].kind == StringColumn <==> Mapped(schema, columns, values)[j].StringValue?)
  {
    hide Fits, Mapped, ValidSchema;
    SlotOf(schema, columns, values, k);
    ColumnAt(schema, columns[k], KindOf(values[k]));
  }

  lemma KindsIff(schema: seq<Column>, columns: seq<string>, values: seq<SqlValue>)
    requires ValidSchema(schema) && columns != [] && Fits(schema, columns, values)
    ensures |columns| == |values|
    ensures TypesMatch(schema, Mapped(schema, columns, values)) <==>
            forall k :: 0 <= k < |columns| ==> Column(columns[k], KindOf(values[k])) in schema
  {
    var names, mapped := Names(schema), Mapped(schema, columns, values);
    FitsIffListed(schema, columns, values);
    PermutationShape(schema, columns);
    hide Fits, Mapped, ValidSchema;
    forall k | 0 <= k < |columns| && TypesMatch(schema, mapped)
      ensures Column(columns[k], KindOf(values[k])) in schema
    {
      KindAt(schema, columns, values, k);
    }
    if forall k :: 0 <= k < |columns| ==> Column(columns[k], KindOf(values[k])) in schema {
      forall j | 0 <= j < |schema|
        ensures schema[j].kind == StringColumn <==> mapped[j].StringValue?
      {
        assert names[j] == schema[j].name && names[j] in names;
        var k := IndexOf(columns, names[j]);
        KindAt(schema, columns, values, k);
        NameIndex(schema, j);
      }
    }
  }

  lemma NameIndex(schema: seq<Column>, j: nat)
    requires ValidSchema(schema) && j < |schema|
    ensures IndexOf(Names(schema), Names(schema)[j]) == j
  {
    assert Names(schema)[j] in Names(schema);
  }

  lemma StoredIff(schema: seq<Column>, columns: seq<string>, values: seq<SqlValue>)
    requires ValidSchema(schema)
    ensures if AcceptsRow(schema, columns, values) then StoredValues(Some(schema), columns, values).Ok?
            else StoredValues(Some(schema), columns, values) == Err(Argument)
  {
    if columns == [] {
      if |values| == |schema| {
        forall i | 0 <= i < |schema|
          ensures KindOf(values[i]) == schema[i].kind <==> (schema[i].kind == StringColumn <==> values[i].StringValue?)
        {
        }
      }
    } else {
      FitsIffListed(schema, columns, values);
      if Fits(schema, columns, values) {
        KindsIff(schema, columns, values);
      } else if AcceptsRow(schema, columns, values) {
        forall k | 0 <= k < |columns|
          ensures columns[k] in Names(schema)
        {
          ColumnAt(schema, columns[k], KindOf(values[k]));
        }
      }
    }
  }

  /** The names in the first record of a CSV. */
  function HeaderOf(csv: string): Option<seq<string>> {
    match ReadRecord(csv)
    case Record(text, _, _) => ParseFields(text)
    case _ => None
  }

  /** Which INSERTs succeed, and with which code the others are refused. */
  ghost predicate IsOutcome<T>(r: Result<T>, schema: Option<seq<Column>>, csvFile: Option<string>,
                            columns: seq<string>, values: seq<SqlValue>)
  {
    if schema.Some? && !AcceptsRow(schema.value, columns, values) then r == Err(Argument)
    else if schema == None && columns != [] then r == Err(Unsupported)
    else
      match csvFile
      case None =>
        if schema == None || columns == [] then r == Err(Io)
        else (forall k :: 0 <= k < |columns| ==> IsIdentifier(columns[k])) ==> r.Ok?
      case Some(csv) =>
        match HeaderOf(csv)
        case None => r == Err(Parse)
        case Some(names) =>
          if schema.Some? && names != Names(schema.value) then r == Err(Parse)
          else if schema == None && |names| != |values| then r == Err(Argument)
          else r.Ok?
  }

  /** For every schema file, CSV, column list and value list. */
  lemma InsertOutcome(schemaFile: Option<string>, csvFile: Option<string>, columns: seq<string>, values: seq<SqlValue>)
    ensures match LoadOptionalSchema(schemaFile)
            case Err(code) => AppendRow(schemaFile, csvFile, columns, values) == Err(code)
            case Ok(schema) =>
              IsOutcome(AppendRow(schemaFile, csvFile, columns, values), schema, csvFile, columns, values)
  {
    hide LoadSchema, AcceptsRow, ParseFields, ReadRecord, WithRow;
    if LoadOptionalSchema(schemaFile).Ok? {
      var schema := LoadOptionalSchema(schemaFile).value;
      if schema.Some? { StoredIff(schema.value, columns, values); }
      if columns != [] && forall k :: 0 <= k < |columns| ==> IsIdentifier(columns[k]) {
        AutoCreateSucceeds(schemaFile, columns, values);
      }
    }
  }

  // ---------- which value goes where ----------

  /** The row has a field for every name of the header, and each value is in the field of its column: by position,
      or under the name that is listed for it. The first field of a record loses a byte order mark. */
  ghost predicate RowHolds(row: string, header: seq<string>, columns: seq<string>, values: seq<SqlValue>) {
    && ParseFields(row).Some? && |ParseFields(row).value| == |header| == |values|
    && (columns == [] || (|columns| == |values| && forall j :: 0 <= j < |header| ==> header[j] in columns))
    && forall j, k :: 0 <= j < |header| && 0 <= k < |values|
                      && (if columns == [] then j == k else header[j] == columns[k]) ==>
         ParseFields(row).value[j] == if j == 0 then StripBom(TextOf(values[k])) else TextOf(values[k])
  }

  /** out is csv with one more record. */
  ghost predicate OneMore(csv: string, out: string, row: string) {
    && (out == csv + row + "\n" || out == csv + "\n" + row + "\n")
    && ReadAll(out) == match ReadAll(csv) {
                         case None => None
                         case Some(records) => Some(records + [row])
                       }
  }

  lemma RowTexts(stored: seq<SqlValue>)
    requires stored != []
    ensures ParseFields(RenderRow(stored)).Some? && |ParseFields(RenderRow(stored)).value| == |stored|
    ensures forall j :: 0 <= j < |stored| ==>
              ParseFields(RenderRow(stored)).value[j] ==
              if j == 0 then StripBom(TextOf(stored[j])) else TextOf(stored[j])
  {
    hide ParseFields, RenderCells, AllBare, Printable;
    var cells := RowCells(stored);
    RowCellsPrintable(stored);
    PrintableIsBare(cells);
    ParseRendered(cells, true);
    forall j | 0 <= j < |stored|
      ensures cells[j].text == TextOf(stored[j])
    {
    }
    assert forall j :: 0 < j < |stored| ==> Texts(cells[1..])[j - 1] == cells[j].text;
  }

  lemma StoredHolds(schema: Option<seq<Column>>, header: seq<string>, columns: seq<string>, values: seq<SqlValue>)
    requires schema.Some? ==> ValidSchema(schema.value)
    requires StoredValues(schema, columns, values).Ok? && CheckHeader(schema, header, |values|) == None && header != []
    ensures RowHolds(RenderRow(StoredValues(schema, columns, values).value), header, columns, values)
  {
    hide RenderRow, ParseFields;
    var stored := StoredValues(schema, columns, values).value;
    RowTexts(stored);
    if columns != [] {
      var names := Names(schema.value);
      PermutationShape(schema.value, columns);
      FitsIffListed(schema.value, columns, values);
      forall j | 0 <= j < |header|
        ensures header[j] in columns
      {
        assert names[j] in names;
      }
      forall j, k | 0 <= j < |header| && 0 <= k < |values| && header[j] == columns[k]
        ensures stored[j] == values[k]
      {
        SlotOf(schema.value, columns, values, k);
        assert IndexOf(names, names[j]) == j;
      }
    }
  }

  /** An INSERT into a table adds one record, in which each value is under its column. */
  lemma InsertPlacesValues(schemaFile: Option<string>, csv: string, columns: seq<string>, values: seq<SqlValue>)
    returns (row: string)
    requires AppendRow(schemaFile, Some(csv), columns, values).Ok?
    ensures OneMore(csv, AppendRow(schemaFile, Some(csv), columns, values).value, row)
    ensures HeaderOf(csv).Some? && RowHolds(row, HeaderOf(csv).value, columns, values)
  {
    hide RenderRow, ParseFields, RowHolds;
    var schema := LoadOptionalSchema(schemaFile).value;
    row := RenderRow(StoredValues(schema, columns, values).value);
    AppendAddsOneRecord(schemaFile, csv, columns, values);
    StoredHolds(schema, LoadHeader(csv).value.fields, columns, values);
  }

  /** An INSERT that creates its table stores the header and one such record. */
  lemma CreatedTableHolds(schemaFile: Option<string>, columns: seq<string>, values: seq<SqlValue>) returns (row: string)
    requires AppendRow(schemaFile, None, columns, values).Ok?
    requires forall k :: 0 <= k < |columns| ==> IsIdentifier(columns[k])
    ensures LoadOptionalSchema(schemaFile).Ok? && LoadOptionalSchema(schemaFile).value.Some?
    ensures var names := Names(LoadOptionalSchema(schemaFile).value.value);
            var out := AppendRow(schemaFile, None, columns, values).value;
            && HeaderOf(out) == Some(names) && RowHolds(row, names, columns, values)
            && ReadAll(out).Some? && |ReadAll(out).value| == 2 && ReadAll(out).value[1] == row
  {
    hide RenderRow, ParseFields, RowHolds, RenderCells, LoadSchema, Mapped, HeaderLine;
    var schema := LoadOptionalSchema(schemaFile).value;
    row := RenderRow(StoredValues(schema, columns, values).value);
    AutoCreateSucceeds(schemaFile, columns, values);
    NamesAreIdentifiers(schema.value, columns);
    HeaderReads(Names(schema.value), row + "\n");
    HeaderReads(Names(schema.value), "");
    StoredHolds(schema, Names(schema.value), columns, values);
    HeaderAndRow(Names(schema.value), StoredValues(schema, columns, values).value);
  }

  lemma HeaderAndRow(names: seq<string>, stored: seq<SqlValue>)
    ensures WithRow(HeaderLine(names), stored) == HeaderLine(names) + (RenderRow(stored) + "\n")
    ensures HeaderLine(names) + "" == HeaderLine(names)
  {
    hide RenderRow, RenderCells;
    Associative(HeaderLine(names), RenderRow(stored), "\n");
  }

  /** Two INSERTs that list the same columns with the same values, in any order, do the same. */
  lemma OrderDoesNotMatter(schemaFile: Option<string>, csvFile: Option<string>,
                           columns: seq<string>, values: seq<SqlValue>, columns': seq<string>, values': seq<SqlValue>)
    requires columns != [] && |columns| == |values| && |columns'| == |values'|
    requires multiset(Pairs(columns, values)) == multiset(Pairs(columns', values'))
    ensures AppendRow(schemaFile, csvFile, columns, values) == AppendRow(schemaFile, csvFile, columns', values')
  {
    var b, b' := Pairs(columns, values), Pairs(columns', values');
    assert |multiset(b)| == |b| && |multiset(b')| == |b'|;
    assert columns' != [];
    if LoadOptionalSchema(schemaFile).Ok? && LoadOptionalSchema(schemaFile).value.Some? {
      var schema := LoadOptionalSchema(schemaFile).value.value;
      if Fits(schema, columns, values) {
        JointReordering(schema, columns, values, columns', values');
      } else if Fits(schema, columns', values') {
        JointReordering(schema, columns', values', columns, values);
      }
    }
  }
}
