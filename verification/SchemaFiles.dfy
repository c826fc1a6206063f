/** Exactly which schema files load, and as what. */
module SchemaFiles {
  import opened SqlTypes
  import opened Csv
  import opened Schema
  import opened ParseTheorems

  // ---------- type names ----------

  function TypeWord(kind: ColumnType): string {
    if kind == IntColumn then "int" else "string"
  }

  /** The type name, letter for letter in either case. */
  predicate SpellsType(t: string, kind: ColumnType) {
    |t| == |TypeWord(kind)| && forall i :: 0 <= i < |t| ==> SameLetter(t[i], TypeWord(kind)[i])
  }

  lemma LowerIs(t: string, word: string)
    requires forall i :: 0 <= i < |word| ==> 'a' <= word[i] <= 'z'
    ensures Lower(t) == word <==> |t| == |word| && forall i :: 0 <= i < |t| ==> SameLetter(t[i], word[i])
  {
    if |t| == |word| {
      forall i | 0 <= i < |t|
        ensures ToLower(t[i]) == word[i] <==> SameLetter(t[i], word[i])
      {
        LowerMeansSameLetter(t[i], word[i]);
      }
      if forall i :: 0 <= i < |t| ==> SameLetter(t[i], word[i]) { assert Lower(t) == word; }
      if Lower(t) == word {
        forall i | 0 <= i < |t|
          ensures SameLetter(t[i], word[i])
        {
          assert Lower(t)[i] == ToLower(t[i]);
        }
      }
    }
  }

  /** A type name is taken in any mixture of cases, and nothing else is. */
  lemma ParseTypeIff(t: string, kind: ColumnType)
    ensures ParseType(t) == Some(kind) <==> SpellsType(t, kind)
  {
    assert "int" == ['i', 'n', 't'] && "string" == ['s', 't', 'r', 'i', 'n', 'g'];
    LowerIs(t, "int");
    LowerIs(t, "string");
  }

  // ---------- schema files ----------

  /** A record of a schema file: a name and a type. */
  ghost predicate IsColumnLine(record: string, column: Column) {
    && ParseFields(record).Some? && |ParseFields(record).value| == 2
    && ParseFields(record).value[0] == column.name && SpellsType(ParseFields(record).value[1], column.kind)
  }

  ghost predicate AreColumnLines(records: seq<string>, columns: seq<Column>) {
    |records| == |columns| && forall k :: 0 <= k < |columns| ==> IsColumnLine(records[k], columns[k])
  }

  lemma LinesSplit(record: string, records: seq<string>, columns: seq<Column>)
    requires columns != []
    ensures AreColumnLines([record] + records, columns)
       <==> IsColumnLine(record, columns[0]) && AreColumnLines(records, columns[1..])
  {
    hide IsColumnLine;
    var all := [record] + records;
    assert forall k :: 0 <= k < |records| ==> all[k + 1] == records[k];
    assert forall k :: 0 <= k < |columns[1..]| ==> columns[1..][k] == columns[k + 1];
    if AreColumnLines(all, columns) {
      forall k | 0 <= k < |columns[1..]|
        ensures IsColumnLine(records[k], columns[1..][k])
      {
        assert IsColumnLine(all[k + 1], columns[k + 1]);
      }
      assert IsColumnLine(all[0], columns[0]);
    }
    if IsColumnLine(record, columns[0]) && AreColumnLines(records, columns[1..]) {
      forall k | 0 <= k < |columns|
        ensures IsColumnLine(all[k], columns[k])
      {
        if k > 0 { assert IsColumnLine(records[k - 1], columns[1..][k - 1]); }
      }
    }
  }

  lemma SchemaRowIff(record: string, before: seq<Column>, column: Column)
    ensures SchemaRow(record, before) == Some(column)
       <==> IsColumnLine(record, column) && column.name != "" && column.name !in Names(before)
  {
    if ParseFields(record).Some? && |ParseFields(record).value| == 2 {
      ParseTypeIff(ParseFields(record).value[1], column.kind);
    }
  }

  lemma ValidPrefix(before: seq<Column>, columns: seq<Column>)
    requires columns != [] && ValidSchema(before + columns)
    ensures columns[0].name != "" && columns[0].name !in Names(before)
    ensures ValidSchema(before + [columns[0]])
  {
    var all, names := before + columns, Names(before + columns);
    assert all[|before|] == columns[0] && names[|before|] == columns[0].name;
    forall i | 0 <= i < |before|
      ensures Names(before)[i] == names[i] && before[i].name != ""
    {
      assert all[i] == before[i];
    }
    assert Names(before + [columns[0]]) == names[..|before| + 1];
  }

  /** One round of the row loop of the schema loader. */
  lemma LoadOne(s: string, before: seq<Column>, columns: seq<Column>)
    requires before != [] ==> ValidSchema(before)
    requires columns != [] && ReadRecord(s).Record? && ValidSchema(before + [columns[0]])
    ensures LoadRows(s, before) == Ok(before + columns) <==>
            && SchemaRow(ReadRecord(s).text, before) == Some(columns[0])
            && LoadRows(ReadRecord(s).rest, before + [columns[0]]) == Ok(before + columns)
  {
    hide SchemaRow, ReadRecord, ValidSchema;
    var column := SchemaRow(ReadRecord(s).text, before);
    if column.Some? {
      ExtendSchema(before, column.value);
      if LoadRows(s, before) == Ok(before + columns) {
        assert (before + [column.value])[|before|] == (before + columns)[|before|];
      }
    }
  }

  /** The row loop of the schema loader, with before already loaded. */
  lemma {:induction false} LoadRowsIff(s: string, before: seq<Column>, columns: seq<Column>)
    requires before != [] ==> ValidSchema(before)
    ensures LoadRows(s, before) == Ok(before + columns)
       <==> ReadAll(s).Some? && AreColumnLines(ReadAll(s).value, columns) && ValidSchema(before + columns)
    decreases |s|
  {
    match ReadRecord(s)
    case EndOfFile => NothingToLoad(s, before, columns);
    case Unterminated =>
    case Record(text, _, rest) =>
      if columns == [] {
        assert before + columns == before;
        LoadsMore(s, before);
      } else if ValidSchema(before + columns) {
        ValidPrefix(before, columns);
        LoadRowsIff(rest, before + [columns[0]], columns[1..]);
        LoadStep(s, before, columns);
      }
  }

  lemma NothingToLoad(s: string, before: seq<Column>, columns: seq<Column>)
    requires before != [] ==> ValidSchema(before)
    requires ReadRecord(s).EndOfFile?
    ensures LoadRows(s, before) == Ok(before + columns)
       <==> ReadAll(s).Some? && AreColumnLines(ReadAll(s).value, columns) && ValidSchema(before + columns)
  {
    if columns == [] { assert before + columns == before; }
    NoColumns();
  }

  lemma LoadStep(s: string, before: seq<Column>, columns: seq<Column>)
    requires before != [] ==> ValidSchema(before)
    requires columns != [] && ReadRecord(s).Record? && ValidSchema(before + columns)
    requires var rest := ReadRecord(s).rest;
             ValidSchema(before + [columns[0]]) &&
             (LoadRows(rest, before + [columns[0]]) == Ok(before + [columns[0]] + columns[1..])
              <==> ReadAll(rest).Some? && AreColumnLines(ReadAll(rest).value, columns[1..])
                   && ValidSchema(before + [columns[0]] + columns[1..]))
    ensures LoadRows(s, before) == Ok(before + columns)
       <==> ReadAll(s).Some? && AreColumnLines(ReadAll(s).value, columns)
  {
    hide LoadRows, ValidSchema, AreColumnLines, IsColumnLine, SchemaRow, ReadRecord;
    var text, rest := ReadRecord(s).text, ReadRecord(s).rest;
    assert before + [columns[0]] + columns[1..] == before + columns;
    LoadOne(s, before, columns);
    SchemaRowIff(text, before, columns[0]);
    ValidPrefix(before, columns);
    if ReadAll(rest).Some? { LinesSplit(text, ReadAll(rest).value, columns); }
  }

  lemma NoColumns()
    ensures !ValidSchema([])
  {
  }

  lemma LoadsMore(s: string, before: seq<Column>)
    requires before != [] ==> ValidSchema(before)
    requires ReadRecord(s).Record?
    ensures LoadRows(s, before).Ok? ==> before < LoadRows(s, before).value
  {
    var column := SchemaRow(ReadRecord(s).text, before);
    if column.Some? { ExtendSchema(before, column.value); }
  }

  /** A schema file loads as these columns exactly when its records are the title and one line for each column, in
      order, and the names are distinct and not empty; every other file is refused. */
  lemma LoadSchemaIff(bytes: string, columns: seq<Column>)
    ensures LoadSchema(bytes) == Ok(columns) <==>
            && ValidSchema(columns) && ReadAll(bytes).Some? && ReadAll(bytes).value != []
            && ParseFields(ReadAll(bytes).value[0]) == Some(["name", "type"])
            && AreColumnLines(ReadAll(bytes).value[1..], columns)
  {
    hide ParseFields, LoadRows, ValidSchema, AreColumnLines, ReadRecord;
    match ReadRecord(bytes)
    case EndOfFile =>
    case Unterminated =>
    case Record(text, _, rest) =>
      LoadRowsIff(rest, [], columns);
      assert [] + columns == columns;
      if ReadAll(bytes).Some? { assert ReadAll(bytes).value[1..] == ReadAll(rest).value; }
  }

  // ---------- printed schema files, with any spelling of the types ----------

  function ColumnLine(name: Cell, t: string): string {
    RenderCells([name, Plain(t)])
  }

  function ColumnLines(names: seq<Cell>, types: seq<string>): (lines: seq<string>)
    requires |types| == |names|
    ensures |lines| == |names|
  {
    seq(|names|, k requires 0 <= k < |names| => ColumnLine(names[k], types[k]))
  }

  /** The schema as it may be written: the names with or without quotes, the types in any spelling. */
  predicate Writes(columns: seq<Column>, names: seq<Cell>, types: seq<string>) {
    && |names| == |types| == |columns| && Printable(names)
    && forall k :: 0 <= k < |columns| ==> names[k].text == columns[k].name && SpellsType(types[k], columns[k].kind)
  }

  lemma TypeIsPlain(t: string, kind: ColumnType)
    requires SpellsType(t, kind)
    ensures IsPlain(t)
  {
    assert "int" == ['i', 'n', 't'] && "string" == ['s', 't', 'r', 'i', 'n', 'g'];
    forall i | 0 <= i < |t|
      ensures t[i] != ',' && t[i] != '"' && !IsEol(t[i])
    {
      assert SameLetter(t[i], TypeWord(kind)[i]) && 'a' <= TypeWord(kind)[i] <= 'z';
    }
  }

  lemma ColumnLineReads(column: Column, name: Cell, t: string)
    requires name.text == column.name && SpellsType(t, column.kind) && (name.Plain? ==> IsPlain(name.text))
    ensures IsRecordText(ColumnLine(name, t))
    ensures IsColumnLine(ColumnLine(name, t), column) <==> !HasBom(column.name)
  {
    hide SpellsType, IsRecordText;
    var cells := [name, Plain(t)];
    TypeIsPlain(t, column.kind);
    RowIsRecordText(cells);
    RowRoundTrip(cells, "");
    PrintableIsBare(cells);
    ParseRendered(cells, true);
    assert Texts(cells[1..]) == [t];
    assert ReadFields(cells, true) == [StripBom(column.name), t];
    if HasBom(column.name) { assert |StripBom(column.name)| < |column.name|; }
  }

  /** A written schema loads as itself exactly when no name starts with a byte order mark. */
  lemma WrittenSchemaLoads(columns: seq<Column>, names: seq<Cell>, types: seq<string>)
    requires ValidSchema(columns) && Writes(columns, names, types)
    ensures LoadSchema(RenderRecords(["name,type"] + ColumnLines(names, types))) == Ok(columns)
       <==> forall k :: 0 <= k < |columns| ==> !HasBom(columns[k].name)
  {
    hide LoadSchema, ParseFields, RenderRecords, ColumnLine, IsColumnLine, IsRecordText, SpellsType;
    var lines := ColumnLines(names, types);
    var records := ["name,type"] + lines;
    TitleReads();
    forall k | 0 <= k < |columns|
      ensures IsRecordText(lines[k]) && (IsColumnLine(lines[k], columns[k]) <==> !HasBom(columns[k].name))
    {
      ColumnLineReads(columns[k], names[k], types[k]);
    }
    ReadRendered(records);
    LoadSchemaIff(RenderRecords(records), columns);
    assert records[1..] == lines;
  }

  lemma TitleReads()
    ensures IsRecordText("name,type") && ParseFields("name,type") == Some(["name", "type"])
  {
    hide RenderCells, ParseFields, IsRecordText;
    var title := [Plain("name"), Plain("type")];
    TitleText(title);
    assert BOM[0] != "name"[0];
    RowIsRecordText(title);
    RowRoundTrip(title, "");
    assert Texts(title) == ["name", "type"];
  }

  lemma TitleText(title: seq<Cell>)
    requires title == [Plain("name"), Plain("type")]
    ensures RenderCells(title) == "name,type"
  {
    assert title[1..] == [Plain("type")];
    assert RenderCells(title) == "name" + "," + "type";
  }

  /** The schema file with quoted names and lower-case types. */
  function RenderSchema(columns: seq<Column>): string {
    RenderRecords(["name,type"] + ColumnLines(QuotedNames(columns), TypeWords(columns)))
  }

  function QuotedNames(columns: seq<Column>): (names: seq<Cell>)
    ensures |names| == |columns|
  {
    seq(|columns|, k requires 0 <= k < |columns| => Quoted(columns[k].name))
  }

  function TypeWords(columns: seq<Column>): (types: seq<string>)
    ensures |types| == |columns|
  {
    seq(|columns|, k requires 0 <= k < |columns| => TypeWord(columns[k].kind))
  }

  /** Every valid schema has a schema file, which loads as that schema exactly when no name starts with a
      byte order mark. */
  lemma SchemaRoundTrip(columns: seq<Column>)
    requires ValidSchema(columns)
    ensures LoadSchema(RenderSchema(columns)) == Ok(columns)
       <==> forall i :: 0 <= i < |columns| ==> !HasBom(columns[i].name)
  {
    hide LoadSchema, RenderRecords, ColumnLines;
    WrittenSchemaLoads(columns, QuotedNames(columns), TypeWords(columns));
  }
}
