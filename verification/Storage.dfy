/** storage_append_row and storage_select_projection as functions of the bytes of a table's two files
    (None: the file does not exist). The methods that compute them are in TableIo, their loops in StorageIo. */
module Storage {
  import opened SqlTypes
  import opened Decimal
  import opened Csv
  import opened Schema

  function LoadOptionalSchema(schemaFile: Option<string>): (r: Result<Option<seq<Column>>>)
    ensures r.Ok? && r.value.Some? ==> ValidSchema(r.value.value)
  {
    match schemaFile
    case None => Ok(None)
    case Some(bytes) =>
      match LoadSchema(bytes)
      case Err(code) => Err(code)
      case Ok(schema) => Ok(Some(schema))
  }

  datatype Header = Header(fields: seq<string>, rest: string)

  function LoadHeader(csv: string): (r: Result<Header>)
    ensures r.Ok? ==> |r.value.fields| > 0 && |r.value.rest| < |csv|
    ensures r.Err? ==> r.code == Parse
  {
    match ReadRecord(csv)
    case EndOfFile => Err(Parse)
    case Unterminated => Err(Parse)
    case Record(text, _, rest) =>
      match ParseFields(text)
      case None => Err(Parse)
      case Some(fields) => Ok(Header(fields, rest))
  }

  // ---------- append ----------

  function ValueCell(v: SqlValue): Cell {
    match v
    case IntValue(n) => Plain(IntText(n))
    case StringValue(s) => Quoted(s)
  }

  function RowCells(values: seq<SqlValue>): (cells: seq<Cell>)
    ensures |cells| == |values|
  {
    seq(|values|, i requires 0 <= i < |values| => ValueCell(values[i]))
  }

  function NameCells(names: seq<string>): (cells: seq<Cell>)
    ensures |cells| == |names|
  {
    seq(|names|, i requires 0 <= i < |names| => Plain(names[i]))
  }

  function RenderRow(values: seq<SqlValue>): string {
    RenderCells(RowCells(values))
  }

  function HeaderLine(names: seq<string>): string {
    RenderCells(NameCells(names)) + "\n"
  }

  function NormalizeTail(csv: string): string {
    if csv == [] || IsEol(csv[|csv| - 1]) then csv else csv + "\n"
  }

  function WithLine(csv: string, row: string): string {
    NormalizeTail(csv) + row + "\n"
  }

  function WithRow(csv: string, values: seq<SqlValue>): string {
    WithLine(csv, RenderRow(values))
  }

  /** The values an INSERT stores, in file order; Err when it is refused before the CSV is looked at. */
  function StoredValues(schema: Option<seq<Column>>, columns: seq<string>, values: seq<SqlValue>)
    : (r: Result<seq<SqlValue>>)
    ensures r.Ok? && schema.Some? ==> |r.value| == |schema.value| && TypesMatch(schema.value, r.value)
  {
    match schema
    case None => if columns == [] then Ok(values) else Err(Unsupported)
    case Some(cols) =>
      if !Fits(cols, columns, values) then Err(Argument)
      else if !TypesMatch(cols, Mapped(cols, columns, values)) then Err(Argument)
      else Ok(Mapped(cols, columns, values))
  }

  /** The CSV an INSERT starts from: the present one, or a fresh header when it may be auto-created. */
  function BaseCsv(schema: Option<seq<Column>>, csvFile: Option<string>, columns: seq<string>): Result<string> {
    match csvFile
    case Some(csv) => Ok(csv)
    case None =>
      if schema.Some? && columns != [] then Ok(HeaderLine(Names(schema.value))) else Err(Io)
  }

  function CheckHeader(schema: Option<seq<Column>>, header: seq<string>, valueCount: nat): Option<ErrorCode> {
    match schema
    case Some(cols) => if header == Names(cols) then None else Some(Parse)
    case None => if |header| == valueCount then None else Some(Argument)
  }

  /** Appending to a CSV that exists: its header is checked first. */
  function AppendChecked(schema: Option<seq<Column>>, csv: string, stored: seq<SqlValue>): Result<string> {
    match LoadHeader(csv)
    case Err(code) => Err(code)
    case Ok(header) =>
      match CheckHeader(schema, header.fields, |stored|)
      case Some(code) => Err(code)
      case None => Ok(WithRow(csv, stored))
  }

  /** The CSV bytes after a successful INSERT. */
  function AppendRow(schemaFile: Option<string>, csvFile: Option<string>,
                     columns: seq<string>, values: seq<SqlValue>): Result<string>
  {
    match LoadOptionalSchema(schemaFile)
    case Err(code) => Err(code)
    case Ok(schema) =>
      match StoredValues(schema, columns, values)
      case Err(code) => Err(code)
      case Ok(stored) =>
        match BaseCsv(schema, csvFile, columns)
        case Err(code) => Err(code)
        case Ok(csv) => AppendChecked(schema, csv, stored)
  }

  // ---------- select ----------

  predicate HasWidth(record: string, width: nat) {
    ParseFields(record).Some? && |ParseFields(record).value| == width
  }

  /** copy_stream_validated: every record after the first must have the header's width. */
  function CopyRecords(s: string, width: nat, isHeader: bool): Result<string>
    decreases |s|
  {
    match ReadRecord(s)
    case EndOfFile => Ok("")
    case Unterminated => Err(Parse)
    case Record(text, _, rest) =>
      if !isHeader && !HasWidth(text, width) then Err(Parse)
      else
        match CopyRecords(rest, width, false)
        case Err(code) => Err(code)
        case Ok(out) => Ok(text + "\n" + out)
  }

  predicate ValidIndices(indices: seq<nat>, width: nat) {
    forall i :: 0 <= i < |indices| ==> indices[i] < width
  }

  function ProjectCells(schema: seq<Column>, fields: seq<string>, indices: seq<nat>): (cells: seq<Cell>)
    requires |fields| == |schema| && ValidIndices(indices, |schema|)
    ensures |cells| == |indices|
  {
    seq(|indices|, i requires 0 <= i < |indices| =>
      if schema[indices[i]].kind == StringColumn then Quoted(fields[indices[i]]) else Plain(fields[indices[i]]))
  }

  function ProjectRecords(s: string, schema: seq<Column>, indices: seq<nat>): Result<string>
    requires ValidIndices(indices, |schema|)
    decreases |s|
  {
    match ReadRecord(s)
    case EndOfFile => Ok("")
    case Unterminated => Err(Parse)
    case Record(text, _, rest) =>
      if !HasWidth(text, |schema|) then Err(Parse)
      else
        match ProjectRecords(rest, schema, indices)
        case Err(code) => Err(code)
        case Ok(out) => Ok(RenderCells(ProjectCells(schema, ParseFields(text).value, indices)) + "\n" + out)
  }

  predicate ValidSelection(names: seq<string>, columns: seq<string>) {
    Distinct(columns) && forall i :: 0 <= i < |columns| ==> columns[i] in names
  }

  function Indices(names: seq<string>, columns: seq<string>): (indices: seq<nat>)
    requires ValidSelection(names, columns)
    ensures |indices| == |columns| && ValidIndices(indices, |names|)
    ensures forall i :: 0 <= i < |columns| ==> names[indices[i]] == columns[i]
  {
    seq(|columns|, i requires 0 <= i < |columns| => IndexOf(names, columns[i]))
  }

  /** The output of SELECT * or of a projection. */
  function SelectRows(schemaFile: Option<string>, csvFile: Option<string>,
                      selectAll: bool, columns: seq<string>): Result<string>
  {
    match LoadOptionalSchema(schemaFile)
    case Err(code) => Err(code)
    case Ok(schema) =>
      match csvFile
      case None => Err(Io)
      case Some(csv) =>
        match LoadHeader(csv)
        case Err(code) => Err(code)
        case Ok(header) =>
          if schema.Some? && header.fields != Names(schema.value) then Err(Parse)
          else if selectAll then CopyRecords(csv, |header.fields|, true)
          else if schema == None then Err(Unsupported)
          else if columns == [] || !ValidSelection(Names(schema.value), columns) then Err(Argument)
          else
            match ProjectRecords(header.rest, schema.value, Indices(Names(schema.value), columns))
            case Err(code) => Err(code)
            case Ok(out) => Ok(HeaderLine(columns) + out)
  }

  // ---------- append: exactly one more record ----------

  lemma {:induction false} DigitsArePlain(s: string)
    requires AllDigits(s)
    ensures IsPlain(s)
  {
  }

  lemma IntTextIsPlain(n: int)
    ensures IsPlain(IntText(n)) && IntText(n) != "" && !HasBom(IntText(n))
  {
    var d := Digits(if n < 0 then -n else n);
    DigitsArePlain(d);
    assert IsDigit(d[0]);
    assert IntText(n)[0] == '-' || IntText(n)[0] == d[0];
    assert BOM[0] == '\U{EF}';
  }

  lemma RowCellsPrintable(values: seq<SqlValue>)
    ensures Printable(RowCells(values))
  {
    forall i | 0 <= i < |values|
      ensures RowCells(values)[i].Plain? ==> IsPlain(RowCells(values)[i].text)
    {
      match values[i]
      case IntValue(n) => IntTextIsPlain(n);
      case StringValue(_) =>
    }
  }

  /** A stored row cannot be taken for the LF of a CRLF, nor for an empty line. */
  lemma RowStart(values: seq<SqlValue>)
    requires values != []
    ensures RenderRow(values) != "" && RenderRow(values)[0] != '\n'
  {
    var cells := RowCells(values);
    match values[0] {
      case IntValue(n) =>
        IntTextIsPlain(n);
        assert IntText(n)[0] in IntText(n);
      case StringValue(_) =>
    }
    assert RenderCell(cells[0]) <= RenderCells(cells);
  }

  lemma SingleLine(row: string)
    requires IsRecordText(row)
    ensures ReadAll(row + "\n") == Some([row])
  {
    assert ReadAll("") == Some([]);
    ReadAllOf(row, "\n", "");
    assert row + "\n" + "" == row + "\n" && [row] + [] == [row];
  }

  lemma RecordShape(csv: string)
    requires ReadRecord(csv).Record?
    ensures var r := ReadRecord(csv);
            && IsRecordText(r.text)
            && (IsTerminator(r.eol) || (r.eol == "" && r.rest == "" && r.text != ""))
            && (r.eol == "\r" ==> r.rest == [] || r.rest[0] != '\n')
  {
    SpanPrefix(csv, false);
    ScannerParity(csv);
  }

  lemma NormalizeBehind(a: string, b: string)
    requires b != ""
    ensures NormalizeTail(a + b) == a + NormalizeTail(b)
  {
    assert (a + b)[|a + b| - 1] == b[|b| - 1];
    Associative(a, b, "\n");
  }

  lemma WithLineBehind(a: string, b: string, row: string)
    requires b != ""
    ensures WithLine(a + b, row) == a + WithLine(b, row)
  {
    NormalizeBehind(a, b);
    Associative(a, NormalizeTail(b), row);
    Associative(a, NormalizeTail(b) + row, "\n");
  }

  lemma WithLineSplits(csv: string, row: string)
    requires ReadRecord(csv).Record? && row != ""
    ensures var r := ReadRecord(csv);
            WithLine(csv, row) == if r.rest == "" then r.text + (if r.eol == "" then "\n" else r.eol) + (row + "\n")
                                  else r.text + r.eol + WithLine(r.rest, row)
  {
    var r := ReadRecord(csv);
    if r.rest == "" {
      LastByte(csv);
      assert csv == r.text + r.eol;
      var eol := if r.eol == "" then "\n" else r.eol;
      assert NormalizeTail(csv) == r.text + eol;
      Associative(r.text + eol, row, "\n");
    } else {
      WithLineBehind(r.text + r.eol, r.rest, row);
    }
  }

  ghost predicate AppendsRecord(csv: string, row: string) {
    ReadAll(WithLine(csv, row)) ==
    match ReadAll(csv) {
      case None => None
      case Some(records) => Some(records + [row])
    }
  }

  lemma AppendsBehindLast(csv: string, row: string)
    requires IsRecordText(row) && row != "" && row[0] != '\n'
    requires ReadRecord(csv).Record? && ReadRecord(csv).rest == ""
    ensures AppendsRecord(csv, row)
  {
    var text, eol := ReadRecord(csv).text, ReadRecord(csv).eol;
    RecordShape(csv);
    WithLineSplits(csv, row);
    SingleLine(row);
    ReadAllOf(text, if eol == "" then "\n" else eol, row + "\n");
    assert ReadAll("") == Some([]);
    assert [text] + [] == [text];
    assert ReadAll(csv) == Some([text]);
  }

  lemma AppendsBehindFirst(csv: string, row: string)
    requires ReadRecord(csv).Record? && ReadRecord(csv).rest != "" && row != ""
    requires AppendsRecord(ReadRecord(csv).rest, row)
    ensures AppendsRecord(csv, row)
  {
    var r := ReadRecord(csv);
    RecordShape(csv);
    WithLineSplits(csv, row);
    WithLineHead(r.rest, row);
    PrependRecord(r.text, r.eol, WithLine(r.rest, row), ReadAll(r.rest), row);
  }

  lemma WithLineHead(csv: string, row: string)
    requires csv != ""
    ensures WithLine(csv, row) != "" && WithLine(csv, row)[0] == csv[0]
  {
  }

  lemma PrependRecord(text: string, eol: string, tail: string, records: Option<seq<string>>, row: string)
    requires IsRecordText(text) && IsTerminator(eol) && (eol == "\r" ==> tail == "" || tail[0] != '\n')
    requires ReadAll(tail) == if records == None then None else Some(records.value + [row])
    ensures ReadAll(text + eol + tail) == if records == None then None else Some([text] + records.value + [row])
  {
    ReadAllOf(text, eol, tail);
    if records.Some? {
      assert [text] + (records.value + [row]) == [text] + records.value + [row];
    }
  }

  /** Whatever the old file ended in, one more record is read from it, or none at all before and after. */
  lemma {:induction false} AppendRecord(csv: string, row: string)
    requires IsRecordText(row) && row != "" && row[0] != '\n'
    ensures AppendsRecord(csv, row)
    decreases |csv|
  {
    match ReadRecord(csv)
    case EndOfFile =>
      SingleLine(row);
      assert WithLine(csv, row) == row + "\n" && [] + [row] == [row];
    case Unterminated =>
      AppendToUnreadable(csv, row);
    case Record(_, _, rest) =>
      if rest == "" {
        AppendsBehindLast(csv, row);
      } else {
        AppendRecord(rest, row);
        AppendsBehindFirst(csv, row);
      }
  }

  /** A record without terminator ends the file in a byte that is no CR or LF. */
  lemma LastByte(csv: string)
    requires ReadRecord(csv).Record? && ReadRecord(csv).rest == ""
    ensures csv != [] && (IsEol(csv[|csv| - 1]) <==> ReadRecord(csv).eol != "")
  {
    ScannerParity(csv);
    var text, eol := ReadRecord(csv).text, ReadRecord(csv).eol;
    assert csv == text + eol;
    if eol == "" {
      UnterminatedLast(csv, text);
    } else {
      assert csv[|csv| - 1] == eol[|eol| - 1];
    }
  }

  lemma UnterminatedLast(csv: string, text: string)
    requires csv != "" && text == csv && !InQuotes(text)
    requires forall i :: 0 <= i < |text| && IsEol(csv[i]) ==> InQuotes(csv[..i])
    ensures !IsEol(csv[|csv| - 1])
  {
    var init, last := csv[..|csv| - 1], csv[|csv| - 1];
    assert csv == init + [last];
    InQuotesConcat(init, [last]);
    assert InQuotes([last]) <==> last == '"';
  }

  lemma AppendToUnreadable(csv: string, row: string)
    requires ReadAll(csv) == None
    requires IsRecordText(row)
    ensures ReadAll(WithLine(csv, row)) == None
  {
    ReadableIffQuotesPair(csv);
    var line := row + "\n";
    InQuotesConcat(row, "\n");
    InQuotesConcat(csv, "\n");
    InQuotesConcat(NormalizeTail(csv), line);
    assert WithLine(csv, row) == NormalizeTail(csv) + line;
    ReadableIffQuotesPair(WithLine(csv, row));
  }
}
