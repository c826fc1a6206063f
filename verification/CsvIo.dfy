/** The stdio loops of src/storage.c: each method is proved against a function of Csv or Decimal. */
module CsvIo {
  import opened SqlTypes
  import opened Decimal
  import opened Csv

  /** A stdio stream: its bytes and its position. */
  class File {
    var bytes: string
    var pos: nat

    ghost predicate Valid()
      reads this
    {
      pos <= |bytes|
    }

    ghost predicate AtEnd()
      reads this
    {
      pos == |bytes|
    }

    ghost function Unread(): string
      reads this
      requires Valid()
    {
      bytes[pos..]
    }

    constructor (bytes: string)
      ensures Valid() && this.bytes == bytes && pos == 0
    {
      this.bytes := bytes;
      pos := 0;
    }

    method Getc() returns (c: Option<char>)
      requires Valid()
      modifies this`pos
      ensures Valid()
      ensures c == if old(pos) < |bytes| then Some(bytes[old(pos)]) else None
      ensures pos == if c.Some? then old(pos) + 1 else old(pos)
    {
      if pos == |bytes| { return None; }
      c := Some(bytes[pos]);
      pos := pos + 1;
    }

    method Ungetc()
      requires Valid() && pos > 0
      modifies this`pos
      ensures Valid() && pos == old(pos) - 1
    {
      pos := pos - 1;
    }

    /** fseek(file, -back, SEEK_END) */
    method SeekFromEnd(back: nat)
      requires back <= |bytes|
      modifies this`pos
      ensures Valid() && pos == |bytes| - back
    {
      pos := |bytes| - back;
    }

    method Rewind()
      modifies this`pos
      ensures Valid() && pos == 0
    {
      pos := 0;
    }

    method Putc(c: char)
      requires Valid()
      modifies this
      ensures Valid() && pos == old(pos) + 1
      ensures old(AtEnd()) ==> bytes == old(bytes) + [c]
      ensures !old(AtEnd()) ==> bytes == old(bytes)[old(pos) := c]
    {
      bytes := if pos == |bytes| then bytes + [c] else bytes[pos := c];
      pos := pos + 1;
    }

    method Puts(s: string)
      requires AtEnd()
      modifies this
      ensures AtEnd() && bytes == old(bytes) + s
    {
      var i := 0;
      while i < |s|
        invariant 0 <= i <= |s|
        invariant AtEnd() && bytes == old(bytes) + s[..i]
      {
        Putc(s[i]);
        i := i + 1;
      }
    }
  }

  // ---------- reading ----------

  datatype ReadResult = NoRecord | BadRecord | GotRecord(record: string)

  /** The scan of all[start..] has taken all[start..pos], in which no record ends. */
  ghost predicate Scanned(all: string, start: nat, pos: nat, buffer: string, inQuotes: bool) {
    && start <= pos <= |all| && buffer == all[start..pos]
    && Span(buffer, false) == |buffer| && inQuotes == InQuotes(buffer)
  }

  lemma ScanNext(all: string, start: nat, pos: nat, buffer: string, inQuotes: bool)
    requires Scanned(all, start, pos, buffer, inQuotes) && pos < |all|
    requires inQuotes || !IsEol(all[pos])
    ensures Scanned(all, start, pos + 1, buffer + [all[pos]], inQuotes != (all[pos] == '"'))
  {
    var c := all[pos];
    SpanConcat(buffer, [c], false);
    InQuotesConcat(buffer, [c]);
    assert all[start..pos + 1] == buffer + [c];
    assert Span([c], inQuotes) == 1;
  }

  /** What the scan of all[start..] has found when it stops with all[start..mid] in its buffer. */
  lemma ScanStops(all: string, start: nat, mid: nat, end: nat, buffer: string, inQuotes: bool)
    requires Scanned(all, start, mid, buffer, inQuotes) && mid <= end <= |all| && start < end
    requires
      || (mid == end == |all|)
      || (!inQuotes && mid < |all| && IsEol(all[mid]) && end == mid + EolLength(all[mid..]))
    ensures ReadRecord(all[start..]) == if inQuotes then Unterminated else Record(buffer, all[mid..end], all[end..])
  {
    var s, tail := all[start..], all[mid..];
    ScanSlices(all, start, mid, end);
    SpanConcat(buffer, tail, false);
    assert Span(s, false) == mid - start;
  }

  lemma ScanSlices(all: string, start: nat, mid: nat, end: nat)
    requires start <= mid <= end <= |all|
    ensures var s := all[start..];
            && s == all[start..mid] + all[mid..]
            && s[..mid - start] == all[start..mid] && s[mid - start..] == all[mid..]
            && s[mid - start..end - start] == all[mid..end] && s[end - start..] == all[end..]
  {
    var s := all[start..];
    assert s == all[start..mid] + all[mid..];
    assert s[mid - start..end - start] == all[mid..end];
  }

  /** The look-ahead behind a quote: a doubled quote is consumed, any other byte is put back. */
  method TakeDoubledQuote(file: File, inQuotes: bool) returns (doubled: bool)
    requires file.Valid()
    modifies file`pos
    ensures file.Valid()
    ensures doubled == (inQuotes && old(file.pos) < |file.bytes| && file.bytes[old(file.pos)] == '"')
    ensures file.pos == if doubled then old(file.pos) + 1 else old(file.pos)
  {
    var next := file.Getc();
    if inQuotes && next == Some('"') { return true; }
    if next.Some? { file.Ungetc(); }
    doubled := false;
  }

  /** The rest of a terminator whose first byte ch has been read. */
  method FinishTerminator(file: File, ch: char)
    requires file.Valid() && file.pos > 0 && file.bytes[file.pos - 1] == ch && IsEol(ch)
    modifies file`pos
    ensures file.Valid() && file.pos == old(file.pos) - 1 + EolLength(file.bytes[old(file.pos) - 1..])
  {
    if ch == '\r' {
      var next := file.Getc();
      if next != Some('\n') && next.Some? { file.Ungetc(); }
    }
  }

  /** The loop of read_csv_record. */
  method ScanRecord(file: File) returns (buffer: string, inQuotes: bool, sawAny: bool)
    requires file.Valid()
    modifies file`pos
    ensures file.Valid() && sawAny == (old(file.pos) < file.pos)
    ensures var mid := old(file.pos) + |buffer|;
            && Scanned(file.bytes, old(file.pos), mid, buffer, inQuotes)
            && (|| mid == file.pos == |file.bytes|
                || (!inQuotes && mid < |file.bytes| && IsEol(file.bytes[mid])
                    && file.pos == mid + EolLength(file.bytes[mid..])))
  {
    ghost var start, all := file.pos, file.bytes;
    buffer, inQuotes, sawAny := "", false, false;
    while true
      invariant file.Valid() && file.bytes == all && sawAny == (start < file.pos)
      invariant Scanned(all, start, file.pos, buffer, inQuotes)
      decreases |all| - file.pos
    {
      ghost var at := file.pos;
      var ch := file.Getc();
      if ch == None { break; }
      sawAny := true;
      if ch == Some('"') {
        ScanNext(all, start, at, buffer, inQuotes);
        buffer := buffer + ['"'];
        var doubled := TakeDoubledQuote(file, inQuotes);
        if doubled {
          ScanNext(all, start, at + 1, buffer, !inQuotes);
          buffer := buffer + ['"'];
          continue;
        }
        inQuotes := !inQuotes;
        continue;
      }
      if !inQuotes && IsEol(ch.value) {
        FinishTerminator(file, ch.value);
        break;
      }
      ScanNext(all, start, at, buffer, inQuotes);
      buffer := buffer + [ch.value];
    }
  }

  /** read_csv_record: the look-ahead loop reads exactly the record that quote parity delimits. */
  method ReadCsvRecord(file: File) returns (r: ReadResult)
    requires file.Valid()
    modifies file`pos
    ensures file.Valid()
    ensures match ReadRecord(old(file.Unread()))
            case EndOfFile => r == NoRecord && file.Unread() == []
            case Unterminated => r == BadRecord && file.Unread() == []
            case Record(text, _, rest) => r == GotRecord(text) && file.Unread() == rest
  {
    ghost var start := file.pos;
    var buffer, inQuotes, sawAny := ScanRecord(file);
    if !sawAny { return NoRecord; }
    ScanStops(file.bytes, start, start + |buffer|, file.pos, buffer, inQuotes);
    if inQuotes { return BadRecord; }
    r := GotRecord(buffer);
  }

  function Prepend(head: string, f: Option<Field>): Option<Field> {
    match f
    case None => None
    case Some(field) => Some(Field(head + field.text, field.rest))
  }

  lemma PrependFacts(head: string, c: string, f: Option<Field>)
    ensures Prepend([], f) == f
    ensures Prepend(head, Prepend(c, f)) == Prepend(head + c, f)
  {
    if f.Some? {
      assert [] + f.value.text == f.value.text;
      assert head + (c + f.value.text) == head + c + f.value.text;
    }
  }

  /** The quoted branch of parse_csv_record, entered behind the opening quote. */
  method ParseQuotedField(record: string, start: nat) returns (field: Option<string>, pos: nat)
    requires start <= |record|
    ensures pos <= |record|
    ensures match QuotedBody(record[start..])
            case None => field == None
            case Some(f) => field == Some(f.text) && record[pos..] == f.rest && pos > start
  {
    pos := start;
    var buffer := "";
    PrependFacts("", "", QuotedBody(record[start..]));
    while true
      invariant start <= pos <= |record|
      invariant QuotedBody(record[start..]) == Prepend(buffer, QuotedBody(record[pos..]))
      decreases |record| - pos
    {
      ghost var rest := record[pos..];
      if pos == |record| { return None, pos; }
      var ch := record[pos];
      if ch == '"' {
        if pos + 1 < |record| && record[pos + 1] == '"' {
          assert rest[2..] == record[pos + 2..];
          PrependFacts(buffer, "\"", QuotedBody(record[pos + 2..]));
          buffer := buffer + ['"'];
          pos := pos + 2;
          continue;
        }
        assert rest[1..] == record[pos + 1..] && buffer + "" == buffer;
        pos := pos + 1;
        break;
      }
      assert rest[1..] == record[pos + 1..];
      PrependFacts(buffer, [ch], QuotedBody(record[pos + 1..]));
      buffer := buffer + [ch];
      pos := pos + 1;
    }
    field := Some(buffer);
  }

  /** The unquoted branch of parse_csv_record. */
  method ParsePlainField(record: string, start: nat) returns (field: string, pos: nat)
    requires start <= |record|
    ensures start <= pos <= |record|
    ensures pos - start == CommaAt(record[start..]) && field == record[start..pos]
  {
    pos := start;
    while pos < |record| && record[pos] != ','
      invariant start <= pos <= |record|
      invariant CommaAt(record[start..]) == pos - start + CommaAt(record[pos..])
    {
      assert record[pos..][1..] == record[pos + 1..];
      pos := pos + 1;
    }
    field := record[start..pos];
  }

  /** The field at start, as parse_csv_record reads it. */
  method ParseField(record: string, start: nat) returns (field: Option<string>, pos: nat)
    requires start <= |record|
    ensures pos <= |record|
    ensures match NextField(record[start..])
            case None => field == None
            case Some(f) => start <= pos && field == Some(f.text) && record[pos..] == f.rest
  {
    ghost var rest := record[start..];
    if start < |record| && record[start] == '"' {
      assert rest[1..] == record[start + 1..];
      field, pos := ParseQuotedField(record, start + 1);
      if field.Some? && pos < |record| && record[pos] != ',' { field := None; }
    } else {
      var plain;
      plain, pos := ParsePlainField(record, start);
      assert rest[..pos - start] == plain && rest[pos - start..] == record[pos..];
      field := Some(plain);
    }
  }

  function Follow(row: seq<string>, rest: Option<seq<string>>): Option<seq<string>> {
    match rest
    case None => None
    case Some(fields) => Some(row + fields)
  }

  /** The fields of record, of which row has been read up to pos. */
  ghost predicate RowSoFar(record: string, row: seq<string>, pos: nat) {
    pos <= |record| && ParseFields(record) == Follow(row, ParseFields(record[pos..], row == []))
  }

  lemma RowStart(record: string)
    ensures RowSoFar(record, [], 0)
  {
    assert record[0..] == record;
    assert ParseFields(record).Some? ==> [] + ParseFields(record).value == ParseFields(record).value;
  }

  lemma RowNext(record: string, row: seq<string>, pos: nat, next: nat, text: string)
    requires RowSoFar(record, row, pos) && next <= |record|
    requires NextField(record[pos..]) == Some(Field(text, record[next..]))
    ensures var row' := row + [if row == [] then StripBom(text) else text];
            if next == |record| then ParseFields(record) == Some(row')
            else RowSoFar(record, row', next + 1)
  {
    var field := if row == [] then StripBom(text) else text;
    if next < |record| {
      assert record[next..][1..] == record[next + 1..];
      var rest := ParseFields(record[next + 1..], false);
      if rest.Some? { Associative(row, [field], rest.value); }
    }
  }

  /** One round of the field loop of parse_csv_record. */
  method AppendField(record: string, row: seq<string>, pos: nat) returns (row': Option<seq<string>>, next: nat)
    requires RowSoFar(record, row, pos)
    ensures row' == None ==> ParseFields(record) == None
    ensures row'.Some? ==> pos <= next <= |record| && row'.value != []
    ensures row'.Some? ==>
              if next == |record| then ParseFields(record) == row' else RowSoFar(record, row'.value, next + 1)
  {
    var parsed;
    parsed, next := ParseField(record, pos);
    if parsed == None { return None, next; }
    RowNext(record, row, pos, next, parsed.value);
    row' := Some(row + [if row == [] then StripBom(parsed.value) else parsed.value]);
  }

  /** parse_csv_record */
  method ParseCsvRecord(record: string) returns (result: Option<seq<string>>)
    ensures result == ParseFields(record)
  {
    var row, pos := [], 0;
    RowStart(record);
    while true
      invariant RowSoFar(record, row, pos)
      decreases |record| - pos
    {
      var appended, next := AppendField(record, row, pos);
      if appended == None || next == |record| { return appended; }
      row, pos := appended.value, next + 1;
      if pos == |record| {
        TrailingField(record, row);
        return Some(row + [""]);
      }
    }
  }

  lemma TrailingField(record: string, row: seq<string>)
    requires RowSoFar(record, row, |record|) && row != []
    ensures ParseFields(record) == Some(row + [""])
  {
    assert ParseFields("", false) == Some([""]);
    assert record[|record|..] == "";
  }

  // ---------- writing ----------

  /** write_csv_string */
  method WriteCsvString(file: File, text: string)
    requires file.AtEnd()
    modifies file
    ensures file.AtEnd() && file.bytes == old(file.bytes) + RenderCell(Quoted(text))
  {
    hide Escape;
    ghost var start := file.bytes + "\"";
    file.Putc('"');
    NothingEscaped(start, text);
    for i := 0 to |text|
      invariant file.AtEnd() && file.bytes + Escape(text[i..]) == start + Escape(text)
    {
      NextEscaped(file.bytes, text, i);
      if text[i] == '"' {
        file.Putc('"');
        file.Putc('"');
      } else {
        file.Putc(text[i]);
      }
    }
    AllEscaped(file.bytes, text);
    file.Putc('"');
    QuotedText(old(file.bytes), Escape(text));
  }

  lemma NothingEscaped(before: string, text: string)
    ensures before + Escape(text[0..]) == before + Escape(text)
  {
    assert text[0..] == text;
  }

  lemma AllEscaped(before: string, text: string)
    ensures before + Escape(text[|text|..]) == before
  {
    assert text[|text|..] == "" && before + "" == before;
  }

  lemma NextEscaped(before: string, text: string, i: nat)
    requires i < |text|
    ensures before + Escape(text[i..]) ==
            (if text[i] == '"' then before + ['"'] + ['"'] else before + [text[i]]) + Escape(text[i + 1..])
  {
    assert text[i..][1..] == text[i + 1..];
    var c, rest := text[i], Escape(text[i + 1..]);
    if c == '"' {
      assert before + ['"'] + ['"'] == before + "\"\"";
      Associative(before, "\"\"", rest);
    } else {
      Associative(before, [c], rest);
    }
  }

  lemma QuotedText(before: string, escaped: string)
    ensures before + "\"" + escaped + ['"'] == before + ("\"" + escaped + "\"")
  {
  }

  function Reversed(s: string): string {
    if s == [] then [] else [s[|s| - 1]] + Reversed(s[..|s| - 1])
  }

  lemma {:induction false} ReversedLength(s: string)
    ensures |Reversed(s)| == |s|
  {
    if s != [] { ReversedLength(s[..|s| - 1]); }
  }

  /** The digits still to be printed and those already in the buffer, last digit first. */
  ghost predicate DigitsSplit(all: nat, magnitude: nat, buffered: string) {
    Digits(all) == (if magnitude > 0 then Digits(magnitude) else "") + Reversed(buffered)
  }

  lemma ReversedSnoc(s: string, c: char)
    ensures Reversed(s + [c]) == [c] + Reversed(s)
  {
    assert (s + [c])[..|s|] == s;
  }

  lemma NextDigit(all: nat, magnitude: nat, buffered: string)
    requires if buffered == [] then magnitude == all else magnitude > 0 && DigitsSplit(all, magnitude, buffered)
    ensures DigitsSplit(all, magnitude / 10, buffered + [DigitChar(magnitude % 10)])
  {
    var d := DigitChar(magnitude % 10);
    ReversedSnoc(buffered, d);
    var head := if magnitude / 10 > 0 then Digits(magnitude / 10) else "";
    assert Digits(magnitude) == head + [d];
    if buffered == [] {
      assert Digits(magnitude) + Reversed(buffered) == Digits(magnitude);
    }
    Associative(head, [d], Reversed(buffered));
  }

  lemma AtMost19Digits(all: nat, magnitude: nat, buffered: string)
    requires all <= 0x8000_0000_0000_0000 && DigitsSplit(all, magnitude, buffered)
    ensures |buffered| <= 19 && (magnitude > 0 ==> |buffered| < 19)
  {
    ReversedLength(buffered);
    MagnitudeDigits(all);
  }

  /** The digit loop of write_signed_integer: at most 19 of the 32 bytes are used. */
  method DigitBuffer(all: UInt64, digits: array<char>) returns (count: nat)
    requires all <= 0x8000_0000_0000_0000 && digits.Length == 32
    modifies digits
    ensures 0 < count <= 19 && Reversed(digits[..count]) == Digits(all)
  {
    var magnitude := all;
    ghost var buffered := "";
    count := 0;
    while true
      invariant 0 <= count <= 19 && 0 <= magnitude <= UINT64_MAX
      invariant buffered == digits[..count]
      invariant if count == 0 then magnitude == all else magnitude > 0 && DigitsSplit(all, magnitude, buffered)
      decreases magnitude
    {
      var digit := DigitChar(magnitude % 10);
      NextDigit(all, magnitude, buffered);
      buffered := buffered + [digit];
      AtMost19Digits(all, magnitude / 10, buffered);
      digits[count] := digit;
      count := count + 1;
      assert buffered == digits[..count];
      magnitude := magnitude / 10;
      assert magnitude == 0 ==> "" + Reversed(buffered) == Reversed(buffered);
      if magnitude == 0 { break; }
    }
  }

  /** The second loop of write_signed_integer, which prints the buffer backwards. */
  method WriteMagnitude(file: File, magnitude: UInt64)
    requires file.AtEnd() && magnitude <= 0x8000_0000_0000_0000
    modifies file
    ensures file.AtEnd() && file.bytes == old(file.bytes) + Digits(magnitude)
  {
    var digits := new char[32];
    var count := DigitBuffer(magnitude, digits);
    ghost var all, written := digits[..], file.bytes;
    while count > 0
      invariant 0 <= count <= 32 && digits[..] == all
      invariant file.AtEnd() && file.bytes + Reversed(all[..count]) == written + Digits(magnitude)
    {
      ReversedStep(file.bytes, all, count);
      count := count - 1;
      file.Putc(digits[count]);
    }
    assert file.bytes + "" == file.bytes;
  }

  lemma ReversedStep(written: string, all: string, count: nat)
    requires 0 < count <= |all|
    ensures written + Reversed(all[..count]) == written + [all[count - 1]] + Reversed(all[..count - 1])
  {
    assert all[..count][..count - 1] == all[..count - 1];
  }

  /** write_signed_integer: no intermediate value leaves its C type, LLONG_MIN included. */
  method WriteSignedInteger(file: File, value: Int64)
    requires file.AtEnd()
    modifies file
    ensures file.AtEnd() && file.bytes == old(file.bytes) + IntText(value)
  {
    var magnitude: UInt64;
    if value < 0 {
      file.Putc('-');
      if value == INT64_MIN {
        magnitude := INT64_MAX + 1;
      } else {
        var negated: Int64 := -value;
        magnitude := negated;
      }
    } else {
      magnitude := value;
    }
    WriteMagnitude(file, magnitude);
    assert value < 0 ==> old(file.bytes) + ("-" + Digits(magnitude)) == old(file.bytes) + "-" + Digits(magnitude);
  }
}
