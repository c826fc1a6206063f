/** Exactly which printed rows are read back, whatever bytes are printed without quotes. */
module CsvExact {
  import opened SqlTypes
  import opened Csv

  // ---------- a field that is not bare ----------

  function Count(s: string, c: char): nat {
    if s == [] then 0 else (if s[0] == c then 1 else 0) + Count(s[1..], c)
  }

  lemma {:induction false} CountConcat(a: string, b: string, c: char)
    ensures Count(a + b, c) == Count(a, c) + Count(b, c)
  {
    if a == [] {
      assert a + b == b;
    } else {
      assert (a + b)[1..] == a[1..] + b;
      CountConcat(a[1..], b, c);
    }
  }

  lemma {:induction false} NotCounted(s: string, c: char)
    requires c !in s
    ensures Count(s, c) == 0
  {
    if s != [] { NotCounted(s[1..], c); }
  }

  lemma CountHead(h: char, t: string, c: char)
    ensures Count([h] + t, c) == (if h == c then 1 else 0) + Count(t, c)
  {
    assert ([h] + t)[1..] == t;
  }

  lemma {:induction false} UnquotingIsSuffix(s: string)
    ensures match QuotedBody(s)
            case None => true
            case Some(f) => |f.text| + 1 + |f.rest| <= |s| && f.rest == s[|s| - |f.rest|..]
    decreases |s|
  {
    if s != [] {
      if s[0] != '"' {
        UnquotingIsSuffix(s[1..]);
      } else if |s| > 1 && s[1] == '"' {
        UnquotingIsSuffix(s[2..]);
      }
    }
  }

  /** Unquoting keeps every byte but the quotes. */
  lemma {:induction false} UnquotingKeeps(s: string, c: char)
    requires c != '"'
    ensures match QuotedBody(s)
            case None => true
            case Some(f) => Count(s, c) == Count(f.text, c) + Count(f.rest, c)
    decreases |s|
  {
    if s != [] {
      if s[0] != '"' {
        UnquotingKeeps(s[1..], c);
        if QuotedBody(s[1..]).Some? { CountHead(s[0], QuotedBody(s[1..]).value.text, c); }
      } else if |s| > 1 && s[1] == '"' {
        assert s[1..][1..] == s[2..];
        UnquotingKeeps(s[2..], c);
        if QuotedBody(s[2..]).Some? { CountHead('"', QuotedBody(s[2..]).value.text, c); }
      }
    }
  }

  /** What is read behind a quote is never what follows it with something in front: the byte behind it, which
      has to be read as well, would be counted once too often. */
  lemma NeverReadsItself(u: string, rest: string, front: string)
    requires rest == [] || (rest[0] != '"' && rest[0] !in front)
    ensures QuotedBody(u + rest).Some? ==> QuotedBody(u + rest).value.text != front + u
  {
    hide QuotedBody, Count;
    var s := u + rest;
    UnquotingIsSuffix(s);
    if QuotedBody(s).Some? && QuotedBody(s).value.text == front + u {
      var left := QuotedBody(s).value.rest;
      assert |left| < |rest|;
      TooOften(u, rest, front, left);
      UnquotingKeeps(s, rest[0]);
    }
  }

  lemma TooOften(u: string, rest: string, front: string, left: string)
    requires |left| < |rest| && rest[0] !in front && left == (u + rest)[|u + rest| - |left|..]
    ensures Count(front + u, rest[0]) + Count(left, rest[0]) < Count(u + rest, rest[0])
  {
    var c, middle := rest[0], rest[1..|rest| - |left|];
    assert rest[1..] == middle + left;
    CountConcat(u, rest, c);
    CountConcat(front, u, c);
    CountConcat(middle, left, c);
    NotCounted(front, c);
  }

  /** Bytes that are not bare read as something else, even when a byte order mark is taken off. */
  lemma NotBareDiffers(t: string, rest: string)
    requires !IsBare(t) && (rest == [] || rest[0] == ',' || rest[0] == '\n')
    ensures match NextField(t + rest)
            case None => true
            case Some(f) => f.text != t && StripBom(f.text) != t
  {
    var s := t + rest;
    if t != [] && t[0] == '"' {
      var u := t[1..];
      assert t == "\"" + u && s[1..] == u + rest;
      NoSeparator();
      NeverReadsItself(u, rest, "\"");
      NeverReadsItself(u, rest, BOM + "\"");
      if QuotedBody(u + rest).Some? {
        var text := QuotedBody(u + rest).value.text;
        assert HasBom(text) ==> text == BOM + text[3..];
        assert BOM + ("\"" + u) == BOM + "\"" + u;
      }
    } else {
      CommaAtConcat(t, rest);
      assert CommaAt(t) < |t|;
    }
  }

  lemma NoSeparator()
    ensures ',' !in BOM + "\"" && '\n' !in BOM + "\""
  {
    assert BOM + "\"" == ['\U{EF}', '\U{BB}', '\U{BF}', '"'];
  }

  lemma FirstFieldRead(s: string, first: bool)
    ensures ParseFields(s, first).Some? ==>
              && NextField(s).Some?
              && var text := NextField(s).value.text;
                 ParseFields(s, first).value[0] == if first then StripBom(text) else text
  {
  }

  // ---------- a row and what is behind its first cell ----------

  lemma RenderSplit(cells: seq<Cell>)
    requires cells != []
    ensures RenderCells(cells) ==
            RenderCell(cells[0]) + if |cells| == 1 then "" else "," + RenderCells(cells[1..])
  {
    if |cells| > 1 { Associative(RenderCell(cells[0]), ",", RenderCells(cells[1..])); }
  }

  lemma HeadDiffers(cells: seq<Cell>, rest: string, first: bool)
    requires cells != [] && cells[0].Plain? && !IsBare(cells[0].text)
    requires rest == [] || rest[0] == ',' || rest[0] == '\n'
    ensures ParseFields(RenderCell(cells[0]) + rest, first) != Some(Texts(cells))
  {
    hide ParseFields, NextField;
    NotBareDiffers(cells[0].text, rest);
    FirstFieldRead(RenderCell(cells[0]) + rest, first);
    assert Texts(cells)[0] == cells[0].text;
  }

  lemma TailDecides(cells: seq<Cell>, tail: string, first: bool)
    requires |cells| > 1 && (cells[0].Plain? ==> IsBare(cells[0].text))
    requires ParseFields(RenderCell(cells[0]) + ("," + tail), first) == Some(Texts(cells))
    ensures ParseFields(tail, false) == Some(Texts(cells[1..]))
  {
    hide ParseFields, RenderCell, NextField;
    NextFieldOfCell(cells[0], "," + tail);
    ParseNext(RenderCell(cells[0]) + ("," + tail), cells[0].text, tail, first);
    assert Texts(cells)[1..] == Texts(cells[1..]);
    var head := [if first then StripBom(cells[0].text) else cells[0].text];
    var fields := ParseFields(tail, false).value;
    assert (head + fields)[1..] == fields;
  }

  // ---------- the row itself ----------

  /** Printed cells are read back as their texts exactly when every unquoted one has no comma and no leading
      quote, and the first field of a record no byte order mark. */
  lemma ParseRenderedIff(cells: seq<Cell>, first: bool)
    requires cells != []
    ensures ParseFields(RenderCells(cells), first) == Some(Texts(cells))
       <==> AllBare(cells) && (first ==> !HasBom(cells[0].text))
  {
    if AllBare(cells) {
      ParseRendered(cells, first);
      TextsTail(cells);
      if first { ReadsBackIffNoBom(cells); }
    } else {
      NotAllBareDiffers(cells, first);
    }
  }

  lemma {:induction false} NotAllBareDiffers(cells: seq<Cell>, first: bool)
    requires cells != [] && !AllBare(cells)
    ensures ParseFields(RenderCells(cells), first) != Some(Texts(cells))
  {
    hide ParseFields, RenderCells, RenderCell, NextField;
    var c := cells[0];
    RenderSplit(cells);
    if c.Plain? && !IsBare(c.text) {
      HeadDiffers(cells, if |cells| == 1 then "" else "," + RenderCells(cells[1..]), first);
    } else {
      assert |cells| > 1 && !AllBare(cells[1..]);
      NotAllBareDiffers(cells[1..], false);
      if ParseFields(RenderCells(cells), first) == Some(Texts(cells)) {
        TailDecides(cells, RenderCells(cells[1..]), first);
      }
    }
  }

  // ---------- a part of the row ----------

  lemma {:induction false} CutEscape(t: string, m: nat)
    requires m < |Escape(t)| && Escape(t)[m] != '"'
    ensures QuotedBody(Escape(t)[..m]) == None
  {
    var head, tail := if t[0] == '"' then "\"\"" else [t[0]], Escape(t[1..]);
    assert Escape(t) == head + tail;
    if m >= |head| {
      assert tail[m - |head|] == Escape(t)[m];
      CutEscape(t[1..], m - |head|);
      var cut := tail[..m - |head|];
      assert Escape(t)[..m] == head + cut;
      if t[0] == '"' { QuotedBodyDoubled(cut); } else { QuotedBodyChar(t[0], cut); }
    }
  }

  lemma FieldIsShort(s: string)
    ensures NextField(s).Some? ==> |NextField(s).value.text| <= |s|
  {
    if s != [] { UnquotingIsSuffix(s[1..]); }
  }

  /** A row that is cut inside its first cell, before a line end. */
  lemma CutHeadDiffers(cells: seq<Cell>, m: nat, first: bool)
    requires cells != [] && m < |RenderCell(cells[0])| && IsEol(RenderCell(cells[0])[m])
    ensures ParseFields(RenderCell(cells[0])[..m], first) != Some(Texts(cells))
  {
    var r := RenderCell(cells[0])[..m];
    FirstFieldRead(r, first);
    match cells[0]
    case Plain(t) =>
      FieldIsShort(r);
      assert Texts(cells)[0] == t;
    case Quoted(t) =>
      var e := Escape(t);
      assert RenderCell(cells[0])[m] == e[m - 1] && r == "\"" + e[..m - 1];
      CutEscape(t, m - 1);
      assert r[1..] == e[..m - 1];
  }

  /** No proper part of a printed row, cut before a line end, is read as the texts of the whole. */
  lemma {:induction false} CutRowDiffers(cells: seq<Cell>, m: nat, first: bool)
    requires cells != [] && m < |RenderCells(cells)| && IsEol(RenderCells(cells)[m])
    ensures ParseFields(RenderCells(cells)[..m], first) != Some(Texts(cells))
  {
    hide ParseFields, RenderCells, RenderCell, NextField;
    RenderSplit(cells);
    var head, row := RenderCell(cells[0]), RenderCells(cells);
    if m < |head| {
      assert row[m] == head[m] && row[..m] == head[..m];
      CutHeadDiffers(cells, m, first);
    } else {
      var tail, k := RenderCells(cells[1..]), m - |head| - 1;
      assert m != |head| && row[m] == tail[k] && row[..m] == head + ("," + tail[..k]);
      if cells[0].Plain? && !IsBare(cells[0].text) {
        HeadDiffers(cells, "," + tail[..k], first);
      } else {
        CutRowDiffers(cells[1..], k, false);
        if ParseFields(row[..m], first) == Some(Texts(cells)) { TailDecides(cells, tail[..k], first); }
      }
    }
  }

  // ---------- the row and more ----------

  lemma LongFieldDiffers(t: string, more: string)
    requires IsBare(t)
    ensures match NextField(t + ("\n" + more))
            case None => true
            case Some(f) => f.text != t && StripBom(f.text) != t
  {
    var s := t + ("\n" + more);
    CommaAtConcat(t, "\n" + more);
    assert CommaAt(t) == |t| && CommaAt("\n" + more) > 0;
    var n := CommaAt(s);
    var text := s[..n];
    assert text == t + "\n" + s[|t| + 1..n];
    assert s[0] == if t == "" then '\n' else t[0];
    NoSeparator();
    CountConcat(t, "\n" + s[|t| + 1..n], '\n');
    CountHead('\n', s[|t| + 1..n], '\n');
    assert t + ("\n" + s[|t| + 1..n]) == text;
    BomNotCounted(text);
  }

  lemma BomNotCounted(s: string)
    ensures Count(StripBom(s), '\n') == Count(s, '\n')
  {
    if HasBom(s) {
      assert s == BOM + s[3..] && '\n' !in BOM;
      NotCounted(BOM, '\n');
      CountConcat(BOM, s[3..], '\n');
    }
  }

  lemma LongLastDiffers(cells: seq<Cell>, more: string, first: bool)
    requires |cells| == 1
    ensures ParseFields(RenderCell(cells[0]) + ("\n" + more), first) != Some(Texts(cells))
  {
    var s := RenderCell(cells[0]) + ("\n" + more);
    FirstFieldRead(s, first);
    assert Texts(cells)[0] == cells[0].text;
    match cells[0]
    case Plain(t) =>
      if IsBare(t) { LongFieldDiffers(t, more); } else { NotBareDiffers(t, "\n" + more); }
    case Quoted(t) =>
      QuotedBodyOfEscape(t, "\n" + more);
      BehindHead("\"", Escape(t), "\"", "\n" + more);
      assert s[1..] == Escape(t) + "\"" + ("\n" + more);
  }

  /** A printed row with a line end and more behind it is not read as the texts of the row. */
  lemma {:induction false} LongRowDiffers(cells: seq<Cell>, more: string, first: bool)
    requires cells != []
    ensures ParseFields(RenderCells(cells) + ("\n" + more), first) != Some(Texts(cells))
  {
    hide ParseFields, RenderCells, RenderCell, NextField;
    RenderSplit(cells);
    var head := RenderCell(cells[0]);
    if |cells| == 1 {
      assert head + "" == head;
      LongLastDiffers(cells, more, first);
    } else {
      var tail := RenderCells(cells[1..]) + ("\n" + more);
      assert RenderCells(cells) + ("\n" + more) == head + ("," + tail);
      if cells[0].Plain? && !IsBare(cells[0].text) {
        HeadDiffers(cells, "," + tail, first);
      } else {
        LongRowDiffers(cells[1..], more, false);
        if ParseFields(head + ("," + tail), first) == Some(Texts(cells)) { TailDecides(cells, tail, first); }
      }
    }
  }

  // ---------- rows and files ----------

  /** A line is read as one record exactly when it is a record text. */
  lemma LineIsRecordIff(row: string, rest: string)
    ensures ReadRecord(row + "\n" + rest) == Record(row, "\n", rest) <==> IsRecordText(row)
  {
    var s := row + "\n" + rest;
    if IsRecordText(row) {
      ReadRecordOf(row, "\n", rest);
    } else if ReadRecord(s).Record? {
      SpanPrefix(s, false);
    }
  }

  /** The row is one record whose fields are the texts of the cells. */
  predicate ExactRow(cells: seq<Cell>) {
    cells != [] && IsRecordText(RenderCells(cells)) && AllBare(cells) && !HasBom(cells[0].text)
  }

  /** A printed row is one record and reads back as its cells' texts: exactly when. */
  lemma RowReadsIff(cells: seq<Cell>, rest: string)
    requires cells != []
    ensures ReadRecord(RenderCells(cells) + "\n" + rest) == Record(RenderCells(cells), "\n", rest)
            && ParseFields(RenderCells(cells)) == Some(Texts(cells))
       <==> ExactRow(cells)
  {
    LineIsRecordIff(RenderCells(cells), rest);
    ParseRenderedIff(cells, true);
  }

  /** When the record at the head of a file that starts with a printed row reads as the row's texts, it is the
      row: neither a part of it nor the row with the next lines. */
  lemma RowReadsOnlyWhole(cells: seq<Cell>, rest: string)
    requires cells != [] && ReadRecord(RenderCells(cells) + "\n" + rest).Record?
    requires ParseFields(ReadRecord(RenderCells(cells) + "\n" + rest).text) == Some(Texts(cells))
    ensures ReadRecord(RenderCells(cells) + "\n" + rest) == Record(RenderCells(cells), "\n", rest)
    ensures ExactRow(cells)
  {
    hide ParseFields, RenderCells;
    var row := RenderCells(cells);
    var s := row + "\n" + rest;
    var n := Span(s, false);
    if n < |row| {
      assert s[..n] == row[..n] && s[n] == row[n];
      CutRowDiffers(cells, n, true);
    } else if n > |row| {
      assert s[..n] == row + ("\n" + s[|row| + 1..n]);
      LongRowDiffers(cells, s[|row| + 1..n], true);
    } else {
      SpanPrefix(s, false);
      assert s[..n] == row;
    }
    RowReadsIff(cells, rest);
    LineIsRecordIff(row, rest);
  }

  function Lines(rows: seq<seq<Cell>>): (lines: seq<string>)
    ensures |lines| == |rows|
  {
    seq(|rows|, k requires 0 <= k < |rows| => RenderCells(rows[k]))
  }

  /** The file is readable to its end, and its records have these fields, in order. */
  ghost predicate ReadsAs(s: string, rows: seq<seq<string>>) {
    && ReadAll(s).Some? && |ReadAll(s).value| == |rows|
    && forall k :: 0 <= k < |rows| ==> ParseFields(ReadAll(s).value[k]) == Some(rows[k])
  }

  function TextRows(rows: seq<seq<Cell>>): (texts: seq<seq<string>>)
    ensures |texts| == |rows|
  {
    seq(|rows|, k requires 0 <= k < |rows| => Texts(rows[k]))
  }

  lemma ReadsAsCons(row: string, rest: string, texts: seq<seq<string>>)
    requires texts != [] && ReadRecord(row + "\n" + rest) == Record(row, "\n", rest)
    ensures ReadsAs(row + "\n" + rest, texts)
       <==> ParseFields(row) == Some(texts[0]) && ReadsAs(rest, texts[1..])
  {
    hide ParseFields, ReadRecord;
    var s := row + "\n" + rest;
    if ReadAll(rest).Some? {
      var records := ReadAll(rest).value;
      assert ReadAll(s) == Some([row] + records);
      assert forall k :: 0 <= k < |records| ==> ([row] + records)[k + 1] == records[k];
      assert forall k :: 0 <= k < |texts[1..]| ==> texts[1..][k] == texts[k + 1];
      if ReadsAs(s, texts) {
        forall k | 0 <= k < |texts[1..]|
          ensures ParseFields(records[k]) == Some(texts[1..][k])
        {
          assert ParseFields(ReadAll(s).value[k + 1]) == Some(texts[k + 1]);
        }
        assert ParseFields(ReadAll(s).value[0]) == Some(texts[0]);
      }
    }
  }

  lemma FirstReadAs(s: string, texts: seq<seq<string>>)
    requires texts != [] && ReadsAs(s, texts)
    ensures ReadRecord(s).Record? && ParseFields(ReadRecord(s).text) == Some(texts[0])
  {
    hide ParseFields;
    assert ParseFields(ReadAll(s).value[0]) == Some(texts[0]);
  }

  /** A printed file is read back, row for row, exactly when each of its rows is. Rows that are not cannot make up
      for one another. */
  lemma {:induction false} FileReadsIff(rows: seq<seq<Cell>>)
    requires forall k :: 0 <= k < |rows| ==> rows[k] != []
    ensures ReadsAs(RenderRecords(Lines(rows)), TextRows(rows)) <==> forall k :: 0 <= k < |rows| ==> ExactRow(rows[k])
  {
    hide ParseFields, ReadRecord, RenderCells, ReadsAs, ExactRow;
    if rows == [] {
      NothingReads();
    } else {
      var row, rest := RenderCells(rows[0]), RenderRecords(Lines(rows[1..]));
      assert Lines(rows)[1..] == Lines(rows[1..]) && TextRows(rows)[1..] == TextRows(rows[1..]);
      assert RenderRecords(Lines(rows)) == row + "\n" + rest;
      FileReadsIff(rows[1..]);
      if ReadsAs(row + "\n" + rest, TextRows(rows)) {
        FirstReadAs(row + "\n" + rest, TextRows(rows));
        RowReadsOnlyWhole(rows[0], rest);
      }
      RowReadsIff(rows[0], rest);
      if ExactRow(rows[0]) { ReadsAsCons(row, rest, TextRows(rows)); }
      assert forall k :: 0 < k < |rows| ==> rows[k] == rows[1..][k - 1];
      assert forall k :: 0 <= k < |rows[1..]| ==> rows[1..][k] == rows[k + 1];
    }
  }

  lemma NothingReads()
    ensures ReadsAs("", [])
  {
  }

  // ---------- every record, printed here or not ----------

  lemma {:induction false} UnquotedFrom(s: string)
    requires QuotedBody(s).Some?
    ensures var f := QuotedBody(s).value;
            s == Escape(f.text) + "\"" + f.rest && (f.rest == [] || f.rest[0] != '"')
    decreases |s|
  {
    var f := QuotedBody(s).value;
    if s[0] == '"' && (|s| == 1 || s[1] != '"') {
      assert Escape(f.text) + "\"" + f.rest == ['"'] + f.rest;
    } else {
      var k := if s[0] != '"' then 1 else 2;
      UnquotedFrom(s[k..]);
      var head := if s[0] == '"' then "\"\"" else [s[0]];
      assert f.text == [s[0]] + QuotedBody(s[k..]).value.text;
      BehindHead(head, Escape(f.text[1..]), "\"", f.rest);
      assert s == head + s[k..];
    }
  }

  function CellAt(s: string): Cell
    requires NextField(s).Some?
  {
    var text := NextField(s).value.text;
    if s != [] && s[0] == '"' then Quoted(text) else Plain(text)
  }

  lemma CellIsAt(s: string)
    requires NextField(s).Some?
    ensures var f, cell := NextField(s).value, CellAt(s);
            s == RenderCell(cell) + f.rest && cell.text == f.text && (cell.Plain? ==> IsBare(cell.text))
  {
    hide QuotedBody;
    var f := NextField(s).value;
    if s != [] && s[0] == '"' {
      UnquotedFrom(s[1..]);
      BehindHead("\"", Escape(f.text), "\"", f.rest);
      assert s == "\"" + s[1..];
    }
  }

  lemma {:induction false} CellsOf(s: string, first: bool) returns (cells: seq<Cell>)
    requires ParseFields(s, first).Some?
    ensures cells != [] && AllBare(cells)
    ensures s == RenderCells(cells) && ParseFields(s, first).value == ReadFields(cells, first)
    decreases |s|
  {
    hide NextField, RenderCell, CellAt, IsBare;
    CellIsAt(s);
    var f, cell := NextField(s).value, CellAt(s);
    cells := [cell];
    if f.rest == [] {
      assert RenderCell(cell) + "" == RenderCell(cell);
    } else {
      var more := CellsOf(f.rest[1..], false);
      TextsTail(more);
      cells := cells + more;
      RenderSplit(cells);
      assert cells[1..] == more && f.rest == "," + f.rest[1..];
    }
  }

  /** The record consists of quoted and of unquoted fields with commas between them. A quoted field doubles its quotes
      and ends at its closing quote; an unquoted one has no comma and does not start with a quote. */
  ghost predicate SpellsFields(s: string, fields: seq<string>) {
    exists cells :: cells != [] && AllBare(cells) && s == RenderCells(cells) && fields == ReadFields(cells, true)
  }

  /** Which records are accepted, and as which fields; all others are refused. */
  lemma FieldsIff(s: string, fields: seq<string>)
    ensures ParseFields(s) == Some(fields) <==> SpellsFields(s, fields)
  {
    if ParseFields(s) == Some(fields) {
      var cells := CellsOf(s, true);
    }
    if SpellsFields(s, fields) {
      var cells :| cells != [] && AllBare(cells) && s == RenderCells(cells) && fields == ReadFields(cells, true);
      ParseRendered(cells, true);
    }
  }
}
