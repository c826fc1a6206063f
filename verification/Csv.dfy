/** The CSV format of src/storage.c as functions on text: records, fields and the printer.
    The loops that compute them are in CsvIo. Quoting follows section 2 of RFC 4180, rules 5 to 7,
    with LF row ends and lenient unquoted fields. */
module Csv {
  import opened SqlTypes

  // ---------- records ----------

  predicate IsEol(c: char) {
    c == '\n' || c == '\r'
  }

  /** The quote state after reading s from the start of a record: every quote byte flips it. */
  predicate InQuotes(s: string) {
    s != [] && (s[0] == '"') != InQuotes(s[1..])
  }

  function Quotes(s: string): nat {
    if s == [] then 0 else (if s[0] == '"' then 1 else 0) + Quotes(s[1..])
  }

  /** How far a record reaches when its scan starts in quote state q. */
  function Span(s: string, q: bool): (n: nat)
    ensures n <= |s|
    ensures n == |s| || IsEol(s[n])
  {
    if s == [] || (!q && IsEol(s[0])) then 0
    else 1 + Span(s[1..], if s[0] == '"' then !q else q)
  }

  function EolLength(s: string): (n: nat)
    requires s == [] || IsEol(s[0])
    ensures n <= |s| && (s != [] ==> n > 0)
  {
    if s == [] then 0
    else if s[0] == '\r' && |s| > 1 && s[1] == '\n' then 2
    else 1
  }

  datatype Scan =
    | EndOfFile
    | Unterminated
    | Record(text: string, eol: string, rest: string)

  /** The next record of a file of which s is still unread. */
  function ReadRecord(s: string): (r: Scan)
    ensures r.Record? ==> s == r.text + r.eol + r.rest && |r.rest| < |s|
  {
    if s == [] then EndOfFile
    else
      var n := Span(s, false);
      var e := n + EolLength(s[n..]);
      if InQuotes(s[..n]) then Unterminated
      else Record(s[..n], s[n..e], s[e..])
  }

  /** All records of a file, or None when the last one ends inside quotes. */
  function ReadAll(s: string): Option<seq<string>>
    decreases |s|
  {
    match ReadRecord(s)
    case EndOfFile => Some([])
    case Unterminated => None
    case Record(text, _, rest) =>
      match ReadAll(rest)
      case None => None
      case Some(records) => Some([text] + records)
  }

  /** The terminators that go with the records of ReadAll. */
  function Terminators(s: string): seq<string>
    decreases |s|
  {
    match ReadRecord(s)
    case Record(_, eol, rest) => [eol] + Terminators(rest)
    case _ => []
  }

  function Interleave(texts: seq<string>, eols: seq<string>): string
    requires |texts| == |eols|
  {
    if texts == [] then "" else texts[0] + eols[0] + Interleave(texts[1..], eols[1..])
  }

  /** Text that the scanner reads as one record, whatever terminator follows. */
  predicate IsRecordText(t: string) {
    Span(t, false) == |t| && !InQuotes(t)
  }

  predicate IsTerminator(e: string) {
    e == "\n" || e == "\r" || e == "\r\n"
  }

  // ---------- fields ----------

  datatype Field = Field(text: string, rest: string)

  /** The contents of a quoted field whose opening quote has been read. */
  function QuotedBody(s: string): (f: Option<Field>)
    ensures f.Some? ==> |f.value.rest| < |s|
    decreases |s|
  {
    if s == [] then None
    else if s[0] != '"' then
      match QuotedBody(s[1..])
      case None => None
      case Some(f) => Some(Field([s[0]] + f.text, f.rest))
    else if |s| > 1 && s[1] == '"' then
      match QuotedBody(s[2..])
      case None => None
      case Some(f) => Some(Field("\"" + f.text, f.rest))
    else Some(Field("", s[1..]))
  }

  function CommaAt(s: string): (n: nat)
    ensures n <= |s| && (n < |s| ==> s[n] == ',') && ',' !in s[..n]
  {
    if s == [] || s[0] == ',' then 0 else 1 + CommaAt(s[1..])
  }

  function NextField(s: string): (f: Option<Field>)
    ensures f.Some? ==> |f.value.rest| <= |s| && (f.value.rest == [] || f.value.rest[0] == ',')
  {
    if s != [] && s[0] == '"' then
      match QuotedBody(s[1..])
      case None => None
      case Some(f) => if f.rest == [] || f.rest[0] == ',' then Some(f) else None
    else
      Some(Field(s[..CommaAt(s)], s[CommaAt(s)..]))
  }

  /** The fields of a record; only the first field of a record loses a byte order mark. */
  function ParseFields(s: string, first: bool := true): (r: Option<seq<string>>)
    ensures r.Some? ==> |r.value| > 0
    decreases |s|
  {
    match NextField(s)
    case None => None
    case Some(f) =>
      var field := if first then StripBom(f.text) else f.text;
      if f.rest == [] then Some([field])
      else
        match ParseFields(f.rest[1..], false)
        case None => None
        case Some(fields) => Some([field] + fields)
  }

  // ---------- printer ----------

  function Escape(s: string): string {
    if s == [] then [] else (if s[0] == '"' then "\"\"" else [s[0]]) + Escape(s[1..])
  }

  /** What is written for one column: a quoted string, or bytes written as they are. */
  datatype Cell = Quoted(text: string) | Plain(text: string)

  function RenderCell(c: Cell): string {
    match c
    case Quoted(t) => "\"" + Escape(t) + "\""
    case Plain(t) => t
  }

  function RenderCells(cells: seq<Cell>): string {
    if cells == [] then ""
    else if |cells| == 1 then RenderCell(cells[0])
    else RenderCell(cells[0]) + "," + RenderCells(cells[1..])
  }

  function Texts(cells: seq<Cell>): seq<string> {
    seq(|cells|, i requires 0 <= i < |cells| => cells[i].text)
  }

  /** Bytes that survive being written without quotes. */
  predicate IsPlain(t: string) {
    forall i :: 0 <= i < |t| ==> t[i] != ',' && t[i] != '"' && !IsEol(t[i])
  }

  /** Bytes that the field parser takes as one unquoted field. */
  predicate IsBare(t: string) {
    ',' !in t && (t == "" || t[0] != '"')
  }

  predicate AllBare(cells: seq<Cell>) {
    forall i :: 0 <= i < |cells| ==> cells[i].Plain? ==> IsBare(cells[i].text)
  }

  predicate Printable(cells: seq<Cell>) {
    forall i :: 0 <= i < |cells| ==> cells[i].Plain? ==> IsPlain(cells[i].text)
  }

  function RenderRecords(records: seq<string>): string {
    if records == [] then "" else records[0] + "\n" + RenderRecords(records[1..])
  }

  // ---------- the scanner against its parity specification ----------

  lemma {:induction false} InQuotesIsParity(s: string)
    ensures InQuotes(s) <==> Quotes(s) % 2 == 1
  {
    if s != [] {
      InQuotesIsParity(s[1..]);
    }
  }

  lemma {:induction false} InQuotesConcat(a: string, b: string)
    ensures InQuotes(a + b) <==> InQuotes(a) != InQuotes(b)
  {
    if a == [] {
      assert a + b == b;
    } else {
      assert (a + b)[1..] == a[1..] + b;
      InQuotesConcat(a[1..], b);
    }
  }

  /** A record ends at the first CR or LF that is not inside quotes. */
  lemma {:induction false} SpanIsFirstUnquotedEol(s: string, q: bool)
    ensures var n := Span(s, q);
            && (n < |s| ==> InQuotes(s[..n]) == q)
            && (forall i :: 0 <= i < n && IsEol(s[i]) ==> InQuotes(s[..i]) != q)
  {
    if s != [] && (q || !IsEol(s[0])) {
      var q' := if s[0] == '"' then !q else q;
      SpanIsFirstUnquotedEol(s[1..], q');
      forall i | 0 < i <= |s|
        ensures InQuotes(s[..i]) <==> (s[0] == '"') != InQuotes(s[1..][..i - 1])
      {
        assert s[..i][1..] == s[1..][..i - 1];
      }
      forall i | 0 < i < Span(s, q) && IsEol(s[i])
        ensures InQuotes(s[..i]) != q
      {
        assert s[1..][i - 1] == s[i];
      }
    }
  }

  /** The doubled-quote look-ahead of the scanner never moves a record boundary: a record ends at the
      first CR or LF that has an even number of quotes before it, and only there. */
  lemma ScannerParity(s: string)
    requires s != []
    ensures match ReadRecord(s)
            case EndOfFile => false
            case Unterminated =>
              InQuotes(s) && forall i :: 0 <= i < |s| && IsEol(s[i]) ==> InQuotes(s[..i])
            case Record(text, eol, rest) =>
              && !InQuotes(text)
              && (forall i :: 0 <= i < |text| && IsEol(s[i]) ==> InQuotes(s[..i]))
              && ((eol == "" && rest == "" && text != "") || IsTerminator(eol))
              && (eol == "\r" ==> rest == [] || rest[0] != '\n')
  {
    SpanIsFirstUnquotedEol(s, false);
    if ReadRecord(s).Record? {
      RecordTail(s);
    } else {
      assert s[..|s|] == s;
    }
  }

  lemma RecordTail(s: string)
    requires s != [] && ReadRecord(s).Record?
    ensures var r := ReadRecord(s);
            && ((r.eol == "" && r.rest == "" && r.text != "") || IsTerminator(r.eol))
            && (r.eol == "\r" ==> r.rest == [] || r.rest[0] != '\n')
  {
    var n := Span(s, false);
    var tail := s[n..];
    var e := EolLength(tail);
    assert s[n..n + e] == tail[..e] && s[n + e..] == tail[e..];
    if tail != [] {
      TerminatorShape(tail);
    }
  }

  lemma TerminatorShape(tail: string)
    requires tail != [] && IsEol(tail[0])
    ensures var n := EolLength(tail);
            && IsTerminator(tail[..n])
            && (tail[..n] == "\r" ==> tail[n..] == [] || tail[n..][0] != '\n')
  {
    if EolLength(tail) == 2 {
      assert tail[..2] == "\r\n";
    } else {
      assert tail[..1] == [tail[0]];
    }
  }

  lemma {:induction false} SpanConcat(a: string, b: string, q: bool)
    requires Span(a, q) == |a|
    ensures Span(a + b, q) == |a| + Span(b, q != InQuotes(a))
  {
    if a == [] {
      assert a + b == b;
    } else {
      assert (a + b)[1..] == a[1..] + b;
      SpanConcat(a[1..], b, if a[0] == '"' then !q else q);
    }
  }

  lemma RecordTextConcat(a: string, b: string)
    requires IsRecordText(a) && IsRecordText(b)
    ensures IsRecordText(a + b)
  {
    SpanConcat(a, b, false);
    InQuotesConcat(a, b);
  }

  /** The text of a record that was read is again the text of a record. */
  lemma {:induction false} SpanPrefix(s: string, q: bool)
    ensures Span(s[..Span(s, q)], q) == Span(s, q)
  {
    var n := Span(s, q);
    if n > 0 {
      SpanPrefix(s[1..], if s[0] == '"' then !q else q);
      assert s[..n][1..] == s[1..][..n - 1];
    }
  }

  /** What a file made of a record text, its terminator and more bytes reads as. */
  lemma ReadRecordOf(t: string, e: string, x: string)
    requires IsRecordText(t)
    requires IsTerminator(e) || (e == "" && x == "" && t != "")
    requires e == "\r" ==> x == "" || x[0] != '\n'
    ensures ReadRecord(t + e + x) == Record(t, e, x)
  {
    var s := t + e + x;
    Associative(t, e, x);
    SpanConcat(t, e + x, false);
    Split(t, e + x);
    EolOf(e, x);
    Split(e, x);
    assert s[|t|..|t| + |e|] == s[|t|..][..|e|] && s[|t| + |e|..] == s[|t|..][|e|..];
  }

  lemma EolOf(e: string, x: string)
    requires IsTerminator(e) || (e == "" && x == "")
    requires e == "\r" ==> x == "" || x[0] != '\n'
    ensures (e + x == [] || IsEol((e + x)[0])) && EolLength(e + x) == |e|
    ensures Span(e + x, false) == 0
  {
  }

  lemma ReadAllOf(t: string, e: string, x: string)
    requires IsRecordText(t)
    requires IsTerminator(e) || (e == "" && x == "" && t != "")
    requires e == "\r" ==> x == "" || x[0] != '\n'
    ensures ReadAll(t + e + x).Some? <==> ReadAll(x).Some?
    ensures ReadAll(x).Some? ==> ReadAll(t + e + x) == Some([t] + ReadAll(x).value)
  {
    ReadRecordOf(t, e, x);
  }

  lemma TerminatorKeepsQuotes(e: string)
    requires e == "" || IsTerminator(e)
    ensures !InQuotes(e)
  {
    assert e == "\r\n" ==> e[1..] == "\n";
  }

  /** A file is readable to its end exactly when its quotes pair up. */
  lemma {:induction false} ReadableIffQuotesPair(s: string)
    ensures ReadAll(s).Some? <==> !InQuotes(s)
    decreases |s|
  {
    match ReadRecord(s)
    case EndOfFile =>
    case Unterminated => ScannerParity(s);
    case Record(text, eol, rest) =>
      ScannerParity(s);
      ReadableIffQuotesPair(rest);
      InQuotesConcat(text + eol, rest);
      InQuotesConcat(text, eol);
      TerminatorKeepsQuotes(eol);
  }

  /** Scanning loses nothing: the file is its records and their terminators, in order. */
  lemma {:induction false} ScanLossless(s: string)
    requires ReadAll(s).Some?
    ensures |Terminators(s)| == |ReadAll(s).value|
    ensures Interleave(ReadAll(s).value, Terminators(s)) == s
    ensures forall i :: 0 <= i < |ReadAll(s).value| ==> IsRecordText(ReadAll(s).value[i])
    decreases |s|
  {
    match ReadRecord(s)
    case EndOfFile =>
    case Record(text, eol, rest) =>
      ScanLossless(rest);
      SpanPrefix(s, false);
      var records, eols := ReadAll(s).value, Terminators(s);
      assert records[1..] == ReadAll(rest).value && eols[1..] == Terminators(rest);
  }

  lemma {:induction false} ReadRendered(records: seq<string>)
    requires forall i :: 0 <= i < |records| ==> IsRecordText(records[i])
    ensures ReadAll(RenderRecords(records)) == Some(records)
  {
    if records != [] {
      ReadRendered(records[1..]);
      ReadAllOf(records[0], "\n", RenderRecords(records[1..]));
      assert records == [records[0]] + records[1..];
    }
  }

  // ---------- printed rows are read back ----------

  lemma EscapedChar(c: char)
    ensures var e := if c == '"' then "\"\"" else [c];
            Span(e, true) == |e| && !InQuotes(e)
  {
    if c == '"' {
      assert "\"\""[1..] == "\"";
      assert InQuotes("\"");
      assert Span("\"", false) == 1;
    } else {
      assert [c][1..] == [];
    }
  }

  lemma {:induction false} EscapeScan(t: string)
    ensures Span(Escape(t), true) == |Escape(t)| && !InQuotes(Escape(t))
  {
    if t != [] {
      EscapeScan(t[1..]);
      var head := if t[0] == '"' then "\"\"" else [t[0]];
      EscapedChar(t[0]);
      SpanConcat(head, Escape(t[1..]), true);
      InQuotesConcat(head, Escape(t[1..]));
    }
  }

  lemma {:induction false} PlainScan(t: string)
    requires IsPlain(t)
    ensures IsRecordText(t)
  {
    if t != [] {
      PlainScan(t[1..]);
    }
  }

  lemma CellIsRecordText(c: Cell)
    requires c.Plain? ==> IsPlain(c.text)
    ensures IsRecordText(RenderCell(c))
  {
    match c
    case Plain(t) => PlainScan(t);
    case Quoted(t) =>
      EscapeScan(t);
      var e := Escape(t);
      assert InQuotes("\"") && Span("\"", false) == 1 && Span("\"", true) == 1;
      SpanConcat("\"", e, false);
      InQuotesConcat("\"", e);
      SpanConcat("\"" + e, "\"", false);
      InQuotesConcat("\"" + e, "\"");
  }

  lemma {:induction false} RowIsRecordText(cells: seq<Cell>)
    requires Printable(cells)
    ensures IsRecordText(RenderCells(cells))
  {
    if cells != [] {
      CellIsRecordText(cells[0]);
      if |cells| > 1 {
        RowIsRecordText(cells[1..]);
        assert IsRecordText(",");
        RecordTextConcat(RenderCell(cells[0]), ",");
        RecordTextConcat(RenderCell(cells[0]) + ",", RenderCells(cells[1..]));
      }
    }
  }

  lemma BehindHead(a: string, b: string, c: string, d: string)
    ensures a + b + c + d == a + (b + c + d)
  {
  }

  lemma QuotedBodyChar(c: char, tail: string)
    requires c != '"'
    ensures QuotedBody([c] + tail) ==
            match QuotedBody(tail)
            case None => None
            case Some(f) => Some(Field([c] + f.text, f.rest))
  {
    Split([c], tail);
  }

  lemma QuotedBodyDoubled(tail: string)
    ensures QuotedBody("\"\"" + tail) ==
            match QuotedBody(tail)
            case None => None
            case Some(f) => Some(Field("\"" + f.text, f.rest))
  {
    Split("\"\"", tail);
  }

  lemma {:induction false} QuotedBodyOfEscape(t: string, rest: string)
    requires rest == [] || rest[0] != '"'
    ensures QuotedBody(Escape(t) + "\"" + rest) == Some(Field(t, rest))
  {
    if t == [] {
      assert Escape(t) + "\"" + rest == "\"" + rest;
      Split("\"", rest);
    } else {
      QuotedBodyOfEscape(t[1..], rest);
      var tail := Escape(t[1..]) + "\"" + rest;
      BehindHead(if t[0] == '"' then "\"\"" else [t[0]], Escape(t[1..]), "\"", rest);
      assert t == [t[0]] + t[1..];
      if t[0] == '"' {
        QuotedBodyDoubled(tail);
      } else {
        QuotedBodyChar(t[0], tail);
      }
    }
  }

  lemma {:induction false} CommaAtConcat(a: string, b: string)
    ensures CommaAt(a + b) == if CommaAt(a) < |a| then CommaAt(a) else |a| + CommaAt(b)
  {
    if a == [] {
      assert a + b == b;
    } else {
      assert (a + b)[1..] == a[1..] + b;
      CommaAtConcat(a[1..], b);
    }
  }

  lemma CommaAfter(t: string, rest: string)
    requires ',' !in t && (rest == [] || rest[0] == ',')
    ensures CommaAt(t + rest) == |t|
  {
    CommaAtConcat(t, rest);
  }

  lemma NextQuotedField(t: string, rest: string)
    requires rest == [] || rest[0] == ','
    ensures NextField("\"" + Escape(t) + "\"" + rest) == Some(Field(t, rest))
  {
    QuotedBodyOfEscape(t, rest);
    BehindHead("\"", Escape(t), "\"", rest);
    Split("\"", Escape(t) + "\"" + rest);
  }

  lemma NextPlainField(t: string, rest: string)
    requires IsBare(t) && (rest == [] || rest[0] == ',')
    ensures NextField(t + rest) == Some(Field(t, rest))
  {
    CommaAfter(t, rest);
    assert t != [] ==> (t + rest)[0] == t[0];
    assert (t + rest)[..|t|] == t && (t + rest)[|t|..] == rest;
  }

  lemma NextFieldOfCell(c: Cell, rest: string)
    requires c.Plain? ==> IsBare(c.text)
    requires rest == [] || rest[0] == ','
    ensures NextField(RenderCell(c) + rest) == Some(Field(c.text, rest))
  {
    match c
    case Quoted(t) => NextQuotedField(t, rest);
    case Plain(t) => NextPlainField(t, rest);
  }

  /** The fields that a printed row reads as. */
  function ReadFields(cells: seq<Cell>, first: bool): seq<string>
    requires cells != []
  {
    [if first then StripBom(cells[0].text) else cells[0].text] + Texts(cells[1..])
  }

  lemma ParseOne(s: string, text: string, first: bool)
    requires NextField(s) == Some(Field(text, ""))
    ensures ParseFields(s, first) == Some([if first then StripBom(text) else text])
  {
  }

  lemma ParseNext(s: string, text: string, tail: string, first: bool)
    requires NextField(s) == Some(Field(text, "," + tail))
    ensures ParseFields(s, first) ==
            match ParseFields(tail, false)
            case None => None
            case Some(fields) => Some([if first then StripBom(text) else text] + fields)
  {
    assert ("," + tail)[1..] == tail;
  }

  lemma TextsTail(cells: seq<Cell>)
    requires cells != []
    ensures ReadFields(cells, false) == Texts(cells)
  {
  }

  lemma {:induction false} ParseRendered(cells: seq<Cell>, first: bool)
    requires cells != [] && AllBare(cells)
    ensures ParseFields(RenderCells(cells), first) == Some(ReadFields(cells, first))
  {
    if |cells| == 1 {
      NextFieldOfCell(cells[0], "");
      assert RenderCells(cells) == RenderCell(cells[0]) + "";
      ParseOne(RenderCells(cells), cells[0].text, first);
      assert ReadFields(cells, first) == [ReadFields(cells, first)[0]];
    } else {
      var tail := RenderCells(cells[1..]);
      NextFieldOfCell(cells[0], "," + tail);
      assert RenderCells(cells) == RenderCell(cells[0]) + ("," + tail);
      ParseRendered(cells[1..], false);
      TextsTail(cells[1..]);
      ParseNext(RenderCells(cells), cells[0].text, tail, first);
    }
  }

  lemma ReadsBackIffNoBom(cells: seq<Cell>)
    requires cells != []
    ensures ReadFields(cells, true) == Texts(cells) <==> !HasBom(cells[0].text)
  {
    TextsTail(cells);
    var t := cells[0].text;
    assert ReadFields(cells, true)[0] == StripBom(t) && Texts(cells)[0] == t;
    if HasBom(t) { assert |StripBom(t)| < |t|; }
  }

  lemma PrintableIsBare(cells: seq<Cell>)
    requires Printable(cells)
    ensures AllBare(cells)
  {
    forall i | 0 <= i < |cells| && cells[i].Plain?
      ensures IsBare(cells[i].text)
    {
      assert IsPlain(cells[i].text);
    }
  }

  /** A printed row is one record, and its fields come back unchanged exactly when the first of them
      has no byte order mark. */
  lemma RowRoundTrip(cells: seq<Cell>, rest: string)
    requires cells != [] && Printable(cells)
    ensures ReadRecord(RenderCells(cells) + "\n" + rest) == Record(RenderCells(cells), "\n", rest)
    ensures ParseFields(RenderCells(cells)).Some?
    ensures ParseFields(RenderCells(cells)) == Some(Texts(cells)) <==> !HasBom(cells[0].text)
  {
    RowIsRecordText(cells);
    ReadRecordOf(RenderCells(cells), "\n", rest);
    PrintableIsBare(cells);
    ParseRendered(cells, true);
    ReadsBackIffNoBom(cells);
  }
}
