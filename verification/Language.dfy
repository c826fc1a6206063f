/** The language that the parser accepts, stated without a parser: the tokens of a script, each spelled in one
    of its ways, with white space between them. */
module Language {
  import opened SqlTypes
  import opened Decimal
  import opened Grammar
  import opened ParseTheorems
  import opened RoundTrip

  // ---------- characters ----------

  const SPACES: string := [' ', '\t', '\n', '\U{0B}', '\U{0C}', '\r']
  const LOWER := "abcdefghijklmnopqrstuvwxyz"
  const UPPER := "ABCDEFGHIJKLMNOPQRSTUVWXYZ"
  const MARKS := ".,()*;"

  predicate InWord(c: char) {
    c in LOWER || c in UPPER || c == '_' || c in DIGITS
  }

  predicate IsWord(x: string) {
    x != "" && x[0] !in DIGITS && forall i :: 0 <= i < |x| ==> InWord(x[i])
  }

  predicate AllSpaces(w: string) {
    forall i :: 0 <= i < |w| ==> w[i] in SPACES
  }

  lemma SpaceChar(c: char)
    ensures IsSpace(c) <==> c in SPACES
  {
    assert SPACES[0] == ' ' && SPACES[1] == '\t' && SPACES[2] == '\n';
    assert SPACES[3] == '\U{0B}' && SPACES[4] == '\U{0C}' && SPACES[5] == '\r';
  }

  lemma LowerChar(c: char)
    ensures 'a' <= c <= 'z' <==> c in LOWER
  {
    assert |LOWER| == 26 && forall k :: 0 <= k < 26 ==> LOWER[k] as int == 'a' as int + k;
    if 'a' <= c <= 'z' { assert LOWER[c as int - 'a' as int] == c; }
  }

  lemma UpperChar(c: char)
    ensures 'A' <= c <= 'Z' <==> c in UPPER
  {
    assert |UPPER| == 26 && forall k :: 0 <= k < 26 ==> UPPER[k] as int == 'A' as int + k;
    if 'A' <= c <= 'Z' { assert UPPER[c as int - 'A' as int] == c; }
  }

  lemma WordChar(c: char)
    ensures IsIdentChar(c) <==> InWord(c)
    ensures IsIdentStart(c) <==> InWord(c) && c !in DIGITS
  {
    LowerChar(c);
    UpperChar(c);
    DigitPlace(c);
  }

  /** Identifiers are words of letters, digits and underscores that do not begin with a digit. */
  lemma IdentifierIsWord(x: string)
    ensures IsIdentifier(x) <==> IsWord(x)
  {
    if x != "" { WordChar(x[0]); }
    forall i | 0 <= i < |x|
      ensures IsIdentChar(x[i]) <==> InWord(x[i])
    {
      WordChar(x[i]);
    }
  }

  lemma MarkChar(c: char)
    requires c in MARKS
    ensures !IsSpace(c) && !IsIdentChar(c) && !IsSign(c) && c != '\''
    ensures c == '.' || c == ',' || c == '(' || c == ')' || c == '*' || c == ';'
  {
    assert MARKS == ['.', ',', '(', ')', '*', ';'];
  }

  // ---------- tokens ----------

  datatype Token = Word(keyword: string) | Name(name: string) | Val(v: SqlValue) | Mark(c: char)

  predicate IsKeyword(k: string) {
    k == "INSERT" || k == "INTO" || k == "VALUES" || k == "SELECT" || k == "FROM"
  }

  /** An optional sign and digits that stand for n. */
  ghost predicate SpellsInteger(t: string, n: int) {
    exists sign, d :: IsSignText(sign) && d != "" && OnlyDigits(d) && t == sign + d && n == SignedNumber(sign, d)
  }

  /** A keyword may be spelled in any mixture of cases and an integer with any sign and zeros; a string has its
      quotes doubled; everything else is spelled as it is. */
  ghost predicate Spells(t: string, tok: Token) {
    match tok
    case Word(k) => IsKeyword(k) && |t| == |k| && forall i :: 0 <= i < |k| ==> SameLetter(t[i], k[i])
    case Name(x) => t == x && IsWord(x)
    case Val(IntValue(n)) => SpellsInteger(t, n)
    case Val(StringValue(x)) => t == "'" + EscapeQuotes(x) + "'"
    case Mark(c) => t == [c] && c in MARKS
  }

  /** What may stand directly behind a token. */
  predicate Ends(tok: Token, rest: string) {
    rest == "" ||
    match tok
    case Word(_) => !InWord(rest[0])
    case Name(_) => !InWord(rest[0])
    case Val(IntValue(_)) => rest[0] !in DIGITS
    case Val(StringValue(_)) => rest[0] != '\''
    case Mark(_) => true
  }

  ghost predicate Parts(s: string, tok: Token, rest: string, w: string, t: string) {
    s == w + (t + rest) && AllSpaces(w) && Spells(t, tok) && Ends(tok, rest)
  }

  /** s is white space, a spelling of the token, and rest. */
  ghost predicate Reads(s: string, tok: Token, rest: string) {
    exists w, t :: Parts(s, tok, rest, w, t)
  }

  /** s is these tokens, each spelled in one of its ways, with white space around them. */
  ghost predicate IsLayout(s: string, toks: seq<Token>)
    decreases |toks|
  {
    if toks == [] then AllSpaces(s) else exists rest :: Reads(s, toks[0], rest) && IsLayout(rest, toks[1..])
  }

  // ---------- white space ----------

  lemma {:induction false} SkipSplits(s: string)
    ensures exists w :: AllSpaces(w) && s == w + SkipSpace(s)
  {
    if s != "" && IsSpace(s[0]) {
      SkipSplits(s[1..]);
      var w :| AllSpaces(w) && s[1..] == w + SkipSpace(s[1..]);
      SpaceChar(s[0]);
      Associative([s[0]], w, SkipSpace(s));
      assert s == [s[0]] + s[1..];
      assert AllSpaces([s[0]] + w);
    } else {
      assert AllSpaces("") && s == "" + SkipSpace(s);
    }
  }

  lemma {:induction false} SpacesSkipped(w: string, u: string)
    requires AllSpaces(w)
    ensures SkipSpace(w + u) == SkipSpace(u)
  {
    if w == "" {
      assert w + u == u;
    } else {
      SpaceChar(w[0]);
      assert (w + u)[1..] == w[1..] + u;
      SpacesSkipped(w[1..], u);
    }
  }

  lemma AllSpacesIff(s: string)
    ensures AllSpaces(s) <==> SkipSpace(s) == ""
  {
    if AllSpaces(s) {
      SpacesSkipped(s, "");
      assert s + "" == s;
    } else {
      SkipSplits(s);
      var w :| AllSpaces(w) && s == w + SkipSpace(s);
      assert SkipSpace(s) == "" ==> s == w;
    }
  }

  /** The head of a spelled token: no white space, and a mark only if the token is that mark. */
  lemma SpelledHead(t: string, tok: Token)
    requires Spells(t, tok)
    ensures t != "" && !IsSpace(t[0])
    ensures forall c :: c in MARKS ==> (t[0] == c <==> tok == Mark(c))
  {
    match tok
    case Word(k) =>
      assert SameLetter(t[0], k[0]);
      LetterIsNoMark(t[0]);
    case Name(x) =>
      WordChar(x[0]);
      LetterIsNoMark(t[0]);
    case Val(IntValue(n)) =>
      var sign, d :| IsSignText(sign) && d != "" && OnlyDigits(d) && t == sign + d && n == SignedNumber(sign, d);
      DigitPlace(d[0]);
      LetterIsNoMark(t[0]);
    case Val(StringValue(_)) =>
      LetterIsNoMark(t[0]);
    case Mark(c) =>
      MarkChar(c);
  }

  lemma LetterIsNoMark(h: char)
    ensures IsIdentChar(h) || IsSign(h) || h == '\'' ==> h !in MARKS
  {
    if h in MARKS { MarkChar(h); }
  }

  lemma ReadsSkips(s: string, tok: Token, rest: string)
    ensures Reads(s, tok, rest) <==> exists t :: SkipSpace(s) == t + rest && Spells(t, tok) && Ends(tok, rest)
  {
    if Reads(s, tok, rest) {
      var w, t :| Parts(s, tok, rest, w, t);
      SpelledHead(t, tok);
      SpacesSkipped(w, t + rest);
    }
    if exists t :: SkipSpace(s) == t + rest && Spells(t, tok) && Ends(tok, rest) {
      var t :| SkipSpace(s) == t + rest && Spells(t, tok) && Ends(tok, rest);
      SkipSplits(s);
      var w :| AllSpaces(w) && s == w + SkipSpace(s);
      assert Parts(s, tok, rest, w, t);
    }
  }

  lemma SkipTwiceIs(s: string)
    ensures SkipSpace(SkipSpace(s)) == SkipSpace(s)
  {
  }

  /** White space in front does not matter. */
  lemma SkipIn(s: string, toks: seq<Token>)
    ensures IsLayout(SkipSpace(s), toks) <==> IsLayout(s, toks)
  {
    SkipTwiceIs(s);
    if toks == [] {
      AllSpacesIff(s);
      AllSpacesIff(SkipSpace(s));
    } else {
      forall rest
        ensures Reads(s, toks[0], rest) <==> Reads(SkipSpace(s), toks[0], rest)
      {
        ReadsSkips(s, toks[0], rest);
        ReadsSkips(SkipSpace(s), toks[0], rest);
      }
    }
  }

  // ---------- each token and the function that reads it ----------

  lemma WordReads(s: string, k: string, rest: string)
    requires IsKeyword(k)
    ensures Keyword(s, k) == Match((), rest) <==> Reads(s, Word(k), rest)
  {
    ReadsSkips(s, Word(k), rest);
    var u := SkipSpace(s);
    if Keyword(s, k) == Match((), rest) {
      var t := u[..|k|];
      assert u == t + rest;
      forall i | 0 <= i < |k|
        ensures SameLetter(t[i], k[i])
      {
        LowerMeansSameLetter(u[i], k[i]);
      }
      if rest != "" { WordChar(rest[0]); }
      assert Spells(t, Word(k)) && Ends(Word(k), rest);
    }
    if Reads(s, Word(k), rest) {
      var t :| u == t + rest && Spells(t, Word(k)) && Ends(Word(k), rest);
      forall i | 0 <= i < |k|
        ensures ToLower(u[i]) == ToLower(k[i])
      {
        LowerMeansSameLetter(t[i], k[i]);
      }
      if rest != "" { WordChar(rest[0]); }
      assert u[|k|..] == rest;
    }
  }

  lemma NameReads(s: string, x: string, rest: string)
    ensures Identifier(s) == Match(x, rest) <==> Reads(s, Name(x), rest)
  {
    hide InWord, AllSpaces;
    ReadsSkips(s, Name(x), rest);
    var u := SkipSpace(s);
    IdentifierIsWord(x);
    if rest != "" { WordChar(rest[0]); }
    if Identifier(s) == Match(x, rest) {
      assert u == x + rest && Spells(x, Name(x)) && Ends(Name(x), rest);
    }
    if Reads(s, Name(x), rest) {
      var t :| u == t + rest && Spells(t, Name(x)) && Ends(Name(x), rest);
      IdentLengthPrinted(x, rest);
      Split(x, rest);
    }
  }

  lemma EscapeMore(c: char, text: string)
    ensures EscapeQuotes([c] + text) == (if c == '\'' then "''" else [c]) + EscapeQuotes(text)
    ensures EscapeQuotes("") == ""
  {
    assert ([c] + text)[1..] == text;
  }

  /** A string literal ends at the first quote that is not doubled. */
  lemma {:induction false} StringBodyIs(s: string, x: string, rest: string)
    requires StringBody(s) == Match(x, rest)
    ensures s == EscapeQuotes(x) + ("'" + rest) && (rest == "" || rest[0] != '\'')
    decreases |s|
  {
    hide EscapeQuotes;
    if s[0] == '\'' && (|s| == 1 || s[1] != '\'') {
      EscapeMore(s[0], "");
      assert s == "" + ("'" + rest);
    } else {
      var k, head := if s[0] == '\'' then 2 else 1, if s[0] == '\'' then "''" else [s[0]];
      var text := StringBody(s[k..]).value;
      StringBodyIs(s[k..], text, rest);
      EscapeMore(s[0], text);
      Associative(head, EscapeQuotes(text), "'" + rest);
      assert s == head + s[k..];
    }
  }

  lemma IntegerLiteralKind(u: string)
    ensures IntegerLiteral(u).Match? ==> IntegerLiteral(u).value.IntValue?
  {
  }

  lemma StringReads(s: string, x: string, rest: string)
    ensures Literal(s) == Match(StringValue(x), rest) <==> Reads(s, Val(StringValue(x)), rest)
  {
    hide EscapeQuotes, StringBody, IntegerLiteral, SkipSpace, Reads;
    var tok := Val(StringValue(x));
    ReadsSkips(s, tok, rest);
    var u := SkipSpace(s);
    IntegerLiteralKind(u);
    if Literal(s) == Match(StringValue(x), rest) {
      StringBodyIs(u[1..], x, rest);
      var t := "'" + EscapeQuotes(x) + "'";
      assert u == "'" + u[1..] && u == t + rest && Spells(t, tok) && Ends(tok, rest);
    }
    if Reads(s, tok, rest) {
      var t :| u == t + rest && Spells(t, tok) && Ends(tok, rest);
      assert u[1..] == EscapeQuotes(x) + ("'" + rest);
      StringBodyPrinted(x, rest);
    }
  }

  /** The integer parser takes a sign and all digits behind it, and gives the number that is written or, exactly
      when that is no 64-bit integer, an error at the beginning of the literal. */
  lemma IntegerLiteralIsExact(sign: string, d: string, rest: string)
    requires IsSignText(sign) && d != "" && OnlyDigits(d) && (rest == "" || rest[0] !in DIGITS)
    ensures IntegerLiteral(sign + d + rest) ==
            if INT64_MIN <= SignedNumber(sign, d) <= INT64_MAX then Match(IntValue(SignedNumber(sign, d)), rest)
            else Fail(Lex, sign + d + rest)
  {
    hide IntegerLength, Strtoll, SignedNumber, OnlyDigits;
    var s := sign + d + rest;
    LengthOfInteger(sign, d, rest);
    StrtollIsExact(sign, d);
    Split(sign + d, rest);
  }

  lemma LengthOfInteger(sign: string, d: string, rest: string)
    requires IsSignText(sign) && d != "" && OnlyDigits(d) && (rest == "" || rest[0] !in DIGITS)
    ensures IntegerLength(sign + d + rest) == |sign + d|
  {
    hide DigitLength, OnlyDigits, AllDigits;
    var s := sign + d + rest;
    OnlyDigitsAre(d);
    FirstIsDigit(d);
    if rest != "" { DigitPlace(rest[0]); }
    DigitLengthPrinted(d, rest);
    assert s[|sign|..] == d + rest;
    assert s[0] == if sign == "" then d[0] else sign[0];
    assert SignLength(s) == |sign|;
  }

  lemma FirstIsDigit(d: string)
    requires d != "" && OnlyDigits(d)
    ensures IsDigit(d[0]) && !IsSign(d[0])
  {
    DigitPlace(d[0]);
  }

  /** A plus sign changes nothing, and neither do zeros in front. */
  lemma PlusAndZeros(d: string, rest: string)
    requires d != "" && OnlyDigits(d) && (rest == "" || rest[0] !in DIGITS)
    ensures match IntegerLiteral(d + rest)
            case Fail(_, _) => IntegerLiteral("+" + d + rest).Fail? && IntegerLiteral("0" + d + rest).Fail?
            case Match(v, _) =>
              IntegerLiteral("+" + d + rest) == Match(v, rest) && IntegerLiteral("0" + d + rest) == Match(v, rest)
  {
    hide IntegerLiteral, Number;
    IntegerLiteralIsExact("", d, rest);
    IntegerLiteralIsExact("+", d, rest);
    LeadingZero(d);
    IntegerLiteralIsExact("", "0" + d, rest);
    assert "" + d + rest == d + rest && "" + ("0" + d) + rest == "0" + d + rest;
  }

  /** What the integer parser takes is a sign and all digits behind it. */
  lemma IntegerShape(u: string)
    requires IntegerLength(u) > 0
    ensures var k, m := SignLength(u), IntegerLength(u);
            && k < m <= |u| && IsSignText(u[..k]) && OnlyDigits(u[k..m]) && (m == |u| || u[m] !in DIGITS)
            && u == u[..k] + u[k..m] + u[m..]
  {
    hide DigitLength, AllDigits, OnlyDigits, IsIntegerText;
    var k, m := SignLength(u), IntegerLength(u);
    OnlyDigitsAre(u[k..m]);
    assert u[k..][..m - k] == u[k..m];
    if m < |u| {
      DigitPlace(u[m]);
      assert u[m] == u[k..][m - k];
    }
  }

  lemma IntegerIs(u: string, n: Int64, rest: string)
    requires IntegerLiteral(u) == Match(IntValue(n), rest)
    ensures exists t :: u == t + rest && SpellsInteger(t, n)
    ensures rest == "" || rest[0] !in DIGITS
  {
    hide SignedNumber, IntegerLength, OnlyDigits, IsSignText, Strtoll;
    IntegerShape(u);
    var k, m := SignLength(u), IntegerLength(u);
    assert rest == u[m..];
    hide IntegerLiteral;
    IntegerLiteralIsExact(u[..k], u[k..m], rest);
    assert SpellsInteger(u[..k] + u[k..m], n);
  }

  lemma IntegerReads(s: string, n: Int64, rest: string)
    ensures Literal(s) == Match(IntValue(n), rest) <==> Reads(s, Val(IntValue(n)), rest)
  {
    hide IntegerLiteral, SkipSpace, SpellsInteger, Reads;
    var tok := Val(IntValue(n));
    ReadsSkips(s, tok, rest);
    var u := SkipSpace(s);
    if Literal(s) == Match(IntValue(n), rest) {
      IntegerIs(u, n, rest);
      var t :| u == t + rest && SpellsInteger(t, n);
      assert Spells(t, tok) && Ends(tok, rest);
    }
    if Reads(s, tok, rest) {
      var t :| u == t + rest && Spells(t, tok) && Ends(tok, rest);
      IntegerIsRead(t, n, rest);
    }
  }

  lemma IntegerIsRead(t: string, n: Int64, rest: string)
    requires SpellsInteger(t, n) && (rest == "" || rest[0] !in DIGITS)
    ensures t != "" && (IsSign(t[0]) || IsDigit(t[0])) && IntegerLiteral(t + rest) == Match(IntValue(n), rest)
  {
    hide IntegerLiteral, OnlyDigits, SignedNumber;
    var sign, d :| IsSignText(sign) && d != "" && OnlyDigits(d) && t == sign + d && n == SignedNumber(sign, d);
    IntegerLiteralIsExact(sign, d, rest);
    FirstIsDigit(d);
  }

  lemma ValReads(s: string, v: SqlValue, rest: string)
    ensures Literal(s) == Match(v, rest) <==> Reads(s, Val(v), rest)
  {
    match v
    case IntValue(n) => IntegerReads(s, n, rest);
    case StringValue(x) => StringReads(s, x, rest);
  }

  lemma MarkReads(s: string, c: char, rest: string)
    requires c in MARKS
    ensures StartsWith(SkipSpace(s), c) && SkipSpace(s)[1..] == rest <==> Reads(s, Mark(c), rest)
  {
    ReadsSkips(s, Mark(c), rest);
    var u := SkipSpace(s);
    if StartsWith(u, c) && u[1..] == rest {
      assert u == [c] + rest && Spells([c], Mark(c)) && Ends(Mark(c), rest);
    }
  }

  // ---------- the tokens of a script ----------

  /** The function has read v, and the tokens go on behind it. */
  ghost predicate Yields<T>(r: Parsed<T>, v: T, more: seq<Token>) {
    r.Match? && r.value == v && IsLayout(r.rest, more)
  }

  lemma LayoutHead(s: string, toks: seq<Token>)
    requires toks != []
    ensures IsLayout(s, toks) <==> exists rest :: Reads(s, toks[0], rest) && IsLayout(rest, toks[1..])
  {
  }

  lemma WordIn(s: string, k: string, more: seq<Token>)
    requires IsKeyword(k)
    ensures Yields(Keyword(s, k), (), more) <==> IsLayout(s, [Word(k)] + more)
  {
    hide Keyword, Reads;
    assert ([Word(k)] + more)[1..] == more;
    LayoutHead(s, [Word(k)] + more);
    forall rest
      ensures Keyword(s, k) == Match((), rest) <==> Reads(s, Word(k), rest)
    {
      WordReads(s, k, rest);
    }
  }

  lemma NameIn(s: string, x: string, more: seq<Token>)
    ensures Yields(Identifier(s), x, more) <==> IsLayout(s, [Name(x)] + more)
  {
    hide Identifier, Reads;
    assert ([Name(x)] + more)[1..] == more;
    LayoutHead(s, [Name(x)] + more);
    forall rest
      ensures Identifier(s) == Match(x, rest) <==> Reads(s, Name(x), rest)
    {
      NameReads(s, x, rest);
    }
  }

  lemma ValIn(s: string, v: SqlValue, more: seq<Token>)
    ensures Yields(Literal(s), v, more) <==> IsLayout(s, [Val(v)] + more)
  {
    hide Literal, Reads;
    assert ([Val(v)] + more)[1..] == more;
    LayoutHead(s, [Val(v)] + more);
    forall rest
      ensures Literal(s) == Match(v, rest) <==> Reads(s, Val(v), rest)
    {
      ValReads(s, v, rest);
    }
  }

  lemma MarkIn(s: string, c: char, more: seq<Token>)
    requires c in MARKS
    ensures StartsWith(SkipSpace(s), c) && IsLayout(SkipSpace(s)[1..], more) <==> IsLayout(s, [Mark(c)] + more)
  {
    hide Reads;
    assert ([Mark(c)] + more)[1..] == more;
    LayoutHead(s, [Mark(c)] + more);
    forall rest
      ensures StartsWith(SkipSpace(s), c) && SkipSpace(s)[1..] == rest <==> Reads(s, Mark(c), rest)
    {
      MarkReads(s, c, rest);
    }
  }

  /** A mark is next exactly when the token says so. */
  lemma NextMark(s: string, toks: seq<Token>, c: char)
    requires IsLayout(s, toks) && c in MARKS
    ensures StartsWith(SkipSpace(s), c) <==> toks != [] && toks[0] == Mark(c)
    ensures SkipSpace(s) == "" <==> toks == []
  {
    if toks == [] {
      AllSpacesIff(s);
    } else {
      var rest :| Reads(s, toks[0], rest) && IsLayout(rest, toks[1..]);
      ReadsSkips(s, toks[0], rest);
      var t :| SkipSpace(s) == t + rest && Spells(t, toks[0]) && Ends(toks[0], rest);
      SpelledHead(t, toks[0]);
    }
  }

  function NameToks(name: TableName): seq<Token> {
    if name.schema.Some? then [Name(name.schema.value), Mark('.'), Name(name.table)] else [Name(name.table)]
  }

  lemma QualifiedIn(s: string, name: TableName, more: seq<Token>)
    requires more == [] || more[0] != Mark('.')
    ensures Yields(QualifiedName(s), name, more) <==> IsLayout(s, NameToks(name) + more)
  {
    hide Identifier, SkipSpace, IsLayout;
    MarksAre();
    var first := Identifier(s);
    if first.Match? {
      SkipIn(first.rest, more);
      if IsLayout(first.rest, more) { NextMark(first.rest, more, '.'); }
    }
    match name.schema
    case None =>
      NameIn(s, name.table, more);
      if first.Match? && StartsWith(SkipSpace(first.rest), '.') { SkipIn(first.rest, more); }
    case Some(schema) =>
      var tail := [Name(name.table)] + more;
      assert NameToks(name) + more == [Name(schema)] + ([Mark('.')] + tail);
      NameIn(s, schema, [Mark('.')] + tail);
      if first.Match? {
        MarkIn(first.rest, '.', tail);
        if StartsWith(SkipSpace(first.rest), '.') { NameIn(SkipSpace(first.rest)[1..], name.table, more); }
      }
  }

  lemma MarksAre()
    ensures '.' in MARKS && ',' in MARKS && '(' in MARKS && ')' in MARKS && '*' in MARKS && ';' in MARKS
  {
    assert MARKS[0] == '.' && MARKS[1] == ',' && MARKS[2] == '(' && MARKS[3] == ')';
    assert MARKS[4] == '*' && MARKS[5] == ';';
  }

  // ---------- lists ----------

  /** Items with commas between them. */
  function Listed(items: seq<Token>): seq<Token> {
    if |items| <= 1 then items else [items[0], Mark(',')] + Listed(items[1..])
  }

  function Names(names: seq<string>): (toks: seq<Token>)
    ensures |toks| == |names|
  {
    seq(|names|, i requires 0 <= i < |names| => Name(names[i]))
  }

  function Vals(values: seq<SqlValue>): (toks: seq<Token>)
    ensures |toks| == |values|
  {
    seq(|values|, i requires 0 <= i < |values| => Val(values[i]))
  }

  lemma ListedSplits(items: seq<Token>, more: seq<Token>)
    requires items != []
    ensures Listed(items) + more ==
            [items[0]] + if |items| == 1 then more else [Mark(',')] + (Listed(items[1..]) + more)
  {
    if |items| == 1 {
      assert items == [items[0]] && Listed(items) == items;
    } else {
      CommaBehind(items[0], Listed(items[1..]), more);
    }
  }

  lemma CommaBehind(item: Token, list: seq<Token>, more: seq<Token>)
    ensures [item, Mark(',')] + list + more == [item] + ([Mark(',')] + (list + more))
  {
    hide *;
    assert [item, Mark(',')] == [item] + [Mark(',')];
    Associative([item] + [Mark(',')], list, more);
    Associative([item], [Mark(',')], list + more);
  }

  lemma {:induction false} ColumnsFromExtendsNames(s: string, before: seq<string>)
    ensures ColumnsFrom(s, before).Match? ==> before < ColumnsFrom(s, before).value
    decreases |s|
  {
    var id := Identifier(s);
    if id.Match? && id.value !in before {
      var t := SkipSpace(id.rest);
      if StartsWith(t, ',') { ColumnsFromExtendsNames(SkipSpace(t[1..]), before + [id.value]); }
    }
  }

  /** None of the names is among those before it. */
  predicate NewNames(before: seq<string>, names: seq<string>) {
    forall i :: 0 <= i < |names| ==> names[i] !in before && names[i] !in names[..i]
  }

  lemma NewNamesSplit(before: seq<string>, names: seq<string>)
    requires names != []
    ensures NewNames(before, names) <==> names[0] !in before && NewNames(before + [names[0]], names[1..])
  {
    assert forall i :: 0 < i < |names| ==> names[..i] == [names[0]] + names[1..][..i - 1];
    assert forall i :: 0 <= i < |names[1..]| ==> names[1..][i] == names[i + 1];
    if names[0] !in before && NewNames(before + [names[0]], names[1..]) {
      forall i | 0 <= i < |names|
        ensures names[i] !in before && names[i] !in names[..i]
      {
        if i > 0 { assert names[i] == names[1..][i - 1]; }
      }
    }
  }

  lemma PrefixDecides(before: seq<string>, first: string, names: seq<string>, value: seq<string>)
    requires names != [] && before + [first] <= value && value == before + names
    ensures first == names[0]
    ensures before + [first] < value <==> |names| > 1
  {
    assert value[|before|] == first && value[|before|] == names[0];
  }

  /** The column loop has read names behind before, and more follows. */
  lemma {:induction false} ColumnsIn(s: string, before: seq<string>, names: seq<string>, more: seq<Token>)
    requires names != []
    ensures Yields(ColumnsFrom(s, before), before + names, more)
       <==> IsLayout(s, Listed(Names(names)) + ([Mark(')')] + more)) && NewNames(before, names)
    decreases |s|
  {
    hide Identifier, SkipSpace, IsLayout, NewNames, Listed;
    MarksAre();
    NewNamesSplit(before, names);
    ListedSplits(Names(names), [Mark(')')] + more);
    assert Names(names)[1..] == Names(names[1..]);
    var tail := Listed(Names(names[1..])) + ([Mark(')')] + more);
    NameIn(s, names[0], if |names| == 1 then [Mark(')')] + more else [Mark(',')] + tail);
    ColumnsFromExtendsNames(s, before);
    var id := Identifier(s);
    if id.Match? && id.value !in before {
      var t := SkipSpace(id.rest);
      MarkIn(id.rest, ')', more);
      MarkIn(id.rest, ',', tail);
      if StartsWith(t, ')') {
        if before + [id.value] == before + names { PrefixDecides(before, id.value, names, before + names); }
        if |names| == 1 {
          NothingNew(before, names);
          assert names == [names[0]];
        }
      } else if StartsWith(t, ',') {
        var u := SkipSpace(t[1..]);
        ColumnsFromExtendsNames(u, before + [id.value]);
        SkipIn(t[1..], tail);
        if ColumnsFrom(s, before).Match? && ColumnsFrom(s, before).value == before + names {
          PrefixDecides(before, id.value, names, before + names);
        }
        if |names| > 1 && id.value == names[0] {
          ColumnsIn(u, before + [names[0]], names[1..], more);
          assert before + [names[0]] + names[1..] == before + names;
          if IsLayout(u, tail) {
            ListStarts(Names(names[1..]), [Mark(')')] + more);
            NextMark(u, tail, ')');
            SkipTwiceIs(t[1..]);
          }
        }
      }
    }
  }

  lemma NothingNew(before: seq<string>, names: seq<string>)
    requires |names| == 1
    ensures NewNames(before, names) <==> names[0] !in before
  {
    assert names[..0] == [];
  }

  lemma ListStarts(items: seq<Token>, more: seq<Token>)
    requires items != []
    ensures (Listed(items) + more)[0] == items[0]
  {
  }

  lemma {:induction false} ValuesFromExtendsValues(s: string, before: seq<SqlValue>)
    ensures ValuesFrom(s, before).Match? ==> before < ValuesFrom(s, before).value
    decreases |s|
  {
    var value := Literal(s);
    if value.Match? {
      var t := SkipSpace(value.rest);
      if StartsWith(t, ',') { ValuesFromExtendsValues(SkipSpace(t[1..]), before + [value.value]); }
    }
  }

  lemma ValuePrefixDecides(before: seq<SqlValue>, first: SqlValue, values: seq<SqlValue>, all: seq<SqlValue>)
    requires values != [] && before + [first] <= all && all == before + values
    ensures first == values[0]
    ensures before + [first] < all <==> |values| > 1
  {
    assert all[|before|] == first && all[|before|] == values[0];
  }

  /** The value loop has read values behind before, and more follows. */
  lemma {:induction false} ValuesIn(s: string, before: seq<SqlValue>, values: seq<SqlValue>, more: seq<Token>)
    requires values != []
    ensures Yields(ValuesFrom(s, before), before + values, more)
       <==> IsLayout(s, Listed(Vals(values)) + ([Mark(')')] + more))
    decreases |s|
  {
    hide Literal, SkipSpace, IsLayout, Listed;
    MarksAre();
    ListedSplits(Vals(values), [Mark(')')] + more);
    assert Vals(values)[1..] == Vals(values[1..]);
    var tail := Listed(Vals(values[1..])) + ([Mark(')')] + more);
    ValIn(s, values[0], if |values| == 1 then [Mark(')')] + more else [Mark(',')] + tail);
    ValuesFromExtendsValues(s, before);
    var value := Literal(s);
    if value.Match? {
      var t := SkipSpace(value.rest);
      MarkIn(value.rest, ')', more);
      MarkIn(value.rest, ',', tail);
      if StartsWith(t, ')') {
        if before + [value.value] == before + values {
          ValuePrefixDecides(before, value.value, values, before + values);
        }
        if |values| == 1 { assert values == [values[0]]; }
      } else if StartsWith(t, ',') {
        var u := SkipSpace(t[1..]);
        ValuesFromExtendsValues(u, before + [value.value]);
        SkipIn(t[1..], tail);
        if ValuesFrom(s, before).Match? && ValuesFrom(s, before).value == before + values {
          ValuePrefixDecides(before, value.value, values, before + values);
        }
        if |values| > 1 && value.value == values[0] {
          ValuesIn(u, before + [values[0]], values[1..], more);
          assert before + [values[0]] + values[1..] == before + values;
          if IsLayout(u, tail) {
            ListStarts(Vals(values[1..]), [Mark(')')] + more);
            NextMark(u, tail, ')');
            SkipTwiceIs(t[1..]);
          }
        }
      }
    }
  }

  lemma {:induction false} SelectedFromExtendsNames(s: string, before: seq<string>)
    ensures SelectedFrom(s, before).Match? ==> before < SelectedFrom(s, before).value
    decreases |s|
  {
    var id := Identifier(s);
    if id.Match? && id.value !in before {
      var t := SkipSpace(id.rest);
      if StartsWith(t, ',') { SelectedFromExtendsNames(SkipSpace(t[1..]), before + [id.value]); }
    }
  }

  /** The loop over selected columns has read names behind before, and more follows. */
  lemma {:induction false} SelectedIn(s: string, before: seq<string>, names: seq<string>, more: seq<Token>)
    requires names != [] && more != [] && more[0] != Mark(',')
    ensures Yields(SelectedFrom(s, before), before + names, more)
       <==> IsLayout(s, Listed(Names(names)) + more) && NewNames(before, names)
    decreases |s|
  {
    hide Identifier, SkipSpace, IsLayout, NewNames, Listed;
    MarksAre();
    NewNamesSplit(before, names);
    ListedSplits(Names(names), more);
    assert Names(names)[1..] == Names(names[1..]);
    var tail := Listed(Names(names[1..])) + more;
    NameIn(s, names[0], if |names| == 1 then more else [Mark(',')] + tail);
    SelectedFromExtendsNames(s, before);
    var id := Identifier(s);
    if id.Match? && id.value !in before {
      var t := SkipSpace(id.rest);
      SkipIn(id.rest, more);
      MarkIn(id.rest, ',', tail);
      if IsLayout(id.rest, more) { NextMark(id.rest, more, ','); }
      if !StartsWith(t, ',') {
        if before + [id.value] == before + names { PrefixDecides(before, id.value, names, before + names); }
        if |names| == 1 {
          NothingNew(before, names);
          assert names == [names[0]];
        }
      } else {
        var u := SkipSpace(t[1..]);
        SelectedFromExtendsNames(u, before + [id.value]);
        SkipIn(t[1..], tail);
        if SelectedFrom(s, before).Match? && SelectedFrom(s, before).value == before + names {
          PrefixDecides(before, id.value, names, before + names);
        }
        if |names| > 1 && id.value == names[0] {
          SelectedIn(u, before + [names[0]], names[1..], more);
          assert before + [names[0]] + names[1..] == before + names;
          if IsLayout(u, tail) {
            ListStarts(Names(names[1..]), more);
            NextMark(u, tail, ';');
            SkipTwiceIs(t[1..]);
          }
        }
      }
    }
  }

  lemma NewIsDistinct(names: seq<string>)
    ensures NewNames([], names) <==> Distinct(names)
  {
    if Distinct(names) {
      forall i | 0 <= i < |names|
        ensures names[i] !in names[..i]
      {
      }
    }
    if NewNames([], names) {
      forall i, j | 0 <= i < j < |names|
        ensures names[i] != names[j]
      {
        assert names[i] == names[..j][i];
      }
    }
  }

  // ---------- statements ----------

  function ColumnToks(columns: seq<string>): seq<Token> {
    if columns == [] then [] else [Mark('(')] + (Listed(Names(columns)) + [Mark(')')])
  }

  function ValueToks(values: seq<SqlValue>): seq<Token> {
    [Mark('(')] + (Listed(Vals(values)) + [Mark(')')])
  }

  function SelectionToks(columns: seq<string>): seq<Token> {
    if columns == [] then [Mark('*')] else Listed(Names(columns))
  }

  /** INSERT INTO name [(columns)] VALUES (values), or SELECT columns FROM name. */
  function StatementToks(stmt: Statement): seq<Token> {
    match stmt
    case Insert(schema, table, columns, values) =>
      [Word("INSERT")] + ([Word("INTO")] + (NameToks(TableName(schema, table))
        + (ColumnToks(columns) + ([Word("VALUES")] + ValueToks(values)))))
    case Select(schema, table, _, columns) =>
      [Word("SELECT")] + (SelectionToks(columns) + ([Word("FROM")] + NameToks(TableName(schema, table))))
  }

  /** Every statement is ended by a semicolon. */
  function ScriptToks(script: seq<Statement>): seq<Token> {
    if script == [] then [] else StatementToks(script[0]) + ([Mark(';')] + ScriptToks(script[1..]))
  }

  lemma BracketsSplit(items: seq<Token>, more: seq<Token>)
    ensures [Mark('(')] + (items + [Mark(')')]) + more == [Mark('(')] + (items + ([Mark(')')] + more))
  {
    Associative([Mark('(')], items + [Mark(')')], more);
    Associative(items, [Mark(')')], more);
  }

  lemma OptionalColumnsIn(s: string, columns: seq<string>, more: seq<Token>)
    requires more != [] && more[0] != Mark('(')
    ensures Yields(OptionalColumns(s), columns, more) <==> IsLayout(s, ColumnToks(columns) + more) && Distinct(columns)
  {
    hide SkipSpace, IsLayout, Distinct, NewNames, Listed, ColumnsFrom;
    MarksAre();
    NewIsDistinct(columns);
    SkipIn(s, more);
    SkipTwiceIs(s);
    var t := SkipSpace(s);
    if StartsWith(t, '(') { ColumnsFromExtendsNames(SkipSpace(t[1..]), []); }
    if columns == [] {
      assert [] + more == more;
      NoNames();
      if IsLayout(s, more) { NextMark(s, more, '('); }
    } else {
      var tail := Listed(Names(columns)) + ([Mark(')')] + more);
      BracketsSplit(Listed(Names(columns)), more);
      MarkIn(s, '(', tail);
      if StartsWith(t, '(') {
        var u := SkipSpace(t[1..]);
        SkipIn(t[1..], tail);
        SkipTwiceIs(t[1..]);
        ColumnsIn(u, [], columns, more);
        assert [] + columns == columns;
        if IsLayout(u, tail) {
          ListStarts(Names(columns), [Mark(')')] + more);
          NextMark(u, tail, ')');
        }
      }
    }
  }

  lemma NoNames()
    ensures Distinct<string>([])
  {
  }

  lemma ValueListIn(s: string, values: seq<SqlValue>, more: seq<Token>)
    requires values != []
    ensures Yields(ValueList(s), values, more) <==> IsLayout(s, ValueToks(values) + more)
  {
    hide SkipSpace, IsLayout, Listed, ValuesFrom;
    MarksAre();
    var t := SkipSpace(s);
    var tail := Listed(Vals(values)) + ([Mark(')')] + more);
    BracketsSplit(Listed(Vals(values)), more);
    MarkIn(s, '(', tail);
    if StartsWith(t, '(') {
      var u := SkipSpace(t[1..]);
      SkipIn(t[1..], tail);
      SkipTwiceIs(t[1..]);
      ValuesIn(u, [], values, more);
      assert [] + values == values;
      if IsLayout(u, tail) {
        ListStarts(Vals(values), [Mark(')')] + more);
        NextMark(u, tail, ')');
      }
    }
  }

  lemma InsertValuesIn(s: string, name: TableName, columns: seq<string>, values: seq<SqlValue>, more: seq<Token>)
    requires values != [] && (columns == [] || |columns| == |values|)
    ensures Yields(InsertValues(s, name, columns), Insert(name.schema, name.table, columns, values), more)
       <==> IsLayout(s, [Word("VALUES")] + ValueToks(values) + more)
  {
    hide Keyword, IsLayout, ValueList, ValueToks;
    Associative([Word("VALUES")], ValueToks(values), more);
    WordIn(s, "VALUES", ValueToks(values) + more);
    var keyword := Keyword(s, "VALUES");
    if keyword.Match? {
      ValueListIn(keyword.rest, values, more);
      assert keyword.value == ();
    }
  }

  lemma InsertTailIn(s: string, stmt: Statement, more: seq<Token>)
    requires stmt.Insert? && WellFormed(stmt)
    ensures Yields(InsertTail(s, TableName(stmt.schema, stmt.table)), stmt, more)
       <==> IsLayout(s, ColumnToks(stmt.columns) + ([Word("VALUES")] + ValueToks(stmt.values)) + more)
  {
    hide OptionalColumns, IsLayout, InsertValues, ValueToks, ColumnToks;
    var tail := [Word("VALUES")] + ValueToks(stmt.values) + more;
    assert tail[0] == Word("VALUES");
    Associative(ColumnToks(stmt.columns), [Word("VALUES")] + ValueToks(stmt.values), more);
    OptionalColumnsIn(s, stmt.columns, tail);
    var columns := OptionalColumns(s);
    if columns.Match? {
      InsertValuesIn(columns.rest, TableName(stmt.schema, stmt.table), stmt.columns, stmt.values, more);
      InsertKeepsColumns(columns.rest, TableName(stmt.schema, stmt.table), columns.value);
    }
  }

  lemma InsertKeepsColumns(s: string, name: TableName, columns: seq<string>)
    ensures InsertValues(s, name, columns).Match? ==>
              && InsertValues(s, name, columns).value.Insert?
              && InsertValues(s, name, columns).value.columns == columns
  {
  }

  lemma InsertIn(s: string, stmt: Statement, more: seq<Token>)
    requires stmt.Insert? && WellFormed(stmt)
    ensures Yields(InsertBody(s), stmt, more)
       <==> IsLayout(s, [Word("INTO")] + (NameToks(TableName(stmt.schema, stmt.table))
              + (ColumnToks(stmt.columns) + ([Word("VALUES")] + ValueToks(stmt.values)))) + more)
  {
    hide Keyword, IsLayout, QualifiedName, InsertTail, ValueToks, ColumnToks, NameToks;
    var name := TableName(stmt.schema, stmt.table);
    var tail := ColumnToks(stmt.columns) + ([Word("VALUES")] + ValueToks(stmt.values));
    Associative([Word("INTO")], NameToks(name) + tail, more);
    Associative(NameToks(name), tail, more);
    WordIn(s, "INTO", NameToks(name) + (tail + more));
    if Keyword(s, "INTO").Match? {
      var rest := Keyword(s, "INTO").rest;
      InsertTailStarts(stmt, more);
      QualifiedIn(rest, name, tail + more);
      assert Keyword(s, "INTO").value == ();
      if QualifiedName(rest).Match? {
        InsertTailIn(QualifiedName(rest).rest, stmt, more);
        InsertKeepsName(QualifiedName(rest).rest, QualifiedName(rest).value);
      }
    }
  }

  lemma InsertKeepsName(s: string, name: TableName)
    ensures InsertTail(s, name).Match? ==>
              && InsertTail(s, name).value.Insert?
              && InsertTail(s, name).value.schema == name.schema && InsertTail(s, name).value.table == name.table
  {
  }

  lemma InsertTailStarts(stmt: Statement, more: seq<Token>)
    requires stmt.Insert?
    ensures var toks := ColumnToks(stmt.columns) + ([Word("VALUES")] + ValueToks(stmt.values)) + more;
            toks != [] && toks[0] != Mark('.')
  {
  }

  lemma SelectionIn(s: string, columns: seq<string>, more: seq<Token>)
    requires more != [] && more[0] == Word("FROM")
    ensures Yields(Selection(s), columns, more) <==> IsLayout(s, SelectionToks(columns) + more) && Distinct(columns)
  {
    hide SkipSpace, IsLayout, Distinct, NewNames, Listed, SelectedFrom;
    MarksAre();
    NewIsDistinct(columns);
    NoNames();
    var t := SkipSpace(s);
    SelectedFromExtendsNames(t, []);
    if columns == [] {
      MarkIn(s, '*', more);
    } else {
      var toks := Listed(Names(columns)) + more;
      SkipIn(s, toks);
      SelectedIn(t, [], columns, more);
      assert [] + columns == columns;
      if IsLayout(s, toks) {
        ListStarts(Names(columns), more);
        NextMark(s, toks, '*');
      }
    }
  }

  lemma SelectIn(s: string, stmt: Statement, more: seq<Token>)
    requires stmt.Select? && WellFormed(stmt) && (more == [] || more[0] != Mark('.'))
    ensures Yields(SelectBody(s), stmt, more)
       <==> IsLayout(s, SelectionToks(stmt.columns)
              + ([Word("FROM")] + NameToks(TableName(stmt.schema, stmt.table))) + more)
  {
    hide Keyword, IsLayout, QualifiedName, Selection, SelectionToks, NameToks;
    var name := TableName(stmt.schema, stmt.table);
    Associative(SelectionToks(stmt.columns), [Word("FROM")] + NameToks(name), more);
    Associative([Word("FROM")], NameToks(name), more);
    SelectionIn(s, stmt.columns, [Word("FROM")] + (NameToks(name) + more));
    var selection := Selection(s);
    if selection.Match? {
      WordIn(selection.rest, "FROM", NameToks(name) + more);
      var keyword := Keyword(selection.rest, "FROM");
      if keyword.Match? {
        QualifiedIn(keyword.rest, name, more);
        assert keyword.value == ();
      }
    }
  }

  lemma StatementWord(s: string, k: string)
    requires k == "INSERT" || k == "SELECT"
    ensures Keyword(s, k).Match? <==> KeywordAt(SkipSpace(s), k)
    ensures Keyword(s, k).Match? ==> Keyword(s, k).rest == SkipSpace(s)[6..]
    ensures !(Keyword(s, "INSERT").Match? && Keyword(s, "SELECT").Match?)
  {
    assert ToLower("INSERT"[0]) != ToLower("SELECT"[0]);
  }

  lemma BodyKind(s: string)
    ensures InsertBody(s).Match? ==> InsertBody(s).value.Insert?
    ensures SelectBody(s).Match? ==> SelectBody(s).value.Select?
  {
    if Keyword(s, "INTO").Match? && QualifiedName(Keyword(s, "INTO").rest).Match? {
      var name := QualifiedName(Keyword(s, "INTO").rest);
      InsertKeepsName(name.rest, name.value);
    }
  }

  lemma StatementIn(s: string, stmt: Statement, more: seq<Token>)
    requires WellFormed(stmt) && more != [] && more[0] == Mark(';')
    ensures Yields(StatementAt(s), stmt, more) <==> IsLayout(s, StatementToks(stmt) + more)
  {
    hide Keyword, KeywordAt, SkipSpace, IsLayout, InsertBody, SelectBody, WellFormed;
    hide NameToks, ColumnToks, ValueToks, SelectionToks;
    StatementWord(s, "INSERT");
    StatementWord(s, "SELECT");
    var insert, select := Keyword(s, "INSERT"), Keyword(s, "SELECT");
    if insert.Match? { BodyKind(insert.rest); }
    if select.Match? { BodyKind(select.rest); }
    match stmt
    case Insert(_, _, _, _) =>
      var tail := StatementToks(stmt)[1..];
      assert StatementToks(stmt) == [Word("INSERT")] + tail;
      Associative([Word("INSERT")], tail, more);
      WordIn(s, "INSERT", tail + more);
      if insert.Match? {
        InsertIn(insert.rest, stmt, more);
        assert insert.value == ();
      }
    case Select(_, _, _, _) =>
      var tail := StatementToks(stmt)[1..];
      assert StatementToks(stmt) == [Word("SELECT")] + tail;
      Associative([Word("SELECT")], tail, more);
      WordIn(s, "SELECT", tail + more);
      if select.Match? {
        SelectIn(select.rest, stmt, more);
        assert select.value == ();
      }
  }

  lemma TerminatedIn(s: string, stmt: Statement, more: seq<Token>)
    requires WellFormed(stmt)
    ensures Yields(TerminatedStatement(s), stmt, more) <==> IsLayout(s, StatementToks(stmt) + ([Mark(';')] + more))
  {
    hide StatementAt, SkipSpace, IsLayout, StatementToks, WellFormed;
    MarksAre();
    StatementIn(s, stmt, [Mark(';')] + more);
    var r := StatementAt(s);
    if r.Match? { MarkIn(r.rest, ';', more); }
  }

  lemma {:induction false} StatementsFromExtendsScript(s: string, before: seq<Statement>)
    ensures StatementsFrom(s, before).Match? ==> before <= StatementsFrom(s, before).value
    ensures StatementsFrom(s, before).Match? && SkipSpace(s) != "" ==> before < StatementsFrom(s, before).value
    decreases |s|
  {
    hide TerminatedStatement;
    var t := SkipSpace(s);
    if t != [] && TerminatedStatement(t).Match? {
      StatementsFromExtendsScript(TerminatedStatement(t).rest, before + [TerminatedStatement(t).value]);
    }
  }

  /** The statement loop, with before already read, reads script and the end of the input. */
  lemma {:induction false} StatementsIn(s: string, before: seq<Statement>, script: seq<Statement>)
    requires AllWellFormed(script)
    ensures StatementsFrom(s, before) == Match(before + script, []) <==> IsLayout(s, ScriptToks(script))
    decreases |s|
  {
    hide TerminatedStatement, SkipSpace, IsLayout, StatementToks, WellFormed;
    var t := SkipSpace(s);
    var toks := ScriptToks(script);
    SkipIn(s, toks);
    StatementsFromExtendsScript(s, before);
    if IsLayout(s, toks) {
      MarksAre();
      NextMark(s, toks, ';');
      ScriptStarts(script);
    }
    if script == [] {
      assert before + script == before;
      EndOfLayout(s);
    } else {
      assert before + script != before;
      if t != "" {
        TerminatedIn(t, script[0], ScriptToks(script[1..]));
        var r := TerminatedStatement(t);
        if r.Match? {
          StatementsFromExtendsScript(r.rest, before + [r.value]);
          if StatementsFrom(s, before) == Match(before + script, []) {
            assert (before + script)[|before|] == script[0];
            assert StatementsFrom(r.rest, before + [r.value]).value[|before|] == r.value;
          }
          if r.value == script[0] {
            StatementsIn(r.rest, before + [r.value], script[1..]);
            assert before + [r.value] + script[1..] == before + script;
          }
        }
      }
    }
  }

  lemma EndOfLayout(s: string)
    ensures IsLayout(s, []) <==> SkipSpace(s) == ""
  {
    AllSpacesIff(s);
  }

  lemma ScriptStarts(script: seq<Statement>)
    ensures ScriptToks(script) == [] <==> script == []
  {
  }

  /** The parser accepts exactly the layouts of well-formed scripts, behind an optional byte order mark, and reads
      each of them as its script. */
  lemma AcceptedIsLayout(sql: string, script: seq<Statement>)
    ensures ParseScript(sql) == Match(script, [])
       <==> script != [] && AllWellFormed(script) && IsLayout(StripBom(sql), ScriptToks(script))
  {
    hide StatementsFrom, IsLayout, WellFormed;
    if ParseScript(sql) == Match(script, []) { ParserIsSound(sql); }
    if AllWellFormed(script) {
      StatementsIn(StripBom(sql), [], script);
      assert [] + script == script;
    }
  }

  /** No text is a layout of two scripts. */
  lemma LayoutIsUnambiguous(sql: string, a: seq<Statement>, b: seq<Statement>)
    requires a != [] && AllWellFormed(a) && IsLayout(StripBom(sql), ScriptToks(a))
    requires b != [] && AllWellFormed(b) && IsLayout(StripBom(sql), ScriptToks(b))
    ensures a == b
  {
    AcceptedIsLayout(sql, a);
    AcceptedIsLayout(sql, b);
  }

  /** The three bytes of a byte order mark are taken off once, and nothing else is. */
  lemma ByteOrderMark(s: string)
    ensures StripBom(['\U{EF}', '\U{BB}', '\U{BF}'] + s) == s
    ensures |s| < 3 || s[0] != '\U{EF}' || s[1] != '\U{BB}' || s[2] != '\U{BF}' ==> StripBom(s) == s
  {
    assert (BOM + s)[3..] == s;
    assert BOM[0] == '\U{EF}' && BOM[1] == '\U{BB}' && BOM[2] == '\U{BF}';
  }
}
