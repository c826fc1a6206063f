/** What a script means: its statements run one after the other directly on the data directory. */
module Semantics {
  import opened SqlTypes
  import opened Storage
  import opened StorageTheorems
  import opened Files

  datatype Ran = Ran(dir: Dir, output: string)

  function InsertMessage(schema: Option<string>, table: string): string {
    "INSERT 1 INTO " + (if schema.Some? then schema.value + "." else "") + table + "\n"
  }

  /** execute_statement_unstaged with working I/O */
  function RunStatement(dir: Dir, stmt: Statement): Result<Ran> {
    var schemaFile := Lookup(dir, SchemaName(stmt.schema, stmt.table));
    var csvName := CsvName(stmt.schema, stmt.table);
    match stmt
    case Insert(schema, table, columns, values) =>
      (match AppendRow(schemaFile, Lookup(dir, csvName), columns, values)
       case Err(code) => Err(code)
       case Ok(csv) => Ok(Ran(dir[csvName := csv], InsertMessage(schema, table))))
    case Select(_, _, selectAll, columns) =>
      (match SelectRows(schemaFile, Lookup(dir, csvName), selectAll, columns)
       case Err(code) => Err(code)
       case Ok(rows) => Ok(Ran(dir, rows)))
  }

  /** The first k statements of a script, each run by step on what the ones before left. */
  function RunSteps(step: (Dir, Statement) -> Result<Ran>, dir: Dir, script: seq<Statement>, k: nat): Result<Ran>
    requires k <= |script|
  {
    if k == 0 then Ok(Ran(dir, ""))
    else
      match RunSteps(step, dir, script, k - 1)
      case Err(code) => Err(code)
      case Ok(before) =>
        match step(before.dir, script[k - 1])
        case Err(code) => Err(code)
        case Ok(ran) => Ok(Ran(ran.dir, before.output + ran.output))
  }

  function RunPrefix(dir: Dir, script: seq<Statement>, k: nat): Result<Ran>
    requires k <= |script|
  {
    RunSteps(RunStatement, dir, script, k)
  }

  function RunScript(dir: Dir, script: seq<Statement>): Result<Ran> {
    RunPrefix(dir, script, |script|)
  }

  /** append_unique_string of the CSV that an INSERT has written. */
  function TouchedBy(before: seq<string>, stmt: Statement): seq<string> {
    var csvName := CsvName(stmt.schema, stmt.table);
    if stmt.Insert? && csvName !in before then before + [csvName] else before
  }

  /** The CSV files that the INSERTs among the first k statements write, each once, in first-write order. */
  function Touched(script: seq<Statement>, k: nat): seq<string>
    requires k <= |script|
  {
    if k == 0 then [] else TouchedBy(Touched(script, k - 1), script[k - 1])
  }

  predicate NeedsStaging(script: seq<Statement>) {
    exists i :: 0 <= i < |script| && script[i].Insert?
  }

  lemma {:induction false} StepsStop(step: (Dir, Statement) -> Result<Ran>, dir: Dir, script: seq<Statement>, k: nat)
    requires k <= |script| && RunSteps(step, dir, script, k).Err?
    ensures RunSteps(step, dir, script, |script|) == RunSteps(step, dir, script, k)
    decreases |script| - k
  {
    if k < |script| {
      StepsStop(step, dir, script, k + 1);
    }
  }

  /** The first failing statement decides how the script fails. */
  lemma FailureStops(dir: Dir, script: seq<Statement>, k: nat)
    requires k <= |script| && RunPrefix(dir, script, k).Err?
    ensures RunScript(dir, script) == RunPrefix(dir, script, k)
  {
    StepsStop(RunStatement, dir, script, k);
  }

  lemma {:induction false} StepsOfPrefix(step: (Dir, Statement) -> Result<Ran>, dir: Dir,
                                         a: seq<Statement>, b: seq<Statement>, k: nat)
    requires k <= |a|
    ensures RunSteps(step, dir, a + b, k) == RunSteps(step, dir, a, k)
  {
    if k > 0 { StepsOfPrefix(step, dir, a, b, k - 1); }
  }

  ghost predicate RunsAfter(first: Result<Ran>, second: Result<Ran>, whole: Result<Ran>)
    requires first.Ok?
  {
    match second
    case Err(code) => whole == Err(code)
    case Ok(ran) => whole == Ok(Ran(ran.dir, first.value.output + ran.output))
  }

  lemma {:induction false} StepsConcat(step: (Dir, Statement) -> Result<Ran>, dir: Dir,
                                       a: seq<Statement>, b: seq<Statement>, k: nat)
    requires k <= |b| && RunSteps(step, dir, a, |a|).Ok?
    ensures var first := RunSteps(step, dir, a, |a|);
            RunsAfter(first, RunSteps(step, first.value.dir, b, k), RunSteps(step, dir, a + b, |a| + k))
  {
    var first := RunSteps(step, dir, a, |a|);
    if k == 0 {
      StepsOfPrefix(step, dir, a, b, |a|);
      assert first.value.output + "" == first.value.output;
    } else {
      StepsConcat(step, dir, a, b, k - 1);
      assert (a + b)[|a| + k - 1] == b[k - 1];
      var before := RunSteps(step, first.value.dir, b, k - 1);
      if before.Ok? && step(before.value.dir, b[k - 1]).Ok? {
        var ran := step(before.value.dir, b[k - 1]).value;
        assert first.value.output + before.value.output + ran.output
            == first.value.output + (before.value.output + ran.output);
      }
    }
  }

  lemma StepsConcatAll(step: (Dir, Statement) -> Result<Ran>, dir: Dir, a: seq<Statement>, b: seq<Statement>)
    ensures var first, whole := RunSteps(step, dir, a, |a|), RunSteps(step, dir, a + b, |a + b|);
            if first.Err? then whole == first else RunsAfter(first, RunSteps(step, first.value.dir, b, |b|), whole)
  {
    hide RunSteps;
    StepsOfPrefix(step, dir, a, b, |a|);
    if RunSteps(step, dir, a, |a|).Err? {
      StepsStop(step, dir, a + b, |a|);
    } else {
      StepsConcat(step, dir, a, b, |b|);
    }
  }

  /** Two scripts in a row do what their concatenation does, so each SELECT sees all earlier INSERTs. */
  lemma RunConcat(dir: Dir, a: seq<Statement>, b: seq<Statement>)
    ensures var first := RunScript(dir, a);
            if first.Err? then RunScript(dir, a + b) == first
            else RunsAfter(first, RunScript(first.value.dir, b), RunScript(dir, a + b))
  {
    StepsConcatAll(RunStatement, dir, a, b);
  }

  lemma {:induction false} TouchedFacts(script: seq<Statement>, k: nat)
    requires k <= |script|
    ensures Distinct(Touched(script, k))
    ensures Touched(script, k) <= Touched(script, |script|)
    ensures forall n :: n in Touched(script, k) <==>
              exists i :: 0 <= i < k && script[i].Insert? && n == CsvName(script[i].schema, script[i].table)
    decreases k
  {
    TouchedGrows(script, k);
    if k > 0 {
      TouchedFacts(script, k - 1);
    }
  }

  lemma {:induction false} TouchedGrows(script: seq<Statement>, k: nat)
    requires k <= |script|
    ensures Touched(script, k) <= Touched(script, |script|)
    decreases |script| - k
  {
    if k < |script| { TouchedGrows(script, k + 1); }
  }

  ghost predicate ChangesOwnCsv(dir: Dir, stmt: Statement, after: Dir) {
    var csvName := CsvName(stmt.schema, stmt.table);
    if stmt.Insert?
    then && csvName in after && after == dir[csvName := after[csvName]] && after[csvName] != ""
         && (csvName in dir ==> dir[csvName] != "" && dir[csvName] < after[csvName])
    else after == dir
  }

  lemma StoredIsNotEmpty(schemaFile: Option<string>, csvFile: Option<string>, columns: seq<string>,
                         values: seq<SqlValue>)
    requires AppendRow(schemaFile, csvFile, columns, values).Ok?
    ensures AppendRow(schemaFile, csvFile, columns, values).value != ""
    ensures csvFile != Some("")
  {
    hide LoadOptionalSchema, StoredValues, CheckHeader, NormalizeTail, RenderRow;
  }

  /** A statement changes no file but the CSV an INSERT names, and makes that one longer. */
  lemma StatementChanges(dir: Dir, stmt: Statement)
    requires RunStatement(dir, stmt).Ok?
    ensures ChangesOwnCsv(dir, stmt, RunStatement(dir, stmt).value.dir)
  {
    var csvName, schemaFile := CsvName(stmt.schema, stmt.table), Lookup(dir, SchemaName(stmt.schema, stmt.table));
    if stmt.Insert? {
      StoredIsNotEmpty(schemaFile, Lookup(dir, csvName), stmt.columns, stmt.values);
      if csvName in dir { AppendExtends(schemaFile, dir[csvName], stmt.columns, stmt.values); }
    }
  }

  ghost predicate Grew(dir: Dir, after: Dir, names: seq<string>) {
    && (forall n :: n in names ==> n in after && after[n] != "" && (n in dir ==> dir[n] != "" && dir[n] < after[n]))
    && (forall n :: n !in names ==> Lookup(after, n) == Lookup(dir, n))
  }

  lemma GrewStep(dir: Dir, before: Dir, names: seq<string>, after: Dir, csvName: string)
    requires Grew(dir, before, names)
    requires csvName in after && after == before[csvName := after[csvName]] && after[csvName] != ""
    requires csvName in before ==> before[csvName] != "" && before[csvName] < after[csvName]
    ensures Grew(dir, after, if csvName in names then names else names + [csvName])
  {
    assert csvName !in names && csvName in dir ==> Lookup(before, csvName) == Lookup(dir, csvName);
  }

  lemma {:induction false} StepsChange(step: (Dir, Statement) -> Result<Ran>, dir: Dir, script: seq<Statement>, k: nat)
    requires k <= |script| && RunSteps(step, dir, script, k).Ok?
    requires forall d, s :: step(d, s).Ok? ==> ChangesOwnCsv(d, s, step(d, s).value.dir)
    ensures Grew(dir, RunSteps(step, dir, script, k).value.dir, Touched(script, k))
  {
    if k > 0 {
      StepsChange(step, dir, script, k - 1);
      var before := RunSteps(step, dir, script, k - 1).value.dir;
      var stmt := script[k - 1];
      var after := step(before, stmt).value.dir;
      assert ChangesOwnCsv(before, stmt, after);
      if stmt.Insert? {
        GrewStep(dir, before, Touched(script, k - 1), after, CsvName(stmt.schema, stmt.table));
      }
    }
  }

  /** A script changes no file but the CSVs its INSERTs name, and makes each of those longer. */
  lemma ScriptChanges(dir: Dir, script: seq<Statement>, k: nat)
    requires k <= |script| && RunPrefix(dir, script, k).Ok?
    ensures Grew(dir, RunPrefix(dir, script, k).value.dir, Touched(script, k))
  {
    forall d, s | RunStatement(d, s).Ok?
      ensures ChangesOwnCsv(d, s, RunStatement(d, s).value.dir)
    {
      StatementChanges(d, s);
    }
    StepsChange(RunStatement, dir, script, k);
  }
}
