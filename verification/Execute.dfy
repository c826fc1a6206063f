/** The executor of src/execute.c up to the commit: statements run on lazily staged copies. */
module Execute {
  import opened SqlTypes
  import opened CsvIo
  import opened TableIo
  import opened Files
  import opened CommitIo
  import opened Semantics

  /** The name of the buffered output file; stamp stands for the process id, the time and the attempt. */
  function BufferName(stamp: string): string {
    "__sql_output_" + stamp + ".tmp"
  }

  lemma BufferIsNoTable(stamp: string, schema: Option<string>, table: string)
    ensures BufferName(stamp) != CsvName(schema, table) && BufferName(stamp) != SchemaName(schema, table)
  {
    var b, c, s := BufferName(stamp), CsvName(schema, table), SchemaName(schema, table);
    assert b[|b| - 1] == 'p' && c[|c| - 1] == 'v' && s[|s| - 1] == 'v';
  }

  // ---------- the simulation of direct execution by staged execution ----------

  /** The stage laid over the untouched data directory is the directory of the direct run. */
  ghost predicate Simulates(data: Dir, w: World, direct: Dir, touched: seq<string>, buffer: string) {
    && w.data == data
    && (forall n :: n != buffer ==> Lookup(direct, n) == if n in w.stage then Some(w.stage[n]) else Lookup(data, n))
    && (forall n :: n in w.stage && n != buffer && n !in touched ==> Lookup(data, n) == Some(w.stage[n]))
    && (forall n :: n in touched ==> n in w.stage && n != buffer)
  }

  /** Everything in the stage is the output buffer or a managed file, so clean-up can remove it. */
  ghost predicate Managed(w: World, managed: seq<string>, buffer: string) {
    forall n :: n in w.stage ==> n == buffer || n in managed
  }

  ghost predicate TraceKeepsData(trace: seq<World>, from: nat, data: Dir) {
    forall k :: from <= k < |trace| ==> trace[k].data == data
  }

  lemma StartSimulates(w: World, buffer: string)
    requires w.stage.Keys == {buffer}
    ensures Simulates(w.data, w, w.data, [], buffer) && Managed(w, [], buffer)
  {
    assert forall n :: n in w.stage <==> n == buffer;
  }

  /** A statement reads and writes nothing but its table's two files. */
  lemma StatementIsLocal(d: Dir, e: Dir, stmt: Statement)
    requires Lookup(d, CsvName(stmt.schema, stmt.table)) == Lookup(e, CsvName(stmt.schema, stmt.table))
    requires Lookup(d, SchemaName(stmt.schema, stmt.table)) == Lookup(e, SchemaName(stmt.schema, stmt.table))
    ensures match RunStatement(d, stmt)
            case Err(code) => RunStatement(e, stmt) == Err(code)
            case Ok(ran) =>
              && RunStatement(e, stmt).Ok? && RunStatement(e, stmt).value.output == ran.output
              && (if stmt.Insert?
                  then var csvName := CsvName(stmt.schema, stmt.table);
                       csvName in ran.dir && ran.dir == d[csvName := ran.dir[csvName]]
                       && RunStatement(e, stmt).value.dir == e[csvName := ran.dir[csvName]]
                  else ran.dir == d && RunStatement(e, stmt).value.dir == e)
  {
  }

  lemma SimulatesStep(data: Dir, w: World, direct: Dir, touched: seq<string>, buffer: string,
                      stmt: Statement, w': World)
    requires Simulates(data, w, direct, touched, buffer) && buffer != CsvName(stmt.schema, stmt.table)
    requires Lookup(w.stage, CsvName(stmt.schema, stmt.table)) == Lookup(direct, CsvName(stmt.schema, stmt.table))
    requires Lookup(w.stage, SchemaName(stmt.schema, stmt.table)) == Lookup(direct, SchemaName(stmt.schema, stmt.table))
    requires RunStatement(w.stage, stmt).Ok? && w' == World(w.data, RunStatement(w.stage, stmt).value.dir)
    ensures RunStatement(direct, stmt).Ok?
    ensures RunStatement(direct, stmt).value.output == RunStatement(w.stage, stmt).value.output
    ensures Simulates(data, w', RunStatement(direct, stmt).value.dir, TouchedBy(touched, stmt), buffer)
  {
    hide RunStatement;
    StatementIsLocal(w.stage, direct, stmt);
  }

  /** The direct run has got through i statements. */
  ghost predicate Progress(data: Dir, script: seq<Statement>, i: nat, direct: Dir, output: string) {
    i <= |script| && RunPrefix(data, script, i) == Ok(Ran(direct, output))
  }

  lemma ProgressDone(data: Dir, script: seq<Statement>, direct: Dir, output: string)
    requires Progress(data, script, |script|, direct, output)
    ensures RunScript(data, script) == Ok(Ran(direct, output))
  {
  }

  lemma ProgressStep(data: Dir, script: seq<Statement>, i: nat, direct: Dir, output: string)
    requires i < |script| && Progress(data, script, i, direct, output)
    ensures match RunStatement(direct, script[i])
            case Ok(ran) => Progress(data, script, i + 1, ran.dir, output + ran.output)
            case Err(code) => RunScript(data, script) == Err(code)
  {
    if RunStatement(direct, script[i]).Err? {
      FailureStops(data, script, i + 1);
    }
  }

  /** The staged run has got through i statements, in step with the direct run. */
  ghost predicate InStep(data: Dir, script: seq<Statement>, i: nat, w: World, direct: Dir, output: string,
                         touched: seq<string>, managed: seq<string>, stamp: string) {
    && Progress(data, script, i, direct, output) && touched == Touched(script, i)
    && Simulates(data, w, direct, touched, BufferName(stamp)) && Managed(w, managed, BufferName(stamp))
  }

  // ---------- methods ----------

  /** execute_statement_unstaged */
  method ExecuteStatementUnstaged(fs: FileSystem, p: Place, stmt: Statement, buffer: File)
    returns (code: Option<ErrorCode>)
    requires buffer.AtEnd()
    modifies fs, buffer
    ensures buffer.AtEnd() && fs.faults >= old(fs.faults) && fs.misreads >= old(fs.misreads)
    ensures fs.faults > old(fs.faults) ==> code.Some?
    ensures fs.faults == old(fs.faults) && fs.misreads == old(fs.misreads) ==>
              match RunStatement(old(fs.world).At(p), stmt)
              case Err(c) => code == Some(c) && fs.world == old(fs.world)
              case Ok(ran) =>
                && code == None && fs.world == old(fs.world).With(p, ran.dir)
                && buffer.bytes == old(buffer.bytes) + ran.output
    ensures SameBut(old(fs.world), fs.world, p, CsvName(stmt.schema, stmt.table))
    ensures stmt.Select? ==> fs.world == old(fs.world) && fs.misreads == old(fs.misreads)
    ensures old(fs.trace) <= fs.trace
    ensures TraceSameBut(fs.trace, |old(fs.trace)|, old(fs.world), p, CsvName(stmt.schema, stmt.table))
  {
    match stmt
    case Insert(schema, table, columns, values) =>
      ghost var created;
      code, created := StorageAppendRow(fs, p, schema, table, columns, values);
      if CsvName(schema, table) !in old(fs.world).At(p) { CreatedAndRemoved(old(fs.world), p, CsvName(schema, table)); }
      if code.Some? { return; }
      buffer.Puts(InsertMessage(schema, table));
      var ok := fs.Works(Buffering);
      code := if ok then None else Some(Io);
    case Select(schema, table, selectAll, columns) =>
      code := StorageSelectProjection(fs, p, schema, table, columns, selectAll, buffer);
  }

  /** What staging a file does: a copy, if the probes see the file in the data directory only. */
  function StagedAs(w: World, name: string, sawStage: bool, sawData: bool): World {
    if !sawStage && sawData && name in w.data then w.Set(Stage, name, w.data[name]) else w
  }

  /** The same when no probe misses a file. */
  function WithStaged(w: World, name: string): World {
    StagedAs(w, name, name in w.stage, name in w.data)
  }

  lemma StagingSimulates(w: World, direct: Dir, touched: seq<string>, buffer: string, name: string)
    requires Simulates(w.data, w, direct, touched, buffer) && name != buffer
    ensures Simulates(w.data, WithStaged(w, name), direct, touched, buffer)
    ensures Lookup(WithStaged(w, name).stage, name) == Lookup(direct, name)
    ensures forall n :: n != name ==> Lookup(WithStaged(w, name).stage, n) == Lookup(w.stage, n)
  {
  }

  /** Copying one file of a table into the stage. */
  method StageFile(fs: FileSystem, name: string, managed: StringList, ghost buffer: string)
    returns (ok: bool, ghost sawStage: bool, ghost sawData: bool)
    requires Managed(fs.world, managed.items, buffer) && name in managed.items
    modifies fs
    ensures fs.faults >= old(fs.faults) && (fs.faults == old(fs.faults) <==> ok) && fs.misreads >= old(fs.misreads)
    ensures (sawStage ==> name in old(fs.world).stage) && (sawData ==> name in old(fs.world).data)
    ensures ok ==> fs.world == StagedAs(old(fs.world), name, sawStage, sawData)
    ensures ok && fs.misreads == old(fs.misreads) ==> fs.world == WithStaged(old(fs.world), name)
    ensures fs.world.data == old(fs.world).data && Managed(fs.world, managed.items, buffer)
    ensures old(fs.trace) <= fs.trace && TraceKeepsData(fs.trace, |old(fs.trace)|, old(fs.world).data)
  {
    var staged := fs.Exists(Stage, name);
    sawStage, sawData := staged, false;
    if staged { return true, sawStage, sawData; }
    var found := fs.Exists(Data, name);
    sawData := found;
    if !found { return true, sawStage, sawData; }
    ok := fs.Copy(Data, name, Stage, name);
    StageStaysManaged(old(fs.world), fs.world, name, managed.items, buffer);
  }

  /** ensure_staged_table: when no probe misses a file, the stage shows what the direct run would see. */
  method EnsureStagedTable(fs: FileSystem, stmt: Statement, managed: StringList,
                           ghost direct: Dir, ghost touched: seq<string>, ghost stamp: string) returns (ok: bool)
    requires Managed(fs.world, managed.items, BufferName(stamp))
    modifies fs, managed
    ensures fs.faults >= old(fs.faults) && (fs.faults == old(fs.faults) <==> ok) && fs.misreads >= old(fs.misreads)
    ensures var w := old(fs.world);
            var csvName, schemaName := CsvName(stmt.schema, stmt.table), SchemaName(stmt.schema, stmt.table);
            ok && fs.misreads == old(fs.misreads) && Simulates(w.data, w, direct, touched, BufferName(stamp)) ==>
              && Simulates(w.data, fs.world, direct, touched, BufferName(stamp))
              && Lookup(fs.world.stage, csvName) == Lookup(direct, csvName)
              && Lookup(fs.world.stage, schemaName) == Lookup(direct, schemaName)
    ensures fs.world.data == old(fs.world).data && Managed(fs.world, managed.items, BufferName(stamp))
    ensures CsvName(stmt.schema, stmt.table) in managed.items
    ensures old(fs.trace) <= fs.trace && TraceKeepsData(fs.trace, |old(fs.trace)|, old(fs.world).data)
  {
    var csvName, schemaName := CsvName(stmt.schema, stmt.table), SchemaName(stmt.schema, stmt.table);
    BufferIsNoTable(stamp, stmt.schema, stmt.table);
    managed.AppendUnique(csvName);
    managed.AppendUnique(schemaName);
    ghost var w := fs.world;
    ghost var sawStage, sawData;
    ok, sawStage, sawData := StageFile(fs, csvName, managed, BufferName(stamp));
    if !ok { return; }
    ok, sawStage, sawData := StageFile(fs, schemaName, managed, BufferName(stamp));
    if Simulates(w.data, w, direct, touched, BufferName(stamp)) {
      StagingSimulates(w, direct, touched, BufferName(stamp), csvName);
      StagingSimulates(WithStaged(w, csvName), direct, touched, BufferName(stamp), schemaName);
    }
  }

  /** One round of the statement loop of execute_script, in the stage. */
  method RunStagedStatement(fs: FileSystem, stmt: Statement, touched: StringList, managed: StringList, buffer: File,
                            ghost direct: Dir, ghost stamp: string) returns (failed: Option<ErrorCode>)
    requires touched != managed && buffer.AtEnd()
    requires Managed(fs.world, managed.items, BufferName(stamp))
    modifies fs, touched, managed, buffer
    ensures buffer.AtEnd() && fs.faults >= old(fs.faults) && fs.misreads >= old(fs.misreads)
    ensures fs.faults > old(fs.faults) ==> failed.Some?
    ensures failed == None ==> touched.items == TouchedBy(old(touched.items), stmt)
    ensures fs.faults == old(fs.faults) && fs.misreads == old(fs.misreads)
            && Simulates(old(fs.world).data, old(fs.world), direct, old(touched.items), BufferName(stamp)) ==>
              match RunStatement(direct, stmt)
              case Err(code) => failed == Some(code)
              case Ok(ran) =>
                && failed == None && buffer.bytes == old(buffer.bytes) + ran.output
                && Simulates(old(fs.world).data, fs.world, ran.dir, touched.items, BufferName(stamp))
    ensures fs.world.data == old(fs.world).data && Managed(fs.world, managed.items, BufferName(stamp))
    ensures old(fs.trace) <= fs.trace && TraceKeepsData(fs.trace, |old(fs.trace)|, old(fs.world).data)
  {
    var staged := EnsureStagedTable(fs, stmt, managed, direct, touched.items, stamp);
    if !staged { return Some(Io); }
    ghost var w, names := fs.world, touched.items;
    BufferIsNoTable(stamp, stmt.schema, stmt.table);
    failed := ExecuteStatementUnstaged(fs, Stage, stmt, buffer);
    StageStaysManaged(w, fs.world, CsvName(stmt.schema, stmt.table), managed.items, BufferName(stamp));
    if fs.misreads == old(fs.misreads) && fs.faults == old(fs.faults)
       && Simulates(old(fs.world).data, old(fs.world), direct, old(touched.items), BufferName(stamp)) {
      StatementIsLocal(w.stage, direct, stmt);
      if failed == None { SimulatesStep(w.data, w, direct, names, BufferName(stamp), stmt, fs.world); }
    }
    if failed == None && stmt.Insert? {
      touched.AppendUnique(CsvName(stmt.schema, stmt.table));
    }
  }

  lemma StageStaysManaged(w: World, w': World, name: string, managed: seq<string>, buffer: string)
    requires Managed(w, managed, buffer) && SameBut(w, w', Stage, name) && name in managed
    ensures Managed(w', managed, buffer)
  {
    forall n | n in w'.stage
      ensures n == buffer || n in managed
    {
      if n != name { assert n in w'.stage - {name}; }
    }
  }

  /** The same round seen from the whole script: one more statement of the direct run is done. */
  method RunNextStaged(fs: FileSystem, script: seq<Statement>, i: nat, touched: StringList, managed: StringList,
                       buffer: File, ghost data: Dir, ghost direct: Dir, ghost stamp: string)
    returns (failed: Option<ErrorCode>, ghost direct': Dir)
    requires touched != managed && buffer.AtEnd() && i < |script|
    requires touched.items == Touched(script, i) && fs.world.data == data
    requires Managed(fs.world, managed.items, BufferName(stamp))
    modifies fs, touched, managed, buffer
    ensures buffer.AtEnd() && fs.faults >= old(fs.faults) && fs.misreads >= old(fs.misreads)
    ensures fs.faults > old(fs.faults) ==> failed.Some?
    ensures failed == None ==> touched.items == Touched(script, i + 1)
    ensures fs.misreads == old(fs.misreads)
            && InStep(data, script, i, old(fs.world), direct, old(buffer.bytes), old(touched.items), old(managed.items),
                      stamp) ==>
              && (failed == None ==>
                    InStep(data, script, i + 1, fs.world, direct', buffer.bytes, touched.items, managed.items, stamp))
              && (failed.Some? && fs.faults == old(fs.faults) ==> RunScript(data, script) == Err(failed.value))
    ensures fs.world.data == data && Managed(fs.world, managed.items, BufferName(stamp))
    ensures old(fs.trace) <= fs.trace && TraceKeepsData(fs.trace, |old(fs.trace)|, data)
  {
    ghost var inStep :=
      InStep(data, script, i, fs.world, direct, buffer.bytes, touched.items, managed.items, stamp);
    if inStep { ProgressStep(data, script, i, direct, buffer.bytes); }
    direct' := direct;
    failed := RunStagedStatement(fs, script[i], touched, managed, buffer, direct, stamp);
    if inStep && failed == None && RunStatement(direct, script[i]).Ok? {
      direct' := RunStatement(direct, script[i]).value.dir;
    }
  }

  /** The statement loop of execute_script, in the stage: in step with the direct run as long as no probe
      misses a file; the data directory is never written. */
  method RunStaged(fs: FileSystem, script: seq<Statement>, touched: StringList, managed: StringList, buffer: File,
                   ghost stamp: string) returns (failed: Option<ErrorCode>, ghost direct: Dir)
    requires touched != managed && touched.items == [] && managed.items == [] && buffer.AtEnd() && buffer.bytes == ""
    requires fs.world.stage.Keys == {BufferName(stamp)}
    modifies fs, touched, managed, buffer
    ensures buffer.AtEnd() && fs.faults >= old(fs.faults) && fs.misreads >= old(fs.misreads)
    ensures fs.faults > old(fs.faults) ==> failed.Some?
    ensures failed == None ==> touched.items == Touched(script, |script|)
    ensures fs.misreads == old(fs.misreads) && failed == None ==>
              InStep(old(fs.world).data, script, |script|, fs.world, direct, buffer.bytes, touched.items, managed.items,
                     stamp)
    ensures fs.misreads == old(fs.misreads) && failed.Some? && fs.faults == old(fs.faults) ==>
              RunScript(old(fs.world).data, script) == Err(failed.value)
    ensures fs.world.data == old(fs.world).data && Managed(fs.world, managed.items, BufferName(stamp))
    ensures old(fs.trace) <= fs.trace && TraceKeepsData(fs.trace, |old(fs.trace)|, old(fs.world).data)
  {
    ghost var data := fs.world.data;
    direct := data;
    StartSimulates(fs.world, BufferName(stamp));
    assert InStep(data, script, 0, fs.world, direct, buffer.bytes, touched.items, managed.items, stamp);
    hide *;
    for i := 0 to |script|
      invariant buffer.AtEnd() && fs.faults == old(fs.faults) && fs.misreads >= old(fs.misreads)
      invariant touched.items == Touched(script, i) && fs.world.data == data
      invariant Managed(fs.world, managed.items, BufferName(stamp))
      invariant fs.misreads == old(fs.misreads) ==>
                  InStep(data, script, i, fs.world, direct, buffer.bytes, touched.items, managed.items, stamp)
      invariant old(fs.trace) <= fs.trace && TraceKeepsData(fs.trace, |old(fs.trace)|, data)
    {
      failed, direct := RunNextStaged(fs, script, i, touched, managed, buffer, data, direct, stamp);
      if failed.Some? { return; }
    }
    failed := None;
  }

  /** The statement loop of execute_script for a script of SELECTs, directly in the data directory. */
  method RunUnstaged(fs: FileSystem, script: seq<Statement>, buffer: File, ghost data: Dir, ghost stamp: string)
    returns (failed: Option<ErrorCode>)
    requires !NeedsStaging(script) && buffer.AtEnd() && buffer.bytes == ""
    requires forall n :: n != BufferName(stamp) ==> Lookup(fs.world.data, n) == Lookup(data, n)
    modifies fs, buffer
    ensures buffer.AtEnd() && fs.faults >= old(fs.faults)
    ensures fs.world == old(fs.world) && fs.misreads == old(fs.misreads)
    ensures failed == None ==>
              fs.faults == old(fs.faults) && RunScript(data, script) == Ok(Ran(data, buffer.bytes))
    ensures failed.Some? && fs.faults == old(fs.faults) ==> RunScript(data, script) == Err(failed.value)
  {
    for i := 0 to |script|
      invariant buffer.AtEnd() && fs.faults == old(fs.faults)
      invariant fs.world == old(fs.world) && fs.misreads == old(fs.misreads)
      invariant Progress(data, script, i, data, buffer.bytes)
    {
      ProgressStep(data, script, i, data, buffer.bytes);
      BufferIsNoTable(stamp, script[i].schema, script[i].table);
      StatementIsLocal(fs.world.data, data, script[i]);
      failed := ExecuteStatementUnstaged(fs, Data, script[i], buffer);
      if failed.Some? { return; }
    }
    failed := None;
  }

  /** flush_and_copy_output: a failure may leave part of the output written. */
  method FlushAndCopyOutput(fs: FileSystem, buffer: File, out: File) returns (ok: bool)
    requires buffer != out && buffer.Valid() && out.AtEnd()
    modifies fs`faults, fs`lastFailed, out
    ensures out.AtEnd()
    ensures fs.faults == if ok then old(fs.faults) else old(fs.faults) + 1
    ensures !ok ==> fs.lastFailed == Printing
    ensures ok ==> out.bytes == old(out.bytes) + buffer.bytes
    ensures old(out.bytes) <= out.bytes <= old(out.bytes) + buffer.bytes
  {
    ok := fs.Works(Printing);
    if ok {
      out.Puts(buffer.bytes);
    } else {
      var n: int := *;
      if 0 <= n <= |buffer.bytes| { out.Puts(buffer.bytes[..n]); }
    }
  }

  /** Removing the buffer file and cleanup_stage_dir: removals are best effort. */
  method CleanupStageDir(fs: FileSystem, managed: StringList, bufferName: string)
    modifies fs`world, fs`faults, fs`lastFailed, fs`trace
    ensures fs.faults >= old(fs.faults) && fs.world.data == old(fs.world).data
    ensures fs.faults == old(fs.faults) && Managed(old(fs.world), managed.items, bufferName) ==> fs.world.stage == map[]
    ensures old(fs.trace) <= fs.trace
  {
    var _ := fs.Remove(Stage, bufferName);
    for i := 0 to |managed.items|
      invariant fs.faults >= old(fs.faults) && fs.world.data == old(fs.world).data
      invariant fs.faults == old(fs.faults) ==>
                  forall n :: n in fs.world.stage ==>
                    n in old(fs.world).stage && n != bufferName && n !in managed.items[..i]
      invariant old(fs.trace) <= fs.trace
    {
      assert managed.items[..i + 1] == managed.items[..i] + [managed.items[i]];
      var _ := fs.Remove(Stage, managed.items[i]);
    }
    assert managed.items[..|managed.items|] == managed.items;
    if fs.faults == old(fs.faults) && Managed(old(fs.world), managed.items, bufferName) {
      assert forall n :: n !in fs.world.stage;
    }
  }
}
