/** execute_script: refinement of direct execution, atomicity under failure, and clean-up. A run is honest
    when no existence probe has missed a file. */
module Script {
  import opened SqlTypes
  import opened CsvIo
  import opened Files
  import opened Commit
  import opened Collision
  import opened CommitIo
  import opened Semantics
  import opened Execute

  /** How execute_script ends; every value but Done is a failure return. */
  datatype Outcome =
    | Done
    | EmptyScript
    | SetupFailed
    | StatementFailed(code: ErrorCode)
    | CommitFailed(how: CommitOutcome)
    | OutputFailed(undone: bool)

  /** The tables the script writes, in the order in which they are committed. */
  function Tables(script: seq<Statement>): seq<string> {
    Touched(script, |script|)
  }

  /** d holds the final contents of the first i names and is the initial directory elsewhere. */
  ghost predicate PartlyCommitted(initial: Dir, final: Dir, names: seq<string>, i: nat, d: Dir)
    requires i <= |names|
  {
    forall n :: Lookup(d, n) == if n in names[..i] then Lookup(final, n) else Lookup(initial, n)
  }

  // ---------- the commit, seen from the direct run ----------

  /** d is the data directory after i rounds of a commit of final's tables to initial. */
  ghost predicate CommittedTo(initial: Dir, final: Dir, names: seq<string>, i: nat, d: Dir) {
    i <= |names| && var run := CommitRun(World(initial, final), names, HadOriginal(initial, names), i);
    run.done == i && d == run.world.data
  }

  /** No table is overwritten in the stage before it is committed. */
  ghost predicate CommitsRight(initial: Dir, final: Dir, names: seq<string>) {
    Staged(World(initial, final), names) && NoCollision(World(initial, final), names)
  }

  /** Committing from the stage does to the data directory what committing from the direct run's directory
      would do. */
  lemma CommitFollowsDirect(w: World, direct: Dir, names: seq<string>, buffer: string, had: seq<bool>, k: nat)
    requires k <= |names| && k <= |had| && Simulates(w.data, w, direct, names, buffer)
    ensures var staged, run := CommitRun(w, names, had, k), CommitRun(World(w.data, direct), names, had, k);
            staged.done == run.done && staged.world.data == run.world.data
            && forall j :: 0 <= j < |names| ==> (names[j] in staged.world.stage <==> names[j] in run.world.stage)
  {
    forall j | 0 <= j < |names|
      ensures Lookup(w.stage, names[j]) == Lookup(direct, names[j])
    {
      assert names[j] in names;
    }
    RunAlike(w, World(w.data, direct), names, had, k);
    var staged, run := CommitRun(w, names, had, k), CommitRun(World(w.data, direct), names, had, k);
    forall j | 0 <= j < |names|
      ensures names[j] in staged.world.stage <==> names[j] in run.world.stage
    {
      assert Lookup(staged.world.stage, names[j]) == Lookup(run.world.stage, names[j]);
    }
  }

  /** Without a collision the rounds move the data directory towards the direct run by exactly their tables. */
  lemma CommitIsPartial(initial: Dir, final: Dir, names: seq<string>, i: nat, d: Dir)
    requires Distinct(names) && CommitsRight(initial, final, names) && CommittedTo(initial, final, names, i, d)
    ensures PartlyCommitted(initial, final, names, i, d)
  {
    var w := World(initial, final);
    SwapAllCommits(w, names, i);
    forall n
      ensures Lookup(d, n) == if n in names[..i] then Lookup(final, n) else Lookup(initial, n)
    {
      CommitDataAt(w, names, i, n);
    }
  }

  lemma TablesAreStaged(initial: Dir, script: seq<Statement>)
    requires RunScript(initial, script).Ok?
    ensures var w := World(initial, RunScript(initial, script).value.dir);
            && Distinct(Tables(script)) && Staged(w, Tables(script)) && NonEmpty(w, Tables(script))
            && Grew(initial, w.stage, Tables(script))
  {
    ScriptChanges(initial, script, |script|);
    TouchedFacts(script, |script|);
    forall k | 0 <= k < |Tables(script)|
      ensures Tables(script)[k] in RunScript(initial, script).value.dir
           && RunScript(initial, script).value.dir[Tables(script)[k]] != ""
    {
      assert Tables(script)[k] in Tables(script);
    }
  }

  /** A full commit leaves the directory of the direct run exactly when no table collides with a temp or a
      backup, for every script that the direct run accepts and every directory. */
  lemma CommitIsRightIff(initial: Dir, script: seq<Statement>, d: Dir)
    requires RunScript(initial, script).Ok?
    requires CommittedTo(initial, RunScript(initial, script).value.dir, Tables(script), |Tables(script)|, d)
    ensures d == RunScript(initial, script).value.dir
       <==> CommitsRight(initial, RunScript(initial, script).value.dir, Tables(script))
  {
    var final, names := RunScript(initial, script).value.dir, Tables(script);
    var w := World(initial, final);
    TablesAreStaged(initial, script);
    ScriptChanges(initial, script, |script|);
    CommitWorksIffNoCollision(w, names);
    forall n
      ensures Lookup(CommitData(w, names, |names|), n) == Lookup(final, n)
    {
      CommitDataAt(w, names, |names|, n);
      assert names[..|names|] == names;
    }
    SameLookups(CommitData(w, names, |names|), final);
  }

  /** What the first round writes. */
  lemma FirstRound(w: World, names: seq<string>, had: seq<bool>)
    requires names != [] && had != [] && names[0] in w.stage
    ensures var run := CommitRun(w, names, had, 1);
            && run.done == 1
            && Lookup(run.world.data, names[0]) == Some(if names[0] == TempName(0) then "" else w.stage[names[0]])
  {
    NoRounds(w, names, had);
    RoundWrites(w, names[0], 0, had[0]);
  }

  /** It stays, and is not what was there. */
  lemma FirstTableChanged(initial: Dir, script: seq<Statement>, i: nat, d: Dir)
    requires RunScript(initial, script).Ok? && i > 0
    requires CommittedTo(initial, RunScript(initial, script).value.dir, Tables(script), i, d)
    ensures Lookup(d, Tables(script)[0]) != Lookup(initial, Tables(script)[0])
  {
    hide RunScript, CommitRun, HadOriginal;
    var final, names := RunScript(initial, script).value.dir, Tables(script);
    var w, had := World(initial, final), HadOriginal(initial, names);
    TablesAreStaged(initial, script);
    FirstRound(w, names, had);
    DataFrame(w, names, had, 1, i, names[0]);
    assert names[0] in names;
  }

  lemma NoRounds(w: World, names: seq<string>, had: seq<bool>)
    ensures CommitRun(w, names, had, 0) == Run(w, 0)
  {
  }

  /** An early exit of the commit after i rounds leaves the initial directory exactly when i is 0, whatever the
      tables are called. */
  lemma EarlyExitRestoresIffFirst(initial: Dir, script: seq<Statement>, i: nat, d: Dir)
    requires RunScript(initial, script).Ok?
    requires CommittedTo(initial, RunScript(initial, script).value.dir, Tables(script), i, d)
    ensures d == initial <==> i == 0
  {
    if i == 0 {
      var names := Tables(script);
      NoRounds(World(initial, RunScript(initial, script).value.dir), names, HadOriginal(initial, names));
    } else {
      FirstTableChanged(initial, script, i, d);
    }
  }

  /** Whatever early exit a commit of final's tables to initial takes, it leaves initial. */
  ghost predicate EarlyExitsRestore(initial: Dir, final: Dir, names: seq<string>) {
    forall i: nat, d: Dir | i < |names| && CommittedTo(initial, final, names, i, d) :: d == initial
  }

  lemma FirstRoundIsDone(initial: Dir, final: Dir, names: seq<string>) returns (d: Dir)
    requires names != [] && Staged(World(initial, final), names)
    ensures CommittedTo(initial, final, names, 1, d)
  {
    var w, had := World(initial, final), HadOriginal(initial, names);
    FirstRound(w, names, had);
    d := CommitRun(w, names, had, 1).world.data;
  }

  /** For every script that the direct run accepts, whatever its tables are called: all early exits of its commit
      restore the initial directory exactly when it writes at most one table. */
  lemma EarlyExitsRestoreIffOneTable(initial: Dir, script: seq<Statement>)
    requires RunScript(initial, script).Ok?
    ensures EarlyExitsRestore(initial, RunScript(initial, script).value.dir, Tables(script)) <==> |Tables(script)| <= 1
  {
    hide RunScript, CommittedTo;
    var final, names := RunScript(initial, script).value.dir, Tables(script);
    forall i: nat, d: Dir | CommittedTo(initial, final, names, i, d)
      ensures d == initial <==> i == 0
    {
      EarlyExitRestoresIffFirst(initial, script, i, d);
    }
    if |names| > 1 {
      TablesAreStaged(initial, script);
      var d := FirstRoundIsDone(initial, final, names);
    }
  }

  // ---------- what a run leaves ----------

  /** What an honest run of execute_script has done to the data directory when it comes to its clean-up. */
  ghost predicate Settled(initial: Dir, script: seq<Statement>, outcome: Outcome, data: Dir) {
    var run := RunScript(initial, script);
    match outcome
    case Done => run.Ok? && CommittedTo(initial, run.value.dir, Tables(script), |Tables(script)|, data)
    case CommitFailed(CopyStopped(i)) =>
      run.Ok? && i < |Tables(script)| && CommittedTo(initial, run.value.dir, Tables(script), i, data)
    case CommitFailed(BackupStopped(i)) =>
      run.Ok? && i < |Tables(script)| && CommittedTo(initial, run.value.dir, Tables(script), i, data)
    case CommitFailed(RolledBack(_)) => run.Ok? && data == initial
    case CommitFailed(UndoFailed) => run.Ok?
    case CommitFailed(Committed) => false
    case OutputFailed(undone) => run.Ok? && (undone ==> data == initial)
    case _ => data == initial
  }

  /** The outcome of an honest run in which no system call fails. */
  ghost predicate Faultless(initial: Dir, script: seq<Statement>, outcome: Outcome) {
    match RunScript(initial, script)
    case Err(code) => outcome == StatementFailed(code)
    case Ok(ran) =>
      var names := Tables(script);
      var done := CommitRun(World(initial, ran.dir), names, HadOriginal(initial, names), |names|).done;
      outcome == if done == |names| then Done else CommitFailed(CopyStopped(done))
  }

  /** The same in the terms of a caller: success means the directory of the direct run exactly when no table
      collides; without a collision an early exit leaves the first i tables; and a commit of at most one
      table that fails, with working undo, leaves the initial directory. */
  ghost predicate SettledForCaller(initial: Dir, script: seq<Statement>, outcome: Outcome, data: Dir) {
    match RunScript(initial, script)
    case Err(_) => outcome != Done && !outcome.CommitFailed? && !outcome.OutputFailed?
    case Ok(ran) =>
      var right := CommitsRight(initial, ran.dir, Tables(script));
      && (outcome == Done ==> (data == ran.dir <==> right))
      && (outcome.CommitFailed? && (outcome.how.CopyStopped? || outcome.how.BackupStopped?) && right ==>
            outcome.how.i < |Tables(script)| && PartlyCommitted(initial, ran.dir, Tables(script), outcome.how.i, data))
      && (outcome.CommitFailed? && outcome.how != UndoFailed && |Tables(script)| <= 1 ==> data == initial)
  }

  /** The same for a run without failing calls. */
  ghost predicate FaultlessForCaller(initial: Dir, script: seq<Statement>, outcome: Outcome, data: Dir) {
    match RunScript(initial, script)
    case Err(code) => outcome == StatementFailed(code) && data == initial
    case Ok(ran) => CommitsRight(initial, ran.dir, Tables(script)) ==> outcome == Done && data == ran.dir
  }

  /** Without a collision, a script that the direct run accepts succeeds if no call fails. */
  lemma FaultlessMeans(initial: Dir, script: seq<Statement>, outcome: Outcome, data: Dir)
    requires Settled(initial, script, outcome, data) && Faultless(initial, script, outcome)
    ensures FaultlessForCaller(initial, script, outcome, data)
  {
    hide RunScript, CommitRun, NoCollision, HadOriginal;
    if RunScript(initial, script).Ok? {
      var final, names := RunScript(initial, script).value.dir, Tables(script);
      TablesAreStaged(initial, script);
      if CommitsRight(initial, final, names) {
        SwapAllCommits(World(initial, final), names, |names|);
        CommitIsRightIff(initial, script, data);
      }
    }
  }

  lemma SettledMeans(initial: Dir, script: seq<Statement>, outcome: Outcome, data: Dir)
    requires Settled(initial, script, outcome, data)
    ensures SettledForCaller(initial, script, outcome, data)
  {
    hide RunScript, CommitRun, NoCollision, PartlyCommitted, HadOriginal;
    if RunScript(initial, script).Ok? {
      var final, names := RunScript(initial, script).value.dir, Tables(script);
      if outcome == Done { CommitIsRightIff(initial, script, data); }
      if outcome.CommitFailed? && (outcome.how.CopyStopped? || outcome.how.BackupStopped?) {
        var i := outcome.how.i;
        TablesAreStaged(initial, script);
        if CommitsRight(initial, final, names) { CommitIsPartial(initial, final, names, i, data); }
        if |names| <= 1 { NoRounds(World(initial, final), names, HadOriginal(initial, names)); }
      }
    }
  }

  // ---------- methods ----------

  /** The states before the commit hold every original in place. */
  lemma SafeUpToCommit(before: seq<World>, after: seq<World>, from: nat, data: Dir, names: seq<string>, had: seq<bool>)
    requires before <= after && TraceKeepsData(before, from, data) && TraceSafe(after, |before|, data, names, had)
    ensures TraceSafe(after, from, data, names, had)
  {
    forall k | from <= k < |after|
      ensures SafeWorld(data, after[k], names, had)
    {
      if k < |before| { assert after[k] == before[k]; }
    }
  }

  /** out has grown by a prefix of output. */
  ghost predicate Printed(before: string, after: string, output: string) {
    before <= after <= before + output
  }

  /** Which call has failed when a run does not succeed; an undo that did not work has had a failure of its own. */
  ghost predicate FailedBy(outcome: Outcome, faults: int, failed: Call, names: seq<string>) {
    match outcome
    case Done => faults == 0
    case EmptyScript => faults == 0
    case SetupFailed => faults == 1 && (failed.MakingStage? || failed.Creating?)
    case StatementFailed(_) => faults >= 0
    case CommitFailed(how) => CommitFailedBy(how, faults, failed, names)
    case OutputFailed(undone) => faults >= (if undone then 1 else 2) && (faults == 1 ==> failed == Printing)
  }

  /** The two calls behind which the commit stops without undoing the rounds done before. */
  ghost predicate StoppedEarly(outcome: Outcome, failed: Call, names: seq<string>) {
    && outcome.CommitFailed?
    && match outcome.how {
         case CopyStopped(i) => i < |names| && failed == Copying(Stage, names[i], Stage, TempName(i))
         case BackupStopped(i) => i < |names| && failed == Moving(Data, names[i], Stage, BackupName(i))
         case _ => false
       }
  }

  /** One failing call leaves the initial directory, unless it is the copy or the backup of a table's commit. */
  lemma OneFailureRestores(initial: Dir, script: seq<Statement>, outcome: Outcome, data: Dir, failed: Call)
    requires Settled(initial, script, outcome, data) && FailedBy(outcome, 1, failed, Tables(script))
    ensures data == initial || StoppedEarly(outcome, failed, Tables(script))
  {
    hide RunScript, CommittedTo;
  }

  /** flush_and_copy_output and the rollback of all commits when it fails. */
  method CopyOutput(fs: FileSystem, touched: StringList, backupNames: StringList, hadOriginal: array<bool>,
                    buffer: File, out: File, ghost original: Dir, ghost had: seq<bool>)
    returns (outcome: Outcome)
    requires buffer != out && buffer.Valid() && out.AtEnd()
    requires Distinct(touched.items) && |had| == |touched.items| && Swapped(original, fs.world, touched.items, had)
    requires backupNames.items == BackupNames(|touched.items|) && hadOriginal[..] == had
    modifies fs, out
    ensures out.AtEnd()
    ensures outcome == Done || outcome.OutputFailed?
    ensures fs.faults >= old(fs.faults) && (fs.faults == old(fs.faults) <==> outcome == Done)
    ensures fs.misreads >= old(fs.misreads)
    ensures FailedBy(outcome, fs.faults - old(fs.faults), fs.lastFailed, touched.items)
    ensures outcome == Done ==> fs.world == old(fs.world) && out.bytes == old(out.bytes) + buffer.bytes
    ensures Printed(old(out.bytes), out.bytes, buffer.bytes)
    ensures outcome == OutputFailed(true) && fs.misreads == old(fs.misreads) ==>
              fs.world.data == Remaining(original, touched.items, had)
    ensures forall f :: f in fs.world.stage ==> f in old(fs.world).stage
    ensures old(fs.trace) <= fs.trace && TraceSafe(fs.trace, |old(fs.trace)|, original, touched.items, had)
  {
    var copied := FlushAndCopyOutput(fs, buffer, out);
    if copied { return Done; }
    BackupNamesAligned(|touched.items|);
    assert hadOriginal[..|touched.items|] == hadOriginal[..];
    var undone := RollbackCommittedCsvs(fs, touched, backupNames, hadOriginal, |touched.items|, original, had);
    outcome := OutputFailed(undone);
  }

  /** All statements have run in the stage, in step with the direct run. */
  ghost predicate Executed(initial: Dir, script: seq<Statement>, w: World, output: string, stamp: string) {
    var run := RunScript(initial, script);
    run.Ok? && output == run.value.output && Simulates(initial, w, run.value.dir, Tables(script), BufferName(stamp))
  }

  lemma HonestHad(initial: Dir, names: seq<string>, had: seq<bool>, w: World, k: nat)
    requires Honest(initial, names, had) && k <= |had|
    ensures CommitRun(w, names, HadOriginal(initial, names), k) == CommitRun(w, names, had, k)
  {
    RunPrefixOfHad(w, names, had, HadOriginal(initial, names), k);
  }

  /** What a commit that has failed means for the run, when no probe has missed a file. */
  lemma FailedCommitSettles(initial: Dir, script: seq<Statement>, w0: World, w: World, output: string, stamp: string,
                            stop: CommitOutcome, had: seq<bool>)
    requires Executed(initial, script, w0, output, stamp)
    requires |had| <= |Tables(script)| && Honest(initial, Tables(script), had)
    requires RoundFailed(stop, w0, w, Tables(script), had, |had|, true)
    requires stop.CopyStopped? || stop.BackupStopped? ==> CommitRun(w0, Tables(script), had, |had|).done == |had|
    ensures Settled(initial, script, CommitFailed(stop), w.data)
  {
    hide CommitRun;
    var names, direct := Tables(script), RunScript(initial, script).value.dir;
    CommitFollowsDirect(w0, direct, names, BufferName(stamp), had, |had|);
    HonestHad(initial, names, had, World(initial, direct), |had|);
  }

  /** A commit without failing calls ends where CommitRun ends. */
  lemma StoppedCommitIsFaultless(initial: Dir, script: seq<Statement>, w0: World, w: World, output: string,
                                 stamp: string, had: seq<bool>)
    requires Executed(initial, script, w0, output, stamp) && Honest(initial, Tables(script), had)
    requires |had| < |Tables(script)| && CommitRun(w0, Tables(script), had, |had|) == Run(w, |had|)
    requires Tables(script)[|had|] !in w.stage
    ensures Faultless(initial, script, CommitFailed(CopyStopped(|had|)))
  {
    var names, direct := Tables(script), RunScript(initial, script).value.dir;
    var all := HadOriginal(initial, names);
    CommitFollowsDirect(w0, direct, names, BufferName(stamp), had, |had|);
    HonestHad(initial, names, had, World(initial, direct), |had|);
    RunStops(World(initial, direct), names, all, |had|, |names|);
  }

  lemma FullCommitSettles(initial: Dir, script: seq<Statement>, w0: World, w: World, output: string, stamp: string,
                          had: seq<bool>)
    requires Executed(initial, script, w0, output, stamp) && Honest(initial, Tables(script), had)
    requires Committing(w0, w, Tables(script), had, |Tables(script)|)
    ensures Settled(initial, script, Done, w.data) && Faultless(initial, script, Done)
  {
    hide CommitRun;
    var names, direct := Tables(script), RunScript(initial, script).value.dir;
    CommitFollowsDirect(w0, direct, names, BufferName(stamp), had, |names|);
    HonestHad(initial, names, had, World(initial, direct), |names|);
  }

  /** The part of execute_script behind the statement loop: commit, output and their rollbacks. */
  method CommitAndPrint(fs: FileSystem, script: seq<Statement>, touched: StringList, managed: StringList,
                        buffer: File, out: File, ghost initial: Dir, ghost stamp: string)
    returns (outcome: Outcome, ghost had: seq<bool>)
    requires touched != managed && buffer != out && buffer.Valid() && out.AtEnd()
    requires touched.items == Tables(script) && fs.world.data == initial
    requires Managed(fs.world, managed.items, BufferName(stamp))
    modifies fs, managed, out
    ensures out.AtEnd() && fs.faults >= old(fs.faults) && fs.misreads >= old(fs.misreads)
    ensures outcome == Done || outcome.CommitFailed? || outcome.OutputFailed?
    ensures FailedBy(outcome, fs.faults - old(fs.faults), fs.lastFailed, Tables(script))
    ensures outcome == Done ==> out.bytes == old(out.bytes) + buffer.bytes
    ensures outcome.CommitFailed? ==> out.bytes == old(out.bytes)
    ensures Printed(old(out.bytes), out.bytes, buffer.bytes)
    ensures fs.misreads == old(fs.misreads) && Executed(initial, script, old(fs.world), buffer.bytes, stamp) ==>
              && Settled(initial, script, outcome, fs.world.data)
              && (fs.faults == old(fs.faults) ==> Faultless(initial, script, outcome))
    ensures |had| <= |Tables(script)| && Misses(initial, Tables(script), had) <= fs.misreads - old(fs.misreads)
    ensures fs.misreads == old(fs.misreads) ==> Honest(initial, Tables(script), had)
    ensures Managed(fs.world, managed.items, BufferName(stamp))
    ensures old(fs.trace) <= fs.trace && TraceSafe(fs.trace, |old(fs.trace)|, initial, Tables(script), had)
  {
    hide CommitRun, Settled, Faultless, SafeWorld, Swapped, HadOriginal, Honest;
    ghost var w0, names := fs.world, touched.items;
    TouchedFacts(script, |script|);
    var backupNames := new StringList();
    var committed, hadOriginal;
    committed, hadOriginal, had := CommitStagedCsvs(fs, touched, managed, backupNames);
    ghost var honest := fs.misreads == old(fs.misreads) && Executed(initial, script, w0, buffer.bytes, stamp);
    if committed != Committed {
      if honest {
        FailedCommitSettles(initial, script, w0, fs.world, buffer.bytes, stamp, committed, had);
        if fs.faults == old(fs.faults) {
          StoppedCommitIsFaultless(initial, script, w0, fs.world, buffer.bytes, stamp, had);
        }
      }
      return CommitFailed(committed), had;
    }
    ghost var w1, t1 := fs.world, fs.trace;
    if honest { FullCommitSettles(initial, script, w0, w1, buffer.bytes, stamp, had); }
    outcome := CopyOutput(fs, touched, backupNames, hadOriginal, buffer, out, initial, had);
    SafeInSequence(t1, fs.trace, |old(fs.trace)|, initial, names, had, had);
    if fs.misreads == old(fs.misreads) { HonestRemainder(initial, script, outcome, names, had, fs.world.data); }
  }

  lemma HonestRemainder(initial: Dir, script: seq<Statement>, outcome: Outcome, names: seq<string>,
                        had: seq<bool>, data: Dir)
    requires Honest(initial, names, had)
    ensures outcome.OutputFailed? && RunScript(initial, script).Ok?
            && (outcome == OutputFailed(true) ==> data == Remaining(initial, names, had)) ==>
              Settled(initial, script, outcome, data)
  {
    HonestRemains(initial, names, had);
  }

  /** create_stage_dir and create_temp_file_in_dir */
  method PrepareStage(fs: FileSystem, stamp: string) returns (ok: bool)
    requires fs.world.stage == map[]
    modifies fs`world, fs`faults, fs`lastFailed, fs`trace
    ensures fs.faults == if ok then old(fs.faults) else old(fs.faults) + 1
    ensures !ok ==> fs.lastFailed.MakingStage? || fs.lastFailed.Creating?
    ensures fs.world.data == old(fs.world).data
    ensures fs.world.stage.Keys == if ok then {BufferName(stamp)} else {}
    ensures old(fs.trace) <= fs.trace && TraceKeepsData(fs.trace, |old(fs.trace)|, old(fs.world).data)
  {
    ok := fs.Works(MakingStage);
    if !ok { return; }
    ok := fs.Create(Stage, BufferName(stamp));
  }

  /** How far the output of a run has come: all of it on success, a prefix when the output fails, else none. */
  ghost predicate OutputFits(initial: Dir, script: seq<Statement>, outcome: Outcome, before: string, after: string) {
    match RunScript(initial, script)
    case Err(_) => after == before
    case Ok(ran) =>
      if outcome == Done then after == before + ran.output
      else if outcome.OutputFailed? then Printed(before, after, ran.output)
      else after == before
  }

  /** execute_script with a stage directory, up to its clean-up. */
  method ExecuteStaged(fs: FileSystem, script: seq<Statement>, stamp: string, managed: StringList, out: File)
    returns (outcome: Outcome, ghost had: seq<bool>)
    requires fs.world.stage == map[] && managed.items == [] && out.AtEnd()
    modifies fs, managed, out
    ensures out.AtEnd() && fs.faults >= old(fs.faults) && fs.misreads >= old(fs.misreads) && outcome != EmptyScript
    ensures fs.misreads == old(fs.misreads) ==>
              && Settled(old(fs.world).data, script, outcome, fs.world.data)
              && OutputFits(old(fs.world).data, script, outcome, old(out.bytes), out.bytes)
              && (fs.faults == old(fs.faults) ==> Faultless(old(fs.world).data, script, outcome))
    ensures FailedBy(outcome, fs.faults - old(fs.faults), fs.lastFailed, Tables(script))
    ensures old(out.bytes) <= out.bytes && (outcome != Done && !outcome.OutputFailed? ==> out.bytes == old(out.bytes))
    ensures |had| <= |Tables(script)|
    ensures Misses(old(fs.world).data, Tables(script), had) <= fs.misreads - old(fs.misreads)
    ensures fs.misreads == old(fs.misreads) ==> Honest(old(fs.world).data, Tables(script), had)
    ensures Managed(fs.world, managed.items, BufferName(stamp))
    ensures old(fs.trace) <= fs.trace
    ensures TraceSafe(fs.trace, |old(fs.trace)|, old(fs.world).data, Tables(script), had)
  {
    hide Faultless, SafeWorld, CommitRun, HadOriginal;
    ghost var initial, from := fs.world.data, |fs.trace|;
    had := [];
    var ok := PrepareStage(fs, stamp);
    if !ok {
      SafeUpToCommit(fs.trace, fs.trace, from, initial, Tables(script), had);
      return SetupFailed, had;
    }
    var buffer := new File("");
    var touched := new StringList();
    ghost var direct;
    var failed;
    failed, direct := RunStaged(fs, script, touched, managed, buffer, stamp);
    ghost var before := fs.trace;
    assert TraceKeepsData(before, from, initial);
    if failed.Some? {
      SafeUpToCommit(before, before, from, initial, Tables(script), had);
      if fs.misreads == old(fs.misreads) && fs.faults == old(fs.faults) {
        StatementFailureIsFaultless(initial, script, failed.value);
      }
      return StatementFailed(failed.value), had;
    }
    if fs.misreads == old(fs.misreads) { ProgressDone(initial, script, direct, buffer.bytes); }
    outcome, had := CommitAndPrint(fs, script, touched, managed, buffer, out, initial, stamp);
    SafeUpToCommit(before, fs.trace, from, initial, Tables(script), had);
  }

  lemma StatementFailureIsFaultless(initial: Dir, script: seq<Statement>, code: ErrorCode)
    requires RunScript(initial, script) == Err(code)
    ensures Faultless(initial, script, StatementFailed(code))
  {
  }

  /** A script of SELECTs has no tables to commit. */
  lemma {:induction false} NothingTouched(script: seq<Statement>, k: nat)
    requires !NeedsStaging(script) && k <= |script|
    ensures Touched(script, k) == []
  {
    if k > 0 { NothingTouched(script, k - 1); }
  }

  lemma SelectsSettle(initial: Dir, script: seq<Statement>, outcome: Outcome)
    requires !NeedsStaging(script) && RunScript(initial, script).Ok? && RunScript(initial, script).value.dir == initial
    requires outcome == Done || outcome == OutputFailed(true)
    ensures Settled(initial, script, outcome, initial)
    ensures Faultless(initial, script, Done)
  {
    NothingTouched(script, |script|);
  }

  /** execute_script for a script of SELECTs: only the buffer file appears in the data directory. */
  method ExecuteUnstaged(fs: FileSystem, script: seq<Statement>, stamp: string, out: File) returns (outcome: Outcome)
    requires !NeedsStaging(script) && BufferName(stamp) !in fs.world.data && out.AtEnd()
    modifies fs, out
    ensures out.AtEnd() && fs.faults >= old(fs.faults) && fs.misreads == old(fs.misreads) && outcome != EmptyScript
    ensures fs.faults == old(fs.faults) ==> Faultless(old(fs.world).data, script, outcome) && fs.world == old(fs.world)
    ensures fs.world.data - {BufferName(stamp)} == old(fs.world).data && fs.world.stage == old(fs.world).stage
    ensures Settled(old(fs.world).data, script, outcome, old(fs.world).data)
    ensures OutputFits(old(fs.world).data, script, outcome, old(out.bytes), out.bytes)
    ensures old(out.bytes) <= out.bytes && (outcome != Done && !outcome.OutputFailed? ==> out.bytes == old(out.bytes))
  {
    hide Faultless;
    ghost var initial := fs.world.data;
    assert initial - {BufferName(stamp)} == initial;
    var ok := fs.Create(Data, BufferName(stamp));
    if !ok { return SetupFailed; }
    assert initial[BufferName(stamp) := ""] - {BufferName(stamp)} == initial;
    var buffer := new File("");
    var failed := RunUnstaged(fs, script, buffer, initial, stamp);
    if failed.Some? {
      outcome := StatementFailed(failed.value);
      if fs.faults == old(fs.faults) { StatementFailureIsFaultless(initial, script, failed.value); }
    } else {
      var copied := FlushAndCopyOutput(fs, buffer, out);
      outcome := if copied then Done else OutputFailed(true);
      SelectsSettle(initial, script, outcome);
    }
    var _ := fs.Remove(Data, BufferName(stamp));
  }

  /** execute_script, for every script and every directory.
      An honest run leaves what Settled says, prints what OutputFits says, and when no call fails ends as
      Faultless says; SettledForCaller and FaultlessForCaller put that in a caller's terms. In every run, until
      the clean-up begins at trace index settledAt, no original is lost but those of tables that were
      replaced after their probe had missed them, at most one for each miss, and in an honest run none at
      all; a clean-up whose removals work empties the stage directory. FailedBy says which call has failed
      before the clean-up: a single one leaves the initial directory, but at an early exit. */
  method ExecuteScript(fs: FileSystem, script: seq<Statement>, stamp: string, out: File)
    returns (outcome: Outcome, ghost settledAt: nat, ghost faultsAtCleanup: nat, ghost failed: Call,
             ghost had: seq<bool>)
    requires fs.world.stage == map[] && BufferName(stamp) !in fs.world.data && out.AtEnd()
    modifies fs, out
    ensures outcome == EmptyScript <==> script == []
    ensures script == [] ==> fs.world == old(fs.world)
    ensures var initial := old(fs.world).data;
            var data := if NeedsStaging(script) then fs.world.data else fs.world.data - {BufferName(stamp)};
            fs.misreads == old(fs.misreads) && script != [] ==>
              && Settled(initial, script, outcome, data) && SettledForCaller(initial, script, outcome, data)
              && OutputFits(initial, script, outcome, old(out.bytes), out.bytes)
              && (fs.faults == old(fs.faults) ==>
                    && Faultless(initial, script, outcome) && FaultlessForCaller(initial, script, outcome, data)
                    && fs.world.data == data)
    ensures old(out.bytes) <= out.bytes && (outcome != Done && !outcome.OutputFailed? ==> out.bytes == old(out.bytes))
    ensures fs.faults == faultsAtCleanup ==> fs.world.stage == map[]
    ensures NeedsStaging(script) ==> FailedBy(outcome, faultsAtCleanup - old(fs.faults), failed, Tables(script))
    ensures NeedsStaging(script) && fs.misreads == old(fs.misreads) && faultsAtCleanup == old(fs.faults) + 1 ==>
              fs.world.data == old(fs.world).data || StoppedEarly(outcome, failed, Tables(script))
    ensures NeedsStaging(script) ==>
              && |old(fs.trace)| <= settledAt <= |fs.trace| && |had| <= |Tables(script)|
              && Misses(old(fs.world).data, Tables(script), had) <= fs.misreads - old(fs.misreads)
              && TraceSafe(fs.trace[..settledAt], |old(fs.trace)|, old(fs.world).data, Tables(script), had)
              && (fs.misreads == old(fs.misreads) ==>
                    TraceSafe(fs.trace[..settledAt], |old(fs.trace)|, old(fs.world).data, Tables(script), []))
  {
    hide Settled, SettledForCaller, Faultless, FaultlessForCaller, FailedBy, OutputFits, SafeWorld, TraceSafe;
    settledAt, faultsAtCleanup, failed, had := |fs.trace|, fs.faults, fs.lastFailed, [];
    if |script| == 0 {
      return EmptyScript, settledAt, faultsAtCleanup, failed, had;
    }
    var needsStaging := false;
    for i := 0 to |script|
      invariant !needsStaging && forall k :: 0 <= k < i ==> script[k].Select?
    {
      if script[i].Insert? {
        needsStaging := true;
        break;
      }
    }
    ghost var initial := fs.world.data;
    if needsStaging {
      var managed := new StringList();
      outcome, had := ExecuteStaged(fs, script, stamp, managed, out);
      settledAt, faultsAtCleanup, failed := |fs.trace|, fs.faults, fs.lastFailed;
      ghost var settled := fs.trace;
      if fs.misreads == old(fs.misreads) {
        SettledMeans(initial, script, outcome, fs.world.data);
        if fs.faults == old(fs.faults) { FaultlessMeans(initial, script, outcome, fs.world.data); }
        if fs.faults == old(fs.faults) + 1 {
          OneFailureRestores(initial, script, outcome, fs.world.data, failed);
        }
        HonestIsSafe(settled, |old(fs.trace)|, initial, Tables(script), had);
      }
      CleanupStageDir(fs, managed, BufferName(stamp));
      assert fs.trace[..settledAt] == settled;
    } else {
      outcome := ExecuteUnstaged(fs, script, stamp, out);
      SettledMeans(initial, script, outcome, initial);
      if Faultless(initial, script, outcome) { FaultlessMeans(initial, script, outcome, initial); }
    }
  }
}
