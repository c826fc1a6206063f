/** commit_staged_csvs and rollback_committed_csvs on a file system whose operations may fail and whose
    existence probe may miss a file. */
module CommitIo {
  import opened SqlTypes
  import opened Files
  import opened Commit

  class StringList {
    var items: seq<string>

    constructor ()
      ensures items == []
    {
      items := [];
    }

    /** append_unique_string */
    method AppendUnique(text: string)
      modifies this
      ensures items == if text in old(items) then old(items) else old(items) + [text]
    {
      for i := 0 to |items|
        invariant items == old(items) && text !in items[..i]
      {
        if items[i] == text { return; }
      }
      items := items + [text];
    }
  }

  /** The stage holds nothing that was not there before or is not listed for the clean-up. */
  ghost predicate StageWithin(before: Dir, w: World, managed: seq<string>) {
    forall f :: f in w.stage ==> f in before || f in managed
  }

  lemma StageStillWithin(before: Dir, w: World, w': World, managed: seq<string>, name: string)
    requires StageWithin(before, w, managed) && SameBut(w, w', Stage, name) && name in managed
    ensures StageWithin(before, w', managed)
  {
    forall f | f in w'.stage
      ensures f in before || f in managed
    {
      if f != name { assert f in w'.stage - {name}; }
    }
  }

  /** remove_file_if_exists on a target in the data directory: a target that the probe misses stays. */
  method RemoveTarget(fs: FileSystem, name: string) returns (ok: bool)
    modifies fs
    ensures fs.faults >= old(fs.faults) && (fs.faults == old(fs.faults) ==> ok)
    ensures fs.faults == old(fs.faults) ==> fs.lastFailed == old(fs.lastFailed)
    ensures fs.misreads >= old(fs.misreads)
    ensures fs.world == if ok && fs.misreads == old(fs.misreads) then old(fs.world).Unset(Data, name) else old(fs.world)
    ensures fs.trace == old(fs.trace) || fs.trace == old(fs.trace) + [fs.world]
  {
    var found := fs.Exists(Data, name);
    if !found {
      assert name !in fs.world.data ==> fs.world.data - {name} == fs.world.data;
      return true;
    }
    ok := fs.Remove(Data, name);
  }

  // ---------- rollback ----------

  lemma TargetRemoved(original: Dir, w: World, w': World, names: seq<string>, had: seq<bool>, i: nat)
    requires Distinct(names) && i < |had| <= |names| && Shielded(original, w, names, had, i + 1)
    requires w' == w || w' == w.Unset(Data, names[i])
    ensures Shielded(original, w', names, had, i + 1)
    ensures !had[i] ==> Shielded(original, w', names, had, i)
  {
    forall j | i < j < |names|
      ensures Lookup(w'.data, names[j]) == Lookup(w.data, names[j])
    {
    }
  }

  lemma BackupReturns(original: Dir, w: World, w': World, names: seq<string>, had: seq<bool>, i: nat)
    requires Distinct(names) && i < |had| <= |names| && had[i] && Shielded(original, w, names, had, i + 1)
    requires BackupName(i) in w.stage
    requires w' == w.Set(Data, names[i], w.stage[BackupName(i)]).Unset(Stage, BackupName(i))
    ensures Shielded(original, w', names, had, i)
  {
    forall j | 0 <= j < i && had[j]
      ensures Lookup(w'.stage, BackupName(j)) == Lookup(w.stage, BackupName(j))
    {
      ReservedNamesDiffer(i, j);
    }
    assert Lookup(w.stage, BackupName(i)) == Some(original[names[i]]);
  }

  /** With a working probe the round has done what Unswap does, target removed or restored. */
  lemma RoundBack(original: Dir, w: World, names: seq<string>, had: seq<bool>, i: nat)
    requires i < |had| <= |names| && Backups(original, w, names, had, i + 1)
    ensures had[i] ==> BackupName(i) in w.stage
    ensures Unswap(w, names[i], i, had[i]) ==
            if had[i] then w.Set(Data, names[i], w.stage[BackupName(i)]).Unset(Stage, BackupName(i))
            else w.Unset(Data, names[i])
  {
    if had[i] {
      assert Lookup(w.stage, BackupName(i)) == Some(original[names[i]]);
      assert (w.data - {names[i]})[names[i] := w.stage[BackupName(i)]] == w.data[names[i] := w.stage[BackupName(i)]];
    }
  }

  /** One round of rollback_committed_csvs: the table goes from swapped in to its original. */
  method RollBackTable(fs: FileSystem, name: string, backupName: string, hadOriginal: bool,
                       ghost original: Dir, ghost names: seq<string>, ghost had: seq<bool>, ghost i: nat)
    returns (ok: bool)
    requires Distinct(names) && i < |had| <= |names| && Shielded(original, fs.world, names, had, i + 1)
    requires name == names[i] && backupName == BackupName(i) && hadOriginal == had[i]
    modifies fs
    ensures fs.faults >= old(fs.faults) && (fs.faults == old(fs.faults) ==> ok)
    ensures fs.faults == old(fs.faults) ==> fs.lastFailed == old(fs.lastFailed)
    ensures fs.misreads >= old(fs.misreads)
    ensures ok ==> Shielded(original, fs.world, names, had, i)
    ensures ok && fs.misreads == old(fs.misreads) ==> fs.world == Unswap(old(fs.world), name, i, hadOriginal)
    ensures forall f :: f in fs.world.stage ==> f in old(fs.world).stage
    ensures old(fs.trace) <= fs.trace && TraceSafe(fs.trace, |old(fs.trace)|, original, names, had)
  {
    ghost var w := fs.world;
    RoundBack(original, w, names, had, i);
    ok := RemoveTarget(fs, name);
    TargetRemoved(original, w, fs.world, names, had, i);
    ShieldedIsSafe(original, fs.world, names, had, i + 1);
    if ok && hadOriginal {
      ghost var w1 := fs.world;
      ok := fs.Move(Stage, backupName, Data, name);
      if ok {
        BackupReturns(original, w1, fs.world, names, had, i);
        ShieldedIsSafe(original, fs.world, names, had, i);
        assert w1.data[name := w.stage[backupName]] == w.data[name := w.stage[backupName]];
      }
    }
  }

  /** rollback_committed_csvs: undoes the first count swaps in reverse order. When no probe misses a target,
      success brings back every original that a backup was made of, and removes every new table. */
  method RollbackCommittedCsvs(fs: FileSystem, touched: StringList, backupNames: StringList, hadOriginal: array<bool>,
                               count: nat, ghost original: Dir, ghost had: seq<bool>)
    returns (ok: bool)
    requires Distinct(touched.items) && count == |had| <= |touched.items|
    requires Swapped(original, fs.world, touched.items, had)
    requires count <= |backupNames.items| && forall j :: 0 <= j < count ==> backupNames.items[j] == BackupName(j)
    requires count <= hadOriginal.Length && hadOriginal[..count] == had
    modifies fs
    ensures fs.faults >= old(fs.faults) && (fs.faults == old(fs.faults) ==> ok)
    ensures fs.faults == old(fs.faults) ==> fs.lastFailed == old(fs.lastFailed)
    ensures fs.misreads >= old(fs.misreads)
    ensures ok && fs.misreads == old(fs.misreads) ==> fs.world.data == Remaining(original, touched.items, had)
    ensures forall f :: f in fs.world.stage ==> f in old(fs.world).stage
    ensures old(fs.trace) <= fs.trace && TraceSafe(fs.trace, |old(fs.trace)|, original, touched.items, had)
  {
    ghost var names := touched.items;
    SwappedIsShielded(original, fs.world, names, had);
    RemainingBeyond(original, fs.world, names, had);
    var i := count;
    while i > 0
      invariant 0 <= i <= count && hadOriginal[..count] == had
      invariant fs.faults >= old(fs.faults) && fs.misreads >= old(fs.misreads)
      invariant fs.faults == old(fs.faults) ==> fs.lastFailed == old(fs.lastFailed)
      invariant Shielded(original, fs.world, names, had, i)
      invariant fs.misreads == old(fs.misreads) ==> AgreesBeyond(Remaining(original, names, had), fs.world, names, i)
      invariant forall f :: f in fs.world.stage ==> f in old(fs.world).stage
      invariant old(fs.trace) <= fs.trace && TraceSafe(fs.trace, |old(fs.trace)|, original, names, had)
    {
      var index := i - 1;
      assert hadOriginal[..count][index] == hadOriginal[index];
      ghost var w, honest := fs.world, fs.misreads == old(fs.misreads);
      ok := RollBackTable(fs, touched.items[index], backupNames.items[index], hadOriginal[index],
                          original, names, had, index);
      if !ok { return; }
      if honest { UnswapGoesBack(original, w, names, had, index); }
      i := index;
    }
    if fs.misreads == old(fs.misreads) { SameLookups(fs.world.data, Remaining(original, names, had)); }
    ok := true;
  }

  // ---------- commit ----------

  datatype Step = Replaced | CopyFailed | BackupFailed | Restored | RestoreFailed

  /** The replace of the next table, with the local restore when it fails. */
  method ReplaceTable(fs: FileSystem, name: string, i: nat, seen: bool,
                      ghost original: Dir, ghost names: seq<string>, ghost had: seq<bool>)
    returns (step: Step)
    requires Distinct(names) && i == |had| < |names| && name == names[i] && TempName(i) in fs.world.stage
    requires Swapped(original, fs.world, names, had + [seen])
    requires if seen then name in original else Swapped(original, fs.world, names, had)
    modifies fs`world, fs`faults, fs`lastFailed, fs`trace
    ensures fs.faults >= old(fs.faults) && (fs.faults == old(fs.faults) <==> step == Replaced)
    ensures step in {Replaced, Restored, RestoreFailed}
    ensures step == Replaced ==>
              && fs.world == old(fs.world).Set(Data, name, old(fs.world).stage[TempName(i)]).Unset(Stage, TempName(i))
              && Swapped(original, fs.world, names, had + [seen])
    ensures step == Restored ==>
              && Swapped(original, fs.world, names, had)
              && fs.world.data == if seen then old(fs.world).data[name := original[name]] else old(fs.world).data
    ensures step == RestoreFailed ==> seen && fs.world == old(fs.world) && fs.faults >= old(fs.faults) + 2
    ensures step == Restored ==>
              fs.faults == old(fs.faults) + 1 && fs.lastFailed == Moving(Stage, TempName(i), Data, name)
    ensures forall f :: f in fs.world.stage ==> f in old(fs.world).stage
    ensures old(fs.trace) <= fs.trace
    ensures TraceSafe(fs.trace, |old(fs.trace)|, original, names, if step == Replaced then had + [seen] else had)
  {
    ghost var w := fs.world;
    SwappedIsSafe(original, w, names, had + [seen]);
    if seen { SafeWithSeen(original, w, names, had); } else { SwappedIsSafe(original, w, names, had); }
    var replaced := fs.Move(Stage, TempName(i), Data, name);
    if replaced {
      ReplacedStaysSwapped(original, w, fs.world, names, had + [seen], name);
      SwappedIsSafe(original, fs.world, names, had + [seen]);
      return Replaced;
    }
    if seen {
      assert (had + [true])[i] && Lookup(w.stage, BackupName(i)) == Some(original[name]);
      var restored := fs.Move(Stage, BackupName(i), Data, name);
      if !restored { return RestoreFailed; }
      BackupRestores(original, w, fs.world, names, had);
      SwappedIsSafe(original, fs.world, names, had);
    }
    step := Restored;
  }

  lemma ReplacedStaysSwapped(original: Dir, w: World, w': World, names: seq<string>, had: seq<bool>, name: string)
    requires had != [] && Swapped(original, w, names, had) && name == names[|had| - 1]
    requires TempName(|had| - 1) in w.stage
    requires w' == w.Set(Data, name, w.stage[TempName(|had| - 1)]).Unset(Stage, TempName(|had| - 1))
    ensures Swapped(original, w', names, had)
  {
    var i := |had| - 1;
    var w1 := w.Unset(Stage, TempName(i));
    assert w1.stage - {TempName(i)} == w.stage - {TempName(i)};
    TempChanges(original, w, w1, names, had, i);
    TargetChanges(original, w1, w', names, had);
  }

  /** The backup of the original that the probe has seen, if it has seen one. */
  method BackUpTable(fs: FileSystem, name: string, i: nat,
                     ghost original: Dir, ghost names: seq<string>, ghost had: seq<bool>)
    returns (ok: bool, seen: bool)
    requires Distinct(names) && i == |had| < |names| && name == names[i] && Swapped(original, fs.world, names, had)
    modifies fs
    ensures fs.faults >= old(fs.faults) && (fs.faults == old(fs.faults) <==> ok) && fs.misreads >= old(fs.misreads)
    ensures !ok ==>
              seen && fs.faults == old(fs.faults) + 1 && fs.lastFailed == Moving(Data, name, Stage, BackupName(i))
    ensures seen <==> name in original && fs.misreads == old(fs.misreads)
    ensures name !in original ==> fs.misreads == old(fs.misreads)
    ensures Lookup(original, name) == Lookup(old(fs.world).data, name)
    ensures ok ==>
              && Swapped(original, fs.world, names, had + [seen]) && (seen || Swapped(original, fs.world, names, had))
              && fs.world == if !seen then old(fs.world)
                             else old(fs.world).Set(Stage, BackupName(i), old(fs.world).data[name]).Unset(Data, name)
    ensures !ok ==> fs.world == old(fs.world)
    ensures old(fs.trace) <= fs.trace && TraceSafe(fs.trace, |old(fs.trace)|, original, names, had)
  {
    ghost var w := fs.world;
    InNames(names, i, i);
    assert Lookup(w.data, name) == Lookup(original, name);
    SwappedIsSafe(original, w, names, had);
    seen := fs.Exists(Data, name);
    if !seen {
      NothingToBackUp(original, w, names, had);
      return true, false;
    }
    ok := fs.Move(Data, name, Stage, BackupName(i));
    if ok {
      BackupMoves(original, w, fs.world, names, had);
      SwappedIsSafe(original, fs.world, names, had + [true]);
      SafeWithSeen(original, fs.world, names, had);
    }
  }

  /** Which call has failed in a round that does not go through: the copy or the backup at the early exits, the
      replace when there is something to undo; and an undo that did not work has had a failure of its own. */
  ghost predicate StepFailedBy(step: Step, faults: int, failed: Call, name: string, i: nat) {
    match step
    case Replaced => true
    case CopyFailed => faults == 0 || (faults == 1 && failed == Copying(Stage, name, Stage, TempName(i)))
    case BackupFailed => faults == 1 && failed == Moving(Data, name, Stage, BackupName(i))
    case Restored => faults == 1 && failed == Moving(Stage, TempName(i), Data, name)
    case RestoreFailed => faults >= 2
  }

  /** One round of commit_staged_csvs up to the local restore: it does what Swap does, or, unless the restore
      fails, leaves the data directory as it was. The probe misses the original exactly when a misread is
      counted, and only a round that has missed it and then replaced it takes it out of what is safe. */
  method CommitTable(fs: FileSystem, name: string, i: nat,
                     ghost original: Dir, ghost names: seq<string>, ghost had: seq<bool>, ghost managed: seq<string>)
    returns (step: Step, seen: bool)
    requires Distinct(names) && i == |had| < |names| && name == names[i] && Swapped(original, fs.world, names, had)
    requires BackupName(i) in managed && TempName(i) in managed
    modifies fs
    ensures fs.faults >= old(fs.faults) && fs.misreads >= old(fs.misreads)
    ensures fs.faults == old(fs.faults) <==>
              step == Replaced || (name !in old(fs.world).stage && step == CopyFailed && fs.world == old(fs.world))
    ensures step == Replaced ==>
              && name in old(fs.world).stage && fs.world == Swap(old(fs.world), name, i, seen)
              && (seen <==> name in original && fs.misreads == old(fs.misreads))
              && (fs.misreads > old(fs.misreads) ==> name in original)
              && Swapped(original, fs.world, names, had + [seen])
    ensures step in {CopyFailed, BackupFailed, Restored} ==>
              fs.world.data == old(fs.world).data && Swapped(original, fs.world, names, had)
    ensures StepFailedBy(step, fs.faults - old(fs.faults), fs.lastFailed, name, i)
    ensures name in old(fs.world).stage && CanBeLost(old(fs.world), name, i) ==>
              (Kept(old(fs.world), fs.world, name, i) <==> !(step == Replaced && fs.misreads > old(fs.misreads)))
    ensures forall f :: f in fs.world.stage ==> f in old(fs.world).stage || f in managed
    ensures old(fs.trace) <= fs.trace
    ensures TraceSafe(fs.trace, |old(fs.trace)|, original, names, if step == Replaced then had + [seen] else had)
  {
    hide SafeWorld, AgreesBeyond, Distinct;
    ghost var w := fs.world;
    var copied := fs.Copy(Stage, name, Stage, TempName(i));
    TempChanges(original, w, fs.world, names, had, i);
    SwappedIsSafe(original, fs.world, names, had);
    StageStillWithin(w.stage, w, fs.world, managed, TempName(i));
    if !copied { return CopyFailed, false; }
    ghost var w1 := fs.world;
    var backedUp;
    backedUp, seen := BackUpTable(fs, name, i, original, names, had);
    if !backedUp { return BackupFailed, seen; }
    ghost var w2, t2 := fs.world, fs.trace;
    ReservedNamesDiffer(i, i);
    step := ReplaceTable(fs, name, i, seen, original, names, had);
    SafeInSequence(t2, fs.trace, |old(fs.trace)|, original, names, had, if step == Replaced then had + [seen] else had);
    if step == Restored && seen { assert fs.world.data == w.data; }
    if step == Replaced && CanBeLost(w, name, i) { OriginalLostIffMissed(w, name, i, seen); }
  }

  lemma SafeInSequence(t: seq<World>, t': seq<World>, from: nat, original: Dir, names: seq<string>,
                       had: seq<bool>, more: seq<bool>)
    requires t <= t' && from <= |t| && had <= more
    requires TraceSafe(t, from, original, names, had) && TraceSafe(t', |t|, original, names, more)
    ensures TraceSafe(t', from, original, names, more)
  {
    TraceSafeWithMore(t, from, original, names, had, more);
    forall k | from <= k < |t'|
      ensures SafeWorld(original, t'[k], names, more)
    {
      if k < |t| { assert t'[k] == t[k]; }
    }
  }

  function BackupNames(n: nat): seq<string> {
    if n == 0 then [] else BackupNames(n - 1) + [BackupName(n - 1)]
  }

  /** Unique-append never drops a backup name, so backup j stays at index j. */
  lemma {:induction false} BackupNamesAligned(n: nat)
    ensures |BackupNames(n)| == n
    ensures forall j :: 0 <= j < n ==> BackupNames(n)[j] == BackupName(j)
    ensures BackupName(n) !in BackupNames(n)
  {
    hide BackupName;
    if n > 0 {
      BackupNamesAligned(n - 1);
      ReservedNamesDiffer(n, n - 1);
      forall j | 0 <= j < n
        ensures BackupNames(n)[j] != BackupName(n)
      {
        ReservedNamesDiffer(j, n);
      }
    }
  }

  /** The bookkeeping at the head of a commit round. */
  method RegisterNames(managed: StringList, backupNames: StringList, i: nat)
    requires managed != backupNames && backupNames.items == BackupNames(i)
    modifies managed, backupNames
    ensures backupNames.items == BackupNames(i + 1)
    ensures BackupName(i) in managed.items && TempName(i) in managed.items
    ensures forall f :: f in old(managed.items) ==> f in managed.items
  {
    BackupNamesAligned(i);
    backupNames.AppendUnique(BackupName(i));
    managed.AppendUnique(BackupName(i));
    managed.AppendUnique(TempName(i));
  }

  /** How commit_staged_csvs ends; the index is the table whose round failed. */
  datatype CommitOutcome =
    | Committed
    | CopyStopped(i: nat)
    | BackupStopped(i: nat)
    | RolledBack(i: nat)
    | UndoFailed

  /** k rounds of the commit from w0 are done and have brought the world to w; no round has failed. */
  ghost predicate Committing(w0: World, w: World, names: seq<string>, had: seq<bool>, k: nat) {
    && Distinct(names) && k == |had| <= |names|
    && CommitRun(w0, names, had, k) == Run(w, k) && Swapped(w0.data, w, names, had)
  }

  ghost predicate Honest(data: Dir, names: seq<string>, had: seq<bool>) {
    |had| <= |names| && had == HadOriginal(data, names)[..|had|]
  }

  lemma CommittingStarts(w: World, names: seq<string>)
    requires Distinct(names)
    ensures Committing(w, w, names, [], 0) && Misses(w.data, names, []) == 0 && Honest(w.data, names, [])
    ensures forall trace, from: nat :: |trace| <= from ==> TraceSafe(trace, from, w.data, names, [])
    ensures BackupNames(0) == []
  {
  }

  lemma CommittingNext(w0: World, w: World, names: seq<string>, had: seq<bool>, k: nat, seen: bool)
    requires Committing(w0, w, names, had, k) && k < |names| && names[k] in w.stage
    requires Swapped(w0.data, Swap(w, names[k], k, seen), names, had + [seen])
    ensures Committing(w0, Swap(w, names[k], k, seen), names, had + [seen], k + 1)
  {
    RunPrefixOfHad(w0, names, had, had + [seen], k);
  }

  lemma HonestNext(data: Dir, names: seq<string>, had: seq<bool>, seen: bool)
    requires Honest(data, names, had) && |had| < |names| && seen == (names[|had|] in data)
    ensures Honest(data, names, had + [seen])
  {
    var all := HadOriginal(data, names);
    assert all[..|had| + 1] == all[..|had|] + [all[|had|]];
  }

  /** What a failed round leaves: the first i rounds done at the early exits, the old data after a rollback. */
  ghost predicate RoundFailed(stop: CommitOutcome, w0: World, w: World, names: seq<string>, had: seq<bool>,
                              i: nat, honest: bool)
    requires i == |had| <= |names|
  {
    match stop
    case CopyStopped(j) => i == j < |names| && w.data == CommitRun(w0, names, had, i).world.data
    case BackupStopped(j) => i == j < |names| && w.data == CommitRun(w0, names, had, i).world.data
    case RolledBack(j) => i == j < |names| && (honest ==> w.data == w0.data)
    case UndoFailed => true
    case Committed => false
  }

  /** The same for the whole commit: each outcome but success comes from the call that it is named after. */
  ghost predicate CommitFailedBy(stop: CommitOutcome, faults: int, failed: Call, names: seq<string>) {
    match stop
    case Committed => faults == 0
    case CopyStopped(i) =>
      faults == 0 || (faults == 1 && i < |names| && failed == Copying(Stage, names[i], Stage, TempName(i)))
    case BackupStopped(i) => faults == 1 && i < |names| && failed == Moving(Data, names[i], Stage, BackupName(i))
    case RolledBack(i) =>
      faults >= 1 && i < |names| && (faults == 1 ==> failed == Moving(Stage, TempName(i), Data, names[i]))
    case UndoFailed => faults >= 2
  }

  /** One whole round of commit_staged_csvs; None when the loop goes on. */
  method CommitRound(fs: FileSystem, touched: StringList, managed: StringList, backupNames: StringList,
                     hadOriginal: array<bool>, i: nat, ghost w0: World, ghost had: seq<bool>)
    returns (stop: Option<CommitOutcome>, ghost seen: bool)
    requires touched != managed && touched != backupNames && managed != backupNames
    requires i < |touched.items| == hadOriginal.Length && hadOriginal[..i] == had
    requires Committing(w0, fs.world, touched.items, had, i) && StageWithin(w0.stage, fs.world, managed.items)
    requires backupNames.items == BackupNames(i)
    modifies fs, managed, backupNames, hadOriginal
    ensures fs.faults >= old(fs.faults) && fs.misreads >= old(fs.misreads)
    ensures fs.faults == old(fs.faults) <==>
              || stop == None
              || (stop == Some(CopyStopped(i)) && touched.items[i] !in old(fs.world).stage && fs.world == old(fs.world))
    ensures stop == None ==>
              && Committing(w0, fs.world, touched.items, had + [seen], i + 1)
              && (seen <==> touched.items[i] in w0.data && fs.misreads == old(fs.misreads))
              && backupNames.items == BackupNames(i + 1) && hadOriginal[..i + 1] == had + [seen]
    ensures stop.Some? ==>
              RoundFailed(stop.value, w0, fs.world, touched.items, had, i,
                          fs.misreads == old(fs.misreads) && Honest(w0.data, touched.items, had))
    ensures stop.Some? ==> CommitFailedBy(stop.value, fs.faults - old(fs.faults), fs.lastFailed, touched.items)
    ensures StageWithin(w0.stage, fs.world, managed.items)
    ensures forall f :: f in old(managed.items) ==> f in managed.items
    ensures old(fs.trace) <= fs.trace
    ensures TraceSafe(fs.trace, |old(fs.trace)|, w0.data, touched.items, if stop == None then had + [seen] else had)
  {
    hide Swap, Swapped, SafeWorld, TraceSafe, HadOriginal, CommitRun, Remaining, TempName, BackupName;
    ghost var w, names := fs.world, touched.items;
    RegisterNames(managed, backupNames, i);
    var step, saw := CommitTable(fs, touched.items[i], i, w0.data, touched.items, had, managed.items);
    seen := saw;
    hadOriginal[i] := saw;
    assert hadOriginal[..i] == had;
    match step
    case CopyFailed => return Some(CopyStopped(i)), saw;
    case BackupFailed => return Some(BackupStopped(i)), saw;
    case RestoreFailed => return Some(UndoFailed), saw;
    case Restored =>
      BackupNamesAligned(i + 1);
      ghost var t := fs.trace;
      var undone := RollbackCommittedCsvs(fs, touched, backupNames, hadOriginal, i, w0.data, had);
      SafeInSequence(t, fs.trace, |old(fs.trace)|, w0.data, names, had, had);
      if Honest(w0.data, names, had) { HonestRemains(w0.data, names, had); }
      return Some(if undone then RolledBack(i) else UndoFailed), saw;
    case Replaced =>
      CommittingNext(w0, w, names, had, i, saw);
      assert hadOriginal[..i + 1] == had + [saw];
      return None, saw;
  }

  /** commit_staged_csvs. It does the rounds of CommitRun, whatever the table names and the staged contents
      are, as far as its calls work; the two early exits leave the rounds done before; a failed replace
      restores the data directory. Every original is at its target or in its backup all the time, but for
      a table whose probe has missed it and whose replace has worked. */
  method CommitStagedCsvs(fs: FileSystem, touched: StringList, managed: StringList, backupNames: StringList)
    returns (outcome: CommitOutcome, hadOriginal: array<bool>, ghost had: seq<bool>)
    requires touched != managed && touched != backupNames && managed != backupNames
    requires Distinct(touched.items)
    modifies fs, managed, backupNames
    ensures fresh(hadOriginal) && hadOriginal.Length == |touched.items| && |had| <= |touched.items|
    ensures fs.faults >= old(fs.faults) && fs.misreads >= old(fs.misreads)
    ensures CommitFailedBy(outcome, fs.faults - old(fs.faults), fs.lastFailed, touched.items)
    ensures outcome == Committed ==>
              && fs.faults == old(fs.faults)
              && Committing(old(fs.world), fs.world, touched.items, had, |touched.items|)
              && backupNames.items == BackupNames(|touched.items|) && hadOriginal[..] == had
    ensures outcome != Committed ==>
              RoundFailed(outcome, old(fs.world), fs.world, touched.items, had, |had|, fs.misreads == old(fs.misreads))
    ensures fs.faults == old(fs.faults) && outcome != Committed ==>
              && outcome == CopyStopped(|had|) && |had| < |touched.items|
              && CommitRun(old(fs.world), touched.items, had, |had|) == Run(fs.world, |had|)
              && touched.items[|had|] !in fs.world.stage
    ensures outcome.CopyStopped? || outcome.BackupStopped? ==>
              CommitRun(old(fs.world), touched.items, had, |had|).done == |had|
    ensures forall j :: 0 <= j < |had| ==> (had[j] ==> touched.items[j] in old(fs.world).data)
    ensures Misses(old(fs.world).data, touched.items, had) <= fs.misreads - old(fs.misreads)
    ensures fs.misreads == old(fs.misreads) ==> Honest(old(fs.world).data, touched.items, had)
    ensures StageWithin(old(fs.world).stage, fs.world, managed.items)
    ensures forall f :: f in old(managed.items) ==> f in managed.items
    ensures old(fs.trace) <= fs.trace
    ensures TraceSafe(fs.trace, |old(fs.trace)|, old(fs.world).data, touched.items, had)
  {
    hide CommitRun, SafeWorld, TraceSafe, HadOriginal, Swapped, Misses, Distinct, BackupNames;
    ghost var w0, names := fs.world, touched.items;
    backupNames.items := [];
    hadOriginal := new bool[|touched.items|](_ => false);
    had := [];
    CommittingStarts(w0, names);
    for i := 0 to |touched.items|
      invariant touched.items == names && fs.faults == old(fs.faults) && fs.misreads >= old(fs.misreads)
      invariant Committing(w0, fs.world, names, had, i) && StageWithin(w0.stage, fs.world, managed.items)
      invariant backupNames.items == BackupNames(i) && hadOriginal[..i] == had
      invariant forall j :: 0 <= j < |had| ==> (had[j] ==> names[j] in w0.data)
      invariant Misses(w0.data, names, had) <= fs.misreads - old(fs.misreads)
      invariant fs.misreads == old(fs.misreads) ==> Honest(w0.data, names, had)
      invariant forall f :: f in old(managed.items) ==> f in managed.items
      invariant old(fs.trace) <= fs.trace && TraceSafe(fs.trace, |old(fs.trace)|, w0.data, names, had)
    {
      ghost var t := fs.trace;
      ghost var seen;
      var stop;
      stop, seen := CommitRound(fs, touched, managed, backupNames, hadOriginal, i, w0, had);
      SafeInSequence(t, fs.trace, |old(fs.trace)|, w0.data, names, had, if stop == None then had + [seen] else had);
      if stop.Some? { return stop.value, hadOriginal, had; }
      MissesNext(w0.data, names, had, seen);
      if fs.misreads == old(fs.misreads) { HonestNext(w0.data, names, had, seen); }
      had := had + [seen];
    }
    assert hadOriginal[..] == hadOriginal[..|names|];
    outcome := Committed;
  }
}
