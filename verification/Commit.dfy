/** The commit protocol of src/execute.c: touched CSVs are swapped into the data directory one at a time
    through a temp and a backup in the stage directory, and swapped back in reverse order. The sequence had
    holds what the existence probe of each round answered; a probe may miss an original. */
module Commit {
  import opened SqlTypes
  import opened Decimal
  import opened Files

  function BackupName(i: nat): string {
    "__rollback_" + Digits(i) + ".csv"
  }

  function TempName(i: nat): string {
    "__commit_" + Digits(i) + ".csv"
  }

  lemma ReservedNamesDiffer(i: nat, j: nat)
    ensures BackupName(i) != TempName(j)
    ensures i != j ==> BackupName(i) != BackupName(j) && TempName(i) != TempName(j)
  {
    assert BackupName(i)[2] == 'r' && TempName(j)[2] == 'c';
    if BackupName(i) == BackupName(j) {
      var n := |BackupName(i)|;
      assert BackupName(i)[11..n - 4] == Digits(i) && BackupName(j)[11..n - 4] == Digits(j);
      DigitsInjective(i, j);
    }
    if TempName(i) == TempName(j) {
      var n := |TempName(i)|;
      assert TempName(i)[9..n - 4] == Digits(i) && TempName(j)[9..n - 4] == Digits(j);
      DigitsInjective(i, j);
    }
  }

  // ---------- the protocol as functions ----------

  /** One round of commit_staged_csvs on a table that is in the stage. The original is backed up when the
      probe has seen it; a file copied onto itself is truncated first. */
  function Swap(w: World, name: string, i: nat, seen: bool): World
    requires name in w.stage
  {
    var bytes := if name == TempName(i) then "" else w.stage[name];
    var w1 := w.Set(Stage, TempName(i), bytes);
    var w2 := if seen && name in w1.data then w1.Set(Stage, BackupName(i), w1.data[name]).Unset(Data, name) else w1;
    w2.Set(Data, name, bytes).Unset(Stage, TempName(i))
  }

  /** One round of rollback_committed_csvs with working probes. */
  function Unswap(w: World, name: string, i: nat, had: bool): World {
    var w1 := w.Unset(Data, name);
    if had && BackupName(i) in w.stage
    then w1.Set(Data, name, w.stage[BackupName(i)]).Unset(Stage, BackupName(i))
    else w1
  }

  /** The world after the rounds, and how many were done: a round whose table is not in the stage any more
      fails and ends the commit. */
  datatype Run = Run(world: World, done: nat)

  function CommitRun(w: World, names: seq<string>, had: seq<bool>, k: nat): Run
    requires k <= |names| && k <= |had|
  {
    if k == 0 then Run(w, 0)
    else
      var before := CommitRun(w, names, had, k - 1);
      if before.done < k - 1 || names[k - 1] !in before.world.stage then before
      else Run(Swap(before.world, names[k - 1], k - 1, had[k - 1]), k)
  }

  function UnswapAll(w: World, names: seq<string>, had: seq<bool>, k: nat): World
    requires k <= |names| && k <= |had|
    decreases k
  {
    if k == 0 then w else UnswapAll(Unswap(w, names[k - 1], k - 1, had[k - 1]), names, had, k - 1)
  }

  /** What the probes answer when none of them misses a file. */
  function HadOriginal(data: Dir, names: seq<string>): (had: seq<bool>)
    ensures |had| == |names|
  {
    seq(|names|, i requires 0 <= i < |names| => names[i] in data)
  }

  lemma {:induction false} DoneBound(w: World, names: seq<string>, had: seq<bool>, k: nat)
    requires k <= |names| && k <= |had|
    ensures CommitRun(w, names, had, k).done <= k
  {
    if k > 0 { DoneBound(w, names, had, k - 1); }
  }

  /** A commit that has stopped stays as it is. */
  lemma {:induction false} RunStops(w: World, names: seq<string>, had: seq<bool>, j: nat, k: nat)
    requires j < k <= |names| && k <= |had|
    requires CommitRun(w, names, had, j).done < j || names[j] !in CommitRun(w, names, had, j).world.stage
    ensures CommitRun(w, names, had, k) == CommitRun(w, names, had, j)
    decreases k
  {
    DoneBound(w, names, had, j);
    if j < k - 1 {
      RunStops(w, names, had, j, k - 1);
      DoneBound(w, names, had, j);
    }
  }

  /** Later answers of the probe do not matter for earlier rounds. */
  lemma {:induction false} RunPrefixOfHad(w: World, names: seq<string>, had: seq<bool>, more: seq<bool>, k: nat)
    requires k <= |names| && k <= |had| && had <= more
    ensures CommitRun(w, names, more, k) == CommitRun(w, names, had, k)
  {
    if k > 0 { RunPrefixOfHad(w, names, had, more, k - 1); }
  }

  lemma {:induction false} RunDone(w: World, names: seq<string>, had: seq<bool>, j: nat, k: nat)
    requires j <= k <= |names| && k <= |had| && CommitRun(w, names, had, k).done == k
    ensures CommitRun(w, names, had, j).done == j
    ensures j < k ==> names[j] in CommitRun(w, names, had, j).world.stage
    decreases k
  {
    if j < k {
      DoneBound(w, names, had, k - 1);
      RunDone(w, names, had, j, k - 1);
    }
  }

  // ---------- no original is lost ----------

  /** The originals that the probes have seen are in the backups of their rounds. */
  ghost predicate Backups(original: Dir, w: World, names: seq<string>, had: seq<bool>, k: nat)
    requires k <= |names| && k <= |had|
  {
    forall j :: 0 <= j < k && had[j] ==>
      names[j] in original && Lookup(w.stage, BackupName(j)) == Some(original[names[j]])
  }

  /** Everything but the first k names is as in d. */
  ghost predicate AgreesBeyond(d: Dir, w: World, names: seq<string>, k: nat)
    requires k <= |names|
  {
    forall n :: n !in names[..k] ==> Lookup(w.data, n) == Lookup(d, n)
  }

  /** Going forward, k rounds are done or the k-th is under way: at most the first k names have changed. */
  ghost predicate Swapped(original: Dir, w: World, names: seq<string>, had: seq<bool>) {
    |had| <= |names| && AgreesBeyond(original, w, names, |had|) && Backups(original, w, names, had, |had|)
  }

  /** Going back, the first k names are still to be restored; the originals of the others are in place,
      but for those that a probe has missed. */
  ghost predicate Shielded(original: Dir, w: World, names: seq<string>, had: seq<bool>, k: nat)
    requires k <= |had| <= |names|
  {
    && Backups(original, w, names, had, k)
    && forall j :: k <= j < |names| && names[j] in original && (j < |had| ==> had[j]) ==>
         Lookup(w.data, names[j]) == Some(original[names[j]])
  }

  /** The bytes of every original are at its target or in its backup, but for tables that have been
      replaced after their probe had missed them. */
  ghost predicate SafeWorld(original: Dir, w: World, names: seq<string>, had: seq<bool>) {
    forall j :: 0 <= j < |names| && names[j] in original && (j < |had| ==> had[j]) ==>
      || Lookup(w.data, names[j]) == Some(original[names[j]])
      || Lookup(w.stage, BackupName(j)) == Some(original[names[j]])
  }

  ghost predicate TraceSafe(trace: seq<World>, from: nat, original: Dir, names: seq<string>, had: seq<bool>) {
    forall k :: from <= k < |trace| ==> SafeWorld(original, trace[k], names, had)
  }

  lemma InNames(names: seq<string>, k: nat, j: nat)
    requires k <= j < |names| && Distinct(names)
    ensures names[j] !in names[..k]
  {
  }

  lemma SwappedIsShielded(original: Dir, w: World, names: seq<string>, had: seq<bool>)
    requires Swapped(original, w, names, had) && Distinct(names)
    ensures Shielded(original, w, names, had, |had|)
  {
    forall j | |had| <= j < |names| && names[j] in original
      ensures Lookup(w.data, names[j]) == Some(original[names[j]])
    {
      InNames(names, |had|, j);
    }
  }

  lemma ShieldedIsSafe(original: Dir, w: World, names: seq<string>, had: seq<bool>, k: nat)
    requires k <= |had| <= |names| && Shielded(original, w, names, had, k)
    ensures SafeWorld(original, w, names, had)
  {
    forall j | 0 <= j < |names| && names[j] in original && (j < |had| ==> had[j])
      ensures || Lookup(w.data, names[j]) == Some(original[names[j]])
              || Lookup(w.stage, BackupName(j)) == Some(original[names[j]])
    {
      if k <= j { assert Lookup(w.data, names[j]) == Some(original[names[j]]); }
    }
  }

  /** Between two rounds, and inside one while the target is away, every original that a probe has seen or
      that is still to come is at its target or in its backup: without any condition on the names. */
  lemma SwappedIsSafe(original: Dir, w: World, names: seq<string>, had: seq<bool>)
    requires Swapped(original, w, names, had) && Distinct(names)
    ensures SafeWorld(original, w, names, had)
  {
    SwappedIsShielded(original, w, names, had);
    ShieldedIsSafe(original, w, names, had, |had|);
  }

  /** An answer of the probe that saw the original, or one more answer, takes nothing from what is safe. */
  lemma SafeWithMore(original: Dir, w: World, names: seq<string>, had: seq<bool>, more: seq<bool>)
    requires had <= more && SafeWorld(original, w, names, had)
    ensures SafeWorld(original, w, names, more)
  {
    forall j | 0 <= j < |names| && names[j] in original && (j < |more| ==> more[j])
      ensures || Lookup(w.data, names[j]) == Some(original[names[j]])
              || Lookup(w.stage, BackupName(j)) == Some(original[names[j]])
    {
      assert j < |had| ==> had[j];
    }
  }

  lemma SafeWithSeen(original: Dir, w: World, names: seq<string>, had: seq<bool>)
    requires SafeWorld(original, w, names, had + [true])
    ensures SafeWorld(original, w, names, had)
  {
    forall j | 0 <= j < |names| && names[j] in original && (j < |had| ==> had[j])
      ensures || Lookup(w.data, names[j]) == Some(original[names[j]])
              || Lookup(w.stage, BackupName(j)) == Some(original[names[j]])
    {
      assert j < |had + [true]| ==> (had + [true])[j];
    }
  }

  lemma TraceSafeWithMore(trace: seq<World>, from: nat, original: Dir, names: seq<string>,
                          had: seq<bool>, more: seq<bool>)
    requires had <= more && TraceSafe(trace, from, original, names, had)
    ensures TraceSafe(trace, from, original, names, more)
  {
    forall k | from <= k < |trace|
      ensures SafeWorld(original, trace[k], names, more)
    {
      SafeWithMore(original, trace[k], names, had, more);
    }
  }

  /** How many originals the probes have missed. */
  function Misses(original: Dir, names: seq<string>, had: seq<bool>): nat
    requires |had| <= |names|
  {
    if had == [] then 0
    else
      var last := |had| - 1;
      Misses(original, names, had[..last]) + if !had[last] && names[last] in original then 1 else 0
  }

  lemma MissesNext(original: Dir, names: seq<string>, had: seq<bool>, seen: bool)
    requires |had| < |names|
    ensures Misses(original, names, had + [seen]) ==
            Misses(original, names, had) + if !seen && names[|had|] in original then 1 else 0
  {
    assert (had + [seen])[..|had|] == had;
  }

  /** When no probe has missed a file, no original is lost at all. */
  lemma HonestIsSafe(trace: seq<World>, from: nat, original: Dir, names: seq<string>, had: seq<bool>)
    requires |had| <= |names| && had == HadOriginal(original, names)[..|had|]
    requires TraceSafe(trace, from, original, names, had)
    ensures TraceSafe(trace, from, original, names, [])
  {
    forall k | from <= k < |trace|
      ensures SafeWorld(original, trace[k], names, [])
    {
      forall j | 0 <= j < |names| && names[j] in original
        ensures || Lookup(trace[k].data, names[j]) == Some(original[names[j]])
                || Lookup(trace[k].stage, BackupName(j)) == Some(original[names[j]])
      {
        assert SafeWorld(original, trace[k], names, had);
        assert j < |had| ==> had[j] == HadOriginal(original, names)[j];
      }
    }
  }

  // ---------- the steps of one round and their inverses ----------

  /** Filling, leaving or removing a temp file. */
  lemma TempChanges(original: Dir, w: World, w': World, names: seq<string>, had: seq<bool>, i: nat)
    requires Swapped(original, w, names, had) && SameBut(w, w', Stage, TempName(i))
    ensures Swapped(original, w', names, had)
  {
    forall j | 0 <= j < |had| && had[j]
      ensures Lookup(w'.stage, BackupName(j)) == Lookup(w.stage, BackupName(j))
    {
      ReservedNamesDiffer(j, i);
      assert BackupName(j) in w'.stage - {TempName(i)} <==> BackupName(j) in w.stage - {TempName(i)};
    }
  }

  lemma BeyondShrinks(names: seq<string>, k: nat)
    requires k < |names|
    ensures names[..k + 1] == names[..k] + [names[k]]
  {
  }

  /** The original of the next table has gone to its backup. */
  lemma BackupMoves(original: Dir, w: World, w': World, names: seq<string>, had: seq<bool>)
    requires Distinct(names) && Swapped(original, w, names, had) && |had| < |names|
    requires var i, name := |had|, names[|had|];
             name in w.data && w' == w.Set(Stage, BackupName(i), w.data[name]).Unset(Data, name)
    ensures Swapped(original, w', names, had + [true])
  {
    var i := |had|;
    BeyondShrinks(names, i);
    InNames(names, i, i);
    assert Lookup(w.data, names[i]) == Lookup(original, names[i]);
    forall j | 0 <= j < i && had[j]
      ensures Lookup(w'.stage, BackupName(j)) == Some(original[names[j]])
    {
      ReservedNamesDiffer(i, j);
    }
  }

  lemma NothingToBackUp(original: Dir, w: World, names: seq<string>, had: seq<bool>)
    requires Swapped(original, w, names, had) && |had| < |names|
    ensures Swapped(original, w, names, had + [false])
  {
    BeyondShrinks(names, |had|);
  }

  /** The target of the last table is written or removed. */
  lemma TargetChanges(original: Dir, w: World, w': World, names: seq<string>, had: seq<bool>)
    requires Swapped(original, w, names, had) && had != [] && w'.stage == w.stage
    requires forall n :: n != names[|had| - 1] ==> Lookup(w'.data, n) == Lookup(w.data, n)
    ensures Swapped(original, w', names, had)
  {
    BeyondShrinks(names, |had| - 1);
  }

  /** Moving the backup home undoes the move that made it. */
  lemma BackupRestores(original: Dir, w: World, w': World, names: seq<string>, had: seq<bool>)
    requires Distinct(names) && Swapped(original, w, names, had + [true]) && |had| < |names|
    requires var i := |had|;
             BackupName(i) in w.stage
             && w' == w.Set(Data, names[i], w.stage[BackupName(i)]).Unset(Stage, BackupName(i))
    ensures Swapped(original, w', names, had)
  {
    var i := |had|;
    assert (had + [true])[i];
    BeyondShrinks(names, i);
    forall n | n !in names[..i]
      ensures Lookup(w'.data, n) == Lookup(original, n)
    {
      if n != names[i] { assert n !in names[..i + 1]; }
    }
    forall j | 0 <= j < i && had[j]
      ensures names[j] in original && Lookup(w'.stage, BackupName(j)) == Some(original[names[j]])
    {
      assert (had + [true])[j];
      ReservedNamesDiffer(i, j);
    }
  }

  lemma SwapAdvances(original: Dir, w: World, names: seq<string>, had: seq<bool>, seen: bool)
    requires Distinct(names) && Swapped(original, w, names, had) && |had| < |names| && names[|had|] in w.stage
    requires seen ==> names[|had|] in w.data
    ensures Swapped(original, Swap(w, names[|had|], |had|, seen), names, had + [seen])
  {
    var i, name := |had|, names[|had|];
    var w' := Swap(w, name, i, seen);
    var w1 := w.Set(Stage, TempName(i), if name == TempName(i) then "" else w.stage[name]);
    assert w1.stage - {TempName(i)} == w.stage - {TempName(i)};
    TempChanges(original, w, w1, names, had, i);
    var w2 := if seen then w1.Set(Stage, BackupName(i), w1.data[name]).Unset(Data, name) else w1;
    if seen { BackupMoves(original, w1, w2, names, had); } else { NothingToBackUp(original, w1, names, had); }
    var w3 := w2.Unset(Stage, TempName(i));
    assert w3.stage - {TempName(i)} == w2.stage - {TempName(i)};
    TempChanges(original, w2, w3, names, had + [seen], i);
    TargetChanges(original, w3, w', names, had + [seen]);
  }

  /** Whatever the probes have answered, the rounds done so far have changed no other file and backed up every
      original that was seen. */
  lemma {:induction false} RunSwaps(w: World, names: seq<string>, had: seq<bool>, k: nat)
    requires Distinct(names) && k <= |names| && k <= |had|
    requires forall j :: 0 <= j < k && had[j] ==> names[j] in w.data
    ensures var run := CommitRun(w, names, had, k);
            run.done <= k && Swapped(w.data, run.world, names, had[..run.done])
  {
    hide Swap;
    if k > 0 {
      RunSwaps(w, names, had, k - 1);
      var before := CommitRun(w, names, had, k - 1);
      if before.done == k - 1 && names[k - 1] in before.world.stage {
        InNames(names, k - 1, k - 1);
        assert Lookup(before.world.data, names[k - 1]) == Lookup(w.data, names[k - 1]);
        SwapAdvances(w.data, before.world, names, had[..k - 1], had[k - 1]);
        assert had[..k] == had[..k - 1] + [had[k - 1]];
      }
    }
  }

  // ---------- rollback inverts commit ----------

  function Missed(names: seq<string>, had: seq<bool>): set<string>
    requires |had| <= |names|
  {
    set j | 0 <= j < |had| && !had[j] :: names[j]
  }

  /** The originals that a rollback can bring back. */
  function Remaining(original: Dir, names: seq<string>, had: seq<bool>): Dir
    requires |had| <= |names|
  {
    original - Missed(names, had)
  }

  lemma RemainingAt(original: Dir, names: seq<string>, had: seq<bool>, i: nat)
    requires Distinct(names) && i < |had| <= |names|
    ensures Lookup(Remaining(original, names, had), names[i]) == if had[i] then Lookup(original, names[i]) else None
  {
    if had[i] {
      assert names[i] !in Missed(names, had);
    } else {
      assert names[i] in Missed(names, had);
    }
  }

  lemma RemainingBeyond(original: Dir, w: World, names: seq<string>, had: seq<bool>)
    requires Swapped(original, w, names, had)
    ensures AgreesBeyond(Remaining(original, names, had), w, names, |had|)
  {
    forall n | n !in names[..|had|]
      ensures Lookup(Remaining(original, names, had), n) == Lookup(original, n)
    {
      forall j | 0 <= j < |had|
        ensures names[j] != n
      {
        assert names[..|had|][j] == names[j];
      }
      assert n !in Missed(names, had);
    }
  }

  lemma SameLookups(d: Dir, e: Dir)
    requires forall n :: Lookup(d, n) == Lookup(e, n)
    ensures d == e
  {
    assert forall n :: n in d <==> Lookup(d, n).Some?;
    assert forall n :: n in e <==> Lookup(e, n).Some?;
    forall n | n in d
      ensures n in e && d[n] == e[n]
    {
      assert Lookup(d, n) == Lookup(e, n);
    }
  }

  /** With probes that have missed nothing, all originals remain. */
  lemma HonestRemains(original: Dir, names: seq<string>, had: seq<bool>)
    requires |had| <= |names| && had == HadOriginal(original, names)[..|had|]
    ensures Remaining(original, names, had) == original
  {
    forall n | n in Missed(names, had)
      ensures n !in original
    {
      var j :| 0 <= j < |had| && !had[j] && n == names[j];
      assert had[j] == HadOriginal(original, names)[j];
    }
  }

  lemma UnswapGoesBack(original: Dir, w: World, names: seq<string>, had: seq<bool>, i: nat)
    requires Distinct(names) && i < |had| <= |names| && Backups(original, w, names, had, i + 1)
    requires AgreesBeyond(Remaining(original, names, had), w, names, i + 1)
    ensures var w' := Unswap(w, names[i], i, had[i]);
            Backups(original, w', names, had, i) && AgreesBeyond(Remaining(original, names, had), w', names, i)
  {
    var w' := Unswap(w, names[i], i, had[i]);
    var rest := Remaining(original, names, had);
    RemainingAt(original, names, had, i);
    BeyondShrinks(names, i);
    forall n | n !in names[..i]
      ensures Lookup(w'.data, n) == Lookup(rest, n)
    {
      if n != names[i] { assert n !in names[..i + 1]; }
    }
    forall j | 0 <= j < i && had[j]
      ensures Lookup(w'.stage, BackupName(j)) == Some(original[names[j]])
    {
      ReservedNamesDiffer(i, j);
    }
  }

  lemma {:induction false} UnswapAllRestores(original: Dir, w: World, names: seq<string>, had: seq<bool>, k: nat)
    requires Distinct(names) && k <= |had| <= |names| && Backups(original, w, names, had, k)
    requires AgreesBeyond(Remaining(original, names, had), w, names, k)
    ensures UnswapAll(w, names, had, k).data == Remaining(original, names, had)
    decreases k
  {
    if k > 0 {
      UnswapGoesBack(original, w, names, had, k - 1);
      UnswapAllRestores(original, Unswap(w, names[k - 1], k - 1, had[k - 1]), names, had, k - 1);
    } else {
      SameLookups(w.data, Remaining(original, names, had));
    }
  }

  /** Rolling back a partial commit gives back the data directory, tables that did not exist gone again, but
      for the originals that a probe had missed; whatever the table names and the staged contents are. */
  lemma RollbackInvertsCommit(w: World, names: seq<string>, had: seq<bool>, k: nat)
    requires Distinct(names) && k <= |names| && k <= |had|
    requires forall j :: 0 <= j < k && had[j] ==> names[j] in w.data
    ensures var run := CommitRun(w, names, had, k);
            && run.done <= k
            && UnswapAll(run.world, names, had[..run.done], run.done).data == Remaining(w.data, names, had[..run.done])
            && (had[..k] == HadOriginal(w.data, names)[..k] ==>
                UnswapAll(run.world, names, had[..run.done], run.done).data == w.data)
  {
    var run := CommitRun(w, names, had, k);
    RunSwaps(w, names, had, k);
    RemainingBeyond(w.data, run.world, names, had[..run.done]);
    UnswapAllRestores(w.data, run.world, names, had[..run.done], run.done);
    if had[..k] == HadOriginal(w.data, names)[..k] {
      assert had[..run.done] == had[..k][..run.done];
      HonestRemains(w.data, names, had[..run.done]);
    }
  }

  // ---------- what a missed original costs ----------

  /** The original that w holds at the target of round i is in w' at the target or in the backup. */
  ghost predicate Kept(w: World, w': World, name: string, i: nat)
    requires name in w.data
  {
    Lookup(w'.data, name) == Some(w.data[name]) || Lookup(w'.stage, BackupName(i)) == Some(w.data[name])
  }

  /** There is an original, and neither the staged contents nor a file in the backup's place happen to be
      the same bytes. */
  ghost predicate CanBeLost(w: World, name: string, i: nat)
    requires name in w.stage
  {
    && name in w.data && name != TempName(i) && w.stage[name] != w.data[name]
    && Lookup(w.stage, BackupName(i)) != Some(w.data[name])
  }

  /** A round that replaces a table loses its original exactly when the probe has missed it. */
  lemma OriginalLostIffMissed(w: World, name: string, i: nat, seen: bool)
    requires name in w.stage && CanBeLost(w, name, i)
    ensures Kept(w, Swap(w, name, i, seen), name, i) <==> seen
  {
    ReservedNamesDiffer(i, i);
  }

  /** One touched table whose probe misses it: the new contents replace the original, no backup exists, and a
      rollback that reports success leaves no table at all. */
  lemma MissedOriginalIsGone(original: string, staged: string)
    requires original != staged
    ensures var w := World(map["t.csv" := original], map["t.csv" := staged]);
            var run := CommitRun(w, ["t.csv"], [false], 1);
            && run == Run(World(map["t.csv" := staged], map["t.csv" := staged]), 1)
            && !SafeWorld(w.data, run.world, ["t.csv"], [])
            && UnswapAll(run.world, ["t.csv"], [false], 1).data == map[]
  {
    var names, had := ["t.csv"], [false];
    var w := World(map["t.csv" := original], map["t.csv" := staged]);
    assert "t.csv"[0] == 't' && TempName(0)[0] == '_' && BackupName(0)[0] == '_';
    assert CommitRun(w, names, had, 0) == Run(w, 0) && names[0] in w.stage;
    var run := CommitRun(w, names, had, 1);
    assert run.world.stage == w.stage && run.world.data == map["t.csv" := staged];
    assert names[0] in w.data;
    assert UnswapAll(run.world, names, had, 1) == UnswapAll(Unswap(run.world, names[0], 0, false), names, had, 0);
  }

  // ---------- the contents that a commit writes ----------

  ghost predicate Staged(w: World, names: seq<string>) {
    forall k :: 0 <= k < |names| ==> names[k] in w.stage
  }

  /** The data directory once the first k names hold their staged contents. */
  function CommitData(w: World, names: seq<string>, k: nat): Dir
    requires k <= |names| && Staged(w, names)
  {
    if k == 0 then w.data else CommitData(w, names, k - 1)[names[k - 1] := w.stage[names[k - 1]]]
  }

  lemma {:induction false} CommitDataAt(w: World, names: seq<string>, k: nat, n: string)
    requires k <= |names| && Staged(w, names)
    ensures Lookup(CommitData(w, names, k), n) == if n in names[..k] then Some(w.stage[n]) else Lookup(w.data, n)
  {
    if k > 0 {
      CommitDataAt(w, names, k - 1, n);
      assert names[..k] == names[..k - 1] + [names[k - 1]];
    }
  }

  /** No staged table is overwritten before it is committed: none has the name of a temp of a round up to its
      own, and where one has the name of an earlier backup, that backup has the very same bytes. */
  ghost predicate NoCollision(w: World, names: seq<string>)
    requires Staged(w, names)
  {
    && (forall i, k :: 0 <= i <= k < |names| ==> names[k] != TempName(i))
    && (forall i, k :: 0 <= i < k < |names| && names[k] == BackupName(i) && names[i] in w.data ==>
          w.data[names[i]] == w.stage[names[k]])
  }

  /** The staged contents that are still to be committed are unchanged. */
  ghost predicate StagedFrom(w0: World, w: World, names: seq<string>, k: nat)
    requires Staged(w0, names)
  {
    forall j :: k <= j < |names| ==> Lookup(w.stage, names[j]) == Some(w0.stage[names[j]])
  }

  lemma StagedAtFirst(w: World, names: seq<string>)
    requires Staged(w, names)
    ensures StagedFrom(w, w, names, 0)
  {
  }

  lemma SwapKeepsStaged(w0: World, w: World, names: seq<string>, k: nat)
    requires Distinct(names) && k < |names| && Staged(w0, names) && NoCollision(w0, names)
    requires StagedFrom(w0, w, names, k) && Lookup(w.data, names[k]) == Lookup(w0.data, names[k])
    ensures names[k] in w.stage && w.stage[names[k]] == w0.stage[names[k]]
    ensures StagedFrom(w0, Swap(w, names[k], k, names[k] in w0.data), names, k + 1)
  {
    assert Lookup(w.stage, names[k]) == Some(w0.stage[names[k]]);
    forall j | k < j < |names|
      ensures Lookup(Swap(w, names[k], k, names[k] in w0.data).stage, names[j]) == Some(w0.stage[names[j]])
    {
      assert Lookup(w.stage, names[j]) == Some(w0.stage[names[j]]);
    }
  }

  lemma SwapWrites(w: World, name: string, i: nat, seen: bool)
    requires name in w.stage && name != TempName(i)
    ensures Swap(w, name, i, seen).data == w.data[name := w.stage[name]]
  {
  }

  /** Committing tables without a collision writes exactly their staged contents. */
  lemma {:induction false} SwapAllCommits(w: World, names: seq<string>, k: nat)
    requires Distinct(names) && k <= |names| && Staged(w, names) && NoCollision(w, names)
    ensures var run := CommitRun(w, names, HadOriginal(w.data, names), k);
            run.done == k && run.world.data == CommitData(w, names, k) && StagedFrom(w, run.world, names, k)
  {
    hide Swap, StagedFrom;
    if k == 0 {
      StagedAtFirst(w, names);
    } else {
      SwapAllCommits(w, names, k - 1);
      var before := CommitRun(w, names, HadOriginal(w.data, names), k - 1).world;
      CommitDataAt(w, names, k - 1, names[k - 1]);
      InNames(names, k - 1, k - 1);
      SwapKeepsStaged(w, before, names, k - 1);
      SwapWrites(before, names[k - 1], k - 1, names[k - 1] in w.data);
    }
  }
}
