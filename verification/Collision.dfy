/** Which commits are right: temps and backups share the stage directory with the staged tables, and the
    parser accepts table names such as __rollback_0. */
module Collision {
  import opened SqlTypes
  import opened Files
  import opened Commit

  /** A round writes its own table only, and in the stage its own temp and backup only. */
  lemma SwapFrame(w: World, name: string, i: nat, seen: bool, f: string)
    requires name in w.stage
    ensures f != name ==> Lookup(Swap(w, name, i, seen).data, f) == Lookup(w.data, f)
    ensures f != TempName(i) && f != BackupName(i) ==> Lookup(Swap(w, name, i, seen).stage, f) == Lookup(w.stage, f)
  {
  }

  lemma {:induction false} DataFrame(w: World, names: seq<string>, had: seq<bool>, j: nat, k: nat, f: string)
    requires j <= k <= |names| && k <= |had| && CommitRun(w, names, had, k).done == k && f !in names[j..k]
    ensures Lookup(CommitRun(w, names, had, k).world.data, f) == Lookup(CommitRun(w, names, had, j).world.data, f)
  {
    hide Swap;
    if j < k {
      RunDone(w, names, had, k - 1, k);
      assert names[j..k] == names[j..k - 1] + [names[k - 1]];
      DataFrame(w, names, had, j, k - 1, f);
      SwapFrame(CommitRun(w, names, had, k - 1).world, names[k - 1], k - 1, had[k - 1], f);
    }
  }

  lemma {:induction false} StageFrame(w: World, names: seq<string>, had: seq<bool>, j: nat, k: nat, f: string)
    requires j <= k <= |names| && k <= |had| && CommitRun(w, names, had, k).done == k
    requires forall r :: j <= r < k ==> f != TempName(r) && f != BackupName(r)
    ensures Lookup(CommitRun(w, names, had, k).world.stage, f) == Lookup(CommitRun(w, names, had, j).world.stage, f)
  {
    hide Swap;
    if j < k {
      RunDone(w, names, had, k - 1, k);
      StageFrame(w, names, had, j, k - 1, f);
      SwapFrame(CommitRun(w, names, had, k - 1).world, names[k - 1], k - 1, had[k - 1], f);
    }
  }

  lemma ReservedFrame(w: World, names: seq<string>, had: seq<bool>, i: nat, k: nat)
    requires i < k <= |names| && k <= |had| && CommitRun(w, names, had, k).done == k
    ensures var later, after := CommitRun(w, names, had, k).world.stage, CommitRun(w, names, had, i + 1).world.stage;
            && Lookup(later, BackupName(i)) == Lookup(after, BackupName(i))
            && Lookup(later, TempName(i)) == Lookup(after, TempName(i))
  {
    forall r | i < r < k
      ensures BackupName(i) != TempName(r) && BackupName(i) != BackupName(r)
      ensures TempName(i) != TempName(r) && TempName(i) != BackupName(r)
    {
      ReservedNamesDiffer(i, r);
      ReservedNamesDiffer(r, i);
    }
    StageFrame(w, names, had, i + 1, k, BackupName(i));
    StageFrame(w, names, had, i + 1, k, TempName(i));
  }

  /** The commit goes through and puts the staged contents of every table in place. */
  ghost predicate CommitsAll(w: World, names: seq<string>)
    requires Staged(w, names)
  {
    var run := CommitRun(w, names, HadOriginal(w.data, names), |names|);
    run.done == |names| && run.world.data == CommitData(w, names, |names|)
  }

  ghost predicate NonEmpty(w: World, names: seq<string>)
    requires Staged(w, names)
  {
    forall k :: 0 <= k < |names| ==> w.stage[names[k]] != ""
  }

  /** The state at which a round of a full commit finds its table. */
  lemma RoundStarts(w: World, names: seq<string>, k: nat)
    requires Distinct(names) && k < |names| && Staged(w, names) && CommitsAll(w, names)
    ensures var had := HadOriginal(w.data, names);
            var before := CommitRun(w, names, had, k).world;
            && CommitRun(w, names, had, k).done == k && names[k] in before.stage
            && CommitRun(w, names, had, k + 1) == Run(Swap(before, names[k], k, had[k]), k + 1)
            && Lookup(before.data, names[k]) == Lookup(w.data, names[k])
  {
    var had := HadOriginal(w.data, names);
    RunDone(w, names, had, k, |names|);
    DataFrame(w, names, had, 0, k, names[k]);
  }

  lemma RoundWrites(w: World, name: string, i: nat, seen: bool)
    requires name in w.stage
    ensures Lookup(Swap(w, name, i, seen).data, name) == Some(if name == TempName(i) then "" else w.stage[name])
  {
  }

  /** In a right commit every round finds its table with the contents that were staged. */
  lemma RoundWorks(w: World, names: seq<string>, k: nat)
    requires Distinct(names) && k < |names| && Staged(w, names) && NonEmpty(w, names) && CommitsAll(w, names)
    ensures names[k] != TempName(k)
    ensures Lookup(CommitRun(w, names, HadOriginal(w.data, names), k).world.stage, names[k]) == Some(w.stage[names[k]])
  {
    hide Swap, CommitRun, TempName;
    var had := HadOriginal(w.data, names);
    var before := CommitRun(w, names, had, k).world;
    RoundStarts(w, names, k);
    RoundWrites(before, names[k], k, had[k]);
    assert names[..|names|] == names;
    CommitDataAt(w, names, |names|, names[k]);
    DataFrame(w, names, had, k + 1, |names|, names[k]);
    assert Lookup(Swap(before, names[k], k, had[k]).data, names[k]) == Some(w.stage[names[k]]);
    assert w.stage[names[k]] != "";
  }

  lemma AfterRound(w: World, names: seq<string>, i: nat, k: nat)
    requires Distinct(names) && i < k < |names| && Staged(w, names) && NonEmpty(w, names) && CommitsAll(w, names)
    ensures names[k] != TempName(i)
    ensures names[k] == BackupName(i) && names[i] in w.data ==> w.data[names[i]] == w.stage[names[k]]
  {
    var had := HadOriginal(w.data, names);
    RoundStarts(w, names, i);
    RoundWorks(w, names, i);
    RoundStarts(w, names, k);
    RoundWorks(w, names, k);
    ReservedFrame(w, names, had, i, k);
    RoundPlaces(CommitRun(w, names, had, i).world, names[i], i, had[i]);
  }

  lemma RoundPlaces(w: World, name: string, i: nat, seen: bool)
    requires name in w.stage
    ensures TempName(i) !in Swap(w, name, i, seen).stage
    ensures seen && name in w.data ==> Lookup(Swap(w, name, i, seen).stage, BackupName(i)) == Some(w.data[name])
  {
    ReservedNamesDiffer(i, i);
  }

  /** On given directories, with staged tables that are not empty, the commit of distinct tables is right exactly
      when none of them is overwritten by a temp or by a backup with other bytes before it is read. */
  lemma CommitWorksIffNoCollision(w: World, names: seq<string>)
    requires Distinct(names) && Staged(w, names) && NonEmpty(w, names)
    ensures CommitsAll(w, names) <==> NoCollision(w, names)
  {
    if NoCollision(w, names) {
      SwapAllCommits(w, names, |names|);
    }
    if CommitsAll(w, names) {
      forall i, k | 0 <= i <= k < |names|
        ensures names[k] != TempName(i)
        ensures i < k && names[k] == BackupName(i) && names[i] in w.data ==> w.data[names[i]] == w.stage[names[k]]
      {
        if i < k { AfterRound(w, names, i, k); } else { RoundWorks(w, names, k); }
      }
    }
  }

  /** A touched table with the name of the first temp is committed as an empty file: it is copied onto itself. */
  lemma TempNamedTableIsEmptied(w: World, names: seq<string>)
    requires names == [TempName(0)] && Staged(w, names)
    ensures var run := CommitRun(w, names, HadOriginal(w.data, names), 1);
            run.done == 1 && Lookup(run.world.data, TempName(0)) == Some("")
  {
    var had := HadOriginal(w.data, names);
    assert CommitRun(w, names, had, 0) == Run(w, 0);
    assert names[0] in w.stage;
    ReservedNamesDiffer(0, 0);
  }

  // ---------- the stage and the directory of the direct run ----------

  /** The worlds have the same data directory and the same staged tables. */
  ghost predicate Alike(a: World, b: World, names: seq<string>) {
    a.data == b.data && forall j :: 0 <= j < |names| ==> Lookup(a.stage, names[j]) == Lookup(b.stage, names[j])
  }

  lemma AlikeAt(a: World, b: World, names: seq<string>, j: nat)
    requires j < |names| && Alike(a, b, names)
    ensures names[j] in a.stage <==> names[j] in b.stage
  {
    assert Lookup(a.stage, names[j]) == Lookup(b.stage, names[j]);
  }

  lemma SwapAlike(a: World, b: World, names: seq<string>, i: nat, seen: bool)
    requires i < |names| && Alike(a, b, names) && names[i] in a.stage
    ensures names[i] in b.stage && Alike(Swap(a, names[i], i, seen), Swap(b, names[i], i, seen), names)
  {
    assert Lookup(a.stage, names[i]) == Lookup(b.stage, names[i]);
    forall j | 0 <= j < |names|
      ensures Lookup(Swap(a, names[i], i, seen).stage, names[j]) == Lookup(Swap(b, names[i], i, seen).stage, names[j])
    {
      assert Lookup(a.stage, names[j]) == Lookup(b.stage, names[j]);
    }
  }

  /** A commit depends on the data directory and the staged tables only. */
  lemma {:induction false} RunAlike(a: World, b: World, names: seq<string>, had: seq<bool>, k: nat)
    requires k <= |names| && k <= |had| && Alike(a, b, names)
    ensures CommitRun(a, names, had, k).done == CommitRun(b, names, had, k).done
    ensures Alike(CommitRun(a, names, had, k).world, CommitRun(b, names, had, k).world, names)
  {
    hide Swap, Alike;
    if k > 0 {
      RunAlike(a, b, names, had, k - 1);
      var before, other := CommitRun(a, names, had, k - 1), CommitRun(b, names, had, k - 1);
      AlikeAt(before.world, other.world, names, k - 1);
      if before.done == k - 1 && names[k - 1] in before.world.stage {
        SwapAlike(before.world, other.world, names, k - 1, had[k - 1]);
        assert CommitRun(a, names, had, k).world == Swap(before.world, names[k - 1], k - 1, had[k - 1]);
        assert CommitRun(b, names, had, k).world == Swap(other.world, names[k - 1], k - 1, had[k - 1]);
      } else {
        DoneBound(a, names, had, k - 1);
        assert CommitRun(a, names, had, k) == before && CommitRun(b, names, had, k) == other;
      }
    }
  }
}
