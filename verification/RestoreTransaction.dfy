/**
 Putting restored files in place as one transaction: every current file is
 preserved under a fresh name first, and a failure unwinds in reverse.
 */
module RestoreTransaction {
  import opened Files
  import opened Capture

  datatype StagedFile = StagedFile(destination: FilePath, temporary: FilePath)

  datatype RestoreBackup = RestoreBackup(activated: bool, destination: FilePath, backup: Option<FilePath>)

  class SaveFileSystem {
    var files: Saves
    ghost var faults: nat     // how many operations have failed

    constructor (files: Saves)
      ensures this.files == files
    {
      this.files, faults := files, 0;
    }
  }

  /** os.Rename between two different names. */
  function Renamed(files: Saves, from: FilePath, to: FilePath): Saves
    requires from in files && from != to
  {
    (files - {from})[to := files[from]]
  }

  /** The names that CreateTemp and NewID give: they are distinct and nothing else uses them. */
  predicate FreshNames(files: Saves, staged: seq<StagedFile>, names: seq<FilePath>) {
    && |names| == |staged|
    && (forall i :: 0 <= i < |staged| ==> staged[i].temporary in files && names[i] !in files)
    && (forall i, j :: 0 <= i < j < |staged| ==> staged[i].temporary != staged[j].temporary && names[i] != names[j])
    && (forall i, j :: 0 <= i < |staged| && 0 <= j < |staged| ==>
          staged[i].destination != staged[j].temporary && staged[i].destination != names[j])
  }

  function Preserved(files: Saves, item: StagedFile, name: FilePath): Saves
    requires item.destination != name
  {
    if item.destination in files then Renamed(files, item.destination, name) else files
  }

  /** The files after the first `n` items were activated. */
  function ActivatedTo(files: Saves, staged: seq<StagedFile>, names: seq<FilePath>, n: nat): (r: Saves)
    requires FreshNames(files, staged, names) && n <= |staged|
    ensures forall i :: n <= i < |staged| ==> staged[i].temporary in r && r[staged[i].temporary] == files[staged[i].temporary]
    ensures forall i :: n <= i < |staged| ==> names[i] !in r
  {
    if n == 0 then files
    else
      var before := ActivatedTo(files, staged, names, n - 1);
      var item := staged[n - 1];
      Renamed(Preserved(before, item, names[n - 1]), item.temporary, item.destination)
  }

  function TemporariesFrom(staged: seq<StagedFile>, n: nat): set<FilePath> {
    set i | n <= i < |staged| :: staged[i].temporary
  }

  /** Each record tells whether its destination existed, and under which name it was preserved. */
  ghost predicate RecordsOf(files: Saves, staged: seq<StagedFile>, names: seq<FilePath>, backups: seq<RestoreBackup>)
    requires FreshNames(files, staged, names) && |backups| <= |staged|
  {
    forall i :: 0 <= i < |backups| ==>
      && backups[i].destination == staged[i].destination
      && backups[i].backup == if staged[i].destination in ActivatedTo(files, staged, names, i) then Some(names[i]) else None
  }

  /** The temporaries that the records from `n` on used up. */
  function UsedUpFrom(staged: seq<StagedFile>, backups: seq<RestoreBackup>, n: nat): set<FilePath>
    requires |backups| <= |staged|
  {
    set i | n <= i < |backups| && backups[i].activated :: staged[i].temporary
  }

  /** The files with the records from `n` on undone.  The last record may be of an item that is not in place yet. */
  function UndoneTo(files: Saves, staged: seq<StagedFile>, names: seq<FilePath>, backups: seq<RestoreBackup>, n: nat): Saves
    requires FreshNames(files, staged, names) && n <= |backups| <= |staged|
  {
    if n == |backups| && n > 0 && !backups[n - 1].activated
    then Preserved(ActivatedTo(files, staged, names, n - 1), staged[n - 1], names[n - 1])
    else ActivatedTo(files, staged, names, n) - UsedUpFrom(staged, backups, n)
  }

  /** Where an activation stands: every record is true, and only the last one may be incomplete. */
  ghost predicate Standing(now: Saves, files: Saves, staged: seq<StagedFile>, names: seq<FilePath>,
                           backups: seq<RestoreBackup>)
    requires FreshNames(files, staged, names) && |backups| <= |staged|
  {
    && RecordsOf(files, staged, names, backups)
    && (forall i :: 0 <= i < |backups| - 1 ==> backups[i].activated)
    && now == UndoneTo(files, staged, names, backups, |backups|)
  }

  /** Undoing one record takes the files back before its item, less the temporary it used up. */
  lemma UndoOne(files: Saves, staged: seq<StagedFile>, names: seq<FilePath>, i: nat, gone: set<FilePath>)
    requires FreshNames(files, staged, names) && i < |staged|
    requires gone <= TemporariesFrom(staged, i + 1)
    ensures
      var before := ActivatedTo(files, staged, names, i);
      var after := ActivatedTo(files, staged, names, i + 1) - gone;
      var removed := after - {staged[i].destination};
      (if staged[i].destination in before
       then names[i] in removed && Renamed(removed, names[i], staged[i].destination) == before - gone - {staged[i].temporary}
       else removed == before - gone - {staged[i].temporary})
  {
    var before := ActivatedTo(files, staged, names, i);
    var item, name := staged[i], names[i];
    assert forall j :: 0 <= j < |staged| ==> staged[j].temporary in files && names[i] !in files;
    var removed := (ActivatedTo(files, staged, names, i + 1) - gone) - {item.destination};
    if item.destination in before {
      assert Renamed(removed, name, item.destination) == before - gone - {item.temporary};
    } else {
      assert removed == before - gone - {item.temporary};
    }
  }

  /** Undoing the record of an item that was preserved but not put in place. */
  lemma UndoPreserved(before: Saves, item: StagedFile, name: FilePath)
    requires item.destination != name && name !in before
    ensures var after := Preserved(before, item, name);
            if item.destination in before then name in after && Renamed(after, name, item.destination) == before
            else after == before
  {
    if item.destination in before {
      assert Renamed(Preserved(before, item, name), name, item.destination) == before;
    }
  }

  lemma UsedUpStep(staged: seq<StagedFile>, backups: seq<RestoreBackup>, n: nat)
    requires n < |backups| <= |staged|
    ensures UsedUpFrom(staged, backups, n) ==
            UsedUpFrom(staged, backups, n + 1) + (if backups[n].activated then {staged[n].temporary} else {})
    ensures UsedUpFrom(staged, backups, n + 1) <= TemporariesFrom(staged, n + 1)
    ensures n + 1 == |backups| ==> UsedUpFrom(staged, backups, n + 1) == {}
  {
  }

  /** What one turn of the unwinding does to the files when nothing in it fails. */
  function UndoOf(now: Saves, item: RestoreBackup): Saves {
    var removed := if item.activated then now - {item.destination} else now;
    if item.backup.Some? && item.backup.value in removed && item.backup.value != item.destination
    then Renamed(removed, item.backup.value, item.destination) else removed
  }

  lemma UndoStep(files: Saves, staged: seq<StagedFile>, names: seq<FilePath>, backups: seq<RestoreBackup>, n: nat)
    requires FreshNames(files, staged, names) && n < |backups| <= |staged|
    requires RecordsOf(files, staged, names, backups)
    requires forall i :: 0 <= i < |backups| - 1 ==> backups[i].activated
    ensures UndoOf(UndoneTo(files, staged, names, backups, n + 1), backups[n]) == UndoneTo(files, staged, names, backups, n)
  {
    hide ActivatedTo, Preserved, UsedUpFrom, Renamed, TemporariesFrom;
    UsedUpStep(staged, backups, n);
    var before, gone := ActivatedTo(files, staged, names, n), UsedUpFrom(staged, backups, n + 1);
    assert UndoneTo(files, staged, names, backups, n) == before - UsedUpFrom(staged, backups, n);
    if backups[n].activated {
      UndoOne(files, staged, names, n, gone);
      assert before - gone - {staged[n].temporary} == before - (gone + {staged[n].temporary});
    } else {
      UndoPreserved(before, staged[n], names[n]);
      assert before - UsedUpFrom(staged, backups, n) == before;
    }
  }

  /**
   Unwinds the records in reverse.  When no operation of it fails, the files are
   the original ones less the temporaries that activation used up.
   */
  method RollbackRestoredFiles(fs: SaveFileSystem, backups: seq<RestoreBackup>,
                               ghost files: Saves, ghost staged: seq<StagedFile>, ghost names: seq<FilePath>)
    returns (failed: bool)
    requires FreshNames(files, staged, names) && |backups| <= |staged|
    requires Standing(fs.files, files, staged, names, backups)
    modifies fs
    ensures !failed ==> fs.files == files - UsedUpFrom(staged, backups, 0)
    ensures fs.faults >= old(fs.faults) && (failed ==> fs.faults > old(fs.faults))
  {
    failed := false;
    UndoneToStart(files, staged, names, backups);
    hide UndoneTo, FreshNames, RecordsOf, Renamed, UsedUpFrom, UndoOf;
    var index := |backups|;
    while index > 0
      invariant 0 <= index <= |backups|
      invariant fs.faults >= old(fs.faults) && (failed ==> fs.faults > old(fs.faults))
      invariant !failed ==> fs.files == UndoneTo(files, staged, names, backups, index)
    {
      index := index - 1;
      UndoStep(files, staged, names, backups, index);
      var stuck := UndoRecord(fs, backups[index]);
      failed := failed || stuck;
    }
  }

  /** One turn: removes what was put in place, then puts back what was preserved. */
  method UndoRecord(fs: SaveFileSystem, item: RestoreBackup) returns (failed: bool)
    modifies fs
    ensures !failed ==> fs.files == UndoOf(old(fs.files), item)
    ensures fs.faults >= old(fs.faults) && (failed ==> fs.faults > old(fs.faults))
  {
    failed := false;
    if item.activated {
      if * {
        fs.faults, failed := fs.faults + 1, true;
      } else {
        fs.files := fs.files - {item.destination};
      }
    }
    if item.backup.Some? {
      if * {
        fs.faults, failed := fs.faults + 1, true;
      } else if item.backup.value in fs.files && item.backup.value != item.destination {
        fs.files := Renamed(fs.files, item.backup.value, item.destination);
      }
    }
  }

  lemma UndoneToStart(files: Saves, staged: seq<StagedFile>, names: seq<FilePath>, backups: seq<RestoreBackup>)
    requires FreshNames(files, staged, names) && |backups| <= |staged|
    ensures UndoneTo(files, staged, names, backups, 0) == files - UsedUpFrom(staged, backups, 0)
  {
  }

  /** The last of the first `n` items for a destination, or -1. */
  function LastFor(staged: seq<StagedFile>, n: nat, p: FilePath): (i: int)
    requires n <= |staged|
    ensures -1 <= i < n && (i >= 0 ==> staged[i].destination == p)
    ensures i == -1 <==> forall j :: 0 <= j < n ==> staged[j].destination != p
  {
    if n == 0 then -1 else if staged[n - 1].destination == p then n - 1 else LastFor(staged, n - 1, p)
  }

  /** A destination holds its last staged content, a used temporary is gone, and the rest is as it was. */
  lemma {:induction false} ActivationMeans(files: Saves, staged: seq<StagedFile>, names: seq<FilePath>, n: nat, p: FilePath)
    requires FreshNames(files, staged, names) && n <= |staged|
    requires p !in names
    ensures var now := ActivatedTo(files, staged, names, n);
            var i := LastFor(staged, n, p);
            if i >= 0 then p in now && now[p] == files[staged[i].temporary]
            else if exists j :: 0 <= j < n && staged[j].temporary == p then p !in now
            else (p in now <==> p in files) && (p in files ==> now[p] == files[p])
  {
    hide Preserved, Renamed, FreshNames;
    if n > 0 {
      ActivationMeans(files, staged, names, n - 1, p);
      FreshAt(files, staged, names, n - 1);
      var item, name := staged[n - 1], names[n - 1];
      assert name in names;
      OneActivated(ActivatedTo(files, staged, names, n - 1), item, name, p);
    }
  }

  lemma FreshAt(files: Saves, staged: seq<StagedFile>, names: seq<FilePath>, i: nat)
    requires FreshNames(files, staged, names) && i < |staged|
    ensures |names| == |staged| && staged[i].temporary in files
    ensures staged[i].destination != names[i]
    ensures forall j :: 0 <= j < |staged| ==> staged[j].destination != staged[i].temporary && staged[i].destination != staged[j].temporary
  {
  }

  lemma OneActivated(before: Saves, item: StagedFile, name: FilePath, p: FilePath)
    requires item.temporary in before && name !in before && p != name
    requires item.destination != name && item.destination != item.temporary
    ensures var kept := Preserved(before, item, name);
            item.temporary in kept
            && var now := Renamed(kept, item.temporary, item.destination);
               if p == item.destination then p in now && now[p] == before[item.temporary]
               else if p == item.temporary then p !in now
               else (p in now <==> p in before) && (p in before ==> now[p] == before[p])
  {
  }

  /** One more record, complete or not, that is true of the files. */
  lemma StandingGrows(files: Saves, staged: seq<StagedFile>, names: seq<FilePath>, backups: seq<RestoreBackup>,
                      r: RestoreBackup)
    requires FreshNames(files, staged, names) && |backups| < |staged|
    requires Standing(ActivatedTo(files, staged, names, |backups|), files, staged, names, backups)
    requires forall i :: 0 <= i < |backups| ==> backups[i].activated
    requires r.destination == staged[|backups|].destination
    requires r.backup == if r.destination in ActivatedTo(files, staged, names, |backups|) then Some(names[|backups|]) else None
    ensures var n := |backups|;
            Standing(if r.activated then ActivatedTo(files, staged, names, n + 1)
                     else Preserved(ActivatedTo(files, staged, names, n), staged[n], names[n]),
                     files, staged, names, backups + [r])
  {
    hide ActivatedTo, Preserved, FreshNames, UsedUpFrom;
    var n, more := |backups|, backups + [r];
    NothingUsedUp(staged, more, ActivatedTo(files, staged, names, n + 1));
    assert more[n] == r && forall i :: 0 <= i < n ==> more[i] == backups[i];
    assert RecordsOf(files, staged, names, more);
    assert forall i :: 0 <= i < |more| - 1 ==> more[i].activated;
  }

  lemma NothingUsedUp(staged: seq<StagedFile>, backups: seq<RestoreBackup>, now: Saves)
    requires |backups| <= |staged|
    ensures UsedUpFrom(staged, backups, |backups|) == {} && now - UsedUpFrom(staged, backups, |backups|) == now
  {
  }

  /** Beyond temporaries that are gone, the files are the original ones. */
  ghost predicate OnlyTemporariesGone(files: Saves, now: Saves, staged: seq<StagedFile>) {
    && (forall p :: p in now ==> p in files && now[p] == files[p])
    && (forall p :: p in files && p !in now ==> p in TemporariesFrom(staged, 0))
  }

  /** The end of a failed activation or of a failed registry restore: unwind what the records say. */
  method Unwind(fs: SaveFileSystem, backups: seq<RestoreBackup>, ghost files: Saves, ghost staged: seq<StagedFile>,
                ghost names: seq<FilePath>)
    returns (clean: bool)
    requires FreshNames(files, staged, names) && |backups| <= |staged|
    requires Standing(fs.files, files, staged, names, backups)
    modifies fs
    ensures clean ==> OnlyTemporariesGone(files, fs.files, staged)
    ensures fs.faults >= old(fs.faults) && (!clean ==> fs.faults > old(fs.faults))
  {
    var failed := RollbackRestoredFiles(fs, backups, files, staged, names);
    clean := !failed;
  }

  /**
   Puts every staged file in place, preserving what was there.  A failure at any
   point unwinds; `clean` tells whether the unwinding worked.
   */
  method ActivateRestoredFiles(fs: SaveFileSystem, staged: seq<StagedFile>, names: seq<FilePath>)
    returns (o: Outcome, backups: seq<RestoreBackup>, clean: bool)
    requires FreshNames(fs.files, staged, names)
    modifies fs
    ensures o.Done? || o.Failed?
    ensures o.Done? ==> |backups| == |staged| && (forall i :: 0 <= i < |backups| ==> backups[i].activated)
    ensures o.Done? ==> fs.files == ActivatedTo(old(fs.files), staged, names, |staged|)
                        && Standing(fs.files, old(fs.files), staged, names, backups)
    ensures o.Failed? && clean ==> OnlyTemporariesGone(old(fs.files), fs.files, staged)
    ensures fs.faults >= old(fs.faults)
    ensures o.Failed? ==> fs.faults > old(fs.faults) + if clean then 0 else 1
  {
    ghost var files := fs.files;
    backups, clean := [], true;
    assert UsedUpFrom(staged, backups, 0) == {};
    hide ActivatedTo, UndoneTo, RecordsOf, OnlyTemporariesGone;
    NothingActivated(files, staged, names);
    for n := 0 to |staged|
      invariant FreshNames(files, staged, names) && |backups| == n && fs.faults >= old(fs.faults)
      invariant fs.files == ActivatedTo(files, staged, names, n) && Standing(fs.files, files, staged, names, backups)
      invariant forall i :: 0 <= i < n ==> backups[i].activated
    {
      var item := staged[n];
      if * {
        fs.faults := fs.faults + 1;
        clean := Unwind(fs, backups, files, staged, names);
        return Failed, backups, clean;
      }
      var was := item.destination in fs.files;
      var record := RestoreBackup(false, item.destination, if was then Some(names[n]) else None);
      StandingGrows(files, staged, names, backups, record);
      StandingGrows(files, staged, names, backups, record.(activated := true));
      ActivatedStep(files, staged, names, n);
      if was {
        fs.files := Renamed(fs.files, item.destination, names[n]);
      }
      if * {
        fs.faults := fs.faults + 1;
        clean := Unwind(fs, backups + [record], files, staged, names);
        return Failed, backups, clean;
      }
      fs.files := Renamed(fs.files, item.temporary, item.destination);
      backups := backups + [record.(activated := true)];
    }
    o := Done;
  }

  lemma NothingActivated(files: Saves, staged: seq<StagedFile>, names: seq<FilePath>)
    requires FreshNames(files, staged, names)
    ensures ActivatedTo(files, staged, names, 0) == files && Standing(files, files, staged, names, [])
  {
    assert UsedUpFrom(staged, [], 0) == {};
  }

  lemma ActivatedStep(files: Saves, staged: seq<StagedFile>, names: seq<FilePath>, n: nat)
    requires FreshNames(files, staged, names) && n < |staged|
    ensures
      var kept := Preserved(ActivatedTo(files, staged, names, n), staged[n], names[n]);
      staged[n].temporary in kept && staged[n].temporary != staged[n].destination
      && ActivatedTo(files, staged, names, n + 1) == Renamed(kept, staged[n].temporary, staged[n].destination)
  {
  }

  /** Removes the preserved copies after a restore that worked. */
  method RemoveRestoreBackups(fs: SaveFileSystem, backups: seq<RestoreBackup>) returns (failed: bool)
    modifies fs
    ensures fs.faults >= old(fs.faults) && (failed ==> fs.faults > old(fs.faults))
    ensures !failed ==> fs.files == old(fs.files) - (set r | r in backups && r.backup.Some? :: r.backup.value)
  {
    failed := false;
    for i := 0 to |backups|
      invariant fs.faults >= old(fs.faults) && (failed ==> fs.faults > old(fs.faults))
      invariant !failed ==> fs.files == old(fs.files) - (set r | r in backups[..i] && r.backup.Some? :: r.backup.value)
    {
      assert backups[..i + 1] == backups[..i] + [backups[i]];
      if backups[i].backup.Some? {
        if * {
          fs.faults, failed := fs.faults + 1, true;
        } else {
          fs.files := fs.files - {backups[i].backup.value};
        }
      }
    }
    assert backups[..|backups|] == backups;
  }

  /** Removes the temporaries that were not used up. */
  method CleanupStagedRestoreFiles(fs: SaveFileSystem, staged: seq<StagedFile>) returns (failed: bool)
    modifies fs
    ensures fs.faults >= old(fs.faults) && (failed ==> fs.faults > old(fs.faults))
    ensures !failed ==> fs.files == old(fs.files) - TemporariesFrom(staged, 0)
  {
    failed := false;
    for i := 0 to |staged|
      invariant fs.faults >= old(fs.faults) && (failed ==> fs.faults > old(fs.faults))
      invariant !failed ==> fs.files == old(fs.files) - (set j | 0 <= j < i :: staged[j].temporary)
    {
      if * {
        fs.faults, failed := fs.faults + 1, true;
      } else {
        fs.files := fs.files - {staged[i].temporary};
      }
    }
  }
}
