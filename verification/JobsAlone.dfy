/**
 What the actions of a job come to when no other thread acts between them.
 */
module JobsAlone {
  import opened Files
  import opened Coordination

  /** One thread's actions, one after the other. */
  function Acts(c: Catalog, keep: nat, w: World, t: nat, actions: seq<Action>): World {
    Run(c, keep, w, StepsOf(t, actions))
  }

  function StepsOf(t: nat, actions: seq<Action>): seq<(nat, Action)> {
    seq(|actions|, i requires 0 <= i < |actions| => (t, actions[i]))
  }

  lemma NoActs(c: Catalog, keep: nat, w: World, t: nat)
    ensures Acts(c, keep, w, t, []) == w
  {
  }

  lemma OneMore(c: Catalog, keep: nat, w: World, t: nat, actions: seq<Action>, a: Action)
    requires t in Acts(c, keep, w, t, actions).jobs
    ensures Acts(c, keep, w, t, actions + [a]) == Apply(c, keep, Acts(c, keep, w, t, actions), t, a)
  {
    hide Apply;
    var steps := StepsOf(t, actions + [a]);
    assert steps[..|steps| - 1] == StepsOf(t, actions) && steps[|steps| - 1] == (t, a);
  }

  /** An idle thread and free locks. */
  predicate Ready(w: World, t: nat) {
    t in w.jobs && w.jobs[t].Idle? && w.syncMu.None? && w.backupMu.None?
  }

  /** A backup adds its snapshot. */
  lemma BackupAlone(c: Catalog, keep: nat, w: World, t: nat, id: string)
    requires Ready(w, t) && id !in w.used
    ensures Acts(c, keep, w, t, [] + [LockBackup(None)] + [Create(id)] + [UnlockBackup]) ==
            w.(present := w.present + {id}, used := w.used + {id})
  {
    NoActs(c, keep, w, t);
    hide Acts, SnapshotsBeyond;
    OneMore(c, keep, w, t, [], LockBackup(None));
    OneMore(c, keep, w, t, [] + [LockBackup(None)], Create(id));
    OneMore(c, keep, w, t, [] + [LockBackup(None)] + [Create(id)], UnlockBackup);
    assert w.jobs[t := Idle] == w.jobs;
  }

  /** Local retention deletes an unsynced snapshot beyond the newest. */
  lemma TrimAlone(c: Catalog, keep: nat, w: World, t: nat, id: string)
    requires Ready(w, t) && id in w.present && Beyond(c, keep, w.present, id) && id !in w.active && id !in w.synced
    ensures Acts(c, keep, w, t, [] + [LockBackup(Some(c.game(id)))] + [ListLocal] + [TrimOne(id)] + [UnlockBackup]) ==
            w.(present := w.present - {id})
  {
    NoActs(c, keep, w, t);
    hide Acts, Beyond;
    var first := LockBackup(Some(c.game(id)));
    OneMore(c, keep, w, t, [], first);
    OneMore(c, keep, w, t, [] + [first], ListLocal);
    OneMore(c, keep, w, t, [] + [first] + [ListLocal], TrimOne(id));
    OneMore(c, keep, w, t, [] + [first] + [ListLocal] + [TrimOne(id)], UnlockBackup);
    assert w.jobs[t := Idle] == w.jobs && w.synced - {id} == w.synced;
  }

  /** An import adds its snapshot as synced. */
  lemma ImportAlone(c: Catalog, keep: nat, w: World, t: nat, id: string)
    requires Ready(w, t) && id !in w.present
    ensures Acts(c, keep, w, t, [] + [Check(id)] + [Import]) ==
            w.(present := w.present + {id}, synced := w.synced + {id}, used := w.used + {id})
  {
    NoActs(c, keep, w, t);
    hide Acts, SnapshotsBeyond;
    OneMore(c, keep, w, t, [], Check(id));
    OneMore(c, keep, w, t, [] + [Check(id)], Import);
    assert w.jobs[t := Idle] == w.jobs;
  }

  /** A sync protects its batch while it uploads, marks what it uploaded, and lets the batch go. */
  lemma SyncAlone(c: Catalog, keep: nat, w: World, t: nat, pending: set<string>, id: string)
    requires Ready(w, t) && w.active == {} && pending <= w.present - w.synced && id in pending
    ensures
      var uploading := [] + [LockSync] + [LockSyncBackup(Gathering)] + [Gather(pending)] + [UnlockBackup];
      var rest := uploading + [MarkSynced(id)] + [LockSyncBackup(Clearing(pending))] + [Clear] + [UnlockBackup] + [UnlockSync];
      && Acts(c, keep, w, t, uploading).active == pending && Acts(c, keep, w, t, uploading).backupMu.None?
      && Acts(c, keep, w, t, rest) == w.(synced := w.synced + {id})
  {
    NoActs(c, keep, w, t);
    hide Acts, SnapshotsBeyond;
    var a := [] + [LockSync];
    OneMore(c, keep, w, t, [], LockSync);
    OneMore(c, keep, w, t, a, LockSyncBackup(Gathering));
    OneMore(c, keep, w, t, a + [LockSyncBackup(Gathering)], Gather(pending));
    OneMore(c, keep, w, t, a + [LockSyncBackup(Gathering)] + [Gather(pending)], UnlockBackup);
    var b := a + [LockSyncBackup(Gathering)] + [Gather(pending)] + [UnlockBackup];
    assert Acts(c, keep, w, t, b) == w.(jobs := w.jobs[t := Uploading(pending)], syncMu := Some(t), active := pending);
    OneMore(c, keep, w, t, b, MarkSynced(id));
    OneMore(c, keep, w, t, b + [MarkSynced(id)], LockSyncBackup(Clearing(pending)));
    OneMore(c, keep, w, t, b + [MarkSynced(id)] + [LockSyncBackup(Clearing(pending))], Clear);
    OneMore(c, keep, w, t, b + [MarkSynced(id)] + [LockSyncBackup(Clearing(pending))] + [Clear], UnlockBackup);
    OneMore(c, keep, w, t, b + [MarkSynced(id)] + [LockSyncBackup(Clearing(pending))] + [Clear] + [UnlockBackup], UnlockSync);
    assert w.jobs[t := Idle] == w.jobs;
  }

  lemma DropAndUnlock(c: Catalog, keep: nat, w: World, t: nat, actions: seq<Action>, v: World, id: string, excess: set<string>)
    requires v == Acts(c, keep, w, t, actions)
    requires t in v.jobs && v.jobs[t] == Dropping(id, excess)
    ensures Acts(c, keep, w, t, actions + [Drop] + [UnlockBackup] + [UnlockSync]) ==
            Without(v, id).(jobs := v.jobs[t := Idle], syncMu := None, backupMu := None)
  {
    hide Acts, SnapshotsBeyond, Beyond, MayEnter;
    OneMore(c, keep, w, t, actions, Drop);
    OneMore(c, keep, w, t, actions + [Drop], UnlockBackup);
    OneMore(c, keep, w, t, actions + [Drop] + [UnlockBackup], UnlockSync);
  }

  /** Retention after a sync deletes a snapshot beyond the newest, synced or not. */
  lemma RetainAlone(c: Catalog, keep: nat, w: World, t: nat, id: string)
    requires Ready(w, t) && id in w.present && Beyond(c, keep, w.present, id)
    ensures
      var excess := SnapshotsBeyond(c, keep, w.present, c.game(id));
      var begun := [] + [LockSync] + [ListExcess(c.game(id))] + [LockSyncBackup(Dropping(id, excess - {id}))];
      Acts(c, keep, w, t, begun + [Drop] + [UnlockBackup] + [UnlockSync]) ==
      w.(present := w.present - {id}, synced := w.synced - {id})
  {
    NoActs(c, keep, w, t);
    hide Acts, Beyond;
    var excess := SnapshotsBeyond(c, keep, w.present, c.game(id));
    assert id in excess;
    OneMore(c, keep, w, t, [], LockSync);
    OneMore(c, keep, w, t, [] + [LockSync], ListExcess(c.game(id)));
    hide SnapshotsBeyond;
    OneMore(c, keep, w, t, [] + [LockSync] + [ListExcess(c.game(id))], LockSyncBackup(Dropping(id, excess - {id})));
    var begun := [] + [LockSync] + [ListExcess(c.game(id))] + [LockSyncBackup(Dropping(id, excess - {id}))];
    DropAndUnlock(c, keep, w, t, begun, Acts(c, keep, w, t, begun), id, excess - {id});
    assert w.jobs[t := Idle] == w.jobs;
  }

  /** A requested deletion deletes. */
  lemma DeleteAlone(c: Catalog, keep: nat, w: World, t: nat, id: string)
    requires Ready(w, t)
    ensures Acts(c, keep, w, t, [] + [LockSync] + [LockSyncBackup(Deleting(id))] + [Delete] + [UnlockBackup] + [UnlockSync]) ==
            w.(present := w.present - {id}, synced := w.synced - {id})
  {
    NoActs(c, keep, w, t);
    hide Acts, SnapshotsBeyond;
    var a := [] + [LockSync] + [LockSyncBackup(Deleting(id))];
    OneMore(c, keep, w, t, [], LockSync);
    OneMore(c, keep, w, t, [] + [LockSync], LockSyncBackup(Deleting(id)));
    OneMore(c, keep, w, t, a, Delete);
    OneMore(c, keep, w, t, a + [Delete], UnlockBackup);
    OneMore(c, keep, w, t, a + [Delete] + [UnlockBackup], UnlockSync);
    assert w.jobs[t := Idle] == w.jobs;
  }
}
