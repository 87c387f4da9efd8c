/**
 The coordinator's locks: which snapshots may go while uploads, backups,
 retention, deletion and imports run side by side.

 `syncMu` is taken before `backupMu`.  An action is what a thread does between
 two points where others may act; one that is not possible where it is applied
 changes nothing.
 */
module Coordination {
  import opened Files
  import opened Sets

  /** What a manifest fixes for good: its game and when it was created. */
  datatype Catalog = Catalog(game: string -> string, created: string -> int)
  {
    /** No two snapshots of one game were created at the same time. */
    ghost predicate Distinct() {
      forall a, b :: game(a) == game(b) && created(a) == created(b) ==> a == b
    }
  }

  datatype Job =
    | Idle
    | Backing(inSync: bool)                                     // Backup, or the pre-restore snapshot
    | Trimming(of: string)                                      // applyLocalRetention, before its query
    | Trim(excess: set<string>, wereSynced: set<string>)        // and after it
    | Importing(id: string)                                     // Reconcile, after HasSnapshot said no
    | Syncing
    | Gathering | Gathered(pending: set<string>)
    | Uploading(pending: set<string>)
    | Clearing(pending: set<string>) | Cleared
    | Retaining(excess: set<string>)                            // applyRetention, after its query
    | Dropping(id: string, excess: set<string>) | Dropped(excess: set<string>)
    | Deleting(id: string) | Deleted

  predicate HoldsSync(j: Job) {
    !(j.Idle? || (j.Backing? && !j.inSync) || j.Trimming? || j.Trim? || j.Importing?)
  }

  predicate HoldsBackup(j: Job) {
    j.Backing? || j.Trimming? || j.Trim? || j.Gathering? || j.Gathered? || j.Clearing? || j.Cleared?
    || j.Dropping? || j.Dropped? || j.Deleting? || j.Deleted?
  }

  /** The batch that a thread has in `activeSyncSnapshots`. */
  function Batch(j: Job): set<string> {
    if j.Gathered? || j.Uploading? || j.Clearing? then j.pending else {}
  }

  /** What retention may still delete by its query. */
  function Excess(j: Job): set<string> {
    match j
    case Trim(excess, _) => excess
    case Retaining(excess) => excess
    case Dropping(id, excess) => excess + {id}
    case Dropped(excess) => excess
    case _ => {}
  }

  datatype World = World(
    jobs: map<nat, Job>,
    syncMu: Option<nat>,
    backupMu: Option<nat>,
    active: set<string>,       // activeSyncSnapshots
    present: set<string>,      // the snapshot table
    synced: set<string>,       // the rows with remote state "synced"
    used: set<string>)         // ids that exist anywhere; core.NewID gives others

  datatype Action =
    | LockBackup(trimming: Option<string>)     // Backup, or its local retention of a game
    | Create(id: string)
    | ListLocal
    | TrimOne(id: string)
    | Check(id: string) | Import
    | LockSync | LockSyncBackup(next: Job) | Gather(pending: set<string>)
    | MarkSynced(id: string)
    | Clear
    | ListExcess(gameID: string)
    | Drop
    | Delete
    | UnlockBackup | UnlockSync
    | Crash

  /** SnapshotsBeyond, for a table and a number to keep. */
  function Newer(c: Catalog, present: set<string>, id: string): set<string> {
    set x | x in present && c.game(x) == c.game(id) && c.created(x) > c.created(id)
  }

  predicate Beyond(c: Catalog, keep: nat, present: set<string>, id: string) {
    |Newer(c, present, id)| >= keep
  }

  function SnapshotsBeyond(c: Catalog, keep: nat, present: set<string>, game: string): set<string> {
    set x | x in present && c.game(x) == game && Beyond(c, keep, present, x)
  }

  /** The number of snapshots to keep that a setting stands for. */
  function Keep(setting: nat): nat {
    if setting == 0 then 50 else setting
  }

  function Go(w: World, t: nat, j: Job): World {
    w.(jobs := w.jobs[t := j])
  }

  function Without(w: World, id: string): World {
    w.(present := w.present - {id}, synced := w.synced - {id})
  }

  /** The job of a thread that holds `syncMu` after it took `backupMu` for `next`. */
  predicate MayEnter(j: Job, next: Job) {
    match next
    case Backing(inSync) => j.Syncing? && inSync
    case Gathering => j.Syncing?
    case Clearing(pending) => j == Uploading(pending)
    case Dropping(id, excess) => j.Retaining? && id in j.excess && excess == j.excess - {id}
    case Deleting(_) => j.Syncing?
    case _ => false
  }

  /** What follows when a thread gives `backupMu` back. */
  function AfterBackup(j: Job): Job {
    match j
    case Backing(inSync) => if inSync then Syncing else Idle
    case Trimming(_) => Idle
    case Trim(_, _) => Idle
    case Gathered(pending) => Uploading(pending)
    case Dropped(excess) => Retaining(excess)
    case _ => Syncing
  }

  /** The states in which a thread may give `backupMu` back: an error may end Gathering, Dropping and Deleting early. */
  predicate MayUnlock(j: Job) {
    HoldsBackup(j) && !j.Clearing?
  }

  function Apply(c: Catalog, keep: nat, w: World, t: nat, a: Action): World
    requires t in w.jobs
  {
    var j := w.jobs[t];
    match a
    case LockBackup(trimming) =>
      if j.Idle? && w.backupMu.None?
      then Go(w, t, if trimming.None? then Backing(false) else Trimming(trimming.value)).(backupMu := Some(t)) else w
    case Create(id) =>
      if j.Backing? && id !in w.used then w.(present := w.present + {id}, used := w.used + {id}) else w
    case ListLocal =>
      if j.Trimming? then Go(w, t, Trim(SnapshotsBeyond(c, keep, w.present, j.of), w.synced)) else w
    case TrimOne(id) =>
      if j.Trim? && id in j.excess && id !in w.active && id !in j.wereSynced
      then Go(Without(w, id), t, Trim(j.excess - {id}, j.wereSynced)) else w
    case Check(id) =>
      if j.Idle? && id !in w.present then Go(w, t, Importing(id)).(used := w.used + {id}) else w
    case Import =>
      if j.Importing? then Go(w, t, Idle).(present := w.present + {j.id}, synced := w.synced + {j.id}) else w
    case LockSync =>
      if j.Idle? && w.syncMu.None? then Go(w, t, Syncing).(syncMu := Some(t)) else w
    case LockSyncBackup(next) =>
      if w.backupMu.None? && MayEnter(j, next) then Go(w, t, next).(backupMu := Some(t)) else w
    case Gather(pending) =>
      if j.Gathering? && pending <= w.present - w.synced
      then Go(w, t, Gathered(pending)).(active := w.active + pending) else w
    case MarkSynced(id) =>
      if j.Uploading? && id in j.pending && id in w.present then w.(synced := w.synced + {id}) else w
    case Clear =>
      if j.Clearing? then Go(w, t, Cleared).(active := w.active - j.pending) else w
    case ListExcess(game) =>
      if j.Syncing? then Go(w, t, Retaining(SnapshotsBeyond(c, keep, w.present, game))) else w
    case Drop =>
      if j.Dropping? then Go(Without(w, j.id), t, Dropped(j.excess)) else w
    case Delete =>
      if j.Deleting? then Go(Without(w, j.id), t, Deleted) else w
    case UnlockBackup =>
      if MayUnlock(j) then Go(w, t, AfterBackup(j)).(backupMu := None) else w
    case UnlockSync =>
      if j.Syncing? || j.Retaining? then Go(w, t, Idle).(syncMu := None) else w
    case Crash =>
      w.(jobs := map u | u in w.jobs :: Idle, syncMu := None, backupMu := None, active := {})
  }

  function Run(c: Catalog, keep: nat, w: World, steps: seq<(nat, Action)>): World {
    if steps == [] then w
    else
      var before := Run(c, keep, w, steps[..|steps| - 1]);
      var (t, a) := steps[|steps| - 1];
      if t in before.jobs then Apply(c, keep, before, t, a) else before
  }

  // ----- The invariant -----

  ghost predicate Locked(w: World) {
    && (w.syncMu.Some? ==> w.syncMu.value in w.jobs)
    && forall t :: t in w.jobs ==>
         && (HoldsSync(w.jobs[t]) <==> w.syncMu == Some(t))
         && (HoldsBackup(w.jobs[t]) <==> w.backupMu == Some(t))
  }

  ghost predicate Protected(w: World) {
    && w.active == (if w.syncMu.Some? && w.syncMu.value in w.jobs then Batch(w.jobs[w.syncMu.value]) else {})
    && w.active <= w.present
  }

  /** What one job relies on about the table. */
  ghost predicate JobTrue(c: Catalog, keep: nat, w: World, j: Job) {
    && (j.Importing? ==> j.id in w.used && j.id !in w.active && (j.id in w.present ==> j.id in w.synced))
    && (j.Trim? ==> forall id :: id in j.excess ==>
          id in w.present && (id in w.synced ==> id in j.wereSynced || id in w.active))
    && (forall id :: id in Excess(j) ==> Beyond(c, keep, w.present, id))
  }

  ghost predicate Invariant(c: Catalog, keep: nat, w: World) {
    && Locked(w) && Protected(w)
    && w.synced <= w.present <= w.used
    && forall t :: t in w.jobs ==> JobTrue(c, keep, w, w.jobs[t])
  }

  /** One thread's job changed, and with it at most that thread's hold of a lock. */
  lemma OneJobKeepsLocked(w: World, w': World, t: nat)
    requires Locked(w) && t in w.jobs && t in w'.jobs && w'.jobs == w.jobs[t := w'.jobs[t]]
    requires HoldsSync(w'.jobs[t]) <==> w'.syncMu == Some(t)
    requires HoldsBackup(w'.jobs[t]) <==> w'.backupMu == Some(t)
    requires w'.syncMu == w.syncMu || (w.syncMu.None? && w'.syncMu == Some(t)) || (w.syncMu == Some(t) && w'.syncMu.None?)
    requires w'.backupMu == w.backupMu || (w.backupMu.None? && w'.backupMu == Some(t)) || (w.backupMu == Some(t) && w'.backupMu.None?)
    ensures Locked(w')
  {
    hide HoldsSync, HoldsBackup;
  }

  predicate MovesLocks(a: Action) {
    a.LockBackup? || a.LockSync? || a.LockSyncBackup? || a.UnlockBackup? || a.UnlockSync? || a.Crash?
  }

  lemma LockingKeepsLocked(c: Catalog, keep: nat, w: World, t: nat, a: Action)
    requires Locked(w) && t in w.jobs && MovesLocks(a)
    ensures Locked(Apply(c, keep, w, t, a))
  {
    if !a.Crash? {
      assert (HoldsSync(w.jobs[t]) <==> w.syncMu == Some(t)) && (HoldsBackup(w.jobs[t]) <==> w.backupMu == Some(t));
      hide Locked, SnapshotsBeyond;
      assert w.jobs == w.jobs[t := w.jobs[t]];
      OneJobKeepsLocked(w, Apply(c, keep, w, t, a), t);
    }
  }

  lemma ApplyKeepsLocked(c: Catalog, keep: nat, w: World, t: nat, a: Action)
    requires Locked(w) && t in w.jobs
    ensures Locked(Apply(c, keep, w, t, a))
  {
    if MovesLocks(a) {
      LockingKeepsLocked(c, keep, w, t, a);
    } else {
      assert (HoldsSync(w.jobs[t]) <==> w.syncMu == Some(t)) && (HoldsBackup(w.jobs[t]) <==> w.backupMu == Some(t));
      hide Locked, SnapshotsBeyond, MayEnter, MayUnlock, AfterBackup;
      assert w.jobs == w.jobs[t := w.jobs[t]];
      OneJobKeepsLocked(w, Apply(c, keep, w, t, a), t);
    }
  }

  lemma ApplyKeepsProtected(c: Catalog, keep: nat, w: World, t: nat, a: Action)
    requires Locked(w) && Protected(w) && t in w.jobs
    ensures Protected(Apply(c, keep, w, t, a))
  {
    hide SnapshotsBeyond, Beyond;
    ApplyKeepsLocked(c, keep, w, t, a);
  }

  /** A snapshot stays beyond the newest `keep` when one that is beyond them is deleted, and when any is added. */
  lemma BeyondStays(c: Catalog, keep: nat, present: set<string>, gone: string, id: string)
    requires Beyond(c, keep, present, id) && (gone in present ==> Beyond(c, keep, present, gone))
    ensures Beyond(c, keep, present - {gone}, id)
  {
    var after := Newer(c, present - {gone}, id);
    if gone in Newer(c, present, id) {
      SubsetIsNotLarger(Newer(c, present, gone), after);
    } else {
      assert after == Newer(c, present, id);
    }
  }

  lemma BeyondGrows(c: Catalog, keep: nat, present: set<string>, more: set<string>, id: string)
    requires Beyond(c, keep, present, id) && present <= more
    ensures Beyond(c, keep, more, id)
  {
    SubsetIsNotLarger(Newer(c, present, id), Newer(c, more, id));
  }

  /** The table grows, and only active snapshots or new ones become synced. */
  lemma GrowingKeepsJob(c: Catalog, keep: nat, w: World, w': World, j: Job)
    requires JobTrue(c, keep, w, j)
    requires w.present <= w'.present && w.used <= w'.used && w.synced <= w'.synced
    requires forall id :: id in w'.present && id !in w.present ==> id in w'.synced || id !in w.used
    requires forall id :: id in w'.synced && id !in w.synced ==> id in w'.active || id !in w.present
    requires forall id :: id in w'.active && id !in w.active ==> id in w.present && id !in w.synced
    requires j.Trim? ==> w.active <= w'.active
    ensures JobTrue(c, keep, w', j)
  {
    hide Beyond;
    forall id | id in Excess(j)
      ensures Beyond(c, keep, w'.present, id)
    {
      BeyondGrows(c, keep, w.present, w'.present, id);
    }
  }

  /** A snapshot goes that is beyond the newest, or no other job retains anything. */
  lemma DroppingKeepsJob(c: Catalog, keep: nat, w: World, gone: string, j: Job)
    requires JobTrue(c, keep, w, j) && !j.Trim?
    requires Excess(j) != {} ==> Beyond(c, keep, w.present, gone)
    ensures forall w': World :: w' == Without(w, gone).(jobs := w'.jobs) ==> JobTrue(c, keep, w', j)
  {
    hide Beyond;
    forall id | id in Excess(j)
      ensures Beyond(c, keep, w.present - {gone}, id)
    {
      BeyondStays(c, keep, w.present, gone, id);
    }
  }

  predicate Deletes(a: Action) {
    a.TrimOne? || a.Drop? || a.Delete?
  }

  /** Every action that deletes nothing keeps what the jobs rely on. */
  lemma OtherActionsKeepJobs(c: Catalog, keep: nat, w: World, t: nat, a: Action)
    requires Invariant(c, keep, w) && t in w.jobs && !Deletes(a)
    ensures var w' := Apply(c, keep, w, t, a); forall u :: u in w'.jobs ==> JobTrue(c, keep, w', w'.jobs[u])
  {
    OwnJobStaysTrue(c, keep, w, t, a);
    var w' := Apply(c, keep, w, t, a);
    forall u | u in w'.jobs
      ensures JobTrue(c, keep, w', w'.jobs[u])
    {
      if u != t && !a.Crash? {
        JobOfOtherStaysTrue(c, keep, w, t, a, u);
      }
    }
  }

  lemma JobOfOtherStaysTrue(c: Catalog, keep: nat, w: World, t: nat, a: Action, u: nat)
    requires Invariant(c, keep, w) && t in w.jobs && u in w.jobs && u != t && !Deletes(a) && !a.Crash?
    ensures var w' := Apply(c, keep, w, t, a); w'.jobs[u] == w.jobs[u] && JobTrue(c, keep, w', w.jobs[u])
  {
    assert JobTrue(c, keep, w, w.jobs[t]) && JobTrue(c, keep, w, w.jobs[u]);
    assert w.jobs[u].Trim? ==> w.backupMu == Some(u);
    hide Beyond, SnapshotsBeyond, Newer, Excess;
    var w' := Apply(c, keep, w, t, a);
    GrowingKeepsJob(c, keep, w, w', w.jobs[u]);
  }

  lemma OwnJobStaysTrue(c: Catalog, keep: nat, w: World, t: nat, a: Action)
    requires Invariant(c, keep, w) && t in w.jobs && !Deletes(a)
    ensures var w' := Apply(c, keep, w, t, a); t in w'.jobs && JobTrue(c, keep, w', w'.jobs[t])
  {
    var w' := Apply(c, keep, w, t, a);
    assert JobTrue(c, keep, w, w.jobs[t]);
    if a.LockSyncBackup? || a.UnlockBackup? {
      JobAcrossLock(c, keep, w, t, a);
    } else if w'.jobs[t] == w.jobs[t] && !a.Crash? {
      hide Locked, Protected, Beyond, Newer, MayEnter, HoldsBackup, HoldsSync, Excess, JobTrue;
      GrowingKeepsJob(c, keep, w, w', w.jobs[t]);
    } else {
      JobMovesOn(c, keep, w, t, a);
    }
  }

  /** A job that moves on otherwise relies on nothing, or on what it has just read. */
  lemma JobMovesOn(c: Catalog, keep: nat, w: World, t: nat, a: Action)
    requires t in w.jobs && JobTrue(c, keep, w, w.jobs[t]) && !Deletes(a) && w.active <= w.present <= w.used
    requires Apply(c, keep, w, t, a).jobs[t] != w.jobs[t] || a.Crash?
    requires !a.LockSyncBackup? && !a.UnlockBackup?
    ensures var w' := Apply(c, keep, w, t, a); t in w'.jobs && JobTrue(c, keep, w', w'.jobs[t])
  {
    hide Beyond, Newer, MayEnter, HoldsBackup, HoldsSync, MayUnlock, AfterBackup;
  }

  /** Taking or giving back `backupMu` moves a job on without touching the table. */
  lemma JobAcrossLock(c: Catalog, keep: nat, w: World, t: nat, a: Action)
    requires t in w.jobs && JobTrue(c, keep, w, w.jobs[t]) && (a.LockSyncBackup? || a.UnlockBackup?)
    ensures var w' := Apply(c, keep, w, t, a); t in w'.jobs && JobTrue(c, keep, w', w'.jobs[t])
  {
    hide Beyond, Newer, SnapshotsBeyond;
  }

  /** A deletion keeps what the jobs rely on: retention deletes beyond the newest only, and a request excludes both retentions. */
  lemma DeletionsKeepJobs(c: Catalog, keep: nat, w: World, t: nat, a: Action)
    requires Invariant(c, keep, w) && t in w.jobs && Deletes(a)
    ensures var w' := Apply(c, keep, w, t, a); forall u :: u in w'.jobs ==> JobTrue(c, keep, w', w'.jobs[u])
  {
    hide Beyond, Newer;
    var j, w' := w.jobs[t], Apply(c, keep, w, t, a);
    if w' != w {
      var gone := if a.TrimOne? then a.id else j.id;
      assert JobTrue(c, keep, w, j);
      DroppingKeepsExcess(c, keep, w, gone, j);
      forall u | u in w'.jobs
        ensures JobTrue(c, keep, w', w'.jobs[u])
      {
        if u != t {
          assert !w.jobs[u].Trim? && (a.Delete? ==> Excess(w.jobs[u]) == {});
          DroppingKeepsJob(c, keep, w, gone, w.jobs[u]);
        }
      }
    }
  }

  lemma DroppingKeepsExcess(c: Catalog, keep: nat, w: World, gone: string, j: Job)
    requires JobTrue(c, keep, w, j) && (Excess(j) != {} ==> Beyond(c, keep, w.present, gone))
    ensures forall id :: id in Excess(j) ==> Beyond(c, keep, w.present - {gone}, id)
  {
    hide Beyond;
    forall id | id in Excess(j)
      ensures Beyond(c, keep, w.present - {gone}, id)
    {
      BeyondStays(c, keep, w.present, gone, id);
    }
  }

  /** Nothing runs, and the table is as a start finds it. */
  ghost predicate Fresh(w: World) {
    && (forall t :: t in w.jobs ==> w.jobs[t] == Idle)
    && w.syncMu.None? && w.backupMu.None? && w.active == {} && w.synced <= w.present <= w.used
  }

  lemma ApplyKeepsTable(c: Catalog, keep: nat, w: World, t: nat, a: Action)
    requires Invariant(c, keep, w) && t in w.jobs
    ensures var w' := Apply(c, keep, w, t, a); w'.synced <= w'.present <= w'.used
  {
    hide Beyond, SnapshotsBeyond;
    assert JobTrue(c, keep, w, w.jobs[t]);
  }

  lemma {:induction false} RunKeepsInvariant(c: Catalog, keep: nat, w: World, steps: seq<(nat, Action)>)
    requires Fresh(w)
    ensures Invariant(c, keep, Run(c, keep, w, steps))
  {
    hide Beyond, JobTrue, Apply, Locked, Protected;
    if steps == [] {
      FreshIsTrue(c, keep, w);
    } else {
      var last := |steps| - 1;
      RunKeepsInvariant(c, keep, w, steps[..last]);
      var before := Run(c, keep, w, steps[..last]);
      var (t, a) := steps[last];
      if t in before.jobs {
        ApplyKeepsLocked(c, keep, before, t, a);
        ApplyKeepsProtected(c, keep, before, t, a);
        ApplyKeepsTable(c, keep, before, t, a);
        if Deletes(a) {
          DeletionsKeepJobs(c, keep, before, t, a);
        } else {
          OtherActionsKeepJobs(c, keep, before, t, a);
        }
      }
    }
  }

  lemma FreshIsTrue(c: Catalog, keep: nat, w: World)
    requires Fresh(w)
    ensures Invariant(c, keep, w)
  {
  }

  // ----- What every run keeps -----

  /**
   In-flight uploads are protected, in every run: no batch is active while
   `syncMu` is free, no action deletes a snapshot of the active batch or imports
   another in its place, and an upload that marks one of its snapshots finds the
   row and marks it.
   */
  lemma UploadsAreProtected(c: Catalog, keep: nat, w: World, steps: seq<(nat, Action)>, t: nat, a: Action)
    requires Fresh(w) && t in Run(c, keep, w, steps).jobs
    ensures
      var now := Run(c, keep, w, steps);
      && (now.syncMu.None? ==> now.active == {})
      && now.active <= Apply(c, keep, now, t, a).present
      && (now.jobs[t].Importing? ==> now.jobs[t].id !in now.active)
      && (now.jobs[t].Uploading? ==> now.jobs[t].pending == now.active <= now.present)
      && (now.jobs[t].Uploading? && a.MarkSynced? && a.id in now.jobs[t].pending ==> a.id in Apply(c, keep, now, t, a).synced)
  {
    var now := Run(c, keep, w, steps);
    RunKeepsInvariant(c, keep, w, steps);
    ApplyKeepsProtected(c, keep, now, t, a);
    hide Run, Beyond, SnapshotsBeyond, JobTrue;
  }

  lemma RetentionDropsBeyond(c: Catalog, keep: nat, w: World, t: nat, a: Action, id: string)
    requires Invariant(c, keep, w) && t in w.jobs
    requires id in w.present && id !in Apply(c, keep, w, t, a).present
    ensures a.TrimOne? || a.Drop? || a.Delete?
    ensures a.TrimOne? || a.Drop? ==> Beyond(c, keep, w.present, id)
    ensures a.TrimOne? ==> id !in w.synced
  {
    assert JobTrue(c, keep, w, w.jobs[t]);
    hide Beyond, SnapshotsBeyond;
  }

  /**
   Retention safety, in every run with a fixed setting: what retention deletes
   has at least as many newer snapshots of its game at that moment as the setting
   keeps, so the newest one is never deleted, and local retention never deletes
   a synced one.
   */
  lemma RetentionKeepsNewest(c: Catalog, setting: nat, w: World, steps: seq<(nat, Action)>, t: nat, a: Action, id: string)
    requires Fresh(w) && t in Run(c, Keep(setting), w, steps).jobs
    requires id in Run(c, Keep(setting), w, steps).present
    requires id !in Apply(c, Keep(setting), Run(c, Keep(setting), w, steps), t, a).present
    ensures a.TrimOne? || a.Drop? || a.Delete?
    ensures a.TrimOne? || a.Drop? ==>
              var newer := Newer(c, Run(c, Keep(setting), w, steps).present, id);
              newer != {} && |newer| >= setting && (setting == 0 ==> |newer| >= 50)
    ensures a.TrimOne? ==> id !in Run(c, Keep(setting), w, steps).synced
  {
    RunKeepsInvariant(c, Keep(setting), w, steps);
    RetentionDropsBeyond(c, Keep(setting), Run(c, Keep(setting), w, steps), t, a, id);
    hide Run, SnapshotsBeyond, Newer, Apply, Invariant;
  }

  // ----- The query -----

  /** The rows of a game, newest first, each once. */
  ghost predicate NewestFirst(c: Catalog, present: set<string>, game: string, rows: seq<string>) {
    && (forall x :: x in rows <==> x in present && c.game(x) == game)
    && (forall i, j :: 0 <= i < j < |rows| ==> rows[i] != rows[j] && c.created(rows[i]) >= c.created(rows[j]))
  }

  function Elements(s: seq<string>): set<string> {
    set x | x in s
  }

  lemma {:induction false} ElementsSize(s: seq<string>)
    requires forall i, j :: 0 <= i < j < |s| ==> s[i] != s[j]
    ensures |Elements(s)| == |s|
  {
    if s != [] {
      var init, last := s[..|s| - 1], s[|s| - 1];
      ElementsSize(init);
      assert Elements(s) == Elements(init) + {last};
      assert last !in init;
    }
  }

  /** Skipping the first `keep` rows of the ordered query leaves exactly the snapshots with `keep` newer ones. */
  lemma OffsetIsBeyond(c: Catalog, keep: nat, present: set<string>, game: string, rows: seq<string>)
    requires c.Distinct() && NewestFirst(c, present, game, rows)
    ensures Elements(if keep <= |rows| then rows[keep..] else []) == SnapshotsBeyond(c, keep, present, game)
  {
    forall i | 0 <= i < |rows|
      ensures |Newer(c, present, rows[i])| == i
    {
      assert rows[i] in rows;
      NewerIsBefore(c, present, game, rows, i);
      ElementsSize(rows[..i]);
    }
    hide NewestFirst, Newer;
    forall x
      ensures x in (if keep <= |rows| then rows[keep..] else []) <==> x in SnapshotsBeyond(c, keep, present, game)
    {
      InRows(c, keep, present, game, rows, x);
    }
  }

  lemma NewerIsBefore(c: Catalog, present: set<string>, game: string, rows: seq<string>, i: nat)
    requires c.Distinct() && NewestFirst(c, present, game, rows) && i < |rows|
    ensures Newer(c, present, rows[i]) == Elements(rows[..i])
  {
    assert rows[i] in rows;
    forall x | x in Newer(c, present, rows[i])
      ensures x in rows[..i]
    {
      assert x in rows;
      var j :| 0 <= j < |rows| && rows[j] == x;
      assert j < i;
    }
    forall j | 0 <= j < i
      ensures rows[j] in Newer(c, present, rows[i])
    {
      assert rows[j] in rows && rows[j] != rows[i];
    }
  }

  lemma InRows(c: Catalog, keep: nat, present: set<string>, game: string, rows: seq<string>, x: string)
    requires NewestFirst(c, present, game, rows)
    requires forall i :: 0 <= i < |rows| ==> |Newer(c, present, rows[i])| == i
    ensures x in (if keep <= |rows| then rows[keep..] else []) <==> x in SnapshotsBeyond(c, keep, present, game)
  {
    if x in rows {
      var i :| 0 <= i < |rows| && rows[i] == x;
      assert i >= keep ==> rows[keep..][i - keep] == x;
    }
  }
}
