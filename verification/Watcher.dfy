/**
 The watcher's debounce: file events become snapshot jobs.

 Times are nanoseconds on a clock that never goes back.
 */
module Watcher {
  import opened Files

  datatype Policy = Policy(quietSeconds: int, minGapSeconds: int, maxDirtySeconds: int)

  const DEFAULT_POLICY := Policy(10, 300, 900)

  const SECOND := 1_000_000_000

  datatype Target = Target(gameID: string, policy: Policy)

  datatype Change = Change(first: int, due: int)

  /** The bound of the job queue. */
  const QUEUE_LIMIT := 32

  predicate ValidPolicy(p: Policy) {
    p.quietSeconds >= 1 && p.maxDirtySeconds >= p.quietSeconds && p.minGapSeconds >= 0
  }

  /** The policy that counts: an invalid one is replaced by the default one. */
  function Effective(p: Policy): (r: Policy)
    ensures r.quietSeconds >= 1 && r.maxDirtySeconds >= r.quietSeconds && r.minGapSeconds >= 0
    ensures r == p || r == Policy(10, 300, 900)
    ensures p.quietSeconds >= 1 && p.maxDirtySeconds >= p.quietSeconds && p.minGapSeconds >= 0 ==> r == p
  {
    if ValidPolicy(p) then p else DEFAULT_POLICY
  }

  function Quiet(p: Policy): int { Effective(p).quietSeconds * SECOND }
  function Gap(p: Policy): int { Effective(p).minGapSeconds * SECOND }
  function Dirty(p: Policy): int { Effective(p).maxDirtySeconds * SECOND }

  function Earlier(a: int, b: int): int {
    if a < b then a else b
  }

  /** When the pending snapshot of a game is due, seen from an event. */
  function SnapshotDue(now: int, first: int, lastQueued: Option<int>, p: Policy): int {
    var quiet := now + Quiet(p);
    var due := if lastQueued.Some? && lastQueued.value + Gap(p) > quiet then lastQueued.value + Gap(p) else quiet;
    Earlier(due, first + Dirty(p))
  }

  // ----- What happened -----

  datatype Entry =
    | Touched(game: string, at: int)    // a file event of the game
    | Queued(game: string, at: int)     // a job went into the queue
    | Left(game: string)                // the game left the targets

  /** The first and the last event of a game since it was last queued or left. */
  function Since(log: seq<Entry>, game: string): Option<(int, int)> {
    if log == [] then None
    else
      var rest, e := Since(log[..|log| - 1], game), log[|log| - 1];
      if e.game != game then rest
      else if !e.Touched? then None
      else if rest.Some? then Some((rest.value.0, e.at))
      else Some((e.at, e.at))
  }

  function LastQueued(log: seq<Entry>, game: string): Option<int> {
    if log == [] then None
    else if log[|log| - 1].Queued? && log[|log| - 1].game == game then Some(log[|log| - 1].at)
    else LastQueued(log[..|log| - 1], game)
  }

  /** All times lie in the past of `clock`, and events after the last queueing are not before it. */
  ghost predicate Timed(log: seq<Entry>, clock: int, game: string) {
    && (LastQueued(log, game).Some? ==> LastQueued(log, game).value <= clock)
    && (Since(log, game).Some? ==>
          var (f, l) := Since(log, game).value;
          f <= l <= clock && (LastQueued(log, game).Some? ==> LastQueued(log, game).value <= f))
  }

  /** What makes queueing a game at `at` right, after `log`. */
  ghost predicate QueuedRight(log: seq<Entry>, game: string, at: int, p: Policy) {
    && Since(log, game).Some?
    && var (f, l) := Since(log, game).value;
       var e := Effective(p);
       && (at >= l + e.quietSeconds * 1_000_000_000 || at >= f + e.maxDirtySeconds * 1_000_000_000)
       && (LastQueued(log, game).Some? ==> Apart(at - LastQueued(log, game).value, p))
  }

  /** At least the larger of quiet time and gap, or the dirty limit when that is shorter. */
  ghost predicate Apart(distance: int, p: Policy) {
    var e := Effective(p);
    || distance >= e.maxDirtySeconds * 1_000_000_000
    || (distance >= e.quietSeconds * 1_000_000_000 && distance >= e.minGapSeconds * 1_000_000_000)
  }

  /** Every queueing in the log was right when it happened. */
  ghost predicate Debounced(log: seq<Entry>, policy: string -> Policy) {
    forall i :: 0 <= i < |log| && log[i].Queued? ==> QueuedRight(log[..i], log[i].game, log[i].at, policy(log[i].game))
  }

  lemma LogGrows(log: seq<Entry>, e: Entry, game: string)
    ensures var more := log + [e];
            && LastQueued(more, game) == (if e.Queued? && e.game == game then Some(e.at) else LastQueued(log, game))
            && Since(more, game) ==
                 (if e.game != game then Since(log, game)
                  else if !e.Touched? then None
                  else if Since(log, game).Some? then Some((Since(log, game).value.0, e.at)) else Some((e.at, e.at)))
  {
    assert (log + [e])[..|log|] == log;
  }

  lemma DebouncedGrows(log: seq<Entry>, e: Entry, policy: string -> Policy)
    requires Debounced(log, policy)
    requires e.Queued? ==> QueuedRight(log, e.game, e.at, policy(e.game))
    ensures Debounced(log + [e], policy)
  {
    hide QueuedRight;
    var more := log + [e];
    forall i | 0 <= i < |more| && more[i].Queued?
      ensures QueuedRight(more[..i], more[i].game, more[i].at, policy(more[i].game))
    {
      assert more[..i] == log[..i];
    }
  }

  lemma {:induction false} LastQueuedAt(log: seq<Entry>, i: nat, game: string)
    requires i < |log| && log[i].Queued? && log[i].game == game
    requires forall k :: i < k < |log| ==> !(log[k].Queued? && log[k].game == game)
    ensures LastQueued(log, game) == Some(log[i].at)
    decreases |log|
  {
    if i < |log| - 1 {
      LastQueuedAt(log[..|log| - 1], i, game);
    }
  }

  /** Two successive queueings of a game are at least the gap apart, or the dirty limit when that is shorter. */
  lemma SuccessiveQueueings(log: seq<Entry>, policy: string -> Policy, i: nat, j: nat)
    requires Debounced(log, policy) && i < j < |log|
    requires log[i].Queued? && log[j].Queued? && log[i].game == log[j].game
    requires forall k :: i < k < j ==> !(log[k].Queued? && log[k].game == log[i].game)
    ensures Apart(log[j].at - log[i].at, policy(log[i].game))
  {
    LastQueuedAt(log[..j], i, log[i].game);
    assert QueuedRight(log[..j], log[j].game, log[j].at, policy(log[j].game));
  }

  /** A due change may be queued: the quiet time or the dirty limit is over, and the gap is kept. */
  lemma DueIsRight(log: seq<Entry>, game: string, now: int, p: Policy)
    requires Timed(log, now, game) && Since(log, game).Some?
    requires var (f, l) := Since(log, game).value; now >= SnapshotDue(l, f, LastQueued(log, game), p)
    ensures QueuedRight(log, game, now, p)
  {
  }

  /** The pending change of a game is exactly what the log says. */
  ghost predicate ChangeTrue(log: seq<Entry>, pending: map<string, Change>, lastQueued: map<string, int>,
                             game: string, p: Policy) {
    && (game in lastQueued <==> LastQueued(log, game).Some?)
    && (game in lastQueued ==> LastQueued(log, game) == Some(lastQueued[game]))
    && (game in pending <==> Since(log, game).Some?)
    && (game in pending ==>
          var (f, l) := Since(log, game).value;
          pending[game].first == f && pending[game].due == SnapshotDue(l, f, LastQueued(log, game), p))
  }

  /** The manager's maps and the log agree about every game. */
  ghost predicate Tracks(log: seq<Entry>, clock: int, pending: map<string, Change>, lastQueued: map<string, int>,
                         policy: string -> Policy) {
    forall g :: ChangeTrue(log, pending, lastQueued, g, policy(g)) && Timed(log, clock, g)
  }

  lemma TouchTracks(log: seq<Entry>, clock: int, pending: map<string, Change>, lastQueued: map<string, int>,
                    policy: string -> Policy, game: string, now: int, change: Change)
    requires Tracks(log, clock, pending, lastQueued, policy) && clock <= now
    requires change.first == if game in pending then pending[game].first else now
    requires change.due == SnapshotDue(now, change.first, if game in lastQueued then Some(lastQueued[game]) else None, policy(game))
    ensures Tracks(log + [Touched(game, now)], now, pending[game := change], lastQueued, policy)
  {
    hide SnapshotDue, Since, LastQueued;
    var more, pending' := log + [Touched(game, now)], pending[game := change];
    forall g
      ensures ChangeTrue(more, pending', lastQueued, g, policy(g)) && Timed(more, now, g)
    {
      LogGrows(log, Touched(game, now), g);
      assert ChangeTrue(log, pending, lastQueued, g, policy(g)) && Timed(log, clock, g);
    }
  }

  lemma QueueTracks(log: seq<Entry>, clock: int, pending: map<string, Change>, lastQueued: map<string, int>,
                    policy: string -> Policy, game: string, now: int)
    requires Tracks(log, clock, pending, lastQueued, policy) && clock <= now
    requires game in pending && now >= pending[game].due
    ensures Tracks(log + [Queued(game, now)], now, pending - {game}, lastQueued[game := now], policy)
    ensures QueuedRight(log, game, now, policy(game))
  {
    assert ChangeTrue(log, pending, lastQueued, game, policy(game)) && Timed(log, clock, game);
    DueIsRight(log, game, now, policy(game));
    hide SnapshotDue, Since, LastQueued, QueuedRight;
    var more, pending', lastQueued' := log + [Queued(game, now)], pending - {game}, lastQueued[game := now];
    forall g
      ensures ChangeTrue(more, pending', lastQueued', g, policy(g)) && Timed(more, now, g)
    {
      LogGrows(log, Queued(game, now), g);
      assert ChangeTrue(log, pending, lastQueued, g, policy(g)) && Timed(log, clock, g);
    }
  }

  lemma LeaveTracks(log: seq<Entry>, clock: int, pending: map<string, Change>, lastQueued: map<string, int>,
                    policy: string -> Policy, game: string)
    requires Tracks(log, clock, pending, lastQueued, policy)
    ensures Tracks(log + [Left(game)], clock, pending - {game}, lastQueued, policy)
  {
    hide SnapshotDue, Since, LastQueued;
    var more, pending' := log + [Left(game)], pending - {game};
    forall g
      ensures ChangeTrue(more, pending', lastQueued, g, policy(g)) && Timed(more, clock, g)
    {
      LogGrows(log, Left(game), g);
      assert ChangeTrue(log, pending, lastQueued, g, policy(g)) && Timed(log, clock, g);
    }
  }

  /** The deadline of a change whose game had events from `first` to `last`, read off the policy itself. */
  ghost predicate Deadline(due: int, first: int, last: int, queued: Option<int>, p: Policy) {
    var e := Effective(p);
    var quiet, dirty := last + e.quietSeconds * 1_000_000_000, first + e.maxDirtySeconds * 1_000_000_000;
    // no later than the dirty limit, and than both the quiet time and the gap allow
    && due <= dirty
    && (due <= quiet || (queued.Some? && due <= queued.value + e.minGapSeconds * 1_000_000_000))
    // and no earlier, short of the dirty limit
    && (due < dirty ==> due >= quiet && (queued.Some? ==> due >= queued.value + e.minGapSeconds * 1_000_000_000))
  }

  /** Only a queueing and leaving the targets end a pending change, and each has its deadline. */
  lemma PendingMeans(log: seq<Entry>, clock: int, pending: map<string, Change>, lastQueued: map<string, int>,
                     policy: string -> Policy, game: string)
    requires Tracks(log, clock, pending, lastQueued, policy)
    ensures game in pending <==> Since(log, game).Some?
    ensures game in pending ==>
      var (f, l) := Since(log, game).value;
      pending[game].first == f <= clock && Deadline(pending[game].due, f, l, LastQueued(log, game), policy(game))
  {
    assert ChangeTrue(log, pending, lastQueued, game, policy(game)) && Timed(log, clock, game);
  }

  lemma QueuedMore(queued: seq<string>, game: string)
    ensures forall g :: g in queued + [game] <==> g in queued || g == game
  {
  }

  function Touches(touched: seq<Target>, now: int): seq<Entry> {
    if touched == [] then [] else Touches(touched[..|touched| - 1], now) + [Touched(touched[|touched| - 1].gameID, now)]
  }

  lemma {:induction false} TouchesAre(touched: seq<Target>, now: int)
    ensures forall e :: e in Touches(touched, now) <==> exists i :: 0 <= i < |touched| && e == Touched(touched[i].gameID, now)
  {
    if touched != [] {
      var init, last := touched[..|touched| - 1], touched[|touched| - 1];
      TouchesAre(init, now);
      forall e | e in Touches(touched, now)
        ensures exists i :: 0 <= i < |touched| && e == Touched(touched[i].gameID, now)
      {
        if e in Touches(init, now) {
          var i :| 0 <= i < |init| && e == Touched(init[i].gameID, now);
          assert touched[i] == init[i];
        }
      }
      forall i | 0 <= i < |touched|
        ensures Touched(touched[i].gameID, now) in Touches(touched, now)
      {
        if i < |init| {
          assert touched[i] == init[i];
        }
      }
    }
  }

  type Roots = map<seq<string>, seq<Target>>

  /** All targets of a game carry the same policy. */
  ghost predicate OnePolicy(targets: Roots, policy: string -> Policy) {
    forall root, i :: root in targets && 0 <= i < |targets[root]| ==>
      targets[root][i].policy == policy(targets[root][i].gameID)
  }

  class Manager {
    const policy: string -> Policy
    var targets: Roots
    var pending: map<string, Change>
    var lastQueued: map<string, int>
    var jobs: seq<string>
    ghost var log: seq<Entry>
    ghost var clock: int

    ghost predicate Valid()
      reads this
    {
      && Debounced(log, policy) && |jobs| <= QUEUE_LIMIT
      && Tracks(log, clock, pending, lastQueued, policy)
      && OnePolicy(targets, policy)
    }

    constructor (policy: string -> Policy)
      ensures Valid() && log == [] && clock == 0 && jobs == [] && targets == map[] && this.policy == policy
    {
      this.policy := policy;
      targets, pending, lastQueued, jobs := map[], map[], map[], [];
      log, clock := [], 0;
    }

    method TouchAll(touched: seq<Target>, now: int)
      requires Valid() && clock <= now
      requires forall i :: 0 <= i < |touched| ==> touched[i].policy == policy(touched[i].gameID)
      modifies this`pending, this`log, this`clock
      ensures Valid() && clock <= now && log == old(log) + Touches(touched, now)
    {
      hide Debounced, Tracks, SnapshotDue, OnePolicy;
      for i := 0 to |touched|
        invariant Valid() && clock <= now && log == old(log) + Touches(touched[..i], now)
      {
        var game := touched[i].gameID;
        var first := if game in pending then pending[game].first else now;
        var last := if game in lastQueued then Some(lastQueued[game]) else None;
        var change := Change(first, SnapshotDue(now, first, last, touched[i].policy));
        TouchTracks(log, clock, pending, lastQueued, policy, game, now, change);
        DebouncedGrows(log, Touched(game, now), policy);
        pending := pending[game := change];
        log, clock := log + [Touched(game, now)], now;
        assert touched[..i + 1][..i] == touched[..i];
      }
      assert touched[..|touched|] == touched;
    }

    /** The file lies below a root of the game. */
    ghost predicate Concerns(file: seq<string>, game: string)
      reads this`targets
    {
      exists root, i :: root in targets && root <= file && 0 <= i < |targets[root]| && targets[root][i].gameID == game
    }

    /** A file event touches the games whose roots hold the file, and no others. */
    method HandleEvent(file: seq<string>, now: int)
      requires Valid() && clock <= now
      modifies this`pending, this`log, this`clock
      ensures Valid() && clock <= now && old(log) <= log
      ensures forall g :: Concerns(file, g) ==> Touched(g, now) in log[|old(log)|..]
      ensures forall e :: e in log[|old(log)|..] ==> e.Touched? && e.at == now && Concerns(file, e.game)
    {
      hide Debounced, Tracks, SnapshotDue;
      var todo := targets.Keys;
      ghost var added: seq<Entry> := [];
      while todo != {}
        invariant Valid() && clock <= now && todo <= targets.Keys && log == old(log) + added
        invariant forall root, i :: root in targets && root !in todo && root <= file && 0 <= i < |targets[root]| ==>
          Touched(targets[root][i].gameID, now) in added
        invariant forall e :: e in added ==> e.Touched? && e.at == now && Concerns(file, e.game)
        decreases todo
      {
        var root :| root in todo;
        todo := todo - {root};
        if root <= file {
          TouchAll(targets[root], now);
          TouchesAre(targets[root], now);
          added := added + Touches(targets[root], now);
        }
      }
      assert log[|old(log)|..] == added;
    }

    /** A tick: queues every due change; a full queue leaves it pending. */
    method FlushPending(now: int) returns (ghost queued: seq<string>)
      requires Valid() && clock <= now
      modifies this`pending, this`lastQueued, this`jobs, this`log, this`clock
      ensures Valid() && old(log) <= log && clock <= now
      ensures jobs == old(jobs) + queued
      ensures forall g :: g in queued <==> g in old(pending) && g !in pending
      ensures forall g :: g in pending ==> g in old(pending) && pending[g] == old(pending)[g]
      ensures forall g :: g in pending && now >= pending[g].due ==> |jobs| == 32
      ensures forall e :: e in log[|old(log)|..] ==> e.Queued? && e.at == now
    {
      hide Debounced, Tracks, SnapshotDue, OnePolicy;
      queued := [];
      var todo := pending.Keys;
      while todo != {}
        invariant Valid() && old(log) <= log && clock <= now && jobs == old(jobs) + queued && todo <= pending.Keys
        invariant forall g :: g in queued <==> g in old(pending) && g !in pending
        invariant forall g :: g in pending ==> g in old(pending) && pending[g] == old(pending)[g]
        invariant forall g :: g in pending && g !in todo && now >= pending[g].due ==> |jobs| == QUEUE_LIMIT
        invariant forall e :: e in log[|old(log)|..] ==> e.Queued? && e.at == now
        decreases todo
      {
        var game :| game in todo;
        todo := todo - {game};
        if now >= pending[game].due && |jobs| < QUEUE_LIMIT {
          QueueTracks(log, clock, pending, lastQueued, policy, game, now);
          DebouncedGrows(log, Queued(game, now), policy);
          QueuedMore(queued, game);
          jobs, queued := jobs + [game], queued + [game];
          lastQueued := lastQueued[game := now];
          pending := pending - {game};
          assert (log + [Queued(game, now)])[|old(log)|..] == log[|old(log)|..] + [Queued(game, now)];
          log, clock := log + [Queued(game, now)], now;
        }
      }
    }

    /** New targets: changes of games that are no longer targets are forgotten, the others stay. */
    method UpdateTargets(revised: set<string>, roots: Roots)
      requires Valid() && OnePolicy(roots, policy)
      modifies this`targets, this`pending, this`log
      ensures Valid() && targets == roots && old(log) <= log
      ensures forall g :: g in pending <==> g in old(pending) && g in revised
      ensures forall g :: g in pending ==> pending[g] == old(pending)[g]
      ensures forall e :: e in log[|old(log)|..] ==> e.Left? && e.game !in revised
    {
      hide Debounced, Tracks, OnePolicy;
      targets := roots;
      var todo := pending.Keys;
      while todo != {}
        invariant Valid() && old(log) <= log && targets == roots && todo <= old(pending).Keys
        invariant forall g :: g in pending <==> g in old(pending) && (g in todo || g in revised)
        invariant forall g :: g in pending ==> pending[g] == old(pending)[g]
        invariant forall e :: e in log[|old(log)|..] ==> e.Left? && e.game !in revised
        decreases todo
      {
        var game :| game in todo;
        todo := todo - {game};
        if game !in revised {
          LeaveTracks(log, clock, pending, lastQueued, policy, game);
          DebouncedGrows(log, Left(game), policy);
          pending := pending - {game};
          assert (log + [Left(game)])[|old(log)|..] == log[|old(log)|..] + [Left(game)];
          log := log + [Left(game)];
        }
      }
    }
  }

  datatype Input =
    | Update(revised: set<string>, roots: Roots)
    | FileEvent(file: seq<string>, at: int)
    | Tick(at: int)
    | TakeJob

  /** The times of the inputs never go back. */
  ghost predicate Nondecreasing(inputs: seq<Input>, clock: int, policy: string -> Policy) {
    && (forall i :: 0 <= i < |inputs| && (inputs[i].FileEvent? || inputs[i].Tick?) ==> clock <= inputs[i].at)
    && (forall i, j :: 0 <= i < j < |inputs| && (inputs[i].FileEvent? || inputs[i].Tick?) && (inputs[j].FileEvent? || inputs[j].Tick?)
          ==> inputs[i].at <= inputs[j].at)
    && (forall i :: 0 <= i < |inputs| && inputs[i].Update? ==> OnePolicy(inputs[i].roots, policy))
  }

  /**
   The debounce bounds hold over every run of the loop, with the worker taking
   jobs whenever it likes: what is queued is queued right, and a change stays
   pending until it is queued or its game leaves.
   */
  method Run(m: Manager, inputs: seq<Input>)
    requires m.Valid() && Nondecreasing(inputs, m.clock, m.policy)
    modifies m
    ensures m.Valid() && old(m.log) <= m.log && Debounced(m.log, m.policy)
    ensures forall g :: g in m.pending <==> Since(m.log, g).Some?
    ensures forall g :: g in m.pending ==>
      var (f, l) := Since(m.log, g).value; Deadline(m.pending[g].due, f, l, LastQueued(m.log, g), m.policy(g))
  {
    hide Debounced, Tracks, Since, LastQueued, Deadline, OnePolicy;
    for i := 0 to |inputs|
      invariant m.Valid() && old(m.log) <= m.log
      invariant forall j :: i <= j < |inputs| && (inputs[j].FileEvent? || inputs[j].Tick?) ==> m.clock <= inputs[j].at
    {
      match inputs[i] {
        case Update(revised, roots) => m.UpdateTargets(revised, roots);
        case FileEvent(file, at) => m.HandleEvent(file, at);
        case Tick(at) =>
          ghost var queued := m.FlushPending(at);
        case TakeJob =>
          if m.jobs != [] {
            m.jobs := m.jobs[1..];
          }
      }
    }
    forall g
      ensures g in m.pending <==> Since(m.log, g).Some?
      ensures g in m.pending ==>
        var (f, l) := Since(m.log, g).value; Deadline(m.pending[g].due, f, l, LastQueued(m.log, g), m.policy(g))
    {
      PendingMeans(m.log, m.clock, m.pending, m.lastQueued, m.policy, g);
    }
  }
}
