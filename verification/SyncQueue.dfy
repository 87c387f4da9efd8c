/**
 The automatic-sync queue: any number of queuers and one worker that share a set
 of games and a wake channel with room for one token.

 A step is what a queuer or the worker does between two points where the others
 may act; one that is not possible changes nothing.
 */
module SyncQueue {
  /** What the worker is doing. */
  datatype Worker =
    | Waiting                    // blocked on the wake channel
    | Taking                     // about to take a game from the set
    | Serving(game: string)      // inside automaticSyncGame

  datatype Queue = Queue(
    games: set<string>,          // automaticSyncGames
    token: bool,                 // the wake channel holds its one token
    sending: map<nat, string>,   // queuers that added their game and have the send to do
    worker: Worker)

  datatype Step =
    | Add(queuer: nat, game: string)
    | Send(queuer: nat)
    | Wake
    | Take(game: string)
    | TakeNone
    | Finish

  function Apply(q: Queue, s: Step): Queue {
    match s
    case Add(u, game) =>
      if u !in q.sending then q.(games := q.games + {game}, sending := q.sending[u := game]) else q
    case Send(u) =>
      if u in q.sending then q.(token := true, sending := q.sending - {u}) else q
    case Wake =>
      if q.worker.Waiting? && q.token then q.(token := false, worker := Taking) else q
    case Take(game) =>
      if q.worker.Taking? && game in q.games then q.(games := q.games - {game}, worker := Serving(game)) else q
    case TakeNone =>
      if q.worker.Taking? && q.games == {} then q.(worker := Waiting) else q
    case Finish =>
      if q.worker.Serving? then q.(worker := Taking) else q
  }

  function Run(q: Queue, steps: seq<Step>): Queue {
    if steps == [] then q
    else Apply(Run(q, steps[..|steps| - 1]), steps[|steps| - 1])
  }

  const START := Queue({}, false, map[], Waiting)

  /** While the worker waits, every queued game has a token or a queuer that still has its send to do. */
  predicate NoneForgotten(q: Queue) {
    q.worker.Waiting? && q.games != {} ==> q.token || q.sending != map[]
  }

  /** No lost wake-up, in every interleaving. */
  lemma {:induction false} NoLostWakeUp(steps: seq<Step>)
    ensures NoneForgotten(Run(START, steps))
  {
    if steps != [] {
      var before, s := Run(START, steps[..|steps| - 1]), steps[|steps| - 1];
      NoLostWakeUp(steps[..|steps| - 1]);
      if s.Add? && s.queuer !in before.sending {
        assert s.queuer in Apply(before, s).sending;
      }
    }
  }

  // ----- Every request is served -----

  /** Step `i` of the run added the game. */
  predicate AddedAt(steps: seq<Step>, i: nat, game: string) {
    i < |steps| && steps[i].Add? && steps[i].game == game && steps[i].queuer !in Run(START, steps[..i]).sending
  }

  /** Step `i` of the run took the game: the worker comes to serve it there. */
  predicate TakenAt(steps: seq<Step>, i: nat, game: string) {
    i < |steps| && steps[i] == Take(game)
    && Run(START, steps[..i]).worker != Serving(game) && Apply(Run(START, steps[..i]), steps[i]).worker == Serving(game)
  }

  /** A game that was added and not taken since is in the set. */
  lemma {:induction false} AddedStays(steps: seq<Step>, i: nat, game: string)
    requires AddedAt(steps, i, game)
    requires forall j :: i < j < |steps| ==> !TakenAt(steps, j, game)
    ensures game in Run(START, steps).games
    decreases |steps|
  {
    var last := |steps| - 1;
    var init := steps[..last];
    if i < last {
      assert forall j :: 0 <= j <= last ==> init[..j] == steps[..j];
      forall j | i < j < |init|
        ensures !TakenAt(init, j, game)
      {
        assert !TakenAt(steps, j, game);
      }
      AddedStays(init, i, game);
      assert !TakenAt(steps, last, game);
    } else {
      assert steps[..i] == init;
    }
  }

  lemma AddedOrTaken(steps: seq<Step>, i: nat, game: string)
    requires AddedAt(steps, i, game)
    ensures game in Run(START, steps).games || exists j :: i < j < |steps| && TakenAt(steps, j, game)
  {
    if forall j :: i < j < |steps| ==> !TakenAt(steps, j, game) {
      AddedStays(steps, i, game);
    }
  }

  /** Nothing is left to do for anyone: the worker waits without a token and no send is due. */
  predicate Quiescent(q: Queue) {
    q.worker.Waiting? && !q.token && q.sending == map[]
  }

  /**
   A game queued at any moment, its own sync included, gets a sync that starts
   later: when everything has come to rest, no request is left unserved.
   */
  lemma EveryRequestIsServed(steps: seq<Step>, i: nat, game: string)
    requires AddedAt(steps, i, game) && Quiescent(Run(START, steps))
    ensures exists j :: i < j < |steps| && TakenAt(steps, j, game)
  {
    NoLostWakeUp(steps);
    AddedOrTaken(steps, i, game);
  }

  /** The ways to go on: unless everything is at rest, someone other than a new queuer can move. */
  predicate Moves(q: Queue, s: Step) {
    Apply(q, s) != q && !s.Add?
  }

  /** Work left of a queue: every move that is no new request makes it smaller, so the queue comes to rest. */
  function WorkLeft(q: Queue): nat {
    4 * |q.sending| + 3 * |q.games| + (if q.token then 2 else 0)
    + (match q.worker case Waiting => 0 case Taking => 1 case Serving(_) => 2)
  }

  lemma MovesEnd(q: Queue, s: Step)
    requires Moves(q, s)
    ensures WorkLeft(Apply(q, s)) < WorkLeft(q)
  {
    if s.Send? && s.queuer in q.sending {
      assert |q.sending| == |q.sending - {s.queuer}| + 1 by {
        assert q.sending.Keys == (q.sending - {s.queuer}).Keys + {s.queuer};
      }
    }
  }

  /** The queue stops only at rest. */
  lemma RestOrMove(q: Queue) returns (s: Step)
    requires !Quiescent(q)
    ensures Moves(q, s)
  {
    if q.sending != map[] {
      var u :| u in q.sending;
      s := Send(u);
      assert u !in Apply(q, s).sending;
    } else if q.worker.Waiting? {
      s := Wake;
    } else if q.worker.Serving? {
      s := Finish;
    } else if q.games == {} {
      s := TakeNone;
    } else {
      var g :| g in q.games;
      s := Take(g);
    }
  }
}
