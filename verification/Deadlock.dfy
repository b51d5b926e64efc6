/** Which states of the syncer still lead to the deadlock by steps of its own processes. */
module Deadlock {
  import opened Text
  import opened Rotation
  import opened SyncRun
  import opened Dispatch

  ghost predicate AllInternal(run: seq<Action>) {
    forall a | a in run :: Internal(a)
  }

  /** Without the environment doing anything more, the processes can come to a deadlock. */
  ghost predicate CanDeadlock(s: State) {
    exists run, t :: Exec(s, run) == Some(t) && AllInternal(run) && Deadlocked(t)
  }

  // ----- The condition -----

  /** A job for the key would un-watch it. */
  predicate StaleKey(world: map<(string, string), View>, key: Key) {
    var parts := Split(key, '/');
    |parts| == 2 && Stale(world, parts[0], parts[1])
  }

  /** The worker waits in StopWatching, or is on the way there. */
  predicate Bound(world: map<(string, string), View>, worker: Worker) {
    worker.WantsStop? || (worker.Running? && StaleKey(world, worker.key))
  }

  predicate AllBound(s: State) {
    forall w | 0 <= w < |s.workers| :: Bound(s.world, s.workers[w])
  }

  /** The watched keys once the critical section of a worker or reconciler that owns the lock
      is over. */
  function KeysAhead(s: State): seq<Key> {
    match s.lock
    case AWorker(w) => if w < |s.workers| && s.workers[w].Stopping? then Stopped(s.keys, s.workers[w].key) else s.keys
    case ACaller(c) => if c < |s.callers| && s.callers[c].Doing? then Step(s.keys, s.callers[c].op) else s.keys
    case _ => s.keys
  }

  /** Watched, or about to be through a call that has been made. */
  predicate Coming(s: State, key: Key) {
    key in KeysAhead(s) || Called(s, key)
  }

  predicate Called(s: State, key: Key) {
    exists c :: 0 <= c < |s.callers| && s.callers[c] == Wants(Start(key))
  }

  ghost predicate AtRisk(s: State) {
    exists key :: Coming(s, key) && (StaleKey(s.world, key) || AllBound(s))
  }

  // ----- Jobs -----

  lemma JobUnwatchesIff(world: map<(string, string), View>, key: Key, a: Attempt, recorded: Recorded)
    requires Consistent(world, key, a)
    ensures RunOnce(key, a, recorded).Unwatched? <==> StaleKey(world, key)
  {
  }

  // ----- Nobody at risk: nothing stops -----

  lemma ComingBefore(s: State, a: Action, key: Key)
    requires Inv(s) && Internal(a) && Enabled(s, a) && Coming(Next(s, a), key)
    ensures Coming(s, key)
  {
    if Called(Next(s, a), key) {
      CalledBefore(s, a, key);
    } else {
      AheadBefore(s, a, key);
    }
  }

  lemma CalledBefore(s: State, a: Action, key: Key)
    requires Internal(a) && Enabled(s, a) && Called(Next(s, a), key)
    ensures Called(s, key)
  {
    var t := Next(s, a);
    var c :| 0 <= c < |t.callers| && t.callers[c] == Wants(Start(key));
    assert s.callers[c] == Wants(Start(key));
  }

  lemma CallerAheadBefore(s: State, a: Action, key: Key)
    requires Inv(s) && Enabled(s, a) && (a.CallerLock? || a.CallerApply?) && key in KeysAhead(Next(s, a))
    ensures Coming(s, key)
  {
    if a.CallerLock? {
      StepKeepsDistinct(s.keys, s.callers[a.c].op);
      assert key in s.keys || s.callers[a.c] == Wants(Start(key));
    }
  }

  lemma WorkerAheadBefore(s: State, a: Action, key: Key)
    requires Inv(s) && Enabled(s, a) && OfWorker(a) && key in KeysAhead(Next(s, a))
    ensures key in KeysAhead(s)
  {
    var t := Next(s, a);
    if a.WorkerLock? {
      assert KeysAhead(s) == s.keys && KeysAhead(t) == Stopped(s.keys, s.workers[a.w].key);
      StepKeepsDistinct(s.keys, Stop(s.workers[a.w].key));
    } else if a.WorkerStop? {
      assert KeysAhead(s) == t.keys == KeysAhead(t);
    } else {
      assert t.keys == s.keys && t.lock == s.lock && t.callers == s.callers;
      assert s.lock.AWorker? ==> t.workers[s.lock.w] == s.workers[s.lock.w];
      assert KeysAhead(t) == KeysAhead(s);
    }
  }

  lemma AheadBefore(s: State, a: Action, key: Key)
    requires Inv(s) && Internal(a) && Enabled(s, a) && key in KeysAhead(Next(s, a))
    ensures Coming(s, key)
  {
    if OfWorker(a) {
      WorkerAheadBefore(s, a, key);
    } else if OfCaller(a) {
      CallerAheadBefore(s, a, key);
    } else if a.PickFront? {
      StepKeepsDistinct(s.keys, Assign);
    }
  }

  lemma BoundBefore(s: State, a: Action)
    requires Inv(s) && Internal(a) && Enabled(s, a) && AllBound(Next(s, a))
    ensures AllBound(s) || (s.assigner.Sending? && StaleKey(s.world, s.assigner.key))
  {
    var t := Next(s, a);
    if a.HandOver? {
      assert Bound(t.world, t.workers[a.w]);
    } else {
      forall w | 0 <= w < |s.workers| ensures Bound(s.world, s.workers[w]) {
        assert Bound(t.world, t.workers[w]);
        if a.Finish? && a.w == w {
          JobUnwatchesIff(s.world, s.workers[w].key, a.attempt, a.recorded);
        }
      }
    }
  }

  lemma RiskBefore(s: State, a: Action)
    requires Inv(s) && Internal(a) && Enabled(s, a) && AtRisk(Next(s, a))
    ensures AtRisk(s)
  {
    var t := Next(s, a);
    var key :| Coming(t, key) && (StaleKey(t.world, key) || AllBound(t));
    ComingBefore(s, a, key);
    if !StaleKey(t.world, key) {
      BoundBefore(s, a);
      assert s.assigner.Sending? ==> Coming(s, s.assigner.key);
    }
  }

  lemma {:induction false} RunStaysSafe(s: State, run: seq<Action>, t: State)
    requires Inv(s) && !s.cancelled && Exec(s, run) == Some(t) && AllInternal(run) && !AtRisk(s)
    ensures !AtRisk(t) && !t.cancelled && Inv(t)
    decreases |run|
  {
    if run != [] {
      assert run[0] in run && forall a | a in run[1..] :: a in run;
      var s' := Next(s, run[0]);
      StepKeepsInv(s, run[0]);
      if AtRisk(s') {
        RiskBefore(s, run[0]);
      }
      RunStaysSafe(s', run[1..], t);
    }
  }

  lemma StoppedIsDeadlocked(s: State)
    requires Inv(s) && !s.cancelled && Quiet(s)
    ensures Deadlocked(s)
  {
    QuietWorkers(s);
    QuietCallers(s);
    QuietAssigner(s);
  }

  lemma DeadlockIsAtRisk(s: State)
    requires Inv(s) && !s.cancelled && Deadlocked(s)
    ensures AtRisk(s)
  {
    assert Coming(s, s.assigner.key) && AllBound(s);
  }

  // ----- Somebody at risk: a run that stops -----

  lemma CanDeadlockStep(s: State, a: Action)
    requires Internal(a) && Enabled(s, a) && CanDeadlock(Next(s, a))
    ensures CanDeadlock(s)
  {
    var run, t :| Exec(Next(s, a), run) == Some(t) && AllInternal(run) && Deadlocked(t);
    var longer := [a] + run;
    assert longer[0] == a && longer[1..] == run;
    assert Exec(s, longer) == Some(t) && AllInternal(longer);
  }

  function Count(workers: seq<Worker>, f: Worker -> bool): nat {
    if workers == [] then 0 else (if f(workers[0]) then 1 else 0) + Count(workers[1..], f)
  }

  lemma {:induction false} CountUpdate(workers: seq<Worker>, f: Worker -> bool, w: nat, x: Worker)
    requires w < |workers|
    ensures Count(workers[w := x], f)
            == Count(workers, f) - (if f(workers[w]) then 1 else 0) + (if f(x) then 1 else 0)
  {
    if w == 0 {
      assert workers[w := x][1..] == workers[1..];
    } else {
      CountUpdate(workers[1..], f, w - 1, x);
      assert workers[w := x][1..] == workers[1..][w - 1 := x];
    }
  }

  function Unbound(world: map<(string, string), View>): Worker -> bool {
    (worker: Worker) => !Bound(world, worker)
  }

  function OnJob(): Worker -> bool {
    (worker: Worker) => worker.Running?
  }

  /** A worker finishes its job as the world stands. */
  function Finishing(s: State, w: nat): (a: Action)
    requires w < |s.workers| && s.workers[w].Running?
    ensures Enabled(s, a) && Internal(a)
  {
    Finish(w, SomeAttempt(s.world, s.workers[w].key), RecordUnreadable)
  }

  lemma AfterFinishing(s: State, w: nat)
    requires w < |s.workers| && s.workers[w].Running?
    ensures var key := s.workers[w].key;
      Next(s, Finishing(s, w))
      == s.(workers := s.workers[w := if StaleKey(s.world, key) then WantsStop(key) else Waiting])
  {
    var key := s.workers[w].key;
    JobUnwatchesIff(s.world, key, SomeAttempt(s.world, key), RecordUnreadable);
  }

  /** At the send with every worker bound: they all finish, and that is the deadlock. */
  lemma {:induction false} SendStops(s: State)
    requires Inv(s) && s.assigner.Sending? && AllBound(s)
    ensures CanDeadlock(s)
    decreases Count(s.workers, OnJob())
  {
    if w :| 0 <= w < |s.workers| && s.workers[w].Running? {
      assert Bound(s.world, s.workers[w]);
      AfterFinishing(s, w);
      CountUpdate(s.workers, OnJob(), w, WantsStop(s.workers[w].key));
      StepKeepsInv(s, Finishing(s, w));
      SendStops(Next(s, Finishing(s, w)));
      CanDeadlockStep(s, Finishing(s, w));
    } else {
      forall w | 0 <= w < |s.workers| ensures s.workers[w].WantsStop? {
        assert Bound(s.world, s.workers[w]);
      }
      assert Deadlocked(s);
      assert Exec(s, []) == Some(s) && AllInternal([]);
    }
  }

  /** No worker or reconciler owns the lock; the key is watched or called for; and it is
      stale, unless every worker is bound. */
  predicate Heading(s: State, key: Key) {
    && (s.lock.Nobody? || s.lock.TheAssigner?) && !s.cancelled
    && (key in s.keys || Called(s, key))
    && (StaleKey(s.world, key) || AllBound(s))
  }

  /** How many keys the assigner has to pick before it holds one that will do. */
  function PicksAhead(s: State, key: Key): nat {
    if key !in s.keys || (s.assigner.Sending? && (StaleKey(s.world, s.assigner.key) || AllBound(s))) then 0
    else IndexOf(s.keys, key) + 1
  }

  /** How far the assigner is from its next pick, or, before the key is watched, from
      letting go of the lock. */
  function StepsAhead(s: State, key: Key): nat {
    match s.assigner
    case Sending(_) => 7
    case Releasing => 6
    case Measuring => 5
    case Sleeping => 4
    case Checking => 3
    case Locking => 2
    case Picking => if key in s.keys then 1 else 8
    case Returned => 0
  }

  /** The next step of the assigner by itself. */
  function AssignerStep(s: State): (a: Action)
    requires !s.assigner.Sending? && !s.assigner.Returned?
    ensures Internal(a)
  {
    match s.assigner
    case Checking => Check
    case Locking => AssignerLock
    case Picking => PickFront
    case Releasing => AssignerUnlock
    case Measuring => Measure
    case Sleeping => Wake
  }

  /** The move brings the key, or its pick, or the end of a job nearer. */
  ghost predicate Nearer(t: State, s: State, key: Key) {
    var before, after := Count(s.workers, Unbound(s.world)), Count(t.workers, Unbound(t.world));
    || after < before
    || (after == before && key in t.keys && key !in s.keys)
    || (after == before && (key in t.keys <==> key in s.keys)
        && (|| PicksAhead(t, key) < PicksAhead(s, key)
            || (PicksAhead(t, key) == PicksAhead(s, key)
                && (|| StepsAhead(t, key) < StepsAhead(s, key)
                    || (StepsAhead(t, key) == StepsAhead(s, key)
                        && Count(t.workers, OnJob()) < Count(s.workers, OnJob()))))))
  }

  lemma CalledStays(s: State, t: State, key: Key)
    requires t.callers == s.callers
    ensures Called(t, key) <==> Called(s, key)
  {
  }

  lemma PickMoves(s: State, key: Key)
    requires Inv(s) && Heading(s, key) && s.assigner.Picking?
    ensures Heading(Next(s, PickFront), key) && Nearer(Next(s, PickFront), s, key)
  {
    var t := Next(s, PickFront);
    CalledStays(s, t, key);
    StepKeepsDistinct(s.keys, Assign);
    assert AllBound(t) <==> AllBound(s);
    if key in s.keys {
      PositionStep(s.keys, Assign, key);
      assert PicksAhead(t, key) < PicksAhead(s, key);
    }
  }

  lemma AssignerMoves(s: State, key: Key) returns (t: State)
    requires Inv(s) && Heading(s, key) && !s.assigner.Sending?
    requires key in s.keys || s.lock.TheAssigner?
    ensures Inv(t) && Heading(t, key) && Nearer(t, s, key)
    ensures CanDeadlock(t) ==> CanDeadlock(s)
  {
    var a := AssignerStep(s);
    t := Next(s, a);
    StepKeepsInv(s, a);
    if s.assigner.Picking? {
      PickMoves(s, key);
    } else {
      CalledStays(s, t, key);
      assert t.keys == s.keys && t.workers == s.workers && (AllBound(t) <==> AllBound(s));
    }
    if CanDeadlock(t) {
      CanDeadlockStep(s, a);
    }
  }

  /** A reconciler that wants to start the key does so. */
  lemma CallMoves(s: State, key: Key) returns (t: State)
    requires Inv(s) && Heading(s, key) && key !in s.keys && s.lock.Nobody?
    ensures Inv(t) && Heading(t, key) && Nearer(t, s, key)
    ensures CanDeadlock(t) ==> CanDeadlock(s)
  {
    var c :| 0 <= c < |s.callers| && s.callers[c] == Wants(Start(key));
    var s1 := Next(s, CallerLock(c));
    t := Next(s1, CallerApply(c));
    StepKeepsInv(s, CallerLock(c));
    StepKeepsInv(s1, CallerApply(c));
    if CanDeadlock(t) {
      CanDeadlockStep(s1, CallerApply(c));
      CanDeadlockStep(s, CallerLock(c));
    }
  }

  /** A job that leaves its key alone ends. */
  lemma FinishMoves(s: State, key: Key, w: nat) returns (t: State)
    requires Inv(s) && Heading(s, key) && w < |s.workers| && !AllBound(s)
    requires s.workers[w].Running? && !StaleKey(s.world, s.workers[w].key)
    ensures Inv(t) && Heading(t, key) && Nearer(t, s, key)
    ensures CanDeadlock(t) ==> CanDeadlock(s)
  {
    t := Next(s, Finishing(s, w));
    AfterFinishing(s, w);
    StepKeepsInv(s, Finishing(s, w));
    CountUpdate(s.workers, Unbound(s.world), w, Waiting);
    CountUpdate(s.workers, OnJob(), w, Waiting);
    CalledStays(s, t, key);
    assert !Bound(t.world, t.workers[w]);
    if CanDeadlock(t) {
      CanDeadlockStep(s, Finishing(s, w));
    }
  }

  /** A waiting worker receives a key: one more is bound, or the assigner goes on. */
  lemma HandOverNears(s: State, key: Key, w: nat)
    requires Inv(s) && Heading(s, key) && s.assigner.Sending? && w < |s.workers| && s.workers[w].Waiting?
    ensures Heading(Next(s, HandOver(w)), key) && Nearer(Next(s, HandOver(w)), s, key)
  {
    var t := Next(s, HandOver(w));
    CountUpdate(s.workers, Unbound(s.world), w, Running(s.assigner.key));
    CalledStays(s, t, key);
    assert !Bound(s.world, s.workers[w]) && !AllBound(s);
    if !StaleKey(s.world, s.assigner.key) {
      assert PicksAhead(t, key) == PicksAhead(s, key);
    }
  }

  lemma HandOverMoves(s: State, key: Key, w: nat) returns (t: State)
    requires Inv(s) && Heading(s, key) && s.assigner.Sending? && w < |s.workers| && s.workers[w].Waiting?
    ensures Inv(t) && Heading(t, key) && Nearer(t, s, key)
    ensures CanDeadlock(t) ==> CanDeadlock(s)
  {
    t := Next(s, HandOver(w));
    StepKeepsInv(s, HandOver(w));
    HandOverNears(s, key, w);
    if CanDeadlock(t) {
      CanDeadlockStep(s, HandOver(w));
    }
  }

  lemma Moves(s: State, key: Key) returns (t: State)
    requires Inv(s) && Heading(s, key) && !(s.assigner.Sending? && AllBound(s))
    ensures Inv(t) && Heading(t, key) && Nearer(t, s, key)
    ensures CanDeadlock(t) ==> CanDeadlock(s)
  {
    if s.assigner.Sending? {
      var w :| 0 <= w < |s.workers| && !Bound(s.world, s.workers[w]);
      if s.workers[w].Running? {
        t := FinishMoves(s, key, w);
      } else {
        t := HandOverMoves(s, key, w);
      }
    } else if key !in s.keys && s.lock.Nobody? {
      t := CallMoves(s, key);
    } else {
      t := AssignerMoves(s, key);
    }
  }

  lemma {:induction false} HeadingStops(s: State, key: Key)
    requires Inv(s) && Heading(s, key)
    ensures CanDeadlock(s)
    decreases Count(s.workers, Unbound(s.world)), key !in s.keys, PicksAhead(s, key), StepsAhead(s, key),
              Count(s.workers, OnJob())
  {
    if s.assigner.Sending? && AllBound(s) {
      SendStops(s);
    } else {
      var t := Moves(s, key);
      HeadingStops(t, key);
    }
  }

  /** The critical section of a worker or reconciler ends. */
  lemma LockIsReleased(s: State, key: Key)
    requires Inv(s) && !s.cancelled && Coming(s, key) && (StaleKey(s.world, key) || AllBound(s))
    requires s.lock.AWorker? || s.lock.ACaller?
    ensures var a := if s.lock.AWorker? then WorkerStop(s.lock.w) else CallerApply(s.lock.c);
      Enabled(s, a) && Internal(a) && Inv(Next(s, a)) && Heading(Next(s, a), key)
  {
    var a := if s.lock.AWorker? then WorkerStop(s.lock.w) else CallerApply(s.lock.c);
    if s.lock.AWorker? {
      assert !Bound(s.world, s.workers[s.lock.w]);
    }
    StepKeepsInv(s, a);
    var t := Next(s, a);
    if Called(s, key) {
      var c :| 0 <= c < |s.callers| && s.callers[c] == Wants(Start(key));
      assert t.callers[c] == Wants(Start(key));
    }
  }

  lemma RiskStops(s: State)
    requires Inv(s) && !s.cancelled && AtRisk(s)
    ensures CanDeadlock(s)
  {
    var key :| Coming(s, key) && (StaleKey(s.world, key) || AllBound(s));
    if s.lock.AWorker? || s.lock.ACaller? {
      var a := if s.lock.AWorker? then WorkerStop(s.lock.w) else CallerApply(s.lock.c);
      LockIsReleased(s, key);
      HeadingStops(Next(s, a), key);
      CanDeadlockStep(s, a);
    } else {
      HeadingStops(s, key);
    }
  }

  // ----- Results -----

  /** Exactly when the processes, left to themselves, can come to a deadlock: when a key that
      is watched, or that a call made already is about to start, is stale; or when there is
      such a key at all and every worker is bound to wait in StopWatching. */
  lemma CanDeadlockIff(s: State, workers: nat, callers: nat)
    requires Reachable(s, workers, callers) && !s.cancelled
    ensures CanDeadlock(s) <==> AtRisk(s)
  {
    ReachableInv(s, workers, callers);
    if AtRisk(s) {
      RiskStops(s);
    } else if CanDeadlock(s) {
      var run, t :| Exec(s, run) == Some(t) && AllInternal(run) && Deadlocked(t);
      RunStaysSafe(s, run, t);
      DeadlockIsAtRisk(t);
    }
  }

  /** Otherwise the processes never stop: along every run of their own, of any length and in
      any interleaving, one of them can take a step. */
  lemma SafeNeverStops(s: State, workers: nat, callers: nat, run: seq<Action>, t: State)
    requires Reachable(s, workers, callers) && !s.cancelled && !AtRisk(s)
    requires Exec(s, run) == Some(t) && AllInternal(run)
    ensures !Quiet(t)
  {
    ReachableInv(s, workers, callers);
    RunStaysSafe(s, run, t);
    if Quiet(t) {
      StoppedIsDeadlocked(t);
      DeadlockIsAtRisk(t);
    }
  }
}
