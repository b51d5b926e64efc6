/** The assigner, the workers and the reconcilers as processes that share one lock and one
    unbuffered channel.  The assigner sends while it holds the lock. */
module Dispatch {
  import opened Text
  import opened Rotation
  import opened SyncRun

  /** Where the assigner's loop stands.  It owns the lock while picking, sending and
      releasing. */
  datatype Assigner = Checking | Locking | Picking | Sending(key: Key) | Releasing | Measuring | Sleeping | Returned

  /** Where a worker stands.  Running is the body of a job up to a possible StopWatching,
      which first waits for the lock and then owns it. */
  datatype Worker = Waiting | Running(key: Key) | WantsStop(key: Key) | Stopping(key: Key) | Exited

  /** A reconciler's call of StartWatching or StopWatching. */
  datatype Caller = Idle | Wants(op: Event) | Doing(op: Event)

  datatype Owner = Nobody | TheAssigner | AWorker(w: nat) | ACaller(c: nat)

  /** What a Get of a GitSync would find; a GitSync that is not in the world is gone. */
  datatype View = Alive | Hidden | Terminating(deletable: bool)

  datatype Delivery = Delivery(worker: nat, key: Key)

  datatype State = State(
    keys: seq<Key>,
    lock: Owner,
    assigner: Assigner,
    workers: seq<Worker>,
    callers: seq<Caller>,
    cancelled: bool,
    world: map<(string, string), View>,
    /** History: every critical section so far, and every key received by a worker. */
    events: seq<Event>,
    received: seq<Delivery>)

  datatype Action =
    | Check | AssignerLock | PickFront | HandOver(w: nat) | AssignerUnlock | Measure | Wake
    | Finish(w: nat, attempt: Attempt, recorded: Recorded) | WorkerLock(w: nat) | WorkerStop(w: nat) | Leave(w: nat)
    | CallerLock(c: nat) | CallerApply(c: nat)
    | Call(c: nat, op: Event) | Cancel | Observe(namespace: string, name: string, view: Option<View>)

  function Init(workers: nat, callers: nat): State {
    State([], Nobody, Checking, seq(workers, _ => Waiting), seq(callers, _ => Idle), false, map[], [], [])
  }

  /** A worker's first Get and its deletion processing go as the world stands. */
  predicate Consistent(world: map<(string, string), View>, key: Key, a: Attempt) {
    var parts := Split(key, '/');
    |parts| == 2 ==>
      var who := (parts[0], parts[1]);
      if who !in world then a.fetch == Missing
      else match world[who]
        case Alive => a.fetch == Fetched(false)
        case Hidden => a.fetch == Unreadable
        case Terminating(deletable) => a.fetch == Fetched(true) && a.deletionOk == deletable
  }

  predicate Enabled(s: State, a: Action) {
    match a
    case Check => s.assigner.Checking?
    case AssignerLock => s.assigner.Locking? && s.lock.Nobody?
    case PickFront => s.assigner.Picking?
    case HandOver(w) => s.assigner.Sending? && w < |s.workers| && s.workers[w].Waiting?
    case AssignerUnlock => s.assigner.Releasing?
    case Measure => s.assigner.Measuring? && s.lock.Nobody?
    case Wake => s.assigner.Sleeping?
    case Finish(w, attempt, _) =>
      w < |s.workers| && s.workers[w].Running? && Consistent(s.world, s.workers[w].key, attempt)
    case WorkerLock(w) => w < |s.workers| && s.workers[w].WantsStop? && s.lock.Nobody?
    case WorkerStop(w) => w < |s.workers| && s.workers[w].Stopping?
    case Leave(w) => w < |s.workers| && s.workers[w].Waiting? && s.cancelled
    case CallerLock(c) => c < |s.callers| && s.callers[c].Wants? && s.lock.Nobody?
    case CallerApply(c) => c < |s.callers| && s.callers[c].Doing?
    case Call(c, op) => c < |s.callers| && s.callers[c].Idle? && (op.Start? || op.Stop?)
    case Cancel => true
    case Observe(_, _, _) => true
  }

  function Next(s: State, a: Action): State
    requires Enabled(s, a)
  {
    match a
    case Check => s.(assigner := if s.cancelled then Returned else Locking)
    case AssignerLock => s.(assigner := Picking, lock := TheAssigner)
    case PickFront =>
      s.(assigner := if s.keys == [] then Releasing else Sending(s.keys[0]),
         keys := Rotated(s.keys),
         events := s.events + [Assign])
    case HandOver(w) =>
      s.(assigner := Releasing,
         workers := s.workers[w := Running(s.assigner.key)],
         received := s.received + [Delivery(w, s.assigner.key)])
    case AssignerUnlock => s.(assigner := Measuring, lock := Nobody)
    case Measure => s.(assigner := Sleeping, events := s.events + [Sleep])
    case Wake => s.(assigner := Checking)
    case Finish(w, attempt, recorded) =>
      var key := s.workers[w].key;
      s.(workers := s.workers[w := if RunOnce(key, attempt, recorded).Unwatched? then WantsStop(key) else Waiting])
    case WorkerLock(w) => s.(workers := s.workers[w := Stopping(s.workers[w].key)], lock := AWorker(w))
    case WorkerStop(w) =>
      s.(workers := s.workers[w := Waiting],
         keys := Stopped(s.keys, s.workers[w].key),
         lock := Nobody,
         events := s.events + [Stop(s.workers[w].key)])
    case Leave(w) => s.(workers := s.workers[w := Exited])
    case CallerLock(c) => s.(callers := s.callers[c := Doing(s.callers[c].op)], lock := ACaller(c))
    case CallerApply(c) =>
      s.(callers := s.callers[c := Idle],
         keys := Step(s.keys, s.callers[c].op),
         lock := Nobody,
         events := s.events + [s.callers[c].op])
    case Call(c, op) => s.(callers := s.callers[c := Wants(op)])
    case Cancel => s.(cancelled := true)
    case Observe(namespace, name, view) =>
      s.(world := if view.Some? then s.world[(namespace, name) := view.value] else s.world - {(namespace, name)})
  }

  /** The state after a run, if every action of the run is enabled in its turn. */
  function Exec(s: State, run: seq<Action>): Option<State>
    decreases |run|
  {
    if run == [] then Some(s)
    else if Enabled(s, run[0]) then Exec(Next(s, run[0]), run[1..])
    else None
  }

  ghost predicate Reachable(s: State, workers: nat, callers: nat) {
    exists run :: Exec(Init(workers, callers), run) == Some(s)
  }

  // ----- What every step keeps -----

  ghost predicate LockOk(s: State) {
    && (s.lock.TheAssigner? <==> s.assigner.Picking? || s.assigner.Sending? || s.assigner.Releasing?)
    && (s.lock.AWorker? ==> s.lock.w < |s.workers|)
    && (s.lock.ACaller? ==> s.lock.c < |s.callers|)
    && (forall w :: 0 <= w < |s.workers| ==> (s.lock == AWorker(w) <==> s.workers[w].Stopping?))
    && (forall c :: 0 <= c < |s.callers| ==> (s.lock == ACaller(c) <==> s.callers[c].Doing?))
    && (forall c :: 0 <= c < |s.callers| ==> s.callers[c].Idle? || s.callers[c].op.Start? || s.callers[c].op.Stop?)
    && (s.assigner.Returned? ==> s.cancelled)
    && (forall w :: 0 <= w < |s.workers| && s.workers[w].Exited? ==> s.cancelled)
  }

  function Received(ds: seq<Delivery>): seq<Key> {
    if ds == [] then [] else Received(ds[..|ds| - 1]) + [ds[|ds| - 1].key]
  }

  function Pending(a: Assigner): seq<Key> {
    if a.Sending? then [a.key] else []
  }

  ghost predicate HistoryOk(s: State) {
    && Distinct(s.keys)
    && s.keys == Run([], s.events)
    && Received(s.received) + Pending(s.assigner) == Picks([], s.events)
    && (s.assigner.Sending? ==> s.keys != [] && s.keys[|s.keys| - 1] == s.assigner.key)
    && TurnAfter(s.events, AssignDue)
       == if s.assigner.Sending? || s.assigner.Releasing? || s.assigner.Measuring? then SleepDue else AssignDue
  }

  ghost predicate Inv(s: State) {
    LockOk(s) && HistoryOk(s)
  }

  predicate OfWorker(a: Action) {
    a.HandOver? || a.Finish? || a.WorkerLock? || a.WorkerStop? || a.Leave?
  }

  predicate OfCaller(a: Action) {
    a.CallerLock? || a.CallerApply? || a.Call?
  }

  lemma WorkerLockOkStep(s: State, a: Action)
    requires LockOk(s) && Enabled(s, a) && OfWorker(a)
    ensures LockOk(Next(s, a))
  {
  }

  lemma CallerLockOkStep(s: State, a: Action)
    requires LockOk(s) && Enabled(s, a) && OfCaller(a)
    ensures LockOk(Next(s, a))
  {
  }

  lemma LockOkStep(s: State, a: Action)
    requires LockOk(s) && Enabled(s, a)
    ensures LockOk(Next(s, a))
  {
    if OfWorker(a) {
      WorkerLockOkStep(s, a);
    } else if OfCaller(a) {
      CallerLockOkStep(s, a);
    }
  }

  lemma {:induction false} TurnConcat(es: seq<Event>, fs: seq<Event>, turn: Turn)
    ensures TurnAfter(es + fs, turn) == TurnAfter(fs, TurnAfter(es, turn))
    decreases |es|
  {
    if es == [] {
      assert es + fs == fs;
    } else {
      AppendTail(es, fs);
      BrokenStays(fs);
      match es[0]
      case Sleep => TurnConcat(es[1..], fs, AssignDue);
      case Assign => TurnConcat(es[1..], fs, SleepDue);
      case _ => TurnConcat(es[1..], fs, turn);
    }
  }

  lemma {:induction false} BrokenStays(es: seq<Event>)
    ensures TurnAfter(es, Broken) == Broken
    decreases |es|
  {
    if es != [] {
      BrokenStays(es[1..]);
    }
  }

  /** The critical section an action performs, if any. */
  function NewEvents(s: State, a: Action): seq<Event>
    requires Enabled(s, a)
  {
    match a
    case PickFront => [Assign]
    case Measure => [Sleep]
    case WorkerStop(w) => [Stop(s.workers[w].key)]
    case CallerApply(c) => [s.callers[c].op]
    case _ => []
  }

  /** Each action is one rotation event on the watched keys, or leaves them alone. */
  lemma StepRefinesRotation(s: State, a: Action)
    requires Enabled(s, a)
    ensures Next(s, a).events == s.events + NewEvents(s, a)
    ensures Next(s, a).keys == if NewEvents(s, a) == [] then s.keys else Step(s.keys, NewEvents(s, a)[0])
  {
  }

  /** A critical section appends its event to what the history says of keys and turns. */
  lemma SectionAppends(s: State, a: Action)
    requires Inv(s) && Enabled(s, a) && NewEvents(s, a) != []
    ensures var e, t := NewEvents(s, a)[0], Next(s, a);
      && Distinct(t.keys) && t.keys == Run([], t.events)
      && Picks([], t.events) == Picks([], s.events) + Pick(s.keys, e)
      && TurnAfter(t.events, AssignDue) == TurnAfter([e], TurnAfter(s.events, AssignDue))
  {
    var e := NewEvents(s, a)[0];
    StepRefinesRotation(s, a);
    StepKeepsDistinct(s.keys, e);
    RunAppend([], s.events, e);
    TurnConcat(s.events, [e], AssignDue);
  }

  lemma PickKeepsHistory(s: State)
    requires Inv(s) && s.assigner.Picking?
    ensures HistoryOk(Next(s, PickFront))
  {
    SectionAppends(s, PickFront);
  }

  lemma SectionKeepsHistory(s: State, a: Action)
    requires Inv(s) && Enabled(s, a) && NewEvents(s, a) != [] && !a.PickFront?
    ensures HistoryOk(Next(s, a))
  {
    SectionAppends(s, a);
    var t := Next(s, a);
    assert !s.assigner.Sending? && !t.assigner.Sending? && t.received == s.received;
    assert Pick(s.keys, NewEvents(s, a)[0]) == [];
  }

  lemma HandOverKeepsHistory(s: State, a: Action)
    requires Inv(s) && Enabled(s, a) && a.HandOver?
    ensures HistoryOk(Next(s, a))
  {
    var d := Delivery(a.w, s.assigner.key);
    assert (s.received + [d])[..|s.received|] == s.received;
  }

  lemma HistoryOkStep(s: State, a: Action)
    requires Inv(s) && Enabled(s, a)
    ensures HistoryOk(Next(s, a))
  {
    if a.PickFront? {
      PickKeepsHistory(s);
    } else if NewEvents(s, a) != [] {
      SectionKeepsHistory(s, a);
    } else if a.HandOver? {
      HandOverKeepsHistory(s, a);
    }
  }

  lemma StepKeepsInv(s: State, a: Action)
    requires Inv(s) && Enabled(s, a)
    ensures Inv(Next(s, a))
    ensures |Next(s, a).workers| == |s.workers| && |Next(s, a).callers| == |s.callers|
  {
    LockOkStep(s, a);
    HistoryOkStep(s, a);
  }

  lemma {:induction false} RunKeepsInv(s: State, run: seq<Action>, t: State)
    requires Inv(s) && Exec(s, run) == Some(t)
    ensures Inv(t)
    ensures |t.workers| == |s.workers| && |t.callers| == |s.callers|
    decreases |run|
  {
    if run != [] {
      StepKeepsInv(s, run[0]);
      RunKeepsInv(Next(s, run[0]), run[1..], t);
    }
  }

  lemma ReachableInv(s: State, workers: nat, callers: nat)
    requires Reachable(s, workers, callers)
    ensures Inv(s) && |s.workers| == workers && |s.callers| == callers
  {
    var run :| Exec(Init(workers, callers), run) == Some(s);
    RunKeepsInv(Init(workers, callers), run, s);
  }

  /** Critical sections exclude each other: in every reachable state at most one of them can
      go on, and the assigner reads the length for its pause only while nobody owns the
      lock. */
  lemma SectionsExclude(s: State, workers: nat, callers: nat, a: Action, b: Action)
    requires Reachable(s, workers, callers) && Enabled(s, a) && Enabled(s, b)
    requires NewEvents(s, a) != [] && NewEvents(s, b) != []
    ensures a == b
  {
    ReachableInv(s, workers, callers);
    match a
    case PickFront => assert s.lock.TheAssigner?;
    case Measure => assert s.lock.Nobody?;
    case WorkerStop(w) => assert s.lock == AWorker(w);
    case CallerApply(c) => assert s.lock == ACaller(c);
  }

  // ----- Cancellation -----

  function EventsAlong(s: State, run: seq<Action>): seq<Event>
    decreases |run|
  {
    if run == [] || !Enabled(s, run[0]) then []
    else NewEvents(s, run[0]) + EventsAlong(Next(s, run[0]), run[1..])
  }

  lemma AssignsAppend(es: seq<Event>, rest: seq<Event>)
    requires |es| <= 1
    ensures Assigns(es + rest) == Assigns(es) + Assigns(rest)
  {
    if es == [] {
      assert es + rest == rest;
    } else {
      assert (es + rest)[0] == es[0] && (es + rest)[1..] == rest && es[1..] == [];
    }
  }

  /** The assigner has passed its check and not yet picked. */
  predicate PickDue(s: State) {
    s.assigner.Locking? || s.assigner.Picking?
  }

  /** After cancellation the assigner picks at most once more, and not at all unless it has
      passed its check already, along every run. */
  lemma {:induction false} PicksAfterCancel(s: State, run: seq<Action>, t: State)
    requires Inv(s) && s.cancelled && Exec(s, run) == Some(t)
    ensures Assigns(EventsAlong(s, run)) <= if PickDue(s) then 1 else 0
    decreases |run|
  {
    if run != [] {
      var a, s' := run[0], Next(s, run[0]);
      StepKeepsInv(s, a);
      PicksAfterCancel(s', run[1..], t);
      AssignsAppend(NewEvents(s, a), EventsAlong(s', run[1..]));
      AssignIsPick(s, a);
    }
  }

  lemma AssignIsPick(s: State, a: Action)
    requires Inv(s) && Enabled(s, a)
    ensures Assigns(NewEvents(s, a)) == if a.PickFront? then 1 else 0
  {
    match a
    case PickFront => AssignsOfOne(Assign);
    case Measure => AssignsOfOne(Sleep);
    case WorkerStop(w) => AssignsOfOne(Stop(s.workers[w].key));
    case CallerApply(c) => AssignsOfOne(s.callers[c].op);
    case _ =>
  }

  lemma AssignsOfOne(e: Event)
    ensures Assigns([e]) == if e.Assign? then 1 else 0
  {
    assert [e][1..] == [];
  }

  // ----- Handover -----

  /** In every reachable state the keys received by workers are, in order, the keys the
      assigner picked, except for one that may still be waiting at the send; a key is
      watched at the moment a worker receives it; and the assigner never skips a pause. */
  lemma HandoverConserves(s: State, workers: nat, callers: nat)
    requires Reachable(s, workers, callers)
    ensures Received(s.received) + Pending(s.assigner) == Picks([], s.events)
    ensures s.keys == Run([], s.events) && Distinct(s.keys)
    ensures TurnAfter(s.events, AssignDue) != Broken
    ensures forall w :: Enabled(s, HandOver(w)) ==>
              && s.assigner.key in s.keys
              && Next(s, HandOver(w)).received == s.received + [Delivery(w, s.assigner.key)]
  {
    ReachableInv(s, workers, callers);
  }

  // ----- When nothing can move -----

  predicate Internal(a: Action) {
    !a.Call? && !a.Cancel? && !a.Observe?
  }

  /** No process can take a step of its own; only the environment can act. */
  ghost predicate Quiet(s: State) {
    forall a :: Internal(a) ==> !Enabled(s, a)
  }

  /** The assigner holds the lock at the send, and every worker either waits for that lock
      in StopWatching or is gone after cancellation. */
  ghost predicate Deadlocked(s: State) {
    && s.assigner.Sending? && s.lock.TheAssigner?
    && (forall w :: 0 <= w < |s.workers| ==> s.workers[w].WantsStop? || s.workers[w].Exited?)
    && (forall c :: 0 <= c < |s.callers| ==> s.callers[c].Idle? || s.callers[c].Wants?)
  }

  ghost predicate ShutDown(s: State) {
    && s.assigner.Returned?
    && (forall w :: 0 <= w < |s.workers| ==> s.workers[w].Exited?)
    && (forall c :: 0 <= c < |s.callers| ==> s.callers[c].Idle?)
  }

  /** Some attempt always matches the world, so a job can always finish. */
  function SomeAttempt(world: map<(string, string), View>, key: Key): (a: Attempt)
    ensures Consistent(world, key, a)
  {
    var parts := Split(key, '/');
    var plain := Attempt(Missing, false, true, false, None, false, false, "", 0);
    if |parts| != 2 || (parts[0], parts[1]) !in world then plain
    else match world[(parts[0], parts[1])]
      case Alive => plain.(fetch := Fetched(false))
      case Hidden => plain.(fetch := Unreadable)
      case Terminating(deletable) => plain.(fetch := Fetched(true), deletionOk := deletable)
  }

  lemma QuietLock(s: State)
    requires Inv(s) && Quiet(s)
    ensures s.lock.Nobody? || s.lock.TheAssigner?
  {
    var w := match s.lock case AWorker(w) => w case _ => 0;
    var c := match s.lock case ACaller(c) => c case _ => 0;
    assert !Enabled(s, WorkerStop(w)) && !Enabled(s, CallerApply(c));
  }

  lemma QuietWorkers(s: State)
    requires Inv(s) && Quiet(s)
    ensures forall w :: 0 <= w < |s.workers| ==>
              s.workers[w].Exited? || (s.workers[w].WantsStop? && !s.lock.Nobody?)
              || (s.workers[w].Waiting? && !s.cancelled)
  {
    forall w | 0 <= w < |s.workers|
      ensures s.workers[w].Exited? || (s.workers[w].WantsStop? && !s.lock.Nobody?)
              || (s.workers[w].Waiting? && !s.cancelled)
    {
      assert !Enabled(s, Leave(w)) && !Enabled(s, WorkerLock(w)) && !Enabled(s, WorkerStop(w));
      var key := match s.workers[w] case Running(k) => k case _ => "";
      assert !Enabled(s, Finish(w, SomeAttempt(s.world, key), RecordUnreadable));
    }
  }

  lemma QuietCallers(s: State)
    requires Inv(s) && Quiet(s)
    ensures forall c :: 0 <= c < |s.callers| ==> s.callers[c].Idle? || (s.callers[c].Wants? && !s.lock.Nobody?)
  {
    forall c | 0 <= c < |s.callers|
      ensures s.callers[c].Idle? || (s.callers[c].Wants? && !s.lock.Nobody?)
    {
      assert !Enabled(s, CallerLock(c)) && !Enabled(s, CallerApply(c));
    }
  }

  lemma QuietAssigner(s: State)
    requires Inv(s) && Quiet(s)
    ensures s.assigner.Returned? || s.assigner.Sending?
    ensures s.assigner.Returned? ==> s.lock.Nobody?
    ensures s.assigner.Sending? ==> forall w :: 0 <= w < |s.workers| ==> !s.workers[w].Waiting?
  {
    QuietLock(s);
    assert !Enabled(s, Check) && !Enabled(s, AssignerLock) && !Enabled(s, PickFront);
    assert !Enabled(s, AssignerUnlock) && !Enabled(s, Measure) && !Enabled(s, Wake);
    forall w | 0 <= w < |s.workers| ensures !(s.assigner.Sending? && s.workers[w].Waiting?) {
      assert !Enabled(s, HandOver(w));
    }
  }

  lemma MovesAreNeither(s: State, a: Action)
    requires Inv(s) && Internal(a) && Enabled(s, a)
    ensures !Deadlocked(s) && !ShutDown(s)
  {
  }

  /** The exact account of when everything stops: a reachable state has no enabled step of
      its own if and only if it is that deadlock or a complete shutdown.  So while one
      worker is outside these cases, or the assigner is not at the send, work goes on. */
  lemma StuckIff(s: State, workers: nat, callers: nat)
    requires Reachable(s, workers, callers)
    ensures Quiet(s) <==> Deadlocked(s) || ShutDown(s)
  {
    ReachableInv(s, workers, callers);
    if Quiet(s) {
      QuietWorkers(s);
      QuietCallers(s);
      QuietAssigner(s);
    } else {
      var a :| Internal(a) && Enabled(s, a);
      MovesAreNeither(s, a);
    }
  }

  /** A deadlock is for good: no action of any process or of the environment ends it,
      and no key is dispatched or un-watched again. */
  lemma {:induction false} DeadlockIsPermanent(s: State, run: seq<Action>, t: State)
    requires Deadlocked(s) && Exec(s, run) == Some(t)
    ensures Deadlocked(t) && t.keys == s.keys && t.received == s.received && t.events == s.events
    decreases |run|
  {
    if run != [] {
      DeadlockIsPermanent(Next(s, run[0]), run[1..], t);
    }
  }

  // ----- The deadlock is reachable with any number of workers -----

  ghost predicate Leads(s: State, t: State) {
    exists run :: Exec(s, run) == Some(t)
  }

  lemma LeadsStep(s: State, a: Action, t: State)
    requires Enabled(s, a) && Leads(Next(s, a), t)
    ensures Leads(s, t)
  {
    var run :| Exec(Next(s, a), run) == Some(t);
    assert ([a] + run)[1..] == run;
    assert Exec(s, [a] + run) == Some(t);
  }

  /** One watched key whose GitSync is gone, and the first n workers busy with it. */
  ghost predicate Busy(s: State, n: nat, key: Key) {
    && s.keys == [key] && s.lock.Nobody? && s.assigner.Checking? && !s.cancelled && s.world == map[]
    && n <= |s.workers|
    && (forall w :: 0 <= w < n ==> s.workers[w] == Running(key))
    && (forall w :: n <= w < |s.workers| ==> s.workers[w].Waiting?)
    && (forall c :: 0 <= c < |s.callers| ==> s.callers[c].Idle?)
  }

  lemma {:induction false} FillWorkers(s: State, n: nat, namespace: string, name: string) returns (t: State)
    requires Busy(s, n, KeyOf(namespace, name)) && '/' !in namespace && '/' !in name
    ensures Leads(s, t) && Deadlocked(t) && t.keys == [KeyOf(namespace, name)] && !t.cancelled
    ensures forall w :: 0 <= w < |t.workers| ==> t.workers[w].WantsStop?
    decreases |s.workers| - n
  {
    var s1 := Next(s, Check);
    var s2 := Next(s1, AssignerLock);
    var s3 := Next(s2, PickFront);
    if n == |s.workers| {
      t := BlockWorkers(s3, 0, namespace, name);
    } else {
      var s4 := Next(s3, HandOver(n));
      var s5 := Next(s4, AssignerUnlock);
      var s6 := Next(s5, Measure);
      t := FillWorkers(Next(s6, Wake), n + 1, namespace, name);
      LeadsStep(s6, Wake, t);
      LeadsStep(s5, Measure, t);
      LeadsStep(s4, AssignerUnlock, t);
      LeadsStep(s3, HandOver(n), t);
    }
    LeadsStep(s2, PickFront, t);
    LeadsStep(s1, AssignerLock, t);
    LeadsStep(s, Check, t);
  }

  lemma {:induction false} BlockWorkers(s: State, n: nat, namespace: string, name: string) returns (t: State)
    requires '/' !in namespace && '/' !in name
    requires var key := KeyOf(namespace, name);
      && s.keys == [key] && s.lock.TheAssigner? && s.assigner == Sending(key) && s.world == map[]
      && !s.cancelled && n <= |s.workers|
      && (forall w :: 0 <= w < n ==> s.workers[w] == WantsStop(key))
      && (forall w :: n <= w < |s.workers| ==> s.workers[w] == Running(key))
      && (forall c :: 0 <= c < |s.callers| ==> s.callers[c].Idle?)
    ensures Leads(s, t) && Deadlocked(t) && t.keys == s.keys && !t.cancelled
    ensures forall w :: 0 <= w < |t.workers| ==> t.workers[w].WantsStop?
    decreases |s.workers| - n
  {
    if n == |s.workers| {
      t := s;
      assert Exec(s, []) == Some(t);
    } else {
      var a := SomeAttempt(s.world, KeyOf(namespace, name));
      var finish := Finish(n, a, RecordUnreadable);
      KeyRoundTrip(namespace, name);
      t := BlockWorkers(Next(s, finish), n + 1, namespace, name);
      LeadsStep(s, finish, t);
    }
  }

  /** Deadlock freedom is false of the syncer: with any number of workers, one reconciler
      and a single key whose GitSync is gone, a run leads from the initial state to the
      deadlock, with nothing cancelled, every worker waiting in StopWatching and the key
      still watched. */
  lemma DeadlockReachable(workers: nat) returns (s: State)
    ensures Reachable(s, workers, 1) && Deadlocked(s) && s.keys != [] && !s.cancelled
    ensures forall w :: 0 <= w < |s.workers| ==> s.workers[w].WantsStop?
  {
    var namespace, name := "ns", "a";
    var key := KeyOf(namespace, name);
    var s0 := Init(workers, 1);
    var s1 := Next(s0, Call(0, Start(key)));
    var s2 := Next(s1, CallerLock(0));
    s := FillWorkers(Next(s2, CallerApply(0)), 0, namespace, name);
    LeadsStep(s2, CallerApply(0), s);
    LeadsStep(s1, CallerLock(0), s);
    LeadsStep(s0, Call(0, Start(key)), s);
  }

  // ----- Runs as rotations -----

  /** Whatever the processes do, their effect on the watched keys is the rotation run of
      the critical sections they perform.  So results about rotations are results
      about runs. */
  lemma {:induction false} RunRefinesRotation(s: State, run: seq<Action>, t: State)
    requires Exec(s, run) == Some(t)
    ensures t.keys == Run(s.keys, EventsAlong(s, run))
    ensures t.events == s.events + EventsAlong(s, run)
    decreases |run|
  {
    if run != [] {
      var es, s' := NewEvents(s, run[0]), Next(s, run[0]);
      var rest := EventsAlong(s', run[1..]);
      StepIsRun(s, run[0]);
      RunRefinesRotation(s', run[1..], t);
      RunConcat(s.keys, es, rest);
      AppendAssociates(s.events, es, rest);
    }
  }

  lemma StepIsRun(s: State, a: Action)
    requires Enabled(s, a)
    ensures Next(s, a).keys == Run(s.keys, NewEvents(s, a))
    ensures Next(s, a).events == s.events + NewEvents(s, a)
  {
    StepRefinesRotation(s, a);
    var es := NewEvents(s, a);
    if es != [] {
      assert es[1..] == [];
      assert Run(s.keys, es) == Run(Step(s.keys, es[0]), []);
    }
  }

  /** Along any run from a reachable state, a key at position i that is not stopped is
      picked within i + 1 assigns; and the keys picked along the run are exactly those that
      workers receive, in order, but for one that may still be at the send. */
  lemma KeyIsHandedOver(s: State, workers: nat, callers: nat, run: seq<Action>, t: State, key: Key)
    requires Reachable(s, workers, callers) && Exec(s, run) == Some(t)
    requires key in s.keys && Stop(key) !in EventsAlong(s, run)
    requires Assigns(EventsAlong(s, run)) > IndexOf(s.keys, key)
    ensures key in Picks(s.keys, EventsAlong(s, run))
    ensures Received(t.received) + Pending(t.assigner)
            == Received(s.received) + Pending(s.assigner) + Picks(s.keys, EventsAlong(s, run))
  {
    ReachableInv(s, workers, callers);
    RunKeepsInv(s, run, t);
    RunRefinesRotation(s, run, t);
    RunConcat([], s.events, EventsAlong(s, run));
    DispatchedWithin(s.keys, EventsAlong(s, run), key);
  }

  /** The assigner is about to pick the key. */
  predicate AboutToPick(s: State, key: Key) {
    s.assigner.Picking? && s.keys != [] && s.keys[0] == key
  }

  /** Bounded bypass in runs: from one pick of a key to the next, along any run in which the
      key is not stopped, any other key is picked at most once, and exactly once if it is
      watched at the first pick and not stopped before the second. */
  lemma BypassInRuns(s: State, workers: nat, callers: nat, run: seq<Action>, t: State, j: Key, k: Key)
    requires Reachable(s, workers, callers) && AboutToPick(s, k) && j != k
    requires Exec(Next(s, PickFront), run) == Some(t) && AboutToPick(t, k)
    requires var es := EventsAlong(Next(s, PickFront), run);
      Stop(k) !in es && k !in Picks(Rotated(s.keys), es)
    ensures var es := EventsAlong(Next(s, PickFront), run);
      && multiset(Picks(Rotated(s.keys), es))[j] <= 1
      && (j in s.keys && Stop(j) !in es ==> multiset(Picks(Rotated(s.keys), es))[j] == 1)
  {
    ReachableInv(s, workers, callers);
    RunRefinesRotation(Next(s, PickFront), run, t);
    BoundedBypass(s.keys, EventsAlong(Next(s, PickFront), run), j, k);
  }

  /** Pacing in runs: from one pick of a key to the next, along any run in which no key is
      stopped, the assigner's pauses total at most max(interval, l) for the l keys watched
      at the first pick; if none joins they total more than interval - l, and they stay
      within the interval if and only if l does. */
  lemma PacingInRuns(
    s: State, workers: nat, callers: nat, run: seq<Action>, t: State, k: Key, interval: nat)
    requires Reachable(s, workers, callers) && AboutToPick(s, k)
    requires Exec(Next(s, PickFront), run) == Some(t) && AboutToPick(t, k)
    requires var es := EventsAlong(Next(s, PickFront), run);
      NoStops(es) && k !in Picks(Rotated(s.keys), es)
    ensures var l, es := |s.keys|, EventsAlong(Next(s, PickFront), run);
      var total := TotalSleep(PauseFor(interval), Rotated(s.keys), es);
      && total <= (if interval > l then interval else l)
      && (|t.keys| == l ==> total > interval - l && (total <= interval <==> l <= interval))
  {
    var s' := Next(s, PickFront);
    ReachableInv(s, workers, callers);
    StepKeepsInv(s, PickFront);
    RunKeepsInv(s', run, t);
    RunRefinesRotation(s', run, t);
    TurnConcat(s'.events, EventsAlong(s', run), AssignDue);
    PacingBound(s.keys, EventsAlong(s', run), k, interval);
  }

  // ----- Stale keys -----

  /** The GitSync is gone, or is being deleted and its deletion processing succeeds. */
  predicate Stale(world: map<(string, string), View>, namespace: string, name: string) {
    (namespace, name) !in world || world[(namespace, name)] == Terminating(true)
  }

  predicate StaleAlong(s: State, run: seq<Action>, namespace: string, name: string)
    decreases |run|
  {
    Stale(s.world, namespace, name)
    && (run != [] && Enabled(s, run[0]) ==> StaleAlong(Next(s, run[0]), run[1..], namespace, name))
  }

  /** The worker is on a job for the key. */
  predicate Holds(worker: Worker, key: Key) {
    worker == Running(key) || worker == WantsStop(key) || worker == Stopping(key)
  }

  /** Un-watched, on its way to a worker, or in the hands of a worker. */
  ghost predicate Settled(s: State, key: Key) {
    || key !in s.keys
    || s.assigner == Sending(key)
    || exists w :: 0 <= w < |s.workers| && Holds(s.workers[w], key)
  }

  lemma UnwatchedStays(s: State, a: Action, key: Key)
    requires Inv(s) && Enabled(s, a) && key !in s.keys && NewEvents(s, a) != [Start(key)]
    ensures key !in Next(s, a).keys
  {
    StepRefinesRotation(s, a);
    if NewEvents(s, a) != [] {
      StepKeepsDistinct(s.keys, NewEvents(s, a)[0]);
    }
  }

  /** A worker on a job for a stale key goes on with it, or has just un-watched it. */
  lemma HolderGoesOn(s: State, a: Action, w: nat, namespace: string, name: string)
    requires '/' !in namespace && '/' !in name && w < |s.workers|
    requires Inv(s) && Enabled(s, a) && Stale(s.world, namespace, name)
    requires Holds(s.workers[w], KeyOf(namespace, name))
    ensures var key, t := KeyOf(namespace, name), Next(s, a); Holds(t.workers[w], key) || key !in t.keys
  {
    var key := KeyOf(namespace, name);
    if OfWorker(a) && a.w == w {
      KeyRoundTrip(namespace, name);
      StepKeepsDistinct(s.keys, Stop(key));
    } else {
      assert Next(s, a).workers[w] == s.workers[w];
    }
  }

  /** A key that nobody starts stays un-watched, and a worker gives up a stale key only by
      un-watching it. */
  lemma HolderStep(s: State, a: Action, w: nat, namespace: string, name: string)
    requires '/' !in namespace && '/' !in name && w < |s.workers|
    requires Inv(s) && Enabled(s, a) && Stale(s.world, namespace, name)
    requires NewEvents(s, a) != [Start(KeyOf(namespace, name))]
    requires var key := KeyOf(namespace, name); Holds(s.workers[w], key) || key !in s.keys
    ensures var key, t := KeyOf(namespace, name), Next(s, a); Holds(t.workers[w], key) || key !in t.keys
  {
    if KeyOf(namespace, name) !in s.keys {
      UnwatchedStays(s, a, KeyOf(namespace, name));
    } else {
      HolderGoesOn(s, a, w, namespace, name);
    }
  }

  /** Along a run in which its key stays stale and is not started, a worker that is on a job
      for the key either is still on it, or the key is un-watched. */
  lemma {:induction false} HolderUnwatches(
    s: State, run: seq<Action>, t: State, w: nat, namespace: string, name: string)
    requires '/' !in namespace && '/' !in name && w < |s.workers| == |t.workers|
    requires Inv(s) && Exec(s, run) == Some(t) && StaleAlong(s, run, namespace, name)
    requires Start(KeyOf(namespace, name)) !in EventsAlong(s, run)
    requires Holds(s.workers[w], KeyOf(namespace, name)) || KeyOf(namespace, name) !in s.keys
    ensures Holds(t.workers[w], KeyOf(namespace, name)) || KeyOf(namespace, name) !in t.keys
    decreases |run|
  {
    if run != [] {
      StepKeepsInv(s, run[0]);
      HolderStep(s, run[0], w, namespace, name);
      HolderUnwatches(Next(s, run[0]), run[1..], t, w, namespace, name);
    }
  }

  /** A job that was given the key is not over, or the key is un-watched. */
  predicate HeldOrUnwatched(s: State, d: Delivery, key: Key) {
    d.worker < |s.workers| && (d.key == key ==> Holds(s.workers[d.worker], key) || key !in s.keys)
  }

  lemma {:induction false} RunReceives(s: State, run: seq<Action>, t: State)
    requires Exec(s, run) == Some(t)
    ensures |s.received| <= |t.received|
    ensures forall i :: 0 <= i < |s.received| ==> t.received[i] == s.received[i]
    decreases |run|
  {
    if run != [] {
      StepReceives(s, run[0]);
      RunReceives(Next(s, run[0]), run[1..], t);
    }
  }

  lemma StepReceives(s: State, a: Action)
    requires Enabled(s, a)
    ensures Next(s, a).received == s.received + if a.HandOver? then [Delivery(a.w, s.assigner.key)] else []
  {
  }

  lemma ReceiverUnwatches(s: State, w: nat, rest: seq<Action>, t: State, namespace: string, name: string)
    requires '/' !in namespace && '/' !in name && Inv(s) && Enabled(s, HandOver(w)) && |s.workers| == |t.workers|
    requires var s' := Next(s, HandOver(w));
      && Exec(s', rest) == Some(t) && StaleAlong(s', rest, namespace, name)
      && Start(KeyOf(namespace, name)) !in EventsAlong(s', rest)
    ensures HeldOrUnwatched(t, Delivery(w, s.assigner.key), KeyOf(namespace, name))
  {
    if s.assigner.key == KeyOf(namespace, name) {
      StepKeepsInv(s, HandOver(w));
      HolderUnwatches(Next(s, HandOver(w)), rest, t, w, namespace, name);
    }
  }

  /** So every job a run hands out for a stale key ends with the key un-watched. */
  lemma {:induction false} ReceiverUnwatchesLater(
    s: State, run: seq<Action>, t: State, i: nat, namespace: string, name: string)
    requires '/' !in namespace && '/' !in name
    requires Inv(s) && Exec(s, run) == Some(t) && StaleAlong(s, run, namespace, name)
    requires Start(KeyOf(namespace, name)) !in EventsAlong(s, run)
    requires |s.received| <= i < |t.received|
    ensures HeldOrUnwatched(t, t.received[i], KeyOf(namespace, name))
    decreases |run|
  {
    if run != [] {
      var a, s' := run[0], Next(s, run[0]);
      StepKeepsInv(s, a);
      StepReceives(s, a);
      if i < |s'.received| {
        RunKeepsInv(s', run[1..], t);
        RunReceives(s', run[1..], t);
        ReceiverUnwatches(s, a.w, run[1..], t, namespace, name);
      } else {
        ReceiverUnwatchesLater(s', run[1..], t, i, namespace, name);
      }
    }
  }

  lemma SettledStep(s: State, a: Action, namespace: string, name: string)
    requires '/' !in namespace && '/' !in name
    requires Inv(s) && Enabled(s, a) && Stale(s.world, namespace, name)
    requires Settled(s, KeyOf(namespace, name)) && NewEvents(s, a) != [Start(KeyOf(namespace, name))]
    ensures Settled(Next(s, a), KeyOf(namespace, name))
  {
    var key, t := KeyOf(namespace, name), Next(s, a);
    KeyRoundTrip(namespace, name);
    StepRefinesRotation(s, a);
    if NewEvents(s, a) != [] {
      StepKeepsDistinct(s.keys, NewEvents(s, a)[0]);
    }
    if w :| 0 <= w < |s.workers| && Holds(s.workers[w], key) {
      HolderStep(s, a, w, namespace, name);
      assert key in t.keys ==> Holds(t.workers[w], key);
    } else if s.assigner == Sending(key) && a.HandOver? {
      assert Holds(t.workers[a.w], key);
    }
  }

  /** While a watched key is not yet on its way, an action moves it no further back, and an
      assign moves it forward. */
  lemma UnsettledStep(s: State, a: Action, key: Key)
    requires Inv(s) && Enabled(s, a)
    requires !Settled(s, key) && !Settled(Next(s, a), key)
    ensures IndexOf(Next(s, a).keys, key) + Assigns(NewEvents(s, a)) <= IndexOf(s.keys, key)
  {
    var es := NewEvents(s, a);
    StepRefinesRotation(s, a);
    if es != [] {
      var e := es[0];
      assert Assigns(es) == if e.Assign? then 1 else 0;
      assert key in s.keys && e != Stop(key) && Distinct(s.keys) by {
        StepKeepsDistinct(s.keys, e);
      }
      PositionStep(s.keys, e, key);
      assert e.Assign? ==> a.PickFront? by {
        assert LockOk(s);
      }
      assert a.PickFront? ==> s.keys[0] != key;
    }
  }

  lemma {:induction false} StaleKeyAdvances(s: State, run: seq<Action>, t: State, namespace: string, name: string)
    requires '/' !in namespace && '/' !in name
    requires Inv(s) && Exec(s, run) == Some(t) && StaleAlong(s, run, namespace, name)
    requires Start(KeyOf(namespace, name)) !in EventsAlong(s, run)
    ensures var key := KeyOf(namespace, name);
      Settled(t, key)
      || (!Settled(s, key) && IndexOf(t.keys, key) + Assigns(EventsAlong(s, run)) <= IndexOf(s.keys, key))
    decreases |run|
  {
    var key := KeyOf(namespace, name);
    if run != [] {
      var a, s' := run[0], Next(s, run[0]);
      StepKeepsInv(s, a);
      StaleKeyAdvances(s', run[1..], t, namespace, name);
      AssignsAppend(NewEvents(s, a), EventsAlong(s', run[1..]));
      if Settled(s, key) {
        SettledStep(s, a, namespace, name);
      } else if !Settled(s', key) {
        UnsettledStep(s, a, key);
      }
    }
  }

  /** Stale keys drain: let the GitSync of a watched key stay gone, or stay in deletion with
      its processing succeeding, and let nobody start the key again.  Within as many assigns
      as there are watched keys, the key is picked or stopped; from then on it is
      un-watched, at the send, or in the hands of a worker; and each worker that receives it
      on the way is still on that job, or the key is un-watched. */
  lemma StaleKeyDrains(
    s: State, workers: nat, callers: nat, run: seq<Action>, t: State, namespace: string, name: string)
    requires '/' !in namespace && '/' !in name
    requires Reachable(s, workers, callers)
    requires Exec(s, run) == Some(t) && StaleAlong(s, run, namespace, name)
    requires Start(KeyOf(namespace, name)) !in EventsAlong(s, run)
    requires Assigns(EventsAlong(s, run)) >= |s.keys|
    ensures var key, es := KeyOf(namespace, name), EventsAlong(s, run);
      && (key in s.keys ==> key in Picks(s.keys, es) || Stop(key) in es)
      && Settled(t, key)
      && (forall i :: |s.received| <= i < |t.received| ==> HeldOrUnwatched(t, t.received[i], key))
  {
    var key, es := KeyOf(namespace, name), EventsAlong(s, run);
    ReachableInv(s, workers, callers);
    StaleKeyAdvances(s, run, t, namespace, name);
    forall i | |s.received| <= i < |t.received| ensures HeldOrUnwatched(t, t.received[i], key) {
      ReceiverUnwatchesLater(s, run, t, i, namespace, name);
    }
    if key in s.keys && Stop(key) !in es {
      DispatchedWithin(s.keys, es, key);
    }
  }
}
