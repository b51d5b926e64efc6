/** Runs of the syncer in which the promised pace is missed. */
module Pacing {
  import opened Text
  import opened Rotation
  import opened SyncRun
  import opened Dispatch
  import opened Deadlock

  const NAMESPACE := "ns"

  function NameAt(i: nat): (name: string)
    ensures '/' !in name && |name| == i
  {
    seq(i, _ => 'a')
  }

  function KeyAt(i: nat): Key {
    KeyOf(NAMESPACE, NameAt(i))
  }

  ghost predicate NoneStale(s: State) {
    forall key :: key in s.keys ==> !StaleKey(s.world, key)
  }

  // ----- As many watched keys as one likes -----

  ghost predicate Calm(s: State, l: nat) {
    && s.lock.Nobody? && s.assigner.Checking? && !s.cancelled
    && |s.workers| > 0 && s.workers[0].Waiting? && |s.callers| == 1 && s.callers[0].Idle?
    && |s.keys| == l && NoneStale(s)
    && (forall key :: key in s.keys ==> |key| < |KeyAt(l)|)
  }

  /** A GitSync appears, and the reconciler starts its key. */
  lemma StartOne(s: State, l: nat) returns (t: State)
    requires Calm(s, l)
    ensures Calm(t, l + 1) && |t.workers| == |s.workers|
    ensures forall u :: Leads(t, u) ==> Leads(s, u)
  {
    var key, observe := KeyAt(l), Observe(NAMESPACE, NameAt(l), Some(Hidden));
    var s1 := Next(s, observe);
    var s2 := Next(s1, Call(0, Start(key)));
    var s3 := Next(s2, CallerLock(0));
    t := Next(s3, CallerApply(0));
    KeyRoundTrip(NAMESPACE, NameAt(l));
    assert t.keys == s.keys + [key] && t.world == s.world[(NAMESPACE, NameAt(l)) := Hidden];
    forall u | Leads(t, u) ensures Leads(s, u) {
      LeadsStep(s3, CallerApply(0), u);
      LeadsStep(s2, CallerLock(0), u);
      LeadsStep(s1, Call(0, Start(key)), u);
      LeadsStep(s, observe, u);
    }
  }

  lemma {:induction false} StartMany(s: State, l: nat, n: nat) returns (t: State)
    requires Calm(s, l) && l <= n
    ensures Calm(t, n) && |t.workers| == |s.workers|
    ensures forall u :: Leads(t, u) ==> Leads(s, u)
    decreases n - l
  {
    if l == n {
      t := s;
    } else {
      var s' := StartOne(s, l);
      t := StartMany(s', l + 1, n);
    }
  }

  /** The lock is the assigner's, which is about to pick the first of l keys. */
  lemma ReachPick(workers: nat, l: nat) returns (s: State)
    requires workers > 0 && l > 0
    ensures Reachable(s, workers, 1) && |s.keys| == l && AboutToPick(s, s.keys[0]) && NoneStale(s)
    ensures !s.cancelled && |s.workers| > 0 && s.workers[0].Waiting?
  {
    var t := StartMany(Init(workers, 1), 0, l);
    var t1 := Next(t, Check);
    s := Next(t1, AssignerLock);
    assert Exec(s, []) == Some(s);
    LeadsStep(t1, AssignerLock, s);
    LeadsStep(t, Check, s);
  }

  // ----- From one pick to the next -----

  /** The run ends where the key is about to be picked, without picking it or stopping or
      starting any. */
  ghost predicate Paces(s: State, run: seq<Action>, t: State, k: Key) {
    var es := EventsAlong(s, run);
    && Exec(s, run) == Some(t) && AboutToPick(t, k) && |t.keys| == |s.keys|
    && NoStops(es) && k !in Picks(s.keys, es)
  }

  lemma PacesCons(s: State, a: Action, run: seq<Action>, t: State, k: Key)
    requires Enabled(s, a) && Paces(Next(s, a), run, t, k)
    requires !a.WorkerStop? && !a.CallerApply? && (a.PickFront? ==> s.keys != [] && s.keys[0] != k)
    ensures Paces(s, [a] + run, t, k)
  {
    var longer, es, rest := [a] + run, NewEvents(s, a), EventsAlong(Next(s, a), run);
    assert longer[0] == a && longer[1..] == run;
    StepIsRun(s, a);
    RunConcat(s.keys, es, rest);
    assert Picks(s.keys, es) == if a.PickFront? then [s.keys[0]] else [] by {
      if es != [] {
        assert es[1..] == [];
        assert Picks(s.keys, es) == Pick(s.keys, es[0]) + Picks(Step(s.keys, es[0]), []);
      }
    }
    assert EventsAlong(s, longer) == es + rest;
  }

  /** At the send, with a worker to receive and no key that a job would un-watch. */
  ghost predicate Going(s: State) {
    && s.assigner.Sending? && s.lock.TheAssigner? && !s.cancelled
    && |s.workers| > 0 && s.workers[0].Waiting?
    && Distinct(s.keys) && NoneStale(s) && !StaleKey(s.world, s.assigner.key)
  }

  /** After the handover, the job, the pause and the next lock. */
  function Rounded(s: State): State
    requires s.assigner.Sending?
  {
    s.(assigner := Picking, events := s.events + [Sleep],
       received := s.received + [Delivery(0, s.assigner.key)])
  }

  lemma RoundPaces(s: State, run: seq<Action>, t: State, k: Key) returns (longer: seq<Action>)
    requires Going(s) && Paces(Rounded(s), run, t, k)
    ensures Paces(s, longer, t, k)
  {
    var s1 := Next(s, HandOver(0));
    var finish := Finishing(s1, 0);
    AfterFinishing(s1, 0);
    var s2 := Next(s1, finish);
    assert s2.workers == s.workers;
    var s3 := Next(s2, AssignerUnlock);
    var s4 := Next(s3, Measure);
    var s5 := Next(s4, Wake);
    var s6 := Next(s5, Check);
    assert Next(s6, AssignerLock) == Rounded(s);
    PacesCons(s6, AssignerLock, run, t, k);
    longer := [AssignerLock] + run;
    PacesCons(s5, Check, longer, t, k);
    longer := [Check] + longer;
    PacesCons(s4, Wake, longer, t, k);
    longer := [Wake] + longer;
    PacesCons(s3, Measure, longer, t, k);
    longer := [Measure] + longer;
    PacesCons(s2, AssignerUnlock, longer, t, k);
    longer := [AssignerUnlock] + longer;
    PacesCons(s1, finish, longer, t, k);
    longer := [finish] + longer;
    PacesCons(s, HandOver(0), longer, t, k);
    longer := [HandOver(0)] + longer;
  }

  lemma {:induction false} UntilPicked(s: State, k: Key) returns (run: seq<Action>, t: State)
    requires Going(s) && k in s.keys
    ensures Paces(s, run, t, k)
    decreases IndexOf(s.keys, k)
  {
    var v := Rounded(s);
    if v.keys[0] == k {
      assert Exec(v, []) == Some(v) && Paces(v, [], v, k);
      t := v;
      run := RoundPaces(s, [], t, k);
    } else {
      StepKeepsDistinct(v.keys, Assign);
      PositionStep(v.keys, Assign, k);
      run, t := UntilPicked(Next(v, PickFront), k);
      PacesCons(v, PickFront, run, t, k);
      run := RoundPaces(s, [PickFront] + run, t, k);
    }
  }

  /** The promise of an assignment at most every so many milliseconds fails for every
      interval and every number of workers: with one key more than there are milliseconds,
      a run from the start has the assigner pause for longer than the interval between two
      picks of the same key. */
  lemma PromiseFails(interval: nat, workers: nat) returns (s: State, k: Key, run: seq<Action>, t: State)
    requires workers > 0
    ensures Reachable(s, workers, 1) && AboutToPick(s, k) && |s.keys| == interval + 1
    ensures Paces(Next(s, PickFront), run, t, k)
    ensures TotalSleep(PauseFor(interval), Rotated(s.keys), EventsAlong(Next(s, PickFront), run)) > interval
  {
    s := ReachPick(workers, interval + 1);
    k := s.keys[0];
    ReachableInv(s, workers, 1);
    StepKeepsDistinct(s.keys, Assign);
    run, t := UntilPicked(Next(s, PickFront), k);
    PacingInRuns(s, workers, 1, run, t, k, interval);
  }
}
