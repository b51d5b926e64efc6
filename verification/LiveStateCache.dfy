/** The cluster cache is created on first use and kept; its settings follow the loaded
    configuration. */
module LiveStateCache {
  import opened Text
  import opened ResourceFilter

  /** None is the zero value that a cache holds before Init; no load yields it. */
  type Settings = Option<seq<ResourceType>>

  /** Reading the settings: the configuration may be unreadable, and its rules may be
      malformed or make the parser panic. */
  function Load(config: Option<string>): Parsed {
    if config.None? then Malformed else Parse(config.value)
  }

  /** Settings are read exactly when the configuration is readable and its rules parse, and
      for printed rules they are those rules. */
  lemma LoadReads(config: Option<string>, list: seq<ResourceType>)
    requires forall r | r in list :: Clean(r)
    ensures Load(config).Rules? <==> config.Some? && Parse(config.value).Rules?
    ensures Load(Some(PrintAll(list))) == Rules(list)
  {
    ParsePrint(list);
  }

  // ----- One call at a time -----

  /** The settings of the cluster, if there is one, and the cached settings. */
  datatype Held = Held(cluster: Option<Settings>, settings: Settings)

  /** A call of getCluster that loads `next`; nothing when it panics. */
  function Call(h: Held, next: Settings): Option<Held> {
    if next == h.settings then Some(Held(Some(if h.cluster.Some? then h.cluster.value else next), next))
    else if h.cluster.None? then None
    else Some(Held(Some(next), next))
  }

  function Calls(h: Held, loads: seq<Settings>): Option<Held> {
    if loads == [] then Some(h)
    else match Calls(h, loads[..|loads| - 1])
      case None => None
      case Some(g) => Call(g, loads[|loads| - 1])
  }

  /** Exactly when a series of calls with successful loads survives: the first one still
      loads what the cache holds.  Then after every call the cluster exists and its settings
      are the last ones loaded. */
  lemma {:induction false} CallsFollowLoads(initial: Settings, loads: seq<Settings>)
    requires loads != []
    ensures Calls(Held(None, initial), loads).Some? <==> loads[0] == initial
    ensures loads[0] == initial ==>
      Calls(Held(None, initial), loads).value == Held(Some(loads[|loads| - 1]), loads[|loads| - 1])
  {
    var n := |loads| - 1;
    if n > 0 {
      CallsFollowLoads(initial, loads[..n]);
    }
  }

  class ClusterCache {
    var settings: Settings

    constructor (settings: Settings)
      ensures this.settings == settings
    {
      this.settings := settings;
    }

    method Invalidate(settings: Settings)
      modifies this
      ensures this.settings == settings
    {
      this.settings := settings;
    }
  }

  class Cache {
    var cluster: ClusterCache?
    var cacheSettings: Settings

    function Value(): Held
      reads this, cluster
    {
      Held(if cluster == null then None else Some(cluster.settings), cacheSettings)
    }

    constructor ()
      ensures Value() == Held(None, None)
    {
      cluster, cacheSettings := null, None;
    }

    method Init(config: Option<string>) returns (ok: bool)
      modifies this`cacheSettings
      ensures ok <==> Load(config).Rules?
      ensures cacheSettings == if ok then Some(Load(config).list) else old(cacheSettings)
    {
      var setting := Load(config);
      ok := setting.Rules?;
      if ok {
        cacheSettings := Some(setting.list);
      }
    }

    /** The call panics exactly when the settings cannot be loaded, since it goes on with
        what it did not get, or when they differ from the cached ones before there is a
        cluster to invalidate; so in particular before Init.  Otherwise it returns the one
        cluster, as the call on values says. */
    method GetCluster(config: Option<string>) returns (panicked: bool, c: ClusterCache?)
      modifies this, cluster
      ensures panicked <==> !Load(config).Rules? || Call(old(Value()), Some(Load(config).list)).None?
      ensures !panicked ==> Call(old(Value()), Some(Load(config).list)) == Some(Value())
      ensures panicked ==>
        Value() == Held(old(Value()).cluster,
                        if Load(config).Rules? then Some(Load(config).list) else old(cacheSettings))
      ensures !panicked ==> c != null && c == cluster && (old(cluster) == null ==> fresh(c))
      ensures old(cluster) != null ==> cluster == old(cluster)
    {
      var loaded := Load(config);
      if !loaded.Rules? {
        return true, null;
      }
      var next := Some(loaded.list);
      if cacheSettings != next {
        cacheSettings := next;
        if cluster == null {
          return true, null;
        }
        cluster.Invalidate(next);
      }
      if cluster != null {
        return false, cluster;
      }
      cluster := new ClusterCache(cacheSettings);
      return false, cluster;
    }
  }

  // ----- Calls in any interleaving -----

  /** Where a call of getCluster stands; each stage but the last is one critical section.
      Pushing has left the lock and invalidates the cluster it saw. */
  datatype Caller =
    | Idle
    | Comparing(next: Settings)
    | Invalidating(next: Settings)
    | Pushing(next: Settings, seen: Option<nat>)
    | Reading
    | Creating(settings: Settings)
    | Returned(cluster: nat)
    | Crashed

  datatype State = State(
    cluster: Option<nat>, clusterSettings: Settings, cacheSettings: Settings, created: nat, callers: seq<Caller>)

  datatype Action = Begin(c: nat, next: Settings) | Advance(c: nat)

  predicate AtRest(caller: Caller) {
    caller.Idle? || caller.Returned?
  }

  predicate Enabled(s: State, a: Action) {
    a.c < |s.callers|
    && if a.Begin? then AtRest(s.callers[a.c]) else !AtRest(s.callers[a.c]) && !s.callers[a.c].Crashed?
  }

  function Goto(s: State, c: nat, caller: Caller): State
    requires c < |s.callers|
  {
    s.(callers := s.callers[c := caller])
  }

  function Next(s: State, a: Action): State
    requires Enabled(s, a)
  {
    var c := a.c;
    if a.Begin? then Goto(s, c, Comparing(a.next))
    else match s.callers[c]
      case Comparing(next) =>
        if s.cacheSettings == next then Goto(s, c, Reading)
        else Goto(s.(cacheSettings := next), c, Invalidating(next))
      case Invalidating(next) => Goto(s.(cacheSettings := next), c, Pushing(next, s.cluster))
      case Pushing(next, seen) =>
        if seen.None? then Goto(s, c, Crashed) else Goto(s.(clusterSettings := next), c, Reading)
      case Reading => Goto(s, c, if s.cluster.Some? then Returned(s.cluster.value) else Creating(s.cacheSettings))
      case Creating(settings) =>
        if s.cluster.Some? then Goto(s, c, Returned(s.cluster.value))
        else Goto(s.(cluster := Some(s.created), clusterSettings := settings, created := s.created + 1),
                  c, Returned(s.created))
      case _ => s
  }

  function Exec(s: State, run: seq<Action>): Option<State>
    decreases |run|
  {
    if run == [] then Some(s)
    else if Enabled(s, run[0]) then Exec(Next(s, run[0]), run[1..])
    else None
  }

  function Start(callers: nat, settings: Settings): State {
    State(None, None, settings, 0, seq(callers, _ => Idle))
  }

  // ----- One cluster -----

  ghost predicate Inv(s: State) {
    && s.created == (if s.cluster.Some? then 1 else 0)
    && (s.cluster.Some? ==> s.cluster.value == 0)
    && (forall c :: 0 <= c < |s.callers| && s.callers[c].Returned? ==> s.cluster == Some(s.callers[c].cluster))
    && (forall c :: 0 <= c < |s.callers| && s.callers[c].Pushing? && s.callers[c].seen.Some? ==>
          s.cluster == s.callers[c].seen)
  }

  lemma {:induction false} RunKeepsInv(s: State, run: seq<Action>, t: State)
    requires Inv(s) && Exec(s, run) == Some(t)
    ensures Inv(t) && (s.cluster.Some? ==> t.cluster == s.cluster)
    decreases |run|
  {
    if run != [] {
      RunKeepsInv(Next(s, run[0]), run[1..], t);
    }
  }

  /** Over every interleaving, at most one cluster cache is ever created, every call that
      returns gives that one, and it is never replaced. */
  lemma OneCluster(callers: nat, settings: Settings, run: seq<Action>, s: State, more: seq<Action>, t: State)
    requires Exec(Start(callers, settings), run) == Some(s) && Exec(s, more) == Some(t)
    ensures s.created <= t.created <= 1
    ensures forall c :: 0 <= c < |s.callers| && s.callers[c].Returned? ==> t.cluster == Some(s.callers[c].cluster)
  {
    RunKeepsInv(Start(callers, settings), run, s);
    RunKeepsInv(s, more, t);
  }

  // ----- A call that runs alone -----

  function HeldOf(s: State): Held {
    Held(if s.cluster.Some? then Some(s.clusterSettings) else None, s.cacheSettings)
  }

  /** How far a call that began with h has come. */
  ghost predicate InCall(h: Held, next: Settings, s: State, c: nat)
    requires c < |s.callers|
  {
    match s.callers[c]
    case Idle => false
    case Comparing(n) => n == next && HeldOf(s) == h
    case Invalidating(n) => n == next && h.settings != next && HeldOf(s) == h.(settings := next)
    case Pushing(n, seen) =>
      n == next && h.settings != next && HeldOf(s) == h.(settings := next) && (seen.Some? <==> h.cluster.Some?)
    case Reading =>
      if h.settings == next then HeldOf(s) == h else h.cluster.Some? && HeldOf(s) == Held(Some(next), next)
    case Creating(settings) => settings == next == h.settings && h.cluster.None? && HeldOf(s) == h
    case Returned(_) => Call(h, next) == Some(HeldOf(s))
    case Crashed => Call(h, next) == None
  }

  lemma {:induction false} AdvanceAlone(h: Held, next: Settings, s: State, c: nat, run: seq<Action>, t: State)
    requires c < |s.callers| && InCall(h, next, s, c)
    requires (forall a | a in run :: a == Advance(c)) && Exec(s, run) == Some(t)
    ensures c < |t.callers| && InCall(h, next, t, c)
    decreases |run|
  {
    if run != [] {
      assert run[0] in run && forall a | a in run[1..] :: a in run;
      AdvanceAlone(h, next, Next(s, run[0]), c, run[1..], t);
    }
  }

  /** A call during which no other caller moves is the call on values: it crashes or returns
      exactly as that one panics or not, and leaves what that one leaves. */
  lemma CallAlone(s: State, c: nat, next: Settings, run: seq<Action>, t: State)
    requires c < |s.callers| && AtRest(s.callers[c])
    requires forall a | a in run :: a == Advance(c)
    requires Exec(Next(s, Begin(c, next)), run) == Some(t)
    ensures c < |t.callers|
    ensures t.callers[c].Crashed? ==> Call(HeldOf(s), next) == None
    ensures t.callers[c].Returned? ==> Call(HeldOf(s), next) == Some(HeldOf(t))
  {
    AdvanceAlone(HeldOf(s), next, Next(s, Begin(c, next)), c, run, t);
  }

  // ----- When the cluster's settings are the cached ones -----

  predicate Invalidates(caller: Caller) {
    caller.Invalidating? || caller.Pushing?
  }

  /** The action records changed settings. */
  predicate Records(s: State, a: Action)
    requires Enabled(s, a)
  {
    a.Advance? && s.callers[a.c].Comparing? && s.callers[a.c].next != s.cacheSettings
  }

  /** No change is recorded while another caller is between recording a change and having
      invalidated the cluster, or about to create it. */
  predicate Undisturbed(s: State, run: seq<Action>)
    decreases |run|
  {
    run != [] && Enabled(s, run[0]) ==>
      && (Records(s, run[0]) ==> forall c :: 0 <= c < |s.callers| && c != run[0].c ==>
            !Invalidates(s.callers[c]) && !s.callers[c].Creating?)
      && Undisturbed(Next(s, run[0]), run[1..])
  }

  /** Nobody has a change left to push to the cluster. */
  ghost predicate Settled(s: State) {
    forall c :: 0 <= c < |s.callers| ==> !Invalidates(s.callers[c])
  }

  ghost predicate Agree(s: State) {
    s.cluster.Some? ==> s.clusterSettings == s.cacheSettings
  }

  ghost predicate Tidy(s: State) {
    && (Settled(s) ==> Agree(s))
    && (forall c, d :: 0 <= c < d < |s.callers| ==> !(Invalidates(s.callers[c]) && Invalidates(s.callers[d])))
    && (forall c :: 0 <= c < |s.callers| ==>
          && (Invalidates(s.callers[c]) ==> s.callers[c].next == s.cacheSettings)
          && (s.callers[c].Creating? ==> s.callers[c].settings == s.cacheSettings)
          && (s.callers[c].Pushing? && s.callers[c].seen.None? ==> Agree(s)))
  }

  lemma TidyStep(s: State, a: Action)
    requires Tidy(s) && Enabled(s, a) && Undisturbed(s, [a])
    ensures Tidy(Next(s, a))
  {
    var t, c := Next(s, a), a.c;
    assert forall d :: 0 <= d < |s.callers| && d != c ==> t.callers[d] == s.callers[d];
    if Settled(t) {
      assert !Invalidates(t.callers[c]);
      if !Settled(s) {
        var d :| 0 <= d < |s.callers| && Invalidates(s.callers[d]);
        assert !Invalidates(t.callers[d]);
        assert s.callers[c].Pushing? && s.callers[c].next == s.cacheSettings;
      }
    }
  }

  lemma {:induction false} UndisturbedStaysTidy(s: State, run: seq<Action>, t: State)
    requires Tidy(s) && Undisturbed(s, run) && Exec(s, run) == Some(t)
    ensures Tidy(t)
    decreases |run|
  {
    if run != [] {
      assert Undisturbed(s, [run[0]]);
      TidyStep(s, run[0]);
      UndisturbedStaysTidy(Next(s, run[0]), run[1..], t);
    }
  }

  /** Over every interleaving in which no change is recorded while another caller
      invalidates or is about to create the cluster, the cluster's settings are the cached
      ones whenever nobody has a change left to push. */
  lemma SettingsAgree(callers: nat, settings: Settings, run: seq<Action>, t: State)
    requires Exec(Start(callers, settings), run) == Some(t) && Undisturbed(Start(callers, settings), run)
    ensures Settled(t) && t.cluster.Some? ==> t.clusterSettings == t.cacheSettings
  {
    UndisturbedStaysTidy(Start(callers, settings), run, t);
  }

  // ----- Otherwise they may differ, for good -----

  /** One more action at the end of a run. */
  lemma Extend(s: State, run: seq<Action>, t: State, a: Action) returns (longer: seq<Action>, u: State)
    requires Exec(s, run) == Some(t) && Enabled(t, a)
    ensures longer == run + [a] && u == Next(t, a) && Exec(s, longer) == Some(u)
    decreases |run|
  {
    longer, u := run + [a], Next(t, a);
    if run == [] {
      assert longer[1..] == [];
      assert Exec(u, []) == Some(u);
    } else {
      var rest, v := Extend(Next(s, run[0]), run[1..], t, a);
      assert longer[1..] == rest;
    }
  }

  lemma CreateFirst(callers: nat, settings: Settings) returns (run: seq<Action>, t: State)
    requires callers > 0
    ensures Exec(Start(callers, settings), run) == Some(t)
    ensures t == State(Some(0), settings, settings, 1, Start(callers, settings).callers[0 := Returned(0)])
  {
    var s := Start(callers, settings);
    run, t := Extend(s, [], s, Begin(0, settings));
    run, t := Extend(s, run, t, Advance(0));
    run, t := Extend(s, run, t, Advance(0));
    run, t := Extend(s, run, t, Advance(0));
  }

  /** The cluster is there, and a call is about to push a change it has recorded. */
  lemma SeeChange(callers: nat, settings: Settings, older: Settings) returns (run: seq<Action>, t: State)
    requires callers > 0 && settings != older
    ensures Exec(Start(callers, settings), run) == Some(t)
    ensures t == State(Some(0), settings, older, 1, Start(callers, settings).callers[0 := Pushing(older, Some(0))])
  {
    var s := Start(callers, settings);
    run, t := CreateFirst(callers, settings);
    run, t := Extend(s, run, t, Begin(0, older));
    run, t := Extend(s, run, t, Advance(0));
    run, t := Extend(s, run, t, Advance(0));
  }

  /** Calls that overlap can leave the cluster with settings that are not the cached ones.
      From the start, with two callers or more: the cluster is created, two callers see two
      changes, and they invalidate in the order opposite to the one in which they recorded
      them.  At the end every call has returned. */
  lemma OverlapLeavesStaleSettings(callers: nat, settings: Settings, older: Settings, newer: Settings)
    returns (run: seq<Action>, t: State)
    requires callers >= 2 && settings != older && older != newer
    ensures Exec(Start(callers, settings), run) == Some(t)
    ensures t.cluster.Some? && t.cacheSettings == newer && t.clusterSettings == older
    ensures forall c :: 0 <= c < |t.callers| ==> AtRest(t.callers[c])
  {
    var s := Start(callers, settings);
    run, t := SeeChange(callers, settings, older);
    run, t := Extend(s, run, t, Begin(1, newer));
    run, t := Extend(s, run, t, Advance(1));
    run, t := Extend(s, run, t, Advance(1));
    run, t := Extend(s, run, t, Advance(1));
    run, t := Extend(s, run, t, Advance(1));
    run, t := Extend(s, run, t, Advance(0));
    run, t := Extend(s, run, t, Advance(0));
  }

  /** Or the later change is lost altogether: the run goes through a state where it is the
      cached one, and nobody begins a call after that; still the older one is back in the end,
      both cached and with the cluster, because each caller records its change a second time
      before it pushes it. */
  lemma LaterChangeLost(callers: nat, settings: Settings, older: Settings, newer: Settings)
    returns (run: seq<Action>, m: State, rest: seq<Action>, t: State)
    requires callers >= 2 && settings != older && older != newer
    ensures Exec(Start(callers, settings), run) == Some(m) && Exec(m, rest) == Some(t)
    ensures m.cluster.Some? && m.cacheSettings == newer == m.clusterSettings && forall a | a in rest :: a.Advance?
    ensures t.cacheSettings == older == t.clusterSettings
    ensures forall c :: 0 <= c < |t.callers| ==> AtRest(t.callers[c])
  {
    run, m := LaterChangePushed(callers, settings, older, newer);
    rest, t := Extend(m, [], m, Advance(0));
    rest, t := Extend(m, rest, t, Advance(0));
    rest, t := Extend(m, rest, t, Advance(0));
  }

  lemma LaterChangePushed(callers: nat, settings: Settings, older: Settings, newer: Settings)
    returns (run: seq<Action>, t: State)
    requires callers >= 2 && settings != older && older != newer
    ensures Exec(Start(callers, settings), run) == Some(t)
    ensures t == State(Some(0), newer, newer, 1,
                       Start(callers, settings).callers[0 := Invalidating(older)][1 := Returned(0)])
  {
    var s := Start(callers, settings);
    run, t := CreateFirst(callers, settings);
    run, t := Extend(s, run, t, Begin(0, older));
    run, t := Extend(s, run, t, Advance(0));
    run, t := Extend(s, run, t, Begin(1, newer));
    run, t := Extend(s, run, t, Advance(1));
    run, t := Extend(s, run, t, Advance(1));
    run, t := Extend(s, run, t, Advance(1));
    run, t := Extend(s, run, t, Advance(1));
  }

  predicate LoadsOnly(run: seq<Action>, settings: Settings) {
    forall a | a in run && a.Begin? :: a.next == settings
  }

  /** Nobody is about to record or push anything but the settings already cached. */
  ghost predicate NothingNew(s: State) {
    forall c :: 0 <= c < |s.callers| ==>
      && !Invalidates(s.callers[c])
      && (s.callers[c].Comparing? ==> s.callers[c].next == s.cacheSettings)
  }

  /** Nor does anything repair it but another change: in every run, of any number of calls
      in any interleaving, that load the cached settings, both the cached settings and the
      cluster's stay what they are. */
  lemma {:induction false} StaleSettingsStay(s: State, run: seq<Action>, t: State)
    requires s.cluster.Some? && NothingNew(s) && Exec(s, run) == Some(t)
    requires LoadsOnly(run, s.cacheSettings)
    ensures t.cacheSettings == s.cacheSettings && t.clusterSettings == s.clusterSettings && t.cluster == s.cluster
    decreases |run|
  {
    if run != [] {
      assert run[0] in run && forall a | a in run[1..] :: a in run;
      StaleSettingsStay(Next(s, run[0]), run[1..], t);
    }
  }

  /** Both together: from the start, for any settings loaded at first and any two changes, an
      overlap leads to a state from which no run that loads the newer settings ever brings
      them to the cluster. */
  lemma OverlapIsForGood(callers: nat, settings: Settings, older: Settings, newer: Settings)
    returns (run: seq<Action>, t: State)
    requires callers >= 2 && settings != older && older != newer
    ensures Exec(Start(callers, settings), run) == Some(t)
    ensures forall more, u :: Exec(t, more) == Some(u) && LoadsOnly(more, newer)
              ==> u.cacheSettings == newer && u.clusterSettings == older
  {
    run, t := OverlapLeavesStaleSettings(callers, settings, older, newer);
    forall more, u | Exec(t, more) == Some(u) && LoadsOnly(more, newer)
      ensures u.cacheSettings == newer && u.clusterSettings == older
    {
      StaleSettingsStay(t, more, u);
    }
  }

  // ----- Every such disturbance does harm -----

  /** Some run ends with nobody in between and the cluster's settings not the cached ones. */
  ghost predicate CanDisagree(s: State) {
    exists run, t :: Exec(s, run) == Some(t) && Settled(t) && t.cluster.Some? && t.clusterSettings != t.cacheSettings
  }

  lemma CanDisagreeStep(s: State, a: Action)
    requires Enabled(s, a) && CanDisagree(Next(s, a))
    ensures CanDisagree(s)
  {
    var run, t :|
      Exec(Next(s, a), run) == Some(t) && Settled(t) && t.cluster.Some? && t.clusterSettings != t.cacheSettings;
    var longer := [a] + run;
    assert longer[0] == a && longer[1..] == run;
    assert Exec(s, longer) == Some(t);
  }

  lemma DisagreesNow(s: State)
    requires Settled(s) && s.cluster.Some? && s.clusterSettings != s.cacheSettings
    ensures CanDisagree(s)
  {
    assert Exec(s, []) == Some(s);
  }

  /** Nobody but the two is about to invalidate the cluster. */
  ghost predicate SettledBut(s: State, n: nat, c: nat, d: nat) {
    forall e :: 0 <= e < n && e < |s.callers| && e != c && e != d ==> !Invalidates(s.callers[e])
  }

  function StepsToSettle(s: State, n: nat): nat {
    if n >= |s.callers| then 0
    else if s.callers[n].Invalidating? then 2
    else if s.callers[n].Pushing? then 1
    else 0
  }

  /** What one push leaves is undone by a push of an older change, once the others are done. */
  lemma {:induction false} LatePush(s: State, n: nat, c: nat, d: nat, x: Settings, y: Settings)
    requires s.cluster.Some? && c < |s.callers| && d < |s.callers| && c != d && x != y && n <= |s.callers|
    requires s.callers[c] == Pushing(x, s.cluster) && s.callers[d] == Invalidating(y)
    requires SettledBut(s, n, c, d)
    ensures CanDisagree(s)
    decreases |s.callers| - n, StepsToSettle(s, n)
  {
    if n == |s.callers| {
      PushTwice(s, c, d, x, y);
    } else if n == c || n == d || !Invalidates(s.callers[n]) {
      LatePush(s, n + 1, c, d, x, y);
    } else {
      LatePush(Next(s, Advance(n)), n, c, d, x, y);
      CanDisagreeStep(s, Advance(n));
    }
  }

  lemma PushTwice(s: State, c: nat, d: nat, x: Settings, y: Settings)
    requires s.cluster.Some? && c < |s.callers| && d < |s.callers| && c != d && x != y
    requires s.callers[c] == Pushing(x, s.cluster) && s.callers[d] == Invalidating(y)
    requires SettledBut(s, |s.callers|, c, d)
    ensures CanDisagree(s)
  {
    var s1 := Next(s, Advance(d));
    var s2 := Next(s1, Advance(d));
    var s3 := Next(s2, Advance(c));
    assert Settled(s3) by {
      forall e | 0 <= e < |s3.callers| ensures !Invalidates(s3.callers[e]) {
        assert e != c && e != d ==> s3.callers[e] == s.callers[e];
      }
    }
    DisagreesNow(s3);
    CanDisagreeStep(s2, Advance(c));
    CanDisagreeStep(s1, Advance(d));
    CanDisagreeStep(s, Advance(d));
  }

  /** The caller has recorded x and will still push it to a cluster. */
  predicate WillPush(caller: Caller, x: Settings) {
    caller == Invalidating(x) || (caller.Pushing? && caller.next == x && caller.seen.Some?)
  }

  /** With a cluster: whenever a call is about to record a change while another still has a
      different one to push, some run leaves the cluster's settings behind. */
  lemma RecordDuringPush(callers: nat, settings: Settings, run: seq<Action>, s: State, c: nat, d: nat, x: Settings)
    requires Exec(Start(callers, settings), run) == Some(s) && s.cluster.Some?
    requires c < |s.callers| && d < |s.callers| && WillPush(s.callers[c], x)
    requires Enabled(s, Advance(d)) && Records(s, Advance(d)) && s.callers[d].next != x
    ensures CanDisagree(s)
  {
    RunKeepsInv(Start(callers, settings), run, s);
    var y := s.callers[d].next;
    if s.callers[c].Invalidating? {
      var s1 := Next(s, Advance(c));
      LatePush(Next(s1, Advance(d)), 0, c, d, x, y);
      CanDisagreeStep(s1, Advance(d));
      CanDisagreeStep(s, Advance(c));
    } else {
      LatePush(Next(s, Advance(d)), 0, c, d, x, y);
      CanDisagreeStep(s, Advance(d));
    }
  }

  /** Before there is a cluster: the same for a call that is about to create it with other
      settings; the call that recorded the change then panics. */
  lemma RecordDuringCreate(callers: nat, settings: Settings, run: seq<Action>, s: State, c: nat, d: nat)
    requires Exec(Start(callers, settings), run) == Some(s) && s.cluster.None?
    requires c < |s.callers| && d < |s.callers| && s.callers[c].Creating?
    requires Enabled(s, Advance(d)) && Records(s, Advance(d)) && s.callers[d].next != s.callers[c].settings
    ensures CanDisagree(s)
  {
    RunKeepsInv(Start(callers, settings), run, s);
    LateCreate(Next(s, Advance(d)), 0, c, d);
    CanDisagreeStep(s, Advance(d));
  }

  lemma {:induction false} LateCreate(s: State, n: nat, c: nat, d: nat)
    requires s.cluster.None? && c < |s.callers| && d < |s.callers| && n <= |s.callers|
    requires s.callers[c].Creating? && s.callers[d].Invalidating? && s.callers[d].next != s.callers[c].settings
    requires SettledBut(s, n, c, d)
    requires forall e :: 0 <= e < |s.callers| && s.callers[e].Pushing? ==> s.callers[e].seen.None?
    ensures CanDisagree(s)
    decreases |s.callers| - n, StepsToSettle(s, n)
  {
    if n == |s.callers| {
      CreateThenPanic(s, c, d);
    } else if n == c || n == d || !Invalidates(s.callers[n]) {
      LateCreate(s, n + 1, c, d);
    } else {
      LateCreate(Next(s, Advance(n)), n, c, d);
      CanDisagreeStep(s, Advance(n));
    }
  }

  lemma CreateThenPanic(s: State, c: nat, d: nat)
    requires s.cluster.None? && c < |s.callers| && d < |s.callers|
    requires s.callers[c].Creating? && s.callers[d].Invalidating? && s.callers[d].next != s.callers[c].settings
    requires SettledBut(s, |s.callers|, c, d)
    ensures CanDisagree(s)
  {
    var s1 := Next(s, Advance(d));
    var s2 := Next(s1, Advance(c));
    var s3 := Next(s2, Advance(d));
    assert Settled(s3) by {
      forall e | 0 <= e < |s3.callers| ensures !Invalidates(s3.callers[e]) {
        assert e != c && e != d ==> s3.callers[e] == s.callers[e];
      }
    }
    DisagreesNow(s3);
    CanDisagreeStep(s2, Advance(d));
    CanDisagreeStep(s1, Advance(c));
    CanDisagreeStep(s, Advance(d));
  }
}
