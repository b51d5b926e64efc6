/** A GitSync's life against an API server with optimistic concurrency: reconcilers and
    workers each read a copy and write parts of it back, in any interleaving. */
module Lifecycle {
  import opened Text
  import opened Conditions
  import opened Cascade

  const FINALIZER := "numaplane-controller"

  /** `valid` is the outcome of the reconciler's validation of the rest of the spec. */
  datatype Spec = Spec(cluster: string, valid: bool, body: string)

  datatype GitSync = GitSync(
    uid: nat, version: nat, deleting: bool, finalizers: seq<string>, spec: Spec, status: Status)

  function WithFinalizer(fs: seq<string>): seq<string> {
    if FINALIZER in fs then fs else fs + [FINALIZER]
  }

  function WithoutFinalizer(fs: seq<string>): (r: seq<string>)
    ensures forall f :: f in r <==> f in fs && f != FINALIZER
  {
    if fs == [] then []
    else (if fs[0] != FINALIZER then [fs[0]] else []) + WithoutFinalizer(fs[1..])
  }

  lemma {:induction false} WithoutConcat(fs: seq<string>, gs: seq<string>)
    ensures WithoutFinalizer(fs + gs) == WithoutFinalizer(fs) + WithoutFinalizer(gs)
  {
    if fs == [] {
      assert fs + gs == gs;
    } else {
      AppendTail(fs, gs);
      WithoutConcat(fs[1..], gs);
    }
  }

  lemma {:induction false} WithoutNothing(fs: seq<string>)
    requires FINALIZER !in fs
    ensures WithoutFinalizer(fs) == fs
  {
    if fs != [] {
      WithoutNothing(fs[1..]);
      assert fs == [fs[0]] + fs[1..];
    }
  }

  /** Adding the finalizer adds it once and behind the others; it is there afterwards, adding
      it again changes nothing, and removing it leaves the others as removing it at once
      would: as they were, in their order, if it was not there. */
  lemma FinalizerRoundTrip(fs: seq<string>)
    ensures FINALIZER in WithFinalizer(fs) && WithFinalizer(WithFinalizer(fs)) == WithFinalizer(fs)
    ensures multiset(WithFinalizer(fs))[FINALIZER] == if FINALIZER in fs then multiset(fs)[FINALIZER] else 1
    ensures WithoutFinalizer(WithFinalizer(fs)) == WithoutFinalizer(fs)
    ensures FINALIZER !in fs ==> WithoutFinalizer(WithFinalizer(fs)) == fs
  {
    if FINALIZER !in fs {
      WithoutConcat(fs, [FINALIZER]);
      assert [FINALIZER][1..] == [] && WithoutFinalizer([FINALIZER]) == [];
      WithoutNothing(fs);
      assert fs + [] == fs;
    }
  }

  // ----- The API server, for one name -----

  datatype Server = Server(stored: Option<GitSync>, clock: nat)

  datatype Reply = Written(result: GitSync) | NotFound | Conflict

  /** A write that changes nothing does not make a new version. */
  function Put(sv: Server, g: GitSync): (Server, Reply) {
    if sv.stored == Some(g) then (sv, Written(g))
    else
      var g' := g.(version := sv.clock + 1);
      (Server(Some(g'), sv.clock + 1), Written(g'))
  }

  predicate Matches(sv: Server, g: GitSync) {
    sv.stored.Some? && sv.stored.value.uid == g.uid && sv.stored.value.version == g.version
  }

  /** Update: metadata and spec from the caller, status from the store.  An object that is
      being deleted vanishes when its finalizers are gone. */
  function Update(sv: Server, g: GitSync): (Server, Reply) {
    if sv.stored.None? then (sv, NotFound)
    else if !Matches(sv, g) then (sv, Conflict)
    else
      var updated := sv.stored.value.(finalizers := g.finalizers, spec := g.spec);
      if updated.deleting && updated.finalizers == [] then (Server(None, sv.clock + 1), Written(updated))
      else Put(sv, updated)
  }

  /** Status update: the whole status from the caller, everything else from the store. */
  function UpdateStatus(sv: Server, g: GitSync): (Server, Reply) {
    if sv.stored.None? then (sv, NotFound)
    else if !Matches(sv, g) then (sv, Conflict)
    else Put(sv, sv.stored.value.(status := g.status))
  }

  // ----- Reconcile -----

  datatype Config = Config(clusterName: string, name: string, hasSyncer: bool)

  const CLUSTER_MISMATCH := "ClusterMismatch"
  const NO_DESTINATION := "This cluster isn't a destination"
  const MISMATCH := MarkNotApplicable(CLUSTER_MISMATCH, NO_DESTINATION)

  datatype Decision = Abort | Proceed(next: GitSync)

  /** InitConditions followed by reconcile, on a copy. */
  function Reconciled(config: Config, g: GitSync, processedOk: bool, first: int, now: int): Decision {
    var st := Apply(g.status, Init, first);
    if g.spec.cluster != config.clusterName then
      Proceed(g.(status := Apply(st, MISMATCH, now)))
    else if g.deleting then
      if config.hasSyncer && !processedOk then Abort
      else Proceed(g.(status := st, finalizers := WithoutFinalizer(g.finalizers)))
    else if !g.spec.valid then Abort
    else Proceed(g.(status := Apply(st, MarkRunning, now), finalizers := WithFinalizer(g.finalizers)))
  }

  predicate Processes(config: Config, g: GitSync) {
    g.spec.cluster == config.clusterName && g.deleting && config.hasSyncer
  }

  // ----- The system -----

  datatype Reconciler =
    | Resting
    | Read(orig: GitSync)
    | WritesSpec(orig: GitSync, next: GitSync)
    | WritesStatus(next: GitSync)

  /** A worker inside updateCommitStatus, between its Get and its status update. */
  datatype Worker = Away | Recording(copy: GitSync, commit: CommitStatus)

  /** What Reconcile owns in a status. */
  datatype Verdict = Verdict(phase: Phase, message: string, conditions: seq<Condition>)

  function VerdictOf(st: Status): Verdict {
    Verdict(st.phase, st.message, st.conditions)
  }

  const BLANK := Status(Unset, "", [], None)

  datatype Sweep = Sweep(before: Cluster, setting: Setting, after: Cluster)

  datatype State = State(
    server: Server,
    cluster: Cluster,
    reconcilers: seq<Reconciler>,
    workers: seq<Worker>,
    /** History: every version ever stored; the last commit status a worker stored; the
        last verdict Reconcile stored; the objects whose finalizer Reconcile stored; the
        successful deletion processing of each object; the objects that vanished. */
    versions: set<GitSync>,
    lastCommit: Option<CommitStatus>,
    lastVerdict: Verdict,
    guarded: set<nat>,
    swept: map<nat, Sweep>,
    vanished: set<nat>)

  datatype Action =
    | Create(spec: Spec, finalizers: seq<string>)
    | Edit(spec: Spec, finalizers: seq<string>)
    | Delete
    | ClusterChanges(cluster: Cluster)
    | Get(r: nat, copy: GitSync)
    | Decide(r: nat, setting: Setting, after: Cluster, processedOk: bool, first: int, now: int)
    | PushSpec(r: nat, lost: bool)
    | PushStatus(r: nat)
    | GiveUp(r: nat)
    | GetForCommit(w: nat, copy: GitSync, commit: CommitStatus)
    | PushCommit(w: nat)
    | GiveUpCommit(w: nat)

  function Start(reconcilers: nat, workers: nat, cluster: Cluster): State {
    State(Server(None, 0), cluster, seq(reconcilers, _ => Resting), seq(workers, _ => Away),
          {}, None, VerdictOf(BLANK), {}, map[], {})
  }

  /** The environment may do anything an API server allows, except take away the
      controller's finalizer.  A Get may return any version stored so far, since reads may
      be served from a cache. */
  ghost predicate Enabled(config: Config, s: State, a: Action) {
    match a
    case Create(_, _) => s.server.stored.None?
    case Edit(_, finalizers) =>
      s.server.stored.Some? && (FINALIZER in s.server.stored.value.finalizers ==> FINALIZER in finalizers)
    case Delete => s.server.stored.Some?
    case ClusterChanges(_) => true
    case Get(r, copy) => r < |s.reconcilers| && s.reconcilers[r].Resting? && copy in s.versions
    case Decide(r, setting, after, processedOk, _, _) =>
      && r < |s.reconcilers| && s.reconcilers[r].Read?
      && (if Processes(config, s.reconcilers[r].orig)
          then Processed(s.cluster, config.name, setting, after, processedOk)
          else after == s.cluster)
    case PushSpec(r, _) => r < |s.reconcilers| && s.reconcilers[r].WritesSpec?
    case PushStatus(r) => r < |s.reconcilers| && s.reconcilers[r].WritesStatus?
    case GiveUp(r) => r < |s.reconcilers|
    case GetForCommit(w, copy, _) => w < |s.workers| && s.workers[w].Away? && copy in s.versions
    case PushCommit(w) => w < |s.workers| && s.workers[w].Recording?
    case GiveUpCommit(w) => w < |s.workers|
  }

  /** The server's new state, with the history it makes. */
  function Served(s: State, sv: Server): State {
    var gone := s.server.stored.Some? && sv.stored.None?;
    s.(server := sv,
       versions := s.versions + (if sv.stored.Some? then {sv.stored.value} else {}),
       vanished := s.vanished + if gone then {s.server.stored.value.uid} else {})
  }

  function AfterDecision(g: GitSync, d: Decision): Reconciler {
    if d.Abort? then Resting
    else if d.next.finalizers != g.finalizers then WritesSpec(g, d.next)
    else if d.next.deleting then Resting
    else WritesStatus(d.next)
  }

  ghost function Next(config: Config, s: State, a: Action): State
    requires Enabled(config, s, a)
  {
    match a
    case Create(spec, finalizers) =>
      var g := GitSync(s.server.clock + 1, s.server.clock + 1, false, finalizers, spec, BLANK);
      Served(s, Server(Some(g), s.server.clock + 1)).(lastCommit := None, lastVerdict := VerdictOf(BLANK))
    case Edit(spec, finalizers) =>
      Served(s, Update(s.server, s.server.stored.value.(spec := spec, finalizers := finalizers)).0)
    case Delete =>
      var g := s.server.stored.value;
      if g.finalizers == [] then Served(s, Server(None, s.server.clock + 1))
      else Served(s, Put(s.server, g.(deleting := true)).0)
    case ClusterChanges(cluster) => s.(cluster := cluster)
    case Get(r, copy) => s.(reconcilers := s.reconcilers[r := Read(copy)])
    case Decide(r, setting, after, processedOk, first, now) =>
      var g := s.reconcilers[r].orig;
      var d := Reconciled(config, g, processedOk, first, now);
      s.(cluster := after,
         reconcilers := s.reconcilers[r := AfterDecision(g, d)],
         swept := if Processes(config, g) && processedOk then s.swept[g.uid := Sweep(s.cluster, setting, after)]
                  else s.swept)
    case PushSpec(r, lost) =>
      var next := s.reconcilers[r].next;
      var (sv, reply) := Update(s.server, next);
      var pc := if lost || !reply.Written? || reply.result.deleting then Resting
                else WritesStatus(reply.result.(status := next.status));
      Served(s, sv).(
        reconcilers := s.reconcilers[r := pc],
        guarded := if reply.Written? && FINALIZER in next.finalizers then s.guarded + {next.uid} else s.guarded)
    case PushStatus(r) =>
      var next := s.reconcilers[r].next;
      var (sv, reply) := UpdateStatus(s.server, next);
      Served(s, sv).(
        reconcilers := s.reconcilers[r := Resting],
        lastVerdict := if reply.Written? then VerdictOf(next.status) else s.lastVerdict)
    case GiveUp(r) => s.(reconcilers := s.reconcilers[r := Resting])
    case GetForCommit(w, copy, commit) =>
      s.(workers := s.workers[w := if SameContent(copy.status.commit, commit) then Away else Recording(copy, commit)])
    case PushCommit(w) =>
      var Recording(copy, commit) := s.workers[w];
      var (sv, reply) := UpdateStatus(s.server, copy.(status := copy.status.(commit := Some(commit))));
      Served(s, sv).(
        workers := s.workers[w := Away],
        lastCommit := if reply.Written? then Some(commit) else s.lastCommit)
    case GiveUpCommit(w) => s.(workers := s.workers[w := Away])
  }

  ghost function Exec(config: Config, s: State, run: seq<Action>): Option<State>
    decreases |run|
  {
    if run == [] then Some(s)
    else if Enabled(config, s, run[0]) then Exec(config, Next(config, s, run[0]), run[1..])
    else None
  }

  ghost predicate Reachable(config: Config, s: State) {
    exists reconcilers: nat, workers: nat, cluster, run ::
      Exec(config, Start(reconcilers, workers, cluster), run) == Some(s)
  }

  // ----- What every step keeps -----

  /** Versions identify what was stored, and the server holds one of them. */
  ghost predicate VersionsOk(s: State) {
    && (forall v :: v in s.versions ==> v.version <= s.server.clock && v.uid <= s.server.clock)
    && (forall v, w :: v in s.versions && w in s.versions && v.version == w.version ==> v == w)
    && (s.server.stored.Some? ==> s.server.stored.value in s.versions)
  }

  /** What a reconciler is about to write differs from the version it was computed from only
      in what Reconcile owns, and drops the finalizer only after deletion processing. */
  ghost predicate ReconcilerOk(config: Config, s: State, pc: Reconciler) {
    match pc
    case Resting => true
    case Read(orig) => orig in s.versions
    case WritesSpec(orig, next) =>
      && orig in s.versions
      && next.version == orig.version && next.uid == orig.uid && next.deleting == orig.deleting
      && next.status.commit == orig.status.commit
      && next.spec == orig.spec
      && (FINALIZER in orig.finalizers && FINALIZER !in next.finalizers ==>
            orig.spec.cluster == config.clusterName && (config.hasSyncer ==> orig.uid in s.swept))
      && (!next.deleting ==> VerdictGood(next.status))
      && (next.status.phase == Running ==> FINALIZER in next.finalizers)
    case WritesStatus(next) =>
      && (exists v :: v in s.versions && v.version == next.version
            && v.status.commit == next.status.commit && v.finalizers == next.finalizers)
      && VerdictGood(next.status)
      && (next.status.phase == Running ==> FINALIZER in next.finalizers)
  }

  ghost predicate WorkerOk(s: State, pc: Worker) {
    pc.Recording? ==> pc.copy in s.versions
  }

  /** What Reconcile ever stores: ordered conditions that agree with the phase, and a phase
      of Running or NotApplicable. */
  ghost predicate VerdictGood(st: Status) {
    Ordered(st.conditions) && (Agrees(st) && (st.phase == Running || st.phase == NotApplicable))
  }

  ghost predicate StatusGood(st: Status) {
    VerdictOf(st) == VerdictOf(BLANK) || VerdictGood(st)
  }

  /** The stored status is made of the last commit status a worker stored and the last
      verdict Reconcile stored. */
  ghost predicate StatusOk(s: State) {
    && (forall v :: v in s.versions ==> StatusGood(v.status))
    && (s.server.stored.Some? ==>
          && s.server.stored.value.status.commit == s.lastCommit
          && VerdictOf(s.server.stored.value.status) == s.lastVerdict)
  }

  /** An object whose finalizer Reconcile stored, or that shows as Running, still has the
      finalizer, or was processed. */
  ghost predicate Guarded(s: State, g: GitSync) {
    (g.uid in s.guarded || g.status.phase == Running) && FINALIZER !in g.finalizers ==> g.uid in s.swept
  }

  ghost predicate GuardsOk(s: State) {
    && (s.server.stored.Some? ==> Guarded(s, s.server.stored.value))
    && (forall u :: u in s.vanished && u in s.guarded ==> u in s.swept)
  }

  /** The history speaks of objects that existed, and of the stored one as not vanished. */
  ghost predicate UidsOk(s: State) {
    && (forall u :: u in s.guarded ==> u <= s.server.clock)
    && (forall u :: u in s.swept ==> u <= s.server.clock)
    && (forall u :: u in s.vanished ==> u <= s.server.clock)
    && (s.server.stored.Some? ==> s.server.stored.value.uid !in s.vanished)
  }

  ghost predicate SweepsOk(config: Config, s: State) {
    forall u :: u in s.swept ==>
      Processed(s.swept[u].before, config.name, s.swept[u].setting, s.swept[u].after, true)
  }

  ghost predicate Inv(config: Config, s: State) {
    && VersionsOk(s) && StatusOk(s) && UidsOk(s) && SweepsOk(config, s)
    && (config.hasSyncer ==> GuardsOk(s))
    && (forall r :: 0 <= r < |s.reconcilers| ==> ReconcilerOk(config, s, s.reconcilers[r]))
    && (forall w :: 0 <= w < |s.workers| ==> WorkerOk(s, s.workers[w]))
  }

  /** What a request can do to the server: nothing, or one new version, or a removal. */
  ghost predicate Advances(sv: Server, sv': Server) {
    || sv' == sv
    || (sv'.clock == sv.clock + 1
        && (sv'.stored.Some? ==> sv'.stored.value.version == sv'.clock && sv'.stored.value.uid <= sv'.clock))
  }

  lemma ServedKeepsVersions(s: State, sv: Server)
    requires VersionsOk(s) && Advances(s.server, sv)
    ensures VersionsOk(Served(s, sv)) && s.versions <= Served(s, sv).versions
  {
  }

  lemma UpdatesAdvance(sv: Server, g: GitSync)
    requires sv.stored.Some? ==> sv.stored.value.uid <= sv.clock
    ensures Advances(sv, Update(sv, g).0) && Advances(sv, UpdateStatus(sv, g).0)
  {
  }

  /** The history of a step follows the server; only a decision records deletion
      processing, and only a write of the spec records a stored finalizer. */
  lemma StepRecords(config: Config, s: State, a: Action)
    requires VersionsOk(s) && Enabled(config, s, a)
    ensures Next(config, s, a).versions == Served(s, Next(config, s, a).server).versions
    ensures Next(config, s, a).vanished == Served(s, Next(config, s, a).server).vanished
    ensures s.swept.Keys <= Next(config, s, a).swept.Keys
    ensures !a.Decide? ==> Next(config, s, a).swept == s.swept
    ensures !a.PushSpec? ==> Next(config, s, a).guarded == s.guarded
  {
  }

  lemma StepAdvances(config: Config, s: State, a: Action)
    requires VersionsOk(s) && Enabled(config, s, a)
    ensures Advances(s.server, Next(config, s, a).server)
  {
    match a
    case Create(_, _) =>
    case Edit(spec, finalizers) =>
      UpdatesAdvance(s.server, s.server.stored.value.(spec := spec, finalizers := finalizers));
    case Delete =>
    case PushSpec(r, _) => UpdatesAdvance(s.server, s.reconcilers[r].next);
    case PushStatus(r) => UpdatesAdvance(s.server, s.reconcilers[r].next);
    case PushCommit(w) =>
      var Recording(copy, commit) := s.workers[w];
      UpdatesAdvance(s.server, copy.(status := copy.status.(commit := Some(commit))));
    case _ =>
  }

  lemma VersionsStep(config: Config, s: State, a: Action)
    requires VersionsOk(s) && Enabled(config, s, a)
    ensures VersionsOk(Next(config, s, a)) && s.versions <= Next(config, s, a).versions
  {
    StepAdvances(config, s, a);
    StepRecords(config, s, a);
    ServedKeepsVersions(s, Next(config, s, a).server);
  }

  lemma VerdictGoodDepends(a: Status, b: Status)
    requires VerdictOf(a) == VerdictOf(b) && VerdictGood(a)
    ensures VerdictGood(b)
  {
  }

  /** When a reconciliation aborts, and what it does to the finalizers: those of a GitSync of
      another cluster stay as they are, and otherwise only the controller's own changes,
      which is there until deletion. */
  lemma DecisionOnFinalizers(config: Config, g: GitSync, processedOk: bool, first: int, now: int)
    ensures var d, here := Reconciled(config, g, processedOk, first, now), g.spec.cluster == config.clusterName;
      && (d.Abort? <==> here && if g.deleting then config.hasSyncer && !processedOk else !g.spec.valid)
      && (d.Proceed? ==>
            && (forall f :: f != FINALIZER ==> (f in d.next.finalizers <==> f in g.finalizers))
            && (if here then FINALIZER in d.next.finalizers <==> !g.deleting else d.next.finalizers == g.finalizers))
  {
  }

  /** The decision keeps what a reconciler does not own, and produces a good verdict. */
  lemma DecisionOk(config: Config, g: GitSync, processedOk: bool, first: int, now: int)
    requires StatusGood(g.status)
    ensures var d, here := Reconciled(config, g, processedOk, first, now), g.spec.cluster == config.clusterName;
      d.Proceed? ==>
        && d.next.version == g.version && d.next.uid == g.uid && d.next.deleting == g.deleting
        && d.next.status.commit == g.status.commit && d.next.spec == g.spec
        && (!g.deleting || !here ==> VerdictGood(d.next.status))
        && d.next.status.phase == if !here then NotApplicable else if g.deleting then Pending else Running
  {
    VerdictIsGood(g.status, MISMATCH, first, now);
    VerdictIsGood(g.status, MarkRunning, first, now);
  }

  lemma VerdictIsGood(st: Status, op: Op, first: int, now: int)
    requires StatusGood(st) && (op.MarkRunning? || op.MarkNotApplicable?)
    ensures Apply(st, Init, first).commit == st.commit && Apply(st, Init, first).phase == Pending
    ensures var r := Apply(Apply(st, Init, first), op, now);
      r.commit == st.commit && VerdictGood(r) && r.phase == if op.MarkRunning? then Running else NotApplicable
  {
    ApplyAgrees(st, Init, first);
    OperationIsGood(Apply(st, Init, first), op, now);
  }

  lemma OperationIsGood(st: Status, op: Op, now: int)
    requires Ordered(st.conditions) && (op.MarkRunning? || op.MarkNotApplicable?)
    ensures var r := Apply(st, op, now);
      r.commit == st.commit && VerdictGood(r) && r.phase == if op.MarkRunning? then Running else NotApplicable
  {
    ApplyAgrees(st, op, now);
  }

  lemma ReconcilerOkMonotone(config: Config, s: State, t: State, pc: Reconciler)
    requires s.versions <= t.versions && s.swept.Keys <= t.swept.Keys
    requires ReconcilerOk(config, s, pc)
    ensures ReconcilerOk(config, t, pc)
  {
  }

  lemma DecideStep(config: Config, s: State, a: Action)
    requires Inv(config, s) && a.Decide? && Enabled(config, s, a)
    ensures ReconcilerOk(config, Next(config, s, a), Next(config, s, a).reconcilers[a.r])
  {
    var g := s.reconcilers[a.r].orig;
    assert ReconcilerOk(config, s, s.reconcilers[a.r]);
    DecisionOk(config, g, a.processedOk, a.first, a.now);
    DecisionOnFinalizers(config, g, a.processedOk, a.first, a.now);
  }

  lemma PushSpecStep(config: Config, s: State, a: Action)
    requires Inv(config, s) && a.PushSpec? && Enabled(config, s, a)
    ensures ReconcilerOk(config, Next(config, s, a), Next(config, s, a).reconcilers[a.r])
  {
    assert ReconcilerOk(config, s, s.reconcilers[a.r]);
    var next := s.reconcilers[a.r].next;
    var (sv, reply) := Update(s.server, next);
    if reply.Written? && !reply.result.deleting {
      assert s.server.stored.value == s.reconcilers[a.r].orig;
      assert reply.result in Next(config, s, a).versions;
    }
  }

  lemma ProcessesStep(config: Config, s: State, a: Action)
    requires Inv(config, s) && Enabled(config, s, a)
    ensures forall r :: 0 <= r < |s.reconcilers| ==>
              ReconcilerOk(config, Next(config, s, a), Next(config, s, a).reconcilers[r])
    ensures forall w :: 0 <= w < |s.workers| ==> WorkerOk(Next(config, s, a), Next(config, s, a).workers[w])
  {
    var t := Next(config, s, a);
    VersionsStep(config, s, a);
    StepRecords(config, s, a);
    forall r | 0 <= r < |s.reconcilers| ensures ReconcilerOk(config, t, t.reconcilers[r]) {
      ReconcilerOkMonotone(config, s, t, s.reconcilers[r]);
      if a.Decide? && a.r == r {
        DecideStep(config, s, a);
      } else if a.PushSpec? && a.r == r {
        PushSpecStep(config, s, a);
      }
    }
  }

  lemma PushStatusStep(config: Config, s: State, a: Action)
    requires Inv(config, s) && a.PushStatus? && Enabled(config, s, a)
    ensures StatusOk(Next(config, s, a))
  {
    assert ReconcilerOk(config, s, s.reconcilers[a.r]);
    var next := s.reconcilers[a.r].next;
    if Matches(s.server, next) {
      assert s.server.stored.value.status.commit == next.status.commit;
      VerdictGoodDepends(next.status, s.server.stored.value.(status := next.status).status);
    }
  }

  lemma StatusGoodWithCommit(st: Status, commit: CommitStatus)
    requires StatusGood(st)
    ensures StatusGood(st.(commit := Some(commit)))
  {
    if VerdictGood(st) {
      VerdictGoodDepends(st, st.(commit := Some(commit)));
    }
  }

  lemma PushCommitStep(config: Config, s: State, a: Action)
    requires Inv(config, s) && a.PushCommit? && Enabled(config, s, a)
    ensures StatusOk(Next(config, s, a))
  {
    assert WorkerOk(s, s.workers[a.w]);
    var Recording(copy, commit) := s.workers[a.w];
    StatusGoodWithCommit(copy.status, commit);
    assert Matches(s.server, copy) ==> s.server.stored.value == copy;
  }

  lemma StatusStep(config: Config, s: State, a: Action)
    requires Inv(config, s) && Enabled(config, s, a)
    ensures StatusOk(Next(config, s, a))
  {
    if a.PushStatus? {
      PushStatusStep(config, s, a);
    } else if a.PushCommit? {
      PushCommitStep(config, s, a);
    } else if a.Edit? || a.PushSpec? {
      UpdateKeepsStatus(s.server, if a.Edit? then s.server.stored.value.(spec := a.spec, finalizers := a.finalizers)
                                  else s.reconcilers[a.r].next);
    } else {
      StepRecords(config, s, a);
    }
  }

  lemma UpdateKeepsStatus(sv: Server, g: GitSync)
    ensures var sv' := Update(sv, g).0;
      sv'.stored.Some? ==> sv.stored.Some? && sv'.stored.value.status == sv.stored.value.status
  {
  }

  // The parts of the invariant about deletion, step by step.

  lemma DecideHistory(config: Config, s: State, a: Action)
    requires Inv(config, s) && a.Decide? && Enabled(config, s, a)
    ensures UidsOk(Next(config, s, a)) && SweepsOk(config, Next(config, s, a))
    ensures s.swept.Keys <= Next(config, s, a).swept.Keys
  {
    assert ReconcilerOk(config, s, s.reconcilers[a.r]);
  }

  lemma PushSpecHistory(config: Config, s: State, a: Action)
    requires Inv(config, s) && a.PushSpec? && Enabled(config, s, a)
    ensures Next(config, s, a).guarded <= s.guarded + {s.reconcilers[a.r].next.uid}
    ensures s.reconcilers[a.r].next.uid <= s.server.clock
  {
    assert ReconcilerOk(config, s, s.reconcilers[a.r]);
  }

  /** An object keeps its identity; a new one gets an identity of its own. */
  lemma StoredUid(config: Config, s: State, a: Action)
    requires VersionsOk(s) && Enabled(config, s, a) && Next(config, s, a).server.stored.Some?
    ensures var u := Next(config, s, a).server.stored.value.uid;
      if s.server.stored.Some? then u == s.server.stored.value.uid else a.Create? && u == s.server.clock + 1
  {
  }

  lemma HistoryStep(config: Config, s: State, a: Action)
    requires Inv(config, s) && Enabled(config, s, a)
    ensures UidsOk(Next(config, s, a)) && SweepsOk(config, Next(config, s, a))
    ensures s.swept.Keys <= Next(config, s, a).swept.Keys
  {
    if a.Decide? {
      DecideHistory(config, s, a);
    } else {
      StepAdvances(config, s, a);
      StepRecords(config, s, a);
      if a.PushSpec? {
        PushSpecHistory(config, s, a);
      }
      if Next(config, s, a).server.stored.Some? {
        StoredUid(config, s, a);
      }
    }
  }

  lemma EnvironmentGuards(config: Config, s: State, a: Action)
    requires Inv(config, s) && config.hasSyncer && Enabled(config, s, a)
    requires a.Create? || a.Edit? || a.Delete?
    ensures GuardsOk(Next(config, s, a))
  {
  }

  lemma PushSpecGuards(config: Config, s: State, a: Action)
    requires Inv(config, s) && config.hasSyncer && a.PushSpec? && Enabled(config, s, a)
    ensures GuardsOk(Next(config, s, a))
  {
    assert ReconcilerOk(config, s, s.reconcilers[a.r]);
    var next, t := s.reconcilers[a.r].next, Next(config, s, a);
    if Matches(s.server, next) {
      assert s.server.stored.value == s.reconcilers[a.r].orig;
    } else {
      assert t.server == s.server && t.guarded == s.guarded && t.swept == s.swept && t.vanished == s.vanished;
    }
  }

  lemma PushStatusGuards(config: Config, s: State, a: Action)
    requires Inv(config, s) && config.hasSyncer && a.PushStatus? && Enabled(config, s, a)
    ensures GuardsOk(Next(config, s, a))
  {
    assert ReconcilerOk(config, s, s.reconcilers[a.r]);
  }

  lemma PushCommitGuards(config: Config, s: State, a: Action)
    requires Inv(config, s) && config.hasSyncer && a.PushCommit? && Enabled(config, s, a)
    ensures GuardsOk(Next(config, s, a))
  {
    assert WorkerOk(s, s.workers[a.w]);
  }

  lemma GuardsStep(config: Config, s: State, a: Action)
    requires Inv(config, s) && config.hasSyncer && Enabled(config, s, a)
    ensures GuardsOk(Next(config, s, a))
  {
    match a
    case Create(_, _) => EnvironmentGuards(config, s, a);
    case Edit(_, _) => EnvironmentGuards(config, s, a);
    case Delete => EnvironmentGuards(config, s, a);
    case PushSpec(_, _) => PushSpecGuards(config, s, a);
    case PushStatus(_) => PushStatusGuards(config, s, a);
    case PushCommit(_) => PushCommitGuards(config, s, a);
    case Decide(_, _, _, _, _, _) => DecideHistory(config, s, a);
    case _ =>
  }

  lemma StepKeepsInv(config: Config, s: State, a: Action)
    requires Inv(config, s) && Enabled(config, s, a)
    ensures Inv(config, Next(config, s, a))
  {
    VersionsStep(config, s, a);
    ProcessesStep(config, s, a);
    StatusStep(config, s, a);
    HistoryStep(config, s, a);
    if config.hasSyncer {
      GuardsStep(config, s, a);
    }
    assert |Next(config, s, a).reconcilers| == |s.reconcilers| && |Next(config, s, a).workers| == |s.workers|;
  }

  lemma {:induction false} RunKeepsInv(config: Config, s: State, run: seq<Action>, t: State)
    requires Inv(config, s) && Exec(config, s, run) == Some(t)
    ensures Inv(config, t)
    decreases |run|
  {
    if run != [] {
      var a, s' := run[0], Next(config, s, run[0]);
      StepKeepsInv(config, s, a);
      RunKeepsInv(config, s', run[1..], t);
    }
  }

  lemma ReachableInv(config: Config, s: State)
    requires Reachable(config, s)
    ensures Inv(config, s)
  {
    var reconcilers: nat, workers: nat, cluster, run :|
      Exec(config, Start(reconcilers, workers, cluster), run) == Some(s);
    RunKeepsInv(config, Start(reconcilers, workers, cluster), run, s);
  }

  // ----- Results -----

  /** No lost status update: over every interleaving, the stored commit status is the last
      one a worker successfully wrote, and the stored phase, message and conditions are the
      last ones Reconcile successfully wrote. */
  lemma NoLostStatusUpdate(config: Config, s: State)
    requires Reachable(config, s) && s.server.stored.Some?
    ensures s.server.stored.value.status.commit == s.lastCommit
    ensures VerdictOf(s.server.stored.value.status) == s.lastVerdict
  {
    ReachableInv(config, s);
  }

  /** A stored status is blank, or Running or NotApplicable with agreeing conditions.  In
      particular a failed validation is never stored. */
  lemma StoredVerdicts(config: Config, s: State)
    requires Reachable(config, s) && s.server.stored.Some?
    ensures var st := s.server.stored.value.status;
      || (st.phase == Unset && st.conditions == [])
      || ((st.phase == Running || st.phase == NotApplicable) && Ordered(st.conditions) && Agrees(st))
  {
    ReachableInv(config, s);
  }

  /** The finalizer is stored before Running is: an object that shows as Running carries the
      finalizer until its deletion processing succeeds. */
  lemma RunningIsGuarded(config: Config, s: State)
    requires Reachable(config, s) && config.hasSyncer && s.server.stored.Some?
    requires s.server.stored.value.status.phase == Running
    ensures FINALIZER in s.server.stored.value.finalizers || s.server.stored.value.uid in s.swept
  {
    ReachableInv(config, s);
  }

  /** Finalizer safety: once Reconcile has stored the finalizer, the object vanishes only
      after deletion processing for it succeeded; with cascading on, that processing left no
      live object tracked under the name and touched no other. */
  lemma FinalizerSafety(config: Config, s: State, u: nat)
    requires Reachable(config, s) && config.hasSyncer
    requires u in s.guarded && u in s.vanished
    ensures u in s.swept
    ensures var w := s.swept[u];
      w.setting.cascade ==>
        && (forall k :: k in w.after ==> w.after[k] != config.name)
        && (forall k :: k in w.before && w.before[k] != config.name ==> k in w.after && w.after[k] == w.before[k])
    ensures !s.swept[u].setting.cascade ==> s.swept[u].after == s.swept[u].before
  {
    ReachableInv(config, s);
    var w := s.swept[u];
    if w.setting.cascade {
      CascadeScope(w.before, config.name, w.setting, w.after, true);
    }
  }

  /** Stored, with the finalizer, for another cluster. */
  predicate Stranded(config: Config, sv: Server, uid: nat) {
    && sv.stored.Some? && sv.stored.value.uid == uid
    && FINALIZER in sv.stored.value.finalizers
    && sv.stored.value.spec.cluster != config.clusterName
  }

  lemma StrandedStep(config: Config, s: State, a: Action, uid: nat)
    requires Inv(config, s) && Enabled(config, s, a) && !a.Edit? && Stranded(config, s.server, uid)
    ensures Stranded(config, Next(config, s, a).server, uid)
  {
    if a.PushSpec? {
      assert ReconcilerOk(config, s, s.reconcilers[a.r]);
    }
  }

  lemma {:induction false} StrandedStays(config: Config, s: State, run: seq<Action>, t: State, uid: nat)
    requires Inv(config, s) && Exec(config, s, run) == Some(t)
    requires (forall a | a in run :: !a.Edit?) && Stranded(config, s.server, uid)
    ensures Stranded(config, t.server, uid)
    decreases |run|
  {
    if run != [] {
      assert run[0] in run && forall a | a in run[1..] :: a in run;
      StepKeepsInv(config, s, run[0]);
      StrandedStep(config, s, run[0], uid);
      StrandedStays(config, Next(config, s, run[0]), run[1..], t, uid);
    }
  }

  /** A GitSync that carries the finalizer and names another cluster is never released:
      unless somebody edits it, it stays stored, with the finalizer, through every run, even
      after it is deleted. */
  lemma MovedIsNeverReleased(config: Config, s: State, run: seq<Action>, t: State)
    requires Reachable(config, s) && Exec(config, s, run) == Some(t)
    requires forall a | a in run :: !a.Edit?
    requires s.server.stored.Some? && FINALIZER in s.server.stored.value.finalizers
    requires s.server.stored.value.spec.cluster != config.clusterName
    ensures t.server.stored.Some? && t.server.stored.value.uid == s.server.stored.value.uid
    ensures FINALIZER in t.server.stored.value.finalizers
  {
    ReachableInv(config, s);
    StrandedStays(config, s, run, t, s.server.stored.value.uid);
  }

  lemma ExecCons(config: Config, s: State, a: Action, run: seq<Action>, t: State)
    requires Enabled(config, s, a) && Exec(config, Next(config, s, a), run) == Some(t)
    ensures Exec(config, s, [a] + run) == Some(t)
  {
    assert ([a] + run)[0] == a && ([a] + run)[1..] == run;
  }

  /** Reading, deciding and writing the spec of a deleted object, with nobody in between. */
  lemma Undisturbed(config: Config, s: State, r: nat, decide: Action) returns (run: seq<Action>, t: State)
    requires Inv(config, s) && r < |s.reconcilers| && s.reconcilers[r].Resting? && s.server.stored.Some?
    requires var g := s.server.stored.value;
      g.deleting && g.spec.cluster == config.clusterName && FINALIZER in g.finalizers
    requires decide.Decide? && decide.r == r && decide.processedOk
    requires if config.hasSyncer then Processed(s.cluster, config.name, decide.setting, decide.after, true)
             else decide.after == s.cluster
    ensures Exec(config, s, run) == Some(t) && (forall a | a in run :: !a.Edit?) && t.cluster == decide.after
    ensures var g, kept := s.server.stored.value, WithoutFinalizer(s.server.stored.value.finalizers);
      if kept == [] then t.server.stored.None? && g.uid in t.vanished
      else t.server.stored.Some? && t.server.stored.value.uid == g.uid && t.server.stored.value.finalizers == kept
  {
    var g := s.server.stored.value;
    var get, push := Get(r, g), PushSpec(r, false);
    var s1 := Next(config, s, get);
    var s2 := Next(config, s1, decide);
    DecisionOnFinalizers(config, g, true, decide.first, decide.now);
    DecisionOk(config, g, true, decide.first, decide.now);
    assert s2.reconcilers[r].WritesSpec? && s2.reconcilers[r].next.finalizers == WithoutFinalizer(g.finalizers);
    t := Next(config, s2, push);
    assert Exec(config, t, []) == Some(t);
    ExecCons(config, s2, push, [], t);
    ExecCons(config, s1, decide, [push] + [], t);
    run := [get] + ([decide] + ([push] + []));
    ExecCons(config, s, get, [decide] + ([push] + []), t);
  }

  /** Deletion completes: from any state where the stored object is being deleted, is meant
      for this cluster and carries the finalizer, one undisturbed reconciliation that can
      list and delete everything takes the finalizer away.  The object vanishes if it has no
      other, and with cascading on no live object tracked under the name is left. */
  lemma DeletionCompletes(config: Config, s: State, r: nat, cascade: bool) returns (run: seq<Action>, t: State)
    requires Inv(config, s)
    requires s.server.stored.Some? && r < |s.reconcilers| && s.reconcilers[r].Resting?
    requires var g := s.server.stored.value;
      g.deleting && g.spec.cluster == config.clusterName && FINALIZER in g.finalizers
    ensures Exec(config, s, run) == Some(t) && forall a | a in run :: !a.Edit?
    ensures var g := s.server.stored.value;
      if forall f :: f in g.finalizers ==> f == FINALIZER then t.server.stored.None? && g.uid in t.vanished
      else t.server.stored.Some? && t.server.stored.value.uid == g.uid
           && forall f :: f in t.server.stored.value.finalizers <==> f in g.finalizers && f != FINALIZER
    ensures config.hasSyncer && cascade ==>
      forall k :: k in t.cluster <==> k in s.cluster && s.cluster[k] != config.name
    ensures !config.hasSyncer || !cascade ==> t.cluster == s.cluster
  {
    var setting := Setting(true, true, cascade, {});
    var after := if config.hasSyncer && cascade then s.cluster - Managed(s.cluster, config.name) else s.cluster;
    assert Managed(s.cluster, config.name) <= Managed(s.cluster, config.name) - {};
    assert config.hasSyncer ==> Processed(s.cluster, config.name, setting, after, true);
    run, t := Undisturbed(config, s, r, Decide(r, setting, after, true, 0, 0));
    var kept := WithoutFinalizer(s.server.stored.value.finalizers);
    assert kept == [] <==> forall f :: f !in kept by {
      assert kept != [] ==> kept[0] in kept;
    }
  }

  /** What reconciling a GitSync that is not being deleted comes to. */
  ghost predicate Reconciles(config: Config, g: GitSync, h: GitSync) {
    && h.uid == g.uid && h.spec == g.spec && !h.deleting && h.status.commit == g.status.commit
    && if g.spec.cluster == config.clusterName
       then
         && FINALIZER in h.finalizers && (forall f :: f in g.finalizers ==> f in h.finalizers)
         && h.status.phase == Running && h.status.message == ""
         && Says(h.status.conditions, True, SUCCESSFUL, SUCCESSFUL)
       else
         && h.finalizers == g.finalizers
         && h.status.phase == NotApplicable && h.status.message == NO_DESTINATION
         && Says(h.status.conditions, False, CLUSTER_MISMATCH, NO_DESTINATION)
  }

  lemma DecisionReconciles(config: Config, g: GitSync, first: int, now: int)
    requires StatusGood(g.status) && !g.deleting && (g.spec.cluster == config.clusterName ==> g.spec.valid)
    ensures var d := Reconciled(config, g, true, first, now);
      && d.Proceed? && Reconciles(config, g, d.next) && d.next.version == g.version
      && d.next.finalizers == if g.spec.cluster == config.clusterName then WithFinalizer(g.finalizers) else g.finalizers
  {
    DecisionOk(config, g, true, first, now);
    DecisionOnFinalizers(config, g, true, first, now);
    var op := if g.spec.cluster == config.clusterName then MarkRunning else MISMATCH;
    ApplyAgrees(g.status, Init, first);
    SetSays(Apply(g.status, Init, first).conditions, Configured(op), now);
  }

  /** Reconciliation gets things done: from any state with a stored GitSync that is not being
      deleted, and valid if meant for this cluster, one undisturbed reconciliation stores the
      finalizer and then Running, or that the GitSync is not applicable here; it keeps the
      spec and the commit status. */
  lemma ReconcileCompletes(config: Config, s: State, r: nat, first: int, now: int)
    returns (run: seq<Action>, t: State)
    requires Inv(config, s) && s.server.stored.Some? && r < |s.reconcilers| && s.reconcilers[r].Resting?
    requires var g := s.server.stored.value;
      !g.deleting && (g.spec.cluster == config.clusterName ==> g.spec.valid)
    ensures Exec(config, s, run) == Some(t) && t.server.stored.Some?
    ensures Reconciles(config, s.server.stored.value, t.server.stored.value)
    ensures t.lastVerdict == VerdictOf(t.server.stored.value.status)
    ensures FINALIZER !in s.server.stored.value.finalizers && FINALIZER in t.server.stored.value.finalizers ==>
      t.server.stored.value.uid in t.guarded
  {
    var g := s.server.stored.value;
    var setting := Setting(false, false, false, {});
    var get, decide := Get(r, g), Decide(r, setting, s.cluster, true, first, now);
    DecisionReconciles(config, g, first, now);
    var s1 := Next(config, s, get);
    var s2 := Next(config, s1, decide);
    run, t := Writes(config, s2, r, g, Reconciled(config, g, true, first, now).next);
    ExecCons(config, s1, decide, run, t);
    run := [decide] + run;
    ExecCons(config, s, get, run, t);
    run := [get] + run;
  }

  /** Both writes after a decision, with nobody in between. */
  lemma Writes(config: Config, s: State, r: nat, g: GitSync, next: GitSync)
    returns (run: seq<Action>, t: State)
    requires s.server.stored == Some(g) && !g.deleting && !next.deleting && r < |s.reconcilers|
    requires next.version == g.version && next.uid == g.uid && next.spec == g.spec
    requires s.reconcilers[r] == if next.finalizers != g.finalizers then WritesSpec(g, next) else WritesStatus(next)
    ensures Exec(config, s, run) == Some(t) && t.server.stored.Some?
    ensures t.server.stored.value == next.(version := t.server.stored.value.version)
    ensures t.lastVerdict == VerdictOf(next.status)
    ensures next.finalizers != g.finalizers && FINALIZER in next.finalizers ==> next.uid in t.guarded
  {
    if next.finalizers != g.finalizers {
      var s' := Next(config, s, PushSpec(r, false));
      t := Next(config, s', PushStatus(r));
      assert Exec(config, t, []) == Some(t);
      ExecCons(config, s', PushStatus(r), [], t);
      run := [PushStatus(r)] + [];
      ExecCons(config, s, PushSpec(r, false), run, t);
      run := [PushSpec(r, false)] + run;
    } else {
      t := Next(config, s, PushStatus(r));
      assert Exec(config, t, []) == Some(t);
      ExecCons(config, s, PushStatus(r), [], t);
      run := [PushStatus(r)] + [];
    }
  }

  /** So does a worker: recording a commit undisturbed stores it and leaves the rest of the
      GitSync alone; the time is a new one exactly when something else changed. */
  lemma RecordingCompletes(config: Config, s: State, w: nat, commit: CommitStatus)
    returns (run: seq<Action>, t: State)
    requires Inv(config, s) && s.server.stored.Some? && w < |s.workers| && s.workers[w].Away?
    ensures Exec(config, s, run) == Some(t) && t.server.stored.Some?
    ensures var g, h := s.server.stored.value, t.server.stored.value;
      && h == g.(version := h.version, status := g.status.(commit := h.status.commit))
      && h.status.commit.Some? && t.lastCommit == h.status.commit
      && var before, after := g.status.commit, h.status.commit.value;
         && after.hash == commit.hash && after.synced == commit.synced && after.error == commit.error
         && (if before.Some? && before.value == commit.(syncTime := before.value.syncTime)
             then before == h.status.commit else after.syncTime == commit.syncTime)
  {
    var g := s.server.stored.value;
    var get := GetForCommit(w, g, commit);
    var s' := Next(config, s, get);
    if SameContent(g.status.commit, commit) {
      t := s';
      run := [];
      assert Exec(config, t, []) == Some(t);
    } else {
      t := Next(config, s', PushCommit(w));
      assert Exec(config, t, []) == Some(t);
      ExecCons(config, s', PushCommit(w), [], t);
      run := [PushCommit(w)] + [];
    }
    ExecCons(config, s, get, run, t);
    run := [get] + run;
  }

  /** The run takes the finalizer off the stored object, or the object with it, and nobody
      edits the object on the way. */
  ghost predicate Releases(config: Config, s: State, run: seq<Action>, t: State)
    requires s.server.stored.Some?
  {
    && Exec(config, s, run) == Some(t) && (forall a | a in run :: !a.Edit?)
    && !(t.server.stored.Some? && t.server.stored.value.uid == s.server.stored.value.uid
         && FINALIZER in t.server.stored.value.finalizers)
  }

  lemma ReleasesCons(config: Config, s: State, a: Action, run: seq<Action>, t: State)
    requires Enabled(config, s, a) && !a.Edit? && s.server.stored.Some? && Next(config, s, a).server.stored.Some?
    requires Next(config, s, a).server.stored.value.uid == s.server.stored.value.uid
    requires Releases(config, Next(config, s, a), run, t)
    ensures Releases(config, s, [a] + run, t)
  {
    ExecCons(config, s, a, run, t);
  }

  lemma IsReleased(config: Config, s: State) returns (run: seq<Action>, t: State)
    requires Inv(config, s) && |s.reconcilers| > 0 && s.server.stored.Some?
    requires s.server.stored.value.spec.cluster == config.clusterName
    requires FINALIZER in s.server.stored.value.finalizers
    ensures Releases(config, s, run, t)
    decreases !s.server.stored.value.deleting, !s.reconcilers[0].Resting?
  {
    if !s.server.stored.value.deleting {
      StepKeepsInv(config, s, Delete);
      run, t := IsReleased(config, Next(config, s, Delete));
      ReleasesCons(config, s, Delete, run, t);
      run := [Delete] + run;
    } else if !s.reconcilers[0].Resting? {
      StepKeepsInv(config, s, GiveUp(0));
      run, t := IsReleased(config, Next(config, s, GiveUp(0)));
      ReleasesCons(config, s, GiveUp(0), run, t);
      run := [GiveUp(0)] + run;
    } else {
      run, t := DeletionCompletes(config, s, 0, false);
    }
  }

  /** When the finalizer can be dropped at all without an edit, whatever other finalizers
      there are: exactly when the stored object is meant for this cluster. */
  lemma ReleasableIff(config: Config, s: State)
    requires Reachable(config, s) && |s.reconcilers| > 0
    requires s.server.stored.Some? && FINALIZER in s.server.stored.value.finalizers
    ensures (exists run, t :: Releases(config, s, run, t))
            <==> s.server.stored.value.spec.cluster == config.clusterName
  {
    ReachableInv(config, s);
    if s.server.stored.value.spec.cluster == config.clusterName {
      var run, t := IsReleased(config, s);
    } else {
      forall run, t ensures !Releases(config, s, run, t) {
        if Releases(config, s, run, t) {
          MovedIsNeverReleased(config, s, run, t);
        }
      }
    }
  }
}
