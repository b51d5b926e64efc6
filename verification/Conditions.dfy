/** The status of a GitSync: its phase, its message, its conditions and the status of the
    last commit, with the operations that update them in place. */
module Conditions {
  import opened Text

  datatype Truth = True | False | Unknown

  datatype Condition = Condition(
    kind: string, truth: Truth, observedGeneration: int, since: int, reason: string, message: string)

  datatype Phase = Unset | Pending | Running | Failed | NotApplicable

  datatype CommitStatus = CommitStatus(hash: string, synced: bool, syncTime: int, error: string)

  datatype Status = Status(
    phase: Phase, message: string, conditions: seq<Condition>, commit: Option<CommitStatus>)

  /** Nothing but the time would change: updateCommitStatus does not write. */
  predicate SameContent(current: Option<CommitStatus>, c: CommitStatus) {
    && current.Some?
    && current.value.synced == c.synced && current.value.hash == c.hash && current.value.error == c.error
  }

  const CONFIGURED := "Configured"
  const UNKNOWN := "Unknown"
  const SUCCESSFUL := "Successful"

  // ----- Order on condition types -----

  predicate Below(a: string, b: string) {
    if b == "" then false
    else if a == "" then true
    else if a[0] != b[0] then a[0] < b[0]
    else Below(a[1..], b[1..])
  }

  lemma BelowIsStrictOrder(a: string, b: string, c: string)
    ensures !Below(a, a)
    ensures Below(a, b) && Below(b, c) ==> Below(a, c)
    ensures Below(a, b) || a == b || Below(b, a)
    decreases |a| + |b| + |c|
  {
    if a != "" && b != "" && c != "" {
      BelowIsStrictOrder(a[1..], b[1..], c[1..]);
    } else if a != "" && b != "" {
      BelowIsStrictOrder(a[1..], b[1..], c);
    } else if a != "" {
      BelowIsStrictOrder(a[1..], b, c);
    }
    assert a != "" && b != "" && a[0] == b[0] && a[1..] == b[1..] ==> a == b by {
      assert a != "" ==> a == [a[0]] + a[1..];
      assert b != "" ==> b == [b[0]] + b[1..];
    }
  }

  /** The strings agree up to n, where a ends first or has the smaller letter. */
  predicate Decides(a: string, b: string, n: nat) {
    && n <= |a| && n < |b| && a[..n] == b[..n]
    && (n < |a| ==> a[n] < b[n])
  }

  /** It is the dictionary order: the first difference decides, and a prefix comes first. */
  lemma {:induction false} BelowIsLexicographic(a: string, b: string)
    ensures Below(a, b) <==> exists n: nat :: Decides(a, b, n)
    decreases |a|
  {
    if a == "" || b == "" || a[0] != b[0] {
      assert Below(a, b) ==> Decides(a, b, 0);
      forall n: nat | Decides(a, b, n) ensures Decides(a, b, 0) {
        if n > 0 {
          DecidesAtStart(a, b, n);
        }
      }
    } else {
      BelowIsLexicographic(a[1..], b[1..]);
      forall n: nat ensures Decides(a, b, n + 1) <==> Decides(a[1..], b[1..], n) {
        DecidesShifts(a, b, n);
      }
      if Below(a, b) {
        var n: nat :| Decides(a[1..], b[1..], n);
        assert Decides(a, b, n + 1);
      }
      forall n: nat | Decides(a, b, n) ensures Decides(a[1..], b[1..], n - 1) {
        assert Decides(a, b, n - 1 + 1);
      }
    }
  }

  lemma DecidesAtStart(a: string, b: string, n: nat)
    requires Decides(a, b, n) && n > 0
    ensures a != "" && a[0] == b[0]
  {
    assert a[..n][0] == a[0] && b[..n][0] == b[0];
  }

  lemma DecidesShifts(a: string, b: string, n: nat)
    requires a != "" && b != "" && a[0] == b[0]
    ensures Decides(a, b, n + 1) <==> Decides(a[1..], b[1..], n)
  {
    if n + 1 <= |a| && n + 1 < |b| {
      assert a[..n + 1] == [a[0]] + a[1..][..n] && b[..n + 1] == [b[0]] + b[1..][..n];
      assert a[..n + 1][1..] == a[1..][..n] && b[..n + 1][1..] == b[1..][..n];
    }
  }

  /** Sorted by type, at most one condition of each type. */
  ghost predicate Ordered(cs: seq<Condition>) {
    forall i, j :: 0 <= i < j < |cs| ==> Below(cs[i].kind, cs[j].kind)
  }

  predicate SameButSince(c: Condition, d: Condition) {
    c == d.(since := c.since)
  }

  // ----- Specification of setCondition -----

  function Others(cs: seq<Condition>, kind: string): seq<Condition> {
    if cs == [] then []
    else (if cs[0].kind != kind then [cs[0]] else []) + Others(cs[1..], kind)
  }

  function Insert(cs: seq<Condition>, c: Condition): seq<Condition> {
    if cs == [] || Below(c.kind, cs[0].kind) then [c] + cs else [cs[0]] + Insert(cs[1..], c)
  }

  /** The list sorted by type.  The order among equal types, which do not arise from an
      ordered list, is the order of arrival. */
  function SortedByKind(cs: seq<Condition>): seq<Condition> {
    if cs == [] then [] else Insert(SortedByKind(cs[..|cs| - 1]), cs[|cs| - 1])
  }

  predicate Holds(cs: seq<Condition>, c: Condition) {
    exists d :: d in cs && SameButSince(d, c)
  }

  function Set(cs: seq<Condition>, c: Condition, now: int): seq<Condition> {
    if Holds(cs, c) then cs else SortedByKind(Others(cs, c.kind) + [c.(since := now)])
  }

  /** The conditions as a map from type to condition. */
  ghost predicate Maps(cs: seq<Condition>, m: map<string, Condition>) {
    && (forall c :: c in cs ==> c.kind in m && m[c.kind] == c)
    && (forall k :: k in m ==> m[k] in cs && m[k].kind == k)
  }

  lemma {:induction false} OthersAreOrdered(cs: seq<Condition>, kind: string)
    requires Ordered(cs)
    ensures Ordered(Others(cs, kind))
    ensures forall c :: c in Others(cs, kind) <==> c in cs && c.kind != kind
  {
    if cs != [] {
      OthersAreOrdered(cs[1..], kind);
      var rest := Others(cs[1..], kind);
      assert cs == [cs[0]] + cs[1..];
      forall c | c in rest ensures Below(cs[0].kind, c.kind) {
        var j :| 0 <= j < |cs[1..]| && cs[1..][j] == c;
        assert c == cs[j + 1];
      }
    }
  }

  lemma {:induction false} InsertIsOrdered(cs: seq<Condition>, c: Condition)
    requires Ordered(cs)
    requires forall d :: d in cs ==> d.kind != c.kind
    ensures Ordered(Insert(cs, c))
    ensures forall d :: d in Insert(cs, c) <==> d in cs || d == c
  {
    if cs == [] {
    } else if Below(c.kind, cs[0].kind) {
      forall j | 0 <= j < |cs| ensures Below(c.kind, cs[j].kind) {
        BelowIsStrictOrder(c.kind, cs[0].kind, cs[j].kind);
      }
    } else {
      InsertIsOrdered(cs[1..], c);
      BelowIsStrictOrder(c.kind, cs[0].kind, c.kind);
      var rest := Insert(cs[1..], c);
      forall d | d in rest ensures Below(cs[0].kind, d.kind) {
        if d != c {
          var j :| 0 <= j < |cs[1..]| && cs[1..][j] == d;
          assert d == cs[j + 1];
        }
      }
      assert cs == [cs[0]] + cs[1..];
    }
  }

  lemma {:induction false} InsertLast(cs: seq<Condition>, c: Condition)
    requires forall i :: 0 <= i < |cs| ==> Below(cs[i].kind, c.kind)
    ensures Insert(cs, c) == cs + [c]
  {
    if cs != [] {
      BelowIsStrictOrder(cs[0].kind, c.kind, cs[0].kind);
      InsertLast(cs[1..], c);
      assert cs == [cs[0]] + cs[1..];
    }
  }

  lemma {:induction false} SortedByKindKeepsOrdered(cs: seq<Condition>)
    requires Ordered(cs)
    ensures SortedByKind(cs) == cs
  {
    if cs != [] {
      var n := |cs| - 1;
      SortedByKindKeepsOrdered(cs[..n]);
      InsertLast(cs[..n], cs[n]);
      assert cs == cs[..n] + [cs[n]];
    }
  }

  /** Replacing a condition in an ordered list is an ordered insertion. */
  lemma SetInserts(cs: seq<Condition>, c: Condition, now: int)
    requires Ordered(cs)
    ensures Ordered(Set(cs, c, now))
    ensures !Holds(cs, c) ==>
      forall d :: d in Set(cs, c, now) <==> (d in cs && d.kind != c.kind) || d == c.(since := now)
  {
    var kept, d := Others(cs, c.kind), c.(since := now);
    OthersAreOrdered(cs, c.kind);
    SortedByKindKeepsOrdered(kept);
    assert (kept + [d])[..|kept|] == kept;
    InsertIsOrdered(kept, d);
  }

  /** setCondition is a map update: on an ordered list it keeps the order, changes the
      entry of the given type only, and leaves even that alone when nothing but the time
      would differ. */
  lemma SetIsMapUpdate(cs: seq<Condition>, m: map<string, Condition>, c: Condition, now: int)
    requires Ordered(cs) && Maps(cs, m)
    ensures Ordered(Set(cs, c, now))
    ensures Maps(Set(cs, c, now),
                 if c.kind in m && m[c.kind] == c.(since := m[c.kind].since) then m
                 else m[c.kind := c.(since := now)])
    ensures c.kind in m && m[c.kind] == c.(since := m[c.kind].since) ==> Set(cs, c, now) == cs
  {
    SetInserts(cs, c, now);
    HoldsInMap(cs, m, c);
    if !Holds(cs, c) {
      SetChangesMap(cs, m, c, now);
    }
  }

  lemma HoldsInMap(cs: seq<Condition>, m: map<string, Condition>, c: Condition)
    requires Maps(cs, m)
    ensures Holds(cs, c) <==> c.kind in m && SameButSince(m[c.kind], c)
  {
    if Holds(cs, c) {
      var d :| d in cs && SameButSince(d, c);
      assert d.kind == c.kind && m[d.kind] == d;
    }
  }

  lemma SetChangesMap(cs: seq<Condition>, m: map<string, Condition>, c: Condition, now: int)
    requires Ordered(cs) && Maps(cs, m) && !Holds(cs, c)
    ensures Maps(Set(cs, c, now), m[c.kind := c.(since := now)])
  {
    SetInserts(cs, c, now);
    var m', cs' := m[c.kind := c.(since := now)], Set(cs, c, now);
    forall d | d in cs' ensures d.kind in m' && m'[d.kind] == d {
      assert d in cs || d == c.(since := now);
    }
    forall k | k in m' ensures m'[k] in cs' && m'[k].kind == k {
      assert k == c.kind || m[k] in cs;
    }
  }

  /** Setting the same condition again, at any later time, changes nothing. */
  lemma SetTwice(cs: seq<Condition>, c: Condition, now: int, later: int)
    requires Ordered(cs)
    ensures Set(Set(cs, c, now), c, later) == Set(cs, c, now)
  {
    if !Holds(cs, c) {
      SetInserts(cs, c, now);
      assert SameButSince(c.(since := now), c);
    }
  }

  // ----- Phases -----

  datatype Op =
    | Init
    | MarkRunning
    | MarkFailed(reason: string, message: string)
    | MarkNotApplicable(reason: string, message: string)

  /** The condition an operation sets; its time is ignored. */
  function Configured(op: Op): Condition {
    match op
    case Init => Condition(CONFIGURED, Unknown, 0, 0, UNKNOWN, "")
    case MarkRunning => Condition(CONFIGURED, True, 0, 0, SUCCESSFUL, SUCCESSFUL)
    case MarkFailed(reason, message) => Condition(CONFIGURED, False, 0, 0, reason, message)
    case MarkNotApplicable(reason, message) => Condition(CONFIGURED, False, 0, 0, reason, message)
  }

  function Apply(st: Status, op: Op, now: int): Status {
    var cs := Set(st.conditions, Configured(op), now);
    match op
    case Init => Status(Pending, "", cs, st.commit)
    case MarkRunning => Status(Running, "", cs, st.commit)
    case MarkFailed(_, message) => Status(Failed, message, cs, st.commit)
    case MarkNotApplicable(_, message) => Status(NotApplicable, message, cs, st.commit)
  }

  function ApplyAll(st: Status, ops: seq<(Op, int)>): Status {
    if ops == [] then st else Apply(ApplyAll(st, ops[..|ops| - 1]), ops[|ops| - 1].0, ops[|ops| - 1].1)
  }

  /** What the phase and the message of a status say of the Configured condition. */
  predicate Fits(st: Status, truth: Truth, message: string) {
    match st.phase
    case Pending => truth == Unknown && st.message == ""
    case Running => truth == True && st.message == ""
    case Failed => truth == False && st.message == message
    case NotApplicable => truth == False && st.message == message
    case Unset => false
  }

  /** Phase, message and the Configured condition tell the same story. */
  ghost predicate Agrees(st: Status) {
    exists c :: c in st.conditions && c.kind == CONFIGURED && Fits(st, c.truth, c.message)
  }

  /** The list has one condition of the type, and it says this. */
  ghost predicate Says(cs: seq<Condition>, truth: Truth, reason: string, message: string) {
    && (exists c :: c in cs && c.kind == CONFIGURED)
    && (forall c :: c in cs && c.kind == CONFIGURED ==>
          c.truth == truth && c.reason == reason && c.message == message && c.observedGeneration == 0)
  }

  lemma SetSays(cs: seq<Condition>, c: Condition, now: int)
    requires Ordered(cs) && c.kind == CONFIGURED && c.observedGeneration == 0
    ensures Says(Set(cs, c, now), c.truth, c.reason, c.message)
  {
    SetInserts(cs, c, now);
    if Holds(cs, c) {
      var d :| d in cs && SameButSince(d, c);
      forall e | e in cs && e.kind == CONFIGURED ensures e == d {
        var i :| 0 <= i < |cs| && cs[i] == d;
        var j :| 0 <= j < |cs| && cs[j] == e;
        BelowIsStrictOrder(d.kind, d.kind, d.kind);
        assert i == j;
      }
    } else {
      assert c.(since := now) in Set(cs, c, now);
    }
  }

  lemma ApplyAgrees(st: Status, op: Op, now: int)
    requires Ordered(st.conditions)
    ensures var st' := Apply(st, op, now);
            && Ordered(st'.conditions) && Agrees(st') && st'.commit == st.commit
            && forall c: Condition :: c.kind != CONFIGURED ==> (c in st'.conditions <==> c in st.conditions)
  {
    var c, st' := Configured(op), Apply(st, op, now);
    SetInserts(st.conditions, c, now);
    SetSays(st.conditions, c, now);
    assert Fits(st', c.truth, c.message);
    SaysAgrees(st', c);
  }

  lemma SaysAgrees(st: Status, c: Condition)
    requires Says(st.conditions, c.truth, c.reason, c.message) && Fits(st, c.truth, c.message)
    ensures Agrees(st)
  {
    var d :| d in st.conditions && d.kind == CONFIGURED;
    assert Fits(st, d.truth, d.message);
  }

  /** After any non-empty sequence of InitConditions and Mark calls the phase, the message
      and the Configured condition agree; the commit status and every other condition are
      as they were. */
  lemma {:induction false} PhaseAlwaysAgrees(st: Status, ops: seq<(Op, int)>)
    requires Ordered(st.conditions)
    ensures var st' := ApplyAll(st, ops);
            && Ordered(st'.conditions) && (ops != [] ==> Agrees(st')) && st'.commit == st.commit
            && forall c: Condition :: c.kind != CONFIGURED ==> (c in st'.conditions <==> c in st.conditions)
  {
    if ops != [] {
      var n := |ops| - 1;
      PhaseAlwaysAgrees(st, ops[..n]);
      ApplyAgrees(ApplyAll(st, ops[..n]), ops[n].0, ops[n].1);
    }
  }

  /** What a status shows after any sequence of calls is what the last of them said, each
      part in its place. */
  lemma LastCallShows(st: Status, ops: seq<(Op, int)>)
    requires Ordered(st.conditions) && ops != []
    ensures var shown := ApplyAll(st, ops);
      match ops[|ops| - 1].0
      case Init => shown.phase == Pending && shown.message == "" && Says(shown.conditions, Unknown, UNKNOWN, "")
      case MarkRunning =>
        shown.phase == Running && shown.message == "" && Says(shown.conditions, True, SUCCESSFUL, SUCCESSFUL)
      case MarkFailed(reason, message) =>
        shown.phase == Failed && shown.message == message && Says(shown.conditions, False, reason, message)
      case MarkNotApplicable(reason, message) =>
        shown.phase == NotApplicable && shown.message == message && Says(shown.conditions, False, reason, message)
  {
    var n := |ops| - 1;
    PhaseAlwaysAgrees(st, ops[..n]);
    SetSays(ApplyAll(st, ops[..n]).conditions, Configured(ops[n].0), ops[n].1);
  }

  /** Every reconciliation begins by setting the condition to Unknown, so a GitSync that
      was running and stays running gets a new transition time each time. */
  lemma ReconcileRestampsRunning(st: Status, first: int, now: int)
    requires Ordered(st.conditions)
    ensures Configured(MarkRunning).(since := now)
              in Apply(Apply(st, Init, first), MarkRunning, now).conditions
  {
    ApplyAgrees(st, Init, first);
    var cs := Apply(st, Init, first).conditions;
    assert !Holds(cs, Configured(MarkRunning)) by {
      var u :| u in cs && u.kind == CONFIGURED && u.truth == Unknown;
      if Holds(cs, Configured(MarkRunning)) {
        var d :| d in cs && SameButSince(d, Configured(MarkRunning));
        BelowIsStrictOrder(CONFIGURED, "", "");
        assert false;
      }
    }
    SetInserts(cs, Configured(MarkRunning), now);
  }

  // ----- The status object -----

  ghost predicate Sorted(cs: seq<Condition>) {
    forall i, j :: 0 <= i < j < |cs| ==> !Below(cs[j].kind, cs[i].kind)
  }

  lemma {:induction false} InsertIsSorted(cs: seq<Condition>, c: Condition)
    requires Sorted(cs)
    ensures Sorted(Insert(cs, c))
    ensures forall d :: d in Insert(cs, c) <==> d in cs || d == c
  {
    if cs == [] {
    } else if Below(c.kind, cs[0].kind) {
      forall j | 0 <= j < |cs| ensures !Below(cs[j].kind, c.kind) {
        BelowIsStrictOrder(cs[j].kind, c.kind, cs[0].kind);
        BelowIsStrictOrder(c.kind, cs[0].kind, c.kind);
      }
    } else {
      InsertIsSorted(cs[1..], c);
      forall d | d in cs[1..] ensures !Below(d.kind, cs[0].kind) {
        var j :| 0 <= j < |cs[1..]| && cs[1..][j] == d;
        assert d == cs[j + 1];
      }
      assert cs == [cs[0]] + cs[1..];
    }
  }

  lemma {:induction false} InsertKeepsAll(cs: seq<Condition>, c: Condition)
    ensures multiset(Insert(cs, c)) == multiset(cs) + multiset{c}
  {
    if cs != [] && !Below(c.kind, cs[0].kind) {
      InsertKeepsAll(cs[1..], c);
      assert cs == [cs[0]] + cs[1..];
    }
  }

  lemma {:induction false} SortedByKindKeepsAll(cs: seq<Condition>)
    ensures multiset(SortedByKind(cs)) == multiset(cs)
  {
    if cs != [] {
      var n := |cs| - 1;
      SortedByKindKeepsAll(cs[..n]);
      InsertKeepsAll(SortedByKind(cs[..n]), cs[n]);
      assert cs == cs[..n] + [cs[n]];
    }
  }

  lemma {:induction false} SortedByKindSorts(cs: seq<Condition>)
    ensures Sorted(SortedByKind(cs)) && multiset(SortedByKind(cs)) == multiset(cs)
  {
    SortedByKindKeepsAll(cs);
    if cs != [] {
      var n := |cs| - 1;
      SortedByKindSorts(cs[..n]);
      InsertIsSorted(SortedByKind(cs[..n]), cs[n]);
    }
  }

  method SortByKind(cs: seq<Condition>) returns (sorted: seq<Condition>)
    ensures sorted == SortedByKind(cs)
  {
    sorted := [];
    for i := 0 to |cs|
      invariant sorted == SortedByKind(cs[..i])
    {
      assert cs[..i + 1][..i] == cs[..i];
      sorted := Insert(sorted, cs[i]);
    }
    assert cs[..|cs|] == cs;
  }

  lemma {:induction false} OthersAppend(cs: seq<Condition>, d: Condition, kind: string)
    ensures Others(cs + [d], kind) == Others(cs, kind) + if d.kind != kind then [d] else []
  {
    if cs == [] {
      assert cs + [d] == [d] && [d][1..] == [];
    } else {
      assert (cs + [d])[0] == cs[0] && (cs + [d])[1..] == cs[1..] + [d];
      OthersAppend(cs[1..], d, kind);
    }
  }

  class GitSyncStatus {
    var phase: Phase
    var message: string
    var conditions: seq<Condition>
    var commitStatus: Option<CommitStatus>

    function Value(): Status
      reads this
    {
      Status(phase, message, conditions, commitStatus)
    }

    constructor (st: Status)
      ensures Value() == st
    {
      phase, message, conditions, commitStatus := st.phase, st.message, st.conditions, st.commit;
    }

    method SetPhase(phase: Phase, message: string)
      modifies this`phase, this`message
      ensures this.phase == phase && this.message == message
    {
      this.phase, this.message := phase, message;
    }

    /** A condition that is already held leaves the list as it is; otherwise the given
        condition, stamped now, replaces every condition of its type, and the list comes
        out sorted. */
    method SetCondition(c: Condition, now: int)
      modifies this`conditions
      ensures (exists d :: d in old(conditions) && d == c.(since := d.since)) ==> conditions == old(conditions)
      ensures (forall d :: d in old(conditions) ==> d != c.(since := d.since)) ==>
                && Sorted(conditions)
                && multiset(conditions) == multiset(Others(old(conditions), c.kind) + [c.(since := now)])
      ensures conditions == Set(old(conditions), c, now)
    {
      var condition, kept, i := c, [], 0;
      while i < |conditions|
        invariant 0 <= i <= |conditions| && conditions == old(conditions)
        invariant kept == Others(conditions[..i], c.kind)
        invariant !Holds(conditions[..i], c)
        invariant condition == c.(since := condition.since)
      {
        var d := conditions[i];
        assert conditions[..i + 1] == conditions[..i] + [d];
        OthersAppend(conditions[..i], d, c.kind);
        if d.kind != condition.kind {
          kept := kept + [d];
        } else {
          condition := condition.(since := d.since);
          if condition == d {
            assert d in conditions && SameButSince(d, c);
            return;
          }
        }
        i := i + 1;
      }
      assert conditions[..i] == conditions;
      condition := condition.(since := now);
      SortedByKindSorts(kept + [condition]);
      conditions := SortByKind(kept + [condition]);
    }

    method InitConditions(now: int)
      modifies this`phase, this`message, this`conditions
      ensures Value() == Apply(old(Value()), Init, now)
    {
      SetCondition(Configured(Init), now);
      SetPhase(Pending, "");
    }

    method MarkRunning(now: int)
      modifies this`phase, this`message, this`conditions
      ensures Value() == Apply(old(Value()), Op.MarkRunning, now)
    {
      SetCondition(Configured(Op.MarkRunning), now);
      SetPhase(Running, "");
    }

    method MarkFailed(reason: string, message: string, now: int)
      modifies this`phase, this`message, this`conditions
      ensures Value() == Apply(old(Value()), Op.MarkFailed(reason, message), now)
    {
      SetCondition(Configured(Op.MarkFailed(reason, message)), now);
      SetPhase(Failed, message);
    }

    method MarkNotApplicable(reason: string, message: string, now: int)
      modifies this`phase, this`message, this`conditions
      ensures Value() == Apply(old(Value()), Op.MarkNotApplicable(reason, message), now)
    {
      SetCondition(Configured(Op.MarkNotApplicable(reason, message)), now);
      SetPhase(NotApplicable, message);
    }
  }
}
