/** One run of a worker on one key: which way it goes, what it writes back, and what
    that means over many runs on the same key. */
module SyncRun {
  import opened Text
  import opened Conditions

  // ----- Keys -----

  function KeyOf(namespace: string, name: string): string {
    namespace + "/" + name
  }

  /** Splitting a key recovers namespace and name when neither has a slash, so distinct
      GitSyncs have distinct keys. */
  lemma KeyRoundTrip(namespace: string, name: string)
    requires '/' !in namespace && '/' !in name
    ensures Split(KeyOf(namespace, name), '/') == [namespace, name]
  {
    SplitAppend(namespace, name, '/');
    SplitClean(namespace, '/');
    SplitClean(name, '/');
  }

  // ----- Which way a run goes -----

  /** What the first Get of the GitSync returns. */
  datatype Fetch = Missing | Unreadable | Fetched(terminating: bool)

  /** What the second Get, for the commit status, returns.  A missing GitSync reads as no
      status. */
  datatype Recorded = RecordUnreadable | Record(status: Option<CommitStatus>)

  /** Everything a run learns from outside: `manifests` is the commit hash when cloning and
      building manifests both succeed. */
  datatype Attempt = Attempt(
    fetch: Fetch,
    deletionOk: bool,
    automatedSyncDisabled: bool,
    autoHealDisabled: bool,
    manifests: Option<string>,
    labelsOk: bool,
    synced: bool,
    message: string,
    now: int)

  datatype Outcome = Aborted | Unwatched | Skipped | Applied(status: CommitStatus)

  function NewStatus(hash: string, a: Attempt): CommitStatus {
    CommitStatus(hash, a.synced, a.now, if a.synced then "" else a.message)
  }

  function RunOnce(key: string, a: Attempt, recorded: Recorded): Outcome {
    if |Split(key, '/')| != 2 then Aborted
    else if a.fetch.Missing? then Unwatched
    else if a.fetch.Unreadable? then Aborted
    else if a.fetch.terminating then (if a.deletionOk then Unwatched else Aborted)
    else if a.automatedSyncDisabled then Skipped
    else if a.manifests.None? || recorded.RecordUnreadable? then Aborted
    else if a.autoHealDisabled && recorded.status.Some? && recorded.status.value.hash == a.manifests.value then Skipped
    else if !a.labelsOk then Aborted
    else Applied(NewStatus(a.manifests.value, a))
  }

  /** A run un-watches its key exactly when the GitSync is gone, or is being deleted and
      its deletion processing succeeded. */
  lemma UnwatchedIff(namespace: string, name: string, a: Attempt, recorded: Recorded)
    requires '/' !in namespace && '/' !in name
    ensures RunOnce(KeyOf(namespace, name), a, recorded).Unwatched?
            <==> a.fetch.Missing? || (a.fetch == Fetched(true) && a.deletionOk)
  {
    KeyRoundTrip(namespace, name);
  }

  /** A run that finds a live GitSync and automated sync on, and gets as far as comparing
      commits. */
  predicate Compares(a: Attempt, recorded: Recorded) {
    a.fetch == Fetched(false) && !a.automatedSyncDisabled && a.manifests.Some? && recorded.Record?
  }

  /** The commit it finds is the recorded one. */
  predicate SameCommit(a: Attempt, recorded: Recorded) {
    a.manifests.Some? && recorded.Record? && recorded.status.Some? && recorded.status.value.hash == a.manifests.value
  }

  /** A run applies the manifests exactly when it compares commits, the labels can be set,
      and it does not find the recorded commit with auto-heal off; it skips exactly when it
      does find that, or automated sync is off.  What it applies it reports: the commit,
      whether it synced and when, and the message of a failure only. */
  lemma AppliedIff(namespace: string, name: string, a: Attempt, recorded: Recorded)
    requires '/' !in namespace && '/' !in name
    ensures var o := RunOnce(KeyOf(namespace, name), a, recorded);
      && (o.Applied? <==>
            Compares(a, recorded) && a.labelsOk && !(a.autoHealDisabled && SameCommit(a, recorded)))
      && (o.Skipped? <==>
            a.fetch == Fetched(false)
            && (a.automatedSyncDisabled || (Compares(a, recorded) && a.autoHealDisabled && SameCommit(a, recorded))))
      && (o.Applied? ==>
            && o.status.hash == a.manifests.value && o.status.synced == a.synced && o.status.syncTime == a.now
            && (a.synced ==> o.status.error == "") && (!a.synced ==> o.status.error == a.message))
  {
    KeyRoundTrip(namespace, name);
  }

  // ----- The commit status over many runs -----

  /** updateCommitStatus against a readable GitSync whose update succeeds or not. */
  function Recording(stored: Option<CommitStatus>, status: CommitStatus, writeOk: bool): Option<CommitStatus> {
    if SameContent(stored, status) then stored
    else if writeOk then Some(status)
    else stored
  }

  /** One run in a series on the same key: what it learns, whether it can read the stored
      commit status, and whether its own write of it succeeds. */
  datatype Round = Round(attempt: Attempt, readOk: bool, writeOk: bool)

  function Outcomes(key: string, stored: Option<CommitStatus>, r: Round): Outcome {
    RunOnce(key, r.attempt, if r.readOk then Record(stored) else RecordUnreadable)
  }

  function After(key: string, stored: Option<CommitStatus>, r: Round): Option<CommitStatus> {
    var o := Outcomes(key, stored, r);
    if o.Applied? then Recording(stored, o.status, r.writeOk) else stored
  }

  /** The commit hashes applied by a series of runs, in order. */
  function Syncs(key: string, stored: Option<CommitStatus>, rounds: seq<Round>): seq<string>
    decreases |rounds|
  {
    if rounds == [] then []
    else
      var o := Outcomes(key, stored, rounds[0]);
      (if o.Applied? then [o.status.hash] else []) + Syncs(key, After(key, stored, rounds[0]), rounds[1..])
  }

  ghost predicate Clean(stored: Option<CommitStatus>) {
    stored.Some? && stored.value.synced ==> stored.value.error == ""
  }

  function Final(key: string, stored: Option<CommitStatus>, rounds: seq<Round>): Option<CommitStatus>
    decreases |rounds|
  {
    if rounds == [] then stored else Final(key, After(key, stored, rounds[0]), rounds[1..])
  }

  /** The recorded status says of the last sync all but the time. */
  predicate Records(stored: Option<CommitStatus>, a: Attempt) {
    && stored.Some? && a.manifests == Some(stored.value.hash) && stored.value.synced == a.synced
    && stored.value.error == if a.synced then "" else a.message
  }

  /** A sync whose write succeeds is recorded, whatever was recorded before; the time is left
      as it was exactly when nothing else changes.  A lost write changes nothing. */
  lemma SyncIsRecorded(key: string, stored: Option<CommitStatus>, r: Round)
    requires Outcomes(key, stored, r).Applied?
    ensures r.writeOk ==> Records(After(key, stored, r), r.attempt)
    ensures r.writeOk ==>
      if Records(stored, r.attempt) then After(key, stored, r) == stored
      else After(key, stored, r).value.syncTime == r.attempt.now
    ensures !r.writeOk ==> After(key, stored, r) == stored
  {
  }

  /** A round that compares commits and can set the labels. */
  predicate Reaches(r: Round) {
    && r.attempt.fetch == Fetched(false) && !r.attempt.automatedSyncDisabled
    && r.attempt.manifests.Some? && r.readOk && r.attempt.labelsOk
  }

  /** With auto-heal on, every round that reaches the check syncs again, whatever is
      recorded, and syncs the commit it finds; and with successful writes the recorded status
      is in the end that of the last round. */
  lemma {:induction false} AutoHealSyncsAlways(
    namespace: string, name: string, stored: Option<CommitStatus>, rounds: seq<Round>)
    requires '/' !in namespace && '/' !in name
    requires forall r | r in rounds :: Reaches(r) && !r.attempt.autoHealDisabled
    ensures var hs := Syncs(KeyOf(namespace, name), stored, rounds);
      |hs| == |rounds| && forall i :: 0 <= i < |rounds| ==> rounds[i].attempt.manifests == Some(hs[i])
    ensures rounds != [] && (forall r | r in rounds :: r.writeOk) ==>
      Records(Final(KeyOf(namespace, name), stored, rounds), rounds[|rounds| - 1].attempt)
    decreases |rounds|
  {
    if rounds != [] {
      var key, r, rest := KeyOf(namespace, name), rounds[0], rounds[1..];
      assert r in rounds && forall x | x in rest :: x in rounds;
      KeyRoundTrip(namespace, name);
      var stored' := After(key, stored, r);
      SyncIsRecorded(key, stored, r);
      AutoHealSyncsAlways(namespace, name, stored', rest);
      var hs := Syncs(key, stored', rest);
      assert Syncs(key, stored, rounds) == [r.attempt.manifests.value] + hs;
      forall i | 0 <= i < |rounds| ensures rounds[i].attempt.manifests == Some(([r.attempt.manifests.value] + hs)[i]) {
        assert i > 0 ==> rounds[i] == rest[i - 1];
      }
      assert rest == [] ==> Final(key, stored', rest) == stored';
    }
  }

  lemma AppliedIsNew(key: string, stored: Option<CommitStatus>, r: Round)
    requires r.attempt.autoHealDisabled && r.writeOk
    ensures var o := Outcomes(key, stored, r);
            && (!o.Applied? ==> After(key, stored, r) == stored)
            && (o.Applied? ==> After(key, stored, r) == Some(o.status))
            && (o.Applied? && stored.Some? ==> o.status.hash != stored.value.hash)
    ensures Clean(stored) ==> Clean(After(key, stored, r))
  {
  }

  /** No two neighbours are equal. */
  ghost predicate Changes(hs: seq<string>) {
    forall i :: 0 <= i < |hs| - 1 ==> hs[i] != hs[i + 1]
  }

  lemma ChangesCons(h: string, hs: seq<string>)
    requires Changes(hs) && (hs != [] ==> hs[0] != h)
    ensures Changes([h] + hs)
  {
  }

  /** With auto-heal off, non-overlapping runs and successful writes, no two successive
      syncs of a key are for the same commit, the first is not for the commit already
      recorded, and a synced status never carries an error. */
  lemma {:induction false} NoRepeatedSync(key: string, stored: Option<CommitStatus>, rounds: seq<Round>)
    requires forall r | r in rounds :: r.attempt.autoHealDisabled && r.writeOk
    ensures var hs := Syncs(key, stored, rounds);
            && Changes(hs)
            && (hs != [] && stored.Some? ==> hs[0] != stored.value.hash)
    ensures Clean(stored) ==> Clean(Final(key, stored, rounds))
    decreases |rounds|
  {
    if rounds != [] {
      assert rounds[0] in rounds && forall r | r in rounds[1..] :: r in rounds;
      AppliedIsNew(key, stored, rounds[0]);
      var o, stored' := Outcomes(key, stored, rounds[0]), After(key, stored, rounds[0]);
      NoRepeatedSync(key, stored', rounds[1..]);
      if o.Applied? {
        ChangesCons(o.status.hash, Syncs(key, stored', rounds[1..]));
      } else {
        assert Syncs(key, stored, rounds) == Syncs(key, stored', rounds[1..]);
      }
    }
  }

  /** The write is exactly what prevents the repetition: after a sync, the next run that
      finds the same commit and reaches the check applies it again if and only if the
      status write of the first was lost.  A failed sync is recorded like any other, so it
      is not retried either until the commit changes. */
  lemma RepeatedIffWriteLost(key: string, stored: Option<CommitStatus>, first: Round, next: Round)
    requires Outcomes(key, stored, first).Applied? && first.attempt.autoHealDisabled
    requires next.attempt.fetch == Fetched(false) && !next.attempt.automatedSyncDisabled
    requires next.attempt.manifests == first.attempt.manifests && next.readOk
    requires next.attempt.autoHealDisabled && next.attempt.labelsOk
    ensures Outcomes(key, After(key, stored, first), next).Applied? <==> !first.writeOk
  {
    var o := Outcomes(key, stored, first);
    assert !SameContent(stored, o.status);
  }
}
