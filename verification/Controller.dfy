/** Reconcile on the GitSync object itself: its status and finalizers are changed in place,
    and the watched keys follow. */
module Controller {
  import opened Conditions
  import R = Rotation
  import SyncRun
  import WatchList
  import Cascade
  import L = Lifecycle

  class GitSyncObject {
    const namespace: string
    const name: string
    const uid: nat
    const version: nat
    const deleting: bool
    const spec: L.Spec
    var finalizers: seq<string>
    const status: GitSyncStatus

    constructor (namespace: string, name: string, g: L.GitSync)
      ensures this.namespace == namespace && this.name == name && Value() == g && fresh(status)
    {
      this.namespace, this.name := namespace, name;
      uid, version, deleting, spec, finalizers := g.uid, g.version, g.deleting, g.spec, g.finalizers;
      status := new GitSyncStatus(g.status);
    }

    function Value(): L.GitSync
      reads this, status
    {
      L.GitSync(uid, version, deleting, finalizers, spec, status.Value())
    }
  }

  /** How a reconciliation changes the watched keys: it starts a valid GitSync before
      its finalizer is stored, stops one whose deletion was processed, and leaves
      everything else, also a GitSync of another cluster, as it is. */
  function WatchedAfter(
    clusterName: string, keys: seq<R.Key>, g: L.GitSync, key: R.Key, processedOk: bool): seq<R.Key>
  {
    if g.spec.cluster != clusterName then keys
    else if g.deleting then (if processedOk then R.Step(keys, R.Stop(key)) else keys)
    else if g.spec.valid then R.Step(keys, R.Start(key))
    else keys
  }

  /** Afterwards the key is watched exactly when the GitSync is valid and to be synced here,
      or was watched and is not one whose deletion was processed here; and the other keys
      are watched as before, in their order. */
  lemma WatchedAfterIs(
    clusterName: string, keys: seq<R.Key>, g: L.GitSync, key: R.Key, processedOk: bool)
    requires R.Distinct(keys)
    ensures var after, here := WatchedAfter(clusterName, keys, g, key, processedOk), g.spec.cluster == clusterName;
      && (key in after <==>
            || (here && !g.deleting && g.spec.valid)
            || (key in keys && !(here && g.deleting && processedOk)))
      && R.Except(after, key) == R.Except(keys, key)
  {
    R.OthersKeepOrder(keys, key);
    R.StepKeepsDistinct(keys, R.Start(key));
    R.StepKeepsDistinct(keys, R.Stop(key));
  }

  /** So a GitSync that comes out as Running is watched. */
  lemma RunningIsWatched(
    clusterName: string, keys: seq<R.Key>, name: string, g: L.GitSync, key: R.Key, processedOk: bool,
    first: int, now: int)
    requires R.Distinct(keys)
    requires var d := L.Reconciled(L.Config(clusterName, name, true), g, processedOk, first, now);
      d.Proceed? && d.next.status.phase == Running
    ensures key in WatchedAfter(clusterName, keys, g, key, processedOk)
  {
    WatchedAfterIs(clusterName, keys, g, key, processedOk);
  }

  class GitSyncReconciler {
    const clusterName: string
    const syncer: WatchList.Syncer?
    const client: Cascade.Client

    constructor (clusterName: string, syncer: WatchList.Syncer?, client: Cascade.Client)
      ensures this.clusterName == clusterName && this.syncer == syncer && this.client == client
    {
      this.clusterName, this.syncer, this.client := clusterName, syncer, client;
    }

    ghost function Watched(): set<object>
      reads if syncer == null then {} else {syncer.gitSyncList}
    {
      if syncer == null then {}
      else {syncer, syncer.gitSyncList} + set e | e in syncer.gitSyncList.ring
    }

    function ConfigFor(g: GitSyncObject): L.Config {
      L.Config(clusterName, g.name, syncer != null)
    }

    ghost predicate SyncerValid()
      reads Watched(), if syncer == null then {} else {syncer.gitSyncList}
    {
      syncer != null ==> syncer.Valid()
    }

    ghost function Keys(): seq<R.Key>
      requires SyncerValid()
      reads Watched(), if syncer == null then {} else {syncer.gitSyncList}
    {
      if syncer == null then [] else syncer.Keys()
    }

    /** Deletion processing, then StopWatching; without a syncer there is neither. */
    method Release(name: string, key: R.Key) returns (processedOk: bool)
      requires SyncerValid() && client !in Watched()
      modifies client, Watched()
      ensures SyncerValid()
      ensures syncer == null ==> processedOk && client.objects == old(client.objects)
      ensures syncer != null ==>
        && Cascade.Processed(old(client.objects), name, client.setting, client.objects, processedOk)
        && Keys() == if processedOk then R.Step(old(Keys()), R.Stop(key)) else old(Keys())
    {
      processedOk := true;
      if syncer != null {
        processedOk := client.ProcessGitSyncDeletion(name);
        if processedOk {
          syncer.StopWatching(key);
        }
      }
    }

    method Watch(key: R.Key)
      requires SyncerValid()
      modifies Watched()
      ensures SyncerValid() && (syncer != null ==> Keys() == R.Step(old(Keys()), R.Start(key)))
    {
      if syncer != null {
        syncer.StartWatching(key);
      }
    }

    /** The branch for a valid GitSync: the finalizer, the watch, and the phase. */
    method Guard(g: GitSyncObject, key: R.Key, now: int)
      requires SyncerValid() && {g, g.status} !! Watched()
      modifies g`finalizers, g.status, Watched()
      ensures g.finalizers == L.WithFinalizer(old(g.finalizers))
      ensures g.status.Value() == Apply(old(g.status.Value()), MarkRunning, now)
      ensures SyncerValid() && (syncer != null ==> Keys() == R.Step(old(Keys()), R.Start(key)))
    {
      g.finalizers := L.WithFinalizer(g.finalizers);
      Watch(key);
      g.status.MarkRunning(now);
    }

    /** The branch for a GitSync in deletion: the finalizer goes once processing succeeds. */
    method Drop(g: GitSyncObject, key: R.Key) returns (processedOk: bool)
      requires SyncerValid() && {g, g.status, client} !! Watched()
      modifies g`finalizers, client, Watched()
      ensures g.finalizers == if processedOk then L.WithoutFinalizer(old(g.finalizers)) else old(g.finalizers)
      ensures SyncerValid()
      ensures syncer == null ==> processedOk && client.objects == old(client.objects)
      ensures syncer != null ==>
        && Cascade.Processed(old(client.objects), g.name, client.setting, client.objects, processedOk)
        && Keys() == if processedOk then R.Step(old(Keys()), R.Stop(key)) else old(Keys())
    {
      processedOk := Release(g.name, key);
      if processedOk {
        g.finalizers := L.WithoutFinalizer(g.finalizers);
      }
    }

    /** InitConditions and reconcile, as specified by the decision on the object's value;
        `processedOk` is the outcome of deletion processing, where there is any. */
    method Reconcile(g: GitSyncObject, first: int, now: int) returns (ok: bool, processedOk: bool)
      requires SyncerValid() && {g, g.status, client} !! Watched()
      modifies g, g.status, client, Watched()
      ensures L.Processes(ConfigFor(g), old(g.Value())) ==>
                Cascade.Processed(old(client.objects), g.name, client.setting, client.objects, processedOk)
      ensures !L.Processes(ConfigFor(g), old(g.Value())) ==> client.objects == old(client.objects)
      ensures ok <==> L.Reconciled(ConfigFor(g), old(g.Value()), processedOk, first, now).Proceed?
      ensures ok ==> g.Value() == L.Reconciled(ConfigFor(g), old(g.Value()), processedOk, first, now).next
      ensures SyncerValid()
      ensures syncer != null ==>
        Keys() == WatchedAfter(clusterName, old(Keys()), old(g.Value()),
                               SyncRun.KeyOf(g.namespace, g.name), processedOk)
    {
      ok, processedOk := true, true;
      g.status.InitConditions(first);
      var key := SyncRun.KeyOf(g.namespace, g.name);
      if g.spec.cluster != clusterName {
        g.status.MarkNotApplicable(L.CLUSTER_MISMATCH, L.NO_DESTINATION, now);
      } else if g.deleting {
        processedOk := Drop(g, key);
        ok := processedOk;
      } else if !g.spec.valid {
        g.status.MarkFailed("InvalidSpec", "invalid", now);
        ok := false;
      } else {
        Guard(g, key, now);
      }
    }
  }
}
