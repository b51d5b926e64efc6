/** Cascade deletion: the live objects listed for a GitSync's name are deleted one by one,
    in no particular order, until one deletion fails. */
module Cascade {

  type ResourceKey = string

  /** The live objects, each with the GitSync name the cluster cache attributes to it; the
      name is empty for an object that carries no tracking label or has an owner. */
  type Cluster = map<ResourceKey, string>

  function Managed(cluster: Cluster, name: string): set<ResourceKey> {
    set k | k in cluster && cluster[k] == name
  }

  /** What deleting `listed` may do: all of it when no deletion fails, otherwise some part
      of it that contains no failing object. */
  ghost predicate Deleted(before: Cluster, listed: set<ResourceKey>, failing: set<ResourceKey>, after: Cluster, ok: bool) {
    && (ok <==> listed !! failing)
    && (ok ==> after == before - listed)
    && (exists done :: done <= listed - failing && after == before - done)
  }

  /** What deletion processing meets outside: whether the configuration and the cluster
      cache can be read, whether cascading is on, and which deletions the API server
      refuses. */
  datatype Setting = Setting(configOk: bool, cacheOk: bool, cascade: bool, failing: set<ResourceKey>)

  /** What ProcessGitSyncDeletion may do. */
  ghost predicate Processed(before: Cluster, name: string, setting: Setting, after: Cluster, ok: bool) {
    if !setting.configOk then !ok && after == before
    else if !setting.cascade then ok && after == before
    else if !setting.cacheOk then !ok && after == before
    else Deleted(before, Managed(before, name), setting.failing, after, ok)
  }

  /** The API client, as far as deletion sees it. */
  class Client {
    var objects: Cluster
    const setting: Setting

    constructor (objects: Cluster, setting: Setting)
      ensures this.objects == objects && this.setting == setting
    {
      this.objects, this.setting := objects, setting;
    }

    /** Deleting an object that is already absent succeeds. */
    method DeleteResource(k: ResourceKey) returns (ok: bool)
      modifies this
      ensures ok <==> k !in setting.failing
      ensures objects == if ok then old(objects) - {k} else old(objects)
    {
      ok := k !in setting.failing;
      if ok && k in objects {
        objects := objects - {k};
      }
    }

    method DeleteManagedObjects(objs: set<ResourceKey>) returns (ok: bool)
      modifies this
      ensures Deleted(old(objects), objs, setting.failing, objects, ok)
    {
      var rest := objs;
      ghost var done: set<ResourceKey> := {};
      while rest != {}
        invariant rest + done == objs && done !! setting.failing
        invariant objects == old(objects) - done
        decreases rest
      {
        var k :| k in rest;
        ok := DeleteResource(k);
        if !ok {
          assert done <= objs - setting.failing;
          return;
        }
        rest, done := rest - {k}, done + {k};
      }
      ok := true;
      assert done <= objs - setting.failing;
    }

    /** The live objects listed for a name, when the cluster cache can be read. */
    method ListManaged(name: string) returns (ok: bool, listed: set<ResourceKey>)
      ensures ok <==> setting.cacheOk
      ensures listed == if ok then Managed(objects, name) else {}
    {
      ok, listed := setting.cacheOk, {};
      if ok {
        listed := set k | k in objects && objects[k] == name;
      }
    }

    method CascadeDeletion(name: string) returns (ok: bool)
      modifies this
      ensures !setting.cacheOk ==> !ok && objects == old(objects)
      ensures setting.cacheOk ==> Deleted(old(objects), Managed(old(objects), name), setting.failing, objects, ok)
    {
      var listed;
      ok, listed := ListManaged(name);
      if ok {
        ok := DeleteManagedObjects(listed);
      }
    }

    method ProcessGitSyncDeletion(name: string) returns (ok: bool)
      modifies this
      ensures Processed(old(objects), name, setting, objects, ok)
    {
      if !setting.configOk {
        return false;
      }
      if setting.cascade {
        ok := CascadeDeletion(name);
        return;
      }
      ok := true;
    }
  }

  /** Deletion processing removes nothing but objects tracked under the name, and nothing at
      all when cascading is off or something cannot be read.  It succeeds exactly when the
      configuration can be read and, with cascading on, the cache too and no object tracked
      under the name is refused; and then none is left. */
  lemma CascadeScope(before: Cluster, name: string, setting: Setting, after: Cluster, ok: bool)
    requires Processed(before, name, setting, after, ok)
    ensures forall k :: k in before && before[k] != name ==> k in after && after[k] == before[k]
    ensures forall k :: k in after ==> k in before && after[k] == before[k]
    ensures !setting.configOk || !setting.cascade || !setting.cacheOk ==> after == before
    ensures ok <==>
      && setting.configOk
      && (setting.cascade ==>
            setting.cacheOk && forall k :: k in before && before[k] == name ==> k !in setting.failing)
    ensures setting.configOk && setting.cascade && setting.cacheOk ==>
      (ok <==> forall k :: k in after ==> after[k] != name)
  {
    if setting.configOk && setting.cascade && setting.cacheOk {
      forall k | k in before && before[k] == name ensures k in Managed(before, name) {
      }
      if !ok {
        var k :| k in Managed(before, name) && k in setting.failing;
        assert k in after && after[k] == name;
      }
    }
  }

  /** A failed deletion can be retried: once everything can be read and nothing fails any
      more, the next attempt leaves what a single successful one would have left. */
  lemma RetryCompletes(
    before: Cluster, name: string, first: Setting, between: Cluster, next: Setting, after: Cluster, ok: bool)
    requires Processed(before, name, first, between, false)
    requires Processed(between, name, next, after, ok)
    requires next.configOk && next.cacheOk && next.cascade && next.failing == {}
    ensures ok && forall k :: k in after <==> k in before && before[k] != name
    ensures forall k :: k in after ==> after[k] == before[k]
  {
    var done :| done <= Managed(before, name) && between == before - done;
    assert Managed(between, name) == Managed(before, name) - done;
  }
}
