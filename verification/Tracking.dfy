/** How a manifest comes to belong to a GitSync: the tracking label written into it before
    it is applied, and the name the cluster cache reads back from a live object. */
module Tracking {
  import opened Text
  import opened Json
  import opened Normalizer
  import Cascade

  const LABEL := "numaplane.numaproj.io/tracking-id"
  const METADATA := "metadata"
  const LABELS := "labels"
  const NAMESPACE := "namespace"

  /** The labels of an object: none, a map of strings, or something that is no such map. */
  datatype Labels = NoLabels | Labels(values: map<string, string>) | Malformed

  function MemberOf(d: Json, t: string): Json {
    if d.Object? && t in d.members then d.members[t] else Null
  }

  predicate AllStrings(members: map<string, Json>) {
    forall k :: k in members ==> members[k].String?
  }

  function LabelsOf(d: Json): Labels {
    var metadata := MemberOf(d, METADATA);
    if metadata.Null? then NoLabels
    else if !metadata.Object? then Malformed
    else match MemberOf(metadata, LABELS)
      case Null => NoLabels
      case Object(members) =>
        if AllStrings(members) then Labels(map k | k in members :: members[k].s) else Malformed
      case _ => Malformed
  }

  /** GetGitSyncInstanceLabel; an error reads as nothing. */
  function GetLabel(d: Json, key: string): Option<string> {
    match LabelsOf(d)
    case NoLabels => Some("")
    case Labels(values) => Some(if key in values then values[key] else "")
    case Malformed => None
  }

  /** Writing a field of the metadata; a metadata that is there but is no object makes the
      write fail silently. */
  function WithMetadata(d: Json, t: string, v: Json): Json
    requires d.Object?
  {
    if METADATA !in d.members then Object(d.members[METADATA := Object(map[t := v])])
    else match d.members[METADATA]
      case Object(members) => Object(d.members[METADATA := Object(members[t := v])])
      case _ => d
  }

  function WithoutMetadata(d: Json, t: string): Json
    requires d.Object?
  {
    match MemberOf(d, METADATA)
    case Object(members) => Object(d.members[METADATA := Object(members - {t})])
    case _ => d
  }

  function SetLabel(d: Json, key: string, val: string): Option<Json>
    requires d.Object?
  {
    match LabelsOf(d)
    case Malformed => None
    case labels =>
      var values := (if labels.Labels? then labels.values else map[])[key := val];
      Some(WithMetadata(d, LABELS, Object(map k | k in values :: String(values[k]))))
  }

  function SetNamespace(d: Json, namespace: string): Json
    requires d.Object?
  {
    if namespace == "" then WithoutMetadata(d, NAMESPACE) else WithMetadata(d, NAMESPACE, String(namespace))
  }

  function Relabelled(d: Json, name: string, namespace: string): Option<Json>
    requires d.Object?
  {
    match SetLabel(d, LABEL, name)
    case None => None
    case Some(r) => Some(SetNamespace(r, namespace))
  }

  /** The metadata is an object, or absent. */
  predicate Writable(d: Json)
    requires d.Object?
  {
    METADATA in d.members ==> d.members[METADATA].Object?
  }

  lemma LabelsAfterSet(d: Json, key: string, val: string)
    requires d.Object? && Writable(d) && SetLabel(d, key, val).Some?
    ensures var r := SetLabel(d, key, val).value;
      && r.Object? && Writable(r)
      && LabelsOf(r) == Labels((if LabelsOf(d).Labels? then LabelsOf(d).values else map[])[key := val])
  {
    var r := SetLabel(d, key, val).value;
    var values := (if LabelsOf(d).Labels? then LabelsOf(d).values else map[])[key := val];
    var members := MemberOf(MemberOf(r, METADATA), LABELS).members;
    assert members == map k | k in values :: String(values[k]);
    assert values == map k | k in members :: members[k].s;
  }

  lemma LabelsAfterNamespace(d: Json, namespace: string)
    requires d.Object?
    ensures SetNamespace(d, namespace).Object?
    ensures Writable(d) ==> Writable(SetNamespace(d, namespace))
    ensures LabelsOf(SetNamespace(d, namespace)) == LabelsOf(d)
  {
  }

  /** Relabelling fails exactly on malformed labels.  Otherwise the object then carries the
      given name, keeps every other label, and shows the same as before wherever a path
      does not enter its metadata. */
  lemma RelabelledIsTracked(d: Json, name: string, namespace: string)
    requires d.Object? && Writable(d)
    ensures Relabelled(d, name, namespace).None? <==> LabelsOf(d).Malformed?
    ensures Relabelled(d, name, namespace).Some? ==>
      var r := Relabelled(d, name, namespace).value;
      && r.Object?
      && GetLabel(r, LABEL) == Some(name)
      && (forall key :: key != LABEL ==> GetLabel(r, key) == GetLabel(d, key))
      && (forall q: Path :: q != [] && q[0] != METADATA ==> At(r, q) == At(d, q))
  {
    if Relabelled(d, name, namespace).Some? {
      LabelsAfterSet(d, LABEL, name);
      var s := SetLabel(d, LABEL, name).value;
      LabelsAfterNamespace(s, namespace);
      var r := Relabelled(d, name, namespace).value;
      forall q: Path | q != [] && q[0] != METADATA ensures At(r, q) == At(d, q) {
        AtCons(r, q);
        AtCons(d, q);
      }
    }
  }

  const LABEL_AT := [METADATA, LABELS, LABEL]
  const NAMESPACE_AT := [METADATA, NAMESPACE]

  /** The relabelled object shows the name and the namespace at their paths, no namespace when
      it is empty, and everything else as the original does.  Only the two objects on the way
      to the label may be new. */
  ghost predicate ShowsAs(r: Json, d: Json, name: string, namespace: string) {
    && Resolve(r, LABEL_AT) == Some(String(name))
    && Resolve(r, NAMESPACE_AT) == (if namespace == "" then None else Some(String(namespace)))
    && (forall q: Path ::
          !(LABEL_AT <= q) && !(NAMESPACE_AT <= q) && q != [METADATA] && q != [METADATA, LABELS] ==>
            At(r, q) == At(d, q))
  }

  function MembersOf(d: Json): map<string, Json> {
    if d.Object? then d.members else map[]
  }

  /** The metadata of a relabelled object. */
  lemma RelabelledMetadata(d: Json, name: string, namespace: string)
    requires d.Object? && Writable(d) && Relabelled(d, name, namespace).Some?
    ensures var r, before := Relabelled(d, name, namespace).value, MembersOf(MemberOf(d, METADATA));
      && r.Object? && METADATA in r.members && r.members[METADATA].Object?
      && r.members == d.members[METADATA := r.members[METADATA]]
      && var after := r.members[METADATA].members;
         && LABELS in after && after[LABELS].Object?
         && (forall t :: t != LABELS && t != NAMESPACE ==>
               (t in after <==> t in before) && (t in before ==> after[t] == before[t]))
         && (NAMESPACE in after <==> namespace != "")
         && (namespace != "" ==> after[NAMESPACE] == String(namespace))
  {
    var before := MembersOf(MemberOf(d, METADATA));
    var s, r := SetLabel(d, LABEL, name).value, Relabelled(d, name, namespace).value;
    assert s.members[METADATA].members == before[LABELS := s.members[METADATA].members[LABELS]];
    assert r.members == d.members[METADATA := r.members[METADATA]];
  }

  /** Its labels. */
  lemma RelabelledLabels(d: Json, name: string, namespace: string)
    requires d.Object? && Writable(d) && Relabelled(d, name, namespace).Some?
    ensures var r := Relabelled(d, name, namespace).value;
      var before := MembersOf(MemberOf(MemberOf(d, METADATA), LABELS));
      var after := MembersOf(MemberOf(MemberOf(r, METADATA), LABELS));
      && LABEL in after && after[LABEL] == String(name)
      && (forall t :: t != LABEL ==> (t in after <==> t in before) && (t in before ==> after[t] == before[t]))
  {
    var s, r := SetLabel(d, LABEL, name).value, Relabelled(d, name, namespace).value;
    assert MemberOf(MemberOf(r, METADATA), LABELS) == MemberOf(MemberOf(s, METADATA), LABELS);
  }

  lemma RelabelledShows(d: Json, name: string, namespace: string)
    requires d.Object? && Writable(d) && Relabelled(d, name, namespace).Some?
    ensures ShowsAs(Relabelled(d, name, namespace).value, d, name, namespace)
  {
    var r := Relabelled(d, name, namespace).value;
    RelabelledMetadata(d, name, namespace);
    RelabelledLabels(d, name, namespace);
    var after := r.members[METADATA];
    assert LABEL_AT[1..] == [LABELS, LABEL] && [LABELS, LABEL][1..] == [LABEL] && [LABEL][1..] == [];
    assert NAMESPACE_AT[1..] == [NAMESPACE] && [NAMESPACE][1..] == [];
    assert Resolve(after.members[LABELS], [LABEL]) == Some(String(name));
    assert Resolve(after, [LABELS, LABEL]) == Some(String(name));
    assert Resolve(after, [NAMESPACE]) == if namespace == "" then None else Some(String(namespace));
    forall q: Path | !(LABEL_AT <= q) && !(NAMESPACE_AT <= q) && q != [METADATA] && q != [METADATA, LABELS]
      ensures At(r, q) == At(d, q)
    {
      RelabelledShowsAt(d, name, namespace, q);
    }
  }

  lemma RelabelledShowsAt(d: Json, name: string, namespace: string, q: Path)
    requires d.Object? && Writable(d) && Relabelled(d, name, namespace).Some?
    requires !(LABEL_AT <= q) && !(NAMESPACE_AT <= q) && q != [METADATA] && q != [METADATA, LABELS]
    ensures At(Relabelled(d, name, namespace).value, q) == At(d, q)
  {
    var r := Relabelled(d, name, namespace).value;
    RelabelledMetadata(d, name, namespace);
    if q != [] {
      AtCons(r, q);
      AtCons(d, q);
      if q[0] == METADATA {
        MetadataShowsAt(d, name, namespace, q);
      }
    }
  }

  lemma MetadataShowsAt(d: Json, name: string, namespace: string, q: Path)
    requires d.Object? && Writable(d) && Relabelled(d, name, namespace).Some? && q != [] && q[0] == METADATA
    requires !(LABEL_AT <= q) && !(NAMESPACE_AT <= q) && q != [METADATA] && q != [METADATA, LABELS]
    ensures At(Relabelled(d, name, namespace).value, q) == At(d, q)
  {
    var r := Relabelled(d, name, namespace).value;
    RelabelledMetadata(d, name, namespace);
    RelabelledLabels(d, name, namespace);
    assert |q| > 1 by {
      assert q == [q[0]] + q[1..];
    }
    var before, after, p := MemberOf(d, METADATA), r.members[METADATA], q[1..];
    AtCons(r, q);
    AtCons(d, q);
    AtCons(before, p);
    AtCons(after, p);
    if p[0] == LABELS {
      assert |p| > 1 by {
        assert q == [q[0], q[1]] + q[2..];
      }
      AtCons(MemberOf(before, LABELS), p[1..]);
      AtCons(after.members[LABELS], p[1..]);
      assert p[1] != LABEL by {
        assert q[2] == p[1];
      }
    } else {
      assert p[0] != NAMESPACE by {
        assert q[1] == p[0];
      }
    }
  }

  /** Relabelling fails exactly when the metadata is neither an object nor null, or has labels
      that are neither null nor an object of strings. */
  lemma RelabelFailsIff(d: Json, name: string, namespace: string)
    requires d.Object?
    ensures Relabelled(d, name, namespace).None? <==>
      && METADATA in d.members
      && var metadata := d.members[METADATA];
         && !metadata.Null?
         && (metadata.Object? ==>
               && LABELS in metadata.members
               && var labels := metadata.members[LABELS];
                  !labels.Null? && !(labels.Object? && forall t :: t in labels.members ==> labels.members[t].String?))
  {
  }

  /** The write is lost, without an error, exactly when the metadata is present and null. */
  lemma LabelLostIff(d: Json, name: string, namespace: string)
    requires d.Object? && name != "" && Relabelled(d, name, namespace).Some?
    ensures GetLabel(Relabelled(d, name, namespace).value, LABEL) != Some(name)
            <==> METADATA in d.members && d.members[METADATA].Null?
  {
    if Writable(d) {
      RelabelledIsTracked(d, name, namespace);
    }
  }

  // ----- In place -----

  lemma SetLabelTwice(d: Json, key: string, val: string)
    requires d.Object? && LabelsOf(d).Labels?
    requires key in LabelsOf(d).values && LabelsOf(d).values[key] == val
    ensures SetLabel(d, key, val) == Some(d)
  {
    var metadata, values := MemberOf(d, METADATA), LabelsOf(d).values;
    var labels := MemberOf(metadata, LABELS);
    assert values[key := val] == values;
    assert labels.members == map k | k in values :: String(values[k]);
    assert metadata.members[LABELS := labels] == metadata.members;
    assert d.members[METADATA := metadata] == d.members;
  }

  lemma SetNamespaceTwice(d: Json, namespace: string)
    requires d.Object?
    ensures SetNamespace(d, namespace).Object?
    ensures SetNamespace(SetNamespace(d, namespace), namespace) == SetNamespace(d, namespace)
  {
    var r := SetNamespace(d, namespace);
    var u := SetNamespace(r, namespace);
    assert MemberOf(r, METADATA).Object? ==>
      MemberOf(u, METADATA).members == MemberOf(r, METADATA).members;
    assert u.members == r.members;
  }

  lemma RelabelTwice(d: Json, name: string, namespace: string)
    requires d.Object? && Relabelled(d, name, namespace).Some?
    ensures var r := Relabelled(d, name, namespace).value;
      r.Object? && Relabelled(r, name, namespace) == Some(r)
  {
    var s := SetLabel(d, LABEL, name).value;
    LabelsAfterNamespace(s, namespace);
    SetNamespaceTwice(s, namespace);
    if Writable(d) {
      LabelsAfterSet(d, LABEL, name);
      SetLabelTwice(SetNamespace(s, namespace), LABEL, name);
    }
  }

  /** The manifests are relabelled one after another; the first with malformed labels stops
      the loop, and those before it stay changed. */
  method ApplyLabelAndNamespace(manifests: seq<Unstructured>, name: string, namespace: string) returns (ok: bool)
    requires forall m | m in manifests :: m.content.Object?
    modifies manifests
    ensures ok <==> forall m | m in manifests :: !old(LabelsOf(m.content)).Malformed?
    ensures ok ==> forall m | m in manifests :: Some(m.content) == Relabelled(old(m.content), name, namespace)
    ensures forall m | m in manifests :: m.content == old(m.content)
              || Some(m.content) == Relabelled(old(m.content), name, namespace)
    ensures ok ==> forall m | m in manifests && Writable(old(m.content)) ::
              ShowsAs(m.content, old(m.content), name, namespace)
  {
    for i := 0 to |manifests|
      invariant forall m | m in manifests[..i] :: Some(m.content) == Relabelled(old(m.content), name, namespace)
      invariant forall m | m in manifests && m !in manifests[..i] :: m.content == old(m.content)
      invariant forall m | m in manifests[..i] :: !old(LabelsOf(m.content)).Malformed? && m.content.Object?
    {
      var m := manifests[i];
      assert manifests[..i + 1] == manifests[..i] + [m];
      if m in manifests[..i] {
        RelabelTwice(old(m.content), name, namespace);
      } else {
        assert m.content == old(m.content);
      }
      match Relabelled(m.content, name, namespace) {
        case None => return false;
        case Some(r) =>
          RelabelTwice(m.content, name, namespace);
          m.content := r;
      }
    }
    assert manifests[..|manifests|] == manifests;
    forall m | m in manifests && Writable(old(m.content)) ensures ShowsAs(m.content, old(m.content), name, namespace) {
      RelabelledShows(old(m.content), name, namespace);
    }
    ok := true;
  }

  // ----- What the cluster cache makes of it -----

  datatype Live = Live(content: Json, root: bool)

  /** The name PopulateResourceInfo records; an object that has an owner gets none. */
  function RecordedName(r: Live): string {
    if r.root && GetLabel(r.content, LABEL).Some? then GetLabel(r.content, LABEL).value else ""
  }

  function ClusterOf(objects: map<Cascade.ResourceKey, Live>): Cascade.Cluster {
    map k | k in objects :: RecordedName(objects[k])
  }

  /** A live object is listed for a name exactly when it has no owner, its labels are an
      object of strings, and the tracking label among them is the name. */
  lemma ListedIff(objects: map<Cascade.ResourceKey, Live>, k: Cascade.ResourceKey, name: string)
    requires k in objects && name != ""
    ensures k in Cascade.Managed(ClusterOf(objects), name) <==>
      && objects[k].root
      && Resolve(objects[k].content, LABEL_AT) == Some(String(name))
      && var labels := Resolve(objects[k].content, [METADATA, LABELS]);
         labels.Some? && labels.value.Object?
         && forall t :: t in labels.value.members ==> labels.value.members[t].String?
  {
    LabelsResolve(objects[k].content);
  }

  lemma ChildIsMember(d: Json, t: string)
    requires t != "" && !Digit(t[0])
    ensures Child(d, t) == if d.Object? && t in d.members then Some(d.members[t]) else None
  {
    assert t[0] in t && Index(t).None?;
  }

  /** What the paths to the labels and to the tracking label resolve to. */
  lemma LabelsResolve(d: Json)
    ensures var metadata, labels := MemberOf(d, METADATA), MemberOf(MemberOf(d, METADATA), LABELS);
      && Resolve(d, [METADATA, LABELS])
         == (if metadata.Object? && LABELS in metadata.members then Some(labels) else None)
      && Resolve(d, LABEL_AT)
         == (if labels.Object? && LABEL in labels.members then Some(labels.members[LABEL]) else None)
  {
    var metadata, labels := MemberOf(d, METADATA), MemberOf(MemberOf(d, METADATA), LABELS);
    ChildIsMember(d, METADATA);
    ChildIsMember(metadata, LABELS);
    ChildIsMember(labels, LABEL);
    ResolveThree(d, METADATA, LABELS, LABEL);
  }

  lemma ResolveThree(d: Json, t: string, u: string, v: string)
    ensures var c := Child(d, t); var e := if c.Some? then Child(c.value, u) else None;
      && Resolve(d, [t, u]) == e
      && Resolve(d, [t, u, v]) == if e.Some? then Child(e.value, v) else None
  {
    assert [t, u] == [t] + [u] && [t, u, v] == [t] + [u, v];
    ResolveCons(d, t, [u]);
    ResolveCons(d, t, [u, v]);
    if Child(d, t).Some? {
      var c := Child(d, t).value;
      assert [u] == [u] + [] && [u, v] == [u] + [v] && [v] == [v] + [];
      ResolveCons(c, u, []);
      ResolveCons(c, u, [v]);
      if Child(c, u).Some? {
        ResolveCons(Child(c, u).value, v, []);
      }
    }
  }

  lemma ResolveCons(d: Json, t: string, p: Path)
    ensures Resolve(d, [t] + p) == match Child(d, t) case None => None case Some(c) => Resolve(c, p)
  {
    assert ([t] + p)[1..] == p;
  }

  /** An object applied for one GitSync is listed for deletion with every GitSync of the
      same name, whatever the namespaces, and with no other. */
  lemma ListedByNameAlone(
    objects: map<Cascade.ResourceKey, Live>, k: Cascade.ResourceKey, d: Json, name: string, namespace: string, other: string)
    requires d.Object? && Writable(d) && Relabelled(d, name, namespace).Some?
    requires k in objects && objects[k] == Live(Relabelled(d, name, namespace).value, true)
    ensures k in Cascade.Managed(ClusterOf(objects), other) <==> other == name
  {
    RelabelledIsTracked(d, name, namespace);
  }
}
