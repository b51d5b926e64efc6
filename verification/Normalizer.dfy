/** The ignore-differences normalizer: overrides become patches, and the patches that match
    a resource are applied to it one after another. */
module Normalizer {
  import opened Text
  import opened Json
  import opened Elements

  // ----- JSON pointers (RFC 6901, section 3) -----

  function Escape(t: string): string {
    if t == "" then ""
    else (if t[0] == '~' then "~0" else if t[0] == '/' then "~1" else [t[0]]) + Escape(t[1..])
  }

  /** Left to right; a tilde that starts no escape stands for itself. */
  function Unescape(t: string): string {
    if t == "" then ""
    else if |t| > 1 && t[0] == '~' && t[1] == '0' then "~" + Unescape(t[2..])
    else if |t| > 1 && t[0] == '~' && t[1] == '1' then "/" + Unescape(t[2..])
    else [t[0]] + Unescape(t[1..])
  }

  function Map(f: string -> string, ts: seq<string>): (r: seq<string>)
    ensures |r| == |ts| && forall i :: 0 <= i < |r| ==> r[i] == f(ts[i])
  {
    if ts == [] then [] else [f(ts[0])] + Map(f, ts[1..])
  }

  /** The path a pointer names.  The empty pointer names the whole document; so, for the
      purpose of removal, does text that is no pointer: neither is ever removed. */
  function PathOf(pointer: string): Path {
    if pointer == "" || pointer[0] != '/' then [] else Map(Unescape, Split(pointer[1..], '/'))
  }

  function PointerTo(p: Path): string {
    if p == [] then "" else "/" + Join(Map(Escape, p), '/')
  }

  lemma {:induction false} EscapeRoundTrip(t: string)
    ensures Unescape(Escape(t)) == t && '/' !in Escape(t)
  {
    if t != "" {
      var head := if t[0] == '~' then "~0" else if t[0] == '/' then "~1" else [t[0]];
      var rest := Escape(t[1..]);
      EscapeRoundTrip(t[1..]);
      assert Escape(t) == head + rest;
      if |head| == 2 {
        assert Escape(t)[2..] == rest;
      } else {
        assert Escape(t)[1..] == rest;
      }
    }
  }

  /** Every path has a pointer that names it, whatever its tokens contain. */
  lemma PointerRoundTrip(p: Path)
    ensures PathOf(PointerTo(p)) == p
  {
    if p != [] {
      var ts := Map(Escape, p);
      forall i | 0 <= i < |p| ensures '/' !in ts[i] && Unescape(ts[i]) == p[i] {
        EscapeRoundTrip(p[i]);
      }
      SplitJoin(ts, '/');
      assert PointerTo(p)[1..] == Join(ts, '/');
    }
  }

  /** Text without a tilde is left alone, whatever follows it. */
  lemma {:induction false} UnescapeAfter(a: string, x: string)
    requires '~' !in a
    ensures Unescape(a + x) == a + Unescape(x)
  {
    if a == "" {
      assert a + x == x;
    } else {
      UnescapeAfter(a[1..], x);
      AppendTail(a, x);
      AppendAssociates([a[0]], a[1..], Unescape(x));
      assert a == [a[0]] + a[1..];
    }
  }

  /** The two escapes mean what the standard says, and any other tilde stands for itself. */
  lemma UnescapeMeans(a: string, c: char, b: string)
    requires '~' !in a
    ensures Unescape(a + (['~', c] + b))
            == a + if c == '0' then ['~'] + Unescape(b)
                   else if c == '1' then ['/'] + Unescape(b)
                   else ['~'] + Unescape([c] + b)
    ensures Unescape(a) == a
  {
    UnescapeAfter(a, ['~', c] + b);
    assert (['~', c] + b)[2..] == b && (['~', c] + b)[1..] == [c] + b;
    UnescapeAfter(a, "");
    assert a + "" == a;
  }

  /** Text that is no pointer, like the pointer to the whole document, removes nothing. */
  lemma NoPointerRemovesNothing(pointer: string, d: Json)
    requires pointer == "" || pointer[0] != '/'
    ensures Apply(d, PathOf(pointer)) == d
  {
  }

  // ----- Overrides and patches -----

  lemma SplitSlash(left: string, right: string)
    requires '/' !in left && '/' !in right
    ensures Split(left + ['/'] + right, '/') == [left, right]
  {
    SplitAppend(left, right, '/');
    SplitClean(left, '/');
    SplitClean(right, '/');
  }

  /** The pointers to ignore, by override key: "group/kind", or "kind" alone. */
  type Overrides = map<string, seq<string>>

  datatype Ignore = Ignore(group: string, kind: string, pointers: seq<string>)

  datatype Patch = Patch(group: string, kind: string, path: Path)

  /** A malformed key is reported and then taken for the empty group and kind. */
  function GroupKindOfKey(key: string): (string, string) {
    var parts := Split(key, '/');
    if |parts| == 2 then (parts[0], parts[1])
    else if |parts| == 1 then ("", parts[0])
    else ("", "")
  }

  /** What a key says: group and kind, or the kind alone, or nothing. */
  lemma KeySays(group: string, kind: string, parts: seq<string>)
    requires '/' !in group && '/' !in kind && forall p | p in parts :: '/' !in p
    ensures GroupKindOfKey(group + ['/'] + kind) == (group, kind) && GroupKindOfKey(kind) == ("", kind)
    ensures |parts| > 2 ==> GroupKindOfKey(Join(parts, '/')) == ("", "")
  {
    SplitSlash(group, kind);
    SplitClean(kind, '/');
    if |parts| > 2 {
      SplitJoin(parts, '/');
    }
  }

  function IgnoreOf(overrides: Overrides, key: string): Ignore
    requires key in overrides
  {
    var (group, kind) := GroupKindOfKey(key);
    Ignore(group, kind, overrides[key])
  }

  /** The patches are exactly those that some override asks for. */
  ghost predicate PatchesOf(overrides: Overrides, patches: seq<Patch>) {
    forall p :: p in patches <==> Asked(overrides, p)
  }

  ghost predicate Asked(overrides: Overrides, p: Patch) {
    exists key, pointer :: key in overrides && pointer in overrides[key]
      && p == Patch(GroupKindOfKey(key).0, GroupKindOfKey(key).1, PathOf(pointer))
  }

  /** The patches for one list of pointers, in order. */
  function PatchList(group: string, kind: string, pointers: seq<string>): seq<Patch> {
    if pointers == [] then []
    else
      var n := |pointers| - 1;
      PatchList(group, kind, pointers[..n]) + [Patch(group, kind, PathOf(pointers[n]))]
  }

  function BuiltFrom(ignores: seq<Ignore>): seq<Patch> {
    if ignores == [] then []
    else
      var n := |ignores| - 1;
      BuiltFrom(ignores[..n]) + PatchList(ignores[n].group, ignores[n].kind, ignores[n].pointers)
  }

  /** An order in which the keys of the overrides can be visited. */
  ghost predicate OrderOf(overrides: Overrides, order: seq<string>) {
    && (forall key :: key in order <==> key in overrides)
    && (forall i, j :: 0 <= i < j < |order| ==> order[i] != order[j])
  }

  /** The patches that come of visiting keys of the overrides in a given order. */
  function Visited(overrides: Overrides, order: seq<string>): seq<Patch>
    requires forall key | key in order :: key in overrides
  {
    if order == [] then []
    else
      var n := |order| - 1;
      var g := IgnoreOf(overrides, order[n]);
      Visited(overrides, order[..n]) + PatchList(g.group, g.kind, g.pointers)
  }

  lemma {:induction false} PatchListMembers(group: string, kind: string, pointers: seq<string>, p: Patch)
    ensures p in PatchList(group, kind, pointers)
            <==> exists pointer :: pointer in pointers && p == Patch(group, kind, PathOf(pointer))
  {
    if pointers != [] {
      var n := |pointers| - 1;
      PatchListMembers(group, kind, pointers[..n], p);
      assert pointers == pointers[..n] + [pointers[n]];
    }
  }

  ghost predicate AskedBy(overrides: Overrides, key: string, p: Patch)
    requires key in overrides
  {
    var g := IgnoreOf(overrides, key);
    exists pointer :: pointer in g.pointers && p == Patch(g.group, g.kind, PathOf(pointer))
  }

  ghost predicate AskedIn(overrides: Overrides, order: seq<string>, p: Patch)
    requires forall key | key in order :: key in overrides
  {
    exists key :: key in order && AskedBy(overrides, key, p)
  }

  lemma AskedInLast(overrides: Overrides, front: seq<string>, last: string, p: Patch)
    requires (forall key | key in front :: key in overrides) && last in overrides
    ensures AskedIn(overrides, front + [last], p) <==> AskedIn(overrides, front, p) || AskedBy(overrides, last, p)
  {
    if AskedIn(overrides, front, p) {
      var key :| key in front && AskedBy(overrides, key, p);
      assert key in front + [last];
    }
    assert last in front + [last];
  }

  lemma {:induction false} VisitedMembers(overrides: Overrides, order: seq<string>, p: Patch)
    requires forall key | key in order :: key in overrides
    ensures p in Visited(overrides, order) <==> AskedIn(overrides, order, p)
  {
    if order != [] {
      var front, last := order[..|order| - 1], order[|order| - 1];
      var g := IgnoreOf(overrides, last);
      assert order == front + [last];
      VisitedMembers(overrides, front, p);
      PatchListMembers(g.group, g.kind, g.pointers, p);
      AskedInLast(overrides, front, last, p);
    }
  }

  /** Whatever the order, the patches are exactly those that some override asks for. */
  lemma VisitedIsPatchesOf(overrides: Overrides, order: seq<string>)
    requires OrderOf(overrides, order)
    ensures PatchesOf(overrides, Visited(overrides, order))
  {
    forall p ensures p in Visited(overrides, order) <==> Asked(overrides, p) {
      VisitedMembers(overrides, order, p);
      if Asked(overrides, p) {
        var key, pointer :| key in overrides && pointer in overrides[key]
          && p == Patch(GroupKindOfKey(key).0, GroupKindOfKey(key).1, PathOf(pointer));
        assert key in order && AskedBy(overrides, key, p);
      }
      if AskedIn(overrides, order, p) {
        var key :| key in order && AskedBy(overrides, key, p);
        var g := IgnoreOf(overrides, key);
        var pointer :| pointer in g.pointers && p == Patch(g.group, g.kind, PathOf(pointer));
        assert pointer in overrides[key];
      }
    }
  }

  lemma VisitedAppend(overrides: Overrides, order: seq<string>, key: string)
    requires (forall k | k in order :: k in overrides) && key in overrides
    ensures var g := IgnoreOf(overrides, key);
      Visited(overrides, order + [key]) == Visited(overrides, order) + PatchList(g.group, g.kind, g.pointers)
  {
    assert (order + [key])[..|order|] == order;
  }

  /** The overrides are visited in an arbitrary order. */
  method NewIgnoreNormalizer(overrides: Overrides) returns (patches: seq<Patch>)
    ensures PatchesOf(overrides, patches)
    ensures exists order :: OrderOf(overrides, order) && patches == Visited(overrides, order)
  {
    var ignores: seq<Ignore> := [];
    var rest := overrides.Keys;
    ghost var order: seq<string> := [];
    while rest != {}
      invariant rest <= overrides.Keys
      invariant forall key :: key in order <==> key in overrides && key !in rest
      invariant forall i, j :: 0 <= i < j < |order| ==> order[i] != order[j]
      invariant BuiltFrom(ignores) == Visited(overrides, order)
      decreases rest
    {
      var key :| key in rest;
      var (group, kind) := GroupKindOfKey(key);
      VisitedAppend(overrides, order, key);
      if |overrides[key]| > 0 {
        ghost var before := ignores;
        ignores := ignores + [Ignore(group, kind, overrides[key])];
        assert ignores[..|before|] == before;
      }
      rest := rest - {key};
      order := order + [key];
    }
    patches := BuildPatches(ignores);
    VisitedIsPatchesOf(overrides, order);
  }

  method BuildPatches(ignores: seq<Ignore>) returns (patches: seq<Patch>)
    ensures patches == BuiltFrom(ignores)
  {
    patches := [];
    for i := 0 to |ignores|
      invariant patches == BuiltFrom(ignores[..i])
    {
      var g := ignores[i];
      for j := 0 to |g.pointers|
        invariant patches == BuiltFrom(ignores[..i]) + PatchList(g.group, g.kind, g.pointers[..j])
      {
        assert g.pointers[..j + 1][..j] == g.pointers[..j];
        patches := patches + [Patch(g.group, g.kind, PathOf(g.pointers[j]))];
      }
      assert g.pointers[..|g.pointers|] == g.pointers;
      assert ignores[..i + 1][..i] == ignores[..i];
    }
    assert ignores[..|ignores|] == ignores;
  }

  // ----- Normalization -----

  /** The pattern matcher for groups and kinds. */
  type Glob = (string, string) -> bool

  function TextAt(d: Json, p: Path): string {
    match Resolve(d, p)
    case Some(String(s)) => s
    case _ => ""
  }

  /** A malformed apiVersion leaves both group and kind empty. */
  function GroupKind(d: Json): (string, string) {
    var parts, kind := Split(TextAt(d, ["apiVersion"]), '/'), TextAt(d, ["kind"]);
    if |parts| == 1 then ("", kind) else if |parts| == 2 then (parts[0], kind) else ("", "")
  }

  /** What a resource says: a version without a group stands for the empty group, and a
      malformed one hides the kind too. */
  lemma ResourceSays(d: Json, group: string, version: string, parts: seq<string>)
    requires '/' !in group && '/' !in version && forall p | p in parts :: '/' !in p
    ensures TextAt(d, ["apiVersion"]) == group + ['/'] + version ==> GroupKind(d) == (group, TextAt(d, ["kind"]))
    ensures TextAt(d, ["apiVersion"]) == version ==> GroupKind(d) == ("", TextAt(d, ["kind"]))
    ensures |parts| > 2 && TextAt(d, ["apiVersion"]) == Join(parts, '/') ==> GroupKind(d) == ("", "")
  {
    SplitSlash(group, version);
    SplitClean(version, '/');
    if |parts| > 2 {
      SplitJoin(parts, '/');
    }
  }

  predicate Matches(glob: Glob, p: Patch, d: Json) {
    var (group, kind) := GroupKind(d);
    glob(p.group, group) && glob(p.kind, kind)
  }

  function Matched(glob: Glob, patches: seq<Patch>, d: Json): seq<Path> {
    if patches == [] then []
    else
      var n := |patches| - 1;
      Matched(glob, patches[..n], d) + if Matches(glob, patches[n], d) then [patches[n].path] else []
  }

  function Normalized(glob: Glob, patches: seq<Patch>, d: Json): Json {
    ApplyAll(d, Matched(glob, patches, d))
  }

  class Unstructured {
    var content: Json

    constructor (content: Json)
      ensures this.content == content
    {
      this.content := content;
    }
  }

  class IgnoreNormalizer {
    const patches: seq<Patch>
    const glob: Glob

    constructor (patches: seq<Patch>, glob: Glob)
      ensures this.patches == patches && this.glob == glob
    {
      this.patches, this.glob := patches, glob;
    }

    method Normalize(un: Unstructured?) returns (ok: bool)
      modifies un
      ensures ok <==> un != null
      ensures un != null ==> un.content == Normalized(glob, patches, old(un.content))
    {
      if un == null {
        return false;
      }
      var matched: seq<Path> := [];
      for i := 0 to |patches|
        invariant matched == Matched(glob, patches[..i], un.content) && un.content == old(un.content)
      {
        assert patches[..i + 1][..i] == patches[..i];
        if Matches(glob, patches[i], un.content) {
          matched := matched + [patches[i].path];
        }
      }
      assert patches[..|patches|] == patches;
      if matched == [] {
        return true;
      }
      var doc := un.content;
      for i := 0 to |matched|
        invariant ApplyAll(doc, matched[i..]) == ApplyAll(old(un.content), matched)
      {
        match Remove(doc, matched[i]) {
          case None =>
          case Some(patched) => doc := patched;
        }
      }
      un.content := doc;
      ok := true;
    }
  }

  lemma {:induction false} MatchedMembers(glob: Glob, patches: seq<Patch>, d: Json, path: Path)
    ensures path in Matched(glob, patches, d) <==> exists p :: p in patches && p.path == path && Matches(glob, p, d)
  {
    if patches != [] {
      var n := |patches| - 1;
      assert patches == patches[..n] + [patches[n]];
      MatchedMembers(glob, patches[..n], d, path);
    }
  }

  /** The kernel of normalization: for two resources matched by the same patches, none of
      which leads to an array element, normalizing gives equal results if and only if the
      resources agree everywhere outside the subtrees at the ignored pointers. */
  lemma NormalizeKernel(glob: Glob, patches: seq<Patch>, d: Json, e: Json)
    requires Matched(glob, patches, d) == Matched(glob, patches, e)
    requires NoElements(d, Matched(glob, patches, d)) && NoElements(e, Matched(glob, patches, d))
    ensures Normalized(glob, patches, d) == Normalized(glob, patches, e)
            <==> AgreeOutside(d, e, Matched(glob, patches, d))
  {
    Kernel(d, e, Matched(glob, patches, d));
  }

  /** What normalizing does to one resource: nothing is left at or below an ignored pointer
      that matches it, everything else shows as before, and doing it to the same list of
      pointers again changes nothing. */
  lemma NormalizeScope(glob: Glob, patches: seq<Patch>, d: Json, q: Path)
    requires NoElements(d, Matched(glob, patches, d))
    ensures var ps, r := Matched(glob, patches, d), Normalized(glob, patches, d);
      && At(r, q) == (if Covered(ps, q) then Absent else At(d, q))
      && ApplyAll(r, ps) == r
  {
    AtApplyAll(d, Matched(glob, patches, d), q);
    RemovedForGood(d, Matched(glob, patches, d));
  }

  /** Order independence: whatever order the overrides are visited in, the normalizer built
      from them normalizes a resource to the same result, including nested and duplicate
      pointers and pointers that fail to apply at their turn. */
  lemma NormalizeOrderIndependent(
    glob: Glob, overrides: Overrides, ps: seq<Patch>, qs: seq<Patch>, d: Json)
    requires PatchesOf(overrides, ps) && PatchesOf(overrides, qs)
    requires NoElements(d, Matched(glob, ps, d))
    ensures Normalized(glob, ps, d) == Normalized(glob, qs, d)
  {
    forall path ensures path in Matched(glob, ps, d) <==> path in Matched(glob, qs, d) {
      MatchedMembers(glob, ps, d, path);
      MatchedMembers(glob, qs, d, path);
    }
    OrderIndependent(d, Matched(glob, ps, d), Matched(glob, qs, d));
  }

  /** Some override, by its key, applies to the group and kind of the resource and asks to
      ignore a pointer to the path or to something above it. */
  ghost predicate Ignored(glob: Glob, overrides: Overrides, d: Json, q: Path) {
    exists key, pointer :: key in overrides && pointer in overrides[key]
      && glob(GroupKindOfKey(key).0, GroupKind(d).0) && glob(GroupKindOfKey(key).1, GroupKind(d).1)
      && PathOf(pointer) != [] && PathOf(pointer) <= q
  }

  /** From the overrides to the result, whatever order they are visited in: nothing is left
      where some override that applies to the resource ignores it, and everything else shows
      as before. */
  lemma NormalizeRemovesIff(glob: Glob, overrides: Overrides, order: seq<string>, d: Json, q: Path)
    requires OrderOf(overrides, order) && NoElements(d, Matched(glob, Visited(overrides, order), d))
    ensures At(Normalized(glob, Visited(overrides, order), d), q)
            == if Ignored(glob, overrides, d, q) then Absent else At(d, q)
  {
    var patches := Visited(overrides, order);
    var matched := Matched(glob, patches, d);
    NormalizeScope(glob, patches, d, q);
    VisitedIsPatchesOf(overrides, order);
    if Covered(matched, q) {
      var path :| path in matched && path != [] && path <= q;
      MatchedMembers(glob, patches, d, path);
      var p :| p in patches && p.path == path && Matches(glob, p, d);
      assert Asked(overrides, p);
    }
    if Ignored(glob, overrides, d, q) {
      IgnoredIsCovered(glob, overrides, order, d, q);
    }
  }

  lemma IgnoredIsCovered(glob: Glob, overrides: Overrides, order: seq<string>, d: Json, q: Path)
    requires OrderOf(overrides, order) && Ignored(glob, overrides, d, q)
    ensures Covered(Matched(glob, Visited(overrides, order), d), q)
  {
    var key, pointer :| key in overrides && pointer in overrides[key]
      && glob(GroupKindOfKey(key).0, GroupKind(d).0) && glob(GroupKindOfKey(key).1, GroupKind(d).1)
      && PathOf(pointer) != [] && PathOf(pointer) <= q;
    var p := Patch(GroupKindOfKey(key).0, GroupKindOfKey(key).1, PathOf(pointer));
    VisitedIsPatchesOf(overrides, order);
    assert Asked(overrides, p) && Matches(glob, p, d);
    MatchedMembers(glob, Visited(overrides, order), d, p.path);
  }

  // ----- When the order does matter -----

  lemma {:induction false} ApplyAllLast(d: Json, ps: seq<Path>, p: Path)
    ensures ApplyAll(d, ps + [p]) == Apply(ApplyAll(d, ps), p)
    decreases |ps|
  {
    if ps == [] {
      assert ps + [p] == [p] && [p][1..] == [];
      assert ApplyAll(Apply(d, p), []) == Apply(d, p);
    } else {
      AppendTail(ps, [p]);
      ApplyAllLast(Apply(d, ps[0]), ps[1..], p);
    }
  }

  /** The override of the key asks for one pointer only, and applies to the resource. */
  predicate Single(glob: Glob, overrides: Overrides, key: string, pointer: string, d: Json) {
    && key in overrides && overrides[key] == [pointer]
    && Matches(glob, Patch(GroupKindOfKey(key).0, GroupKindOfKey(key).1, PathOf(pointer)), d)
  }

  lemma NormalizedLast(glob: Glob, overrides: Overrides, front: seq<string>, key: string, pointer: string, d: Json)
    requires (forall k | k in front :: k in overrides) && Single(glob, overrides, key, pointer, d)
    ensures Normalized(glob, Visited(overrides, front + [key]), d)
            == Apply(Normalized(glob, Visited(overrides, front), d), PathOf(pointer))
  {
    var g, patch := IgnoreOf(overrides, key), Patch(GroupKindOfKey(key).0, GroupKindOfKey(key).1, PathOf(pointer));
    var before := Visited(overrides, front);
    VisitedAppend(overrides, front, key);
    assert [pointer][..0] == [] && PatchList(g.group, g.kind, [pointer]) == [patch];
    assert (before + [patch])[..|before|] == before;
    ApplyAllLast(d, Matched(glob, before, d), PathOf(pointer));
  }

  lemma NormalizedLastTwo(
    glob: Glob, overrides: Overrides, front: seq<string>, k: string, l: string, x: string, y: string, d: Json)
    requires forall key | key in front :: key in overrides
    requires Single(glob, overrides, k, x, d) && Single(glob, overrides, l, y, d)
    ensures Normalized(glob, Visited(overrides, front + [k, l]), d)
            == Apply(Apply(Normalized(glob, Visited(overrides, front), d), PathOf(x)), PathOf(y))
  {
    assert front + [k, l] == front + [k] + [l];
    NormalizedLast(glob, overrides, front, k, x, d);
    NormalizedLast(glob, overrides, front + [k], l, y, d);
  }

  /** Exactly when the order of the last two keys does not matter, for any pointers and any
      keys visited before them: their removals can be exchanged in what the others leave. */
  lemma LastTwoIff(
    glob: Glob, overrides: Overrides, front: seq<string>, k: string, l: string, x: string, y: string, d: Json)
    requires OrderOf(overrides, front + [k, l])
    requires Single(glob, overrides, k, x, d) && Single(glob, overrides, l, y, d)
    ensures OrderOf(overrides, front + [l, k])
    ensures Normalized(glob, Visited(overrides, front + [k, l]), d)
            == Normalized(glob, Visited(overrides, front + [l, k]), d)
            <==> Free(Normalized(glob, Visited(overrides, front), d), PathOf(x), PathOf(y))
  {
    assert forall key :: key in front ==> key in front + [k, l];
    NormalizedLastTwo(glob, overrides, front, k, l, x, y, d);
    NormalizedLastTwo(glob, overrides, front, l, k, y, x, d);
    ExchangeIff(Normalized(glob, Visited(overrides, front), d), PathOf(x), PathOf(y));
    SwappedIsOrder(overrides, front, k, l);
  }

  lemma SwappedIsOrder(overrides: Overrides, front: seq<string>, k: string, l: string)
    requires OrderOf(overrides, front + [k, l])
    ensures OrderOf(overrides, front + [l, k])
  {
    var order, swapped, n := front + [k, l], front + [l, k], |front|;
    forall key ensures key in swapped <==> key in overrides {
      assert key in order <==> key in overrides;
    }
    forall i, j | 0 <= i < j < |swapped| ensures swapped[i] != swapped[j] {
      var a, b := if i == n then n + 1 else i, if j == n then n + 1 else if j == n + 1 then n else j;
      assert swapped[i] == order[a] && swapped[j] == order[b];
      assert if a < b then order[a] != order[b] else order[b] != order[a];
    }
  }

  /** Two overrides that each ask to remove an element of one array of the resource: the two
      orders in which they can be visited normalize it alike if and only if the later
      element is followed by an equal one. */
  lemma ElementOrderIff(
    glob: Glob, overrides: Overrides, k: string, l: string, d: Json, a: Path, items: seq<Json>, i: nat, j: nat)
    requires k != l && overrides.Keys == {k, l} && Resolve(d, a) == Some(Array(items)) && i < j < |items|
    requires Single(glob, overrides, k, PointerTo(a + [IndexToken(i)]), d)
    requires Single(glob, overrides, l, PointerTo(a + [IndexToken(j)]), d)
    ensures OrderOf(overrides, [k, l]) && OrderOf(overrides, [l, k])
    ensures Normalized(glob, Visited(overrides, [k, l]), d) == Normalized(glob, Visited(overrides, [l, k]), d)
            <==> j + 1 < |items| && items[j] == items[j + 1]
  {
    var p, q := a + [IndexToken(i)], a + [IndexToken(j)];
    assert [] + [k, l] == [k, l] && [] + [l, k] == [l, k];
    forall key ensures key in [k, l] <==> key in overrides {
      assert key in overrides.Keys <==> key in overrides;
    }
    PointerRoundTrip(p);
    PointerRoundTrip(q);
    LastTwoIff(glob, overrides, [], k, l, PointerTo(p), PointerTo(q), d);
    assert Matched(glob, [], d) == [] && ApplyAll(d, []) == d;
    ExchangeIff(d, p, q);
    ElementsExchangeIff(d, a, items, i, j);
  }

  const APPS := "apps"
  const DEPLOYMENT := "Deployment"
  const ANY := "*"

  /** A Deployment with a list of two in its spec. */
  function Sample(version: string): Json {
    Object(map["apiVersion" := String(APPS + ['/'] + version), "kind" := String(DEPLOYMENT),
               "spec" := Object(map["xs" := Array([Null, Bool(true)])])])
  }

  lemma SampleReads(version: string)
    requires '/' !in version
    ensures GroupKind(Sample(version)) == (APPS, DEPLOYMENT)
    ensures Resolve(Sample(version), ["spec", "xs"]) == Some(Array([Null, Bool(true)]))
  {
    var d, spec := Sample(version), Object(map["xs" := Array([Null, Bool(true)])]);
    SplitSlash(APPS, version);
    assert ["apiVersion"][1..] == [] && ["kind"][1..] == [];
    assert Resolve(d.members["apiVersion"], []).Some? && Resolve(d.members["kind"], []).Some?;
    assert ["spec", "xs"][1..] == ["xs"] && ["xs"][1..] == [];
    assert Resolve(spec.members["xs"], []) == Some(Array([Null, Bool(true)]));
    assert Resolve(spec, ["xs"]) == Some(Array([Null, Bool(true)]));
  }

  /** So the order does matter to a resource: with an override for Deployments of the group
      and one for those of any group, each ignoring an element of the same list, the order
      of the visit decides what is left of it. */
  lemma OrderMatters(glob: Glob, version: string)
    returns (overrides: Overrides, order: seq<string>, other: seq<string>)
    requires '/' !in version
    requires glob(APPS, APPS) && glob(ANY, APPS) && glob(DEPLOYMENT, DEPLOYMENT)
    ensures OrderOf(overrides, order) && OrderOf(overrides, other)
    ensures Normalized(glob, Visited(overrides, order), Sample(version))
            != Normalized(glob, Visited(overrides, other), Sample(version))
  {
    var d, a := Sample(version), ["spec", "xs"];
    var k, l := APPS + ['/'] + DEPLOYMENT, ANY + ['/'] + DEPLOYMENT;
    SampleReads(version);
    SplitSlash(APPS, DEPLOYMENT);
    SplitSlash(ANY, DEPLOYMENT);
    assert k[0] != l[0];
    overrides := map[k := [PointerTo(a + [IndexToken(0)])], l := [PointerTo(a + [IndexToken(1)])]];
    order, other := [k, l], [l, k];
    ElementOrderIff(glob, overrides, k, l, d, a, [Null, Bool(true)], 0, 1);
  }
}
