/** JSON documents, the paths into them, and the removal of what a path points at. */
module Json {
  import opened Text

  datatype Json =
    | Null
    | Bool(b: bool)
    | Number(n: string)
    | String(s: string)
    | Array(items: seq<Json>)
    | Object(members: map<string, Json>)

  /** A path is the sequence of a pointer's reference tokens. */
  type Path = seq<string>

  // ----- Array indices (RFC 6901, section 4: no leading zeros) -----

  predicate Digit(c: char) {
    '0' <= c <= '9'
  }

  function DigitValue(c: char): (v: nat)
    requires Digit(c)
    ensures v < 10
  {
    c as int - '0' as int
  }

  function DigitChar(v: nat): (c: char)
    requires v < 10
    ensures Digit(c) && DigitValue(c) == v
    ensures forall d :: Digit(d) && DigitValue(d) == v ==> c == d
  {
    ('0' as int + v) as char
  }

  function IndexToken(n: nat): string {
    var last := [DigitChar(n % 10)];
    if n < 10 then last else IndexToken(n / 10) + last
  }

  function Decimal(t: string): nat
    requires forall c | c in t :: Digit(c)
  {
    if t == "" then 0 else 10 * Decimal(t[..|t| - 1]) + DigitValue(t[|t| - 1])
  }

  function Index(t: string): Option<nat> {
    if t != "" && (forall c | c in t :: Digit(c)) && (t[0] != '0' || |t| == 1) then Some(Decimal(t)) else None
  }

  lemma {:induction false} IndexOfToken(n: nat)
    ensures Index(IndexToken(n)) == Some(n)
    ensures n > 0 ==> IndexToken(n)[0] != '0'
  {
    var t := IndexToken(n);
    if n >= 10 {
      IndexOfToken(n / 10);
      assert t[..|t| - 1] == IndexToken(n / 10);
    } else {
      assert t[..0] == "" && Decimal("") == 0;
    }
  }

  lemma {:induction false} DecimalPositive(t: string)
    requires t != "" && (forall c | c in t :: Digit(c)) && t[0] != '0'
    ensures Decimal(t) > 0
  {
    var front := t[..|t| - 1];
    assert front == "" ==> Decimal(front) == 0 && DigitValue(t[0]) > 0;
    if front != "" {
      assert front[0] == t[0];
      DecimalPositive(front);
    }
  }

  /** Two tokens that name the same element are the same token. */
  lemma {:induction false} IndexInjective(t: string, u: string)
    requires Index(t).Some? && Index(t) == Index(u)
    ensures t == u
  {
    var m, n := |t| - 1, |u| - 1;
    assert t == t[..m] + [t[m]] && u == u[..n] + [u[n]];
    assert Decimal(t[..m]) == Decimal(u[..n]) && DigitValue(t[m]) == DigitValue(u[n]);
    if m > 0 {
      assert t[..m][0] == t[0];
      DecimalPositive(t[..m]);
    }
    if n > 0 {
      assert u[..n][0] == u[0];
      DecimalPositive(u[..n]);
    }
    if m > 0 && n > 0 {
      IndexInjective(t[..m], u[..n]);
    }
  }

  // ----- Looking into a document -----

  function Child(d: Json, t: string): Option<Json> {
    match d
    case Object(members) => if t in members then Some(members[t]) else None
    case Array(items) =>
      var i := Index(t);
      if i.Some? && i.value < |items| then Some(items[i.value]) else None
    case _ => None
  }

  function Resolve(d: Json, p: Path): Option<Json> {
    if p == [] then Some(d)
    else match Child(d, p[0])
      case None => None
      case Some(c) => Resolve(c, p[1..])
  }

  /** What a path shows by itself: a scalar, the length of an array, or just an object. */
  datatype Shape = Absent | Scalar(value: Json) | ArrayOf(length: nat) | AnObject

  function ShapeOf(d: Json): Shape {
    match d
    case Array(items) => ArrayOf(|items|)
    case Object(_) => AnObject
    case _ => Scalar(d)
  }

  function At(d: Json, p: Path): Shape {
    match Resolve(d, p)
    case None => Absent
    case Some(c) => ShapeOf(c)
  }

  lemma AtChild(d: Json, t: string, p: Path)
    ensures At(d, [t] + p) == match Child(d, t) case None => Absent case Some(c) => At(c, p)
  {
    assert ([t] + p)[1..] == p;
  }

  /** Documents are determined by what all paths show. */
  lemma {:induction false} SameEverywhere(d: Json, e: Json)
    requires forall p :: At(d, p) == At(e, p)
    ensures d == e
    decreases d
  {
    assert At(d, []) == At(e, []);
    match d
    case Object(members) =>
      forall k | k in members ensures k in e.members && members[k] == e.members[k] {
        AtChild(d, k, []);
        AtChild(e, k, []);
        forall p ensures At(members[k], p) == At(e.members[k], p) {
          AtChild(d, k, p);
          AtChild(e, k, p);
        }
        SameEverywhere(members[k], e.members[k]);
      }
      forall k | k in e.members ensures k in members {
        AtChild(d, k, []);
        AtChild(e, k, []);
      }
    case Array(items) =>
      forall i | 0 <= i < |items| ensures items[i] == e.items[i] {
        var t := IndexToken(i);
        IndexOfToken(i);
        forall p ensures At(items[i], p) == At(e.items[i], p) {
          AtChild(d, t, p);
          AtChild(e, t, p);
        }
        SameEverywhere(items[i], e.items[i]);
      }
    case _ =>
  }

  // ----- Removal (RFC 6902, section 4.2) -----

  function WithChild(d: Json, t: string, c: Json): Json
    requires Child(d, t).Some?
  {
    match d
    case Object(members) => Object(members[t := c])
    case Array(items) => Array(items[Index(t).value := c])
  }

  function WithoutChild(d: Json, t: string): Option<Json> {
    if Child(d, t).None? then None
    else match d
      case Object(members) => Some(Object(members - {t}))
      case Array(items) =>
        var i := Index(t).value;
        Some(Array(items[..i] + items[i + 1..]))
  }

  /** The target must exist; the whole document cannot be removed. */
  function Remove(d: Json, p: Path): Option<Json> {
    if p == [] then None
    else if |p| == 1 then WithoutChild(d, p[0])
    else match Child(d, p[0])
      case None => None
      case Some(c) =>
        match Remove(c, p[1..])
        case None => None
        case Some(c') => Some(WithChild(d, p[0], c'))
  }

  /** The path leads to an element of an array, rather than to a member of an object or to
      nothing. */
  predicate Element(d: Json, p: Path) {
    p != [] && At(d, p[..|p| - 1]).ArrayOf? && At(d, p) != Absent
  }

  /** A removal that fails is skipped. */
  function Apply(d: Json, p: Path): Json {
    match Remove(d, p)
    case None => d
    case Some(r) => r
  }

  function ApplyAll(d: Json, ps: seq<Path>): Json
    decreases |ps|
  {
    if ps == [] then d else ApplyAll(Apply(d, ps[0]), ps[1..])
  }

  lemma AtCons(d: Json, q: Path)
    requires q != []
    ensures At(d, q) == match Child(d, q[0]) case None => Absent case Some(c) => At(c, q[1..])
  {
    assert [q[0]] + q[1..] == q;
  }

  /** Replacing one child shows the new child below it and leaves the rest as it was. */
  lemma AtWithChild(d: Json, t: string, c: Json, q: Path)
    requires Child(d, t).Some?
    ensures At(WithChild(d, t, c), q)
            == if q == [] || q[0] != t then At(d, q) else At(c, q[1..])
  {
    var d' := WithChild(d, t, c);
    if q != [] {
      AtCons(d, q);
      AtCons(d', q);
      if d.Array? && Index(q[0]).Some? {
        if Index(q[0]) == Index(t) {
          IndexInjective(t, q[0]);
        }
      }
    }
  }

  /** Removing a member hides it and everything below it, and leaves the rest as it was. */
  lemma AtWithoutMember(d: Json, t: string, q: Path)
    requires d.Object? && t in d.members
    ensures At(WithoutChild(d, t).value, q) == if q != [] && q[0] == t then Absent else At(d, q)
  {
    if q != [] {
      AtCons(d, q);
      AtCons(WithoutChild(d, t).value, q);
    }
  }

  lemma ElementCons(d: Json, p: Path)
    requires |p| >= 2 && Child(d, p[0]).Some?
    ensures Element(d, p) <==> Element(Child(d, p[0]).value, p[1..])
  {
    var front := p[..|p| - 1];
    assert front[1..] == p[1..][..|p[1..]| - 1];
    AtCons(d, front);
    AtCons(d, p);
  }

  /** A removal that does not hit an array element makes the subtree at the path absent and
      changes nothing else; when nothing is there, it changes nothing at all. */
  lemma {:induction false} AtApply(d: Json, p: Path, q: Path)
    requires p != [] && !Element(d, p)
    ensures At(Apply(d, p), q) == if p <= q then Absent else At(d, q)
    decreases |p|
  {
    AtCons(d, p);
    if q != [] {
      AtCons(d, q);
    }
    if |p| == 1 {
      assert p[..0] == [] && p[1..] == [];
      if d.Object? && p[0] in d.members {
        AtWithoutMember(d, p[0], q);
      }
    } else if Child(d, p[0]).Some? {
      var c := Child(d, p[0]).value;
      ElementCons(d, p);
      AtWithChild(d, p[0], Apply(c, p[1..]), q);
      if q != [] && q[0] == p[0] {
        AtApply(c, p[1..], q[1..]);
        assert p <= q <==> p[1..] <= q[1..];
      }
    }
  }

  // ----- Many removals -----

  ghost predicate NoElements(d: Json, ps: seq<Path>) {
    forall p :: p in ps ==> !Element(d, p)
  }

  /** At or below one of the paths. */
  ghost predicate Covered(ps: seq<Path>, q: Path) {
    exists p :: p in ps && p != [] && p <= q
  }

  ghost predicate AgreeOutside(d: Json, e: Json, ps: seq<Path>) {
    forall q :: !Covered(ps, q) ==> At(d, q) == At(e, q)
  }

  lemma NoElementsAfter(d: Json, p: Path, ps: seq<Path>)
    requires !Element(d, p) && NoElements(d, ps)
    ensures NoElements(Apply(d, p), ps)
  {
    if p != [] {
      forall q | q in ps ensures !Element(Apply(d, p), q) {
        AtApply(d, p, q);
        if q != [] {
          AtApply(d, p, q[..|q| - 1]);
        }
      }
    }
  }

  lemma CoveredCons(p: Path, rest: seq<Path>, q: Path)
    ensures Covered([p] + rest, q) <==> (p != [] && p <= q) || Covered(rest, q)
  {
    if p != [] && p <= q {
      assert p in [p] + rest;
    }
    if Covered(rest, q) {
      var r :| r in rest && r != [] && r <= q;
      assert r in [p] + rest;
    }
  }

  /** What a document shows after a list of removals: nothing at or below the paths, and
      everything else as before. */
  lemma {:induction false} AtApplyAll(d: Json, ps: seq<Path>, q: Path)
    requires NoElements(d, ps)
    ensures At(ApplyAll(d, ps), q) == if Covered(ps, q) then Absent else At(d, q)
    decreases |ps|
  {
    if ps != [] {
      var p, rest := ps[0], ps[1..];
      assert ps == [p] + rest;
      NoElementsAfter(d, p, rest);
      AtApplyAll(Apply(d, p), rest, q);
      CoveredCons(p, rest, q);
      if p != [] {
        AtApply(d, p, q);
      }
    }
  }

  /** The kernel of removal: two documents come out equal if and only if they agree
      everywhere outside the subtrees at the removed paths. */
  lemma Kernel(d: Json, e: Json, ps: seq<Path>)
    requires NoElements(d, ps) && NoElements(e, ps)
    ensures ApplyAll(d, ps) == ApplyAll(e, ps) <==> AgreeOutside(d, e, ps)
  {
    forall q ensures At(ApplyAll(d, ps), q) == (if Covered(ps, q) then Absent else At(d, q)) {
      AtApplyAll(d, ps, q);
    }
    forall q ensures At(ApplyAll(e, ps), q) == (if Covered(ps, q) then Absent else At(e, q)) {
      AtApplyAll(e, ps, q);
    }
    if AgreeOutside(d, e, ps) {
      SameEverywhere(ApplyAll(d, ps), ApplyAll(e, ps));
    }
  }

  /** Only the set of paths matters: neither their order, nor duplicates, nor which of them
      fail to apply at their turn. */
  lemma OrderIndependent(d: Json, ps: seq<Path>, qs: seq<Path>)
    requires NoElements(d, ps)
    requires forall p :: p in ps <==> p in qs
    ensures ApplyAll(d, ps) == ApplyAll(d, qs)
  {
    forall q ensures At(ApplyAll(d, ps), q) == At(ApplyAll(d, qs), q) {
      AtApplyAll(d, ps, q);
      AtApplyAll(d, qs, q);
      assert Covered(ps, q) <==> Covered(qs, q);
    }
    SameEverywhere(ApplyAll(d, ps), ApplyAll(d, qs));
  }

  /** No removed path resolves afterwards, and removing again changes nothing. */
  lemma RemovedForGood(d: Json, ps: seq<Path>)
    requires NoElements(d, ps)
    ensures forall p :: p in ps && p != [] ==> Resolve(ApplyAll(d, ps), p).None?
    ensures ApplyAll(ApplyAll(d, ps), ps) == ApplyAll(d, ps)
  {
    var e := ApplyAll(d, ps);
    forall p | p in ps && p != [] ensures Resolve(e, p).None? {
      AtApplyAll(d, ps, p);
      assert p <= p && Covered(ps, p);
    }
    forall p | p in ps ensures !Element(e, p) {
      if p != [] {
        assert Resolve(e, p).None?;
      }
    }
    forall q ensures At(ApplyAll(e, ps), q) == At(e, q) {
      AtApplyAll(d, ps, q);
      AtApplyAll(e, ps, q);
    }
    SameEverywhere(ApplyAll(e, ps), e);
  }
}
