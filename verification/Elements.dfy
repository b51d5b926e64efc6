/** Removals that reach into arrays: when two of them can be exchanged, and when not. */
module Elements {
  import opened Text
  import opened Json

  /** The two removals give the same document in both orders. */
  predicate Exchange(d: Json, p: Path, q: Path) {
    Apply(Apply(d, p), q) == Apply(Apply(d, q), p)
  }

  // ----- The exact condition -----

  /** One of the paths removes element i, and the other leads through element j of the same
      array.  The removal shifts the elements behind i, so the other is harmless only if it
      leads through an earlier element, or would neither find anything at its old place nor
      at its new one. */
  predicate RemoveAndPass(items: seq<Json>, i: nat, j: nat, rest: Path)
    requires i < |items| && j < |items|
  {
    || j < i
    || ((j == i || Resolve(items[j], rest).None?)
        && (j + 1 < |items| ==> Resolve(items[j + 1], rest).None?))
  }

  /** Both paths remove an element of the same array: the later one must be followed by an
      element equal to it. */
  predicate RemoveBoth(items: seq<Json>, i: nat, j: nat)
    requires i < |items| && j < |items|
  {
    i == j || var later := if i < j then j else i; later + 1 < |items| && items[later] == items[later + 1]
  }

  predicate Free(d: Json, p: Path, q: Path)
    decreases |p|
  {
    if p == [] || q == [] || Child(d, p[0]).None? || Child(d, q[0]).None? then true
    else if |p| > 1 && |q| > 1 then p[0] == q[0] ==> Free(Child(d, p[0]).value, p[1..], q[1..])
    else if d.Object? then true
    else
      var i, j := Index(p[0]).value, Index(q[0]).value;
      if |p| == 1 && |q| == 1 then RemoveBoth(d.items, i, j)
      else if |p| == 1 then RemoveAndPass(d.items, i, j, q[1..])
      else RemoveAndPass(d.items, j, i, p[1..])
  }

  // ----- What a removal does -----

  /** A removal succeeds exactly when its path resolves, and then it changes the document. */
  lemma {:induction false} ApplyChangesIff(d: Json, p: Path)
    requires p != []
    ensures Apply(d, p) != d <==> Resolve(d, p).Some?
    ensures Remove(d, p).Some? <==> Resolve(d, p).Some?
    decreases |p|
  {
    if |p| == 1 {
      assert p[1..] == [];
      if Child(d, p[0]).Some? && d.Array? {
        assert |Apply(d, p).items| != |d.items|;
      }
    } else if Child(d, p[0]).Some? {
      var c := Child(d, p[0]).value;
      ApplyChangesIff(c, p[1..]);
      if Remove(c, p[1..]).Some? {
        ChildOfWithChild(d, p[0], Apply(c, p[1..]));
      }
    }
  }

  lemma ChildOfWithChild(d: Json, t: string, c: Json)
    requires Child(d, t).Some?
    ensures Child(WithChild(d, t, c), t) == Some(c)
  {
  }

  lemma WithOwnChild(d: Json, t: string)
    requires Child(d, t).Some?
    ensures WithChild(d, t, Child(d, t).value) == d
  {
    match d
    case Object(members) => assert members[t := members[t]] == members;
    case Array(items) => assert items[Index(t).value := items[Index(t).value]] == items;
  }

  lemma WithChildTwice(d: Json, t: string, c: Json, e: Json)
    requires Child(d, t).Some?
    ensures Child(WithChild(d, t, c), t).Some?
    ensures WithChild(WithChild(d, t, c), t, e) == WithChild(d, t, e)
  {
    match d
    case Object(members) => assert members[t := c][t := e] == members[t := e];
    case Array(items) => var i := Index(t).value; assert items[i := c][i := e] == items[i := e];
  }

  /** A path that goes on below a child is a removal from that child. */
  lemma ApplyBelow(d: Json, p: Path)
    requires |p| > 1 && Child(d, p[0]).Some?
    ensures Apply(d, p) == WithChild(d, p[0], Apply(Child(d, p[0]).value, p[1..]))
  {
    WithOwnChild(d, p[0]);
  }

  lemma ApplyNothing(d: Json, p: Path)
    requires p == [] || Child(d, p[0]).None?
    ensures Apply(d, p) == d
  {
  }

  /** One removal leaves a member another path begins with missing, if it is missing. */
  lemma StaysMissing(d: Json, p: Path, t: string)
    requires Child(d, t).None?
    ensures Child(Apply(d, p), t).None?
  {
    if |p| > 1 && Child(d, p[0]).Some? {
      ApplyBelow(d, p);
    }
  }

  // ----- Exchange, case by case -----

  lemma ExchangeMissing(d: Json, p: Path, q: Path)
    requires p == [] || Child(d, p[0]).None?
    ensures Exchange(d, p, q)
  {
    ApplyNothing(d, p);
    if p != [] {
      StaysMissing(d, q, p[0]);
    }
    ApplyNothing(Apply(d, q), p);
  }

  lemma ExchangeBelow(d: Json, p: Path, q: Path)
    requires |p| > 1 && |q| > 1 && p[0] == q[0] && Child(d, p[0]).Some?
    ensures Exchange(d, p, q) <==> Exchange(Child(d, p[0]).value, p[1..], q[1..])
  {
    var t, c := p[0], Child(d, p[0]).value;
    var cp, cq := Apply(c, p[1..]), Apply(c, q[1..]);
    ApplyBelow(d, p);
    ApplyBelow(d, q);
    ChildOfWithChild(d, t, cp);
    ChildOfWithChild(d, t, cq);
    ApplyBelow(WithChild(d, t, cp), q);
    ApplyBelow(WithChild(d, t, cq), p);
    WithChildTwice(d, t, cp, Apply(cp, q[1..]));
    WithChildTwice(d, t, cq, Apply(cq, p[1..]));
    ChildOfWithChild(d, t, Apply(cp, q[1..]));
    ChildOfWithChild(d, t, Apply(cq, p[1..]));
  }

  lemma SameTokenIff(d: Json, t: string, u: string)
    requires Child(d, t).Some? && Child(d, u).Some? && d.Array?
    ensures t == u <==> Index(t) == Index(u)
  {
    if Index(t) == Index(u) {
      IndexInjective(t, u);
    }
  }

  /** Replacing one child leaves the other children. */
  lemma OtherChild(d: Json, t: string, u: string, c: Json)
    requires Child(d, t).Some? && Child(d, u).Some? && t != u
    ensures Child(WithChild(d, t, c), u) == Child(d, u)
  {
    if d.Array? {
      SameTokenIff(d, t, u);
    }
  }

  lemma WithTwoChildren(d: Json, t: string, u: string, c: Json, e: Json)
    requires Child(d, t).Some? && Child(d, u).Some? && t != u
    requires Child(WithChild(d, t, c), u).Some? && Child(WithChild(d, u, e), t).Some?
    ensures WithChild(WithChild(d, t, c), u, e) == WithChild(WithChild(d, u, e), t, c)
  {
    match d
    case Object(members) => assert members[t := c][u := e] == members[u := e][t := c];
    case Array(items) =>
      SameTokenIff(d, t, u);
      var i, j := Index(t).value, Index(u).value;
      assert items[i := c][j := e] == items[j := e][i := c];
  }

  lemma ExchangeApart(d: Json, p: Path, q: Path)
    requires |p| > 1 && |q| > 1 && p[0] != q[0] && Child(d, p[0]).Some? && Child(d, q[0]).Some?
    ensures Exchange(d, p, q)
  {
    var t, u := p[0], q[0];
    var c, e := Apply(Child(d, t).value, p[1..]), Apply(Child(d, u).value, q[1..]);
    ApplyBelow(d, p);
    ApplyBelow(d, q);
    OtherChild(d, t, u, c);
    OtherChild(d, u, t, e);
    ApplyBelow(WithChild(d, t, c), q);
    ApplyBelow(WithChild(d, u, e), p);
    WithTwoChildren(d, t, u, c, e);
  }

  /** A member that goes as a whole. */
  lemma ExchangeMember(d: Json, p: Path, q: Path)
    requires d.Object? && |p| == 1 && q != [] && p[0] in d.members && q[0] in d.members
    ensures Exchange(d, p, q)
  {
    var t, u := p[0], q[0];
    if |q| == 1 {
      assert d.members - {t} - {u} == d.members - {u} - {t};
    } else {
      ApplyBelow(d, q);
      var c := Apply(d.members[u], q[1..]);
      if t == u {
        ApplyNothing(Object(d.members - {t}), q);
        assert d.members[u := c] - {t} == d.members - {t};
      } else {
        ApplyBelow(Object(d.members - {t}), q);
        assert (d.members - {t})[u := c] == d.members[u := c] - {t};
      }
    }
  }

  function Dropped<T>(s: seq<T>, i: nat): (r: seq<T>)
    requires i < |s|
    ensures |r| == |s| - 1
    ensures forall k :: 0 <= k < |r| ==> r[k] == s[if k < i then k else k + 1]
  {
    s[..i] + s[i + 1..]
  }

  lemma ApplyElement(items: seq<Json>, p: Path)
    requires |p| == 1 && Index(p[0]).Some?
    ensures var i := Index(p[0]).value;
      Apply(Array(items), p) == if i < |items| then Array(Dropped(items, i)) else Array(items)
  {
  }

  /** Dropping i and then what is at j differs from dropping j and then i only in which of
      the elements at j and j + 1 is left. */
  lemma DropBothIff<T>(s: seq<T>, i: nat, j: nat)
    requires i < j && j + 1 < |s|
    ensures Dropped(Dropped(s, i), j) == Dropped(Dropped(s, j), i) <==> s[j] == s[j + 1]
  {
    var pq, qp := Dropped(Dropped(s, i), j), Dropped(Dropped(s, j), i);
    assert pq[j - 1] == s[j] && qp[j - 1] == s[j + 1];
    forall k | 0 <= k < |pq| && k != j - 1 ensures pq[k] == qp[k] {
    }
  }

  lemma ExchangeElementsInOrder(items: seq<Json>, p: Path, q: Path)
    requires |p| == 1 && |q| == 1 && Index(p[0]).Some? && Index(q[0]).Some?
    requires Index(p[0]).value < Index(q[0]).value < |items|
    ensures Exchange(Array(items), p, q) <==> RemoveBoth(items, Index(p[0]).value, Index(q[0]).value)
  {
    var i, j := Index(p[0]).value, Index(q[0]).value;
    ApplyElement(items, p);
    ApplyElement(items, q);
    ApplyElement(Dropped(items, i), q);
    ApplyElement(Dropped(items, j), p);
    if j + 1 < |items| {
      DropBothIff(items, i, j);
    } else {
      assert |Dropped(Dropped(items, j), i)| != |Dropped(items, i)|;
    }
  }

  lemma ExchangeElements(items: seq<Json>, p: Path, q: Path)
    requires |p| == 1 && |q| == 1
    requires Child(Array(items), p[0]).Some? && Child(Array(items), q[0]).Some?
    ensures Exchange(Array(items), p, q) <==> RemoveBoth(items, Index(p[0]).value, Index(q[0]).value)
  {
    var i, j := Index(p[0]).value, Index(q[0]).value;
    if i < j {
      ExchangeElementsInOrder(items, p, q);
    } else if j < i {
      ExchangeElementsInOrder(items, q, p);
    } else {
      SameTokenIff(Array(items), p[0], q[0]);
    }
  }

  /** What a path through element j makes of an array. */
  function Passed(items: seq<Json>, j: nat, rest: Path): (r: seq<Json>)
    ensures |r| == |items|
    ensures forall k :: 0 <= k < |r| ==> r[k] == if k == j then Apply(items[k], rest) else items[k]
  {
    if j < |items| then items[j := Apply(items[j], rest)] else items
  }

  lemma ApplyThrough(items: seq<Json>, q: Path)
    requires |q| > 1 && Index(q[0]).Some?
    ensures Apply(Array(items), q) == Array(Passed(items, Index(q[0]).value, q[1..]))
  {
    if Index(q[0]).value < |items| {
      ApplyBelow(Array(items), q);
    } else {
      ApplyNothing(Array(items), q);
    }
  }

  lemma DropAndPassIff(items: seq<Json>, i: nat, j: nat, rest: Path)
    requires i < |items| && j < |items| && rest != []
    ensures Passed(Dropped(items, i), j, rest) == Dropped(Passed(items, j, rest), i)
            <==> RemoveAndPass(items, i, j, rest)
  {
    var pq, qp := Passed(Dropped(items, i), j, rest), Dropped(Passed(items, j, rest), i);
    ApplyChangesIff(items[j], rest);
    if j + 1 < |items| {
      ApplyChangesIff(items[j + 1], rest);
    }
    if j >= i {
      assert j > i ==> pq[j - 1] == items[j] && qp[j - 1] == Apply(items[j], rest);
      assert j + 1 < |items| ==> pq[j] == Apply(items[j + 1], rest) && qp[j] == items[j + 1];
      forall k | 0 <= k < |pq| && k != j - 1 && k != j ensures pq[k] == qp[k] {
      }
    } else {
      forall k | 0 <= k < |pq| ensures pq[k] == qp[k] {
      }
    }
  }

  lemma ExchangeThrough(items: seq<Json>, p: Path, q: Path)
    requires |p| == 1 && |q| > 1
    requires Child(Array(items), p[0]).Some? && Child(Array(items), q[0]).Some?
    ensures Exchange(Array(items), p, q)
            <==> RemoveAndPass(items, Index(p[0]).value, Index(q[0]).value, q[1..])
  {
    var i, j := Index(p[0]).value, Index(q[0]).value;
    ApplyElement(items, p);
    ApplyThrough(items, q);
    ApplyThrough(Dropped(items, i), q);
    ApplyElement(Passed(items, j, q[1..]), p);
    DropAndPassIff(items, i, j, q[1..]);
  }

  // ----- Results -----

  /** Exactly when two removals can be exchanged, for any document and any two paths. */
  lemma {:induction false} ExchangeIff(d: Json, p: Path, q: Path)
    ensures Exchange(d, p, q) <==> Free(d, p, q)
    decreases |p|
  {
    if p == [] || Child(d, p[0]).None? {
      ExchangeMissing(d, p, q);
    } else if q == [] || Child(d, q[0]).None? {
      ExchangeMissing(d, q, p);
    } else if |p| > 1 && |q| > 1 {
      if p[0] == q[0] {
        ExchangeBelow(d, p, q);
        ExchangeIff(Child(d, p[0]).value, p[1..], q[1..]);
      } else {
        ExchangeApart(d, p, q);
      }
    } else if d.Object? {
      if |p| == 1 {
        ExchangeMember(d, p, q);
      } else {
        ExchangeMember(d, q, p);
      }
    } else if |p| == 1 && |q| == 1 {
      ExchangeElements(d.items, p, q);
    } else if |p| == 1 {
      ExchangeThrough(d.items, p, q);
    } else {
      ExchangeThrough(d.items, q, p);
    }
  }

  lemma {:induction false} FreeBelow(d: Json, a: Path, p: Path, q: Path)
    requires Resolve(d, a).Some? && p != [] && q != []
    ensures Free(d, a + p, a + q) <==> Free(Resolve(d, a).value, p, q)
    decreases |a|
  {
    if a == [] {
      assert a + p == p && a + q == q;
    } else {
      FreeBelow(Child(d, a[0]).value, a[1..], p, q);
      AppendTail(a, p);
      AppendTail(a, q);
    }
  }

  /** Removing two elements of one array, wherever in the document it is. */
  lemma ElementsExchangeIff(d: Json, a: Path, items: seq<Json>, i: nat, j: nat)
    requires Resolve(d, a) == Some(Array(items)) && i < j < |items|
    ensures Exchange(d, a + [IndexToken(i)], a + [IndexToken(j)])
            <==> j + 1 < |items| && items[j] == items[j + 1]
  {
    var p, q := [IndexToken(i)], [IndexToken(j)];
    IndexOfToken(i);
    IndexOfToken(j);
    FreeBelow(d, a, p, q);
    ExchangeIff(d, a + p, a + q);
  }

  /** Removing an element, and something in an element of the same array. */
  lemma ElementAndPassExchangeIff(d: Json, a: Path, items: seq<Json>, i: nat, j: nat, rest: Path)
    requires Resolve(d, a) == Some(Array(items)) && i < |items| && j < |items| && rest != []
    ensures Exchange(d, a + [IndexToken(i)], a + ([IndexToken(j)] + rest))
            <==> || j < i
                 || ((j == i || Resolve(items[j], rest).None?)
                     && (j + 1 < |items| ==> Resolve(items[j + 1], rest).None?))
  {
    var p, q := [IndexToken(i)], [IndexToken(j)] + rest;
    IndexOfToken(i);
    IndexOfToken(j);
    assert q[1..] == rest;
    FreeBelow(d, a, p, q);
    ExchangeIff(d, a + p, a + q);
  }
}
