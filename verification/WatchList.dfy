/** The watched keys as the syncer stores them: a doubly linked list of keys, and a map
    from each key to its list node so that a key is removed without a search. */
module WatchList {
  import opened Text
  import opened Rotation
  import opened SyncRun

  class Element {
    var prev: Element?
    var next: Element?
    var list: List?
    const value: Key

    constructor (value: Key)
      ensures this.value == value && list == null
    {
      this.value := value;
      prev, next, list := null, null, null;
    }
  }

  ghost function KeysOf(nodes: seq<Element>): (ks: seq<Key>)
    ensures |ks| == |nodes| && forall i :: 0 <= i < |ks| ==> ks[i] == nodes[i].value
  {
    seq(|nodes|, i requires 0 <= i < |nodes| => nodes[i].value)
  }

  ghost function Without<T>(s: seq<T>, i: nat): seq<T>
    requires i < |s|
  {
    s[..i] + s[i + 1..]
  }

  /** A sentinel, distinct nodes, and the sentinel again. */
  ghost predicate Ring(ring: seq<Element>, len: nat) {
    && |ring| == len + 2 && ring[0] == ring[len + 1]
    && (forall i, j :: 0 <= i < j <= len ==> ring[i] != ring[j])
  }

  lemma RingWithout(ring: seq<Element>, len: nat, i: nat)
    requires Ring(ring, len) && i < len
    ensures var r := Without(ring, i + 1);
            Ring(r, len - 1) && ring[i + 1] !in r && r[1..len] == Without(ring[1..len + 1], i)
  {
    var r := Without(ring, i + 1);
    forall a, b | 0 <= a < b <= len - 1 ensures r[a] != r[b] {
      var x, y := if a <= i then a else a + 1, if b <= i then b else b + 1;
      assert r[a] == ring[x] && r[b] == ring[y];
    }
    InnerWithout(ring, i);
  }

  lemma InnerWithout<T>(s: seq<T>, i: nat)
    requires i + 2 < |s|
    ensures Without(s, i + 1)[1..|s| - 2] == Without(s[1..|s| - 1], i)
  {
    var all, inner := Without(s, i + 1), s[1..|s| - 1];
    var left, right := all[1..|s| - 2], Without(inner, i);
    assert |left| == |right|;
    forall j | 0 <= j < |left| ensures left[j] == right[j] {
      assert left[j] == all[j + 1] == s[if j < i then j + 1 else j + 2];
      assert right[j] == inner[if j < i then j else j + 1];
    }
  }

  lemma RingAppend(ring: seq<Element>, len: nat, e: Element)
    requires Ring(ring, len) && e !in ring
    ensures var r := ring[..len + 1] + [e, ring[0]];
            Ring(r, len + 1) && r[1..len + 2] == ring[1..len + 1] + [e]
  {
  }

  /** Neighbours point at each other. */
  ghost predicate Linked(ring: seq<Element>)
    reads ring
  {
    && (forall i {:trigger ring[i].next} :: 0 <= i < |ring| - 1 ==> ring[i].next == ring[i + 1])
    && (forall i {:trigger ring[i].prev} :: 1 <= i < |ring| ==> ring[i].prev == ring[i - 1])
  }

  /** Linked except that the neighbours of one node bypass it. */
  ghost predicate Bridged(ring: seq<Element>, i: nat)
    requires 0 < i < |ring| - 1
    reads ring
  {
    && (forall j {:trigger ring[j].next} :: 0 <= j < |ring| - 1 && j != i - 1 ==> ring[j].next == ring[j + 1])
    && (forall j {:trigger ring[j].prev} :: 1 <= j < |ring| && j != i + 1 ==> ring[j].prev == ring[j - 1])
    && ring[i - 1].next == ring[i + 1] && ring[i + 1].prev == ring[i - 1]
  }

  /** Linked except that one more node sits before the final sentinel. */
  ghost predicate Attached(ring: seq<Element>, e: Element)
    requires |ring| >= 2
    reads ring, e
  {
    var n := |ring| - 2;
    && (forall j {:trigger ring[j].next} :: 0 <= j < n ==> ring[j].next == ring[j + 1])
    && (forall j {:trigger ring[j].prev} :: 1 <= j <= n ==> ring[j].prev == ring[j - 1])
    && ring[n].next == e && e.prev == ring[n] && e.next == ring[n + 1] && ring[n + 1].prev == e
  }

  lemma LinkedAppend(ring: seq<Element>, e: Element)
    requires |ring| >= 2 && Attached(ring, e) && ring[0] == ring[|ring| - 1]
    ensures Linked(ring[..|ring| - 1] + [e, ring[0]])
  {
  }

  lemma BridgedIsLinkedWithout(ring: seq<Element>, i: nat)
    requires 0 < i < |ring| - 1 && Bridged(ring, i)
    ensures Linked(Without(ring, i))
  {
    var r := Without(ring, i);
    forall j | 0 <= j < |r| - 1 ensures r[j].next == r[j + 1] {
      assert r[j] == ring[if j < i then j else j + 1];
    }
    forall j | 1 <= j < |r| ensures r[j].prev == r[j - 1] {
      assert r[j] == ring[if j < i then j else j + 1];
    }
  }

  /** The nodes in between belong to the list, but for one. */
  ghost predicate OwnedBut(ring: seq<Element>, list: List, i: nat)
    reads ring
  {
    forall j {:trigger ring[j].list} :: 1 <= j < |ring| - 1 && j != i ==> ring[j].list == list
  }

  lemma OwnedWithout(ring: seq<Element>, list: List, i: nat)
    requires 0 < i < |ring| - 1 && OwnedBut(ring, list, i)
    ensures OwnedBut(Without(ring, i), list, 0)
  {
    var r := Without(ring, i);
    forall j | 1 <= j < |r| - 1 ensures r[j].list == list {
      assert r[j] == ring[if j < i then j else j + 1];
    }
  }

  /** Go's container/list: a ring through a sentinel. */
  class List {
    var root: Element
    var len: nat
    /** The sentinel, the nodes in order, and the sentinel again. */
    ghost var ring: seq<Element>

    ghost predicate Valid()
      reads this, ring
    {
      && Ring(ring, len) && ring[0] == root
      && root.list != this
      && Linked(ring)
      && OwnedBut(ring, this, 0)
    }

    ghost function Nodes(): (nodes: seq<Element>)
      reads this
      requires |ring| >= 2
      ensures |nodes| == |ring| - 2 && forall i :: 0 <= i < |nodes| ==> nodes[i] == ring[i + 1]
    {
      ring[1..|ring| - 1]
    }

    constructor ()
      ensures Valid() && Nodes() == [] && fresh(ring)
    {
      var r := new Element("");
      root, len, ring := r, 0, [r, r];
      new;
      root.next, root.prev := root, root;
    }

    method Front() returns (e: Element?)
      requires Valid()
      ensures e == if Nodes() == [] then null else Nodes()[0]
    {
      if len == 0 {
        return null;
      }
      e := root.next;
    }

    /** Insert a detached node before the sentinel. */
    method LinkLast(e: Element)
      requires Valid() && e !in ring
      modifies this, ring, e
      ensures Valid() && Nodes() == old(Nodes()) + [e]
      ensures ring == old(ring)[..old(len) + 1] + [e, root]
    {
      RingAppend(ring, len, e);
      Attach(e);
      LinkedAppend(ring, e);
      len := len + 1;
      ring := ring[..len] + [e, root];
    }

    /** Put a detached node between the last node and the sentinel. */
    method Attach(e: Element)
      requires Valid() && e !in ring
      modifies ring, e
      ensures Attached(ring, e) && e.list == this
      ensures forall j {:trigger ring[j].list} :: 0 <= j <= len ==> ring[j].list == old(ring[j].list)
    {
      var last := root.prev;
      assert ring[len + 1].prev == ring[len] == last;
      e.prev, e.next := last, root;
      last.next := e;
      root.prev := e;
      e.list := this;
    }

    /** Make the neighbours of a node bypass it. */
    method Bridge(e: Element, ghost i: nat)
      requires Valid() && 0 < i <= len && ring[i] == e
      modifies ring
      ensures Bridged(ring, i)
      ensures forall j {:trigger ring[j].list} :: 0 <= j <= len && j != i ==> ring[j].list == old(ring[j].list)
    {
      assert e.prev == ring[i - 1] && e.next == ring[i + 1] by {
        assert ring[i].prev == ring[i - 1] && ring[i].next == ring[i + 1];
      }
      e.prev.next := e.next;
      e.next.prev := e.prev;
      e.list := null;
    }

    method Unlink(e: Element, ghost i: nat)
      requires Valid() && i < len && Nodes()[i] == e
      modifies this, ring
      ensures Valid() && Nodes() == Without(old(Nodes()), i)
      ensures ring == Without(old(ring), i + 1) && e !in ring
    {
      RingWithout(ring, len, i);
      Bridge(e, i + 1);
      BridgedIsLinkedWithout(ring, i + 1);
      OwnedWithout(ring, this, i + 1);
      len := len - 1;
      ring := Without(ring, i + 1);
    }

    method PushBack(value: Key) returns (e: Element)
      requires Valid()
      modifies this, ring
      ensures Valid() && fresh(e) && e.value == value
      ensures Nodes() == old(Nodes()) + [e] && fresh(set x | x in ring && x !in old(ring))
    {
      e := new Element(value);
      LinkLast(e);
    }

    /** Removal by handle. */
    method Remove(e: Element, ghost i: nat)
      requires Valid() && i < len && Nodes()[i] == e
      modifies this, ring
      ensures Valid() && Nodes() == Without(old(Nodes()), i)
      ensures forall x :: x in ring ==> x in old(ring)
    {
      if e.list == this {
        Unlink(e, i);
        e.next, e.prev := null, null;
      }
    }

    method MoveToBack(e: Element, ghost i: nat)
      requires Valid() && i < len && Nodes()[i] == e
      modifies this, ring
      ensures Valid() && Nodes() == Without(old(Nodes()), i) + [e]
      ensures forall x :: x in ring ==> x in old(ring)
    {
      assert ring[len + 1].prev == ring[len] && ring[i + 1] == e;
      if e.list != this || root.prev == e {
        assert i == len - 1;
        assert Nodes() == Without(Nodes(), i) + [e];
        return;
      }
      Unlink(e, i);
      LinkLast(e);
    }
  }

  /** The map and the list agree: the keys are distinct, every listed node is the one its
      key leads to, and every mapped key is listed. */
  ghost predicate Indexes(m: map<Key, Element>, nodes: seq<Element>) {
    && Distinct(KeysOf(nodes))
    && (forall i :: 0 <= i < |nodes| ==> nodes[i].value in m && m[nodes[i].value] == nodes[i])
    && (forall k :: k in m ==> k in KeysOf(nodes))
  }

  lemma IndexAppend(m: map<Key, Element>, nodes: seq<Element>, e: Element)
    requires Indexes(m, nodes) && e.value !in m
    ensures KeysOf(nodes + [e]) == Started(KeysOf(nodes), e.value)
    ensures Indexes(m[e.value := e], nodes + [e])
  {
    KeysAppend(nodes, e);
  }

  lemma KeysWithout(nodes: seq<Element>, i: nat)
    requires i < |nodes|
    ensures KeysOf(Without(nodes, i)) == Without(KeysOf(nodes), i)
  {
  }

  lemma IndexRemove(m: map<Key, Element>, nodes: seq<Element>, i: nat)
    requires Indexes(m, nodes) && i < |nodes|
    ensures var k := nodes[i].value;
            && KeysOf(Without(nodes, i)) == Stopped(KeysOf(nodes), k)
            && Indexes(m - {k}, Without(nodes, i))
  {
    var k, ks := nodes[i].value, KeysOf(nodes);
    assert ks[i] == k;
    IndexUnique(ks, k, i);
    KeysWithout(nodes, i);
    StepKeepsDistinct(ks, Stop(k));
  }

  lemma IndexRotate(m: map<Key, Element>, nodes: seq<Element>)
    requires Indexes(m, nodes) && nodes != []
    ensures KeysOf(Without(nodes, 0) + [nodes[0]]) == Rotated(KeysOf(nodes))
    ensures Indexes(m, Without(nodes, 0) + [nodes[0]])
  {
    var moved := Without(nodes, 0) + [nodes[0]];
    RotatedKeys(nodes);
    RotatedMembers(nodes);
    StepKeepsDistinct(KeysOf(nodes), Assign);
    IndexPermute(m, nodes, moved);
  }

  lemma RotatedKeys(nodes: seq<Element>)
    requires nodes != []
    ensures KeysOf(Without(nodes, 0) + [nodes[0]]) == Rotated(KeysOf(nodes))
  {
    KeysWithout(nodes, 0);
    KeysAppend(Without(nodes, 0), nodes[0]);
    WithoutFirst(KeysOf(nodes));
  }

  lemma WithoutFirst<T>(s: seq<T>)
    requires s != []
    ensures Without(s, 0) == s[1..]
  {
  }

  lemma RotatedMembers<T>(s: seq<T>)
    requires s != []
    ensures forall e :: e in Without(s, 0) + [s[0]] <==> e in s
  {
    WithoutFirst(s);
    assert s == [s[0]] + s[1..];
  }

  lemma KeysAppend(nodes: seq<Element>, e: Element)
    ensures KeysOf(nodes + [e]) == KeysOf(nodes) + [e.value]
  {
  }

  lemma IndexPermute(m: map<Key, Element>, nodes: seq<Element>, moved: seq<Element>)
    requires Indexes(m, nodes) && Distinct(KeysOf(moved))
    requires forall e :: e in moved <==> e in nodes
    ensures Indexes(m, moved)
  {
    forall i | 0 <= i < |moved| ensures moved[i].value in m && m[moved[i].value] == moved[i] {
      assert moved[i] in nodes;
    }
    forall k | k in m ensures k in KeysOf(moved) {
      var i :| 0 <= i < |nodes| && KeysOf(nodes)[i] == k;
      assert nodes[i] in moved;
      var j :| 0 <= j < |moved| && moved[j] == nodes[i];
      assert KeysOf(moved)[j] == k;
    }
  }

  /** The part of the syncer that owns the watched keys.  Each method is one critical
      section under the syncer's lock. */
  class Syncer {
    var gitSyncMap: map<Key, Element>
    const gitSyncList: List
    const taskInterval: int

    ghost predicate Valid()
      reads this, gitSyncList, gitSyncList.ring
    {
      gitSyncList.Valid() && Indexes(gitSyncMap, gitSyncList.Nodes())
    }

    ghost function Keys(): seq<Key>
      reads this, gitSyncList, gitSyncList.ring
      requires Valid()
    {
      KeysOf(gitSyncList.Nodes())
    }

    constructor (taskInterval: int)
      ensures Valid() && Keys() == [] && this.taskInterval == taskInterval
      ensures fresh(gitSyncList) && fresh(gitSyncList.ring)
    {
      gitSyncMap := map[];
      gitSyncList := new List();
      this.taskInterval := taskInterval;
    }

    method Contains(key: Key) returns (found: bool)
      requires Valid()
      ensures found <==> key in Keys()
    {
      found := key in gitSyncMap;
    }

    method Length() returns (n: nat)
      requires Valid()
      ensures n == |Keys()|
    {
      n := gitSyncList.len;
    }

    method StartWatching(key: Key)
      requires Valid()
      modifies this, gitSyncList, gitSyncList.ring
      ensures Valid() && Keys() == Step(old(Keys()), Start(key))
      ensures fresh(set e | e in gitSyncList.ring && e !in old(gitSyncList.ring))
    {
      if key !in gitSyncMap {
        ghost var m, nodes := gitSyncMap, gitSyncList.Nodes();
        var e := gitSyncList.PushBack(key);
        gitSyncMap := gitSyncMap[key := e];
        IndexAppend(m, nodes, e);
      }
    }

    method StopWatching(key: Key)
      requires Valid()
      modifies this, gitSyncList, gitSyncList.ring
      ensures Valid() && Keys() == Step(old(Keys()), Stop(key))
      ensures forall e :: e in gitSyncList.ring ==> e in old(gitSyncList.ring)
    {
      if key in gitSyncMap {
        var e := gitSyncMap[key];
        ghost var i := IndexOf(Keys(), key);
        IndexRemove(gitSyncMap, gitSyncList.Nodes(), i);
        gitSyncList.Remove(e, i);
        gitSyncMap := gitSyncMap - {key};
      }
    }

    /** The assigner's critical section, up to the send: rotate, and report the key to
        hand over. */
    method Rotate() returns (picked: Option<Key>)
      requires Valid()
      modifies this, gitSyncList, gitSyncList.ring
      ensures Valid() && Keys() == Step(old(Keys()), Assign)
      ensures Pick(old(Keys()), Assign) == if picked.Some? then [picked.value] else []
      ensures forall e :: e in gitSyncList.ring ==> e in old(gitSyncList.ring)
    {
      if gitSyncList.len == 0 {
        return None;
      }
      IndexRotate(gitSyncMap, gitSyncList.Nodes());
      var e := gitSyncList.Front();
      gitSyncList.MoveToBack(e, 0);
      picked := Some(e.value);
    }

    /** The pause the assigner takes after an assign. */
    method NextPause() returns (ms: int)
      requires Valid()
      ensures ms == Pause(taskInterval, |Keys()|)
      ensures Keys() == [] ==> ms == taskInterval
      ensures Keys() != [] ==> if taskInterval < |Keys()| then ms == 1
                               else |Keys()| * ms <= taskInterval < |Keys()| * (ms + 1)
    {
      PauseIs(taskInterval, |Keys()|);
      var l := Length();
      if l == 0 {
        return taskInterval;
      }
      var result := if taskInterval >= 0 then taskInterval / l else -(-taskInterval / l);
      ms := if result > 0 then result else 1;
    }

    /** One job of a worker: it leaves the watched keys alone unless the GitSync turns out
        to be gone or deleted. */
    method RunOnce(key: Key, a: Attempt, recorded: Recorded) returns (o: Outcome)
      requires Valid()
      modifies this, gitSyncList, gitSyncList.ring
      ensures Valid() && o == SyncRun.RunOnce(key, a, recorded)
      ensures Keys() == if o.Unwatched? then Step(old(Keys()), Stop(key)) else old(Keys())
    {
      var strs := Split(key, '/');
      if |strs| != 2 {
        return Aborted;
      }
      if a.fetch.Missing? {
        StopWatching(key);
        return Unwatched;
      }
      if a.fetch.Unreadable? {
        return Aborted;
      }
      if a.fetch.terminating {
        if !a.deletionOk {
          return Aborted;
        }
        StopWatching(key);
        return Unwatched;
      }
      if a.automatedSyncDisabled {
        return Skipped;
      }
      if a.manifests.None? {
        return Aborted;
      }
      if recorded.RecordUnreadable? {
        return Aborted;
      }
      var commitHash, last := a.manifests.value, recorded.status;
      if a.autoHealDisabled && last.Some? && last.value.hash == commitHash {
        return Skipped;
      }
      if !a.labelsOk {
        return Aborted;
      }
      o := Applied(NewStatus(commitHash, a));
    }
  }
}
