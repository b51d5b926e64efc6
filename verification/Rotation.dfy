/** The watched keys as a plain sequence, and what the assigner's rotation promises
    about it under arbitrary interleaved starts and stops. */
module Rotation {
  import opened Text

  type Key = string

  /** One critical section on the watched keys.  Sleep is the assigner reading the
      length to choose its next pause. */
  datatype Event = Start(key: Key) | Stop(key: Key) | Assign | Sleep

  ghost predicate Distinct<T>(s: seq<T>) {
    forall i, j :: 0 <= i < j < |s| ==> s[i] != s[j]
  }

  function IndexOf(s: seq<Key>, k: Key): (i: nat)
    requires k in s
    ensures i < |s| && s[i] == k && k !in s[..i]
  {
    if s[0] == k then 0 else 1 + IndexOf(s[1..], k)
  }

  function Started(s: seq<Key>, k: Key): seq<Key> {
    if k in s then s else s + [k]
  }

  function Stopped(s: seq<Key>, k: Key): seq<Key> {
    if k in s then var i := IndexOf(s, k); s[..i] + s[i + 1..] else s
  }

  function Rotated(s: seq<Key>): seq<Key> {
    if s == [] then [] else s[1..] + [s[0]]
  }

  function Step(s: seq<Key>, e: Event): seq<Key> {
    match e
    case Start(k) => Started(s, k)
    case Stop(k) => Stopped(s, k)
    case Assign => Rotated(s)
    case Sleep => s
  }

  function Run(s: seq<Key>, es: seq<Event>): seq<Key>
    decreases |es|
  {
    if es == [] then s else Run(Step(s, es[0]), es[1..])
  }

  /** What a single event dispatches: the front key, when it is an Assign. */
  function Pick(s: seq<Key>, e: Event): seq<Key> {
    if e.Assign? && s != [] then [s[0]] else []
  }

  function Picks(s: seq<Key>, es: seq<Event>): seq<Key>
    decreases |es|
  {
    if es == [] then [] else Pick(s, es[0]) + Picks(Step(s, es[0]), es[1..])
  }

  function Assigns(es: seq<Event>): nat {
    if es == [] then 0 else (if es[0].Assign? then 1 else 0) + Assigns(es[1..])
  }

  lemma {:induction false} RunConcat(s: seq<Key>, es: seq<Event>, fs: seq<Event>)
    ensures Run(s, es + fs) == Run(Run(s, es), fs)
    ensures Picks(s, es + fs) == Picks(s, es) + Picks(Run(s, es), fs)
    decreases |es|
  {
    if es == [] {
      assert es + fs == fs;
    } else {
      var s' := Step(s, es[0]);
      RunConcat(s', es[1..], fs);
      AppendTail(es, fs);
      AppendAssociates(Pick(s, es[0]), Picks(s', es[1..]), Picks(Run(s, es), fs));
    }
  }

  lemma RunAppend(s: seq<Key>, es: seq<Event>, e: Event)
    ensures Run(s, es + [e]) == Step(Run(s, es), e)
    ensures Picks(s, es + [e]) == Picks(s, es) + Pick(Run(s, es), e)
  {
    RunConcat(s, es, [e]);
    var t := Run(s, es);
    assert Run(t, [e]) == Run(Step(t, e), []);
    assert Picks(t, [e]) == Pick(t, e) + Picks(Step(t, e), []);
  }

  lemma StepKeepsDistinct(s: seq<Key>, e: Event)
    requires Distinct(s)
    ensures Distinct(Step(s, e))
    ensures e.Stop? ==> e.key !in Step(s, e)
    ensures forall k :: k in Step(s, e) <==> (k in s && e != Stop(k)) || e == Start(k)
  {
    match e
    case Stop(k) =>
      if k in s {
        var i := IndexOf(s, k);
        forall x | x in s && x != k ensures x in Stopped(s, k) {
          var j :| 0 <= j < |s| && s[j] == x;
          assert if j < i then s[..i][j] == x else s[i + 1..][j - i - 1] == x;
        }
      }
    case Assign =>
      if s != [] {
        assert s == [s[0]] + s[1..];
      }
    case _ =>
  }

  /** The other keys, in their order. */
  function Except(s: seq<Key>, k: Key): seq<Key> {
    if s == [] then [] else (if s[0] != k then [s[0]] else []) + Except(s[1..], k)
  }

  lemma {:induction false} ExceptConcat(s: seq<Key>, t: seq<Key>, k: Key)
    ensures Except(s + t, k) == Except(s, k) + Except(t, k)
  {
    if s == [] {
      assert s + t == t;
    } else {
      AppendTail(s, t);
      ExceptConcat(s[1..], t, k);
    }
  }

  /** Starting or stopping a key leaves the others in their order. */
  lemma OthersKeepOrder(s: seq<Key>, k: Key)
    ensures Except(Started(s, k), k) == Except(s, k) && Except(Stopped(s, k), k) == Except(s, k)
  {
    assert [k][1..] == [] && Except([k], k) == [];
    ExceptConcat(s, [k], k);
    if k in s {
      DroppedIsExcepted(s, k, IndexOf(s, k));
    }
  }

  lemma {:induction false} DroppedIsExcepted(s: seq<Key>, k: Key, i: nat)
    requires i < |s| && s[i] == k
    ensures Except(s[..i] + s[i + 1..], k) == Except(s, k)
    decreases |s|
  {
    if i == 0 {
      assert s[..0] + s[1..] == s[1..];
    } else {
      var dropped := s[..i] + s[i + 1..];
      DroppedIsExcepted(s[1..], k, i - 1);
      assert dropped[1..] == s[1..][..i - 1] + s[1..][i..];
    }
  }

  /** True when `j` will be dispatched before `k` if nothing else happens. */
  predicate Ahead(s: seq<Key>, j: Key, k: Key) {
    j in s && k in s && IndexOf(s, j) < IndexOf(s, k)
  }

  lemma IndexUnique(s: seq<Key>, k: Key, i: nat)
    requires Distinct(s) && i < |s| && s[i] == k
    ensures IndexOf(s, k) == i
  {
  }

  function NextPosition(s: seq<Key>, e: Event, k: Key): int
    requires k in s
  {
    var p := IndexOf(s, k);
    if e.Assign? then (if p == 0 then |s| - 1 else p - 1)
    else if e.Stop? && Ahead(s, e.key, k) then p - 1
    else p
  }

  /** One event moves a key that it does not stop as follows: dispatch sends the key
      to the back, the dispatch of another key moves it one step forward, a start
      leaves it, and a stop moves it forward when the stopped key was before it. */
  lemma PositionStep(s: seq<Key>, e: Event, k: Key)
    requires Distinct(s) && k in s && e != Stop(k)
    ensures k in Step(s, e)
    ensures IndexOf(Step(s, e), k) == NextPosition(s, e, k)
  {
    StepKeepsDistinct(s, e);
    var p := IndexOf(s, k);
    match e
    case Start(_) => IndexUnique(Step(s, e), k, p);
    case Stop(j) =>
      if j in s {
        var i := IndexOf(s, j);
        IndexUnique(Step(s, e), k, if p < i then p else p - 1);
      }
    case Assign => IndexUnique(Step(s, e), k, if p == 0 then |s| - 1 else p - 1);
    case Sleep =>
  }

  /** The set of keys ahead of `k` only shrinks until `k` is dispatched, and it loses
      exactly the keys that are dispatched or stopped. */
  lemma AheadStep(s: seq<Key>, e: Event, j: Key, k: Key)
    requires Distinct(s) && k in s && j != k && e != Stop(k)
    requires Pick(s, e) != [k]
    ensures Ahead(Step(s, e), j, k) <==> Ahead(s, j, k) && Pick(s, e) != [j] && e != Stop(j)
    ensures Pick(s, e) == [j] ==> Ahead(s, j, k)
  {
    PositionStep(s, e, k);
    StepKeepsDistinct(s, e);
    if j in s && e != Stop(j) {
      PositionStep(s, e, j);
    } else if e == Start(j) {
      IndexUnique(Step(s, e), j, |s|);
    }
  }

  /** While `k` is neither stopped nor dispatched, another key is dispatched at most
      once, and only if it was ahead; if it was ahead, is not stopped and is no longer
      ahead, it was dispatched exactly once. */
  lemma {:induction false} BypassCount(s: seq<Key>, es: seq<Event>, j: Key, k: Key)
    requires Distinct(s) && k in s && j != k
    requires Stop(k) !in es && k !in Picks(s, es)
    ensures Distinct(Run(s, es)) && k in Run(s, es)
    ensures multiset(Picks(s, es))[j] <= if Ahead(s, j, k) then 1 else 0
    ensures Stop(j) !in es && Ahead(s, j, k) && !Ahead(Run(s, es), j, k) ==> multiset(Picks(s, es))[j] == 1
    decreases |es|
  {
    if es != [] {
      var e, s' := es[0], Step(s, es[0]);
      assert Picks(s, es) == Pick(s, e) + Picks(s', es[1..]);
      assert e in es;
      assert Pick(s, e) == [k] ==> k in Picks(s, es);
      AheadStep(s, e, j, k);
      StepKeepsDistinct(s, e);
      BypassCount(s', es[1..], j, k);
    }
  }

  /** Bounded bypass: between two consecutive dispatches of a key that stays watched,
      any other key is dispatched at most once, and exactly once if it is watched at
      the first dispatch and not stopped before the second. */
  lemma BoundedBypass(s: seq<Key>, mid: seq<Event>, j: Key, k: Key)
    requires Distinct(s) && s != [] && s[0] == k && j != k
    requires Stop(k) !in mid && k !in Picks(Rotated(s), mid)
    requires var t := Run(Rotated(s), mid); t != [] && t[0] == k
    ensures multiset(Picks(Rotated(s), mid))[j] <= 1
    ensures j in s && Stop(j) !in mid ==> multiset(Picks(Rotated(s), mid))[j] == 1
  {
    var r := Rotated(s);
    StepKeepsDistinct(s, Assign);
    assert r[|r| - 1] == k;
    BypassCount(r, mid, j, k);
    if j in s {
      IndexUnique(r, k, |r| - 1);
      IndexUnique(Run(r, mid), k, 0);
    }
  }

  /** A key at position i that is not stopped is dispatched within i + 1 assigns,
      whatever starts and stops of other keys interleave. */
  lemma {:induction false} DispatchedWithin(s: seq<Key>, es: seq<Event>, k: Key)
    requires Distinct(s) && k in s && Stop(k) !in es
    requires Assigns(es) > IndexOf(s, k)
    ensures k in Picks(s, es)
    decreases |es|
  {
    var e := es[0];
    assert e in es;
    if Pick(s, e) != [k] {
      PositionStep(s, e, k);
      StepKeepsDistinct(s, e);
      DispatchedWithin(Step(s, e), es[1..], k);
    }
  }

  // ----- Pacing -----

  /** The pause, in milliseconds, that follows an assign when `length` keys are watched.
      Go's integer division truncates toward zero. */
  function Pause(interval: int, length: nat): int {
    if length == 0 then interval
    else
      var result := if interval >= 0 then interval / length else -(-interval / length);
      if result > 0 then result else 1
  }

  /** Exactly how long it is: the whole interval when nothing is watched; otherwise the
      interval split evenly, rounded down, but at least one millisecond. */
  lemma PauseIs(interval: int, length: nat)
    ensures length == 0 ==> Pause(interval, length) == interval
    ensures length > 0 && interval < length ==> Pause(interval, length) == 1
    ensures length > 0 && interval >= length ==>
      length * Pause(interval, length) <= interval < length * (Pause(interval, length) + 1)
  {
    if length > 0 {
      if interval >= 0 {
        var q := interval / length;
        assert interval == length * q + interval % length;
        if interval < length {
          assert q == 0;
        } else {
          assert q >= 1;
        }
      } else {
        NotPositive(-interval, length);
      }
    }
  }

  lemma NotPositive(n: nat, d: nat)
    requires d > 0
    ensures -(n / d) <= 0
  {
  }

  function PauseFor(interval: int): nat -> int {
    (length: nat) => Pause(interval, length)
  }

  datatype Turn = SleepDue | AssignDue | Broken

  /** The assigner strictly alternates assign and sleep; starts and stops are free. */
  function TurnAfter(es: seq<Event>, turn: Turn): Turn {
    if es == [] then turn
    else match es[0]
      case Sleep => if turn == SleepDue then TurnAfter(es[1..], AssignDue) else Broken
      case Assign => if turn == AssignDue then TurnAfter(es[1..], SleepDue) else Broken
      case _ => TurnAfter(es[1..], turn)
  }

  /** The sum of the pauses taken in a run, for a pause that depends on the length. */
  function TotalSleep(pause: nat -> int, s: seq<Key>, es: seq<Event>): int
    decreases |es|
  {
    if es == [] then 0
    else (if es[0].Sleep? then pause(|s|) else 0) + TotalSleep(pause, Step(s, es[0]), es[1..])
  }

  ghost predicate NoStops(es: seq<Event>) {
    forall e | e in es :: !e.Stop?
  }

  lemma ProductOrder(d: nat, x: int, y: int)
    requires d * x < d * y
    ensures x < y
  {
    if x >= y {
      ProductMonotone(d, y, x);
    }
  }

  lemma ProductMonotone(d: nat, x: int, y: int)
    requires x <= y
    ensures d * x <= d * y
  {
    assert d * (y - x) >= 0;
  }

  lemma QuotientMonotone(n: nat, big: nat, small: nat)
    requires 0 < small <= big
    ensures n / big <= n / small
  {
    var a, b := n / big, n / small;
    ProductMonotone(a, small, big);
    ProductOrder(small, a, b + 1);
  }

  lemma PauseBound(interval: nat, length: nat, l: nat)
    requires 0 < l <= length
    ensures Pause(interval, length) <= Pause(interval, l)
  {
    QuotientMonotone(interval, length, l);
  }

  /** The pauses still to come before the key at position p is dispatched. */
  function PausesLeft(p: nat, turn: Turn): nat {
    p + if turn == SleepDue then 1 else 0
  }

  /** With no stops, a key at position p waits through p assigns, and so through p or
      p + 1 pauses, none longer than the pause for the present length. */
  lemma {:induction false} PausesUntilDispatch(s: seq<Key>, es: seq<Event>, k: Key, pause: nat -> int, l: nat, turn: Turn)
    requires Distinct(s) && k in s && l <= |s| && turn != Broken
    requires forall m :: m >= l ==> pause(m) <= pause(l)
    requires NoStops(es) && k !in Picks(s, es) && TurnAfter(es, turn) == AssignDue
    requires var t := Run(s, es); t != [] && t[0] == k
    ensures TotalSleep(pause, s, es) <= Times(PausesLeft(IndexOf(s, k), turn), pause(l))
    ensures |Run(s, es)| >= |s|
    ensures |Run(s, es)| == l ==> TotalSleep(pause, s, es) == Times(PausesLeft(IndexOf(s, k), turn), pause(l))
    decreases |es|
  {
    if es != [] {
      var e, s' := es[0], Step(s, es[0]);
      QuietStep(s, es, k, turn);
      QuietPosition(s, e, k, turn);
      PausesUntilDispatch(s', es[1..], k, pause, l, NextTurn(turn, e));
      if e.Sleep? {
        assert pause(|s|) <= pause(l);
      }
    }
  }

  function NextTurn(turn: Turn, e: Event): Turn {
    if e.Sleep? then AssignDue else if e.Assign? then SleepDue else turn
  }

  lemma QuietStep(s: seq<Key>, es: seq<Event>, k: Key, turn: Turn)
    requires es != [] && turn != Broken
    requires NoStops(es) && k !in Picks(s, es) && TurnAfter(es, turn) == AssignDue
    ensures var e, s' := es[0], Step(s, es[0]);
      && !e.Stop? && Pick(s, e) != [k]
      && (e.Sleep? ==> turn == SleepDue) && (e.Assign? ==> turn == AssignDue)
      && NoStops(es[1..]) && k !in Picks(s', es[1..])
      && TurnAfter(es[1..], NextTurn(turn, e)) == AssignDue
  {
    var e := es[0];
    assert e in es && forall x | x in es[1..] :: x in es;
    assert Picks(s, es) == Pick(s, e) + Picks(Step(s, e), es[1..]);
    assert Pick(s, e) == [k] ==> k in Picks(s, es);
  }

  lemma QuietPosition(s: seq<Key>, e: Event, k: Key, turn: Turn)
    requires Distinct(s) && k in s && !e.Stop? && Pick(s, e) != [k]
    requires (e.Sleep? ==> turn == SleepDue) && (e.Assign? ==> turn == AssignDue)
    ensures var s' := Step(s, e);
      && Distinct(s') && k in s' && |s'| >= |s|
      && PausesLeft(IndexOf(s', k), NextTurn(turn, e))
         == PausesLeft(IndexOf(s, k), turn) - if e.Sleep? then 1 else 0
  {
    PositionStep(s, e, k);
    StepKeepsDistinct(s, e);
  }

  /** n times a unit, by repeated addition. */
  function Times(n: nat, unit: int): int {
    if n == 0 then 0 else Times(n - 1, unit) + unit
  }

  lemma {:induction false} TimesIsProduct(n: nat, unit: int)
    ensures Times(n, unit) == n * unit
  {
    if n > 0 {
      TimesIsProduct(n - 1, unit);
    }
  }

  lemma PauseTotal(interval: nat, l: nat)
    requires l > 0
    ensures l <= interval ==> interval - l < l * Pause(interval, l) <= interval
    ensures l > interval ==> l * Pause(interval, l) == l
  {
    var q := interval / l;
    assert interval == l * q + interval % l;
    if l <= interval {
      assert 0 < l * (q + 1) - interval <= l;
      assert q >= 1;
    } else {
      assert l * q < l;
      assert q < 1;
    }
  }

  /** Pacing.  Let `k` be dispatched while l keys are watched, and let no key be stopped
      before its next dispatch.  The pauses in between total at most max(interval, l);
      if moreover no key joins, they total more than interval - l, and they stay within
      the interval if and only if l does. */
  lemma PacingBound(s: seq<Key>, mid: seq<Event>, k: Key, interval: nat)
    requires Distinct(s) && s != [] && s[0] == k
    requires NoStops(mid) && k !in Picks(Rotated(s), mid)
    requires TurnAfter(mid, SleepDue) == AssignDue
    requires var t := Run(Rotated(s), mid); t != [] && t[0] == k
    ensures var l, total := |s|, TotalSleep(PauseFor(interval), Rotated(s), mid);
            && total <= (if interval > l then interval else l)
            && (|Run(Rotated(s), mid)| == l ==>
                  total > interval - l && (total <= interval <==> l <= interval))
  {
    var r, l, pause := Rotated(s), |s|, PauseFor(interval);
    StepKeepsDistinct(s, Assign);
    assert r[|r| - 1] == k;
    IndexUnique(r, k, |r| - 1);
    forall m | m >= l ensures pause(m) <= pause(l) {
      PauseBound(interval, m, l);
    }
    PausesUntilDispatch(r, mid, k, pause, l, SleepDue);
    TimesIsProduct(l, pause(l));
    PauseTotal(interval, l);
  }
}
