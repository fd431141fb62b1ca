/**
 The ordering of conflicted events: Kahn's algorithm over auth edges, with power level,
 timestamp and event ID as the tie-break. The loop that counts in-degrees, sorts the ready
 list and pops its head is proved to produce the only sequence that always takes the least
 ready event.
 */
module TopologicalSort {
  import opened Events
  import opened StringOrder

  /** What the comparator and the graph read. */
  datatype Context = Context(events: map<EventId, Event>, powerLevels: Option<Event>)

  function EffectivePowerLevel(sender: UserId, powerLevels: Option<Event>): int {
    match powerLevels
    case None => 0
    case Some(ev) =>
      match ev.content.levels
      case None => 0
      case Some(l) => if sender in l.users then l.users[sender] else l.usersDefault
  }

  /** The comparator handed to the stable sort. */
  predicate Before(a: EventId, b: EventId, c: Context) {
    if a !in c.events || b !in c.events then StrLess(a, b)
    else
      var ea, eb := c.events[a], c.events[b];
      var pa := EffectivePowerLevel(ea.sender, c.powerLevels);
      var pb := EffectivePowerLevel(eb.sender, c.powerLevels);
      if pa != pb then pa > pb
      else if ea.originTs != eb.originTs then ea.originTs < eb.originTs
      else StrLess(ea.id, eb.id)
  }

  /** What a comparison sort needs of its comparator on the elements it is given. */
  ghost predicate StrictTotalOn(s: set<EventId>, c: Context) {
    && (forall a | a in s :: !Before(a, a, c))
    && (forall a, b | a in s && b in s && a != b :: Before(a, b, c) || Before(b, a, c))
    && (forall a, b, d | a in s && b in s && d in s && Before(a, b, c) && Before(b, d, c) :: Before(a, d, c))
  }

  /** Every known event is stored under its own ID. */
  ghost predicate StoredUnderOwnId(events: map<EventId, Event>) {
    forall id | id in events :: events[id].id == id
  }

  lemma KnownEventsAreTotallyOrdered(s: set<EventId>, c: Context)
    requires s <= c.events.Keys && StoredUnderOwnId(c.events)
    ensures StrictTotalOn(s, c)
  {
    forall a | a in s
      ensures !Before(a, a, c)
    {
      StrLessIrreflexive(a);
    }
    forall a, b | a in s && b in s && a != b
      ensures Before(a, b, c) || Before(b, a, c)
    {
      StrLessTotal(a, b);
    }
    forall a, b, d | a in s && b in s && d in s && Before(a, b, c) && Before(b, d, c)
      ensures Before(a, d, c)
    {
      if StrLess(a, b) && StrLess(b, d) {
        StrLessTransitive(a, b, d);
      }
    }
  }

  lemma TransitiveThrough(a: EventId, b: EventId, d: EventId, s: set<EventId>, c: Context)
    requires StoredUnderOwnId(c.events) && BridgedInOrder(s, c) && a in s && b in s && d in s
    requires Before(a, b, c) && Before(b, d, c)
    ensures Before(a, d, c)
  {
    assert Bridges(a, b, d, s, c) ==> Before(a, d, c);
    assert Bridges(d, a, b, s, c) ==> Before(d, b, c);
    assert Bridges(b, d, a, s, c) ==> Before(b, a, c);
    if a in c.events && b in c.events && d in c.events {
      KnownEventsAreTotallyOrdered({a, b, d}, c);
    } else {
      StrLessTotal(a, d);
      StrLessIrreflexive(a);
      if StrLess(a, b) && StrLess(b, d) {
        StrLessTransitive(a, b, d);
      }
      if b in c.events {
        KnownEventsAreTotallyOrdered({a, b, d} * c.events.Keys, c);
      }
    }
  }

  /** `u` is an unknown ID between two known events in ID order. */
  predicate Bridges(a: EventId, u: EventId, b: EventId, s: set<EventId>, c: Context) {
    && a in s && u in s && b in s
    && a in c.events && b in c.events && u !in c.events
    && StrLess(a, u) && StrLess(u, b)
  }

  /** Two known events with an unknown ID between them in ID order stand in ID order themselves. */
  ghost predicate BridgedInOrder(s: set<EventId>, c: Context) {
    forall a, u, b | Bridges(a, u, b, s, c) :: Before(a, b, c)
  }

  /** The comparator is a strict total order iff no unknown ID lies between two known events it turns around. */
  lemma ComparatorIsAnOrderIff(s: set<EventId>, c: Context)
    requires StoredUnderOwnId(c.events)
    ensures StrictTotalOn(s, c) <==> BridgedInOrder(s, c)
  {
    if BridgedInOrder(s, c) {
      forall a | a in s
        ensures !Before(a, a, c)
      {
        StrLessIrreflexive(a);
      }
      forall a, b | a in s && b in s && a != b
        ensures Before(a, b, c) || Before(b, a, c)
      {
        StrLessTotal(a, b);
      }
      forall a, b, d | a in s && b in s && d in s && Before(a, b, c) && Before(b, d, c)
        ensures Before(a, d, c)
      {
        TransitiveThrough(a, b, d, s, c);
      }
    } else {
      var a, u, b :| Bridges(a, u, b, s, c) && !Before(a, b, c);
      assert Before(a, u, c) && Before(u, b, c);
    }
  }

  /** An instance: one unknown ID between two known ones that stand in the other order. */
  lemma UnknownEventBreaksTheOrder()
    ensures var c := Context(map["a" := Example("a").(originTs := 2), "c" := Example("c").(originTs := 1)], None);
      !StrictTotalOn({"a", "b", "c"}, c)
  {
    var c := Context(map["a" := Example("a").(originTs := 2), "c" := Example("c").(originTs := 1)], None);
    assert Bridges("a", "b", "c", {"a", "b", "c"}, c) && !Before("a", "c", c);
    ComparatorIsAnOrderIff({"a", "b", "c"}, c);
  }

  /** The auth events of `n` that are themselves being sorted. */
  function Deps(n: EventId, s: set<EventId>, c: Context): set<EventId> {
    if n in c.events then set a | a in c.events[n].authEvents && a in s else {}
  }

  ghost function Ready(s: set<EventId>, done: set<EventId>, c: Context): set<EventId> {
    set n | n in s && n !in done && Deps(n, s, c) <= done
  }

  ghost predicate IsLeast(n: EventId, s: set<EventId>, c: Context) {
    n in s && forall m | m in s && m != n :: Before(n, m, c)
  }

  lemma {:induction false} LeastExists(s: set<EventId>, c: Context)
    requires s != {} && StrictTotalOn(s, c)
    ensures exists n :: IsLeast(n, s, c)
    decreases |s|
  {
    var x :| x in s;
    if s == {x} {
      assert IsLeast(x, s, c);
    } else {
      var rest := s - {x};
      assert rest != {};
      LeastExists(rest, c);
      var m :| IsLeast(m, rest, c);
      assert IsLeast(if Before(x, m, c) then x else m, s, c);
    }
  }

  lemma LeastIsUnique(a: EventId, b: EventId, s: set<EventId>, c: Context)
    requires StrictTotalOn(s, c) && IsLeast(a, s, c) && IsLeast(b, s, c)
    ensures a == b
  {
  }

  ghost function Least(s: set<EventId>, c: Context): (n: EventId)
    requires s != {} && StrictTotalOn(s, c)
    ensures IsLeast(n, s, c)
  {
    LeastExists(s, c);
    var n :| IsLeast(n, s, c);
    n
  }

  /** Repeatedly take the least ready event. */
  ghost function KahnFrom(s: set<EventId>, done: set<EventId>, c: Context): seq<EventId>
    requires StrictTotalOn(s, c)
    decreases |s - done|
  {
    var r := Ready(s, done, c);
    if r == {} then []
    else
      var n := Least(r, c);
      assert s - (done + {n}) < s - done;
      SubsetIsSmaller(s - (done + {n}), s - done);
      [n] + KahnFrom(s, done + {n}, c)
  }

  ghost function Kahn(s: set<EventId>, c: Context): seq<EventId>
    requires StrictTotalOn(s, c)
  {
    KahnFrom(s, {}, c)
  }

  lemma SubsetIsSmaller<T>(a: set<T>, b: set<T>)
    requires a < b
    ensures |a| < |b|
  {
    var x :| x in b && x !in a;
    assert a <= b - {x};
    SubsetIsNotLarger(a, b - {x});
  }

  lemma {:induction false} SubsetIsNotLarger<T>(a: set<T>, b: set<T>)
    requires a <= b
    ensures |a| <= |b|
    decreases a
  {
    if a != {} {
      var x :| x in a;
      SubsetIsNotLarger(a - {x}, b - {x});
    }
  }

  // ---------------------------------------------------------------- what the order guarantees

  /** `q` takes, at every step, the least ready event, and stops only when none is ready. */
  ghost predicate GreedyRun(q: seq<EventId>, s: set<EventId>, done: set<EventId>, c: Context) {
    if q == [] then Ready(s, done, c) == {}
    else IsLeast(q[0], Ready(s, done, c), c) && GreedyRun(q[1..], s, done + {q[0]}, c)
  }

  lemma {:induction false} KahnIsGreedy(s: set<EventId>, done: set<EventId>, c: Context)
    requires StrictTotalOn(s, c)
    ensures GreedyRun(KahnFrom(s, done, c), s, done, c)
    decreases |s - done|
  {
    var r := Ready(s, done, c);
    if r != {} {
      var n := Least(r, c);
      SubsetIsSmaller(s - (done + {n}), s - done);
      KahnIsGreedy(s, done + {n}, c);
      assert KahnFrom(s, done, c)[1..] == KahnFrom(s, done + {n}, c);
    }
  }

  lemma {:induction false} GreedyRunIsUnique(q: seq<EventId>, s: set<EventId>, done: set<EventId>, c: Context)
    requires StrictTotalOn(s, c) && GreedyRun(q, s, done, c)
    ensures q == KahnFrom(s, done, c)
    decreases |q|
  {
    if q != [] {
      LeastIsUnique(q[0], Least(Ready(s, done, c), c), Ready(s, done, c), c);
      GreedyRunIsUnique(q[1..], s, done + {q[0]}, c);
    }
  }

  /** What had been taken before position `k`, and that `q[k]` was then the least ready event. */
  lemma {:induction false} GreedyRunAt(q: seq<EventId>, s: set<EventId>, done: set<EventId>, c: Context, k: nat)
    requires GreedyRun(q, s, done, c) && k <= |q|
    ensures k < |q| ==> IsLeast(q[k], Ready(s, done + Elems(q[..k]), c), c)
    ensures k == |q| ==> Ready(s, done + Elems(q), c) == {}
    decreases |q|
  {
    if k == 0 {
      assert done + Elems(q[..0]) == done;
      assert q == [] ==> done + Elems(q) == done;
    } else {
      var n, t := q[0], q[1..];
      GreedyRunAt(t, s, done + {n}, c, k - 1);
      assert q[..k] == [n] + t[..k - 1];
      assert done + Elems(q[..k]) == (done + {n}) + Elems(t[..k - 1]);
      assert k == |q| ==> q[..k] == q && t[..k - 1] == t;
    }
  }

  /** There is exactly one sequence that repeatedly removes the least ready event. */
  lemma KahnIsTheOnlyGreedyRun(q: seq<EventId>, s: set<EventId>, c: Context)
    requires StrictTotalOn(s, c)
    ensures GreedyRun(q, s, {}, c) <==> q == Kahn(s, c)
  {
    KahnIsGreedy(s, {}, c);
    if GreedyRun(q, s, {}, c) {
      GreedyRunIsUnique(q, s, {}, c);
    }
  }

  /** `q` takes a ready event at every step, and stops only when none is ready; nothing is said about which. */
  ghost predicate TopoRun(q: seq<EventId>, s: set<EventId>, c: Context) {
    && (forall k | 0 <= k < |q| :: q[k] in Ready(s, Elems(q[..k]), c))
    && Ready(s, Elems(q), c) == {}
  }

  lemma KahnIsTopoRun(s: set<EventId>, c: Context)
    requires StrictTotalOn(s, c)
    ensures TopoRun(Kahn(s, c), s, c)
  {
    var q := Kahn(s, c);
    KahnIsGreedy(s, {}, c);
    forall k | 0 <= k < |q|
      ensures q[k] in Ready(s, Elems(q[..k]), c)
    {
      GreedyRunAt(q, s, {}, c, k);
      assert {} + Elems(q[..k]) == Elems(q[..k]);
    }
    GreedyRunAt(q, s, {}, c, |q|);
    assert {} + Elems(q) == Elems(q);
  }

  /** No event twice, only events being sorted, and every sorted auth event before its dependents. */
  lemma RunRespectsAuthEdges(q: seq<EventId>, s: set<EventId>, c: Context)
    requires TopoRun(q, s, c)
    ensures NoDuplicates(q) && Elems(q) <= s
    ensures forall j, a | 0 <= j < |q| && a in Deps(q[j], s, c) :: a in q[..j]
    ensures forall j, a ::
        0 <= j < |q| && q[j] in c.events && a in c.events[q[j]].authEvents && a in s ==> a in q[..j]
  {
    forall i, j | 0 <= i < j < |q|
      ensures q[i] != q[j]
    {
      assert q[j] in Ready(s, Elems(q[..j]), c);
      assert q[..j][i] == q[i] && q[i] in Elems(q[..j]);
    }
    forall j, a | 0 <= j < |q| && a in Deps(q[j], s, c)
      ensures a in q[..j]
    {
      assert q[j] in Ready(s, Elems(q[..j]), c);
    }
    forall n | n in Elems(q)
      ensures n in s
    {
      var k :| 0 <= k < |q| && q[k] == n;
      assert q[k] in Ready(s, Elems(q[..k]), c);
    }
  }

  lemma KahnRespectsAuthEdges(s: set<EventId>, c: Context)
    requires StrictTotalOn(s, c)
    ensures NoDuplicates(Kahn(s, c)) && Elems(Kahn(s, c)) <= s
    ensures forall j, a | 0 <= j < |Kahn(s, c)| && a in Deps(Kahn(s, c)[j], s, c) :: a in Kahn(s, c)[..j]
  {
    KahnIsTopoRun(s, c);
    RunRespectsAuthEdges(Kahn(s, c), s, c);
  }

  /**
   An event that was ready when another was taken does not have a stronger sender, nor with equal
   levels an earlier timestamp, nor with equal timestamps a smaller ID. A listed sender counts by its
   own level, any other by the default, and everybody as zero without levels that decode.
   */
  lemma ReadyEventsGoStrongestFirst(s: set<EventId>, c: Context, i: nat, j: nat)
    requires s <= c.events.Keys && StoredUnderOwnId(c.events)
    requires StrictTotalOn(s, c) && i < j < |Kahn(s, c)|
    requires Deps(Kahn(s, c)[j], s, c) <= Elems(Kahn(s, c)[..i])
    ensures Kahn(s, c)[i] in c.events && Kahn(s, c)[j] in c.events
    ensures var a, b := c.events[Kahn(s, c)[i]], c.events[Kahn(s, c)[j]];
      var levels := match c.powerLevels
                    case None => None
                    case Some(pl) => pl.content.levels;
      var pa := match levels
                case None => 0
                case Some(l) => if a.sender in l.users then l.users[a.sender] else l.usersDefault;
      var pb := match levels
                case None => 0
                case Some(l) => if b.sender in l.users then l.users[b.sender] else l.usersDefault;
      && pa >= pb
      && (pa == pb ==> a.originTs <= b.originTs)
      && (pa == pb && a.originTs == b.originTs ==> StrLess(a.id, b.id))
  {
    var q := Kahn(s, c);
    KahnRespectsAuthEdges(s, c);
    KahnIsGreedy(s, {}, c);
    GreedyRunAt(q, s, {}, c, i);
    assert {} + Elems(q[..i]) == Elems(q[..i]);
    assert q[i] in Elems(q) && q[j] in Elems(q);
    assert q[j] in Ready(s, Elems(q[..i]), c);
    assert Before(q[i], q[j], c);
  }

  /** Of two events by listed senders, the one whose sender is listed higher goes first unless it was not ready. */
  lemma HigherListedSenderGoesFirst(s: set<EventId>, c: Context, l: UserLevels, i: nat, j: nat)
    requires s <= c.events.Keys && StoredUnderOwnId(c.events) && StrictTotalOn(s, c)
    requires c.powerLevels.Some? && c.powerLevels.value.content.levels == Some(l)
    requires i < |Kahn(s, c)| && j < |Kahn(s, c)| && Kahn(s, c)[i] in c.events && Kahn(s, c)[j] in c.events
    requires var a, b := c.events[Kahn(s, c)[i]], c.events[Kahn(s, c)[j]];
      a.sender in l.users && b.sender in l.users && l.users[a.sender] > l.users[b.sender]
    requires j < i ==> Deps(Kahn(s, c)[i], s, c) <= Elems(Kahn(s, c)[..j])
    ensures i < j
  {
    if j < i {
      ReadyEventsGoStrongestFirst(s, c, j, i);
    }
  }

  // ---------------------------------------------------------------- cycles

  /** A walk along auth edges inside the sorted set, from an event to older ones. */
  ghost predicate AuthWalk(p: seq<EventId>, s: set<EventId>, c: Context) {
    && |p| > 0
    && (forall i | 0 <= i < |p| :: p[i] in s)
    && (forall i | 0 <= i < |p| - 1 :: p[i + 1] in Deps(p[i], s, c))
  }

  /** A walk from `n` meets an event twice: `n` is on an auth cycle or depends on one. */
  ghost predicate ReachesCycle(n: EventId, s: set<EventId>, c: Context) {
    exists p :: AuthWalk(p, s, c) && p[0] == n && !NoDuplicates(p)
  }

  lemma {:induction false} WalkFromSortedIsDescending(
    p: seq<EventId>, q: seq<EventId>, s: set<EventId>, c: Context, k: nat)
    requires AuthWalk(p, s, c)
    requires NoDuplicates(q)
    requires forall j, a | 0 <= j < |q| && a in Deps(q[j], s, c) :: a in q[..j]
    requires k < |q| && p[0] == q[k]
    ensures NoDuplicates(p)
    ensures forall i | 1 <= i < |p| :: p[i] in q[..k]
    decreases |p|
  {
    if |p| > 1 {
      assert p[1] in Deps(q[k], s, c);
      assert p[1] in q[..k];
      var m :| 0 <= m < k && q[m] == p[1];
      var t := p[1..];
      assert AuthWalk(t, s, c) by {
        forall i | 0 <= i < |t| - 1
          ensures t[i + 1] in Deps(t[i], s, c)
        {
          assert p[i + 2] in Deps(p[i + 1], s, c);
        }
      }
      WalkFromSortedIsDescending(t, q, s, c, m);
      forall i | 1 <= i < |p|
        ensures p[i] in q[..k]
      {
        if i > 1 {
          assert p[i] == t[i - 1];
          assert t[i - 1] in q[..m];
        }
      }
      assert p[0] !in q[..k];
      forall i, j | 0 <= i < j < |p|
        ensures p[i] != p[j]
      {
        if i > 0 {
          assert p[i] == t[i - 1] && p[j] == t[j - 1];
        }
      }
    }
  }

  lemma {:induction false} NoDuplicatesIsShort(p: seq<EventId>, s: set<EventId>)
    requires NoDuplicates(p) && Elems(p) <= s
    ensures |p| <= |s|
    decreases |p|
  {
    if p != [] {
      var k := |p| - 1;
      var t := p[..k];
      assert p[k] in Elems(p);
      forall x | x in Elems(t)
        ensures x in s - {p[k]}
      {
        var i :| 0 <= i < |t| && t[i] == x;
        assert p[i] == x && p[i] in Elems(p);
      }
      NoDuplicatesIsShort(t, s - {p[k]});
    }
  }

  /** From an event left out, one can walk among events left out for as long as one likes. */
  lemma {:induction false} StuckWalk(n: EventId, s: set<EventId>, out: set<EventId>, c: Context, len: nat)
    returns (p: seq<EventId>)
    requires n in s && n !in out && Ready(s, out, c) == {}
    ensures AuthWalk(p, s, c) && p[0] == n && |p| == len + 1
    decreases len
  {
    if len == 0 {
      p := [n];
    } else {
      assert n !in Ready(s, out, c);
      var a :| a in Deps(n, s, c) && a !in out;
      assert a in s;
      var t := StuckWalk(a, s, out, c, len - 1);
      p := [n] + t;
      forall i | 0 <= i < |p| - 1
        ensures p[i + 1] in Deps(p[i], s, c)
      {
        if i > 0 {
          assert t[i] in Deps(t[i - 1], s, c);
        }
      }
    }
  }

  /** Whichever ready event is taken, the output is exactly the events that cannot reach an auth cycle. */
  lemma RunDropsExactlyTheCyclic(q: seq<EventId>, s: set<EventId>, c: Context)
    requires TopoRun(q, s, c)
    ensures forall n | n in s :: n in q <==> !ReachesCycle(n, s, c)
  {
    RunRespectsAuthEdges(q, s, c);
    forall n | n in s
      ensures n in q <==> !ReachesCycle(n, s, c)
    {
      if n in q {
        var k :| 0 <= k < |q| && q[k] == n;
        forall p | AuthWalk(p, s, c) && p[0] == n
          ensures NoDuplicates(p)
        {
          WalkFromSortedIsDescending(p, q, s, c, k);
        }
      } else {
        var p := StuckWalk(n, s, Elems(q), c, |s|);
        if NoDuplicates(p) {
          NoDuplicatesIsShort(p, s);
        }
      }
    }
  }

  /** On an acyclic set the output is a permutation of the set. */
  lemma RunPermutesAcyclicSets(q: seq<EventId>, s: set<EventId>, c: Context)
    requires TopoRun(q, s, c)
    requires forall n | n in s :: !ReachesCycle(n, s, c)
    ensures multiset(q) == multiset(s)
  {
    RunRespectsAuthEdges(q, s, c);
    RunDropsExactlyTheCyclic(q, s, c);
    forall n
      ensures multiset(q)[n] == multiset(s)[n]
    {
      NoDuplicatesCountsOnce(q, n);
      assert n in Elems(q) <==> n in s;
    }
  }

  // ---------------------------------------------------------------- the loop

  function Out(graph: map<EventId, seq<EventId>>, a: EventId): seq<EventId> {
    if a in graph then graph[a] else []
  }

  /** Number of edges from `a` to `n` in a list of edge targets or sources. */
  ghost function Count(s: seq<EventId>, x: EventId): nat {
    multiset(s)[x]
  }

  lemma CountAppend(s: seq<EventId>, y: EventId, x: EventId)
    ensures Count(s + [y], x) == Count(s, x) + if x == y then 1 else 0
  {
  }

  /** Entries of an incoming-edge list whose source has not been popped yet. */
  ghost function Pending(incoming: seq<EventId>, done: set<EventId>): nat {
    if incoming == [] then 0
    else Pending(incoming[..|incoming| - 1], done) + (if incoming[|incoming| - 1] in done then 0 else 1)
  }

  lemma {:induction false} PendingZero(incoming: seq<EventId>, done: set<EventId>)
    ensures Pending(incoming, done) == 0 <==> Elems(incoming) <= done
  {
    if incoming != [] {
      var k := |incoming| - 1;
      PendingZero(incoming[..k], done);
      ElemsAppend(incoming[..k], incoming[k]);
      assert incoming == incoming[..k] + [incoming[k]];
    }
  }

  lemma {:induction false} PendingNone(incoming: seq<EventId>)
    ensures Pending(incoming, {}) == |incoming|
  {
    if incoming != [] {
      PendingNone(incoming[..|incoming| - 1]);
    }
  }

  lemma {:induction false} PendingPop(incoming: seq<EventId>, done: set<EventId>, x: EventId)
    requires x !in done
    ensures Pending(incoming, done) == Pending(incoming, done + {x}) + Count(incoming, x)
  {
    if incoming != [] {
      var k := |incoming| - 1;
      PendingPop(incoming[..k], done, x);
      CountAppend(incoming[..k], incoming[k], x);
      assert incoming == incoming[..k] + [incoming[k]];
    }
  }

  type Degrees = map<EventId, int>
  type Edges = map<EventId, seq<EventId>>

  /** Forward edge lists agree, with multiplicity, with the ghost lists of incoming edges. */
  ghost predicate Transposed(graph: Edges, incoming: Edges, s: set<EventId>) {
    && incoming.Keys == s
    && (forall a, n | n in Out(graph, a) :: n in s)
    && (forall a, n | n in s :: Count(Out(graph, a), n) == Count(incoming[n], a))
  }

  ghost predicate CountsAll(inDegree: Degrees, incoming: Edges, s: set<EventId>) {
    && inDegree.Keys == s && incoming.Keys == s
    && forall n | n in s :: inDegree[n] == |incoming[n]|
  }

  lemma TransposedAfterEdge(graph: Edges, incoming: Edges, s: set<EventId>, a: EventId, id: EventId)
    requires Transposed(graph, incoming, s) && id in s
    ensures Transposed(graph[a := Out(graph, a) + [id]], incoming[id := incoming[id] + [a]], s)
  {
    var g, inc := graph[a := Out(graph, a) + [id]], incoming[id := incoming[id] + [a]];
    forall x, n | n in s
      ensures Count(Out(g, x), n) == Count(inc[n], x)
    {
      CountAppend(Out(graph, a), id, n);
      CountAppend(incoming[id], a, x);
      assert Count(Out(graph, x), n) == Count(incoming[n], x);
      assert Out(g, x) == if x == a then Out(graph, a) + [id] else Out(graph, x);
      assert inc[n] == if n == id then incoming[id] + [a] else incoming[n];
    }
    forall x, n | n in Out(g, x)
      ensures n in s
    {
      assert n in Out(graph, x) || n == id;
    }
  }

  method InitDegrees(ids: seq<EventId>) returns (inDegree: Degrees)
    ensures inDegree.Keys == Elems(ids) && forall n | n in inDegree :: inDegree[n] == 0
  {
    inDegree := map[];
    for i := 0 to |ids|
      invariant inDegree.Keys == Elems(ids[..i]) && forall n | n in inDegree :: inDegree[n] == 0
    {
      ElemsTake(ids, i);
      inDegree := inDegree[ids[i] := 0];
    }
    assert ids[..|ids|] == ids;
  }

  /** The references in `auth` that are being sorted were added to the incoming edges of `id` alone. */
  ghost predicate EdgesAdded(before: Edges, after: Edges, s: set<EventId>, id: EventId, auth: seq<EventId>)
    requires before.Keys == s && after.Keys == s && id in s
  {
    && (forall n | n in s && n != id :: after[n] == before[n])
    && (forall a :: a in after[id] <==> a in before[id] || (a in auth && a in s))
  }

  lemma EdgeAdded(before: Edges, after: Edges, s: set<EventId>, id: EventId, auth: seq<EventId>, x: EventId)
    requires before.Keys == s && after.Keys == s && id in s && EdgesAdded(before, after, s, id, auth)
    ensures EdgesAdded(before, if x in s then after[id := after[id] + [x]] else after, s, id, auth + [x])
  {
  }

  method AddEdge(
    id: EventId, a: EventId, inDegree0: Degrees, graph0: Edges, ghost incoming0: Edges, ghost s: set<EventId>)
    returns (inDegree: Degrees, graph: Edges, ghost incoming: Edges)
    requires id in s && Transposed(graph0, incoming0, s) && CountsAll(inDegree0, incoming0, s)
    ensures Transposed(graph, incoming, s) && CountsAll(inDegree, incoming, s)
    ensures incoming == incoming0[id := incoming0[id] + [a]]
  {
    TransposedAfterEdge(graph0, incoming0, s, a, id);
    graph := graph0[a := Out(graph0, a) + [id]];
    inDegree := inDegree0[id := inDegree0[id] + 1];
    incoming := incoming0[id := incoming0[id] + [a]];
  }

  /** One edge for each auth reference that is being sorted; repeated references count again. */
  method AddEdges(
    id: EventId, auth: seq<EventId>, inDegree0: Degrees, graph0: Edges, ghost incoming0: Edges, ghost s: set<EventId>)
    returns (inDegree: Degrees, graph: Edges, ghost incoming: Edges)
    requires id in s && Transposed(graph0, incoming0, s) && CountsAll(inDegree0, incoming0, s)
    ensures Transposed(graph, incoming, s) && CountsAll(inDegree, incoming, s)
    ensures EdgesAdded(incoming0, incoming, s, id, auth)
  {
    inDegree, graph, incoming := inDegree0, graph0, incoming0;
    for k := 0 to |auth|
      invariant Transposed(graph, incoming, s) && CountsAll(inDegree, incoming, s)
      invariant EdgesAdded(incoming0, incoming, s, id, auth[..k])
    {
      EdgeAdded(incoming0, incoming, s, id, auth[..k], auth[k]);
      if auth[k] in inDegree {
        inDegree, graph, incoming := AddEdge(id, auth[k], inDegree, graph, incoming, s);
      }
      assert auth[..k + 1] == auth[..k] + [auth[k]];
    }
    assert auth[..|auth|] == auth;
  }

  /** The events of a list have exactly their in-set auth references as incoming edges, the others none. */
  ghost predicate Cites(incoming: Edges, list: seq<EventId>, s: set<EventId>, c: Context)
    requires incoming.Keys == s
  {
    forall n, a | n in s :: a in incoming[n] <==> n in list && a in Deps(n, s, c)
  }

  lemma CitesNext(before: Edges, after: Edges, list: seq<EventId>, id: EventId, s: set<EventId>, c: Context)
    requires before.Keys == s && after.Keys == s && id in s && Cites(before, list, s, c)
    requires EdgesAdded(before, after, s, id, if id in c.events then c.events[id].authEvents else [])
    ensures Cites(after, list + [id], s, c)
  {
    forall n, a | n in s
      ensures a in after[n] <==> n in list + [id] && a in Deps(n, s, c)
    {
      assert n in list + [id] <==> n in list || n == id;
      assert a in before[n] <==> n in list && a in Deps(n, s, c);
    }
  }

  method CollectEdges(ids: seq<EventId>, c: Context) returns (inDegree: Degrees, graph: Edges, ghost incoming: Edges)
    ensures Transposed(graph, incoming, Elems(ids)) && CountsAll(inDegree, incoming, Elems(ids))
    ensures Cites(incoming, ids, Elems(ids), c)
  {
    inDegree := InitDegrees(ids);
    graph := map[];
    ghost var s := Elems(ids);
    incoming := map n | n in s :: [];
    for i := 0 to |ids|
      invariant Transposed(graph, incoming, s) && CountsAll(inDegree, incoming, s)
      invariant Cites(incoming, ids[..i], s, c)
    {
      var id := ids[i];
      assert id in s;
      ghost var before := incoming;
      if id in c.events {
        inDegree, graph, incoming := AddEdges(id, c.events[id].authEvents, inDegree, graph, incoming, s);
      }
      CitesNext(before, incoming, ids[..i], id, s, c);
      assert ids[..i + 1] == ids[..i] + [id];
    }
    assert ids[..|ids|] == ids;
  }

  /** Counters and forward edges of the whole list of events. */
  method BuildGraph(ids: seq<EventId>, c: Context) returns (inDegree: Degrees, graph: Edges, ghost incoming: Edges)
    ensures Transposed(graph, incoming, Elems(ids)) && CountsAll(inDegree, incoming, Elems(ids))
    ensures forall n | n in Elems(ids) :: Elems(incoming[n]) == Deps(n, Elems(ids), c)
    ensures forall a, n | n in Elems(ids) :: n in Out(graph, a) <==> a in Deps(n, Elems(ids), c)
    ensures forall n | n in inDegree :: inDegree[n] == 0 <==> Deps(n, Elems(ids), c) == {}
  {
    inDegree, graph, incoming := CollectEdges(ids, c);
    forall n | n in Elems(ids)
      ensures Elems(incoming[n]) == Deps(n, Elems(ids), c)
      ensures inDegree[n] == 0 <==> Deps(n, Elems(ids), c) == {}
      ensures forall a :: n in Out(graph, a) <==> a in Deps(n, Elems(ids), c)
    {
      EdgesMirror(graph, incoming, Elems(ids), n);
      CitedAre(incoming, ids, c, n);
    }
  }

  lemma CitedAre(incoming: Edges, ids: seq<EventId>, c: Context, n: EventId)
    requires incoming.Keys == Elems(ids) && n in Elems(ids) && Cites(incoming, ids, Elems(ids), c)
    ensures Elems(incoming[n]) == Deps(n, Elems(ids), c)
    ensures |incoming[n]| == 0 <==> Deps(n, Elems(ids), c) == {}
  {
    assert n in ids;
    if incoming[n] != [] {
      assert incoming[n][0] in Elems(incoming[n]);
    }
  }

  lemma EdgesMirror(graph: Edges, incoming: Edges, s: set<EventId>, n: EventId)
    requires Transposed(graph, incoming, s) && n in s
    ensures forall a :: n in Out(graph, a) <==> a in Elems(incoming[n])
  {
    forall a
      ensures n in Out(graph, a) <==> a in Elems(incoming[n])
    {
      assert Count(Out(graph, a), n) == Count(incoming[n], a);
    }
  }

  ghost predicate Sorted(s: seq<EventId>, c: Context) {
    forall i, j | 0 <= i < j < |s| :: Before(s[i], s[j], c)
  }

  lemma BeforeTransitive(a: EventId, b: EventId, d: EventId, all: set<EventId>, c: Context)
    requires StrictTotalOn(all, c) && a in all && b in all && d in all && Before(a, b, c) && Before(b, d, c)
    ensures Before(a, d, c)
  {
  }

  lemma InsertKeepsSorted(s: seq<EventId>, k: nat, x: EventId, c: Context)
    requires Sorted(s, c) && k <= |s|
    requires forall j | 0 <= j < k :: Before(s[j], x, c)
    requires forall j | k <= j < |s| :: Before(x, s[j], c)
    ensures Sorted(s[..k] + [x] + s[k..], c)
  {
  }

  /** One insertion of the library's stable sort: past every element not after `x`. */
  method InsertCandidate(sorted: seq<EventId>, x: EventId, c: Context, ghost all: set<EventId>)
    returns (r: seq<EventId>)
    requires x in all && x !in sorted && forall i | 0 <= i < |sorted| :: sorted[i] in all
    ensures multiset(r) == multiset(sorted) + multiset{x}
    ensures StrictTotalOn(all, c) && Sorted(sorted, c) ==> Sorted(r, c)
  {
    var k := |sorted|;
    while k > 0 && Before(x, sorted[k - 1], c)
      invariant 0 <= k <= |sorted|
      invariant forall j | k <= j < |sorted| :: Before(x, sorted[j], c)
    {
      k := k - 1;
    }
    if StrictTotalOn(all, c) && Sorted(sorted, c) {
      PrefixBefore(sorted, k, x, c, all);
      InsertKeepsSorted(sorted, k, x, c);
    }
    r := sorted[..k] + [x] + sorted[k..];
    assert sorted == sorted[..k] + sorted[k..];
  }

  lemma PrefixBefore(sorted: seq<EventId>, k: nat, x: EventId, c: Context, all: set<EventId>)
    requires StrictTotalOn(all, c) && x in all && x !in sorted && forall i | 0 <= i < |sorted| :: sorted[i] in all
    requires Sorted(sorted, c) && k <= |sorted| && (k == 0 || !Before(x, sorted[k - 1], c))
    ensures forall j | 0 <= j < k :: Before(sorted[j], x, c)
  {
    forall j | 0 <= j < k
      ensures Before(sorted[j], x, c)
    {
      assert Before(sorted[k - 1], x, c);
      if j < k - 1 {
        BeforeTransitive(sorted[j], sorted[k - 1], x, all, c);
      }
    }
  }

  /** The library's stable sort; without a strict total order the result is only known to be a permutation. */
  method SortCandidates(candidates: seq<EventId>, c: Context) returns (r: seq<EventId>)
    requires NoDuplicates(candidates)
    ensures multiset(r) == multiset(candidates)
    ensures StrictTotalOn(Elems(candidates), c) ==> Sorted(r, c)
  {
    r := [];
    for i := 0 to |candidates|
      invariant multiset(r) == multiset(candidates[..i])
      invariant StrictTotalOn(Elems(candidates), c) ==> Sorted(r, c)
    {
      var x := candidates[i];
      assert candidates[..i + 1] == candidates[..i] + [x];
      forall j | 0 <= j < |r|
        ensures r[j] in Elems(candidates) && r[j] != x
      {
        assert r[j] in multiset(r);
        assert r[j] in candidates[..i];
      }
      r := InsertCandidate(r, x, c, Elems(candidates));
    }
    assert candidates[..|candidates|] == candidates;
  }

  lemma PositionsCount<T>(b: seq<T>, i: nat, j: nat)
    requires i < j < |b|
    ensures b[i] == b[j] ==> multiset(b)[b[i]] >= 2
  {
    assert b == b[..j] + [b[j]] + b[j + 1..];
    assert b[i] in b[..j];
  }

  lemma SameMultiset<T>(a: seq<T>, b: seq<T>)
    requires multiset(a) == multiset(b) && NoDuplicates(a)
    ensures NoDuplicates(b) && Elems(a) == Elems(b)
  {
    forall x
      ensures x in a <==> x in b
    {
      assert x in a <==> x in multiset(a);
      assert x in b <==> x in multiset(b);
    }
    forall i, j | 0 <= i < j < |b|
      ensures b[i] != b[j]
    {
      NoDuplicatesCountsOnce(a, b[i]);
      PositionsCount(b, i, j);
    }
  }

  /** Queue and counters in step: queued means counter zero and not popped. */
  ghost predicate Queued(queue: seq<EventId>, inDegree: Degrees, done: set<EventId>) {
    && NoDuplicates(queue)
    && forall n :: n in queue <==> n in inDegree && n !in done && inDegree[n] == 0
  }

  lemma QueuedTail(queue: seq<EventId>, inDegree: Degrees, done: set<EventId>)
    requires queue != [] && Queued(queue, inDegree, done)
    ensures Queued(queue[1..], inDegree, done + {queue[0]})
  {
    assert queue == [queue[0]] + queue[1..];
  }

  /** Each counter went down by the number of times its event occurs in `list`. */
  ghost predicate Lowered(before: Degrees, after: Degrees, list: seq<EventId>) {
    after.Keys == before.Keys && forall n | n in after :: after[n] == before[n] - Count(list, n)
  }

  lemma LoweredOne(before: Degrees, after: Degrees, list: seq<EventId>, n: EventId)
    requires Lowered(before, after, list) && n in after
    ensures Lowered(before, after[n := after[n] - 1], list + [n])
  {
    forall m | m in after
      ensures after[n := after[n] - 1][m] == before[m] - Count(list + [n], m)
    {
      CountAppend(list, n, m);
    }
  }

  lemma CountOfPrefix(list: seq<EventId>, k: nat)
    requires k < |list|
    ensures list[..k + 1] == list[..k] + [list[k]] && Count(list, list[k]) > Count(list[..k], list[k])
  {
    assert list == list[..k] + [list[k]] + list[k + 1..];
  }

  /** Lower one dependent's counter and queue it when the counter reaches zero. */
  method ReleaseOne(n: EventId, inDegree0: Degrees, queue0: seq<EventId>, ghost done: set<EventId>)
    returns (inDegree: Degrees, queue: seq<EventId>)
    requires Queued(queue0, inDegree0, done) && n in inDegree0 && n !in done && inDegree0[n] > 0
    ensures inDegree == inDegree0[n := inDegree0[n] - 1] && Queued(queue, inDegree, done)
  {
    inDegree, queue := inDegree0[n := inDegree0[n] - 1], queue0;
    assert n !in queue;
    if inDegree[n] == 0 {
      queue := queue + [n];
    }
  }

  /** Pop `curr`: lower every dependent's counter and collect those that reach zero. */
  method Release(dependents: seq<EventId>, inDegree0: Degrees, queue0: seq<EventId>, ghost done: set<EventId>)
    returns (inDegree: Degrees, queue: seq<EventId>)
    requires forall n | n in dependents :: n in inDegree0 && n !in done
    requires forall n | n in inDegree0 :: inDegree0[n] >= Count(dependents, n)
    requires Queued(queue0, inDegree0, done)
    ensures inDegree.Keys == inDegree0.Keys
    ensures forall n | n in inDegree :: inDegree[n] == inDegree0[n] - Count(dependents, n)
    ensures Queued(queue, inDegree, done)
  {
    inDegree, queue := inDegree0, queue0;
    for k := 0 to |dependents|
      invariant Lowered(inDegree0, inDegree, dependents[..k])
      invariant Queued(queue, inDegree, done)
    {
      CountOfPrefix(dependents, k);
      LoweredOne(inDegree0, inDegree, dependents[..k], dependents[k]);
      inDegree, queue := ReleaseOne(dependents[k], inDegree, queue, done);
    }
    assert dependents[..|dependents|] == dependents;
  }

  /** The initial queue is collected from a map, so its order is arbitrary. */
  method InitialQueue(inDegree: Degrees) returns (queue: seq<EventId>)
    ensures Queued(queue, inDegree, {})
  {
    queue := [];
    var todo := inDegree.Keys;
    while todo != {}
      invariant todo <= inDegree.Keys && NoDuplicates(queue)
      invariant forall n :: n in queue <==> n in inDegree && n !in todo && inDegree[n] == 0
      decreases |todo|
    {
      var id :| id in todo;
      todo := todo - {id};
      if inDegree[id] == 0 {
        queue := queue + [id];
      }
    }
  }

  /** Each counter is the number of auth references to events not popped yet. */
  ghost predicate Outstanding(inDegree: Degrees, incoming: Edges, s: set<EventId>, done: set<EventId>, c: Context) {
    && done <= s && inDegree.Keys == s && incoming.Keys == s
    && (forall n | n in s :: Elems(incoming[n]) == Deps(n, s, c))
    && (forall n | n in s :: inDegree[n] == Pending(incoming[n], done))
    && (forall n | n in done :: inDegree[n] == 0)
  }

  lemma QueueIsReady(
    queue: seq<EventId>, inDegree: Degrees, incoming: Edges, s: set<EventId>, done: set<EventId>, c: Context)
    requires Outstanding(inDegree, incoming, s, done, c) && Queued(queue, inDegree, done)
    ensures Elems(queue) == Ready(s, done, c)
  {
    forall n | n in s
      ensures inDegree[n] == 0 <==> Deps(n, s, c) <= done
    {
      PendingZero(incoming[n], done);
    }
  }

  /** Popping `curr` lowers each counter by the number of edges from `curr`. */
  lemma PopCounts(
    curr: EventId, inDegree: Degrees, graph: Edges, incoming: Edges, s: set<EventId>, done: set<EventId>, c: Context)
    requires Transposed(graph, incoming, s) && Outstanding(inDegree, incoming, s, done, c)
    requires curr in s && curr !in done && inDegree[curr] == 0
    ensures forall n | n in s :: Pending(incoming[n], done + {curr}) == inDegree[n] - Count(Out(graph, curr), n)
    ensures forall n | n in s :: inDegree[n] >= Count(Out(graph, curr), n)
    ensures forall n | n in Out(graph, curr) :: n in s && n !in done + {curr}
  {
    forall n | n in s
      ensures Pending(incoming[n], done + {curr}) == inDegree[n] - Count(Out(graph, curr), n)
    {
      PendingPop(incoming[n], done, curr);
    }
    forall n | n in Out(graph, curr)
      ensures n in s && n !in done + {curr}
    {
      assert Count(Out(graph, curr), n) > 0;
    }
  }

  lemma OutstandingAfterPop(
    curr: EventId, before: Degrees, after: Degrees, graph: Edges, incoming: Edges, s: set<EventId>, done: set<EventId>,
    c: Context)
    requires Transposed(graph, incoming, s) && Outstanding(before, incoming, s, done, c)
    requires curr in s && curr !in done && before[curr] == 0 && after.Keys == s
    requires forall n | n in s :: after[n] == before[n] - Count(Out(graph, curr), n)
    ensures Outstanding(after, incoming, s, done + {curr}, c)
  {
    PopCounts(curr, before, graph, incoming, s, done, c);
    forall n | n in done + {curr}
      ensures after[n] == 0
    {
      assert n in Out(graph, curr) <==> Count(Out(graph, curr), n) > 0;
    }
  }

  /** One round of the loop after the sort: take the head off and release its dependents. */
  method PopHead(queue0: seq<EventId>, inDegree0: Degrees, graph: Edges, ghost incoming: Edges,
                 ghost s: set<EventId>, ghost done: set<EventId>, ghost c: Context)
    returns (curr: EventId, inDegree: Degrees, queue: seq<EventId>)
    requires queue0 != [] && Queued(queue0, inDegree0, done)
    requires Transposed(graph, incoming, s) && Outstanding(inDegree0, incoming, s, done, c)
    ensures curr == queue0[0] && curr in s && curr !in done
    ensures Queued(queue, inDegree, done + {curr}) && Outstanding(inDegree, incoming, s, done + {curr}, c)
  {
    curr := queue0[0];
    assert curr in queue0;
    PopCounts(curr, inDegree0, graph, incoming, s, done, c);
    QueuedTail(queue0, inDegree0, done);
    inDegree, queue := Release(Out(graph, curr), inDegree0, queue0[1..], done + {curr});
    OutstandingAfterPop(curr, inDegree0, inDegree, graph, incoming, s, done, c);
  }

  /** The head of the sorted queue is the least ready event. */
  lemma KahnTakesHead(queue: seq<EventId>, s: set<EventId>, done: set<EventId>, c: Context)
    requires StrictTotalOn(s, c)
    requires queue != [] && Elems(queue) == Ready(s, done, c) && Sorted(queue, c)
    ensures KahnFrom(s, done, c) == [queue[0]] + KahnFrom(s, done + {queue[0]}, c)
    ensures queue[0] in s && queue[0] !in done && |s - (done + {queue[0]})| < |s - done|
  {
    var r := Ready(s, done, c);
    assert queue[0] in Elems(queue);
    forall m | m in r && m != queue[0]
      ensures Before(queue[0], m, c)
    {
      assert m in Elems(queue);
    }
    LeastIsUnique(queue[0], Least(r, c), r, c);
    assert s - (done + {queue[0]}) < s - done;
    SubsetIsSmaller(s - (done + {queue[0]}), s - done);
  }

  lemma SortedStaysQueued(queue: seq<EventId>, sorted: seq<EventId>, inDegree: Degrees, done: set<EventId>)
    requires Queued(queue, inDegree, done) && multiset(sorted) == multiset(queue)
    ensures Queued(sorted, inDegree, done)
  {
    SameMultiset(queue, sorted);
    forall n
      ensures n in sorted <==> n in queue
    {
      assert n in sorted <==> n in Elems(sorted);
      assert n in queue <==> n in Elems(queue);
    }
  }

  lemma NothingPopped(inDegree: Degrees, incoming: Edges, s: set<EventId>, c: Context)
    requires CountsAll(inDegree, incoming, s)
    requires forall n | n in s :: Elems(incoming[n]) == Deps(n, s, c)
    ensures Outstanding(inDegree, incoming, s, {}, c)
  {
    forall n | n in s
      ensures inDegree[n] == Pending(incoming[n], {})
    {
      PendingNone(incoming[n]);
    }
  }

  lemma SnocPrefix<T>(a: seq<T>, x: T, b: seq<T>)
    ensures a + ([x] + b) == (a + [x]) + b
  {
  }

  lemma EmptyUnit<T>(a: seq<T>)
    ensures [] + a == a && a + [] == a
  {
  }

  /** What has been taken so far, and what the specified order still has to take when the tie-break is an order. */
  ghost predicate Taken(sorted: seq<EventId>, done: set<EventId>, s: set<EventId>, c: Context) {
    && done == Elems(sorted)
    && (forall k | 0 <= k < |sorted| :: sorted[k] in Ready(s, Elems(sorted[..k]), c))
    && (StrictTotalOn(s, c) ==> Kahn(s, c) == sorted + KahnFrom(s, done, c))
  }

  lemma TakeOne(sorted: seq<EventId>, done: set<EventId>, s: set<EventId>, c: Context, head: EventId)
    requires Taken(sorted, done, s, c) && head in Ready(s, done, c)
    requires StrictTotalOn(s, c) ==> KahnFrom(s, done, c) == [head] + KahnFrom(s, done + {head}, c)
    ensures Taken(sorted + [head], done + {head}, s, c)
  {
    var longer := sorted + [head];
    ElemsAppend(sorted, head);
    forall k | 0 <= k < |longer|
      ensures longer[k] in Ready(s, Elems(longer[..k]), c)
    {
      assert longer[..k] == sorted[..k];
      assert k == |sorted| ==> sorted[..k] == sorted;
    }
    if StrictTotalOn(s, c) {
      SnocPrefix(sorted, head, KahnFrom(s, done + {head}, c));
    }
  }

  lemma AllTaken(sorted: seq<EventId>, done: set<EventId>, s: set<EventId>, c: Context)
    requires Taken(sorted, done, s, c) && Ready(s, done, c) == {}
    ensures TopoRun(sorted, s, c)
    ensures StrictTotalOn(s, c) ==> sorted == Kahn(s, c)
  {
    EmptyUnit(sorted);
  }

  /**
   Kahn's loop. Whatever the comparator does, a ready event is taken at every step until none is
   left. When it is a strict total order the result is the greedy sequence of the SET of events,
   whatever the order (or repetition) of the input list, of the in-degree map or of the edge lists.
   */
  method SortEventsTopologically(ids: seq<EventId>, c: Context) returns (sorted: seq<EventId>)
    ensures TopoRun(sorted, Elems(ids), c)
    ensures StrictTotalOn(Elems(ids), c) ==> sorted == Kahn(Elems(ids), c)
  {
    ghost var s := Elems(ids);
    var inDegree, graph, incoming := BuildGraph(ids, c);
    var queue := InitialQueue(inDegree);
    ghost var done: set<EventId> := {};
    sorted := [];
    NothingPopped(inDegree, incoming, s, c);
    NothingTaken(s, c);
    while |queue| > 0
      invariant Transposed(graph, incoming, s)
      invariant Outstanding(inDegree, incoming, s, done, c) && Queued(queue, inDegree, done)
      invariant Taken(sorted, done, s, c)
      decreases |s - done|
    {
      var head;
      head, inDegree, queue := SortAndPop(queue, inDegree, graph, incoming, s, done, c);
      TakeOne(sorted, done, s, c, head);
      sorted := sorted + [head];
      done := done + {head};
    }
    QueueIsReady([], inDegree, incoming, s, done, c);
    AllTaken(sorted, done, s, c);
  }

  lemma NothingTaken(s: set<EventId>, c: Context)
    ensures Taken([], {}, s, c)
  {
    if StrictTotalOn(s, c) {
      EmptyUnit(Kahn(s, c));
    }
  }

  /** The loop body: sort the ready list, pop its head, release the head's dependents. */
  method SortAndPop(queue0: seq<EventId>, inDegree0: Degrees, graph: Edges, ghost incoming: Edges,
                    ghost s: set<EventId>, ghost done: set<EventId>, c: Context)
    returns (head: EventId, inDegree: Degrees, queue: seq<EventId>)
    requires queue0 != [] && Queued(queue0, inDegree0, done)
    requires Transposed(graph, incoming, s) && Outstanding(inDegree0, incoming, s, done, c)
    ensures head in Ready(s, done, c) && |s - (done + {head})| < |s - done|
    ensures StrictTotalOn(s, c) ==> KahnFrom(s, done, c) == [head] + KahnFrom(s, done + {head}, c)
    ensures Queued(queue, inDegree, done + {head}) && Outstanding(inDegree, incoming, s, done + {head}, c)
  {
    QueueIsReady(queue0, inDegree0, incoming, s, done, c);
    var sorted := SortCandidates(queue0, c);
    SortedStaysQueued(queue0, sorted, inDegree0, done);
    QueueIsReady(sorted, inDegree0, incoming, s, done, c);
    SameLength(queue0, sorted);
    HeadIsReady(sorted, s, done, c);
    head, inDegree, queue := PopHead(sorted, inDegree0, graph, incoming, s, done, c);
  }

  lemma SameLength<T>(a: seq<T>, b: seq<T>)
    requires multiset(a) == multiset(b)
    ensures |a| == |b|
  {
    assert |multiset(a)| == |a| && |multiset(b)| == |b|;
  }

  lemma SortedOnLess(queue: seq<EventId>, s: set<EventId>, c: Context)
    requires StrictTotalOn(s, c) && Elems(queue) <= s
    ensures StrictTotalOn(Elems(queue), c)
  {
  }

  /** The head of the sorted ready list is ready, and the least ready event when the tie-break is an order. */
  lemma HeadIsReady(sorted: seq<EventId>, s: set<EventId>, done: set<EventId>, c: Context)
    requires sorted != [] && Elems(sorted) == Ready(s, done, c)
    requires StrictTotalOn(Elems(sorted), c) ==> Sorted(sorted, c)
    ensures sorted[0] in Ready(s, done, c) && |s - (done + {sorted[0]})| < |s - done|
    ensures StrictTotalOn(s, c) ==> KahnFrom(s, done, c) == [sorted[0]] + KahnFrom(s, done + {sorted[0]}, c)
  {
    assert sorted[0] in Elems(sorted);
    assert s - (done + {sorted[0]}) < s - done;
    SubsetIsSmaller(s - (done + {sorted[0]}), s - done);
    if StrictTotalOn(s, c) {
      SortedOnLess(sorted, s, c);
      KahnTakesHead(sorted, s, done, c);
    }
  }
}
