/**
 State resolution: several room-state maps are merged into one. The result is proved to be a
 function of the SET of maps, whatever order Go iterates its maps in, and the winner of every
 conflicted membership or ordinary entry is characterised by the final state alone.
 */
module StateResolution {
  import opened Events
  import opened AuthRules
  import Sort = TopologicalSort

  // ---------------------------------------------------------------- partition

  /** Every map has the entry, with the same event. */
  ghost predicate Agreed(t: StateTuple, sets: set<StateMap>) {
    forall m, n | m in sets && n in sets :: t in m && t in n && m[t] == n[t]
  }

  ghost function Tuples(sets: set<StateMap>): set<StateTuple> {
    set m, t | m in sets && t in m :: t
  }

  ghost function Conflicted(sets: set<StateMap>): set<StateTuple> {
    set t | t in Tuples(sets) && !Agreed(t, sets)
  }

  ghost function Unconflicted(sets: set<StateMap>): StateMap {
    if sets == {} then map[]
    else
      var m :| m in sets;
      map t | t in m && Agreed(t, sets) :: m[t]
  }

  lemma UnconflictedMeans(sets: set<StateMap>, t: StateTuple)
    ensures t in Unconflicted(sets) <==> t in Tuples(sets) && Agreed(t, sets)
    ensures forall m | m in sets && t in Unconflicted(sets) :: t in m && m[t] == Unconflicted(sets)[t]
  {
  }

  /** How many maps of the list give tuple `t` the event `id`. */
  ghost function Votes(sets: seq<StateMap>, t: StateTuple, id: EventId): nat {
    if sets == [] then 0
    else Votes(sets[..|sets| - 1], t, id) + if Get(sets[|sets| - 1], t) == Some(id) then 1 else 0
  }

  lemma {:induction false} VotesBound(sets: seq<StateMap>, t: StateTuple, id: EventId)
    ensures Votes(sets, t, id) <= |sets|
    ensures Votes(sets, t, id) == |sets| <==> forall m | m in sets :: Get(m, t) == Some(id)
    ensures Votes(sets, t, id) > 0 <==> exists m :: m in sets && Get(m, t) == Some(id)
  {
    if sets != [] {
      var k := |sets| - 1;
      VotesBound(sets[..k], t, id);
      assert sets == sets[..k] + [sets[k]];
    }
  }

  type Tally = map<StateTuple, map<EventId, nat>>

  function Count(tally: Tally, t: StateTuple, id: EventId): nat {
    if t in tally && id in tally[t] then tally[t][id] else 0
  }

  /** No empty inner map and no zero counter. */
  predicate Tight(tally: Tally) {
    forall t | t in tally :: tally[t] != map[] && forall id | id in tally[t] :: tally[t][id] > 0
  }

  function Bump(tally: Tally, t: StateTuple, id: EventId): Tally {
    var inner := if t in tally then tally[t] else map[];
    tally[t := inner[id := Count(tally, t, id) + 1]]
  }

  lemma BumpCounts(tally: Tally, t: StateTuple, id: EventId)
    requires Tight(tally)
    ensures Tight(Bump(tally, t, id))
    ensures forall u, x :: Count(Bump(tally, t, id), u, x) == Count(tally, u, x) + if u == t && x == id then 1 else 0
  {
    var b := Bump(tally, t, id);
    assert id in b[t];
  }

  method TallyVotes(sets: seq<StateMap>) returns (tally: Tally)
    ensures Tight(tally)
    ensures forall t, id :: Count(tally, t, id) == Votes(sets, t, id)
  {
    tally := map[];
    for i := 0 to |sets|
      invariant Tight(tally)
      invariant forall t, id :: Count(tally, t, id) == Votes(sets[..i], t, id)
    {
      var m := sets[i];
      var todo := m.Keys;
      while todo != {}
        invariant todo <= m.Keys && Tight(tally)
        invariant forall t, id ::
          Count(tally, t, id) == Votes(sets[..i], t, id) + if Get(m, t) == Some(id) && t !in todo then 1 else 0
        decreases |todo|
      {
        var t :| t in todo;
        todo := todo - {t};
        BumpCounts(tally, t, m[t]);
        tally := Bump(tally, t, m[t]);
      }
      assert sets[..i + 1][..i] == sets[..i];
    }
    assert sets[..|sets|] == sets;
  }

  lemma AllVotesMeansAgreed(sets: seq<StateMap>, t: StateTuple, id: EventId)
    requires Votes(sets, t, id) == |sets|
    ensures Agreed(t, Elems(sets)) && forall m | m in sets :: Get(m, t) == Some(id)
  {
    VotesBound(sets, t, id);
    assert forall m | m in Elems(sets) :: Get(m, t) == Some(id);
  }

  lemma TwoCandidatesDisagree(sets: seq<StateMap>, t: StateTuple, id: EventId, x: EventId)
    requires id != x && Votes(sets, t, id) > 0 && Votes(sets, t, x) > 0
    ensures !Agreed(t, Elems(sets))
  {
    VotesBound(sets, t, id);
    VotesBound(sets, t, x);
    var m :| m in sets && Get(m, t) == Some(id);
    var n :| n in sets && Get(n, t) == Some(x);
    assert m in Elems(sets) && n in Elems(sets);
  }

  lemma MissingVoteDisagrees(sets: seq<StateMap>, t: StateTuple, id: EventId)
    requires 0 < Votes(sets, t, id) < |sets|
    ensures !Agreed(t, Elems(sets))
  {
    VotesBound(sets, t, id);
    var m :| m in sets && Get(m, t) == Some(id);
    var n :| n in sets && Get(n, t) != Some(id);
    assert m in Elems(sets) && n in Elems(sets);
  }

  lemma TallyKeys(sets: seq<StateMap>, tally: Tally, t: StateTuple)
    requires Tight(tally) && forall id :: Count(tally, t, id) == Votes(sets, t, id)
    ensures t in tally <==> t in Tuples(Elems(sets))
  {
    if t in tally {
      var id :| id in tally[t];
      assert Count(tally, t, id) > 0;
      VotesBound(sets, t, id);
      var m :| m in sets && Get(m, t) == Some(id);
      assert m in Elems(sets);
    }
    if t in Tuples(Elems(sets)) {
      var m :| m in Elems(sets) && t in m;
      VotesBound(sets, t, m[t]);
      assert Count(tally, t, m[t]) > 0;
    }
  }

  /** The verdict on one tuple: unconflicted when its only event has every vote. */
  lemma TallyVerdict(sets: seq<StateMap>, tally: Tally, t: StateTuple, id: EventId)
    requires Tight(tally) && forall x :: Count(tally, t, x) == Votes(sets, t, x)
    requires t in tally && id in tally[t]
    ensures |tally[t]| == 1 && tally[t][id] == |sets| <==> Agreed(t, Elems(sets))
    ensures tally[t][id] == |sets| ==> forall m | m in sets :: Get(m, t) == Some(id)
  {
    assert Count(tally, t, id) > 0;
    VotesBound(sets, t, id);
    if tally[t][id] == |sets| {
      AllVotesMeansAgreed(sets, t, id);
    } else {
      MissingVoteDisagrees(sets, t, id);
    }
    if |tally[t]| != 1 {
      var x := OtherKey(tally[t], id);
      assert Count(tally, t, x) > 0;
      TwoCandidatesDisagree(sets, t, id, x);
    }
  }

  lemma OtherKey<K, V>(m: map<K, V>, k: K) returns (x: K)
    requires k in m && |m| != 1
    ensures x in m && x != k
  {
    assert |m.Keys - {k}| == |m.Keys| - 1 != 0;
    x :| x in m.Keys - {k};
  }

  /** Both loops run over maps in arbitrary order; the result does not depend on it. */
  method PartitionState(sets: seq<StateMap>) returns (unconflicted: StateMap, conflicted: seq<StateTuple>)
    ensures unconflicted == Unconflicted(Elems(sets))
    ensures NoDuplicates(conflicted) && Elems(conflicted) == Conflicted(Elems(sets))
  {
    var tally := TallyVotes(sets);
    unconflicted, conflicted := map[], [];
    var todo := tally.Keys;
    while todo != {}
      invariant todo <= tally.Keys && NoDuplicates(conflicted)
      invariant forall t :: t in conflicted <==> t in tally && t !in todo && !Agreed(t, Elems(sets))
      invariant forall t :: t in unconflicted <==> t in tally && t !in todo && Agreed(t, Elems(sets))
      invariant forall t, m | t in unconflicted && m in sets :: Get(m, t) == Some(unconflicted[t])
      decreases |todo|
    {
      var t :| t in todo;
      todo := todo - {t};
      ghost var some :| some in tally[t];
      TallyVerdict(sets, tally, t, some);
      if |tally[t]| == 1 {
        var id :| id in tally[t];
        TallyVerdict(sets, tally, t, id);
        if tally[t][id] == |sets| {
          unconflicted := unconflicted[t := id];
        } else {
          conflicted := conflicted + [t];
        }
      } else {
        conflicted := conflicted + [t];
      }
    }
    forall t
      ensures t in tally <==> t in Tuples(Elems(sets))
      ensures Get(unconflicted, t) == Get(Unconflicted(Elems(sets)), t)
    {
      TallyKeys(sets, tally, t);
      UnconflictedMeans(Elems(sets), t);
      if t in unconflicted {
        var m :| m in Elems(sets) && t in m;
        assert Get(m, t) == Some(unconflicted[t]);
      }
    }
    SameEntries(unconflicted, Unconflicted(Elems(sets)));
  }

  lemma SameEntries<K, V>(a: map<K, V>, b: map<K, V>)
    requires forall k :: Get(a, k) == Get(b, k)
    ensures a == b
  {
    forall k
      ensures k in a <==> k in b
      ensures k in a ==> a[k] == b[k]
    {
      assert Get(a, k) == Get(b, k);
    }
  }

  // ---------------------------------------------------------------- phases

  type EventStore = map<EventId, Event>

  datatype Phase = Control | Membership | Other

  function PhaseOf(kind: string): Phase {
    if kind == CREATE || kind == POWER_LEVELS || kind == JOIN_RULES then Control
    else if kind == MEMBER || kind == THIRD_PARTY_INVITE then Membership
    else Other
  }

  /** Events some map proposes for a conflicted tuple. */
  ghost function ConflictedIds(sets: set<StateMap>): set<EventId> {
    set m, t | m in sets && t in m && t in Conflicted(sets) :: m[t]
  }

  /** The known ones of a phase; unknown IDs are skipped. */
  ghost function PhaseIds(sets: set<StateMap>, events: EventStore, phase: Phase): set<EventId> {
    set id | id in ConflictedIds(sets) && id in events && PhaseOf(events[id].kind) == phase
  }

  /** The accumulator: resolved state so far, and the power levels used for sorting. */
  datatype Acc = Acc(state: StateMap, powerLevels: Option<Event>)

  function Step(acc: Acc, id: EventId, events: EventStore): Acc
    requires id in events
  {
    var ev := events[id];
    if CheckAuth(ev, acc.state, events) then
      Acc(acc.state[TupleOf(ev) := id], if TupleOf(ev) == POWER_LEVELS_TUPLE then Some(ev) else acc.powerLevels)
    else acc
  }

  /**
   An authorized event is entered under its type and state key, a missing one counting as empty, and
   one that is entered as power levels is what later phases sort by; any other leaves everything alone.
   */
  lemma WhatIsEntered(acc: Acc, id: EventId, events: EventStore)
    requires id in events
    ensures var ev := events[id];
      var key := match ev.stateKey case None => "" case Some(k) => k;
      Step(acc, id, events) ==
      if !CheckAuth(ev, acc.state, events) then acc
      else Acc(
        acc.state[StateTuple(ev.kind, key) := id],
        if ev.kind == "m.room.power_levels" && key == "" then Some(ev) else acc.powerLevels)
  {
  }

  function Replay(order: seq<EventId>, acc: Acc, events: EventStore): Acc
    requires forall id | id in order :: id in events
  {
    if order == [] then acc
    else Step(Replay(order[..|order| - 1], acc, events), order[|order| - 1], events)
  }

  ghost function PhaseOrder(
    sets: set<StateMap>, events: EventStore, phase: Phase, powerLevels: Option<Event>): (q: seq<EventId>)
    requires Sort.StoredUnderOwnId(events)
    ensures Elems(q) <= PhaseIds(sets, events, phase)
  {
    var c := Sort.Context(events, powerLevels);
    Sort.KnownEventsAreTotallyOrdered(PhaseIds(sets, events, phase), c);
    Sort.KahnRespectsAuthEdges(PhaseIds(sets, events, phase), c);
    Sort.Kahn(PhaseIds(sets, events, phase), c)
  }

  ghost function ApplyPhase(sets: set<StateMap>, events: EventStore, phase: Phase, acc: Acc): Acc
    requires Sort.StoredUnderOwnId(events)
  {
    var q := PhaseOrder(sets, events, phase, acc.powerLevels);
    assert forall id | id in q :: id in Elems(q);
    Replay(q, acc, events)
  }

  ghost function Baseline(sets: set<StateMap>, events: EventStore): Acc {
    Acc(Unconflicted(sets), StateEvent(POWER_LEVELS_TUPLE, Unconflicted(sets), events))
  }

  ghost function AfterControl(sets: set<StateMap>, events: EventStore): Acc
    requires Sort.StoredUnderOwnId(events)
  {
    ApplyPhase(sets, events, Control, Baseline(sets, events))
  }

  ghost function AfterMembership(sets: set<StateMap>, events: EventStore): Acc
    requires Sort.StoredUnderOwnId(events)
  {
    ApplyPhase(sets, events, Membership, AfterControl(sets, events))
  }

  /** The resolved state as a function of the set of state maps. */
  ghost function Resolved(sets: set<StateMap>, events: EventStore): StateMap
    requires Sort.StoredUnderOwnId(events)
  {
    if Conflicted(sets) == {} then Unconflicted(sets)
    else ApplyPhase(sets, events, Other, AfterMembership(sets, events)).state
  }

  // ---------------------------------------------------------------- the service

  datatype ResolveResult = Resolution(state: StateMap) | NoStateSets

  method CollectConflictedIds(sets: seq<StateMap>, conflicted: seq<StateTuple>) returns (ids: set<EventId>)
    requires Elems(conflicted) == Conflicted(Elems(sets))
    ensures ids == ConflictedIds(Elems(sets))
  {
    ids := {};
    for i := 0 to |sets|
      invariant ids == set m, t | m in sets[..i] && t in m && t in Conflicted(Elems(sets)) :: m[t]
    {
      assert sets[..i + 1] == sets[..i] + [sets[i]];
      ghost var before := ids;
      for j := 0 to |conflicted|
        invariant ids == before + set t | t in sets[i] && t in conflicted[..j] :: sets[i][t]
      {
        assert conflicted[..j + 1] == conflicted[..j] + [conflicted[j]];
        if conflicted[j] in sets[i] {
          ids := ids + {sets[i][conflicted[j]]};
        }
      }
      assert conflicted[..|conflicted|] == conflicted;
      assert forall t :: t in conflicted <==> t in Conflicted(Elems(sets)) by {
        assert forall t :: t in conflicted <==> t in Elems(conflicted);
      }
    }
    assert sets[..|sets|] == sets;
  }

  ghost predicate InPhase(id: EventId, events: EventStore, phase: Phase) {
    id in events && PhaseOf(events[id].kind) == phase
  }

  ghost predicate Collected(list: seq<EventId>, ids: set<EventId>, events: EventStore, phase: Phase) {
    forall id :: id in list <==> id in ids && InPhase(id, events, phase)
  }

  lemma CollectedMeansPhase(list: seq<EventId>, sets: set<StateMap>, events: EventStore, phase: Phase)
    requires Collected(list, ConflictedIds(sets), events, phase)
    ensures Elems(list) == PhaseIds(sets, events, phase)
  {
  }

  /** Which types are grouped where. */
  lemma CollectedKinds(list: seq<EventId>, ids: set<EventId>, events: EventStore, phase: Phase, id: EventId)
    requires Collected(list, ids, events, phase) && id in ids && id in events
    ensures id in list <==>
            match phase
            case Control =>
              events[id].kind in {"m.room.create", "m.room.power_levels", "m.room.join_rules"}
            case Membership =>
              events[id].kind in {"m.room.member", "m.room.third_party_invite"}
            case Other =>
              events[id].kind !in {"m.room.create", "m.room.power_levels", "m.room.join_rules",
                                   "m.room.member", "m.room.third_party_invite"}
  {
    assert id in list <==> InPhase(id, events, phase);
  }

  /** Grouping walks a Go map, so each list comes out in arbitrary order. */
  method GroupByPhase(ids: set<EventId>, events: EventStore)
    returns (control: seq<EventId>, membership: seq<EventId>, other: seq<EventId>)
    ensures Collected(control, ids, events, Control)
    ensures Collected(membership, ids, events, Membership)
    ensures Collected(other, ids, events, Other)
  {
    control, membership, other := [], [], [];
    var todo := ids;
    while todo != {}
      invariant todo <= ids
      invariant Collected(control, ids - todo, events, Control)
      invariant Collected(membership, ids - todo, events, Membership)
      invariant Collected(other, ids - todo, events, Other)
      decreases |todo|
    {
      var id :| id in todo;
      todo := todo - {id};
      if id in events {
        match PhaseOf(events[id].kind) {
          case Control => control := control + [id];
          case Membership => membership := membership + [id];
          case Other => other := other + [id];
        }
      }
    }
    assert ids - {} == ids;
  }

  /** Sort one phase and replay it against the accumulator. */
  method ApplyPhaseEvents(
    ids: seq<EventId>, acc0: Acc, events: EventStore, ghost sets: set<StateMap>, ghost phase: Phase)
    returns (acc: Acc)
    requires Sort.StoredUnderOwnId(events) && Elems(ids) == PhaseIds(sets, events, phase)
    ensures acc == ApplyPhase(sets, events, phase, acc0)
  {
    var c := Sort.Context(events, acc0.powerLevels);
    Sort.KnownEventsAreTotallyOrdered(Elems(ids), c);
    var sorted := Sort.SortEventsTopologically(ids, c);
    assert sorted == PhaseOrder(sets, events, phase, acc0.powerLevels);
    assert forall id | id in sorted :: id in Elems(sorted);
    acc := ReplayInOrder(sorted, acc0, events);
  }

  method ReplayInOrder(sorted: seq<EventId>, acc0: Acc, events: EventStore) returns (acc: Acc)
    requires forall id | id in sorted :: id in events
    ensures acc == Replay(sorted, acc0, events)
  {
    acc := acc0;
    for i := 0 to |sorted|
      invariant acc == Replay(sorted[..i], acc0, events)
    {
      var id := sorted[i];
      var ev := events[id];
      assert sorted[..i + 1][..i] == sorted[..i];
      if CheckAuth(ev, acc.state, events) {
        acc := acc.(state := acc.state[TupleOf(ev) := id]);
        if TupleOf(ev) == POWER_LEVELS_TUPLE {
          acc := acc.(powerLevels := Some(ev));
        }
      }
    }
    assert sorted[..|sorted|] == sorted;
  }

  /**
   Resolution of a list of state maps: a function of the set of maps in the list. Permuting or
   repeating maps, or any other map-iteration order on the way, gives the same state.
   */
  method Resolve(sets: seq<StateMap>, eventsMap: EventStore, authEventsMap: EventStore) returns (r: ResolveResult)
    requires Sort.StoredUnderOwnId(eventsMap + authEventsMap)
    ensures r == if sets == [] then NoStateSets else Resolution(Resolved(Elems(sets), eventsMap + authEventsMap))
  {
    if |sets| == 0 {
      return NoStateSets;
    }
    if |sets| == 1 {
      OneMapResolvesToItself(sets[0]);
      assert Elems(sets) == {sets[0]};
      return Resolution(sets[0]);
    }
    var unconflicted, conflicted := PartitionState(sets);
    if |conflicted| == 0 {
      assert Elems(conflicted) == {};
      return Resolution(unconflicted);
    }
    assert conflicted[0] in Elems(conflicted);
    var ids := CollectConflictedIds(sets, conflicted);
    var events := eventsMap + authEventsMap;
    var acc := Acc(unconflicted, StateEvent(POWER_LEVELS_TUPLE, unconflicted, events));
    var control, membership, other := GroupByPhase(ids, events);
    CollectedMeansPhase(control, Elems(sets), events, Control);
    CollectedMeansPhase(membership, Elems(sets), events, Membership);
    CollectedMeansPhase(other, Elems(sets), events, Other);
    acc := ApplyPhaseEvents(control, acc, events, Elems(sets), Control);
    acc := ApplyPhaseEvents(membership, acc, events, Elems(sets), Membership);
    acc := ApplyPhaseEvents(other, acc, events, Elems(sets), Other);
    return Resolution(acc.state);
  }

  lemma OneMapResolvesToItself(m: StateMap)
    ensures Conflicted({m}) == {} && Unconflicted({m}) == m
  {
    forall t
      ensures Get(Unconflicted({m}), t) == Get(m, t)
    {
      UnconflictedMeans({m}, t);
    }
    SameEntries(Unconflicted({m}), m);
  }

  // ---------------------------------------------------------------- what resolution guarantees

  /** Every entry of every map names an event of that tuple, when the event is known at all. */
  ghost predicate EntriesMatchTuples(sets: set<StateMap>, events: EventStore) {
    forall m, t | m in sets && t in m && m[t] in events :: TupleOf(events[m[t]]) == t
  }

  /** An entry no replayed event writes keeps its value. */
  lemma {:induction false} ReplayFrame(order: seq<EventId>, acc: Acc, events: EventStore, t: StateTuple)
    requires forall id | id in order :: id in events && TupleOf(events[id]) != t
    ensures Get(Replay(order, acc, events).state, t) == Get(acc.state, t)
    ensures t == POWER_LEVELS_TUPLE ==> Replay(order, acc, events).powerLevels == acc.powerLevels
  {
    if order != [] {
      ReplayFrame(order[..|order| - 1], acc, events, t);
    }
  }

  /** A conflicted event writes a conflicted tuple, of its own phase. */
  lemma PhaseWrites(sets: set<StateMap>, events: EventStore, phase: Phase, id: EventId)
    requires EntriesMatchTuples(sets, events) && id in PhaseIds(sets, events, phase)
    ensures TupleOf(events[id]) in Conflicted(sets) && PhaseOf(TupleOf(events[id]).kind) == phase
    ensures exists m :: m in sets && Get(m, TupleOf(events[id])) == Some(id)
  {
    var m, t :| m in sets && t in m && t in Conflicted(sets) && m[t] == id;
    assert Get(m, TupleOf(events[id])) == Some(id);
  }

  lemma PhaseFrame(sets: set<StateMap>, events: EventStore, phase: Phase, acc: Acc, t: StateTuple)
    requires Sort.StoredUnderOwnId(events) && EntriesMatchTuples(sets, events)
    requires t !in Conflicted(sets) || PhaseOf(t.kind) != phase
    ensures Get(ApplyPhase(sets, events, phase, acc).state, t) == Get(acc.state, t)
    ensures t == POWER_LEVELS_TUPLE ==> ApplyPhase(sets, events, phase, acc).powerLevels == acc.powerLevels
  {
    var q := PhaseOrder(sets, events, phase, acc.powerLevels);
    forall id | id in q
      ensures id in events && TupleOf(events[id]) != t
    {
      assert id in Elems(q);
      PhaseWrites(sets, events, phase, id);
    }
    ReplayFrame(q, acc, events, t);
  }

  /** Unconflicted entries survive unchanged. */
  lemma UnconflictedSurvive(sets: set<StateMap>, events: EventStore, t: StateTuple)
    requires Sort.StoredUnderOwnId(events) && EntriesMatchTuples(sets, events)
    requires t !in Conflicted(sets)
    ensures Get(Resolved(sets, events), t) == Get(Unconflicted(sets), t)
  {
    PhaseFrame(sets, events, Control, Baseline(sets, events), t);
    PhaseFrame(sets, events, Membership, AfterControl(sets, events), t);
    PhaseFrame(sets, events, Other, AfterMembership(sets, events), t);
  }

  /** Every entry of a state was proposed for its tuple by some input map. */
  ghost predicate Proposed(state: StateMap, sets: set<StateMap>) {
    forall t | t in state :: exists m :: m in sets && Get(m, t) == Some(state[t])
  }

  lemma {:induction false} ReplayProposed(
    order: seq<EventId>, acc: Acc, events: EventStore, sets: set<StateMap>, phase: Phase)
    requires EntriesMatchTuples(sets, events) && Proposed(acc.state, sets)
    requires forall id | id in order :: id in events && id in PhaseIds(sets, events, phase)
    ensures Proposed(Replay(order, acc, events).state, sets)
  {
    if order != [] {
      var k := |order| - 1;
      ReplayProposed(order[..k], acc, events, sets, phase);
      assert order[k] in order;
      PhaseWrites(sets, events, phase, order[k]);
    }
  }

  lemma PhaseProposed(sets: set<StateMap>, events: EventStore, phase: Phase, acc: Acc)
    requires Sort.StoredUnderOwnId(events) && EntriesMatchTuples(sets, events) && Proposed(acc.state, sets)
    ensures Proposed(ApplyPhase(sets, events, phase, acc).state, sets)
  {
    var q := PhaseOrder(sets, events, phase, acc.powerLevels);
    assert forall id | id in q :: id in Elems(q);
    ReplayProposed(q, acc, events, sets, phase);
  }

  /** Resolution invents nothing: every winner was proposed for its tuple by some input map. */
  lemma WinnersWereProposed(sets: set<StateMap>, events: EventStore)
    requires Sort.StoredUnderOwnId(events) && EntriesMatchTuples(sets, events)
    ensures Proposed(Resolved(sets, events), sets)
  {
    forall t | t in Unconflicted(sets)
      ensures exists m :: m in sets && Get(m, t) == Some(Unconflicted(sets)[t])
    {
      UnconflictedMeans(sets, t);
      var m :| m in sets && t in m;
      assert Get(m, t) == Some(Unconflicted(sets)[t]);
    }
    PhaseProposed(sets, events, Control, Baseline(sets, events));
    PhaseProposed(sets, events, Membership, AfterControl(sets, events));
    PhaseProposed(sets, events, Other, AfterMembership(sets, events));
  }

  /** The sorting power levels are always those of the accumulator's own power-levels entry. */
  lemma {:induction false} ReplayPowerLevels(order: seq<EventId>, acc: Acc, events: EventStore)
    requires forall id | id in order :: id in events
    requires acc.powerLevels == StateEvent(POWER_LEVELS_TUPLE, acc.state, events)
    ensures var r := Replay(order, acc, events); r.powerLevels == StateEvent(POWER_LEVELS_TUPLE, r.state, events)
  {
    if order != [] {
      ReplayPowerLevels(order[..|order| - 1], acc, events);
    }
  }

  /** The last candidate for `t` in an order that the state `judge` authorizes. */
  function LastAuthorized(order: seq<EventId>, t: StateTuple, judge: StateMap, events: EventStore): Option<EventId>
    requires forall id | id in order :: id in events
  {
    if order == [] then None
    else
      var last := order[|order| - 1];
      if TupleOf(events[last]) == t && CheckAuth(events[last], judge, events) then Some(last)
      else LastAuthorized(order[..|order| - 1], t, judge, events)
  }

  /** The states agree on every entry that phase two (for memberships) or three reads. */
  ghost predicate AgreeBefore(phase: Phase, a: StateMap, b: StateMap) {
    forall u: StateTuple | PhaseOf(u.kind) == Control || (phase == Other && u.kind == MEMBER) :: Get(a, u) == Get(b, u)
  }

  ghost predicate AllInPhase(order: seq<EventId>, events: EventStore, phase: Phase) {
    forall id | id in order :: id in events && PhaseOf(TupleOf(events[id]).kind) == phase
  }

  /** A candidate's verdict part-way through its phase is the verdict of the settled state. */
  lemma VerdictIsSettled(order: seq<EventId>, acc: Acc, events: EventStore, phase: Phase, ev: Event, judge: StateMap)
    requires AllInPhase(order, events, phase) && AgreeBefore(phase, acc.state, judge)
    requires phase == PhaseOf(ev.kind) && (ev.kind == MEMBER || phase == Other)
    ensures CheckAuth(ev, Replay(order, acc, events).state, events) == CheckAuth(ev, judge, events)
  {
    var now := Replay(order, acc, events);
    forall u | u in AuthReads(ev)
      ensures Get(now.state, u) == Get(judge, u)
    {
      assert PhaseOf(u.kind) == Control || (phase == Other && u.kind == MEMBER);
      ReplayFrame(order, acc, events, u);
      assert Get(acc.state, u) == Get(judge, u);
    }
    CheckAuthFrame(ev, now.state, judge, events);
  }

  /** Candidates whose reads are settled get the verdict of the settled state. */
  lemma {:induction false} ReplayElects(
    order: seq<EventId>, acc: Acc, events: EventStore, phase: Phase, t: StateTuple, judge: StateMap)
    requires AllInPhase(order, events, phase) && AgreeBefore(phase, acc.state, judge)
    requires phase == PhaseOf(t.kind) && (t.kind == MEMBER || phase == Other)
    requires t !in acc.state
    ensures Get(Replay(order, acc, events).state, t) == LastAuthorized(order, t, judge, events)
  {
    if order != [] {
      var k := |order| - 1;
      ReplayElects(order[..k], acc, events, phase, t, judge);
      if TupleOf(events[order[k]]) == t {
        VerdictIsSettled(order[..k], acc, events, phase, events[order[k]], judge);
      }
    }
  }

  /** Phases two and three leave the power levels and the create entry as phase one left them. */
  lemma ControlEntriesAreFinal(sets: set<StateMap>, events: EventStore, t: StateTuple)
    requires Sort.StoredUnderOwnId(events) && EntriesMatchTuples(sets, events) && Conflicted(sets) != {}
    requires PhaseOf(t.kind) == Control
    ensures Get(Resolved(sets, events), t) == Get(AfterControl(sets, events).state, t)
    ensures Get(Resolved(sets, events), t) == Get(AfterMembership(sets, events).state, t)
    ensures t == POWER_LEVELS_TUPLE ==>
      && AfterControl(sets, events).powerLevels == StateEvent(t, Resolved(sets, events), events)
      && AfterMembership(sets, events).powerLevels == StateEvent(t, Resolved(sets, events), events)
  {
    PhaseFrame(sets, events, Membership, AfterControl(sets, events), t);
    PhaseFrame(sets, events, Other, AfterMembership(sets, events), t);
    var base := Baseline(sets, events);
    var q := PhaseOrder(sets, events, Control, base.powerLevels);
    assert forall id | id in q :: id in Elems(q);
    ReplayPowerLevels(q, base, events);
    SameEntrySameEvent(t, AfterControl(sets, events).state, Resolved(sets, events), events);
  }

  lemma SameEntrySameEvent(t: StateTuple, a: StateMap, b: StateMap, events: EventStore)
    requires Get(a, t) == Get(b, t)
    ensures StateEvent(t, a, events) == StateEvent(t, b, events)
  {
  }

  /** Phase three leaves every membership as phase two left it. */
  lemma MembershipsAreFinal(sets: set<StateMap>, events: EventStore, user: UserId)
    requires Sort.StoredUnderOwnId(events) && EntriesMatchTuples(sets, events) && Conflicted(sets) != {}
    ensures Get(Resolved(sets, events), MemberTuple(user))
        == Get(AfterMembership(sets, events).state, MemberTuple(user))
  {
    PhaseFrame(sets, events, Other, AfterMembership(sets, events), MemberTuple(user));
  }

  /** One phase elects, for each tuple it may decide, the last candidate a settled state authorizes. */
  lemma PhaseElects(sets: set<StateMap>, events: EventStore, phase: Phase, acc: Acc, t: StateTuple, judge: StateMap)
    requires Sort.StoredUnderOwnId(events) && EntriesMatchTuples(sets, events)
    requires phase == PhaseOf(t.kind) && (t.kind == MEMBER || phase == Other)
    requires t !in acc.state && AgreeBefore(phase, acc.state, judge)
    ensures var order := PhaseOrder(sets, events, phase, acc.powerLevels);
      && (forall id | id in order :: id in events)
      && Get(ApplyPhase(sets, events, phase, acc).state, t) == LastAuthorized(order, t, judge, events)
  {
    var order := PhaseOrder(sets, events, phase, acc.powerLevels);
    forall id | id in order
      ensures id in events && PhaseOf(TupleOf(events[id]).kind) == phase
    {
      assert id in Elems(order);
      PhaseWrites(sets, events, phase, id);
    }
    ReplayElects(order, acc, events, phase, t, judge);
  }

  /** When the membership phase starts, the control entries already have their final values. */
  lemma ControlSettled(sets: set<StateMap>, events: EventStore)
    requires Sort.StoredUnderOwnId(events) && EntriesMatchTuples(sets, events) && Conflicted(sets) != {}
    ensures AgreeBefore(Membership, AfterControl(sets, events).state, Resolved(sets, events))
  {
    forall u: StateTuple | PhaseOf(u.kind) == Control
      ensures Get(AfterControl(sets, events).state, u) == Get(Resolved(sets, events), u)
    {
      ControlEntriesAreFinal(sets, events, u);
    }
  }

  /** When the last phase starts, so have the memberships. */
  lemma MembershipSettled(sets: set<StateMap>, events: EventStore)
    requires Sort.StoredUnderOwnId(events) && EntriesMatchTuples(sets, events) && Conflicted(sets) != {}
    ensures AgreeBefore(Other, AfterMembership(sets, events).state, Resolved(sets, events))
  {
    forall u: StateTuple | PhaseOf(u.kind) == Control || u.kind == MEMBER
      ensures Get(AfterMembership(sets, events).state, u) == Get(Resolved(sets, events), u)
    {
      if u.kind == MEMBER {
        MembershipsAreFinal(sets, events, u.stateKey);
      } else {
        ControlEntriesAreFinal(sets, events, u);
      }
    }
  }

  /**
   The winner of a conflicted membership, or of a conflicted entry of the third phase, is the
   last candidate in its phase's order that the FINAL state authorizes; the entry is absent when
   none is. The order itself uses the final power levels.
   */
  lemma FinalStateElectsWinners(sets: set<StateMap>, events: EventStore, t: StateTuple)
    requires Sort.StoredUnderOwnId(events) && EntriesMatchTuples(sets, events)
    requires t in Conflicted(sets) && (t.kind == MEMBER || PhaseOf(t.kind) == Other)
    ensures var final := Resolved(sets, events);
      var order := PhaseOrder(sets, events, PhaseOf(t.kind), StateEvent(POWER_LEVELS_TUPLE, final, events));
      (forall id | id in order :: id in events) && Get(final, t) == LastAuthorized(order, t, final, events)
  {
    var final := Resolved(sets, events);
    ControlEntriesAreFinal(sets, events, POWER_LEVELS_TUPLE);
    StartsAbsent(sets, events, t);
    if PhaseOf(t.kind) == Other {
      MembershipSettled(sets, events);
      PhaseElects(sets, events, Other, AfterMembership(sets, events), t, final);
    } else {
      ControlSettled(sets, events);
      PhaseElects(sets, events, Membership, AfterControl(sets, events), t, final);
      PhaseFrame(sets, events, Other, AfterMembership(sets, events), t);
    }
  }

  lemma {:induction false} LastAuthorizedIsAuthorized(
    order: seq<EventId>, t: StateTuple, judge: StateMap, events: EventStore)
    requires forall id | id in order :: id in events
    requires LastAuthorized(order, t, judge, events).Some?
    ensures var id := LastAuthorized(order, t, judge, events).value;
      id in events && TupleOf(events[id]) == t && CheckAuth(events[id], judge, events)
  {
    var n := |order| - 1;
    assert order[n] in order;
    if !(TupleOf(events[order[n]]) == t && CheckAuth(events[order[n]], judge, events)) {
      LastAuthorizedIsAuthorized(order[..n], t, judge, events);
    }
  }

  /**
   Whoever sent the winner of a conflicted ordinary entry is joined in the resolved state and has
   the level that the resolved power levels ask for its type.
   */
  lemma OrdinaryWinnersAreEntitled(sets: set<StateMap>, events: EventStore, t: StateTuple, pl: Event)
    requires Sort.StoredUnderOwnId(events) && EntriesMatchTuples(sets, events)
    requires t in Conflicted(sets) && t in Resolved(sets, events)
    requires t.kind !in {
        "m.room.create", "m.room.power_levels", "m.room.join_rules", "m.room.member", "m.room.third_party_invite"}
    requires EntryIs(Resolved(sets, events), events, "m.room.power_levels", "", pl)
    ensures var final := Resolved(sets, events);
      && final[t] in events
      && var winner := events[final[t]];
        var have := match pl.content.levels
                    case None => 0
                    case Some(l) => if winner.sender in l.users then l.users[winner.sender] else l.usersDefault;
        var need := match pl.content.thresholds
                    case None => 50
                    case Some(h) =>
                      if t.kind in h.events then h.events[t.kind]
                      else if h.stateDefault != 0 then h.stateDefault
                      else 50;
        TupleOf(winner) == t && IsJoined(final, events, winner.sender) && have >= need
  {
    var final := Resolved(sets, events);
    FinalStateElectsWinners(sets, events, t);
    var order := PhaseOrder(sets, events, PhaseOf(t.kind), StateEvent(POWER_LEVELS_TUPLE, final, events));
    LastAuthorizedIsAuthorized(order, t, final, events);
    OrdinaryVerdictIff(events[final[t]], final, events, pl);
  }

  /** A conflicted tuple has no entry until its own phase runs. */
  lemma StartsAbsent(sets: set<StateMap>, events: EventStore, t: StateTuple)
    requires Sort.StoredUnderOwnId(events) && EntriesMatchTuples(sets, events)
    requires t in Conflicted(sets)
    ensures PhaseOf(t.kind) != Control ==> t !in AfterControl(sets, events).state
    ensures PhaseOf(t.kind) == Other ==> t !in AfterMembership(sets, events).state
  {
    UnconflictedMeans(sets, t);
    if PhaseOf(t.kind) != Control {
      PhaseFrame(sets, events, Control, Baseline(sets, events), t);
      if PhaseOf(t.kind) == Other {
        PhaseFrame(sets, events, Membership, AfterControl(sets, events), t);
      }
    }
  }

  // ---------------------------------------------------------------- which conflicted tuples end up without an entry

  /** Some candidate for `t` passes when its turn comes. */
  ghost predicate PassesInTurn(order: seq<EventId>, acc: Acc, events: EventStore, t: StateTuple)
    requires forall id | id in order :: id in events
  {
    exists k :: 0 <= k < |order| && TupleOf(events[order[k]]) == t
                && CheckAuth(events[order[k]], Replay(order[..k], acc, events).state, events)
  }

  lemma {:induction false} EntryAppearsIff(order: seq<EventId>, acc: Acc, events: EventStore, t: StateTuple)
    requires forall id | id in order :: id in events
    ensures t in Replay(order, acc, events).state <==> t in acc.state || PassesInTurn(order, acc, events, t)
  {
    if order != [] {
      var n := |order| - 1;
      EntryAppearsIff(order[..n], acc, events, t);
      LaterTurn(order, acc, events, t);
    }
  }

  lemma LaterTurn(order: seq<EventId>, acc: Acc, events: EventStore, t: StateTuple)
    requires order != [] && forall id | id in order :: id in events
    ensures var n := |order| - 1;
      PassesInTurn(order, acc, events, t) <==>
      PassesInTurn(order[..n], acc, events, t) ||
      (TupleOf(events[order[n]]) == t && CheckAuth(events[order[n]], Replay(order[..n], acc, events).state, events))
  {
    var n := |order| - 1;
    assert forall k | 0 <= k < n :: order[..n][k] == order[k] && order[..n][..k] == order[..k];
  }

  /** The accumulator a phase starts from. */
  ghost function PhaseStart(sets: set<StateMap>, events: EventStore, phase: Phase): Acc
    requires Sort.StoredUnderOwnId(events)
  {
    match phase
    case Control => Baseline(sets, events)
    case Membership => AfterControl(sets, events)
    case Other => AfterMembership(sets, events)
  }

  /** What is tried for the tuples of a phase, in order. */
  ghost function TriedInOrder(sets: set<StateMap>, events: EventStore, phase: Phase): (q: seq<EventId>)
    requires Sort.StoredUnderOwnId(events)
    ensures forall id | id in q :: id in events
  {
    var q := PhaseOrder(sets, events, phase, PhaseStart(sets, events, phase).powerLevels);
    assert forall id | id in q :: id in Elems(q);
    q
  }

  /** A conflicted tuple, of whatever phase, ends up without an entry iff no candidate passes in its turn. */
  lemma ConflictedIsAbsentIff(sets: set<StateMap>, events: EventStore, t: StateTuple)
    requires Sort.StoredUnderOwnId(events) && EntriesMatchTuples(sets, events) && t in Conflicted(sets)
    ensures var phase := PhaseOf(t.kind);
      t !in Resolved(sets, events)
      <==> !PassesInTurn(TriedInOrder(sets, events, phase), PhaseStart(sets, events, phase), events, t)
  {
    var phase := PhaseOf(t.kind);
    var start := PhaseStart(sets, events, phase);
    var order := TriedInOrder(sets, events, phase);
    EntryAppearsIff(order, start, events, t);
    StartsAbsent(sets, events, t);
    UnconflictedMeans(sets, t);
    assert ApplyPhase(sets, events, phase, start) == Replay(order, start, events);
    if phase == Control {
      PhaseFrame(sets, events, Membership, AfterControl(sets, events), t);
    }
    if phase != Other {
      PhaseFrame(sets, events, Other, AfterMembership(sets, events), t);
    }
  }
}
