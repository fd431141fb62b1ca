/**
 The tables of one room and the storage operations on them. `Db` is their value; the class
 holds them as fields that the storage methods reassign. The event table also keeps the order
 of insertion, which the stream-ordering column records.
 */
module RoomStore {
  import opened Events

  datatype MemberRow = MemberRow(membership: string, eventId: EventId)

  datatype Db = Db(
    events: map<EventId, Event>,
    log: seq<EventId>,
    extremities: set<EventId>,
    state: StateMap,
    membership: map<UserId, MemberRow>)

  const EMPTY_DB := Db(map[], [], {}, map[], map[])

  /** Insert once: an ID already stored keeps its row. */
  function Saved(db: Db, ev: Event): Db {
    if ev.id in db.events then db
    else db.(events := db.events[ev.id := ev], log := db.log + [ev.id])
  }

  function Advanced(db: Db, id: EventId, prevs: seq<EventId>): Db {
    db.(extremities := (set e | e in db.extremities && e !in prevs) + {id})
  }

  function WithState(db: Db, t: StateTuple, id: EventId): Db {
    db.(state := db.state[t := id])
  }

  function WithMember(db: Db, user: UserId, membership: string, id: EventId): Db {
    db.(membership := db.membership[user := MemberRow(membership, id)])
  }

  predicate CarriesMembership(ev: Event) {
    ev.content.membership.Some? && ev.content.membership.value != ""
  }

  /** Current state, and the membership table when the event carries a membership. */
  function WithStateAndMembership(db: Db, ev: Event): Db {
    if ev.stateKey.None? then db
    else
      var db1 := WithState(db, TupleOf(ev), ev.id);
      if ev.kind == MEMBER && CarriesMembership(ev)
      then WithMember(db1, ev.stateKey.value, ev.content.membership.value, ev.id)
      else db1
  }

  /** The transaction that adds an event to the room. */
  function Committed(db: Db, ev: Event): Db {
    WithStateAndMembership(Advanced(Saved(db, ev), ev.id, ev.prevEvents), ev)
  }

  /** What a commit leaves in each table. */
  lemma CommittedTables(db: Db, ev: Event)
    ensures Committed(db, ev).events == if ev.id in db.events then db.events else db.events[ev.id := ev]
    ensures Committed(db, ev).log == if ev.id in db.events then db.log else db.log + [ev.id]
    ensures Committed(db, ev).extremities == (set e | e in db.extremities && e !in ev.prevEvents) + {ev.id}
    ensures Committed(db, ev).state ==
            if ev.stateKey.Some? then db.state[StateTuple(ev.kind, ev.stateKey.value) := ev.id] else db.state
    ensures Committed(db, ev).membership ==
            if ev.kind == "m.room.member" && ev.stateKey.Some? && ev.content.membership.Some?
               && ev.content.membership != Some("")
            then db.membership[ev.stateKey.value := MemberRow(ev.content.membership.value, ev.id)]
            else db.membership
  {
  }

  /** Row and state entry of `user` are pointed at an event, whatever its body says. */
  function MemberWritten(db: Db, ev: Event, user: UserId, membership: string): Db {
    WithMember(WithState(Saved(db, ev), MemberTuple(user), ev.id), user, membership, ev.id)
  }

  predicate IsJoinRuleRow(db: Db, k: StateTuple) {
    k in db.state && k.kind == JOIN_RULES && db.state[k] in db.events
  }

  /**
   What the join-rule query may answer: the rule of any stored join-rules entry, whatever its state
   key, `None` when that body has no rule, and "invite" when there is no such entry.
   */
  ghost predicate PossibleJoinRule(db: Db, rule: Option<string>) {
    if exists k :: IsJoinRuleRow(db, k)
    then exists k :: IsJoinRuleRow(db, k) && rule == db.events[db.state[k]].content.joinRule
    else rule == Some("invite")
  }

  /** Highest depth among the stored events of a list. */
  function MaxDepth(prevs: seq<EventId>, events: map<EventId, Event>): Option<int> {
    if prevs == [] then None
    else
      var m := MaxDepth(prevs[..|prevs| - 1], events);
      var p := prevs[|prevs| - 1];
      if p in events && (m.None? || m.value < events[p].depth) then Some(events[p].depth) else m
  }

  function DepthAfter(prevs: seq<EventId>, events: map<EventId, Event>): int {
    var m := MaxDepth(prevs, events);
    (if m.Some? then m.value else 0) + 1
  }

  lemma {:induction false} DepthExceedsPrevs(prevs: seq<EventId>, events: map<EventId, Event>)
    ensures forall p | p in prevs && p in events ::
        MaxDepth(prevs, events).Some? && events[p].depth < DepthAfter(prevs, events)
    ensures DepthAfter(prevs, events) == 1 ||
            exists p :: p in prevs && p in events && events[p].depth + 1 == DepthAfter(prevs, events)
    ensures (forall p | p in prevs :: p !in events) ==> DepthAfter(prevs, events) == 1
  {
    if prevs != [] {
      var k := |prevs| - 1;
      DepthExceedsPrevs(prevs[..k], events);
      assert prevs == prevs[..k] + [prevs[k]];
    }
  }

  /** The state entries looked up for the auth events of a new event, in order. */
  function AuthKeys(sender: UserId, kind: string, stateKey: Option<string>): seq<StateTuple> {
    [CREATE_TUPLE, POWER_LEVELS_TUPLE, MemberTuple(sender)] +
    if kind == MEMBER && stateKey.Some? then [MemberTuple(stateKey.value), JOIN_RULES_TUPLE] else []
  }

  /** The entries that exist, in order. */
  function Lookups(keys: seq<StateTuple>, state: StateMap): seq<EventId> {
    if keys == [] then []
    else
      var k := |keys| - 1;
      Lookups(keys[..k], state) + if keys[k] in state then [state[keys[k]]] else []
  }

  lemma {:induction false} LookupsAreEntries(keys: seq<StateTuple>, state: StateMap)
    ensures forall id | id in Lookups(keys, state) :: exists t :: t in keys && Get(state, t) == Some(id)
    ensures forall t | t in keys && t in state :: state[t] in Lookups(keys, state)
  {
    if keys != [] {
      var k := |keys| - 1;
      LookupsAreEntries(keys[..k], state);
      assert keys == keys[..k] + [keys[k]];
      forall id | id in Lookups(keys, state)
        ensures exists t :: t in keys && Get(state, t) == Some(id)
      {
        if id in Lookups(keys[..k], state) {
          var t :| t in keys[..k] && Get(state, t) == Some(id);
          assert t in keys;
        } else {
          assert Get(state, keys[k]) == Some(id);
        }
      }
    }
  }

  /** The entry of a tuple, if it exists. */
  function EntryOf(kind: string, stateKey: string, state: StateMap): seq<EventId> {
    if StateTuple(kind, stateKey) in state then [state[StateTuple(kind, stateKey)]] else []
  }

  /** What a new event cites: `auths` are these entries, in this order, each skipped when it does not exist. */
  ghost predicate CitesExactly(
    auths: seq<EventId>, sender: UserId, kind: string, stateKey: Option<string>, state: StateMap) {
    auths ==
    EntryOf("m.room.create", "", state) + EntryOf("m.room.power_levels", "", state)
    + EntryOf("m.room.member", sender, state)
    + if kind == "m.room.member" && stateKey.Some?
      then EntryOf("m.room.member", stateKey.value, state) + EntryOf("m.room.join_rules", "", state)
      else []
  }

  function EntryAt(t: StateTuple, state: StateMap): seq<EventId> {
    EntryOf(t.kind, t.stateKey, state)
  }

  lemma LookupsSnoc(keys: seq<StateTuple>, t: StateTuple, state: StateMap)
    ensures Lookups(keys + [t], state) == Lookups(keys, state) + EntryAt(t, state)
  {
    assert (keys + [t])[..|keys|] == keys;
  }

  lemma LookupsTwo(a: StateTuple, b: StateTuple, state: StateMap)
    ensures Lookups([a, b], state) == EntryAt(a, state) + EntryAt(b, state)
  {
    LookupsSnoc([], a, state);
    assert [] + [a] == [a] && [a] + [b] == [a, b];
    LookupsSnoc([a], b, state);
    assert Lookups([], state) == [];
  }

  lemma LookupsThree(a: StateTuple, b: StateTuple, c: StateTuple, state: StateMap)
    ensures Lookups([a, b, c], state) == EntryAt(a, state) + EntryAt(b, state) + EntryAt(c, state)
  {
    LookupsTwo(a, b, state);
    assert [a, b] + [c] == [a, b, c];
    LookupsSnoc([a, b], c, state);
  }

  lemma LookupsFive(a: StateTuple, b: StateTuple, c: StateTuple, d: StateTuple, e: StateTuple, state: StateMap)
    ensures Lookups([a, b, c, d, e], state)
            == EntryAt(a, state) + EntryAt(b, state) + EntryAt(c, state) + (EntryAt(d, state) + EntryAt(e, state))
  {
    LookupsThree(a, b, c, state);
    assert [a, b, c] + [d] == [a, b, c, d];
    LookupsSnoc([a, b, c], d, state);
    assert [a, b, c, d] + [e] == [a, b, c, d, e];
    LookupsSnoc([a, b, c, d], e, state);
  }

  /**
   Every event cites the create event, the power levels and its sender's membership; a member event
   with a state key also cites the membership of its target and the join rules. Nothing else is cited.
   */
  lemma CitedEntries(sender: UserId, kind: string, stateKey: Option<string>, state: StateMap)
    ensures CitesExactly(Lookups(AuthKeys(sender, kind, stateKey), state), sender, kind, stateKey, state)
  {
    if kind == MEMBER && stateKey.Some? {
      var target := MemberTuple(stateKey.value);
      LookupsFive(CREATE_TUPLE, POWER_LEVELS_TUPLE, MemberTuple(sender), target, JOIN_RULES_TUPLE, state);
      assert AuthKeys(sender, kind, stateKey)
          == [CREATE_TUPLE, POWER_LEVELS_TUPLE, MemberTuple(sender), target, JOIN_RULES_TUPLE];
    } else {
      LookupsThree(CREATE_TUPLE, POWER_LEVELS_TUPLE, MemberTuple(sender), state);
      assert AuthKeys(sender, kind, stateKey) == [CREATE_TUPLE, POWER_LEVELS_TUPLE, MemberTuple(sender)];
    }
  }

  /** A member acting on their own membership cites the same member event twice. */
  lemma OwnMembershipIsCitedTwice(user: UserId, state: StateMap)
    requires MemberTuple(user) in state
    ensures multiset(Lookups(AuthKeys(user, MEMBER, Some(user)), state))[state[MemberTuple(user)]] >= 2
  {
    var keys := AuthKeys(user, MEMBER, Some(user));
    var id := state[MemberTuple(user)];
    assert keys == [CREATE_TUPLE, POWER_LEVELS_TUPLE, MemberTuple(user), MemberTuple(user), JOIN_RULES_TUPLE];
    var l3, l4 := Lookups(keys[..3], state), Lookups(keys[..4], state);
    assert keys[..3][..2] == keys[..2] && keys[..4][..3] == keys[..3] && keys[..5][..4] == keys[..4]
      && keys[..5] == keys;
    assert l3 == Lookups(keys[..2], state) + [id];
    assert l4 == l3 + [id];
  }

  // ---------------------------------------------------------------- lists of events

  function EventsById(list: seq<Event>): map<EventId, Event> {
    if list == [] then map[]
    else
      var last := list[|list| - 1];
      EventsById(list[..|list| - 1])[last.id := last]
  }

  /** Last state event of each tuple; events without a state key are skipped. */
  function StateOf(list: seq<Event>): StateMap {
    if list == [] then map[]
    else
      var init, last := StateOf(list[..|list| - 1]), list[|list| - 1];
      if last.stateKey.Some? then init[TupleOf(last) := last.id] else init
  }

  function SavedAll(db: Db, list: seq<Event>): Db {
    if list == [] then db else Saved(SavedAll(db, list[..|list| - 1]), list[|list| - 1])
  }

  lemma {:induction false} EventsByIdMeans(list: seq<Event>)
    ensures forall id | id in EventsById(list) :: EventsById(list)[id] in list && EventsById(list)[id].id == id
    ensures forall ev | ev in list :: ev.id in EventsById(list)
  {
    if list != [] {
      var k := |list| - 1;
      EventsByIdMeans(list[..k]);
      assert list == list[..k] + [list[k]];
    }
  }

  lemma {:induction false} EntryIsNamed(list: seq<Event>, t: StateTuple) returns (ev: Event)
    requires t in StateOf(list)
    ensures ev in list && ev.id == StateOf(list)[t] && TupleOf(ev) == t && ev.stateKey.Some?
  {
    var k := |list| - 1;
    if list[k].stateKey.Some? && TupleOf(list[k]) == t {
      ev := list[k];
    } else {
      ev := EntryIsNamed(list[..k], t);
    }
  }

  lemma {:induction false} NamedIsEntry(list: seq<Event>, ev: Event)
    requires ev in list && ev.stateKey.Some?
    ensures TupleOf(ev) in StateOf(list)
  {
    var k := |list| - 1;
    if ev != list[k] {
      assert list == list[..k] + [list[k]];
      NamedIsEntry(list[..k], ev);
    }
  }

  lemma StateOfMeans(list: seq<Event>)
    ensures forall t | t in StateOf(list) :: exists ev ::
        ev in list && ev.id == StateOf(list)[t] && TupleOf(ev) == t && ev.stateKey.Some?
    ensures forall ev | ev in list && ev.stateKey.Some? :: TupleOf(ev) in StateOf(list)
  {
    forall t | t in StateOf(list)
      ensures exists ev :: ev in list && ev.id == StateOf(list)[t] && TupleOf(ev) == t && ev.stateKey.Some?
    {
      var ev := EntryIsNamed(list, t);
    }
    forall ev | ev in list && ev.stateKey.Some?
      ensures TupleOf(ev) in StateOf(list)
    {
      NamedIsEntry(list, ev);
    }
  }

  lemma {:induction false} SavedAllMeans(db: Db, list: seq<Event>)
    ensures var d := SavedAll(db, list);
      && d.state == db.state && d.membership == db.membership && d.extremities == db.extremities
      && (forall id | id in db.events :: id in d.events && d.events[id] == db.events[id])
      && (forall ev | ev in list :: ev.id in d.events)
      && (forall id | id in d.events && id !in db.events :: d.events[id] in list && d.events[id].id == id)
  {
    if list != [] {
      var k := |list| - 1;
      SavedAllMeans(db, list[..k]);
      assert list == list[..k] + [list[k]];
    }
  }

  class RoomTables {
    var events: map<EventId, Event>
    var log: seq<EventId>
    var extremities: set<EventId>
    var state: StateMap
    var membership: map<UserId, MemberRow>

    function Snapshot(): Db
      reads this
    {
      Db(events, log, extremities, state, membership)
    }

    constructor ()
      ensures Snapshot() == EMPTY_DB
    {
      events, log, extremities, state, membership := map[], [], {}, map[], map[];
    }

    method SaveEvent(ev: Event)
      modifies this`events, this`log
      ensures Snapshot() == Saved(old(Snapshot()), ev)
    {
      if ev.id !in events {
        events := events[ev.id := ev];
        log := log + [ev.id];
      }
    }

    /** Delete the old tips that the event points to, then insert the event as a tip. */
    method UpdateForwardExtremities(id: EventId, prevs: seq<EventId>)
      modifies this`extremities
      ensures Snapshot() == Advanced(old(Snapshot()), id, prevs)
    {
      if |prevs| > 0 {
        extremities := set e | e in extremities && e !in prevs;
      }
      extremities := extremities + {id};
    }

    method UpsertCurrentState(kind: string, stateKey: string, id: EventId)
      modifies this`state
      ensures Snapshot() == WithState(old(Snapshot()), StateTuple(kind, stateKey), id)
    {
      state := state[StateTuple(kind, stateKey) := id];
    }

    method UpsertMembership(user: UserId, membershipType: string, id: EventId)
      modifies this`membership
      ensures Snapshot() == WithMember(old(Snapshot()), user, membershipType, id)
    {
      membership := membership[user := MemberRow(membershipType, id)];
    }

    /** No ORDER BY: the tips come back in any order. */
    method GetForwardExtremities() returns (ids: seq<EventId>)
      ensures NoDuplicates(ids) && Elems(ids) == extremities
    {
      ids := [];
      var todo := extremities;
      while todo != {}
        invariant todo <= extremities && NoDuplicates(ids) && Elems(ids) == extremities - todo
        decreases |todo|
      {
        var e :| e in todo;
        assert e !in Elems(ids);
        ElemsAppend(ids, e);
        ids := ids + [e];
        todo := todo - {e};
      }
    }

    method GetMaxDepth(prevs: seq<EventId>) returns (depth: int)
      ensures depth + 1 == DepthAfter(prevs, events)
    {
      var best: Option<int> := None;
      for i := 0 to |prevs|
        invariant best == MaxDepth(prevs[..i], events)
      {
        assert prevs[..i + 1][..i] == prevs[..i];
        if prevs[i] in events && (best.None? || best.value < events[prevs[i]].depth) {
          best := Some(events[prevs[i]].depth);
        }
      }
      assert prevs[..|prevs|] == prevs;
      depth := if best.Some? then best.value else 0;
    }

    /** A user without a row counts as having left. */
    function GetUserMembership(user: UserId): string
      reads this
    {
      if user in membership then membership[user].membership else "leave"
    }

    /** No filter on the state key and no ORDER BY: any join-rules entry may be picked. */
    method GetJoinRule() returns (rule: Option<string>)
      ensures PossibleJoinRule(Snapshot(), rule)
    {
      var todo := state.Keys;
      while todo != {}
        invariant todo <= state.Keys
        invariant forall k | IsJoinRuleRow(Snapshot(), k) :: k in todo
        decreases todo
      {
        var k :| k in todo;
        if k.kind == JOIN_RULES && state[k] in events {
          assert IsJoinRuleRow(Snapshot(), k);
          return events[state[k]].content.joinRule;
        }
        todo := todo - {k};
      }
      return Some("invite");
    }

    method ResolveEventDependencies(sender: UserId, kind: string, stateKey: Option<string>)
      returns (prevs: seq<EventId>, auths: seq<EventId>)
      ensures NoDuplicates(prevs) && Elems(prevs) == extremities
      ensures auths == Lookups(AuthKeys(sender, kind, stateKey), state)
      ensures CitesExactly(auths, sender, kind, stateKey, state)
    {
      prevs := GetForwardExtremities();
      auths := [];
      var keys := AuthKeys(sender, kind, stateKey);
      for i := 0 to |keys|
        invariant auths == Lookups(keys[..i], state)
      {
        assert keys[..i + 1][..i] == keys[..i];
        if keys[i] in state {
          auths := auths + [state[keys[i]]];
        }
      }
      assert keys[..|keys|] == keys;
      CitedEntries(sender, kind, stateKey, state);
    }
  }
}
