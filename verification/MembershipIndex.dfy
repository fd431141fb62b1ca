/**
 The membership table is an index of the member entries of the current state. It stays exact
 under local sends, federated joins and leaves, inbound events and the reconciliation of a
 remote join; where an operation can break it, the exact condition is given.
 */
module MembershipIndex {
  import opened Events
  import opened RoomStore
  import Sort = TopologicalSort
  import Res = StateResolution
  import Services = RoomServices
  import Auth = AuthRules

  /** User `u` has row (m, e) exactly when the member entry of `u` is `e` and the body of `e` says m. */
  ghost predicate RightFor(db: Db, u: UserId) {
    match Get(db.membership, u)
    case None => MemberTuple(u) !in db.state
    case Some(row) =>
      && Get(db.state, MemberTuple(u)) == Some(row.eventId)
      && row.eventId in db.events
      && row.membership != ""
      && db.events[row.eventId].content.membership == Some(row.membership)
  }

  ghost predicate Indexed(db: Db) {
    forall u: UserId :: RightFor(db, u)
  }

  /** A user whose row and entry did not change stays right when stored events only grow. */
  lemma UntouchedUserStaysRight(db: Db, d: Db, u: UserId)
    requires RightFor(db, u)
    requires Get(d.membership, u) == Get(db.membership, u)
        && Get(d.state, MemberTuple(u)) == Get(db.state, MemberTuple(u))
    requires forall id | id in db.events :: id in d.events && d.events[id] == db.events[id]
    ensures RightFor(d, u)
  {
  }

  /** An ID names one event: a stored row has the body of any event that arrives under its ID. */
  ghost predicate SameAsStored(db: Db, ev: Event) {
    ev.id in db.events ==> SameBody(db.events[ev.id], ev)
  }

  predicate SameBody(a: Event, b: Event) {
    a.content == b.content && a.kind == b.kind && a.stateKey == b.stateKey
  }

  /** Only the user named by a member event is touched by a commit. */
  lemma CommitTouchesOneUser(db: Db, ev: Event, u: UserId)
    requires RightFor(db, u) && (ev.kind == MEMBER && ev.stateKey.Some? ==> ev.stateKey.value != u)
    ensures RightFor(Committed(db, ev), u)
  {
    CommittedTables(db, ev);
    assert ev.stateKey.Some? ==> TupleOf(ev) != MemberTuple(u);
    UntouchedUserStaysRight(db, Committed(db, ev), u);
  }

  /**
   Adding an event keeps the index exact iff the event is not a member event without a
   membership. This covers local sends and inbound events.
   */
  lemma CommitKeepsIndexIff(db: Db, ev: Event)
    requires Indexed(db) && SameAsStored(db, ev)
    ensures Indexed(Committed(db, ev)) <==> (ev.kind == MEMBER && ev.stateKey.Some? ==> CarriesMembership(ev))
  {
    var d := Committed(db, ev);
    forall u: UserId | !(ev.kind == MEMBER && ev.stateKey == Some(u))
      ensures RightFor(d, u)
    {
      CommitTouchesOneUser(db, ev, u);
    }
    if ev.kind == MEMBER && ev.stateKey.Some? {
      var u := ev.stateKey.value;
      CommitMemberEntry(db, ev);
      if CarriesMembership(ev) {
        forall v: UserId
          ensures RightFor(d, v)
        {
        }
      } else {
        assert !RightFor(d, u);
      }
    }
  }

  lemma CommitMemberEntry(db: Db, ev: Event)
    requires Indexed(db) && SameAsStored(db, ev) && ev.kind == MEMBER && ev.stateKey.Some?
    ensures RightFor(Committed(db, ev), ev.stateKey.value) <==> CarriesMembership(ev)
  {
    CommittedTables(db, ev);
    assert RightFor(db, ev.stateKey.value);
  }

  // ---------------------------------------------------------------- send_join and send_leave

  /** Federated joins and leaves write the row from a constant, not from the stored body. */
  method ProcessSendMember(t: RoomTables, roomKnown: bool, ev: Event, membership: string) returns (ok: bool)
    modifies t
    ensures ok == roomKnown
    ensures t.Snapshot() ==
            if ok then MemberWritten(old(t.Snapshot()), ev, ev.sender, membership) else old(t.Snapshot())
  {
    if !roomKnown {
      return false;
    }
    t.SaveEvent(ev);
    t.UpsertCurrentState(MEMBER, ev.sender, ev.id);
    t.UpsertMembership(ev.sender, membership, ev.id);
    ok := true;
  }

  /**
   The event ID of a federated join or leave comes from the request, and that of a countersigned
   invite from the remote server, so it may name an event stored before. The index survives iff the
   row stored under that ID says the membership.
   */
  lemma SendMemberKeepsIndexIff(db: Db, ev: Event, user: UserId, membership: string)
    requires Indexed(db) && membership != ""
    ensures Indexed(MemberWritten(db, ev, user, membership))
            <==> Saved(db, ev).events[ev.id].content.membership == Some(membership)
  {
    var d := MemberWritten(db, ev, user, membership);
    forall u: UserId | u != user
      ensures RightFor(d, u)
    {
      assert RightFor(db, u);
      UntouchedUserStaysRight(db, d, u);
    }
    assert RightFor(d, user) <==> d.events[ev.id].content.membership == Some(membership);
  }

  /** A federated join that reuses the ID of a stored message leaves a row the message does not confirm. */
  lemma ReusedIdBreaksTheIndex()
    ensures var db := EMPTY_DB.(events := map["$1" := Example("$1")], log := ["$1"]);
      var join := Example("$1").(
                  kind := MEMBER, sender := "@u:x", stateKey := Some("@u:x"),
                  content := Example("$1").content.(membership := Some("join")));
      Indexed(db) && !Indexed(MemberWritten(db, join, join.sender, "join"))
  {
    var db := EMPTY_DB.(events := map["$1" := Example("$1")], log := ["$1"]);
    var join := Example("$1").(
                kind := MEMBER, sender := "@u:x", stateKey := Some("@u:x"),
                content := Example("$1").content.(membership := Some("join")));
    assert forall u: UserId :: RightFor(db, u);
    SendMemberKeepsIndexIff(db, join, "@u:x", "join");
  }

  // ---------------------------------------------------------------- remote join

  /** The row a winning member event gives its user, if it carries a membership. */
  function RowOf(id: EventId, known: map<EventId, Event>): Option<MemberRow> {
    if id in known && known[id].stateKey.Some? && CarriesMembership(known[id])
    then Some(MemberRow(known[id].content.membership.value, id))
    else None
  }

  ghost predicate EntriesMatch(resolved: StateMap, known: map<EventId, Event>) {
    forall t | t in resolved && resolved[t] in known :: TupleOf(known[resolved[t]]) == t
  }

  /** Rows after persisting the member entries of a resolved state. */
  function RowAfter(
    u: UserId, resolved: StateMap, known: map<EventId, Event>, before: Option<MemberRow>): Option<MemberRow> {
    if MemberTuple(u) in resolved && RowOf(resolved[MemberTuple(u)], known).Some?
      then RowOf(resolved[MemberTuple(u)], known)
    else before
  }

  ghost predicate RowsAre(
    rows: map<UserId, MemberRow>, done: StateMap, known: map<EventId, Event>, before: map<UserId, MemberRow>) {
    forall u: UserId :: Get(rows, u) == RowAfter(u, done, known, Get(before, u))
  }

  function PersistRow(
    rows: map<UserId, MemberRow>, k: StateTuple, id: EventId, known: map<EventId, Event>): map<UserId, MemberRow> {
    if k.kind == MEMBER && RowOf(id, known).Some? then rows[known[id].stateKey.value := RowOf(id, known).value]
      else rows
  }

  lemma PersistRowMeans(
    rows: map<UserId, MemberRow>, done: StateMap, k: StateTuple, id: EventId, known: map<EventId, Event>,
                        before: map<UserId, MemberRow>)
    requires RowsAre(rows, done, known, before) && k !in done
    requires id in known ==> TupleOf(known[id]) == k
    ensures RowsAre(PersistRow(rows, k, id, known), done[k := id], known, before)
  {
    var r, d := PersistRow(rows, k, id, known), done[k := id];
    forall u: UserId
      ensures Get(r, u) == RowAfter(u, d, known, Get(before, u))
    {
      assert Get(rows, u) == RowAfter(u, done, known, Get(before, u));
      if MemberTuple(u) != k {
        assert Get(d, MemberTuple(u)) == Get(done, MemberTuple(u));
      }
    }
  }

  /** One winner: its state entry, and its user's row if it is a member event with a membership. */
  method PersistWinner(t: RoomTables, k: StateTuple, id: EventId, known: map<EventId, Event>)
    modifies t`state, t`membership
    ensures t.state == old(t.state)[k := id]
    ensures t.membership == PersistRow(old(t.membership), k, id, known)
  {
    t.UpsertCurrentState(k.kind, k.stateKey, id);
    if k.kind == MEMBER && id in known && known[id].stateKey.Some? && CarriesMembership(known[id]) {
      t.UpsertMembership(known[id].stateKey.value, known[id].content.membership.value, id);
    }
  }

  /** The loop over the resolved map runs in arbitrary order. */
  method PersistResolved(t: RoomTables, resolved: StateMap, known: map<EventId, Event>)
    modifies t`state, t`membership
    ensures t.state == old(t.state) + resolved
    ensures EntriesMatch(resolved, known) ==> RowsAre(t.membership, resolved, known, old(t.membership))
  {
    ghost var state0, membership0 := t.state, t.membership;
    ghost var matching := EntriesMatch(resolved, known);
    var todo := resolved.Keys;
    ghost var done: StateMap := map[];
    while todo != {}
      invariant Covers(done, resolved, todo)
      invariant t.state == state0 + done
      invariant matching ==> RowsAre(t.membership, done, known, membership0)
      decreases todo
    {
      var k :| k in todo;
      CoversOne(done, resolved, todo, k);
      if matching {
        PersistRowMeans(t.membership, done, k, resolved[k], known, membership0);
      }
      PersistWinner(t, k, resolved[k], known);
      done := done[k := resolved[k]];
      todo := todo - {k};
    }
    CoversAll(done, resolved);
  }

  ghost function Received(authChain: seq<Event>, stateEvents: seq<Event>, join: Event): seq<Event> {
    authChain + stateEvents + [join]
  }

  /** IDs name one event each, member events of the reply carry a membership, and the join is the user's. */
  ghost predicate GoodReply(db: Db, authChain: seq<Event>, stateEvents: seq<Event>, join: Event, user: UserId) {
    && (forall ev | ev in Received(authChain, stateEvents, join) :: SameAsStored(db, ev))
    && (forall e, f | e in Received(authChain, stateEvents, join) && f in Received(authChain, stateEvents, join)
      && e.id == f.id :: SameBody(e, f))
    && (forall ev | ev in stateEvents && ev.kind == MEMBER && ev.stateKey.Some? :: CarriesMembership(ev))
    && join.kind == MEMBER && join.stateKey == Some(user) && join.content.membership == Some("join")
  }

  /** Every entry of the current state points to a stored event of that tuple. */
  ghost predicate StateMatches(db: Db) {
    && (forall id | id in db.events :: db.events[id].id == id)
    && (forall t | t in db.state ::
      db.state[t] in db.events && TupleOf(db.events[db.state[t]]) == t && db.events[db.state[t]].stateKey.Some?)
  }

  /** The stored events the current state points to, in any order. */
  method GetCurrentStateEvents(t: RoomTables) returns (list: seq<Event>)
    ensures forall ev ::
        ev in list <==> exists k :: k in t.state && t.state[k] in t.events && t.events[t.state[k]] == ev
  {
    list := [];
    var todo := t.state.Keys;
    while todo != {}
      invariant todo <= t.state.Keys
      invariant forall ev ::
          ev in list <==> exists k :: k in t.state && k !in todo && t.state[k] in t.events && t.events[t.state[k]] == ev
      decreases |todo|
    {
      var k :| k in todo;
      todo := todo - {k};
      if t.state[k] in t.events {
        list := list + [t.events[t.state[k]]];
      }
    }
  }

  method SaveAll(t: RoomTables, list: seq<Event>)
    modifies t`events, t`log
    ensures t.Snapshot() == SavedAll(old(t.Snapshot()), list)
  {
    for i := 0 to |list|
      invariant t.Snapshot() == SavedAll(old(t.Snapshot()), list[..i])
    {
      assert list[..i + 1][..i] == list[..i];
      t.SaveEvent(list[i]);
    }
    assert list[..|list|] == list;
  }

  /** The lookup maps of a reply: events by ID, and the state they describe. */
  method Organize(list: seq<Event>) returns (byId: map<EventId, Event>, state: StateMap)
    ensures byId == EventsById(list) && state == StateOf(list)
  {
    byId, state := map[], map[];
    for i := 0 to |list|
      invariant byId == EventsById(list[..i]) && state == StateOf(list[..i])
    {
      assert list[..i + 1][..i] == list[..i];
      byId := byId[list[i].id := list[i]];
      if list[i].stateKey.Some? {
        state := state[TupleOf(list[i]) := list[i].id];
      }
    }
    assert list[..|list|] == list;
  }

  /** The events the current state points to, by ID. */
  function CurrentEvents(db: Db): map<EventId, Event> {
    map id | id in db.state.Values && id in db.events :: db.events[id]
  }

  /** Read back in any order, the stored state is the state itself. */
  lemma LocalStateIsReadBack(list: seq<Event>, db: Db)
    requires StateMatches(db)
    requires forall ev ::
        ev in list <==> exists k :: k in db.state && db.state[k] in db.events && db.events[db.state[k]] == ev
    ensures StateOf(list) == db.state && EventsById(list) == CurrentEvents(db)
  {
    StateOfMeans(list);
    EventsByIdMeans(list);
    forall t
      ensures Get(StateOf(list), t) == Get(db.state, t)
    {
      if t in StateOf(list) {
        var ev :| ev in list && ev.id == StateOf(list)[t] && TupleOf(ev) == t;
        var k :| k in db.state && db.events[db.state[k]] == ev;
      }
      if t in db.state {
        var ev := db.events[db.state[t]];
        assert ev in list && TupleOf(ev) == t;
      }
    }
    Res.SameEntries(StateOf(list), db.state);
    forall id
      ensures Get(EventsById(list), id) == Get(CurrentEvents(db), id)
    {
      if id in EventsById(list) {
        var ev := EventsById(list)[id];
        var k :| k in db.state && db.state[k] in db.events && db.events[db.state[k]] == ev;
        assert db.state[k] == id;
      }
      if id in CurrentEvents(db) {
        var k :| k in db.state && db.state[k] == id;
        assert db.events[db.state[k]] in list;
      }
    }
    Res.SameEntries(EventsById(list), CurrentEvents(db));
  }

  /** All events the resolution of a remote join may look up. */
  function Known(db: Db, stateEvents: seq<Event>, join: Event): map<EventId, Event> {
    EventsById(stateEvents)[join.id := join] + CurrentEvents(db)
  }

  function StateSets(db: Db, stateEvents: seq<Event>): set<StateMap> {
    if db.state == map[] then {StateOf(stateEvents)} else {StateOf(stateEvents), db.state}
  }

  /** The rows of the event table after a reply has been stored. */
  function Stored(db: Db, authChain: seq<Event>, stateEvents: seq<Event>, join: Event): Db {
    Saved(SavedAll(SavedAll(db, authChain), stateEvents), join)
  }

  /**
   A winner of the resolution is in the lookup map, under its own tuple, and carries a membership
   if it is a member event.
   */
  ghost predicate GoodWinner(known: map<EventId, Event>, t: StateTuple, id: EventId) {
    && id in known && TupleOf(known[id]) == t && known[id].stateKey.Some?
    && (t.kind == MEMBER ==> CarriesMembership(known[id]))
  }

  /** The body stored and looked up under an ID of the reply is the body received. */
  lemma ReplyBodies(db: Db, authChain: seq<Event>, stateEvents: seq<Event>, join: Event, user: UserId, ev: Event)
    requires StateMatches(db) && GoodReply(db, authChain, stateEvents, join, user)
    requires ev in stateEvents || ev == join
    ensures ev.id in Known(db, stateEvents, join) && SameBody(Known(db, stateEvents, join)[ev.id], ev)
  {
    EventsByIdMeans(stateEvents);
    var known := Known(db, stateEvents, join);
    assert known[ev.id] in stateEvents || known[ev.id] == join
      || (ev.id in db.events && known[ev.id] == db.events[ev.id]);
    assert ev in Received(authChain, stateEvents, join);
    if known[ev.id] in stateEvents || known[ev.id] == join {
      assert known[ev.id] in Received(authChain, stateEvents, join);
    }
  }

  /** Entries of both state maps match the events they name. */
  lemma ProposalsAreGood(
    db: Db, authChain: seq<Event>, stateEvents: seq<Event>, join: Event, user: UserId, m: StateMap, t: StateTuple)
    requires StateMatches(db) && Indexed(db) && GoodReply(db, authChain, stateEvents, join, user)
    requires m in StateSets(db, stateEvents) && t in m
    ensures GoodWinner(Known(db, stateEvents, join), t, m[t])
  {
    var known := Known(db, stateEvents, join);
    if m == StateOf(stateEvents) {
      StateOfMeans(stateEvents);
      var ev :| ev in stateEvents && ev.id == m[t] && TupleOf(ev) == t && ev.stateKey.Some?;
      ReplyBodies(db, authChain, stateEvents, join, user, ev);
    } else {
      assert m[t] in db.state.Values;
      assert known[m[t]] == db.events[m[t]];
      if t.kind == MEMBER {
        assert RightFor(db, t.stateKey) && t == MemberTuple(t.stateKey);
      }
    }
  }

  /** The auth chain holds the same bodies, so the resolver sees matching entries. */
  lemma MapsMatchTuples(db: Db, authChain: seq<Event>, stateEvents: seq<Event>, join: Event, user: UserId)
    requires StateMatches(db) && Indexed(db) && GoodReply(db, authChain, stateEvents, join, user)
    ensures Res.EntriesMatchTuples(StateSets(db, stateEvents), Known(db, stateEvents, join) + EventsById(authChain))
  {
    var known := Known(db, stateEvents, join);
    var all := known + EventsById(authChain);
    EventsByIdMeans(authChain);
    EventsByIdMeans(stateEvents);
    forall m, t | m in StateSets(db, stateEvents) && t in m && m[t] in all
      ensures TupleOf(all[m[t]]) == t
    {
      ProposalsAreGood(db, authChain, stateEvents, join, user, m, t);
      var id := m[t];
      if id in EventsById(authChain) {
        AuthBody(db, authChain, stateEvents, join, user, id);
      }
    }
  }

  lemma AuthBody(db: Db, authChain: seq<Event>, stateEvents: seq<Event>, join: Event, user: UserId, id: EventId)
    requires StateMatches(db) && GoodReply(db, authChain, stateEvents, join, user)
    requires id in EventsById(authChain) && id in Known(db, stateEvents, join)
    ensures SameBody(EventsById(authChain)[id], Known(db, stateEvents, join)[id])
  {
    EventsByIdMeans(authChain);
    EventsByIdMeans(stateEvents);
    var a, k := EventsById(authChain)[id], Known(db, stateEvents, join)[id];
    assert a in Received(authChain, stateEvents, join) && a.id == id;
    if id in CurrentEvents(db) {
      assert k == db.events[id];
    } else {
      assert k in Received(authChain, stateEvents, join) && k.id == id;
    }
  }

  /** Each winner can be looked up among the reply and the local events: the join is persisted completely. */
  lemma WinnersAreKnown(
    db: Db, authChain: seq<Event>, stateEvents: seq<Event>, join: Event, user: UserId, t: StateTuple)
    requires StateMatches(db) && Indexed(db) && GoodReply(db, authChain, stateEvents, join, user)
    requires t in Winners(db, authChain, stateEvents, join)
    ensures GoodWinner(Known(db, stateEvents, join), t, Winners(db, authChain, stateEvents, join)[t])
  {
    KnownUnderOwnIds(db, authChain, stateEvents, join);
    var sets, all := StateSets(db, stateEvents), Known(db, stateEvents, join) + EventsById(authChain);
    MapsMatchTuples(db, authChain, stateEvents, join, user);
    Res.WinnersWereProposed(sets, all);
    var winners := Winners(db, authChain, stateEvents, join);
    assert winners == Res.Resolved(sets, all);
    var m :| m in sets && Get(m, t) == Some(winners[t]);
    ProposalsAreGood(db, authChain, stateEvents, join, user, m, t);
  }

  /** After persisting, every row is right: changed users by their winner, the others as before. */
  lemma ReconciledIndex(db: Db, d: Db, authChain: seq<Event>, stateEvents: seq<Event>, join: Event, user: UserId,
                        resolved: StateMap, rows0: map<UserId, MemberRow>)
    requires StateMatches(db) && Indexed(db) && GoodReply(db, authChain, stateEvents, join, user)
    requires rows0 == db.membership && d.events == Stored(db, authChain, stateEvents, join).events
        && d.state == db.state + resolved
    requires MemberTuple(user) in resolved && resolved[MemberTuple(user)] == join.id
    requires forall t | t in resolved && t != MemberTuple(user) ::
        GoodWinner(Known(db, stateEvents, join), t, resolved[t])
    requires user in d.membership && d.membership[user] == MemberRow("join", join.id)
    requires forall u: UserId | u != user ::
      Get(d.membership, u) == RowAfter(u, resolved, Known(db, stateEvents, join), Get(rows0, u))
    ensures Indexed(d)
  {
    var known := Known(db, stateEvents, join);
    forall u: UserId
      ensures RightFor(d, u)
    {
      if u == user {
        StoredBody(db, authChain, stateEvents, join, user, join.id);
        ReplyBodies(db, authChain, stateEvents, join, user, join);
      } else {
        assert RightFor(db, u);
        assert Get(d.membership, u) == RowAfter(u, resolved, known, Get(rows0, u));
        if MemberTuple(u) in resolved {
          assert GoodWinner(known, MemberTuple(u), resolved[MemberTuple(u)]);
          StoredBody(db, authChain, stateEvents, join, user, resolved[MemberTuple(u)]);
        } else {
          StoredGrows(db, authChain, stateEvents, join);
          UntouchedUserStaysRight(db, d, u);
        }
      }
    }
  }

  lemma StoredGrows(db: Db, authChain: seq<Event>, stateEvents: seq<Event>, join: Event)
    ensures var d := Stored(db, authChain, stateEvents, join);
      && (forall id | id in db.events :: id in d.events && d.events[id] == db.events[id])
      && (forall ev | ev in stateEvents || ev == join :: ev.id in d.events)
      && (forall id | id in d.events && id !in db.events ::
        d.events[id] in Received(authChain, stateEvents, join) && d.events[id].id == id)
  {
    SavedAllMeans(db, authChain);
    SavedAllMeans(SavedAll(db, authChain), stateEvents);
  }

  /** What is stored under a looked-up ID has the looked-up body. */
  lemma StoredBody(db: Db, authChain: seq<Event>, stateEvents: seq<Event>, join: Event, user: UserId, id: EventId)
    requires StateMatches(db) && GoodReply(db, authChain, stateEvents, join, user)
    requires id in Known(db, stateEvents, join)
    ensures id in Stored(db, authChain, stateEvents, join).events
    ensures SameBody(Stored(db, authChain, stateEvents, join).events[id], Known(db, stateEvents, join)[id])
  {
    StoredGrows(db, authChain, stateEvents, join);
    EventsByIdMeans(stateEvents);
    var k := Known(db, stateEvents, join)[id];
    if id in CurrentEvents(db) {
      assert k == db.events[id];
    } else {
      assert (k in stateEvents || k == join) && k.id == id;
      assert k in Received(authChain, stateEvents, join);
    }
  }

  lemma KnownUnderOwnIds(db: Db, authChain: seq<Event>, stateEvents: seq<Event>, join: Event)
    requires StateMatches(db)
    ensures Sort.StoredUnderOwnId(Known(db, stateEvents, join) + EventsById(authChain))
  {
    EventsByIdMeans(authChain);
    EventsByIdMeans(stateEvents);
  }

  /** The local state and its events, as read back from the tables. */
  method LocalView(t: RoomTables) returns (byId: map<EventId, Event>, state: StateMap)
    requires StateMatches(t.Snapshot())
    ensures byId == CurrentEvents(t.Snapshot()) && state == t.state
  {
    var localEvents := GetCurrentStateEvents(t);
    byId, state := Organize(localEvents);
    LocalStateIsReadBack(localEvents, t.Snapshot());
  }

  /** The resolution of the reply against the local state. */
  ghost function Winners(db: Db, authChain: seq<Event>, stateEvents: seq<Event>, join: Event): StateMap
    requires StateMatches(db)
  {
    KnownUnderOwnIds(db, authChain, stateEvents, join);
    Res.Resolved(StateSets(db, stateEvents), Known(db, stateEvents, join) + EventsById(authChain))
  }

  /** The resolved state with the user's own join forced into it. */
  ghost function Reconciled(db: Db, authChain: seq<Event>, stateEvents: seq<Event>, join: Event, user: UserId): StateMap
    requires StateMatches(db)
  {
    Winners(db, authChain, stateEvents, join)[MemberTuple(user) := join.id]
  }

  /** Resolve the reply against the local state and force the user's own join into the outcome. */
  method ResolveJoin(t: RoomTables, authChain: seq<Event>, stateEvents: seq<Event>, join: Event, user: UserId)
    returns (resolved: StateMap, known: map<EventId, Event>)
    requires StateMatches(t.Snapshot())
    ensures known == Known(t.Snapshot(), stateEvents, join)
    ensures resolved == Reconciled(t.Snapshot(), authChain, stateEvents, join, user)
  {
    var authMap, ignored := Organize(authChain);
    var byId, remote := Organize(stateEvents);
    var localById, local := LocalView(t);
    known := byId[join.id := join] + localById;
    var sets := if |local| > 0 then [remote, local] else [remote];
    SetsInOrder(t.Snapshot(), stateEvents);
    KnownUnderOwnIds(t.Snapshot(), authChain, stateEvents, join);
    var r := Res.Resolve(sets, known, authMap);
    resolved := r.state[MemberTuple(user) := join.id];
  }

  lemma SetsInOrder(db: Db, stateEvents: seq<Event>)
    ensures StateSets(db, stateEvents)
        == Elems(if |db.state| > 0 then [StateOf(stateEvents), db.state] else [StateOf(stateEvents)])
  {
  }

  method StoreReply(t: RoomTables, authChain: seq<Event>, stateEvents: seq<Event>, join: Event)
    modifies t`events, t`log
    ensures t.events == Stored(old(t.Snapshot()), authChain, stateEvents, join).events
  {
    SaveAll(t, authChain);
    SaveAll(t, stateEvents);
    t.SaveEvent(join);
  }

  lemma WinnersMatch(
    db: Db, authChain: seq<Event>, stateEvents: seq<Event>, join: Event, user: UserId, resolved: StateMap)
    requires StateMatches(db) && Indexed(db) && GoodReply(db, authChain, stateEvents, join, user)
    requires resolved == Reconciled(db, authChain, stateEvents, join, user)
    ensures EntriesMatch(resolved, Known(db, stateEvents, join))
    ensures forall t | t in resolved && t != MemberTuple(user) ::
        GoodWinner(Known(db, stateEvents, join), t, resolved[t])
  {
    ReplyBodies(db, authChain, stateEvents, join, user, join);
    var known := Known(db, stateEvents, join);
    assert SameBody(known[join.id], join) && TupleOf(known[join.id]) == MemberTuple(user);
    forall t | t in resolved && t != MemberTuple(user)
      ensures GoodWinner(known, t, resolved[t])
    {
      WinnersAreKnown(db, authChain, stateEvents, join, user, t);
    }
  }

  /** The whole transaction, seen from its outcome. */
  lemma ReconcileKeepsIndex(db: Db, d: Db, authChain: seq<Event>, stateEvents: seq<Event>, join: Event, user: UserId,
                            rows: map<UserId, MemberRow>)
    requires StateMatches(db) && Indexed(db) && GoodReply(db, authChain, stateEvents, join, user)
    requires d.events == Stored(db, authChain, stateEvents, join).events
    requires d.state == db.state + Reconciled(db, authChain, stateEvents, join, user)
    requires var resolved, known := Reconciled(db, authChain, stateEvents, join, user), Known(db, stateEvents, join);
      EntriesMatch(resolved, known) ==> RowsAre(rows, resolved, known, db.membership)
    requires d.membership == rows[user := MemberRow("join", join.id)]
    ensures Indexed(d)
  {
    var resolved, known := Reconciled(db, authChain, stateEvents, join, user), Known(db, stateEvents, join);
    WinnersMatch(db, authChain, stateEvents, join, user, resolved);
    forall u: UserId | u != user
      ensures Get(d.membership, u) == RowAfter(u, resolved, known, Get(db.membership, u))
    {
      assert Get(rows, u) == RowAfter(u, resolved, known, Get(db.membership, u));
    }
    ReconciledIndex(db, d, authChain, stateEvents, join, user, resolved, db.membership);
  }

  lemma UnionIsRightIff(a: StateMap, b: StateMap)
    ensures a + b == b <==> a.Keys <= b.Keys
  {
    if a.Keys <= b.Keys {
      assert (a + b).Keys == b.Keys;
    } else {
      assert (a + b).Keys != b.Keys;
    }
  }

  /**
   What the join leaves right for user `u`: the body stored under the winner's ID says what the
   looked-up body said; a winner that gives no row is the event the old row already names.
   */
  ghost predicate Confirmed(
    db: Db, events: map<EventId, Event>, resolved: StateMap, known: map<EventId, Event>, user: UserId, u: UserId) {
    MemberTuple(u) in resolved ==>
      var id := resolved[MemberTuple(u)];
      if u == user then id in events && events[id].content.membership == Some("join")
      else match RowOf(id, known)
        case Some(row) => id in events && events[id].content.membership == Some(row.membership)
        case None => Get(db.membership, u).Some? && db.membership[u].eventId == id
  }

  lemma RightAfterJoinIff(
    db: Db, d: Db, resolved: StateMap, known: map<EventId, Event>, rows: map<UserId, MemberRow>, user: UserId,
    u: UserId)
    requires RightFor(db, u) && RowsAre(rows, resolved, known, db.membership) && MemberTuple(user) in resolved
    requires d.state == db.state + resolved
    requires d.membership == rows[user := MemberRow("join", resolved[MemberTuple(user)])]
    requires forall id | id in db.events :: id in d.events && d.events[id] == db.events[id]
    ensures RightFor(d, u) <==> Confirmed(db, d.events, resolved, known, user, u)
  {
    assert Get(rows, u) == RowAfter(u, resolved, known, Get(db.membership, u));
    if MemberTuple(u) !in resolved {
      UntouchedUserStaysRight(db, d, u);
    }
  }

  /** The index survives a remote join iff every user's outcome is confirmed by what is stored. */
  lemma ReconcileKeepsIndexIff(
    db: Db, d: Db, resolved: StateMap, known: map<EventId, Event>, rows: map<UserId, MemberRow>, user: UserId)
    requires Indexed(db) && RowsAre(rows, resolved, known, db.membership) && MemberTuple(user) in resolved
    requires d.state == db.state + resolved
    requires d.membership == rows[user := MemberRow("join", resolved[MemberTuple(user)])]
    requires forall id | id in db.events :: id in d.events && d.events[id] == db.events[id]
    ensures Indexed(d) <==> forall u: UserId :: Confirmed(db, d.events, resolved, known, user, u)
  {
    forall u: UserId
      ensures RightFor(d, u) <==> Confirmed(db, d.events, resolved, known, user, u)
    {
      RightAfterJoinIff(db, d, resolved, known, rows, user, u);
    }
  }

  /** The writes of the transaction; `rows` is the membership table just before the user's own row. */
  method PersistReply(t: RoomTables, authChain: seq<Event>, stateEvents: seq<Event>, join: Event, user: UserId,
                      resolved: StateMap, known: map<EventId, Event>) returns (ghost rows: map<UserId, MemberRow>)
    modifies t
    ensures t.state == old(t.state) + resolved
    ensures t.extremities == Advanced(old(t.Snapshot()), join.id, join.prevEvents).extremities
    ensures t.events == Stored(old(t.Snapshot()), authChain, stateEvents, join).events
    ensures EntriesMatch(resolved, known) ==> RowsAre(rows, resolved, known, old(t.membership))
    ensures t.membership == rows[user := MemberRow("join", join.id)]
  {
    StoreReply(t, authChain, stateEvents, join);
    PersistResolved(t, resolved, known);
    rows := t.membership;
    t.UpdateForwardExtremities(join.id, join.prevEvents);
    t.UpsertMembership(user, "join", join.id);
  }

  /**
   Reconciliation of a remote join: resolve the reply against the local state, store it and
   persist the outcome. The membership table stays exact.
   */
  method ReconcileRemoteJoin(t: RoomTables, authChain: seq<Event>, stateEvents: seq<Event>, join: Event, user: UserId)
    returns (resolved: StateMap)
    requires StateMatches(t.Snapshot())
    modifies t
    ensures resolved == Reconciled(old(t.Snapshot()), authChain, stateEvents, join, user)
    ensures t.state == old(t.state) + resolved
    ensures t.state == resolved <==> old(t.state).Keys <= resolved.Keys
    ensures t.extremities == Advanced(old(t.Snapshot()), join.id, join.prevEvents).extremities
    ensures t.events == Stored(old(t.Snapshot()), authChain, stateEvents, join).events
    ensures var db, known := old(t.Snapshot()), Known(old(t.Snapshot()), stateEvents, join);
      Indexed(db) && EntriesMatch(resolved, known) ==>
        (Indexed(t.Snapshot()) <==> forall u: UserId :: Confirmed(db, t.events, resolved, known, user, u))
    ensures GoodReply(old(t.Snapshot()), authChain, stateEvents, join, user) && Indexed(old(t.Snapshot()))
        ==> Indexed(t.Snapshot())
  {
    ghost var db := t.Snapshot();
    var known;
    resolved, known := ResolveJoin(t, authChain, stateEvents, join, user);
    ghost var rows := PersistReply(t, authChain, stateEvents, join, user, resolved, known);
    UnionIsRightIff(db.state, resolved);
    if Indexed(db) && EntriesMatch(resolved, known) {
      StoredGrows(db, authChain, stateEvents, join);
      ReconcileKeepsIndexIff(db, t.Snapshot(), resolved, known, rows, user);
    }
    if GoodReply(db, authChain, stateEvents, join, user) && Indexed(db) {
      ReconcileKeepsIndex(db, t.Snapshot(), authChain, stateEvents, join, user, rows);
    }
  }

  // ---------------------------------------------------------------- what a remote join leaves behind

  ghost function AllKnown(db: Db, authChain: seq<Event>, stateEvents: seq<Event>, join: Event): map<EventId, Event> {
    Known(db, stateEvents, join) + EventsById(authChain)
  }

  /** The candidates for `t` in the order in which the resolution of a reply replays them. */
  ghost function Candidates(
    db: Db, authChain: seq<Event>, stateEvents: seq<Event>, join: Event, t: StateTuple): seq<EventId>
    requires StateMatches(db)
  {
    KnownUnderOwnIds(db, authChain, stateEvents, join);
    var all := AllKnown(db, authChain, stateEvents, join);
    var levels := Auth.StateEvent(POWER_LEVELS_TUPLE, Winners(db, authChain, stateEvents, join), all);
    Res.PhaseOrder(StateSets(db, stateEvents), all, Res.PhaseOf(t.kind), levels)
  }

  /**
   The join deletes nothing, so a local entry outside the resolved state stays. For memberships and
   ordinary state these are exactly the conflicted entries for which the resolved state authorizes
   no candidate.
   */
  lemma LosingEntriesSurviveIff(
    db: Db, authChain: seq<Event>, stateEvents: seq<Event>, join: Event, user: UserId, t: StateTuple)
    requires StateMatches(db) && t in db.state && t != MemberTuple(user)
    requires Res.EntriesMatchTuples(StateSets(db, stateEvents), AllKnown(db, authChain, stateEvents, join))
    requires t.kind == MEMBER || Res.PhaseOf(t.kind) == Res.Other
    ensures var order := Candidates(db, authChain, stateEvents, join, t);
      var all, winners := AllKnown(db, authChain, stateEvents, join), Winners(db, authChain, stateEvents, join);
      && (t in Res.Conflicted(StateSets(db, stateEvents)) ==> forall id | id in order :: id in all)
      && (t !in Reconciled(db, authChain, stateEvents, join, user)
          <==> t in Res.Conflicted(StateSets(db, stateEvents)) && Res.LastAuthorized(order, t, winners, all).None?)
  {
    KnownUnderOwnIds(db, authChain, stateEvents, join);
    var sets, all := StateSets(db, stateEvents), AllKnown(db, authChain, stateEvents, join);
    assert db.state in sets && t in Res.Tuples(sets);
    if t in Res.Conflicted(sets) {
      Res.FinalStateElectsWinners(sets, all, t);
    } else {
      Res.UnconflictedSurvive(sets, all, t);
      Res.UnconflictedMeans(sets, t);
    }
  }

  /** For entries of every kind: those that are conflicted and have no candidate that passes in its turn. */
  lemma UnresolvedEntriesSurviveIff(
    db: Db, authChain: seq<Event>, stateEvents: seq<Event>, join: Event, user: UserId, t: StateTuple)
    requires StateMatches(db) && t in db.state && t != MemberTuple(user)
    requires Res.EntriesMatchTuples(StateSets(db, stateEvents), AllKnown(db, authChain, stateEvents, join))
    requires Sort.StoredUnderOwnId(AllKnown(db, authChain, stateEvents, join))
    ensures var sets, all := StateSets(db, stateEvents), AllKnown(db, authChain, stateEvents, join);
      var phase := Res.PhaseOf(t.kind);
      t !in Reconciled(db, authChain, stateEvents, join, user)
      <==> t in Res.Conflicted(sets) &&
           !Res.PassesInTurn(Res.TriedInOrder(sets, all, phase), Res.PhaseStart(sets, all, phase), all, t)
  {
    var sets, all := StateSets(db, stateEvents), AllKnown(db, authChain, stateEvents, join);
    assert db.state in sets && t in Res.Tuples(sets);
    if t in Res.Conflicted(sets) {
      Res.ConflictedIsAbsentIff(sets, all, t);
    } else {
      Res.UnconflictedSurvive(sets, all, t);
      Res.UnconflictedMeans(sets, t);
    }
  }

  const LEFT_BEHIND := Example("$name").(kind := "m.room.name", sender := "@gone:x", stateKey := Some(""))

  const JOINED := Example("$join").(
                  kind := MEMBER, sender := "@u:x", stateKey := Some("@u:x"),
                  content := Example("$join").content.(membership := Some("join")))

  const STALE_ROOM := EMPTY_DB.(
                      events := map["$name" := LEFT_BEHIND], log := ["$name"],
                      state := map[StateTuple("m.room.name", "") := "$name"])

  const NAME_TUPLE := StateTuple("m.room.name", "")

  lemma StaleRoomIsProper()
    ensures StateMatches(STALE_ROOM) && STALE_ROOM.state == map[NAME_TUPLE := "$name"]
    ensures StateSets(STALE_ROOM, []) == {map[], STALE_ROOM.state}
    ensures var all := AllKnown(STALE_ROOM, [], [], JOINED);
      "$name" in all && all["$name"] == LEFT_BEHIND && Res.EntriesMatchTuples(StateSets(STALE_ROOM, []), all)
  {
    var db := STALE_ROOM;
    assert TupleOf(LEFT_BEHIND) == NAME_TUPLE;
    assert db.state[NAME_TUPLE] == "$name" && "$name" in db.state.Values && "$name" in CurrentEvents(db);
    assert EventsById([]) == map[] && StateOf([]) == map[];
  }

  /** Nobody proposed a membership of the sender, so nothing can be authorized by it. */
  lemma NameIsNotAuthorized()
    requires StateMatches(STALE_ROOM)
    ensures !Auth.CheckAuth(LEFT_BEHIND, Winners(STALE_ROOM, [], [], JOINED), AllKnown(STALE_ROOM, [], [], JOINED))
  {
    var all, winners := AllKnown(STALE_ROOM, [], [], JOINED), Winners(STALE_ROOM, [], [], JOINED);
    StaleRoomIsProper();
    KnownUnderOwnIds(STALE_ROOM, [], [], JOINED);
    Res.WinnersWereProposed(StateSets(STALE_ROOM, []), all);
    forall u | u in winners
      ensures u == NAME_TUPLE
    {
      var m :| m in StateSets(STALE_ROOM, []) && Get(m, u) == Some(winners[u]);
    }
    assert MemberTuple("@gone:x") != NAME_TUPLE;
    NeedsMembership(LEFT_BEHIND, winners, all);
  }

  lemma NeedsMembership(ev: Event, state: StateMap, events: map<EventId, Event>)
    requires ev.kind == "m.room.name" && MemberTuple(ev.sender) !in state
    ensures !Auth.CheckAuth(ev, state, events)
  {
  }

  lemma OnlyNameIsReplayed(id: EventId)
    requires StateMatches(STALE_ROOM) && id in Candidates(STALE_ROOM, [], [], JOINED, NAME_TUPLE)
    ensures id == "$name"
  {
    StaleRoomIsProper();
    KnownUnderOwnIds(STALE_ROOM, [], [], JOINED);
    NameIsTheOnlyCandidate(StateSets(STALE_ROOM, []), NAME_TUPLE);
    assert id in Elems(Candidates(STALE_ROOM, [], [], JOINED, NAME_TUPLE));
  }

  /** A local room name set by somebody who is no member outlives a join that resolves it away. */
  lemma LosingNameSurvives()
    ensures StateMatches(STALE_ROOM)
    ensures NAME_TUPLE !in Reconciled(STALE_ROOM, [], [], JOINED, "@u:x")
    ensures NAME_TUPLE in STALE_ROOM.state + Reconciled(STALE_ROOM, [], [], JOINED, "@u:x")
  {
    StaleRoomIsProper();
    NameIsNotAuthorized();
    NameIsTheOnlyCandidate(StateSets(STALE_ROOM, []), NAME_TUPLE);
    LosingEntriesSurviveIff(STALE_ROOM, [], [], JOINED, "@u:x", NAME_TUPLE);
    var order := Candidates(STALE_ROOM, [], [], JOINED, NAME_TUPLE);
    forall id | id in order
      ensures id == "$name"
    {
      OnlyNameIsReplayed(id);
    }
    NoneAuthorized(order, NAME_TUPLE, Winners(STALE_ROOM, [], [], JOINED), AllKnown(STALE_ROOM, [], [], JOINED));
  }

  lemma NameIsTheOnlyCandidate(sets: set<StateMap>, t: StateTuple)
    requires sets == {map[], map[t := "$name"]}
    ensures t in Res.Conflicted(sets) && Res.ConflictedIds(sets) <= {"$name"}
  {
    assert map[t := "$name"] in sets && t in map[t := "$name"] && map[] in sets;
  }

  lemma {:induction false} NoneAuthorized(
    order: seq<EventId>, t: StateTuple, judge: StateMap, events: map<EventId, Event>)
    requires forall id | id in order :: id in events && !Auth.CheckAuth(events[id], judge, events)
    ensures Res.LastAuthorized(order, t, judge, events).None?
  {
    if order != [] {
      NoneAuthorized(order[..|order| - 1], t, judge, events);
      assert order[|order| - 1] in order;
    }
  }

  // ---------------------------------------------------------------- runs

  /** One committed transaction on the room. Local sends and inbound events are both `Add`. */
  datatype Write =
    | Add(ev: Event)
    | FederatedMember(ev: Event, membership: string)
    | RemoteJoin(authChain: seq<Event>, stateEvents: seq<Event>, join: Event, user: UserId)

  /**
   What a transaction needs to keep the index. Local services guarantee it; for a federated member
   event `SameAsStored` is an assumption, since its ID comes from the request.
   */
  ghost predicate Admissible(db: Db, w: Write) {
    match w
    case Add(ev) => SameAsStored(db, ev) && (ev.kind == MEMBER && ev.stateKey.Some? ==> CarriesMembership(ev))
    case FederatedMember(ev, membership) =>
      && SameAsStored(db, ev) && membership != "" && ev.kind == MEMBER
      && ev.stateKey == Some(ev.sender) && ev.content.membership == Some(membership)
    case RemoteJoin(authChain, stateEvents, join, user) => GoodReply(db, authChain, stateEvents, join, user)
  }

  /** What the leave, join and local invite services commit is admissible, when its ID is fresh. */
  lemma MembershipServicesAreAdmissible(
    db: Db, ev: Event, roomId: string, sender: UserId, user: UserId, membership: string, content: Content, ts: int,
    hash: Event -> EventId)
    requires Services.PreparedFrom(Services.MemberTemplate(roomId, sender, user, membership, content, ts), db, ev, hash)
    requires membership != "" && ev.id !in db.events
    ensures Admissible(db, Add(ev)) && Writes(db, Add(ev), Committed(db, ev))
  {
  }

  /** What the two send services commit is admissible iff it is no member event without a membership. */
  lemma SendServicesAreAdmissibleIff(db: Db, template: Event, ev: Event, hash: Event -> EventId, sign: Event -> string)
    requires Services.SentFrom(template, db, ev, hash, sign) && ev.id !in db.events
    ensures Admissible(db, Add(ev))
        <==> (template.kind == MEMBER && template.stateKey.Some? ==> CarriesMembership(template))
    ensures Writes(db, Add(ev), Committed(db, ev))
  {
  }

  ghost predicate Writes(db: Db, w: Write, d: Db) {
    match w
    case Add(ev) => d == Committed(db, ev)
    case FederatedMember(ev, membership) => d == MemberWritten(db, ev, ev.sender, membership)
    case RemoteJoin(authChain, stateEvents, join, user) =>
      && StateMatches(db)
      && d.events == Stored(db, authChain, stateEvents, join).events
      && d.state == db.state + Reconciled(db, authChain, stateEvents, join, user)
      && var resolved, known := Reconciled(db, authChain, stateEvents, join, user), Known(db, stateEvents, join);
        exists rows ::
          RowsAre(rows, resolved, known, db.membership) && d.membership == rows[user := MemberRow("join", join.id)]
  }

  lemma AddKeepsStateMatches(db: Db, ev: Event)
    requires StateMatches(db) && SameAsStored(db, ev)
    ensures StateMatches(Committed(db, ev))
  {
    var d := Committed(db, ev);
    var stored := Saved(db, ev).events;
    assert d.events == stored && SameBody(stored[ev.id], ev);
    assert ev.stateKey.None? ==> d.state == db.state;
    assert ev.stateKey.Some? ==> d.state == db.state[TupleOf(ev) := ev.id];
    forall t | t in d.state
      ensures d.state[t] in stored && TupleOf(stored[d.state[t]]) == t && stored[d.state[t]].stateKey.Some?
    {
      if !(ev.stateKey.Some? && t == TupleOf(ev)) {
        assert t in db.state && d.state[t] == db.state[t];
      }
    }
  }

  lemma RemoteJoinKeepsStateMatches(db: Db, w: Write, d: Db)
    requires StateMatches(db) && Indexed(db) && w.RemoteJoin? && Admissible(db, w) && Writes(db, w, d)
    ensures StateMatches(d)
  {
    var resolved, known := Reconciled(db, w.authChain, w.stateEvents, w.join, w.user), Known(db, w.stateEvents, w.join);
    WinnersMatch(db, w.authChain, w.stateEvents, w.join, w.user, resolved);
    ReplyBodies(db, w.authChain, w.stateEvents, w.join, w.user, w.join);
    StoredGrows(db, w.authChain, w.stateEvents, w.join);
    forall t | t in d.state
      ensures d.state[t] in d.events && TupleOf(d.events[d.state[t]]) == t && d.events[d.state[t]].stateKey.Some?
    {
      if t in resolved {
        StoredBody(db, w.authChain, w.stateEvents, w.join, w.user, resolved[t]);
      }
    }
  }

  lemma WriteKeepsIndex(db: Db, w: Write, d: Db)
    requires StateMatches(db) && Indexed(db) && Admissible(db, w) && Writes(db, w, d)
    ensures StateMatches(d) && Indexed(d)
  {
    match w
    case Add(ev) =>
      CommitKeepsIndexIff(db, ev);
      AddKeepsStateMatches(db, ev);
    case FederatedMember(ev, membership) =>
      SendMemberKeepsIndexIff(db, ev, ev.sender, membership);
    case RemoteJoin(authChain, stateEvents, join, user) =>
      RemoteJoinKeepsStateMatches(db, w, d);
      var resolved, known := Reconciled(db, authChain, stateEvents, join, user), Known(db, stateEvents, join);
      var rows :| RowsAre(rows, resolved, known, db.membership)
        && d.membership == rows[user := MemberRow("join", join.id)];
      ReconcileKeepsIndex(db, d, authChain, stateEvents, join, user, rows);
  }

  ghost predicate IsRun(states: seq<Db>, writes: seq<Write>) {
    && |states| == |writes| + 1
    && forall i | 0 <= i < |writes| :: Admissible(states[i], writes[i]) && Writes(states[i], writes[i], states[i + 1])
  }

  /** In every state of every run, the membership table is exactly the index of the member entries. */
  lemma {:induction false} EveryRunKeepsIndex(states: seq<Db>, writes: seq<Write>, k: nat)
    requires IsRun(states, writes) && k < |states|
    requires StateMatches(states[0]) && Indexed(states[0])
    ensures StateMatches(states[k]) && Indexed(states[k])
  {
    if k > 0 {
      EveryRunKeepsIndex(states, writes, k - 1);
      WriteKeepsIndex(states[k - 1], writes[k - 1], states[k]);
    }
  }
}
