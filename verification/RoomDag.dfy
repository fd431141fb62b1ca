/**
 Growth of the room graph by local senders. A sender reads the tips, the auth entries and the
 depth in separate steps outside the transaction and commits later, so any number of senders
 may act on stale tips. Every interleaving keeps the extremity table equal to the leaves of the
 graph, and keeps the graph acyclic with a single root.
 */
module RoomDag {
  import opened Events
  import opened RoomStore

  // ---------------------------------------------------------------- the graph

  ghost predicate HasSuccessor(e: EventId, db: Db) {
    exists x :: x in db.events && e in db.events[x].prevEvents
  }

  ghost function Leaves(db: Db): set<EventId> {
    set e | e in db.events && !HasSuccessor(e, db)
  }

  /** Prev and auth references point to rows inserted earlier. */
  ghost predicate RefersBack(db: Db) {
    && NoDuplicates(db.log) && Elems(db.log) == db.events.Keys
    && (forall i, r | 0 <= i < |db.log| && r in db.events[db.log[i]].prevEvents :: r in db.log[..i])
    && (forall i, r | 0 <= i < |db.log| && r in db.events[db.log[i]].authEvents :: r in db.log[..i])
  }

  ghost predicate Deepens(db: Db) {
    forall x, p | x in db.events && p in db.events[x].prevEvents && p in db.events ::
      db.events[p].depth < db.events[x].depth
  }

  /** Only the first event has no prev events. */
  ghost predicate Rooted(db: Db) {
    && db.log != []
    && forall i | 0 <= i < |db.log| && db.log[i] in db.events :: db.events[db.log[i]].prevEvents == [] <==> i == 0
  }

  ghost predicate DagInv(db: Db) {
    && RefersBack(db)
    && Deepens(db)
    && Rooted(db)
    && (forall id | id in db.events :: db.events[id].id == id)
    && (forall t | t in db.state :: db.state[t] in db.events)
    && db.extremities == Leaves(db)
  }

  /** Where an event and one of its references stand in insertion order. */
  lemma Positions(db: Db, x: EventId, r: EventId) returns (j: nat, i: nat)
    requires RefersBack(db) && x in db.events && (r in db.events[x].prevEvents || r in db.events[x].authEvents)
    ensures j < i < |db.log| && db.log[j] == r && db.log[i] == x && r in db.events
  {
    assert x in Elems(db.log);
    i :| 0 <= i < |db.log| && db.log[i] == x;
    assert r in db.log[..i];
    j :| 0 <= j < i && db.log[j] == r;
    assert r in Elems(db.log);
  }

  /** A walk from an event towards older ones. */
  ghost predicate PrevWalk(p: seq<EventId>, db: Db) {
    && |p| > 0
    && (forall i | 0 <= i < |p| :: p[i] in db.events)
    && (forall i | 0 <= i < |p| - 1 :: p[i + 1] in db.events[p[i]].prevEvents)
  }

  lemma {:induction false} WalksGoUp(p: seq<EventId>, db: Db, k: nat)
    requires Deepens(db) && PrevWalk(p, db) && 0 < k < |p|
    ensures db.events[p[k]].depth < db.events[p[0]].depth
    decreases k
  {
    assert p[k] in db.events[p[k - 1]].prevEvents;
    if k > 1 {
      WalksGoUp(p, db, k - 1);
    }
  }

  /** No event is among its own ancestors. */
  lemma GraphIsAcyclic(db: Db, p: seq<EventId>)
    requires DagInv(db) && PrevWalk(p, db) && |p| > 1
    ensures p[0] != p[|p| - 1]
  {
    WalksGoUp(p, db, |p| - 1);
  }

  /** Every event has a walk to the first event of the room. */
  lemma {:induction false} EveryEventReachesRoot(db: Db, k: nat) returns (p: seq<EventId>)
    requires DagInv(db) && k < |db.log|
    ensures PrevWalk(p, db) && p[0] == db.log[k] && p[|p| - 1] == db.log[0]
    decreases k
  {
    assert db.log[k] in Elems(db.log);
    if k == 0 {
      p := [db.log[0]];
    } else {
      var prevs := db.events[db.log[k]].prevEvents;
      assert prevs != [];
      assert prevs[0] in db.log[..k];
      var j :| 0 <= j < k && db.log[j] == prevs[0];
      var rest := EveryEventReachesRoot(db, j);
      p := [db.log[k]] + rest;
      forall i | 0 <= i < |p| - 1
        ensures p[i + 1] in db.events[p[i]].prevEvents
      {
        if i > 0 {
          assert rest[i] in db.events[rest[i - 1]].prevEvents;
        }
      }
    }
  }

  /** The tip set is never empty, and no tip is an ancestor of another. */
  lemma TipsAreUsable(db: Db)
    requires DagInv(db)
    ensures db.extremities != {}
    ensures forall p | PrevWalk(p, db) && |p| > 1 :: p[|p| - 1] !in db.extremities
  {
    var k := |db.log| - 1;
    var last := db.log[k];
    assert last in Elems(db.log);
    forall x, r | x in db.events && r in db.events[x].prevEvents
      ensures r != last
    {
      var j, i := Positions(db, x, r);
    }
    assert last in Leaves(db);
    forall p | PrevWalk(p, db) && |p| > 1
      ensures p[|p| - 1] !in db.extremities
    {
      assert p[|p| - 2 + 1] in db.events[p[|p| - 2]].prevEvents;
      assert HasSuccessor(p[|p| - 1], db);
    }
  }

  // ---------------------------------------------------------------- one commit

  /** What a sender has gathered is enough to extend the graph. */
  ghost predicate Extends(ev: Event, db: Db) {
    && ev.prevEvents != []
    && (forall p | p in ev.prevEvents :: p in db.events && db.events[p].depth < ev.depth)
    && (forall a | a in ev.authEvents :: a in db.events)
  }

  /** A fresh event goes to the end of the log and changes no stored row. */
  lemma FreshLog(db: Db, ev: Event)
    requires RefersBack(db) && ev.id !in db.events
    ensures var d := Committed(db, ev);
      && d.log == db.log + [ev.id] && NoDuplicates(d.log) && Elems(d.log) == d.events.Keys
        && d.events == db.events[ev.id := ev]
  {
    CommittedTables(db, ev);
    ElemsAppend(db.log, ev.id);
    assert ev.id !in Elems(db.log);
  }

  lemma OldRow(db: Db, ev: Event, i: nat)
    requires RefersBack(db) && ev.id !in db.events && i < |db.log|
    ensures var d := Committed(db, ev);
      d.log[i] == db.log[i] && db.log[i] in db.events && d.events[d.log[i]] == db.events[db.log[i]]
        && d.log[..i] == db.log[..i]
  {
    FreshLog(db, ev);
    assert db.log[i] in Elems(db.log);
  }

  lemma FreshRefersBackAt(db: Db, ev: Event, i: nat, r: EventId)
    requires RefersBack(db) && ev.id !in db.events && (forall p | p in ev.prevEvents + ev.authEvents :: p in db.events)
    requires i <= |db.log| && Committed(db, ev).log[i] in Committed(db, ev).events
    requires r in Committed(db, ev).events[Committed(db, ev).log[i]].prevEvents
        || r in Committed(db, ev).events[Committed(db, ev).log[i]].authEvents
    ensures r in Committed(db, ev).log[..i]
  {
    FreshLog(db, ev);
    if i < |db.log| {
      OldRow(db, ev, i);
    } else {
      assert r in ev.prevEvents + ev.authEvents;
      assert r in Elems(db.log);
      assert Committed(db, ev).log[..i] == db.log;
    }
  }

  lemma FreshCommitRefersBack(db: Db, ev: Event)
    requires RefersBack(db) && Rooted(db) && ev.id !in db.events
    requires ev.prevEvents != [] && (forall p | p in ev.prevEvents :: p in db.events)
        && (forall a | a in ev.authEvents :: a in db.events)
    ensures RefersBack(Committed(db, ev)) && Rooted(Committed(db, ev))
  {
    FreshLog(db, ev);
    var d := Committed(db, ev);
    forall i, r | 0 <= i < |d.log| && (r in d.events[d.log[i]].prevEvents || r in d.events[d.log[i]].authEvents)
      ensures r in d.log[..i]
    {
      FreshRefersBackAt(db, ev, i, r);
    }
    forall i | 0 <= i < |d.log| && d.log[i] in d.events
      ensures d.events[d.log[i]].prevEvents == [] <==> i == 0
    {
      if i < |db.log| {
        OldRow(db, ev, i);
      }
    }
  }

  lemma FreshCommitLeaves(db: Db, ev: Event)
    requires RefersBack(db) && db.extremities == Leaves(db) && ev.id !in db.events
    requires forall p | p in ev.prevEvents :: p in db.events
    ensures Committed(db, ev).extremities == Leaves(Committed(db, ev))
  {
    CommittedTables(db, ev);
    var d := Committed(db, ev);
    forall x, r | x in d.events && r in d.events[x].prevEvents
      ensures r != ev.id
    {
      if x in db.events {
        var j, i := Positions(db, x, r);
      }
    }
    forall e | e in db.events
      ensures HasSuccessor(e, d) <==> HasSuccessor(e, db) || e in ev.prevEvents
    {
      if HasSuccessor(e, db) {
        var x :| x in db.events && e in db.events[x].prevEvents;
        assert x in d.events;
      }
      if e in ev.prevEvents {
        assert e in d.events[ev.id].prevEvents;
      }
    }
  }

  /** A fresh event keeps the whole invariant, however old the tips it was built on. */
  lemma FreshCommitKeepsDag(db: Db, ev: Event)
    requires DagInv(db) && Extends(ev, db) && ev.id !in db.events
    ensures DagInv(Committed(db, ev))
  {
    CommittedTables(db, ev);
    FreshCommitRefersBack(db, ev);
    FreshCommitLeaves(db, ev);
    var d := Committed(db, ev);
    forall x, p | x in d.events && p in d.events[x].prevEvents && p in d.events
      ensures d.events[p].depth < d.events[x].depth
    {
      if x != ev.id {
        var j, i := Positions(db, x, p);
      }
    }
  }

  /**
   Committing an event, stored or new, keeps the tip table equal to the leaves iff nothing follows
   the event: neither a stored event nor itself. This covers inbound events, whose prev events need
   not be stored, and events that arrive again.
   */
  lemma CommitKeepsLeavesIff(db: Db, ev: Event)
    requires db.extremities == Leaves(db)
    requires ev.id in db.events ==> db.events[ev.id].prevEvents == ev.prevEvents
    ensures Committed(db, ev).extremities == Leaves(Committed(db, ev))
        <==> !HasSuccessor(ev.id, db) && ev.id !in ev.prevEvents
  {
    CommittedTables(db, ev);
    var d := Committed(db, ev);
    forall e
      ensures HasSuccessor(e, d) <==> HasSuccessor(e, db) || e in ev.prevEvents
    {
      SuccessorsAfterCommit(db, ev, e);
    }
    assert ev.id in d.extremities;
  }

  lemma SuccessorsAfterCommit(db: Db, ev: Event, e: EventId)
    requires ev.id in db.events ==> db.events[ev.id].prevEvents == ev.prevEvents
    ensures HasSuccessor(e, Committed(db, ev)) <==> HasSuccessor(e, db) || e in ev.prevEvents
  {
    CommittedTables(db, ev);
    var d := Committed(db, ev);
    assert ev.id in d.events && d.events[ev.id].prevEvents == ev.prevEvents;
    if HasSuccessor(e, db) {
      var x :| x in db.events && e in db.events[x].prevEvents;
      assert x in d.events && e in d.events[x].prevEvents;
    }
  }

  /** A room of two events in a row. */
  const TWO_IN_A_ROW := Db(map["$1" := Example("$1"), "$2" := Example("$2").(prevEvents := ["$1"], depth := 1)],
    ["$1", "$2"], {"$2"}, map[], map[])

  lemma TwoInARow()
    ensures DagInv(TWO_IN_A_ROW) && HasSuccessor("$1", TWO_IN_A_ROW)
  {
    var db := TWO_IN_A_ROW;
    assert db.log[..1] == ["$1"] && "$1" in db.log[..1];
    assert Elems(db.log) == {"$1", "$2"};
    assert "$1" in db.events["$2"].prevEvents && HasSuccessor("$1", db);
    assert Leaves(db) == {"$2"};
  }

  /** When the first of the two arrives again it becomes a tip although the second follows it. */
  lemma RedeliveryMakesAFalseTip()
    ensures var ev := Example("$1");
      && DagInv(TWO_IN_A_ROW) && TWO_IN_A_ROW.events["$1"] == ev
      && Committed(TWO_IN_A_ROW, ev).extremities != Leaves(Committed(TWO_IN_A_ROW, ev))
  {
    TwoInARow();
    CommitKeepsLeavesIff(TWO_IN_A_ROW, Example("$1"));
  }

  /** An event that arrives after the one that follows it becomes a false tip as well. */
  lemma LateArrivalMakesAFalseTip() returns (db: Db, ev: Event)
    ensures db.extremities == Leaves(db) && ev.id !in db.events
    ensures Committed(db, ev).extremities != Leaves(Committed(db, ev))
  {
    ev := Example("$1");
    db := Db(map["$2" := Example("$2").(prevEvents := ["$1"], depth := 1)], ["$2"], {"$2"}, map[], map[]);
    assert "$1" in db.events["$2"].prevEvents && HasSuccessor("$1", db);
    assert Leaves(db) == {"$2"};
    CommitKeepsLeavesIff(db, ev);
  }

  // ---------------------------------------------------------------- interleavings

  /** A local send in progress: the event so far, the state entries still to read, whether its depth is set. */
  datatype Draft = Draft(ev: Event, unread: seq<StateTuple>, depthSet: bool)

  datatype System = System(db: Db, drafts: map<nat, Draft>)

  datatype Action =
    | ReadTips(op: nat, template: Event, tips: seq<EventId>)
    | ReadAuth(op: nat)
    | ReadDepth(op: nat)
    | Commit(op: nat, id: EventId, signatures: string)
    | Abandon(op: nat)

  /** New IDs are hashes of events not stored before. */
  ghost predicate Enabled(s: System, a: Action) {
    match a
    case ReadTips(op, template, tips) => op !in s.drafts && NoDuplicates(tips) && Elems(tips) == s.db.extremities
    case ReadAuth(op) => op in s.drafts && s.drafts[op].unread != []
    case ReadDepth(op) => op in s.drafts && s.drafts[op].unread == [] && !s.drafts[op].depthSet
    case Commit(op, id, _) => op in s.drafts && s.drafts[op].unread == [] && s.drafts[op].depthSet && id !in s.db.events
    case Abandon(op) => op in s.drafts
  }

  function Next(s: System, a: Action): System {
    match a
    case ReadTips(op, template, tips) =>
      var ev := template.(prevEvents := tips, authEvents := [], depth := 0);
      s.(drafts := s.drafts[op := Draft(ev, AuthKeys(ev.sender, ev.kind, ev.stateKey), false)])
    case ReadAuth(op) =>
      if op !in s.drafts || s.drafts[op].unread == [] then s
      else
        var d := s.drafts[op];
        var auths := d.ev.authEvents + if d.unread[0] in s.db.state then [s.db.state[d.unread[0]]] else [];
        s.(drafts := s.drafts[op := d.(ev := d.ev.(authEvents := auths), unread := d.unread[1..])])
    case ReadDepth(op) =>
      if op !in s.drafts then s
      else
        var d := s.drafts[op];
        s.(drafts := s.drafts[op := d.(ev := d.ev.(depth := DepthAfter(d.ev.prevEvents, s.db.events)),
          depthSet := true)])
    case Commit(op, id, signatures) =>
      if op !in s.drafts then s
      else System(Committed(s.db, s.drafts[op].ev.(id := id, signatures := signatures)), s.drafts - {op})
    case Abandon(op) => s.(drafts := s.drafts - {op})
  }

  ghost predicate DraftInv(d: Draft, db: Db) {
    && d.ev.prevEvents != []
    && (forall p | p in d.ev.prevEvents :: p in db.events && (d.depthSet ==> db.events[p].depth < d.ev.depth))
    && (forall a | a in d.ev.authEvents :: a in db.events)
  }

  ghost predicate SystemInv(s: System) {
    DagInv(s.db) && forall op | op in s.drafts :: DraftInv(s.drafts[op], s.db)
  }

  lemma NewDraft(db: Db, ev: Event, unread: seq<StateTuple>)
    requires DagInv(db) && Elems(ev.prevEvents) == db.extremities && ev.authEvents == []
    ensures DraftInv(Draft(ev, unread, false), db)
  {
    TipsAreUsable(db);
    assert ev.prevEvents != [];
    assert forall p | p in ev.prevEvents :: p in Elems(ev.prevEvents);
  }

  /** Stored rows never change, so what a draft has read stays true while others commit. */
  lemma DraftSurvivesCommit(d: Draft, db: Db, ev: Event)
    requires DraftInv(d, db)
    ensures DraftInv(d, Committed(db, ev))
  {
    CommittedTables(db, ev);
  }

  lemma StepKeepsInv(s: System, a: Action)
    requires SystemInv(s) && Enabled(s, a)
    ensures SystemInv(Next(s, a))
  {
    match a
    case ReadTips(op, template, tips) =>
      var ev := template.(prevEvents := tips, authEvents := [], depth := 0);
      NewDraft(s.db, ev, AuthKeys(ev.sender, ev.kind, ev.stateKey));
    case ReadAuth(op) =>
      assert DraftInv(s.drafts[op], s.db);
    case ReadDepth(op) =>
      assert DraftInv(s.drafts[op], s.db);
      DepthExceedsPrevs(s.drafts[op].ev.prevEvents, s.db.events);
    case Commit(op, id, signatures) =>
      var ev := s.drafts[op].ev.(id := id, signatures := signatures);
      assert DraftInv(s.drafts[op], s.db);
      FreshCommitKeepsDag(s.db, ev);
      forall o | o in s.drafts && o != op
        ensures DraftInv(s.drafts[o], Committed(s.db, ev))
      {
        DraftSurvivesCommit(s.drafts[o], s.db, ev);
      }
    case Abandon(op) =>
  }

  ghost predicate IsRun(s: System, actions: seq<Action>)
    decreases |actions|
  {
    actions == [] || (Enabled(s, actions[0]) && IsRun(Next(s, actions[0]), actions[1..]))
  }

  function After(s: System, actions: seq<Action>): System
    decreases |actions|
  {
    if actions == [] then s else After(Next(s, actions[0]), actions[1..])
  }

  /** Every run of local senders, in every interleaving, keeps the graph and its tip table right. */
  lemma {:induction false} EveryRunKeepsDag(s: System, actions: seq<Action>)
    requires SystemInv(s) && IsRun(s, actions)
    ensures SystemInv(After(s, actions))
    decreases |actions|
  {
    if actions != [] {
      StepKeepsInv(s, actions[0]);
      EveryRunKeepsDag(Next(s, actions[0]), actions[1..]);
    }
  }

  // ---------------------------------------------------------------- one sender, uninterrupted

  function AuthReads(op: nat, n: nat): seq<Action> {
    if n == 0 then [] else [ReadAuth(op)] + AuthReads(op, n - 1)
  }

  function SenderRun(op: nat, template: Event, tips: seq<EventId>, id: EventId, signatures: string): seq<Action> {
    var keys := AuthKeys(template.sender, template.kind, template.stateKey);
    [ReadTips(op, template, tips)] + (AuthReads(op, |keys|) + [ReadDepth(op), Commit(op, id, signatures)])
  }

  /** The event such a run commits. */
  function Gathered(db: Db, template: Event, tips: seq<EventId>, id: EventId, signatures: string): Event {
    template.(
    prevEvents := tips,
    authEvents := Lookups(AuthKeys(template.sender, template.kind, template.stateKey), db.state),
    depth := DepthAfter(tips, db.events),
    id := id,
    signatures := signatures)
  }

  /** What a draft becomes when nobody interferes with the rest of its run. */
  function Finished(s: System, op: nat, id: EventId, signatures: string): System
    requires op in s.drafts
  {
    var d := s.drafts[op];
    var sent := d.ev.(
                authEvents := d.ev.authEvents + Lookups(d.unread, s.db.state),
                depth := DepthAfter(d.ev.prevEvents, s.db.events), id := id, signatures := signatures);
    System(Committed(s.db, sent), s.drafts - {op})
  }

  /** The last two steps, once every auth entry has been read. */
  lemma DepthAndCommit(s: System, op: nat, id: EventId, signatures: string)
    requires op in s.drafts && s.drafts[op].unread == [] && !s.drafts[op].depthSet && id !in s.db.events
    ensures var run := [ReadDepth(op), Commit(op, id, signatures)];
      IsRun(s, run) && After(s, run) == Finished(s, op, id, signatures)
  {
    var s1 := Next(s, ReadDepth(op));
    var last := [Commit(op, id, signatures)];
    assert [ReadDepth(op), Commit(op, id, signatures)][1..] == last && last[1..] == [];
    var s2 := Next(s1, last[0]);
    assert s2.drafts == s.drafts - {op};
    assert s.drafts[op].ev.authEvents + [] == s.drafts[op].ev.authEvents;
    assert IsRun(s1, last) && After(s1, last) == s2;
  }

  lemma ReadKeepsFinished(s: System, op: nat, id: EventId, signatures: string)
    requires op in s.drafts && s.drafts[op].unread != []
    ensures var s1 := Next(s, ReadAuth(op));
      op in s1.drafts && Finished(s1, op, id, signatures) == Finished(s, op, id, signatures)
  {
    var d, s1 := s.drafts[op], Next(s, ReadAuth(op));
    LookupsSplit(d.unread, s.db.state);
    var first := if d.unread[0] in s.db.state then [s.db.state[d.unread[0]]] else [];
    assert d.ev.authEvents + Lookups(d.unread, s.db.state)
      == d.ev.authEvents + first + Lookups(d.unread[1..], s.db.state);
    assert s1.drafts - {op} == s.drafts - {op};
  }

  /** Reading the entries that are left, then the depth, then the commit. */
  lemma {:induction false} ReadsThenCommit(s: System, op: nat, id: EventId, signatures: string)
    requires op in s.drafts && !s.drafts[op].depthSet && id !in s.db.events
    ensures var run := AuthReads(op, |s.drafts[op].unread|) + [ReadDepth(op), Commit(op, id, signatures)];
      IsRun(s, run) && After(s, run) == Finished(s, op, id, signatures)
    decreases |s.drafts[op].unread|
  {
    var n := |s.drafts[op].unread|;
    var tail := [ReadDepth(op), Commit(op, id, signatures)];
    if n == 0 {
      assert AuthReads(op, 0) + tail == tail;
      DepthAndCommit(s, op, id, signatures);
    } else {
      ReadKeepsFinished(s, op, id, signatures);
      ReadsThenCommit(Next(s, ReadAuth(op)), op, id, signatures);
      var rest := AuthReads(op, n - 1) + tail;
      assert AuthReads(op, n) + tail == [ReadAuth(op)] + rest;
      assert ([ReadAuth(op)] + rest)[1..] == rest;
    }
  }

  lemma {:induction false} LookupsSplit(keys: seq<StateTuple>, state: StateMap)
    requires keys != []
    ensures Lookups(keys, state) == (if keys[0] in state then [state[keys[0]]] else []) + Lookups(keys[1..], state)
    decreases |keys|
  {
    var k := |keys| - 1;
    if k == 0 {
      assert keys[..0] == [] && keys[1..] == [];
    } else {
      LookupsSplit(keys[..k], state);
      assert keys[..k][1..] == keys[1..][..k - 1];
      assert keys[..k][0] == keys[0] && keys[1..][k - 1] == keys[k];
    }
  }

  lemma UninterruptedRun(s: System, op: nat, template: Event, tips: seq<EventId>, id: EventId, signatures: string)
    requires op !in s.drafts && NoDuplicates(tips) && Elems(tips) == s.db.extremities && id !in s.db.events
    ensures var run := SenderRun(op, template, tips, id, signatures);
      IsRun(s, run) && After(s, run) == s.(db := Committed(s.db, Gathered(s.db, template, tips, id, signatures)))
  {
    var s1 := Next(s, ReadTips(op, template, tips));
    var run := SenderRun(op, template, tips, id, signatures);
    ReadsThenCommit(s1, op, id, signatures);
    var keys := AuthKeys(template.sender, template.kind, template.stateKey);
    assert s1.drafts[op].unread == keys && s1.drafts - {op} == s.drafts;
    assert run[1..] == AuthReads(op, |keys|) + [ReadDepth(op), Commit(op, id, signatures)];
    assert [] + Lookups(keys, s.db.state) == Lookups(keys, s.db.state);
  }
}
