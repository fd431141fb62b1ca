/**
 The local room operations, as the services run them: read the tips, auth entries and depth,
 then write events, tips, state and membership in one transaction.
 */
module RoomServices {
  import opened Events
  import opened RoomStore
  import RoomDag

  datatype SendResult = Sent(ev: Event) | Refused | NothingToDo

  function WithMembership(content: Content, membership: string): Content {
    content.(membership := Some(membership))
  }

  function Template(
    roomId: string, sender: UserId, kind: string, stateKey: Option<string>, content: Content, ts: int): Event {
    Event("", kind, content, roomId, sender, ts, stateKey, "", [], [], 0, "", "", "")
  }

  function MemberTemplate(
    roomId: string, sender: UserId, user: UserId, membership: string, content: Content, ts: int): Event {
    Template(roomId, sender, MEMBER, Some(user), WithMembership(content, membership), ts)
  }

  /** A client's transaction ID travels in the unsigned part, which the event ID does not cover. */
  function WithTransaction(ev: Event, txnId: string): Event {
    if txnId == "" then ev else ev.(unsigned := "transaction_id=" + txnId)
  }

  function Signed(ev: Event, sign: Event -> string): Event {
    ev.(signatures := sign(ev))
  }

  /** The event is the template linked to the tips, auth entries and depth of this state of the room. */
  ghost predicate PreparedFrom(template: Event, db: Db, ev: Event, hash: Event -> EventId) {
    && NoDuplicates(ev.prevEvents) && Elems(ev.prevEvents) == db.extremities
    && ev == template.(
      prevEvents := ev.prevEvents,
      authEvents := Lookups(AuthKeys(template.sender, template.kind, template.stateKey), db.state),
      depth := DepthAfter(ev.prevEvents, db.events),
      id := ev.id)
    && ev.id == hash(Stripped(ev))
  }

  /** Whatever is prepared from a well-formed room extends it; a fresh ID then keeps it well-formed. */
  lemma PreparedEventExtends(template: Event, db: Db, ev: Event, hash: Event -> EventId, signatures: string)
    requires RoomDag.DagInv(db) && PreparedFrom(template, db, ev, hash)
    ensures RoomDag.Extends(ev, db)
    ensures ev.id !in db.events ==> RoomDag.DagInv(Committed(db, ev.(signatures := signatures)))
  {
    RoomDag.TipsAreUsable(db);
    assert ev.prevEvents != [];
    assert forall p | p in ev.prevEvents :: p in Elems(ev.prevEvents);
    DepthExceedsPrevs(ev.prevEvents, db.events);
    LookupsAreEntries(AuthKeys(template.sender, template.kind, template.stateKey), db.state);
    if ev.id !in db.events {
      RoomDag.FreshCommitKeepsDag(db, ev.(signatures := signatures));
    }
  }

  /**
   A service call that is not interrupted is one run of the interleaving model: read the tips, each
   auth entry and the depth, then commit. Every mix of such calls is covered by the runs there.
   */
  lemma ServiceCallIsARun(
    s: RoomDag.System, op: nat, template: Event, ev: Event, hash: Event -> EventId, signatures: string)
    requires op !in s.drafts && PreparedFrom(template, s.db, ev, hash) && ev.id !in s.db.events
    ensures var run := RoomDag.SenderRun(op, template, ev.prevEvents, ev.id, signatures);
      RoomDag.IsRun(s, run) && RoomDag.After(s, run) == s.(db := Committed(s.db, ev.(signatures := signatures)))
  {
    RoomDag.UninterruptedRun(s, op, template, ev.prevEvents, ev.id, signatures);
    var keys := AuthKeys(template.sender, template.kind, template.stateKey);
    assert ev.(signatures := signatures) == RoomDag.Gathered(s.db, template, ev.prevEvents, ev.id, signatures);
  }

  method Prepare(t: RoomTables, template: Event, hash: Event -> EventId) returns (ev: Event)
    ensures PreparedFrom(template, t.Snapshot(), ev, hash)
  {
    var prevs, auths := t.ResolveEventDependencies(template.sender, template.kind, template.stateKey);
    var maxDepth := t.GetMaxDepth(prevs);
    ev := template.(prevEvents := prevs, authEvents := auths, depth := maxDepth + 1);
    ev := ev.(id := hash(Stripped(ev)));
    assert Stripped(ev) == Stripped(template.(prevEvents := prevs, authEvents := auths, depth := maxDepth + 1));
  }

  /** The user's membership row, if there is one, says this. */
  ghost predicate RowSays(db: Db, user: UserId, membership: string) {
    user in db.membership && db.membership[user].membership == membership
  }

  /**
   What a new event is made of: the caller's fields, the tips of the room, the cited entries, a depth
   above the stored tips, and an ID over everything but the ID, the signatures and the unsigned part.
   */
  ghost predicate MadeOf(
    ev: Event, roomId: string, sender: UserId, kind: string, stateKey: Option<string>, content: Content, ts: int,
    unsigned: string, db: Db, hash: Event -> EventId) {
    && ev.roomId == roomId && ev.sender == sender && ev.kind == kind && ev.stateKey == stateKey
    && ev.content == content && ev.originTs == ts && ev.unsigned == unsigned && ev.redacts == "" && ev.hashes == ""
    && NoDuplicates(ev.prevEvents) && Elems(ev.prevEvents) == db.extremities
    && CitesExactly(ev.authEvents, sender, kind, stateKey, db.state)
    && ev.depth == DepthAfter(ev.prevEvents, db.events)
    && ev.id == hash(ev.(id := "", signatures := "", unsigned := ""))
  }

  lemma PreparedIsMadeOf(template: Event, db: Db, ev: Event, hash: Event -> EventId, signatures: string)
    requires PreparedFrom(template, db, ev, hash) && template.redacts == "" && template.hashes == ""
    ensures MadeOf(
      ev.(signatures := signatures), template.roomId, template.sender, template.kind, template.stateKey,
      template.content, template.originTs, template.unsigned, db, hash)
  {
    CitedEntries(template.sender, template.kind, template.stateKey, db.state);
    assert Stripped(ev) == ev.(signatures := signatures).(id := "", signatures := "", unsigned := "");
  }

  /** `ev` was prepared, and signed when it was sent through the room interaction service. */
  ghost predicate SentFrom(template: Event, db: Db, ev: Event, hash: Event -> EventId, sign: Event -> string) {
    exists draft :: PreparedFrom(template, db, draft, hash) && ev == Signed(draft, sign)
  }

  method SendEvent(
    t: RoomTables, roomId: string, sender: UserId, kind: string, content: Content, txnId: string, ts: int,
    hash: Event -> EventId, sign: Event -> string) returns (r: SendResult)
    modifies t
    ensures r.Refused? <==> !RowSays(old(t.Snapshot()), sender, "join")
    ensures !r.Sent? ==> r.Refused? && t.Snapshot() == old(t.Snapshot())
    ensures r.Sent? ==>
      MadeOf(r.ev, roomId, sender, kind, None, content, ts, if txnId == "" then "" else "transaction_id=" + txnId,
        old(t.Snapshot()), hash)
    ensures r.Sent? ==> exists text :: r.ev.signatures == sign(r.ev.(signatures := text))
    ensures r.Sent? ==>
      SentFrom(WithTransaction(Template(roomId, sender, kind, None, content, ts), txnId), old(t.Snapshot()), r.ev, hash,
        sign)
    ensures r.Sent? ==> t.Snapshot() == Committed(old(t.Snapshot()), r.ev)
  {
    if t.GetUserMembership(sender) != "join" {
      return Refused;
    }
    var template := WithTransaction(Template(roomId, sender, kind, None, content, ts), txnId);
    var draft := Prepare(t, template, hash);
    var ev := Signed(draft, sign);
    assert SentFrom(template, t.Snapshot(), ev, hash, sign);
    PreparedIsMadeOf(template, t.Snapshot(), draft, hash, sign(draft));
    assert draft == ev.(signatures := draft.signatures);
    t.SaveEvent(ev);
    t.UpdateForwardExtremities(ev.id, ev.prevEvents);
    r := Sent(ev);
  }

  method SendStateEvent(
    t: RoomTables, roomId: string, user: UserId, kind: string, stateKey: string, content: Content, ts: int,
    hash: Event -> EventId, sign: Event -> string) returns (r: SendResult)
    modifies t
    ensures r.Refused? <==> !RowSays(old(t.Snapshot()), user, "join")
    ensures !r.Sent? ==> r.Refused? && t.Snapshot() == old(t.Snapshot())
    ensures r.Sent? ==>
      MadeOf(r.ev, roomId, user, kind, Some(stateKey), content, ts, "", old(t.Snapshot()), hash)
    ensures r.Sent? ==> exists text :: r.ev.signatures == sign(r.ev.(signatures := text))
    ensures r.Sent? ==>
      SentFrom(Template(roomId, user, kind, Some(stateKey), content, ts), old(t.Snapshot()), r.ev, hash, sign)
    ensures r.Sent? ==> t.Snapshot() == Committed(old(t.Snapshot()), r.ev)
  {
    if t.GetUserMembership(user) != "join" {
      return Refused;
    }
    var template := Template(roomId, user, kind, Some(stateKey), content, ts);
    var draft := Prepare(t, template, hash);
    var ev := Signed(draft, sign);
    assert SentFrom(template, t.Snapshot(), ev, hash, sign);
    PreparedIsMadeOf(template, t.Snapshot(), draft, hash, sign(draft));
    assert draft == ev.(signatures := draft.signatures);
    t.SaveEvent(ev);
    t.UpdateForwardExtremities(ev.id, ev.prevEvents);
    t.UpsertCurrentState(kind, stateKey, ev.id);
    if kind == MEMBER && content.membership.Some? && content.membership.value != "" {
      t.UpsertMembership(stateKey, content.membership.value, ev.id);
    }
    r := Sent(ev);
  }

  /** Save, move the tips, and point the state and the membership row of `user` at the event. */
  method CommitMembership(t: RoomTables, user: UserId, membership: string, ev: Event)
    modifies t
    ensures t.Snapshot() == Advanced(MemberWritten(old(t.Snapshot()), ev, user, membership), ev.id, ev.prevEvents)
  {
    t.SaveEvent(ev);
    t.UpdateForwardExtremities(ev.id, ev.prevEvents);
    t.UpsertCurrentState(MEMBER, user, ev.id);
    t.UpsertMembership(user, membership, ev.id);
  }

  /** When the event says what the row says, that is the ordinary commit. */
  lemma MembershipCommit(db: Db, user: UserId, membership: string, ev: Event)
    requires ev.kind == MEMBER && ev.stateKey == Some(user) && ev.content.membership == Some(membership)
        && membership != ""
    ensures Advanced(MemberWritten(db, ev, user, membership), ev.id, ev.prevEvents) == Committed(db, ev)
  {
    CommittedTables(db, ev);
  }

  lemma MemberIsMadeOf(
    db: Db, roomId: string, sender: UserId, user: UserId, membership: string, content: Content, ts: int, ev: Event,
    hash: Event -> EventId)
    requires PreparedFrom(MemberTemplate(roomId, sender, user, membership, content, ts), db, ev, hash)
    ensures MadeOf(ev, roomId, sender, "m.room.member", Some(user), content.(membership := Some(membership)), ts, "",
      db, hash)
  {
    PreparedIsMadeOf(MemberTemplate(roomId, sender, user, membership, content, ts), db, ev, hash, ev.signatures);
    assert ev == ev.(signatures := ev.signatures);
  }

  method LeaveRoom(t: RoomTables, roomId: string, user: UserId, content: Content, ts: int, hash: Event -> EventId)
    returns (r: SendResult)
    modifies t
    ensures var db := old(t.Snapshot());
      && (r.NothingToDo? <==> user !in db.membership || RowSays(db, user, "leave") || RowSays(db, user, "ban"))
      && (r.Sent? <==> RowSays(db, user, "join") || RowSays(db, user, "invite"))
    ensures !r.Sent? ==> t.Snapshot() == old(t.Snapshot())
    ensures r.Sent? ==>
      MadeOf(r.ev, roomId, user, "m.room.member", Some(user), content.(membership := Some("leave")), ts, "",
        old(t.Snapshot()), hash)
    ensures r.Sent?
        ==> PreparedFrom(MemberTemplate(roomId, user, user, "leave", content, ts), old(t.Snapshot()), r.ev, hash)
    ensures r.Sent? ==> t.Snapshot() == Committed(old(t.Snapshot()), r.ev)
  {
    var status := t.GetUserMembership(user);
    if status == "leave" || status == "ban" {
      return NothingToDo;
    }
    if status != "join" && status != "invite" {
      return Refused;
    }
    var ev := Prepare(t, MemberTemplate(roomId, user, user, "leave", content, ts), hash);
    MembershipCommit(t.Snapshot(), user, "leave", ev);
    MemberIsMadeOf(t.Snapshot(), roomId, user, user, "leave", content, ts, ev, hash);
    CommitMembership(t, user, "leave", ev);
    r := Sent(ev);
  }

  /** Public rooms admit everybody, invite and private rooms the invited; no rule, or any other, admits nobody. */
  ghost predicate Admits(rule: Option<string>, db: Db, user: UserId) {
    rule == Some("public") || ((rule == Some("invite") || rule == Some("private")) && RowSays(db, user, "invite"))
  }

  method JoinLocalRoom(t: RoomTables, roomId: string, user: UserId, content: Content, ts: int, hash: Event -> EventId)
    returns (r: SendResult)
    modifies t
    ensures exists rule ::
      && PossibleJoinRule(old(t.Snapshot()), rule)
      && (r.Sent? <==> Admits(rule, old(t.Snapshot()), user))
    ensures !r.Sent? ==> r.Refused? && t.Snapshot() == old(t.Snapshot())
    ensures r.Sent? ==>
      MadeOf(r.ev, roomId, user, "m.room.member", Some(user), content.(membership := Some("join")), ts, "",
        old(t.Snapshot()), hash)
    ensures r.Sent?
        ==> PreparedFrom(MemberTemplate(roomId, user, user, "join", content, ts), old(t.Snapshot()), r.ev, hash)
    ensures r.Sent? ==> t.Snapshot() == Committed(old(t.Snapshot()), r.ev)
  {
    var rule := t.GetJoinRule();
    if rule.None? {
      return Refused;
    }
    if rule.value == "invite" || rule.value == "private" {
      if t.GetUserMembership(user) != "invite" {
        return Refused;
      }
    } else if rule.value != "public" {
      return Refused;
    }
    var ev := Prepare(t, MemberTemplate(roomId, user, user, "join", content, ts), hash);
    MembershipCommit(t.Snapshot(), user, "join", ev);
    MemberIsMadeOf(t.Snapshot(), roomId, user, user, "join", content, ts, ev, hash);
    CommitMembership(t, user, "join", ev);
    r := Sent(ev);
  }

  /**
   Without a power-levels entry anybody may invite; one that is missing or does not decode admits
   nobody; else the inviter needs the invite level, by their own entry or else the default one.
   Levels that are not given are zero.
   */
  ghost predicate MayInvite(db: Db, inviter: UserId) {
    var t := StateTuple("m.room.power_levels", "");
    t in db.state ==> db.state[t] in db.events && MeetsInviteLevel(db.events[db.state[t]].content.inviteLevels, inviter)
  }

  ghost predicate MeetsInviteLevel(levels: Option<InviteLevels>, inviter: UserId) {
    match levels
    case None => false
    case Some(l) =>
      var need := if l.invite.Some? then l.invite.value else 0;
      var normal := if l.usersDefault.Some? then l.usersDefault.value else 0;
      if inviter in l.users then l.users[inviter] >= need else normal >= need
  }

  method CheckInvitePowerLevel(t: RoomTables, inviter: UserId) returns (ok: bool)
    ensures ok <==> MayInvite(t.Snapshot(), inviter)
  {
    if POWER_LEVELS_TUPLE !in t.state {
      return true;
    }
    var id := t.state[POWER_LEVELS_TUPLE];
    if id !in t.events || t.events[id].content.inviteLevels.None? {
      return false;
    }
    var levels := t.events[id].content.inviteLevels.value;
    var needed := 0;
    if levels.invite.Some? {
      needed := levels.invite.value;
    }
    var level := 0;
    if levels.usersDefault.Some? {
      level := levels.usersDefault.value;
    }
    if inviter in levels.users {
      level := levels.users[inviter];
    }
    ok := level >= needed;
  }

  /** `countersign` stands for a remote invitee's server: it signs and answers with an event, or refuses. */
  datatype Invitee = Local(user: UserId) | Remote(user: UserId, countersign: Event -> Option<Event>)

  /** The event that is committed: the prepared one, or whatever the remote server answered. */
  ghost predicate InviteFrom(
    template: Event, db: Db, invitee: Invitee, ev: Event, hash: Event -> EventId, sign: Event -> string) {
    exists draft :: PreparedFrom(template, db, draft, hash) &&
      match invitee
      case Local(_) => ev == draft
      case Remote(_, countersign) => countersign(Signed(draft, sign)) == Some(ev)
  }

  method InviteUser(
    t: RoomTables, roomId: string, inviter: UserId, invitee: Invitee, content: Content, ts: int,
    hash: Event -> EventId, sign: Event -> string) returns (r: SendResult)
    modifies t
    ensures var db := old(t.Snapshot());
      var allowed := RowSays(db, inviter, "join") && !RowSays(db, invitee.user, "ban")
                     && !RowSays(db, invitee.user, "join") && MayInvite(db, inviter);
      (r.Sent? ==> allowed) && (invitee.Local? && allowed ==> r.Sent?)
    ensures !r.Sent? ==> r.Refused? && t.Snapshot() == old(t.Snapshot())
    ensures r.Sent? ==>
      InviteFrom(MemberTemplate(roomId, inviter, invitee.user, "invite", content, ts), old(t.Snapshot()), invitee, r.ev,
        hash, sign)
    ensures r.Sent? ==>
      t.Snapshot() == Advanced(MemberWritten(old(t.Snapshot()), r.ev, invitee.user, "invite"), r.ev.id, r.ev.prevEvents)
    ensures r.Sent? && invitee.Local? ==> t.Snapshot() == Committed(old(t.Snapshot()), r.ev)
    ensures r.Sent? ==>
      exists draft :: MadeOf(
        draft, roomId, inviter, "m.room.member", Some(invitee.user), content.(membership := Some("invite")), ts, "",
        old(t.Snapshot()), hash)
        && if invitee.Local? then r.ev == draft
           else invitee.countersign(draft.(signatures := sign(draft))) == Some(r.ev)
  {
    if t.GetUserMembership(inviter) != "join" {
      return Refused;
    }
    var status := t.GetUserMembership(invitee.user);
    if status == "ban" || status == "join" {
      return Refused;
    }
    var enough := CheckInvitePowerLevel(t, inviter);
    if !enough {
      return Refused;
    }
    var template := MemberTemplate(roomId, inviter, invitee.user, "invite", content, ts);
    var draft := Prepare(t, template, hash);
    MemberIsMadeOf(t.Snapshot(), roomId, inviter, invitee.user, "invite", content, ts, draft, hash);
    var ev := draft;
    if invitee.Remote? {
      var answer := invitee.countersign(Signed(draft, sign));
      if answer.None? {
        return Refused;
      }
      ev := answer.value;
    }
    assert InviteFrom(template, t.Snapshot(), invitee, ev, hash, sign);
    if invitee.Local? {
      MembershipCommit(t.Snapshot(), invitee.user, "invite", ev);
    }
    CommitMembership(t, invitee.user, "invite", ev);
    r := Sent(ev);
  }
}
