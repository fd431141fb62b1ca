/**
 Authorization of a state event against a partial room state, and the state entries the
 decision depends on.
 */
module AuthRules {
  import opened Events

  /** The event a state entry points to, if the entry exists and its event is known. */
  function StateEvent(t: StateTuple, state: StateMap, events: map<EventId, Event>): Option<Event> {
    if t in state then Get(events, state[t]) else None
  }

  function UserPowerLevel(user: UserId, powerLevels: Option<Event>, create: Option<Event>): int {
    match powerLevels
    case None => if create.Some? && create.value.sender == user then 100 else 0
    case Some(ev) =>
      match ev.content.levels
      case None => 0
      case Some(l) => if user in l.users then l.users[user] else l.usersDefault
  }

  /** Level needed to replace the power levels: a zero or negative default is ignored. */
  function LevelToSetPowerLevels(powerLevels: Option<Event>): int {
    if powerLevels.None? || powerLevels.value.content.thresholds.None? then 100
    else
      var t := powerLevels.value.content.thresholds.value;
      if POWER_LEVELS in t.events then t.events[POWER_LEVELS]
      else if t.stateDefault > 0 then t.stateDefault
      else 100
  }

  /** Level needed for any other state event: only a zero default is ignored. */
  function LevelToSend(kind: string, powerLevels: Option<Event>): int {
    if powerLevels.None? || powerLevels.value.content.thresholds.None? then 50
    else
      var t := powerLevels.value.content.thresholds.value;
      if kind in t.events then t.events[kind]
      else if t.stateDefault != 0 then t.stateDefault
      else 50
  }

  predicate CheckAuth(ev: Event, state: StateMap, events: map<EventId, Event>) {
    if ev.kind == CREATE then true
    else
      var powerLevels := StateEvent(POWER_LEVELS_TUPLE, state, events);
      var create := StateEvent(CREATE_TUPLE, state, events);
      var senderLevel := UserPowerLevel(ev.sender, powerLevels, create);
      if ev.kind == MEMBER then
        if ev.content.membership.None? then false
        else
          var target := if ev.stateKey.Some? then ev.stateKey.value else "";
          if ev.content.membership.value == "join" && target == ev.sender then true
          else if target != ev.sender then senderLevel > UserPowerLevel(target, powerLevels, create)
          else true
      else if ev.kind == POWER_LEVELS then senderLevel >= LevelToSetPowerLevels(powerLevels)
      else
        var member := StateEvent(MemberTuple(ev.sender), state, events);
        if member.None? || member.value.content.membership != Some("join") then false
        else senderLevel >= LevelToSend(ev.kind, powerLevels)
  }

  /** The state entries an authorization decision may depend on. */
  function AuthReads(ev: Event): set<StateTuple> {
    if ev.kind == CREATE then {}
    else if ev.kind == MEMBER || ev.kind == POWER_LEVELS then {POWER_LEVELS_TUPLE, CREATE_TUPLE}
    else {POWER_LEVELS_TUPLE, CREATE_TUPLE, MemberTuple(ev.sender)}
  }

  /** Two states that agree on what an event reads give it the same verdict. */
  lemma CheckAuthFrame(ev: Event, s1: StateMap, s2: StateMap, events: map<EventId, Event>)
    requires forall t | t in AuthReads(ev) :: Get(s1, t) == Get(s2, t)
    ensures CheckAuth(ev, s1, events) == CheckAuth(ev, s2, events)
  {
    forall t | t in AuthReads(ev)
      ensures StateEvent(t, s1, events) == StateEvent(t, s2, events)
    {
      assert Get(s1, t) == Get(s2, t);
    }
  }

  /** The state points the entry at a known event, and this is it. */
  ghost predicate EntryIs(state: StateMap, events: map<EventId, Event>, kind: string, stateKey: string, ev: Event) {
    var t := StateTuple(kind, stateKey);
    t in state && state[t] in events && events[state[t]] == ev
  }

  ghost predicate IsJoined(state: StateMap, events: map<EventId, Event>, user: UserId) {
    exists m :: EntryIs(state, events, "m.room.member", user, m) && m.content.membership == Some("join")
  }

  /** A create event is authorized whatever the state. */
  lemma CreateIsAuthorized(ev: Event, state: StateMap, events: map<EventId, Event>)
    requires ev.kind == "m.room.create"
    ensures CheckAuth(ev, state, events)
  {
  }

  /**
   An ordinary state event is authorized iff its sender is joined and has the level: the listed one
   or else the default, against the one listed for the type, or else a non-zero default, or else 50.
   */
  lemma OrdinaryVerdictIff(ev: Event, state: StateMap, events: map<EventId, Event>, pl: Event)
    requires EntryIs(state, events, "m.room.power_levels", "", pl)
    requires ev.kind !in {"m.room.create", "m.room.member", "m.room.power_levels"}
    ensures var have := match pl.content.levels
                        case None => 0
                        case Some(l) => if ev.sender in l.users then l.users[ev.sender] else l.usersDefault;
      var need := match pl.content.thresholds
                  case None => 50
                  case Some(t) =>
                    if ev.kind in t.events then t.events[ev.kind]
                    else if t.stateDefault != 0 then t.stateDefault
                    else 50;
      CheckAuth(ev, state, events) <==> IsJoined(state, events, ev.sender) && have >= need
  {
    var t := StateTuple("m.room.member", ev.sender);
    if t in state && state[t] in events {
      assert EntryIs(state, events, "m.room.member", ev.sender, events[state[t]]);
    }
  }

  /** New power levels need the level listed for them, or else a positive default, or else 100, joined or not. */
  lemma PowerLevelsVerdictIff(ev: Event, state: StateMap, events: map<EventId, Event>, pl: Event)
    requires EntryIs(state, events, "m.room.power_levels", "", pl)
    requires ev.kind == "m.room.power_levels"
    ensures var have := match pl.content.levels
                        case None => 0
                        case Some(l) => if ev.sender in l.users then l.users[ev.sender] else l.usersDefault;
      var need := match pl.content.thresholds
                  case None => 100
                  case Some(t) =>
                    if "m.room.power_levels" in t.events then t.events["m.room.power_levels"]
                    else if t.stateDefault > 0 then t.stateDefault
                    else 100;
      CheckAuth(ev, state, events) <==> have >= need
  {
  }

  /** A membership of somebody else needs a level strictly above theirs; a missing state key names the empty user. */
  lemma MembershipOfOthersVerdictIff(ev: Event, state: StateMap, events: map<EventId, Event>, pl: Event, target: UserId)
    requires EntryIs(state, events, "m.room.power_levels", "", pl)
    requires ev.kind == "m.room.member" && ev.content.membership.Some?
    requires target != ev.sender && (ev.stateKey == Some(target) || (ev.stateKey == None && target == ""))
    ensures var have := match pl.content.levels
                        case None => 0
                        case Some(l) => if ev.sender in l.users then l.users[ev.sender] else l.usersDefault;
      var theirs := match pl.content.levels
                    case None => 0
                    case Some(l) => if target in l.users then l.users[target] else l.usersDefault;
      CheckAuth(ev, state, events) <==> have > theirs
  {
  }

  /** A membership of one's own is authorized iff its body decodes: joining, leaving and anything else. */
  lemma OwnMembershipVerdictIff(ev: Event, state: StateMap, events: map<EventId, Event>)
    requires ev.kind == "m.room.member"
    requires ev.stateKey == Some(ev.sender) || (ev.stateKey == None && ev.sender == "") || ev.content.membership.None?
    ensures CheckAuth(ev, state, events) <==> ev.content.membership.Some?
  {
  }

  /**
   While the state names no known power-levels event, nobody but the room's creator may act: a
   member event about someone else, new power levels, or, once joined, any other state.
   */
  lemma OnlyTheCreatorActsAtFirst(ev: Event, state: StateMap, events: map<EventId, Event>)
    requires forall pl :: !EntryIs(state, events, "m.room.power_levels", "", pl)
    requires ev.kind != "m.room.create"
    requires ev.kind == "m.room.member"
        ==> ev.content.membership.Some? && ev.stateKey != Some(ev.sender) && (ev.stateKey.None? ==> ev.sender != "")
    ensures CheckAuth(ev, state, events) <==>
            && (exists create :: EntryIs(state, events, "m.room.create", "", create) && create.sender == ev.sender)
            && (ev.kind !in {"m.room.member", "m.room.power_levels"} ==> IsJoined(state, events, ev.sender))
  {
    var t := StateTuple("m.room.member", ev.sender);
    if t in state && state[t] in events {
      assert EntryIs(state, events, "m.room.member", ev.sender, events[state[t]]);
    }
    if POWER_LEVELS_TUPLE in state && state[POWER_LEVELS_TUPLE] in events {
      assert EntryIs(state, events, "m.room.power_levels", "", events[state[POWER_LEVELS_TUPLE]]);
    }
    if CREATE_TUPLE in state && state[CREATE_TUPLE] in events {
      assert EntryIs(state, events, "m.room.create", "", events[state[CREATE_TUPLE]]);
    }
    assert StateEvent(POWER_LEVELS_TUPLE, state, events).None?;
  }

  /** Of two users, at most one may change the other's membership. */
  lemma ActingOnOthersIsAsymmetric(a: Event, b: Event, state: StateMap, events: map<EventId, Event>)
    requires a.kind == "m.room.member" && b.kind == "m.room.member" && a.sender != b.sender
    requires a.stateKey == Some(b.sender) && b.stateKey == Some(a.sender)
    ensures !(CheckAuth(a, state, events) && CheckAuth(b, state, events))
  {
  }
}
