/**
 Creation of a room: the genesis list is built from the request, linked, and written in one
 transaction that moves the tips only once. The new room satisfies the graph invariant and the
 membership index from the start.
 */
module RoomCreation {
  import opened Events
  import opened RoomStore
  import opened Genesis
  import RoomDag
  import Index = MembershipIndex
  import Services = RoomServices

  datatype CustomState = CustomState(kind: string, stateKey: Option<string>, content: Content)

  /** `profile` is the creator's display name and avatar, as the join event shows them. */
  datatype RoomRequest = RoomRequest(
    roomId: string, serverName: string, creator: UserId, profile: string, version: string, name: string, topic: string,
    alias: string, preset: Option<string>, custom: seq<CustomState>, ts: int)

  /** A body of plain text fields: it decodes into every structure, with nothing set. */
  function Plain(rest: string): Content {
    Content(Some(UserLevels(map[], 0)), Some(Thresholds(map[], 0)), Some(InviteLevels(map[], None, None)), Some(""),
      None, rest)
  }

  function CreatorLevels(creator: UserId): Content {
    Content(
      Some(UserLevels(map[creator := 100], 0)),
      Some(Thresholds(map["m.room.name" := 50, POWER_LEVELS := 100], 50)),
      Some(InviteLevels(map[creator := 100], Some(0), Some(0))),
      Some(""), None, "")
  }

  function StateDraft(req: RoomRequest, kind: string, stateKey: string, content: Content): Event {
    Services.Template(req.roomId, req.creator, kind, Some(stateKey), content, req.ts)
  }

  /** Types the request's own state list may not use. */
  predicate IsProtected(kind: string) {
    kind in {CREATE, MEMBER, POWER_LEVELS, JOIN_RULES, "m.room.history_visibility", "m.room.name", "m.room.topic",
      "m.room.canonical_alias"}
  }

  function CustomDrafts(req: RoomRequest, custom: seq<CustomState>): seq<Event> {
    if custom == [] then []
    else
      var init, c := CustomDrafts(req, custom[..|custom| - 1]), custom[|custom| - 1];
      if IsProtected(c.kind) then init
      else init + [StateDraft(req, c.kind, if c.stateKey.Some? then c.stateKey.value else "", c.content)]
  }

  function JoinDraft(req: RoomRequest): Event {
    StateDraft(req, MEMBER, req.creator, Plain(req.profile).(membership := Some("join")))
  }

  function Optional(present: bool, ev: Event): seq<Event> {
    if present then [ev] else []
  }

  function JoinRule(preset: Option<string>): string {
    if preset == Some("public_chat") then "public" else "invite"
  }

  function CoreDrafts(req: RoomRequest): seq<Event> {
    [StateDraft(req, CREATE, "", Plain(if req.version != "" then req.version else "11")),
     JoinDraft(req),
     StateDraft(req, POWER_LEVELS, "", CreatorLevels(req.creator)),
     StateDraft(req, JOIN_RULES, "", Plain("").(joinRule := Some(JoinRule(req.preset))))]
  }

  function NamingDrafts(req: RoomRequest): seq<Event> {
    Optional(req.name != "", StateDraft(req, "m.room.name", "", Plain(req.name)))
    + Optional(req.topic != "", StateDraft(req, "m.room.topic", "", Plain(req.topic)))
    + Optional(
      req.alias != "",
      StateDraft(req, "m.room.canonical_alias", "", Plain("#" + req.alias + ":" + req.serverName)))
  }

  function Drafts(req: RoomRequest): seq<Event> {
    CoreDrafts(req) + (NamingDrafts(req) + CustomDrafts(req, req.custom))
  }

  ghost predicate Ordinary(list: seq<Event>, creator: UserId) {
    forall ev | ev in list :: ev.kind != MEMBER && ev.stateKey.Some? && ev.sender == creator
  }

  lemma {:induction false} CustomDraftsAreOrdinary(req: RoomRequest, custom: seq<CustomState>)
    ensures Ordinary(CustomDrafts(req, custom), req.creator)
  {
    if custom != [] {
      CustomDraftsAreOrdinary(req, custom[..|custom| - 1]);
    }
  }

  lemma NamingDraftsAreOrdinary(req: RoomRequest)
    ensures Ordinary(NamingDrafts(req), req.creator)
  {
  }

  /** The only member event of a genesis is the creator's join, in second place. */
  lemma OneMemberDraft(req: RoomRequest)
    ensures var d := Drafts(req);
      && |d| >= 4 && d[1] == JoinDraft(req)
      && forall i | 0 <= i < |d| ::
        d[i].stateKey.Some? && d[i].sender == req.creator && (d[i].kind == MEMBER ==> i == 1)
  {
    var d, core := Drafts(req), CoreDrafts(req);
    var rest := NamingDrafts(req) + CustomDrafts(req, req.custom);
    CustomDraftsAreOrdinary(req, req.custom);
    NamingDraftsAreOrdinary(req);
    assert Ordinary(rest, req.creator);
    CoreShape(req);
    CoreThenOrdinary(core, rest, req.creator);
  }

  lemma CoreShape(req: RoomRequest)
    ensures var c := CoreDrafts(req);
      && |c| == 4 && c[1] == JoinDraft(req)
      && forall i | 0 <= i < 4 :: c[i].stateKey.Some? && c[i].sender == req.creator && (c[i].kind == MEMBER ==> i == 1)
  {
  }

  lemma CoreThenOrdinary(core: seq<Event>, rest: seq<Event>, creator: UserId)
    requires |core| == 4 && Ordinary(rest, creator)
    requires forall i | 0 <= i < 4 ::
        core[i].stateKey.Some? && core[i].sender == creator && (core[i].kind == MEMBER ==> i == 1)
    ensures var d := core + rest;
      d[1] == core[1] && forall i | 0 <= i < |d| ::
        d[i].stateKey.Some? && d[i].sender == creator && (d[i].kind == MEMBER ==> i == 1)
  {
    var d := core + rest;
    forall i | 4 <= i < |d|
      ensures d[i] in rest
    {
      assert d[i] == rest[i - 4];
    }
  }

  // ---------------------------------------------------------------- the transaction

  /** Save each event and point the state at it. */
  function Written(db: Db, list: seq<Event>): Db {
    if list == [] then db
    else
      var last := list[|list| - 1];
      var d := Saved(Written(db, list[..|list| - 1]), last);
      if last.stateKey.Some? then WithState(d, TupleOf(last), last.id) else d
  }

  function Created(list: seq<Event>, creator: UserId, joinId: EventId): Db
    requires list != []
  {
    var last := list[|list| - 1];
    WithMember(Advanced(Written(EMPTY_DB, list), last.id, last.prevEvents), creator, "join", joinId)
  }

  method SaveGenesis(tables: RoomTables, list: seq<Event>)
    requires tables.Snapshot() == EMPTY_DB
    modifies tables
    ensures tables.Snapshot() == Written(EMPTY_DB, list)
  {
    for i := 0 to |list|
      invariant tables.Snapshot() == Written(EMPTY_DB, list[..i])
    {
      assert list[..i + 1][..i] == list[..i];
      tables.SaveEvent(list[i]);
      if list[i].stateKey.Some? {
        tables.UpsertCurrentState(list[i].kind, list[i].stateKey.value, list[i].id);
      }
    }
    assert list[..|list|] == list;
  }

  /** Link a list of drafts in an array of its own. */
  method LinkDrafts(drafts: seq<Event>, hash: Event -> EventId, sign: Event -> string) returns (list: seq<Event>)
    requires Linkable(drafts)
    ensures list == Linked(drafts, hash, sign)
  {
    var events := new Event[|drafts|](i requires 0 <= i < |drafts| => drafts[i]);
    assert events[..] == drafts;
    LinkAndHashGenesis(events, hash, sign);
    list := events[..];
  }

  /** `tables` holds no row of the new room yet. What the room then says is stated for hashes that tell events apart. */
  method CreateRoom(tables: RoomTables, req: RoomRequest, hash: Event -> EventId, sign: Event -> string)
    requires tables.Snapshot() == EMPTY_DB
    modifies tables
    ensures |Drafts(req)| >= 4
    ensures var l := Linked(Drafts(req), hash, sign); tables.Snapshot() == Created(l, req.creator, l[1].id)
    ensures Injective(hash) ==> RoomSays(tables.Snapshot(), req)
  {
    OneMemberDraft(req);
    var list := LinkDrafts(Drafts(req), hash, sign);
    if Injective(hash) {
      CreatedRoomSays(req, hash, sign, list);
    }
    SaveGenesis(tables, list);
    var last := list[|list| - 1];
    tables.UpdateForwardExtremities(last.id, last.prevEvents);
    tables.UpsertMembership(req.creator, "join", list[1].id);
  }

  // ---------------------------------------------------------------- what the new room says

  ghost function KeyOf(c: CustomState): string {
    if c.stateKey.Some? then c.stateKey.value else ""
  }

  /** The request's own state list may set anything but these. */
  ghost predicate MaySet(c: CustomState) {
    c.kind !in {
      "m.room.create", "m.room.member", "m.room.power_levels", "m.room.join_rules", "m.room.history_visibility",
      "m.room.name", "m.room.topic", "m.room.canonical_alias"}
  }

  ghost predicate RequestedByName(req: RoomRequest, t: StateTuple) {
    || t in {StateTuple("m.room.create", ""), StateTuple("m.room.member", req.creator),
             StateTuple("m.room.power_levels", ""), StateTuple("m.room.join_rules", "")}
    || (t == StateTuple("m.room.name", "") && req.name != "")
    || (t == StateTuple("m.room.topic", "") && req.topic != "")
    || (t == StateTuple("m.room.canonical_alias", "") && req.alias != "")
  }

  /** The tuples a request asks for. */
  ghost predicate Requested(req: RoomRequest, t: StateTuple) {
    || RequestedByName(req, t)
    || exists c :: c in req.custom && MaySet(c) && t == StateTuple(c.kind, KeyOf(c))
  }

  /** The state has the entry, and it names a stored event of that tuple, sent by the creator, with this body. */
  ghost predicate Says(d: Db, req: RoomRequest, kind: string, stateKey: string, body: Content) {
    var t := StateTuple(kind, stateKey);
    && t in d.state && d.state[t] in d.events
    && var ev := d.events[d.state[t]];
      && ev.kind == kind && ev.stateKey == Some(stateKey) && ev.sender == req.creator && ev.roomId == req.roomId
      && ev.originTs == req.ts && ev.content == body && ev.redacts == "" && ev.hashes == "" && ev.unsigned == ""
  }

  /** A body that sets no level, membership or rule. */
  ghost predicate IsText(body: Content, text: string) {
    && body.levels == Some(UserLevels(map[], 0)) && body.thresholds == Some(Thresholds(map[], 0))
    && body.inviteLevels == Some(InviteLevels(map[], None, None)) && body.membership == Some("")
    && body.joinRule == None && body.rest == text
  }

  ghost predicate SaysText(d: Db, req: RoomRequest, kind: string, text: string) {
    exists body :: Says(d, req, kind, "", body) && IsText(body, text)
  }

  ghost predicate SaysJoined(d: Db, req: RoomRequest) {
    exists body :: Says(d, req, "m.room.member", req.creator, body)
      && body.membership == Some("join") && body.rest == req.profile
  }

  /** The creator has level 100 and everybody else 0; state needs 50, new power levels 100, an invite nothing. */
  ghost predicate SaysLevels(d: Db, req: RoomRequest) {
    exists body :: Says(d, req, "m.room.power_levels", "", body)
      && body.levels == Some(UserLevels(map[req.creator := 100], 0))
      && body.thresholds == Some(Thresholds(map["m.room.name" := 50, "m.room.power_levels" := 100], 50))
      && body.inviteLevels == Some(InviteLevels(map[req.creator := 100], Some(0), Some(0)))
  }

  /** Everybody may join under the public preset, the invited under any other and under none. */
  ghost predicate SaysJoinRule(d: Db, req: RoomRequest) {
    exists body :: Says(d, req, "m.room.join_rules", "", body)
      && body.joinRule == Some(if req.preset == Some("public_chat") then "public" else "invite")
  }

  ghost predicate SaysNames(d: Db, req: RoomRequest) {
    && (req.name != "" ==> SaysText(d, req, "m.room.name", req.name))
    && (req.topic != "" ==> SaysText(d, req, "m.room.topic", req.topic))
    && (req.alias != "" ==> SaysText(d, req, "m.room.canonical_alias", "#" + req.alias + ":" + req.serverName))
  }

  /** No later element of the state list sets the same tuple. */
  ghost predicate LastOfItsTuple(custom: seq<CustomState>, i: nat)
    requires i < |custom|
  {
    && MaySet(custom[i])
    && forall j | i < j < |custom| && MaySet(custom[j]) ::
      custom[j].kind != custom[i].kind || KeyOf(custom[j]) != KeyOf(custom[i])
  }

  ghost predicate SaysCustom(d: Db, req: RoomRequest) {
    forall i | 0 <= i < |req.custom| && LastOfItsTuple(req.custom, i) ::
      Says(d, req, req.custom[i].kind, KeyOf(req.custom[i]), req.custom[i].content)
  }

  /** What the tables of a new room say, against what was asked for. */
  ghost predicate RoomSays(d: Db, req: RoomRequest) {
    && (forall t :: t in d.state <==> Requested(req, t))
    && SaysText(d, req, "m.room.create", if req.version != "" then req.version else "11")
    && SaysJoined(d, req) && SaysLevels(d, req) && SaysJoinRule(d, req) && SaysNames(d, req) && SaysCustom(d, req)
  }

  /** The draft of an element of the state list. */
  ghost function DraftOf(req: RoomRequest, c: CustomState): Event {
    StateDraft(req, c.kind, KeyOf(c), c.content)
  }

  lemma {:induction false} CustomDraftsAre(req: RoomRequest, custom: seq<CustomState>, ev: Event)
    returns (c: CustomState)
    requires ev in CustomDrafts(req, custom)
    ensures c in custom && MaySet(c) && ev == DraftOf(req, c)
  {
    var k := |custom| - 1;
    if ev in CustomDrafts(req, custom[..k]) {
      c := CustomDraftsAre(req, custom[..k], ev);
    } else {
      c := custom[k];
    }
  }

  ghost predicate FromLater(req: RoomRequest, custom: seq<CustomState>, i: nat, ev: Event) {
    exists j :: i < j < |custom| && MaySet(custom[j]) && ev == DraftOf(req, custom[j])
  }

  lemma FromLaterExtends(req: RoomRequest, custom: seq<CustomState>, i: nat, ev: Event)
    requires custom != [] && FromLater(req, custom[..|custom| - 1], i, ev)
    ensures FromLater(req, custom, i, ev)
  {
    var init := custom[..|custom| - 1];
    var j :| i < j < |init| && MaySet(init[j]) && ev == DraftOf(req, init[j]);
    assert custom[j] == init[j];
  }

  lemma {:induction false} CustomAt(req: RoomRequest, custom: seq<CustomState>, i: nat) returns (p: nat)
    requires i < |custom| && MaySet(custom[i])
    ensures var drafts := CustomDrafts(req, custom);
      && p < |drafts| && drafts[p] == DraftOf(req, custom[i])
      && forall q | p < q < |drafts| :: FromLater(req, custom, i, drafts[q])
  {
    var k := |custom| - 1;
    var init, drafts := CustomDrafts(req, custom[..k]), CustomDrafts(req, custom);
    if i == k {
      p := |init|;
    } else {
      p := CustomAt(req, custom[..k], i);
      forall q | p < q < |drafts|
        ensures FromLater(req, custom, i, drafts[q])
      {
        if q < |init| {
          assert drafts[q] == init[q];
          FromLaterExtends(req, custom, i, init[q]);
        } else {
          assert MaySet(custom[k]) && drafts[q] == DraftOf(req, custom[k]);
        }
      }
    }
  }

  /** Position by position, a list is its drafts with links, ID and signature filled in. */
  ghost predicate Completes(l: seq<Event>, drafts: seq<Event>) {
    && |l| == |drafts|
    && forall i | 0 <= i < |l| :: l[i] == drafts[i].(prevEvents := l[i].prevEvents, authEvents := l[i].authEvents,
      depth := l[i].depth, id := l[i].id, signatures := l[i].signatures)
  }

  /** What the request's drafts have in common. */
  ghost predicate Drafted(req: RoomRequest, drafts: seq<Event>) {
    forall ev | ev in drafts :: ev.stateKey.Some? && ev == StateDraft(req, ev.kind, ev.stateKey.value, ev.content)
  }

  lemma SaidAt(req: RoomRequest, drafts: seq<Event>, l: seq<Event>, d: Db, i: nat)
    requires Drafted(req, drafts) && Completes(l, drafts) && Holds(d, l) && i < |l|
    requires Get(d.state, TupleOf(l[i])) == Some(l[i].id)
    ensures Says(d, req, drafts[i].kind, drafts[i].stateKey.value, drafts[i].content)
  {
    assert drafts[i] in drafts;
    assert d.events[l[i].id] == l[i];
  }

  lemma {:induction false} LastEntry(list: seq<Event>, i: nat)
    requires i < |list| && list[i].stateKey.Some?
    requires forall j | i < j < |list| :: TupleOf(list[j]) != TupleOf(list[i])
    ensures Get(StateOf(list), TupleOf(list[i])) == Some(list[i].id)
    decreases |list|
  {
    var k := |list| - 1;
    if i < k {
      LastEntry(list[..k], i);
    }
  }

  /** The only draft of its tuple is what the state says. */
  lemma SaidOnce(req: RoomRequest, drafts: seq<Event>, l: seq<Event>, d: Db, ev: Event)
    requires Drafted(req, drafts) && Completes(l, drafts) && Holds(d, l) && d.state == StateOf(l)
    requires ev in drafts && forall e | e in drafts && TupleOf(e) == TupleOf(ev) :: e == ev
    ensures Says(d, req, ev.kind, ev.stateKey.value, ev.content)
  {
    var i :| 0 <= i < |drafts| && drafts[i] == ev;
    NamedIsEntry(l, l[i]);
    var e := EntryIsNamed(l, TupleOf(l[i]));
    var j :| 0 <= j < |l| && l[j] == e;
    assert drafts[j] in drafts && TupleOf(drafts[j]) == TupleOf(ev);
    SaidAt(req, drafts, l, d, j);
  }

  lemma CoreAndNamingAre(req: RoomRequest, ev: Event)
    requires ev in CoreDrafts(req) || ev in NamingDrafts(req)
    ensures ev.stateKey.Some? && ev == StateDraft(req, ev.kind, ev.stateKey.value, ev.content)
    ensures ev.kind in {
      "m.room.create", "m.room.member", "m.room.power_levels", "m.room.join_rules", "m.room.name", "m.room.topic",
      "m.room.canonical_alias"}
    ensures Requested(req, TupleOf(ev))
  {
  }

  /** The drafts that are not from the request's own list are told apart by their types. */
  ghost function FixedDraft(req: RoomRequest, kind: string): Event {
    if kind == "m.room.create" then CoreDrafts(req)[0]
    else if kind == "m.room.member" then CoreDrafts(req)[1]
    else if kind == "m.room.power_levels" then CoreDrafts(req)[2]
    else if kind == "m.room.join_rules" then CoreDrafts(req)[3]
    else if kind == "m.room.name" then StateDraft(req, kind, "", Plain(req.name))
    else if kind == "m.room.topic" then StateDraft(req, kind, "", Plain(req.topic))
    else StateDraft(req, kind, "", Plain("#" + req.alias + ":" + req.serverName))
  }

  lemma CoreByKind(req: RoomRequest, ev: Event)
    requires ev in CoreDrafts(req)
    ensures ev == FixedDraft(req, ev.kind)
  {
    var k :| 0 <= k < 4 && CoreDrafts(req)[k] == ev;
    if k == 0 {
      assert ev.kind == CREATE;
    } else if k == 1 {
      assert ev.kind == MEMBER;
    } else if k == 2 {
      assert ev.kind == POWER_LEVELS;
    } else {
      assert ev.kind == JOIN_RULES;
    }
  }

  lemma NamingByKind(req: RoomRequest, ev: Event)
    requires ev in NamingDrafts(req)
    ensures ev == FixedDraft(req, ev.kind)
  {
    assert ev.kind in {"m.room.name", "m.room.topic", "m.room.canonical_alias"};
  }

  lemma FixedByKind(req: RoomRequest, ev: Event)
    requires ev in CoreDrafts(req) || ev in NamingDrafts(req)
    ensures ev == FixedDraft(req, ev.kind)
  {
    if ev in CoreDrafts(req) {
      CoreByKind(req, ev);
    } else {
      NamingByKind(req, ev);
    }
  }

  lemma DraftsSplit(req: RoomRequest, ev: Event)
    ensures ev in Drafts(req) <==>
            ev in CoreDrafts(req) || ev in NamingDrafts(req) || ev in CustomDrafts(req, req.custom)
  {
  }

  lemma DraftsAreDrafted(req: RoomRequest)
    ensures Drafted(req, Drafts(req))
  {
    forall ev | ev in Drafts(req)
      ensures ev.stateKey.Some? && ev == StateDraft(req, ev.kind, ev.stateKey.value, ev.content)
    {
      DraftsSplit(req, ev);
      if ev in CustomDrafts(req, req.custom) {
        var c := CustomDraftsAre(req, req.custom, ev);
      } else {
        CoreAndNamingAre(req, ev);
      }
    }
  }

  /** No element of the request's own list has the type of another draft. */
  lemma SameKindIsFixed(req: RoomRequest, e: Event, ev: Event)
    requires e in Drafts(req) && (ev in CoreDrafts(req) || ev in NamingDrafts(req)) && e.kind == ev.kind
    ensures e in CoreDrafts(req) || e in NamingDrafts(req)
  {
    DraftsSplit(req, e);
    CoreAndNamingAre(req, ev);
    if e in CustomDrafts(req, req.custom) {
      var c := CustomDraftsAre(req, req.custom, e);
    }
  }

  lemma FixedDraftIsSaid(req: RoomRequest, l: seq<Event>, d: Db, ev: Event)
    requires Completes(l, Drafts(req)) && Holds(d, l) && d.state == StateOf(l)
    requires ev in CoreDrafts(req) || ev in NamingDrafts(req)
    ensures Says(d, req, ev.kind, ev.stateKey.value, ev.content)
  {
    DraftsAreDrafted(req);
    DraftsSplit(req, ev);
    FixedByKind(req, ev);
    forall e | e in Drafts(req) && TupleOf(e) == TupleOf(ev)
      ensures e == ev
    {
      SameKindIsFixed(req, e, ev);
      FixedByKind(req, e);
    }
    SaidOnce(req, Drafts(req), l, d, ev);
  }

  lemma LaterHasAnotherTuple(req: RoomRequest, i: nat, ev: Event)
    requires i < |req.custom| && LastOfItsTuple(req.custom, i) && FromLater(req, req.custom, i, ev)
    ensures TupleOf(ev) != TupleOf(DraftOf(req, req.custom[i]))
  {
    var j :| i < j < |req.custom| && MaySet(req.custom[j]) && ev == DraftOf(req, req.custom[j]);
  }

  lemma CustomPosition(req: RoomRequest, drafts: seq<Event>, i: nat) returns (p: nat)
    requires drafts == Drafts(req) && i < |req.custom| && LastOfItsTuple(req.custom, i)
    ensures p < |drafts| && drafts[p] == DraftOf(req, req.custom[i])
    ensures forall q | p < q < |drafts| :: TupleOf(drafts[q]) != TupleOf(drafts[p])
  {
    var own := CustomDrafts(req, req.custom);
    var k := CustomAt(req, req.custom, i);
    var n := |drafts| - |own|;
    p := n + k;
    OwnPart(req, k);
    forall q | p < q < |drafts|
      ensures TupleOf(drafts[q]) != TupleOf(drafts[p])
    {
      OwnPart(req, q - n);
      LaterHasAnotherTuple(req, i, own[q - n]);
    }
  }

  lemma OwnPart(req: RoomRequest, k: nat)
    requires k < |CustomDrafts(req, req.custom)|
    ensures var own := CustomDrafts(req, req.custom); Drafts(req)[|Drafts(req)| - |own| + k] == own[k]
  {
  }

  lemma CustomIsSaid(req: RoomRequest, l: seq<Event>, d: Db, i: nat)
    requires Completes(l, Drafts(req)) && Holds(d, l) && d.state == StateOf(l)
    requires i < |req.custom| && LastOfItsTuple(req.custom, i)
    ensures Says(d, req, req.custom[i].kind, KeyOf(req.custom[i]), req.custom[i].content)
  {
    DraftsAreDrafted(req);
    var p := CustomPosition(req, Drafts(req), i);
    SaidLast(req, Drafts(req), l, d, p);
  }

  lemma SaidLast(req: RoomRequest, drafts: seq<Event>, l: seq<Event>, d: Db, p: nat)
    requires Drafted(req, drafts) && Completes(l, drafts) && Holds(d, l) && d.state == StateOf(l)
    requires p < |drafts| && forall q | p < q < |drafts| :: TupleOf(drafts[q]) != TupleOf(drafts[p])
    ensures Says(d, req, drafts[p].kind, drafts[p].stateKey.value, drafts[p].content)
  {
    assert drafts[p] in drafts;
    forall q | p < q < |l|
      ensures TupleOf(l[q]) != TupleOf(l[p])
    {
      assert TupleOf(l[q]) == TupleOf(drafts[q]);
    }
    LastEntry(l, p);
    SaidAt(req, drafts, l, d, p);
  }

  lemma EntriesAreRequested(req: RoomRequest, l: seq<Event>, d: Db, t: StateTuple)
    requires Completes(l, Drafts(req)) && d.state == StateOf(l) && t in d.state
    ensures Requested(req, t)
  {
    var e := EntryIsNamed(l, t);
    var j :| 0 <= j < |l| && l[j] == e;
    var ev := Drafts(req)[j];
    assert ev in Drafts(req) && TupleOf(ev) == t;
    DraftsSplit(req, ev);
    if ev in CustomDrafts(req, req.custom) {
      var c := CustomDraftsAre(req, req.custom, ev);
    } else {
      CoreAndNamingAre(req, ev);
    }
  }

  lemma CreateIsSaid(req: RoomRequest, l: seq<Event>, d: Db)
    requires Completes(l, Drafts(req)) && Holds(d, l) && d.state == StateOf(l)
    ensures SaysText(d, req, "m.room.create", if req.version != "" then req.version else "11")
  {
    var ev := StateDraft(req, CREATE, "", Plain(if req.version != "" then req.version else "11"));
    assert ev == CoreDrafts(req)[0];
    FixedDraftIsSaid(req, l, d, ev);
  }

  lemma JoinIsSaid(req: RoomRequest, l: seq<Event>, d: Db)
    requires Completes(l, Drafts(req)) && Holds(d, l) && d.state == StateOf(l)
    ensures SaysJoined(d, req)
  {
    assert JoinDraft(req) == CoreDrafts(req)[1];
    FixedDraftIsSaid(req, l, d, JoinDraft(req));
  }

  lemma LevelsAreSaid(req: RoomRequest, l: seq<Event>, d: Db)
    requires Completes(l, Drafts(req)) && Holds(d, l) && d.state == StateOf(l)
    ensures SaysLevels(d, req)
  {
    var ev := StateDraft(req, POWER_LEVELS, "", CreatorLevels(req.creator));
    assert ev == CoreDrafts(req)[2];
    FixedDraftIsSaid(req, l, d, ev);
  }

  lemma JoinRuleIsSaid(req: RoomRequest, l: seq<Event>, d: Db)
    requires Completes(l, Drafts(req)) && Holds(d, l) && d.state == StateOf(l)
    ensures SaysJoinRule(d, req)
  {
    var ev := StateDraft(req, JOIN_RULES, "", Plain("").(joinRule := Some(JoinRule(req.preset))));
    assert ev == CoreDrafts(req)[3];
    FixedDraftIsSaid(req, l, d, ev);
  }

  lemma NamesAreSaid(req: RoomRequest, l: seq<Event>, d: Db)
    requires Completes(l, Drafts(req)) && Holds(d, l) && d.state == StateOf(l)
    ensures SaysNames(d, req)
  {
    if req.name != "" {
      FixedDraftIsSaid(req, l, d, StateDraft(req, "m.room.name", "", Plain(req.name)));
    }
    if req.topic != "" {
      FixedDraftIsSaid(req, l, d, StateDraft(req, "m.room.topic", "", Plain(req.topic)));
    }
    if req.alias != "" {
      var text := "#" + req.alias + ":" + req.serverName;
      FixedDraftIsSaid(req, l, d, StateDraft(req, "m.room.canonical_alias", "", Plain(text)));
    }
  }

  lemma OwnIsEntered(req: RoomRequest, l: seq<Event>, c: CustomState)
    requires Completes(l, Drafts(req)) && c in req.custom && MaySet(c)
    ensures StateTuple(c.kind, KeyOf(c)) in StateOf(l)
  {
    var i :| 0 <= i < |req.custom| && req.custom[i] == c;
    var p := CustomAt(req, req.custom, i);
    DraftsSplit(req, DraftOf(req, c));
    var j :| 0 <= j < |l| && Drafts(req)[j] == DraftOf(req, c);
    NamedIsEntry(l, l[j]);
  }

  lemma RequestedIsSaid(req: RoomRequest, l: seq<Event>, d: Db, t: StateTuple)
    requires Completes(l, Drafts(req)) && d.state == StateOf(l) && Requested(req, t)
    requires SaysText(d, req, "m.room.create", if req.version != "" then req.version else "11")
    requires SaysJoined(d, req) && SaysLevels(d, req) && SaysJoinRule(d, req) && SaysNames(d, req)
    ensures t in d.state
  {
    if !RequestedByName(req, t) {
      var c :| c in req.custom && MaySet(c) && t == StateTuple(c.kind, KeyOf(c));
      OwnIsEntered(req, l, c);
    }
  }

  lemma EntriesAreExactlyRequested(req: RoomRequest, l: seq<Event>, d: Db)
    requires Completes(l, Drafts(req)) && d.state == StateOf(l)
    requires SaysText(d, req, "m.room.create", if req.version != "" then req.version else "11")
    requires SaysJoined(d, req) && SaysLevels(d, req) && SaysJoinRule(d, req) && SaysNames(d, req)
    ensures forall t :: t in d.state <==> Requested(req, t)
  {
    forall t
      ensures t in d.state <==> Requested(req, t)
    {
      if t in d.state {
        EntriesAreRequested(req, l, d, t);
      }
      if Requested(req, t) {
        RequestedIsSaid(req, l, d, t);
      }
    }
  }

  lemma CompletedSays(req: RoomRequest, l: seq<Event>, d: Db)
    requires Completes(l, Drafts(req)) && Holds(d, l) && d.state == StateOf(l)
    ensures RoomSays(d, req)
  {
    CreateIsSaid(req, l, d);
    JoinIsSaid(req, l, d);
    LevelsAreSaid(req, l, d);
    JoinRuleIsSaid(req, l, d);
    NamesAreSaid(req, l, d);
    forall i | 0 <= i < |req.custom| && LastOfItsTuple(req.custom, i)
      ensures Says(d, req, req.custom[i].kind, KeyOf(req.custom[i]), req.custom[i].content)
    {
      CustomIsSaid(req, l, d, i);
    }
    EntriesAreExactlyRequested(req, l, d);
  }

  lemma LinkedCompletes(drafts: seq<Event>, hash: Event -> EventId, sign: Event -> string)
    ensures Completes(Linked(drafts, hash, sign), drafts)
  {
    var l := Linked(drafts, hash, sign);
    forall i | 0 <= i < |l|
      ensures l[i] == drafts[i].(prevEvents := l[i].prevEvents, authEvents := l[i].authEvents,
        depth := l[i].depth, id := l[i].id, signatures := l[i].signatures)
    {
      LinkedFields(drafts, hash, sign, i);
    }
  }

  /** The tables of a new room say what was asked for, and nothing else. */
  lemma CreatedRoomSays(req: RoomRequest, hash: Event -> EventId, sign: Event -> string, l: seq<Event>)
    requires Injective(hash) && l == Linked(Drafts(req), hash, sign)
    ensures |l| >= 4 && RoomSays(Created(l, req.creator, l[1].id), req)
  {
    OneMemberDraft(req);
    LinkedIsChain(Drafts(req), hash, sign, l);
    LinkedCompletes(Drafts(req), hash, sign);
    CreatedChainSays(req, l);
  }

  lemma CreatedChainSays(req: RoomRequest, l: seq<Event>)
    requires |l| >= 4 && Chain(l) && Completes(l, Drafts(req))
    ensures RoomSays(Created(l, req.creator, l[1].id), req)
  {
    WrittenHolds(l);
    var d := Created(l, req.creator, l[1].id);
    HoldsIgnoresTheRest(Written(EMPTY_DB, l), d, l);
    CompletedSays(req, l, d);
  }

  // ---------------------------------------------------------------- what the new room satisfies

  ghost predicate DistinctIds(list: seq<Event>) {
    forall i, j | 0 <= i < j < |list| :: list[i].id != list[j].id
  }

  /** Position by position, the tables hold the list. */
  ghost predicate Holds(d: Db, list: seq<Event>) {
    && |d.log| == |list|
    && (forall i | 0 <= i < |list| :: d.log[i] == list[i].id)
    && (forall i | 0 <= i < |list| :: list[i].id in d.events && d.events[list[i].id] == list[i])
    && (forall id | id in d.events :: exists i :: 0 <= i < |list| && list[i].id == id)
  }

  lemma WrittenStep(list: seq<Event>)
    requires list != []
    ensures var k := |list| - 1;
      var before, after := Written(EMPTY_DB, list[..k]), Written(EMPTY_DB, list);
      && (list[k].id !in before.events ==>
            after.log == before.log + [list[k].id] && after.events == before.events[list[k].id := list[k]])
      && after.state == (if list[k].stateKey.Some? then before.state[TupleOf(list[k]) := list[k].id] else before.state)
      && after.membership == before.membership && after.extremities == before.extremities
  {
  }

  lemma {:induction false} WrittenHolds(list: seq<Event>)
    requires DistinctIds(list)
    ensures Holds(Written(EMPTY_DB, list), list)
    ensures Written(EMPTY_DB, list).state == StateOf(list)
    ensures Written(EMPTY_DB, list).membership == map[] && Written(EMPTY_DB, list).extremities == {}
  {
    if list != [] {
      var k := |list| - 1;
      WrittenHolds(list[..k]);
      WrittenStep(list);
      NotHeldYet(Written(EMPTY_DB, list[..k]), list, k);
      HoldsSnoc(Written(EMPTY_DB, list[..k]), Written(EMPTY_DB, list), list, k);
    }
  }

  lemma NotHeldYet(before: Db, list: seq<Event>, k: nat)
    requires k < |list| && DistinctIds(list) && Holds(before, list[..k])
    ensures list[k].id !in before.events
  {
    forall id | id in before.events
      ensures id != list[k].id
    {
      var i :| 0 <= i < k && list[..k][i].id == id;
      assert list[i].id == id;
    }
  }

  ghost predicate HeldAt(d: Db, list: seq<Event>, i: nat)
    requires i < |list| && i < |d.log|
  {
    d.log[i] == list[i].id && list[i].id in d.events && d.events[list[i].id] == list[i]
  }

  lemma HeldAtSnoc(before: Db, after: Db, list: seq<Event>, k: nat, i: nat)
    requires i <= k && |list| == k + 1 && Holds(before, list[..k]) && list[k].id !in before.events
    requires after.log == before.log + [list[k].id] && after.events == before.events[list[k].id := list[k]]
    ensures HeldAt(after, list, i)
  {
    if i < k {
      assert list[..k][i] == list[i];
      assert list[i].id in before.events && before.events[list[i].id] == list[i];
    }
  }

  lemma IdSnoc(before: Db, list: seq<Event>, k: nat, id: EventId)
    requires |list| == k + 1 && Holds(before, list[..k]) && (id in before.events || id == list[k].id)
    ensures exists i :: 0 <= i < |list| && list[i].id == id
  {
    if id in before.events {
      var i :| 0 <= i < k && list[..k][i].id == id;
      assert list[i].id == id;
    } else {
      assert list[k].id == id;
    }
  }

  lemma HoldsSnoc(before: Db, after: Db, list: seq<Event>, k: nat)
    requires |list| == k + 1 && Holds(before, list[..k]) && list[k].id !in before.events
    requires after.log == before.log + [list[k].id] && after.events == before.events[list[k].id := list[k]]
    ensures Holds(after, list)
  {
    assert |after.log| == |list|;
    forall i | 0 <= i < |list|
      ensures after.log[i] == list[i].id && list[i].id in after.events && after.events[list[i].id] == list[i]
    {
      HeldAtSnoc(before, after, list, k, i);
    }
    forall id | id in after.events
      ensures exists i :: 0 <= i < |list| && list[i].id == id
    {
      IdSnoc(before, list, k, id);
    }
  }

  ghost predicate FollowsAt(list: seq<Event>, i: nat)
    requires i < |list|
  {
    list[i].depth == i && list[i].prevEvents == if i == 0 then [] else [list[i - 1].id]
  }

  /** The shape of a linked list: a chain of growing depth whose auth references stay inside it. */
  ghost predicate Chain(list: seq<Event>) {
    && list != [] && DistinctIds(list)
    && (forall i | 0 <= i < |list| :: FollowsAt(list, i))
    && (forall i, a | 0 <= i < |list| && a in list[i].authEvents :: exists j :: 0 <= j < i && list[j].id == a)
  }

  lemma LinkedIsChain(events: seq<Event>, hash: Event -> EventId, sign: Event -> string, l: seq<Event>)
    requires Injective(hash) && events != [] && l == Linked(events, hash, sign)
    ensures Chain(l)
  {
    forall i | 0 <= i < |l|
      ensures FollowsAt(l, i)
    {
      LinkedFields(events, hash, sign, i);
    }
    forall i, j | 0 <= i < j < |l|
      ensures l[i].id != l[j].id
    {
      LinkedIdsAreDistinct(events, hash, sign, i, j);
    }
    forall i, a | 0 <= i < |l| && a in l[i].authEvents
      ensures exists j :: 0 <= j < i && l[j].id == a
    {
      AuthEventsAreEarlier(events, hash, sign, l, i, a);
    }
  }

  lemma HeldPosition(list: seq<Event>, d: Db, id: EventId) returns (i: nat)
    requires Holds(d, list) && id in d.events
    ensures i < |list| && list[i].id == id && d.log[i] == id && d.events[id] == list[i]
  {
    i :| 0 <= i < |list| && list[i].id == id;
  }

  lemma PrevOfChain(list: seq<Event>, i: nat, p: EventId)
    requires Chain(list) && i < |list| && p in list[i].prevEvents
    ensures i > 0 && p == list[i - 1].id
  {
    assert FollowsAt(list, i);
  }

  lemma ChainRefersBackAt(list: seq<Event>, d: Db, i: nat, r: EventId)
    requires Chain(list) && Holds(d, list) && i < |d.log|
    requires r in d.events[d.log[i]].prevEvents || r in d.events[d.log[i]].authEvents
    ensures r in d.log[..i]
  {
    assert d.events[d.log[i]] == list[i];
    if r in list[i].prevEvents {
      PrevOfChain(list, i, r);
      assert d.log[..i][i - 1] == r;
    } else {
      var j :| 0 <= j < i && list[j].id == r;
      assert d.log[..i][j] == r;
    }
  }

  lemma ChainRefersBack(list: seq<Event>, d: Db)
    requires Chain(list) && Holds(d, list)
    ensures RoomDag.RefersBack(d)
  {
    assert Elems(d.log) == d.events.Keys by {
      forall id | id in d.events
        ensures id in d.log
      {
        var i := HeldPosition(list, d, id);
      }
    }
    forall i, r | 0 <= i < |d.log| && (r in d.events[d.log[i]].prevEvents || r in d.events[d.log[i]].authEvents)
      ensures r in d.log[..i]
    {
      ChainRefersBackAt(list, d, i, r);
    }
    forall i, j | 0 <= i < j < |d.log|
      ensures d.log[i] != d.log[j]
    {
      assert d.log[i] == list[i].id && d.log[j] == list[j].id;
    }
  }

  lemma ChainDeepens(list: seq<Event>, d: Db)
    requires Chain(list) && Holds(d, list)
    ensures RoomDag.Deepens(d) && RoomDag.Rooted(d)
  {
    forall x, p | x in d.events && p in d.events[x].prevEvents && p in d.events
      ensures d.events[p].depth < d.events[x].depth
    {
      var i := HeldPosition(list, d, x);
      PrevOfChain(list, i, p);
      assert FollowsAt(list, i - 1) && FollowsAt(list, i);
      assert d.events[p] == list[i - 1];
    }
    forall i | 0 <= i < |d.log| && d.log[i] in d.events
      ensures d.events[d.log[i]].prevEvents == [] <==> i == 0
    {
      assert d.events[d.log[i]] == list[i] && FollowsAt(list, i);
      assert i > 0 ==> |list[i].prevEvents| == 1;
    }
  }

  lemma InnerHasSuccessor(list: seq<Event>, d: Db, i: nat)
    requires Chain(list) && Holds(d, list) && i + 1 < |list|
    ensures RoomDag.HasSuccessor(list[i].id, d)
  {
    assert FollowsAt(list, i + 1) && list[i].id in list[i + 1].prevEvents;
    assert list[i + 1].id in d.events && d.events[list[i + 1].id] == list[i + 1];
  }

  /** The last event of the chain is its only leaf. */
  lemma ChainLeaf(list: seq<Event>, d: Db)
    requires Chain(list) && Holds(d, list)
    ensures RoomDag.Leaves(d) == {list[|list| - 1].id}
  {
    var k := |list| - 1;
    forall x, p | x in d.events && p in d.events[x].prevEvents
      ensures p != list[k].id
    {
      var i := HeldPosition(list, d, x);
      PrevOfChain(list, i, p);
    }
    forall id | id in d.events && id != list[k].id
      ensures RoomDag.HasSuccessor(id, d)
    {
      var i := HeldPosition(list, d, id);
      InnerHasSuccessor(list, d, i);
    }
    assert list[k].id in d.events;
  }

  /** Each entry of the state names the stored event of its tuple. */
  lemma StateNamesStored(list: seq<Event>, d: Db)
    requires Holds(d, list) && d.state == StateOf(list)
    ensures Index.StateMatches(d)
  {
    StateOfMeans(list);
    forall t | t in d.state
      ensures d.state[t] in d.events && TupleOf(d.events[d.state[t]]) == t && d.events[d.state[t]].stateKey.Some?
    {
      var ev :| ev in list && ev.id == StateOf(list)[t] && TupleOf(ev) == t && ev.stateKey.Some?;
      var i :| 0 <= i < |list| && list[i] == ev;
    }
    forall id | id in d.events
      ensures d.events[id].id == id
    {
      var i :| 0 <= i < |list| && list[i].id == id;
    }
  }

  /** The creator's row is the only one, and it is right. */
  lemma CreatorIsIndexed(list: seq<Event>, d: Db, creator: UserId)
    requires Holds(d, list) && d.state == StateOf(list) && |list| > 1
    requires forall i | 0 <= i < |list| :: list[i].kind == MEMBER ==> i == 1
    requires list[1].kind == MEMBER && list[1].stateKey == Some(creator) && list[1].content.membership == Some("join")
    requires d.membership == map[creator := MemberRow("join", list[1].id)]
    ensures Index.Indexed(d)
  {
    OnlyMemberEntry(list, creator);
    assert list[1].id in d.events && d.events[list[1].id] == list[1];
    forall u: UserId
      ensures Index.RightFor(d, u)
    {
      assert MemberTuple(u) in d.state <==> u == creator;
    }
  }

  lemma OnlyMemberEntry(list: seq<Event>, creator: UserId)
    requires |list| > 1 && forall i | 0 <= i < |list| :: list[i].kind == MEMBER ==> i == 1
    requires list[1].kind == MEMBER && list[1].stateKey == Some(creator)
    ensures forall u: UserId :: MemberTuple(u) in StateOf(list) <==> u == creator
    ensures StateOf(list)[MemberTuple(creator)] == list[1].id
  {
    StateOfMeans(list);
    assert list[1] in list && TupleOf(list[1]) == MemberTuple(creator);
    forall u: UserId | MemberTuple(u) in StateOf(list)
      ensures u == creator && StateOf(list)[MemberTuple(u)] == list[1].id
    {
      var ev :| ev in list && ev.id == StateOf(list)[MemberTuple(u)] && TupleOf(ev) == MemberTuple(u)
        && ev.stateKey.Some?;
      var i :| 0 <= i < |list| && list[i] == ev;
      assert i == 1;
    }
  }

  lemma LinkingKeepsBodies(drafts: seq<Event>, hash: Event -> EventId, sign: Event -> string, l: seq<Event>)
    requires l == Linked(drafts, hash, sign)
    ensures forall i | 0 <= i < |l| ::
        l[i].kind == drafts[i].kind && l[i].stateKey == drafts[i].stateKey && l[i].content == drafts[i].content
  {
    forall i | 0 <= i < |l|
      ensures l[i].kind == drafts[i].kind && l[i].stateKey == drafts[i].stateKey && l[i].content == drafts[i].content
    {
      LinkedFields(drafts, hash, sign, i);
    }
  }

  lemma HoldsIgnoresTheRest(d: Db, e: Db, list: seq<Event>)
    requires Holds(d, list) && e.log == d.log && e.events == d.events
    ensures Holds(e, list)
  {
  }

  /** The tables after writing a chain and its last tip. */
  lemma CreatedFromChain(l: seq<Event>, creator: UserId)
    requires Chain(l) && |l| > 1
    requires forall i | 0 <= i < |l| :: l[i].kind == MEMBER ==> i == 1
    requires l[1].kind == MEMBER && l[1].stateKey == Some(creator) && l[1].content.membership == Some("join")
    ensures var d := Created(l, creator, l[1].id); RoomDag.DagInv(d) && Index.StateMatches(d) && Index.Indexed(d)
  {
    WrittenHolds(l);
    var d := Created(l, creator, l[1].id);
    HoldsIgnoresTheRest(Written(EMPTY_DB, l), d, l);
    ChainRefersBack(l, d);
    ChainDeepens(l, d);
    ChainLeaf(l, d);
    assert d.extremities == RoomDag.Leaves(d);
    StateNamesStored(l, d);
    CreatorIsIndexed(l, d, creator);
  }

  /** A room starts with a well-formed graph, its only tip the last event, and an exact membership index. */
  lemma CreatedRoomIsWellFormed(
    req: RoomRequest, hash: Event -> EventId, sign: Event -> string, drafts: seq<Event>, l: seq<Event>)
    requires Injective(hash) && drafts == Drafts(req) && l == Linked(drafts, hash, sign)
    ensures |l| >= 4
    ensures var d := Created(l, req.creator, l[1].id); RoomDag.DagInv(d) && Index.StateMatches(d) && Index.Indexed(d)
  {
    OneMemberDraft(req);
    LinkedIsChain(drafts, hash, sign, l);
    LinkingKeepsBodies(drafts, hash, sign, l);
    CreatedFromChain(l, req.creator);
  }
}
