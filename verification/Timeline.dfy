/**
 The timeline half of /sync. The store is an append-only table of events in stream order and a
 membership table; a token is a position in the stream. The store grows between requests and also
 inside one: between the read of the events, the re-read after a long poll, and the read of the token.
 */
module Timeline {
  import opened Events
  import opened RoomStore
  import Inbox = ToDevice

  datatype Row = Row(ordering: int, event: Event)

  datatype MemberKey = MemberKey(user: UserId, room: string)

  /** `accountData` are the user's rooms with account data, `stateful` the rooms whose current state is non-empty. */
  datatype Store = Store(
    rows: seq<Row>, members: map<MemberKey, MemberRow>, accountData: set<MemberKey>, stateful: set<string>)

  const JOIN := "join"
  const INVITE := "invite"
  const LEAVE := "leave"

  // ---------------------------------------------------------------- queries

  function Select(rows: seq<Row>, p: Row -> bool): seq<Row> {
    if rows == [] then []
    else Select(rows[..|rows| - 1], p) + if p(rows[|rows| - 1]) then [rows[|rows| - 1]] else []
  }

  lemma {:induction false} SelectMeans(rows: seq<Row>, p: Row -> bool)
    ensures forall r :: r in Select(rows, p) <==> r in rows && p(r)
  {
    if rows != [] {
      var k := |rows| - 1;
      SelectMeans(rows[..k], p);
      assert rows == rows[..k] + [rows[k]];
    }
  }

  lemma {:induction false} SelectSame(rows: seq<Row>, p: Row -> bool, q: Row -> bool)
    requires forall r | r in rows :: p(r) == q(r)
    ensures Select(rows, p) == Select(rows, q)
  {
    if rows != [] {
      SelectSame(rows[..|rows| - 1], p, q);
    }
  }

  lemma {:induction false} SelectNone(rows: seq<Row>, p: Row -> bool)
    requires forall r | r in rows :: !p(r)
    ensures Select(rows, p) == []
  {
    if rows != [] {
      SelectNone(rows[..|rows| - 1], p);
    }
  }

  lemma {:induction false} SelectConcat(a: seq<Row>, b: seq<Row>, p: Row -> bool)
    ensures Select(a + b, p) == Select(a, p) + Select(b, p)
  {
    if b == [] {
      assert a + b == a;
    } else {
      var k := |b| - 1;
      assert (a + b)[..|a + b| - 1] == a + b[..k];
      SelectConcat(a, b[..k], p);
    }
  }

  /** Stream orderings start at one and grow strictly. */
  ghost predicate Increasing(rows: seq<Row>) {
    && (forall r | r in rows :: r.ordering > 0)
    && (forall i, j | 0 <= i < j < |rows| :: rows[i].ordering < rows[j].ordering)
  }

  lemma {:induction false} SelectKeepsOrder(rows: seq<Row>, p: Row -> bool)
    requires Increasing(rows)
    ensures Increasing(Select(rows, p))
  {
    if rows != [] {
      var k := |rows| - 1;
      SelectKeepsOrder(rows[..k], p);
      SelectMeans(rows[..k], p);
      forall r | r in rows[..k]
        ensures r.ordering < rows[k].ordering
      {
      }
    }
  }

  method Scan(rows: seq<Row>, p: Row -> bool) returns (out: seq<Row>)
    ensures out == Select(rows, p)
  {
    out := [];
    for k := 0 to |rows|
      invariant out == Select(rows[..k], p)
    {
      assert rows[..k + 1][..k] == rows[..k];
      if p(rows[k]) {
        out := out + [rows[k]];
      }
    }
    assert rows[..|rows|] == rows;
  }

  function MembershipOf(st: Store, user: UserId, room: string): string {
    if MemberKey(user, room) in st.members then st.members[MemberKey(user, room)].membership else ""
  }

  /** Rooms the user has joined or is invited to, and member events about the user. */
  predicate Concerns(st: Store, user: UserId, r: Row) {
    || MembershipOf(st, user, r.event.roomId) in {JOIN, INVITE}
    || (r.event.kind == MEMBER && r.event.stateKey == Some(user))
  }

  function VisibleAfter(st: Store, user: UserId, lo: int): Row -> bool {
    (r: Row) => r.ordering > lo && Concerns(st, user, r)
  }

  function InRoomAfter(room: string, lo: int): Row -> bool {
    (r: Row) => r.event.roomId == room && r.ordering > lo
  }

  function InRoomWithin(room: string, lo: int, hi: int): Row -> bool {
    (r: Row) => r.event.roomId == room && lo < r.ordering <= hi
  }

  function OfRoom(room: string): Row -> bool {
    (r: Row) => r.event.roomId == room
  }

  function InviteAfter(st: Store, user: UserId, lo: int): Row -> bool {
    (r: Row) => r.ordering > lo && IsInvite(st, user, r)
  }

  function Since(st: Store, user: UserId, since: int): seq<Row> {
    Select(st.rows, VisibleAfter(st, user, since))
  }

  function RoomSince(st: Store, user: UserId, room: string, since: int): seq<Row> {
    if MemberKey(user, room) in st.members then Select(st.rows, InRoomAfter(room, since)) else []
  }

  function OrderingOf(rows: seq<Row>, id: EventId): Option<int> {
    if rows == [] then None
    else if rows[0].event.id == id then Some(rows[0].ordering)
    else OrderingOf(rows[1..], id)
  }

  /** The stream position of the user's leave event, while the membership is a leave. */
  function LeaveBound(st: Store, user: UserId, room: string): Option<int> {
    if MembershipOf(st, user, room) != LEAVE then None
    else OrderingOf(st.rows, st.members[MemberKey(user, room)].eventId)
  }

  function RoomSinceLeft(st: Store, user: UserId, room: string, since: int): seq<Row> {
    match LeaveBound(st, user, room)
    case None => []
    case Some(bound) => Select(st.rows, InRoomWithin(room, since, bound))
  }

  predicate IsInvite(st: Store, user: UserId, r: Row) {
    exists k :: k in st.members && k.user == user && st.members[k] == MemberRow(INVITE, r.event.id)
  }

  function InvitesSince(st: Store, user: UserId, since: int): seq<Row> {
    Select(st.rows, InviteAfter(st, user, since))
  }

  function MaxOrdering(rows: seq<Row>): int {
    if rows == [] then 0
    else
      var m := MaxOrdering(rows[..|rows| - 1]);
      if rows[|rows| - 1].ordering > m then rows[|rows| - 1].ordering else m
  }

  function NextTimeline(st: Store, user: UserId, since: int): int {
    var visible := Since(st, user, since);
    if visible != [] then visible[|visible| - 1].ordering
    else if MaxOrdering(st.rows) > since then MaxOrdering(st.rows)
    else since
  }

  /**
   Rows are in stream order under distinct event IDs, and a membership row names a member event
   about that user in that room.
   */
  ghost predicate WellFormed(st: Store) {
    && Increasing(st.rows)
    && (forall r, q | r in st.rows && q in st.rows && r.event.id == q.event.id :: r == q)
    && (forall k, r | k in st.members && r in st.rows && r.event.id == st.members[k].eventId ::
          r.event.kind == MEMBER && r.event.stateKey == Some(k.user) && r.event.roomId == k.room)
  }

  // ---------------------------------------------------------------- what the queries mean, row by row

  /** The membership table says this about the user. */
  ghost predicate IsMember(st: Store, user: UserId, room: string, membership: string) {
    MemberKey(user, room) in st.members && st.members[MemberKey(user, room)].membership == membership
  }

  ghost predicate NewIn(st: Store, room: string, since: int, r: Row) {
    r in st.rows && r.event.roomId == room && r.ordering > since
  }

  /** A row above the token that some membership row of the user names as an invite. */
  ghost predicate NewInvite(st: Store, user: UserId, since: int, r: Row) {
    r in st.rows && r.ordering > since &&
    exists k :: k in st.members && k.user == user
      && st.members[k].membership == "invite" && st.members[k].eventId == r.event.id
  }

  /** A row of the room above the token and not after the user's leave event. */
  ghost predicate NewBeforeLeave(st: Store, user: UserId, room: string, since: int, r: Row) {
    IsMember(st, user, room, "leave") && NewIn(st, room, since, r) &&
    exists b :: b in st.rows && b.event.id == st.members[MemberKey(user, room)].eventId && r.ordering <= b.ordering
  }

  /** A row above the token in a room the user has joined or is invited to, or a member event about the user. */
  ghost predicate NewToUser(st: Store, user: UserId, since: int, r: Row) {
    && r in st.rows && r.ordering > since
    && (IsMember(st, user, r.event.roomId, "join") || IsMember(st, user, r.event.roomId, "invite")
        || (r.event.kind == "m.room.member" && r.event.stateKey == Some(user)))
  }

  ghost predicate InStreamOrder(st: Store, rows: seq<Row>) {
    Increasing(st.rows) ==> Increasing(rows)
  }

  /** Which joined rooms a request lists: all on a first sync, then those with something to say. */
  ghost predicate JoinedIsListed(st: Store, user: UserId, since: int, room: string) {
    IsMember(st, user, room, "join") &&
    (since == 0 || (exists r :: NewIn(st, room, since, r)) || MemberKey(user, room) in st.accountData)
  }

  ghost predicate LeftIsListed(st: Store, user: UserId, since: int, room: string) {
    IsMember(st, user, room, "leave") && (since == 0 || exists r :: NewBeforeLeave(st, user, room, since, r))
  }

  ghost predicate InviteIsListed(st: Store, user: UserId, since: int, room: string) {
    exists r :: NewInvite(st, user, since, r) && r.event.roomId == room
  }

  lemma SelectOrdered(st: Store, p: Row -> bool)
    ensures InStreamOrder(st, Select(st.rows, p))
  {
    if Increasing(st.rows) {
      SelectKeepsOrder(st.rows, p);
    }
  }

  /** A room's rows since a token, for a user with a membership row. */
  lemma RoomSinceMeans(st: Store, user: UserId, room: string, since: int)
    requires MemberKey(user, room) in st.members
    ensures forall r :: r in RoomSince(st, user, room, since) <==> NewIn(st, room, since, r)
    ensures InStreamOrder(st, RoomSince(st, user, room, since))
    ensures RoomSince(st, user, room, since) == [] <==> forall r :: !NewIn(st, room, since, r)
  {
    SelectMeans(st.rows, InRoomAfter(room, since));
    SelectOrdered(st, InRoomAfter(room, since));
    var rows := RoomSince(st, user, room, since);
    if rows != [] {
      assert rows[0] in rows;
    }
  }

  lemma ListsJoinedMeans(st: Store, user: UserId, since: int, room: string)
    ensures ListsJoined(st, user, since, room) <==> JoinedIsListed(st, user, since, room)
  {
    if MemberKey(user, room) in st.members {
      RoomSinceMeans(st, user, room, since);
    }
  }

  lemma {:induction false} OrderingOfIs(rows: seq<Row>, b: Row)
    requires b in rows && forall q | q in rows && q.event.id == b.event.id :: q == b
    ensures OrderingOf(rows, b.event.id) == Some(b.ordering)
  {
    if rows[0].event.id != b.event.id {
      OrderingOfIs(rows[1..], b);
    } else {
      assert rows[0] in rows;
    }
  }

  lemma RoomSinceLeftMeans(st: Store, user: UserId, room: string, since: int, r: Row)
    requires WellFormed(st)
    ensures r in RoomSinceLeft(st, user, room, since) <==> NewBeforeLeave(st, user, room, since, r)
  {
    var bound := LeaveBound(st, user, room);
    if bound.Some? {
      SelectMeans(st.rows, InRoomWithin(room, since, bound.value));
      OrderingOfMeans(st.rows, st.members[MemberKey(user, room)].eventId);
    }
    if NewBeforeLeave(st, user, room, since, r) {
      var b :| b in st.rows && b.event.id == st.members[MemberKey(user, room)].eventId && r.ordering <= b.ordering;
      OrderingOfIs(st.rows, b);
    }
  }

  lemma LeftRowsAre(st: Store, user: UserId, room: string, since: int)
    requires WellFormed(st)
    ensures forall r :: r in RoomSinceLeft(st, user, room, since) <==> NewBeforeLeave(st, user, room, since, r)
    ensures InStreamOrder(st, RoomSinceLeft(st, user, room, since))
    ensures ListsLeft(st, user, since, room) <==> LeftIsListed(st, user, since, room)
  {
    var rows, bound := RoomSinceLeft(st, user, room, since), LeaveBound(st, user, room);
    forall r
      ensures r in rows <==> NewBeforeLeave(st, user, room, since, r)
    {
      RoomSinceLeftMeans(st, user, room, since, r);
    }
    if bound.Some? {
      SelectOrdered(st, InRoomWithin(room, since, bound.value));
    }
    if rows != [] {
      assert rows[0] in rows;
    }
  }

  lemma InvitesMean(st: Store, user: UserId, since: int, room: string)
    ensures forall r ::
        r in InRoomOf(InvitesSince(st, user, since), room) <==>
        NewInvite(st, user, since, r) && r.event.roomId == room
    ensures InStreamOrder(st, InRoomOf(InvitesSince(st, user, since), room))
    ensures InRoomOf(InvitesSince(st, user, since), room) != [] <==> InviteIsListed(st, user, since, room)
  {
    var all := InvitesSince(st, user, since);
    var rows := InRoomOf(all, room);
    SelectMeans(st.rows, InviteAfter(st, user, since));
    SelectMeans(all, OfRoom(room));
    SelectOrdered(st, InviteAfter(st, user, since));
    forall r
      ensures r in all <==> NewInvite(st, user, since, r)
    {
      InviteRow(st, user, since, r);
    }
    if Increasing(st.rows) {
      SelectKeepsOrder(all, OfRoom(room));
    }
    if rows != [] {
      assert rows[0] in rows;
    }
  }

  lemma InviteRow(st: Store, user: UserId, since: int, r: Row)
    ensures r in st.rows && InviteAfter(st, user, since)(r) <==> NewInvite(st, user, since, r)
  {
  }

  /** The next position is that of the last row new to the user; with none, the old one or the end of the stream. */
  ghost predicate IsNext(st: Store, user: UserId, since: int, next: int) {
    if exists r :: NewToUser(st, user, since, r)
    then
      && (exists r :: NewToUser(st, user, since, r) && r.ordering == next)
      && forall r | NewToUser(st, user, since, r) :: r.ordering <= next
    else
      && since <= next && (forall r | r in st.rows :: r.ordering <= next)
      && (next == since || (next == 0 && st.rows == []) || exists r :: r in st.rows && r.ordering == next)
  }

  lemma NextMeans(st: Store, user: UserId, since: int)
    requires Increasing(st.rows)
    ensures IsNext(st, user, since, NextTimeline(st, user, since))
  {
    var visible := Since(st, user, since);
    SelectMeans(st.rows, VisibleAfter(st, user, since));
    SelectKeepsOrder(st.rows, VisibleAfter(st, user, since));
    forall r
      ensures r in visible <==> NewToUser(st, user, since, r)
    {
      VisibleRow(st, user, since, r);
    }
    MaxIsHighest(st.rows);
    if visible != [] {
      var last := visible[|visible| - 1];
      assert last in visible;
      forall r | r in visible
        ensures r.ordering <= last.ordering
      {
        LastIsHighest(visible, r);
      }
    } else if st.rows != [] {
      assert st.rows[0] in st.rows;
    }
  }

  lemma VisibleRow(st: Store, user: UserId, since: int, r: Row)
    ensures r in st.rows && VisibleAfter(st, user, since)(r) <==> NewToUser(st, user, since, r)
  {
  }

  // ---------------------------------------------------------------- the service

  method GetMaxStreamOrdering(st: Store) returns (m: int)
    ensures m == MaxOrdering(st.rows)
  {
    m := 0;
    for k := 0 to |st.rows|
      invariant m == MaxOrdering(st.rows[..k])
    {
      assert st.rows[..k + 1][..k] == st.rows[..k];
      if st.rows[k].ordering > m {
        m := st.rows[k].ordering;
      }
    }
    assert st.rows[..|st.rows|] == st.rows;
  }

  method GenerateNextSinceToken(st: Store, user: UserId, since: int) returns (next: int)
    ensures next == NextTimeline(st, user, since)
    ensures Increasing(st.rows) ==> IsNext(st, user, since, next)
  {
    if Increasing(st.rows) {
      NextMeans(st, user, since);
    }
    var events := Scan(st.rows, VisibleAfter(st, user, since));
    if |events| > 0 {
      return events[|events| - 1].ordering;
    }
    var m := GetMaxStreamOrdering(st);
    next := if m > since then m else since;
  }

  /** A first sync lists every joined room, a later one only rooms with something to say. */
  ghost predicate ListsJoined(st: Store, user: UserId, since: int, room: string) {
    && MembershipOf(st, user, room) == JOIN
    && (since == 0 || RoomSince(st, user, room, since) != [] || MemberKey(user, room) in st.accountData)
  }

  ghost predicate ListsLeft(st: Store, user: UserId, since: int, room: string) {
    && MembershipOf(st, user, room) == LEAVE
    && (since == 0 || RoomSinceLeft(st, user, room, since) != [])
  }

  function RoomsWith(st: Store, user: UserId, membership: string): set<string> {
    set k | k in st.members && k.user == user && st.members[k].membership == membership :: k.room
  }

  lemma RoomsWithMeans(st: Store, user: UserId, membership: string, room: string)
    requires membership != ""
    ensures room in RoomsWith(st, user, membership) <==> MembershipOf(st, user, room) == membership
  {
    assert MembershipOf(st, user, room) == membership ==> MemberKey(user, room) in st.members;
  }

  method GetJoinedRooms(st: Store, user: UserId, since: int) returns (joined: map<string, seq<Row>>)
    ensures forall room :: room in joined <==> ListsJoined(st, user, since, room)
    ensures forall room | room in joined :: joined[room] == RoomSince(st, user, room, since)
    ensures forall room :: room in joined <==> JoinedIsListed(st, user, since, room)
    ensures forall room, r | room in joined :: r in joined[room] <==> NewIn(st, room, since, r)
    ensures forall room | room in joined :: InStreamOrder(st, joined[room])
  {
    joined := map[];
    var todo := RoomsWith(st, user, JOIN);
    while todo != {}
      invariant todo <= RoomsWith(st, user, JOIN)
      invariant forall room ::
          room in joined <==> room in RoomsWith(st, user, JOIN) - todo && ListsJoined(st, user, since, room)
      invariant forall room | room in joined :: joined[room] == RoomSince(st, user, room, since)
      decreases todo
    {
      var room :| room in todo;
      RoomsWithMeans(st, user, JOIN, room);
      var events := Scan(st.rows, InRoomAfter(room, since));
      assert events == RoomSince(st, user, room, since);
      if since == 0 || |events| > 0 || MemberKey(user, room) in st.accountData {
        joined := joined[room := events];
      }
      todo := todo - {room};
    }
    forall room
      ensures room in RoomsWith(st, user, JOIN) <==> MembershipOf(st, user, room) == JOIN
    {
      RoomsWithMeans(st, user, JOIN, room);
    }
    JoinedRoomsAre(st, user, since, joined);
  }

  lemma JoinedRoomsAre(st: Store, user: UserId, since: int, m: map<string, seq<Row>>)
    requires forall room :: room in m <==> ListsJoined(st, user, since, room)
    requires forall room | room in m :: m[room] == RoomSince(st, user, room, since)
    ensures forall room :: room in m <==> JoinedIsListed(st, user, since, room)
    ensures forall room, r | room in m :: r in m[room] <==> NewIn(st, room, since, r)
    ensures forall room | room in m :: InStreamOrder(st, m[room])
  {
    forall room
      ensures room in m <==> JoinedIsListed(st, user, since, room)
    {
      ListsJoinedMeans(st, user, since, room);
    }
    forall room | room in m
      ensures InStreamOrder(st, m[room]) && forall r :: r in m[room] <==> NewIn(st, room, since, r)
    {
      RoomSinceMeans(st, user, room, since);
    }
  }

  method GetLeaveRooms(st: Store, user: UserId, since: int) returns (left: map<string, seq<Row>>)
    ensures forall room :: room in left <==> ListsLeft(st, user, since, room)
    ensures forall room | room in left :: left[room] == RoomSinceLeft(st, user, room, since)
    ensures WellFormed(st) ==> forall room :: room in left <==> LeftIsListed(st, user, since, room)
    ensures WellFormed(st)
        ==> forall room, r | room in left :: r in left[room] <==> NewBeforeLeave(st, user, room, since, r)
    ensures WellFormed(st) ==> forall room | room in left :: InStreamOrder(st, left[room])
  {
    left := map[];
    var todo := RoomsWith(st, user, LEAVE);
    while todo != {}
      invariant todo <= RoomsWith(st, user, LEAVE)
      invariant forall room ::
          room in left <==> room in RoomsWith(st, user, LEAVE) - todo && ListsLeft(st, user, since, room)
      invariant forall room | room in left :: left[room] == RoomSinceLeft(st, user, room, since)
      decreases todo
    {
      var room :| room in todo;
      RoomsWithMeans(st, user, LEAVE, room);
      var events := GetEventsOfCanalSinceLeft(st, user, room, since);
      if since == 0 || |events| > 0 {
        left := left[room := events];
      }
      todo := todo - {room};
    }
    forall room
      ensures room in RoomsWith(st, user, LEAVE) <==> MembershipOf(st, user, room) == LEAVE
    {
      RoomsWithMeans(st, user, LEAVE, room);
    }
    if WellFormed(st) {
      LeftRoomsAre(st, user, since, left);
    }
  }

  lemma LeftRoomsAre(st: Store, user: UserId, since: int, m: map<string, seq<Row>>)
    requires WellFormed(st)
    requires forall room :: room in m <==> ListsLeft(st, user, since, room)
    requires forall room | room in m :: m[room] == RoomSinceLeft(st, user, room, since)
    ensures forall room :: room in m <==> LeftIsListed(st, user, since, room)
    ensures forall room, r | room in m :: r in m[room] <==> NewBeforeLeave(st, user, room, since, r)
    ensures forall room | room in m :: InStreamOrder(st, m[room])
  {
    forall room
      ensures room in m <==> LeftIsListed(st, user, since, room)
      ensures room in m ==> InStreamOrder(st, m[room])
      ensures room in m ==> forall r :: r in m[room] <==> NewBeforeLeave(st, user, room, since, r)
    {
      LeftRowsAre(st, user, room, since);
    }
  }

  method GetEventsOfCanalSinceLeft(st: Store, user: UserId, room: string, since: int) returns (events: seq<Row>)
    ensures events == RoomSinceLeft(st, user, room, since)
  {
    var bound := LeaveBound(st, user, room);
    if bound.None? {
      return [];
    }
    events := Scan(st.rows, InRoomWithin(room, since, bound.value));
  }

  function InRoomOf(events: seq<Row>, room: string): seq<Row> {
    Select(events, OfRoom(room))
  }

  /** Invite events grouped by room, in stream order. */
  method GetInviteRooms(st: Store, user: UserId, since: int) returns (invited: map<string, seq<Row>>)
    ensures forall room :: room in invited <==> InRoomOf(InvitesSince(st, user, since), room) != []
    ensures forall room | room in invited :: invited[room] == InRoomOf(InvitesSince(st, user, since), room)
    ensures forall room :: room in invited <==> InviteIsListed(st, user, since, room)
    ensures forall room, r | room in invited ::
        r in invited[room] <==> NewInvite(st, user, since, r) && r.event.roomId == room
    ensures forall room | room in invited :: InStreamOrder(st, invited[room])
  {
    var events := Scan(st.rows, InviteAfter(st, user, since));
    assert events == InvitesSince(st, user, since);
    invited := map[];
    for k := 0 to |events|
      invariant forall room :: room in invited <==> InRoomOf(events[..k], room) != []
      invariant forall room | room in invited :: invited[room] == InRoomOf(events[..k], room)
    {
      assert events[..k + 1][..k] == events[..k];
      var room := events[k].event.roomId;
      invited := invited[room := (if room in invited then invited[room] else []) + [events[k]]];
    }
    assert events[..|events|] == events;
    InvitedRoomsAre(st, user, since, invited);
  }

  lemma InvitedRoomsAre(st: Store, user: UserId, since: int, m: map<string, seq<Row>>)
    requires forall room :: room in m <==> InRoomOf(InvitesSince(st, user, since), room) != []
    requires forall room | room in m :: m[room] == InRoomOf(InvitesSince(st, user, since), room)
    ensures forall room :: room in m <==> InviteIsListed(st, user, since, room)
    ensures forall room, r | room in m :: r in m[room] <==> NewInvite(st, user, since, r) && r.event.roomId == room
    ensures forall room | room in m :: InStreamOrder(st, m[room])
  {
    forall room
      ensures room in m <==> InviteIsListed(st, user, since, room)
      ensures room in m ==> InStreamOrder(st, m[room])
      ensures room in m ==> forall r :: r in m[room] <==> NewInvite(st, user, since, r) && r.event.roomId == room
    {
      InvitesMean(st, user, since, room);
    }
  }

  // ---------------------------------------------------------------- one request

  datatype Position = Position(timeline: int, toDevice: int)

  datatype Response = Response(
    joined: map<string, seq<Row>>, invited: map<string, seq<Row>>, left: map<string, seq<Row>>,
    toDevice: seq<Inbox.Message>, next: Position)

  /** How a long poll ends. */
  datatype Wait = Woken | Deadline | Cancelled | Failed

  function Nothing(next: Position): Response {
    Response(map[], map[], map[], [], next)
  }

  ghost function JoinedMap(st: Store, user: UserId, since: int): map<string, seq<Row>> {
    map room | room in RoomsWith(st, user, JOIN) && ListsJoined(st, user, since, room) ::
      RoomSince(st, user, room, since)
  }

  ghost function LeftMap(st: Store, user: UserId, since: int): map<string, seq<Row>> {
    map room | room in RoomsWith(st, user, LEAVE) && ListsLeft(st, user, since, room) ::
      RoomSinceLeft(st, user, room, since)
  }

  ghost function InviteMap(st: Store, user: UserId, since: int): map<string, seq<Row>> {
    map room | room in (set r | r in InvitesSince(st, user, since) :: r.event.roomId) ::
      InRoomOf(InvitesSince(st, user, since), room)
  }

  /** What one read of the store answers; `next` already counts the to-device batch. */
  ghost function Poll(st: Store, rows: seq<Inbox.Message>, user: UserId, device: string, since: Position): Response {
    var batch := Inbox.Answered(rows, user, device, since.toDevice);
    Response(
      JoinedMap(st, user, since.timeline), InviteMap(st, user, since.timeline), LeftMap(st, user, since.timeline),
      batch, Position(since.timeline, Inbox.NextPosition(batch, since.toDevice)))
  }

  method GetEventsSince(st: Store, box: Inbox.ToDeviceStore, user: UserId, device: string, since: Position)
    returns (r: Response)
    requires box.Valid()
    modifies box`rows
    ensures box.Valid() && box.rows == Inbox.Acknowledged(old(box.rows), user, device, since.toDevice)
    ensures r == Poll(st, old(box.rows), user, device, since)
  {
    var invited := GetInviteRooms(st, user, since.timeline);
    var joined := GetJoinedRooms(st, user, since.timeline);
    var left := GetLeaveRooms(st, user, since.timeline);
    InviteMapIs(st, user, since.timeline, invited);
    JoinedMapIs(st, user, since.timeline, joined);
    LeftMapIs(st, user, since.timeline, left);
    var batch, next := Inbox.GetToDeviceSync(box, user, device, since.toDevice);
    r := Response(joined, invited, left, batch, Position(since.timeline, next));
  }

  lemma JoinedMapIs(st: Store, user: UserId, since: int, m: map<string, seq<Row>>)
    requires forall room :: room in m <==> ListsJoined(st, user, since, room)
    requires forall room | room in m :: m[room] == RoomSince(st, user, room, since)
    ensures m == JoinedMap(st, user, since)
  {
    forall room | ListsJoined(st, user, since, room)
      ensures room in RoomsWith(st, user, JOIN)
    {
      RoomsWithMeans(st, user, JOIN, room);
    }
  }

  lemma LeftMapIs(st: Store, user: UserId, since: int, m: map<string, seq<Row>>)
    requires forall room :: room in m <==> ListsLeft(st, user, since, room)
    requires forall room | room in m :: m[room] == RoomSinceLeft(st, user, room, since)
    ensures m == LeftMap(st, user, since)
  {
    forall room | ListsLeft(st, user, since, room)
      ensures room in RoomsWith(st, user, LEAVE)
    {
      RoomsWithMeans(st, user, LEAVE, room);
    }
  }

  lemma InviteMapIs(st: Store, user: UserId, since: int, m: map<string, seq<Row>>)
    requires forall room :: room in m <==> InRoomOf(InvitesSince(st, user, since), room) != []
    requires forall room | room in m :: m[room] == InRoomOf(InvitesSince(st, user, since), room)
    ensures m == InviteMap(st, user, since)
  {
    var events := InvitesSince(st, user, since);
    forall room
      ensures room in m <==> exists r :: r in events && r.event.roomId == room
    {
      SelectMeans(events, OfRoom(room));
      if InRoomOf(events, room) != [] {
        assert InRoomOf(events, room)[0] in InRoomOf(events, room);
      }
    }
  }

  /** Nothing to report: no invite, no left room, no message, and only silent joined rooms. */
  predicate IsResponseEmpty(r: Response, since: Position, stateful: set<string>) {
    && r.invited == map[] && r.left == map[] && r.toDevice == []
    && forall room | room in r.joined :: r.joined[room] == [] && !(since.timeline == 0 && room in stateful)
  }

  /** The stores one request sees: at the first read, at the re-read after waking, and at the read of the token. */
  datatype Visit = Visit(before: Store, woken: Store, atToken: Store)

  /** Does the request start a long poll? */
  ghost predicate Waits(
    v: Visit, rows: seq<Inbox.Message>, user: UserId, device: string, since: Position, timeout: int) {
    IsResponseEmpty(Poll(v.before, rows, user, device, since), since, v.before.stateful) && timeout > 0
  }

  lemma NoInviteIff(st: Store, user: UserId, since: int)
    ensures InviteMap(st, user, since) == map[] <==> forall r :: !NewInvite(st, user, since, r)
  {
    var m := InviteMap(st, user, since);
    SelectMeans(st.rows, InviteAfter(st, user, since));
    forall r
      ensures r in InvitesSince(st, user, since) <==> NewInvite(st, user, since, r)
    {
      InviteRow(st, user, since, r);
    }
    forall r | NewInvite(st, user, since, r)
      ensures r.event.roomId in m
    {
    }
    if room :| room in m {
      var r :| r in InvitesSince(st, user, since) && r.event.roomId == room;
    }
  }

  lemma NoLeftIff(st: Store, user: UserId, since: int)
    requires WellFormed(st)
    ensures LeftMap(st, user, since) == map[] <==> forall room :: !LeftIsListed(st, user, since, room)
  {
    var m := LeftMap(st, user, since);
    forall room
      ensures room in m <==> LeftIsListed(st, user, since, room)
    {
      LeftRowsAre(st, user, room, since);
      RoomsWithMeans(st, user, LEAVE, room);
    }
  }

  /** Nothing new in any room the user has joined, and on a first sync no state either. */
  ghost predicate JoinedRoomsAreQuiet(st: Store, user: UserId, since: int) {
    forall room | IsMember(st, user, room, "join") ::
      (forall r :: !NewIn(st, room, since, r)) && !(since == 0 && room in st.stateful)
  }

  lemma QuietIff(st: Store, user: UserId, since: int)
    ensures (forall room | room in JoinedMap(st, user, since) ::
               JoinedMap(st, user, since)[room] == [] && !(since == 0 && room in st.stateful))
            <==> JoinedRoomsAreQuiet(st, user, since)
  {
    var m := JoinedMap(st, user, since);
    forall room
      ensures room in m <==> JoinedIsListed(st, user, since, room)
    {
      ListsJoinedMeans(st, user, since, room);
      RoomsWithMeans(st, user, JOIN, room);
    }
    forall room | IsMember(st, user, room, "join")
      ensures room in m ==> (m[room] == [] <==> forall r :: !NewIn(st, room, since, r))
    {
      RoomSinceMeans(st, user, room, since);
    }
  }

  lemma NoMessageIff(rows: seq<Inbox.Message>, user: UserId, device: string, since: int)
    requires Inbox.Increasing(rows)
    ensures Inbox.Answered(rows, user, device, since) == [] <==>
            (device != "" ==> forall m | m in rows :: !Inbox.Addressed(m, user, device, since))
  {
    Inbox.AnsweredIsBatch(rows, user, device, since);
    var batch := Inbox.Answered(rows, user, device, since);
    if batch != [] {
      assert batch[0] in batch;
    }
  }

  /**
   A request waits iff it may and there is nothing new: no invite, no room left, no message for the
   device, and no event of a joined room.
   */
  lemma WaitsIff(v: Visit, rows: seq<Inbox.Message>, user: UserId, device: string, since: Position, timeout: int)
    requires WellFormed(v.before) && Inbox.Increasing(rows)
    ensures Waits(v, rows, user, device, since, timeout) <==>
            && timeout > 0
            && (forall r :: !NewInvite(v.before, user, since.timeline, r))
            && (forall room :: !LeftIsListed(v.before, user, since.timeline, room))
            && (device != "" ==> forall m | m in rows :: !Inbox.Addressed(m, user, device, since.toDevice))
            && JoinedRoomsAreQuiet(v.before, user, since.timeline)
  {
    NoInviteIff(v.before, user, since.timeline);
    NoLeftIff(v.before, user, since.timeline);
    NoMessageIff(rows, user, device, since.toDevice);
    QuietIff(v.before, user, since.timeline);
  }

  /** The reply; `rows0` and `rows1` are the to-device rows at the two reads. */
  ghost function Answer(
    v: Visit, rows0: seq<Inbox.Message>, rows1: seq<Inbox.Message>, user: UserId, device: string, since: Position,
    timeout: int, wait: Wait): Response {
    var waits := Waits(v, rows0, user, device, since, timeout);
    if waits && wait.Cancelled? then Nothing(Position(0, 0))
    else if waits && wait.Failed? then Nothing(since)
    else
      var poll := if waits && wait.Woken? then Poll(v.woken, rows1, user, device, since)
                  else Poll(v.before, rows0, user, device, since);
      poll.(next := Position(NextTimeline(v.atToken, user, since.timeline), poll.next.toDevice))
  }

  /** A wait that is cut short answers with nothing: at the zero token when cancelled, else at the old one. */
  lemma CutShortReplyIsEmpty(
    v: Visit, rows0: seq<Inbox.Message>, rows1: seq<Inbox.Message>, user: UserId, device: string, since: Position,
    timeout: int, wait: Wait)
    requires Waits(v, rows0, user, device, since, timeout) && (wait.Cancelled? || wait.Failed?)
    ensures Answer(v, rows0, rows1, user, device, since, timeout, wait)
        == Response(map[], map[], map[], [], if wait.Cancelled? then Position(0, 0) else since)
  {
  }

  /** Any other reply reports the ID of the last message it carries, or the old position when it carries none. */
  lemma ReplyPositionIsOfItsBatch(
    v: Visit, rows0: seq<Inbox.Message>, rows1: seq<Inbox.Message>, user: UserId, device: string, since: Position,
    timeout: int, wait: Wait)
    requires !(Waits(v, rows0, user, device, since, timeout) && (wait.Cancelled? || wait.Failed?))
    ensures var r := Answer(v, rows0, rows1, user, device, since, timeout, wait);
      r.next.toDevice == if r.toDevice == [] then since.toDevice else r.toDevice[|r.toDevice| - 1].id
  {
  }

  /** One request. `arrived` is what other requests insert for any device while this one waits. */
  method SyncClient(
    v: Visit, box: Inbox.ToDeviceStore, arrived: seq<Inbox.Message>, user: UserId, device: string, since: Position,
    timeout: int, wait: Wait) returns (r: Response)
    requires box.Valid()
    modifies box
    ensures box.Valid()
    ensures var kept := Inbox.Acknowledged(old(box.rows), user, device, since.toDevice);
      var after := Inbox.Arrived(kept, old(box.nextId), arrived);
      && r == Answer(v, old(box.rows), after, user, device, since, timeout, wait)
      && box.rows == if !Waits(v, old(box.rows), user, device, since, timeout) then kept
                     else if wait.Woken? then Inbox.Acknowledged(after, user, device, since.toDevice)
                     else after
  {
    r := GetEventsSince(v.before, box, user, device, since);
    if !IsResponseEmpty(r, since, v.before.stateful) || timeout <= 0 {
      var next := GenerateNextSinceToken(v.atToken, user, since.timeline);
      return r.(next := Position(next, r.next.toDevice));
    }
    box.InsertMessages(arrived);
    if wait.Cancelled? {
      return Nothing(Position(0, 0));
    }
    if wait.Failed? {
      return Nothing(since);
    }
    if wait.Woken? {
      r := GetEventsSince(v.woken, box, user, device, since);
    }
    var next := GenerateNextSinceToken(v.atToken, user, since.timeline);
    return r.(next := Position(next, r.next.toDevice));
  }

  // ---------------------------------------------------------------- what tokens guarantee

  lemma LastIsHighest(rows: seq<Row>, r: Row)
    requires Increasing(rows) && r in rows
    ensures r.ordering <= rows[|rows| - 1].ordering
  {
  }

  lemma {:induction false} MaxIsHighest(rows: seq<Row>)
    ensures forall r | r in rows :: r.ordering <= MaxOrdering(rows)
    ensures MaxOrdering(rows) >= 0
    ensures MaxOrdering(rows) > 0 ==> exists r :: r in rows && r.ordering == MaxOrdering(rows)
  {
    if rows != [] {
      var k := |rows| - 1;
      MaxIsHighest(rows[..k]);
      assert rows == rows[..k] + [rows[k]];
    }
  }

  /** The timeline position never goes back, and never passes what is stored. */
  lemma TimelineNeverGoesBack(st: Store, user: UserId, since: int)
    requires Increasing(st.rows)
    ensures since <= NextTimeline(st, user, since)
    ensures NextTimeline(st, user, since) <= since || NextTimeline(st, user, since) <= MaxOrdering(st.rows)
  {
    var visible := Since(st, user, since);
    SelectMeans(st.rows, VisibleAfter(st, user, since));
    MaxIsHighest(st.rows);
    if visible != [] {
      assert visible[|visible| - 1] in visible;
    }
  }

  ghost predicate SomeoneBeyond(st: Store, user: UserId, ordering: int) {
    exists q :: q in st.rows && Concerns(st, user, q) && q.ordering >= ordering
  }

  /** A stored row lies at or below the new position iff nothing is visible or something visible is not before it. */
  lemma CoveredIff(st: Store, user: UserId, since: int, r: Row)
    requires Increasing(st.rows) && r in st.rows && r.ordering > since
    ensures r.ordering <= NextTimeline(st, user, since)
        <==> Since(st, user, since) == [] || SomeoneBeyond(st, user, r.ordering)
  {
    var visible := Since(st, user, since);
    SelectMeans(st.rows, VisibleAfter(st, user, since));
    SelectKeepsOrder(st.rows, VisibleAfter(st, user, since));
    MaxIsHighest(st.rows);
    if visible != [] {
      var last := visible[|visible| - 1];
      assert last in visible;
      forall q | q in st.rows && Concerns(st, user, q) && q.ordering >= r.ordering
        ensures q.ordering <= last.ordering
      {
        LastIsHighest(visible, q);
      }
    }
  }

  /** Every row that concerns the user lies at or below the new position. */
  lemma VisibleIsCovered(st: Store, user: UserId, since: int, r: Row)
    requires Increasing(st.rows) && r in st.rows && Concerns(st, user, r)
    ensures r.ordering <= NextTimeline(st, user, since)
  {
    TimelineNeverGoesBack(st, user, since);
    if r.ordering > since {
      CoveredIff(st, user, since, r);
    }
  }

  lemma {:induction false} OrderingOfMeans(rows: seq<Row>, id: EventId)
    requires OrderingOf(rows, id).Some?
    ensures exists r :: r in rows && r.event.id == id && r.ordering == OrderingOf(rows, id).value
  {
    if rows[0].event.id == id {
      assert rows[0] in rows;
    } else {
      OrderingOfMeans(rows[1..], id);
    }
  }

  ghost predicate GrowsTo(st: Store, later: Store) {
    st.rows <= later.rows && Increasing(later.rows)
  }

  lemma StaysStored(st: Store, later: Store, r: Row)
    requires GrowsTo(st, later) && r in st.rows
    ensures r in later.rows
  {
    var i :| 0 <= i < |st.rows| && st.rows[i] == r;
    assert later.rows[i] == r;
  }

  /** The user's leave event itself lies at or below a position computed then or later. */
  lemma LeaveIsCovered(st: Store, later: Store, user: UserId, room: string, since: int)
    requires WellFormed(st) && GrowsTo(st, later) && LeaveBound(st, user, room).Some?
    ensures LeaveBound(st, user, room).value <= NextTimeline(later, user, since)
  {
    var id := st.members[MemberKey(user, room)].eventId;
    OrderingOfMeans(st.rows, id);
    var r :| r in st.rows && r.event.id == id && r.ordering == OrderingOf(st.rows, id).value;
    StaysStored(st, later, r);
    VisibleIsCovered(later, user, since, r);
  }

  ghost predicate Spans(rows: seq<Row>, lo: int, hi: int) {
    forall r | r in rows :: lo < r.ordering <= hi
  }

  /** What was read of a joined room is not left beyond everything the user can see when the token is computed. */
  ghost predicate InSight(read: Store, later: Store, user: UserId, room: string, since: int) {
    var events := RoomSince(read, user, room, since);
    events == [] || Since(later, user, since) == [] || SomeoneBeyond(later, user, events[|events| - 1].ordering)
  }

  /** What is read of a joined room lies between the two tokens iff it stays in sight. */
  lemma JoinedIsCoveredIff(read: Store, later: Store, user: UserId, room: string, since: int)
    requires WellFormed(read) && GrowsTo(read, later)
    ensures Spans(RoomSince(read, user, room, since), since, NextTimeline(later, user, since))
        <==> InSight(read, later, user, room, since)
  {
    var events := RoomSince(read, user, room, since);
    SelectMeans(read.rows, InRoomAfter(room, since));
    SelectKeepsOrder(read.rows, InRoomAfter(room, since));
    SpansIffLast(events, since, NextTimeline(later, user, since));
    if events != [] {
      var last := events[|events| - 1];
      assert last in events;
      StaysStored(read, later, last);
      CoveredIff(later, user, since, last);
    }
  }

  lemma SpansIffLast(events: seq<Row>, lo: int, hi: int)
    requires Increasing(events) && forall r | r in events :: r.ordering > lo
    ensures Spans(events, lo, hi) <==> events == [] || events[|events| - 1].ordering <= hi
  {
    if events != [] {
      assert events[|events| - 1] in events;
      forall r | r in events
        ensures r.ordering <= events[|events| - 1].ordering
      {
        LastIsHighest(events, r);
      }
    }
  }

  /** It does while the user stays in the room, and when a newer member event about the user took them out. */
  lemma StaysInSight(read: Store, later: Store, user: UserId, room: string, since: int)
    requires WellFormed(read) && GrowsTo(read, later)
    requires MembershipOf(later, user, room) in {JOIN, INVITE} ||
             exists q :: q in later.rows[|read.rows|..] && q.event.kind == MEMBER && q.event.stateKey == Some(user)
    ensures InSight(read, later, user, room, since)
  {
    var events := RoomSince(read, user, room, since);
    if events != [] {
      var last := events[|events| - 1];
      assert last in events;
      SelectMeans(read.rows, InRoomAfter(room, since));
      if MembershipOf(later, user, room) in {JOIN, INVITE} {
        StaysStored(read, later, last);
        assert Concerns(later, user, last);
      } else {
        var q :| q in later.rows[|read.rows|..] && q.event.kind == MEMBER && q.event.stateKey == Some(user);
        NewRowIsLater(read, later, last, q);
        assert Concerns(later, user, q);
      }
    }
  }

  lemma NewRowIsLater(st: Store, later: Store, r: Row, q: Row)
    requires GrowsTo(st, later) && r in st.rows && q in later.rows[|st.rows|..]
    ensures q in later.rows && r.ordering < q.ordering
  {
    var i :| 0 <= i < |st.rows| && st.rows[i] == r;
    var j :| 0 <= j < |later.rows[|st.rows|..]| && later.rows[|st.rows|..][j] == q;
    assert later.rows[i] == r && later.rows[|st.rows| + j] == q;
  }

  lemma LeftIsCovered(st: Store, later: Store, user: UserId, room: string, since: int)
    requires WellFormed(st) && GrowsTo(st, later)
    ensures Spans(RoomSinceLeft(st, user, room, since), since, NextTimeline(later, user, since))
  {
    if LeaveBound(st, user, room).Some? {
      SelectMeans(st.rows, InRoomWithin(room, since, LeaveBound(st, user, room).value));
      LeaveIsCovered(st, later, user, room, since);
    }
  }

  lemma InvitesAreCovered(st: Store, later: Store, user: UserId, since: int)
    requires WellFormed(st) && GrowsTo(st, later)
    ensures Spans(InvitesSince(st, user, since), since, NextTimeline(later, user, since))
  {
    SelectMeans(st.rows, InviteAfter(st, user, since));
    forall r | r in InvitesSince(st, user, since)
      ensures since < r.ordering <= NextTimeline(later, user, since)
    {
      StaysStored(st, later, r);
      VisibleIsCovered(later, user, since, r);
    }
  }

  lemma JoinedMapIsCoveredIff(read: Store, later: Store, user: UserId, t: int)
    requires WellFormed(read) && GrowsTo(read, later)
    ensures forall room | room in JoinedMap(read, user, t) ::
        Spans(JoinedMap(read, user, t)[room], t, NextTimeline(later, user, t)) <==> InSight(read, later, user, room, t)
  {
    forall room | room in JoinedMap(read, user, t)
      ensures Spans(JoinedMap(read, user, t)[room], t, NextTimeline(later, user, t))
          <==> InSight(read, later, user, room, t)
    {
      JoinedIsCoveredIff(read, later, user, room, t);
    }
  }

  lemma LeftMapIsCovered(read: Store, later: Store, user: UserId, t: int)
    requires WellFormed(read) && GrowsTo(read, later)
    ensures forall room | room in LeftMap(read, user, t) ::
        Spans(LeftMap(read, user, t)[room], t, NextTimeline(later, user, t))
  {
    forall room | room in LeftMap(read, user, t)
      ensures Spans(LeftMap(read, user, t)[room], t, NextTimeline(later, user, t))
    {
      LeftIsCovered(read, later, user, room, t);
    }
  }

  lemma InviteMapIsCovered(read: Store, later: Store, user: UserId, t: int)
    requires WellFormed(read) && GrowsTo(read, later)
    ensures forall room | room in InviteMap(read, user, t) ::
        Spans(InviteMap(read, user, t)[room], t, NextTimeline(later, user, t))
  {
    InvitesAreCovered(read, later, user, t);
    forall room | room in InviteMap(read, user, t)
      ensures Spans(InviteMap(read, user, t)[room], t, NextTimeline(later, user, t))
    {
      SelectMeans(InvitesSince(read, user, t), OfRoom(room));
    }
  }

  /** The store a reply's events were read from. */
  ghost function ReadStore(
    v: Visit, rows: seq<Inbox.Message>, user: UserId, device: string, since: Position, timeout: int,
    wait: Wait): Store {
    if Waits(v, rows, user, device, since, timeout) && wait.Woken? then v.woken else v.before
  }

  /**
   Every event a reply delivers lies above the old token, and at or below the new one although the
   new one is computed from a later store: always for left and invited rooms, and for a joined room
   iff it stays in sight.
   */
  lemma DeliveredIsCovered(
    v: Visit, rows0: seq<Inbox.Message>, rows1: seq<Inbox.Message>, user: UserId, device: string, since: Position,
    timeout: int, wait: Wait)
    requires WellFormed(v.before) && WellFormed(v.woken) && GrowsTo(v.before, v.atToken) && GrowsTo(v.woken, v.atToken)
    ensures var r := Answer(v, rows0, rows1, user, device, since, timeout, wait);
      var read := ReadStore(v, rows0, user, device, since, timeout, wait);
      && (forall room | room in r.joined ::
            (Spans(r.joined[room], since.timeline, r.next.timeline) <==>
             InSight(read, v.atToken, user, room, since.timeline)))
      && (forall room | room in r.left :: Spans(r.left[room], since.timeline, r.next.timeline))
      && (forall room | room in r.invited :: Spans(r.invited[room], since.timeline, r.next.timeline))
  {
    var read := ReadStore(v, rows0, user, device, since, timeout, wait);
    JoinedMapIsCoveredIff(read, v.atToken, user, since.timeline);
    LeftMapIsCovered(read, v.atToken, user, since.timeline);
    InviteMapIsCovered(read, v.atToken, user, since.timeline);
  }

  /** A token goes back only in the reply to a cancelled long poll, which carries the zero token. */
  lemma TokenGoesBackOnlyWhenCancelled(
    v: Visit, rows0: seq<Inbox.Message>, rows1: seq<Inbox.Message>, user: UserId, device: string, since: Position,
    timeout: int, wait: Wait)
    requires Increasing(v.atToken.rows)
    ensures var r := Answer(v, rows0, rows1, user, device, since, timeout, wait);
      var nonzero := since.timeline > 0 || since.toDevice > 0;
      (r.next.timeline < since.timeline || r.next.toDevice < since.toDevice)
      <==> Waits(v, rows0, user, device, since, timeout) && wait.Cancelled? && nonzero
  {
    TimelineNeverGoesBack(v.atToken, user, since.timeline);
    Inbox.PositionNeverGoesBack(rows0, user, device, since.toDevice);
    Inbox.PositionNeverGoesBack(rows1, user, device, since.toDevice);
  }

  /** Once a token has been given out for a left room, that room has nothing more to say. */
  lemma LeftRoomIsDeliveredOnce(st: Store, user: UserId, room: string, since: int)
    requires WellFormed(st)
    ensures RoomSinceLeft(st, user, room, NextTimeline(st, user, since)) == []
  {
    if LeaveBound(st, user, room).Some? {
      LeaveIsCovered(st, st, user, room, since);
      SelectNone(st.rows, InRoomWithin(room, NextTimeline(st, user, since), LeaveBound(st, user, room).value));
    }
  }

  // ---------------------------------------------------------------- chained requests

  /** A room's events in a half-open stretch of the stream. */
  function Stretch(rows: seq<Row>, room: string, lo: int, hi: int): seq<Row> {
    Select(rows, InRoomWithin(room, lo, hi))
  }

  /** One request delivers exactly the stretch between its two tokens, as the final stream shows it. */
  lemma OneRequestIsAStretch(st: Store, final: Store, user: UserId, room: string, since: int)
    requires WellFormed(st) && GrowsTo(st, final) && MembershipOf(st, user, room) == JOIN
    ensures RoomSince(st, user, room, since) == Stretch(final.rows, room, since, NextTimeline(st, user, since))
  {
    var hi := NextTimeline(st, user, since);
    var later := final.rows[|st.rows|..];
    assert final.rows == st.rows + later;
    SelectConcat(st.rows, later, InRoomWithin(room, since, hi));
    NewRowsAreBeyond(st, final, user, since);
    SelectNone(later, InRoomWithin(room, since, hi));
    forall r | r in st.rows
      ensures InRoomAfter(room, since)(r) == InRoomWithin(room, since, hi)(r)
    {
      if r.event.roomId == room {
        VisibleIsCovered(st, user, since, r);
      }
    }
    SelectSame(st.rows, InRoomAfter(room, since), InRoomWithin(room, since, hi));
  }

  /** Rows added after a request are not in the stretch it covered. */
  lemma NewRowsAreBeyond(st: Store, final: Store, user: UserId, since: int)
    requires Increasing(st.rows) && GrowsTo(st, final)
    ensures forall r | r in final.rows[|st.rows|..] :: !(since < r.ordering <= NextTimeline(st, user, since))
  {
    TimelineNeverGoesBack(st, user, since);
    MaxIsHighest(st.rows);
    forall r | r in final.rows[|st.rows|..]
      ensures !(since < r.ordering <= NextTimeline(st, user, since))
    {
      assert r in final.rows;
      var j :| |st.rows| <= j < |final.rows| && final.rows[j] == r;
      forall q | q in st.rows
        ensures q.ordering < r.ordering
      {
        var i :| 0 <= i < |st.rows| && st.rows[i] == q;
        assert final.rows[i] == q;
      }
      assert since < NextTimeline(st, user, since) ==> NextTimeline(st, user, since) <= MaxOrdering(st.rows);
    }
  }

  lemma {:induction false} StretchesJoin(rows: seq<Row>, room: string, a: int, b: int, c: int)
    requires Increasing(rows) && a <= b <= c
    ensures Stretch(rows, room, a, b) + Stretch(rows, room, b, c) == Stretch(rows, room, a, c)
  {
    if rows != [] {
      var k := |rows| - 1;
      StretchesJoin(rows[..k], room, a, b, c);
      if rows[k].ordering <= b {
        forall r | r in rows[..k]
          ensures r.ordering < rows[k].ordering
        {
        }
        SelectNone(rows[..k], InRoomWithin(room, b, c));
      }
    }
  }

  /**
   A request whose token is computed from a later store than its events delivers exactly the stretch
   between its tokens iff no event of the room arrived in between; what did arrive is skipped.
   */
  lemma RequestSkipsNothingIff(read: Store, later: Store, final: Store, user: UserId, room: string, since: int)
    requires WellFormed(later) && GrowsTo(read, later) && GrowsTo(later, final)
    requires MembershipOf(read, user, room) == JOIN && MembershipOf(later, user, room) == JOIN
    ensures var stretch := Stretch(final.rows, room, since, NextTimeline(later, user, since));
      && stretch == RoomSince(read, user, room, since) + Between(read, later, room, since)
      && (RoomSince(read, user, room, since) == stretch <==> Between(read, later, room, since) == [])
  {
    OneRequestIsAStretch(later, final, user, room, since);
    assert later.rows == read.rows + later.rows[|read.rows|..];
    SelectConcat(read.rows, later.rows[|read.rows|..], InRoomAfter(room, since));
  }

  /** The room's events stored between two reads. */
  function Between(read: Store, later: Store, room: string, since: int): seq<Row>
    requires read.rows <= later.rows
  {
    Select(later.rows[|read.rows|..], InRoomAfter(room, since))
  }

  /** The store at the read of the events and at the read of the token. */
  datatype Request = Request(read: Store, token: Store)

  ghost predicate Joined(q: Request, user: UserId, room: string) {
    && WellFormed(q.read) && WellFormed(q.token) && GrowsTo(q.read, q.token)
    && MembershipOf(q.read, user, room) == JOIN && MembershipOf(q.token, user, room) == JOIN
  }

  /** Each request finds the store at least as it was when the token before it was computed. */
  ghost predicate IsChain(requests: seq<Request>, user: UserId, room: string) {
    && (forall i | 0 <= i < |requests| :: Joined(requests[i], user, room))
    && (forall i, j | 0 <= i < j < |requests| :: GrowsTo(requests[i].token, requests[j].read))
  }

  /** The token after a chain of requests, each presenting the token of the one before. */
  function LastToken(requests: seq<Request>, user: UserId, first: int): int {
    if requests == [] then first
    else NextTimeline(requests[|requests| - 1].token, user, LastToken(requests[..|requests| - 1], user, first))
  }

  /** A room's timelines of all those responses, one after the other. */
  function AllDelivered(requests: seq<Request>, user: UserId, room: string, first: int): seq<Row> {
    if requests == [] then []
    else
      var init := requests[..|requests| - 1];
      AllDelivered(init, user, room, first)
        + RoomSince(requests[|requests| - 1].read, user, room, LastToken(init, user, first))
  }

  /** No event of the room was stored between a request's read of the events and its read of the token. */
  ghost predicate NothingSlips(requests: seq<Request>, user: UserId, room: string, first: int)
    requires IsChain(requests, user, room)
  {
    if requests == [] then true
    else
      var init, last := requests[..|requests| - 1], requests[|requests| - 1];
      NothingSlips(init, user, room, first) && Between(last.read, last.token, room, LastToken(init, user, first)) == []
  }

  lemma SameSplit(a: seq<Row>, b: seq<Row>, c: seq<Row>, d: seq<Row>)
    requires |a| <= |c| && |b| <= |d|
    ensures a + b == c + d <==> a == c && b == d
  {
    if a + b == c + d {
      assert |a + b| == |c + d|;
      assert a == (a + b)[..|a|] && c == (c + d)[..|c|];
      assert b == (a + b)[|a|..] && d == (c + d)[|c|..];
    }
  }

  /**
   Chained requests partition the stream of a room the user stays joined in: what they deliver, put
   together, is every event of the room between the first token and the last, each once and in
   stream order, iff no event of the room ever slips in between the two reads of a request.
   */
  lemma {:induction false} ChainedRequestsPartitionIff(
    requests: seq<Request>, user: UserId, room: string, first: int, final: Store)
    requires IsChain(requests, user, room) && Increasing(final.rows)
    requires forall i | 0 <= i < |requests| :: GrowsTo(requests[i].token, final)
    ensures first <= LastToken(requests, user, first)
    ensures var delivered := AllDelivered(requests, user, room, first);
      var stretch := Stretch(final.rows, room, first, LastToken(requests, user, first));
      |delivered| <= |stretch| && (delivered == stretch <==> NothingSlips(requests, user, room, first))
  {
    if requests == [] {
      SelectNone(final.rows, InRoomWithin(room, first, first));
    } else {
      var init, last := requests[..|requests| - 1], requests[|requests| - 1];
      ChainedRequestsPartitionIff(init, user, room, first, final);
      var mid := LastToken(init, user, first);
      assert Joined(last, user, room);
      RequestSkipsNothingIff(last.read, last.token, final, user, room, mid);
      TimelineNeverGoesBack(last.token, user, mid);
      StretchesJoin(final.rows, room, first, mid, LastToken(requests, user, first));
      SameSplit(
        AllDelivered(init, user, room, first), RoomSince(last.read, user, room, mid),
        Stretch(final.rows, room, first, mid), Stretch(final.rows, room, mid, LastToken(requests, user, first)));
    }
  }

  /** When every request reads a store that does not change meanwhile, nothing slips. */
  lemma {:induction false} ChainedRequestsPartition(
    requests: seq<Request>, user: UserId, room: string, first: int, final: Store)
    requires IsChain(requests, user, room) && Increasing(final.rows)
    requires forall i | 0 <= i < |requests| ::
        GrowsTo(requests[i].token, final) && requests[i].token.rows == requests[i].read.rows
    ensures AllDelivered(requests, user, room, first)
        == Stretch(final.rows, room, first, LastToken(requests, user, first))
  {
    ChainedRequestsPartitionIff(requests, user, room, first, final);
    FixedStoresLetNothingSlip(requests, user, room, first);
  }

  lemma {:induction false} FixedStoresLetNothingSlip(requests: seq<Request>, user: UserId, room: string, first: int)
    requires IsChain(requests, user, room)
    requires forall i | 0 <= i < |requests| :: requests[i].token.rows == requests[i].read.rows
    ensures NothingSlips(requests, user, room, first)
  {
    if requests != [] {
      var init, last := requests[..|requests| - 1], requests[|requests| - 1];
      FixedStoresLetNothingSlip(init, user, room, first);
      NothingBetween(last.read, last.token, room, LastToken(init, user, first));
    }
  }

  lemma NothingBetween(read: Store, later: Store, room: string, since: int)
    requires read.rows == later.rows
    ensures Between(read, later, room, since) == []
  {
    assert later.rows[|read.rows|..] == [];
  }

  /** After a chain nothing stored in the room lies above the token: what was skipped is never asked for again. */
  lemma NothingIsPending(requests: seq<Request>, user: UserId, room: string, first: int)
    requires requests != [] && IsChain(requests, user, room)
    ensures RoomSince(requests[|requests| - 1].token, user, room, LastToken(requests, user, first)) == []
  {
    var init, last := requests[..|requests| - 1], requests[|requests| - 1].token;
    var token := LastToken(requests, user, first);
    assert Joined(requests[|requests| - 1], user, room);
    forall r | r in last.rows
      ensures !InRoomAfter(room, token)(r)
    {
      if r.event.roomId == room {
        VisibleIsCovered(last, user, LastToken(init, user, first), r);
      }
    }
    SelectNone(last.rows, InRoomAfter(room, token));
  }

  // ---------------------------------------------------------------- concrete stores

  const OWN_JOIN := Row(1, Example("$join").(
                    kind := MEMBER, roomId := "!r", stateKey := Some("@u:x"),
                    content := Example("$join").content.(membership := Some(JOIN))))

  const MESSAGE := Row(2, Example("$message").(roomId := "!r"))

  const HERE := MemberKey("@u:x", "!r")

  /** The user has joined the room and knows it up to position one. */
  const QUIET := Store([OWN_JOIN], map[HERE := MemberRow(JOIN, "$join")], {}, {})

  /** A message is stored after the first read and before the token is computed. */
  const WITH_MESSAGE := QUIET.(rows := [OWN_JOIN, MESSAGE])

  lemma ConcreteStoresAreProper()
    ensures WellFormed(QUIET) && WellFormed(WITH_MESSAGE) && GrowsTo(QUIET, WITH_MESSAGE)
  {
    assert [OWN_JOIN, MESSAGE][..1] == [OWN_JOIN];
    assert OWN_JOIN.event.id != MESSAGE.event.id && MESSAGE.event.id != "$join";
  }

  lemma WhatTheStoresAnswer()
    ensures RoomSince(WITH_MESSAGE, "@u:x", "!r", 2) == [] && NextTimeline(WITH_MESSAGE, "@u:x", 1) == 2
  {
    SelectTwo(InRoomAfter("!r", 2));
    SelectTwo(VisibleAfter(WITH_MESSAGE, "@u:x", 1));
    assert MembershipOf(WITH_MESSAGE, "@u:x", "!r") == JOIN && Concerns(WITH_MESSAGE, "@u:x", MESSAGE);
    assert Since(WITH_MESSAGE, "@u:x", 1) == [MESSAGE];
  }

  lemma SelectTwo(p: Row -> bool)
    ensures Select([OWN_JOIN, MESSAGE], p)
        == (if p(OWN_JOIN) then [OWN_JOIN] else []) + (if p(MESSAGE) then [MESSAGE] else [])
    ensures Select([OWN_JOIN], p) == if p(OWN_JOIN) then [OWN_JOIN] else []
  {
    var two := [OWN_JOIN, MESSAGE];
    assert two[..1] == [OWN_JOIN] && [OWN_JOIN][..0] == [];
    assert Select([OWN_JOIN], p) == Select([], p) + if p(OWN_JOIN) then [OWN_JOIN] else [];
    assert Select(two, p) == Select([OWN_JOIN], p) + if p(MESSAGE) then [MESSAGE] else [];
  }

  lemma QuietListsNothing(room: string)
    ensures !ListsJoined(QUIET, "@u:x", 1, room) && !ListsLeft(QUIET, "@u:x", 1, room)
  {
    SelectTwo(InRoomAfter(room, 1));
    assert MembershipOf(QUIET, "@u:x", room) == if room == "!r" then JOIN else "";
  }

  lemma QuietPollIsEmpty()
    ensures var poll := Poll(QUIET, [], "@u:x", "", Position(1, 0));
      poll.joined == map[] && poll.invited == map[] && poll.left == map[] && poll.toDevice == []
  {
    forall room
      ensures !ListsJoined(QUIET, "@u:x", 1, room) && !ListsLeft(QUIET, "@u:x", 1, room)
    {
      QuietListsNothing(room);
    }
    SelectTwo(InviteAfter(QUIET, "@u:x", 1));
    assert InvitesSince(QUIET, "@u:x", 1) == [];
  }

  /** The reply at the deadline delivers nothing, its token passes the message, and no later request returns it. */
  lemma DeadlineReplySkipsAMessage()
    ensures var v := Visit(QUIET, QUIET, WITH_MESSAGE);
      var r := Answer(v, [], [], "@u:x", "", Position(1, 0), 1000, Deadline);
      && WellFormed(v.before) && WellFormed(v.atToken) && GrowsTo(v.before, v.atToken)
      && Waits(v, [], "@u:x", "", Position(1, 0), 1000)
      && r.joined == map[] && r.next.timeline == 2
      && MESSAGE in WITH_MESSAGE.rows && RoomSince(WITH_MESSAGE, "@u:x", "!r", r.next.timeline) == []
  {
    ConcreteStoresAreProper();
    WhatTheStoresAnswer();
    QuietPollIsEmpty();
  }

  /** A cancelled long poll of that client answers with a token before the one it presented. */
  lemma CancelledReplyGoesBack()
    ensures var r := Answer(Visit(QUIET, QUIET, QUIET), [], [], "@u:x", "", Position(1, 0), 1000, Cancelled);
      r.next.timeline < 1
  {
    ConcreteStoresAreProper();
    QuietPollIsEmpty();
    TokenGoesBackOnlyWhenCancelled(Visit(QUIET, QUIET, QUIET), [], [], "@u:x", "", Position(1, 0), 1000, Cancelled);
  }

  const OLD_LEAVE := Row(1, Example("$leave").(
                     kind := MEMBER, roomId := "!r", stateKey := Some("@u:x"),
                     content := Example("$leave").content.(membership := Some(LEAVE))))

  const REJOIN := OWN_JOIN.(ordering := 2)

  const LATE_MESSAGE := MESSAGE.(ordering := 3)

  const IN_ROOM := Store([OLD_LEAVE, REJOIN, LATE_MESSAGE], map[HERE := MemberRow(JOIN, "$join")], {}, {})

  /** A resolution has put the user's old leave back. */
  const PUT_OUT := IN_ROOM.(members := map[HERE := MemberRow(LEAVE, "$leave")])

  lemma ThreeRowsAreProper(st: Store, a: Row, b: Row, c: Row, k: MemberKey)
    requires st.rows == [a, b, c] && 0 < a.ordering < b.ordering < c.ordering
    requires a.event.id != b.event.id && b.event.id != c.event.id && a.event.id != c.event.id
    requires st.members == map[k := MemberRow(JOIN, b.event.id)]
    requires b.event.kind == MEMBER && b.event.stateKey == Some(k.user) && b.event.roomId == k.room
    ensures WellFormed(st)
  {
  }

  lemma TwoSightsAreProper()
    ensures WellFormed(IN_ROOM) && GrowsTo(IN_ROOM, PUT_OUT)
  {
    assert "$leave"[1] != "$join"[1] && "$join"[1] != "$message"[1] && "$leave"[1] != "$message"[1];
    ThreeRowsAreProper(IN_ROOM, OLD_LEAVE, REJOIN, LATE_MESSAGE, HERE);
  }

  /** When the membership falls back to an older event, a message read before lies beyond the new token. */
  lemma OldLeaveHidesAMessage()
    ensures WellFormed(IN_ROOM) && GrowsTo(IN_ROOM, PUT_OUT)
    ensures LATE_MESSAGE in RoomSince(IN_ROOM, "@u:x", "!r", 0)
        && NextTimeline(PUT_OUT, "@u:x", 0) < LATE_MESSAGE.ordering
  {
    TwoSightsAreProper();
    SelectMeans(IN_ROOM.rows, InRoomAfter("!r", 0));
    assert LATE_MESSAGE in IN_ROOM.rows && OLD_LEAVE in PUT_OUT.rows;
    assert Concerns(PUT_OUT, "@u:x", OLD_LEAVE) && !Concerns(PUT_OUT, "@u:x", LATE_MESSAGE);
    SelectMeans(PUT_OUT.rows, VisibleAfter(PUT_OUT, "@u:x", 0));
    assert OLD_LEAVE in Since(PUT_OUT, "@u:x", 0);
    CoveredIff(PUT_OUT, "@u:x", 0, LATE_MESSAGE);
  }
}
