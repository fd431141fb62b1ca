/**
 Server-side key backup. A client puts a nested map, room to session to key, into the latest
 version of its backup; the server flattens it in whatever order the maps iterate, upserts row by
 row, refreshes the version's count and etag, and nests the rows again when they are fetched.
 */
module KeyBackup {
  import opened Events
  import Number = SyncToken

  datatype KeyData = KeyData(firstMessageIndex: int, forwardedCount: int, verified: bool, sessionData: string)

  datatype Slot = Slot(room: string, session: string)

  datatype Row = Row(version: int, slot: Slot, data: KeyData)

  type Sessions = map<string, KeyData>

  type Rooms = map<string, Sessions>

  type Table = map<Slot, KeyData>

  datatype Version = Version(user: UserId, algorithm: string, authData: string, count: int, etag: int)

  datatype Reply<T> = Ok(value: T) | MissingParam | NotFound | WrongVersion(current: string)

  // ---------------------------------------------------------------- the nested map and the flat list

  ghost function Flat(rooms: Rooms): Table {
    map r, s | r in rooms && s in rooms[r] :: Slot(r, s) := rooms[r][s]
  }

  ghost function SessionsIn(t: Table, room: string): Sessions {
    map x | x in t && x.room == room :: x.session := t[x]
  }

  ghost function RoomsOf(t: Table): set<string> {
    set x | x in t :: x.room
  }

  ghost function Nest(t: Table): Rooms {
    map r | r in RoomsOf(t) :: SessionsIn(t, r)
  }

  ghost function SessionsAt(rooms: Rooms, room: string): Sessions {
    if room in rooms then rooms[room] else map[]
  }

  /** Session by session, the new map wins; a room left without sessions is not listed. */
  ghost function Overridden(base: Rooms, update: Rooms): Rooms {
    map r | r in base.Keys + update.Keys && SessionsAt(base, r) + SessionsAt(update, r) != map[] ::
      SessionsAt(base, r) + SessionsAt(update, r)
  }

  /** What a list of rows stores when it is written in order. */
  function RowMap(rows: seq<Row>): Table {
    if rows == [] then map[] else RowMap(rows[..|rows| - 1])[rows[|rows| - 1].slot := rows[|rows| - 1].data]
  }

  lemma RowMapSnoc(rows: seq<Row>, row: Row)
    ensures RowMap(rows + [row]) == RowMap(rows)[row.slot := row.data]
  {
    assert (rows + [row])[..|rows|] == rows;
  }

  lemma SessionsMean(t: Table, room: string, session: string)
    ensures session in SessionsIn(t, room) <==> Slot(room, session) in t
    ensures session in SessionsIn(t, room) ==> SessionsIn(t, room)[session] == t[Slot(room, session)]
  {
  }

  lemma RoomsMean(t: Table, room: string)
    ensures room in Nest(t) <==> SessionsIn(t, room) != map[]
    ensures SessionsAt(Nest(t), room) == SessionsIn(t, room)
  {
    if room in RoomsOf(t) {
      var x :| x in t && x.room == room;
      assert x.session in SessionsIn(t, room);
    }
    forall s | s in SessionsIn(t, room)
      ensures room in RoomsOf(t)
    {
      assert Slot(room, s) in t;
    }
  }

  lemma SessionsOfOverride(t: Table, rooms: Rooms, room: string)
    ensures SessionsIn(t + Flat(rooms), room) == SessionsIn(t, room) + SessionsAt(rooms, room)
  {
    forall s
      ensures s in SessionsIn(t + Flat(rooms), room) <==> s in SessionsIn(t, room) + SessionsAt(rooms, room)
    {
      SessionsMean(t, room, s);
      SessionsMean(t + Flat(rooms), room, s);
    }
  }

  /** Writing a nested map into a table overrides its nested form session by session. */
  lemma NestOfOverride(t: Table, rooms: Rooms)
    ensures Nest(t + Flat(rooms)) == Overridden(Nest(t), rooms)
  {
    var merged := t + Flat(rooms);
    forall r
      ensures r in Nest(merged) <==> r in Overridden(Nest(t), rooms)
      ensures SessionsAt(Nest(merged), r) == SessionsAt(Nest(t), r) + SessionsAt(rooms, r)
    {
      RoomsMean(merged, r);
      RoomsMean(t, r);
      SessionsOfOverride(t, rooms, r);
    }
    forall r | r in Nest(merged)
      ensures Nest(merged)[r] == Overridden(Nest(t), rooms)[r]
    {
      assert SessionsAt(Nest(merged), r) == SessionsAt(Nest(t), r) + SessionsAt(rooms, r);
    }
  }

  lemma FlatMeans(rooms: Rooms, slot: Slot)
    ensures slot in Flat(rooms) <==> slot.session in SessionsAt(rooms, slot.room)
    ensures slot in Flat(rooms) ==> Flat(rooms)[slot] == SessionsAt(rooms, slot.room)[slot.session]
  {
    assert slot == Slot(slot.room, slot.session);
  }

  lemma SameTable(t: Table, u: Table)
    requires forall x: Slot :: Get(t, x) == Get(u, x)
    ensures t == u
  {
    forall x: Slot
      ensures x in t <==> x in u
      ensures x in t ==> t[x] == u[x]
    {
      assert Get(t, x) == Get(u, x);
    }
  }

  /** Nesting loses nothing: the table is read back from its nested form. */
  lemma FlatUndoesNest(t: Table)
    ensures Flat(Nest(t)) == t
  {
    forall x: Slot
      ensures Get(Flat(Nest(t)), x) == Get(t, x)
    {
      SessionsMean(t, x.room, x.session);
      RoomsMean(t, x.room);
      FlatMeans(Nest(t), x);
    }
    SameTable(Flat(Nest(t)), t);
  }

  function Single(slot: Slot, data: KeyData): Rooms {
    map[slot.room := map[slot.session := data]]
  }

  lemma SingleUpdate(t: Table, slot: Slot, data: KeyData)
    ensures t[slot := data] == t + Flat(Single(slot, data))
  {
    forall x: Slot
      ensures Get(t[slot := data], x) == Get(t + Flat(Single(slot, data)), x)
    {
      FlatMeans(Single(slot, data), x);
    }
    SameTable(t[slot := data], t + Flat(Single(slot, data)));
  }

  lemma OverriddenBySingle(rooms: Rooms, slot: Slot, data: KeyData)
    requires forall r | r in rooms :: rooms[r] != map[]
    ensures Overridden(rooms, Single(slot, data))
        == rooms[slot.room := SessionsAt(rooms, slot.room)[slot.session := data]]
  {
    var sessions := SessionsAt(rooms, slot.room);
    assert sessions + map[slot.session := data] == sessions[slot.session := data];
    assert slot.session in sessions + map[slot.session := data];
    forall r | r in rooms && r != slot.room
      ensures SessionsAt(rooms, r) + SessionsAt(Single(slot, data), r) == rooms[r]
    {
    }
  }

  lemma NestedRoomsHaveSessions(t: Table)
    ensures forall r | r in Nest(t) :: Nest(t)[r] != map[]
  {
    forall r | r in Nest(t)
      ensures Nest(t)[r] != map[]
    {
      RoomsMean(t, r);
    }
  }

  lemma NestUpdate(t: Table, slot: Slot, data: KeyData)
    ensures Nest(t[slot := data]) == Nest(t)[slot.room := SessionsAt(Nest(t), slot.room)[slot.session := data]]
  {
    SingleUpdate(t, slot, data);
    NestOfOverride(t, Single(slot, data));
    NestedRoomsHaveSessions(t);
    OverriddenBySingle(Nest(t), slot, data);
  }

  method GroupRoomKeys(keys: seq<Row>) returns (rooms: Rooms)
    ensures rooms == Nest(RowMap(keys))
  {
    rooms := map[];
    for k := 0 to |keys|
      invariant rooms == Nest(RowMap(keys[..k]))
    {
      var slot, data := keys[k].slot, keys[k].data;
      assert keys[..k + 1] == keys[..k] + [keys[k]];
      RowMapSnoc(keys[..k], keys[k]);
      NestUpdate(RowMap(keys[..k]), slot, data);
      var sessions: Sessions := if slot.room in rooms then rooms[slot.room] else map[];
      rooms := rooms[slot.room := sessions[slot.session := data]];
    }
    assert keys[..|keys|] == keys;
  }

  lemma FlatGrowsBySession(rooms: Rooms, room: string, session: string, data: KeyData)
    ensures Flat(rooms[room := SessionsAt(rooms, room)[session := data]]) == Flat(rooms)[Slot(room, session) := data]
  {
    var grown := rooms[room := SessionsAt(rooms, room)[session := data]];
    forall x: Slot
      ensures Get(Flat(grown), x) == Get(Flat(rooms)[Slot(room, session) := data], x)
    {
      FlatMeans(grown, x);
      FlatMeans(rooms, x);
    }
    SameTable(Flat(grown), Flat(rooms)[Slot(room, session) := data]);
  }

  lemma FlatOfEmptyRoom(rooms: Rooms, room: string)
    requires room !in rooms
    ensures Flat(rooms[room := map[]]) == Flat(rooms)
  {
    forall x: Slot
      ensures Get(Flat(rooms[room := map[]]), x) == Get(Flat(rooms), x)
    {
      FlatMeans(rooms[room := map[]], x);
      FlatMeans(rooms, x);
    }
    SameTable(Flat(rooms[room := map[]]), Flat(rooms));
  }

  lemma OneMoreRow(rows: seq<Row>, done: Rooms, room: string, seen: Sessions, session: string, data: KeyData)
    requires RowMap(rows) == Flat(done[room := seen])
    ensures RowMap(rows + [Row(0, Slot(room, session), data)]) == Flat(done[room := seen[session := data]])
  {
    RowMapSnoc(rows, Row(0, Slot(room, session), data));
    FlatGrowsBySession(done[room := seen], room, session, data);
    assert done[room := seen][room := seen[session := data]] == done[room := seen[session := data]];
  }

  /** The inner loop, over one room's sessions in any order. `done` holds the rooms already flattened. */
  method AppendRoom(keys: seq<Row>, room: string, sessions: Sessions, ghost done: Rooms) returns (out: seq<Row>)
    requires room !in done && RowMap(keys) == Flat(done)
    ensures RowMap(out) == Flat(done[room := sessions])
  {
    out := keys;
    var todo := sessions.Keys;
    FlatOfEmptyRoom(done, room);
    ghost var seen: Sessions := map[];
    while todo != {}
      invariant Covers(seen, sessions, todo)
      invariant RowMap(out) == Flat(done[room := seen])
      decreases todo
    {
      var session :| session in todo;
      OneMoreRow(out, done, room, seen, session, sessions[session]);
      CoversOne(seen, sessions, todo, session);
      out := out + [Row(0, Slot(room, session), sessions[session])];
      seen := seen[session := sessions[session]];
      todo := todo - {session};
    }
    CoversAll(seen, sessions);
  }

  /** Rooms and sessions come in any order; the rows stored are the same. */
  method FlattenRoomKeys(rooms: Rooms) returns (keys: seq<Row>)
    ensures RowMap(keys) == Flat(rooms)
  {
    keys := [];
    var todo := rooms.Keys;
    ghost var done: Rooms := map[];
    assert Flat(done) == map[];
    while todo != {}
      invariant Covers(done, rooms, todo)
      invariant RowMap(keys) == Flat(done)
      decreases todo
    {
      var room :| room in todo;
      CoversOne(done, rooms, todo, room);
      keys := AppendRoom(keys, room, rooms[room], done);
      done := done[room := rooms[room]];
      todo := todo - {room};
    }
    CoversAll(done, rooms);
  }

  // ---------------------------------------------------------------- the tables

  datatype Db = Db(versions: map<int, Version>, stored: map<int, Table>, nextId: int)

  function StoredFor(db: Db, v: int): Table {
    if v in db.stored then db.stored[v] else map[]
  }

  function AfterPut(db: Db, v: int, t: Table): Db
    requires v in db.versions
  {
    var merged := StoredFor(db, v) + t;
    db.(stored := db.stored[v := merged],
        versions := db.versions[v := db.versions[v].(count := |merged|, etag := db.versions[v].etag + 1)])
  }

  function AfterDelete(db: Db, v: int): Db
    requires v in db.versions
  {
    db.(stored := db.stored[v := map[]],
        versions := db.versions[v := db.versions[v].(count := 0, etag := db.versions[v].etag + 1)])
  }

  function AfterCreate(db: Db, user: UserId, algorithm: string, authData: string): Db {
    db.(versions := db.versions[db.nextId := Version(user, algorithm, authData, 0, 0)], nextId := db.nextId + 1)
  }

  lemma HasMember(s: set<int>)
    requires s != {}
    ensures exists x: int :: x in s
  {
    assert (forall x: int :: x !in s) ==> s == {};
  }

  ghost predicate Owns(db: Db, user: UserId, v: int) {
    v in db.versions && db.versions[v].user == user
  }

  ghost predicate IsLatest(db: Db, user: UserId, v: int) {
    Owns(db, user, v) && forall w | Owns(db, user, w) :: w <= v
  }

  lemma UpsertOne(t: Table, rows: seq<Row>, row: Row)
    ensures t + RowMap(rows + [row]) == (t + RowMap(rows))[row.slot := row.data]
  {
    RowMapSnoc(rows, row);
  }

  /** Insert each row, or update the one in its slot. */
  method UpsertAll(t: Table, keys: seq<Row>) returns (out: Table)
    ensures out == t + RowMap(keys)
  {
    out := t;
    for k := 0 to |keys|
      invariant out == t + RowMap(keys[..k])
    {
      assert keys[..k + 1] == keys[..k] + [keys[k]];
      UpsertOne(t, keys[..k], keys[k]);
      out := out[keys[k].slot := keys[k].data];
    }
    assert keys[..|keys|] == keys;
  }

  class BackupTables {
    var versions: map<int, Version>
    var stored: map<int, Table>
    var nextId: int

    constructor ()
      ensures View() == EMPTY
    {
      versions, stored, nextId := map[], map[], 1;
    }

    function View(): Db
      reads this
    {
      Db(versions, stored, nextId)
    }

    method CreateBackupVersion(user: UserId, algorithm: string, authData: string) returns (id: int)
      modifies this
      ensures id == old(nextId) && View() == AfterCreate(old(View()), user, algorithm, authData)
    {
      id := nextId;
      versions := versions[id := Version(user, algorithm, authData, 0, 0)];
      nextId := nextId + 1;
    }

    /** The user's highest version, if any. */
    method GetLatestBackupVersion(user: UserId) returns (latest: Option<int>)
      ensures latest.None? ==> forall w :: !Owns(View(), user, w)
      ensures latest.Some? ==> IsLatest(View(), user, latest.value)
    {
      latest := None;
      var todo := versions.Keys;
      while todo != {}
        invariant todo <= versions.Keys
        invariant latest.None? ==> forall w | Owns(View(), user, w) :: w in todo
        invariant latest.Some?
            ==> Owns(View(), user, latest.value) && forall w | Owns(View(), user, w) :: w in todo || w <= latest.value
        decreases todo
      {
        HasMember(todo);
        var v: int :| v in todo;
        if versions[v].user == user && (latest.None? || v > latest.value) {
          latest := Some(v);
        }
        todo := todo - {v};
      }
    }

    /** One version's rows, in any order. */
    method GetRoomKeys(v: int) returns (rows: seq<Row>)
      ensures RowMap(rows) == StoredFor(View(), v) && |rows| == |StoredFor(View(), v)|
    {
      rows := [];
      var t: Table := if v in stored then stored[v] else map[];
      var todo := t.Keys;
      assert t - todo == map[];
      while todo != {}
        invariant todo <= t.Keys && RowMap(rows) == t - todo && |rows| + |todo| == |t|
        decreases todo
      {
        var slot :| slot in todo;
        RowMapSnoc(rows, Row(v, slot, t[slot]));
        assert t - (todo - {slot}) == (t - todo)[slot := t[slot]];
        rows := rows + [Row(v, slot, t[slot])];
        todo := todo - {slot};
      }
      assert t - {} == t;
    }

    /** Upsert every row, then recount and bump the etag. */
    method PutRoomKeys(v: int, keys: seq<Row>) returns (count: int, etag: int)
      requires v in versions
      modifies this
      ensures View() == AfterPut(old(View()), v, RowMap(keys))
      ensures count == versions[v].count && etag == versions[v].etag
    {
      var t := UpsertAll(if v in stored then stored[v] else map[], keys);
      stored := stored[v := t];
      count, etag := |t|, versions[v].etag + 1;
      versions := versions[v := versions[v].(count := count, etag := etag)];
    }

    method DeleteRoomKeys(v: int) returns (count: int, etag: int)
      requires v in versions
      modifies this
      ensures View() == AfterDelete(old(View()), v)
      ensures count == 0 && etag == versions[v].etag
    {
      stored := stored[v := map[]];
      count, etag := 0, versions[v].etag + 1;
      versions := versions[v := versions[v].(count := 0, etag := etag)];
    }
  }

  // ---------------------------------------------------------------- the service

  /** The whole string must be a decimal number of 64 bits. */
  function ParseVersion(version: string): Option<int> {
    match Number.ScanSigned(version)
    case Some((v, "")) => Some(v as int)
    case _ => None
  }

  lemma VersionStringParses(v: Number.Int64)
    ensures ParseVersion(Number.ShowInt(v)) == Some(v as int)
  {
    Number.SignedRoundTrip(v, "");
    assert Number.ShowInt(v) + "" == Number.ShowInt(v);
  }

  /** A string names a version iff it is its decimal notation, leading zeros and a sign allowed, and fits 64 bits. */
  lemma ParseVersionIff(version: string, v: int)
    ensures ParseVersion(version) == Some(v) <==>
            && Number.MIN_INT64 <= v <= Number.MAX_INT64
            && exists n :: (v == n && Number.Spelled(version, n, "")) ||
                 (version != "" && Number.Spelled(version[1..], n, "") &&
                   ((version[0] == '+' && v == n) || (version[0] == '-' && v + n == 0)))
  {
    if Number.MIN_INT64 <= v <= Number.MAX_INT64 {
      Number.ScanSignedIff(version, v, "");
    }
  }

  /** A fetch or a delete may name any version the user owns. */
  ghost function OwnedVerdict(db: Db, user: UserId, version: string): Reply<int> {
    if version == "" then MissingParam
    else match ParseVersion(version)
      case None => NotFound
      case Some(v) => if Owns(db, user, v) then Ok(v) else NotFound
  }

  lemma LatestExists(db: Db, user: UserId, v: int)
    requires Owns(db, user, v)
    ensures exists w :: IsLatest(db, user, w)
  {
    var owned := set w | w in db.versions && Owns(db, user, w);
    MaximumExists(owned, v);
    var m: int :| m in owned && forall w | w in owned :: w <= m;
    forall w | Owns(db, user, w)
      ensures w <= m
    {
      assert w in owned;
    }
    assert IsLatest(db, user, m);
  }

  lemma {:induction false} MaximumExists(s: set<int>, x: int)
    requires x in s
    ensures exists m :: m in s && forall y | y in s :: y <= m
    decreases s
  {
    if s == {x} {
      assert x in s && forall y | y in s :: y <= x;
    } else {
      var rest := s - {x};
      assert s == {x} + rest;
      HasMember(rest);
      var z: int :| z in rest;
      MaximumExists(rest, z);
      var m: int :| m in rest && forall y | y in rest :: y <= m;
      var top := if m < x then x else m;
      forall y | y in s
        ensures y <= top
      {
        assert y == x || y in rest;
      }
      assert top in s;
    }
  }

  ghost function Latest(db: Db, user: UserId): int
    requires exists v :: Owns(db, user, v)
  {
    var v :| Owns(db, user, v);
    LatestExists(db, user, v);
    var w :| IsLatest(db, user, w);
    w
  }

  /** A put must name the user's latest version. */
  ghost function PutVerdict(db: Db, user: UserId, version: string): Reply<int> {
    match OwnedVerdict(db, user, version)
    case Ok(v) => if IsLatest(db, user, v) then Ok(v) else WrongVersion(Number.ShowInt(Latest(db, user)))
    case error => error
  }

  method AssignVersion(keys: seq<Row>, v: int) returns (out: seq<Row>)
    ensures |out| == |keys| && RowMap(out) == RowMap(keys)
    ensures forall i | 0 <= i < |out| :: out[i] == keys[i].(version := v)
  {
    out := [];
    for k := 0 to |keys|
      invariant |out| == k && RowMap(out) == RowMap(keys[..k])
      invariant forall i | 0 <= i < k :: out[i] == keys[i].(version := v)
    {
      assert keys[..k + 1] == keys[..k] + [keys[k]];
      RowMapSnoc(keys[..k], keys[k]);
      RowMapSnoc(out, keys[k].(version := v));
      out := out + [keys[k].(version := v)];
    }
    assert keys[..|keys|] == keys;
  }

  ghost function PutReply(db: Db, verdict: Reply<int>): Reply<(int, int)>
    requires verdict.Ok? ==> verdict.value in db.versions
  {
    match verdict
    case Ok(v) => Ok((db.versions[v].count, db.versions[v].etag))
    case MissingParam => MissingParam
    case NotFound => NotFound
    case WrongVersion(current) => WrongVersion(current)
  }

  ghost function PutEffect(db: Db, user: UserId, version: string, rooms: Rooms): Db {
    match PutVerdict(db, user, version)
    case Ok(v) => AfterPut(db, v, Flat(rooms))
    case _ => db
  }

  ghost function DeleteEffect(db: Db, user: UserId, version: string): Db {
    match OwnedVerdict(db, user, version)
    case Ok(v) => AfterDelete(db, v)
    case _ => db
  }

  /** The first half of a put, outside the transaction: is the named version the latest? */
  method CheckPut(tables: BackupTables, user: UserId, version: string) returns (verdict: Reply<int>)
    ensures verdict == PutVerdict(tables.View(), user, version)
  {
    if version == "" {
      return MissingParam;
    }
    var parsed := ParseVersion(version);
    if parsed.None? {
      return NotFound;
    }
    var latest := tables.GetLatestBackupVersion(user);
    if latest.None? {
      return NotFound;
    }
    if latest.value != parsed.value {
      if parsed.value !in tables.versions || tables.versions[parsed.value].user != user {
        return NotFound;
      }
      assert Owns(tables.View(), user, parsed.value);
      return WrongVersion(Number.ShowInt(latest.value));
    }
    return Ok(parsed.value);
  }

  /** The second half: one transaction that writes the version checked before, whatever happened meanwhile. */
  method StoreChecked(tables: BackupTables, v: int, rooms: Rooms) returns (count: int, etag: int)
    requires v in tables.versions
    modifies tables
    ensures tables.View() == AfterPut(old(tables.View()), v, Flat(rooms))
    ensures count == tables.versions[v].count && etag == tables.versions[v].etag
  {
    var keys := FlattenRoomKeys(rooms);
    keys := AssignVersion(keys, v);
    count, etag := tables.PutRoomKeys(v, keys);
  }

  /** PUT room_keys/keys, when nothing comes between its two halves. */
  method PutRoomKeys(tables: BackupTables, user: UserId, version: string, rooms: Rooms)
    returns (reply: Reply<(int, int)>)
    modifies tables
    ensures tables.View() == PutEffect(old(tables.View()), user, version, rooms)
    ensures reply == PutReply(tables.View(), PutVerdict(old(tables.View()), user, version))
  {
    var verdict := CheckPut(tables, user, version);
    match verdict {
      case MissingParam =>
        return MissingParam;
      case NotFound =>
        return NotFound;
      case WrongVersion(current) =>
        return WrongVersion(current);
      case Ok(v) =>
        var count, etag := StoreChecked(tables, v, rooms);
        return Ok((count, etag));
    }
  }

  /** GET room_keys/keys. */
  method GetRoomKeys(tables: BackupTables, user: UserId, version: string) returns (reply: Reply<Rooms>)
    ensures reply == GetReply(tables.View(), user, version)
  {
    if version == "" {
      return MissingParam;
    }
    var parsed := ParseVersion(version);
    if parsed.None? || parsed.value !in tables.versions || tables.versions[parsed.value].user != user {
      return NotFound;
    }
    var rows := tables.GetRoomKeys(parsed.value);
    var rooms := GroupRoomKeys(rows);
    return Ok(rooms);
  }

  ghost function GetReply(db: Db, user: UserId, version: string): Reply<Rooms> {
    match OwnedVerdict(db, user, version)
    case Ok(v) => Ok(Nest(StoredFor(db, v)))
    case MissingParam => MissingParam
    case _ => NotFound
  }

  /** DELETE room_keys/keys. */
  method DeleteRoomKeys(tables: BackupTables, user: UserId, version: string) returns (reply: Reply<(int, int)>)
    modifies tables
    ensures tables.View() == DeleteEffect(old(tables.View()), user, version)
    ensures reply == PutReply(tables.View(), OwnedVerdict(old(tables.View()), user, version))
  {
    if version == "" {
      return MissingParam;
    }
    var parsed := ParseVersion(version);
    if parsed.None? || parsed.value !in tables.versions || tables.versions[parsed.value].user != user {
      return NotFound;
    }
    var count, etag := tables.DeleteRoomKeys(parsed.value);
    return Ok((count, etag));
  }

  /** End to end: a fetch after a put returns the old nested map overridden by the new one. */
  lemma GetAfterPut(db: Db, user: UserId, version: string, rooms: Rooms)
    requires PutVerdict(db, user, version).Ok?
    ensures var before := GetReply(db, user, version);
      var after := GetReply(PutEffect(db, user, version, rooms), user, version);
      before.Ok? && after == Ok(Overridden(before.value, rooms))
  {
    var v := PutVerdict(db, user, version).value;
    OwnersSurvivePut(db, v, Flat(rooms), user, version);
    NestOfOverride(StoredFor(db, v), rooms);
  }

  lemma OwnersSurvivePut(db: Db, v: int, t: Table, user: UserId, version: string)
    requires v in db.versions
    ensures OwnedVerdict(AfterPut(db, v, t), user, version) == OwnedVerdict(db, user, version)
    ensures StoredFor(AfterPut(db, v, t), v) == StoredFor(db, v) + t
  {
  }

  /** A put leaves every other version alone, and everything when it names a version that is not the latest. */
  lemma PutChangesOnlyTheLatest(db: Db, user: UserId, version: string, rooms: Rooms, w: int)
    requires !IsLatest(db, user, w) || ParseVersion(version) != Some(w)
    ensures var after := PutEffect(db, user, version, rooms);
      Get(after.versions, w) == Get(db.versions, w) && StoredFor(after, w) == StoredFor(db, w)
  {
    var verdict := PutVerdict(db, user, version);
    if verdict.Ok? {
      PutTouches(db, verdict.value, Flat(rooms));
    }
  }

  /**
   The four replies, exactly: written iff the string names the latest version, refused as wrong iff
   it names another version of the user, with the latest one in the reply, not found iff it names none.
   */
  lemma PutRepliesMean(db: Db, user: UserId, version: string)
    ensures var verdict := PutVerdict(db, user, version);
      && (verdict.MissingParam? <==> version == "")
      && (verdict.Ok? <==> version != "" && exists v :: ParseVersion(version) == Some(v) && IsLatest(db, user, v))
      && (verdict.WrongVersion?
        <==> version != "" && exists v ::
          ParseVersion(version) == Some(v) && Owns(db, user, v) && !IsLatest(db, user, v))
      && (verdict.NotFound? <==> version != "" && forall v :: ParseVersion(version) == Some(v) ==> !Owns(db, user, v))
      && (verdict.WrongVersion? ==> exists l :: IsLatest(db, user, l) && verdict.current == Number.ShowInt(l))
  {
    if ParseVersion(version).Some? && Owns(db, user, ParseVersion(version).value) {
      LatestExists(db, user, ParseVersion(version).value);
      assert IsLatest(db, user, Latest(db, user));
    }
  }

  // ---------------------------------------------------------------- all runs

  const EMPTY := Db(map[], map[], 1)

  /** `LateWrite` is the second half of a put whose check passed at some earlier moment. */
  datatype Request =
    | Create(user: UserId, algorithm: string, authData: string)
    | Put(user: UserId, version: string, rooms: Rooms)
    | LateWrite(v: int, rooms: Rooms)
    | Delete(user: UserId, version: string)

  ghost function Served(db: Db, r: Request): Db {
    match r
    case Create(user, algorithm, authData) => AfterCreate(db, user, algorithm, authData)
    case Put(user, version, rooms) => PutEffect(db, user, version, rooms)
    case LateWrite(v, rooms) => if v in db.versions then AfterPut(db, v, Flat(rooms)) else db
    case Delete(user, version) => DeleteEffect(db, user, version)
  }

  /** The version a request writes to. */
  ghost function Target(db: Db, r: Request): Reply<int> {
    match r
    case Create(_, _, _) => NotFound
    case Put(user, version, _) => PutVerdict(db, user, version)
    case LateWrite(v, _) => if v in db.versions then Ok(v) else NotFound
    case Delete(user, version) => OwnedVerdict(db, user, version)
  }

  ghost function ServedFrom(db: Db, rs: seq<Request>): Db {
    if rs == [] then db else Served(ServedFrom(db, rs[..|rs| - 1]), rs[|rs| - 1])
  }

  ghost function ServedAll(rs: seq<Request>): Db {
    ServedFrom(EMPTY, rs)
  }

  predicate Writing(r: Request) {
    r.Put? || r.LateWrite?
  }

  /** How many requests of the run wrote to version `v`. */
  ghost function Writes(rs: seq<Request>, v: int): nat {
    if rs == [] then 0
    else
      var init := rs[..|rs| - 1];
      Writes(init, v) + if Target(ServedAll(init), rs[|rs| - 1]) == Ok(v) then 1 else 0
  }

  /** What version `v` should hold: the writes since its last deletion, later ones on top. */
  ghost function Expected(rs: seq<Request>, v: int): Rooms {
    if rs == [] then map[]
    else
      var init, last := rs[..|rs| - 1], rs[|rs| - 1];
      if Target(ServedAll(init), last) != Ok(v) then Expected(init, v)
      else if Writing(last) then Overridden(Expected(init, v), last.rooms)
      else map[]
  }

  ghost predicate VersionInv(db: Db, rs: seq<Request>, v: int) {
    && (v in db.versions
      ==> 0 < v < db.nextId && db.versions[v].count == |StoredFor(db, v)| && db.versions[v].etag == Writes(rs, v))
    && (v !in db.versions ==> StoredFor(db, v) == map[] && Writes(rs, v) == 0)
    && Nest(StoredFor(db, v)) == Expected(rs, v)
  }

  lemma {:induction false} EveryRunCountsAndNumbers(rs: seq<Request>, v: int)
    ensures VersionInv(ServedAll(rs), rs, v) && ServedAll(rs).nextId > 0
  {
    if rs != [] {
      var init, last := rs[..|rs| - 1], rs[|rs| - 1];
      EveryRunCountsAndNumbers(init, v);
      RequestKeepsInv(init, last, v);
      assert init + [last] == rs;
    } else {
      assert Nest(map[]) == map[];
    }
  }

  lemma ServedLast(init: seq<Request>, last: Request, v: int)
    ensures ServedAll(init + [last]) == Served(ServedAll(init), last)
    ensures Writes(init + [last], v) == Writes(init, v) + if Target(ServedAll(init), last) == Ok(v) then 1 else 0
    ensures Expected(init + [last], v) ==
            if Target(ServedAll(init), last) != Ok(v) then Expected(init, v)
            else if Writing(last) then Overridden(Expected(init, v), last.rooms)
            else map[]
  {
    assert (init + [last])[..|init|] == init;
  }

  /** At most the rows, count and etag of version `v` changed. */
  ghost predicate Touches(db: Db, d: Db, v: int) {
    && d.nextId == db.nextId && d.versions.Keys == db.versions.Keys
    && (forall w | w in db.versions ::
      d.versions[w].user == db.versions[w].user && (w != v ==> d.versions[w] == db.versions[w]))
    && (forall w | w != v :: StoredFor(d, w) == StoredFor(db, w))
  }

  /** Whatever is no create touches the version it writes, and nothing when it is refused. */
  lemma ServedTouches(db: Db, r: Request)
    requires !r.Create?
    ensures Target(db, r).Ok? ==> Target(db, r).value in db.versions && Touches(db, Served(db, r), Target(db, r).value)
    ensures !Target(db, r).Ok? ==> Served(db, r) == db
  {
    match r
    case Put(user, version, rooms) =>
      if PutVerdict(db, user, version).Ok? {
        PutTouches(db, PutVerdict(db, user, version).value, Flat(rooms));
      }
    case LateWrite(v, rooms) =>
      if v in db.versions {
        PutTouches(db, v, Flat(rooms));
      }
    case Delete(user, version) =>
  }

  lemma PutTouches(db: Db, v: int, t: Table)
    requires v in db.versions
    ensures Touches(db, AfterPut(db, v, t), v)
  {
  }

  lemma UntouchedVersion(db: Db, r: Request, v: int)
    requires Target(db, r) != Ok(v)
    ensures StoredFor(Served(db, r), v) == StoredFor(db, v)
    ensures Served(db, r).nextId >= db.nextId
    ensures v in db.versions && v != db.nextId
        ==> v in Served(db, r).versions && Served(db, r).versions[v] == db.versions[v]
    ensures v !in db.versions && v in Served(db, r).versions ==>
            r.Create? && v == db.nextId < Served(db, r).nextId && Served(db, r).versions[v].count == 0
              && Served(db, r).versions[v].etag == 0
  {
    if !r.Create? {
      ServedTouches(db, r);
    }
  }

  lemma WrittenByPut(db: Db, user: UserId, version: string, rooms: Rooms, v: int)
    requires PutVerdict(db, user, version) == Ok(v)
    ensures var after := PutEffect(db, user, version, rooms);
      && v in db.versions && v in after.versions && after.nextId == db.nextId
      && after.versions[v].count == |StoredFor(after, v)| && after.versions[v].etag == db.versions[v].etag + 1
      && Nest(StoredFor(after, v)) == Overridden(Nest(StoredFor(db, v)), rooms)
  {
    var after := PutEffect(db, user, version, rooms);
    assert after == AfterPut(db, v, Flat(rooms));
    NestOfOverride(StoredFor(db, v), rooms);
  }

  lemma WrittenByDelete(db: Db, user: UserId, version: string, v: int)
    requires OwnedVerdict(db, user, version) == Ok(v)
    ensures var after := DeleteEffect(db, user, version);
      && v in db.versions && v in after.versions && after.nextId == db.nextId
      && after.versions[v].count == |StoredFor(after, v)| && after.versions[v].etag == db.versions[v].etag + 1
      && Nest(StoredFor(after, v)) == map[]
  {
    assert DeleteEffect(db, user, version) == AfterDelete(db, v);
  }

  lemma WrittenVersion(db: Db, r: Request, v: int)
    requires Target(db, r) == Ok(v)
    ensures v in db.versions && v in Served(db, r).versions && Served(db, r).nextId == db.nextId
    ensures Served(db, r).versions[v].count == |StoredFor(Served(db, r), v)|
    ensures Served(db, r).versions[v].etag == db.versions[v].etag + 1
    ensures Nest(StoredFor(Served(db, r), v))
            == if Writing(r) then Overridden(Nest(StoredFor(db, v)), r.rooms) else map[]
  {
    match r
    case Put(user, version, rooms) => WrittenByPut(db, user, version, rooms, v);
    case LateWrite(_, rooms) => NestOfOverride(StoredFor(db, v), rooms);
    case Delete(user, version) => WrittenByDelete(db, user, version, v);
  }

  lemma RequestKeepsInv(init: seq<Request>, last: Request, v: int)
    requires VersionInv(ServedAll(init), init, v) && ServedAll(init).nextId > 0
    ensures VersionInv(ServedAll(init + [last]), init + [last], v) && ServedAll(init + [last]).nextId > 0
  {
    var db := ServedAll(init);
    ServedLast(init, last, v);
    if Target(db, last) == Ok(v) {
      WrittenVersion(db, last, v);
    } else {
      UntouchedVersion(db, last, v);
    }
  }

  /**
   In every reachable state the count is the number of stored keys, the etag the number of writes,
   and the contents what was written.
   */
  lemma CountEtagAndContents(rs: seq<Request>, v: int)
    requires v in ServedAll(rs).versions
    ensures var db := ServedAll(rs);
      && db.versions[v].count == |StoredFor(db, v)|
      && db.versions[v].etag == Writes(rs, v)
      && Nest(StoredFor(db, v)) == Expected(rs, v)
  {
    EveryRunCountsAndNumbers(rs, v);
  }

  /** A version just created is the user's latest. */
  lemma CreatedIsLatest(rs: seq<Request>, user: UserId, algorithm: string, authData: string)
    ensures var db := ServedAll(rs); IsLatest(AfterCreate(db, user, algorithm, authData), user, db.nextId)
  {
    var db := ServedAll(rs);
    var after := AfterCreate(db, user, algorithm, authData);
    forall w | Owns(after, user, w)
      ensures w <= db.nextId
    {
      EveryRunCountsAndNumbers(rs, w);
    }
  }

  // ---------------------------------------------------------------- the two halves of a put

  ghost predicate Numbered(db: Db) {
    forall w | w in db.versions :: w < db.nextId
  }

  lemma ReachableIsNumbered(rs: seq<Request>)
    ensures Numbered(ServedAll(rs))
  {
    forall w | w in ServedAll(rs).versions
      ensures w < ServedAll(rs).nextId
    {
      EveryRunCountsAndNumbers(rs, w);
    }
  }

  ghost predicate CreatedMeanwhile(rs: seq<Request>, user: UserId) {
    exists r :: r in rs && r.Create? && r.user == user
  }

  /** Requests keep owners, and only a create by the user gives the user another version. */
  lemma {:induction false} VersionsOnlyGrow(db: Db, rs: seq<Request>, user: UserId)
    requires Numbered(db)
    ensures var later := ServedFrom(db, rs);
      && Numbered(later) && later.nextId >= db.nextId
      && (forall w | w in db.versions :: w in later.versions && later.versions[w].user == db.versions[w].user)
      && (CreatedMeanwhile(rs, user) ==> exists w :: Owns(later, user, w) && w >= db.nextId)
      && (!CreatedMeanwhile(rs, user) ==> forall w | Owns(later, user, w) :: Owns(db, user, w))
  {
    if rs != [] {
      var init, last := rs[..|rs| - 1], rs[|rs| - 1];
      assert rs == init + [last];
      VersionsOnlyGrow(db, init, user);
      var before, later := ServedFrom(db, init), ServedFrom(db, rs);
      OneRequestGrows(before, last, user);
      if CreatedMeanwhile(init, user) {
        var w :| Owns(before, user, w) && w >= db.nextId;
        assert Owns(later, user, w);
      } else if last.Create? && last.user == user {
        assert last in rs && Owns(later, user, before.nextId);
      }
    }
  }

  lemma CreateGrows(db: Db, r: Request, user: UserId)
    requires Numbered(db) && r.Create?
    ensures var d := AfterCreate(db, r.user, r.algorithm, r.authData);
      && Numbered(d) && d.nextId >= db.nextId
      && (forall w | w in db.versions :: w in d.versions && d.versions[w] == db.versions[w])
      && (forall w | Owns(d, user, w) :: Owns(db, user, w) || (r.user == user && w == db.nextId))
      && (r.user == user ==> Owns(d, user, db.nextId))
  {
  }

  lemma OneRequestGrows(db: Db, r: Request, user: UserId)
    requires Numbered(db)
    ensures Numbered(Served(db, r)) && Served(db, r).nextId >= db.nextId
    ensures forall w | w in db.versions ::
        w in Served(db, r).versions && Served(db, r).versions[w].user == db.versions[w].user
    ensures forall w | Owns(Served(db, r), user, w) ::
        Owns(db, user, w) || (r.Create? && r.user == user && w == db.nextId)
    ensures r.Create? && r.user == user ==> Owns(Served(db, r), user, db.nextId)
  {
    if r.Create? {
      CreateGrows(db, r, user);
    } else {
      ServedTouches(db, r);
    }
  }

  /** The write of a put lands on the user's latest version iff the user created none since the check. */
  lemma PutLandsOnTheLatestIff(db: Db, user: UserId, version: string, v: int, between: seq<Request>)
    requires Numbered(db) && PutVerdict(db, user, version) == Ok(v)
    ensures var later := ServedFrom(db, between);
      v in later.versions && (IsLatest(later, user, v) <==> !CreatedMeanwhile(between, user))
  {
    VersionsOnlyGrow(db, between, user);
  }

  /** One create in between is enough. */
  lemma LateWriteMissesTheLatest(user: UserId)
    ensures var db := AfterCreate(EMPTY, user, "a", "d");
      var later := ServedFrom(db, [Create(user, "a", "d")]);
      IsLatest(db, user, 1) && 1 in later.versions && !IsLatest(later, user, 1)
  {
    var db := AfterCreate(EMPTY, user, "a", "d");
    var between := [Create(user, "a", "d")];
    assert between[..0] == [] && ServedFrom(db, between) == Served(ServedFrom(db, []), between[0]);
    assert Owns(ServedFrom(db, between), user, 2);
  }
}
