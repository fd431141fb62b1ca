/**
 Delivery of to-device messages through /sync. A request acknowledges everything up to the
 position it presents; the server deletes that, then reads the next batch. Requests and
 responses may be lost, repeated, delayed or reordered, and deletes and reads of different
 requests interleave. No message is deleted before the client has it, and the client's log is
 always a prefix of what was inserted.
 */
module ToDevice {

  const BATCH_LIMIT: nat := 100

  datatype Message = Message(id: nat, user: string, device: string, sender: string, kind: string, content: string)

  // ---------------------------------------------------------------- tables as lists

  function Mailbox(rows: seq<Message>, user: string, device: string): seq<Message> {
    if rows == [] then []
    else
      var init, last := Mailbox(rows[..|rows| - 1], user, device), rows[|rows| - 1];
      if last.user == user && last.device == device then init + [last] else init
  }

  function Above(s: seq<Message>, x: int): seq<Message> {
    if s == [] then []
    else Above(s[..|s| - 1], x) + if s[|s| - 1].id > x then [s[|s| - 1]] else []
  }

  function UpTo(s: seq<Message>, x: int): seq<Message> {
    if s == [] then []
    else UpTo(s[..|s| - 1], x) + if s[|s| - 1].id <= x then [s[|s| - 1]] else []
  }

  /** The rows left when a device's messages up to `x` are deleted. */
  function Remaining(rows: seq<Message>, user: string, device: string, x: int): seq<Message> {
    if rows == [] then []
    else
      var init, last := Remaining(rows[..|rows| - 1], user, device, x), rows[|rows| - 1];
      if last.user == user && last.device == device && last.id <= x then init else init + [last]
  }

  function Take(s: seq<Message>, limit: nat): seq<Message> {
    if |s| <= limit then s else s[..limit]
  }

  ghost predicate Increasing(s: seq<Message>) {
    forall i, j | 0 <= i < j < |s| :: s[i].id < s[j].id
  }

  ghost predicate Below(s: seq<Message>, bound: int) {
    forall m | m in s :: m.id < bound
  }

  lemma Snoc(s: seq<Message>, m: Message)
    ensures (s + [m])[..|s|] == s
  {
  }

  lemma {:induction false} MailboxKeepsOrder(rows: seq<Message>, user: string, device: string)
    requires Increasing(rows)
    ensures Increasing(Mailbox(rows, user, device))
    ensures forall m | m in Mailbox(rows, user, device) :: m in rows
  {
    if rows != [] {
      MailboxKeepsOrder(rows[..|rows| - 1], user, device);
      BoundedByLast(rows);
    }
  }

  /** In an increasing list, the messages up to `x` come first and the others follow. */
  lemma SplitAt(s: seq<Message>, x: int)
    requires Increasing(s)
    ensures UpTo(s, x) + Above(s, x) == s
    ensures forall m | m in UpTo(s, x) :: m.id <= x
    ensures forall m | m in Above(s, x) :: m.id > x
  {
    SplitMembers(s, x);
    SplitConcat(s, x);
  }

  lemma {:induction false} SplitMembers(s: seq<Message>, x: int)
    ensures forall m | m in UpTo(s, x) :: m.id <= x
    ensures forall m | m in Above(s, x) :: m.id > x
  {
    if s != [] {
      SplitMembers(s[..|s| - 1], x);
    }
  }

  lemma {:induction false} SplitConcat(s: seq<Message>, x: int)
    requires Increasing(s)
    ensures UpTo(s, x) + Above(s, x) == s
  {
    if s != [] {
      var k := |s| - 1;
      SplitConcat(s[..k], x);
      assert s[..k] + [s[k]] == s;
      if s[k].id <= x {
        BoundedByLast(s);
        NothingAbove(s[..k], x);
        AllUpTo(s[..k], x);
      } else {
        Regroup(UpTo(s[..k], x), Above(s[..k], x), s[k]);
      }
    }
  }

  lemma Regroup(a: seq<Message>, b: seq<Message>, m: Message)
    ensures a + (b + [m]) == (a + b) + [m]
  {
  }

  lemma {:induction false} NothingAbove(s: seq<Message>, x: int)
    requires forall m | m in s :: m.id <= x
    ensures Above(s, x) == []
  {
    if s != [] {
      NothingAbove(s[..|s| - 1], x);
    }
  }

  lemma {:induction false} AboveTwice(s: seq<Message>, x: int, y: int)
    requires x <= y
    ensures Above(Above(s, x), y) == Above(s, y)
  {
    if s != [] {
      var k := |s| - 1;
      AboveTwice(s[..k], x, y);
      var init := Above(s[..k], x);
      if s[k].id > x {
        Snoc(init, s[k]);
        assert Above(s, x) == init + [s[k]];
      } else {
        assert Above(s, x) == init;
      }
    }
  }

  lemma {:induction false} DeleteFromMailbox(rows: seq<Message>, user: string, device: string, x: int)
    ensures Mailbox(Remaining(rows, user, device, x), user, device) == Above(Mailbox(rows, user, device), x)
  {
    if rows != [] {
      var k := |rows| - 1;
      DeleteFromMailbox(rows[..k], user, device, x);
      Snoc(Remaining(rows[..k], user, device, x), rows[k]);
      Snoc(Mailbox(rows[..k], user, device), rows[k]);
    }
  }

  lemma {:induction false} DeleteElsewhere(
    rows: seq<Message>, user: string, device: string, u: string, d: string, x: int)
    requires user != u || device != d
    ensures Mailbox(Remaining(rows, u, d, x), user, device) == Mailbox(rows, user, device)
  {
    if rows != [] {
      var k := |rows| - 1;
      DeleteElsewhere(rows[..k], user, device, u, d, x);
      Snoc(Remaining(rows[..k], u, d, x), rows[k]);
    }
  }

  /** Advancing the position to the last message of a batch adds exactly the batch. */
  lemma BatchAdvances(s: seq<Message>, x: int, limit: nat)
    requires Increasing(s) && limit > 0
    ensures var b := Take(Above(s, x), limit);
      UpTo(s, if b == [] then x else b[|b| - 1].id) == UpTo(s, x) + b
  {
    SplitAt(s, x);
    var above := Above(s, x);
    var b := Take(above, limit);
    if b != [] {
      var y := b[|b| - 1].id;
      SplitAt(s, y);
      var n := |UpTo(s, x)| + |b|;
      assert s[n - 1] == b[|b| - 1];
      PrefixUpTo(s, n);
      assert s[..n] == UpTo(s, x) + b;
    }
  }

  lemma AppendKeepsOrder(s: seq<Message>, m: Message)
    requires Increasing(s) && Below(s, m.id)
    ensures Increasing(s + [m]) && Below(s + [m], m.id + 1)
  {
    forall x | x in s + [m]
      ensures x.id < m.id + 1
    {
      assert x in s || x == m;
    }
  }

  lemma {:induction false} PrefixUpTo(s: seq<Message>, n: nat)
    requires Increasing(s) && 0 < n <= |s|
    ensures UpTo(s, s[n - 1].id) == s[..n]
    decreases |s|
  {
    var k := |s| - 1;
    if n <= k {
      assert s[..k][..n] == s[..n] && s[..k][n - 1] == s[n - 1];
      assert s[k].id > s[n - 1].id;
      PrefixUpTo(s[..k], n);
    } else {
      AllUpTo(s, s[k].id);
      assert s[..n] == s;
    }
  }

  lemma {:induction false} AllUpTo(s: seq<Message>, x: int)
    requires Below(s, x + 1)
    ensures UpTo(s, x) == s
  {
    if s != [] {
      var k := |s| - 1;
      assert s[k] in s;
      BelowTake(s, k, x + 1);
      AllUpTo(s[..k], x);
      assert s[..k] + [s[k]] == s;
    }
  }

  lemma BelowTake(s: seq<Message>, k: nat, bound: int)
    requires Below(s, bound) && k <= |s|
    ensures Below(s[..k], bound)
  {
  }

  // ---------------------------------------------------------------- the store and the service

  /** The rows after a list of messages got consecutive IDs. */
  function Arrived(rows: seq<Message>, nextId: nat, messages: seq<Message>): seq<Message> {
    if messages == [] then rows
    else
      var k := |messages| - 1;
      Arrived(rows, nextId, messages[..k]) + [messages[k].(id := nextId + k)]
  }

  lemma NextMatch(rows: seq<Message>, m: Message, user: string, device: string, since: int)
    ensures Above(Mailbox(rows + [m], user, device), since) ==
            Above(Mailbox(rows, user, device), since) +
            if m.user == user && m.device == device && m.id > since then [m] else []
  {
    Snoc(rows, m);
    Snoc(Mailbox(rows, user, device), m);
  }

  // ---------------------------------------------------------------- what a batch is, row by row

  ghost predicate Addressed(m: Message, user: string, device: string, since: int) {
    m.user == user && m.device == device && m.id > since
  }

  /** At most `limit` rows for the device above the position, in ID order; what is left out comes after a full batch. */
  ghost predicate IsBatch(
    batch: seq<Message>, rows: seq<Message>, user: string, device: string, since: int, limit: nat) {
    && |batch| <= limit && Increasing(batch)
    && (forall m | m in batch :: m in rows && Addressed(m, user, device, since))
    && (forall m | m in rows && Addressed(m, user, device, since) && m !in batch ::
          |batch| == limit && forall x | x in batch :: x.id < m.id)
  }

  lemma {:induction false} MailboxMeans(rows: seq<Message>, user: string, device: string, m: Message)
    ensures m in Mailbox(rows, user, device) <==> m in rows && m.user == user && m.device == device
  {
    if rows != [] {
      var k := |rows| - 1;
      MailboxMeans(rows[..k], user, device, m);
      assert rows == rows[..k] + [rows[k]];
    }
  }

  lemma {:induction false} AboveMeans(s: seq<Message>, x: int, m: Message)
    ensures m in Above(s, x) <==> m in s && m.id > x
  {
    if s != [] {
      var k := |s| - 1;
      AboveMeans(s[..k], x, m);
      assert s == s[..k] + [s[k]];
    }
  }

  lemma {:induction false} RemainingMeans(rows: seq<Message>, user: string, device: string, x: int, m: Message)
    ensures m in Remaining(rows, user, device, x) <==> m in rows && !(m.user == user && m.device == device && m.id <= x)
  {
    if rows != [] {
      var k := |rows| - 1;
      RemainingMeans(rows[..k], user, device, x, m);
      assert rows == rows[..k] + [rows[k]];
    }
  }

  lemma RestComesLater(s: seq<Message>, limit: nat, m: Message)
    requires Increasing(s) && m in s && m !in Take(s, limit)
    ensures |Take(s, limit)| == limit && forall x | x in Take(s, limit) :: x.id < m.id
  {
    var j :| 0 <= j < |s| && s[j] == m;
    TakeHolds(s, limit, j);
  }

  lemma TakeHolds(s: seq<Message>, limit: nat, j: nat)
    requires j < |s|
    ensures j < limit ==> s[j] in Take(s, limit)
  {
    assert j < limit ==> Take(s, limit)[j] == s[j];
  }

  lemma TakeIsBatch(rows: seq<Message>, user: string, device: string, since: int, limit: nat)
    requires Increasing(rows)
    ensures IsBatch(Take(Above(Mailbox(rows, user, device), since), limit), rows, user, device, since, limit)
  {
    var mailbox := Mailbox(rows, user, device);
    var above := Above(mailbox, since);
    MailboxKeepsOrder(rows, user, device);
    AboveKeepsOrder(mailbox, since);
    forall m
      ensures m in above <==> m in rows && Addressed(m, user, device, since)
    {
      AboveMeans(mailbox, since, m);
      MailboxMeans(rows, user, device, m);
    }
    forall m | m in above && m !in Take(above, limit)
      ensures |Take(above, limit)| == limit && forall x | x in Take(above, limit) :: x.id < m.id
    {
      RestComesLater(above, limit, m);
    }
  }

  /** A batch of what remains above the position is one of all rows. */
  lemma AnsweredIsBatch(rows: seq<Message>, user: string, device: string, since: int)
    requires Increasing(rows)
    ensures device == "" ==> Answered(rows, user, device, since) == []
    ensures device != "" ==> IsBatch(Answered(rows, user, device, since), rows, user, device, since, 100)
  {
    if device != "" {
      RemainingKeepsOrder(rows, user, device, since);
      var kept := Acknowledged(rows, user, device, since);
      TakeIsBatch(kept, user, device, since, BATCH_LIMIT);
      forall m | m in rows && Addressed(m, user, device, since)
        ensures m in kept
      {
        RemainingMeans(rows, user, device, since, m);
      }
    }
  }

  /** A request deletes what its device has acknowledged and nothing else. */
  lemma AcknowledgedMeans(rows: seq<Message>, user: string, device: string, since: int)
    ensures forall m :: m in Acknowledged(rows, user, device, since) <==>
        m in rows && !(device != "" && since > 0 && m.user == user && m.device == device && m.id <= since)
  {
    forall m
      ensures m in Acknowledged(rows, user, device, since) <==>
          m in rows && !(device != "" && since > 0 && m.user == user && m.device == device && m.id <= since)
    {
      RemainingMeans(rows, user, device, since, m);
    }
  }

  class ToDeviceStore {
    var rows: seq<Message>
    var nextId: nat

    /** Serial IDs start at one and become visible in increasing order. */
    ghost predicate Valid()
      reads this
    {
      Increasing(rows) && Below(rows, nextId) && nextId > 0
    }

    constructor ()
      ensures Valid() && rows == [] && nextId == 1
    {
      rows, nextId := [], 1;
    }

    method InsertMessages(messages: seq<Message>)
      requires Valid()
      modifies this
      ensures Valid() && nextId == old(nextId) + |messages|
      ensures rows == Arrived(old(rows), old(nextId), messages)
    {
      for k := 0 to |messages|
        invariant Valid() && nextId == old(nextId) + k
        invariant rows == Arrived(old(rows), old(nextId), messages[..k])
      {
        assert messages[..k + 1][..k] == messages[..k];
        AppendKeepsOrder(rows, messages[k].(id := nextId));
        rows := rows + [messages[k].(id := nextId)];
        nextId := nextId + 1;
      }
      assert messages[..|messages|] == messages;
    }

    /** Matching rows above a position, in ID order, at most `limit` of them. */
    method GetMessagesSince(user: string, device: string, since: int, limit: nat) returns (result: seq<Message>)
      ensures result == Take(Above(Mailbox(rows, user, device), since), limit)
      ensures Increasing(rows) ==> IsBatch(result, rows, user, device, since, limit)
    {
      var matching: seq<Message> := [];
      for k := 0 to |rows|
        invariant matching == Above(Mailbox(rows[..k], user, device), since)
      {
        assert rows[..k + 1] == rows[..k] + [rows[k]];
        NextMatch(rows[..k], rows[k], user, device, since);
        if rows[k].user == user && rows[k].device == device && rows[k].id > since {
          matching := matching + [rows[k]];
        }
      }
      assert rows[..|rows|] == rows;
      result := Take(matching, limit);
      if Increasing(rows) {
        TakeIsBatch(rows, user, device, since, limit);
      }
    }

    method DeleteMessagesUpTo(user: string, device: string, upTo: int)
      modifies this`rows
      ensures rows == Remaining(old(rows), user, device, upTo)
    {
      var kept: seq<Message> := [];
      for k := 0 to |rows|
        invariant rows == old(rows) && kept == Remaining(rows[..k], user, device, upTo)
      {
        assert rows[..k + 1] == rows[..k] + [rows[k]];
        Snoc(rows[..k], rows[k]);
        if !(rows[k].user == user && rows[k].device == device && rows[k].id <= upTo) {
          kept := kept + [rows[k]];
        }
      }
      assert rows[..|rows|] == rows;
      rows := kept;
    }
  }

  /** Position after a batch. */
  function NextPosition(batch: seq<Message>, since: int): int {
    if batch == [] then since else batch[|batch| - 1].id
  }

  /** The rows once a request has acknowledged its position. */
  function Acknowledged(rows: seq<Message>, user: string, device: string, since: int): seq<Message> {
    if device != "" && since > 0 then Remaining(rows, user, device, since) else rows
  }

  /** The batch a request answers with; a session without a device has no mailbox. */
  function Answered(rows: seq<Message>, user: string, device: string, since: int): seq<Message> {
    if device == "" then []
    else Take(Above(Mailbox(Acknowledged(rows, user, device, since), user, device), since), BATCH_LIMIT)
  }

  /** Delete what is acknowledged, read the next batch, report the highest ID read. */
  method GetToDeviceSync(store: ToDeviceStore, user: string, device: string, since: int)
    returns (batch: seq<Message>, next: int)
    requires store.Valid()
    modifies store`rows
    ensures store.Valid() && store.rows == Acknowledged(old(store.rows), user, device, since)
    ensures batch == Answered(old(store.rows), user, device, since)
    ensures next == NextPosition(batch, since)
    ensures if device == "" then batch == [] else IsBatch(batch, old(store.rows), user, device, since, 100)
    ensures forall m :: m in store.rows <==>
        m in old(store.rows) && !(device != "" && since > 0 && m.user == user && m.device == device && m.id <= since)
  {
    AnsweredIsBatch(store.rows, user, device, since);
    AcknowledgedMeans(store.rows, user, device, since);
    if device == "" {
      return [], since;
    }
    if since > 0 {
      store.DeleteMessagesUpTo(user, device, since);
      RemainingKeepsOrder(old(store.rows), user, device, since);
    }
    batch := store.GetMessagesSince(user, device, since, BATCH_LIMIT);
    MailboxKeepsOrder(store.rows, user, device);
    BatchIsAbove(Mailbox(store.rows, user, device), since, BATCH_LIMIT);
    next := HighestId(batch, since);
  }

  lemma BatchIsAbove(s: seq<Message>, x: int, limit: nat)
    requires Increasing(s)
    ensures Increasing(Take(Above(s, x), limit))
    ensures forall m | m in Take(Above(s, x), limit) :: m.id > x
  {
    SplitAt(s, x);
    AboveKeepsOrder(s, x);
  }

  /** The loop that turns a batch into the next position. */
  method HighestId(batch: seq<Message>, since: int) returns (next: int)
    requires Increasing(batch) && forall m | m in batch :: m.id > since
    ensures next == NextPosition(batch, since)
  {
    next := since;
    for k := 0 to |batch|
      invariant next == if k == 0 then since else batch[k - 1].id
    {
      if batch[k].id > next {
        next := batch[k].id;
      }
    }
  }

  lemma {:induction false} RemainingKeepsOrder(rows: seq<Message>, user: string, device: string, x: int)
    requires Increasing(rows)
    ensures Increasing(Remaining(rows, user, device, x))
    ensures forall m | m in Remaining(rows, user, device, x) :: m in rows
  {
    if rows != [] {
      var k := |rows| - 1;
      RemainingKeepsOrder(rows[..k], user, device, x);
      BoundedByLast(rows);
    }
  }

  lemma BoundedByLast(s: seq<Message>)
    requires Increasing(s) && s != []
    ensures Below(s[..|s| - 1], s[|s| - 1].id)
  {
  }

  lemma {:induction false} RemainingTwice(rows: seq<Message>, user: string, device: string, x: int)
    ensures Remaining(Remaining(rows, user, device, x), user, device, x) == Remaining(rows, user, device, x)
  {
    if rows != [] {
      var k := |rows| - 1;
      RemainingTwice(rows[..k], user, device, x);
      Snoc(Remaining(rows[..k], user, device, x), rows[k]);
    }
  }

  /** Presenting the same position again changes nothing more. */
  lemma AcknowledgeTwice(rows: seq<Message>, user: string, device: string, since: int)
    ensures Acknowledged(Acknowledged(rows, user, device, since), user, device, since)
        == Acknowledged(rows, user, device, since)
    ensures Answered(Acknowledged(rows, user, device, since), user, device, since)
        == Answered(rows, user, device, since)
  {
    RemainingTwice(rows, user, device, since);
  }

  lemma PositionNeverGoesBack(rows: seq<Message>, user: string, device: string, since: int)
    ensures since <= NextPosition(Answered(rows, user, device, since), since)
  {
    var batch := Answered(rows, user, device, since);
    if batch != [] {
      var mailbox := Mailbox(Acknowledged(rows, user, device, since), user, device);
      assert batch[|batch| - 1] in Above(mailbox, since);
      AboveMeans(mailbox, since, batch[|batch| - 1]);
    }
  }

  lemma AboveAt(s: seq<Message>, x: int, i: nat)
    requires Increasing(s) && i < |Above(s, x)|
    ensures |UpTo(s, x)| + i < |s| && Above(s, x)[i] == s[|UpTo(s, x)| + i]
  {
    SplitAt(s, x);
    assert (UpTo(s, x) + Above(s, x))[|UpTo(s, x)| + i] == Above(s, x)[i];
  }

  lemma AboveKeepsOrder(s: seq<Message>, x: int)
    requires Increasing(s)
    ensures Increasing(Above(s, x))
  {
    var above := Above(s, x);
    forall i, j | 0 <= i < j < |above|
      ensures above[i].id < above[j].id
    {
      AboveAt(s, x, i);
      AboveAt(s, x, j);
    }
  }

  // ---------------------------------------------------------------- the protocol

  datatype Response = Response(since: int, batch: seq<Message>, next: int)

  /**
   One device's conversation with the server. `history` is everything ever inserted, `floor` the
   highest position deleted for the device; both only describe the past.
   */
  datatype System = System(
    rows: seq<Message>, nextId: nat, history: seq<Message>, floor: int,
    token: int, log: seq<Message>,
    requests: set<int>, reading: set<int>, responses: set<Response>)

  datatype Action =
    | Insert(m: Message)
    | Send
    | Delete(t: int)
    | Read(t: int)
    | Fail(t: int)
    | Accept(r: Response)
    | DeleteForOther(user: string, device: string, upTo: int)

  ghost predicate Enabled(s: System, a: Action, user: string, device: string) {
    match a
    case Insert(m) => m.id == s.nextId
    case Send => true
    case Delete(t) => t in s.requests
    case Read(t) => t in s.reading
    case Fail(t) => t in s.requests || t in s.reading
    case Accept(r) => r in s.responses && r.since == s.token
    case DeleteForOther(u, d, upTo) => u != user || d != device
  }

  function Batch(s: System, t: int, user: string, device: string): seq<Message> {
    Take(Above(Mailbox(s.rows, user, device), t), BATCH_LIMIT)
  }

  function ResponseTo(s: System, t: int, user: string, device: string): Response {
    Response(t, Batch(s, t, user, device), NextPosition(Batch(s, t, user, device), t))
  }

  function Next(s: System, a: Action, user: string, device: string): System {
    match a
    case Insert(m) => s.(rows := s.rows + [m], nextId := s.nextId + 1, history := s.history + [m])
    case Send => s.(requests := s.requests + {s.token})
    case Delete(t) =>
      if t > 0 then
        s.(rows := Remaining(s.rows, user, device, t),
           floor := if t > s.floor then t else s.floor,
           reading := s.reading + {t})
      else s.(reading := s.reading + {t})
    case Read(t) =>
      s.(responses := s.responses + {ResponseTo(s, t, user, device)})
    case Fail(t) => s.(responses := s.responses + {Response(t, [], t)})
    case Accept(r) => s.(token := r.next, log := s.log + r.batch)
    case DeleteForOther(u, d, upTo) => s.(rows := Remaining(s.rows, u, d, upTo))
  }

  ghost predicate ResponseInv(r: Response, h: seq<Message>, token: int, nextId: nat) {
    && r.since <= token && r.next < nextId
    && (r.since == token ==> r.since <= r.next && UpTo(h, r.next) == UpTo(h, r.since) + r.batch)
  }

  /** The rows left in the mailbox are the messages above the highest position deleted. */
  ghost predicate TablesInv(s: System, user: string, device: string) {
    && Increasing(s.history) && Below(s.history, s.nextId)
    && Mailbox(s.rows, user, device) == Above(Mailbox(s.history, user, device), s.floor)
  }

  /** Requests on their way carry no position beyond the client's, and its log goes up to its position. */
  ghost predicate ClientInv(s: System, user: string, device: string) {
    && s.floor <= s.token < s.nextId
    && (forall t | t in s.requests :: t <= s.token)
    && (forall t | t in s.reading :: t <= s.token)
    && s.log == UpTo(Mailbox(s.history, user, device), s.token)
  }

  ghost predicate ResponsesInv(s: System, user: string, device: string) {
    forall r | r in s.responses :: ResponseInv(r, Mailbox(s.history, user, device), s.token, s.nextId)
  }

  ghost predicate Inv(s: System, user: string, device: string) {
    TablesInv(s, user, device) && ClientInv(s, user, device) && ResponsesInv(s, user, device)
  }

  /** A new row is above every position handed out so far. */
  lemma NewRowIsAbove(h: seq<Message>, m: Message, x: int)
    requires x < m.id
    ensures UpTo(h + [m], x) == UpTo(h, x) && Above(h + [m], x) == Above(h, x) + [m]
  {
    Snoc(h, m);
  }

  lemma InsertedMailbox(rows: seq<Message>, m: Message, user: string, device: string)
    ensures Mailbox(rows + [m], user, device) ==
            if m.user == user && m.device == device then Mailbox(rows, user, device) + [m]
              else Mailbox(rows, user, device)
  {
    Snoc(rows, m);
  }

  lemma InsertKeepsTables(s: System, m: Message, user: string, device: string)
    requires TablesInv(s, user, device) && s.floor < m.id && m.id == s.nextId
    ensures TablesInv(Next(s, Insert(m), user, device), user, device)
  {
    InsertedMailbox(s.history, m, user, device);
    InsertedMailbox(s.rows, m, user, device);
    NewRowIsAbove(Mailbox(s.history, user, device), m, s.floor);
    AppendKeepsOrder(s.history, m);
  }

  lemma InsertKeepsClient(s: System, m: Message, user: string, device: string)
    requires ClientInv(s, user, device) && m.id == s.nextId
    ensures ClientInv(Next(s, Insert(m), user, device), user, device)
  {
    InsertedMailbox(s.history, m, user, device);
    NewRowIsAbove(Mailbox(s.history, user, device), m, s.token);
  }

  lemma ResponseSurvivesInsert(r: Response, h: seq<Message>, m: Message, token: int, nextId: nat)
    requires m.id == nextId && token < nextId && ResponseInv(r, h, token, nextId)
    ensures ResponseInv(r, h, token, nextId + 1) && ResponseInv(r, h + [m], token, nextId + 1)
  {
    NewRowIsAbove(h, m, r.next);
    NewRowIsAbove(h, m, r.since);
  }

  lemma InsertKeepsResponses(s: System, m: Message, user: string, device: string)
    requires ResponsesInv(s, user, device) && s.token < s.nextId && m.id == s.nextId
    ensures ResponsesInv(Next(s, Insert(m), user, device), user, device)
  {
    InsertedMailbox(s.history, m, user, device);
    forall r | r in s.responses
      ensures ResponseInv(r, Mailbox(s.history + [m], user, device), s.token, s.nextId + 1)
    {
      ResponseSurvivesInsert(r, Mailbox(s.history, user, device), m, s.token, s.nextId);
    }
  }

  lemma InsertStep(s: System, m: Message, user: string, device: string)
    requires Inv(s, user, device) && m.id == s.nextId
    ensures Inv(Next(s, Insert(m), user, device), user, device)
  {
    InsertKeepsTables(s, m, user, device);
    InsertKeepsClient(s, m, user, device);
    InsertKeepsResponses(s, m, user, device);
  }

  lemma DeleteStep(s: System, t: int, user: string, device: string)
    requires Inv(s, user, device) && t in s.requests
    ensures Inv(Next(s, Delete(t), user, device), user, device)
  {
    var h := Mailbox(s.history, user, device);
    if t > 0 {
      DeleteFromMailbox(s.rows, user, device, t);
      if t > s.floor {
        AboveTwice(h, s.floor, t);
      } else {
        MailboxKeepsOrder(s.history, user, device);
        AboveLower(h, s.floor, t);
      }
    }
  }

  lemma {:induction false} AboveLower(s: seq<Message>, x: int, y: int)
    requires y <= x
    ensures Above(Above(s, x), y) == Above(s, x)
  {
    if s != [] {
      var k := |s| - 1;
      AboveLower(s[..k], x, y);
      var init := Above(s[..k], x);
      if s[k].id > x {
        Snoc(init, s[k]);
        assert Above(s, x) == init + [s[k]];
      } else {
        assert Above(s, x) == init;
      }
    }
  }

  /** A batch ends below the next ID to be given out. */
  lemma BatchBelowNext(s: System, t: int, user: string, device: string)
    requires Inv(s, user, device) && t < s.nextId
    ensures NextPosition(Batch(s, t, user, device), t) < s.nextId
  {
    var batch := Batch(s, t, user, device);
    if batch != [] {
      var last := batch[|batch| - 1];
      var mailbox := Mailbox(s.rows, user, device);
      assert last in Above(mailbox, t);
      AboveMeans(mailbox, t, last);
      AboveMeans(Mailbox(s.history, user, device), s.floor, last);
      MailboxKeepsOrder(s.history, user, device);
    }
  }

  /** A batch read at the client's position continues the log. */
  lemma BatchContinuesLog(s: System, user: string, device: string)
    requires Inv(s, user, device)
    ensures var batch := Batch(s, s.token, user, device);
      && batch == Take(Above(Mailbox(s.history, user, device), s.token), BATCH_LIMIT)
      && UpTo(Mailbox(s.history, user, device), NextPosition(batch, s.token))
        == UpTo(Mailbox(s.history, user, device), s.token) + batch
      && s.token <= NextPosition(batch, s.token)
  {
    var h := Mailbox(s.history, user, device);
    MailboxKeepsOrder(s.history, user, device);
    AboveTwice(h, s.floor, s.token);
    BatchAdvances(h, s.token, BATCH_LIMIT);
    SplitAt(h, s.token);
    var batch := Batch(s, s.token, user, device);
    if batch != [] {
      assert batch[|batch| - 1] in Above(h, s.token);
    }
  }

  lemma ReadStep(s: System, t: int, user: string, device: string)
    requires Inv(s, user, device) && t in s.reading
    ensures Inv(Next(s, Read(t), user, device), user, device)
  {
    BatchBelowNext(s, t, user, device);
    if t == s.token {
      BatchContinuesLog(s, user, device);
    }
    assert ResponseInv(ResponseTo(s, t, user, device), Mailbox(s.history, user, device), s.token, s.nextId);
  }

  lemma StepKeepsInv(s: System, a: Action, user: string, device: string)
    requires Inv(s, user, device) && Enabled(s, a, user, device)
    ensures Inv(Next(s, a, user, device), user, device)
  {
    match a
    case Insert(m) => InsertStep(s, m, user, device);
    case Send =>
    case Delete(t) => DeleteStep(s, t, user, device);
    case Read(t) => ReadStep(s, t, user, device);
    case Fail(t) => assert UpTo(Mailbox(s.history, user, device), t) + [] == UpTo(Mailbox(s.history, user, device), t);
    case Accept(r) => assert ResponseInv(r, Mailbox(s.history, user, device), s.token, s.nextId);
    case DeleteForOther(u, d, upTo) => DeleteElsewhere(s.rows, user, device, u, d, upTo);
  }

  ghost predicate IsRun(s: System, actions: seq<Action>, user: string, device: string)
    decreases |actions|
  {
    actions == []
      || (Enabled(s, actions[0], user, device) && IsRun(Next(s, actions[0], user, device), actions[1..], user, device))
  }

  function After(s: System, actions: seq<Action>, user: string, device: string): System
    decreases |actions|
  {
    if actions == [] then s else After(Next(s, actions[0], user, device), actions[1..], user, device)
  }

  lemma {:induction false} EveryRunKeepsInv(s: System, actions: seq<Action>, user: string, device: string)
    requires Inv(s, user, device) && IsRun(s, actions, user, device)
    ensures Inv(After(s, actions, user, device), user, device)
    decreases |actions|
  {
    if actions != [] {
      StepKeepsInv(s, actions[0], user, device);
      EveryRunKeepsInv(Next(s, actions[0], user, device), actions[1..], user, device);
    }
  }

  const START := System([], 1, [], 0, 0, [], {}, {}, {})

  /**
   At every moment of every run: the client's log is a prefix of the messages inserted for the
   device, and any message no longer in the table is in that log.
   */
  lemma LogIsPrefixAndNothingIsLost(actions: seq<Action>, user: string, device: string)
    requires IsRun(START, actions, user, device)
    ensures var s := After(START, actions, user, device);
      var inserted := Mailbox(s.history, user, device);
      && |s.log| <= |inserted| && s.log == inserted[..|s.log|]
      && forall m | m in inserted && m !in Mailbox(s.rows, user, device) :: m in s.log
  {
    EveryRunKeepsInv(START, actions, user, device);
    var s := After(START, actions, user, device);
    var h := Mailbox(s.history, user, device);
    MailboxKeepsOrder(s.history, user, device);
    SplitAt(h, s.token);
    SplitAt(h, s.floor);
    forall m | m in h && m !in Mailbox(s.rows, user, device)
      ensures m in s.log
    {
      assert m in UpTo(h, s.floor) + Above(h, s.floor);
      assert m in UpTo(h, s.token) + Above(h, s.token);
    }
  }

  /** The state after a request at the client's position has been sent, has deleted and has read. */
  function Polled(s: System, user: string, device: string): System {
    var sent := Next(s, Send, user, device);
    var deleted := Next(sent, Delete(s.token), user, device);
    Next(deleted, Read(s.token), user, device)
  }

  lemma PolledIsARun(s: System, user: string, device: string)
    ensures IsRun(s, [Send, Delete(s.token), Read(s.token)], user, device)
    ensures After(s, [Send, Delete(s.token), Read(s.token)], user, device) == Polled(s, user, device)
  {
    var sent := Next(s, Send, user, device);
    var deleted := Next(sent, Delete(s.token), user, device);
    var two := [Delete(s.token), Read(s.token)];
    var one := [Read(s.token)];
    assert ([Send] + two)[1..] == two && two[1..] == one && one[1..] == [];
    assert IsRun(deleted, one, user, device) && After(deleted, one, user, device) == Polled(s, user, device);
    assert IsRun(sent, two, user, device) && After(sent, two, user, device) == Polled(s, user, device);
    assert [Send] + two == [Send, Delete(s.token), Read(s.token)];
  }

  /** A round trip that is not lost delivers the next hundred messages, or all that are left. */
  lemma RoundTripMakesProgress(s: System, user: string, device: string)
    requires Inv(s, user, device)
    ensures var polled := After(s, [Send, Delete(s.token), Read(s.token)], user, device);
      var inserted := Mailbox(s.history, user, device);
      exists r ::
        Enabled(polled, Accept(r), user, device) &&
        |Next(polled, Accept(r), user, device).log|
          == (if |inserted| - |s.log| <= 100 then |inserted| else |s.log| + 100)
  {
    PolledIsARun(s, user, device);
    StepKeepsInv(s, Send, user, device);
    var sent := Next(s, Send, user, device);
    StepKeepsInv(sent, Delete(s.token), user, device);
    var deleted := Next(sent, Delete(s.token), user, device);
    BatchContinuesLog(deleted, user, device);
    var h := Mailbox(s.history, user, device);
    MailboxKeepsOrder(s.history, user, device);
    SplitAt(h, s.token);
    var r := ResponseTo(deleted, s.token, user, device);
    var polled := Polled(s, user, device);
    assert r in polled.responses;
    assert Enabled(polled, Accept(r), user, device);
    assert Next(polled, Accept(r), user, device).log == s.log + r.batch;
  }
}
