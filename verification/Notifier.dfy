/**
 The long-poll notifier. A waiter registers a one-slot channel under its user and blocks on it
 or on its deadline; a wake-up puts one item in every channel registered for the user and forgets
 them; a waiter that returns takes its channel out of the list. The three critical sections are
 atomic, everything else interleaves.
 */
module Notifier {
  import opened Events

  type Channel = nat

  /** The subscriber lists, the channels whose slot is taken, and how many channels were made. */
  datatype Board = Board(subscribers: map<UserId, seq<Channel>>, full: set<Channel>, created: nat)

  function ListOf(b: Board, user: UserId): seq<Channel> {
    if user in b.subscribers then b.subscribers[user] else []
  }

  function Registered(b: Board, user: UserId): Board {
    b.(subscribers := b.subscribers[user := ListOf(b, user) + [b.created]], created := b.created + 1)
  }

  ghost function Woken(b: Board, user: UserId): Board {
    if user in b.subscribers then
      b.(subscribers := b.subscribers - {user}, full := b.full + Elems(b.subscribers[user]))
    else b
  }

  function Without(s: seq<Channel>, ch: Channel): seq<Channel> {
    if s == [] then [] else if s[0] == ch then s[1..] else [s[0]] + Without(s[1..], ch)
  }

  function Cleaned(b: Board, user: UserId, ch: Channel): Board {
    var rest := Without(ListOf(b, user), ch);
    b.(subscribers := if rest == [] then b.subscribers - {user} else b.subscribers[user := rest])
  }

  class PostgresNotifier {
    var subscribers: map<UserId, seq<Channel>>
    var full: set<Channel>
    var created: nat

    constructor ()
      ensures View() == Board(map[], {}, 0)
    {
      subscribers, full, created := map[], {}, 0;
    }

    function View(): Board
      reads this
    {
      Board(subscribers, full, created)
    }

    /** Make a channel and append it to the user's list. */
    method Register(user: UserId) returns (ch: Channel)
      modifies this
      ensures ch == old(created) && View() == Registered(old(View()), user)
    {
      ch := created;
      created := created + 1;
      subscribers := subscribers[user := (if user in subscribers then subscribers[user] else []) + [ch]];
    }

    /** A send that gives up when the slot is taken. */
    method TrySend(ch: Channel) returns (sent: bool)
      modifies this`full
      ensures sent == (ch !in old(full)) && full == old(full) + {ch}
    {
      sent := ch !in full;
      if sent {
        full := full + {ch};
      }
    }

    method WakeUpUsers(user: UserId)
      modifies this
      ensures View() == Woken(old(View()), user)
    {
      if user !in subscribers {
        return;
      }
      var channels := subscribers[user];
      for k := 0 to |channels|
        invariant subscribers == old(subscribers) && created == old(created)
        invariant full == old(full) + Elems(channels[..k])
      {
        var _ := TrySend(channels[k]);
        ElemsTake(channels, k);
      }
      assert channels[..|channels|] == channels;
      subscribers := subscribers - {user};
    }

    /** What a returning waiter does: drop its channel, and the key with the last channel. */
    method Cleanup(user: UserId, ch: Channel)
      modifies this`subscribers
      ensures View() == Cleaned(old(View()), user, ch)
    {
      var rest := RemoveChannel(if user in subscribers then subscribers[user] else [], ch);
      if user in subscribers {
        subscribers := subscribers[user := rest];
      }
      if user !in subscribers || subscribers[user] == [] {
        subscribers := subscribers - {user};
        assert subscribers == old(subscribers) - {user};
      }
    }
  }

  /** Search for the first occurrence and splice it out. */
  method RemoveChannel(subs: seq<Channel>, ch: Channel) returns (rest: seq<Channel>)
    ensures rest == Without(subs, ch)
  {
    var k := 0;
    WithoutSuffix(subs, 0, ch);
    while k < |subs| && subs[k] != ch
      invariant k <= |subs| && Without(subs, ch) == subs[..k] + Without(subs[k..], ch)
    {
      WithoutSuffix(subs, k, ch);
      k := k + 1;
    }
    if k == |subs| {
      assert subs[k..] == [] && subs[..k] + [] == subs;
      return subs;
    }
    assert subs[k..][0] == ch && subs[k..][1..] == subs[k + 1..];
    rest := subs[..k] + subs[k + 1..];
  }

  lemma WithoutSuffix(s: seq<Channel>, k: nat, ch: Channel)
    requires k <= |s|
    ensures s[..0] + Without(s[0..], ch) == Without(s, ch)
    ensures k < |s| && s[k] != ch ==> s[..k] + Without(s[k..], ch) == s[..k + 1] + Without(s[k + 1..], ch)
  {
    assert s[0..] == s;
    if k < |s| && s[k] != ch {
      assert s[k..][1..] == s[k + 1..];
      assert s[..k] + [s[k]] == s[..k + 1];
    }
  }

  // ---------------------------------------------------------------- all interleavings

  datatype Phase = Blocked | Signalled | TimedOut | Finished

  datatype Waiter = Waiter(user: UserId, phase: Phase)

  /**
   `notified` only describes the past: the waiters whose user was woken at some moment between
   their registration and their cleanup. It is defined without looking at the subscriber lists.
   */
  datatype System = System(board: Board, waiters: map<Channel, Waiter>, notified: set<Channel>)

  datatype Action =
    | Start(user: UserId)
    | Wake(user: UserId)
    | Receive(ch: Channel)
    | Expire(ch: Channel)
    | Leave(ch: Channel)

  predicate InPhase(s: System, ch: Channel, phase: Phase) {
    ch in s.waiters && s.waiters[ch].phase == phase
  }

  predicate Active(s: System, ch: Channel) {
    ch in s.waiters && s.waiters[ch].phase != Finished
  }

  ghost predicate Enabled(s: System, a: Action) {
    match a
    case Start(_) => true
    case Wake(_) => true
    case Receive(ch) => InPhase(s, ch, Blocked) && ch in s.board.full
    case Expire(ch) => InPhase(s, ch, Blocked)
    case Leave(ch) => InPhase(s, ch, Signalled) || InPhase(s, ch, TimedOut)
  }

  ghost function ActiveFor(s: System, user: UserId): set<Channel> {
    set ch | ch in s.waiters && s.waiters[ch].phase != Finished && s.waiters[ch].user == user
  }

  function Move(s: System, ch: Channel, phase: Phase): map<Channel, Waiter>
    requires ch in s.waiters
  {
    s.waiters[ch := s.waiters[ch].(phase := phase)]
  }

  ghost function Next(s: System, a: Action): System
    requires Enabled(s, a)
  {
    match a
    case Start(user) =>
      s.(board := Registered(s.board, user), waiters := s.waiters[s.board.created := Waiter(user, Blocked)])
    case Wake(user) => s.(board := Woken(s.board, user), notified := s.notified + ActiveFor(s, user))
    case Receive(ch) => s.(board := s.board.(full := s.board.full - {ch}), waiters := Move(s, ch, Signalled))
    case Expire(ch) => s.(waiters := Move(s, ch, TimedOut))
    case Leave(ch) => s.(board := Cleaned(s.board, s.waiters[ch].user, ch), waiters := Move(s, ch, Finished))
  }

  predicate Listed(b: Board, user: UserId, ch: Channel) {
    ch in ListOf(b, user)
  }

  /** A key exists exactly while its list is non-empty, and no channel is listed twice. */
  ghost predicate ListsAreProper(b: Board) {
    forall u | u in b.subscribers :: b.subscribers[u] != [] && NoDuplicates(b.subscribers[u])
  }

  /** A channel is listed exactly under its waiter's user, while that waiter is active and unnotified. */
  ghost predicate ListsAreExact(s: System) {
    forall u, ch :: Listed(s.board, u, ch) <==> Active(s, ch) && s.waiters[ch].user == u && ch !in s.notified
  }

  ghost predicate WaiterInv(s: System, ch: Channel)
    requires ch in s.waiters
  {
    && ch < s.board.created
    && (s.waiters[ch].phase == Blocked ==> (ch in s.board.full <==> ch in s.notified))
    && (s.waiters[ch].phase == Signalled ==> ch in s.notified)
  }

  ghost predicate Inv(s: System) {
    && ListsAreProper(s.board) && ListsAreExact(s)
    && (forall ch | ch in s.waiters :: WaiterInv(s, ch))
    && s.board.full <= s.notified && s.notified <= s.waiters.Keys
  }

  // ---------------------------------------------------------------- preservation

  lemma StartStep(s: System, user: UserId)
    requires Inv(s)
    ensures Inv(Next(s, Start(user)))
  {
    var n := Next(s, Start(user));
    var ch := s.board.created;
    assert ch !in s.waiters && !Listed(s.board, user, ch);
    forall u, c
      ensures Listed(n.board, u, c) <==> Listed(s.board, u, c) || (u == user && c == ch)
    {
    }
    forall c | c in n.waiters
      ensures WaiterInv(n, c)
    {
      assert c != ch ==> WaiterInv(s, c);
    }
    assert NoDuplicates(ListOf(s.board, user) + [ch]);
  }

  lemma WakeStep(s: System, user: UserId)
    requires Inv(s)
    ensures Inv(Next(s, Wake(user)))
  {
    var n := Next(s, Wake(user));
    forall u, c
      ensures Listed(n.board, u, c) <==> Listed(s.board, u, c) && u != user
    {
    }
    forall c
      ensures Listed(s.board, user, c) <==> c in ActiveFor(s, user) && c !in s.notified
    {
    }
    forall c | c in n.waiters
      ensures WaiterInv(n, c)
    {
      assert WaiterInv(s, c);
      assert Listed(s.board, user, c) <==> c in ActiveFor(s, user) && c !in s.notified;
      assert c in n.board.full <==> c in s.board.full || Listed(s.board, user, c);
    }
    forall c | c in n.board.full
      ensures c in n.notified
    {
      assert c in s.board.full || Listed(s.board, user, c);
    }
  }

  lemma MoveStep(s: System, a: Action)
    requires Inv(s) && Enabled(s, a) && (a.Receive? || a.Expire?)
    ensures Inv(Next(s, a))
  {
    var n := Next(s, a);
    forall c | c in n.waiters
      ensures WaiterInv(n, c)
    {
      assert WaiterInv(s, c);
    }
    forall u, c
      ensures Listed(n.board, u, c) <==> Active(n, c) && n.waiters[c].user == u && c !in n.notified
    {
      assert Listed(n.board, u, c) <==> Listed(s.board, u, c);
    }
  }

  lemma PrependFresh(x: Channel, s: seq<Channel>)
    requires NoDuplicates(s) && x !in s
    ensures NoDuplicates([x] + s)
  {
  }

  lemma {:induction false} WithoutMeans(s: seq<Channel>, ch: Channel)
    requires NoDuplicates(s)
    ensures NoDuplicates(Without(s, ch))
    ensures forall c :: c in Without(s, ch) <==> c in s && c != ch
  {
    if s != [] {
      var tail := s[1..];
      assert s == [s[0]] + tail;
      WithoutMeans(tail, ch);
      assert s[0] !in tail;
      PrependFresh(s[0], Without(tail, ch));
    }
  }

  lemma LeaveStep(s: System, ch: Channel)
    requires Inv(s) && Enabled(s, Leave(ch))
    ensures Inv(Next(s, Leave(ch)))
  {
    var n := Next(s, Leave(ch));
    var user := s.waiters[ch].user;
    WithoutMeans(ListOf(s.board, user), ch);
    forall u, c
      ensures Listed(n.board, u, c) <==> Listed(s.board, u, c) && !(u == user && c == ch)
    {
    }
    forall c | c in n.waiters
      ensures WaiterInv(n, c)
    {
      assert WaiterInv(s, c);
    }
  }

  lemma StepKeepsInv(s: System, a: Action)
    requires Inv(s) && Enabled(s, a)
    ensures Inv(Next(s, a))
  {
    match a
    case Start(user) => StartStep(s, user);
    case Wake(user) => WakeStep(s, user);
    case Receive(_) => MoveStep(s, a);
    case Expire(_) => MoveStep(s, a);
    case Leave(ch) => LeaveStep(s, ch);
  }

  ghost predicate IsRun(s: System, actions: seq<Action>)
    decreases |actions|
  {
    actions == [] || (Enabled(s, actions[0]) && IsRun(Next(s, actions[0]), actions[1..]))
  }

  ghost function After(s: System, actions: seq<Action>): System
    requires IsRun(s, actions)
    decreases |actions|
  {
    if actions == [] then s else After(Next(s, actions[0]), actions[1..])
  }

  const START := System(Board(map[], {}, 0), map[], {})

  lemma {:induction false} EveryRunKeepsInv(s: System, actions: seq<Action>)
    requires Inv(s) && IsRun(s, actions)
    ensures Inv(After(s, actions))
    decreases |actions|
  {
    if actions != [] {
      StepKeepsInv(s, actions[0]);
      EveryRunKeepsInv(Next(s, actions[0]), actions[1..]);
    }
  }

  // ---------------------------------------------------------------- what a reachable state guarantees

  /**
   In every reachable state: every listed channel has a free slot, so a wake-up never drops a
   send; keys exist exactly while their lists are non-empty; lists hold no duplicates; and a
   finished waiter's channel is on no list.
   */
  lemma ReachableBoardIsProper(actions: seq<Action>)
    requires IsRun(START, actions)
    ensures var s := After(START, actions);
      && (forall u, ch | Listed(s.board, u, ch) :: ch !in s.board.full)
      && (forall u | u in s.board.subscribers :: s.board.subscribers[u] != [] && NoDuplicates(s.board.subscribers[u]))
      && (forall u, ch | InPhase(s, ch, Finished) :: !Listed(s.board, u, ch))
  {
    EveryRunKeepsInv(START, actions);
  }

  /**
   A blocked waiter can return with an event exactly when its user was woken after it
   registered: no wake-up is lost and none is spurious.
   */
  lemma ReceivesExactlyWhenNotified(actions: seq<Action>, ch: Channel)
    requires IsRun(START, actions)
    ensures var s := After(START, actions);
      InPhase(s, ch, Blocked) ==> (Enabled(s, Receive(ch)) <==> ch in s.notified)
  {
    EveryRunKeepsInv(START, actions);
    var s := After(START, actions);
    assert ch in s.waiters ==> WaiterInv(s, ch);
  }

  /** A wake-up fills exactly the slots of the user's active waiters that no earlier wake-up reached. */
  lemma WakeSignalsExactlyTheWaiters(actions: seq<Action>, user: UserId)
    requires IsRun(START, actions)
    ensures var s := After(START, actions);
      var n := Next(s, Wake(user));
      && n.board.full - s.board.full == ActiveFor(s, user) - s.notified
      && (forall ch | ch in ActiveFor(s, user) && InPhase(s, ch, Blocked) :: Enabled(n, Receive(ch)))
      && user !in n.board.subscribers
  {
    EveryRunKeepsInv(START, actions);
    var s := After(START, actions);
    var n := Next(s, Wake(user));
    forall ch
      ensures ch in n.board.full - s.board.full <==> ch in ActiveFor(s, user) - s.notified
    {
      assert Listed(s.board, user, ch) <==> ch in ActiveFor(s, user) && ch !in s.notified;
      assert ch in n.board.full <==> ch in s.board.full || Listed(s.board, user, ch);
    }
    WakeStep(s, user);
    forall ch | ch in ActiveFor(s, user) && InPhase(s, ch, Blocked)
      ensures Enabled(n, Receive(ch))
    {
      assert WaiterInv(n, ch);
    }
  }
}
