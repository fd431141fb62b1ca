/**
 Room events and the values every other module shares.
 An event body is kept as the structures the code decodes it into; `None` means that the body
 does not decode into that structure.
 */
module Events {
  datatype Option<+T> = None | Some(value: T)

  type EventId = string
  type UserId = string

  /** The `users` / `users_default` part of a power-levels body. */
  datatype UserLevels = UserLevels(users: map<UserId, int>, usersDefault: int)

  /** The `events` / `state_default` part of a power-levels body. */
  datatype Thresholds = Thresholds(events: map<string, int>, stateDefault: int)

  /** The part of a power-levels body that the invite check decodes; absent fields are `None`. */
  datatype InviteLevels = InviteLevels(users: map<UserId, int>, usersDefault: Option<int>, invite: Option<int>)

  /**
   `membership` is `Some("")` for a body that decodes but carries no membership; `joinRule` is the
   text of that name in the body, if there is one.
   */
  datatype Content = Content(
    levels: Option<UserLevels>,
    thresholds: Option<Thresholds>,
    inviteLevels: Option<InviteLevels>,
    membership: Option<string>,
    joinRule: Option<string>,
    rest: string)

  datatype Event = Event(
    id: EventId,
    kind: string,
    content: Content,
    roomId: string,
    sender: UserId,
    originTs: int,
    stateKey: Option<string>,
    redacts: string,
    prevEvents: seq<EventId>,
    authEvents: seq<EventId>,
    depth: int,
    hashes: string,
    signatures: string,
    unsigned: string)

  /** An event with nothing but an ID, to be filled in where a concrete input is needed. */
  function Example(id: EventId): Event {
    Event(id, "m.room.message", Content(None, None, None, None, None, ""), "", "", 0, None, "", [], [], 0, "", "", "")
  }

  datatype StateTuple = StateTuple(kind: string, stateKey: string)

  type StateMap = map<StateTuple, EventId>

  const CREATE := "m.room.create"
  const POWER_LEVELS := "m.room.power_levels"
  const JOIN_RULES := "m.room.join_rules"
  const MEMBER := "m.room.member"
  const THIRD_PARTY_INVITE := "m.room.third_party_invite"

  const CREATE_TUPLE := StateTuple(CREATE, "")
  const POWER_LEVELS_TUPLE := StateTuple(POWER_LEVELS, "")
  const JOIN_RULES_TUPLE := StateTuple(JOIN_RULES, "")

  function MemberTuple(user: UserId): StateTuple {
    StateTuple(MEMBER, user)
  }

  /** A missing state key and the empty one name the same tuple. */
  function NewStateTuple(kind: string, stateKey: Option<string>): StateTuple {
    StateTuple(kind, if stateKey.Some? then stateKey.value else "")
  }

  function TupleOf(ev: Event): StateTuple {
    NewStateTuple(ev.kind, ev.stateKey)
  }

  /** What an event ID covers: everything but the ID itself, the signatures and the unsigned part. */
  function Stripped(ev: Event): Event {
    ev.(id := "", signatures := "", unsigned := "")
  }

  ghost predicate Injective(hash: Event -> EventId) {
    forall a, b :: hash(a) == hash(b) ==> a == b
  }

  function Get<K, V>(m: map<K, V>, k: K): Option<V> {
    if k in m then Some(m[k]) else None
  }

  /** The elements of a list. */
  ghost function Elems<T>(s: seq<T>): set<T> {
    set x | x in s
  }

  ghost predicate NoDuplicates<T>(s: seq<T>) {
    forall i, j | 0 <= i < j < |s| :: s[i] != s[j]
  }

  lemma ElemsAppend<T>(s: seq<T>, x: T)
    ensures Elems(s + [x]) == Elems(s) + {x}
  {
  }

  lemma ElemsTake<T>(s: seq<T>, k: nat)
    requires k < |s|
    ensures Elems(s[..k + 1]) == Elems(s[..k]) + {s[k]}
  {
    assert s[..k + 1] == s[..k] + [s[k]];
  }

  lemma {:induction false} NoDuplicatesCountsOnce<T>(s: seq<T>, x: T)
    requires NoDuplicates(s)
    ensures multiset(s)[x] == if x in s then 1 else 0
  {
    if s != [] {
      var k := |s| - 1;
      assert s == s[..k] + [s[k]];
      NoDuplicatesCountsOnce(s[..k], x);
    }
  }

  /** `part` is what is left of `whole` when the keys in `todo` are taken out. */
  ghost predicate Covers<K, V>(part: map<K, V>, whole: map<K, V>, todo: set<K>) {
    && todo <= whole.Keys && part.Keys == whole.Keys - todo
    && forall k | k in part :: part[k] == whole[k]
  }

  lemma CoversOne<K, V>(part: map<K, V>, whole: map<K, V>, todo: set<K>, k: K)
    requires Covers(part, whole, todo) && k in todo
    ensures Covers(part[k := whole[k]], whole, todo - {k})
  {
  }

  lemma CoversAll<K, V>(part: map<K, V>, whole: map<K, V>)
    requires Covers(part, whole, {})
    ensures part == whole
  {
  }
}

/** Byte-wise string order, which is how the code compares event IDs. */
module StringOrder {
  predicate StrLess(a: string, b: string) {
    if b == "" then false
    else if a == "" then true
    else if a[0] != b[0] then a[0] < b[0]
    else StrLess(a[1..], b[1..])
  }

  lemma {:induction false} StrLessIrreflexive(a: string)
    ensures !StrLess(a, a)
  {
    if a != "" {
      StrLessIrreflexive(a[1..]);
    }
  }

  lemma {:induction false} StrLessTransitive(a: string, b: string, c: string)
    requires StrLess(a, b) && StrLess(b, c)
    ensures StrLess(a, c)
  {
    if a != "" && a[0] == b[0] && b[0] == c[0] {
      StrLessTransitive(a[1..], b[1..], c[1..]);
    }
  }

  lemma {:induction false} StrLessTotal(a: string, b: string)
    ensures a == b || StrLess(a, b) || StrLess(b, a)
  {
    if a != "" && b != "" && a[0] == b[0] {
      StrLessTotal(a[1..], b[1..]);
      assert a == [a[0]] + a[1..] && b == [b[0]] + b[1..];
    }
  }
}
