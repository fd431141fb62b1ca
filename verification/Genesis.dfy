/**
 The genesis of a room: a list of events is chained, given auth events from a string-keyed
 cache, and hashed in place. Event IDs form a Merkle chain, the cache is as good as one keyed
 by pairs exactly when state keys hold no separator, and creating a room establishes the graph
 and membership invariants.
 */
module Genesis {
  import opened Events
  import opened RoomStore

  // ---------------------------------------------------------------- the auth cache

  function CacheKey(t: StateTuple): string {
    t.kind + "|" + t.stateKey
  }

  /** The cache after a list of events: the last event of each key. */
  function CacheOf(list: seq<Event>): map<string, EventId> {
    if list == [] then map[]
    else
      var init, last := CacheOf(list[..|list| - 1]), list[|list| - 1];
      if last.stateKey.Some? then init[CacheKey(TupleOf(last)) := last.id] else init
  }

  /** With no separator in either part, a key determines its tuple. */
  lemma {:induction false} KeyDeterminesTuple(t: StateTuple, u: StateTuple)
    requires '|' !in t.kind && '|' !in t.stateKey && CacheKey(t) == CacheKey(u)
    ensures t == u
    decreases |t.kind|
  {
    var key := CacheKey(t);
    assert key[|u.kind|] == '|';
    forall i | 0 <= i < |key| && i != |t.kind|
      ensures key[i] != '|'
    {
      assert key[i] == if i < |t.kind| then t.kind[i] else t.stateKey[i - |t.kind| - 1];
    }
    assert |u.kind| == |t.kind|;
    assert t.kind == key[..|t.kind|] && u.kind == key[..|u.kind|];
    assert t.stateKey == key[|t.kind| + 1..] && u.stateKey == key[|u.kind| + 1..];
  }

  lemma {:induction false} CacheLookup(list: seq<Event>, t: StateTuple)
    requires '|' !in t.kind && '|' !in t.stateKey
    ensures Get(CacheOf(list), CacheKey(t)) == Get(StateOf(list), t)
  {
    if list != [] {
      var last := list[|list| - 1];
      CacheLookup(list[..|list| - 1], t);
      if last.stateKey.Some? && CacheKey(TupleOf(last)) == CacheKey(t) {
        KeyDeterminesTuple(t, TupleOf(last));
      }
    }
  }

  lemma OneEntry(ev: Event)
    requires ev.stateKey.Some?
    ensures CacheOf([ev]) == map[CacheKey(TupleOf(ev)) := ev.id] && StateOf([ev]) == map[TupleOf(ev) := ev.id]
  {
    assert [ev][..0] == [];
    assert CacheOf([]) == map[] && StateOf([]) == map[];
  }

  /** Moving the separator inside a state key gives another tuple with the same string. */
  lemma CollidingTuple(t: StateTuple) returns (u: StateTuple)
    requires '|' in t.stateKey
    ensures CacheKey(u) == CacheKey(t) && u != t && '|' in u.kind
  {
    var k :| 0 <= k < |t.stateKey| && t.stateKey[k] == '|';
    u := StateTuple(t.kind + "|" + t.stateKey[..k], t.stateKey[k + 1..]);
    assert t.stateKey == t.stateKey[..k] + "|" + t.stateKey[k + 1..];
    assert |u.kind| > |t.kind| && u.kind[|t.kind|] == '|';
  }

  lemma SeparatorBreaksTheCache(t: StateTuple, sample: Event)
    requires '|' in t.stateKey
    ensures exists list :: Get(CacheOf(list), CacheKey(t)) != Get(StateOf(list), t)
  {
    var u := CollidingTuple(t);
    var ev := sample.(kind := u.kind, stateKey := Some(u.stateKey));
    assert TupleOf(ev) == u;
    OneEntry(ev);
    assert Get(CacheOf([ev]), CacheKey(t)) != Get(StateOf([ev]), t);
  }

  /**
   For a type without a separator: the string cache answers a lookup like a pair-keyed map, for
   every list of events, iff the state key holds no separator either.
   */
  lemma CacheAnswersLikePairsIff(t: StateTuple, sample: Event)
    requires '|' !in t.kind
    ensures (forall list :: Get(CacheOf(list), CacheKey(t)) == Get(StateOf(list), t)) <==> '|' !in t.stateKey
  {
    if '|' !in t.stateKey {
      forall list
        ensures Get(CacheOf(list), CacheKey(t)) == Get(StateOf(list), t)
      {
        CacheLookup(list, t);
      }
    } else {
      SeparatorBreaksTheCache(t, sample);
    }
  }

  // ---------------------------------------------------------------- linking

  /** The entries an event of the genesis cites. */
  function GenesisKeys(ev: Event): seq<StateTuple> {
    if ev.kind == CREATE then []
    else if ev.kind == MEMBER && ev.stateKey == Some(ev.sender) then [CREATE_TUPLE, POWER_LEVELS_TUPLE]
    else
      [CREATE_TUPLE, POWER_LEVELS_TUPLE, MemberTuple(ev.sender)] +
      if ev.kind == MEMBER then [JOIN_RULES_TUPLE] else []
  }

  /** The entries of the string-keyed cache that exist, in order. */
  function Cached(keys: seq<StateTuple>, cache: map<string, EventId>): seq<EventId> {
    if keys == [] then []
    else
      var k := |keys| - 1;
      Cached(keys[..k], cache) + if CacheKey(keys[k]) in cache then [cache[CacheKey(keys[k])]] else []
  }

  predicate Clean(t: StateTuple) {
    '|' !in t.kind && '|' !in t.stateKey
  }

  /** For tuples without a separator the cache finds the latest earlier entries. */
  lemma {:induction false} CachedIsLookups(keys: seq<StateTuple>, before: seq<Event>)
    requires forall t | t in keys :: Clean(t)
    ensures Cached(keys, CacheOf(before)) == Lookups(keys, StateOf(before))
  {
    if keys != [] {
      var k := |keys| - 1;
      CachedIsLookups(keys[..k], before);
      assert keys[k] in keys;
      CacheLookup(before, keys[k]);
      assert Get(CacheOf(before), CacheKey(keys[k])) == Get(StateOf(before), keys[k]);
    }
  }

  lemma GenesisKeysAreClean(ev: Event)
    requires CitesSender(ev) ==> '|' !in ev.sender
    ensures forall t | t in GenesisKeys(ev) :: Clean(t)
  {
    KindsAreClean();
    forall t | t in GenesisKeys(ev)
      ensures Clean(t)
    {
      assert t == CREATE_TUPLE || t == POWER_LEVELS_TUPLE || t == JOIN_RULES_TUPLE
        || (CitesSender(ev) && t == MemberTuple(ev.sender));
    }
  }

  lemma KindsAreClean()
    ensures '|' !in CREATE && '|' !in POWER_LEVELS && '|' !in JOIN_RULES && '|' !in MEMBER
  {
  }

  /** Does the event cite its sender's membership? */
  predicate CitesSender(ev: Event) {
    ev.kind != CREATE && !(ev.kind == MEMBER && ev.stateKey == Some(ev.sender))
  }

  /**
   After every list, an event's cached auth events are the latest earlier entries it needs, iff
   it does not cite its sender's membership or the sender holds no separator.
   */
  lemma CachedAuthIsExactIff(ev: Event)
    ensures (forall before :: Cached(GenesisKeys(ev), CacheOf(before)) == Lookups(GenesisKeys(ev), StateOf(before)))
            <==> (CitesSender(ev) ==> '|' !in ev.sender)
  {
    if CitesSender(ev) && '|' in ev.sender {
      SeparatorMisleadsAuth(ev);
    } else {
      GenesisKeysAreClean(ev);
      forall before
        ensures Cached(GenesisKeys(ev), CacheOf(before)) == Lookups(GenesisKeys(ev), StateOf(before))
      {
        CachedIsLookups(GenesisKeys(ev), before);
      }
    }
  }

  /** A state event whose type swallows part of the sender's ID is taken for the sender's membership. */
  lemma SeparatorMisleadsAuth(ev: Event)
    requires CitesSender(ev) && '|' in ev.sender
    ensures exists before :: Cached(GenesisKeys(ev), CacheOf(before)) != Lookups(GenesisKeys(ev), StateOf(before))
  {
    var u := CollidingTuple(MemberTuple(ev.sender));
    var other := ev.(kind := u.kind, stateKey := Some(u.stateKey));
    assert TupleOf(other) == u;
    OneEntry(other);
    GenesisKeyKinds(ev);
    AllAbsent(GenesisKeys(ev), StateOf([other]));
    OnePresent(GenesisKeys(ev), CacheOf([other]), 2);
    assert Cached(GenesisKeys(ev), CacheOf([other])) != Lookups(GenesisKeys(ev), StateOf([other]));
  }

  lemma GenesisKeyKinds(ev: Event)
    requires CitesSender(ev)
    ensures forall t | t in GenesisKeys(ev) :: '|' !in t.kind
    ensures |GenesisKeys(ev)| > 2 && GenesisKeys(ev)[2] == MemberTuple(ev.sender)
  {
    KindsAreClean();
    forall t | t in GenesisKeys(ev)
      ensures t.kind == CREATE || t.kind == POWER_LEVELS || t.kind == MEMBER || t.kind == JOIN_RULES
    {
    }
  }

  lemma {:induction false} AllAbsent(keys: seq<StateTuple>, state: StateMap)
    requires forall t | t in keys :: t !in state
    ensures Lookups(keys, state) == []
  {
    if keys != [] {
      AllAbsent(keys[..|keys| - 1], state);
      assert keys[|keys| - 1] in keys;
    }
  }

  lemma {:induction false} OnePresent(keys: seq<StateTuple>, cache: map<string, EventId>, k: nat)
    requires k < |keys| && CacheKey(keys[k]) in cache
    ensures Cached(keys, cache) != []
    decreases |keys|
  {
    if k < |keys| - 1 {
      OnePresent(keys[..|keys| - 1], cache, k);
    }
  }

  /** One event linked behind a list of linked events. */
  function Link(ev: Event, before: seq<Event>, hash: Event -> EventId, sign: Event -> string): Event {
    var prevs := if before == [] then [] else [before[|before| - 1].id];
    var depth := if before == [] then 0 else before[|before| - 1].depth + 1;
    var linked := ev.(prevEvents := prevs, depth := depth, authEvents := Cached(GenesisKeys(ev), CacheOf(before)));
    var named := linked.(id := hash(Stripped(linked)));
    named.(signatures := sign(named))
  }

  function Linked(events: seq<Event>, hash: Event -> EventId, sign: Event -> string): (r: seq<Event>)
    ensures |r| == |events|
  {
    if events == [] then []
    else
      var before := Linked(events[..|events| - 1], hash, sign);
      before + [Link(events[|events| - 1], before, hash, sign)]
  }

  /** The tracker that stands in for the room's tables while the list is linked. */
  class GenesisState {
    var latestDepth: int
    var latestEventId: EventId
    var authCache: map<string, EventId>

    constructor ()
      ensures latestDepth == 0 && latestEventId == "" && authCache == map[]
    {
      latestDepth, latestEventId, authCache := 0, "", map[];
    }

    function GetAuth(t: StateTuple): Option<EventId>
      reads this
    {
      Get(authCache, CacheKey(t))
    }

    method Track(ev: Event)
      modifies this
      ensures latestDepth == ev.depth && latestEventId == ev.id
      ensures authCache == if ev.stateKey.Some? then old(authCache)[CacheKey(TupleOf(ev)) := ev.id] else old(authCache)
    {
      latestEventId, latestDepth := ev.id, ev.depth;
      if ev.stateKey.Some? {
        authCache := authCache[CacheKey(TupleOf(ev)) := ev.id];
      }
    }
  }

  lemma CachedSnoc(keys: seq<StateTuple>, t: StateTuple, cache: map<string, EventId>)
    ensures Cached(keys + [t], cache) == Cached(keys, cache) + if CacheKey(t) in cache then [cache[CacheKey(t)]] else []
  {
    assert (keys + [t])[..|keys|] == keys;
  }

  method AppendAuth(auths: seq<EventId>, t: StateTuple, tracker: GenesisState, ghost keys: seq<StateTuple>)
    returns (r: seq<EventId>)
    requires auths == Cached(keys, tracker.authCache)
    ensures r == Cached(keys + [t], tracker.authCache)
  {
    CachedSnoc(keys, t, tracker.authCache);
    r := if tracker.GetAuth(t).Some? then auths + [tracker.GetAuth(t).value] else auths;
  }

  lemma KeyLists(ev: Event)
    requires ev.kind == MEMBER ==> ev.stateKey.Some?
    ensures var own := ev.kind == MEMBER && ev.stateKey == Some(ev.sender);
      GenesisKeys(ev) ==
      if ev.kind == CREATE then []
      else if own then [CREATE_TUPLE] + [POWER_LEVELS_TUPLE]
      else if ev.kind == MEMBER
        then [CREATE_TUPLE] + [POWER_LEVELS_TUPLE] + [MemberTuple(ev.sender)] + [JOIN_RULES_TUPLE]
      else [CREATE_TUPLE] + [POWER_LEVELS_TUPLE] + [MemberTuple(ev.sender)]
    ensures [] + [CREATE_TUPLE] == [CREATE_TUPLE]
  {
  }

  /** Auth events from the cache; a member event without a state key would be dereferenced. */
  method ResolveGenesisAuth(ev: Event, tracker: GenesisState) returns (auths: seq<EventId>)
    requires ev.kind == MEMBER ==> ev.stateKey.Some?
    ensures auths == Cached(GenesisKeys(ev), tracker.authCache)
  {
    KeyLists(ev);
    auths := [];
    if ev.kind == CREATE {
      return;
    }
    auths := AppendAuth(auths, CREATE_TUPLE, tracker, []);
    ghost var keys := [CREATE_TUPLE];
    if ev.kind == MEMBER && ev.stateKey.value == ev.sender {
      if tracker.GetAuth(POWER_LEVELS_TUPLE).Some? {
        auths := AppendAuth(auths, POWER_LEVELS_TUPLE, tracker, keys);
      } else {
        CachedSnoc(keys, POWER_LEVELS_TUPLE, tracker.authCache);
      }
      return;
    }
    auths := AppendAuth(auths, POWER_LEVELS_TUPLE, tracker, keys);
    keys := keys + [POWER_LEVELS_TUPLE];
    auths := AppendAuth(auths, MemberTuple(ev.sender), tracker, keys);
    keys := keys + [MemberTuple(ev.sender)];
    if ev.kind == MEMBER {
      auths := AppendAuth(auths, JOIN_RULES_TUPLE, tracker, keys);
    }
  }

  ghost predicate Linkable(events: seq<Event>) {
    forall i | 0 <= i < |events| :: events[i].kind == MEMBER ==> events[i].stateKey.Some?
  }

  /** The tracker agrees with a list of linked events. */
  ghost predicate Tracks(tracker: GenesisState, before: seq<Event>)
    reads tracker
  {
    && tracker.authCache == CacheOf(before)
    && (before != []
      ==> tracker.latestEventId == before[|before| - 1].id && tracker.latestDepth == before[|before| - 1].depth)
  }

  /** One round of the loop: links, auth events, hash, signature, tracker. */
  method LinkOne(
    draft: Event, tracker: GenesisState, first: bool, ghost before: seq<Event>, hash: Event -> EventId,
    sign: Event -> string)
    returns (ev: Event)
    requires Tracks(tracker, before) && first == (before == [])
    requires draft.kind == MEMBER ==> draft.stateKey.Some?
    modifies tracker
    ensures ev == Link(draft, before, hash, sign) && Tracks(tracker, before + [ev])
  {
    var prevs := if first then [] else [tracker.latestEventId];
    var depth := if first then 0 else tracker.latestDepth + 1;
    var auths := ResolveGenesisAuth(draft, tracker);
    ev := draft.(prevEvents := prevs, depth := depth, authEvents := auths);
    ev := ev.(id := hash(Stripped(ev)));
    ev := ev.(signatures := sign(ev));
    assert ev == Link(draft, before, hash, sign);
    tracker.Track(ev);
    CacheSnoc(before, ev);
  }

  lemma CacheSnoc(before: seq<Event>, ev: Event)
    ensures CacheOf(before + [ev])
            == if ev.stateKey.Some? then CacheOf(before)[CacheKey(TupleOf(ev)) := ev.id] else CacheOf(before)
  {
    assert (before + [ev])[..|before|] == before;
  }

  lemma LinkedSnoc(drafts: seq<Event>, i: nat, hash: Event -> EventId, sign: Event -> string)
    requires i < |drafts|
    ensures var before := Linked(drafts[..i], hash, sign);
      Linked(drafts[..i + 1], hash, sign) == before + [Link(drafts[i], before, hash, sign)]
  {
    TakeOfTake(drafts, i + 1, i);
  }

  /** Writing at the border of a finished prefix moves the border by one. */
  lemma ReplaceHead(done: seq<Event>, drafts: seq<Event>, i: nat)
    requires |done| == i < |drafts|
    ensures (done + drafts[i..])[i] == drafts[i]
    ensures forall ev :: (done + drafts[i..])[i := ev] == (done + [ev]) + drafts[i + 1..]
  {
  }

  /** Complete the `i`-th event in place. */
  method LinkAt(
    events: array<Event>, i: nat, tracker: GenesisState, ghost before: seq<Event>, hash: Event -> EventId,
    sign: Event -> string)
    requires i < events.Length && |before| == i && Tracks(tracker, before)
    requires events[i].kind == MEMBER ==> events[i].stateKey.Some?
    modifies events, tracker
    ensures var ev := Link(old(events[i]), before, hash, sign);
      events[..] == old(events[..])[i := ev] && Tracks(tracker, before + [ev])
  {
    var ev := LinkOne(events[i], tracker, i == 0, before, hash, sign);
    events[i] := ev;
  }

  lemma LinkedStep(drafts: seq<Event>, i: nat, done: seq<Event>, hash: Event -> EventId, sign: Event -> string)
    requires i < |drafts| && done == Linked(drafts[..i], hash, sign)
    ensures var next := done + [Link(drafts[i], done, hash, sign)];
      && next == Linked(drafts[..i + 1], hash, sign) && |next| == i + 1
      && (done + drafts[i..])[i := next[i]] == next + drafts[i + 1..] && (done + drafts[i..])[i] == drafts[i]
  {
    LinkedSnoc(drafts, i, hash, sign);
    ReplaceHead(done, drafts, i);
  }

  /** Each event of the list is completed in place. */
  method LinkAndHashGenesis(events: array<Event>, hash: Event -> EventId, sign: Event -> string)
    requires Linkable(events[..])
    modifies events
    ensures events[..] == Linked(old(events[..]), hash, sign)
  {
    var tracker := new GenesisState();
    ghost var drafts := events[..];
    ghost var done: seq<Event> := [];
    assert [] + drafts[0..] == drafts;
    for i := 0 to events.Length
      invariant fresh(tracker) && Tracks(tracker, done)
      invariant done == Linked(drafts[..i], hash, sign) && |done| == i
      invariant events[..] == done + drafts[i..]
    {
      LinkedStep(drafts, i, done, hash, sign);
      assert events[i] == events[..][i] == drafts[i];
      LinkAt(events, i, tracker, done, hash, sign);
      done := done + [Link(drafts[i], done, hash, sign)];
    }
    assert drafts[..events.Length] == drafts && done + drafts[events.Length..] == done;
  }

  // ---------------------------------------------------------------- the chain

  lemma {:induction false} LinkedAt(events: seq<Event>, hash: Event -> EventId, sign: Event -> string, k: nat)
    requires k < |events|
    ensures Linked(events, hash, sign)[..k] == Linked(events[..k], hash, sign)
    ensures Linked(events, hash, sign)[k] == Link(events[k], Linked(events[..k], hash, sign), hash, sign)
    decreases |events|
  {
    var n := |events| - 1;
    var init := Linked(events[..n], hash, sign);
    var last := Link(events[n], init, hash, sign);
    assert Linked(events, hash, sign) == init + [last];
    TakeOfSnoc(init, last, k);
    if k < n {
      LinkedAt(events[..n], hash, sign, k);
      TakeOfTake(events, n, k);
    }
  }

  lemma TakeOfSnoc<T>(a: seq<T>, x: T, k: nat)
    requires k <= |a|
    ensures (a + [x])[..k] == a[..k] && (a + [x])[k] == if k < |a| then a[k] else x
    ensures a[..|a|] == a
  {
  }

  lemma TakeOfTake<T>(a: seq<T>, n: nat, k: nat)
    requires k < n <= |a|
    ensures a[..n][..k] == a[..k] && a[..n][k] == a[k]
  {
  }

  /**
   The `k`-th linked event is its draft with depth, predecessor, auth events, ID and signature filled
   in; the ID covers all but itself, the signatures and the unsigned part, and the signature covers the ID.
   */
  lemma {:induction false} LinkedFields(events: seq<Event>, hash: Event -> EventId, sign: Event -> string, k: nat)
    requires k < |events|
    ensures var l := Linked(events, hash, sign);
      && l[k].depth == k
      && l[k].prevEvents == (if k == 0 then [] else [l[k - 1].id])
      && l[k].id == hash(l[k].(id := "", signatures := "", unsigned := ""))
      && l[k].signatures == sign(l[k].(signatures := events[k].signatures))
      && l[k] == events[k].(prevEvents := l[k].prevEvents, authEvents := l[k].authEvents, depth := l[k].depth,
           id := l[k].id, signatures := l[k].signatures)
      && l[k].authEvents == Cached(GenesisKeys(events[k]), CacheOf(l[..k]))
  {
    LinkedAt(events, hash, sign, k);
    var l, before := Linked(events, hash, sign), Linked(events[..k], hash, sign);
    if k > 0 {
      LinkedFields(events, hash, sign, k - 1);
      assert before[k - 1] == l[..k][k - 1] == l[k - 1];
    }
    StrippedLink(events[k], before, hash, sign);
  }

  lemma StrippedLink(ev: Event, before: seq<Event>, hash: Event -> EventId, sign: Event -> string)
    ensures var e := Link(ev, before, hash, sign);
      && e.id == hash(e.(id := "", signatures := "", unsigned := ""))
      && e.signatures == sign(e.(signatures := ev.signatures))
  {
    var e := Link(ev, before, hash, sign);
    var linked := ev.(prevEvents := e.prevEvents, depth := e.depth, authEvents := e.authEvents);
    assert Stripped(linked) == e.(id := "", signatures := "", unsigned := "");
    assert linked.(id := e.id) == e.(signatures := ev.signatures);
  }

  ghost predicate SameUpToSignatures(a: seq<Event>, b: seq<Event>) {
    |a| == |b| && forall i | 0 <= i < |a| :: Stripped(a[i]) == Stripped(b[i]) && a[i].id == b[i].id
  }

  lemma SameUpToSignaturesExtends(a: seq<Event>, b: seq<Event>, m: nat)
    requires |a| == m + 1 && |b| == m + 1 && SameUpToSignatures(a[..m], b[..m])
    requires Stripped(a[m]) == Stripped(b[m]) && a[m].id == b[m].id
    ensures SameUpToSignatures(a, b)
  {
    forall i | 0 <= i < m
      ensures Stripped(a[i]) == Stripped(b[i]) && a[i].id == b[i].id
    {
      assert a[..m][i] == a[i] && b[..m][i] == b[i];
    }
  }

  /** The last event points at its predecessor, and its ID covers that. */
  ghost predicate EndsInLink(l: seq<Event>, hash: Event -> EventId) {
    && l != []
    && l[|l| - 1].depth == |l| - 1
    && l[|l| - 1].prevEvents == (if |l| == 1 then [] else [l[|l| - 2].id])
    && l[|l| - 1].id == hash(Stripped(l[|l| - 1]))
  }

  lemma LinkedEndsInLink(events: seq<Event>, hash: Event -> EventId, sign: Event -> string)
    requires events != []
    ensures EndsInLink(Linked(events, hash, sign), hash)
  {
    LinkedFields(events, hash, sign, |events| - 1);
  }

  /** Equal last IDs make the lists equally long and their predecessors equal. */
  lemma SameLastLink(la: seq<Event>, lb: seq<Event>, hash: Event -> EventId)
    requires Injective(hash) && EndsInLink(la, hash) && EndsInLink(lb, hash)
    requires la[|la| - 1].id == lb[|lb| - 1].id
    ensures |la| == |lb|
    ensures Stripped(la[|la| - 1]) == Stripped(lb[|lb| - 1])
    ensures |la| > 1 ==> la[|la| - 2].id == lb[|lb| - 2].id
  {
    SameStripped(la[|la| - 1], lb[|lb| - 1], hash);
    SamePredecessor(la, lb);
  }

  lemma SamePredecessor(la: seq<Event>, lb: seq<Event>)
    requires la != [] && lb != []
    requires la[|la| - 1].depth == |la| - 1 && lb[|lb| - 1].depth == |lb| - 1
        && la[|la| - 1].depth == lb[|lb| - 1].depth
    requires la[|la| - 1].prevEvents == if |la| == 1 then [] else [la[|la| - 2].id]
    requires lb[|lb| - 1].prevEvents == if |lb| == 1 then [] else [lb[|lb| - 2].id]
    requires la[|la| - 1].prevEvents == lb[|lb| - 1].prevEvents
    ensures |la| == |lb|
    ensures |la| > 1 ==> la[|la| - 2].id == lb[|lb| - 2].id
  {
    if |la| > 1 {
      assert la[|la| - 1].prevEvents[0] == lb[|lb| - 1].prevEvents[0];
    }
  }

  /**
   Merkle property: two linked lists with the same last event ID have the same length and the
   same events, up to signatures and unsigned data. Signing keys may differ.
   */
  lemma {:induction false} LastIdDeterminesChain(
    a: seq<Event>, b: seq<Event>, hash: Event -> EventId, signA: Event -> string, signB: Event -> string)
    requires Injective(hash) && a != [] && b != []
    requires Linked(a, hash, signA)[|a| - 1].id == Linked(b, hash, signB)[|b| - 1].id
    ensures SameUpToSignatures(Linked(a, hash, signA), Linked(b, hash, signB))
    decreases |a|
  {
    var la, lb := Linked(a, hash, signA), Linked(b, hash, signB);
    var m := |a| - 1;
    LinkedEndsInLink(a, hash, signA);
    LinkedEndsInLink(b, hash, signB);
    SameLastLink(la, lb, hash);
    if m > 0 {
      LinkedAt(a, hash, signA, m);
      LinkedAt(b, hash, signB, m);
      TakeOfTake(la, m, m - 1);
      TakeOfTake(lb, m, m - 1);
      LastIdDeterminesChain(a[..m], b[..m], hash, signA, signB);
    }
    SameUpToSignaturesExtends(la, lb, m);
  }

  /** Equal IDs cover equal links. */
  lemma SameStripped(a: Event, b: Event, hash: Event -> EventId)
    requires Injective(hash) && a.id == hash(Stripped(a)) && b.id == hash(Stripped(b)) && a.id == b.id
    ensures Stripped(a) == Stripped(b) && a.depth == b.depth && a.prevEvents == b.prevEvents
  {
    assert Stripped(a).depth == a.depth && Stripped(b).depth == b.depth;
    assert Stripped(a).prevEvents == a.prevEvents && Stripped(b).prevEvents == b.prevEvents;
  }

  lemma LinkedIdsAreDistinct(events: seq<Event>, hash: Event -> EventId, sign: Event -> string, i: nat, j: nat)
    requires Injective(hash) && i < j < |events|
    ensures Linked(events, hash, sign)[i].id != Linked(events, hash, sign)[j].id
  {
    LinkedFields(events, hash, sign, i);
    LinkedFields(events, hash, sign, j);
    var l := Linked(events, hash, sign);
    if l[i].id == l[j].id {
      SameStripped(l[i], l[j], hash);
    }
  }

  /** What an event of the genesis cites: these entries, in this order, each skipped when it does not exist. */
  ghost predicate CitesAtGenesis(ev: Event, auths: seq<EventId>, state: StateMap) {
    if ev.kind == "m.room.create" then auths == []
    else
      auths ==
      EntryOf("m.room.create", "", state) + EntryOf("m.room.power_levels", "", state) +
      if ev.kind == "m.room.member" && ev.stateKey == Some(ev.sender) then []
      else
        EntryOf("m.room.member", ev.sender, state) +
        if ev.kind == "m.room.member" then EntryOf("m.room.join_rules", "", state) else []
  }

  lemma GenesisCitedEntries(ev: Event, state: StateMap)
    ensures CitesAtGenesis(ev, Lookups(GenesisKeys(ev), state), state)
  {
    var own := MemberTuple(ev.sender);
    if CitesSender(ev) && ev.kind == MEMBER {
      LookupsThree(CREATE_TUPLE, POWER_LEVELS_TUPLE, own, state);
      LookupsSnoc([CREATE_TUPLE, POWER_LEVELS_TUPLE, own], JOIN_RULES_TUPLE, state);
      assert GenesisKeys(ev) == [CREATE_TUPLE, POWER_LEVELS_TUPLE, own] + [JOIN_RULES_TUPLE];
    } else if CitesSender(ev) {
      LookupsThree(CREATE_TUPLE, POWER_LEVELS_TUPLE, own, state);
      assert GenesisKeys(ev) == [CREATE_TUPLE, POWER_LEVELS_TUPLE, own];
    } else {
      LookupsTwo(CREATE_TUPLE, POWER_LEVELS_TUPLE, state);
    }
  }

  lemma LatestEntries(events: seq<Event>, hash: Event -> EventId, sign: Event -> string, k: nat)
    requires k < |events| && (CitesSender(events[k]) ==> '|' !in events[k].sender)
    ensures var l := Linked(events, hash, sign); l[k].authEvents == Lookups(GenesisKeys(events[k]), StateOf(l[..k]))
  {
    LinkedFields(events, hash, sign, k);
    CachedAuthIsExactIff(events[k]);
  }

  /** Without separators in the sender, an event cites the latest earlier entries it needs. */
  lemma LinkedAuthIsLatest(events: seq<Event>, hash: Event -> EventId, sign: Event -> string, k: nat)
    requires k < |events| && (CitesSender(events[k]) ==> '|' !in events[k].sender)
    ensures var l := Linked(events, hash, sign); l[k].authEvents == Lookups(GenesisKeys(events[k]), StateOf(l[..k]))
    ensures var l := Linked(events, hash, sign); CitesAtGenesis(events[k], l[k].authEvents, StateOf(l[..k]))
  {
    LatestEntries(events, hash, sign, k);
    GenesisCitedEntries(events[k], StateOf(Linked(events, hash, sign)[..k]));
  }

  /** An event's auth events are earlier events of the list, so the auth graph of a genesis is acyclic. */
  lemma AuthEventsAreEarlier(
    events: seq<Event>, hash: Event -> EventId, sign: Event -> string, l: seq<Event>, k: nat, a: EventId)
    requires l == Linked(events, hash, sign) && k < |l| && a in l[k].authEvents
    ensures exists i, t ::
        0 <= i < k && l[i].id == a && t in GenesisKeys(events[k]) && CacheKey(TupleOf(l[i])) == CacheKey(t)
  {
    LinkedFields(events, hash, sign, k);
    var t := CitedKey(GenesisKeys(events[k]), CacheOf(l[..k]), a);
    var i := CachedPosition(l[..k], CacheKey(t));
    assert l[..k][i] == l[i];
  }

  lemma {:induction false} CitedKey(keys: seq<StateTuple>, cache: map<string, EventId>, a: EventId)
    returns (t: StateTuple)
    requires a in Cached(keys, cache)
    ensures t in keys && Get(cache, CacheKey(t)) == Some(a)
  {
    var k := |keys| - 1;
    if a in Cached(keys[..k], cache) {
      t := CitedKey(keys[..k], cache, a);
    } else {
      t := keys[k];
    }
  }

  lemma {:induction false} CachedPosition(list: seq<Event>, key: string) returns (i: nat)
    requires key in CacheOf(list)
    ensures i < |list| && list[i].id == CacheOf(list)[key] && CacheKey(TupleOf(list[i])) == key
  {
    var k := |list| - 1;
    if list[k].stateKey.Some? && CacheKey(TupleOf(list[k])) == key {
      i := k;
    } else {
      i := CachedPosition(list[..k], key);
    }
  }
}
