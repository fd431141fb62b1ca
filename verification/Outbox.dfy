/**
 Outgoing federation traffic. Events wait in one queue; a worker pops them and starts one sender
 per destination; a sender tries five times with doubling pauses and then parks the event for
 that server; traffic from a server flushes what is parked for it into new senders. Without a
 crash, an expiry or a cache error nothing is lost and nothing is sent twice in parallel.
 */
module Outbox {
  import opened Events

  const MAX_RETRIES: nat := 5

  datatype Job = Job(event: Event, dest: string)

  // ---------------------------------------------------------------- destinations

  /** The part of a user ID behind its first colon. */
  function DomainOf(user: UserId): string {
    if user == "" then "" else if user[0] == ':' then user[1..] else DomainOf(user[1..])
  }

  /** The server an invite, leave, ban or knock is about. */
  function TargetDomain(event: Event): string {
    match (event.stateKey, event.content.membership)
    case (Some(user), Some(m)) =>
      if event.kind == MEMBER && m in {"invite", "leave", "ban", "knock"} then DomainOf(user) else ""
    case _ => ""
  }

  /** Participating servers and the target's server, without our own and the empty name. */
  ghost function Destinations(servers: Option<seq<string>>, event: Event, own: string): set<string> {
    (if servers.Some? then Elems(servers.value) else {}) + {TargetDomain(event)} - {"", own}
  }

  /** The server is that of the user whom an invite, leave, ban or knock is about. */
  ghost predicate IsTargets(event: Event, server: string) {
    && event.kind == "m.room.member" && event.stateKey.Some? && event.content.membership.Some?
    && event.content.membership.value in {"invite", "leave", "ban", "knock"}
    && exists name :: ':' !in name && event.stateKey.value == name + ":" + server
  }

  lemma FirstOf(name: string, server: string)
    ensures name != "" ==> (name + ":" + server)[0] in name
  {
    assert name != "" ==> (name + ":" + server)[0] == name[0];
  }

  lemma {:induction false} DomainFollowsFirstColon(user: UserId, server: string)
    requires server != ""
    ensures DomainOf(user) == server <==> exists name :: ':' !in name && user == name + ":" + server
  {
    if user != "" && user[0] != ':' {
      DomainFollowsFirstColon(user[1..], server);
      if name :| ':' !in name && user == name + ":" + server {
        assert user[1..] == name[1..] + ":" + server;
      }
      if DomainOf(user) == server {
        var name :| ':' !in name && user[1..] == name + ":" + server;
        assert user == [user[0]] + name + ":" + server;
      }
    } else if user != "" {
      if name :| ':' !in name && user == name + ":" + server {
        FirstOf(name, server);
      }
      if DomainOf(user) == server {
        assert user == "" + ":" + server;
      }
    }
  }

  lemma TargetDomainMeans(event: Event, server: string)
    requires server != ""
    ensures TargetDomain(event) == server <==> IsTargets(event, server)
  {
    if event.stateKey.Some? {
      DomainFollowsFirstColon(event.stateKey.value, server);
    }
  }

  /** `servers` is `None` when the participants could not be read. */
  method ExtractDestinations(servers: Option<seq<string>>, event: Event, own: string) returns (dests: seq<string>)
    ensures Elems(dests) == Destinations(servers, event, own) && NoDuplicates(dests)
    ensures forall d :: d in dests <==>
        d != "" && d != own && ((servers.Some? && d in servers.value) || IsTargets(event, d))
  {
    var found: set<string> := {};
    if servers.Some? {
      var list := servers.value;
      for k := 0 to |list|
        invariant found == Elems(list[..k])
      {
        ElemsTake(list, k);
        found := found + {list[k]};
      }
      assert list[..|list|] == list;
    }
    if TargetDomain(event) != "" {
      found := found + {TargetDomain(event)};
    }
    dests := [];
    var todo := found;
    while todo != {}
      invariant todo <= found && Elems(dests) == found - todo - {"", own} && NoDuplicates(dests)
      decreases todo
    {
      var domain :| domain in todo;
      if domain != "" && domain != own {
        assert domain !in Elems(dests);
        ElemsAppend(dests, domain);
        dests := dests + [domain];
      }
      todo := todo - {domain};
    }
    DestinationsMean(servers, event, own, dests);
  }

  lemma DestinationsMean(servers: Option<seq<string>>, event: Event, own: string, dests: seq<string>)
    requires Elems(dests) == Destinations(servers, event, own)
    ensures forall d :: d in dests <==>
        d != "" && d != own && ((servers.Some? && d in servers.value) || IsTargets(event, d))
  {
    forall d
      ensures d in dests <==>
          d != "" && d != own && ((servers.Some? && d in servers.value) || IsTargets(event, d))
    {
      assert d in dests <==> d in Destinations(servers, event, own) by {
        assert d in dests <==> d in Elems(dests);
      }
      if d != "" {
        TargetDomainMeans(event, d);
      }
    }
  }

  // ---------------------------------------------------------------- the cache and the service

  function PendingFor(pending: map<string, seq<Event>>, dest: string): seq<Event> {
    if dest in pending then pending[dest] else []
  }

  class FederationCache {
    var queue: seq<Event>
    var pending: map<string, seq<Event>>

    constructor ()
      ensures queue == [] && pending == map[]
    {
      queue, pending := [], map[];
    }

    method PushOutboundQueue(event: Event)
      modifies this`queue
      ensures queue == old(queue) + [event]
    {
      queue := queue + [event];
    }

    /** `None` stands for the timeout on an empty queue. */
    method PopOutboundQueue() returns (event: Option<Event>)
      modifies this`queue
      ensures old(queue) == [] ==> event.None? && queue == []
      ensures old(queue) != [] ==> event.Some? && old(queue) == [event.value] + queue
    {
      if queue == [] {
        return None;
      }
      event := Some(queue[0]);
      queue := queue[1..];
    }

    method SavePendingRetry(dest: string, event: Event)
      modifies this`pending
      ensures pending == old(pending)[dest := PendingFor(old(pending), dest) + [event]]
    {
      pending := pending[dest := (if dest in pending then pending[dest] else []) + [event]];
    }

    method GetAndClearPendingRetries(dest: string) returns (events: seq<Event>)
      modifies this`pending
      ensures events == PendingFor(old(pending), dest) && pending == old(pending) - {dest}
    {
      events := if dest in pending then pending[dest] else [];
      pending := pending - {dest};
    }
  }

  function JobsFor(event: Event, dests: seq<string>): seq<Job> {
    if dests == [] then [] else JobsFor(event, dests[..|dests| - 1]) + [Job(event, dests[|dests| - 1])]
  }

  function JobsAt(dest: string, events: seq<Event>): seq<Job> {
    if events == [] then [] else JobsAt(dest, events[..|events| - 1]) + [Job(events[|events| - 1], dest)]
  }

  /** One round of the worker: the senders it starts. */
  method WorkerRound(cache: FederationCache, servers: Option<seq<string>>, own: string) returns (started: seq<Job>)
    modifies cache`queue
    ensures old(cache.queue) == [] ==> started == [] && cache.queue == []
    ensures old(cache.queue) != [] ==>
              cache.queue == old(cache.queue)[1..] &&
              exists dests ::
                started == JobsFor(old(cache.queue)[0], dests) && NoDuplicates(dests) &&
                Elems(dests) == Destinations(servers, old(cache.queue)[0], own)
  {
    started := [];
    var event := cache.PopOutboundQueue();
    if event.None? {
      return;
    }
    var dests := ExtractDestinations(servers, event.value, own);
    for k := 0 to |dests|
      invariant started == JobsFor(event.value, dests[..k])
    {
      assert dests[..k + 1][..k] == dests[..k];
      assert dests[k] in Elems(dests);
      if dests[k] == own {
        continue;
      }
      started := started + [Job(event.value, dests[k])];
    }
    assert dests[..|dests|] == dests;
  }

  method FlushPendingRetries(cache: FederationCache, dest: string) returns (started: seq<Job>)
    modifies cache`pending
    ensures started == JobsAt(dest, PendingFor(old(cache.pending), dest))
        && cache.pending == old(cache.pending) - {dest}
  {
    var events := cache.GetAndClearPendingRetries(dest);
    started := [];
    for k := 0 to |events|
      invariant started == JobsAt(dest, events[..k])
    {
      assert events[..k + 1][..k] == events[..k];
      started := started + [Job(events[k], dest)];
    }
    assert events[..|events|] == events;
  }

  function Pow2(n: nat): nat {
    if n == 0 then 1 else 2 * Pow2(n - 1)
  }

  /** The failed attempts before the first success, at most `limit`. */
  function Failures(succeeds: nat -> bool, limit: nat): (n: nat)
    ensures n <= limit
    ensures forall i | 0 <= i < n :: !succeeds(i)
    ensures n < limit ==> succeeds(n)
  {
    FailuresFrom(succeeds, 0, limit)
  }

  function FailuresFrom(succeeds: nat -> bool, i: nat, limit: nat): (n: nat)
    requires i <= limit
    ensures i <= n <= limit
    ensures forall k: nat | i <= k < n :: !succeeds(k)
    ensures n < limit ==> succeeds(n)
    decreases limit - i
  {
    if i == limit || succeeds(i) then i else FailuresFrom(succeeds, i + 1, limit)
  }

  /**
   Try up to five times, pausing `2 << i` seconds after failure `i`, the last one included, and
   park the event when all fail. In all, n failures wait 2^(n+1) - 2 seconds.
   */
  method SendWithRetry(cache: FederationCache, dest: string, event: Event, succeeds: nat -> bool)
    returns (delivered: bool, slept: nat)
    modifies cache`pending
    ensures delivered <==> exists i: nat :: i < 5 && succeeds(i)
    ensures slept == Pow2(Failures(succeeds, MAX_RETRIES) + 1) - 2
    ensures cache.pending ==
            if delivered then old(cache.pending)
            else old(cache.pending)[dest := PendingFor(old(cache.pending), dest) + [event]]
  {
    delivered, slept := false, 0;
    for i: nat := 0 to MAX_RETRIES
      invariant forall k: nat | k < i :: !succeeds(k)
      invariant slept == Pow2(i + 1) - 2
      invariant cache.pending == old(cache.pending)
    {
      if succeeds(i) {
        delivered := true;
        FailuresAre(succeeds, i);
        return;
      }
      slept := slept + 2 * Pow2(i);
    }
    FailuresAre(succeeds, MAX_RETRIES);
    cache.SavePendingRetry(dest, event);
  }

  lemma FailuresAre(succeeds: nat -> bool, n: nat)
    requires n <= MAX_RETRIES && forall k: nat | k < n :: !succeeds(k)
    requires n < MAX_RETRIES ==> succeeds(n)
    ensures Failures(succeeds, MAX_RETRIES) == n
  {
    var f := Failures(succeeds, MAX_RETRIES);
    assert f < MAX_RETRIES ==> succeeds(f);
  }

  // ---------------------------------------------------------------- all interleavings

  datatype Sender = Sender(job: Job, failures: nat)

  datatype FanOut = FanOut(event: Event, dests: seq<string>)

  /**
   `pushed` and `fanOuts` only record the past: every event ever queued, and every event the
   worker distributed with the destinations it found.
   */
  datatype System = System(
    queue: seq<Event>, hand: Option<Event>, inFlight: multiset<Sender>,
    pending: map<string, seq<Event>>, delivered: multiset<Job>,
    pushed: seq<Event>, fanOuts: seq<FanOut>)

  datatype Action =
    | Push(event: Event)
    | Pop
    | Distribute(servers: Option<seq<string>>, dests: seq<string>)
    | Succeed(sender: Sender)
    | Fail(sender: Sender)
    | Park(sender: Sender)
    | Flush(dest: string)

  ghost predicate Enabled(s: System, a: Action, own: string) {
    match a
    case Push(_) => true
    case Pop => s.hand.None? && s.queue != []
    case Distribute(servers, dests) => s.hand.Some? && NoDuplicates(dests)
      && Elems(dests) == Destinations(servers, s.hand.value, own)
    case Succeed(x) => x in s.inFlight && x.failures < MAX_RETRIES
    case Fail(x) => x in s.inFlight && x.failures < MAX_RETRIES
    case Park(x) => x in s.inFlight && x.failures == MAX_RETRIES
    case Flush(_) => true
  }

  function Started(jobs: seq<Job>): multiset<Sender> {
    if jobs == [] then multiset{} else Started(jobs[..|jobs| - 1]) + multiset{Sender(jobs[|jobs| - 1], 0)}
  }

  ghost function Next(s: System, a: Action, own: string): System
    requires Enabled(s, a, own)
  {
    match a
    case Push(event) => s.(queue := s.queue + [event], pushed := s.pushed + [event])
    case Pop => s.(queue := s.queue[1..], hand := Some(s.queue[0]))
    case Distribute(_, dests) =>
      s.(hand := None, inFlight := s.inFlight + Started(JobsFor(s.hand.value, dests)),
         fanOuts := s.fanOuts + [FanOut(s.hand.value, dests)])
    case Succeed(x) => s.(inFlight := s.inFlight - multiset{x}, delivered := s.delivered + multiset{x.job})
    case Fail(x) => s.(inFlight := s.inFlight - multiset{x} + multiset{x.(failures := x.failures + 1)})
    case Park(x) =>
      s.(inFlight := s.inFlight - multiset{x},
         pending := s.pending[x.job.dest := PendingFor(s.pending, x.job.dest) + [x.job.event]])
    case Flush(dest) =>
      s.(inFlight := s.inFlight + Started(JobsAt(dest, PendingFor(s.pending, dest))), pending := s.pending - {dest})
  }

  /** How many fan-outs addressed this pair. */
  ghost function Owed(fanOuts: seq<FanOut>, j: Job): nat {
    if fanOuts == [] then 0
    else
      var last := fanOuts[|fanOuts| - 1];
      Owed(fanOuts[..|fanOuts| - 1], j) + if last.event == j.event && j.dest in last.dests then 1 else 0
  }

  function Below(m: multiset<Sender>, j: Job, n: nat): nat {
    if n == 0 then 0 else Below(m, j, n - 1) + m[Sender(j, n - 1)]
  }

  /** Copies in flight with up to five failures. */
  function InFlight(m: multiset<Sender>, j: Job): nat {
    Below(m, j, MAX_RETRIES + 1)
  }

  function Parked(pending: map<string, seq<Event>>, j: Job): nat {
    multiset(PendingFor(pending, j.dest))[j.event]
  }

  ghost predicate Balanced(s: System, j: Job) {
    Owed(s.fanOuts, j) == s.delivered[j] + InFlight(s.inFlight, j) + Parked(s.pending, j)
  }

  function EventsOf(fanOuts: seq<FanOut>): seq<Event> {
    if fanOuts == [] then [] else EventsOf(fanOuts[..|fanOuts| - 1]) + [fanOuts[|fanOuts| - 1].event]
  }

  function HandList(hand: Option<Event>): seq<Event> {
    if hand.Some? then [hand.value] else []
  }

  ghost predicate Inv(s: System) {
    && (forall x | x in s.inFlight :: x.failures <= MAX_RETRIES)
    && (forall f | f in s.fanOuts :: NoDuplicates(f.dests))
    && (forall j :: Balanced(s, j))
    && s.pushed == EventsOf(s.fanOuts) + HandList(s.hand) + s.queue
  }

  // ---------------------------------------------------------------- counting

  lemma {:induction false} StartedCounts(jobs: seq<Job>, j: Job)
    ensures Started(jobs)[Sender(j, 0)] == multiset(jobs)[j]
    ensures forall x | x in Started(jobs) :: x.failures == 0
  {
    if jobs != [] {
      var k := |jobs| - 1;
      StartedCounts(jobs[..k], j);
      assert jobs == jobs[..k] + [jobs[k]];
    }
  }

  lemma {:induction false} BelowFresh(m: multiset<Sender>, j: Job, n: nat)
    requires n > 0 && forall x | x in m :: x.failures == 0
    ensures Below(m, j, n) == m[Sender(j, 0)]
  {
    if n > 1 {
      BelowFresh(m, j, n - 1);
      assert Sender(j, n - 1).failures != 0;
    } else {
      assert Below(m, j, 0) == 0;
    }
  }

  lemma StartedInFlight(jobs: seq<Job>, j: Job)
    ensures InFlight(Started(jobs), j) == multiset(jobs)[j]
  {
    StartedCounts(jobs, j);
    BelowFresh(Started(jobs), j, MAX_RETRIES + 1);
  }

  lemma {:induction false} FanOutCounts(event: Event, dests: seq<string>, j: Job)
    requires NoDuplicates(dests)
    ensures multiset(JobsFor(event, dests))[j] == if event == j.event && j.dest in dests then 1 else 0
  {
    if dests != [] {
      var k := |dests| - 1;
      FanOutCounts(event, dests[..k], j);
      assert dests == dests[..k] + [dests[k]];
      assert dests[k] !in dests[..k];
    }
  }

  lemma {:induction false} FlushCounts(dest: string, events: seq<Event>, j: Job)
    ensures multiset(JobsAt(dest, events))[j] == if dest == j.dest then multiset(events)[j.event] else 0
  {
    if events != [] {
      var k := |events| - 1;
      FlushCounts(dest, events[..k], j);
      assert events == events[..k] + [events[k]];
    }
  }

  // ---------------------------------------------------------------- preservation

  lemma QueueStep(s: System, a: Action, own: string)
    requires Inv(s) && Enabled(s, a, own) && (a.Push? || a.Pop?)
    ensures Inv(Next(s, a, own))
  {
    var n := Next(s, a, own);
    forall j
      ensures Balanced(n, j)
    {
      assert Balanced(s, j);
    }
    if a.Pop? {
      assert s.queue == [s.queue[0]] + s.queue[1..];
    }
  }

  lemma OwedOneMore(fanOuts: seq<FanOut>, f: FanOut, j: Job)
    ensures Owed(fanOuts + [f], j) == Owed(fanOuts, j) + if f.event == j.event && j.dest in f.dests then 1 else 0
  {
    assert (fanOuts + [f])[..|fanOuts|] == fanOuts;
  }

  lemma StartedFresh(m: multiset<Sender>, jobs: seq<Job>)
    requires forall x | x in m :: x.failures <= MAX_RETRIES
    ensures forall x | x in m + Started(jobs) :: x.failures <= MAX_RETRIES
  {
    forall x | x in m + Started(jobs)
      ensures x.failures <= MAX_RETRIES
    {
      StartedCounts(jobs, x.job);
    }
  }

  lemma FanOutSnoc(fanOuts: seq<FanOut>, f: FanOut)
    ensures EventsOf(fanOuts + [f]) == EventsOf(fanOuts) + [f.event]
  {
    assert (fanOuts + [f])[..|fanOuts|] == fanOuts;
  }

  lemma NewFanOutIsProper(fanOuts: seq<FanOut>, f: FanOut)
    requires NoDuplicates(f.dests) && forall g | g in fanOuts :: NoDuplicates(g.dests)
    ensures forall g | g in fanOuts + [f] :: NoDuplicates(g.dests)
  {
  }

  /** A fan-out owes one copy to each destination and starts one sender for it. */
  lemma DistributeBalance(s: System, a: Action, own: string, j: Job)
    requires Balanced(s, j) && a.Distribute? && Enabled(s, a, own)
    ensures Balanced(Next(s, a, own), j)
  {
    var event := s.hand.value;
    var jobs := JobsFor(event, a.dests);
    OwedOneMore(s.fanOuts, FanOut(event, a.dests), j);
    StartedInFlight(jobs, j);
    InFlightSum(s.inFlight, Started(jobs), j);
    FanOutCounts(event, a.dests, j);
  }

  lemma DistributeStep(s: System, a: Action, own: string)
    requires Inv(s) && a.Distribute? && Enabled(s, a, own)
    ensures Inv(Next(s, a, own))
  {
    var n := Next(s, a, own);
    var event := s.hand.value;
    var jobs := JobsFor(event, a.dests);
    FanOutSnoc(s.fanOuts, FanOut(event, a.dests));
    forall j
      ensures Balanced(n, j)
    {
      assert Balanced(s, j);
      DistributeBalance(s, a, own, j);
    }
    StartedFresh(s.inFlight, jobs);
    NewFanOutIsProper(s.fanOuts, FanOut(event, a.dests));

  }

  lemma InFlightWithout(m: multiset<Sender>, x: Sender, j: Job)
    requires x in m && x.failures <= MAX_RETRIES
    ensures InFlight(m, j) == InFlight(m - multiset{x}, j) + if x.job == j then 1 else 0
  {
    assert m == m - multiset{x} + multiset{x};
    InFlightWith(m - multiset{x}, x, j);
  }

  lemma InFlightWith(m: multiset<Sender>, x: Sender, j: Job)
    requires x.failures <= MAX_RETRIES
    ensures InFlight(m + multiset{x}, j) == InFlight(m, j) + if x.job == j then 1 else 0
  {
    InFlightSum(m, multiset{x}, j);
    BelowOne(x, j, MAX_RETRIES + 1);
  }

  lemma {:induction false} BelowOne(x: Sender, j: Job, n: nat)
    ensures Below(multiset{x}, j, n) == if x.job == j && x.failures < n then 1 else 0
  {
    if n > 0 {
      BelowOne(x, j, n - 1);
      assert x == Sender(j, n - 1) <==> x.job == j && x.failures == n - 1;
    }
  }

  lemma {:induction false} BelowSum(m: multiset<Sender>, k: multiset<Sender>, j: Job, n: nat)
    ensures Below(m + k, j, n) == Below(m, j, n) + Below(k, j, n)
  {
    if n > 0 {
      BelowSum(m, k, j, n - 1);
    }
  }

  lemma InFlightSum(m: multiset<Sender>, n: multiset<Sender>, j: Job)
    ensures InFlight(m + n, j) == InFlight(m, j) + InFlight(n, j)
  {
    BelowSum(m, n, j, MAX_RETRIES + 1);
  }

  lemma ParkedOneMore(pending: map<string, seq<Event>>, x: Job, j: Job)
    ensures Parked(pending[x.dest := PendingFor(pending, x.dest) + [x.event]], j)
            == Parked(pending, j) + if x == j then 1 else 0
  {
  }

  lemma ParkedWithout(pending: map<string, seq<Event>>, dest: string, j: Job)
    ensures Parked(pending - {dest}, j) == if j.dest == dest then 0 else Parked(pending, j)
  {
  }

  /** A sender's step moves its own copy and no other. */
  lemma SenderBalance(s: System, a: Action, own: string, j: Job)
    requires Balanced(s, j) && Enabled(s, a, own) && (a.Succeed? || a.Fail? || a.Park?)
    ensures Balanced(Next(s, a, own), j)
  {
    var x := a.sender;
    InFlightWithout(s.inFlight, x, j);
    if a.Fail? {
      InFlightWith(s.inFlight - multiset{x}, x.(failures := x.failures + 1), j);
    }
    if a.Park? {
      ParkedOneMore(s.pending, x.job, j);
    }
  }

  lemma SenderStep(s: System, a: Action, own: string)
    requires Inv(s) && Enabled(s, a, own) && (a.Succeed? || a.Fail? || a.Park?)
    ensures Inv(Next(s, a, own))
  {
    var n := Next(s, a, own);
    forall j
      ensures Balanced(n, j)
    {
      assert Balanced(s, j);
      SenderBalance(s, a, own, j);
    }
    FailuresStayBounded(s, a, own);
  }

  lemma FailuresStayBounded(s: System, a: Action, own: string)
    requires (forall x | x in s.inFlight :: x.failures <= MAX_RETRIES) && Enabled(s, a, own)
        && (a.Succeed? || a.Fail? || a.Park?)
    ensures forall x | x in Next(s, a, own).inFlight :: x.failures <= MAX_RETRIES
  {
    forall x | x in Next(s, a, own).inFlight
      ensures x.failures <= MAX_RETRIES
    {
      assert x in s.inFlight || (a.Fail? && x == a.sender.(failures := a.sender.failures + 1));
    }
  }

  lemma FlushStep(s: System, dest: string, own: string)
    requires Inv(s)
    ensures Inv(Next(s, Flush(dest), own))
  {
    var n := Next(s, Flush(dest), own);
    var events := PendingFor(s.pending, dest);
    var jobs := JobsAt(dest, events);
    forall j
      ensures Balanced(n, j)
    {
      assert Balanced(s, j);
      InFlightSum(s.inFlight, Started(jobs), j);
      StartedInFlight(jobs, j);
      FlushCounts(dest, events, j);
      ParkedWithout(s.pending, dest, j);
    }
    StartedFresh(s.inFlight, jobs);
  }

  lemma StepKeepsInv(s: System, a: Action, own: string)
    requires Inv(s) && Enabled(s, a, own)
    ensures Inv(Next(s, a, own))
  {
    match a
    case Push(_) => QueueStep(s, a, own);
    case Pop => QueueStep(s, a, own);
    case Distribute(_, _) => DistributeStep(s, a, own);
    case Flush(dest) => FlushStep(s, dest, own);
    case _ => SenderStep(s, a, own);
  }

  ghost predicate IsRun(s: System, actions: seq<Action>, own: string)
    decreases |actions|
  {
    actions == [] || (Enabled(s, actions[0], own) && IsRun(Next(s, actions[0], own), actions[1..], own))
  }

  ghost function After(s: System, actions: seq<Action>, own: string): System
    requires IsRun(s, actions, own)
    decreases |actions|
  {
    if actions == [] then s else After(Next(s, actions[0], own), actions[1..], own)
  }

  const START := System([], None, multiset{}, map[], multiset{}, [], [])

  lemma {:induction false} EveryRunKeepsInv(s: System, actions: seq<Action>, own: string)
    requires Inv(s) && IsRun(s, actions, own)
    ensures Inv(After(s, actions, own))
    decreases |actions|
  {
    if actions != [] {
      StepKeepsInv(s, actions[0], own);
      EveryRunKeepsInv(Next(s, actions[0], own), actions[1..], own);
    }
  }

  /**
   Conservation, in every reachable state and for every pair of an event and a server: the
   copies owed are the copies delivered, in flight and parked. Events leave the queue in the
   order they entered it, and nobody has more than five failures.
   */
  lemma NothingIsLost(actions: seq<Action>, own: string, j: Job)
    requires IsRun(START, actions, own)
    ensures var s := After(START, actions, own);
      && Owed(s.fanOuts, j) == s.delivered[j] + InFlight(s.inFlight, j) + Parked(s.pending, j)
      && s.pushed == EventsOf(s.fanOuts) + HandList(s.hand) + s.queue
      && forall x | x in s.inFlight :: x.failures <= MAX_RETRIES
  {
    forall k: Job
      ensures Balanced(START, k)
    {
      BelowFresh(multiset{}, k, MAX_RETRIES + 1);
    }
    EveryRunKeepsInv(START, actions, own);
    assert Balanced(After(START, actions, own), j);
  }

  lemma {:induction false} OwedOnce(fanOuts: seq<FanOut>, j: Job)
    ensures Owed(fanOuts, j) <= multiset(EventsOf(fanOuts))[j.event]
    ensures (exists f :: f in fanOuts && f.event == j.event && j.dest in f.dests) ==> Owed(fanOuts, j) >= 1
  {
    if fanOuts != [] {
      var k := |fanOuts| - 1;
      OwedOnce(fanOuts[..k], j);
      assert fanOuts == fanOuts[..k] + [fanOuts[k]];
      assert EventsOf(fanOuts) == EventsOf(fanOuts[..k]) + [fanOuts[k].event];
      assert multiset(EventsOf(fanOuts)) == multiset(EventsOf(fanOuts[..k])) + multiset{fanOuts[k].event};
    }
  }

  lemma PrefixHasNoDuplicates(a: seq<Event>, b: seq<Event>)
    requires NoDuplicates(a + b)
    ensures NoDuplicates(a)
  {
    forall i, j | 0 <= i < j < |a|
      ensures a[i] != a[j]
    {
      assert (a + b)[i] == a[i] && (a + b)[j] == a[j];
    }
  }

  lemma OwedExactlyOnce(s: System, f: FanOut, dest: string)
    requires s.pushed == EventsOf(s.fanOuts) + HandList(s.hand) + s.queue && NoDuplicates(s.pushed)
    requires f in s.fanOuts && dest in f.dests
    ensures Owed(s.fanOuts, Job(f.event, dest)) == 1
  {
    OwedOnce(s.fanOuts, Job(f.event, dest));
    assert EventsOf(s.fanOuts) + (HandList(s.hand) + s.queue) == s.pushed;
    PrefixHasNoDuplicates(EventsOf(s.fanOuts), HandList(s.hand) + s.queue);
    NoDuplicatesCountsOnce(EventsOf(s.fanOuts), f.event);
  }

  /**
   When no event is queued twice, each distributed pair is in exactly one of the three places:
   delivered, in flight, or parked.
   */
  lemma EachPairIsInOnePlace(actions: seq<Action>, own: string, f: FanOut, dest: string)
    requires IsRun(START, actions, own) && NoDuplicates(After(START, actions, own).pushed)
    requires f in After(START, actions, own).fanOuts && dest in f.dests
    ensures var s := After(START, actions, own);
      var j := Job(f.event, dest);
      s.delivered[j] + InFlight(s.inFlight, j) + Parked(s.pending, j) == 1
  {
    NothingIsLost(actions, own, Job(f.event, dest));
    OwedExactlyOnce(After(START, actions, own), f, dest);
  }
}
