/** The Redis lock that keeps periodic sweeps single-flighted, under expiry, soft aborts and hard kills. */
module SweepLock {
  import opened Collections

  // Seconds. `lag` bounds how late after its time limit a hard-killed task can still be running.
  datatype Config = Config(ttl: nat, limit: nat, lag: nat)

  const ASSET_REVALIDATION := Config(1800, 1800, 0)
  const RECONCILE_STUCK := Config(300, 300, 0)

  // The key: the holder's token and the last instant it is still there.
  datatype Entry = Entry(token: nat, expires: nat)

  predicate Held(key: Option<Entry>, now: nat) {
    key.Some? && now <= key.value.expires
  }

  /** SET key token NX EX ttl. */
  function SetIfAbsent(key: Option<Entry>, now: nat, token: nat, ttl: nat): (r: (Option<Entry>, bool))
    ensures Held(r.0, now)
    ensures r.1 <==> !Held(key, now)
  {
    if Held(key, now) then (key, false) else (Some(Entry(token, now + ttl)), true)
  }

  /** The release script: delete only the releaser's own token. */
  function CompareAndDelete(key: Option<Entry>, now: nat, token: nat): (r: Option<Entry>)
    ensures r == key || (r.None? && key.Some? && (key.value.token == token || !Held(key, now)))
  {
    if !Held(key, now) || key.value.token == token then None else key
  }

  // A task run, by when it started; each run has its own token.
  datatype Phase = Started(at: nat) | InBody(at: nat) | Releasing(at: nat) | Gone

  type Token = nat

  datatype World = World(now: nat, key: Option<Entry>, tasks: map<Token, Phase>)

  datatype Event =
    | Tick
    | Start(task: Token)
    | Acquire(task: Token)
    | AcquireReplyLost(task: Token)  // the key is set, the task raises before its body
    | LeaveBody(task: Token)         // completion, error or soft time limit
    | Release(task: Token)
    | ReleaseFails(task: Token)      // Redis unreachable in the finally block
    | HardKill(task: Token)

  predicate Runs(s: World, t: Token) {
    t in s.tasks && !s.tasks[t].Gone?
  }

  // The clock cannot pass the point by which a hard kill has landed.
  ghost predicate MayTick(c: Config, s: World) {
    forall t :: t in s.tasks && !s.tasks[t].Gone? ==> s.now + 1 <= s.tasks[t].at + c.limit + c.lag
  }

  ghost predicate Enabled(c: Config, s: World, e: Event) {
    match e
    case Tick => MayTick(c, s)
    case Start(t) => t !in s.tasks
    case Acquire(t) => t in s.tasks && s.tasks[t].Started?
    case AcquireReplyLost(t) => t in s.tasks && s.tasks[t].Started?
    case LeaveBody(t) => t in s.tasks && s.tasks[t].InBody?
    case Release(t) => t in s.tasks && s.tasks[t].Releasing?
    case ReleaseFails(t) => t in s.tasks && s.tasks[t].Releasing?
    case HardKill(t) => Runs(s, t)
  }

  function Moved(s: World, t: Token, p: Phase): World {
    s.(tasks := s.tasks[t := p])
  }

  ghost function Apply(c: Config, s: World, e: Event): World
    requires Enabled(c, s, e)
  {
    match e
    case Tick => s.(now := s.now + 1)
    case Start(t) => Moved(s, t, Started(s.now))
    case Acquire(t) =>
      var (key, ok) := SetIfAbsent(s.key, s.now, t, c.ttl);
      Moved(s.(key := key), t, if ok then InBody(s.tasks[t].at) else Gone)
    case AcquireReplyLost(t) => Moved(s.(key := SetIfAbsent(s.key, s.now, t, c.ttl).0), t, Gone)
    case LeaveBody(t) => Moved(s, t, Releasing(s.tasks[t].at))
    case Release(t) => Moved(s.(key := CompareAndDelete(s.key, s.now, t)), t, Gone)
    case ReleaseFails(t) => Moved(s, t, Gone)
    case HardKill(t) => Moved(s, t, Gone)
  }

  const INITIAL := World(0, None, map[])

  // The world after the events, if each was enabled in turn.
  ghost function Reached(c: Config, events: seq<Event>): Option<World> {
    if events == [] then Some(INITIAL) else
      var last := |events| - 1;
      var before := Reached(c, events[..last]);
      if before.Some? && Enabled(c, before.value, events[last]) then Some(Apply(c, before.value, events[last])) else None
  }

  ghost predicate OneInBody(s: World) {
    forall t, u :: t in s.tasks && u in s.tasks && s.tasks[t].InBody? && s.tasks[u].InBody? ==> t == u
  }

  // ----- safety when the key outlives any run

  // No run outlasts its limit.
  ghost predicate Timely(c: Config, s: World) {
    forall t :: t in s.tasks && !s.tasks[t].Gone? ==> s.tasks[t].at <= s.now <= s.tasks[t].at + c.limit + c.lag
  }

  // The key carries the token of whoever is in its body, to the end of that run.
  ghost predicate Keyed(c: Config, s: World) {
    forall t :: t in s.tasks && s.tasks[t].InBody? ==>
                  s.key.Some? && s.key.value.token == t && s.tasks[t].at + c.limit + c.lag <= s.key.value.expires
  }

  ghost predicate Guarded(c: Config, s: World) {
    Timely(c, s) && Keyed(c, s)
  }

  lemma StepTimely(c: Config, s: World, e: Event)
    requires Timely(c, s) && Enabled(c, s, e)
    ensures Timely(c, Apply(c, s, e))
  {
  }

  // Taking the key: nobody else can be in its body, or the key would still be held.
  lemma AcquireKeyed(c: Config, s: World, e: Event)
    requires c.ttl >= c.limit + c.lag && Guarded(c, s) && Enabled(c, s, e) && (e.Acquire? || e.AcquireReplyLost?)
    ensures Keyed(c, Apply(c, s, e))
  {
  }

  lemma OtherKeyed(c: Config, s: World, e: Event)
    requires Guarded(c, s) && Enabled(c, s, e) && !e.Acquire? && !e.AcquireReplyLost?
    ensures Keyed(c, Apply(c, s, e))
  {
  }

  lemma StepGuarded(c: Config, s: World, e: Event)
    requires c.ttl >= c.limit + c.lag && Guarded(c, s) && Enabled(c, s, e)
    ensures Guarded(c, Apply(c, s, e))
  {
    hide Timely, Keyed, Apply, Enabled;
    StepTimely(c, s, e);
    if e.Acquire? || e.AcquireReplyLost? {
      AcquireKeyed(c, s, e);
    } else {
      OtherKeyed(c, s, e);
    }
  }

  lemma {:induction false} RunGuarded(c: Config, events: seq<Event>)
    requires c.ttl >= c.limit + c.lag && Reached(c, events).Some?
    ensures Guarded(c, Reached(c, events).value)
    decreases |events|
  {
    if events != [] {
      var last := |events| - 1;
      RunGuarded(c, events[..last]);
      StepGuarded(c, Reached(c, events[..last]).value, events[last]);
    }
  }

  /** While a task is in its body, no event of any task takes its key away. */
  lemma HolderKeepsKey(c: Config, s: World, e: Event, t: Token)
    requires c.ttl >= c.limit + c.lag && Guarded(c, s) && Enabled(c, s, e)
    requires t in s.tasks && s.tasks[t].InBody? && Apply(c, s, e).tasks[t].InBody?
    ensures Apply(c, s, e).key == s.key && Held(s.key, s.now)
  {
  }

  // ----- and only then

  function Ticks(n: nat): (r: seq<Event>)
    ensures |r| == n && forall i :: 0 <= i < n ==> r[i] == Tick
  {
    seq(n, i requires 0 <= i < n => Tick)
  }

  function Holding(c: Config, now: nat): World {
    World(now, Some(Entry(1, c.ttl)), map[1 := InBody(0)])
  }

  lemma Extend(c: Config, events: seq<Event>, e: Event)
    requires Reached(c, events).Some? && Enabled(c, Reached(c, events).value, e)
    ensures Reached(c, events + [e]) == Some(Apply(c, Reached(c, events).value, e))
  {
    assert (events + [e])[..|events + [e]| - 1] == events;
  }

  lemma HoldingStarts(c: Config)
    ensures Reached(c, [Start(1), Acquire(1)]) == Some(Holding(c, 0))
  {
    hide Apply;
    var started := World(0, None, map[1 := Started(0)]);
    FirstSteps(c);
    Extend(c, [], Start(1));
    assert [] + [Start(1)] == [Start(1)];
    Extend(c, [Start(1)], Acquire(1));
    assert [Start(1)] + [Acquire(1)] == [Start(1), Acquire(1)];
  }

  lemma FirstSteps(c: Config)
    ensures var started := World(0, None, map[1 := Started(0)]);
            Enabled(c, INITIAL, Start(1)) && Apply(c, INITIAL, Start(1)) == started
            && Enabled(c, started, Acquire(1)) && Apply(c, started, Acquire(1)) == Holding(c, 0)
  {
    assert map[1 := Started(0)][1 := InBody(0)] == map[1 := InBody(0)];
  }

  lemma {:induction false} HoldingReached(c: Config, n: nat)
    requires n <= c.limit + c.lag
    ensures Reached(c, [Start(1), Acquire(1)] + Ticks(n)) == Some(Holding(c, n))
  {
    hide Reached;
    if n == 0 {
      HoldingStarts(c);
      assert [Start(1), Acquire(1)] == [Start(1), Acquire(1)] + Ticks(0);
    } else {
      HoldingReached(c, n - 1);
      Extend(c, [Start(1), Acquire(1)] + Ticks(n - 1), Tick);
      assert [Start(1), Acquire(1)] + Ticks(n) == [Start(1), Acquire(1)] + Ticks(n - 1) + [Tick];
    }
  }

  /** A run that outlives its key: the second task enters the body beside the first. */
  lemma OverlapReached(c: Config) returns (events: seq<Event>)
    requires c.ttl < c.limit + c.lag
    ensures Reached(c, events).Some? && !OneInBody(Reached(c, events).value)
  {
    var n := c.ttl + 1;
    events := [Start(1), Acquire(1)] + Ticks(n);
    HoldingReached(c, n);
    Extend(c, events, Start(2));
    events := events + [Start(2)];
    Extend(c, events, Acquire(2));
    events := events + [Acquire(2)];
    var s := Reached(c, events).value;
    assert s.tasks[1].InBody? && s.tasks[2].InBody?;
  }

  /** Mutual exclusion in every interleaving, exactly when the TTL covers the longest a run can last. */
  lemma ExclusiveIff(c: Config)
    ensures (forall events :: Reached(c, events).Some? ==> OneInBody(Reached(c, events).value)) <==> c.ttl >= c.limit + c.lag
  {
    if c.ttl >= c.limit + c.lag {
      forall events | Reached(c, events).Some?
        ensures OneInBody(Reached(c, events).value)
      {
        RunGuarded(c, events);
      }
    } else {
      var events := OverlapReached(c);
    }
  }

  /** Both sweeps take their TTL from their hard limit. */
  lemma SweepsExclusive(events: seq<Event>)
    ensures Reached(ASSET_REVALIDATION, events).Some? ==> OneInBody(Reached(ASSET_REVALIDATION, events).value)
    ensures Reached(RECONCILE_STUCK, events).Some? ==> OneInBody(Reached(RECONCILE_STUCK, events).value)
  {
    ExclusiveIff(ASSET_REVALIDATION);
    ExclusiveIff(RECONCILE_STUCK);
  }

  // ----- no orphaned lock

  lemma {:induction false} KeyExpiresSoon(c: Config, events: seq<Event>)
    requires Reached(c, events).Some?
    ensures var s := Reached(c, events).value; s.key.Some? ==> s.key.value.expires <= s.now + c.ttl
    decreases |events|
  {
    if events != [] {
      KeyExpiresSoon(c, events[..|events| - 1]);
    }
  }

  lemma {:induction false} PrefixReached(c: Config, events: seq<Event>, k: nat)
    requires Reached(c, events).Some? && k <= |events|
    ensures Reached(c, events[..k]).Some?
    decreases |events|
  {
    if k == |events| {
      assert events[..k] == events;
    } else {
      PrefixReached(c, events[..|events| - 1], k);
      assert events[..|events| - 1][..k] == events[..k];
    }
  }

  // The event's SETNX succeeds.
  predicate Takes(s: World, e: Event) {
    (e.Acquire? || e.AcquireReplyLost?) && !Held(s.key, s.now)
  }

  // Some event from the n-th on took the key.
  ghost predicate TakenSince(c: Config, events: seq<Event>, n: nat) {
    exists k :: n <= k < |events| && Reached(c, events[..k]).Some? && Takes(Reached(c, events[..k]).value, events[k])
  }

  lemma StepUntaken(c: Config, s: World, e: Event)
    requires Enabled(c, s, e) && !Takes(s, e)
    ensures Apply(c, s, e).key == s.key || Apply(c, s, e).key == None
  {
  }

  // While no SETNX succeeds, failed ones and releases leave the key as it is or remove it.
  lemma {:induction false} KeyUntaken(c: Config, events: seq<Event>, n: nat)
    requires Reached(c, events).Some? && n <= |events| && !TakenSince(c, events, n)
    ensures Reached(c, events[..n]).Some?
    ensures Reached(c, events).value.key == Reached(c, events[..n]).value.key || Reached(c, events).value.key == None
    decreases |events|
  {
    hide Apply, Enabled;
    PrefixReached(c, events, n);
    if n == |events| {
      assert events[..n] == events;
    } else {
      var before := events[..|events| - 1];
      assert before[..n] == events[..n];
      UntakenBefore(c, events, n);
      KeyUntaken(c, before, n);
      StepUntaken(c, Reached(c, before).value, events[|events| - 1]);
    }
  }

  lemma UntakenBefore(c: Config, events: seq<Event>, n: nat)
    requires Reached(c, events).Some? && n < |events| && !TakenSince(c, events, n)
    ensures var before := events[..|events| - 1];
            && Reached(c, before).Some? && !TakenSince(c, before, n)
            && !Takes(Reached(c, before).value, events[|events| - 1])
  {
    hide Apply, Enabled, Takes;
    var before := events[..|events| - 1];
    assert Reached(c, before).Some?;
    forall k | n <= k < |before| && Reached(c, before[..k]).Some?
      ensures !Takes(Reached(c, before[..k]).value, before[k])
    {
      assert before[..k] == events[..k] && before[k] == events[k];
    }
  }

  /**
   Whatever was killed or lost by the n-th event: once a TTL has passed, the key is free for the next
   sweep, unless a later one has already taken it. Attempts that find it held do not prolong it.
   */
  lemma OrphanExpires(c: Config, events: seq<Event>, n: nat)
    requires Reached(c, events).Some? && n <= |events| && Reached(c, events[..n]).Some?
    requires Reached(c, events).value.now > Reached(c, events[..n]).value.now + c.ttl
    ensures !Held(Reached(c, events).value.key, Reached(c, events).value.now) || TakenSince(c, events, n)
  {
    hide Reached;
    KeyExpiresSoon(c, events[..n]);
    if !TakenSince(c, events, n) {
      KeyUntaken(c, events, n);
    }
  }

  /** As deployed: half an hour after a lost revalidation sweep, and five minutes after a lost reconcile sweep. */
  lemma DeployedOrphansExpire(reconcile: bool, events: seq<Event>, n: nat)
    requires var c := if reconcile then RECONCILE_STUCK else ASSET_REVALIDATION;
             && Reached(c, events).Some? && n <= |events| && Reached(c, events[..n]).Some?
             && Reached(c, events).value.now > Reached(c, events[..n]).value.now + if reconcile then 300 else 1800
    ensures var c := if reconcile then RECONCILE_STUCK else ASSET_REVALIDATION;
            !Held(Reached(c, events).value.key, Reached(c, events).value.now) || TakenSince(c, events, n)
  {
    hide Reached, TakenSince;
    OrphanExpires(if reconcile then RECONCILE_STUCK else ASSET_REVALIDATION, events, n);
  }

  // ----- the key as the tasks use it, their calls interleaved in any way

  datatype BodyEnd = Completed | SoftTimeLimit | Failed

  class Broker {
    const config: Config
    var key: Option<Entry>
    var now: nat
    ghost var tasks: map<Token, Phase>
    ghost var events: seq<Event>

    ghost predicate Valid()
      reads this
    {
      Reached(config, events) == Some(World(now, key, tasks))
    }

    constructor (config: Config)
      ensures Valid() && this.config == config && events == []
    {
      this.config, key, now, tasks, events := config, None, 0, map[], [];
    }

    // The call just made is this event of the protocol.
    ghost method Log(e: Event, s: World)
      requires Reached(config, events) == Some(s) && Enabled(config, s, e)
      requires World(now, key, Apply(config, s, e).tasks) == Apply(config, s, e)
      modifies this`tasks, this`events
      ensures Valid() && events == old(events) + [e] && tasks == Apply(config, s, e).tasks
    {
      hide Apply, Enabled;
      Extend(config, events, e);
      tasks := Apply(config, s, e).tasks;
      events := events + [e];
    }

    method Second()
      requires Valid() && MayTick(config, World(now, key, tasks))
      modifies this
      ensures Valid() && events == old(events) + [Tick]
    {
      ghost var s := World(now, key, tasks);
      now := now + 1;
      Log(Tick, s);
    }

    method StartSweep(token: Token)
      requires Valid() && token !in tasks
      modifies this
      ensures Valid() && events == old(events) + [Start(token)]
    {
      Log(Start(token), World(now, key, tasks));
    }

    /** SET NX EX at the head of a sweep. With the deployed TTLs, whoever may run is alone in its body. */
    method TryAcquire(token: Token) returns (runs: bool)
      requires Valid() && token in tasks && tasks[token].Started?
      modifies this
      ensures Valid() && events == old(events) + [Acquire(token)]
      ensures runs <==> !Held(old(key), now)
      ensures runs <==> tasks[token].InBody?
      ensures config.ttl >= config.limit + config.lag && runs ==> forall u :: u in tasks && tasks[u].InBody? ==> u == token
    {
      ghost var s := World(now, key, tasks);
      runs := !Held(key, now);
      if runs {
        key := Some(Entry(token, now + config.ttl));
      }
      Log(Acquire(token), s);
      if config.ttl >= config.limit + config.lag {
        ExclusiveIff(config);
        assert OneInBody(Reached(config, events).value);
      }
    }

    // The key is set but the reply never comes: the task raises before its body.
    method LoseReply(token: Token)
      requires Valid() && token in tasks && tasks[token].Started?
      modifies this
      ensures Valid() && events == old(events) + [AcquireReplyLost(token)]
    {
      ghost var s := World(now, key, tasks);
      if !Held(key, now) {
        key := Some(Entry(token, now + config.ttl));
      }
      Log(AcquireReplyLost(token), s);
    }

    /** The body ends in any way, and the finally block runs: an escaping error is still reported. */
    method EndBody(token: Token, end: BodyEnd) returns (raised: bool)
      requires Valid() && token in tasks && tasks[token].InBody?
      modifies this
      ensures Valid() && events == old(events) + [LeaveBody(token)] && raised == end.Failed?
    {
      raised := end == Failed;
      Log(LeaveBody(token), World(now, key, tasks));
    }

    /** The compare-and-delete script: another sweep's key survives it. */
    method Release(token: Token)
      requires Valid() && token in tasks && tasks[token].Releasing?
      modifies this
      ensures Valid() && events == old(events) + [Event.Release(token)]
      ensures old(key).Some? && Held(old(key), now) && old(key).value.token != token ==> key == old(key)
      ensures old(key).Some? && old(key).value.token == token ==> key == None
    {
      ghost var s := World(now, key, tasks);
      if !Held(key, now) || key.value.token == token {
        key := None;
      }
      Log(Event.Release(token), s);
    }

    // Redis cannot be reached from the finally block.
    method FailRelease(token: Token)
      requires Valid() && token in tasks && tasks[token].Releasing?
      modifies this
      ensures Valid() && events == old(events) + [ReleaseFails(token)] && key == old(key)
    {
      Log(ReleaseFails(token), World(now, key, tasks));
    }

    method Kill(token: Token)
      requires Valid() && Runs(World(now, key, tasks), token)
      modifies this
      ensures Valid() && events == old(events) + [HardKill(token)]
    {
      Log(HardKill(token), World(now, key, tasks));
    }
  }
}
