/**
 The watcher and the page renders are separate callers: their Redis reads and writes interleave. When the
 latch still keeps its promises, and exactly which landing breaks them.
 */
module LatchInterleaving {
  import opened Collections
  import opened UndervoltageLatch

  type CallId = nat

  // A call in flight: a render that owes a recording, or a recording and what it read after how many writes.
  datatype Phase =
    | Owing(active: bool, conditions: Conditions)
    | Holding(snapshot: Stored, after: nat, active: bool, conditions: Conditions)

  // `writes` counts the writes that changed the key.
  datatype World = World(stored: Stored, writes: nat, calls: map<CallId, Phase>)

  datatype Move =
    | ReadToRecord(id: CallId, active: bool, conditions: Conditions)
    | ReadToShow(id: CallId, sensor: bool, live: Option<bool>, own: OwnRead, conditions: Conditions)
    | ReadAgain(id: CallId)  // the recording a render makes
    | Land(id: CallId)       // the recording's write, if it makes one

  predicate Enabled(w: World, m: Move) {
    match m
    case ReadToRecord(id, _, _) => id !in w.calls
    case ReadToShow(id, _, _, _, _) => id !in w.calls
    case ReadAgain(id) => id in w.calls && w.calls[id].Owing?
    case Land(id) => id in w.calls && w.calls[id].Holding?
  }

  // What a recording's write leaves, given what it read.
  function Landed(stored: Stored, call: Phase): Stored
    requires call.Holding?
  {
    var after := Recorded(call.snapshot, call.active, call.conditions).0;
    if after == call.snapshot then stored else after
  }

  function Apply(w: World, m: Move): World
    requires Enabled(w, m)
  {
    match m
    case ReadToRecord(id, active, c) => w.(calls := w.calls[id := Holding(w.stored, w.writes, active, c)])
    case ReadToShow(id, sensor, live, own, c) =>
      if WritesBack(w.stored, sensor, live, own) then w.(calls := w.calls[id := Owing(live.value, Rerun(own, c))]) else w
    case ReadAgain(id) =>
      w.(calls := w.calls[id := Holding(w.stored, w.writes, w.calls[id].active, w.calls[id].conditions)])
    case Land(id) =>
      var after := Landed(w.stored, w.calls[id]);
      World(after, w.writes + if after == w.stored then 0 else 1, w.calls - {id})
  }

  function Start(stored: Stored): World { World(stored, 0, map[]) }

  function Reached(stored: Stored, moves: seq<Move>): Option<World> {
    if moves == [] then Some(Start(stored)) else
      var last := |moves| - 1;
      var before := Reached(stored, moves[..last]);
      if before.Some? && Enabled(before.value, moves[last]) then Some(Apply(before.value, moves[last])) else None
  }

  // No other write landed between this call's read and its own.
  predicate Undisturbed(w: World, m: Move) {
    m.Land? && Enabled(w, m) ==> w.calls[m.id].after == w.writes
  }

  // The call of the original that this move completes.
  function Completed(w: World, m: Move): seq<Event>
    requires Enabled(w, m)
  {
    match m
    case ReadToShow(_, sensor, live, own, c) =>
      if WritesBack(w.stored, sensor, live, own) then [] else [Render(sensor, live, own, c)]
    case Land(id) => [Recording(w.calls[id].active, w.calls[id].conditions)]
    case _ => []
  }

  // The calls of a run, in the order they complete.
  function Completions(stored: Stored, moves: seq<Move>): seq<Event>
    requires Reached(stored, moves).Some?
  {
    if moves == [] then [] else
      var last := |moves| - 1;
      Completions(stored, moves[..last]) + Completed(Reached(stored, moves[..last]).value, moves[last])
  }

  ghost predicate AllUndisturbed(stored: Stored, moves: seq<Move>) {
    forall k :: 0 <= k < |moves| && Reached(stored, moves[..k]).Some? ==> Undisturbed(Reached(stored, moves[..k]).value, moves[k])
  }

  // A call since whose read nothing was written holds what is stored.
  ghost predicate Current(w: World) {
    forall id :: id in w.calls && w.calls[id].Holding? ==>
                   w.calls[id].after <= w.writes && (w.calls[id].after == w.writes ==> w.calls[id].snapshot == w.stored)
  }

  lemma StepCurrent(w: World, m: Move)
    requires Current(w) && Enabled(w, m)
    ensures Current(Apply(w, m))
  {
    hide Landed, WritesBack;
  }

  lemma {:induction false} RunCurrent(stored: Stored, moves: seq<Move>)
    requires Reached(stored, moves).Some?
    ensures Current(Reached(stored, moves).value)
    decreases |moves|
  {
    hide Apply, Enabled;
    if moves != [] {
      var last := |moves| - 1;
      RunCurrent(stored, moves[..last]);
      StepCurrent(Reached(stored, moves[..last]).value, moves[last]);
    }
  }

  lemma StepCompletes(w: World, m: Move)
    requires Current(w) && Enabled(w, m) && Undisturbed(w, m)
    ensures Apply(w, m).stored == After(w.stored, Completed(w, m))
  {
    hide Recorded, WritesBack;
    OneStep(w.stored, Completed(w, m));
  }

  lemma OneStep(stored: Stored, events: seq<Event>)
    requires |events| <= 1
    ensures After(stored, events) == if events == [] then stored else Step(stored, events[0])
  {
    if events != [] {
      assert events[..0] == [];
    }
  }

  lemma AfterAppend(stored: Stored, a: seq<Event>, b: seq<Event>)
    requires |b| <= 1
    ensures After(stored, a + b) == After(After(stored, a), b)
  {
    hide Step;
    OneStep(After(stored, a), b);
    if b == [] {
      assert a + b == a;
    } else {
      assert (a + b)[..|a + b| - 1] == a;
    }
  }

  lemma UndisturbedPrefix(stored: Stored, moves: seq<Move>)
    requires moves != [] && Reached(stored, moves).Some? && AllUndisturbed(stored, moves)
    ensures var last := |moves| - 1;
            AllUndisturbed(stored, moves[..last]) && Undisturbed(Reached(stored, moves[..last]).value, moves[last])
  {
    hide Undisturbed, Apply, Enabled;
    var last := |moves| - 1;
    forall k | 0 <= k < last && Reached(stored, moves[..last][..k]).Some?
      ensures Undisturbed(Reached(stored, moves[..last][..k]).value, moves[..last][k])
    {
      assert moves[..last][..k] == moves[..k];
    }
  }

  /** Interleaved calls amount to atomic ones in the order they complete, if no write lands inside another call. */
  lemma {:induction false} RunIsAtomic(stored: Stored, moves: seq<Move>)
    requires Reached(stored, moves).Some? && AllUndisturbed(stored, moves)
    ensures Reached(stored, moves).value.stored == After(stored, Completions(stored, moves))
    decreases |moves|
  {
    hide Apply, Enabled, Undisturbed, Completed, Current;
    if moves != [] {
      var last := |moves| - 1;
      var before, w := moves[..last], Reached(stored, moves[..last]).value;
      UndisturbedPrefix(stored, moves);
      RunIsAtomic(stored, before);
      RunCurrent(stored, before);
      StepCompletes(w, moves[last]);
      CompletesOne(w, moves[last]);
      AfterAppend(stored, Completions(stored, before), Completed(w, moves[last]));
    }
  }

  lemma CompletesOne(w: World, m: Move)
    requires Enabled(w, m)
    ensures |Completed(w, m)| <= 1
  {
  }

  // ----- over one boot

  predicate MoveInBoot(b: BootId, m: Move) {
    match m
    case ReadToRecord(_, active, c) => InBoot(b, Recording(active, c))
    case ReadToShow(_, sensor, live, own, c) => InBoot(b, Render(sensor, live, own, c))
    case _ => true
  }

  predicate MoveFaultless(b: BootId, m: Move) {
    match m
    case ReadToRecord(_, active, c) => Faultless(b, Recording(active, c))
    case ReadToShow(_, sensor, live, own, c) => Faultless(b, Render(sensor, live, own, c))
    case _ => true
  }

  predicate CallInBoot(b: BootId, p: Phase) {
    p.conditions.bootId.None? || p.conditions.bootId == Some(b)
  }

  predicate CallFaultless(b: BootId, p: Phase) {
    p.conditions.bootId == Some(b) && p.conditions.readable && p.conditions.writable
  }

  ghost predicate CallsInBoot(b: BootId, w: World) {
    forall id :: id in w.calls ==> CallInBoot(b, w.calls[id])
  }

  lemma StepCallsInBoot(b: BootId, w: World, m: Move)
    requires CallsInBoot(b, w) && Enabled(w, m) && MoveInBoot(b, m)
    ensures CallsInBoot(b, Apply(w, m))
    ensures forall e :: e in Completed(w, m) ==> InBoot(b, e)
  {
    hide WritesBack, Landed;
  }

  lemma {:induction false} RunCallsInBoot(b: BootId, stored: Stored, moves: seq<Move>)
    requires Reached(stored, moves).Some? && forall m :: m in moves ==> MoveInBoot(b, m)
    ensures CallsInBoot(b, Reached(stored, moves).value)
    ensures forall e :: e in Completions(stored, moves) ==> InBoot(b, e)
    decreases |moves|
  {
    hide Apply, Enabled, Completed, MoveInBoot, InBoot;
    if moves == [] {
      assert Reached(stored, moves).value.calls == map[];
    } else {
      var last := |moves| - 1;
      RunCallsInBoot(b, stored, moves[..last]);
      StepCallsInBoot(b, Reached(stored, moves[..last]).value, moves[last]);
    }
  }

  ghost predicate CallsFaultless(b: BootId, w: World) {
    forall id :: id in w.calls ==> CallFaultless(b, w.calls[id])
  }

  lemma StepCallsFaultless(b: BootId, w: World, m: Move)
    requires CallsFaultless(b, w) && Enabled(w, m) && MoveFaultless(b, m)
    ensures CallsFaultless(b, Apply(w, m))
    ensures forall e :: e in Completed(w, m) ==> Faultless(b, e)
  {
    hide WritesBack, Landed;
  }

  lemma {:induction false} RunCallsFaultless(b: BootId, stored: Stored, moves: seq<Move>)
    requires Reached(stored, moves).Some? && forall m :: m in moves ==> MoveFaultless(b, m)
    ensures CallsFaultless(b, Reached(stored, moves).value)
    ensures forall e :: e in Completions(stored, moves) ==> Faultless(b, e)
    decreases |moves|
  {
    hide Apply, Enabled, Completed, MoveFaultless, Faultless;
    if moves == [] {
      assert Reached(stored, moves).value.calls == map[];
    } else {
      var last := |moves| - 1;
      RunCallsFaultless(b, stored, moves[..last]);
      StepCallsFaultless(b, Reached(stored, moves[..last]).value, moves[last]);
    }
  }

  /** With no failures and no write inside another call, the count is exact over the readings as calls complete. */
  lemma InterleavedCountsEdges(b: BootId, stored: Stored, moves: seq<Move>)
    requires NothingStored(stored, b) && Reached(stored, moves).Some? && AllUndisturbed(stored, moves)
    requires forall m :: m in moves ==> MoveFaultless(b, m)
    ensures Follows(ThisBoot(Reached(stored, moves).value.stored, b), Completions(stored, moves))
  {
    hide Follows, ThisBoot, AllUndisturbed;
    RunIsAtomic(stored, moves);
    RunCallsFaultless(b, stored, moves);
    LatchCountsEdges(b, stored, Completions(stored, moves));
  }

  /** And with any failures it invents nothing. */
  lemma InterleavedInventsNothing(b: BootId, stored: Stored, moves: seq<Move>)
    requires NothingStored(stored, b) && Reached(stored, moves).Some? && AllUndisturbed(stored, moves)
    requires forall m :: m in moves ==> MoveInBoot(b, m)
    ensures NotInvented(ThisBoot(Reached(stored, moves).value.stored, b), Completions(stored, moves))
  {
    hide NotInvented, ThisBoot, AllUndisturbed;
    RunIsAtomic(stored, moves);
    RunCallsInBoot(b, stored, moves);
    LatchInventsNothing(b, stored, Completions(stored, moves));
  }

  // ----- exactly which landing loses history

  predicate Writes(call: Phase)
    requires call.Holding?
  {
    Recorded(call.snapshot, call.active, call.conditions).0 != call.snapshot
  }

  // The snapshot, with the reading folded in, is no older than what is stored: in count and in first sighting.
  predicate Covers(stored: Latch, snapshot: Latch, active: bool, now: Time) {
    && stored.count <= snapshot.count + (if active && !snapshot.active then 1 else 0)
    && (stored.seenSinceBoot ==>
          if snapshot.seenSinceBoot then snapshot.firstSeen == stored.firstSeen else active && stored.firstSeen == Some(now))
  }

  predicate SafeLanding(b: BootId, w: World, m: Move) {
    m.Land? && Enabled(w, m) && Writes(w.calls[m.id]) ==>
      var call := w.calls[m.id];
      Covers(ThisBoot(w.stored, b), ThisBoot(call.snapshot, b), call.active, call.conditions.now)
  }

  /** Per landing, from what the call read and what is stored then. */
  lemma LandingKeepsHistoryIff(b: BootId, stored: Stored, call: Phase)
    requires call.Holding? && CallInBoot(b, call)
    ensures NotLost(ThisBoot(stored, b), ThisBoot(Landed(stored, call), b)) <==>
            (Writes(call) ==> Covers(ThisBoot(stored, b), ThisBoot(call.snapshot, b), call.active, call.conditions.now))
  {
  }

  ghost predicate KeepsHistory(b: BootId, stored: Stored, moves: seq<Move>, k: nat)
    requires k < |moves|
  {
    Reached(stored, moves[..k]).Some? && Reached(stored, moves[..k + 1]).Some? ==>
      NotLost(ThisBoot(Reached(stored, moves[..k]).value.stored, b), ThisBoot(Reached(stored, moves[..k + 1]).value.stored, b))
  }

  ghost predicate LandsSafely(b: BootId, stored: Stored, moves: seq<Move>, k: nat)
    requires k < |moves|
  {
    Reached(stored, moves[..k]).Some? ==> SafeLanding(b, Reached(stored, moves[..k]).value, moves[k])
  }

  lemma {:induction false} PrefixReached(stored: Stored, moves: seq<Move>, k: nat)
    requires Reached(stored, moves).Some? && k <= |moves|
    ensures Reached(stored, moves[..k]).Some?
    decreases |moves|
  {
    hide Apply, Enabled;
    if k == |moves| {
      assert moves[..k] == moves;
    } else {
      PrefixReached(stored, moves[..|moves| - 1], k);
      assert moves[..|moves| - 1][..k] == moves[..k];
    }
  }

  lemma StepKeepsHistoryIff(b: BootId, stored: Stored, moves: seq<Move>, k: nat)
    requires Reached(stored, moves).Some? && k < |moves| && forall m :: m in moves ==> MoveInBoot(b, m)
    ensures KeepsHistory(b, stored, moves, k) <==> LandsSafely(b, stored, moves, k)
  {
    hide NotLost, Covers, Landed, Writes, MoveInBoot, CallInBoot, ThisBoot;
    PrefixReached(stored, moves, k);
    PrefixReached(stored, moves, k + 1);
    assert moves[..k + 1][..k] == moves[..k];
    RunCallsInBoot(b, stored, moves[..k]);
    var w := Reached(stored, moves[..k]).value;
    if moves[k].Land? {
      LandingKeepsHistoryIff(b, w.stored, w.calls[moves[k].id]);
    } else {
      NothingLost(ThisBoot(w.stored, b));
    }
  }

  lemma NothingLost(l: Latch)
    ensures NotLost(l, l)
  {
  }

  /**
   In every interleaving whatever, with any reads and writes failing: the stored history is kept at every
   step exactly when every landing that writes covers what is stored.
   */
  lemma HistoryKeptIff(b: BootId, stored: Stored, moves: seq<Move>)
    requires Reached(stored, moves).Some? && forall m :: m in moves ==> MoveInBoot(b, m)
    ensures (forall k :: 0 <= k < |moves| ==> KeepsHistory(b, stored, moves, k)) <==>
            (forall k :: 0 <= k < |moves| ==> LandsSafely(b, stored, moves, k))
  {
    hide KeepsHistory, LandsSafely, MoveInBoot, Reached;
    forall k | 0 <= k < |moves|
      ensures KeepsHistory(b, stored, moves, k) <==> LandsSafely(b, stored, moves, k)
    {
      StepKeepsHistoryIff(b, stored, moves, k);
    }
  }

  lemma UndisturbedCovers(l: Latch, active: bool, now: Time)
    ensures Covers(l, l, active, now)
  {
  }

  /** In particular where no write lands inside another call. */
  lemma UndisturbedKeepsHistory(b: BootId, stored: Stored, moves: seq<Move>)
    requires Reached(stored, moves).Some? && AllUndisturbed(stored, moves) && forall m :: m in moves ==> MoveInBoot(b, m)
    ensures forall k :: 0 <= k < |moves| ==> KeepsHistory(b, stored, moves, k)
  {
    hide KeepsHistory, MoveInBoot, Reached, Covers, Writes, ThisBoot;
    forall k | 0 <= k < |moves|
      ensures LandsSafely(b, stored, moves, k)
    {
      PrefixReached(stored, moves, k);
      RunCurrent(stored, moves[..k]);
      var w := Reached(stored, moves[..k]).value;
      if moves[k].Land? && Enabled(w, moves[k]) {
        UndisturbedCovers(ThisBoot(w.stored, b), w.calls[moves[k].id].active, w.calls[moves[k].id].conditions.now);
      }
    }
    HistoryKeptIff(b, stored, moves);
  }

  // ----- and exactly which landing counts wrongly

  function Edge(l: Latch, active: bool): nat {
    if active && !l.active then 1 else 0
  }

  // The landing folds its reading into what is stored.
  predicate CountsExactly(before: Latch, after: Latch, active: bool) {
    && after.active == active
    && after.count == before.count + Edge(before, active)
    && after.seenSinceBoot == (before.seenSinceBoot || active)
  }

  /** A faultless landing counts exactly when what it read gives the same count and sighting as what is stored. */
  lemma LandingCountsIff(b: BootId, stored: Stored, call: Phase)
    requires call.Holding? && CallFaultless(b, call)
    ensures var s, l := ThisBoot(stored, b), ThisBoot(call.snapshot, b);
            CountsExactly(s, ThisBoot(Landed(stored, call), b), call.active) <==>
            if Writes(call) then
              && l.count + Edge(l, call.active) == s.count + Edge(s, call.active)
              && (l.seenSinceBoot || call.active) == (s.seenSinceBoot || call.active)
            else
              s.active == call.active && (call.active ==> s.seenSinceBoot)
  {
  }

  // ----- a run that loses a count

  lemma ReachedNext(stored: Stored, moves: seq<Move>, m: Move) returns (longer: seq<Move>)
    requires Reached(stored, moves).Some? && Enabled(Reached(stored, moves).value, m)
    ensures longer == moves + [m] && Reached(stored, longer) == Some(Apply(Reached(stored, moves).value, m))
  {
    longer := moves + [m];
    assert longer[..|longer| - 1] == moves;
  }

  // A whole recording, with nothing in between.
  lemma RecordsAtOnce(stored: Stored, moves: seq<Move>, id: CallId, active: bool, c: Conditions) returns (longer: seq<Move>)
    requires Reached(stored, moves).Some? && id !in Reached(stored, moves).value.calls
    ensures longer == moves + [ReadToRecord(id, active, c), Land(id)] && Reached(stored, longer).Some?
    ensures Reached(stored, longer).value.stored == Recorded(Reached(stored, moves).value.stored, active, c).0
    ensures Reached(stored, longer).value.calls == Reached(stored, moves).value.calls
  {
    hide Reached, Recorded;
    longer := ReachedNext(stored, moves, ReadToRecord(id, active, c));
    longer := ReachedNext(stored, longer, Land(id));
  }

  /** One slow recording reads before two sightings are counted, lands after them, and leaves one. */
  lemma InterleavedWritersLoseCount(b: BootId, now: Time) returns (before: seq<Move>, moves: seq<Move>)
    ensures Reached(Absent, before).Some? && Reached(Absent, moves).Some? && moves == before + [Land(0)]
    ensures forall m :: m in moves ==> MoveFaultless(b, m)
    ensures ThisBoot(Reached(Absent, before).value.stored, b).count == 2
    ensures ThisBoot(Reached(Absent, moves).value.stored, b).count == 1
  {
    var c := Conditions(now, Some(b), true, true);
    assert Reached(Absent, []) == Some(Start(Absent));
    hide Reached, WritesBack;
    before := ReachedNext(Absent, [], ReadToRecord(0, true, c));
    before := RecordsAtOnce(Absent, before, 1, true, c);
    before := RecordsAtOnce(Absent, before, 1, false, c);
    before := RecordsAtOnce(Absent, before, 1, true, c);
    moves := ReachedNext(Absent, before, Land(0));
  }
}
