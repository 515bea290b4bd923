/** The under-voltage latch kept in Redis over one boot, under failing reads and writes. */
module UndervoltageLatch {
  import opened Collections

  type Time = int
  type BootId = string

  datatype Latch = Latch(active: bool, seenSinceBoot: bool, firstSeen: Option<Time>, lastSeen: Option<Time>, count: int)

  const EMPTY := Latch(false, false, None, None, 0)

  // What the key holds: nothing, something that does not decode, or a latch and the boot it belongs to.
  datatype Stored = Absent | Garbage | Record(bootId: Option<BootId>, latch: Latch)

  /** The latch of this boot, and whether Redis could be read. */
  function LoadLatch(stored: Stored, bootId: Option<BootId>, readable: bool): (Latch, bool) {
    if bootId.None? then (EMPTY, true)
    else if !readable then (EMPTY, false)
    else (ThisBoot(stored, bootId.value), true)
  }

  function ThisBoot(stored: Stored, bootId: BootId): Latch {
    if stored.Record? && stored.bootId == Some(bootId) then stored.latch else EMPTY
  }

  /** One reading folded into a latch. */
  function Observe(state: Latch, active: bool, now: Time): Latch {
    if !active then state.(active := false) else
      Latch(true, true,
            if state.seenSinceBoot then state.firstSeen else Some(now),
            Some(now),
            state.count + if state.active then 0 else 1)
  }

  // What one call meets: its clock, and whether its read and its write of Redis succeed.
  datatype Conditions = Conditions(now: Time, bootId: Option<BootId>, readable: bool, writable: bool)

  function Recorded(stored: Stored, active: bool, c: Conditions): (Stored, Latch) {
    var (prior, readable) := LoadLatch(stored, c.bootId, c.readable);
    var state := Observe(prior, active, c.now);
    (if c.bootId.None? || !readable || state == prior || !c.writable then stored else Record(c.bootId, state), state)
  }

  datatype Shown = Shown(supported: bool, latch: Latch)

  // A page render reads twice when it writes back: `own` meets its own read, `c` that of the recording.
  // The recording looks for a boot id again only if the render had none.
  datatype OwnRead = OwnRead(bootId: Option<BootId>, readable: bool)

  function Rerun(own: OwnRead, c: Conditions): Conditions {
    if own.bootId.Some? then c.(bootId := own.bootId) else c
  }

  // The render found the latch behind the sensor.
  predicate WritesBack(stored: Stored, sensor: bool, live: Option<bool>, own: OwnRead) {
    var (state, readable) := LoadLatch(stored, own.bootId, own.readable);
    sensor && live.Some? && readable && (live.value != state.active || (live.value && !state.seenSinceBoot))
  }

  function Rendered(stored: Stored, sensor: bool, live: Option<bool>, own: OwnRead, c: Conditions): (Stored, Shown) {
    if !sensor then (stored, Shown(false, EMPTY)) else
      var (state, readable) := LoadLatch(stored, own.bootId, own.readable);
      if live.None? then (stored, Shown(true, state))
      else if !readable then
        (stored, Shown(true, state.(active := live.value, seenSinceBoot := state.seenSinceBoot || live.value)))
      else if WritesBack(stored, sensor, live, own) then
        var (after, latch) := Recorded(stored, live.value, Rerun(own, c));
        (after, Shown(true, latch))
      else
        (stored, Shown(true, state))
  }

  predicate ShouldWarn(s: Shown) {
    s.supported && (s.latch.active || s.latch.seenSinceBoot)
  }

  // ----- one boot

  datatype Event =
    | Recording(active: bool, conditions: Conditions)
    | Render(sensor: bool, live: Option<bool>, own: OwnRead, conditions: Conditions)

  function Step(stored: Stored, e: Event): Stored {
    match e
    case Recording(active, c) => Recorded(stored, active, c).0
    case Render(sensor, live, own, c) => Rendered(stored, sensor, live, own, c).0
  }

  function After(stored: Stored, events: seq<Event>): Stored {
    if events == [] then stored else Step(After(stored, events[..|events| - 1]), events[|events| - 1])
  }

  // The boot id is one value while it can be read at all.
  predicate InBoot(b: BootId, e: Event) {
    && (e.conditions.bootId.None? || e.conditions.bootId == Some(b))
    && (e.Render? ==> e.own.bootId.None? || e.own.bootId == Some(b))
  }

  predicate Faultless(b: BootId, e: Event) {
    e.conditions.bootId == Some(b) && e.conditions.readable && e.conditions.writable && (e.Render? ==> e.own == OwnRead(Some(b), true))
  }

  function Reading(e: Event): Option<bool> {
    match e
    case Recording(active, _) => Some(active)
    case Render(sensor, live, _, _) => if sensor then live else None
  }

  // What the sensor last said, and how often it went from false to true, over recorded and rendered readings.
  function LastReading(events: seq<Event>): bool {
    if events == [] then false else
      var r := Reading(events[|events| - 1]);
      if r.Some? then r.value else LastReading(events[..|events| - 1])
  }

  function Edges(events: seq<Event>): nat {
    if events == [] then 0 else
      var before, r := events[..|events| - 1], Reading(events[|events| - 1]);
      Edges(before) + if r == Some(true) && !LastReading(before) then 1 else 0
  }

  // When the sensor first said true.
  function FirstActive(events: seq<Event>): Option<Time> {
    if events == [] then None else
      var last := |events| - 1;
      var before := FirstActive(events[..last]);
      if before.Some? then before
      else if Reading(events[last]) == Some(true) then Some(events[last].conditions.now)
      else None
  }

  // When it was last recorded as true, or a render found it newly true.
  function LastSighting(events: seq<Event>): Option<Time> {
    if events == [] then None else
      var before, e := events[..|events| - 1], events[|events| - 1];
      if Reading(e) == Some(true) && (e.Recording? || !LastReading(before)) then Some(e.conditions.now) else LastSighting(before)
  }

  /** No step loses history: seen stays seen, the first time stays, the count never drops. */
  ghost predicate NotLost(a: Latch, b: Latch) {
    && (a.seenSinceBoot ==> b.seenSinceBoot && b.firstSeen == a.firstSeen)
    && a.count <= b.count
  }

  lemma StepKeepsHistory(b: BootId, stored: Stored, e: Event)
    requires InBoot(b, e)
    ensures NotLost(ThisBoot(stored, b), ThisBoot(Step(stored, e), b))
  {
  }

  /** Over a boot, whatever reads and writes fail, the stored history is never lost. */
  lemma {:induction false} HistoryNeverLost(b: BootId, stored: Stored, events: seq<Event>, k: nat)
    requires k <= |events| && forall e :: e in events ==> InBoot(b, e)
    ensures NotLost(ThisBoot(After(stored, events[..k]), b), ThisBoot(After(stored, events), b))
    decreases |events|
  {
    if k < |events| {
      var before := events[..|events| - 1];
      HistoryNeverLost(b, stored, before, k);
      assert before[..k] == events[..k];
      StepKeepsHistory(b, After(stored, before), events[|events| - 1]);
    } else {
      assert events[..k] == events;
    }
  }

  // The stored state as far as it must agree with the readings.
  ghost predicate Follows(l: Latch, events: seq<Event>) {
    && l.count == Edges(events)
    && l.active == LastReading(events)
    && (l.seenSinceBoot <==> Edges(events) > 0)
    && l.firstSeen == FirstActive(events)
    && l.lastSeen == LastSighting(events)
  }

  // The key holds nothing yet for this boot: absent, undecodable, of another boot, or an untouched latch.
  predicate NothingStored(stored: Stored, b: BootId) {
    stored.Record? && stored.bootId == Some(b) ==> stored.latch == Latch(false, false, None, None, 0)
  }

  lemma OneMoreEvent(events: seq<Event>, e: Event)
    ensures LastReading(events + [e]) == if Reading(e).Some? then Reading(e).value else LastReading(events)
    ensures Edges(events + [e]) == Edges(events) + if Reading(e) == Some(true) && !LastReading(events) then 1 else 0
    ensures FirstActive(events + [e]) ==
            if FirstActive(events).Some? then FirstActive(events)
            else if Reading(e) == Some(true) then Some(e.conditions.now) else None
    ensures LastSighting(events + [e]) ==
            if Reading(e) == Some(true) && (e.Recording? || !LastReading(events)) then Some(e.conditions.now) else LastSighting(events)
  {
    assert (events + [e])[..|events + [e]| - 1] == events;
  }

  // A faultless step folds the reading in, edge-triggered.
  lemma FaultlessStep(b: BootId, stored: Stored, e: Event)
    requires Faultless(b, e) && (ThisBoot(stored, b).active ==> ThisBoot(stored, b).seenSinceBoot)
    ensures var l, m := ThisBoot(stored, b), ThisBoot(Step(stored, e), b);
            var r := Reading(e);
            && m.active == (if r.Some? then r.value else l.active)
            && m.count == l.count + (if r == Some(true) && !l.active then 1 else 0)
            && m.seenSinceBoot == (l.seenSinceBoot || r == Some(true))
            && m.firstSeen == (if !l.seenSinceBoot && r == Some(true) then Some(e.conditions.now) else l.firstSeen)
            && m.lastSeen == (if r == Some(true) && (e.Recording? || !l.active) then Some(e.conditions.now) else l.lastSeen)
  {
  }

  lemma StepFollows(b: BootId, stored: Stored, events: seq<Event>, e: Event)
    requires Faultless(b, e) && Follows(ThisBoot(stored, b), events)
    requires LastReading(events) ==> Edges(events) > 0
    requires FirstActive(events).Some? <==> Edges(events) > 0
    ensures Follows(ThisBoot(Step(stored, e), b), events + [e])
  {
    hide Step, ThisBoot, LastReading, Edges, FirstActive, LastSighting;
    OneMoreEvent(events, e);
    FaultlessStep(b, stored, e);
  }

  lemma {:induction false} ActiveMeansEdge(events: seq<Event>)
    ensures LastReading(events) ==> Edges(events) > 0
    ensures FirstActive(events).Some? <==> Edges(events) > 0
  {
    if events != [] {
      ActiveMeansEdge(events[..|events| - 1]);
    }
  }

  /** With no failures, the latch is exactly the edge count and the last reading. */
  lemma {:induction false} LatchCountsEdges(b: BootId, stored: Stored, events: seq<Event>)
    requires NothingStored(stored, b)
    requires forall e :: e in events ==> Faultless(b, e)
    ensures Follows(ThisBoot(After(stored, events), b), events)
    decreases |events|
  {
    if events != [] {
      var before, e := events[..|events| - 1], events[|events| - 1];
      assert events == before + [e];
      LatchCountsEdges(b, stored, before);
      ActiveMeansEdge(before);
      StepFollows(b, After(stored, before), before, e);
    }
  }

  // Under failures: never more events than the sensor showed, with one owed while an active reading is unsaved.
  ghost predicate NotInvented(l: Latch, events: seq<Event>) {
    && l.count <= Edges(events)
    && (LastReading(events) && !l.active ==> l.count < Edges(events))
    && (l.seenSinceBoot || l.active ==> Edges(events) > 0)
  }

  lemma StepInventsNothing(b: BootId, stored: Stored, events: seq<Event>, e: Event)
    requires InBoot(b, e) && NotInvented(ThisBoot(stored, b), events)
    ensures NotInvented(ThisBoot(Step(stored, e), b), events + [e])
  {
    assert (events + [e])[..|events + [e]| - 1] == events;
    ActiveMeansEdge(events);
    ActiveMeansEdge(events + [e]);
  }

  /** With any failures at all, the stored count never exceeds the true number of edges. */
  lemma {:induction false} LatchInventsNothing(b: BootId, stored: Stored, events: seq<Event>)
    requires NothingStored(stored, b)
    requires forall e :: e in events ==> InBoot(b, e)
    ensures NotInvented(ThisBoot(After(stored, events), b), events)
    decreases |events|
  {
    if events != [] {
      var before, e := events[..|events| - 1], events[|events| - 1];
      assert events == before + [e];
      LatchInventsNothing(b, stored, before);
      StepInventsNothing(b, After(stored, before), before, e);
    }
  }

  /** A render shows the sensor's own word whenever it has one, whatever fails, and warns of what it sees. */
  lemma RenderShowsLive(stored: Stored, live: Option<bool>, own: OwnRead, c: Conditions)
    ensures var shown := Rendered(stored, true, live, own, c).1;
            && shown.supported
            && (live.Some? ==> shown.latch.active == live.value && (live.value ==> shown.latch.seenSinceBoot && ShouldWarn(shown)))
    ensures !Rendered(stored, false, live, own, c).1.supported && !ShouldWarn(Rendered(stored, false, live, own, c).1)
  {
  }

  /** With no failures, what a recording returns and a render shows is what is then stored. */
  lemma ShownIsStored(b: BootId, stored: Stored, e: Event)
    requires Faultless(b, e) && (ThisBoot(stored, b).active ==> ThisBoot(stored, b).seenSinceBoot)
    ensures match e
            case Recording(active, c) => Recorded(stored, active, c).1 == ThisBoot(Step(stored, e), b)
            case Render(sensor, live, own, c) =>
              sensor ==> Rendered(stored, sensor, live, own, c).1.latch == ThisBoot(Step(stored, e), b)
  {
  }

  /** Without a sensor, or without a boot id, nothing is ever stored. */
  lemma NothingWritten(stored: Stored, e: Event)
    requires e.conditions.bootId.None? || (e.Render? && !e.sensor)
    requires e.Render? ==> e.own.bootId.None? || !e.sensor
    ensures Step(stored, e) == stored
  {
  }

  /** With no failures, a render warns exactly when the sensor has gone to true by then. */
  lemma WarnsIff(b: BootId, stored: Stored, events: seq<Event>, e: Event)
    requires NothingStored(stored, b) && e.Render? && Faultless(b, e)
    requires forall x :: x in events ==> Faultless(b, x)
    ensures ShouldWarn(Rendered(After(stored, events), e.sensor, e.live, e.own, e.conditions).1) <==>
            e.sensor && Edges(events + [e]) > 0
  {
    hide LastReading, Edges, After, FirstActive, LastSighting;
    LatchCountsEdges(b, stored, events);
    ActiveMeansEdge(events);
    OneMoreEvent(events, e);
  }

  // ----- the module's two entry points, against the key they share

  class LatchKey {
    var stored: Stored

    method RecordObservation(active: bool, c: Conditions) returns (state: Latch)
      modifies this
      ensures (stored, state) == Recorded(old(stored), active, c)
    {
      var (prior, readable) := LoadLatch(stored, c.bootId, c.readable);
      state := prior;
      var wasActive := state.active;
      state := state.(active := active);
      if active {
        if !state.seenSinceBoot {
          state := state.(seenSinceBoot := true, firstSeen := Some(c.now));
        }
        state := state.(lastSeen := Some(c.now));
        if !wasActive {
          state := state.(count := state.count + 1);
        }
      }
      if c.bootId.None? {
        return;
      }
      if !readable {
        return;
      }
      if state == prior {
        return;
      }
      if c.writable {
        stored := Record(c.bootId, state);
      }
    }

    method GetState(sensor: bool, live: Option<bool>, own: OwnRead, c: Conditions) returns (shown: Shown)
      modifies this
      ensures (stored, shown) == Rendered(old(stored), sensor, live, own, c)
    {
      if !sensor {
        return Shown(false, EMPTY);
      }
      var (state, readable) := LoadLatch(stored, own.bootId, own.readable);
      if live.None? {
        return Shown(true, state);
      }
      if !readable {
        state := state.(active := live.value);
        if live.value {
          state := state.(seenSinceBoot := true);
        }
        return Shown(true, state);
      }
      if live.value != state.active || (live.value && !state.seenSinceBoot) {
        var latch := RecordObservation(live.value, Rerun(own, c));
        return Shown(true, latch);
      }
      return Shown(true, state);
    }
  }
}
