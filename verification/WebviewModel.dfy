/**
 What the viewer believes the webview shows, against the webview: across crashes, respawns, version skew
 and failed calls. Everything left to chance is a parameter, so that a law for all chances is one for all runs.
 */
module WebviewModel {
  import opened Collections

  type Headers = map<string, string>

  datatype Load = Page(url: string) | Image(url: string)

  // How a D-Bus call ends for the caller. LaunchFailed is load_browser giving up.
  datatype Failure = Gone | UnknownMethod | OtherError
  datatype Reply = Done | Failed(failure: Failure) | LaunchFailed

  // A page load that reached a process: the headers it was meant for, and those staged at that moment.
  datatype Issued = Issued(url: string, wanted: Headers, staged: Headers)

  /** Never an earlier asset's headers. */
  predicate Clean(i: Issued) { i.staged == i.wanted || i.staged == map[] }

  predicate AllClean(issued: seq<Issued>) {
    forall i :: i in issued ==> Clean(i)
  }

  // The process behind the bus name: whether it ever accepted setRequestHeaders, and its last load.
  datatype Process = Process(alive: bool, staged: Headers, accepted: bool, lastLoad: Option<Load>, lastHeaders: Headers)

  // The viewer's module globals.
  datatype Cache = Cache(
    hasBrowser: bool,
    url: Option<string>,
    headers: Headers,
    skipSsl: bool,
    supportsHeaders: bool,
    supportsSslArg: bool,
    bouncePending: bool)

  // `issued` by every process so far; `bare`: the cached page met a respawn, or a process without the headers slot.
  datatype World = World(process: Process, cache: Cache, issued: seq<Issued>, bare: bool)

  // ----- chance

  // One D-Bus call: whether it is carried out and answered, how it fails if not, whether the process then dies.
  datatype Attempt = Attempt(carried: bool, answered: bool, failure: Failure, dies: bool)

  datatype Launch = Launch(ok: bool, dies: bool)

  // A call, and if its peer is gone: whether the terminated process dies, the launch, the retry.
  datatype Sending = Sending(first: Attempt, dies: bool, launch: Launch, second: Attempt)

  datatype Chance = Chance(launch: Launch, diesBefore: bool, staging: Attempt, diesAfter: bool, full: Sending, legacy: Sending)

  function Died(p: Process, dies: bool): Process {
    if dies then p.(alive := false) else p
  }

  // ----- the calls

  const SPAWNED := Process(true, map[], false, None, map[])

  /** load_browser: latches and caches are reset before the spawn, whether or not it succeeds. */
  function Launched(w: World, l: Launch): World {
    w.(process := if l.ok then Died(SPAWNED, l.dies) else w.process,
    cache := Cache(l.ok, None, map[], false, true, true, w.cache.bouncePending))
  }

  function Ensured(w: World, l: Launch): (World, bool) {
    if !w.cache.hasBrowser || !w.process.alive then (Launched(w, l), l.ok) else (w, true)
  }

  // One process never accepts the slot and later denies having it; an error may follow acceptance.
  function Staged(p: Process, h: Headers, a: Attempt): (Process, Reply) {
    if !p.alive then (p, Failed(if a.answered then Gone else OtherError))
    else if a.carried then (Died(p.(staged := h, accepted := true), a.dies), if a.answered then Done else Failed(OtherError))
    else (Died(p, a.dies), Failed(if !p.accepted && a.answered then UnknownMethod else OtherError))
  }

  /** _apply_request_headers. */
  function Applied(w: World, h: Headers, a: Attempt): (World, bool) {
    if !w.cache.supportsHeaders then (w, true) else
      var (p, r) := Staged(w.process, h, a);
      var after := w.(process := p);
      if r == Done then (after, true)
      else if r == Failed(UnknownMethod) then (after.(cache := w.cache.(supportsHeaders := false)), true)
      else (after, false)
  }

  // A load may have been carried out even if the reply is an error, and Gone may be a mere timeout.
  function Received(p: Process, issued: seq<Issued>, load: Load, wanted: Headers, a: Attempt): (Process, seq<Issued>, Reply) {
    if !p.alive || !a.carried then (Died(p, a.dies), issued, Failed(a.failure)) else
      (Died(p.(lastLoad := Some(load), lastHeaders := p.staged), a.dies),
       if load.Page? then issued + [Issued(load.url, wanted, p.staged)] else issued,
       if a.answered then Done else Failed(a.failure))
  }

  function Carried(w: World, load: Load, wanted: Headers, a: Attempt): (World, Reply) {
    var (p, issued, r) := Received(w.process, w.issued, load, wanted, a);
    (w.(process := p, issued := issued), r)
  }

  /** _send_to_webview: one retry, on a new process, if the peer was gone. True at the end if there is one. */
  function Sent(w: World, load: Load, wanted: Headers, s: Sending): (World, Reply, bool) {
    var (tried, r) := Carried(w, load, wanted, s.first);
    if r != Failed(Gone) then (tried, r, false) else
      var renewed := Launched(tried.(process := Died(tried.process, s.dies)), s.launch);
      if !s.launch.ok then (renewed, LaunchFailed, false) else
        var (again, r2) := Carried(renewed, load, wanted, s.second);
        (again, r2, true)
  }

  /** _load_via_webview: with the skip-SSL argument, then without; what still fails escapes. */
  function LoadedVia(w: World, load: Load, wanted: Headers, full: Sending, legacy: Sending): (World, bool, bool) {
    var (first, r, respawned) := Sent(w, load, wanted, full);
    if !w.cache.supportsSslArg || r == Done || r == Failed(Gone) then (first, r == Done, respawned) else
      var (second, r2, again) := Sent(first, load, wanted, legacy);
      (if r2 == Done then second.(cache := second.cache.(supportsSslArg := false)) else second, r2 == Done, respawned || again)
  }

  datatype Outcome = Raised | Loaded | Unchanged | Deferred

  predicate Cached(c: Cache, uri: string, headers: Headers, skipSsl: bool) {
    c.url == Some(uri) && c.headers == headers && c.skipSsl == skipSsl
  }

  function Navigated(w: World, uri: string, headers: Headers, skipSsl: bool, c: Chance): (World, Outcome) {
    var (after, ok, respawned) := LoadedVia(w, Page(uri), headers, c.full, c.legacy);
    if !ok then (after, Raised) else
      (after.(cache := after.cache.(url := Some(uri), headers := headers, skipSsl := skipSsl),
       bare := respawned || !after.process.accepted), Loaded)
  }

  /** view_webpage. An error that escapes ends the viewer. */
  function PageShown(w: World, uri: string, headers: Headers, skipSsl: bool, c: Chance): (World, Outcome) {
    var (up, ok) := Ensured(w, c.launch);
    if !ok then (up, Raised) else
      var (told, applied) := Applied(up.(process := Died(up.process, c.diesBefore)), headers, c.staging);
      var ready := told.(process := Died(told.process, c.diesAfter));
      if Cached(ready.cache, uri, headers, skipSsl) then (ready, Unchanged)
      else if !applied then (ready, Deferred)
      else Navigated(ready, uri, headers, skipSsl, c)
  }

  /** view_image. */
  function ImageShown(w: World, uri: string, skipSsl: bool, c: Chance): (World, Outcome) {
    var (up, ok) := Ensured(w, c.launch);
    if !ok then (up, Raised) else
      var ready := up.(process := Died(up.process, c.diesBefore));
      if ready.cache.url == Some(uri) && ready.cache.skipSsl == skipSsl then (ready, Unchanged) else
        var (after, shown, _) := LoadedVia(ready, Image(uri), ready.process.staged, c.full, c.legacy);
        if !shown then (after, Raised) else
          (after.(cache := after.cache.(url := Some(uri), skipSsl := skipSsl)), Loaded)
  }

  /** The URL is forgotten even if the process survives its termination. */
  function Bounced(w: World, dies: bool): World {
    if !w.cache.bouncePending then w else
      w.(process := Died(w.process, dies && w.cache.hasBrowser), cache := w.cache.(bouncePending := false, url := None))
  }

  // ----- the invariant

  // Nothing staged that the latch does not account for, and no load yet with another asset's headers.
  predicate Sound(w: World) {
    && (!w.process.accepted ==> w.process.staged == map[])
    && (w.process.alive && !w.cache.supportsHeaders ==> !w.process.accepted)
    && AllClean(w.issued)
  }

  // A page came with the headers the cache claims, or with none; with those claimed exactly unless it is bare.
  predicate HeadersAsClaimed(p: Process, headers: Headers, bare: bool) {
    && (p.lastHeaders == headers || p.lastHeaders == map[])
    && (p.lastHeaders == headers <==> headers == map[] || !bare)
  }

  // What the cache claims is what the live process last loaded.
  predicate Truthful(w: World) {
    w.cache.url.Some? && w.process.alive ==>
      && w.process.lastLoad.Some?
      && w.process.lastLoad.value.url == w.cache.url.value
      && (w.process.lastLoad.value.Page? ==> HeadersAsClaimed(w.process, w.cache.headers, w.bare))
  }

  predicate Valid(w: World) { Sound(w) && Truthful(w) }

  // Whatever process is alive holds these headers or none.
  predicate Holds(p: Process, h: Headers) {
    p.alive ==> p.staged == h || p.staged == map[]
  }

  lemma LaunchedValid(w: World, l: Launch)
    requires Sound(w)
    ensures Valid(Launched(w, l)) && Launched(w, l).issued == w.issued
  {
  }

  lemma DiedValid(w: World, dies: bool)
    ensures Sound(w) ==> Sound(w.(process := Died(w.process, dies)))
    ensures Valid(w) ==> Valid(w.(process := Died(w.process, dies)))
  {
  }

  /** Applied: a live process holds this asset's headers, or none, and if it takes headers then this asset's. */
  lemma AppliedHolds(w: World, h: Headers, a: Attempt)
    requires Valid(w)
    ensures var (after, ok) := Applied(w, h, a);
            && Valid(after) && after.issued == w.issued && after.bare == w.bare
            && (ok ==> Holds(after.process, h) && (after.process.alive && after.process.accepted ==> after.process.staged == h))
  {
  }

  // The same process, if it still lives, with nothing restaged.
  predicate SameHeaders(p: Process, q: Process) {
    (q.alive ==> p.alive) && q.staged == p.staged && q.accepted == p.accepted
  }

  lemma CarriedSound(w: World, load: Load, wanted: Headers, a: Attempt)
    requires Sound(w) && Holds(w.process, wanted)
    ensures var (after, r) := Carried(w, load, wanted, a);
            && Sound(after) && Holds(after.process, wanted) && SameHeaders(w.process, after.process)
            && after.cache == w.cache && r != LaunchFailed
            && (r == Done ==> after.process.lastLoad == Some(load) && after.process.lastHeaders == after.process.staged)
  {
  }

  // What a load that went through leaves: on the same process as before, or on a new one without headers.
  predicate LoadDone(w: World, after: World, load: Load, ok: bool, respawned: bool) {
    && (ok ==> after.process.lastLoad == Some(load) && after.process.lastHeaders == after.process.staged)
    && (if respawned then after.process.staged == map[] && !after.process.accepted else SameHeaders(w.process, after.process))
  }

  /** Every load sent goes out clean, and a retry runs on a process that holds no headers. */
  lemma SentSound(w: World, load: Load, wanted: Headers, s: Sending)
    requires Sound(w) && Holds(w.process, wanted)
    ensures var (after, r, respawned) := Sent(w, load, wanted, s);
            Sound(after) && Holds(after.process, wanted) && LoadDone(w, after, load, r == Done, respawned)
  {
    hide Carried, Sound;
    CarriedSound(w, load, wanted, s.first);
    var (tried, r) := Carried(w, load, wanted, s.first);
    var reaped := tried.(process := Died(tried.process, s.dies));
    DiedValid(tried, s.dies);
    LaunchedValid(reaped, s.launch);
    if r == Failed(Gone) && s.launch.ok {
      CarriedSound(Launched(reaped, s.launch), load, wanted, s.second);
    }
  }

  lemma LoadsCompose(w: World, first: World, second: World, load: Load, ok: bool, x: bool, y: bool)
    requires LoadDone(w, first, load, false, x) && LoadDone(first, second, load, ok, y)
    ensures LoadDone(w, second, load, ok, x || y)
  {
  }

  lemma LatchOff(w: World)
    requires Sound(w)
    ensures Sound(w.(cache := w.cache.(supportsSslArg := false)))
  {
  }

  lemma LoadedSound(w: World, load: Load, wanted: Headers, full: Sending, legacy: Sending)
    requires Sound(w) && Holds(w.process, wanted)
    ensures var (after, ok, respawned) := LoadedVia(w, load, wanted, full, legacy);
            Sound(after) && Holds(after.process, wanted) && LoadDone(w, after, load, ok, respawned)
  {
    hide Sent, Sound, Holds;
    var (first, r, x) := Sent(w, load, wanted, full);
    SentSound(w, load, wanted, full);
    if w.cache.supportsSslArg && r != Done && r != Failed(Gone) {
      var (second, r2, y) := Sent(first, load, wanted, legacy);
      SentSound(first, load, wanted, legacy);
      LoadsCompose(w, first, second, load, r2 == Done, x, y);
      LatchOff(second);
    }
  }

  // A page just loaded carries its headers exactly when there are none, or no respawn came between and the
  // process takes them; otherwise none.
  lemma NavigatedValid(w: World, uri: string, headers: Headers, skipSsl: bool, c: Chance)
    requires Sound(w) && Holds(w.process, headers)
    requires w.process.alive && w.process.accepted ==> w.process.staged == headers
    ensures var (after, outcome) := Navigated(w, uri, headers, skipSsl, c);
            && Sound(after) && (outcome == Raised || outcome == Loaded)
            && (outcome == Loaded ==> Truthful(after) && Cached(after.cache, uri, headers, skipSsl))
            && (outcome == Loaded && after.process.alive ==> after.process.lastLoad == Some(Page(uri)))
            && (outcome == Loaded ==>
                  (after.bare <==> LoadedVia(w, Page(uri), headers, c.full, c.legacy).2 || !after.process.accepted))
  {
    hide LoadedVia;
    LoadedSound(w, Page(uri), headers, c.full, c.legacy);
  }

  /**
   view_webpage keeps the cache truthful. A page left as unchanged is the live process's last load and has
   the headers it was loaded with: those asked for exactly if there are none or that load was not bare. A page
   loaded is likewise, and a deferred one, for which nothing was sent, is retried.
   */
  lemma PageShownValid(w: World, uri: string, headers: Headers, skipSsl: bool, c: Chance)
    requires Valid(w)
    ensures var (after, outcome) := PageShown(w, uri, headers, skipSsl, c);
            && Sound(after) && (outcome != Raised ==> Truthful(after))
            && (outcome == Loaded || outcome == Unchanged ==> Cached(after.cache, uri, headers, skipSsl))
            && (outcome == Loaded && after.process.alive ==> after.process.lastLoad == Some(Page(uri)))
            && (outcome == Unchanged || outcome == Deferred ==> after.issued == w.issued && after.bare == w.bare)
            && (outcome == Deferred ==> !Cached(after.cache, uri, headers, skipSsl))
  {
    hide Launched, Applied, Navigated, Sound, Truthful;
    var (up, ok) := Ensured(w, c.launch);
    LaunchedValid(w, c.launch);
    if ok {
      EnsuredKeeps(w, c.launch);
      DiedValid(up, c.diesBefore);
      var noted := up.(process := Died(up.process, c.diesBefore));
      AppliedHolds(noted, headers, c.staging);
      var (told, applied) := Applied(noted, headers, c.staging);
      DiedValid(told, c.diesAfter);
      var ready := told.(process := Died(told.process, c.diesAfter));
      if applied {
        NavigatedValid(ready, uri, headers, skipSsl, c);
      }
    }
  }

  lemma EnsuredKeeps(w: World, l: Launch)
    ensures Ensured(w, l).0.issued == w.issued && Ensured(w, l).0.bare == w.bare
  {
  }

  /** view_image likewise, for the URL. */
  lemma ImageShownValid(w: World, uri: string, skipSsl: bool, c: Chance)
    requires Valid(w)
    ensures var (after, outcome) := ImageShown(w, uri, skipSsl, c);
            && Sound(after) && outcome != Deferred && (outcome != Raised ==> Truthful(after))
            && (outcome == Loaded || outcome == Unchanged ==> after.cache.url == Some(uri) && after.cache.skipSsl == skipSsl)
            && (outcome == Loaded ==> after.process.lastLoad == Some(Image(uri)))
  {
    hide Launched, LoadedVia;
    var (up, ok) := Ensured(w, c.launch);
    LaunchedValid(w, c.launch);
    if ok {
      DiedValid(up, c.diesBefore);
      var ready := up.(process := Died(up.process, c.diesBefore));
      LoadedSound(ready, Image(uri), ready.process.staged, c.full, c.legacy);
    }
  }

  lemma BouncedValid(w: World, dies: bool)
    requires Valid(w)
    ensures Valid(Bounced(w, dies)) && !Bounced(w, dies).cache.bouncePending
    ensures Bounced(w, dies).cache.url == if w.cache.bouncePending then None else w.cache.url
  {
  }

  // ----- whole runs

  datatype Command =
    | ShowPage(url: string, headers: Headers, skipSsl: bool, chance: Chance)
    | ShowImage(url: string, skipSsl: bool, chance: Chance)
    | AskBounce
    | Bounce(dies: bool)
    | Crash

  const INITIAL :=
    World(Process(false, map[], false, None, map[]), Cache(false, None, map[], false, true, true, false), [], false)

  function Stepped(w: World, command: Command): (World, Outcome) {
    match command
    case ShowPage(url, headers, skipSsl, c) => PageShown(w, url, headers, skipSsl, c)
    case ShowImage(url, skipSsl, c) => ImageShown(w, url, skipSsl, c)
    case AskBounce => (w.(cache := w.cache.(bouncePending := true)), Deferred)
    case Bounce(dies) => (Bounced(w, dies), Deferred)
    case Crash => (w.(process := Died(w.process, true)), Deferred)
  }

  // The world after the commands, or where an error escaped.
  function After(commands: seq<Command>): (World, Outcome) {
    if commands == [] then (INITIAL, Deferred) else
      var last := |commands| - 1;
      var (w, outcome) := After(commands[..last]);
      if outcome == Raised then (w, Raised) else Stepped(w, commands[last])
  }

  lemma SteppedValid(w: World, command: Command)
    requires Valid(w)
    ensures Sound(Stepped(w, command).0) && (Stepped(w, command).1 != Raised ==> Truthful(Stepped(w, command).0))
  {
    hide PageShown, ImageShown, Bounced;
    match command
    case ShowPage(url, headers, skipSsl, c) => PageShownValid(w, url, headers, skipSsl, c);
    case ShowImage(url, skipSsl, c) => ImageShownValid(w, url, skipSsl, c);
    case AskBounce =>
    case Bounce(dies) => BouncedValid(w, dies);
    case Crash => DiedValid(w, true);
  }

  /**
   In every run, whatever crashes, respawns, denies or fails, every page load went out with that asset's
   headers or none; and until an error escapes, the cache says what the live process last loaded, headers included.
   */
  lemma {:induction false} EveryRunTruthful(commands: seq<Command>)
    ensures AllClean(After(commands).0.issued)
    ensures Sound(After(commands).0) && (After(commands).1 != Raised ==> Valid(After(commands).0))
    decreases |commands|
  {
    hide Stepped, Truthful;
    if commands != [] {
      var last := |commands| - 1;
      EveryRunTruthful(commands[..last]);
      if After(commands[..last]).1 != Raised {
        SteppedValid(After(commands[..last]).0, commands[last]);
      }
    } else {
      InitialValid();
    }
  }

  lemma InitialValid()
    ensures Valid(INITIAL)
  {
  }

  // ----- a page that stays without its headers

  const WELL := Attempt(true, true, OtherError, false)
  const FALLS := Attempt(false, false, Gone, true)
  const UP := Launch(true, false)
  const SMOOTH := Chance(UP, false, WELL, false, Sending(WELL, false, UP, WELL), Sending(WELL, false, UP, WELL))
  const FALLS_ON_LOAD := SMOOTH.(full := Sending(FALLS, true, UP, WELL))

  // The webview dies as the page is sent to it; from then on all goes well.
  function LossyRun(url: string, headers: Headers): seq<Command> {
    [ShowPage(url, headers, false, FALLS_ON_LOAD), ShowPage(url, headers, false, SMOOTH)]
  }

  // The load as it meets the dying process, then the new one.
  lemma FallingLoad(w: World, url: string, headers: Headers)
    requires w.process == Process(true, headers, true, None, map[]) && w.issued == []
    requires w.cache == Cache(true, None, map[], false, true, true, false)
    ensures LoadedVia(w, Page(url), headers, FALLS_ON_LOAD.full, FALLS_ON_LOAD.legacy) ==
            (World(Process(true, map[], false, Some(Page(url)), map[]), w.cache, [Issued(url, headers, map[])], w.bare), true, true)
  {
    var s := FALLS_ON_LOAD.full;
    assert s == Sending(FALLS, true, UP, WELL);
    var (tried, r) := Carried(w, Page(url), headers, s.first);
    assert r == Failed(Gone) && tried.cache == w.cache && tried.issued == [];
    var renewed := Launched(tried.(process := Died(tried.process, s.dies)), s.launch);
    assert renewed.process == SPAWNED;
    assert [] + [Issued(url, headers, map[])] == [Issued(url, headers, map[])];
  }

  lemma AfterFall(url: string, headers: Headers)
    ensures PageShown(INITIAL, url, headers, false, FALLS_ON_LOAD) ==
            (World(Process(true, map[], false, Some(Page(url)), map[]), Cache(true, Some(url), headers, false, true, true, false),
             [Issued(url, headers, map[])], true), Loaded)
  {
    hide LoadedVia;
    var c := FALLS_ON_LOAD;
    assert c.launch == UP && !c.diesBefore && c.staging == WELL && !c.diesAfter;
    var up := Launched(INITIAL, UP);
    assert up == World(SPAWNED, Cache(true, None, map[], false, true, true, false), [], false);
    var (told, applied) := Applied(up, headers, WELL);
    assert applied && told.process == Process(true, headers, true, None, map[]);
    FallingLoad(told, url, headers);
  }

  /** A tick later the headers are staged again, the page counts as unchanged, and it is still shown without them. */
  lemma UnchangedWithoutHeaders(url: string, headers: Headers)
    requires headers != map[]
    ensures var (w, outcome) := After(LossyRun(url, headers));
            && outcome == Unchanged && w.process.alive && w.process.staged == headers
            && w.process.lastLoad == Some(Page(url)) && w.cache.headers == headers
            && w.process.lastHeaders == map[] && w.bare
  {
    hide PageShown;
    var run := LossyRun(url, headers);
    var first := run[..1];
    assert first == [run[0]] && first[..0] == [];
    AfterFall(url, headers);
    assert After(first) == PageShown(INITIAL, url, headers, false, FALLS_ON_LOAD);
    SecondTick(After(first).0, url, headers);
  }

  lemma SecondTick(w: World, url: string, headers: Headers)
    requires w.process == Process(true, map[], false, Some(Page(url)), map[])
    requires w.cache == Cache(true, Some(url), headers, false, true, true, false)
    ensures PageShown(w, url, headers, false, SMOOTH) ==
            (w.(process := Process(true, headers, true, Some(Page(url)), map[])), Unchanged)
  {
  }
}
