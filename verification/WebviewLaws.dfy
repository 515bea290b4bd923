/** When the viewer loads, skips, defers or gives up, from the world before the call and the chances it meets. */
module WebviewLaws {
  import opened Collections
  import opened WebviewModel

  predicate Up(w: World) { w.cache.hasBrowser && w.process.alive }

  // What the viewer remembers is what it is asked for.
  predicate Remembers(w: World, uri: string, headers: Headers, skipSsl: bool) {
    w.cache.url == Some(uri) && w.cache.headers == headers && w.cache.skipSsl == skipSsl
  }

  /** Relaunching forgets everything remembered of the old process, its missing slots included, and nothing else. */
  lemma LaunchForgets(w: World, l: Launch)
    ensures var after := Launched(w, l);
            && after.cache == Cache(l.ok, None, map[], false, true, true, w.cache.bouncePending)
            && after.issued == w.issued
            && (l.ok ==> after.process == Process(!l.dies, map[], false, None, map[]))
            && (!l.ok ==> after.process == w.process)
  {
  }

  // ----- pages

  lemma ReadyCache(w: World, h: Headers, c: Chance)
    ensures var (up, ok) := Ensured(w, c.launch);
            var told := Applied(up.(process := Died(up.process, c.diesBefore)), h, c.staging).0;
            && (Up(w) ==> up == w && ok)
            && (!Up(w) ==> ok == c.launch.ok && up.cache.url == None && up.cache.supportsHeaders)
            && told.cache.url == up.cache.url && told.cache.headers == up.cache.headers && told.cache.skipSsl == up.cache.skipSsl
  {
  }

  /** A page is skipped exactly if the browser is up and URL, headers and SSL policy are all as remembered. */
  lemma UnchangedIff(w: World, uri: string, headers: Headers, skipSsl: bool, c: Chance)
    ensures PageShown(w, uri, headers, skipSsl, c).1 == Unchanged <==> Up(w) && Remembers(w, uri, headers, skipSsl)
  {
    hide Applied, LoadedVia;
    ReadyCache(w, headers, c);
  }

  // setRequestHeaders neither succeeds nor is denied by a process that never knew it.
  predicate StagingFails(p: Process, a: Attempt) {
    !(p.alive && a.answered && (a.carried || !p.accepted))
  }

  /** Headers are pushed while the slot is believed to exist; a denial, and nothing else, ends that belief. */
  lemma AppliedIff(w: World, h: Headers, a: Attempt)
    ensures Applied(w, h, a).1 <==> !w.cache.supportsHeaders || !StagingFails(w.process, a)
    ensures var denied := w.cache.supportsHeaders && w.process.alive && !a.carried && a.answered && !w.process.accepted;
            Applied(w, h, a).0.cache == if denied then w.cache.(supportsHeaders := false) else w.cache
    ensures !w.cache.supportsHeaders ==> Applied(w, h, a).0 == w
  {
  }

  /** A load is put off exactly if there is one to make and the headers could be neither staged nor denied. */
  lemma DeferredIff(w: World, uri: string, headers: Headers, skipSsl: bool, c: Chance)
    ensures var up := Ensured(w, c.launch).0;
            PageShown(w, uri, headers, skipSsl, c).1 == Deferred <==>
            && (Up(w) || c.launch.ok)
            && !(Up(w) && Remembers(w, uri, headers, skipSsl))
            && up.cache.supportsHeaders && StagingFails(Died(up.process, c.diesBefore), c.staging)
  {
    hide Applied, LoadedVia, StagingFails, Died;
    ReadyCache(w, headers, c);
    var up := Ensured(w, c.launch).0;
    AppliedIff(up.(process := Died(up.process, c.diesBefore)), headers, c.staging);
  }

  predicate Well(a: Attempt) { a.carried && a.answered && !a.dies }

  predicate AllWell(c: Chance) {
    c.launch.ok && !c.launch.dies && !c.diesBefore && Well(c.staging) && !c.diesAfter && Well(c.full.first)
  }

  lemma WellApplied(w: World, h: Headers, c: Chance)
    requires AllWell(c)
    ensures var (up, ok) := Ensured(w, c.launch);
            var (told, applied) := Applied(up.(process := Died(up.process, c.diesBefore)), h, c.staging);
            && ok && applied && Died(told.process, c.diesAfter) == told.process && told.process.alive
            && told.cache == up.cache && told.bare == up.bare && told.process.lastLoad == up.process.lastLoad
            && told.process.lastHeaders == up.process.lastHeaders
            && (up.cache.supportsHeaders ==> told.process.staged == h && told.process.accepted)
            && (!up.cache.supportsHeaders ==> told.process == up.process)
  {
  }

  lemma WellLoaded(w: World, load: Load, wanted: Headers, full: Sending, legacy: Sending)
    requires w.process.alive && Well(full.first)
    ensures var (after, ok, respawned) := LoadedVia(w, load, wanted, full, legacy);
            && ok && !respawned && after.cache == w.cache
            && after.process == w.process.(lastLoad := Some(load), lastHeaders := w.process.staged)
  {
  }

  /**
   When nothing goes wrong the page asked for is on screen, and a process that takes headers has these staged
   and, unless the page stood unchanged, was given them with the load.
   */
  lemma PageAppears(w: World, uri: string, headers: Headers, skipSsl: bool, c: Chance)
    requires Valid(w) && AllWell(c)
    ensures var (after, outcome) := PageShown(w, uri, headers, skipSsl, c);
            && (outcome == Loaded || outcome == Unchanged) && after.process.alive
            && after.process.lastLoad.Some? && after.process.lastLoad.value.url == uri
            && Remembers(after, uri, headers, skipSsl)
            && (after.cache.supportsHeaders ==> after.process.staged == headers)
            && (outcome == Loaded ==> after.process.lastLoad == Some(Page(uri)))
            && (outcome == Loaded && after.cache.supportsHeaders ==> after.process.lastHeaders == headers)
  {
    hide Ensured, Applied, LoadedVia, Sound;
    WellApplied(w, headers, c);
    ReadyCache(w, headers, c);
    var up := Ensured(w, c.launch).0;
    var told := Applied(up.(process := Died(up.process, c.diesBefore)), headers, c.staging).0;
    WellLoaded(told.(process := Died(told.process, c.diesAfter)), Page(uri), headers, c.full, c.legacy);
  }

  // The call is lost on a live process that does not know this signature, or fails in any way but by being gone.
  predicate Refused(a: Attempt) { !a.carried && a.failure != Gone && !a.dies }

  /** A process that knows only the older signature still shows the page, and is asked in that way from then on. */
  lemma SkewTolerated(w: World, load: Load, wanted: Headers, full: Sending, legacy: Sending)
    requires w.process.alive && w.cache.supportsSslArg && Refused(full.first) && Well(legacy.first)
    ensures var (after, ok, respawned) := LoadedVia(w, load, wanted, full, legacy);
            && ok && !respawned && after.process.lastLoad == Some(load) && after.process.alive
            && after.cache == w.cache.(supportsSslArg := false)
  {
  }

  /** With the latch off there is one call only: what refuses it ends the viewer. */
  lemma LegacyOnly(w: World, load: Load, wanted: Headers, full: Sending, legacy: Sending)
    requires w.process.alive && !w.cache.supportsSslArg
    ensures Refused(full.first) ==> !LoadedVia(w, load, wanted, full, legacy).1
    ensures Well(full.first) ==> LoadedVia(w, load, wanted, full, legacy).1
  {
  }

  /** A process gone mid-call is replaced once, and the load repeated on the new one, without headers. */
  lemma RespawnRecovers(w: World, load: Load, wanted: Headers, full: Sending, legacy: Sending)
    requires !full.first.carried && full.first.failure == Gone && full.launch == Launch(true, false) && Well(full.second)
    ensures var (after, ok, respawned) := LoadedVia(w, load, wanted, full, legacy);
            && ok && respawned
            && after.process == Process(true, map[], false, Some(load), map[])
  {
  }

  // The process is gone, or seems so to the caller.
  predicate Lost(a: Attempt) { !a.carried && a.failure == Gone }

  /** There is one replacement per call: a peer gone twice ends the viewer, without another way being tried. */
  lemma GoneTwice(w: World, load: Load, wanted: Headers, full: Sending, legacy: Sending)
    requires Lost(full.first) && full.launch.ok && Lost(full.second)
    ensures !LoadedVia(w, load, wanted, full, legacy).1
  {
  }

  /** If the replacement does not start, a process that only seemed gone is still asked in the older way. */
  lemma SurvivorAsked(w: World, load: Load, wanted: Headers, full: Sending, legacy: Sending)
    requires w.process.alive && w.cache.supportsSslArg
    requires Lost(full.first) && !full.first.dies && !full.dies && !full.launch.ok && Well(legacy.first)
    ensures LoadedVia(w, load, wanted, full, legacy).1
    ensures LoadedVia(w, load, wanted, full, legacy).0.process.lastLoad == Some(load)
  {
  }

  // ----- images

  /** An image is skipped exactly if the browser is up and URL and SSL policy are as remembered. */
  lemma ImageUnchangedIff(w: World, uri: string, skipSsl: bool, c: Chance)
    ensures ImageShown(w, uri, skipSsl, c).1 == Unchanged <==> Up(w) && w.cache.url == Some(uri) && w.cache.skipSsl == skipSsl
  {
    hide LoadedVia;
  }

  /** When nothing goes wrong the image asked for is on screen, whatever was before. */
  lemma ImageAppears(w: World, uri: string, skipSsl: bool, c: Chance)
    requires Valid(w) && AllWell(c)
    ensures var (after, outcome) := ImageShown(w, uri, skipSsl, c);
            && (outcome == Loaded || outcome == Unchanged) && after.process.alive
            && after.process.lastLoad.Some? && after.process.lastLoad.value.url == uri
            && (outcome == Loaded ==> after.process.lastLoad == Some(Image(uri)))
            && after.cache.url == Some(uri) && after.cache.skipSsl == skipSsl
  {
    hide LoadedVia, Sound;
    var up := Ensured(w, c.launch).0;
    WellLoaded(up.(process := Died(up.process, c.diesBefore)), Image(uri), up.process.staged, c.full, c.legacy);
  }

  // ----- bounces

  /** After a bounce nothing is skipped: the next page or image is loaded anew. */
  lemma BounceReloads(w: World, dies: bool, uri: string, headers: Headers, skipSsl: bool, c: Chance)
    requires w.cache.bouncePending
    ensures PageShown(Bounced(w, dies), uri, headers, skipSsl, c).1 != Unchanged
    ensures ImageShown(Bounced(w, dies), uri, skipSsl, c).1 != Unchanged
    ensures !Bounced(w, dies).cache.bouncePending
    ensures Up(w) && dies ==> !Bounced(w, dies).process.alive
  {
    hide PageShown, ImageShown;
    UnchangedIff(Bounced(w, dies), uri, headers, skipSsl, c);
    ImageUnchangedIff(Bounced(w, dies), uri, skipSsl, c);
  }
}
