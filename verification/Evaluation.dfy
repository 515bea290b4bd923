/** Which occurrences play now, and when the answer may change by itself. */
module Evaluation {
  import opened Collections
  import opened PlayWindow
  import opened PlaylistStore
  import opened Expansion
  import opened ExpansionOrder
  import opened Expanders

  const WINDOWED_DEADLINE_CAP: int := 60_000_000

  predicate AssetIsActive(a: Asset, now: Instant) {
    a.isEnabled && Matches(a.window, now)
  }

  predicate Admits(p: Playlist, now: Instant) {
    p.isEnabled && Matches(p.window, now)
  }

  predicate OccurrenceIsActive(o: Occurrence, now: Instant) {
    AssetIsActive(o.asset, now) && forall p :: p in o.path ==> Admits(p, now)
  }

  predicate IsCandidate(o: Occurrence) { o.asset.isEnabled }

  predicate PathEnabled(o: Occurrence) {
    forall p :: p in o.path ==> p.isEnabled
  }

  predicate HasWindow(o: Occurrence) {
    HasWindowFilter(o.asset.window) || exists p :: p in o.path && HasWindowFilter(p.window)
  }

  function ComputeDeadline(occurrences: seq<Occurrence>, now: Instant): Option<Instant> {
    if exists o :: o in occurrences && HasWindow(o) && PathEnabled(o) then Some(now + WINDOWED_DEADLINE_CAP) else None
  }

  function Candidates(db: Database): seq<Occurrence> {
    Filter(IsCandidate, Expand(db))
  }

  function ActiveAt(db: Database, now: Instant): seq<Occurrence> {
    Filter((o: Occurrence) => OccurrenceIsActive(o, now), Candidates(db))
  }

  function DeadlineAt(db: Database, now: Instant): Option<Instant> {
    ComputeDeadline(Candidates(db), now)
  }

  /** evaluate_playlist: the filter and the deadline share one instant. */
  method EvaluatePlaylist(db: Database, now: Instant) returns (active: seq<Occurrence>, deadline: Option<Instant>)
    ensures active == ActiveAt(db, now) && deadline == DeadlineAt(db, now)
  {
    var expanded := ExpandOccurrences(db);
    var candidates := Filter(IsCandidate, expanded);
    active := Filter((o: Occurrence) => OccurrenceIsActive(o, now), candidates);
    deadline := ComputeDeadline(candidates, now);
  }

  lemma WindowlessAlways(w: Window, now: Instant)
    requires !HasWindowFilter(w)
    ensures Matches(w, now)
  {
    FilterIffSomethingExcluded(w);
  }

  lemma WindowedSometimesNot(o: Occurrence) returns (now: Instant)
    requires HasWindow(o)
    ensures !OccurrenceIsActive(o, now)
  {
    if HasWindowFilter(o.asset.window) {
      FilterIffSomethingExcluded(o.asset.window);
      now :| !Matches(o.asset.window, now);
    } else {
      var p :| p in o.path && HasWindowFilter(p.window);
      FilterIffSomethingExcluded(p.window);
      now :| !Matches(p.window, now);
      assert !Admits(p, now);
    }
  }

  /** No deadline exactly when every candidate on an enabled path is active at every instant. */
  lemma NoDeadlineIff(db: Database, now: Instant)
    ensures DeadlineAt(db, now).None? <==>
            forall o :: o in Candidates(db) && PathEnabled(o) ==> forall t :: OccurrenceIsActive(o, t)
  {
    forall o | o in Candidates(db) && PathEnabled(o)
      ensures !HasWindow(o) <==> forall t :: OccurrenceIsActive(o, t)
    {
      if HasWindow(o) {
        var t := WindowedSometimesNot(o);
      } else {
        forall t
          ensures OccurrenceIsActive(o, t)
        {
          WindowlessAlways(o.asset.window, t);
          forall p | p in o.path
            ensures Admits(p, t)
          {
            WindowlessAlways(p.window, t);
          }
        }
      }
    }
  }

  lemma {:induction false} FilterAgree<T(!new)>(f: T -> bool, g: T -> bool, s: seq<T>)
    requires forall x :: x in s ==> f(x) == g(x)
    ensures Filter(f, s) == Filter(g, s)
  {
    if s != [] {
      FilterAgree(f, g, s[1..]);
    }
  }

  /** Without a deadline the active list is the same at every instant, for an unchanged database. */
  lemma NoDeadlineNoChange(db: Database, now: Instant, s: Instant, t: Instant)
    requires DeadlineAt(db, now).None?
    ensures ActiveAt(db, s) == ActiveAt(db, t)
  {
    NoDeadlineIff(db, now);
    forall o | o in Candidates(db)
      ensures OccurrenceIsActive(o, s) == OccurrenceIsActive(o, t)
    {
      if !PathEnabled(o) {
        var p :| p in o.path && !p.isEnabled;
        assert !Admits(p, s) && !Admits(p, t);
      }
    }
    FilterAgree((o: Occurrence) => OccurrenceIsActive(o, s), (o: Occurrence) => OccurrenceIsActive(o, t), Candidates(db));
  }

  ghost predicate IdsDistinct(os: seq<Occurrence>) {
    forall i, j :: 0 <= i < j < |os| ==> os[i].id != os[j].id
  }

  /** The identity the viewer relies on survives the filters. */
  lemma ActiveIdsDistinct(db: Database, now: Instant)
    requires Keyed(db)
    ensures IdsDistinct(ActiveAt(db, now))
  {
    OccurrencesIdentified(db);
    var id := (o: Occurrence) => o.id;
    FilterDistinctBy(IsCandidate, id, Expand(db));
    FilterDistinctBy((o: Occurrence) => OccurrenceIsActive(o, now), id, Candidates(db));
  }
}
