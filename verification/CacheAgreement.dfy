/** The cached list against the evaluator, over every run and every history of the database. */
module CacheAgreement {
  import opened Collections
  import opened PlayWindow
  import opened PlaylistStore
  import opened Expansion
  import opened Evaluation
  import opened Rotation
  import opened PlayOnce

  // hist[v] is the database at version v; the mtime of version v is v.

  // The list and deadline are those of an evaluation of version v at instant t.
  ghost predicate EvaluationOf(slots: seq<Slot>, deadline: Option<Instant>, db: Database, t: Instant) {
    multiset(slots) == multiset(SlotsAt(db, t)) && deadline == DeadlineAt(db, t)
  }

  // The mtime was read before the rows, so it is at most the version the rows came from.
  ghost predicate ListingFrom(hist: seq<Database>, l: Listing) {
    && l.mtime <= l.version < |hist|
    && Keyed(hist[l.version])
    && EvaluationOf(l.slots, l.deadline, hist[l.version], l.at)
  }

  ghost predicate CallFrom(hist: seq<Database>, c: Call) {
    c.mtime <= c.listing.mtime && c.now <= c.listing.at && ListingFrom(hist, c.listing)
  }

  ghost predicate EventFrom(hist: seq<Database>, e: Event) {
    e.Advance? ==> CallFrom(hist, e.call)
  }

  lemma SlotsAtIds(db: Database, t: Instant)
    requires Keyed(db)
    ensures DistinctBy(SlotId, SlotsAt(db, t))
  {
    ActiveIdsDistinct(db, t);
  }

  lemma ShuffledIdsDistinct(db: Database, t: Instant, slots: seq<Slot>)
    requires Keyed(db) && multiset(slots) == multiset(SlotsAt(db, t))
    ensures DistinctBy(SlotId, slots)
  {
    SlotsAtIds(db, t);
    MapPermutation(SlotId, slots, SlotsAt(db, t));
    SameIdsDistinct(slots, SlotsAt(db, t));
  }

  lemma ListingIdsDistinct(hist: seq<Database>, l: Listing)
    requires ListingFrom(hist, l)
    ensures DistinctBy(SlotId, l.slots)
  {
    ShuffledIdsDistinct(hist[l.version], l.at, l.slots);
  }

  // The recorded mtime never runs ahead of the version the cached list came from.
  ghost predicate Cached(hist: seq<Database>, s: State, v: nat, t: Instant) {
    s.lastUpdate <= v < |hist| && EvaluationOf(s.assets, s.deadline, hist[v], t)
  }

  lemma UpdateCaches(hist: seq<Database>, s: State, l: Listing, shuffle: bool, allowReshuffle: bool)
    requires ListingFrom(hist, l)
    ensures Cached(hist, Update(s, l, shuffle, allowReshuffle), l.version, l.at)
  {
    ListingIdsDistinct(hist, l);
    UpdateAssets(s, l, shuffle, allowReshuffle);
  }

  /** What a refresh that saw mtime m at instant now leaves behind. */
  ghost predicate Agrees(hist: seq<Database>, s: State, m: int, now: Instant, v: nat, t: Instant) {
    && Cached(hist, s, v, t)
    && m <= v
    && (if s.deadline.None? then
          forall u :: multiset(s.assets) == multiset(SlotsAt(hist[v], u))
        else
          s.deadline.value == t + 60_000_000 && now < t + 60_000_000)
  }

  lemma WithoutDeadline(db: Database, slots: seq<Slot>, t: Instant)
    requires EvaluationOf(slots, None, db, t)
    ensures forall u :: multiset(slots) == multiset(SlotsAt(db, u))
  {
    forall u
      ensures multiset(slots) == multiset(SlotsAt(db, u))
    {
      NoDeadlineNoChange(db, t, t, u);
    }
  }

  lemma RefreshAgrees(hist: seq<Database>, s: State, c: Call, v: nat, t: Instant) returns (v': nat, t': Instant)
    requires Cached(hist, s, v, t) && CallFrom(hist, c)
    ensures Agrees(hist, Refresh(s, c), c.mtime, c.now, v', t')
  {
    var r := Refresh(s, c);
    var rebuilt := c.mtime > s.lastUpdate || (c.shuffle && s.counter >= RESHUFFLE_AFTER) || Expired(s.deadline, c.now);
    if rebuilt {
      v', t' := c.listing.version, c.listing.at;
      UpdateCaches(hist, s, c.listing, c.shuffle, false);
      UpdateCaches(hist, s, c.listing, c.shuffle, true);
    } else {
      v', t' := v, t;
    }
    assert Cached(hist, r, v', t');
    if r.deadline.None? {
      WithoutDeadline(hist[v'], r.assets, t');
    }
  }

  lemma RotateKeepsCache(s: State, shuffle: bool)
    requires s.assets != []
    ensures var t := Rotate(s, shuffle).0;
            t.assets == s.assets && t.deadline == s.deadline && t.lastUpdate == s.lastUpdate
  {
  }

  // Does this event refresh the list?
  ghost predicate Refreshes(s: State, e: Event) {
    e.Advance? && !(s.extraAsset.Some? && Displayable(e.call.requested))
  }

  lemma StepCaches(hist: seq<Database>, s: State, e: Event, v: nat, t: Instant) returns (v': nat, t': Instant)
    requires Cached(hist, s, v, t) && EventFrom(hist, e)
    ensures Cached(hist, Step(s, e).0, v', t')
    ensures Refreshes(s, e) ==> Agrees(hist, Step(s, e).0, e.call.mtime, e.call.now, v', t')
  {
    if Refreshes(s, e) {
      var cleared := s.(extraAsset := None);
      v', t' := RefreshAgrees(hist, cleared, e.call, v, t);
      var r := Refresh(cleared, e.call);
      if r.assets != [] {
        RotateKeepsCache(r, e.call.shuffle);
      }
    } else {
      v', t' := v, t;
    }
  }

  ghost predicate Caching(hist: seq<Database>, s: State) {
    exists v, t :: Cached(hist, s, v, t)
  }

  lemma StepKeepsCache(hist: seq<Database>, s: State, e: Event)
    requires Caching(hist, s) && EventFrom(hist, e)
    ensures Caching(hist, Step(s, e).0)
  {
    var v, t :| Cached(hist, s, v, t);
    var v', t' := StepCaches(hist, s, e, v, t);
  }

  lemma {:induction false} RunCaches(hist: seq<Database>, s: State, events: seq<Event>, k: nat)
    requires Caching(hist, s) && k <= |events|
    requires forall e :: e in events ==> EventFrom(hist, e)
    ensures Caching(hist, StateAt(s, events, k))
    decreases k
  {
    hide Step, Cached, CallFrom;
    if k > 0 {
      RunCaches(hist, s, events, k - 1);
      StepKeepsCache(hist, StateAt(s, events, k - 1), events[k - 1]);
    }
  }

  lemma InitialCaches(hist: seq<Database>, l: Listing, shuffle: bool)
    requires ListingFrom(hist, l)
    ensures Caching(hist, Initial(l, shuffle))
  {
    UpdateCaches(hist, State([], 0, None, None, None, 0, false, 0, map[], map[]), l, shuffle, false);
  }

  /**
   Cache agreement. In every run, after every refresh, the list is a permutation of an evaluation of
   a version at least as new as the refresh saw; the evaluation was made less than 60 s before, or it
   carries no deadline and is right at every instant.
   */
  lemma RunAgrees(hist: seq<Database>, l: Listing, shuffle: bool, events: seq<Event>, k: nat) returns (v: nat, t: Instant)
    requires ListingFrom(hist, l) && k < |events|
    requires forall e :: e in events ==> EventFrom(hist, e)
    requires Refreshes(StateAt(Initial(l, shuffle), events, k), events[k])
    ensures Agrees(hist, StateAt(Initial(l, shuffle), events, k + 1), events[k].call.mtime, events[k].call.now, v, t)
  {
    var s := Initial(l, shuffle);
    InitialCaches(hist, l, shuffle);
    RunCaches(hist, s, events, k);
    v, t := AgreesNext(hist, StateAt(s, events, k), events[k]);
  }

  lemma AgreesNext(hist: seq<Database>, s: State, e: Event) returns (v: nat, t: Instant)
    requires Caching(hist, s) && EventFrom(hist, e) && Refreshes(s, e)
    ensures Agrees(hist, Step(s, e).0, e.call.mtime, e.call.now, v, t)
  {
    var w, u :| Cached(hist, s, w, u);
    v, t := StepCaches(hist, s, e, w, u);
  }
}
