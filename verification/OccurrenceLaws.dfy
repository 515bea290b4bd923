/** What occurrences and slots carry, in terms of the stored rows: their path, their asset, when they play. */
module OccurrenceLaws {
  import opened Collections
  import opened PlayWindow
  import opened PlaylistStore
  import opened Nesting
  import opened Expansion
  import opened ExpansionOrder
  import opened ExpansionExact
  import opened Evaluation
  import opened Rotation

  /** Occurrence by occurrence, the flattened list is the list of trails: whole path, asset and chain of ids. */
  lemma ExpandIsTrails(db: Database)
    ensures |Expand(db)| == |Trails(db)|
    ensures forall k :: 0 <= k < |Trails(db)| ==>
                          var o, t := Expand(db)[k], Trails(db)[k];
                          o.path == t.path && o.asset == t.asset && Split(o.id) == ItemIds(t.items)
  {
    forall k | 0 <= k < |Trails(db)|
      ensures Split(Expand(db)[k].id) == ItemIds(Trails(db)[k].items)
    {
      SplitJoin(ItemIds(Trails(db)[k].items));
    }
  }

  // The rows behind an occurrence: from a root, item by item, to the item that holds the asset.
  ghost predicate Leads(db: Database, path: seq<Playlist>, items: seq<Item>, asset: Asset) {
    && 1 <= |path| == |items| <= 8
    && (forall i :: i in db.items ==> i.child != Some(path[0].id))
    && (forall j :: 0 <= j < |path| ==> path[j] in db.playlists && items[j] in db.items && items[j].owner == path[j].id)
    && (forall j :: 0 <= j < |path| - 1 ==> items[j].child == Some(path[j + 1].id) && PlaysNothing(db, items[j]))
    && (forall j, k :: 0 <= j < k < |path| ==> path[j].id != path[k].id)
    && var last := items[|items| - 1].asset;
       last.Some? && last.value in db.assets && asset == db.assets[last.value]
  }

  // No asset, or one that is gone.
  predicate PlaysNothing(db: Database, i: Item) {
    i.asset.None? || i.asset.value !in db.assets
  }

  lemma LinkedIff(db: Database, i: Item, p: Playlist)
    requires Keyed(db)
    ensures LinksTo(db, i, p) <==> PlaysNothing(db, i) && i.child == Some(p.id) && p in db.playlists
  {
    if p in db.playlists {
      FoundIsUnique(db, p);
    }
  }

  lemma {:induction false} LeadsContinues(db: Database, t: Trail, n: nat, seen: set<PlaylistId>)
    requires Keyed(db) && Leads(db, t.path, t.items, t.asset) && n < |t.path|
    requires forall j :: n <= j < |t.path| ==> t.path[j].id !in seen
    ensures Continues(db, t, n, seen)
    decreases |t.path| - n
  {
    if n + 1 < |t.path| {
      LinkedIff(db, t.items[n], t.path[n + 1]);
      LeadsContinues(db, t, n + 1, seen + {t.path[n].id});
    }
  }

  lemma RootIff(db: Database, p: Playlist)
    ensures IsRoot(db, p) <==> p in db.playlists && forall i :: i in db.items ==> i.child != Some(p.id)
  {
  }

  lemma LeadsIff(db: Database, t: Trail)
    requires Keyed(db)
    ensures IsTrail(db, t) <==> Leads(db, t.path, t.items, t.asset)
  {
    hide IsRoot;
    if t.path != [] {
      RootIff(db, t.path[0]);
    }
    if IsTrail(db, t) {
      TrailLeads(db, t);
    }
    if Leads(db, t.path, t.items, t.asset) {
      LeadsContinues(db, t, 0, {});
    }
  }

  lemma TrailLeads(db: Database, t: Trail)
    requires Keyed(db) && IsTrail(db, t)
    ensures Leads(db, t.path, t.items, t.asset)
  {
    hide IsRoot;
    RootIff(db, t.path[0]);
    ContinuesFacts(db, t, 0, {});
    ContinuesLinks(db, t, 0, {});
    forall j | 0 <= j < |t.path| - 1
      ensures t.items[j].child == Some(t.path[j + 1].id) && PlaysNothing(db, t.items[j])
    {
      LinkedIff(db, t.items[j], t.path[j + 1]);
    }
  }

  // An occurrence of these rows.
  predicate IsOf(o: Occurrence, path: seq<Playlist>, items: seq<Item>, asset: Asset) {
    o.path == path && o.asset == asset && Split(o.id) == ItemIds(items)
  }

  /** Every occurrence has its whole chain of playlists as path and its item's asset, and every such chain has one. */
  lemma OccurrencesAreChains(db: Database)
    requires Keyed(db)
    ensures forall o :: o in Expand(db) ==> exists items :: Leads(db, o.path, items, o.asset) && IsOf(o, o.path, items, o.asset)
    ensures forall path, items, asset :: Leads(db, path, items, asset) ==>
                                           exists o :: o in Expand(db) && IsOf(o, path, items, asset)
  {
    hide Split, Leads;
    ExpandIsTrails(db);
    forall o | o in Expand(db)
      ensures exists items :: Leads(db, o.path, items, o.asset) && IsOf(o, o.path, items, o.asset)
    {
      var k :| 0 <= k < |Expand(db)| && Expand(db)[k] == o;
      var t := Trails(db)[k];
      assert t in Trails(db);
      TrailsExact(db, t);
      LeadsIff(db, t);
      assert Leads(db, o.path, t.items, o.asset) && IsOf(o, o.path, t.items, o.asset);
    }
    forall path, items, asset | Leads(db, path, items, asset)
      ensures exists o :: o in Expand(db) && IsOf(o, path, items, asset)
    {
      var t := Trail(path, items, asset);
      LeadsIff(db, t);
      TrailsExact(db, t);
      var k :| 0 <= k < |Trails(db)| && Trails(db)[k] == t;
      assert Expand(db)[k] in Expand(db) && IsOf(Expand(db)[k], path, items, asset);
    }
  }

  // The first place where two trails part: their roots, or else the items of one playlist.
  ghost predicate GoesBefore(a: Trail, b: Trail, k: nat) {
    && a.path != [] && b.path != [] && k <= |a.items| && k <= |b.items|
    && if k == 0 then
         var p, q := a.path[0], b.path[0];
         p.position < q.position || (p.position == q.position && p.id < q.id)
       else
         && a.path[0].id == b.path[0].id
         && (forall j :: 0 <= j < k - 1 ==> a.items[j].id == b.items[j].id)
         && var i, j := a.items[k - 1], b.items[k - 1];
            i.position < j.position || (i.position == j.position && i.id < j.id)
  }

  /** The flattened list is in the order of the screen: roots, and items of each playlist, by (position, id). */
  lemma OutputOrder(db: Database, x: nat, y: nat)
    requires Keyed(db) && x < y < |Trails(db)|
    ensures exists k: nat :: GoesBefore(Trails(db)[x], Trails(db)[y], k)
  {
    TrailsInOrder(db);
    var a, b := Trails(db)[x], Trails(db)[y];
    assert a in Trails(db) && b in Trails(db);
    var k: nat :| PartAt(TrailKeys(a), TrailKeys(b), k);
    PartsBefore(a, b, k);
  }

  lemma PartsBefore(a: Trail, b: Trail, k: nat)
    requires a.path != [] && b.path != [] && PartAt(TrailKeys(a), TrailKeys(b), k)
    ensures GoesBefore(a, b, k)
  {
    var s, t := TrailKeys(a), TrailKeys(b);
    assert forall j :: 0 <= j < k ==> s[..k][j] == s[j] && t[..k][j] == t[j];
    forall j | 0 <= j < k - 1
      ensures a.items[j].id == b.items[j].id
    {
      assert s[j + 1] == ItemKey(a.items[j]) && t[j + 1] == ItemKey(b.items[j]);
    }
    if k > 0 {
      assert s[0] == PlaylistKey(a.path[0]) && t[0] == PlaylistKey(b.path[0]);
      assert s[k] == ItemKey(a.items[k - 1]) && t[k] == ItemKey(b.items[k - 1]);
    }
  }

  // ----- which of them play

  /** Enabled and open, asset and every playlist above it. */
  ghost predicate PlaysAtInstant(o: Occurrence, now: Instant) {
    o.asset.isEnabled && OpenAt(o.asset.window, now) && forall p :: p in o.path ==> p.isEnabled && OpenAt(p.window, now)
  }

  lemma PlaysIff(o: Occurrence, now: Instant)
    ensures PlaysAtInstant(o, now) <==> IsCandidate(o) && OccurrenceIsActive(o, now)
  {
    hide Matches, OpenAt;
    MatchesIffOpen(o.asset.window, now);
    forall p | p in o.path
      ensures Matches(p.window, now) <==> OpenAt(p.window, now)
    {
      MatchesIffOpen(p.window, now);
    }
  }

  lemma {:induction false} FilterTwice<T(!new)>(f: T -> bool, g: T -> bool, both: T -> bool, s: seq<T>)
    requires forall x :: both(x) <==> f(x) && g(x)
    ensures Filter(g, Filter(f, s)) == Filter(both, s)
  {
    if s != [] {
      FilterTwice(f, g, both, s[1..]);
      FilterAppend(g, if f(s[0]) then [s[0]] else [], Filter(f, s[1..]));
    }
  }

  ghost function Playing(now: Instant): Occurrence -> bool {
    (o: Occurrence) => IsCandidate(o) && OccurrenceIsActive(o, now)
  }

  /** The active list takes from the flattened one, in its order, exactly what is enabled and open all the way up. */
  lemma ActiveExact(db: Database, now: Instant) returns (at: seq<nat>)
    ensures TakenAt(ActiveAt(db, now), Expand(db), at)
    ensures forall i: nat :: i in at <==> i < |Expand(db)| && PlaysAtInstant(Expand(db)[i], now)
  {
    hide PlaysAtInstant, OccurrenceIsActive;
    FilterTwice(IsCandidate, (o: Occurrence) => OccurrenceIsActive(o, now), Playing(now), Expand(db));
    at := FilterTakes(Playing(now), Expand(db));
    forall i: nat | i < |Expand(db)|
      ensures PlaysAtInstant(Expand(db)[i], now) <==> Playing(now)(Expand(db)[i])
    {
      PlaysIff(Expand(db)[i], now);
    }
  }

  // An enabled asset on an enabled path that some instant would keep off the screen.
  ghost predicate MayChange(o: Occurrence) {
    o.asset.isEnabled && (forall p :: p in o.path ==> p.isEnabled) && exists t :: !PlaysAtInstant(o, t)
  }

  /** The deadline is a minute ahead if some occurrence can come or go by itself, and there is none otherwise. */
  lemma DeadlineExact(db: Database, now: Instant)
    ensures DeadlineAt(db, now) == if exists o :: o in Expand(db) && MayChange(o) then Some(now + 60_000_000) else None
  {
    hide PlaysAtInstant, OccurrenceIsActive, HasWindow;
    NoDeadlineIff(db, now);
    forall o | o in Expand(db)
      ensures MayChange(o) <==> o in Candidates(db) && PathEnabled(o) && exists t :: !OccurrenceIsActive(o, t)
    {
      forall t
        ensures PlaysAtInstant(o, t) <==> IsCandidate(o) && OccurrenceIsActive(o, t)
      {
        PlaysIff(o, t);
      }
    }
  }

  // ----- slots

  // The ids of the playlists on the path that do not repeat, root first.
  ghost predicate PlayOnceIds(ids: seq<PlaylistId>, path: seq<Playlist>) {
    exists at :: PlayOnceAt(ids, path, at)
  }

  predicate PlayOnceAt(ids: seq<PlaylistId>, path: seq<Playlist>, at: seq<nat>) {
    && Rising(at) && |at| == |ids|
    && (forall k :: 0 <= k < |at| ==> at[k] < |path| && ids[k] == path[at[k]].id)
    && (forall i: nat :: i < |path| ==> (i in at <==> !path[i].repeats))
  }

  /** A slot of an occurrence: its identity, its asset, and the play-once playlists it sits under. */
  ghost predicate SlotShows(slot: Slot, o: Occurrence) {
    slot.occurrenceId == o.id && slot.asset == o.asset && PlayOnceIds(slot.noRepeat, o.path)
  }

  lemma SlotMeaning(o: Occurrence)
    ensures SlotShows(SlotOf(o), o)
  {
    var at := FilterTakes((p: Playlist) => !p.repeats, o.path);
    assert PlayOnceAt(SlotOf(o).noRepeat, o.path, at);
  }

  lemma SlotsMeaning(db: Database, now: Instant)
    ensures |SlotsAt(db, now)| == |ActiveAt(db, now)|
    ensures forall k :: 0 <= k < |ActiveAt(db, now)| ==> SlotShows(SlotsAt(db, now)[k], ActiveAt(db, now)[k])
  {
    hide ActiveAt, SlotShows;
    forall k | 0 <= k < |ActiveAt(db, now)|
      ensures SlotShows(SlotsAt(db, now)[k], ActiveAt(db, now)[k])
    {
      SlotMeaning(ActiveAt(db, now)[k]);
    }
  }

  // The slots of these occurrences, in any order.
  ghost predicate SlotsOf(slots: seq<Slot>, os: seq<Occurrence>) {
    && |slots| == |os|
    && (forall slot :: slot in slots ==> exists o :: o in os && SlotShows(slot, o))
    && (forall o :: o in os ==> exists slot :: slot in slots && SlotShows(slot, o))
  }

  lemma PermutedSlotsOf(db: Database, now: Instant, slots: seq<Slot>)
    requires multiset(slots) == multiset(SlotsAt(db, now))
    ensures SlotsOf(slots, ActiveAt(db, now))
  {
    hide ActiveAt, SlotShows, SlotsAt;
    var os, plain := ActiveAt(db, now), SlotsAt(db, now);
    SlotsMeaning(db, now);
    SameElements(slots, plain);
    forall slot | slot in slots
      ensures exists o :: o in os && SlotShows(slot, o)
    {
      var k :| 0 <= k < |plain| && plain[k] == slot;
      assert os[k] in os;
    }
    forall o | o in os
      ensures exists slot :: slot in slots && SlotShows(slot, o)
    {
      var k :| 0 <= k < |os| && os[k] == o;
      assert plain[k] in plain;
    }
  }
}
