/** The order of the flattened list, and the identity of its occurrences, for any database. */
module ExpansionOrder {
  import opened Collections
  import opened PlayWindow
  import opened PlaylistStore
  import opened Expansion

  // Depth-first order: the first place where two trails part decides.
  ghost predicate PartAt(a: seq<Key>, b: seq<Key>, k: nat) {
    k < |a| && k < |b| && a[..k] == b[..k] && KeyLess(a[k], b[k])
  }

  ghost predicate Before(a: seq<Key>, b: seq<Key>) {
    exists k :: PartAt(a, b, k)
  }

  // Root key, then (position, id) per level.
  ghost function TrailKeys(t: Trail): seq<Key>
    requires t.path != []
  {
    [PlaylistKey(t.path[0])] + Map(ItemKey, t.items)
  }

  ghost predicate ItemsPartAt(a: seq<Item>, b: seq<Item>, k: nat) {
    k < |a| && k < |b| && a[..k] == b[..k] && KeyLess(ItemKey(a[k]), ItemKey(b[k]))
  }

  ghost predicate ItemsBefore(a: seq<Item>, b: seq<Item>) {
    exists k :: ItemsPartAt(a, b, k)
  }

  ghost predicate ItemsInOrder(ts: seq<Trail>) {
    forall i, j :: 0 <= i < j < |ts| ==> ItemsBefore(ts[i].items, ts[j].items)
  }

  lemma ItemsOfStrict(db: Database, id: PlaylistId)
    requires Keyed(db)
    ensures StrictlySortedBy(ItemKey, ItemsOf(db, id))
  {
    SortByStrict(ItemKey, db.items);
    FilterStrict((i: Item) => i.owner == id, ItemKey, SortBy(ItemKey, db.items));
  }

  lemma RootsStrict(db: Database)
    requires Keyed(db)
    ensures StrictlySortedBy(PlaylistKey, Roots(db))
  {
    var children := ChildIds(db);
    FilterDistinctBy((p: Playlist) => p.id !in children, PlaylistKey, db.playlists);
    SortByStrict(PlaylistKey, Filter((p: Playlist) => p.id !in children, db.playlists));
  }

  // Two ordered runs of trails, all of the first before all of the second.
  lemma AppendInOrder(a: seq<Trail>, b: seq<Trail>)
    requires ItemsInOrder(a) && ItemsInOrder(b)
    requires forall x, y :: x in a && y in b ==> ItemsBefore(x.items, y.items)
    ensures ItemsInOrder(a + b)
  {
    var c := a + b;
    forall i, j | 0 <= i < j < |c|
      ensures ItemsBefore(c[i].items, c[j].items)
    {
      if i < |a| <= j {
        assert c[i] in a && c[j] in b;
      } else if j < |a| {
        assert c[i] == a[i] && c[j] == a[j];
      } else {
        assert c[i] == b[i - |a|] && c[j] == b[j - |a|];
      }
    }
  }

  lemma SiblingsPart(db: Database, items: seq<Item>, path: seq<Playlist>, chain: seq<Item>, seen: set<PlaylistId>, x: Trail, y: Trail)
    requires |path| == |chain| + 1 <= MAX_PLAYLIST_DEPTH
    requires items != [] && StrictlySortedBy(ItemKey, items)
    requires x in Visit(db, items[0], path, chain, seen)
    requires y in WalkItems(db, items[1..], path, chain, seen)
    ensures ItemsPartAt(x.items, y.items, |chain|)
  {
    InVisit(db, items[0], path, chain, seen, x);
    InWalkItems(db, items[1..], path, chain, seen, y);
    var i :| i in items[1..] && y in Visit(db, i, path, chain, seen);
    InVisit(db, i, path, chain, seen, y);
  }

  lemma {:induction false} WalkItemsInOrder(db: Database, items: seq<Item>, path: seq<Playlist>, chain: seq<Item>, seen: set<PlaylistId>)
    requires Keyed(db)
    requires |path| == |chain| + 1 <= MAX_PLAYLIST_DEPTH
    requires StrictlySortedBy(ItemKey, items)
    ensures ItemsInOrder(WalkItems(db, items, path, chain, seen))
    decreases MAX_PLAYLIST_DEPTH - |path|, 1, |items|
  {
    if items != [] {
      var first, rest := Visit(db, items[0], path, chain, seen), WalkItems(db, items[1..], path, chain, seen);
      if ResolveAsset(db, items[0]).None? && items[0].child.Some? && FindPlaylist(db.playlists, items[0].child.value).Some? {
        WalkInOrder(db, FindPlaylist(db.playlists, items[0].child.value).value, path, chain + [items[0]], seen);
      }
      WalkItemsInOrder(db, items[1..], path, chain, seen);
      forall x, y | x in first && y in rest
        ensures ItemsBefore(x.items, y.items)
      {
        SiblingsPart(db, items, path, chain, seen, x, y);
      }
      AppendInOrder(first, rest);
    }
  }

  lemma {:induction false} WalkInOrder(db: Database, p: Playlist, path: seq<Playlist>, chain: seq<Item>, seen: set<PlaylistId>)
    requires Keyed(db)
    requires |path| == |chain| <= MAX_PLAYLIST_DEPTH
    ensures ItemsInOrder(Walk(db, p, path, chain, seen))
    decreases MAX_PLAYLIST_DEPTH - |path|, 0, 0
  {
    if p.id !in seen && |path| < MAX_PLAYLIST_DEPTH {
      ItemsOfStrict(db, p.id);
      WalkItemsInOrder(db, ItemsOf(db, p.id), path + [p], chain, seen + {p.id});
    }
  }

  ghost predicate InOrder(ts: seq<Trail>) {
    && (forall t :: t in ts ==> t.path != [])
    && (forall i, j :: 0 <= i < j < |ts| ==> Before(TrailKeys(ts[i]), TrailKeys(ts[j])))
  }

  lemma ItemsPartKeysPart(a: Trail, b: Trail, k: nat)
    requires a.path != [] && b.path != [] && a.path[0] == b.path[0]
    requires ItemsPartAt(a.items, b.items, k)
    ensures Before(TrailKeys(a), TrailKeys(b))
  {
    assert TrailKeys(a)[..k + 1] == [PlaylistKey(a.path[0])] + Map(ItemKey, a.items[..k]);
    assert TrailKeys(b)[..k + 1] == [PlaylistKey(b.path[0])] + Map(ItemKey, b.items[..k]);
    assert PartAt(TrailKeys(a), TrailKeys(b), k + 1);
  }

  lemma RootWalkInOrder(db: Database, r: Playlist)
    requires Keyed(db)
    ensures InOrder(Walk(db, r, [], [], {}))
    ensures forall t :: t in Walk(db, r, [], [], {}) ==> t.path[0] == r
  {
    var ts := Walk(db, r, [], [], {});
    forall t | t in ts
      ensures t.path != [] && t.path[0] == r
    {
      InWalk(db, r, [], [], {}, t);
    }
    WalkInOrder(db, r, [], [], {});
    forall i, j | 0 <= i < j < |ts|
      ensures Before(TrailKeys(ts[i]), TrailKeys(ts[j]))
    {
      assert ts[i] in ts && ts[j] in ts;
      var k :| ItemsPartAt(ts[i].items, ts[j].items, k);
      ItemsPartKeysPart(ts[i], ts[j], k);
    }
  }

  lemma {:induction false} WalkRootsInOrder(db: Database, roots: seq<Playlist>)
    requires Keyed(db) && StrictlySortedBy(PlaylistKey, roots)
    ensures InOrder(WalkRoots(db, roots))
    ensures forall t :: t in WalkRoots(db, roots) ==> t.path[0] in roots
  {
    if roots != [] {
      var first, rest := Walk(db, roots[0], [], [], {}), WalkRoots(db, roots[1..]);
      RootWalkInOrder(db, roots[0]);
      WalkRootsInOrder(db, roots[1..]);
      RunsInOrder(first, rest, roots);
    }
  }

  lemma RunsInOrder(first: seq<Trail>, rest: seq<Trail>, roots: seq<Playlist>)
    requires roots != [] && StrictlySortedBy(PlaylistKey, roots)
    requires InOrder(first) && InOrder(rest)
    requires forall t :: t in first ==> t.path[0] == roots[0]
    requires forall t :: t in rest ==> t.path[0] in roots[1..]
    ensures InOrder(first + rest)
    ensures forall t :: t in first + rest ==> t.path[0] in roots
  {
    var all := first + rest;
    forall i, j | 0 <= i < j < |all|
      ensures Before(TrailKeys(all[i]), TrailKeys(all[j]))
    {
      if i < |first| <= j {
        var x, y := all[i], all[j];
        assert x in first && y in rest;
        assert TrailKeys(x)[..0] == TrailKeys(y)[..0];
        assert PartAt(TrailKeys(x), TrailKeys(y), 0);
      }
    }
  }

  /** Output order: root key, then (position, id) at every level, strictly increasing. */
  lemma TrailsInOrder(db: Database)
    requires Keyed(db)
    ensures InOrder(Trails(db))
  {
    RootsStrict(db);
    WalkRootsInOrder(db, Roots(db));
  }

  // ----- occurrence identity

  lemma BeforeIrreflexive(a: seq<Key>)
    ensures !Before(a, a)
  {
  }

  lemma TrailsDistinct(db: Database)
    requires Keyed(db)
    ensures Distinct(Trails(db))
  {
    TrailsInOrder(db);
    var ts := Trails(db);
    forall i, j | 0 <= i < j < |ts|
      ensures ts[i] != ts[j]
    {
      BeforeIrreflexive(TrailKeys(ts[i]));
    }
  }

  lemma {:induction false} ContinuesFacts(db: Database, t: Trail, n: nat, seen: set<PlaylistId>)
    requires |t.path| == |t.items| && n < |t.path|
    requires Continues(db, t, n, seen)
    ensures forall j :: n <= j < |t.path| ==> t.items[j] in db.items && t.items[j].owner == t.path[j].id
    ensures forall j :: n < j < |t.path| ==> t.path[j] in db.playlists
    ensures forall j :: n <= j < |t.path| ==> t.path[j].id !in seen
    ensures forall i, j :: n <= i < j < |t.path| ==> t.path[i].id != t.path[j].id
    ensures ResolveAsset(db, t.items[|t.items| - 1]) == Some(t.asset)
    decreases |t.path| - n
  {
    if n + 1 < |t.path| {
      ContinuesFacts(db, t, n + 1, seen + {t.path[n].id});
    }
  }

  lemma SameItemsSamePath(db: Database, a: Trail, b: Trail)
    requires Keyed(db) && IsTrail(db, a) && IsTrail(db, b)
    requires a.items == b.items
    ensures a == b
  {
    ContinuesFacts(db, a, 0, {});
    ContinuesFacts(db, b, 0, {});
    forall j | 0 <= j < |a.path|
      ensures a.path[j] == b.path[j]
    {
      assert a.path[j] in db.playlists && b.path[j] in db.playlists;
      assert a.path[j].id == b.path[j].id;
    }
  }

  lemma SameIdsSameItems(db: Database, a: seq<Item>, b: seq<Item>)
    requires Keyed(db)
    requires forall i :: i in a ==> i in db.items
    requires forall i :: i in b ==> i in db.items
    requires ItemIds(a) == ItemIds(b)
    ensures a == b
  {
    assert |a| == |ItemIds(a)| == |b|;
    forall j | 0 <= j < |a|
      ensures a[j] == b[j]
    {
      assert a[j] in a && b[j] in b;
      assert ItemIds(a)[j] == a[j].id && ItemIds(b)[j] == b[j].id;
    }
  }

  lemma SameIdSameTrail(db: Database, a: Trail, b: Trail)
    requires Keyed(db) && IsTrail(db, a) && IsTrail(db, b)
    requires Render(a).id == Render(b).id
    ensures a == b
  {
    JoinInjective(ItemIds(a.items), ItemIds(b.items));
    ContinuesFacts(db, a, 0, {});
    ContinuesFacts(db, b, 0, {});
    SameIdsSameItems(db, a.items, b.items);
    SameItemsSamePath(db, a, b);
  }

  /** For any database at all, occurrence ids are pairwise distinct and no path exceeds the cap. */
  lemma OccurrencesIdentified(db: Database)
    requires Keyed(db)
    ensures forall i, j :: 0 <= i < j < |Expand(db)| ==> Expand(db)[i].id != Expand(db)[j].id
    ensures forall o :: o in Expand(db) ==> 1 <= |o.path| <= 8
  {
    var ts := Trails(db);
    TrailsDistinct(db);
    forall i | 0 <= i < |ts|
      ensures IsTrail(db, ts[i])
    {
      assert ts[i] in ts;
      TrailsExact(db, ts[i]);
    }
    forall i, j | 0 <= i < j < |ts|
      ensures Render(ts[i]).id != Render(ts[j]).id
    {
      if Render(ts[i]).id == Render(ts[j]).id {
        SameIdSameTrail(db, ts[i], ts[j]);
      }
    }
  }
}
