/** Where the one-parent constraint holds, the walk is exact: one occurrence per asset item it can reach. */
module ExpansionExact {
  import opened Collections
  import opened PlayWindow
  import opened PlaylistStore
  import opened Nesting
  import opened Expansion
  import opened ExpansionOrder

  // A way from a root down to the last playlist of `path`, through the nesting items `links`.
  ghost predicate RootChain(db: Database, path: seq<Playlist>, links: seq<Item>) {
    && |path| == |links| + 1
    && IsRoot(db, path[0])
    && (forall p :: p in path ==> p in db.playlists)
    && forall j :: 0 <= j < |links| ==>
                     links[j] in db.items && links[j].owner == path[j].id && LinksTo(db, links[j], path[j + 1])
  }

  lemma RootChainPrefix(db: Database, path: seq<Playlist>, links: seq<Item>, k: nat)
    requires RootChain(db, path, links) && k < |path|
    ensures RootChain(db, path[..k + 1], links[..k])
  {
  }

  lemma LinkMakesChild(db: Database, i: Item, p: Playlist)
    requires i in db.items && LinksTo(db, i, p)
    ensures i.child == Some(p.id) && p.id in ChildIds(db)
  {
  }

  lemma SameLastLink(db: Database, pa: seq<Playlist>, la: seq<Item>, pb: seq<Playlist>, lb: seq<Item>)
    requires Constrained(db) && RootChain(db, pa, la) && RootChain(db, pb, lb)
    requires pa[|la|].id == pb[|lb|].id
    ensures pa[|la|] == pb[|lb|]
    ensures la == [] <==> lb == []
    ensures la != [] ==> la[|la| - 1] == lb[|lb| - 1] && pa[|la| - 1].id == pb[|lb| - 1].id
    ensures |pa| == |la| + 1 && |pb| == |lb| + 1
  {
    var m, n := |la|, |lb|;
    assert pa[m] in pa && pb[n] in pb;
    if m > 0 {
      LinkMakesChild(db, la[m - 1], pa[m]);
    }
    if n > 0 {
      LinkMakesChild(db, lb[n - 1], pb[n]);
    }
  }

  /** A playlist is entered in one way only: two chains to the same playlist are the same chain. */
  lemma {:induction false} ChainUnique(db: Database, pa: seq<Playlist>, la: seq<Item>, pb: seq<Playlist>, lb: seq<Item>)
    requires Constrained(db) && RootChain(db, pa, la) && RootChain(db, pb, lb)
    requires pa[|la|].id == pb[|lb|].id
    ensures pa == pb && la == lb
    decreases |la|
  {
    var m, n := |la|, |lb|;
    SameLastLink(db, pa, la, pb, lb);
    hide RootChain, Constrained;
    if m > 0 {
      RootChainPrefix(db, pa, la, m - 1);
      RootChainPrefix(db, pb, lb, n - 1);
      ChainUnique(db, pa[..m], la[..m - 1], pb[..n], lb[..n - 1]);
      LastRestored(pa, pb);
      LastRestored(la, lb);
    }
  }

  lemma LastRestored<T>(a: seq<T>, b: seq<T>)
    requires a != [] && b != []
    requires a[..|a| - 1] == b[..|b| - 1] && a[|a| - 1] == b[|b| - 1]
    ensures a == b
  {
    assert a == a[..|a| - 1] + [a[|a| - 1]];
    assert b == b[..|b| - 1] + [b[|b| - 1]];
  }

  /** The cycle check never fires: no chain from a root meets a playlist twice. */
  lemma ChainNeverRepeats(db: Database, path: seq<Playlist>, links: seq<Item>)
    requires Constrained(db) && RootChain(db, path, links)
    ensures forall i, j :: 0 <= i < j < |path| ==> path[i].id != path[j].id
  {
    forall i, j | 0 <= i < j < |path|
      ensures path[i].id != path[j].id
    {
      RootChainPrefix(db, path, links, i);
      RootChainPrefix(db, path, links, j);
      if path[i].id == path[j].id {
        ChainUnique(db, path[..i + 1], links[..i], path[..j + 1], links[..j]);
      }
    }
  }

  // ----- trails and chains

  lemma {:induction false} ContinuesLinks(db: Database, t: Trail, n: nat, seen: set<PlaylistId>)
    requires |t.path| == |t.items| && n < |t.path| && Continues(db, t, n, seen)
    ensures forall j :: n <= j < |t.path| - 1 ==> LinksTo(db, t.items[j], t.path[j + 1])
    decreases |t.path| - n
  {
    if n + 1 < |t.path| {
      ContinuesLinks(db, t, n + 1, seen + {t.path[n].id});
    }
  }

  lemma TrailIsChain(db: Database, t: Trail)
    requires IsTrail(db, t)
    ensures RootChain(db, t.path, t.items[..|t.items| - 1])
  {
    ContinuesFacts(db, t, 0, {});
    ContinuesLinks(db, t, 0, {});
  }

  lemma {:induction false} ChainContinues(db: Database, t: Trail, n: nat, seen: set<PlaylistId>)
    requires |t.path| == |t.items| && n < |t.path|
    requires RootChain(db, t.path, t.items[..|t.items| - 1])
    requires t.items[|t.items| - 1] in db.items && t.items[|t.items| - 1].owner == t.path[|t.items| - 1].id
    requires ResolveAsset(db, t.items[|t.items| - 1]) == Some(t.asset)
    requires forall i, j :: 0 <= i < j < |t.path| ==> t.path[i].id != t.path[j].id
    requires forall j :: n <= j < |t.path| ==> t.path[j].id !in seen
    ensures Continues(db, t, n, seen)
    decreases |t.path| - n
  {
    var links := t.items[..|t.items| - 1];
    if n + 1 < |t.path| {
      assert t.items[n] == links[n];
      ChainContinues(db, t, n + 1, seen + {t.path[n].id});
    }
  }

  // ----- chains and ancestors

  lemma {:induction false} ChainClimbs(db: Database, path: seq<Playlist>, links: seq<Item>)
    requires Constrained(db) && RootChain(db, path, links)
    ensures RootWithin(db.items, path[|links|].id, |links|)
    decreases |links|
  {
    var n := |links|;
    if n == 0 {
      assert path[0].id !in ChildIds(db);
    } else {
      LinkMakesChild(db, links[n - 1], path[n]);
      ParentItemIs(db.items, links[n - 1], path[n].id);
      RootChainPrefix(db, path, links, n - 1);
      ChainClimbs(db, path[..n], links[..n - 1]);
    }
  }

  lemma {:induction false} ChainTo(db: Database, p: Playlist, n: nat) returns (path: seq<Playlist>, links: seq<Item>)
    requires Constrained(db) && p in db.playlists && RootWithin(db.items, p.id, n)
    ensures RootChain(db, path, links) && |links| <= n && path[|links|] == p
    decreases n
  {
    var parent := ParentItem(db.items, p.id);
    if parent.None? {
      path, links := [p], [];
    } else {
      var i := parent.value;
      var q := FindPlaylist(db.playlists, i.owner).value;
      var above, down := ChainTo(db, q, n - 1);
      FoundIsUnique(db, p);
      ExtendChain(db, above, down, i, p);
      path, links := above + [p], down + [i];
    }
  }

  lemma ExtendChain(db: Database, path: seq<Playlist>, links: seq<Item>, i: Item, p: Playlist)
    requires RootChain(db, path, links) && p in db.playlists
    requires i in db.items && i.owner == path[|links|].id && LinksTo(db, i, p)
    ensures RootChain(db, path + [p], links + [i])
  {
  }

  /** An asset item reached within the depth cap has a trail; the trail is unique. */
  lemma AssetItemHasTrail(db: Database, i: Item) returns (t: Trail)
    requires Constrained(db) && i in db.items && i.asset.Some?
    requires RootWithin(db.items, i.owner, MAX_PLAYLIST_DEPTH - 1)
    ensures IsTrail(db, t) && t.items[|t.items| - 1] == i
  {
    var p := FindPlaylist(db.playlists, i.owner).value;
    var path, links := ChainTo(db, p, MAX_PLAYLIST_DEPTH - 1);
    t := Trail(path, links + [i], ResolveAsset(db, i).value);
    assert t.items[..|t.items| - 1] == links;
    ChainNeverRepeats(db, path, links);
    ChainContinues(db, t, 0, {});
  }

  lemma TrailUnique(db: Database, a: Trail, b: Trail)
    requires Constrained(db) && IsTrail(db, a) && IsTrail(db, b)
    requires a.items[|a.items| - 1] == b.items[|b.items| - 1]
    ensures a == b
  {
    TrailIsChain(db, a);
    TrailIsChain(db, b);
    ContinuesFacts(db, a, 0, {});
    ContinuesFacts(db, b, 0, {});
    var la, lb := a.items[..|a.items| - 1], b.items[..|b.items| - 1];
    ChainUnique(db, a.path, la, b.path, lb);
    LastRestored(a.items, b.items);
  }

  ghost predicate EndsWith(t: Trail, i: Item) {
    t.items != [] && t.items[|t.items| - 1] == i
  }

  // The k-th occurrence of the flattened list plays item i.
  ghost predicate PlaysAt(db: Database, i: Item, k: nat) {
    k < |Trails(db)| && EndsWith(Trails(db)[k], i)
  }

  lemma PlayingClimbs(db: Database, i: Item, k: nat)
    requires Constrained(db) && PlaysAt(db, i, k)
    ensures IsTrail(db, Trails(db)[k]) && RootWithin(db.items, i.owner, MAX_PLAYLIST_DEPTH - 1)
  {
    hide Trails, Continues, RootChain, RootWithin, Constrained;
    var t := Trails(db)[k];
    assert t in Trails(db);
    TrailsExact(db, t);
    TrailIsChain(db, t);
    ContinuesFacts(db, t, 0, {});
    ChainClimbs(db, t.path, t.items[..|t.items| - 1]);
    RootWithinMore(db.items, i.owner, |t.items| - 1, MAX_PLAYLIST_DEPTH - 1);
  }

  lemma PlaysSomewhere(db: Database, i: Item) returns (k: nat)
    requires Constrained(db) && i in db.items && i.asset.Some?
    requires RootWithin(db.items, i.owner, MAX_PLAYLIST_DEPTH - 1)
    ensures PlaysAt(db, i, k)
  {
    var t := AssetItemHasTrail(db, i);
    TrailsExact(db, t);
    k :| 0 <= k < |Trails(db)| && Trails(db)[k] == t;
  }

  lemma OneEnding(db: Database, ts: seq<Trail>, i: Item, j: nat, k: nat)
    requires Constrained(db) && Distinct(ts) && j < |ts| && k < |ts|
    requires IsTrail(db, ts[j]) && IsTrail(db, ts[k])
    requires EndsWith(ts[j], i) && EndsWith(ts[k], i)
    ensures j == k
  {
    TrailUnique(db, ts[j], ts[k]);
  }

  lemma PlaysOnce(db: Database, i: Item, j: nat, k: nat)
    requires Constrained(db) && PlaysAt(db, i, j) && PlaysAt(db, i, k)
    ensures j == k
  {
    PlayingClimbs(db, i, j);
    PlayingClimbs(db, i, k);
    TrailsDistinct(db);
    OneEnding(db, Trails(db), i, j, k);
  }

  /**
   Exactness. An asset item whose playlist has at most seven ancestors plays exactly once; every other
   asset item not at all.
   */
  lemma AssetItemPlaysOnce(db: Database, i: Item)
    requires Constrained(db) && i in db.items && i.asset.Some?
    ensures RootWithin(db.items, i.owner, 7) <==> exists k :: PlaysAt(db, i, k)
    ensures forall j, k :: PlaysAt(db, i, j) && PlaysAt(db, i, k) ==> j == k
  {
    if k :| PlaysAt(db, i, k) {
      PlayingClimbs(db, i, k);
    }
    if RootWithin(db.items, i.owner, MAX_PLAYLIST_DEPTH - 1) {
      var _ := PlaysSomewhere(db, i);
    }
    forall j, k | PlaysAt(db, i, j) && PlaysAt(db, i, k)
      ensures j == k
    {
      PlaysOnce(db, i, j, k);
    }
  }

  /** And nothing else is emitted. */
  lemma OccurrencePlaysAssetItem(db: Database, k: nat)
    requires k < |Trails(db)|
    ensures exists i :: i in db.items && i.asset.Some? && PlaysAt(db, i, k)
  {
    var t := Trails(db)[k];
    assert t in Trails(db);
    TrailsExact(db, t);
    ContinuesFacts(db, t, 0, {});
    assert PlaysAt(db, t.items[|t.items| - 1], k);
  }
}
