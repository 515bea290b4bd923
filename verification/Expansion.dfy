/** Flattening the playlist tree to occurrences. */
module Expansion {
  import opened Collections
  import opened PlayWindow
  import opened PlaylistStore

  datatype Occurrence = Occurrence(id: string, asset: Asset, path: seq<Playlist>)

  // A way down the tree: items[j] is an item of path[j] and leads to path[j + 1], the last one to the asset.
  datatype Trail = Trail(path: seq<Playlist>, items: seq<Item>, asset: Asset)

  function OwnedBy(ordered: seq<Item>, id: PlaylistId): seq<Item> {
    Filter((i: Item) => i.owner == id, ordered)
  }

  function ItemsOf(db: Database, id: PlaylistId): seq<Item> {
    OwnedBy(SortBy(ItemKey, db.items), id)
  }

  function ChildIds(db: Database): set<PlaylistId> {
    set i | i in db.items && i.child.Some? :: i.child.value
  }

  function Roots(db: Database): seq<Playlist> {
    var children := ChildIds(db);
    SortBy(PlaylistKey, Filter((p: Playlist) => p.id !in children, db.playlists))
  }

  // ----- the walk, as a function to trails

  function Walk(db: Database, p: Playlist, path: seq<Playlist>, chain: seq<Item>, seen: set<PlaylistId>): seq<Trail>
    requires |path| <= MAX_PLAYLIST_DEPTH
    decreases MAX_PLAYLIST_DEPTH - |path|, 0, 0
  {
    if p.id in seen || |path| >= MAX_PLAYLIST_DEPTH then [] else
      WalkItems(db, ItemsOf(db, p.id), path + [p], chain, seen + {p.id})
  }

  function WalkItems(db: Database, items: seq<Item>, path: seq<Playlist>, chain: seq<Item>, seen: set<PlaylistId>): seq<Trail>
    requires |path| <= MAX_PLAYLIST_DEPTH
    decreases MAX_PLAYLIST_DEPTH - |path|, 1, |items|
  {
    if items == [] then [] else
      Visit(db, items[0], path, chain, seen) + WalkItems(db, items[1..], path, chain, seen)
  }

  function Visit(db: Database, item: Item, path: seq<Playlist>, chain: seq<Item>, seen: set<PlaylistId>): seq<Trail>
    requires |path| <= MAX_PLAYLIST_DEPTH
    decreases MAX_PLAYLIST_DEPTH - |path|, 0, 1
  {
    if ResolveAsset(db, item).Some? then
      [Trail(path, chain + [item], ResolveAsset(db, item).value)]
    else if item.child.Some? then
      var child := FindPlaylist(db.playlists, item.child.value);
      if child.Some? then Walk(db, child.value, path, chain + [item], seen) else []
    else
      []
  }

  function WalkRoots(db: Database, roots: seq<Playlist>): seq<Trail> {
    if roots == [] then [] else Walk(db, roots[0], [], [], {}) + WalkRoots(db, roots[1..])
  }

  function Trails(db: Database): seq<Trail> {
    WalkRoots(db, Roots(db))
  }

  // ----- occurrence ids

  function Decimal(n: nat): (s: string)
    ensures s != [] && '/' !in s
    ensures forall c :: c in s ==> '0' <= c <= '9'
    ensures n > 0 ==> s[0] != '0'
  {
    var digit := ['0' + (n % 10) as char];
    if n < 10 then digit else Decimal(n / 10) + digit
  }

  function Join(ids: seq<nat>): string {
    if ids == [] then "" else
    if |ids| == 1 then Decimal(ids[0]) else Decimal(ids[0]) + "/" + Join(ids[1..])
  }

  function ItemIds(items: seq<Item>): seq<nat> {
    Map((i: Item) => i.id, items)
  }

  function Render(t: Trail): Occurrence {
    Occurrence(Join(ItemIds(t.items)), t.asset, t.path)
  }

  /** expand_occurrences, as a function of the stored rows. */
  function Expand(db: Database): seq<Occurrence> {
    Map(Render, Trails(db))
  }

  function DecimalValue(s: string): int {
    if s == [] then 0 else DecimalValue(s[..|s| - 1]) * 10 + (s[|s| - 1] as int - '0' as int)
  }

  lemma {:induction false} DecimalRoundTrip(n: nat)
    ensures DecimalValue(Decimal(n)) == n
  {
    var s := Decimal(n);
    if n >= 10 {
      DecimalRoundTrip(n / 10);
      assert s[..|s| - 1] == Decimal(n / 10);
    } else {
      assert s[..|s| - 1] == [];
    }
  }

  function FirstSlash(s: string): (k: nat)
    ensures k <= |s|
  {
    if s == [] || s[0] == '/' then 0 else 1 + FirstSlash(s[1..])
  }

  lemma {:induction false} FirstSlashAfter(a: string, x: string)
    requires '/' !in a
    ensures FirstSlash(a + "/" + x) == |a|
  {
    if a != [] {
      assert (a + "/" + x)[1..] == a[1..] + "/" + x;
      FirstSlashAfter(a[1..], x);
    }
  }

  lemma SplitAtSlash(a: string, x: string, b: string, y: string)
    requires '/' !in a && '/' !in b
    requires a + "/" + x == b + "/" + y
    ensures a == b && x == y
  {
    var s, t := a + "/" + x, b + "/" + y;
    FirstSlashAfter(a, x);
    FirstSlashAfter(b, y);
    assert a == s[..|a|] && b == t[..|b|];
    assert x == s[|a| + 1..] && y == t[|b| + 1..];
  }

  lemma JoinHasSlash(ids: seq<nat>)
    ensures |ids| >= 2 <==> '/' in Join(ids)
    ensures ids == [] <==> Join(ids) == ""
  {
    if |ids| >= 2 {
      var d := Decimal(ids[0]);
      assert Join(ids) == d + "/" + Join(ids[1..]);
      assert Join(ids)[|d|] == '/';
    }
  }

  /** The slash-joined decimals identify the chain of primary keys. */
  lemma {:induction false} JoinInjective(a: seq<nat>, b: seq<nat>)
    requires Join(a) == Join(b)
    ensures a == b
  {
    JoinHasSlash(a);
    JoinHasSlash(b);
    if |a| >= 2 {
      SplitAtSlash(Decimal(a[0]), Join(a[1..]), Decimal(b[0]), Join(b[1..]));
      JoinInjective(a[1..], b[1..]);
      assert a == [a[0]] + a[1..] && b == [b[0]] + b[1..];
    }
    if |a| >= 1 {
      DecimalRoundTrip(a[0]);
      DecimalRoundTrip(b[0]);
    }
  }

  function Split(s: string): seq<int> {
    if s == "" then [] else
      var k := FirstSlash(s);
      [DecimalValue(s[..k])] + if k < |s| then Split(s[k + 1..]) else []
  }

  lemma NoSlash(s: string)
    requires '/' !in s
    ensures FirstSlash(s) == |s|
  {
  }

  /** An occurrence id splits at its slashes into the chain of primary keys, in plain decimals. */
  lemma {:induction false} SplitJoin(ids: seq<nat>)
    ensures Split(Join(ids)) == ids
  {
    if |ids| == 1 {
      NoSlash(Decimal(ids[0]));
      DecimalRoundTrip(ids[0]);
      assert Decimal(ids[0])[..|Decimal(ids[0])|] == Decimal(ids[0]);
    } else if |ids| > 1 {
      var d, rest := Decimal(ids[0]), Join(ids[1..]);
      FirstSlashAfter(d, rest);
      DecimalRoundTrip(ids[0]);
      assert (d + "/" + rest)[..|d|] == d && (d + "/" + rest)[|d| + 1..] == rest;
      SplitJoin(ids[1..]);
      assert ids == [ids[0]] + ids[1..];
    }
  }

  // ----- what the walk yields

  predicate LinksTo(db: Database, item: Item, p: Playlist) {
    && ResolveAsset(db, item).None?
    && item.child.Some?
    && FindPlaylist(db.playlists, item.child.value) == Some(p)
  }

  ghost predicate Continues(db: Database, t: Trail, n: nat, seen: set<PlaylistId>)
    requires |t.path| == |t.items| && n < |t.path|
    decreases |t.path| - n
  {
    var item := t.items[n];
    && item in db.items
    && item.owner == t.path[n].id
    && t.path[n].id !in seen
    && if n + 1 == |t.path| then ResolveAsset(db, item) == Some(t.asset) else
         LinksTo(db, item, t.path[n + 1]) && Continues(db, t, n + 1, seen + {t.path[n].id})
  }

  ghost predicate Below(t: Trail, p: Playlist, path: seq<Playlist>, chain: seq<Item>) {
    && |path| == |chain| < |t.path| == |t.items| <= MAX_PLAYLIST_DEPTH
    && t.path[..|path|] == path
    && t.items[..|chain|] == chain
    && t.path[|path|] == p
  }

  lemma InItemsOf(db: Database, id: PlaylistId, i: Item)
    ensures i in ItemsOf(db, id) <==> i in db.items && i.owner == id
  {
    SameElements(SortBy(ItemKey, db.items), db.items);
  }

  lemma {:induction false} InWalkItems(db: Database, items: seq<Item>, path: seq<Playlist>, chain: seq<Item>, seen: set<PlaylistId>, t: Trail)
    requires |path| <= MAX_PLAYLIST_DEPTH
    ensures t in WalkItems(db, items, path, chain, seen) <==>
            exists i :: i in items && t in Visit(db, i, path, chain, seen)
  {
    if items != [] {
      InWalkItems(db, items[1..], path, chain, seen, t);
      if i :| i in items && t in Visit(db, i, path, chain, seen) {
        assert i == items[0] || i in items[1..];
      }
      if i :| i in items[1..] && t in Visit(db, i, path, chain, seen) {
        assert i in items;
      }
      assert items[0] in items;
    }
  }

  ghost predicate Visited(db: Database, item: Item, path: seq<Playlist>, chain: seq<Item>, seen: set<PlaylistId>, t: Trail)
    requires |path| == |chain| + 1
  {
    var n := |chain|;
    && |path| <= |t.path| == |t.items| <= MAX_PLAYLIST_DEPTH
    && t.path[..n + 1] == path
    && t.items[..n] == chain
    && t.items[n] == item
    && if n + 1 == |t.path| then ResolveAsset(db, item) == Some(t.asset) else
         LinksTo(db, item, t.path[n + 1]) && Continues(db, t, n + 1, seen)
  }

  lemma VisitedChild(db: Database, item: Item, child: Playlist, path: seq<Playlist>, chain: seq<Item>, seen: set<PlaylistId>, t: Trail)
    requires |path| == |chain| + 1 && LinksTo(db, item, child)
    ensures Visited(db, item, path, chain, seen, t) <==>
            Below(t, child, path, chain + [item]) && Continues(db, t, |path|, seen)
  {
    var n := |chain|;
    if |t.path| == |t.items| > n + 1 {
      assert t.items[..n + 1] == t.items[..n] + [t.items[n]];
      assert (chain + [item])[..n] == chain && (chain + [item])[n] == item;
    }
  }

  lemma {:induction false} InVisit(db: Database, item: Item, path: seq<Playlist>, chain: seq<Item>, seen: set<PlaylistId>, t: Trail)
    requires |path| == |chain| + 1 <= MAX_PLAYLIST_DEPTH
    ensures t in Visit(db, item, path, chain, seen) <==> Visited(db, item, path, chain, seen, t)
    decreases MAX_PLAYLIST_DEPTH - |path|, 1
  {
    if ResolveAsset(db, item).Some? {
      if Visited(db, item, path, chain, seen, t) {
        assert t.path == path && t.items == chain + [item];
      }
    } else if item.child.Some? && FindPlaylist(db.playlists, item.child.value).Some? {
      var child := FindPlaylist(db.playlists, item.child.value).value;
      VisitedChild(db, item, child, path, chain, seen, t);
      InWalk(db, child, path, chain + [item], seen, t);
    }
  }

  /** Soundness and completeness of the walk below any node, for any database. */
  lemma {:induction false} InWalk(db: Database, p: Playlist, path: seq<Playlist>, chain: seq<Item>, seen: set<PlaylistId>, t: Trail)
    requires |path| == |chain| <= MAX_PLAYLIST_DEPTH
    ensures t in Walk(db, p, path, chain, seen) <==> Below(t, p, path, chain) && Continues(db, t, |path|, seen)
    decreases MAX_PLAYLIST_DEPTH - |path|, 0
  {
    var n := |path|;
    if p.id !in seen && n < MAX_PLAYLIST_DEPTH {
      var items := ItemsOf(db, p.id);
      InWalkItems(db, items, path + [p], chain, seen + {p.id}, t);
      forall i | i in items
        ensures t in Visit(db, i, path + [p], chain, seen + {p.id}) <==> Visited(db, i, path + [p], chain, seen + {p.id}, t)
      {
        InVisit(db, i, path + [p], chain, seen + {p.id}, t);
      }
      WalkStep(db, p, path, chain, seen, t);
    }
  }

  lemma WalkStep(db: Database, p: Playlist, path: seq<Playlist>, chain: seq<Item>, seen: set<PlaylistId>, t: Trail)
    requires |path| == |chain| < MAX_PLAYLIST_DEPTH && p.id !in seen
    ensures Below(t, p, path, chain) && Continues(db, t, |path|, seen) <==>
            exists i :: i in ItemsOf(db, p.id) && Visited(db, i, path + [p], chain, seen + {p.id}, t)
  {
    var n := |path|;
    if |t.path| == |t.items| > n {
      assert t.path[..n + 1] == t.path[..n] + [t.path[n]];
      assert (path + [p])[..n] == path && (path + [p])[n] == p;
      assert t.path[..n + 1][..n] == t.path[..n] && t.path[..n + 1][n] == t.path[n];
      InItemsOf(db, p.id, t.items[n]);
      if i :| i in ItemsOf(db, p.id) && Visited(db, i, path + [p], chain, seen + {p.id}, t) {
        InItemsOf(db, p.id, i);
      }
    }
  }

  lemma {:induction false} InWalkRoots(db: Database, roots: seq<Playlist>, t: Trail)
    ensures t in WalkRoots(db, roots) <==> exists r :: r in roots && t in Walk(db, r, [], [], {})
  {
    if roots != [] {
      InWalkRoots(db, roots[1..], t);
      if r :| r in roots && t in Walk(db, r, [], [], {}) {
        assert r == roots[0] || r in roots[1..];
      }
      if r :| r in roots[1..] && t in Walk(db, r, [], [], {}) {
        assert r in roots;
      }
      assert roots[0] in roots;
    }
  }

  ghost predicate IsRoot(db: Database, p: Playlist) {
    p in db.playlists && p.id !in ChildIds(db)
  }

  lemma InRoots(db: Database, p: Playlist)
    ensures p in Roots(db) <==> IsRoot(db, p)
  {
    var children := ChildIds(db);
    SameElements(Roots(db), Filter((q: Playlist) => q.id !in children, db.playlists));
  }

  /** A trail from a root to an asset item: linked, within the depth cap, without a repeated playlist. */
  ghost predicate IsTrail(db: Database, t: Trail) {
    && 1 <= |t.path| == |t.items| <= MAX_PLAYLIST_DEPTH
    && IsRoot(db, t.path[0])
    && Continues(db, t, 0, {})
  }

  /** For any database, cyclic or multi-parent included, the walk yields the trails and nothing else. */
  lemma TrailsExact(db: Database, t: Trail)
    ensures t in Trails(db) <==> IsTrail(db, t)
  {
    InWalkRoots(db, Roots(db), t);
    if t in Trails(db) {
      var r :| r in Roots(db) && t in Walk(db, r, [], [], {});
      InWalk(db, r, [], [], {}, t);
      InRoots(db, r);
    }
    if IsTrail(db, t) {
      InRoots(db, t.path[0]);
      InWalk(db, t.path[0], [], [], {}, t);
    }
  }
}
