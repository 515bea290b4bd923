/** The flattening in the form the evaluator runs it: grouped items, and a walk that appends as it goes. */
module Expanders {
  import opened Collections
  import opened PlayWindow
  import opened PlaylistStore
  import opened Expansion

  lemma OwnedByAppend(ordered: seq<Item>, i: Item, id: PlaylistId)
    ensures OwnedBy(ordered + [i], id) == OwnedBy(ordered, id) + if i.owner == id then [i] else []
  {
    FilterAppend((j: Item) => j.owner == id, ordered, [i]);
  }

  function RenderedItems(db: Database, items: seq<Item>, path: seq<Playlist>, chain: seq<Item>, seen: set<PlaylistId>): seq<Occurrence>
    requires |path| <= MAX_PLAYLIST_DEPTH
  {
    Map(Render, WalkItems(db, items, path, chain, seen))
  }

  function RenderedRoots(db: Database, roots: seq<Playlist>): seq<Occurrence> {
    Map(Render, WalkRoots(db, roots))
  }

  lemma Shift<T>(before: seq<T>, now: seq<T>, later: seq<T>)
    ensures before + (now + later) == before + now + later
  {
  }

  // What one item, and one root, contribute to what is still to come.
  lemma ItemContribution(db: Database, items: seq<Item>, k: nat, path: seq<Playlist>, chain: seq<Item>, seen: set<PlaylistId>)
    requires |path| <= MAX_PLAYLIST_DEPTH && k < |items|
    ensures RenderedItems(db, items[k..], path, chain, seen) ==
            Map(Render, Visit(db, items[k], path, chain, seen)) + RenderedItems(db, items[k + 1..], path, chain, seen)
  {
    assert items[k..][1..] == items[k + 1..];
  }

  lemma RootContribution(db: Database, roots: seq<Playlist>, k: nat)
    requires k < |roots|
    ensures RenderedRoots(db, roots[k..]) ==
            Map(Render, Walk(db, roots[k], [], [], {})) + RenderedRoots(db, roots[k + 1..])
  {
    assert roots[k..][1..] == roots[k + 1..];
  }

  /** items_by_playlist: one pass over the ordered items. */
  method GroupByPlaylist(ordered: seq<Item>) returns (groups: map<PlaylistId, seq<Item>>)
    ensures forall id :: Lookup(groups, id, []) == OwnedBy(ordered, id)
  {
    groups := map[];
    for k := 0 to |ordered|
      invariant forall id :: Lookup(groups, id, []) == OwnedBy(ordered[..k], id)
    {
      var item := ordered[k];
      ghost var before := groups;
      groups := groups[item.owner := Lookup(groups, item.owner, []) + [item]];
      assert ordered[..k + 1] == ordered[..k] + [item];
      forall id
        ensures Lookup(groups, id, []) == OwnedBy(ordered[..k + 1], id)
      {
        assert Lookup(before, id, []) == OwnedBy(ordered[..k], id);
        OwnedByAppend(ordered[..k], item, id);
      }
    }
    assert ordered[..|ordered|] == ordered;
  }

  class Expander {
    const db: Database
    const itemsByPlaylist: map<PlaylistId, seq<Item>>
    var occurrences: seq<Occurrence>

    ghost predicate Grouped() {
      forall id :: Lookup(itemsByPlaylist, id, []) == ItemsOf(db, id)
    }

    constructor (db: Database, groups: map<PlaylistId, seq<Item>>)
      requires forall id :: Lookup(groups, id, []) == ItemsOf(db, id)
      ensures this.db == db && Grouped() && occurrences == []
    {
      this.db, itemsByPlaylist, occurrences := db, groups, [];
    }

    method WalkFrom(p: Playlist, path: seq<Playlist>, itemPath: seq<nat>, seen: set<PlaylistId>, ghost chain: seq<Item>)
      requires Grouped() && |path| <= MAX_PLAYLIST_DEPTH && itemPath == ItemIds(chain)
      modifies this
      ensures occurrences == old(occurrences) + Map(Render, Walk(db, p, path, chain, seen))
      decreases MAX_PLAYLIST_DEPTH - |path|, 0
    {
      if p.id in seen {
        return;
      }
      if |path| >= MAX_PLAYLIST_DEPTH {
        return;
      }
      var nextPath, nextSeen := path + [p], seen + {p.id};
      var items := Lookup(itemsByPlaylist, p.id, []);
      for k := 0 to |items|
        invariant occurrences + RenderedItems(db, items[k..], nextPath, chain, nextSeen) ==
                  old(occurrences) + RenderedItems(db, items, nextPath, chain, nextSeen)
      {
        ghost var before, now := occurrences, Map(Render, Visit(db, items[k], nextPath, chain, nextSeen));
        VisitItem(items[k], nextPath, itemPath, nextSeen, chain);
        ItemContribution(db, items, k, nextPath, chain, nextSeen);
        Shift(before, now, RenderedItems(db, items[k + 1..], nextPath, chain, nextSeen));
      }
    }

    // The body of the item loop.
    method VisitItem(item: Item, path: seq<Playlist>, itemPath: seq<nat>, seen: set<PlaylistId>, ghost chain: seq<Item>)
      requires Grouped() && |path| <= MAX_PLAYLIST_DEPTH && itemPath == ItemIds(chain)
      modifies this
      ensures occurrences == old(occurrences) + Map(Render, Visit(db, item, path, chain, seen))
      decreases MAX_PLAYLIST_DEPTH - |path|, 1
    {
      assert ItemIds(chain + [item]) == itemPath + [item.id];
      var asset := ResolveAsset(db, item);
      if asset.Some? {
        occurrences := occurrences + [Occurrence(Join(itemPath + [item.id]), asset.value, path)];
      } else if item.child.Some? {
        var child := FindPlaylist(db.playlists, item.child.value);
        if child.Some? {
          WalkFrom(child.value, path, itemPath + [item.id], seen, chain + [item]);
        }
      }
    }
  }

  /** expand_occurrences. */
  method ExpandOccurrences(db: Database) returns (occurrences: seq<Occurrence>)
    ensures occurrences == Expand(db)
  {
    var groups := GroupByPlaylist(SortBy(ItemKey, db.items));
    var walker := new Expander(db, groups);
    var roots := Roots(db);
    for k := 0 to |roots|
      invariant walker.occurrences + RenderedRoots(db, roots[k..]) == RenderedRoots(db, roots)
    {
      ghost var before, now := walker.occurrences, Map(Render, Walk(db, roots[k], [], [], {}));
      walker.WalkFrom(roots[k], [], [], {}, []);
      RootContribution(db, roots, k);
      Shift(before, now, RenderedRoots(db, roots[k + 1..]));
    }
    return walker.occurrences;
  }
}
