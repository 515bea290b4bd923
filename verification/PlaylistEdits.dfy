/** The playlist edits of the views, and the tree they keep over every run. */
module PlaylistEdits {
  import opened Collections
  import opened PlayWindow
  import opened PlaylistStore
  import opened Nesting

  function DefaultOf(playlists: seq<Playlist>): (r: Option<Playlist>)
    ensures r.Some? ==> r.value in playlists && r.value.isDefault
    ensures r.None? ==> forall p :: p in playlists ==> !p.isDefault
  {
    if playlists == [] then None
    else if playlists[0].isDefault then Some(playlists[0])
    else DefaultOf(playlists[1..])
  }

  function FreshId(items: seq<Item>): (id: nat)
    ensures forall i :: i in items ==> i.id < id
  {
    if items == [] then 1 else
      var rest := FreshId(items[1..]);
      if items[0].id < rest then rest else items[0].id + 1
  }

  /** One past the last position among the items of `owner`, 0 if it has none. */
  function EndPosition(items: seq<Item>, owner: PlaylistId): Option<int> {
    if items == [] then None else
      var rest := EndPosition(items[1..], owner);
      if items[0].owner != owner then rest
      else if rest.None? || rest.value <= items[0].position then Some(items[0].position + 1)
      else rest
  }

  function ChildRow(db: Database, owner: PlaylistId, child: PlaylistId): Item {
    var end := EndPosition(db.items, owner);
    Item(FreshId(db.items), owner, None, Some(child), if end.Some? then end.value else 0)
  }

  function AddChild(db: Database, owner: PlaylistId, child: PlaylistId): Database {
    db.(items := db.items + [ChildRow(db, owner, child)])
  }

  function AppendToDefault(db: Database, id: PlaylistId): Database {
    var p, d := FindPlaylist(db.playlists, id), DefaultOf(db.playlists);
    if p.None? || d.None? || p.value.isDefault || ParentItem(db.items, id).Some? then db else AddChild(db, d.value.id, id)
  }

  function AppendAll(db: Database, ids: seq<PlaylistId>): Database
    decreases |ids|
  {
    if ids == [] then db else AppendAll(AppendToDefault(db, ids[0]), ids[1..])
  }

  datatype Edit =
    | Create(playlist: Playlist)
    | Nest(parent: PlaylistId, child: PlaylistId)
    | RemoveItem(owner: PlaylistId, item: nat)
    | Delete(id: PlaylistId)

  function DropItems(db: Database, keep: Item -> bool): Database {
    db.(items := Filter(keep, db.items))
  }

  predicate OwnedByDefault(db: Database, i: Item) {
    var owner := FindPlaylist(db.playlists, i.owner);
    owner.Some? && owner.value.isDefault
  }

  /** Nesting moves a top-level row; it never gives a playlist a second parent. */
  function ApplyNest(db: Database, parent: PlaylistId, child: PlaylistId): Database {
    var p, c := FindPlaylist(db.playlists, parent), FindPlaylist(db.playlists, child);
    if p.None? || c.None? || c.value.isDefault then db else
      var existing := ParentItem(db.items, child);
      if existing.Some? && !OwnedByDefault(db, existing.value) then db
      else if GateRefuses(db.items, child, parent) then db
      else AddChild(DropItems(db, (i: Item) => Some(i) != existing), parent, child)
  }

  function FindItem(items: seq<Item>, owner: PlaylistId, id: nat): (r: Option<Item>)
    ensures r.Some? ==> r.value in items && r.value.owner == owner
  {
    if items == [] then None
    else if items[0].id == id && items[0].owner == owner then Some(items[0])
    else FindItem(items[1..], owner, id)
  }

  function ApplyRemove(db: Database, owner: PlaylistId, item: nat): Database {
    var found := FindItem(db.items, owner, item);
    if found.None? then db else
      var rest := DropItems(db, (i: Item) => i != found.value);
      if found.value.child.None? then rest else AppendToDefault(rest, found.value.child.value)
  }

  function ChildrenOf(items: seq<Item>, owner: PlaylistId): (r: seq<PlaylistId>)
    ensures forall x :: x in r <==> exists i :: i in items && i.owner == owner && i.child == Some(x)
  {
    if items == [] then [] else
      assert items == [items[0]] + items[1..];
      (if items[0].owner == owner && items[0].child.Some? then [items[0].child.value] else []) + ChildrenOf(items[1..], owner)
  }

  // The row and, by cascade, every item that mentions it; its children move to Default.
  function ApplyDelete(db: Database, id: PlaylistId): Database {
    var p := FindPlaylist(db.playlists, id);
    if p.None? || p.value.isDefault then db else
      var cleared := DropItems(db, (i: Item) => i.owner != id && i.child != Some(id));
      AppendAll(cleared.(playlists := Filter((q: Playlist) => q.id != id, db.playlists)), ChildrenOf(SortBy(ItemKey, db.items), id))
  }

  function ApplyCreate(db: Database, p: Playlist): Database {
    if p.isDefault || FindPlaylist(db.playlists, p.id).Some? then db else
      AppendToDefault(db.(playlists := db.playlists + [p]), p.id)
  }

  function Apply(db: Database, e: Edit): Database {
    match e
    case Create(p) => ApplyCreate(db, p)
    case Nest(parent, child) => ApplyNest(db, parent, child)
    case RemoveItem(owner, item) => ApplyRemove(db, owner, item)
    case Delete(id) => ApplyDelete(db, id)
  }

  function ApplyRun(db: Database, edits: seq<Edit>): Database
    decreases |edits|
  {
    if edits == [] then db else ApplyRun(Apply(db, edits[0]), edits[1..])
  }

  // ----- the invariant

  ghost predicate HasDefault(db: Database, d: Playlist) {
    && d in db.playlists && d.isDefault
    && (forall p :: p in db.playlists && p.isDefault ==> p == d)
    && ParentItem(db.items, d.id).None?
  }

  // Everything but "each playlist is placed": what holds between the steps of one edit.
  ghost predicate Sound(db: Database, d: Playlist) {
    Constrained(db) && Forest(db.items) && HasDefault(db, d)
  }

  // Playlists that would still play but be invisible in the schedule.
  ghost function Unplaced(db: Database, d: Playlist): set<PlaylistId> {
    set p | p in db.playlists && p != d && ParentItem(db.items, p.id).None? :: p.id
  }

  /** The stored playlists form one tree with the Default playlist at its root. */
  ghost predicate OneTree(db: Database, d: Playlist) {
    Sound(db, d) && Unplaced(db, d) == {}
  }

  lemma ConstrainedOneParent(db: Database)
    requires Constrained(db)
    ensures OneParent(db.items)
  {
  }

  lemma DropConstrained(db: Database, keep: Item -> bool)
    requires Constrained(db)
    ensures Constrained(DropItems(db, keep))
  {
    FilterDistinctBy(keep, (i: Item) => i.id, db.items);
  }

  lemma DropSound(db: Database, d: Playlist, keep: Item -> bool)
    requires Sound(db, d)
    ensures Sound(DropItems(db, keep), d)
  {
    DropConstrained(db, keep);
    ForestAfterFilter(db.items, keep);
    ParentAfterFilter(db.items, keep, d.id);
  }

  lemma AddChildConstrained(db: Database, owner: PlaylistId, child: PlaylistId)
    requires Constrained(db)
    requires FindPlaylist(db.playlists, owner).Some? && FindPlaylist(db.playlists, child).Some?
    requires ParentItem(db.items, child).None?
    ensures Constrained(AddChild(db, owner, child))
  {
    hide FindPlaylist, ParentItem, Keyed, FreshId, EndPosition;
    AddChildKeyed(db, owner, child);
    var row := ChildRow(db, owner, child);
    assert forall i :: i in db.items + [row] <==> i in db.items || i == row;
    assert forall i :: i in db.items ==> i.child != row.child;
  }

  lemma AddChildKeyed(db: Database, owner: PlaylistId, child: PlaylistId)
    requires Keyed(db)
    ensures Keyed(AddChild(db, owner, child))
  {
    assert forall k :: 0 <= k < |db.items| ==> db.items[k] in db.items;
  }

  lemma AddChildParents(db: Database, owner: PlaylistId, child: PlaylistId)
    requires ParentItem(db.items, child).None?
    ensures forall id :: ParentItem(AddChild(db, owner, child).items, id) ==
                         if id == child then Some(ChildRow(db, owner, child)) else ParentItem(db.items, id)
  {
    forall id
      ensures ParentItem(AddChild(db, owner, child).items, id) ==
              if id == child then Some(ChildRow(db, owner, child)) else ParentItem(db.items, id)
    {
      ParentAfterAppend(db.items, ChildRow(db, owner, child), id);
    }
  }

  lemma AddChildSound(db: Database, d: Playlist, owner: PlaylistId, child: PlaylistId, n: nat)
    requires Sound(db, d) && child != d.id
    requires FindPlaylist(db.playlists, owner).Some? && FindPlaylist(db.playlists, child).Some?
    requires ParentItem(db.items, child).None?
    requires RootWithin(db.items, owner, n) && child !in Lineage(db.items, owner, n)
    ensures Sound(AddChild(db, owner, child), d)
  {
    AddChildConstrained(db, owner, child);
    ForestAfterAppend(db.items, ChildRow(db, owner, child), child, n);
    AddChildParents(db, owner, child);
  }

  lemma AddChildPlaces(db: Database, d: Playlist, owner: PlaylistId, child: PlaylistId)
    requires ParentItem(db.items, child).None?
    ensures Unplaced(AddChild(db, owner, child), d) == Unplaced(db, d) - {child}
  {
    AddChildParents(db, owner, child);
  }

  lemma DefaultFound(db: Database, d: Playlist)
    requires HasDefault(db, d)
    ensures DefaultOf(db.playlists) == Some(d)
  {
  }

  lemma AppendToDefaultSound(db: Database, d: Playlist, id: PlaylistId)
    requires Sound(db, d)
    ensures Sound(AppendToDefault(db, id), d)
    ensures Unplaced(AppendToDefault(db, id), d) == Unplaced(db, d) - {id}
    ensures AppendToDefault(db, id).playlists == db.playlists
  {
    DefaultFound(db, d);
    var p := FindPlaylist(db.playlists, id);
    if p.Some? && !p.value.isDefault && ParentItem(db.items, id).None? {
      FoundIsUnique(db, d);
      assert Lineage(db.items, d.id, 0) == [d.id];
      AddChildSound(db, d, d.id, id, 0);
      AddChildPlaces(db, d, d.id, id);
    } else if id in Unplaced(db, d) {
      var q :| q in db.playlists && q != d && ParentItem(db.items, q.id).None? && q.id == id;
      FoundIsUnique(db, q);
      assert false;
    }
  }

  lemma {:induction false} AppendAllSound(db: Database, d: Playlist, ids: seq<PlaylistId>)
    requires Sound(db, d)
    ensures Sound(AppendAll(db, ids), d)
    ensures Unplaced(AppendAll(db, ids), d) == Unplaced(db, d) - (set x | x in ids)
    decreases |ids|
  {
    hide Sound, Unplaced, AppendToDefault;
    if ids != [] {
      AppendToDefaultSound(db, d, ids[0]);
      AppendAllSound(AppendToDefault(db, ids[0]), d, ids[1..]);
      assert (set x | x in ids) == {ids[0]} + (set x | x in ids[1..]);
    }
  }

  lemma NestKeepsTree(db: Database, d: Playlist, parent: PlaylistId, child: PlaylistId)
    requires OneTree(db, d)
    ensures OneTree(ApplyNest(db, parent, child), d)
  {
    var after := ApplyNest(db, parent, child);
    if after != db {
      var existing := ParentItem(db.items, child);
      var keep := (i: Item) => Some(i) != existing;
      var without := DropItems(db, keep);
      DropSound(db, d, keep);
      ConstrainedOneParent(db);
      forall id
        ensures ParentItem(without.items, id) == if id == child then None else ParentItem(db.items, id)
      {
        ParentAfterFilter(db.items, keep, id);
      }
      LineageElsewhere(db.items, without.items, child, parent, MAX_PLAYLIST_DEPTH - 1);
      assert Unplaced(without, d) <= {child};
      assert child != d.id by {
        FoundIsUnique(db, d);
      }
      AddChildSound(without, d, parent, child, MAX_PLAYLIST_DEPTH - 1);
      AddChildPlaces(without, d, parent, child);
    }
  }

  lemma RemoveKeepsTree(db: Database, d: Playlist, owner: PlaylistId, item: nat)
    requires OneTree(db, d)
    ensures OneTree(ApplyRemove(db, owner, item), d)
  {
    var found := FindItem(db.items, owner, item);
    if found.Some? {
      var keep := (i: Item) => i != found.value;
      var rest := DropItems(db, keep);
      DropSound(db, d, keep);
      ConstrainedOneParent(db);
      forall id
        ensures ParentItem(rest.items, id) ==
                if found.value.child == Some(id) then None else ParentItem(db.items, id)
      {
        ParentAfterFilter(db.items, keep, id);
      }
      if found.value.child.Some? {
        assert Unplaced(rest, d) <= {found.value.child.value};
        AppendToDefaultSound(rest, d, found.value.child.value);
      }
    }
  }

  lemma FoundAfterFilter(playlists: seq<Playlist>, id: PlaylistId, x: PlaylistId)
    requires FindPlaylist(playlists, x).Some? && x != id
    ensures FindPlaylist(Filter((q: Playlist) => q.id != id, playlists), x).Some?
  {
    var p := FindPlaylist(playlists, x).value;
    assert p in Filter((q: Playlist) => q.id != id, playlists);
  }

  // A playlist no item mentions can go.
  lemma DropPlaylistConstrained(db: Database, id: PlaylistId)
    requires Constrained(db)
    requires forall i :: i in db.items ==> i.owner != id && i.child != Some(id)
    ensures Constrained(db.(playlists := Filter((q: Playlist) => q.id != id, db.playlists)))
  {
    FilterDistinctBy((q: Playlist) => q.id != id, (q: Playlist) => q.id, db.playlists);
    forall i | i in db.items
      ensures FindPlaylist(Filter((q: Playlist) => q.id != id, db.playlists), i.owner).Some?
    {
      FoundAfterFilter(db.playlists, id, i.owner);
    }
    forall i | i in db.items && i.child.Some?
      ensures FindPlaylist(Filter((q: Playlist) => q.id != id, db.playlists), i.child.value).Some?
    {
      FoundAfterFilter(db.playlists, id, i.child.value);
    }
  }

  lemma DropPlaylistSound(db: Database, d: Playlist, id: PlaylistId)
    requires Sound(db, d) && id != d.id
    requires forall i :: i in db.items ==> i.owner != id && i.child != Some(id)
    ensures Sound(db.(playlists := Filter((q: Playlist) => q.id != id, db.playlists)), d)
  {
    DropPlaylistConstrained(db, id);
  }

  lemma DeleteKeepsTree(db: Database, d: Playlist, id: PlaylistId)
    requires OneTree(db, d)
    ensures OneTree(ApplyDelete(db, id), d)
  {
    hide ParentItem, Forest, AppendAll, ChildrenOf, Filter;
    var p := FindPlaylist(db.playlists, id);
    if p.Some? && !p.value.isDefault {
      var keep := (i: Item) => i.owner != id && i.child != Some(id);
      var cleared := DropItems(db, keep);
      DropSound(db, d, keep);
      FoundIsUnique(db, d);
      DropPlaylistSound(cleared, d, id);
      var dropped := cleared.(playlists := Filter((q: Playlist) => q.id != id, db.playlists));
      var children := ChildrenOf(SortBy(ItemKey, db.items), id);
      forall x | x in Unplaced(dropped, d)
        ensures x in children
      {
        OrphanIsChild(db, d, id, x);
      }
      AppendAllSound(dropped, d, children);
    }
  }

  lemma OrphanIsChild(db: Database, d: Playlist, id: PlaylistId, x: PlaylistId)
    requires OneTree(db, d)
    requires x != id && x != d.id && FindPlaylist(db.playlists, x).Some?
    requires ParentItem(Filter((i: Item) => i.owner != id && i.child != Some(id), db.items), x).None?
    ensures x in ChildrenOf(SortBy(ItemKey, db.items), id)
  {
    SameElements(SortBy(ItemKey, db.items), db.items);
    ConstrainedOneParent(db);
    ParentAfterFilter(db.items, (i: Item) => i.owner != id && i.child != Some(id), x);
    var q := FindPlaylist(db.playlists, x).value;
    assert x !in Unplaced(db, d);
    assert ParentItem(db.items, q.id).Some?;
  }

  lemma {:induction false} FoundAfterAdd(playlists: seq<Playlist>, p: Playlist, x: PlaylistId)
    ensures FindPlaylist(playlists, x).Some? ==> FindPlaylist(playlists + [p], x).Some?
  {
    assert FindPlaylist(playlists, x).Some? ==> FindPlaylist(playlists, x).value in playlists + [p];
  }

  // No item mentions a playlist that is not stored yet.
  lemma AddPlaylistSound(db: Database, d: Playlist, p: Playlist)
    requires Sound(db, d) && !p.isDefault && FindPlaylist(db.playlists, p.id).None?
    ensures Sound(db.(playlists := db.playlists + [p]), d)
  {
    AddPlaylistConstrained(db, p);
    hide Constrained, Forest, FindPlaylist, ParentItem;
  }

  lemma AddPlaylistConstrained(db: Database, p: Playlist)
    requires Constrained(db) && FindPlaylist(db.playlists, p.id).None?
    ensures Constrained(db.(playlists := db.playlists + [p]))
  {
    hide FindPlaylist;
    forall x
      ensures FindPlaylist(db.playlists, x).Some? ==> FindPlaylist(db.playlists + [p], x).Some?
    {
      FoundAfterAdd(db.playlists, p, x);
    }
  }

  lemma CreateKeepsTree(db: Database, d: Playlist, p: Playlist)
    requires OneTree(db, d)
    ensures OneTree(ApplyCreate(db, p), d)
  {
    if !p.isDefault && FindPlaylist(db.playlists, p.id).None? {
      var added := db.(playlists := db.playlists + [p]);
      AddPlaylistSound(db, d, p);
      assert Unplaced(added, d) <= Unplaced(db, d) + {p.id};
      AppendToDefaultSound(added, d, p.id);
    }
  }

  /** Every run of edits keeps the playlists one tree rooted at Default, although the gate looks at nine playlists only. */
  lemma {:induction false} EveryRunKeepsTree(db: Database, d: Playlist, edits: seq<Edit>)
    requires OneTree(db, d)
    ensures OneTree(ApplyRun(db, edits), d)
    decreases |edits|
  {
    hide OneTree, ApplyCreate, ApplyNest, ApplyRemove, ApplyDelete;
    if edits != [] {
      match edits[0] {
        case Create(p) => CreateKeepsTree(db, d, p);
        case Nest(parent, child) => NestKeepsTree(db, d, parent, child);
        case RemoveItem(owner, item) => RemoveKeepsTree(db, d, owner, item);
        case Delete(id) => DeleteKeepsTree(db, d, id);
      }
      EveryRunKeepsTree(Apply(db, edits[0]), d, edits[1..]);
    }
  }
}
