/** What each playlist edit does to the stored rows: which go, which come, and where. */
module EditLaws {
  import opened Collections
  import opened PlayWindow
  import opened PlaylistStore
  import opened Nesting
  import opened PlaylistEdits

  // ----- rows that come

  // One new row, for `child`, just past the last item of `owner`.
  ghost predicate NewAtEnd(before: seq<Item>, row: Item, owner: PlaylistId, child: PlaylistId) {
    && row.owner == owner && row.child == Some(child) && row.asset.None?
    && (forall i :: i in before ==> i.id != row.id)
    && (forall i :: i in before && i.owner == owner ==> i.position < row.position)
    && if exists i :: i in before && i.owner == owner then
         exists i :: i in before && i.owner == owner && i.position + 1 == row.position
       else
         row.position == 0
  }

  ghost predicate Appended(before: seq<Item>, after: seq<Item>, owner: PlaylistId, child: PlaylistId) {
    exists row :: after == before + [row] && NewAtEnd(before, row, owner, child)
  }

  // One after the other.
  ghost predicate AppendedAll(before: seq<Item>, after: seq<Item>, owner: PlaylistId, children: seq<PlaylistId>)
    decreases |children|
  {
    if children == [] then after == before else
      exists mid :: Appended(before, mid, owner, children[0]) && AppendedAll(mid, after, owner, children[1..])
  }

  // ----- rows that go

  ghost predicate Kept<T(!new)>(rest: seq<T>, rows: seq<T>, keep: T -> bool) {
    exists at :: TakenAt(rest, rows, at) && forall i: nat :: i in at <==> i < |rows| && keep(rows[i])
  }

  lemma FilterKept<T(!new)>(rows: seq<T>, keep: T -> bool)
    ensures Kept(Filter(keep, rows), rows, keep)
  {
    var at := FilterTakes(keep, rows);
  }

  // ----- adding a child

  lemma {:induction false} EndPositionIs(items: seq<Item>, owner: PlaylistId)
    ensures EndPosition(items, owner).None? <==> forall i :: i in items ==> i.owner != owner
    ensures EndPosition(items, owner).Some? ==>
              var e := EndPosition(items, owner).value;
              && (forall i :: i in items && i.owner == owner ==> i.position < e)
              && exists i :: i in items && i.owner == owner && i.position + 1 == e
  {
    if items != [] {
      EndPositionIs(items[1..], owner);
      assert items[0] in items;
      assert forall i :: i in items ==> i == items[0] || i in items[1..];
      assert forall i :: i in items[1..] ==> i in items;
    }
  }

  lemma AddChildAppends(db: Database, owner: PlaylistId, child: PlaylistId)
    ensures Appended(db.items, AddChild(db, owner, child).items, owner, child)
    ensures AddChild(db, owner, child).playlists == db.playlists && AddChild(db, owner, child).assets == db.assets
  {
    hide EndPosition, FreshId;
    EndPositionIs(db.items, owner);
    assert NewAtEnd(db.items, ChildRow(db, owner, child), owner, child);
  }

  // A stored playlist other than Default that no item nests.
  predicate Homeless(db: Database, id: PlaylistId) {
    var p := FindPlaylist(db.playlists, id);
    p.Some? && !p.value.isDefault && ParentItem(db.items, id).None?
  }

  lemma AppendsToDefault(db: Database, d: Playlist, id: PlaylistId)
    requires HasDefault(db, d) && Homeless(db, id)
    ensures AppendToDefault(db, id) == AddChild(db, d.id, id)
    ensures Appended(db.items, AppendToDefault(db, id).items, d.id, id)
    ensures AppendToDefault(db, id).playlists == db.playlists && AppendToDefault(db, id).assets == db.assets
  {
    hide Appended;
    DefaultFound(db, d);
    AddChildAppends(db, d.id, id);
  }

  lemma StillHomeless(db: Database, d: Playlist, id: PlaylistId, other: PlaylistId)
    requires HasDefault(db, d) && Homeless(db, id) && Homeless(db, other) && id != other
    ensures Homeless(AppendToDefault(db, id), other)
  {
    hide Appended;
    AppendsToDefault(db, d, id);
    AddChildParents(db, d.id, id);
  }

  lemma {:induction false} AppendAllAppends(db: Database, d: Playlist, ids: seq<PlaylistId>)
    requires Sound(db, d) && Distinct(ids) && forall id :: id in ids ==> Homeless(db, id)
    ensures AppendedAll(db.items, AppendAll(db, ids).items, d.id, ids)
    ensures AppendAll(db, ids).playlists == db.playlists && AppendAll(db, ids).assets == db.assets
    decreases |ids|
  {
    hide Appended, Homeless, Sound, AppendToDefault;
    if ids != [] {
      SoundHasDefault(db, d);
      AppendsToDefault(db, d, ids[0]);
      AppendToDefaultSound(db, d, ids[0]);
      forall id | id in ids[1..]
        ensures Homeless(AppendToDefault(db, ids[0]), id)
      {
        StillHomeless(db, d, ids[0], id);
      }
      AppendAllAppends(AppendToDefault(db, ids[0]), d, ids[1..]);
    }
  }

  lemma SoundHasDefault(db: Database, d: Playlist)
    requires Sound(db, d)
    ensures HasDefault(db, d) && Keyed(db)
  {
  }

  // ----- nest

  predicate Stored(db: Database, id: PlaylistId) {
    exists p :: p in db.playlists && p.id == id
  }

  predicate IsDefaultId(db: Database, id: PlaylistId) {
    exists p :: p in db.playlists && p.id == id && p.isDefault
  }

  /** Both are stored, the child is a top-level row, and the line of eight above the parent avoids it. */
  ghost predicate MayNest(db: Database, parent: PlaylistId, child: PlaylistId) {
    && Stored(db, parent) && Stored(db, child) && !IsDefaultId(db, child)
    && (forall i :: i in db.items && i.child == Some(child) ==> IsDefaultId(db, i.owner))
    && RootWithin(db.items, parent, 7) && !SelfOrAncestor(db.items, child, parent)
  }

  lemma StoredIff(db: Database, id: PlaylistId)
    requires Keyed(db)
    ensures Stored(db, id) <==> FindPlaylist(db.playlists, id).Some?
    ensures IsDefaultId(db, id) <==> FindPlaylist(db.playlists, id).Some? && FindPlaylist(db.playlists, id).value.isDefault
  {
    if p :| p in db.playlists && p.id == id {
      FoundIsUnique(db, p);
    }
    if p :| p in db.playlists && p.id == id && p.isDefault {
      FoundIsUnique(db, p);
    }
  }

  lemma MayNestIff(db: Database, parent: PlaylistId, child: PlaylistId)
    requires Constrained(db)
    ensures MayNest(db, parent, child) <==>
            var p, c, existing := FindPlaylist(db.playlists, parent), FindPlaylist(db.playlists, child), ParentItem(db.items, child);
            && p.Some? && c.Some? && !c.value.isDefault
            && (existing.Some? ==> OwnedByDefault(db, existing.value))
            && !GateRefuses(db.items, child, parent)
  {
    hide GateRefuses, RootWithin, SelfOrAncestor;
    StoredIff(db, parent);
    StoredIff(db, child);
    GateRightIff(db.items, child, parent);
    ConstrainedOneParent(db);
    GateBound(db.items, child, parent);
    var existing := ParentItem(db.items, child);
    if existing.Some? {
      StoredIff(db, existing.value.owner);
    }
    forall i | i in db.items && i.child == Some(child)
      ensures existing == Some(i)
    {
      ParentItemIs(db.items, i, child);
    }
  }

  lemma GateBound(items: seq<Item>, child: PlaylistId, parent: PlaylistId)
    ensures !GateRefuses(items, child, parent) ==> RootWithin(items, parent, 7)
  {
  }

  /**
   A nest that is allowed takes the child's schedule row away and puts one row for it past the items of its
   new parent; nothing else changes. Any other nest changes nothing.
   */
  lemma NestExact(db: Database, parent: PlaylistId, child: PlaylistId)
    requires Constrained(db)
    ensures var after := ApplyNest(db, parent, child);
            && after.playlists == db.playlists && after.assets == db.assets
            && if MayNest(db, parent, child) then
                 exists rest :: Kept(rest, db.items, (i: Item) => i.child != Some(child)) && Appended(rest, after.items, parent, child)
               else
                 after == db
  {
    hide MayNest, GateRefuses, Appended, Kept, OwnedByDefault;
    MayNestIff(db, parent, child);
    if MayNest(db, parent, child) {
      var existing := ParentItem(db.items, child);
      SameRowsGo(db, child);
      var rest := Filter((i: Item) => Some(i) != existing, db.items);
      FilterKept(db.items, (i: Item) => i.child != Some(child));
      AddChildAppends(db.(items := rest), parent, child);
    }
  }

  lemma SameRowsGo(db: Database, child: PlaylistId)
    requires Constrained(db)
    ensures Filter((i: Item) => Some(i) != ParentItem(db.items, child), db.items) ==
            Filter((i: Item) => i.child != Some(child), db.items)
  {
    ConstrainedOneParent(db);
    forall i | i in db.items
      ensures Some(i) != ParentItem(db.items, child) <==> i.child != Some(child)
    {
      if i.child == Some(child) {
        ParentItemIs(db.items, i, child);
      }
    }
    FilterSame((i: Item) => Some(i) != ParentItem(db.items, child), (i: Item) => i.child != Some(child), db.items);
  }

  lemma {:induction false} FilterSame<T(!new)>(f: T -> bool, g: T -> bool, s: seq<T>)
    requires forall x :: x in s ==> f(x) == g(x)
    ensures Filter(f, s) == Filter(g, s)
  {
    if s != [] {
      FilterSame(f, g, s[1..]);
    }
  }

  /** The parents after an allowed nest: the child's is the one asked for, everyone else's is as before. */
  lemma NestMovesChild(db: Database, parent: PlaylistId, child: PlaylistId, id: PlaylistId)
    requires Constrained(db) && MayNest(db, parent, child)
    ensures var moved := ParentItem(ApplyNest(db, parent, child).items, id);
            if id == child then moved.Some? && moved.value.owner == parent else moved == ParentItem(db.items, id)
  {
    hide MayNest, GateRefuses, OwnedByDefault;
    MayNestIff(db, parent, child);
    ConstrainedOneParent(db);
    var existing := ParentItem(db.items, child);
    var without := DropItems(db, (i: Item) => Some(i) != existing);
    ParentAfterFilter(db.items, (i: Item) => Some(i) != existing, id);
    ParentAfterFilter(db.items, (i: Item) => Some(i) != existing, child);
    AddChildParents(without, parent, child);
  }

  // ----- remove

  // The row `gone` goes, and a playlist it nested comes to the end of the schedule.
  ghost predicate Removed(db: Database, after: Database, d: Playlist, rest: seq<Item>, gone: Item) {
    && Kept(rest, db.items, (i: Item) => i.id != gone.id)
    && if gone.child.Some? then Appended(rest, after.items, d.id, gone.child.value) else after.items == rest
  }

  /** The row asked for goes, and if it nested a playlist, that becomes the last row of the schedule; or nothing happens. */
  lemma RemoveExact(db: Database, d: Playlist, owner: PlaylistId, item: nat)
    requires OneTree(db, d)
    ensures var after := ApplyRemove(db, owner, item);
            && after.playlists == db.playlists && after.assets == db.assets
            && if exists i :: i in db.items && i.id == item && i.owner == owner then
                 exists rest, gone :: gone in db.items && gone.id == item && gone.owner == owner
                                      && Removed(db, after, d, rest, gone)
               else
                 after == db
  {
    hide Appended, Kept, AppendToDefault, Forest, Unplaced;
    FoundItem(db, owner, item);
    var found := FindItem(db.items, owner, item);
    if found.Some? {
      var gone := found.value;
      var keep := (i: Item) => i != gone;
      var rest := DropItems(db, keep);
      FilterKept(db.items, (i: Item) => i.id != gone.id);
      FilterSame(keep, (i: Item) => i.id != gone.id, db.items);
      if gone.child.Some? {
        DropSound(db, d, keep);
        RemovedHomeless(db, d, gone);
        AppendsToDefault(rest, d, gone.child.value);
      }
      assert Removed(db, ApplyRemove(db, owner, item), d, rest.items, gone);
    }
  }

  lemma {:induction false} FindItemIs(items: seq<Item>, owner: PlaylistId, id: nat)
    ensures FindItem(items, owner, id).None? ==> forall i :: i in items ==> !(i.id == id && i.owner == owner)
    ensures FindItem(items, owner, id).Some? ==> FindItem(items, owner, id).value.id == id
  {
    if items != [] {
      FindItemIs(items[1..], owner, id);
    }
  }

  lemma FoundItem(db: Database, owner: PlaylistId, item: nat)
    requires Keyed(db)
    ensures FindItem(db.items, owner, item).Some? <==> exists i :: i in db.items && i.id == item && i.owner == owner
    ensures FindItem(db.items, owner, item).Some? ==>
              var gone := FindItem(db.items, owner, item).value;
              gone.id == item && forall i :: i in db.items ==> (i == gone <==> i.id == item)
  {
    FindItemIs(db.items, owner, item);
  }

  lemma RemovedHomeless(db: Database, d: Playlist, gone: Item)
    requires Constrained(db) && HasDefault(db, d) && gone in db.items && gone.child.Some?
    ensures Homeless(DropItems(db, (i: Item) => i != gone), gone.child.value)
  {
    ConstrainedOneParent(db);
    ParentItemIs(db.items, gone, gone.child.value);
    ParentAfterFilter(db.items, (i: Item) => i != gone, gone.child.value);
    NotDefault(db, d, gone);
  }

  lemma NotDefault(db: Database, d: Playlist, i: Item)
    requires Constrained(db) && HasDefault(db, d) && i in db.items && i.child.Some?
    ensures FindPlaylist(db.playlists, i.child.value).Some? && !FindPlaylist(db.playlists, i.child.value).value.isDefault
  {
    assert FindPlaylist(db.playlists, i.child.value).value in db.playlists;
  }

  // ----- create

  /** A new playlist is stored and becomes the last row of the schedule. */
  lemma CreateExact(db: Database, d: Playlist, p: Playlist)
    requires OneTree(db, d)
    ensures var after := ApplyCreate(db, p);
            if p.isDefault || Stored(db, p.id) then after == db else
              after.playlists == db.playlists + [p] && after.assets == db.assets && Appended(db.items, after.items, d.id, p.id)
  {
    hide Appended, AppendToDefault, Forest, Unplaced;
    StoredIff(db, p.id);
    if !p.isDefault && !Stored(db, p.id) {
      var added := db.(playlists := db.playlists + [p]);
      AddPlaylistSound(db, d, p);
      CreatedHomeless(db, p);
      AppendsToDefault(added, d, p.id);
    }
  }

  lemma CreatedHomeless(db: Database, p: Playlist)
    requires Constrained(db) && !p.isDefault && FindPlaylist(db.playlists, p.id).None?
    ensures Homeless(db.(playlists := db.playlists + [p]), p.id)
  {
    AddPlaylistConstrained(db, p);
    FoundIsUnique(db.(playlists := db.playlists + [p]), p);
  }

  // ----- delete

  // The playlists nested in `id`, in the order of their rows.
  ghost predicate NestedIn(db: Database, id: PlaylistId, children: seq<PlaylistId>, rows: seq<Item>) {
    && |children| == |rows|
    && (forall j, k :: 0 <= j < k < |rows| ==>
          rows[j].position < rows[k].position || (rows[j].position == rows[k].position && rows[j].id < rows[k].id))
    && (forall i :: i in rows <==> i in db.items && i.owner == id && i.child.Some?)
    && forall k :: 0 <= k < |rows| ==> rows[k].child == Some(children[k])
  }

  // The rows that mention `id` go, and the playlists nested in it come to the end of the schedule.
  ghost predicate Deleted(db: Database, after: Database, d: Playlist, id: PlaylistId,
                          rest: seq<Item>, children: seq<PlaylistId>, rows: seq<Item>) {
    && Kept(rest, db.items, (i: Item) => i.owner != id && i.child != Some(id))
    && NestedIn(db, id, children, rows)
    && AppendedAll(rest, after.items, d.id, children)
  }

  /** The playlist goes with every row that mentions it, and the playlists nested in it become the last rows of the schedule. */
  lemma DeleteExact(db: Database, d: Playlist, id: PlaylistId)
    requires OneTree(db, d)
    ensures var after := ApplyDelete(db, id);
            && after.assets == db.assets
            && if Stored(db, id) && !IsDefaultId(db, id) then
                 && Kept(after.playlists, db.playlists, (q: Playlist) => q.id != id)
                 && exists rest, children, rows :: Deleted(db, after, d, id, rest, children, rows)
               else
                 after == db
  {
    hide AppendedAll, Kept, AppendAll, Forest, Unplaced, NestedIn, ChildrenOf, Filter, Homeless, SelfParent, Stored, IsDefaultId;
    StoredIff(db, id);
    if Stored(db, id) && !IsDefaultId(db, id) {
      FilterKept(db.playlists, (q: Playlist) => q.id != id);
      FoundIsUnique(db, d);
      DeletesRows(db, d, id);
    }
  }

  lemma DeletesRows(db: Database, d: Playlist, id: PlaylistId)
    requires Sound(db, d) && id != d.id
    ensures var dropped := Dropped(db, id);
            var after := AppendAll(dropped, ChildrenOf(SortBy(ItemKey, db.items), id));
            && after.assets == db.assets && after.playlists == dropped.playlists
            && exists rest, children, rows :: Deleted(db, after, d, id, rest, children, rows)
  {
    hide AppendedAll, Kept, AppendAll, Forest, NestedIn, ChildrenOf, Filter, Homeless, SelfParent, Constrained, HasDefault;
    var dropped := Dropped(db, id);
    FilterKept(db.items, (i: Item) => i.owner != id && i.child != Some(id));
    ClearedSound(db, d, id);
    NoSelfParent(db, id);
    SoundHasDefault(db, d);
    var children, rows := ChildrenListed(db, id);
    ChildrenHomeless(db, d, id, children, rows);
    AppendAllAppends(dropped, d, children);
    assert Deleted(db, AppendAll(dropped, children), d, id, dropped.items, children, rows);
  }

  // Without the playlist and the rows that mention it.
  function Dropped(db: Database, id: PlaylistId): Database {
    DropItems(db, (i: Item) => i.owner != id && i.child != Some(id)).(playlists := Filter((q: Playlist) => q.id != id, db.playlists))
  }

  lemma {:induction false} NoRootThroughSelf(items: seq<Item>, id: PlaylistId, n: nat)
    requires ParentItem(items, id).Some? && ParentItem(items, id).value.owner == id
    ensures !RootWithin(items, id, n)
    decreases n
  {
    if n > 0 {
      NoRootThroughSelf(items, id, n - 1);
    }
  }

  lemma NoSelfParent(db: Database, id: PlaylistId)
    requires Constrained(db) && Forest(db.items)
    ensures !SelfParent(db, id)
  {
    ConstrainedOneParent(db);
    assert ReachesRoot(db.items, id);
    var n :| RootWithin(db.items, id, n);
    if i :| i in db.items && i.owner == id && i.child == Some(id) {
      ParentItemIs(db.items, i, id);
      NoRootThroughSelf(db.items, id, n);
    }
  }

  lemma ClearedSound(db: Database, d: Playlist, id: PlaylistId)
    requires Sound(db, d) && id != d.id
    ensures Sound(Dropped(db, id), d)
  {
    var keep := (i: Item) => i.owner != id && i.child != Some(id);
    DropSound(db, d, keep);
    DropPlaylistSound(DropItems(db, keep), d, id);
  }

  function NestsUnder(id: PlaylistId): Item -> bool {
    (i: Item) => i.owner == id && i.child.Some?
  }

  function ChildOf(i: Item): PlaylistId {
    if i.child.Some? then i.child.value else 0
  }

  lemma {:induction false} ChildrenAre(items: seq<Item>, id: PlaylistId)
    ensures ChildrenOf(items, id) == Map(ChildOf, Filter(NestsUnder(id), items))
  {
    if items != [] {
      ChildrenAre(items[1..], id);
    }
  }

  lemma ChildrenListed(db: Database, id: PlaylistId) returns (children: seq<PlaylistId>, rows: seq<Item>)
    requires Keyed(db)
    ensures children == ChildrenOf(SortBy(ItemKey, db.items), id) && NestedIn(db, id, children, rows)
  {
    var sorted := SortBy(ItemKey, db.items);
    children, rows := ChildrenOf(sorted, id), Filter(NestsUnder(id), sorted);
    ChildrenAre(sorted, id);
    SortByStrict(ItemKey, db.items);
    FilterStrict(NestsUnder(id), ItemKey, sorted);
    SameElements(sorted, db.items);
    forall j, k | 0 <= j < k < |rows|
      ensures rows[j].position < rows[k].position || (rows[j].position == rows[k].position && rows[j].id < rows[k].id)
    {
      assert KeyLess(ItemKey(rows[j]), ItemKey(rows[k]));
    }
    forall k | 0 <= k < |rows|
      ensures rows[k].child == Some(children[k])
    {
      assert rows[k] in rows;
    }
  }

  lemma ChildrenHomeless(db: Database, d: Playlist, id: PlaylistId, children: seq<PlaylistId>, rows: seq<Item>)
    requires Constrained(db) && HasDefault(db, d) && id != d.id && NestedIn(db, id, children, rows) && !SelfParent(db, id)
    ensures Distinct(children)
    ensures forall x :: x in children ==> Homeless(Dropped(db, id), x)
  {
    forall j, k | 0 <= j < k < |children|
      ensures children[j] != children[k]
    {
      assert rows[j] in rows && rows[k] in rows;
    }
    forall x | x in children
      ensures Homeless(Dropped(db, id), x)
    {
      var k :| 0 <= k < |children| && children[k] == x;
      assert rows[k] in rows;
      ChildHomeless(db, d, id, rows[k]);
    }
  }

  // A playlist nested in itself: excluded by the tree.
  predicate SelfParent(db: Database, id: PlaylistId) {
    exists i :: i in db.items && i.owner == id && i.child == Some(id)
  }

  lemma ChildHomeless(db: Database, d: Playlist, id: PlaylistId, row: Item)
    requires Constrained(db) && HasDefault(db, d) && !SelfParent(db, id)
    requires row in db.items && row.owner == id && row.child.Some?
    ensures Homeless(Dropped(db, id), row.child.value)
  {
    var x := row.child.value;
    ConstrainedOneParent(db);
    ParentItemIs(db.items, row, x);
    ParentAfterFilter(db.items, (i: Item) => i.owner != id && i.child != Some(id), x);
    NotDefault(db, d, row);
    var p := FindPlaylist(db.playlists, x).value;
    var kept := Filter((q: Playlist) => q.id != id, db.playlists);
    FoundAfterFilter(db.playlists, id, x);
    assert FindPlaylist(kept, x).value in db.playlists;
    FoundIsUnique(db, FindPlaylist(kept, x).value);
  }
}
