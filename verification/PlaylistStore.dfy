/** The stored rows: assets, playlists and playlist items, and the constraints the database enforces. */
module PlaylistStore {
  import opened Collections
  import opened PlayWindow

  // Primary keys. Playlist keys are only compared and ordered.
  type PlaylistId = int
  type AssetId = string

  datatype Asset = Asset(id: AssetId, isEnabled: bool, isProcessing: bool, playOrder: int, window: Window, fields: string)

  datatype Playlist = Playlist(id: PlaylistId, isEnabled: bool, repeats: bool, isDefault: bool, position: int, window: Window)

  datatype Item = Item(id: nat, owner: PlaylistId, asset: Option<AssetId>, child: Option<PlaylistId>, position: int)

  datatype Database = Database(playlists: seq<Playlist>, items: seq<Item>, assets: map<AssetId, Asset>)

  const MAX_PLAYLIST_DEPTH: nat := 8

  function PlaylistKey(p: Playlist): Key { Key(p.position, p.id) }

  function ItemKey(i: Item): Key { Key(i.position, i.id) }

  /** Primary keys are unique: all that is assumed of "any database at all". */
  ghost predicate Keyed(db: Database) {
    && (forall i, j :: 0 <= i < j < |db.playlists| ==> db.playlists[i].id != db.playlists[j].id)
    && (forall i, j :: 0 <= i < j < |db.items| ==> db.items[i].id != db.items[j].id)
  }

  /** playlist_item_exactly_one_target, the one-to-one child_playlist, and the foreign keys. */
  ghost predicate Constrained(db: Database) {
    && Keyed(db)
    && (forall i :: i in db.items ==> i.asset.Some? != i.child.Some?)
    && (forall i, j :: i in db.items && j in db.items && i.child.Some? && i.child == j.child ==> i == j)
    && (forall i :: i in db.items ==> FindPlaylist(db.playlists, i.owner).Some?)
    && (forall i :: i in db.items && i.child.Some? ==> FindPlaylist(db.playlists, i.child.value).Some?)
    && (forall i :: i in db.items && i.asset.Some? ==> i.asset.value in db.assets)
  }

  function FindPlaylist(playlists: seq<Playlist>, id: PlaylistId): (r: Option<Playlist>)
    ensures r.Some? ==> r.value in playlists && r.value.id == id
    ensures r.None? ==> forall p :: p in playlists ==> p.id != id
  {
    if playlists == [] then None
    else if playlists[0].id == id then Some(playlists[0])
    else FindPlaylist(playlists[1..], id)
  }

  lemma FoundIsUnique(db: Database, p: Playlist)
    requires Keyed(db) && p in db.playlists
    ensures FindPlaylist(db.playlists, p.id) == Some(p)
  {
  }

  function ResolveAsset(db: Database, i: Item): (r: Option<Asset>)
    ensures r.Some? ==> i.asset.Some?
  {
    if i.asset.Some? && i.asset.value in db.assets then Some(db.assets[i.asset.value]) else None
  }
}
