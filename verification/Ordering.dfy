/** Items of one playlist in stored order, and the play-order mirror. */
module Ordering {
  import opened Collections
  import opened PlayWindow
  import opened PlaylistStore

  datatype Target = ToAsset(asset: AssetId, playOrder: int) | ToPlaylist(playlist: PlaylistId)

  // An item joined with what it plays.
  datatype Row = Row(id: nat, target: Target, position: int)

  function RowKey(r: Row): Key { Key(r.position, r.id) }

  // Rows as a query ordered by (position, id) returns them.
  ghost predicate Queried(rows: seq<Row>) {
    StrictlySortedBy(RowKey, rows) && DistinctBy((r: Row) => r.id, rows)
  }

  function Requery(rows: seq<Row>): seq<Row> { SortBy(RowKey, rows) }

  lemma RequeryQueried(rows: seq<Row>)
    requires DistinctBy((r: Row) => r.id, rows)
    ensures Queried(Requery(rows))
  {
    var id := (r: Row) => r.id;
    SortByStrict(RowKey, rows);
    MapPermutation(id, rows, Requery(rows));
    assert Distinct(Map(id, rows));
    PermutationDistinct(Map(id, rows), Map(id, Requery(rows)));
    forall i, j | 0 <= i < j < |Requery(rows)|
      ensures id(Requery(rows)[i]) != id(Requery(rows)[j])
    {
      assert Map(id, Requery(rows))[i] != Map(id, Requery(rows))[j];
    }
  }

  // ----- the mirror as a function

  function AssetIndices(rows: seq<Row>): (r: seq<nat>)
    ensures forall i: nat :: i in r <==> i < |rows| && rows[i].target.ToAsset?
    ensures forall j, k :: 0 <= j < k < |r| ==> r[j] < r[k]
  {
    if rows == [] then [] else
      var n := |rows| - 1;
      var before := AssetIndices(rows[..n]);
      assert forall j :: 0 <= j < |before| ==> before[j] in before;
      before + if rows[n].target.ToAsset? then [n] else []
  }

  function PlayKey(rows: seq<Row>, i: nat): Key {
    Key(if i < |rows| && rows[i].target.ToAsset? then rows[i].target.playOrder else 0, i)
  }

  function PlayOrder(rows: seq<Row>): seq<nat> {
    SortBy((i: nat) => PlayKey(rows, i), AssetIndices(rows))
  }

  function PositionOf(rows: seq<Row>, i: nat): int {
    if i < |rows| then rows[i].position else 0
  }

  function Positions(rows: seq<Row>, indices: seq<nat>): seq<int> {
    Map((i: nat) => PositionOf(rows, i), indices)
  }

  function Slots(rows: seq<Row>): seq<int> {
    Positions(rows, AssetIndices(rows))
  }

  // The k-th position goes to the k-th row of the order.
  function Assigned(rows: seq<Row>, order: seq<nat>, slots: seq<int>, k: nat): (r: seq<Row>)
    requires k <= |order| == |slots|
    requires forall i :: i in order ==> i < |rows|
    ensures |r| == |rows|
    ensures forall i :: 0 <= i < |rows| ==> r[i].id == rows[i].id && r[i].target == rows[i].target
  {
    if k == 0 then rows else
      var before := Assigned(rows, order, slots, k - 1);
      assert order[k - 1] in order;
      before[order[k - 1] := before[order[k - 1]].(position := slots[k - 1])]
  }

  lemma PlayOrderIsPermutation(rows: seq<Row>)
    ensures |PlayOrder(rows)| == |AssetIndices(rows)| == |Slots(rows)|
    ensures forall i: nat :: i in PlayOrder(rows) <==> i < |rows| && rows[i].target.ToAsset?
    ensures Distinct(PlayOrder(rows))
  {
    SameElements(PlayOrder(rows), AssetIndices(rows));
    PermutationDistinct(AssetIndices(rows), PlayOrder(rows));
  }

  /** Asset rows are permuted among their own positions by (play_order, current order). */
  function Mirrored(rows: seq<Row>): seq<Row> {
    PlayOrderIsPermutation(rows);
    Assigned(rows, PlayOrder(rows), Slots(rows), |Slots(rows)|)
  }

  lemma {:induction false} AssignedAt(rows: seq<Row>, order: seq<nat>, slots: seq<int>, k: nat)
    requires k <= |order| == |slots| && Distinct(order)
    requires forall i :: i in order ==> i < |rows|
    ensures forall j :: 0 <= j < k ==> order[j] in order && Assigned(rows, order, slots, k)[order[j]].position == slots[j]
    ensures forall i :: 0 <= i < |rows| && i !in order[..k] ==> Assigned(rows, order, slots, k)[i] == rows[i]
  {
    if k > 0 {
      AssignedAt(rows, order, slots, k - 1);
      assert order[k - 1] in order;
      assert order[..k] == order[..k - 1] + [order[k - 1]];
    }
  }

  lemma MirroredAt(rows: seq<Row>)
    ensures |Mirrored(rows)| == |rows|
    ensures Positions(Mirrored(rows), PlayOrder(rows)) == Slots(rows)
    ensures forall i :: 0 <= i < |rows| && rows[i].target.ToPlaylist? ==> Mirrored(rows)[i] == rows[i]
    ensures forall i :: 0 <= i < |rows| ==> Mirrored(rows)[i].id == rows[i].id && Mirrored(rows)[i].target == rows[i].target
  {
    PlayOrderIsPermutation(rows);
    var order, slots := PlayOrder(rows), Slots(rows);
    AssignedAt(rows, order, slots, |slots|);
    assert order[..|slots|] == order;
  }

  /** Conservation: the asset rows keep their positions between them; nested playlists keep theirs. */
  lemma MirrorKeepsPositions(rows: seq<Row>)
    ensures AssetIndices(Mirrored(rows)) == AssetIndices(rows)
    ensures multiset(Slots(Mirrored(rows))) == multiset(Slots(rows))
    ensures forall i :: 0 <= i < |rows| && rows[i].target.ToPlaylist? ==> Mirrored(rows)[i] == rows[i]
  {
    MirroredAt(rows);
    SameTargetsSameIndices(rows, Mirrored(rows));
    MapPermutation((i: nat) => PositionOf(Mirrored(rows), i), PlayOrder(rows), AssetIndices(rows));
  }

  lemma {:induction false} SameTargetsSameIndices(a: seq<Row>, b: seq<Row>)
    requires |a| == |b| && forall i :: 0 <= i < |a| ==> a[i].target == b[i].target
    ensures AssetIndices(a) == AssetIndices(b)
  {
    if a != [] {
      SameTargetsSameIndices(a[..|a| - 1], b[..|b| - 1]);
    }
  }

  predicate Nondecreasing(s: seq<int>) {
    forall j, k :: 0 <= j < k < |s| ==> s[j] <= s[k]
  }

  lemma SlotsNondecreasing(rows: seq<Row>)
    requires StrictlySortedBy(RowKey, rows)
    ensures Nondecreasing(Slots(rows))
  {
    var indices := AssetIndices(rows);
    forall j, k | 0 <= j < k < |indices|
      ensures Slots(rows)[j] <= Slots(rows)[k]
    {
      assert indices[j] in indices && indices[k] in indices;
      assert KeyLess(RowKey(rows[indices[j]]), RowKey(rows[indices[k]]));
    }
  }

  ghost predicate FollowsPlayOrder(rows: seq<Row>) {
    forall x, y :: x in rows && y in rows && x.target.ToAsset? && y.target.ToAsset? && x.target.playOrder < y.target.playOrder ==>
                     x.position <= y.position
  }

  lemma PlayOrderPlaces(rows: seq<Row>, a: nat, b: nat)
    requires a < |PlayOrder(rows)| && b < |PlayOrder(rows)|
    requires KeyLess(PlayKey(rows, PlayOrder(rows)[a]), PlayKey(rows, PlayOrder(rows)[b]))
    ensures a < b
  {
    hide AssetIndices, SortBy, PlayKey;
    var key := (k: nat) => PlayKey(rows, k);
    var order := PlayOrder(rows);
    assert !KeyLeq(key(order[b]), key(order[a]));
  }

  lemma SlotOf(rows: seq<Row>, i: nat) returns (k: nat)
    requires i < |rows| && rows[i].target.ToAsset?
    ensures k < |PlayOrder(rows)| == |Slots(rows)| && PlayOrder(rows)[k] == i
    ensures |Mirrored(rows)| == |rows| && Mirrored(rows)[i].position == Slots(rows)[k]
  {
    PlayOrderIsPermutation(rows);
    MirroredAt(rows);
    k :| 0 <= k < |PlayOrder(rows)| && PlayOrder(rows)[k] == i;
    assert Positions(Mirrored(rows), PlayOrder(rows))[k] == Mirrored(rows)[i].position;
  }

  lemma PlacedInOrder(rows: seq<Row>, i: nat, j: nat)
    requires StrictlySortedBy(RowKey, rows) && i < |rows| && j < |rows|
    requires rows[i].target.ToAsset? && rows[j].target.ToAsset?
    requires rows[i].target.playOrder < rows[j].target.playOrder
    ensures |Mirrored(rows)| == |rows| && Mirrored(rows)[i].position <= Mirrored(rows)[j].position
  {
    hide Mirrored, PlayOrder, Slots;
    SlotsNondecreasing(rows);
    var a := SlotOf(rows, i);
    var b := SlotOf(rows, j);
    PlayOrderPlaces(rows, a, b);
  }

  /** After the mirror, positions are non-decreasing in play_order. */
  lemma MirrorFollowsPlayOrder(rows: seq<Row>)
    requires StrictlySortedBy(RowKey, rows)
    ensures FollowsPlayOrder(Mirrored(rows))
  {
    hide Mirrored, PlayOrder, Slots;
    var m := Mirrored(rows);
    MirroredAt(rows);
    forall x, y | x in m && y in m && x.target.ToAsset? && y.target.ToAsset? && x.target.playOrder < y.target.playOrder
      ensures x.position <= y.position
    {
      var i :| 0 <= i < |m| && m[i] == x;
      var j :| 0 <= j < |m| && m[j] == y;
      PlacedInOrder(rows, i, j);
    }
  }

  // ----- a second run

  lemma SortedPermutation(a: seq<int>, b: seq<int>)
    requires multiset(a) == multiset(b) && Nondecreasing(a) && Nondecreasing(b)
    ensures a == b
  {
    SortedUnique((x: int) => Key(x, 0), a, b);
  }

  lemma {:induction false} AssignedSame(rows: seq<Row>, order: seq<nat>, slots: seq<int>, k: nat)
    requires k <= |order| == |slots|
    requires forall i :: i in order ==> i < |rows|
    requires Positions(rows, order) == slots
    ensures Assigned(rows, order, slots, k) == rows
  {
    if k > 0 {
      AssignedSame(rows, order, slots, k - 1);
      assert order[k - 1] in order;
      assert Positions(rows, order)[k - 1] == rows[order[k - 1]].position;
    }
  }

  lemma OrderedPair(rows: seq<Row>, a: nat, b: nat)
    requires StrictlySortedBy(RowKey, rows) && FollowsPlayOrder(rows)
    requires a < b < |PlayOrder(rows)|
    ensures PositionOf(rows, PlayOrder(rows)[a]) <= PositionOf(rows, PlayOrder(rows)[b])
  {
    PlayOrderIsPermutation(rows);
    var i, j := PlayOrder(rows)[a], PlayOrder(rows)[b];
    assert i in PlayOrder(rows) && j in PlayOrder(rows);
    assert rows[i] in rows && rows[j] in rows;
    if KeyLess(PlayKey(rows, j), PlayKey(rows, i)) {
      PlayOrderPlaces(rows, b, a);
    } else if i < j {
      assert KeyLess(RowKey(rows[i]), RowKey(rows[j]));
    }
  }

  lemma OrderedPositions(rows: seq<Row>)
    requires StrictlySortedBy(RowKey, rows) && FollowsPlayOrder(rows)
    ensures Nondecreasing(Positions(rows, PlayOrder(rows)))
  {
    hide PlayOrder;
    forall a, b | 0 <= a < b < |PlayOrder(rows)|
      ensures Positions(rows, PlayOrder(rows))[a] <= Positions(rows, PlayOrder(rows))[b]
    {
      OrderedPair(rows, a, b);
    }
  }

  /** The mirror changes nothing on rows whose positions already follow play_order. */
  lemma MirrorFixpoint(rows: seq<Row>)
    requires StrictlySortedBy(RowKey, rows) && FollowsPlayOrder(rows)
    ensures Mirrored(rows) == rows
  {
    PlayOrderIsPermutation(rows);
    OrderedPositions(rows);
    SlotsNondecreasing(rows);
    MapPermutation((i: nat) => PositionOf(rows, i), PlayOrder(rows), AssetIndices(rows));
    SortedPermutation(Positions(rows, PlayOrder(rows)), Slots(rows));
    AssignedSame(rows, PlayOrder(rows), Slots(rows), |Slots(rows)|);
  }

  lemma MirrorFixpointOnly(rows: seq<Row>)
    requires StrictlySortedBy(RowKey, rows) && Mirrored(rows) == rows
    ensures FollowsPlayOrder(rows)
  {
    MirrorFollowsPlayOrder(rows);
  }

  /** A second run changes nothing, whatever ties there are in position or play_order. */
  lemma MirrorIdempotent(rows: seq<Row>)
    requires Queried(rows)
    ensures Mirrored(Requery(Mirrored(rows))) == Requery(Mirrored(rows))
  {
    var m := Mirrored(rows);
    MirroredAt(rows);
    MirrorFollowsPlayOrder(rows);
    RequeryQueried(m);
    SameElements(Requery(m), m);
    MirrorFixpoint(Requery(m));
  }

  lemma UnchangedIff(rows: seq<Row>)
    ensures |PlayOrder(rows)| == |Slots(rows)|
    ensures Mirrored(rows) == rows <==>
            forall k :: 0 <= k < |Slots(rows)| ==> PositionOf(rows, PlayOrder(rows)[k]) == Slots(rows)[k]
  {
    PlayOrderIsPermutation(rows);
    MirroredAt(rows);
    var order, slots := PlayOrder(rows), Slots(rows);
    if forall k :: 0 <= k < |slots| ==> PositionOf(rows, order[k]) == slots[k] {
      assert Positions(rows, order) == slots;
      AssignedSame(rows, order, slots, |slots|);
    }
  }

  /** mirror_play_order_to_default_playlist, in place; `changed` are the rows it writes back: those that moved. */
  method MirrorPlayOrder(items: array<Row>) returns (changed: seq<nat>)
    requires Queried(items[..])
    modifies items
    ensures items[..] == Mirrored(old(items[..]))
    ensures forall i :: 0 <= i < items.Length ==> (items[i].id in changed <==> items[i] != old(items[i]))
    ensures changed == [] <==> items[..] == old(items[..])
  {
    hide Written, Queried, Assigned, Distinct, AssetIndices;
    var rows := items[..];
    var listed := ListAssets(items);
    var slots := Positions(rows, listed);
    listed := SortBy((i: nat) => PlayKey(rows, i), listed);
    PlayOrderIsPermutation(rows);
    UnchangedIff(rows);
    changed := AssignSlots(items, listed, slots);
    MirrorWrites(rows, changed);
  }

  // The row at some place of the order whose position is not the slot's.
  ghost predicate Moves(rows: seq<Row>, order: seq<nat>, slots: seq<int>, j: nat, id: nat) {
    j < |order| && j < |slots| && order[j] < |rows| && rows[order[j]].id == id && rows[order[j]].position != slots[j]
  }

  // The ids of what the first k places move.
  ghost predicate Written(rows: seq<Row>, order: seq<nat>, slots: seq<int>, k: nat, changed: seq<nat>) {
    forall id :: id in changed <==> exists j: nat :: j < k && Moves(rows, order, slots, j, id)
  }

  lemma WrittenNext(rows: seq<Row>, order: seq<nat>, slots: seq<int>, k: nat, changed: seq<nat>)
    requires k < |order| == |slots| && order[k] < |rows| && Written(rows, order, slots, k, changed)
    ensures Written(rows, order, slots, k + 1,
                    if rows[order[k]].position != slots[k] then changed + [rows[order[k]].id] else changed)
  {
    var later := if rows[order[k]].position != slots[k] then changed + [rows[order[k]].id] else changed;
    forall id
      ensures id in later <==> exists j: nat :: j < k + 1 && Moves(rows, order, slots, j, id)
    {
      if id in later && id !in changed {
        assert Moves(rows, order, slots, k, id);
      }
    }
  }

  lemma RowWritten(rows: seq<Row>, order: seq<nat>, slots: seq<int>, changed: seq<nat>, i: nat)
    requires DistinctBy((r: Row) => r.id, rows) && |order| == |slots| && i < |rows|
    requires forall j :: j in order ==> j < |rows|
    requires Written(rows, order, slots, |slots|, changed)
    ensures rows[i].id in changed <==> exists j :: 0 <= j < |order| && order[j] == i && slots[j] != rows[i].position
  {
    if rows[i].id in changed {
      var j: nat :| j < |slots| && Moves(rows, order, slots, j, rows[i].id);
      SameRow(rows, order[j], i);
    }
    if j :| 0 <= j < |order| && order[j] == i && slots[j] != rows[i].position {
      assert Moves(rows, order, slots, j, rows[i].id);
    }
  }

  lemma WrittenAreMoved(rows: seq<Row>, order: seq<nat>, slots: seq<int>, changed: seq<nat>)
    requires DistinctBy((r: Row) => r.id, rows) && |order| == |slots| && Distinct(order)
    requires forall i :: i in order ==> i < |rows|
    requires Written(rows, order, slots, |slots|, changed)
    ensures var after := Assigned(rows, order, slots, |slots|);
            forall i :: 0 <= i < |rows| ==> (rows[i].id in changed <==> after[i] != rows[i])
  {
    hide Written, Assigned;
    var after := Assigned(rows, order, slots, |slots|);
    AssignedAt(rows, order, slots, |slots|);
    assert order[..|slots|] == order;
    forall i | 0 <= i < |rows|
      ensures rows[i].id in changed <==> after[i] != rows[i]
    {
      RowWritten(rows, order, slots, changed, i);
    }
  }

  lemma MirrorWrites(rows: seq<Row>, changed: seq<nat>)
    requires Queried(rows) && |PlayOrder(rows)| == |Slots(rows)|
    requires Written(rows, PlayOrder(rows), Slots(rows), |Slots(rows)|, changed)
    ensures |Mirrored(rows)| == |rows|
    ensures forall i :: 0 <= i < |rows| ==> (Mirrored(rows)[i].id in changed <==> Mirrored(rows)[i] != rows[i])
  {
    hide Written, Assigned, PlayOrder, Slots;
    PlayOrderIsPermutation(rows);
    MirroredAt(rows);
    WrittenAreMoved(rows, PlayOrder(rows), Slots(rows), changed);
  }

  lemma SameRow(rows: seq<Row>, i: nat, j: nat)
    requires DistinctBy((r: Row) => r.id, rows) && i < |rows| && j < |rows| && rows[i].id == rows[j].id
    ensures i == j
  {
    var id := (r: Row) => r.id;
    assert id(rows[i]) == id(rows[j]);
  }

  method AssignSlots(items: array<Row>, order: seq<nat>, slots: seq<int>) returns (changed: seq<nat>)
    requires |order| == |slots| && Distinct(order)
    requires forall i :: i in order ==> i < items.Length
    modifies items
    ensures items[..] == Assigned(old(items[..]), order, slots, |slots|)
    ensures Written(old(items[..]), order, slots, |slots|, changed)
    ensures changed == [] <==> forall k :: 0 <= k < |slots| ==> PositionOf(old(items[..]), order[k]) == slots[k]
  {
    ghost var rows := items[..];
    changed := [];
    for k := 0 to |slots|
      invariant items[..] == Assigned(rows, order, slots, k)
      invariant Written(rows, order, slots, k, changed)
      invariant changed == [] <==> forall j :: 0 <= j < k ==> PositionOf(rows, order[j]) == slots[j]
    {
      assert order[k] in order;
      NotYetAssigned(rows, order, slots, k);
      WrittenNext(rows, order, slots, k, changed);
      var item := items[order[k]];
      if item.position != slots[k] {
        items[order[k]] := item.(position := slots[k]);
        changed := changed + [item.id];
      }
    }
  }

  // A row not yet given its slot is still as it was.
  lemma NotYetAssigned(rows: seq<Row>, order: seq<nat>, slots: seq<int>, k: nat)
    requires k < |order| == |slots| && Distinct(order)
    requires forall i :: i in order ==> i < |rows|
    ensures order[k] in order && Assigned(rows, order, slots, k)[order[k]] == rows[order[k]]
  {
    assert order[k] in order;
    AssignedAt(rows, order, slots, k);
  }

  method ListAssets(items: array<Row>) returns (listed: seq<nat>)
    ensures listed == AssetIndices(items[..])
  {
    listed := [];
    for i := 0 to items.Length
      invariant listed == AssetIndices(items[..i])
    {
      assert items[..i + 1][..i] == items[..i];
      if items[i].target.ToAsset? {
        listed := listed + [i];
      }
    }
    assert items[..items.Length] == items[..];
  }
}
