/** The writes behind the schedule page: saving a drag order, reordering a playlist, adding an occurrence. */
module ScheduleWrites {
  import opened Collections
  import opened PlayWindow
  import opened PlaylistStore
  import opened Ordering
  import opened ScheduleOrdering

  lemma SeenGroup(rows: seq<Row>, refs: seq<Ref>, r: nat)
    requires r < |refs|
    ensures Increasing(Group(rows, refs[r]))
    ensures forall i :: i in Group(rows, refs[r]) ==> i < |rows|
    ensures forall i :: i in Group(rows, refs[r]) ==> (i in Listed(rows, refs, r) <==> refs[r] in refs[..r])
  {
    IncreasingFilter(Named(rows, refs[r]), |rows|);
    forall i | i in Group(rows, refs[r])
      ensures i < |rows| && (i in Listed(rows, refs, r) <==> refs[r] in refs[..r])
    {
      InGroup(rows, refs[r], i);
      InListed(rows, refs, r, i);
    }
  }

  // The remaining items, in prior order.
  method AppendRest(rows: seq<Row>, refs: seq<Ref>, listed: seq<nat>, seen: set<nat>) returns (sequence: seq<nat>)
    requires listed == Listed(rows, refs, |refs|) && SeenAre(rows, seen, listed)
    ensures sequence == Sequence(rows, refs)
  {
    hide Sequence, Listed, UnlistedBelow;
    sequence := listed;
    RestEnds(rows, refs);
    for i := 0 to |rows|
      invariant sequence == listed + UnlistedBelow(rows, refs, i)
    {
      RestStep(rows, refs, i);
      if rows[i].id !in seen {
        sequence := sequence + [i];
      }
    }
    ListedIsSequence(rows, refs);
  }

  function UnlistedBelow(rows: seq<Row>, refs: seq<Ref>, k: nat): seq<nat> {
    Filter<nat>(Unnamed(rows, refs), Range(k))
  }

  lemma RestEnds(rows: seq<Row>, refs: seq<Ref>)
    ensures UnlistedBelow(rows, refs, 0) == []
    ensures UnlistedBelow(rows, refs, |rows|) == Unlisted(rows, refs)
  {
  }

  lemma RestStep(rows: seq<Row>, refs: seq<Ref>, k: nat)
    requires k < |rows|
    ensures UnlistedBelow(rows, refs, k + 1) ==
            UnlistedBelow(rows, refs, k) + if k in Listed(rows, refs, |refs|) then [] else [k]
  {
    assert Range(k + 1) == Range(k) + [k];
    FilterAppend<nat>(Unnamed(rows, refs), Range(k), [k]);
    InListed(rows, refs, |refs|, k);
    assert refs[..|refs|] == refs;
  }

  method ListRows(rows: seq<Row>, refs: seq<Ref>) returns (sequence: seq<nat>)
    requires Queried(rows) && OneItemPerChild(rows)
    ensures sequence == Sequence(rows, refs)
  {
    var byAsset, byPlaylist := GroupItems(rows);
    hide Group, OneItemPerChild, Queried, Sequence;
    sequence := [];
    var seen: set<nat> := {};
    for r := 0 to |refs|
      invariant sequence == Listed(rows, refs, r) && SeenAre(rows, seen, sequence)
    {
      var group := match refs[r] case AssetRef(a) => Lookup(byAsset, a, []) case PlaylistRef(p) => PlaceOf(byPlaylist, p);
      SeenGroup(rows, refs, r);
      assert group != [] ==> group[0] in group;
      sequence, seen := AppendUnseen(rows, group, sequence, seen);
    }
    sequence := AppendRest(rows, refs, sequence, seen);
  }

  // The Default items get exactly the positions 0..n-1, in Sequence order.
  method RenumberDefault(items: array<Row>, refs: seq<Ref>) returns (sequence: seq<nat>)
    requires Queried(items[..]) && OneItemPerChild(items[..])
    modifies items
    ensures sequence == Sequence(old(items[..]), refs)
    ensures forall i :: i in sequence ==> i < items.Length
    ensures items[..] == Renumbered(old(items[..]), sequence)
  {
    ghost var rows := items[..];
    sequence := ListRows(items[..], refs);
    SequenceByRank(rows, refs);
    var _ := AssignSlots(items, sequence, Numbers(|sequence|));
  }

  // ----- the play_order writes of the same call

  function AssetIds(refs: seq<Ref>): (r: seq<AssetId>)
    ensures forall a :: a in r <==> AssetRef(a) in refs
  {
    if refs == [] then [] else
      (match refs[0] case AssetRef(a) => [a] case PlaylistRef(_) => []) + AssetIds(refs[1..])
  }

  function LastIndex<T(==)>(s: seq<T>, x: T): (k: nat)
    requires x in s
    ensures k < |s| && s[k] == x && x !in s[k + 1..]
  {
    if s[|s| - 1] == x then |s| - 1 else
      var init := s[..|s| - 1];
      assert s == init + [s[|s| - 1]];
      var k := LastIndex(init, x);
      assert s[k + 1..] == init[k + 1..] + [s[|s| - 1]];
      k
  }

  /** Each listed asset's play_order becomes its last place among the listed assets; no other row changes. */
  method SavePlayOrders(orders: map<AssetId, int>, refs: seq<Ref>) returns (after: map<AssetId, int>)
    ensures after.Keys == orders.Keys
    ensures forall a :: a in orders ==> after[a] == if a in AssetIds(refs) then LastIndex(AssetIds(refs), a) else orders[a]
  {
    hide AssetIds, LastIndex;
    var ids := AssetIds(refs);
    after := orders;
    for i := 0 to |ids|
      invariant after.Keys == orders.Keys
      invariant forall a :: a in orders ==> after[a] == if a in ids[..i] then LastIndex(ids[..i], a) else orders[a]
    {
      if ids[i] in after {
        after := after[ids[i] := i];
      }
      forall a | a in orders
        ensures after[a] == if a in ids[..i + 1] then LastIndex(ids[..i + 1], a) else orders[a]
      {
        LastIndexStep(ids, i, a);
      }
    }
    assert ids[..|ids|] == ids;
  }

  lemma OneMoreLast<T>(s: seq<T>, y: T, x: T)
    requires x in s + [y]
    ensures LastIndex(s + [y], x) == if x == y then |s| else LastIndex(s, x)
  {
    assert (s + [y])[..|s|] == s;
  }

  lemma LastIndexStep<T>(s: seq<T>, i: nat, x: T)
    requires i < |s|
    ensures x in s[..i + 1] <==> x in s[..i] || x == s[i]
    ensures x in s[..i + 1] ==> LastIndex(s[..i + 1], x) == if x == s[i] then i else LastIndex(s[..i], x)
  {
    assert s[..i + 1] == s[..i] + [s[i]];
    if x in s[..i + 1] {
      OneMoreLast(s[..i], s[i], x);
    }
  }

  // ----- reorder_playlist_items

  function IndexOfId(rows: seq<Row>, id: nat): (k: nat)
    ensures k <= |rows|
    ensures k < |rows| ==> rows[k].id == id
    ensures k == |rows| ==> forall i :: 0 <= i < |rows| ==> rows[i].id != id
  {
    if rows == [] || rows[0].id == id then 0 else 1 + IndexOfId(rows[1..], id)
  }

  predicate Known(rows: seq<Row>, ids: seq<nat>) {
    forall id :: id in ids ==> IndexOfId(rows, id) < |rows|
  }

  function Unasked(rows: seq<Row>, ids: seq<nat>): nat -> bool {
    (i: nat) => i < |rows| && rows[i].id !in ids
  }

  // The listed items as listed, repeats included, then the others in (position, id) order.
  function Reordered(rows: seq<Row>, ids: seq<nat>): seq<nat> {
    Map((id: nat) => IndexOfId(rows, id), ids) + Filter<nat>(Unasked(rows, ids), Range(|rows|))
  }

  // Every item gets a number; a repeated one keeps the last.
  lemma {:induction false} NumberedLast(rows: seq<Row>, order: seq<nat>, k: nat, i: nat)
    requires k <= |order| && i < |rows| && forall j :: j in order ==> j < |rows|
    ensures Assigned(rows, order, Numbers(|order|), k)[i] ==
            if i in order[..k] then rows[i].(position := LastIndex(order[..k], i)) else rows[i]
  {
    if k > 0 {
      NumberedLast(rows, order, k - 1, i);
      assert order[k - 1] in order;
      LastIndexStep(order, k - 1, i);
    }
  }

  lemma ReorderedCovers(rows: seq<Row>, ids: seq<nat>)
    requires Queried(rows) && Known(rows, ids)
    ensures forall i: nat :: i in Reordered(rows, ids) <==> i < |rows|
  {
    var order := Reordered(rows, ids);
    var listed := Map((id: nat) => IndexOfId(rows, id), ids);
    forall i: nat
      ensures i in order <==> i < |rows|
    {
      InRange(|rows|, i);
      if i in listed {
        var k :| 0 <= k < |ids| && listed[k] == i;
        assert ids[k] in ids;
      }
      if i < |rows| && rows[i].id in ids {
        AskedIsListed(rows, ids, i);
      }
    }
  }

  lemma AskedIsListed(rows: seq<Row>, ids: seq<nat>, i: nat)
    requires Queried(rows) && Known(rows, ids) && i < |rows| && rows[i].id in ids
    ensures i in Map((id: nat) => IndexOfId(rows, id), ids)
  {
    var listed := Map((id: nat) => IndexOfId(rows, id), ids);
    var k :| 0 <= k < |ids| && ids[k] == rows[i].id;
    assert ids[k] in ids;
    assert rows[IndexOfId(rows, ids[k])].id == rows[i].id;
    assert listed[k] == i;
  }

  lemma LastNumbers(rows: seq<Row>, order: seq<nat>)
    requires forall i: nat :: i in order <==> i < |rows|
    ensures forall i :: 0 <= i < |rows| ==> i in order && Renumbered(rows, order)[i] == rows[i].(position := LastIndex(order, i))
  {
    assert order[..|order|] == order;
    forall i | 0 <= i < |rows|
      ensures i in order && Renumbered(rows, order)[i] == rows[i].(position := LastIndex(order, i))
    {
      NumberedLast(rows, order, |order|, i);
    }
  }

  /** reorder_playlist_items: refused on an unknown id, else the listed items first, then the rest. */
  method ReorderPlaylistItems(items: array<Row>, ids: seq<nat>) returns (ok: bool)
    requires Queried(items[..])
    modifies items
    ensures ok <==> Known(old(items[..]), ids)
    ensures !ok ==> items[..] == old(items[..])
    ensures ok ==> && (forall i: nat :: i in Reordered(old(items[..]), ids) <==> i < items.Length)
                   && items[..] == Renumbered(old(items[..]), Reordered(old(items[..]), ids))
  {
    ghost var rows := items[..];
    ok := Known(items[..], ids);
    if !ok {
      return;
    }
    var order := Reordered(items[..], ids);
    ReorderedCovers(rows, ids);
    hide Reordered, Known, Queried;
    for k := 0 to |order|
      invariant items[..] == Assigned(rows, order, Numbers(|order|), k)
    {
      assert order[k] in order;
      if items[order[k]].position != k {
        items[order[k]] := items[order[k]].(position := k);
      }
    }
  }

  function Elements(s: seq<nat>): set<nat> {
    set x | x in s
  }

  lemma {:induction false} ElementsSize(s: seq<nat>)
    ensures |Elements(s)| <= |s|
    ensures |Elements(s)| == |s| <==> Distinct(s)
  {
    if s != [] {
      ElementsSize(s[1..]);
      assert s == [s[0]] + s[1..];
      assert Elements(s) == {s[0]} + Elements(s[1..]);
      if s[0] in s[1..] {
        assert Elements(s) == Elements(s[1..]);
      }
    }
  }

  lemma CoverSize(order: seq<nat>, n: nat)
    requires forall i: nat :: i in order <==> i < n
    ensures n <= |order| && (n == |order| <==> Distinct(order))
  {
    forall i: nat
      ensures i in order <==> i in Range(n)
    {
      InRange(n, i);
    }
    assert Elements(order) == Elements(Range(n));
    ElementsSize(order);
    ElementsSize(Range(n));
  }

  lemma ReorderedDistinctIff(rows: seq<Row>, ids: seq<nat>)
    requires Queried(rows) && Known(rows, ids)
    ensures Distinct(Reordered(rows, ids)) <==> Distinct(ids)
  {
    var order := Reordered(rows, ids);
    var listed := Map((id: nat) => IndexOfId(rows, id), ids);
    var rest := Filter<nat>(Unasked(rows, ids), Range(|rows|));
    IncreasingFilter(Unasked(rows, ids), |rows|);
    forall a, b | 0 <= a < b < |ids|
      ensures listed[a] == listed[b] <==> ids[a] == ids[b]
      ensures order[a] == listed[a] && order[b] == listed[b]
    {
      assert ids[a] in ids && ids[b] in ids;
    }
    if Distinct(ids) {
      forall a, b | 0 <= a < b < |order|
        ensures order[a] != order[b]
      {
        RestApart(rows, ids, a, b);
      }
    }
  }

  lemma RestApart(rows: seq<Row>, ids: seq<nat>, a: nat, b: nat)
    requires Queried(rows) && Known(rows, ids) && Distinct(ids)
    requires a < b < |Reordered(rows, ids)|
    ensures Reordered(rows, ids)[a] != Reordered(rows, ids)[b]
  {
    var listed := Map((id: nat) => IndexOfId(rows, id), ids);
    var rest := Filter<nat>(Unasked(rows, ids), Range(|rows|));
    IncreasingFilter(Unasked(rows, ids), |rows|);
    if b < |ids| {
      assert ids[a] in ids && ids[b] in ids;
      assert rows[listed[a]].id == ids[a] && rows[listed[b]].id == ids[b];
    } else {
      assert rest[b - |ids|] in rest;
      if a < |ids| {
        assert ids[a] in ids && rows[listed[a]].id == ids[a];
      }
    }
  }

  /** Positions never collide; they are exactly 0..n-1 if, and only if, no id is listed twice. */
  lemma ReorderDenseIff(rows: seq<Row>, ids: seq<nat>)
    requires Queried(rows) && Known(rows, ids)
    ensures forall i: nat :: i in Reordered(rows, ids) <==> i < |rows|
    ensures var after := Renumbered(rows, Reordered(rows, ids));
            && (forall i, j :: 0 <= i < j < |rows| ==> after[i].position != after[j].position)
            && (Distinct(ids) <==> forall i :: 0 <= i < |rows| ==> 0 <= after[i].position < |rows|)
  {
    hide Queried, Known, Reordered, Renumbered;
    var order := Reordered(rows, ids);
    ReorderedCovers(rows, ids);
    ReorderedDistinctIff(rows, ids);
    CoverSize(order, |rows|);
    LastNumbers(rows, order);
    if !Distinct(ids) {
      var x := order[|order| - 1];
      assert x in order;
      assert LastIndex(order, x) == |order| - 1;
    }
  }

  function RowId(r: Row): nat { r.id }

  function NotListed(ids: seq<nat>): nat -> bool {
    (id: nat) => id !in ids
  }

  function IdAt(rows: seq<Row>): nat -> nat {
    (i: nat) => if i < |rows| then rows[i].id else 0
  }

  lemma UnaskedStep(rows: seq<Row>, ids: seq<nat>, n: nat)
    requires n < |rows|
    ensures Filter<nat>(Unasked(rows, ids), Range(n + 1)) ==
            Filter<nat>(Unasked(rows, ids), Range(n)) + if rows[n].id in ids then [] else [n]
  {
    assert Range(n + 1) == Range(n) + [n];
    FilterAppend<nat>(Unasked(rows, ids), Range(n), [n]);
  }

  lemma NotListedStep(rows: seq<Row>, ids: seq<nat>, n: nat)
    requires n < |rows|
    ensures Filter(NotListed(ids), Map(RowId, rows[..n + 1])) ==
            Filter(NotListed(ids), Map(RowId, rows[..n])) + if rows[n].id in ids then [] else [rows[n].id]
  {
    assert Map(RowId, rows[..n + 1]) == Map(RowId, rows[..n]) + [rows[n].id];
    FilterAppend(NotListed(ids), Map(RowId, rows[..n]), [rows[n].id]);
  }

  lemma {:induction false} UnaskedIds(rows: seq<Row>, ids: seq<nat>, n: nat)
    requires n <= |rows|
    ensures Map(IdAt(rows), Filter<nat>(Unasked(rows, ids), Range(n))) == Filter(NotListed(ids), Map(RowId, rows[..n]))
  {
    hide Filter, NotListed, Unasked;
    if n == 0 {
      NoneUnasked(rows, ids);
    } else {
      UnaskedIds(rows, ids, n - 1);
      UnaskedStep(rows, ids, n - 1);
      NotListedStep(rows, ids, n - 1);
      MapAppend<nat, nat>(IdAt(rows), Filter<nat>(Unasked(rows, ids), Range(n - 1)), if rows[n - 1].id in ids then [] else [n - 1]);
    }
  }

  lemma NoneUnasked(rows: seq<Row>, ids: seq<nat>)
    ensures Map(IdAt(rows), Filter<nat>(Unasked(rows, ids), Range(0))) == Filter(NotListed(ids), Map(RowId, rows[..0])) == []
  {
  }

  lemma ReorderedIds(rows: seq<Row>, ids: seq<nat>)
    requires Known(rows, ids)
    ensures Map(IdAt(rows), Reordered(rows, ids)) == ids + Filter(NotListed(ids), Map(RowId, rows))
  {
    UnaskedIds(rows, ids, |rows|);
    assert rows[..|rows|] == rows;
    var listed := Map((id: nat) => IndexOfId(rows, id), ids);
    forall k | 0 <= k < |ids|
      ensures Map(IdAt(rows), listed)[k] == ids[k]
    {
      assert ids[k] in ids;
    }
    assert Map(IdAt(rows), listed) == ids;
    MapAppend(IdAt(rows), listed, Filter<nat>(Unasked(rows, ids), Range(|rows|)));
  }

  lemma MapAppend<T, U>(f: T -> U, a: seq<T>, b: seq<T>)
    ensures Map(f, a + b) == Map(f, a) + Map(f, b)
  {
  }

  lemma ReadBackIds(rows: seq<Row>, order: seq<nat>)
    requires Distinct(order) && |order| == |rows| && forall i: nat :: i in order <==> i < |rows|
    ensures Map(RowId, Requery(Renumbered(rows, order))) == Map(IdAt(rows), order)
  {
    RenumberedReadsBack(rows, order);
  }

  /** Read back, the playlist is the ids as listed, then the others in the order they had. */
  lemma ReorderReadsBack(rows: seq<Row>, ids: seq<nat>)
    requires Queried(rows) && Known(rows, ids) && Distinct(ids)
    ensures forall i: nat :: i in Reordered(rows, ids) <==> i < |rows|
    ensures Map(RowId, Requery(Renumbered(rows, Reordered(rows, ids)))) == ids + Filter(NotListed(ids), Map(RowId, rows))
  {
    hide Reordered, Renumbered, Requery;
    ReorderedCovers(rows, ids);
    ReorderedDistinctIff(rows, ids);
    CoverSize(Reordered(rows, ids), |rows|);
    ReadBackIds(rows, Reordered(rows, ids));
    ReorderedIds(rows, ids);
  }

  /** An item listed twice pushes itself past the end, and leaves its first place empty. */
  lemma RepeatedIdLeavesGap()
    ensures var rows := [Row(1, ToPlaylist(1), 0), Row(2, ToPlaylist(2), 1)];
            && Queried(rows) && Known(rows, [1, 1])
            && Reordered(rows, [1, 1]) == [0, 0, 1]
            && Renumbered(rows, [0, 0, 1]) == [Row(1, ToPlaylist(1), 1), Row(2, ToPlaylist(2), 2)]
  {
    var rows := [Row(1, ToPlaylist(1), 0), Row(2, ToPlaylist(2), 1)];
    GapOrder(rows);
    GapPositions(rows);
  }

  lemma GapOrder(rows: seq<Row>)
    requires rows == [Row(1, ToPlaylist(1), 0), Row(2, ToPlaylist(2), 1)]
    ensures Known(rows, [1, 1]) && Reordered(rows, [1, 1]) == [0, 0, 1]
  {
    assert Range(2) == [0] + [1];
    FilterAppend<nat>(Unasked(rows, [1, 1]), [0], [1]);
    assert Filter<nat>(Unasked(rows, [1, 1]), [0]) == [];
    assert Filter<nat>(Unasked(rows, [1, 1]), [1]) == [1];
    assert Map((id: nat) => IndexOfId(rows, id), [1, 1]) == [0, 0];
  }

  lemma GapPositions(rows: seq<Row>)
    requires rows == [Row(1, ToPlaylist(1), 0), Row(2, ToPlaylist(2), 1)]
    ensures forall i: nat :: i in [0, 0, 1] ==> i < |rows|
    ensures Renumbered(rows, [0, 0, 1]) == [Row(1, ToPlaylist(1), 1), Row(2, ToPlaylist(2), 2)]
  {
    var order: seq<nat> := [0, 0, 1];
    assert order[..3] == order;
    assert order[..2] == [0, 0];
    NumberedLast(rows, order, 3, 0);
    NumberedLast(rows, order, 3, 1);
  }

  // ----- schedule_asset_occurrence

  // One past the asset's last occurrence, or the end.
  function InsertAt(rows: seq<Row>, asset: AssetId): (k: nat)
    ensures k <= |rows|
    ensures AssetRef(asset) in Refs(rows) ==>
              k > 0 && RefOf(rows[k - 1]) == AssetRef(asset) && AssetRef(asset) !in Refs(rows[k..])
    ensures AssetRef(asset) !in Refs(rows) ==> k == |rows|
  {
    if AssetRef(asset) in Refs(rows) then
      var k := LastIndex(Refs(rows), AssetRef(asset));
      assert Refs(rows[k + 1..]) == Refs(rows)[k + 1..];
      k + 1
    else
      |rows|
  }

  function Refs(rows: seq<Row>): (r: seq<Ref>) { Map(RefOf, rows) }

  function Numbered(rows: seq<Row>): (r: seq<Row>)
    ensures |r| == |rows| && forall k :: 0 <= k < |rows| ==> r[k] == rows[k].(position := k)
  {
    seq(|rows|, k requires 0 <= k < |rows| => rows[k].(position := k))
  }

  /** Adds an occurrence directly after the asset's last one and renumbers around it; refused while processing. */
  method ScheduleAssetOccurrence(items: array<Row>, asset: AssetId, playOrder: int, isProcessing: bool, id: nat) returns (added: Option<Row>)
    requires Queried(items[..])
    modifies items
    ensures isProcessing ==> added.None? && items[..] == old(items[..])
    ensures !isProcessing ==>
              var k := InsertAt(old(items[..]), asset);
              && added == Some(Row(id, ToAsset(asset, playOrder), k))
              && items[..k] + [added.value] + items[k..] ==
                 Numbered(old(items[..k]) + [added.value] + old(items[k..]))
  {
    if isProcessing {
      return None;
    }
    ghost var rows := items[..];
    var k := FindInsertAt(items[..], asset);
    RenumberAround(items, k);
    added := Some(Row(id, ToAsset(asset, playOrder), k));
    InsertedAt(rows, items[..], k, added.value);
  }

  lemma InsertedAt(before: seq<Row>, after: seq<Row>, k: nat, added: Row)
    requires k <= |before| == |after| && added.position == k
    requires forall i :: 0 <= i < |before| ==> after[i] == before[i].(position := if i < k then i else i + 1)
    ensures after[..k] + [added] + after[k..] == Numbered(before[..k] + [added] + before[k..])
  {
  }

  method FindInsertAt(rows: seq<Row>, asset: AssetId) returns (k: nat)
    ensures k == InsertAt(rows, asset)
  {
    hide LastIndex;
    ghost var refs := Refs(rows);
    var at: Option<nat> := None;
    for i := 0 to |rows|
      invariant at.Some? ==> AssetRef(asset) in refs[..i] && at.value == LastIndex(refs[..i], AssetRef(asset))
      invariant at.None? ==> AssetRef(asset) !in refs[..i]
    {
      LastIndexStep(refs, i, AssetRef(asset));
      if RefOf(rows[i]) == AssetRef(asset) {
        at := Some(i);
      }
    }
    assert refs[..|rows|] == refs;
    k := if at.Some? then at.value + 1 else |rows|;
  }

  method RenumberAround(items: array<Row>, k: nat)
    requires k <= items.Length
    modifies items
    ensures forall i :: 0 <= i < items.Length ==> items[i] == old(items[i]).(position := if i < k then i else i + 1)
  {
    for i := 0 to items.Length
      invariant forall j :: 0 <= j < i ==> items[j] == old(items[j]).(position := if j < k then j else j + 1)
      invariant forall j :: i <= j < items.Length ==> items[j] == old(items[j])
    {
      var target := if i < k then i else i + 1;
      if items[i].position != target {
        items[i] := items[i].(position := target);
      }
    }
  }
}
