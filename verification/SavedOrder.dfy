/**
 Saving the drag order of the schedule: what its two writes leave, and whether that order survives the
 play-order mirror, which sorts the same items again.
 */
module SavedOrder {
  import opened Collections
  import opened PlayWindow
  import opened PlaylistStore
  import opened Ordering
  import opened ScheduleOrdering
  import opened ScheduleWrites

  // The play_order of an asset row after the call: its last place among the listed assets, or what it was.
  function NewOrder(r: Row, refs: seq<Ref>): int {
    match r.target
    case ToPlaylist(_) => 0
    case ToAsset(a, before) => if a in AssetIds(refs) then LastIndex(AssetIds(refs), a) else before
  }

  function SavedRow(r: Row, refs: seq<Ref>, position: int): Row {
    match r.target
    case ToPlaylist(_) => r.(position := position)
    case ToAsset(a, _) => Row(r.id, ToAsset(a, NewOrder(r, refs)), position)
  }

  // The Default items as they are read back after both writes.
  function Saved(rows: seq<Row>, refs: seq<Ref>): (r: seq<Row>)
    ensures |r| == |rows|
  {
    SequenceByRank(rows, refs);
    var order := Sequence(rows, refs);
    seq(|rows|, k requires 0 <= k < |rows| => assert order[k] in order; SavedRow(rows[order[k]], refs, k))
  }

  lemma SavedAt(rows: seq<Row>, refs: seq<Ref>, k: nat)
    requires k < |rows|
    ensures |Sequence(rows, refs)| == |rows| && Sequence(rows, refs)[k] < |rows|
    ensures Saved(rows, refs)[k] == SavedRow(rows[Sequence(rows, refs)[k]], refs, k)
    ensures RefOf(Saved(rows, refs)[k]) == RefOf(rows[Sequence(rows, refs)[k]])
  {
    SequenceByRank(rows, refs);
    assert Sequence(rows, refs)[k] in Sequence(rows, refs);
  }

  // ----- the two writes, read back

  // The join with the asset table.
  function Joined(orders: map<AssetId, int>): Row -> Row {
    (r: Row) => match r.target
                case ToPlaylist(_) => r
                case ToAsset(a, before) => r.(target := ToAsset(a, Lookup(orders, a, before)))
  }

  ghost predicate JoinedWith(rows: seq<Row>, orders: map<AssetId, int>) {
    forall r :: r in rows && r.target.ToAsset? ==> r.target.asset in orders && orders[r.target.asset] == r.target.playOrder
  }

  ghost predicate OrdersSaved(before: map<AssetId, int>, after: map<AssetId, int>, refs: seq<Ref>) {
    && after.Keys == before.Keys
    && forall a :: a in before ==> after[a] == if a in AssetIds(refs) then LastIndex(AssetIds(refs), a) else before[a]
  }

  lemma SavedByRow(rows: seq<Row>, refs: seq<Ref>, orders: map<AssetId, int>, after: map<AssetId, int>)
    requires JoinedWith(rows, orders) && OrdersSaved(orders, after, refs)
    ensures forall i: nat :: i in Sequence(rows, refs) <==> i < |rows|
    ensures Saved(rows, refs) == Map(Joined(after), Requery(Renumbered(rows, Sequence(rows, refs))))
  {
    hide Sequence, Renumbered, LastIndex, AssetIds;
    var order := Sequence(rows, refs);
    SequenceByRank(rows, refs);
    RenumberedReadsBack(rows, order);
    forall k | 0 <= k < |rows|
      ensures Saved(rows, refs)[k] == Joined(after)(rows[order[k]].(position := k))
    {
      SavedAt(rows, refs, k);
      assert rows[order[k]] in rows;
    }
  }

  lemma SavedSorted(rows: seq<Row>, refs: seq<Ref>)
    ensures SortedBy(RowKey, Saved(rows, refs)) && InjectiveOn(RowKey, Saved(rows, refs))
    ensures forall k :: 0 <= k < |rows| ==> Saved(rows, refs)[k].position == k
  {
    forall k | 0 <= k < |rows|
      ensures Saved(rows, refs)[k].position == k
    {
      SavedAt(rows, refs, k);
    }
  }

  /** Saved is what the two writes leave: the renumbered items joined with the new play orders, queried again. */
  lemma SavedIsReadBack(rows: seq<Row>, refs: seq<Ref>, orders: map<AssetId, int>, after: map<AssetId, int>)
    requires JoinedWith(rows, orders) && OrdersSaved(orders, after, refs)
    ensures forall i: nat :: i in Sequence(rows, refs) <==> i < |rows|
    ensures Requery(Map(Joined(after), Renumbered(rows, Sequence(rows, refs)))) == Saved(rows, refs)
  {
    hide Sequence, Renumbered, Joined, InjectiveOn;
    SavedByRow(rows, refs, orders, after);
    SavedSorted(rows, refs);
    var written := Renumbered(rows, Sequence(rows, refs));
    MapPermutation(Joined(after), Requery(written), written);
    SortedUnique(RowKey, Saved(rows, refs), Requery(Map(Joined(after), written)));
  }

  /** save_schedule_ordering: the play orders, then the positions. */
  method SaveScheduleOrdering(items: array<Row>, orders: map<AssetId, int>, refs: seq<Ref>) returns (after: map<AssetId, int>)
    requires Queried(items[..]) && OneItemPerChild(items[..]) && JoinedWith(items[..], orders)
    modifies items
    ensures OrdersSaved(orders, after, refs)
    ensures forall i: nat :: i in Sequence(old(items[..]), refs) <==> i < items.Length
    ensures items[..] == Renumbered(old(items[..]), Sequence(old(items[..]), refs))
    ensures Requery(Map(Joined(after), items[..])) == Saved(old(items[..]), refs)
  {
    hide Sequence, Renumbered, Joined, Saved, Requery;
    after := SavePlayOrders(orders, refs);
    SavedIsReadBack(items[..], refs, orders, after);
    var sequence := RenumberDefault(items, refs);
  }

  // ----- the mirror that every asset save runs

  ghost predicate Climbs(rows: seq<Row>) {
    forall j, k :: 0 <= j < k < |rows| && rows[j].target.ToAsset? && rows[k].target.ToAsset? ==>
                     rows[j].target.playOrder <= rows[k].target.playOrder
  }

  /** On rows numbered 0..n-1 the mirror does nothing exactly when play_order never drops along them. */
  lemma MirrorIdleIff(rows: seq<Row>)
    requires forall k :: 0 <= k < |rows| ==> rows[k].position == k
    ensures Mirrored(rows) == rows <==> Climbs(rows)
  {
    if Mirrored(rows) == rows {
      MirrorFixpointOnly(rows);
      forall j, k | 0 <= j < k < |rows| && rows[j].target.ToAsset? && rows[k].target.ToAsset?
        ensures rows[j].target.playOrder <= rows[k].target.playOrder
      {
        assert rows[j] in rows && rows[k] in rows;
      }
    }
    if Climbs(rows) {
      MirrorFixpoint(rows);
    }
  }

  predicate BothAssets(rows: seq<Row>, i: nat, j: nat) {
    i < |rows| && j < |rows| && rows[i].target.ToAsset? && rows[j].target.ToAsset?
  }

  predicate IsListed(rows: seq<Row>, refs: seq<Ref>, i: nat) {
    i < |rows| && RefOf(rows[i]) in refs
  }

  // Of two listed assets, the one first mentioned earlier is last mentioned earlier.
  ghost predicate MentionsAgree(rows: seq<Row>, refs: seq<Ref>) {
    forall i: nat, j: nat :: BothAssets(rows, i, j) && IsListed(rows, refs, i) && IsListed(rows, refs, j)
                             && Rank(refs, RefOf(rows[i])) < Rank(refs, RefOf(rows[j])) ==>
                               NewOrder(rows[i], refs) <= NewOrder(rows[j], refs)
  }

  // The unlisted assets follow play_order among themselves,
  ghost predicate RestClimbs(rows: seq<Row>, refs: seq<Ref>) {
    forall i: nat, j: nat :: BothAssets(rows, i, j) && i < j && !IsListed(rows, refs, i) && !IsListed(rows, refs, j) ==>
                               rows[i].target.playOrder <= rows[j].target.playOrder
  }

  // and none of them comes before a listed one.
  ghost predicate RestAbove(rows: seq<Row>, refs: seq<Ref>) {
    forall i: nat, j: nat :: BothAssets(rows, i, j) && IsListed(rows, refs, i) && !IsListed(rows, refs, j) ==>
                               NewOrder(rows[i], refs) <= rows[j].target.playOrder
  }

  // Along the new order, which is that of the rank keys, play orders do not drop.
  ghost predicate RanksClimb(rows: seq<Row>, refs: seq<Ref>) {
    forall i: nat, j: nat :: BothAssets(rows, i, j) && KeyLess(RankKey(rows, refs, i), RankKey(rows, refs, j)) ==>
                               NewOrder(rows[i], refs) <= NewOrder(rows[j], refs)
  }

  lemma SequencePlace(rows: seq<Row>, refs: seq<Ref>, i: nat) returns (k: nat)
    requires i < |rows|
    ensures k < |Sequence(rows, refs)| == |rows| && Sequence(rows, refs)[k] == i
    ensures Saved(rows, refs)[k] == SavedRow(rows[i], refs, k)
  {
    hide Sequence, Saved, RankKey;
    SequenceByRank(rows, refs);
    assert i in Sequence(rows, refs);
    k :| 0 <= k < |Sequence(rows, refs)| && Sequence(rows, refs)[k] == i;
    SavedAt(rows, refs, k);
  }

  lemma PlacesByRank(rows: seq<Row>, refs: seq<Ref>, a: nat, b: nat)
    requires a < |Sequence(rows, refs)| && b < |Sequence(rows, refs)|
    ensures a < b <==> KeyLess(RankKey(rows, refs, Sequence(rows, refs)[a]), RankKey(rows, refs, Sequence(rows, refs)[b]))
  {
    hide Sequence, RankKey;
    SequenceByRank(rows, refs);
  }

  lemma SavedClimbsIff(rows: seq<Row>, refs: seq<Ref>)
    ensures Climbs(Saved(rows, refs)) <==> RanksClimb(rows, refs)
  {
    hide Sequence, Saved, RankKey, NewOrder;
    var s := Saved(rows, refs);
    if Climbs(s) {
      forall i: nat, j: nat | BothAssets(rows, i, j) && KeyLess(RankKey(rows, refs, i), RankKey(rows, refs, j))
        ensures NewOrder(rows[i], refs) <= NewOrder(rows[j], refs)
      {
        var a := SequencePlace(rows, refs, i);
        var b := SequencePlace(rows, refs, j);
        PlacesByRank(rows, refs, a, b);
      }
    }
    if RanksClimb(rows, refs) {
      forall j, k | 0 <= j < k < |s| && s[j].target.ToAsset? && s[k].target.ToAsset?
        ensures s[j].target.playOrder <= s[k].target.playOrder
      {
        SavedAt(rows, refs, j);
        SavedAt(rows, refs, k);
        PlacesByRank(rows, refs, j, k);
        assert BothAssets(rows, Sequence(rows, refs)[j], Sequence(rows, refs)[k]);
      }
    }
  }

  // Where a row's rank key puts it.
  lemma RankOf(rows: seq<Row>, refs: seq<Ref>, i: nat)
    requires i < |rows|
    ensures RankKey(rows, refs, i) == Key(Rank(refs, RefOf(rows[i])), i)
    ensures IsListed(rows, refs, i) <==> Rank(refs, RefOf(rows[i])) < |refs|
    ensures rows[i].target.ToAsset? && !IsListed(rows, refs, i) ==> NewOrder(rows[i], refs) == rows[i].target.playOrder
  {
    RankBelow(refs, RefOf(rows[i]), |refs|);
    assert refs[..|refs|] == refs;
  }

  lemma SameMention(rows: seq<Row>, refs: seq<Ref>, i: nat, j: nat)
    requires BothAssets(rows, i, j) && Rank(refs, RefOf(rows[i])) == Rank(refs, RefOf(rows[j])) < |refs|
    ensures NewOrder(rows[i], refs) == NewOrder(rows[j], refs)
  {
    hide LastIndex;
    var k := Rank(refs, RefOf(rows[i]));
    assert refs[k] == RefOf(rows[i]) == RefOf(rows[j]);
    assert RefOf(rows[i]) in refs;
  }

  lemma RanksClimbIff(rows: seq<Row>, refs: seq<Ref>)
    ensures RanksClimb(rows, refs) <==> MentionsAgree(rows, refs) && RestClimbs(rows, refs) && RestAbove(rows, refs)
  {
    hide NewOrder, RankKey, IsListed;
    forall i: nat | i < |rows|
      ensures RankKey(rows, refs, i) == Key(Rank(refs, RefOf(rows[i])), i)
      ensures IsListed(rows, refs, i) <==> Rank(refs, RefOf(rows[i])) < |refs|
      ensures rows[i].target.ToAsset? && !IsListed(rows, refs, i) ==> NewOrder(rows[i], refs) == rows[i].target.playOrder
    {
      RankOf(rows, refs, i);
    }
    if MentionsAgree(rows, refs) && RestClimbs(rows, refs) && RestAbove(rows, refs) {
      forall i: nat, j: nat | BothAssets(rows, i, j) && KeyLess(RankKey(rows, refs, i), RankKey(rows, refs, j))
        ensures NewOrder(rows[i], refs) <= NewOrder(rows[j], refs)
      {
        if Rank(refs, RefOf(rows[i])) == Rank(refs, RefOf(rows[j])) < |refs| {
          SameMention(rows, refs, i, j);
        }
      }
    }
  }

  /**
   For any refs, the next mirror leaves a saved drag order alone exactly when listed assets are last mentioned
   in the order they are first mentioned, unlisted ones follow play_order, and none of these is below a listed one.
   */
  lemma SavedOrderSurvivesMirrorIff(rows: seq<Row>, refs: seq<Ref>)
    ensures Mirrored(Saved(rows, refs)) == Saved(rows, refs) <==>
            MentionsAgree(rows, refs) && RestClimbs(rows, refs) && RestAbove(rows, refs)
  {
    hide Mirrored, Saved, RanksClimb, MentionsAgree, RestClimbs, RestAbove, Climbs;
    SavedSorted(rows, refs);
    MirrorIdleIff(Saved(rows, refs));
    SavedClimbsIff(rows, refs);
    RanksClimbIff(rows, refs);
  }

  lemma {:induction false} AssetIdsAppend(a: seq<Ref>, b: seq<Ref>)
    ensures AssetIds(a + b) == AssetIds(a) + AssetIds(b)
  {
    if a == [] {
      assert a + b == b;
    } else {
      assert (a + b)[1..] == a[1..] + b;
      AssetIdsAppend(a[1..], b);
    }
  }

  lemma IndexSplit<T>(before: seq<T>, after: seq<T>, x: T, y: T)
    requires Distinct(before + after) && x in before && y !in before && y in after
    ensures LastIndex(before + after, x) < LastIndex(before + after, y)
  {
    hide LastIndex;
    var s := before + after;
    var i :| 0 <= i < |before| && before[i] == x;
    var m, n := LastIndex(s, x), LastIndex(s, y);
    assert s[i] == s[m];
    assert forall k :: 0 <= k < |before| ==> s[k] == before[k] && before[k] in before;
  }

  // With no asset listed twice, new play orders follow first mentions.
  lemma PlayOrderFollowsRank(refs: seq<Ref>, a: AssetId, b: AssetId)
    requires Distinct(AssetIds(refs)) && AssetRef(a) in refs && AssetRef(b) in refs
    requires Rank(refs, AssetRef(a)) < Rank(refs, AssetRef(b))
    ensures LastIndex(AssetIds(refs), a) < LastIndex(AssetIds(refs), b)
  {
    hide Rank, LastIndex, AssetIds;
    var r := Rank(refs, AssetRef(b));
    AssetIdsAppend(refs[..r], refs[r..]);
    assert refs == refs[..r] + refs[r..];
    RankBelow(refs, AssetRef(a), r);
    IndexSplit(AssetIds(refs[..r]), AssetIds(refs[r..]), a, b);
  }

  /** With no asset listed twice, mentions agree by themselves. */
  lemma DistinctMentionsAgree(rows: seq<Row>, refs: seq<Ref>)
    requires Distinct(AssetIds(refs))
    ensures MentionsAgree(rows, refs)
  {
    hide Rank, LastIndex, AssetIds;
    forall i: nat, j: nat | BothAssets(rows, i, j) && IsListed(rows, refs, i) && IsListed(rows, refs, j)
                            && Rank(refs, RefOf(rows[i])) < Rank(refs, RefOf(rows[j]))
      ensures NewOrder(rows[i], refs) <= NewOrder(rows[j], refs)
    {
      PlayOrderFollowsRank(refs, rows[i].target.asset, rows[j].target.asset);
    }
  }

  /** A then B then A again: the items stand as A, B, but the play orders say B, A. */
  lemma RepeatedMentionIsUndone()
    ensures var rows := [Row(1, ToAsset("A", 0), 0), Row(2, ToAsset("B", 1), 1)];
            var refs := [AssetRef("A"), AssetRef("B"), AssetRef("A")];
            && (forall r :: r in rows ==> RefOf(r) in refs)
            && Mirrored(Saved(rows, refs)) != Saved(rows, refs)
  {
    hide Mirrored, Saved, MentionsAgree, RestClimbs, RestAbove;
    var rows := [Row(1, ToAsset("A", 0), 0), Row(2, ToAsset("B", 1), 1)];
    var refs := [AssetRef("A"), AssetRef("B"), AssetRef("A")];
    SavedOrderSurvivesMirrorIff(rows, refs);
    MentionsDisagree(rows, refs);
  }

  lemma MentionsDisagree(rows: seq<Row>, refs: seq<Ref>)
    requires rows == [Row(1, ToAsset("A", 0), 0), Row(2, ToAsset("B", 1), 1)]
    requires refs == [AssetRef("A"), AssetRef("B"), AssetRef("A")]
    ensures !MentionsAgree(rows, refs)
  {
    RepeatedMentions(refs);
    hide Rank, LastIndex, AssetIds;
    assert BothAssets(rows, 0, 1) && IsListed(rows, refs, 0) && IsListed(rows, refs, 1);
  }

  lemma RepeatedMentions(refs: seq<Ref>)
    requires refs == [AssetRef("A"), AssetRef("B"), AssetRef("A")]
    ensures Rank(refs, AssetRef("A")) == 0 && Rank(refs, AssetRef("B")) == 1
    ensures "A" in AssetIds(refs) && LastIndex(AssetIds(refs), "A") == 2
    ensures "B" in AssetIds(refs) && LastIndex(AssetIds(refs), "B") == 1
  {
    assert refs[1..][1..] == [AssetRef("A")];
    assert AssetIds([AssetRef("A")]) == ["A"];
    assert AssetIds(refs) == ["A", "B", "A"];
    var ids := ["A", "B", "A"];
    assert ids[..2] == ["A", "B"];
  }
}
