/** The drag order of the schedule: renumbering items by where their row was first mentioned. */
module ScheduleOrdering {
  import opened Collections
  import opened PlayWindow
  import opened PlaylistStore
  import opened Ordering

  // A row of the schedule as it arrives: an asset id, or "playlist:" and a playlist id.
  datatype Ref = AssetRef(asset: AssetId) | PlaylistRef(playlist: PlaylistId)

  function RefOf(r: Row): Ref {
    match r.target
    case ToAsset(a, _) => AssetRef(a)
    case ToPlaylist(p) => PlaylistRef(p)
  }

  function Range(n: nat): (r: seq<nat>)
    ensures |r| == n && forall i :: 0 <= i < n ==> r[i] == i
  {
    seq(n, i requires 0 <= i < n => i)
  }

  // Where a ref is first mentioned; past the end if never.
  function Rank(refs: seq<Ref>, ref: Ref): (k: nat)
    ensures k <= |refs|
    ensures k < |refs| ==> refs[k] == ref
    ensures ref !in refs[..k]
  {
    if refs == [] || refs[0] == ref then 0 else
      var k := 1 + Rank(refs[1..], ref);
      assert refs[..k] == [refs[0]] + refs[1..][..k - 1];
      k
  }

  function RankKey(rows: seq<Row>, refs: seq<Ref>, i: nat): Key {
    Key(if i < |rows| then Rank(refs, RefOf(rows[i])) else 0, i)
  }

  /** The new order, as places in the old one: by first mention, then by prior order; unmentioned rows last. */
  function Sequence(rows: seq<Row>, refs: seq<Ref>): seq<nat> {
    SortBy((i: nat) => RankKey(rows, refs, i), Range(|rows|))
  }

  function Named(rows: seq<Row>, ref: Ref): nat -> bool {
    (i: nat) => i < |rows| && RefOf(rows[i]) == ref
  }

  function Unnamed(rows: seq<Row>, refs: seq<Ref>): nat -> bool {
    (i: nat) => i < |rows| && RefOf(rows[i]) !in refs
  }

  // The rows a ref stands for, in prior order.
  function Group(rows: seq<Row>, ref: Ref): seq<nat> {
    Filter<nat>(Named(rows, ref), Range(|rows|))
  }

  // Mentioned rows up to the r-th ref, as the loop lists them: a repeated ref adds nothing.
  function Listed(rows: seq<Row>, refs: seq<Ref>, r: nat): seq<nat>
    requires r <= |refs|
  {
    if r == 0 then [] else
      Listed(rows, refs, r - 1) + if refs[r - 1] in refs[..r - 1] then [] else Group(rows, refs[r - 1])
  }

  function Unlisted(rows: seq<Row>, refs: seq<Ref>): seq<nat> {
    Filter<nat>(Unnamed(rows, refs), Range(|rows|))
  }

  ghost predicate ByRank(rows: seq<Row>, refs: seq<Ref>, s: seq<nat>) {
    forall a, b :: 0 <= a < b < |s| ==> KeyLess(RankKey(rows, refs, s[a]), RankKey(rows, refs, s[b]))
  }

  lemma RankBelow(refs: seq<Ref>, ref: Ref, r: nat)
    requires r <= |refs|
    ensures Rank(refs, ref) < r <==> ref in refs[..r]
  {
    var k := Rank(refs, ref);
    if k < r {
      assert refs[..r][k] == ref;
    } else {
      assert refs[..r] == refs[..k][..r];
    }
  }

  predicate Increasing(s: seq<nat>) {
    forall a, b :: 0 <= a < b < |s| ==> s[a] < s[b]
  }

  lemma IncreasingFilter(keep: nat -> bool, n: nat)
    ensures Increasing(Filter<nat>(keep, Range(n)))
  {
    var key := (i: nat) => Key(i, 0);
    FilterStrict<nat>(keep, key, Range(n));
    var s := Filter<nat>(keep, Range(n));
    forall a, b | 0 <= a < b < |s|
      ensures s[a] < s[b]
    {
      assert KeyLess(key(s[a]), key(s[b]));
    }
  }

  lemma InRange(n: nat, i: nat)
    ensures i in Range(n) <==> i < n
  {
    if i < n {
      assert Range(n)[i] == i;
    }
  }

  lemma InGroup(rows: seq<Row>, ref: Ref, i: nat)
    ensures i in Group(rows, ref) <==> i < |rows| && RefOf(rows[i]) == ref
  {
    InRange(|rows|, i);
  }

  lemma {:induction false} InListed(rows: seq<Row>, refs: seq<Ref>, r: nat, i: nat)
    requires r <= |refs|
    ensures i in Listed(rows, refs, r) <==> i < |rows| && RefOf(rows[i]) in refs[..r]
    decreases r
  {
    hide Group;
    if r > 0 {
      InListed(rows, refs, r - 1, i);
      InGroup(rows, refs[r - 1], i);
      assert refs[..r] == refs[..r - 1] + [refs[r - 1]];
    }
  }

  lemma AppendByRank(rows: seq<Row>, refs: seq<Ref>, s: seq<nat>, t: seq<nat>, r: nat)
    requires ByRank(rows, refs, s)
    requires forall i :: i in s ==> RankKey(rows, refs, i).major < r
    requires forall i :: i in t ==> RankKey(rows, refs, i).major == r
    requires Increasing(t)
    ensures ByRank(rows, refs, s + t)
  {
    hide RankKey;
    var u := s + t;
    forall a, b | 0 <= a < b < |u|
      ensures KeyLess(RankKey(rows, refs, u[a]), RankKey(rows, refs, u[b]))
    {
      if b < |s| {
        assert u[a] == s[a] && u[b] == s[b];
      } else {
        assert u[b] == t[b - |s|] && u[b] in t;
        MinorIsIndex(rows, refs, u[a]);
        MinorIsIndex(rows, refs, u[b]);
        if a < |s| {
          assert u[a] in s;
        } else {
          assert u[a] == t[a - |s|] && u[a] in t;
        }
      }
    }
  }

  lemma MinorIsIndex(rows: seq<Row>, refs: seq<Ref>, i: nat)
    ensures RankKey(rows, refs, i).minor == i
  {
  }

  lemma NothingByRank(rows: seq<Row>, refs: seq<Ref>)
    ensures ByRank(rows, refs, [])
  {
  }

  lemma {:induction false} ListedByRank(rows: seq<Row>, refs: seq<Ref>, r: nat)
    requires r <= |refs|
    ensures ByRank(rows, refs, Listed(rows, refs, r))
    ensures forall i :: i in Listed(rows, refs, r) ==> RankKey(rows, refs, i).major < r
    decreases r
  {
    hide Group, RankKey, ByRank;
    if r == 0 {
      NothingByRank(rows, refs);
    } else {
      ListedByRank(rows, refs, r - 1);
      if refs[r - 1] in refs[..r - 1] {
        assert Listed(rows, refs, r) == Listed(rows, refs, r - 1);
      } else {
        GroupRank(rows, refs, r - 1);
        AppendByRank(rows, refs, Listed(rows, refs, r - 1), Group(rows, refs[r - 1]), r - 1);
      }
    }
  }

  // The rows of a ref mentioned for the first time at r.
  lemma GroupRank(rows: seq<Row>, refs: seq<Ref>, r: nat)
    requires r < |refs| && refs[r] !in refs[..r]
    ensures forall i :: i in Group(rows, refs[r]) ==> RankKey(rows, refs, i).major == r
    ensures Increasing(Group(rows, refs[r]))
  {
    IncreasingFilter(Named(rows, refs[r]), |rows|);
    RankBelow(refs, refs[r], r);
    RankBelow(refs, refs[r], r + 1);
    assert refs[..r + 1][r] == refs[r];
    forall i | i in Group(rows, refs[r])
      ensures RankKey(rows, refs, i).major == r
    {
      InGroup(rows, refs[r], i);
    }
  }

  lemma UnlistedRank(rows: seq<Row>, refs: seq<Ref>, i: nat)
    ensures i in Unlisted(rows, refs) <==> i < |rows| && RefOf(rows[i]) !in refs
    ensures i in Unlisted(rows, refs) ==> RankKey(rows, refs, i).major == |refs|
  {
    InRange(|rows|, i);
    if i < |rows| {
      RankBelow(refs, RefOf(rows[i]), |refs|);
      assert refs[..|refs|] == refs;
    }
  }

  lemma ByRankDistinct(rows: seq<Row>, refs: seq<Ref>, s: seq<nat>)
    requires ByRank(rows, refs, s)
    ensures Distinct(s)
  {
  }

  lemma WholeByRank(rows: seq<Row>, refs: seq<Ref>)
    ensures ByRank(rows, refs, Listed(rows, refs, |refs|) + Unlisted(rows, refs))
  {
    ListedByRank(rows, refs, |refs|);
    forall i | i in Unlisted(rows, refs)
      ensures RankKey(rows, refs, i).major == |refs|
    {
      UnlistedRank(rows, refs, i);
    }
    IncreasingFilter(Unnamed(rows, refs), |rows|);
    AppendByRank(rows, refs, Listed(rows, refs, |refs|), Unlisted(rows, refs), |refs|);
  }

  lemma WholeHolds(rows: seq<Row>, refs: seq<Ref>, i: nat)
    ensures i in Listed(rows, refs, |refs|) + Unlisted(rows, refs) <==> i in Range(|rows|)
  {
    InListed(rows, refs, |refs|, i);
    UnlistedRank(rows, refs, i);
    InRange(|rows|, i);
    assert refs[..|refs|] == refs;
  }

  /** The loops list the rows in the specified order. */
  lemma ListedIsSequence(rows: seq<Row>, refs: seq<Ref>)
    ensures Listed(rows, refs, |refs|) + Unlisted(rows, refs) == Sequence(rows, refs)
  {
    var whole := Listed(rows, refs, |refs|) + Unlisted(rows, refs);
    WholeByRank(rows, refs);
    ByRankDistinct(rows, refs, whole);
    forall i: nat
      ensures i in whole <==> i in Range(|rows|)
    {
      WholeHolds(rows, refs, i);
    }
    DistinctSameElements(whole, Range(|rows|));
    SortedSequence(rows, refs, whole);
  }

  lemma SortedSequence(rows: seq<Row>, refs: seq<Ref>, whole: seq<nat>)
    requires ByRank(rows, refs, whole) && multiset(whole) == multiset(Range(|rows|))
    ensures whole == Sequence(rows, refs)
  {
    hide RankKey;
    var key := (i: nat) => RankKey(rows, refs, i);
    forall a, b | 0 <= a < b < |whole|
      ensures KeyLeq(key(whole[a]), key(whole[b]))
    {
      assert KeyLess(RankKey(rows, refs, whole[a]), RankKey(rows, refs, whole[b]));
    }
    forall x, y | x in whole && y in whole && key(x) == key(y)
      ensures x == y
    {
      MinorIsIndex(rows, refs, x);
      MinorIsIndex(rows, refs, y);
    }
    SortedUnique(key, whole, Sequence(rows, refs));
  }

  lemma SequenceByRank(rows: seq<Row>, refs: seq<Ref>)
    ensures ByRank(rows, refs, Sequence(rows, refs))
    ensures Distinct(Sequence(rows, refs)) && |Sequence(rows, refs)| == |rows|
    ensures forall i: nat :: i in Sequence(rows, refs) <==> i < |rows|
  {
    ListedIsSequence(rows, refs);
    WholeByRank(rows, refs);
    ByRankDistinct(rows, refs, Sequence(rows, refs));
    SameElements(Sequence(rows, refs), Range(|rows|));
    forall i: nat
      ensures i in Sequence(rows, refs) <==> i < |rows|
    {
      InRange(|rows|, i);
    }
  }

  /** Rows of one mentioned ref stay together, in prior order, at the place of its first mention. */
  lemma GroupsStayTogether(rows: seq<Row>, refs: seq<Ref>, x: nat, y: nat, z: nat, i: nat, j: nat, k: nat)
    requires x < y < z < |Sequence(rows, refs)|
    requires Sequence(rows, refs)[x] == i && Sequence(rows, refs)[y] == j && Sequence(rows, refs)[z] == k
    requires i < |rows| && j < |rows| && k < |rows|
    requires RefOf(rows[i]) == RefOf(rows[k]) && RefOf(rows[i]) in refs
    ensures RefOf(rows[j]) == RefOf(rows[i]) && i < j < k
  {
    SequenceByRank(rows, refs);
    RankBelow(refs, RefOf(rows[i]), |refs|);
    assert refs[..|refs|] == refs;
    assert KeyLess(RankKey(rows, refs, i), RankKey(rows, refs, j));
    assert KeyLess(RankKey(rows, refs, j), RankKey(rows, refs, k));
  }

  /**
   Which of two rows stands first: the one whose ref is mentioned first, a mentioned one before an
   unmentioned one, and otherwise the one that stood first before.
   */
  lemma SequencePlaces(rows: seq<Row>, refs: seq<Ref>, a: nat, b: nat)
    requires a < b < |Sequence(rows, refs)| && Sequence(rows, refs)[a] < |rows| && Sequence(rows, refs)[b] < |rows|
    ensures var i, j := Sequence(rows, refs)[a], Sequence(rows, refs)[b];
            var x, y := RefOf(rows[i]), RefOf(rows[j]);
            && (y in refs ==> x in refs && (x == y || exists k :: 0 <= k < |refs| && refs[k] == x && y !in refs[..k]))
            && (x == y || (x !in refs && y !in refs) ==> i < j)
  {
    hide Sequence;
    var i, j := Sequence(rows, refs)[a], Sequence(rows, refs)[b];
    var x, y := RefOf(rows[i]), RefOf(rows[j]);
    SequenceByRank(rows, refs);
    assert KeyLess(RankKey(rows, refs, i), RankKey(rows, refs, j));
    RankBelow(refs, x, |refs|);
    RankBelow(refs, y, |refs|);
    RankBelow(refs, y, Rank(refs, x));
    assert refs[..|refs|] == refs;
    if y in refs {
      assert refs[Rank(refs, x)] == x;
    }
  }

  // ----- renumbering

  function Numbers(n: nat): (r: seq<int>)
    ensures |r| == n && forall i :: 0 <= i < n ==> r[i] == i
  {
    seq(n, i requires 0 <= i < n => i)
  }

  /** The rows with position k for the k-th of the order. */
  function Renumbered(rows: seq<Row>, order: seq<nat>): seq<Row>
    requires forall i :: i in order ==> i < |rows|
  {
    Assigned(rows, order, Numbers(|order|), |order|)
  }

  /** Positions become exactly 0..n-1, and reading the rows back gives the order. */
  lemma RenumberedReadsBack(rows: seq<Row>, order: seq<nat>)
    requires Distinct(order) && |order| == |rows| && forall i: nat :: i in order <==> i < |rows|
    ensures |Renumbered(rows, order)| == |rows|
    ensures |Requery(Renumbered(rows, order))| == |rows|
    ensures forall k :: 0 <= k < |rows| ==> order[k] < |rows|
                                             && Requery(Renumbered(rows, order))[k] == rows[order[k]].(position := k)
  {
    var r := Renumbered(rows, order);
    AssignedAt(rows, order, Numbers(|order|), |order|);
    var back := Map((i: nat) => if i < |r| then r[i] else Row(0, ToPlaylist(0), 0), order);
    forall k | 0 <= k < |rows|
      ensures order[k] < |rows| && back[k] == rows[order[k]].(position := k)
    {
      assert order[k] in order;
    }
    BackIsPermutation(r, order, back);
    SortedUnique(RowKey, back, Requery(r));
  }

  lemma BackIsPermutation(r: seq<Row>, order: seq<nat>, back: seq<Row>)
    requires Distinct(order) && |order| == |r| == |back| && forall i: nat :: i in order <==> i < |r|
    requires forall k :: 0 <= k < |r| ==> order[k] < |r| && back[k] == r[order[k]]
    ensures multiset(back) == multiset(r)
  {
    if r != [] {
      var at := (i: nat) => if i < |r| then r[i] else r[0];
      assert Distinct(Range(|r|));
      forall i: nat
        ensures i in order <==> i in Range(|r|)
      {
        InRange(|r|, i);
      }
      DistinctSameElements(order, Range(|r|));
      MapPermutation(at, order, Range(|r|));
      assert Map(at, order) == back;
      assert Map(at, Range(|r|)) == r;
    }
  }

  // ----- save_schedule_ordering

  // Each nested playlist has one item: child_playlist is one-to-one.
  predicate OneItemPerChild(rows: seq<Row>) {
    forall i, j :: 0 <= i < j < |rows| && rows[i].target.ToPlaylist? ==> rows[i].target != rows[j].target
  }

  function PlaceOf(byPlaylist: map<PlaylistId, nat>, p: PlaylistId): seq<nat> {
    if p in byPlaylist then [byPlaylist[p]] else []
  }

  function GroupBelow(rows: seq<Row>, ref: Ref, k: nat): seq<nat> {
    Filter<nat>(Named(rows, ref), Range(k))
  }

  lemma GroupStep(rows: seq<Row>, ref: Ref, k: nat)
    requires k < |rows|
    ensures GroupBelow(rows, ref, k + 1) == GroupBelow(rows, ref, k) + if RefOf(rows[k]) == ref then [k] else []
  {
    assert Range(k + 1) == Range(k) + [k];
    FilterAppend<nat>(Named(rows, ref), Range(k), [k]);
  }

  lemma EarlierChild(rows: seq<Row>, p: PlaylistId, k: nat)
    requires OneItemPerChild(rows) && k < |rows| && rows[k].target == ToPlaylist(p)
    ensures GroupBelow(rows, PlaylistRef(p), k) == []
  {
    var g := GroupBelow(rows, PlaylistRef(p), k);
    if g != [] {
      assert g[0] in g;
      InRange(k, g[0]);
    }
  }

  lemma GroupSteps(rows: seq<Row>, k: nat)
    requires k < |rows|
    ensures forall ref :: GroupBelow(rows, ref, k + 1) ==
                          GroupBelow(rows, ref, k) + if RefOf(rows[k]) == ref then [k] else []
  {
    forall ref
      ensures GroupBelow(rows, ref, k + 1) == GroupBelow(rows, ref, k) + if RefOf(rows[k]) == ref then [k] else []
    {
      GroupStep(rows, ref, k);
    }
  }

  lemma GroupEnds(rows: seq<Row>)
    ensures forall ref :: GroupBelow(rows, ref, 0) == []
    ensures forall ref :: GroupBelow(rows, ref, |rows|) == Group(rows, ref)
  {
  }

  // items_by_asset and child_by_playlist.
  method GroupItems(rows: seq<Row>) returns (byAsset: map<AssetId, seq<nat>>, byPlaylist: map<PlaylistId, nat>)
    requires OneItemPerChild(rows)
    ensures forall a :: Lookup(byAsset, a, []) == Group(rows, AssetRef(a))
    ensures forall p :: PlaceOf(byPlaylist, p) == Group(rows, PlaylistRef(p))
  {
    hide Group, GroupBelow, OneItemPerChild;
    byAsset, byPlaylist := map[], map[];
    GroupEnds(rows);
    for k := 0 to |rows|
      invariant forall a :: Lookup(byAsset, a, []) == GroupBelow(rows, AssetRef(a), k)
      invariant forall p :: PlaceOf(byPlaylist, p) == GroupBelow(rows, PlaylistRef(p), k)
    {
      GroupSteps(rows, k);
      match rows[k].target
      case ToAsset(a, _) =>
        byAsset := byAsset[a := Lookup(byAsset, a, []) + [k]];
      case ToPlaylist(p) =>
        EarlierChild(rows, p, k);
        byPlaylist := byPlaylist[p := k];
    }
  }

  ghost predicate SeenAre(rows: seq<Row>, seen: set<nat>, sequence: seq<nat>) {
    forall i: nat :: i < |rows| ==> (rows[i].id in seen <==> i in sequence)
  }

  // A ref's rows: all of them seen before, or none.
  method AppendUnseen(rows: seq<Row>, group: seq<nat>, sequence: seq<nat>, seen: set<nat>) returns (s: seq<nat>, t: set<nat>)
    requires DistinctBy((r: Row) => r.id, rows) && SeenAre(rows, seen, sequence)
    requires Increasing(group) && forall i :: i in group ==> i < |rows|
    requires (forall i :: i in group ==> i in sequence) || (forall i :: i in group ==> i !in sequence)
    ensures s == sequence + if group != [] && group[0] in sequence then [] else group
    ensures SeenAre(rows, t, s)
  {
    s, t := sequence, seen;
    for k := 0 to |group|
      invariant s == sequence + if group != [] && group[0] in sequence then [] else group[..k]
      invariant SeenAre(rows, t, s)
    {
      assert group[k] in group && group[0] in group;
      assert group[..k + 1] == group[..k] + [group[k]];
      assert group[k] !in group[..k];
      if rows[group[k]].id !in t {
        s, t := s + [group[k]], t + {rows[group[k]].id};
      }
    }
    assert group[..|group|] == group;
  }
}
