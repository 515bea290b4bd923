/** The parent relation of the playlist tree, the edit-time cycle gate, and the edits it guards. */
module Nesting {
  import opened Collections
  import opened PlayWindow
  import opened PlaylistStore

  // ----- the parent relation

  /** The parent_item reverse one-to-one. */
  function ParentItem(items: seq<Item>, id: PlaylistId): (r: Option<Item>)
    ensures r.Some? ==> r.value in items && r.value.child == Some(id)
    ensures r.None? ==> forall i :: i in items ==> i.child != Some(id)
  {
    if items == [] then None
    else if items[0].child == Some(id) then Some(items[0])
    else ParentItem(items[1..], id)
  }

  // At most n ancestors between `id` and its root.
  predicate RootWithin(items: seq<Item>, id: PlaylistId, n: nat)
    decreases n
  {
    var parent := ParentItem(items, id);
    parent.None? || (n > 0 && RootWithin(items, parent.value.owner, n - 1))
  }

  // `id` and its first n ancestors.
  function Lineage(items: seq<Item>, id: PlaylistId, n: nat): seq<PlaylistId>
    decreases n
  {
    var parent := ParentItem(items, id);
    [id] + if parent.None? || n == 0 then [] else Lineage(items, parent.value.owner, n - 1)
  }

  /** Every playlist climbs to a root in finitely many steps: the parent relation has no cycle. */
  ghost predicate Forest(items: seq<Item>) {
    forall id :: ReachesRoot(items, id)
  }

  ghost predicate ReachesRoot(items: seq<Item>, id: PlaylistId) {
    exists n :: RootWithin(items, id, n)
  }

  ghost predicate OneParent(items: seq<Item>) {
    forall i, j :: i in items && j in items && i.child.Some? && i.child == j.child ==> i == j
  }

  // The line above `of` is more than MAX_PLAYLIST_DEPTH playlists long, or meets the candidate.
  predicate GateRefuses(items: seq<Item>, candidate: PlaylistId, of: PlaylistId) {
    !(RootWithin(items, of, MAX_PLAYLIST_DEPTH - 1) && candidate !in Lineage(items, of, MAX_PLAYLIST_DEPTH - 1))
  }

  /**
   The cycle gate. It answers False exactly when the whole line above `of` is at most
   MAX_PLAYLIST_DEPTH playlists long and avoids the candidate.
   */
  method PlaylistIsSelfOrAncestor(items: seq<Item>, candidate: PlaylistId, of: PlaylistId) returns (refuse: bool)
    ensures refuse <==> GateRefuses(items, candidate, of)
  {
    var node := Some(of);
    for k := 0 to MAX_PLAYLIST_DEPTH + 1
      invariant node.None? && k <= MAX_PLAYLIST_DEPTH ==>
                  RootWithin(items, of, MAX_PLAYLIST_DEPTH - 1) && candidate !in Lineage(items, of, MAX_PLAYLIST_DEPTH - 1)
      invariant node.Some? && k < MAX_PLAYLIST_DEPTH ==>
                  var left := MAX_PLAYLIST_DEPTH - 1 - k;
                  && (RootWithin(items, of, MAX_PLAYLIST_DEPTH - 1) <==> RootWithin(items, node.value, left))
                  && (candidate in Lineage(items, of, MAX_PLAYLIST_DEPTH - 1) <==> candidate in Lineage(items, node.value, left))
      invariant k > MAX_PLAYLIST_DEPTH || (node.Some? && k == MAX_PLAYLIST_DEPTH) ==> !RootWithin(items, of, MAX_PLAYLIST_DEPTH - 1)
    {
      if node.None? {
        return false;
      }
      if node.value == candidate {
        return true;
      }
      var parent := ParentItem(items, node.value);
      node := if parent.Some? then Some(parent.value.owner) else None;
    }
    return true;
  }

  // ----- how edits of the item table move the parent relation

  lemma ParentItemIs(items: seq<Item>, i: Item, id: PlaylistId)
    requires OneParent(items) && i in items && i.child == Some(id)
    ensures ParentItem(items, id) == Some(i)
  {
  }

  lemma ParentAfterFilter(items: seq<Item>, keep: Item -> bool, id: PlaylistId)
    requires OneParent(items)
    ensures ParentItem(Filter(keep, items), id) ==
            var p := ParentItem(items, id); if p.Some? && keep(p.value) then p else None
  {
    var kept := Filter(keep, items);
    if ParentItem(kept, id).Some? {
      ParentItemIs(items, ParentItem(kept, id).value, id);
    }
  }

  lemma {:induction false} RootWithinAfterFilter(items: seq<Item>, keep: Item -> bool, id: PlaylistId, n: nat)
    requires OneParent(items) && RootWithin(items, id, n)
    ensures RootWithin(Filter(keep, items), id, n)
    decreases n
  {
    ParentAfterFilter(items, keep, id);
    var parent := ParentItem(items, id);
    if parent.Some? {
      RootWithinAfterFilter(items, keep, parent.value.owner, n - 1);
    }
  }

  /** Removing rows cannot close a cycle. */
  lemma ForestAfterFilter(items: seq<Item>, keep: Item -> bool)
    requires OneParent(items) && Forest(items)
    ensures Forest(Filter(keep, items))
  {
    forall id
      ensures ReachesRoot(Filter(keep, items), id)
    {
      assert ReachesRoot(items, id);
      var n :| RootWithin(items, id, n);
      RootWithinAfterFilter(items, keep, id, n);
    }
  }

  lemma {:induction false} ParentAfterAppend(items: seq<Item>, i: Item, id: PlaylistId)
    ensures ParentItem(items + [i], id) ==
            var p := ParentItem(items, id); if p.Some? then p else if i.child == Some(id) then Some(i) else None
  {
    if items == [] {
      assert items + [i] == [i];
      assert [i][1..] == [];
    } else {
      assert (items + [i])[1..] == items[1..] + [i];
      ParentAfterAppend(items[1..], i, id);
    }
  }

  // Two tables that agree on every parent except that of `child` agree on a line avoiding `child`.
  lemma {:induction false} LineageElsewhere(a: seq<Item>, b: seq<Item>, child: PlaylistId, id: PlaylistId, n: nat)
    requires forall x :: x != child ==> ParentItem(a, x) == ParentItem(b, x)
    requires RootWithin(a, id, n) && child !in Lineage(a, id, n)
    ensures RootWithin(b, id, n) && Lineage(b, id, n) == Lineage(a, id, n)
    decreases n
  {
    assert id in Lineage(a, id, n);
    var parent := ParentItem(a, id);
    if parent.Some? {
      assert forall x :: x in Lineage(a, parent.value.owner, n - 1) ==> x in Lineage(a, id, n);
      LineageElsewhere(a, b, child, parent.value.owner, n - 1);
    }
  }

  lemma {:induction false} RootWithinMore(items: seq<Item>, id: PlaylistId, n: nat, m: nat)
    requires RootWithin(items, id, n) && n <= m
    ensures RootWithin(items, id, m)
    decreases n
  {
    var parent := ParentItem(items, id);
    if parent.Some? {
      RootWithinMore(items, parent.value.owner, n - 1, m - 1);
    }
  }

  lemma OwnerAfterAppend(items: seq<Item>, i: Item, child: PlaylistId, n: nat)
    requires i.child == Some(child)
    requires RootWithin(items, i.owner, n) && child !in Lineage(items, i.owner, n)
    ensures RootWithin(items + [i], i.owner, n)
  {
    forall x | x != child
      ensures ParentItem(items, x) == ParentItem(items + [i], x)
    {
      ParentAfterAppend(items, i, x);
    }
    LineageElsewhere(items, items + [i], child, i.owner, n);
  }

  lemma {:induction false} RootWithinAfterAppend(items: seq<Item>, i: Item, child: PlaylistId, n: nat, id: PlaylistId, k: nat)
    requires i.child == Some(child) && ParentItem(items, child).None?
    requires RootWithin(items, i.owner, n) && child !in Lineage(items, i.owner, n)
    requires RootWithin(items, id, k)
    ensures RootWithin(items + [i], id, k + n + 1)
    decreases k
  {
    hide ParentItem, Lineage;
    ParentAfterAppend(items, i, id);
    var parent := ParentItem(items, id);
    if parent.Some? {
      RootWithinAfterAppend(items, i, child, n, parent.value.owner, k - 1);
    } else if id == child {
      OwnerAfterAppend(items, i, child, n);
      RootWithinMore(items + [i], i.owner, n, k + n);
    }
  }

  /** Hanging a parentless playlist below one whose line avoids it cannot close a cycle. */
  lemma ForestAfterAppend(items: seq<Item>, i: Item, child: PlaylistId, n: nat)
    requires Forest(items)
    requires i.child == Some(child) && ParentItem(items, child).None?
    requires RootWithin(items, i.owner, n) && child !in Lineage(items, i.owner, n)
    ensures Forest(items + [i])
  {
    forall id
      ensures ReachesRoot(items + [i], id)
    {
      assert ReachesRoot(items, id);
      var k :| RootWithin(items, id, k);
      RootWithinAfterAppend(items, i, child, n, id, k);
    }
  }

  ghost predicate SelfOrAncestor(items: seq<Item>, candidate: PlaylistId, id: PlaylistId) {
    exists n: nat :: candidate in Lineage(items, id, n)
  }

  lemma AncestorStep(items: seq<Item>, candidate: PlaylistId, id: PlaylistId)
    requires SelfOrAncestor(items, candidate, id) && id != candidate
    ensures ParentItem(items, id).Some?
    ensures SelfOrAncestor(items, candidate, ParentItem(items, id).value.owner)
  {
    var n: nat :| candidate in Lineage(items, id, n);
    assert n > 0 && ParentItem(items, id).Some?;
    assert candidate in Lineage(items, ParentItem(items, id).value.owner, n - 1);
  }

  lemma {:induction false} NoRootThroughCycle(items: seq<Item>, i: Item, child: PlaylistId, id: PlaylistId, k: nat)
    requires i.child == Some(child) && ParentItem(items, child).None?
    requires SelfOrAncestor(items, child, i.owner) && SelfOrAncestor(items, child, id)
    ensures !RootWithin(items + [i], id, k)
    decreases k
  {
    ParentAfterAppend(items, i, id);
    if id != child {
      AncestorStep(items, child, id);
    }
    if k > 0 {
      NoRootThroughCycle(items, i, child, ParentItem(items + [i], id).value.owner, k - 1);
    }
  }

  /** Nesting closes a cycle exactly when the candidate is the new parent or an ancestor of it. */
  lemma NestingClosesCycleIff(items: seq<Item>, i: Item, child: PlaylistId)
    requires Forest(items) && i.child == Some(child) && ParentItem(items, child).None?
    ensures !Forest(items + [i]) <==> SelfOrAncestor(items, child, i.owner)
  {
    if SelfOrAncestor(items, child, i.owner) {
      forall k: nat
        ensures !RootWithin(items + [i], i.owner, k)
      {
        NoRootThroughCycle(items, i, child, i.owner, k);
      }
      assert !ReachesRoot(items + [i], i.owner);
    } else {
      assert ReachesRoot(items, i.owner);
      var n :| RootWithin(items, i.owner, n);
      ForestAfterAppend(items, i, child, n);
    }
  }

  // ----- when the gate is right

  lemma {:induction false} LineageWithin(items: seq<Item>, candidate: PlaylistId, id: PlaylistId, n: nat, m: nat)
    requires RootWithin(items, id, n) && candidate in Lineage(items, id, m)
    ensures candidate in Lineage(items, id, n)
    decreases n
  {
    hide ParentItem;
    var parent := ParentItem(items, id);
    if parent.Some? && candidate != id {
      LineageWithin(items, candidate, parent.value.owner, n - 1, m - 1);
    }
  }

  /** It never lets a loop through, and refuses only loops exactly when the line above fits the bound or is one. */
  lemma GateRightIff(items: seq<Item>, candidate: PlaylistId, of: PlaylistId)
    ensures SelfOrAncestor(items, candidate, of) ==> GateRefuses(items, candidate, of)
    ensures (GateRefuses(items, candidate, of) <==> SelfOrAncestor(items, candidate, of)) <==>
            RootWithin(items, of, MAX_PLAYLIST_DEPTH - 1) || SelfOrAncestor(items, candidate, of)
  {
    hide RootWithin, Lineage;
    if SelfOrAncestor(items, candidate, of) && RootWithin(items, of, MAX_PLAYLIST_DEPTH - 1) {
      var n: nat :| candidate in Lineage(items, of, n);
      LineageWithin(items, candidate, of, MAX_PLAYLIST_DEPTH - 1, n);
    }
  }

  // Playlists 0 to n, each nested in the one before.
  function Chain(n: nat): (items: seq<Item>)
    ensures |items| == n && forall i :: 0 <= i < n ==> items[i] == Item(i, i, None, Some(i + 1), 0)
  {
    seq(n, i requires 0 <= i < n => Item(i, i, None, Some(i + 1), 0))
  }

  lemma ChainParent(n: nat, id: PlaylistId)
    ensures ParentItem(Chain(n), id) == if 1 <= id <= n then Some(Chain(n)[id - 1]) else None
  {
    var p := ParentItem(Chain(n), id);
    if 1 <= id <= n {
      assert Chain(n)[id - 1] in Chain(n);
    }
    if p.Some? {
      var k :| 0 <= k < n && Chain(n)[k] == p.value;
    }
  }

  lemma {:induction false} ChainClimb(n: nat, id: nat, k: nat)
    requires id <= n
    ensures RootWithin(Chain(n), id, k) <==> id <= k
    ensures forall x :: x in Lineage(Chain(n), id, k) ==> 0 <= x <= id
    decreases k
  {
    hide ParentItem, Chain;
    ChainParent(n, id);
    if id > 0 && k > 0 {
      ChainClimb(n, id - 1, k - 1);
    }
  }

  /** Under the lowest of nine nested playlists, a playlist that is on no line at all is still refused. */
  lemma HarmlessNestRefused()
    ensures Forest(Chain(8) + [Item(8, 8, None, Some(9), 0)])
    ensures !SelfOrAncestor(Chain(8), 9, 8) && GateRefuses(Chain(8), 9, 8)
  {
    hide ParentItem, RootWithin, Lineage, Chain;
    forall k: nat
      ensures 9 !in Lineage(Chain(8), 8, k)
    {
      ChainClimb(8, 8, k);
    }
    ChainClimb(8, 8, MAX_PLAYLIST_DEPTH - 1);
    forall id
      ensures ReachesRoot(Chain(8), id)
    {
      ChainReachesRoot(8, id);
    }
    ChainParent(8, 9);
    NestingClosesCycleIff(Chain(8), Item(8, 8, None, Some(9), 0), 9);
  }

  lemma ChainReachesRoot(n: nat, id: PlaylistId)
    ensures ReachesRoot(Chain(n), id)
  {
    hide ParentItem, Chain;
    ChainParent(n, id);
    if 0 <= id <= n {
      ChainClimb(n, id, id);
    } else {
      assert RootWithin(Chain(n), id, 0);
    }
  }
}
