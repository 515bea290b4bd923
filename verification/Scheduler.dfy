/** The viewer's scheduler, updating its fields in place, against the transitions of Rotation. */
module Scheduling {
  import opened Collections
  import opened PlayWindow
  import opened PlaylistStore
  import opened Expansion
  import opened Evaluation
  import opened Rotation
  import opened PlayOnce
  import opened CacheAgreement
  import opened OccurrenceLaws

  /** generate_asset_list: the evaluated slots, in evaluation order or in any other. */
  method GenerateAssetList(db: Database, version: nat, mtime: int, now: Instant, shuffle: bool) returns (l: Listing)
    ensures l.mtime == mtime && l.version == version && l.at == now
    ensures multiset(l.slots) == multiset(SlotsAt(db, now)) && l.deadline == DeadlineAt(db, now)
    ensures !shuffle ==> l.slots == SlotsAt(db, now)
    ensures Keyed(db) ==> DistinctBy(SlotId, l.slots)
    ensures SlotsOf(l.slots, ActiveAt(db, now))
  {
    var active, deadline := EvaluatePlaylist(db, now);
    var slots := Map(SlotOf, active);
    if shuffle {
      slots := Shuffle(slots);
    }
    l := Listing(mtime, version, now, slots, deadline);
    PermutedSlotsOf(db, now, slots);
    if Keyed(db) {
      ShuffledIdsDistinct(db, now, slots);
    }
  }

  // The device's random source: from the last place down, swap with a random place not above it.
  method Shuffle(slots: seq<Slot>) returns (r: seq<Slot>)
    ensures multiset(r) == multiset(slots)
  {
    r := slots;
    var i := |slots| - 1;
    while i >= 1
      invariant |r| == |slots| && i < |r|
      invariant multiset(r) == multiset(slots)
    {
      var j :| 0 <= j <= i;
      r := r[i := r[j]][j := r[i]];
      i := i - 1;
    }
  }

  lemma UnderAppend(slots: seq<Slot>, s: Slot, p: PlaylistId)
    ensures Under(slots + [s], p) == Under(slots, p) + if p in s.noRepeat then {s.occurrenceId} else {}
  {
    assert forall x :: x in slots + [s] <==> x in slots || x == s;
  }

  // new_members, built slot by slot.
  method Members(slots: seq<Slot>) returns (members: Played)
    ensures members == Membership(slots)
  {
    members := map[];
    for k := 0 to |slots|
      invariant forall p :: Lookup(members, p, {}) == Under(slots[..k], p)
      invariant forall p :: p in members ==> members[p] != {}
    {
      var s := slots[k];
      members := AddUnder(members, s);
      assert forall p :: p in members && p in s.noRepeat ==> s.occurrenceId in Lookup(members, p, {});
      assert slots[..k + 1] == slots[..k] + [s];
      forall p
        ensures Lookup(members, p, {}) == Under(slots[..k + 1], p)
      {
        UnderAppend(slots[..k], s, p);
      }
    }
    assert slots[..|slots|] == slots;
    MembersAre(members, slots);
  }

  lemma MembersAre(members: Played, slots: seq<Slot>)
    requires forall p :: Lookup(members, p, {}) == Under(slots, p)
    requires forall p :: p in members ==> members[p] != {}
    ensures members == Membership(slots)
  {
    forall p
      ensures Entry(members, p) == Entry(Membership(slots), p)
    {
      MembershipEntry(slots, p);
      assert Lookup(members, p, {}) == Under(slots, p);
    }
    var m := Membership(slots);
    forall p
      ensures p in members <==> p in m
      ensures p in m ==> members[p] == m[p]
    {
      assert Entry(members, p) == Entry(m, p);
    }
  }

  // setdefault(p, set()).add(occurrence) for each playlist of the slot.
  method AddUnder(m: Played, s: Slot) returns (r: Played)
    ensures r.Keys == m.Keys + (set p | p in s.noRepeat)
    ensures forall p :: Lookup(r, p, {}) == Lookup(m, p, {}) + if p in s.noRepeat then {s.occurrenceId} else {}
  {
    r := m;
    for k := 0 to |s.noRepeat|
      invariant r.Keys == m.Keys + (set p | p in s.noRepeat[..k])
      invariant forall p :: Lookup(r, p, {}) == Lookup(m, p, {}) + if p in s.noRepeat[..k] then {s.occurrenceId} else {}
    {
      r := r[s.noRepeat[k] := Lookup(r, s.noRepeat[k], {}) + {s.occurrenceId}];
      assert s.noRepeat[..k + 1] == s.noRepeat[..k] + [s.noRepeat[k]];
    }
    assert s.noRepeat[..|s.noRepeat|] == s.noRepeat;
  }

  lemma OneWraps(i: int)
    ensures Wrap(i, 1) == 0
  {
  }

  class Scheduler {
    var assets: seq<Slot>
    var counter: nat
    var currentAsset: Option<AssetId>
    var deadline: Option<Instant>
    var extraAsset: Option<AssetId>
    var index: nat
    var reverse: bool
    var lastUpdate: int
    var played: Played
    var members: Played

    function View(): State
      reads this
    {
      State(assets, counter, currentAsset, deadline, extraAsset, index, reverse, lastUpdate, played, members)
    }

    ghost predicate Valid()
      reads this
    {
      Consistent(View())
    }

    constructor (l: Listing, shuffle: bool)
      requires DistinctBy(SlotId, l.slots)
      ensures View() == Initial(l, shuffle) && Valid()
    {
      assets, counter, currentAsset, deadline, extraAsset := [], 0, None, None, None;
      index, reverse, lastUpdate, played, members := 0, false, 0, map[], map[];
      new;
      assert Membership([]) == map[];
      UpdatePlaylist(l, shuffle, false);
    }

    method SyncPlayOnceState(slots: seq<Slot>)
      modifies this
      ensures View() == old(View()).(played := KeptPlayed(old(played), old(members), Membership(slots)),
                                     members := Membership(slots))
    {
      var newMembers := Members(slots);
      played := map p | p in played && Entry(newMembers, p) == Entry(members, p) :: played[p];
      members := newMembers;
    }

    method UpdatePlaylist(l: Listing, shuffle: bool, allowReshuffle: bool)
      requires Valid() && DistinctBy(SlotId, l.slots)
      modifies this
      ensures View() == Update(old(View()), l, shuffle, allowReshuffle) && Valid()
    {
      UpdateConsistent(View(), l, shuffle, allowReshuffle);
      hide Consistent, Membership, KeptPlayed, Wrap, Reordered;
      lastUpdate := l.mtime;
      SyncPlayOnceState(l.slots);
      if shuffle && !allowReshuffle {
        if SameIds(assets, l.slots) {
          assets := Reordered(assets, l.slots);
          deadline := l.deadline;
          return;
        }
      } else if l.slots == assets && l.deadline == deadline {
        return;
      }
      assets, deadline := l.slots, l.deadline;
      counter := 0;
      index := if assets == [] then 0 else Wrap(index, |assets|);
    }

    method RefreshPlaylist(c: Call)
      requires Valid() && DistinctBy(SlotId, c.listing.slots)
      modifies this
      ensures View() == Refresh(old(View()), c) && Valid()
    {
      if c.mtime > lastUpdate {
        UpdatePlaylist(c.listing, c.shuffle, false);
      } else if c.shuffle && counter >= RESHUFFLE_AFTER {
        UpdatePlaylist(c.listing, c.shuffle, true);
      } else if Expired(deadline, c.now) {
        UpdatePlaylist(c.listing, c.shuffle, false);
      }
    }

    method MarkPlayed(s: Slot)
      modifies this
      ensures View() == old(View()).(played := Mark(old(played), s))
    {
      ghost var before := played;
      played := AddUnder(played, s);
      forall p | p in played
        ensures played[p] == Mark(before, s)[p]
      {
        assert Lookup(played, p, {}) == Lookup(before, p, {}) + if p in s.noRepeat then {s.occurrenceId} else {};
      }
    }

    // One look: take the position the walk stands at and move on, once backwards if a reverse is pending.
    method LookAt(shuffle: bool, ghost s: State, ghost k: nat) returns (at: nat)
      requires s.assets != [] && k < |s.assets| && s.index < |s.assets|
      requires View() == if k == 0 then s else Walked(s, shuffle, k)
      modifies this`index, this`reverse, this`counter
      ensures at == Wrap(Start(s) + k, |s.assets|)
      ensures View() == Walked(s, shuffle, k + 1)
    {
      if reverse {
        at := Wrap(index - 2, |assets|);
        index := Wrap(index - 1, |assets|);
        reverse := false;
        if |s.assets| == 1 {
          OneWraps(s.index - 2);
          OneWraps(s.index - 1);
        }
      } else {
        at := index;
        index := Wrap(index + 1, |assets|);
      }
      if shuffle && index == 0 {
        counter := counter + 1;
      }
    }

    // One pass over at most one full cycle, for an occurrence not played out.
    method FindNext(shuffle: bool) returns (found: Option<Slot>)
      requires assets != [] && index < |assets|
      modifies this`index, this`reverse, this`counter
      ensures (View(), found) == Search(old(View()), shuffle)
    {
      hide PlayedOut, Wrap, Walked;
      ghost var s := View();
      for k := 0 to |assets|
        invariant View() == if k == 0 then s else Walked(s, shuffle, k)
        invariant Skips(s, Start(s), 0) == Skips(s, Start(s), k)
      {
        var at := LookAt(shuffle, s, k);
        if !PlayedOut(played, assets[at]) {
          return Some(assets[at]);
        }
      }
      return None;
    }

    method GetNextAsset(c: Call) returns (shown: Shown)
      requires Valid() && DistinctBy(SlotId, c.listing.slots)
      modifies this
      ensures (View(), shown) == Next(old(View()), c) && Valid()
    {
      StepConsistent(View(), Advance(c));
      hide Refresh, Search, Mark, Consistent;
      if extraAsset.Some? {
        if Displayable(c.requested) {
          currentAsset := extraAsset;
          extraAsset := None;
          return Jumped(c.requested.value);
        }
        extraAsset := None;
      }
      assert View() == old(View()).(extraAsset := None);
      RefreshPlaylist(c);
      if assets == [] {
        currentAsset := None;
        return Nothing;
      }
      var found := FindNext(c.shuffle);
      if found.None? {
        currentAsset := None;
        return Nothing;
      }
      MarkPlayed(found.value);
      currentAsset := Some(found.value.asset.id);
      return Rotated(found.value);
    }
  }
}
