/** The scheduler's invariant, and play-once over every run. */
module PlayOnce {
  import opened Collections
  import opened PlayWindow
  import opened PlaylistStore
  import opened Rotation

  ghost predicate Consistent(s: State) {
    && s.members == Membership(s.assets)
    && (forall p :: p in s.played ==> p in s.members && s.played[p] <= s.members[p])
    && (s.index < |s.assets| || (s.assets == [] && s.index == 0))
    && DistinctBy(SlotId, s.assets)
  }

  // ----- membership

  lemma MembershipEntry(slots: seq<Slot>, p: PlaylistId)
    ensures Entry(Membership(slots), p) == if Under(slots, p) == {} then None else Some(Under(slots, p))
  {
    var playlists := set s, q | s in slots && q in s.noRepeat :: q;
    if p in playlists {
      var s :| s in slots && p in s.noRepeat;
      assert s.occurrenceId in Under(slots, p);
    }
  }

  lemma SameSlotsSameMembership(a: seq<Slot>, b: seq<Slot>)
    requires forall s :: s in a <==> s in b
    ensures Membership(a) == Membership(b)
  {
    assert (set s, q | s in a && q in s.noRepeat :: q) == (set s, q | s in b && q in s.noRepeat :: q);
    forall p
      ensures Under(a, p) == Under(b, p)
    {
    }
  }

  lemma IdsOfDistinct(slots: seq<Slot>)
    ensures DistinctBy(SlotId, slots) <==> Distinct(Ids(slots))
  {
    assert forall i :: 0 <= i < |slots| ==> Ids(slots)[i] == SlotId(slots[i]);
  }

  lemma SameIdsDistinct(a: seq<Slot>, b: seq<Slot>)
    requires SameIds(a, b) && DistinctBy(SlotId, b)
    ensures DistinctBy(SlotId, a)
  {
    IdsOfDistinct(a);
    IdsOfDistinct(b);
    PermutationDistinct(Ids(b), Ids(a));
  }

  lemma ReorderedElement(current: seq<Slot>, newer: seq<Slot>, k: nat)
    requires SameIds(current, newer) && k < |current|
    ensures Reordered(current, newer)[k] in newer
    ensures Reordered(current, newer)[k].occurrenceId == current[k].occurrenceId
  {
    SameIdsPresent(current, newer, current[k]);
    ByIdKeys(newer, current[k].occurrenceId);
  }

  lemma ReorderedHolds(current: seq<Slot>, newer: seq<Slot>, s: Slot)
    requires SameIds(current, newer) && DistinctBy(SlotId, newer)
    ensures s in Reordered(current, newer) <==> s in newer
  {
    var r := Reordered(current, newer);
    if s in r {
      var k :| 0 <= k < |r| && r[k] == s;
      ReorderedElement(current, newer, k);
    }
    if s in newer {
      SameElements(Ids(current), Ids(newer));
      var j :| 0 <= j < |newer| && newer[j] == s;
      assert Ids(newer)[j] == s.occurrenceId;
      assert s.occurrenceId in Ids(current);
      var k :| 0 <= k < |current| && Ids(current)[k] == s.occurrenceId;
      ReorderedElement(current, newer, k);
      assert SlotId(r[k]) == SlotId(s);
      assert r[k] == s;
    }
  }

  /** The membership-preserving refresh plays a permutation of the new evaluation. */
  lemma ReorderedPermutation(current: seq<Slot>, newer: seq<Slot>)
    requires SameIds(current, newer) && DistinctBy(SlotId, newer)
    ensures multiset(Reordered(current, newer)) == multiset(newer)
    ensures DistinctBy(SlotId, Reordered(current, newer))
  {
    var r := Reordered(current, newer);
    assert SameIds(r, newer);
    SameIdsDistinct(r, newer);
    forall s
      ensures s in r <==> s in newer
    {
      ReorderedHolds(current, newer, s);
    }
    assert Distinct(r) by {
      assert forall i, j :: 0 <= i < j < |r| ==> SlotId(r[i]) != SlotId(r[j]);
    }
    assert Distinct(newer) by {
      assert forall i, j :: 0 <= i < j < |newer| ==> SlotId(newer[i]) != SlotId(newer[j]);
    }
    DistinctSameElements(r, newer);
  }

  // ----- the invariant over runs

  lemma UpdateAssets(s: State, l: Listing, shuffle: bool, allowReshuffle: bool)
    requires DistinctBy(SlotId, l.slots)
    ensures var t := Update(s, l, shuffle, allowReshuffle);
            && multiset(t.assets) == multiset(l.slots)
            && t.deadline == l.deadline && t.lastUpdate == l.mtime
            && t.members == Membership(l.slots) == Membership(t.assets)
            && t.played == KeptPlayed(s.played, s.members, t.members)
            && DistinctBy(SlotId, t.assets)
            && t.extraAsset == s.extraAsset && t.reverse == s.reverse && t.currentAsset == s.currentAsset
  {
    hide KeptPlayed, Membership, Reordered, Wrap;
    var t := Update(s, l, shuffle, allowReshuffle);
    if shuffle && !allowReshuffle && SameIds(s.assets, l.slots) {
      ReorderedPermutation(s.assets, l.slots);
      SameElements(t.assets, l.slots);
      SameSlotsSameMembership(t.assets, l.slots);
    }
  }

  /** All three exits of update_playlist keep the invariant. */
  lemma UpdateConsistent(s: State, l: Listing, shuffle: bool, allowReshuffle: bool)
    requires Consistent(s) && DistinctBy(SlotId, l.slots)
    ensures Consistent(Update(s, l, shuffle, allowReshuffle))
  {
    var t := Update(s, l, shuffle, allowReshuffle);
    UpdateAssets(s, l, shuffle, allowReshuffle);
    forall p | p in t.played
      ensures p in t.members && t.played[p] <= t.members[p]
    {
      assert Entry(t.members, p) == Entry(s.members, p);
    }
    if shuffle && !allowReshuffle && SameIds(s.assets, l.slots) {
      assert |Ids(t.assets)| == |t.assets| && |Ids(s.assets)| == |s.assets|;
    }
  }

  predicate ValidEvent(e: Event) {
    e.Advance? ==> DistinctBy(SlotId, e.call.listing.slots)
  }

  lemma RefreshConsistent(s: State, c: Call)
    requires Consistent(s) && DistinctBy(SlotId, c.listing.slots)
    ensures Consistent(Refresh(s, c))
    ensures Refresh(s, c).extraAsset == s.extraAsset && Refresh(s, c).reverse == s.reverse
  {
    UpdateConsistent(s, c.listing, c.shuffle, false);
    UpdateConsistent(s, c.listing, c.shuffle, true);
    UpdateAssets(s, c.listing, c.shuffle, false);
    UpdateAssets(s, c.listing, c.shuffle, true);
  }

  lemma MarkConsistent(s: State, slot: Slot)
    requires Consistent(s) && slot in s.assets
    ensures forall p :: p in Mark(s.played, slot) ==> p in s.members && Mark(s.played, slot)[p] <= s.members[p]
  {
    forall p | p in Mark(s.played, slot)
      ensures p in s.members && Mark(s.played, slot)[p] <= s.members[p]
    {
      if p in slot.noRepeat {
        MembershipEntry(s.assets, p);
        assert slot.occurrenceId in Under(s.assets, p);
      }
    }
  }

  lemma RotateConsistent(s: State, shuffle: bool)
    requires Consistent(s) && s.assets != []
    ensures Consistent(Rotate(s, shuffle).0)
  {
    var n := Skips(s, Start(s), 0);
    if n < |s.assets| {
      MarkConsistent(s, SlotAt(s, Start(s), n));
    }
  }

  lemma StepConsistent(s: State, e: Event)
    requires Consistent(s) && ValidEvent(e)
    ensures Consistent(Step(s, e).0)
  {
    hide Refresh, Rotate, Membership;
    if e.Advance? && !(s.extraAsset.Some? && Displayable(e.call.requested)) {
      var cleared := s.(extraAsset := None);
      RefreshConsistent(cleared, e.call);
      var r := Refresh(cleared, e.call);
      if r.assets != [] {
        RotateConsistent(r, e.call.shuffle);
      }
    }
  }

  lemma InitialConsistent(l: Listing, shuffle: bool)
    requires DistinctBy(SlotId, l.slots)
    ensures Consistent(Initial(l, shuffle))
  {
    var blank := State([], 0, None, None, None, 0, false, 0, map[], map[]);
    assert Membership([]) == map[];
    UpdateConsistent(blank, l, shuffle, false);
  }

  lemma {:induction false} RunKeepsConsistent(s: State, events: seq<Event>, k: nat)
    requires Consistent(s) && k <= |events|
    requires forall e :: e in events ==> ValidEvent(e)
    ensures Consistent(StateAt(s, events, k))
    decreases k
  {
    if k > 0 {
      RunKeepsConsistent(s, events, k - 1);
      StepConsistent(StateAt(s, events, k - 1), events[k - 1]);
    }
  }

  /** Index in range, membership map exact, played sets within it: at every point of every run of a new scheduler. */
  lemma RunConsistent(l: Listing, shuffle: bool, events: seq<Event>, k: nat)
    requires DistinctBy(SlotId, l.slots) && k <= |events|
    requires forall e :: e in events ==> ValidEvent(e)
    ensures Consistent(StateAt(Initial(l, shuffle), events, k))
  {
    InitialConsistent(l, shuffle);
    RunKeepsConsistent(Initial(l, shuffle), events, k);
  }

  // ----- play once

  ghost predicate HasPlayed(s: State, p: PlaylistId, id: string) {
    p in s.played && id in s.played[p]
  }

  // A played mark outlives any refresh that leaves the playlist's occurrences unchanged.
  lemma RefreshKeepsMark(s: State, c: Call, p: PlaylistId, id: string)
    requires Consistent(s) && DistinctBy(SlotId, c.listing.slots) && HasPlayed(s, p, id)
    requires Under(Refresh(s, c).assets, p) == Under(s.assets, p)
    ensures HasPlayed(Refresh(s, c), p, id)
  {
    hide Update, Under, Membership;
    UpdateAssets(s, c.listing, c.shuffle, false);
    UpdateAssets(s, c.listing, c.shuffle, true);
    MembershipEntry(s.assets, p);
    MembershipEntry(Refresh(s, c).assets, p);
  }

  lemma RotateMarks(s: State, shuffle: bool)
    requires s.assets != []
    ensures var (t, slot) := Rotate(s, shuffle);
            && t.assets == s.assets
            && (forall p, id :: HasPlayed(s, p, id) ==> HasPlayed(t, p, id))
            && (slot.Some? ==>
                  && slot.value in s.assets
                  && !PlayedOut(s.played, slot.value)
                  && forall p :: p in slot.value.noRepeat ==> HasPlayed(t, p, slot.value.occurrenceId))
  {
  }

  lemma StepKeepsMark(s: State, e: Event, p: PlaylistId, id: string)
    requires Consistent(s) && ValidEvent(e) && HasPlayed(s, p, id)
    requires Under(Step(s, e).0.assets, p) == Under(s.assets, p)
    ensures HasPlayed(Step(s, e).0, p, id)
    ensures Step(s, e).1.Rotated? && p in Step(s, e).1.slot.noRepeat ==> Step(s, e).1.slot.occurrenceId != id
  {
    if e.Advance? && !(s.extraAsset.Some? && Displayable(e.call.requested)) {
      var cleared := s.(extraAsset := None);
      var r := Refresh(cleared, e.call);
      if r.assets != [] {
        RotateMarks(r, e.call.shuffle);
      }
      RefreshKeepsMark(cleared, e.call, p, id);
    }
  }

  lemma ShownIsMarked(s: State, e: Event)
    requires Step(s, e).1.Rotated?
    ensures forall p :: p in Step(s, e).1.slot.noRepeat ==> HasPlayed(Step(s, e).0, p, Step(s, e).1.slot.occurrenceId)
  {
    var r := Refresh(s.(extraAsset := None), e.call);
    RotateMarks(r, e.call.shuffle);
  }

  // The occurrences under p in the list as the k-th event left it.
  ghost function UnderAfter(s: State, events: seq<Event>, p: PlaylistId, k: nat): set<string>
    requires k < |events|
  {
    Under(StateAt(s, events, k + 1).assets, p)
  }

  lemma {:induction false} MarkSurvives(s: State, events: seq<Event>, p: PlaylistId, id: string, i: nat, j: nat)
    requires Consistent(s) && forall e :: e in events ==> ValidEvent(e)
    requires i < j <= |events| && HasPlayed(StateAt(s, events, i + 1), p, id)
    requires forall k :: i < k < j ==> UnderAfter(s, events, p, k) == UnderAfter(s, events, p, k - 1)
    ensures HasPlayed(StateAt(s, events, j), p, id)
    decreases j
  {
    if j > i + 1 {
      MarkSurvives(s, events, p, id, i, j - 1);
      RunKeepsConsistent(s, events, j - 1);
      assert UnderAfter(s, events, p, j - 1) == UnderAfter(s, events, p, j - 2);
      StepKeepsMark(StateAt(s, events, j - 1), events[j - 1], p, id);
    }
  }

  lemma RepeatMeansChange(s: State, events: seq<Event>, p: PlaylistId, i: nat, j: nat)
    requires Consistent(s) && forall e :: e in events ==> ValidEvent(e)
    requires i < j < |events|
    requires ShownAt(s, events, i).Rotated? && ShownAt(s, events, j).Rotated?
    requires p in ShownAt(s, events, i).slot.noRepeat && p in ShownAt(s, events, j).slot.noRepeat
    requires ShownAt(s, events, i).slot.occurrenceId == ShownAt(s, events, j).slot.occurrenceId
    ensures exists k :: i < k <= j && UnderAfter(s, events, p, k) != UnderAfter(s, events, p, k - 1)
  {
    var id := ShownAt(s, events, i).slot.occurrenceId;
    if forall k :: i < k <= j ==> UnderAfter(s, events, p, k) == UnderAfter(s, events, p, k - 1) {
      ShownIsMarked(StateAt(s, events, i), events[i]);
      MarkSurvives(s, events, p, id, i, j);
      RunKeepsConsistent(s, events, j);
      assert UnderAfter(s, events, p, j) == UnderAfter(s, events, p, j - 1);
      StepKeepsMark(StateAt(s, events, j), events[j], p, id);
      assert false;
    }
  }

  /**
   Play once, in every run of a new scheduler. If the rotation returns the same occurrence of a
   non-repeating playlist twice, then the occurrences of that playlist in the list changed in between.
   */
  lemma PlayedOnceBetweenChanges(l: Listing, shuffle: bool, events: seq<Event>, p: PlaylistId, i: nat, j: nat)
    requires DistinctBy(SlotId, l.slots) && forall e :: e in events ==> ValidEvent(e)
    requires i < j < |events|
    requires var s := Initial(l, shuffle);
             && ShownAt(s, events, i).Rotated? && ShownAt(s, events, j).Rotated?
             && p in ShownAt(s, events, i).slot.noRepeat && p in ShownAt(s, events, j).slot.noRepeat
             && ShownAt(s, events, i).slot.occurrenceId == ShownAt(s, events, j).slot.occurrenceId
    ensures exists k :: i < k <= j && UnderAfter(Initial(l, shuffle), events, p, k) != UnderAfter(Initial(l, shuffle), events, p, k - 1)
  {
    InitialConsistent(l, shuffle);
    RepeatMeansChange(Initial(l, shuffle), events, p, i, j);
  }
}
