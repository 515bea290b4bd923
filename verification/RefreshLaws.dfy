/** What refreshes between calls do to the sequence on screen. */
module RefreshLaws {
  import opened Collections
  import opened PlayWindow
  import opened PlaylistStore
  import opened Rotation
  import opened PlayOnce
  import opened RotationLaws

  // The same occurrence under the same play-once playlists; other fields may have been edited.
  predicate Twin(a: Slot, b: Slot) {
    a.occurrenceId == b.occurrenceId && a.noRepeat == b.noRepeat
  }

  predicate Twins(a: seq<Slot>, b: seq<Slot>) {
    |a| == |b| && forall i :: 0 <= i < |a| ==> Twin(a[i], b[i])
  }

  // A listing with the occurrences of `slots`: in any order under shuffle, in that order without.
  ghost predicate Quiet(slots: seq<Slot>, l: Listing, shuffle: bool) {
    && DistinctBy(SlotId, l.slots)
    && if shuffle then SameIds(slots, l.slots) && SameNoRepeat(slots, l.slots) else Twins(slots, l.slots)
  }

  ghost predicate SameNoRepeat(a: seq<Slot>, b: seq<Slot>) {
    forall x, y :: x in a && y in b && x.occurrenceId == y.occurrenceId ==> x.noRepeat == y.noRepeat
  }

  // The two schedulers will show the same occurrences.
  ghost predicate SamePlay(s: State, t: State) {
    Twins(s.assets, t.assets) && t.index == s.index && t.reverse == s.reverse && t.played == s.played
  }

  lemma TwinOf(a: seq<Slot>, b: seq<Slot>, x: Slot) returns (y: Slot)
    requires Twins(a, b) && x in a
    ensures y in b && Twin(x, y)
  {
    var i :| 0 <= i < |a| && a[i] == x;
    y := b[i];
  }

  lemma TwinsSameUnder(a: seq<Slot>, b: seq<Slot>, p: PlaylistId)
    requires Twins(a, b)
    ensures Under(a, p) == Under(b, p)
  {
    forall id
      ensures id in Under(a, p) <==> id in Under(b, p)
    {
      if id in Under(a, p) {
        var x :| x in a && p in x.noRepeat && x.occurrenceId == id;
        var y := TwinOf(a, b, x);
      }
      if id in Under(b, p) {
        var y :| y in b && p in y.noRepeat && y.occurrenceId == id;
        var x := TwinOf(b, a, y);
      }
    }
  }

  lemma TwinsSameMembership(a: seq<Slot>, b: seq<Slot>)
    requires Twins(a, b)
    ensures Membership(a) == Membership(b)
  {
    var m, n := Membership(a), Membership(b);
    forall p
      ensures Entry(m, p) == Entry(n, p)
      ensures p in m <==> p in n
      ensures p in m ==> m[p] == n[p]
    {
      MembershipEntry(a, p);
      MembershipEntry(b, p);
      TwinsSameUnder(a, b, p);
    }
  }

  lemma ReorderedTwins(current: seq<Slot>, newer: seq<Slot>)
    requires SameIds(current, newer) && SameNoRepeat(current, newer)
    ensures Twins(current, Reordered(current, newer))
  {
    hide Reordered, SameIds;
    var r := Reordered(current, newer);
    assert |Ids(r)| == |Ids(current)|;
    forall i | 0 <= i < |current|
      ensures Twin(current[i], r[i])
    {
      ReorderedElement(current, newer, i);
      assert current[i] in current;
    }
  }

  lemma KeptAll(played: Played, members: Played)
    ensures KeptPlayed(played, members, members) == played
  {
  }

  /** One such refresh changes nothing of what will be shown. */
  lemma QuietUpdate(s: State, l: Listing, shuffle: bool)
    requires Consistent(s) && Quiet(s.assets, l, shuffle)
    ensures SamePlay(s, Update(s, l, shuffle, false))
  {
    hide Membership, Reordered, KeptPlayed, SameNoRepeat;
    var t := Update(s, l, shuffle, false);
    UpdateAssets(s, l, shuffle, false);
    if shuffle {
      ReorderedTwins(s.assets, l.slots);
    }
    TwinsSameMembership(s.assets, t.assets);
    KeptAll(s.played, s.members);
  }

  // ----- the walk over twins

  lemma TwinPlayedOut(played: Played, a: Slot, b: Slot)
    requires Twin(a, b)
    ensures PlayedOut(played, a) <==> PlayedOut(played, b)
  {
  }

  lemma {:induction false} TwinSkips(s: State, t: State, from: nat, k: nat)
    requires s.assets != [] && SamePlay(s, t) && k <= |s.assets|
    ensures Skips(s, from, k) == Skips(t, from, k)
    decreases |s.assets| - k
  {
    hide PlayedOut, Wrap;
    if k < |s.assets| {
      TwinPlayedOut(s.played, SlotAt(s, from, k), SlotAt(t, from, k));
      TwinSkips(s, t, from, k + 1);
    }
  }

  function IdOf(slot: Option<Slot>): Option<string> {
    if slot.Some? then Some(slot.value.occurrenceId) else None
  }

  lemma TwinMark(played: Played, a: Slot, b: Slot)
    requires Twin(a, b)
    ensures Mark(played, a) == Mark(played, b)
  {
  }

  lemma TwinRotate(s: State, t: State, shuffle: bool)
    requires s.assets != [] && SamePlay(s, t)
    ensures SamePlay(Rotate(s, shuffle).0, Rotate(t, shuffle).0)
    ensures IdOf(Rotate(s, shuffle).1) == IdOf(Rotate(t, shuffle).1)
  {
    hide PlayedOut, Mark, Wrap;
    var n := Skips(s, Start(s), 0);
    TwinSkips(s, t, Start(s), 0);
    if n < |s.assets| {
      TwinMark(s.played, SlotAt(s, Start(s), n), SlotAt(t, Start(t), n));
    }
  }

  // ----- a row of calls, some of them refreshed first

  function Refreshed(s: State, l: Option<Listing>, shuffle: bool): State {
    if l.Some? then Update(s, l.value, shuffle, false) else s
  }

  // The scheduler after k calls, where the j-th refreshes first if it has a listing.
  function WithRefreshes(s: State, listings: seq<Option<Listing>>, shuffle: bool, k: nat): State
    requires k <= |listings|
  {
    if k == 0 then s else
      var r := Refreshed(WithRefreshes(s, listings, shuffle, k - 1), listings[k - 1], shuffle);
      if r.assets == [] then r else Rotate(r, shuffle).0
  }

  ghost predicate AllQuiet(slots: seq<Slot>, listings: seq<Option<Listing>>, shuffle: bool) {
    forall l :: Some(l) in listings ==> Quiet(slots, l, shuffle)
  }

  lemma TwinsQuiet(a: seq<Slot>, b: seq<Slot>, l: Listing, shuffle: bool)
    requires Twins(a, b) && Quiet(a, l, shuffle)
    ensures Quiet(b, l, shuffle)
  {
    if shuffle {
      assert Ids(a) == Ids(b);
      forall x, y | x in b && y in l.slots && x.occurrenceId == y.occurrenceId
        ensures x.noRepeat == y.noRepeat
      {
        var w := TwinOf(b, a, x);
      }
    }
  }

  lemma TwinsCompose(a: seq<Slot>, b: seq<Slot>, c: seq<Slot>)
    requires Twins(a, b) && Twins(b, c)
    ensures Twins(a, c)
  {
  }

  // Refreshing one of two schedulers that play alike.
  lemma RefreshedPlaysAlike(s: State, t: State, slots: seq<Slot>, l: Option<Listing>, shuffle: bool)
    requires Consistent(t) && SamePlay(s, t) && Twins(slots, t.assets) && (l.Some? ==> Quiet(slots, l.value, shuffle))
    ensures Consistent(Refreshed(t, l, shuffle)) && SamePlay(s, Refreshed(t, l, shuffle))
  {
    hide Update, Quiet, Twins, Consistent;
    if l.Some? {
      TwinsQuiet(slots, t.assets, l.value, shuffle);
      QuietIsDistinct(slots, l.value, shuffle);
      QuietUpdate(t, l.value, shuffle);
      UpdateConsistent(t, l.value, shuffle, false);
      TwinsCompose(s.assets, t.assets, Update(t, l.value, shuffle, false).assets);
    }
  }

  lemma QuietIsDistinct(slots: seq<Slot>, l: Listing, shuffle: bool)
    requires Quiet(slots, l, shuffle)
    ensures DistinctBy(SlotId, l.slots)
  {
  }

  lemma {:induction false} PlaysAlike(s: State, listings: seq<Option<Listing>>, shuffle: bool, k: nat)
    requires Consistent(s) && s.assets != [] && AllQuiet(s.assets, listings, shuffle) && k <= |listings|
    ensures Consistent(WithRefreshes(s, listings, shuffle, k))
    ensures SamePlay(Rotations(s, shuffle, k), WithRefreshes(s, listings, shuffle, k))
    decreases k
  {
    hide Rotate, Refreshed, Quiet, Consistent;
    if k > 0 {
      PlaysAlike(s, listings, shuffle, k - 1);
      var plain, before := Rotations(s, shuffle, k - 1), WithRefreshes(s, listings, shuffle, k - 1);
      assert listings[k - 1] in listings;
      RefreshedPlaysAlike(plain, before, s.assets, listings[k - 1], shuffle);
      var r := Refreshed(before, listings[k - 1], shuffle);
      TwinRotate(plain, r, shuffle);
      RotateConsistent(r, shuffle);
    }
  }

  /**
   Position kept. Refreshes that bring no other occurrences, before any of the calls, leave the sequence
   of occurrences on screen as it would have been without them.
   */
  lemma RefreshesUnseen(s: State, listings: seq<Option<Listing>>, shuffle: bool, k: nat)
    requires Consistent(s) && s.assets != [] && AllQuiet(s.assets, listings, shuffle) && k < |listings|
    ensures var r := Refreshed(WithRefreshes(s, listings, shuffle, k), listings[k], shuffle);
            && r.assets != []
            && IdOf(Rotate(r, shuffle).1) == IdOf(Rotate(Rotations(s, shuffle, k), shuffle).1)
  {
    hide Rotate, Refreshed, Quiet, Consistent;
    PlaysAlike(s, listings, shuffle, k);
    assert listings[k] in listings;
    RefreshedPlaysAlike(Rotations(s, shuffle, k), WithRefreshes(s, listings, shuffle, k), s.assets, listings[k], shuffle);
    TwinRotate(Rotations(s, shuffle, k), Refreshed(WithRefreshes(s, listings, shuffle, k), listings[k], shuffle), shuffle);
  }

  // ----- growing the list

  lemma KeptNotPlayedOut(played: Played, members: Played, newer: Played, slot: Slot)
    requires !PlayedOut(played, slot)
    ensures !PlayedOut(KeptPlayed(played, members, newer), slot)
  {
  }

  /** With shuffle off, occurrences added at the end do not start the list over: the next one is still next. */
  lemma AppendKeepsNext(s: State, l: Listing, added: seq<Slot>, allowReshuffle: bool)
    requires Consistent(s) && s.assets != [] && !s.reverse && l.slots == s.assets + added
    requires !PlayedOut(s.played, s.assets[s.index])
    ensures var t := Update(s, l, false, allowReshuffle);
            t.assets != [] && Rotate(t, false).1 == Rotate(s, false).1 == Some(s.assets[s.index])
  {
    hide PlayedOut, KeptPlayed, Membership, Rotate;
    var t := Update(s, l, false, allowReshuffle);
    KeptNotPlayedOut(s.played, s.members, Membership(l.slots), s.assets[s.index]);
    ShowsHere(s, false);
    ShowsHere(t, false);
  }
}
