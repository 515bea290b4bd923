/** What a refresh and a call do, each law in terms of what the caller sees before and after. */
module SchedulerLaws {
  import opened Collections
  import opened PlayWindow
  import opened PlaylistStore
  import opened Rotation
  import opened PlayOnce
  import opened RotationLaws
  import opened RotationCycle

  // ----- played marks

  /** A mark survives an update exactly if the occurrences under its playlist are the same: an edit or a closed window resets it. */
  lemma MarksSurviveIff(s: State, l: Listing, shuffle: bool, allowReshuffle: bool, p: PlaylistId, id: string)
    requires Consistent(s) && DistinctBy(SlotId, l.slots)
    ensures HasPlayed(Update(s, l, shuffle, allowReshuffle), p, id) <==>
            HasPlayed(s, p, id) && Under(l.slots, p) == Under(s.assets, p)
  {
    hide Update, Membership, Under;
    UpdateAssets(s, l, shuffle, allowReshuffle);
    MembershipEntry(s.assets, p);
    MembershipEntry(l.slots, p);
  }

  // ----- the order after an update

  predicate SameOccurrences(a: seq<Slot>, b: seq<Slot>) {
    multiset(Ids(a)) == multiset(Ids(b))
  }

  /**
   The order after an update: the listing's own, except that a shuffled play-through of the same occurrences
   goes on in the order it has.
   */
  lemma UpdateOrder(s: State, l: Listing, shuffle: bool, allowReshuffle: bool)
    ensures var t := Update(s, l, shuffle, allowReshuffle);
            if shuffle && !allowReshuffle && SameOccurrences(s.assets, l.slots) then
              Ids(t.assets) == Ids(s.assets) && t.index == s.index && t.counter == s.counter
            else
              t.assets == l.slots
  {
  }

  /** A list that changed starts its passes over, and keeps the place as far as there is one. */
  lemma UpdatePlace(s: State, l: Listing, shuffle: bool, allowReshuffle: bool)
    requires !(shuffle && !allowReshuffle && SameOccurrences(s.assets, l.slots)) && l.slots != s.assets
    ensures var t := Update(s, l, shuffle, allowReshuffle);
            && t.counter == 0
            && (l.slots == [] ==> t.index == 0)
            && (s.index < |l.slots| ==> t.index == s.index)
            && (l.slots != [] ==> t.index < |l.slots| && (s.index - t.index) % |l.slots| == 0)
  {
    if l.slots != [] {
      WrapCongruent(s.index, |l.slots|);
    }
  }

  lemma WrapCongruent(i: int, n: int)
    requires n > 0
    ensures (i - Wrap(i, n)) % n == 0
  {
    assert i - i % n == i / n * n + 0;
    ModUnique(i - i % n, n, i / n, 0);
  }

  /** A new scheduler plays the listing from its start, with nothing played and nothing asked for. */
  lemma NewScheduler(l: Listing, shuffle: bool)
    requires DistinctBy(SlotId, l.slots)
    ensures Initial(l, shuffle) ==
            State(l.slots, 0, None, l.deadline, None, 0, false, l.mtime, map[], Membership(l.slots))
  {
    if l.slots == [] {
      assert multiset(Ids([])) == multiset(Ids(l.slots));
    } else {
      assert |multiset(Ids(l.slots))| == |l.slots|;
    }
  }

  // ----- when a refresh happens

  /** With no newer mtime, fewer than five passes ended and no deadline reached, a refresh changes nothing at all. */
  lemma RefreshIdle(s: State, c: Call)
    requires c.mtime <= s.lastUpdate
    requires c.shuffle ==> s.counter < 5
    requires s.deadline.Some? ==> c.now < s.deadline.value
    ensures Refresh(s, c) == s
  {
  }

  /** A newer mtime, or a deadline reached, brings the occurrences and fields of the new evaluation. */
  lemma RefreshDue(s: State, c: Call)
    requires DistinctBy(SlotId, c.listing.slots)
    requires c.mtime > s.lastUpdate || (s.deadline.Some? && s.deadline.value <= c.now)
    ensures multiset(Refresh(s, c).assets) == multiset(c.listing.slots)
    ensures Refresh(s, c).deadline == c.listing.deadline && Refresh(s, c).lastUpdate == c.listing.mtime
  {
    hide Update;
    UpdateAssets(s, c.listing, c.shuffle, false);
    UpdateAssets(s, c.listing, c.shuffle, true);
  }

  /**
   Under shuffle and with no newer mtime, a refresh takes the listing's own order exactly if five passes have
   ended, or the deadline is reached and the occurrences changed.
   */
  lemma ReshuffleIff(s: State, c: Call)
    requires c.shuffle && c.mtime <= s.lastUpdate && Ids(c.listing.slots) != Ids(s.assets)
    ensures Ids(Refresh(s, c).assets) == Ids(c.listing.slots) <==>
            || s.counter >= 5
            || (s.deadline.Some? && s.deadline.value <= c.now && !SameOccurrences(s.assets, c.listing.slots))
  {
    hide Update;
    UpdateOrder(s, c.listing, true, true);
    UpdateOrder(s, c.listing, true, false);
  }

  /** Under shuffle a newer mtime takes the listing's own order exactly if the occurrences changed. */
  lemma NewerMtimeReordersIff(s: State, c: Call)
    requires c.shuffle && c.mtime > s.lastUpdate && Ids(c.listing.slots) != Ids(s.assets)
    ensures Ids(Refresh(s, c).assets) == Ids(c.listing.slots) <==> !SameOccurrences(s.assets, c.listing.slots)
  {
    hide Update;
    UpdateOrder(s, c.listing, true, false);
  }

  // ----- what the pass counter counts

  // How many positions k calls have looked at.
  function Distance(s: State, shuffle: bool, k: nat): nat
    requires s.assets != []
  {
    if k == 0 then 0 else Distance(s, shuffle, k - 1) + Reach(Rotations(s, shuffle, k - 1))
  }

  lemma RotateCounts(t: State, shuffle: bool)
    requires t.assets != []
    ensures Rotate(t, shuffle).0.counter == t.counter + if shuffle && Start(t) + Reach(t) >= |t.assets| then 1 else 0
  {
    hide PlayedOut, Mark;
  }

  lemma PassesAdd(at: nat, step: nat, n: nat)
    requires n > 0 && step <= n
    ensures (at + step) / n == at / n + if Wrap(at, n) + step >= n then 1 else 0
  {
    var q, r := at / n, at % n;
    assert at == q * n + r;
    if r + step >= n {
      QuotientIs(at + step, n, q + 1, r + step - n);
    } else {
      QuotientIs(at + step, n, q, r + step);
    }
  }

  lemma QuotientIs(i: nat, n: nat, q: nat, r: nat)
    requires n > 0 && r < n && i == q * n + r
    ensures i / n == q
  {
    ModUnique(i, n, q, r);
    assert (i / n - q) * n == 0;
  }

  /** The counter goes up by the number of times the walk passed the end of the list; without shuffle it stands. */
  lemma {:induction false} PassesCounted(s: State, shuffle: bool, k: nat)
    requires s.assets != []
    ensures Start(Rotations(s, shuffle, k)) == Wrap(Start(s) + Distance(s, shuffle, k), |s.assets|)
    ensures Rotations(s, shuffle, k).counter ==
            s.counter + if shuffle then (Start(s) + Distance(s, shuffle, k)) / |s.assets| else 0
  {
    hide Rotate, Reach, Wrap;
    var n := |s.assets|;
    if k == 0 {
      StartsInside(s);
    } else {
      PassesCounted(s, shuffle, k - 1);
      var t, at := Rotations(s, shuffle, k - 1), Start(s) + Distance(s, shuffle, k - 1);
      OneCallCounts(t, shuffle, at);
    }
  }

  lemma OneCallCounts(t: State, shuffle: bool, at: nat)
    requires t.assets != [] && Start(t) == Wrap(at, |t.assets|)
    ensures Start(Rotate(t, shuffle).0) == Wrap(at + Reach(t), |t.assets|)
    ensures Rotate(t, shuffle).0.counter ==
            t.counter + if shuffle then (at + Reach(t)) / |t.assets| - at / |t.assets| else 0
  {
    hide Rotate, Reach, Wrap;
    RotateCounts(t, shuffle);
    RotateReaches(t, shuffle);
    WrapAdd(at, Reach(t), |t.assets|);
    PassesAdd(at, Reach(t), |t.assets|);
  }

  lemma StartsInside(s: State)
    requires s.assets != []
    ensures Wrap(Start(s) + 0, |s.assets|) == Start(s) && (Start(s) + 0) / |s.assets| == 0
  {
    QuotientIs(Start(s), |s.assets|, 0, Start(s));
  }

  // ----- five passes, then a new order

  // A call under shuffle on an unchanged database.
  predicate PlainCall(s: State, e: Event) {
    e.Advance? && e.call.shuffle && e.call.mtime <= s.lastUpdate
  }

  lemma RotateKeepsRest(s: State, shuffle: bool)
    requires s.assets != []
    ensures var t := Rotate(s, shuffle).0;
            t.deadline == s.deadline && t.lastUpdate == s.lastUpdate && t.extraAsset == s.extraAsset
  {
  }

  // The order the call gets if it rebuilds.
  function Offered(e: Event): seq<Slot> {
    if e.Advance? then e.call.listing.slots else []
  }

  ghost predicate FewerThanFive(s: State, k: nat)
    requires s.assets != []
  {
    forall j :: 0 <= j < k ==> Start(s) + Distance(s, true, j) < 5 * |s.assets|
  }

  // Not yet five passes: the calls so far did nothing but rotate.
  lemma {:induction false} RunRotates(s: State, events: seq<Event>, k: nat)
    requires s.assets != [] && s.counter == 0 && s.deadline.None? && s.extraAsset.None?
    requires k <= |events| && forall j :: 0 <= j < |events| ==> PlainCall(s, events[j])
    requires FewerThanFive(s, k)
    ensures StateAt(s, events, k) == Rotations(s, true, k)
    ensures var t := Rotations(s, true, k); t.deadline.None? && t.lastUpdate == s.lastUpdate && t.extraAsset.None?
    decreases k
  {
    hide Rotate, Refresh, Distance, Start;
    if k > 0 {
      RunRotates(s, events, k - 1);
      var t := Rotations(s, true, k - 1);
      assert PlainCall(s, events[k - 1]);
      CounterTells(s, k - 1);
      RefreshIdle(t, events[k - 1].call);
      NextRotates(t, events[k - 1].call);
      RotateKeepsRest(t, true);
    }
  }

  lemma Fewer(at: nat, n: nat)
    requires n > 0
    ensures at / n < 5 <==> at < 5 * n
  {
  }

  lemma NextRotates(s: State, c: Call)
    requires s.extraAsset.None? && Refresh(s, c) == s && s.assets != []
    ensures Next(s, c).0 == Rotate(s, c.shuffle).0
  {
    hide Rotate, Refresh;
    assert s.(extraAsset := None) == s;
  }

  /**
   From an install on, calls of a shuffling viewer on an unchanged, windowless database play the installed order
   until the walk has passed the end of the list five times; the next call takes the order it is then given.
   */
  lemma FivePassesThenReshuffle(s: State, events: seq<Event>, k: nat)
    requires s.assets != [] && s.counter == 0 && s.deadline.None? && s.extraAsset.None?
    requires k < |events| && forall j :: 0 <= j < |events| ==> PlainCall(s, events[j])
    requires FewerThanFive(s, k)
    ensures StateAt(s, events, k + 1).assets ==
            if Start(s) + Distance(s, true, k) < 5 * |s.assets| then s.assets else Offered(events[k])
  {
    hide StateAt, Next, Distance, Start, Rotations, FewerThanFive, Wrap;
    RunRotates(s, events, k);
    OneMore(s, events, k);
    CounterTells(s, k);
    NextTakes(Rotations(s, true, k), events[k].call);
  }

  lemma CounterTells(s: State, k: nat)
    requires s.assets != [] && s.counter == 0
    ensures Rotations(s, true, k).counter < 5 <==> Start(s) + Distance(s, true, k) < 5 * |s.assets|
  {
    hide Distance, Start, Rotations, Wrap;
    PassesCounted(s, true, k);
    Fewer(Start(s) + Distance(s, true, k), |s.assets|);
  }

  lemma OneMore(s: State, events: seq<Event>, k: nat)
    requires k < |events| && events[k].Advance?
    ensures StateAt(s, events, k + 1) == Next(StateAt(s, events, k), events[k].call).0
  {
  }

  lemma NextTakes(t: State, c: Call)
    requires t.assets != [] && t.deadline.None? && t.extraAsset.None? && c.shuffle && c.mtime <= t.lastUpdate
    ensures Next(t, c).0.assets == if t.counter < 5 then t.assets else c.listing.slots
  {
    hide Rotate, Refresh;
    if t.counter < 5 {
      RefreshIdle(t, c);
      NextRotates(t, c);
      RotateMarks(t, true);
    } else {
      ReshuffleTakes(t, c);
    }
  }

  lemma ReshuffleTakes(s: State, c: Call)
    requires s.extraAsset.None? && c.shuffle && c.mtime <= s.lastUpdate && s.counter >= 5
    ensures Next(s, c).0.assets == c.listing.slots
  {
    hide Update;
    assert s.(extraAsset := None) == s;
    UpdateOrder(s, c.listing, true, true);
    if Refresh(s, c).assets != [] {
      RotateMarks(Refresh(s, c), true);
    }
  }

  // ----- what is current, and jumps

  /** The current asset is always the one just shown. */
  lemma CurrentIsShown(s: State, c: Call)
    ensures var (t, shown) := Next(s, c);
            match shown
            case Nothing => t.currentAsset == None
            case Rotated(slot) => t.currentAsset == Some(slot.asset.id)
            case Jumped(_) => t.currentAsset == s.extraAsset && s.extraAsset.Some?
  {
    hide Refresh, Search, Mark;
  }

  /** A jump shows the asset asked for and leaves the rotation as it was; one that cannot be shown is dropped. */
  lemma JumpLeavesRotation(s: State, a: AssetId, c: Call)
    ensures var asked := Step(s, JumpTo(a)).0;
            if c.requested.Some? && !c.requested.value.isProcessing then
              Next(asked, c) == (s.(currentAsset := Some(a), extraAsset := None), Jumped(c.requested.value))
            else
              Next(asked, c) == Next(s.(extraAsset := None), c)
  {
    hide Refresh, Rotate;
  }
}
