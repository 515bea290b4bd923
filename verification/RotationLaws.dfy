/** The rotation walk: it is complete, cyclic, and "previous" is undone by "next". */
module RotationLaws {
  import opened Collections
  import opened PlayWindow
  import opened PlaylistStore
  import opened Rotation
  import opened PlayOnce

  /** From any start, every position is looked at within one cycle. */
  lemma WalkReaches(from: nat, m: nat, size: nat) returns (j: nat)
    requires from < size && m < size
    ensures j < size && Wrap(from + j, size) == m
  {
    j := if m >= from then m - from else m + size - from;
  }

  /** With or without a pending reverse, the screen goes blank only when every occurrence is played out. */
  lemma BlankIffAllPlayedOut(s: State, shuffle: bool)
    requires s.assets != []
    ensures Rotate(s, shuffle).1.None? <==> forall slot :: slot in s.assets ==> PlayedOut(s.played, slot)
  {
    var from, size := Start(s), |s.assets|;
    var n := Skips(s, from, 0);
    if n == size {
      forall slot | slot in s.assets
        ensures PlayedOut(s.played, slot)
      {
        var m :| 0 <= m < size && s.assets[m] == slot;
        var j := WalkReaches(from, m, size);
        assert SlotAt(s, from, j) == slot;
      }
    }
  }

  /** The first occurrence not played out, in walking order, is the one shown. */
  lemma ShowsFirstUnplayed(s: State, shuffle: bool, j: nat)
    requires s.assets != [] && j < |s.assets|
    requires !PlayedOut(s.played, SlotAt(s, Start(s), j))
    requires forall i :: 0 <= i < j ==> PlayedOut(s.played, SlotAt(s, Start(s), i))
    ensures Rotate(s, shuffle).1 == Some(SlotAt(s, Start(s), j))
    ensures Rotate(s, shuffle).0.index == Wrap(Start(s) + j + 1, |s.assets|)
  {
    var n := Skips(s, Start(s), 0);
    assert n == j;
  }

  // No slot sits under a non-repeating playlist, so none can be played out.
  predicate AllRepeating(s: State) {
    forall slot :: slot in s.assets ==> slot.noRepeat == []
  }

  lemma PlainStep(s: State, shuffle: bool)
    requires s.assets != [] && AllRepeating(s)
    ensures var (t, slot) := Rotate(s, shuffle);
            && slot == Some(s.assets[Start(s)])
            && t.index == Wrap(Start(s) + 1, |s.assets|)
            && !t.reverse && t.assets == s.assets
  {
    assert SlotAt(s, Start(s), 0) == s.assets[Start(s)];
    ShowsFirstUnplayed(s, shuffle, 0);
  }

  function Rotations(s: State, shuffle: bool, k: nat): State
    requires s.assets != []
    ensures Rotations(s, shuffle, k).assets == s.assets
  {
    if k == 0 then s else
      var before := Rotations(s, shuffle, k - 1);
      Rotate(before, shuffle).0
  }

  lemma WrapStep(i: nat, n: nat)
    requires n > 0
    ensures Wrap(Wrap(i, n) + 1, n) == Wrap(i + 1, n)
  {
    var r := i % n;
    assert i == (i / n) * n + r;
    if r + 1 < n {
      ModUnique(i + 1, n, i / n, r + 1);
    } else {
      assert i + 1 == (i / n + 1) * n + 0;
      ModUnique(i + 1, n, i / n + 1, 0);
    }
  }

  // The walk stands at the i-th position, counted without wrapping.
  ghost predicate StandsAt(t: State, assets: seq<Slot>, i: nat)
    requires assets != []
  {
    t.assets == assets && !t.reverse && t.index == Wrap(i, |assets|)
  }

  lemma StandsNext(t: State, shuffle: bool, i: nat)
    requires t.assets != [] && AllRepeating(t) && StandsAt(t, t.assets, i)
    ensures StandsAt(Rotate(t, shuffle).0, t.assets, i + 1)
    ensures Rotate(t, shuffle).1 == Some(t.assets[Wrap(i, |t.assets|)])
  {
    PlainStep(t, shuffle);
    WrapStep(i, |t.assets|);
  }

  lemma {:induction false} StandsAfter(s: State, shuffle: bool, k: nat)
    requires s.assets != [] && AllRepeating(s) && StandsAt(s, s.assets, s.index)
    ensures StandsAt(Rotations(s, shuffle, k), s.assets, s.index + k)
  {
    hide Rotate, Wrap;
    if k > 0 {
      StandsAfter(s, shuffle, k - 1);
      StandsNext(Rotations(s, shuffle, k - 1), shuffle, s.index + k - 1);
    }
  }

  /** With nothing to play out, call k shows position (index + k) mod n. */
  lemma CallShows(s: State, shuffle: bool, k: nat)
    requires s.assets != [] && AllRepeating(s) && !s.reverse && s.index < |s.assets|
    ensures Rotate(Rotations(s, shuffle, k), shuffle).1 == Some(s.assets[Wrap(s.index + k, |s.assets|)])
  {
    hide Rotate;
    StandsAfter(s, shuffle, k);
    StandsNext(Rotations(s, shuffle, k), shuffle, s.index + k);
  }

  // ----- with playlists that play once

  ghost predicate NothingPlayedOut(s: State) {
    forall slot :: slot in s.assets ==> !PlayedOut(s.played, slot)
  }

  lemma MarkElsewhere(played: Played, shown: Slot, other: Slot)
    requires !PlayedOut(played, other) && other.occurrenceId != shown.occurrenceId
    ensures !PlayedOut(Mark(played, shown), other)
  {
  }

  lemma MarkHere(played: Played, shown: Slot)
    requires !PlayedOut(played, shown)
    ensures PlayedOut(Mark(played, shown), shown) <==> shown.noRepeat != []
  {
    if shown.noRepeat != [] {
      var p := shown.noRepeat[0];
      assert p in shown.noRepeat && shown.occurrenceId in Mark(played, shown)[p];
    }
  }

  lemma WrapApart(i: nat, j: nat, k: nat, n: nat)
    requires i < n && k < j < n
    ensures Wrap(i + j, n) != Wrap(i + k, n)
  {
  }

  // The walk stands k places past the first, and nothing from there to the end of the cycle is played out.
  ghost predicate CycleAt(t: State, assets: seq<Slot>, first: nat, k: nat)
    requires assets != []
  {
    && StandsAt(t, assets, first + k)
    && forall j :: k <= j < |assets| ==> !PlayedOut(t.played, SlotAt(t, first, j))
  }

  lemma ShowsHere(s: State, shuffle: bool)
    requires s.assets != [] && !PlayedOut(s.played, s.assets[Start(s)])
    ensures var shown := s.assets[Start(s)];
            Rotate(s, shuffle).1 == Some(shown)
            && Rotate(s, shuffle).0.played == Mark(s.played, shown)
            && Rotate(s, shuffle).0.index == Wrap(Start(s) + 1, |s.assets|)
            && Rotate(s, shuffle).0.assets == s.assets && !Rotate(s, shuffle).0.reverse
  {
    assert SlotAt(s, Start(s), 0) == s.assets[Start(s)];
    ShowsFirstUnplayed(s, shuffle, 0);
  }

  lemma CycleNext(t: State, shuffle: bool, first: nat, k: nat)
    requires t.assets != [] && DistinctBy(SlotId, t.assets) && first < |t.assets| && k < |t.assets|
    requires CycleAt(t, t.assets, first, k)
    ensures Rotate(t, shuffle).1 == Some(t.assets[Wrap(first + k, |t.assets|)])
    ensures CycleAt(Rotate(t, shuffle).0, t.assets, first, k + 1)
  {
    hide Rotate, PlayedOut, Mark, Wrap;
    var n, shown, after := |t.assets|, SlotAt(t, first, k), Rotate(t, shuffle).0;
    assert Start(t) == Wrap(first + k, n);
    ShowsHere(t, shuffle);
    WrapStep(first + k, n);
    forall j | k < j < n
      ensures !PlayedOut(after.played, SlotAt(after, first, j))
    {
      WrapApart(first, j, k, n);
      ApartById(t.assets, Wrap(first + j, n), Wrap(first + k, n));
      MarkElsewhere(t.played, shown, SlotAt(t, first, j));
    }
  }

  lemma ApartById(slots: seq<Slot>, i: nat, j: nat)
    requires DistinctBy(SlotId, slots) && i < |slots| && j < |slots| && i != j
    ensures slots[i].occurrenceId != slots[j].occurrenceId
  {
    assert SlotId(slots[i]) != SlotId(slots[j]);
  }

  lemma SamePlace(slots: seq<Slot>, i: nat, j: nat)
    requires DistinctBy(SlotId, slots) && i < |slots| && j < |slots| && slots[i] == slots[j]
    ensures i == j
  {
    assert SlotId(slots[i]) == SlotId(slots[j]);
  }

  lemma FirstPlaces(s: State)
    requires s.assets != [] && NothingPlayedOut(s) && !s.reverse && s.index < |s.assets|
    ensures CycleAt(s, s.assets, s.index, 0)
  {
  }

  lemma {:induction false} CycleAfter(s: State, shuffle: bool, k: nat)
    requires s.assets != [] && DistinctBy(SlotId, s.assets) && NothingPlayedOut(s)
    requires !s.reverse && s.index < |s.assets| && k <= |s.assets|
    ensures CycleAt(Rotations(s, shuffle, k), s.assets, s.index, k)
  {
    hide Rotate, Wrap, PlayedOut;
    if k == 0 {
      FirstPlaces(s);
    } else {
      CycleAfter(s, shuffle, k - 1);
      CycleNext(Rotations(s, shuffle, k - 1), shuffle, s.index, k - 1);
    }
  }

  /** With nothing played out yet, one cycle shows every occurrence once, in order, play-once or not. */
  lemma FirstCycleShows(s: State, shuffle: bool, k: nat)
    requires s.assets != [] && DistinctBy(SlotId, s.assets) && NothingPlayedOut(s)
    requires !s.reverse && s.index < |s.assets| && k < |s.assets|
    ensures Rotate(Rotations(s, shuffle, k), shuffle).1 == Some(s.assets[Wrap(s.index + k, |s.assets|)])
  {
    hide Rotate;
    CycleAfter(s, shuffle, k);
    CycleNext(Rotations(s, shuffle, k), shuffle, s.index, k);
  }

  // ----- "previous"

  // Where "previous" starts looking, from just past position i.
  lemma BackFrom(i: nat, n: nat)
    requires i < n
    ensures Wrap(Wrap(i + 1, n) - 2, n) == Wrap(i - 1, n)
    ensures Wrap(Wrap(i - 1, n) + 1, n) == i
    ensures Wrap(Wrap(i - 1, n) + 2, n) == Wrap(i + 1, n)
  {
  }

  lemma ShownIsNotPlayedOut(s: State, shuffle: bool)
    requires s.assets != [] && Rotate(s, shuffle).1.Some?
    ensures !PlayedOut(s.played, Rotate(s, shuffle).1.value)
  {
  }

  lemma KeepsPlayedOut(s: State, shuffle: bool, slot: Slot)
    requires s.assets != [] && PlayedOut(s.played, slot)
    ensures PlayedOut(Rotate(s, shuffle).0.played, slot)
  {
    var p :| p in slot.noRepeat && p in s.played && slot.occurrenceId in s.played[p];
    RotateMarks(s, shuffle);
    assert HasPlayed(s, p, slot.occurrenceId);
    assert HasPlayed(Rotate(s, shuffle).0, p, slot.occurrenceId);
  }

  lemma MarkNothing(played: Played, slot: Slot)
    requires slot.noRepeat == []
    ensures Mark(played, slot) == played
  {
    assert played.Keys + (set q | q in slot.noRepeat) == played.Keys;
    assert forall p :: p in played ==> Mark(played, slot)[p] == played[p];
  }

  lemma MarkAgain(played: Played, a: Slot, b: Slot)
    requires !PlayedOut(played, a)
    ensures PlayedOut(Mark(Mark(played, a), b), a) <==> a.noRepeat != []
  {
    if a.noRepeat != [] {
      var p := a.noRepeat[0];
      assert p in a.noRepeat && a.occurrenceId in Mark(played, a)[p];
      assert a.occurrenceId in Mark(Mark(played, a), b)[p];
    }
  }

  // The call showed position i.
  ghost predicate Shows(s: State, shuffle: bool, i: nat) {
    s.assets != [] && DistinctBy(SlotId, s.assets) && i < |s.assets| && Rotate(s, shuffle).1 == Some(s.assets[i])
  }

  // Where a call that shows position i leaves the walk.
  lemma AfterShowing(s: State, shuffle: bool, i: nat)
    requires Shows(s, shuffle, i)
    ensures !PlayedOut(s.played, s.assets[i])
    ensures var t := Rotate(s, shuffle).0;
            t.assets == s.assets && !t.reverse && t.index == Wrap(i + 1, |s.assets|) && t.played == Mark(s.played, s.assets[i])
  {
    hide PlayedOut, Mark, Wrap;
    var n := |s.assets|;
    var k := Skips(s, Start(s), 0);
    var at := Wrap(Start(s) + k, n);
    SamePlace(s.assets, at, i);
    WrapStep(Start(s) + k, n);
  }

  // The scheduler after that call and a press of "previous".
  function Pressed(s: State, shuffle: bool): (r: State)
    requires s.assets != []
    ensures r.assets == s.assets
  {
    Rotate(s, shuffle).0.(reverse := true)
  }

  lemma PressedStart(s: State, shuffle: bool, i: nat)
    requires Shows(s, shuffle, i)
    ensures Start(Pressed(s, shuffle)) == Wrap(i - 1, |s.assets|) && Pressed(s, shuffle).played == Mark(s.played, s.assets[i])
  {
    hide Rotate, Mark, PlayedOut;
    AfterShowing(s, shuffle, i);
    BackFrom(i, |s.assets|);
  }

  // The slot before can be shown: it is.
  lemma BackToBefore(s: State, shuffle: bool, i: nat)
    requires Shows(s, shuffle, i)
    requires !PlayedOut(s.played, s.assets[Wrap(i - 1, |s.assets|)]) && (|s.assets| > 1 || s.assets[i].noRepeat == [])
    ensures var (back, b) := Rotate(Pressed(s, shuffle), shuffle);
            && b == Some(s.assets[Wrap(i - 1, |s.assets|)])
            && back.assets == s.assets && back.index == i && !back.reverse
            && (PlayedOut(back.played, s.assets[i]) <==> s.assets[i].noRepeat != [])
  {
    hide Rotate, PlayedOut, Mark;
    var n, a, before := |s.assets|, s.assets[i], s.assets[Wrap(i - 1, |s.assets|)];
    AfterShowing(s, shuffle, i);
    PressedStart(s, shuffle, i);
    BackFrom(i, n);
    if n > 1 {
      ApartById(s.assets, i, Wrap(i - 1, n));
      MarkElsewhere(s.played, a, before);
    } else {
      MarkHere(s.played, a);
    }
    ShowsHere(Pressed(s, shuffle), shuffle);
    MarkAgain(s.played, a, before);
  }

  // It cannot, and the current one repeats: the current one is shown again.
  lemma BackToSame(s: State, shuffle: bool, i: nat)
    requires Shows(s, shuffle, i) && s.assets[i].noRepeat == []
    requires PlayedOut(s.played, s.assets[Wrap(i - 1, |s.assets|)])
    ensures var (back, b) := Rotate(Pressed(s, shuffle), shuffle);
            && b == Some(s.assets[i])
            && back.assets == s.assets && back.index == Wrap(i + 1, |s.assets|) && !back.reverse && back.played == s.played
  {
    hide Rotate, PlayedOut, Mark, Wrap;
    var n, pressed := |s.assets|, Pressed(s, shuffle);
    AfterShowing(s, shuffle, i);
    PressedStart(s, shuffle, i);
    MarkNothing(s.played, s.assets[i]);
    BackFrom(i, n);
    assert SlotAt(pressed, Start(pressed), 0) == s.assets[Wrap(i - 1, n)] by {
      WrapInside(Wrap(i - 1, n), n);
    }
    assert SlotAt(pressed, Start(pressed), 1) == s.assets[i];
    ShowsFirstUnplayed(pressed, shuffle, 1);
    assert Shows(pressed, shuffle, i);
    AfterShowing(pressed, shuffle, i);
  }

  lemma WrapInside(i: nat, n: nat)
    requires i < n
    ensures Wrap(i + 0, n) == i
  {
  }

  lemma CycleEnds(i: nat, j: nat, n: nat)
    requires i < n && j < n
    ensures Wrap(Wrap(i + 1, n) + j, n) == i <==> j == n - 1
  {
  }

  ghost predicate OthersPlayedOut(s: State, i: nat)
    requires i < |s.assets|
  {
    forall j :: 0 <= j < |s.assets| && j != i ==> PlayedOut(s.played, s.assets[j])
  }

  // From just past position i, that slot comes round first exactly when there is no other to show.
  lemma ComesRound(t: State, shuffle: bool, i: nat)
    requires t.assets != [] && DistinctBy(SlotId, t.assets) && i < |t.assets|
    requires !t.reverse && t.index == Wrap(i + 1, |t.assets|) && !PlayedOut(t.played, t.assets[i])
    ensures Rotate(t, shuffle).1 == Some(t.assets[i]) <==> OthersPlayedOut(t, i)
  {
    hide PlayedOut, Mark, Wrap;
    var n, from := |t.assets|, t.index;
    WrapInside(from, n);
    assert Start(t) == from;
    var k := Skips(t, from, 0);
    CycleEnds(i, n - 1, n);
    assert SlotAt(t, from, n - 1) == t.assets[i];
    if OthersPlayedOut(t, i) {
      forall j | 0 <= j < n - 1
        ensures PlayedOut(t.played, SlotAt(t, from, j))
      {
        CycleEnds(i, j, n);
      }
      assert k == n - 1;
    }
    if Rotate(t, shuffle).1 == Some(t.assets[i]) {
      SamePlace(t.assets, Wrap(from + k, n), i);
      CycleEnds(i, k, n);
      forall m | 0 <= m < n && m != i
        ensures PlayedOut(t.played, t.assets[m])
      {
        var j := WalkReaches(from, m, n);
        assert SlotAt(t, from, j) == t.assets[m];
      }
    }
  }

  lemma NeverAgain(s: State, shuffle: bool, i: nat)
    requires Shows(s, shuffle, i) && s.assets[i].noRepeat != []
    ensures var (back, b) := Rotate(Pressed(s, shuffle), shuffle);
            && back.assets == s.assets && b != Some(s.assets[i]) && Rotate(back, shuffle).1 != Some(s.assets[i])
  {
    hide Rotate, PlayedOut, Mark;
    var a, pressed := s.assets[i], Pressed(s, shuffle);
    AfterShowing(s, shuffle, i);
    MarkHere(s.played, a);
    RotateMarks(pressed, shuffle);
    KeepsPlayedOut(pressed, shuffle, a);
    var back := Rotate(pressed, shuffle).0;
    if Rotate(pressed, shuffle).1.Some? {
      ShownIsNotPlayedOut(pressed, shuffle);
    }
    if Rotate(back, shuffle).1.Some? {
      ShownIsNotPlayedOut(back, shuffle);
    }
  }

  // "Previous" then "next" leads back to position i, and leaves the walk where it was.
  ghost predicate Returns(s: State, shuffle: bool, i: nat)
    requires i < |s.assets|
  {
    var back := Rotate(Pressed(s, shuffle), shuffle).0;
    && back.assets == s.assets
    && Rotate(back, shuffle).1 == Some(s.assets[i])
    && Rotate(back, shuffle).0.index == Rotate(s, shuffle).0.index
  }

  /** "Previous" shows the occurrence just before the current one exactly when that one may still be shown. */
  lemma PreviousShowsBefore(s: State, shuffle: bool, i: nat)
    requires Shows(s, shuffle, i)
    ensures var before := s.assets[Wrap(i - 1, |s.assets|)];
            Rotate(Pressed(s, shuffle), shuffle).1 == Some(before) <==>
            !PlayedOut(s.played, before) && (|s.assets| > 1 || s.assets[i].noRepeat == [])
  {
    hide Rotate, PlayedOut, Mark;
    var before, pressed := s.assets[Wrap(i - 1, |s.assets|)], Pressed(s, shuffle);
    AfterShowing(s, shuffle, i);
    if PlayedOut(s.played, before) {
      KeepsPlayedOut(s, shuffle, before);
      if Rotate(pressed, shuffle).1.Some? {
        ShownIsNotPlayedOut(pressed, shuffle);
      }
    } else if |s.assets| > 1 || s.assets[i].noRepeat == [] {
      BackToBefore(s, shuffle, i);
    } else {
      NeverAgain(s, shuffle, i);
    }
  }

  /**
   "Previous" and then another call come back to the occurrence that was left exactly when no play-once
   playlist holds it and either the one before it may still be shown or no other may.
   */
  lemma PreviousThenNext(s: State, shuffle: bool, i: nat)
    requires Shows(s, shuffle, i)
    ensures Returns(s, shuffle, i) <==>
            && s.assets[i].noRepeat == []
            && (!PlayedOut(s.played, s.assets[Wrap(i - 1, |s.assets|)]) || OthersPlayedOut(s, i))
    ensures s.assets[i].noRepeat != [] || !(!PlayedOut(s.played, s.assets[Wrap(i - 1, |s.assets|)]) || OthersPlayedOut(s, i)) ==>
              var back := Rotate(Pressed(s, shuffle), shuffle).0;
              back.assets == s.assets && Rotate(back, shuffle).1 != Some(s.assets[i])
  {
    hide Rotate, PlayedOut, Mark, Wrap;
    var n, back := |s.assets|, Rotate(Pressed(s, shuffle), shuffle).0;
    AfterShowing(s, shuffle, i);
    if s.assets[i].noRepeat != [] {
      NeverAgain(s, shuffle, i);
    } else if !PlayedOut(s.played, s.assets[Wrap(i - 1, n)]) {
      BackToBefore(s, shuffle, i);
      WrapInside(i, n);
      ShowsHere(back, shuffle);
    } else {
      BackToSame(s, shuffle, i);
      ComesRound(back, shuffle, i);
      if OthersPlayedOut(s, i) {
        assert Shows(back, shuffle, i);
        AfterShowing(back, shuffle, i);
      }
    }
  }

  function SampleAsset(id: AssetId): Asset {
    Asset(id, true, false, 0, Window(Malformed, None, None), "")
  }

  // A play-once occurrence already shown, then two repeating ones, and the walk on the first of these.
  const AFTER_FIRST_CALL: State :=
    State([Slot("1", SampleAsset("p"), [7]), Slot("2", SampleAsset("a"), []), Slot("3", SampleAsset("b"), [])],
          0, Some("p"), None, None, 1, false, 0, map[7 := {"1"}], map[7 := {"1"}])

  /** What a first call leaves can fail it: "previous" shows the same asset again, and the next call another. */
  lemma PreviousCanLoseThePlace()
    ensures Consistent(AFTER_FIRST_CALL) && Shows(AFTER_FIRST_CALL, false, 1)
    ensures AFTER_FIRST_CALL.assets[1].noRepeat == [] && !Returns(AFTER_FIRST_CALL, false, 1)
    ensures Rotate(Pressed(AFTER_FIRST_CALL, false), false).1 == Some(AFTER_FIRST_CALL.assets[1])
  {
    hide Rotate, PlayedOut, Mark, Consistent;
    SampleConsistent();
    SamplePlayed();
    ShowsHere(AFTER_FIRST_CALL, false);
    assert Shows(AFTER_FIRST_CALL, false, 1);
    PreviousThenNext(AFTER_FIRST_CALL, false, 1);
    BackToSame(AFTER_FIRST_CALL, false, 1);
  }

  lemma SamplePlayed()
    ensures var s := AFTER_FIRST_CALL;
            PlayedOut(s.played, s.assets[0]) && !PlayedOut(s.played, s.assets[1]) && !PlayedOut(s.played, s.assets[2])
    ensures DistinctBy(SlotId, AFTER_FIRST_CALL.assets)
  {
    var s := AFTER_FIRST_CALL;
    assert 7 in s.assets[0].noRepeat && s.assets[0].occurrenceId in s.played[7];
  }

  lemma SampleConsistent()
    ensures Consistent(AFTER_FIRST_CALL)
  {
    var s := AFTER_FIRST_CALL;
    assert s.assets[0] in s.assets && 7 in s.assets[0].noRepeat;
    assert Under(s.assets, 7) == {"1"};
    assert (set x, q | x in s.assets && q in x.noRepeat :: q) == {7};
  }
}
