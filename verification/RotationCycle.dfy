/** One cycle of calls, whatever mix of repeating, unplayed and played-out occurrences it starts from. */
module RotationCycle {
  import opened Collections
  import opened PlayWindow
  import opened PlaylistStore
  import opened Rotation
  import opened PlayOnce
  import opened RotationLaws

  // What the k-th of a row of calls shows.
  function ShownBy(s: State, shuffle: bool, k: nat): Option<Slot>
    requires s.assets != []
  {
    Rotate(Rotations(s, shuffle, k), shuffle).1
  }

  ghost predicate ShownWithin(s: State, shuffle: bool, k: nat, slot: Slot)
    requires s.assets != []
  {
    exists j :: 0 <= j < k && ShownBy(s, shuffle, j) == Some(slot)
  }

  ghost predicate Settled(s: State, shuffle: bool, k: nat, slot: Slot)
    requires s.assets != []
  {
    PlayedOut(s.played, slot) || ShownWithin(s, shuffle, k, slot)
  }

  // After k calls the walk has passed d >= k positions, each of them settled, and so is all that is played out.
  ghost predicate Passed(s: State, shuffle: bool, k: nat, d: nat)
    requires s.assets != []
  {
    var t := Rotations(s, shuffle, k);
    && k <= d
    && Start(t) == Wrap(Start(s) + d, |s.assets|)
    && (forall j :: 0 <= j < d ==> Settled(s, shuffle, k, SlotAt(s, Start(s), j)))
    && (forall slot :: slot in s.assets && PlayedOut(t.played, slot) ==> Settled(s, shuffle, k, slot))
  }

  lemma WrapAdd(i: nat, j: nat, n: nat)
    requires n > 0
    ensures Wrap(Wrap(i, n) + j, n) == Wrap(i + j, n)
  {
    var q, r := i / n, i % n;
    var p, t := (r + j) / n, (r + j) % n;
    assert i == q * n + r && r + j == p * n + t;
    Distribute(q, p, n);
    ModUnique(i + j, n, q + p, t);
  }

  lemma Distribute(q: int, p: int, n: int)
    ensures (q + p) * n == q * n + p * n
  {
  }

  lemma SettledLater(s: State, shuffle: bool, k: nat, slot: Slot)
    requires s.assets != [] && Settled(s, shuffle, k, slot)
    ensures Settled(s, shuffle, k + 1, slot)
  {
    hide PlayedOut, ShownBy;
  }

  lemma ShownSettles(s: State, shuffle: bool, k: nat, slot: Slot)
    requires s.assets != [] && ShownBy(s, shuffle, k) == Some(slot)
    ensures Settled(s, shuffle, k + 1, slot)
  {
    hide PlayedOut, ShownBy;
  }

  // How far call k takes the walk.
  function Reach(t: State): (n: nat)
    requires t.assets != []
    ensures 1 <= n <= |t.assets|
  {
    var n := Skips(t, Start(t), 0);
    if n == |t.assets| then n else n + 1
  }

  lemma RotateReaches(t: State, shuffle: bool)
    requires t.assets != []
    ensures Start(Rotate(t, shuffle).0) == Wrap(Start(t) + Reach(t), |t.assets|)
    ensures forall j :: 0 <= j < Reach(t) ==>
                          PlayedOut(t.played, SlotAt(t, Start(t), j)) || Rotate(t, shuffle).1 == Some(SlotAt(t, Start(t), j))
  {
    hide PlayedOut, Mark;
  }

  lemma NewlyPlayedOut(t: State, shuffle: bool, slot: Slot)
    requires t.assets != [] && DistinctBy(SlotId, t.assets) && slot in t.assets
    requires PlayedOut(Rotate(t, shuffle).0.played, slot)
    ensures PlayedOut(t.played, slot) || Rotate(t, shuffle).1 == Some(slot)
  {
    hide PlayedOut, Mark;
    var shown := Rotate(t, shuffle).1;
    if shown.Some? && !PlayedOut(t.played, slot) && shown.value.occurrenceId != slot.occurrenceId {
      MarkElsewhere(t.played, shown.value, slot);
    } else if shown.Some? && shown.value.occurrenceId == slot.occurrenceId {
      RotateMarks(t, shuffle);
      assert SlotId(shown.value) == SlotId(slot);
    }
  }

  lemma PositionSettles(s: State, shuffle: bool, k: nat, d: nat, j: nat)
    requires s.assets != [] && Passed(s, shuffle, k, d)
    requires d <= j < d + Reach(Rotations(s, shuffle, k))
    ensures Settled(s, shuffle, k + 1, SlotAt(s, Start(s), j))
  {
    hide Rotate, Rotations, PlayedOut, Settled, Wrap, Reach;
    var t := Rotations(s, shuffle, k);
    WrapAdd(Start(s) + d, j - d, |s.assets|);
    var slot := SlotAt(t, Start(t), j - d);
    assert slot == SlotAt(s, Start(s), j);
    RotateReaches(t, shuffle);
    InAssets(t, Start(t), j - d);
    if PlayedOut(t.played, slot) {
      SettledLater(s, shuffle, k, slot);
    } else {
      ShownSettles(s, shuffle, k, slot);
    }
  }

  lemma InAssets(s: State, from: nat, j: nat)
    requires s.assets != []
    ensures SlotAt(s, from, j) in s.assets
  {
  }

  lemma PlayedOutSettles(s: State, shuffle: bool, k: nat, d: nat, slot: Slot)
    requires s.assets != [] && DistinctBy(SlotId, s.assets) && Passed(s, shuffle, k, d)
    requires slot in s.assets && PlayedOut(Rotations(s, shuffle, k + 1).played, slot)
    ensures Settled(s, shuffle, k + 1, slot)
  {
    hide Rotate, PlayedOut, Settled, Wrap;
    var t := Rotations(s, shuffle, k);
    NewlyPlayedOut(t, shuffle, slot);
    if PlayedOut(t.played, slot) {
      SettledLater(s, shuffle, k, slot);
    } else {
      ShownSettles(s, shuffle, k, slot);
    }
  }

  lemma PassedNext(s: State, shuffle: bool, k: nat, d: nat)
    requires s.assets != [] && DistinctBy(SlotId, s.assets) && Passed(s, shuffle, k, d)
    ensures Passed(s, shuffle, k + 1, d + Reach(Rotations(s, shuffle, k)))
  {
    hide Rotate, PlayedOut, Settled, Wrap, Reach;
    var t, n := Rotations(s, shuffle, k), |s.assets|;
    var e := d + Reach(t);
    RotateReaches(t, shuffle);
    WrapAdd(Start(s) + d, Reach(t), n);
    forall j | 0 <= j < e
      ensures Settled(s, shuffle, k + 1, SlotAt(s, Start(s), j))
    {
      if j < d {
        SettledLater(s, shuffle, k, SlotAt(s, Start(s), j));
      } else {
        PositionSettles(s, shuffle, k, d, j);
      }
    }
    forall slot | slot in s.assets && PlayedOut(Rotations(s, shuffle, k + 1).played, slot)
      ensures Settled(s, shuffle, k + 1, slot)
    {
      PlayedOutSettles(s, shuffle, k, d, slot);
    }
  }

  lemma PassedNothing(s: State, shuffle: bool)
    requires s.assets != []
    ensures Passed(s, shuffle, 0, 0)
  {
    hide PlayedOut;
  }

  lemma {:induction false} PassedAfter(s: State, shuffle: bool, k: nat) returns (d: nat)
    requires s.assets != [] && DistinctBy(SlotId, s.assets)
    ensures Passed(s, shuffle, k, d)
  {
    hide Passed, Reach, Rotate, Rotations, Wrap, PlayedOut;
    if k == 0 {
      PassedNothing(s, shuffle);
      d := 0;
    } else {
      d := PassedAfter(s, shuffle, k - 1);
      PassedNext(s, shuffle, k - 1, d);
      d := d + Reach(Rotations(s, shuffle, k - 1));
    }
  }

  /** Any |assets| calls show every occurrence not played out at their start, the repeating ones included. */
  lemma CycleShowsAll(s: State, shuffle: bool, slot: Slot)
    requires s.assets != [] && DistinctBy(SlotId, s.assets)
    requires slot in s.assets && !PlayedOut(s.played, slot)
    ensures ShownWithin(s, shuffle, |s.assets|, slot)
  {
    hide Rotate, Rotations, PlayedOut, Wrap, ShownWithin;
    var n := |s.assets|;
    var d := PassedAfter(s, shuffle, n);
    var m :| 0 <= m < n && s.assets[m] == slot;
    var j := WalkReaches(Start(s), m, n);
    assert SlotAt(s, Start(s), j) == slot;
  }

  lemma {:induction false} PlayedOutStays(s: State, shuffle: bool, i: nat, j: nat, slot: Slot)
    requires s.assets != [] && i <= j && PlayedOut(Rotations(s, shuffle, i).played, slot)
    ensures PlayedOut(Rotations(s, shuffle, j).played, slot)
    decreases j
  {
    hide Rotate, PlayedOut;
    if i < j {
      PlayedOutStays(s, shuffle, i, j - 1, slot);
      KeepsPlayedOut(Rotations(s, shuffle, j - 1), shuffle, slot);
    }
  }

  lemma ShownIsUsedUp(t: State, shuffle: bool, slot: Slot)
    requires t.assets != [] && Rotate(t, shuffle).1 == Some(slot) && slot.noRepeat != []
    ensures PlayedOut(Rotate(t, shuffle).0.played, slot)
  {
    RotateMarks(t, shuffle);
    var p := slot.noRepeat[0];
    assert p in slot.noRepeat;
    assert HasPlayed(Rotate(t, shuffle).0, p, slot.occurrenceId);
  }

  /** And no number of calls shows a play-once occurrence twice. */
  lemma PlayOnceShownOnce(s: State, shuffle: bool, i: nat, j: nat, slot: Slot)
    requires s.assets != [] && i < j && slot.noRepeat != [] && ShownBy(s, shuffle, i) == Some(slot)
    ensures ShownBy(s, shuffle, j) != Some(slot)
  {
    hide Rotate, PlayedOut;
    ShownIsUsedUp(Rotations(s, shuffle, i), shuffle, slot);
    PlayedOutStays(s, shuffle, i + 1, j, slot);
    if ShownBy(s, shuffle, j).Some? {
      ShownIsNotPlayedOut(Rotations(s, shuffle, j), shuffle);
    }
  }
}
