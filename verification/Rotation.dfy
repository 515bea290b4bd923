/** The scheduler's state and its transitions, as functions: the specification of the Scheduler class. */
module Rotation {
  import opened Collections
  import opened PlayWindow
  import opened PlaylistStore
  import opened Expansion
  import opened Evaluation

  // The dict the viewer consumes: the asset's fields, the slot's identity, its non-repeating playlists.
  datatype Slot = Slot(occurrenceId: string, asset: Asset, noRepeat: seq<PlaylistId>)

  type Played = map<PlaylistId, set<string>>

  datatype State = State(
    assets: seq<Slot>,
    counter: nat,
    currentAsset: Option<AssetId>,
    deadline: Option<Instant>,
    extraAsset: Option<AssetId>,
    index: nat,
    reverse: bool,
    lastUpdate: int,
    played: Played,
    members: Played)

  const RESHUFFLE_AFTER: nat := 5

  function NoRepeatIds(path: seq<Playlist>): seq<PlaylistId> {
    Map((p: Playlist) => p.id, Filter((p: Playlist) => !p.repeats, path))
  }

  function SlotOf(o: Occurrence): Slot {
    Slot(o.id, o.asset, NoRepeatIds(o.path))
  }

  function SlotsAt(db: Database, now: Instant): seq<Slot> {
    Map(SlotOf, ActiveAt(db, now))
  }

  function SlotId(s: Slot): string { s.occurrenceId }

  function Ids(slots: seq<Slot>): seq<string> { Map(SlotId, slots) }

  // ----- play-once bookkeeping

  function Under(slots: seq<Slot>, p: PlaylistId): set<string> {
    set s | s in slots && p in s.noRepeat :: s.occurrenceId
  }

  /** The occurrence membership of every non-repeating playlist in a list. */
  function Membership(slots: seq<Slot>): Played {
    map p | p in (set s, q | s in slots && q in s.noRepeat :: q) :: Under(slots, p)
  }

  function Entry(m: Played, p: PlaylistId): Option<set<string>> {
    if p in m then Some(m[p]) else None
  }

  /** What survives a refresh: the played sets whose membership did not change. */
  function KeptPlayed(played: Played, members: Played, newer: Played): Played {
    map p | p in played && Entry(newer, p) == Entry(members, p) :: played[p]
  }

  predicate PlayedOut(played: Played, s: Slot) {
    exists p :: p in s.noRepeat && p in played && s.occurrenceId in played[p]
  }

  function Mark(played: Played, s: Slot): Played {
    map p | p in played.Keys + (set q | q in s.noRepeat) ::
      (if p in played then played[p] else {}) + (if p in s.noRepeat then {s.occurrenceId} else {})
  }

  // ----- refreshing the list

  function ById(newer: seq<Slot>): map<string, Slot> {
    if newer == [] then map[] else
      var last := newer[|newer| - 1];
      ById(newer[..|newer| - 1])[last.occurrenceId := last]
  }

  lemma {:induction false} ByIdKeys(newer: seq<Slot>, id: string)
    ensures id in ById(newer) <==> exists s :: s in newer && s.occurrenceId == id
    ensures id in ById(newer) ==> ById(newer)[id] in newer && ById(newer)[id].occurrenceId == id
  {
    if newer != [] {
      var init, last := newer[..|newer| - 1], newer[|newer| - 1];
      ByIdKeys(init, id);
      assert newer == init + [last];
    }
  }

  predicate SameIds(a: seq<Slot>, b: seq<Slot>) {
    multiset(Ids(a)) == multiset(Ids(b))
  }

  lemma SameIdsPresent(current: seq<Slot>, newer: seq<Slot>, s: Slot)
    requires SameIds(current, newer) && s in current
    ensures s.occurrenceId in ById(newer)
  {
    var k :| 0 <= k < |current| && current[k] == s;
    assert Ids(current)[k] == s.occurrenceId;
    SameElements(Ids(current), Ids(newer));
    assert s.occurrenceId in Ids(newer);
    var j :| 0 <= j < |newer| && Ids(newer)[j] == s.occurrenceId;
    assert newer[j] in newer;
    ByIdKeys(newer, s.occurrenceId);
  }

  /** New field values in the order being played. */
  function Reordered(current: seq<Slot>, newer: seq<Slot>): (r: seq<Slot>)
    requires SameIds(current, newer)
    ensures Ids(r) == Ids(current)
  {
    var byId := ById(newer);
    var r := seq(|current|, i requires 0 <= i < |current| =>
                   SameIdsPresent(current, newer, current[i]); byId[current[i].occurrenceId]);
    assert Ids(r) == Ids(current) by {
      forall i | 0 <= i < |current|
        ensures r[i].occurrenceId == current[i].occurrenceId
      {
        SameIdsPresent(current, newer, current[i]);
        ByIdKeys(newer, current[i].occurrenceId);
      }
    }
    r
  }

  // One evaluation as update_playlist receives it: the mtime it recorded beforehand, and the database
  // version and instant the evaluation really had.
  datatype Listing = Listing(mtime: int, version: nat, at: Instant, slots: seq<Slot>, deadline: Option<Instant>)

  function Install(s: State, l: Listing): State {
    s.(assets := l.slots, deadline := l.deadline, counter := 0, index := if l.slots == [] then 0 else Wrap(s.index, |l.slots|))
  }

  function Update(s: State, l: Listing, shuffle: bool, allowReshuffle: bool): State {
    var newer := Membership(l.slots);
    var t := s.(lastUpdate := l.mtime, played := KeptPlayed(s.played, s.members, newer), members := newer);
    if shuffle && !allowReshuffle then
      if SameIds(s.assets, l.slots) then t.(assets := Reordered(s.assets, l.slots), deadline := l.deadline) else Install(t, l)
    else if l.slots == s.assets && l.deadline == s.deadline then t
    else Install(t, l)
  }

  // What one get_next_asset call reads: the shuffle setting, the row a jump asks for, the mtime and
  // clock its refresh sees, and the listing it gets if it rebuilds.
  datatype Call = Call(shuffle: bool, requested: Option<Asset>, mtime: int, now: Instant, listing: Listing)

  predicate Expired(deadline: Option<Instant>, now: Instant) {
    deadline.Some? && deadline.value <= now
  }

  function Refresh(s: State, c: Call): State {
    if c.mtime > s.lastUpdate then Update(s, c.listing, c.shuffle, false)
    else if c.shuffle && s.counter >= RESHUFFLE_AFTER then Update(s, c.listing, c.shuffle, true)
    else if Expired(s.deadline, c.now) then Update(s, c.listing, c.shuffle, false)
    else s
  }

  // ----- the rotation

  lemma ModUnique(i: int, n: int, q: int, r: int)
    requires 0 <= r < n && i == q * n + r
    ensures i % n == r
  {
    var d := i / n - q;
    assert d * n == r - i % n;
    assert d > 0 ==> d * n >= n;
    assert d < 0 ==> d * n <= -n;
  }

  /** Python's remainder for a positive modulus. */
  function Wrap(i: int, n: int): (r: int)
    requires n > 0
    ensures 0 <= r < n
    ensures 0 <= i < n ==> r == i
    ensures n <= i < 2 * n ==> r == i - n
    ensures -n <= i < 0 ==> r == i + n
  {
    assert 0 <= i < n ==> i % n == i by {
      if 0 <= i < n {
        ModUnique(i, n, 0, i);
      }
    }
    assert n <= i < 2 * n ==> i % n == i - n by {
      if n <= i < 2 * n {
        ModUnique(i, n, 1, i - n);
      }
    }
    assert -n <= i < 0 ==> i % n == i + n by {
      if -n <= i < 0 {
        ModUnique(i, n, -1, i + n);
      }
    }
    i % n
  }

  // The first position the walk looks at.
  function Start(s: State): (r: nat)
    requires s.assets != []
    ensures r < |s.assets|
  {
    Wrap(if s.reverse then s.index - 2 else s.index, |s.assets|)
  }

  function SlotAt(s: State, from: nat, j: nat): Slot
    requires s.assets != []
  {
    s.assets[Wrap(from + j, |s.assets|)]
  }

  // How many positions from `from` on are played out, starting at the k-th; |assets| if all of them.
  function Skips(s: State, from: nat, k: nat): (n: nat)
    requires s.assets != [] && k <= |s.assets|
    ensures k <= n <= |s.assets|
    ensures forall j :: k <= j < n ==> PlayedOut(s.played, SlotAt(s, from, j))
    ensures n < |s.assets| ==> !PlayedOut(s.played, SlotAt(s, from, n))
    decreases |s.assets| - k
  {
    if k == |s.assets| || !PlayedOut(s.played, SlotAt(s, from, k)) then k else Skips(s, from, k + 1)
  }

  // The walk state after looking at n positions: it passed the end of the list at most once.
  function Walked(s: State, shuffle: bool, n: nat): State
    requires s.assets != []
  {
    var size := |s.assets|;
    s.(index := Wrap(Start(s) + n, size),
    reverse := s.reverse && n == 0,
    counter := s.counter + if shuffle && Start(s) + n >= size then 1 else 0)
  }

  // The walk itself: at most one full cycle, up to the first occurrence not played out.
  function Search(s: State, shuffle: bool): (State, Option<Slot>)
    requires s.assets != []
  {
    var n := Skips(s, Start(s), 0);
    if n == |s.assets| then (Walked(s, shuffle, n), None) else (Walked(s, shuffle, n + 1), Some(SlotAt(s, Start(s), n)))
  }

  function Rotate(s: State, shuffle: bool): (State, Option<Slot>)
    requires s.assets != []
  {
    var (t, slot) := Search(s, shuffle);
    if slot.None? then
      (t.(currentAsset := None), None)
    else
      (t.(played := Mark(s.played, slot.value), currentAsset := Some(slot.value.asset.id)), slot)
  }

  datatype Shown = Nothing | Jumped(asset: Asset) | Rotated(slot: Slot)

  predicate Displayable(requested: Option<Asset>) {
    requested.Some? && !requested.value.isProcessing
  }

  function Next(s: State, c: Call): (State, Shown) {
    if s.extraAsset.Some? && Displayable(c.requested) then
      (s.(currentAsset := s.extraAsset, extraAsset := None), Jumped(c.requested.value))
    else
      var r := Refresh(s.(extraAsset := None), c);
      if r.assets == [] then
        (r.(currentAsset := None), Nothing)
      else
        var (after, slot) := Rotate(r, c.shuffle);
        (after, if slot.Some? then Rotated(slot.value) else Nothing)
  }

  function Initial(l: Listing, shuffle: bool): State {
    Update(State([], 0, None, None, None, 0, false, 0, map[], map[]), l, shuffle, false)
  }

  // ----- what may happen to a scheduler

  // A call of get_next_asset, the "previous" button, or a jump to an asset.
  datatype Event = Advance(call: Call) | Back | JumpTo(asset: AssetId)

  function Step(s: State, e: Event): (State, Shown) {
    match e
    case Advance(c) => Next(s, c)
    case Back => (s.(reverse := true), Nothing)
    case JumpTo(a) => (s.(extraAsset := Some(a)), Nothing)
  }

  function StateAt(s: State, events: seq<Event>, k: nat): State
    requires k <= |events|
  {
    if k == 0 then s else Step(StateAt(s, events, k - 1), events[k - 1]).0
  }

  function ShownAt(s: State, events: seq<Event>, k: nat): Shown
    requires k < |events|
  {
    Step(StateAt(s, events, k), events[k]).1
  }
}
