/**
 The day-of-week / time-of-day window shared by assets and playlists, and the proof that its
 branches compute one formula on a circular week.
 */
module PlayWindow {
  import opened Collections

  // Local time, in microseconds since a Monday 00:00.
  type Instant = int
  const DAY: int := 86_400_000_000
  const WEEK: int := 7 * DAY

  type TimeOfDay = t: int | 0 <= t < DAY

  // A parsed element of the play_days column. Booleans are integers to the isinstance check.
  datatype Json = Number(n: int) | Boolean(b: bool) | Other

  datatype PlayDays = Days(values: seq<Json>) | Malformed

  datatype Window = Window(playDays: PlayDays, timeFrom: Option<TimeOfDay>, timeTo: Option<TimeOfDay>)

  const ALL_DAYS: set<int> := {1, 2, 3, 4, 5, 6, 7}

  predicate IsDay(v: Json) {
    match v
    case Number(n) => 1 <= n <= 7
    case Boolean(b) => b
    case Other => false
  }

  function DayNumber(v: Json): int {
    match v
    case Number(n) => n
    case Boolean(b) => if b then 1 else 0
    case Other => 0
  }

  /** The sorted, deduplicated day list, as the set it denotes; every fallback is "all days". */
  function GetPlayDays(w: Window): (days: set<int>)
    ensures days != {} && days <= ALL_DAYS
  {
    match w.playDays
    case Malformed => ALL_DAYS
    case Days(values) =>
      if values == [] || exists v :: v in values && !IsDay(v) then ALL_DAYS else
        assert values[0] in values;
        var days := set v | v in values :: DayNumber(v);
        assert DayNumber(values[0]) in days;
        days
  }

  function Weekday(now: Instant): int { now / DAY % 7 + 1 }

  function TimeOf(now: Instant): TimeOfDay { now % DAY }

  function Yesterday(weekday: int): int {
    if weekday > 1 then weekday - 1 else 7
  }

  predicate HasWindowFilter(w: Window) {
    (w.timeFrom.Some? && w.timeTo.Some?) || GetPlayDays(w) != ALL_DAYS
  }

  predicate Matches(w: Window, now: Instant) {
    var weekday := Weekday(now);
    var days := GetPlayDays(w);
    if w.timeFrom.None? || w.timeTo.None? then
      weekday in days
    else
      var current, from, to := TimeOf(now), w.timeFrom.value, w.timeTo.value;
      if from <= to then
        weekday in days && from <= current < to
      else if from <= current then
        weekday in days
      else if current < to then
        Yesterday(weekday) in days
      else
        false
  }

  // ----- the circular-week specification

  // When a window of the week opens on day `day`, and for how long.
  function Opening(w: Window, day: int): Instant {
    (day - 1) * DAY + if w.timeFrom.Some? && w.timeTo.Some? then w.timeFrom.value else 0
  }

  function OpenFor(w: Window): int {
    if w.timeFrom.Some? && w.timeTo.Some? then (w.timeTo.value - w.timeFrom.value) % DAY else DAY
  }

  predicate OpenOn(w: Window, day: int, now: Instant) {
    (now - Opening(w, day)) % WEEK < OpenFor(w)
  }

  lemma SplitInstant(now: Instant) returns (week: int)
    ensures 1 <= Weekday(now) <= 7
    ensures now == week * WEEK + (Weekday(now) - 1) * DAY + TimeOf(now)
  {
    week := now / DAY / 7;
  }

  // The residue of an offset that lies within one week of zero.
  lemma ModWeek(x: int, k: int)
    requires -WEEK <= x < WEEK
    ensures (k * WEEK + x) % WEEK == if x < 0 then x + WEEK else x
  {
  }

  lemma OpenOnCases(w: Window, day: int, now: Instant)
    requires 1 <= day <= 7
    ensures OpenOn(w, day, now) <==>
      var x := (Weekday(now) - day) * DAY + TimeOf(now) - (Opening(w, day) - (day - 1) * DAY);
      (if x < 0 then x + WEEK else x) < OpenFor(w)
  {
    var week := SplitInstant(now);
    var x := (Weekday(now) - day) * DAY + TimeOf(now) - (Opening(w, day) - (day - 1) * DAY);
    ModWeek(x, week);
    assert now - Opening(w, day) == week * WEEK + x;
  }

  // Only today's and yesterday's windows can be open.
  lemma OpenOnlyAround(w: Window, day: int, now: Instant)
    requires 1 <= day <= 7 && OpenOn(w, day, now)
    ensures day == Weekday(now) || day == Yesterday(Weekday(now))
  {
    OpenOnCases(w, day, now);
  }

  lemma MatchesAround(w: Window, now: Instant)
    ensures var today, days := Weekday(now), GetPlayDays(w);
            Matches(w, now) <==>
            (today in days && OpenOn(w, today, now)) || (Yesterday(today) in days && OpenOn(w, Yesterday(today), now))
  {
    hide GetPlayDays, OpenOn, Weekday;
    var _ := SplitInstant(now);
    OpenOnCases(w, Weekday(now), now);
    OpenOnCases(w, Yesterday(Weekday(now)), now);
  }

  /** Same-day, overnight, Sunday-to-Monday, empty and absent windows are one formula. */
  lemma MatchesIsCircularWeek(w: Window, now: Instant)
    ensures Matches(w, now) <==> exists day :: day in GetPlayDays(w) && OpenOn(w, day, now)
  {
    MatchesAround(w, now);
    forall day | day in GetPlayDays(w) && OpenOn(w, day, now)
      ensures day == Weekday(now) || day == Yesterday(Weekday(now))
    {
      assert day in ALL_DAYS;
      OpenOnlyAround(w, day, now);
    }
  }

  /** has_window_filter is exact: it is false just when the window admits every instant. */
  lemma FilterIffSomethingExcluded(w: Window)
    ensures HasWindowFilter(w) <==> exists now :: !Matches(w, now)
  {
    if HasWindowFilter(w) {
      if w.timeFrom.Some? && w.timeTo.Some? {
        assert !Matches(w, w.timeTo.value);
      } else {
        var day :| day in ALL_DAYS && day !in GetPlayDays(w);
        assert Weekday((day - 1) * DAY) == day;
        assert !Matches(w, (day - 1) * DAY);
      }
    } else {
      forall now
        ensures Matches(w, now)
      {
        var _ := SplitInstant(now);
        assert Weekday(now) in ALL_DAYS;
      }
    }
  }

  // ----- the same, spelled out from the stored columns

  // A stored list that names no days: empty, or with an element that is no day.
  predicate NamesNoDays(values: seq<Json>) {
    values == [] || exists v :: v in values && (v == Other || v == Boolean(false) || (v.Number? && (v.n < 1 || v.n > 7)))
  }

  // Monday is 1. True counts as the number 1.
  predicate OnDay(playDays: PlayDays, day: int) {
    && 1 <= day <= 7
    && (playDays.Malformed? || NamesNoDays(playDays.values)
        || Number(day) in playDays.values || (day == 1 && Boolean(true) in playDays.values))
  }

  /** The day list is what is stored, and all seven days if that cannot be used. */
  lemma PlayDaysAsStored(w: Window, day: int)
    ensures day in GetPlayDays(w) <==> OnDay(w.playDays, day)
  {
    if w.playDays.Days? {
      var values := w.playDays.values;
      forall v | v in values
        ensures !IsDay(v) <==> v == Other || v == Boolean(false) || (v.Number? && (v.n < 1 || v.n > 7))
      {
      }
      if !NamesNoDays(values) {
        assert day in GetPlayDays(w) <==> exists v :: v in values && DayNumber(v) == day;
        if v :| v in values && DayNumber(v) == day {
          assert v == Number(day) || v == Boolean(true);
        }
        assert DayNumber(Number(day)) == day && DayNumber(Boolean(true)) == 1;
      }
    }
  }

  /** Open on some stored day: from its opening, for as long as the window lasts, in a week of seven 24-hour days. */
  ghost predicate OpenAt(w: Window, now: Instant) {
    exists day :: OnDay(w.playDays, day) && OpenSince(w, day, now)
  }

  predicate OpenSince(w: Window, day: int, now: Instant) {
    if w.timeFrom.Some? && w.timeTo.Some? then
      (now - ((day - 1) * 86_400_000_000 + w.timeFrom.value)) % 604_800_000_000
        < (w.timeTo.value - w.timeFrom.value) % 86_400_000_000
    else
      (now - (day - 1) * 86_400_000_000) % 604_800_000_000 < 86_400_000_000
  }

  lemma MatchesIffOpen(w: Window, now: Instant)
    ensures Matches(w, now) <==> OpenAt(w, now)
  {
    hide GetPlayDays;
    MatchesIsCircularWeek(w, now);
    forall day
      ensures day in GetPlayDays(w) <==> OnDay(w.playDays, day)
      ensures OpenOn(w, day, now) <==> OpenSince(w, day, now)
    {
      PlayDaysAsStored(w, day);
    }
  }
}
