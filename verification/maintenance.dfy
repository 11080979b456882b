/**
 Scheduled downtime windows (uptime_monitor/maintenance.py).

 Instants are microseconds since 0001-01-01 00:00 in the site's own time, a Monday,
 so that the weekday of a day is its number modulo 7 and day boundaries are
 multiples of DAY.
 */
module Maintenance {
  import opened Wrappers

  const SECOND := 1_000_000
  const DAY := 86_400 * SECOND
  const SEARCH_DAYS := 8

  datatype Weekday = Monday | Tuesday | Wednesday | Thursday | Friday | Saturday | Sunday

  function Number(d: Weekday): nat {
    match d
    case Monday => 0
    case Tuesday => 1
    case Wednesday => 2
    case Thursday => 3
    case Friday => 4
    case Saturday => 5
    case Sunday => 6
  }

  function WeekdayOf(day: int): (d: Weekday)
    ensures Number(d) == day % 7
  {
    [Monday, Tuesday, Wednesday, Thursday, Friday, Saturday, Sunday][day % 7]
  }

  /** Fields left empty in the record are None. */
  datatype Window =
    | OneTime(start: Option<int>, end: Option<int>)
    | Daily(from: Option<int>, to: Option<int>)
    | Weekly(days: set<Weekday>, allDay: bool, from: Option<int>, to: Option<int>)

  type Span = (int, int)

  /** What saving a window checks, and times of day being times of a day. */
  ghost predicate Valid(w: Window) {
    match w
    case OneTime(s, e) => s.Some? && e.Some? ==> s.value < e.value
    case Daily(from, to) => ClockTime(from) && ClockTime(to)
    case Weekly(_, _, from, to) => ClockTime(from) && ClockTime(to)
  }

  ghost predicate ClockTime(t: Option<int>) {
    t.Some? ==> 0 <= t.value < DAY
  }

  // ---------------------------------------------------------------------------
  // The calendar, without any bound
  // ---------------------------------------------------------------------------

  /** The times of day a repeating window runs between, if it runs at all. */
  function Hours(w: Window): Option<Span>
    requires !w.OneTime?
  {
    if w.Weekly? && w.days == {} then None
    else if w.Weekly? && w.allDay then Some((0, 0))
    else if w.from.None? || w.to.None? then None
    else Some((w.from.value, w.to.value))
  }

  predicate RunsOn(w: Window, day: int)
    requires !w.OneTime?
  {
    w.Weekly? ==> WeekdayOf(day) in w.days
  }

  /** An end at or before the start runs past midnight. */
  function SpanOn(day: int, hours: Span): Span {
    (day * DAY + hours.0, if hours.1 > hours.0 then day * DAY + hours.1 else day * DAY + DAY + hours.1)
  }

  ghost predicate OccursOn(w: Window, day: int, o: Span)
    requires !w.OneTime?
  {
    Hours(w).Some? && RunsOn(w, day) && o == SpanOn(day, Hours(w).value)
  }

  /** `o` is one of the window's occurrences, over all time. */
  ghost predicate Occurs(w: Window, o: Span) {
    if w.OneTime? then w.start == Some(o.0) && w.end == Some(o.1)
    else exists day :: OccursOn(w, day, o)
  }

  ghost predicate Overlaps(o: Span, start: int, end: int) {
    o.0 < end && o.1 > start
  }

  /** A repeating window that runs at all, so runs every week for ever. */
  ghost predicate Repeats(w: Window) {
    !w.OneTime? && Hours(w).Some?
  }

  /** The instant falls on one of the weekdays; day 0 is a Monday. */
  ghost predicate FallsOn(at: int, days: set<Weekday>) {
    exists d :: d in days && (at / DAY) % 7 == Number(d)
  }

  /** The span starts at one time of day and ends at the other, at most a day later. */
  ghost predicate RunsBetween(o: Span, from: int, to: int) {
    o.0 % DAY == from && o.1 % DAY == to && 0 < o.1 - o.0 <= DAY
  }

  lemma {:induction false} SpanMeans(day: int, hours: Span, o: Span)
    requires 0 <= hours.0 < DAY && 0 <= hours.1 < DAY
    ensures o == SpanOn(day, hours) <==> o.0 / DAY == day && RunsBetween(o, hours.0, hours.1)
  {
    TimeOfDay(day, hours.0, o.0);
    TimeOfDay(day, hours.1, o.1);
    TimeOfDay(day + 1, hours.1, o.1);
    if RunsBetween(o, hours.0, hours.1) && o.0 / DAY == day {
      TimeOfDay(o.1 / DAY, hours.1, o.1);
    }
  }

  lemma {:induction false} TimeOfDay(day: int, time: int, at: int)
    requires 0 <= time < DAY
    ensures at == day * DAY + time <==> at / DAY == day && at % DAY == time
  {
  }

  /** What the three kinds of windows mean, on their fields: a one-time window runs once; a daily one
      every day between its times of day, past midnight if they say so and for 24 hours if they are
      equal; a weekly one likewise but starting only on its weekdays, or for the whole of them.  A
      window that lacks one of its times, or has no weekday, never runs. */
  lemma {:induction false} OccursMeans(w: Window, o: Span)
    requires Valid(w)
    ensures Occurs(w, o) <==>
      match w
      case OneTime(start, end) => start == Some(o.0) && end == Some(o.1)
      case Daily(from, to) => from.Some? && to.Some? && RunsBetween(o, from.value, to.value)
      case Weekly(days, allDay, from, to) =>
        && FallsOn(o.0, days)
        && (if allDay then RunsBetween(o, 0, 0) else from.Some? && to.Some? && RunsBetween(o, from.value, to.value))
  {
    if !w.OneTime? {
      WeekdayFalls(w, o);
      if Hours(w).Some? {
        SpanMeans(o.0 / DAY, Hours(w).value, o);
        assert Occurs(w, o) <==> OccursOn(w, o.0 / DAY, o) by {
          forall day | OccursOn(w, day, o)
            ensures day == o.0 / DAY
          {
            SpanMeans(day, Hours(w).value, o);
          }
        }
      }
    }
  }

  lemma {:induction false} WeekdayFalls(w: Window, o: Span)
    requires !w.OneTime?
    ensures RunsOn(w, o.0 / DAY) <==> w.Daily? || FallsOn(o.0, w.days)
  {
    if w.Weekly? {
      var today := WeekdayOf(o.0 / DAY);
      if d :| d in w.days && (o.0 / DAY) % 7 == Number(d) {
        assert d == today;
      }
    }
  }

  lemma {:induction false} OccurrenceIsForward(w: Window, o: Span)
    requires Valid(w) && Occurs(w, o)
    ensures o.0 < o.1
  {
  }

  /** Some occurrence starts within the week after any instant. */
  lemma {:induction false} StartsWithinAWeek(w: Window, at: int) returns (o: Span)
    requires Valid(w) && Repeats(w)
    ensures Occurs(w, o) && at < o.0 <= at + 7 * DAY
  {
    var hours := Hours(w).value;
    var first := (at - hours.0) / DAY + 1;
    var day := NextRunDay(w, first);
    o := SpanOn(day, hours);
    assert OccursOn(w, day, o);
  }

  /** Some occurrence ended within the week before any instant. */
  lemma {:induction false} EndedWithinAWeek(w: Window, at: int) returns (o: Span)
    requires Valid(w) && Repeats(w)
    ensures Occurs(w, o) && at - 7 * DAY < o.1 <= at
  {
    var hours := Hours(w).value;
    var tail := if hours.1 > hours.0 then hours.1 else DAY + hours.1;
    var last := (at - tail) / DAY;
    var day := NextRunDay(w, last - 6);
    o := SpanOn(day, hours);
    assert OccursOn(w, day, o);
  }

  lemma {:induction false} NextRunDay(w: Window, day: int) returns (d: int)
    requires Valid(w) && Repeats(w)
    ensures RunsOn(w, d) && day <= d <= day + 6
  {
    if w.Weekly? {
      assert w.days != {};
      var x :| x in w.days;
      d := day + (Number(x) - day) % 7;
      assert Number(WeekdayOf(d)) == Number(x);
    } else {
      d := day;
    }
  }

  // ---------------------------------------------------------------------------
  // occurrences
  // ---------------------------------------------------------------------------

  /** `out` lists, once each and in order of start, the occurrences overlapping [start, end). */
  ghost predicate Lists(out: seq<Span>, w: Window, start: int, end: int) {
    && (forall o :: o in out <==> Occurs(w, o) && Overlaps(o, start, end))
    && (forall i, j :: 0 <= i < j < |out| ==> out[i].0 < out[j].0)
  }

  /** Every overlapping occurrence begins on a day the loop visits. */
  lemma {:induction false} DayInRange(w: Window, day: int, o: Span, start: int, end: int)
    requires Valid(w) && !w.OneTime? && OccursOn(w, day, o) && Overlaps(o, start, end)
    ensures start / DAY - 1 <= day <= end / DAY
  {
  }

  /** `out` does so for the days from `first` up to, not including, `day`. */
  ghost predicate ListsDays(out: seq<Span>, w: Window, first: int, day: int, start: int, end: int)
    requires !w.OneTime?
  {
    && (forall o :: o in out ==> Overlaps(o, start, end) && exists d :: first <= d < day && OccursOn(w, d, o))
    && (forall d, o :: first <= d < day && OccursOn(w, d, o) && Overlaps(o, start, end) ==> o in out)
    && (forall i, j :: 0 <= i < j < |out| ==> out[i].0 < out[j].0)
  }

  lemma {:induction false} EarlierDayStartsEarlier(w: Window, d: int, day: int, o: Span)
    requires Repeats(w) && d < day && OccursOn(w, d, o)
    ensures o.0 < SpanOn(day, Hours(w).value).0
  {
  }

  lemma {:induction false} ListsOneMoreDay(
    out: seq<Span>, w: Window, first: int, day: int, start: int, end: int, next: seq<Span>)
    requires Repeats(w) && first <= day && ListsDays(out, w, first, day, start, end)
    requires
      var o := SpanOn(day, Hours(w).value);
      next == if RunsOn(w, day) && Overlaps(o, start, end) then out + [o] else out
    ensures ListsDays(next, w, first, day + 1, start, end)
  {
    var o := SpanOn(day, Hours(w).value);
    forall i | 0 <= i < |out|
      ensures out[i].0 < o.0
    {
      assert out[i] in out;
      var d :| first <= d < day && OccursOn(w, d, out[i]);
      EarlierDayStartsEarlier(w, d, day, out[i]);
    }
    forall p | p in next
      ensures Overlaps(p, start, end) && exists d :: first <= d < day + 1 && OccursOn(w, d, p)
    {
      if p in out {
        var d :| first <= d < day && OccursOn(w, d, p);
      } else {
        assert OccursOn(w, day, p);
      }
    }
  }

  lemma {:induction false} AllDaysList(out: seq<Span>, w: Window, day: int, start: int, end: int)
    requires Valid(w) && Repeats(w) && day > end / DAY
    requires ListsDays(out, w, start / DAY - 1, day, start, end)
    ensures Lists(out, w, start, end)
  {
    forall o | Occurs(w, o) && Overlaps(o, start, end)
      ensures o in out
    {
      var d :| OccursOn(w, d, o);
      DayInRange(w, d, o, start, end);
    }
  }

  method Occurrences(w: Window, start: int, end: int) returns (out: seq<Span>)
    requires Valid(w)
    ensures Lists(out, w, start, end)
  {
    out := [];
    if w.OneTime? {
      if w.start.Some? && w.end.Some? && w.start.value < end && w.end.value > start {
        out := [(w.start.value, w.end.value)];
      }
      return;
    }
    if Hours(w).None? {
      return;
    }
    var hours := Hours(w).value;
    var day := start / DAY - 1;
    while day <= end / DAY
      invariant start / DAY - 1 <= day
      invariant ListsDays(out, w, start / DAY - 1, day, start, end)
      decreases end / DAY - day
    {
      ghost var before := out;
      if RunsOn(w, day) {
        var o := SpanOn(day, hours);
        if o.0 < end && o.1 > start {
          out := out + [o];
        }
      }
      ListsOneMoreDay(before, w, start / DAY - 1, day, start, end, out);
      day := day + 1;
    }
    AllDaysList(out, w, day, start, end);
  }

  // ---------------------------------------------------------------------------
  // active_window, last_window_end, next_window
  // ---------------------------------------------------------------------------

  ghost predicate Covers(w: Window, at: int) {
    exists o :: Occurs(w, o) && o.0 <= at < o.1
  }

  ghost predicate FirstCover(windows: seq<Window>, i: nat, at: int)
    requires i < |windows|
  {
    Covers(windows[i], at) && forall j :: 0 <= j < i ==> !Covers(windows[j], at)
  }

  /** The first window that covers the instant; None exactly when none does. */
  method ActiveWindow(windows: seq<Window>, at: int) returns (active: Option<Window>)
    requires forall i :: 0 <= i < |windows| ==> Valid(windows[i])
    ensures active.None? <==> forall i :: 0 <= i < |windows| ==> !Covers(windows[i], at)
    ensures active.Some? ==> exists i :: 0 <= i < |windows| && active.value == windows[i] && FirstCover(windows, i, at)
  {
    for i := 0 to |windows|
      invariant forall j :: 0 <= j < i ==> !Covers(windows[j], at)
    {
      var out := Occurrences(windows[i], at, at + SECOND);
      for k := 0 to |out|
        invariant forall j :: 0 <= j < k ==> !(out[j].0 <= at < out[j].1)
      {
        if out[k].0 <= at < out[k].1 {
          assert out[k] in out;
          assert FirstCover(windows, i, at);
          return Some(windows[i]);
        }
      }
      assert !Covers(windows[i], at) by {
        assert forall o :: Occurs(windows[i], o) && o.0 <= at < o.1 ==> Overlaps(o, at, at + SECOND);
      }
    }
    return None;
  }

  /** Some window has an occurrence ending at `e`. */
  ghost predicate EndsAt(windows: seq<Window>, e: int) {
    exists i, o :: 0 <= i < |windows| && Occurs(windows[i], o) && o.1 == e
  }

  /** `latest` is the latest end after `from` and not after `at`, None if there is none. */
  ghost predicate LatestEnd(windows: seq<Window>, from: int, at: int, latest: Option<int>) {
    && (forall i, o :: 0 <= i < |windows| && Occurs(windows[i], o) && from < o.1 <= at ==>
      latest.Some? && o.1 <= latest.value)
    && (latest.Some? ==> from < latest.value <= at && EndsAt(windows, latest.value))
  }

  /** The same over the whole calendar. */
  ghost predicate TrulyLatestEnd(windows: seq<Window>, at: int, latest: Option<int>) {
    && (forall i, o :: 0 <= i < |windows| && Occurs(windows[i], o) && o.1 <= at ==> latest.Some? && o.1 <= latest.value)
    && (latest.Some? ==> latest.value <= at && EndsAt(windows, latest.value))
  }

  method LastWindowEnd(windows: seq<Window>, at: int) returns (latest: Option<int>)
    requires forall i :: 0 <= i < |windows| ==> Valid(windows[i])
    ensures LatestEnd(windows, at - SEARCH_DAYS * DAY, at, latest)
    ensures (exists i :: 0 <= i < |windows| && Repeats(windows[i])) ==> TrulyLatestEnd(windows, at, latest)
  {
    latest := None;
    var from := at - SEARCH_DAYS * DAY;
    for i := 0 to |windows|
      invariant LatestEnd(windows[..i], from, at, latest)
    {
      var out := Occurrences(windows[i], from, at);
      ghost var before := latest;
      for k := 0 to |out|
        invariant before.Some? ==> latest.Some? && before.value <= latest.value
        invariant forall j :: 0 <= j < k && out[j].1 <= at ==> latest.Some? && out[j].1 <= latest.value
        invariant latest == before || exists j :: 0 <= j < k && latest == Some(out[j].1) && out[j].1 <= at
      {
        if out[k].1 <= at && (latest.None? || latest.value < out[k].1) {
          latest := Some(out[k].1);
        }
      }
      LatestEndExtends(windows, i, from, at, before, out, latest);
    }
    assert windows[..|windows|] == windows;
    if exists i :: 0 <= i < |windows| && Repeats(windows[i]) {
      var i :| 0 <= i < |windows| && Repeats(windows[i]);
      var o := EndedWithinAWeek(windows[i], at);
    }
  }

  lemma {:induction false} LatestEndExtends(
    windows: seq<Window>, i: nat, from: int, at: int, before: Option<int>, out: seq<Span>, latest: Option<int>)
    requires i < |windows| && Valid(windows[i]) && Lists(out, windows[i], from, at)
    requires LatestEnd(windows[..i], from, at, before)
    requires before.Some? ==> latest.Some? && before.value <= latest.value
    requires forall j :: 0 <= j < |out| && out[j].1 <= at ==> latest.Some? && out[j].1 <= latest.value
    requires latest == before || exists j :: 0 <= j < |out| && latest == Some(out[j].1) && out[j].1 <= at
    ensures LatestEnd(windows[..i + 1], from, at, latest)
  {
    var ws := windows[..i + 1];
    forall k, o | 0 <= k < |ws| && Occurs(ws[k], o) && from < o.1 <= at
      ensures latest.Some? && o.1 <= latest.value
    {
      if k < i {
        assert Occurs(windows[..i][k], o);
      } else {
        OccurrenceIsForward(windows[i], o);
        assert o in out;
      }
    }
    if latest.Some? {
      if latest == before {
        var k, o :| 0 <= k < |windows[..i]| && Occurs(windows[..i][k], o) && o.1 == latest.value;
        assert Occurs(ws[k], o);
      } else {
        var j :| 0 <= j < |out| && latest == Some(out[j].1) && out[j].1 <= at;
        assert out[j] in out;
        assert Occurs(ws[i], out[j]);
      }
    }
  }

  /** A one-time window with both its times set, ending after `from` and not after `at`. */
  predicate EndedOnce(w: Window, from: int, at: int) {
    w.OneTime? && w.start.Some? && w.end.Some? && from < w.end.value <= at
  }

  /** A one-time window with both its times set that is not over at `at`. */
  predicate NotOver(w: Window, at: int) {
    w.OneTime? && w.start.Some? && w.end.Some? ==> w.end.value > at
  }

  /** What ended within the search is an occurrence of a repeating window, or a one-time window. */
  lemma {:induction false} EndIsOfSomeKind(windows: seq<Window>, from: int, e: int, at: int)
    requires EndsAt(windows, e) && from < e <= at
    ensures exists i :: 0 <= i < |windows| && (Repeats(windows[i]) || EndedOnce(windows[i], from, at))
  {
    var i, o :| 0 <= i < |windows| && Occurs(windows[i], o) && o.1 == e;
    assert Repeats(windows[i]) || EndedOnce(windows[i], from, at);
  }

  /** The eight-day search finds the true latest end exactly when some window repeats, or
      some one-time window ended within the eight days, or none has ended at all. */
  lemma {:induction false} SearchBoundIsExact(windows: seq<Window>, at: int, latest: Option<int>)
    requires forall i :: 0 <= i < |windows| ==> Valid(windows[i])
    requires LatestEnd(windows, at - SEARCH_DAYS * DAY, at, latest)
    ensures TrulyLatestEnd(windows, at, latest) <==>
      || (exists i :: 0 <= i < |windows| && Repeats(windows[i]))
      || (exists i :: 0 <= i < |windows| && EndedOnce(windows[i], at - SEARCH_DAYS * DAY, at))
      || (forall i :: 0 <= i < |windows| ==> NotOver(windows[i], at))
  {
    var from := at - SEARCH_DAYS * DAY;
    if latest.Some? {
      EndIsOfSomeKind(windows, from, latest.value, at);
    } else {
      forall i | 0 <= i < |windows|
        ensures !Repeats(windows[i]) && !EndedOnce(windows[i], from, at)
      {
        if Repeats(windows[i]) {
          var o := EndedWithinAWeek(windows[i], at);
        } else if EndedOnce(windows[i], from, at) {
          assert Occurs(windows[i], (windows[i].start.value, windows[i].end.value));
        }
      }
      if exists i :: 0 <= i < |windows| && !NotOver(windows[i], at) {
        var i :| 0 <= i < |windows| && !NotOver(windows[i], at);
        assert Occurs(windows[i], (windows[i].start.value, windows[i].end.value));
      }
    }
  }

  /** It does miss a one-time window that ended before that. */
  lemma {:induction false} OldOneTimeEndIsMissed()
    ensures
      var windows := [OneTime(Some(0), Some(DAY))];
      LatestEnd(windows, 2 * DAY, 10 * DAY, None) && !TrulyLatestEnd(windows, 10 * DAY, None)
  {
    var windows := [OneTime(Some(0), Some(DAY))];
    assert Occurs(windows[0], (0, DAY));
  }

  /** Earlier start, or the same start and no later end. */
  ghost predicate NotAfter(a: Span, b: Span) {
    a.0 < b.0 || (a.0 == b.0 && a.1 <= b.1)
  }

  /** `next` is the least of the occurrences of `windows` starting after `at`, over the whole calendar. */
  ghost predicate LeastAfter(windows: seq<Window>, at: int, next: Option<Span>) {
    && (forall i, o :: 0 <= i < |windows| && Occurs(windows[i], o) && o.0 > at ==>
      next.Some? && NotAfter(next.value, o))
    && (next.Some? ==> next.value.0 > at && exists i :: 0 <= i < |windows| && Occurs(windows[i], next.value))
  }

  method NextWindow(windows: seq<Window>, at: int) returns (next: Option<Span>)
    requires forall i :: 0 <= i < |windows| ==> Valid(windows[i])
    ensures LeastAfter(windows, at, next)
  {
    next := None;
    for i := 0 to |windows|
      invariant LeastAfter(windows[..i], at, next)
    {
      var w := windows[i];
      var horizon := at + SEARCH_DAYS * DAY;
      if w.OneTime? && w.start.Some? && horizon < w.start.value + SECOND {
        horizon := w.start.value + SECOND;
      }
      var out := Occurrences(w, at, horizon);
      ghost var before := next;
      for k := 0 to |out|
        invariant before.Some? ==> next.Some? && NotAfter(next.value, before.value)
        invariant forall j :: 0 <= j < k && out[j].0 > at ==> next.Some? && NotAfter(next.value, out[j])
        invariant next == before || exists j :: 0 <= j < k && next == Some(out[j]) && out[j].0 > at
      {
        var o := out[k];
        if o.0 > at && (next.None? || o.0 < next.value.0 || (o.0 == next.value.0 && o.1 < next.value.1)) {
          next := Some(o);
        }
      }
      LeastAfterExtends(windows, i, at, horizon, before, out, next);
    }
    assert windows[..|windows|] == windows;
  }

  /** Within the horizon a window that runs after `at` has an occurrence at or before any given one. */
  lemma {:induction false} HorizonSuffices(w: Window, at: int, horizon: int, out: seq<Span>, o: Span) returns (k: nat)
    requires Valid(w) && Lists(out, w, at, horizon) && horizon >= at + SEARCH_DAYS * DAY
    requires w.OneTime? && w.start.Some? ==> horizon > w.start.value
    requires Occurs(w, o) && o.0 > at
    ensures k < |out| && out[k].0 > at && NotAfter(out[k], o)
  {
    OccurrenceIsForward(w, o);
    if o.0 < horizon {
      assert o in out;
      k :| 0 <= k < |out| && out[k] == o;
    } else {
      var early := StartsWithinAWeek(w, at);
      OccurrenceIsForward(w, early);
      assert early in out;
      k :| 0 <= k < |out| && out[k] == early;
    }
  }

  lemma {:induction false} LeastAfterExtends(
    windows: seq<Window>, i: nat, at: int, horizon: int, before: Option<Span>, out: seq<Span>, next: Option<Span>)
    requires i < |windows| && Valid(windows[i]) && Lists(out, windows[i], at, horizon)
    requires horizon >= at + SEARCH_DAYS * DAY
    requires windows[i].OneTime? && windows[i].start.Some? ==> horizon > windows[i].start.value
    requires LeastAfter(windows[..i], at, before)
    requires before.Some? ==> next.Some? && NotAfter(next.value, before.value)
    requires forall j :: 0 <= j < |out| && out[j].0 > at ==> next.Some? && NotAfter(next.value, out[j])
    requires next == before || exists j :: 0 <= j < |out| && next == Some(out[j]) && out[j].0 > at
    ensures LeastAfter(windows[..i + 1], at, next)
  {
    var ws := windows[..i + 1];
    forall k, o | 0 <= k < |ws| && Occurs(ws[k], o) && o.0 > at
      ensures next.Some? && NotAfter(next.value, o)
    {
      if k < i {
        assert Occurs(windows[..i][k], o);
      } else {
        var j := HorizonSuffices(windows[i], at, horizon, out, o);
      }
    }
    if next.Some? {
      if next == before {
        var k :| 0 <= k < |windows[..i]| && Occurs(windows[..i][k], next.value);
        assert Occurs(ws[k], next.value);
      } else {
        var j :| 0 <= j < |out| && next == Some(out[j]) && out[j].0 > at;
        assert out[j] in out;
        assert Occurs(ws[i], out[j]);
      }
    }
  }
}
