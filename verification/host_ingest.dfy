/**
 Turning cumulative counters into figures (host_health/ingest.py): OOM kills, swapping and
 throttling of a memory sample, and the busiest block devices of a disk I/O report.

 A counter that was not reported is None and is stored as such.  Times are in seconds,
 and rates are exact: the rounding of the stored figures is left out.
 */
module HostIngest {
  import opened Wrappers

  const MIN_RATE_GAP := 5
  const MAX_RATE_GAP := 900
  const MAX_IO_DEVICES := 6
  const IO_LOOKBACK := 15 * 60

  /** None when either side is missing or the counter went backwards. */
  function CounterDelta(current: Option<int>, previous: Option<int>): Option<int> {
    if current.None? || previous.None? || current.value < previous.value then None
    else Some(current.value - previous.value)
  }

  /** The time since the previous sample, if a rate may be taken over it. */
  function GapSeconds(previousAt: int, now: int): Option<int> {
    if MIN_RATE_GAP <= now - previousAt <= MAX_RATE_GAP then Some(now - previousAt) else None
  }

  function PerSecond(delta: Option<int>, gap: Option<int>): Option<real> {
    if delta.None? || gap.None? || gap.value == 0 then None else Some(delta.value as real / gap.value as real)
  }

  /** At most 100. */
  function Percent(x: real): real {
    if x > 100.0 then 100.0 else x
  }

  /** The share of a gap, in seconds, that the CPU was throttled for so many microseconds. */
  function ThrottledPercent(us: int, gap: int): real
    requires gap > 0
  {
    Percent(us as real / (gap * 1_000_000) as real * 100.0)
  }

  // ---------------------------------------------------------------------------
  // Memory samples
  // ---------------------------------------------------------------------------

  /** The cumulative counters of a memory report. */
  datatype MemoryCounters = MemoryCounters(
    oomKills: Option<int>, containerOomKills: Option<int>, swapIn: Option<int>, swapOut: Option<int>,
    throttledUs: Option<int>)

  datatype MemoryRow = MemoryRow(
    at: int, counters: MemoryCounters, oomSinceLast: int, containerOomSinceLast: int,
    swapInPerS: Option<real>, swapOutPerS: Option<real>, ratesValid: bool, throttledPercent: Option<real>)

  const NO_COUNTERS := MemoryCounters(None, None, None, None, None)

  function OrZero(n: Option<int>): int {
    if n.Some? then n.value else 0
  }

  /** The row a sample adds: figures against the previous stored row, if the gap to it allows any. */
  function MemoryRowFor(rows: seq<MemoryRow>, now: int, c: MemoryCounters): MemoryRow {
    var gap := if rows == [] then None else GapSeconds(rows[|rows| - 1].at, now);
    var p := if gap.Some? then rows[|rows| - 1].counters else NO_COUNTERS;
    var swapIn, swapOut := CounterDelta(c.swapIn, p.swapIn), CounterDelta(c.swapOut, p.swapOut);
    var throttled := CounterDelta(c.throttledUs, p.throttledUs);
    MemoryRow(
      now, c,
      OrZero(CounterDelta(c.oomKills, p.oomKills)), OrZero(CounterDelta(c.containerOomKills, p.containerOomKills)),
      PerSecond(swapIn, gap), PerSecond(swapOut, gap), gap.Some? && swapIn.Some? && swapOut.Some?,
      if throttled.Some? && gap.Some? then Some(ThrottledPercent(throttled.value, gap.value)) else None)
  }

  class MemoryLog {
    var rows: seq<MemoryRow>

    method StoreMemorySample(now: int, c: MemoryCounters)
      modifies this
      ensures rows == old(rows) + [MemoryRowFor(old(rows), now, c)]
    {
      var gap: Option<int> := None;
      var p := NO_COUNTERS;
      if rows != [] {
        gap := GapSeconds(rows[|rows| - 1].at, now);
        if gap.Some? {
          p := rows[|rows| - 1].counters;
        }
      }
      var swapIn, swapOut := CounterDelta(c.swapIn, p.swapIn), CounterDelta(c.swapOut, p.swapOut);
      var throttled := CounterDelta(c.throttledUs, p.throttledUs);
      var percent: Option<real> := None;
      if throttled.Some? && gap.Some? {
        percent := Some(ThrottledPercent(throttled.value, gap.value));
      }
      var row := MemoryRow(
        now, c,
        OrZero(CounterDelta(c.oomKills, p.oomKills)), OrZero(CounterDelta(c.containerOomKills, p.containerOomKills)),
        PerSecond(swapIn, gap), PerSecond(swapOut, gap), gap.Some? && swapIn.Some? && swapOut.Some?, percent);
      rows := rows + [row];
    }
  }

  /** A per-second figure, times its gap, is the counter's difference. */
  lemma {:induction false} PerSecondIsExact(delta: int, gap: int, rate: real)
    requires gap > 0 && PerSecond(Some(delta), Some(gap)) == Some(rate)
    ensures rate * gap as real == delta as real
    ensures delta >= 0 ==> rate >= 0.0
  {
  }

  /** The throttled share lies between 0 and 100, and is 100 exactly when the whole gap was throttled. */
  lemma {:induction false} ThrottledShare(us: int, gap: int)
    requires us >= 0 && gap > 0
    ensures 0.0 <= ThrottledPercent(us, gap) <= 100.0
    ensures ThrottledPercent(us, gap) == 100.0 <==> us >= gap * 1_000_000
    ensures us <= gap * 1_000_000 ==> ThrottledPercent(us, gap) * (gap * 10_000) as real == us as real
  {
    var whole := gap * 1_000_000;
    QuotientSign(us as real, whole as real);
    QuotientTimes(us as real, whole as real);
  }

  /** The throttled share is stored exactly when the gap allows it and the counter is there at both
      ends and did not go backwards. */
  lemma {:induction false} ThrottledIff(rows: seq<MemoryRow>, now: int, c: MemoryCounters)
    requires rows != []
    ensures
      var (row, p, gap) := (MemoryRowFor(rows, now, c), rows[|rows| - 1].counters.throttledUs,
        now - rows[|rows| - 1].at);
      && (row.throttledPercent.Some? <==>
          5 <= gap <= 900 && c.throttledUs.Some? && p.Some? && c.throttledUs.value >= p.value)
      && (row.throttledPercent.Some? ==>
        row.throttledPercent.value == ThrottledPercent(c.throttledUs.value - p.value, gap))
      && row.at == now && row.counters == c
  {
  }

  /** The swap figures are trusted exactly when the gap allows a rate and neither swap counter is
      missing at either end or went backwards; then both rates are there, and never negative. */
  lemma {:induction false} RatesValidIff(rows: seq<MemoryRow>, now: int, c: MemoryCounters)
    requires rows != []
    ensures
      var (row, p, gap) := (MemoryRowFor(rows, now, c), rows[|rows| - 1].counters, now - rows[|rows| - 1].at);
      && (row.ratesValid <==>
          && MIN_RATE_GAP <= gap <= MAX_RATE_GAP
          && c.swapIn.Some? && p.swapIn.Some? && c.swapIn.value >= p.swapIn.value
          && c.swapOut.Some? && p.swapOut.Some? && c.swapOut.value >= p.swapOut.value)
      && (row.ratesValid ==>
          && row.swapInPerS.Some? && row.swapInPerS.value >= 0.0
          && row.swapInPerS.value * gap as real == (c.swapIn.value - p.swapIn.value) as real
          && row.swapOutPerS.Some? && row.swapOutPerS.value >= 0.0
          && row.swapOutPerS.value * gap as real == (c.swapOut.value - p.swapOut.value) as real)
  {
    var (row, p, gap) := (MemoryRowFor(rows, now, c), rows[|rows| - 1].counters, now - rows[|rows| - 1].at);
    if row.ratesValid {
      PerSecondIsExact(c.swapIn.value - p.swapIn.value, gap, row.swapInPerS.value);
      PerSecondIsExact(c.swapOut.value - p.swapOut.value, gap, row.swapOutPerS.value);
    }
  }

  // ---------------------------------------------------------------------------
  // OOM kills
  // ---------------------------------------------------------------------------

  /** The host's own kill counter, or that of its container. */
  datatype Which = OfHost | OfContainer

  function Counter(c: MemoryCounters, which: Which): Option<int> {
    if which.OfHost? then c.oomKills else c.containerOomKills
  }

  function SinceLast(row: MemoryRow, which: Which): int {
    if which.OfHost? then row.oomSinceLast else row.containerOomSinceLast
  }

  datatype MemoryPoll = MemoryPoll(at: int, counters: MemoryCounters)

  function Ingested(polls: seq<MemoryPoll>): seq<MemoryRow> {
    if polls == [] then []
    else
      var rows := Ingested(polls[..|polls| - 1]);
      rows + [MemoryRowFor(rows, polls[|polls| - 1].at, polls[|polls| - 1].counters)]
  }

  function RecordedKills(rows: seq<MemoryRow>, which: Which): int {
    if rows == [] then 0 else RecordedKills(rows[..|rows| - 1], which) + SinceLast(rows[|rows| - 1], which)
  }

  /** What really happened to one of the counters by a sample: `kills` is its count since the
      boot (or the start of the container), `earlier` the kills since the previous sample that an
      intervening restart wiped. */
  datatype Sample = Sample(at: int, boot: nat, kills: nat, earlier: nat, reported: bool)

  function Reading(s: Sample): Option<int> {
    if s.reported then Some(s.kills) else None
  }

  /** The polls saw these samples. */
  ghost predicate Saw(polls: seq<MemoryPoll>, samples: seq<Sample>, which: Which) {
    && |polls| == |samples|
    && forall i :: 0 <= i < |samples| ==>
      polls[i].at == samples[i].at && Counter(polls[i].counters, which) == Reading(samples[i])
  }

  ghost predicate Real(samples: seq<Sample>) {
    forall i :: 0 <= i < |samples| - 1 ==> Follows(samples[i], samples[i + 1])
  }

  /** Within one boot the count never falls and nothing is wiped. */
  ghost predicate Follows(a: Sample, b: Sample) {
    a.boot <= b.boot && (a.boot == b.boot ==> a.kills <= b.kills && b.earlier == 0)
  }

  /** Kills that really happened between two samples. */
  function KillsBetween(a: Sample, b: Sample): int {
    if a.boot == b.boot then b.kills - a.kills else b.earlier + b.kills
  }

  function RealKills(samples: seq<Sample>): int {
    if |samples| <= 1 then 0
    else RealKills(samples[..|samples| - 1]) + KillsBetween(samples[|samples| - 2], samples[|samples| - 1])
  }

  /** What is recorded for one step. */
  function KillsCounted(a: Sample, b: Sample): int {
    if GapSeconds(a.at, b.at).None? then 0 else OrZero(CounterDelta(Reading(b), Reading(a)))
  }

  lemma {:induction false} IngestedRows(polls: seq<MemoryPoll>)
    ensures |Ingested(polls)| == |polls|
    ensures polls != [] ==>
      var row := Ingested(polls)[|polls| - 1];
      row.at == polls[|polls| - 1].at && row.counters == polls[|polls| - 1].counters
  {
    if polls != [] {
      IngestedRows(polls[..|polls| - 1]);
    }
  }

  /** The kills the newest row records. */
  lemma {:induction false} NewestKills(polls: seq<MemoryPoll>, samples: seq<Sample>, which: Which)
    requires Saw(polls, samples, which) && polls != []
    ensures
      var n := |polls| - 1;
      && |Ingested(polls)| == n + 1 && Ingested(polls)[..n] == Ingested(polls[..n])
      && SinceLast(Ingested(polls)[n], which) == if n == 0 then 0 else KillsCounted(samples[n - 1], samples[n])
  {
    IngestedRows(polls[..|polls| - 1]);
  }

  /** What one more sample adds to the recorded kills. */
  lemma {:induction false} OneMoreSample(polls: seq<MemoryPoll>, samples: seq<Sample>, which: Which)
    requires Saw(polls, samples, which) && polls != []
    ensures
      var n := |polls| - 1;
      RecordedKills(Ingested(polls), which) ==
        RecordedKills(Ingested(polls[..n]), which) + (if n == 0 then 0 else KillsCounted(samples[n - 1], samples[n]))
  {
    NewestKills(polls, samples, which);
    RecordedStep(Ingested(polls), which);
  }

  lemma {:induction false} RecordedStep(rows: seq<MemoryRow>, which: Which)
    requires rows != []
    ensures RecordedKills(rows, which) ==
      RecordedKills(rows[..|rows| - 1], which) + SinceLast(rows[|rows| - 1], which)
  {
  }

  lemma {:induction false} CountedIsNeverMore(a: Sample, b: Sample)
    requires Follows(a, b)
    ensures 0 <= KillsCounted(a, b) <= KillsBetween(a, b)
  {
  }

  lemma {:induction false} RealPrefix(samples: seq<Sample>)
    requires samples != [] && Real(samples)
    ensures Real(samples[..|samples| - 1])
    ensures |samples| >= 2 ==> Follows(samples[|samples| - 2], samples[|samples| - 1])
  {
    var front := samples[..|samples| - 1];
    forall i | 0 <= i < |front| - 1
      ensures Follows(front[i], front[i + 1])
    {
      assert Follows(samples[i], samples[i + 1]);
    }
    if |samples| >= 2 {
      var i := |samples| - 2;
      assert Follows(samples[i], samples[i + 1]);
    }
  }

  /** Step `i` did not count all its kills. */
  ghost predicate Missed(samples: seq<Sample>, i: nat)
    requires i + 1 < |samples|
  {
    KillsCounted(samples[i], samples[i + 1]) < KillsBetween(samples[i], samples[i + 1])
  }

  ghost predicate Undercounted(samples: seq<Sample>) {
    exists i :: 0 <= i < |samples| - 1 && Missed(samples, i)
  }

  lemma {:induction false} UndercountedGrows(samples: seq<Sample>)
    requires |samples| >= 2
    ensures Undercounted(samples) <==> Undercounted(samples[..|samples| - 1]) || Missed(samples, |samples| - 2)
  {
    var front := samples[..|samples| - 1];
    forall i | 0 <= i < |front| - 1
      ensures Missed(front, i) <==> Missed(samples, i)
    {
    }
    if Undercounted(front) {
      var i :| 0 <= i < |front| - 1 && Missed(front, i);
      assert Missed(samples, i);
    }
  }

  /** Over any samples, gaps and restarts the recorded kills, of the host and of the container
      alike, never exceed the real ones, and fall short exactly when some step's did. */
  lemma {:induction false} NeverOvercounts(polls: seq<MemoryPoll>, samples: seq<Sample>, which: Which)
    requires Saw(polls, samples, which) && Real(samples)
    ensures RecordedKills(Ingested(polls), which) <= RealKills(samples)
    ensures RecordedKills(Ingested(polls), which) < RealKills(samples) <==> Undercounted(samples)
  {
    if samples != [] {
      var n := |samples| - 1;
      RealPrefix(samples);
      NeverOvercounts(polls[..n], samples[..n], which);
      OneMoreSample(polls, samples, which);
      if n >= 1 {
        CountedIsNeverMore(samples[n - 1], samples[n]);
        UndercountedGrows(samples);
      }
    }
  }

  /** A rate may be taken over the step, and both ends reported the counter. */
  predicate Countable(a: Sample, b: Sample) {
    GapSeconds(a.at, b.at).Some? && a.reported && b.reported
  }

  /** Without a restart the record is exact exactly when every step that saw kills was countable. */
  lemma {:induction false} ExactIffCountable(polls: seq<MemoryPoll>, samples: seq<Sample>, which: Which)
    requires Saw(polls, samples, which) && Real(samples)
    requires forall i :: 0 <= i < |samples| ==> samples[i].boot == samples[0].boot
    ensures RecordedKills(Ingested(polls), which) == RealKills(samples) <==>
      forall i :: 0 <= i < |samples| - 1 ==>
        Countable(samples[i], samples[i + 1]) || samples[i].kills == samples[i + 1].kills
  {
    NeverOvercounts(polls, samples, which);
    forall i | 0 <= i < |samples| - 1
      ensures Missed(samples, i) <==>
        !(Countable(samples[i], samples[i + 1]) || samples[i].kills == samples[i + 1].kills)
    {
      assert Follows(samples[i], samples[i + 1]);
    }
  }

  /** Gaps in range alone are not enough: one sample without the counter loses the kills around it. */
  lemma {:induction false} MissingCounterLosesKills(polls: seq<MemoryPoll>, which: Which)
    requires Saw(polls, [Sample(0, 0, 0, 0, true), Sample(30, 0, 0, 0, false), Sample(60, 0, 5, 0, true)], which)
    ensures
      var samples := [Sample(0, 0, 0, 0, true), Sample(30, 0, 0, 0, false), Sample(60, 0, 5, 0, true)];
      Real(samples) && RecordedKills(Ingested(polls), which) < RealKills(samples)
  {
    var samples := [Sample(0, 0, 0, 0, true), Sample(30, 0, 0, 0, false), Sample(60, 0, 5, 0, true)];
    assert Follows(samples[0], samples[1]) && Follows(samples[1], samples[2]);
    NeverOvercounts(polls, samples, which);
    assert Missed(samples, 1);
  }

  // ---------------------------------------------------------------------------
  // Disk I/O
  // ---------------------------------------------------------------------------

  /** The cumulative counters of a block device, each possibly missing. */
  datatype Counters = Counters(
    readOps: Option<int>, writeOps: Option<int>, sectorsRead: Option<int>, sectorsWritten: Option<int>,
    readMs: Option<int>, writeMs: Option<int>, ioMs: Option<int>, weightedMs: Option<int>)

  datatype Deltas = Deltas(
    readOps: int, writeOps: int, sectorsRead: int, sectorsWritten: int, readMs: int, writeMs: int, ioMs: int,
    weightedMs: int)

  const SECTOR_BYTES := 512

  /** What is charted for a device over one gap. */
  datatype Rates = Rates(
    readIops: real, writeIops: real, readMbS: real, writeMbS: real, awaitMs: real, utilPercent: real, avgQueue: real)

  function MegabytesPerSecond(sectors: int, seconds: real): real
    requires seconds > 0.0
  {
    (sectors * SECTOR_BYTES) as real / 1_000_000.0 / seconds
  }

  function RatesOver(d: Deltas, gap: int): Rates
    requires gap > 0
  {
    var seconds, ops := gap as real, d.readOps + d.writeOps;
    Rates(
      d.readOps as real / seconds, d.writeOps as real / seconds,
      MegabytesPerSecond(d.sectorsRead, seconds), MegabytesPerSecond(d.sectorsWritten, seconds),
      if ops == 0 then 0.0 else (d.readMs + d.writeMs) as real / ops as real,
      Percent(d.ioMs as real / (seconds * 1000.0) * 100.0),
      d.weightedMs as real / (seconds * 1000.0))
  }

  datatype Device = Device(name: string, counters: Counters)

  /** A stored sample: its counters and, when it could be rated, its rates and the differences they stand for. */
  datatype IoRow = IoRow(device: string, at: int, counters: Counters, deltas: Option<Deltas>, rates: Option<Rates>)

  /** All eight differences, or None when one is missing or went backwards. */
  function DeltasOf(c: Counters, p: Counters): Option<Deltas> {
    var ro, wo := CounterDelta(c.readOps, p.readOps), CounterDelta(c.writeOps, p.writeOps);
    var sr, sw := CounterDelta(c.sectorsRead, p.sectorsRead), CounterDelta(c.sectorsWritten, p.sectorsWritten);
    var rm, wm := CounterDelta(c.readMs, p.readMs), CounterDelta(c.writeMs, p.writeMs);
    var io, wt := CounterDelta(c.ioMs, p.ioMs), CounterDelta(c.weightedMs, p.weightedMs);
    if ro.None? || wo.None? || sr.None? || sw.None? || rm.None? || wm.None? || io.None? || wt.None? then None
    else Some(Deltas(ro.value, wo.value, sr.value, sw.value, rm.value, wm.value, io.value, wt.value))
  }

  /** The stored rows of one device, oldest first. */
  function RowsOf(rows: seq<IoRow>, device: string): seq<IoRow> {
    if rows == [] then []
    else
      var front := RowsOf(rows[..|rows| - 1], device);
      if rows[|rows| - 1].device == device then front + [rows[|rows| - 1]] else front
  }

  /** The newest row of a device that the history query still returns. */
  function Latest(rows: seq<IoRow>, device: string, now: int): Option<IoRow> {
    var own := RowsOf(rows, device);
    if own != [] && own[|own| - 1].at >= now - IO_LOOKBACK then Some(own[|own| - 1]) else None
  }

  /** What a device contributes to a poll. */
  datatype Verdict = Skipped | FirstSeen(key: int, row: IoRow) | Rated(key: int, row: IoRow)

  function Judge(rows: seq<IoRow>, now: int, d: Device): Verdict {
    if d.name == "" then Skipped
    else
      var previous := Latest(rows, d.name, now);
      var added := FirstSeen(OrZero(d.counters.ioMs), IoRow(d.name, now, d.counters, None, None));
      if previous.None? || GapSeconds(previous.value.at, now).None? then added
      else
        var deltas := DeltasOf(d.counters, previous.value.counters);
        if deltas.None? then added
        else if deltas.value.readOps + deltas.value.writeOps == 0 && deltas.value.ioMs == 0 then Skipped
        else Rated(deltas.value.ioMs,
          IoRow(d.name, now, d.counters, deltas, Some(RatesOver(deltas.value, now - previous.value.at))))
  }

  /** A key and the row it ranks. */
  datatype Ranked = Ranked(key: int, row: IoRow)

  function RatedOf(rows: seq<IoRow>, now: int, devices: seq<Device>): seq<Ranked> {
    if devices == [] then []
    else
      var front := RatedOf(rows, now, devices[..|devices| - 1]);
      var v := Judge(rows, now, devices[|devices| - 1]);
      if v.Rated? then front + [Ranked(v.key, v.row)] else front
  }

  function FirstSeenOf(rows: seq<IoRow>, now: int, devices: seq<Device>): seq<Ranked> {
    if devices == [] then []
    else
      var front := FirstSeenOf(rows, now, devices[..|devices| - 1]);
      var v := Judge(rows, now, devices[|devices| - 1]);
      if v.FirstSeen? then front + [Ranked(v.key, v.row)] else front
  }

  /** Stable sort, largest key first. */
  function Insert(x: Ranked, s: seq<Ranked>): seq<Ranked> {
    if s == [] || x.key >= s[0].key then [x] + s else [s[0]] + Insert(x, s[1..])
  }

  function SortDescending(s: seq<Ranked>): seq<Ranked> {
    if s == [] then [] else Insert(s[0], SortDescending(s[1..]))
  }

  function Take(s: seq<Ranked>, n: nat): seq<Ranked> {
    if |s| <= n then s else s[..n]
  }

  /** The busiest rated devices, then as many unrated ones as there is room for. */
  function Chosen(rated: seq<Ranked>, firstSeen: seq<Ranked>): seq<Ranked> {
    var top := Take(SortDescending(rated), MAX_IO_DEVICES);
    top + if |top| < MAX_IO_DEVICES then Take(SortDescending(firstSeen), MAX_IO_DEVICES - |top|) else []
  }

  function RowsIn(s: seq<Ranked>): (r: seq<IoRow>)
    ensures |r| == |s|
  {
    seq(|s|, i requires 0 <= i < |s| => s[i].row)
  }

  function Polled(rows: seq<IoRow>, now: int, devices: seq<Device>): seq<IoRow> {
    rows + RowsIn(Chosen(RatedOf(rows, now, devices), FirstSeenOf(rows, now, devices)))
  }

  /** Sort the devices of a report into rated and first seen. */
  method Classify(rows: seq<IoRow>, now: int, devices: seq<Device>) returns (rated: seq<Ranked>, firstSeen: seq<Ranked>)
    ensures rated == RatedOf(rows, now, devices) && firstSeen == FirstSeenOf(rows, now, devices)
  {
    rated, firstSeen := [], [];
    for i := 0 to |devices|
      invariant rated == RatedOf(rows, now, devices[..i]) && firstSeen == FirstSeenOf(rows, now, devices[..i])
    {
      assert devices[..i + 1][..i] == devices[..i];
      var v := Judge(rows, now, devices[i]);
      if v.Rated? {
        rated := rated + [Ranked(v.key, v.row)];
      } else if v.FirstSeen? {
        firstSeen := firstSeen + [Ranked(v.key, v.row)];
      }
    }
    assert devices[..|devices|] == devices;
  }

  class IoLog {
    var rows: seq<IoRow>

    /** Store one report; returns how many rows were written. */
    method StoreIoSamples(now: int, devices: seq<Device>) returns (stored: nat)
      modifies this
      ensures rows == Polled(old(rows), now, devices)
      ensures stored == |rows| - |old(rows)| <= MAX_IO_DEVICES
    {
      var rated, firstSeen := Classify(rows, now, devices);
      var chosen := Take(SortDescending(rated), MAX_IO_DEVICES);
      var room := MAX_IO_DEVICES - |chosen|;
      if room > 0 {
        chosen := chosen + Take(SortDescending(firstSeen), room);
      }
      InsertRows(chosen);
      stored := |chosen|;
    }

    method InsertRows(chosen: seq<Ranked>)
      modifies this
      ensures rows == old(rows) + RowsIn(chosen)
    {
      for i := 0 to |chosen|
        invariant rows == old(rows) + RowsIn(chosen)[..i]
      {
        rows := rows + [chosen[i].row];
      }
      assert RowsIn(chosen)[..|chosen|] == RowsIn(chosen);
    }
  }

  // ---------------------------------------------------------------------------
  // Which rows are kept
  // ---------------------------------------------------------------------------

  ghost predicate Descending(s: seq<Ranked>) {
    forall i, j :: 0 <= i < j < |s| ==> s[i].key >= s[j].key
  }

  lemma {:induction false} InsertAdds(x: Ranked, s: seq<Ranked>)
    ensures multiset(Insert(x, s)) == multiset(s) + multiset{x}
    ensures forall y :: y in Insert(x, s) ==> y == x || y in s
  {
    if s != [] {
      InsertAdds(x, s[1..]);
      assert s == [s[0]] + s[1..];
    }
  }

  lemma {:induction false} InsertSorts(x: Ranked, s: seq<Ranked>)
    requires Descending(s)
    ensures Descending(Insert(x, s))
  {
    if s != [] && x.key < s[0].key {
      InsertSorts(x, s[1..]);
      InsertAdds(x, s[1..]);
      forall y | y in Insert(x, s[1..])
        ensures s[0].key >= y.key
      {
      }
    }
  }

  lemma {:induction false} SortSorts(s: seq<Ranked>)
    ensures Descending(SortDescending(s)) && multiset(SortDescending(s)) == multiset(s)
  {
    if s != [] {
      SortSorts(s[1..]);
      InsertSorts(s[0], SortDescending(s[1..]));
      InsertAdds(s[0], SortDescending(s[1..]));
      assert s == [s[0]] + s[1..];
    }
  }

  /** The rows of one key, in order. */
  function WithKey(s: seq<Ranked>, key: int): seq<Ranked> {
    if s == [] then []
    else if s[0].key == key then [s[0]] + WithKey(s[1..], key)
    else WithKey(s[1..], key)
  }

  lemma {:induction false} InsertIsStable(x: Ranked, s: seq<Ranked>, key: int)
    requires Descending(s)
    ensures WithKey(Insert(x, s), key) == if x.key == key then [x] + WithKey(s, key) else WithKey(s, key)
  {
    if s != [] && x.key < s[0].key {
      InsertIsStable(x, s[1..], key);
      WithKeyFirst(s[0], Insert(x, s[1..]), key);
    } else {
      WithKeyFirst(x, s, key);
    }
  }

  lemma {:induction false} WithKeyFirst(x: Ranked, s: seq<Ranked>, key: int)
    ensures WithKey([x] + s, key) == if x.key == key then [x] + WithKey(s, key) else WithKey(s, key)
  {
    assert ([x] + s)[1..] == s;
  }

  /** Equally busy devices keep the order of the report. */
  lemma {:induction false} SortIsStable(s: seq<Ranked>, key: int)
    ensures WithKey(SortDescending(s), key) == WithKey(s, key)
  {
    if s != [] {
      SortIsStable(s[1..], key);
      SortSorts(s[1..]);
      InsertIsStable(s[0], SortDescending(s[1..]), key);
    }
  }

  /** Of a descending sequence, the part taken and the part left. */
  lemma {:induction false} TakeSplits(t: seq<Ranked>, n: nat)
    requires Descending(t) && n <= |t|
    ensures multiset(t) == multiset(t[..n]) + multiset(t[n..])
    ensures forall x, y :: x in t[..n] && y in t[n..] ==> x.key >= y.key
  {
    assert t == t[..n] + t[n..];
    forall x, y | x in t[..n] && y in t[n..]
      ensures x.key >= y.key
    {
      var i :| 0 <= i < n && t[i] == x;
      var j :| n <= j < |t| && t[j] == y;
    }
  }

  lemma {:induction false} TakeKeepsBusiest(s: seq<Ranked>, n: nat)
    ensures |Take(SortDescending(s), n)| == if |s| <= n then |s| else n
    ensures multiset(Take(SortDescending(s), n)) <= multiset(s)
    ensures forall x, y ::
      x in Take(SortDescending(s), n) && y in multiset(s) - multiset(Take(SortDescending(s), n)) ==> x.key >= y.key
  {
    var t := SortDescending(s);
    SortSorts(s);
    assert |t| == |multiset(t)| == |multiset(s)| == |s|;
    if |t| > n {
      TakeSplits(t, n);
      assert multiset(s) - multiset(t[..n]) == multiset(t[n..]);
    } else {
      assert multiset(s) - multiset(t) == multiset{};
    }
  }

  /** At most six rows; rated devices first, none of them dropped for one less busy, and an
      unrated one only when every rated one is kept. */
  lemma {:induction false} BusiestAreKept(rated: seq<Ranked>, firstSeen: seq<Ranked>)
    ensures
      var top := Take(SortDescending(rated), MAX_IO_DEVICES);
      var kept := Chosen(rated, firstSeen);
      && top <= kept && |kept| <= MAX_IO_DEVICES
      && multiset(top) <= multiset(rated)
      && (forall x, y :: x in top && y in multiset(rated) - multiset(top) ==> x.key >= y.key)
      && (|kept| > |top| ==> multiset(top) == multiset(rated))
      && multiset(kept[|top|..]) <= multiset(firstSeen)
      && (forall x, y :: x in kept[|top|..] && y in multiset(firstSeen) - multiset(kept[|top|..]) ==> x.key >= y.key)
      && |kept| == if |rated| + |firstSeen| <= MAX_IO_DEVICES then |rated| + |firstSeen| else MAX_IO_DEVICES
  {
    TakeKeepsBusiest(rated, MAX_IO_DEVICES);
    SortSorts(rated);
    var (top, kept) := (Take(SortDescending(rated), MAX_IO_DEVICES), Chosen(rated, firstSeen));
    if |rated| < MAX_IO_DEVICES {
      TakeKeepsBusiest(firstSeen, MAX_IO_DEVICES - |rated|);
      assert kept[|top|..] == Take(SortDescending(firstSeen), MAX_IO_DEVICES - |rated|);
    } else {
      assert kept[|top|..] == [];
    }
  }

  // ---------------------------------------------------------------------------
  // Deltas telescope
  // ---------------------------------------------------------------------------

  ghost predicate RatedAgainst(row: IoRow, previous: IoRow) {
    && row.deltas == DeltasOf(row.counters, previous.counters) && GapSeconds(previous.at, row.at).Some?
    && (row.deltas.Some? ==> row.rates == Some(RatesOver(row.deltas.value, row.at - previous.at)))
  }

  lemma {:induction false} QuotientTimes(x: real, y: real)
    requires y != 0.0
    ensures x / y * y == x
  {
  }

  lemma {:induction false} MegabytesBack(sectors: int, seconds: real)
    requires seconds > 0.0
    ensures MegabytesPerSecond(sectors, seconds) * seconds * 1_000_000.0 == (sectors * SECTOR_BYTES) as real
  {
    QuotientTimes((sectors * SECTOR_BYTES) as real / 1_000_000.0, seconds);
  }

  lemma {:induction false} QuotientSign(x: real, y: real)
    requires x >= 0.0 && y > 0.0
    ensures x / y >= 0.0 && (x / y >= 1.0 <==> x >= y)
  {
  }

  /** The rates of a rated row give its differences back, times their gap; utilisation lies between
      0 and 100 and is 100 exactly when the device was busy all the time. */
  lemma {:induction false} RatesMeanDeltas(row: IoRow, previous: IoRow)
    requires RatedAgainst(row, previous) && row.deltas.Some?
    ensures
      var (d, r, gap) := (row.deltas.value, row.rates.value, (row.at - previous.at) as real);
      && r.readIops * gap == d.readOps as real && r.writeIops * gap == d.writeOps as real
      && r.readMbS * gap * 1_000_000.0 == (d.sectorsRead * SECTOR_BYTES) as real
      && r.writeMbS * gap * 1_000_000.0 == (d.sectorsWritten * SECTOR_BYTES) as real
      && r.avgQueue * (gap * 1000.0) == d.weightedMs as real
      && (d.readOps + d.writeOps > 0 ==> r.awaitMs * (d.readOps + d.writeOps) as real == (d.readMs + d.writeMs) as real)
      && 0.0 <= r.utilPercent <= 100.0
      && (r.utilPercent == 100.0 <==> d.ioMs as real >= gap * 1000.0)
  {
    var (d, gap) := (row.deltas.value, (row.at - previous.at) as real);
    QuotientTimes(d.readOps as real, gap);
    QuotientTimes(d.writeOps as real, gap);
    MegabytesBack(d.sectorsRead, gap);
    MegabytesBack(d.sectorsWritten, gap);
    QuotientTimes(d.weightedMs as real, gap * 1000.0);
    if d.readOps + d.writeOps > 0 {
      QuotientTimes((d.readMs + d.writeMs) as real, (d.readOps + d.writeOps) as real);
    }
    QuotientSign(d.ioMs as real, gap * 1000.0);
  }

  /** Every rated row is rated against the stored row of its device just before it. */
  ghost predicate Chained(own: seq<IoRow>) {
    forall k :: 0 < k < |own| && own[k].deltas.Some? ==> RatedAgainst(own[k], own[k - 1])
  }

  ghost predicate AllChained(rows: seq<IoRow>) {
    forall device: string ::
      Chained(RowsOf(rows, device)) && (RowsOf(rows, device) != [] ==> RowsOf(rows, device)[0].deltas.None?)
  }

  /** A device is listed at most once in a report. */
  ghost predicate DistinctDevices(devices: seq<Device>) {
    forall i, j :: 0 <= i < j < |devices| ==> devices[i].name != devices[j].name
  }

  lemma {:induction false} RowsOfConcat(a: seq<IoRow>, b: seq<IoRow>, device: string)
    ensures RowsOf(a + b, device) == RowsOf(a, device) + RowsOf(b, device)
  {
    if b == [] {
      assert a + b == a;
    } else {
      RowsOfConcat(a, b[..|b| - 1], device);
      assert (a + b)[..|a + b| - 1] == a + b[..|b| - 1];
    }
  }

  /** Rows that all come from judging one report against one table, one per device. */
  ghost predicate FromReport(rows: seq<IoRow>, now: int, added: seq<IoRow>) {
    && (forall i :: 0 <= i < |added| && added[i].deltas.Some? ==>
          && Latest(rows, added[i].device, now).Some?
          && RatedAgainst(added[i], Latest(rows, added[i].device, now).value))
    && (forall i, j :: 0 <= i < j < |added| ==> added[i].device != added[j].device)
  }

  lemma {:induction false} OnePerDevice(added: seq<IoRow>, device: string)
    requires forall i, j :: 0 <= i < j < |added| ==> added[i].device != added[j].device
    ensures |RowsOf(added, device)| <= 1
    ensures RowsOf(added, device) != [] ==>
      RowsOf(added, device)[0] in added && RowsOf(added, device)[0].device == device
    ensures (forall i :: 0 <= i < |added| ==> added[i].device != device) ==> RowsOf(added, device) == []
  {
    if added != [] {
      OnePerDevice(added[..|added| - 1], device);
    }
  }

  lemma {:induction false} AppendKeepsChains(rows: seq<IoRow>, now: int, added: seq<IoRow>)
    requires AllChained(rows) && FromReport(rows, now, added)
    ensures AllChained(rows + added)
  {
    forall device: string
      ensures Chained(RowsOf(rows + added, device))
      ensures RowsOf(rows + added, device) != [] ==> RowsOf(rows + added, device)[0].deltas.None?
    {
      RowsOfConcat(rows, added, device);
      OnePerDevice(added, device);
      assert Chained(RowsOf(rows, device));
    }
  }

  // One report contributes at most one row per device.

  ghost predicate DistinctRows(s: seq<Ranked>) {
    forall i, j :: 0 <= i < j < |s| ==> s[i].row.device != s[j].row.device
  }

  lemma {:induction false} InsertKeepsDistinct(x: Ranked, s: seq<Ranked>)
    requires DistinctRows(s) && forall y :: y in s ==> y.row.device != x.row.device
    ensures DistinctRows(Insert(x, s)) && forall y :: y in Insert(x, s) ==> y == x || y in s
  {
    if !(s == [] || x.key >= s[0].key) {
      InsertKeepsDistinct(x, s[1..]);
      forall y | y in s[1..]
        ensures y.row.device != s[0].row.device
      {
      }
    }
  }

  lemma {:induction false} SortKeepsDistinct(s: seq<Ranked>)
    requires DistinctRows(s)
    ensures DistinctRows(SortDescending(s)) && forall y :: y in SortDescending(s) ==> y in s
  {
    if s != [] {
      SortKeepsDistinct(s[1..]);
      InsertKeepsDistinct(s[0], SortDescending(s[1..]));
    }
  }

  lemma {:induction false} JudgedRow(rows: seq<IoRow>, now: int, d: Device)
    ensures
      var v := Judge(rows, now, d);
      !v.Skipped? ==>
        && v.row.device == d.name && v.row.at == now && v.row.counters == d.counters
        && (v.FirstSeen? ==> v.row.deltas.None?)
        && (v.Rated? ==> Latest(rows, d.name, now).Some? && RatedAgainst(v.row, Latest(rows, d.name, now).value))
        && (v.Rated? ==> v.row.deltas.Some? && v.key == v.row.deltas.value.ioMs)
        && (v.Rated? ==> v.row.deltas.value.readOps + v.row.deltas.value.writeOps + v.key > 0)
  {
  }

  /** Row `i` is the newest stored row of the device. */
  ghost predicate NewestRow(rows: seq<IoRow>, device: string, i: nat) {
    i < |rows| && rows[i].device == device && forall j :: i < j < |rows| ==> rows[j].device != device
  }

  lemma {:induction false} NoneOwn(rows: seq<IoRow>, device: string)
    ensures RowsOf(rows, device) == [] <==> forall i :: 0 <= i < |rows| ==> rows[i].device != device
  {
    if rows != [] {
      NoneOwn(rows[..|rows| - 1], device);
      assert forall i :: 0 <= i < |rows| - 1 ==> rows[..|rows| - 1][i] == rows[i];
    }
  }

  lemma {:induction false} NewestOwn(rows: seq<IoRow>, device: string) returns (i: nat)
    requires RowsOf(rows, device) != []
    ensures NewestRow(rows, device, i) && RowsOf(rows, device)[|RowsOf(rows, device)| - 1] == rows[i]
  {
    i := |rows| - 1;
    if rows[i].device != device {
      i := NewestOwn(rows[..|rows| - 1], device);
    }
  }

  /** The counter is there on both sides and did not go backwards. */
  ghost predicate Forward(current: Option<int>, previous: Option<int>) {
    current.Some? && previous.Some? && current.value >= previous.value
  }

  /** The report can be rated against that stored row: 5 to 900 seconds lie between them, and all
      eight counters went forward. */
  ghost predicate Comparable(row: IoRow, now: int, c: Counters) {
    var p := row.counters;
    && 5 <= now - row.at <= 900
    && Forward(c.readOps, p.readOps) && Forward(c.writeOps, p.writeOps)
    && Forward(c.sectorsRead, p.sectorsRead) && Forward(c.sectorsWritten, p.sectorsWritten)
    && Forward(c.readMs, p.readMs) && Forward(c.writeMs, p.writeMs)
    && Forward(c.ioMs, p.ioMs) && Forward(c.weightedMs, p.weightedMs)
  }

  /** Something was read, written or kept the device busy since. */
  ghost predicate Moved(row: IoRow, c: Counters) {
    c.readOps != row.counters.readOps || c.writeOps != row.counters.writeOps || c.ioMs != row.counters.ioMs
  }

  /** Exactly what becomes of a device of a report: without a name it is skipped; without a newest row
      it can be compared with it is first seen; with one it is rated if anything moved, else skipped. */
  lemma {:induction false} JudgedIff(rows: seq<IoRow>, now: int, d: Device)
    ensures
      var v := Judge(rows, now, d);
      && (v.FirstSeen? <==>
          && d.name != ""
          && forall i :: 0 <= i < |rows| && NewestRow(rows, d.name, i) ==> !Comparable(rows[i], now, d.counters))
      && (v.Rated? <==>
          && d.name != ""
          && exists i :: 0 <= i < |rows| && NewestRow(rows, d.name, i) &&
               Comparable(rows[i], now, d.counters) && Moved(rows[i], d.counters))
      && (v.FirstSeen? ==> v.key == if d.counters.ioMs.Some? then d.counters.ioMs.value else 0)
      && (v.Rated? ==> forall i :: 0 <= i < |rows| && NewestRow(rows, d.name, i) ==>
            v.key == d.counters.ioMs.value - rows[i].counters.ioMs.value)
  {
    NoneOwn(rows, d.name);
    if RowsOf(rows, d.name) != [] {
      var i := NewestOwn(rows, d.name);
      JudgedAgainst(rows[i], now, d.counters);
      forall j | 0 <= j < |rows| && NewestRow(rows, d.name, j)
        ensures j == i
      {
      }
    }
  }

  lemma {:induction false} JudgedAgainst(row: IoRow, now: int, c: Counters)
    ensures Comparable(row, now, c) <==> GapSeconds(row.at, now).Some? && DeltasOf(c, row.counters).Some?
    ensures Comparable(row, now, c) ==>
      var d := DeltasOf(c, row.counters).value;
      && (Moved(row, c) <==> !(d.readOps + d.writeOps == 0 && d.ioMs == 0))
      && d.ioMs == c.ioMs.value - row.counters.ioMs.value
      && row.at >= now - IO_LOOKBACK
  {
  }

  /** Every device so judged is in its list. */
  lemma {:induction false} JudgedAreListed(rows: seq<IoRow>, now: int, devices: seq<Device>, i: nat)
    requires i < |devices|
    ensures
      var v := Judge(rows, now, devices[i]);
      && (v.Rated? ==> Ranked(v.key, v.row) in RatedOf(rows, now, devices))
      && (v.FirstSeen? ==> Ranked(v.key, v.row) in FirstSeenOf(rows, now, devices))
  {
    if i < |devices| - 1 {
      JudgedAreListed(rows, now, devices[..|devices| - 1], i);
    }
  }

  /** Every ranked row comes from judging one device of the report. */
  lemma {:induction false} RatedComeFromDevices(rows: seq<IoRow>, now: int, devices: seq<Device>, x: Ranked)
    requires x in RatedOf(rows, now, devices)
    ensures exists d :: d in devices && Judge(rows, now, d) == Rated(x.key, x.row)
  {
    var n := |devices| - 1;
    if x in RatedOf(rows, now, devices[..n]) {
      RatedComeFromDevices(rows, now, devices[..n], x);
      var d :| d in devices[..n] && Judge(rows, now, d) == Rated(x.key, x.row);
      assert d in devices;
    } else {
      assert devices[n] in devices;
    }
  }

  lemma {:induction false} FirstSeenComeFromDevices(rows: seq<IoRow>, now: int, devices: seq<Device>, x: Ranked)
    requires x in FirstSeenOf(rows, now, devices)
    ensures exists d :: d in devices && Judge(rows, now, d) == FirstSeen(x.key, x.row)
  {
    var n := |devices| - 1;
    if x in FirstSeenOf(rows, now, devices[..n]) {
      FirstSeenComeFromDevices(rows, now, devices[..n], x);
      var d :| d in devices[..n] && Judge(rows, now, d) == FirstSeen(x.key, x.row);
      assert d in devices;
    } else {
      assert devices[n] in devices;
    }
  }

  /** A ranked row has the name of one of the devices. */
  lemma {:induction false} RankedName(rows: seq<IoRow>, now: int, devices: seq<Device>, x: Ranked)
    requires x in RatedOf(rows, now, devices) || x in FirstSeenOf(rows, now, devices)
    ensures exists d :: d in devices && d.name == x.row.device
  {
    if x in RatedOf(rows, now, devices) {
      RatedComeFromDevices(rows, now, devices, x);
      var d :| d in devices && Judge(rows, now, d) == Rated(x.key, x.row);
      JudgedRow(rows, now, d);
    } else {
      FirstSeenComeFromDevices(rows, now, devices, x);
      var d :| d in devices && Judge(rows, now, d) == FirstSeen(x.key, x.row);
      JudgedRow(rows, now, d);
    }
  }

  lemma {:induction false} RankedAreDistinct(rows: seq<IoRow>, now: int, devices: seq<Device>)
    requires DistinctDevices(devices)
    ensures DistinctRows(RatedOf(rows, now, devices)) && DistinctRows(FirstSeenOf(rows, now, devices))
  {
    if devices != [] {
      var n := |devices| - 1;
      var front := devices[..n];
      RankedAreDistinct(rows, now, front);
      JudgedRow(rows, now, devices[n]);
      forall x | x in RatedOf(rows, now, front) || x in FirstSeenOf(rows, now, front)
        ensures x.row.device != devices[n].name
      {
        RankedName(rows, now, front, x);
      }
    }
  }

  lemma {:induction false} RatedAndFirstSeenDiffer(
    rows: seq<IoRow>, now: int, devices: seq<Device>, x: Ranked, y: Ranked)
    requires DistinctDevices(devices) && x in RatedOf(rows, now, devices) && y in FirstSeenOf(rows, now, devices)
    ensures x.row.device != y.row.device
  {
    RatedComeFromDevices(rows, now, devices, x);
    FirstSeenComeFromDevices(rows, now, devices, y);
    var d :| d in devices && Judge(rows, now, d) == Rated(x.key, x.row);
    var e :| e in devices && Judge(rows, now, e) == FirstSeen(y.key, y.row);
    JudgedRow(rows, now, d);
    JudgedRow(rows, now, e);
    assert d != e;
  }

  lemma {:induction false} ChosenAreFromReport(rows: seq<IoRow>, now: int, devices: seq<Device>)
    requires DistinctDevices(devices)
    ensures FromReport(rows, now, RowsIn(Chosen(RatedOf(rows, now, devices), FirstSeenOf(rows, now, devices))))
  {
    var rated, firstSeen := RatedOf(rows, now, devices), FirstSeenOf(rows, now, devices);
    var chosen := Chosen(rated, firstSeen);
    var top := Take(SortDescending(rated), MAX_IO_DEVICES);
    RankedAreDistinct(rows, now, devices);
    SortKeepsDistinct(rated);
    SortKeepsDistinct(firstSeen);
    forall i, j | 0 <= i < j < |chosen|
      ensures chosen[i].row.device != chosen[j].row.device
    {
      if i < |top| <= j {
        assert chosen[i] in rated && chosen[j] in firstSeen;
        RatedAndFirstSeenDiffer(rows, now, devices, chosen[i], chosen[j]);
      }
    }
    forall i | 0 <= i < |chosen| && chosen[i].row.deltas.Some?
      ensures Latest(rows, chosen[i].row.device, now).Some? &&
        RatedAgainst(chosen[i].row, Latest(rows, chosen[i].row.device, now).value)
    {
      var x := chosen[i];
      if x in rated {
        RatedComeFromDevices(rows, now, devices, x);
        var d :| d in devices && Judge(rows, now, d) == Rated(x.key, x.row);
        JudgedRow(rows, now, d);
      } else {
        FirstSeenComeFromDevices(rows, now, devices, x);
        var d :| d in devices && Judge(rows, now, d) == FirstSeen(x.key, x.row);
        JudgedRow(rows, now, d);
      }
    }
  }

  datatype Poll = Poll(now: int, devices: seq<Device>)

  function AfterPolls(polls: seq<Poll>): seq<IoRow> {
    if polls == [] then []
    else
      var last := polls[|polls| - 1];
      Polled(AfterPolls(polls[..|polls| - 1]), last.now, last.devices)
  }

  /** After any polls, every rated row is rated against the last stored row of its device,
      however many idle or unkept polls lie in between. */
  lemma {:induction false} PollsKeepChains(polls: seq<Poll>)
    requires forall i :: 0 <= i < |polls| ==> DistinctDevices(polls[i].devices)
    ensures AllChained(AfterPolls(polls))
  {
    if polls == [] {
      assert forall device: string :: RowsOf([], device) == [];
    } else {
      var last, rows := polls[|polls| - 1], AfterPolls(polls[..|polls| - 1]);
      PollsKeepChains(polls[..|polls| - 1]);
      ChosenAreFromReport(rows, last.now, last.devices);
      AppendKeepsChains(rows, last.now,
        RowsIn(Chosen(RatedOf(rows, last.now, last.devices), FirstSeenOf(rows, last.now, last.devices))));
    }
  }

  function Plus(a: Deltas, b: Deltas): Deltas {
    Deltas(a.readOps + b.readOps, a.writeOps + b.writeOps,
           a.sectorsRead + b.sectorsRead, a.sectorsWritten + b.sectorsWritten,
           a.readMs + b.readMs, a.writeMs + b.writeMs, a.ioMs + b.ioMs, a.weightedMs + b.weightedMs)
  }

  lemma {:induction false} DeltasAdd(a: Counters, b: Counters, c: Counters)
    requires DeltasOf(b, a).Some? && DeltasOf(c, b).Some?
    ensures DeltasOf(c, a) == Some(Plus(DeltasOf(b, a).value, DeltasOf(c, b).value))
  {
  }

  /** The deltas of the rows after `a` up to `b`, all of them rated, added up. */
  function TotalDeltas(own: seq<IoRow>, a: nat, b: nat): Deltas
    requires a < b < |own| && forall k :: a < k <= b ==> own[k].deltas.Some?
    decreases b
  {
    if b == a + 1 then own[b].deltas.value else Plus(TotalDeltas(own, a, b - 1), own[b].deltas.value)
  }

  /** So over any stretch of rated rows the deltas add up to the counters' own difference. */
  lemma {:induction false} DeltasTelescope(own: seq<IoRow>, a: nat, b: nat)
    requires Chained(own) && a < b < |own| && forall k :: a < k <= b ==> own[k].deltas.Some?
    ensures DeltasOf(own[b].counters, own[a].counters) == Some(TotalDeltas(own, a, b))
    decreases b
  {
    assert RatedAgainst(own[b], own[b - 1]);
    if b > a + 1 {
      DeltasTelescope(own, a, b - 1);
      DeltasAdd(own[a].counters, own[b - 1].counters, own[b].counters);
    }
  }

  lemma {:induction false} StoredDeltasTelescope(polls: seq<Poll>, device: string, a: nat, b: nat)
    requires forall i :: 0 <= i < |polls| ==> DistinctDevices(polls[i].devices)
    requires a < b < |RowsOf(AfterPolls(polls), device)|
    requires forall k :: a < k <= b ==> RowsOf(AfterPolls(polls), device)[k].deltas.Some?
    ensures
      var own := RowsOf(AfterPolls(polls), device);
      DeltasOf(own[b].counters, own[a].counters) == Some(TotalDeltas(own, a, b))
  {
    PollsKeepChains(polls);
    DeltasTelescope(RowsOf(AfterPolls(polls), device), a, b);
  }
}
