/**
 The log of a bulk vzdump job (`_detect_log_timezone_offset` and
 `_parse_bulk_backup_log`, tasks/poller.py).

 Lines are already classified by the source's patterns; a printed time that does not
 parse is None.  Times are in seconds.
 */
module BackupLog {
  import opened Wrappers

  datatype Line =
    | Starting(vmid: int)
    | StartedAt(time: Option<int>)
    | ArchiveSize(gb: real)
    | Failed(vmid: int, reason: Option<string>)
    | Finished(vmid: int)
    | FinishedAt(time: Option<int>)
    | Other(text: string)

  datatype Result =
    | Success(vmid: int, at: int, size: Option<real>)
    | Failure(vmid: int, at: int, reason: string)

  // ---------------------------------------------------------------------------
  // The host's offset
  // ---------------------------------------------------------------------------

  /** Wall clock minus true time, taken from the first "Backup started at" line. */
  function Offset(lines: seq<Line>, startTime: int): int {
    if lines == [] then 0
    else if lines[0].StartedAt? then (if lines[0].time.Some? then lines[0].time.value - startTime else 0)
    else Offset(lines[1..], startTime)
  }

  method DetectOffset(lines: seq<Line>, startTime: int) returns (offset: int)
    ensures offset == Offset(lines, startTime)
  {
    for i := 0 to |lines|
      invariant Offset(lines[i..], startTime) == Offset(lines, startTime)
    {
      assert lines[i..][1..] == lines[i + 1..];
      if lines[i].StartedAt? {
        if lines[i].time.None? {
          break;
        }
        return lines[i].time.value - startTime;
      }
    }
    return 0;
  }

  // ---------------------------------------------------------------------------
  // The parser
  // ---------------------------------------------------------------------------

  /** The end time of a section closed just before line `i`. */
  function EndTime(lines: seq<Line>, i: nat, fallback: int, offset: int): int {
    if i < |lines| && lines[i].FinishedAt? && lines[i].time.Some? then lines[i].time.value - offset else fallback
  }

  /** The results of the lines from `i` on, with the section that is open there. */
  function ParseFrom(
    lines: seq<Line>, i: nat, open: Option<int>, size: Option<real>, fallback: int, offset: int): seq<Result>
    requires i <= |lines|
    decreases |lines| - i
  {
    if i == |lines| then []
    else
      match lines[i]
      case Starting(v) => ParseFrom(lines, i + 1, Some(v), None, fallback, offset)
      case ArchiveSize(gb) => ParseFrom(lines, i + 1, open, if open.Some? then Some(gb) else size, fallback, offset)
      case Failed(v, reason) =>
        if open == Some(v) then
          [Failure(v, fallback, if reason.Some? then reason.value else "Backup failed")] +
            ParseFrom(lines, i + 1, None, size, fallback, offset)
        else ParseFrom(lines, i + 1, open, size, fallback, offset)
      case Finished(v) =>
        if open == Some(v) then
          [Success(v, EndTime(lines, i + 1, fallback, offset), size)] +
            ParseFrom(lines, i + 1, None, size, fallback, offset)
        else ParseFrom(lines, i + 1, open, size, fallback, offset)
      case _ => ParseFrom(lines, i + 1, open, size, fallback, offset)
  }

  function Parse(lines: seq<Line>, fallback: int, offset: int): seq<Result> {
    ParseFrom(lines, 0, None, None, fallback, offset)
  }

  lemma {:induction false} AddOne(done: seq<Result>, r: Result, rest: seq<Result>)
    ensures done + ([r] + rest) == (done + [r]) + rest
  {
  }

  method ParseBulkLog(lines: seq<Line>, fallback: int, offset: int) returns (results: seq<Result>)
    ensures results == Parse(lines, fallback, offset)
  {
    results := [];
    var open: Option<int> := None;
    var size: Option<real> := None;
    for i := 0 to |lines|
      invariant results + ParseFrom(lines, i, open, size, fallback, offset) == Parse(lines, fallback, offset)
    {
      var line := lines[i];
      if line.Starting? {
        open, size := Some(line.vmid), None;
        continue;
      }
      if open.None? {
        continue;
      }
      if line.ArchiveSize? {
        size := Some(line.gb);
        continue;
      }
      if line.Failed? && line.vmid == open.value {
        var failure := Failure(line.vmid, fallback, if line.reason.Some? then line.reason.value else "Backup failed");
        AddOne(results, failure, ParseFrom(lines, i + 1, None, size, fallback, offset));
        results := results + [failure];
        open := None;
        continue;
      }
      if line.Finished? && line.vmid == open.value {
        var at := fallback;
        if i + 1 < |lines| && lines[i + 1].FinishedAt? && lines[i + 1].time.Some? {
          at := lines[i + 1].time.value - offset;
        }
        AddOne(results, Success(line.vmid, at, size), ParseFrom(lines, i + 1, None, size, fallback, offset));
        results := results + [Success(line.vmid, at, size)];
        open := None;
      }
    }
  }

  /** Both halves as the poller uses them: find the host's offset, then parse. */
  function ParseJob(lines: seq<Line>, startTime: int, endTime: int): seq<Result> {
    Parse(lines, endTime, Offset(lines, startTime))
  }

  // ---------------------------------------------------------------------------
  // Rendering a job
  // ---------------------------------------------------------------------------

  /** How a guest's section ends; an open one is never closed. */
  datatype Closing = Done(at: Option<int>) | Broken(reason: Option<string>) | Open

  /** One guest: its own lines, how it closes, and what is printed before the next guest starts. */
  datatype Section = Section(vmid: int, body: seq<Line>, closing: Closing, tail: seq<Line>)

  /** A line of a section that neither opens nor closes one. */
  predicate Inside(line: Line, vmid: int) {
    !line.Starting? && !(line.Failed? && line.vmid == vmid) && !(line.Finished? && line.vmid == vmid)
  }

  /** Any noise goes in a body or a tail, except a time line straight after a finish line. */
  ghost predicate WellFormed(s: Section) {
    && (forall i :: 0 <= i < |s.body| ==> Inside(s.body[i], s.vmid))
    && (forall i :: 0 <= i < |s.tail| ==> !s.tail[i].Starting?)
    && (s.closing == Done(None) ==> s.tail == [] || !s.tail[0].FinishedAt? || s.tail[0].time.None?)
    && (s.closing.Open? ==> s.tail == [])
  }

  function ClosingLines(vmid: int, c: Closing): seq<Line> {
    match c
    case Done(at) => [Finished(vmid)] + if at.Some? then [FinishedAt(at)] else []
    case Broken(reason) => [Failed(vmid, reason)]
    case Open => []
  }

  function RenderSection(s: Section): seq<Line> {
    [Starting(s.vmid)] + s.body + ClosingLines(s.vmid, s.closing) + s.tail
  }

  function Render(sections: seq<Section>): seq<Line> {
    if sections == [] then [] else RenderSection(sections[0]) + Render(sections[1..])
  }

  /** The last size line of a body. */
  function LastSize(body: seq<Line>, size: Option<real>): Option<real> {
    if body == [] then size
    else LastSize(body[1..], if body[0].ArchiveSize? then Some(body[0].gb) else size)
  }

  /** What a section should yield. */
  function Expected(s: Section, fallback: int, offset: int): seq<Result> {
    match s.closing
    case Done(at) => [Success(s.vmid, if at.Some? then at.value - offset else fallback, LastSize(s.body, None))]
    case Broken(reason) => [Failure(s.vmid, fallback, if reason.Some? then reason.value else "Backup failed")]
    case Open => []
  }

  function ExpectedAll(sections: seq<Section>, fallback: int, offset: int): seq<Result> {
    if sections == [] then []
    else Expected(sections[0], fallback, offset) + ExpectedAll(sections[1..], fallback, offset)
  }

  // ---------------------------------------------------------------------------
  // Parsing what was rendered
  // ---------------------------------------------------------------------------

  /** Parsing depends only on the lines still to come. */
  lemma {:induction false} ParseSuffix(
    lines: seq<Line>, i: nat, open: Option<int>, size: Option<real>, fallback: int, offset: int)
    requires i <= |lines|
    ensures ParseFrom(lines, i, open, size, fallback, offset) == ParseFrom(lines[i..], 0, open, size, fallback, offset)
    decreases |lines| - i
  {
    SuffixFrom(lines, i, 0, open, size, fallback, offset);
  }

  lemma {:induction false} SuffixFrom(
    lines: seq<Line>, i: nat, k: nat, open: Option<int>, size: Option<real>, fallback: int, offset: int)
    requires i + k <= |lines|
    ensures ParseFrom(lines, i + k, open, size, fallback, offset) ==
      ParseFrom(lines[i..], k, open, size, fallback, offset)
    decreases |lines| - i - k
  {
    if i + k < |lines| {
      var line := lines[i + k];
      assert lines[i..][k] == line;
      assert EndTime(lines, i + k + 1, fallback, offset) == EndTime(lines[i..], k + 1, fallback, offset);
      var open' := if line.Starting? then Some(line.vmid)
        else if (line.Failed? || line.Finished?) && open == Some(line.vmid) then None else open;
      var size' := if line.Starting? then None else if line.ArchiveSize? && open.Some? then Some(line.gb) else size;
      SuffixFrom(lines, i, k + 1, open', size', fallback, offset);
    }
  }

  /** Lines that open and close nothing only pass the size on. */
  lemma {:induction false} SkipBody(
    body: seq<Line>, rest: seq<Line>, vmid: int, size: Option<real>, fallback: int, offset: int)
    requires forall i :: 0 <= i < |body| ==> Inside(body[i], vmid)
    ensures ParseFrom(body + rest, 0, Some(vmid), size, fallback, offset)
         == ParseFrom(rest, 0, Some(vmid), LastSize(body, size), fallback, offset)
  {
    if body == [] {
      assert body + rest == rest;
    } else {
      var lines := body + rest;
      var size' := if body[0].ArchiveSize? then Some(body[0].gb) else size;
      assert lines[1..] == body[1..] + rest;
      ParseSuffix(lines, 1, Some(vmid), size', fallback, offset);
      SkipBody(body[1..], rest, vmid, size', fallback, offset);
    }
  }

  /** Between sections everything but a new start is ignored. */
  lemma {:induction false} SkipTail(tail: seq<Line>, rest: seq<Line>, size: Option<real>, fallback: int, offset: int)
    requires forall i :: 0 <= i < |tail| ==> !tail[i].Starting?
    ensures ParseFrom(tail + rest, 0, None, size, fallback, offset) == ParseFrom(rest, 0, None, size, fallback, offset)
  {
    if tail == [] {
      assert tail + rest == rest;
    } else {
      var lines := tail + rest;
      assert lines[1..] == tail[1..] + rest;
      ParseSuffix(lines, 1, None, size, fallback, offset);
      SkipTail(tail[1..], rest, size, fallback, offset);
    }
  }

  /** The rest of a job starts with a section, or is empty. */
  ghost predicate StartsFresh(rest: seq<Line>) {
    rest == [] || rest[0].Starting?
  }

  lemma {:induction false} SizeIsForgotten(
    rest: seq<Line>, open: Option<int>, size: Option<real>, fallback: int, offset: int)
    requires StartsFresh(rest)
    ensures ParseFrom(rest, 0, open, size, fallback, offset) == Parse(rest, fallback, offset)
  {
  }

  lemma {:induction false} ParseSection(s: Section, rest: seq<Line>, fallback: int, offset: int)
    requires WellFormed(s) && StartsFresh(rest)
    ensures Parse(RenderSection(s) + rest, fallback, offset) ==
      Expected(s, fallback, offset) + Parse(rest, fallback, offset)
  {
    var closing := ClosingLines(s.vmid, s.closing);
    var after := closing + s.tail + rest;
    var lines := RenderSection(s) + rest;
    assert lines[1..] == s.body + after;
    ParseSuffix(lines, 1, Some(s.vmid), None, fallback, offset);
    SkipBody(s.body, after, s.vmid, None, fallback, offset);
    ParseClosing(s, rest, after, LastSize(s.body, None), fallback, offset);
  }

  lemma {:induction false} ParseClosing(
    s: Section, rest: seq<Line>, after: seq<Line>, size: Option<real>, fallback: int, offset: int)
    requires WellFormed(s) && StartsFresh(rest) && size == LastSize(s.body, None)
    requires after == ClosingLines(s.vmid, s.closing) + s.tail + rest
    ensures ParseFrom(after, 0, Some(s.vmid), size, fallback, offset) ==
      Expected(s, fallback, offset) + Parse(rest, fallback, offset)
  {
    match s.closing
    case Open =>
      assert after == rest;
      SizeIsForgotten(rest, Some(s.vmid), size, fallback, offset);
    case Broken(reason) =>
      assert after == [Failed(s.vmid, reason)] + (s.tail + rest);
      ParseClosed(after, s.tail, rest, size, fallback, offset);
    case Done(at) =>
      ParseDone(s, at, rest, after, size, fallback, offset);
  }

  lemma {:induction false} ParseDone(
    s: Section, at: Option<int>, rest: seq<Line>, after: seq<Line>, size: Option<real>, fallback: int, offset: int)
    requires WellFormed(s) && StartsFresh(rest) && s.closing == Done(at)
    requires after == ClosingLines(s.vmid, s.closing) + s.tail + rest
    ensures ParseFrom(after, 0, Some(s.vmid), size, fallback, offset) ==
      [Success(s.vmid, if at.Some? then at.value - offset else fallback, size)] + Parse(rest, fallback, offset)
  {
    var tail := (if at.Some? then [FinishedAt(at)] else []) + s.tail;
    assert after == [Finished(s.vmid)] + (tail + rest);
    ParseClosed(after, tail, rest, size, fallback, offset);
    assert |after| > 1 ==> after[1] == (tail + rest)[0];
  }

  /** After a closing line nothing counts until the next section. */
  lemma {:induction false} ParseClosed(
    after: seq<Line>, tail: seq<Line>, rest: seq<Line>, size: Option<real>, fallback: int, offset: int)
    requires after != [] && after[1..] == tail + rest && StartsFresh(rest)
    requires forall i :: 0 <= i < |tail| ==> !tail[i].Starting?
    ensures ParseFrom(after, 1, None, size, fallback, offset) == Parse(rest, fallback, offset)
  {
    ParseSuffix(after, 1, None, size, fallback, offset);
    SkipTail(tail, rest, size, fallback, offset);
    SizeIsForgotten(rest, None, size, fallback, offset);
  }

  lemma {:induction false} RenderStartsFresh(sections: seq<Section>)
    ensures StartsFresh(Render(sections))
  {
  }

  /** One result per closed section, in order, with its status, size and end time,
      whatever is printed in between. */
  lemma {:induction false} ParseRendered(preamble: seq<Line>, sections: seq<Section>, fallback: int, offset: int)
    requires forall i :: 0 <= i < |preamble| ==> !preamble[i].Starting?
    requires forall i :: 0 <= i < |sections| ==> WellFormed(sections[i])
    ensures Parse(preamble + Render(sections), fallback, offset) == ExpectedAll(sections, fallback, offset)
    decreases |sections|
  {
    var all := Render(sections);
    SkipTail(preamble, all, None, fallback, offset);
    if sections != [] {
      RenderStartsFresh(sections[1..]);
      ParseSection(sections[0], Render(sections[1..]), fallback, offset);
      ParseRendered([], sections[1..], fallback, offset);
      assert [] + Render(sections[1..]) == Render(sections[1..]);
    }
  }

  // ---------------------------------------------------------------------------
  // The host's clock
  // ---------------------------------------------------------------------------

  function ShiftTime(t: Option<int>, ahead: int): Option<int> {
    if t.Some? then Some(t.value + ahead) else None
  }

  /** The same log printed by a host whose clock is that far ahead. */
  function Shift(lines: seq<Line>, ahead: int): (out: seq<Line>)
    ensures |out| == |lines|
  {
    if lines == [] then []
    else
      var last := lines[|lines| - 1];
      Shift(lines[..|lines| - 1], ahead) +
      [match last
       case StartedAt(t) => StartedAt(ShiftTime(t, ahead))
       case FinishedAt(t) => FinishedAt(ShiftTime(t, ahead))
       case _ => last]
  }

  lemma {:induction false} ShiftAt(lines: seq<Line>, ahead: int, i: nat)
    requires i < |lines|
    ensures Shift(lines, ahead)[i] ==
      match lines[i]
      case StartedAt(t) => StartedAt(ShiftTime(t, ahead))
      case FinishedAt(t) => FinishedAt(ShiftTime(t, ahead))
      case _ => lines[i]
  {
    if i < |lines| - 1 {
      ShiftAt(lines[..|lines| - 1], ahead, i);
    }
  }

  /** The first "Backup started at" line of the log can be read. */
  predicate ClockShown(lines: seq<Line>) {
    lines != [] && (if lines[0].StartedAt? then lines[0].time.Some? else ClockShown(lines[1..]))
  }

  lemma {:induction false} ShiftedOffset(lines: seq<Line>, ahead: int, startTime: int, i: nat)
    requires i <= |lines|
    ensures Offset(Shift(lines, ahead)[i..], startTime) ==
      Offset(lines[i..], startTime) + if ClockShown(lines[i..]) then ahead else 0
    decreases |lines| - i
  {
    if i < |lines| {
      ShiftAt(lines, ahead, i);
      ShiftedOffset(lines, ahead, startTime, i + 1);
      assert lines[i..][1..] == lines[i + 1..];
      assert Shift(lines, ahead)[i..][1..] == Shift(lines, ahead)[i + 1..];
    }
  }

  /** Shifting log and offset together changes nothing. */
  lemma {:induction false} ShiftCancels(
    lines: seq<Line>, ahead: int, i: nat, open: Option<int>, size: Option<real>, fallback: int, offset: int)
    requires i <= |lines|
    ensures ParseFrom(Shift(lines, ahead), i, open, size, fallback, offset + ahead) ==
      ParseFrom(lines, i, open, size, fallback, offset)
    decreases |lines| - i
  {
    if i < |lines| {
      var line := lines[i];
      ShiftAt(lines, ahead, i);
      if i + 1 < |lines| {
        ShiftAt(lines, ahead, i + 1);
      }
      assert EndTime(Shift(lines, ahead), i + 1, fallback, offset + ahead) == EndTime(lines, i + 1, fallback, offset);
      var open' := if line.Starting? then Some(line.vmid)
        else if (line.Failed? || line.Finished?) && open == Some(line.vmid) then None else open;
      var size' := if line.Starting? then None else if line.ArchiveSize? && open.Some? then Some(line.gb) else size;
      ShiftCancels(lines, ahead, i + 1, open', size', fallback, offset);
    }
  }

  /** A host's time zone does not matter as long as the log shows its clock. */
  lemma {:induction false} TimeZoneDoesNotMatter(lines: seq<Line>, ahead: int, startTime: int, endTime: int)
    requires ClockShown(lines)
    ensures ParseJob(Shift(lines, ahead), startTime, endTime) == ParseJob(lines, startTime, endTime)
  {
    assert lines[0..] == lines && Shift(lines, ahead)[0..] == Shift(lines, ahead);
    ShiftedOffset(lines, ahead, startTime, 0);
    ShiftCancels(lines, ahead, 0, None, None, endTime, Offset(lines, startTime));
  }

  /** The first "Backup started at" line prints that time. */
  ghost predicate PrintsStart(lines: seq<Line>, time: int) {
    exists i :: 0 <= i < |lines| && lines[i] == StartedAt(Some(time)) && forall j :: 0 <= j < i ==> !lines[j].StartedAt?
  }

  /** The offset is what the host's clock was ahead by when the job started. */
  lemma {:induction false} OffsetIsClockLead(lines: seq<Line>, printed: int, startTime: int)
    requires PrintsStart(lines, printed)
    ensures startTime + Offset(lines, startTime) == printed && ClockShown(lines)
  {
    var i :| && 0 <= i < |lines| && lines[i] == StartedAt(Some(printed))
             && forall j :: 0 <= j < i ==> !lines[j].StartedAt?;
    if i > 0 {
      assert lines[1..][i - 1] == lines[i];
      assert forall j :: 0 <= j < i - 1 ==> lines[1..][j] == lines[j + 1];
      OffsetIsClockLead(lines[1..], printed, startTime);
    }
  }

  /** Without a readable first line there is no correction. */
  lemma {:induction false} NoClockNoOffset(lines: seq<Line>, startTime: int)
    requires !ClockShown(lines)
    ensures Offset(lines, startTime) == 0
  {
    if lines != [] && !lines[0].StartedAt? {
      NoClockNoOffset(lines[1..], startTime);
    }
  }

  /** End to end: a job whose sections ended at the given true times, printed by a host whose clock is
      any amount ahead, is parsed to exactly those times, in order, with status and size. */
  lemma {:induction false} TrueTimesComeBack(
    preamble: seq<Line>, sections: seq<Section>, ahead: int, startTime: int, endTime: int)
    requires forall i :: 0 <= i < |preamble| ==> !preamble[i].Starting?
    requires forall i :: 0 <= i < |sections| ==> WellFormed(sections[i])
    requires PrintsStart(preamble + Render(sections), startTime)
    ensures ParseJob(Shift(preamble + Render(sections), ahead), startTime, endTime) == ExpectedAll(sections, endTime, 0)
  {
    var lines := preamble + Render(sections);
    OffsetIsClockLead(lines, startTime, startTime);
    TimeZoneDoesNotMatter(lines, ahead, startTime, endTime);
    ParseRendered(preamble, sections, endTime, 0);
  }

  /** Some guest's end time is taken from the log rather than from the job as a whole. */
  predicate TakesPrintedTime(lines: seq<Line>, i: nat, open: Option<int>)
    requires i <= |lines|
    decreases |lines| - i
  {
    i < |lines| &&
    match lines[i]
    case Starting(v) => TakesPrintedTime(lines, i + 1, Some(v))
    case Failed(v, _) => TakesPrintedTime(lines, i + 1, if open == Some(v) then None else open)
    case Finished(v) =>
      if open == Some(v) then
        (i + 1 < |lines| && lines[i + 1].FinishedAt? && lines[i + 1].time.Some?) || TakesPrintedTime(lines, i + 1, None)
      else TakesPrintedTime(lines, i + 1, open)
    case _ => TakesPrintedTime(lines, i + 1, open)
  }

  /** A different offset shows exactly in those end times. */
  lemma {:induction false} OffsetShows(
    lines: seq<Line>, i: nat, open: Option<int>, size: Option<real>, fallback: int, o: int, o': int)
    requires i <= |lines| && o != o'
    ensures ParseFrom(lines, i, open, size, fallback, o) == ParseFrom(lines, i, open, size, fallback, o') <==>
      !TakesPrintedTime(lines, i, open)
    decreases |lines| - i
  {
    if i < |lines| {
      var line := lines[i];
      var open' := if line.Starting? then Some(line.vmid)
        else if (line.Failed? || line.Finished?) && open == Some(line.vmid) then None else open;
      var size' := if line.Starting? then None else if line.ArchiveSize? && open.Some? then Some(line.gb) else size;
      OffsetShows(lines, i + 1, open', size', fallback, o, o');
      if line.Finished? && open == Some(line.vmid) {
        var a, b := ParseFrom(lines, i, open, size, fallback, o), ParseFrom(lines, i, open, size, fallback, o');
        assert a[1..] == ParseFrom(lines, i + 1, None, size, fallback, o);
        assert b[1..] == ParseFrom(lines, i + 1, None, size, fallback, o');
        assert a == b ==> a[0] == b[0] && a[1..] == b[1..];
      } else if line.Failed? && open == Some(line.vmid) {
        var a, b := ParseFrom(lines, i, open, size, fallback, o), ParseFrom(lines, i, open, size, fallback, o');
        assert a[1..] == ParseFrom(lines, i + 1, None, size, fallback, o);
        assert b[1..] == ParseFrom(lines, i + 1, None, size, fallback, o');
      }
    }
  }

  /** The shift is corrected exactly when the log shows the host's clock, or shows no end
      time that is used, or there is no shift. */
  lemma {:induction false} TimeZoneMattersIff(lines: seq<Line>, ahead: int, startTime: int, endTime: int)
    ensures ParseJob(Shift(lines, ahead), startTime, endTime) == ParseJob(lines, startTime, endTime) <==>
      ahead == 0 || ClockShown(lines) || !TakesPrintedTime(lines, 0, None)
  {
    assert lines[0..] == lines && Shift(lines, ahead)[0..] == Shift(lines, ahead);
    var offset := Offset(lines, startTime);
    ShiftedOffset(lines, ahead, startTime, 0);
    if ClockShown(lines) {
      ShiftCancels(lines, ahead, 0, None, None, endTime, offset);
    } else {
      ShiftCancels(lines, ahead, 0, None, None, endTime, offset - ahead);
      if ahead != 0 {
        OffsetShows(lines, 0, None, None, endTime, offset, offset - ahead);
      }
    }
  }
}
