/**
 Checkpointed sync of the Bifrost request log (tasks/bifrost_sync.py).

 The remote log is written down once, as the sequence of all rows it will ever
 hold in timestamp order.  `visibleAt` says from which instant `/api/logs` shows
 a row and `finalAt` from which instant its status is final, so a read at time
 `t` sees a filter of that sequence: rows appear anywhere in the order between
 two pages, none disappears and none changes place.
 Time is in seconds.
 */
module BifrostSync {
  import opened Wrappers

  const MINUTE := 60
  const HOUR := 3600
  const DAY := 86400
  const OVERLAP := 5 * MINUTE
  const PAGE_LIMIT := 500
  const MAX_PAGES := 500
  /** The rows one pull can read: all its pages, full. */
  const FULL_PULL := 250_000
  const DEFAULT_BACKFILL_DAYS := 30
  const PROCESSING_MIN_AGE := 2 * MINUTE
  const PROCESSING_MAX_AGE := 48 * HOUR

  type Id = string

  datatype Status = Processing | Final

  datatype Row = Row(id: Id, ts: int, visibleAt: int, finalAt: Option<int>)

  /** A stored usage row; `modified` is the instant of the read that wrote it. */
  datatype Entry = Entry(ts: int, status: Status, modified: int)

  type Table = map<Id, Entry>

  /** What one `/api/logs` call does: fail, or answer at an instant, with some
      rows whose upsert then raises. */
  datatype Reply = ApiError | Page(at: int, rejected: set<Id>)

  // ---------------------------------------------------------------------------
  // The remote log
  // ---------------------------------------------------------------------------

  ghost predicate ValidLog(w: seq<Row>) {
    && (forall i, j :: 0 <= i < j < |w| ==> w[i].ts <= w[j].ts)
    && (forall i, j :: 0 <= i < j < |w| ==> w[i].id != w[j].id)
  }

  /** Every row becomes visible within the overlap of its own timestamp. */
  ghost predicate Prompt(w: seq<Row>) {
    forall i :: 0 <= i < |w| ==> w[i].visibleAt <= w[i].ts + OVERLAP
  }

  function StatusAt(r: Row, t: int): Status {
    if r.finalAt.Some? && r.finalAt.value <= t then Final else Processing
  }

  predicate Shown(r: Row, t: int, lo: int, hi: int) {
    r.visibleAt <= t && lo <= r.ts < hi
  }

  /** The rows of [lo, hi) that a read at time `t` can see, in order. */
  function Visible(w: seq<Row>, t: int, lo: int, hi: int): seq<Row> {
    if w == [] then []
    else
      var front := Visible(w[..|w| - 1], t, lo, hi);
      if Shown(w[|w| - 1], t, lo, hi) then front + [w[|w| - 1]] else front
  }

  /** The position row `p` of the log takes in a read at time `t`. */
  ghost function Rank(w: seq<Row>, p: nat, t: int, lo: int, hi: int): nat
    requires p <= |w|
  {
    |Visible(w[..p], t, lo, hi)|
  }

  lemma {:induction false} VisiblePrefix(w: seq<Row>, p: nat, t: int, lo: int, hi: int)
    requires p <= |w|
    ensures Visible(w[..p], t, lo, hi) <= Visible(w, t, lo, hi)
  {
    if p < |w| {
      VisiblePrefix(w[..|w| - 1], p, t, lo, hi);
      assert w[..|w| - 1][..p] == w[..p];
    } else {
      assert w[..p] == w;
    }
  }

  lemma {:induction false} RankMonotone(w: seq<Row>, p: nat, q: nat, t: int, lo: int, hi: int)
    requires p <= q <= |w|
    ensures Rank(w, p, t, lo, hi) <= Rank(w, q, t, lo, hi)
  {
    assert w[..q][..p] == w[..p];
    VisiblePrefix(w[..q], p, t, lo, hi);
  }

  lemma {:induction false} RankOfShown(w: seq<Row>, p: nat, t: int, lo: int, hi: int)
    requires p < |w| && Shown(w[p], t, lo, hi)
    ensures Rank(w, p, t, lo, hi) < |Visible(w, t, lo, hi)|
    ensures Visible(w, t, lo, hi)[Rank(w, p, t, lo, hi)] == w[p]
    ensures Rank(w, p + 1, t, lo, hi) == Rank(w, p, t, lo, hi) + 1
  {
    assert w[..p + 1][..p] == w[..p];
    VisiblePrefix(w, p + 1, t, lo, hi);
  }

  /** Every row a read returns is some shown row of the log. */
  lemma {:induction false} VisibleOrigin(w: seq<Row>, i: nat, t: int, lo: int, hi: int) returns (p: nat)
    requires i < |Visible(w, t, lo, hi)|
    ensures p < |w| && Shown(w[p], t, lo, hi)
    ensures Visible(w, t, lo, hi)[i] == w[p] && Rank(w, p, t, lo, hi) == i
  {
    var front := w[..|w| - 1];
    if i < |Visible(front, t, lo, hi)| {
      p := VisibleOrigin(front, i, t, lo, hi);
      assert front[..p] == w[..p];
    } else {
      p := |w| - 1;
    }
  }

  /** Rows inserted later only push a row's position up. */
  lemma {:induction false} RankGrows(w: seq<Row>, p: nat, t: int, t': int, lo: int, hi: int)
    requires p <= |w| && t <= t'
    ensures Rank(w, p, t, lo, hi) <= Rank(w, p, t', lo, hi)
  {
    if p > 0 {
      RankGrows(w, p - 1, t, t', lo, hi);
      assert w[..p][..p - 1] == w[..p - 1];
    }
  }

  // ---------------------------------------------------------------------------
  // One pull
  // ---------------------------------------------------------------------------

  function Stored(r: Row, at: int): Entry {
    Entry(r.ts, StatusAt(r, at), at)
  }

  /** What the page loop carries; `last` is the last row that was upserted. */
  datatype Progress = Progress(table: Table, offset: nat, synced: nat, last: Option<Row>)

  datatype Pull = Raised(table: Table) | Pulled(table: Table, synced: nat, last: Option<Row>, drained: bool)

  function PageOf(view: seq<Row>, offset: nat): seq<Row> {
    if offset >= |view| then []
    else if offset + PAGE_LIMIT <= |view| then view[offset..offset + PAGE_LIMIT]
    else view[offset..]
  }

  /** Upsert the first `n` rows of a page. */
  function UpsertRows(s: Progress, logs: seq<Row>, n: nat, at: int, rejected: set<Id>): Progress
    requires n <= |logs|
  {
    if n == 0 then s
    else
      var s' := UpsertRows(s, logs, n - 1, at, rejected);
      var r := logs[n - 1];
      if r.id in rejected then s'
      else s'.(table := s'.table[r.id := Stored(r, at)], synced := s'.synced + 1, last := Some(r))
  }

  /** The page loop's next state once a page answers. */
  function ReadPage(w: seq<Row>, lo: int, hi: int, page: Reply, s: Progress): Progress
    requires page.Page?
  {
    var logs := PageOf(Visible(w, page.at, lo, hi), s.offset);
    UpsertRows(s, logs, |logs|, page.at, page.rejected).(offset := s.offset + |logs|)
  }

  function PullFrom(w: seq<Row>, lo: int, hi: int, replies: seq<Reply>, k: nat, s: Progress): Pull
    requires k <= MAX_PAGES
    decreases MAX_PAGES - k
  {
    if k == MAX_PAGES then Pulled(s.table, s.synced, s.last, false)
    else if k >= |replies| || replies[k].ApiError? then Raised(s.table)
    else
      var view := Visible(w, replies[k].at, lo, hi);
      if PageOf(view, s.offset) == [] then Pulled(s.table, s.synced, s.last, true)
      else
        var s' := ReadPage(w, lo, hi, replies[k], s);
        if s'.offset >= |view| then Pulled(s'.table, s'.synced, s'.last, true)
        else PullFrom(w, lo, hi, replies, k + 1, s')
  }

  function PullWindow(w: seq<Row>, lo: int, hi: int, replies: seq<Reply>, table: Table): Pull {
    PullFrom(w, lo, hi, replies, 0, Progress(table, 0, 0, None))
  }

  /** The answers of one pull come in order, between `from` and `to`. */
  ghost predicate Timed(replies: seq<Reply>, from: int, to: int) {
    && from <= to
    && (forall i :: 0 <= i < |replies| && replies[i].Page? ==> from <= replies[i].at <= to)
    && (forall i, j :: 0 <= i < j < |replies| && replies[i].Page? && replies[j].Page? ==>
      replies[i].at <= replies[j].at)
  }

  ghost predicate RejectedIn(id: Id, replies: seq<Reply>) {
    exists i :: 0 <= i < |replies| && replies[i].Page? && id in replies[i].rejected
  }

  /** Row `r` was read at or after `from`, and stored unless its upsert raised. */
  ghost predicate Handled(r: Row, table: Table, from: int, replies: seq<Reply>) {
    RejectedIn(r.id, replies) || (r.id in table && table[r.id].modified >= from)
  }

  /** The page loop's invariant: a row that was visible at `from` and is not
      handled yet still lies at or past the offset, and past the last row stored. */
  ghost predicate NothingSkipped(w: seq<Row>, lo: int, hi: int, replies: seq<Reply>, from: int, t: int, s: Progress) {
    forall p :: 0 <= p < |w| && Shown(w[p], from, lo, hi) && !Handled(w[p], s.table, from, replies) ==>
      && s.offset <= Rank(w, p, t, lo, hi)
      && (s.last.Some? ==> Precedes(w, s.last.value, p))
  }

  ghost predicate Precedes(w: seq<Row>, r: Row, p: nat) {
    exists q :: 0 <= q < p <= |w| && w[q] == r
  }

  /** Every row of a page is a shown row of the log. */
  lemma {:induction false} PageRows(w: seq<Row>, at: int, lo: int, hi: int, offset: nat, logs: seq<Row>)
    requires logs == PageOf(Visible(w, at, lo, hi), offset)
    ensures forall i :: 0 <= i < |logs| ==> logs[i] in w && Shown(logs[i], at, lo, hi)
  {
    var view := Visible(w, at, lo, hi);
    forall i | 0 <= i < |logs|
      ensures logs[i] in w && Shown(logs[i], at, lo, hi)
    {
      assert logs[i] == view[offset + i];
      var p := VisibleOrigin(w, offset + i, at, lo, hi);
    }
  }

  lemma {:induction false} UpsertRowsEffect(s: Progress, logs: seq<Row>, n: nat, at: int, rejected: set<Id>)
    requires n <= |logs|
    ensures
      var s' := UpsertRows(s, logs, n, at, rejected);
      && s'.offset == s.offset
      && (forall i :: 0 <= i < n && logs[i].id !in rejected ==>
        logs[i].id in s'.table && s'.table[logs[i].id].modified == at)
      && (forall id :: id in s.table ==> id in s'.table)
      && (forall id :: id in s'.table ==>
            || (id in s.table && s'.table[id] == s.table[id])
            || (exists i :: 0 <= i < n && logs[i].id == id && s'.table[id] == Stored(logs[i], at)))
      && (s'.last == s.last || exists i :: 0 <= i < n && s'.last == Some(logs[i]))
  {
    if n > 0 {
      UpsertRowsEffect(s, logs, n - 1, at, rejected);
    }
  }

  /** One page read keeps the loop's invariant. */
  lemma {:induction false} PageKeepsInvariant(
    w: seq<Row>, lo: int, hi: int, replies: seq<Reply>, from: int, t: int, k: nat, s: Progress)
    requires k < |replies| && replies[k].Page? && from <= t <= replies[k].at
    requires NothingSkipped(w, lo, hi, replies, from, t, s)
    ensures NothingSkipped(w, lo, hi, replies, from, replies[k].at, ReadPage(w, lo, hi, replies[k], s))
  {
    var at := replies[k].at;
    var logs := PageOf(Visible(w, at, lo, hi), s.offset);
    var s' := ReadPage(w, lo, hi, replies[k], s);
    UpsertRowsEffect(s, logs, |logs|, at, replies[k].rejected);
    forall p | 0 <= p < |w| && Shown(w[p], from, lo, hi) && !Handled(w[p], s'.table, from, replies)
      ensures s'.offset <= Rank(w, p, at, lo, hi) && (s'.last.Some? ==> Precedes(w, s'.last.value, p))
    {
      RankGrows(w, p, t, at, lo, hi);
      assert s.offset <= Rank(w, p, at, lo, hi);
      StillAhead(w, lo, hi, at, s.offset, logs, p);
      if s'.last.Some? && s'.last != s.last {
        var j :| 0 <= j < |logs| && s'.last == Some(logs[j]);
        PageRowPrecedes(w, lo, hi, at, s.offset, logs, j, p);
      }
    }
  }

  /** A row at or past the offset is on the page, or past it. */
  lemma {:induction false} StillAhead(w: seq<Row>, lo: int, hi: int, at: int, offset: nat, logs: seq<Row>, p: nat)
    requires p < |w| && Shown(w[p], at, lo, hi) && logs == PageOf(Visible(w, at, lo, hi), offset)
    requires offset <= Rank(w, p, at, lo, hi)
    ensures offset + |logs| <= Rank(w, p, at, lo, hi) || exists i :: 0 <= i < |logs| && logs[i] == w[p]
  {
    RankOfShown(w, p, at, lo, hi);
    var i := Rank(w, p, at, lo, hi) - offset;
    if i < |logs| {
      assert logs[i] == w[p];
    }
  }

  lemma {:induction false} PageRowPrecedes(
    w: seq<Row>, lo: int, hi: int, at: int, offset: nat, logs: seq<Row>, j: nat, p: nat)
    requires p < |w| && logs == PageOf(Visible(w, at, lo, hi), offset) && j < |logs|
    requires offset + |logs| <= Rank(w, p, at, lo, hi)
    ensures Precedes(w, logs[j], p)
  {
    var q := VisibleOrigin(w, offset + j, at, lo, hi);
    if p <= q {
      RankMonotone(w, p, q, at, lo, hi);
    }
    assert w[q] == logs[j];
  }

  /** What a pull promises about the rows that were visible when it began. */
  ghost predicate SkipsNothing(w: seq<Row>, lo: int, hi: int, replies: seq<Reply>, from: int, r: Pull) {
    r.Pulled? ==> forall p ::
      && 0 <= p < |w| && Shown(w[p], from, lo, hi)
      && (r.drained || (r.last.Some? && !Precedes(w, r.last.value, p)))
      ==> Handled(w[p], r.table, from, replies)
  }

  lemma {:induction false} PullFromSkipsNothing(
    w: seq<Row>, lo: int, hi: int, replies: seq<Reply>, from: int, to: int, k: nat, t: int, s: Progress)
    requires k <= MAX_PAGES && Timed(replies, from, to) && from <= t
    requires forall i :: k <= i < |replies| && replies[i].Page? ==> t <= replies[i].at
    requires NothingSkipped(w, lo, hi, replies, from, t, s)
    ensures SkipsNothing(w, lo, hi, replies, from, PullFrom(w, lo, hi, replies, k, s))
    decreases MAX_PAGES - k
  {
    if k < MAX_PAGES && k < |replies| && replies[k].Page? {
      var at := replies[k].at;
      var view := Visible(w, at, lo, hi);
      PageKeepsInvariant(w, lo, hi, replies, from, t, k, s);
      var s' := ReadPage(w, lo, hi, replies[k], s);
      forall p | 0 <= p < |w| && Shown(w[p], from, lo, hi)
        ensures Rank(w, p, at, lo, hi) < |view|
      {
        RankOfShown(w, p, at, lo, hi);
      }
      if PageOf(view, s.offset) != [] && s'.offset < |view| {
        PullFromSkipsNothing(w, lo, hi, replies, from, to, k + 1, at, s');
      }
    }
  }

  /** Offset paging over a growing log skips nothing. */
  lemma {:induction false} PullSkipsNothing(
    w: seq<Row>, lo: int, hi: int, replies: seq<Reply>, from: int, to: int, table: Table)
    requires Timed(replies, from, to)
    ensures SkipsNothing(w, lo, hi, replies, from, PullWindow(w, lo, hi, replies, table))
  {
    PullFromSkipsNothing(w, lo, hi, replies, from, to, 0, from, Progress(table, 0, 0, None));
  }

  // ---------------------------------------------------------------------------
  // Status of stored rows
  // ---------------------------------------------------------------------------

  /** Entry `e` is what a read of row `r` at `e.modified` saw. */
  ghost predicate ReadOf(e: Entry, r: Row) {
    e == Stored(r, e.modified) && r.visibleAt <= e.modified
  }

  /** Every stored entry is what one earlier read of its remote row saw. */
  ghost predicate Faithful(w: seq<Row>, table: Table, now: int) {
    forall id :: id in table ==>
      table[id].modified <= now && exists p :: 0 <= p < |w| && w[p].id == id && ReadOf(table[id], w[p])
  }

  /** `after` lost no row, took none back from final to processing, and every
      entry it changed was read at or after `from`. */
  ghost predicate Advances(before: Table, after: Table, from: int) {
    && (forall id :: id in before ==> id in after && after[id].ts == before[id].ts)
    && (forall id :: id in before && before[id].status.Final? ==> after[id].status.Final?)
    && (forall id :: id in after ==> after[id].modified >= from || (id in before && after[id] == before[id]))
  }

  lemma {:induction false} RowOf(w: seq<Row>, table: Table, now: int, id: Id) returns (p: nat)
    requires Faithful(w, table, now) && id in table
    ensures p < |w| && w[p].id == id && ReadOf(table[id], w[p])
  {
    p :| 0 <= p < |w| && w[p].id == id && ReadOf(table[id], w[p]);
  }

  lemma {:induction false} UpsertAdvances(
    w: seq<Row>, s: Progress, logs: seq<Row>, n: nat, t: int, at: int, rejected: set<Id>)
    requires ValidLog(w) && n <= |logs| && t <= at && Faithful(w, s.table, t)
    requires forall i :: 0 <= i < |logs| ==> logs[i] in w && logs[i].visibleAt <= at
    ensures Faithful(w, UpsertRows(s, logs, n, at, rejected).table, at)
    ensures Advances(s.table, UpsertRows(s, logs, n, at, rejected).table, at)
  {
    UpsertRowsEffect(s, logs, n, at, rejected);
    var after := UpsertRows(s, logs, n, at, rejected).table;
    forall id | id in after && !(id in s.table && after[id] == s.table[id])
      ensures exists p :: 0 <= p < |w| && w[p].id == id && ReadOf(after[id], w[p])
      ensures after[id].modified == at
      ensures id in s.table ==>
        after[id].ts == s.table[id].ts && (s.table[id].status.Final? ==> after[id].status.Final?)
    {
      var i :| 0 <= i < n && logs[i].id == id && after[id] == Stored(logs[i], at);
      var p :| 0 <= p < |w| && w[p] == logs[i];
      assert ReadOf(after[id], w[p]);
      if id in s.table {
        var q := RowOf(w, s.table, t, id);
        assert p == q;
      }
    }
  }

  lemma {:induction false} AdvancesTransitive(a: Table, b: Table, c: Table, from: int)
    requires Advances(a, b, from) && Advances(b, c, from)
    ensures Advances(a, c, from)
  {
  }

  lemma {:induction false} AdvancesEarlier(a: Table, b: Table, from: int, at: int)
    requires Advances(a, b, at) && from <= at
    ensures Advances(a, b, from)
  {
  }

  lemma {:induction false} FaithfulLater(w: seq<Row>, table: Table, t: int, to: int)
    requires Faithful(w, table, t) && t <= to
    ensures Faithful(w, table, to)
  {
  }

  lemma {:induction false} PageAdvances(w: seq<Row>, lo: int, hi: int, page: Reply, t: int, s: Progress)
    requires ValidLog(w) && page.Page? && t <= page.at && Faithful(w, s.table, t)
    ensures Faithful(w, ReadPage(w, lo, hi, page, s).table, page.at)
    ensures Advances(s.table, ReadPage(w, lo, hi, page, s).table, page.at)
  {
    var logs := PageOf(Visible(w, page.at, lo, hi), s.offset);
    PageRows(w, page.at, lo, hi, s.offset, logs);
    UpsertAdvances(w, s, logs, |logs|, t, page.at, page.rejected);
  }

  lemma {:induction false} PageThenRest(w: seq<Row>, a: Table, b: Table, c: Table, from: int, at: int, to: int)
    requires from <= at <= to && Faithful(w, b, at) && Advances(a, b, at)
    requires c == b || (Faithful(w, c, to) && Advances(b, c, from))
    ensures Faithful(w, c, to) && Advances(a, c, from)
  {
    AdvancesEarlier(a, b, from, at);
    if c == b {
      FaithfulLater(w, b, at, to);
    } else {
      AdvancesTransitive(a, b, c, from);
    }
  }

  /** A pull ends with the table it has, or with one more page, or goes on from there. */
  lemma {:induction false} PullOneMore(w: seq<Row>, lo: int, hi: int, replies: seq<Reply>, k: nat, s: Progress)
    requires k <= MAX_PAGES
    ensures
      var table := PullFrom(w, lo, hi, replies, k, s).table;
      || table == s.table
      || (k < MAX_PAGES && k < |replies| && replies[k].Page? &&
          var s' := ReadPage(w, lo, hi, replies[k], s);
          table == s'.table || table == PullFrom(w, lo, hi, replies, k + 1, s').table)
  {
  }

  lemma {:induction false} PullFromAdvances(
    w: seq<Row>, lo: int, hi: int, replies: seq<Reply>, from: int, to: int, k: nat, t: int, s: Progress)
    requires ValidLog(w) && k <= MAX_PAGES && Timed(replies, from, to) && from <= t <= to
    requires forall i :: k <= i < |replies| && replies[i].Page? ==> t <= replies[i].at
    requires Faithful(w, s.table, t)
    ensures Faithful(w, PullFrom(w, lo, hi, replies, k, s).table, to)
    ensures Advances(s.table, PullFrom(w, lo, hi, replies, k, s).table, from)
    decreases MAX_PAGES - k
  {
    var table := PullFrom(w, lo, hi, replies, k, s).table;
    PullOneMore(w, lo, hi, replies, k, s);
    if table == s.table {
      FaithfulLater(w, s.table, t, to);
    } else {
      var at := replies[k].at;
      var s' := ReadPage(w, lo, hi, replies[k], s);
      PageAdvances(w, lo, hi, replies[k], t, s);
      if table != s'.table {
        PullFromAdvances(w, lo, hi, replies, from, to, k + 1, at, s');
      }
      PageThenRest(w, s.table, s'.table, table, from, at, to);
    }
  }

  // ---------------------------------------------------------------------------
  // One sync cycle and whole runs
  // ---------------------------------------------------------------------------

  datatype Store = Store(table: Table, through: Option<int>)

  /** The outside of one cycle: when it starts and what the two pulls meet. */
  datatype Cycle = Cycle(start: int, backfillDays: nat, pull: seq<Reply>, reconcile: seq<Reply>)

  const EMPTY := Store(map[], None)

  /** How far back the very first window reaches: the setting, or the default if it is not set. */
  function BackfillDays(setting: nat): nat {
    if setting == 0 then DEFAULT_BACKFILL_DAYS else setting
  }

  function Checkpoint(s: Store, c: Cycle): int {
    if s.through.Some? then s.through.value else c.start - BackfillDays(c.backfillDays) * DAY
  }

  function WindowStart(s: Store, c: Cycle): int {
    Checkpoint(s, c) - OVERLAP
  }

  predicate Open(e: Entry, start: int) {
    e.status.Processing? && start - PROCESSING_MAX_AGE < e.ts < start - PROCESSING_MIN_AGE
  }

  /** `oldest` is the least timestamp of the stored rows still open, if there are any. */
  ghost predicate IsOldestOpen(table: Table, start: int, oldest: Option<int>) {
    && (forall id :: id in table && Open(table[id], start) ==> oldest.Some? && oldest.value <= table[id].ts)
    && (oldest.Some? ==> exists id :: id in table && Open(table[id], start) && table[id].ts == oldest.value)
  }

  /** The same among some of the rows. */
  ghost predicate IsOldestAmong(table: Table, ids: set<Id>, start: int, oldest: Option<int>) {
    && ids <= table.Keys
    && (forall id :: id in ids && Open(table[id], start) ==> oldest.Some? && oldest.value <= table[id].ts)
    && (oldest.Some? ==> exists id :: id in ids && Open(table[id], start) && table[id].ts == oldest.value)
  }

  lemma {:induction false} OldestOneMore(table: Table, ids: set<Id>, start: int, oldest: Option<int>, id: Id)
    requires IsOldestAmong(table, ids, start, oldest) && id in table
    ensures
      var next :=
        if Open(table[id], start) && (oldest.None? || table[id].ts < oldest.value) then Some(table[id].ts) else oldest;
      IsOldestAmong(table, ids + {id}, start, next)
  {
    if Open(table[id], start) && (oldest.None? || table[id].ts < oldest.value) {
      assert id in ids + {id} && Open(table[id], start);
    } else if oldest.Some? {
      var k :| k in ids && Open(table[k], start) && table[k].ts == oldest.value;
      assert k in ids + {id};
    }
  }

  lemma {:induction false} OldestOpenExists(table: Table, start: int) returns (oldest: Option<int>)
    ensures IsOldestOpen(table, start, oldest)
    decreases |table|
  {
    if table.Keys == {} {
      oldest := None;
    } else {
      var id :| id in table.Keys;
      var rest := table - {id};
      assert table == rest[id := table[id]];
      oldest := OldestOpenExists(rest, start);
      if Open(table[id], start) && (oldest.None? || table[id].ts < oldest.value) {
        oldest := Some(table[id].ts);
      } else if oldest.Some? {
        var k :| k in rest && Open(rest[k], start) && rest[k].ts == oldest.value;
        assert table[k] == rest[k];
      }
    }
  }

  ghost function OldestOpen(table: Table, start: int): (oldest: Option<int>)
    ensures IsOldestOpen(table, start, oldest)
  {
    assert exists o :: IsOldestOpen(table, start, o) by {
      var o := OldestOpenExists(table, start);
    }
    var o :| IsOldestOpen(table, start, o);
    o
  }

  /** Re-pull from the oldest open row, if there is one. */
  ghost function Reconcile(w: seq<Row>, start: int, replies: seq<Reply>, table: Table): Pull {
    var oldest := OldestOpen(table, start);
    if oldest.None? then Pulled(table, 0, None, true) else PullWindow(w, oldest.value, start, replies, table)
  }

  /** The pull of a cycle's own window, before the reconcile pull. */
  function MainPull(w: seq<Row>, s: Store, c: Cycle): Pull {
    PullWindow(w, WindowStart(s, c), c.start, c.pull, s.table)
  }

  /** Neither pull of the cycle met an API error, so it gets to store its checkpoint. */
  ghost predicate Finishes(w: seq<Row>, s: Store, c: Cycle) {
    MainPull(w, s, c).Pulled? && Reconcile(w, c.start, c.reconcile, MainPull(w, s, c).table).Pulled?
  }

  /** An API error in either pull keeps the checkpoint; the pages read so far stay. */
  ghost function RunCycle(w: seq<Row>, s: Store, c: Cycle): Store {
    var pull := MainPull(w, s, c);
    if pull.Raised? then Store(pull.table, s.through)
    else
      var rec := Reconcile(w, c.start, c.reconcile, pull.table);
      Store(rec.table, if rec.Raised? then s.through else Some(SafeThrough(pull, c.start, Checkpoint(s, c))))
  }

  ghost function Run(w: seq<Row>, s: Store, cs: seq<Cycle>): Store
    decreases |cs|
  {
    if cs == [] then s else Run(w, RunCycle(w, s, cs[0]), cs[1..])
  }

  /** Both pulls of a cycle happen in order, after its start. */
  ghost predicate CycleTimed(c: Cycle, mid: int, end: int) {
    Timed(c.pull, c.start, mid) && Timed(c.reconcile, mid, end)
  }

  ghost predicate SomeTiming(c: Cycle) {
    exists mid, end :: CycleTimed(c, mid, end)
  }

  ghost predicate EverRejected(id: Id, cs: seq<Cycle>) {
    exists i :: 0 <= i < |cs| && RejectedIn(id, cs[i].pull)
  }

  /** Every row from `origin` to the overlap before the checkpoint is stored. */
  ghost predicate Covered(w: seq<Row>, s: Store, origin: int, excused: iset<Id>) {
    s.through.Some? ==>
      forall p :: 0 <= p < |w| && origin <= w[p].ts < s.through.value - OVERLAP ==>
        w[p].id in s.table || w[p].id in excused
  }

  /** The window start of the first cycle that gets to store a checkpoint. */
  ghost function FirstWindowStart(w: seq<Row>, s: Store, cs: seq<Cycle>): int
    decreases |cs|
  {
    if cs == [] then 0 else
    var s' := RunCycle(w, s, cs[0]);
    if s'.through.Some? then WindowStart(s, cs[0]) else FirstWindowStart(w, s', cs[1..])
  }

  /** Nothing a pull does takes a stored row away. */
  lemma {:induction false} PullKeepsRows(w: seq<Row>, lo: int, hi: int, replies: seq<Reply>, k: nat, s: Progress)
    requires k <= MAX_PAGES
    ensures forall id :: id in s.table ==> id in PullFrom(w, lo, hi, replies, k, s).table
    decreases MAX_PAGES - k
  {
    if k < MAX_PAGES && k < |replies| && replies[k].Page? {
      var logs := PageOf(Visible(w, replies[k].at, lo, hi), s.offset);
      UpsertRowsEffect(s, logs, |logs|, replies[k].at, replies[k].rejected);
      PullKeepsRows(w, lo, hi, replies, k + 1, ReadPage(w, lo, hi, replies[k], s));
    }
  }

  lemma {:induction false} ReconcileKeepsRows(w: seq<Row>, start: int, replies: seq<Reply>, table: Table)
    ensures forall id :: id in table ==> id in Reconcile(w, start, replies, table).table
  {
    var oldest := OldestOpen(table, start);
    if oldest.Some? {
      PullKeepsRows(w, oldest.value, start, replies, 0, Progress(table, 0, 0, None));
    }
  }

  /** The last row stored, if any, lies in the window asked for. */
  ghost predicate LastIn(last: Option<Row>, lo: int, hi: int) {
    last.Some? ==> lo <= last.value.ts < hi
  }

  lemma {:induction false} PageLastIn(w: seq<Row>, lo: int, hi: int, page: Reply, s: Progress)
    requires page.Page? && LastIn(s.last, lo, hi)
    ensures LastIn(ReadPage(w, lo, hi, page, s).last, lo, hi)
  {
    var logs := PageOf(Visible(w, page.at, lo, hi), s.offset);
    UpsertRowsEffect(s, logs, |logs|, page.at, page.rejected);
    PageRows(w, page.at, lo, hi, s.offset, logs);
  }

  lemma {:induction false} LastSeenBeforeEnd(w: seq<Row>, lo: int, hi: int, replies: seq<Reply>, k: nat, s: Progress)
    requires k <= MAX_PAGES && LastIn(s.last, lo, hi)
    ensures
      var r := PullFrom(w, lo, hi, replies, k, s);
      r.Pulled? ==> LastIn(r.last, lo, hi)
    decreases MAX_PAGES - k
  {
    if k < MAX_PAGES && k < |replies| && replies[k].Page? {
      PageLastIn(w, lo, hi, replies[k], s);
      LastSeenBeforeEnd(w, lo, hi, replies, k + 1, ReadPage(w, lo, hi, replies[k], s));
    }
  }

  /** How far a pull makes it safe to move the checkpoint. */
  function SafeThrough(r: Pull, start: int, checkpoint: int): int
    requires r.Pulled?
  {
    if r.drained then start else if r.last.Some? then r.last.value.ts else checkpoint
  }

  /** Up to the overlap before its safe point a pull has handled every row of its window. */
  lemma {:induction false} PullReachesSafePoint(
    w: seq<Row>, lo: int, start: int, replies: seq<Reply>, mid: int, table: Table, p: nat)
    requires ValidLog(w) && Prompt(w) && Timed(replies, start, mid)
    requires p < |w| && lo <= w[p].ts
    ensures
      var r := PullWindow(w, lo, start, replies, table);
      r.Pulled? && w[p].ts < SafeThrough(r, start, lo + OVERLAP) - OVERLAP ==> Handled(w[p], r.table, start, replies)
  {
    var r := PullWindow(w, lo, start, replies, table);
    if r.Pulled? && w[p].ts < SafeThrough(r, start, lo + OVERLAP) - OVERLAP {
      PullSkipsNothing(w, lo, start, replies, start, mid, table);
      LastSeenBeforeEnd(w, lo, start, replies, 0, Progress(table, 0, 0, None));
      assert Shown(w[p], start, lo, start);
      if !r.drained {
        assert !Precedes(w, r.last.value, p);
      }
    }
  }

  /** A cycle keeps every stored row, and either keeps the checkpoint or moves it to the pull's safe point. */
  lemma {:induction false} CycleShape(w: seq<Row>, s: Store, c: Cycle, pull: Pull)
    requires pull == PullWindow(w, WindowStart(s, c), c.start, c.pull, s.table)
    ensures forall id :: id in s.table || id in pull.table ==> id in RunCycle(w, s, c).table
    ensures
      || RunCycle(w, s, c).through == s.through
      || (pull.Pulled? && RunCycle(w, s, c).through == Some(SafeThrough(pull, c.start, Checkpoint(s, c))))
  {
    PullKeepsRows(w, WindowStart(s, c), c.start, c.pull, 0, Progress(s.table, 0, 0, None));
    ReconcileKeepsRows(w, c.start, c.reconcile, pull.table);
  }

  /** One cycle moves the checkpoint only as far as the table is complete. */
  lemma {:induction false} CycleCovers(w: seq<Row>, s: Store, c: Cycle, origin: int, excused: iset<Id>)
    requires ValidLog(w) && Prompt(w) && SomeTiming(c)
    requires Covered(w, s, origin, excused)
    requires s.through.None? ==> origin == WindowStart(s, c)
    requires forall id :: RejectedIn(id, c.pull) ==> id in excused
    ensures Covered(w, RunCycle(w, s, c), origin, excused)
  {
    var lo := WindowStart(s, c);
    var mid, end :| CycleTimed(c, mid, end);
    var pull := PullWindow(w, lo, c.start, c.pull, s.table);
    CycleShape(w, s, c, pull);
    var s' := RunCycle(w, s, c);
    if s'.through != s.through {
      forall p | 0 <= p < |w| && lo <= w[p].ts < s'.through.value - OVERLAP
        ensures w[p].id in s'.table || w[p].id in excused
      {
        PullReachesSafePoint(w, lo, c.start, c.pull, mid, s.table, p);
      }
    }
  }

  lemma {:induction false} RunCovers(w: seq<Row>, s: Store, cs: seq<Cycle>, origin: int, excused: iset<Id>)
    requires ValidLog(w) && Prompt(w) && (forall i :: 0 <= i < |cs| ==> SomeTiming(cs[i]))
    requires forall id :: EverRejected(id, cs) ==> id in excused
    requires Covered(w, s, origin, excused)
    requires s.through.None? ==> origin == FirstWindowStart(w, s, cs)
    ensures Covered(w, Run(w, s, cs), origin, excused)
    decreases |cs|
  {
    if cs != [] {
      var s' := RunCycle(w, s, cs[0]);
      assert SomeTiming(cs[0]);
      forall id | RejectedIn(id, cs[0].pull)
        ensures id in excused
      {
        assert EverRejected(id, cs);
      }
      forall id | EverRejected(id, cs[1..])
        ensures id in excused
      {
        var i :| 0 <= i < |cs[1..]| && RejectedIn(id, cs[1..][i].pull);
        assert RejectedIn(id, cs[i + 1].pull);
      }
      if s'.through.Some? {
        CycleCovers(w, s, cs[0], origin, excused);
      }
      RunCovers(w, s', cs[1..], origin, excused);
    }
  }

  /** Whole-run completeness: after any run of drained, page-capped and failed
      cycles, every row between the first window start and the overlap before the
      checkpoint is stored, unless its own upsert raised. */
  lemma {:induction false} RunIsComplete(w: seq<Row>, cs: seq<Cycle>)
    requires ValidLog(w) && Prompt(w) && (forall i :: 0 <= i < |cs| ==> SomeTiming(cs[i]))
    ensures
      var s := Run(w, EMPTY, cs);
      s.through.Some? ==> forall p ::
        0 <= p < |w| && FirstWindowStart(w, EMPTY, cs) <= w[p].ts < s.through.value - OVERLAP ==>
        w[p].id in s.table || EverRejected(w[p].id, cs)
  {
    RunCovers(w, EMPTY, cs, FirstWindowStart(w, EMPTY, cs), iset id | EverRejected(id, cs));
  }

  /** The window start that counts is that of the first cycle to finish: when the
      very first cycle fails, the next one backfills from a later instant and a row
      just past the first cycle's window start is never fetched. */
  lemma {:induction false} FailedFirstCycleMovesTheOrigin()
    ensures
      var w := [Row("r", 0, 0, None)];
      var first := Cycle(DAY + OVERLAP, 1, [ApiError], []);
      var second := Cycle(3 * DAY, 1, [Page(3 * DAY, {})], []);
      && ValidLog(w) && Prompt(w) && SomeTiming(first) && SomeTiming(second)
      && WindowStart(EMPTY, first) == 0
      && Run(w, EMPTY, [first, second]) == Store(map[], Some(3 * DAY))
  {
    var w := [Row("r", 0, 0, None)];
    var first := Cycle(DAY + OVERLAP, 1, [ApiError], []);
    var second := Cycle(3 * DAY, 1, [Page(3 * DAY, {})], []);
    assert CycleTimed(first, first.start, first.start);
    assert CycleTimed(second, second.start, second.start);
    var s1 := RunCycle(w, EMPTY, first);
    assert s1 == EMPTY;
    assert w[..0] == [];
    assert Visible(w, 3 * DAY, WindowStart(s1, second), 3 * DAY) == [];
    assert PullWindow(w, WindowStart(s1, second), second.start, second.pull, map[]) == Pulled(map[], 0, None, true);
    assert RunCycle(w, s1, second) == Store(map[], Some(3 * DAY));
    assert [first, second][1..] == [second];
    assert [second][1..] == [];
    assert Run(w, s1, [second]) == RunCycle(w, s1, second);
  }

  /** The other way round: when the cycles before the first to finish stored nothing, and
      no pull from that one on is capped, no row before its window start is ever stored. */
  lemma {:induction false} NothingBeforeTheOrigin(w: seq<Row>, failed: seq<Cycle>, cs: seq<Cycle>)
    requires Run(w, EMPTY, failed) == EMPTY
    requires cs != [] && Finishes(w, EMPTY, cs[0]) && NeverCapped(w, EMPTY, cs)
    requires forall i :: 0 <= i < |cs| ==> cs[0].start <= cs[i].start
    ensures
      var days := if cs[0].backfillDays == 0 then 30 else cs[0].backfillDays;
      var origin := cs[0].start - days * DAY - 5 * MINUTE;
      FirstWindowStart(w, EMPTY, failed + cs) == origin && NoneBefore(Run(w, EMPTY, failed + cs).table, origin)
  {
    RunSplits(w, EMPTY, failed, cs);
    FirstSkips(w, EMPTY, failed, cs);
    FromTheFirst(w, cs);
  }

  lemma {:induction false} FromTheFirst(w: seq<Row>, cs: seq<Cycle>)
    requires cs != [] && Finishes(w, EMPTY, cs[0]) && NeverCapped(w, EMPTY, cs)
    requires forall i :: 0 <= i < |cs| ==> cs[0].start <= cs[i].start
    ensures FirstWindowStart(w, EMPTY, cs) == WindowStart(EMPTY, cs[0])
    ensures Past(Run(w, EMPTY, cs), WindowStart(EMPTY, cs[0]))
  {
    var origin := WindowStart(EMPTY, cs[0]);
    FinishStores(w, EMPTY, cs[0]);
    CycleStaysPast(w, EMPTY, cs[0], origin);
    StaysPast(w, RunCycle(w, EMPTY, cs[0]), cs[1..], origin);
  }

  /** No pull of a cycle's own window stops at the page cap. */
  ghost predicate NeverCapped(w: seq<Row>, s: Store, cs: seq<Cycle>)
    decreases |cs|
  {
    cs != [] ==>
      && (MainPull(w, s, cs[0]).Pulled? ==> MainPull(w, s, cs[0]).drained)
      && NeverCapped(w, RunCycle(w, s, cs[0]), cs[1..])
  }

  ghost predicate NoneBefore(table: Table, origin: int) {
    forall id :: id in table ==> table[id].ts >= origin
  }

  /** Nothing stored lies before `origin`, and no later window reaches back to it. */
  ghost predicate Past(s: Store, origin: int) {
    NoneBefore(s.table, origin) && (s.through.Some? ==> s.through.value - OVERLAP >= origin)
  }

  lemma {:induction false} RunSplits(w: seq<Row>, s: Store, a: seq<Cycle>, b: seq<Cycle>)
    ensures Run(w, s, a + b) == Run(w, Run(w, s, a), b)
    decreases |a|
  {
    if a == [] {
      assert a + b == b;
    } else {
      assert (a + b)[1..] == a[1..] + b;
      RunSplits(w, RunCycle(w, s, a[0]), a[1..], b);
    }
  }

  lemma {:induction false} FinishStores(w: seq<Row>, s: Store, c: Cycle)
    ensures
      var s' := RunCycle(w, s, c);
      if Finishes(w, s, c) then s'.through == Some(SafeThrough(MainPull(w, s, c), c.start, Checkpoint(s, c)))
      else s'.through == s.through
  {
  }

  /** A checkpoint, once stored, is never lost. */
  lemma {:induction false} CheckpointStays(w: seq<Row>, s: Store, cs: seq<Cycle>)
    requires s.through.Some?
    ensures Run(w, s, cs).through.Some?
    decreases |cs|
  {
    if cs != [] {
      FinishStores(w, s, cs[0]);
      CheckpointStays(w, RunCycle(w, s, cs[0]), cs[1..]);
    }
  }

  /** Cycles that store no checkpoint do not count for the first window. */
  lemma {:induction false} FirstSkips(w: seq<Row>, s: Store, failed: seq<Cycle>, cs: seq<Cycle>)
    requires Run(w, s, failed).through.None?
    ensures FirstWindowStart(w, s, failed + cs) == FirstWindowStart(w, Run(w, s, failed), cs)
    decreases |failed|
  {
    if failed == [] {
      assert failed + cs == cs;
    } else {
      var s', more := RunCycle(w, s, failed[0]), failed[1..];
      if s'.through.Some? {
        CheckpointStays(w, s', more);
      }
      FirstSkips(w, s', more, cs);
      assert (failed + cs)[0] == failed[0] && (failed + cs)[1..] == more + cs;
    }
  }

  lemma {:induction false} PageStaysPast(w: seq<Row>, lo: int, hi: int, page: Reply, s: Progress, origin: int)
    requires page.Page? && origin <= lo && NoneBefore(s.table, origin)
    ensures NoneBefore(ReadPage(w, lo, hi, page, s).table, origin)
  {
    var logs := PageOf(Visible(w, page.at, lo, hi), s.offset);
    UpsertRowsEffect(s, logs, |logs|, page.at, page.rejected);
    PageRows(w, page.at, lo, hi, s.offset, logs);
  }

  lemma {:induction false} PullStaysPast(
    w: seq<Row>, lo: int, hi: int, replies: seq<Reply>, k: nat, s: Progress, origin: int)
    requires k <= MAX_PAGES && origin <= lo && NoneBefore(s.table, origin)
    ensures NoneBefore(PullFrom(w, lo, hi, replies, k, s).table, origin)
    decreases MAX_PAGES - k
  {
    var table := PullFrom(w, lo, hi, replies, k, s).table;
    PullOneMore(w, lo, hi, replies, k, s);
    if table != s.table {
      var s' := ReadPage(w, lo, hi, replies[k], s);
      PageStaysPast(w, lo, hi, replies[k], s, origin);
      if table != s'.table {
        PullStaysPast(w, lo, hi, replies, k + 1, s', origin);
      }
    }
  }

  lemma {:induction false} ReconcileStaysPast(w: seq<Row>, start: int, replies: seq<Reply>, table: Table, origin: int)
    requires NoneBefore(table, origin)
    ensures NoneBefore(Reconcile(w, start, replies, table).table, origin)
  {
    var oldest := OldestOpen(table, start);
    if oldest.Some? {
      var id :| id in table && Open(table[id], start) && table[id].ts == oldest.value;
      PullStaysPast(w, oldest.value, start, replies, 0, Progress(table, 0, 0, None), origin);
    }
  }

  lemma {:induction false} CycleStaysPast(w: seq<Row>, s: Store, c: Cycle, origin: int)
    requires Past(s, origin) && WindowStart(s, c) >= origin && c.start - OVERLAP >= origin
    requires MainPull(w, s, c).Pulled? ==> MainPull(w, s, c).drained
    ensures Past(RunCycle(w, s, c), origin)
  {
    var pull := MainPull(w, s, c);
    PullStaysPast(w, WindowStart(s, c), c.start, c.pull, 0, Progress(s.table, 0, 0, None), origin);
    assert NoneBefore(pull.table, origin);
    ReconcileStaysPast(w, c.start, c.reconcile, pull.table, origin);
    FinishStores(w, s, c);
  }

  lemma {:induction false} StaysPast(w: seq<Row>, s: Store, cs: seq<Cycle>, origin: int)
    requires s.through.Some? && Past(s, origin) && NeverCapped(w, s, cs)
    requires forall i :: 0 <= i < |cs| ==> cs[i].start - OVERLAP >= origin
    ensures Past(Run(w, s, cs), origin)
    decreases |cs|
  {
    if cs != [] {
      CycleStaysPast(w, s, cs[0], origin);
      StaysPast(w, RunCycle(w, s, cs[0]), cs[1..], origin);
    }
  }

  // ---------------------------------------------------------------------------
  // Which way the checkpoint moves
  // ---------------------------------------------------------------------------

  /** A cycle moves a stored checkpoint back exactly when it finishes, stops at the page cap
      and the last row it stored is older than that checkpoint (or, drained, started before
      it); a capped cycle moves it back by at most the overlap. */
  lemma {:induction false} CheckpointMovesBackIff(w: seq<Row>, s: Store, c: Cycle)
    requires s.through.Some?
    ensures
      var (pull, was, now) := (MainPull(w, s, c), s.through.value, RunCycle(w, s, c).through);
      && now.Some?
      && (now.value < was <==>
          && Finishes(w, s, c)
          && if pull.drained then c.start < was else pull.last.Some? && pull.last.value.ts < was)
      && (now.value < was && !pull.drained ==> was - OVERLAP <= now.value)
  {
    FinishStores(w, s, c);
    LastSeenBeforeEnd(w, WindowStart(s, c), c.start, c.pull, 0, Progress(s.table, 0, 0, None));
  }

  /** No checkpoint is ahead of the cycles so far. */
  lemma {:induction false} CheckpointNotAhead(w: seq<Row>, s: Store, cs: seq<Cycle>, bound: int)
    requires s.through.Some? ==> s.through.value <= bound
    requires forall i :: 0 <= i < |cs| ==> cs[i].start <= bound
    ensures Run(w, s, cs).through.Some? ==> Run(w, s, cs).through.value <= bound
    decreases |cs|
  {
    if cs != [] {
      var c := cs[0];
      FinishStores(w, s, c);
      LastSeenBeforeEnd(w, WindowStart(s, c), c.start, c.pull, 0, Progress(s.table, 0, 0, None));
      CheckpointNotAhead(w, RunCycle(w, s, c), cs[1..], bound);
    }
  }

  /** So after any earlier cycles, one that drains never moves the checkpoint back. */
  lemma {:induction false} DrainedCycleAdvances(w: seq<Row>, cs: seq<Cycle>, c: Cycle)
    requires forall i :: 0 <= i < |cs| ==> cs[i].start <= c.start
    ensures
      var s := Run(w, EMPTY, cs);
      Finishes(w, s, c) && MainPull(w, s, c).drained ==>
        && RunCycle(w, s, c).through == Some(c.start)
        && (s.through.Some? ==> s.through.value <= c.start)
  {
    CheckpointNotAhead(w, EMPTY, cs, c.start);
    FinishStores(w, Run(w, EMPTY, cs), c);
  }

  // ---------------------------------------------------------------------------
  // What a pull stores, and that the checkpoint gets on
  // ---------------------------------------------------------------------------

  /** The rows of a page whose upsert does not raise, in order. */
  function Kept(logs: seq<Row>, rejected: set<Id>): seq<Row> {
    if logs == [] then []
    else
      var front := Kept(logs[..|logs| - 1], rejected);
      if logs[|logs| - 1].id in rejected then front else front + [logs[|logs| - 1]]
  }

  /** All rows the pages from `k` on store, in the order they are stored. */
  function RowsStored(w: seq<Row>, lo: int, hi: int, replies: seq<Reply>, k: nat, offset: nat): seq<Row>
    requires k <= MAX_PAGES
    decreases MAX_PAGES - k
  {
    if k == MAX_PAGES || k >= |replies| || replies[k].ApiError? then []
    else
      var view := Visible(w, replies[k].at, lo, hi);
      var logs := PageOf(view, offset);
      if offset + |logs| >= |view| then Kept(logs, replies[k].rejected)
      else Kept(logs, replies[k].rejected) + RowsStored(w, lo, hi, replies, k + 1, offset + |logs|)
  }

  /** The last of some rows, or what it was before if there is none. */
  ghost function LastOf(rows: seq<Row>, before: Option<Row>): Option<Row> {
    if rows == [] then before else Some(rows[|rows| - 1])
  }

  lemma {:induction false} UpsertCounts(s: Progress, logs: seq<Row>, n: nat, at: int, rejected: set<Id>)
    requires n <= |logs|
    ensures
      var (s', kept) := (UpsertRows(s, logs, n, at, rejected), Kept(logs[..n], rejected));
      s'.synced == s.synced + |kept| && s'.last == LastOf(kept, s.last)
  {
    if n > 0 {
      UpsertCounts(s, logs, n - 1, at, rejected);
      assert logs[..n][..n - 1] == logs[..n - 1];
    }
  }

  lemma {:induction false} PageCounts(w: seq<Row>, lo: int, hi: int, page: Reply, s: Progress)
    requires page.Page?
    ensures
      var logs := PageOf(Visible(w, page.at, lo, hi), s.offset);
      var (s', kept) := (ReadPage(w, lo, hi, page, s), Kept(logs, page.rejected));
      s'.synced == s.synced + |kept| && s'.last == LastOf(kept, s.last)
  {
    var logs := PageOf(Visible(w, page.at, lo, hi), s.offset);
    assert logs[..|logs|] == logs;
    UpsertCounts(s, logs, |logs|, page.at, page.rejected);
  }

  lemma {:induction false} LastOfConcat(a: seq<Row>, b: seq<Row>, before: Option<Row>)
    ensures LastOf(a + b, before) == LastOf(b, LastOf(a, before))
  {
  }

  /** After a page the pull is over if the page reached the end of the view, and goes on if not. */
  lemma {:induction false} PullGoesOn(w: seq<Row>, lo: int, hi: int, replies: seq<Reply>, k: nat, s: Progress)
    requires k < MAX_PAGES && k < |replies| && replies[k].Page?
    ensures
      var s' := ReadPage(w, lo, hi, replies[k], s);
      PullFrom(w, lo, hi, replies, k, s) ==
        if s'.offset >= |Visible(w, replies[k].at, lo, hi)| then Pulled(s'.table, s'.synced, s'.last, true)
        else PullFrom(w, lo, hi, replies, k + 1, s')
  {
  }

  lemma {:induction false} RowsGoOn(w: seq<Row>, lo: int, hi: int, replies: seq<Reply>, k: nat, offset: nat)
    requires k < MAX_PAGES && k < |replies| && replies[k].Page?
    ensures
      var view := Visible(w, replies[k].at, lo, hi);
      var logs := PageOf(view, offset);
      RowsStored(w, lo, hi, replies, k, offset) ==
        Kept(logs, replies[k].rejected) +
        if offset + |logs| >= |view| then [] else RowsStored(w, lo, hi, replies, k + 1, offset + |logs|)
  {
  }

  /** The pull counted these rows, on top of what it had. */
  ghost predicate Counted(r: Pull, s: Progress, rows: seq<Row>) {
    r.Pulled? ==> r.synced == s.synced + |rows| && r.last == LastOf(rows, s.last)
  }

  lemma {:induction false} CountedOnTop(r: Pull, s: Progress, s': Progress, kept: seq<Row>, rest: seq<Row>)
    requires Counted(r, s', rest) && s'.synced == s.synced + |kept| && s'.last == LastOf(kept, s.last)
    ensures Counted(r, s, kept + rest)
  {
    LastOfConcat(kept, rest, s.last);
  }

  /** A pull counts every row it stores, once per upsert, and its last row is the last it stored. */
  lemma {:induction false} PullCounts(w: seq<Row>, lo: int, hi: int, replies: seq<Reply>, k: nat, s: Progress)
    requires k <= MAX_PAGES
    ensures Counted(PullFrom(w, lo, hi, replies, k, s), s, RowsStored(w, lo, hi, replies, k, s.offset))
    decreases MAX_PAGES - k
  {
    if k < MAX_PAGES && k < |replies| && replies[k].Page? {
      var view := Visible(w, replies[k].at, lo, hi);
      var kept := Kept(PageOf(view, s.offset), replies[k].rejected);
      var s' := ReadPage(w, lo, hi, replies[k], s);
      PullGoesOn(w, lo, hi, replies, k, s);
      RowsGoOn(w, lo, hi, replies, k, s.offset);
      PageCounts(w, lo, hi, replies[k], s);
      if s'.offset < |view| {
        PullCounts(w, lo, hi, replies, k + 1, s');
        CountedOnTop(
          PullFrom(w, lo, hi, replies, k + 1, s'), s, s', kept, RowsStored(w, lo, hi, replies, k + 1, s'.offset));
      } else {
        CountedOnTop(Pulled(s'.table, s'.synced, s'.last, true), s, s', kept, []);
      }
    }
  }

  /** The rows the pull of a cycle's own window stores. */
  ghost function CycleRows(w: seq<Row>, s: Store, c: Cycle): seq<Row> {
    RowsStored(w, WindowStart(s, c), c.start, c.pull, 0, 0)
  }

  /** Where every cycle leaves the checkpoint: unmoved if it does not finish; at its start if it drained
      its window; else at the timestamp of the last row it stored, be that later or earlier than before. */
  lemma {:induction false} CheckpointMeans(w: seq<Row>, s: Store, c: Cycle)
    ensures
      RunCycle(w, s, c).through ==
        if !Finishes(w, s, c) then s.through
        else if MainPull(w, s, c).drained then Some(c.start)
        else if CycleRows(w, s, c) == [] then Some(Checkpoint(s, c))
        else Some(CycleRows(w, s, c)[|CycleRows(w, s, c)| - 1].ts)
  {
    FinishStores(w, s, c);
    if Finishes(w, s, c) {
      MainPullCounts(w, s, c);
      SafePointMeans(MainPull(w, s, c), s.table, CycleRows(w, s, c), c.start, Checkpoint(s, c));
    }
  }

  lemma {:induction false} SafePointMeans(pull: Pull, table: Table, rows: seq<Row>, start: int, checkpoint: int)
    requires pull.Pulled? && Counted(pull, Progress(table, 0, 0, None), rows)
    ensures SafeThrough(pull, start, checkpoint) ==
      if pull.drained then start else if rows == [] then checkpoint else rows[|rows| - 1].ts
  {
  }

  lemma {:induction false} MainPullCounts(w: seq<Row>, s: Store, c: Cycle)
    ensures Counted(MainPull(w, s, c), Progress(s.table, 0, 0, None), CycleRows(w, s, c))
  {
    PullCounts(w, WindowStart(s, c), c.start, c.pull, 0, Progress(s.table, 0, 0, None));
  }

  // While the log stands still, rows are stored in order, so the last one is the latest.

  /** No row of the window appears after `from`. */
  ghost predicate Still(w: seq<Row>, lo: int, hi: int, from: int, to: int) {
    forall p :: 0 <= p < |w| && lo <= w[p].ts < hi && w[p].visibleAt <= to ==> w[p].visibleAt <= from
  }

  lemma {:induction false} StillView(w: seq<Row>, lo: int, hi: int, from: int, t: int, to: int)
    requires Still(w, lo, hi, from, to) && from <= t <= to
    ensures Visible(w, t, lo, hi) == Visible(w, from, lo, hi)
  {
    if w != [] {
      var front := w[..|w| - 1];
      assert Still(front, lo, hi, from, to) by {
        forall p | 0 <= p < |front| && lo <= front[p].ts < hi && front[p].visibleAt <= to
          ensures front[p].visibleAt <= from
        {
          assert front[p] == w[p];
        }
      }
      StillView(front, lo, hi, from, t, to);
    }
  }

  ghost predicate Ascending(rows: seq<Row>) {
    forall i, j :: 0 <= i <= j < |rows| ==> rows[i].ts <= rows[j].ts
  }

  lemma {:induction false} ViewAscends(w: seq<Row>, t: int, lo: int, hi: int)
    requires ValidLog(w)
    ensures Ascending(Visible(w, t, lo, hi))
  {
    var view := Visible(w, t, lo, hi);
    forall i, j | 0 <= i < j < |view|
      ensures view[i].ts <= view[j].ts
    {
      var p := VisibleOrigin(w, i, t, lo, hi);
      var q := VisibleOrigin(w, j, t, lo, hi);
      if q < p {
        RankMonotone(w, q, p, t, lo, hi);
      }
    }
  }

  lemma {:induction false} KeptAscends(logs: seq<Row>, rejected: set<Id>)
    requires Ascending(logs)
    ensures Ascending(Kept(logs, rejected)) && forall r :: r in Kept(logs, rejected) ==> r in logs
  {
    if logs != [] {
      var front := logs[..|logs| - 1];
      KeptAscends(front, rejected);
      forall r | r in Kept(front, rejected)
        ensures r.ts <= logs[|logs| - 1].ts
      {
        assert r in front;
      }
    }
  }

  /** `rows` ascend, and none lies before anything the view has up to the offset. */
  ghost predicate FollowsOn(rows: seq<Row>, view: seq<Row>, offset: nat) {
    Ascending(rows) && forall i, j :: 0 <= i < |rows| && 0 <= j < |view| && j < offset ==> view[j].ts <= rows[i].ts
  }

  lemma {:induction false} PageFollowsOn(view: seq<Row>, offset: nat, rejected: set<Id>, rest: seq<Row>)
    requires Ascending(view) && FollowsOn(rest, view, offset + |PageOf(view, offset)|)
    ensures FollowsOn(Kept(PageOf(view, offset), rejected) + rest, view, offset)
  {
    var logs := PageOf(view, offset);
    assert forall i :: 0 <= i < |logs| ==> logs[i] == view[offset + i];
    KeptAscends(logs, rejected);
    var kept := Kept(logs, rejected);
    forall i | 0 <= i < |kept|
      ensures exists j :: offset <= j < offset + |logs| && j < |view| && view[j] == kept[i]
    {
      assert kept[i] in logs;
      var k :| 0 <= k < |logs| && logs[k] == kept[i];
      assert view[offset + k] == kept[i];
    }
  }

  lemma {:induction false} StoredAscend(
    w: seq<Row>, lo: int, hi: int, replies: seq<Reply>, from: int, to: int, k: nat, offset: nat, view: seq<Row>)
    requires ValidLog(w) && k <= MAX_PAGES && Timed(replies, from, to) && Still(w, lo, hi, from, to)
    requires view == Visible(w, from, lo, hi)
    ensures FollowsOn(RowsStored(w, lo, hi, replies, k, offset), view, offset)
    decreases MAX_PAGES - k
  {
    ViewAscends(w, from, lo, hi);
    if k < MAX_PAGES && k < |replies| && replies[k].Page? {
      StillView(w, lo, hi, from, replies[k].at, to);
      var (logs, rejected) := (PageOf(view, offset), replies[k].rejected);
      if offset + |logs| < |view| {
        StoredAscend(w, lo, hi, replies, from, to, k + 1, offset + |logs|, view);
        PageFollowsOn(view, offset, rejected, RowsStored(w, lo, hi, replies, k + 1, offset + |logs|));
      } else {
        PageFollowsOn(view, offset, rejected, []);
        assert Kept(logs, rejected) + [] == Kept(logs, rejected);
      }
    }
  }

  /** A finishing capped cycle, while no row appears in its window, leaves the checkpoint at the latest
      row its own pull stored. */
  lemma {:induction false} CappedCheckpointIsLatest(w: seq<Row>, s: Store, c: Cycle, to: int)
    requires ValidLog(w) && Timed(c.pull, c.start, to) && Still(w, WindowStart(s, c), c.start, c.start, to)
    ensures
      var (through, rows) := (RunCycle(w, s, c).through, CycleRows(w, s, c));
      Finishes(w, s, c) && !MainPull(w, s, c).drained && rows != [] ==>
        && through == Some(rows[|rows| - 1].ts)
        && forall i :: 0 <= i < |rows| ==> rows[i].ts <= through.value
  {
    CheckpointMeans(w, s, c);
    var lo := WindowStart(s, c);
    StoredAscend(w, lo, c.start, c.pull, c.start, to, 0, 0, Visible(w, c.start, lo, c.start));
  }

  /** In a log that grows meanwhile the last row can lie before one already stored: exactly when more rows
      appeared before the row last read than the next page holds. */
  lemma {:induction false} PageGoesBackIff(
    w: seq<Row>, lo: int, hi: int, t: int, at: int, offset: nat, p: nat) returns (q: nat)
    requires p < |w| && Shown(w[p], t, lo, hi) && t <= at && Rank(w, p, t, lo, hi) + 1 == offset
    requires PageOf(Visible(w, at, lo, hi), offset) != []
    ensures
      var logs := PageOf(Visible(w, at, lo, hi), offset);
      && q < |w| && w[q] == logs[|logs| - 1]
      && (q < p <==> Rank(w, p, at, lo, hi) - Rank(w, p, t, lo, hi) > |logs|)
  {
    var logs := PageOf(Visible(w, at, lo, hi), offset);
    q := VisibleOrigin(w, offset + |logs| - 1, at, lo, hi);
    if q < p {
      RankOfShown(w, q, at, lo, hi);
      RankMonotone(w, q + 1, p, at, lo, hi);
    } else {
      RankMonotone(w, p, q, at, lo, hi);
    }
  }

  /** A row with that many letters for its id. */
  function Numbered(i: nat, ts: int, visibleAt: int): Row {
    Row(seq(i, _ => 'r'), ts, visibleAt, None)
  }

  /** Rows with ids counted from `first`, all of one timestamp, that appear at one instant. */
  function Batch(first: nat, n: nat, ts: int, visibleAt: int): (rows: seq<Row>)
    ensures |rows| == n && forall i :: 0 <= i < n ==> rows[i] == Numbered(first + i, ts, visibleAt)
  {
    seq(n, i requires 0 <= i < n => Numbered(first + i, ts, visibleAt))
  }

  lemma {:induction false} VisibleConcat(a: seq<Row>, b: seq<Row>, t: int, lo: int, hi: int)
    ensures Visible(a + b, t, lo, hi) == Visible(a, t, lo, hi) + Visible(b, t, lo, hi)
  {
    if b == [] {
      assert a + b == a;
    } else {
      VisibleConcat(a, b[..|b| - 1], t, lo, hi);
      assert (a + b)[..|a + b| - 1] == a + b[..|b| - 1];
    }
  }

  lemma {:induction false} AllOrNoneVisible(a: seq<Row>, t: int, lo: int, hi: int)
    ensures (forall i :: 0 <= i < |a| ==> Shown(a[i], t, lo, hi)) ==> Visible(a, t, lo, hi) == a
    ensures (forall i :: 0 <= i < |a| ==> !Shown(a[i], t, lo, hi)) ==> Visible(a, t, lo, hi) == []
  {
    if a != [] {
      AllOrNoneVisible(a[..|a| - 1], t, lo, hi);
    }
  }

  lemma {:induction false} BatchesAreALog(w: seq<Row>, a: seq<Row>, b: seq<Row>, n: nat, m: nat)
    requires w == a + b && a == Batch(0, n, 0, 2) && b == Batch(n, m, 1, 1)
    ensures ValidLog(w)
  {
    forall i | 0 <= i < |w|
      ensures |w[i].id| == i && w[i].ts == if i < n then 0 else 1
    {
      assert w[i] == if i < n then Numbered(i, 0, 2) else Numbered(n + (i - n), 1, 1);
    }
    forall i, j | 0 <= i < j < |w|
      ensures w[i].ts <= w[j].ts && w[i].id != w[j].id
    {
      assert |w[i].id| != |w[j].id|;
    }
  }

  /** It does happen: two pages of a log in which 1000 old rows appear in between.  The first stores rows of
      timestamp 1, the second only rows of timestamp 0. */
  lemma {:induction false} LastRowCanGoBack(a: seq<Row>, b: seq<Row>, replies: seq<Reply>, n: nat)
    requires n == PAGE_LIMIT && a == Batch(0, 2 * n, 0, 2) && b == Batch(2 * n, n + 1, 1, 1)
    requires replies == [Page(1, {}), Page(2, {})]
    ensures
      var rows := RowsStored(a + b, 0, 2, replies, 0, 0);
      ValidLog(a + b) && rows != [] && rows[0].ts == 1 && rows[|rows| - 1].ts == 0
  {
    var w := a + b;
    BatchesAreALog(w, a, b, 2 * n, n + 1);
    BatchesShow(w, a, b, 2 * n, n + 1);
    TwoPages(w, a, b, replies);
  }

  lemma {:induction false} BatchesShow(w: seq<Row>, a: seq<Row>, b: seq<Row>, n: nat, m: nat)
    requires w == a + b && a == Batch(0, n, 0, 2) && b == Batch(n, m, 1, 1)
    ensures Visible(w, 1, 0, 2) == b && Visible(w, 2, 0, 2) == w
  {
    BatchShows(0, n, 0, 2, 1);
    BatchShows(n, m, 1, 1, 1);
    BatchShows(0, n, 0, 2, 2);
    BatchShows(n, m, 1, 1, 2);
    VisibleConcat(a, b, 1, 0, 2);
    VisibleConcat(a, b, 2, 0, 2);
  }

  lemma {:induction false} BatchShows(first: nat, n: nat, ts: int, visibleAt: int, t: int)
    requires 0 <= ts < 2
    ensures Visible(Batch(first, n, ts, visibleAt), t, 0, 2) ==
      if visibleAt <= t then Batch(first, n, ts, visibleAt) else []
  {
    AllOrNoneVisible(Batch(first, n, ts, visibleAt), t, 0, 2);
  }

  lemma {:induction false} TwoPages(w: seq<Row>, a: seq<Row>, b: seq<Row>, replies: seq<Reply>)
    requires w == a + b && |a| == 2 * PAGE_LIMIT && |b| == PAGE_LIMIT + 1 && replies == [Page(1, {}), Page(2, {})]
    requires Visible(w, 1, 0, 2) == b && Visible(w, 2, 0, 2) == w
    ensures RowsStored(w, 0, 2, replies, 0, 0) == b[..PAGE_LIMIT] + a[PAGE_LIMIT..]
  {
    var (first, second) := (b[..PAGE_LIMIT], a[PAGE_LIMIT..]);
    assert PageOf(b, 0) == first;
    assert PageOf(w, PAGE_LIMIT) == second;
    KeptAll(first);
    KeptAll(second);
    RowsGoOn(w, 0, 2, replies, 0, 0);
    RowsGoOn(w, 0, 2, replies, 1, PAGE_LIMIT);
    assert RowsStored(w, 0, 2, replies, 2, 2 * PAGE_LIMIT) == [];
  }

  // Progress: on a log that has stopped growing, capped cycles get to its end.

  /** Every row is visible by `t`. */
  ghost predicate Complete(w: seq<Row>, t: int) {
    forall p :: 0 <= p < |w| ==> w[p].visibleAt <= t
  }

  /** As many rows as one pull can read always span more than the overlap. */
  ghost predicate Spread(w: seq<Row>) {
    forall i, j :: 0 <= i && i + FULL_PULL - 1 <= j < |w| ==> w[j].ts - w[i].ts > OVERLAP
  }

  ghost predicate Clean(replies: seq<Reply>) {
    forall i :: 0 <= i < |replies| && replies[i].Page? ==> replies[i].rejected == {}
  }

  lemma {:induction false} KeptAll(logs: seq<Row>)
    ensures Kept(logs, {}) == logs
  {
    if logs != [] {
      KeptAll(logs[..|logs| - 1]);
    }
  }

  /** The page sees these rows, and none of them is rejected. */
  ghost predicate Sees(w: seq<Row>, lo: int, hi: int, page: Reply, view: seq<Row>) {
    page.Page? ==> Visible(w, page.at, lo, hi) == view && page.rejected == {}
  }

  /** A capped pull ends with the last row its pages have room for. */
  ghost predicate FilledUp(r: Pull, view: seq<Row>) {
    r.Pulled? && !r.drained ==> |view| >= FULL_PULL && r.last == Some(view[FULL_PULL - 1])
  }

  /** A pull that is capped on a log that stands still has stored the first 250,000 rows of its window. */
  lemma {:induction false} CappedReadsAll(
    w: seq<Row>, lo: int, hi: int, replies: seq<Reply>, k: nat, s: Progress, view: seq<Row>, r: Pull)
    requires k <= MAX_PAGES && (forall i :: 0 <= i < |replies| ==> Sees(w, lo, hi, replies[i], view))
    requires s.offset == 500 * k && r == PullFrom(w, lo, hi, replies, k, s)
    requires k > 0 ==> s.offset <= |view| && s.last == Some(view[s.offset - 1])
    ensures FilledUp(r, view)
    decreases MAX_PAGES - k
  {
    if k == MAX_PAGES {
      assert r == Pulled(s.table, s.synced, s.last, false) && s.offset == FULL_PULL;
    } else if k >= |replies| || replies[k].ApiError? {
      assert r.Raised?;
    } else {
      var s' := ReadPage(w, lo, hi, replies[k], s);
      assert Sees(w, lo, hi, replies[k], view);
      CappedStep(w, lo, hi, replies, k, s, s', view, r);
      if s'.offset < |view| {
        CappedReadsAll(w, lo, hi, replies, k + 1, s', view, r);
      }
    }
  }

  lemma {:induction false} CappedStep(
    w: seq<Row>, lo: int, hi: int, replies: seq<Reply>, k: nat, s: Progress, s': Progress, view: seq<Row>, r: Pull)
    requires k < MAX_PAGES && k < |replies| && replies[k].Page? && replies[k].rejected == {}
    requires view == Visible(w, replies[k].at, lo, hi) && r == PullFrom(w, lo, hi, replies, k, s)
    requires s' == ReadPage(w, lo, hi, replies[k], s)
    ensures s'.offset >= |view| ==> FilledUp(r, view)
    ensures s'.offset < |view| ==>
      && s'.offset == s.offset + PAGE_LIMIT && s'.last == Some(view[s'.offset - 1])
      && r == PullFrom(w, lo, hi, replies, k + 1, s')
  {
    PullGoesOn(w, lo, hi, replies, k, s);
    if s'.offset < |view| {
      FullPage(w, lo, hi, replies[k], s, view);
    }
  }

  /** A page that does not reach the end is full, and ends with the row before the new offset. */
  lemma {:induction false} FullPage(w: seq<Row>, lo: int, hi: int, page: Reply, s: Progress, view: seq<Row>)
    requires page.Page? && page.rejected == {} && view == Visible(w, page.at, lo, hi)
    requires ReadPage(w, lo, hi, page, s).offset < |view|
    ensures
      var s' := ReadPage(w, lo, hi, page, s);
      s'.offset == s.offset + PAGE_LIMIT && s'.last == Some(view[s'.offset - 1]) && PageOf(view, s.offset) != []
  {
    var logs := PageOf(view, s.offset);
    assert logs == view[s.offset..s.offset + PAGE_LIMIT];
    PageCounts(w, lo, hi, page, s);
    KeptAll(logs);
  }

  lemma {:induction false} RankAtMost(w: seq<Row>, p: nat, q: nat, t: int, lo: int, hi: int)
    requires p <= q <= |w|
    ensures Rank(w, q, t, lo, hi) - Rank(w, p, t, lo, hi) <= q - p
  {
    if p < q {
      RankAtMost(w, p, q - 1, t, lo, hi);
      assert w[..q][..q - 1] == w[..q - 1];
    }
  }

  /** So the checkpoint strictly rises, to the timestamp of a row. */
  lemma {:induction false} CappedCycleRises(w: seq<Row>, s: Store, c: Cycle, to: int)
    requires ValidLog(w) && Complete(w, c.start) && Spread(w) && Timed(c.pull, c.start, to) && Clean(c.pull)
    ensures
      var through := RunCycle(w, s, c).through;
      Finishes(w, s, c) && !MainPull(w, s, c).drained ==>
        && through.Some? && through.value > Checkpoint(s, c)
        && exists p :: 0 <= p < |w| && w[p].ts == through.value
  {
    var lo := WindowStart(s, c);
    var view := Visible(w, c.start, lo, c.start);
    forall i | 0 <= i < |c.pull|
      ensures Sees(w, lo, c.start, c.pull[i], view)
    {
      if c.pull[i].Page? {
        StillView(w, lo, c.start, c.start, c.pull[i].at, to);
      }
    }
    CappedReadsAll(w, lo, c.start, c.pull, 0, Progress(s.table, 0, 0, None), view, MainPull(w, s, c));
    FinishStores(w, s, c);
    if Finishes(w, s, c) && !MainPull(w, s, c).drained {
      var n := FULL_PULL - 1;
      var p := VisibleOrigin(w, 0, c.start, lo, c.start);
      var q := VisibleOrigin(w, n, c.start, lo, c.start);
      if q < p {
        RankMonotone(w, q, p, c.start, lo, c.start);
      }
      RankAtMost(w, p, q, c.start, lo, c.start);
      assert w[q].ts - w[p].ts > OVERLAP;
    }
  }

  /** Every cycle of the run finishes, on a log that is complete by its start. */
  ghost predicate AllFinish(w: seq<Row>, s: Store, cs: seq<Cycle>)
    decreases |cs|
  {
    cs != [] ==>
      && Finishes(w, s, cs[0]) && Complete(w, cs[0].start) && Clean(cs[0].pull)
      && (exists to :: Timed(cs[0].pull, cs[0].start, to))
      && AllFinish(w, RunCycle(w, s, cs[0]), cs[1..])
  }

  /** Some cycle of the run drains its window. */
  ghost predicate SomeDrains(w: seq<Row>, s: Store, cs: seq<Cycle>)
    decreases |cs|
  {
    && cs != []
    && ((MainPull(w, s, cs[0]).Pulled? && MainPull(w, s, cs[0]).drained) ||
      SomeDrains(w, RunCycle(w, s, cs[0]), cs[1..]))
  }

  /** Whole-run progress: once a log has stopped growing, and as long as cycles finish and a full pull spans
      more than the overlap, the sync gets to its end: of any more cycles than there are seconds between
      the checkpoint and the last row, one drains its window. */
  lemma {:induction false} SyncCatchesUp(w: seq<Row>, s: Store, cs: seq<Cycle>, top: int)
    requires ValidLog(w) && Spread(w) && s.through.Some? && AllFinish(w, s, cs)
    requires forall p :: 0 <= p < |w| ==> w[p].ts <= top
    requires |cs| > 0 && |cs| > top - s.through.value
    ensures SomeDrains(w, s, cs)
    decreases |cs|
  {
    var to :| Timed(cs[0].pull, cs[0].start, to);
    CappedCycleRises(w, s, cs[0], to);
    var s' := RunCycle(w, s, cs[0]);
    if !MainPull(w, s, cs[0]).drained {
      SyncCatchesUp(w, s', cs[1..], top);
    }
  }

  // ---------------------------------------------------------------------------
  // Final rows stay final; open rows are read again
  // ---------------------------------------------------------------------------

  lemma {:induction false} ReconcileAdvances(
    w: seq<Row>, start: int, replies: seq<Reply>, mid: int, end: int, table: Table)
    requires ValidLog(w) && Timed(replies, mid, end) && Faithful(w, table, mid)
    ensures Faithful(w, Reconcile(w, start, replies, table).table, end)
    ensures Advances(table, Reconcile(w, start, replies, table).table, mid)
  {
    FaithfulLater(w, table, mid, end);
    var oldest := OldestOpen(table, start);
    if oldest.Some? {
      PullFromAdvances(w, oldest.value, start, replies, mid, end, 0, mid, Progress(table, 0, 0, None));
    }
  }

  lemma {:induction false} CycleAdvances(w: seq<Row>, s: Store, c: Cycle, now: int, mid: int, end: int)
    requires ValidLog(w) && CycleTimed(c, mid, end) && now <= c.start && Faithful(w, s.table, now)
    ensures Faithful(w, RunCycle(w, s, c).table, end)
    ensures Advances(s.table, RunCycle(w, s, c).table, c.start)
  {
    var lo := WindowStart(s, c);
    var pull := PullWindow(w, lo, c.start, c.pull, s.table);
    FaithfulLater(w, s.table, now, c.start);
    PullFromAdvances(w, lo, c.start, c.pull, c.start, mid, 0, c.start, Progress(s.table, 0, 0, None));
    FaithfulLater(w, pull.table, mid, end);
    if pull.Pulled? {
      var rec := Reconcile(w, c.start, c.reconcile, pull.table);
      ReconcileAdvances(w, c.start, c.reconcile, mid, end, pull.table);
      AdvancesEarlier(pull.table, rec.table, c.start, mid);
      AdvancesTransitive(s.table, pull.table, rec.table, c.start);
    }
  }

  /** Cycles do not overlap: each starts after the one before it ended. */
  ghost predicate Serial(cs: seq<Cycle>, now: int)
    decreases |cs|
  {
    cs != [] ==> now <= cs[0].start && exists mid, end :: CycleTimed(cs[0], mid, end) && Serial(cs[1..], end)
  }

  /** Over any run of cycles that do not overlap, a stored row never goes back from
      final to processing, and no stored row is lost or moved in time. */
  lemma {:induction false} FinalStaysFinal(w: seq<Row>, s: Store, cs: seq<Cycle>, now: int)
    requires ValidLog(w) && Faithful(w, s.table, now) && Serial(cs, now)
    ensures Advances(s.table, Run(w, s, cs).table, now)
    decreases |cs|
  {
    if cs != [] {
      var mid, end :| CycleTimed(cs[0], mid, end) && Serial(cs[1..], end);
      var s' := RunCycle(w, s, cs[0]);
      CycleAdvances(w, s, cs[0], now, mid, end);
      FinalStaysFinal(w, s', cs[1..], end);
      AdvancesEarlier(s.table, s'.table, now, cs[0].start);
      AdvancesEarlier(s'.table, Run(w, s', cs[1..]).table, now, end);
      AdvancesTransitive(s.table, s'.table, Run(w, s', cs[1..]).table, now);
    }
  }

  /** A drained reconcile pull has read every row that it leaves open. */
  lemma {:induction false} ReconcileRereads(
    w: seq<Row>, start: int, replies: seq<Reply>, mid: int, end: int, table: Table, id: Id)
    requires ValidLog(w) && Timed(replies, mid, end) && Faithful(w, table, mid)
    requires !RejectedIn(id, replies) && id in table
    ensures
      var rec := Reconcile(w, start, replies, table);
      rec.Pulled? && rec.drained && id in rec.table && Open(rec.table[id], start) ==> rec.table[id].modified >= mid
  {
    var rec := Reconcile(w, start, replies, table);
    if rec.Pulled? && rec.drained && id in rec.table && Open(rec.table[id], start) {
      assert Open(table[id], start) by {
        ReconcileAdvances(w, start, replies, mid, end, table);
      }
      var oldest := OldestOpen(table, start).value;
      var p := RowOf(w, table, mid, id);
      assert Shown(w[p], mid, oldest, start);
      PullSkipsNothing(w, oldest, start, replies, mid, end, table);
      assert Handled(w[p], rec.table, mid, replies);
    }
  }

  /** After a cycle whose reconcile pull drained, every stored row still processing
      and aged between 2 minutes and 48 hours, unless its own upsert raised, was read in
      that cycle, and its remote row was still processing when it was. */
  lemma {:induction false} OpenRowsWereReread(w: seq<Row>, s: Store, c: Cycle, now: int, mid: int, end: int)
    requires ValidLog(w) && CycleTimed(c, mid, end) && now <= c.start && Faithful(w, s.table, now)
    ensures
      var pull := PullWindow(w, WindowStart(s, c), c.start, c.pull, s.table);
      var rec := Reconcile(w, c.start, c.reconcile, pull.table);
      var table := RunCycle(w, s, c).table;
      pull.Pulled? && rec.Pulled? && rec.drained ==>
      forall id :: id in table && table[id].status.Processing? && !RejectedIn(id, c.reconcile) &&
                   c.start - 48 * HOUR < table[id].ts < c.start - 2 * MINUTE ==>
        && table[id].modified >= c.start
        && exists p :: 0 <= p < |w| && w[p].id == id && StatusAt(w[p], table[id].modified).Processing?
  {
    var lo := WindowStart(s, c);
    var pull := PullWindow(w, lo, c.start, c.pull, s.table);
    var rec := Reconcile(w, c.start, c.reconcile, pull.table);
    FaithfulLater(w, s.table, now, c.start);
    PullFromAdvances(w, lo, c.start, c.pull, c.start, mid, 0, c.start, Progress(s.table, 0, 0, None));
    ReconcileAdvances(w, c.start, c.reconcile, mid, end, pull.table);
    forall id |
        rec.Pulled? && rec.drained && id in rec.table && Open(rec.table[id], c.start) && !RejectedIn(id, c.reconcile)
      ensures rec.table[id].modified >= c.start
      ensures exists p :: 0 <= p < |w| && w[p].id == id && StatusAt(w[p], rec.table[id].modified).Processing?
    {
      var p := RowOf(w, rec.table, end, id);
      if id in pull.table {
        ReconcileRereads(w, c.start, c.reconcile, mid, end, pull.table, id);
      }
    }
  }

  // ---------------------------------------------------------------------------
  // The sync job itself
  // ---------------------------------------------------------------------------

  lemma {:induction false} OldestOpenUnique(table: Table, start: int, a: Option<int>, b: Option<int>)
    requires IsOldestOpen(table, start, a) && IsOldestOpen(table, start, b)
    ensures a == b
  {
  }

  class UsageLogSync {
    var table: Table
    var through: Option<int>

    ghost function State(): Store
      reads this
    {
      Store(table, through)
    }

    constructor ()
      ensures State() == EMPTY
    {
      table, through := map[], None;
    }

    /** Insert the row, or overwrite the one already stored under its id. */
    method UpsertLog(r: Row, at: int)
      modifies this`table
      ensures table == old(table)[r.id := Stored(r, at)]
    {
      table := table[r.id := Entry(r.ts, StatusAt(r, at), at)];
    }

    /** Page through [lo, hi); `raised` stands for the API error. */
    method PullAndUpsert(w: seq<Row>, lo: int, hi: int, replies: seq<Reply>)
      returns (raised: bool, synced: nat, last: Option<Row>, drained: bool)
      modifies this`table
      ensures table == PullWindow(w, lo, hi, replies, old(table)).table
      ensures raised == PullWindow(w, lo, hi, replies, old(table)).Raised?
      ensures !raised ==> Pulled(table, synced, last, drained) == PullWindow(w, lo, hi, replies, old(table))
    {
      var offset: nat := 0;
      raised, synced, last, drained := false, 0, None, false;
      var k := 0;
      while k < MAX_PAGES
        invariant k <= MAX_PAGES && !raised && !drained
        invariant PullFrom(w, lo, hi, replies, k, Progress(table, offset, synced, last)) ==
          PullWindow(w, lo, hi, replies, old(table))
      {
        if k >= |replies| || replies[k].ApiError? {
          raised := true;
          return;
        }
        var at, rejected := replies[k].at, replies[k].rejected;
        var view := Visible(w, at, lo, hi);
        var logs := PageOf(view, offset);
        if logs == [] {
          drained := true;
          return;
        }
        ghost var before := Progress(table, offset, synced, last);
        var n := 0;
        while n < |logs|
          invariant n <= |logs|
          invariant Progress(table, offset, synced, last) == UpsertRows(before, logs, n, at, rejected)
        {
          if logs[n].id !in rejected {
            UpsertLog(logs[n], at);
            synced := synced + 1;
            last := Some(logs[n]);
          }
          n := n + 1;
        }
        offset := offset + |logs|;
        assert Progress(table, offset, synced, last) == ReadPage(w, lo, hi, replies[k], before);
        if offset >= |view| {
          drained := true;
          return;
        }
        k := k + 1;
      }
    }

    /** The reconcile query: least timestamp among the rows still open. */
    method FindOldestOpen(start: int) returns (oldest: Option<int>)
      ensures oldest == OldestOpen(table, start)
    {
      oldest := None;
      var todo := table.Keys;
      while todo != {}
        invariant todo <= table.Keys
        invariant IsOldestAmong(table, table.Keys - todo, start, oldest)
        decreases |todo|
      {
        var id :| id in todo;
        OldestOneMore(table, table.Keys - todo, start, oldest, id);
        assert table.Keys - (todo - {id}) == (table.Keys - todo) + {id};
        todo := todo - {id};
        if Open(table[id], start) && (oldest.None? || table[id].ts < oldest.value) {
          oldest := Some(table[id].ts);
        }
      }
      assert table.Keys - todo == table.Keys;
      OldestOpenUnique(table, start, oldest, OldestOpen(table, start));
    }

    method ReconcileOpenProcessing(w: seq<Row>, start: int, replies: seq<Reply>) returns (raised: bool)
      modifies this`table
      ensures table == Reconcile(w, start, replies, old(table)).table
      ensures raised == Reconcile(w, start, replies, old(table)).Raised?
    {
      var oldest := FindOldestOpen(start);
      if oldest.None? {
        return false;
      }
      var synced, last, drained;
      raised, synced, last, drained := PullAndUpsert(w, oldest.value, start, replies);
    }

    /** One cycle; false stands for the re-raised API error. */
    method RunSync(w: seq<Row>, c: Cycle) returns (ok: bool)
      modifies this
      ensures State() == RunCycle(w, old(State()), c)
      ensures ok == Finishes(w, old(State()), c)
    {
      var checkpoint := Checkpoint(Store(table, through), c);
      ghost var pull := PullWindow(w, checkpoint - OVERLAP, c.start, c.pull, table);
      var raised, synced, last, drained := PullAndUpsert(w, checkpoint - OVERLAP, c.start, c.pull);
      if raised {
        assert pull == Raised(table);
        return false;
      }
      assert pull == Pulled(table, synced, last, drained);
      raised := ReconcileOpenProcessing(w, c.start, c.reconcile);
      if raised {
        return false;
      }
      through := Some(if drained then c.start else if last.Some? then last.value.ts else checkpoint);
      ok := true;
    }
  }
}
