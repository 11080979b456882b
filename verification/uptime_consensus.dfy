/**
 Cross-instance consensus on whether a site is down (tasks/uptime_kuma_poller.py).

 A site has one record per Kuma instance (its siblings); each instance votes with its
 own newest checks, and only a unanimous vote outside every maintenance window marks
 the site critical.
 */
module UptimeConsensus {
  import opened Wrappers
  import opened Maintenance
  import opened AlertLog

  datatype Label = Up | Down | Pending | UnderMaintenance

  datatype Check = Check(site: string, at: int, up: bool, inMaintenance: bool)

  datatype Sibling = Sibling(name: string, active: bool)

  function LabelOf(status: int): Label {
    if status == 1 then Up else if status == 0 then Down else if status == 3 then UnderMaintenance else Pending
  }

  /** What the dashboard shows for a reading: a planned window hides it; Kuma counts 0 down, 1 up,
      3 its own maintenance, and everything else is pending. */
  ghost predicate Labels(shown: Label, status: int, inWindow: bool) {
    match shown
    case Up => !inWindow && status == 1
    case Down => !inWindow && status == 0
    case UnderMaintenance => inWindow || status == 3
    case Pending => !inWindow && status !in {0, 1, 3}
  }

  /** A check counts for a site if it was taken outside maintenance and after `since`. */
  predicate Counts(c: Check, site: string, since: Option<int>) {
    c.site == site && !c.inMaintenance && (since.Some? ==> c.at > since.value)
  }

  function Counted(checks: seq<Check>, site: string, since: Option<int>): seq<Check> {
    if checks == [] then []
    else
      var front := Counted(checks[..|checks| - 1], site, since);
      if Counts(checks[|checks| - 1], site, since) then front + [checks[|checks| - 1]] else front
  }

  function Downs(checks: seq<Check>): nat {
    if checks == [] then 0 else Downs(checks[..|checks| - 1]) + if checks[|checks| - 1].up then 0 else 1
  }

  /** The newest `n` counted checks; the log is in time order. */
  function Newest(checks: seq<Check>, site: string, n: nat, since: Option<int>): seq<Check> {
    LastOf(Counted(checks, site, since), n)
  }

  function LastOf(rows: seq<Check>, n: nat): seq<Check> {
    if |rows| <= n then rows else rows[|rows| - n..]
  }

  /** One instance's opinion: None without a full window of checks. */
  function Verdict(checks: seq<Check>, site: string, n: nat, since: Option<int>): Option<bool> {
    var rows := Newest(checks, site, n, since);
    if |rows| < n then None else Some(2 * Downs(rows) > |rows|)
  }

  /** A sibling's vote: a paused one has none. */
  function Ballot(checks: seq<Check>, s: Sibling, n: nat, since: Option<int>): Option<bool> {
    if s.active then Verdict(checks, s.name, n, since) else None
  }

  ghost predicate Votes(checks: seq<Check>, s: Sibling, n: nat, since: Option<int>) {
    Ballot(checks, s, n, since).Some?
  }

  /** At least one instance votes, and every one that does votes Down. */
  ghost predicate Unanimous(checks: seq<Check>, siblings: seq<Sibling>, n: nat, since: Option<int>) {
    && (exists i :: 0 <= i < |siblings| && Votes(checks, siblings[i], n, since))
    && (forall i :: 0 <= i < |siblings| && Votes(checks, siblings[i], n, since) ==>
      Ballot(checks, siblings[i], n, since).value)
  }

  type Flags = map<string, bool>

  ghost predicate Known(siblings: seq<Sibling>, flags: Flags) {
    && siblings != []
    && (forall i :: 0 <= i < |siblings| ==> siblings[i].name in flags)
  }

  function SiteKey(siblings: seq<Sibling>): Key
    requires siblings != []
  {
    Key("Uptime Site", siblings[0].name, "Site Down")
  }

  /** All siblings store the same flag. */
  ghost predicate Agree(siblings: seq<Sibling>, flags: Flags)
    requires Known(siblings, flags)
  {
    forall i :: 0 <= i < |siblings| ==> flags[siblings[i].name] == flags[siblings[0].name]
  }

  ghost predicate Named(siblings: seq<Sibling>, name: string) {
    exists i :: 0 <= i < |siblings| && siblings[i].name == name
  }

  /** `after` sets the flag of every sibling and of nothing else. */
  ghost predicate SetAll(siblings: seq<Sibling>, before: Flags, after: Flags, value: bool) {
    && after.Keys == before.Keys
    && (forall i :: 0 <= i < |siblings| ==> siblings[i].name in after && after[siblings[i].name] == value)
    && (forall name :: name in before && !Named(siblings, name) ==> after[name] == before[name])
  }

  /** One reconcile step of one site at `now`. */
  ghost predicate Reconciled(
    checks: seq<Check>, siblings: seq<Sibling>, windows: seq<Window>, now: int, n: nat, since: Option<int>,
    before: Flags, after: Flags, log: Log, log': Log)
    requires Known(siblings, before)
  {
    if exists i :: 0 <= i < |windows| && Covers(windows[i], now) then after == before && log' == log
    else
      var was := before[siblings[0].name];
      var critical := Unanimous(checks, siblings, n, since);
      && LatestEnd(windows, now - SEARCH_DAYS * DAY, now, since)
      && ((exists i :: 0 <= i < |windows| && Repeats(windows[i])) ==> TrulyLatestEnd(windows, now, since))
      && (if critical == was then after == before else SetAll(siblings, before, after, critical))
      && log' == Transition(log, was, critical, SiteKey(siblings), true)
  }

  /** Each sibling's vote, None for one that has none. */
  ghost function Ballots(checks: seq<Check>, siblings: seq<Sibling>, n: nat, since: Option<int>): seq<Option<bool>> {
    seq(|siblings|, i requires 0 <= i < |siblings| => Ballot(checks, siblings[i], n, since))
  }

  ghost function Total(ballots: seq<Option<bool>>): nat {
    if ballots == [] then 0 else Total(ballots[..|ballots| - 1]) + if ballots[|ballots| - 1].Some? then 1 else 0
  }

  ghost function ForDown(ballots: seq<Option<bool>>): nat {
    if ballots == [] then 0
    else ForDown(ballots[..|ballots| - 1]) + if ballots[|ballots| - 1] == Some(true) then 1 else 0
  }

  lemma {:induction false} TallyDecides(ballots: seq<Option<bool>>)
    ensures ForDown(ballots) <= Total(ballots)
    ensures Total(ballots) > 0 <==> exists i :: 0 <= i < |ballots| && ballots[i].Some?
    ensures ForDown(ballots) == Total(ballots) <==>
      forall i :: 0 <= i < |ballots| && ballots[i].Some? ==> ballots[i].value
  {
    if ballots != [] {
      var front, last := ballots[..|ballots| - 1], ballots[|ballots| - 1];
      TallyDecides(front);
      assert forall i :: 0 <= i < |front| ==> front[i] == ballots[i];
      if Total(front) > 0 {
        var i :| 0 <= i < |front| && front[i].Some?;
        assert ballots[i].Some?;
      }
    }
  }

  lemma {:induction false} BallotsDecide(checks: seq<Check>, siblings: seq<Sibling>, n: nat, since: Option<int>)
    ensures
      var b := Ballots(checks, siblings, n, since);
      Unanimous(checks, siblings, n, since) <==>
        (exists i :: 0 <= i < |b| && b[i].Some?) && (forall i :: 0 <= i < |b| && b[i].Some? ==> b[i].value)
  {
    var b := Ballots(checks, siblings, n, since);
    forall i | 0 <= i < |siblings|
      ensures b[i].Some? <==> Votes(checks, siblings[i], n, since)
    {
    }
  }

  class UptimeStore {
    var checks: seq<Check>
    var status: map<string, Label>
    var critical: Flags

    /** Checks are logged as they are taken. */
    ghost predicate InTimeOrder()
      reads this
    {
      forall i, j :: 0 <= i < j < |checks| ==> checks[i].at <= checks[j].at
    }

    /** Record one instance's reading; pending and maintenance readings leave no check. */
    method RecordSiteCheck(site: string, reading: Option<int>, now: int, inWindow: bool)
      requires InTimeOrder() && (checks != [] ==> checks[|checks| - 1].at <= now)
      modifies this`checks, this`status
      ensures InTimeOrder()
      ensures reading.None? ==> checks == old(checks) && status == old(status)
      ensures reading.Some? && reading.value in {0, 1} ==>
        checks == old(checks) + [Check(site, now, reading.value == 1, inWindow)]
      ensures reading.Some? && reading.value !in {0, 1} ==> checks == old(checks)
      ensures reading.Some? ==>
        exists shown :: status == old(status)[site := shown] && Labels(shown, reading.value, inWindow)
    {
      if reading.None? {
        return;
      }
      var current := LabelOf(reading.value);
      if reading.value == 0 || reading.value == 1 {
        checks := checks + [Check(site, now, reading.value == 1, inWindow)];
      }
      if inWindow {
        current := UnderMaintenance;
      }
      status := status[site := current];
      assert Labels(current, reading.value, inWindow);
    }

    /** The newest checks that count, as the query returns them. */
    method QueryChecks(site: string, n: nat, since: Option<int>) returns (rows: seq<Check>)
      ensures rows == Newest(checks, site, n, since)
    {
      var log := checks;
      rows := [];
      for i := 0 to |log|
        invariant rows == Counted(log[..i], site, since)
      {
        assert log[..i + 1][..i] == log[..i];
        if Counts(log[i], site, since) {
          rows := rows + [log[i]];
        }
      }
      assert log[..|log|] == log;
      if |rows| > n {
        rows := rows[|rows| - n..];
      }
    }

    method InstanceVerdict(site: string, n: nat, since: Option<int>) returns (verdict: Option<bool>)
      ensures verdict == Verdict(checks, site, n, since)
    {
      var rows := QueryChecks(site, n, since);
      if |rows| < n {
        return None;
      }
      var down := 0;
      for i := 0 to |rows|
        invariant down == Downs(rows[..i])
      {
        assert rows[..i + 1][..i] == rows[..i];
        if !rows[i].up {
          down := down + 1;
        }
      }
      assert rows[..|rows|] == rows;
      return Some(2 * down > |rows|);
    }

    /** Count the votes: unanimous exactly when both totals agree and are not zero. */
    method Tally(siblings: seq<Sibling>, n: nat, since: Option<int>) returns (critical: bool)
      ensures critical == Unanimous(checks, siblings, n, since)
    {
      ghost var ballots := Ballots(checks, siblings, n, since);
      var down, total := 0, 0;
      for k := 0 to |siblings|
        invariant total == Total(ballots[..k]) && down == ForDown(ballots[..k])
      {
        assert ballots[..k + 1][..k] == ballots[..k];
        if siblings[k].active {
          var verdict := InstanceVerdict(siblings[k].name, n, since);
          if verdict.Some? {
            total := total + 1;
            if verdict.value {
              down := down + 1;
            }
          }
        }
      }
      assert ballots[..|siblings|] == ballots;
      TallyDecides(ballots);
      BallotsDecide(checks, siblings, n, since);
      critical := total > 0 && down == total;
    }

    /** Reconcile one site; `since` is the window end the checks were counted from. */
    method ReconcileSite(siblings: seq<Sibling>, windows: seq<Window>, now: int, n: nat, ledger: Ledger)
      returns (ghost since: Option<int>)
      requires Known(siblings, critical) && (forall i :: 0 <= i < |windows| ==> Valid(windows[i]))
      modifies this`critical, ledger
      ensures checks == old(checks)
      ensures Reconciled(
        checks, siblings, windows, now, n, since, old(critical), critical, old(ledger.rows), ledger.rows)
    {
      since := None;
      var active := ActiveWindow(windows, now);
      if active.Some? {
        return;
      }
      var from := LastWindowEnd(windows, now);
      since := from;
      var isCritical := Tally(siblings, n, from);
      var was := critical[siblings[0].name];
      if isCritical != was {
        SetFlags(siblings, isCritical);
      }
      ledger.HandleTransition(was, isCritical, SiteKey(siblings), true);
    }

    method SetFlags(siblings: seq<Sibling>, value: bool)
      requires forall i :: 0 <= i < |siblings| ==> siblings[i].name in critical
      modifies this`critical
      ensures SetAll(siblings, old(critical), critical, value)
    {
      for k := 0 to |siblings|
        invariant SetAll(siblings[..k], old(critical), critical, value)
      {
        ghost var before := critical;
        critical := critical[siblings[k].name := value];
        SetOneMore(siblings, k, old(critical), before, value);
      }
      assert siblings[..|siblings|] == siblings;
    }
  }

  lemma {:induction false} SetOneMore(siblings: seq<Sibling>, k: nat, before: Flags, mid: Flags, value: bool)
    requires k < |siblings| && siblings[k].name in before && SetAll(siblings[..k], before, mid, value)
    ensures SetAll(siblings[..k + 1], before, mid[siblings[k].name := value], value)
  {
    var done, more := siblings[..k], siblings[..k + 1];
    assert more == done + [siblings[k]];
    forall name | Named(done, name) || name == siblings[k].name
      ensures Named(more, name)
    {
      if Named(done, name) {
        var i :| 0 <= i < |done| && done[i].name == name;
        assert more[i].name == name;
      } else {
        assert more[k].name == name;
      }
    }
  }

  // ---------------------------------------------------------------------------
  // What a Site Down alert proves
  // ---------------------------------------------------------------------------

  lemma {:induction false} CountedRows(checks: seq<Check>, site: string, since: Option<int>)
    ensures forall c :: c in Counted(checks, site, since) <==> c in checks && Counts(c, site, since)
  {
    if checks != [] {
      var front := checks[..|checks| - 1];
      CountedRows(front, site, since);
      assert checks == front + [checks[|checks| - 1]];
    }
  }

  lemma {:induction false} CountedInOrder(checks: seq<Check>, site: string, since: Option<int>)
    requires forall i, j :: 0 <= i < j < |checks| ==> checks[i].at <= checks[j].at
    ensures forall i, j :: 0 <= i < j < |Counted(checks, site, since)| ==>
      Counted(checks, site, since)[i].at <= Counted(checks, site, since)[j].at
  {
    if checks != [] {
      var front := checks[..|checks| - 1];
      CountedInOrder(front, site, since);
      CountedRows(front, site, since);
      var rows := Counted(front, site, since);
      forall i | 0 <= i < |rows|
        ensures rows[i].at <= checks[|checks| - 1].at
      {
        assert rows[i] in rows;
      }
    }
  }

  /** A verdict rests on as many of the newest counted checks as the window asks for: what it
      leaves out is no newer than anything it takes. */
  lemma {:induction false} NewestAreNewest(checks: seq<Check>, site: string, n: nat, since: Option<int>)
    requires forall i, j :: 0 <= i < j < |checks| ==> checks[i].at <= checks[j].at
    ensures
      var (all, taken) := (Counted(checks, site, since), Newest(checks, site, n, since));
      && |taken| == (if |all| <= n then |all| else n)
      && taken == all[|all| - |taken|..]
      && forall i, c :: 0 <= i < |all| - |taken| && c in taken ==> all[i].at <= c.at
  {
    CountedInOrder(checks, site, since);
  }

  /** A check taken after every window end the search finds. */
  ghost predicate AfterEveryEnd(windows: seq<Window>, from: int, now: int, c: Check) {
    forall i, o :: 0 <= i < |windows| && Occurs(windows[i], o) && from < o.1 <= now ==> c.at > o.1
  }

  /** A full window of checks of one site, more than half of them Down, none in maintenance. */
  ghost predicate FullWindowDown(rows: seq<Check>, checks: seq<Check>, site: string, n: nat) {
    && |rows| == n && 2 * Downs(rows) > n
    && (forall c :: c in rows ==> c in checks && c.site == site && !c.inMaintenance)
  }

  /** Site Down is raised only outside every window, only when some instance votes, and
      only on a full, mostly Down window of every voter's checks, all taken after the
      latest window end of the last eight days. */
  lemma {:induction false} RaisedOnlyOnEvidence(
    checks: seq<Check>, siblings: seq<Sibling>, windows: seq<Window>, now: int, n: nat, since: Option<int>,
    before: Flags, after: Flags, log: Log, log': Log)
    requires Known(siblings, before)
    requires Reconciled(checks, siblings, windows, now, n, since, before, after, log, log')
    requires Incidents(log', SiteKey(siblings)) > Incidents(log, SiteKey(siblings))
    ensures forall i :: 0 <= i < |windows| ==> !Covers(windows[i], now)
    ensures exists i :: 0 <= i < |siblings| && Votes(checks, siblings[i], n, since)
    ensures forall i :: 0 <= i < |siblings| && Votes(checks, siblings[i], n, since) ==>
      var rows := Newest(checks, siblings[i].name, n, since);
      && FullWindowDown(rows, checks, siblings[i].name, n)
      && forall c :: c in rows ==> AfterEveryEnd(windows, now - SEARCH_DAYS * DAY, now, c)
    ensures Known(siblings, after) && after[siblings[0].name]
    ensures !before[siblings[0].name] || Agree(siblings, before) ==>
      forall i :: 0 <= i < |siblings| ==> after[siblings[i].name]
  {
    var key := SiteKey(siblings);
    assert Unanimous(checks, siblings, n, since) by {
      TransitionCounts(log, before[siblings[0].name], Unanimous(checks, siblings, n, since), key, true, key);
    }
    forall i | 0 <= i < |siblings| && Votes(checks, siblings[i], n, since)
      ensures
        var rows := Newest(checks, siblings[i].name, n, since);
        && FullWindowDown(rows, checks, siblings[i].name, n)
        && forall c :: c in rows ==> AfterEveryEnd(windows, now - SEARCH_DAYS * DAY, now, c)
    {
      CountedRows(checks, siblings[i].name, since);
      var all := Counted(checks, siblings[i].name, since);
      assert forall c :: c in Newest(checks, siblings[i].name, n, since) ==> c in all;
    }
  }

  /** With a repeating window the checks are younger than every window end there ever was. */
  lemma {:induction false} EvidenceAfterAllEnds(
    checks: seq<Check>, siblings: seq<Sibling>, windows: seq<Window>, now: int, n: nat, since: Option<int>,
    before: Flags, after: Flags, log: Log, log': Log, i: nat, c: Check, k: nat, o: Span)
    requires Known(siblings, before)
    requires Reconciled(checks, siblings, windows, now, n, since, before, after, log, log')
    requires Incidents(log', SiteKey(siblings)) > Incidents(log, SiteKey(siblings))
    requires exists j :: 0 <= j < |windows| && Repeats(windows[j])
    requires i < |siblings| && Votes(checks, siblings[i], n, since) && c in Newest(checks, siblings[i].name, n, since)
    requires k < |windows| && Occurs(windows[k], o) && o.1 <= now
    ensures c.at > o.1
  {
    RaisedOnlyOnEvidence(checks, siblings, windows, now, n, since, before, after, log, log');
    CountedRows(checks, siblings[i].name, since);
    assert c in Counted(checks, siblings[i].name, since);
  }

  // ---------------------------------------------------------------------------
  // When Site Down is raised and when it recovers, on the log itself
  // ---------------------------------------------------------------------------

  /** Where the log holds a check of the site outside maintenance and after `since`. */
  ghost function Places(checks: seq<Check>, site: string, since: Option<int>): set<int> {
    set i | 0 <= i < |checks| && checks[i].site == site && !checks[i].inMaintenance &&
      (since.Some? ==> checks[i].at > since.value)
  }

  ghost function After(places: set<int>, i: int): set<int> {
    set j | j in places && j > i
  }

  /** The newest `n` places: those that fewer than `n` come after. */
  ghost function NewestOf(places: set<int>, n: nat): set<int> {
    set i | i in places && |After(places, i)| < n
  }

  ghost function DownAt(checks: seq<Check>, places: set<int>): set<int> {
    set i | i in places && 0 <= i < |checks| && !checks[i].up
  }

  /** The sibling is active and has `n` checks that count. */
  ghost predicate HasFullWindow(checks: seq<Check>, s: Sibling, n: nat, since: Option<int>) {
    s.active && |Places(checks, s.name, since)| >= n
  }

  /** More than half of its newest `n` are Down. */
  ghost predicate MostlyDown(checks: seq<Check>, s: Sibling, n: nat, since: Option<int>) {
    2 * |DownAt(checks, NewestOf(Places(checks, s.name, since), n))| > n
  }

  /** Somebody has a full window, and everybody who does has it mostly Down. */
  ghost predicate DownEverywhere(checks: seq<Check>, siblings: seq<Sibling>, n: nat, since: Option<int>) {
    && (exists i :: 0 <= i < |siblings| && HasFullWindow(checks, siblings[i], n, since))
    && (forall i :: 0 <= i < |siblings| && HasFullWindow(checks, siblings[i], n, since) ==>
          MostlyDown(checks, siblings[i], n, since))
  }

  /** Dropping the newest row of the log drops one place, if that row counts. */
  lemma {:induction false} PlacesGrow(checks: seq<Check>, site: string, since: Option<int>)
    requires checks != []
    ensures
      var last := |checks| - 1;
      Places(checks, site, since) ==
        Places(checks[..last], site, since) + (if Counts(checks[last], site, since) then {last} else {})
  {
  }

  /** One more place, past all others, is the newest; each other has one more after it. */
  lemma {:induction false} NewestOfGrows(places: set<int>, last: int, n: nat)
    requires forall i :: i in places ==> i < last
    ensures NewestOf(places + {last}, n) == if n == 0 then {} else NewestOf(places, n - 1) + {last}
  {
    var more := places + {last};
    assert After(more, last) == {};
    forall i | i in places
      ensures |After(more, i)| == |After(places, i)| + 1
    {
      assert After(more, i) == After(places, i) + {last};
    }
  }

  lemma {:induction false} DownAtGrows(checks: seq<Check>, places: set<int>)
    requires checks != [] && forall i :: i in places ==> 0 <= i < |checks| - 1
    ensures
      var (last, front) := (|checks| - 1, checks[..|checks| - 1]);
      && DownAt(checks, places) == DownAt(front, places)
      && |DownAt(checks, places + {last})| == |DownAt(front, places)| + (if checks[last].up then 0 else 1)
  {
    var (last, front) := (|checks| - 1, checks[..|checks| - 1]);
    assert DownAt(checks, places) == DownAt(front, places);
    assert DownAt(checks, places + {last}) == DownAt(front, places) + (if checks[last].up then {} else {last});
  }

  /** How many of the newest `n` counted checks are Down, by what one more check does to it. */
  lemma {:induction false} NewestDowns(checks: seq<Check>, site: string, n: nat, since: Option<int>)
    requires checks != []
    ensures
      var (last, front) := (checks[|checks| - 1], checks[..|checks| - 1]);
      Downs(Newest(checks, site, n, since)) ==
        if !Counts(last, site, since) then Downs(Newest(front, site, n, since))
        else if n == 0 then 0
        else Downs(Newest(front, site, n - 1, since)) + (if last.up then 0 else 1)
  {
    var (last, front) := (checks[|checks| - 1], checks[..|checks| - 1]);
    if Counts(last, site, since) {
      LastOfGrows(Counted(front, site, since), last, n);
      if n > 0 {
        DownsAppend(Newest(front, site, n - 1, since), last);
      }
    }
  }

  lemma {:induction false} LastOfGrows(rows: seq<Check>, c: Check, n: nat)
    ensures LastOf(rows + [c], n) == if n == 0 then [] else LastOf(rows, n - 1) + [c]
  {
  }

  lemma {:induction false} DownsAppend(rows: seq<Check>, c: Check)
    ensures Downs(rows + [c]) == Downs(rows) + if c.up then 0 else 1
  {
    assert (rows + [c])[..|rows|] == rows;
  }

  lemma {:induction false} DownPlaces(checks: seq<Check>, site: string, n: nat, since: Option<int>)
    requires checks != []
    ensures
      var (last, front) := (checks[|checks| - 1], checks[..|checks| - 1]);
      var places := Places(front, site, since);
      |DownAt(checks, NewestOf(Places(checks, site, since), n))| ==
        if !Counts(last, site, since) then |DownAt(front, NewestOf(places, n))|
        else if n == 0 then 0
        else |DownAt(front, NewestOf(places, n - 1))| + (if last.up then 0 else 1)
  {
    var places := Places(checks[..|checks| - 1], site, since);
    assert forall i :: i in places ==> 0 <= i < |checks| - 1;
    PlacesGrow(checks, site, since);
    if !Counts(checks[|checks| - 1], site, since) {
      assert Places(checks, site, since) == places;
      DownAtGrows(checks, NewestOf(places, n));
    } else {
      NewestOfGrows(places, |checks| - 1, n);
      if n == 0 {
        assert DownAt(checks, {}) == {};
      } else {
        DownAtGrows(checks, NewestOf(places, n - 1));
      }
    }
  }

  lemma {:induction false} CountedPlaces(checks: seq<Check>, site: string, since: Option<int>)
    ensures |Counted(checks, site, since)| == |Places(checks, site, since)|
  {
    if checks == [] {
      assert Places(checks, site, since) == {};
    } else {
      CountedPlaces(checks[..|checks| - 1], site, since);
      PlacesGrow(checks, site, since);
    }
  }

  /** The query's rows are those at the newest places. */
  lemma {:induction false} DownRowsAreAtPlaces(checks: seq<Check>, site: string, n: nat, since: Option<int>)
    ensures Downs(Newest(checks, site, n, since)) == |DownAt(checks, NewestOf(Places(checks, site, since), n))|
  {
    if checks == [] {
      assert DownAt(checks, NewestOf(Places(checks, site, since), n)) == {};
    } else {
      var front := checks[..|checks| - 1];
      NewestDowns(checks, site, n, since);
      DownPlaces(checks, site, n, since);
      if !Counts(checks[|checks| - 1], site, since) {
        DownRowsAreAtPlaces(front, site, n, since);
      } else if n > 0 {
        DownRowsAreAtPlaces(front, site, n - 1, since);
      }
    }
  }

  /** A sibling votes exactly when it is active and has a full window of checks, and votes Down exactly
      when more than half of the newest ones are. */
  lemma {:induction false} BallotMeans(checks: seq<Check>, s: Sibling, n: nat, since: Option<int>)
    ensures Ballot(checks, s, n, since) ==
      if HasFullWindow(checks, s, n, since) then Some(MostlyDown(checks, s, n, since)) else None
  {
    CountedPlaces(checks, s.name, since);
    DownRowsAreAtPlaces(checks, s.name, n, since);
  }

  lemma {:induction false} VoteMeans(checks: seq<Check>, siblings: seq<Sibling>, n: nat, since: Option<int>)
    ensures Unanimous(checks, siblings, n, since) <==> DownEverywhere(checks, siblings, n, since)
  {
    forall i | 0 <= i < |siblings|
      ensures Votes(checks, siblings[i], n, since) <==> HasFullWindow(checks, siblings[i], n, since)
      ensures Votes(checks, siblings[i], n, since) ==>
        Ballot(checks, siblings[i], n, since).value == MostlyDown(checks, siblings[i], n, since)
    {
      BallotMeans(checks, siblings[i], n, since);
    }
  }

  /** Exactly when a step adds a Site Down alert, and when a recovery: outside every window, an alert
      when the site is down everywhere and was not flagged or had lost its alert, a recovery when it
      was flagged and is not down everywhere any more. */
  lemma {:induction false} RaisedAndRecoveredIff(
    checks: seq<Check>, siblings: seq<Sibling>, windows: seq<Window>, now: int, n: nat, since: Option<int>,
    before: Flags, after: Flags, log: Log, log': Log)
    requires Known(siblings, before)
    requires Reconciled(checks, siblings, windows, now, n, since, before, after, log, log')
    ensures
      var (key, was) := (SiteKey(siblings), before[siblings[0].name]);
      var covered := exists i :: 0 <= i < |windows| && Covers(windows[i], now);
      var down := DownEverywhere(checks, siblings, n, since);
      && Incidents(log', key) == Incidents(log, key) +
           (if !covered && down && (!was || OpenCount(log, key) == 0) then 1 else 0)
      && Recoveries(log', key) == Recoveries(log, key) + (if !covered && was && !down then 1 else 0)
      && (!covered ==> after[siblings[0].name] == down && LatestEnd(windows, now - SEARCH_DAYS * DAY, now, since))
  {
    VoteMeans(checks, siblings, n, since);
    TransitionCounts(
      log, before[siblings[0].name], Unanimous(checks, siblings, n, since), SiteKey(siblings), true, SiteKey(siblings));
  }

  /** Different sites never share an alert. */
  lemma {:induction false} SitesHaveTheirOwnKey(a: seq<Sibling>, b: seq<Sibling>)
    requires a != [] && b != [] && SiteKey(a) == SiteKey(b)
    ensures a[0].name == b[0].name
  {
  }

  // ---------------------------------------------------------------------------
  // Sibling flags
  // ---------------------------------------------------------------------------

  /** Siblings that agreed still agree; ones that disagreed are brought together
      only by a verdict that differs from the first sibling's flag. */
  lemma {:induction false} SiblingsAgreeAfter(
    checks: seq<Check>, siblings: seq<Sibling>, windows: seq<Window>, now: int, n: nat, since: Option<int>,
    before: Flags, after: Flags, log: Log, log': Log)
    requires Known(siblings, before)
    requires Reconciled(checks, siblings, windows, now, n, since, before, after, log, log')
    ensures Known(siblings, after)
    ensures Agree(siblings, after) <==>
      || Agree(siblings, before)
      || ((forall i :: 0 <= i < |windows| ==> !Covers(windows[i], now)) &&
        Unanimous(checks, siblings, n, since) != before[siblings[0].name])
  {
  }

  /** One reconcile step as it met the outside: the checks and alerts logged by then, the windows, the time. */
  datatype Cycle = Cycle(checks: seq<Check>, log: Log, windows: seq<Window>, now: int, since: Option<int>)

  /** A run of reconcile steps of one site through these flags and logs.  All sites share one
      log: a step finds it as `cycles[k].log`, with whatever the others wrote meanwhile. */
  ghost predicate Reconciles(siblings: seq<Sibling>, n: nat, cycles: seq<Cycle>, flags: seq<Flags>, logs: seq<Log>) {
    && siblings != [] && |flags| == |logs| == |cycles| + 1
    && (forall k :: 0 <= k <= |cycles| ==> Known(siblings, flags[k]))
    && (forall k :: 0 <= k < |cycles| ==> SameAlerts(logs[k], cycles[k].log, SiteKey(siblings)))
    && (forall k :: 0 <= k < |cycles| ==>
          Reconciled(cycles[k].checks, siblings, cycles[k].windows, cycles[k].now, n, cycles[k].since,
                     flags[k], flags[k + 1], cycles[k].log, logs[k + 1]))
  }

  /** The siblings agree, and the site has one open alert while they are critical, else none. */
  ghost predicate InStep(siblings: seq<Sibling>, flags: Flags, log: Log)
    requires Known(siblings, flags)
  {
    Agree(siblings, flags) && OpenCount(log, SiteKey(siblings)) == if flags[siblings[0].name] then 1 else 0
  }

  /** Over any run of steps, through any checks and windows, siblings and alert stay in step,
      and alerts and recoveries alternate: each alert but the open one has its recovery. */
  lemma {:induction false} AlertsAlternate(
    siblings: seq<Sibling>, n: nat, cycles: seq<Cycle>, flags: seq<Flags>, logs: seq<Log>, k: nat)
    requires Reconciles(siblings, n, cycles, flags, logs) && k <= |cycles|
    requires InStep(siblings, flags[0], logs[0])
    ensures InStep(siblings, flags[k], logs[k])
    ensures
      var key := SiteKey(siblings);
      Incidents(logs[k], key) - Recoveries(logs[k], key) - OpenCount(logs[k], key) ==
      Incidents(logs[0], key) - Recoveries(logs[0], key) - OpenCount(logs[0], key)
  {
    if k > 0 {
      var j, key := k - 1, SiteKey(siblings);
      AlertsAlternate(siblings, n, cycles, flags, logs, j);
      var c := cycles[j];
      assert SameAlerts(logs[j], c.log, key);
      assert Reconciled(c.checks, siblings, c.windows, c.now, n, c.since, flags[j], flags[j + 1], c.log, logs[j + 1]);
      SiblingsAgreeAfter(c.checks, siblings, c.windows, c.now, n, c.since, flags[j], flags[k], c.log, logs[k]);
      TransitionCounts(c.log, flags[j][siblings[0].name], Unanimous(c.checks, siblings, n, c.since), key, true, key);
    }
  }

  /** While an incident lasts, or a window covers it, a reconcile step changes no flag, agreed or
      not, and adds nothing to the log. */
  lemma {:induction false} IncidentFreezesFlags(
    checks: seq<Check>, siblings: seq<Sibling>, windows: seq<Window>, now: int, n: nat, since: Option<int>,
    before: Flags, after: Flags, log: Log, log': Log)
    requires Known(siblings, before)
    requires Reconciled(checks, siblings, windows, now, n, since, before, after, log, log')
    requires before[siblings[0].name] && OpenCount(log, SiteKey(siblings)) > 0
    requires Unanimous(checks, siblings, n, since) || exists i :: 0 <= i < |windows| && Covers(windows[i], now)
    ensures after == before && log' == log
  {
  }

  lemma {:induction false} IncidentStands(
    checks: seq<Check>, siblings: seq<Sibling>, now: int, n: nat, flags: Flags, log: Log)
    requires Known(siblings, flags) && flags[siblings[0].name]
    requires Unanimous(checks, siblings, n, None) && OpenCount(log, SiteKey(siblings)) > 0
    ensures Reconciled(checks, siblings, [], now, n, None, flags, flags, log, log)
  {
  }

  lemma {:induction false} OneCheckVotes(c: Check, site: string, checks: seq<Check>)
    requires checks == [c] && !c.up && !c.inMaintenance
    ensures Verdict(checks, site, 1, None) == if c.site == site then Some(true) else None
  {
    assert checks[..0] == [];
    assert Counted(checks[..0], site, None) == [];
    assert Downs(checks[..0]) == 0;
    assert Counted(checks, site, None) == if c.site == site then checks else [];
  }

  lemma {:induction false} OneVoterOfTwo(a: string, b: string, siblings: seq<Sibling>, c: Check, checks: seq<Check>)
    requires a != b && siblings == [Sibling(a, true), Sibling(b, true)]
    requires checks == [c] && c.site == a && !c.up && !c.inMaintenance
    ensures Unanimous(checks, siblings, 1, None)
  {
    OneCheckVotes(c, a, checks);
    OneCheckVotes(c, b, checks);
    TwoBallots(Ballots(checks, siblings, 1, None));
    BallotsDecide(checks, siblings, 1, None);
  }

  lemma {:induction false} TwoBallots(b: seq<Option<bool>>)
    requires b == [Some(true), None]
    ensures (exists i :: 0 <= i < |b| && b[i].Some?) && forall i :: 0 <= i < |b| && b[i].Some? ==> b[i].value
  {
    assert b[0].Some?;
  }

  /** So a sibling `b` added during an incident of `a` keeps its own flag as long as it has no vote,
      here with an alert window of one check. */
  lemma {:induction false} NewSiblingStaysOut(
    a: string, b: string, siblings: seq<Sibling>, c: Check, flags: Flags, log: Log, now: int)
    requires a != b && siblings == [Sibling(a, true), Sibling(b, true)]
    requires c.site == a && !c.up && !c.inMaintenance
    requires flags == map[a := true, b := false] && OpenCount(log, SiteKey(siblings)) == 1
    ensures Reconciled([c], siblings, [], now, 1, None, flags, flags, log, log)
    ensures !Agree(siblings, flags)
  {
    assert Unanimous([c], siblings, 1, None) by {
      OneVoterOfTwo(a, b, siblings, c, [c]);
    }
    IncidentStands([c], siblings, now, 1, flags, log);
    assert flags[siblings[1].name] != flags[siblings[0].name];
  }
}
