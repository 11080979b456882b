/**
 Confirmed severity of a guest or datastore (`_track_severity` and its use in
 `_upsert_guest` and `_upsert_datastore`, tasks/poller.py).
 */
module Severity {
  import opened Wrappers
  import opened AlertLog

  /** `checks` is `confirmation_checks`: the settings allow no negative value and 0 means the default 3. */
  datatype Thresholds = Thresholds(warning: real, critical: real, checks: nat)

  ghost predicate Configured(t: Thresholds) {
    t.checks >= 1
  }

  /** The fields of a guest or datastore record the checks read and write. */
  datatype Doc = Doc(criticalStreak: nat, warningStreak: nat, isCritical: bool, isWarning: bool)

  const NEW_DOC := Doc(0, 0, false, false)

  /** The reading a guest is judged by: its worst metric. */
  function Reading(cpu: real, memory: real, disk: Option<real>): (v: real)
    ensures v >= cpu && v >= memory && (disk.Some? ==> v >= disk.value)
    ensures v == cpu || v == memory || disk == Some(v)
  {
    var m := if cpu < memory then memory else cpu;
    if disk.Some? && m < disk.value then disk.value else m
  }

  function Tracked(d: Doc, v: real, t: Thresholds): Doc {
    var c := if v >= t.critical then d.criticalStreak + 1 else 0;
    var w := if v >= t.warning then d.warningStreak + 1 else 0;
    Doc(c, w, c >= t.checks, w >= t.checks && c < t.checks)
  }

  datatype Monitored = Monitored(doc: Doc, log: Log)

  function CriticalKey(doctype: string, name: string): Key {
    Key(doctype, name, "Critical Resource")
  }

  function WarningKey(doctype: string, name: string): Key {
    Key(doctype, name, "Resource Warning")
  }

  /** One reading: track, store the flags, then alert on both transitions. */
  function Observed(m: Monitored, v: real, t: Thresholds, doctype: string, name: string): Monitored {
    var d := Tracked(m.doc, v, t);
    var log := Transition(m.log, m.doc.isCritical, d.isCritical, CriticalKey(doctype, name), true);
    Monitored(d, Transition(log, m.doc.isWarning, d.isWarning, WarningKey(doctype, name), false))
  }

  /** `ms[k]` is the state after the first `k` readings.  All documents share one log: before
      each reading it has become `logs[k]`, with whatever the others wrote meanwhile. */
  ghost predicate History(
    ms: seq<Monitored>, logs: seq<Log>, h: seq<real>, t: Thresholds, doctype: string, name: string)
  {
    && |ms| == |h| + 1 && |logs| == |h|
    && (forall k :: 0 <= k < |h| ==>
          SameAlerts(ms[k].log, logs[k], CriticalKey(doctype, name)) &&
            SameAlerts(ms[k].log, logs[k], WarningKey(doctype, name)))
    && (forall k :: 0 <= k < |h| ==> ms[k + 1] == Observed(Monitored(ms[k].doc, logs[k]), h[k], t, doctype, name))
  }

  /** A guest or datastore record, updated in place. */
  class Resource {
    const doctype: string
    const name: string
    var criticalStreak: nat
    var warningStreak: nat
    var isCritical: bool
    var isWarning: bool

    ghost function Value(): Doc
      reads this
    {
      Doc(criticalStreak, warningStreak, isCritical, isWarning)
    }

    constructor (doctype: string, name: string)
      ensures Value() == NEW_DOC && this.doctype == doctype && this.name == name
    {
      this.doctype, this.name := doctype, name;
      criticalStreak, warningStreak, isCritical, isWarning := 0, 0, false, false;
    }

    method TrackSeverity(v: real, t: Thresholds) returns (critical: bool, warning: bool)
      modifies this`criticalStreak, this`warningStreak
      ensures Tracked(old(Value()), v, t) == Doc(criticalStreak, warningStreak, critical, warning)
    {
      criticalStreak := if v >= t.critical then criticalStreak + 1 else 0;
      warningStreak := if v >= t.warning then warningStreak + 1 else 0;
      critical := criticalStreak >= t.checks;
      warning := warningStreak >= t.checks && !critical;
    }

    method Upsert(v: real, t: Thresholds, ledger: Ledger)
      modifies this, ledger
      ensures Monitored(Value(), ledger.rows) ==
        Observed(Monitored(old(Value()), old(ledger.rows)), v, t, doctype, name)
    {
      var oldCritical, oldWarning := isCritical, isWarning;
      var critical, warning := TrackSeverity(v, t);
      isCritical, isWarning := critical, warning;
      ledger.HandleTransition(oldCritical, critical, CriticalKey(doctype, name), true);
      ledger.HandleTransition(oldWarning, warning, WarningKey(doctype, name), false);
    }
  }

  // ---------------------------------------------------------------------------
  // The declarative reading of a history
  // ---------------------------------------------------------------------------

  /** The last `checks` of the first `n` readings are all at or above the line. */
  ghost predicate Confirmed(h: seq<real>, n: nat, line: real, checks: nat)
    requires n <= |h|
  {
    checks <= n && forall k :: n - checks <= k < n ==> h[k] >= line
  }

  /** A run of readings at or above the line starts at `i` and reaches `checks`. */
  ghost predicate ConfirmedRunAt(h: seq<real>, i: nat, line: real, checks: nat) {
    && i + checks <= |h|
    && (forall k :: i <= k < i + checks ==> h[k] >= line)
    && (i > 0 ==> h[i - 1] < line)
  }

  /** The maximal runs that reach `checks`, each named by where it starts. */
  ghost function ConfirmedRuns(h: seq<real>, line: real, checks: nat): set<nat> {
    set i: nat | 0 <= i <= |h| && ConfirmedRunAt(h, i, line, checks)
  }

  /** Those of them that are over: some later reading fell below the line. */
  ghost function EndedRuns(h: seq<real>, line: real, checks: nat): set<nat> {
    set i: nat | 0 <= i <= |h| && ConfirmedRunAt(h, i, line, checks) && exists k :: i + checks <= k < |h| && h[k] < line
  }

  /** `streak` readings at the end are at or above the line, and no more. */
  ghost predicate Trailing(h: seq<real>, streak: nat, line: real) {
    && streak <= |h|
    && (forall k :: |h| - streak <= k < |h| ==> h[k] >= line)
    && (streak < |h| ==> h[|h| - streak - 1] < line)
  }

  /** The points at which Warning, but not Critical, becomes confirmed. */
  ghost function WarningOnsets(h: seq<real>, t: Thresholds): set<nat> {
    set n: nat | 0 <= n <= |h| && WarningOnsetAt(h, n, t)
  }

  ghost predicate WarningOnsetAt(h: seq<real>, n: nat, t: Thresholds)
    requires n <= |h|
  {
    n >= 1 && WarningAt(h, n, t) && !WarningAt(h, n - 1, t)
  }

  ghost predicate WarningAt(h: seq<real>, n: nat, t: Thresholds)
    requires n <= |h|
  {
    Confirmed(h, n, t.warning, t.checks) && !Confirmed(h, n, t.critical, t.checks)
  }

  lemma {:induction false} TrailingConfirms(h: seq<real>, streak: nat, line: real, checks: nat)
    requires Trailing(h, streak, line) && checks >= 1
    ensures Confirmed(h, |h|, line, checks) <==> streak >= checks
  {
    if streak < checks && checks <= |h| {
      assert h[|h| - streak - 1] < line;
    }
  }

  /** The runs that have not ended are the trailing one, if it is confirmed. */
  lemma {:induction false} UnendedRun(h: seq<real>, streak: nat, line: real, checks: nat)
    requires Trailing(h, streak, line) && checks >= 1
    ensures EndedRuns(h, line, checks) ==
      ConfirmedRuns(h, line, checks) - (if streak >= checks then {|h| - streak} else {})
    ensures streak >= checks ==> |h| - streak in ConfirmedRuns(h, line, checks)
  {
    forall i: nat | i in ConfirmedRuns(h, line, checks)
      ensures i in EndedRuns(h, line, checks) <==> !(streak >= checks && i == |h| - streak)
    {
      if i + checks <= |h| - streak - 1 {
        assert h[|h| - streak - 1] < line;
      }
    }
  }

  /** One more reading starts at most one more confirmed run. */
  lemma {:induction false} RunsGrow(h: seq<real>, v: real, streak: nat, line: real, checks: nat)
    requires Trailing(h, streak, line) && checks >= 1
    ensures
      var streak' := if v >= line then streak + 1 else 0;
      && Trailing(h + [v], streak', line)
      && ConfirmedRuns(h + [v], line, checks) ==
         ConfirmedRuns(h, line, checks) + (if streak' == checks then {|h| + 1 - checks} else {})
  {
    var g := h + [v];
    var streak' := if v >= line then streak + 1 else 0;
    assert forall k :: 0 <= k < |h| ==> g[k] == h[k];
    assert Trailing(g, streak', line);
    forall i: nat | i <= |g|
      ensures ConfirmedRunAt(g, i, line, checks) <==>
        ConfirmedRunAt(h, i, line, checks) || (streak' == checks && i == |h| + 1 - checks)
    {
      if i + checks <= |h| {
        assert ConfirmedRunAt(g, i, line, checks) <==> ConfirmedRunAt(h, i, line, checks);
      } else if i + checks == |h| + 1 {
        if streak' < checks && v >= line {
          assert g[|g| - streak' - 1] < line;
        } else if streak' > checks {
          assert i > 0 && g[i - 1] >= line;
        } else if streak' == checks && i > 0 {
          assert g[|g| - streak' - 1] < line;
        }
      }
    }
  }

  /** How one more reading changes the number of confirmed and of ended runs. */
  lemma {:induction false} RunCounts(h: seq<real>, v: real, streak: nat, line: real, checks: nat)
    requires Trailing(h, streak, line) && checks >= 1
    ensures
      var streak' := if v >= line then streak + 1 else 0;
      && |ConfirmedRuns(h + [v], line, checks)| ==
        |ConfirmedRuns(h, line, checks)| + (if streak < checks <= streak' then 1 else 0)
      && |EndedRuns(h + [v], line, checks)| ==
        |EndedRuns(h, line, checks)| + (if streak' < checks <= streak then 1 else 0)
  {
    var streak' := if v >= line then streak + 1 else 0;
    RunsGrow(h, v, streak, line, checks);
    UnendedRun(h, streak, line, checks);
    UnendedRun(h + [v], streak', line, checks);
    assert |h| + 1 - checks !in ConfirmedRuns(h, line, checks);
  }

  /** The record's own part of one reading. */
  lemma {:induction false} DocStep(
    ms: seq<Monitored>, logs: seq<Log>, h: seq<real>, t: Thresholds, doctype: string, name: string, k: nat)
    requires History(ms, logs, h, t, doctype, name) && k < |h|
    ensures ms[k + 1].doc == Tracked(ms[k].doc, h[k], t)
  {
    assert ms[k + 1] == Observed(Monitored(ms[k].doc, logs[k]), h[k], t, doctype, name);
  }

  /** The incremental state after a whole history is the declarative one. */
  lemma {:induction false} StreaksAreTrailingRuns(
    ms: seq<Monitored>, logs: seq<Log>, h: seq<real>, t: Thresholds, doctype: string, name: string, n: nat)
    requires History(ms, logs, h, t, doctype, name) && ms[0].doc == NEW_DOC && n <= |h|
    ensures Trailing(h[..n], ms[n].doc.criticalStreak, t.critical)
    ensures Trailing(h[..n], ms[n].doc.warningStreak, t.warning)
  {
    if n > 0 {
      var k := n - 1;
      StreaksAreTrailingRuns(ms, logs, h, t, doctype, name, k);
      DocStep(ms, logs, h, t, doctype, name, k);
      StreaksGrow(ms[k].doc, h, k, t);
    }
  }

  lemma {:induction false} StreaksGrow(d: Doc, h: seq<real>, k: nat, t: Thresholds)
    requires k < |h| && Trailing(h[..k], d.criticalStreak, t.critical) && Trailing(h[..k], d.warningStreak, t.warning)
    ensures Trailing(h[..k + 1], Tracked(d, h[k], t).criticalStreak, t.critical)
    ensures Trailing(h[..k + 1], Tracked(d, h[k], t).warningStreak, t.warning)
  {
    assert h[..k + 1] == h[..k] + [h[k]];
    TrailingGrows(h[..k], h[k], d.criticalStreak, t.critical);
    TrailingGrows(h[..k], h[k], d.warningStreak, t.warning);
  }

  lemma {:induction false} TrailingGrows(h: seq<real>, v: real, streak: nat, line: real)
    requires Trailing(h, streak, line)
    ensures Trailing(h + [v], if v >= line then streak + 1 else 0, line)
  {
    assert forall k :: 0 <= k < |h| ==> (h + [v])[k] == h[k];
  }

  /** Each flag says exactly that its line was kept for the last `checks` readings. */
  lemma {:induction false} FlagsAreConfirmed(
    ms: seq<Monitored>, logs: seq<Log>, h: seq<real>, t: Thresholds, doctype: string, name: string, n: nat)
    requires History(ms, logs, h, t, doctype, name) && ms[0].doc == NEW_DOC && n <= |h| && Configured(t)
    ensures ms[n].doc.isCritical <==> Confirmed(h[..n], n, t.critical, t.checks)
    ensures ms[n].doc.isWarning <==> WarningAt(h[..n], n, t)
  {
    var d := ms[n].doc;
    StreaksAreTrailingRuns(ms, logs, h, t, doctype, name, n);
    TrailingConfirms(h[..n], d.criticalStreak, t.critical, t.checks);
    TrailingConfirms(h[..n], d.warningStreak, t.warning, t.checks);
    FlagsAreStreaks(ms, logs, h, t, doctype, name, n);
  }

  lemma {:induction false} FlagsAreStreaks(
    ms: seq<Monitored>, logs: seq<Log>, h: seq<real>, t: Thresholds, doctype: string, name: string, n: nat)
    requires History(ms, logs, h, t, doctype, name) && ms[0].doc == NEW_DOC && n <= |h| && Configured(t)
    ensures
      var d := ms[n].doc;
      && d.isCritical == (d.criticalStreak >= t.checks)
      && d.isWarning == (d.warningStreak >= t.checks && d.criticalStreak < t.checks)
  {
    if n > 0 {
      DocStep(ms, logs, h, t, doctype, name, n - 1);
    }
  }

  // ---------------------------------------------------------------------------
  // Alerts and recoveries over any history
  // ---------------------------------------------------------------------------

  /** In a log nobody else edits, an alert is open exactly while its flag is set. */
  ghost predicate InStep(m: Monitored, doctype: string, name: string) {
    && OpenCount(m.log, CriticalKey(doctype, name)) == (if m.doc.isCritical then 1 else 0)
    && OpenCount(m.log, WarningKey(doctype, name)) == (if m.doc.isWarning then 1 else 0)
  }

  /** What one reading adds to the log, while flags and open alerts are in step. */
  lemma {:induction false} ObservedCounts(m: Monitored, v: real, t: Thresholds, doctype: string, name: string)
    requires InStep(m, doctype, name)
    ensures
      var m' := Observed(m, v, t, doctype, name);
      var (c, w) := (CriticalKey(doctype, name), WarningKey(doctype, name));
      && InStep(m', doctype, name)
      && Incidents(m'.log, c) == Incidents(m.log, c) + (if m'.doc.isCritical && !m.doc.isCritical then 1 else 0)
      && Recoveries(m'.log, c) == Recoveries(m.log, c) + (if m.doc.isCritical && !m'.doc.isCritical then 1 else 0)
      && Incidents(m'.log, w) == Incidents(m.log, w) + (if m'.doc.isWarning && !m.doc.isWarning then 1 else 0)
      && Recoveries(m'.log, w) == Recoveries(m.log, w)
  {
    var d := Tracked(m.doc, v, t);
    var (c, w) := (CriticalKey(doctype, name), WarningKey(doctype, name));
    assert c != w by {
      assert c.alertType[0] == 'C' && w.alertType[0] == 'R';
    }
    var log := Transition(m.log, m.doc.isCritical, d.isCritical, c, true);
    TransitionCounts(m.log, m.doc.isCritical, d.isCritical, c, true, c);
    TransitionCounts(m.log, m.doc.isCritical, d.isCritical, c, true, w);
    TransitionCounts(log, m.doc.isWarning, d.isWarning, w, false, c);
    TransitionCounts(log, m.doc.isWarning, d.isWarning, w, false, w);
  }

  /** No two documents, and no two tiers, share an alert. */
  lemma {:induction false} KeysAreOwn(doctype: string, name: string, doctype': string, name': string)
    ensures CriticalKey(doctype, name) != WarningKey(doctype', name')
    ensures CriticalKey(doctype, name) == CriticalKey(doctype', name') ==> doctype == doctype' && name == name'
    ensures WarningKey(doctype, name) == WarningKey(doctype', name') ==> doctype == doctype' && name == name'
  {
    var (c, w) := (CriticalKey(doctype, name), WarningKey(doctype', name'));
    assert c.alertType[0] == 'C' && w.alertType[0] == 'R';
  }

  /** A record and a log in which this document has no alert yet. */
  ghost predicate Fresh(m: Monitored, doctype: string, name: string) {
    && m.doc == NEW_DOC
    && forall k: Key :: k.doctype == doctype && k.name == name ==>
         Incidents(m.log, k) == 0 && Recoveries(m.log, k) == 0 && OpenCount(m.log, k) == 0
  }

  /** What one reading of a history adds to the alerts of this document. */
  lemma {:induction false} ReadingCounts(
    ms: seq<Monitored>, logs: seq<Log>, h: seq<real>, t: Thresholds, doctype: string, name: string, k: nat)
    requires History(ms, logs, h, t, doctype, name) && k < |h| && InStep(ms[k], doctype, name)
    ensures
      var (m, m', c, w) := (ms[k], ms[k + 1], CriticalKey(doctype, name), WarningKey(doctype, name));
      && InStep(m', doctype, name)
      && Incidents(m'.log, c) == Incidents(m.log, c) + (if m'.doc.isCritical && !m.doc.isCritical then 1 else 0)
      && Recoveries(m'.log, c) == Recoveries(m.log, c) + (if m.doc.isCritical && !m'.doc.isCritical then 1 else 0)
      && Incidents(m'.log, w) == Incidents(m.log, w) + (if m'.doc.isWarning && !m.doc.isWarning then 1 else 0)
      && Recoveries(m'.log, w) == Recoveries(m.log, w)
  {
    assert SameAlerts(ms[k].log, logs[k], CriticalKey(doctype, name)) &&
      SameAlerts(ms[k].log, logs[k], WarningKey(doctype, name));
    assert ms[k + 1] == Observed(Monitored(ms[k].doc, logs[k]), h[k], t, doctype, name);
    ObservedCounts(Monitored(ms[k].doc, logs[k]), h[k], t, doctype, name);
  }

  /** While nobody else touches this document's alerts, they and its flags stay in step. */
  lemma {:induction false} HistoryInStep(
    ms: seq<Monitored>, logs: seq<Log>, h: seq<real>, t: Thresholds, doctype: string, name: string, n: nat)
    requires History(ms, logs, h, t, doctype, name) && Fresh(ms[0], doctype, name) && n <= |h|
    ensures InStep(ms[n], doctype, name)
  {
    if n > 0 {
      HistoryInStep(ms, logs, h, t, doctype, name, n - 1);
      ReadingCounts(ms, logs, h, t, doctype, name, n - 1);
    }
  }

  /** Critical alerts are the confirmed runs; recoveries are those of them that ended. */
  lemma {:induction false} AlertsAreConfirmedRuns(
    ms: seq<Monitored>, logs: seq<Log>, h: seq<real>, t: Thresholds, doctype: string, name: string, n: nat)
    requires History(ms, logs, h, t, doctype, name) && Fresh(ms[0], doctype, name) && n <= |h| && Configured(t)
    ensures Incidents(ms[n].log, CriticalKey(doctype, name)) == |ConfirmedRuns(h[..n], t.critical, t.checks)|
    ensures Recoveries(ms[n].log, CriticalKey(doctype, name)) == |EndedRuns(h[..n], t.critical, t.checks)|
  {
    if n == 0 {
      assert ConfirmedRuns(h[..n], t.critical, t.checks) == {};
      assert EndedRuns(h[..n], t.critical, t.checks) == {};
    } else {
      var k := n - 1;
      assert h[..n] == h[..k] + [h[k]];
      AlertsAreConfirmedRuns(ms, logs, h, t, doctype, name, k);
      HistoryInStep(ms, logs, h, t, doctype, name, k);
      ReadingCounts(ms, logs, h, t, doctype, name, k);
      StreaksAreTrailingRuns(ms, logs, h, t, doctype, name, k);
      FlagsAreStreaks(ms, logs, h, t, doctype, name, k);
      FlagsAreStreaks(ms, logs, h, t, doctype, name, n);
      RunCounts(h[..k], h[k], ms[k].doc.criticalStreak, t.critical, t.checks);
      DocStep(ms, logs, h, t, doctype, name, k);
    }
  }

  lemma {:induction false} ConfirmedPrefix(g: seq<real>, v: real, n: nat, line: real, checks: nat)
    requires n <= |g|
    ensures Confirmed(g + [v], n, line, checks) == Confirmed(g, n, line, checks)
  {
    assert forall k :: 0 <= k < n ==> (g + [v])[k] == g[k];
  }

  lemma {:induction false} WarningPrefix(g: seq<real>, v: real, n: nat, t: Thresholds)
    requires n <= |g|
    ensures WarningAt(g + [v], n, t) == WarningAt(g, n, t)
  {
    ConfirmedPrefix(g, v, n, t.warning, t.checks);
    ConfirmedPrefix(g, v, n, t.critical, t.checks);
  }

  lemma {:induction false} OnsetPrefix(g: seq<real>, v: real, n: nat, t: Thresholds)
    requires n <= |g|
    ensures WarningOnsetAt(g + [v], n, t) == WarningOnsetAt(g, n, t)
  {
    WarningPrefix(g, v, n, t);
    if n >= 1 {
      WarningPrefix(g, v, n - 1, t);
    }
  }

  lemma {:induction false} OnsetsGrow(g: seq<real>, v: real, t: Thresholds)
    ensures |WarningOnsets(g + [v], t)| == |WarningOnsets(g, t)| + if WarningOnsetAt(g + [v], |g| + 1, t) then 1 else 0
  {
    forall n: nat | n <= |g|
      ensures WarningOnsetAt(g + [v], n, t) == WarningOnsetAt(g, n, t)
    {
      OnsetPrefix(g, v, n, t);
    }
    assert WarningOnsets(g + [v], t) ==
      WarningOnsets(g, t) + if WarningOnsetAt(g + [v], |g| + 1, t) then {|g| + 1} else {};
  }

  /** Warning alerts are the onsets of "Warning but not Critical", and no recovery is ever logged for them. */
  lemma {:induction false} WarningsAreOnsets(
    ms: seq<Monitored>, logs: seq<Log>, h: seq<real>, t: Thresholds, doctype: string, name: string, n: nat)
    requires History(ms, logs, h, t, doctype, name) && Fresh(ms[0], doctype, name) && n <= |h| && Configured(t)
    ensures Incidents(ms[n].log, WarningKey(doctype, name)) == |WarningOnsets(h[..n], t)|
    ensures Recoveries(ms[n].log, WarningKey(doctype, name)) == 0
  {
    if n == 0 {
      assert WarningOnsets(h[..n], t) == {};
    } else {
      var k := n - 1;
      assert h[..n] == h[..k] + [h[k]];
      WarningsAreOnsets(ms, logs, h, t, doctype, name, k);
      HistoryInStep(ms, logs, h, t, doctype, name, k);
      ReadingCounts(ms, logs, h, t, doctype, name, k);
      FlagsAreConfirmed(ms, logs, h, t, doctype, name, k);
      FlagsAreConfirmed(ms, logs, h, t, doctype, name, n);
      WarningPrefix(h[..k], h[k], k, t);
      OnsetsGrow(h[..k], h[k], t);
    }
  }
}
