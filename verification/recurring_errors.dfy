/**
 The recurring-error ledger: the breach, alert and recover passes of
 tasks/log_monitor.py, and the two other writers of the same record,
 `resolve_error` and `set_error_ignored` of log_monitor/api.py.

 An error is known by its signature, and its record's name is built from it.
 Times are in seconds.
 */
module RecurringErrors {
  import opened Wrappers
  import opened AlertLog

  const MAX_GROUPS := 500

  type Signature = string

  datatype ErrorRecord = ErrorRecord(
    critical: bool, ignored: bool, resolvedAt: Option<int>, windowCount: nat, peakCount: nat, alertCount: nat)

  const NEW_RECORD := ErrorRecord(false, false, None, 0, 0, 0)

  type Records = map<Signature, ErrorRecord>

  /** The stored record, or a new one. */
  function RecordOf(records: Records, sig: Signature): ErrorRecord {
    if sig in records then records[sig] else NEW_RECORD
  }

  function ErrorKey(sig: Signature): Key {
    Key("Recurring Error", "RE-" + sig, "Recurring Error")
  }

  lemma {:induction false} KeysDiffer(a: Signature, b: Signature)
    requires ErrorKey(a) == ErrorKey(b)
    ensures a == b
  {
    assert ("RE-" + a)[3..] == a && ("RE-" + b)[3..] == b;
  }

  // ---------------------------------------------------------------------------
  // The query
  // ---------------------------------------------------------------------------

  /** One error row in ClickHouse. */
  datatype Occurrence = Occurrence(sig: Signature, at: int)

  datatype Settings = Settings(threshold: nat, windowMinutes: nat)

  /** The row counts for its signature: inside the window, not before a manual resolution, not ignored. */
  predicate Counts(o: Occurrence, sig: Signature, r: ErrorRecord, now: int, s: Settings) {
    && o.sig == sig && now - s.windowMinutes * 60 <= o.at < now + 1
    && (r.resolvedAt.Some? ==> o.at > r.resolvedAt.value)
    && !r.ignored
  }

  function CountOf(occs: seq<Occurrence>, sig: Signature, r: ErrorRecord, now: int, s: Settings): nat {
    if occs == [] then 0
    else CountOf(occs[..|occs| - 1], sig, r, now, s) + if Counts(occs[|occs| - 1], sig, r, now, s) then 1 else 0
  }

  predicate Breaches(occs: seq<Occurrence>, sig: Signature, r: ErrorRecord, now: int, s: Settings) {
    CountOf(occs, sig, r, now, s) >= s.threshold
  }

  /** `found` is an answer of the query: the breaching signatures with their counts, the
      largest ones when there are more than the group limit. */
  ghost predicate Answers(found: map<Signature, nat>, records: Records, occs: seq<Occurrence>, now: int, s: Settings) {
    && s.threshold >= 1 && |found| <= MAX_GROUPS
    && (forall sig :: sig in found ==>
          found[sig] == CountOf(occs, sig, RecordOf(records, sig), now, s) &&
            Breaches(occs, sig, RecordOf(records, sig), now, s))
    && (forall sig :: sig !in found && Breaches(occs, sig, RecordOf(records, sig), now, s) ==>
          |found| == MAX_GROUPS && forall x :: x in found ==>
            found[x] >= CountOf(occs, sig, RecordOf(records, sig), now, s))
  }

  lemma {:induction false} IgnoredCountsNothing(
    occs: seq<Occurrence>, sig: Signature, r: ErrorRecord, now: int, s: Settings)
    requires r.ignored
    ensures CountOf(occs, sig, r, now, s) == 0
  {
    if occs != [] {
      IgnoredCountsNothing(occs[..|occs| - 1], sig, r, now, s);
    }
  }

  /** No ignored signature is ever found. */
  lemma {:induction false} FoundAreNotIgnored(
    found: map<Signature, nat>, records: Records, occs: seq<Occurrence>, now: int, s: Settings, sig: Signature)
    requires Answers(found, records, occs, now, s) && sig in found
    ensures !RecordOf(records, sig).ignored
  {
    if RecordOf(records, sig).ignored {
      IgnoredCountsNothing(occs, sig, RecordOf(records, sig), now, s);
    }
  }

  // ---------------------------------------------------------------------------
  // Steps
  // ---------------------------------------------------------------------------

  datatype Book = Book(records: Records, log: Log)

  /** A breaching signature that is not critical yet, or has lost its open alert, is alerted. */
  predicate NeedsAlert(w: Book, sig: Signature) {
    !RecordOf(w.records, sig).critical || OpenCount(w.log, ErrorKey(sig)) == 0
  }

  function MarkedCritical(r: ErrorRecord, count: nat, alerted: bool): ErrorRecord {
    r.(critical := true, windowCount := count, peakCount := if r.peakCount < count then count else r.peakCount,
       alertCount := if alerted then r.alertCount + 1 else r.alertCount)
  }

  function Alerted(w: Book, sig: Signature, count: nat): Book {
    Book(w.records[sig := MarkedCritical(RecordOf(w.records, sig), count, NeedsAlert(w, sig))],
          if NeedsAlert(w, sig) then Dispatched(w.log, ErrorKey(sig)) else w.log)
  }

  /** Close the open alert of an error, if there is one, and say so. */
  function AlertClosed(log: Log, sig: Signature, announces: bool): Log {
    if OpenCount(log, ErrorKey(sig)) == 0 then log
    else
      var closed := Closed(log, ErrorKey(sig));
      if announces then Recovered(closed, ErrorKey(sig)) else closed
  }

  function Relieved(w: Book, sig: Signature): Book {
    Book(w.records[sig := RecordOf(w.records, sig).(critical := false, windowCount := 0)],
         AlertClosed(w.log, sig, true))
  }

  function ManuallyResolved(w: Book, sig: Signature, now: int): Book {
    Book(w.records[sig := RecordOf(w.records, sig).(critical := false, windowCount := 0, resolvedAt := Some(now))],
          AlertClosed(w.log, sig, true))
  }

  function IgnoreSet(w: Book, sig: Signature, ignored: bool): Book {
    var r := RecordOf(w.records, sig);
    if ignored then
      Book(w.records[sig := r.(ignored := true, critical := false, windowCount := 0)], AlertClosed(w.log, sig, false))
    else Book(w.records[sig := r.(ignored := false)], w.log)
  }

  /** What the alert pass does to a breaching signature. */
  ghost predicate AlertEffect(w: Book, w': Book, sig: Signature, count: nat) {
    var (key, more) := (ErrorKey(sig), if NeedsAlert(w, sig) then 1 else 0);
    && RecordOf(w'.records, sig) == MarkedCritical(RecordOf(w.records, sig), count, NeedsAlert(w, sig))
    && OpenCount(w'.log, key) == OpenCount(w.log, key) + more
    && Incidents(w'.log, key) == Incidents(w.log, key) + more
    && Recoveries(w'.log, key) == Recoveries(w.log, key)
  }

  /** What the recover pass does to a critical signature that no longer breaches. */
  ghost predicate RelieveEffect(w: Book, w': Book, sig: Signature) {
    var key := ErrorKey(sig);
    && RecordOf(w'.records, sig) == RecordOf(w.records, sig).(critical := false, windowCount := 0)
    && OpenCount(w'.log, key) == 0
    && Incidents(w'.log, key) == Incidents(w.log, key)
    && Recoveries(w'.log, key) == Recoveries(w.log, key) + (if OpenCount(w.log, key) > 0 then 1 else 0)
  }

  ghost predicate NoEffect(w: Book, w': Book, sig: Signature) {
    RecordOf(w'.records, sig) == RecordOf(w.records, sig) && SameAlerts(w.log, w'.log, ErrorKey(sig))
  }

  /** The signatures the recover pass takes: critical, not ignored, not breaching. */
  predicate Recovers(r: ErrorRecord, sig: Signature, found: map<Signature, nat>) {
    r.critical && !r.ignored && sig !in found
  }

  /** A whole check, seen from every signature and from every alert of something else. */
  ghost predicate CheckStep(w: Book, w': Book, found: map<Signature, nat>) {
    && (forall sig :: sig in found ==> AlertEffect(w, w', sig, found[sig]))
    && (forall sig :: Recovers(RecordOf(w.records, sig), sig, found) ==> RelieveEffect(w, w', sig))
    && (forall sig :: sig !in found && !Recovers(RecordOf(w.records, sig), sig, found) ==> NoEffect(w, w', sig))
    && (forall key: Key :: key.doctype != "Recurring Error" ==> SameAlerts(w.log, w'.log, key))
  }

  lemma {:induction false} AlertedEffects(w: Book, sig: Signature, count: nat)
    ensures AlertEffect(w, Alerted(w, sig, count), sig, count)
    ensures forall other :: other != sig ==> NoEffect(w, Alerted(w, sig, count), other)
    ensures forall key: Key :: key.doctype != "Recurring Error" ==> SameAlerts(w.log, Alerted(w, sig, count).log, key)
  {
    forall key: Key
      ensures key != ErrorKey(sig) ==> SameAlerts(w.log, Alerted(w, sig, count).log, key)
    {
      AppendCounts(w.log, Alert(ErrorKey(sig), false, false), key);
    }
    AppendCounts(w.log, Alert(ErrorKey(sig), false, false), ErrorKey(sig));
    OthersUntouched(w, Alerted(w, sig, count), sig);
  }

  lemma {:induction false} OthersUntouched(w: Book, w': Book, sig: Signature)
    requires forall other :: other != sig ==> RecordOf(w'.records, other) == RecordOf(w.records, other)
    requires forall key: Key :: key != ErrorKey(sig) ==> SameAlerts(w.log, w'.log, key)
    ensures forall other :: other != sig ==> NoEffect(w, w', other)
  {
    forall other | other != sig
      ensures ErrorKey(other) != ErrorKey(sig)
    {
      if ErrorKey(other) == ErrorKey(sig) {
        KeysDiffer(other, sig);
      }
    }
  }

  lemma {:induction false} AlertClosedCounts(log: Log, sig: Signature, announces: bool, key: Key)
    ensures
      var log' := AlertClosed(log, sig, announces);
      if key != ErrorKey(sig) then SameAlerts(log, log', key)
      else
        && OpenCount(log', key) == 0 && Incidents(log', key) == Incidents(log, key)
        && Recoveries(log', key) == Recoveries(log, key) + (if announces && OpenCount(log, key) > 0 then 1 else 0)
  {
    ClosedCounts(log, ErrorKey(sig), key);
    AppendCounts(Closed(log, ErrorKey(sig)), Alert(ErrorKey(sig), true, true), key);
  }

  lemma {:induction false} RelievedEffects(w: Book, sig: Signature)
    ensures RelieveEffect(w, Relieved(w, sig), sig)
    ensures forall other :: other != sig ==> NoEffect(w, Relieved(w, sig), other)
    ensures forall key: Key :: key.doctype != "Recurring Error" ==> SameAlerts(w.log, Relieved(w, sig).log, key)
  {
    forall key: Key
      ensures key != ErrorKey(sig) ==> SameAlerts(w.log, Relieved(w, sig).log, key)
    {
      AlertClosedCounts(w.log, sig, true, key);
    }
    AlertClosedCounts(w.log, sig, true, ErrorKey(sig));
    OthersUntouched(w, Relieved(w, sig), sig);
  }

  // ---------------------------------------------------------------------------
  // The record and its three writers
  // ---------------------------------------------------------------------------

  /** Some signatures are through the alert pass, the rest are as before. */
  ghost predicate AlertPass(w: Book, w': Book, done: set<Signature>, found: map<Signature, nat>) {
    && (forall sig :: sig in done ==> sig in found && AlertEffect(w, w', sig, found[sig]))
    && (forall sig :: sig !in done ==> NoEffect(w, w', sig))
    && (forall key: Key :: key.doctype != "Recurring Error" ==> SameAlerts(w.log, w'.log, key))
  }

  lemma {:induction false} AlertOneMore(
    w: Book, mid: Book, done: set<Signature>, found: map<Signature, nat>, sig: Signature)
    requires AlertPass(w, mid, done, found) && sig in found && sig !in done
    ensures AlertPass(w, Alerted(mid, sig, found[sig]), done + {sig}, found)
  {
    AlertedEffects(mid, sig, found[sig]);
    var w' := Alerted(mid, sig, found[sig]);
    assert NoEffect(w, mid, sig);
    forall x | x in done + {sig}
      ensures x in found && AlertEffect(w, w', x, found[x])
    {
      if x != sig {
        assert AlertEffect(w, mid, x, found[x]) && NoEffect(mid, w', x);
      }
    }
    forall x | x !in done + {sig}
      ensures NoEffect(w, w', x)
    {
      assert NoEffect(w, mid, x) && NoEffect(mid, w', x);
    }
  }

  /** After the alert pass over everything found, some of the rest are through the recover pass. */
  ghost predicate RecoverPass(w: Book, w': Book, todo: set<Signature>, found: map<Signature, nat>) {
    && (forall sig :: sig in found ==> AlertEffect(w, w', sig, found[sig]))
    && (forall sig :: Recovers(RecordOf(w.records, sig), sig, found) && sig !in todo ==> RelieveEffect(w, w', sig))
    && (forall sig :: sig !in found && (sig in todo || !Recovers(RecordOf(w.records, sig), sig, found)) ==>
      NoEffect(w, w', sig))
    && (forall key: Key :: key.doctype != "Recurring Error" ==> SameAlerts(w.log, w'.log, key))
  }

  lemma {:induction false} RecoverOneMore(
    w: Book, mid: Book, todo: set<Signature>, found: map<Signature, nat>, sig: Signature)
    requires RecoverPass(w, mid, todo, found) && sig in todo && sig !in found &&
      Recovers(RecordOf(w.records, sig), sig, found)
    ensures RecoverPass(w, Relieved(mid, sig), todo - {sig}, found)
  {
    RelievedEffects(mid, sig);
    var w' := Relieved(mid, sig);
    assert NoEffect(w, mid, sig);
    forall x | x in found
      ensures AlertEffect(w, w', x, found[x])
    {
      assert AlertEffect(w, mid, x, found[x]) && NoEffect(mid, w', x);
    }
    forall x | Recovers(RecordOf(w.records, x), x, found) && x !in todo - {sig}
      ensures RelieveEffect(w, w', x)
    {
      if x != sig {
        assert RelieveEffect(w, mid, x) && NoEffect(mid, w', x);
      }
    }
    forall x | x !in found && (x in todo - {sig} || !Recovers(RecordOf(w.records, x), x, found))
      ensures NoEffect(w, w', x)
    {
      assert NoEffect(w, mid, x) && NoEffect(mid, w', x);
    }
  }

  class ErrorBook {
    var records: Records
    const ledger: Ledger

    constructor (ledger: Ledger)
      ensures records == map[] && this.ledger == ledger
    {
      records := map[];
      this.ledger := ledger;
    }

    ghost function State(): Book
      reads this, ledger
    {
      Book(records, ledger.rows)
    }

    method AlertError(sig: Signature, count: nat)
      modifies this, ledger
      ensures State() == Alerted(old(State()), sig, count)
    {
      var r := RecordOf(records, sig);
      var open := ledger.HasOpenAlert(ErrorKey(sig));
      var needsAlert := !r.critical || !open;
      records := records[sig := MarkedCritical(r, count, needsAlert)];
      if needsAlert {
        ledger.DispatchAlert(ErrorKey(sig));
      }
    }

    method CloseAlert(sig: Signature, announces: bool)
      modifies ledger
      ensures ledger.rows == AlertClosed(old(ledger.rows), sig, announces)
    {
      var open := ledger.HasOpenAlert(ErrorKey(sig));
      if open {
        ledger.ResolveAlert(ErrorKey(sig));
        if announces {
          ledger.DispatchRecovery(ErrorKey(sig));
        }
      }
    }

    method RelieveError(sig: Signature)
      modifies this, ledger
      ensures State() == Relieved(old(State()), sig)
    {
      records := records[sig := RecordOf(records, sig).(critical := false, windowCount := 0)];
      CloseAlert(sig, true);
    }

    /** One check over the query's answer. */
    method RunCheck(found: map<Signature, nat>)
      modifies this, ledger
      ensures CheckStep(old(State()), State(), found)
    {
      AlertAll(found);
      RecoverAll(found, old(State()));
    }

    method AlertAll(found: map<Signature, nat>)
      modifies this, ledger
      ensures AlertPass(old(State()), State(), found.Keys, found)
    {
      var todo := found.Keys;
      while todo != {}
        invariant todo <= found.Keys
        invariant AlertPass(old(State()), State(), found.Keys - todo, found)
        decreases |todo|
      {
        var sig :| sig in todo;
        ghost var mid := State();
        AlertOneMore(old(State()), mid, found.Keys - todo, found, sig);
        AlertError(sig, found[sig]);
        assert found.Keys - (todo - {sig}) == (found.Keys - todo) + {sig};
        todo := todo - {sig};
      }
    }

    method RecoverAll(found: map<Signature, nat>, ghost w: Book)
      requires AlertPass(w, State(), found.Keys, found)
      modifies this, ledger
      ensures CheckStep(w, State(), found)
    {
      var todo := set sig | sig in records && records[sig].critical && !records[sig].ignored && sig !in found;
      CandidatesAreRecovering(w, State(), found, todo);
      while todo != {}
        invariant forall sig :: sig in todo ==> Recovers(RecordOf(w.records, sig), sig, found)
        invariant RecoverPass(w, State(), todo, found)
        decreases |todo|
      {
        var sig :| sig in todo;
        RecoverOneMore(w, State(), todo, found, sig);
        RelieveError(sig);
        todo := todo - {sig};
      }
    }

    /** `resolve_error`: its occurrences so far stop counting. */
    method ResolveError(sig: Signature, now: int)
      modifies this, ledger
      ensures State() == ManuallyResolved(old(State()), sig, now)
    {
      records := records[sig := RecordOf(records, sig).(critical := false, windowCount := 0, resolvedAt := Some(now))];
      CloseAlert(sig, true);
    }

    /** `set_error_ignored`: closes the alert quietly. */
    method SetErrorIgnored(sig: Signature, ignored: bool)
      modifies this, ledger
      ensures State() == IgnoreSet(old(State()), sig, ignored)
    {
      var r := RecordOf(records, sig);
      if ignored {
        records := records[sig := r.(ignored := true, critical := false, windowCount := 0)];
        CloseAlert(sig, false);
      } else {
        records := records[sig := r.(ignored := false)];
      }
    }
  }

  lemma {:induction false} CandidatesAreRecovering(w: Book, mid: Book, found: map<Signature, nat>, todo: set<Signature>)
    requires AlertPass(w, mid, found.Keys, found)
    requires todo ==
      set sig | sig in mid.records && mid.records[sig].critical && !mid.records[sig].ignored && sig !in found
    ensures forall sig :: sig in todo <==> Recovers(RecordOf(w.records, sig), sig, found)
    ensures RecoverPass(w, mid, todo, found)
  {
    forall sig
      ensures sig in todo <==> Recovers(RecordOf(w.records, sig), sig, found)
    {
      if sig !in found {
        assert NoEffect(w, mid, sig);
      }
    }
  }

  // ---------------------------------------------------------------------------
  // The invariant over any interleaving
  // ---------------------------------------------------------------------------

  /** The invariant, as it concerns one error. */
  ghost predicate InvFor(w: Book, sig: Signature) {
    var (r, open) := (RecordOf(w.records, sig), OpenCount(w.log, ErrorKey(sig)));
    && (r.ignored ==> !r.critical)
    && open <= 1
    && (open == 1 ==> r.critical)
  }

  /** Ignored errors are not critical, open alerts belong to critical errors, one at most each. */
  ghost predicate Inv(w: Book) {
    forall sig: Signature :: InvFor(w, sig)
  }

  /** One thing that can happen to the ledger.  Besides the three writers, other monitors write
      their own alerts to the same log, and rows may be deleted or resolved from outside. */
  ghost predicate Step(w: Book, w': Book) {
    || (exists found, occs, now, s :: Answers(found, w.records, occs, now, s) && CheckStep(w, w', found))
    || (exists sig, now :: w' == ManuallyResolved(w, sig, now))
    || (exists sig, ignored :: w' == IgnoreSet(w, sig, ignored))
    || (w'.records == w.records && forall sig: Signature ::
      OpenCount(w'.log, ErrorKey(sig)) <= OpenCount(w.log, ErrorKey(sig)))
  }

  lemma {:induction false} CheckKeepsInv(
    w: Book, w': Book, found: map<Signature, nat>, occs: seq<Occurrence>, now: int, s: Settings)
    requires Inv(w) && Answers(found, w.records, occs, now, s) && CheckStep(w, w', found)
    ensures Inv(w')
    ensures forall sig :: sig in found <==> RecordOf(w'.records, sig).critical
    ensures forall sig :: OpenCount(w'.log, ErrorKey(sig)) == if sig in found then 1 else 0
  {
    forall sig: Signature
      ensures InvFor(w', sig)
      ensures sig in found <==> RecordOf(w'.records, sig).critical
      ensures OpenCount(w'.log, ErrorKey(sig)) == if sig in found then 1 else 0
    {
      assert InvFor(w, sig);
      if sig in found {
        FoundAreNotIgnored(found, w.records, occs, now, s, sig);
        assert AlertEffect(w, w', sig, found[sig]);
      } else if Recovers(RecordOf(w.records, sig), sig, found) {
        assert RelieveEffect(w, w', sig);
      } else {
        assert NoEffect(w, w', sig);
      }
    }
  }

  /** What closing the alert of one error does to the open alerts of any other. */
  lemma {:induction false} ClosingIsLocal(log: Log, sig: Signature, announces: bool, other: Signature)
    ensures OpenCount(AlertClosed(log, sig, announces), ErrorKey(other)) ==
      if other == sig then 0 else OpenCount(log, ErrorKey(other))
  {
    AlertClosedCounts(log, sig, announces, ErrorKey(other));
    if ErrorKey(other) == ErrorKey(sig) {
      KeysDiffer(other, sig);
    }
  }

  lemma {:induction false} WritersKeepInv(w: Book, sig: Signature, now: int, ignored: bool)
    requires Inv(w)
    ensures Inv(ManuallyResolved(w, sig, now)) && Inv(IgnoreSet(w, sig, ignored))
  {
    var resolved, set' := ManuallyResolved(w, sig, now), IgnoreSet(w, sig, ignored);
    forall other: Signature
      ensures InvFor(resolved, other) && InvFor(set', other)
    {
      assert InvFor(w, other);
      ClosingIsLocal(w.log, sig, true, other);
      ClosingIsLocal(w.log, sig, false, other);
    }
  }

  lemma {:induction false} StepKeepsInv(w: Book, w': Book)
    requires Inv(w) && Step(w, w')
    ensures Inv(w')
  {
    if found, occs, now, s :| Answers(found, w.records, occs, now, s) && CheckStep(w, w', found) {
      CheckKeepsInv(w, w', found, occs, now, s);
    } else if sig, now :| w' == ManuallyResolved(w, sig, now) {
      WritersKeepInv(w, sig, now, false);
    } else if sig, ignored :| w' == IgnoreSet(w, sig, ignored) {
      WritersKeepInv(w, sig, 0, ignored);
    } else {
      forall sig: Signature
        ensures InvFor(w', sig)
      {
        assert InvFor(w, sig) && OpenCount(w'.log, ErrorKey(sig)) <= OpenCount(w.log, ErrorKey(sig));
      }
    }
  }

  /** Across any interleaving of the three writers, and of outside edits, the invariant holds. */
  lemma {:induction false} AnyInterleavingKeepsInv(books: seq<Book>, n: nat)
    requires n < |books| && books[0] == Book(map[], [])
    requires forall i :: 0 <= i < |books| - 1 ==> Step(books[i], books[i + 1])
    ensures Inv(books[n])
  {
    if n > 0 {
      AnyInterleavingKeepsInv(books, n - 1);
      var i := n - 1;
      assert Step(books[i], books[i + 1]);
      StepKeepsInv(books[n - 1], books[n]);
    }
  }

  /** Right after a check, critical, open and found are one and the same set. */
  lemma {:induction false} AfterCheckAllThreeAgree(
    books: seq<Book>, w': Book, found: map<Signature, nat>, occs: seq<Occurrence>, now: int, s: Settings,
    sig: Signature)
    requires books != [] && books[0] == Book(map[], [])
    requires forall i :: 0 <= i < |books| - 1 ==> Step(books[i], books[i + 1])
    requires Answers(found, books[|books| - 1].records, occs, now, s) && CheckStep(books[|books| - 1], w', found)
    ensures RecordOf(w'.records, sig).critical <==> sig in found
    ensures OpenCount(w'.log, ErrorKey(sig)) == if sig in found then 1 else 0
  {
    AnyInterleavingKeepsInv(books, |books| - 1);
    CheckKeepsInv(books[|books| - 1], w', found, occs, now, s);
  }

  /** Occurrences of a signature in [from, until) and later than `after`. */
  function CountAfter(occs: seq<Occurrence>, sig: Signature, after: int, from: int, until: int): nat {
    if occs == [] then 0
    else
      var o := occs[|occs| - 1];
      CountAfter(occs[..|occs| - 1], sig, after, from, until) +
        if o.sig == sig && o.at > after && from <= o.at < until then 1 else 0
  }

  /** What the query counts: the occurrences of the last `windowMinutes`, after a resolution if there was one. */
  lemma {:induction false} CountMeans(occs: seq<Occurrence>, sig: Signature, r: ErrorRecord, now: int, s: Settings)
    requires !r.ignored
    ensures
      var from := now - s.windowMinutes * 60;
      CountOf(occs, sig, r, now, s) ==
        CountAfter(occs, sig, if r.resolvedAt.Some? then r.resolvedAt.value else from - 1, from, now + 1)
  {
    if occs != [] {
      CountMeans(occs[..|occs| - 1], sig, r, now, s);
    }
  }

  lemma {:induction false} FewerAfterLater(occs: seq<Occurrence>, sig: Signature, a: int, b: int, from: int, until: int)
    requires a <= b
    ensures CountAfter(occs, sig, b, from, until) <= CountAfter(occs, sig, a, from, until)
  {
    if occs != [] {
      FewerAfterLater(occs[..|occs| - 1], sig, a, b, from, until);
    }
  }

  /** Below the group limit, exactly the errors not ignored that occurred `threshold` times are found. */
  lemma {:induction false} FoundMeans(
    found: map<Signature, nat>, records: Records, occs: seq<Occurrence>, now: int, s: Settings, sig: Signature)
    requires Answers(found, records, occs, now, s)
    ensures
      var (r, from) := (RecordOf(records, sig), now - s.windowMinutes * 60);
      var count := CountAfter(occs, sig, if r.resolvedAt.Some? then r.resolvedAt.value else from - 1, from, now + 1);
      && (sig in found ==> !r.ignored && count >= s.threshold && found[sig] == count)
      && (|found| < MAX_GROUPS && !r.ignored && count >= s.threshold ==> sig in found)
  {
    var r := RecordOf(records, sig);
    if r.ignored {
      IgnoredCountsNothing(occs, sig, r, now, s);
    } else {
      CountMeans(occs, sig, r, now, s);
    }
  }

  /** What a check leaves in a record: the count of this window, the largest ever seen, one more alert
      exactly when one was logged; whether it is ignored or was resolved is not the check's to change. */
  lemma {:induction false} CheckUpdatesRecord(w: Book, w': Book, found: map<Signature, nat>, sig: Signature)
    requires CheckStep(w, w', found)
    ensures
      var (r, r', key) := (RecordOf(w.records, sig), RecordOf(w'.records, sig), ErrorKey(sig));
      && r'.ignored == r.ignored && r'.resolvedAt == r.resolvedAt
      && r'.alertCount - r.alertCount == Incidents(w'.log, key) - Incidents(w.log, key)
      && (sig in found ==> r'.critical && r'.windowCount == found[sig])
      && (sig in found ==> r'.peakCount == if found[sig] > r.peakCount then found[sig] else r.peakCount)
      && (sig !in found ==> r'.peakCount == r.peakCount)
      && (sig !in found && r.critical && !r.ignored ==> r'.windowCount == 0)
  {
    if sig in found {
      assert AlertEffect(w, w', sig, found[sig]);
    } else if Recovers(RecordOf(w.records, sig), sig, found) {
      assert RelieveEffect(w, w', sig);
    } else {
      assert NoEffect(w, w', sig);
    }
  }

  /** What the two manual writers do to an error: both take it out of critical and close its alert;
      resolving says so in the log if there was one to close, ignoring never does, and un-ignoring
      touches nothing but the mark. */
  lemma {:induction false} WritersMean(w: Book, sig: Signature, now: int)
    ensures
      var (key, r, open) := (ErrorKey(sig), RecordOf(w.records, sig), OpenCount(w.log, ErrorKey(sig)) > 0);
      var (a, b, c) := (ManuallyResolved(w, sig, now), IgnoreSet(w, sig, true), IgnoreSet(w, sig, false));
      && RecordOf(a.records, sig) == r.(critical := false, windowCount := 0, resolvedAt := Some(now))
      && OpenCount(a.log, key) == 0 && Incidents(a.log, key) == Incidents(w.log, key)
      && Recoveries(a.log, key) == Recoveries(w.log, key) + (if open then 1 else 0)
      && RecordOf(b.records, sig) == r.(critical := false, windowCount := 0, ignored := true)
      && OpenCount(b.log, key) == 0 && Incidents(b.log, key) == Incidents(w.log, key)
      && Recoveries(b.log, key) == Recoveries(w.log, key)
      && RecordOf(c.records, sig) == r.(ignored := false) && c.log == w.log
  {
    AlertClosedCounts(w.log, sig, true, ErrorKey(sig));
    AlertClosedCounts(w.log, sig, false, ErrorKey(sig));
  }

  /** And to every other error, and every other monitor's alerts: nothing. */
  lemma {:induction false} WritersAreLocal(w: Book, sig: Signature, now: int, ignored: bool, other: Signature, key: Key)
    requires key != ErrorKey(sig)
    ensures
      var (a, b) := (ManuallyResolved(w, sig, now), IgnoreSet(w, sig, ignored));
      && SameAlerts(w.log, a.log, key) && SameAlerts(w.log, b.log, key)
      && (other != sig ==>
            RecordOf(a.records, other) == RecordOf(w.records, other) &&
              RecordOf(b.records, other) == RecordOf(w.records, other))
  {
    AlertClosedCounts(w.log, sig, true, key);
    AlertClosedCounts(w.log, sig, false, key);
  }

  /** A step in which nobody resolves anything before `t`. */
  ghost predicate StepAfter(w: Book, w': Book, t: int) {
    || (exists found :: CheckStep(w, w', found))
    || (exists sig, now :: now >= t && w' == ManuallyResolved(w, sig, now))
    || (exists sig, ignored :: w' == IgnoreSet(w, sig, ignored))
    || w'.records == w.records
  }

  ghost predicate ResolvedBy(w: Book, sig: Signature, t: int) {
    var r := RecordOf(w.records, sig).resolvedAt;
    r.Some? && r.value >= t
  }

  lemma {:induction false} ResolutionLasts(books: seq<Book>, sig: Signature, t: int, n: nat)
    requires n < |books| && ResolvedBy(books[0], sig, t)
    requires forall i :: 0 <= i < |books| - 1 ==> StepAfter(books[i], books[i + 1], t)
    ensures ResolvedBy(books[n], sig, t)
  {
    if n > 0 {
      var k := n - 1;
      ResolutionLasts(books, sig, t, k);
      assert StepAfter(books[k], books[k + 1], t);
      ResolutionKept(books[k], books[n], sig, t);
    }
  }

  lemma {:induction false} ResolutionKept(w: Book, w': Book, sig: Signature, t: int)
    requires ResolvedBy(w, sig, t) && StepAfter(w, w', t)
    ensures ResolvedBy(w', sig, t)
  {
    if found :| CheckStep(w, w', found) {
      CheckUpdatesRecord(w, w', found, sig);
    }
  }

  /** Once an error was marked resolved, whatever happens after, its occurrences up to then never raise
      it again: any later check that alerts it has `threshold` occurrences that came after. */
  lemma {:induction false} ResolvedErrorMustRepeat(
    w: Book, books: seq<Book>, sig: Signature, t: int,
    w': Book, found: map<Signature, nat>, occs: seq<Occurrence>, now: int, s: Settings)
    requires books != [] && books[0] == ManuallyResolved(w, sig, t)
    requires forall i :: 0 <= i < |books| - 1 ==> StepAfter(books[i], books[i + 1], t)
    requires Answers(found, books[|books| - 1].records, occs, now, s) && CheckStep(books[|books| - 1], w', found)
    requires Incidents(w'.log, ErrorKey(sig)) > Incidents(books[|books| - 1].log, ErrorKey(sig))
    ensures CountAfter(occs, sig, t, now - s.windowMinutes * 60, now + 1) >= s.threshold
  {
    var last := books[|books| - 1];
    ResolutionLasts(books, sig, t, |books| - 1);
    CheckRaisesOnlyFound(last, w', found, sig);
    FoundMeans(found, last.records, occs, now, s, sig);
    FewerAfterLater(occs, sig, t, RecordOf(last.records, sig).resolvedAt.value, now - s.windowMinutes * 60, now + 1);
  }

  /** A step in which nobody un-ignores the error. */
  ghost predicate StepStillIgnored(w: Book, w': Book, sig: Signature) {
    || (exists found, occs, now, s :: Answers(found, w.records, occs, now, s) && CheckStep(w, w', found))
    || (exists other, now :: w' == ManuallyResolved(w, other, now))
    || (exists other, ignored :: (other != sig || ignored) && w' == IgnoreSet(w, other, ignored))
    || (w'.records == w.records && forall x: Signature :: SameAlerts(w.log, w'.log, ErrorKey(x)))
  }

  ghost predicate Silenced(w: Book, sig: Signature) {
    RecordOf(w.records, sig).ignored && !RecordOf(w.records, sig).critical
  }

  lemma {:induction false} StaysSilenced(w: Book, w': Book, sig: Signature)
    requires Silenced(w, sig) && StepStillIgnored(w, w', sig)
    ensures Silenced(w', sig) && Incidents(w'.log, ErrorKey(sig)) <= Incidents(w.log, ErrorKey(sig))
  {
    if found, occs, now, s :| Answers(found, w.records, occs, now, s) && CheckStep(w, w', found) {
      SilentInCheck(w, w', found, occs, now, s, sig);
    } else if other, now :| w' == ManuallyResolved(w, other, now) {
      SilentInWriters(w, other, now, true, sig);
    } else if other, ignored :| (other != sig || ignored) && w' == IgnoreSet(w, other, ignored) {
      SilentInWriters(w, other, 0, ignored, sig);
    }
  }

  lemma {:induction false} SilentInCheck(
    w: Book, w': Book, found: map<Signature, nat>, occs: seq<Occurrence>, now: int, s: Settings, sig: Signature)
    requires Silenced(w, sig) && Answers(found, w.records, occs, now, s) && CheckStep(w, w', found)
    ensures Silenced(w', sig) && Incidents(w'.log, ErrorKey(sig)) == Incidents(w.log, ErrorKey(sig))
  {
    FoundMeans(found, w.records, occs, now, s, sig);
    assert NoEffect(w, w', sig);
  }

  lemma {:induction false} SilentInWriters(w: Book, other: Signature, now: int, ignored: bool, sig: Signature)
    requires Silenced(w, sig)
    ensures
      var (a, b) := (ManuallyResolved(w, other, now), IgnoreSet(w, other, ignored));
      && Silenced(a, sig) && Incidents(a.log, ErrorKey(sig)) == Incidents(w.log, ErrorKey(sig))
      && (other != sig || ignored ==> Silenced(b, sig)) &&
        Incidents(b.log, ErrorKey(sig)) == Incidents(w.log, ErrorKey(sig))
  {
    AlertClosedCounts(w.log, other, true, ErrorKey(sig));
    AlertClosedCounts(w.log, other, false, ErrorKey(sig));
  }

  /** Once an error is ignored, until somebody un-ignores it, it stays so, is never critical and no alert
      is ever logged for it. */
  lemma {:induction false} IgnoredErrorStaysSilent(w: Book, books: seq<Book>, sig: Signature, n: nat)
    requires n < |books| && books[0] == IgnoreSet(w, sig, true)
    requires forall i :: 0 <= i < |books| - 1 ==> StepStillIgnored(books[i], books[i + 1], sig)
    ensures Silenced(books[n], sig)
    ensures Incidents(books[n].log, ErrorKey(sig)) <= Incidents(books[0].log, ErrorKey(sig))
  {
    if n > 0 {
      var k := n - 1;
      IgnoredErrorStaysSilent(w, books, sig, k);
      assert StepStillIgnored(books[k], books[k + 1], sig);
      StaysSilenced(books[k], books[n], sig);
    }
  }

  /** An error that still breaches is given a recovery exactly when it was critical with an open
      alert and the query did not return it, which happens only at the group limit. */
  lemma {:induction false} FalseRecoveryIff(
    w: Book, w': Book, found: map<Signature, nat>, occs: seq<Occurrence>, now: int, s: Settings, sig: Signature)
    requires Answers(found, w.records, occs, now, s) && CheckStep(w, w', found)
    requires Breaches(occs, sig, RecordOf(w.records, sig), now, s)
    ensures sig !in found ==> |found| == MAX_GROUPS
    ensures Recoveries(w'.log, ErrorKey(sig)) > Recoveries(w.log, ErrorKey(sig)) <==>
      sig !in found && RecordOf(w.records, sig).critical && OpenCount(w.log, ErrorKey(sig)) > 0
  {
    if RecordOf(w.records, sig).ignored {
      IgnoredCountsNothing(occs, sig, RecordOf(w.records, sig), now, s);
    }
    if sig in found {
      assert AlertEffect(w, w', sig, found[sig]);
    } else if Recovers(RecordOf(w.records, sig), sig, found) {
      assert RelieveEffect(w, w', sig);
    } else {
      assert NoEffect(w, w', sig);
    }
  }

  /** The `i`-th of any number of different signatures. */
  function Nth(i: nat): Signature {
    seq(i, _ => 'e')
  }

  /** Each of the first `n` occurred once, at time 0. */
  function Once(n: nat): seq<Occurrence> {
    if n == 0 then [] else Once(n - 1) + [Occurrence(Nth(n - 1), 0)]
  }

  function FirstFound(n: nat): map<Signature, nat> {
    if n == 0 then map[] else FirstFound(n - 1)[Nth(n - 1) := 1]
  }

  lemma {:induction false} FirstFoundHas(n: nat)
    ensures |FirstFound(n)| == n
    ensures forall sig :: sig in FirstFound(n) <==> |sig| < n && sig == Nth(|sig|)
    ensures forall sig :: sig in FirstFound(n) ==> FirstFound(n)[sig] == 1
  {
    if n > 0 {
      FirstFoundHas(n - 1);
      assert |Nth(n - 1)| == n - 1;
    }
  }

  lemma {:induction false} OnceLength(n: nat)
    ensures |Once(n)| == n
  {
    if n > 0 {
      OnceLength(n - 1);
    }
  }

  lemma {:induction false} OnceCounts(n: nat, sig: Signature, r: ErrorRecord, s: Settings)
    requires !r.ignored && r.resolvedAt.None?
    ensures CountOf(Once(n), sig, r, 0, s) == if |sig| < n && sig == Nth(|sig|) then 1 else 0
  {
    if n > 0 {
      var front := Once(n - 1);
      OnceLength(n - 1);
      OnceCounts(n - 1, sig, r, s);
      assert Once(n) == front + [Occurrence(Nth(n - 1), 0)] && Once(n)[..|Once(n)| - 1] == front;
      assert |Nth(n - 1)| == n - 1;
    }
  }

  /** Errors whose records change nothing about the count. */
  ghost predicate Plain(records: Records) {
    forall sig :: sig in records ==> !records[sig].ignored && records[sig].resolvedAt.None?
  }

  lemma {:induction false} OneIsLeftOut(n: nat, records: Records, s: Settings)
    requires n == MAX_GROUPS && Plain(records) && s == Settings(1, 1)
    ensures Answers(FirstFound(n), records, Once(n + 1), 0, s)
    ensures Breaches(Once(n + 1), Nth(n), RecordOf(records, Nth(n)), 0, s) && Nth(n) !in FirstFound(n)
  {
    FirstFoundHas(n);
    assert |Nth(n)| == n;
    forall x: Signature
      ensures CountOf(Once(n + 1), x, RecordOf(records, x), 0, s) == if |x| < n + 1 && x == Nth(|x|) then 1 else 0
    {
      OnceCounts(n + 1, x, RecordOf(records, x), s);
    }
  }

  /** It does happen: with one error more than the limit breaching, an answer of the query leaves
      one out, and if that one is critical with an open alert it is told to have recovered. */
  lemma {:induction false} OneGroupTooMany(w: Book, w': Book, n: nat)
    requires n == MAX_GROUPS && Plain(w.records) && RecordOf(w.records, Nth(n)).critical
    requires OpenCount(w.log, ErrorKey(Nth(n))) > 0 && CheckStep(w, w', FirstFound(n))
    ensures Answers(FirstFound(n), w.records, Once(n + 1), 0, Settings(1, 1))
    ensures Breaches(Once(n + 1), Nth(n), RecordOf(w.records, Nth(n)), 0, Settings(1, 1))
    ensures Recoveries(w'.log, ErrorKey(Nth(n))) > Recoveries(w.log, ErrorKey(Nth(n)))
  {
    OneIsLeftOut(n, w.records, Settings(1, 1));
    FalseRecoveryIff(w, w', FirstFound(n), Once(n + 1), 0, Settings(1, 1), Nth(n));
  }

  /** A check raises alerts for found signatures only, and recoveries for the others only. */
  lemma {:induction false} CheckRaisesOnlyFound(w: Book, w': Book, found: map<Signature, nat>, sig: Signature)
    requires CheckStep(w, w', found)
    ensures sig !in found ==> Incidents(w'.log, ErrorKey(sig)) == Incidents(w.log, ErrorKey(sig))
    ensures sig in found ==> Recoveries(w'.log, ErrorKey(sig)) == Recoveries(w.log, ErrorKey(sig))
  {
    if sig in found {
      assert AlertEffect(w, w', sig, found[sig]);
    } else if Recovers(RecordOf(w.records, sig), sig, found) {
      assert RelieveEffect(w, w', sig);
    } else {
      assert NoEffect(w, w', sig);
    }
  }
}
