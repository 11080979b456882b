/**
 The alert ledger: the log side of alerts/dispatch.py and the shared edge trigger
 `_handle_transition` of tasks/poller.py.

 Sending is left out: every alert and every recovery is a row, as the source logs
 them whether or not a channel is enabled.
 */
module AlertLog {

  datatype Key = Key(doctype: string, name: string, alertType: string)

  /** A recovery is its own row, resolved from the start. */
  datatype Alert = Alert(key: Key, recovery: bool, resolved: bool)

  type Log = seq<Alert>

  predicate IsOpen(a: Alert, key: Key) {
    a.key == key && !a.resolved
  }

  function OpenCount(log: Log, key: Key): nat {
    if log == [] then 0
    else OpenCount(log[..|log| - 1], key) + if IsOpen(log[|log| - 1], key) then 1 else 0
  }

  /** Alerts (not recoveries) ever recorded under a key. */
  function Incidents(log: Log, key: Key): nat {
    if log == [] then 0
    else Incidents(log[..|log| - 1], key) + if log[|log| - 1].key == key && !log[|log| - 1].recovery then 1 else 0
  }

  function Recoveries(log: Log, key: Key): nat {
    if log == [] then 0
    else Recoveries(log[..|log| - 1], key) + if log[|log| - 1].key == key && log[|log| - 1].recovery then 1 else 0
  }

  /** The same alerts of one key, whatever else the two logs hold. */
  ghost predicate SameAlerts(a: Log, b: Log, key: Key) {
    && OpenCount(b, key) == OpenCount(a, key)
    && Incidents(b, key) == Incidents(a, key)
    && Recoveries(b, key) == Recoveries(a, key)
  }

  function Dispatched(log: Log, key: Key): Log {
    log + [Alert(key, false, false)]
  }

  function Recovered(log: Log, key: Key): Log {
    log + [Alert(key, true, true)]
  }

  function Closed(log: Log, key: Key): Log {
    if log == [] then []
    else
      var last := log[|log| - 1];
      Closed(log[..|log| - 1], key) + [if IsOpen(last, key) then last.(resolved := true) else last]
  }

  /** The alert is about a server, guest or datastore with one of these names. */
  predicate Concerns(key: Key, refs: set<string>) {
    (key.doctype == "Proxmox Server" || key.doctype == "Proxmox Guest" || key.doctype == "Proxmox Datastore") &&
      key.name in refs
  }

  /** `_resolve_disabled_server_alerts`: one update over every open row of the given documents. */
  function ClosedFor(log: Log, refs: set<string>): Log {
    if log == [] then []
    else
      var last := log[|log| - 1];
      ClosedFor(log[..|log| - 1], refs) + [if Concerns(last.key, refs) then last.(resolved := true) else last]
  }

  /** The edge trigger, with its repair of a condition that lost its open alert. */
  function Transition(log: Log, was: bool, now: bool, key: Key, announces: bool): Log {
    if now && !was then Dispatched(log, key)
    else if was && !now then
      var closed := Closed(log, key);
      if announces then Recovered(closed, key) else closed
    else if now && was && OpenCount(log, key) == 0 then Dispatched(log, key)
    else log
  }

  // ---------------------------------------------------------------------------
  // The log as the source writes it
  // ---------------------------------------------------------------------------

  lemma {:induction false} ClosedAt(log: Log, key: Key)
    ensures |Closed(log, key)| == |log|
    ensures forall i :: 0 <= i < |log| ==>
      Closed(log, key)[i] == if IsOpen(log[i], key) then log[i].(resolved := true) else log[i]
  {
    if log != [] {
      ClosedAt(log[..|log| - 1], key);
    }
  }

  lemma {:induction false} ClosedForAt(log: Log, refs: set<string>)
    ensures |ClosedFor(log, refs)| == |log|
    ensures forall i :: 0 <= i < |log| ==>
      ClosedFor(log, refs)[i] == if Concerns(log[i].key, refs) then log[i].(resolved := true) else log[i]
  {
    if log != [] {
      ClosedForAt(log[..|log| - 1], refs);
    }
  }

  lemma {:induction false} OpenCountZero(log: Log, key: Key)
    ensures OpenCount(log, key) == 0 <==> forall i :: 0 <= i < |log| ==> !IsOpen(log[i], key)
  {
    if log != [] {
      var front := log[..|log| - 1];
      OpenCountZero(front, key);
      assert forall i :: 0 <= i < |front| ==> front[i] == log[i];
      assert IsOpen(log[|log| - 1], key) ==> OpenCount(log, key) > 0;
    }
  }

  /** Which rows a disabled server resolves: those about servers, guests and datastores of the given
      names, and no others, whatever their type. */
  lemma {:induction false} DisabledResolves(log: Log, refs: set<string>, i: nat)
    requires i < |log|
    ensures |ClosedFor(log, refs)| == |log|
    ensures
      var (a, b) := (log[i], ClosedFor(log, refs)[i]);
      && b.key == a.key && b.recovery == a.recovery
      && (b.resolved <==>
          || a.resolved
          || (a.key.doctype in ["Proxmox Server", "Proxmox Guest", "Proxmox Datastore"] && a.key.name in refs))
  {
    ClosedForAt(log, refs);
  }

  class Ledger {
    var rows: Log

    constructor ()
      ensures rows == []
    {
      rows := [];
    }

    method DispatchAlert(key: Key)
      modifies this
      ensures rows == Dispatched(old(rows), key)
    {
      rows := rows + [Alert(key, false, false)];
    }

    method DispatchRecovery(key: Key)
      modifies this
      ensures rows == Recovered(old(rows), key)
    {
      rows := rows + [Alert(key, true, true)];
    }

    method HasOpenAlert(key: Key) returns (open: bool)
      ensures open <==> OpenCount(rows, key) > 0
    {
      OpenCountZero(rows, key);
      for i := 0 to |rows|
        invariant forall j :: 0 <= j < i ==> !IsOpen(rows[j], key)
      {
        if IsOpen(rows[i], key) {
          return true;
        }
      }
      return false;
    }

    method ResolveAlert(key: Key)
      modifies this
      ensures rows == Closed(old(rows), key)
    {
      ClosedAt(rows, key);
      for i := 0 to |rows|
        invariant |rows| == |old(rows)|
        invariant forall j :: 0 <= j < i ==> rows[j] == Closed(old(rows), key)[j]
        invariant forall j :: i <= j < |rows| ==> rows[j] == old(rows)[j]
      {
        if IsOpen(rows[i], key) {
          rows := rows[i := rows[i].(resolved := true)];
        }
      }
    }

    /** Close every open alert of the given documents, those of disabled servers. */
    method ResolveDisabled(refs: set<string>)
      modifies this
      ensures rows == ClosedFor(old(rows), refs)
    {
      ClosedForAt(rows, refs);
      for i := 0 to |rows|
        invariant |rows| == |old(rows)|
        invariant forall j :: 0 <= j < i ==> rows[j] == ClosedFor(old(rows), refs)[j]
        invariant forall j :: i <= j < |rows| ==> rows[j] == old(rows)[j]
      {
        if !rows[i].resolved && Concerns(rows[i].key, refs) {
          rows := rows[i := rows[i].(resolved := true)];
        }
      }
    }

    method HandleTransition(was: bool, now: bool, key: Key, announces: bool)
      modifies this
      ensures rows == Transition(old(rows), was, now, key, announces)
    {
      if now && !was {
        DispatchAlert(key);
      } else if was && !now {
        ResolveAlert(key);
        if announces {
          DispatchRecovery(key);
        }
      } else if now && was {
        var open := HasOpenAlert(key);
        if !open {
          DispatchAlert(key);
        }
      }
    }
  }

  // ---------------------------------------------------------------------------
  // Counting
  // ---------------------------------------------------------------------------

  lemma {:induction false} AppendCounts(log: Log, a: Alert, key: Key)
    ensures OpenCount(log + [a], key) == OpenCount(log, key) + if IsOpen(a, key) then 1 else 0
    ensures Incidents(log + [a], key) == Incidents(log, key) + if a.key == key && !a.recovery then 1 else 0
    ensures Recoveries(log + [a], key) == Recoveries(log, key) + if a.key == key && a.recovery then 1 else 0
  {
    assert (log + [a])[..|log|] == log;
  }

  lemma {:induction false} ClosedCounts(log: Log, key: Key, other: Key)
    ensures OpenCount(Closed(log, key), other) == if other == key then 0 else OpenCount(log, other)
    ensures Incidents(Closed(log, key), other) == Incidents(log, other)
    ensures Recoveries(Closed(log, key), other) == Recoveries(log, other)
  {
    if log != [] {
      var front, last := log[..|log| - 1], log[|log| - 1];
      ClosedCounts(front, key, other);
      AppendCounts(Closed(front, key), if IsOpen(last, key) then last.(resolved := true) else last, other);
    }
  }

  /** What one transition does to every count, of its own key and of any other. */
  lemma {:induction false} TransitionCounts(log: Log, was: bool, now: bool, key: Key, announces: bool, other: Key)
    ensures
      var log' := Transition(log, was, now, key, announces);
      if other != key then
        && OpenCount(log', other) == OpenCount(log, other)
        && Incidents(log', other) == Incidents(log, other)
        && Recoveries(log', other) == Recoveries(log, other)
      else
        var raises := now && (!was || OpenCount(log, key) == 0);
        && Incidents(log', key) == Incidents(log, key) + (if raises then 1 else 0)
        && Recoveries(log', key) == Recoveries(log, key) + (if was && !now && announces then 1 else 0)
        && OpenCount(log', key) == if was && !now then 0 else OpenCount(log, key) + if raises then 1 else 0
  {
    AppendCounts(log, Alert(key, false, false), other);
    ClosedCounts(log, key, other);
    AppendCounts(Closed(log, key), Alert(key, true, true), other);
  }

  // ---------------------------------------------------------------------------
  // The self-healing ledger
  // ---------------------------------------------------------------------------

  /** The log beside the flag each document stores for each alert type. */
  datatype World = World(log: Log, flags: set<Key>)

  datatype Event =
    | Evaluate(key: Key, now: bool, announces: bool) // the poller re-evaluates a condition
    | Delete(row: nat)                               // somebody deletes a log row
    | Close(row: nat)                                // somebody marks a log row resolved
    | CloseFor(refs: set<string>)                    // a disabled server: all its alerts are closed
    | Forget(doctype: string, name: string)          // a document is deleted, its flags with it

  /** The alert is about that document. */
  predicate About(key: Key, doctype: string, name: string) {
    key.doctype == doctype && key.name == name
  }

  function Apply(w: World, e: Event): World {
    match e
    case Evaluate(key, now, announces) =>
      World(Transition(w.log, key in w.flags, now, key, announces), if now then w.flags + {key} else w.flags - {key})
    case Delete(i) => if i < |w.log| then w.(log := w.log[..i] + w.log[i + 1..]) else w
    case Close(i) => if i < |w.log| then w.(log := w.log[i := w.log[i].(resolved := true)]) else w
    case CloseFor(refs) => w.(log := ClosedFor(w.log, refs))
    case Forget(doctype, name) => w.(flags := set key | key in w.flags && !About(key, doctype, name))
  }

  function ApplyAll(w: World, events: seq<Event>): World
    decreases |events|
  {
    if events == [] then w else ApplyAll(Apply(w, events[0]), events[1..])
  }

  /** Never two open alerts for one document and type, and none without the stored flag. */
  ghost predicate Sound(w: World) {
    forall key :: OpenCount(w.log, key) <= 1 && (OpenCount(w.log, key) == 1 ==> key in w.flags)
  }

  lemma {:induction false} ConcatCounts(a: Log, b: Log, key: Key)
    ensures OpenCount(a + b, key) == OpenCount(a, key) + OpenCount(b, key)
  {
    if b == [] {
      assert a + b == a;
    } else {
      var front := b[..|b| - 1];
      ConcatCounts(a, front, key);
      assert a + b == (a + front) + [b[|b| - 1]];
      AppendCounts(a + front, b[|b| - 1], key);
      AppendCounts(front, b[|b| - 1], key);
      assert front + [b[|b| - 1]] == b;
    }
  }

  lemma {:induction false} ClosedForCounts(log: Log, refs: set<string>, key: Key)
    ensures OpenCount(ClosedFor(log, refs), key) == if Concerns(key, refs) then 0 else OpenCount(log, key)
  {
    if log != [] {
      var front, last := log[..|log| - 1], log[|log| - 1];
      ClosedForCounts(front, refs, key);
      AppendCounts(ClosedFor(front, refs), if Concerns(last.key, refs) then last.(resolved := true) else last, key);
    }
  }

  /** An edit from outside never opens anything. */
  lemma {:induction false} OutsideEditsOnlyClose(w: World, e: Event, key: Key)
    requires !e.Evaluate?
    ensures OpenCount(Apply(w, e).log, key) <= OpenCount(w.log, key)
    ensures !e.Forget? ==> Apply(w, e).flags == w.flags
  {
    match e
    case CloseFor(refs) => ClosedForCounts(w.log, refs, key);
    case Delete(i) => SplitAt(w.log, i, key);
    case Close(i) => SplitAt(w.log, i, key);
    case Forget(_, _) =>
  }

  lemma {:induction false} SplitAt(log: Log, i: nat, key: Key)
    ensures i < |log| ==>
      && OpenCount(log[..i] + log[i + 1..], key) <= OpenCount(log, key)
      && OpenCount(log[i := log[i].(resolved := true)], key) <= OpenCount(log, key)
  {
    if i < |log| {
      var a, b, x := log[..i], log[i + 1..], log[i];
      assert log == (a + [x]) + b;
      assert log[i := x.(resolved := true)] == (a + [x.(resolved := true)]) + b;
      ConcatCounts(a + [x], b, key);
      ConcatCounts(a + [x.(resolved := true)], b, key);
      ConcatCounts(a, b, key);
      AppendCounts(a, x, key);
      AppendCounts(a, x.(resolved := true), key);
    }
  }

  /** The document has no open alert of any type. */
  ghost predicate Settled(w: World, doctype: string, name: string) {
    forall key :: About(key, doctype, name) ==> OpenCount(w.log, key) == 0
  }

  /** An event keeps the ledger sound exactly when it does not delete a document that still has
      an open alert: `_sync_pve_guests` drops a guest's record, flags and all, and leaves its alerts. */
  lemma {:induction false} EventKeepsSoundIff(w: World, e: Event)
    requires Sound(w)
    ensures Sound(Apply(w, e)) <==> (e.Forget? ==> Settled(w, e.doctype, e.name))
  {
    if e.Forget? && !Settled(w, e.doctype, e.name) {
      var key :| About(key, e.doctype, e.name) && OpenCount(w.log, key) != 0;
      assert OpenCount(Apply(w, e).log, key) == 1 && key !in Apply(w, e).flags;
    } else {
      forall key
        ensures OpenCount(Apply(w, e).log, key) <= 1
        ensures OpenCount(Apply(w, e).log, key) == 1 ==> key in Apply(w, e).flags
      {
        EventKeepsKeySound(w, e, key);
      }
    }
  }

  lemma {:induction false} EventKeepsKeySound(w: World, e: Event, key: Key)
    requires Sound(w) && (e.Forget? ==> Settled(w, e.doctype, e.name))
    ensures OpenCount(Apply(w, e).log, key) <= 1
    ensures OpenCount(Apply(w, e).log, key) == 1 ==> key in Apply(w, e).flags
  {
    assert OpenCount(w.log, key) <= 1 && (OpenCount(w.log, key) == 1 ==> key in w.flags);
    if e.Evaluate? {
      TransitionCounts(w.log, e.key in w.flags, e.now, e.key, e.announces, key);
    } else {
      OutsideEditsOnlyClose(w, e, key);
    }
  }

  /** Every document that is deleted has no open alert at that moment. */
  ghost predicate ForgetsSettled(w: World, events: seq<Event>)
    decreases |events|
  {
    events != [] ==>
      && (events[0].Forget? ==> Settled(w, events[0].doctype, events[0].name))
      && ForgetsSettled(Apply(w, events[0]), events[1..])
  }

  /** The ledger is sound at every moment of the run. */
  ghost predicate AlwaysSound(w: World, events: seq<Event>)
    decreases |events|
  {
    Sound(w) && (events != [] ==> AlwaysSound(Apply(w, events[0]), events[1..]))
  }

  /** Whatever evaluations, outside edits and deletions happen, in any order, the ledger is sound
      at every moment exactly when no document is deleted while it has an open alert. */
  lemma {:induction false} LedgerStaysSound(w: World, events: seq<Event>)
    requires Sound(w)
    ensures AlwaysSound(w, events) <==> ForgetsSettled(w, events)
    ensures ForgetsSettled(w, events) ==> Sound(ApplyAll(w, events))
    decreases |events|
  {
    if events != [] {
      EventKeepsSoundIff(w, events[0]);
      var w' := Apply(w, events[0]);
      if Sound(w') {
        LedgerStaysSound(w', events[1..]);
      } else {
        assert !AlwaysSound(w', events[1..]);
      }
    }
  }

  /** What the next evaluation finds, in whatever state the log and the flag are: afterwards an
      alert is open, and only one, exactly when the condition holds, unless the flag was lost with
      an alert open, or more than one was. */
  lemma {:induction false} EvaluationHealsIff(w: World, key: Key, now: bool, announces: bool)
    ensures
      var w' := Apply(w, Evaluate(key, now, announces));
      && (key in w'.flags <==> now)
      && (OpenCount(w'.log, key) == (if now then 1 else 0) <==>
          if key in w.flags then now ==> OpenCount(w.log, key) <= 1 else OpenCount(w.log, key) == 0)
  {
    TransitionCounts(w.log, key in w.flags, now, key, announces, key);
  }

  /** So after any run that deletes no document with an open alert, the next evaluation of a key
      leaves an alert open exactly when its condition holds, however the log was edited before. */
  lemma {:induction false} EvaluationHeals(events: seq<Event>, key: Key, now: bool, announces: bool)
    requires ForgetsSettled(World([], {}), events)
    ensures
      var w := Apply(ApplyAll(World([], {}), events), Evaluate(key, now, announces));
      OpenCount(w.log, key) == (if now then 1 else 0) && (key in w.flags <==> now)
  {
    LedgerStaysSound(World([], {}), events);
    EvaluationHealsIff(ApplyAll(World([], {}), events), key, now, announces);
  }

  /** And a guest deleted with an open alert that comes back critical has two. */
  lemma {:induction false} ForgettingTheDocument(w: World, key: Key, announces: bool)
    requires Sound(w) && OpenCount(w.log, key) == 1
    ensures
      var forgotten := Apply(w, Forget(key.doctype, key.name));
      && !Sound(forgotten)
      && OpenCount(Apply(forgotten, Evaluate(key, true, announces)).log, key) == 2
      && OpenCount(Apply(forgotten, Evaluate(key, false, announces)).log, key) == 1
  {
    var forgotten := Apply(w, Forget(key.doctype, key.name));
    EventKeepsSoundIff(w, Forget(key.doctype, key.name));
    assert About(key, key.doctype, key.name);
    TransitionCounts(w.log, false, true, key, announces, key);
    TransitionCounts(w.log, false, false, key, announces, key);
  }
}
