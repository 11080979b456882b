/**
 Two-id loop hand-off with a watchdog (tasks/jobs.py and the loop bounds of
 tasks/poller.py).

 A poll loop runs under two job ids in turn.  The queue keeps a record per id while
 a job is queued or started; a worker run is what really executes.  The two are kept
 apart so that a killed worker can leave a started record behind, and so that
 deleting the record of a live run would show.  Time is in seconds.
 */
module PollJobs {

  const MAX_LOOP := 300
  const TIMEOUT := MAX_LOOP + 120
  const STALE := MAX_LOOP + 300

  datatype JobId = First | Second

  datatype Record = Queued(enqueuedAt: int) | Started(enqueuedAt: int, startedAt: int)

  /** One execution of the loop by a worker; it ends by finishing, once it has stopped polling. */
  datatype Run = Run(serial: nat, id: JobId, startedAt: int, polling: bool)

  type Records = map<JobId, Record>

  datatype State = State(now: int, beatUntil: int, records: Records, runs: set<Run>, next: nat)

  // ---------------------------------------------------------------------------
  // tasks/jobs.py
  // ---------------------------------------------------------------------------

  function Other(id: JobId): JobId {
    if id.First? then Second else First
  }

  function Since(r: Record): int {
    if r.Started? then r.startedAt else r.enqueuedAt
  }

  function ClearStale(records: Records, id: JobId, now: int): Records {
    if id in records && now - Since(records[id]) >= STALE then records - {id} else records
  }

  /** `enqueue(..., deduplicate=True)`: refused while the id is queued or started. */
  function Enqueue(records: Records, id: JobId, now: int): Records {
    if id in records then records else records[id := Queued(now)]
  }

  function Tick(records: Records, beat: bool, now: int): Records {
    if beat then records
    else
      var left := ClearStale(ClearStale(records, First, now), Second, now);
      if First in left || Second in left then left else Enqueue(left, First, now)
  }

  lemma {:induction false} NoRecords(records: Records)
    requires First !in records && Second !in records
    ensures records == map[]
  {
    assert forall id: JobId :: id !in records by {
      forall id: JobId
        ensures id !in records
      {
        match id
        case First =>
        case Second =>
      }
    }
  }

  /** No real run is that old: since its start, or since it was queued if it never started. */
  ghost predicate OverAge(r: Record, now: int) {
    match r
    case Queued(enqueuedAt) => now - enqueuedAt >= STALE
    case Started(_, startedAt) => now - startedAt >= STALE
  }

  /** The records a tick leaves alone, whoever owns them. */
  ghost function Young(records: Records, now: int): Records {
    map id | id in records && !OverAge(records[id], now) :: records[id]
  }

  lemma {:induction false} ClearingLeavesTheYoung(records: Records, now: int)
    ensures ClearStale(ClearStale(records, First, now), Second, now) == Young(records, now)
  {
    var left := ClearStale(ClearStale(records, First, now), Second, now);
    forall id: JobId
      ensures id in left <==> id in Young(records, now)
      ensures id in left ==> left[id] == records[id]
    {
      match id
      case First =>
      case Second =>
    }
  }

  /** A tick touches nothing while the heartbeat lasts.  Without it every record younger than the
      stale age stays as it is and every older one goes; a fresh loop is queued exactly when none
      is left. */
  lemma {:induction false} TickMeans(records: Records, beat: bool, now: int)
    ensures Tick(records, beat, now) ==
      if beat then records
      else if exists id :: id in records && !OverAge(records[id], now) then Young(records, now)
      else map[First := Queued(now)]
  {
    ClearingLeavesTheYoung(records, now);
    var young := Young(records, now);
    if First !in young && Second !in young {
      NoRecords(young);
      forall id | id in records
        ensures OverAge(records[id], now)
      {
        assert id !in young;
      }
    } else {
      var id := if First in young then First else Second;
      assert id in records && !OverAge(records[id], now);
    }
  }

  class JobQueue {
    var records: Records

    /** Delete a record no real run could be old enough to own. */
    method ClearStaleJob(id: JobId, now: int) returns (cleared: bool)
      modifies this
      ensures records == ClearStale(old(records), id, now)
      ensures cleared <==> id in old(records) && OverAge(old(records)[id], now)
      ensures records == if cleared then old(records) - {id} else old(records)
    {
      if id !in records {
        return false;
      }
      var record := records[id];
      var since := if record.Started? then record.startedAt else record.enqueuedAt;
      if now - since < STALE {
        return false;
      }
      records := records - {id};
      cleared := true;
    }

    /** Watchdog half: start the loop unless it is alive. */
    method StartLoopIfNeeded(heartbeat: bool, now: int) returns (started: bool)
      modifies this
      ensures records == Tick(old(records), heartbeat, now)
      ensures started <==> !heartbeat && forall id :: id in old(records) ==> OverAge(old(records)[id], now)
      ensures started ==> records == map[First := Queued(now)]
      ensures !started && !heartbeat ==> records == Young(old(records), now)
      ensures heartbeat ==> records == old(records)
    {
      if heartbeat {
        return false;
      }
      TickMeans(records, heartbeat, now);
      var c1 := ClearStaleJob(First, now);
      var c2 := ClearStaleJob(Second, now);
      if First in records || Second in records {
        return false;
      }
      NoRecords(records);
      records := records[First := Queued(now)];
      started := true;
    }

    /** Loop half: queue the next run under the other id. */
    method HandOffLoop(current: JobId, now: int)
      modifies this
      ensures records == Enqueue(old(records), Other(current), now)
      ensures forall id :: id in old(records) ==> id in records && records[id] == old(records)[id]
      ensures forall id :: id != current && id !in old(records) ==> id in records && records[id] == Queued(now)
      ensures current !in old(records) ==> current !in records
    {
      var successor := if current == First then Second else First;
      if successor !in records {
        records := records[successor := Queued(now)];
      }
    }
  }

  // ---------------------------------------------------------------------------
  // Everything that can happen
  // ---------------------------------------------------------------------------

  datatype Action =
    | Pass(seconds: nat)       // time goes by
    | Watchdog                 // one watchdog tick
    | Begin(id: JobId)         // a worker takes a queued job
    | Beat(run: Run, ttl: nat) // a polling run refreshes the heartbeat
    | HandOff(run: Run)        // a run reaches its bound and queues its successor
    | Stop(run: Run)           // a run is told to stop, or has nothing to do
    | Finish(run: Run)         // the job of a run that stopped polling ends
    | Fail(run: Run)           // the job raises, or is killed at its timeout
    | Kill(run: Run)           // the worker dies, its started record stays
    | Sweep(id: JobId)         // the queue drops a record nobody runs

  const INIT := State(0, 0, map[], {}, 0)

  /** The queue kills a job at its timeout, so time never takes a run past it. */
  ghost predicate Enabled(s: State, a: Action) {
    match a
    case Pass(d) => forall r :: r in s.runs ==> s.now + d <= r.startedAt + TIMEOUT
    case Watchdog => true
    case Begin(id) => id in s.records && s.records[id].Queued?
    case Beat(r, _) => r in s.runs && r.polling
    case HandOff(r) => r in s.runs && r.polling && s.now - r.startedAt >= MAX_LOOP
    case Stop(r) => r in s.runs && r.polling
    case Finish(r) => r in s.runs && !r.polling
    case Fail(r) => r in s.runs
    case Kill(r) => r in s.runs
    case Sweep(id) => forall r :: r in s.runs ==> r.id != id
  }

  function Retire(runs: set<Run>, r: Run): set<Run> {
    runs - {r} + {r.(polling := false)}
  }

  function Next(s: State, a: Action): State
    requires Enabled(s, a)
  {
    match a
    case Pass(d) => s.(now := s.now + d)
    case Watchdog => s.(records := Tick(s.records, s.now < s.beatUntil, s.now))
    case Begin(id) =>
      s.(records := s.records[id := Started(s.records[id].enqueuedAt, s.now)],
         runs := s.runs + {Run(s.next, id, s.now, true)},
         next := s.next + 1)
    case Beat(_, ttl) => s.(beatUntil := s.now + ttl)
    case HandOff(r) => s.(records := Enqueue(s.records, Other(r.id), s.now), runs := Retire(s.runs, r))
    case Stop(r) => s.(runs := Retire(s.runs, r))
    case Finish(r) => s.(records := s.records - {r.id}, runs := s.runs - {r})
    case Fail(r) => s.(records := s.records - {r.id}, runs := s.runs - {r})
    case Kill(r) => s.(runs := s.runs - {r})
    case Sweep(id) => s.(records := s.records - {id})
  }

  ghost predicate Possible(s: State, acts: seq<Action>)
    decreases |acts|
  {
    acts != [] ==> Enabled(s, acts[0]) && Possible(Next(s, acts[0]), acts[1..])
  }

  ghost function Exec(s: State, acts: seq<Action>): State
    requires Possible(s, acts)
    decreases |acts|
  {
    if acts == [] then s else Exec(Next(s, acts[0]), acts[1..])
  }

  // ---------------------------------------------------------------------------
  // The invariant
  // ---------------------------------------------------------------------------

  /** At most one loop is queued or still polling. */
  ghost predicate AtMostOneLive(s: State) {
    && (forall r, r' :: r in s.runs && r' in s.runs && r.polling && r'.polling ==> r == r')
    && (forall id, id' :: id in s.records && id' in s.records && s.records[id].Queued? && s.records[id'].Queued? ==>
      id == id')
    && (forall r, id :: r in s.runs && r.polling && id in s.records ==> !s.records[id].Queued?)
  }

  /** Every run owns the started record of its id, and has not outlived its timeout. */
  ghost predicate RunsOwnRecords(s: State) {
    && (forall r :: r in s.runs ==>
          && r.id in s.records && s.records[r.id].Started? && s.records[r.id].startedAt == r.startedAt
          && r.startedAt <= s.now <= r.startedAt + TIMEOUT)
    && (forall r, r' :: r in s.runs && r' in s.runs && r.id == r'.id ==> r == r')
  }

  /** A live loop beside another run began a whole loop bound after that run. */
  ghost predicate Spaced(s: State) {
    && (forall r, r' :: r in s.runs && r' in s.runs && r.polling && r != r' ==> r.startedAt >= r'.startedAt + MAX_LOOP)
    && (forall r, id :: r in s.runs && id in s.records && s.records[id].Queued? ==>
      s.records[id].enqueuedAt >= r.startedAt + MAX_LOOP)
    && (forall id :: id in s.records ==> s.records[id].enqueuedAt <= s.now && Since(s.records[id]) <= s.now)
  }

  ghost predicate Inv(s: State) {
    AtMostOneLive(s) && RunsOwnRecords(s) && Spaced(s)
  }

  /** The record of a run that is still executing is never old enough to be cleared. */
  lemma {:induction false} TickSparesRuns(s: State, r: Run)
    requires RunsOwnRecords(s) && r in s.runs
    ensures
      var left := Tick(s.records, s.now < s.beatUntil, s.now);
      r.id in left && left[r.id] == s.records[r.id]
  {
  }

  lemma {:induction false} TickKeepsInv(s: State)
    requires Inv(s)
    ensures Inv(Next(s, Watchdog))
  {
    var left := Tick(s.records, s.now < s.beatUntil, s.now);
    forall r | r in s.runs
      ensures r.id in left && left[r.id] == s.records[r.id]
    {
      TickSparesRuns(s, r);
    }
    TickOnlyRestarts(s.records, s.now < s.beatUntil, s.now);
  }

  /** A tick leaves some of the records as they were, or a single fresh one. */
  lemma {:induction false} TickOnlyRestarts(records: Records, beat: bool, now: int)
    ensures
      var left := Tick(records, beat, now);
      || left == map[First := Queued(now)]
      || forall id :: id in left ==> id in records && left[id] == records[id]
  {
    var left := ClearStale(ClearStale(records, First, now), Second, now);
    if First !in left && Second !in left {
      NoRecords(left);
    }
  }

  /** When a run hands off, no other run is left: the one before it has hit its timeout. */
  lemma {:induction false} HandOffIsAlone(s: State, r: Run)
    requires Inv(s) && Enabled(s, HandOff(r))
    ensures s.runs == {r}
  {
    forall r' | r' in s.runs
      ensures r' == r
    {
    }
  }

  lemma {:induction false} BeginKeepsInv(s: State, id: JobId)
    requires Inv(s) && Enabled(s, Begin(id))
    ensures Inv(Next(s, Begin(id)))
  {
    var s' := Next(s, Begin(id));
    assert forall r :: r in s.runs ==> r.id != id;
    assert RunsOwnRecords(s');
    assert AtMostOneLive(s');
  }

  lemma {:induction false} HandOffKeepsInv(s: State, r: Run)
    requires Inv(s) && Enabled(s, HandOff(r))
    ensures Inv(Next(s, HandOff(r)))
  {
    HandOffIsAlone(s, r);
    assert Next(s, HandOff(r)).runs == {r.(polling := false)};
  }

  lemma {:induction false} StopKeepsInv(s: State, r: Run)
    requires Inv(s) && Enabled(s, Stop(r))
    ensures Inv(Next(s, Stop(r)))
  {
    var s' := Next(s, Stop(r));
    assert forall q :: q in s'.runs ==> (q in s.runs && q != r) || q == r.(polling := false);
  }

  lemma {:induction false} EndKeepsInv(s: State, r: Run)
    requires Inv(s) && r in s.runs
    ensures Inv(Next(s, Fail(r)))
  {
    assert forall q :: q in s.runs && q != r ==> q.id != r.id;
  }

  lemma {:induction false} KillKeepsInv(s: State, r: Run)
    requires Inv(s) && r in s.runs
    ensures Inv(Next(s, Kill(r)))
  {
  }

  lemma {:induction false} PassKeepsInv(s: State, d: nat)
    requires Inv(s) && Enabled(s, Pass(d))
    ensures Inv(Next(s, Pass(d)))
  {
  }

  lemma {:induction false} SweepKeepsInv(s: State, id: JobId)
    requires Inv(s) && Enabled(s, Sweep(id))
    ensures Inv(Next(s, Sweep(id)))
  {
  }

  lemma {:induction false} StepKeepsInv(s: State, a: Action)
    requires Inv(s) && Enabled(s, a)
    ensures Inv(Next(s, a))
  {
    match a
    case Pass(d) => PassKeepsInv(s, d);
    case Watchdog => TickKeepsInv(s);
    case Begin(id) => BeginKeepsInv(s, id);
    case Beat(_, _) =>
    case HandOff(r) => HandOffKeepsInv(s, r);
    case Stop(r) => StopKeepsInv(s, r);
    case Finish(r) => EndKeepsInv(s, r);
    case Fail(r) => EndKeepsInv(s, r);
    case Kill(r) => KillKeepsInv(s, r);
    case Sweep(id) => SweepKeepsInv(s, id);
  }

  lemma {:induction false} RunKeepsInv(s: State, acts: seq<Action>)
    requires Inv(s) && Possible(s, acts)
    ensures Inv(Exec(s, acts))
    decreases |acts|
  {
    if acts != [] {
      StepKeepsInv(s, acts[0]);
      RunKeepsInv(Next(s, acts[0]), acts[1..]);
    }
  }

  /** Safety over whole runs: whatever ticks, hand-offs, stops, failures and killed
      workers happen, at most one loop is queued or polling. */
  lemma {:induction false} AtMostOneLoop(acts: seq<Action>)
    requires Possible(INIT, acts)
    ensures AtMostOneLive(Exec(INIT, acts))
  {
    RunKeepsInv(INIT, acts);
  }

  /** No tick, at any point of any run, deletes the record of a loop that still executes. */
  lemma {:induction false} NoTickDeletesALiveLoop(acts: seq<Action>, r: Run)
    requires Possible(INIT, acts) && r in Exec(INIT, acts).runs
    ensures
      var s := Exec(INIT, acts);
      r.id in s.records && r.id in Next(s, Watchdog).records && Next(s, Watchdog).records[r.id] == s.records[r.id]
  {
    RunKeepsInv(INIT, acts);
    TickSparesRuns(Exec(INIT, acts), r);
  }

  /** A hand-off is refused only by a leftover record: at that point no other worker
      runs, so either the successor is queued or a dead record holds its id. */
  lemma {:induction false} HandOffYieldsOnlyToLeftovers(acts: seq<Action>, r: Run)
    requires Possible(INIT, acts) && Enabled(Exec(INIT, acts), HandOff(r))
    ensures
      var s := Exec(INIT, acts);
      var s' := Next(s, HandOff(r));
      && s.runs == {r} && Other(r.id) != r.id
      && Other(r.id) in s'.records
      && (Other(r.id) !in s.records ==> s'.records[Other(r.id)] == Queued(s.now))
      && (Other(r.id) in s.records ==> s.records[Other(r.id)].Started? && s'.records == s.records)
  {
    RunKeepsInv(INIT, acts);
    HandOffIsAlone(Exec(INIT, acts), r);
  }

  /** With no heartbeat and only over-age records, a tick leaves exactly one fresh queued loop. */
  lemma {:induction false} TickRestartsDeadLoop(records: Records, now: int)
    requires forall id :: id in records ==> now - Since(records[id]) >= STALE
    ensures Tick(records, false, now) == map[First := Queued(now)]
  {
    NoRecords(ClearStale(ClearStale(records, First, now), Second, now));
  }

  /** No worker runs, and every record is queued or was started by `since`. */
  ghost predicate Abandoned(s: State, since: int) {
    && s.runs == {}
    && forall id :: id in s.records ==> s.records[id].Queued? || s.records[id].startedAt <= since
  }

  /** As long as no worker takes a job, time, ticks and sweeps are all that can happen. */
  lemma {:induction false} AbandonedStep(s: State, a: Action, since: int)
    requires Abandoned(s, since) && Enabled(s, a) && !a.Begin?
    ensures Abandoned(Next(s, a), since) && Next(s, a).beatUntil == s.beatUntil && Next(s, a).now >= s.now
  {
    TickOnlyRestarts(s.records, s.now < s.beatUntil, s.now);
  }

  lemma {:induction false} StaysAbandoned(s: State, acts: seq<Action>, since: int)
    requires Abandoned(s, since) && Possible(s, acts) && forall i :: 0 <= i < |acts| ==> !acts[i].Begin?
    ensures Abandoned(Exec(s, acts), since) && Exec(s, acts).beatUntil == s.beatUntil
    decreases |acts|
  {
    if acts != [] {
      AbandonedStep(s, acts[0], since);
      StaysAbandoned(Next(s, acts[0]), acts[1..], since);
    }
  }

  /** By then a tick clears every started record, and queues the loop unless it still is. */
  lemma {:induction false} LateTickQueues(s: State, since: int)
    requires Abandoned(s, since) && s.now >= since + STALE && s.now >= s.beatUntil
    ensures exists id :: id in Next(s, Watchdog).records && Next(s, Watchdog).records[id].Queued?
  {
    var after := Next(s, Watchdog).records;
    var left := ClearStale(ClearStale(s.records, First, s.now), Second, s.now);
    if First in left {
      assert after[First].Queued?;
    } else if Second in left {
      assert after[Second].Queued?;
    } else {
      assert after[First] == Queued(s.now);
    }
  }

  /** Recovery in bounded time: from any reachable state where every worker is gone, through
      any ticks, sweeps and passing time, as soon as the stale age has passed and the heartbeat
      has run out, the next tick leaves the loop queued. */
  lemma {:induction false} WatchdogRecovers(acts: seq<Action>, quiet: seq<Action>)
    requires Possible(INIT, acts) && Exec(INIT, acts).runs == {}
    requires Possible(Exec(INIT, acts), quiet) && forall i :: 0 <= i < |quiet| ==> !quiet[i].Begin?
    ensures
      var s := Exec(INIT, acts);
      var later := Exec(s, quiet);
      later.now >= s.now + STALE && later.now >= s.beatUntil ==>
        exists id :: id in Next(later, Watchdog).records && Next(later, Watchdog).records[id].Queued?
  {
    var s := Exec(INIT, acts);
    assert Inv(s) by {
      RunKeepsInv(INIT, acts);
    }
    StaysAbandoned(s, quiet, s.now);
    var later := Exec(s, quiet);
    if later.now >= s.now + STALE && later.now >= s.beatUntil {
      LateTickQueues(later, s.now);
    }
  }
}
