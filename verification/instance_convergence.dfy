/**
 Keeping Uptime Kuma instances in step (uptime_monitor/api.py): importing the monitors
 Kuma has and Pulse does not, then creating on an instance the sites its siblings have.

 Kuma numbers its monitors upwards and never reuses a number.  An instance may not answer
 and a creation may fail at any of its steps; nothing else changes sites or monitors meanwhile.
 */
module InstanceConvergence {
  /** Pulse models three of Kuma's monitor types. */
  datatype Kind = Http | Tcp | Ping | Unsupported(slug: string)

  datatype Definition = Definition(kind: Kind, target: string, interval: nat, active: bool)

  datatype Monitor = Monitor(name: string, def: Definition)

  datatype Ref = Ref(instance: string, id: int)

  /** An `Uptime Site` row; rows are kept in order of creation. */
  datatype Site = Site(ref: Ref, name: string, def: Definition)

  /** How one creation goes: all done; the monitor could not be added; the row could not be saved
      and the new monitor was deleted again; or it could not be deleted either. */
  datatype Outcome = Created | NotAdded | CleanedUp | Orphaned

  /** What one pass meets: which instances answer, and how each creation there goes. */
  datatype Env = Env(answers: string -> bool, creation: (string, string) -> Outcome)

  ghost predicate ErrorFree(env: Env) {
    (forall i :: env.answers(i)) && forall i, n :: env.creation(i, n).Created?
  }

  predicate Supported(d: Definition) {
    !d.kind.Unsupported?
  }

  const DEFAULT_INTERVAL := 60

  /** `b` checks the same thing in the same way as `a`: a missing interval becomes the default. */
  ghost predicate SameCheck(a: Definition, b: Definition) {
    && b.kind == a.kind && b.target == a.target && b.active == a.active
    && b.interval == if a.interval != 0 then a.interval else DEFAULT_INTERVAL
  }

  /** An interval of 0 is stored as the default. */
  function Stored(d: Definition): Definition {
    if d.interval == 0 then d.(interval := DEFAULT_INTERVAL) else d
  }

  // ---------------------------------------------------------------------------
  // Reading the table
  // ---------------------------------------------------------------------------

  ghost predicate HasRow(rows: seq<Site>, r: Ref) {
    exists k :: 0 <= k < |rows| && rows[k].ref == r
  }

  /** The names of one instance's sites. */
  ghost function Names(rows: seq<Site>, instance: string): set<string> {
    set k | 0 <= k < |rows| && rows[k].ref.instance == instance :: rows[k].name
  }

  /** The names of the sites of several instances. */
  ghost function NamesOf(rows: seq<Site>, instances: set<string>): set<string> {
    set k | 0 <= k < |rows| && rows[k].ref.instance in instances :: rows[k].name
  }

  ghost predicate NoDoubles(rows: seq<Site>) {
    forall k, l :: 0 <= k < l < |rows| ==> rows[k].ref != rows[l].ref
  }

  /** Every supported monitor of the instance has a row. */
  ghost predicate Imported(rows: seq<Site>, monitors: map<Ref, Monitor>, instance: string) {
    forall r :: r in monitors && r.instance == instance && monitors[r].def.kind in {Http, Tcp, Ping} ==> HasRow(rows, r)
  }

  /** Row `k` is the oldest of its name among those instances. */
  ghost predicate Oldest(rows: seq<Site>, instances: set<string>, k: nat) {
    && k < |rows| && rows[k].ref.instance in instances
    && forall l :: 0 <= l < k && rows[l].ref.instance in instances ==> rows[l].name != rows[k].name
  }

  ghost predicate IsTemplate(rows: seq<Site>, instances: set<string>, s: Site) {
    exists k :: 0 <= k < |rows| && rows[k] == s && Oldest(rows, instances, k)
  }

  /** `s` has the name and definition of the oldest such row. */
  ghost predicate CopiesTemplate(rows: seq<Site>, instances: set<string>, s: Site) {
    exists k :: 0 <= k < |rows| && s.name == rows[k].name && SameCheck(rows[k].def, s.def) && Oldest(rows, instances, k)
  }

  lemma {:induction false} NamesAppend(rows: seq<Site>, s: Site, instances: set<string>)
    ensures NamesOf(rows + [s], instances) ==
      NamesOf(rows, instances) + (if s.ref.instance in instances then {s.name} else {})
  {
    var more := rows + [s];
    forall n | n in NamesOf(rows, instances)
      ensures n in NamesOf(more, instances)
    {
      var k :| 0 <= k < |rows| && rows[k].ref.instance in instances && rows[k].name == n;
      assert more[k] == rows[k];
    }
    if s.ref.instance in instances {
      assert more[|rows|] == s;
    }
  }

  lemma {:induction false} NamesAreNamesOf(rows: seq<Site>, instance: string)
    ensures Names(rows, instance) == NamesOf(rows, {instance})
  {
  }

  lemma {:induction false} HasRowAppend(rows: seq<Site>, s: Site, r: Ref)
    ensures HasRow(rows + [s], r) <==> HasRow(rows, r) || r == s.ref
  {
    var more := rows + [s];
    if HasRow(rows, r) {
      var k :| 0 <= k < |rows| && rows[k].ref == r;
      assert more[k].ref == r;
    }
    assert more[|rows|] == s;
  }

  ghost function SiteNames(ts: seq<Site>): set<string> {
    set t | 0 <= t < |ts| :: ts[t].name
  }

  lemma {:induction false} SiteNamesAppend(ts: seq<Site>, s: Site)
    ensures SiteNames(ts + [s]) == SiteNames(ts) + {s.name}
  {
    var more := ts + [s];
    assert more[|ts|] == s;
    forall n | n in SiteNames(ts)
      ensures n in SiteNames(more)
    {
      var t :| 0 <= t < |ts| && ts[t].name == n;
      assert more[t] == ts[t];
    }
  }

  lemma {:induction false} NextTemplate(ts: seq<Site>, t: nat)
    requires t < |ts| && forall i, j :: 0 <= i < j < |ts| ==> ts[i].name != ts[j].name
    ensures SiteNames(ts[..t + 1]) == SiteNames(ts[..t]) + {ts[t].name} && ts[t].name !in SiteNames(ts[..t])
  {
    assert ts[..t + 1] == ts[..t] + [ts[t]];
    SiteNamesAppend(ts[..t], ts[t]);
  }

  /** `after` adds rows of one instance only. */
  ghost predicate Extends(before: seq<Site>, after: seq<Site>, instance: string) {
    before <= after && forall k :: |before| <= k < |after| ==> after[k].ref.instance == instance
  }

  lemma {:induction false} ExtendNames(before: seq<Site>, after: seq<Site>, instance: string, instances: set<string>)
    requires Extends(before, after, instance)
    ensures NamesOf(after, instances) ==
      NamesOf(before, instances) + (if instance in instances then Names(after, instance) else {})
  {
    forall n | n in NamesOf(before, instances)
      ensures n in NamesOf(after, instances)
    {
      var k :| 0 <= k < |before| && before[k].ref.instance in instances && before[k].name == n;
      assert after[k] == before[k];
    }
    forall n | n in NamesOf(after, instances)
      ensures n in NamesOf(before, instances) || (instance in instances && n in Names(after, instance))
    {
      var k :| 0 <= k < |after| && after[k].ref.instance in instances && after[k].name == n;
      if k < |before| {
        assert before[k] == after[k];
      }
    }
    if instance in instances {
      forall n | n in Names(after, instance)
        ensures n in NamesOf(after, instances)
      {
        var k :| 0 <= k < |after| && after[k].ref.instance == instance && after[k].name == n;
        assert after[k].ref.instance in instances;
      }
    }
  }

  lemma {:induction false} SplitNames(rows: seq<Site>, instance: string, instances: set<string>)
    requires instance in instances
    ensures NamesOf(rows, instances) == Names(rows, instance) + NamesOf(rows, instances - {instance})
  {
    forall n | n in NamesOf(rows, instances)
      ensures n in Names(rows, instance) || n in NamesOf(rows, instances - {instance})
    {
      var k :| 0 <= k < |rows| && rows[k].ref.instance in instances && rows[k].name == n;
      assert rows[k].ref.instance == instance || rows[k].ref.instance in instances - {instance};
    }
  }

  /** Adding rows, and monitors that have rows, loses no import. */
  lemma {:induction false} ImportedStays(
    before: seq<Site>, after: seq<Site>, m: map<Ref, Monitor>, m': map<Ref, Monitor>, instance: string)
    requires before <= after && Imported(before, m, instance)
    requires forall r :: r in m' ==> (r in m && m'[r] == m[r]) || HasRow(after, r)
    ensures Imported(after, m', instance)
  {
    forall r | r in m' && r.instance == instance && Supported(m'[r].def)
      ensures HasRow(after, r)
    {
      if r in m && m'[r] == m[r] {
        var k :| 0 <= k < |before| && before[k].ref == r;
        assert after[k].ref == r;
      }
    }
  }

  // ---------------------------------------------------------------------------
  // What the two halves of a turn do to rows and monitors
  // ---------------------------------------------------------------------------

  type Monitors = map<Ref, Monitor>

  ghost predicate ImportStep(m: Monitors, instance: string, rows: seq<Site>, rows': seq<Site>) {
    && Extends(rows, rows', instance)
    && Imported(rows', m, instance)
    && (forall k :: |rows| <= k < |rows'| ==>
          rows'[k].ref in m && rows'[k].name == m[rows'[k].ref].name && SameCheck(m[rows'[k].ref].def, rows'[k].def))
    && (Imported(rows, m, instance) ==> rows' == rows)
  }

  /** The import is through all monitors of the instance but those in `todo`. */
  ghost predicate Importing(m: Monitors, instance: string, todo: set<Ref>, rows: seq<Site>, rows': seq<Site>) {
    && Extends(rows, rows', instance)
    && (forall r :: r in todo ==> r in m && r.instance == instance)
    && (forall r :: r in m && r.instance == instance && r !in todo && Supported(m[r].def) ==> HasRow(rows', r))
    && (forall k :: |rows| <= k < |rows'| ==>
          rows'[k].ref in m && rows'[k].name == m[rows'[k].ref].name && SameCheck(m[rows'[k].ref].def, rows'[k].def))
    && (Imported(rows, m, instance) ==> rows' == rows)
  }

  lemma {:induction false} ImportOneMore(
    m: Monitors, instance: string, todo: set<Ref>, rows: seq<Site>, rows': seq<Site>, r: Ref, after: seq<Site>)
    requires Importing(m, instance, todo, rows, rows') && r in todo
    requires after ==
      if Supported(m[r].def) && !HasRow(rows', r) then rows' + [Site(r, m[r].name, Stored(m[r].def))] else rows'
    ensures Importing(m, instance, todo - {r}, rows, after)
  {
    if after != rows' {
      forall q: Ref
        ensures HasRow(after, q) <==> HasRow(rows', q) || q == r
      {
        HasRowAppend(rows', after[|rows'|], q);
      }
    }
  }

  /** Monitors are only added, each with its row if nothing failed. */
  ghost predicate AddsMonitors(m: Monitors, m': Monitors, rows': seq<Site>, clean: bool) {
    && (forall r :: r in m ==> r in m' && m'[r] == m[r])
    && (clean ==> forall r :: r in m' && r !in m ==> HasRow(rows', r))
  }

  /** Of the `names` of the others, all but those in `errors` are on the instance now. */
  ghost predicate CreateStep(
    others: set<string>, instance: string, names: set<string>, errors: set<string>,
    rows: seq<Site>, m: Monitors, rows': seq<Site>, m': Monitors)
  {
    && Extends(rows, rows', instance)
    && AddsMonitors(m, m', rows', errors == {})
    && errors <= names && errors !! Names(rows, instance)
    && Names(rows', instance) == Names(rows, instance) + (names - errors)
    && (forall k :: |rows| <= k < |rows'| ==> CopiesTemplate(rows, others, rows'[k]))
    && (names <= Names(rows, instance) ==> rows' == rows && m' == m)
  }

  lemma {:induction false} AddOneMonitor(m: Monitors, m': Monitors, rows': seq<Site>, s: Site, clean: bool)
    requires AddsMonitors(m, m', rows', clean) && s.ref !in m'
    ensures AddsMonitors(m, m'[s.ref := Monitor(s.name, s.def)], rows' + [s], clean)
  {
    forall r: Ref
      ensures HasRow(rows' + [s], r) <==> HasRow(rows', r) || r == s.ref
    {
      HasRowAppend(rows', s, r);
    }
  }

  lemma {:induction false} CreateOneMore(
    others: set<string>, instance: string, names: set<string>, errors: set<string>,
    rows: seq<Site>, m: Monitors, rows': seq<Site>, m': Monitors, t: Site, s: Site)
    requires CreateStep(others, instance, names, errors, rows, m, rows', m')
    requires IsTemplate(rows, others, t) && t.name !in Names(rows, instance) && t.name !in names
    requires s == Site(s.ref, t.name, Stored(t.def)) && s.ref.instance == instance && s.ref !in m'
    ensures CreateStep(
      others, instance, names + {t.name}, errors, rows, m, rows' + [s], m'[s.ref := Monitor(s.name, s.def)])
  {
    AddOneMonitor(m, m', rows', s, errors == {});
    NamesAppend(rows', s, {instance});
    NamesAreNamesOf(rows', instance);
    NamesAreNamesOf(rows' + [s], instance);
    assert CopiesTemplate(rows, others, s);
  }

  /** A creation that failed may leave a monitor without a row, and never a row. */
  lemma {:induction false} FailOneMore(
    others: set<string>, instance: string, names: set<string>, errors: set<string>,
    rows: seq<Site>, m: Monitors, rows': seq<Site>, m': Monitors, name: string, m'': Monitors)
    requires CreateStep(others, instance, names, errors, rows, m, rows', m')
    requires name !in Names(rows, instance) && name !in names
    requires forall r :: r in m' ==> r in m'' && m''[r] == m'[r]
    ensures CreateStep(others, instance, names + {name}, errors + {name}, rows, m, rows', m'')
  {
    assert names + {name} - (errors + {name}) == names - errors;
  }

  lemma {:induction false} NothingMissing(
    others: set<string>, instance: string, names: set<string>, errors: set<string>,
    rows: seq<Site>, m: Monitors, rows': seq<Site>, m': Monitors, name: string)
    requires CreateStep(others, instance, names, errors, rows, m, rows', m') && name in Names(rows, instance)
    ensures CreateStep(others, instance, names + {name}, errors, rows, m, rows', m')
  {
  }

  /** One instance's turn, seen from all the enabled instances. */
  ghost predicate TurnStep(
    all: set<string>, instance: string, rows: seq<Site>, m: Monitors, rows': seq<Site>, m': Monitors)
  {
    && rows <= rows'
    && Imported(rows', m', instance)
    && (forall j :: j in all && Imported(rows, m, j) ==> Imported(rows', m', j))
    && (forall j :: j in all && j != instance ==> Names(rows', j) == Names(rows, j))
    && Names(rows', instance) == NamesOf(rows', all)
    && (Imported(rows, m, instance) ==> NamesOf(rows', all) == NamesOf(rows, all))
    && (Imported(rows, m, instance) && Names(rows, instance) == NamesOf(rows, all) ==> rows' == rows && m' == m)
  }

  lemma {:induction false} OthersKeepNames(rows: seq<Site>, rows': seq<Site>, instance: string, j: string)
    requires Extends(rows, rows', instance) && j != instance
    ensures Names(rows', j) == Names(rows, j)
  {
    ExtendNames(rows, rows', instance, {j});
    NamesAreNamesOf(rows, j);
    NamesAreNamesOf(rows', j);
  }

  lemma {:induction false} TurnImports(
    all: set<string>, instance: string, rows: seq<Site>, m: Monitors, rows1: seq<Site>, rows2: seq<Site>, m2: Monitors,
    j: string)
    requires ImportStep(m, instance, rows, rows1) && rows1 <= rows2 && AddsMonitors(m, m2, rows2, true)
    requires j == instance || Imported(rows, m, j)
    ensures Imported(rows2, m2, j)
  {
    if j != instance {
      ImportedStays(rows, rows1, m, m, j);
    }
    ImportedStays(rows1, rows2, m, m2, j);
  }

  lemma {:induction false} TurnComposes(
    all: set<string>, instance: string, rows: seq<Site>, m: Monitors, rows1: seq<Site>, rows2: seq<Site>, m2: Monitors)
    requires instance in all
    requires ImportStep(m, instance, rows, rows1)
    requires CreateStep(all - {instance}, instance, NamesOf(rows1, all - {instance}), {}, rows1, m, rows2, m2)
    ensures TurnStep(all, instance, rows, m, rows2, m2)
  {
    forall j | j == instance || Imported(rows, m, j)
      ensures Imported(rows2, m2, j)
    {
      TurnImports(all, instance, rows, m, rows1, rows2, m2, j);
    }
    forall j | j != instance
      ensures Names(rows2, j) == Names(rows, j)
    {
      OthersKeepNames(rows, rows1, instance, j);
      OthersKeepNames(rows1, rows2, instance, j);
    }
    SplitNames(rows1, instance, all);
    ExtendNames(rows1, rows2, instance, all);
  }

  ghost predicate AllImportedIn(all: set<string>, rows: seq<Site>, m: Monitors) {
    forall j :: j in all ==> Imported(rows, m, j)
  }

  /** Every instance has the names of all of them. */
  ghost predicate InStepIn(all: set<string>, rows: seq<Site>) {
    forall j :: j in all ==> Names(rows, j) == NamesOf(rows, all)
  }

  /** The turns of the instances in `done` are over. */
  ghost predicate PassStep(
    all: set<string>, done: set<string>, rows: seq<Site>, m: Monitors, rows': seq<Site>, m': Monitors)
  {
    && rows <= rows'
    && AllImportedIn(done, rows', m')
    && (AllImportedIn(all, rows, m) ==>
          && AllImportedIn(all, rows', m')
          && NamesOf(rows', all) == NamesOf(rows, all)
          && forall j :: j in done ==> Names(rows', j) == NamesOf(rows', all))
    && (AllImportedIn(all, rows, m) && InStepIn(all, rows) ==> rows' == rows && m' == m)
  }

  lemma {:induction false} PassOneMore(
    all: set<string>, done: set<string>, instance: string, rows: seq<Site>, m: Monitors, rows1: seq<Site>, m1: Monitors,
    rows2: seq<Site>, m2: Monitors)
    requires done <= all && instance in all
    requires PassStep(all, done, rows, m, rows1, m1) && TurnStep(all, instance, rows1, m1, rows2, m2)
    ensures PassStep(all, done + {instance}, rows, m, rows2, m2)
  {
    if AllImportedIn(all, rows, m) {
      assert Imported(rows1, m1, instance);
      assert AllImportedIn(all, rows2, m2);
      forall j | j in done + {instance}
        ensures Names(rows2, j) == NamesOf(rows2, all)
      {
      }
    }
  }

  // ---------------------------------------------------------------------------
  // The fleet
  // ---------------------------------------------------------------------------

  class Fleet {
    const enabled: seq<string>
    var rows: seq<Site>
    var monitors: map<Ref, Monitor>
    var nextId: map<string, int>

    ghost predicate Valid()
      reads this
    {
      && (forall i, j :: 0 <= i < j < |enabled| ==> enabled[i] != enabled[j])
      && (forall i :: 0 <= i < |enabled| ==> enabled[i] in nextId)
      && NoDoubles(rows)
      && (forall k :: 0 <= k < |rows| ==> Supported(rows[k].def))
      && (forall k :: 0 <= k < |rows| && rows[k].ref.instance in nextId ==>
        rows[k].ref.id < nextId[rows[k].ref.instance])
      && (forall r :: r in monitors && r.instance in nextId ==> r.id < nextId[r.instance])
    }

    ghost function Enabled(): set<string>
      reads this
    {
      set i | 0 <= i < |enabled| :: enabled[i]
    }

    ghost predicate AllImported()
      reads this
    {
      AllImportedIn(Enabled(), rows, monitors)
    }

    ghost predicate InStep()
      reads this
    {
      InStepIn(Enabled(), rows)
    }

    method Exists(r: Ref) returns (found: bool)
      ensures found == HasRow(rows, r)
    {
      for k := 0 to |rows|
        invariant forall l :: 0 <= l < k ==> rows[l].ref != r
      {
        if rows[k].ref == r {
          return true;
        }
      }
      return false;
    }

    /** `auto_import_new_monitors`: a row for every supported monitor that has none. */
    method AutoImport(instance: string)
      requires Valid()
      modifies this`rows
      ensures Valid() && ImportStep(monitors, instance, old(rows), rows)
    {
      var todo := set r | r in monitors && r.instance == instance;
      ghost var before := rows;
      while todo != {}
        invariant before == rows
        invariant Valid() && Importing(monitors, instance, todo, old(rows), rows)
        decreases |todo|
      {
        var r: Ref :| r in todo;
        ImportOne(r);
        ImportOneMore(monitors, instance, todo, old(rows), before, r, rows);
        todo := todo - {r};
        before := rows;
      }
    }

    /** A row for one monitor, if it is supported and has none. */
    method ImportOne(r: Ref)
      requires Valid() && r in monitors
      modifies this`rows
      ensures Valid()
      ensures
        var m := monitors[r];
        rows == if Supported(m.def) && !HasRow(old(rows), r) then old(rows) + [Site(r, m.name, Stored(m.def))]
          else old(rows)
    {
      var m := monitors[r];
      var known := Exists(r);
      if Supported(m.def) && !known {
        rows := rows + [Site(r, m.name, Stored(m.def))];
      }
    }

    /** `_create_site_on_instance`: the Kuma monitor first, then the row; when the row cannot be
        saved the monitor is deleted again, as far as that succeeds. */
    method CreateSite(instance: string, name: string, def: Definition, outcome: Outcome)
      requires Valid() && instance in nextId && Supported(def)
      modifies this
      ensures Valid()
      ensures
        var r := Ref(instance, old(nextId)[instance]);
        && SameCheck(def, Stored(def))
        && rows == (if outcome.Created? then old(rows) + [Site(r, name, Stored(def))] else old(rows))
        && monitors == (if outcome.Created? || outcome.Orphaned? then old(monitors)[r := Monitor(name, Stored(def))]
          else old(monitors))
        && nextId == (if outcome.NotAdded? then old(nextId) else old(nextId)[instance := r.id + 1])
    {
      if outcome.NotAdded? {
        return;
      }
      var r := Ref(instance, nextId[instance]);
      monitors := monitors[r := Monitor(name, Stored(def))];
      nextId := nextId[instance := nextId[instance] + 1];
      if outcome.Created? {
        rows := rows + [Site(r, name, Stored(def))];
      } else if outcome.CleanedUp? {
        monitors := monitors - {r};
      }
    }

    /** The oldest row of every name the other enabled instances have. */
    method Templates(instance: string) returns (ts: seq<Site>)
      ensures forall t :: 0 <= t < |ts| ==> IsTemplate(rows, Enabled() - {instance}, ts[t])
      ensures forall t, u :: 0 <= t < u < |ts| ==> ts[t].name != ts[u].name
      ensures SiteNames(ts) == NamesOf(rows, Enabled() - {instance})
    {
      ghost var others := Enabled() - {instance};
      ts := [];
      var seen: set<string> := {};
      for k := 0 to |rows|
        invariant seen == SiteNames(ts) == NamesOf(rows[..k], others)
        invariant forall t :: 0 <= t < |ts| ==> IsTemplate(rows, others, ts[t])
        invariant forall t, u :: 0 <= t < u < |ts| ==> ts[t].name != ts[u].name
      {
        NamesAppend(rows[..k], rows[k], others);
        assert rows[..k + 1] == rows[..k] + [rows[k]];
        if rows[k].ref.instance in enabled && rows[k].ref.instance != instance {
          if rows[k].name !in seen {
            assert Oldest(rows, others, k) by {
              forall l | 0 <= l < k && rows[l].ref.instance in others
                ensures rows[l].name != rows[k].name
              {
                assert rows[..k][l] == rows[l];
              }
            }
            SiteNamesAppend(ts, rows[k]);
            ts := ts + [rows[k]];
            seen := seen + {rows[k].name};
            assert IsTemplate(rows, others, rows[k]);
          }
        }
      }
      assert rows[..|rows|] == rows;
    }

    /** `sync_missing_sites_to_instance`: create here what the other enabled instances have;
        a creation that fails is noted and the next one tried. */
    method CatchUp(instance: string, env: Env) returns (errors: set<string>)
      requires Valid() && instance in enabled
      modifies this
      ensures Valid()
      ensures CreateStep(
        Enabled() - {instance}, instance, old(NamesOf(rows, Enabled() - {instance})), errors, old(rows), old(monitors),
        rows, monitors)
      ensures forall n :: n in errors ==> !env.creation(instance, n).Created?
    {
      ghost var others := Enabled() - {instance};
      var here: set<string> := set k | 0 <= k < |rows| && rows[k].ref.instance == instance :: rows[k].name;
      var ts := Templates(instance);
      errors := {};
      for t := 0 to |ts|
        invariant Valid()
        invariant CreateStep(others, instance, SiteNames(ts[..t]), errors, old(rows), old(monitors), rows, monitors)
        invariant forall n :: n in errors ==> !env.creation(instance, n).Created?
      {
        NextTemplate(ts, t);
        if ts[t].name !in here {
          var created := CopyTemplate(
            instance, ts[t], env.creation(instance, ts[t].name), others, SiteNames(ts[..t]), errors, old(rows),
            old(monitors));
          if !created {
            errors := errors + {ts[t].name};
          }
        } else {
          NothingMissing(others, instance, SiteNames(ts[..t]), errors, old(rows), old(monitors), rows, monitors,
            ts[t].name);
        }
      }
      assert ts[..|ts|] == ts;
    }

    /** One missing site, created from its template as far as that succeeds. */
    method CopyTemplate(
      instance: string, t: Site, outcome: Outcome,
      ghost others: set<string>, ghost names: set<string>, ghost errors: set<string>, ghost rows0: seq<Site>,
      ghost m0: Monitors)
      returns (created: bool)
      requires Valid() && instance in enabled
      requires CreateStep(others, instance, names, errors, rows0, m0, rows, monitors)
      requires IsTemplate(rows0, others, t) && t.name !in Names(rows0, instance) && t.name !in names
      modifies this
      ensures Valid() && created == outcome.Created?
      ensures CreateStep(
        others, instance, names + {t.name}, if created then errors else errors + {t.name}, rows0, m0, rows, monitors)
    {
      ghost var rows1, monitors1 := rows, monitors;
      CreateSite(instance, t.name, t.def, outcome);
      created := outcome.Created?;
      if created {
        CreateOneMore(others, instance, names, errors, rows0, m0, rows1, monitors1, t, rows[|rows1|]);
      } else {
        FailOneMore(others, instance, names, errors, rows0, m0, rows1, monitors1, t.name, monitors);
      }
    }

    /** One pass over the enabled instances; `clean` if nothing failed in it. */
    method Pass(env: Env) returns (clean: bool)
      requires Valid()
      modifies this
      ensures Valid() && old(rows) <= rows
      ensures clean ==> PassStep(Enabled(), Enabled(), old(rows), old(monitors), rows, monitors)
      ensures ErrorFree(env) ==> clean
    {
      clean := true;
      for k := 0 to |enabled|
        invariant Valid() && old(rows) <= rows && (ErrorFree(env) ==> clean)
        invariant clean ==>
          PassStep(Enabled(), set i | 0 <= i < k :: enabled[i], old(rows), old(monitors), rows, monitors)
      {
        ghost var rows1, monitors1 := rows, monitors;
        ghost var done := set i | 0 <= i < k :: enabled[i];
        assert enabled[k] in Enabled() && done <= Enabled();
        assert (set i | 0 <= i < k + 1 :: enabled[i]) == done + {enabled[k]};
        var ok := Visit(enabled[k], env);
        if clean && ok {
          PassOneMore(Enabled(), done, enabled[k], old(rows), old(monitors), rows1, monitors1, rows, monitors);
        }
        clean := clean && ok;
      }
    }

    /** One instance's turn: nothing happens if it does not answer. */
    method Visit(instance: string, env: Env) returns (ok: bool)
      requires Valid() && instance in enabled
      modifies this
      ensures Valid() && old(rows) <= rows
      ensures ok ==> TurnStep(Enabled(), instance, old(rows), old(monitors), rows, monitors)
      ensures ErrorFree(env) ==> ok
    {
      if !env.answers(instance) {
        return false;
      }
      AutoImport(instance);
      ghost var rows1 := rows;
      var errors := CatchUp(instance, env);
      ok := errors == {};
      if ok {
        TurnComposes(Enabled(), instance, old(rows), old(monitors), rows1, rows, monitors);
      }
    }

    /** After any passes, whatever failed in them, two error-free ones bring every enabled instance
        to the same names, with exactly one row for every supported monitor, those that a failed
        creation left behind included; a third pass creates nothing. */
    method Converge(earlier: seq<Env>, env: Env) returns (ghost settled: (seq<Site>, map<Ref, Monitor>))
      requires Valid() && ErrorFree(env)
      modifies this
      ensures Valid() && AllImported() && InStep()
      ensures old(rows) <= rows
      ensures settled == (rows, monitors)
    {
      for i := 0 to |earlier|
        invariant Valid() && old(rows) <= rows
      {
        var clean := Pass(earlier[i]);
      }
      var first := Pass(env);
      var second := Pass(env);
      settled := (rows, monitors);
      var third := Pass(env);
    }
  }

  /** The same for any three passes in a row: the first imports, the second brings the names
      together without adding any, the third changes nothing. */
  lemma {:induction false} ThreePasses(
    all: set<string>, rows0: seq<Site>, m0: Monitors, rows1: seq<Site>, m1: Monitors, rows2: seq<Site>, m2: Monitors,
    rows3: seq<Site>, m3: Monitors)
    requires PassStep(all, all, rows0, m0, rows1, m1)
    requires PassStep(all, all, rows1, m1, rows2, m2)
    requires PassStep(all, all, rows2, m2, rows3, m3)
    ensures AllImportedIn(all, rows1, m1)
    ensures InStepIn(all, rows2) && NamesOf(rows2, all) == NamesOf(rows1, all)
    ensures rows3 == rows2 && m3 == m2
  {
    assert InStepIn(all, rows2);
  }

  /** A supported monitor of an imported instance has exactly one row. */
  lemma {:induction false} ExactlyOneRow(rows: seq<Site>, monitors: map<Ref, Monitor>, instance: string, r: Ref)
    requires NoDoubles(rows) && Imported(rows, monitors, instance)
    requires r in monitors && r.instance == instance && Supported(monitors[r].def)
    ensures exists k ::
      0 <= k < |rows| && rows[k].ref == r && forall l :: 0 <= l < |rows| && rows[l].ref == r ==> l == k
  {
    var k :| 0 <= k < |rows| && rows[k].ref == r;
    assert forall l :: 0 <= l < |rows| && rows[l].ref == r ==> l == k;
  }
}
