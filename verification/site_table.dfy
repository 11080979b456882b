/**
 The `Instance Site` table (the update half of `run_sync`, site_discovery/sync.py):
 what a sync writes, and what outages cannot take away.
 */
module SiteTable {
  import opened Wrappers
  import opened SiteDiscovery

  datatype Entry = Entry(row: Row, lastSeen: int)

  type Table = map<Host, Entry>

  /** One sync: what it read and when. */
  datatype Sync = Sync(view: View, now: int)

  ghost predicate ValidSync(s: Sync) {
    ValidView(s.view)
  }

  /** The NPMs whose read failed. */
  function FailedNpms(npms: seq<Npm>): set<string> {
    set n | n in npms && !n.ok :: n.name
  }

  predicate CloudflareFailed(cf: Cloudflare) {
    cf.enabled && !cf.ok
  }

  /** The row belongs to an NPM that could not be read. */
  predicate Orphaned(e: Entry, failed: set<string>) {
    e.row.npm.Some? && e.row.npm.value in failed
  }

  // ---------------------------------------------------------------------------
  // The update
  // ---------------------------------------------------------------------------

  /** What the table holds for a domain after the update, None if nothing. */
  function After(
    table: Table, rows: map<Host, Row>, failed: set<string>, cfFailed: bool, now: int, d: Host): Option<Entry>
  {
    if d in rows then
      if d in table && (cfFailed || Orphaned(table[d], failed)) then Some(table[d].(lastSeen := now))
      else Some(Entry(rows[d], now))
    else if d in table && (cfFailed || Orphaned(table[d], failed)) then Some(table[d])
    else None
  }

  ghost predicate Updated(
    table: Table, after: Table, rows: map<Host, Row>, failed: set<string>, cfFailed: bool, now: int)
  {
    forall d :: (if d in after then Some(after[d]) else None) == After(table, rows, failed, cfFailed, now, d)
  }

  /** Every found domain outside `todo` is written; the rest of the table is untouched. */
  ghost predicate Upserted(
    table: Table, t: Table, rows: map<Host, Row>, failed: set<string>, cfFailed: bool, now: int, todo: set<Host>)
  {
    && t.Keys == table.Keys + (rows.Keys - todo)
    && (forall d :: d in t && (d !in rows || d in todo) ==> t[d] == table[d])
    && (forall d :: d in rows && d !in todo ==> Some(t[d]) == After(table, rows, failed, cfFailed, now, d))
  }

  lemma {:induction false} UpsertOne(
    table: Table, was: Table, t: Table, rows: map<Host, Row>, failed: set<string>, cfFailed: bool, now: int,
    todo: set<Host>, d: Host)
    requires d in todo && todo <= rows.Keys && Upserted(table, was, rows, failed, cfFailed, now, todo)
    requires t == was[d :=
      if d in was && (cfFailed || Orphaned(was[d], failed)) then was[d].(lastSeen := now) else Entry(rows[d], now)]
    ensures Upserted(table, t, rows, failed, cfFailed, now, todo - {d})
  {
    assert Some(t[d]) == After(table, rows, failed, cfFailed, now, d);
  }

  /** `after` keeps exactly what was found or belongs to an NPM that failed. */
  ghost predicate Pruned(table: Table, after: Table, rows: map<Host, Row>, failed: set<string>) {
    && (forall d :: d in after <==> d in table && (d in rows || Orphaned(table[d], failed)))
    && (forall d :: d in after ==> after[d] == table[d])
  }

  lemma {:induction false} BothHalves(
    table: Table, mid: Table, after: Table, rows: map<Host, Row>, failed: set<string>, cfFailed: bool, now: int)
    requires Upserted(table, mid, rows, failed, cfFailed, now, {})
    requires if cfFailed then after == mid else Pruned(mid, after, rows, failed)
    ensures Updated(table, after, rows, failed, cfFailed, now)
  {
    forall d
      ensures (if d in after then Some(after[d]) else None) == After(table, rows, failed, cfFailed, now, d)
    {
      assert d in mid <==> d in table || d in rows;
    }
  }

  /** What the second half removes are rows the table had before the first. */
  lemma {:induction false} Deletions(
    table: Table, mid: Table, after: Table, rows: map<Host, Row>, failed: set<string>, cfFailed: bool, now: int)
    requires Upserted(table, mid, rows, failed, cfFailed, now, {})
    requires if cfFailed then after == mid else Pruned(mid, after, rows, failed)
    ensures |table.Keys - after.Keys| == |mid.Keys| - |after.Keys|
  {
    forall d | d in rows
      ensures d in after
    {
      assert d in mid;
    }
    RemovedCount(table.Keys, mid.Keys, after.Keys, rows.Keys);
  }

  lemma {:induction false} RemovedCount(table: set<Host>, mid: set<Host>, after: set<Host>, found: set<Host>)
    requires mid == table + found && found <= after <= mid
    ensures |table - after| == |mid| - |after|
  {
    assert table - after == mid - after;
    assert mid == (mid - after) + after;
  }

  class SiteStore {
    var table: Table

    /** Upsert what was found, then delete what is gone, as far as the sources that answered can tell. */
    method RunSync(view: View, now: int) returns (deleted: nat)
      requires ValidView(view)
      modifies this
      ensures Updated(old(table), table, Resolved(view), FailedNpms(view.npms), CloudflareFailed(view.cf), now)
      ensures deleted == |old(table).Keys - table.Keys|
    {
      var rows := Resolve(view);
      var failed := FailedNpms(view.npms);
      var cfFailed := CloudflareFailed(view.cf);
      Upsert(rows, failed, cfFailed, now);
      deleted := 0;
      ghost var mid := table;
      if !cfFailed {
        deleted := DeleteGone(rows, failed);
      }
      BothHalves(old(table), mid, table, rows, failed, cfFailed, now);
      Deletions(old(table), mid, table, rows, failed, cfFailed, now);
    }

    method Upsert(rows: map<Host, Row>, failed: set<string>, cfFailed: bool, now: int)
      modifies this
      ensures Upserted(old(table), table, rows, failed, cfFailed, now, {})
    {
      var t := table;
      var todo := rows.Keys;
      while todo != {}
        invariant todo <= rows.Keys && Upserted(old(table), t, rows, failed, cfFailed, now, todo)
        decreases |todo|
      {
        var d :| d in todo;
        ghost var was := t;
        if d in t && (cfFailed || Orphaned(t[d], failed)) {
          t := t[d := t[d].(lastSeen := now)];
        } else {
          t := t[d := Entry(rows[d], now)];
        }
        UpsertOne(old(table), was, t, rows, failed, cfFailed, now, todo, d);
        todo := todo - {d};
      }
      table := t;
    }

    method DeleteGone(rows: map<Host, Row>, failed: set<string>) returns (deleted: nat)
      modifies this
      ensures Pruned(old(table), table, rows, failed)
      ensures deleted == |old(table)| - |table|
    {
      deleted := 0;
      var todo := table.Keys;
      while todo != {}
        invariant todo <= old(table).Keys
        invariant forall d :: d in table <==>
          d in old(table) && (d in todo || d in rows || Orphaned(old(table)[d], failed))
        invariant forall d :: d in table ==> table[d] == old(table)[d]
        invariant deleted + |table| == |old(table)|
        decreases |todo|
      {
        var d :| d in todo;
        if !(d in rows || Orphaned(table[d], failed)) {
          table := table - {d};
          deleted := deleted + 1;
        }
        todo := todo - {d};
      }
    }
  }

  // ---------------------------------------------------------------------------
  // Outages and full syncs
  // ---------------------------------------------------------------------------

  /** `after` is the table one sync leaves. */
  ghost predicate Step(table: Table, s: Sync, after: Table)
    requires ValidSync(s)
  {
    Updated(table, after, Resolved(s.view), FailedNpms(s.view.npms), CloudflareFailed(s.view.cf), s.now)
  }

  /** A run of syncs through these tables. */
  ghost predicate History(tables: seq<Table>, syncs: seq<Sync>) {
    && |tables| == |syncs| + 1
    && (forall i :: 0 <= i < |syncs| ==> ValidSync(syncs[i]))
    && (forall i :: 0 <= i < |syncs| ==> Step(tables[i], syncs[i], tables[i + 1]))
  }

  /** Every field but `last_seen` is the same. */
  ghost predicate SameFields(a: Table, b: Table, d: Host) {
    d in a && d in b && a[d].row == b[d].row
  }

  lemma {:induction false} AfterAt(table: Table, s: Sync, after: Table, d: Host)
    requires ValidSync(s) && Step(table, s, after)
    ensures
      (if d in after then Some(after[d]) else None) ==
        After(table, Resolved(s.view), FailedNpms(s.view.npms), CloudflareFailed(s.view.cf), s.now, d)
  {
  }

  /** The sync could not read Cloudflare, or the NPM that owns the row. */
  ghost predicate Blind(s: Sync, e: Entry) {
    CloudflareFailed(s.view.cf) || Orphaned(e, FailedNpms(s.view.npms))
  }

  /** A sync that could not read one of the two keeps the row. */
  lemma {:induction false} BlindSyncKeepsRow(table: Table, s: Sync, after: Table, d: Host)
    requires ValidSync(s) && Step(table, s, after) && d in table && Blind(s, table[d])
    ensures SameFields(table, after, d)
  {
    AfterAt(table, s, after, d);
  }

  /** Over any run of syncs in each of which Cloudflare failed or the NPM that owns the row did,
      the row keeps every field but `last_seen` and is never deleted. */
  lemma {:induction false} OutageKeepsRows(tables: seq<Table>, syncs: seq<Sync>, d: Host, n: nat)
    requires History(tables, syncs) && d in tables[0] && n <= |syncs|
    requires forall i :: 0 <= i < |syncs| ==> Blind(syncs[i], tables[0][d])
    ensures SameFields(tables[0], tables[n], d)
  {
    if n > 0 {
      OutageKeepsRows(tables, syncs, d, n - 1);
      assert Step(tables[n - 1], syncs[n - 1], tables[n - 1 + 1]);
      assert Blind(syncs[n - 1], tables[n - 1][d]);
      BlindSyncKeepsRow(tables[n - 1], syncs[n - 1], tables[n], d);
    }
  }

  /** No outage stands between the sync and the row: Cloudflare was read or is not used, and the row's
      owner, if it has one, is not an NPM that failed. */
  ghost predicate Unprotected(s: Sync, e: Entry) {
    && (s.view.cf.enabled ==> s.view.cf.ok)
    && forall n :: n in s.view.npms && e.row.npm == Some(n.name) ==> n.ok
  }

  /** A row no outage stands for ends up as in a full sync: rewritten if the merge still has its
      domain, deleted if not.  A domain the table did not have is always added. */
  lemma {:induction false} UnprotectedRowsFollow(table: Table, s: Sync, after: Table, d: Host)
    requires ValidSync(s) && Step(table, s, after) && (d in table ==> Unprotected(s, table[d]))
    ensures d in after <==> d in Resolved(s.view)
    ensures d in after ==> after[d] == Entry(Resolved(s.view)[d], s.now)
  {
    AfterAt(table, s, after, d);
  }

  /** And every other row keeps its fields; it is marked as seen exactly when the merge has its domain. */
  lemma {:induction false} ProtectedRowsStay(table: Table, s: Sync, after: Table, d: Host)
    requires ValidSync(s) && Step(table, s, after) && d in table && !Unprotected(s, table[d])
    ensures SameFields(table, after, d)
    ensures after[d].lastSeen == if d in Resolved(s.view) then s.now else table[d].lastSeen
  {
    AfterAt(table, s, after, d);
    if s.view.cf.enabled ==> s.view.cf.ok {
      var n :| n in s.view.npms && table[d].row.npm == Some(n.name) && !n.ok;
      assert n.name in FailedNpms(s.view.npms);
    }
  }

  /** Every source that is enabled answered. */
  ghost predicate FullySuccessful(s: Sync) {
    !CloudflareFailed(s.view.cf) && forall n :: n in s.view.npms ==> n.ok
  }

  ghost function Fields(table: Table): map<Host, Row> {
    map d | d in table :: table[d].row
  }

  lemma {:induction false} NothingProtected(table: Table, after: Table, rows: map<Host, Row>, now: int)
    requires Updated(table, after, rows, {}, false, now)
    ensures Fields(after) == rows
    ensures forall d :: d in after ==> after[d].lastSeen == now
  {
    forall d
      ensures d in after <==> d in rows
      ensures d in after ==> after[d] == Entry(rows[d], now)
    {
      assert (if d in after then Some(after[d]) else None) == After(table, rows, {}, false, now, d);
    }
  }

  /** A fully successful sync leaves exactly the resolved rows, whatever the table held before. */
  lemma {:induction false} FullSyncIsExact(table: Table, s: Sync, after: Table)
    requires ValidSync(s) && Step(table, s, after) && FullySuccessful(s)
    ensures Fields(after) == Resolved(s.view)
    ensures forall d :: d in after ==> after[d].lastSeen == s.now
  {
    assert FailedNpms(s.view.npms) == {};
    NothingProtected(table, after, Resolved(s.view), s.now);
  }

  /** So repeating it changes only `last_seen`. */
  lemma {:induction false} RepeatedSyncChangesOnlyLastSeen(table: Table, s: Sync, once: Table, again: Table, later: int)
    requires ValidSync(s) && FullySuccessful(s)
    requires Step(table, s, once) && Step(once, s.(now := later), again)
    ensures again == map d | d in once :: once[d].(lastSeen := later)
  {
    FullSyncIsExact(table, s, once);
    FullSyncIsExact(once, s.(now := later), again);
    SameFieldsLater(once, again, later);
  }

  lemma {:induction false} SameFieldsLater(a: Table, b: Table, later: int)
    requires Fields(a) == Fields(b) && forall d :: d in b ==> b[d].lastSeen == later
    ensures b == map d | d in a :: a[d].(lastSeen := later)
  {
    assert Fields(a).Keys == a.Keys && Fields(b).Keys == b.Keys;
    forall d | d in b
      ensures b[d] == a[d].(lastSeen := later)
    {
      assert Fields(a)[d] == Fields(b)[d];
    }
  }
}
