/** The start-up synchronisation (cmd/main.go): every running job found in
    the database is registered with a fresh scheduler and its new entry id is
    written back to its row. The first failure ends the pass. */
module Startup {
  import opened Wrappers
  import opened Records
  import Store
  import Schedule
  import JobHandler
  import Lifecycle

  /** The order `Find(&jobs)` returns the rows in: every live key exactly
      once (the default scope hides soft-deleted rows). */
  predicate LoadOrder(t: Store.JobTable, order: seq<nat>) {
    && (forall i, j :: 0 <= i < j < |order| ==> order[i] != order[j])
    && (forall k :: 0 <= k < |order| ==> Store.IsLive(t, order[k]))
    && (forall id | id in t.rows :: t.rows[id].deletedAt.None? ==> id in order)
  }

  /** The filter of the pass: running and not soft-deleted. */
  predicate Selected(row: Job) {
    row.status == Running && row.deletedAt.None?
  }

  /** Live stopped rows carry entry id 0, as the intended handlers leave them. */
  predicate StoppedUnlinked(t: Store.JobTable) {
    forall id | id in t.rows :: Store.IsLive(t, id) && t.rows[id].status != Running ==> t.rows[id].entryId == 0
  }

  /** Row `id` is registered: its stored entry id names an entry that runs
      the row as it was loaded. */
  predicate Registered(before: Store.JobTable, after: Store.JobTable, cron: Schedule.Cron, id: nat)
    requires id in before.rows && id in after.rows
  {
    after.rows[id].entryId in cron.entries && cron.entries[after.rows[id].entryId] == before.rows[id]
  }

  /** `SyncJobsInDataBase`. `loadErr` is the error of the initial `Find`;
      `order` is the order it returns the rows in; `writeErrs[k]` is the
      error of the entry-id write for the `k`-th row. `done` counts the rows
      the pass finished with. */
  method SyncJobsInDataBase(store: Store.JobTable, loadErr: Option<string>, order: seq<nat>,
                            parse: Schedule.SpecParser, writeErrs: seq<Option<string>>)
    returns (store': Store.JobTable, cron: Schedule.Cron, done: nat, err: Option<string>)
    requires Store.Valid(store) && LoadOrder(store, order) && |writeErrs| == |order|
    ensures Store.Valid(store') && Schedule.Valid(cron)
    ensures loadErr.Some? ==> store' == store && cron == Schedule.Empty && done == 0 && err == loadErr
    ensures done <= |order|
    ensures err.None? <==> loadErr.None? && done == |order|
    ensures store'.rows.Keys == store.rows.Keys
    ensures forall id :: id in store.rows ==>
      store'.rows[id] == store.rows[id].(entryId := store'.rows[id].entryId)
    ensures forall k :: 0 <= k < done ==>
      (if Selected(store.rows[order[k]]) then Registered(store, store', cron, order[k])
       else store'.rows[order[k]] == store.rows[order[k]])
    ensures forall k :: done < k < |order| ==>
      store'.rows[order[k]] == store.rows[order[k]] && !Schedule.Runs(cron, order[k])
    ensures err.Some? && loadErr.None? ==>
      var row := store.rows[order[done]];
      && Selected(row)
      && store'.rows[row.id] == row
      && (parse(row.cron).Some? ==> err == parse(row.cron) && !Schedule.Runs(cron, row.id))
      && (parse(row.cron).None? ==> err == writeErrs[done] && Schedule.Runs(cron, row.id))
    ensures forall e :: e in cron.entries ==>
      var id := cron.entries[e].id;
      && id in store.rows && cron.entries[e] == store.rows[id] && Selected(store.rows[id])
    ensures err.None? ==> forall e :: e in cron.entries ==> store'.rows[cron.entries[e].id].entryId == e
    ensures err.None? && StoppedUnlinked(store) ==> Lifecycle.Linked(JobHandler.State(store', cron))
  {
    store' := store;
    cron := Schedule.Empty;
    done := 0;
    if loadErr.Some? {
      err := loadErr;
      return;
    }
    var i := 0;
    while i < |order|
      invariant Inv(store, order, i, store', cron)
    {
      var row := store.rows[order[i]];
      if Selected(row) {
        var added := Schedule.Add(cron, row.cron, row, parse);
        if added.Failure? {
          Halt(store, order, i, store', cron);
          done, err := i, Some(added.error);
          return;
        }
        var (cron1, e) := added.value;
        if writeErrs[i].Some? {
          HaltAfterAdd(store, order, i, store', cron, cron1, e);
          cron, done, err := cron1, i, writeErrs[i];
          return;
        }
        Register(store, order, i, store', cron, cron1, e);
        cron := cron1;
        store' := Store.UpdateJobInt(store', row.id, "EntryID", e);
      }
      i := i + 1;
    }
    Halt(store, order, i, store', cron);
    if StoppedUnlinked(store) {
      SyncLinks(store, order, store', cron);
    }
    done, err := |order|, None;
  }

  /** The loop invariant of the pass after `i` rows. */
  predicate Inv(store: Store.JobTable, order: seq<nat>, i: nat, store': Store.JobTable, cron: Schedule.Cron) {
    && Store.Valid(store) && LoadOrder(store, order) && i <= |order|
    && Store.Valid(store') && Schedule.Valid(cron)
    && OnlyEntryIds(store, store')
    && Prefix(store, order, i, store', cron)
    && Suffix(store, order, i, store')
    && Entries(store, order, i, store', cron)
  }

  /** Same keys, and rows differ at most in their entry id. */
  predicate OnlyEntryIds(store: Store.JobTable, store': Store.JobTable) {
    && store'.rows.Keys == store.rows.Keys
    && (forall id :: id in store.rows ==>
          store'.rows[id] == store.rows[id].(entryId := store'.rows[id].entryId))
  }

  /** The first `i` rows are registered if selected, untouched otherwise. */
  predicate Prefix(store: Store.JobTable, order: seq<nat>, i: nat, store': Store.JobTable, cron: Schedule.Cron) {
    && LoadOrder(store, order) && i <= |order| && store'.rows.Keys == store.rows.Keys
    && (forall k :: 0 <= k < i ==>
          (if Selected(store.rows[order[k]]) then Registered(store, store', cron, order[k])
           else store'.rows[order[k]] == store.rows[order[k]]))
  }

  /** The rows from `i` on are untouched. */
  predicate Suffix(store: Store.JobTable, order: seq<nat>, i: nat, store': Store.JobTable) {
    && LoadOrder(store, order) && store'.rows.Keys == store.rows.Keys
    && (forall k :: i <= k < |order| ==> store'.rows[order[k]] == store.rows[order[k]])
  }

  /** Every entry runs a selected row among the first `i`, as loaded, and
      that row's stored entry id names the entry. */
  predicate Entries(store: Store.JobTable, order: seq<nat>, i: nat, store': Store.JobTable, cron: Schedule.Cron) {
    && i <= |order| && store'.rows.Keys == store.rows.Keys
    && (forall e :: e in cron.entries ==>
          var id := cron.entries[e].id;
          && id in store.rows && cron.entries[e] == store.rows[id] && Selected(store.rows[id])
          && id in order[..i] && store'.rows[id].entryId == e)
  }

  /** Stopping after `i` rows: no later row is scheduled. */
  lemma Halt(store: Store.JobTable, order: seq<nat>, i: nat, store': Store.JobTable, cron: Schedule.Cron)
    requires Inv(store, order, i, store', cron)
    ensures forall k :: i < k < |order| ==> !Schedule.Runs(cron, order[k])
    ensures i < |order| ==> !Schedule.Runs(cron, order[i])
  {
    NotYetRun(cron, order, i);
  }

  /** Stopping after registering row `i` but before writing its entry id:
      earlier rows stay registered, row `i` runs, later rows do not. */
  lemma HaltAfterAdd(store: Store.JobTable, order: seq<nat>, i: nat, store': Store.JobTable,
                     cron: Schedule.Cron, cron1: Schedule.Cron, e: nat)
    requires Inv(store, order, i, store', cron) && i < |order|
    requires e !in cron.entries && cron1.entries == cron.entries[e := store.rows[order[i]]]
    ensures forall k :: 0 <= k < i ==>
      (if Selected(store.rows[order[k]]) then Registered(store, store', cron1, order[k])
       else store'.rows[order[k]] == store.rows[order[k]])
    ensures forall k :: i < k < |order| ==> !Schedule.Runs(cron1, order[k])
    ensures Schedule.Runs(cron1, order[i])
    ensures forall e' :: e' in cron1.entries ==>
      var id := cron1.entries[e'].id;
      && id in store.rows && cron1.entries[e'] == store.rows[id]
      && (Selected(store.rows[order[i]]) ==> Selected(store.rows[id]))
  {
    NotYetRun(cron, order, i);
    assert cron1.entries[e].id == order[i];
  }

  /** Registering row `i` and writing its entry id keeps the invariant. */
  lemma Register(store: Store.JobTable, order: seq<nat>, i: nat, store': Store.JobTable,
                 cron: Schedule.Cron, cron1: Schedule.Cron, e: nat)
    requires Inv(store, order, i, store', cron) && i < |order| && Selected(store.rows[order[i]])
    requires e !in cron.entries && cron1.entries == cron.entries[e := store.rows[order[i]]]
    requires Schedule.Valid(cron1)
    ensures Inv(store, order, i + 1, Store.UpdateJobInt(store', order[i], "EntryID", e), cron1)
  {
    var id := order[i];
    var store2 := Store.UpdateJobInt(store', id, "EntryID", e);
    assert store2.rows == store'.rows[id := store'.rows[id].(entryId := e)];
    RegisterPrefix(store, order, i, store', cron, cron1, e, store2);
    RegisterSuffix(store, order, i, store', store2);
    RegisterEntries(store, order, i, store', cron, cron1, e, store2);
  }

  lemma RegisterPrefix(store: Store.JobTable, order: seq<nat>, i: nat, store': Store.JobTable,
                       cron: Schedule.Cron, cron1: Schedule.Cron, e: nat, store2: Store.JobTable)
    requires Prefix(store, order, i, store', cron) && i < |order| && Selected(store.rows[order[i]])
    requires Entries(store, order, i, store', cron)
    requires e !in cron.entries && cron1.entries == cron.entries[e := store.rows[order[i]]]
    requires store2.rows == store'.rows[order[i] := store'.rows[order[i]].(entryId := e)]
    ensures Prefix(store, order, i + 1, store2, cron1)
  {
    forall k | 0 <= k < i && Selected(store.rows[order[k]])
      ensures Registered(store, store2, cron1, order[k])
    {
      assert order[k] != order[i];
      assert Registered(store, store', cron, order[k]);
    }
  }

  lemma RegisterSuffix(store: Store.JobTable, order: seq<nat>, i: nat, store': Store.JobTable, store2: Store.JobTable)
    requires Suffix(store, order, i, store') && i < |order|
    requires forall id :: id in store'.rows && id != order[i] ==> id in store2.rows && store2.rows[id] == store'.rows[id]
    requires store2.rows.Keys == store'.rows.Keys
    ensures Suffix(store, order, i + 1, store2)
  {
    forall k | i + 1 <= k < |order| ensures store2.rows[order[k]] == store.rows[order[k]] {
      assert order[k] != order[i];
    }
  }

  lemma RegisterEntries(store: Store.JobTable, order: seq<nat>, i: nat, store': Store.JobTable,
                        cron: Schedule.Cron, cron1: Schedule.Cron, e: nat, store2: Store.JobTable)
    requires Entries(store, order, i, store', cron) && Suffix(store, order, i, store') && i < |order|
    requires Store.Valid(store) && Selected(store.rows[order[i]])
    requires e !in cron.entries && cron1.entries == cron.entries[e := store.rows[order[i]]]
    requires store2.rows == store'.rows[order[i] := store'.rows[order[i]].(entryId := e)]
    ensures Entries(store, order, i + 1, store2, cron1)
  {
    assert order[..i + 1] == order[..i] + [order[i]];
    NotYetRun(cron, order, i);
    forall e' | e' in cron1.entries
      ensures var id := cron1.entries[e'].id;
        && id in store.rows && cron1.entries[e'] == store.rows[id] && Selected(store.rows[id])
        && id in order[..i + 1] && store2.rows[id].entryId == e'
    {
      if e' != e {
        assert cron1.entries[e'].id != order[i];
      }
    }
  }

  /** Entries drawn from the first `i` keys of a duplicate-free order run
      none of the later keys. */
  lemma NotYetRun(cron: Schedule.Cron, order: seq<nat>, i: nat)
    requires i <= |order|
    requires forall a, b :: 0 <= a < b < |order| ==> order[a] != order[b]
    requires forall e :: e in cron.entries ==> cron.entries[e].id in order[..i]
    ensures forall k :: i <= k < |order| ==> !Schedule.Runs(cron, order[k])
  {
  }

  /** A pass that finishes over a table whose live stopped rows carry entry
      id 0 leaves rows and scheduler linked as the job handlers expect. */
  lemma SyncLinks(store: Store.JobTable, order: seq<nat>, store': Store.JobTable, cron: Schedule.Cron)
    requires Store.Valid(store) && LoadOrder(store, order)
    requires StoppedUnlinked(store)
    requires store'.rows.Keys == store.rows.Keys
    requires forall id :: id in store.rows ==>
      store'.rows[id] == store.rows[id].(entryId := store'.rows[id].entryId)
    requires forall k :: 0 <= k < |order| ==>
      (if Selected(store.rows[order[k]]) then Registered(store, store', cron, order[k])
       else store'.rows[order[k]] == store.rows[order[k]])
    requires forall e :: e in cron.entries ==>
      var id := cron.entries[e].id;
      && id in store.rows && cron.entries[e] == store.rows[id] && Selected(store.rows[id])
      && store'.rows[id].entryId == e
    ensures Lifecycle.Linked(JobHandler.State(store', cron))
  {
  }
}
