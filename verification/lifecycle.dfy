/** What the job handlers do to the link between rows and scheduler entries:
    the invariant the intended design keeps, the transitions that keep it,
    and concrete runs of the handlers as written that break it. */
module Lifecycle {
  import opened Wrappers
  import opened Records
  import Store
  import Schedule
  import opened JobHandler

  /** Every live running row names an entry that runs it; every entry runs a
      live running row that names it back; a live stopped row names none. */
  predicate Linked(s: State) {
    && (forall id | id in s.store.rows :: Store.IsLive(s.store, id) && s.store.rows[id].status == Running ==>
          s.store.rows[id].entryId in s.cron.entries && s.cron.entries[s.store.rows[id].entryId].id == id)
    && (forall e :: e in s.cron.entries ==>
          && Store.IsLive(s.store, s.cron.entries[e].id)
          && s.store.rows[s.cron.entries[e].id].status == Running
          && s.store.rows[s.cron.entries[e].id].entryId == e)
    && (forall id | id in s.store.rows :: Store.IsLive(s.store, id) && s.store.rows[id].status != Running ==>
          s.store.rows[id].entryId == 0)
  }

  /** Under the link, a job is scheduled exactly when it is live and running. */
  lemma ScheduledIffLiveRunning(s: State, id: nat)
    requires Valid(s) && Linked(s)
    ensures Schedule.Runs(s.cron, id) <==> Store.IsLive(s.store, id) && s.store.rows[id].status == Running
  {
    if Store.IsLive(s.store, id) && s.store.rows[id].status == Running {
      var e := s.store.rows[id].entryId;
      assert e in s.cron.entries && s.cron.entries[e].id == id;
    }
  }

  /** The process starts linked. */
  lemma InitialLinked()
    ensures Valid(Initial) && Linked(Initial)
  {
  }

  /** Under the link no entry runs a job whose row is not live and running;
      in particular removing the row's stored entry leaves none for it. */
  lemma RemoveStoredEntry(s: State, id: nat)
    requires Valid(s) && Linked(s) && Store.IsLive(s.store, id)
    ensures var c := Schedule.Remove(s.cron, s.store.rows[id].entryId);
      && (forall e :: e in c.entries ==> c.entries[e].id != id)
      && (forall e :: e in c.entries ==> e in s.cron.entries && c.entries[e] == s.cron.entries[e])
  {
  }

  /** The intended `ADDJob` keeps the link whenever its rollbacks succeed. */
  lemma AddJobKeepsLink(s: State, req: Job, parse: Schedule.SpecParser,
                        createErr: Option<string>, writeErr: Option<string>)
    requires Valid(s) && Linked(s)
    ensures Linked(AddJob(s, req, parse, createErr, None, writeErr).state)
  {
    var o := AddJob(s, req, parse, createErr, None, writeErr);
    var id := s.store.nextId;
    if !Store.JobNameTaken(s.store, req.name) && createErr.None? {
      assert id !in s.store.rows;
      forall e | e in s.cron.entries ensures s.cron.entries[e].id != id {
        assert Store.IsLive(s.store, s.cron.entries[e].id);
      }
      if req.status == Running && parse(req.cron).None? && writeErr.None? {
        assert o.response.Ok();
      } else if req.status == Running {
        assert o.state.store.rows == s.store.rows;
        assert o.state.cron.entries == s.cron.entries;
      }
    }
  }

  /** `DeleteJob` keeps the link on every outcome. */
  lemma DeleteJobKeepsLink(s: State, req: Job, now: string, writeErr: Option<string>)
    requires Valid(s) && Linked(s)
    ensures Linked(DeleteJob(s, req, now, writeErr).state)
  {
    if Store.IsLive(s.store, req.id) && writeErr.None? {
      RemoveStoredEntry(s, req.id);
    }
  }

  /** A successful `UpdateJob` keeps the link, provided the request does not
      itself carry a soft-delete marker (`Save` writes whatever it is sent). */
  lemma UpdateJobKeepsLink(s: State, req: Job, parse: Schedule.SpecParser, saveErr: Option<string>)
    requires Valid(s) && Linked(s) && req.deletedAt.None?
    requires UpdateJob(s, req, parse, saveErr).response.Ok()
    ensures Linked(UpdateJob(s, req, parse, saveErr).state)
  {
    RemoveStoredEntry(s, req.id);
  }

  /** Under the link a job has at most one entry. */
  lemma LinkedSingleEntry(s: State, e1: nat, e2: nat)
    requires Linked(s)
    requires e1 in s.cron.entries && e2 in s.cron.entries
    requires s.cron.entries[e1].id == s.cron.entries[e2].id
    ensures e1 == e2
  {
  }

  /** With the intended handlers, a job that was added and then deleted is
      no longer scheduled. */
  lemma AddThenDeleteUnschedules(s: State, req: Job, parse: Schedule.SpecParser,
                                 createErr: Option<string>, writeErr: Option<string>, now: string)
    requires Valid(s) && Linked(s)
    requires AddJob(s, req, parse, createErr, None, writeErr).response.Ok()
    ensures var added := AddJob(s, req, parse, createErr, None, writeErr);
      var deleted := DeleteJob(added.state, req.(id := s.store.nextId), now, None);
      && deleted.response.Ok()
      && !Schedule.Runs(deleted.state.cron, s.store.nextId)
  {
    var added := AddJob(s, req, parse, createErr, None, writeErr);
    AddJobKeepsLink(s, req, parse, createErr, writeErr);
    var deleted := DeleteJob(added.state, req.(id := s.store.nextId), now, None);
    DeleteJobKeepsLink(added.state, req.(id := s.store.nextId), now, None);
    ScheduledIffLiveRunning(deleted.state, s.store.nextId);
  }

  // ------------------------------------------- the handlers as written

  /** A parser that accepts every recurrence expression. */
  function AcceptAll(spec: string): Option<string> {
    None
  }

  /** A running job posted without an entry id is stored with entry id 0 next
      to an entry numbered 1: the very first add already breaks the link. */
  lemma AsWrittenAddBreaksLink(req: Job)
    requires req.status == Running && req.entryId == 0
    ensures var added := AddJobAsWritten(Initial, req, AcceptAll, None, None);
      && added.response.Ok()
      && 1 in added.state.cron.entries
      && 1 in added.state.store.rows && added.state.store.rows[1].entryId == 0
      && !Linked(added.state)
  {
    var added := AddJobAsWritten(Initial, req, AcceptAll, None, None);
    assert added.state.cron.entries == map[1 := req.(id := 1)];
    assert added.state.store.rows == map[1 := req.(id := 1)];
  }

  /** Consequently deleting that job removes entry 0, which does not exist,
      and the deleted job keeps firing. */
  lemma AsWrittenDeleteKeepsFiring(req: Job, now: string)
    requires req.status == Running && req.entryId == 0 && req.deletedAt.None?
    ensures var added := AddJobAsWritten(Initial, req, AcceptAll, None, None);
      var deleted := DeleteJob(added.state, req.(id := 1), now, None);
      && deleted.response.Ok()
      && !Store.IsLive(deleted.state.store, 1)
      && Schedule.Runs(deleted.state.cron, 1)
  {
    var added := AddJobAsWritten(Initial, req, AcceptAll, None, None);
    assert added.state.cron.entries == map[1 := req.(id := 1)];
    assert added.state.store.rows == map[1 := req.(id := 1)];
    var deleted := DeleteJob(added.state, req.(id := 1), now, None);
    assert deleted.state.cron == added.state.cron;
    assert deleted.state.cron.entries[1].id == 1;
  }

  /** And updating it while it stays running registers a second entry for it
      beside the first. */
  lemma AsWrittenUpdateDuplicates(req: Job)
    requires req.status == Running && req.entryId == 0 && req.deletedAt.None?
    ensures var added := AddJobAsWritten(Initial, req, AcceptAll, None, None);
      var updated := UpdateJob(added.state, req.(id := 1), AcceptAll, None);
      && updated.response.Ok()
      && 1 in updated.state.cron.entries && 2 in updated.state.cron.entries
      && updated.state.cron.entries[1].id == 1 && updated.state.cron.entries[2].id == 1
  {
    var added := AddJobAsWritten(Initial, req, AcceptAll, None, None);
    assert added.state.cron == Schedule.Cron(map[1 := req.(id := 1)], 2);
    assert added.state.store.rows == map[1 := req.(id := 1)];
    var updated := UpdateJob(added.state, req.(id := 1), AcceptAll, None);
    assert updated.state.cron.entries == map[1 := req.(id := 1), 2 := req.(id := 1)];
  }

  /** A stopped job is registered all the same. */
  lemma AsWrittenStoppedScheduled(req: Job)
    requires req.status == Stopped
    ensures Schedule.Runs(AddJobAsWritten(Initial, req, AcceptAll, None, None).state.cron, 1)
  {
    var added := AddJobAsWritten(Initial, req, AcceptAll, None, None);
    assert added.state.cron.entries == map[1 := req.(id := 1)];
  }

  /** The intended handler leaves a stopped job unscheduled. */
  lemma StoppedNotScheduled(s: State, req: Job, parse: Schedule.SpecParser,
                            createErr: Option<string>, rollbackErr: Option<string>, writeErr: Option<string>)
    requires Valid(s) && Linked(s) && req.status == Stopped
    ensures !Schedule.Runs(AddJob(s, req, parse, createErr, rollbackErr, writeErr).state.cron, s.store.nextId)
  {
  }

  /** A rejected recurrence expression whose rollback succeeds crashes the
      handler as written; the intended one reports the parser's error. */
  lemma RollbackOutcomes(req: Job, cronErr: string)
    ensures var reject := (spec: string) => Some(cronErr);
      && AddJobAsWritten(Initial, req, reject, None, None).response == Panic
      && (req.status == Running ==>
            AddJob(Initial, req, reject, None, None, None).response == Fail(JobAddInCronFail, Some(cronErr)))
  {
  }
}
