/** Job lifecycle: the add, delete and update handlers as transitions over
    the job table and the scheduler (handler/job_handler.go; duplicated in
    api/handlers.go). Every failure the handlers react to is an input. */
module JobHandler {
  import opened Wrappers
  import opened Records
  import Store
  import Schedule

  /** The two stores the handlers keep in step. */
  datatype State = State(store: Store.JobTable, cron: Schedule.Cron)

  predicate Valid(s: State) {
    Store.Valid(s.store) && Schedule.Valid(s.cron)
  }

  /** The state after a request, and the reply. */
  datatype Outcome = Outcome(state: State, response: Response)

  /** A fresh process: no rows, no entries. */
  const Initial: State := State(Store.JobTable(map[], 1), Schedule.Empty)

  // ---------------------------------------------------------------- ADDJob

  /** `ADDJob` as the source writes it. The row is created with the request's
      fields; the entry id the scheduler returns is kept only in a local
      copy; a rejected recurrence expression triggers a hard delete whose
      own error is the one reported — and when that delete succeeds the
      error is nil and reading its text panics. */
  function AddJobAsWritten(s: State, req: Job, parse: Schedule.SpecParser,
                           createErr: Option<string>, rollbackErr: Option<string>): (o: Outcome)
    requires Valid(s)
    ensures Valid(o.state)
    ensures Store.JobNameTaken(s.store, req.name) ==> o == Outcome(s, Fail(JobAlreadyExist, None))
    ensures !Store.JobNameTaken(s.store, req.name) && createErr.Some? ==>
      o == Outcome(s, Fail(JobAddFail, createErr))
    ensures !Store.JobNameTaken(s.store, req.name) && createErr.None? && parse(req.cron).Some? ==>
      && o.state.cron == s.cron
      && (rollbackErr.None? ==> o.state.store.rows == s.store.rows && o.response == Panic)
      && (rollbackErr.Some? ==>
            && o.state.store.rows == s.store.rows[s.store.nextId := req.(id := s.store.nextId)]
            && o.response == Fail(JobAddInCronFail, rollbackErr))
    ensures !Store.JobNameTaken(s.store, req.name) && createErr.None? && parse(req.cron).None? ==>
      var row := req.(id := s.store.nextId);
      && s.store.nextId !in s.store.rows
      && o.state.store.rows == s.store.rows[s.store.nextId := row]
      && (exists e: nat :: e !in s.cron.entries && o.state.cron.entries == s.cron.entries[e := row])
      && o.response == Done(JobAddSuccess)
  {
    if Store.JobNameTaken(s.store, req.name) then Outcome(s, Fail(JobAlreadyExist, None))
    else
      match Store.CreateJob(s.store, req, createErr)
      case Failure(e) => Outcome(s, Fail(JobAddFail, Some(e)))
      case Success((store1, row)) =>
        match Schedule.Add(s.cron, row.cron, row, parse)
        case Failure(_) =>
          if rollbackErr.None? then Outcome(State(Store.HardDeleteJob(store1, row.id), s.cron), Panic)
          else Outcome(State(store1, s.cron), Fail(JobAddInCronFail, rollbackErr))
        case Success((cron1, e)) =>
          Outcome(State(store1, cron1), Done(JobAddSuccess))
  }

  /** The request as the intended `ADDJob` stores it: the bookkeeping fields
      a client may send (entry id, soft-delete marker) are reset. */
  function Admit(req: Job): (j: Job)
    ensures j.entryId == 0 && j.deletedAt.None?
    ensures j.(entryId := req.entryId, deletedAt := req.deletedAt) == req
  {
    req.(entryId := 0, deletedAt := None)
  }

  /** `ADDJob` as evidently intended: a client-supplied entry id is not
      trusted, only a running job is registered, the cron error is reported
      when the rollback succeeds, client-supplied bookkeeping fields are
      reset (`Admit`), and the new entry id is written back to the
      row (as the startup synchronisation does); if that write fails, the
      entry and the row are both rolled back. */
  function AddJob(s: State, req: Job, parse: Schedule.SpecParser,
                  createErr: Option<string>, rollbackErr: Option<string>,
                  writeErr: Option<string>): (o: Outcome)
    requires Valid(s)
    ensures Valid(o.state)
    ensures Store.JobNameTaken(s.store, req.name) ==> o == Outcome(s, Fail(JobAlreadyExist, None))
    ensures !Store.JobNameTaken(s.store, req.name) && createErr.Some? ==>
      o == Outcome(s, Fail(JobAddFail, createErr))
    ensures o.response != Panic
    ensures !Store.JobNameTaken(s.store, req.name) && createErr.None? && req.status != Running ==>
      && o.state.store.rows == s.store.rows[s.store.nextId := Admit(req).(id := s.store.nextId)]
      && o.state.cron == s.cron
    ensures !Store.JobNameTaken(s.store, req.name) && createErr.None? && req.status == Running
            && parse(req.cron).Some? ==>
      && o.state.cron == s.cron
      && o.response == Fail(JobAddInCronFail, if rollbackErr.None? then parse(req.cron) else rollbackErr)
      && (rollbackErr.None? ==> o.state.store.rows == s.store.rows)
      && (rollbackErr.Some? ==>
            o.state.store.rows == s.store.rows[s.store.nextId := Admit(req).(id := s.store.nextId)])
    // a failed write-back of the entry id unregisters the new entry and rolls the row back
    ensures !Store.JobNameTaken(s.store, req.name) && createErr.None? && req.status == Running
            && parse(req.cron).None? && writeErr.Some? ==>
      && o.state.cron.entries == s.cron.entries
      && o.response == Fail(JobAddFail, writeErr)
      && (rollbackErr.None? ==> o.state.store.rows == s.store.rows)
      && (rollbackErr.Some? ==>
            o.state.store.rows == s.store.rows[s.store.nextId := Admit(req).(id := s.store.nextId)])
    ensures o.response.Ok() ==>
      var id := s.store.nextId;
      && id !in s.store.rows && id in o.state.store.rows
      && var row := o.state.store.rows[id];
      && row == Admit(req).(id := id, entryId := row.entryId)
      && (req.status == Running ==>
            && row.entryId > 0 && row.entryId !in s.cron.entries
            && o.state.cron.entries == s.cron.entries[row.entryId := Admit(req).(id := id)])
  {
    if Store.JobNameTaken(s.store, req.name) then Outcome(s, Fail(JobAlreadyExist, None))
    else
      match Store.CreateJob(s.store, Admit(req), createErr)
      case Failure(e) => Outcome(s, Fail(JobAddFail, Some(e)))
      case Success((store1, row)) =>
        if row.status != Running then Outcome(State(store1, s.cron), Done(JobAddSuccess))
        else
          match Schedule.Add(s.cron, row.cron, row, parse)
          case Failure(cronErr) =>
            if rollbackErr.None? then
              Outcome(State(Store.HardDeleteJob(store1, row.id), s.cron), Fail(JobAddInCronFail, Some(cronErr)))
            else Outcome(State(store1, s.cron), Fail(JobAddInCronFail, rollbackErr))
          case Success((cron1, e)) =>
            if writeErr.Some? then
              var store2 := if rollbackErr.None? then Store.HardDeleteJob(store1, row.id) else store1;
              Outcome(State(store2, Schedule.Remove(cron1, e)), Fail(JobAddFail, writeErr))
            else
              var store2 := Store.UpdateJobInt(store1, row.id, "EntryID", e);
              assert store2.rows[row.id] == row.(entryId := e);
              Outcome(State(store2, cron1), Done(JobAddSuccess))
  }

  // ------------------------------------------------------------- DeleteJob

  /** The patch `DeleteJob` hands to `Updates`: renamed with the time stamp,
      soft-deleted, stopped — and `EntryID: 0`, which gorm skips. */
  function SoftDeletePatch(name: string, now: string): Job {
    Job(0, name + now, "", 0, "", "", "", 0, "", "", Stopped, Some(now))
  }

  /** Applied with `Updates`, the patch renames, stops and soft-deletes the
      row; its zero entry id is skipped, so the stored entry id survives. */
  lemma SoftDeletePatchApplied(row: Job, name: string, now: string)
    ensures UpdatesJob(row, SoftDeletePatch(name, now))
            == row.(name := (if name + now == "" then row.name else name + now),
                    status := Stopped, deletedAt := Some(now))
  {
  }

  /** `DeleteJob`: the entry id comes from the stored row, never the request;
      the entry is removed only after the soft-delete write succeeds. */
  function DeleteJob(s: State, req: Job, now: string, writeErr: Option<string>): (o: Outcome)
    requires Valid(s)
    ensures Valid(o.state)
    ensures !Store.IsLive(s.store, req.id) ==> o == Outcome(s, Fail(JobEntryIdGetFail, Some(RecordNotFound)))
    ensures Store.IsLive(s.store, req.id) && writeErr.Some? ==> o == Outcome(s, Fail(JobDeleteFail, writeErr))
    ensures Store.IsLive(s.store, req.id) && writeErr.None? ==>
      var row := s.store.rows[req.id];
      && o.state.store.rows == s.store.rows[req.id := row.(
           name := if req.name + now == "" then row.name else req.name + now,
           status := Stopped,
           deletedAt := Some(now))]
      && o.state.cron == Schedule.Remove(s.cron, row.entryId)
      && o.response == Done(JobDeleteSuccess)
  {
    match Store.GetJobEntryId(s.store, req.id)
    case Failure(e) => Outcome(s, Fail(JobEntryIdGetFail, Some(e)))
    case Success(entry) =>
      if writeErr.Some? then Outcome(s, Fail(JobDeleteFail, writeErr))
      else
        var store' := Store.UpdatesJobRow(s.store, req.id, SoftDeletePatch(req.name, now));
        Outcome(State(store', Schedule.Remove(s.cron, entry)), Done(JobDeleteSuccess))
  }

  // ------------------------------------------------------------- UpdateJob

  /** The last step of `UpdateJob`: save the whole row, or on failure drop the
      entry just created. */
  function SaveOrUndo(store: Store.JobTable, cron: Schedule.Cron, job: Job, saveErr: Option<string>): (o: Outcome)
    requires Store.Valid(store) && Schedule.Valid(cron) && Store.IsLive(store, job.id)
    ensures Valid(o.state)
    ensures saveErr.Some? ==>
      o == Outcome(State(store, Schedule.Remove(cron, job.entryId)), Fail(JobUpdateInDbFail, saveErr))
    ensures saveErr.None? ==> o == Outcome(State(Store.SaveJob(store, job), cron), Done(JobUpdateSuccess))
  {
    if saveErr.Some? then
      Outcome(State(store, Schedule.Remove(cron, job.entryId)), Fail(JobUpdateInDbFail, saveErr))
    else Outcome(State(Store.SaveJob(store, job), cron), Done(JobUpdateSuccess))
  }

  /** `UpdateJob`: reject an unknown id; remove the stored entry; register a
      fresh one only for a running job; then save the whole row. The second
      lookup of the entry id cannot fail once the existence check has passed
      (nothing runs in between in this sequential model). */
  function UpdateJob(s: State, req: Job, parse: Schedule.SpecParser, saveErr: Option<string>): (o: Outcome)
    requires Valid(s)
    ensures Valid(o.state)
    ensures !Store.IsLive(s.store, req.id) ==> o == Outcome(s, Fail(JobNotExist, None))
    ensures Store.IsLive(s.store, req.id) ==>
      var prev := s.store.rows[req.id].entryId;
      var cron1 := Schedule.Remove(s.cron, prev);
      && (req.status == Running && parse(req.cron).Some? ==>
            o == Outcome(State(s.store, cron1), Fail(JobUpdateInCronFail, parse(req.cron))))
      && (req.status != Running && saveErr.None? ==>
            o.state == State(Store.SaveJob(s.store, req.(entryId := 0)), cron1))
      && (req.status == Running && parse(req.cron).None? && saveErr.None? ==>
            && req.id in o.state.store.rows
            && var e := o.state.store.rows[req.id].entryId;
            && e > 0 && e !in cron1.entries
            && o.state.store.rows == s.store.rows[req.id := req.(entryId := e)]
            && o.state.cron.entries == cron1.entries[e := req.(entryId := prev)])
      && ((req.status != Running || parse(req.cron).None?) && saveErr.Some? ==>
            o.state.store == s.store && o.state.cron.entries == cron1.entries)
    ensures o.response.Ok() <==> Store.IsLive(s.store, req.id) && saveErr.None?
                                 && (req.status != Running || parse(req.cron).None?)
  {
    if !Store.JobExistsById(s.store, req.id) then Outcome(s, Fail(JobNotExist, None))
    else
      var prev := Store.GetJobEntryId(s.store, req.id).value;
      var job := req.(entryId := prev);
      var cron1 := Schedule.Remove(s.cron, prev);
      if job.status == Running then
        match Schedule.Add(cron1, job.cron, job, parse)
        case Failure(e) => Outcome(State(s.store, cron1), Fail(JobUpdateInCronFail, Some(e)))
        case Success((cron2, e)) => SaveOrUndo(s.store, cron2, job.(entryId := e as int), saveErr)
      else SaveOrUndo(s.store, cron1, job.(entryId := 0), saveErr)
  }
}
