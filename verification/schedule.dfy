/** The in-memory cron scheduler, reduced to what the handlers use: `AddJob`
    hands out the next entry id for a valid recurrence expression, `Remove`
    drops an entry and ignores ids it does not know. */
module Schedule {
  import opened Wrappers
  import opened Records

  /** Entries by id, each holding the job snapshot it will run; `next` is the
      id the next successful add returns. */
  datatype Cron = Cron(entries: map<nat, Job>, next: nat)

  /** Entry ids are positive and below `next`. */
  predicate Valid(c: Cron) {
    && c.next > 0
    && forall e :: e in c.entries ==> 0 < e < c.next
  }

  /** A fresh scheduler: ids start at 1. */
  const Empty: Cron := Cron(map[], 1)

  /** The recurrence-expression parser: the error for a spec it rejects. */
  type SpecParser = string -> Option<string>

  /** `Cron.AddJob(spec, JobRun{job})`. */
  function Add(c: Cron, spec: string, job: Job, parse: SpecParser): (r: Result<(Cron, nat)>)
    requires Valid(c)
    ensures r.Failure? <==> parse(spec).Some?
    ensures r.Failure? ==> r.error == parse(spec).value
    ensures r.Success? ==>
      var (c', e) := r.value;
      && e > 0 && e !in c.entries
      && c'.entries == c.entries[e := job]
      && Valid(c')
  {
    match parse(spec)
    case Some(err) => Failure(err)
    case None => Success((Cron(c.entries[c.next := job], c.next + 1), c.next))
  }

  /** `Cron.Remove(id)`: drops the entry; an unknown id (0 included) is a no-op. */
  function Remove(c: Cron, e: int): (c': Cron)
    requires Valid(c)
    ensures Valid(c') && c'.next == c.next
    ensures e >= 0 ==> c'.entries == c.entries - {e as nat}
    ensures e < 0 || e !in c.entries ==> c' == c
  {
    if e >= 0 then Cron(c.entries - {e as nat}, c.next) else c
  }

  /** Some entry runs a snapshot of job `id`. */
  predicate Runs(c: Cron, id: nat) {
    exists e :: e in c.entries && c.entries[e].id == id
  }

  /** Removing is idempotent, and removing an absent id never fails. */
  lemma RemoveIdempotent(c: Cron, e: int)
    requires Valid(c)
    ensures Remove(Remove(c, e), e) == Remove(c, e)
  {
  }
}
