/** The persistence rules the handlers rely on, as gorm applies them to the
    job and account tables: the default scope hides soft-deleted rows,
    `Update(column)` touches one column of one live row, `Updates(struct)`
    skips zero fields, `Save` writes every field, and an unscoped delete
    removes the row for good. */
module Store {
  import opened Wrappers
  import opened Records

  /** The job table: rows by primary key, and the next key to hand out. */
  datatype JobTable = JobTable(rows: map<nat, Job>, nextId: nat)

  /** Keys are positive, below the counter, and agree with each row's id. */
  predicate Valid(t: JobTable) {
    && t.nextId > 0
    && forall id :: id in t.rows ==> 0 < id < t.nextId && t.rows[id].id == id
  }

  /** The row with this key exists and is not soft-deleted. */
  predicate IsLive(t: JobTable, id: nat) {
    id in t.rows && t.rows[id].deletedAt.None?
  }

  /** `First(&job, id)` under the default scope. */
  function FirstJob(t: JobTable, id: nat): (r: Result<Job>)
    ensures r.Success? <==> IsLive(t, id)
    ensures r.Success? ==> r.value == t.rows[id]
    ensures r.Failure? ==> r.error == RecordNotFound
  {
    if IsLive(t, id) then Success(t.rows[id]) else Failure(RecordNotFound)
  }

  /** `Create(&job)`: the row gets the next key; `err` is an injected failure. */
  function CreateJob(t: JobTable, job: Job, err: Option<string>): (r: Result<(JobTable, Job)>)
    requires Valid(t)
    ensures err.Some? <==> r.Failure?
    ensures r.Failure? ==> r.error == err.value
    ensures r.Success? ==>
      var (t', row) := r.value;
      && row == job.(id := t.nextId)
      && t.nextId !in t.rows
      && t'.rows == t.rows[t.nextId := row]
      && Valid(t')
  {
    if err.Some? then Failure(err.value)
    else
      var row := job.(id := t.nextId);
      Success((JobTable(t.rows[t.nextId := row], t.nextId + 1), row))
  }

  /** `Unscoped().Delete(&job)`: the row is gone, soft-deleted or not. */
  function HardDeleteJob(t: JobTable, id: nat): (t': JobTable)
    requires Valid(t)
    ensures t'.rows == t.rows - {id} && Valid(t')
  {
    JobTable(t.rows - {id}, t.nextId)
  }

  /** Apply `f` to the live row with this key; other rows, and a missing or
      soft-deleted target, are left as they are. */
  function MapLiveJob(t: JobTable, id: nat, f: Job -> Job): (t': JobTable)
    requires Valid(t)
    requires forall j :: f(j).id == j.id
    ensures Valid(t') && t'.rows.Keys == t.rows.Keys
    ensures IsLive(t, id) ==> t'.rows == t.rows[id := f(t.rows[id])]
    ensures !IsLive(t, id) ==> t' == t
  {
    if IsLive(t, id) then JobTable(t.rows[id := f(t.rows[id])], t.nextId) else t
  }

  /** `Model(&job).Update(column, n)` for an integer column. */
  function UpdateJobInt(t: JobTable, id: nat, column: string, n: int): (t': JobTable)
    requires Valid(t)
    ensures Valid(t') && t'.rows.Keys == t.rows.Keys
    ensures IsLive(t, id) ==> t'.rows == t.rows[id := SetJobInt(t.rows[id], column, n)]
    ensures !IsLive(t, id) ==> t' == t
  {
    MapLiveJob(t, id, j => SetJobInt(j, column, n))
  }

  /** `Model(&job).Update(column, s)` for a text column. */
  function UpdateJobText(t: JobTable, id: nat, column: string, s: string): (t': JobTable)
    requires Valid(t)
    ensures Valid(t') && t'.rows.Keys == t.rows.Keys
    ensures IsLive(t, id) ==> t'.rows == t.rows[id := SetJobText(t.rows[id], column, s)]
    ensures !IsLive(t, id) ==> t' == t
  {
    MapLiveJob(t, id, j => SetJobText(j, column, s))
  }

  /** `Model(&job).Updates(patch)`. */
  function UpdatesJobRow(t: JobTable, id: nat, patch: Job): (t': JobTable)
    requires Valid(t)
    ensures Valid(t') && t'.rows.Keys == t.rows.Keys
    ensures IsLive(t, id) ==> t'.rows == t.rows[id := UpdatesJob(t.rows[id], patch)]
    ensures !IsLive(t, id) ==> t' == t
  {
    MapLiveJob(t, id, j => UpdatesJob(j, patch))
  }

  /** `Where("id = ?", id).Save(&job)` on an existing live row: every field of
      the row becomes the given record's. */
  function SaveJob(t: JobTable, job: Job): (t': JobTable)
    requires Valid(t) && IsLive(t, job.id)
    ensures Valid(t') && t'.rows == t.rows[job.id := job]
  {
    JobTable(t.rows[job.id := job], t.nextId)
  }

  /** `JobIsExistInDataBaseByName`: a live row carries this name. */
  function JobNameTaken(t: JobTable, name: string): (b: bool)
    ensures b <==> exists id :: FirstJob(t, id).Success? && FirstJob(t, id).value.name == name
  {
    NameFoundByKey(t, name);
    exists id :: id in t.rows && t.rows[id].deletedAt.None? && t.rows[id].name == name
  }

  lemma NameFoundByKey(t: JobTable, name: string)
    ensures (exists id :: id in t.rows && t.rows[id].deletedAt.None? && t.rows[id].name == name) ==>
      exists id :: FirstJob(t, id).Success? && FirstJob(t, id).value.name == name
  {
    if exists id :: id in t.rows && t.rows[id].deletedAt.None? && t.rows[id].name == name {
      var id :| id in t.rows && t.rows[id].deletedAt.None? && t.rows[id].name == name;
      assert FirstJob(t, id).Success?;
    }
  }

  /** `JobIsExistInDataBaseByJobID`: the default-scoped find by key hits. */
  function JobExistsById(t: JobTable, id: nat): (b: bool)
    ensures b <==> FirstJob(t, id).Success?
  {
    IsLive(t, id)
  }

  /** `GetJobEntryIDByJobID`: the entry id stored in the live row. */
  function GetJobEntryId(t: JobTable, id: nat): (r: Result<int>)
    ensures r.Success? <==> IsLive(t, id)
    ensures r.Success? ==> r.value == t.rows[id].entryId
    ensures r.Failure? ==> r.error == RecordNotFound
  {
    match FirstJob(t, id)
    case Failure(e) => Failure(e)
    case Success(row) => Success(row.entryId)
  }

  // ---- accounts: rows in primary-key order ----

  /** Account keys are positive and strictly increasing along the table. */
  predicate AccountsValid(accounts: seq<Account>) {
    && (forall i :: 0 <= i < |accounts| ==> accounts[i].id > 0)
    && (forall i, j :: 0 <= i < j < |accounts| ==> accounts[i].id < accounts[j].id)
  }

  /** `Where("email = ?", email).First(&account)`: the live row with this
      address that has the smallest key. */
  function FirstAccountByEmail(accounts: seq<Account>, email: string): (r: Option<nat>)
    ensures r.Some? ==> r.value < |accounts| && accounts[r.value].email == email
                        && accounts[r.value].deletedAt.None?
    ensures r.Some? ==> forall i :: 0 <= i < r.value ==>
                          !(accounts[i].email == email && accounts[i].deletedAt.None?)
    ensures r.None? ==> forall i :: 0 <= i < |accounts| ==>
                          !(accounts[i].email == email && accounts[i].deletedAt.None?)
  {
    if |accounts| == 0 then None
    else if accounts[0].email == email && accounts[0].deletedAt.None? then Some(0)
    else
      match FirstAccountByEmail(accounts[1..], email)
      case None => None
      case Some(k) => Some(k + 1)
  }

  /** Apply `f` to the live account with key `id`; everything else is kept. */
  function MapLiveAccount(accounts: seq<Account>, id: nat, f: Account -> Account): (r: seq<Account>)
    requires forall a :: f(a).id == a.id
    ensures |r| == |accounts|
    ensures forall i :: 0 <= i < |r| ==>
      r[i] == if accounts[i].id == id && accounts[i].deletedAt.None? then f(accounts[i]) else accounts[i]
    ensures AccountsValid(accounts) ==> AccountsValid(r)
  {
    seq(|accounts|, i requires 0 <= i < |accounts| =>
      if accounts[i].id == id && accounts[i].deletedAt.None? then f(accounts[i]) else accounts[i])
  }

  /** The live accounts in key order: `Find(&accounts)` under the default scope. */
  function LiveAccounts(accounts: seq<Account>): (r: seq<Account>)
    ensures forall i :: 0 <= i < |r| ==> r[i].deletedAt.None? && r[i] in accounts
    ensures |r| <= |accounts|
  {
    if |accounts| == 0 then []
    else if accounts[0].deletedAt.None? then [accounts[0]] + LiveAccounts(accounts[1..])
    else LiveAccounts(accounts[1..])
  }
}
