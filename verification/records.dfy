/** The persisted records, their status codes and the handlers' reply shape
    (model/job_model.go, model/account_model.go, config/message_config.go;
    duplicated in api/models.go). */
module Records {
  import opened Wrappers

  /** A watch job. `deletedAt` is gorm's soft-delete marker: `None` while live,
      `Some(stamp)` once soft-deleted. `entryId` is the scheduler handle the row
      believes it has; 0 means "unscheduled". */
  datatype Job = Job(
    id: nat,
    name: string,
    cron: string,
    entryId: int,
    url: string,
    oldValue: string,
    pattern: string,
    patternStatus: int,
    email: string,
    content: string,
    status: int,
    deletedAt: Option<string>)

  /** Run status codes. */
  const Running := 0
  const Stopped := 1

  /** Pattern-test status codes. */
  const PatternUntested := 0
  const PatternValid := 1
  const PatternInvalid := 2
  const PatternTesting := 3

  /** A notification account. */
  datatype Account = Account(
    id: nat,
    email: string,
    password: string,
    smtpHost: string,
    smtpPort: int,
    status: int,
    deletedAt: Option<string>)

  /** Account connectivity codes. */
  const AccountUnknown := 0
  const AccountValid := 1
  const AccountInvalid := 2

  /** gorm's "not found" error text. */
  const RecordNotFound := "record not found"

  /** Mask written over every password in an account listing. */
  const PasswordEncoded := "********"

  /** The handlers' reply messages, one per message constant of the source. */
  datatype Message =
    | JobAlreadyExist | JobAddFail | JobAddInCronFail | JobAddSuccess
    | JobEntryIdGetFail | JobDeleteFail | JobDeleteSuccess
    | JobNotExist | JobUpdateInCronFail | JobUpdateInDbFail | JobUpdateSuccess
    | EmailFindInDbFail | EmailAnalyzeForSmtpInfo | EmailNoSmtpInfoMatch
    | EmailAuthenticateFail | EmailAuthenticateSuccess
    | HtmlCodeGetFail | RegexPatternInvalid | RegexPatternValid
    | AccountAddFail | AccountAddSuccess | AccountDeleteFail | AccountDeleteSuccess
    | AccountUpdateFail | AccountUpdateSuccess | AccountListGetFail | AccountListGetSuccess

  /** An HTTP reply: status code, message and optional error reason. `Panic`
      is a handler that dereferenced nil; the framework's recovery answers 500. */
  datatype Response = Reply(code: int, message: Message, reason: Option<string>) | Panic {
    predicate Ok() { Reply? && code == 200 }
  }

  function Fail(message: Message, reason: Option<string>): Response {
    Reply(500, message, reason)
  }

  function Done(message: Message): Response {
    Reply(200, message, None)
  }

  /** gorm's `Update(column, value)` on one job row for an integer column.
      Both the field name and the snake-case column name are accepted; any
      other name matches no field and the update is silently dropped. */
  function SetJobInt(j: Job, column: string, v: int): (r: Job)
    ensures r.id == j.id && r.deletedAt == j.deletedAt && r.name == j.name
    ensures column == "entry_id" || column == "EntryID" ==> r == j.(entryId := v)
    ensures column == "pattern_status" || column == "PatternStatus" ==> r == j.(patternStatus := v)
    ensures column == "status" || column == "Status" ==> r == j.(status := v)
    ensures column !in {"entry_id", "EntryID", "pattern_status", "PatternStatus", "status", "Status"} ==> r == j
  {
    if column == "entry_id" || column == "EntryID" then j.(entryId := v)
    else if column == "pattern_status" || column == "PatternStatus" then j.(patternStatus := v)
    else if column == "status" || column == "Status" then j.(status := v)
    else j
  }

  /** gorm's `Update(column, value)` on one job row for a text column. */
  function SetJobText(j: Job, column: string, v: string): (r: Job)
    ensures r.id == j.id && r.deletedAt == j.deletedAt
    ensures column == "old_value" || column == "OldValue" ==> r == j.(oldValue := v)
    ensures column != "old_value" && column != "OldValue" ==> r == j
  {
    if column == "old_value" || column == "OldValue" then j.(oldValue := v) else j
  }

  /** gorm's `Update(column, value)` on one account row for an integer column. */
  function SetAccountInt(a: Account, column: string, v: int): (r: Account)
    ensures r.id == a.id && r.email == a.email && r.deletedAt == a.deletedAt
    ensures column == "status" || column == "Status" ==> r == a.(status := v)
    ensures column == "smtp_port" || column == "SMTPPort" ==> r == a.(smtpPort := v)
    ensures column !in {"status", "Status", "smtp_port", "SMTPPort"} ==> r == a
  {
    if column == "status" || column == "Status" then a.(status := v)
    else if column == "smtp_port" || column == "SMTPPort" then a.(smtpPort := v)
    else a
  }

  /** The value `Updates(struct)` writes for one text field: the patch's
      unless it is the zero value. */
  function PickText(patch: string, row: string): string {
    if patch == "" then row else patch
  }

  /** Same for an integer field. */
  function PickInt(patch: int, row: int): int {
    if patch == 0 then row else patch
  }

  /** Same for the soft-delete pointer: nil is the zero value. */
  function PickStamp(patch: Option<string>, row: Option<string>): Option<string> {
    if patch.None? then row else patch
  }

  /** gorm's `Updates(struct)` on a job row: a field of the patch is written
      only when it is not its type's zero value; the primary key never is. */
  function UpdatesJob(row: Job, patch: Job): (r: Job)
    ensures r.id == row.id
    ensures r.name == (if patch.name == "" then row.name else patch.name)
    ensures r.entryId == (if patch.entryId == 0 then row.entryId else patch.entryId)
    ensures r.status == (if patch.status == 0 then row.status else patch.status)
    ensures r.deletedAt == (if patch.deletedAt.None? then row.deletedAt else patch.deletedAt)
    ensures r.oldValue == (if patch.oldValue == "" then row.oldValue else patch.oldValue)
    ensures r.cron == (if patch.cron == "" then row.cron else patch.cron)
    ensures r.url == (if patch.url == "" then row.url else patch.url)
    ensures r.pattern == (if patch.pattern == "" then row.pattern else patch.pattern)
    ensures r.patternStatus == (if patch.patternStatus == 0 then row.patternStatus else patch.patternStatus)
    ensures r.email == (if patch.email == "" then row.email else patch.email)
    ensures r.content == (if patch.content == "" then row.content else patch.content)
  {
    Job(row.id,
        PickText(patch.name, row.name),
        PickText(patch.cron, row.cron),
        PickInt(patch.entryId, row.entryId),
        PickText(patch.url, row.url),
        PickText(patch.oldValue, row.oldValue),
        PickText(patch.pattern, row.pattern),
        PickInt(patch.patternStatus, row.patternStatus),
        PickText(patch.email, row.email),
        PickText(patch.content, row.content),
        PickInt(patch.status, row.status),
        PickStamp(patch.deletedAt, row.deletedAt))
  }

  /** gorm's `Updates(struct)` on an account row, same zero-skipping rule. */
  function UpdatesAccount(row: Account, patch: Account): (r: Account)
    ensures r.id == row.id && r.password == (if patch.password == "" then row.password else patch.password)
    ensures r.email == (if patch.email == "" then row.email else patch.email)
    ensures r.deletedAt == (if patch.deletedAt.None? then row.deletedAt else patch.deletedAt)
    ensures r.smtpHost == (if patch.smtpHost == "" then row.smtpHost else patch.smtpHost)
    ensures r.smtpPort == (if patch.smtpPort == 0 then row.smtpPort else patch.smtpPort)
    ensures r.status == (if patch.status == 0 then row.status else patch.status)
  {
    Account(row.id,
            PickText(patch.email, row.email),
            PickText(patch.password, row.password),
            PickText(patch.smtpHost, row.smtpHost),
            PickInt(patch.smtpPort, row.smtpPort),
            PickInt(patch.status, row.status),
            PickStamp(patch.deletedAt, row.deletedAt))
  }
}
