# SurveillanceGuy — a Dafny model of its scheduling and notification core

SurveillanceGuy watches web pages. Each job holds a URL, a regular expression
and a cron expression. On every firing the job fetches the page and takes the
expression's first capture group. It compares that group with the value
stored in the database. When the value changed, it stores the new one and
e-mails the job's recipient from a registered account, choosing the SMTP
server from the address suffix. HTTP handlers add, delete and update jobs.
Each handler keeps two stores in step: the job table and the in-memory cron
scheduler. At start-up every running job is registered again.

The model is a functional state machine. The job table is a map from key to
row, and the scheduler is a map from entry id to the job snapshot it runs.
Every handler and the start-up pass is a pure function (one a method with a
loop) from a state to a new state and a reply. Every outside outcome is a
parameter:
- the page fetch;
- the regular-expression engine;
- the validity of a cron expression;
- each database write's error;
- the SMTP dial and transmission.

The database follows gorm v1's rules:
- the default scope hides soft-deleted rows;
- `Update(column)` writes one named column and drops a column that names no
  field;
- `Updates(struct)` skips zero fields;
- `Save` writes the whole row;
- an unscoped delete removes the row.

The `api/` package repeats the logic of `util/`, `handler/` and `model/`. It
is modelled once, and the rows below cite the `util/`/`handler/` copy. The
`api/` copy reads `STMPHost`/`STMPPort` (api/utils.go:155-160) where its
account type declares `SMTPHost`/`SMTPPort`, so the override rule follows
util/email_util.go:22.

The start-up pass returns on the first registration or write failure
(cmd/main.go:33-40), and `Startup.SyncJobsInDataBase` does the same.

Modules:
- `Wrappers`: `Option`, `Result`.
- `Text`: Go's `strings.Split`, joining, and literal replace-all.
- `SmtpTable`: the suffix tables.
- `Records`: rows, status codes, replies and gorm's column rules.
- `Store`: the job and account tables.
- `Email`: SMTP resolution and sending.
- `Regex`: first-group extraction.
- `Schedule`: the cron scheduler.
- `Watch`: one firing.
- `JobHandler`: add, delete and update.
- `Lifecycle`: the link between rows and entries.
- `Startup`: the start-up pass.
- `Probes`: the e-mail and pattern tests.
- `AccountHandler`: account list, add, delete and update.

## Model

| member | source | states |
|---|---|---|
| Text.SplitSingle | util/email_util.go:47-50 | Splitting yields a single piece exactly when the separator does not occur: the "cannot parse" branch is taken exactly for an address without `@` |
| Text.JoinSplit | util/email_util.go:47 | Joining the pieces of a split with the separator gives the input back: the split loses nothing |
| Text.SplitPiecesFree | util/email_util.go:51 | No piece of a split contains the separator, so the last piece is the text after the last `@` |
| Text.Index | util/email_util.go:47 | The leftmost occurrence: it occurs there, nowhere earlier, and there is none exactly when the text does not contain the pattern |
| Text.ReplaceAllIsSplitJoin | util/job.go:71-74 | Literal replace-all equals splitting on the pattern and joining with the replacement: every occurrence is replaced, left to right, without overlap |
| Text.ReplaceAllSelf | util/job.go:72 | Replacing a pattern by itself changes nothing |
| Text.ReplaceAllAbsent | util/job.go:72 | A text without the pattern is returned unchanged |
| Text.ContainsChar | util/email_util.go:47 | Containing the one-character string `[c]` is the same as containing the character `c` |
| SmtpTable.SameSuffixes | model/email_smtp.go:3-53 | The host table and the port table have the same suffixes |
| SmtpTable.PortsAreStandard | model/email_smtp.go:29-53 | Every port in the table is 25, 465 or 587, so a hit never yields port 0 |
| SmtpTable.SampleEntries | model/email_smtp.go:3-27 | qq.com is (smtp.qq.com, 465); gmail.com and outlook.com use 587; live.com/hotmail.com and 263.net/x263.net share a host |
| Email.AfterLastAtOf | util/email_util.go:51 | The text after the last `@` of `pre@t`, for `t` without `@`, is `t` |
| Email.LastPieceIsSuffix | util/email_util.go:47-51 | For an address with `@`, the split has at least two pieces and its last piece is the text after the last `@` |
| Email.ParseSmtpInfoByEmail | util/email_util.go:46-60 | No `@`: ("", 0, ParseEmailError). A known suffix after the last `@`: exactly the table's host and port. An unknown suffix: SMTPInfoNotFound, never ParseEmailError. A success has a standard port |
| Email.ResolveTarget | util/email_util.go:22-30 | With host and non-zero port set, the account's own server is used even for an address without `@`. Otherwise it succeeds iff the address has `@` and a known suffix. Its only errors are the two constants |
| Email.DialAndSend | util/email_util.go:38-40 | Sending succeeds only when the dial succeeds, the message has a sender header and the transmission succeeds; a message without a sender always fails |
| Email.SendVia | util/email_util.go:16-42 | A resolution error is returned before anything is built or dialled; otherwise the message goes to the resolved server with the account's credentials, and the error is the dial-and-send outcome |
| Email.SendEmailAsWritten | util/email_util.go:33 | As written the sender is set under the header `Form`, so every call returns an error: no notification is ever delivered |
| Email.SendEmail | util/email_util.go:16-42 | With the sender under `From`, a message whose server resolves goes out with the given recipients, subject and body, and succeeds exactly when dial and transmission succeed |
| Email.SenderHeaderOnlyDifference | util/email_util.go:33 | The two versions build the same message apart from the header name and fail alike up to the dial. After a successful dial the as-written one always fails with gomail's missing-From error |
| Email.EmailIsValid | util/email_util.go:64-91 | The same server choice as `SendEmail`; a resolution error is returned unchanged before any dial, otherwise the outcome is the dial's |
| Email.QqExample | util/email_util.go:53-56 | `a@qq.com` resolves to (smtp.qq.com, 465) |
| Email.LastAtExample | util/email_util.go:51 | `a@b@qq.com` resolves through the last `@`, to qq.com's server |
| Email.UnknownSuffixExample | util/email_util.go:57-58 | A parsable address with an unknown suffix fails with SMTPInfoNotFound |
| Email.EmptySuffixExample | util/email_util.go:51 | `a@` has the empty suffix, which the table does not know |
| Email.NoAtExamples | util/email_util.go:47-50 | `aqq.com` and the empty address fail with ParseEmailError and ("", 0) |
| Records.SetJobInt | model/job_model.go:7-19 | `Update(column, n)` on a job writes entry id, pattern status or status when the column names that field (field or column spelling); any other column leaves the row as it was |
| Records.SetJobText | util/job.go:61 | `Update("old_value", v)` writes the stored value and nothing else; another column changes nothing |
| Records.SetAccountInt | model/account_model.go:7-20 | `Update("status", v)` on an account writes its status; an unknown column changes nothing; key, address and deletion mark never change |
| Records.UpdatesJob | handler/job_handler.go:124-131 | `Updates(patch)`: every field whose patch value is zero (empty name, entry id 0, status 0, no deletion time) keeps the row's value, every other is taken from the patch |
| Records.UpdatesAccount | handler/account.go:77-82 | The same zero-skipping rule for every field of an account: address, password, server, port, status and deletion time come from the patch when set there and are kept otherwise |
| Store.JobNameTaken | util/job.go:137-146 | A name is taken exactly when a default-scoped find by some key returns a row with that name, so soft-deleted rows free their names |
| Store.FirstJob | util/job.go:46-49 | Finding a job by key succeeds exactly for a live row and returns it; otherwise "record not found" |
| Store.CreateJob | handler/job_handler.go:53 | An insert either fails with the injected error and changes nothing, or stores the record under the next, unused key |
| Store.HardDeleteJob | handler/job_handler.go:69 | The unscoped delete removes the row whether or not it was soft-deleted and nothing else |
| Store.UpdateJobInt | cmd/main.go:37 | A single-column write reaches only the live row with that key; a missing or soft-deleted row leaves the table unchanged |
| Store.UpdateJobText | util/job.go:61 | The text-column write reaches only the live row with that key |
| Store.UpdatesJobRow | handler/job_handler.go:124 | `Updates` reaches only the live row with that key, applying the zero-skipping rule |
| Store.SaveJob | handler/job_handler.go:222 | `Save` replaces every field of the row with the record's |
| Store.JobExistsById | util/job.go:167-175 | Existence by key is exactly a successful default-scoped find |
| Store.GetJobEntryId | util/job.go:157-165 | The stored entry id of the live row, or "record not found" for a missing or soft-deleted one |
| Store.FirstAccountByEmail | util/job.go:66 | The first live account with that address in key order, or none when no live account has it |
| Store.MapLiveAccount | handler/email.go:82 | A keyed account write changes the live rows with that key and no other row, and keeps keys positive and in increasing order |
| Store.LiveAccounts | handler/account.go:150 | The listing holds only live accounts of the table |
| Regex.MatchTargetByRegexPattern | util/regex.go:10-19 | Succeeds exactly when the leftmost match has a first capture group, returning that group; otherwise "Can't match target", including for a match without groups |
| Regex.OnlyFirstGroupMatters | util/regex.go:12-15 | Engines that agree on the leftmost match's first group give the same result, so later groups and later matches are ignored |
| Regex.ValuePatternExamples | util/regex.go:13-18 | With `value:(\d+)`, `value:42` yields `42` and `value:x` fails with "Can't match target" |
| Schedule.Add | handler/job_handler.go:66 | A rejected expression gives the parser's error and no entry; otherwise a fresh positive entry id not in use, with the snapshot added and nothing else changed |
| Schedule.Remove | handler/job_handler.go:142 | Removing drops that entry; an id not in use, 0 included, leaves the scheduler unchanged |
| Schedule.RemoveIdempotent | handler/job_handler.go:203 | Removing twice is removing once |
| Watch.DataEncoding | util/job.go:118-133 | A body shorter than 1024 bytes fails before transcoding; otherwise the result is the transcoded body unless the read fails |
| Watch.GetHtmlByUrl | util/job.go:86-114 | A failed request is returned as is; a success always carries at least 1024 bytes |
| Watch.Render | util/job.go:71-74 | The body is the template split on `%target%` and joined with the value, then split on `%name%` and joined with the job name: every occurrence of each is replaced, in that order |
| Watch.Subject | util/job.go:76 | The job name sits verbatim in the one slot of the subject format (api/configs.go:16 holds the same format) |
| Watch.AfterMatch | util/job.go:43-81 | After extraction: a missing row is an error with no write; an equal value does nothing; a changed value is written before the account lookup; the mail goes to the job's recipient with the rendered body, under the given sender header |
| Watch.FireWith | util/job.go:21-82 | For either sender header: fetch and match failures return before the store is read. Only `old_value` is written, and only for a changed value. That write stands whatever follows. The mail's recipient, subject and `%target%`-then-`%name%` body come from the snapshot |
| Watch.WatchJob | util/job.go:21-82 | As written, with the sender under `Form`: a firing returns no error exactly when it found the value unchanged. A changed value is stored, but a built message fails with the dial's error or gomail's missing-From error, so a change is never reported as delivered |
| Watch.WatchJobIntended | util/job.go:21-82 | With the sender under `From`: no error exactly for an unchanged value, or for a changed one whose message was built, dialled and transmitted successfully |
| Watch.FiringHeaderOnlyDifference | util/job.go:76 | The two firings write the same rows and build the same message apart from the header name; their errors differ only once a built message's dial succeeds |
| Watch.Run | model/job.go:28-41 | A scheduled run swallows the firing's error; without a change it leaves the store as it was and sends nothing |
| Watch.SecondFiringIsQuiet | util/job.go:54-56 | Over the same page, a second firing after a successful first one writes nothing and sends nothing |
| Watch.ChangeSendsOnce | util/job.go:57-80 | A changed value whose write succeeds, for a recipient with a live account whose server resolves, stores the new value and hands a message to the transport |
| Watch.OnlyOldValueIsReRead | util/job.go:45-50 | Two tables that agree on the row's liveness and stored value give the same mail and error: nothing else of the row is re-read |
| Watch.RenderOrder | util/job.go:71-74 | `%target%` is replaced before `%name%`: the template `%target%` renders as the value with each `%name%` it carries replaced by the job name |
| Watch.RenderPlain | util/job.go:71-74 | Content without placeholders is sent unchanged |
| JobHandler.AddJobAsWritten | handler/job_handler.go:30-85 | Duplicate name or failed insert: nothing changes. A rejected expression with a failed rollback reports the rollback's error and keeps the row. With a successful rollback the reply panics. A success registers the job whatever its status, and the row keeps the request's entry id |
| JobHandler.Admit | handler/job_handler.go:53 | Part of the intended add, a correction of this line, which stores the request as sent: the stored request loses only the client-supplied entry id and deletion mark |
| JobHandler.AddJob | handler/job_handler.go:30-85 | Never panics. A stopped job is stored and not scheduled. A rejected expression reports the parser's error with no entry, and the row is gone when the rollback succeeds. A failed write-back of the entry id unregisters the new entry and likewise rolls the row back. A success stores the row and registers a fresh entry whose id the row records |
| JobHandler.SoftDeletePatchApplied | handler/job_handler.go:124-131 | The delete patch renames the row with the time stamp, stops it and soft-deletes it; its `EntryID: 0` is skipped, so the stored entry id survives |
| JobHandler.DeleteJob | handler/job_handler.go:99-149 | The entry id comes from the stored row; a missing row changes nothing; a failed write changes nothing; success renames, stops and soft-deletes the row, keeps its entry id, then removes that entry |
| JobHandler.SaveOrUndo | handler/job_handler.go:222-231 | A failed save removes the entry just registered and leaves the table; a successful one writes the whole row |
| JobHandler.UpdateJob | handler/job_handler.go:165-238 | Unknown id: nothing changes. Otherwise the stored entry is removed first. A running job gets a fresh entry (none if its expression is rejected); any other status is saved with entry id 0. A failed save drops the new entry |
| Lifecycle.ScheduledIffLiveRunning | handler/job_handler.go:204-219 | When rows and entries are linked, a job is scheduled exactly when its row is live and running |
| Lifecycle.InitialLinked | cmd/main.go:62 | A fresh process starts linked |
| Lifecycle.RemoveStoredEntry | handler/job_handler.go:200-203 | When linked, removing a live row's stored entry leaves no entry for that job and keeps every other entry |
| Lifecycle.AddJobKeepsLink | handler/job_handler.go:30-85 | The intended add keeps the link on every outcome whose rollbacks succeed |
| Lifecycle.DeleteJobKeepsLink | handler/job_handler.go:99-149 | Delete keeps the link on every outcome |
| Lifecycle.UpdateJobKeepsLink | handler/job_handler.go:165-238 | A successful update of a request without a deletion mark keeps the link |
| Lifecycle.LinkedSingleEntry | handler/job_handler.go:203-216 | When linked, a job has at most one entry |
| Lifecycle.AddThenDeleteUnschedules | handler/job_handler.go:112-142 | With the intended add, adding and then deleting a job leaves it unscheduled |
| Lifecycle.AsWrittenAddBreaksLink | handler/job_handler.go:78 | As written, the first add stores entry id 0 beside entry 1 |
| Lifecycle.AsWrittenDeleteKeepsFiring | handler/job_handler.go:112-142 | As written, add then delete soft-deletes the row and the job keeps running |
| Lifecycle.AsWrittenUpdateDuplicates | handler/job_handler.go:190-216 | As written, add then update of a running job leaves two entries running it |
| Lifecycle.AsWrittenStoppedScheduled | handler/job_handler.go:65-66 | As written, a job added as stopped is scheduled |
| Lifecycle.StoppedNotScheduled | handler/job_handler.go:65-66 | The intended add never schedules a job added as stopped |
| Lifecycle.RollbackOutcomes | handler/job_handler.go:67-76 | A rejected expression with a successful rollback panics as written; the intended add reports the parser's error |
| Startup.LoadOrder | cmd/main.go:20-24 | The rows `Find` returns: every live key once, soft-deleted rows hidden by the default scope |
| Startup.Selected | cmd/main.go:27-30 | The pass registers only rows that are running and not soft-deleted |
| Startup.SyncJobsInDataBase | cmd/main.go:19-44 | A load error registers nothing. Rows are taken in order; only running, undeleted rows are registered, each with its new entry id written back. The first failure stops the pass: earlier rows stay registered, later ones are not, and a failed write-back leaves its entry. Only entry ids change. A full pass over a table whose stopped rows hold entry id 0 leaves rows and scheduler linked |
| Startup.SyncLinks | cmd/main.go:25-41 | Every live row handled (running ones registered and written back, others untouched), with stopped rows at entry id 0, gives a linked state |
| Probes.Classify | handler/email.go:58-80 | Error text equal to ParseEmailError maps to the parse message, equal to SMTPInfoNotFound to the no-match message, anything else to the authentication-failure message |
| Probes.StampStatus | handler/email.go:81-89 | The status write reaches the live account with the request's key, and nothing when the key is 0 or the write fails (its error is never read). Key order is kept |
| Probes.Credential | handler/email.go:41-54 | A non-empty password is used as is; an empty one is replaced by the stored password of the first live account with the address, and fails when there is none |
| Probes.TestEmail | handler/email.go:26-95 | A missing stored password fails with no write. Otherwise the reply classifies the validity check's error, and the account is marked 1 on success or 2 on failure when the key is non-zero; a failed status write changes neither the table nor the reply |
| Probes.StoredPasswordStandsIn | handler/email.go:41-53 | Leaving the password out behaves as sending the stored one |
| Probes.UnparseableAddress | handler/email.go:56-84 | An address without `@` and no own server is reported as unparseable and marked invalid |
| Probes.ProbePattern | handler/regex_handler.go:28-75 | Only a successful probe writes, and then only the given column of the live row with that key, unless that unchecked write fails; a failed probe returns no data |
| Probes.TestRegexPatternAsWritten | handler/regex_handler.go:66-68 | As written the verdict goes to column `patten_status`, which names no field: the table never changes |
| Probes.TestRegexPattern | handler/regex_handler.go:28-75 | A fetch failure is reported first. The type defaults to `re`; any other type is rejected by name. A pattern that does not compile panics. A match failure records nothing. Success returns the capture and marks a live job's pattern as valid, unless the unchecked write fails |
| Probes.PatternStatusNeverStored | handler/regex_handler.go:66-68 | Both versions reply alike; for a live untested job with a passing pattern only the intended one changes the row |
| AccountHandler.Mask | handler/account.go:161-164 | Every password becomes `********` and nothing else changes |
| AccountHandler.GetAllAccounts | handler/account.go:148-171 | A failed load returns no data; otherwise the live accounts, in order, with only the password masked |
| AccountHandler.LiveAccountsExact | handler/account.go:150 | The listing holds exactly the live accounts, and keeps keys in order |
| AccountHandler.MaskIdempotent | handler/account.go:161-164 | Masking twice is masking once, and no listed password survives |
| AccountHandler.NextAccountId | handler/account.go:36 | The key an insert hands out is larger than every key in the table |
| AccountHandler.AddAccount | handler/account.go:25-51 | A failed insert changes nothing; otherwise the request is appended under a fresh key, keys staying ordered |
| AccountHandler.AddedAccountIsFound | handler/account.go:36 | A new address is found again by the address lookup, at the new row |
| AccountHandler.FirstMatchAt | util/job.go:66 | The address lookup returns the first live match |
| AccountHandler.Targets | handler/account.go:76-82 | The rows the keyed write reaches: the live row with the request's key, and every live row when the key is 0 |
| AccountHandler.SoftDeletePatchApplied | handler/account.go:76-82 | The delete patch renames the account with the time stamp and soft-deletes it; password, server and status are kept |
| AccountHandler.DeleteAccount | handler/account.go:64-97 | A failed write changes nothing; otherwise the targeted live rows get the request's address plus the time stamp and the deletion time, and nothing else changes; keys stay in order |
| AccountHandler.DeletedAccountHidden | handler/account.go:76-82 | A deleted account leaves the listing and no longer answers to its old address at that row |
| AccountHandler.UpdateAccount | handler/account.go:110-137 | A failed save changes nothing; otherwise the live row with the request's key becomes the request, every field included |
| AccountHandler.UpdateAccountIdempotent | handler/account.go:122 | Saving the same record twice is saving it once, and keys stay ordered |

## Left out

- HTTP fetching, TLS and time-outs (util/job.go:86-114): network I/O. The fetch outcome is a parameter.
- Character-set detection and transcoding (util/job.go:124-132): a foreign library. The transcoder is a parameter, and only the 1024-byte peek is modelled.
- The regular-expression engine: a parameter that says whether a pattern compiles and gives the leftmost submatches.
- Cron expression parsing and timing: a parameter says whether an expression is accepted. Firing times are not modelled.
- The gomail transport: dial and transmission outcomes are parameters. The model keeps only gomail's refusal of a message without a `From`/`Sender` header.
- JSON binding of request bodies: every handler's first branch replies with a JSON parse error. The model starts from the decoded request.
- Database errors other than "record not found" on reads: not modelled. Write errors are parameters.
- Timestamps: `time.Now().String()` is an opaque `now` parameter. gorm's `created_at`/`updated_at` are not modelled.
- Concurrency between firings and handlers: every step is sequential.
- Log tailing over WebSocket, authentication, template CRUD, the job listing, route wiring, logging and `PrintAllJobs`: plumbing outside the scheduling and notification logic.
- The start-up error being only logged before the scheduler starts (cmd/main.go:64-68): `main` is not modelled.
- SmtpTable.SameSuffixes: states that the two tables have the same suffixes, not that there are 23 of them. Counting 23 distinct string keys is beyond what the solver does in its limits.
- Regex.MatchTargetByRegexPattern: requires a pattern that compiles. The source discards the compile error and dereferences nil, which crashes; `Probes.TestRegexPattern` models that crash as a panic reply.
- Watch.WatchJob: requires the job's pattern to compile for the same reason. Neither add nor update compiles the pattern, so a client can store one that does not compile. Its firing dereferences nil (util/regex.go:11-12). The scheduler is built by `cron.New()` (cmd/main.go:62) without a recovering wrapper, so that panic ends the whole server process. The model has no state for a dead process.
- Watch.FireWith: requires a compiling pattern, as `Watch.WatchJob` does and for the same reason.
- Watch.WatchJobIntended: requires a compiling pattern, as `Watch.WatchJob` does and for the same reason.
- Watch.Run: requires a compiling pattern, as `Watch.WatchJob` does and for the same reason.
- JobHandler.AddJobAsWritten: a client-supplied job id is not modelled. gorm would insert under that key; the model hands out the next key.
- AccountHandler.AddAccount: a client-supplied account id or deletion mark is not modelled. The new row gets the next key and no deletion mark.
- AccountHandler.UpdateAccount: when no live row has the key, gorm's `Save` falls back to an insert. The model leaves the table unchanged in that case.
- Probes.TestRegexPattern: the `id` query is taken as an already parsed key, 0 when absent or not numeric.
- Startup.SyncJobsInDataBase: the order in which the database returns rows is an input.
- Store.SaveJob: requires a live row. Its only caller checks that first.
- A uniqueness violation on insert (job or account name) is covered by the injected insert error.

## Findings

| source | as written | input that shows it | evidently intended | confidence | as-written member | corrected member |
|---|---|---|---|---|---|---|
| handler/job_handler.go:67-74 | After a rejected cron expression, the reply reads the rollback's error text even when the rollback succeeded and the error is nil | any job with an expression the scheduler rejects, and a successful hard delete | report the scheduler's error | high; not executed | Lifecycle.RollbackOutcomes | JobHandler.AddJob |
| handler/job_handler.go:78 | The new entry id is kept only in a local copy, so the row keeps the request's entry id (normally 0) | add a running job, then delete it | store the entry id so that delete removes the job's entry | high; not executed | Lifecycle.AsWrittenDeleteKeepsFiring | Lifecycle.AddThenDeleteUnschedules |
| handler/job_handler.go:190-216 | Update removes the stale stored entry id and registers a second entry beside the first | add a running job, then update it as running | one entry per running job | high; not executed | Lifecycle.AsWrittenUpdateDuplicates | Lifecycle.LinkedSingleEntry |
| handler/job_handler.go:65-66 | Add registers the job whatever its status | add a job with status 1 (stopped) | register only running jobs, as update and start-up do | medium; not executed | Lifecycle.AsWrittenStoppedScheduled | Lifecycle.StoppedNotScheduled |
| handler/regex_handler.go:67 | The verdict is written to column `patten_status` (model/job_model.go:27), which names no field, so gorm drops it | a passing pattern for a live job whose pattern status is 0 | set the row's pattern status to 1 | high; not executed | Probes.TestRegexPatternAsWritten | Probes.TestRegexPattern |
| util/email_util.go:33 | The sender is set under the header `Form`; gomail's send refuses a message with neither `From` nor `Sender` | any notification whose server resolves and whose dial succeeds | set the sender under `From` | medium (relies on gomail's header check); not executed | Email.SendEmailAsWritten | Email.SendEmail |
| util/job.go:76 | A firing sends through that `SendEmail`, so a changed value is stored but the firing always returns an error and no notification is delivered | a changed value, a successful write, a recipient with a live account whose server resolves, and a successful dial | deliver the notification and return no error | medium (relies on gomail's header check); not executed | Watch.WatchJob | Watch.WatchJobIntended |
