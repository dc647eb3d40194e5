/** The two probe handlers (handler/email.go, handler/regex_handler.go;
    duplicated in api/handlers.go): test an account's credentials, test a
    pattern against a page. Each records the verdict in the database. */
module Probes {
  import opened Wrappers
  import opened Records
  import Store
  import Email
  import Regex

  // ------------------------------------------------------------ TestEmail

  /** The account table after a probe, and the reply. */
  datatype AccountOutcome = AccountOutcome(accounts: seq<Account>, response: Response)

  /** The reply message for an `EmailIsValid` error, chosen by its text. */
  function Classify(err: string): (m: Message)
    ensures m == EmailAnalyzeForSmtpInfo <==> err == Email.ParseEmailError
    ensures m == EmailNoSmtpInfoMatch <==> err == Email.SmtpInfoNotFound
    ensures m in {EmailAnalyzeForSmtpInfo, EmailNoSmtpInfoMatch, EmailAuthenticateFail}
  {
    if err == Email.ParseEmailError then EmailAnalyzeForSmtpInfo
    else if err == Email.SmtpInfoNotFound then EmailNoSmtpInfoMatch
    else EmailAuthenticateFail
  }

  /** `Model(&account).Update("status", v)`, guarded by a non-zero id (with id
      0 gorm would update every row). `writeErr` is the write's error, which
      the handler never reads: a failed write leaves the table as it was. */
  function StampStatus(accounts: seq<Account>, id: nat, v: int, writeErr: Option<string>): (r: seq<Account>)
    ensures |r| == |accounts|
    ensures forall i :: 0 <= i < |r| ==>
      r[i] == if writeErr.None? && id != 0 && accounts[i].id == id && accounts[i].deletedAt.None?
              then accounts[i].(status := v) else accounts[i]
    ensures Store.AccountsValid(accounts) ==> Store.AccountsValid(r)
  {
    if id == 0 || writeErr.Some? then accounts
    else Store.MapLiveAccount(accounts, id, a => SetAccountInt(a, "status", v))
  }

  /** The credentials the probe dials with: the request's password, or, when
      it is empty, the password of the first live account with that address. */
  function Credential(accounts: seq<Account>, req: Account): (r: Option<Account>)
    ensures req.password != "" ==> r == Some(req)
    ensures req.password == "" ==>
      (r.Some? <==> exists i :: 0 <= i < |accounts| && accounts[i].email == req.email && accounts[i].deletedAt.None?)
    ensures r.Some? ==> r.value.(password := req.password) == req
    ensures req.password == "" ==>
      && (r.Some? <==> Store.FirstAccountByEmail(accounts, req.email).Some?)
      && (r.Some? ==> r.value.password == accounts[Store.FirstAccountByEmail(accounts, req.email).value].password)
  {
    if req.password != "" then Some(req)
    else
      match Store.FirstAccountByEmail(accounts, req.email)
      case None => None
      case Some(k) => Some(req.(password := accounts[k].password))
  }

  /** `TestEmail`: `dial` stands for the SMTP authentication, `writeErr` for
      the ignored error of the status write. */
  function TestEmail(accounts: seq<Account>, req: Account, dial: Email.Session -> Option<string>,
                     writeErr: Option<string>): (o: AccountOutcome)
    ensures Credential(accounts, req).None? ==>
      o == AccountOutcome(accounts, Fail(EmailFindInDbFail, Some(RecordNotFound)))
    ensures Credential(accounts, req).Some? ==>
      var err := Email.EmailIsValid(Credential(accounts, req).value, dial);
      && (err.None? ==> o.response == Done(EmailAuthenticateSuccess))
      && (err.Some? ==> o.response == Fail(Classify(err.value), err))
      && o.accounts == StampStatus(accounts, req.id, if err.None? then AccountValid else AccountInvalid, writeErr)
    ensures o.response.Ok() <==> o.response == Done(EmailAuthenticateSuccess)
  {
    match Credential(accounts, req)
    case None => AccountOutcome(accounts, Fail(EmailFindInDbFail, Some(RecordNotFound)))
    case Some(account) =>
      match Email.EmailIsValid(account, dial)
      case Some(err) =>
        AccountOutcome(StampStatus(accounts, account.id, AccountInvalid, writeErr), Fail(Classify(err), Some(err)))
      case None => AccountOutcome(StampStatus(accounts, account.id, AccountValid, writeErr), Done(EmailAuthenticateSuccess))
  }

  /** Leaving the password out is the same as sending the stored one. */
  lemma StoredPasswordStandsIn(accounts: seq<Account>, req: Account, dial: Email.Session -> Option<string>,
                               writeErr: Option<string>, k: nat)
    requires req.password == ""
    requires k < |accounts| && accounts[k].email == req.email && accounts[k].deletedAt.None?
    requires forall i :: 0 <= i < k ==> !(accounts[i].email == req.email && accounts[i].deletedAt.None?)
    ensures TestEmail(accounts, req, dial, writeErr)
            == TestEmail(accounts, req.(password := accounts[k].password), dial, writeErr)
  {
    var found := Store.FirstAccountByEmail(accounts, req.email);
    assert found == Some(k);
    assert Credential(accounts, req) == Credential(accounts, req.(password := accounts[k].password));
  }

  /** An address without `@` and no server of its own is reported as
      unparseable, and the account is marked invalid; no dial happens. */
  lemma UnparseableAddress(accounts: seq<Account>, req: Account, dial: Email.Session -> Option<string>,
                           writeErr: Option<string>)
    requires req.password != "" && !Email.HasOverride(req) && '@' !in req.email
    ensures TestEmail(accounts, req, dial, writeErr) ==
      AccountOutcome(StampStatus(accounts, req.id, AccountInvalid, writeErr),
                     Fail(EmailAnalyzeForSmtpInfo, Some(Email.ParseEmailError)))
  {
  }

  // ---------------------------------------------------- TestRegexPattern

  /** The job table after a pattern probe, the reply, and its `data` field. */
  datatype PatternOutcome = PatternOutcome(store: Store.JobTable, response: Response, data: Option<string>)

  /** The only pattern type the probe knows. */
  const RegexType := "re"

  /** The error for any other pattern type. */
  function PatternTypeNotFound(kind: string): string {
    "Pattern-type `" + kind + "` is not found"
  }

  /** The probe with the column its verdict is written to as a parameter.
      `jobId` is the `id` query parsed as a key (0 when absent or not a
      number); `page` is the result of fetching the page; `patternType` is
      the `type` query, if present. A pattern that does not compile is
      dereferenced as nil. `writeErr` is the error of the verdict write,
      which the handler never reads. */
  function ProbePattern(column: string, t: Store.JobTable, jobId: nat, page: Result<string>,
                        pattern: string, patternType: Option<string>, engine: Regex.Engine,
                        writeErr: Option<string>): (o: PatternOutcome)
    requires Store.Valid(t)
    ensures Store.Valid(o.store)
    ensures !o.response.Ok() ==> o.store == t && o.data.None?
    ensures o.response.Ok() ==>
      && o.store == (if writeErr.None? then Store.UpdateJobInt(t, jobId, column, PatternValid) else t)
      && page.Success? && engine.compiles(pattern)
      && Regex.MatchTargetByRegexPattern(page.value, pattern, engine).Success?
      && o.data == Some(Regex.MatchTargetByRegexPattern(page.value, pattern, engine).value)
  {
    var kind := if patternType.Some? then patternType.value else RegexType;
    match page
    case Failure(e) => PatternOutcome(t, Fail(HtmlCodeGetFail, Some(e)), None)
    case Success(html) =>
      if kind != RegexType then
        PatternOutcome(t, Fail(RegexPatternInvalid, Some(PatternTypeNotFound(kind))), None)
      else if !engine.compiles(pattern) then PatternOutcome(t, Panic, None)
      else
        match Regex.MatchTargetByRegexPattern(html, pattern, engine)
        case Failure(e) => PatternOutcome(t, Fail(RegexPatternInvalid, Some(e)), None)
        case Success(v) =>
          var t' := if Store.FirstJob(t, jobId).Success? && writeErr.None?
                    then Store.UpdateJobInt(t, jobId, column, PatternValid) else t;
          PatternOutcome(t', Done(RegexPatternValid), Some(v))
  }

  /** `TestRegexPattern` as written: the verdict goes to column
      `patten_status`, which no field answers to, so nothing is ever stored. */
  function TestRegexPatternAsWritten(t: Store.JobTable, jobId: nat, page: Result<string>,
                                     pattern: string, patternType: Option<string>, engine: Regex.Engine,
                                     writeErr: Option<string>): (o: PatternOutcome)
    requires Store.Valid(t)
    ensures o.store == t
  {
    ProbePattern("patten_status", t, jobId, page, pattern, patternType, engine, writeErr)
  }

  /** `TestRegexPattern` as intended: a passing pattern marks the live job
      with that key as tested and valid. */
  function TestRegexPattern(t: Store.JobTable, jobId: nat, page: Result<string>,
                            pattern: string, patternType: Option<string>, engine: Regex.Engine,
                            writeErr: Option<string>): (o: PatternOutcome)
    requires Store.Valid(t)
    ensures Store.Valid(o.store) && o.store.nextId == t.nextId
    ensures page.Failure? ==> o == PatternOutcome(t, Fail(HtmlCodeGetFail, Some(page.error)), None)
    ensures page.Success? && patternType.Some? && patternType.value != RegexType ==>
      o == PatternOutcome(t, Fail(RegexPatternInvalid, Some(PatternTypeNotFound(patternType.value))), None)
    ensures o.response == Panic <==>
      page.Success? && (patternType.None? || patternType.value == RegexType) && !engine.compiles(pattern)
    ensures o.response.Ok() <==>
      && page.Success? && (patternType.None? || patternType.value == RegexType) && engine.compiles(pattern)
      && Regex.MatchTargetByRegexPattern(page.value, pattern, engine).Success?
    ensures o.response.Ok() ==>
      && o.data == Some(Regex.MatchTargetByRegexPattern(page.value, pattern, engine).value)
      && (Store.IsLive(t, jobId) && writeErr.None? ==>
            o.store.rows == t.rows[jobId := t.rows[jobId].(patternStatus := PatternValid)])
      && (!Store.IsLive(t, jobId) || writeErr.Some? ==> o.store == t)
    ensures !o.response.Ok() ==> o.store == t && o.data.None?
  {
    ProbePattern("pattern_status", t, jobId, page, pattern, patternType, engine, writeErr)
  }

  /** The two versions give the same reply and data; they differ only in
      whether the verdict reaches the row. */
  lemma PatternStatusNeverStored(t: Store.JobTable, jobId: nat, page: Result<string>,
                                 pattern: string, patternType: Option<string>, engine: Regex.Engine,
                                 writeErr: Option<string>)
    requires Store.Valid(t)
    ensures var w := TestRegexPatternAsWritten(t, jobId, page, pattern, patternType, engine, writeErr);
      var c := TestRegexPattern(t, jobId, page, pattern, patternType, engine, writeErr);
      && w.response == c.response && w.data == c.data
      && (c.response.Ok() && writeErr.None? && Store.IsLive(t, jobId) && t.rows[jobId].patternStatus != PatternValid ==>
            w.store != c.store)
  {
    var w := TestRegexPatternAsWritten(t, jobId, page, pattern, patternType, engine, writeErr);
    var c := TestRegexPattern(t, jobId, page, pattern, patternType, engine, writeErr);
    if c.response.Ok() && writeErr.None? && Store.IsLive(t, jobId) && t.rows[jobId].patternStatus != PatternValid {
      assert c.store.rows[jobId].patternStatus == PatternValid;
    }
  }
}
