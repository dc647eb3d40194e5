/** One firing of a watch job (util/job.go; duplicated in api/utils.go and
    api/models.go): fetch, extract, compare with the stored value, and on a
    change store the new value and notify. Every outcome of the network,
    the database write and the mail transport is a parameter. */
module Watch {
  import opened Wrappers
  import opened Records
  import Text
  import Regex
  import Store
  import Email

  type Byte = bv8

  /** Size of the prefix peeked to sniff the page's character set. */
  const PeekSize := 1024

  /** Error of a peek past the end of a short body. */
  const ShortBodyError := "EOF"

  /** `DataEncoding`: peek 1024 bytes, then transcode the whole body with the
      detected character set (`decode`) and read it out (`readErr`). */
  function DataEncoding(body: seq<Byte>, decode: seq<Byte> -> string, readErr: Option<string>): (r: Result<string>)
    ensures |body| < PeekSize ==> r == Failure(ShortBodyError)
    ensures r.Success? <==> |body| >= PeekSize && readErr.None?
    ensures r.Success? ==> r.value == decode(body)
  {
    if |body| < PeekSize then Failure(ShortBodyError)
    else if readErr.Some? then Failure(readErr.value)
    else Success(decode(body))
  }

  /** `GetHtmlByUrl`: the HTTP exchange is `response`; its body is normalised. */
  function GetHtmlByUrl(response: Result<seq<Byte>>, decode: seq<Byte> -> string,
                        readErr: Option<string>): (r: Result<string>)
    ensures response.Failure? ==> r == Failure(response.error)
    ensures r.Success? ==> response.Success? && |response.value| >= PeekSize
  {
    match response
    case Failure(e) => Failure(e)
    case Success(body) => DataEncoding(body, decode, readErr)
  }

  const TargetPlaceholder := "%target%"
  const NamePlaceholder := "%name%"

  /** The notification body: every `%target%` becomes the new value, then
      every `%name%` — including any the value brought in — the job name. */
  function Render(content: string, value: string, name: string): (r: string)
    ensures var once := Text.Join(Text.Split(content, TargetPlaceholder), value);
      r == Text.Join(Text.Split(once, NamePlaceholder), name)
  {
    var once := Text.ReplaceAll(content, TargetPlaceholder, value);
    Text.ReplaceAllIsSplitJoin(content, TargetPlaceholder, value);
    Text.ReplaceAllIsSplitJoin(once, NamePlaceholder, name);
    Text.ReplaceAll(once, NamePlaceholder, name)
  }

  /** The subject line: the configured format with the job name in its one slot. */
  const SubjectHead := "【更新提示】 "
  const SubjectTail := " 有变动啦！"
  function Subject(name: string): (s: string)
    ensures |s| == |SubjectHead| + |name| + |SubjectTail|
    ensures s[|SubjectHead|..|SubjectHead| + |name|] == name
  {
    SubjectHead + name + SubjectTail
  }

  /** What one firing did: the job table afterwards, the message handed to
      the mail transport (if any) and the returned error (if any). */
  datatype Firing = Firing(store: Store.JobTable, mail: Option<Email.Mail>, err: Option<string>)

  /** The outcomes of the firing's external steps. */
  datatype World = World(
    page: Result<string>,            // GetHtmlByUrl
    engine: Regex.Engine,            // the regular-expression engine
    writeErr: Option<string>,        // the old_value write
    dial: Email.Session -> Option<string>,  // SMTP authentication
    transmit: Email.Mail -> Option<string>) // handing the message over

  /** The part of a firing that follows a successful extraction of `value`;
      the notification sets the sender under the header named `header`. */
  function AfterMatch(header: string, job: Job, value: string, store: Store.JobTable, accounts: seq<Account>,
                      w: World): (f: Firing)
    requires Store.Valid(store)
    ensures Store.Valid(f.store)
    ensures !Store.IsLive(store, job.id) ==> f == Firing(store, None, Some(RecordNotFound))
    ensures Store.IsLive(store, job.id) && value == store.rows[job.id].oldValue ==> f == Firing(store, None, None)
    ensures Store.IsLive(store, job.id) && value != store.rows[job.id].oldValue && w.writeErr.Some? ==>
      f == Firing(store, None, w.writeErr)
    ensures Store.IsLive(store, job.id) && value != store.rows[job.id].oldValue && w.writeErr.None? ==>
      && f.store.rows == store.rows[job.id := store.rows[job.id].(oldValue := value)]
      && (f.mail.None? ==> f.err.Some?)
      && (f.mail.Some? ==>
            && f.mail.value.to == [job.email]
            && f.mail.value.subject == Subject(job.name)
            && f.mail.value.body == Render(job.content, value, job.name)
            && f.mail.value.fromHeader == header
            && f.err == Email.DialAndSend(f.mail.value, w.dial, w.transmit))
  {
    match Store.FirstJob(store, job.id)
    case Failure(e) => Firing(store, None, Some(e))
    case Success(row) =>
      if value == row.oldValue then Firing(store, None, None)
      else if w.writeErr.Some? then Firing(store, None, w.writeErr)
      else
        var store' := Store.UpdateJobText(store, job.id, "old_value", value);
        match Store.FirstAccountByEmail(accounts, job.email)
        case None => Firing(store', None, Some(RecordNotFound))
        case Some(k) =>
          var d := Email.SendVia(header, accounts[k], [job.email], Subject(job.name),
                                 Render(job.content, value, job.name), w.dial, w.transmit);
          Firing(store', d.attempt, d.err)
  }

  /** The fetch succeeded and the pattern yielded a first capture group. */
  predicate Extracted(job: Job, w: World)
    requires w.page.Success? ==> w.engine.compiles(job.pattern)
  {
    w.page.Success? && |w.engine.findSubmatch(job.pattern, w.page.value)| >= 2
  }

  /** The extracted value of a firing whose fetch and match succeed. */
  function NewValue(job: Job, w: World): string
    requires w.page.Success? ==> w.engine.compiles(job.pattern)
  {
    if Extracted(job, w) then w.engine.findSubmatch(job.pattern, w.page.value)[1] else ""
  }

  /** The firing reaches the comparison and finds a different value. */
  predicate Changed(job: Job, store: Store.JobTable, w: World)
    requires w.page.Success? ==> w.engine.compiles(job.pattern)
  {
    Extracted(job, w) && Store.IsLive(store, job.id) && NewValue(job, w) != store.rows[job.id].oldValue
  }

  /** `WatchJob` on the snapshot `job` captured when the job was scheduled,
      with the name of the sender header as a parameter. */
  function FireWith(header: string, job: Job, store: Store.JobTable, accounts: seq<Account>, w: World): (f: Firing)
    requires Store.Valid(store)
    requires w.page.Success? ==> w.engine.compiles(job.pattern)
    ensures Store.Valid(f.store)
    // a fetch or extraction failure returns before the store is read
    ensures w.page.Failure? ==> f == Firing(store, None, Some(w.page.error))
    ensures w.page.Success? && !Extracted(job, w) ==> f == Firing(store, None, Some(Regex.NoMatchError))
    // the old value is re-read from the live row; a missing row is an error
    ensures Extracted(job, w) && !Store.IsLive(store, job.id) ==>
      f == Firing(store, None, Some(RecordNotFound))
    // an unchanged value: no write, no mail, no error
    ensures Extracted(job, w) && Store.IsLive(store, job.id) && !Changed(job, store, w) ==>
      f == Firing(store, None, None)
    // a changed value is written first, and the write stands whatever follows
    ensures Changed(job, store, w) && w.writeErr.Some? ==> f == Firing(store, None, w.writeErr)
    ensures Changed(job, store, w) && w.writeErr.None? ==>
      f.store.rows == store.rows[job.id := store.rows[job.id].(oldValue := NewValue(job, w))]
    ensures !(Changed(job, store, w) && w.writeErr.None?) ==> f.store == store
    // the message: to the job's recipient, body rendered from the snapshot
    ensures f.mail.Some? ==>
      && Changed(job, store, w) && w.writeErr.None?
      && f.mail.value.to == [job.email]
      && f.mail.value.subject == Subject(job.name)
      && f.mail.value.body == Render(job.content, NewValue(job, w), job.name)
      && f.mail.value.fromHeader == header
      && f.err == Email.DialAndSend(f.mail.value, w.dial, w.transmit)
    ensures Changed(job, store, w) && w.writeErr.None? && f.mail.None? ==> f.err.Some?
  {
    match w.page
    case Failure(e) => Firing(store, None, Some(e))
    case Success(html) =>
      match Regex.MatchTargetByRegexPattern(html, job.pattern, w.engine)
      case Failure(e) => Firing(store, None, Some(e))
      case Success(value) => AfterMatch(header, job, value, store, accounts, w)
  }

  /** `WatchJob` as written: `SendEmail` sets the sender under `Form`, so a
      firing reports success exactly when it found the value unchanged, and
      a changed value is stored but never reported as delivered. */
  function WatchJob(job: Job, store: Store.JobTable, accounts: seq<Account>, w: World): (f: Firing)
    requires Store.Valid(store)
    requires w.page.Success? ==> w.engine.compiles(job.pattern)
    ensures Store.Valid(f.store)
    ensures f.err.None? <==> Extracted(job, w) && Store.IsLive(store, job.id) && !Changed(job, store, w)
    ensures Changed(job, store, w) && w.writeErr.None? ==>
      f.store.rows == store.rows[job.id := store.rows[job.id].(oldValue := NewValue(job, w))]
    ensures !(Changed(job, store, w) && w.writeErr.None?) ==> f.store == store && f.mail.None?
    ensures f.mail.Some? ==>
      && !Email.HasSender(f.mail.value)
      && f.mail.value.to == [job.email]
      && f.mail.value.body == Render(job.content, NewValue(job, w), job.name)
      && f.err == (if w.dial(f.mail.value.session).Some? then w.dial(f.mail.value.session)
                   else Some(Email.FromAbsent))
  {
    FireWith("Form", job, store, accounts, w)
  }

  /** `WatchJob` as intended, with the sender under `From`: a changed value
      is reported as delivered exactly when a message was built and both
      the dial and the transmission succeeded. */
  function WatchJobIntended(job: Job, store: Store.JobTable, accounts: seq<Account>, w: World): (f: Firing)
    requires Store.Valid(store)
    requires w.page.Success? ==> w.engine.compiles(job.pattern)
    ensures Store.Valid(f.store)
    ensures f.err.None? <==>
      || (Extracted(job, w) && Store.IsLive(store, job.id) && !Changed(job, store, w))
      || (&& Changed(job, store, w) && w.writeErr.None? && f.mail.Some?
          && w.dial(f.mail.value.session).None? && w.transmit(f.mail.value).None?)
    ensures f.mail.Some? ==> Email.HasSender(f.mail.value) && f.mail.value.to == [job.email]
    ensures Changed(job, store, w) && w.writeErr.None? ==>
      f.store.rows == store.rows[job.id := store.rows[job.id].(oldValue := NewValue(job, w))]
  {
    FireWith("From", job, store, accounts, w)
  }

  /** The two versions of a firing write the same rows and build the same
      message apart from the header name; their errors differ only after a
      message was built and its dial succeeded. */
  lemma FiringHeaderOnlyDifference(job: Job, store: Store.JobTable, accounts: seq<Account>, w: World)
    requires Store.Valid(store)
    requires w.page.Success? ==> w.engine.compiles(job.pattern)
    ensures var a := WatchJob(job, store, accounts, w);
      var c := WatchJobIntended(job, store, accounts, w);
      && a.store == c.store
      && a.mail.Some? == c.mail.Some?
      && (c.mail.Some? ==> a.mail.value == c.mail.value.(fromHeader := "Form"))
      && (c.mail.None? || w.dial(c.mail.value.session).Some? ==> a.err == c.err)
  {
  }

  /** What a scheduled run leaves behind: `JobRun.Run` logs the firing's
      error and returns nothing to the scheduler. */
  datatype RunEffect = RunEffect(store: Store.JobTable, mail: Option<Email.Mail>)

  /** `JobRun.Run`: one firing on the captured snapshot; an error never
      propagates, so a failed firing leaves the schedule as it was. */
  function Run(job: Job, store: Store.JobTable, accounts: seq<Account>, w: World): (r: RunEffect)
    requires Store.Valid(store)
    requires w.page.Success? ==> w.engine.compiles(job.pattern)
    ensures Store.Valid(r.store)
    ensures !Changed(job, store, w) ==> r == RunEffect(store, None)
    ensures r.mail.Some? ==> r.mail.value.body == Render(job.content, NewValue(job, w), job.name)
  {
    var f := WatchJob(job, store, accounts, w);
    RunEffect(f.store, f.mail)
  }

  /** Two firings over the same page: once the first has stored the value,
      the second writes nothing and sends nothing. */
  lemma SecondFiringIsQuiet(job: Job, store: Store.JobTable, accounts: seq<Account>, w: World, w2: World)
    requires Store.Valid(store)
    requires w.page.Success? ==> w.engine.compiles(job.pattern)
    requires w2.page == w.page && w2.engine == w.engine
    requires Extracted(job, w) && Store.IsLive(store, job.id) && w.writeErr.None?
    ensures var f1 := WatchJob(job, store, accounts, w);
      WatchJob(job, f1.store, accounts, w2) == Firing(f1.store, None, None)
  {
    var f1 := WatchJob(job, store, accounts, w);
    assert Store.IsLive(f1.store, job.id);
    assert f1.store.rows[job.id].oldValue == NewValue(job, w);
    assert NewValue(job, w2) == NewValue(job, w);
  }

  /** A changed value leads to exactly one write and, when the recipient has
      an account whose server resolves, exactly one message. */
  lemma ChangeSendsOnce(job: Job, store: Store.JobTable, accounts: seq<Account>, w: World)
    requires Store.Valid(store)
    requires w.page.Success? ==> w.engine.compiles(job.pattern)
    requires Changed(job, store, w) && w.writeErr.None?
    requires var k := Store.FirstAccountByEmail(accounts, job.email);
      k.Some? && Email.ResolveTarget(accounts[k.value]).Success?
    ensures var f := WatchJob(job, store, accounts, w);
      && f.store.rows[job.id].oldValue == NewValue(job, w)
      && f.mail.Some?
  {
  }

  /** Of the stored row only the live flag and `oldValue` are read: the rest
      of the message comes from the snapshot, so two stores that agree on
      those give the same message and error. */
  lemma OnlyOldValueIsReRead(job: Job, s1: Store.JobTable, s2: Store.JobTable,
                             accounts: seq<Account>, w: World)
    requires Store.Valid(s1) && Store.Valid(s2)
    requires w.page.Success? ==> w.engine.compiles(job.pattern)
    requires Store.IsLive(s1, job.id) <==> Store.IsLive(s2, job.id)
    requires Store.IsLive(s1, job.id) ==> s1.rows[job.id].oldValue == s2.rows[job.id].oldValue
    ensures WatchJob(job, s1, accounts, w).mail == WatchJob(job, s2, accounts, w).mail
    ensures WatchJob(job, s1, accounts, w).err == WatchJob(job, s2, accounts, w).err
  {
  }

  /** `%target%` is replaced before `%name%`: a template that is just the
      target placeholder renders as the value with every `%name%` it
      carries replaced by the job name. */
  lemma RenderOrder(value: string, name: string)
    ensures Render(TargetPlaceholder, value, name) == Text.ReplaceAll(value, NamePlaceholder, name)
  {
    assert Text.OccursAt(TargetPlaceholder, TargetPlaceholder, 0);
    assert Text.ReplaceAll(TargetPlaceholder, TargetPlaceholder, value) == value by {
      assert Text.Index(TargetPlaceholder, TargetPlaceholder) == Some(0);
      assert TargetPlaceholder[|TargetPlaceholder|..] == "";
    }
  }

  /** A template without placeholders is sent as it is. */
  lemma RenderPlain(content: string, value: string, name: string)
    requires !Text.Contains(content, TargetPlaceholder) && !Text.Contains(content, NamePlaceholder)
    ensures Render(content, value, name) == content
  {
    Text.ReplaceAllAbsent(content, TargetPlaceholder, value);
    Text.ReplaceAllAbsent(content, NamePlaceholder, name);
  }
}
