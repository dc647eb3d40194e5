/** SMTP resolution and the two mail operations built on it
    (util/email_util.go; duplicated in api/utils.go). */
module Email {
  import opened Wrappers
  import Text
  import SmtpTable
  import opened Records

  /** Error text returned when an address has no `@`. */
  const ParseEmailError := "Can't parse email suffix"
  /** Error text returned when the suffix is in neither table. */
  const SmtpInfoNotFound := "Can't found target SMTP information for the email-suffix"

  /** Where to dial. */
  datatype Target = Target(host: string, port: int)

  /** The `(host, port, err)` triple of the suffix lookup. */
  datatype Lookup = Lookup(host: string, port: int, err: Option<string>)

  /** An authenticated SMTP session: server, user name and secret. */
  datatype Session = Session(target: Target, user: string, password: string)

  /** One outgoing message handed to gomail: the session, the header name the
      sender address was set under, the sender, recipients, subject and body. */
  datatype Mail = Mail(session: Session, fromHeader: string, from: string, to: seq<string>,
                       subject: string, body: string)

  /** What a send did: the message handed to the transport, if any, and the error. */
  datatype Delivery = Delivery(attempt: Option<Mail>, err: Option<string>)

  /** Reference definition: the characters after the last `@` (all of them if there is none). */
  function AfterLastAt(s: string): string {
    if |s| == 0 then ""
    else if s[|s| - 1] == '@' then ""
    else AfterLastAt(s[..|s| - 1]) + [s[|s| - 1]]
  }

  lemma {:induction false} AfterLastAtOf(pre: string, t: string)
    requires '@' !in t
    ensures AfterLastAt(pre + "@" + t) == t
    decreases |t|
  {
    var s := pre + "@" + t;
    if |t| == 0 {
      assert s[|s| - 1] == '@';
    } else {
      assert s[..|s| - 1] == pre + "@" + t[..|t| - 1];
      AfterLastAtOf(pre, t[..|t| - 1]);
      assert t == t[..|t| - 1] + [t[|t| - 1]];
    }
  }

  lemma {:induction false} JoinLast(parts: seq<string>, sep: string)
    requires |parts| >= 2
    ensures Text.Join(parts, sep) == Text.Join(parts[..|parts| - 1], sep) + sep + parts[|parts| - 1]
    decreases |parts|
  {
    if |parts| > 2 {
      JoinLast(parts[1..], sep);
      assert parts[1..][..|parts| - 2] == parts[..|parts| - 1][1..];
    }
  }

  /** The last piece of splitting on `@` is the text after the last `@`. */
  lemma LastPieceIsSuffix(email: string)
    requires '@' in email
    ensures var parts := Text.Split(email, "@");
      |parts| >= 2 && parts[|parts| - 1] == AfterLastAt(email)
  {
    var parts := Text.Split(email, "@");
    Text.ContainsChar(email, '@');
    Text.SplitSingle(email, "@");
    Text.JoinSplit(email, "@");
    JoinLast(parts, "@");
    Text.SplitPiecesFree(email, "@");
    var last := parts[|parts| - 1];
    Text.ContainsChar(last, '@');
    AfterLastAtOf(Text.Join(parts[..|parts| - 1], "@"), last);
  }

  /** Suffix lookup of `ParseSMTPInfoByEmail`: split on `@`, take the last piece,
      and look it up in both tables. A miss returns the tables' zero values. */
  function ParseSmtpInfoByEmail(email: string): (r: Lookup)
    ensures '@' !in email ==> r == Lookup("", 0, Some(ParseEmailError))
    ensures '@' in email && SmtpTable.Known(AfterLastAt(email)) ==>
      r == Lookup(SmtpTable.Host[AfterLastAt(email)], SmtpTable.Port[AfterLastAt(email)], None)
    ensures '@' in email && !SmtpTable.Known(AfterLastAt(email)) ==> r.err == Some(SmtpInfoNotFound)
    ensures r.err.None? ==> r.port == 25 || r.port == 465 || r.port == 587
  {
    var parts := Text.Split(email, "@");
    Text.ContainsChar(email, '@');
    Text.SplitSingle(email, "@");
    if |parts| <= 1 then Lookup("", 0, Some(ParseEmailError))
    else
      var suffix := parts[|parts| - 1];
      LastPieceIsSuffix(email);
      SmtpTable.PortsAreStandard();
      var host := if suffix in SmtpTable.Host then SmtpTable.Host[suffix] else "";
      var port := if suffix in SmtpTable.Port then SmtpTable.Port[suffix] else 0;
      if suffix in SmtpTable.Host && suffix in SmtpTable.Port then Lookup(host, port, None)
      else Lookup(host, port, Some(SmtpInfoNotFound))
  }

  /** The account carries its own server: both a host and a non-zero port. */
  predicate HasOverride(account: Account) {
    account.smtpHost != "" && account.smtpPort != 0
  }

  /** Server selection shared by `SendEmail` and `EmailIsValid`: the account's
      own host and port when both are set, otherwise the suffix lookup. */
  function ResolveTarget(account: Account): (r: Result<Target>)
    ensures HasOverride(account) ==> r == Success(Target(account.smtpHost, account.smtpPort))
    ensures !HasOverride(account) ==>
      (r.Success? <==> '@' in account.email && SmtpTable.Known(AfterLastAt(account.email)))
    ensures !HasOverride(account) && r.Success? ==>
      r.value == Target(SmtpTable.Host[AfterLastAt(account.email)], SmtpTable.Port[AfterLastAt(account.email)])
    ensures !HasOverride(account) && '@' !in account.email ==> r == Failure(ParseEmailError)
    ensures r.Failure? ==> r.error == ParseEmailError || r.error == SmtpInfoNotFound
  {
    if account.smtpHost == "" || account.smtpPort == 0 then
      var l := ParseSmtpInfoByEmail(account.email);
      if l.err.Some? then Failure(l.err.value) else Success(Target(l.host, l.port))
    else
      Success(Target(account.smtpHost, account.smtpPort))
  }

  /** gomail reads the sender from the `Sender` header, else from `From`. */
  predicate HasSender(m: Mail) {
    m.fromHeader == "From" || m.fromHeader == "Sender"
  }

  /** gomail's error for a message with neither header. */
  const FromAbsent := "gomail: could not send email 1: gomail: invalid message, \"From\" field is absent"

  /** gomail's `DialAndSend`: authenticate (`dial`), then refuse a message
      without a sender, then transmit (`transmit`). */
  function DialAndSend(m: Mail, dial: Session -> Option<string>, transmit: Mail -> Option<string>): (r: Option<string>)
    ensures r.None? ==> dial(m.session).None? && HasSender(m) && transmit(m).None?
    ensures !HasSender(m) ==> r.Some?
  {
    if dial(m.session).Some? then dial(m.session)
    else if !HasSender(m) then Some(FromAbsent)
    else transmit(m)
  }

  /** `SendEmail` with the header name the sender is set under as a
      parameter: resolve the server, build the message, dial and send. A
      resolution error is returned before anything is dialled. */
  function SendVia(fromHeader: string, account: Account, to: seq<string>, subject: string, body: string,
                   dial: Session -> Option<string>, transmit: Mail -> Option<string>): (r: Delivery)
    ensures r.attempt.None? <==> ResolveTarget(account).Failure?
    ensures r.attempt.None? ==> r.err == Some(ResolveTarget(account).error)
    ensures r.attempt.Some? ==>
      && r.attempt.value == Mail(Session(ResolveTarget(account).value, account.email, account.password),
                                 fromHeader, account.email, to, subject, body)
      && r.err == DialAndSend(r.attempt.value, dial, transmit)
  {
    match ResolveTarget(account)
    case Failure(e) => Delivery(None, Some(e))
    case Success(t) =>
      var mail := Mail(Session(t, account.email, account.password), fromHeader, account.email, to, subject, body);
      Delivery(Some(mail), DialAndSend(mail, dial, transmit))
  }

  /** `SendEmail` as written: the sender is set under the header `Form`. */
  function SendEmailAsWritten(account: Account, to: seq<string>, subject: string, body: string,
                              dial: Session -> Option<string>, transmit: Mail -> Option<string>): (r: Delivery)
    ensures r.err.Some?
    ensures r.attempt.Some? ==> !HasSender(r.attempt.value)
  {
    SendVia("Form", account, to, subject, body, dial, transmit)
  }

  /** `SendEmail` as intended: the sender is set under `From`, so a message
      whose server resolves is sent exactly when dial and transmission succeed. */
  function SendEmail(account: Account, to: seq<string>, subject: string, body: string,
                     dial: Session -> Option<string>, transmit: Mail -> Option<string>): (r: Delivery)
    ensures r.attempt.None? <==> ResolveTarget(account).Failure?
    ensures r.attempt.None? ==> r.err == Some(ResolveTarget(account).error)
    ensures r.attempt.Some? ==>
      && HasSender(r.attempt.value)
      && r.attempt.value.session == Session(ResolveTarget(account).value, account.email, account.password)
      && r.attempt.value.from == account.email && r.attempt.value.to == to
      && r.attempt.value.subject == subject && r.attempt.value.body == body
      && (r.err.None? <==> dial(r.attempt.value.session).None? && transmit(r.attempt.value).None?)
  {
    SendVia("From", account, to, subject, body, dial, transmit)
  }

  /** The two versions build the same message up to the sender header and
      fail alike up to and including the dial; only after a successful dial
      does the misnamed header make the difference. */
  lemma SenderHeaderOnlyDifference(account: Account, to: seq<string>, subject: string, body: string,
                                   dial: Session -> Option<string>, transmit: Mail -> Option<string>)
    ensures var w := SendEmailAsWritten(account, to, subject, body, dial, transmit);
      var c := SendEmail(account, to, subject, body, dial, transmit);
      && w.attempt.Some? == c.attempt.Some?
      && (c.attempt.Some? ==> w.attempt.value == c.attempt.value.(fromHeader := "Form"))
      && (c.attempt.None? || dial(c.attempt.value.session).Some? ==> w.err == c.err)
      && (c.attempt.Some? && dial(c.attempt.value.session).None? ==> w.err == Some(FromAbsent))
  {
  }

  /** `EmailIsValid`: resolve the server, then only authenticate (`dial`). */
  function EmailIsValid(account: Account, dial: Session -> Option<string>): (r: Option<string>)
    ensures HasOverride(account) ==>
      r == dial(Session(Target(account.smtpHost, account.smtpPort), account.email, account.password))
    ensures ResolveTarget(account).Failure? ==> r == Some(ResolveTarget(account).error)
    ensures ResolveTarget(account).Success? ==>
      r == dial(Session(ResolveTarget(account).value, account.email, account.password))
  {
    match ResolveTarget(account)
    case Failure(e) => Some(e)
    case Success(t) => dial(Session(t, account.email, account.password))
  }

  /** The suffix of `pre@t` when `t` is a literal without `@`. */
  lemma SuffixOf(pre: string, t: string)
    requires forall i :: 0 <= i < |t| ==> t[i] != '@'
    ensures '@' in pre + "@" + t && AfterLastAt(pre + "@" + t) == t
  {
    AfterLastAtOf(pre, t);
    assert (pre + "@" + t)[|pre|] == '@';
  }

  /** A known suffix resolves through the tables. */
  lemma QqExample()
    ensures ParseSmtpInfoByEmail("a@qq.com") == Lookup("smtp.qq.com", 465, None)
  {
    SuffixOf("a", "qq.com");
    assert "a" + "@" + "qq.com" == "a@qq.com";
    SmtpTable.SampleEntries();
  }

  /** Only the piece after the last `@` matters. */
  lemma LastAtExample()
    ensures ParseSmtpInfoByEmail("a@b@qq.com") == Lookup("smtp.qq.com", 465, None)
  {
    SuffixOf("a@b", "qq.com");
    assert "a@b" + "@" + "qq.com" == "a@b@qq.com";
    SmtpTable.SampleEntries();
  }

  /** An unknown suffix is "not found", not "cannot parse". */
  lemma UnknownSuffixExample()
    ensures ParseSmtpInfoByEmail("a@unknown-domain.zzz").err == Some(SmtpInfoNotFound)
  {
    SuffixOf("a", "unknown-domain.zzz");
    assert "a" + "@" + "unknown-domain.zzz" == "a@unknown-domain.zzz";
    assert "unknown-domain.zzz" !in SmtpTable.Host;
  }

  /** A trailing `@` gives the empty suffix, which no table knows. */
  lemma EmptySuffixExample()
    ensures ParseSmtpInfoByEmail("a@").err == Some(SmtpInfoNotFound)
  {
    SuffixOf("a", "");
    assert "a" + "@" + "" == "a@";
    assert "" !in SmtpTable.Host;
  }

  /** An address without `@`, the empty one included, cannot be parsed. */
  lemma NoAtExamples()
    ensures ParseSmtpInfoByEmail("aqq.com") == Lookup("", 0, Some(ParseEmailError))
    ensures ParseSmtpInfoByEmail("") == Lookup("", 0, Some(ParseEmailError))
  {
    assert forall i :: 0 <= i < |"aqq.com"| ==> "aqq.com"[i] != '@';
  }
}
