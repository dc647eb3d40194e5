/** The static e-mail-suffix tables used to find a provider's SMTP server. */
module SmtpTable {

  /** Suffix -> SMTP host. */
  const Host: map<string, string> := map[
    "qq.com" := "smtp.qq.com",
    "163.com" := "smtp.163.com",
    "126.com" := "smtp.126.com",
    "139.com" := "smtp.139.com",
    "gmail.com" := "smtp.gmail.com",
    "foxmail.com" := "smtp.foxmail.com",
    "sina.com.cn" := "smtp.sina.com.cn",
    "sohu.com" := "smtp.sohu.com",
    "yahoo.com.cn" := "smtp.mail.yahoo.com.cn",
    "live.com" := "smtp.live.com",
    "263.net" := "smtp.263.net",
    "263.net.cn" := "smtp.263.net.cn",
    "x263.net" := "smtp.263.net",
    "china.com" := "smtp.china.com",
    "tom.com" := "smtp.tom.com",
    "outlook.com" := "smtp.office365.com",
    "hotmail.com" := "smtp.live.com",
    "aol.com" := "smtp.aol.com",
    "zoho.com" := "smtp.zoho.com",
    "mail.com" := "smtp.mail.com",
    "inbox.com" := "smtp.inbox.com",
    "gmx.com" := "smtp.gmx.com",
    "icloud.com" := "smtp.mail.me.com"
  ]

  /** Suffix -> SMTP port. */
  const Port: map<string, int> := map[
    "qq.com" := 465,
    "163.com" := 465,
    "126.com" := 465,
    "139.com" := 465,
    "gmail.com" := 587,
    "foxmail.com" := 465,
    "sina.com.cn" := 25,
    "sohu.com" := 25,
    "yahoo.com.cn" := 587,
    "live.com" := 587,
    "263.net" := 25,
    "263.net.cn" := 25,
    "x263.net" := 25,
    "china.com" := 25,
    "tom.com" := 25,
    "outlook.com" := 587,
    "hotmail.com" := 587,
    "aol.com" := 587,
    "zoho.com" := 465,
    "mail.com" := 465,
    "inbox.com" := 465,
    "gmx.com" := 587,
    "icloud.com" := 587
  ]

  /** A suffix the tables know: it has both a host and a port. */
  predicate Known(suffix: string) {
    suffix in Host && suffix in Port
  }

  /** The two tables cover the same suffixes. */
  lemma SameSuffixes()
    ensures Host.Keys == Port.Keys
  {
  }

  /** Every table port is one of the three standard SMTP ports. */
  lemma PortsAreStandard()
    ensures forall s :: s in Port ==> Port[s] == 25 || Port[s] == 465 || Port[s] == 587
  {
  }

  /** A few entries the rest of the model relies on, and two shared hosts. */
  lemma SampleEntries()
    ensures Known("qq.com") && Host["qq.com"] == "smtp.qq.com" && Port["qq.com"] == 465
    ensures Known("gmail.com") && Host["gmail.com"] == "smtp.gmail.com" && Port["gmail.com"] == 587
    ensures Known("outlook.com") && Host["outlook.com"] == "smtp.office365.com" && Port["outlook.com"] == 587
    ensures Host["live.com"] == Host["hotmail.com"] == "smtp.live.com"
    ensures Host["263.net"] == Host["x263.net"] == "smtp.263.net"
  {
  }
}
