/** The SMTP email service (backend/email_service.py): the configuration read from the
    environment, the not-configured guards, the access-key mail and the bookkeeping of a
    bulk send. The SMTP conversation itself is a transport function that says whether the
    server accepted a mail; `attempted` records every mail handed to it. */
module Email {
  import opened Wrappers
  import Seqs
  import Text

  const DefaultSenderName := "Schulungsportal"
  const AccessKeySubject := "Ihr Access-Key für das Schulungsportal"
  const GenericGreeting := "Liebe/r Schulungsteilnehmer/in,"
  const SendFailedError := "Email sending failed"
  const LengthMismatchError := "Recipients and access_keys lists must have the same length"

  /** An environment setting counts as given when it is set and not empty. */
  predicate Present(env: map<string, string>, name: string) {
    name in env && env[name] != ""
  }

  /** SMTP is configured when server, user name, password and sender address are given. */
  predicate Configured(env: map<string, string>) {
    Present(env, "SMTP_SERVER") && Present(env, "SMTP_USERNAME")
    && Present(env, "SMTP_PASSWORD") && Present(env, "SENDER_EMAIL")
  }

  function Setting(env: map<string, string>, name: string, default: string): string {
    if name in env then env[name] else default
  }

  /** The salutation of the access-key mail. */
  function Greeting(name: string): string {
    if name != "" then "Liebe/r " + name + "," else GenericGreeting
  }

  /** Different non-empty names give different greetings, and a recipient without a name
      gets the generic one. */
  lemma GreetingInjective(a: string, b: string)
    requires a != "" && b != ""
    ensures Greeting(a) == Greeting(b) ==> a == b
  {
    if Greeting(a) == Greeting(b) {
      var ga, gb := Greeting(a), Greeting(b);
      assert ga[8..|ga| - 1] == a;
      assert gb[8..|gb| - 1] == b;
    }
  }

  lemma NoNameGreeting()
    ensures Greeting("") == "Liebe/r Schulungsteilnehmer/in,"
  {
  }

  /** The "From" header, `sender name <sender address>`. */
  function FromHeader(name: string, address: string): string {
    name + " <" + address + ">"
  }

  /** A mail as handed to SMTP. The HTML and plain-text bodies are fixed templates; the
      values they interpolate are the greeting and the access key. */
  datatype Mail = Mail(from: string, to: string, subject: string, greeting: string, accessKey: string)

  function AccessKeyMail(from: string, to: string, key: string, name: string): (m: Mail)
    ensures m.to == to && m.accessKey == key && m.greeting == Greeting(name)
    ensures m.subject == AccessKeySubject && m.from == from
  {
    Mail(from, to, AccessKeySubject, Greeting(name), key)
  }

  /** One entry of a bulk send: an address and a name, "" for none. */
  datatype Recipient = Recipient(email: string, name: string)

  datatype Failure = Failure(email: string, error: string)

  /** The results dictionary of send_bulk_access_keys. */
  datatype BulkReport = BulkReport(total: nat, successful: nat, failed: nat, failures: seq<Failure>)

  /** The mails a bulk send hands to SMTP when configured, in recipient order. */
  function BulkMails(from: string, rs: seq<Recipient>, keys: seq<string>): seq<Mail>
    requires |rs| == |keys|
    decreases |rs|
  {
    if |rs| == 0 then []
    else
      var n := |rs| - 1;
      BulkMails(from, rs[..n], keys[..n]) + [AccessKeyMail(from, rs[n].email, keys[n], rs[n].name)]
  }

  lemma {:induction false} BulkMailsLength(from: string, rs: seq<Recipient>, keys: seq<string>)
    requires |rs| == |keys|
    ensures |BulkMails(from, rs, keys)| == |rs|
    decreases |rs|
  {
    if |rs| > 0 {
      BulkMailsLength(from, rs[..|rs| - 1], keys[..|rs| - 1]);
    }
  }

  /** Recipient i is sent key i, greeted by its own name. */
  lemma {:induction false} BulkMailsAt(from: string, rs: seq<Recipient>, keys: seq<string>, i: nat)
    requires |rs| == |keys| && i < |rs|
    ensures |BulkMails(from, rs, keys)| == |rs|
    ensures BulkMails(from, rs, keys)[i] == AccessKeyMail(from, rs[i].email, keys[i], rs[i].name)
    decreases |rs|
  {
    var n := |rs| - 1;
    BulkMailsLength(from, rs, keys);
    BulkMailsLength(from, rs[..n], keys[..n]);
    var prev := BulkMails(from, rs[..n], keys[..n]);
    var m := AccessKeyMail(from, rs[n].email, keys[n], rs[n].name);
    assert BulkMails(from, rs, keys) == prev + [m];
    if i < n {
      BulkMailsAt(from, rs[..n], keys[..n], i);
      assert rs[..n][i] == rs[i] && keys[..n][i] == keys[i];
      assert (prev + [m])[i] == prev[i];
    } else {
      assert (prev + [m])[i] == m;
    }
  }

  lemma BulkMailsStep(from: string, rs: seq<Recipient>, keys: seq<string>, i: nat)
    requires |rs| == |keys| && i < |rs|
    ensures BulkMails(from, rs[..i + 1], keys[..i + 1])
            == BulkMails(from, rs[..i], keys[..i]) + [AccessKeyMail(from, rs[i].email, keys[i], rs[i].name)]
  {
    assert rs[..i + 1][..i] == rs[..i] && keys[..i + 1][..i] == keys[..i];
  }

  /** Whether each recipient's mail went out: never when SMTP is not configured. */
  function Deliveries(configured: bool, from: string, rs: seq<Recipient>, keys: seq<string>,
                      transport: Mail -> bool): (ds: seq<bool>)
    requires |rs| == |keys|
    ensures |ds| == |rs|
    ensures forall i :: 0 <= i < |rs| ==>
      ds[i] == (configured && transport(AccessKeyMail(from, rs[i].email, keys[i], rs[i].name)))
  {
    seq(|rs|, i requires 0 <= i < |rs| => configured && transport(AccessKeyMail(from, rs[i].email, keys[i], rs[i].name)))
  }

  /** The accounting of a bulk send over the delivery outcomes, recipient by recipient. */
  function Tally(rs: seq<Recipient>, delivered: seq<bool>): (r: BulkReport)
    requires |rs| == |delivered|
    ensures r.total == |rs|
    decreases |rs|
  {
    if |rs| == 0 then BulkReport(0, 0, 0, [])
    else
      var n := |rs| - 1;
      var prev := Tally(rs[..n], delivered[..n]);
      if delivered[n] then prev.(total := prev.total + 1, successful := prev.successful + 1)
      else prev.(total := prev.total + 1, failed := prev.failed + 1,
                 failures := prev.failures + [Failure(rs[n].email, SendFailedError)])
  }

  /** Every recipient is counted once, as a success or as a failure, and each failure is
      listed with the generic error. */
  lemma {:induction false} TallyCounts(rs: seq<Recipient>, ds: seq<bool>)
    requires |rs| == |ds|
    ensures var r := Tally(rs, ds);
      && r.successful + r.failed == r.total == |rs|
      && |r.failures| == r.failed
      && forall f :: f in r.failures ==> f.error == SendFailedError
    decreases |rs|
  {
    if |rs| > 0 {
      TallyCounts(rs[..|rs| - 1], ds[..|rs| - 1]);
    }
  }

  /** Failures are listed in recipient order: the report of a split batch is the two
      reports joined. */
  lemma {:induction false} TallyAppend(rs: seq<Recipient>, ds: seq<bool>, ts: seq<Recipient>, es: seq<bool>)
    requires |rs| == |ds| && |ts| == |es|
    ensures Tally(rs + ts, ds + es).successful == Tally(rs, ds).successful + Tally(ts, es).successful
    ensures Tally(rs + ts, ds + es).failures == Tally(rs, ds).failures + Tally(ts, es).failures
    decreases |ts|
  {
    if |ts| == 0 {
      assert rs + ts == rs && ds + es == ds;
    } else {
      var n := |ts| - 1;
      var m := |rs| + n;
      var xs, ys := rs + ts, ds + es;
      TallyAppend(rs, ds, ts[..n], es[..n]);
      assert xs[..m] == rs + ts[..n];
      assert ys[..m] == ds + es[..n];
      var a, b := Tally(rs, ds), Tally(ts[..n], es[..n]);
      var whole := Tally(xs[..m], ys[..m]);
      assert whole.failures == a.failures + b.failures;
      if !es[n] {
        var f := Failure(ts[n].email, SendFailedError);
        assert Tally(xs, ys).failures == whole.failures + [f];
        Seqs.AppendAssoc(a.failures, b.failures, [f]);
      }
    }
  }

  /** One more recipient adds one success or one failure to the report. */
  lemma TallyStep(rs: seq<Recipient>, ds: seq<bool>, i: nat)
    requires |rs| == |ds| && i < |rs|
    ensures var prev, next := Tally(rs[..i], ds[..i]), Tally(rs[..i + 1], ds[..i + 1]);
      && (ds[i] ==> next.successful == prev.successful + 1 && next.failed == prev.failed
                    && next.failures == prev.failures)
      && (!ds[i] ==> next.successful == prev.successful && next.failed == prev.failed + 1
                     && next.failures == prev.failures + [Failure(rs[i].email, SendFailedError)])
  {
    assert rs[..i + 1][..i] == rs[..i] && ds[..i + 1][..i] == ds[..i];
  }

  /** Nothing fails exactly when every mail went out; nothing succeeds exactly when none did. */
  lemma {:induction false} TallyExtremes(rs: seq<Recipient>, ds: seq<bool>)
    requires |rs| == |ds|
    ensures Tally(rs, ds).failed == 0 <==> forall i :: 0 <= i < |rs| ==> ds[i]
    ensures Tally(rs, ds).successful == 0 <==> forall i :: 0 <= i < |rs| ==> !ds[i]
    decreases |rs|
  {
    if |rs| > 0 {
      var n := |rs| - 1;
      TallyExtremes(rs[..n], ds[..n]);
      assert forall i :: 0 <= i < n ==> ds[..n][i] == ds[i];
    }
  }

  /** Each undelivered recipient appears in the failures with its own address. */
  lemma {:induction false} TallyListsEveryFailure(rs: seq<Recipient>, ds: seq<bool>, i: nat)
    requires |rs| == |ds| && i < |rs| && !ds[i]
    ensures Failure(rs[i].email, SendFailedError) in Tally(rs, ds).failures
    decreases |rs|
  {
    var n := |rs| - 1;
    if i < n {
      TallyListsEveryFailure(rs[..n], ds[..n], i);
    }
  }

  /** Every failure names an undelivered recipient. */
  lemma {:induction false} TallyFailuresAreUndelivered(rs: seq<Recipient>, ds: seq<bool>, f: Failure)
    requires |rs| == |ds| && f in Tally(rs, ds).failures
    ensures exists i :: 0 <= i < |rs| && !ds[i] && rs[i].email == f.email
    decreases |rs|
  {
    var n := |rs| - 1;
    var prev := Tally(rs[..n], ds[..n]);
    if f in prev.failures {
      TallyFailuresAreUndelivered(rs[..n], ds[..n], f);
      var i :| 0 <= i < n && !ds[..n][i] && rs[..n][i].email == f.email;
      assert !ds[i] && rs[i].email == f.email;
    } else {
      assert !ds[n] && rs[n].email == f.email;
    }
  }

  /** Without SMTP configuration a bulk send reports every recipient as failed. */
  lemma UnconfiguredBulkFailsAll(from: string, rs: seq<Recipient>, keys: seq<string>, transport: Mail -> bool)
    requires |rs| == |keys|
    ensures var r := Tally(rs, Deliveries(false, from, rs, keys, transport));
            r.successful == 0 && r.failed == |rs|
  {
    TallyExtremes(rs, Deliveries(false, from, rs, keys, transport));
    TallyCounts(rs, Deliveries(false, from, rs, keys, transport));
  }

  class EmailService {
    const smtpServer: Option<string>
    const useSsl: bool
    const username: Option<string>
    const password: Option<string>
    const senderEmail: Option<string>
    const senderName: string
    const isConfigured: bool
    /** Every mail handed to the SMTP transport, in order. */
    var attempted: seq<Mail>

    /** __init__: reads the settings from the environment `env`. */
    constructor (env: map<string, string>)
      ensures isConfigured <==> Configured(env)
      ensures senderName == Setting(env, "SENDER_NAME", DefaultSenderName)
      ensures useSsl <==> Text.Lower(Setting(env, "SMTP_USE_SSL", "true")) == "true"
      ensures senderEmail == (if "SENDER_EMAIL" in env then Some(env["SENDER_EMAIL"]) else None)
      ensures attempted == []
    {
      smtpServer := if "SMTP_SERVER" in env then Some(env["SMTP_SERVER"]) else None;
      useSsl := Text.Lower(Setting(env, "SMTP_USE_SSL", "true")) == "true";
      username := if "SMTP_USERNAME" in env then Some(env["SMTP_USERNAME"]) else None;
      password := if "SMTP_PASSWORD" in env then Some(env["SMTP_PASSWORD"]) else None;
      senderEmail := if "SENDER_EMAIL" in env then Some(env["SENDER_EMAIL"]) else None;
      senderName := Setting(env, "SENDER_NAME", DefaultSenderName);
      isConfigured := Configured(env);
      attempted := [];
    }

    function From(): string {
      FromHeader(senderName, senderEmail.GetOr(""))
    }

    /** send_email: refuses without configuration; otherwise hands the mail to SMTP and
        reports whether it was accepted. */
    method SendEmail(mail: Mail, transport: Mail -> bool) returns (ok: bool)
      modifies this
      ensures !isConfigured ==> !ok && attempted == old(attempted)
      ensures isConfigured ==> attempted == old(attempted) + [mail] && ok == transport(mail)
    {
      if !isConfigured {
        return false;
      }
      attempted := attempted + [mail];
      ok := transport(mail);
    }

    /** send_access_key_email. */
    method SendAccessKeyEmail(to: string, key: string, transport: Mail -> bool, name: string := "") returns (ok: bool)
      modifies this
      ensures !isConfigured ==> !ok && attempted == old(attempted)
      ensures isConfigured ==>
        var m := AccessKeyMail(From(), to, key, name);
        attempted == old(attempted) + [m] && ok == transport(m)
    {
      if !isConfigured {
        return false;
      }
      ok := SendEmail(AccessKeyMail(From(), to, key, name), transport);
    }

    /** send_bulk_access_keys: rejects lists of different lengths before sending anything;
        otherwise sends key i to recipient i and tallies the outcomes. */
    method SendBulkAccessKeys(rs: seq<Recipient>, keys: seq<string>, transport: Mail -> bool)
      returns (r: Result<BulkReport, string>)
      modifies this
      ensures |rs| != |keys| ==> r == Err(LengthMismatchError) && attempted == old(attempted)
      ensures |rs| == |keys| ==>
        && r == Ok(Tally(rs, Deliveries(isConfigured, From(), rs, keys, transport)))
        && attempted == old(attempted) + (if isConfigured then BulkMails(From(), rs, keys) else [])
    {
      if |rs| != |keys| {
        return Err(LengthMismatchError);
      }
      ghost var ds := Deliveries(isConfigured, From(), rs, keys, transport);
      var successful, failed, failures := 0, 0, [];
      var i := 0;
      while i < |rs|
        invariant 0 <= i <= |rs|
        invariant successful == Tally(rs[..i], ds[..i]).successful
        invariant failed == Tally(rs[..i], ds[..i]).failed
        invariant failures == Tally(rs[..i], ds[..i]).failures
        invariant isConfigured ==> attempted == old(attempted) + BulkMails(From(), rs[..i], keys[..i])
        invariant !isConfigured ==> attempted == old(attempted)
      {
        TallyStep(rs, ds, i);
        BulkMailsStep(From(), rs, keys, i);
        ghost var before := attempted;
        var ok := SendAccessKeyEmail(rs[i].email, keys[i], transport, rs[i].name);
        if isConfigured {
          Seqs.AppendAssoc(old(attempted), BulkMails(From(), rs[..i], keys[..i]),
                           [AccessKeyMail(From(), rs[i].email, keys[i], rs[i].name)]);
        }
        assert ok == ds[i];
        if ok {
          successful := successful + 1;
        } else {
          failed := failed + 1;
          failures := failures + [Failure(rs[i].email, SendFailedError)];
        }
        i := i + 1;
      }
      Seqs.TakeAll(rs);
      Seqs.TakeAll(keys);
      Seqs.TakeAll(ds);
      var report := BulkReport(|rs|, successful, failed, failures);
      r := Ok(report);
    }
  }
}
