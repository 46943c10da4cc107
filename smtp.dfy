/**
 * The mail-delivery side of the contact backend: the configuration read from
 * the environment, `normalizeSmtpConfig` with its provider-specific password
 * rule, the "configured" test of `createTransporterIfConfigured`, the mail
 * `/api/contact` sends, and `mapSmtpError`.
 */
module Smtp {
  import opened Wrappers
  import opened Text
  import opened Validation

  /** The process environment. */
  type Env = map<string, string>

  /** `process.env[key] || ''`. */
  function EnvText(env: Env, key: string): string {
    if key in env then env[key] else ""
  }

  /** `process.env[key] || fallback`: an unset or empty variable takes the fallback. */
  function EnvOr(env: Env, key: string, fallback: string): (s: string)
    ensures key in env && env[key] != "" ==> s == env[key]
    ensures !(key in env && env[key] != "") ==> s == fallback
  {
    var v := EnvText(env, key);
    if v == "" then fallback else v
  }

  /** `String(process.env[key] || 'false').toLowerCase() === 'true'`. */
  function Flag(env: Env, key: string): (b: bool)
    ensures b <==> key in env && ToLowerAscii(env[key]) == "true"
  {
    ToLowerAscii(EnvOr(env, key, "false")) == "true"
  }

  /** The result of `normalizeSmtpConfig`. The port is kept as the text of
      `SMTP_PORT` (default "587"). */
  datatype SmtpConfig = SmtpConfig(service: string, host: string, port: string, secure: bool, user: string, pass: string)

  /** The settings of the backend as read from one environment: the
      module-level `CONTACT_TO`, `CONTACT_FROM` and `SMTP_REQUIRED`, and the
      SMTP configuration `normalizeSmtpConfig` reads per request.
      `userVariable` is `SMTP_USER` as set, the sender of last resort. */
  datatype Settings = Settings(contactTo: string, contactFrom: string, userVariable: string,
                               smtpRequired: bool, smtp: SmtpConfig)

  /** The relay is addressed by a well-known service name or by a host. */
  datatype Relay = Service(name: string) | Host(name: string)

  /** The options handed to `nodemailer.createTransport`. */
  datatype Transport = Transport(relay: Relay, port: string, secure: bool, user: string, pass: string)

  /** A provider known to reject whitespace inside app passwords: the host
      mentions `gmail.com`, the user is a `@gmail.com` address, or the service
      is `gmail` in any ASCII case. */
  function GmailLike(service: string, host: string, user: string): (b: bool)
    ensures b <==> (
      (exists i :: OccursAt(host, "gmail.com", i)) ||
      (exists i :: OccursAt(user, "@gmail.com", i) && i + 10 == |user|) ||
      (|service| == 5 && forall i :: 0 <= i < 5 ==> service[i] == "gmail"[i] || LowerAscii(service[i]) == "gmail"[i]))
  {
    ContainsIff(host, "gmail.com");
    LowerEqualsIff(service, "gmail");
    Contains(host, "gmail.com") || EndsWith(user, "@gmail.com") || ToLowerAscii(service) == "gmail"
  }

  /** `normalizeSmtpConfig`: trimmed settings; for a Gmail-like relay the
      password loses all its whitespace, otherwise it is only trimmed. */
  function NormalizeSmtpConfig(env: Env): (cfg: SmtpConfig)
    ensures Unpadded(cfg.service) && Unpadded(cfg.host) && Unpadded(cfg.user) && Unpadded(cfg.pass)
    ensures cfg.service == Trim(EnvText(env, "SMTP_SERVICE")) && cfg.host == Trim(EnvText(env, "SMTP_HOST"))
    ensures cfg.user == Trim(EnvText(env, "SMTP_USER")) && cfg.port == EnvOr(env, "SMTP_PORT", "587")
    ensures cfg.secure <==> Flag(env, "SMTP_SECURE")
  {
    var service := Trim(EnvText(env, "SMTP_SERVICE"));
    var host := Trim(EnvText(env, "SMTP_HOST"));
    var port := EnvOr(env, "SMTP_PORT", "587");
    var secure := Flag(env, "SMTP_SECURE");
    var user := Trim(EnvText(env, "SMTP_USER"));
    var rawPass := Trim(EnvText(env, "SMTP_PASS"));
    var pass := if GmailLike(service, host, user) then RemoveSpaces(rawPass) else rawPass;
    assert Unpadded(pass) by {
      if GmailLike(service, host, user) { assert NoSpace(pass); }
    }
    SmtpConfig(service, host, port, secure, user, pass)
  }

  /** The password rule: for a Gmail-like relay every whitespace character of
      `SMTP_PASS` is removed, anywhere in it; otherwise only the surrounding
      whitespace is. The two agree on a password without inner whitespace. */
  lemma PasswordNormalization(env: Env)
    ensures var cfg := NormalizeSmtpConfig(env);
      var raw := EnvText(env, "SMTP_PASS");
      (GmailLike(cfg.service, cfg.host, cfg.user) ==> cfg.pass == RemoveSpaces(raw) && NoSpace(cfg.pass)) &&
      (!GmailLike(cfg.service, cfg.host, cfg.user) ==> cfg.pass == Trim(raw)) &&
      (NoSpace(Trim(raw)) ==> cfg.pass == Trim(raw))
  {
    var raw := EnvText(env, "SMTP_PASS");
    RemoveSpacesAfterTrim(raw);
    if NoSpace(Trim(raw)) {
      RemoveSpacesOfNoSpace(Trim(raw));
    }
  }

  /** The settings read once from the environment. */
  function LoadSettings(env: Env): (s: Settings)
    ensures Unpadded(s.contactTo) && Unpadded(s.contactFrom)
    ensures s.contactTo == Trim(EnvText(env, "CONTACT_TO"))
    ensures s.contactFrom == Trim(EnvOr(env, "CONTACT_FROM", EnvText(env, "SMTP_USER")))
    ensures s.userVariable == EnvText(env, "SMTP_USER") && s.smtp == NormalizeSmtpConfig(env)
    ensures s.smtpRequired <==> Flag(env, "SMTP_REQUIRED")
  {
    Settings(
      Trim(EnvText(env, "CONTACT_TO")),
      Trim(EnvOr(env, "CONTACT_FROM", EnvText(env, "SMTP_USER"))),
      EnvText(env, "SMTP_USER"),
      Flag(env, "SMTP_REQUIRED"),
      NormalizeSmtpConfig(env))
  }

  /** Delivery is configured when a relay, both credentials and a recipient are present. */
  function Configured(cfg: SmtpConfig, contactTo: string): (b: bool)
    ensures !b <==> (cfg.service == "" && cfg.host == "") || cfg.user == "" || cfg.pass == "" || contactTo == ""
  {
    (cfg.service != "" || cfg.host != "") && cfg.user != "" && cfg.pass != "" && contactTo != ""
  }

  /** `createTransporterIfConfigured`: no transport unless configured; the
      service name wins over the host. */
  function TransportFor(cfg: SmtpConfig, contactTo: string): (t: Option<Transport>)
    ensures t.Some? <==> Configured(cfg, contactTo)
    ensures t.Some? ==> t.value.relay.name != ""
    ensures t.Some? && cfg.service != "" ==> t.value.relay == Service(cfg.service)
    ensures t.Some? && cfg.service == "" ==> t.value.relay == Host(cfg.host)
    ensures t.Some? ==> t.value.user == cfg.user && t.value.pass == cfg.pass
    ensures t.Some? ==> t.value.port == cfg.port && t.value.secure == cfg.secure
  {
    if (cfg.service == "" && cfg.host == "") || cfg.user == "" || cfg.pass == "" || contactTo == "" then None
    else
      var relay := if cfg.service != "" then Service(cfg.service) else Host(cfg.host);
      Some(Transport(relay, cfg.port, cfg.secure, cfg.user, cfg.pass))
  }

  /** In terms of the environment: delivery is unconfigured exactly when
      service and host are both blank, or the user, the password or the
      recipient is blank (whitespace only counts as blank, whichever password
      rule applies). */
  lemma ConfiguredFromEnv(env: Env)
    ensures var s := LoadSettings(env);
      TransportFor(s.smtp, s.contactTo).None? <==>
        (AllSpace(EnvText(env, "SMTP_SERVICE")) && AllSpace(EnvText(env, "SMTP_HOST"))) ||
        AllSpace(EnvText(env, "SMTP_USER")) || AllSpace(EnvText(env, "SMTP_PASS")) ||
        AllSpace(EnvText(env, "CONTACT_TO"))
  {
    var s := LoadSettings(env);
    TrimEmptyIff(EnvText(env, "SMTP_SERVICE"));
    TrimEmptyIff(EnvText(env, "SMTP_HOST"));
    TrimEmptyIff(EnvText(env, "SMTP_USER"));
    TrimEmptyIff(EnvText(env, "CONTACT_TO"));
    PassBlankIff(env);
    assert s.smtp.service == Trim(EnvText(env, "SMTP_SERVICE"));
    assert s.smtp.host == Trim(EnvText(env, "SMTP_HOST"));
    assert s.smtp.user == Trim(EnvText(env, "SMTP_USER"));
    assert s.contactTo == Trim(EnvText(env, "CONTACT_TO"));
  }

  /** The normalised password is blank exactly when `SMTP_PASS` is whitespace
      only, under either password rule. */
  lemma PassBlankIff(env: Env)
    ensures NormalizeSmtpConfig(env).pass == "" <==> AllSpace(EnvText(env, "SMTP_PASS"))
  {
    var raw := EnvText(env, "SMTP_PASS");
    TrimEmptyIff(raw);
    RemoveSpacesAfterTrim(raw);
    RemoveSpacesEmptyIff(raw);
    PasswordNormalization(env);
  }

  // ---------------------------------------------------------------- errors

  /** What a failed `verify` or `sendMail` reports; a thrown value without
      these properties has neither. */
  datatype SmtpError = SmtpError(code: Option<string>, responseCode: Option<int>)

  const AuthFailedText := "SMTP auth failed (535). Verify Gmail App Password and 2FA."
  const DeliveryFailedText := "SMTP delivery failed."

  /** `mapSmtpError`: the authentication text for an EAUTH code or a 535
      reply, the generic text for anything else. */
  function MapSmtpError(e: SmtpError): (m: string)
    ensures m == AuthFailedText <==> e.code == Some("EAUTH") || e.responseCode == Some(535)
    ensures m == AuthFailedText || m == DeliveryFailedText
  {
    if e.code == Some("EAUTH") || e.responseCode == Some(535) then AuthFailedText
    else DeliveryFailedText
  }

  // ---------------------------------------------------------------- the mail

  /** The message passed to `sendMail`. Of the HTML body only the message
      paragraph is kept. */
  datatype Mail = Mail(from: string, to: string, replyTo: string, subject: string, text: string, htmlMessage: string)

  /** `text: [...].join('\n')`: it opens with the name line and closes with the message. */
  function MailText(p: Payload): (t: string)
    ensures |t| >= |p.message| && t[|t| - |p.message|..] == p.message
    ensures |t| >= 7 + |p.name| && t[..7 + |p.name|] == "Name: " + p.name + "\n"
  {
    "Name: " + p.name + "\n" + "Email: " + p.email + "\n" + "" + "\n" + "Message:" + "\n" + p.message
  }

  /** The mail `/api/contact` sends for an accepted payload: from
      `CONTACT_FROM || SMTP_USER`, to `CONTACT_TO`, replies to the sender. */
  function ComposeMail(s: Settings, p: Payload): (m: Mail)
    ensures m.to == s.contactTo && m.replyTo == p.email
    ensures m.subject == "[Portfolio] " + p.subject
    ensures EndsWith(m.text, p.message)
    ensures '\n' !in m.htmlMessage && m.htmlMessage == NewlinesToBreaks(p.message)
    ensures m.text == MailText(p)
    ensures m.from == (if s.contactFrom != "" then s.contactFrom else s.userVariable)
  {
    var from := if s.contactFrom != "" then s.contactFrom else s.userVariable;
    var text := MailText(p);
    Mail(from, s.contactTo, p.email, "[Portfolio] " + p.subject, text, NewlinesToBreaks(p.message))
  }

  /** Whenever a transport exists the mail has a sender: `SMTP_USER` is then
      non-blank, and it stands in for a blank `CONTACT_FROM`. */
  lemma ConfiguredMailHasSender(env: Env, p: Payload)
    requires var s := LoadSettings(env); TransportFor(s.smtp, s.contactTo).Some?
    ensures ComposeMail(LoadSettings(env), p).from != ""
  {
    TrimEmptyIff(EnvText(env, "SMTP_USER"));
  }
}
