/**
 * The parts of the mailer that decide what is sent: the placeholder
 * substitution in a template's subject, the early returns of the templated
 * send, and the admin notification's guard and subject. The database lookups
 * and the email provider are inputs.
 */
module Mailer {
  import opened Wrappers
  import opened Text

  /** `{{key}}` */
  function Placeholder(key: string): (r: string)
    ensures |r| == |key| + 4 && r[..2] == "{{" && r[|r| - 2..] == "}}"
    ensures r[2..|r| - 2] == key
  {
    "{{" + key + "}}"
  }

  /**
   * The subject after the properties are applied in entry order, each replacing
   * the first `{{key}}` in the result of the previous one.
   */
  function Substituted(subject: string, entries: seq<(string, string)>): string
    decreases |entries|
  {
    if entries == [] then subject
    else Substituted(ReplaceFirst(subject, Placeholder(entries[0].0), entries[0].1), entries[1..])
  }

  /** The handler's loop over the template properties. */
  method ProcessSubject(subject: string, entries: seq<(string, string)>) returns (processed: string)
    ensures processed == Substituted(subject, entries)
  {
    processed := subject;
    for i := 0 to |entries|
      invariant Substituted(processed, entries[i..]) == Substituted(subject, entries)
    {
      var (key, value) := entries[i];
      assert entries[i..][0] == entries[i] && entries[i..][1..] == entries[i + 1..];
      processed := ReplaceFirst(processed, Placeholder(key), value);
    }
    assert entries[|entries|..] == [];
  }

  /** Applying `a` then `b` is applying `a + b`: each property sees the result of the ones before it. */
  lemma {:induction false} SubstitutedAppend(subject: string, a: seq<(string, string)>, b: seq<(string, string)>)
    ensures Substituted(subject, a + b) == Substituted(Substituted(subject, a), b)
    decreases |a|
  {
    if a == [] {
      assert a + b == b;
    } else {
      assert (a + b)[0] == a[0] && (a + b)[1..] == a[1..] + b;
      SubstitutedAppend(ReplaceFirst(subject, Placeholder(a[0].0), a[0].1), a[1..], b);
    }
  }

  /** A subject holding none of the keys' placeholders is left as it is. */
  lemma {:induction false} NoPlaceholdersUnchanged(subject: string, entries: seq<(string, string)>)
    requires forall k :: 0 <= k < |entries| ==> !Contains(subject, Placeholder(entries[k].0))
    ensures Substituted(subject, entries) == subject
    decreases |entries|
  {
    if entries != [] {
      ReplaceFirstPlaces(subject, Placeholder(entries[0].0), entries[0].1);
      assert ReplaceFirst(subject, Placeholder(entries[0].0), entries[0].1) == subject;
      forall k | 0 <= k < |entries[1..]| ensures !Contains(subject, Placeholder(entries[1..][k].0)) {
        assert entries[1..][k] == entries[k + 1];
      }
      NoPlaceholdersUnchanged(subject, entries[1..]);
    }
  }

  /** One property replaces its first placeholder by its value and keeps the text before it. */
  lemma FirstPlaceholderReplaced(subject: string, key: string, value: string, i: nat)
    requires FirstOccurrence(subject, Placeholder(key)) == Some(i)
    ensures var r := Substituted(subject, [(key, value)]);
      OccursAt(r, value, i) && r[..i] == subject[..i]
  {
    assert [(key, value)][1..] == [];
    ReplaceFirstPlaces(subject, Placeholder(key), value);
  }

  /** One property leaves a later occurrence of its placeholder in place, shifted by the replacement. */
  lemma LaterPlaceholderKept(subject: string, key: string, value: string, i: nat, j: int)
    requires FirstOccurrence(subject, Placeholder(key)) == Some(i)
    requires OccursAt(subject, Placeholder(key), j) && j >= i + |Placeholder(key)|
    ensures OccursAt(Substituted(subject, [(key, value)]), Placeholder(key), j - |Placeholder(key)| + |value|)
  {
    assert [(key, value)][1..] == [];
    LaterOccurrenceRemains(subject, Placeholder(key), value, i, j);
  }

  // ---------------------------------------------------------------------------
  // The templated send

  /** A row of `email_templates`. */
  datatype Template = Template(subject: string, react: Option<string>, text: Option<string>)

  /** What is handed to the email provider. */
  datatype Email = Email(from: string, to: seq<string>, subject: string, react: string, text: Option<string>)

  /** An early return with its error, or the email to send. */
  datatype Outcome = Refused(error: string) | Send(email: Email)

  /**
   * `sendTemplatedEmail` up to the provider call. `serviceRole` is the
   * configured service key; `template` is the looked-up template, `None` when
   * the lookup failed or found nothing. Without a key, a template, or the
   * template's React body the send is refused with the matching error;
   * otherwise the email carries the substituted subject and the template's
   * text only when it is not empty.
   */
  method SendTemplatedEmail(serviceRole: Option<string>, template: Option<Template>, toEmails: seq<string>,
                            fromEmail: string, properties: seq<(string, string)>) returns (outcome: Outcome)
    ensures !Truthy(serviceRole) ==> outcome == Refused("Server configuration error")
    ensures Truthy(serviceRole) && template.None? ==> outcome == Refused("Template not found")
    ensures Truthy(serviceRole) && template.Some? && !Truthy(template.value.react) ==>
      outcome == Refused("Invalid template format")
    ensures outcome.Send? <==> Truthy(serviceRole) && template.Some? && Truthy(template.value.react)
    ensures outcome.Send? ==>
      && outcome.email.from == fromEmail && outcome.email.to == toEmails
      && outcome.email.subject == Substituted(template.value.subject, properties)
      && outcome.email.react == template.value.react.value
      && (Truthy(template.value.text) ==> outcome.email.text == template.value.text)
      && (!Truthy(template.value.text) ==> outcome.email.text.None?)
  {
    if !Truthy(serviceRole) {
      return Refused("Server configuration error");
    }
    if template.None? {
      return Refused("Template not found");
    }
    var t := template.value;
    if !Truthy(t.react) {
      return Refused("Invalid template format");
    }
    var subject := ProcessSubject(t.subject, properties);
    var text := if Truthy(t.text) then t.text else None;
    outcome := Send(Email(fromEmail, toEmails, subject, t.react.value, text));
  }

  // ---------------------------------------------------------------------------
  // The admin notification

  /** The mailer's admin settings; `None` is an unset variable. */
  datatype AdminConfig = AdminConfig(adminEmail: Option<string>, fromAdminEmail: Option<string>)

  datatype PlainEmail = PlainEmail(from: string, to: seq<string>, subject: string, text: string)

  /**
   * `sendAdminEmail` up to the provider call: nothing without an admin address;
   * otherwise a mail to that address, from the admin sender address or else the
   * admin address, with the subject prefixed.
   */
  function AdminEmail(config: AdminConfig, subject: string, body: string): (r: Option<PlainEmail>)
    ensures r.None? <==> !Truthy(config.adminEmail)
    ensures r.Some? ==> r.value.to == [config.adminEmail.value] && r.value.text == body
    ensures r.Some? ==> r.value.subject == "ADMIN_MAIL: " + subject
    ensures r.Some? && Truthy(config.fromAdminEmail) ==> r.value.from == config.fromAdminEmail.value
    ensures r.Some? && !Truthy(config.fromAdminEmail) ==> r.value.from == config.adminEmail.value
  {
    if !Truthy(config.adminEmail) then None
    else
      var admin := config.adminEmail.value;
      Some(PlainEmail(OrElse(config.fromAdminEmail, config.adminEmail).value, [admin], "ADMIN_MAIL: " + subject, body))
  }

  /** The admin subject always starts with the marker and ends with the given subject. */
  lemma AdminSubjectMarked(config: AdminConfig, subject: string, body: string)
    requires Truthy(config.adminEmail)
    ensures var s := AdminEmail(config, subject, body).value.subject;
      |s| == |subject| + 12 && s[..12] == "ADMIN_MAIL: " && s[12..] == subject
  {
  }
}
