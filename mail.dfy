/** The Django email message as the backend sees it. Attributes that the
    backend probes with `hasattr` are `Option`s; the Mailjet extension
    attributes are a map from attribute to value, holding exactly the ones
    set on the message. */
module Mail {
  import opened Values

  /** One `(content, mimetype)` pair of `message.alternatives`. */
  datatype Alternative = Alternative(content: string, mimetype: string)

  /** The content of an attachment given as a tuple: bytes, or a `str` to be encoded. */
  datatype Content = Bytes(bytes: seq<byte>) | Text(text: string)

  /** An item of `message.attachments`: a MIME part, or a `(name, content, mimetype)` tuple. */
  datatype Attachment =
    | MimePart(
        filename: Option<string>,     // get_filename()
        payload: seq<byte>,           // get_payload(decode=True)
        contentType: string,          // get_content_type()
        contentId: Option<string>)    // part['Content-ID']
    | Triple(name: Option<string>, content: Content, mimetype: Option<string>)

  /** The Mailjet-specific attributes a message may carry. */
  datatype MailjetAttr =
    | TemplateId | TemplateLanguage | TemplateErrorReporting | TemplateErrorDeliver
    | Campaign | DeduplicateCampaign | TrackOpen | TrackClick | CustomId | EventPayload

  datatype EmailMessage = EmailMessage(
    subject: string,
    body: string,
    fromEmail: string,
    encoding: Option<string>,
    to: seq<string>,
    cc: Option<seq<string>>,
    bcc: Option<seq<string>>,
    replyTo: Option<seq<string>>,
    extraHeaders: map<string, string>,
    /** `getattr(message, 'alternatives', None)`; a missing attribute is the empty list */
    alternatives: seq<Alternative>,
    attachments: seq<Attachment>,
    mailjetAttrs: map<MailjetAttr, Value>,
    templateVars: Option<Value>,
    /** `getattr(message, 'recipient_vars', {})` */
    recipientVars: map<string, Value>)

  /** Django's `EmailMessage.recipients()`: every non-empty address of to, cc and bcc. */
  function RecipientAddresses(m: EmailMessage): (r: seq<string>)
    ensures |r| <= |m.to| + |m.cc.GetOr([])| + |m.bcc.GetOr([])|
    ensures forall i :: 0 <= i < |r| ==> r[i] != ""
  {
    NonEmpty(m.to + m.cc.GetOr([]) + m.bcc.GetOr([]))
  }

  function NonEmpty(xs: seq<string>): (r: seq<string>)
    ensures |r| <= |xs|
    ensures forall i :: 0 <= i < |r| ==> r[i] != ""
  {
    if xs == [] then []
    else if xs[0] == "" then NonEmpty(xs[1..])
    else [xs[0]] + NonEmpty(xs[1..])
  }

  /** `not message.recipients()` fails exactly when some address of to, cc or bcc is non-empty. */
  lemma {:induction false} NonEmptyIsEmpty(xs: seq<string>)
    ensures NonEmpty(xs) == [] <==> forall i :: 0 <= i < |xs| ==> xs[i] == ""
  {
    if xs != [] {
      NonEmptyIsEmpty(xs[1..]);
      assert forall i :: 1 <= i < |xs| ==> xs[i] == xs[1..][i - 1];
    }
  }
}
