/** What `MailjetBackend.build_send_payload` puts in the send dict
    (django_mailjet/backends.py), as functions of the message, and the
    properties of that dict. The methods in module Backends build the same
    dict step by step and are proved to agree with these functions. */
module Payload {
  import opened Values
  import opened Mail
  import opened Foreign
  import Base64

  const HTML_MIMETYPE: string := "text/html"

  /** The keys of the send dict. `Name` gives the key the dict carries on the wire. */
  datatype Field =
    | Subject | TextPart | FromEmail | FromName | Recipients | Cc | Bcc | Headers
    | Mj(attr: MailjetAttr) | Vars | HtmlPart | Attachments | InlineAttachments

  /** `msg_dict`: the send dict under construction. */
  type Fields = map<Field, Value>

  // ---------------------------------------------------------------------
  // Recipients (`_parse_recipients`)
  // ---------------------------------------------------------------------

  /** The pair `parseaddr(sanitize_address(addr, message.encoding))`. */
  function ParsedAddress(env: Helpers, m: EmailMessage, addr: string): (string, string)
  {
    env.parseaddr(env.sanitizeAddress(addr, m.encoding))
  }

  /** The recipient entry for one "to" address. The code unpacks the pair
      `(realname, address)` of `parseaddr` as `to_email, to_name`, so a named
      address yields `Email` = display name and `Name` = address; a bare
      address yields `{'Email': address}`. */
  function RecipientEntry(env: Helpers, m: EmailMessage, addr: string): Value
  {
    var (toEmail, toName) := ParsedAddress(env, m, addr);
    var rcpt := if toEmail != "" && toName != "" then map["Email" := Str(toEmail), "Name" := Str(toName)]
                else map["Email" := Str(toName)];
    if addr in m.recipientVars && Truthy(m.recipientVars[addr]) then Dict(rcpt["Vars" := m.recipientVars[addr]])
    else Dict(rcpt)
  }

  /** What each recipient entry holds: `Email` always; `Name` only when both
      parts of the parsed pair are non-empty, in which case `Email` is the
      first part; `Vars` exactly when the address has truthy recipient vars. */
  lemma RecipientEntryFields(env: Helpers, m: EmailMessage, addr: string)
    ensures var r := RecipientEntry(env, m, addr);
      && r.Dict? && "Email" in r.entries
      && (var (first, second) := ParsedAddress(env, m, addr);
          if first != "" && second != "" then
            r.entries["Email"] == Str(first) && "Name" in r.entries && r.entries["Name"] == Str(second)
          else
            r.entries["Email"] == Str(second) && "Name" !in r.entries)
      && (("Vars" in r.entries) <==> (addr in m.recipientVars && Truthy(m.recipientVars[addr])))
      && ("Vars" in r.entries ==> r.entries["Vars"] == m.recipientVars[addr])
      && (forall k :: k in r.entries ==> k == "Email" || k == "Name" || k == "Vars")
  {
  }

  /** One entry per address, in the order given, duplicates kept. */
  function RecipientList(env: Helpers, m: EmailMessage, addrs: seq<string>): (r: seq<Value>)
    ensures |r| == |addrs|
    ensures forall i :: 0 <= i < |addrs| ==> r[i] == RecipientEntry(env, m, addrs[i])
  {
    if addrs == [] then []
    else RecipientList(env, m, addrs[..|addrs| - 1]) + [RecipientEntry(env, m, addrs[|addrs| - 1])]
  }

  /** The entry the surrounding code evidently intends: the address of the
      pair under `Email`, the display name under `Name`. */
  function IntendedRecipientEntry(env: Helpers, m: EmailMessage, addr: string): Value
  {
    var (realName, address) := ParsedAddress(env, m, addr);
    var rcpt := if realName != "" && address != "" then map["Email" := Str(address), "Name" := Str(realName)]
                else map["Email" := Str(address)];
    if addr in m.recipientVars && Truthy(m.recipientVars[addr]) then Dict(rcpt["Vars" := m.recipientVars[addr]])
    else Dict(rcpt)
  }

  /** As written, `"Jane Doe <jane@example.com>"` is sent with the display
      name as its email address and the address as its name. */
  lemma NamedRecipientIsSwapped(env: Helpers, m: EmailMessage, addr: string)
    requires ParsedAddress(env, m, addr) == ("Jane Doe", "jane@example.com")
    ensures RecipientEntry(env, m, addr).entries["Email"] == Str("Jane Doe")
    ensures RecipientEntry(env, m, addr).entries["Name"] == Str("jane@example.com")
    ensures RecipientEntry(env, m, addr) != IntendedRecipientEntry(env, m, addr)
  {
    assert IntendedRecipientEntry(env, m, addr).entries["Email"] == Str("jane@example.com");
  }

  /** The intended entry carries the parsed address as `Email` and a display
      name exactly when there is one; it differs from the code only for
      named addresses. */
  lemma IntendedRecipientEntryFields(env: Helpers, m: EmailMessage, addr: string)
    ensures var (realName, address) := ParsedAddress(env, m, addr);
      var e := IntendedRecipientEntry(env, m, addr).entries;
      && "Email" in e && e["Email"] == Str(address)
      && ("Name" in e <==> realName != "" && address != "")
      && ("Name" in e ==> e["Name"] == Str(realName))
      && (realName == "" ==> IntendedRecipientEntry(env, m, addr) == RecipientEntry(env, m, addr))
  {
  }

  // ---------------------------------------------------------------------
  // Standard fields (`_build_standart_message_dict`)
  // ---------------------------------------------------------------------

  /** `[sanitize_address(addr, encoding) for addr in addrs]`. */
  function SanitizedAll(env: Helpers, encoding: Option<string>, addrs: seq<string>): (r: seq<string>)
    ensures |r| == |addrs|
    ensures forall i :: 0 <= i < |r| ==> r[i] == env.sanitizeAddress(addrs[i], encoding)
  {
    if addrs == [] then [] else [env.sanitizeAddress(addrs[0], encoding)] + SanitizedAll(env, encoding, addrs[1..])
  }

  /** Extra headers as dict values. */
  function HeaderValues(h: map<string, string>): (r: map<string, Value>)
    ensures r.Keys == h.Keys
    ensures forall k :: k in h ==> r[k] == Str(h[k])
  {
    map k | k in h :: Str(h[k])
  }

  /** The `Headers` dict, or `None` when it is not set. */
  function HeadersOf(env: Helpers, m: EmailMessage): Option<map<string, Value>>
  {
    var replyTo: Option<map<string, Value>> :=
      if m.replyTo.Some? then Some(map["Reply-To" := Str(ReplyToValue(env, m))]) else None;
    if |m.extraHeaders| == 0 then replyTo
    else Some(MergeHeaders(replyTo.GetOr(map[]), m.extraHeaders))
  }

  /** `', '.join(reply_to)`. */
  function ReplyToValue(env: Helpers, m: EmailMessage): string
    requires m.replyTo.Some?
  {
    Join(", ", SanitizedAll(env, m.encoding, m.replyTo.value))
  }

  /** `headers.update(extra_headers)`. */
  function MergeHeaders(base: map<string, Value>, extra: map<string, string>): map<string, Value>
  {
    base + HeaderValues(extra)
  }

  /** After the update, the keys are those of both dicts and the extra headers win. */
  lemma MergeHeadersSpec(base: map<string, Value>, extra: map<string, string>)
    ensures forall k :: k in MergeHeaders(base, extra) <==> k in base || k in extra
    ensures forall k :: k in extra ==> MergeHeaders(base, extra)[k] == Str(extra[k])
    ensures forall k :: k in base && k !in extra ==> MergeHeaders(base, extra)[k] == base[k]
  {
  }

  /** `if cond: d[f] = v`. */
  function PutIf(d: Fields, cond: bool, f: Field, v: Value): Fields
  {
    if cond then d[f := v] else d
  }

  /** Sets `Headers` when there is a headers dict. */
  function PutHeaders(d: Fields, headers: Option<map<string, Value>>): Fields
  {
    match headers
    case Some(h) => d[Headers := Dict(h)]
    case None => d
  }

  /** The headers dict exists when there is a reply-to attribute or an extra
      header; it holds the joined reply-to addresses under `Reply-To`, then
      every extra header, which wins on a clash. */
  lemma HeadersOfSpec(env: Helpers, m: EmailMessage)
    ensures HeadersOf(env, m).Some? <==> m.replyTo.Some? || |m.extraHeaders| != 0
    ensures HeadersOf(env, m).Some? ==>
      var h := HeadersOf(env, m).value;
      && (forall k :: k in h <==> k in m.extraHeaders || (k == "Reply-To" && m.replyTo.Some?))
      && (forall k :: k in m.extraHeaders ==> k in h && h[k] == Str(m.extraHeaders[k]))
      && (m.replyTo.Some? && "Reply-To" !in m.extraHeaders ==>
            "Reply-To" in h && h["Reply-To"] == Str(Join(", ", SanitizedAll(env, m.encoding, m.replyTo.value))))
  {
    if |m.extraHeaders| != 0 {
      var r := if m.replyTo.Some? then Some(ReplyToValue(env, m)) else None;
      var base: map<string, Value> := if m.replyTo.Some? then map["Reply-To" := Str(ReplyToValue(env, m))] else map[];
      assert HeadersOf(env, m) == Some(MergeHeaders(base, m.extraHeaders));
      MergedHeaders(r, m.extraHeaders);
    }
  }

  /** The merged headers dict for an optional reply-to value and the extra headers. */
  lemma MergedHeaders(replyTo: Option<string>, extra: map<string, string>)
    ensures var h := MergeHeaders(if replyTo.Some? then map["Reply-To" := Str(replyTo.value)] else map[], extra);
      && (forall k :: k in h <==> k in extra || (k == "Reply-To" && replyTo.Some?))
      && (forall k :: k in extra ==> k in h && h[k] == Str(extra[k]))
      && (replyTo.Some? && "Reply-To" !in extra ==> "Reply-To" in h && h["Reply-To"] == Str(replyTo.value))
  {
    var base: map<string, Value> := if replyTo.Some? then map["Reply-To" := Str(replyTo.value)] else map[];
    MergeHeadersSpec(base, extra);
  }

  /** The dict `_build_standart_message_dict` returns. */
  function StandardDict(env: Helpers, m: EmailMessage): Fields
  {
    var sender := ParsedAddress(env, m, m.fromEmail);
    var d1 := PutIf(PutIf(map[], |m.subject| != 0, Subject, Str(m.subject)), |m.body| != 0, TextPart, Str(m.body));
    var d2 := d1[FromEmail := Str(sender.1)][FromName := Str(sender.0)][Recipients := List(RecipientList(env, m, m.to))];
    var d3 := PutIf(PutIf(d2, m.cc.Some?, Cc, StrList(m.cc.GetOr([]))), m.bcc.Some?, Bcc, StrList(m.bcc.GetOr([])));
    PutHeaders(d3, HeadersOf(env, m))
  }

  /** The standard dict carries the headers dict, when there is one, under `Headers`. */
  lemma StandardHeaders(env: Helpers, m: EmailMessage)
    ensures Headers in StandardDict(env, m) <==> HeadersOf(env, m).Some?
    ensures Headers in StandardDict(env, m) ==> StandardDict(env, m)[Headers] == Dict(HeadersOf(env, m).value)
  {
  }

  /** The keys `_build_standart_message_dict` may set. */
  predicate StandardKey(f: Field) {
    !(f.Mj? || f == Vars || f == HtmlPart || f == Attachments || f == InlineAttachments)
  }

  // ---------------------------------------------------------------------
  // Mailjet options (`_add_mailjet_options`)
  // ---------------------------------------------------------------------

  /** The payload key of each Mailjet attribute. */
  function MjKey(a: MailjetAttr): string
  {
    match a
    case TemplateId => "Mj-TemplateID"
    case TemplateLanguage => "Mj-TemplateLanguage"
    case TemplateErrorReporting => "Mj-TemplateErrorReporting"
    case TemplateErrorDeliver => "Mj-TemplateErrorDeliver"
    case Campaign => "Mj-Campaign"
    case DeduplicateCampaign => "Mj-deduplicatecampaign"
    case TrackOpen => "Mj-trackopen"
    case TrackClick => "Mj-trackclick"
    case CustomId => "Mj-CustomID"
    case EventPayload => "Mj-EventPayLoad"
  }

  /** The attributes in the order of the table in the code. */
  const MailjetAttrTable: seq<MailjetAttr> := [
    TemplateId, TemplateLanguage, TemplateErrorReporting, TemplateErrorDeliver, Campaign,
    DeduplicateCampaign, TrackOpen, TrackClick, CustomId, EventPayload]

  lemma TableHasEveryAttr(a: MailjetAttr)
    ensures a in MailjetAttrTable
  {
  }

  /** Whether `d` and `e` agree at key `f`: both lack it or both map it to the same value. */
  predicate Agree(d: Fields, e: Fields, f: Field) {
    (f in d <==> f in e) && (f in d ==> d[f] == e[f])
  }

  /** `d` after the loop over `table` has copied each present attribute, row by row. */
  function OptionsOver(table: seq<MailjetAttr>, attrs: map<MailjetAttr, Value>, d: Fields): Fields
  {
    if table == [] then d
    else
      var e := OptionsOver(table[..|table| - 1], attrs, d);
      var a := table[|table| - 1];
      if a in attrs then e[Mj(a) := attrs[a]] else e
  }

  /** A row's key is set exactly when its attribute is present, to the
      attribute's value; every other key keeps what it had. */
  lemma {:induction false} OptionsOverSpec(table: seq<MailjetAttr>, attrs: map<MailjetAttr, Value>, d: Fields)
    ensures forall f: Field :: !f.Mj? ==> Agree(OptionsOver(table, attrs, d), d, f)
    ensures forall a :: a in table && a in attrs ==>
      Mj(a) in OptionsOver(table, attrs, d) && OptionsOver(table, attrs, d)[Mj(a)] == attrs[a]
    ensures forall a :: a !in table || a !in attrs ==> Agree(OptionsOver(table, attrs, d), d, Mj(a))
    decreases |table|
  {
    if table != [] {
      var init := table[..|table| - 1];
      OptionsOverSpec(init, attrs, d);
      assert table == init + [table[|table| - 1]];
    }
  }

  /** `_add_mailjet_options` applied to `d`. */
  function WithMailjetOptions(m: EmailMessage, d: Fields): Fields
  {
    var e := OptionsOver(MailjetAttrTable, m.mailjetAttrs, d);
    if m.templateVars.Some? then e[Vars := m.templateVars.value] else e
  }

  // ---------------------------------------------------------------------
  // HTML alternative (`_add_alternatives`)
  // ---------------------------------------------------------------------

  /** The content of the first alternative whose mimetype is `text/html`. */
  function FirstHtml(alts: seq<Alternative>): Option<string>
  {
    if alts == [] then None
    else if alts[0].mimetype == HTML_MIMETYPE then Some(alts[0].content)
    else FirstHtml(alts[1..])
  }

  /** `FirstHtml` finds the earliest `text/html` alternative, and finds none only when there is none. */
  lemma {:induction false} FirstHtmlSpec(alts: seq<Alternative>)
    ensures FirstHtml(alts).None? <==> forall i :: 0 <= i < |alts| ==> alts[i].mimetype != HTML_MIMETYPE
    ensures FirstHtml(alts).Some? ==>
      exists k :: 0 <= k < |alts| && alts[k].mimetype == HTML_MIMETYPE && alts[k].content == FirstHtml(alts).value
        && forall j :: 0 <= j < k ==> alts[j].mimetype != HTML_MIMETYPE
  {
    if alts != [] && alts[0].mimetype != HTML_MIMETYPE {
      var tail := alts[1..];
      FirstHtmlSpec(tail);
      assert forall i :: 1 <= i < |alts| ==> alts[i] == tail[i - 1];
      if FirstHtml(tail).Some? {
        var k :| 0 <= k < |tail| && tail[k].mimetype == HTML_MIMETYPE && tail[k].content == FirstHtml(tail).value
          && forall j :: 0 <= j < k ==> tail[j].mimetype != HTML_MIMETYPE;
        assert alts[k + 1] == tail[k];
        assert forall j :: 0 <= j < k + 1 ==> alts[j].mimetype != HTML_MIMETYPE by {
          forall j | 0 <= j < k + 1 ensures alts[j].mimetype != HTML_MIMETYPE {
            if j > 0 { assert alts[j] == tail[j - 1]; }
          }
        }
      }
    }
  }

  /** `_add_alternatives` applied to `d`. When `alternatives` is empty the
      call is skipped, which leaves `d` as the loop would. */
  function WithAlternatives(m: EmailMessage, d: Fields): Fields
  {
    match FirstHtml(m.alternatives)
    case Some(content) => d[HtmlPart := Str(content)]
    case None => d
  }

  // ---------------------------------------------------------------------
  // Attachments (`_add_attachments`, `_make_attachment`)
  // ---------------------------------------------------------------------

  /** `get_content_maintype()`: the part of the content type before the first '/'. */
  function MainType(contentType: string): (r: string)
    ensures |r| <= |contentType| && r == contentType[..|r|] && '/' !in r
    ensures |r| < |contentType| ==> contentType[|r|] == '/'
  {
    if contentType == [] || contentType[0] == '/' then []
    else [contentType[0]] + MainType(contentType[1..])
  }

  /** A MIME part of main type `image` with a Content-ID header is an inline image. */
  predicate IsInlineImage(a: Attachment) {
    a.MimePart? && MainType(a.contentType) == "image" && a.contentId.Some?
  }

  /** The name `_make_attachment` ends up with: the Content-ID for an inline image. */
  function AttachmentName(a: Attachment): Option<string>
  {
    match a
    case MimePart(filename, _, _, contentId) => if IsInlineImage(a) then contentId else filename
    case Triple(name, _, _) => name
  }

  /** The mimetype before guessing: a MIME part always has one. */
  function GivenMimetype(a: Attachment): Option<string>
  {
    match a
    case MimePart(_, _, contentType, _) => Some(contentType)
    case Triple(_, _, mimetype) => mimetype
  }

  /** The mimetype after guessing from the name and falling back to the default. */
  function AttachmentMimetype(env: Helpers, a: Attachment): (r: string)
    ensures GivenMimetype(a).Some? ==> r == GivenMimetype(a).value
    ensures GivenMimetype(a).None? && AttachmentName(a).Some? && env.guessType(AttachmentName(a).value).Some?
      ==> r == env.guessType(AttachmentName(a).value).value
    ensures GivenMimetype(a).None? && (AttachmentName(a).None? || env.guessType(AttachmentName(a).value).None?)
      ==> r == DEFAULT_ATTACHMENT_MIME_TYPE
  {
    var given := GivenMimetype(a);
    var name := AttachmentName(a);
    var guessed := if given.None? && name.Some? then env.guessType(name.value) else given;
    if guessed.None? then DEFAULT_ATTACHMENT_MIME_TYPE else guessed.value
  }

  /** The bytes to encode: a `str` content is encoded with the charset. */
  function AttachmentBytes(env: Helpers, charset: string, a: Attachment): seq<byte>
  {
    match a
    case MimePart(_, payload, _, _) => payload
    case Triple(_, Bytes(b), _) => b
    case Triple(_, Text(t), _) => env.encode(t, charset)
  }

  /** `name or ''`. */
  function OrEmpty(name: Option<string>): string
  {
    if name.Some? then name.value else ""
  }

  /** `_make_attachment`: the Mailjet attachment dict and whether it is an inline image. */
  function MakeAttachment(env: Helpers, charset: string, a: Attachment): (JsonObject, bool)
  {
    (map["Content-type" := Str(AttachmentMimetype(env, a)),
         "Filename" := Str(OrEmpty(AttachmentName(a))),
         "content" := Str(Base64.Encode(AttachmentBytes(env, charset, a)))],
     IsInlineImage(a))
  }

  /** The attachment dict has exactly the keys `Content-type`, `Filename`
      and `content`; `content` is 7-bit text that decodes back to the
      attachment's bytes; the flag says whether the item is an inline image. */
  lemma MakeAttachmentFields(env: Helpers, charset: string, a: Attachment)
    ensures var r := MakeAttachment(env, charset, a);
      && (r.1 <==> IsInlineImage(a))
      && r.0.Keys == {"Content-type", "Filename", "content"}
      && r.0["Content-type"] == Str(AttachmentMimetype(env, a))
      && r.0["Filename"] == Str(OrEmpty(AttachmentName(a)))
      && r.0["content"].Str?
      && Base64.Decode(r.0["content"].s) == Some(AttachmentBytes(env, charset, a))
      && forall i :: 0 <= i < |r.0["content"].s| ==> r.0["content"].s[i] as int < 128
  {
    Base64.DecodeEncode(AttachmentBytes(env, charset, a));
  }

  /** `message.encoding or settings.DEFAULT_CHARSET`. */
  function AttachmentCharset(env: Helpers, m: EmailMessage): string
  {
    if m.encoding.Some? && m.encoding.value != "" then m.encoding.value else env.defaultCharset
  }

  /** The attachment dicts of the items that are not inline images, in order. */
  function RegularAttachmentList(env: Helpers, charset: string, atts: seq<Attachment>): seq<Value>
  {
    if atts == [] then []
    else
      var init := RegularAttachmentList(env, charset, atts[..|atts| - 1]);
      var a := atts[|atts| - 1];
      if IsInlineImage(a) then init else init + [Dict(MakeAttachment(env, charset, a).0)]
  }

  /** The attachment dicts of the inline images, in order. */
  function InlineAttachmentList(env: Helpers, charset: string, atts: seq<Attachment>): seq<Value>
  {
    if atts == [] then []
    else
      var init := InlineAttachmentList(env, charset, atts[..|atts| - 1]);
      var a := atts[|atts| - 1];
      if IsInlineImage(a) then init + [Dict(MakeAttachment(env, charset, a).0)] else init
  }

  /** One more item extends exactly one of the two lists by its dict. */
  lemma AttachmentListsStep(env: Helpers, charset: string, atts: seq<Attachment>, i: nat)
    requires i < |atts|
    ensures var made := MakeAttachment(env, charset, atts[i]);
      && RegularAttachmentList(env, charset, atts[..i + 1])
         == RegularAttachmentList(env, charset, atts[..i]) + (if made.1 then [] else [Dict(made.0)])
      && InlineAttachmentList(env, charset, atts[..i + 1])
         == InlineAttachmentList(env, charset, atts[..i]) + (if made.1 then [Dict(made.0)] else [])
  {
    assert atts[..i + 1][..i] == atts[..i];
  }

  /** Every attachment lands in exactly one of the two lists. */
  lemma {:induction false} AttachmentPartitionLength(env: Helpers, charset: string, atts: seq<Attachment>)
    ensures |RegularAttachmentList(env, charset, atts)| + |InlineAttachmentList(env, charset, atts)| == |atts|
    decreases |atts|
  {
    if atts != [] {
      AttachmentPartitionLength(env, charset, atts[..|atts| - 1]);
    }
  }

  /** The inline list holds exactly the dicts of the inline images. */
  lemma {:induction false} InlineAttachmentListMembers(env: Helpers, charset: string, atts: seq<Attachment>)
    ensures forall v :: v in InlineAttachmentList(env, charset, atts) <==>
      exists i :: 0 <= i < |atts| && IsInlineImage(atts[i]) && v == Dict(MakeAttachment(env, charset, atts[i]).0)
    decreases |atts|
  {
    if atts != [] {
      var init := atts[..|atts| - 1];
      InlineAttachmentListMembers(env, charset, init);
      assert forall i :: 0 <= i < |init| ==> init[i] == atts[i];
    }
  }

  /** The regular list holds exactly the dicts of the other items. */
  lemma {:induction false} RegularAttachmentListMembers(env: Helpers, charset: string, atts: seq<Attachment>)
    ensures forall v :: v in RegularAttachmentList(env, charset, atts) <==>
      exists i :: 0 <= i < |atts| && !IsInlineImage(atts[i]) && v == Dict(MakeAttachment(env, charset, atts[i]).0)
    decreases |atts|
  {
    if atts != [] {
      var init := atts[..|atts| - 1];
      RegularAttachmentListMembers(env, charset, init);
      assert forall i :: 0 <= i < |init| ==> init[i] == atts[i];
    }
  }

  /** An inline image is sent under its Content-ID. */
  lemma InlineAttachmentFilename(env: Helpers, charset: string, a: Attachment)
    requires IsInlineImage(a)
    ensures MakeAttachment(env, charset, a).0["Filename"] == Str(OrEmpty(a.contentId))
    ensures MakeAttachment(env, charset, a).0["Content-type"] == Str(a.contentType)
  {
    MakeAttachmentFields(env, charset, a);
  }

  /** `_add_attachments` applied to `d`. */
  function WithAttachments(env: Helpers, m: EmailMessage, d: Fields): Fields
  {
    var charset := AttachmentCharset(env, m);
    var regular := RegularAttachmentList(env, charset, m.attachments);
    var inline := InlineAttachmentList(env, charset, m.attachments);
    PutIf(PutIf(d, |regular| != 0, Attachments, List(regular)), |inline| != 0, InlineAttachments, List(inline))
  }

  // ---------------------------------------------------------------------
  // The whole payload (`build_send_payload`)
  // ---------------------------------------------------------------------


  /** The steps `build_send_payload` applies to the standard dict. */
  function LaterSteps(env: Helpers, m: EmailMessage, d: Fields): Fields
  {
    WithAttachments(env, m, WithAlternatives(m, WithMailjetOptions(m, d)))
  }

  /** `build_send_payload`. */
  function BuildPayload(env: Helpers, m: EmailMessage): Fields
  {
    LaterSteps(env, m, StandardDict(env, m))
  }

  /** The later steps leave the keys of the standard dict alone. */
  lemma LaterStepsKeepStandardKey(env: Helpers, m: EmailMessage, d: Fields, f: Field)
    requires StandardKey(f)
    ensures Agree(LaterSteps(env, m, d), d, f)
  {
    OptionsOverSpec(MailjetAttrTable, m.mailjetAttrs, d);
    assert Agree(WithMailjetOptions(m, d), d, f);
  }

  lemma StandardKeyKept(env: Helpers, m: EmailMessage, f: Field)
    requires StandardKey(f)
    ensures Agree(BuildPayload(env, m), StandardDict(env, m), f)
  {
    LaterStepsKeepStandardKey(env, m, StandardDict(env, m), f);
  }

  /** On a dict without Mailjet keys, the later steps set exactly the present attributes and `Vars`. */
  lemma LaterStepsOptionKeys(env: Helpers, m: EmailMessage, d: Fields)
    requires forall a :: Mj(a) !in d
    requires Vars !in d
    ensures var p := LaterSteps(env, m, d);
      && (forall a :: Mj(a) in p <==> a in m.mailjetAttrs)
      && (forall a :: a in m.mailjetAttrs ==> p[Mj(a)] == m.mailjetAttrs[a])
      && (Vars in p <==> m.templateVars.Some?)
      && (m.templateVars.Some? ==> p[Vars] == m.templateVars.value)
  {
    var e := WithMailjetOptions(m, d);
    MailjetOptionKeys(m, d);
    forall f | f != HtmlPart && f != Attachments && f != InlineAttachments
      ensures Agree(LaterSteps(env, m, d), e, f)
    {
      AfterOptionsKeep(env, m, e, f);
    }
    assert Agree(LaterSteps(env, m, d), e, Vars);
  }

  /** On a dict without Mailjet keys, `_add_mailjet_options` sets exactly the present attributes and `Vars`. */
  lemma MailjetOptionKeys(m: EmailMessage, d: Fields)
    requires forall a :: Mj(a) !in d
    requires Vars !in d
    ensures var p := WithMailjetOptions(m, d);
      && (forall a :: Mj(a) in p <==> a in m.mailjetAttrs)
      && (forall a :: a in m.mailjetAttrs ==> p[Mj(a)] == m.mailjetAttrs[a])
      && (Vars in p <==> m.templateVars.Some?)
      && (m.templateVars.Some? ==> p[Vars] == m.templateVars.value)
  {
    OptionsOverSpec(MailjetAttrTable, m.mailjetAttrs, d);
    assert Agree(OptionsOver(MailjetAttrTable, m.mailjetAttrs, d), d, Vars);
    forall a ensures a in MailjetAttrTable {
      TableHasEveryAttr(a);
    }
  }

  /** The steps after `_add_mailjet_options` touch only `Html-part` and the attachment keys. */
  lemma AfterOptionsKeep(env: Helpers, m: EmailMessage, e: Fields, f: Field)
    requires f != HtmlPart && f != Attachments && f != InlineAttachments
    ensures Agree(WithAttachments(env, m, WithAlternatives(m, e)), e, f)
  {
  }

  /** On a dict without `Html-part`, the later steps set it exactly when there is an HTML alternative. */
  lemma LaterStepsHtmlKey(env: Helpers, m: EmailMessage, d: Fields)
    requires HtmlPart !in d
    ensures var p := LaterSteps(env, m, d);
      && (HtmlPart in p <==> FirstHtml(m.alternatives).Some?)
      && (HtmlPart in p ==> p[HtmlPart] == Str(FirstHtml(m.alternatives).value))
  {
    OptionsOverSpec(MailjetAttrTable, m.mailjetAttrs, d);
    assert Agree(OptionsOver(MailjetAttrTable, m.mailjetAttrs, d), d, HtmlPart);
  }

  /** On a dict without attachment keys, the later steps set each one for a non-empty list. */
  lemma LaterStepsAttachmentKeys(env: Helpers, m: EmailMessage, d: Fields)
    requires Attachments !in d && InlineAttachments !in d
    ensures var p := LaterSteps(env, m, d); var cs := AttachmentCharset(env, m);
      && (Attachments in p <==> |RegularAttachmentList(env, cs, m.attachments)| != 0)
      && (Attachments in p ==> p[Attachments] == List(RegularAttachmentList(env, cs, m.attachments)))
      && (InlineAttachments in p <==> |InlineAttachmentList(env, cs, m.attachments)| != 0)
      && (InlineAttachments in p ==> p[InlineAttachments] == List(InlineAttachmentList(env, cs, m.attachments)))
  {
    OptionsOverSpec(MailjetAttrTable, m.mailjetAttrs, d);
    assert Agree(OptionsOver(MailjetAttrTable, m.mailjetAttrs, d), d, Attachments);
    assert Agree(OptionsOver(MailjetAttrTable, m.mailjetAttrs, d), d, InlineAttachments);
  }

  /** The standard dict sets none of the keys of the later steps. */
  lemma StandardDictKeys(env: Helpers, m: EmailMessage, f: Field)
    requires !StandardKey(f)
    ensures f !in StandardDict(env, m)
  {
  }

  /** `Subject` is present exactly when the subject is non-empty, and then equals it; `Text-part` likewise for the body. */
  lemma SubjectAndTextPart(env: Helpers, m: EmailMessage)
    ensures var p := BuildPayload(env, m);
      && (Subject in p <==> m.subject != "") && (Subject in p ==> p[Subject] == Str(m.subject))
      && (TextPart in p <==> m.body != "") && (TextPart in p ==> p[TextPart] == Str(m.body))
  {
    StandardKeyKept(env, m, Subject);
    StandardKeyKept(env, m, TextPart);
    StandardSubjectAndTextPart(env, m);
  }

  lemma StandardSubjectAndTextPart(env: Helpers, m: EmailMessage)
    ensures var d := StandardDict(env, m);
      && (Subject in d <==> m.subject != "") && (Subject in d ==> d[Subject] == Str(m.subject))
      && (TextPart in d <==> m.body != "") && (TextPart in d ==> d[TextPart] == Str(m.body))
  {
  }

  /** The sender fields take the pair of `parseaddr` in its own order: `(FromName, FromEmail)`. */
  lemma SenderFields(env: Helpers, m: EmailMessage)
    ensures var p := BuildPayload(env, m); var (name, address) := ParsedAddress(env, m, m.fromEmail);
      && FromEmail in p && p[FromEmail] == Str(address)
      && FromName in p && p[FromName] == Str(name)
  {
    StandardKeyKept(env, m, FromEmail);
    StandardKeyKept(env, m, FromName);
    StandardSenderFields(env, m);
  }

  lemma StandardSenderFields(env: Helpers, m: EmailMessage)
    ensures var d := StandardDict(env, m); var (name, address) := ParsedAddress(env, m, m.fromEmail);
      && FromEmail in d && d[FromEmail] == Str(address)
      && FromName in d && d[FromName] == Str(name)
  {
  }

  /** `Recipients` has one entry per "to" address, in order, duplicates kept. */
  lemma RecipientsField(env: Helpers, m: EmailMessage)
    ensures var p := BuildPayload(env, m);
      && Recipients in p && p[Recipients].List?
      && |p[Recipients].items| == |m.to|
      && forall i :: 0 <= i < |m.to| ==> p[Recipients].items[i] == RecipientEntry(env, m, m.to[i])
  {
    StandardKeyKept(env, m, Recipients);
  }

  /** Cc and bcc are passed through as they are, without parsing. */
  lemma CcAndBccPassThrough(env: Helpers, m: EmailMessage)
    ensures var p := BuildPayload(env, m);
      && (Cc in p <==> m.cc.Some?) && (m.cc.Some? ==> p[Cc] == StrList(m.cc.value))
      && (Bcc in p <==> m.bcc.Some?) && (m.bcc.Some? ==> p[Bcc] == StrList(m.bcc.value))
  {
    StandardKeyKept(env, m, Cc);
    StandardKeyKept(env, m, Bcc);
    StandardCcAndBcc(env, m);
  }

  lemma StandardCcAndBcc(env: Helpers, m: EmailMessage)
    ensures var d := StandardDict(env, m);
      && (Cc in d <==> m.cc.Some?) && (m.cc.Some? ==> d[Cc] == StrList(m.cc.value))
      && (Bcc in d <==> m.bcc.Some?) && (m.bcc.Some? ==> d[Bcc] == StrList(m.bcc.value))
  {
  }

  /** `Headers` holds the joined reply-to addresses under `Reply-To`, then
      every extra header, which wins on a clash; it is absent when there is
      neither a reply-to attribute nor an extra header. */
  lemma HeadersField(env: Helpers, m: EmailMessage)
    ensures var p := BuildPayload(env, m);
      && (Headers in p <==> m.replyTo.Some? || |m.extraHeaders| != 0)
      && (Headers in p ==>
            && p[Headers].Dict?
            && (forall k :: k in p[Headers].entries <==> k in m.extraHeaders || (k == "Reply-To" && m.replyTo.Some?))
            && (forall k :: k in m.extraHeaders ==> k in p[Headers].entries && p[Headers].entries[k] == Str(m.extraHeaders[k]))
            && (m.replyTo.Some? && "Reply-To" !in m.extraHeaders ==>
                  && "Reply-To" in p[Headers].entries
                  && p[Headers].entries["Reply-To"] == Str(Join(", ", SanitizedAll(env, m.encoding, m.replyTo.value)))))
  {
    var d := StandardDict(env, m);
    StandardKeyKept(env, m, Headers);
    StandardHeaders(env, m);
    HeadersOfSpec(env, m);
  }

  /** Each Mailjet attribute present on the message is copied unchanged to
      its `Mj-*` key, an absent one sets no key; `template_vars` goes to `Vars`. */
  lemma MailjetOptionsFields(env: Helpers, m: EmailMessage)
    ensures var p := BuildPayload(env, m);
      && (forall a :: Mj(a) in p <==> a in m.mailjetAttrs)
      && (forall a :: a in m.mailjetAttrs ==> p[Mj(a)] == m.mailjetAttrs[a])
      && (Vars in p <==> m.templateVars.Some?)
      && (m.templateVars.Some? ==> p[Vars] == m.templateVars.value)
  {
    forall a ensures Mj(a) !in StandardDict(env, m) {
      StandardDictKeys(env, m, Mj(a));
    }
    StandardDictKeys(env, m, Vars);
    LaterStepsOptionKeys(env, m, StandardDict(env, m));
  }

  /** `Html-part` is the content of the first `text/html` alternative, and absent when there is none. */
  lemma HtmlPartField(env: Helpers, m: EmailMessage)
    ensures var p := BuildPayload(env, m); var alts := m.alternatives;
      && (HtmlPart in p <==> exists i :: 0 <= i < |alts| && alts[i].mimetype == HTML_MIMETYPE)
      && (HtmlPart in p ==>
            exists k :: && 0 <= k < |alts| && alts[k].mimetype == HTML_MIMETYPE
                        && p[HtmlPart] == Str(alts[k].content)
                        && forall j :: 0 <= j < k ==> alts[j].mimetype != HTML_MIMETYPE)
  {
    StandardDictKeys(env, m, HtmlPart);
    LaterStepsHtmlKey(env, m, StandardDict(env, m));
    FirstHtmlSpec(m.alternatives);
  }

  /** The attachments are split between `Attachments` and
      `Inline_attachments`, each key present only for a non-empty list, so
      that the two lists together hold one dict per attachment. */
  lemma AttachmentFields(env: Helpers, m: EmailMessage)
    ensures var p := BuildPayload(env, m); var cs := AttachmentCharset(env, m);
      && (Attachments in p <==> |RegularAttachmentList(env, cs, m.attachments)| != 0)
      && (Attachments in p ==> p[Attachments] == List(RegularAttachmentList(env, cs, m.attachments)))
      && (InlineAttachments in p <==> |InlineAttachmentList(env, cs, m.attachments)| != 0)
      && (InlineAttachments in p ==> p[InlineAttachments] == List(InlineAttachmentList(env, cs, m.attachments)))
      && (if Attachments in p then |p[Attachments].items| else 0)
         + (if InlineAttachments in p then |p[InlineAttachments].items| else 0) == |m.attachments|
  {
    StandardDictKeys(env, m, Attachments);
    StandardDictKeys(env, m, InlineAttachments);
    LaterStepsAttachmentKeys(env, m, StandardDict(env, m));
    AttachmentPartitionLength(env, AttachmentCharset(env, m), m.attachments);
  }

  // ---------------------------------------------------------------------
  // The dict as sent: string keys
  // ---------------------------------------------------------------------

  /** The key each field carries in the JSON sent to Mailjet. */
  function Name(f: Field): string
  {
    match f
    case Subject => "Subject"
    case TextPart => "Text-part"
    case FromEmail => "FromEmail"
    case FromName => "FromName"
    case Recipients => "Recipients"
    case Cc => "Cc"
    case Bcc => "bcc"
    case Headers => "Headers"
    case Mj(a) => MjKey(a)
    case Vars => "Vars"
    case HtmlPart => "Html-part"
    case Attachments => "Attachments"
    case InlineAttachments => "Inline_attachments"
  }

  /** No two fields share a key. */
  lemma NameInjective(f: Field, g: Field)
    requires Name(f) == Name(g)
    ensures f == g
  {
    MjPrefix(f);
    MjPrefix(g);
    if f.Mj? && g.Mj? {
      MjKeyInjective(f.attr, g.attr);
    }
  }

  /** Exactly the Mailjet attribute keys begin with 'M'. */
  lemma MjPrefix(f: Field)
    ensures |Name(f)| > 0 && (Name(f)[0] == 'M' <==> f.Mj?)
  {
  }

  lemma MjKeyInjective(a: MailjetAttr, b: MailjetAttr)
    requires MjKey(a) == MjKey(b)
    ensures a == b
  {
  }

  /** No field is sent as `message`. */
  lemma NameIsNotMessage(f: Field)
    ensures Name(f) != "message"
  {
  }

  /** Every field, each once. */
  const AllFields: seq<Field> := [
    Subject, TextPart, FromEmail, FromName, Recipients, Cc, Bcc, Headers,
    Mj(TemplateId), Mj(TemplateLanguage), Mj(TemplateErrorReporting), Mj(TemplateErrorDeliver),
    Mj(Campaign), Mj(DeduplicateCampaign), Mj(TrackOpen), Mj(TrackClick), Mj(CustomId),
    Mj(EventPayload), Vars, HtmlPart, Attachments, InlineAttachments]

  lemma AllFieldsComplete(f: Field)
    ensures f in AllFields
  {
    match f
    case Subject => assert AllFields[0] == f;
    case TextPart => assert AllFields[1] == f;
    case FromEmail => assert AllFields[2] == f;
    case FromName => assert AllFields[3] == f;
    case Recipients => assert AllFields[4] == f;
    case Cc => assert AllFields[5] == f;
    case Bcc => assert AllFields[6] == f;
    case Headers => assert AllFields[7] == f;
    case Mj(a) =>
      match a {
      case TemplateId => assert AllFields[8] == f;
      case TemplateLanguage => assert AllFields[9] == f;
      case TemplateErrorReporting => assert AllFields[10] == f;
      case TemplateErrorDeliver => assert AllFields[11] == f;
      case Campaign => assert AllFields[12] == f;
      case DeduplicateCampaign => assert AllFields[13] == f;
      case TrackOpen => assert AllFields[14] == f;
      case TrackClick => assert AllFields[15] == f;
      case CustomId => assert AllFields[16] == f;
      case EventPayload => assert AllFields[17] == f;
      }
    case Vars => assert AllFields[18] == f;
    case HtmlPart => assert AllFields[19] == f;
    case Attachments => assert AllFields[20] == f;
    case InlineAttachments => assert AllFields[21] == f;
  }

  /** The send dict with its string keys, as Python holds it. */
  function Serialize(p: Fields): JsonObject
  {
    SerializeOver(p, AllFields)
  }

  /** The entries of `p` at the fields of `fs`, under their string keys. */
  function SerializeOver(p: Fields, fs: seq<Field>): JsonObject
  {
    if fs == [] then map[]
    else
      var r := SerializeOver(p, fs[..|fs| - 1]);
      var f := fs[|fs| - 1];
      if f in p then r[Name(f) := p[f]] else r
  }

  /** Each field of `fs` present in `p` is sent under its own key with its
      own value, and no other key is sent. */
  lemma {:induction false} SerializeOverSpec(p: Fields, fs: seq<Field>)
    ensures forall f :: f in p && f in fs ==> Name(f) in SerializeOver(p, fs) && SerializeOver(p, fs)[Name(f)] == p[f]
    ensures forall k :: k in SerializeOver(p, fs) ==> exists f :: f in p && f in fs && Name(f) == k
  {
    if fs != [] {
      var fs' := fs[..|fs| - 1];
      var g := fs[|fs| - 1];
      SerializeOverSpec(p, fs');
      assert fs == fs' + [g];
      forall f | f in p && f in fs
        ensures Name(f) in SerializeOver(p, fs) && SerializeOver(p, fs)[Name(f)] == p[f]
      {
        if f != g {
          if Name(f) == Name(g) {
            NameInjective(f, g);
          }
        }
      }
    }
  }

  /** Every field is sent under its own key with its own value, and nothing else is sent. */
  lemma SerializeSpec(p: Fields)
    ensures forall f :: f in p ==> Name(f) in Serialize(p) && Serialize(p)[Name(f)] == p[f]
    ensures forall k :: k in Serialize(p) <==> exists f :: f in p && Name(f) == k
  {
    SerializeOverSpec(p, AllFields);
    forall f | f in p
      ensures f in AllFields
    {
      AllFieldsComplete(f);
    }
  }

  /** A built payload has no `message` key. */
  lemma SerializedPayloadHasNoMessage(env: Helpers, m: EmailMessage)
    ensures "message" !in Serialize(BuildPayload(env, m))
  {
    forall f ensures Name(f) != "message" {
      NameIsNotMessage(f);
    }
    SerializeSpec(BuildPayload(env, m));
  }
}
