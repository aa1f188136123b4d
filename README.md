# django-mailjet in Dafny

This project models `django_mailjet`, an email backend for Django that sends
messages through the Mailjet HTTP API. It models the send path in three parts.

1. **Payload building.** `MailjetBackend.build_send_payload` and its helpers
   turn a Django `EmailMessage` into the Mailjet send dict. That dict holds:
   - the subject and body;
   - the sender;
   - one recipient entry per "to" address;
   - cc/bcc;
   - the `Headers` dict;
   - the `Mj-*` extension keys;
   - the first HTML alternative;
   - two base 64 attachment lists.
2. **Dispatch.** `_send`, `post_to_mailjet`, `parse_response` and
   `send_messages` post each message through the Mailjet client and store the
   answer on the message. They count deliveries, and they raise or swallow
   (`fail_silently`) the `MailjetAPIError` of a non-200 status or a non-JSON
   body.
3. **Error text.** `MailjetError.__str__`, `describe_send` and
   `describe_response` compose the diagnostic string of an error.

Files:

| file | contents |
|---|---|
| `values.dfy` | Python-side values: `Option`, `Result`, bytes, and the JSON-like `Value` of dicts and lists. |
| `foreign.dfy` | The helpers the backend calls but does not own, gathered in a `Helpers` datatype of functions that callers supply. The helpers are `sanitize_address`, `parseaddr`, `mimetypes.guess_type`, `str.encode`, `json.dumps`, `str()` and `settings.DEFAULT_CHARSET`. It also holds the HTTP `Response` datatype. |
| `mail.dfy` | The `EmailMessage` as the backend reads it. An attribute that the code probes with `hasattr` (`cc`, `bcc`, `reply_to`, `template_vars`) is an `Option`. The Mailjet option attributes, also probed with `hasattr`, are a map that holds exactly the ones present. An attribute read with `getattr` and a default is a plain field. A missing `recipient_vars` is the empty map, the code's default at backends.py:42. A missing `alternatives` is the empty sequence where the code's default is `None`. Both are falsy at the guard of backends.py:81, so the payload is the same. |
| `base64.dfy` | The encoder of section 4 of RFC 4648, which `b64encode` implements, a decoder, and the round trip between them. |
| `payload.dfy` | The send dict as pure functions of the message (`StandardDict`, `WithMailjetOptions`, `WithAlternatives`, `WithAttachments`, `BuildPayload`, `Serialize`), and lemmas saying what each key holds. |
| `exceptions.dfy` | `MailjetError`/`MailjetAPIError` as one tagged datatype. `describe_send` is evaluated down to the Python exception it raises. Also `describe_response` and `__str__`. |
| `backends.dfy` | The imperative part, in four classes. `MsgDict` is the dict filled in place. `Client` holds the posted payloads and a response oracle. `Message` has a mutable `mailjet_response`. `MailjetBackend` holds the methods that change a dict, the client or a message. `_build_standart_message_dict` is split into `BuildStandardMessageDict` and the steps `AddTexts`, `AddCopies` and `AddHeaders`. `send_messages` is split into `SendMessages` (the empty-list case), `SendAll` (the loop) and `SendOne` (one round of it). `_make_attachment` and `parse_response` change nothing and are functions (`Payload.MakeAttachment`, `Backends.ParseResponse`). The module also holds `Run`, a function that specifies a whole `send_messages` call as a trace of steps. |

Each dict-building method changes a `MsgDict` and is proved to leave exactly
what the matching `Payload` function gives. `send_messages` is proved to post
exactly the payloads of `Run`, to return `Run`'s result, and to leave on every
message object the response of its last send. A message object that occurs
twice in the list is handled through its last occurrence.

## Model

| member | source | states |
|---|---|---|
| Payload.SubjectAndTextPart | django_mailjet/backends.py:104-108 | `Subject` is present exactly when the subject is non-empty, and then equals it; `Text-part` likewise for the body. |
| Payload.SenderFields | django_mailjet/backends.py:110-114 | `FromName` is the first part of the parsed sender pair and `FromEmail` the second. |
| Payload.RecipientsField | django_mailjet/backends.py:117 | `Recipients` is a list with one entry per "to" address, in order, duplicates kept. |
| Payload.RecipientList | django_mailjet/backends.py:40-56 | One entry per address, in order. |
| Payload.RecipientEntryFields | django_mailjet/backends.py:42-53 | Every entry has `Email`. With both parts of the parsed pair non-empty the entry is `Email` = first part and `Name` = second part; otherwise it is `Email` = second part and has no `Name`. `Vars` is present exactly when `recipient_vars` maps the raw address to a truthy value, and then equals it. No other key appears. |
| Payload.NamedRecipientIsSwapped | django_mailjet/backends.py:45-47 | For `Jane Doe <jane@example.com>` the entry sent has `Email` "Jane Doe" and `Name` "jane@example.com", which is not the intended entry. |
| Payload.IntendedRecipientEntryFields | django_mailjet/backends.py:110-114 | The corrected entry carries the parsed address as `Email`, and `Name` exactly when there is a display name. For an address without a display name it agrees with the code as written. |
| Payload.CcAndBccPassThrough | django_mailjet/backends.py:119-123 | `Cc` (`bcc`) is present exactly when the attribute exists, and then holds the list unchanged. |
| Payload.HeadersOfSpec | django_mailjet/backends.py:125-131 | The headers dict exists exactly when there is a `reply_to` attribute or an extra header. Its keys are the extra headers plus `Reply-To`. Extra headers win on a clash. The joined sanitized reply-to addresses stand under `Reply-To` otherwise. |
| Payload.HeadersField | django_mailjet/backends.py:125-131 | The same facts about the `Headers` key of the built payload. |
| Payload.MergeHeadersSpec | django_mailjet/backends.py:131 | `dict.update`: the keys of both dicts; the update wins; other keys are kept. |
| Payload.OptionsOverSpec | django_mailjet/backends.py:149-151 | The loop over the attribute table sets a row's key exactly when the attribute is present, to its value, and touches no other key. |
| Payload.MailjetOptionsFields | django_mailjet/backends.py:135-154 | In the payload, `Mj-*` of an attribute is present exactly when the attribute is, and holds it unchanged. `Vars` is present exactly when `template_vars` is, and holds it. |
| Payload.NameInjective | django_mailjet/backends.py:136-147 | No two payload keys share their string name, so the ten `Mj-*` names of the table are distinct. |
| Payload.FirstHtmlSpec | django_mailjet/backends.py:156-161 | The selected content is that of the earliest `text/html` alternative, and none is selected only when there is none. |
| Payload.HtmlPartField | django_mailjet/backends.py:81-82 | `Html-part` is present exactly when some alternative is `text/html`. It is then the content of the first one; later ones are ignored. |
| Payload.MainType | django_mailjet/backends.py:193 | The main type is the longest prefix of the content type without '/', and is followed by '/' when shorter. |
| Payload.AttachmentMimetype | django_mailjet/backends.py:201-204 | The given mimetype. Without one: the guess from the name when there is a name and a guess; else `application/octet-stream`. |
| Payload.MakeAttachmentFields | django_mailjet/backends.py:182-224 | The attachment dict has exactly `Content-type`, `Filename` (the name, or `''`) and `content`. `content` is 7-bit text that base 64 decodes to the item's bytes. The flag is set exactly for an inline image. |
| Payload.InlineAttachmentFilename | django_mailjet/backends.py:193-195 | An inline image is sent under its Content-ID, with its own content type. |
| Payload.AttachmentListsStep | django_mailjet/backends.py:170-175 | Each further item extends exactly one of the two lists by its dict. |
| Payload.AttachmentPartitionLength | django_mailjet/backends.py:170-175 | The regular and inline lists together have one entry per attachment. |
| Payload.InlineAttachmentListMembers | django_mailjet/backends.py:172-173 | The inline list holds exactly the dicts of the inline images. |
| Payload.RegularAttachmentListMembers | django_mailjet/backends.py:174-175 | The regular list holds exactly the dicts of the other items. |
| Payload.AttachmentFields | django_mailjet/backends.py:163-180 | `Attachments` / `Inline_attachments` are present exactly when their list is non-empty, and hold it. Their lengths sum to the number of attachments. |
| Payload.SerializeSpec | django_mailjet/backends.py:77-86 | The dict as sent carries every field under its own name with its own value, and nothing else. |
| Payload.SerializedPayloadHasNoMessage | django_mailjet/backends.py:77-86 | A built payload has no `message` key. |
| Base64.RfcTestVectors | django_mailjet/backends.py:217 | `Encode` gives the test vectors of section 10 of RFC 4648 up to one group: "", "f", "fo" and "foo". |
| Base64.RfcLongTestVectors | django_mailjet/backends.py:217 | `Encode` gives the longer test vectors of section 10 of RFC 4648: "foob", "fooba" and "foobar". |
| Base64.DecodeEncode | django_mailjet/backends.py:217 | Decoding the base 64 text of any bytes gives them back. |
| Base64.EncodeInjective | django_mailjet/backends.py:217 | Different contents never share an encoding. |
| Base64.Encode | django_mailjet/backends.py:217-222 | The text has 4 characters per started group of 3 octets, all from the alphabet or '=', all 7-bit. |
| Mail.NonEmptyIsEmpty | django_mailjet/backends.py:60 | `message.recipients()` is empty exactly when every address of to, cc and bcc is empty. |
| Backends.MailjetBackend.ParseRecipients | django_mailjet/backends.py:40-56 | The loop builds exactly `RecipientList` of the addresses. |
| Backends.MailjetBackend.BuildStandardMessageDict | django_mailjet/backends.py:101-133 | A fresh dict equal to `StandardDict` of the message. |
| Backends.MailjetBackend.AddTexts | django_mailjet/backends.py:104-108 | Sets `Subject` to the subject exactly when it is non-empty, and `Text-part` to the body likewise. Every other key is left as it was. |
| Backends.MailjetBackend.AddCopies | django_mailjet/backends.py:119-123 | Sets `Cc` to the cc list exactly when the message has one, and `bcc` to the bcc list likewise. Every other key is left as it was. |
| Backends.MailjetBackend.AddHeaders | django_mailjet/backends.py:125-131 | Sets `Headers` to exactly `HeadersOf` the message, or leaves the dict alone when there is none. |
| Backends.MailjetBackend.AddMailjetOptions | django_mailjet/backends.py:135-154 | The loop leaves the dict equal to `WithMailjetOptions` of the old dict. |
| Backends.MailjetBackend.AddAlternatives | django_mailjet/backends.py:156-161 | The search with `break` leaves the dict equal to `WithAlternatives` of the old dict. |
| Backends.MailjetBackend.AddAttachments | django_mailjet/backends.py:163-180 | The loop leaves the dict equal to `WithAttachments` of the old dict. |
| Backends.MailjetBackend.BuildSendPayload | django_mailjet/backends.py:77-86 | A fresh dict equal to `BuildPayload` of the message. |
| Backends.CheckStatus | django_mailjet/backends.py:90-92 | `Ok` exactly for status 200. Otherwise a `MailjetAPIError` without arguments that carries the message, the payload, the response and its status code. |
| Backends.MailjetBackend.PostToMailjet | django_mailjet/backends.py:88-92 | One post of the payload; the result is `CheckStatus` of the response to that post. |
| Backends.ParseResponse | django_mailjet/backends.py:94-99 | The decoded body exactly when it parses. Otherwise a `MailjetAPIError` with "Invalid JSON in Mailjet API response" that carries the message, the payload and the response. |
| Backends.Attempt | django_mailjet/backends.py:64-75 | A posted message is delivered exactly when the status is 200 and the body parses, and it then carries the parsed body. Otherwise it fails with the error of the status check for a status other than 200, else with that of the body's decoding. |
| Backends.StepOf | django_mailjet/backends.py:58-75 | A message is skipped, with no post, exactly when it has no recipients. Otherwise the payload posted is the serialized send dict. The answer to this call then decides the step: delivered exactly for status 200 with a JSON body, carrying that JSON, else failed with the error of the status check or of the body's decoding. |
| Backends.MailjetBackend.Send | django_mailjet/backends.py:58-75 | Posts the step's payload unless it is skipped. Sets `mailjet_response` to the parsed JSON on delivery, else `None`. Returns the error unless `fail_silently`, else whether it was delivered. |
| Backends.MailjetBackend.SendOne | django_mailjet/backends.py:231-233 | One round of the loop takes the run exactly one message further. |
| Backends.MailjetBackend.SendAll | django_mailjet/backends.py:230-235 | The loop ends as the run over the messages does. It fails exactly when the run raises, with that error; otherwise it returns the run's count. It posts the run's payloads and leaves the run's responses on the message objects. |
| Backends.MailjetBackend.SendMessages | django_mailjet/backends.py:226-235 | Returns `RunResult` of the run over the messages. Posts exactly the run's payloads, in order. Leaves on each message object the response of its last send, and other objects unchanged. |
| Backends.RunUpToBound | django_mailjet/backends.py:231-233 | At most one step per message. |
| Backends.RunUpToLength | django_mailjet/backends.py:231-233 | Until an error escapes, every message handled leaves one step. |
| Backends.RunUpToStep | django_mailjet/backends.py:231-233 | Message `k` is sent after the posts of the messages before it, in input order. |
| Backends.RunUpToPosts | django_mailjet/backends.py:230-235 | The posts are the payloads of the non-skipped steps, in order. The count is the number of delivered steps. |
| Backends.RunUpToStops | django_mailjet/backends.py:70-72 | An error escapes exactly when the last step handled failed and `fail_silently` is off. It is that step's error, and without `fail_silently` no earlier step failed. |
| Backends.RunRaisedStays | django_mailjet/backends.py:231-233 | After an escaped error, later messages change nothing. |
| Backends.SilentRunHandlesAll | django_mailjet/backends.py:70-73 | With `fail_silently` every message is handled, nothing is raised, and the count is at most the number of messages. |
| Backends.LoudRunStopsAtFirstFailure | django_mailjet/backends.py:70-72 | Without `fail_silently` the run stops at the first failure. Every earlier message was handled without one, and no later message is attempted. |
| Backends.LoudBatchStopsAtFailure | django_mailjet/backends.py:226-235 | Three messages, the second failing, without `fail_silently`: the second's error escapes after one delivery and two posts. The third is never attempted. |
| Backends.SilentBatchSkipsFailure | django_mailjet/backends.py:226-235 | The same batch with `fail_silently` returns 2, and the failed message's response is `None`. |
| Backends.RunResultBounds | django_mailjet/backends.py:227-235 | `None` exactly for an empty list; otherwise a count of at most the number of messages. |
| Backends.RunOfStepOf | django_mailjet/backends.py:58-75 | With the backend's steps, a handled message is skipped exactly when it has no recipients. Otherwise it posts its serialized send dict. The answer to that post, the call after those of the earlier messages, decides the step: delivered with that answer's JSON, or failed with the error of the status check or of the body's decoding. |
| Backends.ResponsesAfterNext | django_mailjet/backends.py:59-68 | A send assigns its step's response to that object, at every position where the object occurs. |
| Backends.LastAtFound | django_mailjet/backends.py:231 | The last earlier position of an object is found exactly when the object occurs there. |
| Exceptions.NewMailjetAPIError | django_mailjet/exceptions.py:7-16 | The args, message, payload and response are stored as given. `status_code` is set exactly when there is a response, and equals its status code (lines 59-62). |
| Exceptions.Subscript | django_mailjet/exceptions.py:31 | `v[key]` yields a value only for a dict holding the key. Otherwise it raises `KeyError` for a dict and `TypeError` for anything else. |
| Exceptions.JoinStrings | django_mailjet/exceptions.py:32 | `','.join` succeeds exactly when every item is a string, and raises `TypeError` otherwise. |
| Exceptions.DescribeSendShape | django_mailjet/exceptions.py:26-39 | `None` exactly without a payload; otherwise a text that starts with "Sending a message". |
| Exceptions.DescribeSendWithoutMessage | django_mailjet/exceptions.py:29-39 | A payload without `message` is described by exactly "Sending a message". |
| Exceptions.DescribeSendFull | django_mailjet/exceptions.py:29-39 | With well-formed `to` and `from_email`, the text is "Sending a message to " + the emails joined by ',' + " from " + the sender. |
| Exceptions.MissingEmailDropsRecipients | django_mailjet/exceptions.py:30-38 | For any `to` list, a `KeyError` from an item lacking `email` after items that have one drops just the " to ..." part. The " from ..." part is there exactly when `from_email` is, with its value. |
| Exceptions.DescribeSendAddsSender | django_mailjet/exceptions.py:30-38 | For any payload whose `to` lookup does not raise `TypeError`, adding `from_email` appends " from " and the sender to the description before it was added. This holds whether the recipients were listed or dropped. |
| Exceptions.NonIterableRecipientsRaise | django_mailjet/exceptions.py:30-34 | Some `to` values make `describe_send` raise `TypeError`, which is not caught. These are a `to` that cannot be iterated (`None`, a bool, an int), and a non-empty string or dict, whose items are strings. |
| Exceptions.DescribeResponseShape | django_mailjet/exceptions.py:41-54 | `None` exactly without a response; otherwise the status line "Mailjet API response <code>: <reason>", whose number reads back as the status code. It is followed by "\n" + the pretty-printed JSON, else " " + the text, else nothing. |
| Exceptions.DecimalRoundTrip | django_mailjet/exceptions.py:44 | `%d` prints the status code so that it reads back as the same number. |
| Exceptions.ErrorStringOfBackendError | django_mailjet/exceptions.py:18-24 | For an error the backend raises on its own payload: the space-joined args when non-empty, then "Sending a message", then the response description, joined by newlines in that order. |
| Exceptions.Present | django_mailjet/exceptions.py:24 | `filter(None, parts)` keeps only non-empty strings, at most one per part. |
| Exceptions.PresentAppend | django_mailjet/exceptions.py:24 | Filtering a concatenation gives the filtered parts in the same order. |
| Exceptions.PresentOne | django_mailjet/exceptions.py:24 | One part is kept exactly when it is a non-empty string. |
| Exceptions.PresentMembers | django_mailjet/exceptions.py:24 | A string is kept exactly when it is non-empty and one of the parts. |

## Left out

- Construction of the backend (backends.py:22-32): the settings lookup, `ImproperlyConfigured` and the building of the Mailjet `Client` are framework configuration. The model's constructor takes `fail_silently`, the helpers and the client as given.
- `open` and `close` (backends.py:34-38) do nothing and are not modelled.
- The HTTP call `client.send.create` is not executed in the model. `Client.respond(n, data)` is an open function giving the response to the `n`-th post. So the model covers every sequence of answers, but not the transport, timeouts or authentication.
- `sanitize_address`, `parseaddr`, `mimetypes.guess_type`, `str.encode`, `json.dumps` and `str()` are parameters whose behaviour is left open (`Foreign.Helpers`). The model does not check the extension-to-type mapping of `guess_type`.
- The Python 2 `unicode` branch of `_make_attachment` (backends.py:206-211): only the Python 3 branch (a `str` content is encoded) is modelled.
- The multiple inheritance of `MailjetAPIError` from `requests.HTTPError` (exceptions.py:2, 11-14, 57), and the `response` keyword that `HTTPError` also receives, are not modelled. The error is a tagged datatype with the same fields.
- Any exception other than `MailjetError` is not modelled. Examples: a `TypeError` from a malformed message attribute; an exception other than `ValueError` from `response.json()` in `parse_response` (backends.py:94-97 catches only `ValueError`), which escapes `_send` raw; an `AttributeError` on `status_code` or `reason` in `describe_response` (exceptions.py:44). In `describe_send` only `KeyError` and `TypeError` are modelled.
- The order of dict iteration is not modelled: dicts are maps, and the serialized payload is a map from key to value.
- Floating-point JSON values are not modelled.
- A MIME part whose `get_payload(decode=True)` returns `None` is not modelled: a MIME part's payload is always bytes.
- `send_messages(None)` is not modelled: the messages are a Dafny sequence, and the empty sequence stands for every falsy input.
- Backends.MailjetBackend.SendMessages: it states the count and the error through `Run`. It does not state the count that a caller could observe after a raise, which the source does not return.
- The integration test (tests/test_mailjet_integration.py), `setup.py` and `runtests.py` are not part of this model.

The code has no error of its own for an address it cannot parse. It posts
whatever `parseaddr` returns. It raises `MailjetAPIError` both for a non-200
status and for a body that is not JSON, and the two differ only in their
arguments (`CheckStatus`, `ParseResponse`). `send_messages` returns `None` for
an empty list, and so does the model (`RunResult`).

## Findings

| source | as written | input that shows it | evidently intended | confidence | as-written member | corrected member |
|---|---|---|---|---|---|---|
| django_mailjet/backends.py:45 | `to_email, to_name = parseaddr(...)`. `parseaddr` returns `(realname, address)`, so a named address is sent with the display name as `Email` and the address as `Name`. | the "to" address `Jane Doe <jane@example.com>`, parsed as `("Jane Doe", "jane@example.com")` | `{'Email': 'jane@example.com', 'Name': 'Jane Doe'}`, the order the sender code uses at line 111 | high; not executed | Payload.NamedRecipientIsSwapped | Payload.IntendedRecipientEntryFields |

The rest of the model keeps the code as written (`Payload.RecipientEntry`),
because that is what the backend sends. `Payload.IntendedRecipientEntry` is
the corrected definition, and its fields are proved.
