/** The exceptions of django_mailjet/exceptions.py: `MailjetError`, which
    carries the message, the send payload and the HTTP response involved,
    and its subclass `MailjetAPIError`, which also copies the response's
    status code. `ErrorString` is their `__str__`. */
module Exceptions {
  import opened Values
  import opened Mail
  import opened Foreign

  /** The two exception classes. The `args` are the positional arguments,
      all strings where the backend raises them. */
  datatype MailjetError =
    | MailjetError(args: seq<string>, emailMessage: Option<EmailMessage>,
                   payload: Option<JsonObject>, response: Option<Response>)
    | MailjetAPIError(args: seq<string>, emailMessage: Option<EmailMessage>,
                      payload: Option<JsonObject>, response: Option<Response>,
                      /** the `status_code` attribute; `None` when it is not set */
                      statusCode: Option<int>)

  /** `MailjetAPIError(*args, email_message=..., payload=..., response=...)`. */
  function NewMailjetAPIError(args: seq<string>, emailMessage: Option<EmailMessage>,
                              payload: Option<JsonObject>, response: Option<Response>): (e: MailjetError)
    ensures e.MailjetAPIError?
    ensures e.args == args && e.emailMessage == emailMessage && e.payload == payload && e.response == response
    ensures e.statusCode.Some? <==> response.Some?
    ensures response.Some? ==> e.statusCode.value == response.value.statusCode
  {
    MailjetAPIError(args, emailMessage, payload, response,
      if response.Some? then Some(response.value.statusCode) else None)
  }

  // ---------------------------------------------------------------------
  // Python evaluation outcomes
  // ---------------------------------------------------------------------

  /** The Python exceptions an expression of `describe_send` can raise. */
  datatype PyException = KeyError | TypeError

  /** An expression that yields a value or raises. */
  datatype Py<+T> = Return(value: T) | Raise(exc: PyException)

  /** `v[key]` for a string key: a dict looks the key up, anything else
      cannot be subscripted by a string. */
  function Subscript(v: Value, key: string): (r: Py<Value>)
    ensures r.Return? <==> v.Dict? && key in v.entries
    ensures r.Return? ==> r.value == v.entries[key]
    ensures r.Raise? ==> (r.exc == KeyError <==> v.Dict?)
  {
    match v
    case Dict(e) => if key in e then Return(e[key]) else Raise(KeyError)
    case _ => Raise(TypeError)
  }

  /** `payload['message']`. */
  function MessageOf(payload: JsonObject): Py<Value>
  {
    if "message" in payload then Return(payload["message"]) else Raise(KeyError)
  }

  /** `payload['message'][key]`. */
  function MessageField(payload: JsonObject, key: string): Py<Value>
  {
    match MessageOf(payload)
    case Return(msg) => Subscript(msg, key)
    case Raise(x) => Raise(x)
  }

  /** `[to['email'] for to in tos]` over the items of a list, left to
      right: the first item that raises decides the exception. */
  function EmailsOfItems(items: seq<Value>): (r: Py<seq<Value>>)
    ensures r.Return? ==> |r.value| == |items|
  {
    if items == [] then Return([])
    else
      match Subscript(items[0], "email")
      case Raise(x) => Raise(x)
      case Return(v) =>
        match EmailsOfItems(items[1..])
        case Raise(x) => Raise(x)
        case Return(vs) => Return([v] + vs)
  }

  /** `[to['email'] for to in tos]` for any value `tos`. Iterating a dict
      or a string yields strings, which cannot be subscripted by a string,
      so only an empty one gets through; the other scalars are not iterable. */
  function EmailsOf(tos: Value): Py<seq<Value>>
  {
    match tos
    case List(items) => EmailsOfItems(items)
    case Dict(e) => if |e| == 0 then Return([]) else Raise(TypeError)
    case Str(s) => if s == "" then Return([]) else Raise(TypeError)
    case _ => Raise(TypeError)
  }

  /** `','.join(values)`: every value must be a string. */
  function JoinStrings(sep: string, vs: seq<Value>): (r: Py<string>)
    ensures r.Return? <==> forall i :: 0 <= i < |vs| ==> vs[i].Str?
    ensures r.Raise? ==> r.exc == TypeError
  {
    if forall i :: 0 <= i < |vs| ==> vs[i].Str? then Return(Join(sep, StrsOf(vs))) else Raise(TypeError)
  }

  /** The strings of a list of string values. */
  function StrsOf(vs: seq<Value>): (r: seq<string>)
    requires forall i :: 0 <= i < |vs| ==> vs[i].Str?
    ensures |r| == |vs| && forall i :: 0 <= i < |vs| ==> vs[i] == Str(r[i])
  {
    if vs == [] then [] else [vs[0].s] + StrsOf(vs[1..])
  }

  /** `"%s" % v`. */
  function Display(env: Helpers, v: Value): string
  {
    if v.Str? then v.s else env.display(v)
  }

  /** `','.join([to['email'] for to in payload['message']['to']])`. */
  function RecipientsText(payload: JsonObject): Py<string>
  {
    match MessageField(payload, "to")
    case Raise(x) => Raise(x)
    case Return(tos) =>
      match EmailsOf(tos)
      case Raise(x) => Raise(x)
      case Return(vs) => JoinStrings(",", vs)
  }

  /** `describe_send`: `None` without a payload; otherwise "Sending a
      message", then " to " and the recipients, then " from " and the
      sender, each part skipped when a key is missing. A `TypeError` is not
      caught and escapes. */
  function DescribeSend(env: Helpers, payload: Option<JsonObject>): Py<Option<string>>
  {
    match payload
    case None => Return(None)
    case Some(p) =>
      var description := "Sending a message";
      match RecipientsText(p)
      case Raise(TypeError) => Raise(TypeError)
      case r =>
        var description := if r.Return? then description + " to " + r.value else description;
        match MessageField(p, "from_email")
        case Raise(TypeError) => Raise(TypeError)
        case Raise(KeyError) => Return(Some(description))
        case Return(v) => Return(Some(description + " from " + Display(env, v)))
  }

  // ---------------------------------------------------------------------
  // describe_response
  // ---------------------------------------------------------------------

  /** The decimal digits of a natural number, most significant first. */
  function Digits(n: nat): (r: string)
    ensures |r| > 0
    ensures forall i :: 0 <= i < |r| ==> '0' <= r[i] <= '9'
  {
    if n < 10 then [('0' as int + n) as char]
    else Digits(n / 10) + [('0' as int + n % 10) as char]
  }

  /** `"%d" % i`. */
  function Decimal(i: int): string
  {
    if i < 0 then "-" + Digits(-i) else Digits(i)
  }

  /** The number a string of decimal digits denotes. */
  function DigitsValue(s: string): int
  {
    if s == [] then 0 else DigitsValue(s[..|s| - 1]) * 10 + (s[|s| - 1] as int - '0' as int)
  }

  /** Reads back what `Decimal` printed. */
  function ParseDecimal(s: string): int
  {
    if |s| > 0 && s[0] == '-' then -DigitsValue(s[1..]) else DigitsValue(s)
  }

  lemma {:induction false} DigitsRoundTrip(n: nat)
    ensures DigitsValue(Digits(n)) == n
    decreases n
  {
    if n >= 10 {
      DigitsRoundTrip(n / 10);
      var s := Digits(n);
      assert s[..|s| - 1] == Digits(n / 10);
    }
  }

  /** The status code is printed so that it reads back as the same number. */
  lemma DecimalRoundTrip(i: int)
    ensures ParseDecimal(Decimal(i)) == i
  {
    if i < 0 {
      DigitsRoundTrip(-i);
      assert ("-" + Digits(-i))[1..] == Digits(-i);
    } else {
      DigitsRoundTrip(i);
    }
  }

  /** The first line of `describe_response`. */
  function StatusLine(r: Response): string
  {
    "Mailjet API response " + Decimal(r.statusCode) + ": " + r.reason
  }

  /** `describe_response`: `None` without a response; otherwise the status
      line, then the JSON body pretty-printed on the next line, or when the
      body is not JSON the response text after a space, or nothing more
      when the response has no text. */
  function DescribeResponse(env: Helpers, response: Option<Response>): Option<string>
  {
    match response
    case None => None
    case Some(r) =>
      var description := StatusLine(r);
      match r.body
      case Parsed(json) => Some(description + "\n" + env.dumps(json))
      case NotJson =>
        match r.text
        case Some(t) => Some(description + " " + t)
        case None => Some(description)
  }

  // ---------------------------------------------------------------------
  // __str__
  // ---------------------------------------------------------------------

  /** `filter(None, parts)`: the parts that are neither `None` nor empty. */
  function Present(parts: seq<Option<string>>): (r: seq<string>)
    ensures forall i :: 0 <= i < |r| ==> r[i] != ""
    ensures |r| <= |parts|
  {
    if parts == [] then []
    else if parts[0].Some? && parts[0].value != "" then [parts[0].value] + Present(parts[1..])
    else Present(parts[1..])
  }

  /** `filter(None, a + b)` is the filter of `a` followed by that of `b`. */
  lemma {:induction false} PresentAppend(a: seq<Option<string>>, b: seq<Option<string>>)
    ensures Present(a + b) == Present(a) + Present(b)
    decreases |a|
  {
    if a == [] {
      assert a + b == b;
    } else {
      PresentAppend(a[1..], b);
      assert (a + b)[1..] == a[1..] + b;
    }
  }

  /** One part is kept exactly when it is a non-empty string. */
  lemma PresentOne(part: Option<string>)
    ensures Present([part]) == if part.Some? && part.value != "" then [part.value] else []
  {
    assert [part][1..] == [];
  }

  /** The kept strings are exactly the non-empty strings among the parts. */
  lemma {:induction false} PresentMembers(parts: seq<Option<string>>)
    ensures forall t :: t in Present(parts) <==> t != "" && Some(t) in parts
    decreases |parts|
  {
    if parts != [] {
      PresentMembers(parts[1..]);
      assert parts == [parts[0]] + parts[1..];
    }
  }

  /** `str(error)`: the arguments joined by spaces, the send description and
      the response description, the present ones joined by newlines. It
      raises when `describe_send` does. */
  function ErrorString(env: Helpers, e: MailjetError): Py<string>
  {
    match DescribeSend(env, e.payload)
    case Raise(x) => Raise(x)
    case Return(send) =>
      Return(Join("\n", Present([Some(Join(" ", e.args)), send, DescribeResponse(env, e.response)])))
  }

  // ---------------------------------------------------------------------
  // Properties
  // ---------------------------------------------------------------------

  /** `describe_send` gives `None` exactly when there is no payload, and
      otherwise a text starting with "Sending a message". */
  lemma DescribeSendShape(env: Helpers, payload: Option<JsonObject>)
    ensures DescribeSend(env, payload) == Return(None) <==> payload.None?
    ensures DescribeSend(env, payload).Return? && payload.Some? ==>
      DescribeSend(env, payload).value.Some?
      && |DescribeSend(env, payload).value.value| >= 17
      && DescribeSend(env, payload).value.value[..17] == "Sending a message"
  {
    if payload.Some? {
      var d := DescribeSend(env, payload);
      if d.Return? {
        assert d.value.Some?;
        var s := d.value.value;
        assert s[..17] == "Sending a message";
      }
    }
  }

  /** A payload without a `message` key is described by the bare "Sending a message". */
  lemma DescribeSendWithoutMessage(env: Helpers, p: JsonObject)
    requires "message" !in p
    ensures DescribeSend(env, Some(p)) == Return(Some("Sending a message"))
  {
  }

  /** With a `message` dict whose `to` is a list of dicts carrying string
      emails, and a string `from_email`, the description names them all. */
  lemma DescribeSendFull(env: Helpers, p: JsonObject, emails: seq<string>, from: string)
    requires "message" in p && p["message"].Dict?
    requires "to" in p["message"].entries && "from_email" in p["message"].entries
    requires p["message"].entries["from_email"] == Str(from)
    requires p["message"].entries["to"].List?
    requires |p["message"].entries["to"].items| == |emails|
    requires forall i :: 0 <= i < |emails| ==>
      var to := p["message"].entries["to"].items[i]; to.Dict? && "email" in to.entries && to.entries["email"] == Str(emails[i])
    ensures DescribeSend(env, Some(p)) == Return(Some("Sending a message" + " to " + Join(",", emails) + " from " + from))
  {
    var items := p["message"].entries["to"].items;
    EmailsOfItemsAll(items, emails);
    var vs := EmailsOfItems(items).value;
    var strs := StrsOf(vs);
    assert strs == emails;
    assert EmailsOf(p["message"].entries["to"]) == Return(vs);
    assert RecipientsText(p) == Return(Join(",", emails));
    assert MessageField(p, "from_email") == Return(Str(from));
    assert Display(env, Str(from)) == from;
  }

  lemma {:induction false} EmailsOfItemsAll(items: seq<Value>, emails: seq<string>)
    requires |items| == |emails|
    requires forall i :: 0 <= i < |emails| ==>
      items[i].Dict? && "email" in items[i].entries && items[i].entries["email"] == Str(emails[i])
    ensures EmailsOfItems(items).Return?
    ensures forall i :: 0 <= i < |emails| ==> EmailsOfItems(items).value[i] == Str(emails[i])
    decreases |items|
  {
    if items != [] {
      EmailsOfItemsAll(items[1..], emails[1..]);
      var vs := EmailsOfItems(items[1..]).value;
      assert EmailsOfItems(items).value == [Str(emails[0])] + vs;
    }
  }

  /** `[to['email'] for to in tos]` raises `KeyError` when item `k` is a
      dict without `email` and every item before it is a dict with one. */
  lemma {:induction false} EmailsOfItemsMissing(items: seq<Value>, k: nat)
    requires k < |items| && items[k].Dict? && "email" !in items[k].entries
    requires forall j :: 0 <= j < k ==> items[j].Dict? && "email" in items[j].entries
    ensures EmailsOfItems(items) == Raise(KeyError)
    decreases k
  {
    if k > 0 {
      var rest := items[1..];
      assert forall j :: 0 <= j < k - 1 ==> rest[j] == items[j + 1];
      EmailsOfItemsMissing(rest, k - 1);
    }
  }

  /** A `to` item without `email`, after items that all have one, drops
      just the " to ..." part: the " from ..." part is there exactly when
      `from_email` is. */
  lemma MissingEmailDropsRecipients(env: Helpers, p: JsonObject, k: nat)
    requires "message" in p && p["message"].Dict? && "to" in p["message"].entries
    requires p["message"].entries["to"].List?
    requires var items := p["message"].entries["to"].items;
      && k < |items| && items[k].Dict? && "email" !in items[k].entries
      && forall j :: 0 <= j < k ==> items[j].Dict? && "email" in items[j].entries
    ensures var m := p["message"].entries;
      DescribeSend(env, Some(p)) == Return(Some(
        if "from_email" in m then "Sending a message" + " from " + Display(env, m["from_email"])
        else "Sending a message"))
  {
    EmailsOfItemsMissing(p["message"].entries["to"].items, k);
    assert RecipientsText(p) == Raise(KeyError);
  }

  /** The " from ..." part does not depend on the " to ..." part: adding
      `from_email` to a message that lacks it appends " from " and the
      sender to whatever the description was, whether the recipients were
      listed or their lookup failed with a `KeyError`. */
  lemma DescribeSendAddsSender(env: Helpers, p: JsonObject, v: Value)
    requires "message" in p && p["message"].Dict? && "from_email" !in p["message"].entries
    requires RecipientsText(p) != Raise(TypeError)
    ensures var q := p["message" := Dict(p["message"].entries["from_email" := v])];
      && DescribeSend(env, Some(p)).Return?
      && DescribeSend(env, Some(q)) == Return(Some(DescribeSend(env, Some(p)).value.value + " from " + Display(env, v)))
  {
    var q := p["message" := Dict(p["message"].entries["from_email" := v])];
    assert MessageField(q, "to") == MessageField(p, "to");
    assert RecipientsText(q) == RecipientsText(p);
    assert MessageField(q, "from_email") == Return(v);
  }

  /** A `to` that cannot be iterated (`None`, a bool, an int), or a
      non-empty string or dict, whose items are strings that cannot be
      subscripted by a string, makes `describe_send` raise `TypeError`,
      which escapes. */
  lemma NonIterableRecipientsRaise(env: Helpers, p: JsonObject)
    requires "message" in p && p["message"].Dict? && "to" in p["message"].entries
    requires var to := p["message"].entries["to"];
      to.Null? || to.Bool? || to.Int? || (to.Str? && to.s != "") || (to.Dict? && |to.entries| > 0)
    ensures DescribeSend(env, Some(p)) == Raise(TypeError)
  {
  }

  /** `describe_response` gives `None` exactly when there is no response;
      otherwise it starts with the status line, whose number reads back as
      the status code, and goes on as the body dictates. */
  lemma DescribeResponseShape(env: Helpers, response: Option<Response>)
    ensures DescribeResponse(env, response).None? <==> response.None?
    ensures response.Some? ==>
      var r := response.value; var d := DescribeResponse(env, response).value; var line := StatusLine(r);
      && ParseDecimal(Decimal(r.statusCode)) == r.statusCode
      && |line| <= |d| && d[..|line|] == line
      && (r.body.Parsed? ==> d == line + "\n" + env.dumps(r.body.json))
      && (r.body.NotJson? && r.text.Some? ==> d == line + " " + r.text.value)
      && (r.body.NotJson? && r.text.None? ==> d == line)
  {
    if response.Some? {
      DecimalRoundTrip(response.value.statusCode);
      var line := StatusLine(response.value);
      var d := DescribeResponse(env, response).value;
      assert d[..|line|] == line;
    }
  }

  /** What `str(error)` shows for an error raised by the backend on one of
      its own payloads (which has no `message` key): the arguments, then
      "Sending a message", then the response description. */
  lemma ErrorStringOfBackendError(env: Helpers, args: seq<string>, m: EmailMessage, p: JsonObject, r: Response)
    requires "message" !in p
    ensures var e := NewMailjetAPIError(args, Some(m), Some(p), Some(r));
      ErrorString(env, e) == Return(
        (if Join(" ", args) == "" then "" else Join(" ", args) + "\n")
        + "Sending a message\n" + DescribeResponse(env, Some(r)).value)
  {
    var e := NewMailjetAPIError(args, Some(m), Some(p), Some(r));
    DescribeSendWithoutMessage(env, p);
    var dr := DescribeResponse(env, Some(r)).value;
    assert dr != "" by {
      DescribeResponseShape(env, Some(r));
      assert |StatusLine(r)| > 0;
    }
    var a := Join(" ", args);
    var parts := [Some(a), Some("Sending a message"), Some(dr)];
    assert parts[1..] == [Some("Sending a message"), Some(dr)];
    assert parts[1..][1..] == [Some(dr)];
    assert Present([Some(dr)]) == [dr];
    assert Present(parts[1..]) == ["Sending a message", dr];
    assert ErrorString(env, e) == Return(Join("\n", Present(parts)));
    assert "Sending a message\n" == "Sending a message" + "\n";
    assert Join("\n", ["Sending a message", dr]) == "Sending a message" + "\n" + dr;
    if a == "" {
      assert Present(parts) == ["Sending a message", dr];
      assert "" + "Sending a message\n" + dr == "Sending a message" + "\n" + dr;
    } else {
      assert Present(parts) == [a] + ["Sending a message", dr];
      assert [a] + ["Sending a message", dr] == [a, "Sending a message", dr];
      assert Join("\n", [a, "Sending a message", dr]) == a + "\n" + Join("\n", ["Sending a message", dr]);
      assert a + "\n" + ("Sending a message" + "\n" + dr) == a + "\n" + "Sending a message\n" + dr;
    }
  }
}
