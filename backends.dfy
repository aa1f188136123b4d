/** `MailjetBackend` of django_mailjet/backends.py: it builds the send dict
    of a message step by step, posts it with the Mailjet client, and turns
    failures into `MailjetError`s that are raised or, when the backend
    fails silently, swallowed. Each step is proved to compute what module
    Payload specifies; `Run` specifies a whole `send_messages` call. */
module Backends {
  import opened Values
  import opened Mail
  import opened Foreign
  import opened Payload
  import opened Exceptions

  /** The dict `msg_dict` that the helper methods fill in place. */
  class MsgDict {
    var entries: Fields

    constructor ()
      ensures entries == map[]
    {
      entries := map[];
    }

    /** `msg_dict[f] = v`. */
    method Set(f: Field, v: Value)
      modifies this
      ensures entries == old(entries)[f := v]
    {
      entries := entries[f := v];
    }
  }

  /** The Mailjet client. What the API answers is left open: `respond(n, data)`
      is the response to the `n`-th post (counting from 0) of `data`. */
  class Client {
    const respond: (nat, JsonObject) -> Response
    /** every payload posted so far, in order */
    var posted: seq<JsonObject>

    constructor (respond: (nat, JsonObject) -> Response)
      ensures this.respond == respond && posted == []
    {
      this.respond := respond;
      posted := [];
    }

    /** `client.send.create(data=data)`. */
    method Create(data: JsonObject) returns (r: Response)
      modifies this
      ensures posted == old(posted) + [data]
      ensures r == respond(|old(posted)|, data)
    {
      r := respond(|posted|, data);
      posted := posted + [data];
    }
  }

  /** A message object; `send` sets its `mailjet_response` attribute. */
  class Message {
    const email: EmailMessage
    var mailjetResponse: Option<Value>

    constructor (email: EmailMessage)
      ensures this.email == email && mailjetResponse == None
    {
      this.email := email;
      mailjetResponse := None;
    }
  }

  // ---------------------------------------------------------------------
  // Specification of one send and of send_messages
  // ---------------------------------------------------------------------

  /** `post_to_mailjet` once the response is known: any status other than
      200 is a `MailjetAPIError` without arguments. */
  function CheckStatus(response: Response, payload: JsonObject, m: EmailMessage): (r: Result<Response, MailjetError>)
    ensures r.Ok? <==> response.statusCode == 200
    ensures r.Ok? ==> r.value == response
    ensures r.Err? ==>
      && r.error.MailjetAPIError? && r.error.args == [] && r.error.statusCode == Some(response.statusCode)
      && r.error.payload == Some(payload) && r.error.emailMessage == Some(m) && r.error.response == Some(response)
  {
    if response.statusCode != 200 then Err(NewMailjetAPIError([], Some(m), Some(payload), Some(response)))
    else Ok(response)
  }

  const INVALID_JSON: string := "Invalid JSON in Mailjet API response"

  /** `parse_response`: the decoded body, or a `MailjetAPIError` when the body is not JSON. */
  function ParseResponse(response: Response, payload: JsonObject, m: EmailMessage): (r: Result<Value, MailjetError>)
    ensures r.Ok? <==> response.body.Parsed?
    ensures r.Ok? ==> r.value == response.body.json
    ensures r.Err? ==>
      && r.error.MailjetAPIError? && r.error.args == [INVALID_JSON]
      && r.error.statusCode == Some(response.statusCode)
      && r.error.payload == Some(payload) && r.error.emailMessage == Some(m) && r.error.response == Some(response)
  {
    match response.body
    case Parsed(json) => Ok(json)
    case NotJson => Err(NewMailjetAPIError([INVALID_JSON], Some(m), Some(payload), Some(response)))
  }

  /** The send dict as posted. */
  function PostedPayload(env: Helpers, m: EmailMessage): JsonObject
  {
    Serialize(BuildPayload(env, m))
  }

  /** What happened to one message of `send_messages`. */
  datatype Step =
    | Skipped                                      // no recipients: nothing posted, `_send` returns False
    | Delivered(posted: JsonObject, json: Value)   // posted and answered with JSON: `_send` returns True
    | Failed(posted: JsonObject, error: MailjetError)  // posted, and a MailjetError was raised

  /** The outcome of posting `payload` for `m` when the API answers
      `response`: delivered with the decoded body, or failed with the error
      of the status check, else of the body's decoding. */
  function Attempt(m: EmailMessage, payload: JsonObject, response: Response): (r: Step)
    ensures !r.Skipped? && r.posted == payload
    ensures r.Delivered? <==> response.statusCode == 200 && response.body.Parsed?
    ensures r.Delivered? ==> r.json == response.body.json
    ensures r.Failed? ==> r.error == if response.statusCode != 200 then CheckStatus(response, payload, m).error
                                     else ParseResponse(response, payload, m).error
  {
    match CheckStatus(response, payload, m)
    case Err(e) => Failed(payload, e)
    case Ok(resp) =>
      match ParseResponse(resp, payload, m)
      case Err(e) => Failed(payload, e)
      case Ok(json) => Delivered(payload, json)
  }

  /** A step that is not skipped is decided by `resp`, the answer to its post:
      delivered exactly for status 200 with a JSON body, carrying that JSON,
      and otherwise failed with the error of the status check or, after a
      200, of the body's decoding. */
  predicate TakesAnswer(st: Step, m: EmailMessage, resp: Response)
  {
    !st.Skipped? ==>
      && (st.Delivered? <==> resp.statusCode == 200 && resp.body.Parsed?)
      && (st.Delivered? ==> st.json == resp.body.json)
      && (st.Failed? ==> st.error == if resp.statusCode != 200 then CheckStatus(resp, st.posted, m).error
                                     else ParseResponse(resp, st.posted, m).error)
  }

  /** The step of message `m` when the client has already been called
      `calls` times: unless it is skipped, the answer to this call decides
      it. */
  function StepOf(env: Helpers, respond: (nat, JsonObject) -> Response, calls: nat, m: EmailMessage): (r: Step)
    ensures r.Skipped? <==> RecipientAddresses(m) == []
    ensures !r.Skipped? ==> r.posted == PostedPayload(env, m)
    ensures TakesAnswer(r, m, respond(calls, PostedPayload(env, m)))
  {
    if RecipientAddresses(m) == [] then Skipped
    else
      var payload := PostedPayload(env, m);
      Attempt(m, payload, respond(calls, payload))
  }

  /** `message.mailjet_response` after `_send`. A JSON body that is `null`
      gives `Some(Null)`, which is the same Python value, `None`, as the
      `None` of a skipped or failed message. */
  function ResponseAttr(s: Step): Option<Value>
  {
    if s.Delivered? then Some(s.json) else None
  }

  /** The state of `send_messages` after a prefix of the messages: the
      count, the payloads posted, the step of each message handled, and the
      error that escaped, if one did. */
  datatype RunState = RunState(sent: nat, posts: seq<JsonObject>, steps: seq<Step>, raised: Option<MailjetError>)

  /** `send_messages` over `ms`, where `step(n, m)` is what `_send` does
      with `m` once the client has been called `n` times in all, and the
      client had been called `calls` times before. */
  function Run(step: (nat, EmailMessage) -> Step, failSilently: bool, calls: nat, ms: seq<EmailMessage>): (r: RunState)
    ensures |r.steps| <= |ms|
  {
    RunUpToBound(step, failSilently, calls, ms, |ms|);
    RunUpTo(step, failSilently, calls, ms, |ms|)
  }

  /** The state after the first `n` messages of `ms`: the loop stops at the first raised error. */
  function RunUpTo(step: (nat, EmailMessage) -> Step, failSilently: bool, calls: nat, ms: seq<EmailMessage>, n: nat): (r: RunState)
    requires n <= |ms|
  {
    if n == 0 then RunState(0, [], [], None)
    else
      var s := RunUpTo(step, failSilently, calls, ms, n - 1);
      if s.raised.Some? then s
      else Next(step, failSilently, calls, s, ms[n - 1])
  }

  /** At most one step per message. */
  lemma {:induction false} RunUpToBound(step: (nat, EmailMessage) -> Step, failSilently: bool, calls: nat,
                                        ms: seq<EmailMessage>, n: nat)
    requires n <= |ms|
    ensures |RunUpTo(step, failSilently, calls, ms, n).steps| <= n
  {
    if n > 0 {
      RunUpToBound(step, failSilently, calls, ms, n - 1);
    }
  }

  /** One more message after state `s`. */
  function Next(step: (nat, EmailMessage) -> Step, failSilently: bool, calls: nat, s: RunState, m: EmailMessage): RunState
  {
    var st := step(calls + |s.posts|, m);
    RunState(
      if st.Delivered? then s.sent + 1 else s.sent,
      if st.Skipped? then s.posts else s.posts + [st.posted],
      s.steps + [st],
      if st.Failed? && !failSilently then Some(st.error) else None)
  }

  /** What `send_messages` returns: `None` for no messages, the count, or the error it raises. */
  function RunResult(ms: seq<EmailMessage>, s: RunState): Result<Option<nat>, MailjetError>
  {
    if s.raised.Some? then Err(s.raised.value)
    else if ms == [] then Ok(None)
    else Ok(Some(s.sent))
  }

  function Emails(msgs: seq<Message>): (r: seq<EmailMessage>)
    ensures |r| == |msgs| && forall i :: 0 <= i < |msgs| ==> r[i] == msgs[i].email
  {
    seq(|msgs|, i requires 0 <= i < |msgs| => msgs[i].email)
  }

  /** The last position before `n` at which `x` occurs in `objs`, or -1. */
  function LastAt(objs: seq<Message>, n: nat, x: Message): (r: int)
    requires n <= |objs|
    ensures -1 <= r < n
  {
    if n == 0 then -1 else if objs[n - 1] == x then n - 1 else LastAt(objs, n - 1, x)
  }

  /** `LastAt` finds `x` whenever it occurs before `n`. */
  lemma {:induction false} LastAtFound(objs: seq<Message>, n: nat, x: Message)
    requires n <= |objs|
    ensures var r := LastAt(objs, n, x); r >= 0 <==> x in objs[..n]
    ensures var r := LastAt(objs, n, x); r >= 0 ==> objs[r] == x
    ensures var r := LastAt(objs, n, x); forall j :: r < j < n ==> objs[j] != x
  {
    if n > 0 && objs[n - 1] != x {
      LastAtFound(objs, n - 1, x);
      assert objs[..n] == objs[..n - 1] + [objs[n - 1]];
    }
  }

  /** The `mailjet_response` attribute of each message. */
  function Responses(msgs: seq<Message>): (r: seq<Option<Value>>)
    reads msgs
    ensures |r| == |msgs| && forall j :: 0 <= j < |msgs| ==> r[j] == msgs[j].mailjetResponse
  {
    if msgs == [] then [] else Responses(msgs[..|msgs| - 1]) + [msgs[|msgs| - 1].mailjetResponse]
  }

  /** The `mailjet_response` of each of `msgs` once the first `|steps|` of
      them have been sent with those steps: what the last `_send` of the
      same object left, or `orig[j]` for an object not sent yet. */
  function ResponsesAfter(msgs: seq<Message>, steps: seq<Step>, orig: seq<Option<Value>>): (r: seq<Option<Value>>)
    requires |steps| <= |msgs| == |orig|
    ensures |r| == |msgs|
  {
    seq(|msgs|, j requires 0 <= j < |msgs| =>
      var k := LastAt(msgs, |steps|, msgs[j]);
      if k >= 0 then ResponseAttr(steps[k]) else orig[j])
  }

  /** The attributes `rs` of `msgs` after `x.mailjet_response = v`: every
      position holding the object `x` changes. */
  function Assign(msgs: seq<Message>, rs: seq<Option<Value>>, x: Message, v: Option<Value>): (r: seq<Option<Value>>)
    requires |rs| == |msgs|
    ensures |r| == |msgs|
  {
    seq(|msgs|, j requires 0 <= j < |msgs| => if msgs[j] == x then v else rs[j])
  }

  /** Sending the next message assigns its step's response to that object,
      wherever else it occurs in the list. */
  lemma ResponsesAfterNext(msgs: seq<Message>, steps: seq<Step>, st: Step, orig: seq<Option<Value>>)
    requires |steps| < |msgs| == |orig|
    ensures ResponsesAfter(msgs, steps + [st], orig)
         == Assign(msgs, ResponsesAfter(msgs, steps, orig), msgs[|steps|], ResponseAttr(st))
  {
    var i := |steps|;
    forall j | 0 <= j < |msgs|
      ensures ResponsesAfter(msgs, steps + [st], orig)[j]
           == Assign(msgs, ResponsesAfter(msgs, steps, orig), msgs[i], ResponseAttr(st))[j]
    {
      if msgs[j] != msgs[i] {
        var k := LastAt(msgs, i, msgs[j]);
        assert LastAt(msgs, i + 1, msgs[j]) == k;
        if k >= 0 {
          assert (steps + [st])[k] == steps[k];
        }
      }
    }
  }

  /** Before any message is sent every attribute is as it was. */
  lemma ResponsesAfterNone(msgs: seq<Message>, orig: seq<Option<Value>>)
    requires |msgs| == |orig|
    ensures ResponsesAfter(msgs, [], orig) == orig
  {
    forall j | 0 <= j < |msgs|
      ensures ResponsesAfter(msgs, [], orig)[j] == orig[j]
    {
      assert LastAt(msgs, 0, msgs[j]) == -1;
    }
  }

  /** The next state in terms of the step taken. */
  lemma NextFields(step: (nat, EmailMessage) -> Step, failSilently: bool, calls: nat, s: RunState, m: EmailMessage, n: nat)
    requires n == calls + |s.posts|
    ensures var s' := Next(step, failSilently, calls, s, m);
      var st := step(n, m);
      && s'.sent == (if st.Delivered? then s.sent + 1 else s.sent)
      && s'.posts == s.posts + (if st.Skipped? then [] else [st.posted])
      && s'.steps == s.steps + [st]
      && (s'.raised.Some? <==> st.Failed? && !failSilently)
  {
  }

  lemma AppendAssoc<T>(a: seq<T>, b: seq<T>, c: seq<T>)
    ensures (a + b) + c == a + (b + c)
  {
  }

  /** Once an error has escaped, the later messages change nothing. */
  lemma {:induction false} RunRaisedStays(step: (nat, EmailMessage) -> Step, failSilently: bool, calls: nat,
                                          ms: seq<EmailMessage>, n: nat, n': nat)
    requires n <= n' <= |ms|
    requires RunUpTo(step, failSilently, calls, ms, n).raised.Some?
    ensures var s, s' := RunUpTo(step, failSilently, calls, ms, n), RunUpTo(step, failSilently, calls, ms, n');
      s'.raised == s.raised && s'.posts == s.posts && s'.sent == s.sent && s'.steps == s.steps
    decreases n'
  {
    if n < n' {
      RunRaisedStays(step, failSilently, calls, ms, n, n' - 1);
    }
  }

  /** The payloads posted for `steps`, in order: one per step that was not skipped. */
  function Posted(steps: seq<Step>): (r: seq<JsonObject>)
    ensures |r| <= |steps|
  {
    if steps == [] then []
    else
      var last := steps[|steps| - 1];
      Posted(steps[..|steps| - 1]) + (if last.Skipped? then [] else [last.posted])
  }

  /** How many of `steps` delivered their message. */
  function DeliveredCount(steps: seq<Step>): (r: nat)
    ensures r <= |steps|
  {
    if steps == [] then 0
    else DeliveredCount(steps[..|steps| - 1]) + (if steps[|steps| - 1].Delivered? then 1 else 0)
  }

  /** The posts and the count of a run are the payloads of the steps taken
      and the number of them that delivered. */
  lemma {:induction false} RunUpToPosts(step: (nat, EmailMessage) -> Step, failSilently: bool, calls: nat,
                                        ms: seq<EmailMessage>, n: nat)
    requires n <= |ms|
    ensures var s := RunUpTo(step, failSilently, calls, ms, n);
      s.posts == Posted(s.steps) && s.sent == DeliveredCount(s.steps)
  {
    if n > 0 {
      RunUpToPosts(step, failSilently, calls, ms, n - 1);
      var s := RunUpTo(step, failSilently, calls, ms, n - 1);
      if s.raised.None? {
        NextFields(step, failSilently, calls, s, ms[n - 1], calls + |s.posts|);
        var s' := RunUpTo(step, failSilently, calls, ms, n);
        assert s'.steps[..|s'.steps| - 1] == s.steps;
      }
    }
  }

  /** Message `k`, once handled, took the step `step` gives it when the
      client has been called for every post of the messages before it. */
  lemma {:induction false} RunUpToStep(step: (nat, EmailMessage) -> Step, failSilently: bool, calls: nat,
                                          ms: seq<EmailMessage>, n: nat, k: nat)
    requires k < n <= |ms|
    requires k < |RunUpTo(step, failSilently, calls, ms, n).steps|
    ensures RunUpTo(step, failSilently, calls, ms, n).steps[k]
         == step(calls + |RunUpTo(step, failSilently, calls, ms, k).posts|, ms[k])
  {
    var s := RunUpTo(step, failSilently, calls, ms, n - 1);
    if s.raised.Some? || k < |s.steps| {
      RunUpToKeeps(step, failSilently, calls, ms, n, k);
      RunUpToStep(step, failSilently, calls, ms, n - 1, k);
    } else {
      RunUpToLast(step, failSilently, calls, ms, n, k);
    }
  }

  /** A later message leaves the steps already taken as they were. */
  lemma RunUpToKeeps(step: (nat, EmailMessage) -> Step, failSilently: bool, calls: nat,
                        ms: seq<EmailMessage>, n: nat, k: nat)
    requires 0 < n <= |ms|
    requires var s := RunUpTo(step, failSilently, calls, ms, n - 1); s.raised.Some? || k < |s.steps|
    requires k < |RunUpTo(step, failSilently, calls, ms, n).steps|
    ensures k < n - 1 && k < |RunUpTo(step, failSilently, calls, ms, n - 1).steps|
    ensures RunUpTo(step, failSilently, calls, ms, n).steps[k] == RunUpTo(step, failSilently, calls, ms, n - 1).steps[k]
  {
    var s := RunUpTo(step, failSilently, calls, ms, n - 1);
    RunUpToBound(step, failSilently, calls, ms, n - 1);
    if s.raised.None? {
      NextFields(step, failSilently, calls, s, ms[n - 1], calls + |s.posts|);
    }
  }

  /** A step not among the first `n - 1` messages' is the step of message `n - 1`. */
  lemma RunUpToLast(step: (nat, EmailMessage) -> Step, failSilently: bool, calls: nat,
                    ms: seq<EmailMessage>, n: nat, k: nat)
    requires k < n <= |ms|
    requires var s := RunUpTo(step, failSilently, calls, ms, n - 1); s.raised.None? && k >= |s.steps|
    requires k < |RunUpTo(step, failSilently, calls, ms, n).steps|
    ensures RunUpTo(step, failSilently, calls, ms, n).steps[k]
         == step(calls + |RunUpTo(step, failSilently, calls, ms, k).posts|, ms[k])
  {
    var s := RunUpTo(step, failSilently, calls, ms, n - 1);
    RunUpToLength(step, failSilently, calls, ms, n - 1);
    NextFields(step, failSilently, calls, s, ms[n - 1], calls + |s.posts|);
  }

  /** Until an error escapes, every message handled leaves one step. */
  lemma {:induction false} RunUpToLength(step: (nat, EmailMessage) -> Step, failSilently: bool, calls: nat,
                                         ms: seq<EmailMessage>, n: nat)
    requires n <= |ms|
    ensures var s := RunUpTo(step, failSilently, calls, ms, n); s.raised.None? ==> |s.steps| == n
  {
    if n > 0 {
      RunUpToLength(step, failSilently, calls, ms, n - 1);
      var s := RunUpTo(step, failSilently, calls, ms, n - 1);
      if s.raised.None? {
        NextFields(step, failSilently, calls, s, ms[n - 1], calls + |s.posts|);
      }
    }
  }

  /** The run handles all `n` messages unless an error escaped, which only
      happens without `failSilently`, at the last step handled, and only at
      the first failure. */
  lemma {:induction false} RunUpToStops(step: (nat, EmailMessage) -> Step, failSilently: bool, calls: nat,
                                        ms: seq<EmailMessage>, n: nat)
    requires n <= |ms|
    ensures var s := RunUpTo(step, failSilently, calls, ms, n);
      && (s.raised.Some? <==> |s.steps| > 0 && s.steps[|s.steps| - 1].Failed? && !failSilently)
      && (s.raised.Some? ==> s.raised.value == s.steps[|s.steps| - 1].error)
      && (!failSilently ==> forall k :: 0 <= k < |s.steps| - 1 ==> !s.steps[k].Failed?)
  {
    if n > 0 {
      RunUpToStops(step, failSilently, calls, ms, n - 1);
      var s := RunUpTo(step, failSilently, calls, ms, n - 1);
      if s.raised.None? {
        NextFields(step, failSilently, calls, s, ms[n - 1], calls + |s.posts|);
      }
    }
  }

  /** A run that fails silently handles every message and raises nothing. */
  lemma SilentRunHandlesAll(step: (nat, EmailMessage) -> Step, calls: nat, ms: seq<EmailMessage>)
    ensures var s := Run(step, true, calls, ms);
      s.raised.None? && |s.steps| == |ms| && s.sent <= |ms|
  {
    RunUpToPosts(step, true, calls, ms, |ms|);
    RunUpToLength(step, true, calls, ms, |ms|);
    RunUpToStops(step, true, calls, ms, |ms|);
  }

  /** A run that does not fail silently stops at the first failure: every
      earlier message was handled without one, and no later message is
      handled. */
  lemma LoudRunStopsAtFirstFailure(step: (nat, EmailMessage) -> Step, calls: nat, ms: seq<EmailMessage>)
    ensures var s := Run(step, false, calls, ms);
      && (forall k :: 0 <= k < |s.steps| - 1 ==> !s.steps[k].Failed?)
      && (s.raised.Some? <==> |s.steps| > 0 && s.steps[|s.steps| - 1].Failed?)
      && (s.raised.None? ==> |s.steps| == |ms|)
  {
    RunUpToLength(step, false, calls, ms, |ms|);
    RunUpToStops(step, false, calls, ms, |ms|);
  }

  /** `send_messages` returns `None` only for no messages, and otherwise a
      count of at most the number of messages. */
  lemma RunResultBounds(step: (nat, EmailMessage) -> Step, failSilently: bool, calls: nat, ms: seq<EmailMessage>)
    ensures var r := RunResult(ms, Run(step, failSilently, calls, ms));
      && (r == Ok(None) <==> ms == [])
      && (r.Ok? && r.value.Some? ==> r.value.value <= |ms|)
  {
    RunUpToPosts(step, failSilently, calls, ms, |ms|);
  }

  /** With the backend's steps, a handled message `k` is skipped, and
      nothing posted for it, exactly when it has no recipients. Otherwise
      the posted payload is the serialized send dict of that message, and
      the answer to that post, the call after those of the earlier
      messages, decides whether it was delivered with that answer's JSON
      or failed with the error of the status check or of the body's
      decoding. */
  lemma RunOfStepOf(env: Helpers, respond: (nat, JsonObject) -> Response, step: (nat, EmailMessage) -> Step,
                    failSilently: bool, calls: nat, ms: seq<EmailMessage>, k: nat)
    requires forall n: nat, m: EmailMessage :: step(n, m) == StepOf(env, respond, n, m)
    requires k < |ms|
    ensures k < |Run(step, failSilently, calls, ms).steps| ==>
      var st := Run(step, failSilently, calls, ms).steps[k];
      && (st.Skipped? <==> RecipientAddresses(ms[k]) == [])
      && (!st.Skipped? ==> st.posted == PostedPayload(env, ms[k]))
      && TakesAnswer(st, ms[k], respond(calls + |RunUpTo(step, failSilently, calls, ms, k).posts|, PostedPayload(env, ms[k])))
  {
    if k < |Run(step, failSilently, calls, ms).steps| {
      RunUpToStep(step, failSilently, calls, ms, |ms|, k);
      StepTakesAnswer(env, respond, step, calls + |RunUpTo(step, failSilently, calls, ms, k).posts|, ms[k]);
    }
  }

  /** With the backend's steps, the step at call `n` takes the answer to that call. */
  lemma StepTakesAnswer(env: Helpers, respond: (nat, JsonObject) -> Response, step: (nat, EmailMessage) -> Step,
                        n: nat, m: EmailMessage)
    requires forall n: nat, m: EmailMessage :: step(n, m) == StepOf(env, respond, n, m)
    ensures TakesAnswer(step(n, m), m, respond(n, PostedPayload(env, m)))
  {
  }

  /** Three messages, the second of which fails: without `failSilently`
      the batch raises the second one's error after one delivery and never
      attempts the third. */
  lemma LoudBatchStopsAtFailure(step: (nat, EmailMessage) -> Step, calls: nat, ms: seq<EmailMessage>)
    requires |ms| == 3
    requires step(calls, ms[0]).Delivered? && step(calls + 1, ms[1]).Failed?
    ensures var s := Run(step, false, calls, ms);
      && s.raised == Some(step(calls + 1, ms[1]).error)
      && s.sent == 1 && |s.steps| == 2
      && s.posts == [step(calls, ms[0]).posted, step(calls + 1, ms[1]).posted]
  {
    var s1 := RunUpTo(step, false, calls, ms, 1);
    NextFields(step, false, calls, RunUpTo(step, false, calls, ms, 0), ms[0], calls);
    NextFields(step, false, calls, s1, ms[1], calls + 1);
    RunRaisedStays(step, false, calls, ms, 2, 3);
  }

  /** The same batch with `failSilently` goes on to the third message and
      counts both deliveries; the failed message's response stays `None`. */
  lemma SilentBatchSkipsFailure(step: (nat, EmailMessage) -> Step, calls: nat, ms: seq<EmailMessage>)
    requires |ms| == 3
    requires step(calls, ms[0]).Delivered? && step(calls + 1, ms[1]).Failed? && step(calls + 2, ms[2]).Delivered?
    ensures var s := Run(step, true, calls, ms);
      && s.raised.None? && s.sent == 2 && |s.steps| == 3
      && ResponseAttr(s.steps[1]) == None
      && RunResult(ms, s) == Ok(Some(2))
  {
    var s1 := RunUpTo(step, true, calls, ms, 1);
    var s2 := RunUpTo(step, true, calls, ms, 2);
    NextFields(step, true, calls, RunUpTo(step, true, calls, ms, 0), ms[0], calls);
    NextFields(step, true, calls, s1, ms[1], calls + 1);
    NextFields(step, true, calls, s2, ms[2], calls + 2);
  }

  // ---------------------------------------------------------------------
  // The backend
  // ---------------------------------------------------------------------

  /** Writing a key twice leaves only the second value. */
  lemma UpdateTwice<K, V>(d: map<K, V>, k: K, x: V, y: V)
    ensures d[k := x][k := y] == d[k := y]
  {
  }

  class MailjetBackend {
    const failSilently: bool
    /** the helpers the code imports, and `settings.DEFAULT_CHARSET` */
    const env: Helpers
    const client: Client
    /** what `_send` does with a message once the client has been called `n` times */
    ghost const steps: (nat, EmailMessage) -> Step

    /** `steps` is `StepOf` for this backend's helpers and client. */
    ghost predicate Valid() {
      forall n: nat, m: EmailMessage {:trigger StepOf(env, client.respond, n, m)} ::
        steps(n, m) == StepOf(env, client.respond, n, m)
    }

    constructor (failSilently: bool, env: Helpers, client: Client)
      ensures this.failSilently == failSilently && this.env == env && this.client == client
      ensures Valid()
    {
      this.failSilently := failSilently;
      this.env := env;
      this.client := client;
      this.steps := (n: nat, m: EmailMessage) => StepOf(env, client.respond, n, m);
    }

    /** `_parse_recipients`: one entry per address, in order. */
    method ParseRecipients(m: EmailMessage, recipients: seq<string>) returns (rcpts: seq<Value>)
      ensures rcpts == RecipientList(env, m, recipients)
    {
      rcpts := [];
      var i := 0;
      while i < |recipients|
        invariant 0 <= i <= |recipients|
        invariant rcpts == RecipientList(env, m, recipients[..i])
      {
        var addr := recipients[i];
        var (toEmail, toName) := env.parseaddr(env.sanitizeAddress(addr, m.encoding));
        var rcpt: map<string, Value>;
        if toEmail != "" && toName != "" {
          rcpt := map["Email" := Str(toEmail), "Name" := Str(toName)];
        } else {
          rcpt := map["Email" := Str(toName)];
        }
        if addr in m.recipientVars && Truthy(m.recipientVars[addr]) {
          rcpt := rcpt["Vars" := m.recipientVars[addr]];
        }
        assert recipients[..i + 1][..i] == recipients[..i];
        rcpts := rcpts + [Dict(rcpt)];
        i := i + 1;
      }
      assert recipients[..i] == recipients;
    }

    /** `_build_standart_message_dict`. */
    method BuildStandardMessageDict(m: EmailMessage) returns (d: MsgDict)
      ensures fresh(d)
      ensures d.entries == StandardDict(env, m)
    {
      d := new MsgDict();
      AddTexts(m, d);
      ghost var d1 := d.entries;
      var sender := env.sanitizeAddress(m.fromEmail, m.encoding);
      var (fromName, fromEmail) := env.parseaddr(sender);
      d.Set(FromEmail, Str(fromEmail));
      d.Set(FromName, Str(fromName));
      var rcpts := ParseRecipients(m, m.to);
      d.Set(Recipients, List(rcpts));
      ghost var d2 := d.entries;
      assert d2 == d1[FromEmail := Str(ParsedAddress(env, m, m.fromEmail).1)]
                     [FromName := Str(ParsedAddress(env, m, m.fromEmail).0)]
                     [Recipients := List(RecipientList(env, m, m.to))];
      AddCopies(m, d);
      assert Headers !in d.entries;
      AddHeaders(m, d);
    }

    /** The subject and body part of `_build_standart_message_dict`. */
    method AddTexts(m: EmailMessage, d: MsgDict)
      modifies d
      ensures d.entries == PutIf(PutIf(old(d.entries), |m.subject| != 0, Subject, Str(m.subject)),
                                 |m.body| != 0, TextPart, Str(m.body))
    {
      if |m.subject| != 0 {
        d.Set(Subject, Str(m.subject));
      }
      if |m.body| != 0 {
        d.Set(TextPart, Str(m.body));
      }
    }

    /** The cc and bcc part of `_build_standart_message_dict`. */
    method AddCopies(m: EmailMessage, d: MsgDict)
      modifies d
      ensures d.entries == PutIf(PutIf(old(d.entries), m.cc.Some?, Cc, StrList(m.cc.GetOr([]))),
                                 m.bcc.Some?, Bcc, StrList(m.bcc.GetOr([])))
    {
      if m.cc.Some? {
        d.Set(Cc, StrList(m.cc.value));
      }
      if m.bcc.Some? {
        d.Set(Bcc, StrList(m.bcc.value));
      }
    }

    /** The reply-to and extra headers part of `_build_standart_message_dict`. */
    method AddHeaders(m: EmailMessage, d: MsgDict)
      requires Headers !in d.entries
      modifies d
      ensures d.entries == PutHeaders(old(d.entries), HeadersOf(env, m))
    {
      ghost var base: map<string, Value> := if m.replyTo.Some? then map["Reply-To" := Str(ReplyToValue(env, m))] else map[];
      if m.replyTo.Some? {
        var replyTo := SanitizedAll(env, m.encoding, m.replyTo.value);
        d.Set(Headers, Dict(map["Reply-To" := Str(Join(", ", replyTo))]));
        assert d.entries == old(d.entries)[Headers := Dict(base)];
      }
      if |m.extraHeaders| != 0 {
        var headers: map<string, Value> := if Headers in d.entries then d.entries[Headers].entries else map[];
        assert headers == base;
        ghost var e0 := d.entries;
        assert e0 == old(d.entries) || e0 == old(d.entries)[Headers := Dict(base)];
        d.Set(Headers, Dict(MergeHeaders(headers, m.extraHeaders)));
        ghost var merged := Dict(MergeHeaders(base, m.extraHeaders));
        assert d.entries == e0[Headers := merged];
        UpdateTwice(old(d.entries), Headers, Dict(base), merged);
        assert HeadersOf(env, m) == Some(MergeHeaders(base, m.extraHeaders));
      } else {
        assert HeadersOf(env, m) == if m.replyTo.Some? then Some(base) else None;
      }
    }

    /** `_add_mailjet_options`. */
    method AddMailjetOptions(m: EmailMessage, d: MsgDict)
      modifies d
      ensures d.entries == WithMailjetOptions(m, old(d.entries))
    {
      var table := MailjetAttrTable;
      var i := 0;
      while i < |table|
        invariant 0 <= i <= |table|
        invariant d.entries == OptionsOver(table[..i], m.mailjetAttrs, old(d.entries))
      {
        var attr := table[i];
        if attr in m.mailjetAttrs {
          d.Set(Mj(attr), m.mailjetAttrs[attr]);
        }
        assert table[..i + 1][..i] == table[..i];
        i := i + 1;
      }
      assert table[..i] == table;
      if m.templateVars.Some? {
        d.Set(Vars, m.templateVars.value);
      }
    }

    /** `_add_alternatives`: the first `text/html` alternative becomes `Html-part`. */
    method AddAlternatives(m: EmailMessage, d: MsgDict)
      modifies d
      ensures d.entries == WithAlternatives(m, old(d.entries))
    {
      var alts := m.alternatives;
      var i := 0;
      while i < |alts|
        invariant 0 <= i <= |alts|
        invariant FirstHtml(alts[i..]) == FirstHtml(alts)
        invariant d.entries == old(d.entries)
      {
        var alt := alts[i];
        if alt.mimetype == HTML_MIMETYPE {
          d.Set(HtmlPart, Str(alt.content));
          break;
        }
        assert alts[i..][1..] == alts[i + 1..];
        i := i + 1;
      }
    }

    /** `_add_attachments`: regular items under `Attachments`, inline images
      under `Inline_attachments`, each list only when non-empty. */
    method AddAttachments(m: EmailMessage, d: MsgDict)
      modifies d
      ensures d.entries == WithAttachments(env, m, old(d.entries))
    {
      if |m.attachments| == 0 {
        assert RegularAttachmentList(env, AttachmentCharset(env, m), m.attachments) == [];
        assert InlineAttachmentList(env, AttachmentCharset(env, m), m.attachments) == [];
        return;
      }
      var strEncoding := if m.encoding.Some? && m.encoding.value != "" then m.encoding.value else env.defaultCharset;
      var atts := m.attachments;
      var mjAttachments: seq<Value> := [];
      var mjInlineAttachments: seq<Value> := [];
      var i := 0;
      while i < |atts|
        invariant 0 <= i <= |atts|
        invariant d.entries == old(d.entries)
        invariant mjAttachments == RegularAttachmentList(env, strEncoding, atts[..i])
        invariant mjInlineAttachments == InlineAttachmentList(env, strEncoding, atts[..i])
      {
        var made := MakeAttachment(env, strEncoding, atts[i]);
        AttachmentListsStep(env, strEncoding, atts, i);
        if made.1 {
          mjInlineAttachments := mjInlineAttachments + [Dict(made.0)];
        } else {
          mjAttachments := mjAttachments + [Dict(made.0)];
        }
        i := i + 1;
      }
      assert atts[..i] == atts;
      ghost var e := d.entries;
      assert WithAttachments(env, m, e)
          == PutIf(PutIf(e, |mjAttachments| != 0, Attachments, List(mjAttachments)),
                   |mjInlineAttachments| != 0, InlineAttachments, List(mjInlineAttachments));
      if |mjAttachments| != 0 {
        d.Set(Attachments, List(mjAttachments));
      }
      ghost var e' := d.entries;
      assert e' == PutIf(e, |mjAttachments| != 0, Attachments, List(mjAttachments));
      if |mjInlineAttachments| != 0 {
        d.Set(InlineAttachments, List(mjInlineAttachments));
      }
      assert d.entries == PutIf(e', |mjInlineAttachments| != 0, InlineAttachments, List(mjInlineAttachments));
    }

    /** `build_send_payload`. */
    method BuildSendPayload(m: EmailMessage) returns (d: MsgDict)
      ensures fresh(d)
      ensures d.entries == BuildPayload(env, m)
    {
      d := BuildStandardMessageDict(m);
      AddMailjetOptions(m, d);
      if |m.alternatives| != 0 {
        AddAlternatives(m, d);
      }
      AddAttachments(m, d);
    }

    /** `post_to_mailjet`: one post; a status other than 200 raises. */
    method PostToMailjet(payload: JsonObject, m: EmailMessage) returns (r: Result<Response, MailjetError>)
      modifies client
      ensures client.posted == old(client.posted) + [payload]
      ensures r == CheckStatus(client.respond(|old(client.posted)|, payload), payload, m)
    {
      var response := client.Create(payload);
      if response.statusCode != 200 {
        return Err(NewMailjetAPIError([], Some(m), Some(payload), Some(response)));
      }
      return Ok(response);
    }

    /** `_send`: `Ok(true)` when the message went out, `Ok(false)` when it
        had no recipients or failed silently, `Err` for a raised error. */
    method Send(message: Message) returns (r: Result<bool, MailjetError>)
      requires Valid()
      modifies message, client
      ensures var step := steps(|old(client.posted)|, message.email);
        && client.posted == old(client.posted) + (if step.Skipped? then [] else [step.posted])
        && message.mailjetResponse == ResponseAttr(step)
        && r == (if step.Failed? && !failSilently then Err(step.error) else Ok(step.Delivered?))
    {
      ghost var step := StepOf(env, client.respond, |client.posted|, message.email);
      assert steps(|client.posted|, message.email) == step;
      message.mailjetResponse := None;
      var m := message.email;
      if RecipientAddresses(m) == [] {
        return Ok(false);
      }
      var d := BuildSendPayload(m);
      var payload := Serialize(d.entries);
      var posted := PostToMailjet(payload, m);
      if posted.Err? {
        if !failSilently {
          return Err(posted.error);
        }
        return Ok(false);
      }
      var parsed := ParseResponse(posted.value, payload, m);
      if parsed.Err? {
        if !failSilently {
          return Err(parsed.error);
        }
        return Ok(false);
      }
      message.mailjetResponse := Some(parsed.value);
      return Ok(true);
    }

    /** `send_messages` after its first `i` messages, no error having
        escaped: the run so far, the posts made and every `mailjet_response`. */
    ghost predicate SentUpTo(messages: seq<Message>, calls: nat, start: seq<JsonObject>,
                             orig: seq<Option<Value>>, i: nat, numSent: nat)
      reads this, client, messages
    {
      && i <= |messages| == |orig| && calls == |start|
      && var s := RunUpTo(steps, failSilently, calls, Emails(messages), i);
      && s.raised.None? && s.sent == numSent && |s.steps| == i && Reflects(messages, start, orig, s)
    }

    /** The client's posts and the messages' `mailjet_response` attributes are
        those the run `s` leaves, starting from `start` and `orig`. */
    ghost predicate Reflects(messages: seq<Message>, start: seq<JsonObject>, orig: seq<Option<Value>>, s: RunState)
      reads client, messages
    {
      && |s.steps| <= |messages| == |orig|
      && client.posted == start + s.posts
      && Responses(messages) == ResponsesAfter(messages, s.steps, orig)
    }

    /** Once an error has escaped after `n` messages, the posts and the
        responses it left are those of the whole run. */
    lemma RaisedRunReflects(messages: seq<Message>, calls: nat, start: seq<JsonObject>,
                            orig: seq<Option<Value>>, n: nat)
      requires n <= |messages|
      requires var s := RunUpTo(steps, failSilently, calls, Emails(messages), n);
        s.raised.Some? && Reflects(messages, start, orig, s)
      ensures var s := Run(steps, failSilently, calls, Emails(messages));
        && s.raised == RunUpTo(steps, failSilently, calls, Emails(messages), n).raised
        && Reflects(messages, start, orig, s)
    {
      RunRaisedStays(steps, failSilently, calls, Emails(messages), n, |messages|);
    }

    /** After every message, with no error escaped, the run is complete. */
    lemma CompleteRunReflects(messages: seq<Message>, calls: nat, start: seq<JsonObject>,
                              orig: seq<Option<Value>>, numSent: nat)
      requires SentUpTo(messages, calls, start, orig, |messages|, numSent)
      ensures var s := Run(steps, failSilently, calls, Emails(messages));
        s.raised.None? && s.sent == numSent && Reflects(messages, start, orig, s)
    {
    }

    /** One round of the `send_messages` loop: `_send(messages[i])`, and the
        run one message further. */
    method SendOne(messages: seq<Message>, i: nat, ghost calls: nat, ghost start: seq<JsonObject>,
                   ghost orig: seq<Option<Value>>, numSent: nat)
        returns (sent: Result<bool, MailjetError>)
      requires Valid()
      requires i < |messages|
      requires SentUpTo(messages, calls, start, orig, i, numSent)
      modifies messages[i], client
      ensures var s' := RunUpTo(steps, failSilently, calls, Emails(messages), i + 1);
        && (s'.raised.Some? <==> sent.Err?)
        && (sent.Err? ==> sent.error == s'.raised.value && Reflects(messages, start, orig, s'))
        && (sent.Ok? ==> SentUpTo(messages, calls, start, orig, i + 1, if sent.value then numSent + 1 else numSent))
    {
      ghost var before := client.posted;
      ghost var pre := Responses(messages);
      var message := messages[i];
      sent := Send(message);
      ghost var st := steps(|before|, message.email);
      forall j | 0 <= j < |messages|
        ensures Responses(messages)[j] == Assign(messages, pre, message, ResponseAttr(st))[j]
      {
      }
      NextReflects(messages, calls, start, orig, i, numSent, before, pre);
    }

    /** The run one message further, once `_send` has posted that message's
        payload, if any, and set its response. */
    lemma NextReflects(messages: seq<Message>, calls: nat, start: seq<JsonObject>, orig: seq<Option<Value>>,
                       i: nat, numSent: nat, before: seq<JsonObject>, pre: seq<Option<Value>>)
      requires i < |messages| == |orig| && calls == |start|
      requires var s := RunUpTo(steps, failSilently, calls, Emails(messages), i);
        && s.raised.None? && s.sent == numSent && |s.steps| == i
        && before == start + s.posts && pre == ResponsesAfter(messages, s.steps, orig)
      requires var st := steps(|before|, messages[i].email);
        && client.posted == before + (if st.Skipped? then [] else [st.posted])
        && Responses(messages) == Assign(messages, pre, messages[i], ResponseAttr(st))
      ensures var s' := RunUpTo(steps, failSilently, calls, Emails(messages), i + 1);
        var st := steps(|before|, messages[i].email);
        && (s'.raised.Some? <==> st.Failed? && !failSilently)
        && (s'.raised.Some? ==> s'.raised.value == st.error)
        && s'.sent == (if st.Delivered? then numSent + 1 else numSent)
        && |s'.steps| == i + 1
        && Reflects(messages, start, orig, s')
    {
      var ms := Emails(messages);
      var s := RunUpTo(steps, failSilently, calls, ms, i);
      var st := steps(|before|, ms[i]);
      AppendAssoc(start, s.posts, if st.Skipped? then [] else [st.posted]);
      NextFields(steps, failSilently, calls, s, ms[i], |before|);
      ResponsesAfterNext(messages, s.steps, st, orig);
    }

    /** The `for` loop of `send_messages`: the run over all of `messages`,
        its count when no error escapes. */
    method SendAll(messages: seq<Message>) returns (r: Result<nat, MailjetError>)
      requires Valid()
      modifies set m | m in messages
      modifies client
      ensures var s := Run(steps, failSilently, |old(client.posted)|, Emails(messages));
        && (r.Err? <==> s.raised.Some?)
        && (r.Err? ==> r.error == s.raised.value)
        && (r.Ok? ==> r.value == s.sent)
        && Reflects(messages, old(client.posted), old(Responses(messages)), s)
    {
      ghost var calls := |client.posted|;
      ghost var orig := Responses(messages);
      ResponsesAfterNone(messages, orig);
      var numSent := 0;
      var i := 0;
      while i < |messages|
        invariant 0 <= i <= |messages|
        invariant SentUpTo(messages, calls, old(client.posted), orig, i, numSent)
      {
        var sent := SendOne(messages, i, calls, old(client.posted), orig, numSent);
        if sent.Err? {
          RaisedRunReflects(messages, calls, old(client.posted), orig, i + 1);
          return Err(sent.error);
        }
        if sent.value {
          numSent := numSent + 1;
        }
        i := i + 1;
      }
      CompleteRunReflects(messages, calls, old(client.posted), orig, numSent);
      return Ok(numSent);
    }

    /** `send_messages`: sends the messages in order and returns how many
        went out, or `None` for an empty list; an error that is not
        swallowed stops the loop and escapes. */
    method SendMessages(messages: seq<Message>) returns (r: Result<Option<nat>, MailjetError>)
      requires Valid()
      modifies set m | m in messages
      modifies client
      ensures var s := Run(steps, failSilently, |old(client.posted)|, Emails(messages));
        && r == RunResult(Emails(messages), s)
        && client.posted == old(client.posted) + s.posts
        && |s.steps| <= |messages|
        && Responses(messages) == ResponsesAfter(messages, s.steps, old(Responses(messages)))
    {
      if |messages| == 0 {
        return Ok(None);
      }
      var sent := SendAll(messages);
      if sent.Err? {
        return Err(sent.error);
      }
      return Ok(Some(sent.value));
    }
  }
}
