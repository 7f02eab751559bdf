/** The chat-completion proxy: it checks the model and the message list,
    sanitises every message, bounds `max_tokens`, and forwards the request
    to the chat service, passing its status back. */
module Chat {
  import Js
  import Strings
  import Security

  const Unavailable := "Service temporarily unavailable"

  const Models: seq<string> := ["gpt-4o-mini", "gpt-4", "gpt-3.5-turbo"]
  const Roles: seq<string> := ["system", "user", "assistant"]
  const MaxContent := 4000

  datatype Message = Message(role: string, content: string)

  /** The body sent to the chat service; `maxTokens` is None when the field
      is not forwarded. */
  datatype ChatRequest = ChatRequest(model: string, messages: seq<Message>, maxTokens: Js.Option<int>)

  /** What the chat service did: answer with a status, or fail (the call
      throws, or its non-empty body is not JSON). */
  datatype Upstream = Answered(status: int) | UpstreamFailed

  datatype ChatReply = Forwarded(request: ChatRequest, status: int) | ChatError(status: int, error: string)

  /** One element of `messages.map(...)`: None for the TypeError that
      reading `role` of undefined or null raises. */
  function SanitizeMessage(msg: Js.Value): (r: Js.Option<Message>)
    ensures r.None? <==> msg.Undefined? || msg.Null?
    ensures r.Some? ==> r.value.role in Roles && |r.value.content| <= MaxContent
    ensures r.Some? ==> r.value.role == Js.OneOf(Js.Property(msg, "role").value, Roles, "user")
    ensures r.Some? ==> r.value.content == Security.SanitizeString(Js.Property(msg, "content").value, MaxContent)
  {
    match Js.Property(msg, "role")
    case None => Js.None
    case Some(role) =>
      Js.Some(Message(Js.OneOf(role, Roles, "user"),
                      Security.SanitizeString(Js.Property(msg, "content").value, MaxContent)))
  }

  /** `messages.map(...)`: None when some element throws. */
  function SanitizeMessages(msgs: seq<Js.Value>): (r: Js.Option<seq<Message>>)
    ensures r.None? <==> exists i | 0 <= i < |msgs| :: msgs[i].Undefined? || msgs[i].Null?
    ensures r.Some? ==> |r.value| == |msgs|
    ensures r.Some? ==> forall i | 0 <= i < |msgs| :: Js.Some(r.value[i]) == SanitizeMessage(msgs[i])
    ensures r.Some? ==> forall i | 0 <= i < |msgs| :: r.value[i].role in Roles && |r.value[i].content| <= MaxContent
    decreases |msgs|
  {
    if |msgs| == 0 then Js.Some([])
    else
      match SanitizeMessage(msgs[0])
      case None => Js.None
      case Some(m) =>
        match SanitizeMessages(msgs[1..])
        case None =>
          var i :| 0 <= i < |msgs[1..]| && (msgs[1..][i].Undefined? || msgs[1..][i].Null?);
          assert msgs[i + 1] == msgs[1..][i];
          Js.None
        case Some(rest) =>
          var r := [m] + rest;
          assert forall i | 1 <= i < |msgs| :: msgs[i] == msgs[1..][i - 1] && r[i] == rest[i - 1];
          Js.Some(r)
  }

  /** `typeof max_tokens === 'number' && max_tokens > 0 && max_tokens <= 4000`:
      the value forwarded, if any. */
  function MaxTokens(v: Js.Value): (r: Js.Option<int>)
    ensures r.Some? <==> v.Num? && 0 < v.n <= 4000
    ensures r.Some? ==> r.value == v.n
  {
    if v.Num? && 0 < v.n <= 4000 then Js.Some(v.n) else Js.None
  }

  /** `chatHandler`; `upstream` is the chat service. */
  function ChatHandler(verb: string, body: Js.Object, upstream: ChatRequest -> Upstream): (r: ChatReply)
    ensures verb != "POST" ==> r == ChatError(405, "Method not allowed")
    ensures verb == "POST" && (Security.IsMissing(body, "model") || Security.IsMissing(body, "messages")) ==>
              r == ChatError(500, Unavailable)
    // so does a model, or a message list, whose toString throws
    ensures verb == "POST" && (Security.CheckThrows(body, "model") || Security.CheckThrows(body, "messages")) ==>
              r == ChatError(500, Unavailable)
    ensures (&& verb == "POST" && Security.Present(body, "model") && Security.Present(body, "messages")
             && !(Js.Get(body, "model").Str? && Js.Get(body, "model").s in Models)) ==>
              r == ChatError(400, "Invalid model specified")
    ensures (&& verb == "POST" && Security.Present(body, "model") && Security.Present(body, "messages")
             && Js.Get(body, "model").Str? && Js.Get(body, "model").s in Models
             && !Js.Get(body, "messages").Arr?) ==>
              r == ChatError(400, "Messages must be a non-empty array")
    ensures r.Forwarded? <==>
              && verb == "POST" && Security.Present(body, "model") && Security.Present(body, "messages")
              && Js.Get(body, "model").Str? && Js.Get(body, "model").s in Models
              && Js.Get(body, "messages").Arr? && |Js.Get(body, "messages").items| > 0
              && SanitizeMessages(Js.Get(body, "messages").items).Some?
              && upstream(ChatRequest(Js.Get(body, "model").s, SanitizeMessages(Js.Get(body, "messages").items).value,
                                      MaxTokens(Js.Get(body, "max_tokens")))).Answered?
    ensures r.Forwarded? ==>
              && r.request.model in Models
              && r.request.model == Js.Get(body, "model").s
              && r.request.messages == SanitizeMessages(Js.Get(body, "messages").items).value
              && |r.request.messages| == |Js.Get(body, "messages").items| > 0
              && (forall i | 0 <= i < |r.request.messages| ::
                    r.request.messages[i].role in Roles && |r.request.messages[i].content| <= MaxContent)
              && r.request.maxTokens == MaxTokens(Js.Get(body, "max_tokens"))
              && upstream(r.request).Answered? && r.status == upstream(r.request).status
    ensures r.ChatError? ==> r.status in {405, 500, 400}
    ensures (&& verb == "POST" && Security.Present(body, "model") && Security.Present(body, "messages")
             && Js.Get(body, "model").Str? && Js.Get(body, "model").s in Models
             && Js.Get(body, "messages").Arr? && |Js.Get(body, "messages").items| > 0
             && SanitizeMessages(Js.Get(body, "messages").items).None?) ==>
              r == ChatError(500, Unavailable)
    ensures (&& verb == "POST" && Security.Present(body, "model") && Security.Present(body, "messages")
             && Js.Get(body, "model").Str? && Js.Get(body, "model").s in Models
             && Js.Get(body, "messages").Arr? && |Js.Get(body, "messages").items| > 0
             && SanitizeMessages(Js.Get(body, "messages").items).Some?
             && upstream(ChatRequest(Js.Get(body, "model").s, SanitizeMessages(Js.Get(body, "messages").items).value,
                                     MaxTokens(Js.Get(body, "max_tokens")))).UpstreamFailed?) ==>
              r == ChatError(500, Unavailable)
  {
    if verb != "POST" then ChatError(405, "Method not allowed")
    else if Security.ValidateRequired(body, ["model", "messages"]).Some? then ChatError(500, Unavailable)
    else
      var model := Js.Get(body, "model");
      var messages := Js.Get(body, "messages");
      if !model.Str? || model.s !in Models then ChatError(400, "Invalid model specified")
      else if !messages.Arr? || |messages.items| == 0 then ChatError(400, "Messages must be a non-empty array")
      else
        match SanitizeMessages(messages.items)
        case None => ChatError(500, Unavailable)
        case Some(sanitized) =>
          var q := ChatRequest(model.s, sanitized, MaxTokens(Js.Get(body, "max_tokens")));
          match upstream(q)
          case Answered(status) => Forwarded(q, status)
          case UpstreamFailed => ChatError(500, Unavailable)
  }

  /** An empty message list reads as blank (`[].toString()` is ""), so the
      presence check throws and the reply is 500, never the 400 meant for
      it. */
  lemma EmptyMessagesIs500(body: Js.Object, upstream: ChatRequest -> Upstream)
    requires Js.Get(body, "messages") == Js.Arr([])
    ensures ChatHandler("POST", body, upstream) == ChatError(500, Unavailable)
  {
    assert Js.ToStr(Js.Arr([])) == "";
  }

  /** A message with its own "toString" makes the presence check of
      `messages` throw as it joins the list, so the reply is 500 even though
      the model and the message are otherwise acceptable. */
  lemma OwnToStringMessageIs500(upstream: ChatRequest -> Upstream)
    ensures ChatHandler("POST",
                        map["model" := Js.Str("gpt-4"),
                            "messages" := Js.Arr([Js.Obj(map["toString" := Js.Num(1), "role" := Js.Str("user")])])],
                        upstream) == ChatError(500, Unavailable)
  {
    var msg := Js.Obj(map["toString" := Js.Num(1), "role" := Js.Str("user")]);
    assert Js.ToStrThrows(Js.Arr([msg]).items[0]);
  }
}
