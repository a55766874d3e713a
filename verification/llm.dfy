/** The chat-completion client (`assignment0/llm.py`): the credential check,
    one POST, and the walk down `choices[0].message.content` of the reply.
    Every anticipated failure is a summary error (`Fail`). The prompt text and
    Python's `str()` of a non-string value are not modelled: the record is
    carried in the request as it is, and `str()` is a parameter. */
module Llm {
  import opened Outcomes
  import opened Json
  import opened Text
  import opened Http
  import Api

  const NavigatorBase := "https://api.ai.it.ufl.edu/v1"
  const NavigatorModel := "llama-3.1-8b-instruct"
  const ChatUrl := NavigatorBase + "/chat/completions"

  /** The environment variable holding the credential. */
  const ApiKeyVar := "NAVIGATOR_TOOLKIT_API_KEY"

  const KeyHint := ". Export it or add to .env (see .env.example)."
  const KeyNotSetMessage := ApiKeyVar + " is not set" + KeyHint
  const ConnectionMessage := "Connection to NaviGator AI failed."
  const InvalidJsonMessage := "Invalid JSON from NaviGator AI"
  const NoChoicesMessage := "Unexpected NaviGator response: no choices"
  const ChoiceNotObjectMessage := "Unexpected NaviGator response: choice not an object"
  const NoMessageMessage := "Unexpected NaviGator response: no message"
  const EmptyContentMessage := "Unexpected NaviGator response: empty content"

  /** At most this many characters of an error response's body are quoted. */
  const MaxBodyChars := 500

  // ---- The credential ----

  /** `_get_api_key`, with the process environment (after the optional
      dotfile load) given as a map. */
  function ApiKey(env: map<string, string>): (r: Outcome<string>)
    ensures !r.Crash?
    ensures r.Fail? <==> ApiKeyVar !in env || AllSpace(env[ApiKeyVar])
    ensures r.Fail? ==> r.msg == KeyNotSetMessage
    ensures r.Ok? ==> |r.value| > 0 && StrippedFrom(env[ApiKeyVar], r.value)
  {
    if ApiKeyVar !in env then Fail(KeyNotSetMessage)
    else
      var key := env[ApiKeyVar];
      StripEmpty(key);
      if key == "" || Strip(key) == "" then Fail(KeyNotSetMessage)
      else Ok(Strip(key))
  }

  /** The missing-key error names the variable and says it is not set. */
  lemma KeyMessageNamesVariable()
    ensures Contains(KeyNotSetMessage, ApiKeyVar)
    ensures Contains(KeyNotSetMessage, "not set")
  {
    assert OccursAt(KeyNotSetMessage, ApiKeyVar, 0);
    assert " is not set" == " is " + "not set";
    assert KeyNotSetMessage == (ApiKeyVar + " is ") + "not set" + KeyHint;
    ContainsMiddle(ApiKeyVar + " is ", "not set", KeyHint);
  }

  // ---- Transport failures ----

  const TimeoutPrefix := "NaviGator request timed out after "

  function TimeoutMessage(timeout: int): (m: string)
    ensures Contains(m, "timed out")
    ensures |TimeoutPrefix| < |m| && ParseInt(m[|TimeoutPrefix|..|m| - 1]) == Some(timeout)
  {
    var m := TimeoutPrefix + IntText(timeout) + "s";
    assert OccursAt(m, "timed out", 18);
    assert m[|TimeoutPrefix|..|m| - 1] == IntText(timeout);
    IntTextRoundTrip(timeout);
    m
  }

  const HttpPrefix := "NaviGator HTTP "

  /** The error for a non-2xx status: the status, then at most the first 500
      characters of the response body (nothing when there is no body). */
  function HttpErrorMessage(status: Option<int>, text: Option<string>): (m: string)
    ensures HttpPrefix + StatusText(status) + ": " <= m
    ensures var quoted := m[|HttpPrefix + StatusText(status) + ": "|..];
      && |quoted| <= MaxBodyChars
      && (text.None? ==> quoted == "")
      && (text.Some? ==> quoted <= text.value)
      && (text.Some? && |text.value| <= MaxBodyChars ==> quoted == text.value)
      && (text.Some? && |text.value| > MaxBodyChars ==> |quoted| == MaxBodyChars)
  {
    var body := if text.Some? then Truncate(text.value, MaxBodyChars) else "";
    HttpPrefix + StatusText(status) + ": " + body
  }

  // ---- The reply envelope ----

  /** `choices` is a non-empty list. */
  predicate HasChoices(data: Value) {
    data.JObj? && Get(data.fields, "choices").JArr? && |Get(data.fields, "choices").items| > 0
  }

  function FirstChoice(data: Value): Value
    requires HasChoices(data)
  {
    Get(data.fields, "choices").items[0]
  }

  /** `choices[0]` is an object whose `message` is an object. */
  predicate HasMessage(data: Value) {
    HasChoices(data) && FirstChoice(data).JObj? && Get(FirstChoice(data).fields, "message").JObj?
  }

  function ContentOf(data: Value): Value
    requires HasMessage(data)
  {
    Get(Get(FirstChoice(data).fields, "message").fields, "content")
  }

  /** The extraction ladder of `summarize_with_navigator` over the decoded
      reply; `pyStr` stands for Python's `str()`. A reply that is not an
      object has no `.get`, which raises. */
  function ExtractContent(data: Value, pyStr: Value -> string): (r: Outcome<string>)
    ensures r.Crash? <==> !data.JObj?
    ensures r == Fail(NoChoicesMessage) <==> data.JObj? && !HasChoices(data)
    ensures r == Fail(ChoiceNotObjectMessage) <==> HasChoices(data) && !FirstChoice(data).JObj?
    ensures r == Fail(NoMessageMessage) <==>
      HasChoices(data) && FirstChoice(data).JObj? && !HasMessage(data)
    ensures r == Fail(EmptyContentMessage) <==> HasMessage(data) && ContentOf(data) == JNull
    ensures r.Ok? <==> HasMessage(data) && ContentOf(data) != JNull
    ensures r.Ok? && ContentOf(data).JStr? ==> StrippedFrom(ContentOf(data).s, r.value)
    ensures r.Ok? && !ContentOf(data).JStr? ==> r.value == pyStr(ContentOf(data))
  {
    if !data.JObj? then Crash
    else
      var choices := Get(data.fields, "choices");
      if !Truthy(choices) || !choices.JArr? then Fail(NoChoicesMessage)
      else
        var first := choices.items[0];
        if !first.JObj? then Fail(ChoiceNotObjectMessage)
        else
          var message := Get(first.fields, "message");
          if !message.JObj? then Fail(NoMessageMessage)
          else
            var content := Get(message.fields, "content");
            if content == JNull then Fail(EmptyContentMessage)
            else if content.JStr? then Ok(Strip(content.s))
            else Ok(pyStr(content))
  }

  /** Only `choices[0]` is looked at: the rest of the list never matters. */
  lemma OnlyFirstChoiceMatters(fields: map<string, Value>, first: Value, rest: seq<Value>, other: seq<Value>,
                               pyStr: Value -> string)
    ensures ExtractContent(JObj(fields["choices" := JArr([first] + rest)]), pyStr)
         == ExtractContent(JObj(fields["choices" := JArr([first] + other)]), pyStr)
  {
    var a := JObj(fields["choices" := JArr([first] + rest)]);
    var b := JObj(fields["choices" := JArr([first] + other)]);
    assert HasChoices(a) && HasChoices(b);
    assert FirstChoice(a) == first == FirstChoice(b);
  }

  /** An empty `choices` list is refused, as the unit tests expect. */
  lemma EmptyChoicesExample(pyStr: Value -> string)
    ensures ExtractContent(JObj(map["choices" := JArr([])]), pyStr) == Fail(NoChoicesMessage)
  {
  }

  /** String content in a well-formed reply comes back stripped. */
  lemma StringReply(s: string, pyStr: Value -> string)
    ensures ExtractContent(Reply(JStr(s)), pyStr) == Ok(Strip(s))
  {
    var r := ExtractContent(Reply(JStr(s)), pyStr);
    assert r.Ok?;
    StripIsStrip(s, r.value);
  }

  /** Empty-string content is returned as `""`, not refused. */
  lemma EmptyContentExample(pyStr: Value -> string)
    ensures ExtractContent(Reply(JStr("")), pyStr) == Ok("")
  {
    StringReply("", pyStr);
    StripEmpty("");
  }

  /** Whitespace around string content is stripped. */
  lemma PaddedContentExample(pyStr: Value -> string)
    ensures ExtractContent(Reply(JStr(" hi\n")), pyStr) == Ok("hi")
  {
    StringReply(" hi\n", pyStr);
    PaddedStrip();
  }

  lemma PaddedStrip()
    ensures Strip(" hi\n") == "hi"
  {
    assert StrippedFrom(" hi\n", "hi") by {
      assert " hi\n"[1..3] == "hi";
      assert StripsAt(" hi\n", "hi", 1);
    }
    StripIsStrip(" hi\n", "hi");
  }

  /** The reply envelope `{"choices": [{"message": {"content": content}}]}`. */
  function Reply(content: Value): (r: Value)
    ensures HasMessage(r) && ContentOf(r) == content
  {
    var r := JObj(map["choices" := JArr([JObj(map["message" := JObj(map["content" := content])])])]);
    assert Get(r.fields, "choices").items[0] == JObj(map["message" := JObj(map["content" := content])]);
    r
  }

  // ---- The request ----

  /** What is posted: the endpoint, the bearer header, the model and the
      record the prompt is built from. */
  datatype ChatRequest = ChatRequest(url: string, authorization: string, model: string,
                                     data: Api.Pokemon, timeout: int)

  /** `summarize_with_navigator`: no request at all without a usable key;
      otherwise one POST, its failures mapped to summary errors and its reply
      walked by `ExtractContent`. */
  function Summarize(data: Api.Pokemon, timeout: int, env: map<string, string>,
                     post: ChatRequest -> Transport, pyStr: Value -> string): (t: Traced<string, ChatRequest>)
    ensures ApiKey(env).Fail? ==> t.sent == [] && t.result == Fail(KeyNotSetMessage)
    ensures ApiKey(env).Ok? ==>
      t.sent == [ChatRequest(ChatUrl, "Bearer " + ApiKey(env).value, NavigatorModel, data, timeout)]
    ensures t.result.Ok? ==> |t.sent| == 1 && post(t.sent[0]).Decoded?
    ensures t.result.Crash? ==> |t.sent| == 1 && (post(t.sent[0]).Decoded? || post(t.sent[0]).Raised?)
    ensures |t.sent| == 1 ==> match post(t.sent[0])
      case TimedOut => t.result == Fail(TimeoutMessage(timeout))
      case ConnectionFailed => t.result == Fail(ConnectionMessage)
      case HttpFailure(status, _, text) => t.result == Fail(HttpErrorMessage(status, text))
      case NotJson => t.result == Fail(InvalidJsonMessage)
      case Decoded(reply) => t.result == ExtractContent(reply, pyStr)
      case Raised => t.result == Crash
  {
    match ApiKey(env)
    case Ok(key) =>
      var request := ChatRequest(ChatUrl, "Bearer " + key, NavigatorModel, data, timeout);
      var result :=
        match post(request)
        case TimedOut => Fail(TimeoutMessage(timeout))
        case ConnectionFailed => Fail(ConnectionMessage)
        case HttpFailure(status, _, text) => Fail(HttpErrorMessage(status, text))
        case NotJson => Fail(InvalidJsonMessage)
        case Decoded(reply) => ExtractContent(reply, pyStr)
        case Raised => Crash;
      Traced(result, [request])
    case _ => Traced(Fail(KeyNotSetMessage), [])
  }
}
