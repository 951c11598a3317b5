/**
 The server side of the chat block: the AJAX action `gemini_chat_request`
 and its decision ladder (nonce, stored API key, message, upstream answer),
 the request it sends to the Gemini `generateContent` endpoint, the way it
 picks the answer text out of the decoded reply, and the `check_gemini_api_key`
 action.

 WordPress primitives are inputs: nonce verification is a predicate, the
 stored option is a value that may be absent, `sanitize_text_field` is an
 uninterpreted function, and the HTTP round trip (including `json_encode` of
 the request and `json_decode` of the reply body) is a function from the
 request to a transport error or a status with a decoded body. The effects
 the handler has on the outside world are recorded in order.
 */
module ApiHandler {
  import opened Wrappers
  import opened PhpValues

  const NonceAction := "gemini_chat_nonce"
  const OptionName := "gemini_chat_block_api_key"
  const Endpoint := "https://generativelanguage.googleapis.com/v1beta/models/gemini-2.5-flash:generateContent?key="
  const PromptPrefix := "You are a helpful AI assistant. Please provide concise, helpful responses. Format your response using basic markdown if needed (use **bold** for emphasis, *italic* for emphasis, etc.). Keep responses brief and to the point. User question: "
  const TopK := 40
  const MaxOutputTokens := 1024

  const SecurityFailed := "Security check failed"
  const KeyMissing := "API key not configured"
  const MessageRequired := "Message is required"
  const UpstreamFailed := "Failed to get response from AI Assistant"

  /** Where the prompt sits in the request body: `contents[0].parts[0].text`. */
  const PromptPath := [StrKey("contents"), IntKey(0), StrKey("parts"), IntKey(0), StrKey("text")]
  /** Where the answer sits in the decoded reply: `candidates[0].content.parts[0].text`. */
  const ResponsePath := [StrKey("candidates"), IntKey(0), StrKey("content"), StrKey("parts"), IntKey(0), StrKey("text")]

  /** A POST to `url` whose JSON body is the encoding of `body`. */
  datatype Request = Request(url: string, body: PhpValue)

  /** What `wp_remote_request` yields: a `WP_Error`, or a response with its status and its body run through `json_decode(.., true)` (`null` when the body is not JSON). */
  datatype HttpResult = WpError | HttpResponse(status: int, decoded: PhpValue)

  /** The two `$_POST` fields the handler reads. */
  datatype Post = Post(nonce: string, message: string)

  /**
   The WordPress installation as the handler sees it: `wp_verify_nonce`
   (truthy or not), the stored API key (`None` when the option does not
   exist, where `get_option` returns `false`), `sanitize_text_field`, and the
   HTTP round trip.
   */
  datatype Host = Host(
    nonceValid: (string, string) -> bool,
    storedKey: Option<string>,
    sanitize: string -> string,
    upstream: Request -> HttpResult)

  /** How a request ends: `wp_die` with a plain-text body, or `wp_send_json_success`/`wp_send_json_error` with a payload. */
  datatype Outcome = Died(text: string) | SentJson(success: bool, data: PhpValue)

  /** An observable step the handler takes before it ends. */
  datatype Effect = ReadOption(name: string) | CallUpstream(request: Request)

  datatype Handled = Handled(outcome: Outcome, effects: seq<Effect>)

  /** `empty($api_key)` on what `get_option` returned. */
  predicate KeyEmpty(key: Option<string>)
    ensures KeyEmpty(key) <==> key == None || key == Some("") || key == Some("0")
  {
    key.None? || Empty(PString(key.value))
  }

  function ErrorData(message: string): PhpValue {
    PArray(map[StrKey("message") := PString(message)])
  }

  function SuccessData(response: PhpValue): PhpValue {
    PArray(map[StrKey("response") := response])
  }

  /** The prompt: the fixed instructions, then the user's message. */
  function Prompt(message: string): (p: string)
    ensures |p| == |PromptPrefix| + |message|
    ensures p[..|PromptPrefix|] == PromptPrefix && p[|PromptPrefix|..] == message
  {
    PromptPrefix + message
  }

  /** The integer generation settings; `temperature` and `topP` are floats and are not modelled. */
  function GenerationConfig(): PhpValue {
    PArray(map[StrKey("topK") := PInt(TopK), StrKey("maxOutputTokens") := PInt(MaxOutputTokens)])
  }

  /** The request body: one content with one text part, and the generation settings. */
  function RequestBody(message: string): PhpValue {
    PArray(map[
      StrKey("contents") := Nest(PromptPath[1..], PString(Prompt(message))),
      StrKey("generationConfig") := GenerationConfig()])
  }

  /** The request `call_gemini_api` sends: the key travels in the query string. */
  function BuildRequest(key: string, message: string): (req: Request)
    ensures |req.url| == |Endpoint| + |key|
    ensures req.url[..|Endpoint|] == Endpoint && req.url[|Endpoint|..] == key
  {
    Request(Endpoint + key, RequestBody(message))
  }

  /** The answer text when `isset` holds for its path, otherwise `false`. The HTTP status plays no part. */
  function Extract(decoded: PhpValue): (r: PhpValue)
    ensures IsSet(decoded, ResponsePath) ==> Lookup(decoded, ResponsePath) == Some(r) && r != PNull
    ensures !IsSet(decoded, ResponsePath) ==> r == PBool(false)
  {
    if IsSet(decoded, ResponsePath) then Lookup(decoded, ResponsePath).value else PBool(false)
  }

  /** `call_gemini_api`: `false` on a transport error, otherwise whatever `Extract` finds. */
  function CallGeminiApi(key: string, message: string, upstream: Request -> HttpResult): (r: PhpValue)
    ensures upstream(BuildRequest(key, message)).WpError? ==> r == PBool(false)
    ensures upstream(BuildRequest(key, message)).HttpResponse? ==> r == Extract(upstream(BuildRequest(key, message)).decoded)
  {
    match upstream(BuildRequest(key, message))
    case WpError => PBool(false)
    case HttpResponse(_, decoded) => Extract(decoded)
  }

  /** Whether some recorded effect is a call to the upstream API. */
  predicate CallsUpstream(effects: seq<Effect>) {
    exists i :: 0 <= i < |effects| && effects[i].CallUpstream?
  }

  /**
   `handle_chat_request`. Each check that fails ends the request on the spot:
   an invalid nonce dies before anything is read, an empty key and an empty
   message are reported before the upstream API is called, and a falsy
   answer (including `""` and `"0"`) is reported as a failure.
   */
  function HandleChatRequest(host: Host, post: Post): (h: Handled)
    ensures h.outcome.Died? <==> !host.nonceValid(post.nonce, NonceAction)
    ensures h.outcome.Died? <==> h.effects == []
  {
    if !host.nonceValid(post.nonce, NonceAction) then
      Handled(Died(SecurityFailed), [])
    else if KeyEmpty(host.storedKey) then
      Handled(SentJson(false, ErrorData(KeyMissing)), [ReadOption(OptionName)])
    else
      var key := host.storedKey.value;
      var message := host.sanitize(post.message);
      if Empty(PString(message)) then
        Handled(SentJson(false, ErrorData(MessageRequired)), [ReadOption(OptionName)])
      else
        var response := CallGeminiApi(key, message, host.upstream);
        var effects := [ReadOption(OptionName), CallUpstream(BuildRequest(key, message))];
        if ToBool(response) then Handled(SentJson(true, SuccessData(response)), effects)
        else Handled(SentJson(false, ErrorData(UpstreamFailed)), effects)
  }

  /** An invalid nonce ends the request with `wp_die` before the key is read or anything is sent upstream. */
  lemma InvalidNonceDies(host: Host, post: Post)
    requires !host.nonceValid(post.nonce, NonceAction)
    ensures HandleChatRequest(host, post).outcome == Died(SecurityFailed)
    ensures !CallsUpstream(HandleChatRequest(host, post).effects)
  {
  }

  /** With a valid nonce and an `empty` key (absent, `""` or `"0"`), the key is read and the request ends with the key error. */
  lemma EmptyKeyReported(host: Host, post: Post)
    requires host.nonceValid(post.nonce, NonceAction) && KeyEmpty(host.storedKey)
    ensures HandleChatRequest(host, post).outcome == SentJson(false, ErrorData(KeyMissing))
    ensures HandleChatRequest(host, post).effects == [ReadOption(OptionName)]
  {
  }

  /** With a valid nonce and a key, an `empty` sanitized message (`""` or `"0"`) ends the request with the message error. */
  lemma EmptyMessageReported(host: Host, post: Post)
    requires host.nonceValid(post.nonce, NonceAction) && !KeyEmpty(host.storedKey)
    requires Empty(PString(host.sanitize(post.message)))
    ensures HandleChatRequest(host, post).outcome == SentJson(false, ErrorData(MessageRequired))
    ensures HandleChatRequest(host, post).effects == [ReadOption(OptionName)]
  {
  }

  /**
   Once every check passes, the key is read, the prompt is sent upstream once,
   and the request succeeds with exactly the answer when that answer is
   truthy; otherwise it fails with the upstream error.
   */
  lemma UpstreamDecides(host: Host, post: Post)
    requires host.nonceValid(post.nonce, NonceAction) && !KeyEmpty(host.storedKey)
    requires !Empty(PString(host.sanitize(post.message)))
    ensures var key, message := host.storedKey.value, host.sanitize(post.message);
      var h, answer := HandleChatRequest(host, post), CallGeminiApi(key, message, host.upstream);
      && h.effects == [ReadOption(OptionName), CallUpstream(BuildRequest(key, message))]
      && (ToBool(answer) ==> h.outcome == SentJson(true, SuccessData(answer)))
      && (!ToBool(answer) ==> h.outcome == SentJson(false, ErrorData(UpstreamFailed)))
  {
  }

  /** The upstream API is called exactly when the nonce is valid, the key is non-empty and the sanitized message is non-empty. */
  lemma CallsUpstreamIff(host: Host, post: Post)
    ensures CallsUpstream(HandleChatRequest(host, post).effects) <==>
      && host.nonceValid(post.nonce, NonceAction)
      && !KeyEmpty(host.storedKey)
      && !Empty(PString(host.sanitize(post.message)))
  {
    var h := HandleChatRequest(host, post);
    if !host.nonceValid(post.nonce, NonceAction) {
      InvalidNonceDies(host, post);
    } else if KeyEmpty(host.storedKey) {
      EmptyKeyReported(host, post);
    } else if Empty(PString(host.sanitize(post.message))) {
      EmptyMessageReported(host, post);
    } else {
      UpstreamDecides(host, post);
      assert h.effects[1].CallUpstream?;
    }
  }

  /** The decoded reply Gemini sends for an answer `v`: `v` nested under `candidates[0].content.parts[0].text`. */
  function GeminiReply(v: PhpValue): PhpValue {
    Nest(ResponsePath, v)
  }

  /** The answer is found in a well-formed reply, whatever it is, unless it is `null`. */
  lemma ExtractReply(v: PhpValue)
    ensures v != PNull ==> Extract(GeminiReply(v)) == v
    ensures v == PNull ==> Extract(GeminiReply(v)) == PBool(false)
  {
    LookupNest(ResponsePath, v);
  }

  /** Only the decoded body counts: two responses that differ in their status yield the same answer. */
  lemma StatusIgnored(key: string, message: string, u1: Request -> HttpResult, u2: Request -> HttpResult)
    requires u1(BuildRequest(key, message)).HttpResponse? && u2(BuildRequest(key, message)).HttpResponse?
    requires u1(BuildRequest(key, message)).decoded == u2(BuildRequest(key, message)).decoded
    ensures CallGeminiApi(key, message, u1) == CallGeminiApi(key, message, u2)
  {
  }

  /** A transport error makes the answer `false`, so the request fails with the upstream error. */
  lemma TransportErrorFails(host: Host, post: Post)
    requires host.nonceValid(post.nonce, NonceAction) && !KeyEmpty(host.storedKey)
    requires !Empty(PString(host.sanitize(post.message)))
    requires host.upstream(BuildRequest(host.storedKey.value, host.sanitize(post.message))).WpError?
    ensures HandleChatRequest(host, post).outcome == SentJson(false, ErrorData(UpstreamFailed))
  {
    UpstreamDecides(host, post);
  }

  /** An answer text of `""` or `"0"` is falsy in PHP and is reported as a failure; any other text is relayed as is. */
  lemma AnswerTextRelayed(host: Host, post: Post, t: string)
    requires host.nonceValid(post.nonce, NonceAction) && !KeyEmpty(host.storedKey)
    requires !Empty(PString(host.sanitize(post.message)))
    requires var r := host.upstream(BuildRequest(host.storedKey.value, host.sanitize(post.message)));
      r.HttpResponse? && Lookup(r.decoded, ResponsePath) == Some(PString(t))
    ensures t == "" || t == "0" ==> HandleChatRequest(host, post).outcome == SentJson(false, ErrorData(UpstreamFailed))
    ensures t != "" && t != "0" ==> HandleChatRequest(host, post).outcome == SentJson(true, SuccessData(PString(t)))
  {
    UpstreamDecides(host, post);
  }

  /** The request carries the prompt at `contents[0].parts[0].text`. */
  lemma PromptInRequest(key: string, message: string)
    ensures Lookup(BuildRequest(key, message).body, PromptPath) == Some(PString(Prompt(message)))
  {
    LookupNest(PromptPath[1..], PString(Prompt(message)));
  }

  /** Different messages give different prompts. */
  lemma PromptInjective(m1: string, m2: string)
    requires Prompt(m1) == Prompt(m2)
    ensures m1 == m2
  {
    assert m1 == Prompt(m1)[|PromptPrefix|..];
  }

  /** `check_api_key`: always a success, reporting whether the stored key is non-empty. */
  function CheckApiKey(host: Host): (h: Handled)
    ensures h.effects == [ReadOption(OptionName)] && h.outcome.SentJson? && h.outcome.success
    ensures h.outcome.data == PArray(map[StrKey("configured") :=
      PBool(host.storedKey.Some? && host.storedKey.value != "" && host.storedKey.value != "0")])
  {
    Handled(SentJson(true, PArray(map[StrKey("configured") := PBool(!KeyEmpty(host.storedKey))])), [ReadOption(OptionName)])
  }

  /** `check_api_key` reports an unconfigured key exactly when a chat request with a valid nonce would stop at the key check. */
  lemma CheckAgreesWithHandler(host: Host, post: Post)
    requires host.nonceValid(post.nonce, NonceAction)
    ensures CheckApiKey(host).outcome.data == PArray(map[StrKey("configured") := PBool(false)]) <==>
      HandleChatRequest(host, post).outcome == SentJson(false, ErrorData(KeyMissing))
  {
    if !KeyEmpty(host.storedKey) {
      assert CheckApiKey(host).outcome.data.entries[StrKey("configured")] == PBool(true);
      if Empty(PString(host.sanitize(post.message))) {
        EmptyMessageReported(host, post);
        DistinctErrors(MessageRequired, KeyMissing);
      } else {
        UpstreamDecides(host, post);
        DistinctErrors(UpstreamFailed, KeyMissing);
      }
    }
  }

  /** Error payloads with messages of different lengths differ. */
  lemma DistinctErrors(a: string, b: string)
    requires |a| != |b|
    ensures ErrorData(a) != ErrorData(b)
  {
    assert ErrorData(a).entries[StrKey("message")] != ErrorData(b).entries[StrKey("message")];
  }
}
