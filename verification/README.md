# Gemini chat block — a Dafny model of its relay core

The plugin puts a chat widget on a WordPress page. The widget sends the
visitor's text to the site's `admin-ajax.php`. The server checks a nonce,
attaches the stored Gemini API key and forwards the text to Gemini's
`generateContent` endpoint. It then hands the answer back, and the widget
shows it after a small Markdown rendering.

This project models that path in Dafny and proves its properties:

- `wrappers.dfy` (`Wrappers`): the `Option` type.
- `js_runtime.dfy` (`JsRuntime`): the JavaScript the widget relies on.
  - JSON-parsed values and their truthiness.
  - Property access that throws on `null` and `undefined`.
  - `String.prototype.trim`.
- `markdown.dfy` (`Markdown`): `parseMarkdown`.
  - Each of its three span substitutions (`/\*\*(.*?)\*\*/g`, `/\*(.*?)\*/g`, `` /`(.*?)`/g ``) is one generic global-replace pass (`Apply`).
  - A pass scans left to right. At each position it either matches (delimiter, then the shortest run without a line terminator, then the delimiter) and resumes after the match, or copies one character.
  - The newline pass is `Breaks`.
- `chat_widget.dfy` (`ChatWidget`): one widget instance.
  - `sendMessage` is split at its `await` into `SendMessage` (before) and `Complete` (after).
  - The text shown for a settled request is `Shown`.
  - A `Session` is driven by click, key, edit and settle events through `Next`, with a session invariant `Inv`.
- `php_values.dfy` (`PhpValues`): PHP values as `json_decode(.., true)` yields them.
  - `if`-truthiness and `empty`.
  - `isset` on a chain of offsets.
- `api_handler.dfy` (`ApiHandler`): the server side.
  - `handle_chat_request` is a decision ladder that records its effects: reading the option, calling upstream.
  - `call_gemini_api` covers the request it builds and how it extracts the answer.
  - `check_api_key`.
- `relay.dfy` (`Relay`): the link between the two halves.
  - How each server outcome arrives at the widget's `fetch` continuation.
  - End to end, what the visitor sees for every branch of the ladder.

The model treats these as parameters:

- WordPress primitives: `wp_verify_nonce`, the stored option, `sanitize_text_field`.
- The HTTP round trip, including JSON encoding and decoding.
- The page's nonce.

## Model

In the Markdown rows, a *clean* text has no `*`, no backtick and no line terminator. A clean run within one pass has no line terminator and does not contain the first character of that pass's delimiter.

| member | source | states |
|---|---|---|
| JsRuntime.Truthy | view.js:61-64 | JavaScript truthiness as `if (data.success)` and the fallback after `data.data.message` apply it: `undefined`, `null`, `false`, `0` and `""` are false, everything else (every object and array) is true; `Relay.TruthinessAcrossTheWire` compares it with PHP truthiness |
| JsRuntime.Prop | view.js:61-64 | reading a property throws exactly when the value is `null` or `undefined`; an own property of an object reads as its value, and every other read gives `undefined` |
| JsRuntime.TrimStart | view.js:33 | the result is a suffix of the input; everything cut is white space; the result starts with a non-space |
| JsRuntime.TrimEnd | view.js:33 | the result is a prefix of the input; everything cut is white space; the result ends with a non-space |
| JsRuntime.Trim | view.js:33 | the trimmed message is empty exactly when the input is all white space; otherwise it starts and ends with a non-space |
| JsRuntime.TrimIsSlice | view.js:33 | the trimmed message is a contiguous slice of the input, with only white space before and after it |
| JsRuntime.TrimIdempotent | view.js:33 | trimming an already trimmed message changes nothing |
| Markdown.CloseFrom | view.js:11-13 | the lazy scan of `(.*?)` from one position; `Markdown.CloseFromIsLazy` proves it finds the shortest line-free run followed by the delimiter |
| Markdown.CloseAt | view.js:11-13 | the lazy group `(.*?)` at the start of a text; `Markdown.CloseAtIsLazy` is its independent characterisation |
| Markdown.MatchAt | view.js:11-13 | whether `/D(.*?)D/` matches at the current position, and the length of the group; `Markdown.MatchAtShape` states the match's shape |
| Markdown.Apply | view.js:11-13 | one global replacement `/D(.*?)D/g` to `Open$1Close`, scanning left to right; its properties are stated by `Markdown.ApplyIdentity`, `Markdown.ApplySpan` and `Markdown.ApplyKeepsTerminators` |
| Markdown.CloseFromIsLazy | view.js:11-13 | scanning from a position with no earlier delimiter, `(.*?)` finds the shortest line-free run that is followed by the closing delimiter, or reports that none exists |
| Markdown.CloseAtIsLazy | view.js:11-13 | the lazy group at the start of a text is the shortest run followed by the delimiter that crosses no line terminator; none exists when it reports none |
| Markdown.MatchAtShape | view.js:11-13 | a match is the delimiter, a run without line terminators, then the delimiter again |
| Markdown.NoMatchAtOtherChar | view.js:11-13 | no match can start at a character other than the delimiter's first |
| Markdown.NoCloseWithout | view.js:11-13 | a text without the delimiter's first character has no closing delimiter |
| Markdown.Step | view.js:11-13 | every step of a global replace consumes at least one character and no more than remain |
| Markdown.ApplyCopies | view.js:11-13 | a stretch without the delimiter's first character passes through a substitution unchanged, ahead of whatever follows |
| Markdown.ApplyIdentity | view.js:11-13 | a text without the delimiter's first character is left unchanged by a substitution |
| Markdown.CloseAtSpan | view.js:11-13 | for delimiter, clean run, delimiter, the lazy group ends exactly at the run's end |
| Markdown.StepAtSpan | view.js:11-13 | a delimited clean run is replaced by the tags around the run in one step |
| Markdown.SpanThenRest | view.js:11-13 | a delimited clean run is replaced by the tags around it, and the scan continues on the rest |
| Markdown.ApplySpan | view.js:11-13 | a delimited clean run on its own renders as the tags around the run |
| Markdown.TerminatorsConcat | view.js:11-14 | the line terminators of a concatenation are those of each part, in order |
| Markdown.StepKeepsTerminators | view.js:11-13 | one step emits exactly the line terminators it consumed |
| Markdown.ApplyKeepsTerminators | view.js:11-13 | a span substitution neither adds, drops nor reorders line terminators |
| Markdown.PassesKeepTerminators | view.js:11-13 | the three span substitutions together keep the text's line terminators, so none of them inserts a newline |
| Markdown.Breaks | view.js:14 | the newline pass leaves no `\n` and changes nothing in a text without one |
| Markdown.BreaksConcat | view.js:14 | the newline pass works piecewise over a concatenation |
| Markdown.BreaksAtNewline | view.js:14 | each `\n` becomes `<br>` and the text before it is kept |
| Markdown.BreaksUnchangedIff | view.js:14 | the newline pass changes a text exactly when the text contains a `\n` |
| Markdown.ParseMarkdown | view.js:9-15 | the rendered HTML contains no `\n` |
| Markdown.MarkerFreeOnlyBreaks | view.js:9-15 | a text with no `*` and no backtick renders as itself with every `\n` replaced by `<br>` |
| Markdown.PlainTextUnchanged | view.js:9-15 | a text with no `*`, no backtick and no line terminator renders unchanged |
| Markdown.WrappedIsPlain | view.js:11-13 | a clean run wrapped in a rule's tags is still free of markers and line ends, so later passes leave it alone |
| Markdown.BoldSpan | view.js:11 | `**a**` renders as `<strong>a</strong>` for a clean `a` |
| Markdown.BoldSpanThenRest | view.js:9-15 | `**a**` followed by any text renders as `<strong>a</strong>` followed by the rendering of that text, for a clean `a` |
| Markdown.ItalicFirstWouldSplitBold | view.js:11-12 | had the italic pass run first, `**a**` would become `<em></em>a<em></em>`, which is why the bold pass comes first |
| Markdown.ItalicSpan | view.js:12 | `*a*` renders as `<em>a</em>` for a clean `a` |
| Markdown.ItalicSpanThenRest | view.js:9-15 | `*a*` followed by text that does not start with `*` renders as `<em>a</em>` followed by the rendering of that text, for a non-empty clean `a` |
| Markdown.NoBoldMatch | view.js:11 | the bold pass leaves `*a*` alone when `a` has no `*` |
| Markdown.NoBoldMatchThen | view.js:11 | the bold pass copies `*a*` and then continues on what follows, when neither `a` nor what follows has a `*` |
| Markdown.StarThenPlain | view.js:11 | a lone `*` is copied by the bold pass |
| Markdown.CodeSpan | view.js:13 | `` `a` `` renders as `<code>a</code>` for a clean `a` |
| Markdown.CodeSpanThenRest | view.js:9-15 | `` `a` `` followed by any text renders as `<code>a</code>` followed by the rendering of that text, for a clean `a` |
| Markdown.BoldSkipsCodedEmphasis | view.js:11 | the bold pass leaves `` `*x*` `` unchanged for a `*`-free `x` |
| Markdown.ItalicInsideCode | view.js:12 | the italic pass rewrites emphasis inside backticks |
| Markdown.EmphasisInsideCode | view.js:11-13 | emphasis inside a code span is rendered as well: code spans do not protect their content |
| Markdown.CodeSpanNotProtected | view.js:11-13 | `` `*x*` `` renders as `<code><em>x</em></code>` for a clean `x` (no `*`, no backtick, no line end) |
| ChatWidget.Fresh | view.js:29 | a new widget has an empty input, an enabled button and is not loading |
| ChatWidget.SendMessage | view.js:32-43 | nothing changes exactly when the trimmed input is empty or a request is loading; otherwise the trimmed message is posted with the fixed action and the page nonce, shown as a user entry followed by a typing indicator, the input is cleared, the button disabled and loading set |
| ChatWidget.RemoveAt | view.js:59 | removing the placeholder drops exactly that entry and keeps the others in order |
| ChatWidget.Complete | view.js:58-72 | in every branch the placeholder is removed and exactly one assistant entry appended; the button is re-enabled and loading cleared; the input is kept |
| ChatWidget.Shown | view.js:56-69 | the text appended after a request settles; `ChatWidget.ShownCharacterized` ties it to the independent `Delivers` reading of the reply |
| ChatWidget.DeliversUnique | view.js:61-65 | a reply shape delivers at most one text |
| ChatWidget.ShownWhenDelivered | view.js:61-65 | on success a string `data.response` is shown; on failure a non-empty string `data.message` is shown |
| ChatWidget.ShownDelivers | view.js:56-68 | any text other than the fallback that is shown was delivered by the reply |
| ChatWidget.ShownCharacterized | view.js:56-69 | a rejected request shows the fallback; a parsed reply shows what it delivers, or the fallback when it delivers nothing |
| ChatWidget.Trigger | view.js:99-106 | one call of `sendMessage` from an event handler: the session records the request when one is posted; `ChatWidget.TriggerInv` states what it keeps |
| ChatWidget.Next | view.js:99-106 | the widget's reaction to a click, a key press, an edit of the input, or a request settling; `ChatWidget.NextInv` and `ChatWidget.KeyTriggers` state its properties |
| ChatWidget.StartInv | view.js:29 | a page-initialised widget satisfies the session invariant |
| ChatWidget.TriggerInv | view.js:32-43 | sending keeps the invariant: the button is disabled exactly while loading, loading exactly while a request is in flight, and the only typing indicator is the last entry |
| ChatWidget.SettleInv | view.js:58-72 | settling a request in flight keeps the invariant |
| ChatWidget.NextInv | view.js:99-106 | every click, key press, edit and settle keeps the invariant |
| ChatWidget.OneRequestAtATime | view.js:34 | while a request is in flight, no event other than its settling changes the request, the transcript or the loading flag |
| ChatWidget.SecondTriggerIgnored | view.js:34 | a second send right after one that posted changes nothing |
| ChatWidget.SettleAppendsOneAnswer | view.js:58-72 | settling replaces the trailing typing indicator with exactly one assistant entry, and clears loading and the button |
| ChatWidget.KeyTriggers | view.js:101-106 | Enter without Shift, and a click on an enabled button, run `sendMessage`; other keys change nothing |
| ChatWidget.TypeAndEnter | view.js:101-106 | typing a non-blank message into an idle widget and pressing Enter posts the trimmed text and shows it above a typing indicator |
| ChatWidget.Exchange | view.js:32-65 | a full exchange adds the trimmed user message, then the delivered answer, to the transcript |
| PhpValues.ToBool | api-handler.php:36 | PHP's conversion to boolean, as `if ( $response )` applies it: `null`, `false`, `0`, `""`, `"0"` and the empty array are false |
| PhpValues.EmptyString | api-handler.php:30 | a string is `empty` exactly when it is `""` or `"0"` |
| PhpValues.Offset | api-handler.php:82 | an offset exists exactly when the value is an array holding that key, and it yields that key's entry |
| PhpValues.Lookup | api-handler.php:82-83 | a path resolves only through arrays that hold each successive key |
| PhpValues.IsSet | api-handler.php:82 | `isset` on a chain of offsets: every step exists and the value reached is not `null`; `ApiHandler.Extract` relies on it |
| PhpValues.LookupAppend | api-handler.php:82-83 | resolving a concatenated path is resolving its first part, then the rest from there |
| PhpValues.LookupNest | api-handler.php:82-83 | the value nested along a path is found again by that path |
| ApiHandler.KeyEmpty | api-handler.php:24-25 | `empty` on what `get_option` returned holds exactly for an absent option, `""` and `"0"` |
| ApiHandler.Prompt | api-handler.php:51 | the prompt is the fixed instruction text followed by the message, with nothing in between |
| ApiHandler.PromptInjective | api-handler.php:51 | different messages give different prompts |
| ApiHandler.BuildRequest | api-handler.php:44 | the URL is the fixed endpoint followed by the key |
| ApiHandler.PromptInRequest | api-handler.php:46-55 | the request body holds the prompt at `contents[0].parts[0].text` |
| ApiHandler.Extract | api-handler.php:79-86 | the answer is the value at `candidates[0].content.parts[0].text` when that is set and not null; otherwise `false` |
| ApiHandler.ExtractReply | api-handler.php:82-83 | a reply carrying any non-null answer along that path yields exactly that answer |
| ApiHandler.CallGeminiApi | api-handler.php:73-86 | a transport error gives `false`; otherwise the answer is what extraction finds in the decoded body |
| ApiHandler.StatusIgnored | api-handler.php:79-86 | two responses that differ only in their HTTP status give the same answer |
| ApiHandler.HandleChatRequest | api-handler.php:18-41 | the request dies exactly when the nonce is invalid, and a request that dies has no effects |
| ApiHandler.InvalidNonceDies | api-handler.php:20-22 | an invalid nonce ends the request with "Security check failed", before the key is read and without an upstream call |
| ApiHandler.EmptyKeyReported | api-handler.php:24-27 | an absent, `""` or `"0"` key ends the request with "API key not configured" after reading only the option |
| ApiHandler.EmptyMessageReported | api-handler.php:29-32 | an `empty` sanitized message ends the request with "Message is required" and no upstream call |
| ApiHandler.UpstreamDecides | api-handler.php:34-40 | once the checks pass, the prompt goes upstream once; a truthy answer is sent back as success, and a falsy one as "Failed to get response from AI Assistant" |
| ApiHandler.CallsUpstreamIff | api-handler.php:18-41 | the upstream API is called exactly when the nonce is valid, the key is non-empty and the sanitized message is non-empty |
| ApiHandler.TransportErrorFails | api-handler.php:75-77 | a transport error ends in the upstream failure message |
| ApiHandler.AnswerTextRelayed | api-handler.php:36-40 | for any decoded reply whose text at `candidates[0].content.parts[0].text` is a string, whatever else the reply holds and whatever its status: `""` or `"0"` is reported as a failure, any other text is sent back unchanged |
| ApiHandler.CheckApiKey | api-handler.php:89-92 | the key check always succeeds, having read only the option, and its `configured` flag is true exactly when the stored key exists and is neither `""` nor `"0"` |
| ApiHandler.CheckAgreesWithHandler | api-handler.php:89-92 | the key check reports "not configured" exactly when a chat request with a valid nonce stops at the key check |
| Relay.ToJs | view.js:56 | after the JSON round trip, a string arrives as the same string, and only strings arrive as strings |
| Relay.ObjectKeepsStringKeys | view.js:56 | an array that is not a list arrives as an object with the same string keys and the relayed values |
| Relay.Wire | api-handler.php:20-40 | the widget's request is rejected exactly when the handler died; every other outcome arrives as parsed JSON |
| Relay.TruthinessAcrossTheWire | view.js:64 | PHP and JavaScript agree on the truthiness of every relayed scalar except `"0"`; arrays are always truthy in JavaScript |
| Relay.ErrorOnTheWire | api-handler.php:26 | an error payload arrives as `{success: false, data: {message}}` |
| Relay.SuccessOnTheWire | api-handler.php:37 | a success payload arrives as `{success: true, data: {response}}` |
| Relay.ErrorShown | view.js:64 | a non-empty error message from the server is shown verbatim |
| Relay.SuccessShown | view.js:61-62 | a string answer is shown as such; any other answer shows the fallback |
| Relay.ShownForRequest | api-handler.php:18-41 | end to end, the visitor sees the fallback when the nonce fails and the server's text for a missing key or message; a falsy answer shows the upstream failure text; a truthy string answer shows the answer itself; any other truthy answer shows the fallback |
| Relay.ZeroAnswerShownAsFailure | api-handler.php:36-39 | whenever the reply carries `"0"` as its answer text, whatever else it holds, the visitor sees the upstream failure message |

## Left out

- The DOM is not modelled: element creation in `addMessage`, `innerHTML`, scrolling (view.js:75-96) and input auto-resize (view.js:108-112). A transcript entry stores the raw text; `ChatWidget.Html` gives the HTML it displays.
- `initChatBlock`'s element lookup and its early return when elements are missing (view.js:18-27) are left out, as are several widgets on one page; every widget instance is independent.
- The `geminiChatBlock` global is left out. Its nonce is a parameter, and a missing global, which would throw inside the `try` and show the fallback, is not modelled.
- `preventDefault` on Enter is left out. The model does not track the input's contents beyond the text an `Edit` event sets.
- `fetch`, `FormData` and `response.json()` are abstracted as a `Reply`: rejected, or a parsed value. `response.ok` is never consulted by the source, so nothing is lost.
- JavaScript numbers are integers, and PHP floats are not modelled. `temperature` and `topP` (api-handler.php:57-59) are therefore absent from the request body.
- The 30-second timeout, the `POST` method and the `Content-Type` header (api-handler.php:64-71) are left out.
- `json_encode`, `json_decode`, `wp_remote_request`, `wp_remote_retrieve_body`, `wp_verify_nonce` and `sanitize_text_field` are left out. They are inputs or uninterpreted functions, because their code is not part of this model.
- A missing `$_POST` field is not modelled, and the stored option is taken to be a string when present.
- Hook registration (api-handler.php:12-16, 95) is left out. That includes the fact that `check_gemini_api_key` is registered for logged-in users only and verifies no nonce.
- The admin settings page, the block editor and `render.php` are outside the core.
- Relay.ToJs: an array that is not a list keeps only its string keys, and list detection looks at the key set rather than at insertion order. Keys are taken to be in PHP's canonical form. A `json_encode` failure (invalid UTF-8) is not modelled.
- PhpValues.Lookup: does not follow string offsets. For the answer path this changes nothing, because each integer key is followed by a non-numeric string key, which `isset` never accepts on a string.
- Markdown.ParseMarkdown: its own contract states only that no `\n` is left. The lemmas above state the rest, and no lemma covers a concrete long string literal such as the fallback text.

## Behaviour that may surprise

The model follows the code in each of these cases.

- **HTTP status.** The HTTP status of the Gemini response is never checked: a non-2xx body that still carries `candidates[0].content.parts[0].text` is relayed as a success (`ApiHandler.StatusIgnored`).
- **Empty input.** The message and the stored key are checked with PHP `empty`. So a message `"0"` is answered with "Message is required", and a key `"0"` counts as not configured (`PhpValues.EmptyString`).
- **Answer truthiness.** The answer is judged by PHP truthiness, so a Gemini answer of `"0"` ends in the upstream failure message (`Relay.ZeroAnswerShownAsFailure`).
- **Non-string answers.** A non-string but truthy value at the answer path is relayed as a success. The widget then shows the fallback, because `parseMarkdown` throws on it (`Relay.SuccessShown`).
- **Error texts.** The texts the visitor sees are the server's own: "API key not configured", "Message is required" and "Failed to get response from AI Assistant". The widget's fallback "Sorry, I encountered an error. Please try again." appears in two cases: a rejected request, such as a failed nonce, and a truthy answer that is not a string (`Relay.ShownForRequest`).
- **Code spans.** Code spans do not protect their content: `` `*x*` `` renders with emphasis inside the code (`Markdown.CodeSpanNotProtected`).
