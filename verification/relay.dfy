/**
 The wire between the two halves: how an outcome of the AJAX handler
 reaches the widget's `fetch` continuation, and what the widget then shows.
 `wp_send_json_success`/`wp_send_json_error` send `{"success": .., "data": ..}`,
 which `response.json()` parses back; `wp_die` in an AJAX request sends its
 message as plain text, on which `response.json()` rejects.
 */
module Relay {
  import opened Wrappers
  import opened JsRuntime
  import opened PhpValues
  import opened ApiHandler
  import opened ChatWidget

  /** A PHP array that `json_encode` writes as a JSON list: its keys are exactly `0 .. n-1`. */
  predicate IsList(m: map<Key, PhpValue>) {
    forall i :: 0 <= i < |m| ==> IntKey(i) in m
  }

  /** The string keys of an array. */
  function StringKeys(m: map<Key, PhpValue>): set<string> {
    set k | k in m.Keys && k.StrKey? :: k.s
  }

  /**
   The JavaScript value `JSON.parse(json_encode(v))` yields. A list becomes
   an array; any other array becomes an object over its string keys.
   */
  function ToJs(v: PhpValue): (r: JsValue)
    ensures r.Str? <==> v.PString?
    ensures v.PString? ==> r == Str(v.s)
    ensures r != Undefined
    decreases v
  {
    match v
    case PNull => Null
    case PBool(b) => Bool(b)
    case PInt(i) => Num(i)
    case PString(s) => Str(s)
    case PArray(m) =>
      if IsList(m) then Arr(seq(|m|, i requires 0 <= i < |m| => ToJs(m[IntKey(i)])))
      else Obj(map s | s in StringKeys(m) :: ToJs(m[StrKey(s)]))
  }

  /** An array that is not a list reaches JavaScript as an object with the same string keys and the relayed values. */
  lemma ObjectKeepsStringKeys(m: map<Key, PhpValue>)
    requires !IsList(m)
    ensures ToJs(PArray(m)).Obj?
    ensures forall s :: s in ToJs(PArray(m)).props <==> StrKey(s) in m
    ensures forall s :: s in ToJs(PArray(m)).props ==> ToJs(PArray(m)).props[s] == ToJs(m[StrKey(s)])
  {
    forall s ensures s in StringKeys(m) <==> StrKey(s) in m {
      if StrKey(s) in m {
        assert StrKey(s).s == s;
      }
    }
  }

  /** What the `fetch` continuation receives for an outcome. */
  function Wire(outcome: Outcome): (reply: Reply)
    ensures reply.Rejected? <==> outcome.Died?
  {
    match outcome
    case Died(_) => Rejected
    case SentJson(success, data) => Parsed(Obj(map["success" := Bool(success), "data" := ToJs(data)]))
  }

  /**
   PHP and JavaScript agree on the truthiness of every relayed scalar except
   the string `"0"`; an array is truthy in JavaScript even when it is empty.
   */
  lemma TruthinessAcrossTheWire(v: PhpValue)
    ensures !v.PArray? && v != PString("0") ==> Truthy(ToJs(v)) == ToBool(v)
    ensures v == PString("0") ==> Truthy(ToJs(v)) && !ToBool(v)
    ensures v.PArray? ==> Truthy(ToJs(v))
  {
  }

  /** An error payload reaches the widget as an object whose `message` is the error text. */
  lemma ErrorOnTheWire(m: string)
    ensures ToJs(ErrorData(m)) == Obj(map["message" := Str(m)])
    ensures Wire(SentJson(false, ErrorData(m))) == Parsed(Obj(map["success" := Bool(false), "data" := Obj(map["message" := Str(m)])]))
  {
    var e := ErrorData(m).entries;
    assert !IsList(e) by {
      assert IntKey(0) !in e;
    }
    ObjectKeepsStringKeys(e);
    var o := ToJs(ErrorData(m)).props;
    assert o.Keys == {"message"};
  }

  /** A success payload reaches the widget as an object whose `response` is the relayed answer. */
  lemma SuccessOnTheWire(v: PhpValue)
    ensures ToJs(SuccessData(v)) == Obj(map["response" := ToJs(v)])
    ensures Wire(SentJson(true, SuccessData(v))) == Parsed(Obj(map["success" := Bool(true), "data" := Obj(map["response" := ToJs(v)])]))
  {
    var e := SuccessData(v).entries;
    assert !IsList(e) by {
      assert IntKey(0) !in e;
    }
    ObjectKeepsStringKeys(e);
    var o := ToJs(SuccessData(v)).props;
    assert o.Keys == {"response"};
  }

  /** An error outcome with a non-empty message shows that message. */
  lemma ErrorShown(m: string)
    requires m != ""
    ensures Shown(Wire(SentJson(false, ErrorData(m)))) == m
  {
    ErrorOnTheWire(m);
    var data := Obj(map["success" := Bool(false), "data" := Obj(map["message" := Str(m)])]);
    assert Delivers(data, m);
    ShownWhenDelivered(data, m);
  }

  /** A success outcome shows the answer when it is a string and the fallback otherwise. */
  lemma SuccessShown(v: PhpValue)
    ensures v.PString? ==> Shown(Wire(SentJson(true, SuccessData(v)))) == v.s
    ensures !v.PString? ==> Shown(Wire(SentJson(true, SuccessData(v)))) == Fallback
  {
    SuccessOnTheWire(v);
    var inner := Obj(map["response" := ToJs(v)]);
    var data := Obj(map["success" := Bool(true), "data" := inner]);
    assert Prop(data, "success") == Got(Bool(true));
    assert Prop(data, "data") == Got(inner);
    assert Prop(inner, "response") == Got(ToJs(v));
    if v.PString? {
      assert Delivers(data, v.s);
      ShownWhenDelivered(data, v.s);
    }
  }

  /**
   What the widget shows for one chat request, end to end: the fallback
   when the nonce is rejected, the server's error text when the key or the
   message is missing or the answer is falsy, and the answer itself when it
   is a truthy string (a truthy non-string answer shows the fallback).
   */
  lemma ShownForRequest(host: Host, post: Post)
    ensures var shown := Shown(Wire(HandleChatRequest(host, post).outcome));
      var valid := host.nonceValid(post.nonce, NonceAction);
      var message := host.sanitize(post.message);
      && (!valid ==> shown == Fallback)
      && (valid && KeyEmpty(host.storedKey) ==> shown == KeyMissing)
      && (valid && !KeyEmpty(host.storedKey) && Empty(PString(message)) ==> shown == MessageRequired)
      && (valid && !KeyEmpty(host.storedKey) && !Empty(PString(message)) ==>
            var answer := CallGeminiApi(host.storedKey.value, message, host.upstream);
            shown == if !ToBool(answer) then UpstreamFailed else if answer.PString? then answer.s else Fallback)
  {
    var valid := host.nonceValid(post.nonce, NonceAction);
    if valid && KeyEmpty(host.storedKey) {
      EmptyKeyReported(host, post);
      ErrorShown(KeyMissing);
    } else if valid && Empty(PString(host.sanitize(post.message))) {
      EmptyMessageReported(host, post);
      ErrorShown(MessageRequired);
    } else if valid {
      var answer := CallGeminiApi(host.storedKey.value, host.sanitize(post.message), host.upstream);
      UpstreamDecides(host, post);
      if ToBool(answer) {
        SuccessShown(answer);
      } else {
        ErrorShown(UpstreamFailed);
      }
    }
  }

  /** A Gemini answer of `"0"` reaches the user as the upstream failure text, although `"0"` is a non-empty string. */
  lemma ZeroAnswerShownAsFailure(host: Host, post: Post)
    requires host.nonceValid(post.nonce, NonceAction) && !KeyEmpty(host.storedKey)
    requires !Empty(PString(host.sanitize(post.message)))
    requires var r := host.upstream(BuildRequest(host.storedKey.value, host.sanitize(post.message)));
      r.HttpResponse? && Lookup(r.decoded, ResponsePath) == Some(PString("0"))
    ensures Shown(Wire(HandleChatRequest(host, post).outcome)) == UpstreamFailed
  {
    AnswerTextRelayed(host, post, "0");
    ErrorShown(UpstreamFailed);
  }
}
