/**
 One chat widget on the page: its `sendMessage` state machine and the events
 that drive it.

 `sendMessage` is an `async` function with one suspension point (the
 `fetch`/`response.json()` pair). It is modelled as two pure transitions:
 `SendMessage` runs everything before the `await` and yields the request it
 posts, and `Complete` runs everything after it, given how the request
 settled. A `Session` pairs the widget with the request still in flight, and
 `Next` applies one user or network event.
 */
module ChatWidget {
  import opened Wrappers
  import opened JsRuntime
  import opened Markdown

  /** Who a transcript entry is attributed to (`user-message` / `assistant-message`). */
  datatype Role = User | Assistant

  /** An entry's content: a message text, or the three-dot typing indicator. */
  datatype Body = Message(text: string) | Typing

  datatype Entry = Entry(role: Role, body: Body)

  /** The HTML a message entry displays: `addMessage` renders its text with `parseMarkdown`. */
  function Html(e: Entry): string
    requires e.body.Message?
  {
    ParseMarkdown(e.body.text)
  }

  /** The widget's state: the input box, the send button, the `isLoading` flag and the message list. */
  datatype Widget = Widget(input: string, sendDisabled: bool, isLoading: bool, transcript: seq<Entry>)

  /** The form fields posted to `admin-ajax.php`. */
  datatype Request = Request(action: string, message: string, nonce: string)

  /** A request in flight and the transcript position of its typing indicator. */
  datatype Pending = Pending(request: Request, placeholder: nat)

  /** What one call of `sendMessage` does before it suspends. */
  datatype Triggered = Triggered(widget: Widget, sent: Option<Pending>)

  /** How the posted request settled: a rejected `fetch` or `json()`, or a parsed JSON body. */
  datatype Reply = Rejected | Parsed(data: JsValue)

  const Action := "gemini_chat_request"
  const Fallback := "Sorry, I encountered an error. Please try again."

  /** A widget as the page creates it: empty input, enabled button, not loading. */
  function Fresh(welcome: seq<Entry>): (w: Widget)
    ensures !w.isLoading && !w.sendDisabled && w.input == [] && w.transcript == welcome
  {
    Widget([], false, false, welcome)
  }


  /**
   `sendMessage` up to the `await`: nothing happens when the trimmed input is
   empty or a request is already loading; otherwise the trimmed message is
   shown and posted, the input cleared, the button disabled and a typing
   indicator appended.
   */
  function SendMessage(w: Widget, nonce: string): (t: Triggered)
    ensures t.sent.None? <==> w.isLoading || AllSpace(w.input)
    ensures t.sent.None? ==> t.widget == w
    ensures t.sent.Some? ==>
      var p := t.sent.value;
      && p.request.action == Action && p.request.nonce == nonce
      && p.request.message != [] && p.request.message == Trim(w.input)
      && t.widget.input == [] && t.widget.sendDisabled && t.widget.isLoading
      && t.widget.transcript == w.transcript + [Entry(User, Message(p.request.message)), Entry(Assistant, Typing)]
      && p.placeholder == |t.widget.transcript| - 1
  {
    var message := Trim(w.input);
    if message == [] || w.isLoading then Triggered(w, None)
    else
      var shown := w.transcript + [Entry(User, Message(message))];
      var request := Request(Action, message, nonce);
      Triggered(Widget([], true, true, shown + [Entry(Assistant, Typing)]), Some(Pending(request, |shown|)))
  }

  /** An object's own property, `undefined` when absent or when `v` is not an object. */
  function Get(v: JsValue, name: string): JsValue {
    if v.Obj? && name in v.props then v.props[name] else Undefined
  }

  /**
   The text the widget shows once the request settles, following the
   evaluation order of the `try` block: `data.success`, then
   `data.data.response` or `data.data.message || fallback`, then
   `parseMarkdown`, which throws unless it is handed a string. Every throw and
   every rejected promise lands in the `catch`, which shows the fallback text.
   */
  function Shown(reply: Reply): string {
    match reply
    case Rejected => Fallback
    case Parsed(data) =>
      match Prop(data, "success")
      case Threw => Fallback
      case Got(success) =>
        match Prop(data, "data")
        case Threw => Fallback
        case Got(inner) =>
          if Truthy(success) then
            match Prop(inner, "response")
            case Threw => Fallback
            case Got(v) => if v.Str? then v.s else Fallback
          else
            match Prop(inner, "message")
            case Threw => Fallback
            case Got(v) => if !Truthy(v) then Fallback else if v.Str? then v.s else Fallback
  }

  /**
   The reply shapes under which the widget shows `t` rather than the fallback,
   stated on the object tree: an object with an object `data`; on success its
   `response` is the string `t`, otherwise its `message` is the non-empty
   string `t`.
   */
  predicate Delivers(data: JsValue, t: string) {
    && data.Obj?
    && Get(data, "data").Obj?
    && if Truthy(Get(data, "success"))
       then Get(Get(data, "data"), "response") == Str(t)
       else t != [] && Get(Get(data, "data"), "message") == Str(t)
  }

  /** A reply shape delivers at most one text. */
  lemma DeliversUnique(data: JsValue, t: string, u: string)
    requires Delivers(data, t) && Delivers(data, u)
    ensures t == u
  {
  }

  /** `Shown` is the delivered text when the reply has one of the shapes above, and the fallback otherwise. */
  lemma ShownCharacterized(reply: Reply)
    ensures reply.Rejected? ==> Shown(reply) == Fallback
    ensures reply.Parsed? ==>
      Delivers(reply.data, Shown(reply)) || (Shown(reply) == Fallback && forall t :: !Delivers(reply.data, t))
  {
    if reply.Parsed? {
      var data := reply.data;
      ShownDelivers(data);
      forall t | Delivers(data, t) ensures Delivers(data, Shown(reply)) {
        ShownWhenDelivered(data, t);
      }
    }
  }

  /** Any text other than the fallback that the widget shows was delivered by the reply. */
  lemma ShownDelivers(data: JsValue)
    ensures Shown(Parsed(data)) != Fallback ==> Delivers(data, Shown(Parsed(data)))
  {
  }

  /** Whatever reply shape delivers `t`, the widget shows `t`. */
  lemma ShownWhenDelivered(data: JsValue, t: string)
    requires Delivers(data, t)
    ensures Shown(Parsed(data)) == t
  {
    assert Prop(data, "success") == Got(Get(data, "success"));
    assert Prop(data, "data") == Got(Get(data, "data"));
  }

  /** Removes the entry at `i`; an out-of-range `i` (a node already detached) changes nothing. */
  function RemoveAt(s: seq<Entry>, i: nat): (r: seq<Entry>)
    ensures i < |s| ==> |r| == |s| - 1 && forall j :: 0 <= j < |r| ==> r[j] == (if j < i then s[j] else s[j + 1])
    ensures i >= |s| ==> r == s
  {
    if i < |s| then s[..i] + s[i + 1..] else s
  }

  /** The assistant entry for a settled request. */
  function AnswerEntry(reply: Reply): Entry {
    Entry(Assistant, Message(Shown(reply)))
  }

  /**
   `sendMessage` after the `await`: in every branch the typing indicator is
   removed and exactly one assistant entry appended, then the button is
   re-enabled and `isLoading` cleared. The input keeps whatever was typed
   meanwhile.
   */
  function Complete(w: Widget, p: Pending, reply: Reply): (v: Widget)
    ensures !v.isLoading && !v.sendDisabled && v.input == w.input
    ensures v.transcript == RemoveAt(w.transcript, p.placeholder) + [AnswerEntry(reply)]
  {
    Widget(w.input, false, false, RemoveAt(w.transcript, p.placeholder) + [AnswerEntry(reply)])
  }

  // ---------------------------------------------------------------------------
  // The widget driven by events

  /** The widget and the request it is waiting for, if any. */
  datatype Session = Session(widget: Widget, inflight: Option<Pending>)

  /**
   A click on the send button, a key press in the input (`key` as in
   `KeyboardEvent.key`), an edit of the input's text, or the settling of the
   request in flight.
   */
  datatype Event = Click | KeyDown(key: string, shift: bool) | Edit(text: string) | Settle(reply: Reply)

  function Start(welcome: seq<Entry>): Session {
    Session(Fresh(welcome), None)
  }

  /** Runs `sendMessage` from a session, recording the request it posts. */
  function Trigger(s: Session, nonce: string): Session {
    var t := SendMessage(s.widget, nonce);
    if t.sent.Some? then Session(t.widget, t.sent) else s
  }

  /** Enter without Shift sends (its default action, a new line, is prevented); every other key is left to the browser. */
  predicate SendsOnKey(key: string, shift: bool) {
    key == "Enter" && !shift
  }

  /** One event. A disabled button fires no click; a settle with nothing in flight changes nothing. */
  function Next(s: Session, e: Event, nonce: string): Session {
    match e
    case Click => if s.widget.sendDisabled then s else Trigger(s, nonce)
    case KeyDown(key, shift) => if SendsOnKey(key, shift) then Trigger(s, nonce) else s
    case Edit(text) => Session(s.widget.(input := text), s.inflight)
    case Settle(reply) =>
      match s.inflight
      case None => s
      case Some(p) => Session(Complete(s.widget, p, reply), None)
  }

  /**
   The session invariant: the button is disabled exactly while loading,
   loading exactly while a request is in flight, and the only typing indicator
   is the last entry, present exactly while a request is in flight.
   */
  predicate Inv(s: Session) {
    var tr := s.widget.transcript;
    && s.widget.sendDisabled == s.widget.isLoading
    && (s.inflight.Some? <==> s.widget.isLoading)
    && (s.inflight.Some? ==> s.inflight.value.placeholder == |tr| - 1 && tr[|tr| - 1] == Entry(Assistant, Typing))
    && (forall i :: 0 <= i < |tr| && tr[i].body.Typing? ==> s.inflight.Some? && i == |tr| - 1)
  }

  /** Every entry of `tr` is a message. */
  predicate Settled(tr: seq<Entry>) {
    forall i :: 0 <= i < |tr| ==> tr[i].body.Message?
  }

  lemma StartInv(welcome: seq<Entry>)
    requires Settled(welcome)
    ensures Inv(Start(welcome))
  {
  }

  /** Every event keeps the invariant. */
  lemma NextInv(s: Session, e: Event, nonce: string)
    requires Inv(s)
    ensures Inv(Next(s, e, nonce))
  {
    match e
    case Click =>
      if !s.widget.sendDisabled {
        TriggerInv(s, nonce);
      }
    case KeyDown(key, shift) =>
      if SendsOnKey(key, shift) {
        TriggerInv(s, nonce);
      }
    case Edit(_) =>
    case Settle(reply) =>
      if s.inflight.Some? {
        SettleInv(s, reply);
      }
  }

  lemma TriggerInv(s: Session, nonce: string)
    requires Inv(s)
    ensures Inv(Trigger(s, nonce))
  {
    var t := SendMessage(s.widget, nonce);
    if t.sent.Some? {
      var tr, tr2 := s.widget.transcript, t.widget.transcript;
      forall i | 0 <= i < |tr2| - 1 ensures tr2[i].body.Message? {
        if i < |tr| {
          assert tr2[i] == tr[i];
        } else {
          assert tr2[i] == Entry(User, Message(t.sent.value.request.message));
        }
      }
    }
  }

  lemma SettleInv(s: Session, reply: Reply)
    requires Inv(s) && s.inflight.Some?
    ensures Inv(Next(s, Settle(reply), ""))
  {
    var tr := s.widget.transcript;
    var n := Next(s, Settle(reply), "");
    var rest := RemoveAt(tr, s.inflight.value.placeholder);
    assert n.widget.transcript == rest + [AnswerEntry(reply)];
    forall i | 0 <= i < |rest| ensures rest[i].body.Message? {
      assert rest[i] == tr[i];
    }
  }

  /** While a request is in flight, no event except its settling posts another request or touches the transcript. */
  lemma OneRequestAtATime(s: Session, e: Event, nonce: string)
    requires Inv(s) && s.inflight.Some? && !e.Settle?
    ensures Next(s, e, nonce).inflight == s.inflight
    ensures Next(s, e, nonce).widget.transcript == s.widget.transcript
    ensures Next(s, e, nonce).widget.isLoading
  {
  }

  /** Triggering twice in a row posts once: the second trigger finds the widget loading. */
  lemma SecondTriggerIgnored(s: Session, nonce: string, nonce2: string)
    requires Trigger(s, nonce).inflight != s.inflight
    ensures Trigger(Trigger(s, nonce), nonce2) == Trigger(s, nonce)
  {
  }

  /**
   Settling a request in flight removes its typing indicator and appends
   exactly one assistant entry after the entries that were there before it.
   */
  lemma SettleAppendsOneAnswer(s: Session, reply: Reply, nonce: string)
    requires Inv(s) && s.inflight.Some?
    ensures var tr := s.widget.transcript; var n := Next(s, Settle(reply), nonce);
      && n.inflight.None? && !n.widget.isLoading && !n.widget.sendDisabled
      && n.widget.transcript == tr[..|tr| - 1] + [AnswerEntry(reply)]
      && Settled(n.widget.transcript) == Settled(tr[..|tr| - 1])
  {
    var tr := s.widget.transcript;
    assert RemoveAt(tr, |tr| - 1) == tr[..|tr| - 1];
  }

  /** Enter without Shift, and a click on an enabled button, both run `sendMessage`; other keys change nothing. */
  lemma KeyTriggers(s: Session, key: string, shift: bool, nonce: string)
    ensures SendsOnKey(key, shift) ==> Next(s, KeyDown(key, shift), nonce) == Trigger(s, nonce)
    ensures !SendsOnKey(key, shift) ==> Next(s, KeyDown(key, shift), nonce) == s
    ensures !s.widget.sendDisabled ==> Next(s, Click, nonce) == Trigger(s, nonce)
  {
  }

  /** Typing a message into an idle widget and pressing Enter sends it and shows it above a typing indicator. */
  lemma TypeAndEnter(s: Session, text: string, nonce: string)
    requires Inv(s) && s.inflight.None? && !AllSpace(text)
    ensures var s1 := Next(Next(s, Edit(text), nonce), KeyDown("Enter", false), nonce);
      && Inv(s1) && s1.inflight.Some? && s1.inflight.value.request.message == Trim(text)
      && s1.widget.transcript == s.widget.transcript + [Entry(User, Message(Trim(text))), Entry(Assistant, Typing)]
  {
    var s0 := Next(s, Edit(text), nonce);
    NextInv(s, Edit(text), nonce);
    NextInv(s0, KeyDown("Enter", false), nonce);
    assert SendsOnKey("Enter", false);
  }

  /**
   A whole exchange from an idle widget: typing a message and pressing Enter
   shows it as a user entry, and a successful reply carrying `t` replaces the
   typing indicator with `t`.
   */
  lemma Exchange(s: Session, text: string, data: JsValue, t: string, nonce: string)
    requires Inv(s) && s.inflight.None? && !AllSpace(text)
    requires Delivers(data, t)
    ensures var s1 := Next(Next(s, Edit(text), nonce), KeyDown("Enter", false), nonce);
      && s1.inflight.Some? && s1.inflight.value.request.message == Trim(text)
      && Next(s1, Settle(Parsed(data)), nonce).widget.transcript
         == s.widget.transcript + [Entry(User, Message(Trim(text))), Entry(Assistant, Message(t))]
  {
    var s1 := Next(Next(s, Edit(text), nonce), KeyDown("Enter", false), nonce);
    TypeAndEnter(s, text, nonce);
    ShownWhenDelivered(data, t);
    var tr1 := s1.widget.transcript;
    assert tr1[..|tr1| - 1] == s.widget.transcript + [Entry(User, Message(Trim(text)))];
    SettleAppendsOneAnswer(s1, Parsed(data), nonce);
  }
}
