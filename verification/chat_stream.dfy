/** The streaming chat view (src/components/ChatStream.jsx) as a reducer.
    A submit records the user's message, resets the pending reply and opens
    a server-sent-event stream; the stream's events are then folded into
    the state one by one. The `error` event, which is how the stream ends,
    closes it and appends the assistant's message.

    The listeners are closures created by the submit. The `error` listener
    reads `streamedText`, `followUps` and `sources` as they were when the
    submit ran (`Snapshot`), not the values the stream accumulated; the
    other listeners use functional updates and see the latest state.
    Event payloads are given already parsed. */
module ChatStream {
  import opened JsText
  import opened JsValue

  datatype StreamMsg =
    | UserMsg(text: string)
    | AssistantMsg(text: string, followUps: Json, sources: Json)

  datatype State = State(
    messages: seq<StreamMsg>,
    currentInput: string,
    isStreaming: bool,
    streamedText: string,
    sessionId: Option<Json>,
    followUps: Json,
    sources: Json)

  const Initial: State := State([], "", false, "", None, JArr([]), JArr([]))

  /** The values the `error` listener closed over. */
  datatype Snapshot = Snapshot(streamedText: string, followUps: Json, sources: Json)

  /** One server-sent event, its `data` already parsed where the listener
      parses it. */
  datatype Event =
    | Message(chunk: string)
    | FollowUps(list: Json)
    | Sources(list: Json)
    | SessionInfo(info: Json)
    | Error

  /** A reply in progress: the state, whether the stream is still open, and
      what the `error` listener captured. */
  datatype Pending = Pending(state: State, open: bool, captured: Snapshot)

  /** A query parameter of the stream request. */
  datatype Param = Param(name: string, value: Json)

  /** The submit button is enabled, and the input editable, only while no
      reply is streaming; the button also needs a non-blank input. */
  predicate InputEnabled(s: State) {
    !s.isStreaming
  }

  predicate SubmitEnabled(s: State) {
    !s.isStreaming && Trim(s.currentInput) != ""
  }

  /** `handleSubmit`'s state updates: nothing for a blank input; otherwise
      the input, untrimmed, becomes a user message, the input is cleared,
      the pending reply is reset and streaming starts. */
  function Submit(s: State): (r: State)
    ensures Trim(s.currentInput) == "" ==> r == s
    ensures Trim(s.currentInput) != "" ==>
      && r.messages == s.messages + [UserMsg(s.currentInput)]
      && r.currentInput == "" && r.isStreaming
      && r.streamedText == "" && r.followUps == JArr([]) && r.sources == JArr([])
      && r.sessionId == s.sessionId
  {
    if Trim(s.currentInput) == "" then s
    else s.(messages := s.messages + [UserMsg(s.currentInput)],
            currentInput := "",
            isStreaming := true,
            streamedText := "",
            followUps := JArr([]),
            sources := JArr([]))
  }

  /** The query of the stream request: the message, and the session id
      exactly when one is known (truthy). */
  function RequestParams(s: State): (r: seq<Param>)
    ensures |r| >= 1 && r[0] == Param("query", JStr(s.currentInput))
    ensures |r| == 2 <==> Truthy(s.sessionId)
    ensures |r| <= 2
    ensures |r| == 2 ==> r[1] == Param("session_id", s.sessionId.value)
  {
    var q := [Param("query", JStr(s.currentInput))];
    if Truthy(s.sessionId) then q + [Param("session_id", s.sessionId.value)] else q
  }

  /** A submit that goes through, with the stream it opens. */
  function Start(s: State): (p: Pending)
    requires Trim(s.currentInput) != ""
    ensures p.open && p.state == Submit(s) && p.state.isStreaming
    ensures p.captured == Snapshot(s.streamedText, s.followUps, s.sources)
  {
    Pending(Submit(s), true, Snapshot(s.streamedText, s.followUps, s.sources))
  }

  /** The `session_id` of a `session_info` payload. Reading it from a `null`
      payload throws inside the listener, which leaves the state as it is,
      just as an absent id does. */
  function SessionOf(d: Json): (r: Option<Json>)
    ensures d.JObj? && "session_id" in d.fields ==> r == Some(d.fields["session_id"])
    ensures !d.JObj? || "session_id" !in d.fields ==> r.None?
  {
    if d.JNull? then None else Get(d, "session_id")
  }

  /** One event. A closed stream delivers nothing. */
  function Step(p: Pending, e: Event): (r: Pending)
    ensures !p.open ==> r == p
    ensures r.captured == p.captured
    ensures p.open && !e.Error? ==> r.open && r.state.messages == p.state.messages
    ensures p.open && e.Error? ==>
      && !r.open && !r.state.isStreaming
      && r.state.messages == p.state.messages
           + [AssistantMsg(p.captured.streamedText, p.captured.followUps, p.captured.sources)]
    // Each listener touches only its own field; the input is never touched.
    ensures r.state.currentInput == p.state.currentInput
    ensures !e.Error? ==> r.state.isStreaming == p.state.isStreaming
    ensures !e.Message? ==> r.state.streamedText == p.state.streamedText
    ensures !e.FollowUps? ==> r.state.followUps == p.state.followUps
    ensures !e.Sources? ==> r.state.sources == p.state.sources
    ensures !e.SessionInfo? ==> r.state.sessionId == p.state.sessionId
  {
    if !p.open then p
    else
      var s := p.state;
      match e
      case Message(d) => p.(state := s.(streamedText := s.streamedText + d))
      case FollowUps(d) => p.(state := s.(followUps := d))
      case Sources(d) => p.(state := s.(sources := d))
      case SessionInfo(d) =>
        var id := SessionOf(d);
        if Truthy(id) then p.(state := s.(sessionId := id)) else p
      case Error =>
        var c := p.captured;
        p.(open := false,
           state := s.(isStreaming := false,
                       messages := s.messages + [AssistantMsg(c.streamedText, c.followUps, c.sources)]))
  }

  function Fold(p: Pending, events: seq<Event>): Pending
    decreases |events|
  {
    if events == [] then p else Fold(Step(p, events[0]), events[1..])
  }

  /** The events the open stream delivers: those before the first `error`. */
  function Delivered(events: seq<Event>): (r: seq<Event>)
    ensures |r| <= |events| && r == events[..|r|]
    ensures forall k :: 0 <= k < |r| ==> !r[k].Error?
    ensures |r| < |events| ==> events[|r|].Error?
  {
    if events == [] || events[0].Error? then []
    else [events[0]] + Delivered(events[1..])
  }

  /** The concatenated data of the `message` events in `events`. */
  function Fragments(events: seq<Event>): string {
    if events == [] then ""
    else (if events[0].Message? then events[0].chunk else "") + Fragments(events[1..])
  }

  /** The buffer is the text it held when the stream opened followed by the
      data of every delivered `message` event, in arrival order. */
  lemma {:induction false} BufferIsFragments(p: Pending, events: seq<Event>)
    requires p.open
    ensures Fold(p, events).state.streamedText == p.state.streamedText + Fragments(Delivered(events))
    decreases |events|
  {
    if events != [] && !events[0].Error? {
      var q := Step(p, events[0]);
      BufferIsFragments(q, events[1..]);
      assert Delivered(events) == [events[0]] + Delivered(events[1..]);
      assert ([events[0]] + Delivered(events[1..]))[1..] == Delivered(events[1..]);
    } else if events != [] {
      ClosedStays(Step(p, events[0]), events[1..]);
    }
  }

  /** Once closed, a stream changes nothing. */
  lemma {:induction false} ClosedStays(p: Pending, events: seq<Event>)
    requires !p.open
    ensures Fold(p, events) == p
    decreases |events|
  {
    if events != [] {
      ClosedStays(Step(p, events[0]), events[1..]);
    }
  }

  /** The buffer only grows while the stream is open: each state along the
      way extends the previous one. */
  lemma {:induction false} BufferGrows(p: Pending, events: seq<Event>)
    requires p.open
    ensures StartsWith(Fold(p, events).state.streamedText, p.state.streamedText)
  {
    BufferIsFragments(p, events);
    var t := Fold(p, events).state.streamedText;
    assert t[..|p.state.streamedText|] == p.state.streamedText;
  }

  /** The last list payload among `events` of the given kind, or `dflt`. */
  function LastFollowUps(events: seq<Event>, dflt: Json): Json
    decreases |events|
  {
    if events == [] then dflt
    else LastFollowUps(events[1..], if events[0].FollowUps? then events[0].list else dflt)
  }

  function LastSources(events: seq<Event>, dflt: Json): Json
    decreases |events|
  {
    if events == [] then dflt
    else LastSources(events[1..], if events[0].Sources? then events[0].list else dflt)
  }

  /** `follow_ups` and `sources` events replace the pending lists: what is
      left is the last delivered payload of each kind, nothing merged. */
  lemma {:induction false} ListsReplaced(p: Pending, events: seq<Event>)
    requires p.open
    ensures Fold(p, events).state.followUps == LastFollowUps(Delivered(events), p.state.followUps)
    ensures Fold(p, events).state.sources == LastSources(Delivered(events), p.state.sources)
    decreases |events|
  {
    if events != [] && !events[0].Error? {
      ListsReplaced(Step(p, events[0]), events[1..]);
      assert Delivered(events)[1..] == Delivered(events[1..]);
    } else if events != [] {
      ClosedStays(Step(p, events[0]), events[1..]);
    }
  }

  /** The session id from the last delivered `session_info` event whose id
      is truthy, or `dflt`. */
  function LastSession(events: seq<Event>, dflt: Option<Json>): Option<Json>
    decreases |events|
  {
    if events == [] then dflt
    else LastSession(events[1..],
                     if events[0].SessionInfo? && Truthy(SessionOf(events[0].info)) then SessionOf(events[0].info) else dflt)
  }

  /** A `session_info` event adopts its id only when the id is truthy, and
      then even over a known one; otherwise the session id is kept. */
  lemma {:induction false} SessionAdopted(p: Pending, events: seq<Event>)
    requires p.open
    ensures Fold(p, events).state.sessionId == LastSession(Delivered(events), p.state.sessionId)
    decreases |events|
  {
    if events != [] && !events[0].Error? {
      SessionAdopted(Step(p, events[0]), events[1..]);
      assert Delivered(events)[1..] == Delivered(events[1..]);
    } else if events != [] {
      ClosedStays(Step(p, events[0]), events[1..]);
    }
  }

  /** A stream that ends appends exactly one message, the assistant's, built
      from the captured snapshot, and stops streaming; a stream still open
      appends nothing and is still streaming, so the input and the submit
      button stay disabled exactly as long as the stream is open. */
  lemma {:induction false} StreamOutcome(p: Pending, events: seq<Event>)
    requires p.open && p.state.isStreaming
    ensures var r := Fold(p, events);
            && (r.open <==> |Delivered(events)| == |events|)
            && (r.open ==> r.state.messages == p.state.messages && r.state.isStreaming)
            && (r.open ==> !InputEnabled(r.state) && !SubmitEnabled(r.state))
            && (!r.open ==> InputEnabled(r.state))
            && (!r.open ==>
                  && !r.state.isStreaming
                  && r.state.messages == p.state.messages
                       + [AssistantMsg(p.captured.streamedText, p.captured.followUps, p.captured.sources)])
    decreases |events|
  {
    if events != [] && !events[0].Error? {
      StreamOutcome(Step(p, events[0]), events[1..]);
      assert Delivered(events) == [events[0]] + Delivered(events[1..]);
    } else if events != [] {
      ClosedStays(Step(p, events[0]), events[1..]);
    }
  }

  /** `selectFollowUp` as written: the question is queued into the input,
      but the submit that follows reads the input the handler closed over.
      With a blank input nothing is sent and the question just sits in the
      input; otherwise the old input is what gets sent. */
  function SelectFollowUp(s: State, question: string): (r: State)
    ensures Trim(s.currentInput) == "" ==> r == s.(currentInput := question)
    ensures Trim(s.currentInput) != "" ==> r == Submit(s)
  {
    if Trim(s.currentInput) == "" then s.(currentInput := question) else Submit(s)
  }

  /** Clicking a follow-up never sends the question itself unless it equals
      what was already typed. */
  lemma {:induction false} FollowUpSendsOldInput(s: State, question: string)
    requires Trim(s.currentInput) != ""
    ensures var r := SelectFollowUp(s, question);
            r.messages == s.messages + [UserMsg(s.currentInput)] && r.currentInput == ""
  {
  }

  // ---------------------------------------------------------------------
  // The message a finished stream appends.

  /** The stale snapshot shows: after a first question whose reply streams
      `"Hello"`, the appended assistant message is empty. */
  lemma {:induction false} StaleReplyText()
    ensures var p := Fold(Start(Initial.(currentInput := "hi")), [Message("Hello"), Error]);
            && p.state.messages[|p.state.messages| - 1] == AssistantMsg("", JArr([]), JArr([]))
            && p.state.streamedText == "Hello"
  {
    var p0 := Start(Initial.(currentInput := "hi"));
    assert Trim("hi") != "" by { assert !IsSpace('h'); }
    var p1 := Step(p0, Message("Hello"));
    var p2 := Step(p1, Error);
    assert Fold(p0, [Message("Hello"), Error]) == Fold(p1, [Error]);
    assert Fold(p1, [Error]) == Fold(p2, []);
  }

  /** The `error` listener reading the accumulated state instead of the
      snapshot. */
  function StepCurrent(p: Pending, e: Event): (r: Pending)
    ensures e.Error? && p.open ==>
      && !r.open && !r.state.isStreaming
      && r.state.messages == p.state.messages
           + [AssistantMsg(p.state.streamedText, p.state.followUps, p.state.sources)]
    ensures !(e.Error? && p.open) ==> r == Step(p, e)
  {
    if e.Error? && p.open then
      var s := p.state;
      p.(open := false,
         state := s.(isStreaming := false,
                     messages := s.messages + [AssistantMsg(s.streamedText, s.followUps, s.sources)]))
    else Step(p, e)
  }

  function FoldCurrent(p: Pending, events: seq<Event>): Pending
    decreases |events|
  {
    if events == [] then p else FoldCurrent(StepCurrent(p, events[0]), events[1..])
  }

  /** With the accumulated state read at the end, a finished stream appends
      exactly the streamed text, the last follow-up list and the last source
      list the stream delivered. */
  lemma {:induction false} CurrentReplyIsStreamed(p: Pending, events: seq<Event>)
    requires p.open
    requires |Delivered(events)| < |events|
    ensures var r := FoldCurrent(p, events);
            var d := Delivered(events);
            && !r.open
            && r.state.messages == p.state.messages + [AssistantMsg(
                 p.state.streamedText + Fragments(d),
                 LastFollowUps(d, p.state.followUps),
                 LastSources(d, p.state.sources))]
    decreases |events|
  {
    if !events[0].Error? {
      var q := StepCurrent(p, events[0]);
      CurrentReplyIsStreamed(q, events[1..]);
      var d := Delivered(events);
      assert d == [events[0]] + Delivered(events[1..]);
      assert d[1..] == Delivered(events[1..]);
      assert LastFollowUps(d, p.state.followUps) == LastFollowUps(d[1..], q.state.followUps);
      assert LastSources(d, p.state.sources) == LastSources(d[1..], q.state.sources);
      assert Fragments(d) == (if events[0].Message? then events[0].chunk else "") + Fragments(d[1..]);
      var c := if events[0].Message? then events[0].chunk else "";
      assert q.state.streamedText == p.state.streamedText + c;
      assert q.state.messages == p.state.messages;
      assert (p.state.streamedText + c) + Fragments(d[1..]) == p.state.streamedText + (c + Fragments(d[1..]));
    } else {
      CurrentClosedStays(StepCurrent(p, events[0]), events[1..]);
      assert Delivered(events) == [];
      assert p.state.streamedText + Fragments([]) == p.state.streamedText;
    }
  }

  lemma {:induction false} CurrentClosedStays(p: Pending, events: seq<Event>)
    requires !p.open
    ensures FoldCurrent(p, events) == p
    decreases |events|
  {
    if events != [] {
      CurrentClosedStays(StepCurrent(p, events[0]), events[1..]);
    }
  }
}
