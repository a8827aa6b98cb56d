/** The conversation state of the chat page (src/App.js): the current chat,
    its messages, the composer (text input and attached file), the sidebar
    history and the typing flag, with the transitions the page performs.

    Clock readings are parameters: `now` stands for `Date.now()` (it is used
    both as the new chat's id and as message ids), `time` for the
    locale-formatted time of day and `iso` for the ISO date of a new entry.
    React applies the state updates queued by one handler in order, each to
    the result of the previous one, while the handler itself keeps reading
    the values it closed over; the transitions below follow that reading. */
module ChatApp {
  import opened JsText
  import opened JsValue

  datatype ChatMsg = ChatMsg(id: int, from: string, text: string, timestamp: string)

  /** One sidebar history entry. */
  datatype Entry = Entry(id: int, title: string, date: string, lastMessage: string)

  datatype File = File(name: string)

  datatype State = State(
    currentChatId: Option<int>,
    messages: seq<ChatMsg>,
    input: string,
    selectedFile: Option<File>,
    history: seq<Entry>,
    isTyping: bool)

  const Welcome: string := "Hello \U{1F44B} I'm Echo AI. How can I assist you today?"
  const BotReply: string := "I understand your message. How can I help you further?"
  const DefaultTitle: string := "New Conversation"
  const TitleLength: nat := 30

  /** The page as it first appears. */
  const Initial: State := State(None, [], "", None, [], false)

  /** `!currentChatId`: no chat is open (`null`, or the falsy id 0). */
  predicate NoChat(id: Option<int>) {
    id.None? || id.value == 0
  }

  /** `chat.id === currentChatId`: a `null` current id equals no entry id. */
  predicate IsCurrent(e: Entry, current: Option<int>) {
    current == Some(e.id)
  }

  /** The title an entry gets when a message `text` is sent in it: a default
      title is replaced by `Chat about ` and the first 30 characters of the
      message followed by `...`; any other title is kept. */
  function NextTitle(title: string, text: string): (r: string)
    ensures title != DefaultTitle ==> r == title
    ensures title == DefaultTitle ==>
      var n := if |text| < TitleLength then |text| else TitleLength;
      && |r| == 14 + n
      && r[..11] == "Chat about "
      && r[11..11 + n] == text[..n]
      && r[11 + n..] == "..."
  {
    if title == DefaultTitle then
      var n := if |text| < TitleLength then |text| else TitleLength;
      "Chat about " + text[..n] + "..."
    else title
  }

  /** A title is derived once: after the first rewrite, later messages keep it. */
  lemma {:induction false} TitleSetOnce(title: string, a: string, b: string)
    ensures NextTitle(NextTitle(title, a), b) == NextTitle(title, a)
  {
    if title == DefaultTitle {
      var r := NextTitle(title, a);
      assert r[..11] == "Chat about ";
      assert |r| >= 14;
      assert r != DefaultTitle by {
        assert |DefaultTitle| == 16;
        if |r| == 16 {
          assert r[0] == 'C' && DefaultTitle[0] == 'N';
        }
      }
    }
  }

  /** The history update of a send: the entry whose id is `current` records
      `text` as its last message and, if `retitle`, gets its next title;
      every other entry, and the order, stay as they are. */
  function MapHistory(h: seq<Entry>, current: Option<int>, text: string, retitle: bool): (r: seq<Entry>)
    ensures |r| == |h|
    ensures forall k :: 0 <= k < |h| && !IsCurrent(h[k], current) ==> r[k] == h[k]
    ensures forall k :: 0 <= k < |h| && IsCurrent(h[k], current) ==>
      && r[k].id == h[k].id && r[k].date == h[k].date
      && r[k].lastMessage == text
      && r[k].title == (if retitle then NextTitle(h[k].title, text) else h[k].title)
    decreases |h|
  {
    if h == [] then []
    else
      var e := h[0];
      var e' := if IsCurrent(e, current)
                then e.(lastMessage := text, title := if retitle then NextTitle(e.title, text) else e.title)
                else e;
      [e'] + MapHistory(h[1..], current, text, retitle)
  }

  /** `startNewChat`: one welcome message, a fresh default-titled entry in
      front of the history, and the new chat made current. */
  function StartNewChat(s: State, now: int, time: string, iso: string): (r: State)
    ensures r.messages == [ChatMsg(now, "bot", Welcome, time)]
    ensures |r.history| == |s.history| + 1 && r.history[1..] == s.history
    ensures r.history[0] == Entry(now, DefaultTitle, iso, Welcome)
    ensures r.currentChatId == Some(now)
    ensures r.input == s.input && r.selectedFile == s.selectedFile && r.isTyping == s.isTyping
  {
    s.(messages := [ChatMsg(now, "bot", Welcome, time)],
       history := [Entry(now, DefaultTitle, iso, Welcome)] + s.history,
       currentChatId := Some(now))
  }

  /** Nothing to send: the input is blank and no file is attached. */
  predicate NothingToSend(s: State) {
    Trim(s.input) == "" && s.selectedFile.None?
  }

  /** The text of the user message a send produces. */
  function OutgoingText(s: State): (r: string)
    ensures s.selectedFile.Some? ==> r == "\U{1F4CE} Uploaded: " + s.selectedFile.value.name
    ensures s.selectedFile.None? ==> r == Trim(s.input) && (r == "" <==> AllSpace(s.input))
  {
    if s.selectedFile.Some? then "\U{1F4CE} Uploaded: " + s.selectedFile.value.name else Trim(s.input)
  }

  /** `sendMessage` as written: a no-op when there is nothing to send;
      otherwise it starts a chat if none is open, appends the user message,
      updates the history entry of the chat that was current when the
      handler ran (`s.currentChatId`, read before the auto-start), shows the
      typing indicator and clears whichever of file or input was used. */
  function Send(s: State, now: int, time: string, iso: string): (r: State)
    ensures NothingToSend(s) ==> r == s
    ensures !NothingToSend(s) ==>
      var base := if NoChat(s.currentChatId) then StartNewChat(s, now, time, iso) else s;
      && r.messages == base.messages + [ChatMsg(now, "user", OutgoingText(s), time)]
      && r.history == MapHistory(base.history, s.currentChatId, OutgoingText(s), true)
      && r.currentChatId == base.currentChatId
      && r.isTyping
      && (s.selectedFile.Some? ==> r.selectedFile.None? && r.input == s.input)
      && (s.selectedFile.None? ==> r.input == "" && r.selectedFile.None?)
  {
    if NothingToSend(s) then s
    else
      var base := if NoChat(s.currentChatId) then StartNewChat(s, now, time, iso) else s;
      var text := OutgoingText(s);
      var sent := base.(messages := base.messages + [ChatMsg(now, "user", text, time)],
                        history := MapHistory(base.history, s.currentChatId, text, true),
                        isTyping := true);
      if s.selectedFile.Some? then sent.(selectedFile := None) else sent.(input := "")
  }

  /** The delayed reply: when the timer fires on state `s`, the typing flag
      is cleared, one bot message is appended, and the entry of the chat
      that was current when the message was sent (`captured`) records it. */
  function Reply(s: State, captured: Option<int>, now: int, time: string): (r: State)
    ensures !r.isTyping
    ensures r.messages == s.messages + [ChatMsg(now, "bot", BotReply, time)]
    ensures r.history == MapHistory(s.history, captured, BotReply, false)
    ensures r.currentChatId == s.currentChatId && r.input == s.input && r.selectedFile == s.selectedFile
  {
    s.(isTyping := false,
       messages := s.messages + [ChatMsg(now, "bot", BotReply, time)],
       history := MapHistory(s.history, captured, BotReply, false))
  }

  /** "Clear conversations": no history, no messages, no current chat. */
  function Clear(s: State): (r: State)
    ensures r.history == [] && r.messages == [] && r.currentChatId.None?
    ensures r.input == s.input && r.selectedFile == s.selectedFile && r.isTyping == s.isTyping
  {
    s.(history := [], messages := [], currentChatId := None)
  }

  /** Selecting a history entry makes it current; the shown messages stay. */
  function SelectChat(s: State, id: int): (r: State)
    ensures r.currentChatId == Some(id)
    ensures r.messages == s.messages && r.history == s.history
    ensures r.input == s.input && r.selectedFile == s.selectedFile && r.isTyping == s.isTyping
  {
    s.(currentChatId := Some(id))
  }

  /** A send that goes through appends exactly one user message and keeps
      every earlier message of the open chat. */
  lemma {:induction false} SendAppendsOne(s: State, now: int, time: string, iso: string)
    requires !NothingToSend(s) && !NoChat(s.currentChatId)
    ensures var r := Send(s, now, time, iso);
            && |r.messages| == |s.messages| + 1
            && r.messages[..|s.messages|] == s.messages
            && r.messages[|s.messages|].from == "user"
            && r.messages[|s.messages|].text == OutgoingText(s)
            && r.isTyping
  {
    var r := Send(s, now, time, iso);
    assert r.messages == s.messages + [ChatMsg(now, "user", OutgoingText(s), time)];
  }

  /** With a chat open, a send updates that chat's entry (its last message,
      and its title while it is the default) and no other entry. */
  lemma {:induction false} SendUpdatesCurrentEntry(s: State, now: int, time: string, iso: string, k: nat)
    requires !NothingToSend(s) && !NoChat(s.currentChatId) && k < |s.history|
    ensures var r := Send(s, now, time, iso);
            var text := OutgoingText(s);
            && (s.history[k].id == s.currentChatId.value ==>
                  r.history[k] == s.history[k].(lastMessage := text, title := NextTitle(s.history[k].title, text)))
            && (s.history[k].id != s.currentChatId.value ==> r.history[k] == s.history[k])
  {
  }

  /** The day label of the history list: `days` is the elapsed time in whole
      days, rounded down; a week or more shows the locale date instead. */
  datatype DateLabel = Relative(text: string) | LocaleDate(dateMs: int)

  /** Milliseconds in a day. */
  const DayMs: int := 86400000

  /** `formatDate`: the label for a history entry dated `dateMs`, seen at `nowMs`. */
  function FormatDate(nowMs: int, dateMs: int): (r: DateLabel)
    ensures r == Relative("Today") <==> 0 <= nowMs - dateMs < DayMs
    ensures r == Relative("Yesterday") <==> DayMs <= nowMs - dateMs < 2 * DayMs
    ensures r.LocaleDate? <==> nowMs - dateMs >= 7 * DayMs
    ensures r.LocaleDate? ==> r.dateMs == dateMs
    ensures r.Relative? && r.text != "Today" && r.text != "Yesterday" ==>
      exists d: int :: d * DayMs <= nowMs - dateMs < (d + 1) * DayMs && d < 7 && d != 0 && d != 1
                    && r.text == IntToString(d) + " days ago"
  {
    var days := (nowMs - dateMs) / DayMs;
    FloorDays(nowMs - dateMs);
    if days == 0 then Relative("Today")
    else if days == 1 then Relative("Yesterday")
    else if days < 7 then
      assert days * DayMs <= nowMs - dateMs < (days + 1) * DayMs;
      DaysAgoIsNotAWord(days);
      Relative(IntToString(days) + " days ago")
    else LocaleDate(dateMs)
  }

  /** Division by the day length rounds down, also for negative spans
      (`Math.floor` of the quotient), and pins down the day count. */
  lemma {:induction false} FloorDays(x: int)
    ensures (x / DayMs) * DayMs <= x < (x / DayMs + 1) * DayMs
    ensures x / DayMs == 0 <==> 0 <= x < DayMs
    ensures x / DayMs == 1 <==> DayMs <= x < 2 * DayMs
    ensures x / DayMs >= 7 <==> x >= 7 * DayMs
  {
  }

  /** "<d> days ago" is neither "Today" nor "Yesterday". */
  lemma {:induction false} DaysAgoIsNotAWord(d: int)
    ensures IntToString(d) + " days ago" != "Today"
    ensures IntToString(d) + " days ago" != "Yesterday"
  {
    var s := IntToString(d) + " days ago";
    assert s[|s| - 1] == 'o';
  }

  // ---------------------------------------------------------------------
  // The first send after an automatic start.

  /** Sending into a page with no open chat: the new chat's entry keeps its
      default title and the welcome text, because the update looks for the
      id that was current before the chat was started, and there was none. */
  lemma {:induction false} AutoStartEntryNotUpdated(s: State, now: int, time: string, iso: string)
    requires s.currentChatId.None? && !NothingToSend(s)
    ensures Send(s, now, time, iso).history[0] == Entry(now, DefaultTitle, iso, Welcome)
    ensures Send(s, now, time, iso).currentChatId == Some(now)
  {
    var base := StartNewChat(s, now, time, iso);
    assert !IsCurrent(base.history[0], s.currentChatId);
  }

  /** `sendMessage` with the history update aimed at the chat that is open
      once the send has started one: the id the auto-start just created. */
  function SendToOpenChat(s: State, now: int, time: string, iso: string): (r: State)
    ensures NothingToSend(s) ==> r == s
    ensures !NothingToSend(s) ==>
      var base := if NoChat(s.currentChatId) then StartNewChat(s, now, time, iso) else s;
      && r.messages == base.messages + [ChatMsg(now, "user", OutgoingText(s), time)]
      && r.history == MapHistory(base.history, base.currentChatId, OutgoingText(s), true)
      && r.currentChatId == base.currentChatId
      && r.isTyping
  {
    if NothingToSend(s) then s
    else
      var base := if NoChat(s.currentChatId) then StartNewChat(s, now, time, iso) else s;
      var text := OutgoingText(s);
      var sent := base.(messages := base.messages + [ChatMsg(now, "user", text, time)],
                        history := MapHistory(base.history, base.currentChatId, text, true),
                        isTyping := true);
      if s.selectedFile.Some? then sent.(selectedFile := None) else sent.(input := "")
  }

  /** With the update aimed at the open chat, the first message of an
      automatically started chat becomes its last message and gives it its
      title. */
  lemma {:induction false} AutoStartEntryUpdated(s: State, now: int, time: string, iso: string)
    requires s.currentChatId.None? && !NothingToSend(s)
    ensures var r := SendToOpenChat(s, now, time, iso);
            && r.history[0].id == now
            && r.history[0].lastMessage == OutgoingText(s)
            && r.history[0].title == NextTitle(DefaultTitle, OutgoingText(s))
            && r.history[0].title != DefaultTitle
  {
    var base := StartNewChat(s, now, time, iso);
    assert IsCurrent(base.history[0], base.currentChatId);
    TitleSetOnce(DefaultTitle, OutgoingText(s), "");
  }

  /** The two agree whenever a chat is already open. */
  lemma {:induction false} SendAgreesWithOpenChat(s: State, now: int, time: string, iso: string)
    requires !NoChat(s.currentChatId)
    ensures Send(s, now, time, iso) == SendToOpenChat(s, now, time, iso)
  {
  }
}
