# Echo AI chat client — a Dafny model of its message logic

Echo AI's web client is a React chat page. This project models the logic
buried in its views as pure functions over strings, sequences and
immutable records, and proves what that logic guarantees.

- **Message classification** (`ChatMessage`, with `ImageMarker`, `DocxRow`
  and `Markdown`). A user message is shown as raw text. A bot reply is shown
  in one of three ways:
  - an inline document image, when it holds an `![alt](image:id)` marker;
  - a document card, when it holds a `| name.docx | type |` table row;
  - plain markdown otherwise.

  The two regular expressions are modelled with ECMAScript semantics:
  - lazy and greedy groups;
  - `.` not matching line terminators;
  - multiline `^`;
  - leftmost match.

  `normalizeMarkdown` is modelled as its six global replacements. Each one
  has a relational specification, and the scanning function is proved to
  find exactly the match the engine reports.
- **Chat page state** (`ChatApp`): starting a chat, sending a message, the
  delayed bot reply, clearing, selecting an entry, the title rule, and the
  day label of the history list.
- **Streaming view** (`ChatStream`): the submit handler, and a fold over
  server-sent events (`message`, `follow_ups`, `sources`, `session_info`,
  `error`).
- **Backend calls and the document card** (`Api`, `DocumentReference`):
  - request shapes and their defaults;
  - the validation of the document-URL response;
  - the three outcomes of a "View" click;
  - the download link.

`JsText` and `JsValue` hold the ECMAScript notions the rest relies on:
- `\s` and `trim`;
- `indexOf`, `split` and first-occurrence `replace`;
- truthiness and property access;
- number-to-string conversion.

Strings are sequences of code points.

Event handlers in the client are closures. Where a handler reads a value it
captured earlier rather than the latest state, the model does the same and
passes that value explicitly:
- `Send` reads the current chat id from before its own automatic chat start.
- `Reply` gets the id that was current when the message was sent.
- The stream's `error` listener reads a `Snapshot` taken at submit time.
- `SelectFollowUp` submits the old input.

Streaming has no abort path that throws the streamed text away: every
`error` event closes the stream and appends a message. Sending has no
pending-reply guard: `sendMessage` accepts a new message while the bot's
reply is still outstanding.

## Model

| member | source | states |
|---|---|---|
| Markdown.Normalize | src/components/ChatMessage.jsx:7-16 | Absent or empty text gives `""`. The output never holds three line feeds in a row. The output equals the input once line feeds are removed from both. |
| Markdown.MatchEndCorrect | src/components/ChatMessage.jsx:10-15 | For each of the six patterns, the scanner's match at an offset is a match of the pattern and the one the engine reports. Where the pattern matches, it matches only up to that end. |
| Markdown.KeepsText | src/components/ChatMessage.jsx:9-15 | Each global replacement changes the text only in line feeds. |
| Markdown.CollapseShape | src/components/ChatMessage.jsx:15 | Replacing `\n{3,}` with two line feeds leaves no run of three. The output starts with as many line feeds as the input does, capped at two. |
| Markdown.ImageBreakCorrect | src/components/ChatMessage.jsx:11 | The image step matches exactly where the lazy image pattern does, and ends after that match's `)`. |
| Markdown.NumberedCorrect | src/components/ChatMessage.jsx:13 | The numbered-item step matches at a line start exactly for optional space, digits, `.` and a space, and nowhere else. |
| ImageMarker.MatchAt | src/components/ChatMessage.jsx:53-54 | The match anchored at an offset has the shortest alt text for which some target works, then the shortest target. It finds none only when no match exists there. |
| ImageMarker.Find | src/components/ChatMessage.jsx:54 | The reported match is the leftmost one: no earlier offset starts a match, and none exists when nothing is found. |
| ImageMarker.MatchParts | src/components/ChatMessage.jsx:53-59 | The matched text is `![` + alt + `](image:` + id + `)`. Neither alt nor id holds a line terminator, and the id holds no `)`. |
| ImageMarker.LazyMatchUnique | src/components/ChatMessage.jsx:53 | The engine's choice at an offset is unique. |
| ImageMarker.FirstOccurrenceIsMatch | src/components/ChatMessage.jsx:59-62 | The first occurrence of the matched text in the message is the match itself. |
| DocxRow.Find | src/components/ChatMessage.jsx:89-90 | The reported table row is the leftmost match. No row is reported only when no offset starts one. |
| DocxRow.RowAt | src/components/ChatMessage.jsx:89 | A row match at an offset exists exactly when both cells between the next two bars split as the pattern requires. |
| DocxRow.CellSplit | src/components/ChatMessage.jsx:89 | A cell is rejected only when no split into space, group and space fits the pattern. |
| DocxRow.BarsAreNext | src/components/ChatMessage.jsx:89 | The middle and closing bars of any row match are the first two bars after its opening bar. |
| DocxRow.GroupTrimIsCellTrim | src/components/ChatMessage.jsx:93-95 | Every split the backtracking engine could choose trims to the same text, the trimmed cell. |
| DocxRow.CleanCells | src/components/ChatMessage.jsx:89-95 | The trimmed title ends in `.docx` in any letter case. Neither trimmed cell holds a bar or a line feed. |
| DocxRow.TrimIdempotent | src/components/ChatMessage.jsx:94-95 | A trimmed cell is unchanged by trimming again. |
| ChatMessage.SplitAtImage | src/components/ChatMessage.jsx:50-64 | A result exists exactly when some offset starts an image match. It gives the alt text and id of the leftmost, lazy match. `before` is the text up to the first occurrence of the matched text. `after` is the second piece of the split. |
| ChatMessage.ImageSplitReconstructs | src/components/ChatMessage.jsx:62-64 | When the marker occurs once, before + marker + after is the whole text. |
| ChatMessage.FindSource | src/components/ChatMessage.jsx:97-99 | Finds the first source whose title or metadata title equals the trimmed title, and none when no source does. |
| ChatMessage.ResolveDocumentId | src/components/ChatMessage.jsx:97-100 | The id is that first source's id when the id is truthy. Otherwise, including when no source matches, it is the trimmed title. |
| ChatMessage.FollowUpButtons | src/components/ChatMessage.jsx:29-48 | Buttons exist exactly when the list is present and non-empty, and they are the list in order. |
| ChatMessage.ClickFollowUp | src/components/ChatMessage.jsx:35-38 | A click passes the button's exact question, and only if a handler was given. |
| ChatMessage.ImageSourceId | src/components/ChatMessage.jsx:115-120 | A truthy `src` starting with `image:` names a document image. Its id, prefixed with `image:`, gives back `src`. |
| ChatMessage.Block | src/components/ChatMessage.jsx:68-82 | A block around the image is rendered exactly when its text is non-empty, and it is the normalized text. |
| ChatMessage.Render | src/components/ChatMessage.jsx:18-223 | Only user messages get the raw bubble, with the text unnormalized. Plain markdown is the normalized message text. Every bot view carries the follow-up buttons. The image view's alt text and id come from the leftmost marker, and the text before and after it is rendered as normalized blocks. The document card's title and type are the trimmed cells of the leftmost table row. |
| ChatMessage.RenderRoute | src/components/ChatMessage.jsx:53-92 | A bot reply gets the image view exactly when it holds an image marker. It gets the document card exactly when it holds no image marker but holds a table row. It gets plain markdown exactly when it holds neither. |
| ChatMessage.DocumentViewCells | src/components/ChatMessage.jsx:92-100 | The card's title and type are the trimmed cells of the leftmost table row. They are trimmed, hold no bar or line feed, and the title ends in `.docx`. The id is resolved from the sources. |
| ChatApp.NextTitle | src/App.js:100 | A default title becomes `Chat about ` + the first 30 characters + `...`. Any other title is kept. |
| ChatApp.TitleSetOnce | src/App.js:100 | After the first rewrite, a title is never rewritten again. |
| ChatApp.MapHistory | src/App.js:95-103 | Only the entry whose id is the current chat id gets the new last message, and its title when the title rule applies. Every other entry, and the order, are unchanged. |
| ChatApp.StartNewChat | src/App.js:58-75 | Messages become just the welcome message. A default-titled entry with the welcome text is put in front of the history. The new id becomes current. |
| ChatApp.OutgoingText | src/App.js:85-90 | The text is the upload notice with the file name when a file is attached. Otherwise it is the trimmed input, which is empty exactly for an all-space input. |
| ChatApp.Send | src/App.js:77-130 | With nothing to send, the state is unchanged. Otherwise: a chat is started if none is open, one user message is appended, the history is updated for the id read before the start, typing is on, and the file or the input is cleared. |
| ChatApp.SendAppendsOne | src/App.js:92-106 | Sending in an open chat appends exactly one user message at the end, keeps all earlier messages and sets the typing flag. |
| ChatApp.SendUpdatesCurrentEntry | src/App.js:95-103 | Sending in an open chat updates that chat's entry and leaves every other entry as it was. |
| ChatApp.Reply | src/App.js:109-123 | The typing flag is cleared and exactly one bot message is appended. Only the captured chat's entry records it, and its title is kept. |
| ChatApp.Clear | src/App.js:260-264 | History and messages are emptied and no chat is current. The composer and typing flag stay. |
| ChatApp.SelectChat | src/App.js:239 | The chosen entry becomes current. Messages and history are untouched. |
| ChatApp.FormatDate | src/App.js:39-49 | `Today` exactly for less than one day elapsed. `Yesterday` exactly for one to two days. `<d> days ago` for any other whole-day count below 7, negative counts included. The locale date from 7 days on. |
| ChatApp.FloorDays | src/App.js:43 | The day count is the elapsed time divided by 86400000, rounded down. |
| ChatApp.AutoStartEntryNotUpdated | src/App.js:81-103 | A send with no open chat leaves the new chat's entry with its default title and the welcome text. |
| ChatApp.SendToOpenChat | src/App.js:77-130 | Like `Send`, except the history update is aimed at the chat that is open after any automatic start. |
| ChatApp.AutoStartEntryUpdated | src/App.js:81-103 | Under `SendToOpenChat`, the first message of an auto-started chat becomes its last message and gives it a non-default title. |
| ChatApp.SendAgreesWithOpenChat | src/App.js:77-130 | When a chat is already open, `Send` and `SendToOpenChat` coincide. |
| ChatStream.Submit | src/components/ChatStream.jsx:20-32 | A blank input changes nothing. Otherwise the untrimmed input is appended as a user message, the input is cleared, buffer and lists are reset, and streaming starts. |
| ChatStream.RequestParams | src/components/ChatStream.jsx:34-39 | The request carries the query, and carries `session_id` exactly when a truthy session id is known. |
| ChatStream.Start | src/components/ChatStream.jsx:20-42 | A submit opens the stream, and the error listener captures the buffer and lists from before the reset. |
| ChatStream.SessionOf | src/components/ChatStream.jsx:63-64 | The payload's `session_id` when it is an object holding one, and nothing otherwise. |
| ChatStream.Step | src/components/ChatStream.jsx:44-80 | A closed stream ignores events. Other events keep the stream open and leave the messages alone. `error` closes it, stops streaming and appends one assistant message. Each listener changes only its own field, and no event touches the input. |
| ChatStream.Delivered | src/components/ChatStream.jsx:69-71 | The delivered events are the prefix before the first `error`. |
| ChatStream.BufferIsFragments | src/components/ChatStream.jsx:45-47 | The buffer is its starting text followed by every delivered `message` chunk, in arrival order. |
| ChatStream.BufferGrows | src/components/ChatStream.jsx:45-47 | The buffer is never shortened while the stream runs. |
| ChatStream.ClosedStays | src/components/ChatStream.jsx:70-71 | Once closed, no further event changes anything. |
| ChatStream.ListsReplaced | src/components/ChatStream.jsx:50-59 | The follow-up and source lists are the last delivered payload of each kind, not merged. |
| ChatStream.SessionAdopted | src/components/ChatStream.jsx:61-67 | The session id is the last delivered truthy `session_id`, even over a known one. Otherwise it is unchanged. |
| ChatStream.StreamOutcome | src/components/ChatStream.jsx:69-80 | A stream that ended appended exactly one assistant message built from the snapshot, and stopped streaming. An open stream appended nothing and keeps input and submit disabled. |
| ChatStream.SelectFollowUp | src/components/ChatStream.jsx:83-87 | With a blank input, the question only lands in the input. Otherwise the old input is submitted. |
| ChatStream.FollowUpSendsOldInput | src/components/ChatStream.jsx:83-87 | With a non-blank input, the follow-up click sends that input, not the question. |
| ChatStream.StaleReplyText | src/components/ChatStream.jsx:74-79 | After a first reply that streams `Hello`, the appended assistant message is empty. |
| ChatStream.StepCurrent | src/components/ChatStream.jsx:69-80 | The `error` step reading the accumulated buffer and lists instead of the snapshot. |
| ChatStream.CurrentReplyIsStreamed | src/components/ChatStream.jsx:69-80 | Under `StepCurrent`, a finished stream appends exactly the streamed text and the last delivered lists. |
| Api.CreateChatSession | src/api.js:3-10 | A POST to `/chat/sessions`. The body's only field is `user_id`, which is `anonymous` when no id is given. |
| Api.SendChatMessage | src/api.js:13-26 | The query and session id are passed through unchanged, and are present exactly when given. `include_sources` and `include_follow_ups` are always true. |
| Api.ChatHistoryUrl | src/api.js:28-31 | Base URL and path are joined without a slash. The limit is 20 when none is given. |
| Api.HistoryUrlHostIsWrong | src/api.js:29 | The missing slash puts `api` into the URL's authority, which is `localhost:8000api` rather than `localhost:8000`. |
| Api.ChatHistoryUrlFixed | src/api.js:29 | The history URL with the slash: base URL, then `/api/v1/chat/sessions/`. |
| Api.HistoryUrlFixedHost | src/api.js:29 | With the slash in place, the host is `localhost:8000`. |
| Api.DocumentUrlRequest | src/api.js:35-42 | A GET with no body. The URL is the documents prefix, then the id, then `/url?expiration=`, then the expiration's canonical decimal digits. The expiration is 3600 when none is given. |
| Api.DocumentUrlInjective | src/api.js:37 | Two requests have the same URL exactly when they name the same document and send the same expiration, so both can be read back from the URL. |
| Api.GetDocumentUrl | src/api.js:35-61 | Gives `data.data.url` exactly when the response is OK and `success`, `data` and `url` are all truthy. Gives `null` in every other case. A result is always truthy. |
| Api.DownloadUrl | src/api.js:64-66 | The download URL is the base URL, `/api/v1/documents/`, the id and `/download`. |
| Api.DownloadUrlInjective | src/api.js:64-66 | Different ids give different download URLs. |
| DocumentReference.ClickStart | src/components/DocumentReference.jsx:16-18 | A click sets loading and clears any earlier error. |
| DocumentReference.ClickEnd | src/components/DocumentReference.jsx:19-30 | A truthy URL is opened with no error unless `window.open` throws. A falsy one shows `Could not retrieve document URL`. A throw, from the lookup or from `window.open`, shows `Failed to open document`. Loading ends in every case. |
| DocumentReference.ClickOutcomes | src/components/DocumentReference.jsx:16-31 | With the real lookup, a click opens the server's URL unless opening it throws. The retrieval error shows exactly when there is no URL. The opening error shows exactly when there is a URL and `window.open` threw. The View button is enabled again afterwards. |
| DocumentReference.DownloadLink | src/components/DocumentReference.jsx:62-64 | The link is the document's download URL, and the title is its download name. |
| JsText.Trim | src/App.js:78 | `trim` gives the empty string exactly for an all-space input. Otherwise its result starts and ends on non-space. |
| JsText.TrimPadded | src/components/ChatMessage.jsx:94-95 | Surrounding a string with space does not change its trim. |
| JsText.SplitFirstPiece | src/components/ChatMessage.jsx:62 | `split` yields one piece exactly when the separator is absent. Its first piece is the text before the first occurrence. |
| JsText.SplitJoin | src/components/ChatMessage.jsx:62 | Joining the pieces of a split around the separator gives the string back. |
| JsText.SplitPiecesLackSeparator | src/components/ChatMessage.jsx:62 | No piece of a split contains the separator. |
| JsText.ReplacePrefixStrips | src/components/ChatMessage.jsx:118 | Replacing a leading prefix with `""` removes exactly that prefix. |
| JsValue.IntToString | src/App.js:47 | The rendering is the canonical decimal form: it reads back as the number, has a `-` exactly for negatives, and has no leading zero. |
| JsValue.IntToStringInjective | src/App.js:47 | Two numbers render the same exactly when they are equal. |

## Left out

- Rendering: all JSX markup and CSS classes, and the markdown renderer.
  - The table-hiding override (src/components/ChatMessage.jsx:108-113) is left out because it depends on the renderer's `children.toString()`.
  - The placeholder image on load failure is left out.
  - The heading, list and paragraph overrides are left out.
- Other views and setup: `console.log`, the login form, style injection, `TypingIndicator.jsx` and its copy in App.js. These are pure markup or have no logic.
- DocumentImage.jsx is not part of this model. It holds only view flags and the same download URL as `Api.DownloadUrl`.
- Clocks and locale: `Date.now()`, `toLocaleTimeString`, `toISOString` and `toLocaleDateString` are parameters or opaque values.
  - One `now` stands for the source's separate `Date.now()` calls in one handler.
  - `FormatDate` returns the locale case as a tag carrying the date.
  - Invalid dates (`NaN`) are not modelled.
- Timing: the two-second `setTimeout` is not modelled. `Reply` is a separate transition that may fire on any later state.
- ChatApp.NextTitle: `slice(0, 30)` counts UTF-16 code units, but the model counts code points. The titles differ when the first 30 units include characters outside the Basic Multilingual Plane, such as the upload notice's paperclip.
- Network and I/O: `fetch`, `EventSource`, `window.open` and `res.json()`. Outcomes and event sequences are parameters, including whether `window.open` throws. Request headers are not modelled.
  - `JSON.parse` failures inside stream listeners are not modelled: payloads arrive parsed.
  - Reconnection, and two streams open at once, are not modelled: one stream runs at a time.
  - URL encoding of query parameters and the `window.location.origin` prefix are not modelled.
- Values: JSON numbers are integers, and source and session ids are strings or JSON values. Fractions play no part in any decision here.
- ChatStream's own rendering (src/components/ChatStream.jsx:89-147) is left out, apart from the enabled state of the input and submit button.
- File picking (`handleFileUpload`) is left out: the selected file is part of the state.

## Findings

| source | as written | input that shows it | evidently intended | confidence | as-written member | corrected member |
|---|---|---|---|---|---|---|
| src/App.js:95-103 | The history update matches the chat id read before `startNewChat` ran. | A first send with no chat open: the new entry keeps `New Conversation` and the welcome text. The reply at 118-122 misses it too. | The first message updates the chat that was just started. | high; not executed | ChatApp.AutoStartEntryNotUpdated | ChatApp.AutoStartEntryUpdated |
| src/components/ChatStream.jsx:74-79 | The `error` listener appends the `streamedText`, `followUps` and `sources` captured at submit time. | First submit `hi`, then events `message("Hello")` and `error`: the appended assistant message is empty. | The message carries the streamed text and the last delivered lists. | high; not executed | ChatStream.StaleReplyText | ChatStream.CurrentReplyIsStreamed |
| src/api.js:29 | The URL is the base URL followed directly by `api/v1/...`. | Any session id: the authority becomes `localhost:8000api`. Under the URL parsing rules its port `8000api` is not numeric, so the URL is invalid and `fetch` rejects; the model states the authority, not the parser. | A `/` between the base URL and `api`, as in every other endpoint. | high; not executed | Api.HistoryUrlHostIsWrong | Api.HistoryUrlFixedHost |
