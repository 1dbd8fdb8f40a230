# A verified model of the chat client's App component

The desktop chat client keeps a list of conversations. Each conversation has an
id, a title and a list of user and assistant messages. The state is persisted
to `localStorage`; on startup the client restores it and puts a fresh
conversation in front. `sendMessage` appends a user message and an empty
assistant placeholder to the current conversation. It builds a plain-text
prompt from the conversation, posts it, and reads the newline-delimited JSON
response chunk by chunk. Every `response` field is appended to a buffer.
Publishing the buffer into the conversation's last message is throttled
through `requestAnimationFrame`, and a final publish follows when the stream
ends.

The model has six modules:

- `Wrappers` holds the `Option` type.
- `JsText` covers the JavaScript string operations the client relies on:
  `trim`, `split` on a one-character separator, `join` and `filter(Boolean)`.
- `Store` covers conversations and messages as values, and the pure updaters
  the client hands to `setConversations`. These are appending a turn,
  publishing the buffer into the last message, the save filter and the
  restore.
- `Prompt` covers `buildPrompt`.
- `Streaming` covers what a sequence of decoded chunks adds to the buffer.
- `Chat` covers the component as a class, `ChatApp`. Its fields are the
  state, the two refs and the browser's queue of pending animation-frame
  callbacks. Its methods are `sendMessage` with its read loop, the frame
  scheduling, `createNewChat` and `setCurrentId`.

While `sendMessage` is suspended at an `await`, other things may run: the
browser may fire the pending frame, and the user may select or create a
conversation. The model receives these as a sequence of `Event`s for each
`await`.

The main result is the contract of `Chat.ChatApp.SendMessage`. It states the
following:

- A blank input, or a send while one is loading, is ignored and changes
  nothing.
- A send whose current id names no conversation throws, because it reads
  `currentConv.messages` of `undefined`. The input is then cleared and
  `loading` stays set.
- Otherwise the prompt is the conversation as rendered plus the new user
  message, and the buffer is exactly what the chunks add.
- The conversations then track the appended turn:
  - fresh conversations are created in front;
  - conversations that the events did not touch are unchanged;
  - only the target conversation, and any target of a stale frame left from
    an earlier send, may differ, and only in the content of their last
    message, which is then a prefix of the final buffer, because every frame
    publishes the buffer as it is when the frame runs;
  - after a failed stream the target ends with the user message and an
    assistant message holding a prefix of the buffer
    (`Chat.FailedAnswersPrefix`);
  - after a completed stream the target holds the whole buffer
    (`Chat.DoneAnswersTarget`).

Identifiers from `crypto.randomUUID()` are parameters. `JSON.parse` is a
parameter: `string -> Option<Record>` for a response line and
`string -> Option<StoredJson>` for the stored history. A Dafny `char` is a
Unicode scalar value, not a UTF-16 code unit. The model therefore covers text
in the Basic Multilingual Plane, where the two coincide.

Two behaviours of the code are worth knowing:

- Every chunk is split on its own, and no partial line is kept between reads.
  A record split across two chunks is therefore lost
  (`Streaming.SplitRecordIsLost`). A split that falls on a newline is
  harmless (`Streaming.StreamSplitAtNewline`).
- The streamed text goes into the last message, by position, of the
  conversation whose id the send captured. It is not matched by message id
  (`Store.Publish`).

## Model

| member | source | states |
|---|---|---|
| Store.Find | desktop-ui/frontend/src/App.jsx:42 | the result is the position of the first conversation with the id; `None` exactly when no conversation has it |
| Store.TitleFor | desktop-ui/frontend/src/App.jsx:88-91 | the title is the prefix of the raw input of length min(20, length of input) |
| Store.AppendTurn | desktop-ui/frontend/src/App.jsx:83-96 | only conversations with the current id change; they keep their messages and gain the user message and an empty assistant message; the title is set from the input only when the conversation had no messages |
| Store.FirstSendTitles | desktop-ui/frontend/src/App.jsx:8-14 | a conversation just created has the given id and no messages, so its first send titles it from the input and gives it exactly the user message and the empty placeholder |
| Store.AppendTurnToMissing | desktop-ui/frontend/src/App.jsx:83-96 | appending to an id no conversation has leaves the list as it was |
| Store.SecondSendKeepsTitle | desktop-ui/frontend/src/App.jsx:88-91 | a second send into the same conversation keeps the title the first send gave it |
| Store.AppendTurnKeepsPaired | desktop-ui/frontend/src/App.jsx:83-96 | appending a turn preserves the invariant that messages alternate user and assistant in whole turns |
| Store.Publish | desktop-ui/frontend/src/App.jsx:147-160 | only the target's last message changes, and it takes the text; ids, titles, roles, message ids and all other messages stay; with no matching conversation nothing changes |
| Store.PublishOverwrites | desktop-ui/frontend/src/App.jsx:146-161 | publishing twice to the same target equals publishing only the later text |
| Store.AnsweredTurn | desktop-ui/frontend/src/App.jsx:83-96 | after appending a turn and publishing text, the conversation is its old messages, then the user message, then the assistant message holding the text |
| Store.PublishKeepsPaired | desktop-ui/frontend/src/App.jsx:147-160 | publishing preserves the alternation of user and assistant messages |
| Store.AgreeOutsidePointwise | desktop-ui/frontend/src/App.jsx:147-160 | the recursive agreement relation holds exactly when the lists have equal length and every position agrees: identical, or for an exempt id differing only in the last message, whose content is a prefix of the bound |
| Store.PublishKeepsAgreement | desktop-ui/frontend/src/App.jsx:147-160 | a publish of a prefix of the bound to an exempt id keeps two lists in agreement |
| Store.PublishSettles | desktop-ui/frontend/src/App.jsx:174-187 | publishing the same text on both sides removes the target from the exempt ids |
| Store.SaveFilter | desktop-ui/frontend/src/App.jsx:48 | the saved list holds exactly the conversations that have messages, none of them empty |
| Store.SaveFilterAppend | desktop-ui/frontend/src/App.jsx:48 | the filter distributes over concatenation, so relative order is kept |
| Store.SaveFilterKeepsNonEmpty | desktop-ui/frontend/src/App.jsx:48 | a list whose conversations all have messages is saved unchanged |
| Store.SaveFilterIdempotent | desktop-ui/frontend/src/App.jsx:48 | filtering what was saved changes nothing |
| Store.FreshConversationsNotSaved | desktop-ui/frontend/src/App.jsx:8-14 | conversations with no messages are never saved |
| Store.Restore | desktop-ui/frontend/src/App.jsx:16-31 | the restored list is never empty and starts with a fresh conversation |
| Store.RestoreWithoutHistory | desktop-ui/frontend/src/App.jsx:16-31 | a missing or empty slot, unparseable text, a non-array or an empty array each give exactly one fresh conversation |
| Store.SaveThenRestore | desktop-ui/frontend/src/App.jsx:16-31 | with a serializer that round-trips, restoring what was saved gives a fresh conversation followed by exactly the conversations that had messages, in order |
| Store.RestoreThenSave | desktop-ui/frontend/src/App.jsx:45-53 | saving a restored list writes back exactly the restored history; the fresh conversation in front is not saved |
| Prompt.BuildPrompt | desktop-ui/frontend/src/App.jsx:55-67 | the prompt starts with the preamble and ends with the assistant cue |
| Prompt.RenderShape | desktop-ui/frontend/src/App.jsx:59-63 | a transcript line ends with the message's content and holds a newline exactly when the content does |
| Prompt.RenderedAppend | desktop-ui/frontend/src/App.jsx:58-63 | the transcript lines of two message lists in sequence are the lines of each, in order |
| Prompt.PromptLines | desktop-ui/frontend/src/App.jsx:55-67 | when no content holds a newline, the text between preamble and cue splits back into exactly one labelled line per message, in order |
| Prompt.PromptForSend | desktop-ui/frontend/src/App.jsx:103-105 | the prompt for a send is the earlier transcript, a newline unless it is empty, and the new user line, just before the cue |
| JsText.TrimStart | desktop-ui/frontend/src/App.jsx:70 | the result is a suffix; everything removed is white space; it does not start with white space |
| JsText.TrimEnd | desktop-ui/frontend/src/App.jsx:70 | the result is a prefix; everything removed is white space; it does not end with white space |
| JsText.TrimEndsSolid | desktop-ui/frontend/src/App.jsx:70 | the trimmed input, when not empty, starts and ends with a character that is not white space |
| JsText.TrimEmptyIffBlank | desktop-ui/frontend/src/App.jsx:70 | the trimmed input is empty exactly when every character is white space |
| JsText.SplitOn | desktop-ui/frontend/src/App.jsx:129 | a split always yields at least one piece |
| JsText.SplitOnPiecesLackSep | desktop-ui/frontend/src/App.jsx:129 | no piece holds the separator |
| JsText.NonEmpty | desktop-ui/frontend/src/App.jsx:129 | every kept line is non-empty |
| JsText.NonEmptyKeeps | desktop-ui/frontend/src/App.jsx:129 | the filter keeps only lines it was given |
| JsText.NonEmptyAppend | desktop-ui/frontend/src/App.jsx:129 | the filter distributes over concatenation |
| JsText.SplitOnAtSep | desktop-ui/frontend/src/App.jsx:129 | the text on each side of one separator splits independently |
| JsText.JoinSplitOn | desktop-ui/frontend/src/App.jsx:64 | joining the pieces of a split with the separator gives back the text |
| JsText.SplitOnJoin | desktop-ui/frontend/src/App.jsx:64 | splitting a join of separator-free pieces gives back the pieces |
| JsText.JoinEnds | desktop-ui/frontend/src/App.jsx:64 | a join starts with the first piece and ends with the last; the join of no pieces is empty |
| JsText.JoinSnoc | desktop-ui/frontend/src/App.jsx:64 | joining one more piece adds one separator and the piece |
| Streaming.ChunkTextsAppend | desktop-ui/frontend/src/App.jsx:124-129 | what each chunk of a concatenation adds is what the chunks of each part add, in order |
| Streaming.StreamTextGrows | desktop-ui/frontend/src/App.jsx:124-139 | the buffer only grows: what the first chunks add is a prefix of what all of them add |
| Streaming.LinesShape | desktop-ui/frontend/src/App.jsx:129 | every line handed to the parser is non-empty and holds no newline |
| Streaming.LineTextMeaning | desktop-ui/frontend/src/App.jsx:136-139 | a line that parses with a response adds exactly that response, and a line that does not parse or has no response adds nothing |
| Streaming.LinesTextAppend | desktop-ui/frontend/src/App.jsx:131-166 | lines add their texts in order: what a concatenation of lines adds is what each part adds, concatenated |
| Streaming.StreamTextAppend | desktop-ui/frontend/src/App.jsx:124-167 | what a concatenation of chunk sequences adds is what each part adds, concatenated |
| Streaming.StreamTextSnoc | desktop-ui/frontend/src/App.jsx:124-167 | reading one more chunk adds what that chunk adds |
| Streaming.SkipUnparseableLine | desktop-ui/frontend/src/App.jsx:136-165 | a line that does not parse adds nothing wherever it sits among the others |
| Streaming.LinesAtNewline | desktop-ui/frontend/src/App.jsx:129 | the lines of a text are the lines on each side of any newline in it |
| Streaming.ChunkSkipsUnparseableLine | desktop-ui/frontend/src/App.jsx:129-165 | inserting an unparseable line into a chunk leaves what the chunk adds unchanged |
| Streaming.ChunkBoundaryAtNewline | desktop-ui/frontend/src/App.jsx:128-129 | a chunk cut at a newline adds what its two halves add |
| Streaming.StreamSplitAtNewline | desktop-ui/frontend/src/App.jsx:124-129 | reading a text as one chunk or as two chunks split at a newline gives the same buffer |
| Streaming.SplitRecordIsLost | desktop-ui/frontend/src/App.jsx:124-137 | a record split across two chunks adds nothing, although the whole line adds its response |
| Chat.Created | desktop-ui/frontend/src/App.jsx:201-205 | every conversation the events create is fresh and empty |
| Chat.CurrentAfterChosen | desktop-ui/frontend/src/App.jsx:201-213 | frames firing never move the current id; it is the starting one or one that an event selected or created |
| Chat.Cancelled | desktop-ui/frontend/src/App.jsx:143 | cancelling withdraws exactly the callbacks with that handle |
| Chat.TracksPublish | desktop-ui/frontend/src/App.jsx:146-161 | a frame that publishes a prefix of the bound to an exempt id keeps the tracking relation; the fresh conversations have no message it could change |
| Chat.TracksSettle | desktop-ui/frontend/src/App.jsx:169-187 | the final publish makes the target agree exactly with the published base |
| Chat.TracksExact | desktop-ui/frontend/src/App.jsx:201-205 | with no exempt id, the list is the created conversations followed by the base |
| Chat.TracksKeeps | desktop-ui/frontend/src/App.jsx:147-160 | a conversation whose id is not exempt is unchanged, behind the created ones |
| Chat.TracksExempt | desktop-ui/frontend/src/App.jsx:146-161 | an exempt conversation is unchanged, or differs only in its last message, whose content is a prefix of the bound |
| Chat.FailedAnswersPrefix | desktop-ui/frontend/src/App.jsx:146-161 | after a failed stream, the conversation sent in ends with the user message and an assistant message holding a prefix of the buffer |
| Chat.DoneAnswersTarget | desktop-ui/frontend/src/App.jsx:83-187 | after a completed stream, the conversation sent in ends with the user message and an assistant message holding the whole buffer |
| Chat.ChatApp.constructor | desktop-ui/frontend/src/App.jsx:34-41 | the first render holds the restored conversations with the fresh one selected, an empty input, not loading, an empty buffer and no pending frame |
| Chat.ChatApp.SelectConversation | desktop-ui/frontend/src/App.jsx:213 | selecting changes only the current id |
| Chat.ChatApp.CreateNewChat | desktop-ui/frontend/src/App.jsx:201-205 | a fresh empty conversation goes in front and becomes current |
| Chat.ChatApp.FireFrames | desktop-ui/frontend/src/App.jsx:146-161 | the pending callback publishes the buffer as it is now into its captured target, then leaves the queue |
| Chat.ChatApp.ScheduleFrame | desktop-ui/frontend/src/App.jsx:142-161 | after rescheduling exactly one callback is pending, for the target, and the slot names it |
| Chat.ChatApp.HandleLine | desktop-ui/frontend/src/App.jsx:136-165 | the buffer grows by what the line adds; a line adding text reschedules the frame, any other line changes nothing else |
| Chat.ChatApp.ProcessLines | desktop-ui/frontend/src/App.jsx:131-166 | the buffer grows by what the lines add in order; if they add text, exactly one frame for the target is pending |
| Chat.ChatApp.ProcessChunk | desktop-ui/frontend/src/App.jsx:128-166 | the buffer grows by what the chunk adds; frames are unchanged when it adds nothing, and otherwise one frame for the target is pending |
| Chat.ChatApp.FinalFlush | desktop-ui/frontend/src/App.jsx:169-187 | no frame is pending, the slot is cleared, and the target holds the whole buffer |
| Chat.ChatApp.RunEvents | desktop-ui/frontend/src/App.jsx:108-125 | events during an await keep the tracking relation, since a frame publishes the buffer, a prefix of the bound; the current id moves to the one last selected or created |
| Chat.ChatApp.RunEvent | desktop-ui/frontend/src/App.jsx:146-213 | one event keeps the tracking relation and the at-most-one-frame invariant |
| Chat.ChatApp.ReadChunk | desktop-ui/frontend/src/App.jsx:124-166 | after one read the buffer is what the chunks so far add; pending frames target only exempt ids |
| Chat.ChatApp.ReadChunks | desktop-ui/frontend/src/App.jsx:124-167 | after the loop the buffer is exactly what all chunks add, in order |
| Chat.ChatApp.Settle | desktop-ui/frontend/src/App.jsx:125-187 | on done, no frame is pending and the target is settled to the buffer; on a failure the target and stale targets are unchanged or hold a prefix of the buffer |
| Chat.ChatApp.Stream | desktop-ui/frontend/src/App.jsx:107-198 | loading is cleared and the buffer is what the chunks add; on done the conversations are the created ones plus the published turn, up to targets of frames pending before the send; on failure the target too is unchanged or holds a prefix of the final buffer |
| Chat.ChatApp.TakeTurn | desktop-ui/frontend/src/App.jsx:72-198 | a send past the guard throws exactly when the current id names no conversation, and otherwise sends the prompt for the conversation plus the new message and streams the reply into it; on failure every touched last message holds a prefix of the buffer |
| Chat.ChatApp.SendMessage | desktop-ui/frontend/src/App.jsx:69-199 | ignored, with nothing changed, exactly when the trimmed input is empty or a reply is loading; otherwise the turn is taken as `TakeTurn` states |

## Left out

- The HTTP request (lines 108-121) is not modelled. The response is given as its decoded chunks and whether it ends normally or with a rejection, and the endpoint, model name and request body are not modelled.
- `TextDecoder` (lines 122 and 128) is not modelled: the chunks are taken as already decoded. A multi-byte character split across reads is not modelled.
- `JSON.parse` and `JSON.stringify` are parameters. A line's `response` is whatever string the parser reports, so a non-string truthy value appended through its `String()` conversion is within the parser's choice. The stored items are taken to be well-formed conversations.
- The `localStorage` reads and writes, and the `useEffect` that triggers the save (lines 45-53), are not modelled. What is written is `Store.SaveFilter` of the conversations.
- `crypto.randomUUID()` is not modelled. Fresh ids are parameters, and nothing assumes they are distinct.
- Real time and the browser's scheduling are not modelled. A pending frame fires only where an event says so, at an `await`, and all events happen at `await`s. React's batching and render timing are collapsed: each updater is applied at once.
- The catch block (lines 188-195) is empty in the source. A rejection therefore skips the final flush, and the model keeps that.
- Chat.ChatApp.TakeTurn: in the crash case (the current id names no conversation), `loading` stays set for good. The model states this and does not model the promise rejection.
- Typing into the input box during a stream is not modelled.
- Chat.ChatApp.SendMessage: the response is required to come with exactly one event list per `await` (`|awaits| == |chunks| + 2`). This is a shape of the parameters, not a demand of the source.
- The header, the sidebar, the rendering of messages (lines 207-268) and the `sidebarOpen` flag have no effect on the state modelled here.
- `Chat.ChatApp.SelectConversation` accepts any id, not only ids the sidebar shows. This is a superset of what the sidebar can do.
- Store.TitleFor: `input.slice(0, 20)` counts UTF-16 code units, and can cut a surrogate pair in half. A Dafny `char` is a Unicode scalar value, so the model takes the first 20 characters and is faithful only for text in the Basic Multilingual Plane. The same holds for every string in the model: a character outside that plane, such as an emoji, is one `char` here but two code units in the source.
- JsText.Trim: its characterisation as the infix between the leading and trailing white space is not stated as one lemma. `JsText.TrimStart`, `JsText.TrimEnd` and `JsText.TrimEndsSolid` give it piece by piece.
