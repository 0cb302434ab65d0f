# PrivateGPT chat: the conversation core, modelled in Dafny

This project models the logic of a small local-LLM chat application. The
application has two React clients (`frontend` and `chatfrontend`) and a FastAPI
backend. The model covers four parts:

- **The assistant-message splitter** of `chatfrontend` (`MessageBubble.tsx`), in
  `message_bubble.dfy`. The first `<think>…</think>` span becomes the trimmed
  "thinking" text. The rest of the message, with that one span cut out and then
  trimmed, becomes the answer. Every newline is then turned into a markdown hard
  break. The JavaScript `trim`, `indexOf` and `replace` that this relies on are
  modelled in `text.dfy`.
- **The conversation view** of both clients (`Interface.tsx`), in
  `frontend_interface.dfy` and `chatfrontend_interface.dfy`, with the shared log
  updaters in `chat_log.dfy`. Each view is a class whose fields are the
  component's `useState` slots. Each handler is a method. So is each resumption
  after an `await`, each chunk of the response stream, each interval tick and
  each timeout.
- **The chat list with renaming** (`ChatSidebar.tsx`), in `chat_sidebar.dfy`.
  The two clients' sidebars have identical state and handlers, so one class
  models both. Lines 45-58, 32-34, 85, 88, 95 and 104-108 of the `chatfrontend`
  copy correspond to lines 47-60, 34-36, 96, 99, 106 and 117-121 of the
  `frontend` copy cited below.
- **The backend conversation store and chat routes** (`utils.py`,
  `chat_routes.py`), in `utils.dfy` and `chat_routes.dfy`. This covers the
  message history object, the `conversations` registry (kept in dict insertion
  order), the database writes (as a log of writes), the streaming `chat`
  handler, `get_chats` and `get_chat_history`.

Network results, the LLM's token stream, fetched rows and generated UUIDs are
method parameters. A failed `await` is `None` (or a `failure` argument).

Behaviours of the code that the model keeps as they are:

- The code has no stream cancellation. A chunk of a stream that started before
  another chat was selected overwrites the last message of the newly selected
  log (`ChatLog.LateChunkRewritesReplacedLog`). Chunks always target whatever
  message is last.
- The code's split is idempotent only for text with no `<think>…</think>` pair
  (`MessageBubble.SplitIsStableWithoutMarkers`). A second pair stays, as
  written, in the answer (`MessageBubble.LaterPairStaysInAnswer`). Splitting
  that answer again would recognise it.
- The code has no right-to-left detection and no open/closed state on messages.
- The progress interval is cleared only when its own upload succeeds. An interval
  left running by a failed upload keeps ticking the record of the same file name,
  and brings a later successful upload's 1 back to 0.9
  (`FrontendInterface.StaleTickLowersDone`).

## Model

| member | source | states |
|---|---|---|
| `Text.Trim` | chatfrontend/src/components/MessageBubble.tsx:19-20 | `trim()`: the result has no white space at either end, is no longer than the input, and is empty exactly when the input is all white space |
| `Text.TrimIsInnerSlice` | chatfrontend/src/components/MessageBubble.tsx:19-20 | trimming returns a slice of the input with only white space cut off on either side |
| `Text.FindFrom` | chatfrontend/src/components/MessageBubble.tsx:20 | `indexOf`: a found index is an occurrence with no earlier occurrence at or after `from`; none is found exactly when no occurrence exists |
| `Text.RemoveFirst` | chatfrontend/src/components/MessageBubble.tsx:20 | `replace` with a string pattern: without an occurrence the text is unchanged; with one, exactly the pattern's length is removed (which characters remain: the next row) |
| `Text.RemoveFirstKeepsTheRest` | chatfrontend/src/components/MessageBubble.tsx:20 | with the first occurrence at k, the result is the text before k followed directly by the text after the occurrence |
| `Text.ConcatAppend` | frontend/src/components/Interface.tsx:117 | the running `fullResponse += chunk` text distributes over joining chunk sequences |
| `Text.FilterAppend` | frontend/src/components/Interface.tsx:215 | `filter` keeps order: filtering a join joins the filtered halves |
| `Text.FilterKeepsAll` | frontend/src/components/Interface.tsx:239 | a filter that every element passes returns the list unchanged |
| `MessageBubble.FindThink` | chatfrontend/src/components/MessageBubble.tsx:18 | the search returns the regex's match: leftmost opening tag that has a closing tag after it, then the nearest such closing tag; none exactly when no tag pair exists |
| `MessageBubble.FirstMatchIsUnique` | chatfrontend/src/components/MessageBubble.tsx:18 | the regular expression's match is unique |
| `MessageBubble.FindThinkIsTheMatch` | chatfrontend/src/components/MessageBubble.tsx:18 | the search returns a pair of positions if and only if that pair is the regex's first match |
| `MessageBubble.SplitThink` | chatfrontend/src/components/MessageBubble.tsx:17-20 | the thinking text is trimmed; with no match the split is `("", text)`, with the text untrimmed |
| `MessageBubble.RemoveMatchedSpan` | chatfrontend/src/components/MessageBubble.tsx:20 | `replace(thinkMatch[0], "")` removes exactly the matched span, because no copy of it occurs earlier |
| `MessageBubble.SplitOfFirstPair` | chatfrontend/src/components/MessageBubble.tsx:18-20 | with a first match at (i, j): thinking = trim(text between the tags), answer = trim(text before the span ++ text after it) |
| `MessageBubble.AnswerOfFirstPair` | chatfrontend/src/components/MessageBubble.tsx:20 | the answer half of the previous statement on its own |
| `MessageBubble.SplitWithoutPair` | chatfrontend/src/components/MessageBubble.tsx:18-20 | with no opening tag followed by a closing tag: no reasoning, and the answer is the input unchanged |
| `MessageBubble.UnclosedThinkIsKept` | chatfrontend/src/components/MessageBubble.tsx:18-20 | a first opening tag that is never closed stays verbatim in the answer, with no reasoning |
| `MessageBubble.SplitIsStableWithoutMarkers` | chatfrontend/src/components/MessageBubble.tsx:17-20 | on text with no pair, splitting the answer again gives the same split |
| `MessageBubble.TextOutsideSpanStaysInAnswer` | chatfrontend/src/components/MessageBubble.tsx:20 | only the first span is removed: any piece outside it that starts and ends with non-space characters occurs in the answer |
| `MessageBubble.CutAnswerKeepsPiece` | chatfrontend/src/components/MessageBubble.tsx:20 | once the answer is known to be the trimmed text around a cut, every piece outside the cut that starts and ends with a non-space character occurs in it |
| `MessageBubble.LaterPairStaysInAnswer` | chatfrontend/src/components/MessageBubble.tsx:18-20 | a second `<think>…</think>` pair after the first span stays, tags included, in the answer |
| `MessageBubble.TaggedReplyMatch` | chatfrontend/src/components/MessageBubble.tsx:18 | for `<think>` body `</think>` answer, where body has no `<`, the first match covers exactly the tagged part |
| `MessageBubble.TaggedReplySplits` | chatfrontend/src/components/MessageBubble.tsx:18-20 | such a reply, with trimmed body and answer, splits back into exactly (body, answer) |
| `MessageBubble.SplitOfTrimmedParts` | chatfrontend/src/components/MessageBubble.tsx:19-20 | a first match whose body and remaining text are already trimmed splits into exactly those two texts |
| `MessageBubble.StepOneExample` | chatfrontend/src/components/MessageBubble.tsx:18-20 | `<think>step one</think>Final answer` splits into `step one` and `Final answer` |
| `MessageBubble.HardBreaks` | chatfrontend/src/components/MessageBubble.tsx:38 | `replace(/\n/g, "  \n")`: the output length is the input length plus two per newline |
| `MessageBubble.HardBreaksAppend` | chatfrontend/src/components/MessageBubble.tsx:57 | the expansion distributes over concatenation, so a streamed prefix expands to a prefix of the final text |
| `MessageBubble.HardBreaksSnoc` | chatfrontend/src/components/MessageBubble.tsx:57 | appending a character appends its expansion: a newline becomes two spaces followed by the newline, any other character stays as it is |
| `MessageBubble.HardBreaksWithoutNewline` | chatfrontend/src/components/MessageBubble.tsx:57 | text without newlines passes through unchanged |
| `MessageBubble.EveryNewlineIsHardBreak` | chatfrontend/src/components/MessageBubble.tsx:38 | every newline of the output is preceded by two spaces |
| `MessageBubble.Render` | chatfrontend/src/components/MessageBubble.tsx:13-57 | null or undefined renders nothing; a non-string node is split as `""`; the reasoning block is present exactly when the trimmed reasoning is non-empty; both texts are newline-expanded |
| `MessageBubble.RenderWithoutPair` | chatfrontend/src/components/MessageBubble.tsx:17-57 | a message without a tag pair renders no reasoning block and its whole text as the answer |
| `ChatLog.Sent` | frontend/src/components/Interface.tsx:93-108 | a send appends exactly two messages, User(input) and then Bot(""), and keeps the earlier log |
| `ChatLog.WithLastContent` | frontend/src/components/Interface.tsx:121-127 | the chunk updater keeps the length and every element except the last, and sets the last element's content |
| `ChatLog.LastWriteWins` | frontend/src/components/Interface.tsx:130-135 | two writes to the last element equal the second write alone |
| `ChatLog.SameLastContent` | frontend/src/components/Interface.tsx:130-135 | rewriting the last element with its own content changes nothing |
| `ChatLog.StreamedIsConcat` | frontend/src/components/Interface.tsx:116-128 | after any non-empty chunk sequence, the log differs only in its last element, which holds the running text followed by every chunk in order |
| `ChatLog.ReplyInPlaceholder` | frontend/src/components/Interface.tsx:108-127 | writing into a fresh placeholder yields the earlier log, User(prompt) and Bot(content) |
| `ChatLog.StreamAfterSend` | frontend/src/components/Interface.tsx:90-135 | after a send and its stream, the log is the old log, User(prompt) and Bot(concatenation of the chunks) |
| `ChatLog.LateChunkRewritesReplacedLog` | frontend/src/components/Interface.tsx:228-236 | a chunk arriving after another chat's log was loaded overwrites that log's last message |
| `ChatLog.WithoutChat` | frontend/src/components/Interface.tsx:239 | the deleted id's entries are gone and every other entry is kept |
| `ChatLog.WithoutAbsentChat` | frontend/src/components/Interface.tsx:239 | deleting an id that no entry has keeps the list as it is |
| `FrontendInterface.Tick` | frontend/src/components/Interface.tsx:187-193 | one tick keeps the status, adds one tenth below the cap, never exceeds 0.9, and brings a record above 0.9 (a settled 1) down to 0.9 |
| `FrontendInterface.TicksReachCap` | frontend/src/components/Interface.tsx:186-194 | n ticks give min(p + n tenths, 0.9) with the status unchanged |
| `FrontendInterface.TicksMonotone` | frontend/src/components/Interface.tsx:186-194 | for a record at or below 0.9, further ticks never lower progress and never take it past 0.9 |
| `FrontendInterface.StaleTickLowersDone` | frontend/src/components/Interface.tsx:186-204 | a tick from an interval still running for an earlier upload of the same name turns a done record's 1 into 0.9, status still done |
| `FrontendInterface.TickAsWritten` | frontend/src/components/Interface.tsx:187-193 | the updater as written throws exactly when the file's record is missing |
| `FrontendInterface.TickAfterDismissThrows` | frontend/src/components/Interface.tsx:294-298 | a tick for a file whose record the dismiss button deleted throws |
| `FrontendInterface.TickRecord` | frontend/src/components/Interface.tsx:187-193 | the total updater keeps the keys and every other record, and ticks the file's record |
| `FrontendInterface.TickRecordAgrees` | frontend/src/components/Interface.tsx:187-193 | where the record exists it agrees with the updater as written; a tick on a deleted record changes nothing |
| `FrontendInterface.FilesOf` | frontend/src/components/Interface.tsx:176 | `prev[chatId] \|\| []` |
| `FrontendInterface.WithoutName` | frontend/src/components/Interface.tsx:215 | every occurrence of the name is removed and every other name is kept |
| `FrontendInterface.DelayedRemovalUndoesUpload` | frontend/src/components/Interface.tsx:174-217 | the delayed removal after a failure leaves the chat's list as it would be without the upload, minus earlier entries of the same name |
| `FrontendInterface.RemoveAt` | frontend/src/components/Interface.tsx:292 | removing row `index` drops that one row and keeps the others in order |
| `FrontendInterface.RemoveAtDropsOne` | frontend/src/components/Interface.tsx:290-293 | the dismissed list is the old list minus one copy of the dismissed name (as multisets) |
| `FrontendInterface.DisplayedProgress` | frontend/src/components/Interface.tsx:272 | a missing record displays as (0, uploading) |
| `FrontendInterface.DismissResetsTwin` | frontend/src/components/Interface.tsx:271-298 | if a name is listed twice, dismissing one row resets what the other row shows to (0, uploading) |
| `FrontendInterface.ChatInterface.constructor` | frontend/src/components/Interface.tsx:54-71 | initial slots: an empty log, no chat, and the saved file lists |
| `FrontendInterface.ChatInterface.SetInput` | frontend/src/components/Interface.tsx:321-322 | the input slot takes the typed text |
| `FrontendInterface.ChatInterface.LoadChatHistory` | frontend/src/components/Interface.tsx:77-84 | the chat list is replaced by the fetched one, or kept when the fetch fails |
| `FrontendInterface.ChatInterface.BeginSend` | frontend/src/components/Interface.tsx:90-108 | whitespace-only input leaves every slot unchanged; otherwise it appends User(input) and then Bot(""), clears the input and the attachment, and sets typing |
| `FrontendInterface.ChatInterface.ReceiveChunk` | frontend/src/components/Interface.tsx:116-127 | the running text grows by the chunk and overwrites the last element's content |
| `FrontendInterface.ChatInterface.StreamChunks` | frontend/src/components/Interface.tsx:110-128 | after the loop the running text is the concatenation of the chunks, and only the last element has changed, to hold it |
| `FrontendInterface.ChatInterface.FinishStream` | frontend/src/components/Interface.tsx:130-135 | the final update writes the running text into the last element |
| `FrontendInterface.ChatInterface.AdoptChatId` | frontend/src/components/Interface.tsx:137-142 | a chat id is adopted only by a send that started without one, and only when the follow-up call succeeds |
| `FrontendInterface.ChatInterface.EndSend` | frontend/src/components/Interface.tsx:145-147 | typing ends |
| `FrontendInterface.ChatInterface.SendMessage` | frontend/src/components/Interface.tsx:90-148 | one full send: the log gains exactly User(input) and Bot(concatenation of the chunks); chat id and list change only after a completed stream that started without an id |
| `FrontendInterface.ChatInterface.NewChat` | frontend/src/components/Interface.tsx:150-161 | the attachment is cleared; a created chat becomes current with an empty log; a failure changes nothing else |
| `FrontendInterface.ChatInterface.FileUpload` | frontend/src/components/Interface.tsx:163-182 | no file or no chat changes nothing; otherwise the name is appended to the current chat's list only, and its record starts at (0, uploading) |
| `FrontendInterface.ChatInterface.ProgressTick` | frontend/src/components/Interface.tsx:186-194 | one interval firing ticks the file's record, if it still exists |
| `FrontendInterface.ChatInterface.UploadSucceeded` | frontend/src/components/Interface.tsx:198-204 | the record becomes (1, done) |
| `FrontendInterface.ChatInterface.UploadFailed` | frontend/src/components/Interface.tsx:205-210 | the record becomes (0, error) |
| `FrontendInterface.ChatInterface.RemoveAfterDelay` | frontend/src/components/Interface.tsx:211-217 | every entry with the name leaves the list of the chat the upload started in; no other chat's list changes |
| `FrontendInterface.ChatInterface.DismissFile` | frontend/src/components/Interface.tsx:288-299 | the clicked row is removed from the current chat's list and its name's record is deleted |
| `FrontendInterface.ChatInterface.RemoveFile` | frontend/src/components/Interface.tsx:223-226 | the attachment slots are cleared |
| `FrontendInterface.ChatInterface.SelectChat` | frontend/src/components/Interface.tsx:228-236 | the log is replaced wholesale by the fetched messages and the chat becomes current; a failed fetch changes nothing |
| `FrontendInterface.ChatInterface.ChatDeleted` | frontend/src/components/Interface.tsx:238-250 | the chat leaves the list and its file-list key is removed; the current chat and the log are reset only when it was the current one |
| `ChatfrontendInterface.AttachedFile` | chatfrontend/src/components/Interface.tsx:202 | a missing key reads as null |
| `ChatfrontendInterface.FailedUploadForgetsEarlier` | chatfrontend/src/components/Interface.tsx:134-147 | a failed upload nulls the chat's entry, losing an earlier attachment; other chats keep theirs |
| `ChatfrontendInterface.ChatInterface.constructor` | chatfrontend/src/components/Interface.tsx:23-33 | initial slots: an empty log, no chat, and the saved file map |
| `ChatfrontendInterface.ChatInterface.SetInput` | chatfrontend/src/components/Interface.tsx:231-232 | the input slot takes the typed text |
| `ChatfrontendInterface.ChatInterface.LoadChatHistory` | chatfrontend/src/components/Interface.tsx:39-46 | the chat list is replaced by the fetched one, or kept when the fetch fails |
| `ChatfrontendInterface.ChatInterface.BeginSend` | chatfrontend/src/components/Interface.tsx:52-70 | whitespace-only input changes nothing; otherwise it appends User(input) and then Bot("") |
| `ChatfrontendInterface.ChatInterface.ReceiveChunk` | chatfrontend/src/components/Interface.tsx:78-89 | the running text grows by the chunk and overwrites the last element's content |
| `ChatfrontendInterface.ChatInterface.StreamChunks` | chatfrontend/src/components/Interface.tsx:72-90 | after the loop the running text is the concatenation of the chunks; the length and every non-last message are unchanged |
| `ChatfrontendInterface.ChatInterface.FinishStream` | chatfrontend/src/components/Interface.tsx:92-97 | the final update writes the running text into the last element |
| `ChatfrontendInterface.ChatInterface.AdoptChatId` | chatfrontend/src/components/Interface.tsx:99-104 | a chat id is adopted only by a send that started without one, and only when the follow-up call succeeds |
| `ChatfrontendInterface.ChatInterface.EndSend` | chatfrontend/src/components/Interface.tsx:107-109 | typing ends |
| `ChatfrontendInterface.ChatInterface.SendMessage` | chatfrontend/src/components/Interface.tsx:52-110 | one full send: the log gains exactly User(input) and Bot(concatenation of the chunks) |
| `ChatfrontendInterface.ChatInterface.NewChat` | chatfrontend/src/components/Interface.tsx:112-123 | a created chat becomes current with an empty log |
| `ChatfrontendInterface.ChatInterface.FileUpload` | chatfrontend/src/components/Interface.tsx:125-137 | no file or no chat changes nothing; otherwise the current chat's entry becomes the name, overwriting an earlier one, and nothing else changes |
| `ChatfrontendInterface.ChatInterface.UploadFailed` | chatfrontend/src/components/Interface.tsx:142-147 | the entry of the upload's chat becomes null |
| `ChatfrontendInterface.ChatInterface.ShownAttachment` | chatfrontend/src/components/Interface.tsx:202-205 | the row is shown exactly when both the current chat and its entry are set |
| `ChatfrontendInterface.ChatInterface.DismissFile` | chatfrontend/src/components/Interface.tsx:206-210 | the current chat's entry becomes null and the row disappears |
| `ChatfrontendInterface.ChatInterface.RemoveFile` | chatfrontend/src/components/Interface.tsx:154-157 | the attachment slots are cleared |
| `ChatfrontendInterface.ChatInterface.SelectChat` | chatfrontend/src/components/Interface.tsx:159-167 | the log is replaced wholesale and the chat becomes current |
| `ChatfrontendInterface.ChatInterface.ChatDeleted` | chatfrontend/src/components/Interface.tsx:169-181 | the history entry and the file key are removed; the current chat is reset only if it matched |
| `ChatSidebar.Renamed` | frontend/src/components/ChatSidebar.tsx:52-54 | the length, order and ids are kept; only entries with the matching id take the new title |
| `ChatSidebar.RenameIdempotent` | frontend/src/components/ChatSidebar.tsx:52-54 | renaming twice to the same title equals renaming once |
| `ChatSidebar.RenameAbsent` | frontend/src/components/ChatSidebar.tsx:52-54 | renaming an id that no entry has keeps the list |
| `ChatSidebar.RenamesCommute` | frontend/src/components/ChatSidebar.tsx:52-54 | renames of two different ids commute |
| `ChatSidebar.DisplayTitle` | frontend/src/components/ChatSidebar.tsx:106 | an empty title is shown as "Untitled Chat"; any other title is shown as it is |
| `ChatSidebar.RenamedShowsTitle` | frontend/src/components/ChatSidebar.tsx:48-54 | after a rename past the blank check, the renamed rows show the new title |
| `ChatSidebar.Sidebar.constructor` | frontend/src/components/ChatSidebar.tsx:30-32 | the list is seeded from the prop, with no editing |
| `ChatSidebar.Sidebar.SyncChats` | frontend/src/components/ChatSidebar.tsx:34-36 | the list is reset to the incoming chats |
| `ChatSidebar.Sidebar.IsEditing` | frontend/src/components/ChatSidebar.tsx:92 | a row is in edit mode exactly when its id is the editing id |
| `ChatSidebar.Sidebar.StartEdit` | frontend/src/components/ChatSidebar.tsx:117-121 | the editing id becomes the chat's id and the typed title becomes its title (`""` when it has none) |
| `ChatSidebar.Sidebar.EditTitle` | frontend/src/components/ChatSidebar.tsx:96 | the typed title takes the input |
| `ChatSidebar.Sidebar.CancelEdit` | frontend/src/components/ChatSidebar.tsx:99 | Escape clears the editing id and leaves the titles untouched |
| `ChatSidebar.Sidebar.BeginRename` | frontend/src/components/ChatSidebar.tsx:47-51 | a blank typed title issues no call; otherwise the call carries the title as typed |
| `ChatSidebar.Sidebar.FinishRename` | frontend/src/components/ChatSidebar.tsx:50-59 | success renames the matching entries and clears the editing state; failure changes nothing |
| `ChatSidebar.Sidebar.RenameChat` | frontend/src/components/ChatSidebar.tsx:47-60 | a blank title or a failed call is a no-op; otherwise the list is renamed and editing ends with `""` |
| `Utils.MessageDict` | backend/app/utils.py:149 | the dict built from a row is a valid message with that role and content |
| `Utils.ToBaseMessage` | backend/app/utils.py:90-96 | user maps to Human and ai maps to AI, each with the same content; any other role is a ValueError |
| `Utils.ChatMessageHistory.constructor` | backend/app/utils.py:79-80 | a new history is empty |
| `Utils.ChatMessageHistory.AddMessage` | backend/app/utils.py:82-85 | accepted exactly for a dict with both `role` and `content`, which is appended after the earlier messages; anything else leaves the history unchanged |
| `Utils.ChatMessageHistory.ToBaseMessages` | backend/app/utils.py:87-97 | succeeds exactly when every role is supported; then it has the same length and order, converted element-wise; otherwise the error names the first unsupported role |
| `Utils.SavesOf` | backend/app/utils.py:137-139 | one `save_message` per stored message, in order |
| `Utils.SaveConversations` | backend/app/utils.py:137-139 | the writes issued are `SavesOf` the memory |
| `Utils.InsertKeepsShape` | backend/app/utils.py:129-133 | dict assignment keeps the key order well formed: a new key goes last, an existing key keeps its place |
| `Utils.Conversations.constructor` | backend/app/utils.py:142 | an empty registry |
| `Utils.Conversations.Insert` | backend/app/utils.py:129-133 | `conversations[chat_id] = entry` with insertion-order keys |
| `Utils.Conversations.SetTitle` | backend/app/routes/chat_routes.py:53 | only that entry's title changes; the order is kept |
| `Utils.CreateNewConversation` | backend/app/utils.py:101-135 | returns the fresh id, which maps to a new empty memory titled "New Chat"; other entries are untouched; one `create_chat` write |
| `Utils.MessageDicts` | backend/app/utils.py:148-149 | one dict per fetched row, in fetched order |
| `Utils.LoadedKeys` | backend/app/utils.py:141-182 | the rebuilt registry's keys are the fetched ids, each listed once |
| `Utils.LoadedOrderOfDistinct` | backend/app/utils.py:144-182 | with distinct ids the registry lists them in fetched order |
| `Utils.LoadedStateOfDistinct` | backend/app/utils.py:144-182 | with distinct ids each chat holds its own title and its fetched messages in order |
| `Utils.LoadedStep` | backend/app/utils.py:144-181 | one more row is one more dict assignment |
| `Utils.LoadConversations` | backend/app/utils.py:141-182 | the registry built equals the rebuild from the rows: order, keys, titles and messages |
| `Utils.LoadRow` | backend/app/utils.py:144-181 | one pass of the outer loop extends the rebuild by one row |
| `Utils.FilledMemory` | backend/app/utils.py:146-149 | a new memory holding the fetched messages in fetched order |
| `ChatRoutes.WrappedAsWritten` | backend/app/routes/chat_routes.py:80-82 | the outer handler turns every exception into a 500 whose detail ends with the original detail |
| `ChatRoutes.InvalidChatIdBecomes500` | backend/app/routes/chat_routes.py:24-25 | as written, an unknown id reaches the client as 500 "400: Invalid chat_id…" |
| `ChatRoutes.NewTitle` | backend/app/routes/chat_routes.py:50 | for a non-empty message the title is the prefix of length min(30, length of the message); for an empty message it is "Untitled Chat" |
| `ChatRoutes.ShortMessageIsTitle` | backend/app/routes/chat_routes.py:50 | a non-empty message of at most 30 characters is its own title |
| `ChatRoutes.LongMessageIsCut` | backend/app/routes/chat_routes.py:50 | a message longer than 30 characters gets exactly its first 30 characters as title |
| `ChatRoutes.Chat` | backend/app/routes/chat_routes.py:20-38 | an unknown id is refused with 400 and changes nothing; a missing id creates a conversation first, appended to the key order (an existing id keeps the order); the user's message is appended to that chat's memory before streaming starts |
| `ChatRoutes.ExchangeSaves` | backend/app/routes/chat_routes.py:67-69 | the user and ai `save_message` writes, then the whole memory |
| `ChatRoutes.ExchangeSavedTwice` | backend/app/routes/chat_routes.py:62-69 | one exchange writes its user and ai rows twice, and every earlier message once more |
| `ChatRoutes.GenerateResponseStream` | backend/app/routes/chat_routes.py:40-74 | yields the tokens in order; on a stream error the error text is the last item and nothing is stored; otherwise a "New Chat" title becomes `NewTitle`, and the ai message (the concatenated tokens) is stored and saved only when it is not blank |
| `ChatRoutes.RetitleIfNew` | backend/app/routes/chat_routes.py:49-60 | only a "New Chat" title is replaced, in the registry and the database |
| `ChatRoutes.AppendReply` | backend/app/routes/chat_routes.py:62-65 | the ai message is appended to that chat's memory, and the registry stays valid |
| `ChatRoutes.SaveExchange` | backend/app/routes/chat_routes.py:67-69 | the writes issued are `ExchangeSaves` |
| `ChatRoutes.StoreResponse` | backend/app/routes/chat_routes.py:62-71 | a blank response leaves memory and the database untouched; otherwise the ai message is appended and saved |
| `ChatRoutes.GetChats` | backend/app/routes/chat_routes.py:93-100 | exactly one summary per registry entry, in key order, with its title |
| `ChatRoutes.GetChatHistoryAsWritten` | backend/app/routes/chat_routes.py:102-112 | an unknown id gives 404; as written, a chat with messages gives 500 |
| `ChatRoutes.GetChatHistory` | backend/app/routes/chat_routes.py:102-112 | an unknown id gives 404, and only an unknown id does; otherwise every stored message is returned with its role and content, in order |
| `ChatRoutes.LoadedHistoryRoundTrip` | backend/app/routes/chat_routes.py:108-111 | role and content survive the trip from a fetched row through the stored dict |

## Findings

| source | as written | input that shows it | evidently intended | confidence | as-written member | corrected member |
|---|---|---|---|---|---|---|
| backend/app/routes/chat_routes.py:24-25 | the 400 `HTTPException` is raised inside `try` and caught by `except Exception` at line 80, which re-raises it as a 500 | `POST /` with `chat_id` "x" not in `conversations` gives 500 "400: Invalid chat_id. Please start a new conversation." | the client receives 400 | high, not executed | `ChatRoutes.InvalidChatIdBecomes500` | `ChatRoutes.Chat` |
| frontend/src/components/Interface.tsx:187-193 | the tick reads `prev[fileName].progress`, but the dismiss button (lines 294-298) deletes that record while the interval still runs. The interval runs until success, and forever after a failure | upload "a.pdf" and click its dismiss button before the upload settles, or after it failed: the next tick throws a TypeError inside the state updater | a tick on a missing record does nothing | medium, not executed | `FrontendInterface.TickAfterDismissThrows` | `FrontendInterface.ChatInterface.ProgressTick` |
| backend/app/routes/chat_routes.py:111 | reads `message.role` and `message.content`, but stored messages are dicts (backend/app/utils.py:85, 149) | `GET /{id}` for any chat with at least one message raises AttributeError, which gives 500 | returns each message's role and content | high, not executed | `ChatRoutes.GetChatHistoryAsWritten` | `ChatRoutes.GetChatHistory` |

## Left out

- Strings are sequences of Unicode scalar values, while JavaScript's `trim`, `indexOf` and `replace` work on UTF-16 code units: for text outside the Basic Multilingual Plane the model's indices differ from the browser's, and lone surrogates cannot be represented.
- Network clients, `fetch` calls and `alert`s: their results are method parameters (`None` for a call that threw).
- localStorage persistence of `uploadedFiles`: this is I/O. The saved map is a constructor parameter.
- Markdown rendering (ReactMarkdown, remark-gfm): this is third-party code. Only the strings handed to it are modelled.
- JSX, styling, the theme toggle, the textarea resizing, console logging, and the `ProgressCircle` geometry.
- `frontend/src/components/MessageBubble.tsx` and `frontend/src/App.tsx`: they are markup only.
- The `uploadingFiles` slot of the `frontend` view: it is declared and never read or written.
- `handleDeleteChat` in both sidebars: it only awaits the delete call and then calls the parent's `handleChatDeleted`, which is modelled as `ChatDeleted`.
- The `new_chat` route: it only calls `create_new_conversation`, which is modelled as `Utils.CreateNewConversation`.
- The 500 "Conversation object not found" branch of `chat`: every registry entry holds a conversation object, so the branch cannot be taken. The conversation object itself, the prompt templates and `RunnableWithMessageHistory` are not part of this model.
- The LLM, embeddings, vector store, retriever and chain construction, and backend/app/routes/file_routes.py: these are foreign libraries.
- SQLite (`create_chat`, `save_message`, the title `UPDATE`, `fetch_all_chats`, `fetch_chat_messages`): writes are recorded as a log in `Utils.Database`; fetched rows are parameters.
- UUID generation: the fresh id is a parameter.
- Timers and async interleaving: each interval tick and timeout is its own method, called in any order a caller chooses. The success path stops ticks by clearing the interval; the model leaves that to the caller.
- Stream handle invalidation: the code has none, so the model has none.
- Right-to-left text detection: the code has none.
- `FrontendInterface.Tick`: progress is counted in integer tenths, not floating point. With floats, the ninth tick gives 0.8999999999999999 instead of 0.9, and a tenth tick is needed to reach 0.9.
- `ChatRoutes.GenerateResponseStream`: only a failure of the model's token stream is modelled. An exception raised by the title `UPDATE` or by the saves, inside the same `try`, is not.
- `ChatRoutes.Chat`: it models the intended 400. The as-written 500 is `ChatRoutes.WrappedAsWritten` (see Findings). An exception from `create_new_conversation` is not modelled.
- `Utils.ChatMessageHistory.AddMessage`: the ValueError's message text (`Got unsupported message type: …`) is not modelled; a refusal is `false`.
- old.py and backend/app.py are not part of this model: they are superseded copies and a wrapper whose only logic repeats the title rule.
