/** The conversation view of the `chatfrontend` client
    (chatfrontend/src/components/Interface.tsx): the message log, the current chat, the
    chat list, and one nullable file name per chat. Every `useState` slot is a field;
    every handler and every resumption after an `await` is a method. Network results
    (the stream's chunks, fetched lists, created ids) are method parameters. */
module ChatfrontendInterface {
  import opened Text
  import opened ChatLog

  /** `uploadedFiles[chatId]`, read as null when the key is missing. */
  function AttachedFile(files: map<string, Option<string>>, chatId: string): (r: Option<string>)
    ensures chatId !in files ==> r == None
    ensures chatId in files ==> r == files[chatId]
  {
    if chatId in files then files[chatId] else None
  }

  /** A failed upload nulls the chat's entry even when it replaced an earlier name: the
      earlier attachment is not restored. Other chats keep theirs. */
  lemma FailedUploadForgetsEarlier(files: map<string, Option<string>>, chatId: string, name: string, other: string)
    requires other != chatId
    ensures AttachedFile(files[chatId := Some(name)][chatId := None], chatId) == None
    ensures AttachedFile(files[chatId := Some(name)][chatId := None], other) == AttachedFile(files, other)
  {
  }

  class ChatInterface {
    var messages: seq<Message>
    var input: string
    var currentChatId: Option<string>
    var chatHistory: seq<Chat>
    var isTyping: bool
    /** The selected `File` and its name; the handlers only ever clear them. */
    var uploadedFile: Option<string>
    var uploadedFileName: Option<string>
    var uploadedFiles: map<string, Option<string>>

    /** The first render; `savedFiles` is what the saved JSON parsed to, or `{}`. */
    constructor (savedFiles: map<string, Option<string>>)
      ensures messages == [] && input == "" && currentChatId == None && chatHistory == []
      ensures !isTyping && uploadedFile == None && uploadedFileName == None
      ensures uploadedFiles == savedFiles
    {
      messages := [];
      input := "";
      currentChatId := None;
      chatHistory := [];
      isTyping := false;
      uploadedFile := None;
      uploadedFileName := None;
      uploadedFiles := savedFiles;
    }

    /** The text area's `onChange`. */
    method SetInput(text: string)
      modifies this`input
      ensures input == text
    {
      input := text;
    }

    /** `loadChatHistory`, resumed with the fetch's result (`None` when it threw). */
    method LoadChatHistory(fetched: Option<seq<Chat>>)
      modifies this`chatHistory
      ensures chatHistory == if fetched.Some? then fetched.value else old(chatHistory)
    {
      if fetched.Some? {
        chatHistory := fetched.value;
      }
    }

    /** `handleSendMessage` up to its first await: a blank input changes nothing;
        otherwise the user's message and the empty bot placeholder are appended, the
        input and the attachment are cleared and the typing indicator is shown. */
    method BeginSend() returns (ex: Option<Exchange>)
      modifies this`messages, this`input, this`uploadedFile, this`uploadedFileName, this`isTyping
      ensures AllJsSpace(old(input)) ==> ex == None && unchanged(this)
      ensures !AllJsSpace(old(input)) ==>
        && ex == Some(Exchange(old(input), currentChatId, ""))
        && messages == Sent(old(messages), old(input))
        && input == "" && uploadedFile == None && uploadedFileName == None && isTyping
    {
      if Trim(input) == "" {
        return None;
      }
      var prompt := input;
      messages := messages + [Message(User, prompt)];
      input := "";
      uploadedFile := None;
      uploadedFileName := None;
      isTyping := true;
      messages := messages + [Message(Bot, "")];
      ex := Some(Exchange(prompt, currentChatId, ""));
    }

    /** One pass of the `for await` loop: the chunk extends `fullResponse`, which then
        overwrites the content of whatever message is last at that moment. */
    method ReceiveChunk(ex: Exchange, chunk: string) returns (next: Exchange)
      modifies this`messages
      ensures next == ex.(fullResponse := ex.fullResponse + chunk)
      ensures messages == WithLastContent(old(messages), next.fullResponse)
    {
      next := ex.(fullResponse := ex.fullResponse + chunk);
      messages := WithLastContent(messages, next.fullResponse);
    }

    /** The whole `for await` loop over the chunks that arrive before the stream ends
        or throws: the running text grows by each chunk in order, and the last message
        ends up holding it (untouched when no chunk arrives). */
    method StreamChunks(ex: Exchange, chunks: seq<string>) returns (next: Exchange)
      modifies this`messages
      ensures next == ex.(fullResponse := ex.fullResponse + Concat(chunks))
      ensures chunks == [] ==> messages == old(messages)
      ensures chunks != [] ==> messages == WithLastContent(old(messages), next.fullResponse)
    {
      next := ex;
      var i := 0;
      while i < |chunks|
        invariant 0 <= i <= |chunks|
        invariant next == ex.(fullResponse := ex.fullResponse + Concat(chunks[..i]))
        invariant messages == if i == 0 then old(messages) else WithLastContent(old(messages), next.fullResponse)
      {
        StreamStep(ex.fullResponse, chunks, i);
        LastWriteWins(old(messages), next.fullResponse, next.fullResponse + chunks[i]);
        next := ReceiveChunk(next, chunks[i]);
        i := i + 1;
      }
      assert chunks[..i] == chunks;
    }

    /** The final update once the stream has ended. */
    method FinishStream(ex: Exchange)
      modifies this`messages
      ensures messages == WithLastContent(old(messages), ex.fullResponse)
    {
      messages := WithLastContent(messages, ex.fullResponse);
    }

    /** A send that started without a chat id adopts the one the follow-up
        `sendMessage` returns (`None` when that call threw); one that started with an
        id issues no call and adopts nothing. */
    method AdoptChatId(ex: Exchange, reply: Option<string>) returns (adopted: bool)
      modifies this`currentChatId
      ensures adopted == (!IsSet(ex.chatIdAtSend) && reply.Some?)
      ensures currentChatId == if adopted then reply else old(currentChatId)
    {
      adopted := !IsSet(ex.chatIdAtSend) && reply.Some?;
      if adopted {
        currentChatId := reply;
      }
    }

    /** The `finally` block. */
    method EndSend()
      modifies this`isTyping
      ensures !isTyping
    {
      isTyping := false;
    }

    /** One whole `handleSendMessage` with no other handler running in between: the
        stream delivers `chunks` and then ends (`streamCompleted`) or throws. The log
        gains exactly the user's message and a bot message holding the concatenated
        chunks; a chat id is adopted only after a completed stream begun without one. */
    method SendMessage(chunks: seq<string>, streamCompleted: bool, reply: Option<string>,
                       fetched: Option<seq<Chat>>)
      modifies this`messages, this`input, this`uploadedFile, this`uploadedFileName,
               this`isTyping, this`currentChatId, this`chatHistory
      ensures AllJsSpace(old(input)) ==> unchanged(this)
      ensures !AllJsSpace(old(input)) ==>
        && messages == old(messages) + [Message(User, old(input)), Message(Bot, Concat(chunks))]
        && input == "" && uploadedFile == None && uploadedFileName == None && !isTyping
        && var adopted := streamCompleted && !IsSet(old(currentChatId)) && reply.Some?;
           && currentChatId == (if adopted then reply else old(currentChatId))
           && chatHistory == (if adopted && fetched.Some? then fetched.value else old(chatHistory))
    {
      var started := BeginSend();
      if started.None? {
        return;
      }
      ghost var sent := messages;
      var ex := StreamChunks(started.value, chunks);
      assert "" + Concat(chunks) == Concat(chunks);
      if chunks == [] {
        SameLastContent(sent, "");
      }
      assert messages == WithLastContent(sent, Concat(chunks));
      ReplyInPlaceholder(old(messages), old(input), Concat(chunks));
      if streamCompleted {
        LastWriteWins(sent, Concat(chunks), Concat(chunks));
        FinishStream(ex);
        var adopted := AdoptChatId(ex, reply);
        if adopted {
          LoadChatHistory(fetched);
        }
      }
      EndSend();
    }

    /** `handleNewChat`: the attachment is cleared at once; a created chat (`None` when
        the call threw) becomes current with an empty log, then the list is reloaded. */
    method NewChat(created: Option<string>, fetched: Option<seq<Chat>>)
      modifies this`uploadedFile, this`uploadedFileName, this`currentChatId, this`messages,
               this`chatHistory
      ensures uploadedFile == None && uploadedFileName == None
      ensures created.None? ==> currentChatId == old(currentChatId) && messages == old(messages)
                                && chatHistory == old(chatHistory)
      ensures created.Some? ==> currentChatId == created && messages == []
                                && chatHistory == (if fetched.Some? then fetched.value else old(chatHistory))
    {
      uploadedFile := None;
      uploadedFileName := None;
      if created.Some? {
        currentChatId := created;
        messages := [];
        LoadChatHistory(fetched);
      }
    }

    /** `handleFileUpload` up to its await. No file or no current chat changes nothing;
        otherwise the current chat's entry becomes the new name, replacing any earlier
        one, and no other chat's entry changes. */
    method FileUpload(file: Option<string>) returns (job: Option<UploadJob>)
      modifies this`uploadedFiles
      ensures (file.None? || !IsSet(currentChatId)) ==> job == None && unchanged(this)
      ensures file.Some? && IsSet(currentChatId) ==>
        && job == Some(UploadJob(currentChatId.value, file.value))
        && uploadedFiles == old(uploadedFiles)[currentChatId.value := Some(file.value)]
    {
      if file.None? || !IsSet(currentChatId) {
        return None;
      }
      var chatId := currentChatId.value;
      uploadedFiles := uploadedFiles[chatId := file];
      job := Some(UploadJob(chatId, file.value));
    }

    /** The upload threw: the entry of the chat the upload started in becomes null. */
    method UploadFailed(job: UploadJob)
      modifies this`uploadedFiles
      ensures uploadedFiles == old(uploadedFiles)[job.chatId := None]
    {
      uploadedFiles := uploadedFiles[job.chatId := None];
    }

    /** What the attachment row shows: the current chat's file name, when both are set. */
    function ShownAttachment(): (r: Option<string>)
      reads this
      ensures r.Some? <==> IsSet(currentChatId) && IsSet(AttachedFile(uploadedFiles, currentChatId.value))
      ensures r.Some? ==> r == AttachedFile(uploadedFiles, currentChatId.value)
    {
      if IsSet(currentChatId) && IsSet(AttachedFile(uploadedFiles, currentChatId.value))
      then AttachedFile(uploadedFiles, currentChatId.value)
      else None
    }

    /** The dismiss button, shown only while an attachment is shown: the current chat's
        entry becomes null. */
    method DismissFile()
      requires ShownAttachment().Some?
      modifies this`uploadedFiles
      ensures uploadedFiles == old(uploadedFiles)[currentChatId.value := None]
      ensures ShownAttachment() == None
    {
      uploadedFiles := uploadedFiles[currentChatId.value := None];
    }

    /** `handleRemoveFile`. */
    method RemoveFile()
      modifies this`uploadedFile, this`uploadedFileName
      ensures uploadedFile == None && uploadedFileName == None
    {
      uploadedFile := None;
      uploadedFileName := None;
    }

    /** `handleSelectChat`, resumed with the fetched messages (`None` when the fetch
        threw): the log is replaced wholesale and the chat becomes current. */
    method SelectChat(chatId: string, fetched: Option<seq<Message>>)
      modifies this`currentChatId, this`messages
      ensures fetched.None? ==> currentChatId == old(currentChatId) && messages == old(messages)
      ensures fetched.Some? ==> currentChatId == Some(chatId) && messages == fetched.value
    {
      if fetched.Some? {
        currentChatId := Some(chatId);
        messages := fetched.value;
      }
    }

    /** `handleChatDeleted`: the chat leaves the list and its file-list key is removed;
        the current chat and the log are reset only when it was the current one. */
    method ChatDeleted(chatId: string)
      modifies this`chatHistory, this`uploadedFiles, this`currentChatId, this`messages
      ensures chatHistory == WithoutChat(old(chatHistory), chatId)
      ensures uploadedFiles == old(uploadedFiles) - {chatId}
      ensures old(currentChatId) == Some(chatId) ==> currentChatId == None && messages == []
      ensures old(currentChatId) != Some(chatId) ==>
                currentChatId == old(currentChatId) && messages == old(messages)
    {
      chatHistory := WithoutChat(chatHistory, chatId);
      uploadedFiles := uploadedFiles - {chatId};
      if currentChatId == Some(chatId) {
        currentChatId := None;
        messages := [];
      }
    }
  }
}
