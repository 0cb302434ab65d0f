/** The conversation view of the `frontend` client (frontend/src/components/Interface.tsx):
    the message log, the current chat, the chat list, and the per-chat upload list with
    a progress record per file name. Every `useState` slot is a field; every handler,
    every resumption after an `await`, and every timer firing is a method. Network
    results (the stream's chunks, fetched lists, created ids) are method parameters. */
module FrontendInterface {
  import opened Text
  import opened ChatLog

  datatype Status = Uploading | Done | UploadError

  /** `{ progress, status }`, with `progress` counted in tenths (0.1 is one tenth). */
  datatype Progress = Progress(tenths: nat, status: Status)

  /** The simulated progress stops at 0.9 until the upload settles. */
  const TickCap: nat := 9

  /** One interval firing on a record: `Math.min(progress + 0.1, 0.9)`, status kept. */
  function Tick(p: Progress): (r: Progress)
    ensures r.status == p.status
    ensures r.tenths <= TickCap
    ensures p.tenths <= TickCap ==> p.tenths <= r.tenths <= p.tenths + 1
    ensures p.tenths < TickCap ==> r.tenths == p.tenths + 1
    ensures p.tenths > TickCap ==> r.tenths == TickCap
  {
    Progress(if p.tenths + 1 < TickCap then p.tenths + 1 else TickCap, p.status)
  }

  /** The record after `n` interval firings. */
  function Ticks(p: Progress, n: nat): Progress
    decreases n
  {
    if n == 0 then p else Tick(Ticks(p, n - 1))
  }

  /** From a record at or below the cap, `n` firings advance it by `n` tenths but never
      past 0.9, and never change its status. */
  lemma {:induction false} TicksReachCap(p: Progress, n: nat)
    requires p.tenths <= TickCap
    ensures Ticks(p, n).status == p.status
    ensures Ticks(p, n).tenths == if p.tenths + n < TickCap then p.tenths + n else TickCap
    decreases n
  {
    if n > 0 {
      TicksReachCap(p, n - 1);
    }
  }

  /** Firings never lower the progress of a record at or below the cap. */
  lemma {:induction false} TicksMonotone(p: Progress, m: nat, n: nat)
    requires p.tenths <= TickCap && m <= n
    ensures p.tenths <= Ticks(p, m).tenths <= Ticks(p, n).tenths <= TickCap
  {
    TicksReachCap(p, m);
    TicksReachCap(p, n);
  }

  /** The interval is keyed by file name and is cleared only when its own upload
      succeeds. An interval left running by a failed upload of the same name therefore
      ticks the record of a later, successful upload, and lowers it from 1 to 0.9 with
      status done. */
  lemma StaleTickLowersDone(progress: map<string, Progress>, name: string)
    ensures name in TickRecord(progress[name := Progress(10, Done)], name)
    ensures TickRecord(progress[name := Progress(10, Done)], name)[name] == Progress(TickCap, Done)
  {
  }

  /** The tick updater as written: it reads `prev[fileName].progress`, which throws
      (`None`) once the record has been deleted. */
  function TickAsWritten(progress: map<string, Progress>, name: string): (r: Option<map<string, Progress>>)
    ensures r.None? <==> name !in progress
  {
    if name in progress then Some(progress[name := Tick(progress[name])]) else None
  }

  /** A tick that reaches a file whose record the dismiss button has deleted throws. */
  lemma TickAfterDismissThrows(progress: map<string, Progress>, name: string)
    ensures TickAsWritten(progress - {name}, name).None?
  {
    assert name !in progress - {name};
  }

  /** The tick updater made total: a missing record is left missing. */
  function TickRecord(progress: map<string, Progress>, name: string): (r: map<string, Progress>)
    ensures r.Keys == progress.Keys
    ensures forall k | k in progress && k != name :: r[k] == progress[k]
    ensures name in progress ==> r[name] == Tick(progress[name])
  {
    if name in progress then progress[name := Tick(progress[name])] else progress
  }

  /** Where a record exists the total updater agrees with the one as written, and a tick
      for a dismissed file changes nothing. */
  lemma TickRecordAgrees(progress: map<string, Progress>, name: string)
    ensures name in progress ==> TickAsWritten(progress, name) == Some(TickRecord(progress, name))
    ensures TickRecord(progress - {name}, name) == progress - {name}
  {
    assert name !in progress - {name};
  }

  /** `prev[chatId] || []`: the chat's list, or an empty one. */
  function FilesOf(files: map<string, seq<string>>, chatId: string): (r: seq<string>)
    ensures chatId !in files ==> r == []
    ensures chatId in files ==> r == files[chatId]
  {
    if chatId in files then files[chatId] else []
  }

  /** `list.filter(name => name !== fileName)`. */
  function WithoutName(list: seq<string>, name: string): (r: seq<string>)
    ensures name !in r
    ensures forall x | x != name :: x in r <==> x in list
  {
    Filter(list, (x: string) => x != name)
  }

  /** The delayed removal after a failure takes out the appended name and every earlier
      entry of the same name, and keeps the rest of the chat's list in order. */
  lemma DelayedRemovalUndoesUpload(files: map<string, seq<string>>, chatId: string, name: string)
    ensures WithoutName(FilesOf(files[chatId := FilesOf(files, chatId) + [name]], chatId), name)
         == WithoutName(FilesOf(files, chatId), name)
  {
    var keep := (x: string) => x != name;
    FilterAppend(FilesOf(files, chatId), [name], keep);
    assert Filter([name], keep) == [];
  }

  /** `list.filter((_, i) => i !== index)`: the entry at `index` is dropped, the others
      keep their order. */
  function RemoveAt(list: seq<string>, index: nat): (r: seq<string>)
    ensures |r| == if index < |list| then |list| - 1 else |list|
    ensures forall k | 0 <= k < |r| :: r[k] == list[if k < index then k else k + 1]
  {
    if index < |list| then list[..index] + list[index + 1..] else list
  }

  /** Dismissing drops exactly one entry: the one at the clicked index. */
  lemma RemoveAtDropsOne(list: seq<string>, index: nat)
    requires index < |list|
    ensures multiset(RemoveAt(list, index)) + multiset{list[index]} == multiset(list)
  {
    assert list == list[..index] + [list[index]] + list[index + 1..];
  }

  /** What the file row shows for a name: its record, or `{ progress: 0, status: 'uploading' }`. */
  function DisplayedProgress(progress: map<string, Progress>, name: string): (r: Progress)
    ensures name !in progress ==> r == Progress(0, Uploading)
    ensures name in progress ==> r == progress[name]
  {
    if name in progress then progress[name] else Progress(0, Uploading)
  }

  /** Records are keyed by name, not by row: when a chat lists the same name twice,
      dismissing one row resets what the other shows to 0 and uploading. */
  lemma DismissResetsTwin(list: seq<string>, progress: map<string, Progress>, i: nat, j: nat)
    requires i < |list| && j < |list| && i != j && list[i] == list[j]
    ensures list[j] in RemoveAt(list, i)
    ensures DisplayedProgress(progress - {list[i]}, list[j]) == Progress(0, Uploading)
  {
    var r := RemoveAt(list, i);
    var k := if j < i then j else j - 1;
    assert r[k] == list[j];
    assert list[j] !in progress - {list[i]};
  }

  class ChatInterface {
    var messages: seq<Message>
    var input: string
    var currentChatId: Option<string>
    var chatHistory: seq<Chat>
    var isTyping: bool
    /** The selected `File` and its name; the handlers only ever clear them. */
    var uploadedFile: Option<string>
    var uploadedFileName: Option<string>
    var uploadedFiles: map<string, seq<string>>
    var uploadProgress: map<string, Progress>

    /** The first render; `savedFiles` is what the saved JSON parsed to, or `{}`. */
    constructor (savedFiles: map<string, seq<string>>)
      ensures messages == [] && input == "" && currentChatId == None && chatHistory == []
      ensures !isTyping && uploadedFile == None && uploadedFileName == None
      ensures uploadedFiles == savedFiles && uploadProgress == map[]
    {
      messages := [];
      input := "";
      currentChatId := None;
      chatHistory := [];
      isTyping := false;
      uploadedFile := None;
      uploadedFileName := None;
      uploadedFiles := savedFiles;
      uploadProgress := map[];
    }

    /** The text area's `onChange`. */
    method SetInput(text: string)
      modifies this`input
      ensures input == text
    {
      input := text;
    }

    /** `loadChatHistory`, resumed with the fetch's result (`None` when it threw). */
    method LoadChatHistory(fetched: Option<seq<Chat>>)
      modifies this`chatHistory
      ensures chatHistory == if fetched.Some? then fetched.value else old(chatHistory)
    {
      if fetched.Some? {
        chatHistory := fetched.value;
      }
    }

    /** `handleSendMessage` up to its first await: a blank input changes nothing;
        otherwise the user's message and the empty bot placeholder are appended, the
        input and the attachment are cleared and the typing indicator is shown. */
    method BeginSend() returns (ex: Option<Exchange>)
      modifies this`messages, this`input, this`uploadedFile, this`uploadedFileName, this`isTyping
      ensures AllJsSpace(old(input)) ==> ex == None && unchanged(this)
      ensures !AllJsSpace(old(input)) ==>
        && ex == Some(Exchange(old(input), currentChatId, ""))
        && messages == Sent(old(messages), old(input))
        && input == "" && uploadedFile == None && uploadedFileName == None && isTyping
    {
      if Trim(input) == "" {
        return None;
      }
      var prompt := input;
      messages := messages + [Message(User, prompt)];
      input := "";
      uploadedFile := None;
      uploadedFileName := None;
      isTyping := true;
      messages := messages + [Message(Bot, "")];
      ex := Some(Exchange(prompt, currentChatId, ""));
    }

    /** One pass of the `for await` loop: the chunk extends `fullResponse`, which then
        overwrites the content of whatever message is last at that moment. */
    method ReceiveChunk(ex: Exchange, chunk: string) returns (next: Exchange)
      modifies this`messages
      ensures next == ex.(fullResponse := ex.fullResponse + chunk)
      ensures messages == WithLastContent(old(messages), next.fullResponse)
    {
      next := ex.(fullResponse := ex.fullResponse + chunk);
      messages := WithLastContent(messages, next.fullResponse);
    }

    /** The whole `for await` loop over the chunks that arrive before the stream ends
        or throws: the running text grows by each chunk in order, and the last message
        ends up holding it (untouched when no chunk arrives). */
    method StreamChunks(ex: Exchange, chunks: seq<string>) returns (next: Exchange)
      modifies this`messages
      ensures next == ex.(fullResponse := ex.fullResponse + Concat(chunks))
      ensures chunks == [] ==> messages == old(messages)
      ensures chunks != [] ==> messages == WithLastContent(old(messages), next.fullResponse)
    {
      next := ex;
      var i := 0;
      while i < |chunks|
        invariant 0 <= i <= |chunks|
        invariant next == ex.(fullResponse := ex.fullResponse + Concat(chunks[..i]))
        invariant messages == if i == 0 then old(messages) else WithLastContent(old(messages), next.fullResponse)
      {
        StreamStep(ex.fullResponse, chunks, i);
        LastWriteWins(old(messages), next.fullResponse, next.fullResponse + chunks[i]);
        next := ReceiveChunk(next, chunks[i]);
        i := i + 1;
      }
      assert chunks[..i] == chunks;
    }

    /** The final update once the stream has ended. */
    method FinishStream(ex: Exchange)
      modifies this`messages
      ensures messages == WithLastContent(old(messages), ex.fullResponse)
    {
      messages := WithLastContent(messages, ex.fullResponse);
    }

    /** A send that started without a chat id adopts the one the follow-up
        `sendMessage` returns (`None` when that call threw); one that started with an
        id issues no call and adopts nothing. */
    method AdoptChatId(ex: Exchange, reply: Option<string>) returns (adopted: bool)
      modifies this`currentChatId
      ensures adopted == (!IsSet(ex.chatIdAtSend) && reply.Some?)
      ensures currentChatId == if adopted then reply else old(currentChatId)
    {
      adopted := !IsSet(ex.chatIdAtSend) && reply.Some?;
      if adopted {
        currentChatId := reply;
      }
    }

    /** The `finally` block. */
    method EndSend()
      modifies this`isTyping
      ensures !isTyping
    {
      isTyping := false;
    }

    /** One whole `handleSendMessage` with no other handler running in between: the
        stream delivers `chunks` and then ends (`streamCompleted`) or throws. The log
        gains exactly the user's message and a bot message holding the concatenated
        chunks; a chat id is adopted only after a completed stream begun without one. */
    method SendMessage(chunks: seq<string>, streamCompleted: bool, reply: Option<string>,
                       fetched: Option<seq<Chat>>)
      modifies this`messages, this`input, this`uploadedFile, this`uploadedFileName,
               this`isTyping, this`currentChatId, this`chatHistory
      ensures AllJsSpace(old(input)) ==> unchanged(this)
      ensures !AllJsSpace(old(input)) ==>
        && messages == old(messages) + [Message(User, old(input)), Message(Bot, Concat(chunks))]
        && input == "" && uploadedFile == None && uploadedFileName == None && !isTyping
        && var adopted := streamCompleted && !IsSet(old(currentChatId)) && reply.Some?;
           && currentChatId == (if adopted then reply else old(currentChatId))
           && chatHistory == (if adopted && fetched.Some? then fetched.value else old(chatHistory))
    {
      var started := BeginSend();
      if started.None? {
        return;
      }
      ghost var sent := messages;
      var ex := StreamChunks(started.value, chunks);
      assert "" + Concat(chunks) == Concat(chunks);
      if chunks == [] {
        SameLastContent(sent, "");
      }
      assert messages == WithLastContent(sent, Concat(chunks));
      ReplyInPlaceholder(old(messages), old(input), Concat(chunks));
      if streamCompleted {
        LastWriteWins(sent, Concat(chunks), Concat(chunks));
        FinishStream(ex);
        var adopted := AdoptChatId(ex, reply);
        if adopted {
          LoadChatHistory(fetched);
        }
      }
      EndSend();
    }

    /** `handleNewChat`: the attachment is cleared at once; a created chat (`None` when
        the call threw) becomes current with an empty log, then the list is reloaded. */
    method NewChat(created: Option<string>, fetched: Option<seq<Chat>>)
      modifies this`uploadedFile, this`uploadedFileName, this`currentChatId, this`messages,
               this`chatHistory
      ensures uploadedFile == None && uploadedFileName == None
      ensures created.None? ==> currentChatId == old(currentChatId) && messages == old(messages)
                                && chatHistory == old(chatHistory)
      ensures created.Some? ==> currentChatId == created && messages == []
                                && chatHistory == (if fetched.Some? then fetched.value else old(chatHistory))
    {
      uploadedFile := None;
      uploadedFileName := None;
      if created.Some? {
        currentChatId := created;
        messages := [];
        LoadChatHistory(fetched);
      }
    }

    /** `handleFileUpload` up to its await. No file or no current chat changes nothing;
        otherwise the name is appended to the current chat's list only and its record
        starts at 0, uploading. */
    method FileUpload(file: Option<string>) returns (job: Option<UploadJob>)
      modifies this`uploadedFiles, this`uploadProgress
      ensures (file.None? || !IsSet(currentChatId)) ==> job == None && unchanged(this)
      ensures file.Some? && IsSet(currentChatId) ==>
        && job == Some(UploadJob(currentChatId.value, file.value))
        && uploadedFiles.Keys == old(uploadedFiles).Keys + {currentChatId.value}
        && FilesOf(uploadedFiles, currentChatId.value)
           == FilesOf(old(uploadedFiles), currentChatId.value) + [file.value]
        && (forall c | c in old(uploadedFiles) && c != currentChatId.value ::
              uploadedFiles[c] == old(uploadedFiles)[c])
        && uploadProgress == old(uploadProgress)[file.value := Progress(0, Uploading)]
    {
      if file.None? || !IsSet(currentChatId) {
        return None;
      }
      var chatId := currentChatId.value;
      var name := file.value;
      uploadedFiles := uploadedFiles[chatId := FilesOf(uploadedFiles, chatId) + [name]];
      uploadProgress := uploadProgress[name := Progress(0, Uploading)];
      job := Some(UploadJob(chatId, name));
    }

    /** One firing of the upload's interval, which runs until the upload succeeds (for
        ever after a failure). A record the dismiss button deleted stays deleted. */
    method ProgressTick(job: UploadJob)
      modifies this`uploadProgress
      ensures uploadProgress == TickRecord(old(uploadProgress), job.fileName)
    {
      if job.fileName in uploadProgress {
        uploadProgress := uploadProgress[job.fileName := Tick(uploadProgress[job.fileName])];
      }
    }

    /** The upload resolved: the record becomes 1, done (the interval is cleared). */
    method UploadSucceeded(job: UploadJob)
      modifies this`uploadProgress
      ensures uploadProgress == old(uploadProgress)[job.fileName := Progress(10, Done)]
    {
      uploadProgress := uploadProgress[job.fileName := Progress(10, Done)];
    }

    /** The upload threw: the record becomes 0, error (the interval keeps running). */
    method UploadFailed(job: UploadJob)
      modifies this`uploadProgress
      ensures uploadProgress == old(uploadProgress)[job.fileName := Progress(0, UploadError)]
    {
      uploadProgress := uploadProgress[job.fileName := Progress(0, UploadError)];
    }

    /** The timeout two seconds after a failure: every entry with the file's name leaves
        the list of the chat the upload started in; no other chat's list changes. */
    method RemoveAfterDelay(job: UploadJob)
      modifies this`uploadedFiles
      ensures uploadedFiles
           == old(uploadedFiles)[job.chatId := WithoutName(FilesOf(old(uploadedFiles), job.chatId), job.fileName)]
    {
      uploadedFiles := uploadedFiles[job.chatId := WithoutName(FilesOf(uploadedFiles, job.chatId), job.fileName)];
    }

    /** The dismiss button of row `index` of the current chat's list: that row goes, and
        the record of its name is deleted. */
    method DismissFile(index: nat)
      requires IsSet(currentChatId) && index < |FilesOf(uploadedFiles, currentChatId.value)|
      modifies this`uploadedFiles, this`uploadProgress
      ensures var list := FilesOf(old(uploadedFiles), currentChatId.value);
        && uploadedFiles == old(uploadedFiles)[currentChatId.value := RemoveAt(list, index)]
        && uploadProgress == old(uploadProgress) - {list[index]}
    {
      var chatId := currentChatId.value;
      var list := FilesOf(uploadedFiles, chatId);
      uploadedFiles := uploadedFiles[chatId := RemoveAt(list, index)];
      uploadProgress := uploadProgress - {list[index]};
    }

    /** `handleRemoveFile`. */
    method RemoveFile()
      modifies this`uploadedFile, this`uploadedFileName
      ensures uploadedFile == None && uploadedFileName == None
    {
      uploadedFile := None;
      uploadedFileName := None;
    }

    /** `handleSelectChat`, resumed with the fetched messages (`None` when the fetch
        threw): the log is replaced wholesale and the chat becomes current. */
    method SelectChat(chatId: string, fetched: Option<seq<Message>>)
      modifies this`currentChatId, this`messages
      ensures fetched.None? ==> currentChatId == old(currentChatId) && messages == old(messages)
      ensures fetched.Some? ==> currentChatId == Some(chatId) && messages == fetched.value
    {
      if fetched.Some? {
        currentChatId := Some(chatId);
        messages := fetched.value;
      }
    }

    /** `handleChatDeleted`: the chat leaves the list and its file-list key is removed;
        the current chat and the log are reset only when it was the current one. */
    method ChatDeleted(chatId: string)
      modifies this`chatHistory, this`uploadedFiles, this`currentChatId, this`messages
      ensures chatHistory == WithoutChat(old(chatHistory), chatId)
      ensures uploadedFiles == old(uploadedFiles) - {chatId}
      ensures old(currentChatId) == Some(chatId) ==> currentChatId == None && messages == []
      ensures old(currentChatId) != Some(chatId) ==>
                currentChatId == old(currentChatId) && messages == old(messages)
    {
      chatHistory := WithoutChat(chatHistory, chatId);
      uploadedFiles := uploadedFiles - {chatId};
      if currentChatId == Some(chatId) {
        currentChatId := None;
        messages := [];
      }
    }
  }
}
