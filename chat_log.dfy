/** The message log and chat list shared by the two chat views
    (frontend/src/components/Interface.tsx and chatfrontend/src/components/Interface.tsx):
    the records they hold and the pure updaters their state setters are given. */
module ChatLog {
  import opened Text

  datatype Role = User | Bot

  /** `{ role, content }`: one entry of the displayed conversation. */
  datatype Message = Message(role: Role, content: string)

  /** `{ chat_id, title }`: one entry of the chat list. */
  datatype Chat = Chat(chatId: string, title: string)

  /** What one run of `handleSendMessage` carries across its awaits: the prompt and the
      chat id it captured when it started, and its running `fullResponse`. */
  datatype Exchange = Exchange(prompt: string, chatIdAtSend: Option<string>, fullResponse: string)

  /** What one run of `handleFileUpload` carries past its await: the chat id it
      captured and the file's name. */
  datatype UploadJob = UploadJob(chatId: string, fileName: string)

  /** What a send appends: the user's text, then the empty bot placeholder. */
  function Sent(log: seq<Message>, prompt: string): (r: seq<Message>)
    ensures |r| == |log| + 2 && r[..|log|] == log
    ensures r[|log|] == Message(User, prompt) && r[|log| + 1] == Message(Bot, "")
  {
    log + [Message(User, prompt), Message(Bot, "")]
  }

  /** The chunk updater: the element at index `length - 1` gets `content`, every
      other element is kept; an empty log stays empty. */
  function WithLastContent(log: seq<Message>, content: string): (r: seq<Message>)
    ensures |r| == |log|
    ensures forall i | 0 <= i < |log| - 1 :: r[i] == log[i]
    ensures |log| > 0 ==> r[|log| - 1] == Message(log[|log| - 1].role, content)
  {
    if log == [] then [] else log[..|log| - 1] + [log[|log| - 1].(content := content)]
  }

  /** Only the newest write to the last element is visible. */
  lemma LastWriteWins(log: seq<Message>, a: string, b: string)
    ensures WithLastContent(WithLastContent(log, a), b) == WithLastContent(log, b)
  {
    var x, y := WithLastContent(WithLastContent(log, a), b), WithLastContent(log, b);
    assert |x| == |y|;
    forall i | 0 <= i < |x| ensures x[i] == y[i] {}
  }

  /** Writing the content the last element already has changes nothing. */
  lemma SameLastContent(log: seq<Message>, content: string)
    requires |log| > 0 && log[|log| - 1].content == content
    ensures WithLastContent(log, content) == log
  {
    var x := WithLastContent(log, content);
    forall i | 0 <= i < |x| ensures x[i] == log[i] {}
  }

  /** The log after the stream loop has run over `chunks`, starting from the running
      text `full`: each chunk extends the running text and overwrites the last
      element with it, in order. */
  function Streamed(log: seq<Message>, full: string, chunks: seq<string>): seq<Message>
    decreases |chunks|
  {
    if chunks == [] then log
    else Streamed(WithLastContent(log, full + chunks[0]), full + chunks[0], chunks[1..])
  }

  /** However many chunks arrive, the log differs from the one before the stream only
      in its last element, whose content is the running text followed by every chunk,
      in arrival order. */
  lemma {:induction false} StreamedIsConcat(log: seq<Message>, full: string, chunks: seq<string>)
    requires chunks != []
    ensures Streamed(log, full, chunks) == WithLastContent(log, full + Concat(chunks))
    decreases |chunks|
  {
    var head := full + chunks[0];
    ConcatAppend([chunks[0]], chunks[1..]);
    assert [chunks[0]] + chunks[1..] == chunks;
    assert Concat([chunks[0]]) == Concat([]) + chunks[0];
    if chunks[1..] == [] {
      assert Concat(chunks) == chunks[0];
    } else {
      StreamedIsConcat(WithLastContent(log, head), head, chunks[1..]);
      LastWriteWins(log, head, head + Concat(chunks[1..]));
      assert full + Concat(chunks) == head + Concat(chunks[1..]);
    }
  }

  /** Writing into the placeholder of a fresh send yields the user's message followed
      by a bot message holding `content`, after the untouched earlier log. */
  lemma ReplyInPlaceholder(log: seq<Message>, prompt: string, content: string)
    ensures WithLastContent(Sent(log, prompt), content)
         == log + [Message(User, prompt), Message(Bot, content)]
  {
    var sent := Sent(log, prompt);
    var r := WithLastContent(sent, content);
    var e := log + [Message(User, prompt), Message(Bot, content)];
    assert |r| == |e|;
    forall i | 0 <= i < |r| ensures r[i] == e[i] {
      if i < |log| { assert r[i] == sent[i]; }
    }
  }

  /** After a send, the placeholder ends up holding exactly the concatenation of the
      chunks, and the earlier messages, including the user's, are untouched. */
  lemma StreamAfterSend(log: seq<Message>, prompt: string, chunks: seq<string>)
    ensures Streamed(Sent(log, prompt), "", chunks)
         == log + [Message(User, prompt), Message(Bot, Concat(chunks))]
  {
    var sent := Sent(log, prompt);
    if chunks == [] {
    } else {
      StreamedIsConcat(sent, "", chunks);
      assert "" + Concat(chunks) == Concat(chunks);
      ReplyInPlaceholder(log, prompt, Concat(chunks));
    }
  }

  /** The chunk updater has no notion of which exchange a chunk belongs to: once the
      log has been replaced (another chat selected), a late chunk overwrites the last
      message of the new log. */
  lemma LateChunkRewritesReplacedLog(replaced: seq<Message>, full: string)
    requires |replaced| > 0 && replaced[|replaced| - 1].content != full
    ensures WithLastContent(replaced, full) != replaced
    ensures WithLastContent(replaced, full)[|replaced| - 1].content == full
    ensures WithLastContent(replaced, full)[..|replaced| - 1] == replaced[..|replaced| - 1]
  {
    assert WithLastContent(replaced, full)[|replaced| - 1] != replaced[|replaced| - 1];
  }

  /** `prev.filter((chat) => chat.chat_id !== chatId)`. */
  function WithoutChat(history: seq<Chat>, chatId: string): (r: seq<Chat>)
    ensures |r| <= |history|
    ensures forall c :: c in r <==> c in history && c.chatId != chatId
  {
    Filter(history, (c: Chat) => c.chatId != chatId)
  }

  /** Filtering out an id no entry has keeps the list as it is, order included. */
  lemma WithoutAbsentChat(history: seq<Chat>, chatId: string)
    requires forall i | 0 <= i < |history| :: history[i].chatId != chatId
    ensures WithoutChat(history, chatId) == history
  {
    FilterKeepsAll(history, (c: Chat) => c.chatId != chatId);
  }
}
