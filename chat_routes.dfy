/** The chat routes of the backend (backend/app/routes/chat_routes.py) over the
    module-level registry: the `chat` handler, split into the part that runs before the
    streaming response is returned and the generator that produces it, and the two
    read-only routes `get_chats` and `get_chat_history`. The model's token stream is a
    parameter: the tokens it yields before it ends, and the text of the exception it
    raised, if it did. */
module ChatRoutes {
  import opened Text
  import opened Utils

  /** An `HTTPException` as the client receives it. */
  datatype HttpError = HttpError(status: nat, detail: string)

  const InvalidChatId := HttpError(400, "Invalid chat_id. Please start a new conversation.")
  const ChatIdNotFound := HttpError(404, "Chat ID not found.")
  /** What the server answers for an exception no handler catches. */
  const InternalServerError := HttpError(500, "Internal Server Error")

  /** The outer `except Exception` of `chat` as written: every exception, including the
      400 raised inside the `try`, becomes a 500 whose detail is `str(e)`, which for an
      `HTTPException` reads "<status>: <detail>". */
  function WrappedAsWritten(e: HttpError): (r: HttpError)
    ensures r.status == 500
    ensures |r.detail| > |e.detail| && r.detail[|r.detail| - |e.detail|..] == e.detail
  {
    HttpError(500, NatToString(e.status) + ": " + e.detail)
  }

  /** An unknown chat id reaches the client as a 500, not as the intended 400. */
  lemma InvalidChatIdBecomes500()
    ensures WrappedAsWritten(InvalidChatId) == HttpError(500, "400: " + InvalidChatId.detail)
  {
    assert [(48 + 0) as char] == "0" && [(48 + 4) as char] == "4";
    assert NatToString(4) == "4";
    assert NatToString(40) == NatToString(4) + "0" == "40";
    assert NatToString(400) == NatToString(40) + "0" == "400";
    assert "400" + ": " == "400: ";
  }

  /** `request.message[:30] or "Untitled Chat"`. */
  function NewTitle(message: string): (r: string)
    ensures r != "" && |r| <= 30
    ensures message != "" ==> r <= message && |r| == (if |message| < 30 then |message| else 30)
    ensures message == "" ==> r == "Untitled Chat"
  {
    var cut := Prefix(message, 30);
    if cut == "" then "Untitled Chat" else cut
  }

  /** A message of at most 30 characters is its own title. */
  lemma ShortMessageIsTitle(message: string)
    requires 0 < |message| <= 30
    ensures NewTitle(message) == message
  {
  }

  /** A message longer than 30 characters is cut to its first 30. */
  lemma LongMessageIsCut(message: string)
    requires |message| > 30
    ensures NewTitle(message) == message[..30]
  {
    PrefixOfEqualLength(NewTitle(message), message[..30], message);
  }

  /** Two prefixes of the same text with the same length are equal. */
  lemma PrefixOfEqualLength(a: string, b: string, s: string)
    requires a <= s && b <= s && |a| == |b|
    ensures a == b
  {
    assert forall k | 0 <= k < |a| :: a[k] == s[k] == b[k];
  }

  /** What the handler hands to its generator: the chat id, the memory it looked up and
      the request's message. */
  datatype Pending = Pending(chatId: string, memory: ChatMessageHistory, message: string)

  datatype ChatOutcome = Streaming(pending: Pending) | Refused(error: HttpError)

  /** The `chat` handler up to the `StreamingResponse`, with the outer handler's intended
      behaviour (an `HTTPException` passes through it unchanged). A missing or empty id
      creates a new conversation first; an unknown id is refused with 400 and changes
      nothing; otherwise the user's message is appended to that chat's memory. */
  method Chat(conversations: Conversations, db: Database, requestChatId: Option<string>,
              message: string, freshId: string) returns (out: ChatOutcome)
    requires conversations.Valid()
    modifies conversations, db, conversations.Memories()
    ensures conversations.Valid()
    ensures out.Refused? <==> IsSet(requestChatId) && requestChatId.value !in old(conversations.entries)
    ensures out.Refused? ==>
      && out.error == InvalidChatId
      && conversations.entries == old(conversations.entries) && conversations.order == old(conversations.order)
      && db.writes == old(db.writes)
      && forall id | id in conversations.entries ::
           conversations.StateOf(id) == old(conversations.StateOf(id))
    ensures out.Streaming? ==>
      && var id := out.pending.chatId;
      && id == (if IsSet(requestChatId) then requestChatId.value else freshId)
      && id in conversations.entries
      && out.pending == Pending(id, conversations.entries[id].memory, message)
      && conversations.entries.Keys == old(conversations.entries).Keys + {id}
      && conversations.order
         == (if IsSet(requestChatId) || id in old(conversations.entries)
             then old(conversations.order) else old(conversations.order) + [id])
      && conversations.StateOf(id)
         == (if IsSet(requestChatId)
             then old(conversations.StateOf(id)).(messages := old(conversations.StateOf(id)).messages + [MessageDict("user", message)])
             else ChatState("New Chat", [MessageDict("user", message)]))
      && db.writes == old(db.writes) + (if IsSet(requestChatId) then [] else [CreateChat(freshId, "New Chat")])
      && forall other | other in old(conversations.entries) && other != id ::
           conversations.StateOf(other) == old(conversations.StateOf(other))
  {
    var chatId: string;
    if IsSet(requestChatId) {
      chatId := requestChatId.value;
    } else {
      chatId := CreateNewConversation(conversations, db, freshId);
    }
    if chatId !in conversations.entries {
      return Refused(InvalidChatId);
    }
    var memory := conversations.entries[chatId].memory;
    var accepted := memory.AddMessage(Dict(MessageDict("user", message)));
    out := Streaming(Pending(chatId, memory, message));
  }

  /** The writes of one exchange whose response is not blank: the user's message and the
      response, then every message the memory now holds. */
  function ExchangeSaves(chatId: string, message: string, response: string, memory: seq<PyDict>): (r: seq<DbWrite>)
    ensures |r| == 2 + |memory|
    ensures r[..2] == [SaveMessage(chatId, "user", message), SaveMessage(chatId, "ai", response)]
    ensures r[2..] == SavesOf(chatId, memory)
  {
    [SaveMessage(chatId, "user", message), SaveMessage(chatId, "ai", response)] + SavesOf(chatId, memory)
  }

  /** The saves of one exchange write the user's message twice, and every earlier
      message of the chat once more. */
  lemma ExchangeSavedTwice(chatId: string, message: string, response: string, earlier: seq<PyDict>)
    ensures var saves := ExchangeSaves(chatId, message, response,
                                       earlier + [MessageDict("user", message), MessageDict("ai", response)]);
      && saves[0] == saves[2 + |earlier|] == SaveMessage(chatId, "user", message)
      && saves[1] == saves[3 + |earlier|] == SaveMessage(chatId, "ai", response)
      && saves[2..2 + |earlier|] == SavesOf(chatId, earlier)
  {
    var memory := earlier + [MessageDict("user", message), MessageDict("ai", response)];
    var saves := ExchangeSaves(chatId, message, response, memory);
    assert memory[|earlier|] == MessageDict("user", message);
    assert memory[|earlier| + 1] == MessageDict("ai", response);
    var tail := saves[2..2 + |earlier|];
    var want := SavesOf(chatId, earlier);
    assert |tail| == |want|;
    forall i | 0 <= i < |tail| ensures tail[i] == want[i] {
      assert tail[i] == SavesOf(chatId, memory)[i];
      assert memory[i] == earlier[i];
    }
  }

  /** `generate_response_stream`. Every token is yielded as it comes and added to the
      response text. If the stream raised, the error text is the last item and nothing
      else happens. Otherwise a chat still titled "New Chat" is retitled from the
      message, and only a response that is not blank is stored in memory and saved. */
  method GenerateResponseStream(conversations: Conversations, db: Database, p: Pending,
                                tokens: seq<string>, failure: Option<string>)
    returns (yielded: seq<string>)
    requires conversations.Valid()
    requires p.chatId in conversations.entries && conversations.entries[p.chatId].memory == p.memory
    modifies conversations, db, p.memory
    ensures conversations.Valid()
    ensures conversations.order == old(conversations.order)
    ensures conversations.entries.Keys == old(conversations.entries).Keys
    ensures forall other | other in conversations.entries && other != p.chatId ::
      conversations.StateOf(other) == old(conversations.StateOf(other))
    ensures conversations.entries[p.chatId].memory == p.memory
    ensures failure.Some? ==>
      && yielded == tokens + ["Error generating response: " + failure.value]
      && conversations.StateOf(p.chatId) == old(conversations.StateOf(p.chatId))
      && db.writes == old(db.writes)
    ensures failure.None? ==>
      && yielded == tokens
      && var before := old(conversations.StateOf(p.chatId));
         var response := Concat(tokens);
         var retitled := before.title == "New Chat";
         var stored := !PyBlank(response);
         var messages := if stored then before.messages + [MessageDict("ai", response)] else before.messages;
         && conversations.StateOf(p.chatId)
            == ChatState(if retitled then NewTitle(p.message) else before.title, messages)
         && db.writes
            == old(db.writes)
               + (if retitled then [UpdateTitle(p.chatId, NewTitle(p.message))] else [])
               + (if stored then ExchangeSaves(p.chatId, p.message, response, messages) else [])
  {
    var responseText := "";
    yielded := [];
    var i := 0;
    while i < |tokens|
      modifies {}
      invariant 0 <= i <= |tokens|
      invariant responseText == Concat(tokens[..i]) && yielded == tokens[..i]
    {
      assert tokens[..i + 1] == tokens[..i] + [tokens[i]];
      ConcatSnoc(tokens[..i], tokens[i]);
      responseText := responseText + tokens[i];
      yielded := yielded + [tokens[i]];
      i := i + 1;
    }
    assert tokens[..i] == tokens;
    if failure.Some? {
      yielded := yielded + ["Error generating response: " + failure.value];
      return;
    }
    RetitleIfNew(conversations, db, p);
    StoreResponse(conversations, db, p, responseText);
  }

  /** Lines 49-60 of the generator: a chat still titled "New Chat" takes its title from
      the message, in the registry and in the database; any other title is kept. */
  method RetitleIfNew(conversations: Conversations, db: Database, p: Pending)
    requires conversations.Valid() && p.chatId in conversations.entries
    modifies conversations, db
    ensures conversations.Valid() && conversations.order == old(conversations.order)
    ensures var before := old(conversations.entries)[p.chatId];
      var retitled := before.title == "New Chat";
      && conversations.entries
         == old(conversations.entries)[p.chatId := before.(title := if retitled then NewTitle(p.message) else before.title)]
      && db.writes == old(db.writes) + (if retitled then [UpdateTitle(p.chatId, NewTitle(p.message))] else [])
  {
    if conversations.entries[p.chatId].title == "New Chat" {
      var newTitle := NewTitle(p.message);
      conversations.SetTitle(p.chatId, newTitle);
      db.Write(UpdateTitle(p.chatId, newTitle));
    } else {
      assert conversations.entries == conversations.entries[p.chatId := conversations.entries[p.chatId]];
    }
  }

  /** `memory.add_message({"role": "ai", "content": response_text})` on the memory the registry
      holds for the chat: only that memory grows, so the registry stays well formed. */
  method AppendReply(conversations: Conversations, p: Pending, response: string)
    requires conversations.Valid()
    requires p.chatId in conversations.entries && conversations.entries[p.chatId].memory == p.memory
    modifies p.memory
    ensures conversations.Valid()
    ensures p.memory.messages == old(p.memory.messages) + [MessageDict("ai", response)]
  {
    var accepted := p.memory.AddMessage(Dict(MessageDict("ai", response)));
    forall id | id in conversations.entries ensures conversations.entries[id].memory.Valid() {
      if id != p.chatId {
        assert conversations.entries[id].memory != p.memory;
      }
    }
  }

  /** `save_message` for the user's message and the response, then `save_conversations`
      for the whole memory. */
  method SaveExchange(chatId: string, message: string, response: string, memory: ChatMessageHistory, db: Database)
    modifies db
    ensures db.writes == old(db.writes) + ExchangeSaves(chatId, message, response, memory.messages)
  {
    db.Write(SaveMessage(chatId, "user", message));
    db.Write(SaveMessage(chatId, "ai", response));
    SaveConversations(chatId, memory, db);
  }

  /** Lines 62-71 of the generator: only a response that is not blank is added to the
      memory as the ai message and saved, the exchange first and then the whole memory. */
  method StoreResponse(conversations: Conversations, db: Database, p: Pending, response: string)
    requires conversations.Valid()
    requires p.chatId in conversations.entries && conversations.entries[p.chatId].memory == p.memory
    modifies db, p.memory
    ensures conversations.Valid()
    ensures p.memory.messages
         == if PyBlank(response) then old(p.memory.messages) else old(p.memory.messages) + [MessageDict("ai", response)]
    ensures db.writes
         == old(db.writes) + (if PyBlank(response) then [] else ExchangeSaves(p.chatId, p.message, response, p.memory.messages))
  {
    if !PyBlank(response) {
      AppendReply(conversations, p, response);
      SaveExchange(p.chatId, p.message, response, p.memory, db);
    }
  }

  /** `{"chat_id": …, "title": …}`. */
  datatype ChatSummary = ChatSummary(chatId: string, title: string)

  /** `get_chats`: one summary per registry entry, in the registry's key order, so every
      chat appears exactly once. */
  method GetChats(conversations: Conversations) returns (summaries: seq<ChatSummary>)
    requires conversations.Valid()
    ensures |summaries| == |conversations.order|
    ensures forall i | 0 <= i < |summaries| ::
      && summaries[i].chatId == conversations.order[i]
      && summaries[i].title == conversations.entries[conversations.order[i]].title
    ensures forall id :: id in conversations.entries <==> exists i | 0 <= i < |summaries| :: summaries[i].chatId == id
    ensures forall i, j | 0 <= i < j < |summaries| :: summaries[i].chatId != summaries[j].chatId
  {
    summaries := [];
    var i := 0;
    while i < |conversations.order|
      invariant 0 <= i <= |conversations.order| && |summaries| == i
      invariant forall k | 0 <= k < i ::
        && summaries[k].chatId == conversations.order[k]
        && summaries[k].title == conversations.entries[conversations.order[k]].title
    {
      var id := conversations.order[i];
      summaries := summaries + [ChatSummary(id, conversations.entries[id].title)];
      i := i + 1;
    }
    forall id | id in conversations.entries
      ensures exists i | 0 <= i < |summaries| :: summaries[i].chatId == id
    {
      var i :| 0 <= i < |conversations.order| && conversations.order[i] == id;
      assert summaries[i].chatId == id;
    }
  }

  datatype HistoryOutcome = History(chatId: string, messages: seq<StoredMessage>) | Failed(error: HttpError)

  /** `get_chat_history` as written: an unknown id is a 404; for a chat with messages the
      loop reads `message.role` on a dict, the `AttributeError` is not caught and the
      client gets a 500; only a chat without messages is answered. */
  method GetChatHistoryAsWritten(conversations: Conversations, chatId: string) returns (r: HistoryOutcome)
    requires conversations.Valid()
    ensures chatId !in conversations.entries ==> r == Failed(ChatIdNotFound)
    ensures chatId in conversations.entries ==>
      r == if conversations.entries[chatId].memory.messages == [] then History(chatId, [])
           else Failed(InternalServerError)
  {
    if chatId !in conversations.entries {
      return Failed(ChatIdNotFound);
    }
    var memory := conversations.entries[chatId].memory;
    if memory.messages != [] {
      return Failed(InternalServerError);
    }
    r := History(chatId, []);
  }

  /** `get_chat_history` reading the keys the store writes: an unknown id is a 404;
      otherwise every stored message is returned with its role and content, in order. */
  method GetChatHistory(conversations: Conversations, chatId: string) returns (r: HistoryOutcome)
    requires conversations.Valid()
    ensures chatId !in conversations.entries <==> r == Failed(ChatIdNotFound)
    ensures chatId in conversations.entries ==>
      && r.History? && r.chatId == chatId
      && var stored := conversations.entries[chatId].memory.messages;
         && |r.messages| == |stored|
         && forall i | 0 <= i < |stored| :: r.messages[i] == StoredMessage(Role(stored[i]), Content(stored[i]))
  {
    if chatId !in conversations.entries {
      return Failed(ChatIdNotFound);
    }
    var stored := conversations.entries[chatId].memory.messages;
    var out: seq<StoredMessage> := [];
    var i := 0;
    while i < |stored|
      invariant 0 <= i <= |stored| && |out| == i
      invariant forall k | 0 <= k < i :: out[k] == StoredMessage(Role(stored[k]), Content(stored[k]))
    {
      out := out + [StoredMessage(Role(stored[i]), Content(stored[i]))];
      i := i + 1;
    }
    r := History(chatId, out);
  }

  /** A chat loaded at start-up answers, with the corrected reading, exactly the
      messages fetched for it: roles and contents survive the trip through the dicts. */
  lemma LoadedHistoryRoundTrip(messages: seq<StoredMessage>)
    ensures var dicts := MessageDicts(messages);
      forall i | 0 <= i < |dicts| :: StoredMessage(Role(dicts[i]), Content(dicts[i])) == messages[i]
  {
  }
}
