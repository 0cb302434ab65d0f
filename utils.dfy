/** The backend's conversation store (backend/app/utils.py): the in-memory message
    history of one chat, the registry of chats (`conversations`, a dict from chat id to
    its memory and title, in insertion order), the database writes the store issues,
    and the two ways the registry is filled: one new chat at a time, or rebuilt from
    the rows the database returns at start-up. */
module Utils {
  import opened Text

  /** A Python dict with string keys and string values, as messages are stored. */
  type PyDict = map<string, string>

  /** What `add_message` may be handed: a dict, or any value that is not one. */
  datatype PyValue = Dict(entries: PyDict) | NotDict

  /** LangChain's message classes that `to_base_messages` produces. */
  datatype BaseMessage = HumanMessage(content: string) | AIMessage(content: string)

  /** A value, or the text of the `ValueError` raised instead. */
  datatype Result<T> = Ok(value: T) | ValueError(reason: string)

  /** A message as the store keeps it: a dict with both a role and a content. */
  predicate IsMessage(m: PyDict) {
    "role" in m && "content" in m
  }

  /** `m["role"]` and `m["content"]` of a stored message (both keys are present
      in every message the store keeps). */
  function Role(m: PyDict): string {
    if "role" in m then m["role"] else ""
  }

  function Content(m: PyDict): string {
    if "content" in m then m["content"] else ""
  }

  /** `{"role": role, "content": content}`. */
  function MessageDict(role: string, content: string): (m: PyDict)
    ensures IsMessage(m) && Role(m) == role && Content(m) == content
  {
    map["role" := role, "content" := content]
  }

  predicate SupportedRole(role: string) {
    role == "user" || role == "ai"
  }

  /** One step of `to_base_messages`: user becomes a human message, ai an AI message,
      each with the same content; any other role is refused. */
  function ToBaseMessage(m: PyDict): (r: Result<BaseMessage>)
    ensures r.Ok? <==> SupportedRole(Role(m))
    ensures r.Ok? ==> r.value.content == Content(m)
    ensures r.Ok? ==> (r.value.HumanMessage? <==> Role(m) == "user")
    ensures r.ValueError? ==> r.reason == "Unsupported message role: " + Role(m)
  {
    if Role(m) == "user" then Ok(HumanMessage(Content(m)))
    else if Role(m) == "ai" then Ok(AIMessage(Content(m)))
    else ValueError("Unsupported message role: " + Role(m))
  }

  /** `i` is the first message whose role `to_base_messages` refuses. */
  predicate FirstUnsupported(messages: seq<PyDict>, i: nat) {
    i < |messages| && !SupportedRole(Role(messages[i]))
    && forall k | 0 <= k < i :: SupportedRole(Role(messages[k]))
  }

  /** `ChatMessageHistory`: a list of message dicts appended in place. */
  class ChatMessageHistory {
    var messages: seq<PyDict>

    /** Every stored message passed the check `add_message` makes. */
    ghost predicate Valid()
      reads this
    {
      forall i | 0 <= i < |messages| :: IsMessage(messages[i])
    }

    constructor ()
      ensures Valid() && messages == []
    {
      messages := [];
    }

    /** `add_message`: anything but a dict with both `role` and `content` is refused
        (the `ValueError`) and the history is left as it was; an accepted message is
        appended after all earlier ones. */
    method AddMessage(message: PyValue) returns (accepted: bool)
      requires Valid()
      modifies this
      ensures Valid()
      ensures accepted <==> message.Dict? && IsMessage(message.entries)
      ensures messages == if accepted then old(messages) + [message.entries] else old(messages)
    {
      if !message.Dict? || "role" !in message.entries || "content" !in message.entries {
        return false;
      }
      messages := messages + [message.entries];
      accepted := true;
    }

    /** `to_base_messages`: one base message per stored message, in order, or the
        `ValueError` for the first one whose role is neither user nor ai. */
    method ToBaseMessages() returns (r: Result<seq<BaseMessage>>)
      requires Valid()
      ensures r.Ok? <==> forall i | 0 <= i < |messages| :: SupportedRole(Role(messages[i]))
      ensures r.Ok? ==> |r.value| == |messages|
      ensures r.Ok? ==> forall i | 0 <= i < |messages| :: Ok(r.value[i]) == ToBaseMessage(messages[i])
      ensures r.ValueError? ==>
        exists i: nat :: FirstUnsupported(messages, i) && r.reason == "Unsupported message role: " + Role(messages[i])
    {
      var out: seq<BaseMessage> := [];
      var i := 0;
      while i < |messages|
        invariant 0 <= i <= |messages| && |out| == i
        invariant forall k | 0 <= k < i :: SupportedRole(Role(messages[k]))
        invariant forall k | 0 <= k < i :: Ok(out[k]) == ToBaseMessage(messages[k])
      {
        var converted := ToBaseMessage(messages[i]);
        if converted.ValueError? {
          assert FirstUnsupported(messages, i);
          return ValueError(converted.reason);
        }
        out := out + [converted.value];
        i := i + 1;
      }
      r := Ok(out);
    }
  }

  /** The rows the store writes through `create_chat`, the title update and
      `save_message`. */
  datatype DbWrite =
    | CreateChat(chatId: string, title: string)
    | UpdateTitle(chatId: string, title: string)
    | SaveMessage(chatId: string, role: string, content: string)

  /** The database, seen only as the sequence of writes it has received. */
  class Database {
    var writes: seq<DbWrite>

    constructor ()
      ensures writes == []
    {
      writes := [];
    }

    method Write(w: DbWrite)
      modifies this
      ensures writes == old(writes) + [w]
    {
      writes := writes + [w];
    }
  }

  /** The writes `save_conversations` issues: one `save_message` per stored message,
      in order. */
  function SavesOf(chatId: string, messages: seq<PyDict>): (r: seq<DbWrite>)
    ensures |r| == |messages|
    ensures forall i | 0 <= i < |r| :: r[i] == SaveMessage(chatId, Role(messages[i]), Content(messages[i]))
  {
    if messages == [] then []
    else
      var n := |messages| - 1;
      SavesOf(chatId, messages[..n]) + [SaveMessage(chatId, Role(messages[n]), Content(messages[n]))]
  }

  /** `save_conversations`: the memory's messages are written out in order. */
  method SaveConversations(chatId: string, memory: ChatMessageHistory, db: Database)
    modifies db
    ensures db.writes == old(db.writes) + SavesOf(chatId, memory.messages)
  {
    var i := 0;
    while i < |memory.messages|
      invariant 0 <= i <= |memory.messages|
      invariant db.writes == old(db.writes) + SavesOf(chatId, memory.messages[..i])
    {
      var m := memory.messages[i];
      assert memory.messages[..i + 1][..i] == memory.messages[..i];
      db.Write(SaveMessage(chatId, Role(m), Content(m)));
      i := i + 1;
    }
    assert memory.messages[..i] == memory.messages;
  }

  /** One registry value: `{"conversation": …, "memory": memory, "title": title}`; the
      runnable conversation object is not modelled. */
  datatype Entry = Entry(memory: ChatMessageHistory, title: string)

  /** The shape of the registry: `order` lists each key of `entries` exactly once,
      and no two chats share a memory object. */
  ghost predicate WellFormed(order: seq<string>, entries: map<string, Entry>) {
    && (forall id :: id in entries <==> id in order)
    && (forall i, j | 0 <= i < j < |order| :: order[i] != order[j])
    && (forall a, b | a in entries && b in entries && a != b :: entries[a].memory != entries[b].memory)
  }

  /** The dict assignment keeps the shape, given a memory no other chat holds: a new
      key goes to the end of the order, an existing one keeps its place. */
  lemma InsertKeepsShape(order: seq<string>, entries: map<string, Entry>, chatId: string, entry: Entry)
    requires WellFormed(order, entries)
    requires forall id | id in entries && id != chatId :: entries[id].memory != entry.memory
    ensures WellFormed(if chatId in entries then order else order + [chatId], entries[chatId := entry])
  {
    var order' := if chatId in entries then order else order + [chatId];
    assert forall id :: id in order' <==> id in order || id == chatId;
    forall i, j | 0 <= i < j < |order'| ensures order'[i] != order'[j] {
      if j == |order| {
        assert order'[i] == order[i];
      }
    }
  }

  /** What a registry entry holds at one moment: its title and its memory's messages. */
  datatype ChatState = ChatState(title: string, messages: seq<PyDict>)

  /** The `conversations` dict. `order` is its key order: Python dicts iterate in
      insertion order, and assigning to an existing key keeps its place. */
  class Conversations {
    var order: seq<string>
    var entries: map<string, Entry>

    ghost function Memories(): set<ChatMessageHistory>
      reads this
    {
      set id | id in entries :: entries[id].memory
    }

    /** The key order lists each key exactly once, no two chats share a memory object,
        and every memory holds only checked messages. */
    ghost predicate Valid()
      reads this, Memories()
    {
      && WellFormed(order, entries)
      && (forall id | id in entries :: entries[id].memory.Valid())
    }

    /** What the chat `id` holds now: its title and its memory's messages. */
    ghost function StateOf(id: string): ChatState
      requires id in entries
      reads this, entries[id].memory
    {
      ChatState(entries[id].title, entries[id].memory.messages)
    }

    constructor ()
      ensures Valid() && order == [] && entries == map[]
    {
      order := [];
      entries := map[];
    }

    /** `conversations[chat_id] = entry`, for a memory no other chat holds. */
    method Insert(chatId: string, entry: Entry)
      requires Valid() && entry.memory.Valid()
      requires forall id | id in entries && id != chatId :: entries[id].memory != entry.memory
      modifies this
      ensures Valid()
      ensures entries == old(entries)[chatId := entry]
      ensures order == if chatId in old(entries) then old(order) else old(order) + [chatId]
    {
      if chatId !in entries {
        order := order + [chatId];
      }
      InsertKeepsShape(old(order), old(entries), chatId, entry);
      entries := entries[chatId := entry];
    }

    /** `conversations[chat_id]["title"] = title` on an existing entry. */
    method SetTitle(chatId: string, title: string)
      requires Valid() && chatId in entries
      modifies this
      ensures Valid()
      ensures entries == old(entries)[chatId := old(entries)[chatId].(title := title)]
      ensures order == old(order)
    {
      var entry := entries[chatId].(title := title);
      InsertKeepsShape(order, entries, chatId, entry);
      entries := entries[chatId := entry];
    }
  }

  /** `create_new_conversation`, with `freshId` for the generated UUID: the registry maps
      it to a new empty memory titled "New Chat", the chat row is created, and the id is
      returned. */
  method CreateNewConversation(conversations: Conversations, db: Database, freshId: string)
    returns (chatId: string)
    requires conversations.Valid()
    modifies conversations, db
    ensures conversations.Valid()
    ensures chatId == freshId
    ensures conversations.entries.Keys == old(conversations.entries).Keys + {chatId}
    ensures fresh(conversations.entries[chatId].memory)
    ensures conversations.StateOf(chatId) == ChatState("New Chat", [])
    ensures forall id | id in old(conversations.entries) && id != chatId ::
      conversations.entries[id] == old(conversations.entries)[id]
    ensures conversations.order
         == if chatId in old(conversations.entries) then old(conversations.order) else old(conversations.order) + [chatId]
    ensures db.writes == old(db.writes) + [CreateChat(chatId, "New Chat")]
  {
    chatId := freshId;
    var memory := new ChatMessageHistory();
    conversations.Insert(chatId, Entry(memory, "New Chat"));
    db.Write(CreateChat(chatId, "New Chat"));
  }

  /** A message row as `fetch_chat_messages` returns it. */
  datatype StoredMessage = StoredMessage(role: string, content: string)

  /** A chat row from `fetch_all_chats`, with the messages fetched for it. */
  datatype FetchedChat = FetchedChat(chatId: string, title: string, messages: seq<StoredMessage>)

  /** The dicts a fetched chat's memory is filled with, in fetched order. */
  function MessageDicts(messages: seq<StoredMessage>): (r: seq<PyDict>)
    ensures |r| == |messages|
    ensures forall i | 0 <= i < |r| :: r[i] == MessageDict(messages[i].role, messages[i].content)
  {
    if messages == [] then []
    else
      var n := |messages| - 1;
      MessageDicts(messages[..n]) + [MessageDict(messages[n].role, messages[n].content)]
  }

  /** The key order of the registry rebuilt from `rows`. */
  function LoadedOrder(rows: seq<FetchedChat>): seq<string>
  {
    if rows == [] then []
    else
      var before := LoadedOrder(rows[..|rows| - 1]);
      var id := rows[|rows| - 1].chatId;
      if id in before then before else before + [id]
  }

  /** The contents of the registry rebuilt from `rows`: the last row with an id decides
      its title and messages. */
  function Loaded(rows: seq<FetchedChat>): map<string, ChatState>
  {
    if rows == [] then map[]
    else
      var row := rows[|rows| - 1];
      Loaded(rows[..|rows| - 1])[row.chatId := ChatState(row.title, MessageDicts(row.messages))]
  }

  /** The keys of the rebuilt registry are the fetched ids, each listed once. */
  lemma {:induction false} LoadedKeys(rows: seq<FetchedChat>)
    ensures forall id :: id in Loaded(rows) <==> id in LoadedOrder(rows)
    ensures forall i, j | 0 <= i < j < |LoadedOrder(rows)| :: LoadedOrder(rows)[i] != LoadedOrder(rows)[j]
    decreases |rows|
  {
    if rows != [] {
      LoadedKeys(rows[..|rows| - 1]);
    }
  }

  /** With the distinct ids the chat table holds, the rebuilt registry lists them in
      fetched order. */
  lemma {:induction false} LoadedOrderOfDistinct(rows: seq<FetchedChat>)
    requires forall i, j | 0 <= i < j < |rows| :: rows[i].chatId != rows[j].chatId
    ensures |LoadedOrder(rows)| == |rows|
    ensures forall i | 0 <= i < |rows| :: LoadedOrder(rows)[i] == rows[i].chatId
    decreases |rows|
  {
    if rows != [] {
      var init := rows[..|rows| - 1];
      LoadedOrderOfDistinct(init);
      var last := rows[|rows| - 1];
      assert last.chatId !in LoadedOrder(init) by {
        forall i | 0 <= i < |init| ensures LoadedOrder(init)[i] != last.chatId {
          assert init[i] == rows[i];
        }
      }
    }
  }

  /** With distinct ids every fetched chat keeps its own row's title and messages. */
  lemma {:induction false} LoadedStateOfDistinct(rows: seq<FetchedChat>, i: nat)
    requires forall i, j | 0 <= i < j < |rows| :: rows[i].chatId != rows[j].chatId
    requires i < |rows|
    ensures rows[i].chatId in Loaded(rows)
    ensures Loaded(rows)[rows[i].chatId] == ChatState(rows[i].title, MessageDicts(rows[i].messages))
    decreases |rows|
  {
    if i < |rows| - 1 {
      var init := rows[..|rows| - 1];
      assert init[i] == rows[i];
      LoadedStateOfDistinct(init, i);
    }
  }

  /** One more row: the assignment it makes to the rebuilt registry. */
  lemma LoadedStep(rows: seq<FetchedChat>, n: nat)
    requires n < |rows|
    ensures Loaded(rows[..n + 1])
         == Loaded(rows[..n])[rows[n].chatId := ChatState(rows[n].title, MessageDicts(rows[n].messages))]
    ensures LoadedOrder(rows[..n + 1])
         == if rows[n].chatId in LoadedOrder(rows[..n]) then LoadedOrder(rows[..n])
            else LoadedOrder(rows[..n]) + [rows[n].chatId]
  {
    assert rows[..n + 1][..n] == rows[..n];
  }

  /** The registry holds exactly what rebuilding from `rows` gives: the same key order,
      the same keys, and for each key the rebuilt title and messages. */
  ghost predicate Rebuilt(conversations: Conversations, rows: seq<FetchedChat>)
    reads conversations, conversations.Memories()
  {
    && conversations.order == LoadedOrder(rows)
    && conversations.entries.Keys == Loaded(rows).Keys
    && forall id | id in conversations.entries :: conversations.StateOf(id) == Loaded(rows)[id]
  }

  /** `load_conversations`, with `rows` for what the database returns: the registry is
      rebuilt row by row, each chat getting a new memory holding its fetched messages
      in order, together with its stored title. */
  method LoadConversations(rows: seq<FetchedChat>) returns (conversations: Conversations)
    ensures fresh(conversations) && conversations.Valid()
    ensures conversations.order == LoadedOrder(rows)
    ensures conversations.entries.Keys == Loaded(rows).Keys
    ensures forall id | id in conversations.entries :: conversations.StateOf(id) == Loaded(rows)[id]
  {
    conversations := new Conversations();
    var n := 0;
    while n < |rows|
      invariant 0 <= n <= |rows|
      invariant fresh(conversations) && conversations.Valid() && Rebuilt(conversations, rows[..n])
    {
      LoadRow(conversations, rows, n);
      n := n + 1;
    }
    assert rows[..n] == rows;
  }

  /** One pass of the outer loop: a new memory filled with the messages of `rows[n]` is
      registered under its id with its title, which is rebuilding one row further. */
  method LoadRow(conversations: Conversations, rows: seq<FetchedChat>, n: nat)
    requires n < |rows| && conversations.Valid() && Rebuilt(conversations, rows[..n])
    modifies conversations
    ensures conversations.Valid() && Rebuilt(conversations, rows[..n + 1])
  {
    var row := rows[n];
    LoadedStep(rows, n);
    ghost var loaded := Loaded(rows[..n]);
    ghost var before := conversations.entries;
    var memory := FilledMemory(row.messages);
    conversations.Insert(row.chatId, Entry(memory, row.title));
    forall id | id in conversations.entries
      ensures conversations.StateOf(id) == Loaded(rows[..n + 1])[id]
    {
      if id != row.chatId {
        assert conversations.entries[id] == before[id];
        assert Loaded(rows[..n + 1])[id] == loaded[id];
      }
    }
  }

  /** The inner loop of `load_conversations`: a new memory, each fetched message added
      as `{"role", "content"}` (every one passes the check), in fetched order. */
  method FilledMemory(messages: seq<StoredMessage>) returns (memory: ChatMessageHistory)
    ensures fresh(memory) && memory.Valid()
    ensures memory.messages == MessageDicts(messages)
  {
    memory := new ChatMessageHistory();
    var i := 0;
    while i < |messages|
      invariant 0 <= i <= |messages|
      invariant memory.Valid() && memory.messages == MessageDicts(messages[..i])
    {
      assert messages[..i + 1][..i] == messages[..i];
      var accepted := memory.AddMessage(Dict(MessageDict(messages[i].role, messages[i].content)));
      i := i + 1;
    }
    assert messages[..i] == messages;
  }
}
