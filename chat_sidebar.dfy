/** The chat list with in-place renaming, as both clients' sidebars keep it
    (frontend/src/components/ChatSidebar.tsx and chatfrontend/src/components/ChatSidebar.tsx
    hold the same state and the same handlers). */
module ChatSidebar {
  import opened Text
  import opened ChatLog

  /** The rename call one Enter press issued, with the title it captured. */
  datatype RenameRequest = RenameRequest(chatId: string, title: string)

  /** `prev.map((chat) => chat.chat_id === chatId ? { ...chat, title } : chat)`. */
  function Renamed(chats: seq<Chat>, chatId: string, title: string): (r: seq<Chat>)
    ensures |r| == |chats|
    ensures forall i | 0 <= i < |r| :: r[i].chatId == chats[i].chatId
    ensures forall i | 0 <= i < |r| ::
      r[i].title == if chats[i].chatId == chatId then title else chats[i].title
    decreases |chats|
  {
    if chats == [] then []
    else
      var head := if chats[0].chatId == chatId then chats[0].(title := title) else chats[0];
      [head] + Renamed(chats[1..], chatId, title)
  }

  /** Renaming to the same title twice is the same as renaming once. */
  lemma RenameIdempotent(chats: seq<Chat>, chatId: string, title: string)
    ensures Renamed(Renamed(chats, chatId, title), chatId, title) == Renamed(chats, chatId, title)
  {
    var once := Renamed(chats, chatId, title);
    var twice := Renamed(once, chatId, title);
    assert |twice| == |once|;
    forall i | 0 <= i < |once| ensures twice[i] == once[i] {}
  }

  /** An id no entry has leaves the list as it is. */
  lemma RenameAbsent(chats: seq<Chat>, chatId: string, title: string)
    requires forall i | 0 <= i < |chats| :: chats[i].chatId != chatId
    ensures Renamed(chats, chatId, title) == chats
  {
    var r := Renamed(chats, chatId, title);
    assert |r| == |chats|;
    forall i | 0 <= i < |r| ensures r[i] == chats[i] {}
  }

  /** Renames of two different chats commute. */
  lemma RenamesCommute(chats: seq<Chat>, a: string, ta: string, b: string, tb: string)
    requires a != b
    ensures Renamed(Renamed(chats, a, ta), b, tb) == Renamed(Renamed(chats, b, tb), a, ta)
  {
    var x := Renamed(Renamed(chats, a, ta), b, tb);
    var y := Renamed(Renamed(chats, b, tb), a, ta);
    assert |x| == |y|;
    forall i | 0 <= i < |x| ensures x[i] == y[i] {}
  }

  /** `chat.title || "Untitled Chat"`. */
  function DisplayTitle(title: string): (r: string)
    ensures r != ""
    ensures title != "" ==> r == title
  {
    if title == "" then "Untitled Chat" else title
  }

  /** After a rename with a title that passed the blank check, the renamed entries show
      that title and not the fallback. */
  lemma RenamedShowsTitle(chats: seq<Chat>, chatId: string, title: string, i: nat)
    requires !AllJsSpace(title) && i < |chats| && chats[i].chatId == chatId
    ensures DisplayTitle(Renamed(chats, chatId, title)[i].title) == title
  {
  }

  class Sidebar {
    var sidebarChats: seq<Chat>
    var editingChatId: Option<string>
    var newTitle: string

    /** The first render, seeded from the `chats` prop. */
    constructor (chats: seq<Chat>)
      ensures sidebarChats == chats && editingChatId == None && newTitle == ""
    {
      sidebarChats := chats;
      editingChatId := None;
      newTitle := "";
    }

    /** The effect that runs whenever the `chats` prop changes: the local list is
        replaced by it, discarding local renames. */
    method SyncChats(chats: seq<Chat>)
      modifies this`sidebarChats
      ensures sidebarChats == chats
    {
      sidebarChats := chats;
    }

    /** Whether the row of `chatId` shows the title input instead of the title. */
    function IsEditing(chatId: string): (r: bool)
      reads this
      ensures r <==> editingChatId.Some? && editingChatId.value == chatId
    {
      editingChatId == Some(chatId)
    }

    /** "Rename Chat" on a row: that row is edited, seeded with its title. */
    method StartEdit(chat: Chat)
      modifies this`editingChatId, this`newTitle
      ensures editingChatId == Some(chat.chatId) && newTitle == chat.title
      ensures IsEditing(chat.chatId)
    {
      editingChatId := Some(chat.chatId);
      newTitle := chat.title;
    }

    /** The title input's `onChange`. */
    method EditTitle(text: string)
      modifies this`newTitle
      ensures newTitle == text
    {
      newTitle := text;
    }

    /** Escape: editing stops; the typed title and the list are kept. */
    method CancelEdit()
      modifies this`editingChatId
      ensures editingChatId == None
      ensures forall id :: !IsEditing(id)
    {
      editingChatId := None;
    }

    /** Enter, up to the await: a blank typed title changes nothing and issues no call;
        otherwise the rename call goes out with the title as typed. */
    method BeginRename(chatId: string) returns (req: Option<RenameRequest>)
      ensures AllJsSpace(newTitle) <==> req == None
      ensures req.Some? ==> req.value == RenameRequest(chatId, newTitle)
    {
      if Trim(newTitle) == "" {
        return None;
      }
      req := Some(RenameRequest(chatId, newTitle));
    }

    /** The rename call settled. On success the entries with that id take the captured
        title and editing ends with an empty input; on failure nothing changes. */
    method FinishRename(req: RenameRequest, succeeded: bool)
      modifies this`sidebarChats, this`editingChatId, this`newTitle
      ensures !succeeded ==> unchanged(this)
      ensures succeeded ==>
        && sidebarChats == Renamed(old(sidebarChats), req.chatId, req.title)
        && editingChatId == None && newTitle == ""
    {
      if succeeded {
        sidebarChats := Renamed(sidebarChats, req.chatId, req.title);
        editingChatId := None;
        newTitle := "";
      }
    }

    /** `handleRenameChat` with nothing else running during its await. */
    method RenameChat(chatId: string, succeeded: bool)
      modifies this`sidebarChats, this`editingChatId, this`newTitle
      ensures AllJsSpace(old(newTitle)) || !succeeded ==> unchanged(this)
      ensures !AllJsSpace(old(newTitle)) && succeeded ==>
        && sidebarChats == Renamed(old(sidebarChats), chatId, old(newTitle))
        && editingChatId == None && newTitle == ""
    {
      var req := BeginRename(chatId);
      if req.Some? {
        FinishRename(req.value, succeeded);
      }
    }
  }
}
