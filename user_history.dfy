/** The history sidebar `UserHistory`: the list it shows is read from the
    `chatHistory` storage entry whenever the `prompt` prop changes, entries
    are removed by id and the list is written back, and a local visibility
    flag is toggled and passed up to the parent. */
module History {
  import opened Types
  import opened Text
  import opened Storage
  import ChatActions

  /** `chats.filter((chat) => chat.id !== chatId)`. */
  function RemoveById(entries: seq<Message>, id: int): (r: seq<Message>)
    ensures |r| <= |entries|
    ensures forall e :: e in r <==> e in entries && e.id != id
  {
    if entries == [] then []
    else
      var rest := RemoveById(entries[1..], id);
      if entries[0].id == id then rest else [entries[0]] + rest
  }

  /** `a` is `b` with some entries left out and the rest in their order. */
  predicate IsSubsequence(a: seq<Message>, b: seq<Message>)
    decreases |b|
  {
    if a == [] then true
    else if b == [] then false
    else if a[0] == b[0] then IsSubsequence(a[1..], b[1..])
    else IsSubsequence(a, b[1..])
  }

  /** The kept entries stay in their original relative order. */
  lemma {:induction false} RemoveByIdKeepsOrder(entries: seq<Message>, id: int)
    ensures IsSubsequence(RemoveById(entries, id), entries)
  {
    if entries != [] {
      RemoveByIdKeepsOrder(entries[1..], id);
      var rest := RemoveById(entries[1..], id);
      if entries[0].id == id {
        SubsequenceOfTail(rest, entries);
      } else {
        assert ([entries[0]] + rest)[1..] == rest;
      }
    }
  }

  lemma {:induction false} SubsequenceOfTail(a: seq<Message>, b: seq<Message>)
    requires b != [] && IsSubsequence(a, b[1..])
    ensures IsSubsequence(a, b)
    decreases |b|, 0
  {
    if a != [] && a[0] == b[0] {
      SubsequenceDropHead(a, b[1..]);
    }
  }

  lemma {:induction false} SubsequenceDropHead(a: seq<Message>, b: seq<Message>)
    requires a != [] && IsSubsequence(a, b)
    ensures IsSubsequence(a[1..], b)
    decreases |b|, 1
  {
    if a[0] != b[0] {
      SubsequenceDropHead(a, b[1..]);
    }
    if a[1..] != [] {
      SubsequenceOfTail(a[1..], b);
    }
  }

  /** Removing an id that no entry carries changes nothing. */
  lemma {:induction false} RemoveAbsentId(entries: seq<Message>, id: int)
    requires forall i :: 0 <= i < |entries| ==> entries[i].id != id
    ensures RemoveById(entries, id) == entries
  {
    if entries != [] {
      RemoveAbsentId(entries[1..], id);
    }
  }

  /** Removing the same id twice is the same as removing it once. */
  lemma RemoveByIdIdempotent(entries: seq<Message>, id: int)
    ensures RemoveById(RemoveById(entries, id), id) == RemoveById(entries, id)
  {
    var r := RemoveById(entries, id);
    forall i | 0 <= i < |r| ensures r[i].id != id {
      assert r[i] in r;
    }
    RemoveAbsentId(r, id);
  }

  /** Removal works entry by entry: on a concatenation it acts on each part. */
  lemma {:induction false} RemoveByIdConcat(a: seq<Message>, b: seq<Message>, id: int)
    ensures RemoveById(a + b, id) == RemoveById(a, id) + RemoveById(b, id)
  {
    if a == [] {
      assert a + b == b;
    } else {
      assert (a + b)[1..] == a[1..] + b;
      RemoveByIdConcat(a[1..], b, id);
    }
  }

  /** `chat.content.slice(0, 20) || 'No title'`. */
  function Title(content: string): (r: string)
    ensures content == [] ==> r == "No title"
    ensures content != [] ==> 0 < |r| <= 20 && |r| <= |content| && r == content[..|r|] && (|r| < 20 ==> r == content)
  {
    if content == [] then "No title"
    else if |content| <= 20 then content
    else content[..20]
  }

  class UserHistory {
    /** The entries shown (`chats`). */
    var chats: seq<Message>
    var isLocalHistoryVisible: bool
    /** The parent's visibility state, written through `setIsHistoryVisible`. */
    var parentVisible: bool
    const storage: LocalStorage

    /** Mounting: the list starts empty and visible, then both `prompt`
        effects run once. */
    constructor (storage: LocalStorage, parentVisible: bool)
      ensures this.storage == storage && this.parentVisible == parentVisible
      ensures chats == storage.chatHistory.GetOr([]) && isLocalHistoryVisible
    {
      this.storage := storage;
      this.parentVisible := parentVisible;
      chats := storage.chatHistory.GetOr([]);
      isLocalHistoryVisible := true;
    }

    /** The two effects on `prompt`: reload the list if the storage entry
        exists, and show the sidebar again. */
    method PromptChanged()
      modifies this
      ensures chats == if storage.chatHistory.Some? then storage.chatHistory.value else old(chats)
      ensures isLocalHistoryVisible && parentVisible == old(parentVisible)
    {
      if storage.chatHistory.Some? {
        chats := storage.chatHistory.value;
      }
      isLocalHistoryVisible := true;
    }

    /** `handleChatRemove`: drops every entry with the id and persists the list. */
    method HandleChatRemove(chatId: int)
      modifies this, storage
      ensures chats == RemoveById(old(chats), chatId)
      ensures storage.chatHistory == Some(chats) && storage.chats == old(storage.chats)
      ensures isLocalHistoryVisible == old(isLocalHistoryVisible) && parentVisible == old(parentVisible)
    {
      var updated := RemoveById(chats, chatId);
      chats := updated;
      storage.chatHistory := Some(updated);
    }

    /** `toggleHistoryMenu`: flips the local flag and hands the new value up. */
    method ToggleHistoryMenu()
      modifies this
      ensures isLocalHistoryVisible == !old(isLocalHistoryVisible)
      ensures parentVisible == isLocalHistoryVisible
      ensures chats == old(chats)
    {
      var newVisibility := !isLocalHistoryVisible;
      isLocalHistoryVisible := newVisibility;
      parentVisible := newVisibility;
    }
  }

  /** The sidebar and the chat-session hook share the `chatHistory` entry:
      a message the user sends is listed after the next prompt change, and
      removing it there takes it out of storage as well. */
  method SendListRemove(session: ChatActions.ChatInterfaceActions, sidebar: UserHistory,
                        text: string, now: int, time: string)
    returns (ghost shown: seq<Message>)
    requires sidebar.storage == session.storage && !Blank(text)
    modifies session, session.storage, sidebar
    ensures shown == old(session.storage.chatHistory).GetOr([]) + [Message(now, text, true, time)]
    ensures sidebar.chats == RemoveById(old(session.storage.chatHistory).GetOr([]), now)
    ensures session.storage.chatHistory == Some(sidebar.chats)
    ensures forall e :: e in sidebar.chats ==> e.id != now
  {
    session.SetUserInput(text);
    session.HandleSend(now, time);
    sidebar.PromptChanged();
    shown := sidebar.chats;
    sidebar.HandleChatRemove(now);
    RemoveByIdConcat(old(session.storage.chatHistory).GetOr([]), [Message(now, text, true, time)], now);
  }
}
