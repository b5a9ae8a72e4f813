/** The browser's `localStorage`, reduced to the two keys the client uses.
    Each entry holds the already-parsed value; `None` is a key that was never
    written. JSON encoding and corrupt payloads are not part of this model. */
module Storage {
  import opened Types

  class LocalStorage {
    /** Key `chatHistory`: the flat log of user messages the sidebar lists. */
    var chatHistory: Option<seq<Message>>
    /** Key `chats`: conversations keyed by their `Chat n - date` label. */
    var chats: Option<map<string, seq<Message>>>

    constructor (chatHistory: Option<seq<Message>>, chats: Option<map<string, seq<Message>>>)
      ensures this.chatHistory == chatHistory && this.chats == chats
    {
      this.chatHistory := chatHistory;
      this.chats := chats;
    }
  }
}
