/** The chat-session hook `useChatInterfaceActions`: the message list, the
    input box, the message being edited, the stopping flag and the abort
    handle of the request in flight, plus the `chatHistory` log it appends
    to in local storage. The completion request is an event source: issuing
    it is recorded in `sent`, and its settling arrives later as `OnSuccess`
    or `OnError` (an aborted request settles through `OnError`). */
module ChatActions {
  import opened Types
  import opened Text
  import opened Storage

  /** The `AbortController` a request is started with. */
  class AbortController {
    var aborted: bool

    constructor ()
      ensures !aborted
    {
      aborted := false;
    }

    /** `abort()`: signals the request; it then settles as an error. */
    method Abort()
      modifies this
      ensures aborted
    {
      aborted := true;
    }
  }

  /** The list update of `handleSaveEdit`: every message whose id is `id`
      takes the new content and keeps its id, author flag and timestamp;
      all other messages stay as they were. */
  function ReplaceContent(ms: seq<Message>, id: int, content: string): (r: seq<Message>)
    ensures |r| == |ms|
    ensures forall i :: 0 <= i < |ms| ==>
      r[i].id == ms[i].id && r[i].isUser == ms[i].isUser && r[i].timestamp == ms[i].timestamp
    ensures forall i :: 0 <= i < |ms| ==>
      r[i].content == if ms[i].id == id then content else ms[i].content
  {
    if ms == [] then []
    else
      var rest := ReplaceContent(ms[1..], id, content);
      var head := if ms[0].id == id then ms[0].(content := content) else ms[0];
      assert forall i :: 0 < i < |ms| ==> ([head] + rest)[i] == rest[i - 1];
      [head] + rest
  }

  /** An edit of an id that no message carries leaves the list as it is. */
  lemma {:induction false} ReplaceContentAbsent(ms: seq<Message>, id: int, content: string)
    requires forall i :: 0 <= i < |ms| ==> ms[i].id != id
    ensures ReplaceContent(ms, id, content) == ms
  {
    if ms != [] {
      ReplaceContentAbsent(ms[1..], id, content);
    }
  }

  /** Editing the same message twice leaves only the second content. */
  lemma {:induction false} ReplaceContentLastWins(ms: seq<Message>, id: int, first: string, second: string)
    ensures ReplaceContent(ReplaceContent(ms, id, first), id, second) == ReplaceContent(ms, id, second)
  {
    if ms != [] {
      ReplaceContentLastWins(ms[1..], id, first, second);
    }
  }

  class ChatInterfaceActions {
    var messages: seq<Message>
    var userInput: string
    /** `editMode`: the id of the message being edited, if any. */
    var editMode: Option<int>
    var isStopping: bool
    /** `abortController.current`. */
    var abortController: AbortController?
    const storage: LocalStorage
    /** Every message handed to the completion endpoint, in order. */
    ghost var sent: seq<Message>

    constructor (storage: LocalStorage)
      ensures this.storage == storage
      ensures messages == [] && userInput == "" && editMode == None
      ensures !isStopping && abortController == null && sent == []
    {
      this.storage := storage;
      messages, userInput, editMode := [], "", None;
      isStopping, abortController := false, null;
      sent := [];
    }

    /** `setUserInput`: the user types in the input box. */
    method SetUserInput(text: string)
      modifies this
      ensures userInput == text
      ensures messages == old(messages) && editMode == old(editMode) && isStopping == old(isStopping)
      ensures abortController == old(abortController) && sent == old(sent)
    {
      userInput := text;
    }

    /** `mutationFn`: a fresh abort handle, then the request for `m`. */
    method Mutate(m: Message)
      modifies this
      ensures fresh(abortController) && !abortController.aborted
      ensures sent == old(sent) + [m]
      ensures messages == old(messages) && userInput == old(userInput)
      ensures editMode == old(editMode) && isStopping == old(isStopping)
    {
      abortController := new AbortController();
      sent := sent + [m];
    }

    /** `handleSend`: `now` and `time` are `Date.now()` and the locale time. */
    method HandleSend(now: int, time: string)
      modifies this, storage
      ensures Blank(old(userInput)) ==> unchanged(this) && unchanged(storage)
      ensures !Blank(old(userInput)) ==>
        var m := Message(now, old(userInput), true, time);
        && messages == old(messages) + [m]
        && storage.chatHistory == Some(old(storage.chatHistory).GetOr([]) + [m])
        && sent == old(sent) + [m]
        && fresh(abortController) && !abortController.aborted
        && userInput == ""
        && editMode == old(editMode) && isStopping == old(isStopping)
      ensures storage.chats == old(storage.chats)
    {
      if !Blank(userInput) {
        var m := Message(now, userInput, true, time);
        messages := messages + [m];
        var existing := storage.chatHistory.GetOr([]);
        storage.chatHistory := Some(existing + [m]);
        Mutate(m);
        userInput := "";
      }
    }

    /** `clearMessages`: empties the list; storage and edit state stay. */
    method ClearMessages()
      modifies this
      ensures messages == []
      ensures userInput == old(userInput) && editMode == old(editMode) && isStopping == old(isStopping)
      ensures abortController == old(abortController) && sent == old(sent)
    {
      messages := [];
    }

    /** `handleEdit`: loads the message into the input box and marks it as
        the edit target; the list itself is not touched. */
    method HandleEdit(messageId: int, content: string)
      modifies this
      ensures userInput == content && editMode == Some(messageId)
      ensures messages == old(messages) && isStopping == old(isStopping)
      ensures abortController == old(abortController) && sent == old(sent)
    {
      userInput := content;
      editMode := Some(messageId);
    }

    /** `handleSaveEdit`: with an edit target and a non-blank input, rewrites
        the target in place, sends the edited text as a new request and
        leaves edit mode; the history log is not written. */
    method HandleSaveEdit(time: string)
      modifies this
      ensures old(editMode).None? || Blank(old(userInput)) ==> unchanged(this)
      ensures old(editMode).Some? && !Blank(old(userInput)) ==>
        var id := old(editMode).value;
        && messages == ReplaceContent(old(messages), id, old(userInput))
        && sent == old(sent) + [Message(id, old(userInput), true, time)]
        && fresh(abortController) && !abortController.aborted
        && userInput == "" && editMode == None && isStopping == old(isStopping)
    {
      if editMode.Some? && !Blank(userInput) {
        var id := editMode.value;
        messages := ReplaceContent(messages, id, userInput);
        Mutate(Message(id, userInput, true, time));
        userInput := "";
        editMode := None;
      }
    }

    /** `handleStop`: aborts the request in flight, if there is a handle. */
    method HandleStop()
      modifies this, abortController
      ensures old(abortController) == null ==> unchanged(this)
      ensures old(abortController) != null ==>
        abortController == old(abortController) && abortController.aborted && isStopping
      ensures messages == old(messages) && userInput == old(userInput)
      ensures editMode == old(editMode) && sent == old(sent)
    {
      if abortController != null {
        abortController.Abort();
        isStopping := true;
      }
    }

    /** `onSuccess`: the reply arrived; it is appended as the assistant's
        message and the handle and stopping flag are cleared. */
    method OnSuccess(reply: string, now: int, time: string)
      modifies this
      ensures messages == old(messages) + [Message(now, reply, false, time)]
      ensures abortController == null && !isStopping
      ensures userInput == old(userInput) && editMode == old(editMode) && sent == old(sent)
    {
      messages := messages + [Message(now, reply, false, time)];
      abortController := null;
      isStopping := false;
    }

    /** `onError`, also reached by an aborted request: nothing is appended,
        the stopping flag drops and the old handle stays in place. */
    method OnError()
      modifies this
      ensures !isStopping
      ensures messages == old(messages) && abortController == old(abortController)
      ensures userInput == old(userInput) && editMode == old(editMode) && sent == old(sent)
    {
      isStopping := false;
    }
  }

  /** How a request ends. `Stopped` is `handleStop` pressed while it is in
      flight: the abort signal is handed to `fetch`, which then rejects, so
      the request settles through `onError` and no reply arrives. */
  datatype Outcome = Replied(reply: string) | Failed | Stopped

  /** One exchange typed by the user: it adds exactly two messages when the
      reply arrives and exactly one when the request fails or is stopped. */
  method Exchange(session: ChatInterfaceActions, text: string, outcome: Outcome,
                  now: int, time: string, replyNow: int, replyTime: string)
    requires !Blank(text)
    modifies session, session.storage
    ensures !session.isStopping
    ensures outcome.Replied? ==>
      session.messages == old(session.messages) + [Message(now, text, true, time), Message(replyNow, outcome.reply, false, replyTime)]
    ensures !outcome.Replied? ==> session.messages == old(session.messages) + [Message(now, text, true, time)]
    ensures outcome.Stopped? ==> session.abortController != null && session.abortController.aborted
    ensures session.storage.chatHistory ==
      Some(old(session.storage.chatHistory).GetOr([]) + [Message(now, text, true, time)])
  {
    session.SetUserInput(text);
    session.HandleSend(now, time);
    match outcome {
      case Replied(reply) =>
        session.OnSuccess(reply, replyNow, replyTime);
      case Failed =>
        session.OnError();
      case Stopped =>
        session.HandleStop();
        session.OnError();
    }
  }
}
