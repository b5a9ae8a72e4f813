/** The chat component `ChatInterface`: a conversation map persisted under
    the storage key `chats`, the active conversation, the visible message
    list, the input box and the "generating" flag. `handleSend` awaits the
    completion request; everything after its `await` runs later, when the
    request settles, so the model keeps each awaited request as a pending
    `Turn` and resolves it with `ReplyArrived` or `RequestFailed`. */
module ChatComponent {
  import opened Types
  import opened Text
  import opened Storage

  /** Decimal digit `d` as a character. */
  function Digit(d: nat): (c: char)
    requires d < 10
    ensures '0' <= c <= '9'
  {
    ('0' as int + d) as char
  }

  predicate IsDigits(s: string) {
    forall i :: 0 <= i < |s| ==> '0' <= s[i] <= '9'
  }

  /** `${n}` for a non-negative integer. */
  function NatToString(n: nat): (r: string)
    ensures r != [] && IsDigits(r)
  {
    if n < 10 then [Digit(n)] else NatToString(n / 10) + [Digit(n % 10)]
  }

  /** Reads a string of decimal digits back as a number. */
  function ParseNat(s: string): nat
    requires IsDigits(s)
  {
    if s == [] then 0 else 10 * ParseNat(s[..|s| - 1]) + (s[|s| - 1] as int - '0' as int)
  }

  /** Decimal rendering loses nothing: it can be read back. */
  lemma {:induction false} ParseNatToString(n: nat)
    ensures ParseNat(NatToString(n)) == n
  {
    var s := NatToString(n);
    if n >= 10 {
      ParseNatToString(n / 10);
      assert s[..|s| - 1] == NatToString(n / 10);
    }
  }

  /** How many decimal digits `s` starts with. */
  function LeadingDigits(s: string): (r: nat)
    ensures r <= |s|
  {
    if s != [] && '0' <= s[0] <= '9' then 1 + LeadingDigits(s[1..]) else 0
  }

  lemma {:induction false} LeadingDigitsOf(digits: string, rest: string)
    requires IsDigits(digits) && rest != [] && !('0' <= rest[0] <= '9')
    ensures LeadingDigits(digits + rest) == |digits|
  {
    if digits == [] {
      assert digits + rest == rest;
    } else {
      assert (digits + rest)[1..] == digits[1..] + rest;
      LeadingDigitsOf(digits[1..], rest);
    }
  }

  /** The key `Chat ${n} - ${today}` that `handleNewChat` creates. */
  function Label(n: nat, today: string): (r: string)
    ensures |r| == 8 + |NatToString(n)| + |today|
  {
    "Chat " + NatToString(n) + " - " + today
  }

  /** A label reads "Chat ", the ordinal's digits, " - " and the date. */
  lemma LabelShape(n: nat, today: string)
    ensures var r, k := Label(n, today), |NatToString(n)|;
      && r[..5] == "Chat " && IsDigits(r[5..5 + k])
      && r[5 + k..8 + k] == " - " && r[8 + k..] == today
  {
    var a := NatToString(n);
    var r := "Chat " + (a + (" - " + today));
    assert r == Label(n, today);
    assert r[5..] == a + (" - " + today);
    assert r[5..][..|a|] == a && r[5..][|a|..] == " - " + today;
  }

  /** A label determines both its ordinal and its date. */
  lemma LabelInjective(i: nat, d: string, j: nat, e: string)
    requires Label(i, d) == Label(j, e)
    ensures i == j && d == e
  {
    var a, b := NatToString(i), NatToString(j);
    var u, v := " - " + d, " - " + e;
    var x, y := "Chat " + (a + u), "Chat " + (b + v);
    assert x == Label(i, d) == Label(j, e) == y;
    assert a + u == x[5..] == y[5..] == b + v;
    DigitsThenSpace(a, u, b, v);
    ParseNatToString(i);
    ParseNatToString(j);
    assert d == u[3..] && e == v[3..];
  }

  /** Two digit strings each followed by text that starts with a non-digit:
      equal concatenations split the same way. */
  lemma DigitsThenSpace(a: string, u: string, b: string, v: string)
    requires IsDigits(a) && IsDigits(b) && u != [] && v != []
    requires !('0' <= u[0] <= '9') && !('0' <= v[0] <= '9')
    requires a + u == b + v
    ensures a == b && u == v
  {
    LeadingDigitsOf(a, u);
    LeadingDigitsOf(b, v);
    assert a == (a + u)[..|a|] && u == (a + u)[|a|..];
    assert b == (b + v)[..|b|] && v == (b + v)[|b|..];
  }

  /** Every key is a label whose ordinal is at most the number of keys:
      what a map built only by `handleNewChat` satisfies. */
  ghost predicate LabelledUpTo(chats: map<string, seq<Message>>) {
    forall key :: key in chats ==> exists n: nat, d: string :: 1 <= n <= |chats| && key == Label(n, d)
  }

  /** In such a map the next label is always new, whatever the date. */
  lemma NextLabelIsFresh(chats: map<string, seq<Message>>, today: string)
    requires LabelledUpTo(chats)
    ensures Label(|chats| + 1, today) !in chats
  {
    if Label(|chats| + 1, today) in chats {
      var n: nat, d: string :| 1 <= n <= |chats| && Label(|chats| + 1, today) == Label(n, d);
      LabelInjective(|chats| + 1, today, n, d);
    }
  }

  /** Adding the next label keeps the property and adds exactly one key. */
  lemma NewChatKeepsLabels(chats: map<string, seq<Message>>, today: string)
    requires LabelledUpTo(chats)
    ensures var after := chats[Label(|chats| + 1, today) := []];
      LabelledUpTo(after) && |after| == |chats| + 1
  {
    var key := Label(|chats| + 1, today);
    var after := chats[key := []];
    NextLabelIsFresh(chats, today);
    assert after.Keys == chats.Keys + {key};
    forall k | k in after
      ensures exists n: nat, d: string :: 1 <= n <= |after| && k == Label(n, d)
    {
      if k == key {
        assert 1 <= |after| <= |after| && k == Label(|after|, today);
      } else {
        assert k in chats;
        var n: nat, d: string :| 1 <= n <= |chats| && k == Label(n, d);
        assert 1 <= n <= |after| && k == Label(n, d);
      }
    }
  }

  /** A map whose keys stay the same keeps its labelling; with the key
      preservation `ReplyArrived` promises, replies keep it. */
  lemma SameKeysKeepLabels(chats: map<string, seq<Message>>, after: map<string, seq<Message>>)
    requires LabelledUpTo(chats) && after.Keys == chats.Keys
    ensures LabelledUpTo(after)
  {
    assert |after| == |after.Keys| == |chats.Keys| == |chats|;
    forall k | k in after
      ensures exists n: nat, d: string :: 1 <= n <= |after| && k == Label(n, d)
    {
      var n: nat, d: string :| 1 <= n <= |chats| && k == Label(n, d);
    }
  }

  /** `{ ...prevChats, [key]: [...(prevChats[key] || []), m] }`: the
      conversation under `key` gains `m` at its end, and no other
      conversation changes. */
  function AppendMessage(chats: map<string, seq<Message>>, key: string, m: Message): (r: map<string, seq<Message>>)
    ensures r.Keys == chats.Keys + {key}
    ensures r[key] == Stored(chats, key) + [m]
    ensures forall other :: other in chats && other != key ==> r[other] == chats[other]
  {
    chats[key := Stored(chats, key) + [m]]
  }

  /** Two appends to one conversation add both messages, in order. */
  lemma AppendTwice(chats: map<string, seq<Message>>, key: string, a: Message, b: Message)
    ensures AppendMessage(AppendMessage(chats, key, a), key, b) == chats[key := Stored(chats, key) + [a, b]]
  {
    var once := AppendMessage(chats, key, a);
    assert Stored(once, key) + [b] == Stored(chats, key) + [a, b];
  }

  /** `prevChats[key] || []`. */
  function Stored(chats: map<string, seq<Message>>, key: string): (r: seq<Message>)
    ensures key in chats ==> r == chats[key]
    ensures key !in chats ==> r == []
  {
    if key in chats then chats[key] else []
  }

  /** `if (activeChat)`: neither null nor the empty string. */
  function Truthy(chat: Option<string>): (b: bool)
    ensures b ==> chat.Some? && |chat.value| > 0
    ensures chat.Some? && |chat.value| > 0 ==> b
  {
    chat.Some? && chat.value != ""
  }

  /** A `handleSend` suspended at its `await`: the user message it sent and
      the `activeChat` its closure captured. */
  datatype Turn = Turn(message: Message, chat: Option<string>)

  /** Every conversation a pending send captured is one of `keys`. */
  predicate CapturedIn(turns: seq<Turn>, keys: set<string>) {
    forall t :: t in turns && t.chat.Some? ==> t.chat.value in keys
  }

  /** Settling one pending send keeps the others' captured conversations. */
  lemma SettleKeepsCaptured(turns: seq<Turn>, k: nat, keys: set<string>)
    requires k < |turns| && CapturedIn(turns, keys)
    ensures CapturedIn(turns[..k] + turns[k + 1..], keys)
    ensures turns[k].chat.Some? ==> turns[k].chat.value in keys
  {
    assert turns[k] in turns;
    forall t | t in turns[..k] + turns[k + 1..] ensures t in turns {
      if t in turns[..k] {
        var i :| 0 <= i < k && turns[..k][i] == t;
        assert turns[i] == t;
      } else {
        var i :| 0 <= i < |turns[k + 1..]| && turns[k + 1..][i] == t;
        assert turns[k + 1 + i] == t;
      }
    }
  }

  class ChatInterface {
    var messages: seq<Message>
    var userInput: string
    var isGenerating: bool
    var chats: map<string, seq<Message>>
    var activeChat: Option<string>
    /** The sends still awaiting their request, oldest first. */
    var inFlight: seq<Turn>
    const storage: LocalStorage

    /** The effect on `chats` writes every new value to storage, and the
        active conversation, like the one each pending send captured, is a
        key of the map: only `handleNewChat` and the listed keys set it. */
    ghost predicate Valid()
      reads this, storage
    {
      && storage.chats == Some(chats)
      && (activeChat.Some? ==> activeChat.value in chats)
      && CapturedIn(inFlight, chats.Keys)
    }

    /** Mounting: the stored conversations, if any, are loaded and written back. */
    constructor (storage: LocalStorage)
      modifies storage
      ensures Valid() && this.storage == storage
      ensures chats == old(storage.chats).GetOr(map[])
      ensures messages == [] && userInput == "" && !isGenerating
      ensures activeChat == None && inFlight == []
      ensures storage.chatHistory == old(storage.chatHistory)
    {
      this.storage := storage;
      messages, userInput, isGenerating := [], "", false;
      activeChat, inFlight := None, [];
      chats := storage.chats.GetOr(map[]);
      new;
      storage.chats := Some(chats);
    }

    method SetUserInput(text: string)
      requires Valid()
      modifies this
      ensures Valid() && userInput == text
      ensures messages == old(messages) && isGenerating == old(isGenerating) && chats == old(chats)
      ensures activeChat == old(activeChat) && inFlight == old(inFlight)
    {
      userInput := text;
    }

    /** `handleNewChat`: `today` is `toLocaleDateString()`. Adds an empty
        conversation under the next label and makes it the active one. */
    method HandleNewChat(today: string)
      requires Valid()
      modifies this, storage
      ensures Valid()
      ensures var key := Label(|old(chats)| + 1, today);
        chats == old(chats)[key := []] && activeChat == Some(key) && messages == []
      ensures LabelledUpTo(old(chats)) ==> LabelledUpTo(chats) && |chats| == |old(chats)| + 1
      ensures userInput == old(userInput) && isGenerating == old(isGenerating) && inFlight == old(inFlight)
      ensures storage.chatHistory == old(storage.chatHistory)
    {
      var key := Label(|chats| + 1, today);
      ghost var before := chats;
      chats := chats[key := []];
      storage.chats := Some(chats);
      activeChat := Some(key);
      messages := [];
      if LabelledUpTo(before) {
        NewChatKeepsLabels(before, today);
      }
    }

    /** `handleSend`, up to its `await`: the user message is shown, the
        input cleared, the flag raised and the request issued. */
    method HandleSend(now: int, time: string)
      requires Valid()
      modifies this
      ensures Valid()
      ensures Blank(old(userInput)) ==> unchanged(this)
      ensures !Blank(old(userInput)) ==>
        var m := Message(now, old(userInput), true, time);
        && messages == old(messages) + [m]
        && userInput == "" && isGenerating
        && inFlight == old(inFlight) + [Turn(m, old(activeChat))]
        && chats == old(chats) && activeChat == old(activeChat)
    {
      if !Blank(userInput) {
        var m := Message(now, userInput, true, time);
        messages := messages + [m];
        userInput := "";
        isGenerating := true;
        inFlight := inFlight + [Turn(m, activeChat)];
      }
    }

    /** Pending send `k` gets its reply: the rest of `fetchResponse`, then
        the rest of `handleSend`. The reply is shown and the flag dropped;
        in the captured conversation the reply is stored first and the user
        message after it. */
    method ReplyArrived(k: nat, reply: string, now: int, time: string)
      requires Valid() && k < |inFlight|
      modifies this, storage
      ensures Valid()
      ensures var t := old(inFlight[k]);
        var bot := Message(now, reply, false, time);
        && messages == old(messages) + [bot]
        && !isGenerating
        && inFlight == old(inFlight[..k] + inFlight[k + 1..])
        && chats == if Truthy(t.chat)
                    then old(chats)[t.chat.value := Stored(old(chats), t.chat.value) + [bot, t.message]]
                    else old(chats)
      ensures chats.Keys == old(chats).Keys
      ensures userInput == old(userInput) && activeChat == old(activeChat)
      ensures storage.chatHistory == old(storage.chatHistory)
    {
      var t := inFlight[k];
      SettleKeepsCaptured(inFlight, k, chats.Keys);
      inFlight := inFlight[..k] + inFlight[k + 1..];
      var bot := Message(now, reply, false, time);
      isGenerating := false;
      messages := messages + [bot];
      ghost var before := chats;
      StoreInCaptured(t.chat, bot);
      StoreInCaptured(t.chat, t.message);
      if Truthy(t.chat) {
        AppendTwice(before, t.chat.value, bot, t.message);
      }
    }

    /** `if (activeChat) setChats(...)` with the captured `activeChat`: the
        message is appended to that conversation and the map is persisted. */
    method StoreInCaptured(chat: Option<string>, m: Message)
      requires Valid() && (chat.Some? ==> chat.value in chats)
      modifies this, storage
      ensures Valid()
      ensures chats == if Truthy(chat) then AppendMessage(old(chats), chat.value, m) else old(chats)
      ensures chats.Keys == old(chats).Keys
      ensures messages == old(messages) && isGenerating == old(isGenerating) && inFlight == old(inFlight)
      ensures userInput == old(userInput) && activeChat == old(activeChat)
      ensures storage.chatHistory == old(storage.chatHistory)
    {
      if Truthy(chat) {
        chats := AppendMessage(chats, chat.value, m);
        storage.chats := Some(chats);
      }
    }

    /** Pending send `k` fails: the `await` throws, nothing catches it, and
        the rest of both functions never runs. Only the pending turn goes. */
    method RequestFailed(k: nat)
      requires Valid() && k < |inFlight|
      modifies this
      ensures Valid()
      ensures inFlight == old(inFlight[..k] + inFlight[k + 1..])
      ensures messages == old(messages) && isGenerating == old(isGenerating) && chats == old(chats)
      ensures userInput == old(userInput) && activeChat == old(activeChat)
    {
      inFlight := inFlight[..k] + inFlight[k + 1..];
    }

    /** `handleStopGeneration`: drops the flag; the request keeps going. */
    method HandleStopGeneration()
      requires Valid()
      modifies this
      ensures Valid() && !isGenerating
      ensures messages == old(messages) && chats == old(chats) && inFlight == old(inFlight)
      ensures userInput == old(userInput) && activeChat == old(activeChat)
    {
      isGenerating := false;
    }

    /** `loadChat`, called with one of the listed keys of the map. */
    method LoadChat(chatId: string)
      requires Valid() && chatId in chats
      modifies this
      ensures Valid() && activeChat == Some(chatId)
      ensures messages == chats[chatId]
      ensures chats == old(chats) && inFlight == old(inFlight)
      ensures userInput == old(userInput) && isGenerating == old(isGenerating)
    {
      activeChat := Some(chatId);
      messages := Stored(chats, chatId);
    }
  }

  /** Open an empty conversation, send a message, type `typed` (the button
      is enabled only for non-blank input), press Stop, and then the reply
      arrives: Stop cancelled nothing, the reply is shown, and the stored
      conversation holds the reply before the user message. */
  method StopThenReply(ui: ChatInterface, key: string, text: string, typed: string, reply: string)
    requires ui.Valid() && ui.inFlight == [] && key != "" && key in ui.chats && ui.chats[key] == []
    requires !Blank(text) && !Blank(typed)
    modifies ui, ui.storage
    ensures ui.Valid() && !ui.isGenerating && ui.inFlight == []
    ensures ui.messages == [Message(1, text, true, "t1"), Message(2, reply, false, "t2")]
    ensures ui.chats == old(ui.chats)[key := [Message(2, reply, false, "t2"), Message(1, text, true, "t1")]]
  {
    ui.LoadChat(key);
    ui.SetUserInput(text);
    ui.HandleSend(1, "t1");
    ui.SetUserInput(typed);
    ui.HandleStopGeneration();
    assert ui.inFlight[0].chat == Some(key) && Truthy(Some(key));
    ghost var before := ui.chats;
    ui.ReplyArrived(0, reply, 2, "t2");
    assert Stored(before, key) + [Message(2, reply, false, "t2"), Message(1, text, true, "t1")]
        == [Message(2, reply, false, "t2"), Message(1, text, true, "t1")];
  }

  /** Starting from a store built by `handleNewChat`, a conversation with a
      reply and then a second new conversation on the same day: each new
      chat gets a key of its own, so the map grows by exactly two. */
  method NewChatAfterReply(ui: ChatInterface, text: string, reply: string, today: string)
    requires ui.Valid() && LabelledUpTo(ui.chats) && !Blank(text)
    modifies ui, ui.storage
    ensures ui.Valid() && LabelledUpTo(ui.chats)
    ensures |ui.chats| == |old(ui.chats)| + 2
    ensures ui.activeChat == Some(Label(|old(ui.chats)| + 2, today))
  {
    ui.HandleNewChat(today);
    ui.SetUserInput(text);
    ui.HandleSend(1, "t1");
    ghost var withChat := ui.chats;
    ui.ReplyArrived(|ui.inFlight| - 1, reply, 2, "t2");
    SameKeysKeepLabels(withChat, ui.chats);
    ui.HandleNewChat(today);
  }
}
