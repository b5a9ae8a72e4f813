# Chat client core, modelled in Dafny

This project models the logic of a small Next.js chat client. It has four parts:

- **The chat-session hook `useChatInterfaceActions`** (`ChatActions`). It holds the message list, the input box, the message being edited, the stopping flag and the abort handle of the request in flight. It also appends every user message that `handleSend` sends to the `chatHistory` entry of local storage; an edited message that `handleSaveEdit` re-sends is not logged. The completion request is an event source: `Mutate` issues it, and the request settles later through `OnSuccess` or `OnError`.
- **The chat component `ChatInterface`** (`ChatComponent`). It keeps conversations in a map keyed by `Chat n - date` labels, persisted under the storage key `chats`, plus the active conversation and a "generating" flag. `handleSend` awaits the request. Everything after the `await` is a pending `Turn` that `ReplyArrived` or `RequestFailed` resolves later.
- **The history sidebar `UserHistory`** (`History`). It reloads the stored `chatHistory` list when the prompt changes, removes entries by id and writes the list back, derives the entry titles, and toggles its visibility.
- **The scrape endpoint `POST /api/scrappe`** (`Scrape`). It maps the request body and the scraped text to a status and JSON body, and normalises whitespace in the page text.

Shared pieces:

- `Types` holds `Option` and the `Message` record.
- `Text` holds JavaScript whitespace (`\s` and `String.prototype.trim`) and `trim`.
- `Storage` is the browser's `localStorage`, reduced to the two keys the client uses. Both components hold the same `LocalStorage` object, so one component's write is seen by the other's read.

The hook, the component and the sidebar are classes whose methods update their fields in place. The scrape route is a set of pure functions.

Clock and locale values are method parameters: `Date.now()` is `now`, `toLocaleTimeString()` is `time` and `toLocaleDateString()` is `today`. The completion reply is a parameter too. The page text after `<script>`/`<style>` removal is an `Option<string>`, `None` when fetching or parsing threw.

## Model

| member | source | states |
|---|---|---|
| Text.SkipSpaces | app/api/scrappe/route.ts:23 | the first index at or after `i` that is not whitespace: everything skipped is whitespace and the stop is the end or a non-whitespace character |
| Text.SkipSpacesBack | app/api/scrappe/route.ts:23 | scanning down from `j`, the end of the last non-whitespace character: everything skipped is whitespace |
| Text.SkipSpacesAt | app/api/scrappe/route.ts:23 | the first non-whitespace index is the only index with its two defining properties |
| Text.TrimOfTrimmed | app/api/scrappe/route.ts:23 | text whose ends are not whitespace is its own `trim()` |
| Text.Trim | app/api/scrappe/route.ts:23 | `trim()` returns the slice of `s` between an all-whitespace prefix and an all-whitespace suffix, and that slice is empty or starts and ends with non-whitespace |
| Text.Blank | app/_utils/chatInterfaceActions.ts:63 | `userInput.trim()` is falsy exactly when every character of the input is whitespace (both directions); the same guard is `handleSend`'s in ChatInterface.tsx:48 |
| Scrape.CollapseSpaces | app/api/scrappe/route.ts:23 | `replace(/\s+/g, ' ')` is empty exactly when its input is, and keeps whether the text starts with whitespace |
| Scrape.CollapseIsCollapsed | app/api/scrappe/route.ts:23 | the collapsed text has only single plain spaces |
| Scrape.CollapseWord | app/api/scrappe/route.ts:23 | text without whitespace is left as it is |
| Scrape.CollapseLast | app/api/scrappe/route.ts:23 | collapsing keeps whether the text ends with whitespace |
| Scrape.CollapseConcat | app/api/scrappe/route.ts:23 | text ending in a non-whitespace character collapses independently of what follows: `C(a + c) == C(a) + C(c)` |
| Scrape.CollapseLeadingRun | app/api/scrappe/route.ts:23 | a leading run of whitespace before text that starts with non-whitespace (or nothing) becomes exactly one space |
| Scrape.CollapseRunBetween | app/api/scrappe/route.ts:23 | any non-empty run of whitespace between two pieces of text becomes exactly one space, and each piece collapses on its own; with `CollapseWord` and `CollapseLeadingRun` this fixes the result run by run |
| Scrape.TrimKeepsCollapsed | app/api/scrappe/route.ts:23 | trimming text with only single plain spaces keeps that property |
| Scrape.Normalize | app/api/scrappe/route.ts:23 | the cleaned text has no whitespace at either end, every whitespace character is a plain space, and no two whitespace characters are adjacent |
| Scrape.NormalizeRunBetween | app/api/scrappe/route.ts:23 | two pieces of text with non-whitespace ends, joined by any run of whitespace, normalise to their own normalisations joined by exactly one space |
| Scrape.NormalizeWord | app/api/scrappe/route.ts:23 | a single word normalises to itself, so words separated by whitespace come out separated by one space |
| Scrape.NonSpaceConcat | app/api/scrappe/route.ts:23 | the non-whitespace characters of a concatenation are those of each part, in order |
| Scrape.NonSpaceOfSpaces | app/api/scrappe/route.ts:23 | an all-whitespace string has no non-whitespace characters |
| Scrape.CollapseKeepsText | app/api/scrappe/route.ts:23 | collapsing whitespace keeps every other character, in order |
| Scrape.TrimKeepsText | app/api/scrappe/route.ts:23 | trimming removes whitespace only |
| Scrape.NormalizeKeepsText | app/api/scrappe/route.ts:23 | normalisation keeps every non-whitespace character of the page text, in order |
| Scrape.CollapseFixesCollapsed | app/api/scrappe/route.ts:23 | collapsing text that already has only single plain spaces changes nothing |
| Scrape.NormalizeIdempotent | app/api/scrappe/route.ts:23 | normalising normalised text changes nothing |
| Scrape.NonSpaceEmptyIsSpaces | app/api/scrappe/route.ts:23 | text with no non-whitespace character is all whitespace |
| Scrape.NonSpaceHas | app/api/scrappe/route.ts:23 | text with a non-whitespace character keeps one after filtering |
| Scrape.NormalizeEmptyIff | app/api/scrappe/route.ts:23 | the cleaned text is empty exactly when the page text was all whitespace |
| Scrape.ScrapeWebsite | app/api/scrappe/route.ts:12-30 | returns text exactly when fetch and parse succeeded; that text is `Normalize` of the page text (each whitespace run becomes one space, then trimmed), so it is empty exactly when the page was all whitespace and it keeps the page's non-whitespace characters |
| Scrape.Falsy | app/api/scrappe/route.ts:37 | `!url` in JavaScript: `undefined`, `null`, `false`, `0` and the empty string are falsy; `true`, other numbers, non-empty strings, arrays and objects are not |
| Scrape.Post | app/api/scrappe/route.ts:33-51 | an unreadable or null body gives 500 `Internal Server Error`; a falsy `url` gives 400 `URL is required`; a failed scrape or all-whitespace page gives 500 `Failed to scrape website`; otherwise 200 with the normalised text; `success` holds exactly for status 200 |
| ChatActions.ReplaceContent | app/_utils/chatInterfaceActions.ts:93-97 | same length; every message keeps its id, author flag and timestamp; content is replaced exactly for messages whose id matches |
| ChatActions.ReplaceContentAbsent | app/_utils/chatInterfaceActions.ts:93-97 | editing an id no message carries leaves the list unchanged |
| ChatActions.ReplaceContentLastWins | app/_utils/chatInterfaceActions.ts:93-97 | two edits of the same id leave only the second content |
| ChatActions.AbortController.Abort | app/_utils/chatInterfaceActions.ts:114 | the handle is marked aborted |
| ChatActions.ChatInterfaceActions.constructor | app/_utils/chatInterfaceActions.ts:13-21 | empty list and input, no edit target, not stopping, no handle |
| ChatActions.ChatInterfaceActions.SetUserInput | app/_utils/chatInterfaceActions.ts:14 | only the input changes |
| ChatActions.ChatInterfaceActions.Mutate | app/_utils/chatInterfaceActions.ts:37-42 | a fresh, unaborted handle is stored and the message is sent; nothing else changes |
| ChatActions.ChatInterfaceActions.HandleSend | app/_utils/chatInterfaceActions.ts:62-80 | blank input changes neither the hook nor storage; otherwise exactly one user message with the untrimmed input is appended to both the list and the stored `chatHistory` log (earlier entries kept in order), it is sent with a fresh handle, and the input is cleared |
| ChatActions.ChatInterfaceActions.ClearMessages | app/_utils/chatInterfaceActions.ts:82-84 | the list is emptied; input, edit target, handle and storage are untouched |
| ChatActions.ChatInterfaceActions.HandleEdit | app/_utils/chatInterfaceActions.ts:86-89 | only the input and the edit target change; the list is untouched |
| ChatActions.ChatInterfaceActions.HandleSaveEdit | app/_utils/chatInterfaceActions.ts:91-110 | no edit target or blank input changes nothing; otherwise the list is rewritten by `ReplaceContent`, the edited message is sent, input and edit target are cleared, and storage is not written |
| ChatActions.ChatInterfaceActions.HandleStop | app/_utils/chatInterfaceActions.ts:112-117 | with no handle nothing changes; with a handle it is aborted and the stopping flag is raised |
| ChatActions.ChatInterfaceActions.OnSuccess | app/_utils/chatInterfaceActions.ts:43-55 | exactly one assistant message is appended and the handle and stopping flag are cleared |
| ChatActions.ChatInterfaceActions.OnError | app/_utils/chatInterfaceActions.ts:56-59 | nothing is appended, the stopping flag drops and the handle stays set |
| ChatActions.Exchange | app/_utils/chatInterfaceActions.ts:43-117 | one typed exchange adds two messages when the reply arrives, and only the user message when the request fails or is stopped (a stopped request settles through `onError`, leaving the aborted handle in place); the log gains the user message in every case |
| ChatComponent.NatToString | app/_components/ChatInterface.tsx:38 | `${n}` is a non-empty string of decimal digits |
| ChatComponent.ParseNatToString | app/_components/ChatInterface.tsx:38 | the decimal rendering of `n` reads back as `n` |
| ChatComponent.LeadingDigits | app/_components/ChatInterface.tsx:38 | the count of leading digits is at most the length |
| ChatComponent.LeadingDigitsOf | app/_components/ChatInterface.tsx:38 | digits followed by a non-digit have exactly that many leading digits |
| ChatComponent.Label | app/_components/ChatInterface.tsx:38 | the key `Chat ${n} - ${today}` is eight characters longer than the ordinal's digits and the date together |
| ChatComponent.LabelShape | app/_components/ChatInterface.tsx:38 | a label reads `Chat `, then the ordinal as decimal digits, then ` - `, then the date |
| ChatComponent.LabelInjective | app/_components/ChatInterface.tsx:38 | two equal `Chat n - date` labels have the same ordinal and date |
| ChatComponent.DigitsThenSpace | app/_components/ChatInterface.tsx:38 | digits followed by a non-digit split the same way in two equal strings |
| ChatComponent.NextLabelIsFresh | app/_components/ChatInterface.tsx:36-42 | in a map whose keys are labels numbered up to its size, the next label is not yet a key, whatever the date |
| ChatComponent.NewChatKeepsLabels | app/_components/ChatInterface.tsx:36-42 | adding the next label keeps that property and adds exactly one key |
| ChatComponent.SameKeysKeepLabels | app/_components/ChatInterface.tsx:58-66 | a map whose keys stay the same keeps its labelling, so replies, which keep the keys, keep it |
| ChatComponent.SettleKeepsCaptured | app/_components/ChatInterface.tsx:58-66 | settling one pending send keeps every other pending send's captured conversation among the keys |
| ChatComponent.Truthy | app/_components/ChatInterface.tsx:60 | `if (activeChat)`: true exactly when there is an active chat whose key is not the empty string (the same test guards the bot reply at line 96) |
| ChatComponent.Stored | app/_components/ChatInterface.tsx:63 | `prevChats[key] \|\| []`: the stored conversation when `key` is present, the empty list otherwise (the same expression is at line 99) |
| ChatComponent.AppendMessage | app/_components/ChatInterface.tsx:61-64 | `[key]: [...(prevChats[key] \|\| []), m]` adds `key` to the keys, ends its conversation with `m`, and changes no other conversation |
| ChatComponent.AppendTwice | app/_components/ChatInterface.tsx:61-64 | two appends to one conversation add both messages, in order |
| ChatComponent.ChatInterface.constructor | app/_components/ChatInterface.tsx:19-34 | the stored conversations, or none, are loaded and written back; everything else starts empty |
| ChatComponent.ChatInterface.SetUserInput | app/_components/ChatInterface.tsx:20 | only the input changes |
| ChatComponent.ChatInterface.HandleNewChat | app/_components/ChatInterface.tsx:36-45 | one empty conversation is added under `Chat k+1 - today` and persisted, other entries are kept, it becomes active and the list empties; for a map built this way the key is new and the size grows by one |
| ChatComponent.ChatInterface.HandleSend | app/_components/ChatInterface.tsx:47-58 | blank input changes nothing; otherwise one user message is appended, the input is cleared, the flag is raised, and the send waits with the active chat it captured |
| ChatComponent.ChatInterface.ReplyArrived | app/_components/ChatInterface.tsx:58-100 | the reply is appended to the list and the flag drops; with a truthy captured chat, the stored conversation gains exactly the reply and then the user message, in that order; the map is otherwise unchanged and keeps its keys |
| ChatComponent.ChatInterface.StoreInCaptured | app/_components/ChatInterface.tsx:96-100 | with a truthy captured chat the message is appended to that conversation and persisted; otherwise nothing changes; the keys stay the same |
| ChatComponent.ChatInterface.RequestFailed | app/_components/ChatInterface.tsx:69-84 | a thrown request appends nothing, leaves the map unchanged and leaves the flag as it was |
| ChatComponent.ChatInterface.HandleStopGeneration | app/_components/ChatInterface.tsx:104-106 | only the flag drops; pending sends stay pending |
| ChatComponent.ChatInterface.LoadChat | app/_components/ChatInterface.tsx:108-111 | for one of the listed keys of the map (the only keys the list at lines 171-174 offers), the chat becomes active and the list is its stored conversation |
| ChatComponent.StopThenReply | app/_components/ChatInterface.tsx:47-106 | typing again (which enables the Stop button), pressing Stop and then receiving the reply still shows it, and the stored conversation holds the reply before the user message |
| ChatComponent.NewChatAfterReply | app/_components/ChatInterface.tsx:36-111 | from a store built by `handleNewChat`, a new chat, a send and its reply, then another new chat on the same day: the labelling holds throughout and the map grows by exactly two |
| History.RemoveById | app/_components/UserHistory.tsx:27 | an entry is kept exactly when it was there and its id differs, and the list does not grow |
| History.RemoveByIdKeepsOrder | app/_components/UserHistory.tsx:27 | the kept entries keep their relative order |
| History.SubsequenceOfTail | app/_components/UserHistory.tsx:27 | a subsequence of a list's tail is a subsequence of the list |
| History.SubsequenceDropHead | app/_components/UserHistory.tsx:27 | dropping the head of a subsequence leaves a subsequence |
| History.RemoveAbsentId | app/_components/UserHistory.tsx:27 | removing an id no entry carries changes nothing |
| History.RemoveByIdIdempotent | app/_components/UserHistory.tsx:27 | removing the same id twice is the same as removing it once |
| History.RemoveByIdConcat | app/_components/UserHistory.tsx:27 | removal on a concatenation acts on each part |
| History.Title | app/_components/UserHistory.tsx:69 | empty content shows `No title`; otherwise a non-empty prefix of at most 20 characters, which is the whole content when it is shorter than 20 |
| History.UserHistory.constructor | app/_components/UserHistory.tsx:11-24 | mounting shows the stored list, or none, and the sidebar is visible |
| History.UserHistory.PromptChanged | app/_components/UserHistory.tsx:14-24 | the list is replaced by the stored one when it exists and kept otherwise; the sidebar becomes visible |
| History.UserHistory.HandleChatRemove | app/_components/UserHistory.tsx:26-30 | the list becomes `RemoveById` of the old list and is persisted as `chatHistory`; the other key is untouched |
| History.UserHistory.ToggleHistoryMenu | app/_components/UserHistory.tsx:32-36 | the local flag flips and the parent receives the same new value |
| History.SendListRemove | app/_components/UserHistory.tsx:14-30 | after the hook sends a message, the next prompt change lists exactly the stored history followed by that message; removing it by id then leaves the earlier history without that id, in the sidebar and in storage alike |

## Left out

- HTTP I/O is not modelled: `FetchResponse.ts`, the `fetch` in `ChatInterface.tsx`, and `axios`/`cheerio` in the scrape route. A request is an issued event and a later success or failure. The scraped body text is an input.
- `MarkdownRenderer.tsx`, `IconsBox.tsx`, `SkeletonLoader.tsx` and all JSX are not modelled, because they are presentation only.
- The DOM effects (scroll to bottom, textarea height), clipboard and `alert` are not modelled. They touch no state of the model.
- JSON encoding and corrupt payloads are not modelled. Storage holds parsed values, and `None` is a key that was never written.
- Real `AbortController` behaviour and react-query scheduling are not modelled. An aborted request settles through `OnError`. Requests that overlap in the hook share the one `abortController` field, as in the code.
- React batches state updates and re-renders; both are left out. Each handler's updates are applied in order, and a stale closure is modelled only where the code depends on it (the active chat a pending send captured).
- The chat component's invariant `Valid` holds the active conversation, and the conversation each pending send captured, among the keys of the map. Only `handleNewChat` and the keys listed in the sidebar set `activeChat`, and keys are never removed.
- ChatComponent.ChatInterface.constructor: the mount effect first writes `{}` to storage and then the loaded map. Only the final state is modelled.
- History.Title: counts characters, not UTF-16 code units, so a surrogate pair at position 20 is not split as `slice(0, 20)` would split it.
- History.UserHistory: the sidebar types its entry ids as strings, but the stored entries come from the hook and carry numeric ids. The model uses the numeric `Message` record throughout.
- Scrape.Falsy: JavaScript numbers are modelled as reals, so `NaN` (falsy in JavaScript) and the float format are left out; `-0` equals `0` here as there.
- Clock and locale functions, and id uniqueness, are not modelled: `Date.now()` and the locale strings are parameters.

### Where the code and its description differ

- `onError` keeps the abort handle, so a later `handleStop` aborts an already settled request again and raises the stopping flag. The model follows the code.
- The hook's `chatHistory` log receives user messages only. Assistant replies are appended to the visible list, never to storage.
- In `ChatInterface`, a request that throws is never caught. The flag stays raised and neither the reply nor the user message reaches the stored conversation.
