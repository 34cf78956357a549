# Team-LLM store, stream client and persistence in Dafny

This project models the core of Team-LLM, a browser app in which the user
defines AI characters and chats with one of them, or lets several of them
talk to each other in turn. Three pieces are covered:

- **The application store** (`src/stores/appStore.ts`). This is a Zustand
  store with thirteen data fields and twelve actions. Each action is a
  function from a state to the sequence of states it hands to `set`, in
  order. An empty sequence means `set` is never called. The asynchronous
  actions run to completion in one call. What they draw from outside is
  passed in as an argument: uuids, the connection probe, and the outcome
  of every reply stream.
- **The local streaming client** (`streamChat` in `src/lib/ollama.ts`).
  Newline-delimited JSON arrives in arbitrarily cut pieces. The client
  buffers the text, splits it with JavaScript's `split('\n')` semantics,
  and turns every complete line into `onChunk` / `onDone` / `onError`
  callbacks. The model works on decoded text. `JSON.parse` of a line is a
  parameter returning the two fields the loop looks at.
- **The persistence middleware** (`src/hooks/usePersistentStore.ts`).
  After every `set` it saves `JSON.stringify(get())` under
  `"brutal-ai-store"`. At start-up it overlays the stored record on the
  initial state. The JSON codec and the storage quota are parameters.

Modules:

| file | module | contents |
|---|---|---|
| `wrappers.dfy` | `Wrappers` | `Option` |
| `types.dfy` | `Types` | characters, messages, models, the remote model catalogue, the stream outcome |
| `framing.dfy` | `Framing` | `split('\n')`, the line loop, the read loop, `streamChat`, the request body |
| `store.dfy` | `Store` | the state and every action except `startGroupConversation`, and the stream fold shared by both chats |
| `group.dfy` | `Group` | `startGroupConversation` |
| `persist.dfy` | `Persist` | the load/merge/save middleware over generic records |
| `session.dfy` | `Session` | all actions as one step relation, snapshots, saving after every write, booting |

Behaviour of the code worth knowing before reading the contracts:

- `toggleGroupParticipant` appends any id it is given, so a participant id need not name a character. `startGroupConversation` filters the characters by the selection, so such ids are ignored there. That every participant id names a character is only proved to be kept by deletion (`Store.DeleteKeepsRosterConsistent`).
- `toggleGroupChatMode` clears the participant list in both directions, not only when group mode is left.
- `startGroupConversation` checks neither group mode nor `isGenerating`, only the participant count and `isOrchestrating`.
- `streamChat` never inspects the HTTP status. A non-2xx response with a body is streamed like any other.
- The backend is chosen by the *first* catalogue entry with the character's model name. After a connection the local entries come first, so a local model wins over a remote one with the same name (`Store.ListedModelsRunLocally`).

## Model

| member | source | states |
|---|---|---|
| Types.AvatarOrDefault | src/stores/appStore.ts:68 | the stored avatar is never empty; it is the given one whenever that is non-empty, and the robot face '🤖' when it is empty |
| Framing.Split | src/lib/ollama.ts:58 | `split('\n')` yields at least one piece and no piece contains a newline |
| Framing.SplitJoin | src/lib/ollama.ts:58 | joining the pieces with newlines gives back the original text |
| Framing.JoinSplit | src/lib/ollama.ts:58 | splitting a newline-join of newline-free pieces gives back those pieces |
| Framing.SplitAppend | src/lib/ollama.ts:57-59 | splitting a concatenation gives the pieces of the first part except its last one, then the pieces of that last one continued by the second part, so keeping only the last piece as the buffer loses nothing |
| Framing.Fragment | src/lib/ollama.ts:59 | the buffer kept after a split never holds a newline |
| Framing.LinesThenFragment | src/lib/ollama.ts:58-59 | the buffered text is exactly its complete lines, each newline-free and followed by a newline, then the newline-free fragment kept for the next read |
| Framing.CompleteLinesAppend | src/lib/ollama.ts:57-59 | the complete lines of a concatenation are those of the first part, then those of its unterminated fragment continued by the second part |
| Framing.TrimStart | src/lib/ollama.ts:61 | `trim` drops a leading run of JavaScript white space (space, tab, the line terminators, no-break and the Unicode space separators, the byte-order mark) and keeps the rest, which starts with a non-white character or is empty |
| Framing.TrimEnd | src/lib/ollama.ts:61 | `trim` drops a trailing run of JavaScript white space and keeps the rest, which ends with a non-white character or is empty |
| Framing.HandleLines | src/lib/ollama.ts:60-74 | the line loop never emits an empty chunk |
| Framing.HandleLinesByFrames | src/lib/ollama.ts:60-74 | the line loop emits exactly the non-empty contents of the parseable, non-blank lines up to and including the first `done` frame, and returns exactly when there is a `done` frame; blank and unparseable lines are skipped |
| Framing.HandleLinesAppend | src/lib/ollama.ts:60-74 | handling two batches of lines in a row is handling their concatenation, and nothing after a `done` frame is looked at |
| Framing.ReadLoop | src/lib/ollama.ts:52-75 | the read loop never emits an empty chunk |
| Framing.ReadLoopSeesOnlyConcat | src/lib/ollama.ts:51-75 | starting from a newline-free buffer, the read loop behaves as the line loop over the complete lines of all text read, wherever the reads were cut |
| Framing.StreamChat | src/lib/ollama.ts:31-81 | a failed fetch reports its error with no chunk; a null body reports "Response body is null"; a body that ends normally always completes; chunks are never empty |
| Framing.StreamChatReadsCompleteLines | src/lib/ollama.ts:51-80 | a body's chunks are the non-empty contents of its complete lines up to the first `done` frame; the stream completes on a `done` frame or at end of body and fails only when a read rejects before one |
| Framing.ChunkingIrrelevant | src/lib/ollama.ts:52-59 | two bodies with the same text give the same callbacks, however the reads were cut |
| Framing.TrailingFragmentDropped | src/lib/ollama.ts:53-59 | an unterminated last line is never parsed, even if it is a complete `done` frame |
| Framing.UnterminatedLineIgnored | src/lib/ollama.ts:53-76 | a body of one line without a newline produces no chunk and ends as the body ends |
| Framing.DoneFrameEndsStream | src/lib/ollama.ts:67-70 | once a `done` frame has been read, later reads and how the body ends change nothing, and the stream completes |
| Framing.RequestBody | src/lib/ollama.ts:39-44 | the body carries the model, the system prompt, streaming switched on, and every message reduced to its role and content, in order |
| Framing.RequestIgnoresStamps | src/lib/ollama.ts:41 | histories agreeing on roles and contents produce the same request body; ids and character stamps never reach the wire |
| Store.LocalModels | src/stores/appStore.ts:60 | one local catalogue entry per listed model name, in the listed order |
| Store.ConnectToOllama | src/stores/appStore.ts:52-66 | without a URL nothing is written; otherwise `connecting` is written first, then either `connected` with the listed models as local entries ahead of the remote catalogue, or `error` with the remote catalogue alone; nothing else changes |
| Store.NoLocalExternalModels | src/lib/models.ts:5-17 | the remote catalogue has no local entry |
| Store.DefaultCatalogueIsRemote | src/stores/appStore.ts:41 | the initial catalogue, a copy of the built-in one, has no local entry, so with `Store.RemoteChatSendsNoPrompt` a fresh session sends every chat to the remote transport without a system prompt |
| Store.ConnectRefreshesLocalModels | src/stores/appStore.ts:59-64 | after a connection attempt the local models are exactly the listed ones on success and none on failure, whatever the catalogue held before |
| Store.ListedModelsRunLocally | src/stores/appStore.ts:59-61 | after a successful connection every listed model is routed to the local backend, even if a remote entry has the same name |
| Store.AddCharacter | src/stores/appStore.ts:67-70 | the roster grows by one character at the end, carrying the fresh id, the draft's fields and a non-empty avatar; the earlier entries and the rest of the state are unchanged |
| Store.AddKeepsIdsUnique | src/stores/appStore.ts:67-70 | with a fresh id, character ids stay unique |
| Store.UpdateCharacter | src/stores/appStore.ts:71-75 | same length, order and ids; entries with the given id are replaced by it, with its avatar defaulted; every other entry is untouched |
| Store.UpdateUnknownIsNoop | src/stores/appStore.ts:71-75 | updating an id that no character has changes nothing |
| Store.Without | src/stores/appStore.ts:81 | the filtered list holds exactly the other ids |
| Store.WithoutCharacter | src/stores/appStore.ts:78 | the filtered roster holds exactly the characters with another id |
| Store.WithoutCharacterAppend | src/stores/appStore.ts:78 | filtering distributes over concatenation, so the roster keeps its order after a deletion |
| Store.DeleteCharacter | src/stores/appStore.ts:76-83 | the character leaves the roster and the group selection; the selection and the log are cleared exactly when it was the selected character; the generation flags are untouched |
| Store.DeleteKeepsRosterConsistent | src/stores/appStore.ts:76-83 | if every participant id names a character before a deletion, the same holds after it |
| Store.SetActiveCharacterId | src/stores/appStore.ts:84-89 | group mode or the same id writes nothing; otherwise one write selects the id and clears the log |
| Store.ToggleSettings | src/stores/appStore.ts:133-135 | the settings dialog takes the requested state, or flips when none is given |
| Store.ToggleSettingsRestores | src/stores/appStore.ts:133-135 | two flips, or a request for the current state, change nothing |
| Store.ToggleCharacterSheet | src/stores/appStore.ts:136-141 | the sheet takes the requested state or flips; only an explicit close clears the edited id, otherwise the given id (default none) is the one edited |
| Store.FlipClosedKeepsEditingId | src/stores/appStore.ts:136-141 | closing the sheet by flipping keeps the passed id as the edited one; an explicit close clears it |
| Store.ToggleGroupChatMode | src/stores/appStore.ts:142-149 | flips the mode and clears the participants, the log and the selection, so the two modes are exclusive afterwards |
| Store.ToggleGroupParticipant | src/stores/appStore.ts:150-159 | a selected id is removed wherever it occurs; any other id is appended at the end; nothing else changes |
| Store.ToggleKeepsNoDuplicates | src/stores/appStore.ts:150-159 | a duplicate-free selection stays duplicate-free |
| Store.ToggleTwiceRestores | src/stores/appStore.ts:150-159 | selecting an unselected id and then deselecting it restores the state |
| Store.FindModel | src/stores/appStore.ts:94 | the result is the first catalogue entry with the name, or none when no entry has it |
| Store.ChooseBackend | src/stores/appStore.ts:94-95 | local exactly when the first entry with the model's name is local; unknown names go to the remote backend |
| Store.FindCharacter | src/stores/appStore.ts:92 | the result is the first roster character with the selected id, or none when nothing is selected or no character has that id |
| Store.AppendToMessage | src/stores/appStore.ts:104-106 | the message with the id grows by the text; every other message is unchanged |
| Store.AppendTwice | src/stores/appStore.ts:102-108 | appending two chunks in turn is appending their concatenation |
| Store.AppendToFreshMessage | src/stores/appStore.ts:97-106 | appending to a just-added message with a fresh id touches only that message |
| Store.ErrorNote | src/stores/appStore.ts:115 | the note appended on failure is a blank line and the bold "Error:" marker followed by the message, which dropping the marker gives back |
| Store.StreamWrites | src/stores/appStore.ts:102-118 | one write per chunk, then one for `onDone`/`onError`; chunk writes keep the flag; the last write holds the chunks in order (plus the error note on failure) in the addressed message with the flag cleared; only the log and the flag change; what each chunk write holds is stated by `Store.StreamWritesGrowByChunk` |
| Store.StartChat | src/stores/appStore.ts:90-132 | a no-op without an existing selected character or while generating; otherwise the prompt and an empty stamped reply are appended with the flag raised; one request carries the log without the placeholder, the character's model and the catalogue's backend, plus the character's system prompt when that backend is local and none when it is remote; every later write is the stream's fold (`Store.StreamWrites`) from that first write; the flag stays raised until the last write; only the log and the flag change |
| Store.RemoteChatSendsNoPrompt | src/stores/appStore.ts:93-131 | with no local catalogue entry, as before any successful connection, a chat's request goes to the remote transport without a system prompt |
| Store.StreamWritesGrowByChunk | src/stores/appStore.ts:102-108 | the write for chunk k holds the reply grown by exactly the first k + 1 chunks in order, so the reply is built up one chunk per write and never coalesced |
| Store.StartChatTranscript | src/stores/appStore.ts:90-119 | with fresh ids, the log ends grown by exactly the prompt and the finished reply, and the flag is cleared |
| Store.FailedChatShowsError | src/stores/appStore.ts:110-117 | a stream that fails before any chunk leaves the reply holding only the error note, with the flag cleared |
| Group.SelectMembers | src/stores/appStore.ts:162 | the participants are exactly the characters whose id is selected |
| Group.SelectMembersAppend | src/stores/appStore.ts:162 | filtering distributes over concatenation, so the participants keep roster order |
| Group.SelectionOrderIrrelevant | src/stores/appStore.ts:162 | two selections with the same members give the same participants in the same order |
| Group.Participants | src/stores/appStore.ts:162 | the speakers are exactly the roster characters whose id is selected |
| Group.EachSpeaksTwice | src/stores/appStore.ts:164-166 | the participant at position i speaks at turns i and i + n, and these are the only ones of the 2n turns assigned to position i |
| Group.Started | src/stores/appStore.ts:167-175 | a turn appends one empty assistant reply stamped with the speaker's id and name and raises the generation flag; the earlier log and the rest of the state are unchanged |
| Group.TurnsTaken | src/stores/appStore.ts:165-214 | the loop runs at least one and at most 2n turns; every turn before the last taken one completed; stopping before the bound means the last turn failed |
| Group.TurnsStopAtFirstFailure | src/stores/appStore.ts:165-214 | all turns completing gives 2n turns; a first failure at turn f gives f + 1 turns |
| Group.TurnWrites | src/stores/appStore.ts:167-205 | a turn always writes, and changes only the log and the generation flag |
| Group.TurnSettles | src/stores/appStore.ts:167-205 | a turn sends the log without its placeholder and settles with its reply appended and the flag down |
| Group.RunTurns | src/stores/appStore.ts:165-215 | the loop writes at least once when a turn is due, and changes only the log and the generation flag |
| Group.RunTurnsRequests | src/stores/appStore.ts:165-212 | one request per turn taken, turn j carrying the seed and the first j replies with speaker j mod n's model, and that speaker's system prompt only when the backend is local |
| Group.RunTurnsSettles | src/stores/appStore.ts:165-215 | the loop ends with the seed plus the replies of the turns taken and the flag down |
| Group.StartGroupConversation | src/stores/appStore.ts:160-218 | a no-op exactly when there are fewer than two participants or a conversation is marked running; otherwise the first write raises the mark, every write but the last keeps it, the last lowers it, and only the log and the two flags change |
| Group.GroupConversationRequests | src/stores/appStore.ts:161-212 | with fresh ids, turn k is spoken by participant k mod n in roster order, with its model, goes to the backend the catalogue read at the start chooses for that model, carries the speaker's system prompt when that backend is local and none when it is remote, and sends the seed plus the k earlier replies |
| Group.GroupConversationTranscript | src/stores/appStore.ts:160-218 | a conversation runs between 1 and 2n turns and ends with the seed plus the replies of the turns taken, both flags down, and the rest of the state as it was |
| Persist.Read | src/hooks/usePersistentStore.ts:25 | a read that does not throw gives the stored text exactly when the key is present |
| Persist.Load | src/hooks/usePersistentStore.ts:22-32 | the stored record's keys override the initial state's and the other initial keys survive; a throwing read, a missing key, empty text or a failed parse leave the initial state |
| Persist.Save | src/hooks/usePersistentStore.ts:16-20 | a save that fits stores the text under the key; one that does not fit leaves storage unchanged; other keys are never touched |
| Persist.LoadAfterSave | src/hooks/usePersistentStore.ts:13-32 | loading after a successful save of a record covering every initial key gives back that record |
| Persist.FailedSaveKeepsEarlierRecord | src/hooks/usePersistentStore.ts:16-32 | a save that fails leaves the previous record to be loaded |
| Session.Step | src/stores/appStore.ts:23-36 | the synchronous actions other than `setActiveCharacterId` write exactly once; `setOllamaApiUrl` changes only the URL |
| Session.ModesStayExclusive | src/stores/appStore.ts:84-149 | no action writes a state with a character selected in group mode |
| Session.ModesExclusiveAlways | src/stores/appStore.ts:84-149 | the two modes stay exclusive over any sequence of actions |
| Session.OrchestratingIsSticky | src/stores/appStore.ts:160-218 | while a conversation is marked running, every write of every action keeps the mark |
| Session.OrchestratingNeverClears | src/stores/appStore.ts:160-218 | a mark that is up stays up over any sequence of actions |
| Session.Capture | src/hooks/usePersistentStore.ts:17 | the snapshot holds exactly the thirteen data fields, transient flags included |
| Session.Restore | src/hooks/usePersistentStore.ts:32 | a record gives a state exactly when every data field is present with the right type, and that state's snapshot agrees with the record on every data field |
| Session.RestoreCapture | src/hooks/usePersistentStore.ts:17-32 | restoring a snapshot gives back its state |
| Session.Commit | src/hooks/usePersistentStore.ts:13-21 | after a `set` the state is the write; when the snapshot text fits, reading the store's key gives it back; when it does not, storage is as it was; other keys are never touched |
| Session.CommitAll | src/hooks/usePersistentStore.ts:13-21 | after a run of writes the state is the last write and storage keys other than the store's are untouched |
| Session.Dispatch | src/hooks/usePersistentStore.ts:13-21 | dispatching an action leaves the state the action leaves behind |
| Session.Boot | src/hooks/usePersistentStore.ts:22-32 | without a usable stored record the store starts from its initial state; a well-typed stored record supplies every data field, transient flags included; a record lacking fields takes each field from the record when present and from the initial state otherwise |
| Session.ReloadRestoresState | src/hooks/usePersistentStore.ts:13-32 | if the last write was saved, booting restores exactly that state, transient flags included |
| Session.ReloadMidGroupRunBlocksGroupChat | src/stores/appStore.ts:160-218 | a reload during a group conversation boots with the conversation marked running; no later action clears the mark, and every later group conversation is a no-op |
| Session.ReloadMidChatBlocksChat | src/stores/appStore.ts:90-101 | a reload during a single chat boots with the flag raised, and the next prompt is ignored |
| Session.ReloadMidConnectSkipsAutoConnect | src/pages/HomePage.tsx:368-387 | a reload during a connection attempt boots in `connecting`, which the start-up effect treats as nothing to do; the reset boot starts idle |
| Session.BootIdle | src/hooks/usePersistentStore.ts:22-32 | (corrected) booting restores the same stored data but resets the three transient fields |
| Session.ReloadMidGroupRunRecovers | src/stores/appStore.ts:160-218 | (corrected) with the reset boot, a reload during a group conversation keeps its log and participants and lets a new conversation start; the connection is idle so the page reconnects |
| Session.ReloadMidChatRecovers | src/stores/appStore.ts:90-101 | (corrected) with the reset boot, a reload during a single chat keeps the log and the selection and accepts the next prompt |

Helpers without a row of their own are pinned down by the rows that use them:
`Framing.IsBlank` (white-space-only line) by `Framing.TrimEmptyIffBlank`, which shows it is `trim() === ''`, and by `Framing.HandleLinesByFrames`;
`Framing.CompleteLines` by `Framing.LinesThenFragment`;
`Group.MaxTurns` and `Group.Speaker` by `Group.EachSpeaksTwice`;
`Store.SentPrompt` by `Store.StartChat` and `Group.GroupConversationRequests`;
`Session.Quiesce` by `Session.BootIdle`.

## Left out

- The React components are not modelled: `HomePage`, `CharacterSheet` and `SettingsDialog`. Only the start-up effect that connects when idle (HomePage.tsx:368-387) appears, as the `connectionState == Idle` condition.
- `workerService.streamChat` is not part of this model. The remote backend appears only as the `Remote` choice of a request, which carries no system prompt, and as a stream outcome parameter.
- `checkConnection` and `getModels` make network calls. Their combined result is the `Store.Probe` parameter; a failed listing and an unreachable server are both the error path.
- `TextDecoder` and UTF-8 are left out. Each read is the decoded string. A multi-byte character cut between reads is out of scope.
- `JSON.parse` of a stream line is a parameter. It returns the line's content and `done` fields, or nothing when parsing or reading a field throws. A content that is present but not a string is not represented.
- The snapshot codec (`JSON.stringify`/`JSON.parse`) is a parameter. The round trip is assumed only at the record it is applied to.
- Stored JSON that is not an object (an array, a number, `null`) is not represented.
- Stored keys other than the thirteen data fields are not represented: snapshot keys are the `Session.Field` datatype. The source spreads every stored key into the state (`{...initialState, ...storedState}`), so a stored key named after an action would replace that action, and the components would call the stored value instead.
- Session.Restore: a stored field with the wrong type makes booting give no state. The source would carry the ill-typed value on.
- Console logging, the `replace` argument that the middleware drops, and immer's `produce` are not modelled. Every write is a whole state.
- Interleaving is not modelled: every asynchronous action runs to completion before the next one starts. Concurrent `set` calls from two streams in flight are out of scope.
- The wording of errors thrown as non-`Error` values is not modelled ("An unknown error occurred"). Failures carry their message as given.
- Store.ConnectToOllama: the probe folds "connected but listing failed" into the error path, as the source's `catch` does. Which of the two requests failed is not kept.

## Findings

| source | as written | input that shows it | evidently intended | confidence | as-written member | corrected member |
|---|---|---|---|---|---|---|
| src/hooks/usePersistentStore.ts:17 | every write saves the whole state, including `isOrchestrating`, and only a running `startGroupConversation` clears that flag | select two characters, start a group conversation and reload the page after its first write: the store boots with `isOrchestrating = true`, the page shows "Conversation in progress..." and every later group conversation returns at once (Session.ReloadMidGroupRunBlocksGroupChat; the corrected boot is Session.ReloadMidGroupRunRecovers) | the transient flags are not restored on load, so a reload ends the interrupted conversation | high (not executed) | Session.Boot | Session.BootIdle |
| src/hooks/usePersistentStore.ts:17 | `isGenerating` is saved mid-stream as well | select a character, send a prompt and reload before the reply settles: the store boots with `isGenerating = true` and `startChat` ignores every prompt until a group conversation happens to reset the flag (Session.ReloadMidChatBlocksChat; corrected: Session.ReloadMidChatRecovers) | the flag is false after a reload | high (not executed) | Session.Boot | Session.BootIdle |
| src/hooks/usePersistentStore.ts:17 | `connectionState` is saved, including `connecting` | reload while the connection check is pending: the store boots in `connecting`, and the start-up effect (HomePage.tsx:384) connects only when idle (Session.ReloadMidConnectSkipsAutoConnect, which also proves the corrected boot idle) | every page load starts idle and connects once | medium (not executed) | Session.Boot | Session.BootIdle |
