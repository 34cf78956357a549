/** The persistent store as a whole (`src/stores/appStore.ts` created
    through `src/hooks/usePersistentStore.ts`): every action as a step over
    states, the JSON snapshot of the data fields, saving after every write,
    and booting from storage. */
module Session {
  import opened Wrappers
  import opened Types
  import Store
  import Group
  import Persist

  // ---------------------------------------------------------------------
  // Actions

  /** The store's actions, with the values they draw from outside (fresh
      ids, the connection probe, the streams' outcomes) as arguments. */
  datatype Action =
    | SetOllamaApiUrl(url: string)
    | ConnectToOllama(probe: Store.Probe)
    | AddCharacter(draft: CharacterDraft, newId: string)
    | UpdateCharacter(character: Character)
    | DeleteCharacter(id: string)
    | SetActiveCharacterId(activeId: Option<string>)
    | StartChat(prompt: string, userId: string, assistantId: string, outcome: StreamOutcome)
    | ToggleSettings(isOpen: Option<bool>)
    | ToggleCharacterSheet(sheetOpen: Option<bool>, editingId: Option<string>)
    | ToggleGroupChatMode
    | ToggleGroupParticipant(participantId: string)
    | StartGroupConversation(initialPrompt: string, seedId: string,
                             turnId: nat -> string, respond: nat -> StreamOutcome)

  /** The states an action hands to `set`, in order. The synchronous
      actions other than `setActiveCharacterId` write exactly once. */
  function Step(s: Store.AppState, a: Action): (writes: seq<Store.AppState>)
    ensures !(a.ConnectToOllama? || a.SetActiveCharacterId? || a.StartChat? || a.StartGroupConversation?) ==>
      |writes| == 1
    ensures a.SetOllamaApiUrl? ==> writes == [s.(ollamaApiUrl := a.url)]
  {
    match a
    case SetOllamaApiUrl(url) => [s.(ollamaApiUrl := url)]
    case ConnectToOllama(probe) => Store.ConnectToOllama(s, probe)
    case AddCharacter(draft, newId) => [Store.AddCharacter(s, draft, newId)]
    case UpdateCharacter(c) => [Store.UpdateCharacter(s, c)]
    case DeleteCharacter(id) => [Store.DeleteCharacter(s, id)]
    case SetActiveCharacterId(id) => Store.SetActiveCharacterId(s, id)
    case StartChat(prompt, userId, assistantId, outcome) =>
      Store.StartChat(s, prompt, userId, assistantId, outcome).writes
    case ToggleSettings(isOpen) => [Store.ToggleSettings(s, isOpen)]
    case ToggleCharacterSheet(isOpen, editingId) => [Store.ToggleCharacterSheet(s, isOpen, editingId)]
    case ToggleGroupChatMode => [Store.ToggleGroupChatMode(s)]
    case ToggleGroupParticipant(id) => [Store.ToggleGroupParticipant(s, id)]
    case StartGroupConversation(prompt, seedId, turnId, respond) =>
      Group.StartGroupConversation(s, prompt, seedId, turnId, respond).writes
  }

  /** The state an action leaves behind. */
  function After(s: Store.AppState, a: Action): Store.AppState
  {
    var writes := Step(s, a);
    if writes == [] then s else Last(writes)
  }

  /** The state a sequence of actions leaves behind, one after the other. */
  function Replay(s: Store.AppState, actions: seq<Action>): Store.AppState
    decreases |actions|
  {
    if actions == [] then s else Replay(After(s, actions[0]), actions[1..])
  }

  /** No action ever produces a state with a character selected in group
      mode. */
  lemma ModesStayExclusive(s: Store.AppState, a: Action)
    requires Store.ModesExclusive(s)
    ensures forall w :: w in Step(s, a) ==> Store.ModesExclusive(w)
  {
    if a.StartChat? || a.StartGroupConversation? {
      RunsKeepModes(s, a);
    } else {
      SyncStepKeepsModes(s, a);
    }
  }

  /** The two conversations touch neither the mode nor the selection. */
  lemma RunsKeepModes(s: Store.AppState, a: Action)
    requires a.StartChat? || a.StartGroupConversation?
    ensures forall w :: w in Step(s, a) ==>
      w.isGroupChatMode == s.isGroupChatMode && w.activeCharacterId == s.activeCharacterId
  {
    if a.StartChat? {
      var writes := Step(s, a);
      forall w | w in writes
        ensures w.isGroupChatMode == s.isGroupChatMode && w.activeCharacterId == s.activeCharacterId
      {
        var k :| 0 <= k < |writes| && writes[k] == w;
      }
    }
  }

  /** The synchronous actions keep the modes exclusive. */
  lemma SyncStepKeepsModes(s: Store.AppState, a: Action)
    requires Store.ModesExclusive(s)
    requires !(a.StartChat? || a.StartGroupConversation?)
    ensures forall w :: w in Step(s, a) ==> Store.ModesExclusive(w)
  {
  }

  /** Modes stay exclusive over any sequence of actions. */
  lemma {:induction false} ModesExclusiveAlways(s: Store.AppState, actions: seq<Action>)
    requires Store.ModesExclusive(s)
    ensures Store.ModesExclusive(Replay(s, actions))
    decreases |actions|
  {
    if actions != [] {
      ModesStayExclusive(s, actions[0]);
      var writes := Step(s, actions[0]);
      if writes != [] {
        assert Last(writes) in writes;
      }
      ModesExclusiveAlways(After(s, actions[0]), actions[1..]);
    }
  }

  /** While a group conversation is marked as running, every action keeps
      the mark: only the conversation that raised it lowers it. */
  lemma OrchestratingIsSticky(s: Store.AppState, a: Action)
    requires s.isOrchestrating
    ensures forall w :: w in Step(s, a) ==> w.isOrchestrating
  {
    if a.StartChat? {
      var writes := Step(s, a);
      forall w | w in writes
        ensures w.isOrchestrating
      {
        var k :| 0 <= k < |writes| && writes[k] == w;
      }
    } else {
      OtherStepsKeepMark(s, a);
    }
  }

  /** Every action but `startChat` keeps a raised mark: only the
      conversation that raised it lowers it. */
  lemma OtherStepsKeepMark(s: Store.AppState, a: Action)
    requires s.isOrchestrating && !a.StartChat?
    ensures forall w :: w in Step(s, a) ==> w.isOrchestrating
  {
  }

  /** So once the mark is up with no conversation running, it never comes
      down, and no later group conversation can start. */
  lemma {:induction false} OrchestratingNeverClears(s: Store.AppState, actions: seq<Action>)
    requires s.isOrchestrating
    ensures Replay(s, actions).isOrchestrating
    decreases |actions|
  {
    if actions != [] {
      OrchestratingIsSticky(s, actions[0]);
      var writes := Step(s, actions[0]);
      if writes != [] {
        assert Last(writes) in writes;
      }
      OrchestratingNeverClears(After(s, actions[0]), actions[1..]);
    }
  }

  // ---------------------------------------------------------------------
  // Snapshots: `JSON.stringify(get())` keeps the data fields and drops
  // the actions.

  /** A value of one data field, as it travels through JSON. */
  datatype FieldValue =
    | Text(text: string)
    | Connection(connection: Store.ConnectionState)
    | CharacterList(characters: seq<Character>)
    | ModelList(models: seq<Model>)
    | NullableId(id: Option<string>)
    | MessageList(messages: seq<ChatMessage>)
    | Flag(flag: bool)
    | IdList(ids: seq<string>)

  /** The keys of the stored JSON object: one per data field, spelled as
      the field (`ollamaApiUrl`, `connectionState`, ...). */
  datatype Field =
    | OllamaApiUrl | ConnectionState | Characters | Models | ActiveCharacterId
    | ChatMessages | IsGenerating | IsSettingsOpen | IsCharacterSheetOpen
    | EditingCharacterId | IsGroupChatMode | GroupChatParticipantIds | IsOrchestrating

  type Snapshot = map<Field, FieldValue>

  /** The key the store persists under. */
  const StorageKey: string := "brutal-ai-store"

  const AllFields: set<Field> := {
    OllamaApiUrl, ConnectionState, Characters, Models, ActiveCharacterId,
    ChatMessages, IsGenerating, IsSettingsOpen, IsCharacterSheetOpen,
    EditingCharacterId, IsGroupChatMode, GroupChatParticipantIds, IsOrchestrating
  }

  /** The snapshot of every data field, transient flags included. */
  function Capture(s: Store.AppState): (m: Snapshot)
    ensures m.Keys == AllFields
  {
    map[
      OllamaApiUrl := Text(s.ollamaApiUrl),
      ConnectionState := Connection(s.connectionState),
      Characters := CharacterList(s.characters),
      Models := ModelList(s.models),
      ActiveCharacterId := NullableId(s.activeCharacterId),
      ChatMessages := MessageList(s.chatMessages),
      IsGenerating := Flag(s.isGenerating),
      IsSettingsOpen := Flag(s.isSettingsOpen),
      IsCharacterSheetOpen := Flag(s.isCharacterSheetOpen),
      EditingCharacterId := NullableId(s.editingCharacterId),
      IsGroupChatMode := Flag(s.isGroupChatMode),
      GroupChatParticipantIds := IdList(s.groupChatParticipantIds),
      IsOrchestrating := Flag(s.isOrchestrating)
    ]
  }

  /** Every data field is present with a value of its type. */
  predicate WellTyped(m: Snapshot)
  {
    && AllFields <= m.Keys
    && m[OllamaApiUrl].Text? && m[ConnectionState].Connection?
    && m[Characters].CharacterList? && m[Models].ModelList?
    && m[ActiveCharacterId].NullableId? && m[ChatMessages].MessageList?
    && m[IsGenerating].Flag? && m[IsSettingsOpen].Flag?
    && m[IsCharacterSheetOpen].Flag? && m[EditingCharacterId].NullableId?
    && m[IsGroupChatMode].Flag? && m[GroupChatParticipantIds].IdList?
    && m[IsOrchestrating].Flag?
  }

  /** The state a merged record describes, when it is well typed. */
  function Restore(m: Snapshot): (r: Option<Store.AppState>)
    ensures r.Some? <==> WellTyped(m)
    ensures r.Some? ==> forall k :: k in AllFields ==> Capture(r.value)[k] == m[k]
  {
    if !WellTyped(m) then None
    else Some(Store.AppState(
      m[OllamaApiUrl].text, m[ConnectionState].connection, m[Characters].characters,
      m[Models].models, m[ActiveCharacterId].id, m[ChatMessages].messages,
      m[IsGenerating].flag, m[IsSettingsOpen].flag, m[IsCharacterSheetOpen].flag,
      m[EditingCharacterId].id, m[IsGroupChatMode].flag, m[GroupChatParticipantIds].ids,
      m[IsOrchestrating].flag))
  }

  /** A snapshot describes its state exactly. */
  lemma RestoreCapture(s: Store.AppState)
    ensures Restore(Capture(s)) == Some(s)
  {
    var m := Capture(s);
    assert m[OllamaApiUrl] == Text(s.ollamaApiUrl) && m[ConnectionState] == Connection(s.connectionState);
    assert m[Characters] == CharacterList(s.characters) && m[Models] == ModelList(s.models);
    assert m[ActiveCharacterId] == NullableId(s.activeCharacterId);
    assert m[ChatMessages] == MessageList(s.chatMessages) && m[IsGenerating] == Flag(s.isGenerating);
    assert m[IsSettingsOpen] == Flag(s.isSettingsOpen);
    assert m[IsCharacterSheetOpen] == Flag(s.isCharacterSheetOpen);
    assert m[EditingCharacterId] == NullableId(s.editingCharacterId);
    assert m[IsGroupChatMode] == Flag(s.isGroupChatMode);
    assert m[GroupChatParticipantIds] == IdList(s.groupChatParticipantIds);
    assert m[IsOrchestrating] == Flag(s.isOrchestrating);
    assert WellTyped(m);
  }

  // ---------------------------------------------------------------------
  // Saving and booting

  /** The store's state together with local storage. */
  datatype Session = Session(state: Store.AppState, storage: Persist.Storage)

  /** One `set` through the middleware: the state becomes the write, then
      its snapshot is saved under the store's key when it fits the quota.
      A later read of that key gives the saved text back; a save that does
      not fit leaves storage as it was; other keys are never touched. */
  function Commit(sess: Session, w: Store.AppState, stringify: Snapshot -> string,
                  fits: string -> bool): (next: Session)
    ensures next.state == w
    ensures fits(stringify(Capture(w))) ==>
      Persist.Read(next.storage, StorageKey) == Persist.Item(Some(stringify(Capture(w))))
    ensures !fits(stringify(Capture(w))) ==> next.storage == sess.storage
    ensures forall k :: k != StorageKey ==>
      && (k in next.storage <==> k in sess.storage)
      && (k in sess.storage ==> next.storage[k] == sess.storage[k])
  {
    Session(w, Persist.Save(sess.storage, StorageKey, stringify(Capture(w)), fits))
  }

  /** A run of writes, each committed in turn. */
  function CommitAll(sess: Session, writes: seq<Store.AppState>, stringify: Snapshot -> string,
                     fits: string -> bool): (after: Session)
    ensures writes == [] ==> after == sess
    ensures writes != [] ==> after.state == Last(writes)
    ensures forall k :: k in sess.storage && k != StorageKey ==>
      k in after.storage && after.storage[k] == sess.storage[k]
    decreases |writes|
  {
    if writes == [] then sess
    else Commit(CommitAll(sess, writes[..|writes| - 1], stringify, fits), Last(writes), stringify, fits)
  }

  /** An action run to completion through the middleware. */
  function Dispatch(sess: Session, a: Action, stringify: Snapshot -> string, fits: string -> bool): (next: Session)
    ensures next.state == After(sess.state, a)
  {
    CommitAll(sess, Step(sess.state, a), stringify, fits)
  }

  /** The store at start-up: the initial state's snapshot overlaid with
      what storage holds, read back into a state. Without a usable stored
      record the store starts from its initial state; a record lacking some
      fields (one saved by an older version) supplies the fields it has and
      leaves the initial value of each other one. */
  function Boot(item: Persist.StoredItem, parse: string -> Option<Snapshot>): (booted: Option<Store.AppState>)
    ensures !(item.Item? && item.value.Some? && item.value.value != "" && parse(item.value.value).Some?) ==>
      booted == Some(Store.Defaults)
    ensures (item.Item? && item.value.Some? && item.value.value != "" && parse(item.value.value).Some? &&
             WellTyped(parse(item.value.value).value)) ==>
      booted.Some? && forall k :: k in AllFields ==> Capture(booted.value)[k] == parse(item.value.value).value[k]
    ensures (item.Item? && item.value.Some? && item.value.value != "" && parse(item.value.value).Some?) ==>
      var stored := parse(item.value.value).value;
      WellTyped(Capture(Store.Defaults) + stored) ==>
        && booted.Some?
        && forall k :: k in AllFields ==>
             Capture(booted.value)[k] == if k in stored then stored[k] else Capture(Store.Defaults)[k]
  {
    RestoreCapture(Store.Defaults);
    Restore(Persist.Load(Capture(Store.Defaults), item, parse))
  }

  /** After a run of writes whose last snapshot was saved, booting restores
      exactly the last state written, transient flags included. */
  lemma ReloadRestoresState(sess: Session, writes: seq<Store.AppState>, stringify: Snapshot -> string,
                            parse: string -> Option<Snapshot>, fits: string -> bool)
    requires writes != []
    requires fits(stringify(Capture(Last(writes))))
    requires Persist.ReadsBack(stringify, parse, Capture(Last(writes)))
    ensures Boot(Persist.Read(CommitAll(sess, writes, stringify, fits).storage, StorageKey), parse) ==
            Some(Last(writes))
  {
    var before := CommitAll(sess, writes[..|writes| - 1], stringify, fits);
    Persist.LoadAfterSave(before.storage, StorageKey, Capture(Last(writes)), Capture(Store.Defaults),
                          stringify, parse, fits);
    RestoreCapture(Last(writes));
  }

  /** Booting after the first `i` writes of a run, the i-th one saved. */
  lemma ReloadAfterPrefix(sess: Session, writes: seq<Store.AppState>, i: nat, stringify: Snapshot -> string,
                          parse: string -> Option<Snapshot>, fits: string -> bool)
    requires 1 <= i <= |writes|
    requires fits(stringify(Capture(writes[i - 1])))
    requires Persist.ReadsBack(stringify, parse, Capture(writes[i - 1]))
    ensures Boot(Persist.Read(CommitAll(sess, writes[..i], stringify, fits).storage, StorageKey), parse) ==
            Some(writes[i - 1])
  {
    var prefix := writes[..i];
    assert Last(prefix) == writes[i - 1];
    ReloadRestoresState(sess, prefix, stringify, parse, fits);
  }

  /** Reloading the page after `i` of the writes of a group conversation,
      before its last one, boots with the conversation marked as running.
      No action ever lowers the mark again, so every later group
      conversation is a no-op. */
  lemma ReloadMidGroupRunBlocksGroupChat(sess: Session, prompt: string, seedId: string,
                                         turnId: nat -> string, respond: nat -> StreamOutcome, i: nat,
                                         stringify: Snapshot -> string, parse: string -> Option<Snapshot>,
                                         fits: string -> bool)
    requires var run := Group.StartGroupConversation(sess.state, prompt, seedId, turnId, respond);
      && 1 <= i < |run.writes|
      && fits(stringify(Capture(run.writes[i - 1])))
      && Persist.ReadsBack(stringify, parse, Capture(run.writes[i - 1]))
    ensures var run := Group.StartGroupConversation(sess.state, prompt, seedId, turnId, respond);
      var booted := Boot(Persist.Read(CommitAll(sess, run.writes[..i], stringify, fits).storage, StorageKey), parse);
      && booted.Some? && booted.value.isOrchestrating
      && (forall actions :: Replay(booted.value, actions).isOrchestrating)
      && (forall actions, p, id, t, r ::
            Group.StartGroupConversation(Replay(booted.value, actions), p, id, t, r).writes == [])
  {
    var run := Group.StartGroupConversation(sess.state, prompt, seedId, turnId, respond);
    ReloadAfterPrefix(sess, run.writes, i, stringify, parse, fits);
    var b := run.writes[i - 1];
    forall actions
      ensures Replay(b, actions).isOrchestrating
    {
      OrchestratingNeverClears(b, actions);
    }
  }

  /** Reloading in the middle of a single chat boots with the reply marked as
      still generating, so the next prompt is ignored. */
  lemma ReloadMidChatBlocksChat(sess: Session, prompt: string, userId: string, assistantId: string,
                                outcome: StreamOutcome, i: nat,
                                stringify: Snapshot -> string, parse: string -> Option<Snapshot>,
                                fits: string -> bool)
    requires var run := Store.StartChat(sess.state, prompt, userId, assistantId, outcome);
      && 1 <= i < |run.writes|
      && fits(stringify(Capture(run.writes[i - 1])))
      && Persist.ReadsBack(stringify, parse, Capture(run.writes[i - 1]))
    ensures var run := Store.StartChat(sess.state, prompt, userId, assistantId, outcome);
      var booted := Boot(Persist.Read(CommitAll(sess, run.writes[..i], stringify, fits).storage, StorageKey), parse);
      && booted.Some? && booted.value.isGenerating
      && (forall p, u, x, o :: Store.StartChat(booted.value, p, u, x, o).writes == [])
  {
    var run := Store.StartChat(sess.state, prompt, userId, assistantId, outcome);
    ReloadAfterPrefix(sess, run.writes, i, stringify, parse, fits);
  }

  // ---------------------------------------------------------------------
  // Booting with the transient fields reset

  /** A state as a fresh page should see it: no connection attempt, no
      stream and no group conversation in progress. */
  function Quiesce(s: Store.AppState): (r: Store.AppState)
    ensures r.connectionState == Store.Idle && !r.isGenerating && !r.isOrchestrating
    ensures r == s.(connectionState := r.connectionState, isGenerating := r.isGenerating,
                    isOrchestrating := r.isOrchestrating)
  {
    s.(connectionState := Store.Idle, isGenerating := false, isOrchestrating := false)
  }

  /** Booting that restores the stored data but not the transient fields. */
  function BootIdle(item: Persist.StoredItem, parse: string -> Option<Snapshot>): (booted: Option<Store.AppState>)
    ensures booted.Some? <==> Boot(item, parse).Some?
    ensures booted.Some? ==> booted.value == Quiesce(Boot(item, parse).value)
  {
    match Boot(item, parse)
    case None => None
    case Some(s) => Some(Quiesce(s))
  }

  /** With the transient fields reset, a reload in the middle of a group
      conversation keeps its log and roster, lets a new conversation start
      over the same participants, and lets the page connect again. */
  lemma ReloadMidGroupRunRecovers(sess: Session, prompt: string, seedId: string,
                                  turnId: nat -> string, respond: nat -> StreamOutcome, i: nat,
                                  stringify: Snapshot -> string, parse: string -> Option<Snapshot>,
                                  fits: string -> bool)
    requires var run := Group.StartGroupConversation(sess.state, prompt, seedId, turnId, respond);
      && 1 <= i < |run.writes|
      && fits(stringify(Capture(run.writes[i - 1])))
      && Persist.ReadsBack(stringify, parse, Capture(run.writes[i - 1]))
    ensures var run := Group.StartGroupConversation(sess.state, prompt, seedId, turnId, respond);
      var booted := BootIdle(Persist.Read(CommitAll(sess, run.writes[..i], stringify, fits).storage, StorageKey), parse);
      && booted == Some(Quiesce(run.writes[i - 1]))
      && booted.value.chatMessages == run.writes[i - 1].chatMessages
      && Group.Participants(booted.value) == Group.Participants(sess.state)
      && booted.value.connectionState == Store.Idle
      && (forall p, id, t, r :: Group.StartGroupConversation(booted.value, p, id, t, r).writes != [])
  {
    var run := Group.StartGroupConversation(sess.state, prompt, seedId, turnId, respond);
    ReloadAfterPrefix(sess, run.writes, i, stringify, parse, fits);
    assert run.writes[i - 1] in run.writes;
  }

  /** With the transient fields reset, a reload in the middle of a single
      chat keeps the log and the selection and accepts the next prompt. */
  lemma ReloadMidChatRecovers(sess: Session, prompt: string, userId: string, assistantId: string,
                              outcome: StreamOutcome, i: nat,
                              stringify: Snapshot -> string, parse: string -> Option<Snapshot>,
                              fits: string -> bool)
    requires var run := Store.StartChat(sess.state, prompt, userId, assistantId, outcome);
      && 1 <= i < |run.writes|
      && fits(stringify(Capture(run.writes[i - 1])))
      && Persist.ReadsBack(stringify, parse, Capture(run.writes[i - 1]))
    ensures var run := Store.StartChat(sess.state, prompt, userId, assistantId, outcome);
      var booted := BootIdle(Persist.Read(CommitAll(sess, run.writes[..i], stringify, fits).storage, StorageKey), parse);
      && booted == Some(Quiesce(run.writes[i - 1]))
      && booted.value.chatMessages == run.writes[i - 1].chatMessages
      && booted.value.activeCharacterId == sess.state.activeCharacterId
      && (forall p, u, x, o :: Store.StartChat(booted.value, p, u, x, o).writes != [])
  {
    var run := Store.StartChat(sess.state, prompt, userId, assistantId, outcome);
    ReloadAfterPrefix(sess, run.writes, i, stringify, parse, fits);
  }

  /** Reloading while a connection attempt is pending boots in `connecting`,
      which the page's start-up effect takes as "nothing to do", so no
      connection is attempted; the reset boot starts idle instead. */
  lemma ReloadMidConnectSkipsAutoConnect(sess: Session, probe: Store.Probe,
                                         stringify: Snapshot -> string, parse: string -> Option<Snapshot>,
                                         fits: string -> bool)
    requires sess.state.ollamaApiUrl != ""
    requires var first := Store.ConnectToOllama(sess.state, probe)[0];
      fits(stringify(Capture(first))) && Persist.ReadsBack(stringify, parse, Capture(first))
    ensures var writes := Store.ConnectToOllama(sess.state, probe);
      var item := Persist.Read(CommitAll(sess, writes[..1], stringify, fits).storage, StorageKey);
      && Boot(item, parse) == Some(writes[0])
      && Boot(item, parse).value.connectionState == Store.Connecting
      && BootIdle(item, parse).value.connectionState == Store.Idle
  {
    var writes := Store.ConnectToOllama(sess.state, probe);
    assert Last(writes[..1]) == writes[0];
    ReloadRestoresState(sess, writes[..1], stringify, parse, fits);
  }
}
