/** The conversation store of `src/stores/appStore.ts`: one state record and
    its actions as pure transitions.

    Every action returns the states it hands to `set`, in order (its
    "writes"); the last write is the state after the action and an empty
    sequence means the action returned without calling `set`. Asynchronous
    actions run to completion in one step: the network results they await
    are parameters. Fresh ids (`uuidv4`) are parameters too; where a
    property needs them to be fresh it says so as a hypothesis. */
module Store {
  import opened Wrappers
  import opened Types

  datatype ConnectionState = Idle | Connecting | Connected | Error

  datatype AppState = AppState(
    ollamaApiUrl: string,
    connectionState: ConnectionState,
    characters: seq<Character>,
    models: seq<Model>,
    activeCharacterId: Option<string>,
    chatMessages: seq<ChatMessage>,
    isGenerating: bool,
    isSettingsOpen: bool,
    isCharacterSheetOpen: bool,
    editingCharacterId: Option<string>,
    isGroupChatMode: bool,
    groupChatParticipantIds: seq<string>,
    isOrchestrating: bool)

  const DefaultApiUrl: string := "http://localhost:11434"

  /** The state the store is created with, before anything is restored. */
  const Defaults: AppState := AppState(
    DefaultApiUrl, Idle, [], ExternalModels, None, [], false,
    false, false, None, false, [], false)

  /** The two chat modes are exclusive: in group mode no single character
      is selected. */
  predicate ModesExclusive(s: AppState)
  {
    s.isGroupChatMode ==> s.activeCharacterId.None?
  }

  predicate UniqueIds(cs: seq<Character>)
  {
    forall i, j :: 0 <= i < j < |cs| ==> cs[i].id != cs[j].id
  }

  predicate NoDuplicates(ids: seq<string>)
  {
    forall i, j :: 0 <= i < j < |ids| ==> ids[i] != ids[j]
  }

  // ---------------------------------------------------------------------
  // Connection

  /** What the two requests of a connection attempt report: the
      reachability probe, then, only when it succeeded, the listed local
      model names (`None` when listing failed). */
  datatype Probe = Unreachable | Reachable(listing: Option<seq<string>>)

  predicate ProbeSucceeds(probe: Probe)
  {
    probe.Reachable? && probe.listing.Some?
  }

  function LocalModels(names: seq<string>): (ms: seq<Model>)
    ensures |ms| == |names|
    ensures forall i :: 0 <= i < |names| ==> ms[i] == Model(names[i], true)
  {
    seq(|names|, i requires 0 <= i < |names| => Model(names[i], true))
  }

  /** The names of the local entries of a catalogue, in order. */
  function LocalNames(ms: seq<Model>): seq<string>
    decreases |ms|
  {
    if ms == [] then []
    else (if ms[0].isLocal then [ms[0].name] else []) + LocalNames(ms[1..])
  }

  /** `connectToOllama`: nothing without a URL; otherwise `connecting`, then
      either `connected` with the listed local models ahead of the remote
      catalogue, or `error` with the remote catalogue alone. */
  function ConnectToOllama(s: AppState, probe: Probe): (writes: seq<AppState>)
    ensures s.ollamaApiUrl == "" <==> writes == []
    ensures s.ollamaApiUrl != "" ==>
      && |writes| == 2
      && writes[0] == s.(connectionState := Connecting)
      && writes[1] == s.(connectionState := writes[1].connectionState, models := writes[1].models)
    ensures s.ollamaApiUrl != "" && ProbeSucceeds(probe) ==>
      var names := probe.listing.value;
      && writes[1].connectionState == Connected
      && |writes[1].models| == |names| + |ExternalModels|
      && (forall i :: 0 <= i < |names| ==> writes[1].models[i] == Model(names[i], true))
      && writes[1].models[|names|..] == ExternalModels
    ensures s.ollamaApiUrl != "" && !ProbeSucceeds(probe) ==>
      writes[1].connectionState == Error && writes[1].models == ExternalModels
  {
    if s.ollamaApiUrl == "" then []
    else
      var connecting := s.(connectionState := Connecting);
      var settled :=
        if ProbeSucceeds(probe)
        then connecting.(connectionState := Connected, models := LocalModels(probe.listing.value) + ExternalModels)
        else connecting.(connectionState := Error, models := ExternalModels);
      [connecting, settled]
  }

  lemma {:induction false} LocalNamesAppend(a: seq<Model>, b: seq<Model>)
    ensures LocalNames(a + b) == LocalNames(a) + LocalNames(b)
    decreases |a|
  {
    if a == [] {
      assert a + b == b;
    } else {
      assert (a + b)[0] == a[0] && (a + b)[1..] == a[1..] + b;
      LocalNamesAppend(a[1..], b);
    }
  }

  lemma {:induction false} LocalNamesOfLocalModels(names: seq<string>)
    ensures LocalNames(LocalModels(names)) == names
    decreases |names|
  {
    if names != [] {
      LocalNamesOfLocalModels(names[1..]);
      assert LocalModels(names)[1..] == LocalModels(names[1..]);
      assert names == [names[0]] + names[1..];
    }
  }

  lemma NoLocalExternalModels()
    ensures LocalNames(ExternalModels) == []
  {
    var ms := ExternalModels;
    assert forall i :: 0 <= i < |ms| ==> !ms[i].isLocal;
    NoLocalNames(ms);
  }

  lemma {:induction false} NoLocalNames(ms: seq<Model>)
    requires forall i :: 0 <= i < |ms| ==> !ms[i].isLocal
    ensures LocalNames(ms) == []
    decreases |ms|
  {
    if ms != [] {
      NoLocalNames(ms[1..]);
    }
  }

  /** No stale local models survive a connection attempt: afterwards the
      local entries of the catalogue are exactly the listed ones on success
      and there are none on failure, whatever the catalogue held before. */
  lemma ConnectRefreshesLocalModels(s: AppState, probe: Probe)
    requires s.ollamaApiUrl != ""
    ensures var after := ConnectToOllama(s, probe)[1];
      LocalNames(after.models) == (if ProbeSucceeds(probe) then probe.listing.value else [])
  {
    NoLocalExternalModels();
    if ProbeSucceeds(probe) {
      LocalNamesAppend(LocalModels(probe.listing.value), ExternalModels);
      LocalNamesOfLocalModels(probe.listing.value);
    }
  }

  // ---------------------------------------------------------------------
  // Characters

  /** `addCharacter`: one new character, with the fresh id, at the end. */
  function AddCharacter(s: AppState, draft: CharacterDraft, newId: string): (r: AppState)
    ensures |r.characters| == |s.characters| + 1
    ensures r.characters[..|s.characters|] == s.characters
    ensures Last(r.characters) ==
      Character(newId, draft.name, draft.systemPrompt, draft.model, AvatarOrDefault(draft.avatar))
    ensures r == s.(characters := r.characters)
  {
    var added := Character(newId, draft.name, draft.systemPrompt, draft.model, AvatarOrDefault(draft.avatar));
    s.(characters := s.characters + [added])
  }

  /** With a fresh id, adding keeps character ids unique. */
  lemma AddKeepsIdsUnique(s: AppState, draft: CharacterDraft, newId: string)
    requires UniqueIds(s.characters)
    requires forall c :: c in s.characters ==> c.id != newId
    ensures UniqueIds(AddCharacter(s, draft, newId).characters)
  {
    var cs := AddCharacter(s, draft, newId).characters;
    forall i, j | 0 <= i < j < |cs| ensures cs[i].id != cs[j].id {
      assert cs[i] == s.characters[i];
      if j < |s.characters| {
        assert cs[j] == s.characters[j];
      } else {
        assert s.characters[i] in s.characters;
      }
    }
  }

  /** `updateCharacter`: same length, same order, same ids; every entry with
      the given id becomes the given character (with a non-empty avatar),
      every other entry is untouched. */
  function UpdateCharacter(s: AppState, c: Character): (r: AppState)
    ensures |r.characters| == |s.characters|
    ensures forall i :: 0 <= i < |s.characters| ==> r.characters[i].id == s.characters[i].id
    ensures forall i :: 0 <= i < |s.characters| && s.characters[i].id != c.id ==>
      r.characters[i] == s.characters[i]
    ensures forall i :: 0 <= i < |s.characters| && s.characters[i].id == c.id ==>
      r.characters[i] == c.(avatar := AvatarOrDefault(c.avatar))
    ensures r == s.(characters := r.characters)
  {
    var cs := s.characters;
    s.(characters := seq(|cs|, i requires 0 <= i < |cs| =>
      if cs[i].id == c.id then c.(avatar := AvatarOrDefault(c.avatar)) else cs[i]))
  }

  /** Updating a character nobody has changes nothing. */
  lemma UpdateUnknownIsNoop(s: AppState, c: Character)
    requires forall x :: x in s.characters ==> x.id != c.id
    ensures UpdateCharacter(s, c) == s
  {
    var r := UpdateCharacter(s, c);
    forall i | 0 <= i < |s.characters| ensures r.characters[i] == s.characters[i] {
      assert s.characters[i] in s.characters;
    }
    assert r.characters == s.characters;
  }

  /** `pIds.filter(pId => pId !== id)`. */
  function Without(ids: seq<string>, id: string): (r: seq<string>)
    ensures forall x :: x in r <==> x in ids && x != id
    ensures |r| <= |ids|
    decreases |ids|
  {
    if ids == [] then []
    else (if ids[0] != id then [ids[0]] else []) + Without(ids[1..], id)
  }

  /** `characters.filter(c => c.id !== id)`. */
  function WithoutCharacter(cs: seq<Character>, id: string): (r: seq<Character>)
    ensures forall c :: c in r <==> c in cs && c.id != id
    ensures |r| <= |cs|
    decreases |cs|
  {
    if cs == [] then []
    else (if cs[0].id != id then [cs[0]] else []) + WithoutCharacter(cs[1..], id)
  }

  /** Deletion keeps roster order: filtering a roster split in two is
      filtering each part. With the membership clause this pins the filter
      down. */
  lemma {:induction false} WithoutCharacterAppend(a: seq<Character>, b: seq<Character>, id: string)
    ensures WithoutCharacter(a + b, id) == WithoutCharacter(a, id) + WithoutCharacter(b, id)
    decreases |a|
  {
    if a == [] {
      assert a + b == b;
    } else {
      assert (a + b)[0] == a[0] && (a + b)[1..] == a[1..] + b;
      WithoutCharacterAppend(a[1..], b, id);
    }
  }

  /** `deleteCharacter`: the character leaves the roster and the group
      selection; the single-chat selection and the visible log are cleared
      exactly when it was the selected character; the generation flags and
      everything else are untouched. */
  function DeleteCharacter(s: AppState, id: string): (r: AppState)
    ensures forall c :: c in r.characters <==> c in s.characters && c.id != id
    ensures forall x :: x in r.groupChatParticipantIds <==> x in s.groupChatParticipantIds && x != id
    ensures s.activeCharacterId == Some(id) ==> r.activeCharacterId == None && r.chatMessages == []
    ensures s.activeCharacterId != Some(id) ==>
      r.activeCharacterId == s.activeCharacterId && r.chatMessages == s.chatMessages
    ensures r.isGenerating == s.isGenerating && r.isOrchestrating == s.isOrchestrating
    ensures r == s.(characters := r.characters, activeCharacterId := r.activeCharacterId,
                    chatMessages := r.chatMessages, groupChatParticipantIds := r.groupChatParticipantIds)
  {
    var wasActive := s.activeCharacterId == Some(id);
    s.(characters := WithoutCharacter(s.characters, id),
       activeCharacterId := if wasActive then None else s.activeCharacterId,
       chatMessages := if wasActive then [] else s.chatMessages,
       groupChatParticipantIds := Without(s.groupChatParticipantIds, id))
  }

  /** The roster invariant "every group participant is a character" is kept
      by deletion. */
  lemma DeleteKeepsRosterConsistent(s: AppState, id: string)
    requires forall x :: x in s.groupChatParticipantIds ==> exists c :: c in s.characters && c.id == x
    ensures var r := DeleteCharacter(s, id);
      forall x :: x in r.groupChatParticipantIds ==> exists c :: c in r.characters && c.id == x
  {
    var r := DeleteCharacter(s, id);
    forall x | x in r.groupChatParticipantIds
      ensures exists c :: c in r.characters && c.id == x
    {
      var c :| c in s.characters && c.id == x;
      assert c in r.characters;
    }
  }

  // ---------------------------------------------------------------------
  // Mode selection

  /** `setActiveCharacterId`: ignored in group mode and when the id is
      already selected; otherwise selects it and clears the log. */
  function SetActiveCharacterId(s: AppState, id: Option<string>): (writes: seq<AppState>)
    ensures s.isGroupChatMode || s.activeCharacterId == id ==> writes == []
    ensures !s.isGroupChatMode && s.activeCharacterId != id ==>
      writes == [s.(activeCharacterId := id, chatMessages := [])]
    ensures forall w :: w in writes ==> !w.isGroupChatMode
  {
    if s.isGroupChatMode then []
    else if s.activeCharacterId == id then []
    else [s.(activeCharacterId := id, chatMessages := [])]
  }

  /** `toggleGroupChatMode`: flips the mode and clears the group selection,
      the log and the single selection, so the modes end up exclusive. */
  function ToggleGroupChatMode(s: AppState): (r: AppState)
    ensures r.isGroupChatMode == !s.isGroupChatMode
    ensures r.groupChatParticipantIds == [] && r.chatMessages == [] && r.activeCharacterId == None
    ensures ModesExclusive(r)
    ensures r == s.(isGroupChatMode := r.isGroupChatMode, groupChatParticipantIds := [],
                    chatMessages := [], activeCharacterId := None)
  {
    s.(isGroupChatMode := !s.isGroupChatMode, groupChatParticipantIds := [],
       chatMessages := [], activeCharacterId := None)
  }

  /** `toggleGroupParticipant`: a selected id is removed (every occurrence),
      any other id is appended at the end. Ids are not checked against the
      characters. */
  function ToggleGroupParticipant(s: AppState, id: string): (r: AppState)
    ensures id in s.groupChatParticipantIds ==>
      forall x :: x in r.groupChatParticipantIds <==> x in s.groupChatParticipantIds && x != id
    ensures id !in s.groupChatParticipantIds ==>
      r.groupChatParticipantIds == s.groupChatParticipantIds + [id]
    ensures r == s.(groupChatParticipantIds := r.groupChatParticipantIds)
  {
    var ids := s.groupChatParticipantIds;
    s.(groupChatParticipantIds := if id in ids then Without(ids, id) else ids + [id])
  }

  lemma {:induction false} WithoutKeepsNoDuplicates(ids: seq<string>, id: string)
    requires NoDuplicates(ids)
    ensures NoDuplicates(Without(ids, id))
    decreases |ids|
  {
    if ids != [] {
      assert NoDuplicates(ids[1..]) by {
        forall i, j | 0 <= i < j < |ids[1..]| ensures ids[1..][i] != ids[1..][j] {
          assert ids[1..][i] == ids[i + 1] && ids[1..][j] == ids[j + 1];
        }
      }
      WithoutKeepsNoDuplicates(ids[1..], id);
      var rest := Without(ids[1..], id);
      assert ids[0] !in ids[1..] by {
        forall k | 0 <= k < |ids[1..]| ensures ids[1..][k] != ids[0] {
          assert ids[1..][k] == ids[k + 1];
        }
      }
      assert ids[0] !in rest;
      var r := (if ids[0] != id then [ids[0]] else []) + rest;
      forall i, j | 0 <= i < j < |r| ensures r[i] != r[j] {
        if ids[0] != id && i == 0 {
          assert r[j] == rest[j - 1];
          assert rest[j - 1] in rest;
        }
      }
    }
  }

  /** Toggling keeps the group selection free of duplicates. */
  lemma ToggleKeepsNoDuplicates(s: AppState, id: string)
    requires NoDuplicates(s.groupChatParticipantIds)
    ensures NoDuplicates(ToggleGroupParticipant(s, id).groupChatParticipantIds)
  {
    var ids := s.groupChatParticipantIds;
    if id in ids {
      WithoutKeepsNoDuplicates(ids, id);
    } else {
      var r := ids + [id];
      forall i, j | 0 <= i < j < |r| ensures r[i] != r[j] {
        if j == |ids| {
          assert r[i] == ids[i];
          assert ids[i] in ids;
        }
      }
    }
  }

  lemma {:induction false} WithoutAbsent(ids: seq<string>, id: string)
    requires id !in ids
    ensures Without(ids, id) == ids
    decreases |ids|
  {
    if ids != [] {
      assert id !in ids[1..] by {
        forall k | 0 <= k < |ids[1..]| ensures ids[1..][k] != id {
          assert ids[1..][k] == ids[k + 1];
        }
      }
      WithoutAbsent(ids[1..], id);
      assert ids == [ids[0]] + ids[1..];
    }
  }

  lemma {:induction false} WithoutAppended(ids: seq<string>, id: string)
    requires id !in ids
    ensures Without(ids + [id], id) == ids
    decreases |ids|
  {
    if ids == [] {
      assert Without([id], id) == [] + Without([], id);
    } else {
      assert (ids + [id])[1..] == ids[1..] + [id];
      assert id !in ids[1..] by {
        forall k | 0 <= k < |ids[1..]| ensures ids[1..][k] != id {
          assert ids[1..][k] == ids[k + 1];
        }
      }
      WithoutAppended(ids[1..], id);
      assert ids == [ids[0]] + ids[1..];
    }
  }

  /** Selecting and then deselecting a participant restores the selection. */
  lemma ToggleTwiceRestores(s: AppState, id: string)
    requires id !in s.groupChatParticipantIds
    ensures ToggleGroupParticipant(ToggleGroupParticipant(s, id), id) == s
  {
    WithoutAppended(s.groupChatParticipantIds, id);
  }

  // ---------------------------------------------------------------------
  // Dialogs

  /** `toggleSettings`: opens or closes the settings dialog as asked, or
      flips it when no value is given. */
  function ToggleSettings(s: AppState, isOpen: Option<bool>): (r: AppState)
    ensures isOpen.Some? ==> r.isSettingsOpen == isOpen.value
    ensures isOpen.None? ==> r.isSettingsOpen != s.isSettingsOpen
    ensures r == s.(isSettingsOpen := r.isSettingsOpen)
  {
    s.(isSettingsOpen := isOpen.GetOr(!s.isSettingsOpen))
  }

  /** Flipping the settings dialog twice, or asking for the state it is
      already in, changes nothing. */
  lemma ToggleSettingsRestores(s: AppState)
    ensures ToggleSettings(ToggleSettings(s, None), None) == s
    ensures ToggleSettings(s, Some(s.isSettingsOpen)) == s
  {
  }

  /** `toggleCharacterSheet`: opens, closes or flips the sheet; an explicit
      close forgets the edited character, otherwise the given id (none by
      default) becomes the one edited. */
  function ToggleCharacterSheet(s: AppState, isOpen: Option<bool>, editingId: Option<string>): (r: AppState)
    ensures isOpen.Some? ==> r.isCharacterSheetOpen == isOpen.value
    ensures isOpen.None? ==> r.isCharacterSheetOpen != s.isCharacterSheetOpen
    ensures isOpen == Some(false) ==> r.editingCharacterId.None?
    ensures isOpen != Some(false) ==> r.editingCharacterId == editingId
    ensures r == s.(isCharacterSheetOpen := r.isCharacterSheetOpen, editingCharacterId := r.editingCharacterId)
  {
    s.(isCharacterSheetOpen := isOpen.GetOr(!s.isCharacterSheetOpen),
       editingCharacterId := if isOpen == Some(false) then None else editingId)
  }

  /** Flipping the sheet closed, even with an id, leaves an id behind: only
      an explicit close clears it. */
  lemma FlipClosedKeepsEditingId(s: AppState, id: string)
    requires s.isCharacterSheetOpen
    ensures var r := ToggleCharacterSheet(s, None, Some(id));
      !r.isCharacterSheetOpen && r.editingCharacterId == Some(id)
    ensures ToggleCharacterSheet(s, Some(false), Some(id)).editingCharacterId.None?
  {
  }

  // ---------------------------------------------------------------------
  // Streaming a reply into the log

  /** Which transport serves a request. */
  datatype Backend = Local | Remote

  /** What a turn hands to the transport. The system prompt is absent when
      the transport takes none. */
  datatype Request = Request(backend: Backend, model: string, history: seq<ChatMessage>, systemPrompt: Option<string>)

  /** The system prompt a request carries: the local client is given the
      character's prompt, while the remote transport is called with the
      model and the messages alone. */
  function SentPrompt(backend: Backend, prompt: string): (sent: Option<string>)
    ensures sent.Some? <==> backend == Local
    ensures sent.Some? ==> sent.value == prompt
  {
    if backend == Local then Some(prompt) else None
  }

  /** The states an action writes and the requests it sends, in order. */
  datatype Run = Run(writes: seq<AppState>, requests: seq<Request>)

  /** `models.find(m => m.name === name)`: the first entry with that name. */
  function FindModel(models: seq<Model>, name: string): (r: Option<Model>)
    ensures r.None? <==> forall i :: 0 <= i < |models| ==> models[i].name != name
    ensures r.Some? ==> exists i :: (0 <= i < |models| && models[i] == r.value && models[i].name == name
      && forall j :: 0 <= j < i ==> models[j].name != name)
    decreases |models|
  {
    if models == [] then None
    else if models[0].name == name then Some(models[0])
    else
      var r := FindModel(models[1..], name);
      assert r.Some? ==> exists i :: (0 <= i < |models| && models[i] == r.value && models[i].name == name
        && forall j :: 0 <= j < i ==> models[j].name != name) by {
        if r.Some? {
          var i :| 0 <= i < |models[1..]| && models[1..][i] == r.value && models[1..][i].name == name
            && forall j :: 0 <= j < i ==> models[1..][j].name != name;
          assert models[i + 1] == r.value;
          forall j | 0 <= j < i + 1 ensures models[j].name != name {
            if j > 0 { assert models[j] == models[1..][j - 1]; }
          }
        }
      }
      assert r.None? ==> forall i :: 0 <= i < |models| ==> models[i].name != name by {
        if r.None? {
          forall i | 0 <= i < |models| ensures models[i].name != name {
            if i > 0 { assert models[i] == models[1..][i - 1]; }
          }
        }
      }
      r
  }

  /** `modelInfo?.isLocal ?? false`: local exactly when the first catalogue
      entry with the character's model name is local; an unknown name goes
      to the remote transport. */
  function ChooseBackend(models: seq<Model>, name: string): (b: Backend)
    ensures b == Local <==> exists i :: (0 <= i < |models| && models[i].name == name && models[i].isLocal
      && forall j :: 0 <= j < i ==> models[j].name != name)
    ensures (forall i :: 0 <= i < |models| ==> models[i].name != name) ==> b == Remote
  {
    var found := FindModel(models, name);
    if found.Some? && found.value.isLocal then Local else Remote
  }

  /** After a successful connection every listed model runs locally, even
      when a remote entry carries the same name. */
  lemma ListedModelsRunLocally(s: AppState, probe: Probe, k: nat)
    requires s.ollamaApiUrl != "" && ProbeSucceeds(probe)
    requires k < |probe.listing.value|
    ensures ChooseBackend(ConnectToOllama(s, probe)[1].models, probe.listing.value[k]) == Local
  {
    var names := probe.listing.value;
    var ms := ConnectToOllama(s, probe)[1].models;
    var first :| (0 <= first <= k && names[first] == names[k]
      && forall j :: 0 <= j < first ==> names[j] != names[k]) by {
      FirstOccurrence(names, k);
    }
    assert ms[first] == Model(names[first], true);
    forall j | 0 <= j < first
      ensures ms[j].name != names[k]
    {
      assert ms[j] == Model(names[j], true);
    }
  }

  lemma FirstOccurrence(names: seq<string>, k: nat)
    requires k < |names|
    ensures exists first :: (0 <= first <= k && names[first] == names[k]
      && forall j :: 0 <= j < first ==> names[j] != names[k])
  {
    var first := 0;
    while names[first] != names[k]
      invariant 0 <= first <= k
      invariant forall j :: 0 <= j < first ==> names[j] != names[k]
      decreases k - first
    {
      first := first + 1;
    }
  }

  /** The text a finished stream leaves in its message: the chunks in order,
      then, on failure, the error annotation. */
  function ReplyText(o: StreamOutcome): string
  {
    Concat(o.chunks) + (if o.end.Failed? then ErrorNote(o.end.message) else "")
  }

  function ErrorNote(message: string): (note: string)
    ensures |note| == |message| + 13
    ensures note[..13] == "\n\n**Error:** " && note[13..] == message
  {
    "\n\n**Error:** " + message
  }

  /** `chatMessages.map(m => m.id === id ? {...m, content: m.content + text} : m)`:
      the message addressed by id grows, every other message is unchanged. */
  function AppendToMessage(log: seq<ChatMessage>, id: string, text: string): (r: seq<ChatMessage>)
    ensures |r| == |log|
    ensures forall i :: 0 <= i < |log| ==>
      r[i] == if log[i].id == id then log[i].(content := log[i].content + text) else log[i]
  {
    seq(|log|, i requires 0 <= i < |log| =>
      if log[i].id == id then log[i].(content := log[i].content + text) else log[i])
  }

  lemma AppendTwice(log: seq<ChatMessage>, id: string, a: string, b: string)
    ensures AppendToMessage(AppendToMessage(log, id, a), id, b) == AppendToMessage(log, id, a + b)
  {
    var x := AppendToMessage(AppendToMessage(log, id, a), id, b);
    var y := AppendToMessage(log, id, a + b);
    forall i | 0 <= i < |log| ensures x[i] == y[i] {
      assert log[i].content + a + b == log[i].content + (a + b);
    }
  }

  /** Appending to a freshly added message addressed by a fresh id touches
      only that message. */
  lemma AppendToFreshMessage(log: seq<ChatMessage>, m: ChatMessage, text: string)
    requires forall i :: 0 <= i < |log| ==> log[i].id != m.id
    ensures AppendToMessage(log + [m], m.id, text) == log + [m.(content := m.content + text)]
  {
    var x := AppendToMessage(log + [m], m.id, text);
    var y := log + [m.(content := m.content + text)];
    forall i | 0 <= i < |log| + 1 ensures x[i] == y[i] {
      if i < |log| { assert (log + [m])[i] == log[i]; }
    }
  }

  /** The state once a stream has settled, in one step: the whole reply
      text appended to the addressed message and the generation flag
      cleared. */
  function Settle(s: AppState, id: string, o: StreamOutcome): AppState
  {
    s.(chatMessages := AppendToMessage(s.chatMessages, id, ReplyText(o)), isGenerating := false)
  }

  /** The writes of one stream, shared by `startChat` and every group turn:
      one per chunk (`onChunk`), then one for the terminal callback
      (`onDone` / `onError`). Chunk writes leave the flag alone; the last
      write is the settled state, so the addressed message ends with the
      ordered concatenation of the chunks (plus the error annotation) and
      nothing else in the state changed. */
  function StreamWrites(s: AppState, id: string, o: StreamOutcome): (w: seq<AppState>)
    ensures |w| == |o.chunks| + 1
    ensures Last(w) == Settle(s, id, o)
    ensures forall k :: 0 <= k < |w| - 1 ==> w[k].isGenerating == s.isGenerating
    ensures forall k :: 0 <= k < |w| ==>
      w[k] == s.(chatMessages := w[k].chatMessages, isGenerating := w[k].isGenerating)
    decreases |o.chunks|
  {
    if o.chunks == [] then
      var note := if o.end.Failed? then ErrorNote(o.end.message) else "";
      assert ReplyText(o) == note by { assert Concat(o.chunks) == ""; }
      [s.(chatMessages := AppendToMessage(s.chatMessages, id, note), isGenerating := false)]
    else
      var s1 := s.(chatMessages := AppendToMessage(s.chatMessages, id, o.chunks[0]));
      var rest := StreamWrites(s1, id, StreamOutcome(o.chunks[1..], o.end));
      AppendTwice(s.chatMessages, id, o.chunks[0],
                  ReplyText(StreamOutcome(o.chunks[1..], o.end)));
      assert o.chunks[0] + ReplyText(StreamOutcome(o.chunks[1..], o.end)) == ReplyText(o);
      [s1] + rest
  }

  /** Each chunk write holds the reply grown by exactly the chunks received
      so far, in order: the reply is built up one chunk per write, never
      coalesced into a later one. */
  lemma {:induction false} StreamWritesGrowByChunk(s: AppState, id: string, o: StreamOutcome)
    ensures var w := StreamWrites(s, id, o);
      forall k :: 0 <= k < |o.chunks| ==>
        w[k].chatMessages == AppendToMessage(s.chatMessages, id, Concat(o.chunks[..k + 1]))
    decreases |o.chunks|
  {
    if o.chunks != [] {
      var c := o.chunks[0];
      var s1 := s.(chatMessages := AppendToMessage(s.chatMessages, id, c));
      var o1 := StreamOutcome(o.chunks[1..], o.end);
      StreamWritesGrowByChunk(s1, id, o1);
      var w := StreamWrites(s, id, o);
      assert w == [s1] + StreamWrites(s1, id, o1);
      forall k | 0 <= k < |o.chunks|
        ensures w[k].chatMessages == AppendToMessage(s.chatMessages, id, Concat(o.chunks[..k + 1]))
      {
        var p := o.chunks[..k + 1];
        assert p[0] == c && p[1..] == o1.chunks[..k];
        if k == 0 {
          assert Concat(p) == c by { assert p[1..] == []; }
        } else {
          assert w[k] == StreamWrites(s1, id, o1)[k - 1];
          AppendTwice(s.chatMessages, id, c, Concat(o1.chunks[..k]));
        }
      }
    }
  }

  // ---------------------------------------------------------------------
  // Single chat

  /** `characters.find(c => c.id === activeCharacterId)`; nothing matches a
      missing selection. */
  function FindCharacter(cs: seq<Character>, id: Option<string>): (r: Option<Character>)
    ensures r.Some? ==> id.Some? && r.value in cs && r.value.id == id.value
    ensures r.Some? ==> exists i :: (0 <= i < |cs| && cs[i] == r.value
      && forall j :: 0 <= j < i ==> cs[j].id != id.value)
    ensures r.None? ==> id.None? || forall c :: c in cs ==> c.id != id.value
    decreases |cs|
  {
    if id.None? || cs == [] then None
    else if cs[0].id == id.value then Some(cs[0])
    else
      var r := FindCharacter(cs[1..], id);
      assert r.Some? ==> exists i :: (0 <= i < |cs| && cs[i] == r.value
        && forall j :: 0 <= j < i ==> cs[j].id != id.value) by {
        if r.Some? {
          var i :| 0 <= i < |cs[1..]| && cs[1..][i] == r.value
            && forall j :: 0 <= j < i ==> cs[1..][j].id != id.value;
          assert cs[i + 1] == r.value;
          forall j | 0 <= j < i + 1 ensures cs[j].id != id.value {
            if j > 0 { assert cs[j] == cs[1..][j - 1]; }
          }
        }
      }
      r
  }

  function Placeholder(id: string, speaker: Character): ChatMessage
  {
    ChatMessage(id, Assistant, "", Some(speaker.id), Some(speaker.name))
  }

  function UserMessage(id: string, prompt: string): ChatMessage
  {
    ChatMessage(id, User, prompt, None, None)
  }

  /** `startChat`: a no-op without a selected character that exists or while
      generating. Otherwise the log grows by the prompt and an empty reply
      stamped with the character; the request carries the log without that
      placeholder, the character's model, and the backend the catalogue
      names, plus the system prompt only when that backend is local; then
      the stream's writes follow. */
  function StartChat(s: AppState, prompt: string, userId: string, assistantId: string, outcome: StreamOutcome): (run: Run)
    ensures run.writes == [] <==>
      s.isGenerating || s.activeCharacterId.None? ||
      forall c :: c in s.characters ==> c.id != s.activeCharacterId.value
    ensures run.writes == [] ==> run.requests == []
    ensures run.writes != [] ==>
      var c := FindCharacter(s.characters, s.activeCharacterId).value;
      && c in s.characters && Some(c.id) == s.activeCharacterId
      && |run.writes| == |outcome.chunks| + 2
      && run.writes[0] == s.(chatMessages := s.chatMessages + [UserMessage(userId, prompt), Placeholder(assistantId, c)],
                             isGenerating := true)
      && run.requests == [Request(ChooseBackend(s.models, c.model), c.model,
                                  s.chatMessages + [UserMessage(userId, prompt)],
                                  if ChooseBackend(s.models, c.model) == Local then Some(c.systemPrompt) else None)]
      && run.writes[1..] == StreamWrites(run.writes[0], assistantId, outcome)
      && Last(run.writes) == Settle(run.writes[0], assistantId, outcome)
    ensures forall k :: 0 <= k < |run.writes| - 1 ==> run.writes[k].isGenerating
    ensures forall k :: 0 <= k < |run.writes| ==>
      run.writes[k] == s.(chatMessages := run.writes[k].chatMessages, isGenerating := run.writes[k].isGenerating)
  {
    var found := FindCharacter(s.characters, s.activeCharacterId);
    if found.None? || s.isGenerating then Run([], [])
    else
      var c := found.value;
      var user := UserMessage(userId, prompt);
      var started := s.(chatMessages := s.chatMessages + [user, Placeholder(assistantId, c)], isGenerating := true);
      var history := started.chatMessages[..|started.chatMessages| - 1];
      assert history == s.chatMessages + [user];
      var streamed := StreamWrites(started, assistantId, outcome);
      var backend := ChooseBackend(s.models, c.model);
      Run([started] + streamed, [Request(backend, c.model, history, SentPrompt(backend, c.systemPrompt))])
  }

  /** With fresh message ids, a single chat ends with the log grown by exactly
      the prompt and the finished reply, whose text is the chunks in order
      (plus the error annotation on failure), and with the flag cleared. */
  lemma StartChatTranscript(s: AppState, prompt: string, userId: string, assistantId: string, outcome: StreamOutcome)
    requires !s.isGenerating
    requires s.activeCharacterId.Some? && exists c :: c in s.characters && c.id == s.activeCharacterId.value
    requires userId != assistantId
    requires forall i :: 0 <= i < |s.chatMessages| ==> s.chatMessages[i].id != assistantId
    ensures var run := StartChat(s, prompt, userId, assistantId, outcome);
      var c := FindCharacter(s.characters, s.activeCharacterId).value;
      Last(run.writes) == s.(chatMessages := s.chatMessages +
                               [UserMessage(userId, prompt), Placeholder(assistantId, c).(content := ReplyText(outcome))],
                             isGenerating := false)
  {
    var c := FindCharacter(s.characters, s.activeCharacterId).value;
    var log := s.chatMessages + [UserMessage(userId, prompt)];
    var ph := Placeholder(assistantId, c);
    assert s.chatMessages + [UserMessage(userId, prompt), ph] == log + [ph];
    AppendToFreshMessage(log, ph, ReplyText(outcome));
    assert "" + ReplyText(outcome) == ReplyText(outcome);
  }

  /** With no local entry in the catalogue, as before any successful
      connection, a chat goes to the remote transport and its request
      carries no system prompt. */
  lemma RemoteChatSendsNoPrompt(s: AppState, prompt: string, userId: string, assistantId: string, outcome: StreamOutcome)
    requires forall i :: 0 <= i < |s.models| ==> !s.models[i].isLocal
    ensures forall r :: r in StartChat(s, prompt, userId, assistantId, outcome).requests ==>
      r.backend == Remote && r.systemPrompt == None
  {
  }

  /** The default catalogue has no local entry, so a fresh session sends
      no system prompt with any chat. */
  lemma DefaultCatalogueIsRemote()
    ensures forall i :: 0 <= i < |Defaults.models| ==> !Defaults.models[i].isLocal
  {
  }

  /** A failed single chat with no chunks leaves exactly the error annotation
      in the reply. */
  lemma FailedChatShowsError(s: AppState, prompt: string, userId: string, assistantId: string, message: string)
    requires !s.isGenerating
    requires s.activeCharacterId.Some? && exists c :: c in s.characters && c.id == s.activeCharacterId.value
    requires userId != assistantId
    requires forall i :: 0 <= i < |s.chatMessages| ==> s.chatMessages[i].id != assistantId
    ensures var final := Last(StartChat(s, prompt, userId, assistantId, StreamOutcome([], Failed(message))).writes);
      && !final.isGenerating
      && final.chatMessages[|final.chatMessages| - 1].content == "\n\n**Error:** " + message
  {
    var o := StreamOutcome([], Failed(message));
    StartChatTranscript(s, prompt, userId, assistantId, o);
    assert ReplyText(o) == "\n\n**Error:** " + message by { assert Concat(o.chunks) == ""; }
    var c := FindCharacter(s.characters, s.activeCharacterId).value;
    var log := s.chatMessages + [UserMessage(userId, prompt), Placeholder(assistantId, c).(content := ReplyText(o))];
    assert log[|log| - 1].content == ReplyText(o);
  }
}
