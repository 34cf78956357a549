/** `startGroupConversation` of `src/stores/appStore.ts`: a bounded
    round-robin of streamed turns over the selected characters, strictly
    one turn at a time, that stops at the first failed turn.

    The turn oracle gives, for turn k, the fresh id of its placeholder and
    the outcome of its stream. */
module Group {
  import opened Wrappers
  import opened Types
  import opened Store

  /** `characters.filter(c => groupChatParticipantIds.includes(c.id))`. */
  function SelectMembers(cs: seq<Character>, ids: seq<string>): (r: seq<Character>)
    ensures forall c :: c in r <==> c in cs && c.id in ids
    ensures |r| <= |cs|
    decreases |cs|
  {
    if cs == [] then []
    else (if cs[0].id in ids then [cs[0]] else []) + SelectMembers(cs[1..], ids)
  }

  /** The group's speakers: the selected characters, in roster order. */
  function Participants(s: AppState): (r: seq<Character>)
    ensures forall c :: c in r <==> c in s.characters && c.id in s.groupChatParticipantIds
  {
    SelectMembers(s.characters, s.groupChatParticipantIds)
  }

  /** Speaking order follows the character list, not the order in which the
      participants were selected: selections with the same members give the
      same participants in the same order. */
  lemma {:induction false} SelectionOrderIrrelevant(cs: seq<Character>, a: seq<string>, b: seq<string>)
    requires forall x :: x in a <==> x in b
    ensures SelectMembers(cs, a) == SelectMembers(cs, b)
    decreases |cs|
  {
    if cs != [] {
      SelectionOrderIrrelevant(cs[1..], a, b);
    }
  }

  /** Filtering keeps roster order: the members selected from a roster
      split in two are those of the first part followed by those of the
      second. With the membership clause this pins the filter down. */
  lemma {:induction false} SelectMembersAppend(a: seq<Character>, b: seq<Character>, ids: seq<string>)
    ensures SelectMembers(a + b, ids) == SelectMembers(a, ids) + SelectMembers(b, ids)
    decreases |a|
  {
    if a == [] {
      assert a + b == b;
    } else {
      assert (a + b)[0] == a[0] && (a + b)[1..] == a[1..] + b;
      SelectMembersAppend(a[1..], b, ids);
    }
  }

  /** One group conversation's fixed context: the participants and the
      catalogue snapshotted at the start, and the turn oracle. */
  datatype Script = Script(
    parts: seq<Character>,
    catalogue: seq<Model>,
    turnId: nat -> string,
    respond: nat -> StreamOutcome)

  /** `participants.length * 2`: each character speaks twice. */
  function MaxTurns(sc: Script): nat
  {
    2 * |sc.parts|
  }

  function Speaker(sc: Script, k: nat): Character
    requires |sc.parts| > 0
  {
    sc.parts[k % |sc.parts|]
  }

  /** Round-robin over the participants: with n of them, participant i
      speaks at turns i and i + n and at no other turn below the bound. */
  lemma EachSpeaksTwice(sc: Script, i: nat)
    requires i < |sc.parts|
    ensures Speaker(sc, i) == sc.parts[i] && Speaker(sc, i + |sc.parts|) == sc.parts[i]
    ensures forall j :: 0 <= j < MaxTurns(sc) && j % |sc.parts| == i ==> j == i || j == i + |sc.parts|
  {
    var n := |sc.parts|;
    ModBelow(i, n);
    ModWrap(i + n, n);
    forall j | 0 <= j < MaxTurns(sc) && j % n == i
      ensures j == i || j == i + n
    {
      if j < n {
        ModBelow(j, n);
      } else {
        ModWrap(j, n);
      }
    }
  }

  lemma ModBelow(j: int, n: int)
    requires 0 <= j < n
    ensures j % n == j
  {
  }

  lemma ModWrap(j: int, n: int)
    requires n <= j < 2 * n
    ensures j % n == j - n
  {
    ModBelow(j - n, n);
    assert (j - n) % n == j % n;
  }

  /** Turn k's message once its stream settled. */
  function Reply(sc: Script, k: nat): ChatMessage
    requires |sc.parts| > 0
  {
    Placeholder(sc.turnId(k), Speaker(sc, k)).(content := ReplyText(sc.respond(k)))
  }

  /** The settled replies of the first k turns. */
  function Replies(sc: Script, k: nat): (r: seq<ChatMessage>)
    requires |sc.parts| > 0
    ensures |r| == k
    ensures forall j :: 0 <= j < k ==> r[j] == Reply(sc, j)
  {
    seq(k, j requires 0 <= j < k => Reply(sc, j))
  }

  /** The request turn k sends: the log so far (seed and earlier replies),
      the speaker's model, the backend the snapshotted catalogue names, and
      the speaker's system prompt when that backend is local. */
  function TurnRequest(sc: Script, seed: ChatMessage, k: nat): Request
    requires |sc.parts| > 0
  {
    var speaker := Speaker(sc, k);
    var backend := ChooseBackend(sc.catalogue, speaker.model);
    Request(backend, speaker.model, [seed] + Replies(sc, k), SentPrompt(backend, speaker.systemPrompt))
  }

  /** How many turns run from turn k on: up to the first failed turn
      (included), or up to the bound. */
  function TurnsTaken(sc: Script, k: nat): (t: nat)
    requires k <= MaxTurns(sc)
    ensures k <= t <= MaxTurns(sc)
    ensures k < MaxTurns(sc) ==> k < t
    ensures forall j :: k <= j < t - 1 ==> sc.respond(j).end == Completed
    ensures t < MaxTurns(sc) ==> sc.respond(t - 1).end.Failed?
    decreases MaxTurns(sc) - k
  {
    if k == MaxTurns(sc) then k
    else if sc.respond(k).end.Failed? then k + 1
    else TurnsTaken(sc, k + 1)
  }

  /** Turn k's first write: the speaker's empty placeholder appended and the
      generation flag raised. */
  function Started(s: AppState, sc: Script, k: nat): (r: AppState)
    requires |sc.parts| > 0
    ensures |r.chatMessages| == |s.chatMessages| + 1
    ensures r.chatMessages[..|s.chatMessages|] == s.chatMessages
    ensures var m := r.chatMessages[|s.chatMessages|];
      && m.id == sc.turnId(k) && m.role == Assistant && m.content == ""
      && m.characterId == Some(Speaker(sc, k).id) && m.characterName == Some(Speaker(sc, k).name)
    ensures r.isGenerating
    ensures r == s.(chatMessages := r.chatMessages, isGenerating := r.isGenerating)
  {
    s.(chatMessages := s.chatMessages + [Placeholder(sc.turnId(k), Speaker(sc, k))], isGenerating := true)
  }

  /** All writes of turn k: the placeholder, then the stream's writes. */
  function TurnWrites(s: AppState, sc: Script, k: nat): (w: seq<AppState>)
    requires |sc.parts| > 0
    ensures |w| > 0
    ensures forall x :: x in w ==> x == s.(chatMessages := x.chatMessages, isGenerating := x.isGenerating)
  {
    var started := Started(s, sc, k);
    var streamed := StreamWrites(started, sc.turnId(k), sc.respond(k));
    assert forall x :: x in streamed ==> x == started.(chatMessages := x.chatMessages, isGenerating := x.isGenerating) by {
      forall x | x in streamed
        ensures x == started.(chatMessages := x.chatMessages, isGenerating := x.isGenerating)
      {
        var i :| 0 <= i < |streamed| && streamed[i] == x;
      }
    }
    [started] + streamed
  }

  /** The turn loop from turn k: append the speaker's placeholder and raise
      the flag, send the log without the placeholder, apply the stream, and
      stop after a failed turn (`i = MAX_TURNS`). */
  function RunTurns(s: AppState, sc: Script, k: nat): (run: Run)
    requires |sc.parts| > 0 && k <= MaxTurns(sc)
    ensures k < MaxTurns(sc) ==> |run.writes| > 0
    ensures |run.requests| == TurnsTaken(sc, k) - k
    ensures forall w :: w in run.writes ==>
      w == s.(chatMessages := w.chatMessages, isGenerating := w.isGenerating)
    decreases MaxTurns(sc) - k
  {
    if k == MaxTurns(sc) then Run([], [])
    else
      var speaker := Speaker(sc, k);
      var started := Started(s, sc, k);
      var history := started.chatMessages[..|started.chatMessages| - 1];
      var backend := ChooseBackend(sc.catalogue, speaker.model);
      var request := Request(backend, speaker.model, history, SentPrompt(backend, speaker.systemPrompt));
      var turn := TurnWrites(s, sc, k);
      if sc.respond(k).end.Failed? then Run(turn, [request])
      else
        var rest := RunTurns(Last(turn), sc, k + 1);
        Run(turn + rest.writes, [request] + rest.requests)
  }

  /** The ids of one conversation are pairwise distinct: the seed's and those
      of every possible turn. */
  predicate FreshIds(sc: Script, seedId: string)
  {
    && (forall j :: 0 <= j < MaxTurns(sc) ==> sc.turnId(j) != seedId)
    && (forall i, j :: 0 <= i < j < MaxTurns(sc) ==> sc.turnId(i) != sc.turnId(j))
  }

  /** One turn in isolation: with the log holding the seed and the first k
      replies, the turn sends exactly that log and settles with turn k's
      reply appended and the flag down. */
  lemma TurnSettles(s: AppState, sc: Script, seed: ChatMessage, k: nat)
    requires |sc.parts| > 0 && k < MaxTurns(sc)
    requires FreshIds(sc, seed.id)
    requires s.chatMessages == [seed] + Replies(sc, k)
    ensures var started := Started(s, sc, k);
      && started.chatMessages[..|started.chatMessages| - 1] == [seed] + Replies(sc, k)
      && Last(TurnWrites(s, sc, k)) == s.(chatMessages := [seed] + Replies(sc, k + 1), isGenerating := false)
  {
    var ph := Placeholder(sc.turnId(k), Speaker(sc, k));
    var o := sc.respond(k);
    var log := s.chatMessages;
    forall i | 0 <= i < |log| ensures log[i].id != ph.id {
      if i > 0 {
        assert log[i] == Reply(sc, i - 1);
      }
    }
    AppendToFreshMessage(log, ph, ReplyText(o));
    assert "" + ReplyText(o) == ReplyText(o);
    assert Replies(sc, k) + [Reply(sc, k)] == Replies(sc, k + 1);
    assert log + [ph.(content := ReplyText(o))] == [seed] + Replies(sc, k + 1);
    assert (log + [ph])[..|log + [ph]| - 1] == log;
    var started := Started(s, sc, k);
    var streamed := StreamWrites(started, sc.turnId(k), o);
    assert Last([started] + streamed) == Last(streamed);
  }

  /** One unfolding of the loop. */
  lemma RunTurnsUnfold(s: AppState, sc: Script, k: nat)
    requires |sc.parts| > 0 && k < MaxTurns(sc)
    ensures var turn := TurnWrites(s, sc, k);
      RunTurns(s, sc, k).writes ==
        if sc.respond(k).end.Failed? then turn else turn + RunTurns(Last(turn), sc, k + 1).writes
  {
  }

  /** The requests of turns `from` up to `to`, in order. */
  function TurnRequests(sc: Script, seed: ChatMessage, from: nat, to: nat): (r: seq<Request>)
    requires |sc.parts| > 0 && from <= to
    ensures |r| == to - from
    ensures forall j :: from <= j < to ==> r[j - from] == TurnRequest(sc, seed, j)
  {
    seq(to - from, i requires 0 <= i < to - from => TurnRequest(sc, seed, from + i))
  }

  lemma ConsTurnRequests(sc: Script, seed: ChatMessage, from: nat, to: nat)
    requires |sc.parts| > 0 && from < to
    ensures [TurnRequest(sc, seed, from)] + TurnRequests(sc, seed, from + 1, to) == TurnRequests(sc, seed, from, to)
  {
  }

  /** The requests of the loop from turn k on: one per turn taken, turn j's
      carrying the seed and the first j replies. */
  lemma {:induction false} RunTurnsRequests(s: AppState, sc: Script, seed: ChatMessage, k: nat)
    requires |sc.parts| > 0 && k <= MaxTurns(sc)
    requires FreshIds(sc, seed.id)
    requires s.chatMessages == [seed] + Replies(sc, k)
    ensures RunTurns(s, sc, k).requests == TurnRequests(sc, seed, k, TurnsTaken(sc, k))
    decreases MaxTurns(sc) - k
  {
    if k < MaxTurns(sc) {
      var run := RunTurns(s, sc, k).requests;
      FirstTurnRequest(s, sc, seed, k);
      ConsTurnRequests(sc, seed, k, TurnsTaken(sc, k));
      if sc.respond(k).end.Failed? {
        assert run == [run[0]];
      } else {
        var settled := s.(chatMessages := [seed] + Replies(sc, k + 1), isGenerating := false);
        LaterTurnRequests(s, sc, seed, k);
        RunTurnsRequests(settled, sc, seed, k + 1);
        assert TurnsTaken(sc, k) == TurnsTaken(sc, k + 1);
        assert run == [run[0]] + run[1..];
      }
    }
  }

  /** The loop's first request is turn k's. */
  lemma FirstTurnRequest(s: AppState, sc: Script, seed: ChatMessage, k: nat)
    requires |sc.parts| > 0 && k < MaxTurns(sc)
    requires FreshIds(sc, seed.id)
    requires s.chatMessages == [seed] + Replies(sc, k)
    ensures |RunTurns(s, sc, k).requests| >= 1
    ensures RunTurns(s, sc, k).requests[0] == TurnRequest(sc, seed, k)
  {
    TurnSettles(s, sc, seed, k);
    RunTurnsHead(s, sc, k);
  }

  /** After a completed turn k, the loop's remaining requests are those of
      the loop from turn k + 1 over the settled log. */
  lemma LaterTurnRequests(s: AppState, sc: Script, seed: ChatMessage, k: nat)
    requires |sc.parts| > 0 && k < MaxTurns(sc)
    requires FreshIds(sc, seed.id)
    requires s.chatMessages == [seed] + Replies(sc, k)
    requires !sc.respond(k).end.Failed?
    ensures RunTurns(s, sc, k).requests[1..] ==
      RunTurns(s.(chatMessages := [seed] + Replies(sc, k + 1), isGenerating := false), sc, k + 1).requests
  {
    TurnSettles(s, sc, seed, k);
    RunTurnsHead(s, sc, k);
  }

  /** The first request of the loop from turn k on, and what follows it. */
  lemma RunTurnsHead(s: AppState, sc: Script, k: nat)
    requires |sc.parts| > 0 && k < MaxTurns(sc)
    ensures var run := RunTurns(s, sc, k);
      var started := Started(s, sc, k);
      var speaker := Speaker(sc, k);
      var backend := ChooseBackend(sc.catalogue, speaker.model);
      && |run.requests| >= 1
      && run.requests[0] == Request(backend, speaker.model, started.chatMessages[..|started.chatMessages| - 1],
                                    SentPrompt(backend, speaker.systemPrompt))
      && (sc.respond(k).end.Failed? ==> |run.requests| == 1)
      && (!sc.respond(k).end.Failed? ==>
            run.requests[1..] == RunTurns(Last(TurnWrites(s, sc, k)), sc, k + 1).requests)
  {
  }

  /** The loop from turn k on leaves the seed and the replies of every turn
      it took, with the flag down. */
  lemma {:induction false} RunTurnsSettles(s: AppState, sc: Script, seed: ChatMessage, k: nat)
    requires |sc.parts| > 0 && k < MaxTurns(sc)
    requires FreshIds(sc, seed.id)
    requires s.chatMessages == [seed] + Replies(sc, k)
    ensures Last(RunTurns(s, sc, k).writes) ==
      s.(chatMessages := [seed] + Replies(sc, TurnsTaken(sc, k)), isGenerating := false)
    decreases MaxTurns(sc) - k
  {
    TurnSettles(s, sc, seed, k);
    RunTurnsUnfold(s, sc, k);
    var turn := TurnWrites(s, sc, k);
    if !sc.respond(k).end.Failed? {
      var settled := s.(chatMessages := [seed] + Replies(sc, k + 1), isGenerating := false);
      var rest := RunTurns(settled, sc, k + 1).writes;
      if k + 1 < MaxTurns(sc) {
        RunTurnsSettles(settled, sc, seed, k + 1);
        LastOfAppend(turn, rest);
        assert TurnsTaken(sc, k) == TurnsTaken(sc, k + 1);
      } else {
        assert rest == [];
        assert turn + rest == turn;
      }
    }
  }

  /** The last element of a concatenation with a non-empty tail. */
  lemma LastOfAppend<T>(x: seq<T>, y: seq<T>)
    requires |y| > 0
    ensures Last(x + y) == Last(y)
  {
  }

  /** A flag raised by the first write and kept by the middle ones is up in
      every write but the last. */
  lemma FlagHeldUntilLast(first: AppState, middle: seq<AppState>, last: AppState)
    requires first.isOrchestrating
    requires forall w :: w in middle ==> w.isOrchestrating
    ensures var writes := [first] + middle + [last];
      forall i :: 0 <= i < |writes| - 1 ==> writes[i].isOrchestrating
  {
    var writes := [first] + middle + [last];
    forall i | 0 <= i < |writes| - 1
      ensures writes[i].isOrchestrating
    {
      if i > 0 {
        assert writes[i] == middle[i - 1];
      }
    }
  }

  /** Writes that start from `s`, then only touch the log and the two
      flags, touch nothing else of `s`. */
  lemma RunFrame(s: AppState, first: AppState, middle: seq<AppState>, last: AppState)
    requires first == s.(chatMessages := first.chatMessages, isOrchestrating := first.isOrchestrating)
    requires forall w :: w in middle ==> w == first.(chatMessages := w.chatMessages, isGenerating := w.isGenerating)
    requires middle != [] && last == Last(middle).(isOrchestrating := last.isOrchestrating)
    ensures forall w :: w in [first] + middle + [last] ==>
      w == s.(chatMessages := w.chatMessages, isGenerating := w.isGenerating, isOrchestrating := w.isOrchestrating)
  {
    assert Last(middle) in middle;
    forall w | w in [first] + middle + [last]
      ensures w == s.(chatMessages := w.chatMessages, isGenerating := w.isGenerating, isOrchestrating := w.isOrchestrating)
    {
      assert w == first || w in middle || w == last;
    }
  }

  /** `startGroupConversation`: a no-op with fewer than two participants or
      while a group conversation runs. Otherwise the log becomes the seed
      alone, the turns run over the participants and catalogue as they were
      at the start, and the orchestration flag is raised for the duration. */
  function StartGroupConversation(s: AppState, prompt: string, seedId: string,
                                  turnId: nat -> string, respond: nat -> StreamOutcome): (run: Run)
    ensures run.writes == [] <==> |Participants(s)| < 2 || s.isOrchestrating
    ensures run.writes == [] ==> run.requests == []
    ensures run.writes != [] ==> run.writes[0].isOrchestrating && !Last(run.writes).isOrchestrating
    ensures forall i :: 0 <= i < |run.writes| - 1 ==> run.writes[i].isOrchestrating
    ensures forall w :: w in run.writes ==>
      w == s.(chatMessages := w.chatMessages, isGenerating := w.isGenerating, isOrchestrating := w.isOrchestrating)
  {
    var parts := Participants(s);
    if |parts| < 2 || s.isOrchestrating then Run([], [])
    else
      var seeded := s.(isOrchestrating := true, chatMessages := [UserMessage(seedId, prompt)]);
      var turns := RunTurns(seeded, Script(parts, s.models, turnId, respond), 0);
      var finished := Last(turns.writes).(isOrchestrating := false);
      var writes := [seeded] + turns.writes + [finished];
      RunFrame(s, seeded, turns.writes, finished);
      FlagHeldUntilLast(seeded, turns.writes, finished);
      Run(writes, turns.requests)
  }

  /** The number of turns is decided by the first failure alone: 2n turns
      when every turn completes, f + 1 when turn f is the first to fail. */
  lemma TurnsStopAtFirstFailure(sc: Script)
    ensures (forall k :: 0 <= k < MaxTurns(sc) ==> sc.respond(k).end == Completed) ==>
      TurnsTaken(sc, 0) == MaxTurns(sc)
    ensures forall f :: (0 <= f < MaxTurns(sc) && sc.respond(f).end.Failed? &&
                         (forall k :: 0 <= k < f ==> sc.respond(k).end == Completed)) ==>
      TurnsTaken(sc, 0) == f + 1
  {
  }

  /** The first write seeds the log and raises the orchestration flag; the
      turns follow; the last write lowers the flag. */
  lemma StartGroupUnfold(s: AppState, prompt: string, seedId: string,
                         turnId: nat -> string, respond: nat -> StreamOutcome)
    requires |Participants(s)| >= 2 && !s.isOrchestrating
    ensures var sc := Script(Participants(s), s.models, turnId, respond);
      var seeded := s.(isOrchestrating := true, chatMessages := [UserMessage(seedId, prompt)]);
      var turns := RunTurns(seeded, sc, 0);
      var run := StartGroupConversation(s, prompt, seedId, turnId, respond);
      && run.requests == turns.requests
      && Last(run.writes) == Last(turns.writes).(isOrchestrating := false)
  {
  }

  /** Turn k of a group conversation is spoken by participant k mod n, in
      character-list order, and sends the seed plus the k earlier replies
      with the speaker's model; the speaker's system prompt goes along only
      to the local backend. */
  lemma GroupConversationRequests(s: AppState, prompt: string, seedId: string,
                                  turnId: nat -> string, respond: nat -> StreamOutcome)
    requires |Participants(s)| >= 2 && !s.isOrchestrating
    requires FreshIds(Script(Participants(s), s.models, turnId, respond), seedId)
    ensures var sc := Script(Participants(s), s.models, turnId, respond);
      var run := StartGroupConversation(s, prompt, seedId, turnId, respond);
      var n := |Participants(s)|;
      && |run.requests| == TurnsTaken(sc, 0)
      && forall k :: 0 <= k < |run.requests| ==>
           && run.requests[k].backend == ChooseBackend(s.models, Participants(s)[k % n].model)
           && run.requests[k].model == Participants(s)[k % n].model
           && run.requests[k].systemPrompt ==
                (if run.requests[k].backend == Local then Some(Participants(s)[k % n].systemPrompt) else None)
           && run.requests[k].history == [UserMessage(seedId, prompt)] + Replies(sc, k)
  {
    var sc := Script(Participants(s), s.models, turnId, respond);
    var seed := UserMessage(seedId, prompt);
    var seeded := s.(isOrchestrating := true, chatMessages := [seed]);
    assert seeded.chatMessages == [seed] + Replies(sc, 0);
    RunTurnsRequests(seeded, sc, seed, 0);
    StartGroupUnfold(s, prompt, seedId, turnId, respond);
    var turns := RunTurns(seeded, sc, 0);
    var run := StartGroupConversation(s, prompt, seedId, turnId, respond);
    forall k | 0 <= k < |run.requests|
      ensures run.requests[k] == TurnRequest(sc, seed, k)
    {
      assert run.requests[k] == turns.requests[k - 0];
    }
  }

  /** A group conversation runs between 1 and 2n turns, stopping after the
      first failed one, and ends with the log holding the seed and the
      replies of the turns taken, with both flags down. */
  lemma GroupConversationTranscript(s: AppState, prompt: string, seedId: string,
                                    turnId: nat -> string, respond: nat -> StreamOutcome)
    requires |Participants(s)| >= 2 && !s.isOrchestrating
    requires FreshIds(Script(Participants(s), s.models, turnId, respond), seedId)
    ensures var sc := Script(Participants(s), s.models, turnId, respond);
      var t := TurnsTaken(sc, 0);
      && 1 <= t <= 2 * |Participants(s)|
      && Last(StartGroupConversation(s, prompt, seedId, turnId, respond).writes) ==
           s.(chatMessages := [UserMessage(seedId, prompt)] + Replies(sc, t),
              isGenerating := false, isOrchestrating := false)
      && |[UserMessage(seedId, prompt)] + Replies(sc, t)| == 1 + t
  {
    var sc := Script(Participants(s), s.models, turnId, respond);
    var seed := UserMessage(seedId, prompt);
    var seeded := s.(isOrchestrating := true, chatMessages := [seed]);
    assert seeded.chatMessages == [seed] + Replies(sc, 0);
    RunTurnsSettles(seeded, sc, seed, 0);
    StartGroupUnfold(s, prompt, seedId, turnId, respond);
  }
}
