/** Plain data shared by the store and the transports: the records of
    `src/lib/types.ts`, the model catalogue of `src/lib/models.ts`, and the
    streaming contract both transports satisfy. */
module Types {
  import opened Wrappers

  datatype Character = Character(
    id: string,
    name: string,
    systemPrompt: string,
    model: string,
    avatar: string)

  /** A character as handed to `addCharacter`, before it has an id. */
  datatype CharacterDraft = CharacterDraft(
    name: string,
    systemPrompt: string,
    model: string,
    avatar: string)

  datatype Role = User | Assistant

  /** `characterId` and `characterName` are set on assistant messages only. */
  datatype ChatMessage = ChatMessage(
    id: string,
    role: Role,
    content: string,
    characterId: Option<string>,
    characterName: Option<string>)

  datatype Model = Model(name: string, isLocal: bool)

  /** The static remote catalogue, in its declared order. */
  const ExternalModels: seq<Model> := [
    Model("google-ai-studio/gemini-2.5-flash", false),
    Model("openai/gpt-4o", false),
    Model("google-ai-studio/gemini-2.0-flash", false),
    Model("google-ai-studio/gemini-2.5-pro", false),
    Model("grok/grok-4-latest", false),
    Model("workers-ai/@cf/moonshotai/kimi-k2-instruct", false),
    Model("openai/gpt-5", false),
    Model("openai/gpt-5-mini", false),
    Model("openai/gpt-oss-120b", false),
    Model("cerebras/gpt-oss-120b", false),
    Model("cerebras/qwen-3-coder-480b", false)
  ]

  /** The robot-face glyph U+1F916 that replaces an empty avatar. */
  const DefaultAvatar: string := "\U{1F916}"

  /** `avatar || '🤖'`: the empty string is the only falsy string. */
  function AvatarOrDefault(avatar: string): (r: string)
    ensures r != ""
    ensures avatar != "" ==> r == avatar
    ensures avatar == "" ==> r == DefaultAvatar
  {
    if avatar == "" then DefaultAvatar else avatar
  }

  /** How a stream ends: exactly one of `onDone` or `onError(message)`. */
  datatype Terminal = Completed | Failed(message: string)

  /** What a transport delivers for one request: the `onChunk` payloads in
      arrival order, then the single terminal callback. */
  datatype StreamOutcome = StreamOutcome(chunks: seq<string>, end: Terminal)

  /** Left-to-right concatenation of text pieces. */
  function Concat(parts: seq<string>): string
  {
    if parts == [] then "" else parts[0] + Concat(parts[1..])
  }

  lemma {:induction false} ConcatAppend(a: seq<string>, b: seq<string>)
    ensures Concat(a + b) == Concat(a) + Concat(b)
  {
    if a == [] {
      assert a + b == b;
    } else {
      assert (a + b)[1..] == a[1..] + b;
      ConcatAppend(a[1..], b);
    }
  }

  function Last<T>(s: seq<T>): T
    requires |s| > 0
  {
    s[|s| - 1]
  }
}
