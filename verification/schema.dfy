/** The persisted entities of the application (notebooks, sources, notes,
    chat sessions and the settings singleton), the class tree their types
    form, and the per-type table names that double as type tags. */
module Schema {
  import opened Errors

  /** A record identifier, `<table>:<key>`. */
  type Id = string

  /** Timestamps are opaque: the model only compares and copies them. */
  type Time = int

  /** A metadata value: the application stores strings and integers. */
  datatype Value = Str(s: string) | Num(n: int)

  type Metadata = map<string, Value>

  datatype NotebookData = NotebookData(
    name: string,
    description: Option<string>,
    metadata: Metadata)

  datatype SourceData = SourceData(
    title: string,
    description: Option<string>,
    url: Option<string>,
    content: Option<string>,
    fullText: Option<string>,
    metadata: Metadata,
    hasDocument: bool,
    isProcessed: bool)

  datatype NoteData = NoteData(
    content: string,
    notebook: Id,
    source: Option<Id>,
    metadata: Metadata,
    fullText: Option<string>)

  /** One entry of a chat log: `role`, `content` and `timestamp` keys. */
  type Message = map<string, string>

  datatype ChatData = ChatData(
    name: string,
    notebook: Id,
    modelName: string,
    messages: seq<Message>,
    metadata: Metadata)

  /** The fields a concrete persistent type adds to the base. */
  datatype Body =
    | NotebookBody(notebookData: NotebookData)
    | SourceBody(sourceData: SourceData)
    | NoteBody(noteData: NoteData)
    | ChatBody(chatData: ChatData)

  /** An in-memory persistent object: `id` is unset until the first save. */
  datatype Object = Object(
    id: Option<Id>,
    created: Option<Time>,
    updated: Option<Time>,
    body: Body)

  datatype Kind = BaseKind | NotebookKind | SourceKind | NoteKind | ChatSessionKind

  function KindOf(b: Body): Kind {
    match b
    case NotebookBody(_) => NotebookKind
    case SourceBody(_) => SourceKind
    case NoteBody(_) => NoteKind
    case ChatBody(_) => ChatSessionKind
  }

  /** The per-type table name; the untyped base has the empty one. */
  function TableName(k: Kind): string {
    match k
    case BaseKind => ""
    case NotebookKind => "notebook"
    case SourceKind => "source"
    case NoteKind => "note"
    case ChatSessionKind => "chat_session"
  }

  /** Table names are distinct type tags, and none contains the `:` that
      separates an identifier's table from its key. */
  lemma TableNamesAreTags(j: Kind, k: Kind)
    ensures TableName(j) == TableName(k) ==> j == k
    ensures ':' !in TableName(k)
  {
  }

  /** A class of the persistent hierarchy: its type, its declared table
      name and its direct subclasses in declaration order. */
  datatype Class = Class(kind: Kind, table: string, subclasses: seq<Class>)

  function ClassOf(k: Kind): Class {
    Class(k, TableName(k), [])
  }

  const NotebookClass := ClassOf(NotebookKind)
  const SourceClass := ClassOf(SourceKind)
  const NoteClass := ClassOf(NoteKind)
  const ChatSessionClass := ClassOf(ChatSessionKind)

  /** The base with its four subclasses, in the order they are declared. */
  const ObjectModelClass :=
    Class(BaseKind, "", [NotebookClass, SourceClass, NoteClass, ChatSessionClass])

  // ---------------------------------------------------------------------
  // Settings, the singleton record

  datatype Provider = OpenAI | Anthropic | Gemini | Mistral | Groq

  /** Connection parameters of the store (credentials are not modelled). */
  datatype Connection = Connection(url: string, namespace: string, database: string)

  datatype Settings = Settings(
    apiKeys: map<Provider, string>,
    defaultModel: string,
    maxTokens: int,
    connection: Connection)

  /** The fixed identifier of the settings record. */
  const SettingsRecordId: Id := "settings:main"

  /** The built-in Gemini key is a non-empty literal; its value is not part
      of the model, only that it is present. */
  const BuiltInGeminiKey: string := "built-in-gemini-key"

  const DefaultSettings :=
    Settings(
      map[Gemini := BuiltInGeminiKey],
      "gemini-1.5-pro",
      4000,
      Connection("ws://localhost:8000", "opennotebook", "main"))

  /** The key configured for a provider, if any. */
  function KeyOf(s: Settings, p: Provider): Option<string> {
    if p in s.apiKeys then Some(s.apiKeys[p]) else None
  }
}
