/** The two message representations of the agent adapter: the plain records
    kept in the web session, and the typed messages the agent framework
    consumes and returns, with the conversions between them. */
module Messages {
  import opened Wrappers

  /** A plain message record as stored in the session. The `role`, `name` and
      `tool_call_id` keys may be missing; `content` is always present. */
  datatype Record = Record(role: Option<string>, content: string, name: Option<string>, toolCallId: Option<string>)

  /** The framework's typed messages. `Other` stands for every further message
      class (a system message, say) and keeps only its printed form. */
  datatype LcMessage =
    | Human(content: string)
    | AI(content: string)
    | ToolMsg(content: string, name: string, toolCallId: string)
    | Other(text: string)

  const UserRole: string := "user"
  const AssistantRole: string := "assistant"
  const ToolRole: string := "tool"
  const UnknownRole: string := "unknown"

  /** The roles that the inbound conversion understands. */
  predicate KnownRole(role: Option<string>) {
    role == Some(UserRole) || role == Some(AssistantRole) || role == Some(ToolRole)
  }

  /** `{'role': 'user', 'content': content}` */
  function UserRecord(content: string): Record {
    Record(Some(UserRole), content, None, None)
  }

  /** `{'role': 'assistant', 'content': content}` */
  function AssistantRecord(content: string): Record {
    Record(Some(AssistantRole), content, None, None)
  }

  /** A record with exactly the keys the serializer emits for its role. */
  predicate Canonical(r: Record) {
    || (r.role in {Some(UserRole), Some(AssistantRole)} && r.name.None? && r.toolCallId.None?)
    || (r.role == Some(ToolRole) && r.name.Some? && r.toolCallId.Some?)
  }

  /** `_serialize_message`: a case analysis on the message class. Every typed
      message of a known class gets a known role and keeps its content; any
      other class is recorded under the role `unknown` with its printed form. */
  function Serialize(m: LcMessage): (r: Record)
    ensures KnownRole(r.role) <==> !m.Other?
    ensures r.content == if m.Other? then m.text else m.content
    ensures m.Other? ==> r.role == Some(UnknownRole)
    ensures Canonical(r) <==> !m.Other?
    ensures m.Human? ==> r == UserRecord(m.content)
    ensures m.AI? ==> r == AssistantRecord(m.content)
    ensures m.ToolMsg? ==> r == Record(Some(ToolRole), m.content, Some(m.name), Some(m.toolCallId))
  {
    match m
    case Human(c) => UserRecord(c)
    case AI(c) => AssistantRecord(c)
    case ToolMsg(c, n, id) => Record(Some(ToolRole), c, Some(n), Some(id))
    case Other(t) => Record(Some(UnknownRole), t, None, None)
  }

  /** One step of the inbound role mapping: user, assistant and tool records
      become Human, AI and Tool messages; a missing `name` or `tool_call_id`
      becomes `""`; a record with any other role yields nothing. */
  function Typed(r: Record): (m: Option<LcMessage>)
    ensures m.Some? <==> KnownRole(r.role)
    ensures m.Some? ==> !m.value.Other? && m.value.content == r.content
    ensures r.role == Some(UserRole) ==> m == Some(Human(r.content))
    ensures r.role == Some(AssistantRole) ==> m == Some(AI(r.content))
    ensures r.role == Some(ToolRole) ==> m == Some(ToolMsg(r.content, r.name.GetOr(""), r.toolCallId.GetOr("")))
  {
    if r.role == Some(UserRole) then Some(Human(r.content))
    else if r.role == Some(AssistantRole) then Some(AI(r.content))
    else if r.role == Some(ToolRole) then Some(ToolMsg(r.content, r.name.GetOr(""), r.toolCallId.GetOr("")))
    else None
  }

  /** Serializing a typed message and converting it back gives the message
      again, except that a message of an unrecognized class is dropped. */
  lemma TypedSerialize(m: LcMessage)
    ensures Typed(Serialize(m)) == if m.Other? then None else Some(m)
  {
  }

  /** A record carrying exactly the keys the serializer emits survives a
      conversion to a typed message and back unchanged. */
  lemma SerializeTyped(r: Record)
    requires Canonical(r)
    ensures Typed(r).Some? && Serialize(Typed(r).value) == r
  {
  }
}
