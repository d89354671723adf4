/** Chat messages as the relay, the store and the adapters exchange them. */
module Messages {

  /** The three roles a message can carry. */
  datatype Role = System | User | Assistant

  /** One `{"role": ..., "content": ...}` entry of a provider conversation. */
  datatype Message = Message(role: Role, content: string)

  /** The role as the wire format spells it. */
  function RoleName(r: Role): string
  {
    match r
    case System => "system"
    case User => "user"
    case Assistant => "assistant"
  }
}
