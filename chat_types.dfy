/** Types shared by the chat endpoint and the two chat widgets. */
module ChatTypes {

  /** The author of a chat message in the widgets: `"user" | "assistant"`. */
  datatype Role = User | Assistant

  /** The wire name of a role. */
  function RoleName(r: Role): (name: string)
    ensures name == "user" || name == "assistant"
    ensures RoleOf(name) == r
  {
    match r
    case User => "user"
    case Assistant => "assistant"
  }

  /** Inverse of `RoleName` on the two wire names. */
  function RoleOf(name: string): Role {
    if name == "user" then User else Assistant
  }

  /** One `{ role, content }` entry of a message list as it travels over the wire. The endpoint does not
      check the role, so it is kept as free text here. */
  datatype Turn = Turn(role: string, content: string)
}
