/** The messages of a chat session. */
module Session {
  datatype Role = User | Assistant | System

  datatype Message = Message(role: Role, content: string)
}
