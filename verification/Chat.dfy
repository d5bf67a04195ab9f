/** The assistant message that is streamed: its text, its reasoning and its tool calls. */
module Chat {
  datatype ToolCall = ToolCall(name: string, arguments: string, id: string)

  datatype Msg = Msg(content: string, reasoning: string, calls: seq<ToolCall>)

  const EMPTY_CALL := ToolCall("", "", "")
  const EMPTY_MSG := Msg("", "", [])
}
