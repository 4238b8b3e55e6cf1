/**
 * The conversation an agentic loop keeps with the model, and the Converse protocol it must obey:
 * turns alternate, and every tool use is answered in the very next message
 * (src/core/agentic_loop.py:441-533, 605-630).
 */
module Transcript {
  /** A block of a model response; `args` is the JSON rendering of a tool's input. */
  datatype Block =
    | Text(text: string)
    | Reasoning(text: string)
    | ToolUse(id: string, name: string, args: string)
    | Other

  datatype Role = User | Assistant

  datatype Item = TextItem(text: string) | OtherItem

  datatype Content =
    | TextPart(text: string)
    | ToolUsePart(id: string, name: string, args: string)
    | ToolResultPart(id: string, items: seq<Item>, error: bool)

  datatype Message = Message(role: Role, content: seq<Content>)

  /** One completed tool-use turn: what the assistant said and the answers to its tool uses. */
  datatype Turn = Turn(assistant: seq<Content>, results: seq<Content>)

  function ToolUseIds(content: seq<Content>): seq<string>
  {
    if content == [] then []
    else
      var n := |content| - 1;
      ToolUseIds(content[..n]) + if content[n].ToolUsePart? then [content[n].id] else []
  }

  function ResultIds(content: seq<Content>): seq<string>
  {
    seq(|content|, i requires 0 <= i < |content| => if content[i].ToolResultPart? then content[i].id else "")
  }

  /** The user message answers the assistant message: one result per tool use, with the same id,
      in the same order, and nothing else. */
  ghost predicate Answers(assistant: seq<Content>, results: seq<Content>)
  {
    && (forall i :: 0 <= i < |results| ==> results[i].ToolResultPart?)
    && ResultIds(results) == ToolUseIds(assistant)
    && results != []
  }

  /** What Converse requires of a message list it is sent. */
  ghost predicate Protocol(messages: seq<Message>)
  {
    && |messages| % 2 == 1
    && (forall i :: 0 <= i < |messages| ==> messages[i].role == if i % 2 == 0 then User else Assistant)
    && (forall i :: 0 <= i < |messages| && i % 2 == 1 ==> Answers(messages[i].content, messages[i + 1].content))
  }
}
