/** `common_chat_peg_mapper` with its fields: every method against the state functions of `Mapper`. */
module PegMapping {
  import opened Text
  import opened Chat
  import opened Mapper
  import Json
  import Quotes

  class PegMapper {
    var content: string
    var reasoning: string
    var toolCalls: seq<ToolCall>
    var pendingToolCall: Option<ToolCall>
    var currentTool: Cursor
    var argCount: nat
    var closingQuotePending: bool
    var argsBuffer: string

    ghost function Abs(): State
      reads this
    {
      State(Msg(content, reasoning, toolCalls), pendingToolCall, currentTool, argCount, closingQuotePending,
        argsBuffer, false)
    }

    ghost predicate Valid()
      reads this
    {
      PendingUnnamed(Abs())
    }

    constructor ()
      ensures Valid() && Abs() == INIT
    {
      content, reasoning, toolCalls := "", "", [];
      pendingToolCall, currentTool := None, NoTool;
      argCount, closingQuotePending, argsBuffer := 0, false, "";
    }

    method Current() returns (c: ToolCall)
      requires HasTool(Abs())
      ensures c == Tool(Abs())
    {
      if currentTool == PendingTool {
        c := pendingToolCall.value;
      } else {
        c := toolCalls[|toolCalls| - 1];
      }
    }

    method SetCurrent(c: ToolCall)
      requires HasTool(Abs())
      modifies `pendingToolCall, `toolCalls
      ensures Abs() == WithTool(old(Abs()), c)
    {
      if currentTool == PendingTool {
        pendingToolCall := Some(c);
      } else {
        toolCalls := toolCalls[|toolCalls| - 1 := c];
      }
    }

    /** Reads through the reference returned by `args_target`. */
    method ArgsTarget() returns (t: string)
      requires HasTool(Abs())
      ensures t == Target(Abs())
    {
      var c := Current();
      t := if c.name != "" then c.arguments else argsBuffer;
    }

    /** Assigns through the reference returned by `args_target`. */
    method SetArgsTarget(t: string)
      requires HasTool(Abs())
      modifies `pendingToolCall, `toolCalls, `argsBuffer
      ensures Abs() == WithTarget(old(Abs()), t)
    {
      var c := Current();
      if c.name != "" {
        SetCurrent(c.(arguments := t));
      } else {
        argsBuffer := t;
      }
    }

    method MapId(text: string)
      requires HasTool(Abs())
      modifies this
      ensures Abs() == OnId(old(Abs()), text)
    {
      var t := TrimTrailingSpace(text);
      if |t| >= 2 && t[0] == '"' && t[|t| - 1] == '"' {
        t := t[1..|t| - 1];
      }
      var c := Current();
      SetCurrent(c.(id := t));
    }

    method MapName(text: string)
      requires HasTool(Abs())
      modifies this
      ensures Abs() == OnName(old(Abs()), text)
    {
      var c := Current();
      var name := TrimTrailingSpace(text);
      c := c.(name := name);
      if argsBuffer != "" {
        c := c.(arguments := argsBuffer);
        argsBuffer := "";
      } else if c.arguments == "" {
        c := c.(arguments := "{");
      }
      SetCurrent(c);
      if pendingToolCall.Some? {
        toolCalls := toolCalls + [pendingToolCall.value];
        pendingToolCall := None;
        currentTool := LastTool;
      }
    }

    method MapArgs(text: string)
      requires HasTool(Abs())
      modifies this
      ensures Abs() == OnArgs(old(Abs()), text)
    {
      var t := TrimTrailingSpace(text);
      if t != "" && t[0] == '{' {
        SetArgsTarget(t);
      }
    }

    method MapArgName(text: string)
      requires HasTool(Abs())
      modifies this
      ensures Abs() == OnArgName(old(Abs()), text)
    {
      var name := Trim(text);
      var argEntry := if argCount > 0 then "," else "";
      argEntry := argEntry + Quoted(name) + ":";
      argCount := argCount + 1;
      var target := ArgsTarget();
      if target == "" {
        target := "{";
      }
      SetArgsTarget(target + argEntry);
    }

    method MapValue(text: string, isStringValue: bool)
      requires HasTool(Abs())
      modifies this
      ensures Abs() == if isStringValue then OnStringValue(old(Abs()), text) else OnValue(old(Abs()), text)
    {
      hide Quotes.Normalized, Json.Escape, WithTarget, Target, Tool;
      var toAdd := "";
      if text == "" && isStringValue {
        toAdd := "\"";
        closingQuotePending := true;
      } else if text != "" && isStringValue {
        if !closingQuotePending {
          toAdd := "\"";
          closingQuotePending := true;
        }
        toAdd := toAdd + Json.Escape(text);
      } else if text != "" {
        toAdd := Quotes.NormalizeQuotesToJson(text);
      }
      var target := ArgsTarget();
      SetArgsTarget(target + toAdd);
      EmptyTexts();
      QuoteApart(old(Abs()), target + toAdd);
      assert isStringValue ==>
        target + toAdd == target + (if text == "" || !old(closingQuotePending) then "\"" else "") + Json.Escape(text);
    }

    method MapArgClose()
      requires HasTool(Abs())
      modifies this
      ensures Abs() == OnArgClose(old(Abs()))
    {
      if closingQuotePending {
        var target := ArgsTarget();
        SetArgsTarget(target + "\"");
        closingQuotePending := false;
      }
    }

    method MapClose()
      requires HasTool(Abs())
      modifies this
      ensures Abs() == OnClose(old(Abs()))
    {
      var c := Current();
      if c.name == "" && argsBuffer != "" {
        c := c.(arguments := argsBuffer);
        argsBuffer := "";
      }
      if closingQuotePending {
        c := c.(arguments := c.arguments + "\"");
        closingQuotePending := false;
      }
      ghost var a := c.arguments;
      var depth := Json.JsonBraceDepth(c.arguments);
      ghost var all := Repeat('}', depth);
      while depth > 0
        invariant c == old(Tool(Abs())).(arguments := c.arguments)
        invariant c.arguments + Repeat('}', depth) == a + all
      {
        assert c.arguments + (['}'] + Repeat('}', depth - 1)) == c.arguments + ['}'] + Repeat('}', depth - 1);
        c := c.(arguments := c.arguments + "}");
        depth := depth - 1;
      }
      assert c.arguments + "" == c.arguments;
      if pendingToolCall.Some? {
        if c.name != "" {
          toolCalls := toolCalls + [c];
        }
        pendingToolCall := None;
        currentTool := DanglingTool;
      } else {
        SetCurrent(c);
      }
    }

    method Map(node: Node)
      requires Valid() && !Step(Abs(), node).fault
      modifies this
      ensures Valid() && Abs() == Step(old(Abs()), node)
      ensures content == old(content) + (if node.tag == Content then node.text else "")
      ensures reasoning == old(reasoning) + (if node.tag == Reasoning then node.text else "")
    {
      StepPendingUnnamed(Abs(), node);
      StepTexts(Abs(), node);
      hide PendingUnnamed, OnOpen, OnId, OnName, OnArgs, OnArgName, OnStringValue, OnValue, OnArgClose, OnClose, Tool;
      if node.tag == Reasoning {
        reasoning := reasoning + node.text;
      } else if node.tag == Content {
        content := content + node.text;
      } else if node.tag == ToolOpen {
        MapOpen();
      } else if node.tag == ArgOpen {
        closingQuotePending := false;
      } else if currentTool != NoTool && node.tag != OtherTag {
        MapTool(node);
      }
    }

    /** `from_ast`: maps the nodes in visiting order and finishes the result. */
    method FromAst(nodes: seq<Node>)
      requires Abs() == INIT && !Run(INIT, nodes).fault
      modifies this
      ensures Abs().msg == FromNodes(nodes)
      ensures content == Texts(Content, nodes)
    {
      MessageTexts(nodes);
      for i := 0 to |nodes|
        invariant Valid() && Run(Abs(), nodes[i..]) == Run(INIT, nodes)
      {
        FaultStays(Step(Abs(), nodes[i]), nodes[i..][1..]);
        assert nodes[i..][1..] == nodes[i + 1..];
        Map(nodes[i]);
      }
      ghost var s := Abs();
      assert nodes[|nodes|..] == [] && s == Run(INIT, nodes);
      FinishResult();
    }

    /** What follows the visit: flush a pending call that has a name, drop reasoning that is only white space. */
    method FinishResult()
      modifies this
      ensures Abs().msg == Finish(old(Abs()))
    {
      if pendingToolCall.Some? && pendingToolCall.value.name != "" {
        var call := pendingToolCall.value;
        if argsBuffer != "" {
          call := call.(arguments := argsBuffer);
        }
        if closingQuotePending && call.arguments != "" {
          call := call.(arguments := call.arguments + "\"");
        }
        toolCalls := toolCalls + [call];
        pendingToolCall := None;
      }
      if reasoning != "" {
        var allBlank := AllBlank(reasoning);
        if allBlank {
          reasoning := "";
        }
      }
    }

    static method AllBlank(text: string) returns (blank: bool)
      ensures blank <==> IsBlank(text)
    {
      for k := 0 to |text|
        invariant forall j :: 0 <= j < k ==> text[j] in " \n\r\t"
      {
        var c := text[k];
        if c != ' ' && c != '\n' && c != '\r' && c != '\t' {
          return false;
        }
      }
      blank := true;
    }

    method MapOpen()
      modifies this
      ensures Abs() == OnOpen(old(Abs()))
    {
      pendingToolCall := Some(EMPTY_CALL);
      currentTool := PendingTool;
      argCount := 0;
      argsBuffer := "";
      closingQuotePending := false;
    }

    /** The nodes that act on the current call. */
    method MapTool(node: Node)
      requires Valid() && !Step(Abs(), node).fault
      requires currentTool != NoTool && node.tag !in {Reasoning, Content, ToolOpen, ArgOpen, OtherTag}
      modifies this
      ensures Abs() == Step(old(Abs()), node)
    {
      hide OnId, OnName, OnArgs, OnArgName, OnStringValue, OnValue, OnArgClose, OnClose, Tool;
      if currentTool == DanglingTool { return; }
      if node.tag == ToolId {
        MapId(node.text);
      } else if node.tag == ToolName {
        MapName(node.text);
      } else if node.tag == ToolArgs {
        MapArgs(node.text);
      } else if node.tag == ArgName {
        MapArgName(node.text);
      } else if node.tag == ArgValue || node.tag == ArgStringValue {
        MapValue(node.text, node.tag == ArgStringValue);
      } else if node.tag == ArgClose {
        MapArgClose();
      } else {
        MapClose();
      }
    }
  }
}
