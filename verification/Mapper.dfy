/**
 The mapper from tagged parse-tree nodes to a message (`common_chat_peg_mapper`). It keeps a call
 that waits for its name, a pointer to the call being filled, a buffer for arguments that arrive
 before the name, and a flag for a string argument whose closing quote is still owed.
 */
module Mapper {
  import opened Text
  import opened Chat
  import Json
  import Quotes

  datatype Tag =
    | Reasoning | Content | ToolOpen | ToolClose | ToolName | ToolId | ToolArgs
    | ArgOpen | ArgClose | ArgName | ArgValue | ArgStringValue | OtherTag

  datatype Node = Node(tag: Tag, text: string)

  /**
   Where `current_tool` points: nowhere, to the pending call, to the last call of the result, or to
   the storage of a pending call that has been dropped. Using the last is undefined.
   */
  datatype Cursor = NoTool | PendingTool | LastTool | DanglingTool

  datatype State = State(
    msg: Msg,
    pending: Option<ToolCall>,
    current: Cursor,
    argCount: nat,
    quotePending: bool,
    buffer: string,
    fault: bool  // a dropped call has been used
  )

  const INIT := State(EMPTY_MSG, None, NoTool, 0, false, "", false)

  /** The cursor denotes a call that exists. */
  predicate Grounded(s: State) {
    && (s.current == PendingTool <==> s.pending.Some?)
    && (s.current == LastTool ==> s.msg.calls != [])
  }

  predicate HasTool(s: State) {
    Grounded(s) && (s.current == PendingTool || s.current == LastTool)
  }

  function Tool(s: State): ToolCall
    requires HasTool(s)
  {
    if s.current == PendingTool then s.pending.value else s.msg.calls[|s.msg.calls| - 1]
  }

  /** The state after `*current_tool = c`. */
  function WithTool(s: State, c: ToolCall): (r: State)
    requires HasTool(s)
    ensures HasTool(r) && Tool(r) == c
  {
    if s.current == PendingTool then s.(pending := Some(c))
    else s.(msg := s.msg.(calls := s.msg.calls[|s.msg.calls| - 1 := c]))
  }

  /** `args_target()`: the buffer until the name is known, then the arguments of the call. */
  function Target(s: State): string
    requires HasTool(s)
  {
    if Tool(s).name != "" then Tool(s).arguments else s.buffer
  }

  function WithTarget(s: State, t: string): (r: State)
    requires HasTool(s)
    ensures HasTool(r) && Target(r) == t
    ensures r.argCount == s.argCount && r.quotePending == s.quotePending
  {
    if Tool(s).name != "" then WithTool(s, Tool(s).(arguments := t)) else s.(buffer := t)
  }

  lemma TargetSelf(s: State)
    requires HasTool(s)
    ensures WithTarget(s, Target(s)) == s
  {
    if s.current == LastTool {
      assert s.msg.calls[|s.msg.calls| - 1 := Tool(s)] == s.msg.calls;
    }
  }

  // ---- What one node does ----

  function OnOpen(s: State): State {
    s.(pending := Some(EMPTY_CALL), current := PendingTool, argCount := 0, quotePending := false, buffer := "")
  }

  function IdText(text: string): string {
    var t := TrimRight(text);
    if |t| >= 2 && t[0] == '"' && t[|t| - 1] == '"' then t[1..|t| - 1] else t
  }

  function OnId(s: State, text: string): State
    requires HasTool(s)
  {
    WithTool(s, Tool(s).(id := IdText(text)))
  }

  /** Moves the pending call to the result, where the cursor follows it. */
  function Publish(s: State): State
    requires HasTool(s)
  {
    if s.pending.Some? then
      s.(msg := s.msg.(calls := s.msg.calls + [s.pending.value]), pending := None, current := LastTool)
    else s
  }

  function OnName(s: State, text: string): State
    requires HasTool(s)
  {
    var c := Tool(s).(name := TrimRight(text));
    if s.buffer != "" then Publish(WithTool(s, c.(arguments := s.buffer)).(buffer := ""))
    else Publish(WithTool(s, if c.arguments == "" then c.(arguments := "{") else c))
  }

  /** Text that a TOOL_ARGS node takes as the whole arguments object. */
  predicate IsObjectText(text: string) {
    TrimRight(text) != "" && TrimRight(text)[0] == '{'
  }

  function OnArgs(s: State, text: string): State
    requires HasTool(s)
  {
    if IsObjectText(text) then WithTarget(s, TrimRight(text)) else s
  }

  function Quoted(text: string): string {
    "\"" + Json.Escape(text) + "\""
  }

  function ArgEntry(first: bool, text: string): string {
    (if first then "" else ",") + Quoted(TrimOnce(text)) + ":"
  }

  function OnArgName(s: State, text: string): State
    requires HasTool(s)
  {
    var target := if Target(s) == "" then "{" else Target(s);
    WithTarget(s, target + ArgEntry(s.argCount == 0, text)).(argCount := s.argCount + 1)
  }

  function OnStringValue(s: State, text: string): State
    requires HasTool(s)
  {
    var opening := if text == "" || !s.quotePending then "\"" else "";
    WithTarget(s, Target(s) + opening + Json.Escape(text)).(quotePending := true)
  }

  function OnValue(s: State, text: string): State
    requires HasTool(s)
  {
    WithTarget(s, Target(s) + Quotes.Normalized(text))
  }

  function OnArgClose(s: State): State
    requires HasTool(s)
  {
    if s.quotePending then WithTarget(s, Target(s) + "\"").(quotePending := false) else s
  }

  lemma QuoteApart(s: State, t: string)
    requires HasTool(s)
    ensures var q := s.(quotePending := true);
      HasTool(q) && Target(q) == Target(s) && WithTarget(q, t) == WithTarget(s, t).(quotePending := true)
  {
  }

  lemma EmptyTexts()
    ensures Json.Escape("") == "" && Quotes.Normalized("") == ""
  {
  }

  function Repeat(c: char, n: int): string {
    if n <= 0 then "" else [c] + Repeat(c, n - 1)
  }

  /** Arguments with the owed quote and the missing closing braces added. */
  function Completed(arguments: string, quotePending: bool): string {
    var a := if quotePending then arguments + "\"" else arguments;
    a + Repeat('}', Json.BraceDepth(a))
  }

  function OnClose(s: State): State
    requires HasTool(s)
  {
    var unnamed := Tool(s).name == "" && s.buffer != "";
    var c := Tool(s).(arguments := Completed(if unnamed then s.buffer else Tool(s).arguments, s.quotePending));
    var s1 := s.(buffer := if unnamed then "" else s.buffer, quotePending := false);
    if s.pending.Some? then
      var msg := if c.name != "" then s.msg.(calls := s.msg.calls + [c]) else s.msg;
      s1.(msg := msg, pending := None, current := DanglingTool)
    else WithTool(s1, c)
  }

  /** Whether the code follows `current_tool` for this node. */
  predicate Dereferences(s: State, n: Node) {
    match n.tag
    case ToolId | ToolName | ArgName | ArgValue | ArgStringValue | ToolClose => true
    case ToolArgs => IsObjectText(n.text)
    case ArgClose => s.quotePending
    case _ => false
  }

  /** The nodes that act on the current call. */
  function OnTool(s: State, n: Node): State {
    if s.current == NoTool then s
    else if !HasTool(s) then (if Dereferences(s, n) then s.(fault := true) else s)
    else if n.tag == ToolId then OnId(s, n.text)
    else if n.tag == ToolName then OnName(s, n.text)
    else if n.tag == ToolArgs then OnArgs(s, n.text)
    else if n.tag == ArgName then OnArgName(s, n.text)
    else if n.tag == ArgStringValue then OnStringValue(s, n.text)
    else if n.tag == ArgValue then OnValue(s, n.text)
    else if n.tag == ArgClose then OnArgClose(s)
    else OnClose(s)
  }

  function Step(s: State, n: Node): State {
    if n.tag == Reasoning then s.(msg := s.msg.(reasoning := s.msg.reasoning + n.text))
    else if n.tag == Content then s.(msg := s.msg.(content := s.msg.content + n.text))
    else if n.tag == ToolOpen then OnOpen(s)
    else if n.tag == ArgOpen then s.(quotePending := false)
    else if n.tag == OtherTag then s
    else OnTool(s, n)
  }

  function Run(s: State, nodes: seq<Node>): State
    decreases nodes
  {
    if nodes == [] then s else Run(Step(s, nodes[0]), nodes[1..])
  }

  predicate IsBlank(s: string) {
    forall k :: 0 <= k < |s| ==> s[k] in " \n\r\t"
  }

  /** The end of `from_ast`: flush a pending call that has a name, drop reasoning that is only white space. */
  function Finish(s: State): Msg {
    var calls :=
      if s.pending.Some? && s.pending.value.name != "" then
        var a := if s.buffer != "" then s.buffer else s.pending.value.arguments;
        s.msg.calls + [s.pending.value.(arguments := if s.quotePending && a != "" then a + "\"" else a)]
      else s.msg.calls;
    Msg(s.msg.content, if IsBlank(s.msg.reasoning) then "" else s.msg.reasoning, calls)
  }

  function FromNodes(nodes: seq<Node>): Msg {
    Finish(Run(INIT, nodes))
  }

  lemma {:induction false} RunAppend(s: State, a: seq<Node>, b: seq<Node>)
    ensures Run(s, a + b) == Run(Run(s, a), b)
    decreases a
  {
    hide Step;
    if a == [] {
      assert a + b == b;
    } else {
      assert (a + b)[1..] == a[1..] + b;
      RunAppend(Step(s, a[0]), a[1..], b);
    }
  }

  // ---- What the mapper looks at ----

  /** Nodes that change nothing: untagged or enclosing ones, and arguments text that is no object. */
  predicate IsIgnored(n: Node) {
    n.tag == OtherTag || (n.tag == ToolArgs && !IsObjectText(n.text))
  }

  /** Nodes of which only the tag is looked at. */
  predicate IsDelimiter(tag: Tag) {
    tag in {ToolOpen, ToolClose, ArgOpen, ArgClose}
  }

  function Bared(n: Node): Node {
    if IsDelimiter(n.tag) then Node(n.tag, "") else n
  }

  /** The visited nodes without the ignored ones, and without the texts of delimiters. */
  function Relevant(nodes: seq<Node>): seq<Node>
    decreases nodes
  {
    if nodes == [] then []
    else if IsIgnored(nodes[0]) then Relevant(nodes[1..])
    else [Bared(nodes[0])] + Relevant(nodes[1..])
  }

  lemma IgnoredStep(s: State, n: Node)
    requires IsIgnored(n)
    ensures Step(s, n) == s
  {
    hide IsObjectText;
  }

  lemma BaredStep(s: State, n: Node)
    ensures Step(s, Bared(n)) == Step(s, n)
  {
    hide IsObjectText, OnOpen, OnClose, OnArgClose;
  }

  /** The mapper makes the same of a list and of its relevant part, from every state. */
  lemma {:induction false} RunRelevant(s: State, nodes: seq<Node>)
    ensures Run(s, Relevant(nodes)) == Run(s, nodes)
    decreases nodes
  {
    hide Step, IsIgnored, Bared;
    if nodes != [] {
      var n, rest := nodes[0], nodes[1..];
      RunRelevant(Step(s, n), rest);
      if IsIgnored(n) {
        IgnoredStep(s, n);
      } else {
        BaredStep(s, n);
        assert ([Bared(n)] + Relevant(rest))[1..] == Relevant(rest);
      }
    }
  }

  /**
   For every node list whatsoever: the cursor denotes the pending call exactly when there is one,
   and a pending call has no name yet, so the flush at the end of `from_ast` is never taken.
   */
  predicate PendingUnnamed(s: State) {
    Grounded(s) && (s.pending.Some? ==> s.pending.value.name == "")
  }

  lemma StepPendingUnnamed(s: State, n: Node)
    requires PendingUnnamed(s)
    ensures PendingUnnamed(Step(s, n))
  {
    hide IdText, IsObjectText, ArgEntry, Completed;
  }

  lemma {:induction false} RunPendingUnnamed(s: State, nodes: seq<Node>)
    requires PendingUnnamed(s)
    ensures PendingUnnamed(Run(s, nodes))
    decreases nodes
  {
    hide Step, PendingUnnamed;
    if nodes != [] {
      StepPendingUnnamed(s, nodes[0]);
      RunPendingUnnamed(Step(s, nodes[0]), nodes[1..]);
    }
  }

  lemma FlushNeverTaken(nodes: seq<Node>)
    ensures FromNodes(nodes).calls == Run(INIT, nodes).msg.calls
  {
    RunPendingUnnamed(INIT, nodes);
    hide Run;
  }

  lemma {:induction false} FaultStays(s: State, nodes: seq<Node>)
    ensures s.fault ==> Run(s, nodes).fault
    decreases nodes
  {
    if nodes != [] {
      FaultStep(s, nodes[0]);
      FaultStays(Step(s, nodes[0]), nodes[1..]);
    }
  }

  lemma FaultStep(s: State, n: Node)
    ensures s.fault ==> Step(s, n).fault
  {
    hide IdText, IsObjectText, ArgEntry, Completed;
  }

  // ---- Where every text goes ----

  /** The texts of the nodes with a tag, one after the other. */
  function Texts(tag: Tag, nodes: seq<Node>): string {
    if nodes == [] then "" else (if nodes[0].tag == tag then nodes[0].text else "") + Texts(tag, nodes[1..])
  }

  /** Inside a call or outside, content goes to the content and reasoning to the reasoning. */
  lemma {:induction false} RunTexts(s: State, nodes: seq<Node>)
    ensures Run(s, nodes).msg.content == s.msg.content + Texts(Content, nodes)
    ensures Run(s, nodes).msg.reasoning == s.msg.reasoning + Texts(Reasoning, nodes)
    decreases |nodes|
  {
    hide Step;
    if nodes == [] {
      assert s.msg.content + "" == s.msg.content && s.msg.reasoning + "" == s.msg.reasoning;
    } else {
      var n, s' := nodes[0], Step(s, nodes[0]);
      StepTexts(s, n);
      RunTexts(s', nodes[1..]);
      Associate(s.msg.content, if n.tag == Content then n.text else "", Texts(Content, nodes[1..]));
      Associate(s.msg.reasoning, if n.tag == Reasoning then n.text else "", Texts(Reasoning, nodes[1..]));
    }
  }

  lemma StepTexts(s: State, n: Node)
    ensures Step(s, n).msg.content == s.msg.content + if n.tag == Content then n.text else ""
    ensures Step(s, n).msg.reasoning == s.msg.reasoning + if n.tag == Reasoning then n.text else ""
  {
    hide IdText, IsObjectText, ArgEntry, Completed;
    assert s.msg.content + "" == s.msg.content && s.msg.reasoning + "" == s.msg.reasoning;
  }

  /**
   The two texts of the message, for every node list: the content is all content, and the reasoning all
   reasoning, or nothing when that is only blanks, line ends and tabs.
   */
  lemma MessageTexts(nodes: seq<Node>)
    ensures FromNodes(nodes).content == Texts(Content, nodes)
    ensures var r := Texts(Reasoning, nodes);
      FromNodes(nodes).reasoning ==
        if forall k :: 0 <= k < |r| ==> r[k] == ' ' || r[k] == '\n' || r[k] == '\r' || r[k] == '\t' then "" else r
  {
    RunTexts(INIT, nodes);
    hide Run;
    assert "" + Texts(Content, nodes) == Texts(Content, nodes);
    assert "" + Texts(Reasoning, nodes) == Texts(Reasoning, nodes);
  }

  // ---- How many calls there are ----

  /** The calls that get a name: the first name after an opening node, unless the call is closed before it. */
  function Published(nodes: seq<Node>, waiting: bool): nat {
    if nodes == [] then 0
    else if nodes[0].tag == ToolOpen then Published(nodes[1..], true)
    else if waiting && nodes[0].tag == ToolName then 1 + Published(nodes[1..], false)
    else Published(nodes[1..], waiting && nodes[0].tag != ToolClose)
  }

  lemma {:induction false} RunCount(s: State, nodes: seq<Node>)
    requires PendingUnnamed(s)
    ensures |Run(s, nodes).msg.calls| == |s.msg.calls| + Published(nodes, s.pending.Some?)
    decreases |nodes|
  {
    hide Step, PendingUnnamed;
    if nodes != [] {
      StepPendingUnnamed(s, nodes[0]);
      StepCount(s, nodes[0]);
      RunCount(Step(s, nodes[0]), nodes[1..]);
    }
  }

  lemma StepCount(s: State, n: Node)
    requires PendingUnnamed(s)
    ensures var s', waiting := Step(s, n), s.pending.Some?;
      && |s'.msg.calls| == |s.msg.calls| + (if waiting && n.tag == ToolName then 1 else 0)
      && (s'.pending.Some? <==> n.tag == ToolOpen || (waiting && n.tag != ToolName && n.tag != ToolClose))
  {
    hide IdText, IsObjectText, ArgEntry, Completed, TrimRight;
  }

  /** For every node list: a call is in the message exactly when its name arrives before it is closed. */
  lemma CallCount(nodes: seq<Node>)
    ensures |FromNodes(nodes).calls| == Published(nodes, false)
  {
    FlushNeverTaken(nodes);
    RunCount(INIT, nodes);
    hide Run;
  }

  // ---- Ids ----

  /** White space behind an id is dropped, and then one pair of double quotes around it. */
  lemma IdTextMeaning(t: string, w: string)
    requires forall k :: 0 <= k < |w| ==> IsSpace(w[k])
    ensures IdText("\"" + t + "\"" + w) == t
    ensures (t == "" || !IsSpace(t[|t| - 1])) && !(|t| >= 2 && t[0] == '"' && t[|t| - 1] == '"') ==> IdText(t + w) == t
  {
    hide TrimRight;
    var q := "\"" + t + "\"";
    TrimRightMeaning(q + w, q);
    assert q[1..|q| - 1] == t;
    if t == "" || !IsSpace(t[|t| - 1]) {
      TrimRightMeaning(t + w, t);
    }
  }

  /** Closing a named call closes its open string, as the end of the argument would. */
  lemma CloseClosesString(s: State)
    requires HasTool(s) && Tool(s).name != ""
    ensures Step(s, Node(ToolClose, "")) == Step(Step(s, Node(ArgClose, "")), Node(ToolClose, ""))
  {
  }

  /** The opening node of an argument drops the closing quote that the argument before it still owes. */
  lemma OpenForgetsString(s: State, t: string, u: string)
    requires HasTool(s)
    ensures Step(Step(s, Node(ArgOpen, t)), Node(ArgClose, u)) == s.(quotePending := false)
  {
  }

  /** Exactly which nodes use the storage of a call that was closed before it had a name. */
  lemma DroppedUsed(s: State, n: Node)
    requires s.current == DanglingTool && s.pending.None? && !s.fault && !s.quotePending
    ensures Step(s, n).fault <==>
      || n.tag in {ToolId, ToolName, ArgName, ArgValue, ArgStringValue, ToolClose}
      || (n.tag == ToolArgs && TrimRight(n.text) != "" && TrimRight(n.text)[0] == '{')
  {
    hide TrimRight;
  }

  /** Such a call leaves the cursor at its storage. */
  lemma ClosedUnnamed(s: State)
    requires HasTool(s) && s.current == PendingTool
    ensures var t := Step(s, Node(ToolClose, "")); t.current == DanglingTool && t.pending.None? && !t.quotePending
  {
    hide Completed;
  }

  /** A call with a blank name is in the message; closing it takes the arguments that came after the name, if any. */
  lemma CloseNameless(s: State)
    requires HasTool(s) && s.current == LastTool && Tool(s).name == ""
    ensures var t := Step(s, Node(ToolClose, ""));
      && HasTool(t) && t.current == LastTool && t.buffer == "" && !t.quotePending
      && (var a := if s.buffer == "" then Tool(s).arguments else s.buffer;
          Tool(t) == Tool(s).(arguments := Completed(a, s.quotePending)))
      && |t.msg.calls| == |s.msg.calls| && forall k :: 0 <= k < |s.msg.calls| - 1 ==> t.msg.calls[k] == s.msg.calls[k]
  {
    hide Completed;
  }

  /** What the flush at the end of `from_ast` would add for a pending call with a name. */
  lemma FlushAdds(s: State, c: ToolCall)
    requires s.pending == Some(c) && c.name != ""
    ensures s.buffer == "" && c.arguments == "" ==> Finish(s).calls == s.msg.calls + [c]
    ensures s.buffer != "" ==>
      Finish(s).calls == s.msg.calls + [c.(arguments := s.buffer + if s.quotePending then "\"" else "")]
    ensures s.buffer == "" && c.arguments != "" ==>
      Finish(s).calls == s.msg.calls + [c.(arguments := c.arguments + if s.quotePending then "\"" else "")]
  {
    hide IsBlank;
    assert s.buffer + "" == s.buffer && c.arguments + "" == c.arguments;
  }
}
