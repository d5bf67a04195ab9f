/**
 The nesting of the nodes of tool calls, and the mapper state that goes with each phase of it. A node
 list may stop anywhere, as the nodes of a partial output do.
 */
module Streaming {
  import opened Text
  import opened Chat
  import opened ChatDiff
  import opened Mapper
  import Json
  import Quotes

  // ---- The nesting of nodes ----

  /** Where a list stands inside an argument group. */
  datatype Slot = NoArg | Opened | Named | Valued

  /** What the body of a call consists of so far: nothing, one TOOL_ARGS node, or argument groups. */
  datatype Body = Fresh | ObjectBody | ListBody

  datatype Phase = Idle | InCall(named: bool, idSeen: bool, body: Body, slot: Slot)

  /** The phase after one more node, if the node may come there. */
  function Next(p: Phase, n: Node): Option<Phase> {
    if IsIgnored(n) || n.tag in {Reasoning, Content} then Some(p)
    else if n.tag == ToolOpen then Some(InCall(false, false, Fresh, NoArg))
    else if p.Idle? then None
    else if n.tag == ToolClose then (if p.slot == NoArg then Some(Idle) else None)
    else if n.tag == ToolId then (if p.slot == NoArg && !p.idSeen then Some(p.(idSeen := true)) else None)
    else if n.tag == ToolName then
      (if p.slot == NoArg && !p.named && TrimRight(n.text) != "" then Some(p.(named := true)) else None)
    else if n.tag == ToolArgs then
      (if p.slot == NoArg && p.body == Fresh then Some(p.(body := ObjectBody)) else None)
    else if n.tag == ArgOpen then
      (if p.slot == NoArg && p.body != ObjectBody then Some(p.(body := ListBody, slot := Opened)) else None)
    else if n.tag == ArgName then (if p.slot == Opened then Some(p.(slot := Named)) else None)
    else if n.tag == ArgValue || n.tag == ArgStringValue then
      (if p.slot == Named then Some(p.(slot := Valued)) else None)
    else (if p.slot == Named || p.slot == Valued then Some(p.(slot := NoArg)) else None)
  }

  function PhaseAfter(p: Phase, nodes: seq<Node>): Option<Phase>
    decreases |nodes|
  {
    if nodes == [] then Some(p) else
    match Next(p, nodes[0])
    case None => None
    case Some(q) => PhaseAfter(q, nodes[1..])
  }

  predicate WellNested(nodes: seq<Node>) {
    PhaseAfter(Idle, nodes).Some?
  }

  lemma {:induction false} PhaseAppend(p: Phase, a: seq<Node>, b: seq<Node>)
    ensures PhaseAfter(p, a + b) ==
      if PhaseAfter(p, a).None? then None else PhaseAfter(PhaseAfter(p, a).value, b)
    decreases |a|
  {
    hide Next;
    if a == [] {
      assert a + b == b;
    } else {
      assert (a + b)[1..] == a[1..] + b;
      if Next(p, a[0]).Some? {
        PhaseAppend(Next(p, a[0]).value, a[1..], b);
      }
    }
  }

  /** A list is as far as its relevant part. */
  lemma {:induction false} PhaseRelevant(p: Phase, nodes: seq<Node>)
    ensures PhaseAfter(p, Relevant(nodes)) == PhaseAfter(p, nodes)
    decreases |nodes|
  {
    if nodes != [] {
      var n, rest := nodes[0], nodes[1..];
      BaredNext(p, n);
      hide Next, IsIgnored, Bared;
      if Next(p, n).Some? {
        PhaseRelevant(Next(p, n).value, rest);
      }
      assert ([Bared(n)] + Relevant(rest))[1..] == Relevant(rest);
    }
  }

  lemma BaredNext(p: Phase, n: Node)
    ensures IsIgnored(n) ==> Next(p, n) == Some(p)
    ensures Next(p, Bared(n)) == Next(p, n)
  {
    hide IsObjectText, TrimRight;
  }

  // ---- The state that goes with a phase ----

  /** The arguments collected so far, in the buffer or in the call, for a body of this kind. */
  predicate TargetFits(target: string, named: bool, body: Body, argCount: nat) {
    if body == Fresh || (body == ListBody && argCount == 0) then target == (if named then "{" else "") && argCount == 0
    else target != "" && target[0] == '{'
  }

  predicate CallFits(p: Phase, s: State)
    requires p.InCall?
  {
    && HasTool(s)
    && (p.named <==> s.current == LastTool) && (p.named <==> Tool(s).name != "")
    && (p.named ==> s.buffer == "") && (!p.named ==> Tool(s).arguments == "")
    && (!p.idSeen ==> Tool(s).id == "")
    && (s.quotePending ==> p.slot == Valued)
    && (p.slot != NoArg ==> p.body == ListBody) && (p.slot == Named || p.slot == Valued ==> s.argCount > 0)
    && TargetFits(Target(s), p.named, p.body, s.argCount)
  }

  predicate Fits(p: Phase, s: State) {
    && !s.fault && PendingUnnamed(s)
    && (if p.Idle? then s.pending.None? else CallFits(p, s))
  }

  lemma FitsText(p: Phase, s: State, n: Node)
    requires Fits(p, s) && (IsIgnored(n) || n.tag in {Reasoning, Content, ToolOpen})
    ensures Next(p, n).Some? && Fits(Next(p, n).value, Step(s, n)) && Extends(s.msg, Step(s, n).msg)
  {
    hide IsObjectText;
    if IsIgnored(n) {
      IgnoredStep(s, n);
      ExtendsSelf(s.msg);
    }
  }

  /** Both invariants of a node inside a call: the phase still fits, and the message is only added to. */
  ghost predicate Keeps(p: Phase, s: State, n: Node)
  {
    Next(p, n).Some? ==> Fits(Next(p, n).value, Step(s, n)) && Extends(s.msg, Step(s, n).msg)
  }

  lemma SetToolExtends(s: State, c: ToolCall)
    requires HasTool(s) && CallExtends(Tool(s), c)
    ensures Extends(s.msg, WithTool(s, c).msg)
  {
  }

  lemma FitsId(p: Phase, s: State, n: Node)
    requires Fits(p, s) && p.InCall? && n.tag == ToolId
    ensures Keeps(p, s, n)
  {
    hide IdText;
    var c := Tool(s).(id := IdText(n.text));
    if p.slot == NoArg && !p.idSeen {
      SetToolExtends(s, c);
    }
  }

  lemma FitsName(p: Phase, s: State, n: Node)
    requires Fits(p, s) && p.InCall? && n.tag == ToolName
    ensures Keeps(p, s, n)
  {
    hide TrimRight;
  }

  lemma SetTargetExtends(s: State, t: string)
    requires HasTool(s) && Target(s) <= t
    ensures Extends(s.msg, WithTarget(s, t).msg)
    ensures Tool(s).name == Tool(WithTarget(s, t)).name && Tool(s).id == Tool(WithTarget(s, t)).id
    ensures Tool(s).name == "" ==> Tool(WithTarget(s, t)) == Tool(s)
    ensures Tool(s).name != "" ==> WithTarget(s, t).buffer == s.buffer
    ensures PendingUnnamed(s) ==> PendingUnnamed(WithTarget(s, t))
  {
    if Tool(s).name != "" {
      SetToolExtends(s, Tool(s).(arguments := t));
    }
  }

  lemma FitsArgs(p: Phase, s: State, n: Node)
    requires Fits(p, s) && p.InCall? && n.tag in {ToolArgs, ArgOpen}
    ensures Keeps(p, s, n)
  {
    if n.tag == ToolArgs && p.body == Fresh && p.slot == NoArg && IsObjectText(n.text) {
      SetTargetExtends(s, TrimRight(n.text));
      hide TrimRight;
    }
  }

  /** Extending the arguments, with a new count and quote flag, moves to a phase of the same call. */
  lemma Retarget(p: Phase, s: State, t: string, count: nat, quote: bool, slot: Slot)
    requires p.InCall? && Fits(p, s) && Target(s) <= t
    requires p.body == ListBody && count > 0 && (quote ==> slot == Valued) && TargetFits(t, p.named, p.body, count)
    ensures var r := WithTarget(s, t).(argCount := count, quotePending := quote);
      Fits(p.(slot := slot), r) && Extends(s.msg, r.msg)
  {
    SetTargetExtends(s, t);
    hide Extends, TargetFits;
  }

  /** What holds inside an argument group. */
  lemma InGroup(p: Phase, s: State)
    requires Fits(p, s) && p.InCall? && p.slot != NoArg
    ensures HasTool(s) && p.body == ListBody && (s.quotePending ==> p.slot == Valued)
    ensures p.slot != Opened ==> s.argCount > 0
    ensures s.argCount > 0 ==> Target(s) != ""
    ensures Target(s) != "" ==> Target(s)[0] == '{'
    ensures s.argCount == 0 ==> Target(s) == "" || Target(s) == "{"
  {
  }

  lemma FitsArgName(p: Phase, s: State, n: Node)
    requires Fits(p, s) && p.InCall? && n.tag == ArgName
    ensures Keeps(p, s, n)
  {
    hide ArgEntry, Extends, Tool, Fits, WithTarget, Target;
    if p.slot == Opened {
      InGroup(p, s);
      var old' := if Target(s) == "" then "{" else Target(s);
      var t := old' + ArgEntry(s.argCount == 0, n.text);
      assert t[0] == old'[0];
      Retarget(p, s, t, s.argCount + 1, false, Named);
    }
  }

  lemma FitsArgValue(p: Phase, s: State, n: Node)
    requires Fits(p, s) && p.InCall? && n.tag in {ArgValue, ArgStringValue}
    ensures Keeps(p, s, n)
  {
    hide Extends, Tool, Fits, WithTarget, Target;
    if p.slot == Named {
      InGroup(p, s);
      var t := if n.tag == ArgValue then Target(s) + Quotes.Normalized(n.text)
               else Target(s) + "\"" + Json.Escape(n.text);
      assert t[0] == Target(s)[0];
      Retarget(p, s, t, s.argCount, n.tag == ArgStringValue, Valued);
    }
  }

  lemma FitsArgClose(p: Phase, s: State, n: Node)
    requires Fits(p, s) && p.InCall? && n.tag == ArgClose
    ensures Keeps(p, s, n)
  {
    hide Extends, Tool, Fits, WithTarget, Target;
    if p.slot == Named || p.slot == Valued {
      InGroup(p, s);
      var t := if s.quotePending then Target(s) + "\"" else Target(s);
      assert t[0] == Target(s)[0];
      TargetSelf(s);
      Retarget(p, s, t, s.argCount, false, NoArg);
    }
  }

  lemma FitsClose(p: Phase, s: State, n: Node)
    requires Fits(p, s) && p.InCall? && n.tag == ToolClose
    ensures Keeps(p, s, n)
  {
    hide Completed, CallsExtend;
    if p.slot == NoArg && p.named {
      var c := Tool(s).(arguments := Completed(Tool(s).arguments, s.quotePending));
      CompletedExtends(Tool(s).arguments, s.quotePending);
      SetToolExtends(s, c);
    } else if p.slot == NoArg {
      ExtendsSelf(s.msg);
    }
  }

  lemma CompletedExtends(a: string, quotePending: bool)
    ensures a <= Completed(a, quotePending)
  {
  }

  lemma ExtendsSelf(m: Msg)
    ensures Extends(m, m)
  {
  }

  /**
   Every node that may come next leaves a state that fits the next phase and a message that continues
   the last one.
   */
  lemma FitsStep(p: Phase, s: State, n: Node)
    requires Fits(p, s) && Next(p, n).Some?
    ensures Fits(Next(p, n).value, Step(s, n)) && Extends(s.msg, Step(s, n).msg)
  {
    hide Fits, Step, Extends, IsObjectText;
    if IsIgnored(n) || n.tag in {Reasoning, Content, ToolOpen} { FitsText(p, s, n); }
    else if n.tag == ToolId { FitsId(p, s, n); }
    else if n.tag == ToolName { FitsName(p, s, n); }
    else if n.tag == ArgName { FitsArgName(p, s, n); }
    else if n.tag == ArgValue || n.tag == ArgStringValue { FitsArgValue(p, s, n); }
    else if n.tag == ArgClose { FitsArgClose(p, s, n); }
    else if n.tag == ToolClose { FitsClose(p, s, n); }
    else { FitsArgs(p, s, n); }
  }

  lemma {:induction false} FitsRun(p: Phase, s: State, nodes: seq<Node>)
    requires Fits(p, s) && PhaseAfter(p, nodes).Some?
    ensures Fits(PhaseAfter(p, nodes).value, Run(s, nodes)) && Extends(s.msg, Run(s, nodes).msg)
    decreases |nodes|
  {
    hide Fits, Step, Next;
    if nodes != [] {
      var s', p' := Step(s, nodes[0]), Next(p, nodes[0]).value;
      FitsStep(p, s, nodes[0]);
      FitsRun(p', s', nodes[1..]);
      ExtendsTransitive(s.msg, s'.msg, Run(s', nodes[1..]).msg);
    }
  }

  /**
   State invariant: on a well-nested list the dropped storage of a pending call is never used, and
   between open and close the cursor denotes the pending call until the name is known, then the last
   call of the result.
   */
  lemma WellNestedState(nodes: seq<Node>)
    requires WellNested(nodes)
    ensures var s, p := Run(INIT, nodes), PhaseAfter(Idle, nodes).value;
      && !s.fault
      && (p.InCall? ==> s.current == if p.named then LastTool else PendingTool)
      && (s.pending.Some? <==> p.InCall? && !p.named)
  {
    FitsRun(Idle, INIT, nodes);
    hide Run;
  }
}
