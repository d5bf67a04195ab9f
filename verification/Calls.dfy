/**
 Complete tagged tool calls: the call they produce does not depend on where the name arrives, and
 its arguments are a balanced JSON object that reads back to the argument names and values.
 */
module Calls {
  import opened Text
  import opened Chat
  import opened Json
  import opened Mapper
  import opened ArgumentsText
  import Quotes
  import QuotesMeaning

  datatype Value = StringValue(text: string) | RawValue(text: string)

  datatype Arg = Arg(name: string, value: Value)

  /** The nodes of one argument group; the texts of the delimiters are ignored. */
  function GroupNodes(a: Arg): seq<Node> {
    [ Node(ArgOpen, ""), Node(ArgName, a.name),
      Node(if a.value.StringValue? then ArgStringValue else ArgValue, a.value.text), Node(ArgClose, "") ]
  }

  function GroupsNodes(args: seq<Arg>): seq<Node> {
    if args == [] then [] else GroupNodes(args[0]) + GroupsNodes(args[1..])
  }

  /** What is inside a call whose name arrives after `k` of its groups. */
  function CallNodes(name: string, args: seq<Arg>, k: nat): seq<Node>
    requires k <= |args|
  {
    GroupsNodes(args[..k]) + ([Node(ToolName, name)] + GroupsNodes(args[k..]))
  }

  function WithoutIds(nodes: seq<Node>): seq<Node> {
    if nodes == [] then []
    else if nodes[0].tag == ToolId then WithoutIds(nodes[1..])
    else [nodes[0]] + WithoutIds(nodes[1..])
  }

  /** The id after the nodes of a call that had `id` before them: the last one counts. */
  function LastId(nodes: seq<Node>, id: string): string {
    if nodes == [] then id
    else LastId(nodes[1..], if nodes[0].tag == ToolId then IdText(nodes[0].text) else id)
  }

  /** The id of a call: empty when none arrives. */
  function CallId(nodes: seq<Node>): string {
    LastId(nodes, "")
  }

  /** The nodes of one call around `inner`, with ids anywhere in it. */
  predicate IsAround(nodes: seq<Node>, inner: seq<Node>) {
    && |nodes| >= 2 && nodes[0] == Node(ToolOpen, "") && nodes[|nodes| - 1] == Node(ToolClose, "")
    && WithoutIds(nodes[1..|nodes| - 1]) == inner
  }

  function ValueText(v: Value): string {
    match v
    case StringValue(t) => "\"" + Escape(t) + "\""
    case RawValue(t) => Quotes.Normalized(t)
  }

  /** The member an argument adds to the object text. */
  function MemberText(first: bool, a: Arg): string {
    ArgEntry(first, a.name) + ValueText(a.value)
  }

  function MembersText(first: bool, args: seq<Arg>): string {
    if args == [] then "" else MemberText(first, args[0]) + MembersText(false, args[1..])
  }

  /** The object text a list of arguments adds up to, from what was there before. */
  function Collected(target: string, count: nat, args: seq<Arg>): string {
    (if target == "" && args != [] then "{" else target) + MembersText(count == 0, args)
  }

  // ---- What the groups do to the state ----

  lemma RetargetTwice(s: State, t: string, u: string)
    requires HasTool(s)
    ensures WithTarget(WithTarget(s, t), u) == WithTarget(s, u)
  {
  }

  /** Two fields that the target does not involve. */
  lemma RetargetFields(s: State, t: string, count: nat, quote: bool)
    requires HasTool(s)
    ensures var s' := s.(argCount := count, quotePending := quote);
      HasTool(s') && Target(s') == Target(s)
        && WithTarget(s', t) == WithTarget(s, t).(argCount := count, quotePending := quote)
  {
  }

  /** Nodes that act on the current call, one at a time. */
  lemma RunFour(s: State, a: Node, b: Node, c: Node, d: Node)
    ensures Run(s, [a, b, c, d]) == Step(Step(Step(Step(s, a), b), c), d)
  {
    hide Step;
    assert [a, b, c, d][1..] == [b, c, d] && [b, c, d][1..] == [c, d] && [c, d][1..] == [d] && [d][1..] == [];
    var s3 := Step(Step(Step(s, a), b), c);
    assert Run(s3, [d]) == Step(s3, d);
    assert Run(Step(Step(s, a), b), [c, d]) == Run(s3, [d]);
  }

  lemma NameStep(s: State, a: Arg)
    requires HasTool(s) && !s.quotePending
    ensures var base := if Target(s) == "" then "{" else Target(s);
      var n := Step(Step(s, Node(ArgOpen, "")), Node(ArgName, a.name));
      n == WithTarget(s, base + ArgEntry(s.argCount == 0, a.name)).(argCount := s.argCount + 1, quotePending := false)
  {
    hide ArgEntry, WithTarget, Target, Tool;
    assert s.(quotePending := false) == s;
  }

  lemma ValueSteps(s: State, a: Arg)
    requires HasTool(s) && !s.quotePending
    ensures var v := Node(if a.value.StringValue? then ArgStringValue else ArgValue, a.value.text);
      Step(Step(s, v), Node(ArgClose, "")) == WithTarget(s, Target(s) + ValueText(a.value))
  {
    hide WithTarget, Target, Tool, Escape;
    var t := Target(s);
    match a.value {
      case StringValue(x) =>
        var u := t + "\"" + Escape(x);
        RetargetFields(s, u, s.argCount, true);
        RetargetTwice(s, u, u + "\"");
        RetargetFields(WithTarget(s, u), u + "\"", s.argCount, true);
        assert u + "\"" == t + ("\"" + Escape(x) + "\"");
      case RawValue(x) =>
    }
  }

  lemma GroupRun(s: State, a: Arg)
    requires HasTool(s) && !s.quotePending
    ensures var base := if Target(s) == "" then "{" else Target(s);
      Run(s, GroupNodes(a)) == WithTarget(s, base + MemberText(s.argCount == 0, a)).(argCount := s.argCount + 1)
  {
    hide WithTarget, Target, Tool, ValueText, ArgEntry, Step, Run;
    NameStep(s, a);
    var base := if Target(s) == "" then "{" else Target(s);
    var entry := ArgEntry(s.argCount == 0, a.name);
    var n := WithTarget(s, base + entry).(argCount := s.argCount + 1, quotePending := false);
    RetargetFields(WithTarget(s, base + entry), base + entry + ValueText(a.value), s.argCount + 1, false);
    RetargetTwice(s, base + entry, base + entry + ValueText(a.value));
    ValueSteps(n, a);
    var v := Node(if a.value.StringValue? then ArgStringValue else ArgValue, a.value.text);
    RunFour(s, Node(ArgOpen, ""), Node(ArgName, a.name), v, Node(ArgClose, ""));
    assert base + entry + ValueText(a.value) == base + MemberText(s.argCount == 0, a);
  }

  lemma {:induction false} GroupsRun(s: State, args: seq<Arg>)
    requires HasTool(s) && !s.quotePending
    ensures Run(s, GroupsNodes(args)) ==
      WithTarget(s, Collected(Target(s), s.argCount, args)).(argCount := s.argCount + |args|)
    decreases |args|
  {
    hide WithTarget, Target, Tool, Step, GroupNodes, MemberText, Collected;
    TargetSelf(s);
    if args == [] {
      CollectedNothing(Target(s), s.argCount);
    } else {
      var base := if Target(s) == "" then "{" else Target(s);
      var t := base + MemberText(s.argCount == 0, args[0]);
      var s' := WithTarget(s, t).(argCount := s.argCount + 1);
      RunAppend(s, GroupNodes(args[0]), GroupsNodes(args[1..]));
      GroupRun(s, args[0]);
      RetargetFields(WithTarget(s, t), Collected(t, s.argCount + 1, args[1..]), s.argCount + 1, false);
      RetargetTwice(s, t, Collected(t, s.argCount + 1, args[1..]));
      GroupsRun(s', args[1..]);
      assert t != "";
      CollectedStep(base, s.argCount, args);
      SameCollected(Target(s), s.argCount, args);
    }
  }

  lemma CollectedNothing(target: string, count: nat)
    ensures Collected(target, count, []) == target && MembersText(count == 0, []) == ""
  {
    assert target + "" == target;
  }

  lemma CollectedStep(base: string, count: nat, args: seq<Arg>)
    requires args != [] && base != ""
    ensures Collected(base + MemberText(count == 0, args[0]), count + 1, args[1..]) == Collected(base, count, args)
  {
    hide MemberText;
    var m, n := MemberText(count == 0, args[0]), MembersText(false, args[1..]);
    assert base + m + n == base + (m + n);
  }

  lemma SameCollected(target: string, count: nat, args: seq<Arg>)
    requires args != []
    ensures Collected(target, count, args) == Collected(if target == "" then "{" else target, count, args)
  {
  }

  lemma {:induction false} MembersAppend(first: bool, a: seq<Arg>, b: seq<Arg>)
    ensures MembersText(first, a + b) == MembersText(first, a) + MembersText(first && a == [], b)
    decreases |a|
  {
    hide MemberText;
    if a == [] {
      assert a + b == b;
    } else {
      assert (a + b)[1..] == a[1..] + b;
      MembersAppend(false, a[1..], b);
      assert MemberText(first, a[0]) + (MembersText(false, a[1..]) + MembersText(false, b))
          == MemberText(first, a[0]) + MembersText(false, a[1..]) + MembersText(false, b);
    }
  }

  lemma CollectedAround(a: seq<Arg>, b: seq<Arg>)
    ensures var before := Collected("", 0, a);
      Collected(if before != "" then before else "{", |a|, b) == "{" + MembersText(true, a + b)
  {
    MembersAppend(true, a, b);
    CollectedNothing("", 0);
    hide MembersText;
    var m, n := MembersText(true, a), MembersText(|a| == 0, b);
    if a == [] {
      assert "" + n == n;
      assert m + n == n;
    } else {
      assert "{" + m + n == "{" + (m + n);
    }
  }

  /** The text collected around the name does not depend on where the name came. */
  lemma CollectedSplit(args: seq<Arg>, k: nat)
    requires k <= |args|
    ensures var before := Collected("", 0, args[..k]);
      Collected(if before != "" then before else "{", k, args[k..]) == "{" + MembersText(true, args)
  {
    hide Collected, MembersText;
    CollectedAround(args[..k], args[k..]);
    assert args[..k] + args[k..] == args;
  }

  lemma OpenState(s: State)
    ensures var o := Step(s, Node(ToolOpen, ""));
      && HasTool(o) && !o.quotePending && Target(o) == "" && o.argCount == 0 && o.msg == s.msg
      && Tool(o) == EMPTY_CALL && o.current == PendingTool
  {
  }

  lemma NameState(o: State, text: string, name: string)
    requires HasTool(o) && o.current == PendingTool && Tool(o) == EMPTY_CALL && TrimRight(name) != ""
    ensures var before := o.(buffer := text);
      var after := Step(before, Node(ToolName, name));
      && HasTool(after) && after.current == LastTool && after.argCount == o.argCount
      && after.quotePending == o.quotePending
      && after.msg == o.msg.(calls := o.msg.calls + [ToolCall(TrimRight(name), if text != "" then text else "{", "")])
      && Target(after) == (if text != "" then text else "{")
  {
    hide TrimRight;
  }

  lemma BufferTarget(o: State, t: string)
    requires HasTool(o) && o.current == PendingTool && Tool(o) == EMPTY_CALL
    ensures WithTarget(o, t) == o.(buffer := t)
  {
  }

  /** A call that is named and waits only for its end: `c`, with all quotes of its arguments closed. */
  predicate Awaits(t: State, msg: Msg, c: ToolCall) {
    HasTool(t) && t.current == LastTool && !t.quotePending && c.name != "" && t.msg == msg.(calls := msg.calls + [c])
  }

  lemma AwaitsTarget(t: State, msg: Msg, c: ToolCall, text: string, count: nat)
    requires Awaits(t, msg, c)
    ensures Awaits(WithTarget(t, text).(argCount := count), msg, c.(arguments := text))
  {
    assert (msg.calls + [c])[|msg.calls| := c.(arguments := text)] == msg.calls + [c.(arguments := text)];
  }

  lemma BareCall(s: State, name: string, args: seq<Arg>, k: nat)
    requires k <= |args| && TrimRight(name) != ""
    ensures Awaits(Run(Step(s, Node(ToolOpen, "")), CallNodes(name, args, k)), s.msg,
      ToolCall(TrimRight(name), "{" + MembersText(true, args), ""))
  {
    hide Step, WithTarget, Target, Tool, TrimRight, MembersText, Collected, HasTool, Awaits;
    var g1, g2 := GroupsNodes(args[..k]), GroupsNodes(args[k..]);
    var nameNode := Node(ToolName, name);
    var o := Step(s, Node(ToolOpen, ""));
    OpenState(s);
    var before := Collected("", 0, args[..k]);
    GroupsRun(o, args[..k]);
    BufferTarget(o, before);
    var o1 := o.(argCount := k);
    var s1 := o1.(buffer := before);
    assert Run(o, g1) == s1;
    OpenFields(o, k);
    NameState(o1, before, name);
    var s2 := Step(s1, nameNode);
    GroupsRun(s2, args[k..]);
    CollectedSplit(args, k);
    var c := ToolCall(TrimRight(name), if before != "" then before else "{", "");
    AwaitsTarget(s2, s.msg, c, "{" + MembersText(true, args), |args|);
    RunAround(o, g1, nameNode, g2);
  }

  lemma OpenFields(o: State, k: nat)
    requires HasTool(o) && o.current == PendingTool && Tool(o) == EMPTY_CALL
    ensures HasTool(o.(argCount := k)) && Tool(o.(argCount := k)) == EMPTY_CALL
  {
  }

  lemma RunAround(o: State, g1: seq<Node>, n: Node, g2: seq<Node>)
    ensures Run(o, g1 + ([n] + g2)) == Run(Step(Run(o, g1), n), g2)
  {
    hide Step;
    RunAppend(o, g1, [n] + g2);
    assert ([n] + g2)[1..] == g2;
  }

  // ---- Ids ----

  function WithId(s: State, id: string): (r: State)
    requires HasTool(s)
    ensures HasTool(r) && Target(r) == Target(s) && r.buffer == s.buffer && r.argCount == s.argCount
      && r.quotePending == s.quotePending
    ensures Tool(r) == Tool(s).(id := id) && r.pending.Some? == s.pending.Some?
  {
    WithTool(s, Tool(s).(id := id))
  }

  predicate InCall(nodes: seq<Node>) {
    forall k :: 0 <= k < |nodes| ==> nodes[k].tag != ToolOpen && nodes[k].tag != ToolClose && nodes[k].tag != ToolId
  }

  lemma IdTarget(s: State, id: string, t: string)
    requires HasTool(s)
    ensures WithTarget(WithId(s, id), t) == WithId(WithTarget(s, t), id)
  {
  }

  lemma IdFields(s: State, id: string, count: nat, quote: bool)
    requires HasTool(s)
    ensures var s' := s.(argCount := count, quotePending := quote);
      HasTool(s') && WithId(s', id) == WithId(s, id).(argCount := count, quotePending := quote)
  {
  }

  lemma IdMessage(s: State, id: string, content: string, reasoning: string)
    requires HasTool(s)
    ensures var s' := s.(msg := s.msg.(content := content, reasoning := reasoning));
      HasTool(s')
        && WithId(s', id) == (var r := WithId(s, id); r.(msg := r.msg.(content := content, reasoning := reasoning)))
  {
  }

  lemma IdName(s: State, id: string, text: string)
    requires HasTool(s)
    ensures HasTool(OnName(s, text)) && OnName(WithId(s, id), text) == WithId(OnName(s, text), id)
  {
    hide TrimRight, OnName;
    if s.current == PendingTool {
      IdNamePending(s, id, text);
    } else {
      IdNameLast(s, id, text);
    }
  }

  lemma IdNamePending(s: State, id: string, text: string)
    requires HasTool(s) && s.current == PendingTool
    ensures HasTool(OnName(s, text)) && OnName(WithId(s, id), text) == WithId(OnName(s, text), id)
  {
    hide TrimRight;
    var calls, c := s.msg.calls, s.pending.value.(name := TrimRight(text));
    var d := c.(arguments := if s.buffer != "" then s.buffer else if c.arguments == "" then "{" else c.arguments);
    assert (calls + [d])[|calls| := d.(id := id)] == calls + [d.(id := id)];
  }

  lemma IdNameLast(s: State, id: string, text: string)
    requires HasTool(s) && s.current == LastTool
    ensures HasTool(OnName(s, text)) && OnName(WithId(s, id), text) == WithId(OnName(s, text), id)
  {
    hide TrimRight;
  }

  lemma IdTwice(s: State, id: string, other: string)
    requires HasTool(s)
    ensures WithId(WithId(s, id), other) == WithId(s, other)
  {
  }

  /** Setting the id commutes with every node of a call that sets none. */
  lemma IdStep(s: State, id: string, n: Node)
    requires HasTool(s) && InCall([n])
    ensures HasTool(Step(s, n)) && Step(WithId(s, id), n) == WithId(Step(s, n), id)
  {
    hide WithId, WithTarget, Target, Tool, HasTool, TrimRight, IsObjectText, OnName, OnArgName, OnStringValue,
      OnArgClose, IdText;
    assert [n][0] == n;
    Cursors(s, id);
    match n.tag {
      case Reasoning => IdMessage(s, id, s.msg.content, s.msg.reasoning + n.text);
      case Content => IdMessage(s, id, s.msg.content + n.text, s.msg.reasoning);
      case ArgOpen => IdFields(s, id, s.argCount, false);
      case ToolName => IdName(s, id, n.text);
      case ToolArgs => IdTarget(s, id, TrimRight(n.text));
      case ArgName => IdArgName(s, id, n.text);
      case ArgStringValue => IdStringValue(s, id, n.text);
      case ArgValue => IdTarget(s, id, Target(s) + Quotes.Normalized(n.text));
      case ArgClose => IdArgClose(s, id);
      case _ =>
    }
  }

  lemma Cursors(s: State, id: string)
    requires HasTool(s)
    ensures s.current != NoTool && WithId(s, id).current == s.current
    ensures WithId(s, id).msg.content == s.msg.content && WithId(s, id).msg.reasoning == s.msg.reasoning
  {
  }

  lemma IdArgName(s: State, id: string, text: string)
    requires HasTool(s)
    ensures HasTool(OnArgName(s, text)) && OnArgName(WithId(s, id), text) == WithId(OnArgName(s, text), id)
  {
    hide WithId, WithTarget, Target, Tool, HasTool, ArgEntry;
    var t := (if Target(s) == "" then "{" else Target(s)) + ArgEntry(s.argCount == 0, text);
    IdTarget(s, id, t);
    IdFields(WithTarget(s, t), id, s.argCount + 1, s.quotePending);
    assert WithId(WithTarget(s, t), id).quotePending == s.quotePending;
  }

  lemma IdStringValue(s: State, id: string, text: string)
    requires HasTool(s)
    ensures HasTool(OnStringValue(s, text)) && OnStringValue(WithId(s, id), text) == WithId(OnStringValue(s, text), id)
  {
    hide WithId, WithTarget, Target, Tool, HasTool, Escape;
    var t := Target(s) + (if text == "" || !s.quotePending then "\"" else "") + Escape(text);
    IdTarget(s, id, t);
    IdFields(WithTarget(s, t), id, s.argCount, true);
  }

  lemma IdArgClose(s: State, id: string)
    requires HasTool(s)
    ensures HasTool(OnArgClose(s)) && OnArgClose(WithId(s, id)) == WithId(OnArgClose(s), id)
  {
    hide WithId, WithTarget, Target, Tool, HasTool;
    var t := Target(s) + "\"";
    IdTarget(s, id, t);
    IdFields(WithTarget(s, t), id, s.argCount, false);
  }

  lemma IdNode(s: State, id: string, n: Node)
    requires HasTool(s) && n.tag == ToolId
    ensures Step(WithId(s, id), n) == WithId(s, IdText(n.text))
  {
    hide IdText;
    IdTwice(s, id, IdText(n.text));
  }

  /** Ids may arrive anywhere among the nodes of a call: only its id depends on them. */
  lemma {:induction false} IdsRun(s: State, id: string, nodes: seq<Node>)
    requires HasTool(s) && InCall(WithoutIds(nodes))
    ensures var t := Run(s, WithoutIds(nodes)); HasTool(t) && Run(WithId(s, id), nodes) == WithId(t, LastId(nodes, id))
    decreases |nodes|
  {
    hide Step, WithId, HasTool, InCall, IdText;
    if nodes != [] {
      var n, rest := nodes[0], nodes[1..];
      if n.tag == ToolId {
        IdNode(s, id, n);
        IdsRun(s, IdText(n.text), rest);
      } else {
        var inner := WithoutIds(rest);
        assert ([n] + inner)[1..] == inner;
        InCallParts(n, inner);
        IdStep(s, id, n);
        IdsRun(Step(s, n), id, rest);
      }
    }
  }

  lemma InCallParts(n: Node, inner: seq<Node>)
    requires InCall([n] + inner)
    ensures InCall([n]) && InCall(inner)
  {
    assert ([n] + inner)[0] == n && ([n] + inner)[1..] == inner;
  }

  lemma InCallJoin(a: seq<Node>, b: seq<Node>)
    requires InCall(a) && InCall(b)
    ensures InCall(a + b)
  {
  }

  lemma {:induction false} GroupsInCall(args: seq<Arg>)
    ensures InCall(GroupsNodes(args))
  {
    if args != [] {
      GroupsInCall(args[1..]);
      InCallJoin(GroupNodes(args[0]), GroupsNodes(args[1..]));
    }
  }

  lemma CallInCall(name: string, args: seq<Arg>, k: nat)
    requires k <= |args|
    ensures InCall(CallNodes(name, args, k))
  {
    hide GroupsNodes;
    GroupsInCall(args[..k]);
    GroupsInCall(args[k..]);
    InCallJoin([Node(ToolName, name)], GroupsNodes(args[k..]));
    InCallJoin(GroupsNodes(args[..k]), [Node(ToolName, name)] + GroupsNodes(args[k..]));
  }

  lemma IdAwaits(t: State, msg: Msg, c: ToolCall, id: string)
    requires Awaits(t, msg, c)
    ensures Awaits(WithId(t, id), msg, c.(id := id))
  {
    assert (msg.calls + [c])[|msg.calls| := c.(id := id)] == msg.calls + [c.(id := id)];
  }

  lemma AwaitsClose(t: State, msg: Msg, c: ToolCall)
    requires Awaits(t, msg, c)
    ensures Step(t, Node(ToolClose, "")).msg ==
      msg.(calls := msg.calls + [c.(arguments := Completed(c.arguments, false))])
  {
    hide Completed;
    var d := c.(arguments := Completed(c.arguments, false));
    assert (msg.calls + [c])[|msg.calls| := d] == msg.calls + [d];
  }

  lemma {:induction false} LastIdRelevant(nodes: seq<Node>, id: string)
    ensures LastId(Relevant(nodes), id) == LastId(nodes, id)
    decreases |nodes|
  {
    hide IdText, IsObjectText;
    if nodes != [] {
      var n, rest := nodes[0], nodes[1..];
      LastIdRelevant(rest, if n.tag == ToolId then IdText(n.text) else id);
      assert ([Bared(n)] + Relevant(rest))[1..] == Relevant(rest);
    }
  }

  lemma {:induction false} LastIdInside(body: seq<Node>, n: Node, id: string)
    requires n.tag != ToolId
    ensures LastId(body + [n], id) == LastId(body, id)
    decreases |body|
  {
    hide IdText;
    if body == [] {
      assert body + [n] == [n] && [n][1..] == [];
    } else {
      assert (body + [n])[1..] == body[1..] + [n];
      LastIdInside(body[1..], n, if body[0].tag == ToolId then IdText(body[0].text) else id);
    }
  }

  /** Closing a call around nodes that leave `c` waiting for its end. */
  lemma Closed(s: State, nodes: seq<Node>, inner: seq<Node>, c: ToolCall)
    requires IsAround(Relevant(nodes), inner) && InCall(inner) && c.id == ""
    requires Awaits(Run(Step(s, Node(ToolOpen, "")), inner), s.msg, c)
    ensures Run(s, nodes).msg ==
      s.msg.(calls := s.msg.calls + [c.(arguments := Completed(c.arguments, false), id := CallId(nodes))])
  {
    hide Step, Completed, IdText, Relevant, InCall, Awaits, WithId, HasTool, Tool;
    var r := Relevant(nodes);
    var body, open, close := r[1..|r| - 1], r[0], r[|r| - 1];
    var o := Step(s, open);
    RunRelevant(s, nodes);
    LastIdRelevant(nodes, "");
    assert r == [open] + (body + [close]);
    assert r[1..] == body + [close];
    LastIdInside(body, close, "");
    OpenState(s);
    OpenId(s);
    IdsRun(o, "", body);
    var t := Run(o, inner);
    IdAwaits(t, s.msg, c, CallId(nodes));
    AwaitsClose(WithId(t, CallId(nodes)), s.msg, c.(id := CallId(nodes)));
    RunAppend(o, body, [close]);
    assert [close][1..] == [];
  }

  lemma OpenId(s: State)
    ensures var o := Step(s, Node(ToolOpen, "")); HasTool(o) && WithId(o, "") == o
  {
  }

  // ---- Unusual calls ----

  /** A string value that arrives in two pieces is the string of both. */
  lemma StringPieces(s: State, t: string, u: string)
    requires HasTool(s) && u != "" && (s.quotePending ==> t != "")
    ensures Step(Step(s, Node(ArgStringValue, t)), Node(ArgStringValue, u)) == Step(s, Node(ArgStringValue, t + u))
  {
    hide WithTarget, Target, Tool, Escape, HasTool;
    var opening := if t == "" || !s.quotePending then "\"" else "";
    var v := Target(s) + opening + Escape(t);
    RetargetFields(s, v, s.argCount, true);
    RetargetFields(WithTarget(s, v), v + Escape(u), s.argCount, true);
    RetargetTwice(s, v, v + Escape(u));
    EscapeAppend(t, u);
    assert v + "" + Escape(u) == v + Escape(u);
    assert v + Escape(u) == Target(s) + opening + (Escape(t) + Escape(u));
  }

  predicate Unnamed(s: State) {
    HasTool(s) && s.current == PendingTool && Tool(s).name == ""
  }

  predicate IsUnnamedBody(nodes: seq<Node>) {
    forall k :: 0 <= k < |nodes| ==>
      nodes[k].tag in {ToolId, ToolArgs, ArgOpen, ArgName, ArgValue, ArgStringValue, ArgClose}
  }

  lemma UnnamedStep(s: State, n: Node)
    requires Unnamed(s) && IsUnnamedBody([n])
    ensures Unnamed(Step(s, n)) && Step(s, n).msg == s.msg
  {
    hide IdText, IsObjectText, ArgEntry, TrimRight;
    assert [n][0] == n;
  }

  lemma {:induction false} UnnamedRun(s: State, nodes: seq<Node>)
    requires Unnamed(s) && IsUnnamedBody(nodes)
    ensures Unnamed(Run(s, nodes)) && Run(s, nodes).msg == s.msg
    decreases |nodes|
  {
    hide Step, Unnamed;
    if nodes != [] {
      UnnamedStep(s, nodes[0]);
      UnnamedRun(Step(s, nodes[0]), nodes[1..]);
    }
  }

  /** A call that is closed before its name arrives leaves nothing behind. */
  lemma UnnamedDropped(s: State, nodes: seq<Node>, body: seq<Node>)
    requires IsUnnamedBody(body) && Relevant(nodes) == [Node(ToolOpen, "")] + (body + [Node(ToolClose, "")])
    ensures Run(s, nodes).msg == s.msg
  {
    hide Step, Unnamed, Relevant, IsUnnamedBody;
    var open, close := Node(ToolOpen, ""), Node(ToolClose, "");
    var o := Step(s, open);
    RunRelevant(s, nodes);
    assert ([open] + (body + [close]))[1..] == body + [close];
    OpenUnnamed(s);
    UnnamedRun(o, body);
    RunAppend(o, body, [close]);
    assert [close][1..] == [];
    CloseUnnamed(Run(o, body));
  }

  lemma OpenUnnamed(s: State)
    ensures Unnamed(Step(s, Node(ToolOpen, ""))) && Step(s, Node(ToolOpen, "")).msg == s.msg
  {
  }

  lemma CloseUnnamed(s: State)
    requires Unnamed(s)
    ensures Step(s, Node(ToolClose, "")).msg == s.msg
  {
    hide Completed;
  }

  // ---- Complete calls ----

  /**
   The visited nodes of a complete call: enclosing nodes and wrappers of its arguments may stand
   anywhere, ids anywhere inside it, and delimiters may have any text.
   */
  predicate IsCall(nodes: seq<Node>, name: string, args: seq<Arg>, k: nat) {
    k <= |args| && TrimRight(name) != "" && IsAround(Relevant(nodes), CallNodes(name, args, k))
  }

  /**
   The call a complete list of nodes produces, wherever its name arrives among the argument groups
   and wherever its id arrives: the arguments are the members in order, with exactly the missing
   braces added, and the id is the last one given.
   */
  lemma CallResult(s: State, nodes: seq<Node>, name: string, args: seq<Arg>, k: nat)
    requires IsCall(nodes, name, args, k)
    ensures Run(s, nodes).msg == s.msg.(calls := s.msg.calls +
      [ToolCall(TrimRight(name), Completed("{" + MembersText(true, args), false), CallId(nodes))])
  {
    hide Run, Relevant, CallNodes, Completed, MembersText, TrimRight, Awaits, IsAround, Step, InCall, CallId;
    BareCall(s, name, args, k);
    CallInCall(name, args, k);
    Closed(s, nodes, CallNodes(name, args, k), ToolCall(TrimRight(name), "{" + MembersText(true, args), ""));
  }

  /** The visited nodes of a complete call whose arguments come as one object text, before or after the name. */
  predicate IsObjectCall(nodes: seq<Node>, name: string, text: string) {
    var n, a := Node(ToolName, name), Node(ToolArgs, text);
    && TrimRight(name) != "" && IsObjectText(text)
    && (IsAround(Relevant(nodes), [n, a]) || IsAround(Relevant(nodes), [a, n]))
  }

  /** A call whose arguments come as one object text: before or after the name, the result is the same. */
  lemma ObjectCallResult(s: State, nodes: seq<Node>, name: string, text: string)
    requires IsObjectCall(nodes, name, text)
    ensures Run(s, nodes).msg == s.msg.(calls := s.msg.calls +
      [ToolCall(TrimRight(name), Completed(TrimRight(text), false), CallId(nodes))])
  {
    hide Run, Relevant, Completed, TrimRight, IsObjectText, Awaits, IsAround, Step, CallId;
    var n, a := Node(ToolName, name), Node(ToolArgs, text);
    var c := ToolCall(TrimRight(name), TrimRight(text), "");
    if IsAround(Relevant(nodes), [n, a]) {
      ObjectNamedFirst(s, name, text);
      Closed(s, nodes, [n, a], c);
    } else {
      ObjectNamedLast(s, name, text);
      Closed(s, nodes, [a, n], c);
    }
  }

  lemma {:induction false} BracesOfRepeat(n: nat)
    ensures Braces(Repeat('}', n)) == 0 - n as int
  {
    if n > 0 {
      BracesOfRepeat(n - 1);
      assert (['}'] + Repeat('}', n - 1))[1..] == Repeat('}', n - 1);
    }
  }

  /** Text that lacks `n` closing braces at its end, and nothing else, gets exactly these. */
  lemma CompletedBraces(t: string, n: nat)
    requires Balanced(Structure(t, false) + Repeat('}', n), "")
    ensures Completed(t, false) == t + Repeat('}', n)
  {
    var st := Structure(t, false);
    BalancedBraces(st + Repeat('}', n), "");
    BracesAppend(st, Repeat('}', n));
    BracesOfRepeat(n);
  }

  /** The arguments of an object call are the object text, closed if it lacks closing braces at its end. */
  lemma ObjectArguments(s: State, nodes: seq<Node>, name: string, text: string, n: nat)
    requires IsObjectCall(nodes, name, text) && Balanced(Structure(TrimRight(text), false) + Repeat('}', n), "")
    ensures Run(s, nodes).msg == s.msg.(calls := s.msg.calls +
      [ToolCall(TrimRight(name), TrimRight(text) + Repeat('}', n), CallId(nodes))])
  {
    hide Run, IsObjectCall, Completed, TrimRight, CallId, Balanced, Structure;
    ObjectCallResult(s, nodes, name, text);
    CompletedBraces(TrimRight(text), n);
  }

  lemma RunTwo(s: State, a: Node, b: Node)
    ensures Run(s, [a, b]) == Step(Step(s, a), b)
  {
    hide Step;
    assert [a, b][1..] == [b] && [b][1..] == [];
    assert Run(Step(s, a), [b]) == Step(Step(s, a), b);
  }

  lemma ObjectNamedFirst(s: State, name: string, text: string)
    requires TrimRight(name) != "" && IsObjectText(text)
    ensures Awaits(Run(Step(s, Node(ToolOpen, "")), [Node(ToolName, name), Node(ToolArgs, text)]), s.msg,
      ToolCall(TrimRight(name), TrimRight(text), ""))
  {
    hide Run, TrimRight, OnName, OnOpen, WithTarget, Target, Tool, HasTool;
    var o := Step(s, Node(ToolOpen, ""));
    OpenState(s);
    RunTwo(o, Node(ToolName, name), Node(ToolArgs, text));
    BufferTarget(o, "");
    NameState(o, "", name);
    assert o.(buffer := "") == o by { TargetSelf(o); }
    var n := Step(o, Node(ToolName, name));
    AwaitsTarget(n, s.msg, ToolCall(TrimRight(name), "{", ""), TrimRight(text), n.argCount);
    ArgsNode(n, text);
  }

  lemma ArgsNode(s: State, text: string)
    requires HasTool(s) && IsObjectText(text)
    ensures Step(s, Node(ToolArgs, text)) == WithTarget(s, TrimRight(text)).(argCount := s.argCount)
  {
    hide TrimRight;
  }

  lemma ObjectNamedLast(s: State, name: string, text: string)
    requires TrimRight(name) != "" && IsObjectText(text)
    ensures Awaits(Run(Step(s, Node(ToolOpen, "")), [Node(ToolArgs, text), Node(ToolName, name)]), s.msg,
      ToolCall(TrimRight(name), TrimRight(text), ""))
  {
    hide Run, TrimRight, OnName, OnOpen, WithTarget, Target, Tool, HasTool;
    var o := Step(s, Node(ToolOpen, ""));
    OpenState(s);
    RunTwo(o, Node(ToolArgs, text), Node(ToolName, name));
    BufferTarget(o, TrimRight(text));
    ArgsNode(o, text);
    NameState(o, TrimRight(text), name);
  }

  // ---- Reading the arguments back ----

  /** A raw value is one value in Python's notation or JSON's: its quotes and brackets are closed. */
  predicate IsRawValue(t: string) {
    t != "" && QuotesMeaning.PyMode(t, Quotes.Bare) == Quotes.Bare
      && Balanced(QuotesMeaning.PyStructure(t, Quotes.Bare), "")
  }

  predicate WellFormed(args: seq<Arg>) {
    forall k :: 0 <= k < |args| && args[k].value.RawValue? ==> IsRawValue(args[k].value.text)
  }

  function Expected(args: seq<Arg>): seq<Member> {
    if args == [] then [] else [Member(CodesOf(TrimOnce(args[0].name)), ValueText(args[0].value))] + Expected(args[1..])
  }

  lemma NormalizedNonempty(t: string)
    requires t != ""
    ensures Quotes.Normalized(t) != ""
  {
    Quotes.AdvanceEmits(t, false, Quotes.Bare);
    hide Quotes.Advance;
  }

  lemma ValueTextIsValue(v: Value)
    requires v.RawValue? ==> IsRawValue(v.text)
    ensures IsValue(ValueText(v))
  {
    match v {
      case StringValue(t) => QuotedText(t, "");
      case RawValue(t) =>
        QuotesMeaning.NormalizedStructure(t);
        NormalizedNonempty(t);
    }
  }

  /** One member is read off the front, whatever follows it. */
  lemma ReadOne(key: string, v: string, r: string)
    requires IsValue(v) && r != "" && (r[0] == ',' || r[0] == '}')
    ensures var m := Member(CodesOf(key), v);
      ReadMembers(Quoted(key) + ":" + v + r) ==
        if r == "}" then Some([m])
        else if r[0] != ',' then None
        else match ReadMembers(r[1..]) case None => None case Some(ms) => Some([m] + ms)
  {
    hide IsValue, Structure, ValueEnd, BodyEnd, ReadBody, Escape, ReadMembers;
    var e, tail := Escape(key), ":" + v + r;
    var s := Quoted(key) + ":" + v + r;
    assert s[1..] == e + "\"" + tail;
    QuotedText(key, tail);
    ReadEscape(key);
    assert e + "\"" + tail == e + ("\":" + (v + r));
    ValueFound(v, r);
    MembersFront(s, e, v, r);
  }

  /** The reader at a member whose ends are known. */
  lemma MembersFront(s: string, e: string, v: string, r: string)
    requires s != "" && s[0] == '"' && s[1..] == e + ("\":" + (v + r))
    requires BodyEnd(s[1..]) == |e| && ReadBody(e).Some? && ValueEnd(v + r, 0, false) == |v| && r != ""
    ensures var m := Member(ReadBody(e).value, v);
      ReadMembers(s) ==
        if r == "}" then Some([m])
        else if r[0] != ',' then None
        else match ReadMembers(r[1..]) case None => None case Some(ms) => Some([m] + ms)
  {
    hide ValueEnd, BodyEnd, ReadBody;
    var t := "\":" + (v + r);
    assert s[1..][..|e|] == e && s[1..][|e|..] == t;
    assert t[2..] == v + r && (v + r)[..|v|] == v && (v + r)[|v|..] == r;
  }

  lemma ValueFound(v: string, r: string)
    requires IsValue(v) && r != "" && (r[0] == ',' || r[0] == '}')
    ensures ValueEnd(v + r, 0, false) == |v|
  {
    ValueEndFound(v, false, "", r);
  }

  /** A member without the comma before it. */
  function Entry(a: Arg): string {
    Quoted(TrimOnce(a.name)) + ":" + ValueText(a.value)
  }

  lemma MemberShape(first: bool, a: Arg)
    ensures MemberText(first, a) == if first then Entry(a) else "," + Entry(a)
  {
    hide Quoted, ValueText;
    var q, v := Quoted(TrimOnce(a.name)), ValueText(a.value);
    if first {
      assert "" + q == q;
    } else {
      Associate(",", q, ":");
      Associate(",", q + ":", v);
    }
  }

  lemma MembersUnfold(first: bool, args: seq<Arg>)
    requires args != []
    ensures MembersText(first, args) == if first then Entry(args[0]) + MembersText(false, args[1..])
                                        else "," + (Entry(args[0]) + MembersText(false, args[1..]))
  {
    hide MemberText, Entry;
    MemberShape(first, args[0]);
    Associate(",", Entry(args[0]), MembersText(false, args[1..]));
  }

  lemma {:induction false} MembersRead(args: seq<Arg>)
    requires args != [] && WellFormed(args)
    ensures ReadMembers(MembersText(true, args) + "}") == Some(Expected(args))
    decreases |args|
  {
    hide IsValue, ReadMembers, ValueText, Quoted, MembersText;
    var key, v := TrimOnce(args[0].name), ValueText(args[0].value);
    var more := MembersText(false, args[1..]);
    ValueTextIsValue(args[0].value);
    MembersUnfold(true, args);
    assert MembersText(true, args) + "}" == Quoted(key) + ":" + v + (more + "}");
    if args[1..] == [] {
      MembersEmpty();
      assert more + "}" == "}";
      ReadOne(key, v, "}");
      assert Expected(args[1..]) == [] && [Member(CodesOf(key), v)] + [] == [Member(CodesOf(key), v)];
    } else {
      MembersUnfold(false, args[1..]);
      MembersUnfold(true, args[1..]);
      var rest := MembersText(true, args[1..]) + "}";
      assert more + "}" == "," + rest;
      assert ("," + rest)[1..] == rest;
      ReadOne(key, v, "," + rest);
      MembersRead(args[1..]);
    }
  }

  lemma MembersEmpty()
    ensures MembersText(false, []) == "" && MembersText(true, []) == ""
  {
  }

  /** Closed structure does not matter for what is around it. */
  lemma {:induction false} BalancedWithin(u: string, own: string, st: string, closers: string)
    requires Balanced(u, own) && closers != "" && Balanced(st, closers)
    ensures Balanced(u + st, own + closers)
  {
    if u == "" {
      assert u + st == st && own + closers == closers;
    } else {
      assert (u + st)[1..] == u[1..] + st;
      if u[0] == '{' {
        BalancedWithin(u[1..], "}" + own, st, closers);
        assert "}" + own + closers == "}" + (own + closers);
      } else if u[0] == '[' {
        BalancedWithin(u[1..], "]" + own, st, closers);
        assert "]" + own + closers == "]" + (own + closers);
      } else if u[0] == '}' || u[0] == ']' {
        BalancedWithin(u[1..], own[1..], st, closers);
        assert (own + closers)[1..] == own[1..] + closers;
      } else {
        BalancedWithin(u[1..], own, st, closers);
      }
    }
  }

  lemma EntryStructure(a: Arg)
    requires IsValue(ValueText(a.value))
    ensures !OpenString(Entry(a), false) && Structure(Entry(a), false) == ":" + Structure(ValueText(a.value), false)
  {
    hide ValueText, Balanced;
    var key, v := TrimOnce(a.name), ValueText(a.value);
    QuotedText(key, "");
    var q := Quoted(key);
    StructureAppend(q, ":" + v, false);
    StructureAppend(":", v, false);
    assert ":"[1..] == "" && Structure(":", false) == ":" && q + (":" + v) == q + ":" + v;
    assert Structure(q, false) + Structure(":" + v, false) == Structure(":" + v, false);
  }

  lemma {:induction false} MembersStructure(first: bool, args: seq<Arg>, st: string, closers: string)
    requires WellFormed(args) && closers != "" && Balanced(st, closers)
    ensures var t := MembersText(first, args); !OpenString(t, false) && Balanced(Structure(t, false) + st, closers)
    decreases |args|
  {
    if args == [] {
      MembersEmpty();
      assert "" + st == st;
    } else {
      hide ValueText, Quoted, Structure, OpenString, MembersText, Balanced, Entry, WellFormed;
      var key, v, more := TrimOnce(args[0].name), ValueText(args[0].value), MembersText(false, args[1..]);
      FirstIsValue(args);
      EntryStructure(args[0]);
      MembersStructure(false, args[1..], st, closers);
      StructureAppend(Entry(args[0]), more, false);
      EntryBalanced(Structure(v, false), Structure(more, false), st, closers);
      CommaStructure(Entry(args[0]) + more);
      MembersUnfold(first, args);
    }
  }

  lemma FirstIsValue(args: seq<Arg>)
    requires args != [] && WellFormed(args)
    ensures IsValue(ValueText(args[0].value)) && WellFormed(args[1..])
  {
    ValueTextIsValue(args[0].value);
    hide IsRawValue, ValueText, IsValue;
  }

  lemma EntryBalanced(v: string, more: string, st: string, closers: string)
    requires Balanced(v, "") && closers != "" && Balanced(more + st, closers)
    ensures Balanced(":" + v + more + st, closers) && Balanced("," + (":" + v + more) + st, closers)
  {
    hide Balanced;
    BalancedWithin(v, "", more + st, closers);
    assert "" + closers == closers;
    Separated(':', v + (more + st), closers);
    assert ":" + (v + (more + st)) == ":" + v + more + st;
    Separated(',', ":" + v + more + st, closers);
    assert "," + (":" + v + more + st) == "," + (":" + v + more) + st;
  }

  lemma Separated(c: char, st: string, closers: string)
    requires (c == ',' || c == ':') && closers != "" && Balanced(st, closers)
    ensures Balanced([c] + st, closers)
  {
    assert ([c] + st)[1..] == st;
  }

  lemma CommaStructure(t: string)
    ensures Structure("," + t, false) == "," + Structure(t, false) && OpenString("," + t, false) == OpenString(t, false)
  {
    assert ("," + t)[1..] == t;
  }

  lemma BraceAround(t: string)
    requires !OpenString(t, false) && Balanced(Structure(t, false) + "}", "}")
    ensures Completed("{" + t, false) == "{" + t + "}" && IsValue("{" + t + "}")
  {
    hide Balanced, Braces;
    var st := Structure(t, false);
    assert ("{" + t)[1..] == t;
    StructureAppend("{" + t, "}", false);
    assert "}"[1..] == "" && Structure("}", false) == "}";
    assert Structure("{" + t + "}", false) == "{" + (st + "}");
    BraceOpens(st + "}");
    BalancedBraces(st + "}", "}");
    BracesAppend(st, "}");
    BracesAppend("{", st);
    OneBrace();
    assert Structure("{" + t, false) == "{" + st;
  }

  lemma BraceOpens(st: string)
    requires Balanced(st, "}")
    ensures Balanced("{" + st, "")
  {
    assert ("{" + st)[1..] == st && "}" + "" == "}";
  }

  lemma OneBrace()
    ensures Braces("{") == 1 && Braces("}") == -1 && Repeat('}', 1) == "}"
  {
    assert "{"[1..] == "" && "}"[1..] == "" && Repeat('}', 0) == "" && ['}'] + "" == "}";
  }

  /** The member texts of string values decode to the strings. */
  lemma StringTextDecodes(t: string)
    ensures var text := ValueText(StringValue(t)); ReadBody(text[1..|text| - 1]) == Some(CodesOf(t))
  {
    ReadEscape(t);
    var text := ValueText(StringValue(t));
    assert text[1..|text| - 1] == Escape(t);
  }

  /**
   For every well-formed call: the arguments form one closed, balanced object, and reading it gives
   exactly the names and values in order; braces and quotes inside the values change nothing.
   */
  lemma CallReadsBack(s: State, nodes: seq<Node>, name: string, args: seq<Arg>, k: nat)
    requires IsCall(nodes, name, args, k) && WellFormed(args)
    ensures var calls := Run(s, nodes).msg.calls;
      && |calls| == |s.msg.calls| + 1
      && var c := calls[|s.msg.calls|];
        && c.name == TrimRight(name) && c.id == CallId(nodes)
        && IsValue(c.arguments) && ReadObject(c.arguments) == Some(Expected(args))
        && BraceDepth(c.arguments) == 0
  {
    hide Run, IsCall, CallId, OpenString, Structure, TrimRight, Completed, ReadObject, MembersText, Expected,
      WellFormed, Balanced;
    CallResult(s, nodes, name, args, k);
    ClosesItself();
    MembersStructure(true, args, "}", "}");
    BraceAround(MembersText(true, args));
    BalancedBraces(Structure(Run(s, nodes).msg.calls[|s.msg.calls|].arguments, false), "");
    ArgumentsRead(args);
  }

  lemma ClosesItself()
    ensures Balanced("}", "}")
  {
    assert "}"[1..] == "";
  }

  lemma ArgumentsRead(args: seq<Arg>)
    requires WellFormed(args)
    ensures ReadObject("{" + MembersText(true, args) + "}") == Some(Expected(args))
  {
    hide ReadMembers, WellFormed, MembersText, Expected;
    if args == [] {
      NothingRead();
    } else {
      var t := MembersText(true, args);
      MembersRead(args);
      assert ("{" + t + "}")[1..] == t + "}";
      NotEmptyObject(t, args);
    }
  }

  lemma NothingRead()
    ensures ReadObject("{" + MembersText(true, []) + "}") == Some(Expected([]))
  {
    hide ReadMembers;
    assert "{" + "" + "}" == "{}";
  }

  lemma NotEmptyObject(t: string, args: seq<Arg>)
    requires args != [] && t == MembersText(true, args)
    ensures "{" + t + "}" != "{}"
  {
    MembersUnfold(true, args);
    hide MembersText;
    assert ("{" + t + "}")[1] == t[0] == '"';
  }
}
