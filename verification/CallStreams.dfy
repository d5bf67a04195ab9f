/** Lists of complete calls, and any well-nested list, as streams that arrive node by node. */
module CallStreams {
  import opened Text
  import opened Chat
  import opened ChatDiff
  import opened Mapper
  import opened Streaming
  import opened EndToEnd
  import Calls
  import Quotes
  import QuotesGrowth
  import ToolIds

  // ---- Complete calls are well nested ----

  /** A call with its name after `k` groups and, if there is one, its id in front. */
  datatype Call = Call(name: string, args: seq<Calls.Arg>, k: nat, id: Option<string>)

  predicate IsGood(c: Call) {
    c.k <= |c.args| && TrimRight(c.name) != ""
  }

  function IdNodes(id: Option<string>): seq<Node> {
    if id.Some? then [Node(ToolId, id.value)] else []
  }

  function NodesOf(c: Call): seq<Node>
    requires IsGood(c)
  {
    [Node(ToolOpen, "")] + (IdNodes(c.id) + (Calls.CallNodes(c.name, c.args, c.k) + [Node(ToolClose, "")]))
  }

  lemma GroupNests(p: Phase, a: Calls.Arg)
    requires p.InCall? && p.slot == NoArg && p.body != ObjectBody
    ensures PhaseAfter(p, Calls.GroupNodes(a)) == Some(p.(body := ListBody))
  {
    var v := Node(if a.value.StringValue? then ArgStringValue else ArgValue, a.value.text);
    var o, n, c := Node(ArgOpen, ""), Node(ArgName, a.name), Node(ArgClose, "");
    var q := p.(body := ListBody, slot := Opened);
    GroupSteps(p, a);
    hide Next;
    Onward(p, o, [n] + ([v] + [c]));
    Onward(q, n, [v] + [c]);
    Onward(q.(slot := Named), v, [c]);
    SingleNode(q.(slot := Valued), INIT, c);
    assert Calls.GroupNodes(a) == [o] + ([n] + ([v] + [c]));
  }

  lemma GroupSteps(p: Phase, a: Calls.Arg)
    requires p.InCall? && p.slot == NoArg && p.body != ObjectBody
    ensures var q := p.(body := ListBody, slot := Opened);
      var v := Node(if a.value.StringValue? then ArgStringValue else ArgValue, a.value.text);
      && Next(p, Node(ArgOpen, "")) == Some(q) && Next(q, Node(ArgName, a.name)) == Some(q.(slot := Named))
      && Next(q.(slot := Named), v) == Some(q.(slot := Valued))
      && Next(q.(slot := Valued), Node(ArgClose, "")) == Some(p.(body := ListBody))
  {
    hide TrimRight;
  }

  lemma {:induction false} GroupsNest(p: Phase, args: seq<Calls.Arg>)
    requires p.InCall? && p.slot == NoArg && p.body != ObjectBody
    ensures PhaseAfter(p, Calls.GroupsNodes(args)) == Some(if args == [] then p else p.(body := ListBody))
    decreases |args|
  {
    hide Next, Calls.GroupNodes;
    if args != [] {
      GroupNests(p, args[0]);
      PhaseAppend(p, Calls.GroupNodes(args[0]), Calls.GroupsNodes(args[1..]));
      GroupsNest(p.(body := ListBody), args[1..]);
    }
  }

  lemma NameNests(p: Phase, name: string)
    requires p.InCall? && p.slot == NoArg && !p.named && TrimRight(name) != ""
    ensures PhaseAfter(p, [Node(ToolName, name)]) == Some(p.(named := true))
  {
    SingleNode(p, INIT, Node(ToolName, name));
  }

  lemma EndsNest(p: Phase, id: Option<string>)
    ensures PhaseAfter(p, [Node(ToolOpen, "")]) == Some(InCall(false, false, Fresh, NoArg))
    ensures PhaseAfter(InCall(false, false, Fresh, NoArg), IdNodes(id)) == Some(InCall(false, id.Some?, Fresh, NoArg))
    ensures p.InCall? && p.slot == NoArg ==> PhaseAfter(p, [Node(ToolClose, "")]) == Some(Idle)
  {
    SingleNode(p, INIT, Node(ToolOpen, ""));
    SingleNode(p, INIT, Node(ToolClose, ""));
    if id.Some? { SingleNode(InCall(false, false, Fresh, NoArg), INIT, Node(ToolId, id.value)); }
  }

  /** A complete call may come in every phase and ends outside calls. */
  lemma CallNests(p: Phase, c: Call)
    requires IsGood(c)
    ensures PhaseAfter(p, NodesOf(c)) == Some(Idle)
  {
    hide Next, TrimRight, Calls.GroupsNodes;
    var g1, g2 := Calls.GroupsNodes(c.args[..c.k]), Calls.GroupsNodes(c.args[c.k..]);
    var open, name, close := [Node(ToolOpen, "")], [Node(ToolName, c.name)], [Node(ToolClose, "")];
    var p1 := InCall(false, c.id.Some?, Fresh, NoArg);
    var p2 := if c.k == 0 then p1 else p1.(body := ListBody);
    var p3 := p2.(named := true);
    var p4 := if c.k == |c.args| then p3 else p3.(body := ListBody);
    EndsNest(p, c.id);
    EndsNest(p4, c.id);
    GroupsNest(p1, c.args[..c.k]);
    NameNests(p2, c.name);
    GroupsNest(p3, c.args[c.k..]);
    PhaseAppend(p, open, IdNodes(c.id) + (Calls.CallNodes(c.name, c.args, c.k) + close));
    PhaseAppend(InCall(false, false, Fresh, NoArg), IdNodes(c.id), Calls.CallNodes(c.name, c.args, c.k) + close);
    PhaseAppend(p1, g1 + (name + g2), close);
    PhaseAppend(p1, g1, name + g2);
    PhaseAppend(p2, name, g2);
  }

  /** A call with one object text may come in every phase too, named before or after its arguments. */
  lemma ObjectCallNests(p: Phase, name: string, text: string, id: Option<string>)
    requires TrimRight(name) != "" && IsObjectText(text)
    ensures var n, a, close := [Node(ToolName, name)], [Node(ToolArgs, text)], [Node(ToolClose, "")];
      && PhaseAfter(p, [Node(ToolOpen, "")] + (IdNodes(id) + (n + (a + close)))) == Some(Idle)
      && PhaseAfter(p, [Node(ToolOpen, "")] + (IdNodes(id) + (a + (n + close)))) == Some(Idle)
  {
    var n, a, close := [Node(ToolName, name)], [Node(ToolArgs, text)], [Node(ToolClose, "")];
    var p1 := InCall(false, id.Some?, Fresh, NoArg);
    var q, r, both := p1.(named := true), p1.(body := ObjectBody), p1.(named := true, body := ObjectBody);
    EndsNest(p, id);
    EndsNest(both, id);
    NameNests(p1, name);
    NameNests(r, name);
    ArgsNest(p1, text);
    ArgsNest(q, text);
    hide Next, TrimRight, IsObjectText;
    PhaseAppend(p, [Node(ToolOpen, "")], IdNodes(id) + (n + (a + close)));
    PhaseAppend(p, [Node(ToolOpen, "")], IdNodes(id) + (a + (n + close)));
    PhaseAppend(InCall(false, false, Fresh, NoArg), IdNodes(id), n + (a + close));
    PhaseAppend(InCall(false, false, Fresh, NoArg), IdNodes(id), a + (n + close));
    PhaseAppend(p1, n, a + close);
    PhaseAppend(p1, a, n + close);
    PhaseAppend(q, a, close);
    PhaseAppend(r, n, close);
  }

  lemma ArgsNest(p: Phase, text: string)
    requires p.InCall? && p.slot == NoArg && p.body == Fresh && IsObjectText(text)
    ensures PhaseAfter(p, [Node(ToolArgs, text)]) == Some(p.(body := ObjectBody))
  {
    SingleNode(p, INIT, Node(ToolArgs, text));
  }

  /** One id may come wherever no argument is open, and text, reasoning and enclosing nodes anywhere. */
  lemma OthersNest(p: Phase, n: Node)
    ensures n.tag == ToolId && p.InCall? && p.slot == NoArg && !p.idSeen ==>
      PhaseAfter(p, [n]) == Some(p.(idSeen := true))
    ensures n.tag == Reasoning || n.tag == Content || n.tag == OtherTag ==> PhaseAfter(p, [n]) == Some(p)
  {
    SingleNode(p, INIT, n);
  }

  function AllNodes(cs: seq<Call>): seq<Node>
    requires forall k :: 0 <= k < |cs| ==> IsGood(cs[k])
  {
    if cs == [] then [] else NodesOf(cs[0]) + AllNodes(cs[1..])
  }

  /** Any number of complete calls is well nested, from every phase. */
  lemma {:induction false} CallsNest(p: Phase, cs: seq<Call>)
    requires forall k :: 0 <= k < |cs| ==> IsGood(cs[k])
    ensures PhaseAfter(p, AllNodes(cs)) == Some(if cs == [] then p else Idle)
    decreases |cs|
  {
    hide Next, NodesOf, IsGood;
    if cs != [] {
      CallNests(p, cs[0]);
      PhaseAppend(p, NodesOf(cs[0]), AllNodes(cs[1..]));
      CallsNest(Idle, cs[1..]);
    }
  }

  // ---- Node by node ----

  /** The lists of the first one, two and more nodes behind `x`. */
  function Beginnings(x: seq<Node>, more: seq<Node>): (r: seq<seq<Node>>)
    ensures |r| == |more|
    decreases |more|
  {
    if more == [] then [] else [x + [more[0]]] + Beginnings(x + [more[0]], more[1..])
  }

  lemma {:induction false} RelevantAppend(a: seq<Node>, b: seq<Node>)
    ensures Relevant(a + b) == Relevant(a) + Relevant(b)
    decreases |a|
  {
    hide IsIgnored, Bared;
    if a == [] {
      assert a + b == b;
    } else {
      assert (a + b)[1..] == a[1..] + b;
      RelevantAppend(a[1..], b);
    }
  }

  /** Nodes behind a list make it grow, and never change what has been sent. */
  lemma AppendedGrows(x: seq<Node>, y: seq<Node>)
    requires WellNested(x)
    ensures Grows(x, x + y) && !Breaks(x, x + y)
  {
    hide Relevant, PhaseAfter;
    RelevantAppend(x, y);
    PhaseRelevant(Idle, x);
    var u, z := Relevant(x), Relevant(x) + Relevant(y);
    if u != [] {
      assert z[..|u| - 1] == u[..|u| - 1] && z[|u| - 1] == u[|u| - 1];
      SameConfirmed(u[|u| - 1]);
    }
  }

  /** So does a longer last text of these five kinds, with more nodes behind it. */
  lemma TextGrows(x: seq<Node>, tag: Tag, t: string, u: string, y: seq<Node>)
    requires tag == Reasoning || tag == Content || tag == ToolArgs || tag == ArgValue || tag == ArgStringValue
    requires t <= u
    ensures Grows(x + [Node(tag, t)], x + ([Node(tag, u)] + y))
  {
    var a, b := Node(tag, t), Node(tag, u);
    RelevantAppend(x, [a]);
    RelevantAppend(x, [b] + y);
    RelevantAppend([b], y);
    RelevantOne(a);
    RelevantOne(b);
    ObjectGrows(t, u);
    hide Relevant, IsObjectText;
    var r, more := Relevant(x), Relevant(y);
    if IsIgnored(a) {
      assert r + [] == r;
      if r != [] { assert (r + (Relevant([b]) + more))[..|r| - 1] == r[..|r| - 1]; }
    } else {
      assert (r + ([b] + more))[..|r|] == r == (r + [a])[..|r|];
    }
  }

  lemma RelevantOne(n: Node)
    ensures Relevant([n]) == if IsIgnored(n) then [] else [Bared(n)]
  {
    assert [n][1..] == [];
  }

  lemma ObjectGrows(t: string, u: string)
    requires t <= u
    ensures IsObjectText(t) ==> IsObjectText(u)
  {
    TrimRightMonotone(t, u);
  }

  lemma SameConfirmed(a: Node)
    ensures !BreaksValue(a, a)
  {
    assert a.text[|a.text|..] == "";
    NothingConfirms(QuotesGrowth.TailFrom(a.text, false, Quotes.Bare), a.text);
  }

  lemma NothingConfirms(tail: QuotesGrowth.Tail, s: string)
    requires tail == QuotesGrowth.TailFrom(s, false, Quotes.Bare)
    ensures QuotesGrowth.Confirms(tail, "")
  {
    TailIsWord(s, false, Quotes.Bare);
    if tail.OpenWord? {
      assert tail.word + ""[..0] == tail.word;
    }
  }

  lemma {:induction false} TailIsWord(s: string, afterWord: bool, m: Quotes.Mode)
    ensures var tail := QuotesGrowth.TailFrom(s, afterWord, m); tail.OpenWord? ==> Quotes.LiteralPrefix(tail.word).Some?
    decreases |s|
  {
    hide Quotes.LiteralPrefix, Quotes.Advance, Quotes.WordLen;
    if s != "" {
      var mv := Quotes.Advance(s, afterWord, m);
      TailIsWord(s[mv.used..], IsWordChar(s[mv.used - 1]), mv.mode);
    }
  }

  lemma {:induction false} BeginningsStream(x: seq<Node>, more: seq<Node>)
    requires WellNested(x + more)
    ensures WellNested(x) && Stream(x, Beginnings(x, more)) && Confirmed(x, Beginnings(x, more))
    decreases |more|
  {
    hide PhaseAfter, Grows, Breaks;
    PhaseAppend(Idle, x, more);
    if more != [] {
      var z := x + [more[0]];
      assert z + more[1..] == x + more;
      BeginningsStream(z, more[1..]);
      AppendedGrows(x, [more[0]]);
      assert Beginnings(x, more)[1..] == Beginnings(z, more[1..]);
    }
  }

  /**
   Every well-nested list that arrives node by node is streamed: no comparison throws, and the client
   ends with the last message.
   */
  lemma NodeByNode(nodes: seq<Node>, gen: ToolIds.Generator)
    requires WellNested(nodes)
    ensures var r := ToolIds.StampedRun([], Messages(Beginnings([], nodes)), gen);
      AllDiffs(EMPTY_MSG, r).Ok? && ApplyAll(EMPTY_MSG, AllDiffs(EMPTY_MSG, r).value) == Last(EMPTY_MSG, r)
  {
    assert [] + nodes == nodes;
    BeginningsStream([], nodes);
    StreamReplays(Beginnings([], nodes), gen);
  }

  /** Any number of complete calls among them. */
  lemma CallsStream(cs: seq<Call>, gen: ToolIds.Generator)
    requires forall k :: 0 <= k < |cs| ==> IsGood(cs[k])
    ensures WellNested(AllNodes(cs))
    ensures var r := ToolIds.StampedRun([], Messages(Beginnings([], AllNodes(cs))), gen);
      AllDiffs(EMPTY_MSG, r).Ok? && ApplyAll(EMPTY_MSG, AllDiffs(EMPTY_MSG, r).value) == Last(EMPTY_MSG, r)
  {
    CallsNest(Idle, cs);
    NodeByNode(AllNodes(cs), gen);
  }
}
