/** The streaming theorem: what growing node lists do to the message and to its deltas. */
module EndToEnd {
  import opened Text
  import opened Chat
  import opened ChatDiff
  import opened Mapper
  import opened Streaming
  import Json
  import Quotes
  import QuotesGrowth
  import ToolIds

  /** The text nodes that are reported before they are complete. */
  predicate IsGrowable(tag: Tag) {
    tag in {Reasoning, Content, ToolArgs, ArgValue, ArgStringValue}
  }

  predicate LastGrows(a: Node, b: Node) {
    a == b || (IsGrowable(a.tag) && a.tag == b.tag && a.text <= b.text)
  }

  /** The last text of `x` grows, and nodes are appended. */
  predicate Lengthens(x: seq<Node>, z: seq<Node>) {
    x == [] || (|x| <= |z| && x[..|x| - 1] == z[..|x| - 1] && LastGrows(x[|x| - 1], z[|x| - 1]))
  }

  /**
   `z` is what is visited when more output has arrived after `x`. Enclosing nodes hold the text of
   everything inside them and grow with it; only what the mapper looks at is compared.
   */
  predicate Grows(x: seq<Node>, z: seq<Node>) {
    Lengthens(Relevant(x), Relevant(z))
  }

  /** The translation of a raw value is not confirmed by what follows. */
  predicate BreaksValue(a: Node, b: Node)
    requires LastGrows(a, b)
  {
    a.tag == ArgValue && !QuotesGrowth.Confirms(QuotesGrowth.TailFrom(a.text, false, Quotes.Bare), b.text[|a.text|..])
  }

  predicate BreaksLast(x: seq<Node>, z: seq<Node>)
    requires WellNested(x) && Lengthens(x, z)
  {
    x != [] && BreaksValue(x[|x| - 1], z[|x| - 1]) && PhaseAfter(Idle, x).value.InCall?
      && PhaseAfter(Idle, x).value.named
  }

  /** The growth of the last text changes arguments the client has already seen. */
  predicate Breaks(x: seq<Node>, z: seq<Node>)
    requires WellNested(x) && Grows(x, z)
  {
    PhaseRelevant(Idle, x);
    BreaksLast(Relevant(x), Relevant(z))
  }

  lemma TargetsCompare(s: State, t: string, t': string)
    requires HasTool(s)
    ensures t <= t' ==> Extends(WithTarget(s, t).msg, WithTarget(s, t').msg)
    ensures Tool(s).name == "" && s.current == PendingTool ==> WithTarget(s, t).msg == WithTarget(s, t').msg
    ensures Tool(s).name != "" && s.current == LastTool ==>
      var m, m' := WithTarget(s, t).msg.calls, WithTarget(s, t').msg.calls;
      |m| == |m'| > 0 && m[|m| - 1].arguments == t && m'[|m| - 1].arguments == t'
  {
  }

  /** The one way in which the last node may break what has been sent. */
  ghost predicate LastOutcome(p: Phase, a: Node, b: Node, m: Msg, m': Msg)
    requires LastGrows(a, b)
  {
    if BreaksValue(a, b) && p.InCall? && p.named
    then |m.calls| == |m'.calls| > 0 && Clash(m.calls[|m.calls| - 1].arguments, m'.calls[|m.calls| - 1].arguments)
    else Extends(m, m')
  }

  lemma LastText(p: Phase, s: State, a: Node, b: Node)
    requires LastGrows(a, b) && Fits(p, s) && a.tag in {Reasoning, Content}
    ensures LastOutcome(p, a, b, Step(s, a).msg, Step(s, b).msg)
  {
  }

  lemma LastArgs(p: Phase, s: State, a: Node, b: Node)
    requires LastGrows(a, b) && Fits(p, s) && a.tag == ToolArgs
    requires Next(p, a).Some? && Next(p, b).Some?
    ensures LastOutcome(p, a, b, Step(s, a).msg, Step(s, b).msg)
  {
    if a == b {
      ExtendsSelf(Step(s, a).msg);
    } else if IsObjectText(a.text) {
      TrimRightMonotone(a.text, b.text);
      TargetsCompare(s, TrimRight(a.text), TrimRight(b.text));
      hide WithTarget, Extends, TrimRight, Fits;
    } else {
      IgnoredStep(s, a);
      FitsStep(p, s, b);
      hide Fits, Extends, TrimRight, Step, Next;
    }
  }

  lemma LastStringValue(p: Phase, s: State, a: Node, b: Node)
    requires LastGrows(a, b) && Fits(p, s) && p.InCall? && a.tag == ArgStringValue
    requires Next(p, a).Some?
    ensures LastOutcome(p, a, b, Step(s, a).msg, Step(s, b).msg)
  {
    InGroup(p, s);
    hide Fits, WithTarget, Target, Extends, Tool;
    var more := b.text[|a.text|..];
    assert b.text == a.text + more;
    Json.EscapeAppend(a.text, more);
    var t, t' := Target(s) + "\"" + Json.Escape(a.text), Target(s) + "\"" + Json.Escape(b.text);
    assert t' == t + Json.Escape(more);
    TargetsCompare(s, t, t');
  }

  lemma RawStep(s: State, n: Node)
    requires HasTool(s) && n.tag == ArgValue
    ensures Step(s, n).msg == WithTarget(s, Target(s) + Quotes.Normalized(n.text)).msg
  {
  }

  lemma RawOutcome(p: Phase, s: State, a: Node, b: Node, t: string, t': string)
    requires LastGrows(a, b) && Fits(p, s) && p.InCall?
    requires if BreaksValue(a, b) then Clash(t, t') else t <= t'
    ensures HasTool(s) && LastOutcome(p, a, b, WithTarget(s, t).msg, WithTarget(s, t').msg)
  {
    NamedCursor(p, s);
    TargetsCompare(s, t, t');
    hide Fits, Extends, BreaksValue, WithTarget, Tool, Clash;
    if BreaksValue(a, b) && !p.named { ExtendsSelf(WithTarget(s, t).msg); }
  }

  lemma LastRawValue(p: Phase, s: State, a: Node, b: Node)
    requires LastGrows(a, b) && Fits(p, s) && p.InCall? && a.tag == ArgValue
    requires Next(p, a).Some?
    ensures LastOutcome(p, a, b, Step(s, a).msg, Step(s, b).msg)
  {
    InGroup(p, s);
    RawStep(s, a);
    RawStep(s, b);
    hide Step, Fits, WithTarget, Target, Extends, Tool, Clash, LastOutcome;
    var more := b.text[|a.text|..];
    assert b.text == a.text + more;
    QuotesGrowth.NormalizedGrows(a.text, more);
    var t, u, u' := Target(s), Quotes.Normalized(a.text), Quotes.Normalized(b.text);
    if BreaksValue(a, b) {
      ClashPrepend(t, u, u');
    } else {
      assert t + u <= t + u';
    }
    RawOutcome(p, s, a, b, t + u, t + u');
  }

  lemma NamedCursor(p: Phase, s: State)
    requires Fits(p, s) && p.InCall?
    ensures HasTool(s)
      && (if p.named then Tool(s).name != "" && s.current == LastTool
          else Tool(s).name == "" && s.current == PendingTool)
  {
  }

  lemma LastStep(p: Phase, s: State, a: Node, b: Node)
    requires LastGrows(a, b) && Fits(p, s) && Next(p, a).Some? && Next(p, b).Some?
    ensures LastOutcome(p, a, b, Step(s, a).msg, Step(s, b).msg)
  {
    hide Fits, Step, LastOutcome;
    if a.tag == Reasoning || a.tag == Content {
      LastText(p, s, a, b);
    } else if a.tag == ToolArgs {
      LastArgs(p, s, a, b);
    } else if a.tag == ArgValue {
      LastRawValue(p, s, a, b);
    } else if a.tag == ArgStringValue {
      LastStringValue(p, s, a, b);
    } else {
      LastOther(p, a, b, Step(s, a).msg);
    }
  }

  lemma LastOther(p: Phase, a: Node, b: Node, m: Msg)
    requires LastGrows(a, b) && !IsGrowable(a.tag)
    ensures a == b && LastOutcome(p, a, b, m, m)
  {
    ExtendsSelf(m);
  }

  // ---- Whole lists ----

  lemma FinishExtends(s: State, t: State)
    requires Extends(s.msg, t.msg) && PendingUnnamed(s) && PendingUnnamed(t)
    ensures Extends(Finish(s), Finish(t))
  {
    if !IsBlank(s.msg.reasoning) {
      assert !IsBlank(t.msg.reasoning) by {
        var k :| 0 <= k < |s.msg.reasoning| && s.msg.reasoning[k] !in " \n\r\t";
        assert t.msg.reasoning[k] == s.msg.reasoning[k];
      }
    }
    hide IsBlank, CallsExtend;
  }

  /** The state before the last node of `x`, and the two states it moves to. */
  lemma SplitLast(x: seq<Node>, z: seq<Node>) returns (p: Phase, s: State, rest: seq<Node>)
    requires WellNested(x) && WellNested(z) && Lengthens(x, z) && x != []
    ensures var a, b := x[|x| - 1], z[|x| - 1];
      && LastGrows(a, b) && Fits(p, s) && Next(p, a).Some? && Next(p, b).Some?
      && PhaseAfter(Idle, x) == Next(p, a) && PhaseAfter(Next(p, b).value, rest).Some?
      && Run(INIT, x) == Step(s, a) && Run(INIT, z) == Run(Step(s, b), rest)
  {
    hide Fits, Step, Next, LastGrows;
    var n := |x| - 1;
    var x0, z0 := x[..n], z[..n];
    rest := z[n + 1..];
    assert x == x0 + [x[n]] && z == z0 + ([z[n]] + rest);
    PhaseAppend(Idle, x0, [x[n]]);
    PhaseAppend(Idle, z0, [z[n]] + rest);
    RunAppend(INIT, x0, [x[n]]);
    RunAppend(INIT, z0, [z[n]] + rest);
    FitsInit();
    FitsRun(Idle, INIT, x0);
    p, s := PhaseAfter(Idle, x0).value, Run(INIT, x0);
    SingleNode(p, s, x[n]);
    FirstNode(p, s, z[n], rest);
  }

  lemma FitsInit()
    ensures Fits(Idle, INIT)
  {
  }

  lemma SingleNode(p: Phase, s: State, n: Node)
    ensures PhaseAfter(p, [n]) == Next(p, n) && Run(s, [n]) == Step(s, n)
  {
    hide Next, Step;
    assert [n][1..] == [];
    assert Next(p, n).Some? ==> PhaseAfter(Next(p, n).value, []) == Next(p, n);
  }

  lemma FirstNode(p: Phase, s: State, n: Node, rest: seq<Node>)
    ensures PhaseAfter(p, [n] + rest).Some? ==>
      Next(p, n).Some? && PhaseAfter(Next(p, n).value, rest) == PhaseAfter(p, [n] + rest)
    ensures Run(s, [n] + rest) == Run(Step(s, n), rest)
  {
    hide Next, Step;
    assert ([n] + rest)[1..] == rest;
  }

  lemma LengthenedOutcome(x: seq<Node>, z: seq<Node>)
    requires WellNested(x) && WellNested(z) && Lengthens(x, z)
    ensures !BreaksLast(x, z) ==> Extends(FromNodes(x), FromNodes(z))
    ensures BreaksLast(x, z) ==> var c, d := FromNodes(x).calls, FromNodes(z).calls;
      0 < |c| <= |d| && Clash(c[|c| - 1].arguments, d[|c| - 1].arguments)
  {
    hide Fits, Step, Next, LastGrows, Extends, PendingUnnamed, Clash, Run, Finish, BreaksValue;
    InitUnnamed();
    RunPendingUnnamed(INIT, x);
    RunPendingUnnamed(INIT, z);
    FitsInit();
    FitsRun(Idle, INIT, z);
    if x == [] {
      RunNothing();
      FinishExtends(Run(INIT, x), Run(INIT, z));
    } else {
      var p, s, rest := SplitLast(x, z);
      var a, b := x[|x| - 1], z[|x| - 1];
      LastStep(p, s, a, b);
      FitsStep(p, s, b);
      FitsRun(Next(p, b).value, Step(s, b), rest);
      SameCall(p, a, b);
      if BreaksLast(x, z) {
        FlushNeverTaken(x);
        FlushNeverTaken(z);
        BrokenLater(Step(s, a).msg, Step(s, b).msg, Run(INIT, z).msg);
      } else {
        ExtendsTransitive(Step(s, a).msg, Step(s, b).msg, Run(INIT, z).msg);
        FinishExtends(Run(INIT, x), Run(INIT, z));
      }
    }
  }

  lemma FromRelevant(nodes: seq<Node>)
    ensures FromNodes(Relevant(nodes)) == FromNodes(nodes)
  {
    RunRelevant(INIT, nodes);
    hide Run, Finish;
  }

  /** Growth either keeps what has been sent, or changes the arguments of the call that was last. */
  lemma GrowthOutcome(x: seq<Node>, z: seq<Node>)
    requires WellNested(x) && WellNested(z) && Grows(x, z)
    ensures !Breaks(x, z) ==> Extends(FromNodes(x), FromNodes(z))
    ensures Breaks(x, z) ==> var c, d := FromNodes(x).calls, FromNodes(z).calls;
      0 < |c| <= |d| && Clash(c[|c| - 1].arguments, d[|c| - 1].arguments)
  {
    hide Relevant, FromNodes, Extends, Clash, PhaseAfter, BreaksLast, Lengthens;
    PhaseRelevant(Idle, x);
    PhaseRelevant(Idle, z);
    FromRelevant(x);
    FromRelevant(z);
    LengthenedOutcome(Relevant(x), Relevant(z));
  }

  lemma InitUnnamed()
    ensures PendingUnnamed(INIT)
  {
  }

  lemma RunNothing()
    ensures Run(INIT, []) == INIT
  {
  }

  /** An argument value does not change whether the call has a name. */
  lemma SameCall(p: Phase, a: Node, b: Node)
    requires LastGrows(a, b) && Next(p, a).Some?
    ensures BreaksValue(a, b) ==> p.InCall? && Next(p, a).value.InCall? && Next(p, a).value.named == p.named
  {
  }

  lemma BrokenLater(a: Msg, b: Msg, c: Msg)
    requires |a.calls| == |b.calls| > 0 && Clash(a.calls[|a.calls| - 1].arguments, b.calls[|a.calls| - 1].arguments)
    requires Extends(b, c)
    ensures |a.calls| <= |c.calls| && Clash(a.calls[|a.calls| - 1].arguments, c.calls[|a.calls| - 1].arguments)
  {
    var k := |a.calls| - 1;
    ClashExtend(a.calls[k].arguments, b.calls[k].arguments, a.calls[k].arguments, c.calls[k].arguments);
  }

  /**
   Exactly when comparing the messages of a list and of the list it grows into throws: when the last
   node is a raw value of a named call whose translation the new text does not confirm. Otherwise
   the deltas turn the earlier message into the later one.
   */
  lemma GrowthStreams(x: seq<Node>, z: seq<Node>)
    requires WellNested(x) && WellNested(z) && Grows(x, z)
    ensures Diffs(FromNodes(x), FromNodes(z)).Ok? <==> !Breaks(x, z)
    ensures !Breaks(x, z) ==> ApplyAll(FromNodes(x), Diffs(FromNodes(x), FromNodes(z)).value) == FromNodes(z)
  {
    GrowthOutcome(x, z);
    DiffsApplied(FromNodes(x), FromNodes(z));
    ReplayExact(FromNodes(x), FromNodes(z));
    hide Diffs, ApplyAll, FromNodes, Breaks;
    if Breaks(x, z) {
      var c, d := FromNodes(x).calls, FromNodes(z).calls;
      assert !Comparable(c[|c| - 1].arguments, d[|c| - 1].arguments);
    }
  }

  /** A call whose only argument so far is a raw value. */
  function RawCall(value: string): seq<Node> {
    [Node(ToolOpen, ""), Node(ToolName, "f"), Node(ArgOpen, ""), Node(ArgName, "a"), Node(ArgValue, value)]
  }

  lemma RawCallPhase(value: string)
    ensures PhaseAfter(Idle, RawCall(value)) == Some(InCall(true, false, ListBody, Valued))
  {
    RawCallSteps(value);
    hide PhaseAfter, Next;
    var q := InCall(true, false, ListBody, Named);
    var v, a, o, f := Node(ArgValue, value), Node(ArgName, "a"), Node(ArgOpen, ""), Node(ToolName, "f");
    SingleNode(q, INIT, v);
    Onward(q.(slot := Opened), a, [v]);
    Onward(InCall(true, false, Fresh, NoArg), o, [a] + [v]);
    Onward(InCall(false, false, Fresh, NoArg), f, [o] + ([a] + [v]));
    Onward(Idle, Node(ToolOpen, ""), [f] + ([o] + ([a] + [v])));
    assert RawCall(value) == [Node(ToolOpen, "")] + ([f] + ([o] + ([a] + [v])));
  }

  lemma RawCallSteps(value: string)
    ensures var q := InCall(true, false, ListBody, Named);
      && Next(q, Node(ArgValue, value)) == Some(InCall(true, false, ListBody, Valued))
      && Next(q.(slot := Opened), Node(ArgName, "a")) == Some(q)
      && Next(InCall(true, false, Fresh, NoArg), Node(ArgOpen, "")) == Some(q.(slot := Opened))
      && Next(InCall(false, false, Fresh, NoArg), Node(ToolName, "f")) == Some(InCall(true, false, Fresh, NoArg))
      && Next(Idle, Node(ToolOpen, "")) == Some(InCall(false, false, Fresh, NoArg))
  {
    hide TrimRight;
    TrimPlain("f");
  }

  lemma Onward(p: Phase, n: Node, rest: seq<Node>)
    requires Next(p, n).Some?
    ensures PhaseAfter(p, [n] + rest) == PhaseAfter(Next(p, n).value, rest)
  {
    hide Next;
    assert ([n] + rest)[1..] == rest;
  }

  lemma RawCallRelevant(value: string)
    ensures Relevant(RawCall(value)) == RawCall(value)
  {
    hide Relevant;
    var v, a, o, f := Node(ArgValue, value), Node(ArgName, "a"), Node(ArgOpen, ""), Node(ToolName, "f");
    RelevantNothing();
    KeptFirst(v, []);
    KeptFirst(a, [v]);
    KeptFirst(o, [a] + [v]);
    KeptFirst(f, [o] + ([a] + [v]));
    KeptFirst(Node(ToolOpen, ""), [f] + ([o] + ([a] + [v])));
    assert [v] + [] == [v];
    assert RawCall(value) == [Node(ToolOpen, "")] + ([f] + ([o] + ([a] + [v])));
  }

  lemma RelevantNothing()
    ensures Relevant([]) == []
  {
  }

  lemma KeptFirst(n: Node, rest: seq<Node>)
    requires n.tag in {ToolName, ArgName, ArgValue} || (IsDelimiter(n.tag) && n.text == "")
    ensures Relevant([n] + rest) == [n] + Relevant(rest)
  {
    hide IsObjectText;
    assert ([n] + rest)[1..] == rest;
  }

  lemma TrimPlain(s: string)
    requires s != "" && !IsSpace(s[|s| - 1])
    ensures TrimRight(s) == s
  {
  }

  /** Comparing throws on this pair: `N` was shown as the beginning of `null`, but the word goes on as `Nope`. */
  lemma StreamBreaks()
    ensures Diffs(FromNodes(RawCall("N")), FromNodes(RawCall("Nope"))).Err?
  {
    hide Diffs, FromNodes, PhaseAfter, RawCall, Relevant, BreaksValue, Lengthens;
    var x, z := RawCall("N"), RawCall("Nope");
    assert "Nope"[1..] == "ope" && "N" <= "Nope";
    RawCallPhase("N");
    RawCallPhase("Nope");
    RawCallRelevant("N");
    RawCallRelevant("Nope");
    RawCallGrows("N", "Nope");
    QuotesGrowth.WordFails();
    assert BreaksValue(x[4], z[4]) by { NotConfirmed("N", "Nope"); }
    GrowthStreams(x, z);
  }

  lemma RawCallGrows(u: string, v: string)
    requires u <= v
    ensures Lengthens(RawCall(u), RawCall(v)) && |RawCall(u)| == 5 && |RawCall(v)| == 5
    ensures RawCall(u)[4] == Node(ArgValue, u) && RawCall(v)[4] == Node(ArgValue, v)
  {
    assert RawCall(u)[..4] == RawCall(v)[..4];
  }

  lemma NotConfirmed(u: string, v: string)
    requires u <= v && !QuotesGrowth.Confirms(QuotesGrowth.TailFrom(u, false, Quotes.Bare), v[|u|..])
    ensures BreaksValue(Node(ArgValue, u), Node(ArgValue, v))
  {
  }

  /** A stream of growing node lists. */
  ghost predicate Stream(x: seq<Node>, lists: seq<seq<Node>>)
    decreases |lists|
  {
    WellNested(x) && (lists == [] || (WellNested(lists[0]) && Grows(x, lists[0]) && Stream(lists[0], lists[1..])))
  }

  /** No step of the stream changes arguments that the client has already seen. */
  ghost predicate Confirmed(x: seq<Node>, lists: seq<seq<Node>>)
    requires Stream(x, lists)
    decreases |lists|
  {
    lists == [] || (!Breaks(x, lists[0]) && Confirmed(lists[0], lists[1..]))
  }

  function Messages(lists: seq<seq<Node>>): (r: seq<Msg>)
    ensures |r| == |lists|
    decreases |lists|
  {
    if lists == [] then [] else [FromNodes(lists[0])] + Messages(lists[1..])
  }

  lemma {:induction false} StreamContinues(x: seq<Node>, lists: seq<seq<Node>>)
    requires Stream(x, lists) && Confirmed(x, lists)
    ensures Continues(FromNodes(x), Messages(lists))
    decreases |lists|
  {
    if lists != [] {
      GrowthOutcome(x, lists[0]);
      StreamContinues(lists[0], lists[1..]);
      hide FromNodes, Extends;
    }
  }

  /** A message whose calls have the identifiers of the cache. */
  function WithIds(m: Msg, ids: seq<string>): Msg
    requires |m.calls| <= |ids|
  {
    m.(calls := ToolIds.Stamped(m.calls, ids))
  }

  /** Identifiers do not decide whether a comparison throws. */
  lemma StampedStep(x: seq<Node>, z: seq<Node>, ids: seq<string>, ids': seq<string>)
    requires WellNested(x) && WellNested(z) && Grows(x, z)
    requires |FromNodes(x).calls| <= |ids| && ids <= ids' && |FromNodes(z).calls| <= |ids'|
    ensures Diffs(WithIds(FromNodes(x), ids), WithIds(FromNodes(z), ids')).Ok? <==> !Breaks(x, z)
  {
    hide Diffs, ApplyAll, FromNodes, Breaks;
    var m, n := FromNodes(x), FromNodes(z);
    GrowthOutcome(x, z);
    DiffsApplied(WithIds(m, ids), WithIds(n, ids'));
    ReplayExact(WithIds(m, ids), WithIds(n, ids'));
    if Breaks(x, z) {
      assert !Comparable(m.calls[|m.calls| - 1].arguments, n.calls[|m.calls| - 1].arguments);
    } else {
      ToolIds.StampedExtends(m.calls, n.calls, ids, ids');
    }
  }

  lemma {:induction false} StreamThrows(x: seq<Node>, lists: seq<seq<Node>>, ids: seq<string>, gen: ToolIds.Generator)
    requires Stream(x, lists) && |FromNodes(x).calls| <= |ids|
    ensures AllDiffs(WithIds(FromNodes(x), ids), ToolIds.StampedRun(ids, Messages(lists), gen)).Ok? <==>
      Confirmed(x, lists)
    decreases |lists|
  {
    hide Diffs, FromNodes, Breaks, Grows, WellNested;
    if lists != [] {
      var ids' := ToolIds.Filled(ids, FromNodes(lists[0]).calls, gen);
      StampedStep(x, lists[0], ids, ids');
      StreamThrows(lists[0], lists[1..], ids', gen);
      var r := ToolIds.StampedRun(ids, Messages(lists), gen);
      assert Messages(lists)[1..] == Messages(lists[1..]);
      assert r[0] == WithIds(FromNodes(lists[0]), ids')
        && r[1..] == ToolIds.StampedRun(ids', Messages(lists[1..]), gen);
    }
  }

  /**
   For every stream from nothing, with stamped ids: the comparisons throw exactly when a step changes
   arguments the client has already seen; otherwise the client ends with the final message.
   */
  lemma StreamReplays(lists: seq<seq<Node>>, gen: ToolIds.Generator)
    requires Stream([], lists)
    ensures var r := ToolIds.StampedRun([], Messages(lists), gen);
      && (AllDiffs(EMPTY_MSG, r).Ok? <==> Confirmed([], lists))
      && (AllDiffs(EMPTY_MSG, r).Ok? ==> ApplyAll(EMPTY_MSG, AllDiffs(EMPTY_MSG, r).value) == Last(EMPTY_MSG, r))
  {
    assert FromNodes([]) == EMPTY_MSG;
    assert WithIds(EMPTY_MSG, []) == EMPTY_MSG;
    hide FromNodes, AllDiffs;
    StreamThrows([], lists, [], gen);
    if Confirmed([], lists) {
      StreamContinues([], lists);
      ToolIds.StampedReplay(Messages(lists), gen);
    }
  }
}
