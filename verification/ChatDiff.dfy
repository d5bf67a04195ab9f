/** Deltas between successive partial messages (`string_diff`, `compute_diffs`), and the client that replays them. */
module ChatDiff {
  import opened Text
  import opened Chat

  datatype Error =
    | InvalidDiff(last: string, current: string)
    | FewerToolCalls
    | ToolCallMismatch

  datatype Result<+T> = Ok(value: T) | Err(error: Error) {
    predicate IsFailure() {
      Err?
    }

    function PropagateFailure<U>(): Result<U>
      requires Err?
    {
      Err(error)
    }

    function Extract(): T
      requires Ok?
    {
      value
    }
  }

  /** One delta; `index` is absent for a delta of the text. */
  datatype Diff = Diff(reasoning: string, content: string, index: Option<nat>, call: ToolCall)

  function StringDiff(last: string, current: string): Result<string> {
    if last == "" then Ok(current)
    else if last <= current then Ok(current[|last|..])
    else if current <= last then Ok("") // the current text ends on an erased stop word
    else Err(InvalidDiff(last, current))
  }

  function TextDiffs(old': string, new': string, isReasoning: bool): Result<seq<Diff>> {
    if old' == new' then Ok([]) else
    match StringDiff(old', new')
    case Err(e) => Err(e)
    case Ok(d) => Ok([if isReasoning then Diff(d, "", None, EMPTY_CALL) else Diff("", d, None, EMPTY_CALL)])
  }

  /** The name of a call may appear, grow or vanish, but not turn into another one. */
  predicate NamesAgree(p: string, n: string) {
    p == n || p == "" || n == "" || p <= n
  }

  function CallDiffs(p: ToolCall, n: ToolCall, index: nat): Result<seq<Diff>> {
    if !NamesAgree(p.name, n.name) then Err(ToolCallMismatch) else
    match StringDiff(p.arguments, n.arguments)
    case Err(e) => Err(e)
    case Ok(args) =>
      var renamed := p.id != n.id || p.name != n.name;
      if args == "" && !renamed then Ok([])
      else Ok([Diff("", "", Some(index), if renamed then ToolCall(n.name, args, n.id) else ToolCall("", args, ""))])
  }

  function NewCalls(calls: seq<ToolCall>, from: nat): seq<Diff>
    decreases |calls| - from
  {
    if from >= |calls| then [] else [Diff("", "", Some(from), calls[from])] + NewCalls(calls, from + 1)
  }

  function Both(a: Result<seq<Diff>>, b: Result<seq<Diff>>): Result<seq<Diff>> {
    if a.Err? then a else if b.Err? then b else Ok(a.value + b.value)
  }

  function ToolDiffs(prv: seq<ToolCall>, new': seq<ToolCall>): Result<seq<Diff>> {
    if |new'| < |prv| then Err(FewerToolCalls) else
    Both(if prv == [] then Ok([]) else CallDiffs(prv[|prv| - 1], new'[|prv| - 1], |prv| - 1), Ok(NewCalls(new', |prv|)))
  }

  function Diffs(prv: Msg, new': Msg): Result<seq<Diff>> {
    Both(TextDiffs(prv.reasoning, new'.reasoning, true),
         Both(TextDiffs(prv.content, new'.content, false), ToolDiffs(prv.calls, new'.calls)))
  }

  method ComputeStringDiff(last: string, current: string) returns (r: Result<string>)
    ensures r == StringDiff(last, current)
    ensures r.Ok? <==> last <= current || current <= last
    ensures r.Ok? ==> last + r.value == if last <= current then current else last
  {
    if last == "" {
      return Ok(current);
    }
    if !(last <= current) {
      if current <= last {
        return Ok("");
      }
      return Err(InvalidDiff(last, current));
    }
    return Ok(current[|last|..]);
  }

  /** Pushes the delta of one text field, if it has changed. */
  method PushText(diffs: seq<Diff>, old': string, new': string, isReasoning: bool) returns (r: Result<seq<Diff>>)
    ensures r == Both(Ok(diffs), TextDiffs(old', new', isReasoning))
  {
    if old' == new' {
      assert diffs + [] == diffs;
      return Ok(diffs);
    }
    var d := ComputeStringDiff(old', new');
    if d.Err? { return Err(d.error); }
    return Ok(diffs +
      [if isReasoning then Diff(d.value, "", None, EMPTY_CALL) else Diff("", d.value, None, EMPTY_CALL)]);
  }

  /** Pushes the delta of the call that was last before, if it has changed. */
  method PushCall(diffs: seq<Diff>, pref: ToolCall, newf: ToolCall, idx: nat) returns (r: Result<seq<Diff>>)
    ensures r == Both(Ok(diffs), CallDiffs(pref, newf, idx))
  {
    if pref.name != newf.name && pref.name != "" && newf.name != "" && !(pref.name <= newf.name) {
      return Err(ToolCallMismatch);
    }
    var args := ComputeStringDiff(pref.arguments, newf.arguments);
    if args.Err? { return Err(args.error); }
    if args.value != "" || pref.id != newf.id || pref.name != newf.name {
      var delta := ToolCall("", args.value, "");
      if pref.id != newf.id || pref.name != newf.name {
        delta := delta.(id := newf.id, name := newf.name);
      }
      return Ok(diffs + [Diff("", "", Some(idx), delta)]);
    }
    assert diffs + [] == diffs;
    return Ok(diffs);
  }

  method PushNewCalls(diffs: seq<Diff>, calls: seq<ToolCall>, from: nat) returns (r: seq<Diff>)
    requires from <= |calls|
    ensures r == diffs + NewCalls(calls, from)
  {
    r := diffs;
    var idx := from;
    while idx < |calls|
      invariant from <= idx <= |calls|
      invariant r + NewCalls(calls, idx) == diffs + NewCalls(calls, from)
    {
      var d := Diff("", "", Some(idx), calls[idx]);
      assert r + ([d] + NewCalls(calls, idx + 1)) == r + [d] + NewCalls(calls, idx + 1);
      r := r + [d];
      idx := idx + 1;
    }
    assert r + [] == r;
  }

  lemma BothAssociative(a: Result<seq<Diff>>, b: Result<seq<Diff>>, c: Result<seq<Diff>>)
    ensures Both(Both(a, b), c) == Both(a, Both(b, c))
  {
    if a.Ok? && b.Ok? && c.Ok? {
      assert a.value + b.value + c.value == a.value + (b.value + c.value);
    }
  }

  method ComputeDiffs(prv: Msg, new': Msg) returns (r: Result<seq<Diff>>)
    ensures r == Diffs(prv, new')
  {
    ghost var a := TextDiffs(prv.reasoning, new'.reasoning, true);
    ghost var b := TextDiffs(prv.content, new'.content, false);
    BothAssociative(a, b, ToolDiffs(prv.calls, new'.calls));
    var diffs :- PushText([], prv.reasoning, new'.reasoning, true);
    assert a.Ok? && [] + a.value == a.value;
    diffs :- PushText(diffs, prv.content, new'.content, false);
    if |new'.calls| < |prv.calls| {
      return Err(FewerToolCalls);
    }
    ghost var last: Result<seq<Diff>> := Ok([]);
    if prv.calls != [] {
      var idx := |prv.calls| - 1;
      last := CallDiffs(prv.calls[idx], new'.calls[idx], idx);
      BothAssociative(Ok(diffs), last, Ok(NewCalls(new'.calls, |prv.calls|)));
      diffs :- PushCall(diffs, prv.calls[idx], new'.calls[idx], idx);
    } else {
      BothAssociative(Ok(diffs), last, Ok(NewCalls(new'.calls, 0)));
      assert diffs + [] == diffs;
    }
    diffs := PushNewCalls(diffs, new'.calls, |prv.calls|);
    r := Ok(diffs);
  }

  // ---- The client ----

  function Reserve(calls: seq<ToolCall>, n: nat): (r: seq<ToolCall>)
    ensures |r| == if |calls| < n then n else |calls|
    ensures calls <= r && forall k :: |calls| <= k < |r| ==> r[k] == EMPTY_CALL
    decreases n - |calls|
  {
    if |calls| < n then Reserve(calls + [EMPTY_CALL], n) else calls
  }

  function Patch(c: ToolCall, d: ToolCall): ToolCall {
    ToolCall(if d.name != "" then d.name else c.name, c.arguments + d.arguments, if d.id != "" then d.id else c.id)
  }

  /** How a client takes in one delta: text is appended, names and ids are set when the delta has them. */
  function Apply(m: Msg, d: Diff): Msg {
    var calls :=
      if d.index.None? then m.calls
      else var r := Reserve(m.calls, d.index.value + 1); r[d.index.value := Patch(r[d.index.value], d.call)];
    Msg(m.content + d.content, m.reasoning + d.reasoning, calls)
  }

  function ApplyAll(m: Msg, ds: seq<Diff>): Msg
    decreases |ds|
  {
    if ds == [] then m else ApplyAll(Apply(m, ds[0]), ds[1..])
  }

  lemma {:induction false} ApplyAppend(m: Msg, a: seq<Diff>, b: seq<Diff>)
    ensures ApplyAll(m, a + b) == ApplyAll(ApplyAll(m, a), b)
    decreases |a|
  {
    hide Apply;
    if a == [] {
      assert a + b == b;
    } else {
      assert (a + b)[1..] == a[1..] + b;
      ApplyAppend(Apply(m, a[0]), a[1..], b);
    }
  }

  /** The later call continues the earlier one: its name and arguments grow and its id is not erased. */
  predicate CallExtends(p: ToolCall, n: ToolCall) {
    p.name <= n.name && p.arguments <= n.arguments && (p.id == "" || n.id != "")
  }

  /** The later message continues the earlier one. */
  ghost predicate Extends(p: Msg, n: Msg) {
    && p.content <= n.content && p.reasoning <= n.reasoning
    && CallsExtend(p.calls, n.calls)
  }

  ghost predicate CallsExtend(p: seq<ToolCall>, n: seq<ToolCall>) {
    && |p| <= |n|
    && (forall k :: 0 <= k < |p| - 1 ==> p[k] == n[k])
    && (p != [] ==> CallExtends(p[|p| - 1], n[|p| - 1]))
  }

  lemma ExtendsTransitive(a: Msg, b: Msg, c: Msg)
    requires Extends(a, b) && Extends(b, c)
    ensures Extends(a, c)
  {
  }

  lemma NewCallApplied(m: Msg, c: ToolCall)
    ensures Apply(m, Diff("", "", Some(|m.calls|), c)) == m.(calls := m.calls + [c])
  {
    var k := |m.calls|;
    var r := Reserve(m.calls, k + 1);
    assert "" + c.arguments == c.arguments && m.content + "" == m.content && m.reasoning + "" == m.reasoning;
    assert Patch(r[k], c) == c;
    assert r[k := c] == m.calls + [c];
  }

  lemma {:induction false} NewCallsApplied(m: Msg, calls: seq<ToolCall>)
    requires |m.calls| <= |calls|
    ensures ApplyAll(m, NewCalls(calls, |m.calls|)) == m.(calls := m.calls + calls[|m.calls|..])
    decreases |calls| - |m.calls|
  {
    hide Apply, Reserve, Patch;
    var k := |m.calls|;
    if k == |calls| {
      assert m.calls + calls[k..] == m.calls;
    } else {
      var d := Diff("", "", Some(k), calls[k]);
      var m' := m.(calls := m.calls + [calls[k]]);
      NewCallApplied(m, calls[k]);
      NewCallsApplied(m', calls);
      assert ([d] + NewCalls(calls, k + 1))[1..] == NewCalls(calls, k + 1);
      assert m'.calls + calls[k + 1..] == m.calls + calls[k..];
    }
  }

  // ---- What one comparison accepts, and what the client then holds ----

  predicate Comparable(p: string, n: string) {
    p <= n || n <= p
  }

  /** What a client that holds `p` holds after the delta to `n`. */
  function Grown(p: string, n: string): string {
    if p <= n then n else p
  }

  function MergedCall(p: ToolCall, n: ToolCall): ToolCall {
    ToolCall(if n.name != "" then n.name else p.name, Grown(p.arguments, n.arguments),
      if n.id != "" then n.id else p.id)
  }

  predicate CallsComparable(p: seq<ToolCall>, n: seq<ToolCall>) {
    && |p| <= |n|
    && (p != [] ==>
      var a, b := p[|p| - 1], n[|p| - 1];
      NamesAgree(a.name, b.name) && Comparable(a.arguments, b.arguments))
  }

  predicate MsgComparable(p: Msg, n: Msg) {
    Comparable(p.reasoning, n.reasoning) && Comparable(p.content, n.content) && CallsComparable(p.calls, n.calls)
  }

  function MergedCalls(p: seq<ToolCall>, n: seq<ToolCall>): seq<ToolCall>
    requires |p| <= |n|
  {
    (if p == [] then [] else p[|p| - 1 := MergedCall(p[|p| - 1], n[|p| - 1])]) + n[|p|..]
  }

  lemma SingleApplied(m: Msg, d: Diff)
    ensures ApplyAll(m, [d]) == Apply(m, d)
  {
    hide Apply;
    assert [d][1..] == [];
  }

  lemma StringDiffMeaning(p: string, n: string)
    ensures StringDiff(p, n).Ok? <==> Comparable(p, n)
    ensures StringDiff(p, n).Ok? ==> p + StringDiff(p, n).value == Grown(p, n)
  {
  }

  lemma ReasoningApplied(m: Msg, n: string)
    ensures var r := TextDiffs(m.reasoning, n, true);
      (r.Ok? <==> Comparable(m.reasoning, n))
        && (r.Ok? ==> ApplyAll(m, r.value) == m.(reasoning := Grown(m.reasoning, n)))
  {
    StringDiffMeaning(m.reasoning, n);
    hide StringDiff;
    var r := TextDiffs(m.reasoning, n, true);
    if r.Ok? && r.value != [] {
      SingleApplied(m, r.value[0]);
      assert m.content + "" == m.content;
    }
  }

  lemma ContentApplied(m: Msg, n: string)
    ensures var r := TextDiffs(m.content, n, false);
      (r.Ok? <==> Comparable(m.content, n)) && (r.Ok? ==> ApplyAll(m, r.value) == m.(content := Grown(m.content, n)))
  {
    StringDiffMeaning(m.content, n);
    hide StringDiff;
    var r := TextDiffs(m.content, n, false);
    if r.Ok? && r.value != [] {
      SingleApplied(m, r.value[0]);
      assert m.reasoning + "" == m.reasoning;
    }
  }

  lemma CallApplied(m: Msg, n: ToolCall)
    requires m.calls != []
    ensures var k, p := |m.calls| - 1, m.calls[|m.calls| - 1];
      var r := CallDiffs(p, n, k);
      && (r.Ok? <==> NamesAgree(p.name, n.name) && Comparable(p.arguments, n.arguments))
      && (r.Ok? ==> ApplyAll(m, r.value) == m.(calls := m.calls[k := MergedCall(p, n)]))
  {
    var k, p := |m.calls| - 1, m.calls[|m.calls| - 1];
    StringDiffMeaning(p.arguments, n.arguments);
    hide StringDiff;
    var r := CallDiffs(p, n, k);
    if r.Ok? {
      assert m.content + "" == m.content && m.reasoning + "" == m.reasoning && p.arguments + "" == p.arguments;
      if r.value == [] {
        assert m.calls[k := p] == m.calls;
      } else {
        SingleApplied(m, r.value[0]);
        assert Reserve(m.calls, k + 1) == m.calls;
      }
    }
  }

  lemma ToolsApplied(m: Msg, n: seq<ToolCall>)
    ensures var r := ToolDiffs(m.calls, n);
      (r.Ok? <==> CallsComparable(m.calls, n))
        && (r.Ok? ==> ApplyAll(m, r.value) == m.(calls := MergedCalls(m.calls, n)))
  {
    hide CallDiffs, Apply, NamesAgree, Comparable;
    if |n| >= |m.calls| {
      if m.calls == [] {
        NewCallsApplied(m, n);
        assert [] + NewCalls(n, 0) == NewCalls(n, 0) && [] + n[0..] == n[0..];
      } else {
        var k := |m.calls| - 1;
        CallApplied(m, n[k]);
        var r := CallDiffs(m.calls[k], n[k], k);
        if r.Ok? {
          var m' := m.(calls := m.calls[k := MergedCall(m.calls[k], n[k])]);
          NewCallsApplied(m', n);
          ApplyAppend(m, r.value, NewCalls(n, |m.calls|));
        }
      }
    }
  }

  /**
   Exactly which pairs of messages can be compared without an exception, and what the client
   that held the earlier message holds after the deltas.
   */
  lemma DiffsApplied(p: Msg, n: Msg)
    ensures Diffs(p, n).Ok? <==> MsgComparable(p, n)
    ensures Diffs(p, n).Ok? ==>
      ApplyAll(p, Diffs(p, n).value) ==
        Msg(Grown(p.content, n.content), Grown(p.reasoning, n.reasoning), MergedCalls(p.calls, n.calls))
  {
    hide TextDiffs, ToolDiffs, Apply, MergedCalls, Comparable, CallsComparable, Grown;
    ReasoningApplied(p, n.reasoning);
    var p1 := p.(reasoning := Grown(p.reasoning, n.reasoning));
    ContentApplied(p1, n.content);
    var p2 := p1.(content := Grown(p.content, n.content));
    ToolsApplied(p2, n.calls);
    if Diffs(p, n).Ok? {
      var a, b := TextDiffs(p.reasoning, n.reasoning, true).value, TextDiffs(p.content, n.content, false).value;
      var c := ToolDiffs(p.calls, n.calls).value;
      ApplyAppend(p, a, b + c);
      ApplyAppend(p1, b, c);
    }
  }

  /**
   The deltas rebuild the later message exactly when it continues the earlier one; a text that
   shrinks, an earlier call that changes, or an erased name or id are the ways to fail.
   */
  lemma ReplayExact(p: Msg, n: Msg)
    ensures Diffs(p, n).Ok? && ApplyAll(p, Diffs(p, n).value) == n <==> Extends(p, n)
  {
    DiffsApplied(p, n);
    hide Diffs, ApplyAll;
    if MsgComparable(p, n) {
      MergedIsNew(p.calls, n.calls);
    }
  }

  lemma MergedIsNew(p: seq<ToolCall>, n: seq<ToolCall>)
    requires CallsComparable(p, n)
    ensures MergedCalls(p, n) == n <==> CallsExtend(p, n)
  {
    var r := MergedCalls(p, n);
    if p != [] {
      var k := |p| - 1;
      assert r[k] == MergedCall(p[k], n[k]);
      assert r == n ==> forall j :: 0 <= j < k ==> p[j] == r[j];
    }
    if CallsExtend(p, n) {
      assert forall j :: 0 <= j < |n| ==> r[j] == n[j];
    }
  }

  /**
   Even when a text shrinks because an erased stop word had been shown, what the client holds still
   begins with the new text, field by field, and only the last earlier call can differ.
   */
  lemma ErasedStopWord(p: Msg, n: Msg)
    requires MsgComparable(p, n)
    ensures Diffs(p, n).Ok?
    ensures var c := ApplyAll(p, Diffs(p, n).value);
      && n.content <= c.content && n.reasoning <= c.reasoning && |c.calls| == |n.calls|
      && (forall k :: 0 <= k < |p.calls| - 1 ==> c.calls[k] == p.calls[k])
      && (p.calls != [] ==> n.calls[|p.calls| - 1].arguments <= c.calls[|p.calls| - 1].arguments)
      && (forall k :: |p.calls| <= k < |n.calls| ==> c.calls[k] == n.calls[k])
  {
    DiffsApplied(p, n);
    hide Diffs, ApplyAll;
  }

  // ---- What is sent ----

  /** The text that is sent for a field: what has been added to it, nothing when it has shrunk. */
  predicate IsAdded(d: string, p: string, n: string) {
    if p <= n then p + d == n else n <= p && d == ""
  }

  /** The call that was last before has got a name, an id or more arguments. */
  predicate CallChanged(p: Msg, n: Msg)
    requires |p.calls| <= |n.calls|
  {
    p.calls != [] &&
    var a, b := p.calls[|p.calls| - 1], n.calls[|p.calls| - 1];
    a.name != b.name || a.id != b.id || |a.arguments| < |b.arguments|
  }

  /** The delta for that call: name and id only when one of them has changed. */
  predicate TellsCall(d: Diff, p: Msg, n: Msg)
    requires 0 < |p.calls| <= |n.calls|
  {
    var k := |p.calls| - 1;
    var a, b := p.calls[k], n.calls[k];
    && d.index == Some(k) && d.reasoning == "" && d.content == "" && IsAdded(d.call.arguments, a.arguments, b.arguments)
    && if a.name == b.name && a.id == b.id then d.call.name == "" && d.call.id == ""
       else d.call.name == b.name && d.call.id == b.id
  }

  lemma {:induction false} NewCallsAt(calls: seq<ToolCall>, from: nat, j: nat)
    requires from <= |calls|
    ensures |NewCalls(calls, from)| == |calls| - from
    ensures j < |calls| - from ==> NewCalls(calls, from)[j] == Diff("", "", Some(from + j), calls[from + j])
    decreases |calls| - from
  {
    if from < |calls| {
      NewCallsAt(calls, from + 1, if j > 0 then j - 1 else 0);
    }
  }

  /** The deltas one by one: each text that has changed, the last earlier call if it has changed, each new call. */
  predicate Sent(ds: seq<Diff>, p: Msg, n: Msg) {
    && |p.calls| <= |n.calls|
    && var r := if p.reasoning != n.reasoning then 1 else 0;
    var c := r + if p.content != n.content then 1 else 0;
    var l := c + if CallChanged(p, n) then 1 else 0;
    && |ds| == l + |n.calls| - |p.calls|
    && (r == 1 ==>
         IsAdded(ds[0].reasoning, p.reasoning, n.reasoning) && ds[0] == Diff(ds[0].reasoning, "", None, EMPTY_CALL))
    && (c > r ==> IsAdded(ds[r].content, p.content, n.content) && ds[r] == Diff("", ds[r].content, None, EMPTY_CALL))
    && (l > c ==> TellsCall(ds[c], p, n))
    && forall j :: l <= j < |ds| ==> var k := |p.calls| + j - l; ds[j] == Diff("", "", Some(k), n.calls[k])
  }

  lemma DeltasSent(p: Msg, n: Msg)
    requires Diffs(p, n).Ok?
    ensures Sent(Diffs(p, n).value, p, n)
  {
    var a, b := TextDiffs(p.reasoning, n.reasoning, true).value, TextDiffs(p.content, n.content, false).value;
    var last := |p.calls| - 1;
    var c := if p.calls == [] then [] else CallDiffs(p.calls[last], n.calls[last], last).value;
    var e := NewCalls(n.calls, |p.calls|);
    assert Diffs(p, n).value == a + (b + (c + e));
    TextSent(p.reasoning, n.reasoning, true);
    TextSent(p.content, n.content, false);
    CallSent(p, n);
    hide Diffs, TextDiffs, CallDiffs, CallChanged, TellsCall, IsAdded, NamesAgree, NewCalls, Sent;
    NewCallsAt(n.calls, |p.calls|, 0);
    forall j | 0 <= j < |e| ensures e[j] == Diff("", "", Some(|p.calls| + j), n.calls[|p.calls| + j]) {
      NewCallsAt(n.calls, |p.calls|, j);
    }
    SentParts(p, n, a, b, c, e);
  }

  lemma SentParts(p: Msg, n: Msg, a: seq<Diff>, b: seq<Diff>, c: seq<Diff>, e: seq<Diff>)
    requires |p.calls| <= |n.calls| && |e| == |n.calls| - |p.calls|
    requires |a| == (if p.reasoning == n.reasoning then 0 else 1)
    requires |b| == (if p.content == n.content then 0 else 1)
    requires |c| == (if CallChanged(p, n) then 1 else 0) && (c != [] ==> p.calls != [] && TellsCall(c[0], p, n))
    requires a != [] ==>
      IsAdded(a[0].reasoning, p.reasoning, n.reasoning) && a[0] == Diff(a[0].reasoning, "", None, EMPTY_CALL)
    requires b != [] ==>
      IsAdded(b[0].content, p.content, n.content) && b[0] == Diff("", b[0].content, None, EMPTY_CALL)
    requires forall j :: 0 <= j < |e| ==> e[j] == Diff("", "", Some(|p.calls| + j), n.calls[|p.calls| + j])
    ensures Sent(a + (b + (c + e)), p, n)
  {
    hide CallChanged, TellsCall, IsAdded;
    FourParts(a, b, c, e);
  }

  lemma FourParts<T>(a: seq<T>, b: seq<T>, c: seq<T>, e: seq<T>)
    ensures var ds := a + (b + (c + e));
      && |ds| == |a| + |b| + |c| + |e|
      && (a != [] ==> ds[0] == a[0]) && (b != [] ==> ds[|a|] == b[0]) && (c != [] ==> ds[|a| + |b|] == c[0])
      && forall j :: |a| + |b| + |c| <= j < |ds| ==> ds[j] == e[j - |a| - |b| - |c|]
  {
  }

  lemma TextSent(p: string, n: string, isReasoning: bool)
    requires TextDiffs(p, n, isReasoning).Ok?
    ensures var ds := TextDiffs(p, n, isReasoning).value;
      if p == n then ds == []
      else
        && |ds| == 1 && var d := if isReasoning then ds[0].reasoning else ds[0].content;
        && IsAdded(d, p, n)
        && ds[0] == if isReasoning then Diff(d, "", None, EMPTY_CALL) else Diff("", d, None, EMPTY_CALL)
  {
  }

  lemma CallSent(p: Msg, n: Msg)
    requires ToolDiffs(p.calls, n.calls).Ok?
    ensures |p.calls| <= |n.calls|
    ensures p.calls != [] ==>
      var k := |p.calls| - 1;
      && CallDiffs(p.calls[k], n.calls[k], k).Ok?
      && var ds := CallDiffs(p.calls[k], n.calls[k], k).value;
        if CallChanged(p, n) then |ds| == 1 && TellsCall(ds[0], p, n) else ds == []
  {
  }

  /** The four kinds of deltas. */
  lemma SentKinds(ds: seq<Diff>, p: Msg, n: Msg, j: nat)
    requires Sent(ds, p, n) && j < |ds|
    ensures |p.calls| <= |n.calls|
    ensures
      var d := ds[j];
      || (d.index.None? && p.reasoning != n.reasoning && IsAdded(d.reasoning, p.reasoning, n.reasoning))
      || (d.index.None? && p.content != n.content && IsAdded(d.content, p.content, n.content))
      || (0 < |p.calls| && CallChanged(p, n) && TellsCall(d, p, n))
      || (d.index.Some? && |p.calls| <= d.index.value < |n.calls|)
  {
    hide IsAdded, TellsCall;
  }

  /** A message that has not changed sends nothing. */
  lemma NothingSent(m: Msg)
    ensures Diffs(m, m) == Ok([])
  {
    assert MsgComparable(m, m);
    DiffsApplied(m, m);
    DeltasSent(m, m);
    hide Diffs;
  }

  /** Name and id of an earlier call are sent again only when one of them has changed. */
  lemma NothingRepeated(p: Msg, n: Msg, j: nat)
    requires Diffs(p, n).Ok? && j < |Diffs(p, n).value|
    ensures var d := Diffs(p, n).value[j];
      && |p.calls| <= |n.calls|
      && (d.index.Some? ==> |p.calls| <= d.index.value + 1 <= |n.calls|)
      && (d.index.Some? && d.index.value < |p.calls| && (d.call.name != "" || d.call.id != "") ==>
           var a, b := p.calls[d.index.value], n.calls[d.index.value]; a.name != b.name || a.id != b.id)
  {
    DeltasSent(p, n);
    SentKinds(Diffs(p, n).value, p, n, j);
    hide Diffs, Sent, IsAdded, CallChanged;
  }

  /** An earlier call has lost its name or its id. */
  predicate Unnamed(a: ToolCall, b: ToolCall) {
    (a.name != "" && b.name == "") || (a.id != "" && b.id == "")
  }

  /** A delta with nothing in it announces a new call, or tells that something has been erased. */
  lemma EmptyDelta(p: Msg, n: Msg, j: nat)
    requires Diffs(p, n).Ok? && j < |Diffs(p, n).value|
    requires var d := Diffs(p, n).value[j]; d.reasoning == "" && d.content == "" && d.call == EMPTY_CALL
    ensures var d := Diffs(p, n).value[j];
      || |n.reasoning| < |p.reasoning| || |n.content| < |p.content|
      || (d.index.Some? && d.index.value >= |p.calls|)
      || (d.index.Some? && d.index.value < |n.calls| && Unnamed(p.calls[d.index.value], n.calls[d.index.value]))
  {
    DeltasSent(p, n);
    NothingAdded(p.reasoning, n.reasoning);
    NothingAdded(p.content, n.content);
    var d := Diffs(p, n).value[j];
    if |p.calls| > 0 && CallChanged(p, n) && TellsCall(d, p, n) { NothingTold(d, p, n); }
    SentKinds(Diffs(p, n).value, p, n, j);
    hide Diffs, Sent, IsAdded, TellsCall, CallChanged, Unnamed;
  }

  lemma NothingAdded(p: string, n: string)
    ensures IsAdded("", p, n) && p != n ==> |n| < |p|
  {
  }

  lemma NothingTold(d: Diff, p: Msg, n: Msg)
    requires 0 < |p.calls| <= |n.calls| && CallChanged(p, n) && TellsCall(d, p, n) && d.call == EMPTY_CALL
    ensures d.index == Some(|p.calls| - 1) && Unnamed(p.calls[|p.calls| - 1], n.calls[|p.calls| - 1])
  {
  }

  /** Exactly which exception a pair of messages that cannot be compared ends in. */
  lemma DiffsFail(p: Msg, n: Msg)
    requires Diffs(p, n).Err?
    ensures Diffs(p, n).error ==
      if !(p.reasoning <= n.reasoning || n.reasoning <= p.reasoning) then InvalidDiff(p.reasoning, n.reasoning)
      else if !(p.content <= n.content || n.content <= p.content) then InvalidDiff(p.content, n.content)
      else if |n.calls| < |p.calls| then FewerToolCalls
      else
        var a, b := p.calls[|p.calls| - 1], n.calls[|p.calls| - 1];
        if a.name != "" && b.name != "" && !(a.name <= b.name) then ToolCallMismatch
        else InvalidDiff(a.arguments, b.arguments)
  {
  }

  // ---- Whole runs ----

  /** All deltas sent while the message goes from `p` through `msgs`. */
  function AllDiffs(p: Msg, msgs: seq<Msg>): Result<seq<Diff>>
    decreases |msgs|
  {
    if msgs == [] then Ok([]) else Both(Diffs(p, msgs[0]), AllDiffs(msgs[0], msgs[1..]))
  }

  function Last(p: Msg, msgs: seq<Msg>): Msg {
    if msgs == [] then p else msgs[|msgs| - 1]
  }

  ghost predicate Continues(p: Msg, msgs: seq<Msg>)
    decreases |msgs|
  {
    msgs == [] || (Extends(p, msgs[0]) && Continues(msgs[0], msgs[1..]))
  }

  /**
   For every run in which each message continues the one before, no comparison throws and the client
   ends with the last message.
   */
  lemma {:induction false} ReplayRun(p: Msg, msgs: seq<Msg>)
    requires Continues(p, msgs)
    ensures AllDiffs(p, msgs).Ok? && ApplyAll(p, AllDiffs(p, msgs).value) == Last(p, msgs)
    decreases |msgs|
  {
    hide Diffs, Extends, Apply;
    if msgs != [] {
      ReplayExact(p, msgs[0]);
      ReplayRun(msgs[0], msgs[1..]);
      ApplyAppend(p, Diffs(p, msgs[0]).value, AllDiffs(msgs[0], msgs[1..]).value);
    }
  }

  /**
   A run whose last step only has to be comparable: the client's texts begin with the final texts, and
   of the calls only the last earlier one can differ, by what its arguments had more.
   */
  lemma ReplayErasedRun(p: Msg, msgs: seq<Msg>, final: Msg)
    requires Continues(p, msgs) && MsgComparable(Last(p, msgs), final)
    ensures AllDiffs(p, msgs + [final]).Ok?
    ensures var c := ApplyAll(p, AllDiffs(p, msgs + [final]).value);
      var earlier := Last(p, msgs).calls;
      && final.content <= c.content && final.reasoning <= c.reasoning && |c.calls| == |final.calls|
      && (forall k :: 0 <= k < |earlier| - 1 ==> c.calls[k] == earlier[k])
      && (earlier != [] ==> final.calls[|earlier| - 1].arguments <= c.calls[|earlier| - 1].arguments)
      && (forall k :: |earlier| <= k < |final.calls| ==> c.calls[k] == final.calls[k])
  {
    hide Diffs, Apply, MsgComparable;
    ReplayRun(p, msgs);
    ErasedStopWord(Last(p, msgs), final);
    AllDiffsAppend(p, msgs, final);
    ApplyAppend(p, AllDiffs(p, msgs).value, Diffs(Last(p, msgs), final).value);
  }

  lemma {:induction false} AllDiffsAppend(p: Msg, msgs: seq<Msg>, final: Msg)
    ensures AllDiffs(p, msgs + [final]) == Both(AllDiffs(p, msgs), Diffs(Last(p, msgs), final))
    decreases |msgs|
  {
    hide Diffs;
    if msgs == [] {
      assert ([] + [final])[1..] == [];
      var d := Diffs(p, final);
      if d.Ok? { assert d.value + [] == d.value == [] + d.value; }
    } else {
      assert (msgs + [final])[1..] == msgs[1..] + [final];
      AllDiffsAppend(msgs[0], msgs[1..], final);
      BothAssociative(Diffs(p, msgs[0]), AllDiffs(msgs[0], msgs[1..]), Diffs(Last(p, msgs), final));
    }
  }
}
