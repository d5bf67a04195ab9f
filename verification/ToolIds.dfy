/** Stamping the tool calls of successive messages with identifiers from one cache (`set_tool_call_ids`). */
module ToolIds {
  import opened Chat
  import opened ChatDiff

  /** Answers of the id generator: the one asked for at call index k. */
  type Generator = nat -> string

  /** The cache after it has an identifier for each of `calls`: the call's own one, or a generated one. */
  function Filled(ids: seq<string>, calls: seq<ToolCall>, gen: Generator): (r: seq<string>)
    ensures ids <= r && |calls| <= |r| && (|calls| <= |ids| ==> r == ids)
    decreases |calls| - |ids|
  {
    if |ids| >= |calls| then ids
    else Filled(ids + [if calls[|ids|].id != "" then calls[|ids|].id else gen(|ids|)], calls, gen)
  }

  function Stamped(calls: seq<ToolCall>, ids: seq<string>): (r: seq<ToolCall>)
    requires |calls| <= |ids|
    ensures |r| == |calls| && forall k :: 0 <= k < |r| ==> r[k] == calls[k].(id := ids[k])
  {
    seq(|calls|, k requires 0 <= k < |calls| => calls[k].(id := ids[k]))
  }

  class IdsCache {
    var ids: seq<string>

    constructor ()
      ensures ids == []
    {
      ids := [];
    }
  }

  class Message {
    var toolCalls: seq<ToolCall>

    constructor (calls: seq<ToolCall>)
      ensures toolCalls == calls
    {
      toolCalls := calls;
    }

    method SetToolCallIds(cache: IdsCache, gen: Generator)
      modifies this, cache
      ensures cache.ids == Filled(old(cache.ids), old(toolCalls), gen)
      ensures toolCalls == Stamped(old(toolCalls), cache.ids)
    {
      ghost var calls := toolCalls;
      ghost var target := Filled(cache.ids, toolCalls, gen);
      for i := 0 to |toolCalls|
        invariant |toolCalls| == |calls| && i <= |cache.ids|
        invariant Filled(cache.ids, calls, gen) == target
        invariant forall k :: 0 <= k < i ==> toolCalls[k] == calls[k].(id := target[k])
        invariant forall k :: i <= k < |calls| ==> toolCalls[k] == calls[k]
      {
        if |cache.ids| <= i {
          var id := toolCalls[i].id;
          if id == "" {
            id := gen(i);
          }
          cache.ids := cache.ids + [id];
        }
        toolCalls := toolCalls[i := toolCalls[i].(id := cache.ids[i])];
      }
    }
  }

  /** Stamping keeps the order of messages: the stamped later message continues the stamped earlier one. */
  lemma StampedExtends(p: seq<ToolCall>, n: seq<ToolCall>, ids: seq<string>, ids': seq<string>)
    requires CallsExtend(p, n) && |p| <= |ids| && ids <= ids' && |n| <= |ids'|
    ensures CallsExtend(Stamped(p, ids), Stamped(n, ids'))
  {
    if p != [] {
      var k := |p| - 1;
      assert ids[k] == ids'[k];
      assert CallExtends(p[k], n[k]);
    }
  }

  /** The messages of a run, each stamped through the same cache. */
  function StampedRun(ids: seq<string>, msgs: seq<Msg>, gen: Generator): (r: seq<Msg>)
    ensures |r| == |msgs|
    decreases |msgs|
  {
    if msgs == [] then [] else
    var ids' := Filled(ids, msgs[0].calls, gen);
    [msgs[0].(calls := Stamped(msgs[0].calls, ids'))] + StampedRun(ids', msgs[1..], gen)
  }

  lemma {:induction false} StampedFromCache(ids: seq<string>, msgs: seq<Msg>, gen: Generator, j: nat, k: nat)
    requires j < |msgs| && k < |msgs[j].calls| && k < |ids|
    ensures k < |StampedRun(ids, msgs, gen)[j].calls| && StampedRun(ids, msgs, gen)[j].calls[k].id == ids[k]
    decreases |msgs|
  {
    if j > 0 {
      StampedFromCache(Filled(ids, msgs[0].calls, gen), msgs[1..], gen, j - 1, k);
    }
  }

  /** An identifier never changes: a call keeps it in every later message of the run. */
  lemma {:induction false} IdsNeverChange(ids: seq<string>, msgs: seq<Msg>, gen: Generator, i: nat, j: nat, k: nat)
    requires i <= j < |msgs| && k < |msgs[i].calls| && k < |msgs[j].calls|
    ensures var r := StampedRun(ids, msgs, gen);
      k < |r[i].calls| && k < |r[j].calls| && r[i].calls[k].id == r[j].calls[k].id
    decreases |msgs|
  {
    var ids' := Filled(ids, msgs[0].calls, gen);
    if i > 0 {
      IdsNeverChange(ids', msgs[1..], gen, i - 1, j - 1, k);
    } else if j > 0 {
      StampedFromCache(ids', msgs[1..], gen, j - 1, k);
    }
  }

  lemma {:induction false} StampedRunContinues(p: Msg, ids: seq<string>, msgs: seq<Msg>, gen: Generator)
    requires |p.calls| <= |ids| && Continues(p, msgs)
    ensures Continues(p.(calls := Stamped(p.calls, ids)), StampedRun(ids, msgs, gen))
    decreases |msgs|
  {
    if msgs != [] {
      var ids' := Filled(ids, msgs[0].calls, gen);
      StampedExtends(p.calls, msgs[0].calls, ids, ids');
      StampedRunContinues(msgs[0], ids', msgs[1..], gen);
    }
  }

  /** The whole stream: stamped messages that continue one another are rebuilt exactly by their deltas. */
  lemma StampedReplay(msgs: seq<Msg>, gen: Generator)
    requires Continues(EMPTY_MSG, msgs)
    ensures var r := StampedRun([], msgs, gen);
      AllDiffs(EMPTY_MSG, r).Ok? && ApplyAll(EMPTY_MSG, AllDiffs(EMPTY_MSG, r).value) == Last(EMPTY_MSG, r)
  {
    StampedRunContinues(EMPTY_MSG, [], msgs, gen);
    assert EMPTY_MSG.(calls := Stamped([], [])) == EMPTY_MSG;
    ReplayRun(EMPTY_MSG, StampedRun([], msgs, gen));
  }

  /** The cache keeps what it has; a new place gets the call's own identifier, or a generated one if it has none. */
  lemma {:induction false} FilledMeaning(ids: seq<string>, calls: seq<ToolCall>, gen: Generator, k: nat)
    requires k < |Filled(ids, calls, gen)|
    ensures |Filled(ids, calls, gen)| == if |calls| > |ids| then |calls| else |ids|
    ensures Filled(ids, calls, gen)[k] ==
      if k < |ids| then ids[k] else if calls[k].id != "" then calls[k].id else gen(k)
    decreases |calls| - |ids|
  {
    if |ids| < |calls| {
      FilledMeaning(ids + [if calls[|ids|].id != "" then calls[|ids|].id else gen(|ids|)], calls, gen, k);
    }
  }
}
