/**
 Splitting tokens into message spans at delimiters, with regions to jump over
 (`common_chat_msg_delimiters::split`).
 */
module Delimiters {

  datatype Role = UNKNOWN | SYSTEM | ASSISTANT | USER | TOOL

  type Token = int

  datatype Delimiter = Delimiter(role: Role, tokens: seq<Token>)

  datatype Match = Match(role: Role, pos: nat)

  datatype Span = Span(role: Role, pos: nat, len: int)

  /** A region to jump over, from the ordered map of starts to lengths. */
  datatype Skip = Skip(start: nat, len: nat)

  predicate MatchesAt(d: Delimiter, tokens: seq<Token>, i: nat) {
    i + |d.tokens| <= |tokens| && tokens[i..i + |d.tokens|] == d.tokens
  }

  /** The keys of a map, in increasing order. */
  predicate Ordered(skips: seq<Skip>) {
    forall j, k :: 0 <= j < k < |skips| ==> skips[j].start < skips[k].start
  }

  /** No region reaches into a later one. */
  predicate Disjoint(skips: seq<Skip>) {
    Ordered(skips) && forall j, k :: 0 <= j < k < |skips| ==> skips[j].start + skips[j].len <= skips[k].start
  }

  predicate Skipped(skips: seq<Skip>, i: nat) {
    exists k :: 0 <= k < |skips| && skips[k].start <= i < skips[k].start + skips[k].len
  }

  predicate SomeMatch(ds: seq<Delimiter>, tokens: seq<Token>, i: nat) {
    exists k :: 0 <= k < |ds| && MatchesAt(ds[k], tokens, i)
  }

  /** The first delimiter that matches decides the role. */
  function FirstRole(ds: seq<Delimiter>, tokens: seq<Token>, i: nat): Role
    requires SomeMatch(ds, tokens, i)
  {
    if MatchesAt(ds[0], tokens, i) then ds[0].role
    else
      assert SomeMatch(ds[1..], tokens, i) by {
        var k :| 0 <= k < |ds| && MatchesAt(ds[k], tokens, i);
        assert ds[1..][k - 1] == ds[k];
      }
      FirstRole(ds[1..], tokens, i)
  }

  method FindMatch(ds: seq<Delimiter>, tokens: seq<Token>, i: nat) returns (found: bool, role: Role)
    requires i < |tokens|
    ensures found <==> SomeMatch(ds, tokens, i)
    ensures found ==> role == FirstRole(ds, tokens, i)
  {
    role := UNKNOWN;
    for k := 0 to |ds|
      invariant forall j :: 0 <= j < k ==> !MatchesAt(ds[j], tokens, i)
    {
      var d := ds[k];
      if i + |d.tokens| > |tokens| { continue; }
      if tokens[i..i + |d.tokens|] == d.tokens {
        assert MatchesAt(ds[k], tokens, i);
        FirstRoleIs(ds, tokens, i, k);
        return true, d.role;
      }
    }
    found := false;
  }

  lemma {:induction false} FirstRoleIs(ds: seq<Delimiter>, tokens: seq<Token>, i: nat, k: nat)
    requires k < |ds| && MatchesAt(ds[k], tokens, i) && forall j :: 0 <= j < k ==> !MatchesAt(ds[j], tokens, i)
    ensures SomeMatch(ds, tokens, i) && FirstRole(ds, tokens, i) == ds[k].role
  {
    if k > 0 {
      assert forall j :: 0 <= j < k - 1 ==> ds[1..][j] == ds[j + 1];
      FirstRoleIs(ds[1..], tokens, i, k - 1);
    }
  }

  /** Whether the scan at position `i`, with the skips from `next` on still to come, tries position `p`. */
  predicate Visits(skips: seq<Skip>, n: nat, i: nat, next: nat, p: nat)
    decreases if i <= n then n - i else 0, if next <= |skips| then |skips| - next else 0
  {
    if i >= n then false
    else if next < |skips| && i == skips[next].start then Visits(skips, n, i + skips[next].len, next + 1, p)
    else p == i || Visits(skips, n, i + 1, next, p)
  }

  lemma {:induction false} VisitsBounds(skips: seq<Skip>, n: nat, i: nat, next: nat, p: nat)
    ensures Visits(skips, n, i, next, p) ==> i <= p < n
    decreases if i <= n then n - i else 0, if next <= |skips| then |skips| - next else 0
  {
    if i < n {
      if next < |skips| && i == skips[next].start {
        VisitsBounds(skips, n, i + skips[next].len, next + 1, p);
      } else {
        VisitsBounds(skips, n, i + 1, next, p);
      }
    }
  }

  /** A position where a message starts. */
  predicate IsStart(ds: seq<Delimiter>, tokens: seq<Token>, skips: seq<Skip>, p: nat) {
    Visits(skips, |tokens|, 0, 0, p) && SomeMatch(ds, tokens, p)
  }

  /** What has been matched and what is still to be tried make up the starts. */
  ghost predicate Matched(ds: seq<Delimiter>, tokens: seq<Token>, skips: seq<Skip>, i: nat, next: nat, ms: seq<Match>) {
    && (forall k :: 0 <= k < |ms| ==>
          ms[k].pos < i && IsStart(ds, tokens, skips, ms[k].pos) && ms[k].role == FirstRole(ds, tokens, ms[k].pos))
    && (forall j, k :: 0 <= j < k < |ms| ==> ms[j].pos < ms[k].pos)
    && (forall p: nat :: Visits(skips, |tokens|, i, next, p) ==> Visits(skips, |tokens|, 0, 0, p))
    && (forall p: nat :: IsStart(ds, tokens, skips, p) ==>
          Visits(skips, |tokens|, i, next, p) || exists k :: 0 <= k < |ms| && ms[k].pos == p)
  }

  lemma JumpMatched(ds: seq<Delimiter>, tokens: seq<Token>, skips: seq<Skip>, i: nat, next: nat, ms: seq<Match>)
    requires Matched(ds, tokens, skips, i, next, ms) && i < |tokens| && next < |skips| && i == skips[next].start
    ensures Matched(ds, tokens, skips, i + skips[next].len, next + 1, ms)
  {
    hide SomeMatch;
    assert forall p: nat :: Visits(skips, |tokens|, i, next, p) <==>
      Visits(skips, |tokens|, i + skips[next].len, next + 1, p);
  }

  lemma StepMatched(ds: seq<Delimiter>, tokens: seq<Token>, skips: seq<Skip>, i: nat, next: nat, ms: seq<Match>,
    found: bool, role: Role)
    requires Matched(ds, tokens, skips, i, next, ms) && i < |tokens| && !(next < |skips| && i == skips[next].start)
    requires found <==> SomeMatch(ds, tokens, i)
    requires found ==> role == FirstRole(ds, tokens, i)
    ensures Matched(ds, tokens, skips, i + 1, next, if found then ms + [Match(role, i)] else ms)
  {
    hide SomeMatch;
    var ms' := if found then ms + [Match(role, i)] else ms;
    assert forall p: nat :: Visits(skips, |tokens|, i, next, p) <==> p == i || Visits(skips, |tokens|, i + 1, next, p);
    assert Visits(skips, |tokens|, i, next, i);
    forall p: nat | IsStart(ds, tokens, skips, p) && !Visits(skips, |tokens|, i + 1, next, p)
      ensures exists k :: 0 <= k < |ms'| && ms'[k].pos == p
    {
      if p == i {
        assert ms'[|ms|].pos == p;
      } else {
        var k :| 0 <= k < |ms| && ms[k].pos == p;
        assert ms'[k].pos == p;
      }
    }
  }

  /** The matches are exactly the starts, in order, each with the role of the first delimiter that matches there. */
  ghost predicate AreStarts(ds: seq<Delimiter>, tokens: seq<Token>, skips: seq<Skip>, ms: seq<Match>) {
    && (forall k :: 0 <= k < |ms| ==>
          ms[k].pos < |tokens| && IsStart(ds, tokens, skips, ms[k].pos)
            && ms[k].role == FirstRole(ds, tokens, ms[k].pos))
    && (forall j, k :: 0 <= j < k < |ms| ==> ms[j].pos < ms[k].pos)
    && (forall p: nat :: IsStart(ds, tokens, skips, p) ==> exists k :: 0 <= k < |ms| && ms[k].pos == p)
  }

  lemma MatchedAll(ds: seq<Delimiter>, tokens: seq<Token>, skips: seq<Skip>, i: nat, next: nat, ms: seq<Match>)
    requires Matched(ds, tokens, skips, i, next, ms) && i >= |tokens|
    ensures AreStarts(ds, tokens, skips, ms)
  {
    hide SomeMatch;
    forall k | 0 <= k < |ms| ensures ms[k].pos < |tokens| {
      VisitsBounds(skips, |tokens|, 0, 0, ms[k].pos);
    }
  }

  lemma MatchedNone(ds: seq<Delimiter>, tokens: seq<Token>, skips: seq<Skip>)
    ensures Matched(ds, tokens, skips, 0, 0, [])
  {
  }

  /** The scan: it ends although a skip of length zero does not move the position. */
  method FindMatches(ds: seq<Delimiter>, tokens: seq<Token>, skips: seq<Skip>) returns (ms: seq<Match>)
    ensures AreStarts(ds, tokens, skips, ms)
  {
    hide Matched, AreStarts, SomeMatch;
    ms := [];
    var next, i := 0, 0;
    MatchedNone(ds, tokens, skips);
    while i < |tokens|
      invariant next <= |skips| && Matched(ds, tokens, skips, i, next, ms)
      decreases |tokens| - i, |skips| - next
    {
      if next < |skips| && i == skips[next].start {
        JumpMatched(ds, tokens, skips, i, next, ms);
        i := i + skips[next].len;
        next := next + 1;
        continue;
      }
      var found, role := FindMatch(ds, tokens, i);
      StepMatched(ds, tokens, skips, i, next, ms, found, role);
      if found {
        ms := ms + [Match(role, i)];
      }
      i := i + 1;
    }
    MatchedAll(ds, tokens, skips, i, next, ms);
  }

  // ---- What is tried ----

  /** How many skips there are, from `k` on, before the first one that starts inside the skip before it. */
  function LiveFrom(skips: seq<Skip>, k: nat): (n: nat)
    requires k <= |skips|
    ensures k <= n <= |skips|
    decreases |skips| - k
  {
    if k == |skips| || (k > 0 && skips[k].start < skips[k - 1].start + skips[k - 1].len) then k
    else LiveFrom(skips, k + 1)
  }

  function Live(skips: seq<Skip>): (n: nat)
    ensures n <= |skips|
  {
    LiveFrom(skips, 0)
  }

  lemma {:induction false} LiveMeaning(skips: seq<Skip>, k: nat)
    requires k <= |skips|
    ensures var n := LiveFrom(skips, k);
      && (forall j :: k < j < n ==> skips[j - 1].start + skips[j - 1].len <= skips[j].start)
      && (k > 0 && k < n ==> skips[k - 1].start + skips[k - 1].len <= skips[k].start)
      && (n < |skips| ==> n > 0 && skips[n].start < skips[n - 1].start + skips[n - 1].len)
    decreases |skips| - k
  {
    if k < LiveFrom(skips, k) {
      LiveMeaning(skips, k + 1);
    }
  }

  /**
   The scan at position `i`: the skips before `next` lie below it, the next live one does not start
   before it, and the first one that is not live has been missed.
   */
  predicate Passed(skips: seq<Skip>, live: nat, i: nat, next: nat) {
    && next <= live <= |skips|
    && (forall k :: 0 <= k < next ==> skips[k].start + skips[k].len <= i)
    && (next < live ==> i <= skips[next].start)
    && (next == live < |skips| ==> skips[live].start < i)
  }

  lemma {:induction false} VisitsFrom(skips: seq<Skip>, n: nat, i: nat, next: nat, p: nat)
    requires Ordered(skips) && Passed(skips, Live(skips), i, next)
    ensures Visits(skips, n, i, next, p) <==> i <= p < n && !Skipped(skips[..Live(skips)], p)
    decreases if i <= n then n - i else 0, |skips| - next
  {
    hide Visits, Skipped, Live;
    var live := Live(skips);
    VisitsUnfolds(skips, n, i, next, p);
    if i < n {
      if next < |skips| && i == skips[next].start {
        NextPassed(skips, i, next);
        VisitsFrom(skips, n, i + skips[next].len, next + 1, p);
        InsideSkipped(skips, live, next, p);
      } else {
        VisitsFrom(skips, n, i + 1, next, p);
        NotSkipped(skips, live, i, next);
      }
    }
  }

  lemma VisitsUnfolds(skips: seq<Skip>, n: nat, i: nat, next: nat, p: nat)
    ensures Visits(skips, n, i, next, p) <==>
      if i >= n then false
      else if next < |skips| && i == skips[next].start then Visits(skips, n, i + skips[next].len, next + 1, p)
      else p == i || Visits(skips, n, i + 1, next, p)
  {
  }

  lemma NextPassed(skips: seq<Skip>, i: nat, next: nat)
    requires Passed(skips, Live(skips), i, next) && next < |skips| && i == skips[next].start
    ensures Passed(skips, Live(skips), i + skips[next].len, next + 1)
  {
    LiveMeaning(skips, 0);
    hide LiveFrom;
    var live := Live(skips);
    if next + 1 < live {
      assert skips[next + 1 - 1].start + skips[next + 1 - 1].len <= skips[next + 1].start;
    }
  }

  lemma InsideSkipped(skips: seq<Skip>, live: nat, next: nat, p: nat)
    requires next < live <= |skips|
    ensures skips[next].start <= p < skips[next].start + skips[next].len ==> Skipped(skips[..live], p)
  {
    assert skips[..live][next] == skips[next];
  }

  lemma NotSkipped(skips: seq<Skip>, live: nat, i: nat, next: nat)
    requires Passed(skips, live, i, next) && Ordered(skips) && (next < |skips| ==> i != skips[next].start)
    ensures !Skipped(skips[..live], i)
  {
  }

  lemma StartPassed(skips: seq<Skip>)
    ensures Passed(skips, Live(skips), 0, 0)
  {
    LiveMeaning(skips, 0);
  }

  /**
   Exactly where messages start, for every ordered map of skips: at the matches outside the skips
   before the first overlap. A skip that starts inside the one before it is ignored, and so are all
   later ones.
   */
  lemma StartsExactly(ds: seq<Delimiter>, tokens: seq<Token>, skips: seq<Skip>, p: nat)
    requires Ordered(skips)
    ensures IsStart(ds, tokens, skips, p) <==>
      p < |tokens| && SomeMatch(ds, tokens, p) && !Skipped(skips[..Live(skips)], p)
  {
    StartPassed(skips);
    VisitsFrom(skips, |tokens|, 0, 0, p);
    hide Visits, SomeMatch, Skipped;
  }

  /** Without overlaps all skips count. */
  lemma StartsUnskipped(ds: seq<Delimiter>, tokens: seq<Token>, skips: seq<Skip>, p: nat)
    requires Disjoint(skips)
    ensures IsStart(ds, tokens, skips, p) <==> p < |tokens| && SomeMatch(ds, tokens, p) && !Skipped(skips, p)
  {
    LiveMeaning(skips, 0);
    hide LiveFrom;
    StartsExactly(ds, tokens, skips, p);
    assert Live(skips) == |skips| && skips[..|skips|] == skips;
  }

  /** The second skip lies inside the first one: the third one is ignored, and position 5 is tried. */
  lemma OverlapIgnored()
    ensures var skips := [Skip(0, 3), Skip(1, 1), Skip(5, 1)];
      Ordered(skips) && Skipped(skips, 5) && Visits(skips, 6, 0, 0, 5)
  {
    var skips := [Skip(0, 3), Skip(1, 1), Skip(5, 1)];
    assert skips[2] == Skip(5, 1);
    assert Visits(skips, 6, 5, 1, 5);
    assert Visits(skips, 6, 4, 1, 5);
    assert Visits(skips, 6, 3, 1, 5);
  }

  /** The spans lie side by side, none is empty, and together they cover the tokens from the first start to the end. */
  predicate Tiles(spans: seq<Span>, n: nat) {
    && (forall k :: 0 <= k < |spans| ==> spans[k].len > 0)
    && (forall k :: 0 <= k < |spans| - 1 ==> spans[k].pos + spans[k].len == spans[k + 1].pos)
    && (spans != [] ==> spans[|spans| - 1].pos + spans[|spans| - 1].len == n)
  }

  /** A span begins exactly at the starts, with the role found there. */
  ghost predicate BeginAtStarts(ds: seq<Delimiter>, tokens: seq<Token>, skips: seq<Skip>, spans: seq<Span>) {
    && (forall k :: 0 <= k < |spans| ==>
      IsStart(ds, tokens, skips, spans[k].pos) && spans[k].role == FirstRole(ds, tokens, spans[k].pos))
    && (forall p: nat :: IsStart(ds, tokens, skips, p) ==> exists k :: 0 <= k < |spans| && spans[k].pos == p)
  }

  /** The span from match `k` to the next one. */
  predicate Between(span: Span, ms: seq<Match>, k: nat) {
    k + 1 < |ms| && span == Span(ms[k].role, ms[k].pos, ms[k + 1].pos - ms[k].pos)
  }

  method Split(ds: seq<Delimiter>, tokens: seq<Token>, skips: seq<Skip>) returns (spans: seq<Span>)
    ensures Tiles(spans, |tokens|) && BeginAtStarts(ds, tokens, skips, spans)
  {
    var found := FindMatches(ds, tokens, skips);
    hide SomeMatch, Visits;
    var matches := found + [Match(UNKNOWN, |tokens|)];
    spans := [];
    for i := 0 to |matches| - 1
      invariant |spans| == i
      invariant forall k :: 0 <= k < i ==> Between(spans[k], matches, k)
    {
      var curr, next := matches[i], matches[i + 1];
      spans := spans + [Span(curr.role, curr.pos, next.pos - curr.pos)];
    }
    SpansTile(ds, tokens, skips, found, spans);
  }

  /** The spans between matches that end at position `n`. */
  ghost predicate SpansOf(spans: seq<Span>, found: seq<Match>, n: nat) {
    |spans| == |found| && forall k :: 0 <= k < |spans| ==> Between(spans[k], found + [Match(UNKNOWN, n)], k)
  }

  lemma SpanFields(spans: seq<Span>, found: seq<Match>, n: nat, k: nat)
    requires SpansOf(spans, found, n) && k < |spans|
    ensures spans[k].role == found[k].role && spans[k].pos == found[k].pos
    ensures spans[k].pos + spans[k].len == if k + 1 < |found| then found[k + 1].pos else n
  {
    assert Between(spans[k], found + [Match(UNKNOWN, n)], k);
  }

  lemma SpansTile(ds: seq<Delimiter>, tokens: seq<Token>, skips: seq<Skip>, found: seq<Match>, spans: seq<Span>)
    requires AreStarts(ds, tokens, skips, found) && SpansOf(spans, found, |tokens|)
    ensures Tiles(spans, |tokens|) && BeginAtStarts(ds, tokens, skips, spans)
  {
    hide SomeMatch, Visits, Between;
    forall k | 0 <= k < |spans|
      ensures spans[k].role == found[k].role && spans[k].pos == found[k].pos && spans[k].len > 0
      ensures spans[k].pos + spans[k].len == if k + 1 < |found| then found[k + 1].pos else |tokens|
    {
      SpanFields(spans, found, |tokens|, k);
      assert k + 1 < |found| ==> found[k].pos < found[k + 1].pos;
    }
    forall k | 0 <= k < |spans|
      ensures IsStart(ds, tokens, skips, spans[k].pos) && spans[k].role == FirstRole(ds, tokens, spans[k].pos)
    {
      assert IsStart(ds, tokens, skips, found[k].pos);
    }
    forall p: nat | IsStart(ds, tokens, skips, p) ensures exists k :: 0 <= k < |spans| && spans[k].pos == p {
      var k :| 0 <= k < |found| && found[k].pos == p;
      assert spans[k].pos == p;
    }
    forall k | 0 <= k < |spans| - 1 ensures spans[k].pos + spans[k].len == spans[k + 1].pos {
      assert spans[k + 1].pos == found[k + 1].pos;
    }
    if spans != [] { SpanFields(spans, found, |tokens|, |spans| - 1); }
  }

  /** A delimiter matches where the tokens go on with its own. */
  lemma MatchMeaning(d: Delimiter, tokens: seq<Token>, i: nat)
    ensures MatchesAt(d, tokens, i) <==> i <= |tokens| && exists rest :: tokens == tokens[..i] + d.tokens + rest
  {
    if MatchesAt(d, tokens, i) {
      assert tokens == tokens[..i] + d.tokens + tokens[i + |d.tokens|..];
    }
    if i <= |tokens| {
      if rest :| tokens == tokens[..i] + d.tokens + rest {
        assert (tokens[..i] + d.tokens + rest)[i..i + |d.tokens|] == d.tokens;
      }
    }
  }
}
