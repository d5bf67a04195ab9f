/**
 The backtracking glob matcher (`glob_match`, `glob_class_match`) against what a pattern means:
 the string splits into one piece for every token of the pattern.
 */
module Glob {

  // ---- What a pattern means ----

  datatype Item = One(c: char) | Range(lo: char, hi: char)

  datatype Token =
    | AnyDeep               // **
    | AnyFlat               // *
    | OneFlat               // ?
    | Class(negated: bool, items: seq<Item>)
    | Literal(c: char)

  predicate InItem(c: char, item: Item) {
    match item
    case One(d) => c == d
    case Range(lo, hi) => lo <= c <= hi
  }

  predicate InClass(c: char, t: Token)
    requires t.Class?
  {
    (exists k :: 0 <= k < |t.items| && InItem(c, t.items[k])) != t.negated
  }

  /** Whether a token takes exactly this piece of the string. */
  predicate Takes(t: Token, piece: string) {
    match t
    case AnyDeep => true
    case AnyFlat => '/' !in piece
    case OneFlat => |piece| == 1 && piece[0] != '/'
    case Class(_, _) => |piece| == 1 && InClass(piece[0], t)
    case Literal(c) => piece == [c]
  }

  function Concat(pieces: seq<string>): string {
    if pieces == [] then "" else pieces[0] + Concat(pieces[1..])
  }

  ghost predicate SplitsInto(s: string, ts: seq<Token>, pieces: seq<string>) {
    |pieces| == |ts| && Concat(pieces) == s && forall k :: 0 <= k < |ts| ==> Takes(ts[k], pieces[k])
  }

  ghost predicate Denotes(ts: seq<Token>, s: string) {
    exists pieces :: SplitsInto(s, ts, pieces)
  }

  // ---- The tokens of a pattern ----

  function CloseFrom(p: string, i: nat): (n: nat)
    requires i <= |p|
    ensures i <= n <= |p| && (n < |p| ==> p[n] == ']')
    decreases |p| - i
  {
    if i < |p| && p[i] != ']' then CloseFrom(p, i + 1) else i
  }

  /** Where the class that opens `p` closes; the length of `p` when it does not. A first `]` or `-` is a member. */
  function ClassEnd(p: string): (n: nat)
    requires p != ""
    ensures 1 <= n <= |p| && (n < |p| ==> p[n] == ']')
  {
    CloseFrom(p, if |p| > 1 && (p[1] == ']' || p[1] == '-') then 2 else 1)
  }

  /** The members of a class body, left to right. */
  function Items(b: string): seq<Item> {
    if b == "" then []
    else if |b| > 2 && b[1] == '-' && b[2] != ']' then [Range(b[0], b[2])] + Items(b[3..])
    else [One(b[0])] + Items(b[1..])
  }

  /** A first `]` or `-` is a member by itself, never the start of a range. */
  function Members(b: string): seq<Item> {
    if b != "" && (b[0] == ']' || b[0] == '-') then [One(b[0])] + Items(b[1..]) else Items(b)
  }

  function ClassToken(b: string): (t: Token)
    ensures t.Class?
  {
    if b != "" && b[0] == '!' then Class(true, Members(b[1..])) else Class(false, Members(b))
  }

  /** The first token of a pattern and how many characters it takes. */
  function FirstToken(p: string): (t: (Token, nat))
    requires p != ""
    ensures 1 <= t.1 <= |p|
  {
    if p[0] == '*' then (if |p| > 1 && p[1] == '*' then (AnyDeep, 2) else (AnyFlat, 1))
    else if p[0] == '?' then (OneFlat, 1)
    else if p[0] == '[' && ClassEnd(p) < |p| then (ClassToken(p[1..ClassEnd(p)]), ClassEnd(p) + 1)
    else (Literal(p[0]), 1)
  }

  function Tokens(p: string): seq<Token> {
    if p == "" then [] else [FirstToken(p).0] + Tokens(p[FirstToken(p).1..])
  }

  ghost predicate Matches(p: string, s: string) {
    Denotes(Tokens(p), s)
  }

  // ---- Pieces ----

  lemma ConcatCons(piece: string, pieces: seq<string>)
    ensures Concat([piece] + pieces) == piece + Concat(pieces)
  {
    assert ([piece] + pieces)[1..] == pieces;
  }

  /** The first token takes some prefix, the others the rest. */
  lemma DenotesCons(t: Token, ts: seq<Token>, s: string)
    ensures Denotes([t] + ts, s) <==> exists k :: 0 <= k <= |s| && Takes(t, s[..k]) && Denotes(ts, s[k..])
  {
    var all := [t] + ts;
    if Denotes(all, s) {
      var pieces :| SplitsInto(s, all, pieces);
      DenotesSplit(t, ts, s, pieces);
    }
    if k :| 0 <= k <= |s| && Takes(t, s[..k]) && Denotes(ts, s[k..]) {
      var pieces :| SplitsInto(s[k..], ts, pieces);
      DenotesJoin(t, ts, s, k, pieces);
    }
  }

  lemma DenotesSplit(t: Token, ts: seq<Token>, s: string, pieces: seq<string>)
    requires SplitsInto(s, [t] + ts, pieces)
    ensures exists k :: 0 <= k <= |s| && Takes(t, s[..k]) && Denotes(ts, s[k..])
  {
    hide Takes;
    var all := [t] + ts;
    var k := |pieces[0]|;
    assert s[..k] == pieces[0] && s[k..] == Concat(pieces[1..]);
    assert Takes(all[0], pieces[0]);
    assert forall j :: 0 <= j < |ts| ==> ts[j] == all[j + 1];
    assert SplitsInto(s[k..], ts, pieces[1..]);
  }

  lemma DenotesJoin(t: Token, ts: seq<Token>, s: string, k: nat, pieces: seq<string>)
    requires k <= |s| && Takes(t, s[..k]) && SplitsInto(s[k..], ts, pieces)
    ensures Denotes([t] + ts, s)
  {
    hide Takes;
    var all, ps := [t] + ts, [s[..k]] + pieces;
    ConcatCons(s[..k], pieces);
    assert s[..k] + s[k..] == s;
    assert forall j :: 0 < j < |all| ==> all[j] == ts[j - 1] && ps[j] == pieces[j - 1];
    assert SplitsInto(s, all, ps);
  }

  lemma DenotesNothing(s: string)
    ensures Denotes([], s) <==> s == ""
  {
    if s == "" { assert SplitsInto("", [], []); }
  }

  /** A pattern matches when its first token takes some prefix and the remaining pattern matches the rest. */
  lemma MatchesFirst(p: string, s: string)
    requires p != ""
    ensures var (t, n) := FirstToken(p);
      Matches(p, s) <==> exists k :: 0 <= k <= |s| && Takes(t, s[..k]) && Matches(p[n..], s[k..])
  {
    hide FirstToken, Takes, Denotes;
    DenotesCons(FirstToken(p).0, Tokens(p[FirstToken(p).1..]), s);
  }

  /** A token that takes one character. */
  lemma MatchesOne(p: string, s: string)
    requires p != "" && !FirstToken(p).0.AnyDeep? && !FirstToken(p).0.AnyFlat?
    ensures var (t, n) := FirstToken(p);
      Matches(p, s) <==> s != "" && Takes(t, s[..1]) && Matches(p[n..], s[1..])
  {
    MatchesFirst(p, s);
    hide FirstToken, Matches;
  }

  /**
   A `]` right after the negation closes the class: for every such pattern the class is empty, and
   the character it takes may be any.
   */
  lemma NegatedBracket(p: string, s: string)
    requires |p| >= 3 && p[0] == '[' && p[1] == '!' && p[2] == ']'
    ensures FirstToken(p) == (Class(true, []), 3)
    ensures Matches(p, s) <==> s != "" && Matches(p[3..], s[1..])
  {
    assert CloseFrom(p, 2) == 2 && CloseFrom(p, 1) == 2;
    assert p[1..2] == "!" && p[1..2][1..] == "";
    MatchesOne(p, s);
    hide Matches;
  }

  /** The piece of the first token ends at `k`. */
  ghost predicate FirstPiece(p: string, s: string, k: nat)
    requires p != ""
  {
    k <= |s| && Takes(FirstToken(p).0, s[..k]) && Matches(p[FirstToken(p).1..], s[k..])
  }

  lemma FirstPieceMatches(p: string, s: string)
    requires p != ""
    ensures Matches(p, s) <==> exists k: nat :: FirstPiece(p, s, k)
  {
    MatchesFirst(p, s);
    hide FirstToken, Matches, Takes;
    if Matches(p, s) {
      var k :| 0 <= k <= |s| && Takes(FirstToken(p).0, s[..k]) && Matches(p[FirstToken(p).1..], s[k..]);
      assert FirstPiece(p, s, k);
    }
  }

  /** A star token may take one character less: `s` without its first character. */
  lemma ShiftPiece(p: string, s: string, k: nat)
    requires p != "" && s != "" && 0 < k <= |s|
    requires FirstToken(p).0.AnyDeep? || FirstToken(p).0.AnyFlat?
    ensures FirstPiece(p, s, k) <==> (FirstToken(p).0.AnyFlat? ==> s[0] != '/') && FirstPiece(p, s[1..], k - 1)
  {
    hide FirstToken, Matches;
    assert s[1..][k - 1..] == s[k..];
    assert s[..k] == [s[0]] + s[1..][..k - 1];
  }

  /** A star takes nothing, or one more character; for a single star that is not a slash. */
  lemma MatchesStar(p: string, s: string)
    requires p != "" && (FirstToken(p).0.AnyDeep? || FirstToken(p).0.AnyFlat?)
    ensures Matches(p, s) <==>
      Matches(p[FirstToken(p).1..], s) || (s != "" && (FirstToken(p).0.AnyFlat? ==> s[0] != '/') && Matches(p, s[1..]))
  {
    FirstPieceMatches(p, s);
    EmptyPiece(p, s);
    if s != "" { FirstPieceMatches(p, s[1..]); }
    hide FirstToken, Matches, FirstPiece;
    if k: nat :| FirstPiece(p, s, k) {
      PieceInRange(p, s, k);
      if k > 0 { ShiftPiece(p, s, k); }
    }
    if s != "" {
      if j: nat :| FirstPiece(p, s[1..], j) {
        PieceInRange(p, s[1..], j);
        ShiftPiece(p, s, j + 1);
      }
    }
  }

  lemma PieceInRange(p: string, s: string, k: nat)
    requires p != "" && FirstPiece(p, s, k)
    ensures k <= |s|
  {
  }

  lemma EmptyPiece(p: string, s: string)
    requires p != "" && (FirstToken(p).0.AnyDeep? || FirstToken(p).0.AnyFlat?)
    ensures FirstPiece(p, s, 0) <==> Matches(p[FirstToken(p).1..], s)
  {
    hide FirstToken, Matches;
    assert s[0..] == s && s[..0] == "";
  }

  // ---- The matcher ----

  ghost predicate InItems(c: char, items: seq<Item>) {
    exists k :: 0 <= k < |items| && InItem(c, items[k])
  }

  lemma InItemsCons(c: char, item: Item, items: seq<Item>)
    ensures InItems(c, [item] + items) <==> InItem(c, item) || InItems(c, items)
  {
    hide InItem;
    var all := [item] + items;
    assert all[0] == item;
    if InItems(c, items) {
      var k :| 0 <= k < |items| && InItem(c, items[k]);
      assert all[k + 1] == items[k];
    }
    if InItems(c, all) {
      var k :| 0 <= k < |all| && InItem(c, all[k]);
      assert k > 0 ==> all[k] == items[k - 1];
    }
  }

  lemma ItemsStep(c: char, b: string)
    requires b != ""
    ensures if |b| > 2 && b[1] == '-' && b[2] != ']'
            then InItems(c, Items(b)) <==> b[0] <= c <= b[2] || InItems(c, Items(b[3..]))
            else InItems(c, Items(b)) <==> c == b[0] || InItems(c, Items(b[1..]))
  {
    hide InItems;
    if |b| > 2 && b[1] == '-' && b[2] != ']' {
      InItemsCons(c, Range(b[0], b[2]), Items(b[3..]));
    } else {
      InItemsCons(c, One(b[0]), Items(b[1..]));
    }
  }

  /** The part of a class body that is left at position `i`, which may be one past the end. */
  function Body(p: string, i: nat, end: nat): string
    requires end <= |p|
  {
    if i <= end then p[i..end] else ""
  }

  lemma BodyAt(p: string, i: nat, end: nat)
    requires end <= |p|
    ensures i <= end ==> Body(p, i, end) == p[i..end]
    ensures i >= end ==> Body(p, i, end) == ""
    ensures i < end ==>
      Body(p, i, end) != "" && Body(p, i, end)[0] == p[i] && Body(p, i, end)[1..] == Body(p, i + 1, end)
    ensures i + 2 < end ==>
      Body(p, i, end)[1] == p[i + 1] && Body(p, i, end)[2] == p[i + 2] && Body(p, i, end)[3..] == Body(p, i + 3, end)
  {
  }

  /** `glob_class_match`: the class body is `p[start..end]` and `p[end]` is the closing bracket. */
  method GlobClassMatch(c: char, p: string, start: nat, end: nat) returns (r: bool)
    requires start < end < |p| && p[end] == ']'
    ensures r <==> InClass(c, ClassToken(p[start..end]))
  {
    hide InItems, Items, Members, InClass, Body;
    var classStart := start;
    var negated := false;
    if p[classStart] == '!' {
      negated := true;
      classStart := classStart + 1;
    }
    ghost var body := Body(p, classStart, end);
    BodyAt(p, classStart, end);
    assert negated ==> p[classStart..end] == p[start..end][1..];
    ClassMeans(c, p[start..end]);
    MembersStep(c, body);
    if p[classStart] == ']' || p[classStart] == '-' {
      if classStart < end && p[classStart] == c {
        return !negated;
      }
      classStart := classStart + 1;
    }
    BodyAt(p, classStart, end);
    var matched := false;
    while classStart < end
      invariant classStart <= end + 1
      invariant InItems(c, Members(body)) == (matched || InItems(c, Items(Body(p, classStart, end))))
      decreases end - classStart
    {
      BodyAt(p, classStart, end);
      ItemsStep(c, Body(p, classStart, end));
      if classStart + 2 < end && p[classStart + 1] == '-' && p[classStart + 2] != ']' {
        if p[classStart] <= c && c <= p[classStart + 2] {
          matched := true;
          break;
        }
        classStart := classStart + 3;
      } else {
        if p[classStart] == c {
          matched := true;
          break;
        }
        classStart := classStart + 1;
      }
    }
    NoMembers(c);
    BodyAt(p, classStart, end);
    r := if negated then !matched else matched;
  }

  lemma MembersStep(c: char, b: string)
    ensures b != "" && (b[0] == ']' || b[0] == '-') ==>
      (InItems(c, Members(b)) <==> c == b[0] || InItems(c, Items(b[1..])))
    ensures b == "" || (b[0] != ']' && b[0] != '-') ==> Members(b) == Items(b)
  {
    if b != "" && (b[0] == ']' || b[0] == '-') {
      InItemsCons(c, One(b[0]), Items(b[1..]));
    }
  }

  lemma ClassMeans(c: char, b: string)
    requires b != ""
    ensures InClass(c, ClassToken(b)) == (if b[0] == '!' then !InItems(c, Members(b[1..])) else InItems(c, Members(b)))
  {
  }

  lemma NoMembers(c: char)
    ensures !InItems(c, Items("")) && !InItems(c, Members(""))
  {
  }

  method FindClassEnd(p: string) returns (n: nat)
    requires p != ""
    ensures n == ClassEnd(p)
  {
    n := 1;
    if n < |p| && (p[n] == ']' || p[n] == '-') {
      n := n + 1;
    }
    while n < |p| && p[n] != ']'
      invariant n <= |p| && CloseFrom(p, n) == ClassEnd(p)
    {
      n := n + 1;
    }
  }

  /** The matcher decides the meaning; it terminates because pattern and string together get shorter. */
  method GlobMatch(p: string, s: string) returns (r: bool)
    ensures r <==> Matches(p, s)
    decreases |p| + |s|
  {
    hide Matches, InClass, ClassToken, ClassEnd;
    if p == "" {
      MatchesEmpty(s);
      return s == "";
    }
    if p[0] == '*' && |p| > 1 && p[1] == '*' {
      MatchesStar(p, s);
      r := GlobMatch(p[2..], s);
      if r { return; }
      if s != "" {
        r := GlobMatch(p, s[1..]);
        return;
      }
      return false;
    }
    if p[0] == '*' {
      r := GlobStar(p, s);
      return;
    }
    MatchesOne(p, s);
    if p[0] == '?' && s != "" && s[0] != '/' {
      r := GlobMatch(p[1..], s[1..]);
      return;
    }
    if p[0] == '[' {
      var classEnd := FindClassEnd(p);
      if classEnd < |p| {
        if s == "" { return false; }
        ClassNonempty(p);
        r := GlobClassMatch(s[0], p, 1, classEnd);
        if r {
          r := GlobMatch(p[classEnd + 1..], s[1..]);
        }
        return;
      }
      if s != "" && s[0] == '[' {
        r := GlobMatch(p[1..], s[1..]);
        return;
      }
      return false;
    }
    if s != "" && p[0] == s[0] {
      r := GlobMatch(p[1..], s[1..]);
      return;
    }
    return false;
  }

  /** The loop over the pieces a `*` may take. */
  method GlobStar(p: string, s: string) returns (r: bool)
    requires p != "" && FirstToken(p) == (AnyFlat, 1)
    ensures r <==> Matches(p, s)
    decreases |p| + |s|, 0
  {
    hide Matches, FirstToken;
    var i := 0;
    assert s[0..] == s;
    while i < |s| && s[i] != '/'
      invariant i <= |s| && (Matches(p, s) <==> Matches(p, s[i..]))
      decreases |s| - i
    {
      MatchesStar(p, s[i..]);
      r := GlobMatch(p[1..], s[i..]);
      if r { return; }
      assert s[i..][1..] == s[i + 1..];
      i := i + 1;
    }
    MatchesStar(p, s[i..]);
    r := GlobMatch(p[1..], s[i..]);
  }

  lemma MatchesEmpty(s: string)
    ensures Matches("", s) <==> s == ""
  {
    DenotesNothing(s);
  }

  lemma ClassNonempty(p: string)
    requires p != "" && p[0] == '[' && ClassEnd(p) < |p|
    ensures ClassEnd(p) > 1
  {
  }

  // ---- The characters ----

  /** The first token of a pattern by its characters. */
  lemma Laws(p: string, s: string)
    ensures Matches("**" + p, s) <==> exists k :: 0 <= k <= |s| && Matches(p, s[k..])
    ensures (p == "" || p[0] != '*') ==>
      (Matches("*" + p, s) <==> exists k :: 0 <= k <= |s| && '/' !in s[..k] && Matches(p, s[k..]))
    ensures Matches("?" + p, s) <==> s != "" && s[0] != '/' && Matches(p, s[1..])
  {
    assert ("**" + p)[2..] == p && ("*" + p)[1..] == p && ("?" + p)[1..] == p;
    MatchesFirst("**" + p, s);
    MatchesFirst("*" + p, s);
    MatchesOne("?" + p, s);
    hide Matches;
    assert s != "" ==> s[..1] == [s[0]];
  }

  lemma LiteralLaw(c: char, p: string, s: string)
    requires c != '*' && c != '?' && c != '['
    ensures Matches([c] + p, s) <==> s != "" && s[0] == c && Matches(p, s[1..])
  {
    assert ([c] + p)[1..] == p;
    MatchesOne([c] + p, s);
    hide Matches;
    assert s != "" ==> s[..1] == [s[0]];
  }

  lemma {:induction false} CloseAt(p: string, i: nat, n: nat)
    requires i <= n <= |p| && (forall k :: i <= k < n ==> p[k] != ']') && (n < |p| ==> p[n] == ']')
    ensures CloseFrom(p, i) == n
    decreases n - i
  {
    if i < n { CloseAt(p, i + 1, n); }
  }

  /** A pattern that begins with a class whose body is `w`. */
  lemma ClassFirst(w: string, p: string, s: string)
    requires w != "" && forall k :: 1 <= k < |w| ==> w[k] != ']'
    requires w[0] == '!' ==> |w| > 1
    ensures Matches("[" + w + "]" + p, s) <==> s != "" && InClass(s[0], ClassToken(w)) && Matches(p, s[1..])
  {
    var q := "[" + w + "]" + p;
    CloseAt(q, if w[0] == ']' || w[0] == '-' then 2 else 1, |w| + 1);
    assert q[1..|w| + 1] == w && q[|w| + 2..] == p;
    assert FirstToken(q) == (ClassToken(w), |w| + 2);
    MatchesOne(q, s);
    hide Matches, ClassToken, FirstToken, InClass;
    assert s != "" ==> s[..1] == [s[0]];
  }

  lemma {:induction false} PlainItems(c: char, w: string)
    requires '-' !in w
    ensures InItems(c, Items(w)) <==> c in w
  {
    if w == "" {
      NoMembers(c);
    } else {
      PlainItems(c, w[1..]);
      ItemsStep(c, w);
    }
  }

  /** A class of single characters, and the same negated. */
  lemma CharactersLaw(w: string, p: string, s: string)
    requires w != "" && '-' !in w && ']' !in w
    ensures w[0] != '!' ==> (Matches("[" + w + "]" + p, s) <==> s != "" && s[0] in w && Matches(p, s[1..]))
    ensures Matches("[!" + w + "]" + p, s) <==> s != "" && s[0] !in w && Matches(p, s[1..])
  {
    hide Matches, InItems;
    var n := "!" + w;
    assert n[1..] == w;
    if w[0] != '!' { ClassFirst(w, p, s); }
    ClassFirst(n, p, s);
    assert "[" + n + "]" + p == "[!" + w + "]" + p;
    if s != "" {
      PlainItems(s[0], w);
      if w[0] != '!' { ClassMeans(s[0], w); }
      ClassMeans(s[0], n);
    }
  }

  /** A range, and the same negated. */
  lemma RangeLaw(lo: char, hi: char, p: string, s: string)
    requires lo !in "!-]" && hi != ']'
    ensures Matches("[" + [lo, '-', hi] + "]" + p, s) <==> s != "" && lo <= s[0] <= hi && Matches(p, s[1..])
    ensures Matches("[!" + [lo, '-', hi] + "]" + p, s) <==> s != "" && !(lo <= s[0] <= hi) && Matches(p, s[1..])
  {
    hide Matches, InItems;
    var w, n := [lo, '-', hi], "!" + [lo, '-', hi];
    assert n[1..] == w;
    ClassFirst(w, p, s);
    ClassFirst(n, p, s);
    assert "[" + n + "]" + p == "[!" + w + "]" + p;
    if s != "" {
      ItemsStep(s[0], w);
      NoMembers(s[0]);
      assert w[3..] == "";
      ClassMeans(s[0], w);
      ClassMeans(s[0], n);
    }
  }

  /** A first `]` or `-` is a member, and an opening bracket that is never closed stands for itself. */
  lemma BracketLaw(w: string, p: string, s: string)
    requires '-' !in w && ']' !in w
    ensures Matches("[]" + w + "]" + p, s) <==> s != "" && (s[0] == ']' || s[0] in w) && Matches(p, s[1..])
    ensures Matches("[-" + w + "]" + p, s) <==> s != "" && (s[0] == '-' || s[0] in w) && Matches(p, s[1..])
    ensures Matches("[" + w, s) <==> s != "" && s[0] == '[' && Matches(w, s[1..])
  {
    hide Matches, InItems;
    var b, d := "]" + w, "-" + w;
    assert b[1..] == w && d[1..] == w;
    ClassFirst(b, p, s);
    ClassFirst(d, p, s);
    assert "[" + b + "]" + p == "[]" + w + "]" + p && "[" + d + "]" + p == "[-" + w + "]" + p;
    if s != "" {
      PlainItems(s[0], w);
      ClassMeans(s[0], b);
      ClassMeans(s[0], d);
      MembersStep(s[0], b);
      MembersStep(s[0], d);
    }
    CloseAt("[" + w, 1, |w| + 1);
    assert ("[" + w)[1..] == w;
    MatchesOne("[" + w, s);
    assert s != "" ==> s[..1] == [s[0]];
  }
}
