/**
 A two-ended diff of two texts that keeps to segment borders (`calculate_diff_split`), and exactly
 when its four parts put both texts back together.
 */
module DiffSplit {
  import opened Segments
  import Text

  datatype Split = Split(prefix: string, left: string, right: string, suffix: string)

  /** The four iterators, the two flags and the text taken so far; `le` and `re` are inclusive. */
  datatype Ends = Ends(ls: int, le: int, rs: int, re: int, leftUsed: bool, rightUsed: bool, prefix: string,
    suffix: string)

  predicate InRange(l: seq<Segment>, r: seq<Segment>, c: Ends) {
    && 0 <= c.ls <= c.le < |l| && 0 <= c.rs <= c.re < |r|
    && (c.leftUsed ==> c.ls == c.le) && (c.rightUsed ==> c.rs == c.re)
  }

  function Start(l: seq<Segment>, r: seq<Segment>): Ends {
    Ends(0, |l| - 1, 0, |r| - 1, false, false, "", "")
  }

  predicate BothLeft(c: Ends) {
    c.ls != c.le && c.rs != c.re
  }

  /** How many steps the two ranges allow. */
  function Size(c: Ends): int {
    c.le - c.ls + c.re - c.rs
  }

  function TakeFront(l: seq<Segment>, r: seq<Segment>, c: Ends): (d: Ends)
    requires InRange(l, r, c) && BothLeft(c)
    ensures InRange(l, r, d) && (d == c || Size(d) < Size(c))
  {
    if l[c.ls] == r[c.rs] then c.(ls := c.ls + 1, rs := c.rs + 1, prefix := c.prefix + l[c.ls].value) else c
  }

  function TakeBack(l: seq<Segment>, r: seq<Segment>, c: Ends): (d: Ends)
    requires InRange(l, r, c)
    ensures InRange(l, r, d) && Size(d) <= Size(c) && (d == c || !BothLeft(c) || Size(d) < Size(c))
  {
    if l[c.le] == r[c.re] then
      c.(suffix := l[c.le].value + c.suffix,
         le := if c.ls != c.le then c.le - 1 else c.le, leftUsed := c.leftUsed || c.ls == c.le,
         re := if c.rs != c.re then c.re - 1 else c.re, rightUsed := c.rightUsed || c.rs == c.re)
    else c
  }

  /** The segment loop: take equal segments at the front and at the back while both sides have several left. */
  function Align(l: seq<Segment>, r: seq<Segment>, c: Ends): (d: Ends)
    requires InRange(l, r, c)
    ensures InRange(l, r, d)
    decreases Size(c)
  {
    if !BothLeft(c) then c else
    var d := TakeBack(l, r, TakeFront(l, r, c));
    if d == c then c else Align(l, r, d)
  }

  /** One side is down to a single segment: look for it at the ends of the other side. */
  function TailCase(l: seq<Segment>, r: seq<Segment>, c: Ends): (d: Ends)
    requires InRange(l, r, c)
    ensures InRange(l, r, d)
  {
    if c.ls == c.le && c.rs != c.re then
      if l[c.ls] == r[c.re] then c.(suffix := r[c.re].value + c.suffix, re := c.re - 1, leftUsed := true)
      else if l[c.ls] == r[c.rs] then c.(prefix := c.prefix + r[c.rs].value, rs := c.rs + 1, leftUsed := true)
      else c
    else if c.rs == c.re && c.ls != c.le then
      if l[c.le] == r[c.rs] then c.(suffix := l[c.le].value + c.suffix, le := c.le - 1, rightUsed := true)
      else if l[c.ls] == r[c.rs] then c.(prefix := c.prefix + l[c.ls].value, ls := c.ls + 1, rightUsed := true)
      else c
    else if c.ls == c.le && c.rs == c.re && l[c.ls] == r[c.rs] && l[c.ls].kind == MARKER then
      c.(prefix := c.prefix + r[c.rs].value, leftUsed := true, rightUsed := true)
    else c
  }

  /** One past the last segment that is still to be told apart. */
  function LeftEnd(c: Ends): int {
    if c.leftUsed then c.le else c.le + 1
  }

  function RightEnd(c: Ends): int {
    if c.rightUsed then c.re else c.re + 1
  }

  function CommonPrefix(a: string, b: string): (n: nat)
    ensures n <= |a| && n <= |b|
  {
    if a != "" && b != "" && a[0] == b[0] then 1 + CommonPrefix(a[1..], b[1..]) else 0
  }

  function CommonSuffix(a: string, b: string): (n: nat)
    ensures n <= |a| && n <= |b|
  {
    if a != "" && b != "" && a[|a| - 1] == b[|b| - 1] then 1 + CommonSuffix(a[..|a| - 1], b[..|b| - 1]) else 0
  }

  /** Splits the two remainders further where both of them end, or begin, with text. */
  function TextStage(prefix: string, suffix: string, a: string, b: string, backText: bool, frontText: bool): Split {
    var n := if backText then CommonSuffix(a, b) else 0;
    var a1, b1 := a[..|a| - n], b[..|b| - n];
    var m := if frontText then CommonPrefix(a1, b1) else 0;
    Split(prefix + a1[..m], a1[m..], b1[m..], a[|a| - n..] + suffix)
  }

  /** The two repairs: no difference at all, and a left text that is a prefix of the right text. */
  function Repaired(d: Split, left: string, right: string): Split {
    var d1 := if d.left == "" && d.right == "" then d.(prefix := left, suffix := "") else d;
    if d1.left == "" && d1.right != "" && left <= right then Split(left, "", right[|left|..], "") else d1
  }

  lemma NonemptySegmented(s: string)
    ensures s != "" ==> Segmented(s) != []
  {
  }

  function Aligned(left: string, right: string): Ends
    requires left != "" && right != ""
    ensures InRange(Segmented(left), Segmented(right), Aligned(left, right))
  {
    Align(Segmented(left), Segmented(right), Start(Segmented(left), Segmented(right)))
  }

  function Finished(l: seq<Segment>, r: seq<Segment>, t: Ends): Split
    requires InRange(l, r, t)
  {
    TextStage(t.prefix, t.suffix, Join(l[t.ls..LeftEnd(t)]), Join(r[t.rs..RightEnd(t)]),
              l[t.le].kind == TEXT && r[t.re].kind == TEXT, l[t.ls].kind == TEXT && r[t.rs].kind == TEXT)
  }

  function DiffSplit(left: string, right: string): Split {
    if left == "" then Split("", "", right, "")
    else if right == "" then Split("", left, "", "")
    else
      var l, r := Segmented(left), Segmented(right);
      Repaired(Finished(l, r, TailCase(l, r, Aligned(left, right))), left, right)
  }

  // ---- The method ----

  method CommonPrefixLen(left: string, right: string) returns (n: nat)
    ensures n == CommonPrefix(left, right)
    ensures n <= |left| && n <= |right| && (n == |left| || n == |right| || left[n] != right[n])
  {
    n := 0;
    assert left[0..] == left && right[0..] == right;
    while n < |left| && n < |right| && left[n] == right[n]
      invariant n <= |left| && n <= |right|
      invariant CommonPrefix(left, right) == n + CommonPrefix(left[n..], right[n..])
    {
      assert left[n..][1..] == left[n + 1..] && right[n..][1..] == right[n + 1..];
      n := n + 1;
    }
  }

  method CommonSuffixLen(left: string, right: string) returns (n: nat)
    ensures n == CommonSuffix(left, right)
    ensures n <= |left| && n <= |right|
      && (n == |left| || n == |right| || left[|left| - 1 - n] != right[|right| - 1 - n])
  {
    n := 0;
    assert left[..|left|] == left && right[..|right|] == right;
    while n < |left| && n < |right| && left[|left| - 1 - n] == right[|right| - 1 - n]
      invariant n <= |left| && n <= |right|
      invariant CommonSuffix(left, right) == n + CommonSuffix(left[..|left| - n], right[..|right| - n])
    {
      var a, b := left[..|left| - n], right[..|right| - n];
      assert a[..|a| - 1] == left[..|left| - n - 1] && b[..|b| - 1] == right[..|right| - n - 1];
      n := n + 1;
    }
  }

  method Accumulate(segs: seq<Segment>, from: int, to: int) returns (text: string)
    requires 0 <= from <= to <= |segs|
    ensures text == Join(segs[from..to])
  {
    text := "";
    for k := from to to
      invariant text == Join(segs[from..k])
    {
      assert segs[from..k + 1] == segs[from..k] + [segs[k]];
      JoinAppend(segs[from..k], [segs[k]]);
      assert Join([segs[k]]) == segs[k].value + Join([]);
      text := text + segs[k].value;
    }
  }

  /** The segment loop with its iterators and flags. */
  method AlignSegments(l: seq<Segment>, r: seq<Segment>) returns (c: Ends)
    requires l != [] && r != []
    ensures InRange(l, r, c) && c == Align(l, r, Start(l, r))
  {
    var leftStart, leftEnd, rightStart, rightEnd := 0, |l| - 1, 0, |r| - 1;
    var leftUsed, rightUsed, prefix, suffix := false, false, "", "";
    while leftStart != leftEnd && rightStart != rightEnd
      invariant var c := Ends(leftStart, leftEnd, rightStart, rightEnd, leftUsed, rightUsed, prefix, suffix);
        InRange(l, r, c) && Align(l, r, c) == Align(l, r, Start(l, r))
      decreases leftEnd - leftStart + rightEnd - rightStart
    {
      ghost var c0 := Ends(leftStart, leftEnd, rightStart, rightEnd, leftUsed, rightUsed, prefix, suffix);
      var advanced := false;
      if l[leftStart] == r[rightStart] {
        prefix := prefix + l[leftStart].value;
        leftStart, rightStart := leftStart + 1, rightStart + 1;
        advanced := true;
      }
      assert Ends(leftStart, leftEnd, rightStart, rightEnd, leftUsed, rightUsed, prefix, suffix) == TakeFront(l, r, c0);
      if l[leftEnd] == r[rightEnd] {
        suffix := l[leftEnd].value + suffix;
        if leftStart != leftEnd { leftEnd := leftEnd - 1; } else { leftUsed := true; }
        if rightStart != rightEnd { rightEnd := rightEnd - 1; } else { rightUsed := true; }
        advanced := true;
      }
      assert Ends(leftStart, leftEnd, rightStart, rightEnd, leftUsed, rightUsed, prefix, suffix) ==
        TakeBack(l, r, TakeFront(l, r, c0));
      if !advanced { break; }
    }
    c := Ends(leftStart, leftEnd, rightStart, rightEnd, leftUsed, rightUsed, prefix, suffix);
  }

  /** The cases after the loop. */
  method TailSegments(l: seq<Segment>, r: seq<Segment>, c: Ends) returns (d: Ends)
    requires InRange(l, r, c)
    ensures d == TailCase(l, r, c)
  {
    d := c;
    if c.ls == c.le && c.rs != c.re {
      if l[c.ls] == r[c.re] {
        d := d.(suffix := r[c.re].value + d.suffix, re := d.re - 1, leftUsed := true);
      } else if l[c.ls] == r[c.rs] {
        d := d.(prefix := d.prefix + r[c.rs].value, rs := d.rs + 1, leftUsed := true);
      }
    } else if c.rs == c.re && c.ls != c.le {
      if l[c.le] == r[c.rs] {
        d := d.(suffix := l[c.le].value + d.suffix, le := d.le - 1, rightUsed := true);
      } else if l[c.ls] == r[c.rs] {
        d := d.(prefix := d.prefix + l[c.ls].value, ls := d.ls + 1, rightUsed := true);
      }
    } else if c.ls == c.le && c.rs == c.re && l[c.ls] == r[c.rs] && l[c.ls].kind == MARKER {
      d := d.(prefix := d.prefix + r[c.rs].value, leftUsed := true, rightUsed := true);
    }
  }

  lemma Middle(a: string, m: nat, n: nat)
    requires m + n <= |a|
    ensures a[..m] == a[..|a| - n][..m] && a[m..|a| - n] == a[..|a| - n][m..]
  {
  }

  method SplitTexts(prefix: string, suffix: string, a: string, b: string, backText: bool, frontText: bool)
    returns (d: Split)
    ensures d == TextStage(prefix, suffix, a, b, backText, frontText)
  {
    var suffixLen := 0;
    if backText {
      suffixLen := CommonSuffixLen(a, b);
    }
    var prefixLen := 0;
    if frontText {
      prefixLen := CommonPrefixLen(a[..|a| - suffixLen], b[..|b| - suffixLen]);
    }
    Middle(a, prefixLen, suffixLen);
    Middle(b, prefixLen, suffixLen);
    hide CommonPrefix, CommonSuffix;
    d := Split(prefix + a[..prefixLen], a[prefixLen..|a| - suffixLen], b[prefixLen..|b| - suffixLen],
      a[|a| - suffixLen..] + suffix);
  }

  method CalculateDiffSplit(left: string, right: string) returns (result: Split)
    ensures result == DiffSplit(left, right)
  {
    hide Segmented, Align, TailCase, TextStage, Repaired, Join;
    EmptySegmented(left);
    EmptySegmented(right);
    NonemptySegmented(left);
    NonemptySegmented(right);
    var l := SegmentizeMarkers(left);
    var r := SegmentizeMarkers(right);
    if l == [] {
      return Split("", "", right, "");
    }
    if r == [] {
      return Split("", left, "", "");
    }
    var c := AlignSegments(l, r);
    var t := TailSegments(l, r, c);
    var remainderLeft := Accumulate(l, t.ls, if t.leftUsed then t.le else t.le + 1);
    var remainderRight := Accumulate(r, t.rs, if t.rightUsed then t.re else t.re + 1);
    result := SplitTexts(t.prefix, t.suffix, remainderLeft, remainderRight,
                         l[t.le].kind == TEXT && r[t.re].kind == TEXT, l[t.ls].kind == TEXT && r[t.rs].kind == TEXT);
    result := Repair(result, left, right);
  }

  method Repair(d: Split, left: string, right: string) returns (result: Split)
    ensures result == Repaired(d, left, right)
  {
    result := d;
    if result.left == "" && result.right == "" {
      result := result.(prefix := left, suffix := "");
    }
    if result.left == "" && result.right != "" && |left| <= |right| && right[..|left|] == left {
      result := Split(left, "", right[|left|..], "");
    }
  }

  // ---- When the parts put the texts back together ----

  predicate Lossless(d: Split, left: string, right: string) {
    d.prefix + d.left + d.suffix == left && d.prefix + d.right + d.suffix == right
  }

  /** What has been taken is the same whole segments on both sides. */
  ghost predicate Accounted(l: seq<Segment>, r: seq<Segment>, c: Ends) {
    && InRange(l, r, c) && c.ls == c.rs
    && l[..c.ls] == r[..c.rs] && l[LeftEnd(c)..] == r[RightEnd(c)..]
    && c.prefix == Join(l[..c.ls]) && c.suffix == Join(l[LeftEnd(c)..])
  }

  lemma TakeFrontAccounted(l: seq<Segment>, r: seq<Segment>, c: Ends)
    requires Accounted(l, r, c) && BothLeft(c)
    ensures Accounted(l, r, TakeFront(l, r, c))
  {
    hide Join;
    if l[c.ls] == r[c.rs] {
      JoinSnoc(l, c.ls);
      assert l[..c.ls + 1] == l[..c.ls] + [l[c.ls]] && r[..c.rs + 1] == r[..c.rs] + [r[c.rs]];
    }
  }

  lemma JoinSnoc(l: seq<Segment>, k: int)
    requires 0 <= k < |l|
    ensures Join(l[..k + 1]) == Join(l[..k]) + l[k].value
    ensures Join(l[k..]) == l[k].value + Join(l[k + 1..])
  {
    assert l[..k + 1] == l[..k] + [l[k]];
    JoinAppend(l[..k], [l[k]]);
    assert Join([l[k]]) == l[k].value + Join([]);
    assert l[k..][1..] == l[k + 1..];
  }

  lemma TakeBackAccounted(l: seq<Segment>, r: seq<Segment>, c: Ends)
    requires Accounted(l, r, c) && !c.leftUsed && !c.rightUsed
    ensures Accounted(l, r, TakeBack(l, r, c))
  {
    hide Join;
    if l[c.le] == r[c.re] {
      JoinSnoc(l, c.le);
      assert l[c.le..] == [l[c.le]] + l[c.le + 1..] && r[c.re..] == [r[c.re]] + r[c.re + 1..];
    }
  }

  lemma {:induction false} AlignAccounted(l: seq<Segment>, r: seq<Segment>, c: Ends)
    requires Accounted(l, r, c) && (BothLeft(c) ==> !c.leftUsed && !c.rightUsed)
    ensures Accounted(l, r, Align(l, r, c))
    decreases Size(c)
  {
    if BothLeft(c) {
      TakeFrontAccounted(l, r, c);
      var f := TakeFront(l, r, c);
      TakeBackAccounted(l, r, f);
      hide Accounted;
      var d := TakeBack(l, r, f);
      if d != c {
        AlignAccounted(l, r, d);
      }
    }
  }

  /** The loop stops only when one side is down to one segment or neither end matches. */
  lemma {:induction false} AlignStops(l: seq<Segment>, r: seq<Segment>, c: Ends)
    requires InRange(l, r, c)
    ensures var d := Align(l, r, c); BothLeft(d) ==> l[d.ls] != r[d.rs] && l[d.le] != r[d.re]
    decreases Size(c)
  {
    if BothLeft(c) {
      var d := TakeBack(l, r, TakeFront(l, r, c));
      if d != c {
        AlignStops(l, r, d);
      }
    }
  }

  lemma {:induction false} CommonPrefixMeaning(a: string, b: string)
    ensures var n := CommonPrefix(a, b); a[..n] == b[..n] && (n == |a| || n == |b| || a[n] != b[n])
  {
    if a != "" && b != "" && a[0] == b[0] {
      CommonPrefixMeaning(a[1..], b[1..]);
      var n := CommonPrefix(a[1..], b[1..]);
      assert a[..n + 1] == [a[0]] + a[1..][..n] && b[..n + 1] == [b[0]] + b[1..][..n];
    }
  }

  /** The texts in front of the longest common suffix, and that suffix. */
  lemma {:induction false} CommonSuffixMeaning(a: string, b: string) returns (u: string, v: string, s: string)
    ensures a == u + s && b == v + s && |s| == CommonSuffix(a, b)
    ensures u == "" || v == "" || u[|u| - 1] != v[|v| - 1]
  {
    hide CommonSuffix;
    SuffixUnfolds(a, b);
    if a != "" && b != "" && a[|a| - 1] == b[|b| - 1] {
      var c, a0, b0, s1 := a[|a| - 1], a[..|a| - 1], b[..|b| - 1], "";
      u, v, s1 := CommonSuffixMeaning(a0, b0);
      assert a == a0 + [c];
      assert b == b0 + [c];
      s := s1 + [c];
      OneMore(u, s1, [c]);
      OneMore(v, s1, [c]);
    } else {
      u, v, s := a, b, "";
    }
  }

  lemma SuffixUnfolds(a: string, b: string)
    ensures CommonSuffix(a, b) ==
      if a != "" && b != "" && a[|a| - 1] == b[|b| - 1] then 1 + CommonSuffix(a[..|a| - 1], b[..|b| - 1]) else 0
  {
  }

  lemma OneMore(u: string, s: string, c: string)
    ensures u + s + c == u + (s + c)
  {
  }

  lemma SameSuffix(a: string, b: string)
    ensures var n := CommonSuffix(a, b); a[|a| - n..] == b[|b| - n..]
  {
    var u, v, s := CommonSuffixMeaning(a, b);
    hide CommonSuffix;
    assert a[|u|..] == s && b[|v|..] == s;
  }

  /** The text stage keeps what the two sides add up to. */
  lemma TextStageKeeps(prefix: string, suffix: string, a: string, b: string, backText: bool, frontText: bool)
    ensures Lossless(TextStage(prefix, suffix, a, b, backText, frontText), prefix + a + suffix, prefix + b + suffix)
  {
    hide CommonPrefix, CommonSuffix, Lossless;
    var n := if backText then CommonSuffix(a, b) else 0;
    var a1, b1 := a[..|a| - n], b[..|b| - n];
    var m := if frontText then CommonPrefix(a1, b1) else 0;
    SameSuffix(a, b);
    CommonPrefixMeaning(a1, b1);
    CutKeeps(prefix, suffix, a, b, n, m);
  }

  /** Moving a common front and a common back to prefix and suffix. */
  lemma CutKeeps(prefix: string, suffix: string, a: string, b: string, n: nat, m: nat)
    requires n + m <= |a| && n + m <= |b| && a[|a| - n..] == b[|b| - n..] && a[..|a| - n][..m] == b[..|b| - n][..m]
    ensures var a1, b1 := a[..|a| - n], b[..|b| - n];
      Lossless(Split(prefix + a1[..m], a1[m..], b1[m..], a[|a| - n..] + suffix),
        prefix + a + suffix, prefix + b + suffix)
  {
    Reassembled(prefix, a, n, m, suffix);
    Reassembled(prefix, b, n, m, suffix);
  }

  /** It leaves no common text at an end where both sides have text. */
  lemma TextStageStops(prefix: string, suffix: string, a: string, b: string, backText: bool, frontText: bool)
    ensures var d := TextStage(prefix, suffix, a, b, backText, frontText);
      d.left != "" && d.right != "" ==>
        && (backText ==> d.left[|d.left| - 1] != d.right[|d.right| - 1])
        && (frontText ==> d.left[0] != d.right[0])
  {
    hide CommonPrefix, CommonSuffix;
    var u, v, s := CommonSuffixMeaning(a, b);
    var n := if backText then CommonSuffix(a, b) else 0;
    var a1, b1 := a[..|a| - n], b[..|b| - n];
    assert backText ==> a1 == u && b1 == v;
    CommonPrefixMeaning(a1, b1);
    var m := if frontText then CommonPrefix(a1, b1) else 0;
    var d := TextStage(prefix, suffix, a, b, backText, frontText);
    assert d.left == a1[m..] && d.right == b1[m..];
  }

  lemma Reassembled(prefix: string, a: string, n: nat, m: nat, suffix: string)
    requires n + m <= |a|
    ensures (prefix + a[..|a| - n][..m]) + a[..|a| - n][m..] + (a[|a| - n..] + suffix) == prefix + a + suffix
  {
    var x, y, z := a[..|a| - n][..m], a[..|a| - n][m..], a[|a| - n..];
    assert a == x + y + z;
    Around(prefix, x, y, z, suffix);
  }

  lemma Around(p: string, x: string, y: string, z: string, s: string)
    ensures p + x + y + (z + s) == p + (x + y + z) + s
  {
  }

  /** The repairs never lose a text that was not lost before. */
  lemma RepairKeeps(d: Split, left: string, right: string)
    requires Lossless(d, left, right)
    ensures Lossless(Repaired(d, left, right), left, right)
  {
    if d.left == "" && d.right == "" {
      assert left == right;
    }
  }

  /** The taken text and the remaining segments add up to each side. */
  ghost predicate Sums(l: seq<Segment>, r: seq<Segment>, c: Ends) {
    && InRange(l, r, c)
    && Join(l) == c.prefix + Join(l[c.ls..LeftEnd(c)]) + c.suffix
    && Join(r) == c.prefix + Join(r[c.rs..RightEnd(c)]) + c.suffix
  }

  lemma JoinThree(l: seq<Segment>, i: int, j: int)
    requires 0 <= i <= j <= |l|
    ensures Join(l) == Join(l[..i]) + Join(l[i..j]) + Join(l[j..])
  {
    hide Join;
    JoinTwo(l, i);
    JoinTwo(l[i..], j - i);
    Slices(l, i, j);
    Text.Associate(Join(l[..i]), Join(l[i..j]), Join(l[j..]));
  }

  lemma Slices<T>(l: seq<T>, i: int, j: int)
    requires 0 <= i <= j <= |l|
    ensures l[i..][..j - i] == l[i..j] && l[i..][j - i..] == l[j..]
  {
  }

  lemma JoinTwo(l: seq<Segment>, i: int)
    requires 0 <= i <= |l|
    ensures Join(l) == Join(l[..i]) + Join(l[i..])
  {
    hide Join;
    JoinAppend(l[..i], l[i..]);
    assert l == l[..i] + l[i..];
  }

  lemma AccountedSums(l: seq<Segment>, r: seq<Segment>, c: Ends)
    requires Accounted(l, r, c)
    ensures Sums(l, r, c)
  {
    JoinThree(l, c.ls, LeftEnd(c));
    JoinThree(r, c.rs, RightEnd(c));
    hide Join;
  }

  lemma SumsLossless(l: seq<Segment>, r: seq<Segment>, t: Ends, left: string, right: string)
    requires Sums(l, r, t) && Join(l) == left && Join(r) == right
    ensures Lossless(Repaired(Finished(l, r, t), left, right), left, right)
  {
    hide TextStage, Repaired, Join, Lossless;
    TextStageKeeps(t.prefix, t.suffix, Join(l[t.ls..LeftEnd(t)]), Join(r[t.rs..RightEnd(t)]),
                   l[t.le].kind == TEXT && r[t.re].kind == TEXT, l[t.ls].kind == TEXT && r[t.rs].kind == TEXT);
    RepairKeeps(Finished(l, r, t), left, right);
  }

  /** The segments from `i` to `j`, seen from either end. */
  lemma RangeEnds(l: seq<Segment>, i: int, j: int)
    requires 0 <= i < j <= |l|
    ensures Join(l[i..j]) == l[i].value + Join(l[i + 1..j]) && Join(l[i..j]) == Join(l[i..j - 1]) + l[j - 1].value
    ensures Join(l[i..i]) == "" && Join(l[j..j]) == ""
  {
    assert l[i..j][1..] == l[i + 1..j];
    assert l[i..j] == l[i..j - 1] + [l[j - 1]];
    JoinAppend(l[i..j - 1], [l[j - 1]]);
    assert Join([l[j - 1]]) == l[j - 1].value + Join([]);
  }

  /** A text in front of, or behind, what remains moves to what has been taken. */
  lemma MoveFront(p: string, v: string, m: string, s: string)
    ensures p + (v + m) + s == (p + v) + m + s
  {
  }

  lemma MoveBack(p: string, m: string, v: string, s: string)
    ensures p + (m + v) + s == p + m + (v + s)
  {
  }

  /** While nothing is used up, the tail cases keep the sums. */
  lemma TailSums(l: seq<Segment>, r: seq<Segment>, c: Ends)
    requires Sums(l, r, c) && !c.leftUsed && !c.rightUsed
    ensures Sums(l, r, TailCase(l, r, c))
  {
    hide Join;
    RangeEnds(l, c.ls, c.le + 1);
    RangeEnds(r, c.rs, c.re + 1);
    MoveFront(c.prefix, l[c.ls].value, Join(l[c.ls + 1..c.le + 1]), c.suffix);
    MoveFront(c.prefix, r[c.rs].value, Join(r[c.rs + 1..c.re + 1]), c.suffix);
    MoveBack(c.prefix, Join(l[c.ls..c.le]), l[c.le].value, c.suffix);
    MoveBack(c.prefix, Join(r[c.rs..c.re]), r[c.re].value, c.suffix);
  }

  // ---- Exactly when the two texts are lost ----

  /** The loop used up exactly one side. */
  predicate OneUsed(c: Ends) {
    c.leftUsed != c.rightUsed
  }

  /** A tail case finds an equal segment at an end of the other side. */
  predicate TailFires(l: seq<Segment>, r: seq<Segment>, c: Ends)
    requires InRange(l, r, c)
  {
    if c.ls == c.le && c.rs == c.re then l[c.ls] == r[c.rs] && l[c.ls].kind == MARKER
    else if c.ls == c.le then l[c.ls] == r[c.re] || l[c.ls] == r[c.rs]
    else c.rs == c.re && (l[c.le] == r[c.rs] || l[c.ls] == r[c.rs])
  }

  lemma {:induction false} SegmentsNonempty(segs: seq<Segment>)
    requires IsSegmentation(segs)
    ensures forall k :: 0 <= k < |segs| ==> segs[k].value != ""
  {
    if segs != [] && !(segs[0].kind == TEXT && IsUnclosed(segs[0].value)) {
      SegmentsNonempty(segs[1..]);
      assert forall k :: 0 < k < |segs| ==> segs[k] == segs[1..][k - 1];
    }
  }

  /** What the loop leaves: the sums, and segments that are not empty. */
  lemma AlignedSums(left: string, right: string)
    requires left != "" && right != ""
    ensures var l, r, c := Segmented(left), Segmented(right), Aligned(left, right);
      && Sums(l, r, c) && Join(l) == left && Join(r) == right
      && (forall k :: 0 <= k < |l| ==> l[k].value != "") && (forall k :: 0 <= k < |r| ==> r[k].value != "")
  {
    SegmentedIs(left);
    SegmentedIs(right);
    NonemptySegmented(left);
    NonemptySegmented(right);
    hide Segmented, Join, IsSegmentation;
    var l, r := Segmented(left), Segmented(right);
    SegmentsNonempty(l);
    SegmentsNonempty(r);
    StartAccounted(l, r);
    AlignAccounted(l, r, Start(l, r));
    AccountedSums(l, r, Aligned(left, right));
  }

  lemma StartAccounted(l: seq<Segment>, r: seq<Segment>)
    requires l != [] && r != []
    ensures Accounted(l, r, Start(l, r))
  {
    assert l[|l|..] == [] && r[|r|..] == [];
  }

  lemma TextStageOneEmpty(prefix: string, suffix: string, a: string, b: string, backText: bool, frontText: bool)
    requires a == "" || b == ""
    ensures TextStage(prefix, suffix, a, b, backText, frontText) == Split(prefix, a, b, suffix)
  {
    assert prefix + "" == prefix && "" + suffix == suffix;
    assert a[|a|..] == "" && a[..|a|] == a && b[..|b|] == b && a[0..] == a && b[0..] == b;
  }

  lemma JoinRange(l: seq<Segment>, i: int, j: int)
    requires 0 <= i <= j <= |l| && forall k :: 0 <= k < |l| ==> l[k].value != ""
    ensures Join(l[i..j]) == "" <==> i == j
  {
    if i < j { RangeEnds(l, i, j); } else { assert l[i..j] == []; }
  }

  lemma LeftTooLong(p: string, b: string, s: string, left: string, right: string)
    requires b != "" && |p| + |s| > |left|
    ensures Lossless(Repaired(Split(p, "", b, s), left, right), left, right) <==> left <= right
  {
    if left <= right { assert left + right[|left|..] == right && left + "" + "" == left; }
  }

  lemma RightTooLong(p: string, a: string, s: string, left: string, right: string)
    requires a != "" && |p| + |s| > |right|
    ensures !Lossless(Repaired(Split(p, a, "", s), left, right), left, right)
  {
  }

  /** A side that is used up has its whole text among what has been taken. */
  lemma UsedUp(l: seq<Segment>, r: seq<Segment>, c: Ends)
    requires Sums(l, r, c)
    ensures InRange(l, r, c)
    ensures c.leftUsed ==> |Join(l)| == |c.prefix| + |c.suffix| && Join(l[c.ls..LeftEnd(c)]) == ""
    ensures c.rightUsed ==> |Join(r)| == |c.prefix| + |c.suffix| && Join(r[c.rs..RightEnd(c)]) == ""
  {
    if c.leftUsed { assert l[c.ls..LeftEnd(c)] == []; }
    if c.rightUsed { assert r[c.rs..RightEnd(c)] == []; }
  }

  lemma TailLonger(l: seq<Segment>, r: seq<Segment>, c: Ends)
    requires InRange(l, r, c) && TailFires(l, r, c)
    requires (forall k :: 0 <= k < |l| ==> l[k].value != "") && (forall k :: 0 <= k < |r| ==> r[k].value != "")
    ensures var t := TailCase(l, r, c); |t.prefix| + |t.suffix| > |c.prefix| + |c.suffix|
  {
  }

  lemma FinishLeftTooLong(l: seq<Segment>, r: seq<Segment>, t: Ends, left: string, right: string)
    requires InRange(l, r, t) && |t.prefix| + |t.suffix| > |left|
    requires Join(l[t.ls..LeftEnd(t)]) == "" && Join(r[t.rs..RightEnd(t)]) != ""
    ensures Lossless(Repaired(Finished(l, r, t), left, right), left, right) <==> left <= right
  {
    hide Join, TextStage, Lossless, Repaired;
    var b := Join(r[t.rs..RightEnd(t)]);
    TextStageOneEmpty(t.prefix, t.suffix, "", b,
                      l[t.le].kind == TEXT && r[t.re].kind == TEXT, l[t.ls].kind == TEXT && r[t.rs].kind == TEXT);
    LeftTooLong(t.prefix, b, t.suffix, left, right);
  }

  lemma FinishRightTooLong(l: seq<Segment>, r: seq<Segment>, t: Ends, left: string, right: string)
    requires InRange(l, r, t) && |t.prefix| + |t.suffix| > |right|
    requires Join(r[t.rs..RightEnd(t)]) == "" && Join(l[t.ls..LeftEnd(t)]) != ""
    ensures !Lossless(Repaired(Finished(l, r, t), left, right), left, right)
  {
    hide Join, TextStage, Lossless, Repaired;
    var a := Join(l[t.ls..LeftEnd(t)]);
    TextStageOneEmpty(t.prefix, t.suffix, a, "",
                      l[t.le].kind == TEXT && r[t.re].kind == TEXT, l[t.ls].kind == TEXT && r[t.rs].kind == TEXT);
    RightTooLong(t.prefix, a, t.suffix, left, right);
  }

  /** The left side is used up and found again on the right: the left text comes out too long. */
  lemma LeftAgain(l: seq<Segment>, r: seq<Segment>, c: Ends, left: string, right: string)
    requires Sums(l, r, c) && Join(l) == left && Join(r) == right
    requires (forall k :: 0 <= k < |l| ==> l[k].value != "") && (forall k :: 0 <= k < |r| ==> r[k].value != "")
    requires c.leftUsed && !c.rightUsed && c.rs != c.re && TailFires(l, r, c)
    ensures Lossless(Repaired(Finished(l, r, TailCase(l, r, c)), left, right), left, right) <==> left <= right
  {
    hide Join, Finished, Lossless, Repaired, Sums;
    UsedUp(l, r, c);
    TailLonger(l, r, c);
    var t := TailCase(l, r, c);
    assert t.ls == c.ls && LeftEnd(t) == LeftEnd(c);
    JoinRange(r, t.rs, RightEnd(t));
    FinishLeftTooLong(l, r, t, left, right);
  }

  /** The right side is used up and found again on the left: the right text comes out too long. */
  lemma RightAgain(l: seq<Segment>, r: seq<Segment>, c: Ends, left: string, right: string)
    requires Sums(l, r, c) && Join(l) == left && Join(r) == right
    requires (forall k :: 0 <= k < |l| ==> l[k].value != "") && (forall k :: 0 <= k < |r| ==> r[k].value != "")
    requires c.rightUsed && !c.leftUsed && c.ls != c.le && TailFires(l, r, c)
    ensures !Lossless(Repaired(Finished(l, r, TailCase(l, r, c)), left, right), left, right)
  {
    hide Join, Finished, Lossless, Repaired, Sums;
    UsedUp(l, r, c);
    TailLonger(l, r, c);
    var t := TailCase(l, r, c);
    assert t.rs == c.rs && RightEnd(t) == RightEnd(c);
    JoinRange(l, t.ls, LeftEnd(t));
    FinishRightTooLong(l, r, t, left, right);
  }

  /** Both sides are taken for used up: only equal texts survive. */
  lemma NothingLeft(l: seq<Segment>, r: seq<Segment>, c: Ends, left: string, right: string)
    requires Sums(l, r, c) && Join(l) == left && Join(r) == right
    requires (forall k :: 0 <= k < |l| ==> l[k].value != "") && (forall k :: 0 <= k < |r| ==> r[k].value != "")
    requires c.ls == c.le && c.rs == c.re && TailCase(l, r, c).leftUsed && TailCase(l, r, c).rightUsed
    requires c.leftUsed || c.rightUsed
    ensures Lossless(Repaired(Finished(l, r, TailCase(l, r, c)), left, right), left, right) <==>
      c.leftUsed == c.rightUsed
  {
    hide Join, TextStage;
    var t := TailCase(l, r, c);
    JoinRange(l, c.ls, c.ls);
    JoinRange(r, c.rs, c.rs);
    JoinRange(l, c.ls, c.ls + 1);
    JoinRange(r, c.rs, c.rs + 1);
    TextStageOneEmpty(t.prefix, t.suffix, "", "",
                      l[t.le].kind == TEXT && r[t.re].kind == TEXT, l[t.ls].kind == TEXT && r[t.rs].kind == TEXT);
    assert c.leftUsed && c.rightUsed ==> left == right;
    assert c.leftUsed != c.rightUsed ==> |left| != |right|;
    assert left + "" + "" == left;
  }

  /** The inputs on which the diff loses a text. */
  predicate LosesText(left: string, right: string) {
    left != "" && right != "" &&
    var l, r, c := Segmented(left), Segmented(right), Aligned(left, right);
    OneUsed(c) && TailFires(l, r, c) && !(c.leftUsed && c.rs != c.re && left <= right)
  }

  /**
   Exactly when prefix, own part and suffix put both texts back together: always, except when the
   segment loop uses up one side only, a tail case finds that side's last segment again, and the
   left text is not a prefix of the right one that the last repair restores.
   */
  lemma DiffSplitLossless(left: string, right: string)
    ensures Lossless(DiffSplit(left, right), left, right) <==> !LosesText(left, right)
  {
    if left != "" && right != "" {
      AlignedSums(left, right);
      hide Segmented, Join, Finished, Repaired, Lossless, Aligned;
      var l, r, c := Segmented(left), Segmented(right), Aligned(left, right);
      if !c.leftUsed && !c.rightUsed {
        TailSums(l, r, c);
        SumsLossless(l, r, TailCase(l, r, c), left, right);
      } else if c.leftUsed && c.rightUsed {
        NothingLeft(l, r, c, left, right);
      } else if !TailFires(l, r, c) {
        SumsLossless(l, r, c, left, right);
      } else if c.ls == c.le && c.rs == c.re {
        NothingLeft(l, r, c, left, right);
      } else if c.leftUsed {
        LeftAgain(l, r, c, left, right);
      } else {
        RightAgain(l, r, c, left, right);
      }
    } else {
      OneEmpty(left, right);
    }
  }

  lemma OneEmpty(left: string, right: string)
    requires left == "" || right == ""
    ensures Lossless(DiffSplit(left, right), left, right)
  {
    assert "" + left + "" == left && "" + right + "" == right;
  }

  /** A pair that is lost: the left text comes back with its last segment doubled. */
  lemma DiffSplitLoses()
    ensures var left, right := "<x><s>", "<x><r><s><s>";
      && DiffSplit(left, right) == Split("<x>", "", "<r>", "<s><s>")
      && LosesText(left, right) && !Lossless(DiffSplit(left, right), left, right)
  {
    hide *;
    ExampleSegments(Segment(MARKER, "<x>"), Segment(MARKER, "<s>"), Segment(MARKER, "<r>"));
    ExampleTexts();
    ExampleLost("<x><s>", "<x><r><s><s>", "<x>", "<s>", "<r>", "<s><s>");
  }

  lemma ExampleLost(left: string, right: string, x: string, s: string, q: string, ss: string)
    requires left != "" && right != "" && x != s && q != s && x != q && q != "" && ss == s + s && !(left <= right)
    requires Segmented(left) == [Segment(MARKER, x), Segment(MARKER, s)]
    requires Segmented(right) == [Segment(MARKER, x), Segment(MARKER, q), Segment(MARKER, s), Segment(MARKER, s)]
    ensures DiffSplit(left, right) == Split(x, "", q, ss) && LosesText(left, right)
      && !Lossless(DiffSplit(left, right), left, right)
  {
    hide *;
    ExampleSplit(left, right, Segment(MARKER, x), Segment(MARKER, s), Segment(MARKER, q));
    DiffSplitLossless(left, right);
  }

  lemma ExampleSplit(left: string, right: string, x: Segment, s: Segment, q: Segment)
    requires left != "" && right != "" && Segmented(left) == [x, s] && Segmented(right) == [x, q, s, s]
    requires x != s && q != s && x != q && x.kind == s.kind == q.kind == MARKER && q.value != "" && !(left <= right)
    ensures LosesText(left, right) && DiffSplit(left, right) == Split(x.value, "", q.value, s.value + s.value)
  {
    hide Segmented, Align, TailCase, Finished;
    var l, r := [x, s], [x, q, s, s];
    ExampleAligned(l, r, x, s, q);
    ExampleFinished(l, r, x, s, q);
  }

  lemma ExampleFinished(l: seq<Segment>, r: seq<Segment>, x: Segment, s: Segment, q: Segment)
    requires l == [x, s] && r == [x, q, s, s] && x != s && q != s && x.kind == s.kind == q.kind == MARKER
    ensures var c := Ends(1, 1, 1, 2, true, false, "" + x.value, s.value + "");
      TailFires(l, r, c) && Finished(l, r, TailCase(l, r, c)) == Split(x.value, "", q.value, s.value + s.value)
  {
    var c := Ends(1, 1, 1, 2, true, false, "" + x.value, s.value + "");
    hide TextStage;
    var t := TailCase(l, r, c);
    assert "" + x.value == x.value && s.value + "" == s.value;
    assert t == Ends(1, 1, 1, 1, true, false, x.value, s.value + s.value);
    assert l[1..1] == [] && r[1..2] == [q] && [q][1..] == [];
    assert Join([q]) == q.value + Join([]) && q.value + "" == q.value;
    TextStageOneEmpty(x.value, s.value + s.value, "", q.value, false, false);
  }

  lemma ExampleTexts()
    ensures "<x>" != "<s>" && "<r>" != "<s>" && "<x>" != "<r>" && !("<x><s>" <= "<x><r><s><s>")
      && "<s><s>" == "<s>" + "<s>"
  {
    assert "<x>"[1] == 'x' && "<s>"[1] == 's' && "<r>"[1] == 'r';
    assert "<x><s>"[4] == 's' && "<x><r><s><s>"[4] == 'r';
  }

  lemma ExampleSegments(x: Segment, s: Segment, q: Segment)
    requires x == Segment(MARKER, "<x>") && s == Segment(MARKER, "<s>") && q == Segment(MARKER, "<r>")
    ensures Segmented("<x><s>") == [x, s] && Segmented("<x><r><s><s>") == [x, q, s, s]
  {
    hide Segmented;
    assert IsMarker("<x>") && IsMarker("<s>") && IsMarker("<r>");
    assert IsSegmentation([]) && Join([]) == "";
    Prepend(s, []);
    assert [s] + [] == [s] && "<s>" + "" == "<s>";
    Prepend(x, [s]);
    assert [x] + [s] == [x, s] && "<x>" + "<s>" == "<x><s>";
    Prepend(s, [s]);
    assert [s] + [s] == [s, s];
    Prepend(q, [s, s]);
    assert [q] + [s, s] == [q, s, s];
    Prepend(x, [q, s, s]);
    assert [x] + [q, s, s] == [x, q, s, s] && "<x>" + ("<r>" + ("<s>" + "<s>")) == "<x><r><s><s>";
    SegmentationUnique([x, s]);
    SegmentationUnique([x, q, s, s]);
  }

  lemma ExampleAligned(l: seq<Segment>, r: seq<Segment>, x: Segment, s: Segment, q: Segment)
    requires l == [x, s] && r == [x, q, s, s] && x != s && q != s && x != q
    ensures Align(l, r, Start(l, r)) == Ends(1, 1, 1, 2, true, false, "" + x.value, s.value + "")
  {
    var c1 := TakeBack(l, r, TakeFront(l, r, Start(l, r)));
    assert c1 == Ends(1, 1, 1, 2, true, false, "" + x.value, s.value + "");
    assert Align(l, r, c1) == c1;
  }

  // ---- What is taken out ----

  /** The segments that are left on each side when no more whole segments are taken. */
  function Unmatched(left: string, right: string): (u: (seq<Segment>, seq<Segment>))
    requires left != "" && right != ""
  {
    var l, r := Segmented(left), Segmented(right);
    var t := TailCase(l, r, Aligned(left, right));
    (l[t.ls..LeftEnd(t)], r[t.rs..RightEnd(t)])
  }

  /** Both lists begin, and both end, with different segments; a single text on each side may be the same. */
  predicate EndsDiffer(u: seq<Segment>, v: seq<Segment>)
    requires u != [] && v != []
  {
    || (|u| == 1 && u == v && u[0].kind == TEXT)
    || (u[0] != v[0] && u[|u| - 1] != v[|v| - 1])
  }

  lemma TailStops(l: seq<Segment>, r: seq<Segment>, c: Ends)
    requires InRange(l, r, c) && (BothLeft(c) ==> l[c.ls] != r[c.rs] && l[c.le] != r[c.re])
    ensures var t := TailCase(l, r, c);
      var u, v := l[t.ls..LeftEnd(t)], r[t.rs..RightEnd(t)]; u != [] && v != [] ==> EndsDiffer(u, v)
  {
    var t := TailCase(l, r, c);
    var u, v := l[t.ls..LeftEnd(t)], r[t.rs..RightEnd(t)];
    if u != [] && v != [] {
      assert u[0] == l[t.ls] && u[|u| - 1] == l[t.le] && v[0] == r[t.rs] && v[|v| - 1] == r[t.re];
    }
  }

  /** No segment that both sides have at the same end is left. */
  lemma UnmatchedDiffer(left: string, right: string)
    requires left != "" && right != ""
    ensures var (u, v) := Unmatched(left, right); u != [] && v != [] ==> EndsDiffer(u, v)
  {
    NonemptySegmented(left);
    NonemptySegmented(right);
    var l, r := Segmented(left), Segmented(right);
    AlignStops(l, r, Start(l, r));
    TailStops(l, r, Aligned(left, right));
  }

  lemma StageParts(prefix: string, suffix: string, a: string, b: string, backText: bool, frontText: bool)
    ensures var d := TextStage(prefix, suffix, a, b, backText, frontText);
      && |d.left| <= |a| && |d.right| <= |b|
      && (!backText ==> d.left == a[|a| - |d.left|..] && d.right == b[|b| - |d.right|..] && d.suffix == suffix)
      && (!frontText ==> d.left == a[..|d.left|] && d.right == b[..|d.right|] && d.prefix == prefix)
  {
    hide CommonPrefix, CommonSuffix;
    var n := if backText then CommonSuffix(a, b) else 0;
    var m := if frontText then CommonPrefix(a[..|a| - n], b[..|b| - n]) else 0;
    CutParts(a, n, m);
    CutParts(b, n, m);
    assert prefix + "" == prefix && "" + suffix == suffix;
  }

  lemma CutParts(a: string, n: nat, m: nat)
    requires n + m <= |a|
    ensures |a[..|a| - n][m..]| == |a| - n - m
    ensures n == 0 ==> a[..|a| - n][m..] == a[m..] && a[|a| - n..] == ""
    ensures m == 0 ==> a[..|a| - n][m..] == a[..|a| - n] && a[..|a| - n][..m] == ""
  {
  }

  /**
   Inside what is left, text is taken out as far as it is common at an end where both sides have text, and
   at no other end.
   */
  lemma TextTakenOut(left: string, right: string)
    requires left != "" && right != "" && DiffSplit(left, right).left != "" && DiffSplit(left, right).right != ""
    ensures var (u, v) := Unmatched(left, right);
      var d, a, b := DiffSplit(left, right), Join(u), Join(v);
      && u != [] && v != [] && |d.left| <= |a| && |d.right| <= |b|
      && (if u[|u| - 1].kind == TEXT && v[|v| - 1].kind == TEXT then d.left[|d.left| - 1] != d.right[|d.right| - 1]
          else d.left == a[|a| - |d.left|..] && d.right == b[|b| - |d.right|..])
      && (if u[0].kind == TEXT && v[0].kind == TEXT then d.left[0] != d.right[0]
          else d.left == a[..|d.left|] && d.right == b[..|d.right|])
  {
    hide Segmented, Join, TailCase, Repaired, Aligned, TextStage;
    var l, r := Segmented(left), Segmented(right);
    var t := TailCase(l, r, Aligned(left, right));
    var (u, v) := Unmatched(left, right);
    var back, front := l[t.le].kind == TEXT && r[t.re].kind == TEXT, l[t.ls].kind == TEXT && r[t.rs].kind == TEXT;
    RepairedSame(Finished(l, r, t), left, right);
    StageEnds(t.prefix, t.suffix, Join(u), Join(v), back, front);
    NothingJoins();
    RangeKinds(l, t.ls, t.le, t.leftUsed);
    RangeKinds(r, t.rs, t.re, t.rightUsed);
  }

  lemma RepairedSame(d: Split, left: string, right: string)
    requires Repaired(d, left, right).left != ""
    ensures Repaired(d, left, right) == d
  {
  }

  /** The first and the last segment of what is left. */
  lemma RangeKinds(l: seq<Segment>, from: int, to: int, used: bool)
    requires 0 <= from <= to < |l| && (used ==> from == to)
    ensures var u := l[from..if used then to else to + 1];
      if used then u == [] else u != [] && u[0] == l[from] && u[|u| - 1] == l[to]
  {
  }

  lemma StageEnds(prefix: string, suffix: string, a: string, b: string, back: bool, front: bool)
    requires var d := TextStage(prefix, suffix, a, b, back, front); d.left != "" && d.right != ""
    ensures var d := TextStage(prefix, suffix, a, b, back, front);
      && a != "" && b != "" && |d.left| <= |a| && |d.right| <= |b|
      && (if back then d.left[|d.left| - 1] != d.right[|d.right| - 1]
          else d.left == a[|a| - |d.left|..] && d.right == b[|b| - |d.right|..])
      && (if front then d.left[0] != d.right[0] else d.left == a[..|d.left|] && d.right == b[..|d.right|])
  {
    hide TextStage;
    StageParts(prefix, suffix, a, b, back, front);
    TextStageStops(prefix, suffix, a, b, back, front);
  }

  lemma NothingJoins()
    ensures Join([]) == ""
  {
  }

  // ---- Equal texts ----

  lemma {:induction false} AlignSame(l: seq<Segment>, c: Ends)
    requires InRange(l, l, c) && c.ls == c.rs && c.le == c.re && c.leftUsed == c.rightUsed
    ensures var d := Align(l, l, c); d.ls == d.rs && d.le == d.re && d.leftUsed == d.rightUsed
    decreases Size(c)
  {
    if BothLeft(c) {
      var d := TakeBack(l, l, TakeFront(l, l, c));
      if d != c {
        AlignSame(l, d);
      }
    }
  }

  lemma {:induction false} SuffixOfSame(a: string)
    ensures CommonSuffix(a, a) == |a|
  {
    if a != "" { SuffixOfSame(a[..|a| - 1]); }
  }

  /** Equal texts are all prefix. */
  lemma SameTexts(s: string)
    ensures DiffSplit(s, s) == Split(s, "", "", "")
  {
    if s != "" {
      NonemptySegmented(s);
      UnmatchedDiffer(s, s);
      hide Segmented, Join;
      var l := Segmented(s);
      AlignStops(l, l, Start(l, l));
      AlignSame(l, Start(l, l));
      SameFinished(l, Aligned(s, s));
    }
  }

  lemma SameFinished(l: seq<Segment>, c: Ends)
    requires InRange(l, l, c) && c.ls == c.rs && c.le == c.re && c.leftUsed == c.rightUsed
    requires BothLeft(c) ==> l[c.ls] != l[c.rs]
    ensures var d := Finished(l, l, TailCase(l, l, c)); d.left == "" && d.right == ""
  {
    hide Join, TextStage;
    var t := TailCase(l, l, c);
    var back, front := l[t.le].kind == TEXT, l[t.ls].kind == TEXT;
    if t.leftUsed {
      assert l[t.ls..LeftEnd(t)] == [];
      NothingJoins();
      TextStageOneEmpty(t.prefix, t.suffix, "", "", back, front);
    } else {
      StageSame(t.prefix, t.suffix, Join(l[t.ls..LeftEnd(t)]), front);
    }
  }

  lemma StageSame(prefix: string, suffix: string, a: string, front: bool)
    ensures var d := TextStage(prefix, suffix, a, a, true, front); d.left == "" && d.right == ""
  {
    SuffixOfSame(a);
    assert a[..0] == "";
  }

  // ---- Texts without segments ----

  /**
   Texts without brackets: when the left one begins the right one it is the prefix; otherwise the suffix
   is the longest common one, and the prefix the longest common one of what is left.
   */
  lemma PlainTexts(left: string, right: string)
    requires '<' !in left && '[' !in left && '<' !in right && '[' !in right
    ensures var d := DiffSplit(left, right);
      if left <= right then d == Split(left, "", right[|left|..], "")
      else
        && left == d.prefix + d.left + d.suffix && right == d.prefix + d.right + d.suffix
        && (d.left == "" || d.right == "" ||
            (d.left[0] != d.right[0] && d.left[|d.left| - 1] != d.right[|d.right| - 1]))
        && (forall k: nat :: IsCommonSuffix(left, right, k) ==> k <= |d.suffix|)
  {
    if left == "" || right == "" {
      OneEmpty(left, right);
    } else {
      PlainFinished(left, right);
      hide DiffSplit, Finished, Segmented;
      if left <= right {
        PlainPrefix(left, right);
      } else {
        PlainStage(left, right);
      }
    }
  }

  predicate IsCommonSuffix(a: string, b: string, k: nat) {
    k <= |a| && k <= |b| && a[|a| - k..] == b[|b| - k..]
  }

  lemma LongestSuffix(a: string, b: string, k: nat)
    requires IsCommonSuffix(a, b, k)
    ensures k <= CommonSuffix(a, b)
  {
    var u, v, s := CommonSuffixMeaning(a, b);
    hide CommonSuffix;
    EndOfFront(u, s, k);
    EndOfFront(v, s, k);
  }

  /** A suffix that is longer than `s` has the end of `u` in it. */
  lemma EndOfFront(u: string, s: string, k: nat)
    ensures |s| < k <= |u + s| ==> (u + s)[|u + s| - k..][k - |s| - 1] == u[|u| - 1]
  {
  }

  lemma PlainFinished(left: string, right: string)
    requires left != "" && right != ""
    requires '<' !in left && '[' !in left && '<' !in right && '[' !in right
    ensures DiffSplit(left, right) == Repaired(TextStage("", "", left, right, true, true), left, right)
  {
    PlainSegmented(left);
    PlainSegmented(right);
    hide Segmented, TextStage, Repaired;
    var l, r := [Segment(TEXT, left)], [Segment(TEXT, right)];
    assert Align(l, r, Start(l, r)) == Start(l, r) == TailCase(l, r, Start(l, r));
    assert l[0..1] == l && r[0..1] == r && l[1..] == [] && r[1..] == [];
    NothingJoins();
    assert Join(l) == left + "" == left && Join(r) == right + "" == right;
  }

  /** The left text begins the right one: all of it is prefix. */
  lemma PlainPrefix(left: string, right: string)
    requires left <= right
    ensures Repaired(TextStage("", "", left, right, true, true), left, right) == Split(left, "", right[|left|..], "")
  {
    var n := CommonSuffix(left, right);
    var a, b := left[..|left| - n], right[..|right| - n];
    assert a <= b;
    PrefixOfLonger(a, b);
    TextStageKeeps("", "", left, right, true, true);
    hide CommonSuffix, CommonPrefix;
    var d := TextStage("", "", left, right, true, true);
    assert d.left == "";
    if d.right == "" {
      assert left == right;
    }
  }

  lemma {:induction false} PrefixOfLonger(a: string, b: string)
    requires a <= b
    ensures CommonPrefix(a, b) == |a|
  {
    if a != "" { PrefixOfLonger(a[1..], b[1..]); }
  }

  lemma PlainStage(left: string, right: string)
    requires !(left <= right)
    ensures var d := Repaired(TextStage("", "", left, right, true, true), left, right);
      && left == d.prefix + d.left + d.suffix && right == d.prefix + d.right + d.suffix
      && (d.left == "" || d.right == "" ||
          (d.left[0] != d.right[0] && d.left[|d.left| - 1] != d.right[|d.right| - 1]))
      && (forall k: nat :: IsCommonSuffix(left, right, k) ==> k <= |d.suffix|)
  {
    hide TextStage, CommonSuffix, IsCommonSuffix, Repaired, Lossless;
    TextStageKeeps("", "", left, right, true, true);
    TextStageStops("", "", left, right, true, true);
    assert "" + left + "" == left && "" + right + "" == right;
    var d := TextStage("", "", left, right, true, true);
    NotRepaired(d, left, right);
    SuffixTaken(left, right);
    NoLongerSuffix(left, right);
    assert |d.suffix| == CommonSuffix(left, right);
  }

  lemma NoLongerSuffix(a: string, b: string)
    ensures forall k: nat :: IsCommonSuffix(a, b, k) ==> k <= CommonSuffix(a, b)
  {
    forall k: nat | IsCommonSuffix(a, b, k) ensures k <= CommonSuffix(a, b) {
      LongestSuffix(a, b, k);
    }
  }

  lemma SuffixTaken(left: string, right: string)
    ensures |TextStage("", "", left, right, true, true).suffix| == CommonSuffix(left, right)
  {
    hide CommonSuffix, CommonPrefix;
  }

  lemma NotRepaired(d: Split, left: string, right: string)
    requires Lossless(d, left, right) && !(left <= right)
    ensures Repaired(d, left, right) == d
    ensures left == d.prefix + d.left + d.suffix && right == d.prefix + d.right + d.suffix
  {
  }

  // ---- One segment against several ----

  lemma FinishedRange(l: seq<Segment>, r: seq<Segment>, t: Ends)
    requires InRange(l, r, t)
    ensures t.leftUsed ==> Finished(l, r, t) == Split(t.prefix, "", Join(r[t.rs..RightEnd(t)]), t.suffix)
    ensures t.rightUsed ==> Finished(l, r, t) == Split(t.prefix, Join(l[t.ls..LeftEnd(t)]), "", t.suffix)
  {
    hide Join, TextStage;
    NothingJoins();
    assert t.leftUsed ==> l[t.ls..LeftEnd(t)] == [];
    assert t.rightUsed ==> r[t.rs..RightEnd(t)] == [];
    TextStageOneEmpty(t.prefix, t.suffix, Join(l[t.ls..LeftEnd(t)]), "",
                      l[t.le].kind == TEXT && r[t.re].kind == TEXT, l[t.ls].kind == TEXT && r[t.rs].kind == TEXT);
    TextStageOneEmpty(t.prefix, t.suffix, "", Join(r[t.rs..RightEnd(t)]),
                      l[t.le].kind == TEXT && r[t.re].kind == TEXT, l[t.ls].kind == TEXT && r[t.rs].kind == TEXT);
  }

  /** What is left of two lists of which the loop takes nothing. */
  function FromStart(l: seq<Segment>, r: seq<Segment>): Split
    requires l != [] && r != []
  {
    Finished(l, r, TailCase(l, r, Start(l, r)))
  }

  lemma FinishedRight(l: seq<Segment>, r: seq<Segment>)
    requires |l| >= 2 && |r| == 1
    ensures var d, last := FromStart(l, r), |l| - 1;
      && (l[last] == r[0] ==> d == Split("", Join(l[..last]), "", r[0].value))
      && (l[last] != r[0] && l[0] == r[0] ==> d == Split(r[0].value, Join(l[1..]), "", ""))
  {
    hide Join, Finished;
    FinishedRange(l, r, TailCase(l, r, Start(l, r)));
    assert l[0..|l| - 1] == l[..|l| - 1] && l[1..|l|] == l[1..];
    assert r[0].value + "" == r[0].value && "" + r[0].value == r[0].value;
  }

  lemma FinishedLeft(l: seq<Segment>, r: seq<Segment>)
    requires |l| == 1 && |r| >= 2
    ensures var d, last := FromStart(l, r), |r| - 1;
      && (r[last] == l[0] ==> d == Split("", "", Join(r[..last]), l[0].value))
      && (r[last] != l[0] && r[0] == l[0] ==> d == Split(l[0].value, "", Join(r[1..]), ""))
  {
    hide Join, Finished;
    FinishedRange(l, r, TailCase(l, r, Start(l, r)));
    assert r[0..|r| - 1] == r[..|r| - 1] && r[1..|r|] == r[1..];
    assert l[0].value + "" == l[0].value && "" + l[0].value == l[0].value;
  }

  /** What a text with several segments, or with one, is made of. */
  predicate PartsOf(l: seq<Segment>, s: string) {
    && l != [] && l[0].value <= s && (|l| == 1 ==> l[0].value == s)
    && (|l| >= 2 ==> Join(l[..|l| - 1]) != "" && Join(l[1..]) != "")
  }

  /** Where the loop takes nothing. */
  lemma SplitFromStart(left: string, right: string)
    requires Segmented(left) != [] && Segmented(right) != [] && (|Segmented(left)| == 1 || |Segmented(right)| == 1)
    ensures DiffSplit(left, right) == Repaired(FromStart(Segmented(left), Segmented(right)), left, right)
    ensures PartsOf(Segmented(left), left) && PartsOf(Segmented(right), right)
  {
    EmptySegmented(left);
    EmptySegmented(right);
    HasParts(left);
    HasParts(right);
    hide Segmented, PartsOf, Finished, Repaired, TailCase;
  }

  lemma HasParts(s: string)
    requires Segmented(s) != []
    ensures PartsOf(Segmented(s), s)
  {
    SegmentedIs(s);
    hide Segmented, Join, IsSegmentation;
    var l := Segmented(s);
    SegmentsNonempty(l);
    FirstJoin(l);
    if |l| == 1 { SingleJoin(l); } else { JoinRest(l); }
  }

  /** A right text of one segment is looked for at the end of the left text first, then at its front. */
  lemma OneSegmentRight(left: string, right: string)
    requires |Segmented(left)| >= 2 && |Segmented(right)| == 1
    ensures var l, s := Segmented(left), Segmented(right)[0];
      var last := |l| - 1;
      && (l[last] == s ==> DiffSplit(left, right) == Split("", Join(l[..last]), "", right))
      && (l[last] != s && l[0] == s ==> DiffSplit(left, right) == Split(right, Join(l[1..]), "", ""))
  {
    SplitFromStart(left, right);
    hide Segmented, Join, FromStart, DiffSplit, Repaired;
    FinishedRight(Segmented(left), Segmented(right));
    RepairedLeft(FromStart(Segmented(left), Segmented(right)), left, right);
  }

  /** The same with the sides exchanged, unless the left text begins the right one. */
  lemma OneSegmentLeft(left: string, right: string)
    requires |Segmented(left)| == 1 && |Segmented(right)| >= 2
    ensures var r, s := Segmented(right), Segmented(left)[0];
      r[|r| - 1] == s || r[0] == s ==>
        DiffSplit(left, right) ==
          if left <= right then Split(left, "", right[|left|..], "") else Split("", "", Join(r[..|r| - 1]), left)
  {
    SplitFromStart(left, right);
    hide Segmented, Join, FromStart, DiffSplit, Repaired;
    FinishedLeft(Segmented(left), Segmented(right));
    RepairedRight(FromStart(Segmented(left), Segmented(right)), left, right);
  }

  lemma RepairedLeft(d: Split, left: string, right: string)
    ensures d.left != "" ==> Repaired(d, left, right) == d
  {
  }

  lemma RepairedRight(d: Split, left: string, right: string)
    ensures d.left == "" && d.right != "" ==>
      Repaired(d, left, right) == if left <= right then Split(left, "", right[|left|..], "") else d
  {
  }

  lemma JoinRest(l: seq<Segment>)
    requires |l| >= 2 && forall k :: 0 <= k < |l| ==> l[k].value != ""
    ensures Join(l[..|l| - 1]) != "" && Join(l[1..]) != ""
  {
    hide Join;
    JoinRange(l, 0, |l| - 1);
    JoinRange(l, 1, |l|);
    assert l[0..|l| - 1] == l[..|l| - 1] && l[1..|l|] == l[1..];
  }

  lemma SingleJoin(l: seq<Segment>)
    requires |l| == 1
    ensures Join(l) == l[0].value
  {
    assert l[1..] == [];
    assert l[0].value + "" == l[0].value;
  }

  lemma FirstJoin(l: seq<Segment>)
    requires l != []
    ensures l[0].value <= Join(l)
  {
  }
}
