/** The longest common substring by dynamic programming (`string_lcs`). */
module Lcs {

  /** The length of the longest common suffix of the first `i` and the first `j` characters. */
  function Suffix(a: string, b: string, i: nat, j: nat): (n: nat)
    requires i <= |a| && j <= |b|
    ensures n <= i && n <= j
  {
    if i == 0 || j == 0 || a[i - 1] != b[j - 1] then 0 else 1 + Suffix(a, b, i - 1, j - 1)
  }

  /** The table cell is a common suffix, and no common suffix is longer. */
  lemma {:induction false} SuffixMeaning(a: string, b: string, i: nat, j: nat, n: nat)
    requires i <= |a| && j <= |b| && n <= i && n <= j
    ensures n <= Suffix(a, b, i, j) <==> a[i - n..i] == b[j - n..j]
  {
    if n > 0 {
      var u, v := a[i - n..i], b[j - n..j];
      assert u[n - 1] == a[i - 1] && v[n - 1] == b[j - 1];
      if a[i - 1] == b[j - 1] {
        SuffixMeaning(a, b, i - 1, j - 1, n - 1);
        LastApart(a, i, n);
        LastApart(b, j, n);
      }
    }
  }

  lemma LastApart(a: string, i: nat, n: nat)
    requires 0 < n <= i <= |a|
    ensures a[i - n..i] == a[i - n..i - 1] + [a[i - 1]] && a[i - n..i][..n - 1] == a[i - n..i - 1]
  {
  }

  /** `s` occurs in `t`, ending at position `e`. */
  predicate EndsAt(s: string, t: string, e: nat) {
    |s| <= e <= |t| && t[e - |s|..e] == s
  }

  ghost predicate OccursIn(s: string, t: string) {
    exists e: nat :: EndsAt(s, t, e)
  }

  ghost predicate IsCommon(s: string, a: string, b: string) {
    OccursIn(s, a) && OccursIn(s, b)
  }

  /** The cells before (i, j) in row order. */
  predicate Before(i: nat, j: nat, i': nat, j': nat) {
    i < i' || (i == i' && j < j')
  }

  method StringLcs(a: string, b: string) returns (r: string)
    ensures IsCommon(r, a, b)
    ensures forall s :: IsCommon(s, a, b) ==> |s| <= |r|
    ensures exists e: nat ::
      && EndsAt(r, a, e)
      && (forall s, e': nat :: EndsAt(s, a, e') && OccursIn(s, b) && |s| == |r| && |r| > 0 ==> e <= e')
  {
    hide Suffix, Best, IsCommon, OccursIn, EndsAt;
    if a == "" || b == "" {
      r := "";
      EmptyCommon(a, b);
      forall s ensures IsCommon(s, a, b) ==> |s| <= 0 {
        CommonFits(s, a, b);
      }
      return;
    }
    var dp := new nat[|a| + 1, |b| + 1]((i, j) => 0);
    var bestLen, bestEnd := 0, 0;
    ghost var bestB := 0;
    Start(a, b);
    for i := 1 to |a| + 1
      invariant forall x, y :: 0 <= x < i && 0 <= y <= |b| ==> dp[x, y] == Suffix(a, b, x, y)
      invariant forall x, y :: i <= x <= |a| && 0 <= y <= |b| ==> dp[x, y] == 0
      invariant Best(a, b, i, 0, bestLen, bestEnd, bestB)
    {
      Edge(a, b, i, bestLen, bestEnd, bestB);
      for j := 1 to |b| + 1
        invariant forall x, y :: 0 <= x < i && 0 <= y <= |b| ==> dp[x, y] == Suffix(a, b, x, y)
        invariant forall y :: 0 <= y < j ==> dp[i, y] == Suffix(a, b, i, y)
        invariant forall y :: j <= y <= |b| ==> dp[i, y] == 0
        invariant forall x, y :: i < x <= |a| && 0 <= y <= |b| ==> dp[x, y] == 0
        invariant Best(a, b, i, j, bestLen, bestEnd, bestB)
      {
        ghost var oldLen, oldEnd, oldB := bestLen, bestEnd, bestB;
        Cell(a, b, i, j);
        if a[i - 1] == b[j - 1] {
          dp[i, j] := dp[i - 1, j - 1] + 1;
          if dp[i, j] > bestLen {
            bestLen := dp[i, j];
            bestEnd := i;
            bestB := j;
          }
        }
        BestStep(a, b, i, j, oldLen, oldEnd, oldB);
      }
      BestRow(a, b, i, bestLen, bestEnd, bestB);
    }
    BestFits(a, b, bestLen, bestEnd, bestB);
    r := a[bestEnd - bestLen..bestEnd];
    BestIsLcs(a, b, bestLen, bestEnd, bestB);
  }

  /** The best cell among those before (i, j): it is the first one of its length. */
  ghost predicate Best(a: string, b: string, i: nat, j: nat, len: nat, end: nat, endB: nat) {
    && end <= |a| && endB <= |b| && Suffix(a, b, end, endB) == len
    && (len > 0 ==> Before(end, endB, i, j)) && (len == 0 ==> end == 0)
    && (forall x: nat, y: nat :: x <= |a| && y <= |b| && Before(x, y, i, j) ==> Suffix(a, b, x, y) <= len)
    && (forall x: nat, y: nat ::
          x <= |a| && y <= |b| && Before(x, y, i, j) && Suffix(a, b, x, y) == len && len > 0 ==> end <= x)
  }

  lemma Cell(a: string, b: string, i: nat, j: nat)
    requires 1 <= i <= |a| && 1 <= j <= |b|
    ensures Suffix(a, b, i, j) == if a[i - 1] == b[j - 1] then Suffix(a, b, i - 1, j - 1) + 1 else 0
  {
  }

  lemma Edge(a: string, b: string, i: nat, len: nat, end: nat, endB: nat)
    requires i <= |a| && Best(a, b, i, 0, len, end, endB)
    ensures Suffix(a, b, i, 0) == 0 && Best(a, b, i, 1, len, end, endB)
  {
  }

  lemma Start(a: string, b: string)
    ensures forall y: nat :: y <= |b| ==> Suffix(a, b, 0, y) == 0
    ensures Best(a, b, 1, 0, 0, 0, 0)
  {
  }

  lemma BestFits(a: string, b: string, len: nat, end: nat, endB: nat)
    requires Best(a, b, |a| + 1, 0, len, end, endB)
    ensures len <= end <= |a|
  {
  }

  lemma BestStep(a: string, b: string, i: nat, j: nat, len: nat, end: nat, endB: nat)
    requires 1 <= i <= |a| && 1 <= j <= |b| && Best(a, b, i, j, len, end, endB)
    ensures var n := Suffix(a, b, i, j);
      if n > len then Best(a, b, i, j + 1, n, i, j) else Best(a, b, i, j + 1, len, end, endB)
  {
    hide Suffix;
  }

  lemma BestRow(a: string, b: string, i: nat, len: nat, end: nat, endB: nat)
    requires 1 <= i <= |a| && Best(a, b, i, |b| + 1, len, end, endB)
    ensures Best(a, b, i + 1, 0, len, end, endB)
  {
    hide Suffix;
  }

  lemma EmptyCommon(a: string, b: string)
    ensures IsCommon("", a, b) && EndsAt("", a, 0)
  {
    assert EndsAt("", a, 0) && EndsAt("", b, 0);
  }

  lemma CommonFits(s: string, a: string, b: string)
    ensures IsCommon(s, a, b) ==> |s| <= |a| && |s| <= |b|
  {
  }

  lemma BestIsLcs(a: string, b: string, len: nat, end: nat, endB: nat)
    requires Best(a, b, |a| + 1, 0, len, end, endB)
    ensures var r := a[end - len..end];
      && IsCommon(r, a, b) && EndsAt(r, a, end)
      && (forall s :: IsCommon(s, a, b) ==> |s| <= |r|)
      && (forall s, e: nat :: EndsAt(s, a, e) && OccursIn(s, b) && |s| == |r| && |r| > 0 ==> end <= e)
  {
    hide Suffix;
    var r := a[end - len..end];
    SuffixMeaning(a, b, end, endB, len);
    assert EndsAt(r, a, end) && EndsAt(r, b, endB);
    forall s, e: nat | EndsAt(s, a, e) && OccursIn(s, b)
      ensures |s| <= len && (|s| == len && len > 0 ==> end <= e)
    {
      var f: nat :| EndsAt(s, b, f);
      SuffixMeaning(a, b, e, f, |s|);
      assert Before(e, f, |a| + 1, 0);
      assert Suffix(a, b, e, f) <= len;
    }
  }
}
