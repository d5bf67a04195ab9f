/** Character classes, trimming and small result types shared by the other modules. */
module Text {

  datatype Option<+T> = None | Some(value: T)

  /** `std::isspace` in the C locale. */
  predicate IsSpace(c: char) {
    c == ' ' || '\t' <= c <= '\r'
  }

  predicate IsDigit(c: char) {
    '0' <= c <= '9'
  }

  /** `std::isalnum` in the C locale, or an underscore. */
  predicate IsWordChar(c: char) {
    IsDigit(c) || 'A' <= c <= 'Z' || 'a' <= c <= 'z' || c == '_'
  }

  /** `s` without its trailing white space. */
  function TrimRight(s: string): (r: string)
    ensures r <= s
  {
    if s != "" && IsSpace(s[|s| - 1]) then TrimRight(s[..|s| - 1]) else s
  }

  /** `s` without one leading white-space character, then without its trailing white space. */
  function TrimOnce(s: string): string {
    TrimRight(if s != "" && IsSpace(s[0]) then s[1..] else s)
  }

  const DIGITS := "0123456789"
  const UPPER := "ABCDEFGHIJKLMNOPQRSTUVWXYZ"
  const LOWER := "abcdefghijklmnopqrstuvwxyz"

  /** The characters of the classes, one by one. */
  lemma Characters(c: char)
    ensures IsSpace(c) <==> c == ' ' || c == '\t' || c == '\n' || c == '\U{000B}' || c == '\U{000C}' || c == '\r'
    ensures IsDigit(c) <==> c in DIGITS
    ensures IsWordChar(c) <==> c in DIGITS || c in UPPER || c in LOWER || c == '_'
  {
    DigitOrder(c);
    UpperOrder(c);
    LowerOrder(c);
    hide DIGITS, UPPER, LOWER;
  }

  lemma DigitOrder(c: char)
    ensures c in DIGITS <==> '0' <= c <= '9'
  {
    assert forall k :: 0 <= k < 10 ==> DIGITS[k] == (48 + k) as char;
    if '0' <= c <= '9' { assert DIGITS[c as int - 48] == c; }
  }

  lemma UpperOrder(c: char)
    ensures c in UPPER <==> 'A' <= c <= 'Z'
  {
    assert forall k :: 0 <= k < 26 ==> UPPER[k] == (65 + k) as char;
    if 'A' <= c <= 'Z' { assert UPPER[c as int - 65] == c; }
  }

  lemma LowerOrder(c: char)
    ensures c in LOWER <==> 'a' <= c <= 'z'
  {
    assert forall k :: 0 <= k < 26 ==> LOWER[k] == (97 + k) as char;
    if 'a' <= c <= 'z' { assert LOWER[c as int - 97] == c; }
  }

  /** One white-space character in front and all white space behind are dropped. */
  lemma TrimOnceMeaning(l: string, t: string, w: string)
    requires |l| <= 1 && (forall k :: 0 <= k < |l| ==> IsSpace(l[k])) && forall k :: 0 <= k < |w| ==> IsSpace(w[k])
    requires t == "" || !IsSpace(t[|t| - 1])
    requires l == "" && t + w != "" ==> !IsSpace((t + w)[0])
    ensures TrimOnce(l + t + w) == t
  {
    hide IsSpace;
    var s := l + t + w;
    if l == "" {
      assert s == t + w;
    } else {
      assert s[1..] == t + w;
    }
    TrimRightMeaning(t + w, t);
  }

  /** The trailing trim is the longest prefix that does not end in white space. */
  lemma {:induction false} TrimRightMeaning(s: string, t: string)
    requires t <= s && (t == "" || !IsSpace(t[|t| - 1]))
    requires forall k :: |t| <= k < |s| ==> IsSpace(s[k])
    ensures TrimRight(s) == t
  {
    if t != s {
      TrimRightMeaning(s[..|s| - 1], t);
    }
  }

  /** Trimming on the right keeps the prefix order: a growing text has a growing trimmed text. */
  lemma {:induction false} TrimRightMonotone(s: string, t: string)
    requires s <= t
    ensures TrimRight(s) <= TrimRight(t)
  {
    if s == t {
    } else if IsSpace(t[|t| - 1]) {
      TrimRightMonotone(s, t[..|t| - 1]);
    } else {
      assert TrimRight(s) <= s <= t;
    }
  }

  /** Two texts that disagree at a position both of them have; no extension of them is a prefix of the other. */
  ghost predicate Clash<T>(a: seq<T>, b: seq<T>) {
    exists k :: 0 <= k < |a| && k < |b| && a[k] != b[k]
  }

  lemma ClashPrepend<T>(p: seq<T>, a: seq<T>, b: seq<T>)
    requires Clash(a, b)
    ensures Clash(p + a, p + b)
  {
    var k :| 0 <= k < |a| && k < |b| && a[k] != b[k];
    assert (p + a)[|p| + k] != (p + b)[|p| + k];
  }

  lemma ClashExtend<T>(a: seq<T>, b: seq<T>, c: seq<T>, d: seq<T>)
    requires Clash(a, b) && a <= c && b <= d
    ensures Clash(c, d)
  {
    var k :| 0 <= k < |a| && k < |b| && a[k] != b[k];
    assert c[k] != d[k];
  }

  lemma Associate<T>(a: seq<T>, b: seq<T>, c: seq<T>)
    ensures a + b + c == a + (b + c)
  {
  }

  /** `trim_trailing_space`: drop at most `max` trailing white-space characters, all of them when `max` is -1. */
  method TrimTrailingSpace(text: string, max: int := -1) returns (r: string)
    requires max >= -1
    ensures r <= text
    ensures max == -1 ==> r == TrimRight(text)
    ensures max != -1 ==> |text| - |r| <= max && (|text| - |r| < max ==> r == "" || !IsSpace(r[|r| - 1]))
    ensures forall k :: |r| <= k < |text| ==> IsSpace(text[k])
  {
    r := text;
    var count := 0;
    while r != "" && IsSpace(r[|r| - 1])
      invariant r <= text && count == |text| - |r| && (max != -1 ==> count <= max)
      invariant TrimRight(text) == TrimRight(r)
      invariant forall k :: |r| <= k < |text| ==> IsSpace(text[k])
      decreases |r|
    {
      if max != -1 && count >= max { break; }
      r := r[..|r| - 1];
      count := count + 1;
    }
  }

  /** `trim_leading_space`: drop at most `max` leading white-space characters, all of them when `max` is -1. */
  method TrimLeadingSpace(text: string, max: int := -1) returns (r: string)
    requires max >= -1
    ensures |r| <= |text| && r == text[|text| - |r|..]
    ensures forall k :: 0 <= k < |text| - |r| ==> IsSpace(text[k])
    ensures max != -1 ==> |text| - |r| <= max
    ensures (max == -1 || |text| - |r| < max) ==> r == "" || !IsSpace(r[0])
  {
    r := text;
    var count := 0;
    while r != "" && IsSpace(r[0])
      invariant |r| <= |text| && r == text[|text| - |r|..]
      invariant count == |text| - |r| && (max != -1 ==> count <= max)
      invariant forall k :: 0 <= k < |text| - |r| ==> IsSpace(text[k])
      decreases |r|
    {
      if max != -1 && count >= max { break; }
      r := r[1..];
      count := count + 1;
    }
  }

  /** `trim`: one leading white-space character at most, all trailing ones. */
  method Trim(text: string) returns (r: string)
    ensures r == TrimOnce(text)
  {
    var lead := TrimLeadingSpace(text, 1);
    r := TrimTrailingSpace(lead);
  }
}
