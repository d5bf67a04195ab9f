/**
 The parts of JSON text the tool-call pipeline relies on: escaping a string (section 7 of
 RFC 8259), reading a string body back, and the structural characters outside strings.
 */
module Json {
  import opened Text

  const HEX_DIGITS := "0123456789abcdef"

  /** The escape the JSON library's dump writes for one character; 0x7f and above are kept. */
  function EscapeChar(c: char): (e: string) {
    if c == '"' then "\\\""
    else if c == '\\' then "\\\\"
    else if c == '\U{0008}' then "\\b"
    else if c == '\U{000C}' then "\\f"
    else if c == '\n' then "\\n"
    else if c == '\r' then "\\r"
    else if c == '\t' then "\\t"
    else if c < ' ' then "\\u00" + [HEX_DIGITS[c as int / 16], HEX_DIGITS[c as int % 16]]
    else [c]
  }

  function Escape(s: string): string {
    if s == "" then "" else EscapeChar(s[0]) + Escape(s[1..])
  }

  lemma {:induction false} EscapeAppend(s: string, t: string)
    ensures Escape(s + t) == Escape(s) + Escape(t)
  {
    hide EscapeChar, Escape;
    EscapeStep(s);
    if s == "" {
      assert s + t == t;
    } else {
      EscapeAppend(s[1..], t);
      EscapeStep(s + t);
      assert (s + t)[1..] == s[1..] + t;
      var c, u, v := EscapeChar(s[0]), Escape(s[1..]), Escape(t);
      assert c + (u + v) == c + u + v;
    }
  }

  lemma EscapeStep(s: string)
    ensures Escape(s) == if s == "" then "" else EscapeChar(s[0]) + Escape(s[1..])
  {
    hide EscapeChar;
  }

  function HexValue(c: char): Option<nat> {
    if '0' <= c <= '9' then Some(c as int - '0' as int)
    else if 'a' <= c <= 'f' then Some(c as int - 'a' as int + 10)
    else if 'A' <= c <= 'F' then Some(c as int - 'A' as int + 10)
    else None
  }

  /** A string as the sequence of its code points. */
  type Codes = seq<nat>

  function CodesOf(s: string): (r: Codes)
    ensures |r| == |s|
  {
    seq(|s|, k requires 0 <= k < |s| => s[k] as int)
  }

  /** The value of four hexadecimal digits. */
  function HexUnit(h: string): Option<nat>
    requires |h| == 4
  {
    match (HexValue(h[0]), HexValue(h[1]), HexValue(h[2]), HexValue(h[3]))
    case (Some(a), Some(b), Some(c), Some(d)) => Some(((a * 16 + b) * 16 + c) * 16 + d)
    case _ => None
  }

  predicate IsHighSurrogate(u: nat) {
    0xD800 <= u < 0xDC00
  }

  predicate IsLowSurrogate(u: nat) {
    0xDC00 <= u < 0xE000
  }

  /** The character written by a backslash and `c`. */
  function SimpleEscape(c: char): Option<char> {
    if c == '"' || c == '\\' || c == '/' then Some(c)
    else if c == 'b' then Some('\U{0008}')
    else if c == 'f' then Some('\U{000C}')
    else if c == 'n' then Some('\n')
    else if c == 'r' then Some('\r')
    else if c == 't' then Some('\t')
    else None
  }

  function Prepend(code: nat, rest: Option<Codes>): Option<Codes> {
    match rest
    case None => None
    case Some(r) => Some([code] + r)
  }

  /** The second half of a surrogate pair at the front of `s`, if there is one. */
  function LowAt(s: string): Option<nat> {
    if |s| < 6 || s[0] != '\\' || s[1] != 'u' then None
    else
      match HexUnit(s[2..6])
      case None => None
      case Some(u) => if IsLowSurrogate(u) then Some(u) else None
  }

  /**
   The string a JSON string body (the text between the quotes) stands for, if it is one. A pair of
   surrogate escapes is one code point; a surrogate alone is refused.
   */
  function ReadBody(b: string): Option<Codes> {
    if b == "" then Some([])
    else if b[0] != '\\' then
      if b[0] == '"' || b[0] < ' ' then None else Prepend(b[0] as int, ReadBody(b[1..]))
    else if |b| < 2 then None
    else if b[1] != 'u' then
      if SimpleEscape(b[1]).None? then None else Prepend(SimpleEscape(b[1]).value as int, ReadBody(b[2..]))
    else if |b| < 6 || HexUnit(b[2..6]).None? then None
    else
      var u := HexUnit(b[2..6]).value;
      if IsLowSurrogate(u) then None
      else if !IsHighSurrogate(u) then Prepend(u, ReadBody(b[6..]))
      else if LowAt(b[6..]).None? then None
      else Prepend(0x10000 + (u - 0xD800) * 0x400 + (LowAt(b[6..]).value - 0xDC00), ReadBody(b[12..]))
  }

  lemma EscapeCharReads(c: char, rest: string)
    ensures ReadBody(EscapeChar(c) + rest) == Prepend(c as int, ReadBody(rest))
  {
    hide HexUnit, LowAt;
    var e := EscapeChar(c);
    assert (e + rest)[|e|..] == rest;
    if c < ' ' && |e| == 6 {
      HexEscapeReads(c, rest);
    }
  }

  lemma HexEscapeReads(c: char, rest: string)
    requires c < ' ' && |EscapeChar(c)| == 6
    ensures ReadBody(EscapeChar(c) + rest) == Prepend(c as int, ReadBody(rest))
  {
    hide HexUnit, LowAt;
    var s := EscapeChar(c) + rest;
    assert s[2..6] == "00" + [HEX_DIGITS[c as int / 16], HEX_DIGITS[c as int % 16]];
    assert s[6..] == rest && s[0] == '\\' && s[1] == 'u';
    HexPair(c as int);
  }

  lemma HexPair(n: nat)
    requires n < 32
    ensures HexUnit("00" + [HEX_DIGITS[n / 16], HEX_DIGITS[n % 16]]) == Some(n)
  {
    assert n == n / 16 * 16 + n % 16;
  }

  /** Escaping is undone by reading, for every string. */
  lemma {:induction false} ReadEscape(s: string)
    ensures ReadBody(Escape(s)) == Some(CodesOf(s))
  {
    if s == "" {
      assert CodesOf("") == [];
    } else {
      hide ReadBody;
      EscapeCharReads(s[0], Escape(s[1..]));
      ReadEscape(s[1..]);
      assert [s[0] as int] + CodesOf(s[1..]) == CodesOf(s);
    }
  }

  /** No JSON string body for the text is shorter than the escaped text. */
  lemma {:induction false} EscapeShortest(s: string, b: string)
    requires ReadBody(b) == Some(CodesOf(s))
    ensures |Escape(s)| <= |b|
    decreases |s|
  {
    if s != "" {
      hide ReadBody, Escape, EscapeChar, CodesOf;
      EscapeStep(s);
      var rest := AfterFirst(s, b);
      EscapeShortest(s[1..], rest);
    }
  }

  /** What is left of a body behind what it has for the first character, which is as long as its escape or longer. */
  lemma AfterFirst(s: string, b: string) returns (rest: string)
    requires s != "" && ReadBody(b) == Some(CodesOf(s))
    ensures ReadBody(rest) == Some(CodesOf(s[1..])) && |EscapeChar(s[0])| + |rest| <= |b|
  {
    FirstCode(s);
    hide EscapeChar, HexUnit, LowAt, CodesOf;
    EscapeLength(s[0]);
    if b[0] != '\\' {
      rest := b[1..];
      Codes1(b[0] as int, ReadBody(rest), s);
    } else if b[1] != 'u' {
      rest := b[2..];
      Codes1(SimpleEscape(b[1]).value as int, ReadBody(rest), s);
    } else {
      var u := HexUnit(b[2..6]).value;
      rest := if IsHighSurrogate(u) then b[12..] else b[6..];
      var code := if IsHighSurrogate(u) then 0x10000 + (u - 0xD800) * 0x400 + (LowAt(b[6..]).value - 0xDC00) else u;
      Codes1(code, ReadBody(rest), s);
    }
  }

  lemma FirstCode(s: string)
    requires s != ""
    ensures CodesOf(s) != [] && CodesOf(s)[0] == s[0] as int && CodesOf(s)[1..] == CodesOf(s[1..])
  {
  }

  lemma Codes1(code: nat, rest: Option<Codes>, s: string)
    requires s != "" && Prepend(code, rest) == Some(CodesOf(s))
    ensures code == s[0] as int && rest == Some(CodesOf(s[1..]))
  {
    FirstCode(s);
    hide CodesOf;
    assert ([code] + rest.value)[1..] == rest.value;
  }

  /** How long the escape of a character is; the hexadecimal digits in it are in lower case. */
  lemma EscapeLength(c: char)
    ensures |EscapeChar(c)| <= 6
    ensures |EscapeChar(c)| == 1 <==> c >= ' ' && c != '"' && c != '\\'
    ensures |EscapeChar(c)| <= 2 <==> c >= ' ' || c in {'\U{0008}', '\t', '\n', '\U{000C}', '\r'}
    ensures |EscapeChar(c)| > 2 ==> forall k :: 0 <= k < 6 ==> !('A' <= EscapeChar(c)[k] <= 'Z')
  {
  }

  predicate IsStructural(c: char) {
    c == '{' || c == '}' || c == '[' || c == ']' || c == ',' || c == ':'
  }

  /** The structural characters of `s` outside its double-quoted strings. */
  function Structure(s: string, inString: bool): string {
    if s == "" then ""
    else if inString then
      if s[0] == '\\' then (if |s| == 1 then "" else Structure(s[2..], true))
      else Structure(s[1..], s[0] != '"')
    else if s[0] == '"' then Structure(s[1..], true)
    else if IsStructural(s[0]) then [s[0]] + Structure(s[1..], false)
    else Structure(s[1..], false)
  }

  /** Whether a double-quoted string is still open after `s`. */
  predicate OpenString(s: string, inString: bool) {
    if s == "" then inString
    else if inString then
      if s[0] == '\\' then |s| == 1 || OpenString(s[2..], true)
      else OpenString(s[1..], s[0] != '"')
    else OpenString(s[1..], s[0] == '"')
  }

  function BraceValue(c: char): int {
    if c == '{' then 1 else if c == '}' then -1 else 0
  }

  /** The number of opening minus the number of closing braces. */
  function Braces(s: string): int {
    if s == "" then 0 else BraceValue(s[0]) + Braces(s[1..])
  }

  function BraceDepth(s: string): int {
    Braces(Structure(s, false))
  }

  /** In a text without quotes every brace counts, and nothing else does. */
  lemma {:induction false} BraceDepthPlain(s: string)
    requires '"' !in s
    ensures BraceDepth(s) == multiset(s)['{'] as int - multiset(s)['}']
  {
    if s != "" {
      assert s == [s[0]] + s[1..];
      BraceDepthPlain(s[1..]);
      if IsStructural(s[0]) {
        var rest := Structure(s[1..], false);
        assert ([s[0]] + rest)[1..] == rest;
      }
    }
  }

  /** The braces the scan still meets from position `i` on. */
  ghost function BracesFrom(s: string, i: nat, inString: bool): int {
    Braces(Structure(s[if i < |s| then i else |s|..], inString))
  }

  ghost predicate DepthSoFar(s: string, i: nat, depth: int, inString: bool, escaped: bool) {
    (escaped ==> inString) && BraceDepth(s) == depth + BracesFrom(s, if escaped then i + 1 else i, inString)
  }

  lemma BracesFromStep(s: string, i: nat, inString: bool)
    requires i < |s|
    ensures inString && s[i] == '\\' ==> BracesFrom(s, i, true) == BracesFrom(s, i + 2, true)
    ensures s[i] == '"' ==> BracesFrom(s, i, inString) == BracesFrom(s, i + 1, !inString)
    ensures s[i] != '"' && !(inString && s[i] == '\\') ==>
      BracesFrom(s, i, inString) == BracesFrom(s, i + 1, inString) + (if inString then 0 else BraceValue(s[i]))
  {
    var t := s[i..];
    assert t[1..] == s[i + 1..];
    assert s[|s|..] == "";
    if |t| > 1 { assert t[2..] == s[i + 2..]; }
    if !inString && IsStructural(s[i]) {
      var rest := Structure(t[1..], false);
      assert ([s[i]] + rest)[1..] == rest;
    }
  }

  lemma DepthStep(s: string, i: nat, depth: int, inString: bool, escaped: bool)
    requires i < |s| && DepthSoFar(s, i, depth, inString, escaped)
    ensures escaped ==> DepthSoFar(s, i + 1, depth, inString, false)
    ensures !escaped && s[i] == '\\' && inString ==> DepthSoFar(s, i + 1, depth, inString, true)
    ensures !escaped && s[i] == '"' ==> DepthSoFar(s, i + 1, depth, !inString, false)
    ensures !escaped && s[i] != '"' && !(s[i] == '\\' && inString) ==>
      DepthSoFar(s, i + 1, depth + (if inString then 0 else BraceValue(s[i])), inString, false)
  {
    hide BracesFrom;
    BracesFromStep(s, i, inString);
  }

  lemma DepthEnds(s: string, depth: int, inString: bool, escaped: bool)
    ensures DepthSoFar(s, 0, 0, false, false)
    ensures DepthSoFar(s, |s|, depth, inString, escaped) ==> depth == BraceDepth(s)
  {
    assert s[0..] == s;
  }

  /** The number of braces still to close: braces inside strings do not count. */
  method JsonBraceDepth(s: string) returns (depth: int)
    ensures depth == BraceDepth(s)
  {
    hide DepthSoFar;
    depth := 0;
    var inString, escaped := false, false;
    assert DepthSoFar(s, 0, depth, inString, escaped) by { DepthEnds(s, depth, inString, escaped); }
    for i := 0 to |s|
      invariant DepthSoFar(s, i, depth, inString, escaped)
    {
      DepthStep(s, i, depth, inString, escaped);
      var c := s[i];
      if escaped {
        escaped := false;
        continue;
      }
      if c == '\\' && inString {
        escaped := true;
        continue;
      }
      if c == '"' {
        inString := !inString;
        continue;
      }
      if !inString {
        if c == '{' {
          depth := depth + 1;
        } else if c == '}' {
          depth := depth - 1;
        }
      }
    }
    DepthEnds(s, depth, inString, escaped);
  }
}
