/**
 The value of a Python string literal in either quotes, and exactly when its translation stands for
 the same string in JSON.
 */
module PythonStrings {
  import opened Text
  import opened Json
  import opened Quotes

  /** The characters that have a name, for escapes that give it. */
  type NameTable = string -> Option<nat>

  // ---- Python's reading ----

  /** How many characters are read together: an escaped line end may have two characters. */
  function RoundLen(b: string): (n: nat)
    requires b != "" && b != "\\"
    ensures 1 <= n <= |b|
  {
    if b[0] != '\\' then 1 else if |b| > 2 && b[1] == '\r' && b[2] == '\n' then 3 else 2
  }

  /** A body that the quote around it, or a line end, does not cut short. */
  predicate IsBody(b: string, m: Mode)
    requires m != Bare
  {
    if b == "" then true
    else if b[0] == '\\' then |b| >= 2 && IsBody(b[RoundLen(b)..], m)
    else b[0] != Quote(m) && b[0] != '\n' && b[0] != '\r' && IsBody(b[1..], m)
  }

  function OctalValue(c: char): Option<nat> {
    if '0' <= c <= '7' then Some(c as int - '0' as int) else None
  }

  /** The number of octal digits at the front of `s`, at most `most`. */
  function OctalLen(s: string, most: nat): (n: nat)
    ensures n <= most && n <= |s|
  {
    if most > 0 && s != "" && OctalValue(s[0]).Some? then 1 + OctalLen(s[1..], most - 1) else 0
  }

  function OctalNumber(s: string, n: nat): nat
    requires n <= |s|
  {
    if n == 0 then 0 else OctalNumber(s, n - 1) * 8 + (match OctalValue(s[n - 1]) case Some(v) => v case None => 0)
  }

  /** The value of hexadecimal digits. */
  function HexNumber(s: string): Option<nat> {
    if s == "" then Some(0)
    else match (HexNumber(s[..|s| - 1]), HexValue(s[|s| - 1]))
      case (Some(n), Some(v)) => Some(n * 16 + v)
      case _ => None
  }

  /** Where the name that opens `s` ends. */
  function NameLen(s: string): (n: nat)
    ensures n <= |s|
  {
    if s == "" || s[0] == '}' then 0 else 1 + NameLen(s[1..])
  }

  /** What an escape stands for and how many characters it has. */
  datatype Escaped = Escaped(codes: Codes, used: nat)

  function Digits(b: string, count: nat): Option<Escaped> {
    if |b| < 2 + count then None
    else match HexNumber(b[2..2 + count])
      case Some(n) => if n < 0x110000 then Some(Escaped([n], 2 + count)) else None
      case None => None
  }

  /**
   The escape at the front of `b` (section 2.4.1 of the Python language reference): an unknown one
   stands for itself, a malformed one is an error.
   */
  function EscapeAt(b: string, names: NameTable): (e: Option<Escaped>)
    requires |b| >= 2 && b[0] == '\\'
    ensures e.Some? ==> 2 <= e.value.used <= |b|
  {
    var c := b[1];
    if c == '\n' then Some(Escaped([], 2))
    else if c == '\r' then Some(Escaped([], if |b| > 2 && b[2] == '\n' then 3 else 2))
    else if c == '\\' || c == '\'' || c == '"' then Some(Escaped([c as int], 2))
    else if c == 'a' then Some(Escaped([7], 2))
    else if c == 'v' then Some(Escaped([11], 2))
    else if c != '/' && SimpleEscape(c).Some? then Some(Escaped([SimpleEscape(c).value as int], 2))
    else if OctalValue(c).Some? then
      var n := OctalLen(b[1..], 3);
      Some(Escaped([OctalNumber(b[1..], n)], 1 + n))
    else if c == 'x' then Digits(b, 2)
    else if c == 'u' then
      if |b| < 6 || HexUnit(b[2..6]).None? then None else Some(Escaped([HexUnit(b[2..6]).value], 6))
    else if c == 'U' then Digits(b, 8)
    else if c == 'N' then
      if |b| < 3 || b[2] != '{' then None
      else
        var n := NameLen(b[3..]);
        if 3 + n == |b| || names(b[3..3 + n]).None? then None else Some(Escaped([names(b[3..3 + n]).value], 4 + n))
    else Some(Escaped(['\\' as int, c as int], 2))
  }

  function Join(a: Codes, rest: Option<Codes>): Option<Codes> {
    match rest
    case None => None
    case Some(r) => Some(a + r)
  }

  function Decode(b: string, names: NameTable): Option<Codes>
    decreases |b|
  {
    if b == "" then Some([])
    else if b[0] != '\\' then Prepend(b[0] as int, Decode(b[1..], names))
    else if |b| < 2 then None
    else
      match EscapeAt(b, names)
      case None => None
      case Some(e) => Join(e.codes, Decode(b[e.used..], names))
  }

  /** The string that the body of a literal in the quotes of `m` stands for; none if it is no literal. */
  function PyBody(b: string, m: Mode, names: NameTable): Option<Codes>
    requires m != Bare
  {
    if IsBody(b, m) then Decode(b, names) else None
  }

  // ---- The translation ----

  /** The translation of the body of a literal. */
  function LiteralBody(b: string, m: Mode): string {
    Rest(b, false, m)
  }

  /** Inside quotes the character before does not matter. */
  lemma RestInside(b: string, afterWord: bool, m: Mode)
    requires m != Bare
    ensures Rest(b, afterWord, m) == LiteralBody(b, m)
  {
    hide WordMove, PlainMove;
  }

  /** What one round of the body becomes: only the other quote, and an escaped single quote in single quotes, change. */
  function RoundText(b: string, m: Mode): string
    requires b != "" && b != "\\"
  {
    if b[0] == '"' then "\\\""
    else if b[0] == '\\' && b[1] == '\'' && m == InSingle then "'"
    else b[..RoundLen(b)]
  }

  lemma LiteralBodyStep(b: string, m: Mode)
    requires m != Bare && b != "" && b[0] != Quote(m) && b != "\\"
    ensures b[0] == '\\' ==>
      LiteralBody(b, m) == (if b[1] == '\'' && m == InSingle then "'" else ['\\', b[1]]) + LiteralBody(b[2..], m)
    ensures b[0] != '\\' ==> LiteralBody(b, m) == (if b[0] == '"' then "\\\"" else [b[0]]) + LiteralBody(b[1..], m)
  {
    var mv := PlainMove(b, m);
    RestInside(b[mv.used..], IsWordChar(b[mv.used - 1]), m);
    hide WordMove;
  }

  lemma LiteralBodyRound(b: string, m: Mode)
    requires m != Bare && b != "" && b[0] != Quote(m) && b != "\\"
    ensures LiteralBody(b, m) == RoundText(b, m) + LiteralBody(b[RoundLen(b)..], m)
  {
    hide LiteralBody;
    LiteralBodyStep(b, m);
    if RoundLen(b) == 3 {
      LiteralBodyStep(b[2..], m);
      assert b[2..][1..] == b[3..] && b[..3] == ['\\', b[1]] + [b[2]];
    }
  }

  /** The closing quote follows the translated body, and what comes after the literal is read outside strings. */
  lemma {:induction false} LiteralBodyCloses(b: string, m: Mode, t: string)
    requires m != Bare && IsBody(b, m) && t != "" && t[0] == Quote(m)
    ensures LiteralBody(b + t, m) == LiteralBody(b, m) + LiteralBody(t, m)
  {
    hide LiteralBody, RoundText;
    if b == "" {
      NothingBecomes(m);
      assert b + t == t;
    } else {
      var n := RoundLen(b);
      LiteralBodyCloses(b[n..], m, t);
      LiteralBodyRound(b, m);
      SameRound(b, t, m);
      LiteralBodyRound(b + t, m);
      assert (b + t)[n..] == b[n..] + t;
      Associate(RoundText(b, m), LiteralBody(b[n..], m), LiteralBody(t, m));
    }
  }

  lemma NothingBecomes(m: Mode)
    ensures LiteralBody("", m) == ""
  {
  }

  lemma QuoteCloses(m: Mode, r: string)
    requires m != Bare
    ensures LiteralBody([Quote(m)] + r, m) == "\"" + Rest(r, false, Bare)
  {
    hide WordMove;
    assert ([Quote(m)] + r)[1..] == r;
  }

  lemma SameRound(b: string, t: string, m: Mode)
    requires b != "" && b != "\\" && t != "" && t[0] != '\n'
    ensures RoundLen(b + t) == RoundLen(b) && RoundText(b + t, m) == RoundText(b, m)
  {
    assert (b + t)[..RoundLen(b)] == b[..RoundLen(b)];
  }

  /** A literal in either quotes becomes a JSON string literal, whatever follows it. */
  lemma LiteralBecomes(b: string, m: Mode, afterWord: bool, r: string)
    requires m != Bare && IsBody(b, m)
    ensures Rest([Quote(m)] + b + [Quote(m)] + r, afterWord, Bare) ==
      "\"" + LiteralBody(b, m) + "\"" + Rest(r, false, Bare)
  {
    hide LiteralBody, Rest;
    var q := [Quote(m)];
    assert q + b + q + r == q + (b + (q + r));
    QuoteOpens(b + (q + r), m, afterWord);
    LiteralBodyCloses(b, m, q + r);
    QuoteCloses(m, r);
    var u, v := LiteralBody(b, m), Rest(r, false, Bare);
    assert "\"" + (u + ("\"" + v)) == "\"" + u + "\"" + v;
  }

  lemma QuoteOpens(t: string, m: Mode, afterWord: bool)
    requires m != Bare
    ensures Rest([Quote(m)] + t, afterWord, Bare) == "\"" + LiteralBody(t, m)
  {
    hide LiteralBody, WordMove;
    assert ([Quote(m)] + t)[1..] == t;
    RestInside(t, false, m);
  }

  // ---- The value of the translation ----

  /** Every escape is one that JSON knows with the same meaning, and no control character stands for itself. */
  predicate SharedEscapes(b: string, m: Mode) {
    if b == "" then true
    else if b[0] != '\\' then b[0] >= ' ' && SharedEscapes(b[1..], m)
    else if |b| < 2 then false
    else if b[1] == 'u' then
      |b| >= 6 && HexUnit(b[2..6]).Some? && !IsSurrogate(HexUnit(b[2..6]).value) && SharedEscapes(b[6..], m)
    else ((b[1] == '\'' && m == InSingle) || (b[1] != '/' && SimpleEscape(b[1]).Some?)) && SharedEscapes(b[2..], m)
  }

  predicate IsSurrogate(u: nat) {
    IsHighSurrogate(u) || IsLowSurrogate(u)
  }

  /** JSON strings have no surrogates: their escapes are combined or refused. */
  lemma {:induction false} NoSurrogates(t: string)
    ensures ReadBody(t).Some? ==> forall k :: 0 <= k < |ReadBody(t).value| ==> !IsSurrogate(ReadBody(t).value[k])
  {
    hide HexUnit, LowAt, SimpleEscape;
    if t != "" {
      if t[0] != '\\' {
        NoSurrogates(t[1..]);
      } else if |t| >= 2 && t[1] != 'u' {
        NoSurrogates(t[2..]);
        SimpleIsPlain(t[1]);
      } else if |t| >= 6 && HexUnit(t[2..6]).Some? {
        NoSurrogates(t[6..]);
        if LowAt(t[6..]).Some? {
          LowIsLow(t[6..]);
          NoSurrogates(t[12..]);
        }
      }
    }
  }

  lemma SimpleIsPlain(c: char)
    ensures SimpleEscape(c).Some? ==> !IsSurrogate(SimpleEscape(c).value as int)
  {
  }

  lemma LowIsLow(s: string)
    requires LowAt(s).Some?
    ensures |s| >= 6 && IsLowSurrogate(LowAt(s).value)
  {
  }

  lemma PrependInjective(c: nat, u: Option<Codes>, v: Option<Codes>)
    ensures Prepend(c, u) == Prepend(c, v) <==> u == v
  {
    if u.Some? && v.Some? {
      assert ([c] + u.value)[1..] == u.value && ([c] + v.value)[1..] == v.value;
    }
  }

  lemma PlainReads(c: char, r: string)
    requires c != '\\' && c != '"'
    ensures ReadBody([c] + r) == if c < ' ' then None else Prepend(c as int, ReadBody(r))
  {
    assert ([c] + r)[1..] == r;
  }

  lemma EscapeReads(c: char, r: string)
    requires c != 'u'
    ensures ReadBody(['\\', c] + r) == if SimpleEscape(c).None? then None
      else Prepend(SimpleEscape(c).value as int, ReadBody(r))
  {
    hide SimpleEscape;
    assert (['\\', c] + r)[2..] == r;
  }

  lemma UnitReads(h: string, r: string)
    requires |h| == 4 && HexUnit(h).Some? && !IsSurrogate(HexUnit(h).value)
    ensures ReadBody(['\\', 'u'] + (h + r)) == Prepend(HexUnit(h).value, ReadBody(r))
  {
    hide HexUnit;
    var t := ['\\', 'u'] + (h + r);
    assert t[2..6] == h && t[6..] == r;
  }

  lemma UnescapedRound(b: string, m: Mode, names: NameTable)
    requires m != Bare && IsBody(b, m) && b != "" && b[0] != '\\'
    ensures Decode(b, names) == Prepend(b[0] as int, Decode(b[1..], names))
    ensures ReadBody(LiteralBody(b, m)) == if b[0] < ' ' then None
      else Prepend(b[0] as int, ReadBody(LiteralBody(b[1..], m)))
  {
    hide LiteralBody, ReadBody, EscapeAt;
    LiteralBodyStep(b, m);
    if b[0] == '"' {
      EscapeReads('"', LiteralBody(b[1..], m));
    } else {
      PlainReads(b[0], LiteralBody(b[1..], m));
    }
  }

  /** Hexadecimal digits are copied, and belong to the body. */
  lemma {:induction false} DigitsCopied(w: string, b: string, m: Mode)
    requires m != Bare && (forall k :: 0 <= k < |w| ==> HexValue(w[k]).Some?)
    ensures IsBody(w + b, m) == IsBody(b, m) && LiteralBody(w + b, m) == w + LiteralBody(b, m)
  {
    hide LiteralBody;
    if w == "" {
      assert w + b == b;
    } else {
      assert (w + b)[1..] == w[1..] + b;
      assert HexValue(w[0]).Some?;
      DigitsCopied(w[1..], b, m);
      LiteralBodyStep(w + b, m);
      assert [w[0]] + (w[1..] + LiteralBody(b, m)) == w + LiteralBody(b, m);
    }
  }

  lemma UnitDigits(h: string)
    requires |h| == 4 && HexUnit(h).Some?
    ensures forall k :: 0 <= k < 4 ==> HexValue(h[k]).Some?
  {
    assert HexValue(h[0]).Some? && HexValue(h[1]).Some? && HexValue(h[2]).Some? && HexValue(h[3]).Some?;
  }

  lemma UnitRound(b: string, m: Mode, names: NameTable)
    requires m != Bare && IsBody(b, m) && |b| >= 2 && b[0] == '\\' && b[1] == 'u' && Decode(b, names).Some?
    ensures |b| >= 6 && HexUnit(b[2..6]).Some? && IsBody(b[6..], m)
    ensures Decode(b, names) == Prepend(HexUnit(b[2..6]).value, Decode(b[6..], names))
    ensures LiteralBody(b, m) == ['\\', 'u'] + (b[2..6] + LiteralBody(b[6..], m))
  {
    hide LiteralBody, HexUnit, OctalLen, OctalNumber, Digits, NameLen;
    var h := b[2..6];
    UnitDigits(h);
    assert b[2..] == h + b[6..];
    DigitsCopied(h, b[6..], m);
    LiteralBodyStep(b, m);
  }

  lemma SharedRound(b: string, m: Mode, names: NameTable)
    requires m != Bare && IsBody(b, m) && |b| >= 2 && b[0] == '\\' && Decode(b, names).Some?
    requires b[1] == '\'' || (b[1] != '/' && SimpleEscape(b[1]).Some?)
    ensures var c := if b[1] == '\'' then '\'' else SimpleEscape(b[1]).value;
      && IsBody(b[2..], m) && Decode(b, names) == Prepend(c as int, Decode(b[2..], names))
      && ReadBody(LiteralBody(b, m)) == if b[1] == '\'' && m == InDouble then None
        else Prepend(c as int, ReadBody(LiteralBody(b[2..], m)))
  {
    hide LiteralBody, ReadBody, OctalLen, OctalNumber, Digits, NameLen, HexUnit;
    LiteralBodyStep(b, m);
    if b[1] == '\'' && m == InSingle {
      PlainReads('\'', LiteralBody(b[2..], m));
    } else {
      EscapeReads(b[1], LiteralBody(b[2..], m));
    }
  }

  /** The other escapes: a slash, which JSON reads without its backslash, and those that JSON refuses. */
  lemma OtherRound(b: string, m: Mode, names: NameTable)
    requires m != Bare && IsBody(b, m) && |b| >= 2 && b[0] == '\\' && Decode(b, names).Some?
    requires b[1] != '\'' && b[1] != 'u' && (b[1] == '/' || SimpleEscape(b[1]).None?)
    ensures ReadBody(LiteralBody(b, m)) != Decode(b, names)
  {
    hide LiteralBody, ReadBody, OctalLen, OctalNumber, Digits, NameLen, HexUnit;
    LiteralBodyStep(b, m);
    EscapeReads(b[1], LiteralBody(b[2..], m));
    if b[1] == '/' {
      assert Decode(b, names).value[0] == '\\' as int;
    }
  }

  lemma {:induction false} LiteralValueFrom(b: string, m: Mode, names: NameTable)
    requires m != Bare && IsBody(b, m) && Decode(b, names).Some?
    ensures ReadBody(LiteralBody(b, m)) == Decode(b, names) <==> SharedEscapes(b, m)
    decreases |b|
  {
    hide LiteralBody, ReadBody, Decode, HexUnit, IsBody;
    if b == "" {
      NothingRead(m, names);
    } else if b[0] != '\\' {
      UnescapedRound(b, m, names);
      BodyRest(b, m);
      LiteralValueFrom(b[1..], m, names);
      PrependInjective(b[0] as int, ReadBody(LiteralBody(b[1..], m)), Decode(b[1..], names));
    } else if |b| < 2 {
      BodyRest(b, m);
    } else if b[1] == 'u' {
      UnitRound(b, m, names);
      var u := HexUnit(b[2..6]).value;
      if IsSurrogate(u) {
        NoSurrogates(LiteralBody(b, m));
        assert Decode(b, names).value[0] == u;
      } else {
        UnitReads(b[2..6], LiteralBody(b[6..], m));
        LiteralValueFrom(b[6..], m, names);
        PrependInjective(u, ReadBody(LiteralBody(b[6..], m)), Decode(b[6..], names));
      }
    } else if b[1] == '\'' || (b[1] != '/' && SimpleEscape(b[1]).Some?) {
      SharedRound(b, m, names);
      LiteralValueFrom(b[2..], m, names);
      var c := if b[1] == '\'' then '\'' else SimpleEscape(b[1]).value;
      PrependInjective(c as int, ReadBody(LiteralBody(b[2..], m)), Decode(b[2..], names));
    } else {
      OtherRound(b, m, names);
    }
  }

  lemma BodyRest(b: string, m: Mode)
    requires m != Bare && IsBody(b, m) && b != ""
    ensures b[0] == '\\' ==> |b| >= 2
    ensures b[0] != '\\' ==> IsBody(b[1..], m)
  {
  }

  lemma NothingRead(m: Mode, names: NameTable)
    ensures ReadBody(LiteralBody("", m)) == Decode("", names)
  {
  }

  /**
   A Python literal in either quotes becomes a JSON string literal, and the two stand for the same
   string exactly when the body uses only escapes the two notations share.
   */
  lemma LiteralMeaning(b: string, m: Mode, names: NameTable)
    requires m != Bare && PyBody(b, m, names).Some?
    ensures Normalized([Quote(m)] + b + [Quote(m)]) == "\"" + LiteralBody(b, m) + "\""
    ensures ReadBody(LiteralBody(b, m)) == PyBody(b, m, names) <==> SharedEscapes(b, m)
  {
    hide LiteralBody, ReadBody, Decode, SharedEscapes;
    LiteralValueFrom(b, m, names);
    LiteralBecomes(b, m, false, "");
    var q, u := [Quote(m)], "\"" + LiteralBody(b, m) + "\"";
    assert q + b + q + "" == q + b + q && u + "" == u;
    hide WordMove, PlainMove;
  }

  /** A bell parts the two notations: Python writes it as an escape that JSON does not have. */
  lemma LiteralMeaningFails(names: NameTable)
    ensures PyBody("\\a", InSingle, names) == Some([7]) && ReadBody(LiteralBody("\\a", InSingle)) == None
  {
    var b := "\\a";
    assert b[2..] == "";
    assert Decode("", names) == Some([]) && [7] + [] == [7];
    assert EscapeAt(b, names) == Some(Escaped([7], 2));
    LiteralBodyStep(b, InSingle);
    EscapeReads('a', LiteralBody("", InSingle));
  }
}
