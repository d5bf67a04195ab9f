/** Whatever can be read as a JSON text is left alone by the translation of Python values. */
module JsonUnchanged {
  import opened Text
  import opened Json
  import opened Quotes
  import opened QuotesMeaning
  import opened ArgumentsText
  import opened JsonValues

  /** Text outside strings with the characters of JSON text. */
  predicate IsLexical(s: string) {
    JsonLexical(s, false)
  }

  lemma {:induction false} WhiteLexical(s: string)
    requires IsLexical(SkipWhite(s))
    ensures IsLexical(s)
  {
    if s != "" && IsWhite(s[0]) {
      WhiteLexical(s[1..]);
    }
  }

  lemma MarkLexical(s: string)
    requires s != "" && IsStructural(s[0]) && IsLexical(s[1..])
    ensures IsLexical(s)
  {
  }

  lemma {:induction false} BodyLexical(t: string)
    requires BodyEnd(t) < |t| && IsLexical(t[BodyEnd(t) + 1..])
    ensures JsonLexical(t, true)
    decreases |t|
  {
    if t[0] == '\\' {
      assert t[2..][BodyEnd(t[2..]) + 1..] == t[BodyEnd(t) + 1..];
      BodyLexical(t[2..]);
    } else if t[0] != '"' {
      assert t[1..][BodyEnd(t[1..]) + 1..] == t[BodyEnd(t) + 1..];
      BodyLexical(t[1..]);
    }
  }

  lemma StringLexical(s: string)
    requires ReadString(s).Some? && IsLexical(ReadString(s).value.1)
    ensures IsLexical(s)
  {
    hide BodyEnd, ReadBody;
    BodyLexical(s[1..]);
  }

  // ---- Numbers and words ----

  predicate AllPunctuation(w: string) {
    forall k :: 0 <= k < |w| ==> IsJsonPunctuation(w[k])
  }

  lemma {:induction false} PunctuationLexical(w: string, r: string)
    requires AllPunctuation(w) && IsLexical(r)
    ensures IsLexical(w + r)
  {
    if w == "" {
      assert w + r == r;
    } else {
      PunctuationLexical(w[1..], r);
      assert (w + r)[1..] == w[1..] + r && w[0] != '"';
    }
  }

  lemma {:induction false} DigitsPunctuation(s: string)
    ensures AllPunctuation(s[DigitsLen(s)..]) ==> AllPunctuation(s)
  {
    if s != "" && IsDigit(s[0]) {
      DigitsPunctuation(s[1..]);
      assert s[1..][DigitsLen(s[1..])..] == s[DigitsLen(s)..];
      FirstPunctuation(s);
    }
  }

  lemma FirstPunctuation(s: string)
    requires s != "" && (IsDigit(s[0]) || s[0] in "+-.eE")
    ensures AllPunctuation(s[1..]) ==> AllPunctuation(s)
  {
    if AllPunctuation(s[1..]) {
      forall k | 0 <= k < |s| ensures IsJsonPunctuation(s[k]) {
        if k > 0 { assert s[k] == s[1..][k - 1]; }
      }
    }
  }

  lemma ExponentPunctuation(t: string)
    requires IsJsonExponent(t)
    ensures AllPunctuation(t)
  {
    hide AllPunctuation;
    assert AllPunctuation("") by { NothingPunctuation(); }
    if t != "" {
      var u := WithoutSign(t[1..]);
      assert u[DigitsLen(u)..] == "";
      DigitsPunctuation(u);
      if u != t[1..] { FirstPunctuation(t[1..]); }
      FirstPunctuation(t);
    }
  }

  lemma NothingPunctuation()
    ensures AllPunctuation("")
  {
  }

  lemma NumberPunctuation(t: string)
    requires IsJsonNumber(t)
    ensures AllPunctuation(t)
  {
    hide AllPunctuation, IsJsonExponent;
    var u := if t[0] == '-' then t[1..] else t;
    var rest := u[DigitsLen(u)..];
    if rest != "" && rest[0] == '.' {
      ExponentPunctuation(rest[1 + DigitsLen(rest[1..])..]);
      assert rest[1..][DigitsLen(rest[1..])..] == rest[1 + DigitsLen(rest[1..])..];
      DigitsPunctuation(rest[1..]);
      FirstPunctuation(rest);
    } else {
      ExponentPunctuation(rest);
    }
    DigitsPunctuation(u);
    if t[0] == '-' { FirstPunctuation(t); }
  }

  lemma TokenLexical(s: string)
    requires ReadToken(s).Some? && IsLexical(ReadToken(s).value.1)
    ensures IsLexical(s)
  {
    hide IsLexical, IsJsonNumber, TokenLen;
    var w, r := s[..TokenLen(s)], s[TokenLen(s)..];
    if IsJsonNumber(w) {
      NumberPunctuation(w);
    } else {
      assert forall k :: 0 <= k < 4 ==> IsJsonPunctuation("true"[k]) && IsJsonPunctuation("null"[k]);
      assert forall k :: 0 <= k < 5 ==> IsJsonPunctuation("false"[k]);
    }
    PunctuationLexical(w, r);
    assert s == w + r;
  }

  // ---- Values ----

  lemma {:induction false} ValueLexical(s: string)
    requires ReadValue(s).Some? && IsLexical(ReadValue(s).value.1)
    ensures IsLexical(s)
    decreases |s|, 0
  {
    hide IsLexical, ReadString, ReadToken, ReadGroup, SkipWhite;
    if s[0] == '"' {
      StringLexical(s);
    } else if s[0] == '[' || s[0] == '{' {
      var dict, t := s[0] == '{', SkipWhite(s[1..]);
      if t != "" && t[0] == CloserOf(dict) {
        MarkLexical(t);
      } else {
        GroupLexical(t, dict);
      }
      WhiteLexical(s[1..]);
      MarkLexical(s);
    } else {
      TokenLexical(s);
    }
  }

  lemma {:induction false} GroupLexical(s: string, dict: bool)
    requires ReadGroup(s, dict).Some? && IsLexical(ReadGroup(s, dict).value.1)
    ensures IsLexical(s)
    decreases |s|, 2
  {
    hide IsLexical, ReadMember, ReadKey;
    var rest := ReadKey(s, dict).value.1;
    MemberLexical(rest, dict, ReadKey(s, dict).value.0);
    KeyLexical(s, dict);
  }

  lemma KeyLexical(s: string, dict: bool)
    requires ReadKey(s, dict).Some? && IsLexical(ReadKey(s, dict).value.1)
    ensures IsLexical(s)
  {
    hide IsLexical, ReadString, SkipWhite;
    if dict {
      var rest := ReadString(s).value.1;
      var t := SkipWhite(rest);
      WhiteLexical(t[1..]);
      MarkLexical(t);
      WhiteLexical(rest);
      StringLexical(s);
    }
  }

  lemma {:induction false} MemberLexical(s: string, dict: bool, key: Option<Codes>)
    requires ReadMember(s, dict, key).Some? && IsLexical(ReadMember(s, dict, key).value.1)
    ensures IsLexical(s)
    decreases |s|, 1
  {
    hide IsLexical, ReadValue, ReadGroup, SkipWhite;
    var rest := ReadValue(s).value.1;
    var t := SkipWhite(rest);
    if t[0] != CloserOf(dict) {
      GroupLexical(SkipWhite(t[1..]), dict);
      WhiteLexical(t[1..]);
    }
    MarkLexical(t);
    WhiteLexical(rest);
    ValueLexical(s);
  }

  /** Every text that the reader accepts passes through unchanged. */
  lemma ReadableUnchanged(s: string)
    requires ReadText(s).Some?
    ensures Normalized(s) == s
  {
    hide ReadValue, SkipWhite, Normalized;
    var t := SkipWhite(s);
    var rest := ReadValue(t).value.1;
    assert IsLexical("");
    hide IsLexical;
    WhiteLexical(rest);
    ValueLexical(t);
    WhiteLexical(s);
    Unchanged(s);
  }

  lemma Unchanged(s: string)
    requires IsLexical(s)
    ensures Normalized(s) == s
  {
    hide Normalized, JsonLexical;
    JsonTextUnchanged(s);
  }
}
