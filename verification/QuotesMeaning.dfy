/** What the translation of Python literals keeps: bracket structure and JSON text. */
module QuotesMeaning {
  import opened Text
  import opened Json
  import opened Quotes

  // ---- Bracket structure ----

  /** The structural characters of Python text outside its quoted strings, of either kind. */
  function PyStructure(s: string, m: Mode): string {
    if s == "" then ""
    else if m != Bare then
      if s[0] == '\\' then (if |s| == 1 then "" else PyStructure(s[2..], m))
      else PyStructure(s[1..], if s[0] == Quote(m) then Bare else m)
    else if s[0] == '"' then PyStructure(s[1..], InDouble)
    else if s[0] == '\'' then PyStructure(s[1..], InSingle)
    else if IsStructural(s[0]) then [s[0]] + PyStructure(s[1..], Bare)
    else PyStructure(s[1..], Bare)
  }

  /** The kind of quoted string that is open after `s`. */
  function PyMode(s: string, m: Mode): Mode {
    if s == "" then m
    else if m != Bare then
      if s[0] == '\\' then (if |s| == 1 then m else PyMode(s[2..], m))
      else PyMode(s[1..], if s[0] == Quote(m) then Bare else m)
    else PyMode(s[1..], if s[0] == '"' then InDouble else if s[0] == '\'' then InSingle else Bare)
  }

  /** Reading the same structure from a Python text and from its translation. */
  ghost predicate SameStructure(py: string, m: Mode, js: string) {
    && Structure(js, m != Bare) == PyStructure(py, m)
    && (OpenString(js, m != Bare) <==> PyMode(py, m) != Bare)
  }

  lemma {:induction false} WordsHaveNoStructure(w: string, py: string, v: string, js: string)
    requires |v| == |w|
    requires forall k :: 0 <= k < |w| ==> IsWordChar(w[k]) && IsWordChar(v[k])
    requires SameStructure(py, Bare, js)
    ensures SameStructure(w + py, Bare, v + js)
  {
    if w == "" {
      assert w + py == py && v + js == js;
    } else {
      WordsHaveNoStructure(w[1..], py, v[1..], js);
      assert (w + py)[1..] == w[1..] + py && (v + js)[1..] == v[1..] + js;
    }
  }

  lemma {:induction false} WordLenWord(s: string)
    ensures forall k :: 0 <= k < WordLen(s) ==> IsWordChar(s[k])
  {
    if s != "" && IsWordChar(s[0]) {
      WordLenWord(s[1..]);
    }
  }

  lemma LiteralPrefixIsWord(token: string)
    ensures LiteralPrefix(token).Some? ==> forall k :: 0 <= k < |token| ==> IsWordChar(LiteralPrefix(token).value[k])
  {
    assert forall k :: 0 <= k < 4 ==> IsWordChar("true"[k]);
    assert forall k :: 0 <= k < 5 ==> IsWordChar("false"[k]);
    assert forall k :: 0 <= k < 4 ==> IsWordChar("null"[k]);
  }

  lemma WordStep(s: string, js: string)
    requires s != "" && IsWordChar(s[0])
    requires SameStructure(s[WordMove(s).used..], Bare, js)
    ensures SameStructure(s, Bare, WordMove(s).emit + js)
  {
    WordLenWord(s);
    LiteralPrefixIsWord(s[..WordLen(s)]);
    hide LiteralPrefix, SameStructure, WordLen;
    var mv := WordMove(s);
    assert s[..mv.used] + s[mv.used..] == s;
    WordsHaveNoStructure(s[..mv.used], s[mv.used..], mv.emit, js);
  }

  lemma PlainStep(s: string, m: Mode, js: string)
    requires s != ""
    requires SameStructure(s[PlainMove(s, m).used..], PlainMove(s, m).mode, js)
    requires |s| == 1 ==> js == ""
    ensures SameStructure(s, m, PlainMove(s, m).emit + js)
  {
    var mv := PlainMove(s, m);
    var t := mv.emit + js;
    if |mv.emit| == 2 {
      assert t[2..] == js;
    } else {
      assert t[1..] == js;
    }
  }

  lemma {:induction false} RestStructure(s: string, afterWord: bool, m: Mode)
    ensures SameStructure(s, m, Rest(s, afterWord, m))
    decreases |s|
  {
    if s != "" {
      var mv := Advance(s, afterWord, m);
      var s', aw' := s[mv.used..], IsWordChar(s[mv.used - 1]);
      RestStructure(s', aw', mv.mode);
      hide SameStructure, WordMove, PlainMove;
      if StartsLiteral(s, afterWord, m) {
        WordStep(s, Rest(s', aw', mv.mode));
      } else {
        PlainStep(s, m, Rest(s', aw', mv.mode));
      }
    }
  }

  /**
   The brackets, commas and colons outside strings are the same before and after, whichever quotes
   the text uses and however much of it has arrived; a string is open at the end of the one exactly
   when one is open at the end of the other.
   */
  lemma NormalizedStructure(x: string)
    ensures Structure(Normalized(x), false) == PyStructure(x, Bare)
    ensures OpenString(Normalized(x), false) <==> PyMode(x, Bare) != Bare
    ensures BraceDepth(Normalized(x)) == Braces(PyStructure(x, Bare))
  {
    RestStructure(x, false, Bare);
  }

  // ---- JSON text ----

  /** No single quote and no prefix of a Python literal outside double-quoted strings. */
  predicate Untouched(s: string, afterWord: bool, inString: bool) {
    if s == "" then true
    else if inString then
      if s[0] == '\\' && |s| > 1 then Untouched(s[2..], IsWordChar(s[1]), true)
      else Untouched(s[1..], IsWordChar(s[0]), s[0] != '"')
    else
      && s[0] != '\''
      && !(StartsLiteral(s, afterWord, Bare) && LiteralPrefix(s[..WordLen(s)]).Some?)
      && Untouched(s[1..], IsWordChar(s[0]), s[0] == '"')
  }

  lemma UntouchedStep(s: string, afterWord: bool, m: Mode)
    requires s != "" && m != InSingle
    ensures var mv := Advance(s, afterWord, m);
      if m == Bare && (s[0] == '\'' || (StartsLiteral(s, afterWord, m) && LiteralPrefix(s[..WordLen(s)]).Some?))
      then !Untouched(s, afterWord, m == InDouble) && mv.emit != "" && mv.emit[0] != s[0]
      else
        && mv.emit == s[..mv.used] && mv.mode != InSingle
        && (Untouched(s, afterWord, m == InDouble) <==>
          Untouched(s[mv.used..], IsWordChar(s[mv.used - 1]), mv.mode == InDouble))
  {
    if StartsLiteral(s, afterWord, m) {
      var w := s[..WordLen(s)];
      assert w[0] == s[0];
      LiteralChangesFirst(w);
      hide LiteralPrefix, WordLen;
    } else {
      hide WordMove, LiteralPrefix, WordLen;
    }
  }

  lemma LiteralChangesFirst(w: string)
    requires w != ""
    ensures LiteralPrefix(w).Some? ==> LiteralPrefix(w).value[0] != w[0]
  {
    assert "True"[0] == 'T' && "False"[0] == 'F' && "None"[0] == 'N';
    assert "true"[0] == 't' && "false"[0] == 'f' && "null"[0] == 'n';
  }

  lemma {:induction false} UntouchedFrom(s: string, afterWord: bool, m: Mode)
    requires m != InSingle
    ensures if Untouched(s, afterWord, m == InDouble) then Rest(s, afterWord, m) == s
      else Clash(s, Rest(s, afterWord, m))
    decreases |s|
  {
    hide Untouched, Advance, LiteralPrefix, WordLen;
    if s == "" {
      UntouchedEmpty(afterWord, m == InDouble);
    } else {
      UntouchedStep(s, afterWord, m);
      var mv := Advance(s, afterWord, m);
      var s', aw' := s[mv.used..], IsWordChar(s[mv.used - 1]);
      var rest := Rest(s', aw', mv.mode);
      assert Rest(s, afterWord, m) == mv.emit + rest;
      assert s == s[..mv.used] + s';
      if mv.emit == s[..mv.used] && mv.mode != InSingle {
        UntouchedFrom(s', aw', mv.mode);
        if !Untouched(s, afterWord, m == InDouble) {
          ClashPrepend(mv.emit, s', rest);
        }
      } else {
        assert s[0] != Rest(s, afterWord, m)[0];
      }
    }
  }

  lemma UntouchedEmpty(afterWord: bool, inString: bool)
    ensures Untouched("", afterWord, inString)
  {
  }

  /** Exactly which texts come out as they went in. */
  lemma NormalizedUnchanged(s: string)
    ensures Normalized(s) == s <==> Untouched(s, false, false)
  {
    UntouchedFrom(s, false, Bare);
  }

  /** The characters JSON text has outside its strings (sections 2, 3 and 6 of RFC 8259). */
  predicate IsJsonPunctuation(c: char) {
    IsStructural(c) || IsDigit(c) || c in " \t\n\r+-.Eeaflnrstu"
  }

  predicate JsonLexical(s: string, inString: bool) {
    if s == "" then true
    else if inString then
      if s[0] == '\\' then |s| > 1 && JsonLexical(s[2..], true) else JsonLexical(s[1..], s[0] != '"')
    else if s[0] == '"' then JsonLexical(s[1..], true)
    else IsJsonPunctuation(s[0]) && JsonLexical(s[1..], false)
  }

  lemma {:induction false} JsonLexicalUntouched(s: string, afterWord: bool, inString: bool)
    requires JsonLexical(s, inString)
    ensures Untouched(s, afterWord, inString)
    decreases |s|
  {
    hide LiteralPrefix, WordLen;
    if s != "" {
      if inString && s[0] == '\\' {
        JsonLexicalUntouched(s[2..], IsWordChar(s[1]), true);
      } else {
        JsonLexicalUntouched(s[1..], IsWordChar(s[0]), if inString then s[0] != '"' else s[0] == '"');
      }
    }
  }

  /** Every JSON text passes through unchanged. */
  lemma JsonTextUnchanged(s: string)
    requires JsonLexical(s, false)
    ensures Normalized(s) == s
  {
    JsonLexicalUntouched(s, false, false);
    NormalizedUnchanged(s);
  }
}
