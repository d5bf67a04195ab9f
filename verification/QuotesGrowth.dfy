/**
 How the translated text changes while its input grows. A partial input is translated again and
 again during streaming, so the translation of an extended input should extend the translation.
 */
module QuotesGrowth {
  import opened Text
  import opened Quotes

  /** What the loop had to decide at the end of the input without seeing the next character. */
  datatype Tail =
    | Settled
    | DanglingEscape         // a backslash inside single quotes with nothing after it
    | OpenWord(word: string) // a bare prefix of True, False or None that reaches the end

  function TailFrom(s: string, afterWord: bool, m: Mode): Tail
    decreases |s|
  {
    if s == "" then Settled
    else if m == InSingle && s == "\\" then DanglingEscape
    else if StartsLiteral(s, afterWord, m) && WordLen(s) == |s| && LiteralPrefix(s).Some? then OpenWord(s)
    else
      var mv := Advance(s, afterWord, m);
      TailFrom(s[mv.used..], IsWordChar(s[mv.used - 1]), mv.mode)
  }

  /** Whether adding `y` confirms the decision made at the end of the input. */
  predicate Confirms(tail: Tail, y: string) {
    match tail
    case Settled => true
    case DanglingEscape => y == "" || y[0] != '\''
    case OpenWord(word) => LiteralPrefix(word + y[..WordLen(y)]).Some?
  }

  lemma {:induction false} WordLenAppend(x: string, y: string)
    ensures WordLen(x + y) == if WordLen(x) < |x| then WordLen(x) else |x| + WordLen(y)
  {
    if x == "" {
      assert x + y == y;
    } else if IsWordChar(x[0]) {
      WordLenAppend(x[1..], y);
      assert (x + y)[1..] == x[1..] + y;
    }
  }

  /** The literals start with three different letters, so the literal a prefix belongs to stays the same. */
  lemma LiteralGrows(u: string, v: string)
    requires u != "" && u <= v
    ensures LiteralPrefix(v).Some? ==> LiteralPrefix(u).Some? && LiteralPrefix(u).value <= LiteralPrefix(v).value
    ensures LiteralPrefix(u).Some? ==> LiteralPrefix(u).value[0] != u[0]
  {
    assert u[0] == v[0];
    assert "True"[0] == 'T' && "False"[0] == 'F' && "None"[0] == 'N';
    assert "true"[0] == 't' && "false"[0] == 'f' && "null"[0] == 'n';
  }

  lemma PlainMoveAppend(x: string, y: string, m: Mode)
    requires x != "" && (x == "\\" ==> m == Bare)
    ensures PlainMove(x + y, m) == PlainMove(x, m)
  {
    assert (x + y)[0] == x[0];
    assert |x| > 1 ==> (x + y)[1] == x[1];
  }

  /** Away from the end of the input a round does not depend on what comes later. */
  lemma AdvanceAppend(x: string, y: string, afterWord: bool, m: Mode)
    requires x != ""
    requires x == "\\" ==> m == Bare
    requires !(StartsLiteral(x, afterWord, m) && WordLen(x) == |x| && LiteralPrefix(x).Some?)
    ensures Advance(x + y, afterWord, m) == Advance(x, afterWord, m)
  {
    hide LiteralPrefix, WordMove, PlainMove, WordLen;
    assert (x + y)[0] == x[0];
    if StartsLiteral(x, afterWord, m) {
      WordMoveAppend(x, y);
    } else {
      PlainMoveAppend(x, y, m);
    }
  }

  lemma WordMoveAppend(x: string, y: string)
    requires x != "" && IsWordChar(x[0])
    requires WordLen(x) == |x| ==> LiteralPrefix(x).None?
    ensures WordMove(x + y) == WordMove(x)
  {
    hide WordLen, LiteralPrefix, WordMove;
    WordLenAppend(x, y);
    var z, n := x + y, WordLen(x);
    assert z[0] == x[0];
    WordMoveUnfolds(x);
    WordMoveUnfolds(z);
    if n < |x| {
      assert z[..n] == x[..n];
    } else {
      assert x[..n] == x;
      LiteralGrows(x, z[..WordLen(z)]);
    }
  }

  lemma WordMoveUnfolds(s: string)
    requires s != "" && IsWordChar(s[0])
    ensures var n := WordLen(s);
      WordMove(s) == match LiteralPrefix(s[..n]) case Some(js) => Move(js, n, Bare) case None => Move([s[0]], 1, Bare)
  {
    hide WordLen, LiteralPrefix;
  }

  /** The growth claim for what the loop still appends. */
  ghost predicate Growth(x: string, y: string, afterWord: bool, m: Mode) {
    var u, v := Rest(x, afterWord, m), Rest(x + y, afterWord, m);
    if Confirms(TailFrom(x, afterWord, m), y) then u <= v else Clash(u, v)
  }

  /** The cases in which the end of the input matters. */
  predicate AtEnd(x: string, afterWord: bool, m: Mode) {
    || x == ""
    || (x == "\\" && m != Bare)
    || (StartsLiteral(x, afterWord, m) && WordLen(x) == |x| && LiteralPrefix(x).Some?)
  }

  lemma RoundUnfolds(s: string, afterWord: bool, m: Mode)
    requires s != ""
    ensures var mv := Advance(s, afterWord, m);
      && Rest(s, afterWord, m) == mv.emit + Rest(s[mv.used..], IsWordChar(s[mv.used - 1]), mv.mode)
      && (!AtEnd(s, afterWord, m) ==>
            TailFrom(s, afterWord, m) == TailFrom(s[mv.used..], IsWordChar(s[mv.used - 1]), mv.mode))
  {
    hide Advance, LiteralPrefix, WordLen;
  }

  lemma GrowthStep(x: string, y: string, afterWord: bool, m: Mode)
    requires !AtEnd(x, afterWord, m)
    requires var mv := Advance(x, afterWord, m); Growth(x[mv.used..], y, IsWordChar(x[mv.used - 1]), mv.mode)
    ensures Growth(x, y, afterWord, m)
  {
    hide Confirms, Advance, Clash, Rest, TailFrom, WordLen, LiteralPrefix;
    AdvanceAppend(x, y, afterWord, m);
    RoundUnfolds(x, afterWord, m);
    RoundUnfolds(x + y, afterWord, m);
    var mv := Advance(x, afterWord, m);
    var x', aw' := x[mv.used..], IsWordChar(x[mv.used - 1]);
    assert (x + y)[mv.used..] == x' + y && (x + y)[mv.used - 1] == x[mv.used - 1];
    var u, v := Rest(x', aw', mv.mode), Rest(x' + y, aw', mv.mode);
    if !Confirms(TailFrom(x, afterWord, m), y) {
      ClashPrepend(mv.emit, u, v);
    }
  }

  lemma {:induction false} GrowthFrom(x: string, y: string, afterWord: bool, m: Mode)
    ensures Growth(x, y, afterWord, m)
    decreases |x|
  {
    hide Growth, Advance, WordLen, LiteralPrefix;
    if AtEnd(x, afterWord, m) {
      GrowthAtEnd(x, y, afterWord, m);
    } else {
      var mv := Advance(x, afterWord, m);
      GrowthFrom(x[mv.used..], y, IsWordChar(x[mv.used - 1]), mv.mode);
      GrowthStep(x, y, afterWord, m);
    }
  }

  lemma GrowthAtEnd(x: string, y: string, afterWord: bool, m: Mode)
    requires AtEnd(x, afterWord, m)
    ensures Growth(x, y, afterWord, m)
  {
    hide Advance, WordLen, LiteralPrefix, Clash;
    if x == "" {
    } else if x == "\\" && m == InSingle {
      DanglingCase(y, afterWord);
    } else if x == "\\" && m == InDouble {
      InDoubleCase(y, afterWord);
    } else {
      OpenWordCase(x, y, afterWord, m);
    }
  }

  lemma InDoubleCase(y: string, afterWord: bool)
    ensures TailFrom("\\", afterWord, InDouble).Settled?
    ensures Rest("\\", afterWord, InDouble) <= Rest("\\" + y, afterWord, InDouble)
  {
    hide WordMove, Rest;
    RestSingle("\\", afterWord, InDouble);
    assert "\\"[1..] == "";
    var s := "\\" + y;
    if y == "" {
      assert s == "\\";
    } else {
      RoundUnfolds(s, afterWord, InDouble);
      assert s[0] == '\\' && s[1] == y[0];
    }
  }

  lemma RestSingle(x: string, afterWord: bool, m: Mode)
    requires |x| >= 1 && Advance(x, afterWord, m).used == |x|
    ensures Rest(x, afterWord, m) == Advance(x, afterWord, m).emit
  {
    var mv := Advance(x, afterWord, m);
    assert x[mv.used..] == "";
    assert mv.emit + "" == mv.emit;
  }

  lemma DanglingCase(y: string, afterWord: bool)
    ensures y == "" || y[0] != '\'' ==> Rest("\\", afterWord, InSingle) <= Rest("\\" + y, afterWord, InSingle)
    ensures y != "" && y[0] == '\'' ==> Clash(Rest("\\", afterWord, InSingle), Rest("\\" + y, afterWord, InSingle))
  {
    hide WordMove;
    RestSingle("\\", afterWord, InSingle);
    assert Rest("\\", afterWord, InSingle) == "\\";
    if y == "" {
      assert "\\" + y == "\\";
    } else if y[0] == '\'' {
      assert Rest("\\" + y, afterWord, InSingle)[0] == '\'';
    }
  }

  lemma OpenWordCase(x: string, y: string, afterWord: bool, m: Mode)
    requires StartsLiteral(x, afterWord, m) && WordLen(x) == |x| && LiteralPrefix(x).Some?
    ensures Confirms(OpenWord(x), y) ==> Rest(x, afterWord, m) <= Rest(x + y, afterWord, m)
    ensures !Confirms(OpenWord(x), y) ==> Clash(Rest(x, afterWord, m), Rest(x + y, afterWord, m))
  {
    hide WordLen, LiteralPrefix, Rest, PlainMove;
    assert x[..|x|] == x;
    RestSingle(x, afterWord, m);
    WordLenAppend(x, y);
    RoundUnfolds(x + y, afterWord, m);
    var word := x + y[..WordLen(y)];
    assert (x + y)[..|word|] == word;
    LiteralGrows(x, word);
    var u, v := Rest(x, afterWord, m), Rest(x + y, afterWord, m);
    if !Confirms(OpenWord(x), y) {
      assert u[0] != x[0] == v[0];
    }
  }

  /**
   Exactly when the translation of an input grows with the input: what was decided at its end must
   be confirmed by what is added. When it is not, the two translations clash, so that no later input
   can make up for it.
   */
  lemma NormalizedGrows(x: string, y: string)
    ensures Normalized(x) <= Normalized(x + y) <==> Confirms(TailFrom(x, false, Bare), y)
    ensures !Confirms(TailFrom(x, false, Bare), y) ==> Clash(Normalized(x), Normalized(x + y))
  {
    GrowthFrom(x, y, false, Bare);
  }

  /** The ways to fail: a word that turns out not to be a literal, and an escaped quote cut in two. */
  lemma GrowthFails()
    ensures !(Normalized("N") <= Normalized("N" + "ope")) && !(Normalized("'\\") <= Normalized("'\\" + "'"))
  {
    WordFails();
    EscapeFails();
    NormalizedGrows("N", "ope");
    NormalizedGrows("'\\", "'");
  }

  lemma WordFails()
    ensures !Confirms(TailFrom("N", false, Bare), "ope")
  {
    WordLenOf("ope", "");
    assert "ope" + "" == "ope";
    assert "N"[1..] == "" && "N" <= "None" && "N"[0] == 'N' && "T"[0] == 'T' && "F"[0] == 'F';
    assert WordLen("N") == 1;
    var w := "N" + "ope";
    assert w[1] == 'o' && "None"[1] == 'o' && w[2] == 'p' && "None"[2] == 'n' && w[0] == 'N' && "True"[0] == 'T'
      && "False"[0] == 'F';
    assert "ope"[..3] == "ope";
  }

  lemma EscapeFails()
    ensures !Confirms(TailFrom("'\\", false, Bare), "'")
  {
    var x := "'\\";
    assert x[1..] == "\\" && x[0] == '\'';
    assert TailFrom("\\", false, InSingle) == DanglingEscape;
  }
}
