/** Turning Python literals into JSON text one character at a time (`normalize_quotes_to_json`). */
module Quotes {
  import opened Text

  /** The two flags of the loop; they are never both set. */
  datatype Mode = Bare | InSingle | InDouble

  /** The quote that opens and closes the strings of a mode. */
  function Quote(m: Mode): char
    requires m != Bare
  {
    if m == InSingle then '\'' else '"'
  }

  /** Where the run of word characters at the front of `s` ends. */
  function WordLen(s: string): (n: nat)
    ensures n <= |s|
    ensures s != "" && IsWordChar(s[0]) ==> n > 0
  {
    if s != "" && IsWordChar(s[0]) then 1 + WordLen(s[1..]) else 0
  }

  /** No word goes on at the front of `r`. */
  predicate Ends(r: string) {
    r == "" || !IsWordChar(r[0])
  }

  lemma {:induction false} WordLenOf(w: string, r: string)
    requires Ends(r) && forall k :: 0 <= k < |w| ==> IsWordChar(w[k])
    ensures WordLen(w + r) == |w|
  {
    if w == "" {
      assert w + r == r;
    } else {
      assert (w + r)[1..] == w[1..] + r;
      WordLenOf(w[1..], r);
    }
  }

  /** The JSON text for a prefix of `True`, `False` or `None`. */
  function LiteralPrefix(token: string): (js: Option<string>)
    ensures js.Some? ==> |js.value| == |token|
  {
    if token <= "True" then Some("true"[..|token|])
    else if token <= "False" then Some("false"[..|token|])
    else if token <= "None" then Some("null"[..|token|])
    else None
  }

  /** A bare `T`, `F` or `N` that begins a word. */
  predicate StartsLiteral(s: string, afterWord: bool, m: Mode) {
    s != "" && m == Bare && !afterWord && (s[0] == 'T' || s[0] == 'F' || s[0] == 'N')
  }

  /** The text one round of the loop appends, the characters it reads, and the mode it leaves. */
  datatype Move = Move(emit: string, used: nat, mode: Mode)

  /** A round at a character that begins no bare literal. */
  function PlainMove(s: string, m: Mode): (mv: Move)
    requires s != ""
    ensures 1 <= mv.used <= |s|
  {
    var c := s[0];
    if c == '\\' && |s| > 1 then
      match m
      case InSingle => Move(if s[1] == '\'' then "'" else ['\\', s[1]], 2, m)
      case InDouble => Move(['\\', s[1]], 2, m)
      case Bare => Move("\\", 1, m)
    else if c == '"' then
      if m == InSingle then Move("\\\"", 1, m)
      else Move("\"", 1, if m == Bare then InDouble else Bare)
    else if c == '\'' then
      if m == InDouble then Move("'", 1, m)
      else Move("\"", 1, if m == Bare then InSingle else Bare)
    else
      Move([c], 1, m)
  }

  /** A round at the first letter of a bare word that may be a Python literal. */
  function WordMove(s: string): (mv: Move)
    requires s != "" && IsWordChar(s[0])
    ensures 1 <= mv.used <= |s|
  {
    var n := WordLen(s);
    match LiteralPrefix(s[..n])
    case Some(js) => Move(js, n, Bare)
    case None => Move([s[0]], 1, Bare)
  }

  /** One round at the front of `s`; `afterWord` says that the character before it is a word character. */
  function Advance(s: string, afterWord: bool, m: Mode): (mv: Move)
    requires s != ""
    ensures 1 <= mv.used <= |s|
  {
    if StartsLiteral(s, afterWord, m) then WordMove(s) else PlainMove(s, m)
  }

  /** The text the loop still appends when `s` is left to read. */
  function Rest(s: string, afterWord: bool, m: Mode): string
    decreases |s|
  {
    if s == "" then "" else
    var mv := Advance(s, afterWord, m);
    mv.emit + Rest(s[mv.used..], IsWordChar(s[mv.used - 1]), mv.mode)
  }

  /** Every round appends something. */
  lemma AdvanceEmits(s: string, afterWord: bool, m: Mode)
    requires s != ""
    ensures Advance(s, afterWord, m).emit != ""
  {
  }

  function Normalized(s: string): string {
    Rest(s, false, Bare)
  }

  /** The loop invariant: `done` is what positions below `i` of `input` have produced, `m` the mode they left. */
  ghost predicate Produced(input: string, done: string, i: nat, m: Mode) {
    i <= |input| && Normalized(input) == done + Rest(input[i..], i > 0 && IsWordChar(input[i - 1]), m)
  }

  lemma ProducedInit(input: string)
    ensures Produced(input, "", 0, Bare)
  {
    assert input[0..] == input;
  }

  lemma ProducedAll(input: string, done: string, m: Mode)
    requires Produced(input, done, |input|, m)
    ensures done == Normalized(input)
  {
    assert input[|input|..] == "";
  }

  lemma ProducedStep(input: string, done: string, i: nat, m: Mode, mv: Move)
    requires i < |input| && Produced(input, done, i, m)
    requires mv == Advance(input[i..], i > 0 && IsWordChar(input[i - 1]), m)
    ensures Produced(input, done + mv.emit, i + mv.used, mv.mode)
  {
    hide Advance;
    assert input[i..][mv.used..] == input[i + mv.used..];
    var rest := Rest(input[i + mv.used..], IsWordChar(input[i + mv.used - 1]), mv.mode);
    assert done + (mv.emit + rest) == done + mv.emit + rest;
  }

  /** One round of the loop at position `i`: the piece to append, the flags it leaves and the position it moves to. */
  method TranslateAt(input: string, i: nat, inSingleQuoted: bool, inDoubleQuoted: bool)
    returns (piece: string, inSingle: bool, inDouble: bool, next: nat)
    requires i < |input| && !(inSingleQuoted && inDoubleQuoted)
    ensures i < next <= |input| && !(inSingle && inDouble)
    ensures Move(piece, next - i, ModeOf(inSingle, inDouble))
         == Advance(input[i..], i > 0 && IsWordChar(input[i - 1]), ModeOf(inSingleQuoted, inDoubleQuoted))
  {
    inSingle, inDouble, next := inSingleQuoted, inDoubleQuoted, i + 1;
    var c := input[i];
    piece := [c];
    if c == '\\' && i + 1 < |input| {
      if inSingleQuoted {
        piece := if input[i + 1] == '\'' then "'" else [c, input[i + 1]];
        next := i + 2;
      } else if inDoubleQuoted {
        piece := [c, input[i + 1]];
        next := i + 2;
      }
    } else if c == '"' {
      if inSingleQuoted {
        piece := "\\\"";
      } else {
        inDouble := !inDoubleQuoted;
      }
    } else if c == '\'' {
      if !inDoubleQuoted {
        inSingle := !inSingleQuoted;
        piece := "\"";
      }
    } else if !inSingleQuoted && !inDoubleQuoted && (c == 'T' || c == 'F' || c == 'N') &&
              (i == 0 || !IsWordChar(input[i - 1])) {
      var n := TokenLength(input, i);
      assert input[i..][..n] == input[i..i + n];
      var literal := LiteralPrefix(input[i..i + n]);
      if literal.Some? {
        piece := literal.value;
        next := i + n;
      }
    }
  }

  method NormalizeQuotesToJson(input: string) returns (result: string)
    ensures result == Normalized(input)
  {
    hide Produced, Advance, Normalized;
    result := "";
    var inSingleQuoted, inDoubleQuoted := false, false;
    var i := 0;
    ProducedInit(input);
    while i < |input|
      invariant i <= |input| && !(inSingleQuoted && inDoubleQuoted)
      invariant Produced(input, result, i, ModeOf(inSingleQuoted, inDoubleQuoted))
    {
      var piece, inSingle, inDouble, next := TranslateAt(input, i, inSingleQuoted, inDoubleQuoted);
      ProducedStep(input, result, i, ModeOf(inSingleQuoted, inDoubleQuoted),
        Move(piece, next - i, ModeOf(inSingle, inDouble)));
      result, inSingleQuoted, inDoubleQuoted, i := result + piece, inSingle, inDouble, next;
    }
    ProducedAll(input, result, ModeOf(inSingleQuoted, inDoubleQuoted));
  }

  function ModeOf(inSingleQuoted: bool, inDoubleQuoted: bool): Mode {
    if inSingleQuoted then InSingle else if inDoubleQuoted then InDouble else Bare
  }

  method TokenLength(input: string, i: nat) returns (n: nat)
    requires i < |input| && IsWordChar(input[i])
    ensures n == WordLen(input[i..]) && n > 0
  {
    n := 0;
    while i + n < |input| && IsWordChar(input[i + n])
      invariant i + n <= |input|
      invariant WordLen(input[i..]) == n + WordLen(input[i + n..])
    {
      assert input[i + n..][1..] == input[i + n + 1..];
      n := n + 1;
    }
  }
}
