/** Replacing escape sequences in a string that is overwritten as it is read (`string_process_escapes`). */
module Escapes {

  import opened Text

  /** What `strtol` in base 16 makes of two characters: a value when it accepts both of them. */
  type HexReader = (char, char) -> Option<char>

  /** The character written by a backslash and `c`, when that is a simple escape. */
  function Simple(c: char): Option<char> {
    if c == 'n' then Some('\n')
    else if c == 'r' then Some('\r')
    else if c == 't' then Some('\t')
    else if c == '\'' || c == '\"' || c == '\\' then Some(c)
    else None
  }

  /** What is written for the front of `s`, and how many characters are read for it. */
  function Round(s: string, hex: HexReader): (r: (string, nat))
    requires s != ""
    ensures 1 <= r.1 <= |s| && |r.0| <= r.1
  {
    if s[0] != '\\' || |s| == 1 then ([s[0]], 1)
    else if Simple(s[1]).Some? then ([Simple(s[1]).value], 2)
    else if s[1] == 'x' && |s| > 3 && hex(s[2], s[3]).Some? then ([hex(s[2], s[3]).value], 4)
    else (['\\', s[1]], 2)
  }

  /** The left-to-right replacement as a function. */
  function Unescape(s: string, hex: HexReader): string {
    if s == "" then "" else Round(s, hex).0 + Unescape(s[Round(s, hex).1..], hex)
  }

  ghost predicate Processed(s: string, hex: HexReader, i: nat, out: string) {
    i <= |s| && |out| <= i && Unescape(s, hex) == out + Unescape(s[i..], hex)
  }

  lemma ProcessedStep(s: string, hex: HexReader, i: nat, out: string)
    requires Processed(s, hex, i, out) && i < |s|
    ensures var r := Round(s[i..], hex); Processed(s, hex, i + r.1, out + r.0)
  {
    hide Round;
    var r := Round(s[i..], hex);
    assert s[i..][r.1..] == s[i + r.1..];
    var rest := Unescape(s[i + r.1..], hex);
    assert out + (r.0 + rest) == out + r.0 + rest;
  }

  /**
   The output index never overtakes what has been read, so each round still sees the original text.
   Returns the new length.
   */
  method ProcessEscapes(input: array<char>, hex: HexReader) returns (outputLen: nat)
    modifies input
    ensures outputLen <= input.Length && input[..outputLen] == Unescape(old(input[..]), hex)
  {
    hide Processed, Unescape, Round;
    ghost var s := input[..];
    var inputIdx := 0;
    outputLen := 0;
    assert Processed(s, hex, 0, input[..0]) by { ProcessedStart(s, hex); }
    while inputIdx < input.Length
      invariant outputLen <= inputIdx <= input.Length
      invariant forall k :: inputIdx <= k < input.Length ==> input[k] == s[k]
      invariant Processed(s, hex, inputIdx, input[..outputLen])
    {
      ghost var out, start := input[..outputLen], inputIdx;
      ghost var written := "";
      RoundAt(s, start, hex);
      ProcessedStep(s, hex, start, out);
      if input[inputIdx] == '\\' && inputIdx + 1 < input.Length {
        inputIdx := inputIdx + 1;
        var simple := Simple(input[inputIdx]);
        if simple.Some? {
          input[outputLen] := simple.value;
          written := [simple.value];
          outputLen := outputLen + 1;
        } else {
          var value := None;
          if input[inputIdx] == 'x' && inputIdx + 2 < input.Length {
            value := hex(input[inputIdx + 1], input[inputIdx + 2]);
          }
          if value.Some? {
            inputIdx := inputIdx + 2;
            input[outputLen] := value.value;
            written := [value.value];
            outputLen := outputLen + 1;
          } else {
            input[outputLen] := '\\';
            input[outputLen + 1] := input[inputIdx];
            written := ['\\', s[start + 1]];
            outputLen := outputLen + 2;
          }
        }
      } else {
        input[outputLen] := input[inputIdx];
        written := [s[start]];
        outputLen := outputLen + 1;
      }
      inputIdx := inputIdx + 1;
      assert Round(s[start..], hex) == (written, inputIdx - start);
      assert input[..outputLen] == out + written;
    }
    ProcessedEnd(s, hex, input[..outputLen]);
  }

  lemma RoundAt(s: string, i: nat, hex: HexReader)
    requires i < |s|
    ensures Round(s[i..], hex) ==
      if s[i] != '\\' || i + 1 == |s| then ([s[i]], 1)
      else if Simple(s[i + 1]).Some? then ([Simple(s[i + 1]).value], 2)
      else if s[i + 1] == 'x' && i + 3 < |s| && hex(s[i + 2], s[i + 3]).Some? then ([hex(s[i + 2], s[i + 3]).value], 4)
      else (['\\', s[i + 1]], 2)
  {
  }

  lemma ProcessedStart(s: string, hex: HexReader)
    ensures Processed(s, hex, 0, [])
  {
    assert s[0..] == s;
  }

  lemma ProcessedEnd(s: string, hex: HexReader, out: string)
    requires Processed(s, hex, |s|, out)
    ensures Unescape(s, hex) == out
  {
    assert s[|s|..] == "";
  }

  // ---- Escaping ----

  /** Newline, carriage return, tab, both quotes and the backslash written with a backslash. */
  function EscapeChar(c: char): string {
    if c == '\n' then "\\n"
    else if c == '\r' then "\\r"
    else if c == '\t' then "\\t"
    else if c == '\'' || c == '\"' || c == '\\' then ['\\', c]
    else [c]
  }

  function Escape(s: string): string {
    if s == "" then "" else EscapeChar(s[0]) + Escape(s[1..])
  }

  /** Processing undoes escaping, for every string and however `\x` is read. */
  lemma {:induction false} UnescapeEscape(s: string, hex: HexReader)
    ensures Unescape(Escape(s), hex) == s
  {
    if s != "" {
      var e, rest := EscapeChar(s[0]), Escape(s[1..]);
      UnescapeEscape(s[1..], hex);
      EscapeCharRound(s[0], rest, hex);
      hide Round, EscapeChar;
      assert (e + rest)[|e|..] == rest;
      assert [s[0]] + s[1..] == s;
    }
  }

  lemma EscapeCharRound(c: char, rest: string, hex: HexReader)
    ensures EscapeChar(c) != "" && Round(EscapeChar(c) + rest, hex) == ([c], |EscapeChar(c)|)
  {
    RoundAt(EscapeChar(c) + rest, 0, hex);
    assert (EscapeChar(c) + rest)[0..] == EscapeChar(c) + rest;
    hide Round;
  }

  /** Text without a backslash is not touched. */
  lemma {:induction false} UnescapePlain(s: string, hex: HexReader)
    requires '\\' !in s
    ensures Unescape(s, hex) == s
  {
    if s != "" {
      UnescapePlain(s[1..], hex);
      assert [s[0]] + s[1..] == s;
    }
  }

  // ---- The escapes ----

  /** What every kind of escape is replaced with, whatever follows it. */
  lemma EscapesReplaced(c: char, s: string, hex: HexReader)
    ensures Unescape(['\\', c] + s, hex) ==
      if c == 'n' then "\n" + Unescape(s, hex)
      else if c == 'r' then "\r" + Unescape(s, hex)
      else if c == 't' then "\t" + Unescape(s, hex)
      else if c == '\'' || c == '\"' || c == '\\' then [c] + Unescape(s, hex)
      else if c == 'x' && |s| >= 2 && hex(s[0], s[1]).Some? then [hex(s[0], s[1]).value] + Unescape(s[2..], hex)
      else ['\\', c] + Unescape(s, hex)
    ensures c != '\\' ==> Unescape([c] + s, hex) == [c] + Unescape(s, hex)
    ensures Unescape("\\", hex) == "\\"
  {
    var t := ['\\', c] + s;
    RoundAt(t, 0, hex);
    assert t[0..] == t && t[2..] == s && ([c] + s)[1..] == s;
    assert |s| >= 2 ==> t[4..] == s[2..] && t[2] == s[0] && t[3] == s[1];
    assert "\\"[1..] == "" && "\\" + "" == "\\";
  }
}
