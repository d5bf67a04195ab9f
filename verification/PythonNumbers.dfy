/** The numbers of Python, and which of them JSON has. */
module PythonNumbers {
  import opened Text
  import opened Json
  import opened JsonValues

  predicate IsDigitOf(c: char, base: nat) {
    HexValue(c).Some? && HexValue(c).value < base
  }

  /** How far digits go on, each of them with an underscore before it or not. */
  function RunLen(s: string, base: nat): (n: nat)
    ensures n <= |s|
  {
    if s != "" && IsDigitOf(s[0], base) then 1 + RunLen(s[1..], base)
    else if |s| > 1 && s[0] == '_' && IsDigitOf(s[1], base) then 2 + RunLen(s[2..], base)
    else 0
  }

  function PartLen(s: string): (n: nat)
    ensures n <= |s|
  {
    if s != "" && s[0] == '_' then 0 else RunLen(s, 10)
  }

  function Unsigned(t: string): (u: string)
    ensures |u| <= |t| && u == t[|t| - |u|..]
    ensures forall k :: 0 <= k < |t| - |u| ==> t[k] == '+' || t[k] == '-'
  {
    if t != "" && (t[0] == '+' || t[0] == '-') then Unsigned(t[1..]) else t
  }

  /** A number with the signs before it (sections 2.4.5 to 2.4.7 of the Python language reference). */
  predicate IsPyNumber(t: string) {
    IsRadix(Unsigned(t)) || IsDecimal(Unsigned(t))
  }

  function BaseOf(c: char): Option<nat> {
    if c == 'x' || c == 'X' then Some(16)
    else if c == 'o' || c == 'O' then Some(8)
    else if c == 'b' || c == 'B' then Some(2)
    else None
  }

  predicate IsRadix(u: string) {
    |u| > 2 && u[0] == '0' && BaseOf(u[1]).Some? && RunLen(u[2..], BaseOf(u[1]).value) == |u| - 2
  }

  /** An integer has no leading zero unless it is zero; of a fraction, one side of the point is enough. */
  predicate IsDecimal(u: string) {
    var n := PartLen(u);
    var t := u[n..];
    if t == "" then n > 0 && (u[0] == '0' ==> forall k :: 0 <= k < n ==> u[k] == '0' || u[k] == '_')
    else if t[0] == '.' then
      var m := PartLen(t[1..]);
      n + m > 0 && IsPyExponent(t[1 + m..])
    else n > 0 && IsPyExponent(t)
  }

  predicate IsImaginary(t: string) {
    t == "j" || t == "J"
  }

  /** An optional exponent and an optional mark of an imaginary number. */
  predicate IsPyExponent(t: string) {
    if t != "" && (t[0] == 'e' || t[0] == 'E') then
      var u := WithoutSign(t[1..]);
      var n := PartLen(u);
      n > 0 && (u[n..] == "" || IsImaginary(u[n..]))
    else t == "" || IsImaginary(t)
  }

  // ---- Characters ----

  predicate IsDecimalChar(c: char) {
    IsDigit(c) || c in "_.+-eEjJ"
  }

  predicate AllDecimal(s: string) {
    forall k :: 0 <= k < |s| ==> IsDecimalChar(s[k])
  }

  predicate AllWord(s: string) {
    forall k :: 0 <= k < |s| ==> IsWordChar(s[k])
  }

  lemma {:induction false} RunChars(s: string, base: nat)
    ensures forall k :: 0 <= k < RunLen(s, base) ==> IsWordChar(s[k]) && (base <= 10 ==> IsDecimalChar(s[k]))
  {
    if s != "" && IsDigitOf(s[0], base) {
      RunChars(s[1..], base);
    } else if |s| > 1 && s[0] == '_' && IsDigitOf(s[1], base) {
      RunChars(s[2..], base);
    }
  }

  lemma PartChars(s: string)
    ensures AllDecimal(s[..PartLen(s)])
  {
    RunChars(s, 10);
  }

  lemma AllDecimalJoin(s: string, n: nat)
    requires n <= |s| && AllDecimal(s[..n]) && AllDecimal(s[n..])
    ensures AllDecimal(s)
  {
    forall k | 0 <= k < |s| ensures IsDecimalChar(s[k]) {
      assert s[k] == if k < n then s[..n][k] else s[n..][k - n];
    }
  }

  lemma ExponentChars(t: string)
    requires IsPyExponent(t)
    ensures AllDecimal(t)
  {
    hide IsDecimalChar, PartLen;
    MarkChars();
    if t != "" && (t[0] == 'e' || t[0] == 'E') {
      var u := WithoutSign(t[1..]);
      PartChars(u);
      AllDecimalJoin(u, PartLen(u));
      AllDecimalJoin(t[1..], |t| - 1 - |u|);
      AllDecimalJoin(t, 1);
    }
  }

  lemma MarkChars()
    ensures forall c: char :: c in "eEjJ+-." ==> IsDecimalChar(c)
  {
  }

  lemma DecimalChars(u: string)
    requires IsDecimal(u)
    ensures AllDecimal(u) && u != ""
  {
    hide IsDecimalChar, PartLen, IsPyExponent;
    MarkChars();
    var n := PartLen(u);
    var t := u[n..];
    PartChars(u);
    if t != "" && t[0] == '.' {
      var m := PartLen(t[1..]);
      PartChars(t[1..]);
      assert t[1..][m..] == t[1 + m..];
      ExponentChars(t[1 + m..]);
      AllDecimalJoin(t[1..], m);
      AllDecimalJoin(t, 1);
    } else if t != "" {
      ExponentChars(t);
    }
    AllDecimalJoin(u, n);
  }

  /** How far a number has no letters beyond those of a decimal one. */
  function DecimalLen(t: string): (n: nat)
    ensures n <= |t|
  {
    var u := Unsigned(t);
    if IsRadix(u) then |t| - |u| + 1 else |t|
  }

  /** The characters of a number: those of a decimal one, and behind a leading zero a word. */
  lemma NumberChars(t: string)
    requires IsPyNumber(t)
    ensures var n := DecimalLen(t);
      && 0 < n && AllDecimal(t[..n])
      && AllWord(t[n..])
      && (n < |t| ==> t[n - 1] == '0')
  {
    hide IsDecimal, IsRadix, IsDecimalChar, IsWordChar;
    var u := Unsigned(t);
    var n := |t| - |u|;
    MarkChars();
    if IsRadix(u) {
      RadixChars(u);
      AllDecimalJoin(t[..n + 1], n);
      assert t[..n + 1][n..] == u[..1] && t[..n + 1][..n] == t[..n];
      assert t[n + 1..] == u[1..];
    } else {
      DecimalChars(u);
      AllDecimalJoin(t, n);
      assert t[..|t|] == t && t[|t|..] == "";
    }
  }

  lemma RadixChars(u: string)
    requires IsRadix(u)
    ensures u != "" && u[0] == '0' && AllDecimal(u[..1]) && AllWord(u[1..])
  {
    RunChars(u[2..], BaseOf(u[1]).value);
    forall k | 0 <= k < |u| - 1 ensures IsWordChar(u[1..][k]) {
      assert u[1..][k] == if k == 0 then u[1] else u[2..][k - 1];
    }
  }

  // ---- JSON's numbers are among them ----

  lemma {:induction false} DigitsRun(s: string)
    requires DigitsLen(s) < |s| ==> s[DigitsLen(s)] != '_'
    ensures PartLen(s) == DigitsLen(s)
  {
    if s != "" && IsDigit(s[0]) {
      DigitsRun(s[1..]);
    }
  }

  lemma {:induction false} DigitsLenStops(s: string)
    ensures forall k :: 0 <= k < DigitsLen(s) ==> IsDigit(s[k])
    ensures DigitsLen(s) < |s| ==> !IsDigit(s[DigitsLen(s)])
  {
    if s != "" && IsDigit(s[0]) {
      DigitsLenStops(s[1..]);
    }
  }

  lemma JsonExponentIsPython(t: string)
    requires IsJsonExponent(t)
    ensures IsPyExponent(t)
  {
    if t != "" {
      DigitsRun(WithoutSign(t[1..]));
    }
  }

  /** Every number of JSON is one of Python. */
  lemma JsonNumberIsPython(t: string)
    requires IsJsonNumber(t)
    ensures IsPyNumber(t)
  {
    hide IsJsonFraction, IsDecimal;
    var u := if t[0] == '-' then t[1..] else t;
    DigitsLenStops(u);
    assert IsDigit(u[0]);
    assert Unsigned(t) == u;
    JsonIsDecimal(u);
  }

  lemma JsonIsDecimal(u: string)
    requires DigitsLen(u) > 0 && (u[0] == '0' ==> DigitsLen(u) == 1) && IsJsonFraction(u[DigitsLen(u)..])
    ensures IsDecimal(u)
  {
    hide IsJsonFraction, IsPyExponent, PartLen, DigitsLen;
    var t := u[DigitsLen(u)..];
    TailBegins(t);
    DigitsRun(u);
    if t != "" {
      TailIsPython(t);
    }
  }

  lemma TailBegins(t: string)
    requires IsJsonFraction(t)
    ensures t == "" || t[0] == '.' || t[0] == 'e' || t[0] == 'E'
  {
  }

  lemma TailIsPython(t: string)
    requires IsJsonFraction(t) && t != ""
    ensures if t[0] == '.' then IsPyExponent(t[1 + PartLen(t[1..])..]) else IsPyExponent(t)
  {
    hide IsJsonExponent, IsPyExponent, PartLen, DigitsLen;
    if t[0] == '.' {
      var m := DigitsLen(t[1..]);
      assert t[1..][m..] == t[1 + m..];
      ExponentBegins(t[1 + m..]);
      DigitsRun(t[1..]);
      JsonExponentIsPython(t[1 + m..]);
    } else {
      JsonExponentIsPython(t);
    }
  }

  lemma ExponentBegins(t: string)
    requires IsJsonExponent(t)
    ensures t != "" ==> t[0] == 'e' || t[0] == 'E'
  {
  }

  /** A number with nothing before its point is one of Python and none of JSON. */
  lemma PointFirst()
    ensures IsPyNumber(".5") && !IsJsonNumber(".5")
  {
    assert ".5"[1..] == "5" && "5"[1..] == "";
    assert RunLen("5", 10) == 1;
    assert PartLen("5") == 1;
    assert PartLen(".5") == 0;
    assert Unsigned(".5") == ".5";
    assert ".5"[0..] == ".5" && ".5"[2..] == "";
    assert DigitsLen(".5") == 0;
  }
}
