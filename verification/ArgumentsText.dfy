/** Reading back the arguments text of a call: a JSON object whose member values are kept as text. */
module ArgumentsText {
  import opened Text
  import opened Json

  datatype Member = Member(key: Codes, text: string)

  /** Where the string body at the front of `s` ends. */
  function BodyEnd(s: string): (n: nat)
    ensures n <= |s|
  {
    if s == "" || s[0] == '"' then 0
    else if s[0] == '\\' then (if |s| == 1 then 1 else 2 + BodyEnd(s[2..]))
    else 1 + BodyEnd(s[1..])
  }

  /** Where the value at the front of `s` ends: at a comma or closing bracket that belongs to what is around it. */
  function ValueEnd(s: string, depth: nat, inString: bool): (n: nat)
    ensures n <= |s|
  {
    if s == "" then 0
    else if inString then
      if s[0] == '\\' then (if |s| == 1 then 1 else 2 + ValueEnd(s[2..], depth, true))
      else 1 + ValueEnd(s[1..], depth, s[0] != '"')
    else if s[0] == '{' || s[0] == '[' then 1 + ValueEnd(s[1..], depth + 1, false)
    else if s[0] == '}' || s[0] == ']' then (if depth == 0 then 0 else 1 + ValueEnd(s[1..], depth - 1, false))
    else if s[0] == ',' && depth == 0 then 0
    else 1 + ValueEnd(s[1..], depth, s[0] == '"')
  }

  function ReadMembers(s: string): Option<seq<Member>>
    decreases |s|
  {
    if s == "" || s[0] != '"' then None else
    var k := BodyEnd(s[1..]);
    var key := ReadBody(s[1..][..k]);
    var rest := s[1..][k..];
    if key.None? || |rest| < 2 || rest[1] != ':' then None else
    var v := ValueEnd(rest[2..], 0, false);
    var after := rest[2..][v..];
    var m := Member(key.value, rest[2..][..v]);
    if after == "}" then Some([m])
    else if after == "" || after[0] != ',' then None
    else match ReadMembers(after[1..])
      case None => None
      case Some(ms) => Some([m] + ms)
  }

  /** The members of a JSON object text, in order. */
  function ReadObject(s: string): Option<seq<Member>> {
    if s == "{}" then Some([]) else if s == "" || s[0] != '{' then None else ReadMembers(s[1..])
  }

  /** The brackets nest and nothing outside them separates values; `closers` are still to come. */
  predicate Balanced(st: string, closers: string) {
    if st == "" then closers == ""
    else if st[0] == '{' then Balanced(st[1..], "}" + closers)
    else if st[0] == '[' then Balanced(st[1..], "]" + closers)
    else if st[0] == '}' || st[0] == ']' then closers != "" && closers[0] == st[0] && Balanced(st[1..], closers[1..])
    else closers != "" && Balanced(st[1..], closers)
  }

  /** A text that is one value for the reader: all its strings and brackets are closed. */
  predicate IsValue(text: string) {
    text != "" && !OpenString(text, false) && Balanced(Structure(text, false), "")
  }

  // ---- Structure of concatenations ----

  lemma {:induction false} StructureAppend(a: string, b: string, inString: bool)
    requires !OpenString(a, inString)
    ensures Structure(a + b, inString) == Structure(a, inString) + Structure(b, false)
    ensures OpenString(a + b, inString) == OpenString(b, false)
  {
    if a == "" {
      assert a + b == b;
    } else {
      assert (a + b)[1..] == a[1..] + b;
      if inString && a[0] == '\\' {
        assert (a + b)[2..] == a[2..] + b;
        StructureAppend(a[2..], b, true);
      } else {
        StructureAppend(a[1..], b, if inString then a[0] != '"' else a[0] == '"');
      }
    }
  }

  lemma {:induction false} BracesAppend(a: string, b: string)
    ensures Braces(a + b) == Braces(a) + Braces(b)
  {
    if a == "" {
      assert a + b == b;
    } else {
      assert (a + b)[1..] == a[1..] + b;
      BracesAppend(a[1..], b);
    }
  }

  lemma {:induction false} BalancedBraces(st: string, closers: string)
    requires Balanced(st, closers)
    ensures Braces(st) == Braces(closers)
  {
    if st != "" {
      if st[0] == '{' {
        BalancedBraces(st[1..], "}" + closers);
        assert ("}" + closers)[1..] == closers;
      } else if st[0] == '[' {
        BalancedBraces(st[1..], "]" + closers);
        assert ("]" + closers)[1..] == closers;
      } else if st[0] == '}' || st[0] == ']' {
        BalancedBraces(st[1..], closers[1..]);
      } else {
        BalancedBraces(st[1..], closers);
      }
    }
  }

  // ---- Finding the ends ----

  /** A string scan passes over `e` without leaving the string. */
  ghost predicate Skips(e: string, r: string) {
    && BodyEnd(e + r) == |e| + BodyEnd(r)
    && (forall depth: nat :: ValueEnd(e + r, depth, true) == |e| + ValueEnd(r, depth, true))
    && Structure(e + r, true) == Structure(r, true)
    && OpenString(e + r, true) == OpenString(r, true)
  }

  lemma SkipsPlain(c: char, r: string)
    requires c != '"' && c != '\\'
    ensures Skips([c], r)
  {
    assert ([c] + r)[1..] == r;
  }

  lemma SkipsPair(c: char, r: string)
    ensures Skips(['\\', c], r)
  {
    assert (['\\', c] + r)[2..] == r;
  }

  lemma SkipsJoin(d: string, e: string, r: string)
    requires Skips(d, e + r) && Skips(e, r)
    ensures Skips(d + e, r)
  {
    assert d + (e + r) == d + e + r;
  }

  lemma {:induction false} SkipsWord(w: string, r: string)
    requires forall k :: 0 <= k < |w| ==> w[k] != '"' && w[k] != '\\'
    ensures Skips(w, r)
  {
    if w == "" {
      assert w + r == r;
    } else {
      SkipsPlain(w[0], w[1..] + r);
      SkipsWord(w[1..], r);
      SkipsJoin([w[0]], w[1..], r);
      assert [w[0]] + w[1..] == w;
    }
  }

  lemma EscapeCharShape(c: char)
    ensures var e := EscapeChar(c);
      || (|e| == 1 && e[0] != '"' && e[0] != '\\')
      || (|e| == 2 && e[0] == '\\')
      || (|e| == 6 && e[0] == '\\' && forall k :: 2 <= k < 6 ==> e[k] != '"' && e[k] != '\\')
  {
  }

  lemma SkipsChar(c: char, r: string)
    ensures Skips(EscapeChar(c), r)
  {
    EscapeCharShape(c);
    hide Skips, EscapeChar;
    var e := EscapeChar(c);
    if |e| == 1 {
      SkipsPlain(e[0], r);
      assert e == [e[0]];
    } else {
      SkipsPair(e[1], e[2..] + r);
      SkipsWord(e[2..], r);
      SkipsJoin(['\\', e[1]], e[2..], r);
      assert e == ['\\', e[1]] + e[2..];
    }
  }

  lemma {:induction false} SkipsEscaped(t: string, r: string)
    ensures Skips(Escape(t), r)
  {
    if t == "" {
      SkipsWord("", r);
    } else {
      hide Skips;
      SkipsChar(t[0], Escape(t[1..]) + r);
      SkipsEscaped(t[1..], r);
      SkipsJoin(EscapeChar(t[0]), Escape(t[1..]), r);
    }
  }

  /** A quoted, escaped text is one closed string: it has no structure, and scans end after it. */
  lemma QuotedText(t: string, r: string)
    ensures BodyEnd(Escape(t) + "\"" + r) == |Escape(t)|
    ensures ValueEnd("\"" + Escape(t) + "\"" + r, 0, false) == |Escape(t)| + 2 + ValueEnd(r, 0, false)
    ensures Structure("\"" + Escape(t) + "\"", false) == "" && !OpenString("\"" + Escape(t) + "\"", false)
  {
    hide Escape;
    var e := Escape(t);
    SkipsEscaped(t, "\"" + r);
    SkipsEscaped(t, "\"");
    assert e + "\"" + r == e + ("\"" + r);
    assert ("\"" + e + "\"" + r)[1..] == e + ("\"" + r);
    assert ("\"" + r)[1..] == r;
    assert ("\"" + e + "\"")[1..] == e + "\"";
    assert "\""[1..] == "";
  }

  /** The end of a closed value is found whatever follows it. */
  lemma {:induction false} ValueEndFound(v: string, inString: bool, closers: string, r: string)
    requires !OpenString(v, inString) && Balanced(Structure(v, inString), closers)
    requires r != "" && (r[0] == ',' || r[0] == '}')
    ensures ValueEnd(v + r, |closers|, inString) == |v|
  {
    if v == "" {
      assert v + r == r;
    } else {
      assert (v + r)[1..] == v[1..] + r;
      if inString {
        if v[0] == '\\' {
          assert (v + r)[2..] == v[2..] + r;
          ValueEndFound(v[2..], true, closers, r);
        } else {
          ValueEndFound(v[1..], v[0] != '"', closers, r);
        }
      } else {
        ValueEndOutside(v, closers, r);
        if v[0] == '{' { ValueEndFound(v[1..], false, "}" + closers, r); }
        else if v[0] == '[' { ValueEndFound(v[1..], false, "]" + closers, r); }
        else if v[0] == '}' || v[0] == ']' { ValueEndFound(v[1..], false, closers[1..], r); }
        else { ValueEndFound(v[1..], v[0] == '"', closers, r); }
      }
    }
  }

  /** What a closed value tells about the rest after a character outside strings. */
  lemma ValueEndOutside(v: string, closers: string, r: string)
    requires v != "" && !OpenString(v, false) && Balanced(Structure(v, false), closers)
    ensures !OpenString(v[1..], v[0] == '"')
    ensures v[0] == '{' ==> Balanced(Structure(v[1..], false), "}" + closers)
    ensures v[0] == '[' ==> Balanced(Structure(v[1..], false), "]" + closers)
    ensures v[0] == '}' || v[0] == ']' ==> closers != "" && Balanced(Structure(v[1..], false), closers[1..])
    ensures v[0] !in "{}[]" ==> Balanced(Structure(v[1..], v[0] == '"'), closers)
    ensures v[0] == ',' ==> closers != ""
  {
    if IsStructural(v[0]) {
      var st := Structure(v[1..], false);
      assert ([v[0]] + st)[1..] == st;
    }
  }
}
