/** A row of comma-separated fields, some of them quoted (`parse_csv_row`). */
module CsvRow {

  /** What the loop holds between two characters. */
  datatype State = State(fields: seq<string>, field: string, inQuotes: bool)

  /** The fields when `s` is left to read; the last field is added at the end. */
  function ParseFrom(s: string, st: State): seq<string>
    decreases |s|
  {
    if s == "" then st.fields + [st.field]
    else if s[0] == '"' then
      if !st.inQuotes then
        ParseFrom(s[1..], if st.field != "" then st.(field := st.field + "\"") else st.(inQuotes := true))
      else if |s| > 1 && s[1] == '"' then ParseFrom(s[2..], st.(field := st.field + "\""))
      else ParseFrom(s[1..], st.(inQuotes := false))
    else if s[0] == ',' && !st.inQuotes then ParseFrom(s[1..], State(st.fields + [st.field], "", false))
    else ParseFrom(s[1..], st.(field := st.field + [s[0]]))
  }

  function Parsed(s: string): seq<string> {
    ParseFrom(s, State([], "", false))
  }

  method ParseCsvRow(input: string) returns (fields: seq<string>)
    ensures fields == Parsed(input)
  {
    fields := [];
    var field := "";
    var inQuotes := false;
    var i := 0;
    assert input[0..] == input;
    while i < |input|
      invariant i <= |input| && ParseFrom(input[i..], State(fields, field, inQuotes)) == Parsed(input)
    {
      var ch := input[i];
      assert input[i..][1..] == input[i + 1..];
      if ch == '"' {
        if !inQuotes {
          if field != "" {
            field := field + "\"";
          } else {
            inQuotes := true;
          }
        } else {
          if i + 1 < |input| && input[i + 1] == '"' {
            assert input[i..][2..] == input[i + 2..];
            field := field + "\"";
            i := i + 1;
          } else {
            inQuotes := false;
          }
        }
      } else if ch == ',' {
        if inQuotes {
          field := field + ",";
        } else {
          fields := fields + [field];
          field := "";
        }
      } else {
        field := field + [ch];
      }
      i := i + 1;
    }
    assert input[i..] == "";
    fields := fields + [field];
  }

  // ---- Writing ----

  function Doubled(s: string): string {
    if s == "" then "" else (if s[0] == '"' then "\"\"" else [s[0]]) + Doubled(s[1..])
  }

  /** Fields that have no comma and do not begin with a quote may be written bare. */
  predicate IsBare(s: string) {
    ',' !in s && (s == "" || s[0] != '"')
  }

  function Written(s: string, quoted: bool): string {
    if quoted then "\"" + Doubled(s) + "\"" else s
  }

  /** The fields joined with commas, each written quoted or bare. */
  function Joined(fields: seq<string>, quoted: seq<bool>): string
    requires fields != [] && |fields| == |quoted|
    decreases |fields|
  {
    if |fields| == 1 then Written(fields[0], quoted[0])
    else Written(fields[0], quoted[0]) + "," + Joined(fields[1..], quoted[1..])
  }

  /** One character inside quotes, written double if it is a quote. */
  lemma DoubledStep(c: char, r: string, st: State)
    requires st.inQuotes
    ensures ParseFrom((if c == '"' then "\"\"" else [c]) + r, st) == ParseFrom(r, st.(field := st.field + [c]))
  {
    var t := (if c == '"' then "\"\"" else [c]) + r;
    assert if c == '"' then t[2..] == r else t[1..] == r;
  }

  lemma {:induction false} ReadDoubled(s: string, r: string, st: State)
    requires st.inQuotes && (r == "" || r[0] != '"')
    ensures ParseFrom(Doubled(s) + "\"" + r, st) == ParseFrom(r, st.(field := st.field + s, inQuotes := false))
    decreases |s|
  {
    var t := Doubled(s) + "\"" + r;
    if s == "" {
      assert t == "\"" + r && t[1..] == r && st.field + s == st.field;
    } else {
      var c := if s[0] == '"' then "\"\"" else [s[0]];
      var rest := Doubled(s[1..]) + "\"" + r;
      assert t == c + rest;
      var st1 := st.(field := st.field + [s[0]]);
      DoubledStep(s[0], rest, st);
      ReadDoubled(s[1..], r, st1);
      assert st.field + [s[0]] + s[1..] == st.field + s;
    }
  }

  /** Outside quotes everything but a comma is taken as it is, a quote too if the field has begun. */
  lemma {:induction false} ReadBare(s: string, r: string, st: State)
    requires !st.inQuotes && ',' !in s && (s != "" && s[0] == '"' ==> st.field != "")
    ensures ParseFrom(s + r, st) == ParseFrom(r, st.(field := st.field + s))
    decreases |s|
  {
    if s == "" {
      assert s + r == r && st.field + s == st.field;
    } else {
      assert (s + r)[1..] == s[1..] + r;
      ReadBare(s[1..], r, st.(field := st.field + [s[0]]));
      assert st.field + [s[0]] + s[1..] == st.field + s;
    }
  }

  lemma ReadWritten(s: string, quoted: bool, r: string, fields: seq<string>)
    requires quoted || IsBare(s)
    requires r == "" || r[0] == ','
    ensures ParseFrom(Written(s, quoted) + r, State(fields, "", false)) == ParseFrom(r, State(fields, s, false))
  {
    if quoted {
      var t := Written(s, quoted) + r;
      assert t[1..] == Doubled(s) + "\"" + r;
      ReadDoubled(s, r, State(fields, "", true));
      assert "" + s == s;
    } else {
      ReadBare(s, r, State(fields, "", false));
      assert "" + s == s;
    }
  }

  /** Parsing undoes writing, for every non-empty list of fields and every way of quoting them that is allowed. */
  lemma {:induction false} ParseJoined(fields: seq<string>, quoted: seq<bool>, before: seq<string>)
    requires fields != [] && |fields| == |quoted|
    requires forall k :: 0 <= k < |fields| ==> quoted[k] || IsBare(fields[k])
    ensures ParseFrom(Joined(fields, quoted), State(before, "", false)) == before + fields
    decreases |fields|
  {
    hide IsBare, Written;
    if |fields| == 1 {
      assert Written(fields[0], quoted[0]) + "" == Written(fields[0], quoted[0]);
      ReadWritten(fields[0], quoted[0], "", before);
      assert fields == [fields[0]];
    } else {
      var rest := Joined(fields[1..], quoted[1..]);
      assert Joined(fields, quoted) == Written(fields[0], quoted[0]) + ("," + rest);
      ReadWritten(fields[0], quoted[0], "," + rest, before);
      assert ("," + rest)[1..] == rest;
      ParseJoined(fields[1..], quoted[1..], before + [fields[0]]);
      assert before + [fields[0]] + fields[1..] == before + fields;
    }
  }

  /** What follows the closing quote belongs to the field, up to the next comma. */
  lemma TextAfterQuotes(s: string, t: string)
    requires IsBare(t)
    ensures Parsed("\"" + Doubled(s) + "\"" + t) == [s + t]
  {
    var u := "\"" + Doubled(s) + "\"" + t;
    assert u[1..] == Doubled(s) + "\"" + t && t + "" == t && "" + s == s;
    ReadDoubled(s, t, State([], "", true));
    ReadBare(t, "", State([], s, false));
    assert [] + [s + t] == [s + t];
  }

  /** A field whose closing quote is missing reaches to the end, commas included. */
  lemma UnclosedQuotes(s: string)
    ensures Parsed("\"" + Doubled(s)) == [s]
  {
    assert ("\"" + Doubled(s))[1..] == Doubled(s) && "" + s == s;
    ReadUnclosed(s, State([], "", true));
    assert [] + [s] == [s];
  }

  lemma {:induction false} ReadUnclosed(s: string, st: State)
    requires st.inQuotes
    ensures ParseFrom(Doubled(s), st) == st.fields + [st.field + s]
    decreases |s|
  {
    if s == "" {
      assert st.field + s == st.field;
    } else {
      var c := if s[0] == '"' then "\"\"" else [s[0]];
      var t := Doubled(s);
      assert t == c + Doubled(s[1..]);
      DoubledStep(s[0], Doubled(s[1..]), st);
      ReadUnclosed(s[1..], st.(field := st.field + [s[0]]));
      assert st.field + [s[0]] + s[1..] == st.field + s;
    }
  }

  lemma RoundTrip(fields: seq<string>, quoted: seq<bool>)
    requires fields != [] && |fields| == |quoted|
    requires forall k :: 0 <= k < |fields| ==> quoted[k] || IsBare(fields[k])
    ensures Parsed(Joined(fields, quoted)) == fields
  {
    ParseJoined(fields, quoted, []);
    assert [] + fields == fields;
  }
}
