/**
 Complete calls with Python values: the arguments, read as JSON, are exactly the argument names and
 the values that Python gives them.
 */
module PythonCalls {
  import opened Text
  import opened Json
  import opened Mapper
  import opened ArgumentsText
  import opened PythonStrings
  import opened JsonValues
  import opened PythonValues
  import PythonNumbers
  import Calls
  import Quotes
  import QuotesMeaning

  // ---- The translation of a value is one closed value ----

  /** Text without quotes has only its own structure. */
  lemma {:induction false} StructureOfPlain(w: string)
    requires forall k :: 0 <= k < |w| ==> w[k] != '"' && !IsStructural(w[k])
    ensures Structure(w, false) == "" && !OpenString(w, false)
  {
    if w != "" {
      StructureOfPlain(w[1..]);
    }
  }

  lemma StructureOfOne(c: char)
    requires IsStructural(c)
    ensures Structure([c], false) == [c] && !OpenString([c], false)
  {
    assert [c][1..] == "";
  }

  lemma StructureOfString(m: Quotes.Mode, body: string)
    requires GoodString(m, body)
    ensures Structure(StringText(m, body, true), false) == "" && !OpenString(StringText(m, body, true), false)
  {
    hide LiteralBody;
    var u := LiteralBody(body, m);
    BodySkips(body, m, "\"");
    assert "\"" + u + "\"" == "\"" + (u + "\"") && ("\"" + (u + "\""))[1..] == u + "\"";
    assert "\""[1..] == "";
  }

  /** A closed text whose structure can stand in front of anything inside brackets. */
  ghost predicate Fits(t: string, st: string, closers: string) {
    !OpenString(t, false) && Balanced(Structure(t, false) + st, closers)
  }

  lemma FitsPlain(t: string, st: string, closers: string)
    requires Structure(t, false) == "" && !OpenString(t, false) && Balanced(st, closers)
    ensures Fits(t, st, closers)
  {
    assert "" + st == st;
  }

  lemma FitsJoin(t: string, u: string, st: string, closers: string)
    requires !OpenString(u, false) && Fits(t, Structure(u, false) + st, closers)
    ensures Fits(t + u, st, closers)
  {
    hide Balanced;
    StructureAppend(t, u, false);
    assert Structure(t, false) + Structure(u, false) + st == Structure(t, false) + (Structure(u, false) + st);
  }

  lemma FitsWhite(w: string, st: string, closers: string)
    requires AllWhite(w) && Balanced(st, closers)
    ensures Fits(w, st, closers)
  {
    StructureOfPlain(w);
    FitsPlain(w, st, closers);
  }

  lemma FitsKey(k: Key, dict: bool, st: string, closers: string)
    requires GoodKey(k, dict) && closers != "" && Balanced(st, closers)
    ensures Fits(KeyText(k, dict, true), st, closers)
  {
    hide Fits, Balanced, Structure, StringText;
    match k {
      case NoKey =>
        FitsWhite("", st, closers);
      case Key(m, body, before, after) =>
        var s := StringText(m, body, true);
        StructureOfPlain(after);
        StructureOfPlain(before);
        StructureOfOne(':');
        StructureOfString(m, body);
        Chain(before, after, s, st, closers);
    }
  }

  lemma Chain(before: string, after: string, s: string, st: string, closers: string)
    requires AllWhite(before) && AllWhite(after) && closers != "" && Balanced(st, closers)
    requires Structure(s, false) == "" && !OpenString(s, false)
    ensures Fits(s + (before + ":" + after), st, closers)
  {
    hide Balanced;
    StructureOfPlain(before);
    StructureOfPlain(after);
    StructureOfOne(':');
    StructureAppend(before, ":", false);
    StructureAppend(before + ":", after, false);
    StructureAppend(s, before + ":" + after, false);
    Calls.Separated(':', st, closers);
    assert Structure(s + (before + ":" + after), false) + st == ":" + st;
  }

  lemma {:induction false} FitsLiteral(v: Literal, st: string, closers: string)
    requires GoodLiteral(v) && Balanced(st, closers)
    ensures Fits(LiteralText(v, true), st, closers)
    decreases v
  {
    hide Fits, Balanced, ItemsText, StringText, PythonNumbers.IsPyNumber;
    match v {
      case StringLit(m, body) =>
        StructureOfString(m, body);
        FitsPlain(LiteralText(v, true), st, closers);
      case GroupLit(dict, pad, items) =>
        InBrackets(dict, st, closers);
        FitsItems(items, dict, [CloserOf(dict)] + st, [CloserOf(dict)] + closers);
        FitsGroup(dict, pad, ItemsText(items, dict, true), st, closers);
      case _ =>
        IsToken(v);
        hide LiteralText;
        StructureOfPlain(LiteralText(v, true));
        FitsPlain(LiteralText(v, true), st, closers);
    }
  }

  lemma IsToken(v: Literal)
    requires GoodLiteral(v) && !v.StringLit? && !v.GroupLit?
    ensures AllToken(LiteralText(v, true))
  {
    hide PythonNumbers.IsPyNumber;
    match v {
      case NumberLit(text) => NumberIsToken(text);
      case _ =>
    }
  }

  lemma InBrackets(dict: bool, st: string, closers: string)
    requires Balanced(st, closers)
    ensures var c := [CloserOf(dict)]; Balanced(c + st, c + closers)
  {
    var c := [CloserOf(dict)];
    assert (c + st)[1..] == st && (c + closers)[1..] == closers;
  }

  lemma FitsGroup(dict: bool, pad: string, t: string, st: string, closers: string)
    requires AllWhite(pad) && Fits(t, [CloserOf(dict)] + st, [CloserOf(dict)] + closers)
    ensures Fits([OpenerOf(dict)] + pad + t + [CloserOf(dict)], st, closers)
  {
    var o, c, s := [OpenerOf(dict)], [CloserOf(dict)], Structure(t, false);
    StructureOfOne(OpenerOf(dict));
    StructureOfOne(CloserOf(dict));
    StructureOfPlain(pad);
    StructureAppend(o, pad, false);
    StructureAppend(o + pad, t, false);
    StructureAppend(o + pad + t, c, false);
    hide Structure, OpenString;
    var whole := o + (s + (c + st));
    assert Structure(o + pad + t + c, false) + st == whole;
    assert whole[1..] == s + (c + st);
    assert Balanced(whole, closers);
  }

  lemma {:induction false} FitsItems(xs: Items, dict: bool, st: string, closers: string)
    requires GoodItems(xs, dict) && closers != "" && Balanced(st, closers)
    ensures Fits(ItemsText(xs, dict, true), st, closers)
    decreases xs
  {
    hide Fits, Balanced, KeyText, LiteralText, Separator, Structure, OpenString;
    match xs {
      case End =>
        FitsWhite("", st, closers);
      case More(key, value, after, before, rest) =>
        var k, v, w, t :=
          KeyText(key, dict, true), LiteralText(value, true), Separator(after, before, rest),
          ItemsText(rest, dict, true);
        FitsItems(rest, dict, st, closers);
        FitsSeparator(after, before, rest, t, st, closers);
        FitsLiteral(value, Structure(w + t, false) + st, closers);
        Closed(w + t, st, closers);
        FitsJoin(v, w + t, st, closers);
        Closed(v + (w + t), st, closers);
        FitsKey(key, dict, Structure(v + (w + t), false) + st, closers);
        FitsJoin(k, v + (w + t), st, closers);
        ItemsUnfold(xs, dict);
        hide ItemsText;
        assert k + (v + (w + t)) == k + v + (w + t);
    }
  }

  lemma ItemsUnfold(xs: Items, dict: bool)
    requires GoodItems(xs, dict) && xs.More?
    ensures ItemsText(xs, dict, true) ==
      KeyText(xs.key, dict, true) + LiteralText(xs.value, true) +
        (Separator(xs.after, xs.before, xs.rest) + ItemsText(xs.rest, dict, true))
  {
    hide KeyText, LiteralText;
  }

  lemma Closed(t: string, st: string, closers: string)
    requires Fits(t, st, closers)
    ensures !OpenString(t, false) && Balanced(Structure(t, false) + st, closers)
  {
  }

  lemma FitsSeparator(after: string, before: string, rest: Items, t: string, st: string, closers: string)
    requires AllWhite(after) && AllWhite(before) && closers != "" && Fits(t, st, closers)
    ensures Fits(Separator(after, before, rest) + t, st, closers)
      && Balanced(Structure(Separator(after, before, rest) + t, false) + st, closers)
  {
    hide Balanced;
    var s := Structure(t, false) + st;
    StructureOfPlain(after);
    StructureOfPlain(before);
    StructureOfOne(',');
    StructureAppend(",", before, false);
    StructureAppend(after, if rest.End? then "" else "," + before, false);
    StructureAppend(Separator(after, before, rest), t, false);
    Calls.Separated(',', s, closers);
    assert rest.End? ==> Structure(Separator(after, before, rest) + t, false) + st == s;
    assert !rest.End? ==> Structure(Separator(after, before, rest) + t, false) + st == "," + s;
  }

  /** A Python value is what the arguments theorem asks of raw values. */
  lemma LiteralIsRaw(v: Literal)
    requires GoodLiteral(v)
    ensures Calls.IsRawValue(LiteralText(v, false))
  {
    hide LiteralText, Quotes.Rest, Structure, OpenString;
    var py, js := LiteralText(v, false), LiteralText(v, true);
    Translates(v, "");
    NothingLeft();
    assert py + "" == py && js + "" == js;
    QuotesMeaning.NormalizedStructure(py);
    NothingOpen();
    FitsLiteral(v, "", "");
    LiteralBegins(v, "");
    assert Structure(js, false) + "" == Structure(js, false);
    assert py != "" by { NotEmpty(v); }
  }

  lemma NothingOpen()
    ensures Balanced("", "")
  {
  }

  lemma NotEmpty(v: Literal)
    requires GoodLiteral(v)
    ensures LiteralText(v, false) != ""
  {
  }

  // ---- Arguments ----

  /** An argument of a declared string type, whose text is the string, or a Python value. */
  datatype PyValue = Plain(text: string) | Python(literal: Literal)

  datatype PyArg = PyArg(name: string, value: PyValue)

  predicate GoodArgs(args: seq<PyArg>, names: NameTable) {
    forall k :: 0 <= k < |args| && args[k].value.Python? ==>
      GoodLiteral(args[k].value.literal) && ValueOf(args[k].value.literal, names, false).Some?
  }

  predicate ArgsShared(args: seq<PyArg>) {
    args == [] || ((args[0].value.Python? ==> AllShared(args[0].value.literal)) && ArgsShared(args[1..]))
  }

  /** The argument as it is visited. */
  function Visited(a: PyArg, names: NameTable): Calls.Arg
    requires GoodArgs([a], names)
  {
    match a.value
    case Plain(text) => Calls.Arg(a.name, Calls.StringValue(text))
    case Python(v) => assert [a][0] == a; Calls.Arg(a.name, Calls.RawValue(LiteralText(v, false)))
  }

  lemma GoodParts(args: seq<PyArg>, names: NameTable)
    requires args != [] && GoodArgs(args, names)
    ensures GoodArgs([args[0]], names) && GoodArgs(args[1..], names)
  {
    hide GoodLiteral, ValueOf;
  }

  function AllVisited(args: seq<PyArg>, names: NameTable): (r: seq<Calls.Arg>)
    requires GoodArgs(args, names)
    ensures |r| == |args|
  {
    if args == [] then []
    else
      GoodParts(args, names);
      [Visited(args[0], names)] + AllVisited(args[1..], names)
  }

  /** What Python makes of an argument value. */
  function DataOf(v: PyValue, names: NameTable): Option<Data> {
    match v
    case Plain(text) => Some(Str(CodesOf(text)))
    case Python(literal) => if GoodLiteral(literal) then ValueOf(literal, names, false) else None
  }

  function MembersIn(args: seq<PyArg>, names: NameTable): (r: Members)
    requires GoodArgs(args, names)
    ensures |r| == |args|
  {
    if args == [] then []
    else
      GoodParts(args, names);
      assert [args[0]][0] == args[0];
      [(Some(CodesOf(TrimOnce(args[0].name))), DataOf(args[0].value, names).value)] + MembersIn(args[1..], names)
  }

  // ---- The arguments as the translation of a dictionary ----

  lemma {:induction false} DoubleUnchanged(b: string)
    requires IsBody(b, Quotes.InDouble)
    ensures LiteralBody(b, Quotes.InDouble) == b
    decreases |b|
  {
    hide LiteralBody;
    if b == "" {
      NothingBecomes(Quotes.InDouble);
    } else {
      DoubleUnchanged(b[RoundLen(b)..]);
      LiteralBodyRound(b, Quotes.InDouble);
      assert b[..RoundLen(b)] + b[RoundLen(b)..] == b;
    }
  }

  lemma {:induction false} EscapeIsBody(t: string)
    ensures IsBody(Escape(t), Quotes.InDouble)
  {
    if t != "" {
      EscapeIsBody(t[1..]);
      EscapeCharBody(t[0], Escape(t[1..]));
      hide EscapeChar;
    }
  }

  lemma EscapeCharBody(c: char, r: string)
    requires IsBody(r, Quotes.InDouble)
    ensures IsBody(EscapeChar(c) + r, Quotes.InDouble)
  {
    var e := EscapeChar(c);
    EscapeCharKinds(c);
    hide EscapeChar;
    if |e| == 1 {
      assert (e + r)[1..] == r;
    } else {
      assert (e + r)[2..] == e[2..] + r;
      PlainBody(e[2..], r);
    }
  }

  lemma EscapeCharKinds(c: char)
    ensures var e := EscapeChar(c);
      || (|e| == 1 && e[0] !in "\"\\\n\r")
      || (|e| >= 2 && e[0] == '\\' && e[1] != '\r' && forall k :: 2 <= k < |e| ==> e[k] !in "\"\\\n\r")
  {
  }

  lemma {:induction false} PlainBody(w: string, r: string)
    requires IsBody(r, Quotes.InDouble) && forall k :: 0 <= k < |w| ==> w[k] !in "\"\\\n\r"
    ensures IsBody(w + r, Quotes.InDouble)
  {
    if w == "" {
      assert w + r == r;
    } else {
      assert (w + r)[1..] == w[1..] + r;
      PlainBody(w[1..], r);
    }
  }

  lemma QuotedIsString(t: string)
    ensures GoodString(Quotes.InDouble, Escape(t)) && StringText(Quotes.InDouble, Escape(t), true) == Quoted(t)
    ensures ReadBody(LiteralBody(Escape(t), Quotes.InDouble)) == Some(CodesOf(t))
  {
    EscapeIsBody(t);
    DoubleUnchanged(Escape(t));
    ReadEscape(t);
  }

  function AsLiteral(v: PyValue): Literal {
    match v
    case Plain(text) => StringLit(Quotes.InDouble, Escape(text))
    case Python(literal) => literal
  }

  function AsItems(args: seq<PyArg>): Items {
    if args == [] then End
    else More(Key(Quotes.InDouble, Escape(TrimOnce(args[0].name)), "", ""), AsLiteral(args[0].value), "", "",
      AsItems(args[1..]))
  }

  lemma {:induction false} AsItemsGood(args: seq<PyArg>, names: NameTable)
    requires GoodArgs(args, names)
    ensures GoodItems(AsItems(args), true)
  {
    if args != [] {
      GoodParts(args, names);
      AsItemsGood(args[1..], names);
      QuotedIsString(TrimOnce(args[0].name));
      if args[0].value.Plain? { QuotedIsString(args[0].value.text); }
      hide GoodLiteral, GoodString, TrimOnce;
      assert GoodLiteral(AsLiteral(args[0].value)) by { AsLiteralGood(args[0], names); }
    }
  }

  lemma AsLiteralGood(a: PyArg, names: NameTable)
    requires GoodArgs([a], names)
    ensures GoodLiteral(AsLiteral(a.value))
    ensures LiteralText(AsLiteral(a.value), true) == Calls.ValueText(Visited(a, names).value)
  {
    assert [a][0] == a;
    match a.value {
      case Plain(text) => QuotedIsString(text);
      case Python(v) =>
        hide LiteralText;
        NormalizedLiteral(v);
    }
  }

  lemma NormalizedLiteral(v: Literal)
    requires GoodLiteral(v)
    ensures Quotes.Normalized(LiteralText(v, false)) == LiteralText(v, true)
  {
    hide Quotes.Rest, LiteralText;
    Translates(v, "");
    NothingLeft();
    assert LiteralText(v, false) + "" == LiteralText(v, false) && LiteralText(v, true) + "" == LiteralText(v, true);
  }

  /** The text of the members is that of the items of a dictionary. */
  lemma {:induction false} SameText(args: seq<PyArg>, names: NameTable)
    requires GoodArgs(args, names)
    ensures GoodItems(AsItems(args), true)
      && ItemsText(AsItems(args), true, true) == Calls.MembersText(true, AllVisited(args, names))
  {
    AsItemsGood(args, names);
    if args == [] {
      Calls.MembersEmpty();
    } else {
      hide LiteralText, ItemsText, KeyText, TrimOnce, Calls.ValueText, Calls.MembersText;
      GoodParts(args, names);
      var a, rest := args[0], args[1..];
      var xs, more := AsItems(args), AllVisited(rest, names);
      SameText(rest, names);
      AsLiteralGood(a, names);
      FirstKey(TrimOnce(a.name));
      ItemsUnfold(xs, true);
      var all := AllVisited(args, names);
      assert all[0] == Visited(a, names) && all[1..] == more;
      Calls.MembersUnfold(true, all);
      var e := Calls.Entry(all[0]);
      if rest == [] {
        Calls.MembersEmpty();
        NoMore(e);
      } else {
        Calls.MembersUnfold(true, more);
        Calls.MembersUnfold(false, more);
        Comma(e, Calls.MembersText(true, more));
      }
    }
  }

  lemma FirstKey(name: string)
    ensures var k := Key(Quotes.InDouble, Escape(name), "", "");
      GoodKey(k, true) && KeyText(k, true, true) == Quoted(name) + ":"
  {
    QuotedIsString(name);
    assert "" + ":" + "" == ":";
  }

  lemma NoMore(e: string)
    ensures e + (Separator("", "", End) + ItemsText(End, true, true)) == e + ""
  {
  }

  lemma Comma(e: string, more: string)
    ensures forall rest: Items :: rest.More? ==> e + (Separator("", "", rest) + more) == e + ("," + more)
  {
    forall rest: Items | rest.More? ensures e + (Separator("", "", rest) + more) == e + ("," + more) {
      assert Separator("", "", rest) == ",";
    }
  }

  // ---- Reading the arguments ----

  lemma ArgumentAgrees(v: PyValue, names: NameTable)
    requires DataOf(v, names).Some?
    ensures GoodLiteral(AsLiteral(v))
    ensures ValueOf(AsLiteral(v), names, true) == DataOf(v, names) <==> (v.Python? ==> AllShared(v.literal))
  {
    match v {
      case Plain(text) => QuotedIsString(text);
      case Python(literal) => ValuesAgree(literal, names);
    }
  }

  lemma {:induction false} ArgumentsAgree(args: seq<PyArg>, names: NameTable)
    requires GoodArgs(args, names) && GoodItems(AsItems(args), true)
    ensures MembersOf(AsItems(args), true, names, true) == Some(MembersIn(args, names)) <==> ArgsShared(args)
  {
    hide ValueOf, AllShared, TrimOnce, GoodLiteral;
    if args != [] {
      GoodParts(args, names);
      var a, rest := args[0], args[1..];
      assert [a][0] == a;
      ArgumentsAgree(rest, names);
      ArgumentAgrees(a.value, names);
      QuotedIsString(TrimOnce(a.name));
      var key, d, more := Some(Some(CodesOf(TrimOnce(a.name)))), DataOf(a.value, names), Some(MembersIn(rest, names));
      assert Joined(key, d, more) == Some(MembersIn(args, names));
      JoinedInjective(key, ValueOf(AsLiteral(a.value), names, true), MembersOf(AsItems(rest), true, names, true), key,
        d, more);
    }
  }

  lemma VisitedWellFormed(args: seq<PyArg>, names: NameTable)
    requires GoodArgs(args, names)
    ensures Calls.WellFormed(AllVisited(args, names))
  {
    if args != [] {
      GoodParts(args, names);
      VisitedWellFormed(args[1..], names);
      assert [args[0]][0] == args[0];
      if args[0].value.Python? { LiteralIsRaw(args[0].value.literal); }
      var all := AllVisited(args, names);
      assert all[1..] == AllVisited(args[1..], names);
      hide AllVisited, Calls.IsRawValue, LiteralText;
      forall k | 0 <= k < |all| && all[k].value.RawValue? ensures Calls.IsRawValue(all[k].value.text) {
        if k > 0 { assert all[k] == all[1..][k - 1]; }
      }
    }
  }

  /** Whole arguments texts are read like a dictionary. */
  lemma ArgumentsRead(args: seq<PyArg>, names: NameTable)
    requires GoodArgs(args, names)
    ensures ReadText("{" + Calls.MembersText(true, AllVisited(args, names)) + "}") ==
      Some(Group(true, MembersIn(args, names)))
      <==> ArgsShared(args)
  {
    hide ReadValue, Calls.MembersText, ItemsText, MembersOf, ArgsShared, AllVisited;
    SameText(args, names);
    ArgumentsAgree(args, names);
    var v := GroupLit(true, "", AsItems(args));
    var t := LiteralText(v, true);
    var m := Calls.MembersText(true, AllVisited(args, names));
    assert t == "{" + m + "}" by { assert "{" + "" == "{"; }
    ValueReads(v, "", names);
    assert t + "" == t && "" + t == t;
    NothingLeft();
    LiteralBegins(v, "");
    WhiteSkipped("", t);
  }

  /**
   For every complete call whose raw values are Python values: the arguments, read as JSON, are the
   trimmed names with the values Python gives, in order, exactly when all their strings use only
   escapes the two notations share and all their numbers are numbers of JSON. Values of declared
   string types always come back.
   */
  lemma CallMeaning(s: State, nodes: seq<Node>, name: string, args: seq<PyArg>, k: nat, names: NameTable)
    requires GoodArgs(args, names) && Calls.IsCall(nodes, name, AllVisited(args, names), k)
    ensures var calls := Run(s, nodes).msg.calls;
      && |calls| == |s.msg.calls| + 1 && calls[|s.msg.calls|].name == TrimRight(name)
      && calls[|s.msg.calls|].id == Calls.CallId(nodes)
      && (ReadText(calls[|s.msg.calls|].arguments) == Some(Group(true, MembersIn(args, names))) <==> ArgsShared(args))
  {
    hide Run, Calls.IsCall, Calls.CallId, ReadText, MembersIn, ArgsShared, AllVisited, Calls.WellFormed, Completed,
      Calls.MembersText, TrimRight, Balanced;
    var visited := AllVisited(args, names);
    VisitedWellFormed(args, names);
    Calls.CallResult(s, nodes, name, visited, k);
    Calls.ClosesItself();
    Calls.MembersStructure(true, visited, "}", "}");
    Calls.BraceAround(Calls.MembersText(true, visited));
    ArgumentsRead(args, names);
  }
}
