/**
 Whole Python values: their translation is the JSON text of the same shape, and reading it gives the
 same value exactly when all strings in it use only escapes the two notations share and all numbers
 in it are written as JSON writes them.
 */
module PythonValues {
  import opened Text
  import opened Json
  import opened Quotes
  import opened ArgumentsText
  import opened PythonStrings
  import opened JsonValues
  import opened PythonNumbers

  // ---- Python values with their spacing ----

  datatype Literal =
    | StringLit(m: Mode, body: string)
    | NumberLit(text: string)
    | TrueLit
    | FalseLit
    | NoneLit
    | JsonWord(word: string) // a constant that is spelled as in JSON already
    | GroupLit(dict: bool, pad: string, items: Items)

  /** The key of a dictionary member with the space around its colon. */
  datatype Key = NoKey | Key(m: Mode, body: string, before: string, after: string)

  /** The members of a list or a dictionary, with the space around the commas. */
  datatype Items = End | More(key: Key, value: Literal, after: string, before: string, rest: Items)

  predicate AllWhite(s: string) {
    forall k :: 0 <= k < |s| ==> IsWhite(s[k])
  }

  predicate AllToken(s: string) {
    forall k :: 0 <= k < |s| ==> IsTokenChar(s[k])
  }

  predicate GoodString(m: Mode, body: string) {
    m != Bare && IsBody(body, m)
  }

  predicate GoodKey(k: Key, dict: bool) {
    match k
    case NoKey => !dict
    case Key(m, body, before, after) => dict && GoodString(m, body) && AllWhite(before) && AllWhite(after)
  }

  predicate GoodLiteral(v: Literal) {
    match v
    case StringLit(m, body) => GoodString(m, body)
    case NumberLit(text) => IsPyNumber(text)
    case JsonWord(word) => word == "true" || word == "false" || word == "null"
    case GroupLit(dict, pad, items) => AllWhite(pad) && GoodItems(items, dict)
    case _ => true
  }

  predicate GoodItems(xs: Items, dict: bool) {
    match xs
    case End => true
    case More(key, value, after, before, rest) =>
      GoodKey(key, dict) && GoodLiteral(value) && AllWhite(after) && AllWhite(before) && GoodItems(rest, dict)
  }

  // ---- The texts ----

  /** A string literal in Python's notation, or its translation. */
  function StringText(m: Mode, body: string, js: bool): string
    requires GoodString(m, body)
  {
    if js then "\"" + LiteralBody(body, m) + "\"" else [Quote(m)] + body + [Quote(m)]
  }

  function KeyText(k: Key, dict: bool, js: bool): string
    requires GoodKey(k, dict)
  {
    match k
    case NoKey => ""
    case Key(m, body, before, after) => StringText(m, body, js) + (before + ":" + after)
  }

  /** A value in Python's notation, or in JSON's. */
  function LiteralText(v: Literal, js: bool): string
    requires GoodLiteral(v)
  {
    match v
    case StringLit(m, body) => StringText(m, body, js)
    case NumberLit(text) => text
    case TrueLit => if js then "true" else "True"
    case FalseLit => if js then "false" else "False"
    case NoneLit => if js then "null" else "None"
    case JsonWord(word) => word
    case GroupLit(dict, pad, items) => [OpenerOf(dict)] + pad + ItemsText(items, dict, js) + [CloserOf(dict)]
  }

  function ItemsText(xs: Items, dict: bool, js: bool): string
    requires GoodItems(xs, dict)
  {
    match xs
    case End => ""
    case More(key, value, after, before, rest) =>
      KeyText(key, dict, js) + LiteralText(value, js) +
        (after + (if rest.End? then "" else "," + before) + ItemsText(rest, dict, js))
  }

  // ---- The values ----

  function StringValue(m: Mode, body: string, names: NameTable, js: bool): Option<Codes>
    requires GoodString(m, body)
  {
    if js then ReadBody(LiteralBody(body, m)) else PyBody(body, m, names)
  }

  function ValueOf(v: Literal, names: NameTable, js: bool): Option<Data>
    requires GoodLiteral(v)
  {
    match v
    case StringLit(m, body) =>
      (match StringValue(m, body, names, js) case None => None case Some(codes) => Some(Str(codes)))
    case NumberLit(text) => if js && !IsJsonNumber(text) then None else Some(Number(text))
    case TrueLit => Some(Flag(true))
    case FalseLit => Some(Flag(false))
    case NoneLit => Some(Null)
    case JsonWord(word) => Some(if word == "null" then Null else Flag(word == "true"))
    case GroupLit(dict, pad, items) =>
      (match MembersOf(items, dict, names, js) case None => None case Some(ms) => Some(Group(dict, ms)))
  }

  /** The key of a member: none in a list; nothing when it has no value. */
  function KeyOf(k: Key, dict: bool, names: NameTable, js: bool): Option<Option<Codes>>
    requires GoodKey(k, dict)
  {
    match k
    case NoKey => Some(None)
    case Key(m, body, _, _) =>
      match StringValue(m, body, names, js) case None => None case Some(codes) => Some(Some(codes))
  }

  function Joined(key: Option<Option<Codes>>, value: Option<Data>, rest: Option<Members>): Option<Members> {
    if key.Some? && value.Some? && rest.Some? then Some([(key.value, value.value)] + rest.value) else None
  }

  function MembersOf(xs: Items, dict: bool, names: NameTable, js: bool): Option<Members>
    requires GoodItems(xs, dict)
  {
    match xs
    case End => Some([])
    case More(key, value, _, _, rest) =>
      Joined(KeyOf(key, dict, names, js), ValueOf(value, names, js), MembersOf(rest, dict, names, js))
  }

  // ---- Which values come back ----

  predicate KeyShared(k: Key) {
    match k
    case NoKey => true
    case Key(m, body, _, _) => SharedEscapes(body, m)
  }

  /** All strings use only escapes that the notations share, and all numbers are numbers of JSON. */
  predicate AllShared(v: Literal) {
    match v
    case StringLit(m, body) => SharedEscapes(body, m)
    case NumberLit(text) => IsJsonNumber(text)
    case GroupLit(_, _, items) => ItemsShared(items)
    case _ => true
  }

  predicate ItemsShared(xs: Items) {
    match xs
    case End => true
    case More(key, value, _, _, rest) => KeyShared(key) && AllShared(value) && ItemsShared(rest)
  }

  // ---- The translation is the JSON text ----

  /** Characters that the loop copies outside strings, whatever stands before them. */
  predicate IsPlain(c: char) {
    c != '"' && c != '\'' && c != '\\' && c != 'T' && c != 'F' && c != 'N'
  }

  lemma {:induction false} Copied(w: string, afterWord: bool, r: string)
    requires forall k :: 0 <= k < |w| ==> IsPlain(w[k])
    ensures Rest(w + r, afterWord, Bare) == w + Rest(r, if w == "" then afterWord else IsWordChar(w[|w| - 1]), Bare)
  {
    hide Rest;
    if w == "" {
      assert w + r == r;
    } else {
      var c, more := w[0], w[1..];
      assert w == [c] + more;
      Copied(more, IsWordChar(c), r);
      CopiedOne(c, more + r, afterWord);
      Associate([c], more, r);
      Associate([c], more, Rest(r, IsWordChar(w[|w| - 1]), Bare));
    }
  }

  lemma CopiedOne(c: char, r: string, afterWord: bool)
    requires IsPlain(c)
    ensures Rest([c] + r, afterWord, Bare) == [c] + Rest(r, IsWordChar(c), Bare)
  {
    hide WordMove;
    assert ([c] + r)[1..] == r;
  }

  /** Where no word goes on, it does not matter whether one has just ended. */
  lemma Indifferent(r: string, afterWord: bool)
    requires Ends(r)
    ensures Rest(r, afterWord, Bare) == Rest(r, false, Bare)
  {
    hide WordMove;
  }

  lemma WordBecomes(w: string, r: string)
    requires w == "True" || w == "False" || w == "None"
    requires Ends(r)
    ensures Rest(w + r, false, Bare) ==
      (if w == "True" then "true" else if w == "False" then "false" else "null") + Rest(r, false, Bare)
  {
    hide LiteralPrefix, PlainMove;
    var s := w + r;
    assert s[0] == w[0];
    WordLenOf(w, r);
    LiteralOf(w);
    assert s[..|w|] == w && s[|w|..] == r;
    Indifferent(r, IsWordChar(s[|w| - 1]));
  }

  lemma LiteralOf(w: string)
    requires w == "True" || w == "False" || w == "None"
    ensures LiteralPrefix(w) == Some(if w == "True" then "true" else if w == "False" then "false" else "null")
  {
    assert "True"[0] == 'T' && "False"[0] == 'F' && "None"[0] == 'N';
    assert "true"[..4] == "true" && "false"[..5] == "false" && "null"[..4] == "null";
  }

  lemma StringTranslates(m: Mode, body: string, afterWord: bool, r: string)
    requires GoodString(m, body)
    ensures Rest(StringText(m, body, false) + r, afterWord, Bare) == StringText(m, body, true) + Rest(r, false, Bare)
  {
    LiteralBecomes(body, m, afterWord, r);
  }

  predicate IsSpacing(w: string) {
    forall k :: 0 <= k < |w| ==> IsWhite(w[k]) || IsStructural(w[k])
  }

  lemma Spaced(w: string, r: string)
    requires IsSpacing(w)
    ensures Rest(w + r, false, Bare) == w + Rest(r, false, Bare)
  {
    hide Rest;
    Copied(w, false, r);
  }

  lemma KeyTranslates(k: Key, dict: bool, r: string)
    requires GoodKey(k, dict)
    ensures Rest(KeyText(k, dict, false) + r, false, Bare) == KeyText(k, dict, true) + Rest(r, false, Bare)
  {
    hide Rest, StringText;
    match k
    case NoKey => assert "" + r == r && "" + Rest(r, false, Bare) == Rest(r, false, Bare);
    case Key(m, body, before, after) =>
      var colon := before + ":" + after;
      Associate(StringText(m, body, false), colon, r);
      StringTranslates(m, body, false, colon + r);
      Spaced(colon, r);
      Associate(StringText(m, body, true), colon, Rest(r, false, Bare));
  }

  /** What stands between a member and the next one. */
  function Separator(after: string, before: string, rest: Items): string {
    after + if rest.End? then "" else "," + before
  }

  lemma MoreText(xs: Items, dict: bool, js: bool, r: string)
    requires GoodItems(xs, dict) && xs.More?
    ensures ItemsText(xs, dict, js) + r ==
      KeyText(xs.key, dict, js) +
        (LiteralText(xs.value, js) + (Separator(xs.after, xs.before, xs.rest) + (ItemsText(xs.rest, dict, js) + r)))
  {
    hide KeyText, LiteralText;
    var k, v, w, t :=
      KeyText(xs.key, dict, js), LiteralText(xs.value, js), Separator(xs.after, xs.before, xs.rest),
      ItemsText(xs.rest, dict, js);
    assert ItemsText(xs, dict, js) == k + v + (w + t);
    hide ItemsText, Separator;
    Regroup(k, v, w, t, r);
  }

  lemma Regroup(k: string, v: string, w: string, t: string, r: string)
    ensures k + v + (w + t) + r == k + (v + (w + (t + r)))
  {
  }

  lemma GroupText(v: Literal, js: bool, r: string)
    requires GoodLiteral(v) && v.GroupLit?
    ensures LiteralText(v, js) + r ==
      ([OpenerOf(v.dict)] + v.pad) + (ItemsText(v.items, v.dict, js) + ([CloserOf(v.dict)] + r))
  {
    hide ItemsText;
    var o, t, c := [OpenerOf(v.dict)] + v.pad, ItemsText(v.items, v.dict, js), [CloserOf(v.dict)];
    assert o + t + c + r == o + (t + (c + r));
  }

  lemma SeparatorEnds(after: string, before: string, rest: Items, dict: bool, js: bool, r: string)
    requires AllWhite(after) && AllWhite(before) && GoodItems(rest, dict) && Ends(r)
    ensures IsSpacing(Separator(after, before, rest))
    ensures Ends(Separator(after, before, rest) + (ItemsText(rest, dict, js) + r))
  {
    hide LiteralText, KeyText;
    var w := Separator(after, before, rest);
    if after == "" && rest.End? {
      assert w + (ItemsText(rest, dict, js) + r) == r;
    } else {
      assert (w + (ItemsText(rest, dict, js) + r))[0] == w[0];
    }
  }

  /** Outside strings the translation of a value is its JSON text, whatever follows it. */
  lemma {:induction false} Translates(v: Literal, r: string)
    requires GoodLiteral(v) && Ends(r)
    ensures Rest(LiteralText(v, false) + r, false, Bare) == LiteralText(v, true) + Rest(r, false, Bare)
    decreases v
  {
    hide Rest, ItemsText, StringText, IsPyNumber;
    match v
    case StringLit(m, body) => StringTranslates(m, body, false, r);
    case NumberLit(text) => NumberTranslates(text, r);
    case TrueLit => WordBecomes("True", r);
    case FalseLit => WordBecomes("False", r);
    case NoneLit => WordBecomes("None", r);
    case JsonWord(word) => RunTranslates(word, r);
    case GroupLit(dict, pad, items) =>
      var o, c := [OpenerOf(dict)] + pad, [CloserOf(dict)];
      GroupText(v, false, r);
      Spaced(o, ItemsText(items, dict, false) + (c + r));
      ItemsTranslate(items, dict, c + r);
      Spaced(c, r);
      GroupText(v, true, Rest(r, false, Bare));
  }

  lemma RunTranslates(text: string, r: string)
    requires Ends(r) && forall k :: 0 <= k < |text| ==> IsPlain(text[k])
    ensures Rest(text + r, false, Bare) == text + Rest(r, false, Bare)
  {
    hide Rest;
    Copied(text, false, r);
    Indifferent(r, if text == "" then false else IsWordChar(text[|text| - 1]));
  }

  lemma NumberTranslates(text: string, r: string)
    requires IsPyNumber(text) && Ends(r)
    ensures Rest(text + r, false, Bare) == text + Rest(r, false, Bare)
  {
    hide Rest, IsPyNumber, AllDecimal, AllWord, DecimalLen, IsWordChar, Ends;
    NumberChars(text);
    var n := DecimalLen(text);
    var front, digits := text[..n], text[n..];
    assert text == front + digits && front[n - 1] == text[n - 1];
    Associate(front, digits, r);
    DecimalCopied(front, digits + r);
    WordEnds(front[n - 1], digits, r);
    Associate(front, digits, Rest(r, false, Bare));
  }

  lemma DecimalCopied(w: string, r: string)
    requires AllDecimal(w) && w != ""
    ensures Rest(w + r, false, Bare) == w + Rest(r, IsWordChar(w[|w| - 1]), Bare)
  {
    hide Rest, AllDecimal, IsPlain;
    DecimalPlain(w);
    Copied(w, false, r);
  }

  lemma WordEnds(c: char, w: string, r: string)
    requires AllWord(w) && Ends(r) && (w != "" ==> c == '0')
    ensures Rest(w + r, IsWordChar(c), Bare) == w + Rest(r, false, Bare)
  {
    hide Rest;
    if w == "" {
      Indifferent(r, IsWordChar(c));
      assert w + r == r && w + Rest(r, false, Bare) == Rest(r, false, Bare);
    } else {
      WordCopied(w, r);
    }
  }

  lemma DecimalPlain(w: string)
    requires AllDecimal(w)
    ensures AllToken(w) && forall k :: 0 <= k < |w| ==> IsPlain(w[k])
  {
    hide AllDecimal, AllToken, IsPlain;
    forall k | 0 <= k < |w| ensures IsPlain(w[k]) && IsTokenChar(w[k]) {
      DecimalCharPlain(w, k);
    }
    assert AllToken(w) by { AllOf(w); }
  }

  lemma AllOf(w: string)
    requires forall k :: 0 <= k < |w| ==> IsTokenChar(w[k])
    ensures AllToken(w)
  {
  }

  lemma DecimalCharPlain(w: string, k: nat)
    requires AllDecimal(w) && k < |w|
    ensures IsPlain(w[k]) && IsTokenChar(w[k]) && w[k] !in "tfn"
  {
    assert IsDecimalChar(w[k]);
  }

  /** Inside a word no constant starts. */
  lemma {:induction false} WordCopied(w: string, r: string)
    requires Ends(r) && AllWord(w)
    ensures Rest(w + r, true, Bare) == w + Rest(r, false, Bare)
  {
    hide Rest;
    if w == "" {
      assert w + r == r;
      Indifferent(r, true);
    } else {
      var c, more := w[0], w[1..];
      assert w == [c] + more;
      WordCopied(more, r);
      WordCopiedOne(c, more + r);
      Associate([c], more, r);
      Associate([c], more, Rest(r, false, Bare));
    }
  }

  lemma WordCopiedOne(c: char, r: string)
    requires IsWordChar(c)
    ensures Rest([c] + r, true, Bare) == [c] + Rest(r, true, Bare)
  {
    hide WordMove;
    assert ([c] + r)[1..] == r;
  }

  lemma {:induction false} ItemsTranslate(xs: Items, dict: bool, r: string)
    requires GoodItems(xs, dict) && Ends(r)
    ensures Rest(ItemsText(xs, dict, false) + r, false, Bare) == ItemsText(xs, dict, true) + Rest(r, false, Bare)
    decreases xs
  {
    hide Rest, KeyText, LiteralText, Separator, IsSpacing;
    match xs
    case End => assert "" + r == r && "" + Rest(r, false, Bare) == Rest(r, false, Bare);
    case More(key, value, after, before, rest) =>
      var w := Separator(after, before, rest);
      var tail := w + (ItemsText(rest, dict, false) + r);
      MoreText(xs, dict, false, r);
      KeyTranslates(key, dict, LiteralText(value, false) + tail);
      SeparatorEnds(after, before, rest, dict, false, r);
      Translates(value, tail);
      Spaced(w, ItemsText(rest, dict, false) + r);
      ItemsTranslate(rest, dict, r);
      MoreText(xs, dict, true, Rest(r, false, Bare));
  }

  // ---- Reading the JSON text ----

  /** The translated body of a literal does not end a string scan. */
  lemma {:induction false} BodySkips(b: string, m: Mode, r: string)
    requires GoodString(m, b)
    ensures Skips(LiteralBody(b, m), r)
    decreases |b|
  {
    hide Skips, LiteralBody, RoundText;
    if b == "" {
      NothingBecomes(m);
      SkipsWord("", r);
    } else {
      var rest := b[RoundLen(b)..];
      BodySkips(rest, m, r);
      LiteralBodyRound(b, m);
      RoundSkips(b, m, LiteralBody(rest, m) + r);
      SkipsJoin(RoundText(b, m), LiteralBody(rest, m), r);
    }
  }

  lemma RoundSkips(b: string, m: Mode, r: string)
    requires GoodString(m, b) && b != ""
    ensures Skips(RoundText(b, m), r)
  {
    hide Skips;
    if b[0] == '"' {
      SkipsPair('"', r);
    } else if b[0] != '\\' {
      SkipsPlain(b[0], r);
      assert b[..1] == [b[0]];
    } else if b[1] == '\'' && m == InSingle {
      SkipsPlain('\'', r);
    } else if RoundLen(b) == 2 {
      SkipsPair(b[1], r);
      assert b[..2] == ['\\', b[1]];
    } else {
      SkipsPair(b[1], ['\n'] + r);
      SkipsPlain('\n', r);
      SkipsJoin(['\\', b[1]], ['\n'], r);
      assert b[..3] == ['\\', b[1]] + ['\n'];
    }
  }

  lemma StringReads(m: Mode, body: string, r: string)
    requires GoodString(m, body)
    ensures ReadString(StringText(m, body, true) + r) ==
      match ReadBody(LiteralBody(body, m)) case None => None case Some(codes) => Some((codes, r))
  {
    hide ReadBody, LiteralBody;
    var u := LiteralBody(body, m);
    var t := u + ("\"" + r);
    BodySkips(body, m, "\"" + r);
    assert "\"" + u + "\"" + r == "\"" + t && ("\"" + t)[1..] == t;
    assert t[..|u|] == u && t[|u| + 1..] == r;
  }

  /** White space in front of something else. */
  lemma {:induction false} WhiteSkipped(w: string, r: string)
    requires AllWhite(w) && (r == "" || !IsWhite(r[0]))
    ensures SkipWhite(w + r) == r
  {
    if w == "" {
      assert w + r == r;
    } else {
      assert (w + r)[1..] == w[1..] + r;
      WhiteSkipped(w[1..], r);
    }
  }

  /** The front of a member: neither white space nor a separator or closer. */
  predicate Begins(r: string) {
    r != "" && !IsWhite(r[0]) && r[0] != ']' && r[0] != '}' && r[0] != ','
  }

  lemma LiteralBegins(v: Literal, r: string)
    requires GoodLiteral(v)
    ensures Begins(LiteralText(v, true) + r)
  {
    hide ItemsText, LiteralBody, IsPyNumber;
    var t := LiteralText(v, true);
    match v {
      case NumberLit(text) => NumberIsToken(text);
      case _ =>
    }
    assert t != "" && (t + r)[0] == t[0];
  }

  lemma ItemsBegin(xs: Items, dict: bool, r: string)
    requires GoodItems(xs, dict) && xs.More?
    ensures Begins(ItemsText(xs, dict, true) + r)
  {
    MoreText(xs, dict, true, r);
    var more := Separator(xs.after, xs.before, xs.rest) + (ItemsText(xs.rest, dict, true) + r);
    LiteralBegins(xs.value, more);
    hide LiteralText, ItemsText, Separator, LiteralBody;
    var k, t := KeyText(xs.key, dict, true), LiteralText(xs.value, true) + more;
    if xs.key.NoKey? {
      assert k + t == t;
    } else {
      assert k[0] == '"' && (k + t)[0] == k[0];
    }
  }

  lemma KeyReads(k: Key, dict: bool, r: string, names: NameTable)
    requires GoodKey(k, dict) && Begins(r)
    ensures ReadKey(KeyText(k, dict, true) + r, dict) ==
      match KeyOf(k, dict, names, true) case None => None case Some(key) => Some((key, r))
  {
    hide ReadString, StringText, ReadBody, LiteralBody, SkipWhite, Begins;
    match k
    case NoKey => assert "" + r == r;
    case Key(m, body, before, after) =>
      var colon := before + ":" + after;
      Associate(StringText(m, body, true), colon, r);
      StringReads(m, body, colon + r);
      ColonReads(before, after, r);
  }

  lemma ColonReads(before: string, after: string, r: string)
    requires AllWhite(before) && AllWhite(after) && Begins(r)
    ensures var t := SkipWhite(before + ":" + after + r); t != "" && t[0] == ':' && SkipWhite(t[1..]) == r
  {
    hide SkipWhite;
    var t := ":" + (after + r);
    assert before + ":" + after + r == before + t;
    assert t[1..] == after + r;
    WhiteSkipped(before, t);
    WhiteSkipped(after, r);
  }

  predicate TokenEnds(r: string) {
    r == "" || !IsTokenChar(r[0])
  }

  lemma {:induction false} TokenLenOf(w: string, r: string)
    requires AllToken(w) && TokenEnds(r)
    ensures TokenLen(w + r) == |w|
  {
    if w == "" {
      assert w + r == r;
    } else {
      assert (w + r)[1..] == w[1..] + r;
      TokenLenOf(w[1..], r);
    }
  }

  lemma TokenReads(w: string, r: string)
    requires w != "" && AllToken(w) && TokenEnds(r)
    ensures ReadValue(w + r) == match TokenValue(w) case None => None case Some(d) => Some((d, r))
  {
    hide TokenValue, TokenLen;
    var s := w + r;
    TokenLenOf(w, r);
    assert s[0] == w[0] && IsTokenChar(w[0]);
    assert s[..|w|] == w && s[|w|..] == r;
  }

  lemma NumberIsToken(text: string)
    requires IsPyNumber(text)
    ensures text != "" && AllToken(text) && text[0] !in "tfn"
  {
    hide IsPyNumber, AllDecimal, DecimalLen;
    NumberChars(text);
    var n := DecimalLen(text);
    forall k | 0 <= k < |text| ensures IsTokenChar(text[k]) {
      if k < n {
        DecimalCharPlain(text[..n], k);
      } else {
        assert IsWordChar(text[n..][k - n]);
      }
    }
    DecimalCharPlain(text[..n], 0);
  }

  lemma NumberReads(text: string, r: string)
    requires IsPyNumber(text) && TokenEnds(r)
    ensures ReadValue(text + r) == if IsJsonNumber(text) then Some((Number(text), r)) else None
  {
    hide IsPyNumber, IsJsonNumber, ReadValue;
    NumberIsToken(text);
    assert "true"[0] == 't' && "false"[0] == 'f' && "null"[0] == 'n';
    TokenReads(text, r);
  }

  lemma WordReads(w: string, r: string)
    requires (w == "true" || w == "false" || w == "null") && TokenEnds(r)
    ensures ReadValue(w + r) == Some((if w == "null" then Null else Flag(w == "true"), r))
  {
    hide ReadValue;
    TokenReads(w, r);
  }

  lemma GroupReads(dict: bool, pad: string, rest: string)
    requires AllWhite(pad) && rest != "" && !IsWhite(rest[0])
    ensures ReadValue([OpenerOf(dict)] + pad + rest) ==
      if rest[0] == CloserOf(dict) then Some((Group(dict, []), rest[1..]))
      else AsGroup(dict, ReadGroup(rest, dict))
  {
    hide ReadGroup;
    var s := [OpenerOf(dict)] + pad + rest;
    assert s[1..] == pad + rest;
    WhiteSkipped(pad, rest);
  }

  /** Reading the JSON text of a value gives the value, and stops behind it. */
  lemma {:induction false} ValueReads(v: Literal, r: string, names: NameTable)
    requires GoodLiteral(v) && TokenEnds(r)
    ensures ReadValue(LiteralText(v, true) + r) ==
      match ValueOf(v, names, true) case None => None case Some(d) => Some((d, r))
    decreases v, 0
  {
    hide ItemsText, StringText, ReadGroup, ReadBody, LiteralBody, MembersOf, IsPyNumber, IsJsonNumber;
    match v
    case StringLit(m, body) =>
      hide ReadString;
      StringReads(m, body, r);
      StringBegins(m, body, r);
    case NumberLit(text) => NumberReads(text, r);
    case TrueLit => WordReads("true", r);
    case FalseLit => WordReads("false", r);
    case NoneLit => WordReads("null", r);
    case JsonWord(word) => WordReads(word, r);
    case GroupLit(dict, pad, items) =>
      hide ReadValue;
      var tail := [CloserOf(dict)] + r;
      GroupText(v, true, r);
      var rest := ItemsText(items, dict, true) + tail;
      if items.End? {
        NoItems(dict, names, tail);
        GroupReads(dict, pad, tail);
        assert tail[1..] == r;
      } else {
        ItemsBegin(items, dict, tail);
        GroupReads(dict, pad, rest);
        ItemsRead(items, dict, r, names);
      }
  }

  lemma StringBegins(m: Mode, body: string, r: string)
    requires GoodString(m, body)
    ensures var s := StringText(m, body, true) + r; s != "" && s[0] == '"'
  {
  }

  lemma NoItems(dict: bool, names: NameTable, tail: string)
    ensures ItemsText(End, dict, true) + tail == tail && MembersOf(End, dict, names, true) == Some([])
  {
  }

  lemma {:induction false} ItemsRead(xs: Items, dict: bool, r: string, names: NameTable)
    requires GoodItems(xs, dict) && xs.More?
    ensures ReadGroup(ItemsText(xs, dict, true) + ([CloserOf(dict)] + r), dict) ==
      match MembersOf(xs, dict, names, true) case None => None case Some(ms) => Some((ms, r))
    decreases xs, 1
  {
    hide ItemsText, LiteralText, KeyText, ReadValue, ReadKey, KeyOf, ValueOf, Separator, SkipWhite;
    var tail := [CloserOf(dict)] + r;
    var more := Separator(xs.after, xs.before, xs.rest) + (ItemsText(xs.rest, dict, true) + tail);
    MoreText(xs, dict, true, tail);
    LiteralBegins(xs.value, more);
    KeyReads(xs.key, dict, LiteralText(xs.value, true) + more, names);
    SeparatorToken(xs, dict, tail);
    ValueReads(xs.value, more, names);
    SeparatorSkipped(xs, dict, tail);
    if xs.rest.End? {
      assert tail[1..] == r;
      NoItems(dict, names, tail);
      LastJoined(KeyOf(xs.key, dict, names, true), ValueOf(xs.value, names, true));
    } else {
      ItemsRead(xs.rest, dict, r, names);
    }
  }

  lemma LastJoined(key: Option<Option<Codes>>, value: Option<Data>)
    ensures Joined(key, value, Some([])) == if key.Some? && value.Some? then Some([(key.value, value.value)]) else None
  {
    if key.Some? && value.Some? {
      assert [(key.value, value.value)] + [] == [(key.value, value.value)];
    }
  }

  lemma NothingBetween(dict: bool, tail: string)
    ensures Separator("", "", End) + (ItemsText(End, dict, true) + tail) == tail
    ensures forall before: string :: Separator("", before, End) == ""
  {
  }

  lemma SeparatorToken(xs: Items, dict: bool, tail: string)
    requires GoodItems(xs, dict) && xs.More? && tail != "" && tail[0] == CloserOf(dict)
    ensures TokenEnds(Separator(xs.after, xs.before, xs.rest) + (ItemsText(xs.rest, dict, true) + tail))
  {
    hide LiteralText, KeyText, ItemsText;
    var w, t := Separator(xs.after, xs.before, xs.rest), ItemsText(xs.rest, dict, true) + tail;
    if xs.after == "" && xs.rest.End? {
      NothingBetween(dict, tail);
    } else {
      assert (w + t)[0] == w[0];
    }
  }

  /** Behind a value the reader finds the closer, or a comma and the next member. */
  lemma SeparatorSkipped(xs: Items, dict: bool, tail: string)
    requires GoodItems(xs, dict) && xs.More? && tail != "" && tail[0] == CloserOf(dict)
    ensures var t := SkipWhite(Separator(xs.after, xs.before, xs.rest) + (ItemsText(xs.rest, dict, true) + tail));
      if xs.rest.End? then t == tail
      else t != "" && t[0] == ',' && SkipWhite(t[1..]) == ItemsText(xs.rest, dict, true) + tail
  {
    hide SkipWhite;
    var t := ItemsText(xs.rest, dict, true) + tail;
    if xs.rest.End? {
      assert Separator(xs.after, xs.before, xs.rest) + t == xs.after + tail;
      WhiteSkipped(xs.after, tail);
    } else {
      hide ItemsText;
      var u := "," + (xs.before + t);
      assert Separator(xs.after, xs.before, xs.rest) + t == xs.after + u;
      WhiteSkipped(xs.after, u);
      ItemsBegin(xs.rest, dict, tail);
      WhiteSkipped(xs.before, t);
      assert u[1..] == xs.before + t;
    }
  }

  // ---- The same value on both sides ----

  lemma StringsAgree(m: Mode, body: string, names: NameTable)
    requires GoodString(m, body) && StringValue(m, body, names, false).Some?
    ensures StringValue(m, body, names, true) == StringValue(m, body, names, false) <==> SharedEscapes(body, m)
  {
    hide ReadBody, LiteralBody, Decode, SharedEscapes;
    LiteralMeaning(body, m, names);
  }

  lemma JoinedInjective(k: Option<Option<Codes>>, v: Option<Data>, r: Option<Members>,
    k': Option<Option<Codes>>, v': Option<Data>, r': Option<Members>)
    requires k'.Some? && v'.Some? && r'.Some?
    ensures Joined(k, v, r) == Joined(k', v', r') <==> k == k' && v == v' && r == r'
  {
    if k.Some? && v.Some? && r.Some? {
      var a, b := [(k.value, v.value)] + r.value, [(k'.value, v'.value)] + r'.value;
      assert a[0] == (k.value, v.value) && b[0] == (k'.value, v'.value) && a[1..] == r.value && b[1..] == r'.value;
    }
  }

  lemma KeysAgree(k: Key, dict: bool, names: NameTable)
    requires GoodKey(k, dict) && KeyOf(k, dict, names, false).Some?
    ensures KeyOf(k, dict, names, true) == KeyOf(k, dict, names, false) <==> KeyShared(k)
  {
    hide StringValue;
    if k.Key? {
      StringsAgree(k.m, k.body, names);
    }
  }

  lemma {:induction false} ValuesAgree(v: Literal, names: NameTable)
    requires GoodLiteral(v) && ValueOf(v, names, false).Some?
    ensures ValueOf(v, names, true) == ValueOf(v, names, false) <==> AllShared(v)
    decreases v
  {
    hide StringValue, MembersOf, ItemsShared;
    match v {
      case StringLit(m, body) => StringsAgree(m, body, names);
      case GroupLit(dict, pad, items) => MembersAgree(items, dict, names);
      case _ =>
    }
  }

  lemma {:induction false} MembersAgree(xs: Items, dict: bool, names: NameTable)
    requires GoodItems(xs, dict) && MembersOf(xs, dict, names, false).Some?
    ensures MembersOf(xs, dict, names, true) == MembersOf(xs, dict, names, false) <==> ItemsShared(xs)
    decreases xs
  {
    hide KeyOf, ValueOf, KeyShared, AllShared;
    if xs.More? {
      KeysAgree(xs.key, dict, names);
      ValuesAgree(xs.value, names);
      MembersAgree(xs.rest, dict, names);
      JoinedInjective(
        KeyOf(xs.key, dict, names, true), ValueOf(xs.value, names, true), MembersOf(xs.rest, dict, names, true),
        KeyOf(xs.key, dict, names, false), ValueOf(xs.value, names, false), MembersOf(xs.rest, dict, names, false));
    }
  }

  /**
   For every Python value, however it is spaced: its translation is the JSON text of the same shape,
   and reading that text as JSON gives the value that Python gives the original exactly when all its
   strings use only shared escapes and all its numbers are numbers of JSON.
   */
  lemma ValueMeaning(v: Literal, names: NameTable)
    requires GoodLiteral(v) && ValueOf(v, names, false).Some?
    ensures Normalized(LiteralText(v, false)) == LiteralText(v, true)
    ensures ReadText(Normalized(LiteralText(v, false))) == ValueOf(v, names, false) <==> AllShared(v)
  {
    hide Rest, LiteralText, ValueOf, AllShared, ReadValue;
    var py, js := LiteralText(v, false), LiteralText(v, true);
    Translates(v, "");
    assert py + "" == py && js + "" == js;
    NothingLeft();
    ValueReads(v, "", names);
    LiteralBegins(v, "");
    WhiteSkipped("", js);
    assert "" + js == js;
    ValuesAgree(v, names);
  }

  /** A number of Python whose translation, the number itself, is no JSON text. */
  lemma NumberFails()
    ensures IsPyNumber(".5") && Normalized(".5") == ".5" && ReadText(".5").None?
  {
    hide Rest, ReadValue, SkipWhite, IsPyNumber, IsJsonNumber;
    PointFirst();
    NothingLeft();
    assert ".5" + "" == ".5" && "" + ".5" == ".5";
    NumberTranslates(".5", "");
    NumberReads(".5", "");
    WhiteSkipped("", ".5");
  }

  lemma NothingLeft()
    ensures Rest("", false, Bare) == "" && SkipWhite("") == ""
  {
  }
}
