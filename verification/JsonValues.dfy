/** Reading a JSON text: a value, and what is left after it. */
module JsonValues {
  import opened Text
  import opened Json
  import opened ArgumentsText

  /** A value; arrays and objects are groups, and the members of an object have keys. */
  datatype Data =
    | Str(codes: Codes)
    | Number(text: string)
    | Flag(value: bool)
    | Null
    | Group(dict: bool, members: seq<(Option<Codes>, Data)>)

  type Members = seq<(Option<Codes>, Data)>

  predicate IsWhite(c: char) {
    c in " \t\n\r"
  }

  function SkipWhite(s: string): (r: string)
    ensures |r| <= |s|
  {
    if s != "" && IsWhite(s[0]) then SkipWhite(s[1..]) else s
  }

  // ---- Numbers and words ----

  function DigitsLen(s: string): (n: nat)
    ensures n <= |s|
  {
    if s != "" && IsDigit(s[0]) then 1 + DigitsLen(s[1..]) else 0
  }

  function WithoutSign(s: string): string {
    if s != "" && (s[0] == '+' || s[0] == '-') then s[1..] else s
  }

  /** A number (section 6 of RFC 8259): no leading zero, no plus sign, and digits on both sides of a point. */
  predicate IsJsonNumber(t: string) {
    var u := if t != "" && t[0] == '-' then t[1..] else t;
    var n := DigitsLen(u);
    n > 0 && (u[0] == '0' ==> n == 1) && IsJsonFraction(u[n..])
  }

  /** An optional fraction and an optional exponent. */
  predicate IsJsonFraction(t: string) {
    if t != "" && t[0] == '.' then
      var n := DigitsLen(t[1..]);
      n > 0 && IsJsonExponent(t[1 + n..])
    else IsJsonExponent(t)
  }

  predicate IsJsonExponent(t: string) {
    t == "" || ((t[0] == 'e' || t[0] == 'E') && var u := WithoutSign(t[1..]); u != "" && DigitsLen(u) == |u|)
  }

  /** The characters of numbers and words. */
  predicate IsTokenChar(c: char) {
    IsWordChar(c) || c == '.' || c == '+' || c == '-'
  }

  function TokenLen(s: string): (n: nat)
    ensures n <= |s|
  {
    if s != "" && IsTokenChar(s[0]) then 1 + TokenLen(s[1..]) else 0
  }

  function TokenValue(t: string): (d: Option<Data>)
    ensures d.Some? ==> t != ""
  {
    if t == "true" || t == "false" then Some(Flag(t == "true"))
    else if t == "null" then Some(Null)
    else if IsJsonNumber(t) then Some(Number(t))
    else None
  }

  /** A number or a word at the front of `s`. */
  function ReadToken(s: string): (r: Option<(Data, string)>)
    ensures r.Some? ==> |r.value.1| < |s|
  {
    var n := TokenLen(s);
    match TokenValue(s[..n])
    case None => None
    case Some(d) => Some((d, s[n..]))
  }

  // ---- Values ----

  /** A string at the front of `s`. */
  function ReadString(s: string): (r: Option<(Codes, string)>)
    ensures r.Some? ==> |r.value.1| < |s|
  {
    if s == "" || s[0] != '"' then None
    else
      var t := s[1..];
      var k := BodyEnd(t);
      if k == |t| || ReadBody(t[..k]).None? then None else Some((ReadBody(t[..k]).value, t[k + 1..]))
  }

  /** A key and the colon after it, in an object only. */
  function ReadKey(s: string, dict: bool): (r: Option<(Option<Codes>, string)>)
    ensures r.Some? ==> |r.value.1| <= |s|
  {
    if !dict then Some((None, s))
    else
      match ReadString(s)
      case None => None
      case Some((codes, rest)) =>
        var t := SkipWhite(rest);
        if t == "" || t[0] != ':' then None else Some((Some(codes), SkipWhite(t[1..])))
  }

  function CloserOf(dict: bool): char {
    if dict then '}' else ']'
  }

  function OpenerOf(dict: bool): char {
    if dict then '{' else '['
  }

  function AsGroup(dict: bool, r: Option<(Members, string)>): Option<(Data, string)> {
    match r
    case None => None
    case Some((members, rest)) => Some((Group(dict, members), rest))
  }

  function ReadValue(s: string): (r: Option<(Data, string)>)
    ensures r.Some? ==> |r.value.1| < |s|
    decreases |s|, 0
  {
    if s == "" then None
    else if s[0] == '"' then
      match ReadString(s)
      case None => None
      case Some((codes, rest)) => Some((Str(codes), rest))
    else if s[0] == '[' || s[0] == '{' then
      var dict, t := s[0] == '{', SkipWhite(s[1..]);
      if t != "" && t[0] == CloserOf(dict) then Some((Group(dict, []), t[1..]))
      else AsGroup(dict, ReadGroup(t, dict))
    else ReadToken(s)
  }

  /** The members of a group, up to and including its closer. */
  function ReadGroup(s: string, dict: bool): (r: Option<(Members, string)>)
    ensures r.Some? ==> |r.value.1| < |s|
    decreases |s|, 2
  {
    match ReadKey(s, dict)
    case None => None
    case Some((key, rest)) => ReadMember(rest, dict, key)
  }

  function ReadMember(s: string, dict: bool, key: Option<Codes>): (r: Option<(Members, string)>)
    ensures r.Some? ==> |r.value.1| < |s|
    decreases |s|, 1
  {
    match ReadValue(s)
    case None => None
    case Some((value, rest)) =>
      var t := SkipWhite(rest);
      if t == "" then None
      else if t[0] == CloserOf(dict) then Some(([(key, value)], t[1..]))
      else if t[0] != ',' then None
      else
        match ReadGroup(SkipWhite(t[1..]), dict)
        case None => None
        case Some((more, left)) => Some(([(key, value)] + more, left))
  }

  /** The value of a whole text, with white space around it. */
  function ReadText(s: string): Option<Data> {
    match ReadValue(SkipWhite(s))
    case None => None
    case Some((value, rest)) => if SkipWhite(rest) == "" then Some(value) else None
  }
}
