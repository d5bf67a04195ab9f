/**
 Base64 decoding over either alphabet (sections 4 and 5 of RFC 4648), out of place and in place. The
 decoder keeps only the last value and a bit count; it is measured against the string of bits it reads.
 */
module Base64 {
  import opened Bits

  datatype Alphabet = Auto | Standard | UrlSafe

  datatype Behavior = Moderate | Loose

  datatype Decoded = Ok(bytes: seq<bv8>) | InvalidCharacter

  const PAD: bv8 := 0x3D

  // ---- Characters ----

  /** The character of a 6-bit value; a url-safe alphabet differs in the last two. */
  function Digit(v: bv8, url: bool): bv8
    requires v < 64
  {
    if v < 26 then v + 0x41
    else if v < 52 then v - 26 + 0x61
    else if v < 62 then v - 52 + 0x30
    else if v == 62 then (if url then 0x2D else 0x2B)
    else if url then 0x5F else 0x2F
  }

  /** `_base64_value`: the value of a character and the alphabet after it, if the character is valid. */
  datatype Lookup = Found(value: bv8, alphabet: Alphabet) | NotFound

  function ValueOf(alphabet: Alphabet, c: bv8): (l: Lookup)
    ensures l.Found? ==> l.value < 64 && c != PAD
  {
    if 0x41 <= c <= 0x5A then Found(c - 0x41, alphabet)
    else if 0x61 <= c <= 0x7A then Found(c - 0x61 + 26, alphabet)
    else if 0x30 <= c <= 0x39 then Found(c - 0x30 + 52, alphabet)
    else if c == 0x2B && alphabet != UrlSafe then Found(62, Standard)
    else if c == 0x2F && alphabet != UrlSafe then Found(63, Standard)
    else if c == 0x2D && alphabet != Standard then Found(62, UrlSafe)
    else if c == 0x5F && alphabet != Standard then Found(63, UrlSafe)
    else NotFound
  }

  // ---- Decoding ----

  predicate AllPad(s: seq<bv8>) {
    forall k :: 0 <= k < |s| ==> s[k] == PAD
  }

  function Emitted(last: bv8, bits: nat, value: bv8): seq<bv8> {
    if bits >= 2 then [Joined(last, bits, value)] else []
  }

  function Prepend(out: seq<bv8>, d: Decoded): Decoded {
    if d.Ok? then Ok(out + d.bytes) else d
  }

  /** What the loop makes of `s` when it holds `bits` bits of `last`. */
  function DecodeFrom(s: seq<bv8>, alphabet: Alphabet, last: bv8, bits: nat, behavior: Behavior): Decoded {
    if s == [] then Ok([])
    else if s[0] == PAD then (if behavior == Loose || AllPad(s[1..]) then Ok([]) else InvalidCharacter)
    else
      match ValueOf(alphabet, s[0])
      case NotFound => InvalidCharacter
      case Found(v, a) => Prepend(Emitted(last, bits, v), DecodeFrom(s[1..], a, v, NextBits(bits), behavior))
  }

  function DecodedText(s: seq<bv8>, alphabet: Alphabet, behavior: Behavior): Decoded {
    DecodeFrom(s, alphabet, 0, 0, behavior)
  }

  method Value(alphabet: Alphabet, c: bv8) returns (l: Lookup)
    ensures l == ValueOf(alphabet, c)
  {
    if 0x41 <= c && c <= 0x5A {
      return Found(c - 0x41, alphabet);
    } else if 0x61 <= c && c <= 0x7A {
      return Found(c - 0x61 + 26, alphabet);
    } else if 0x30 <= c && c <= 0x39 {
      return Found(c - 0x30 + 52, alphabet);
    }
    if alphabet == Standard {
      if c == 0x2B { return Found(62, alphabet); } else if c == 0x2F { return Found(63, alphabet); }
    } else if alphabet == UrlSafe {
      if c == 0x2D { return Found(62, alphabet); } else if c == 0x5F { return Found(63, alphabet); }
    } else {
      if c == 0x2B {
        return Found(62, Standard);
      } else if c == 0x2F {
        return Found(63, Standard);
      } else if c == 0x2D {
        return Found(62, UrlSafe);
      } else if c == 0x5F {
        return Found(63, UrlSafe);
      }
    }
    return NotFound;
  }

  /** What the loop has written from the characters before position `i`, and what it holds. */
  ghost predicate Reached(s: seq<bv8>, alphabet: Alphabet, behavior: Behavior, out: seq<bv8>, i: nat, known: Alphabet,
    last: bv8, bits: nat) {
    i <= |s| && Prepend(out, DecodeFrom(s[i..], known, last, bits, behavior)) == DecodedText(s, alphabet, behavior)
  }

  lemma ReachedStart(s: seq<bv8>, alphabet: Alphabet, behavior: Behavior)
    ensures Reached(s, alphabet, behavior, [], 0, alphabet, 0, 0)
  {
    hide DecodeFrom;
    assert s[0..] == s;
  }

  lemma ReachedEnd(s: seq<bv8>, alphabet: Alphabet, behavior: Behavior, out: seq<bv8>, known: Alphabet, last: bv8,
    bits: nat)
    requires Reached(s, alphabet, behavior, out, |s|, known, last, bits)
    ensures DecodedText(s, alphabet, behavior) == Ok(out)
  {
    assert s[|s|..] == [] && out + [] == out;
  }

  lemma ReachedPad(s: seq<bv8>, alphabet: Alphabet, behavior: Behavior, out: seq<bv8>, i: nat, known: Alphabet,
    last: bv8, bits: nat)
    requires Reached(s, alphabet, behavior, out, i, known, last, bits) && i < |s| && s[i] == PAD
    ensures DecodedText(s, alphabet, behavior) == if behavior == Loose || AllPad(s[i + 1..]) then Ok(out)
      else InvalidCharacter
  {
    assert s[i..][1..] == s[i + 1..] && out + [] == out;
  }

  lemma ReachedValue(s: seq<bv8>, alphabet: Alphabet, behavior: Behavior, out: seq<bv8>, i: nat, known: Alphabet,
    last: bv8, bits: nat)
    requires Reached(s, alphabet, behavior, out, i, known, last, bits) && i < |s| && s[i] != PAD
    ensures match ValueOf(known, s[i])
      case NotFound => DecodedText(s, alphabet, behavior) == InvalidCharacter
      case Found(v, a) => Reached(s, alphabet, behavior, out + Emitted(last, bits, v), i + 1, a, v, NextBits(bits))
  {
    hide ValueOf, Emitted;
    assert s[i..][1..] == s[i + 1..];
    match ValueOf(known, s[i]) {
      case NotFound =>
      case Found(v, a) =>
        var d := DecodeFrom(s[i + 1..], a, v, NextBits(bits), behavior);
        if d.Ok? { assert out + (Emitted(last, bits, v) + d.bytes) == out + Emitted(last, bits, v) + d.bytes; }
    }
  }

  /** Out-of-place decoding. */
  method Decode(s: seq<bv8>, alphabet: Alphabet, behavior: Behavior) returns (d: Decoded)
    ensures d == DecodedText(s, alphabet, behavior)
  {
    hide ValueOf, Joined, Reached, DecodedText;
    var known, last, bits: nat, i := alphabet, 0 as bv8, 0, 0;
    var out: seq<bv8> := [];
    ReachedStart(s, alphabet, behavior);
    while i < |s|
      invariant i <= |s| && IsBitCount(bits)
      invariant Reached(s, alphabet, behavior, out, i, known, last, bits)
    {
      var c := s[i];
      if c == PAD {
        ReachedPad(s, alphabet, behavior, out, i, known, last, bits);
        if behavior != Loose {
          i := i + 1;
          ghost var from := i;
          while i < |s|
            invariant from <= i <= |s| && AllPad(s[from..i])
          {
            if s[i] != PAD {
              assert s[from..][i - from] != PAD;
              return InvalidCharacter;
            }
            assert s[from..i + 1] == s[from..i] + [s[i]];
            i := i + 1;
          }
          assert s[from..i] == s[from..];
        }
        return Ok(out);
      }
      var l := Value(known, c);
      ReachedValue(s, alphabet, behavior, out, i, known, last, bits);
      if l.NotFound? {
        return InvalidCharacter;
      }
      if bits + 6 >= 8 {
        out := out + [Joined(last, bits, l.value)];
        bits := bits - 2;
      } else {
        assert out + [] == out;
        bits := bits + 6;
      }
      last, known, i := l.value, l.alphabet, i + 1;
    }
    ReachedEnd(s, alphabet, behavior, out, known, last, bits);
    return Ok(out);
  }

  /**
   In-place decoding: the input and the output share the buffer. The write index stays behind the
   read index, so nothing is overwritten before it has been read.
   */
  method DecodeInPlace(a: array<bv8>, size: nat, alphabet: Alphabet, behavior: Behavior)
    returns (ok: bool, written: nat)
    requires size <= a.Length
    modifies a
    ensures ok <==> DecodedText(old(a[..size]), alphabet, behavior).Ok?
    ensures ok ==> written <= size && a[..written] == DecodedText(old(a[..size]), alphabet, behavior).bytes
    ensures ok ==> a[written..] == old(a[written..])
  {
    hide ValueOf, Joined, Reached, DecodedText;
    ghost var s := a[..size];
    var known, last, bits: nat, i := alphabet, 0 as bv8, 0, 0;
    written := 0;
    ReachedStart(s, alphabet, behavior);
    while i < size
      invariant i <= size && IsBitCount(bits) && 8 * written + bits == 6 * i
      invariant forall k :: written <= k < a.Length ==> a[k] == old(a[k])
      invariant Reached(s, alphabet, behavior, a[..written], i, known, last, bits)
    {
      var c := a[i];
      if c == PAD {
        ReachedPad(s, alphabet, behavior, a[..written], i, known, last, bits);
        ok := true;
        if behavior != Loose {
          ok := OnlyPadding(a, i + 1, size);
          assert a[i + 1..size] == s[i + 1..];
        }
        return;
      }
      var l := Value(known, c);
      ghost var before := a[..written];
      ReachedValue(s, alphabet, behavior, before, i, known, last, bits);
      if l.NotFound? {
        return false, written;
      }
      if bits + 6 >= 8 {
        a[written] := Joined(last, bits, l.value);
        written := written + 1;
        bits := bits - 2;
        assert a[..written] == before + [a[written - 1]];
      } else {
        assert before + [] == before;
        bits := bits + 6;
      }
      last, known, i := l.value, l.alphabet, i + 1;
    }
    ReachedEnd(s, alphabet, behavior, a[..written], known, last, bits);
    ok := true;
  }

  /** The padding check over the rest of the buffer. */
  method OnlyPadding(a: array<bv8>, from: nat, to: nat) returns (b: bool)
    requires from <= to <= a.Length
    ensures b <==> AllPad(a[from..to])
  {
    for i := from to to
      invariant AllPad(a[from..i])
    {
      if a[i] != PAD {
        assert a[from..to][i - from] != PAD;
        return false;
      }
      assert a[from..i + 1] == a[from..i] + [a[i]];
    }
    b := true;
  }

  // ---- What decoding accepts and yields ----

  predicate IsCommon(c: bv8) {
    0x41 <= c <= 0x5A || 0x61 <= c <= 0x7A || 0x30 <= c <= 0x39
  }

  predicate InAlphabet(c: bv8, url: bool) {
    IsCommon(c) || (if url then c == 0x2D || c == 0x5F else c == 0x2B || c == 0x2F)
  }

  predicate AllIn(t: seq<bv8>, url: bool) {
    forall k :: 0 <= k < |t| ==> InAlphabet(t[k], url)
  }

  /** One consistent alphabet: the given one, or either one when it is detected. */
  predicate Accepts(alphabet: Alphabet, t: seq<bv8>) {
    match alphabet
    case Standard => AllIn(t, false)
    case UrlSafe => AllIn(t, true)
    case Auto => AllIn(t, false) || AllIn(t, true)
  }

  /** The 6-bit value of a character of either alphabet. */
  function Sextet(c: bv8): bv8 {
    if 0x41 <= c <= 0x5A then c - 0x41
    else if 0x61 <= c <= 0x7A then c - 0x61 + 26
    else if 0x30 <= c <= 0x39 then c - 0x30 + 52
    else if c == 0x2B || c == 0x2D then 62
    else 63
  }

  function Sextets(t: seq<bv8>): (vs: seq<bv8>)
    ensures |vs| == |t|
  {
    if t == [] then [] else [Sextet(t[0])] + Sextets(t[1..])
  }

  function FirstPad(s: seq<bv8>): (n: nat)
    ensures n <= |s| && (n < |s| ==> s[n] == PAD)
  {
    if s == [] || s[0] == PAD then 0 else 1 + FirstPad(s[1..])
  }

  lemma LookupAccepts(alphabet: Alphabet, c: bv8, t: seq<bv8>)
    requires c != PAD
    ensures Accepts(alphabet, [c] + t) <==>
      ValueOf(alphabet, c).Found? && Accepts(ValueOf(alphabet, c).alphabet, t)
    ensures ValueOf(alphabet, c).Found? ==> ValueOf(alphabet, c).value == Sextet(c)
  {
    AllInCons(c, t, true);
    AllInCons(c, t, false);
    hide AllIn;
  }

  lemma AllInCons(c: bv8, t: seq<bv8>, url: bool)
    ensures AllIn([c] + t, url) <==> InAlphabet(c, url) && AllIn(t, url)
  {
    hide InAlphabet;
    var u := [c] + t;
    assert u[0] == c;
    assert forall k :: 0 <= k < |t| ==> t[k] == u[k + 1];
  }

  lemma {:induction false} DecodeShape(s: seq<bv8>, alphabet: Alphabet, last: bv8, bits: nat, behavior: Behavior)
    ensures var n, d := FirstPad(s), DecodeFrom(s, alphabet, last, bits, behavior);
      && (d.Ok? <==> Accepts(alphabet, s[..n]) && (behavior == Loose || AllPad(s[n..])))
      && (d.Ok? ==> d.bytes == Unpack(Sextets(s[..n]), last, bits))
    decreases |s|
  {
    hide ValueOf, Joined, InAlphabet, Sextet, Accepts, AllPad, Emitted;
    var n := FirstPad(s);
    if s == [] || s[0] == PAD {
      assert s[..0] == [] && s[0..] == s;
      PadFirst(s);
      AcceptsNothing(alphabet);
    } else {
      var c, t := s[0], s[1..];
      var t0 := t[..n - 1];
      assert s[..n] == [c] + t0 && s[n..] == t[n - 1..];
      LookupAccepts(alphabet, c, t0);
      match ValueOf(alphabet, c) {
        case NotFound =>
        case Found(v, a) =>
          DecodeShape(t, a, v, NextBits(bits), behavior);
          assert Sextets(s[..n]) == [v] + Sextets(t0);
          assert ([v] + Sextets(t0))[1..] == Sextets(t0);
          UnpackFirst(v, Sextets(t0), last, bits);
      }
    }
  }

  lemma UnpackFirst(v: bv8, vs: seq<bv8>, last: bv8, bits: nat)
    ensures Unpack([v] + vs, last, bits) == Emitted(last, bits, v) + Unpack(vs, v, NextBits(bits))
  {
    hide Joined;
    assert ([v] + vs)[1..] == vs;
  }

  lemma AcceptsNothing(alphabet: Alphabet)
    ensures Accepts(alphabet, [])
  {
  }

  lemma PadFirst(s: seq<bv8>)
    ensures s == [] ==> AllPad(s)
    ensures s != [] && s[0] == PAD ==> (AllPad(s) <==> AllPad(s[1..]))
  {
    if s != [] {
      assert forall k :: 0 < k < |s| ==> s[k] == s[1..][k - 1];
    }
  }

  lemma {:induction false} SextetsAreValues(t: seq<bv8>)
    ensures AreValues(Sextets(t))
  {
    if t != [] {
      SextetsAreValues(t[1..]);
      assert Sextet(t[0]) < 64;
      hide Sextet;
      assert Sextets(t) == [Sextet(t[0])] + Sextets(t[1..]);
    }
  }

  /**
   Moderate decoding succeeds exactly when what comes before the first padding character uses one
   consistent alphabet and everything after it is padding; loose decoding only asks for the former.
   The bytes are the whole bytes of the concatenated 6-bit values.
   */
  lemma DecodeDenotation(s: seq<bv8>, alphabet: Alphabet, behavior: Behavior)
    ensures var n, d := FirstPad(s), DecodedText(s, alphabet, behavior);
      && (d.Ok? <==> Accepts(alphabet, s[..n]) && (behavior == Loose || AllPad(s[n..])))
      && (d.Ok? ==> |d.bytes| == 6 * n / 8 && OctetBits(d.bytes) == SextetBits(Sextets(s[..n]))[..6 * n / 8 * 8])
  {
    var n := FirstPad(s);
    DecodeShape(s, alphabet, 0, 0, behavior);
    SextetsAreValues(s[..n]);
    UnpackBits(Sextets(s[..n]), 0, 0);
    hide Unpack, DecodeFrom, Accepts, SextetBits, OctetBits, Sextets;
    assert Pending(0, 0) + SextetBits(Sextets(s[..n])) == SextetBits(Sextets(s[..n]));
  }

  /** `max_decode_size`. */
  function MaxDecodeSize(size: nat): nat {
    (size / 4 + if size % 4 != 0 then 1 else 0) * 3
  }

  /** `required_encode_size`. */
  function RequiredEncodeSize(size: nat): nat {
    (size / 3 + if size % 3 != 0 then 1 else 0) * 4
  }

  lemma DecodedFits(s: seq<bv8>, alphabet: Alphabet, behavior: Behavior)
    ensures MaxDecodeSize(|s|) == (|s| + 3) / 4 * 3
    ensures var d := DecodedText(s, alphabet, behavior);
      && (d.Ok? ==> |d.bytes| <= MaxDecodeSize(|s|))
      && (d.Ok? && |s| % 4 == 0 && 0x3D !in s ==> |d.bytes| == MaxDecodeSize(|s|))
  {
    DecodeDenotation(s, alphabet, behavior);
    if 0x3D !in s { NoPad(s); }
    hide DecodedText;
  }

  lemma {:induction false} NoPad(s: seq<bv8>)
    requires 0x3D !in s
    ensures FirstPad(s) == |s|
  {
    if s != [] { NoPad(s[1..]); }
  }
}
