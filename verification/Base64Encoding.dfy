/** Base64 encoding (sections 4 and 5 of RFC 4648): packing bytes into 6-bit values, and the round trip. */
module Base64Encoding {
  import opened Bits
  import opened Base64
  import opened Text

  function High6(b0: bv8): bv8 {
    (b0 >> 2) & 0x3F
  }

  function Mid6(b0: bv8, b1: bv8): bv8 {
    ((b0 & 3) << 4) | ((b1 >> 4) & 0x0F)
  }

  function Next6(b1: bv8, b2: bv8): bv8 {
    ((b1 & 0x0F) << 2) | ((b2 >> 6) & 3)
  }

  function Low6(b2: bv8): bv8 {
    b2 & 0x3F
  }

  /** The 6-bit values of a byte string; the last one is filled up with zero bits. */
  function Packed(b: seq<bv8>): (vs: seq<bv8>) {
    if b == [] then []
    else if |b| == 1 then [High6(b[0]), Mid6(b[0], 0)]
    else if |b| == 2 then [High6(b[0]), Mid6(b[0], b[1]), Next6(b[1], 0)]
    else [High6(b[0]), Mid6(b[0], b[1]), Next6(b[1], b[2]), Low6(b[2])] + Packed(b[3..])
  }

  lemma GroupBits(b0: bv8, b1: bv8, b2: bv8)
    ensures Bits6(High6(b0)) + Bits6(Mid6(b0, b1)) + Bits6(Next6(b1, b2)) + Bits6(Low6(b2)) ==
      Bits8(b0) + Bits8(b1) + Bits8(b2)
    ensures High6(b0) < 64 && Mid6(b0, b1) < 64 && Next6(b1, b2) < 64 && Low6(b2) < 64
  {
    HighBits(b0);
    MidBits(b0, b1);
    NextBitsOf(b1, b2);
    hide Bits8, Bits6, High6, Mid6, Next6, Low6;
    LowBits(b2);
    Regroup(Bits8(b0), Bits8(b1), Bits8(b2));
  }

  lemma Regroup(x: seq<bool>, y: seq<bool>, z: seq<bool>)
    requires |x| == |y| == |z| == 8
    ensures x[..6] + (x[6..] + y[..4]) + (y[4..] + z[..2]) + z[2..] == x + y + z
  {
  }

  lemma HighBits(b0: bv8)
    ensures Bits6(High6(b0)) == Bits8(b0)[..6] && High6(b0) < 64
  {
  }

  lemma MidBits(b0: bv8, b1: bv8)
    ensures Bits6(Mid6(b0, b1)) == Bits8(b0)[6..] + Bits8(b1)[..4] && Mid6(b0, b1) < 64
  {
    MidHas(b0, b1);
    hide Has, Bits8, Bits6, Mid6;
    Bits6At(Mid6(b0, b1));
    Bits8At(b0);
    Bits8At(b1);
    assert Bits6(Mid6(b0, b1)) == Bits8(b0)[6..] + Bits8(b1)[..4];
  }

  lemma MidHas(b0: bv8, b1: bv8)
    ensures var m := Mid6(b0, b1);
      && m < 64 && Has(m, 0x20) == Has(b0, 2) && Has(m, 0x10) == Has(b0, 1)
      && Has(m, 8) == Has(b1, 0x80) && Has(m, 4) == Has(b1, 0x40) && Has(m, 2) == Has(b1, 0x20)
      && Has(m, 1) == Has(b1, 0x10)
  {
  }

  lemma NextBitsOf(b1: bv8, b2: bv8)
    ensures Bits6(Next6(b1, b2)) == Bits8(b1)[4..] + Bits8(b2)[..2] && Next6(b1, b2) < 64
  {
  }

  lemma LowBits(b2: bv8)
    ensures Bits6(Low6(b2)) == Bits8(b2)[2..] && Low6(b2) < 64
  {
  }

  function Zeros(n: nat): seq<bool> {
    seq(n, _ => false)
  }

  /** How many zero bits fill up the last value, and how many padding characters follow. */
  function PadCount(size: nat): nat {
    if size % 3 == 0 then 0 else 3 - size % 3
  }

  lemma {:induction false} OctetAppend(a: seq<bv8>, b: seq<bv8>)
    ensures OctetBits(a + b) == OctetBits(a) + OctetBits(b)
  {
    hide Bits8;
    if a == [] {
      assert a + b == b;
    } else {
      assert (a + b)[1..] == a[1..] + b;
      OctetAppend(a[1..], b);
    }
  }

  lemma {:induction false} SextetAppend(a: seq<bv8>, b: seq<bv8>)
    ensures SextetBits(a + b) == SextetBits(a) + SextetBits(b)
  {
    hide Bits6;
    if a == [] {
      assert a + b == b;
    } else {
      assert (a + b)[1..] == a[1..] + b;
      SextetAppend(a[1..], b);
    }
  }

  lemma OctetOne(x: bv8)
    ensures OctetBits([x]) == Bits8(x)
  {
    hide Bits8;
    assert [x][1..] == [] && Bits8(x) + [] == Bits8(x);
  }

  lemma SextetTwo(p: bv8, q: bv8)
    ensures SextetBits([p, q]) == Bits6(p) + Bits6(q) && SextetBits([p]) == Bits6(p)
  {
    hide Bits6;
    assert [p, q][1..] == [q] && [q][1..] == [] && [p][1..] == [];
    assert Bits6(q) + [] == Bits6(q) && Bits6(p) + [] == Bits6(p);
  }

  lemma OctetThree(x: bv8, y: bv8, z: bv8)
    ensures OctetBits([x, y]) == Bits8(x) + Bits8(y)
    ensures OctetBits([x, y, z]) == Bits8(x) + Bits8(y) + Bits8(z)
  {
    hide Bits8, OctetBits;
    OctetOne(x);
    OctetOne(y);
    OctetOne(z);
    OctetAppend([x], [y]);
    OctetAppend([x, y], [z]);
    assert [x] + [y] == [x, y] && [x, y] + [z] == [x, y, z];
  }

  lemma SextetFour(p: bv8, q: bv8, r: bv8, t: bv8)
    ensures SextetBits([p, q, r]) == Bits6(p) + Bits6(q) + Bits6(r)
    ensures SextetBits([p, q, r, t]) == Bits6(p) + Bits6(q) + Bits6(r) + Bits6(t)
  {
    hide Bits6, SextetBits;
    SextetTwo(p, q);
    SextetTwo(r, t);
    SextetAppend([p, q], [r]);
    SextetAppend([p, q], [r, t]);
    assert [p, q] + [r] == [p, q, r] && [p, q] + [r, t] == [p, q, r, t];
    assert Bits6(p) + Bits6(q) + (Bits6(r) + Bits6(t)) == Bits6(p) + Bits6(q) + Bits6(r) + Bits6(t);
  }

  /** The packed values are the bits of the bytes, filled up with zeros to a multiple of six. */
  lemma {:induction false} PackedBits(b: seq<bv8>)
    ensures AreValues(Packed(b)) && SextetBits(Packed(b)) == OctetBits(b) + Zeros(2 * PadCount(|b|))
    decreases |b|
  {
    if b == [] {
    } else if |b| == 1 {
      hide High6, Mid6, OctetBits, SextetBits;
      PackedOne(b[0]);
      assert b == [b[0]];
    } else if |b| == 2 {
      hide High6, Mid6, Next6, OctetBits, SextetBits;
      PackedTwo(b[0], b[1]);
      assert b == [b[0], b[1]];
    } else {
      PackedBits(b[3..]);
      PackedGroup(b);
    }
  }

  lemma JoinGroup(g: seq<bv8>, vs: seq<bv8>, b: seq<bv8>, more: seq<bv8>, zeros: seq<bool>)
    requires SextetBits(g) == OctetBits(b) && SextetBits(vs) == OctetBits(more) + zeros
    ensures SextetBits(g + vs) == OctetBits(b + more) + zeros
  {
    SextetAppend(g, vs);
    OctetAppend(b, more);
    hide SextetBits, OctetBits;
    assert OctetBits(b) + (OctetBits(more) + zeros) == OctetBits(b) + OctetBits(more) + zeros;
  }

  lemma GroupValues(x: bv8, y: bv8, z: bv8)
    ensures var g := [High6(x), Mid6(x, y), Next6(y, z), Low6(z)];
      AreValues(g) && SextetBits(g) == OctetBits([x, y, z])
  {
    hide Bits8, Bits6, High6, Mid6, Next6, Low6, OctetBits, SextetBits;
    GroupBits(x, y, z);
    OctetThree(x, y, z);
    SextetFour(High6(x), Mid6(x, y), Next6(y, z), Low6(z));
  }

  lemma PackedUnfolds(b: seq<bv8>)
    requires |b| >= 3
    ensures Packed(b) == [High6(b[0]), Mid6(b[0], b[1]), Next6(b[1], b[2]), Low6(b[2])] + Packed(b[3..])
    ensures PadCount(|b|) == PadCount(|b| - 3)
  {
    PadPeriodic(|b| - 3);
    hide High6, Mid6, Next6, Low6, PadCount;
  }

  lemma PadPeriodic(n: nat)
    ensures PadCount(n + 3) == PadCount(n)
  {
  }

  lemma ValuesAppend(g: seq<bv8>, vs: seq<bv8>)
    requires AreValues(g) && AreValues(vs)
    ensures AreValues(g + vs)
  {
  }

  lemma PackedGroup(b: seq<bv8>)
    requires |b| >= 3 && AreValues(Packed(b[3..]))
    requires SextetBits(Packed(b[3..])) == OctetBits(b[3..]) + Zeros(2 * PadCount(|b| - 3))
    ensures AreValues(Packed(b)) && SextetBits(Packed(b)) == OctetBits(b) + Zeros(2 * PadCount(|b|))
  {
    hide High6, Mid6, Next6, Low6, OctetBits, SextetBits, Zeros, Packed, PadCount, AreValues;
    PackedUnfolds(b);
    GroupValues(b[0], b[1], b[2]);
    ValuesAppend([High6(b[0]), Mid6(b[0], b[1]), Next6(b[1], b[2]), Low6(b[2])], Packed(b[3..]));
    var g, h := [High6(b[0]), Mid6(b[0], b[1]), Next6(b[1], b[2]), Low6(b[2])], [b[0], b[1], b[2]];
    JoinGroup(g, Packed(b[3..]), h, b[3..], Zeros(2 * PadCount(|b|)));
    assert h + b[3..] == b;
  }

  lemma PackedOne(x: bv8)
    ensures var vs := [High6(x), Mid6(x, 0)]; AreValues(vs) && SextetBits(vs) == OctetBits([x]) + Zeros(4)
  {
    HighBits(x);
    MidBits(x, 0);
    assert Bits8(0)[..4] == Zeros(4);
    hide Bits8, Bits6, High6, Mid6, OctetBits, SextetBits, Zeros;
    OctetOne(x);
    SextetTwo(High6(x), Mid6(x, 0));
    assert Bits8(x)[..6] + (Bits8(x)[6..] + Zeros(4)) == Bits8(x) + Zeros(4);
  }

  lemma PackedTwo(x: bv8, y: bv8)
    ensures var vs := [High6(x), Mid6(x, y), Next6(y, 0)];
      AreValues(vs) && SextetBits(vs) == OctetBits([x, y]) + Zeros(2)
  {
    HighBits(x);
    MidBits(x, y);
    NextBitsOf(y, 0);
    assert Bits8(0)[..2] == Zeros(2);
    hide Bits8, Bits6, High6, Mid6, Next6, OctetBits, SextetBits, Zeros;
    OctetThree(x, y, 0);
    SextetFour(High6(x), Mid6(x, y), Next6(y, 0), 0);
    RegroupTwo(Bits8(x), Bits8(y), Zeros(2));
  }

  lemma RegroupTwo(x: seq<bool>, y: seq<bool>, z: seq<bool>)
    requires |x| == |y| == 8
    ensures x[..6] + (x[6..] + y[..4]) + (y[4..] + z) == x + y + z
  {
  }

  /** Unpacking undoes packing. */
  lemma UnpackPacked(b: seq<bv8>)
    ensures Unpack(Packed(b), 0, 0) == b
  {
    hide Unpack, Packed, OctetBits, SextetBits;
    PackedBits(b);
    UnpackBits(Packed(b), 0, 0);
    var bits := OctetBits(b) + Zeros(2 * PadCount(|b|));
    assert Pending(0, 0) + SextetBits(Packed(b)) == bits;
    assert bits[..|bits| / 8 * 8] == OctetBits(b);
    OctetBitsInjective(Unpack(Packed(b), 0, 0), b);
  }

  // ---- The text ----

  function Digits(vs: seq<bv8>, url: bool): (t: seq<bv8>)
    requires AreValues(vs)
    ensures |t| == |vs|
  {
    if vs == [] then [] else [Digit(vs[0], url)] + Digits(vs[1..], url)
  }

  function Pads(n: nat): seq<bv8> {
    seq(n, _ => PAD)
  }

  /** The text of a byte string with some number of padding characters. */
  function Padded(b: seq<bv8>, url: bool, pads: nat): seq<bv8> {
    PackedBits(b);
    Digits(Packed(b), url) + Pads(pads)
  }

  function Encoded(b: seq<bv8>, url: bool): seq<bv8> {
    Padded(b, url, PadCount(|b|))
  }

  lemma DigitLookup(v: bv8, url: bool)
    requires v < 64
    ensures Digit(v, url) != PAD && InAlphabet(Digit(v, url), url) && Sextet(Digit(v, url)) == v
  {
  }

  lemma {:induction false} DigitsDecode(vs: seq<bv8>, url: bool)
    requires AreValues(vs)
    ensures AllIn(Digits(vs, url), url) && Sextets(Digits(vs, url)) == vs
    ensures forall k :: 0 <= k < |vs| ==> Digits(vs, url)[k] != PAD
  {
    if vs != [] {
      hide Digit, InAlphabet, Sextet;
      DigitLookup(vs[0], url);
      var t := Digits(vs[1..], url);
      DigitsDecode(vs[1..], url);
      assert Digits(vs, url) == [Digit(vs[0], url)] + t;
      AllInCons(Digit(vs[0], url), t, url);
      assert ([Digit(vs[0], url)] + t)[1..] == t;
    }
  }

  lemma {:induction false} FirstPadIs(t: seq<bv8>, p: seq<bv8>)
    requires (forall k :: 0 <= k < |t| ==> t[k] != PAD) && AllPad(p)
    ensures FirstPad(t + p) == |t|
  {
    if t == [] {
      assert t + p == p;
    } else {
      assert (t + p)[1..] == t[1..] + p;
      FirstPadIs(t[1..], p);
    }
  }

  /**
   Round trip: whichever alphabet the text is in, and however many of the padding characters are
   kept, decoding it under that alphabet or under detection gives the bytes back.
   */
  lemma RoundTrip(b: seq<bv8>, url: bool, pads: nat, alphabet: Alphabet, behavior: Behavior)
    requires alphabet == Auto || alphabet == (if url then UrlSafe else Standard)
    ensures DecodedText(Padded(b, url, pads), alphabet, behavior) == Ok(b)
  {
    PackedBits(b);
    hide Packed, Digits, Sextets, Unpack, DecodeFrom, AllIn;
    var t, p := Digits(Packed(b), url), Pads(pads);
    DigitsDecode(Packed(b), url);
    FirstPadIs(t, p);
    DecodeShape(t + p, alphabet, 0, 0, behavior);
    assert (t + p)[..|t|] == t && (t + p)[|t|..] == p;
    UnpackPacked(b);
  }

  /** The encoded text decodes to the bytes, with the alphabet given or detected. */
  lemma EncodedDecodes(b: seq<bv8>, url: bool, behavior: Behavior)
    ensures DecodedText(Encoded(b, url), Auto, behavior) == Ok(b)
    ensures DecodedText(Encoded(b, url), if url then UrlSafe else Standard, behavior) == Ok(b)
  {
    hide DecodedText, Packed, Digits;
    PackedBits(b);
    RoundTrip(b, url, PadCount(|b|), Auto, behavior);
    RoundTrip(b, url, PadCount(|b|), if url then UrlSafe else Standard, behavior);
  }

  lemma {:induction false} PackedLength(b: seq<bv8>)
    ensures |Packed(b)| + PadCount(|b|) == RequiredEncodeSize(|b|)
    decreases |b|
  {
    hide High6, Mid6, Next6, Low6;
    if |b| >= 3 {
      PackedLength(b[3..]);
      assert |Packed(b)| == 4 + |Packed(b[3..])|;
    }
  }

  lemma EncodedFits(b: seq<bv8>, url: bool)
    ensures |Encoded(b, url)| == RequiredEncodeSize(|b|) == (|b| + 2) / 3 * 4
  {
    PackedLength(b);
    hide Packed;
    PackedBits(b);
  }

  ghost predicate EncodedSoFar(b: seq<bv8>, url: bool, i: nat, out: seq<bv8>) {
    i <= |b| && i % 3 == 0 && Encoded(b, url) == out + Encoded(b[i..], url)
  }

  /** The four characters of a whole group. */
  function Quad(x: bv8, y: bv8, z: bv8, url: bool): seq<bv8> {
    GroupBits(x, y, z);
    [Digit(High6(x), url), Digit(Mid6(x, y), url), Digit(Next6(y, z), url), Digit(Low6(z), url)]
  }

  lemma EncodedGroup(b: seq<bv8>, url: bool)
    requires |b| >= 3
    ensures Encoded(b, url) == Quad(b[0], b[1], b[2], url) + Encoded(b[3..], url)
  {
    hide High6, Mid6, Next6, Low6, Digit, OctetBits, SextetBits, Digits, Bits8, Bits6, Packed, PadCount, AreValues, Has;
    GroupBits(b[0], b[1], b[2]);
    GroupValues(b[0], b[1], b[2]);
    PackedBits(b[3..]);
    PackedBits(b);
    PackedUnfolds(b);
    var g := [High6(b[0]), Mid6(b[0], b[1]), Next6(b[1], b[2]), Low6(b[2])];
    DigitsFour(g[0], g[1], g[2], g[3], url);
    DigitsAppend(g, Packed(b[3..]), url);
    var q, t, p := Quad(b[0], b[1], b[2], url), Digits(Packed(b[3..]), url), Pads(PadCount(|b|));
    assert q + t + p == q + (t + p);
  }

  lemma EncodedStep(b: seq<bv8>, url: bool, i: nat, out: seq<bv8>)
    requires EncodedSoFar(b, url, i, out) && i + 3 <= |b|
    ensures EncodedSoFar(b, url, i + 3, out + Quad(b[i], b[i + 1], b[i + 2], url))
  {
    EncodedGroup(b[i..], url);
    hide Encoded, Quad;
    assert b[i..][3..] == b[i + 3..];
    var q, rest := Quad(b[i], b[i + 1], b[i + 2], url), Encoded(b[i + 3..], url);
    assert out + (q + rest) == out + q + rest;
  }

  lemma {:induction false} DigitsAppend(a: seq<bv8>, b: seq<bv8>, url: bool)
    requires AreValues(a) && AreValues(b)
    ensures AreValues(a + b) && Digits(a + b, url) == Digits(a, url) + Digits(b, url)
  {
    hide Digit;
    if a == [] {
      assert a + b == b;
    } else {
      assert (a + b)[1..] == a[1..] + b;
      DigitsAppend(a[1..], b, url);
    }
  }

  lemma DigitsTwo(p: bv8, q: bv8, url: bool)
    requires p < 64 && q < 64
    ensures AreValues([p]) && AreValues([p, q])
    ensures Digits([p], url) == [Digit(p, url)] && Digits([p, q], url) == [Digit(p, url), Digit(q, url)]
  {
    hide Digit;
    assert [p, q][1..] == [q] && [q][1..] == [] && [p][1..] == [];
    assert Digits([q], url) == [Digit(q, url)] + [];
  }

  lemma DigitsFour(p: bv8, q: bv8, r: bv8, t: bv8, url: bool)
    requires p < 64 && q < 64 && r < 64 && t < 64
    ensures AreValues([p, q, r]) && AreValues([p, q, r, t])
    ensures Digits([p, q, r], url) == [Digit(p, url), Digit(q, url), Digit(r, url)]
    ensures Digits([p, q, r, t], url) == [Digit(p, url), Digit(q, url), Digit(r, url), Digit(t, url)]
  {
    hide Digit, Digits;
    DigitsTwo(p, q, url);
    DigitsTwo(r, t, url);
    DigitsAppend([p, q], [r], url);
    DigitsAppend([p, q], [r, t], url);
    assert [p, q] + [r] == [p, q, r] && [p, q] + [r, t] == [p, q, r, t];
  }

  lemma EncodedOne(x: bv8, url: bool)
    ensures High6(x) < 64 && Mid6(x, 0) < 64
      && Encoded([x], url) == [Digit(High6(x), url), Digit(Mid6(x, 0), url), PAD, PAD]
  {
    hide High6, Mid6, Next6, Low6, Digit, OctetBits, SextetBits, Digits;
    PackedOne(x);
    assert Packed([x]) == [High6(x), Mid6(x, 0)] && [High6(x), Mid6(x, 0)][0] < 64 && [High6(x), Mid6(x, 0)][1] < 64;
    DigitsTwo(High6(x), Mid6(x, 0), url);
  }

  lemma EncodedTwo(x: bv8, y: bv8, url: bool)
    ensures High6(x) < 64 && Mid6(x, y) < 64 && Next6(y, 0) < 64
    ensures Encoded([x, y], url) == [Digit(High6(x), url), Digit(Mid6(x, y), url), Digit(Next6(y, 0), url), PAD]
  {
    hide High6, Mid6, Next6, Low6, Digit, OctetBits, SextetBits, Digits;
    PackedTwo(x, y);
    var vs := [High6(x), Mid6(x, y), Next6(y, 0)];
    assert Packed([x, y]) == vs && vs[0] < 64 && vs[1] < 64 && vs[2] < 64;
    DigitsFour(High6(x), Mid6(x, y), Next6(y, 0), 0, url);
  }

  lemma EncodedNothing(url: bool)
    ensures Encoded([], url) == []
  {
  }

  method Encode(b: seq<bv8>, alphabet: Alphabet) returns (out: seq<bv8>)
    ensures out == Encoded(b, alphabet == UrlSafe)
  {
    hide High6, Mid6, Next6, Low6, Digit, Encoded;
    var url := alphabet == UrlSafe;
    out := [];
    var i := 0;
    assert b[0..] == b && [] + Encoded(b, url) == Encoded(b, url);
    while i < |b|
      invariant EncodedSoFar(b, url, i, out)
    {
      var i0 := b[i];
      if i + 1 == |b| {
        assert b[i..] == [i0];
        EncodedOne(i0, url);
        out := out + [Digit(High6(i0), url), Digit(Mid6(i0, 0), url), PAD, PAD];
        return;
      }
      var i1 := b[i + 1];
      if i + 2 == |b| {
        assert b[i..] == [i0, i1];
        EncodedTwo(i0, i1, url);
        out := out + [Digit(High6(i0), url), Digit(Mid6(i0, i1), url), Digit(Next6(i1, 0), url), PAD];
        return;
      }
      var i2 := b[i + 2];
      EncodedStep(b, url, i, out);
      out := out + Quad(i0, i1, i2, url);
      i := i + 3;
    }
    assert b[i..] == [];
    EncodedNothing(url);
    assert out + [] == out;
  }

  // ---- The characters ----

  /** The characters of the values in order: letters, digits, and two more that depend on the alphabet. */
  lemma DigitTable(v: bv8, url: bool)
    requires v < 64
    ensures var k := v as nat;
      Digit(v, url) as nat ==
        if k < 26 then UPPER[k] as nat
        else if k < 52 then LOWER[k - 26] as nat
        else if k < 62 then DIGITS[k - 52] as nat
        else if k == 62 then (if url then '-' else '+') as nat
        else (if url then '_' else '/') as nat
  {
    DigitOrders(v);
  }

  lemma DigitOrders(v: bv8)
    requires v < 64
    ensures forall k :: 0 <= k < 26 ==> UPPER[k] == (65 + k) as char && LOWER[k] == (97 + k) as char
    ensures forall k :: 0 <= k < 10 ==> DIGITS[k] == (48 + k) as char
  {
  }

  /** The text of every byte string: characters of the alphabet, and padding up to a multiple of four. */
  lemma EncodedText(b: seq<bv8>, url: bool)
    ensures var t, pads := Encoded(b, url), (3 - |b| % 3) % 3;
      && |t| % 4 == 0 && pads <= |t|
      && (forall k :: 0 <= k < |t| - pads ==> InAlphabet(t[k], url))
      && (forall k :: |t| - pads <= k < |t| ==> t[k] == 0x3D)
  {
    PackedBits(b);
    PackedLength(b);
    PadSizes(|b|);
    DigitsDecode(Packed(b), url);
    var d, p := Digits(Packed(b), url), Pads(PadCount(|b|));
    assert Encoded(b, url) == d + p && |d| + |p| == RequiredEncodeSize(|b|);
    hide *;
    InFront(d, p, url);
  }

  lemma InFront(d: seq<bv8>, p: seq<bv8>, url: bool)
    requires AllIn(d, url) && AllPad(p)
    ensures forall k :: 0 <= k < |d| ==> InAlphabet((d + p)[k], url)
    ensures forall k :: |d| <= k < |d| + |p| ==> (d + p)[k] == 0x3D
  {
    hide InAlphabet;
  }

  lemma PadSizes(n: nat)
    ensures PadCount(n) == (3 - n % 3) % 3 && RequiredEncodeSize(n) % 4 == 0
  {
  }

  /**
   What padding does, for every text without it: nothing, as long as only padding follows. Loose decoding
   stops there, moderate decoding refuses anything else behind it.
   */
  lemma Padding(t: seq<bv8>, s: seq<bv8>, alphabet: Alphabet)
    requires 0x3D !in t
    ensures DecodedText(t + [0x3D] + s, alphabet, Loose) == DecodedText(t, alphabet, Loose)
    ensures DecodedText(t + [0x3D] + s, alphabet, Moderate) ==
      if forall k :: 0 <= k < |s| ==> s[k] == 0x3D then DecodedText(t, alphabet, Moderate) else InvalidCharacter
  {
    hide Unpack, Sextets, Accepts, DecodeFrom;
    var u := t + [0x3D] + s;
    StopsAt(t, [0x3D] + s);
    StopsAt(t, []);
    assert t + ([0x3D] + s) == u && t + [] == t && t[..|t|] == t && t[|t|..] == [];
    assert u[..|t|] == t && u[|t|..] == [0x3D] + s;
    PadFirst([0x3D] + s);
    assert ([0x3D] + s)[1..] == s;
    DecodeShape(u, alphabet, 0, 0, Loose);
    DecodeShape(t, alphabet, 0, 0, Loose);
    DecodeShape(u, alphabet, 0, 0, Moderate);
    DecodeShape(t, alphabet, 0, 0, Moderate);
  }

  lemma {:induction false} StopsAt(t: seq<bv8>, p: seq<bv8>)
    requires 0x3D !in t && (p != [] ==> p[0] == 0x3D)
    ensures FirstPad(t + p) == |t|
  {
    if t == [] {
      assert t + p == p;
    } else {
      assert (t + p)[1..] == t[1..] + p;
      StopsAt(t[1..], p);
    }
  }

  /** Any number of padding characters behind a text without them changes nothing. */
  lemma PaddingIgnored(t: seq<bv8>, n: nat, alphabet: Alphabet, behavior: Behavior)
    requires 0x3D !in t
    ensures DecodedText(t + seq(n, _ => 0x3D), alphabet, behavior) == DecodedText(t, alphabet, behavior)
  {
    hide DecodedText;
    if n == 0 {
      assert t + seq(0, _ => 0x3D) == t;
    } else {
      var s: seq<bv8> := seq(n - 1, _ => 0x3D);
      Padding(t, s, alphabet);
      assert t + seq(n, _ => 0x3D) == t + [0x3D] + s;
    }
  }

  /** The first test vectors of section 10 of RFC 4648: the texts of `f`, `fo` and `foo`. */
  lemma TestVectors()
    ensures Encoded([0x66], false) == [0x5A, 0x67, 0x3D, 0x3D]
    ensures Encoded([0x66, 0x6F], false) == [0x5A, 0x6D, 0x38, 0x3D]
    ensures Encoded([0x66, 0x6F, 0x6F], false) == [0x5A, 0x6D, 0x39, 0x76]
  {
    EncodedOne(0x66, false);
    EncodedTwo(0x66, 0x6F, false);
    EncodedGroup([0x66, 0x6F, 0x6F], false);
    EncodedNothing(false);
    assert [0x66, 0x6F, 0x6F][3..] == [];
    hide Encoded;
  }
}
