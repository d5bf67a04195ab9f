/** The bits of bytes and of 6-bit values, and the decoder's way of putting bytes together from the latter. */
module Bits {

  predicate Has(x: bv8, mask: bv8) {
    x & mask != 0
  }

  /** The bits of a byte, the highest first. */
  function Bits8(x: bv8): (b: seq<bool>)
    ensures |b| == 8
  {
    [Has(x, 0x80), Has(x, 0x40), Has(x, 0x20), Has(x, 0x10), Has(x, 8), Has(x, 4), Has(x, 2), Has(x, 1)]
  }

  function Bits6(x: bv8): (b: seq<bool>)
    ensures |b| == 6
  {
    [Has(x, 0x20), Has(x, 0x10), Has(x, 8), Has(x, 4), Has(x, 2), Has(x, 1)]
  }

  lemma Bits8At(x: bv8)
    ensures var b := Bits8(x);
      && b[0] == Has(x, 0x80) && b[1] == Has(x, 0x40) && b[2] == Has(x, 0x20) && b[3] == Has(x, 0x10)
      && b[4] == Has(x, 8) && b[5] == Has(x, 4) && b[6] == Has(x, 2) && b[7] == Has(x, 1)
  {
    hide Has;
  }

  lemma Bits6At(x: bv8)
    ensures var b := Bits6(x);
      && b[0] == Has(x, 0x20) && b[1] == Has(x, 0x10) && b[2] == Has(x, 8) && b[3] == Has(x, 4) && b[4] == Has(x, 2)
      && b[5] == Has(x, 1)
  {
    hide Has;
  }

  function OctetBits(xs: seq<bv8>): (b: seq<bool>)
    ensures |b| == 8 * |xs|
  {
    if xs == [] then [] else Bits8(xs[0]) + OctetBits(xs[1..])
  }

  function SextetBits(vs: seq<bv8>): (b: seq<bool>)
    ensures |b| == 6 * |vs|
  {
    if vs == [] then [] else Bits6(vs[0]) + SextetBits(vs[1..])
  }

  lemma Bits8Injective(x: bv8, y: bv8)
    requires Bits8(x) == Bits8(y)
    ensures x == y
  {
    assert Bits8(x)[0] == Bits8(y)[0] && Bits8(x)[1] == Bits8(y)[1] && Bits8(x)[2] == Bits8(y)[2]
      && Bits8(x)[3] == Bits8(y)[3];
    assert Bits8(x)[4] == Bits8(y)[4] && Bits8(x)[5] == Bits8(y)[5] && Bits8(x)[6] == Bits8(y)[6]
      && Bits8(x)[7] == Bits8(y)[7];
  }

  /** A byte string is determined by its bits. */
  lemma {:induction false} OctetBitsInjective(xs: seq<bv8>, ys: seq<bv8>)
    requires OctetBits(xs) == OctetBits(ys)
    ensures xs == ys
  {
    if xs != [] && ys != [] {
      hide Bits8;
      var b, c := OctetBits(xs), OctetBits(ys);
      assert b[..8] == Bits8(xs[0]) && c[..8] == Bits8(ys[0]);
      assert b[8..] == OctetBits(xs[1..]) && c[8..] == OctetBits(ys[1..]);
      Bits8Injective(xs[0], ys[0]);
      OctetBitsInjective(xs[1..], ys[1..]);
      assert xs == [xs[0]] + xs[1..] && ys == [ys[0]] + ys[1..];
    }
  }

  // ---- Unpacking ----

  /** The byte made of the `bits` low bits of `last` and the high bits of `part`. */
  function Joined(last: bv8, bits: nat, part: bv8): bv8 {
    if bits == 2 then (last << 6) | part
    else if bits == 4 then (last << 4) | (part >> 2)
    else (last << 2) | (part >> 4)
  }

  /** The bytes the loop writes for the values `vs` when it holds `bits` bits of `last`. */
  function Unpack(vs: seq<bv8>, last: bv8, bits: nat): seq<bv8> {
    if vs == [] then []
    else if bits >= 2 then [Joined(last, bits, vs[0])] + Unpack(vs[1..], vs[0], bits - 2)
    else Unpack(vs[1..], vs[0], bits + 6)
  }

  function NextBits(bits: nat): nat {
    if bits >= 2 then bits - 2 else bits + 6
  }

  predicate IsBitCount(bits: nat) {
    bits == 0 || bits == 2 || bits == 4 || bits == 6
  }

  /** The bits of `last` that have not been written. */
  function Pending(last: bv8, bits: nat): (b: seq<bool>)
    requires bits <= 8
    ensures |b| == bits
  {
    Bits8(last)[8 - bits..]
  }

  predicate AreValues(vs: seq<bv8>) {
    forall k :: 0 <= k < |vs| ==> vs[k] < 64
  }

  lemma Joined2(l: bv8, p: bv8)
    requires p < 64
    ensures var x := (l << 6) | p;
      && (Has(x, 0x80) <==> Has(l, 2)) && (Has(x, 0x40) <==> Has(l, 1)) && (Has(x, 0x20) <==> Has(p, 0x20))
      && (Has(x, 0x10) <==> Has(p, 0x10))
      && (Has(x, 8) <==> Has(p, 8)) && (Has(x, 4) <==> Has(p, 4)) && (Has(x, 2) <==> Has(p, 2))
      && (Has(x, 1) <==> Has(p, 1))
  {
  }

  lemma Joined4(l: bv8, p: bv8)
    requires p < 64
    ensures var x := (l << 4) | (p >> 2);
      && (Has(x, 0x80) <==> Has(l, 8)) && (Has(x, 0x40) <==> Has(l, 4)) && (Has(x, 0x20) <==> Has(l, 2))
      && (Has(x, 0x10) <==> Has(l, 1))
      && (Has(x, 8) <==> Has(p, 0x20)) && (Has(x, 4) <==> Has(p, 0x10)) && (Has(x, 2) <==> Has(p, 8))
      && (Has(x, 1) <==> Has(p, 4))
  {
  }

  lemma Joined6(l: bv8, p: bv8)
    requires p < 64
    ensures var x := (l << 2) | (p >> 4);
      && (Has(x, 0x80) <==> Has(l, 0x20)) && (Has(x, 0x40) <==> Has(l, 0x10)) && (Has(x, 0x20) <==> Has(l, 8))
      && (Has(x, 0x10) <==> Has(l, 4))
      && (Has(x, 8) <==> Has(l, 2)) && (Has(x, 4) <==> Has(l, 1)) && (Has(x, 2) <==> Has(p, 0x20))
      && (Has(x, 1) <==> Has(p, 0x10))
  {
  }

  lemma JoinedBits(last: bv8, bits: nat, part: bv8)
    requires IsBitCount(bits) && bits >= 2 && part < 64
    ensures Bits8(Joined(last, bits, part)) == Pending(last, bits) + Bits6(part)[..8 - bits]
    ensures Pending(part, bits - 2) == Bits6(part)[8 - bits..]
  {
    if bits == 2 {
      JoinedBits2(last, part);
    } else if bits == 4 {
      JoinedBits4(last, part);
    } else {
      JoinedBits6(last, part);
    }
    assert Bits8(part)[2..] == Bits6(part);
    assert Bits8(part)[10 - bits..] == Bits8(part)[2..][8 - bits..];
  }

  lemma JoinedBits2(last: bv8, part: bv8)
    requires part < 64
    ensures Bits8(Joined(last, 2, part)) == Pending(last, 2) + Bits6(part)[..6]
  {
    Joined2(last, part);
    SameBits2(Joined(last, 2, part), last, part);
  }

  lemma Stitch2(x: seq<bool>, l: seq<bool>, p: seq<bool>)
    requires |x| == 8 && |l| == 8 && |p| == 6
    requires x[0] == l[6] && x[1] == l[7] && x[2] == p[0] && x[3] == p[1] && x[4] == p[2] && x[5] == p[3]
      && x[6] == p[4] && x[7] == p[5]
    ensures x == l[6..] + p[..6]
  {
  }

  lemma SameBits2(x: bv8, l: bv8, p: bv8)
    requires
      && (Has(x, 0x80) <==> Has(l, 2)) && (Has(x, 0x40) <==> Has(l, 1)) && (Has(x, 0x20) <==> Has(p, 0x20))
      && (Has(x, 0x10) <==> Has(p, 0x10))
      && (Has(x, 8) <==> Has(p, 8)) && (Has(x, 4) <==> Has(p, 4)) && (Has(x, 2) <==> Has(p, 2))
      && (Has(x, 1) <==> Has(p, 1))
    ensures Bits8(x) == Bits8(l)[6..] + Bits6(p)[..6]
  {
    hide Has, Bits8, Bits6;
    Bits8At(x);
    Bits8At(l);
    Bits6At(p);
    Stitch2(Bits8(x), Bits8(l), Bits6(p));
  }

  lemma JoinedBits4(last: bv8, part: bv8)
    requires part < 64
    ensures Bits8(Joined(last, 4, part)) == Pending(last, 4) + Bits6(part)[..4]
  {
    Joined4(last, part);
    SameBits4(Joined(last, 4, part), last, part);
  }

  lemma Stitch4(x: seq<bool>, l: seq<bool>, p: seq<bool>)
    requires |x| == 8 && |l| == 8 && |p| == 6
    requires x[0] == l[4] && x[1] == l[5] && x[2] == l[6] && x[3] == l[7] && x[4] == p[0] && x[5] == p[1]
      && x[6] == p[2] && x[7] == p[3]
    ensures x == l[4..] + p[..4]
  {
  }

  lemma SameBits4(x: bv8, l: bv8, p: bv8)
    requires
      && (Has(x, 0x80) <==> Has(l, 8)) && (Has(x, 0x40) <==> Has(l, 4)) && (Has(x, 0x20) <==> Has(l, 2))
      && (Has(x, 0x10) <==> Has(l, 1))
      && (Has(x, 8) <==> Has(p, 0x20)) && (Has(x, 4) <==> Has(p, 0x10)) && (Has(x, 2) <==> Has(p, 8))
      && (Has(x, 1) <==> Has(p, 4))
    ensures Bits8(x) == Bits8(l)[4..] + Bits6(p)[..4]
  {
    hide Has, Bits8, Bits6;
    Bits8At(x);
    Bits8At(l);
    Bits6At(p);
    Stitch4(Bits8(x), Bits8(l), Bits6(p));
  }

  lemma JoinedBits6(last: bv8, part: bv8)
    requires part < 64
    ensures Bits8(Joined(last, 6, part)) == Pending(last, 6) + Bits6(part)[..2]
  {
    Joined6(last, part);
    SameBits6(Joined(last, 6, part), last, part);
  }

  lemma Stitch6(x: seq<bool>, l: seq<bool>, p: seq<bool>)
    requires |x| == 8 && |l| == 8 && |p| == 6
    requires x[0] == l[2] && x[1] == l[3] && x[2] == l[4] && x[3] == l[5] && x[4] == l[6] && x[5] == l[7]
      && x[6] == p[0] && x[7] == p[1]
    ensures x == l[2..] + p[..2]
  {
  }

  lemma SameBits6(x: bv8, l: bv8, p: bv8)
    requires
      && (Has(x, 0x80) <==> Has(l, 0x20)) && (Has(x, 0x40) <==> Has(l, 0x10)) && (Has(x, 0x20) <==> Has(l, 8))
      && (Has(x, 0x10) <==> Has(l, 4))
      && (Has(x, 8) <==> Has(l, 2)) && (Has(x, 4) <==> Has(l, 1)) && (Has(x, 2) <==> Has(p, 0x20))
      && (Has(x, 1) <==> Has(p, 0x10))
    ensures Bits8(x) == Bits8(l)[2..] + Bits6(p)[..2]
  {
    hide Has, Bits8, Bits6;
    Bits8At(x);
    Bits8At(l);
    Bits6At(p);
    Stitch6(Bits8(x), Bits8(l), Bits6(p));
  }

  lemma FirstBits(part: bv8)
    ensures Pending(part, 6) == Bits6(part)
  {
  }

  /** What is written is every whole byte of the bits read, although only `last` and `bits` are kept. */
  lemma {:induction false} UnpackBits(vs: seq<bv8>, last: bv8, bits: nat)
    requires IsBitCount(bits) && AreValues(vs)
    ensures var all := Pending(last, bits) + SextetBits(vs);
      |Unpack(vs, last, bits)| == |all| / 8 && OctetBits(Unpack(vs, last, bits)) == all[..|all| / 8 * 8]
    decreases |vs|
  {
    if vs != [] {
      UnpackBits(vs[1..], vs[0], NextBits(bits));
      UnpackBitsStep(vs, last, bits);
    } else {
      hide Pending;
      assert (Pending(last, bits) + [])[..0] == [];
    }
  }

  /** The bits read split into the bits of the completed byte, if there is one, and the rest. */
  lemma BitsStep(v: bv8, more: seq<bool>, last: bv8, bits: nat)
    requires IsBitCount(bits) && v < 64
    ensures Pending(last, bits) + (Bits6(v) + more) ==
      (if bits == 0 then [] else Bits8(Joined(last, bits, v))) + (Pending(v, NextBits(bits)) + more)
  {
    hide Bits8, Bits6, Joined, Pending;
    if bits == 0 {
      FirstBits(v);
    } else {
      JoinedBits(last, bits, v);
      var w := Bits6(v);
      assert w == w[..8 - bits] + w[8 - bits..];
      assert Pending(last, bits) + (w[..8 - bits] + w[8 - bits..] + more) ==
        Pending(last, bits) + w[..8 - bits] + (w[8 - bits..] + more);
    }
  }

  lemma UnpackBitsStep(vs: seq<bv8>, last: bv8, bits: nat)
    requires IsBitCount(bits) && AreValues(vs) && vs != []
    requires var rest := Pending(vs[0], NextBits(bits)) + SextetBits(vs[1..]);
      var out := Unpack(vs[1..], vs[0], NextBits(bits));
      |out| == |rest| / 8 && OctetBits(out) == rest[..|rest| / 8 * 8]
    ensures var all := Pending(last, bits) + SextetBits(vs);
      |Unpack(vs, last, bits)| == |all| / 8 && OctetBits(Unpack(vs, last, bits)) == all[..|all| / 8 * 8]
  {
    hide Bits8, Bits6, Pending, Joined, SextetBits, Unpack, OctetBits;
    var v, more := vs[0], SextetBits(vs[1..]);
    var out, rest := Unpack(vs[1..], v, NextBits(bits)), Pending(v, NextBits(bits)) + more;
    SextetsUnfold(vs);
    BitsStep(v, more, last, bits);
    UnpackUnfolds(vs, last, bits);
    if bits == 0 {
      assert [] + rest == rest && [] + out == out;
    } else {
      var x := Joined(last, bits, v);
      OctetsUnfold(x, out);
      WholeBytes(Bits8(x), rest);
    }
  }

  lemma SextetsUnfold(vs: seq<bv8>)
    requires vs != []
    ensures SextetBits(vs) == Bits6(vs[0]) + SextetBits(vs[1..])
  {
    hide Bits6;
  }

  lemma OctetsUnfold(x: bv8, out: seq<bv8>)
    ensures OctetBits([x] + out) == Bits8(x) + OctetBits(out)
  {
    hide Bits8;
    assert ([x] + out)[1..] == out;
  }

  lemma UnpackUnfolds(vs: seq<bv8>, last: bv8, bits: nat)
    requires vs != []
    ensures Unpack(vs, last, bits) ==
      (if bits >= 2 then [Joined(last, bits, vs[0])] else []) + Unpack(vs[1..], vs[0], NextBits(bits))
  {
    hide Joined;
  }

  lemma WholeBytes(b: seq<bool>, rest: seq<bool>)
    requires |b| == 8
    ensures |b + rest| / 8 == 1 + |rest| / 8
    ensures (b + rest)[..|b + rest| / 8 * 8] == b + rest[..|rest| / 8 * 8]
  {
  }
}
