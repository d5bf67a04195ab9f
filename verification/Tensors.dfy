/** Tensors in row-major order: shapes, multi-indices, and the operations the LoRA form is compared with. */
module Tensors {

  type Shape = seq<nat>

  type Index = seq<nat>

  function Prod(shape: Shape): nat {
    if shape == [] then 1 else Prod(shape[..|shape| - 1]) * shape[|shape| - 1]
  }

  function Ones(n: nat): (r: Shape)
    ensures |r| == n && forall k :: 0 <= k < n ==> r[k] == 1
  {
    seq(n, _ => 1)
  }

  predicate InShape(ix: Index, shape: Shape) {
    |ix| == |shape| && forall k :: 0 <= k < |ix| ==> ix[k] < shape[k]
  }

  /** The position of an element: the last axis runs fastest. */
  function Offset(shape: Shape, ix: Index): nat
    requires |ix| == |shape|
  {
    if shape == [] then 0
    else Offset(shape[..|shape| - 1], ix[..|ix| - 1]) * shape[|shape| - 1] + ix[|ix| - 1]
  }

  /** The multi-index of a position. */
  function IndexOf(shape: Shape, o: nat): (ix: Index)
    ensures |ix| == |shape|
  {
    if shape == [] then []
    else
      var n := shape[|shape| - 1];
      if n == 0 then seq(|shape|, _ => 0) else IndexOf(shape[..|shape| - 1], o / n) + [o % n]
  }

  lemma TimesMonotone(a: nat, b: nat, n: nat)
    requires a <= b
    ensures a * n <= b * n
  {
  }

  lemma Division(x: nat, n: nat)
    requires n > 0
    ensures x == x / n * n + x % n && x % n < n
  {
  }

  lemma OneMore(q: nat, n: nat)
    ensures (q + 1) * n == q * n + n
  {
  }

  /** Quotient and remainder are the only ones. */
  lemma DivisionUnique(x: nat, n: nat, q: nat, r: nat)
    requires x == q * n + r && r < n
    ensures x / n == q && x % n == r
  {
    Division(x, n);
    var q', r' := x / n, x % n;
    assert q' * n + r' == q * n + r;
    OneMore(q, n);
    OneMore(q', n);
    if q' < q {
      TimesMonotone(q' + 1, q, n);
    } else if q < q' {
      TimesMonotone(q + 1, q', n);
    }
  }

  lemma LessTimes(a: nat, p: nat, n: nat, i: nat)
    requires a < p && i < n
    ensures a * n + i < p * n
  {
    TimesMonotone(a + 1, p, n);
    assert (a + 1) * n == a * n + n;
  }

  lemma DivLess(o: nat, p: nat, n: nat)
    requires o < p * n && n > 0
    ensures o / n < p
  {
    Division(o, n);
    if p <= o / n { TimesMonotone(p, o / n, n); }
  }

  lemma {:induction false} OffsetInRange(shape: Shape, ix: Index)
    requires InShape(ix, shape)
    ensures Offset(shape, ix) < Prod(shape)
  {
    if shape != [] {
      var m := |shape| - 1;
      OffsetInRange(shape[..m], ix[..m]);
      LessTimes(Offset(shape[..m], ix[..m]), Prod(shape[..m]), shape[m], ix[m]);
    }
  }

  lemma {:induction false} IndexOfOffset(shape: Shape, ix: Index)
    requires InShape(ix, shape)
    ensures IndexOf(shape, Offset(shape, ix)) == ix
  {
    if shape != [] {
      var m := |shape| - 1;
      IndexOfOffset(shape[..m], ix[..m]);
      DivisionUnique(Offset(shape, ix), shape[m], Offset(shape[..m], ix[..m]), ix[m]);
    }
  }

  lemma PositiveFactor(p: nat, n: nat)
    ensures p * n > 0 ==> n > 0
  {
  }

  lemma {:induction false} OffsetOfIndex(shape: Shape, o: nat)
    requires o < Prod(shape)
    ensures InShape(IndexOf(shape, o), shape) && Offset(shape, IndexOf(shape, o)) == o
  {
    if shape != [] {
      var m := |shape| - 1;
      var n := shape[m];
      PositiveFactor(Prod(shape[..m]), n);
      Division(o, n);
      DivLess(o, Prod(shape[..m]), n);
      OffsetOfIndex(shape[..m], o / n);
      assert IndexOf(shape, o)[..m] == IndexOf(shape[..m], o / n);
    }
  }

  datatype Tensor = Tensor(shape: Shape, data: seq<real>)

  predicate IsTensor(t: Tensor) {
    |t.data| == Prod(t.shape)
  }

  function At(t: Tensor, ix: Index): real
    requires IsTensor(t) && InShape(ix, t.shape)
  {
    OffsetInRange(t.shape, ix);
    t.data[Offset(t.shape, ix)]
  }

  /** The tensor with the given elements. */
  function Build(shape: Shape, f: Index -> real): (t: Tensor)
    ensures IsTensor(t) && t.shape == shape
  {
    Tensor(shape, seq(Prod(shape), o requires o >= 0 => f(IndexOf(shape, o))))
  }

  lemma BuildAt(shape: Shape, f: Index -> real, ix: Index)
    requires InShape(ix, shape)
    ensures At(Build(shape, f), ix) == f(ix)
  {
    OffsetInRange(shape, ix);
    IndexOfOffset(shape, ix);
  }

  /** Two tensors with the same shape and elements are the same. */
  lemma SameTensor(t: Tensor, u: Tensor)
    requires IsTensor(t) && IsTensor(u) && t.shape == u.shape
    requires forall ix: Index :: InShape(ix, t.shape) ==> At(t, ix) == At(u, ix)
    ensures t == u
  {
    forall o | 0 <= o < |t.data| ensures t.data[o] == u.data[o] {
      OffsetOfIndex(t.shape, o);
      assert At(t, IndexOf(t.shape, o)) == At(u, IndexOf(t.shape, o));
    }
  }

  // ---- Operations on dense tensors ----

  function Reshape(t: Tensor, shape: Shape): (r: Tensor)
    requires IsTensor(t) && Prod(shape) == Prod(t.shape)
    ensures IsTensor(r) && r.shape == shape
  {
    Tensor(shape, t.data)
  }

  /** Every axis exactly once. */
  predicate IsPermutation(dims: seq<nat>, n: nat) {
    && |dims| == n && (forall k :: 0 <= k < n ==> dims[k] < n) && (forall d: nat :: d < n ==> d in dims)
    && (forall j, k :: 0 <= j < k < n ==> dims[j] != dims[k])
  }

  function Position(dims: seq<nat>, d: nat): (k: nat)
    requires d in dims
    ensures k < |dims| && dims[k] == d
  {
    if dims[0] == d then 0 else 1 + Position(dims[1..], d)
  }

  /** The coordinates picked in the order `dims`. */
  function Pick(ix: seq<nat>, dims: seq<nat>): (r: seq<nat>)
    requires forall k :: 0 <= k < |dims| ==> dims[k] < |ix|
    ensures |r| == |dims| && forall k :: 0 <= k < |dims| ==> r[k] == ix[dims[k]]
  {
    seq(|dims|, k requires 0 <= k < |dims| => ix[dims[k]])
  }

  /** The coordinates put back where `dims` picked them. */
  function Unpick(jx: Index, dims: seq<nat>): (r: Index)
    requires IsPermutation(dims, |jx|)
    ensures |r| == |jx| && forall d :: 0 <= d < |r| ==> r[d] == jx[Position(dims, d)]
  {
    seq(|jx|, d requires 0 <= d < |jx| => jx[Position(dims, d)])
  }

  lemma UnpickInShape(jx: Index, shape: Shape, dims: seq<nat>)
    requires IsPermutation(dims, |shape|) && InShape(jx, Pick(shape, dims))
    ensures InShape(Unpick(jx, dims), shape)
  {
    forall d | 0 <= d < |shape| ensures Unpick(jx, dims)[d] < shape[d] {
      var k := Position(dims, d);
      assert jx[k] < Pick(shape, dims)[k];
    }
  }

  function PermutedAt(t: Tensor, dims: seq<nat>, jx: Index): real
    requires IsTensor(t) && IsPermutation(dims, |t.shape|)
  {
    if InShape(jx, Pick(t.shape, dims)) then
      UnpickInShape(jx, t.shape, dims);
      At(t, Unpick(jx, dims))
    else 0.0
  }

  /** The axes of `t` in the order `dims`. */
  function Permute(t: Tensor, dims: seq<nat>): (r: Tensor)
    requires IsTensor(t) && IsPermutation(dims, |t.shape|)
    ensures IsTensor(r) && r.shape == Pick(t.shape, dims)
  {
    Build(Pick(t.shape, dims), jx => PermutedAt(t, dims, jx))
  }

  lemma PermuteAt(t: Tensor, dims: seq<nat>, jx: Index)
    requires IsTensor(t) && IsPermutation(dims, |t.shape|) && InShape(jx, Pick(t.shape, dims))
    ensures InShape(Unpick(jx, dims), t.shape) && At(Permute(t, dims), jx) == At(t, Unpick(jx, dims))
  {
    UnpickInShape(jx, t.shape, dims);
    BuildAt(Pick(t.shape, dims), jx => PermutedAt(t, dims, jx), jx);
  }

  /** Permuting an index along with the tensor finds the same element. */
  lemma PermuteMeaning(t: Tensor, dims: seq<nat>, ix: Index)
    requires IsTensor(t) && IsPermutation(dims, |t.shape|) && InShape(ix, t.shape)
    ensures InShape(Pick(ix, dims), Permute(t, dims).shape) && At(Permute(t, dims), Pick(ix, dims)) == At(t, ix)
  {
    hide At, Permute;
    var jx := Pick(ix, dims);
    PermuteAt(t, dims, jx);
    assert Unpick(jx, dims) == ix;
  }

  /** Places on an axis: `len` of them, `step` apart. */
  datatype Places = Places(from: nat, step: nat, len: nat)

  predicate Reaches(p: Places, n: nat) {
    p.step > 0 && (p.len == 0 || p.from + (p.len - 1) * p.step < n)
  }

  function Place(p: Places, i: nat): nat {
    p.from + i * p.step
  }

  lemma PlaceInside(p: Places, n: nat, i: nat)
    requires Reaches(p, n) && i < p.len
    ensures Place(p, i) < n
  {
    TimesMonotone(i, p.len - 1, p.step);
  }

  /** `ix` moved to its place on axis `d`. */
  function Shift(ix: Index, d: nat, p: Places): (r: Index)
    requires d < |ix|
    ensures |r| == |ix| && r[d] == Place(p, ix[d])
  {
    ix[d := Place(p, ix[d])]
  }

  function NarrowedAt(t: Tensor, d: nat, p: Places, ix: Index): real
    requires IsTensor(t)
  {
    if d < |ix| && InShape(Shift(ix, d, p), t.shape) then At(t, Shift(ix, d, p)) else 0.0
  }

  /** The part of `t` at the given places of axis `d`. */
  function Narrow(t: Tensor, d: nat, p: Places): (r: Tensor)
    requires IsTensor(t) && d < |t.shape| && Reaches(p, t.shape[d])
    ensures IsTensor(r) && r.shape == t.shape[d := p.len]
  {
    Build(t.shape[d := p.len], ix => NarrowedAt(t, d, p, ix))
  }

  lemma NarrowAt(t: Tensor, d: nat, p: Places, ix: Index)
    requires IsTensor(t) && d < |t.shape| && Reaches(p, t.shape[d]) && InShape(ix, t.shape[d := p.len])
    ensures InShape(Shift(ix, d, p), t.shape) && At(Narrow(t, d, p), ix) == At(t, Shift(ix, d, p))
  {
    PlaceInside(p, t.shape[d], ix[d]);
    BuildAt(t.shape[d := p.len], i => NarrowedAt(t, d, p, i), ix);
  }

  /** Two shapes can be stretched to a common one: on each axis they agree or one has length one. */
  predicate Broadcasts(s: Shape, m: Shape) {
    |s| == |m| && forall k :: 0 <= k < |s| ==> s[k] == 1 || m[k] == 1 || s[k] == m[k]
  }

  function Broadcast(s: Shape, m: Shape): (r: Shape)
    requires Broadcasts(s, m)
    ensures |r| == |s| && forall k :: 0 <= k < |r| ==> r[k] == if s[k] == 1 then m[k] else s[k]
  {
    seq(|s|, k requires 0 <= k < |s| => if s[k] == 1 then m[k] else s[k])
  }

  /** Where a stretched tensor takes an element from: axes of length one stay at zero. */
  function Stretched(m: Shape, ix: Index): (r: Index)
    requires |m| == |ix|
    ensures |r| == |ix| && forall k :: 0 <= k < |r| ==> r[k] == if m[k] == 1 then 0 else ix[k]
  {
    seq(|ix|, k requires 0 <= k < |ix| => if m[k] == 1 then 0 else ix[k])
  }

  lemma StretchedInShape(s: Shape, m: Shape, ix: Index)
    requires Broadcasts(s, m) && InShape(ix, Broadcast(s, m))
    ensures InShape(Stretched(s, ix), s) && InShape(Stretched(m, ix), m)
  {
    forall k | 0 <= k < |ix| ensures Stretched(s, ix)[k] < s[k] && Stretched(m, ix)[k] < m[k] {
      assert ix[k] < Broadcast(s, m)[k];
    }
  }

  function ProductAt(t: Tensor, m: Tensor, ix: Index): real
    requires IsTensor(t) && IsTensor(m) && Broadcasts(t.shape, m.shape)
  {
    if InShape(ix, Broadcast(t.shape, m.shape)) then
      StretchedInShape(t.shape, m.shape, ix);
      At(t, Stretched(t.shape, ix)) * At(m, Stretched(m.shape, ix))
    else 0.0
  }

  /** Elementwise product of two tensors stretched to a common shape. */
  function Times(t: Tensor, m: Tensor): (r: Tensor)
    requires IsTensor(t) && IsTensor(m) && Broadcasts(t.shape, m.shape)
    ensures IsTensor(r) && r.shape == Broadcast(t.shape, m.shape)
  {
    Build(Broadcast(t.shape, m.shape), ix => ProductAt(t, m, ix))
  }

  lemma TimesAt(t: Tensor, m: Tensor, ix: Index)
    requires IsTensor(t) && IsTensor(m) && Broadcasts(t.shape, m.shape) && InShape(ix, Broadcast(t.shape, m.shape))
    ensures InShape(Stretched(t.shape, ix), t.shape) && InShape(Stretched(m.shape, ix), m.shape)
    ensures At(Times(t, m), ix) == At(t, Stretched(t.shape, ix)) * At(m, Stretched(m.shape, ix))
  {
    StretchedInShape(t.shape, m.shape, ix);
    BuildAt(Broadcast(t.shape, m.shape), i => ProductAt(t, m, i), ix);
  }

  /** Two tensors that can be put one after the other along axis 0. */
  predicate Stackable(t: Tensor, u: Tensor) {
    IsTensor(t) && IsTensor(u) && |t.shape| == |u.shape| > 0 && t.shape[1..] == u.shape[1..]
  }

  function CatShape(t: Shape, u: Shape): (r: Shape)
    requires |t| > 0 && |u| > 0
    ensures |r| == |t|
  {
    [t[0] + u[0]] + t[1..]
  }

  function CatElement(t: Tensor, u: Tensor, ix: Index): real
    requires Stackable(t, u)
  {
    if InShape(ix, t.shape) then At(t, ix)
    else if |ix| == |u.shape| && ix[0] >= t.shape[0] && InShape(ix[0 := ix[0] - t.shape[0]], u.shape) then
      At(u, ix[0 := ix[0] - t.shape[0]])
    else 0.0
  }

  /** `t` followed by `u` along axis 0. */
  function Cat(t: Tensor, u: Tensor): (r: Tensor)
    requires Stackable(t, u)
    ensures IsTensor(r) && r.shape == CatShape(t.shape, u.shape)
  {
    Build(CatShape(t.shape, u.shape), ix => CatElement(t, u, ix))
  }

  lemma CatAt(t: Tensor, u: Tensor, ix: Index)
    requires Stackable(t, u) && InShape(ix, CatShape(t.shape, u.shape))
    ensures ix[0] < t.shape[0] ==> InShape(ix, t.shape) && At(Cat(t, u), ix) == At(t, ix)
    ensures ix[0] >= t.shape[0] ==>
      var jx := ix[0 := ix[0] - t.shape[0]]; InShape(jx, u.shape) && At(Cat(t, u), ix) == At(u, jx)
  {
    assert forall k :: 0 < k < |ix| ==>
      CatShape(t.shape, u.shape)[k] == t.shape[k] == t.shape[1..][k - 1] == u.shape[k];
    BuildAt(CatShape(t.shape, u.shape), ix => CatElement(t, u, ix), ix);
  }
}
