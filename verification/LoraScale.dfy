/** Output-side scaling of the low-rank form. */
module LoraScale {
  import opened Tensors
  import opened Lora

  /** A factor with fewer axes is read as one with leading axes of length one. */
  function Padded(m: Tensor, n: nat): (r: Tensor)
    requires IsTensor(m) && |m.shape| <= n
    ensures IsTensor(r) && |r.shape| == n && r.data == m.data
    ensures forall k :: 0 <= k < n ==> r.shape[k] == if k < n - |m.shape| then 1 else m.shape[k - (n - |m.shape|)]
  {
    LeadingOnes(n - |m.shape|, m.shape);
    Tensor(Ones(n - |m.shape|) + m.shape, m.data)
  }

  lemma {:induction false} LeadingOnes(n: nat, shape: Shape)
    ensures Prod(Ones(n) + shape) == Prod(shape)
    decreases n + |shape|
  {
    if shape == [] {
      assert Ones(n) + shape == Ones(n);
      if n > 0 {
        assert Ones(n)[..n - 1] == Ones(n - 1) + [];
        LeadingOnes(n - 1, []);
      }
    } else {
      var m := |shape| - 1;
      LeadingOnes(n, shape[..m]);
      assert (Ones(n) + shape)[..n + m] == Ones(n) + shape[..m];
    }
  }

  /** Multiplication by a number (a factor without axes) or by a tensor that is constant along the last axis. */
  function Mul(t: Lora, m: Tensor): (r: Outcome<Lora>)
    requires Valid(t) && IsTensor(m)
  {
    var n := Axes(t);
    if m.shape != [] && m.shape[|m.shape| - 1] != 1 then NotImplemented
    else if |m.shape| <= n then
      if Broadcasts(t.b.shape, Padded(m, n).shape) then Ok(Lora(t.a, Times(t.b, Padded(m, n)))) else ShapeError
    else if Broadcasts(t.b.shape, m.shape[|m.shape| - n..]) then AssertionFailed
    else ShapeError
  }

  predicate Outer(t: Lora, m: Tensor)
    requires Valid(t)
  {
    IsTensor(m) && Broadcasts(t.b.shape, m.shape) && m.shape[Axes(t) - 1] == 1
  }

  function Scaled(t: Lora, m: Tensor): (r: Lora)
    requires Valid(t) && Outer(t, m)
    ensures Valid(r) && Axes(r) == Axes(t) && Rank(r) == Rank(t)
    ensures Broadcasts(ShapeOf(t), m.shape) && ShapeOf(r) == Broadcast(ShapeOf(t), m.shape)
  {
    Lora(t.a, Times(t.b, m))
  }

  lemma ScaledIndex(t: Lora, m: Tensor, ix: Index, k: nat)
    requires Valid(t) && Outer(t, m) && InShape(ix, ShapeOf(Scaled(t, m)))
      && InShape(Stretched(ShapeOf(t), ix), ShapeOf(t)) && k < Rank(t)
    ensures Stretched(t.b.shape, IndexB(Scaled(t, m), ix, k)) == IndexB(t, Stretched(ShapeOf(t), ix), k)
    ensures Stretched(m.shape, IndexB(Scaled(t, m), ix, k)) == Stretched(m.shape, ix)
    ensures IndexA(Scaled(t, m), ix, k) == IndexA(t, Stretched(ShapeOf(t), ix), k)
  {
    hide Times;
    assert ix[Axes(t) - 1] < ShapeOf(Scaled(t, m))[Axes(t) - 1];
  }

  lemma ScaledTerm(t: Lora, m: Tensor, ix: Index, k: nat)
    requires Valid(t) && Outer(t, m) && InShape(ix, ShapeOf(Scaled(t, m))) && k < Rank(t)
    requires InShape(Stretched(ShapeOf(t), ix), ShapeOf(t)) && InShape(Stretched(m.shape, ix), m.shape)
    ensures Term(Scaled(t, m), ix, k) == Term(t, Stretched(ShapeOf(t), ix), k) * At(m, Stretched(m.shape, ix))
  {
    hide Times, At, IndexA, IndexB, Stretched, Broadcast;
    var r := Scaled(t, m);
    TimesAt(t.b, m, IndexB(r, ix, k));
    ScaledIndex(t, m, ix, k);
    Reorder(At(t.b, IndexB(t, Stretched(ShapeOf(t), ix), k)), At(m, Stretched(m.shape, ix)), At(r.a, IndexA(r, ix, k)));
  }

  lemma Reorder(x: real, c: real, y: real)
    ensures x * c * y == x * y * c
  {
  }

  lemma {:induction false} SumScaled(s: seq<real>, r: seq<real>, c: real)
    requires |r| == |s| && forall k :: 0 <= k < |s| ==> r[k] == s[k] * c
    ensures Sum(r) == Sum(s) * c
  {
    if s != [] {
      SumScaled(s[..|s| - 1], r[..|s| - 1], c);
    }
  }

  lemma ScaledDense(t: Lora, m: Tensor)
    requires Valid(t) && Outer(t, m)
    ensures Dense(Scaled(t, m)) == Times(Dense(t), m)
  {
    hide Times, At, Term, Dense, Sum, Stretched, Broadcast, Scaled;
    var r := Scaled(t, m);
    var d := Times(Dense(t), m);
    forall ix: Index | InShape(ix, d.shape) ensures At(d, ix) == Element(r, ix) {
      TimesAt(Dense(t), m, ix);
      var jx := Stretched(ShapeOf(t), ix);
      DenseAt(t, jx);
      forall k | 0 <= k < Rank(t) ensures Term(r, ix, k) == Term(t, jx, k) * At(m, Stretched(m.shape, ix)) {
        ScaledTerm(t, m, ix, k);
      }
      SumScaled(Terms(t, jx), Terms(r, ix), At(m, Stretched(m.shape, ix)));
    }
    IsDense(r, d);
  }

  /** From the last axis on, every length of `m` is one, or that of `s`, or `s` has length one there. */
  predicate Fits(s: Shape, m: Shape) {
    |m| <= |s| && forall k :: 0 <= k < |m| ==> var n := s[|s| - |m| + k]; m[k] == 1 || n == 1 || m[k] == n
  }

  lemma PaddedFits(s: Shape, m: Tensor)
    requires IsTensor(m) && |m.shape| <= |s|
    ensures Broadcasts(s, Padded(m, |s|).shape) <==> Fits(s, m.shape)
  {
    var p := Padded(m, |s|).shape;
    hide Padded;
    AlignedFits(s, m.shape, p);
  }

  lemma AlignedFits(s: Shape, m: Shape, p: Shape)
    requires |m| <= |s| == |p|
    requires forall k :: 0 <= k < |s| ==> p[k] == if k < |s| - |m| then 1 else m[k - (|s| - |m|)]
    ensures Broadcasts(s, p) <==> Fits(s, m)
  {
    var off := |s| - |m|;
    if Broadcasts(s, p) {
      forall k | 0 <= k < |m| ensures m[k] == 1 || s[off + k] == 1 || m[k] == s[off + k] {
        assert p[off + k] == m[k];
      }
    }
    if Fits(s, m) {
      forall k | 0 <= k < |s| ensures s[k] == 1 || p[k] == 1 || s[k] == p[k] {
        if k >= off { FitsAt(s, m, k - off); }
      }
    }
  }

  lemma FitsAt(s: Shape, m: Shape, k: nat)
    requires Fits(s, m) && k < |m|
    ensures m[k] == 1 || s[|s| - |m| + k] == 1 || m[k] == s[|s| - |m| + k]
  {
  }

  /**
   Multiplying `b` is multiplying the product. It succeeds exactly when the factor has no last axis to
   scale and fits the product.
   */
  lemma MulDense(t: Lora, m: Tensor)
    requires Valid(t) && IsTensor(m)
    ensures Mul(t, m).Ok? <==>
      && (m.shape == [] || m.shape[|m.shape| - 1] == 1)
      && |m.shape| <= Axes(t) && Fits(ShapeOf(t), m.shape)
    ensures Mul(t, m) == NotImplemented <==> m.shape != [] && m.shape[|m.shape| - 1] != 1
    ensures Mul(t, m) == AssertionFailed <==>
      && m.shape != [] && m.shape[|m.shape| - 1] == 1
      && |m.shape| > Axes(t) && Broadcasts(t.b.shape, m.shape[|m.shape| - Axes(t)..])
    ensures Mul(t, m).Ok? ==> Valid(Mul(t, m).value) && Dense(Mul(t, m).value) == Times(Dense(t), Padded(m, Axes(t)))
  {
    hide Times, Dense;
    var n := Axes(t);
    if |m.shape| <= n && (m.shape == [] || m.shape[|m.shape| - 1] == 1) {
      var p := Padded(m, n);
      PaddedFits(ShapeOf(t), m);
      assert p.shape[n - 1] == 1;
      assert Broadcasts(t.b.shape, p.shape) <==> Broadcasts(ShapeOf(t), p.shape) by {
        assert forall k :: 0 <= k < n - 1 ==> t.b.shape[k] == ShapeOf(t)[k];
      }
      if Broadcasts(t.b.shape, p.shape) {
        ScaledDense(t, p);
      }
    }
  }
}
