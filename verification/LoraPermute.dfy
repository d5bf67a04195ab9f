/** Axis permutations of the low-rank form. */
module LoraPermute {
  import opened Tensors
  import opened Lora

  predicate InRange(dims: seq<int>, n: nat) {
    |dims| == n && forall k :: 0 <= k < n ==> 0 <= dims[k] + n && dims[k] < n
  }

  /** The axes named by `dims`, where negative ones count from the end. */
  function Named(dims: seq<int>, n: nat): (r: seq<nat>)
    requires InRange(dims, n)
    ensures |r| == n
  {
    seq(n, k requires 0 <= k < n => Axis(dims[k], n))
  }

  predicate Reorders(dims: seq<int>, n: nat) {
    InRange(dims, n) && IsPermutation(Named(dims, n), n)
  }

  predicate Names(dim: int, n: nat, axis: nat) {
    dim == axis || dim + n == axis
  }

  predicate IsNamed(dims: seq<int>, n: nat, d: nat)
    requires |dims| == n
  {
    exists k :: 0 <= k < n && Names(dims[k], n, d)
  }

  /** Every axis is named exactly once, from the front or from the end. */
  lemma ReordersMeaning(dims: seq<int>, n: nat)
    ensures Reorders(dims, n) <==>
      && |dims| == n && (forall k :: 0 <= k < n ==> dims[k] < n && dims[k] + n >= 0)
      && (forall d: nat :: d < n ==> IsNamed(dims, n, d))
      && forall j, k :: 0 <= j < k < n ==>
           dims[j] != dims[k] && dims[j] != dims[k] + n && dims[j] + n != dims[k]
  {
    if InRange(dims, n) {
      var ds := Named(dims, n);
      forall d: nat | d < n ensures d in ds <==> IsNamed(dims, n, d) {
        if d in ds {
          var k :| 0 <= k < n && ds[k] == d;
          assert Names(dims[k], n, d);
        }
        if IsNamed(dims, n, d) {
          var k :| 0 <= k < n && Names(dims[k], n, d);
          assert ds[k] == d;
        }
      }
      forall j, k | 0 <= j < k < n
        ensures ds[j] != ds[k] <==> dims[j] != dims[k] && dims[j] != dims[k] + n && dims[j] + n != dims[k]
      {
        assert ds[j] == Axis(dims[j], n) && ds[k] == Axis(dims[k], n);
      }
    }
  }

  function PermuteTensor(x: Tensor, dims: seq<int>): (r: Outcome<Tensor>)
    requires IsTensor(x)
    ensures r.Ok? <==> Reorders(dims, |x.shape|)
    ensures r.Ok? ==> IsTensor(r.value)
  {
    if Reorders(dims, |x.shape|) then Ok(Permute(x, Named(dims, |x.shape|))) else ShapeError
  }

  /**
   `permute`: with the last axis in place only `b` is permuted, and `a` must be shared by all leading
   axes; the matrix transpose swaps the factors.
   */
  function PermuteLora(t: Lora, dims: seq<int>): (r: Outcome<Lora>)
    requires Valid(t)
  {
    var n := Axes(t);
    if |dims| == 0 then ShapeError
    else if Names(dims[|dims| - 1], n, n - 1) then
      if !SharedLeads(t) then AssertionFailed
      else
        var b := PermuteTensor(t.b, dims);
        if b.Ok? then Ok(Lora(t.a, b.value)) else ShapeError
    else if n == 2 && Names(dims[|dims| - 1], n, 0) && |dims| == 1 then ShapeError
    else if n == 2 && Names(dims[|dims| - 1], n, 0) && Names(dims[|dims| - 2], n, 1) then
      var a, b := PermuteTensor(t.b, dims), PermuteTensor(t.a, dims);
      if a.Ok? && b.Ok? then Ok(Lora(a.value, b.value)) else ShapeError
    else NotImplemented
  }

  /** With the last axis in place. */
  lemma LastFixed(t: Lora, ds: seq<nat>)
    requires Valid(t) && SharedLeads(t) && IsPermutation(ds, Axes(t)) && ds[Axes(t) - 1] == Axes(t) - 1
    ensures var r := Lora(t.a, Permute(t.b, ds));
      Valid(r) && Rank(r) == Rank(t) && ShapeOf(r) == Pick(ShapeOf(t), ds)
  {
    hide Permute;
    var n, r := Axes(t), Lora(t.a, Permute(t.b, ds));
    assert forall k :: 0 <= k < n - 1 ==> ds[k] != ds[n - 1];
    assert ShapeOf(r) == Pick(ShapeOf(t), ds);
  }

  lemma PositionOf(ds: seq<nat>, k: nat)
    requires IsPermutation(ds, |ds|) && k < |ds|
    ensures Position(ds, ds[k]) == k
  {
  }

  lemma FixedTerm(t: Lora, ds: seq<nat>, jx: Index, k: nat)
    requires Valid(t) && SharedLeads(t) && IsPermutation(ds, Axes(t)) && ds[Axes(t) - 1] == Axes(t) - 1
    requires var r := Lora(t.a, Permute(t.b, ds));
      Valid(r) && Rank(r) == Rank(t) && InShape(jx, ShapeOf(r)) && InShape(Unpick(jx, ds), ShapeOf(t)) && k < Rank(t)
    ensures Term(Lora(t.a, Permute(t.b, ds)), jx, k) == Term(t, Unpick(jx, ds), k)
  {
    hide Permute, At, Unpick, IsPermutation, Position;
    var n, r := Axes(t), Lora(t.a, Permute(t.b, ds));
    PermuteAt(t.b, ds, IndexB(r, jx, k));
    PositionOf(ds, n - 1);
    FixedB(jx, ds, k);
    FixedA(t, r, jx, Unpick(jx, ds), k);
  }

  /** A shared `a` is read at the column only. */
  lemma FixedA(t: Lora, r: Lora, jx: Index, ix: Index, k: nat)
    requires Valid(t) && Valid(r) && r.a == t.a && SharedLeads(t) && Rank(r) == Rank(t) && k < Rank(t)
    requires InShape(jx, ShapeOf(r)) && InShape(ix, ShapeOf(t)) && jx[Axes(t) - 1] == ix[Axes(t) - 1]
    ensures IndexA(r, jx, k) == IndexA(t, ix, k)
  {
  }

  /** Changing the last coordinate before or after undoing a permutation that keeps it. */
  lemma FixedB(jx: Index, ds: seq<nat>, k: nat)
    requires |jx| > 0 && IsPermutation(ds, |jx|) && ds[|jx| - 1] == |jx| - 1
    ensures Unpick(jx[|jx| - 1 := k], ds) == Unpick(jx, ds)[|jx| - 1 := k]
  {
    var n := |jx|;
    PositionOf(ds, n - 1);
    forall d | 0 <= d < n - 1 ensures Position(ds, d) != n - 1 {
      assert ds[Position(ds, d)] == d;
    }
  }

  lemma FixedDense(t: Lora, ds: seq<nat>)
    requires Valid(t) && SharedLeads(t) && IsPermutation(ds, Axes(t)) && ds[Axes(t) - 1] == Axes(t) - 1
    ensures var r := Lora(t.a, Permute(t.b, ds)); Valid(r) && Dense(r) == Permute(Dense(t), ds)
  {
    hide Permute, At, Unpick, IsPermutation, Dense, Term, Element, SharedLeads;
    LastFixed(t, ds);
    var r := Lora(t.a, Permute(t.b, ds));
    var p := Permute(Dense(t), ds);
    forall jx: Index | InShape(jx, p.shape) ensures At(p, jx) == Element(r, jx) {
      PermuteAt(Dense(t), ds, jx);
      DenseAt(t, Unpick(jx, ds));
      forall k | 0 <= k < Rank(t) ensures Term(r, jx, k) == Term(t, Unpick(jx, ds), k) {
        FixedTerm(t, ds, jx, k);
      }
      SameElement(r, jx, t, Unpick(jx, ds));
    }
    IsDense(r, p);
  }

  lemma SwapIndex(jx: Index)
    requires |jx| == 2 && IsPermutation([1, 0], 2)
    ensures Unpick(jx, [1, 0]) == [jx[1], jx[0]]
  {
    PositionOf([1, 0], 0);
    PositionOf([1, 0], 1);
  }

  lemma SwappedValid(t: Lora)
    requires Valid(t) && Axes(t) == 2 && IsPermutation([1, 0], 2)
    ensures var r := Lora(Permute(t.b, [1, 0]), Permute(t.a, [1, 0]));
      Valid(r) && Rank(r) == Rank(t) && ShapeOf(r) == Pick(ShapeOf(t), [1, 0])
  {
    hide Permute;
    var r := Lora(Permute(t.b, [1, 0]), Permute(t.a, [1, 0]));
    assert r.a.shape == [t.b.shape[1], t.b.shape[0]] && r.b.shape == [t.a.shape[1], t.a.shape[0]];
    assert ShapeOf(r) == Pick(ShapeOf(t), [1, 0]);
  }

  lemma SwappedTerm(t: Lora, r: Lora, jx: Index, k: nat)
    requires Valid(t) && Axes(t) == 2 && IsPermutation([1, 0], 2)
      && r == Lora(Permute(t.b, [1, 0]), Permute(t.a, [1, 0]))
    requires Valid(r) && Rank(r) == Rank(t) && InShape(jx, ShapeOf(r)) && InShape([jx[1], jx[0]], ShapeOf(t))
      && k < Rank(t)
    ensures Term(r, jx, k) == Term(t, [jx[1], jx[0]], k)
  {
    hide Permute, At, Unpick, IsPermutation;
    var ix := [jx[1], jx[0]];
    assert IndexB(r, jx, k) == [jx[0], k] && IndexA(r, jx, k) == [k, jx[1]];
    assert IndexB(t, ix, k) == [jx[1], k] && IndexA(t, ix, k) == [k, jx[0]];
    PermuteAt(t.a, [1, 0], [jx[0], k]);
    SwapIndex([jx[0], k]);
    PermuteAt(t.b, [1, 0], [k, jx[1]]);
    SwapIndex([k, jx[1]]);
  }

  /** The transpose of a product swaps its factors. */
  lemma SwappedDense(t: Lora)
    requires Valid(t) && Axes(t) == 2 && IsPermutation([1, 0], 2)
    ensures var r := Lora(Permute(t.b, [1, 0]), Permute(t.a, [1, 0])); Valid(r) && Dense(r) == Permute(Dense(t), [1, 0])
  {
    hide Permute, At, Unpick, IsPermutation, Dense, Term, Element;
    SwappedValid(t);
    var r := Lora(Permute(t.b, [1, 0]), Permute(t.a, [1, 0]));
    var p := Permute(Dense(t), [1, 0]);
    forall jx: Index | InShape(jx, p.shape) ensures At(p, jx) == Element(r, jx) {
      PermuteAt(Dense(t), [1, 0], jx);
      SwapIndex(jx);
      DenseAt(t, [jx[1], jx[0]]);
      forall k | 0 <= k < Rank(t) ensures Term(r, jx, k) == Term(t, [jx[1], jx[0]], k) {
        SwappedTerm(t, r, jx, k);
      }
      SameElement(r, jx, t, [jx[1], jx[0]]);
    }
    IsDense(r, p);
  }

  /** The permutations the low-rank form can follow. */
  predicate Supported(t: Lora, ds: seq<nat>)
    requires Valid(t) && IsPermutation(ds, Axes(t))
  {
    if ds[Axes(t) - 1] == Axes(t) - 1 then SharedLeads(t) else Axes(t) == 2
  }

  /**
   `permute` succeeds exactly on the supported permutations, and there permutes the product. Of the other
   permutations those that keep the last axis fail an assertion, the others are not implemented.
   */
  lemma PermuteDense(t: Lora, dims: seq<int>)
    requires Valid(t)
    ensures PermuteLora(t, dims).Ok? <==> Reorders(dims, Axes(t)) && Supported(t, Named(dims, Axes(t)))
    ensures var r := PermuteLora(t, dims);
      r.Ok? ==> Valid(r.value) && Dense(r.value) == Permute(Dense(t), Named(dims, Axes(t)))
    ensures Reorders(dims, Axes(t)) && !Supported(t, Named(dims, Axes(t))) ==>
      var last := dims[Axes(t) - 1];
      PermuteLora(t, dims) == if last == -1 || last == Axes(t) - 1 then AssertionFailed else NotImplemented
  {
    hide Permute, Dense, IsPermutation, SharedLeads;
    var n := Axes(t);
    if Reorders(dims, n) {
      var ds := Named(dims, n);
      if ds[n - 1] == n - 1 {
        if SharedLeads(t) {
          FixedDense(t, ds);
        }
      } else if n == 2 {
        OnlySwap(ds);
        SwappedDense(t);
      }
    }
  }

  /** The product of `r` has at `jx` what the product of `t` has at `ix`. */
  ghost predicate SameAt(r: Lora, jx: Index, t: Lora, ix: Index) {
    && Valid(r) && Valid(t) && InShape(jx, ShapeOf(r)) && InShape(ix, ShapeOf(t))
    && At(Dense(r), jx) == At(Dense(t), ix)
  }

  /** Every element of the permuted product: its coordinates come in the order of the axes named. */
  lemma PermuteElement(t: Lora, dims: seq<int>, ix: Index)
    requires Valid(t) && PermuteLora(t, dims).Ok? && InShape(ix, ShapeOf(t))
    ensures var n := Axes(t);
      && |dims| == n && (forall k :: 0 <= k < n ==> 0 <= dims[k] + n && dims[k] < n)
      && var jx: Index := seq(n, k requires 0 <= k < n => ix[if dims[k] < 0 then dims[k] + n else dims[k]]);
        SameAt(PermuteLora(t, dims).value, jx, t, ix)
  {
    PermuteDense(t, dims);
    hide PermuteLora, Dense, Permute, At, IsPermutation, Valid, Supported;
    PermuteMeaning(Dense(t), Named(dims, Axes(t)), ix);
    PickNamed(ix, dims);
  }

  lemma PickNamed(ix: Index, dims: seq<int>)
    requires InRange(dims, |ix|)
    ensures forall k :: 0 <= k < |dims| ==> Named(dims, |ix|)[k] < |ix|
    ensures var n := |ix|;
      Pick(ix, Named(dims, n)) == seq(n, k requires 0 <= k < n => ix[if dims[k] < 0 then dims[k] + n else dims[k]])
  {
  }

  lemma OnlySwap(ds: seq<nat>)
    requires IsPermutation(ds, 2) && ds[1] != 1
    ensures ds == [1, 0]
  {
    assert ds[0] != ds[1] && ds[0] < 2 && ds[1] < 2;
  }

  // ---- Transposing ----

  function Exchanged(n: nat, i: nat, j: nat): (r: seq<nat>)
    requires i < n && j < n
    ensures |r| == n
  {
    seq(n, k requires 0 <= k < n => if k == i then j else if k == j then i else k)
  }

  /** `transpose` (and `swapaxes`): the permutation that exchanges two axes. */
  function Transpose(t: Lora, dim0: int, dim1: int): Outcome<Lora>
    requires Valid(t)
  {
    var n := Axes(t);
    if 0 <= dim0 + n && dim0 < n && 0 <= dim1 + n && dim1 < n
      then PermuteLora(t, Exchanged(n, Axis(dim0, n), Axis(dim1, n)))
      else ShapeError
  }

  lemma ExchangeReorders(n: nat, i: nat, j: nat)
    requires i < n && j < n
    ensures Reorders(Exchanged(n, i, j), n) && Named(Exchanged(n, i, j), n) == Exchanged(n, i, j)
  {
    var ds := Exchanged(n, i, j);
    forall d: nat | d < n ensures d in ds {
      assert ds[if d == i then j else if d == j then i else d] == d;
    }
    assert Named(Exchanged(n, i, j), n) == ds;
  }

  /** Every element of the transposed product is the one with the two coordinates exchanged. */
  lemma TransposeElement(t: Lora, dim0: int, dim1: int, ix: Index)
    requires Valid(t) && 0 <= dim0 + Axes(t) && dim0 < Axes(t) && 0 <= dim1 + Axes(t) && dim1 < Axes(t)
    requires Transpose(t, dim0, dim1).Ok? && InShape(ix, ShapeOf(t))
    ensures var n := Axes(t);
      var i, j := if dim0 < 0 then dim0 + n else dim0, if dim1 < 0 then dim1 + n else dim1;
      SameAt(Transpose(t, dim0, dim1).value, Swapped(ix, i, j), t, ix)
  {
    TransposeDense(t, dim0, dim1);
    hide Transpose, Dense, Permute, At, Valid, IsPermutation, Swapped;
    var n := Axes(t);
    var i, j := Axis(dim0, n), Axis(dim1, n);
    PermuteMeaning(Dense(t), Exchanged(n, i, j), ix);
    PickSwapped(ix, i, j);
  }

  /** The two coordinates exchanged. */
  function Swapped(ix: Index, i: nat, j: nat): Index
    requires i < |ix| && j < |ix|
  {
    ix[i := ix[j]][j := ix[i]]
  }

  lemma PickSwapped(ix: Index, i: nat, j: nat)
    requires i < |ix| && j < |ix|
    ensures forall k :: 0 <= k < |ix| ==> Exchanged(|ix|, i, j)[k] < |ix|
    ensures Pick(ix, Exchanged(|ix|, i, j)) == Swapped(ix, i, j)
  {
  }

  /**
   Exchanging axes `i` and `j` exchanges them in the product. It succeeds exactly when both are before
   the last axis (or equal) and `a` is shared by all leading axes, or when the tensor is a matrix.
   */
  lemma TransposeDense(t: Lora, dim0: int, dim1: int)
    requires Valid(t) && 0 <= dim0 + Axes(t) && dim0 < Axes(t) && 0 <= dim1 + Axes(t) && dim1 < Axes(t)
    ensures var n := Axes(t);
      var i, j, r := Axis(dim0, n), Axis(dim1, n), Transpose(t, dim0, dim1);
      && (r.Ok? <==> (n == 2 || (SharedLeads(t) && (i == j || (i < n - 1 && j < n - 1)))))
      && (r.Ok? ==> && Valid(r.value) && IsPermutation(Exchanged(n, i, j), n)
                    && Dense(r.value) == Permute(Dense(t), Exchanged(n, i, j)))
  {
    hide Permute, Dense, IsPermutation, PermuteLora;
    var n := Axes(t);
    var i, j := Axis(dim0, n), Axis(dim1, n);
    ExchangeReorders(n, i, j);
    PermuteDense(t, Exchanged(n, i, j));
  }
}
