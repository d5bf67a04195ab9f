/** Reshaping of the low-rank form. */
module LoraReshape {
  import opened Tensors
  import opened Lora

  function ProdInt(dims: seq<int>): int {
    if dims == [] then 1 else ProdInt(dims[..|dims| - 1]) * dims[|dims| - 1]
  }

  function WithoutWild(dims: seq<int>): (r: seq<int>)
    ensures |r| == |dims|
  {
    seq(|dims|, k requires 0 <= k < |dims| => if dims[k] == -1 then 1 else dims[k])
  }

  function Filled(dims: seq<int>, q: int): (r: seq<int>)
    ensures |r| == |dims|
  {
    seq(|dims|, k requires 0 <= k < |dims| => if dims[k] == -1 then q else dims[k])
  }

  /** Every -1 becomes the number of elements divided by the product of the other lengths. */
  function Expand(dims: seq<int>, elements: nat): (r: Outcome<seq<int>>)
    ensures r.Ok? ==> |r.value| == |dims|
  {
    if -1 !in dims then Ok(dims)
    else
      var others := ProdInt(WithoutWild(dims));
      if others == 0 then DivisionByZero
      else if elements % others != 0 then AssertionFailed
      else Ok(Filled(dims, elements / others))
  }

  /** Lengths other than -1 are kept; every -1 becomes the length that times the others is the number of elements. */
  lemma ExpandMeaning(dims: seq<int>, elements: nat)
    requires Expand(dims, elements).Ok?
    ensures var r, others := Expand(dims, elements).value, ProdInt(WithoutWild(dims));
      && |r| == |dims| && (forall k :: 0 <= k < |dims| && dims[k] != -1 ==> r[k] == dims[k])
      && (forall k :: 0 <= k < |dims| && dims[k] == -1 ==> others * r[k] == elements)
      && forall k :: 0 <= k < |dims| ==> WithoutWild(dims)[k] == if dims[k] == -1 then 1 else dims[k]
  {
    hide ProdInt;
    if -1 in dims {
      Exact(elements, ProdInt(WithoutWild(dims)));
    }
  }

  predicate NonNegative(dims: seq<int>) {
    forall k :: 0 <= k < |dims| ==> dims[k] >= 0
  }

  function Lengths(dims: seq<int>): (r: Shape)
    requires NonNegative(dims)
    ensures |r| == |dims| && forall k :: 0 <= k < |r| ==> r[k] == dims[k]
  {
    seq(|dims|, k requires 0 <= k < |dims| => dims[k])
  }

  /** Dense reshape, as checked by the tensor library. */
  function ReshapeTensor(t: Tensor, dims: seq<int>): (r: Outcome<Tensor>)
    requires IsTensor(t)
    ensures r.Ok? <==> NonNegative(dims) && Prod(Lengths(dims)) == Prod(t.shape)
    ensures r.Ok? ==> r.value == Reshape(t, Lengths(dims))
  {
    if NonNegative(dims) && Prod(Lengths(dims)) == Prod(t.shape) then Ok(Reshape(t, Lengths(dims))) else ShapeError
  }

  function Columns(t: Lora): nat
    requires Valid(t)
  {
    t.a.shape[Axes(t) - 1]
  }

  function FactorA(t: Lora, n: nat): (r: seq<int>)
    requires Valid(t) && n >= 2
    ensures |r| == n && r[n - 2] == Rank(t) && r[n - 1] == Columns(t) && forall k :: 0 <= k < n - 2 ==> r[k] == 1
  {
    Ones(n - 2) + [Rank(t), Columns(t)]
  }

  function FactorB(t: Lora, dims: seq<int>): (r: seq<int>)
    requires Valid(t) && |dims| >= 2
    ensures |r| == |dims| && r == dims[|dims| - 1 := Rank(t)]
  {
    dims[..|dims| - 1] + [Rank(t)]
  }

  /** `reshape`: the row length is kept; all leading axes of the new `a` are shared. */
  function ReshapeLora(t: Lora, dims: seq<int>): (r: Outcome<Lora>)
    requires Valid(t)
  {
    if |dims| < 2 then NotImplemented
    else
      var expanded := Expand(dims, Prod(ShapeOf(t)));
      if !expanded.Ok? then Failure(expanded)
      else if expanded.value[|dims| - 1] != Columns(t) then NotImplemented
      else
        var a := ReshapeTensor(t.a, FactorA(t, |dims|));
        var b := ReshapeTensor(t.b, FactorB(t, expanded.value));
        if a.Ok? && b.Ok? then Ok(Lora(a.value, b.value)) else ShapeError
  }

  function Failure(x: Outcome<seq<int>>): (r: Outcome<Lora>)
    requires !x.Ok?
    ensures !r.Ok?
  {
    match x
    case NotImplemented => NotImplemented
    case AssertionFailed => AssertionFailed
    case ShapeError => ShapeError
    case DivisionByZero => DivisionByZero
  }

  // ---- The flat form: an element of the product from the data of the factors ----

  function FlatTerm(a: seq<real>, b: seq<real>, rank: nat, cols: nat, row: nat, col: nat, k: nat): real {
    var i: nat, j: nat := row * rank + k, k * cols + col;
    if i < |b| && j < |a| then b[i] * a[j] else 0.0
  }

  function FlatTerms(a: seq<real>, b: seq<real>, rank: nat, cols: nat, row: nat, col: nat): (r: seq<real>)
    ensures |r| == rank && forall k :: 0 <= k < rank ==> r[k] == FlatTerm(a, b, rank, cols, row, col, k)
  {
    seq(rank, k requires 0 <= k < rank => FlatTerm(a, b, rank, cols, row, col, k))
  }

  lemma {:induction false} ZeroOffset(shape: Shape, ix: Index)
    requires |ix| == |shape| && forall k :: 0 <= k < |ix| ==> ix[k] == 0
    ensures Offset(shape, ix) == 0
  {
    if shape != [] {
      ZeroOffset(shape[..|shape| - 1], ix[..|ix| - 1]);
    }
  }

  lemma {:induction false} OnesProd(shape: Shape)
    ensures Prod(shape) == 1 <==> forall k :: 0 <= k < |shape| ==> shape[k] == 1
  {
    if shape != [] {
      var m := |shape| - 1;
      OnesProd(shape[..m]);
      FactorsOfOne(Prod(shape[..m]), shape[m]);
      if Prod(shape) == 1 {
        assert forall k :: 0 <= k < m ==> shape[..m][k] == shape[k];
      }
    }
  }

  lemma FactorsOfOne(p: nat, n: nat)
    ensures p * n == 1 <==> p == 1 && n == 1
  {
    if p >= 2 && n >= 1 {
      assert p * n >= 2 * n;
    }
  }

  /** Where a term of the element at `row`, `col` finds its factor in `b`. */
  lemma OffsetB(t: Lora, ix: Index, k: nat)
    requires Valid(t) && InShape(ix, ShapeOf(t)) && k < Rank(t)
    ensures Offset(t.b.shape, IndexB(t, ix, k)) == Offset(ShapeOf(t)[..Axes(t) - 1], ix[..Axes(t) - 1]) * Rank(t) + k
  {
    hide Offset;
    var m := Axes(t) - 1;
    OffsetStep(t.b.shape, IndexB(t, ix, k));
    assert IndexB(t, ix, k)[..m] == ix[..m] && t.b.shape[..m] == ShapeOf(t)[..m];
  }

  lemma OffsetStep(shape: Shape, ix: Index)
    requires |ix| == |shape| > 0
    ensures Offset(shape, ix) == Offset(shape[..|shape| - 1], ix[..|ix| - 1]) * shape[|shape| - 1] + ix[|ix| - 1]
  {
  }

  /** Where it finds its factor in `a`. */
  lemma OffsetA(t: Lora, ix: Index, k: nat)
    requires Valid(t) && InShape(ix, ShapeOf(t)) && k < Rank(t) && SharedLeads(t)
    ensures Offset(t.a.shape, IndexA(t, ix, k)) == k * Columns(t) + ix[Axes(t) - 1]
  {
    hide Offset;
    var m, jx := Axes(t) - 1, IndexA(t, ix, k);
    OffsetStep(t.a.shape, jx);
    OffsetStep(t.a.shape[..m], jx[..m]);
    assert t.a.shape[..m][..m - 1] == t.a.shape[..m - 1] && jx[..m][..m - 1] == jx[..m - 1];
    ZeroOffset(t.a.shape[..m - 1], jx[..m - 1]);
  }

  /** An element of the product in terms of the data of the factors. */
  lemma FlatElement(t: Lora, ix: Index, row: nat, col: nat)
    requires Valid(t) && InShape(ix, ShapeOf(t)) && SharedLeads(t)
    requires row == Offset(ShapeOf(t)[..Axes(t) - 1], ix[..Axes(t) - 1]) && col == ix[Axes(t) - 1]
    ensures Element(t, ix) == Sum(FlatTerms(t.a.data, t.b.data, Rank(t), Columns(t), row, col))
  {
    hide Offset, Sum, IndexA, IndexB, ShapeOf, SharedLeads;
    var cols := Columns(t);
    var flat := FlatTerms(t.a.data, t.b.data, Rank(t), cols, row, col);
    forall k | 0 <= k < Rank(t) ensures Term(t, ix, k) == flat[k] {
      OffsetB(t, ix, k);
      OffsetA(t, ix, k);
      OffsetInRange(t.b.shape, IndexB(t, ix, k));
      OffsetInRange(t.a.shape, IndexA(t, ix, k));
    }
    assert Terms(t, ix) == flat;
  }

  /** The element of the product at a position of its data. */
  lemma FlatDense(t: Lora, o: nat)
    requires Valid(t) && o < Prod(ShapeOf(t)) && SharedLeads(t)
    ensures var cols := Columns(t);
      cols > 0 && Dense(t).data[o] == Sum(FlatTerms(t.a.data, t.b.data, Rank(t), cols, o / cols, o % cols))
  {
    hide Dense, Element, Sum, FlatTerms, SharedLeads;
    var shape, m := ShapeOf(t), Axes(t) - 1;
    var ix := IndexOf(shape, o);
    OffsetOfIndex(shape, o);
    DenseAt(t, ix);
    var cols := Columns(t);
    PositiveFactor(Prod(shape[..m]), cols);
    DivLess(o, Prod(shape[..m]), cols);
    OffsetOfIndex(shape[..m], o / cols);
    assert ix[..m] == IndexOf(shape[..m], o / cols);
    FlatElement(t, ix, o / cols, o % cols);
  }

  // ---- Reshaping is reshaping the product ----

  lemma ProdStep(shape: Shape)
    requires |shape| > 0
    ensures Prod(shape) == Prod(shape[..|shape| - 1]) * shape[|shape| - 1]
  {
  }

  lemma ProdTwo(shape: Shape)
    requires |shape| >= 2
    ensures Prod(shape) == Prod(shape[..|shape| - 2]) * shape[|shape| - 2] * shape[|shape| - 1]
  {
    hide Prod;
    var m := |shape| - 1;
    ProdStep(shape);
    ProdStep(shape[..m]);
    assert shape[..m][..m - 1] == shape[..m - 1];
  }

  lemma Cancel(p: nat, q: nat, n: nat)
    requires p * n == q * n && n > 0
    ensures p == q
  {
  }

  /** The new `a` has as many elements exactly when its leading axes were shared, if it has any. */
  lemma SizeA(t: Lora, shape: Shape)
    requires Valid(t) && |shape| >= 2 && shape[|shape| - 2] == Rank(t) && shape[|shape| - 1] == Columns(t)
    requires Rank(t) > 0 && Columns(t) > 0 && forall k :: 0 <= k < |shape| - 2 ==> shape[k] == 1
    ensures Prod(shape) == Prod(t.a.shape) <==> SharedLeads(t)
  {
    hide Prod;
    var n, p := |shape|, Prod(t.a.shape[..Axes(t) - 2]);
    ProdTwo(shape);
    ProdTwo(t.a.shape);
    OnesProd(shape[..n - 2]);
    OnesProd(t.a.shape[..Axes(t) - 2]);
    if Prod(shape) == Prod(t.a.shape) {
      Cancel(1 * Rank(t), p * Rank(t), Columns(t));
      Cancel(1, p, Rank(t));
      assert forall k :: 0 <= k < Axes(t) - 2 ==> t.a.shape[..Axes(t) - 2][k] == t.a.shape[k];
    }
  }

  /** The new `b` has as many elements exactly when the new tensor has. */
  lemma SizeB(t: Lora, shape: Shape)
    requires Valid(t) && |shape| >= 2 && shape[|shape| - 1] == Columns(t) && Rank(t) > 0
    ensures Prod(shape[|shape| - 1 := Rank(t)]) == Prod(t.b.shape) ==> Prod(shape) == Prod(ShapeOf(t))
    ensures Columns(t) > 0 && Prod(shape) == Prod(ShapeOf(t)) ==> Prod(shape[|shape| - 1 := Rank(t)]) == Prod(t.b.shape)
  {
    hide Prod;
    var m, n := |shape| - 1, Axes(t) - 1;
    var s := shape[m := Rank(t)];
    ProdStep(shape);
    ProdStep(s);
    ProdStep(t.b.shape);
    ProdStep(ShapeOf(t));
    assert s[..m] == shape[..m] && t.b.shape[..n] == ShapeOf(t)[..n];
    var p, q := Prod(shape[..m]), Prod(t.b.shape[..n]);
    if p * Rank(t) == q * Rank(t) {
      Cancel(p, q, Rank(t));
    }
    if Columns(t) > 0 && p * Columns(t) == q * Columns(t) {
      Cancel(p, q, Columns(t));
    }
  }

  lemma NoRank(t: Lora, o: nat)
    requires Valid(t) && Rank(t) == 0 && o < Prod(ShapeOf(t))
    ensures Dense(t).data[o] == 0.0
  {
    hide Term;
    OffsetOfIndex(ShapeOf(t), o);
    assert Terms(t, IndexOf(ShapeOf(t), o)) == [];
  }

  /** Forms with the same data and row length have the same product data. */
  lemma SameData(t: Lora, r: Lora)
    requires Valid(t) && Valid(r) && Prod(ShapeOf(r)) == Prod(ShapeOf(t))
    requires r.a.data == t.a.data && r.b.data == t.b.data && Rank(r) == Rank(t) && Columns(r) == Columns(t)
    requires Rank(t) > 0 && Columns(t) > 0 ==> SharedLeads(t) && SharedLeads(r)
    ensures Dense(r) == Reshape(Dense(t), ShapeOf(r))
  {
    hide Dense, FlatTerms, Sum, Prod, SharedLeads;
    forall o: nat | o < Prod(ShapeOf(t)) ensures Dense(r).data[o] == Dense(t).data[o] {
      if Rank(t) == 0 {
        NoRank(t, o);
        NoRank(r, o);
      } else {
        ProdStep(ShapeOf(t));
        PositiveFactor(Prod(ShapeOf(t)[..Axes(t) - 1]), Columns(t));
        FlatDense(t, o);
        FlatDense(r, o);
      }
    }
  }

  /** What a successful reshape returns. */
  lemma ReshapedForm(t: Lora, dims: seq<int>)
    requires Valid(t) && ReshapeLora(t, dims).Ok?
    ensures var r := ReshapeLora(t, dims).value;
      && Valid(r) && r.a.data == t.a.data && r.b.data == t.b.data && Rank(r) == Rank(t) && Columns(r) == Columns(t)
      && SharedLeads(r) && Expand(dims, Prod(ShapeOf(t))).Ok? && ShapeOf(r) == Expand(dims, Prod(ShapeOf(t))).value
  {
    hide Prod, Expand;
    var e := Expand(dims, Prod(ShapeOf(t))).value;
    var r := ReshapeLora(t, dims).value;
    assert r.a.shape == Lengths(FactorA(t, |dims|)) && r.b.shape == Lengths(FactorB(t, e));
    assert forall k :: 0 <= k < |e| ==> ShapeOf(r)[k] == e[k];
  }

  /**
   A reshape that succeeds reshapes the product to the expanded shape, and the new shape has as many
   elements unless the rank is zero (then `b` has no elements to count).
   */
  lemma ReshapeDense(t: Lora, dims: seq<int>)
    requires Valid(t) && ReshapeLora(t, dims).Ok?
    ensures var r := ReshapeLora(t, dims).value;
      && Valid(r) && Expand(dims, Prod(ShapeOf(t))).Ok? && ShapeOf(r) == Expand(dims, Prod(ShapeOf(t))).value
      && (Rank(t) > 0 ==> Prod(ShapeOf(r)) == Prod(ShapeOf(t)))
      && (Prod(ShapeOf(r)) == Prod(ShapeOf(t)) ==> Dense(r) == Reshape(Dense(t), ShapeOf(r)))
  {
    hide Prod, Expand, Dense, SharedLeads;
    ReshapedForm(t, dims);
    var r := ReshapeLora(t, dims).value;
    if Rank(t) > 0 {
      assert r.b.shape == ShapeOf(r)[Axes(r) - 1 := Rank(t)];
      SizeB(t, ShapeOf(r));
      if Columns(t) > 0 {
        assert Prod(r.a.shape) == Prod(t.a.shape);
        RealLeads(t, r);
      }
    }
    if Prod(ShapeOf(r)) == Prod(ShapeOf(t)) {
      SameData(t, r);
    }
  }

  lemma RealLeads(t: Lora, r: Lora)
    requires Valid(t) && Valid(r) && SharedLeads(r) && Rank(r) == Rank(t) > 0 && Columns(r) == Columns(t) > 0
    requires Prod(r.a.shape) == Prod(t.a.shape)
    ensures SharedLeads(t)
  {
    hide Prod;
    SizeA(t, r.a.shape);
  }

  lemma SizeAExact(t: Lora, shape: Shape)
    requires Valid(t) && |shape| >= 2 && shape[|shape| - 2] == Rank(t) && shape[|shape| - 1] == Columns(t)
    requires forall k :: 0 <= k < |shape| - 2 ==> shape[k] == 1
    ensures Prod(shape) == Prod(t.a.shape) <==> (Rank(t) > 0 && Columns(t) > 0 ==> SharedLeads(t))
  {
    hide Prod, SharedLeads;
    if Rank(t) > 0 && Columns(t) > 0 {
      SizeA(t, shape);
    } else {
      ProdTwo(shape);
      ProdTwo(t.a.shape);
    }
  }

  lemma SizeBExact(t: Lora, shape: Shape)
    requires Valid(t) && |shape| >= 2
    ensures Prod(shape[|shape| - 1 := Rank(t)]) == Prod(t.b.shape)
      <==> (Rank(t) > 0 ==> Prod(shape[..|shape| - 1]) == Prod(ShapeOf(t)[..Axes(t) - 1]))
  {
    hide Prod;
    var m, n := |shape| - 1, Axes(t) - 1;
    var s := shape[m := Rank(t)];
    ProdStep(s);
    ProdStep(t.b.shape);
    assert s[..m] == shape[..m] && t.b.shape[..n] == ShapeOf(t)[..n];
    var p, q := Prod(shape[..m]), Prod(t.b.shape[..n]);
    if Rank(t) > 0 && p * Rank(t) == q * Rank(t) {
      Cancel(p, q, Rank(t));
    }
  }

  /**
   A reshape succeeds exactly when it leaves at least two axes, keeps the row length and, as far as
   the factors have elements to count, the number of rows, and `a` is shared by all leading axes.
   */
  lemma ReshapeSucceeds(t: Lora, dims: seq<int>)
    requires Valid(t)
    ensures ReshapeLora(t, dims).Ok? <==>
      var e := Expand(dims, Prod(ShapeOf(t)));
      && |dims| >= 2 && e.Ok? && NonNegative(e.value) && e.value[|dims| - 1] == Columns(t)
      && (Rank(t) > 0 ==> Prod(Lengths(e.value)[..|dims| - 1]) == Prod(ShapeOf(t)[..Axes(t) - 1]))
      && (Rank(t) > 0 && Columns(t) > 0 ==> SharedLeads(t))
  {
    hide Prod, Expand, SharedLeads;
    var expanded := Expand(dims, Prod(ShapeOf(t)));
    if |dims| >= 2 && expanded.Ok? && expanded.value[|dims| - 1] == Columns(t) {
      var e := expanded.value;
      SizeAExact(t, Lengths(FactorA(t, |dims|)));
      if NonNegative(e) {
        assert Lengths(FactorB(t, e)) == Lengths(e)[|dims| - 1 := Rank(t)];
        SizeBExact(t, Lengths(e));
      } else {
        NegativeFactorB(t, e);
      }
    }
  }

  /** What a reshape that does not succeed ends in, in the order of the tests. */
  lemma ReshapeFails(t: Lora, dims: seq<int>)
    requires Valid(t) && !ReshapeLora(t, dims).Ok?
    ensures var elements, others := Prod(ShapeOf(t)), ProdInt(WithoutWild(dims));
      ReshapeLora(t, dims) ==
        if |dims| < 2 then NotImplemented
        else if -1 in dims && others == 0 then DivisionByZero
        else if -1 in dims && elements % others != 0 then AssertionFailed
        else if Expand(dims, elements).value[|dims| - 1] != Columns(t) then NotImplemented
        else ShapeError
  {
    hide Prod, ProdInt, WithoutWild, Filled;
  }

  lemma NegativeFactorB(t: Lora, e: seq<int>)
    requires Valid(t) && |e| >= 2 && e[|e| - 1] == Columns(t) && !NonNegative(e)
    ensures !NonNegative(FactorB(t, e))
  {
    var k :| 0 <= k < |e| && e[k] < 0;
    assert FactorB(t, e)[k] < 0;
  }

  // ---- The wildcard ----

  function WildCount(dims: seq<int>): nat {
    if dims == [] then 0 else WildCount(dims[..|dims| - 1]) + if dims[|dims| - 1] == -1 then 1 else 0
  }

  function Power(q: int, n: nat): int {
    if n == 0 then 1 else Power(q, n - 1) * q
  }

  lemma {:induction false} FilledProd(dims: seq<int>, q: int)
    ensures ProdInt(Filled(dims, q)) == ProdInt(WithoutWild(dims)) * Power(q, WildCount(dims))
  {
    hide ProdInt;
    if dims == [] {
      EmptyProd(Filled(dims, q));
      EmptyProd(WithoutWild(dims));
    } else {
      var m := |dims| - 1;
      var init := dims[..m];
      FilledProd(init, q);
      assert Filled(dims, q)[..m] == Filled(init, q);
      assert WithoutWild(dims)[..m] == WithoutWild(init);
      ProdLast(Filled(dims, q));
      ProdLast(WithoutWild(dims));
      Commute(ProdInt(WithoutWild(init)), Power(q, WildCount(init)), dims[m]);
      Associate(ProdInt(WithoutWild(init)), Power(q, WildCount(init)), q);
    }
  }

  lemma Associate(p: int, q: int, d: int)
    ensures p * q * d == p * (q * d)
  {
  }

  lemma EmptyProd(dims: seq<int>)
    ensures dims == [] ==> ProdInt(dims) == 1
  {
  }

  lemma ProdLast(dims: seq<int>)
    requires dims != []
    ensures ProdInt(dims) == ProdInt(dims[..|dims| - 1]) * dims[|dims| - 1]
  {
  }

  lemma Commute(p: int, q: int, d: int)
    ensures p * q * d == p * d * q
  {
  }

  lemma {:induction false} SomeWild(dims: seq<int>)
    requires -1 in dims
    ensures WildCount(dims) > 0
  {
    var m := |dims| - 1;
    if dims[m] != -1 {
      var k :| 0 <= k < |dims| && dims[k] == -1;
      assert dims[..m][k] == -1;
      SomeWild(dims[..m]);
    }
  }

  /**
   Every wildcard is given the same length, so that expansion keeps the number of elements exactly
   when there is one wildcard, no element, or nothing is multiplied twice.
   */
  lemma ExpandKeepsElements(dims: seq<int>, elements: nat)
    requires -1 in dims && Expand(dims, elements).Ok?
    ensures WildCount(dims) > 0
    ensures ProdInt(Expand(dims, elements).value) == elements
      <==> elements == 0 || Power(elements / ProdInt(WithoutWild(dims)), WildCount(dims) - 1) == 1
  {
    hide ProdInt, Filled, WithoutWild;
    var others := ProdInt(WithoutWild(dims));
    var q, w := elements / others, WildCount(dims);
    SomeWild(dims);
    Exact(elements, others);
    FilledProd(dims, q);
    Commute(others, Power(q, w - 1), q);
    Associate(others, Power(q, w - 1), q);
    assert ProdInt(Filled(dims, q)) == elements * Power(q, w - 1);
    OneOnly(elements, Power(q, w - 1));
  }

  lemma OneOnly(x: nat, p: int)
    ensures x * p == x <==> x == 0 || p == 1
  {
    if x > 0 && p != 1 {
      TimesGrows(x, p - 1);
      assert x * p == x * (p - 1) + x;
    }
  }

  /** One wildcard gets a length exactly when there is one that keeps the number of elements. */
  lemma ExpandFindsLength(dims: seq<int>, elements: nat)
    requires WildCount(dims) == 1 && -1 in dims && ProdInt(WithoutWild(dims)) != 0
    ensures Expand(dims, elements).Ok? <==> exists q :: ProdInt(Filled(dims, q)) == elements
  {
    hide ProdInt, Filled, WithoutWild;
    var others := ProdInt(WithoutWild(dims));
    Exact(elements, others);
    FilledProd(dims, elements / others);
    PowerOne(elements / others);
    forall q | ProdInt(Filled(dims, q)) == elements ensures elements % others == 0 {
      FilledProd(dims, q);
      PowerOne(q);
      Multiple(others, q);
    }
  }

  lemma PowerOne(q: int)
    ensures Power(q, 1) == q
  {
    assert Power(q, 0) == 1;
  }

  lemma Exact(x: int, n: int)
    requires n != 0
    ensures x % n == 0 ==> n * (x / n) == x
  {
  }

  lemma Multiple(n: int, q: int)
    requires n != 0
    ensures n * q % n == 0
  {
    var r := n * q % n;
    assert n * q == n * (n * q / n) + r;
    var d := q - n * q / n;
    assert r == n * d && n * d == -n * -d;
    if n > 0 { TimesGrows(n, d); } else { TimesGrows(-n, -d); }
  }

  lemma TimesGrows(n: int, d: int)
    requires n > 0
    ensures d >= 1 ==> n * d >= n
    ensures d <= -1 ==> n * d <= -n
  {
  }
}
