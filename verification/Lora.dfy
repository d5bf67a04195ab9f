/**
 A lazy low-rank tensor (`LoraTorchTensor`): two factors whose product is never computed. Every
 operation on the factors is compared with the same operation on the dense product.
 */
module Lora {
  import opened Tensors

  /** `a` has shape (..., rank, columns), `b` has shape (..., rows, rank). */
  datatype Lora = Lora(a: Tensor, b: Tensor)

  datatype Outcome<+T> = Ok(value: T) | NotImplemented | AssertionFailed | ShapeError | DivisionByZero

  function Axes(t: Lora): nat {
    |t.b.shape|
  }

  /** A leading axis of `a` is as long as the one of `b`, or is shared by all of them. */
  predicate Valid(t: Lora) {
    && IsTensor(t.a) && IsTensor(t.b) && |t.a.shape| == |t.b.shape| >= 2
    && t.a.shape[Axes(t) - 2] == t.b.shape[Axes(t) - 1]
    && forall k :: 0 <= k < Axes(t) - 2 ==> t.a.shape[k] == 1 || t.a.shape[k] == t.b.shape[k]
  }

  function Rank(t: Lora): nat
    requires Valid(t)
  {
    t.b.shape[Axes(t) - 1]
  }

  function ShapeOf(t: Lora): (s: Shape)
    requires Valid(t)
    ensures |s| == Axes(t)
  {
    t.b.shape[Axes(t) - 1 := t.a.shape[Axes(t) - 1]]
  }

  /** Which of `n` axes `dim` names: negative ones count from the end. */
  function Axis(dim: int, n: nat): (d: nat)
    requires 0 <= dim + n && dim < n
    ensures d < n
  {
    if dim < 0 then dim + n else dim
  }

  /** All leading axes of `a` are shared. */
  predicate SharedLeads(t: Lora)
    requires Valid(t)
  {
    forall k :: 0 <= k < Axes(t) - 2 ==> t.a.shape[k] == 1
  }

  // ---- The dense product ----

  /** The index of `b` in the k-th term of an element. */
  function IndexB(t: Lora, ix: Index, k: nat): (r: Index)
    requires Valid(t) && InShape(ix, ShapeOf(t)) && k < Rank(t)
    ensures InShape(r, t.b.shape)
  {
    ix[Axes(t) - 1 := k]
  }

  /** The index of `a` in the k-th term: shared leading axes stay at zero. */
  function IndexA(t: Lora, ix: Index, k: nat): (r: Index)
    requires Valid(t) && InShape(ix, ShapeOf(t)) && k < Rank(t)
    ensures InShape(r, t.a.shape)
  {
    var n := Axes(t);
    seq(n, i requires 0 <= i < n =>
      if i == n - 1 then ix[i] else if i == n - 2 then k else if t.a.shape[i] == 1 then 0 else ix[i])
  }

  function Term(t: Lora, ix: Index, k: nat): real
    requires Valid(t) && InShape(ix, ShapeOf(t)) && k < Rank(t)
  {
    At(t.b, IndexB(t, ix, k)) * At(t.a, IndexA(t, ix, k))
  }

  function Terms(t: Lora, ix: Index): (r: seq<real>)
    requires Valid(t) && InShape(ix, ShapeOf(t))
    ensures |r| == Rank(t) && forall k :: 0 <= k < |r| ==> r[k] == Term(t, ix, k)
  {
    seq(Rank(t), k requires 0 <= k < Rank(t) => Term(t, ix, k))
  }

  function Sum(terms: seq<real>): real {
    if terms == [] then 0.0 else Sum(terms[..|terms| - 1]) + terms[|terms| - 1]
  }

  /** One element of the matrix product. */
  function Element(t: Lora, ix: Index): real
    requires Valid(t) && InShape(ix, ShapeOf(t))
  {
    Sum(Terms(t, ix))
  }

  function Dense(t: Lora): (d: Tensor)
    requires Valid(t)
    ensures IsTensor(d) && d.shape == ShapeOf(t)
  {
    Build(ShapeOf(t), ix => if InShape(ix, ShapeOf(t)) then Element(t, ix) else 0.0)
  }

  lemma DenseAt(t: Lora, ix: Index)
    requires Valid(t) && InShape(ix, ShapeOf(t))
    ensures At(Dense(t), ix) == Element(t, ix)
  {
    BuildAt(ShapeOf(t), i => if InShape(i, ShapeOf(t)) then Element(t, i) else 0.0, ix);
  }

  /** Elements with the same terms are the same. */
  lemma SameElement(t: Lora, ix: Index, u: Lora, jx: Index)
    requires Valid(t) && InShape(ix, ShapeOf(t)) && Valid(u) && InShape(jx, ShapeOf(u)) && Rank(t) == Rank(u)
    requires forall k :: 0 <= k < Rank(t) ==> Term(t, ix, k) == Term(u, jx, k)
    ensures Element(t, ix) == Element(u, jx)
  {
    hide Term, Sum;
    assert Terms(t, ix) == Terms(u, jx);
  }

  /** A tensor whose elements are those of the product is the product. */
  lemma IsDense(t: Lora, d: Tensor)
    requires Valid(t) && IsTensor(d) && d.shape == ShapeOf(t)
    requires forall ix: Index :: InShape(ix, d.shape) ==> At(d, ix) == Element(t, ix)
    ensures Dense(t) == d
  {
    forall ix: Index | InShape(ix, d.shape) ensures At(Dense(t), ix) == At(d, ix) {
      DenseAt(t, ix);
    }
    hide Dense;
    SameTensor(Dense(t), d);
  }

  /** Two rows that share their `a`. */
  const SHARED_ROWS := Lora(Tensor([1, 1, 1], [1.0]), Tensor([2, 1, 1], [1.0, 1.0]))

  lemma SharedRows()
    ensures Valid(SHARED_ROWS) && !(SHARED_ROWS.a.shape[0] == SHARED_ROWS.b.shape[0])
  {
    var s, u: Shape := [1, 1, 1], [2, 1, 1];
    assert s[..2] == [1, 1] && s[..2][..1] == [1] && s[..2][..1][..0] == [];
    assert u[..2] == [2, 1] && u[..2][..1] == [2] && u[..2][..1][..0] == [];
    assert Prod([1]) == 1 && Prod([1, 1]) == 1 && Prod(s) == 1;
    assert Prod([2]) == 2 && Prod([2, 1]) == 2 && Prod(u) == 2;
  }

  /** The terms of an element of a matrix product: a row of `b` and a column of `a`. */
  lemma MatrixTerm(t: Lora, i: nat, j: nat, k: nat)
    requires Valid(t) && Axes(t) == 2 && i < t.b.shape[0] && j < t.a.shape[1] && k < Rank(t)
    ensures InShape([i, j], ShapeOf(t)) && InShape([i, k], t.b.shape) && InShape([k, j], t.a.shape)
    ensures Terms(t, [i, j])[k] == At(t.b, [i, k]) * At(t.a, [k, j])
  {
    hide At;
    assert IndexB(t, [i, j], k) == [i, k] && IndexA(t, [i, j], k) == [k, j];
  }

  /** The sum of terms, one more at a time. */
  lemma SumSnoc(terms: seq<real>, x: real)
    ensures Sum([]) == 0.0 && Sum(terms + [x]) == Sum(terms) + x
  {
    assert (terms + [x])[..|terms|] == terms;
  }
}
