/** Splitting and row slicing of the low-rank form. */
module LoraParts {
  import opened Text
  import opened Tensors
  import opened Lora

  /** The part at the given places of axis `d`. */
  function Part(t: Lora, d: nat, p: Places): (r: Lora)
    requires Valid(t) && d < Axes(t) && Reaches(p, ShapeOf(t)[d])
    ensures Valid(r) && Axes(r) == Axes(t) && Rank(r) == Rank(t) && ShapeOf(r) == ShapeOf(t)[d := p.len]
  {
    if d == Axes(t) - 1 then Lora(Narrow(t.a, d, p), t.b)
    else if d == Axes(t) - 2 || t.a.shape[d] == 1 then Lora(t.a, Narrow(t.b, d, p))
    else Lora(Narrow(t.a, d, p), Narrow(t.b, d, p))
  }

  lemma PartB(t: Lora, d: nat, p: Places, ix: Index, k: nat)
    requires Valid(t) && d < Axes(t) && Reaches(p, ShapeOf(t)[d]) && k < Rank(t)
    requires InShape(ix, ShapeOf(Part(t, d, p))) && InShape(Shift(ix, d, p), ShapeOf(t))
    ensures At(Part(t, d, p).b, IndexB(Part(t, d, p), ix, k)) == At(t.b, IndexB(t, Shift(ix, d, p), k))
  {
    hide Narrow, At, Reaches, Place;
    var r, jx := Part(t, d, p), Shift(ix, d, p);
    if d == Axes(t) - 1 {
      assert IndexB(r, ix, k) == IndexB(t, jx, k);
    } else {
      NarrowAt(t.b, d, p, IndexB(r, ix, k));
      assert Shift(IndexB(r, ix, k), d, p) == IndexB(t, jx, k);
    }
  }

  lemma PartA(t: Lora, d: nat, p: Places, ix: Index, k: nat)
    requires Valid(t) && d < Axes(t) && Reaches(p, ShapeOf(t)[d]) && k < Rank(t)
    requires InShape(ix, ShapeOf(Part(t, d, p))) && InShape(Shift(ix, d, p), ShapeOf(t))
    ensures At(Part(t, d, p).a, IndexA(Part(t, d, p), ix, k)) == At(t.a, IndexA(t, Shift(ix, d, p), k))
  {
    hide Narrow, At, Reaches, Place;
    var r, jx := Part(t, d, p), Shift(ix, d, p);
    if d != Axes(t) - 1 && (d == Axes(t) - 2 || t.a.shape[d] == 1) {
      assert IndexA(r, ix, k) == IndexA(t, jx, k);
    } else {
      NarrowAt(t.a, d, p, IndexA(r, ix, k));
      assert IndexA(r, ix, k)[d] == ix[d];
      assert Shift(IndexA(r, ix, k), d, p) == IndexA(t, jx, k);
    }
  }

  /** A part of the factors is the part of the product, along every axis. */
  lemma PartDense(t: Lora, d: nat, p: Places)
    requires Valid(t) && d < Axes(t) && Reaches(p, ShapeOf(t)[d])
    ensures Dense(Part(t, d, p)) == Narrow(Dense(t), d, p)
  {
    hide Dense, Narrow, At, Element, Part, Shift, IndexA, IndexB;
    var r := Part(t, d, p);
    var n := Narrow(Dense(t), d, p);
    forall ix: Index | InShape(ix, n.shape) ensures At(n, ix) == Element(r, ix) {
      NarrowAt(Dense(t), d, p, ix);
      DenseAt(t, Shift(ix, d, p));
      forall k | 0 <= k < Rank(t) ensures Term(r, ix, k) == Term(t, Shift(ix, d, p), k) {
        PartA(t, d, p, ix, k);
        PartB(t, d, p, ix, k);
      }
      SameElement(r, ix, t, Shift(ix, d, p));
    }
    IsDense(r, n);
  }

  // ---- Splitting ----

  function Chunk(from: nat, len: nat): Places {
    Places(from, 1, len)
  }

  function Total(sizes: seq<nat>): nat {
    if sizes == [] then 0 else sizes[0] + Total(sizes[1..])
  }

  function Parts(t: Lora, d: nat, from: nat, sizes: seq<nat>): (r: seq<Lora>)
    requires Valid(t) && d < Axes(t) && from + Total(sizes) <= ShapeOf(t)[d]
    ensures |r| == |sizes| && forall k :: 0 <= k < |r| ==> Valid(r[k])
    decreases |sizes|
  {
    if sizes == [] then [] else [Part(t, d, Chunk(from, sizes[0]))] + Parts(t, d, from + sizes[0], sizes[1..])
  }

  /** How a split is asked for: chunks of one size, or the size of each chunk. */
  datatype Sizes = Every(size: nat) | Each(sizes: seq<nat>)

  /** Chunks of one size, the last one as long as what is left. */
  function ChunkSizes(len: nat, size: nat): (r: seq<nat>)
    requires size > 0
    ensures r != [] && Total(r) == len
    decreases len
  {
    if len <= size then [len] else [size] + ChunkSizes(len - size, size)
  }

  /** The chunk lengths; size zero is accepted for an empty axis only, and listed sizes must add up to the axis. */
  function Lengths(len: nat, sizes: Sizes): (r: Outcome<seq<nat>>)
    ensures r.Ok? ==> Total(r.value) == len
  {
    match sizes
    case Every(size) => if size > 0 then Ok(ChunkSizes(len, size)) else if len == 0 then Ok([0]) else ShapeError
    case Each(each) => if Total(each) == len then Ok(each) else ShapeError
  }

  function Split(t: Lora, sizes: Sizes, dim: int): (r: Outcome<seq<Lora>>)
    requires Valid(t) && 0 <= dim + Axes(t) && dim < Axes(t)
    ensures r.Ok? ==> forall k :: 0 <= k < |r.value| ==> Valid(r.value[k])
  {
    var d := Axis(dim, Axes(t));
    var lengths := Lengths(ShapeOf(t)[d], sizes);
    if lengths.Ok? then Ok(Parts(t, d, 0, lengths.value)) else ShapeError
  }

  lemma {:induction false} PartsDense(t: Lora, d: nat, from: nat, sizes: seq<nat>, k: nat)
    requires Valid(t) && d < Axes(t) && from + Total(sizes) <= ShapeOf(t)[d] && k < |sizes|
    ensures from + Total(sizes[..k]) + sizes[k] <= ShapeOf(t)[d]
    ensures Dense(Parts(t, d, from, sizes)[k]) == Narrow(Dense(t), d, Chunk(from + Total(sizes[..k]), sizes[k]))
    decreases |sizes|
  {
    hide Dense, Narrow, Part, Parts, Total;
    PartsAt(t, d, from, sizes, k);
    TotalStep(sizes, k);
    if k == 0 {
      PartDense(t, d, Chunk(from, sizes[0]));
    } else {
      PartsDense(t, d, from + sizes[0], sizes[1..], k - 1);
    }
  }

  lemma TotalStep(sizes: seq<nat>, k: nat)
    requires k < |sizes|
    ensures Total(sizes) == sizes[0] + Total(sizes[1..])
    ensures Total(sizes[..k]) == if k == 0 then 0 else sizes[0] + Total(sizes[1..][..k - 1])
  {
    if k > 0 {
      assert sizes[..k][1..] == sizes[1..][..k - 1];
    }
  }

  lemma PartsAt(t: Lora, d: nat, from: nat, sizes: seq<nat>, k: nat)
    requires Valid(t) && d < Axes(t) && from + Total(sizes) <= ShapeOf(t)[d] && k < |sizes|
    ensures Parts(t, d, from, sizes)[k] ==
      if k == 0 then Part(t, d, Chunk(from, sizes[0])) else Parts(t, d, from + sizes[0], sizes[1..])[k - 1]
  {
    hide Part;
  }

  /** Splitting the factors is splitting the product: one chunk per length, each where the ones before it end. */
  lemma SplitDense(t: Lora, sizes: Sizes, dim: int)
    requires Valid(t) && 0 <= dim + Axes(t) && dim < Axes(t)
    ensures var d := Axis(dim, Axes(t));
      var lengths := Lengths(ShapeOf(t)[d], sizes);
      && (Split(t, sizes, dim).Ok? <==> lengths.Ok?)
      && (lengths.Ok? ==> SplitIs(Split(t, sizes, dim).value, Dense(t), d, lengths.value))
  {
    hide Dense, Narrow, Part, Total, Lengths;
    var d := Axis(dim, Axes(t));
    var lengths := Lengths(ShapeOf(t)[d], sizes);
    if lengths.Ok? {
      var ls := lengths.value;
      var chunks := Parts(t, d, 0, ls);
      forall k | 0 <= k < |ls| ensures ChunkIs(chunks[k], Dense(t), d, Total(ls[..k]), ls[k]) {
        PartsDense(t, d, 0, ls, k);
      }
    }
  }

  ghost predicate ChunkIs(chunk: Lora, whole: Tensor, d: nat, from: nat, len: nat) {
    && Valid(chunk) && IsTensor(whole) && d < |whole.shape| && from + len <= whole.shape[d]
    && Dense(chunk) == Narrow(whole, d, Chunk(from, len))
  }

  ghost predicate SplitIs(chunks: seq<Lora>, whole: Tensor, d: nat, lengths: seq<nat>) {
    && |chunks| == |lengths|
    && forall k :: 0 <= k < |chunks| ==> ChunkIs(chunks[k], whole, d, Total(lengths[..k]), lengths[k])
  }

  /**
   A split into listed sizes succeeds exactly when they add up to the axis, one into chunks of size zero
   when the axis is empty.
   */
  lemma SplitSucceeds(t: Lora, sizes: seq<nat>, dim: int)
    requires Valid(t) && 0 <= dim + Axes(t) && dim < Axes(t)
    ensures var d := if dim < 0 then dim + Axes(t) else dim;
      && (Split(t, Each(sizes), dim).Ok? <==> Total(sizes) == ShapeOf(t)[d])
      && (Split(t, Each(sizes), dim).Ok? ==> SplitIs(Split(t, Each(sizes), dim).value, Dense(t), d, sizes))
      && (Split(t, Every(0), dim).Ok? <==> ShapeOf(t)[d] == 0)
      && (!Split(t, Each(sizes), dim).Ok? ==> Split(t, Each(sizes), dim) == ShapeError)
  {
    SplitDense(t, Each(sizes), dim);
    SplitDense(t, Every(0), dim);
    hide Parts, SplitIs, Dense, Total;
  }

  // ---- Chunks of one size ----

  /** How many chunks of one size there are: at least one, and one more for a remainder. */
  function ChunkCount(len: nat, size: nat): nat
    requires size > 0
  {
    if len == 0 then 1 else len / size + if len % size != 0 then 1 else 0
  }

  lemma {:induction false} ChunksBounds(len: nat, size: nat)
    requires size > 0
    ensures var n := |ChunkSizes(len, size)|; n > 0 && len <= n * size && (len > 0 ==> (n - 1) * size < len)
    decreases len
  {
    if len > size {
      ChunksBounds(len - size, size);
      var n := |ChunkSizes(len - size, size)|;
      assert |ChunkSizes(len, size)| == n + 1;
      OneMore(n, size);
      OneMore(n - 1, size);
    }
  }

  lemma ChunkNumber(len: nat, size: nat)
    requires size > 0
    ensures |ChunkSizes(len, size)| == ChunkCount(len, size)
  {
    ChunksBounds(len, size);
    var n := |ChunkSizes(len, size)|;
    OneMore(n - 1, size);
    if len == n * size {
      DivisionUnique(len, size, n, 0);
    } else {
      DivisionUnique(len, size, n - 1, len - (n - 1) * size);
    }
    hide ChunkSizes;
    assert len == 0 ==> n == 1 by { if len == 0 { EmptyChunk(size); } }
  }

  lemma EmptyChunk(size: nat)
    requires size > 0
    ensures ChunkSizes(0, size) == [0]
  {
  }

  lemma {:induction false} ChunkAt(len: nat, size: nat, k: nat)
    requires size > 0 && k < |ChunkSizes(len, size)|
    ensures k * size <= len
    ensures ChunkSizes(len, size)[k] == if len - k * size < size then len - k * size else size
    ensures Total(ChunkSizes(len, size)[..k]) == k * size
    decreases len
  {
    if k > 0 {
      var rest := ChunkSizes(len - size, size);
      ChunkAt(len - size, size, k - 1);
      OneMore(k - 1, size);
      assert ChunkSizes(len, size)[..k] == [size] + rest[..k - 1];
      assert ([size] + rest[..k - 1])[1..] == rest[..k - 1];
    }
  }

  /** Chunk `k` is the part from `k * size` on, as long as `size` or as what is left. */
  ghost predicate ChunksEvery(chunks: seq<Lora>, whole: Tensor, d: nat, len: nat, size: nat)
    requires size > 0
  {
    && |chunks| == ChunkCount(len, size)
    && forall k :: 0 <= k < |chunks| ==>
         && k * size <= len
         && ChunkIs(chunks[k], whole, d, k * size, if len - k * size < size then len - k * size else size)
  }

  /**
   A split into chunks of one size: how many there are, and that chunk `k` is the part of the product from
   `k * size` on, as long as `size` or as what is left.
   */
  lemma SplitEvery(t: Lora, size: nat, dim: int)
    requires Valid(t) && 0 <= dim + Axes(t) && dim < Axes(t) && size > 0
    ensures Split(t, Every(size), dim).Ok?
    ensures var d := if dim < 0 then dim + Axes(t) else dim;
      ChunksEvery(Split(t, Every(size), dim).value, Dense(t), d, ShapeOf(t)[d], size)
  {
    SplitDense(t, Every(size), dim);
    var d := Axis(dim, Axes(t));
    hide Split, SplitIs, ChunksEvery, Dense, ChunkSizes, Total;
    EveryChunk(Split(t, Every(size), dim).value, Dense(t), d, ShapeOf(t)[d], size);
  }

  lemma EveryChunk(chunks: seq<Lora>, whole: Tensor, d: nat, len: nat, size: nat)
    requires size > 0 && SplitIs(chunks, whole, d, ChunkSizes(len, size))
    ensures ChunksEvery(chunks, whole, d, len, size)
  {
    hide ChunkIs, ChunkSizes, Total;
    ChunkNumber(len, size);
    forall k | 0 <= k < |chunks|
      ensures k * size <= len
      ensures ChunkIs(chunks[k], whole, d, k * size, if len - k * size < size then len - k * size else size)
    {
      ChunkAt(len, size, k);
    }
  }

  // ---- Row slicing ----

  /** A slice as Python writes it; every part may be missing. */
  datatype Slice = Slice(start: Option<int>, stop: Option<int>, step: Option<int>)

  function Clamped(bound: int, n: nat): (r: nat)
    ensures r <= n
  {
    if bound < 0 then (if bound + n < 0 then 0 else bound + n) else if bound < n then bound else n
  }

  function Step(s: Slice): int {
    if s.step.Some? then s.step.value else 1
  }

  /** The places a slice with a positive step picks on an axis of length `n`. */
  function PlacesOf(s: Slice, n: nat): (p: Places)
    requires Step(s) > 0
    ensures Reaches(p, n)
  {
    var from := if s.start.Some? then Clamped(s.start.value, n) else 0;
    var to := if s.stop.Some? then Clamped(s.stop.value, n) else n;
    var step := Step(s);
    if to <= from then Places(from, step, 0)
    else
      LastPlace(from, to, step);
      Places(from, step, (to - from - 1) / step + 1)
  }

  lemma LastPlace(from: nat, to: nat, step: nat)
    requires from < to && step > 0
    ensures from + (to - from - 1) / step * step < to
  {
    Division(to - from - 1, step);
  }

  /** Where a slice begins: a negative bound counts from the end. */
  function First(s: Slice, n: nat): int {
    if s.start.None? then 0
    else if s.start.value >= 0 then s.start.value
    else if s.start.value + n < 0 then 0
    else s.start.value + n
  }

  /** Where it ends, at most at the end of the axis. */
  function End(s: Slice, n: nat): int {
    if s.stop.None? then n
    else if s.stop.value < 0 then s.stop.value + n
    else if s.stop.value > n then n
    else s.stop.value
  }

  /** The places of a slice are `first`, `first + step` and so on, as far as they are before `end`. */
  lemma SlicePlaces(s: Slice, n: nat)
    requires Step(s) > 0
    ensures var p, step := PlacesOf(s, n), if s.step.Some? then s.step.value else 1;
      && p.step == step && (p.len == 0 <==> First(s, n) >= End(s, n))
      && (p.len > 0 ==> p.from == First(s, n) && p.from + (p.len - 1) * step < End(s, n) <= p.from + p.len * step)
      && forall j :: 0 <= j < p.len ==> Place(p, j) == p.from + j * step
  {
    var p := PlacesOf(s, n);
    if p.len > 0 {
      var from, to := First(s, n), End(s, n);
      LastPlace(from, to, p.step);
      Division(to - from - 1, p.step);
      OneMore(p.len - 1, p.step);
    }
  }

  /** `t[slice]`: rows of `b` for a matrix; both factors along axis 0, each within its own length, for more axes. */
  function RowSlice(t: Lora, s: Slice): (r: Outcome<Lora>)
    requires Valid(t)
    ensures r.Ok? <==> Step(s) > 0
  {
    if Step(s) <= 0 then ShapeError
    else
      var b := Narrow(t.b, 0, PlacesOf(s, t.b.shape[0]));
      if Axes(t) > 2 then Ok(Lora(Narrow(t.a, 0, PlacesOf(s, t.a.shape[0])), b)) else Ok(Lora(t.a, b))
  }

  /** The slice picks rows, but would pick nothing from the only entry of an axis shared by all rows. */
  predicate CutsShared(t: Lora, s: Slice)
    requires Valid(t) && Step(s) > 0
  {
    Axes(t) > 2 && t.a.shape[0] == 1 && PlacesOf(s, 1).len == 0 && PlacesOf(s, t.b.shape[0]).len > 0
  }

  /**
   A slice is refused exactly when its step is not positive. Slicing the factors is slicing the
   product, exactly unless a shared leading axis of `a` is cut away, which leaves factors that no
   longer fit each other.
   */
  lemma RowSliceDense(t: Lora, s: Slice)
    requires Valid(t)
    ensures RowSlice(t, s).Ok? <==> Step(s) > 0
    ensures Step(s) > 0 ==> var r := RowSlice(t, s).value;
      && (Valid(r) <==> !CutsShared(t, s))
      && (Valid(r) ==> Dense(r) == Narrow(Dense(t), 0, PlacesOf(s, t.b.shape[0])))
  {
    hide Dense, Narrow, PlacesOf, Reaches;
    if Step(s) > 0 {
      var p := PlacesOf(s, t.b.shape[0]);
      if CutsShared(t, s) {
        SharedCut(t, s);
      } else if Axes(t) > 2 && p.len == 0 {
        NothingSliced(t, s);
      } else {
        SliceIsPart(t, s);
        PartDense(t, 0, p);
      }
    }
  }

  lemma SharedCut(t: Lora, s: Slice)
    requires Valid(t) && Step(s) > 0 && CutsShared(t, s)
    ensures !Valid(RowSlice(t, s).value)
  {
    hide Narrow, PlacesOf;
    var r := RowSlice(t, s).value;
    assert r.a.shape[0] == 0 && r.b.shape[0] == PlacesOf(s, t.b.shape[0]).len;
  }

  /** Two rows that share their `a`: `t[1:2]` cannot be sliced off, while `t[-1:]`, the same row, can. */
  lemma RowSliceFails()
    ensures var t := SHARED_ROWS;
      && Valid(t) && !Valid(RowSlice(t, Slice(Some(1), Some(2), None)).value)
      && Valid(RowSlice(t, Slice(Some(-1), None, None)).value)
  {
    SharedRows();
    hide Narrow, Dense;
    RowSliceDense(SHARED_ROWS, Slice(Some(1), Some(2), None));
    RowSliceDense(SHARED_ROWS, Slice(Some(-1), None, None));
  }

  lemma SliceIsPart(t: Lora, s: Slice)
    requires Valid(t) && Step(s) > 0 && !CutsShared(t, s)
    requires PlacesOf(s, t.b.shape[0]).len > 0 || Axes(t) == 2
    ensures RowSlice(t, s).value == Part(t, 0, PlacesOf(s, t.b.shape[0]))
  {
    hide Narrow;
    if Axes(t) > 2 && t.a.shape[0] == 1 {
      OnlyPlace(s);
      NarrowAll(t.a, PlacesOf(s, 1));
    }
  }

  /** From an axis of length one a slice picks its only place, or nothing. */
  lemma OnlyPlace(s: Slice)
    requires Step(s) > 0
    ensures var p := PlacesOf(s, 1); p.len == 0 || (p.len == 1 && p.from == 0)
  {
    var p := PlacesOf(s, 1);
    if p.len > 0 {
      PlaceInside(p, 1, p.len - 1);
      TimesMonotone(p.len - 1, (p.len - 1) * p.step, 1);
      AtLeast(p.len - 1, p.step);
    }
  }

  lemma AtLeast(n: nat, step: nat)
    requires step > 0
    ensures n * step >= n
  {
    TimesMonotone(1, step, n);
  }

  /** The whole of an axis of length one. */
  lemma NarrowAll(a: Tensor, p: Places)
    requires IsTensor(a) && |a.shape| > 0 && a.shape[0] == 1 && p.from == 0 && p.len == 1 && Reaches(p, 1)
    ensures Narrow(a, 0, p) == a
  {
    hide Narrow, At;
    var r := Narrow(a, 0, p);
    assert a.shape[0 := 1] == a.shape;
    forall ix: Index | InShape(ix, a.shape) ensures At(r, ix) == At(a, ix) {
      NarrowAt(a, 0, p, ix);
      assert ix[0] == 0 && Place(p, 0) == 0;
      assert Shift(ix, 0, p) == ix;
    }
    SameTensor(r, a);
  }

  lemma NoIndex(shape: Shape, ix: Index)
    requires |shape| > 0 && shape[0] == 0
    ensures !InShape(ix, shape)
  {
  }

  /** An empty slice. */
  lemma NothingSliced(t: Lora, s: Slice)
    requires Valid(t) && Step(s) > 0 && Axes(t) > 2 && PlacesOf(s, t.b.shape[0]).len == 0 && !CutsShared(t, s)
    ensures var r := RowSlice(t, s).value; Valid(r) && Dense(r) == Narrow(Dense(t), 0, PlacesOf(s, t.b.shape[0]))
  {
    hide Dense, Narrow, Element, At, PlacesOf;
    var r := RowSlice(t, s).value;
    OnlyPlace(s);
    var d := Narrow(Dense(t), 0, PlacesOf(s, t.b.shape[0]));
    assert ShapeOf(r) == d.shape;
    forall ix: Index ensures !InShape(ix, d.shape) {
      NoIndex(d.shape, ix);
    }
    IsDense(r, d);
  }
}
