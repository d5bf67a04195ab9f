/** Exactly for which shapes concatenation along axis 0 gives the concatenated products, whatever the data. */
module LoraCatRows {
  import opened Tensors
  import opened Lora
  import opened LoraCat

  // ---- Empty tensors ----

  lemma CatAtShape(t: Tensor, u: Tensor)
    requires Stackable(t, u)
    ensures t.shape[0] == 0 ==> Cat(t, u).shape == u.shape
    ensures u.shape[0] == 0 ==> Cat(t, u).shape == t.shape
  {
    hide Cat, IsTensor;
    assert t.shape == [t.shape[0]] + t.shape[1..] && u.shape == [u.shape[0]] + u.shape[1..];
  }

  lemma CatEmptyFirst(t: Tensor, u: Tensor)
    requires Stackable(t, u) && t.shape[0] == 0
    ensures Cat(t, u) == u
  {
    hide Cat, At;
    CatAtShape(t, u);
    forall ix: Index | InShape(ix, u.shape) ensures At(Cat(t, u), ix) == At(u, ix) {
      CatAt(t, u, ix);
      assert ix[0 := ix[0] - t.shape[0]] == ix;
    }
    SameTensor(Cat(t, u), u);
  }

  lemma CatEmptyLast(t: Tensor, u: Tensor)
    requires Stackable(t, u) && u.shape[0] == 0
    ensures Cat(t, u) == t
  {
    hide Cat, At;
    CatAtShape(t, u);
    forall ix: Index | InShape(ix, t.shape) ensures At(Cat(t, u), ix) == At(t, ix) {
      CatAt(t, u, ix);
    }
    SameTensor(Cat(t, u), t);
  }

  /** Tensors with leading axes that can be put one after the other. */
  predicate Stack(ts: seq<Lora>) {
    && ts != [] && (forall k :: 0 <= k < |ts| ==> Valid(ts[k])) && Axes(ts[0]) > 2
    && CatTensors(FactorsA(ts)).Ok? && CatTensors(FactorsB(ts)).Ok?
  }

  function Stacked(ts: seq<Lora>): Lora
    requires Stack(ts)
  {
    Lora(CatTensors(FactorsA(ts)).value, CatTensors(FactorsB(ts)).value)
  }

  lemma StackIsCat(ts: seq<Lora>)
    requires ts != [] && (forall k :: 0 <= k < |ts| ==> Valid(ts[k])) && Axes(ts[0]) > 2
    ensures CatLoras(ts).Ok? <==> Stack(ts)
    ensures Stack(ts) ==> CatLoras(ts).value == Stacked(ts)
  {
    hide CatTensors;
    StacksSucceed(ts);
    CatSucceeds(FactorsA(ts));
    CatSucceeds(FactorsB(ts));
  }

  /** The products can be concatenated, and `r` is the concatenation of their factors. */
  ghost predicate Right(ts: seq<Lora>)
    requires Stack(ts)
  {
    Valid(Stacked(ts)) && CatTensors(Denses(ts)).Ok? && Dense(Stacked(ts)) == CatTensors(Denses(ts)).value
  }

  lemma StackParts(ts: seq<Lora>)
    requires Stack(ts) && |ts| > 1
    ensures Stack(ts[1..]) && Denses(ts)[1..] == Denses(ts[1..])
    ensures FactorsA(ts)[1..] == FactorsA(ts[1..]) && FactorsB(ts)[1..] == FactorsB(ts[1..])
    ensures Stackable(ts[0].a, Stacked(ts[1..]).a) && Stackable(ts[0].b, Stacked(ts[1..]).b)
    ensures Stacked(ts) == Lora(Cat(ts[0].a, Stacked(ts[1..]).a), Cat(ts[0].b, Stacked(ts[1..]).b))
    ensures Axes(ts[1]) == Axes(ts[0]) == Axes(Stacked(ts[1..]))
  {
    hide Cat;
    RestOf(ts);
    SameAxes(ts[1..]);
  }

  /** Only the rows of one tensor: the empty ones around it change nothing. */
  lemma {:induction false} OneRow(ts: seq<Lora>)
    requires Stack(ts) && Rows(FactorsA(ts)) == 1
    ensures Right(ts)
    decreases |ts|
  {
    hide Cat, Dense, Stack, Stacked, CatTensors, Valid, Right;
    FirstParts(ts);
    if |ts| == 1 {
      OneRight(ts);
    } else {
      StackParts(ts);
      var t, rest := ts[0], ts[1..];
      if t.a.shape[0] == 0 {
        OneRow(rest);
        EmptyThenRest(ts);
      } else {
        NoRows(rest);
        RestEmpty(ts);
      }
    }
  }

  lemma FirstParts(ts: seq<Lora>)
    requires Stack(ts)
    ensures Valid(ts[0]) && Axes(ts[0]) > 2 && (ts[0].a.shape[0] == 0 || ts[0].a.shape[0] == 1 || OwnLead(ts[0]))
    ensures ts[0].a.shape[0] == 0 ==> ts[0].b.shape[0] == 0
    ensures Rows(FactorsA(ts)) == ts[0].a.shape[0] + if |ts| == 1 then 0 else Rows(FactorsA(ts)[1..])
    ensures Rows(FactorsB(ts)) == ts[0].b.shape[0] + if |ts| == 1 then 0 else Rows(FactorsB(ts)[1..])
  {
    hide CatTensors;
    if |ts| == 1 {
      assert FactorsA(ts)[1..] == [] && FactorsB(ts)[1..] == [];
    }
  }

  lemma OneRight(ts: seq<Lora>)
    requires Stack(ts) && |ts| == 1
    ensures Right(ts) && Stacked(ts) == ts[0]
  {
    hide CatTensors, Dense;
    OneTensor(ts);
  }

  lemma NoRows(ts: seq<Lora>)
    requires Stack(ts) && Rows(FactorsA(ts)) == 0
    ensures Right(ts) && Valid(Stacked(ts)) && Stacked(ts).a.shape[0] == 0 && Stacked(ts).b.shape[0] == 0
  {
    hide CatTensors, Dense, Valid, Rows, CatLoras;
    StackIsCat(ts);
    AllLong(ts);
    NoneLong(ts);
    OwnRight(ts);
    assert forall k :: 0 <= k < |ts| ==> |FactorsA(ts)[k].shape| > 0 by { AllAxesA(ts); }
    CatRows(FactorsA(ts));
  }

  lemma AllLong(ts: seq<Lora>)
    requires Stack(ts)
    ensures forall k :: 0 <= k < |ts| ==> Axes(ts[k]) == Axes(ts[0])
  {
    hide CatTensors;
    CatSucceeds(FactorsB(ts));
    AllAxes(ts);
  }

  lemma AllAxesA(ts: seq<Lora>)
    requires forall k :: 0 <= k < |ts| ==> Valid(ts[k])
    ensures forall k :: 0 <= k < |ts| ==> |FactorsA(ts)[k].shape| > 0
  {
  }

  lemma OwnRight(ts: seq<Lora>)
    requires Stack(ts) && OwnLeads(ts)
    ensures Right(ts) && Valid(Stacked(ts)) && OwnLead(Stacked(ts))
  {
    hide CatTensors, Dense, Valid;
    StacksDense(ts);
  }

  lemma StackableDense(t: Lora, u: Lora)
    requires Valid(t) && Valid(u) && Axes(t) == Axes(u) > 2 && Stackable(t.a, u.a) && Stackable(t.b, u.b)
    ensures Stackable(Dense(t), Dense(u)) && Dense(t).shape[0] == t.b.shape[0] && Dense(u).shape[0] == u.b.shape[0]
  {
    hide Dense, CatShape;
    Tails(t.a.shape, u.a.shape);
    Tails(t.b.shape, u.b.shape);
    LastReplaced(t.b.shape[0 := t.b.shape[0] + u.b.shape[0]], t.b.shape, u.b.shape, t.a.shape[Axes(t) - 1]);
  }

  lemma CatUnfold(ts: seq<Tensor>, u: Tensor)
    requires |ts| > 1 && (forall k :: 0 <= k < |ts| ==> IsTensor(ts[k]))
    requires CatTensors(ts[1..]) == Ok(u) && Stackable(ts[0], u)
    ensures CatTensors(ts) == Ok(Cat(ts[0], u))
  {
    hide Cat, Stackable, IsTensor;
  }

  /** The products of a list whose rest is right. */
  lemma DensesUnfold(ts: seq<Lora>)
    requires Stack(ts) && |ts| > 1 && Stack(ts[1..]) && Right(ts[1..])
    requires var u := Stacked(ts[1..]); Axes(ts[0]) == Axes(u) > 2 && Stackable(ts[0].a, u.a) && Stackable(ts[0].b, u.b)
    ensures Valid(ts[0]) && var t, u := ts[0], Stacked(ts[1..]);
      && Valid(u) && Stackable(Dense(t), Dense(u)) && Dense(t).shape[0] == t.b.shape[0]
      && Dense(u).shape[0] == u.b.shape[0]
      && CatTensors(Denses(ts)) == Ok(Cat(Dense(t), Dense(u)))
  {
    hide Cat, Dense, CatTensors, Stackable, IsTensor, Stacked;
    StackableDense(ts[0], Stacked(ts[1..]));
    assert Denses(ts)[1..] == Denses(ts[1..]);
    assert Denses(ts)[0] == Dense(ts[0]);
    CatUnfold(Denses(ts), Dense(Stacked(ts[1..])));
  }

  lemma RightWith(ts: seq<Lora>, r: Lora)
    requires Stack(ts) && Stacked(ts) == r && Valid(r) && CatTensors(Denses(ts)) == Ok(Dense(r))
    ensures Right(ts)
  {
    hide Dense, Stack, Stacked, CatTensors, Valid;
  }

  lemma EmptyThenRest(ts: seq<Lora>)
    requires Stack(ts) && |ts| > 1 && ts[0].a.shape[0] == 0 && Stack(ts[1..]) && Right(ts[1..])
    ensures Right(ts)
  {
    hide Cat, Dense, CatTensors, Stackable, Valid, Denses, Stack, Stacked, FactorsA, FactorsB, Rows;
    StackParts(ts);
    FirstParts(ts);
    DensesUnfold(ts);
    var t, u := ts[0], Stacked(ts[1..]);
    CatEmptyFirst(t.a, u.a);
    CatEmptyFirst(t.b, u.b);
    CatEmptyFirst(Dense(t), Dense(u));
    RightWith(ts, u);
  }

  lemma RestEmpty(ts: seq<Lora>)
    requires Stack(ts) && |ts| > 1 && Stack(ts[1..]) && Right(ts[1..])
    requires Stacked(ts[1..]).a.shape != [] && Stacked(ts[1..]).a.shape[0] == 0
    requires Stacked(ts[1..]).b.shape != [] && Stacked(ts[1..]).b.shape[0] == 0
    ensures Right(ts)
  {
    hide Cat, Dense, CatTensors, Stackable, Valid, Denses, Stack, Stacked, FactorsA, FactorsB, Rows;
    StackParts(ts);
    FirstParts(ts);
    DensesUnfold(ts);
    var t, u := ts[0], Stacked(ts[1..]);
    CatEmptyLast(t.a, u.a);
    CatEmptyLast(t.b, u.b);
    CatEmptyLast(Dense(t), Dense(u));
    RightWith(ts, t);
  }

  lemma {:induction false} NoneLong(ts: seq<Lora>)
    requires (forall k :: 0 <= k < |ts| ==> Valid(ts[k]) && Axes(ts[k]) > 2) && Rows(FactorsA(ts)) == 0
    ensures OwnLeads(ts) && forall k :: 0 <= k < |ts| ==> ts[k].a.shape[0] == 0
    decreases |ts|
  {
    if ts != [] {
      var rest := ts[1..];
      assert FactorsA(ts)[1..] == FactorsA(rest);
      NoneLong(rest);
      forall k | 0 <= k < |ts| ensures ts[k].a.shape[0] == 0 && OwnLead(ts[k]) {
        assert k > 0 ==> ts[k] == rest[k - 1];
        ShortIsEmpty(if k > 0 then rest[k - 1] else ts[0]);
      }
    }
  }

  lemma ShortIsEmpty(t: Lora)
    requires Valid(t) && Axes(t) > 2 && t.a.shape[0] == 0
    ensures OwnLead(t)
  {
  }

  // ---- The products, whatever the factors ----

  lemma SameDenseTail(ts: seq<Lora>, k: nat)
    requires Stack(ts) && k < |ts|
    ensures |Dense(ts[k]).shape| == Axes(ts[0]) && Dense(ts[k]).shape[0] == ts[k].b.shape[0]
    ensures forall j :: 0 < j < Axes(ts[0]) ==> Dense(ts[k]).shape[j] == ShapeOf(ts[0])[j]
  {
    hide CatTensors, Dense, IsTensor;
    CatSucceeds(FactorsA(ts));
    CatSucceeds(FactorsB(ts));
    Tails(FactorsA(ts)[k].shape, FactorsA(ts)[0].shape);
    Tails(FactorsB(ts)[k].shape, FactorsB(ts)[0].shape);
  }

  lemma DenseRows(ts: seq<Lora>)
    requires forall k :: 0 <= k < |ts| ==> Valid(ts[k]) && Axes(ts[k]) > 2
    ensures Rows(Denses(ts)) == Rows(FactorsB(ts))
  {
    if ts != [] {
      hide Dense;
      assert Denses(ts)[1..] == Denses(ts[1..]) && FactorsB(ts)[1..] == FactorsB(ts[1..]);
      DenseRows(ts[1..]);
    }
  }

  /** The products can always be concatenated. */
  lemma DensesStack(ts: seq<Lora>)
    requires Stack(ts)
    ensures CatTensors(Denses(ts)).Ok?
    ensures var s := CatTensors(Denses(ts)).value.shape;
      |s| == Axes(ts[0]) && s[0] == Rows(FactorsB(ts)) && forall k :: 0 < k < |s| ==> s[k] == ShapeOf(ts[0])[k]
  {
    hide CatTensors, Dense, Rows, Valid, FactorsA, FactorsB, SameTails;
    var ds := Denses(ts);
    FirstParts(ts);
    forall k | 0 <= k < |ds| ensures |ds[k].shape| == |ds[0].shape| > 0 && ds[k].shape[1..] == ds[0].shape[1..] {
      SameDenseTail(ts, k);
      SameDenseTail(ts, 0);
      Tails(ds[k].shape, ds[0].shape);
    }
    assert SameTails(ds) by { TailsOf(ds); }
    CatSucceeds(ds);
    CatRows(ds);
    AllLong(ts);
    DenseRows(ts);
    Tails(CatTensors(ds).value.shape, ds[0].shape);
  }

  lemma TailsOf(ts: seq<Tensor>)
    requires ts != [] && forall k :: 0 <= k < |ts| ==>
      |ts[k].shape| == |ts[0].shape| > 0 && ts[k].shape[1..] == ts[0].shape[1..]
    ensures SameTails(ts)
  {
  }

  // ---- Rows that are read at the wrong place ----

  function MarkAt(m: int, ix: Index): real {
    if ix != [] && ix[0] == m then 1.0 else 0.0
  }

  /** Ones in row `m` of axis 0, zeros elsewhere. */
  function Marked(shape: Shape, m: int): (t: Tensor)
    ensures IsTensor(t) && t.shape == shape
  {
    Build(shape, ix => MarkAt(m, ix))
  }

  function Full(shape: Shape): (t: Tensor)
    ensures IsTensor(t) && t.shape == shape
  {
    Build(shape, ix => 1.0)
  }

  predicate SameShape(u: Lora, t: Lora) {
    Valid(u) && Valid(t) && u.a.shape == t.a.shape && u.b.shape == t.b.shape
  }

  predicate SameShapes(us: seq<Lora>, ts: seq<Lora>) {
    |us| == |ts| && forall k :: 0 <= k < |ts| ==> SameShape(us[k], ts[k])
  }

  function Mark(t: Lora, m: int): (u: Lora)
    requires Valid(t)
    ensures SameShape(u, t)
  {
    Lora(Marked(t.a.shape, m), Full(t.b.shape))
  }

  /** Row `m` of all the rows of `a`, counted through the list, is marked. */
  function Marks(ts: seq<Lora>, m: int): (us: seq<Lora>)
    requires forall k :: 0 <= k < |ts| ==> Valid(ts[k])
    ensures SameShapes(us, ts)
  {
    if ts == [] then [] else [Mark(ts[0], m)] + Marks(ts[1..], m - ts[0].a.shape[0])
  }

  /** All of `b` is one, and of `a` row `m`. */
  ghost predicate IsMark(u: Lora, m: int) {
    && IsTensor(u.a) && IsTensor(u.b)
    && (forall ix: Index :: InShape(ix, u.a.shape) ==> At(u.a, ix) == MarkAt(m, ix))
    && (forall ix: Index :: InShape(ix, u.b.shape) ==> At(u.b, ix) == 1.0)
  }

  lemma MarkIsMark(t: Lora, m: int)
    requires Valid(t)
    ensures IsMark(Mark(t, m), m)
  {
    hide At, Build, InShape;
    var u := Mark(t, m);
    forall ix: Index | InShape(ix, u.a.shape) ensures At(u.a, ix) == MarkAt(m, ix) {
      BuildAt(t.a.shape, ix => MarkAt(m, ix), ix);
    }
    forall ix: Index | InShape(ix, u.b.shape) ensures At(u.b, ix) == 1.0 {
      BuildAt(t.b.shape, ix => 1.0, ix);
    }
  }

  lemma {:induction false} SumSame(terms: seq<real>, c: real)
    requires forall k :: 0 <= k < |terms| ==> terms[k] == c
    ensures Sum(terms) == c * |terms| as real
  {
    if terms != [] {
      SumSame(terms[..|terms| - 1], c);
    }
  }

  /** The row of `a` that an element of the product reads. */
  function ReadRow(u: Lora, i: nat): nat
    requires u.a.shape != []
  {
    if u.a.shape[0] == 1 then 0 else i
  }

  /** An element of a marked product is not zero exactly when it reads the marked row. */
  lemma MarkedElement(u: Lora, m: int, ix: Index)
    requires Valid(u) && IsMark(u, m) && Axes(u) > 2 && InShape(ix, ShapeOf(u))
    ensures Element(u, ix) == if ReadRow(u, ix[0]) == m then Rank(u) as real else 0.0
  {
    hide At;
    var c := if ReadRow(u, ix[0]) == m then 1.0 else 0.0;
    forall k | 0 <= k < Rank(u) ensures Terms(u, ix)[k] == c {
      assert IndexA(u, ix, k)[0] == ReadRow(u, ix[0]);
    }
    SumSame(Terms(u, ix), c);
  }

  lemma CatMarks(t: Lora, u: Lora, m: int)
    requires IsMark(t, m) && |t.a.shape| > 0 && IsMark(u, m - t.a.shape[0]) && Stackable(t.a, u.a)
      && Stackable(t.b, u.b)
    ensures IsMark(Lora(Cat(t.a, u.a), Cat(t.b, u.b)), m)
  {
    hide At, Cat, Stackable;
    var a, b := Cat(t.a, u.a), Cat(t.b, u.b);
    forall ix: Index | InShape(ix, a.shape) ensures At(a, ix) == MarkAt(m, ix) {
      CatAt(t.a, u.a, ix);
    }
    forall ix: Index | InShape(ix, b.shape) ensures At(b, ix) == 1.0 {
      CatAt(t.b, u.b, ix);
    }
  }

  lemma MarksRest(ts: seq<Lora>, m: int)
    requires ts != [] && forall k :: 0 <= k < |ts| ==> Valid(ts[k])
    ensures Marks(ts, m)[0] == Mark(ts[0], m) && Marks(ts, m)[1..] == Marks(ts[1..], m - ts[0].a.shape[0])
  {
    hide Mark, Valid;
  }

  lemma MarkedFirst(ts: seq<Lora>, m: int)
    requires Stack(ts)
    ensures IsMark(Marks(ts, m)[0], m)
  {
    hide IsMark, CatTensors;
    MarksRest(ts, m);
    MarkIsMark(ts[0], m);
  }

  lemma {:induction false} StackedMarks(ts: seq<Lora>, m: int)
    requires Stack(ts)
    ensures Stack(Marks(ts, m)) && IsMark(Stacked(Marks(ts, m)), m)
    decreases |ts|
  {
    hide IsMark, Stacked, CatTensors, Valid, Marks, Mark, FactorsA, FactorsB;
    var us := Marks(ts, m);
    SameStack(us, ts);
    MarkedFirst(ts, m);
    if |ts| == 1 {
      OneRight(us);
    } else {
      StackParts(ts);
      MarksRest(ts, m);
      StackedMarks(ts[1..], m - ts[0].a.shape[0]);
      MarkedJoin(us, m);
    }
  }

  lemma MarkedJoin(us: seq<Lora>, m: int)
    requires Stack(us) && |us| > 1 && Stack(us[1..]) && IsMark(us[0], m) && |us[0].a.shape| > 0
    requires IsMark(Stacked(us[1..]), m - us[0].a.shape[0])
    ensures IsMark(Stacked(us), m)
  {
    hide IsMark, Stacked, CatTensors, Valid, Cat, Stackable, FactorsA, FactorsB, Stack;
    StackParts(us);
    CatMarks(us[0], Stacked(us[1..]), m);
  }

  lemma {:induction false} SameLists(ts: seq<Tensor>, us: seq<Tensor>)
    requires |ts| == |us| && forall k :: 0 <= k < |ts| ==>
      IsTensor(ts[k]) && IsTensor(us[k]) && us[k].shape == ts[k].shape
    ensures ts != [] ==>
      CatTensors(us).Ok? == CatTensors(ts).Ok?
      && (CatTensors(ts).Ok? ==> CatTensors(us).value.shape == CatTensors(ts).value.shape)
    decreases |ts|
  {
    hide Cat, IsTensor;
    if |ts| > 1 {
      SameLists(ts[1..], us[1..]);
    }
  }

  /** Whether lists can be concatenated depends on shapes only. */
  lemma SameStack(us: seq<Lora>, ts: seq<Lora>)
    requires Stack(ts) && SameShapes(us, ts)
    ensures Stack(us) && Stacked(us).a.shape == Stacked(ts).a.shape && Stacked(us).b.shape == Stacked(ts).b.shape
  {
    hide CatTensors, Valid;
    SameLists(FactorsA(ts), FactorsA(us));
    SameLists(FactorsB(ts), FactorsB(us));
  }

  /** The products one after the other. */
  function DenseStack(ts: seq<Lora>): (d: Tensor)
    requires Stack(ts)
    ensures IsTensor(d) && |d.shape| == Axes(ts[0]) > 2
  {
    DensesStack(ts);
    CatTensors(Denses(ts)).value
  }

  /** The first tensor gives the first rows of the products, the others the rest. */
  lemma DenseStackAt(ts: seq<Lora>, ix: Index)
    requires Stack(ts) && InShape(ix, DenseStack(ts).shape)
    ensures |ix| > 0 && Valid(ts[0])
    ensures ix[0] < ts[0].b.shape[0] ==> InShape(ix, ShapeOf(ts[0])) && At(DenseStack(ts), ix) == Element(ts[0], ix)
    ensures ix[0] >= ts[0].b.shape[0] ==>
      var jx := Below(ix, ts[0].b.shape[0]);
      && |ts| > 1 && Stack(ts[1..]) && InShape(jx, DenseStack(ts[1..]).shape)
      && At(DenseStack(ts), ix) == At(DenseStack(ts[1..]), jx)
  {
    hide At, Cat, Dense, Element, DenseStack, FactorsA, FactorsB, CatTensors;
    SameDenseTail(ts, 0);
    if |ts| == 1 {
      OneDense(ts);
      DenseAt(ts[0], ix);
    } else {
      StackParts(ts);
      DenseStackUnfold(ts);
      CatAt(Dense(ts[0]), DenseStack(ts[1..]), ix);
      if ix[0] < ts[0].b.shape[0] {
        DenseAt(ts[0], ix);
      }
    }
  }

  lemma OneDense(ts: seq<Lora>)
    requires Stack(ts) && |ts| == 1
    ensures DenseStack(ts) == Dense(ts[0])
  {
    hide Dense, CatTensors;
    DensesStack(ts);
    OneTensor(ts);
  }

  lemma DenseStackUnfold(ts: seq<Lora>)
    requires Stack(ts) && |ts| > 1 && Stack(ts[1..]) && Denses(ts)[1..] == Denses(ts[1..])
    ensures Stackable(Dense(ts[0]), DenseStack(ts[1..])) && DenseStack(ts) == Cat(Dense(ts[0]), DenseStack(ts[1..]))
  {
    hide Dense, Cat, Stackable, FactorsA, FactorsB;
    DensesStack(ts);
    DensesStack(ts[1..]);
  }

  /** Rows of `b` that start `skew` rows before those of `a` still read the right ones. */
  predicate RowsAligned(t: Lora, skew: int)
    requires Valid(t)
  {
    t.b.shape[0] == 0 || (skew == 0 && OwnLead(t))
  }

  predicate Aligned(ts: seq<Lora>, skew: int)
    requires forall k :: 0 <= k < |ts| ==> Valid(ts[k])
  {
    ts == [] || (RowsAligned(ts[0], skew) && Aligned(ts[1..], skew + ts[0].a.shape[0] - ts[0].b.shape[0]))
  }

  /** When both factors have as many rows, only tensors that do not share axis 0 are aligned. */
  lemma {:induction false} AlignedOwn(ts: seq<Lora>, skew: nat)
    requires (forall k :: 0 <= k < |ts| ==> Valid(ts[k]) && Axes(ts[k]) > 2) && Aligned(ts, skew)
    requires skew + Rows(FactorsA(ts)) == Rows(FactorsB(ts))
    ensures skew == 0 && OwnLeads(ts)
    decreases |ts|
  {
    if ts != [] {
      var t, rest := ts[0], ts[1..];
      assert FactorsA(ts)[1..] == FactorsA(rest) && FactorsB(ts)[1..] == FactorsB(rest);
      AlignedOwn(rest, skew + t.a.shape[0] - t.b.shape[0]);
      assert OwnLead(t);
      assert forall k :: 0 < k < |ts| ==> ts[k] == rest[k - 1];
    }
  }

  /** The lengths that decide whether there is anything to compare. */
  predicate HasTerms(t: Lora)
    requires Valid(t)
  {
    Rank(t) > 0 && forall k :: 0 < k < Axes(t) ==> ShapeOf(t)[k] > 0
  }

  /** Row `i` of the products is nowhere zero. */
  ghost predicate Nonzero(us: seq<Lora>, i: nat) {
    Stack(us) && forall ix: Index :: InShape(ix, DenseStack(us).shape) && ix[0] == i ==> At(DenseStack(us), ix) != 0.0
  }

  /** A row of the products and a row of `a`: marking it, the first is not zero, but it is not the row read for it. */
  lemma {:induction false} Misplaced(ts: seq<Lora>, skew: int) returns (i: nat, m: nat)
    requires Stack(ts) && !Aligned(ts, skew) && Rank(ts[0]) > 0
    ensures i != m + skew && i < Rows(FactorsB(ts)) && m < Rows(FactorsA(ts))
    ensures Nonzero(Marks(ts, m), i)
    decreases |ts|
  {
    hide Nonzero, CatTensors, Marks, FactorsA, FactorsB, Rows, Valid, Aligned;
    var t := ts[0];
    FirstAxis(t);
    if RowsAligned(t, skew) {
      RestMisaligned(ts, skew);
      hide Stack, RowsAligned;
      i, m := Misplaced(ts[1..], skew + t.a.shape[0] - t.b.shape[0]);
      MisplacedLater(ts, i, m);
      i, m := i + t.b.shape[0], m + t.a.shape[0];
    } else {
      FirstParts(ts);
      i, m := if skew != 0 then 0 else 1, 0;
      MisplacedHere(ts, i);
    }
  }

  lemma RestMisaligned(ts: seq<Lora>, skew: int)
    requires Stack(ts) && !Aligned(ts, skew) && RowsAligned(ts[0], skew)
    ensures |ts| > 1 && Stack(ts[1..]) && |ts[0].a.shape| > 0 && |ts[0].b.shape| > 0
    ensures !Aligned(ts[1..], skew + ts[0].a.shape[0] - ts[0].b.shape[0]) && Rank(ts[1]) == Rank(ts[0])
    ensures Rows(FactorsA(ts)) == ts[0].a.shape[0] + Rows(FactorsA(ts[1..]))
    ensures Rows(FactorsB(ts)) == ts[0].b.shape[0] + Rows(FactorsB(ts[1..]))
  {
    hide CatTensors, FactorsA, FactorsB, Rows, Valid, RowsAligned;
    FirstParts(ts);
    if |ts| == 1 { AlignedUnfold(ts, skew); }
    StackParts(ts);
    SameRank(ts);
  }

  lemma AlignedUnfold(ts: seq<Lora>, skew: int)
    requires |ts| == 1 && Valid(ts[0]) && RowsAligned(ts[0], skew)
    ensures Aligned(ts, skew)
  {
  }

  lemma FirstAxis(t: Lora)
    requires Valid(t) && Axes(t) > 2
    ensures |t.a.shape| == |t.b.shape| == Axes(t) && (t.a.shape[0] == 1 || OwnLead(t))
  {
  }

  lemma MarkedNonzero(us: seq<Lora>, i: nat)
    requires Stack(us) && IsMark(us[0], 0) && Rank(us[0]) > 0 && i < us[0].b.shape[0] && ReadRow(us[0], i) == 0
    ensures Nonzero(us, i)
  {
    hide At, DenseStack, Element, CatTensors, FactorsA, FactorsB, IsMark;
    forall ix: Index | InShape(ix, DenseStack(us).shape) && ix[0] == i ensures At(DenseStack(us), ix) != 0.0 {
      DenseStackAt(us, ix);
      MarkedElement(us[0], 0, ix);
    }
  }

  lemma MisplacedHere(ts: seq<Lora>, i: nat)
    requires Stack(ts) && Rank(ts[0]) > 0 && i < ts[0].b.shape[0] && ReadRow(ts[0], i) == 0
    ensures Nonzero(Marks(ts, 0), i)
  {
    hide Nonzero, CatTensors, Marks, FactorsA, FactorsB, IsMark;
    SameStack(Marks(ts, 0), ts);
    MarkedFirst(ts, 0);
    MarkedNonzero(Marks(ts, 0), i);
  }

  lemma NonzeroLater(us: seq<Lora>, i: nat)
    requires Stack(us) && |us| > 1 && Nonzero(us[1..], i) && |us[0].b.shape| > 0
    ensures Nonzero(us, i + us[0].b.shape[0])
  {
    hide At, DenseStack, Element, CatTensors, Valid, FactorsA, FactorsB;
    forall ix: Index | InShape(ix, DenseStack(us).shape) && ix[0] == i + us[0].b.shape[0]
      ensures At(DenseStack(us), ix) != 0.0 {
      DenseStackAt(us, ix);
    }
  }

  lemma MisplacedLater(ts: seq<Lora>, i: nat, m: nat)
    requires Stack(ts) && |ts| > 1 && Stack(ts[1..])
    requires Nonzero(Marks(ts[1..], m), i) && |ts[0].a.shape| > 0 && |ts[0].b.shape| > 0
    ensures Nonzero(Marks(ts, m + ts[0].a.shape[0]), i + ts[0].b.shape[0])
  {
    hide Nonzero, CatTensors, Mark, Marks, Valid, FactorsA, FactorsB;
    var n := m + ts[0].a.shape[0];
    SameStack(Marks(ts, n), ts);
    MarksRest(ts, n);
    NonzeroLater(Marks(ts, n), i);
  }

  lemma SameRank(ts: seq<Lora>)
    requires Stack(ts) && |ts| > 1
    ensures Rank(ts[1]) == Rank(ts[0])
  {
    hide CatTensors;
    CatSucceeds(FactorsB(ts));
    Tails(FactorsB(ts)[1].shape, FactorsB(ts)[0].shape);
  }

  // ---- The condition ----

  function Lead(i: nat, n: nat): (ix: Index)
    requires n > 0
    ensures |ix| == n && ix[0] == i && forall k :: 0 < k < n ==> ix[k] == 0
  {
    seq(n, k => if k == 0 then i else 0)
  }

  /** Rows of both factors, when their number decides. */
  lemma StackedRows(ts: seq<Lora>)
    requires Stack(ts)
    ensures Axes(Stacked(ts)) == Axes(ts[0]) == |Stacked(ts).a.shape|
    ensures Stacked(ts).a.shape[0] == Rows(FactorsA(ts)) && Stacked(ts).b.shape[0] == Rows(FactorsB(ts))
    ensures forall k :: 0 < k < Axes(ts[0]) ==>
      Stacked(ts).a.shape[k] == ts[0].a.shape[k] && Stacked(ts).b.shape[k] == ts[0].b.shape[k]
    ensures Valid(Stacked(ts)) <==> Rows(FactorsA(ts)) == 1 || Rows(FactorsA(ts)) == Rows(FactorsB(ts))
  {
    hide CatTensors, FactorsA, FactorsB, Rows, CatLoras;
    StackIsCat(ts);
    AllLong(ts);
    CatSharedLead(ts);
    StacksSucceed(ts);
    CatRows(FactorsA(ts));
    CatRows(FactorsB(ts));
  }

  /** When a row is read at the wrong place, marking it shows. */
  lemma MisplacedShows(ts: seq<Lora>) returns (us: seq<Lora>)
    requires Stack(ts) && HasTerms(ts[0]) && !OwnLeads(ts) && Rows(FactorsA(ts)) == Rows(FactorsB(ts))
    ensures SameShapes(us, ts) && Stack(us) && !Right(us)
  {
    hide Nonzero, CatTensors, Marks, FactorsA, FactorsB, Rows, Valid, Aligned, At, Dense, Element, Stacked, IsMark,
      HasTerms, OwnLeads;
    AllLong(ts);
    if Aligned(ts, 0) {
      AlignedOwn(ts, 0);
    }
    assert Rank(ts[0]) > 0 by { TermsRank(ts[0]); }
    var i, m := Misplaced(ts, 0);
    us := Marks(ts, m);
    StackedMarks(ts, m);
    if Right(us) {
      NotRight(ts, us, i, m);
    }
  }

  lemma TermsRank(t: Lora)
    requires Valid(t) && HasTerms(t)
    ensures Rank(t) > 0
  {
  }

  lemma StackShape(ts: seq<Lora>)
    requires Stack(ts)
    ensures var s := DenseStack(ts).shape;
      |s| == Axes(ts[0]) && s[0] == Rows(FactorsB(ts)) && forall k :: 0 < k < |s| ==> s[k] == ShapeOf(ts[0])[k]
  {
    hide CatTensors, Rows, Valid, FactorsA, FactorsB, Dense;
    DensesStack(ts);
  }

  lemma LeadInside(ts: seq<Lora>, i: nat)
    requires Stack(ts) && HasTerms(ts[0]) && i < Rows(FactorsB(ts))
    ensures InShape(Lead(i, Axes(ts[0])), DenseStack(ts).shape)
  {
    hide CatTensors, Rows, FactorsA, FactorsB, DenseStack;
    StackShape(ts);
  }

  lemma RightIsDense(ts: seq<Lora>)
    requires Stack(ts)
    ensures Right(ts) <==> Valid(Stacked(ts)) && DenseStack(ts) == Dense(Stacked(ts))
  {
    hide CatTensors, Dense, Stacked, Valid, FactorsA, FactorsB;
    DensesStack(ts);
  }

  lemma NotRight(ts: seq<Lora>, us: seq<Lora>, i: nat, m: nat)
    requires Stack(ts) && HasTerms(ts[0]) && i < Rows(FactorsB(ts)) == Rows(FactorsA(ts)) && i != m
    requires Stack(us) && SameShapes(us, ts) && IsMark(Stacked(us), m) && Nonzero(us, i)
    ensures !Right(us)
  {
    hide CatTensors, Rows, FactorsA, FactorsB, DenseStack, Dense, Right, Element, Stacked, At, IsMark, Valid;
    SameStack(us, ts);
    StackedRows(us);
    StackedRows(ts);
    SameTerms(us[0], ts[0]);
    LeadInside(us, i);
    RightIsDense(us);
    if Right(us) {
      var r, ix := Stacked(us), Lead(i, Axes(us[0]));
      MarkedElement(r, m, ix);
      DenseAt(r, ix);
      assert false;
    }
  }

  lemma SameTerms(u: Lora, t: Lora)
    requires SameShape(u, t)
    ensures Axes(u) == Axes(t) && HasTerms(u) == HasTerms(t)
  {
    assert ShapeOf(u) == ShapeOf(t);
  }

  /** Without terms or without rows and columns to compare, the factors only have to fit. */
  lemma NoTermsRight(ts: seq<Lora>)
    requires Stack(ts) && !HasTerms(ts[0]) && Rows(FactorsA(ts)) == Rows(FactorsB(ts))
    ensures Right(ts)
  {
    hide CatTensors, Rows, FactorsA, FactorsB, DenseStack, Dense, Right, Element, Stacked, At;
    StackedRows(ts);
    StackShape(ts);
    RightIsDense(ts);
    var r, d := Stacked(ts), DenseStack(ts);
    assert d.shape == ShapeOf(r);
    forall ix: Index | InShape(ix, d.shape) ensures At(d, ix) == Element(r, ix) {
      NoTermsAt(ts, r, ix);
    }
    IsDense(r, d);
  }

  lemma NoTermsAt(ts: seq<Lora>, r: Lora, ix: Index)
    requires Stack(ts) && !HasTerms(ts[0]) && InShape(ix, DenseStack(ts).shape)
    requires Valid(r) && InShape(ix, ShapeOf(r)) && Rank(r) == Rank(ts[0])
    ensures At(DenseStack(ts), ix) == Element(r, ix)
  {
    hide CatTensors, Rows, FactorsA, FactorsB, DenseStack, Element, At;
    StackShape(ts);
    assert Rank(ts[0]) == 0;
    NothingSummed(r, ix);
    ZeroStack(ts, ix);
  }

  lemma NothingSummed(t: Lora, ix: Index)
    requires Valid(t) && InShape(ix, ShapeOf(t)) && Rank(t) == 0
    ensures Element(t, ix) == 0.0
  {
    assert Terms(t, ix) == [];
  }

  lemma {:induction false} ZeroStack(ts: seq<Lora>, ix: Index)
    requires Stack(ts) && Rank(ts[0]) == 0 && InShape(ix, DenseStack(ts).shape)
    ensures At(DenseStack(ts), ix) == 0.0
    decreases |ts|
  {
    hide CatTensors, FactorsA, FactorsB, DenseStack, Element, At, Valid, Rank;
    DenseStackAt(ts, ix);
    if ix[0] < ts[0].b.shape[0] {
      NothingSummed(ts[0], ix);
    } else {
      SameRank(ts);
      ZeroStack(ts[1..], Below(ix, ts[0].b.shape[0]));
    }
  }

  /** `torch.cat` succeeds, and the product of the result is the concatenation of the products. */
  ghost predicate Concatenates(ts: seq<Lora>)
    requires ts != [] && forall k :: 0 <= k < |ts| ==> Valid(ts[k])
  {
    && CatLoras(ts).Ok? && Valid(CatLoras(ts).value) && CatTensors(Denses(ts)).Ok?
    && Dense(CatLoras(ts).value) == CatTensors(Denses(ts)).value
  }

  lemma RightConcatenates(ts: seq<Lora>)
    requires Stack(ts)
    ensures Right(ts) <==> Concatenates(ts)
  {
    hide CatTensors, Dense, Stacked, CatLoras, Valid;
    StackIsCat(ts);
  }

  /** One row of `a` in all, or as many as of `b`, each read at its place. */
  predicate RowsFit(ts: seq<Lora>)
    requires ts != [] && forall k :: 0 <= k < |ts| ==> Valid(ts[k])
  {
    var rows, other := Rows(FactorsA(ts)), Rows(FactorsB(ts));
    rows == 1 || (rows == other && (OwnLeads(ts) || !HasTerms(ts[0])))
  }

  lemma FitsRight(ts: seq<Lora>)
    requires Stack(ts) && RowsFit(ts)
    ensures Right(ts)
  {
    hide CatTensors, Rows, FactorsA, FactorsB, Right, HasTerms;
    if Rows(FactorsA(ts)) == 1 {
      OneRow(ts);
    } else if OwnLeads(ts) {
      OwnRight(ts);
    } else {
      NoTermsRight(ts);
    }
  }

  lemma SameFit(us: seq<Lora>, ts: seq<Lora>)
    requires Stack(ts) && Stack(us) && SameShapes(us, ts)
    ensures RowsFit(us) <==> RowsFit(ts)
  {
    hide CatTensors, Rows, FactorsA, FactorsB, HasTerms, Stacked;
    SameStack(us, ts);
    StackedRows(us);
    StackedRows(ts);
    SameTerms(us[0], ts[0]);
    SameLeads(us, ts);
  }

  lemma SameLeads(us: seq<Lora>, ts: seq<Lora>)
    requires SameShapes(us, ts) && forall k :: 0 <= k < |ts| ==> Valid(ts[k]) && Valid(us[k])
    ensures OwnLeads(us) <==> OwnLeads(ts)
  {
    hide Valid;
    assert forall k :: 0 <= k < |ts| ==> OwnLead(us[k]) == OwnLead(ts[k]);
  }

  lemma MisfitShows(ts: seq<Lora>) returns (us: seq<Lora>)
    requires Stack(ts) && !RowsFit(ts)
    ensures SameShapes(us, ts) && Stack(us) && !Right(us)
  {
    hide CatTensors, Rows, FactorsA, FactorsB, HasTerms, Stacked, OwnLeads, Dense;
    StackedRows(ts);
    if Rows(FactorsA(ts)) == Rows(FactorsB(ts)) {
      us := MisplacedShows(ts);
    } else {
      us := ts;
    }
  }

  /**
   With leading axes, for every list of shapes, empty ones included: the concatenation is right
   whatever the data exactly when there is one row of `a` in all, or both factors have as many rows and
   no tensor shares axis 0 or there is nothing to compare.
   */
  lemma CatShapes(ts: seq<Lora>)
    requires ts != [] && (forall k :: 0 <= k < |ts| ==> Valid(ts[k])) && Axes(ts[0]) > 2 && CatLoras(ts).Ok?
    ensures (forall us :: SameShapes(us, ts) ==> Concatenates(us)) <==> RowsFit(ts)
  {
    hide CatTensors, RowsFit, Right, CatLoras, Concatenates;
    StackIsCat(ts);
    if RowsFit(ts) {
      forall us | SameShapes(us, ts) ensures Concatenates(us) {
        SameStack(us, ts);
        SameFit(us, ts);
        FitsRight(us);
        RightConcatenates(us);
      }
    } else {
      var us := MisfitShows(ts);
      RightConcatenates(us);
    }
  }

  /**
   Concatenating matrices succeeds exactly when they have the same `a`, with leading axes exactly when
   both factors agree on all axes but the first. It concatenates the products of matrices, of tensors
   none of which shares axis 0 of its `a`, and of tensors whose rows fit.
   */
  lemma CatDense(ts: seq<Lora>)
    requires ts != [] && forall k :: 0 <= k < |ts| ==> Valid(ts[k])
    ensures CatLoras(ts).Ok? <==>
      if Axes(ts[0]) == 2 then forall k :: 0 <= k < |ts| ==> ts[k].a == ts[0].a
      else SameTails(FactorsA(ts)) && SameTails(FactorsB(ts))
    ensures !CatLoras(ts).Ok? ==> CatLoras(ts) == if Axes(ts[0]) == 2 then NotImplemented else ShapeError
    ensures CatLoras(ts).Ok? && (Axes(ts[0]) == 2 || OwnLeads(ts) || RowsFit(ts)) ==> Concatenates(ts)
  {
    hide Cat, Dense, CatTensors, OwnLeads, SameTails, RowsFit, Right;
    if Axes(ts[0]) == 2 {
      if SameA(ts) {
        MatricesDense(ts);
      }
    } else {
      StacksSucceed(ts);
      StackIsCat(ts);
      if CatLoras(ts).Ok? {
        RightConcatenates(ts);
        if OwnLeads(ts) {
          OwnRight(ts);
        } else if RowsFit(ts) {
          FitsRight(ts);
        }
      }
    }
  }

  /** A tensor without rows, whose shared `a` still has one. */
  const NO_ROWS := Lora(Tensor([1, 1, 1], [0.0]), Tensor([0, 1, 1], []))

  lemma NoRowsValid()
    ensures Valid(NO_ROWS)
  {
    var s, u: Shape := [1, 1, 1], [0, 1, 1];
    assert s[..2] == [1, 1] && s[..2][..1] == [1] && s[..2][..1][..0] == [];
    assert u[..2] == [0, 1] && u[..2][..1] == [0] && u[..2][..1][..0] == [];
    assert Prod([1]) == 1 && Prod([1, 1]) == 1 && Prod(s) == 1;
    assert Prod([0]) == 0 && Prod([0, 1]) == 0 && Prod(u) == 0;
  }

  lemma SameEverywhere(t: Tensor, c: real)
    requires IsTensor(t) && forall k :: 0 <= k < |t.data| ==> t.data[k] == c
    ensures forall ix: Index :: InShape(ix, t.shape) ==> At(t, ix) == c
  {
    forall ix: Index | InShape(ix, t.shape) ensures At(t, ix) == c {
      OffsetInRange(t.shape, ix);
    }
  }

  /**
   Two rows with a shared `a`, and a tensor without rows: the factors of the result fit, but its second
   row reads the `a` of the second tensor.
   */
  lemma CatEmptyFails()
    ensures Valid(SHARED_ROWS) && Valid(NO_ROWS)
    ensures var ts := [SHARED_ROWS, NO_ROWS]; CatLoras(ts).Ok? && Valid(CatLoras(ts).value) && !Concatenates(ts)
  {
    EmptyStack();
    var ts := [SHARED_ROWS, NO_ROWS];
    EmptyMisread(ts);
    hide CatTensors, FactorsA, FactorsB, CatLoras, Concatenates, Right, Stacked, Dense;
    StackIsCat(ts);
    RightConcatenates(ts);
  }

  lemma EmptyMisread(ts: seq<Lora>)
    requires ts == [SHARED_ROWS, NO_ROWS] && Stack(ts) && Stack(ts[1..]) && Stacked(ts[1..]) == NO_ROWS
    requires Rows(FactorsA(ts)) == Rows(FactorsB(ts)) == 2
    ensures Valid(Stacked(ts)) && !Right(ts)
  {
    EmptyMarks();
    hide CatTensors, FactorsA, FactorsB, Stacked, IsMark, Right, Stack, Rows, Dense, Nonzero;
    MarkedJoin(ts, 0);
    MarkedNonzero(ts, 1);
    StackedRows(ts);
    NotRight(ts, ts, 1, 0);
  }

  lemma EmptyMarks()
    ensures IsMark(SHARED_ROWS, 0) && IsMark(NO_ROWS, -1)
  {
    SharedRows();
    NoRowsValid();
    SameEverywhere(SHARED_ROWS.a, 1.0);
    SameEverywhere(SHARED_ROWS.b, 1.0);
    SameEverywhere(NO_ROWS.a, 0.0);
    SameEverywhere(NO_ROWS.b, 1.0);
  }

  lemma EmptyStack()
    ensures Valid(SHARED_ROWS) && Valid(NO_ROWS)
    ensures var ts := [SHARED_ROWS, NO_ROWS]; Stack(ts) && Stack(ts[1..]) && Stacked(ts[1..]) == NO_ROWS
    ensures var ts := [SHARED_ROWS, NO_ROWS]; Rows(FactorsA(ts)) == Rows(FactorsB(ts)) == 2
  {
    SharedRows();
    NoRowsValid();
    var ts := [SHARED_ROWS, NO_ROWS];
    assert ts[1..] == [NO_ROWS];
    OneStackIs(NO_ROWS);
    assert FactorsA(ts) == [SHARED_ROWS.a, NO_ROWS.a] && FactorsB(ts) == [SHARED_ROWS.b, NO_ROWS.b];
    TwoRows(SHARED_ROWS.a, NO_ROWS.a);
    TwoRows(SHARED_ROWS.b, NO_ROWS.b);
  }

  lemma TwoRows(t: Tensor, u: Tensor)
    requires |t.shape| > 0 && |u.shape| > 0
    ensures Rows([t, u]) == t.shape[0] + u.shape[0]
  {
    assert [t, u][1..] == [u] && [u][1..] == [];
    assert Rows([u]) == u.shape[0];
  }

  lemma OneStackIs(t: Lora)
    requires Valid(t) && Axes(t) > 2
    ensures Stack([t]) && Stacked([t]) == t
  {
    hide Dense;
    OneTensor([t]);
  }
}
